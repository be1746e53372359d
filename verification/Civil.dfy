/** Proleptic Gregorian dates as day numbers, and wall clocks as ticks.
  *
  * Day 0 is 0001-01-01, which is a Monday. A tick is one nanosecond, the
  * resolution of the date library the repository uses. */
module Civil {
  import opened Wrappers

  type Date = nat
  type Wall = nat

  const SECOND := 1_000_000_000
  const DAY := 86_400 * SECOND

  function DateOf(w: Wall): Date { w / DAY }

  function TimeOf(w: Wall): nat { w % DAY }

  function At(d: Date, time: nat): Wall { d * DAY + time }

  lemma AtParts(d: Date, time: nat)
    requires time < DAY
    ensures DateOf(At(d, time)) == d && TimeOf(At(d, time)) == time
  {
  }

  predicate Leap(year: nat) { year % 4 == 0 && (year % 100 != 0 || year % 400 == 0) }

  function MonthLength(leap: bool, month: nat): (n: nat)
    ensures 28 <= n <= 31
  {
    if month == 2 then (if leap then 29 else 28)
    else if month == 4 || month == 6 || month == 9 || month == 11 then 30 else 31
  }

  /** A calendar month: month 1..12 of a year from 1 on. */
  datatype YearMonth = YearMonth(year: nat, month: nat) {
    predicate Valid() { 1 <= year && 1 <= month <= 12 }

    function Length(): (n: nat)
      ensures 28 <= n <= 31
    {
      MonthLength(Leap(year), month)
    }

    function Next(): (n: YearMonth)
      requires Valid()
      ensures n.Valid() && n.Index() == Index() + 1
    {
      if month == 12 then YearMonth(year + 1, 1) else YearMonth(year, month + 1)
    }

    /** The position of the month in the count the MONTHLY loop steps through. */
    function Index(): int { 12 * year + month - 1 }

    /** The first day of the month. */
    function Start(): Date
      requires Valid()
    {
      MonthStart(year, month)
    }
  }

  function MonthStart(year: nat, month: nat): Date
    requires 1 <= year && 1 <= month <= 12
  {
    if 1 < month then MonthStart(year, month - 1) + YearMonth(year, month - 1).Length()
    else if 1 < year then MonthStart(year - 1, 12) + YearMonth(year - 1, 12).Length()
    else 0
  }

  lemma StartOfNextYear(year: nat)
    requires 1 <= year
    ensures MonthStart(year + 1, 1) == MonthStart(year, 12) + YearMonth(year, 12).Length()
  {
  }

  lemma StartOfNext(m: YearMonth)
    requires m.Valid()
    ensures m.Next().Start() == m.Start() + m.Length()
  {
    if m.month == 12 {
      StartOfNextYear(m.year);
    } else {
      StartLaterInYear(m.year, m.month);
    }
  }

  lemma StartLaterInYear(year: nat, month: nat)
    requires 1 <= year && 1 <= month < 12
    ensures MonthStart(year, month + 1) == MonthStart(year, month) + YearMonth(year, month).Length()
  {
  }

  lemma {:induction false} StartMonotone(m: YearMonth, n: YearMonth)
    requires m.Valid() && n.Valid() && m.Index() < n.Index()
    ensures m.Next().Start() <= n.Start()
    decreases n.Index() - m.Index()
  {
    var next := m.Next();
    if next != n {
      StartMonotone(next, n);
      StartOfNext(next);
    }
  }

  /** The month that contains day d. */
  function MonthOf(d: Date): (m: YearMonth)
    ensures m.Valid() && m.Start() <= d < m.Next().Start()
  {
    if d == 0 then YearMonth(1, 1)
    else
      var m := MonthOf(d - 1);
      StartOfNext(m.Next());
      if d < m.Next().Start() then m else m.Next()
  }

  lemma MonthUnique(d: Date, m: YearMonth)
    requires m.Valid() && m.Start() <= d < m.Next().Start()
    ensures MonthOf(d) == m
  {
    hide MonthStart, Leap, MonthLength;
    var n := MonthOf(d);
    if n.Index() < m.Index() {
      StartMonotone(n, m);
    } else if m.Index() < n.Index() {
      StartMonotone(m, n);
    }
  }

  lemma MonthsOrderDates(d: Date, e: Date)
    requires MonthOf(d).Index() < MonthOf(e).Index()
    ensures d < e
  {
    StartMonotone(MonthOf(d), MonthOf(e));
  }

  function DayOfMonth(d: Date): (n: nat)
    ensures 1 <= n <= MonthOf(d).Length()
  {
    StartOfNext(MonthOf(d));
    d - MonthOf(d).Start() + 1
  }

  /** from_ymd_opt: None unless the day exists in the month. */
  function FromYmd(m: YearMonth, day: int): (r: Option<Date>)
    requires m.Valid()
  {
    if 1 <= day <= m.Length() then Some(m.Start() + day - 1) else None
  }

  /** Month and day determine the date, and the date determines them. */
  lemma YmdRoundTrip(m: YearMonth, day: int, d: Date)
    requires m.Valid()
    ensures FromYmd(m, day) == Some(d) <==> MonthOf(d) == m && DayOfMonth(d) == day
  {
    StartOfNext(m);
    if FromYmd(m, day) == Some(d) {
      MonthUnique(d, m);
    }
  }

  /** The repository asks for the day before the first of the next month. */
  function DaysInMonth(m: YearMonth): (n: nat)
    requires m.Valid()
    ensures n == m.Length()
  {
    StartOfNext(m);
    var last := FromYmd(m.Next(), 1).value - 1;
    MonthUnique(last, m);
    DayOfMonth(last)
  }

  // The closed form of the Gregorian calendar, which Start agrees with.

  function DaysBeforeYear(year: nat): int
    requires 1 <= year
  {
    365 * (year - 1) + (year - 1) / 4 - (year - 1) / 100 + (year - 1) / 400
  }

  function DaysBeforeMonth(leap: bool, month: nat): nat
    requires 1 <= month <= 12
  {
    [0, 31, 59, 90, 120, 151, 181, 212, 243, 273, 304, 334][month - 1] + if leap && 2 < month then 1 else 0
  }

  lemma QuotientSteps(n: nat)
    ensures (n + 1) / 4 == n / 4 + if (n + 1) % 4 == 0 then 1 else 0
    ensures (n + 1) / 100 == n / 100 + if (n + 1) % 100 == 0 then 1 else 0
    ensures (n + 1) / 400 == n / 400 + if (n + 1) % 400 == 0 then 1 else 0
  {
  }

  lemma LeapCycles(year: nat)
    ensures year % 400 == 0 ==> year % 100 == 0
    ensures year % 100 == 0 ==> year % 4 == 0
  {
    if year % 400 == 0 {
      assert year == 100 * (4 * (year / 400));
    }
    if year % 100 == 0 {
      assert year == 4 * (25 * (year / 100));
    }
  }

  lemma YearLength(year: nat)
    requires 1 <= year
    ensures DaysBeforeYear(year + 1) == DaysBeforeYear(year) + if Leap(year) then 366 else 365
  {
    QuotientSteps(year - 1);
    LeapCycles(year);
  }

  lemma MonthStep(leap: bool, month: nat)
    requires 1 <= month < 12
    ensures DaysBeforeMonth(leap, month + 1) == DaysBeforeMonth(leap, month) + MonthLength(leap, month)
  {
  }

  lemma {:induction false} StartClosedForm(year: nat, month: nat)
    requires 1 <= year && 1 <= month <= 12
    ensures MonthStart(year, month) == DaysBeforeYear(year) + DaysBeforeMonth(Leap(year), month)
    decreases year, month
  {
    if 1 < month {
      StartClosedForm(year, month - 1);
      MonthStep(Leap(year), month - 1);
    } else if 1 < year {
      StartClosedForm(year - 1, 12);
      YearLength(year - 1);
    }
  }

  function Weekday(d: Date): (w: nat)
    ensures w < 7
  {
    d % 7
  }

  /** Weeks are seven-day blocks from Monday. */
  function WeekIndex(d: Date): nat { d / 7 }
}
