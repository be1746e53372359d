/** What the candidate lists contain: each is exactly a set of dates given by
  * calendar arithmetic, and is ascending under a condition on the rule. */
module RecurrenceDates {
  import opened Wrappers
  import opened Civil
  import opened Recurrence
  import opened Divides

  predicate Ascending(ds: seq<int>) {
    forall i, j | 0 <= i < j < |ds| :: ds[i] < ds[j]
  }

  lemma AscendingConcat(a: seq<int>, b: seq<int>)
    requires Ascending(a) && Ascending(b)
    requires forall x, y | x in a && y in b :: x < y
    ensures Ascending(a + b)
  {
    forall i, j | 0 <= i < j < |a + b| ensures (a + b)[i] < (a + b)[j] {
      if i < |a| <= j {
        assert (a + b)[i] in a && (a + b)[j] in b;
      }
    }
  }

  // ----- days of a month -----

  lemma {:induction false} DaysWhereExact(from: Date, n: nat, filter: DayFilter)
    ensures forall d: Date :: d in DaysWhere(from, n, filter) <==> from <= d < from + n && filter.Keeps(d)
    ensures Ascending(DaysWhere(from, n, filter))
  {
    hide DayFilter.Keeps;
    if n > 0 {
      DaysWhereExact(from, n - 1, filter);
      if filter.Keeps(from + n - 1) {
        AscendingConcat(DaysWhere(from, n - 1, filter), [from + n - 1]);
      }
    }
  }

  lemma WeekArithmetic(first: nat, n: nat, w: nat, off: nat)
    requires w < 7 && 1 <= n && off == (w - first % 7) % 7
    ensures (first + n - 1) % 7 == w <==> (n - 1 - off) % 7 == 0
    ensures (n + 6 - off) / 7 == (n + 5 - off) / 7 + if (n - 1 - off) % 7 == 0 then 1 else 0
    ensures (n - 1 - off) % 7 == 0 ==> n - 1 == off + 7 * ((n + 5 - off) / 7)
  {
    assert (first % 7 + off) % 7 == w;
  }

  /** The weekdays of a run of days: the first is (w - first) mod 7 days in, then every seventh. */
  lemma {:induction false} WeekdayRun(first: Date, n: nat, w: nat)
    requires w < 7
    ensures var off := (w - Weekday(first)) % 7;
            var ds := DaysWhere(first, n, OnWeekday(w));
            && |ds| == (n + 6 - off) / 7
            && forall j | 0 <= j < |ds| :: ds[j] == first + off + 7 * j
  {
    if n > 0 {
      WeekdayRun(first, n - 1, w);
      var off := (w - Weekday(first)) % 7;
      WeekArithmetic(first, n, w, off);
    }
  }

  /** Whether the day at this offset of an n-day month is the ordinal-th such
    * weekday: weeks from the start of the month, or from its end. */
  predicate NthAt(offset: int, n: nat, ordinal: int) {
    if 0 < ordinal then offset / 7 == ordinal - 1
    else ordinal < 0 && (n - 1 - offset) / 7 == -ordinal - 1
  }

  predicate IsNthWeekday(d: Date, ordinal: int) {
    NthAt(DayOfMonth(d) - 1, DaysInMonth(MonthOf(d)), ordinal)
  }

  /** nth_weekday_of_month in closed form, for positive, negative and zero ordinals. */
  lemma NthWeekdayClosedForm(m: YearMonth, weekday: nat, ordinal: int, d: Date)
    requires m.Valid() && weekday < 7
    ensures NthWeekdayOfMonth(m, weekday, ordinal) == Some(d) <==>
            MonthOf(d) == m && Weekday(d) == weekday && IsNthWeekday(d, ordinal)
  {
    hide MonthStart, DaysWhere, NthOf, NthAt;
    var first, n := m.Start(), DaysInMonth(m);
    WeekdayRun(first, n, weekday);
    DaysWhereExact(first, n, OnWeekday(weekday));
    InMonth(m, d);
    NthOfRun(DaysWhere(first, n, OnWeekday(weekday)), first, n, (weekday - Weekday(first)) % 7, ordinal, d);
  }

  lemma InMonth(m: YearMonth, d: Date)
    requires m.Valid()
    ensures MonthOf(d) == m <==> m.Start() <= d < m.Start() + DaysInMonth(m)
  {
    hide MonthStart;
    StartOfNext(m);
    if m.Start() <= d < m.Start() + DaysInMonth(m) {
      MonthUnique(d, m);
    }
  }

  /** Indexing a seven-day run from either end is counting weeks from either end. */
  lemma NthOfRun(ds: seq<Date>, first: Date, n: nat, off: nat, ordinal: int, d: Date)
    requires off < 7 <= n && |ds| == (n + 6 - off) / 7
    requires forall j | 0 <= j < |ds| :: ds[j] == first + off + 7 * j
    ensures NthOf(ds, ordinal) == Some(d) <==> d in ds && NthAt(d - first, n, ordinal)
  {
    if d in ds {
      var j :| 0 <= j < |ds| && ds[j] == d;
      assert (d - first) / 7 == j;
      assert (n - 1 - (d - first)) / 7 == |ds| - 1 - j;
    }
  }

  // ----- candidates of a month -----

  predicate MatchesByDay(b: ByDay, d: Date) {
    Weekday(d) == b.weekday && (b.ordinal.Some? ==> IsNthWeekday(d, b.ordinal.value))
  }

  /** The day test of a MONTHLY or YEARLY rule. */
  predicate MatchesInMonth(rule: Rule, d: Date, anchorDay: nat) {
    if rule.byMonthday != [] then MatchesMonthday(d, rule.byMonthday)
    else if rule.byDay != [] then exists i | 0 <= i < |rule.byDay| :: MatchesByDay(rule.byDay[i], d)
    else DayOfMonth(d) == anchorDay
  }

  lemma {:induction false} ByDayDatesExact(m: YearMonth, entries: seq<ByDay>, d: Date)
    requires m.Valid() && forall i | 0 <= i < |entries| :: entries[i].weekday < 7
    ensures d in ByDayDates(m, entries) <==>
            MonthOf(d) == m && exists i | 0 <= i < |entries| :: MatchesByDay(entries[i], d)
  {
    hide MonthStart, EntryDates, MatchesByDay;
    if entries != [] {
      var init, last := entries[..|entries| - 1], entries[|entries| - 1];
      ByDayDatesExact(m, init, d);
      EntryDatesExact(m, last, d);
      assert forall i | 0 <= i < |init| :: init[i] == entries[i];
    }
  }

  lemma EntryDatesExact(m: YearMonth, b: ByDay, d: Date)
    requires m.Valid() && b.weekday < 7
    ensures d in EntryDates(m, b) <==> MonthOf(d) == m && MatchesByDay(b, d)
  {
    hide MonthStart, DaysWhere, NthWeekdayOfMonth, IsNthWeekday;
    match b.ordinal {
      case Some(n) => NthWeekdayClosedForm(m, b.weekday, n, d);
      case None =>
        InMonth(m, d);
        DaysWhereExact(m.Start(), DaysInMonth(m), OnWeekday(b.weekday));
    }
  }

  lemma MonthDatesExact(rule: Rule, m: YearMonth, anchorDay: nat, d: Date)
    requires rule.Valid() && m.Valid()
    ensures d in MonthDates(rule, m, anchorDay) <==> MonthOf(d) == m && MatchesInMonth(rule, d, anchorDay)
  {
    InMonth(m, d);
    if rule.byMonthday != [] {
      DaysWhereExact(m.Start(), DaysInMonth(m), OnMonthday(rule.byMonthday));
    } else if rule.byDay != [] {
      ByDayDatesExact(m, rule.byDay, d);
    } else {
      YmdRoundTrip(m, anchorDay, d);
    }
  }

  /** Within a month the candidates ascend unless several BYDAY entries interleave. */
  predicate OneDayList(rule: Rule) { rule.byMonthday != [] || |rule.byDay| <= 1 }

  lemma MonthDatesAscend(rule: Rule, m: YearMonth, anchorDay: nat)
    requires m.Valid() && OneDayList(rule)
    ensures Ascending(MonthDates(rule, m, anchorDay))
  {
    hide MonthStart, NthWeekdayOfMonth, DaysWhere;
    if rule.byMonthday != [] {
      DaysWhereExact(m.Start(), DaysInMonth(m), OnMonthday(rule.byMonthday));
    } else if rule.byDay != [] {
      assert ByDayDates(m, rule.byDay[..0]) == [];
      assert ByDayDates(m, rule.byDay) == EntryDates(m, rule.byDay[0]);
      match rule.byDay[0].ordinal {
        case Some(n) =>
        case None => DaysWhereExact(m.Start(), DaysInMonth(m), OnWeekday(rule.byDay[0].weekday));
      }
    }
  }

  // ----- candidates of a period -----

  /** How far d's period lies from the anchor's: in days, months or years. */
  function Distance(rule: Rule, anchor: Date, d: Date): int {
    match rule.freq
    case Daily | Weekly => d - anchor
    case Monthly => MonthOf(d).Index() - MonthOf(anchor).Index()
    case Yearly => MonthOf(d).year - MonthOf(anchor).year
  }

  /** The rule as a set of later dates, independent of how they are generated. */
  predicate Matches(rule: Rule, anchor: Date, d: Date)
    requires rule.Valid()
  {
    && 0 < Distance(rule, anchor, d)
    && match rule.freq
       case Daily | Weekly => DayPasses(rule, anchor, d)
       case Monthly =>
         && Multiple(Distance(rule, anchor, d), rule.interval)
         && (rule.byMonth == [] || MonthOf(d).month in rule.byMonth)
         && MatchesInMonth(rule, d, DayOfMonth(anchor))
       case Yearly =>
         && Multiple(Distance(rule, anchor, d), rule.interval)
         && MonthOf(d).month in YearMonths(rule, anchor)
         && MatchesInMonth(rule, d, DayOfMonth(anchor))
  }

  function Unit(rule: Rule, k: nat): nat {
    if rule.freq.Daily? || rule.freq.Weekly? then k else Stride(rule, k)
  }

  lemma {:induction false} YearDatesExact(rule: Rule, year: nat, months: seq<nat>, anchorDay: nat, d: Date)
    requires rule.Valid() && 1 <= year && forall i | 0 <= i < |months| :: 1 <= months[i] <= 12
    ensures d in YearDates(rule, year, months, anchorDay) <==>
            MonthOf(d).year == year && MonthOf(d).month in months && MatchesInMonth(rule, d, anchorDay)
  {
    if months != [] {
      MonthDatesExact(rule, YearMonth(year, months[0]), anchorDay, d);
      YearDatesExact(rule, year, months[1..], anchorDay, d);
    }
  }

  lemma StrideDivides(rule: Rule, k: nat)
    requires rule.Valid() && 1 <= k
    ensures Multiple(Stride(rule, k), rule.interval) && k <= Stride(rule, k)
  {
    MultipleOf(k, rule.interval);
    MulMonotone(k, 1, rule.interval);
  }

  lemma SameIndex(m: YearMonth, n: YearMonth)
    requires m.Valid() && n.Valid()
    ensures m.Index() == n.Index() <==> m == n
  {
  }

  lemma MonthPeriodExact(rule: Rule, anchor: Date, stride: nat, d: Date)
    requires rule.Valid()
    ensures d in MonthPeriod(rule, anchor, stride) <==>
            && MonthOf(d).Index() == MonthOf(anchor).Index() + stride
            && (rule.byMonth == [] || MonthOf(d).month in rule.byMonth)
            && MatchesInMonth(rule, d, DayOfMonth(anchor))
  {
    var m := MonthByIndex(MonthOf(anchor).Index() + stride);
    SameIndex(MonthOf(d), m);
    MonthDatesExact(rule, m, DayOfMonth(anchor), d);
  }

  lemma YearPeriodExact(rule: Rule, anchor: Date, stride: nat, d: Date)
    requires rule.Valid()
    ensures d in YearPeriod(rule, anchor, stride) <==>
            && MonthOf(d).year == MonthOf(anchor).year + stride
            && MonthOf(d).month in YearMonths(rule, anchor)
            && MatchesInMonth(rule, d, DayOfMonth(anchor))
  {
    hide MatchesInMonth, YearDates, YearMonths, MonthStart;
    YearDatesExact(rule, MonthOf(anchor).year + stride, YearMonths(rule, anchor), DayOfMonth(anchor), d);
  }

  lemma MonthlyExact(rule: Rule, anchor: Date, k: nat, d: Date)
    requires rule.Valid() && rule.freq.Monthly? && 1 <= k
    ensures d in PeriodDates(rule, anchor, k) <==>
            Matches(rule, anchor, d) && Distance(rule, anchor, d) == Unit(rule, k)
  {
    hide MatchesInMonth, MonthPeriod, Multiple, Stride, MonthStart;
    StrideDivides(rule, k);
    MonthPeriodExact(rule, anchor, Stride(rule, k), d);
  }

  lemma YearlyExact(rule: Rule, anchor: Date, k: nat, d: Date)
    requires rule.Valid() && rule.freq.Yearly? && 1 <= k
    ensures d in PeriodDates(rule, anchor, k) <==>
            Matches(rule, anchor, d) && Distance(rule, anchor, d) == Unit(rule, k)
  {
    hide MatchesInMonth, YearPeriod, YearMonths, Multiple, Stride, MonthStart;
    StrideDivides(rule, k);
    YearPeriodExact(rule, anchor, Stride(rule, k), d);
  }

  /** Period k holds exactly the matching dates at distance k units. */
  lemma PeriodDatesExact(rule: Rule, anchor: Date, k: nat, d: Date)
    requires rule.Valid() && 1 <= k
    ensures d in PeriodDates(rule, anchor, k) <==>
            Matches(rule, anchor, d) && Distance(rule, anchor, d) == Unit(rule, k)
  {
    hide PeriodDates, Matches, Unit, Distance;
    match rule.freq {
      case Daily | Weekly => DailyExact(rule, anchor, k, d);
      case Monthly => MonthlyExact(rule, anchor, k, d);
      case Yearly => YearlyExact(rule, anchor, k, d);
    }
  }

  lemma DailyExact(rule: Rule, anchor: Date, k: nat, d: Date)
    requires rule.Valid() && (rule.freq.Daily? || rule.freq.Weekly?) && 1 <= k
    ensures d in PeriodDates(rule, anchor, k) <==>
            Matches(rule, anchor, d) && Distance(rule, anchor, d) == Unit(rule, k)
  {
    hide DayPasses;
  }

  // ----- order of periods -----

  /** Every month list ascends and, for YEARLY, the months do. */
  predicate Orderly(rule: Rule) {
    || rule.freq.Daily?
    || rule.freq.Weekly?
    || (OneDayList(rule) && (rule.freq.Yearly? ==> Ascending(rule.byMonth)))
  }

  lemma {:induction false} YearDatesAscend(rule: Rule, year: nat, months: seq<nat>, anchorDay: nat)
    requires rule.Valid() && 1 <= year && forall i | 0 <= i < |months| :: 1 <= months[i] <= 12
    requires OneDayList(rule) && Ascending(months)
    ensures Ascending(YearDates(rule, year, months, anchorDay))
  {
    hide MonthDates, MatchesInMonth, OneDayList;
    if months != [] {
      var head, tail :=
        MonthDates(rule, YearMonth(year, months[0]), anchorDay), YearDates(rule, year, months[1..], anchorDay);
      MonthDatesAscend(rule, YearMonth(year, months[0]), anchorDay);
      YearDatesAscend(rule, year, months[1..], anchorDay);
      forall x, y | x in head && y in tail ensures x < y {
        MonthDatesExact(rule, YearMonth(year, months[0]), anchorDay, x);
        YearDatesExact(rule, year, months[1..], anchorDay, y);
        MonthsOrderDates(x, y);
      }
      AscendingConcat(head, tail);
    }
  }

  lemma PeriodDatesAscend(rule: Rule, anchor: Date, k: nat)
    requires rule.Valid() && 1 <= k && Orderly(rule)
    ensures Ascending(PeriodDates(rule, anchor, k))
  {
    hide MonthDates, Stride, DayPasses, MonthStart;
    match rule.freq {
      case Daily | Weekly =>
      case Monthly =>
        MonthDatesAscend(rule, MonthByIndex(MonthOf(anchor).Index() + Stride(rule, k)), DayOfMonth(anchor));
      case Yearly =>
        YearDatesAscend(rule, MonthOf(anchor).year + Stride(rule, k), YearMonths(rule, anchor), DayOfMonth(anchor));
    }
  }

  lemma UnitOrder(rule: Rule, j: nat, k: nat)
    requires rule.Valid()
    ensures Unit(rule, j) < Unit(rule, k) <==> j < k
  {
    if j < k {
      MulMonotone(rule.interval, j + 1, k);
    } else {
      MulMonotone(rule.interval, k, j);
    }
  }

  /** A matching date lies a whole number of periods after the anchor. */
  lemma PeriodIndex(rule: Rule, anchor: Date, d: Date) returns (j: nat)
    requires rule.Valid() && Matches(rule, anchor, d)
    ensures 1 <= j && Distance(rule, anchor, d) == Unit(rule, j)
  {
    hide MatchesInMonth, DayPasses, YearMonths;
    var n := Distance(rule, anchor, d);
    match rule.freq {
      case Daily | Weekly => j := n;
      case Monthly | Yearly => j := Quotient(n, rule.interval);
    }
  }

  /** Dates at a greater distance are later. */
  lemma DistanceOrders(rule: Rule, anchor: Date, d: Date, e: Date)
    requires Distance(rule, anchor, d) < Distance(rule, anchor, e)
    ensures d < e
  {
    if rule.freq.Monthly? || rule.freq.Yearly? {
      MonthsOrderDates(d, e);
    }
  }
}
