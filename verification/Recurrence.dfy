/** The RRULE subset of section 3.3.10 of RFC 5545: rules, the candidate dates
  * of each period, and the expansion loop with its COUNT, UNTIL, window and
  * step-cap cuts. */
module Recurrence {
  import opened Wrappers
  import opened Civil
  import opened Zones
  import opened Divides

  datatype Freq = Daily | Weekly | Monthly | Yearly

  /** BYDAY entry: a weekday (0 is Monday), optionally the nth of its month. */
  datatype ByDay = ByDay(weekday: nat, ordinal: Option<int>)

  datatype Rule = Rule(
    freq: Freq,
    interval: nat,
    count: Option<nat>,
    untilInstant: Option<int>,
    untilDate: Option<Date>,
    byDay: seq<ByDay>,
    byMonthday: seq<int>,
    byMonth: seq<nat>)
  {
    /** What the parser guarantees. */
    predicate Valid() {
      && 1 <= interval
      && (forall i | 0 <= i < |byMonth| :: 1 <= byMonth[i] <= 12)
      && (forall i | 0 <= i < |byDay| :: byDay[i].weekday < 7)
    }
  }

  /** The hard per-expansion step cap. */
  const STEP_CAP: nat := 200_000

  // ----- dates of one month -----

  predicate MatchesMonthday(d: Date, days: seq<int>) {
    exists i | 0 <= i < |days| ::
      DayOfMonth(d) == if 0 < days[i] then days[i] else DaysInMonth(MonthOf(d)) + 1 + days[i]
  }

  datatype DayFilter = OnWeekday(weekday: nat) | OnMonthday(days: seq<int>) {
    predicate Keeps(d: Date) {
      match this
      case OnWeekday(weekday) => Weekday(d) == weekday
      case OnMonthday(days) => MatchesMonthday(d, days)
    }
  }

  /** The days from..from+n-1 that the filter keeps, ascending. */
  function DaysWhere(from: Date, n: nat, filter: DayFilter): seq<Date> {
    if n == 0 then []
    else DaysWhere(from, n - 1, filter) + if filter.Keeps(from + n - 1) then [from + n - 1] else []
  }

  /** The ordinal-th entry, counted from the end when negative. */
  function NthOf(ds: seq<Date>, ordinal: int): Option<Date> {
    if ordinal == 0 then None
    else
      var index := if 0 < ordinal then ordinal - 1 else |ds| + ordinal;
      if 0 <= index < |ds| then Some(ds[index]) else None
  }

  function NthWeekdayOfMonth(m: YearMonth, weekday: nat, ordinal: int): Option<Date>
    requires m.Valid()
  {
    NthOf(DaysWhere(m.Start(), DaysInMonth(m), OnWeekday(weekday)), ordinal)
  }

  /** One BYDAY entry: the nth such weekday of the month, or all of them. */
  function EntryDates(m: YearMonth, b: ByDay): seq<Date>
    requires m.Valid()
  {
    match b.ordinal
    case Some(n) =>
      (match NthWeekdayOfMonth(m, b.weekday, n)
       case Some(d) => [d]
       case None => [])
    case None => DaysWhere(m.Start(), DaysInMonth(m), OnWeekday(b.weekday))
  }

  function ByDayDates(m: YearMonth, entries: seq<ByDay>): seq<Date>
    requires m.Valid()
  {
    if entries == [] then []
    else ByDayDates(m, entries[..|entries| - 1]) + EntryDates(m, entries[|entries| - 1])
  }

  /** Candidates of one month: BYMONTHDAY, else BYDAY in entry order, else the anchor's day. */
  function MonthDates(rule: Rule, m: YearMonth, anchorDay: nat): seq<Date>
    requires m.Valid()
  {
    if rule.byMonthday != [] then
      DaysWhere(m.Start(), DaysInMonth(m), OnMonthday(rule.byMonthday))
    else if rule.byDay != [] then ByDayDates(m, rule.byDay)
    else match FromYmd(m, anchorDay)
      case Some(d) => [d]
      case None => []
  }

  // ----- dates of one period: a day, an interval of months, an interval of years -----

  predicate HasWeekday(entries: seq<ByDay>, weekday: nat) {
    exists i | 0 <= i < |entries| :: entries[i].weekday == weekday
  }

  /** The filters of the day loop; WEEKLY without BYDAY keeps the anchor's weekday. */
  predicate DayPasses(rule: Rule, anchor: Date, d: Date)
    requires 1 <= rule.interval && anchor <= d
  {
    && (rule.byMonth == [] || MonthOf(d).month in rule.byMonth)
    && (rule.byMonthday == [] || MatchesMonthday(d, rule.byMonthday))
    && (if rule.freq.Weekly? then Multiple(WeekIndex(d) - WeekIndex(anchor), rule.interval)
        else Multiple(d - anchor, rule.interval))
    && (if rule.byDay != [] then HasWeekday(rule.byDay, Weekday(d))
        else rule.freq.Weekly? ==> Weekday(d) == Weekday(anchor))
  }

  function MonthByIndex(index: int): (m: YearMonth)
    requires 12 <= index
    ensures m.Valid() && m.Index() == index
  {
    YearMonth(index / 12, index % 12 + 1)
  }

  function YearDates(rule: Rule, year: nat, months: seq<nat>, anchorDay: nat): seq<Date>
    requires 1 <= year && forall i | 0 <= i < |months| :: 1 <= months[i] <= 12
  {
    if months == [] then []
    else MonthDates(rule, YearMonth(year, months[0]), anchorDay) + YearDates(rule, year, months[1..], anchorDay)
  }

  function YearMonths(rule: Rule, anchor: Date): (months: seq<nat>)
    requires rule.Valid()
    ensures forall i | 0 <= i < |months| :: 1 <= months[i] <= 12
  {
    if rule.byMonth == [] then [MonthOf(anchor).month] else rule.byMonth
  }

  /** How many months or years the k-th period lies after the anchor's. */
  function Stride(rule: Rule, k: nat): nat { k * rule.interval }

  function DayPeriod(rule: Rule, anchor: Date, k: nat): seq<Date>
    requires 1 <= rule.interval
  {
    if DayPasses(rule, anchor, anchor + k) then [anchor + k] else []
  }

  function MonthPeriod(rule: Rule, anchor: Date, stride: nat): seq<Date> {
    var m := MonthByIndex(MonthOf(anchor).Index() + stride);
    if rule.byMonth != [] && m.month !in rule.byMonth then [] else MonthDates(rule, m, DayOfMonth(anchor))
  }

  function YearPeriod(rule: Rule, anchor: Date, stride: nat): seq<Date>
    requires rule.Valid()
  {
    YearDates(rule, MonthOf(anchor).year + stride, YearMonths(rule, anchor), DayOfMonth(anchor))
  }

  /** The candidates of the k-th period after the anchor's, in the order the loop visits them. */
  function PeriodDates(rule: Rule, anchor: Date, k: nat): seq<Date>
    requires rule.Valid() && 1 <= k
  {
    match rule.freq
    case Daily | Weekly => DayPeriod(rule, anchor, k)
    case Monthly => MonthPeriod(rule, anchor, Stride(rule, k))
    case Yearly => YearPeriod(rule, anchor, Stride(rule, k))
  }

  /** The candidates of periods k..cap. */
  function Stream(rule: Rule, anchor: Date, k: nat, cap: nat): seq<Date>
    requires rule.Valid() && 1 <= k
    decreases cap - k
  {
    if cap < k then [] else PeriodDates(rule, anchor, k) + Stream(rule, anchor, k + 1, cap)
  }

  // ----- the cuts -----

  /** UNTIL as the loop tests it: a clock that does not resolve fails an UNTIL instant. */
  predicate Admits(rule: Rule, zone: Zone, w: Wall) {
    && (rule.untilInstant.Some? ==>
          FromLocal(zone, w).Some? && FromLocal(zone, w).value <= rule.untilInstant.value)
    && (rule.untilDate.Some? ==> DateOf(w) <= rule.untilDate.value)
  }

  /** The anchor's own UNTIL test: the date form is not applied and an unresolved clock passes. */
  predicate AdmitsAnchor(rule: Rule, zone: Zone, anchor: Wall) {
    rule.untilInstant.Some? && FromLocal(zone, anchor).Some? ==>
      FromLocal(zone, anchor).value <= rule.untilInstant.value
  }

  predicate CountReached(rule: Rule, emitted: nat) {
    rule.count.Some? && rule.count.value <= emitted
  }

  /** What the loop still emits, having emitted `emitted` entries, over candidates ds. */
  function Take(rule: Rule, zone: Zone, time: nat, window: Wall, ds: seq<Date>, emitted: nat): seq<Wall> {
    if ds == [] then []
    else
      var w := At(ds[0], time);
      if window < w || !Admits(rule, zone, w) then []
      else if CountReached(rule, emitted + 1) then [w]
      else [w] + Take(rule, zone, time, window, ds[1..], emitted + 1)
  }

  /** Whether the anchor is emitted, and whether COUNT ends the expansion there.
    * Without UNTIL only COUNT=1 does: COUNT=0 goes on to the loop. */
  predicate StartsWithAnchor(rule: Rule, anchor: Wall, zone: Zone, window: Wall) {
    anchor <= window && AdmitsAnchor(rule, zone, anchor)
  }

  predicate EndsAtAnchor(rule: Rule) {
    if rule.untilInstant == None && rule.untilDate == None then rule.count == Some(1)
    else CountReached(rule, 1)
  }

  /** expand_rrule, visiting at most cap periods. */
  function Expansion(rule: Rule, anchor: Wall, zone: Zone, window: Wall, cap: nat): seq<Wall>
    requires rule.Valid()
  {
    var stream := Stream(rule, DateOf(anchor), 1, cap);
    if !StartsWithAnchor(rule, anchor, zone, window) then Take(rule, zone, TimeOf(anchor), window, stream, 0)
    else if EndsAtAnchor(rule) then [anchor]
    else [anchor] + Take(rule, zone, TimeOf(anchor), window, stream, 1)
  }

  // ----- the loops -----

  method CollectDays(first: Date, length: nat, filter: DayFilter) returns (found: seq<Date>)
    ensures found == DaysWhere(first, length, filter)
  {
    hide DayFilter.Keeps;
    found := [];
    for n := 0 to length
      invariant found == DaysWhere(first, n, filter)
    {
      if filter.Keeps(first + n) {
        found := found + [first + n];
      }
    }
  }

  method CollectByDay(m: YearMonth, entries: seq<ByDay>) returns (found: seq<Date>)
    requires m.Valid()
    ensures found == ByDayDates(m, entries)
  {
    found := [];
    for i := 0 to |entries|
      invariant found == ByDayDates(m, entries[..i])
    {
      assert entries[..i + 1][..i] == entries[..i];
      match entries[i].ordinal {
        case Some(n) =>
          var nth := NthWeekdayOfMonth(m, entries[i].weekday, n);
          if nth.Some? {
            found := found + [nth.value];
          }
        case None =>
          var days := CollectDays(m.Start(), DaysInMonth(m), OnWeekday(entries[i].weekday));
          found := found + days;
      }
    }
    assert entries[..|entries|] == entries;
  }

  method CollectMonthDates(rule: Rule, m: YearMonth, anchorDay: nat) returns (found: seq<Date>)
    requires m.Valid()
    ensures found == MonthDates(rule, m, anchorDay)
  {
    if rule.byMonthday != [] {
      found := CollectDays(m.Start(), DaysInMonth(m), OnMonthday(rule.byMonthday));
    } else if rule.byDay != [] {
      found := CollectByDay(m, rule.byDay);
    } else {
      var same := FromYmd(m, anchorDay);
      found := if same.Some? then [same.value] else [];
    }
  }
}
