/** RRULE in plain day numbers: which days each frequency and filter of section 3.3.10 of
  * RFC 5545 selects, said without the candidate loops, and what an expansion returns of them. */
module RecurrenceRules {
  import opened Wrappers
  import opened Civil
  import opened Zones
  import opened Divides
  import opened Recurrence
  import opened RecurrenceDates
  import opened Expand
  import opened ExpandLimits

  /** The j-th point of a grid of step n from a. */
  function Grid(a: int, n: nat, j: nat): int { a + n * j }

  /** The w-th day, counted from Monday, of the j-th n-th week from that of a. */
  function WeekGrid(a: Date, n: nat, j: nat, w: nat): int { 7 * (a / 7 + n * j) + w }

  // ----- the filters -----

  /** BYMONTHDAY: counted from the first of the month, or back from the first of the next. */
  predicate OnMonthdays(days: seq<int>, d: Date) {
    exists i | 0 <= i < |days| ::
      if 0 < days[i] then d == MonthOf(d).Start() + days[i] - 1 else d == MonthOf(d).Next().Start() + days[i]
  }

  /** BYMONTH, where it is given. */
  predicate OnMonths(rule: Rule, d: Date) {
    rule.byMonth == [] || exists i | 0 <= i < |rule.byMonth| :: rule.byMonth[i] == MonthOf(d).month
  }

  /** A weekday, day 0 being a Monday. */
  predicate Named(entries: seq<ByDay>, weekday: int) { exists i | 0 <= i < |entries| :: entries[i].weekday == weekday }

  /** The n-th week of the month, or for negative n of the weeks back from its end. */
  predicate InNthWeek(d: Date, n: int) {
    if 0 < n then 7 * (n - 1) <= d - MonthOf(d).Start() < 7 * n
    else 7 * (-n - 1) < MonthOf(d).Next().Start() - d <= 7 * -n
  }

  /** BYDAY of MONTHLY and YEARLY: a weekday, in its week of the month if it is numbered. */
  predicate OnWeekdays(entries: seq<ByDay>, d: Date) {
    exists i | 0 <= i < |entries| ::
      entries[i].weekday == d % 7 && (entries[i].ordinal.Some? ==> InNthWeek(d, entries[i].ordinal.value))
  }

  /** The day test inside a month: BYMONTHDAY, else BYDAY, else the anchor's day. */
  predicate OnDays(rule: Rule, a: Date, d: Date) {
    if rule.byMonthday != [] then OnMonthdays(rule.byMonthday, d)
    else if rule.byDay != [] then OnWeekdays(rule.byDay, d)
    else d - MonthOf(d).Start() == a - MonthOf(a).Start()
  }

  // ----- the four frequencies -----

  /** Every n-th day. */
  ghost predicate DailyDay(rule: Rule, a: Date, d: Date) {
    && (exists j: nat :: d == Grid(a, rule.interval, j))
    && OnMonths(rule, d) && (rule.byMonthday != [] ==> OnMonthdays(rule.byMonthday, d))
    && (rule.byDay != [] ==> Named(rule.byDay, d % 7))
  }

  /** The named weekdays, or the anchor's own, of every n-th week from the anchor's, which starts on a Monday. */
  ghost predicate WeeklyDay(rule: Rule, a: Date, d: Date) {
    && (exists j: nat, w: nat ::
          w < 7 && d == WeekGrid(a, rule.interval, j, w)
          && if rule.byDay == [] then w == a % 7 else Named(rule.byDay, w))
    && OnMonths(rule, d) && (rule.byMonthday != [] ==> OnMonthdays(rule.byMonthday, d))
  }

  function MonthCount(m: YearMonth): int { 12 * m.year + m.month }

  /** The chosen days of every n-th month after the anchor's. */
  ghost predicate MonthlyDay(rule: Rule, a: Date, d: Date) {
    && (exists j: nat :: 1 <= j && MonthCount(MonthOf(d)) == Grid(MonthCount(MonthOf(a)), rule.interval, j))
    && OnMonths(rule, d) && OnDays(rule, a, d)
  }

  /** The chosen days of the chosen months, or of the anchor's, in every n-th year after the anchor's. */
  ghost predicate YearlyDay(rule: Rule, a: Date, d: Date) {
    && (exists j: nat :: 1 <= j && MonthOf(d).year == Grid(MonthOf(a).year, rule.interval, j))
    && (if rule.byMonth == [] then MonthOf(d).month == MonthOf(a).month else OnMonths(rule, d))
    && OnDays(rule, a, d)
  }

  /** d is a day of the rule after the anchor's. */
  ghost predicate RuleDay(rule: Rule, a: Date, d: Date) {
    && a < d
    && match rule.freq
       case Daily => DailyDay(rule, a, d)
       case Weekly => WeeklyDay(rule, a, d)
       case Monthly => MonthlyDay(rule, a, d)
       case Yearly => YearlyDay(rule, a, d)
  }

  // ----- the loops select exactly these days -----

  lemma OnGrid(x: int, a: int, n: nat, from: nat) returns (j: nat)
    requires 1 <= n && a + n * from <= x
    ensures Multiple(x - a, n) ==> from <= j && x == Grid(a, n, j)
    ensures forall k: nat :: x == Grid(a, n, k) ==> from <= k && Multiple(x - a, n)
  {
    j := (x - a) / n;
    forall k: nat | x == Grid(a, n, k) ensures from <= k && Multiple(x - a, n) {
      MultipleOf(k, n);
      if k < from {
        MulMonotone(n, k + 1, from);
      }
    }
    if Multiple(x - a, n) && j < from {
      MulMonotone(n, j + 1, from);
    }
  }

  lemma MonthdaysPlainly(d: Date, days: seq<int>)
    ensures MatchesMonthday(d, days) <==> OnMonthdays(days, d)
  {
    hide MonthStart, MonthOf;
    StartOfNext(MonthOf(d));
  }

  lemma NthPlainly(d: Date, n: int)
    ensures IsNthWeekday(d, n) <==> InNthWeek(d, n)
  {
    hide MonthStart, MonthOf;
    StartOfNext(MonthOf(d));
  }

  lemma WeekdaysPlainly(rule: Rule, d: Date)
    ensures (exists i | 0 <= i < |rule.byDay| :: MatchesByDay(rule.byDay[i], d)) <==> OnWeekdays(rule.byDay, d)
  {
    hide IsNthWeekday, InNthWeek;
    forall n ensures IsNthWeekday(d, n) <==> InNthWeek(d, n) {
      NthPlainly(d, n);
    }
  }

  lemma DaysPlainly(rule: Rule, a: Date, d: Date)
    ensures MatchesInMonth(rule, d, DayOfMonth(a)) <==> OnDays(rule, a, d)
  {
    hide MatchesMonthday, OnMonthdays, MatchesByDay, OnWeekdays, MonthStart, MonthOf;
    MonthdaysPlainly(d, rule.byMonthday);
    WeekdaysPlainly(rule, d);
  }

  lemma DailyPlainly(rule: Rule, a: Date, d: Date)
    requires rule.Valid() && rule.freq.Daily? && a < d
    ensures DayPasses(rule, a, d) <==> DailyDay(rule, a, d)
  {
    hide MatchesMonthday, OnMonthdays, MonthOf, Multiple, Grid;
    MonthdaysPlainly(d, rule.byMonthday);
    var j := OnGrid(d, a, rule.interval, 0);
  }

  lemma OnWeekGrid(a: Date, n: nat, d: Date) returns (j: nat)
    requires 1 <= n && a <= d
    ensures Multiple(d / 7 - a / 7, n) ==> d == WeekGrid(a, n, j, d % 7)
    ensures forall k: nat, w: nat | w < 7 && d == WeekGrid(a, n, k, w) :: w == d % 7 && Multiple(d / 7 - a / 7, n)
  {
    j := OnGrid(d / 7, a / 7, n, 0);
    forall k: nat, w: nat | w < 7 && d == WeekGrid(a, n, k, w) ensures w == d % 7 && Multiple(d / 7 - a / 7, n) {
      assert d / 7 == Grid(a / 7, n, k);
    }
  }

  lemma WeeklyPlainly(rule: Rule, a: Date, d: Date)
    requires rule.Valid() && rule.freq.Weekly? && a < d
    ensures DayPasses(rule, a, d) <==> WeeklyDay(rule, a, d)
  {
    hide MatchesMonthday, OnMonthdays, MonthOf, Multiple, WeekGrid;
    MonthdaysPlainly(d, rule.byMonthday);
    var j := OnWeekGrid(a, rule.interval, d);
  }

  lemma MonthlyPlainly(rule: Rule, a: Date, d: Date)
    requires rule.Valid() && rule.freq.Monthly?
    ensures Matches(rule, a, d) <==> a < d && MonthlyDay(rule, a, d)
  {
    hide MatchesInMonth, OnDays, MonthOf, Multiple, Grid, MonthCount;
    DaysPlainly(rule, a, d);
    MonthDistance(rule, a, d);
    if 0 < Distance(rule, a, d) {
      DistanceOrders(rule, a, a, d);
    }
    Steps(MonthCount(MonthOf(d)), MonthCount(MonthOf(a)), rule.interval);
  }

  lemma MonthDistance(rule: Rule, a: Date, d: Date)
    requires rule.freq.Monthly?
    ensures Distance(rule, a, d) == MonthCount(MonthOf(d)) - MonthCount(MonthOf(a)) && Distance(rule, a, a) == 0
  {
    hide MonthOf;
  }

  /** A positive multiple of n is a grid point after the first. */
  lemma Steps(x: int, y: int, n: nat)
    requires 1 <= n
    ensures y < x && Multiple(x - y, n) <==> exists j: nat :: 1 <= j && x == Grid(y, n, j)
  {
    if y < x && Multiple(x - y, n) {
      var j := Quotient(x - y, n);
      assert x == Grid(y, n, j);
    }
    if j: nat :| 1 <= j && x == Grid(y, n, j) {
      MultipleOf(j, n);
      MulMonotone(n, 1, j);
    }
  }

  lemma YearlyPlainly(rule: Rule, a: Date, d: Date)
    requires rule.Valid() && rule.freq.Yearly?
    ensures Matches(rule, a, d) <==> a < d && YearlyDay(rule, a, d)
  {
    hide MatchesInMonth, OnDays, MonthOf, Multiple, Grid;
    DaysPlainly(rule, a, d);
    if 0 < Distance(rule, a, d) {
      DistanceOrders(rule, a, a, d);
    }
    Steps(MonthOf(d).year, MonthOf(a).year, rule.interval);
  }

  /** The dates the loops generate are the rule's days, for all four frequencies. */
  lemma RuleDaysExactly(rule: Rule, a: Date, d: Date)
    requires rule.Valid()
    ensures Matches(rule, a, d) <==> RuleDay(rule, a, d)
  {
    hide DayPasses, MatchesInMonth, DailyDay, WeeklyDay, MonthlyDay, YearlyDay, MonthOf;
    match rule.freq {
      case Daily => if a < d { DailyPlainly(rule, a, d); }
      case Weekly => if a < d { WeeklyPlainly(rule, a, d); }
      case Monthly => MonthlyPlainly(rule, a, d);
      case Yearly => YearlyPlainly(rule, a, d);
    }
  }

  // ----- what an expansion returns of them -----

  /** The cap counts days, months or years after the anchor's. */
  predicate Within(rule: Rule, a: Date, d: Date, cap: nat) {
    match rule.freq
    case Daily | Weekly => d <= a + cap
    case Monthly => MonthCount(MonthOf(d)) <= Grid(MonthCount(MonthOf(a)), rule.interval, cap)
    case Yearly => MonthOf(d).year <= Grid(MonthOf(a).year, rule.interval, cap)
  }

  /** Without COUNT and UNTIL an orderly series returns, up to the window, exactly its anchor
    * and the days of its rule, at the anchor's time of day. */
  lemma ExpansionIsRule(rule: Rule, anchor: Wall, zone: Zone, window: Wall, cap: nat, w: Wall)
    requires rule.Valid() && Orderly(rule) && NoBound(rule)
    ensures w in Expansion(rule, anchor, zone, window, cap) <==>
            && w <= window
            && (|| w == anchor
                || (&& w % DAY == anchor % DAY && RuleDay(rule, anchor / DAY, w / DAY)
                    && Within(rule, anchor / DAY, w / DAY, cap)))
  {
    hide Expansion, Orderly, Matches, RuleDay, DayPasses, MonthOf;
    ExpansionExact(rule, anchor, zone, window, cap);
    RuleDaysExactly(rule, anchor / DAY, w / DAY);
    assert AdmittedThrough(rule, anchor, zone, w);
    if Occurs(rule, anchor, w) {
      OccursLater(rule, anchor, w);
    }
  }

  // ----- UNTIL -----

  /** UNTIL, which an unresolved clock fails in its instant form. */
  predicate UntilAllows(rule: Rule, zone: Zone, v: Wall) {
    && (rule.untilInstant.Some? ==>
          FromLocal(zone, v) != None && FromLocal(zone, v).value <= rule.untilInstant.value)
    && (rule.untilDate.Some? ==> v / DAY <= rule.untilDate.value)
  }

  function Endless(rule: Rule): Rule { rule.(untilInstant := None, untilDate := None) }

  lemma EndlessDays(rule: Rule, anchor: Wall, cap: nat, w: Wall)
    requires rule.Valid()
    ensures Endless(rule).Valid() && (Orderly(rule) ==> Orderly(Endless(rule)))
    ensures Occurs(Endless(rule), anchor, w) <==> Occurs(rule, anchor, w)
    ensures WithinCap(Endless(rule), anchor, cap, w) <==> WithinCap(rule, anchor, cap, w)
  {
    hide Matches, MonthOf, RuleDay;
    RuleDaysExactly(rule, DateOf(anchor), DateOf(w));
    RuleDaysExactly(Endless(rule), DateOf(anchor), DateOf(w));
    EndlessRuleDay(rule, DateOf(anchor), DateOf(w));
  }

  lemma EndlessRuleDay(rule: Rule, a: Date, d: Date)
    ensures RuleDay(Endless(rule), a, d) <==> RuleDay(rule, a, d)
  {
    hide MonthOf, OnMonthdays, OnWeekdays, Named, Grid, WeekGrid;
  }

  /** Without COUNT, UNTIL keeps of the endless series what comes before the first occurrence it
    * refuses; the anchor is asked by instant alone, and stays if its clock does not resolve. */
  lemma UntilKeeps(rule: Rule, anchor: Wall, zone: Zone, window: Wall, cap: nat, w: Wall)
    requires rule.Valid() && Orderly(rule) && rule.count == None
    ensures Endless(rule).Valid()
    ensures var endless := Expansion(Endless(rule), anchor, zone, window, cap);
            w in Expansion(rule, anchor, zone, window, cap) <==>
            && w in endless
            && if w == anchor
               then rule.untilInstant == None || FromLocal(zone, w) == None
                    || FromLocal(zone, w).value <= rule.untilInstant.value
               else forall v | v in endless && anchor < v <= w :: UntilAllows(rule, zone, v)
  {
    hide Expansion, Orderly, Occurs, FromLocal, WithinCap, Rule.Valid, Endless;
    EndlessDays(rule, anchor, cap, anchor);
    forall v: Wall
      ensures Occurs(Endless(rule), anchor, v) <==> Occurs(rule, anchor, v)
      ensures WithinCap(Endless(rule), anchor, cap, v) <==> WithinCap(rule, anchor, cap, v)
      ensures Occurs(rule, anchor, v) ==> anchor < v
    {
      EndlessDays(rule, anchor, cap, v);
      if Occurs(rule, anchor, v) {
        OccursLater(rule, anchor, v);
      }
    }
    ExpansionExact(rule, anchor, zone, window, cap);
    ExpansionExact(Endless(rule), anchor, zone, window, cap);
    EndlessAdmits(rule, zone);
    UntilCuts(rule, anchor, zone, window, cap, w);
  }

  lemma EndlessAdmits(rule: Rule, zone: Zone)
    ensures forall v: Wall :: Admits(Endless(rule), zone, v)
    ensures forall v: Wall :: AdmitsAnchor(Endless(rule), zone, v)
    ensures forall v: Wall :: UntilAllows(rule, zone, v) <==> Admits(rule, zone, v)
    ensures Endless(rule).count == rule.count
  {
  }

  lemma UntilCuts(rule: Rule, anchor: Wall, zone: Zone, window: Wall, cap: nat, w: Wall)
    requires rule.Valid() && Endless(rule).Valid() && rule.count == None && Endless(rule).count == None
    requires IsExpansion(rule, anchor, zone, window, cap, Expansion(rule, anchor, zone, window, cap))
    requires IsExpansion(Endless(rule), anchor, zone, window, cap, Expansion(Endless(rule), anchor, zone, window, cap))
    requires forall v: Wall ::
               && (Occurs(Endless(rule), anchor, v) <==> Occurs(rule, anchor, v))
               && (WithinCap(Endless(rule), anchor, cap, v) <==> WithinCap(rule, anchor, cap, v))
               && (Occurs(rule, anchor, v) ==> anchor < v)
    requires forall v: Wall :: Admits(Endless(rule), zone, v) && AdmitsAnchor(Endless(rule), zone, v)
    requires forall v: Wall :: UntilAllows(rule, zone, v) <==> Admits(rule, zone, v)
    ensures var endless := Expansion(Endless(rule), anchor, zone, window, cap);
            w in Expansion(rule, anchor, zone, window, cap) <==>
            && w in endless
            && if w == anchor
               then rule.untilInstant == None || FromLocal(zone, w) == None
                    || FromLocal(zone, w).value <= rule.untilInstant.value
               else forall v | v in endless && anchor < v <= w :: UntilAllows(rule, zone, v)
  {
    hide Expansion, Occurs, FromLocal, WithinCap, Rule.Valid, Endless, Admits, UntilAllows;
    var s := Expansion(rule, anchor, zone, window, cap);
    var endless := Expansion(Endless(rule), anchor, zone, window, cap);
    assert AdmittedThrough(Endless(rule), anchor, zone, w);
    if w != anchor {
      if w in s {
        forall v | v in endless && anchor < v <= w ensures UntilAllows(rule, zone, v) {
          assert v == w || v in s;
        }
      }
      if w in endless && forall v | v in endless && anchor < v <= w :: UntilAllows(rule, zone, v) {
        forall v: Wall | v <= w && Occurs(rule, anchor, v) ensures Admits(rule, zone, v) {
          assert v == w || v in endless;
        }
        assert AdmittedThrough(rule, anchor, zone, w);
      }
    }
  }
}
