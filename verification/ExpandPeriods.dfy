/** Which rules return every occurrence at every anchor and window, told from the rule: MONTHLY
  * with any BYDAY entries, YEARLY with BYMONTH in any order; what the anchor's own period
  * loses; and which COUNTs bound the expansion. */
module ExpandPeriods {
  import opened Wrappers
  import opened Civil
  import opened Zones
  import opened Divides
  import opened Recurrence
  import opened RecurrenceDates
  import opened Expand
  import opened ExpandLimits

  /** Complete at every anchor, in every zone and at every window. */
  ghost predicate AlwaysComplete(rule: Rule, cap: nat)
    requires rule.Valid()
  {
    forall anchor: Wall, zone: Zone, window: Wall :: ReturnsAll(rule, anchor, zone, window, cap)
  }

  lemma CompleteEverywhere(rule: Rule, cap: nat)
    requires rule.Valid() && NoBound(rule)
    ensures AlwaysComplete(rule, cap) <==> forall anchor: Wall :: OrderlyFrom(rule, DateOf(anchor), cap)
  {
    hide ReturnsAll, OrderlyFrom, Rule.Valid;
    if AlwaysComplete(rule, cap) {
      forall anchor: Wall ensures OrderlyFrom(rule, DateOf(anchor), cap) {
        CompleteExactly(rule, anchor, UTC, cap);
      }
    }
    if forall anchor: Wall :: OrderlyFrom(rule, DateOf(anchor), cap) {
      forall anchor: Wall, zone: Zone, window: Wall ensures ReturnsAll(rule, anchor, zone, window, cap) {
        CompleteExactly(rule, anchor, zone, cap);
      }
    }
  }

  // ----- MONTHLY;BYDAY with any ordinals -----

  /** The months a stepped period can reach. */
  predicate Reached(rule: Rule, m: YearMonth) {
    m.Valid() && 12 + rule.interval <= m.Index() && (rule.byMonth == [] || m.month in rule.byMonth)
  }

  /** A monthly BYDAY rule, ordinals and all, is complete everywhere exactly if the entries, one
    * after the other, list no month with a late arrival. */
  lemma MonthlyByMonths(rule: Rule, cap: nat)
    requires rule.Valid() && rule.freq.Monthly? && NoBound(rule) && rule.byMonthday == [] && rule.byDay != []
    requires 1 <= cap
    ensures AlwaysComplete(rule, cap) <==>
            forall m: YearMonth | Reached(rule, m) :: NoLateArrival(ByDayDates(m, rule.byDay))
  {
    hide AlwaysComplete, OrderlyFrom, PeriodDates, ByDayDates, NoLateArrival;
    CompleteEverywhere(rule, cap);
    if forall m: YearMonth | Reached(rule, m) :: NoLateArrival(ByDayDates(m, rule.byDay)) {
      forall anchor: Wall ensures OrderlyFrom(rule, DateOf(anchor), cap) {
        MonthsInOrder(rule, DateOf(anchor), cap);
      }
    } else {
      var m: YearMonth :| Reached(rule, m) && !NoLateArrival(ByDayDates(m, rule.byDay));
      LateMonth(rule, m, cap);
    }
  }

  lemma MonthsInOrder(rule: Rule, a: Date, cap: nat)
    requires rule.Valid() && rule.freq.Monthly? && rule.byMonthday == [] && rule.byDay != []
    requires forall m: YearMonth | Reached(rule, m) :: NoLateArrival(ByDayDates(m, rule.byDay))
    ensures OrderlyFrom(rule, a, cap)
  {
    hide MonthOf, DayOfMonth, ByDayDates, NoLateArrival, DayPeriod, YearPeriod;
    NothingLate();
    forall k | 1 <= k <= cap ensures NoLateArrival(PeriodDates(rule, a, k)) {
      var m := MonthByIndex(MonthOf(a).Index() + Stride(rule, k));
      MulMonotone(rule.interval, 1, k);
      assert PeriodDates(rule, a, k) == MonthPeriod(rule, a, Stride(rule, k));
      if rule.byMonth == [] || m.month in rule.byMonth {
        assert Reached(rule, m);
      }
    }
  }

  lemma LateMonth(rule: Rule, m: YearMonth, cap: nat)
    requires rule.Valid() && rule.freq.Monthly? && rule.byMonthday == [] && rule.byDay != [] && 1 <= cap
    requires Reached(rule, m) && !NoLateArrival(ByDayDates(m, rule.byDay))
    ensures exists anchor: Wall :: !OrderlyFrom(rule, DateOf(anchor), cap)
  {
    hide MonthStart, ByDayDates, MonthOf, DayOfMonth, PeriodDates, NoLateArrival;
    var start := MonthByIndex(m.Index() - rule.interval);
    var anchor := At(start.Start(), 0);
    AtParts(start.Start(), 0);
    StartOfNext(start);
    MonthUnique(start.Start(), start);
    SameMonth(m, rule.interval);
    FirstMonthly(rule, start.Start(), m);
    assert !OrderlyFrom(rule, DateOf(anchor), cap);
  }

  // ----- YEARLY;BYMONTH in any order -----

  /** YEARLY;BYMONTH, with nothing else or one plain weekday, and no COUNT or UNTIL. */
  predicate PlainYearly(rule: Rule) {
    && rule.Valid() && rule.freq.Yearly? && NoBound(rule) && rule.byMonth != [] && rule.byMonthday == []
    && |rule.byDay| <= 1 && forall i | 0 <= i < |rule.byDay| :: rule.byDay[i].ordinal == None
  }

  predicate MonthNumbers(months: seq<nat>) { forall i | 0 <= i < |months| :: 1 <= months[i] <= 12 }

  lemma {:induction false} YearDatesConcat(rule: Rule, year: nat, a: seq<nat>, b: seq<nat>, anchorDay: nat)
    requires 1 <= year && MonthNumbers(a) && MonthNumbers(b)
    ensures MonthNumbers(a + b)
    ensures YearDates(rule, year, a + b, anchorDay)
         == YearDates(rule, year, a, anchorDay) + YearDates(rule, year, b, anchorDay)
    decreases |a|
  {
    hide MonthDates;
    if a == [] {
      assert a + b == b;
    } else {
      YearDatesConcat(rule, year, a[1..], b, anchorDay);
      assert (a + b)[1..] == a[1..] + b;
    }
  }

  lemma OneMonth(rule: Rule, year: nat, months: seq<nat>, anchorDay: nat)
    requires 1 <= year && MonthNumbers(months) && |months| == 1
    ensures YearDates(rule, year, months, anchorDay) == MonthDates(rule, YearMonth(year, months[0]), anchorDay)
  {
    hide MonthDates;
    assert months[1..] == [];
  }

  lemma OneMoreMonth(rule: Rule, year: nat, months: seq<nat>, anchorDay: nat)
    requires 1 <= year && MonthNumbers(months) && months != []
    ensures var n := |months| - 1;
            YearDates(rule, year, months, anchorDay)
            == YearDates(rule, year, months[..n], anchorDay) + MonthDates(rule, YearMonth(year, months[n]), anchorDay)
  {
    hide MonthDates, YearDates;
    var n := |months| - 1;
    assert months == months[..n] + months[n..];
    YearDatesConcat(rule, year, months[..n], months[n..], anchorDay);
    OneMonth(rule, year, months[n..], anchorDay);
  }

  /** Months in order, repeats aside, list a year without a late arrival. */
  lemma {:induction false} MonthsListYear(rule: Rule, year: nat, months: seq<nat>, anchorDay: nat)
    requires rule.Valid() && 1 <= year && MonthNumbers(months) && OneDayList(rule) && NoLateArrival(months)
    ensures NoLateArrival(YearDates(rule, year, months, anchorDay))
    decreases |months|
  {
    hide MonthDates, OneDayList, MatchesInMonth, Rule.Valid;
    if months == [] {
      NothingLate();
    } else {
      var n := |months| - 1;
      NoLateBefore(months, n);
      MonthsListYear(rule, year, months[..n], anchorDay);
      OneMoreMonth(rule, year, months, anchorDay);
      var (before, run) := (YearDates(rule, year, months[..n], anchorDay),
                            MonthDates(rule, YearMonth(year, months[n]), anchorDay));
      if months[n] in months[..n] {
        forall e | e in run ensures e in before {
          MonthDatesExact(rule, YearMonth(year, months[n]), anchorDay, e);
          YearDatesExact(rule, year, months[..n], anchorDay, e);
        }
        RepeatedRun(before, run);
      } else {
        MonthDatesAscend(rule, YearMonth(year, months[n]), anchorDay);
        AscendingHasNoLateArrival(run);
        forall d, e | d in before && e in run ensures d < e {
          LaterMonthLater(rule, year, months, anchorDay, d, e);
        }
        NoLateConcat(before, run);
      }
    }
  }

  lemma NoLateBefore(ds: seq<nat>, n: nat)
    requires n < |ds| && NoLateArrival(ds)
    ensures NoLateArrival(ds[..n]) && InPlaceAt(ds, n)
  {
    forall j | 0 <= j < n ensures InPlaceAt(ds[..n], j) {
      assert ds[..n][..j] == ds[..j] && InPlaceAt(ds, j);
    }
  }

  lemma LaterMonthLater(rule: Rule, year: nat, months: seq<nat>, anchorDay: nat, d: Date, e: Date)
    requires rule.Valid() && 1 <= year && MonthNumbers(months) && months != []
    requires var n := |months| - 1;
             && InPlaceAt(months, n) && months[n] !in months[..n]
             && d in YearDates(rule, year, months[..n], anchorDay)
             && e in MonthDates(rule, YearMonth(year, months[n]), anchorDay)
    ensures d < e
  {
    hide MonthDates, MatchesInMonth, MonthStart, MonthOf, Rule.Valid;
    var n := |months| - 1;
    YearDatesExact(rule, year, months[..n], anchorDay, d);
    MonthDatesExact(rule, YearMonth(year, months[n]), anchorDay, e);
    var i :| 0 <= i < n && months[..n][i] == MonthOf(d).month;
    assert months[i] < months[n];
    MonthsOrderDates(d, e);
  }

  /** Every month has its first day, and each weekday. */
  lemma MonthHasDates(rule: Rule, m: YearMonth) returns (d: Date)
    requires PlainYearly(rule) && m.Valid()
    ensures d in MonthDates(rule, m, 1)
  {
    hide MonthStart;
    if rule.byDay == [] {
      StartOfNext(m);
      d := m.Start();
    } else {
      var run := RunSpan(m, rule.byDay[0].weekday);
      assert rule.byDay[0] == ByDay(rule.byDay[0].weekday, None) && rule.byDay[..0] == [];
      assert ByDayDates(m, rule.byDay[..0]) == [];
      assert ByDayDates(m, rule.byDay) == run;
      d := run[0];
    }
  }

  /** A month out of order makes the year's list late. */
  lemma LateMonthListsLate(rule: Rule, year: nat, months: seq<nat>)
    requires PlainYearly(rule) && 1 <= year && MonthNumbers(months) && !NoLateArrival(months)
    ensures !NoLateArrival(YearDates(rule, year, months, 1))
  {
    hide MonthDates, MatchesInMonth, MonthStart, MonthOf, PlainYearly, YearDates;
    assert rule.Valid() by { YearlyIsValid(rule); }
    var j :| 0 <= j < |months| && !InPlaceAt(months, j);
    var i :| 0 <= i < j && months[j] < months[i];
    var (before, here) := (months[..j], months[j..]);
    assert months == before + here;
    YearDatesConcat(rule, year, before, here, 1);
    var (a, b) := (YearDates(rule, year, before, 1), YearDates(rule, year, here, 1));
    var e := MonthHasDates(rule, YearMonth(year, months[i]));
    MonthDatesExact(rule, YearMonth(year, months[i]), 1, e);
    assert before[i] == months[i];
    YearDatesExact(rule, year, before, 1, e);
    FirstOfYear(rule, year, here);
    MonthDatesExact(rule, YearMonth(year, months[j]), 1, b[0]);
    YearDatesExact(rule, year, before, 1, b[0]);
    MonthsOrderDates(b[0], e);
    LateBehind(a, b, e);
  }

  lemma FirstOfYear(rule: Rule, year: nat, months: seq<nat>)
    requires PlainYearly(rule) && 1 <= year && MonthNumbers(months) && months != []
    ensures var b := YearDates(rule, year, months, 1);
            b != [] && b[0] in MonthDates(rule, YearMonth(year, months[0]), 1)
  {
    hide MonthDates, PlainYearly;
    var d := MonthHasDates(rule, YearMonth(year, months[0]));
  }

  lemma LateBehind(a: seq<Date>, b: seq<Date>, e: Date)
    requires b != [] && e in a && b[0] < e && b[0] !in a
    ensures !NoLateArrival(a + b)
  {
    var ds := a + b;
    assert ds[..|a|] == a && ds[|a|] == b[0];
    var i :| 0 <= i < |a| && a[i] == e;
    assert ds[i] == e;
    assert !InPlaceAt(ds, |a|);
  }

  lemma YearlyIsValid(rule: Rule)
    requires PlainYearly(rule)
    ensures rule.Valid() && rule.freq.Yearly? && NoBound(rule) && OneDayList(rule) && rule.byMonth != []
    ensures MonthNumbers(rule.byMonth)
  {
  }

  /** A yearly rule by months is complete everywhere exactly if its BYMONTH list, repeats aside,
    * ascends. */
  lemma YearlyCompleteExactly(rule: Rule, cap: nat)
    requires PlainYearly(rule) && 1 <= cap
    ensures AlwaysComplete(rule, cap) <==> NoLateArrival(rule.byMonth)
  {
    hide AlwaysComplete, OrderlyFrom, PlainYearly, NoLateArrival, YearDates, OneDayList;
    assert rule.Valid() by { YearlyIsValid(rule); }
    YearlyIsValid(rule);
    CompleteEverywhere(rule, cap);
    if NoLateArrival(rule.byMonth) {
      forall anchor: Wall ensures OrderlyFrom(rule, DateOf(anchor), cap) {
        YearsInOrder(rule, DateOf(anchor), cap);
      }
    } else {
      YearsLate(rule, cap);
    }
  }

  lemma YearPeriodIs(rule: Rule, a: Date, k: nat)
    requires rule.Valid() && rule.freq.Yearly? && rule.byMonth != [] && 1 <= k
    ensures PeriodDates(rule, a, k)
         == YearDates(rule, MonthOf(a).year + Stride(rule, k), rule.byMonth, DayOfMonth(a))
  {
    hide MonthOf, DayOfMonth, YearDates;
  }

  lemma YearsInOrder(rule: Rule, a: Date, cap: nat)
    requires PlainYearly(rule) && NoLateArrival(rule.byMonth)
    ensures OrderlyFrom(rule, a, cap)
  {
    hide MonthOf, DayOfMonth, YearDates, PeriodDates, NoLateArrival, PlainYearly, OneDayList;
    YearlyIsValid(rule);
    forall k | 1 <= k <= cap ensures NoLateArrival(PeriodDates(rule, a, k)) {
      YearPeriodIs(rule, a, k);
      MonthsListYear(rule, MonthOf(a).year + Stride(rule, k), rule.byMonth, DayOfMonth(a));
    }
  }

  lemma YearsLate(rule: Rule, cap: nat)
    requires PlainYearly(rule) && !NoLateArrival(rule.byMonth) && 1 <= cap
    ensures rule.Valid() && exists anchor: Wall :: !OrderlyFrom(rule, DateOf(anchor), cap)
  {
    hide MonthOf, DayOfMonth, YearDates, PeriodDates, NoLateArrival, PlainYearly, MonthStart;
    YearlyIsValid(rule);
    FirstMonths();
    MonthUnique(0, YearMonth(1, 1));
    YmdRoundTrip(YearMonth(1, 1), 1, 0);
    YearPeriodIs(rule, 0, 1);
    LateMonthListsLate(rule, MonthOf(0).year + Stride(rule, 1), rule.byMonth);
    assert DateOf(0) == 0;
    assert !OrderlyFrom(rule, DateOf(0), cap);
  }

  // ----- the rest of the anchor's own month or year -----

  /** A date after the anchor, in the anchor's own month or year, that meets the rule's tests. */
  predicate OwnPeriod(rule: Rule, anchor: Date, d: Date)
    requires rule.Valid()
  {
    && anchor < d && Distance(rule, anchor, d) == 0
    && match rule.freq
       case Daily | Weekly => true
       case Monthly =>
         (rule.byMonth == [] || MonthOf(d).month in rule.byMonth) && MatchesInMonth(rule, d, DayOfMonth(anchor))
       case Yearly => MonthOf(d).month in YearMonths(rule, anchor) && MatchesInMonth(rule, d, DayOfMonth(anchor))
  }

  /** Every date of the rule from the anchor on, its own period included, is returned. */
  ghost predicate ReturnsOwnPeriod(rule: Rule, anchor: Wall, zone: Zone, window: Wall, cap: nat)
    requires rule.Valid()
  {
    forall w: Wall | TimeOf(w) == TimeOf(anchor) && w <= window && WithinCap(rule, anchor, cap, w)
        && (Matches(rule, DateOf(anchor), DateOf(w)) || OwnPeriod(rule, DateOf(anchor), DateOf(w))) ::
      w in Expansion(rule, anchor, zone, window, cap)
  }

  /** The loops step from the anchor's month or year at once, so an orderly series without
    * COUNT and UNTIL returns every date of its rule exactly if none lies after the anchor in
    * the anchor's own period. */
  lemma OwnPeriodExactly(rule: Rule, anchor: Wall, zone: Zone, cap: nat)
    requires rule.Valid() && Orderly(rule) && NoBound(rule)
    ensures (forall window: Wall :: ReturnsOwnPeriod(rule, anchor, zone, window, cap)) <==>
            forall d: Date :: !OwnPeriod(rule, DateOf(anchor), d)
  {
    hide Expansion, Orderly, Rule.Valid, Matches, OwnPeriod, WithinCap, At;
    if d: Date :| OwnPeriod(rule, DateOf(anchor), d) {
      var w := At(d, TimeOf(anchor));
      AtParts(d, TimeOf(anchor));
      OwnPeriodWithinCap(rule, anchor, cap, d);
      OwnPeriodLost(rule, anchor, zone, w, cap, d);
      assert !ReturnsOwnPeriod(rule, anchor, zone, w, cap);
    } else {
      forall window: Wall ensures ReturnsOwnPeriod(rule, anchor, zone, window, cap) {
        OrderlyReturnsAll(rule, anchor, zone, window, cap);
      }
    }
  }

  lemma OwnPeriodWithinCap(rule: Rule, anchor: Wall, cap: nat, d: Date)
    requires rule.Valid() && OwnPeriod(rule, DateOf(anchor), d)
    ensures WithinCap(rule, anchor, cap, At(d, TimeOf(anchor)))
  {
    hide MatchesInMonth, YearMonths, Distance;
    AtParts(d, TimeOf(anchor));
    UnitOrder(rule, cap, 0);
  }

  /** No window returns it. */
  lemma OwnPeriodLost(rule: Rule, anchor: Wall, zone: Zone, window: Wall, cap: nat, d: Date)
    requires rule.Valid() && Orderly(rule) && OwnPeriod(rule, DateOf(anchor), d)
    ensures At(d, TimeOf(anchor)) !in Expansion(rule, anchor, zone, window, cap)
  {
    hide Expansion, Orderly, Rule.Valid, MatchesInMonth, DayPasses, YearMonths, Admits, WithinCap, AdmittedThrough,
      Distance, StartsWithAnchor;
    var w := At(d, TimeOf(anchor));
    AtParts(d, TimeOf(anchor));
    ExpansionExact(rule, anchor, zone, window, cap);
    assert w != anchor;
    assert !Occurs(rule, anchor, w);
  }

  lemma OrderlyReturnsAll(rule: Rule, anchor: Wall, zone: Zone, window: Wall, cap: nat)
    requires rule.Valid() && Orderly(rule) && NoBound(rule)
    ensures forall w: Wall | TimeOf(w) == TimeOf(anchor) && w <= window && WithinCap(rule, anchor, cap, w)
              && Matches(rule, DateOf(anchor), DateOf(w)) :: w in Expansion(rule, anchor, zone, window, cap)
  {
    hide Expansion, Orderly, Rule.Valid, Matches, WithinCap, StartsWithAnchor, DateOf, TimeOf;
    ExpansionExact(rule, anchor, zone, window, cap);
    forall w: Wall | TimeOf(w) == TimeOf(anchor) && w <= window && WithinCap(rule, anchor, cap, w)
        && Matches(rule, DateOf(anchor), DateOf(w))
      ensures w in Expansion(rule, anchor, zone, window, cap)
    {
      assert Occurs(rule, anchor, w) && AdmittedThrough(rule, anchor, zone, w);
    }
  }

  /** MONTHLY;BYDAY=FR from Monday 1 January of year 1 never returns the Fridays of that January. */
  lemma JanuaryFridaysLost(zone: Zone, window: Wall, cap: nat)
    ensures var rule := Rule(Monthly, 1, None, None, None, [ByDay(4, None)], [], []);
            && rule.Valid() && OwnPeriod(rule, 0, 4)
            && At(4, 0) !in Expansion(rule, 0, zone, window, cap)
  {
    hide Expansion, MonthStart, MonthOf, DayOfMonth;
    var rule := Rule(Monthly, 1, None, None, None, [ByDay(4, None)], [], []);
    FirstMonths();
    MonthUnique(0, YearMonth(1, 1));
    MonthUnique(4, YearMonth(1, 1));
    assert MatchesByDay(rule.byDay[0], 4);
    AtParts(0, 0);
    OwnPeriodLost(rule, 0, zone, window, cap, 4);
  }

  // ----- COUNT as a bound -----

  /** COUNT bounds the expansion of every series exactly if it is at least 1; COUNT=0, which the
    * parser lets through, does not. */
  lemma CountBoundExactly(rule: Rule, n: nat)
    requires rule.Valid() && NoBound(rule)
    ensures (forall anchor: Wall, zone: Zone, window: Wall, cap: nat ::
               |Expansion(rule.(count := Some(n)), anchor, zone, window, cap)| <= n) <==> 1 <= n
  {
    hide Expansion;
    if 1 <= n {
      forall anchor: Wall, zone: Zone, window: Wall, cap: nat
        ensures |Expansion(rule.(count := Some(n)), anchor, zone, window, cap)| <= n
      {
        CountIsPrefix(rule, n, anchor, zone, window, cap);
      }
    } else {
      AnchorDespiteCount(rule, UTC);
    }
  }

  lemma AnchorDespiteCount(rule: Rule, zone: Zone)
    requires rule.Valid() && NoBound(rule)
    ensures Expansion(rule.(count := Some(0)), 0, zone, 0, 0) != []
  {
    hide Stream;
  }
}
