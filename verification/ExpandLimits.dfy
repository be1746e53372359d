/** Where the expansion is narrower than the rule, stated for every input. */
module ExpandLimits {
  import opened Wrappers
  import opened Civil
  import opened Zones
  import opened Divides
  import opened Recurrence
  import opened RecurrenceDates
  import opened Expand

  /** Under an UNTIL instant, an occurrence that falls into a gap of the zone
    * ends the series: neither it nor anything after it is returned. */
  lemma GapEndsSeries(rule: Rule, anchor: Wall, zone: Zone, window: Wall, cap: nat, gap: Wall, w: Wall)
    requires rule.Valid() && Orderly(rule) && rule.untilInstant.Some?
    requires Occurs(rule, anchor, gap) && FromLocal(zone, gap) == None && gap <= w
    ensures w !in Expansion(rule, anchor, zone, window, cap)
  {
    hide Expansion, Orderly, Rule.Valid, Occurs, FromLocal, WithinCap, AdmittedThrough, StartsWithAnchor;
    ExpansionExact(rule, anchor, zone, window, cap);
    OccursLater(rule, anchor, gap);
  }

  /** w is an occurrence within window and cap that UNTIL admits. */
  predicate Due(rule: Rule, anchor: Wall, zone: Zone, window: Wall, cap: nat, w: Wall)
    requires rule.Valid()
  {
    Occurs(rule, anchor, w) && w <= window && WithinCap(rule, anchor, cap, w) && Admits(rule, zone, w)
  }

  /** No due occurrence is or follows an occurrence in a gap. */
  ghost predicate GapFree(rule: Rule, anchor: Wall, zone: Zone, window: Wall, cap: nat)
    requires rule.Valid()
  {
    forall gap: Wall, w: Wall | Occurs(rule, anchor, gap) && FromLocal(zone, gap) == None && gap <= w ::
      !Due(rule, anchor, zone, window, cap, w)
  }

  /** Every due occurrence is returned. */
  ghost predicate AllDueReturned(rule: Rule, anchor: Wall, zone: Zone, window: Wall, cap: nat)
    requires rule.Valid()
  {
    forall w: Wall | Due(rule, anchor, zone, window, cap, w) :: w in Expansion(rule, anchor, zone, window, cap)
  }

  /** Without a gap before it an occurrence that UNTIL admits has every earlier one admitted. */
  lemma AdmittedWithoutGap(rule: Rule, anchor: Wall, zone: Zone, window: Wall, cap: nat, w: Wall)
    requires rule.Valid() && rule.untilInstant.Some? && NarrowSpread(zone)
    requires GapFree(rule, anchor, zone, window, cap) && Due(rule, anchor, zone, window, cap, w)
    ensures AdmittedThrough(rule, anchor, zone, w)
  {
    hide FromLocal, Matches, NarrowSpread, WithinCap, Rule.Valid;
    forall v: Wall | v <= w && Occurs(rule, anchor, v) ensures Admits(rule, zone, v) {
      assert FromLocal(zone, v).Some?;
      if v < w {
        ADayApart(v, w);
        ResolveKeepsDayOrder(zone, v, w);
      }
    }
  }

  /** Under an UNTIL instant, unless COUNT ends the series first, every occurrence that UNTIL
    * admits is returned exactly if none of them is or follows one in a gap. */
  lemma UntilCompleteExactly(rule: Rule, anchor: Wall, zone: Zone, window: Wall, cap: nat)
    requires rule.Valid() && Orderly(rule) && rule.untilInstant.Some? && NarrowSpread(zone)
    ensures CountReached(rule, |Expansion(rule, anchor, zone, window, cap)|)
         || (AllDueReturned(rule, anchor, zone, window, cap) <==> GapFree(rule, anchor, zone, window, cap))
  {
    hide Expansion, Orderly, Rule.Valid, Occurs, FromLocal, WithinCap, AdmittedThrough, StartsWithAnchor,
      NarrowSpread, Admits;
    ExpansionExact(rule, anchor, zone, window, cap);
    if CountReached(rule, |Expansion(rule, anchor, zone, window, cap)|) {
    } else if GapFree(rule, anchor, zone, window, cap) {
      forall w: Wall | Due(rule, anchor, zone, window, cap, w) ensures w in Expansion(rule, anchor, zone, window, cap) {
        AdmittedWithoutGap(rule, anchor, zone, window, cap, w);
      }
    } else {
      var gap: Wall, w: Wall :| Occurs(rule, anchor, gap) && FromLocal(zone, gap) == None && gap <= w
                             && Due(rule, anchor, zone, window, cap, w);
      GapEndsSeries(rule, anchor, zone, window, cap, gap, w);
    }
  }

  /** A daily series at half past two: in a zone that jumps from two to three on its second
    * day it ends there, although its third day is admitted. */
  lemma GapLosesTheThirdDay()
    ensures var zone := Tz([(0, 0), (93_600, 3_600)]);
            var rule := Rule(Daily, 1, None, Some(3 * DAY), None, [], [], []);
            var (anchor, third) := (9_000 * SECOND, At(2, 9_000 * SECOND));
            && rule.Valid() && FromLocal(zone, At(1, 9_000 * SECOND)) == None
            && Expansion(rule, anchor, zone, third, STEP_CAP) == [anchor]
            && Due(rule, anchor, zone, third, STEP_CAP, third)
  {
    hide FromLocal, Expansion, Matches, DayPasses, Distance;
    var zone := Tz([(0, 0), (93_600, 3_600)]);
    var rule := Rule(Daily, 1, None, Some(3 * DAY), None, [], [], []);
    JumpedClocks();
    EndsAfterAnchor(rule, zone, 9_000 * SECOND, At(2, 9_000 * SECOND), STEP_CAP);
    DailyOccurs(rule, 9_000 * SECOND, 2);
  }

  /** A daily series whose second day UNTIL refuses is its anchor alone. */
  lemma EndsAfterAnchor(rule: Rule, zone: Zone, anchor: Wall, window: Wall, cap: nat)
    requires rule == Rule(Daily, 1, None, rule.untilInstant, None, [], [], []) && 1 <= cap
    requires StartsWithAnchor(rule, anchor, zone, window) && !Admits(rule, zone, At(DateOf(anchor) + 1, TimeOf(anchor)))
    ensures Expansion(rule, anchor, zone, window, cap) == [anchor]
  {
    hide FromLocal, Admits, StartsWithAnchor;
    var a := DateOf(anchor);
    assert DayPasses(rule, a, a + 1);
    assert Stream(rule, a, 1, cap) == [a + 1] + Stream(rule, a, 2, cap);
    FirstRefusedEnds(rule, zone, TimeOf(anchor), window, Stream(rule, a, 1, cap), 1);
  }

  lemma DailyOccurs(rule: Rule, anchor: Wall, k: nat)
    requires rule == Rule(Daily, 1, rule.count, rule.untilInstant, rule.untilDate, [], [], []) && 1 <= k <= STEP_CAP
    ensures var w := At(DateOf(anchor) + k, TimeOf(anchor));
            rule.Valid() && Occurs(rule, anchor, w) && WithinCap(rule, anchor, STEP_CAP, w)
  {
    var a := DateOf(anchor);
    AtParts(a + k, TimeOf(anchor));
    assert DayPasses(rule, a, a + k);
  }

  lemma JumpedClocks()
    ensures var table := [(0, 0), (93_600, 3_600)];
            FromLocal(Tz(table), At(1, 9_000 * SECOND)) == None
            && FromLocal(Tz(table), At(2, 9_000 * SECOND)) == Some(At(2, 5_400 * SECOND))
            && FromLocal(Tz(table), 9_000 * SECOND) == Some(9_000 * SECOND)
  {
    var table := [(0, 0), (93_600, 3_600)];
    forall secs: int ensures OffsetAt(table, secs) == if 93_600 <= secs then 3_600 else 0 {
      assert table[..1] == [(0, 0)] && [(0, 0)][..0] == [];
      assert Lookup([(0, 0)], secs) == if 0 <= secs then Some(0) else None;
      assert Lookup(table, secs) == if 93_600 <= secs then Some(3_600) else Lookup([(0, 0)], secs);
    }
    forall wall: int
      ensures Earliest(table, wall, 2)
           == var (late, early) := (wall - 3_600 * SECOND, wall);
              if ToLocal(Tz(table), late) == wall then Some(late)
              else if ToLocal(Tz(table), early) == wall then Some(early) else None
    {
      assert Earliest(table, wall, 0) == None;
      assert Earliest(table, wall, 1) == if ToLocal(Tz(table), wall) == wall then Some(wall) else None;
    }
  }

  lemma FirstRefusedEnds(rule: Rule, zone: Zone, time: nat, window: Wall, ds: seq<Date>, emitted: nat)
    requires ds != [] && !Admits(rule, zone, At(ds[0], time))
    ensures Take(rule, zone, time, window, ds, emitted) == []
  {
  }

  /** COUNT=0 parses, and without UNTIL a daily series still yields two entries. */
  lemma CountZeroEmitsTwo(anchor: Wall, zone: Zone, window: Wall, cap: nat)
    requires anchor + DAY <= window && 1 <= cap
    ensures Expansion(Rule(Daily, 1, Some(0), None, None, [], [], []), anchor, zone, window, cap)
            == [anchor, anchor + DAY]
  {
    var rule := Rule(Daily, 1, Some(0), None, None, [], [], []);
    var a := DateOf(anchor);
    assert DayPasses(rule, a, a + 1);
    assert Stream(rule, a, 1, cap) == [a + 1] + Stream(rule, a, 2, cap);
    WallParts(anchor);
    assert At(a + 1, TimeOf(anchor)) == anchor + DAY;
  }

  // ----- candidates out of order -----

  /** The j-th candidate has come before or is not earlier than any before it. */
  predicate InPlaceAt(ds: seq<Date>, j: nat)
    requires j < |ds|
  {
    ds[j] in ds[..j] || forall i | 0 <= i < j :: ds[i] <= ds[j]
  }

  /** No candidate comes after a later one without having come before it too. */
  predicate NoLateArrival(ds: seq<Date>) { forall j | 0 <= j < |ds| :: InPlaceAt(ds, j) }

  /** Every candidate up to the window is emitted. */
  ghost predicate CompleteAt(rule: Rule, zone: Zone, time: nat, window: Wall, ds: seq<Date>, emitted: nat) {
    forall d: Date | d in ds && At(d, time) <= window :: At(d, time) in Take(rule, zone, time, window, ds, emitted)
  }

  predicate NoBound(rule: Rule) { rule.count == None && rule.untilInstant == None && rule.untilDate == None }

  lemma TakesUpToFirstBeyond(rule: Rule, zone: Zone, time: nat, window: Wall, ds: seq<Date>, emitted: nat, j: nat)
    requires NoBound(rule) && j < |ds| && forall i | 0 <= i <= j :: At(ds[i], time) <= window
    ensures At(ds[j], time) in Take(rule, zone, time, window, ds, emitted)
  {
    var t := Take(rule, zone, time, window, ds, emitted);
    TakeIsPrefix(rule, zone, time, window, ds, emitted, t);
    assert j < |t|;
    assert t[j] == At(ds[j], time);
  }

  lemma StopsAtFirstBeyond(rule: Rule, zone: Zone, time: nat, window: Wall, ds: seq<Date>, emitted: nat, i: nat)
    requires i < |ds| && window < At(ds[i], time)
    ensures |Take(rule, zone, time, window, ds, emitted)| <= i
  {
    TakeIsPrefix(rule, zone, time, window, ds, emitted, Take(rule, zone, time, window, ds, emitted));
  }

  lemma CompleteInOrder(rule: Rule, zone: Zone, time: nat, window: Wall, ds: seq<Date>, emitted: nat)
    requires NoBound(rule) && NoLateArrival(ds)
    ensures CompleteAt(rule, zone, time, window, ds, emitted)
  {
    hide Take, At;
    forall d: Date | d in ds && At(d, time) <= window
      ensures At(d, time) in Take(rule, zone, time, window, ds, emitted)
    {
      var j := FirstIndex(ds, d);
      assert InPlaceAt(ds, j);
      forall i | 0 <= i <= j ensures At(ds[i], time) <= window {
        assert ds[j] !in ds[..j];
        assert ds[i] <= d;
        AtOrder(d, ds[i], time);
      }
      TakesUpToFirstBeyond(rule, zone, time, window, ds, emitted, j);
    }
  }

  /** Without COUNT and UNTIL the loop is complete at every window exactly when
    * no candidate arrives late: one early return drops the rest. */
  lemma CompleteExactlyWithoutLateArrival(rule: Rule, zone: Zone, time: nat, ds: seq<Date>, emitted: nat)
    requires NoBound(rule)
    ensures (forall window: Wall :: CompleteAt(rule, zone, time, window, ds, emitted)) <==> NoLateArrival(ds)
  {
    hide Take, At;
    if NoLateArrival(ds) {
      forall window: Wall ensures CompleteAt(rule, zone, time, window, ds, emitted) {
        CompleteInOrder(rule, zone, time, window, ds, emitted);
      }
    } else {
      var j :| 0 <= j < |ds| && ds[j] !in ds[..j] && !forall i | 0 <= i < j :: ds[i] <= ds[j];
      var i :| 0 <= i < j && ds[j] < ds[i];
      var window := At(ds[j], time);
      LateArrivalMissed(rule, zone, time, ds, emitted, i, j);
      assert !CompleteAt(rule, zone, time, window, ds, emitted);
    }
  }

  lemma LateArrivalMissed(rule: Rule, zone: Zone, time: nat, ds: seq<Date>, emitted: nat, i: nat, j: nat)
    requires i < j < |ds| && ds[j] < ds[i] && ds[j] !in ds[..j]
    ensures At(ds[j], time) !in Take(rule, zone, time, At(ds[j], time), ds, emitted)
  {
    var window := At(ds[j], time);
    var t := Take(rule, zone, time, window, ds, emitted);
    StopsAtFirstBeyond(rule, zone, time, window, ds, emitted, i);
    TakeIsPrefix(rule, zone, time, window, ds, emitted, t);
    forall n | 0 <= n < |t| ensures t[n] != window {
      assert ds[..j][n] == ds[n];
      AtOrder(ds[n], ds[j], time);
      AtOrder(ds[j], ds[n], time);
    }
  }

  lemma {:induction false} FirstIndex(ds: seq<Date>, d: Date) returns (j: nat)
    requires d in ds
    ensures j < |ds| && ds[j] == d && d !in ds[..j]
  {
    if ds[0] == d {
      j := 0;
    } else {
      assert ds == [ds[0]] + ds[1..];
      j := FirstIndex(ds[1..], d);
      assert ds[1..][..j] == ds[1..j + 1];
      assert ds[..j + 1] == [ds[0]] + ds[1..j + 1];
      j := j + 1;
    }
  }

  lemma AscendingHasNoLateArrival(ds: seq<Date>)
    requires Ascending(ds)
    ensures NoLateArrival(ds)
  {
  }

  /** Lists one after the other arrive late only within themselves. */
  lemma NoLateConcat(a: seq<Date>, b: seq<Date>)
    requires forall d, e | d in a && e in b :: d < e
    ensures NoLateArrival(a + b) <==> NoLateArrival(a) && NoLateArrival(b)
  {
    hide InPlaceAt;
    var ds := a + b;
    forall j | 0 <= j < |a| ensures InPlaceAt(ds, j) <==> InPlaceAt(a, j) {
      InPlaceBefore(a, b, j);
    }
    forall j | 0 <= j < |b| ensures InPlaceAt(ds, |a| + j) <==> InPlaceAt(b, j) {
      InPlaceBehind(a, b, j);
    }
    forall j | |a| <= j < |ds| ensures InPlaceAt(ds, j) <==> InPlaceAt(b, j - |a|) {
      InPlaceBehind(a, b, j - |a|);
    }
  }

  lemma InPlaceBefore(a: seq<Date>, b: seq<Date>, j: nat)
    requires j < |a|
    ensures InPlaceAt(a + b, j) <==> InPlaceAt(a, j)
  {
    assert (a + b)[..j] == a[..j];
    assert forall i | 0 <= i <= j :: (a + b)[i] == a[i];
  }

  lemma InPlaceBehind(a: seq<Date>, b: seq<Date>, j: nat)
    requires j < |b| && forall d, e | d in a && e in b :: d < e
    ensures InPlaceAt(a + b, |a| + j) <==> InPlaceAt(b, j)
  {
    var ds := a + b;
    assert ds[..|a| + j] == a + b[..j] && ds[|a| + j] == b[j] && b[j] in b && b[j] !in a;
    if InPlaceAt(b, j) && b[j] !in b[..j] {
      forall i | 0 <= i < |a| + j ensures ds[i] <= b[j] {
        assert if i < |a| then ds[i] in a else ds[i] == b[i - |a|];
      }
    }
    if InPlaceAt(ds, |a| + j) && b[j] !in b[..j] {
      forall i | 0 <= i < j ensures b[i] <= b[j] {
        assert ds[|a| + i] == b[i];
      }
    }
  }

  /** The candidates arrive late only within a period. */
  lemma {:induction false} StreamLateExactly(rule: Rule, anchor: Date, k: nat, cap: nat)
    requires rule.Valid() && 1 <= k
    ensures NoLateArrival(Stream(rule, anchor, k, cap)) <==>
            forall n | k <= n <= cap :: NoLateArrival(PeriodDates(rule, anchor, n))
    decreases cap - k
  {
    hide PeriodDates, Rule.Valid, NoLateArrival;
    if k <= cap {
      StreamLateExactly(rule, anchor, k + 1, cap);
      var (here, later) := (PeriodDates(rule, anchor, k), Stream(rule, anchor, k + 1, cap));
      forall d, e | d in here && e in later ensures d < e {
        PeriodBeforeLater(rule, anchor, k, cap, d, e);
      }
      NoLateConcat(here, later);
    } else {
      NothingLate();
    }
  }

  lemma NothingLate()
    ensures NoLateArrival([])
  {
  }

  // ----- complete expansions, for every rule without COUNT and UNTIL -----

  /** The expansion returns every occurrence within window and cap. */
  ghost predicate ReturnsAll(rule: Rule, anchor: Wall, zone: Zone, window: Wall, cap: nat)
    requires rule.Valid()
  {
    forall w: Wall | Occurs(rule, anchor, w) && w <= window && WithinCap(rule, anchor, cap, w) ::
      w in Expansion(rule, anchor, zone, window, cap)
  }

  lemma InOrderReturnsAll(rule: Rule, anchor: Wall, zone: Zone, window: Wall, cap: nat)
    requires rule.Valid() && NoBound(rule) && NoLateArrival(Stream(rule, DateOf(anchor), 1, cap))
    ensures ReturnsAll(rule, anchor, zone, window, cap)
  {
    hide Stream, Take, Occurs, WithinCap, NoLateArrival, At, Rule.Valid;
    var ds := Stream(rule, DateOf(anchor), 1, cap);
    forall emitted: nat ensures CompleteAt(rule, zone, TimeOf(anchor), window, ds, emitted) {
      CompleteInOrder(rule, zone, TimeOf(anchor), window, ds, emitted);
    }
    forall w: Wall | Occurs(rule, anchor, w) && w <= window && WithinCap(rule, anchor, cap, w)
      ensures w in Expansion(rule, anchor, zone, window, cap)
    {
      WithinStream(rule, anchor, cap, w);
      WallParts(w);
      OccursAtTime(rule, anchor, w);
      forall emitted: nat ensures w in Take(rule, zone, TimeOf(anchor), window, ds, emitted) {
        assert CompleteAt(rule, zone, TimeOf(anchor), window, ds, emitted);
      }
      InExpansion(rule, anchor, zone, window, cap, w);
    }
  }

  lemma OccursAtTime(rule: Rule, anchor: Wall, w: Wall)
    requires rule.Valid() && Occurs(rule, anchor, w)
    ensures TimeOf(w) == TimeOf(anchor)
  {
  }

  /** What the loop takes, whatever was emitted before it, is in an unbounded expansion. */
  lemma InExpansion(rule: Rule, anchor: Wall, zone: Zone, window: Wall, cap: nat, w: Wall)
    requires rule.Valid() && NoBound(rule)
    requires forall emitted: nat ::
               w in Take(rule, zone, TimeOf(anchor), window, Stream(rule, DateOf(anchor), 1, cap), emitted)
    ensures w in Expansion(rule, anchor, zone, window, cap)
  {
    hide Take, Stream;
    var t := Take(rule, zone, TimeOf(anchor), window, Stream(rule, DateOf(anchor), 1, cap), 1);
    assert w in [anchor] + t;
  }

  lemma NotInExpansion(rule: Rule, anchor: Wall, zone: Zone, window: Wall, cap: nat, w: Wall)
    requires rule.Valid() && w != anchor
    requires forall emitted | emitted in {0, 1} ::
               w !in Take(rule, zone, TimeOf(anchor), window, Stream(rule, DateOf(anchor), 1, cap), emitted)
    ensures w !in Expansion(rule, anchor, zone, window, cap)
  {
    hide Take, Stream;
  }

  /** A late arrival is lost at the window that ends with it. */
  lemma LateLosesOne(rule: Rule, anchor: Wall, zone: Zone, cap: nat) returns (window: Wall)
    requires rule.Valid() && !NoLateArrival(Stream(rule, DateOf(anchor), 1, cap))
    ensures !ReturnsAll(rule, anchor, zone, window, cap)
  {
    hide Take, Stream, Occurs, WithinCap, At, Rule.Valid, Expansion;
    var (ds, time) := (Stream(rule, DateOf(anchor), 1, cap), TimeOf(anchor));
    var j :| 0 <= j < |ds| && ds[j] !in ds[..j] && !forall i | 0 <= i < j :: ds[i] <= ds[j];
    var i :| 0 <= i < j && ds[j] < ds[i];
    window := At(ds[j], time);
    InStream(rule, anchor, cap, ds[j]);
    LateArrivalMissed(rule, zone, time, ds, 0, i, j);
    LateArrivalMissed(rule, zone, time, ds, 1, i, j);
    NotInExpansion(rule, anchor, zone, window, cap, window);
  }

  /** No period of the series has a late arrival. */
  predicate OrderlyFrom(rule: Rule, anchor: Date, cap: nat)
    requires rule.Valid()
  {
    forall k | 1 <= k <= cap :: NoLateArrival(PeriodDates(rule, anchor, k))
  }

  /** A series without COUNT and UNTIL, of any frequency, returns all its occurrences at every
    * window exactly if no period within the cap has a late arrival. */
  lemma CompleteExactly(rule: Rule, anchor: Wall, zone: Zone, cap: nat)
    requires rule.Valid() && NoBound(rule)
    ensures (forall window: Wall :: ReturnsAll(rule, anchor, zone, window, cap)) <==>
            OrderlyFrom(rule, DateOf(anchor), cap)
  {
    hide ReturnsAll, Stream, PeriodDates, Rule.Valid, NoLateArrival;
    StreamLateExactly(rule, DateOf(anchor), 1, cap);
    if NoLateArrival(Stream(rule, DateOf(anchor), 1, cap)) {
      forall window: Wall ensures ReturnsAll(rule, anchor, zone, window, cap) {
        InOrderReturnsAll(rule, anchor, zone, window, cap);
      }
    } else {
      var window := LateLosesOne(rule, anchor, zone, cap);
    }
  }

  lemma TwoEntries(m: YearMonth, b: ByDay, c: ByDay)
    requires m.Valid()
    ensures ByDayDates(m, [b, c]) == EntryDates(m, b) + EntryDates(m, c)
  {
    hide EntryDates;
    assert [b, c][..1] == [b] && [b][..0] == [];
    assert ByDayDates(m, []) == [];
    assert ByDayDates(m, [b]) == EntryDates(m, b);
  }

  /** A month's run of one weekday starts in its first week and ends in its last. */
  lemma RunSpan(m: YearMonth, weekday: nat) returns (ds: seq<Date>)
    requires m.Valid() && weekday < 7
    ensures ds == EntryDates(m, ByDay(weekday, None)) && 4 <= |ds|
    ensures ds[0] < m.Start() + 7 && m.Start() + 21 <= ds[|ds| - 1]
    ensures forall i | 0 <= i < |ds| :: Weekday(ds[i]) == weekday
  {
    hide MonthStart;
    ds := DaysWhere(m.Start(), DaysInMonth(m), OnWeekday(weekday));
    WeekdayRun(m.Start(), DaysInMonth(m), weekday);
    DaysWhereExact(m.Start(), DaysInMonth(m), OnWeekday(weekday));
    forall i | 0 <= i < |ds| ensures Weekday(ds[i]) == weekday {
      assert ds[i] in ds;
    }
  }

  /** BYDAY=FR,MO lists a month's Fridays and then its Mondays: a late arrival in every month. */
  lemma FridaysThenMondaysArriveLate(m: YearMonth)
    requires m.Valid()
    ensures !NoLateArrival(ByDayDates(m, [ByDay(4, None), ByDay(0, None)]))
  {
    hide MonthStart, EntryDates, ByDayDates, Weekday;
    var fridays := RunSpan(m, 4);
    var mondays := RunSpan(m, 0);
    TwoEntries(m, ByDay(4, None), ByDay(0, None));
    var ds, j := fridays + mondays, |fridays|;
    assert ds[j] == mondays[0] && ds[j - 1] == fridays[j - 1] && ds[..j] == fridays;
    assert forall i | 0 <= i < |fridays| :: Weekday(fridays[i]) != Weekday(mondays[0]);
    assert !InPlaceAt(ds, j);
  }

  // ----- MONTHLY with plain weekdays -----

  /** MONTHLY;BYDAY with at least one entry, none of them numbered, and no COUNT or UNTIL. */
  predicate PlainMonthly(rule: Rule) {
    && rule.Valid() && rule.freq.Monthly? && NoBound(rule) && rule.byMonthday == [] && rule.byDay != []
    && forall i | 0 <= i < |rule.byDay| :: rule.byDay[i].ordinal == None
  }

  /** All entries name the same weekday. */
  predicate OneWeekday(entries: seq<ByDay>) {
    forall i | 0 <= i < |entries| :: entries[i].weekday == entries[0].weekday
  }

  // one weekday: nothing arrives late

  lemma {:induction false} RunsOfOneWeekday(m: YearMonth, entries: seq<ByDay>, run: seq<Date>, d: Date)
    requires m.Valid() && Ascending(run)
    requires forall i | 0 <= i < |entries| :: EntryDates(m, entries[i]) == run
    ensures NoLateArrival(ByDayDates(m, entries))
    ensures d in ByDayDates(m, entries) <==> entries != [] && d in run
    decreases |entries|
  {
    hide EntryDates;
    if entries != [] {
      var n := |entries| - 1;
      assert forall i | 0 <= i < n :: entries[..n][i] == entries[i];
      RunsOfOneWeekday(m, entries[..n], run, d);
      var before := ByDayDates(m, entries[..n]);
      assert ByDayDates(m, entries) == before + run;
      forall e | e in run && n > 0 ensures e in before {
        RunsOfOneWeekday(m, entries[..n], run, e);
      }
      if n == 0 {
        assert before + run == run;
      } else {
        RepeatedRun(before, run);
      }
    }
  }

  lemma RepeatedRun(before: seq<Date>, run: seq<Date>)
    requires NoLateArrival(before) && forall e | e in run :: e in before
    ensures NoLateArrival(before + run)
  {
    var ds := before + run;
    forall j | 0 <= j < |ds| ensures InPlaceAt(ds, j) {
      if j < |before| {
        InPlaceBefore(before, run, j);
      } else {
        var k := FirstIndex(before, ds[j]);
        assert ds[..j][k] == ds[j];
      }
    }
  }

  lemma PeriodNotLate(rule: Rule, anchor: Date, k: nat)
    requires PlainMonthly(rule) && OneWeekday(rule.byDay) && 1 <= k
    ensures NoLateArrival(PeriodDates(rule, anchor, k))
  {
    hide MonthStart, DaysWhere, DaysInMonth;
    var m := MonthByIndex(MonthOf(anchor).Index() + Stride(rule, k));
    var run := EntryDates(m, rule.byDay[0]);
    DaysWhereExact(m.Start(), DaysInMonth(m), OnWeekday(rule.byDay[0].weekday));
    RunsOfOneWeekday(m, rule.byDay, run, 0);
  }

  lemma PlainIsValid(rule: Rule)
    requires PlainMonthly(rule)
    ensures rule.Valid() && NoBound(rule)
  {
  }

  // two weekdays: one of them arrives late in every month

  lemma {:induction false} FirstOther(entries: seq<ByDay>) returns (i: nat)
    requires entries != [] && !OneWeekday(entries)
    ensures 0 < i < |entries| && entries[i].weekday != entries[0].weekday && OneWeekday(entries[..i])
    decreases |entries|
  {
    var n := |entries| - 1;
    assert n == 0 ==> OneWeekday(entries);
    if OneWeekday(entries[..n]) {
      i := n;
      assert forall k | 0 <= k < n :: entries[..n][k] == entries[k];
    } else {
      i := FirstOther(entries[..n]);
      assert entries[..n][..i] == entries[..i];
    }
  }

  lemma {:induction false} ByDayPrefix(m: YearMonth, entries: seq<ByDay>, i: nat)
    requires m.Valid() && i < |entries|
    ensures ByDayDates(m, entries[..i]) + EntryDates(m, entries[i]) <= ByDayDates(m, entries)
    decreases |entries|
  {
    hide EntryDates;
    var n := |entries| - 1;
    if i < n {
      assert entries[..n][..i] == entries[..i] && entries[..n][i] == entries[i];
      ByDayPrefix(m, entries[..n], i);
    }
  }

  lemma {:induction false} ByDayOfOneWeekday(m: YearMonth, entries: seq<ByDay>, weekday: nat)
    requires m.Valid() && weekday < 7 && forall i | 0 <= i < |entries| :: entries[i] == ByDay(weekday, None)
    ensures forall d | d in ByDayDates(m, entries) :: Weekday(d) == weekday
    ensures entries != [] ==> EntryDates(m, ByDay(weekday, None)) <= ByDayDates(m, entries)
    decreases |entries|
  {
    hide EntryDates, MonthStart, Weekday;
    if entries != [] {
      var n := |entries| - 1;
      assert forall i | 0 <= i < n :: entries[..n][i] == entries[i];
      ByDayOfOneWeekday(m, entries[..n], weekday);
      var run := RunSpan(m, weekday);
      forall d | d in ByDayDates(m, entries) ensures Weekday(d) == weekday {
        if d !in ByDayDates(m, entries[..n]) {
          var k :| 0 <= k < |run| && run[k] == d;
        }
      }
      if n == 0 {
        assert ByDayDates(m, entries[..n]) == [];
      }
    }
  }

  /** Of two weekdays the second one's first day comes too late, in every month. */
  lemma SecondWeekdayArrivesLate(m: YearMonth, entries: seq<ByDay>) returns (i: nat, j: nat)
    requires m.Valid() && entries != [] && !OneWeekday(entries)
    requires forall i | 0 <= i < |entries| :: entries[i].ordinal == None && entries[i].weekday < 7
    ensures var ds := ByDayDates(m, entries); i < j < |ds| && ds[j] < ds[i] && ds[j] !in ds[..j]
  {
    hide MonthStart, EntryDates, ByDayDates, Weekday;
    var n := FirstOther(entries);
    var (a, b) := (entries[0].weekday, entries[n].weekday);
    var first := RunSpan(m, a);
    var second := RunSpan(m, b);
    forall k | 0 <= k < n ensures entries[..n][k] == ByDay(a, None) {
      assert entries[..n][k].weekday == entries[..n][0].weekday;
      assert entries[k] == entries[..n][k];
    }
    ByDayOfOneWeekday(m, entries[..n], a);
    ByDayPrefix(m, entries, n);
    var before := ByDayDates(m, entries[..n]);
    var ds := ByDayDates(m, entries);
    assert entries[n] == ByDay(b, None);
    i, j := |first| - 1, |before|;
    assert ds[i] == first[i] && ds[j] == second[0] && ds[..j] == before;
  }

  /** An anchor whose first stepped month passes BYMONTH. */
  lemma AnchorBefore(rule: Rule) returns (anchor: Wall, m: YearMonth)
    requires PlainMonthly(rule)
    ensures m.Valid() && PeriodDates(rule, DateOf(anchor), 1) == ByDayDates(m, rule.byDay)
  {
    hide MonthStart, ByDayDates, MonthOf, DayOfMonth, PeriodDates;
    var month := if rule.byMonth == [] then 1 else rule.byMonth[0];
    m := YearMonth(rule.interval + 2, month);
    var start := MonthByIndex(m.Index() - rule.interval);
    anchor := At(start.Start(), 0);
    AtParts(start.Start(), 0);
    StartOfNext(start);
    MonthUnique(start.Start(), start);
    SameMonth(m, rule.interval);
    FirstMonthly(rule, start.Start(), m);
  }

  lemma FirstMonthly(rule: Rule, a: Date, m: YearMonth)
    requires rule.Valid() && rule.freq.Monthly? && rule.byMonthday == [] && rule.byDay != []
    requires m.Valid() && m == MonthByIndex(MonthOf(a).Index() + rule.interval)
    requires rule.byMonth == [] || m.month in rule.byMonth
    ensures PeriodDates(rule, a, 1) == ByDayDates(m, rule.byDay)
  {
    hide MonthStart, ByDayDates, MonthOf, DayOfMonth, DayPeriod, YearPeriod;
    assert Stride(rule, 1) == rule.interval;
    assert PeriodDates(rule, a, 1) == MonthPeriod(rule, a, rule.interval);
  }

  lemma SameMonth(m: YearMonth, n: nat)
    requires m.Valid() && 12 <= m.Index() - n
    ensures MonthByIndex(MonthByIndex(m.Index() - n).Index() + n) == m
  {
  }

  lemma StreamStarts(rule: Rule, anchor: Date, cap: nat)
    requires rule.Valid() && 1 <= cap
    ensures PeriodDates(rule, anchor, 1) <= Stream(rule, anchor, 1, cap)
  {
    hide PeriodDates;
  }

  /** A monthly rule over plain weekdays returns all its occurrences at every anchor and
    * window exactly if its entries all name one weekday. */
  lemma MonthlyCompleteExactly(rule: Rule, cap: nat)
    requires PlainMonthly(rule) && 1 <= cap
    ensures (forall anchor: Wall, zone: Zone, window: Wall :: ReturnsAll(rule, anchor, zone, window, cap))
       <==> OneWeekday(rule.byDay)
  {
    hide ReturnsAll, OneWeekday, PlainMonthly, PeriodDates, ByDayDates, NoLateArrival;
    PlainIsValid(rule);
    if OneWeekday(rule.byDay) {
      forall anchor: Wall, zone: Zone, window: Wall ensures ReturnsAll(rule, anchor, zone, window, cap) {
        forall k | 1 <= k <= cap ensures NoLateArrival(PeriodDates(rule, DateOf(anchor), k)) {
          PeriodNotLate(rule, DateOf(anchor), k);
        }
        CompleteExactly(rule, anchor, zone, cap);
      }
    } else {
      var anchor, m := AnchorBefore(rule);
      TwoWeekdaysAreLate(rule, m);
      CompleteExactly(rule, anchor, UTC, cap);
      assert !NoLateArrival(PeriodDates(rule, DateOf(anchor), 1));
    }
  }

  lemma TwoWeekdaysAreLate(rule: Rule, m: YearMonth)
    requires PlainMonthly(rule) && !OneWeekday(rule.byDay) && m.Valid()
    ensures !NoLateArrival(ByDayDates(m, rule.byDay))
  {
    hide OneWeekday, ByDayDates;
    var i, j := SecondWeekdayArrivesLate(m, rule.byDay);
    assert !InPlaceAt(ByDayDates(m, rule.byDay), j);
  }

  // ----- COUNT and UNTIL over such lists -----

  /** COUNT=n keeps the first n entries in the order the candidates come in. */
  lemma {:induction false} TakeCounted(rule: Rule, n: nat, zone: Zone, time: nat, window: Wall, ds: seq<Date>,
      emitted: nat)
    requires rule.count == None && emitted < n
    ensures var all := Take(rule, zone, time, window, ds, emitted);
            Take(rule.(count := Some(n)), zone, time, window, ds, emitted)
            == if n - emitted < |all| then all[..n - emitted] else all
    decreases ds
  {
    hide At;
    var counted := rule.(count := Some(n));
    if ds != [] && At(ds[0], time) <= window {
      if emitted + 1 < n {
        TakeCounted(rule, n, zone, time, window, ds[1..], emitted + 1);
      }
      TakeEmitted(rule, zone, time, window, ds[1..], emitted, emitted + 1);
    }
  }

  lemma {:induction false} TakeEmitted(rule: Rule, zone: Zone, time: nat, window: Wall, ds: seq<Date>, e: nat, f: nat)
    requires rule.count == None
    ensures Take(rule, zone, time, window, ds, e) == Take(rule, zone, time, window, ds, f)
    decreases ds
  {
    hide At;
    if ds != [] && At(ds[0], time) <= window {
      TakeEmitted(rule, zone, time, window, ds[1..], e + 1, f + 1);
    }
  }

  /** COUNT cuts the list the rule returns without it, late arrivals included, to its first n entries. */
  lemma CountIsPrefix(rule: Rule, n: nat, anchor: Wall, zone: Zone, window: Wall, cap: nat)
    requires rule.Valid() && rule.count == None && 1 <= n
    ensures var all := Expansion(rule, anchor, zone, window, cap);
            Expansion(rule.(count := Some(n)), anchor, zone, window, cap) == if n < |all| then all[..n] else all
  {
    hide Take, Stream;
    var counted := rule.(count := Some(n));
    var ds := Stream(rule, DateOf(anchor), 1, cap);
    SameStream(rule, counted, DateOf(anchor), 1, cap);
    TakeCounted(rule, n, zone, TimeOf(anchor), window, ds, 0);
    if 1 < n {
      TakeCounted(rule, n, zone, TimeOf(anchor), window, ds, 1);
    }
  }

  /** An UNTIL date acts as an earlier window: what it loses is what that window loses. */
  lemma UntilDateIsWindow(rule: Rule, until: Date, anchor: Wall, zone: Zone, window: Wall, cap: nat)
    requires rule.Valid() && NoBound(rule) && DateOf(anchor) <= until
    ensures var last := At(until, TimeOf(anchor));
            Expansion(rule.(untilDate := Some(until)), anchor, zone, window, cap)
            == Expansion(rule, anchor, zone, if last < window then last else window, cap)
  {
    hide Take, Stream, At;
    var dated := rule.(untilDate := Some(until));
    var ds := Stream(rule, DateOf(anchor), 1, cap);
    SameStream(rule, dated, DateOf(anchor), 1, cap);
    TakeDated(rule, until, zone, TimeOf(anchor), window, ds, 0);
    TakeDated(rule, until, zone, TimeOf(anchor), window, ds, 1);
    WallParts(anchor);
    AtOrder(until, DateOf(anchor), TimeOf(anchor));
  }

  lemma {:induction false} TakeDated(rule: Rule, until: Date, zone: Zone, time: nat, window: Wall, ds: seq<Date>,
      emitted: nat)
    requires NoBound(rule) && time < DAY
    ensures var last := At(until, time);
            Take(rule.(untilDate := Some(until)), zone, time, window, ds, emitted)
            == Take(rule, zone, time, if last < window then last else window, ds, emitted)
    decreases ds
  {
    if ds != [] {
      AtParts(ds[0], time);
      AtOrder(until, ds[0], time);
      TakeDated(rule, until, zone, time, window, ds[1..], emitted + 1);
    }
  }

  /** Equal but for COUNT and UNTIL. */
  predicate SameShape(rule: Rule, other: Rule) {
    && other.freq == rule.freq && other.interval == rule.interval && other.byDay == rule.byDay
    && other.byMonthday == rule.byMonthday && other.byMonth == rule.byMonth
  }

  /** The candidates do not depend on COUNT and UNTIL. */
  lemma {:induction false} SameStream(rule: Rule, other: Rule, anchor: Date, k: nat, cap: nat)
    requires rule.Valid() && other.Valid() && SameShape(rule, other) && 1 <= k
    ensures Stream(other, anchor, k, cap) == Stream(rule, anchor, k, cap)
    decreases cap - k
  {
    hide PeriodDates, SameShape, Rule.Valid;
    if k <= cap {
      SameCandidates(rule, other, anchor, k);
      SameStream(rule, other, anchor, k + 1, cap);
    }
  }

  lemma SameCandidates(rule: Rule, other: Rule, anchor: Date, k: nat)
    requires rule.Valid() && other.Valid() && SameShape(rule, other) && 1 <= k
    ensures PeriodDates(other, anchor, k) == PeriodDates(rule, anchor, k)
  {
    hide DayPeriod, MonthPeriod, YearPeriod, Rule.Valid;
    SameDayPeriod(rule, other, anchor, k);
    SameMonthPeriod(rule, other, anchor, Stride(rule, k));
    SameYearPeriod(rule, other, anchor, Stride(rule, k));
  }

  lemma SameDayPeriod(rule: Rule, other: Rule, anchor: Date, k: nat)
    requires rule.Valid() && other.Valid() && SameShape(rule, other)
    ensures DayPeriod(other, anchor, k) == DayPeriod(rule, anchor, k)
  {
    hide Rule.Valid, HasWeekday, MatchesMonthday, MonthOf, Weekday, WeekIndex, Multiple;
    assert rule.interval >= 1 by { ValidInterval(rule); }
    assert DayPasses(other, anchor, anchor + k) == DayPasses(rule, anchor, anchor + k);
  }

  lemma ValidInterval(rule: Rule)
    requires rule.Valid()
    ensures 1 <= rule.interval
  {
  }

  lemma SameMonthPeriod(rule: Rule, other: Rule, anchor: Date, stride: nat)
    requires SameShape(rule, other)
    ensures MonthPeriod(other, anchor, stride) == MonthPeriod(rule, anchor, stride)
  {
    hide MonthStart, DaysWhere, ByDayDates, MonthOf, DayOfMonth;
  }

  lemma SameYearPeriod(rule: Rule, other: Rule, anchor: Date, stride: nat)
    requires rule.Valid() && other.Valid() && SameShape(rule, other)
    ensures YearPeriod(other, anchor, stride) == YearPeriod(rule, anchor, stride)
  {
    hide MonthOf, DayOfMonth, YearDates, Rule.Valid;
    SameYearDates(rule, other, MonthOf(anchor).year + stride, YearMonths(rule, anchor), DayOfMonth(anchor));
  }

  lemma {:induction false} SameYearDates(rule: Rule, other: Rule, year: nat, months: seq<nat>, anchorDay: nat)
    requires 1 <= year && (forall i | 0 <= i < |months| :: 1 <= months[i] <= 12) && SameShape(rule, other)
    ensures YearDates(other, year, months, anchorDay) == YearDates(rule, year, months, anchorDay)
  {
    hide MonthStart, DaysWhere, ByDayDates;
    if months != [] {
      SameYearDates(rule, other, year, months[1..], anchorDay);
    }
  }

  /** MONTHLY;BYDAY=MO,FR, in ascending order, from Monday 1 January of year 1 to Friday
    * 2 February: the first Monday of February ends the list, and that Friday is lost. */
  lemma SortedWeekdaysLoseAFriday(zone: Zone)
    ensures var rule := Rule(Monthly, 1, None, None, None, [ByDay(0, None), ByDay(4, None)], [], []);
            && PlainMonthly(rule) && !OneWeekday(rule.byDay)
            && rule.Valid() && Expansion(rule, 0, zone, At(32, 0), STEP_CAP) == [0]
            && Occurs(rule, 0, At(32, 0)) && WithinCap(rule, 0, STEP_CAP, At(32, 0))
  {
    hide Stream, ByDayDates, EntryDates, Weekday, MonthOf, DayOfMonth, Occurs, WithinCap, Expansion, PeriodDates,
      YearMonth.Start;
    var entries := [ByDay(0, None), ByDay(4, None)];
    var rule := Rule(Monthly, 1, None, None, None, entries, [], []);
    var february := YearMonth(1, 2);
    FebruaryComesFirst(rule);
    var mondays := RunSpan(february, 0);
    TwoEntries(february, entries[0], entries[1]);
    StreamStarts(rule, 0, STEP_CAP);
    var ds := Stream(rule, 0, 1, STEP_CAP);
    assert ds[0] == mondays[0];
    assert ds[0] in ByDayDates(february, entries);
    ByDayDatesExact(february, entries, ds[0]);
    FirstMonday(ds[0]);
    BeyondWindowEnds(rule, 0, zone, At(32, 0), STEP_CAP);
    FridayOccurs(rule);
  }

  lemma FebruaryComesFirst(rule: Rule)
    requires rule == Rule(Monthly, 1, None, None, None, [ByDay(0, None), ByDay(4, None)], [], [])
    ensures PeriodDates(rule, 0, 1) == ByDayDates(YearMonth(1, 2), rule.byDay)
  {
    hide ByDayDates, DayOfMonth, MonthOf, MonthStart, DayPeriod, YearPeriod;
    FirstMonths();
    MonthUnique(0, YearMonth(1, 1));
    assert MonthByIndex(13) == YearMonth(1, 2);
    assert PeriodDates(rule, 0, 1) == MonthPeriod(rule, 0, 1);
  }

  lemma FirstMonths()
    ensures YearMonth(1, 1).Start() == 0 && YearMonth(1, 2).Start() == 31 && YearMonth(1, 3).Start() == 59
  {
    StartOfNext(YearMonth(1, 1));
    StartOfNext(YearMonth(1, 2));
  }

  lemma FirstMonday(d: Date)
    requires MonthOf(d) == YearMonth(1, 2) && Weekday(d) == 0
    ensures 32 < d
  {
    hide MonthOf, MonthStart, YearMonth.Start;
    FirstMonths();
  }

  lemma FridayOccurs(rule: Rule)
    requires rule == Rule(Monthly, 1, None, None, None, [ByDay(0, None), ByDay(4, None)], [], [])
    ensures Occurs(rule, 0, At(32, 0)) && WithinCap(rule, 0, STEP_CAP, At(32, 0))
  {
    hide MonthOf, DayOfMonth, MonthStart;
    FirstMonths();
    MonthUnique(0, YearMonth(1, 1));
    MonthUnique(32, YearMonth(1, 2));
    AtParts(0, 0);
    AtParts(32, 0);
    assert MatchesByDay(rule.byDay[1], 32);
  }

  lemma BeyondWindowEnds(rule: Rule, anchor: Wall, zone: Zone, window: Wall, cap: nat)
    requires rule.Valid() && NoBound(rule) && anchor <= window
    requires var ds := Stream(rule, DateOf(anchor), 1, cap); ds != [] && window < At(ds[0], TimeOf(anchor))
    ensures Expansion(rule, anchor, zone, window, cap) == [anchor]
  {
    hide Stream;
  }
}
