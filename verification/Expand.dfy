/** The expansion loop, and the set of occurrences it returns. */
module Expand {
  import opened Wrappers
  import opened Civil
  import opened Zones
  import opened Divides
  import opened Recurrence
  import opened RecurrenceDates

  // ----- the candidate stream is the matching dates within the cap -----

  lemma {:induction false} StreamExact(rule: Rule, anchor: Date, k: nat, cap: nat, d: Date)
    requires rule.Valid() && 1 <= k
    ensures d in Stream(rule, anchor, k, cap) <==>
            k <= cap && Matches(rule, anchor, d) && Unit(rule, k) <= Distance(rule, anchor, d) <= Unit(rule, cap)
    decreases cap - k
  {
    hide Rule.Valid, Matches, PeriodDates, Unit, Distance;
    if k <= cap {
      PeriodDatesExact(rule, anchor, k, d);
      StreamExact(rule, anchor, k + 1, cap, d);
      UnitOrder(rule, k, k + 1);
      UnitOrder(rule, cap, k);
      if Matches(rule, anchor, d) {
        var j := PeriodIndex(rule, anchor, d);
        UnitOrder(rule, k, j);
        UnitOrder(rule, j, k + 1);
        UnitOrder(rule, cap, j);
      }
    }
  }

  lemma PeriodBeforeLater(rule: Rule, anchor: Date, k: nat, cap: nat, d: Date, e: Date)
    requires rule.Valid() && 1 <= k
    requires d in PeriodDates(rule, anchor, k) && e in Stream(rule, anchor, k + 1, cap)
    ensures d < e
  {
    hide Rule.Valid, Matches, PeriodDates, Unit, Distance, Stream;
    PeriodDatesExact(rule, anchor, k, d);
    StreamExact(rule, anchor, k + 1, cap, e);
    UnitOrder(rule, k, k + 1);
    DistanceOrders(rule, anchor, d, e);
  }

  lemma {:induction false} StreamAscends(rule: Rule, anchor: Date, k: nat, cap: nat)
    requires rule.Valid() && 1 <= k && Orderly(rule)
    ensures Ascending(Stream(rule, anchor, k, cap))
    decreases cap - k
  {
    hide Rule.Valid, PeriodDates, Orderly;
    if k <= cap {
      PeriodDatesAscend(rule, anchor, k);
      StreamAscends(rule, anchor, k + 1, cap);
      var here, later := PeriodDates(rule, anchor, k), Stream(rule, anchor, k + 1, cap);
      forall d, e | d in here && e in later ensures d < e {
        PeriodBeforeLater(rule, anchor, k, cap, d, e);
      }
      AscendingConcat(here, later);
    }
  }

  // ----- the expansion as a set of occurrences -----

  predicate Passes(rule: Rule, zone: Zone, time: nat, window: Wall, d: Date) {
    At(d, time) <= window && Admits(rule, zone, At(d, time))
  }

  /** Take keeps the longest prefix that passes, or stops right after reaching COUNT. */
  lemma {:induction false} TakeIsPrefix(
    rule: Rule, zone: Zone, time: nat, window: Wall, ds: seq<Date>, emitted: nat, out: seq<Wall>)
    requires out == Take(rule, zone, time, window, ds, emitted)
    ensures |out| <= |ds|
    ensures forall i | 0 <= i < |out| :: out[i] == At(ds[i], time) && Passes(rule, zone, time, window, ds[i])
    ensures |out| < |ds| ==>
              || !Passes(rule, zone, time, window, ds[|out|])
              || (0 < |out| && CountReached(rule, emitted + |out|))
    ensures 1 < |out| ==> !CountReached(rule, emitted + |out| - 1)
    decreases ds
  {
    if out != [] && !CountReached(rule, emitted + 1) {
      TakeIsPrefix(rule, zone, time, window, ds[1..], emitted + 1, out[1..]);
      forall i | 0 < i < |out|
        ensures out[i] == At(ds[i], time) && Passes(rule, zone, time, window, ds[i])
      {
        assert out[i] == out[1..][i - 1] && ds[i] == ds[1..][i - 1];
      }
    }
  }

  /** w is a later occurrence of the rule, COUNT, UNTIL, window and cap aside. */
  predicate Occurs(rule: Rule, anchor: Wall, w: Wall)
    requires rule.Valid()
  {
    TimeOf(w) == TimeOf(anchor) && Matches(rule, DateOf(anchor), DateOf(w))
  }

  predicate WithinCap(rule: Rule, anchor: Wall, cap: nat, w: Wall) {
    Distance(rule, DateOf(anchor), DateOf(w)) <= Unit(rule, cap)
  }

  /** Every occurrence up to w passes UNTIL. */
  ghost predicate AdmittedThrough(rule: Rule, anchor: Wall, zone: Zone, w: Wall)
    requires rule.Valid()
  {
    forall v: Wall | v <= w && Occurs(rule, anchor, v) :: Admits(rule, zone, v)
  }

  /** s is the anchor (unless window or UNTIL excludes it) followed by the
    * occurrences in ascending order, without gaps, cut only by the window, the
    * cap, the first UNTIL violation or COUNT. */
  ghost predicate IsExpansion(rule: Rule, anchor: Wall, zone: Zone, window: Wall, cap: nat, s: seq<Wall>)
    requires rule.Valid()
  {
    && Ascending(s)
    && (anchor in s <==> StartsWithAnchor(rule, anchor, zone, window))
    && (forall w | w in s && w != anchor ::
          Occurs(rule, anchor, w) && w <= window && Admits(rule, zone, w) && WithinCap(rule, anchor, cap, w))
    && (forall v: Wall, w | Occurs(rule, anchor, v) && w in s && v < w :: v in s)
    && (forall w: Wall | Occurs(rule, anchor, w) && w <= window && WithinCap(rule, anchor, cap, w) &&
                         AdmittedThrough(rule, anchor, zone, w) ::
          w in s || CountReached(rule, |s|))
    && (rule.count.Some? && 1 <= rule.count.value ==> |s| <= rule.count.value)
  }

  lemma WallParts(w: Wall)
    ensures w == At(DateOf(w), TimeOf(w)) && TimeOf(w) < DAY
  {
  }

  lemma ADayApart(v: Wall, w: Wall)
    requires TimeOf(v) == TimeOf(w) && v < w
    ensures v + DAY <= w && DateOf(v) < DateOf(w)
  {
    WallParts(v);
    WallParts(w);
  }

  lemma AtOrder(d: Date, e: Date, time: nat)
    ensures At(d, time) < At(e, time) <==> d < e
  {
  }

  lemma MatchesLater(rule: Rule, a: Date, d: Date)
    requires rule.Valid() && Matches(rule, a, d)
    ensures a < d
  {
    hide DayPasses, MatchesInMonth, YearMonths;
    DistanceOrders(rule, a, a, d);
  }

  lemma OccursLater(rule: Rule, anchor: Wall, w: Wall)
    requires rule.Valid() && Occurs(rule, anchor, w)
    ensures anchor < w
  {
    hide Matches;
    MatchesLater(rule, DateOf(anchor), DateOf(w));
  }

  lemma InStream(rule: Rule, anchor: Wall, cap: nat, d: Date)
    requires rule.Valid() && d in Stream(rule, DateOf(anchor), 1, cap)
    ensures anchor < At(d, TimeOf(anchor))
    ensures Occurs(rule, anchor, At(d, TimeOf(anchor)))
    ensures WithinCap(rule, anchor, cap, At(d, TimeOf(anchor)))
  {
    hide Matches, Stream, Distance, Unit, Rule.Valid;
    AtParts(d, TimeOf(anchor));
    StreamExact(rule, DateOf(anchor), 1, cap, d);
    OccursLater(rule, anchor, At(d, TimeOf(anchor)));
  }

  lemma WithinStream(rule: Rule, anchor: Wall, cap: nat, w: Wall)
    requires rule.Valid() && Occurs(rule, anchor, w) && WithinCap(rule, anchor, cap, w)
    ensures DateOf(w) in Stream(rule, DateOf(anchor), 1, cap)
  {
    var a, d := DateOf(anchor), DateOf(w);
    var j := PeriodIndex(rule, a, d);
    UnitOrder(rule, cap, j);
    UnitOrder(rule, j, 1);
    StreamExact(rule, a, 1, cap, d);
  }

  lemma EarlierInStream(rule: Rule, anchor: Wall, cap: nat, v: Wall, e: Date)
    requires rule.Valid() && Occurs(rule, anchor, v) && e in Stream(rule, DateOf(anchor), 1, cap)
    requires DateOf(v) <= e
    ensures DateOf(v) in Stream(rule, DateOf(anchor), 1, cap)
  {
    StreamExact(rule, DateOf(anchor), 1, cap, e);
    if Distance(rule, DateOf(anchor), e) < Distance(rule, DateOf(anchor), DateOf(v)) {
      DistanceOrders(rule, DateOf(anchor), e, DateOf(v));
    }
    WithinStream(rule, anchor, cap, v);
  }

  /** t is what the loop emits after `emitted` entries. */
  predicate LoopPart(rule: Rule, anchor: Wall, zone: Zone, window: Wall, cap: nat, emitted: nat, t: seq<Wall>)
    requires rule.Valid()
  {
    t == Take(rule, zone, TimeOf(anchor), window, Stream(rule, DateOf(anchor), 1, cap), emitted)
  }

  lemma LoopAscends(rule: Rule, anchor: Wall, zone: Zone, window: Wall, cap: nat, emitted: nat, t: seq<Wall>)
    requires rule.Valid() && Orderly(rule) && LoopPart(rule, anchor, zone, window, cap, emitted, t)
    ensures Ascending(t)
  {
    hide Rule.Valid, Stream, Take, Orderly, Admits, At;
    var ds := Stream(rule, DateOf(anchor), 1, cap);
    StreamAscends(rule, DateOf(anchor), 1, cap);
    TakeIsPrefix(rule, zone, TimeOf(anchor), window, ds, emitted, t);
    forall i, j | 0 <= i < j < |t| ensures t[i] < t[j] {
      AtOrder(ds[i], ds[j], TimeOf(anchor));
    }
  }

  lemma LoopSound(rule: Rule, anchor: Wall, zone: Zone, window: Wall, cap: nat, emitted: nat, t: seq<Wall>, w: Wall)
    requires rule.Valid() && LoopPart(rule, anchor, zone, window, cap, emitted, t) && w in t
    ensures anchor < w && Occurs(rule, anchor, w) && w <= window && Admits(rule, zone, w)
    ensures WithinCap(rule, anchor, cap, w)
  {
    hide Rule.Valid, Stream, Take, Occurs, WithinCap, Admits, At;
    var ds := Stream(rule, DateOf(anchor), 1, cap);
    TakeIsPrefix(rule, zone, TimeOf(anchor), window, ds, emitted, t);
    var i :| 0 <= i < |t| && t[i] == w;
    InStream(rule, anchor, cap, ds[i]);
  }

  lemma LoopWithoutGaps(
    rule: Rule, anchor: Wall, zone: Zone, window: Wall, cap: nat, emitted: nat, t: seq<Wall>, v: Wall, w: Wall)
    requires rule.Valid() && Orderly(rule) && LoopPart(rule, anchor, zone, window, cap, emitted, t)
    requires Occurs(rule, anchor, v) && w in t && v < w
    ensures v in t
  {
    hide Rule.Valid, Stream, Take, Matches, Orderly, Admits, At;
    var ds, time := Stream(rule, DateOf(anchor), 1, cap), TimeOf(anchor);
    TakeIsPrefix(rule, zone, time, window, ds, emitted, t);
    StreamAscends(rule, DateOf(anchor), 1, cap);
    var j :| 0 <= j < |t| && t[j] == w;
    WallParts(v);
    AtOrder(DateOf(v), ds[j], time);
    EarlierInStream(rule, anchor, cap, v, ds[j]);
    var i :| 0 <= i < |ds| && ds[i] == DateOf(v);
    assert t[i] == v;
  }

  lemma LoopComplete(
    rule: Rule, anchor: Wall, zone: Zone, window: Wall, cap: nat, emitted: nat, t: seq<Wall>, w: Wall)
    requires rule.Valid() && Orderly(rule) && LoopPart(rule, anchor, zone, window, cap, emitted, t)
    requires Occurs(rule, anchor, w) && w <= window && WithinCap(rule, anchor, cap, w)
    requires AdmittedThrough(rule, anchor, zone, w)
    ensures w in t || (0 < |t| && CountReached(rule, emitted + |t|))
  {
    hide Rule.Valid, Stream, Take, Matches, Orderly, Admits, At, WithinCap;
    var ds, time := Stream(rule, DateOf(anchor), 1, cap), TimeOf(anchor);
    TakeIsPrefix(rule, zone, time, window, ds, emitted, t);
    StreamAscends(rule, DateOf(anchor), 1, cap);
    WithinStream(rule, anchor, cap, w);
    WallParts(w);
    var i :| 0 <= i < |ds| && ds[i] == DateOf(w);
    if i < |t| {
      assert t[i] == w;
    } else {
      var d := ds[|t|];
      InStream(rule, anchor, cap, d);
      AtOrder(ds[i], d, time);
      assert At(d, time) <= w;
    }
  }

  lemma LoopCount(rule: Rule, anchor: Wall, zone: Zone, window: Wall, cap: nat, emitted: nat, t: seq<Wall>)
    requires rule.Valid() && LoopPart(rule, anchor, zone, window, cap, emitted, t)
    ensures 1 < |t| ==> !CountReached(rule, emitted + |t| - 1)
  {
    hide Take, Stream;
    TakeIsPrefix(rule, zone, TimeOf(anchor), window, Stream(rule, DateOf(anchor), 1, cap), emitted, t);
  }

  /** For a rule with ascending candidates the expansion is exactly the
    * rule's occurrences, whatever the window and the cap. */
  lemma ExpansionExact(rule: Rule, anchor: Wall, zone: Zone, window: Wall, cap: nat)
    requires rule.Valid() && Orderly(rule)
    ensures IsExpansion(rule, anchor, zone, window, cap, Expansion(rule, anchor, zone, window, cap))
  {
    hide Take, Stream, Rule.Valid, Orderly, Admits, Occurs, WithinCap, AdmittedThrough;
    var started := StartsWithAnchor(rule, anchor, zone, window);
    var emitted := if started then 1 else 0;
    var t := Take(rule, zone, TimeOf(anchor), window, Stream(rule, DateOf(anchor), 1, cap), emitted);
    forall w | w in t
      ensures anchor < w && Occurs(rule, anchor, w) && w <= window && Admits(rule, zone, w)
      ensures WithinCap(rule, anchor, cap, w)
    {
      LoopSound(rule, anchor, zone, window, cap, emitted, t, w);
    }
    forall v: Wall, w | Occurs(rule, anchor, v) && w in t && v < w ensures v in t {
      LoopWithoutGaps(rule, anchor, zone, window, cap, emitted, t, v, w);
    }
    forall w: Wall | Occurs(rule, anchor, w) && w <= window && WithinCap(rule, anchor, cap, w) &&
                     AdmittedThrough(rule, anchor, zone, w)
      ensures w in t || (0 < |t| && CountReached(rule, emitted + |t|))
    {
      LoopComplete(rule, anchor, zone, window, cap, emitted, t, w);
    }
    LoopAscends(rule, anchor, zone, window, cap, emitted, t);
    LoopCount(rule, anchor, zone, window, cap, emitted, t);
    forall v: Wall | Occurs(rule, anchor, v) ensures anchor < v {
      OccursLater(rule, anchor, v);
    }
    if started && !EndsAtAnchor(rule) {
      AscendingConcat([anchor], t);
    }
  }

  // ----- independence of the window -----

  lemma {:induction false} TakeWindows(
    rule: Rule, zone: Zone, time: nat, early: Wall, late: Wall, ds: seq<Date>, emitted: nat)
    requires early <= late
    ensures Take(rule, zone, time, early, ds, emitted) <= Take(rule, zone, time, late, ds, emitted)
    ensures Ascending(ds) ==>
              forall i | |Take(rule, zone, time, early, ds, emitted)| <= i
                         < |Take(rule, zone, time, late, ds, emitted)| ::
                early < Take(rule, zone, time, late, ds, emitted)[i]
    decreases ds
  {
    hide Admits;
    var short, long := Take(rule, zone, time, early, ds, emitted), Take(rule, zone, time, late, ds, emitted);
    if long != [] {
      if early < At(ds[0], time) {
        TakeIsPrefix(rule, zone, time, late, ds, emitted, long);
        forall i | 0 <= i < |long| && Ascending(ds) ensures early < long[i] {
          assert ds[0] <= ds[i];
        }
      } else if !CountReached(rule, emitted + 1) {
        TakeWindows(rule, zone, time, early, late, ds[1..], emitted + 1);
      }
    }
  }

  /** Expanding to an earlier end gives a prefix of expanding to a later one,
    * and for ascending candidates the prefix misses nothing up to its end. */
  lemma WindowIndependence(rule: Rule, anchor: Wall, zone: Zone, early: Wall, late: Wall, cap: nat)
    requires rule.Valid() && early <= late
    ensures Expansion(rule, anchor, zone, early, cap) <= Expansion(rule, anchor, zone, late, cap)
    ensures Orderly(rule) ==>
              forall i | |Expansion(rule, anchor, zone, early, cap)| <= i
                         < |Expansion(rule, anchor, zone, late, cap)| ::
                early < Expansion(rule, anchor, zone, late, cap)[i]
  {
    hide Stream, Orderly, Take, Rule.Valid;
    var ds := Stream(rule, DateOf(anchor), 1, cap);
    if Orderly(rule) {
      StreamAscends(rule, DateOf(anchor), 1, cap);
    }
    TakeWindows(rule, zone, TimeOf(anchor), early, late, ds, 0);
    TakeWindows(rule, zone, TimeOf(anchor), early, late, ds, 1);
    if early < anchor {
      NothingBeforeAnchor(rule, anchor, zone, early, cap);
      if Orderly(rule) {
        ExpansionExact(rule, anchor, zone, late, cap);
        var long := Expansion(rule, anchor, zone, late, cap);
        forall i | 0 <= i < |long| ensures early < long[i] {
          assert long[i] in long;
          if long[i] != anchor {
            OccursLater(rule, anchor, long[i]);
          }
        }
      }
    }
  }

  lemma NothingBeforeAnchor(rule: Rule, anchor: Wall, zone: Zone, window: Wall, cap: nat)
    requires rule.Valid() && window < anchor
    ensures Expansion(rule, anchor, zone, window, cap) == []
  {
    hide Stream, Rule.Valid;
    var ds := Stream(rule, DateOf(anchor), 1, cap);
    if ds != [] {
      InStream(rule, anchor, cap, ds[0]);
    }
  }
}
