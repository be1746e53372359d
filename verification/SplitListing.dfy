/** "This and following" as the handler does it: the kept occurrences are taken from a
  * listing of instants, which leaves out the clocks that fall into a gap. */
module SplitListing {
  import opened Wrappers
  import opened Civil
  import opened Zones
  import opened Recurrence
  import opened RecurrenceDates
  import opened Expand
  import opened ExpandLimits
  import opened Ordered
  import opened SeriesSplit
  import opened Occurrences

  /** The instants of the clocks that resolve. */
  function Resolved(zone: Zone, s: seq<Wall>): (r: seq<int>)
    ensures |r| <= |s|
  {
    if s == [] then []
    else
      var before := Resolved(zone, s[..|s| - 1]);
      match FromLocal(zone, s[|s| - 1])
      case Some(at) => before + [at]
      case None => before
  }

  predicate AllResolve(zone: Zone, s: seq<Wall>) { forall i | 0 <= i < |s| :: FromLocal(zone, s[i]).Some? }

  /** Ascending clocks of one time of day. */
  predicate SameTimes(s: seq<Wall>) {
    Ascending(s) && forall i | 0 <= i < |s| :: TimeOf(s[i]) == TimeOf(s[0])
  }

  /** Some clock of s resolves to at. */
  predicate ResolvesTo(zone: Zone, s: seq<Wall>, at: int) {
    exists i :: 0 <= i < |s| && FromLocal(zone, s[i]) == Some(at)
  }

  lemma OneMoreResolves(zone: Zone, s: seq<Wall>, w: Wall, at: int)
    ensures ResolvesTo(zone, s + [w], at) <==> ResolvesTo(zone, s, at) || FromLocal(zone, w) == Some(at)
  {
    hide FromLocal;
    var t := s + [w];
    assert t[|s|] == w;
    if i :| 0 <= i < |s| && FromLocal(zone, s[i]) == Some(at) {
      assert t[i] == s[i];
    }
  }

  lemma ResolvedBefore(zone: Zone, s: seq<Wall>, at: int)
    requires NarrowSpread(zone) && SameTimes(s) && s != [] && FromLocal(zone, s[|s| - 1]).Some?
    requires ResolvesTo(zone, s[..|s| - 1], at)
    ensures at < FromLocal(zone, s[|s| - 1]).value
  {
    hide FromLocal, NarrowSpread;
    var n := |s| - 1;
    var i :| 0 <= i < n && FromLocal(zone, s[..n][i]) == Some(at);
    ADayApart(s[i], s[n]);
    ResolveKeepsDayOrder(zone, s[i], s[n]);
  }

  lemma {:induction false} ResolvedExactly(zone: Zone, s: seq<Wall>)
    requires NarrowSpread(zone) && SameTimes(s)
    ensures var r := Resolved(zone, s);
            && Ascending(r)
            && (forall at :: at in r <==> ResolvesTo(zone, s, at))
            && (|r| == |s| <==> AllResolve(zone, s))
            && (s != [] && FromLocal(zone, s[|s| - 1]).Some? ==>
                  r != [] && r[|r| - 1] == FromLocal(zone, s[|s| - 1]).value)
    decreases |s|
  {
    hide FromLocal, NarrowSpread, ResolvesTo;
    if s == [] {
      forall at ensures !ResolvesTo(zone, s, at) {
        NothingResolves(zone, at);
      }
    } else {
      ResolvedExactly(zone, s[..|s| - 1]);
      ResolvedStep(zone, s, Resolved(zone, s[..|s| - 1]), Resolved(zone, s));
    }
  }

  lemma ResolvedStep(zone: Zone, s: seq<Wall>, before: seq<int>, r: seq<int>)
    requires NarrowSpread(zone) && SameTimes(s) && s != []
    requires r == match FromLocal(zone, s[|s| - 1]) case Some(at) => before + [at] case None => before
    requires Ascending(before) && |before| <= |s| - 1
    requires forall at :: at in before <==> ResolvesTo(zone, s[..|s| - 1], at)
    requires |before| == |s| - 1 <==> AllResolve(zone, s[..|s| - 1])
    ensures Ascending(r) && forall at :: at in r <==> ResolvesTo(zone, s, at)
    ensures |r| == |s| <==> AllResolve(zone, s)
    ensures FromLocal(zone, s[|s| - 1]).Some? ==> r != [] && r[|r| - 1] == FromLocal(zone, s[|s| - 1]).value
  {
    hide FromLocal, NarrowSpread, ResolvesTo, SameTimes, AllResolve;
    var n := |s| - 1;
    assert s == s[..n] + [s[n]];
    AllResolveStep(zone, s);
    forall at
      ensures ResolvesTo(zone, s, at) <==> ResolvesTo(zone, s[..n], at) || FromLocal(zone, s[n]) == Some(at)
      ensures ResolvesTo(zone, s[..n], at) && FromLocal(zone, s[n]).Some? ==> at < FromLocal(zone, s[n]).value
    {
      OneMoreResolves(zone, s[..n], s[n], at);
      if ResolvesTo(zone, s[..n], at) && FromLocal(zone, s[n]).Some? {
        ResolvedBefore(zone, s, at);
      }
    }
    forall i | 0 <= i < |before| && FromLocal(zone, s[n]).Some? ensures before[i] < FromLocal(zone, s[n]).value {
      assert before[i] in before;
    }
  }

  lemma AllResolveStep(zone: Zone, s: seq<Wall>)
    requires s != []
    ensures AllResolve(zone, s) <==> AllResolve(zone, s[..|s| - 1]) && FromLocal(zone, s[|s| - 1]).Some?
  {
    hide FromLocal;
    forall i | 0 <= i < |s| - 1 ensures s[..|s| - 1][i] == s[i] {
    }
  }

  lemma NothingResolves(zone: Zone, at: int)
    ensures !ResolvesTo(zone, [], at)
  {
  }

  // ----- the listing up to the split -----

  /** The series without RDATE and EXDATE, as the handler lists it. */
  function Plain(rule: Rule, anchor: Wall, zone: Zone): Event { Event(anchor, zone, Some(rule), [], [], []) }

  /** s[k] is where the series is split, at its own instant; the series starts at from, which
    * may be the second instant of an ambiguous clock. */
  ghost predicate SplitAt(
    rule: Rule, anchor: Wall, zone: Zone, window: Wall, s: seq<Wall>, k: nat, from: int, to: int)
  {
    && rule.Valid() && Orderly(rule) && PositiveCount(rule) && NarrowSpread(zone)
    && s == Expansion(rule, anchor, zone, window, STEP_CAP) && 1 <= k < |s|
    && ToLocal(zone, from) == anchor && FromLocal(zone, s[k]) == Some(to) && ToLocal(zone, to) == s[k]
  }

  /** How many clocks the listing leaves out at its start: the anchor, if it resolves to an
    * instant before the one the series starts at. */
  function Skipped(zone: Zone, anchor: Wall, from: int): (lo: nat)
    ensures lo <= 1
  {
    if FromLocal(zone, anchor).Some? && FromLocal(zone, anchor).value < from then 1 else 0
  }

  /** In a tz-database zone it is left out exactly if the series starts in a later fold of its
    * clock: an earlier instant reads the same. */
  lemma SkippedExactly(table: seq<Transition>, from: int)
    requires 0 <= ToLocal(Tz(table), from)
    ensures Skipped(Tz(table), ToLocal(Tz(table), from), from) == 1 <==>
            exists at :: at < from && ToLocal(Tz(table), at) == ToLocal(Tz(table), from)
  {
    hide FromLocal, ToLocal;
    var wall := ToLocal(Tz(table), from);
    TzResolvesEarliest(table, wall, from);
    forall at | ToLocal(Tz(table), at) == wall ensures FromLocal(Tz(table), wall).value <= at {
      TzResolvesEarliest(table, wall, at);
    }
  }

  /** A clock that some instant reads as resolves. */
  lemma ReadClockResolves(zone: Zone, at: int)
    ensures FromLocal(zone, ToLocal(zone, at)).Some?
  {
    if zone.Tz? {
      TzResolvesEarliest(zone.table, ToLocal(zone, at), at);
    }
  }

  /** A clock at least a day later resolves after the instant itself. */
  lemma ResolvesAfterStart(zone: Zone, from: int, w: int)
    requires NarrowSpread(zone) && ToLocal(zone, from) + DAY <= w && FromLocal(zone, w).Some?
    ensures from < FromLocal(zone, w).value
  {
    hide FromLocal;
    OffsetInTable(zone.table, Seconds(from));
    var a := ResolvedIsShifted(zone, w);
    assert a - OffsetAt(zone.table, Seconds(from)) < 86_400;
  }

  /** Expanding to the split gives the occurrences up to and including it. */
  lemma WallsToSplit(rule: Rule, anchor: Wall, zone: Zone, window: Wall, s: seq<Wall>, k: nat, from: int, to: int)
    requires SplitAt(rule, anchor, zone, window, s, k, from, to)
    ensures Plain(rule, anchor, zone).RuleWalls(to) == s[..k + 1] && SameTimes(s) && s[0] == anchor
  {
    hide Expansion, Orderly, Rule.Valid, FromLocal, ToLocal, NarrowSpread, Expand.Occurs, Admits, WithinCap,
      AdmittedThrough,
      StartsWithAnchor;
    ExpansionExact(rule, anchor, zone, window, STEP_CAP);
    StartsAtAnchor(rule, anchor, zone, window, STEP_CAP, s);
    forall i | 0 <= i < |s| ensures TimeOf(s[i]) == TimeOf(s[0]) {
      TimesAgree(rule, anchor, zone, window, STEP_CAP, s, i);
    }
    var b := s[k];
    TimesAgree(rule, anchor, zone, window, STEP_CAP, s, k);
    WindowIndependence(rule, anchor, zone, b, window, STEP_CAP);
    ExpansionExact(rule, anchor, zone, b, STEP_CAP);
    var t := Expansion(rule, anchor, zone, b, STEP_CAP);
    forall i | 0 <= i < |t| ensures t[i] <= b {
      assert t[i] in t;
    }
    PrefixUpTo(s, t, k, b);
  }

  lemma PrefixUpTo(s: seq<Wall>, t: seq<Wall>, k: nat, b: Wall)
    requires Ascending(s) && t <= s && k < |s| && b == s[k]
    requires forall i | |t| <= i < |s| :: b < s[i]
    requires forall i | 0 <= i < |t| :: t[i] <= b
    ensures t == s[..k + 1]
  {
    assert !(b < s[k]);
    var j := if k + 1 < |t| then k + 1 else k;
    assert t[j] == s[j] && t[j] <= b;
    assert j == k;
  }

  /** What the handler lists before the split: the instants of the kept clocks that resolve,
    * but for an anchor that resolves before the series starts. */
  lemma BeforeIsResolved(rule: Rule, anchor: Wall, zone: Zone, window: Wall, s: seq<Wall>, k: nat, from: int, to: int,
      before: seq<int>)
    requires SplitAt(rule, anchor, zone, window, s, k, from, to)
    requires IsListing(Plain(rule, anchor, zone), from, to, before)
    ensures var lo := Skipped(zone, anchor, from);
            before == Resolved(zone, s[lo..k]) && (|before| == k - lo <==> AllResolve(zone, s[..k]))
    ensures before == [] <==> Skipped(zone, anchor, from) == 1 && forall i | 1 <= i < k :: FromLocal(zone, s[i]) == None
  {
    hide Expansion, Orderly, Rule.Valid, FromLocal, ToLocal, NarrowSpread, Event.Occurs, ResolvesTo;
    WallsToSplit(rule, anchor, zone, window, s, k, from, to);
    ReadClockResolves(zone, from);
    var lo := Skipped(zone, anchor, from);
    LaterTimes(s, lo, k);
    ResolvedExactly(zone, s[lo..k]);
    var e := Plain(rule, anchor, zone);
    forall at ensures at in before <==> at in Resolved(zone, s[lo..k]) {
      ListedExactly(e, s, k, lo, from, to, at);
    }
    AscendingUnique(before, Resolved(zone, s[lo..k]));
    AllButAnchor(zone, s, k, lo);
    NothingListed(zone, s[lo..k]);
    if before == [] {
      forall i | lo <= i < k ensures FromLocal(zone, s[i]) == None {
        assert s[lo..k][i - lo] == s[i];
      }
    }
  }

  lemma LaterTimes(s: seq<Wall>, lo: nat, k: nat)
    requires SameTimes(s) && lo <= k <= |s|
    ensures SameTimes(s[lo..k])
  {
  }

  lemma AllButAnchor(zone: Zone, s: seq<Wall>, k: nat, lo: nat)
    requires lo <= 1 && 1 <= k <= |s| && FromLocal(zone, s[0]).Some?
    ensures AllResolve(zone, s[lo..k]) <==> AllResolve(zone, s[..k])
  {
    hide FromLocal;
    forall i | lo <= i < k ensures s[lo..k][i - lo] == s[..k][i] {
    }
    if AllResolve(zone, s[lo..k]) {
      forall i | 0 <= i < k ensures FromLocal(zone, s[..k][i]).Some? {
        assert i < lo || FromLocal(zone, s[lo..k][i - lo]).Some?;
      }
    }
  }

  lemma {:induction false} NothingListed(zone: Zone, s: seq<Wall>)
    ensures Resolved(zone, s) == [] <==> forall i | 0 <= i < |s| :: FromLocal(zone, s[i]) == None
    decreases |s|
  {
    hide FromLocal;
    if s != [] {
      var n := |s| - 1;
      NothingListed(zone, s[..n]);
      assert forall i | 0 <= i < n :: s[..n][i] == s[i];
    }
  }

  lemma ListedExactly(e: Event, s: seq<Wall>, k: nat, lo: nat, from: int, to: int, at: int)
    requires e.Valid() && e.rdate == [] && e.exdate == [] && e.exdays == [] && NarrowSpread(e.zone)
    requires k < |s| && SameTimes(s) && e.RuleWalls(to) == s[..k + 1]
    requires ToLocal(e.zone, from) == s[0] && FromLocal(e.zone, s[k]) == Some(to)
    requires lo == Skipped(e.zone, s[0], from) <= k
    ensures from <= at < to && e.Occurs(to, at) <==> ResolvesTo(e.zone, s[lo..k], at)
  {
    hide Event.RuleWalls, FromLocal, ToLocal, NarrowSpread;
    if from <= at < to && e.Occurs(to, at) {
      var c: Wall :| e.Yields(to, c, at);
      var i :| 0 <= i < |s[..k + 1]| && s[..k + 1][i] == c;
      assert lo <= i < k && s[lo..k][i - lo] == c;
    }
    if i :| 0 <= i < |s[lo..k]| && FromLocal(e.zone, s[lo..k][i]) == Some(at) {
      var n := lo + i;
      assert s[..k + 1][n] == s[n] && s[lo..k][i] == s[n];
      assert e.Yields(to, s[n], at);
      ADayApart(s[n], s[k]);
      ResolveKeepsDayOrder(e.zone, s[n], s[k]);
      if 0 < n {
        ADayApart(s[0], s[n]);
        ResolvesAfterStart(e.zone, from, s[n]);
      }
    }
  }

  // ----- the two halves the handler makes of it -----

  /** truncate_rrule from the listing: COUNT becomes its length, or UNTIL its last instant. */
  function TruncatedBy(rule: Rule, before: seq<int>): Rule
    requires before != []
  {
    Truncated(rule, |before|, Timed(before[|before| - 1]), false)
  }

  lemma TruncatedByStays(rule: Rule, before: seq<int>)
    requires before != []
    ensures rule.Valid() ==> TruncatedBy(rule, before).Valid()
    ensures Orderly(rule) ==> Orderly(TruncatedBy(rule, before))
    ensures rule.count.Some? ==> TruncatedBy(rule, before).count == Some(|before|)
    ensures rule.count == None ==> TruncatedBy(rule, before).untilInstant.Some?
  {
  }

  /** A COUNT below the number kept loses some of them. */
  lemma ShortCountLosesKept(rule: Rule, anchor: Wall, zone: Zone, window: Wall, s: seq<Wall>, k: nat, before: seq<int>)
    requires rule.Valid() && Orderly(rule) && rule.count.Some? && 1 <= |before| < k <= |s|
    ensures TruncatedBy(rule, before).Valid()
    ensures Expansion(TruncatedBy(rule, before), anchor, zone, window, STEP_CAP) != s[..k]
  {
    hide Expansion, Orderly, Rule.Valid, Expand.Occurs, Admits, WithinCap, AdmittedThrough, TruncatedBy,
      StartsWithAnchor;
    TruncatedByStays(rule, before);
    ExpansionExact(TruncatedBy(rule, before), anchor, zone, window, STEP_CAP);
  }

  /** A kept clock in a gap is lost to an UNTIL. */
  lemma GapLosesKept(rule: Rule, anchor: Wall, zone: Zone, window: Wall, s: seq<Wall>, k: nat, from: int, to: int,
      before: seq<int>)
    requires SplitAt(rule, anchor, zone, window, s, k, from, to) && 1 <= |before| && rule.count == None
    requires !AllResolve(zone, s[..k])
    ensures TruncatedBy(rule, before).Valid()
    ensures Expansion(TruncatedBy(rule, before), anchor, zone, window, STEP_CAP) != s[..k]
  {
    hide Expansion, Orderly, Rule.Valid, FromLocal, ToLocal, NarrowSpread, Expand.Occurs, Admits, WithinCap,
      AdmittedThrough, TruncatedBy, StartsWithAnchor;
    var r := TruncatedBy(rule, before);
    TruncatedByStays(rule, before);
    var i :| 0 <= i < k && FromLocal(zone, s[..k][i]) == None;
    WallsToSplit(rule, anchor, zone, window, s, k, from, to);
    ReadClockResolves(zone, from);
    ExpansionExact(rule, anchor, zone, window, STEP_CAP);
    TimesAgree(rule, anchor, zone, window, STEP_CAP, s, i);
    SameDates(rule, before, anchor, s[i]);
    GapEndsSeries(r, anchor, zone, window, STEP_CAP, s[i], s[k - 1]);
    assert s[..k][k - 1] == s[k - 1];
  }

  lemma SameDates(rule: Rule, before: seq<int>, anchor: Wall, w: Wall)
    requires rule.Valid() && before != []
    ensures TruncatedBy(rule, before).Valid()
    ensures Expand.Occurs(TruncatedBy(rule, before), anchor, w) <==> Expand.Occurs(rule, anchor, w)
  {
    hide Rule.Valid, Matches;
    TruncatedByStays(rule, before);
    SameOccurrences(rule, TruncatedBy(rule, before), anchor, STEP_CAP, w);
  }

  /** The split as the handler makes it keeps exactly the occurrences before the split exactly
    * if all of them resolve, UNTIL, where it is written, is not cut short, and COUNT, where
    * there is one, counts the anchor too; with nothing listed the master stops recurring,
    * which is right exactly if only the anchor was kept. It lowers the COUNT of the
    * continuation by their number exactly if the listing holds them all. */
  lemma SplitFromListing(rule: Rule, anchor: Wall, zone: Zone, window: Wall, s: seq<Wall>, k: nat, from: int, to: int,
      before: seq<int>)
    requires SplitAt(rule, anchor, zone, window, s, k, from, to)
    requires IsListing(Plain(rule, anchor, zone), from, to, before)
    ensures before != [] ==>
              && TruncatedBy(rule, before).Valid()
              && (Expansion(TruncatedBy(rule, before), anchor, zone, window, STEP_CAP) == s[..k] <==>
                  && AllResolve(zone, s[..k]) && UntilExact(rule, anchor, zone, false)
                  && (rule.count == None || Skipped(zone, anchor, from) == 0))
    ensures before == [] ==> (Event(anchor, zone, None, [], [], []).RuleWalls(to) == s[..k] <==> k == 1)
    ensures Continued(rule, |before|) == Continued(rule, k) <==>
            rule.count == None || (AllResolve(zone, s[..k]) && Skipped(zone, anchor, from) == 0)
  {
    hide Expansion, Orderly, FromLocal, ToLocal, NarrowSpread, Truncated, UntilExact, Event.Occurs, Skipped;
    BeforeIsResolved(rule, anchor, zone, window, s, k, from, to, before);
    CountCovers(rule, anchor, zone, window, s);
    StartsWith(rule, anchor, zone, window, s, k, from, to);
    if before != [] {
      TruncatedByStays(rule, before);
      if rule.count.Some? && |before| < k {
        ShortCountLosesKept(rule, anchor, zone, window, s, k, before);
      } else if AllResolve(zone, s[..k]) {
        AllKeptTruncates(rule, anchor, zone, window, s, k, from, to, before);
      } else {
        GapLosesKept(rule, anchor, zone, window, s, k, from, to, before);
      }
    }
  }

  lemma StartsWith(rule: Rule, anchor: Wall, zone: Zone, window: Wall, s: seq<Wall>, k: nat, from: int, to: int)
    requires SplitAt(rule, anchor, zone, window, s, k, from, to)
    ensures s[0] == anchor && ([anchor] == s[..k] <==> k == 1)
  {
    hide Expansion, Orderly, FromLocal, ToLocal, NarrowSpread, Rule.Valid;
    WallsToSplit(rule, anchor, zone, window, s, k, from, to);
  }

  lemma AllKeptTruncates(rule: Rule, anchor: Wall, zone: Zone, window: Wall, s: seq<Wall>, k: nat, from: int, to: int,
      before: seq<int>)
    requires SplitAt(rule, anchor, zone, window, s, k, from, to) && before != []
    requires before == Resolved(zone, s[Skipped(zone, anchor, from)..k]) && AllResolve(zone, s[..k])
    requires rule.count == None || |before| == k
    ensures TruncatedBy(rule, before).Valid()
    ensures Expansion(TruncatedBy(rule, before), anchor, zone, window, STEP_CAP) == s[..k] <==>
            UntilExact(rule, anchor, zone, false)
  {
    hide Expansion, Orderly, FromLocal, ToLocal, NarrowSpread, UntilExact, ResolvesTo, Skipped, Rule.Valid;
    forall i | 0 <= i < k ensures FromLocal(zone, s[i]).Some? {
      assert s[..k][i] == s[i];
    }
    WallsToSplit(rule, anchor, zone, window, s, k, from, to);
    var lo := Skipped(zone, anchor, from);
    LaterTimes(s, lo, k);
    ResolvedExactly(zone, s[lo..k]);
    assert s[lo..k] != [] && s[lo..k][|s[lo..k]| - 1] == s[k - 1];
    assert TruncatedBy(rule, before) == TruncatedAt(rule, zone, s, k, false);
    TruncationExact(rule, anchor, zone, window, STEP_CAP, s, k, false);
  }

  lemma CountCovers(rule: Rule, anchor: Wall, zone: Zone, window: Wall, s: seq<Wall>)
    requires rule.Valid() && Orderly(rule) && PositiveCount(rule)
    requires s == Expansion(rule, anchor, zone, window, STEP_CAP)
    ensures rule.count.Some? ==> |s| <= rule.count.value
  {
    hide Expansion, Orderly, Rule.Valid, Expand.Occurs, Admits, WithinCap, AdmittedThrough, StartsWithAnchor;
    ExpansionExact(rule, anchor, zone, window, STEP_CAP);
  }
}
