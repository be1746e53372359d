/** expand_occurrences for timed events: RRULE and RDATE candidates, minus
  * EXDATE, resolved to instants and cut to a half-open window. */
module Occurrences {
  import opened Wrappers
  import opened Civil
  import opened Zones
  import opened Recurrence
  import opened RecurrenceDates
  import opened Expand
  import opened ExpandLoop
  import opened Ordered

  /** The wall clock read at an instant; instants before year 1 are not modelled. */
  function Reading(zone: Zone, at: int): Wall {
    if ToLocal(zone, at) < 0 then 0 else ToLocal(zone, at)
  }

  datatype Event = Event(
    anchor: Wall, zone: Zone, rule: Option<Rule>, rdate: seq<int>, exdate: seq<int>, exdays: seq<Date>)
  {
    predicate Valid() { rule.Some? ==> rule.value.Valid() }

    /** EXDATE as the code applies it: a wall clock, or a whole local day. */
    predicate Excluded(c: Wall) {
      || (exists i | 0 <= i < |exdate| :: Reading(zone, exdate[i]) == c)
      || DateOf(c) in exdays
    }

    /** What the rule, or the lone start, contributes when expanding to `to`. */
    function RuleWalls(to: int): seq<Wall>
      requires Valid()
    {
      match rule
      case Some(r) => Expansion(r, anchor, zone, Reading(zone, to), STEP_CAP)
      case None => [anchor]
    }

    predicate IsRdate(c: Wall) { exists i | 0 <= i < |rdate| :: Reading(zone, rdate[i]) == c }

    /** c is a candidate that survives EXDATE and resolves to at. */
    predicate Yields(to: int, c: Wall, at: int)
      requires Valid()
    {
      (c in RuleWalls(to) || IsRdate(c)) && !Excluded(c) && FromLocal(zone, c) == Some(at)
    }

    ghost predicate Occurs(to: int, at: int)
      requires Valid()
    {
      exists c: Wall :: Yields(to, c, at)
    }
  }

  /** out lists the event's occurrences in [from, to), ascending. */
  ghost predicate IsListing(e: Event, from: int, to: int, out: seq<int>)
    requires e.Valid()
  {
    && Ascending(out)
    && forall at :: at in out <==> from <= at < to && e.Occurs(to, at)
  }

  /** Insertion into an ascending list, dropping a duplicate: sort and dedup, one entry at a time. */
  function Insert(s: seq<int>, x: int): (r: seq<int>)
    requires Ascending(s)
    ensures Ascending(r) && forall y :: y in r <==> y == x || y in s
  {
    if s == [] then [x]
    else if x < s[0] then
      AscendingConcat([x], s);
      [x] + s
    else if x == s[0] then s
    else
      assert s == [s[0]] + s[1..];
      assert forall y | y in s[1..] :: s[0] < y;
      AscendingConcat([s[0]], Insert(s[1..], x));
      [s[0]] + Insert(s[1..], x)
  }

  method ExpandOccurrences(e: Event, from: int, to: int) returns (out: seq<int>)
    requires e.Valid()
    ensures IsListing(e, from, to, out)
  {
    hide Expansion, FromLocal, ToLocal, Event.Excluded;
    var candidates: seq<Wall>;
    match e.rule {
      case Some(r) => candidates := ExpandRRule(r, e.anchor, e.zone, Reading(e.zone, to));
      case None => candidates := [e.anchor];
    }
    for i := 0 to |e.rdate|
      invariant forall c: Wall :: c in candidates <==>
                  c in e.RuleWalls(to) || exists j | 0 <= j < i :: Reading(e.zone, e.rdate[j]) == c
    {
      candidates := candidates + [Reading(e.zone, e.rdate[i])];
    }
    out := [];
    for i := 0 to |candidates|
      invariant Ascending(out)
      invariant forall at :: at in out <==>
                  from <= at < to && exists j | 0 <= j < i ::
                    !e.Excluded(candidates[j]) && FromLocal(e.zone, candidates[j]) == Some(at)
    {
      if !e.Excluded(candidates[i]) {
        var at := FromLocal(e.zone, candidates[i]);
        if at.Some? && from <= at.value < to {
          out := Insert(out, at.value);
        }
      }
    }
    ListingFromCandidates(e, from, to, candidates, out);
  }

  lemma ListingFromCandidates(e: Event, from: int, to: int, candidates: seq<Wall>, out: seq<int>)
    requires e.Valid() && Ascending(out)
    requires forall c: Wall :: c in candidates <==> c in e.RuleWalls(to) || e.IsRdate(c)
    requires forall at :: at in out <==>
               from <= at < to && exists j | 0 <= j < |candidates| ::
                 !e.Excluded(candidates[j]) && FromLocal(e.zone, candidates[j]) == Some(at)
    ensures IsListing(e, from, to, out)
  {
    hide FromLocal, Event.Excluded, Event.RuleWalls, Event.IsRdate;
    forall at ensures at in out <==> from <= at < to && e.Occurs(to, at) {
      if at in out {
        var j :| 0 <= j < |candidates| && !e.Excluded(candidates[j]) && FromLocal(e.zone, candidates[j]) == Some(at);
        assert candidates[j] in candidates;
        assert e.Yields(to, candidates[j], at);
      }
      if from <= at < to && e.Occurs(to, at) {
        var c: Wall :| e.Yields(to, c, at);
        assert c in candidates;
        var j :| 0 <= j < |candidates| && candidates[j] == c;
      }
    }
  }

  // ----- adjoining windows -----

  /** No wall clock that resolves before b lies between the readings of b and c. */
  ghost predicate SameReach(zone: Zone, b: int, c: int) {
    forall w: Wall | FromLocal(zone, w).Some? && FromLocal(zone, w).value < b ::
      w <= Reading(zone, b) <==> w <= Reading(zone, c)
  }

  /** What lies before b is found alike when listing up to b and when listing up to c,
    * for every event of the zone with ascending candidates. */
  ghost predicate Lossless(zone: Zone, b: int, c: int) {
    forall e: Event, at: int | e.Valid() && OrderlyEvent(e) && e.zone == zone && at < b ::
      e.Occurs(b, at) <==> e.Occurs(c, at)
  }

  predicate OrderlyEvent(e: Event) { e.rule.Some? ==> Orderly(e.rule.value) }

  /** A rule occurrence up to both windows is found from either. */
  lemma FoundFromBoth(rule: Rule, anchor: Wall, zone: Zone, v: Wall, w: Wall, cap: nat, c: Wall)
    requires rule.Valid() && Orderly(rule)
    requires c in Expansion(rule, anchor, zone, v, cap) && c <= w
    ensures c in Expansion(rule, anchor, zone, w, cap)
  {
    hide Expansion, Orderly, Rule.Valid;
    var s, t := Expansion(rule, anchor, zone, v, cap), Expansion(rule, anchor, zone, w, cap);
    var i :| 0 <= i < |s| && s[i] == c;
    if v <= w {
      WindowIndependence(rule, anchor, zone, v, w, cap);
      assert t[i] == c;
    } else {
      WindowIndependence(rule, anchor, zone, w, v, cap);
      assert t[i] == c;
    }
  }

  /** Nothing beyond the window is found. */
  lemma WithinWindow(rule: Rule, anchor: Wall, zone: Zone, v: Wall, cap: nat, c: Wall)
    requires rule.Valid() && Orderly(rule) && c in Expansion(rule, anchor, zone, v, cap)
    ensures c <= v
  {
    hide Expansion, Orderly, Rule.Valid, Expand.Occurs, Admits, WithinCap, AdmittedThrough;
    ExpansionExact(rule, anchor, zone, v, cap);
  }

  lemma YieldsFromBoth(e: Event, b: int, c: int, w: Wall, at: int)
    requires e.Valid() && OrderlyEvent(e) && e.Yields(b, w, at)
    requires w <= Reading(e.zone, b) ==> w <= Reading(e.zone, c)
    ensures e.Yields(c, w, at)
  {
    hide Expansion, Orderly, Rule.Valid, Event.Excluded, FromLocal;
    if e.rule.Some? && w in e.RuleWalls(b) {
      WithinWindow(e.rule.value, e.anchor, e.zone, Reading(e.zone, b), STEP_CAP, w);
      FoundFromBoth(e.rule.value, e.anchor, e.zone, Reading(e.zone, b), Reading(e.zone, c), STEP_CAP, w);
    }
  }

  lemma OccursInBoth(e: Event, b: int, c: int, at: int)
    requires e.Valid() && OrderlyEvent(e) && at < b && SameReach(e.zone, b, c)
    ensures e.Occurs(b, at) <==> e.Occurs(c, at)
  {
    hide OrderlyEvent, Reading, Event.RuleWalls, Event.Excluded, Event.IsRdate;
    if e.Occurs(b, at) {
      var w: Wall :| e.Yields(b, w, at);
      YieldsFromBoth(e, b, c, w, at);
    }
    if e.Occurs(c, at) {
      var w: Wall :| e.Yields(c, w, at);
      YieldsFromBoth(e, c, b, w, at);
    }
  }

  /** A daily event at a wall clock beyond the window, and nothing else. */
  function DailyAt(zone: Zone, w: Wall): Event {
    Event(w, zone, Some(Rule(Daily, 1, None, None, None, [], [], [])), [], [], [])
  }

  lemma DailyFoundExactly(zone: Zone, w: Wall, to: int, at: int)
    requires FromLocal(zone, w) == Some(at)
    ensures DailyAt(zone, w).Valid() && OrderlyEvent(DailyAt(zone, w))
    ensures w <= Reading(zone, to) ==> DailyAt(zone, w).Occurs(to, at)
    ensures Reading(zone, to) < w ==> !DailyAt(zone, w).Occurs(to, at)
  {
    hide Stream, Take, FromLocal, Reading;
    var e := DailyAt(zone, w);
    if w <= Reading(zone, to) {
      assert StartsWithAnchor(e.rule.value, w, zone, Reading(zone, to));
      assert w in e.RuleWalls(to);
      assert e.Yields(to, w, at);
    } else {
      NothingBeforeAnchor(e.rule.value, w, zone, Reading(zone, to), STEP_CAP);
    }
  }

  /** Cutting a listing at b loses and repeats nothing, whatever the event, exactly if no
    * clock that resolves before b is read between b and c. */
  lemma LosslessExactly(zone: Zone, b: int, c: int)
    ensures Lossless(zone, b, c) <==> SameReach(zone, b, c)
  {
    hide Event.Occurs, FromLocal, Reading, Event.Valid, OrderlyEvent;
    if SameReach(zone, b, c) {
      forall e: Event, at: int | e.Valid() && OrderlyEvent(e) && e.zone == zone && at < b
        ensures e.Occurs(b, at) <==> e.Occurs(c, at)
      {
        OccursInBoth(e, b, c, at);
      }
    } else {
      var w: Wall :| FromLocal(zone, w).Some? && FromLocal(zone, w).value < b
                  && !(w <= Reading(zone, b) <==> w <= Reading(zone, c));
      var at := FromLocal(zone, w).value;
      DailyFoundExactly(zone, w, b, at);
      DailyFoundExactly(zone, w, c, at);
      assert DailyAt(zone, w).zone == zone;
      assert !(DailyAt(zone, w).Occurs(b, at) <==> DailyAt(zone, w).Occurs(c, at));
    }
  }

  /** Listing [a, c) is listing [a, b) and then [b, c). */
  lemma AdjoiningWindows(e: Event, a: int, b: int, c: int, ac: seq<int>, ab: seq<int>, bc: seq<int>)
    requires e.Valid() && OrderlyEvent(e) && a <= b <= c && SameReach(e.zone, b, c)
    requires IsListing(e, a, c, ac) && IsListing(e, a, b, ab) && IsListing(e, b, c, bc)
    ensures ac == ab + bc
  {
    hide Event.Occurs, OrderlyEvent, SameReach;
    var both := ab + bc;
    AscendingConcat(ab, bc);
    forall at ensures at in ac <==> at in both {
      assert at in both <==> at in ab || at in bc;
      if a <= at < b {
        OccursInBoth(e, b, c, at);
      }
    }
    AscendingUnique(ac, both);
  }

  /** A zone with one offset can be cut anywhere. */
  lemma FixedOffsetIsLossless(start: int, offset: int, b: int, c: int)
    requires b <= c
    ensures SameReach(Tz([(start, offset)]), b, c)
  {
    var zone := Tz([(start, offset)]);
    forall w: Wall | FromLocal(zone, w).Some? && FromLocal(zone, w).value < b
      ensures w <= Reading(zone, b) && w <= Reading(zone, c)
    {
      var o := ResolvedIsShifted(zone, w);
      OffsetInTable(zone.table, Seconds(b));
      OffsetInTable(zone.table, Seconds(c));
    }
  }

  /** Where clocks fall back it fails: with the offset dropping from +1h to 0 at second
    * 7200, the clock 9000 resolves to 5400, before 8000, but 8000 reads as itself, so a
    * listing up to 8000 does not look as far as 9000. */
  lemma FallBackIsLossy()
    ensures !Lossless(Tz([(0, 3_600), (7_200, 0)]), 8_000 * SECOND, 20_000 * SECOND)
  {
    var zone := Tz([(0, 3_600), (7_200, 0)]);
    var w: Wall := 9_000 * SECOND;
    assert ToLocal(zone, 5_400 * SECOND) == w;
    TzResolvesEarliest(zone.table, w, 5_400 * SECOND);
    assert FromLocal(zone, w).value < 8_000 * SECOND;
    assert Reading(zone, 8_000 * SECOND) == 8_000 * SECOND && Reading(zone, 20_000 * SECOND) == 20_000 * SECOND;
    LosslessExactly(zone, 8_000 * SECOND, 20_000 * SECOND);
  }

  // ----- what RDATE and EXDATE do to a listing -----

  /** Without RDATE and EXDATE: the instants of the start's clock, or of the clocks the rule gives
    * up to the reading of the end. */
  lemma RuleAlone(e: Event, from: int, to: int, out: seq<int>, at: int)
    requires e.Valid() && e.rdate == [] && e.exdate == [] && e.exdays == [] && IsListing(e, from, to, out)
    ensures var end := if ToLocal(e.zone, to) < 0 then 0 else ToLocal(e.zone, to);
            at in out <==>
            && from <= at < to
            && match e.rule
               case None => FromLocal(e.zone, e.anchor) == Some(at)
               case Some(r) => exists c: Wall ::
                                 c in Expansion(r, e.anchor, e.zone, end, 200_000) && FromLocal(e.zone, c) == Some(at)
  {
    hide FromLocal, ToLocal, Expansion;
    if e.rule == None && from <= at < to && FromLocal(e.zone, e.anchor) == Some(at) {
      assert e.Yields(to, e.anchor, at);
    }
    if e.rule.Some? {
      forall c: Wall
        ensures e.Yields(to, c, at) <==> c in e.RuleWalls(to) && FromLocal(e.zone, c) == Some(at)
      {
      }
    }
  }

  /** In a tz-database zone the instant of a clock reads as it. */
  lemma TzReadsBack(table: seq<Transition>, c: Wall, at: int)
    requires FromLocal(Tz(table), c) == Some(at)
    ensures ToLocal(Tz(table), at) == c
  {
    if table != [] {
      EarliestIsLeast(table, c, |table|);
    }
  }

  lemma YieldsApart(e: Event, f: Event, to: int, at: int, gone: Wall -> bool)
    requires e.Valid() && f == e.(exdate := f.exdate, exdays := f.exdays) && e.zone.Tz?
    requires forall c: Wall :: f.Excluded(c) <==> e.Excluded(c) || gone(c)
    ensures f.Occurs(to, at) <==> 0 <= ToLocal(e.zone, at) && e.Occurs(to, at) && !gone(ToLocal(e.zone, at))
  {
    hide FromLocal, ToLocal, Expansion, Event.Excluded;
    assert f.RuleWalls(to) == e.RuleWalls(to);
    forall c: Wall ensures f.Yields(to, c, at) <==> e.Yields(to, c, at) && !gone(c) {
      assert f.IsRdate(c) <==> e.IsRdate(c);
    }
    forall c: Wall | e.Yields(to, c, at) ensures ToLocal(e.zone, at) == c {
      TzReadsBack(e.zone.table, c, at);
    }
  }

  /** An all-day EXDATE hides exactly the occurrences read on that day. */
  lemma ExdayHidesDay(e: Event, day: Date, from: int, to: int, out: seq<int>, out': seq<int>, at: int)
    requires e.Valid() && e.zone.Tz? && IsListing(e, from, to, out)
    requires IsListing(e.(exdays := e.exdays + [day]), from, to, out')
    ensures at in out' <==> at in out && ToLocal(e.zone, at) / DAY != day
  {
    hide FromLocal, ToLocal, Event.RuleWalls;
    YieldsApart(e, e.(exdays := e.exdays + [day]), to, at, (c: Wall) => DateOf(c) == day);
    OccurrenceIsRead(e, to, at);
  }

  /** A timed EXDATE hides exactly the occurrences read as its own clock. */
  lemma ExdateHidesClock(e: Event, x: int, from: int, to: int, out: seq<int>, out': seq<int>, at: int)
    requires e.Valid() && e.zone.Tz? && IsListing(e, from, to, out) && 0 <= ToLocal(e.zone, x)
    requires IsListing(e.(exdate := e.exdate + [x]), from, to, out')
    ensures at in out' <==> at in out && ToLocal(e.zone, at) != ToLocal(e.zone, x)
  {
    hide FromLocal, ToLocal, Event.RuleWalls;
    var f := e.(exdate := e.exdate + [x]);
    forall c: Wall ensures f.Excluded(c) <==> e.Excluded(c) || c == ToLocal(e.zone, x) {
      if i :| 0 <= i < |e.exdate| && Reading(e.zone, e.exdate[i]) == c {
        assert f.exdate[i] == e.exdate[i];
      }
      assert f.exdate[|e.exdate|] == x;
    }
    YieldsApart(e, f, to, at, (c: Wall) => c == ToLocal(e.zone, x));
    OccurrenceIsRead(e, to, at);
  }

  lemma OccurrenceIsRead(e: Event, to: int, at: int)
    requires e.Valid() && e.zone.Tz?
    ensures e.Occurs(to, at) ==> 0 <= ToLocal(e.zone, at)
  {
    hide FromLocal, ToLocal, Event.RuleWalls, Event.Excluded;
    if c: Wall :| e.Yields(to, c, at) {
      TzReadsBack(e.zone.table, c, at);
    }
  }

  /** An RDATE adds exactly the instant its clock resolves to, unless EXDATE hides it. */
  lemma RdateAdds(e: Event, x: int, from: int, to: int, out: seq<int>, out': seq<int>, at: int)
    requires e.Valid() && IsListing(e, from, to, out) && 0 <= ToLocal(e.zone, x)
    requires IsListing(e.(rdate := e.rdate + [x]), from, to, out')
    ensures at in out' <==>
            || at in out
            || (&& from <= at < to && FromLocal(e.zone, ToLocal(e.zone, x)) == Some(at)
                && (forall i | 0 <= i < |e.exdate| :: Reading(e.zone, e.exdate[i]) != ToLocal(e.zone, x))
                && ToLocal(e.zone, x) / DAY !in e.exdays)
  {
    hide FromLocal, ToLocal, Expansion;
    var f := e.(rdate := e.rdate + [x]);
    assert f.RuleWalls(to) == e.RuleWalls(to);
    forall c: Wall ensures f.IsRdate(c) <==> e.IsRdate(c) || c == ToLocal(e.zone, x) {
      if i :| 0 <= i < |e.rdate| && Reading(e.zone, e.rdate[i]) == c {
        assert f.rdate[i] == e.rdate[i];
      }
      assert f.rdate[|e.rdate|] == x;
    }
    forall c: Wall
      ensures f.Yields(to, c, at) <==>
              e.Yields(to, c, at) || (c == ToLocal(e.zone, x) && !e.Excluded(c) && FromLocal(e.zone, c) == Some(at))
    {
      assert f.Excluded(c) <==> e.Excluded(c);
    }
    if FromLocal(e.zone, ToLocal(e.zone, x)) == Some(at) && !e.Excluded(ToLocal(e.zone, x)) {
      assert f.Yields(to, ToLocal(e.zone, x), at);
    }
  }
}
