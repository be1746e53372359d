/** Wall clocks of compiled zones near a change of offset: which of them resolve to an
  * instant that reads as them, which to the earliest such instant, and what gaps give. */
module CustomZones {
  import opened Wrappers
  import opened Civil
  import opened Zones

  function Larger(a: int, b: int): int { if a < b then b else a }

  /** The offset read at the wall second itself, as if it were UTC. */
  function Guess(table: seq<Transition>, t: int): int { OffsetAt(table, t) }

  /** The offset read at the instant which the first guess gives. */
  function Second(table: seq<Transition>, t: int): int { OffsetAt(table, t - Guess(table, t)) }

  /** Of its two guesses the code takes the larger offset. */
  lemma ResolvesByLargerGuess(table: seq<Transition>, wall: int)
    ensures var t := Seconds(wall);
            FromLocal(Custom(table), wall) == Some((t - Larger(Guess(table, t), Second(table, t))) * SECOND)
  {
  }

  lemma ReadAtSecond(table: seq<Transition>, s: int)
    ensures ToLocal(Custom(table), s * SECOND) == (s + OffsetAt(table, s)) * SECOND
  {
    assert Seconds(s * SECOND) == s;
  }

  /** Over every table: a clock resolves to an instant that reads as it exactly if it is a
    * whole second and both guesses agree, or the second is larger and holds at the result. */
  lemma ReadsBackByGuesses(table: seq<Transition>, wall: int)
    ensures var (t, zone) := (Seconds(wall), Custom(table));
            ToLocal(zone, FromLocal(zone, wall).value) == wall <==>
            && wall % SECOND == 0
            && var (b, a) := (Guess(table, t), Second(table, t)); a == b || (b < a && OffsetAt(table, t - a) == a)
  {
    hide OffsetAt, FromLocal, ToLocal;
    var t := Seconds(wall);
    ResolvesByLargerGuess(table, wall);
    var o := Larger(Guess(table, t), Second(table, t));
    ReadAtSecond(table, t - o);
    assert wall == t * SECOND + wall % SECOND;
    WholeClock(wall, t - o + OffsetAt(table, t - o));
  }

  lemma WholeClock(wall: int, s: int)
    ensures s * SECOND == wall <==> wall % SECOND == 0 && s == Seconds(wall)
  {
  }

  /** Over every table: the reading of an instant resolves back to it, to the second, exactly
    * if the larger guess is the offset at that instant. */
  lemma ReadingResolvesByGuesses(table: seq<Transition>, at: int)
    ensures var (zone, s) := (Custom(table), Seconds(at));
            var t := s + OffsetAt(table, s);
            FromLocal(zone, ToLocal(zone, at)) == Some(s * SECOND) <==>
            Larger(Guess(table, t), Second(table, t)) == OffsetAt(table, s)
  {
    hide OffsetAt, FromLocal;
    var s := Seconds(at);
    ReadingSecond(table, at);
    ResolvesByLargerGuess(table, ToLocal(Custom(table), at));
  }

  lemma ReadingSecond(table: seq<Transition>, at: int)
    ensures Seconds(ToLocal(Custom(table), at)) == Seconds(at) + OffsetAt(table, Seconds(at))
  {
    hide OffsetAt;
  }

  // ----- one change nearby -----

  /** Within bound of second t the offset changes at most once, from c to d at second x, and
    * no offset of the table is beyond bound. */
  ghost predicate OneChange(table: seq<Transition>, t: int, bound: nat, x: int, c: int, d: int) {
    && OffsetsWithin(table, bound) && c != d && 0 <= c + bound && c <= bound && 0 <= d + bound && d <= bound
    && forall s | t - bound <= s <= t + bound :: OffsetAt(table, s) == if s < x then c else d
  }

  /** The clocks jumped over, and those read twice. */
  predicate InGap(x: int, c: int, d: int, t: int) { x + c <= t < x + d }

  predicate InFold(x: int, c: int, d: int, t: int) { x + d <= t < x + c }

  /** The clocks that resolve to an instant reading otherwise. */
  predicate Misread(x: int, c: int, d: int, t: int) {
    (x + c <= t < x && (d < c || t < x + d)) || (c < d && x <= t < x + d)
  }

  /** Which instants read as the clock t: the one before the change, the one after, both or none. */
  lemma InstantsOf(table: seq<Transition>, t: int, bound: nat, x: int, c: int, d: int, at: int)
    requires OneChange(table, t, bound, x, c, d)
    ensures ToLocal(Custom(table), at) == t * SECOND
       <==> (at == (t - c) * SECOND && t - c < x) || (at == (t - d) * SECOND && x <= t - d)
  {
    hide OffsetAt;
    var s := Seconds(at);
    OffsetInTable(table, s);
    var o := OffsetAt(table, s);
    if at + o * SECOND == t * SECOND {
      assert s == t - o;
    }
    if at == (t - c) * SECOND {
      assert s == t - c;
    }
    if at == (t - d) * SECOND {
      assert s == t - d;
    }
  }

  /** The offset the code settles on. */
  lemma Settles(table: seq<Transition>, t: int, bound: nat, x: int, c: int, d: int)
    requires OneChange(table, t, bound, x, c, d)
    ensures Larger(Guess(table, t), Second(table, t))
         == if t < x then (if t - c < x then c else Larger(c, d)) else if x <= t - d then d else Larger(c, d)
  {
    hide OffsetAt;
  }

  /** Near a single change a clock resolves to an instant that reads as it exactly if it is a
    * whole second and is not misread. */
  lemma ReadsBackExactly(table: seq<Transition>, wall: int, bound: nat, x: int, c: int, d: int)
    requires OneChange(table, Seconds(wall), bound, x, c, d)
    ensures var zone := Custom(table);
            ToLocal(zone, FromLocal(zone, wall).value) == wall <==>
            wall % SECOND == 0 && !Misread(x, c, d, Seconds(wall))
  {
    hide OffsetAt, FromLocal, ToLocal;
    var t := Seconds(wall);
    Settles(table, t, bound, x, c, d);
    ResolvesByLargerGuess(table, wall);
    var at := FromLocal(Custom(table), wall).value;
    InstantsOf(table, t, bound, x, c, d, at);
    WholeClock(wall, t);
    ReadAtSecond(table, t - Larger(Guess(table, t), Second(table, t)));
    WholeClock(wall, Seconds(ToLocal(Custom(table), at)));
  }

  /** at is the earliest instant that reads as the clock. */
  ghost predicate IsEarliest(zone: Zone, wall: int, at: int) {
    ToLocal(zone, at) == wall && forall other: int | ToLocal(zone, other) == wall :: at <= other
  }

  /** It resolves to the earliest such instant exactly if moreover it is not a clock of the
    * fold at or after the change, which an eastern zone reads twice. */
  lemma EarliestExactly(table: seq<Transition>, t: int, bound: nat, x: int, c: int, d: int)
    requires OneChange(table, t, bound, x, c, d)
    ensures IsEarliest(Custom(table), t * SECOND, FromLocal(Custom(table), t * SECOND).value)
       <==> !Misread(x, c, d, t) && !(x <= t && InFold(x, c, d, t))
  {
    hide OffsetAt, FromLocal, ToLocal;
    var (zone, wall) := (Custom(table), t * SECOND);
    assert Seconds(wall) == t;
    Settles(table, t, bound, x, c, d);
    ResolvesByLargerGuess(table, wall);
    InstantsOf(table, t, bound, x, c, d, FromLocal(zone, wall).value);
    InstantsOf(table, t, bound, x, c, d, (t - c) * SECOND);
    forall other: int | ToLocal(zone, other) == wall
      ensures (other == (t - c) * SECOND && t - c < x) || (other == (t - d) * SECOND && x <= t - d)
    {
      InstantsOf(table, t, bound, x, c, d, other);
    }
  }

  /** A reading resolves back to its instant exactly outside two spans: in the old offset, the
    * readings at or after the change unless clocks fall back and the fold is over; in the
    * new one, the readings before the change unless clocks jump forward. */
  lemma ReadingResolvesExactly(table: seq<Transition>, at: int, bound: nat, x: int, c: int, d: int)
    requires OneChange(table, Seconds(ToLocal(Custom(table), at)), bound, x, c, d)
    ensures var (zone, s) := (Custom(table), Seconds(at));
            FromLocal(zone, ToLocal(zone, at)) == Some(s * SECOND) <==>
            if s < x then s + c < x || (d < c && s + c < x + d) else x <= s + d || c < d
  {
    hide OffsetAt, FromLocal, ToLocal;
    var s := Seconds(at);
    ReadingSecond(table, at);
    OffsetInTable(table, s);
    var t := s + OffsetAt(table, s);
    Settles(table, t, bound, x, c, d);
    ReadingResolvesByGuesses(table, at);
  }

  /** A clock in a gap resolves to an instant before the change, never to the change itself:
    * nothing reads as it, and the instant reads as much earlier as the gap is long. */
  lemma GapResolvesBeforeChange(table: seq<Transition>, t: int, bound: nat, x: int, c: int, d: int)
    requires OneChange(table, t, bound, x, c, d) && InGap(x, c, d, t)
    ensures var zone := Custom(table);
            && FromLocal(zone, t * SECOND) == Some((t - d) * SECOND) && t - d < x
            && ToLocal(zone, (t - d) * SECOND) == (t - (d - c)) * SECOND
            && forall at: int :: ToLocal(zone, at) != t * SECOND
  {
    hide OffsetAt, FromLocal, ToLocal;
    assert Seconds(t * SECOND) == t;
    Settles(table, t, bound, x, c, d);
    ResolvesByLargerGuess(table, t * SECOND);
    ReadAtSecond(table, t - d);
    forall at: int ensures ToLocal(Custom(table), at) != t * SECOND {
      InstantsOf(table, t, bound, x, c, d, at);
    }
  }

  // ----- the conditions are met -----

  lemma TwoOffsets(start: int, c: int, x: int, d: int, s: int)
    requires start < x
    ensures OffsetAt([(start, c), (x, d)], s) == if s < x then c else d
  {
    var table := [(start, c), (x, d)];
    assert table[..1] == [(start, c)] && [(start, c)][..0] == [];
    assert Lookup([(start, c)], s) == if start <= s then Some(c) else None;
    assert Lookup(table, s) == if x <= s then Some(d) else Lookup([(start, c)], s);
  }

  lemma OneChangeTable(start: int, c: int, x: int, d: int, t: int, bound: nat)
    requires start < x && c != d && 0 <= c + bound && c <= bound && 0 <= d + bound && d <= bound
    ensures OneChange([(start, c), (x, d)], t, bound, x, c, d)
  {
    hide OffsetAt;
    forall s ensures OffsetAt([(start, c), (x, d)], s) == if s < x then c else d {
      TwoOffsets(start, c, x, d, s);
    }
  }

  /** Six hours west falling back to seven, at 08:00Z: every clock of the six hours from 02:00
    * is read by an instant, and resolves to one that reads otherwise. */
  lemma SixHoursMisread(t: int)
    requires 7_200 <= t < 28_800
    ensures var zone := Custom([(0, -21_600), (28_800, -25_200)]);
            && ToLocal(zone, FromLocal(zone, t * SECOND).value) != t * SECOND
            && ToLocal(zone, (t + 25_200) * SECOND) == t * SECOND
  {
    hide OffsetAt, FromLocal, ToLocal;
    var table := [(0, -21_600), (28_800, -25_200)];
    assert Seconds(t * SECOND) == t;
    OneChangeTable(0, -21_600, 28_800, -25_200, t, 25_200);
    ReadsBackExactly(table, t * SECOND, 25_200, 28_800, -21_600, -25_200);
    InstantsOf(table, t, 25_200, 28_800, -21_600, -25_200, (t + 25_200) * SECOND);
  }

  /** Two hours east falling back to one: a clock of the fold resolves to the later of the two
    * instants that read as it. */
  lemma EasternFoldTakesTheLater()
    ensures var (zone, wall) := (Custom([(0, 7_200), (1_000_000, 3_600)]), 1_005_400 * SECOND);
            && FromLocal(zone, wall) == Some(1_001_800 * SECOND) && ToLocal(zone, 1_001_800 * SECOND) == wall
            && ToLocal(zone, 998_200 * SECOND) == wall && !IsEarliest(zone, wall, 1_001_800 * SECOND)
  {
    hide OffsetAt, FromLocal, ToLocal;
    var table := [(0, 7_200), (1_000_000, 3_600)];
    var t := 1_005_400;
    OneChangeTable(0, 7_200, 1_000_000, 3_600, t, 7_200);
    Settles(table, t, 7_200, 1_000_000, 7_200, 3_600);
    ResolvesByLargerGuess(table, t * SECOND);
    InstantsOf(table, t, 7_200, 1_000_000, 7_200, 3_600, 1_001_800 * SECOND);
    InstantsOf(table, t, 7_200, 1_000_000, 7_200, 3_600, 998_200 * SECOND);
  }
}
