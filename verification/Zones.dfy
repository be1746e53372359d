/** Time zones as offset tables: lookup, wall clock to instant and back.
  *
  * Instants are ticks counted from 0001-01-01T00:00Z, table times are whole
  * seconds from the same origin, offsets are seconds east of UTC. */
module Zones {
  import opened Wrappers
  import opened Civil

  type Transition = (int, int)

  /** Tz is a tz-database zone, given by its transitions; Custom is a compiled
    * client-supplied VTIMEZONE. They read the table alike and differ in how a
    * wall clock is resolved. */
  datatype Zone = Tz(table: seq<Transition>) | Custom(table: seq<Transition>)

  const UTC := Tz([(0, 0)])

  /** The offset of the last entry at or before secs. */
  function Lookup(table: seq<Transition>, secs: int): Option<int> {
    if table == [] then None
    else
      var last := table[|table| - 1];
      if last.0 <= secs then Some(last.1) else Lookup(table[..|table| - 1], secs)
  }

  function OffsetAt(table: seq<Transition>, secs: int): int {
    match Lookup(table, secs)
    case Some(offset) => offset
    case None => if table == [] then 0 else table[0].1
  }

  function Seconds(at: int): int { at / SECOND }

  function ToLocal(zone: Zone, at: int): int { at + OffsetAt(zone.table, Seconds(at)) * SECOND }

  /** Every offset a lookup can give. */
  function Offsets(table: seq<Transition>): set<int> {
    if table == [] then {0} else set i | 0 <= i < |table| :: table[i].1
  }

  /** The earliest instant among the first n offsets that reads back as wall. */
  function Earliest(table: seq<Transition>, wall: int, n: nat): Option<int>
    requires n <= |table|
  {
    if n == 0 then None
    else
      var at := wall - table[n - 1].1 * SECOND;
      var rest := Earliest(table, wall, n - 1);
      if ToLocal(Tz(table), at) == wall && (rest == None || at < rest.value) then Some(at) else rest
  }

  function FromLocal(zone: Zone, wall: int): Option<int> {
    match zone
    case Tz(table) => if table == [] then Some(wall) else Earliest(table, wall, |table|)
    case Custom(table) =>
      var t := Seconds(wall);
      var before := OffsetAt(table, t);
      var instant := t - before;
      var after := OffsetAt(table, instant);
      var other := t - after;
      Some((if before == after || instant <= other then instant else other) * SECOND)
  }

  // ----- lookups stay within the table's offsets -----

  lemma {:induction false} LookupInTable(table: seq<Transition>, secs: int)
    ensures Lookup(table, secs).Some? ==>
              exists i :: 0 <= i < |table| && table[i].1 == Lookup(table, secs).value && table[i].0 <= secs
    ensures Lookup(table, secs) == None ==> forall i :: 0 <= i < |table| ==> secs < table[i].0
  {
    if table != [] {
      var rest := table[..|table| - 1];
      LookupInTable(rest, secs);
      if Lookup(rest, secs).Some? {
        var i :| 0 <= i < |rest| && rest[i].1 == Lookup(rest, secs).value && rest[i].0 <= secs;
        assert table[i] == rest[i];
      } else {
        assert forall i :: 0 <= i < |rest| ==> table[i] == rest[i];
      }
    }
  }

  lemma OffsetInTable(table: seq<Transition>, secs: int)
    ensures OffsetAt(table, secs) in Offsets(table)
  {
    LookupInTable(table, secs);
  }

  // ----- the tz-database form: exact inverse, earliest solution, None in a gap -----

  lemma {:induction false} EarliestIsLeast(table: seq<Transition>, wall: int, n: nat)
    requires n <= |table|
    ensures Earliest(table, wall, n).Some? ==> ToLocal(Tz(table), Earliest(table, wall, n).value) == wall
    ensures forall i :: 0 <= i < n && ToLocal(Tz(table), wall - table[i].1 * SECOND) == wall ==>
              Earliest(table, wall, n).Some? && Earliest(table, wall, n).value <= wall - table[i].1 * SECOND
  {
    if n > 0 {
      EarliestIsLeast(table, wall, n - 1);
    }
  }

  /** A tz-database wall clock resolves to the earliest instant that reads as
    * it, and to nothing exactly when no instant does. */
  lemma TzResolvesEarliest(table: seq<Transition>, wall: int, at: int)
    requires ToLocal(Tz(table), at) == wall
    ensures FromLocal(Tz(table), wall).Some?
    ensures FromLocal(Tz(table), wall).value <= at
    ensures ToLocal(Tz(table), FromLocal(Tz(table), wall).value) == wall
  {
    OffsetInTable(table, Seconds(at));
    if table != [] {
      EarliestIsLeast(table, wall, |table|);
      var i :| 0 <= i < |table| && table[i].1 == OffsetAt(table, Seconds(at));
      assert at == wall - table[i].1 * SECOND;
    }
  }

  lemma TzNoneInGap(table: seq<Transition>, wall: int)
    requires FromLocal(Tz(table), wall) == None
    ensures forall at :: ToLocal(Tz(table), at) != wall
  {
    forall at ensures ToLocal(Tz(table), at) != wall {
      if ToLocal(Tz(table), at) == wall {
        TzResolvesEarliest(table, wall, at);
      }
    }
  }

  // ----- the custom form: exact away from transitions -----

  predicate OffsetsWithin(table: seq<Transition>, bound: nat) {
    forall offset | offset in Offsets(table) :: 0 <= offset + bound && offset <= bound
  }

  /** The offset is c at every second within bound of secs. */
  ghost predicate SteadyAround(table: seq<Transition>, secs: int, bound: nat, c: int) {
    forall s :: secs - bound <= s <= secs + bound ==> OffsetAt(table, s) == c
  }

  /** Where the offset is steady around a whole-second wall clock, the clock
    * resolves to the one instant that reads as it. */
  lemma CustomInversion(table: seq<Transition>, secs: int, bound: nat, c: int)
    requires OffsetsWithin(table, bound) && SteadyAround(table, secs, bound, c)
    ensures FromLocal(Custom(table), secs * SECOND) == Some((secs - c) * SECOND)
    ensures forall at :: ToLocal(Custom(table), at) == secs * SECOND <==> at == (secs - c) * SECOND
  {
    assert OffsetAt(table, secs) == c;
    OffsetInTable(table, secs);
    assert OffsetAt(table, secs - c) == c;
    forall at ensures ToLocal(Custom(table), at) == secs * SECOND <==> at == (secs - c) * SECOND {
      OffsetInTable(table, Seconds(at));
      var offset := OffsetAt(table, Seconds(at));
      if at + offset * SECOND == secs * SECOND {
        assert Seconds(at) == secs - offset;
      }
    }
  }

  // ----- how far apart two wall clocks must be to stay in order -----

  /** No two offsets of the zone are a day or more apart. */
  predicate NarrowSpread(zone: Zone) {
    forall a, b | a in Offsets(zone.table) && b in Offsets(zone.table) :: a - b < 86_400
  }

  function Floor(zone: Zone, wall: int): int {
    if zone.Custom? then Seconds(wall) * SECOND else wall
  }

  lemma {:induction false} EarliestShift(table: seq<Transition>, wall: int, n: nat)
    requires n <= |table| && Earliest(table, wall, n).Some?
    ensures exists i :: 0 <= i < n && Earliest(table, wall, n).value == wall - table[i].1 * SECOND
  {
    if Earliest(table, wall, n).value != wall - table[n - 1].1 * SECOND {
      EarliestShift(table, wall, n - 1);
    }
  }

  /** A resolved wall clock is the clock shifted by one of the zone's offsets. */
  lemma ResolvedIsShifted(zone: Zone, wall: int) returns (offset: int)
    requires FromLocal(zone, wall).Some?
    ensures offset in Offsets(zone.table)
    ensures FromLocal(zone, wall).value == Floor(zone, wall) - offset * SECOND
  {
    match zone
    case Tz(table) =>
      if table == [] {
        offset := 0;
      } else {
        EarliestShift(table, wall, |table|);
        var i :| 0 <= i < |table| && FromLocal(zone, wall).value == wall - table[i].1 * SECOND;
        offset := table[i].1;
      }
    case Custom(table) =>
      var t := Seconds(wall);
      OffsetInTable(table, t);
      OffsetInTable(table, t - OffsetAt(table, t));
      var before := OffsetAt(table, t);
      var after := OffsetAt(table, t - before);
      offset := if before == after || t - before <= t - after then before else after;
  }

  /** Wall clocks a day or more apart keep their order as instants. */
  lemma ResolveKeepsDayOrder(zone: Zone, v: int, w: int)
    requires NarrowSpread(zone) && v + DAY <= w
    requires FromLocal(zone, v).Some? && FromLocal(zone, w).Some?
    ensures FromLocal(zone, v).value < FromLocal(zone, w).value
  {
    var a := ResolvedIsShifted(zone, v);
    var b := ResolvedIsShifted(zone, w);
    assert b - a < 86_400;
  }
}
