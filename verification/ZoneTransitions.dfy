/** At which instants a VTIMEZONE changes its offset, said of its rules alone: a rule fires at
  * the second at which its old offset reads one of its clocks. */
module ZoneTransitions {
  import opened Wrappers
  import opened Civil
  import opened Zones
  import opened Recurrence
  import opened RuleParts
  import opened CompileZone

  /** DTSTART, an RDATE, or a clock of the recurrence, expanded as if in UTC. */
  predicate IsClock(rule: ZoneRule, windowTo: Wall, wall: Wall) {
    || wall == rule.dtstart
    || wall in rule.rdates
    || (&& rule.rrule.Some? && Parse(rule.rrule.value).Ok?
        && (ParsedIsValid(rule.rrule.value);
            wall in Expansion(Parse(rule.rrule.value).value, rule.dtstart, UTC, windowTo, STEP_CAP)))
  }

  /** The rule's old offset reads one of its clocks at second t, not after the window. */
  ghost predicate Fires(rule: ZoneRule, windowTo: Wall, t: int) {
    t <= windowTo / SECOND && exists wall: Wall :: IsClock(rule, windowTo, wall) && ReadAt(t, rule.from, wall)
  }

  /** A clock east of UTC by offset shows wall at second t, fractions aside. */
  predicate ReadAt(t: int, offset: int, wall: Wall) { t + offset == wall / SECOND }

  /** The i-th rule fires at t. */
  ghost predicate FiresIn(rules: seq<ZoneRule>, windowTo: Wall, i: nat, t: int)
    requires i < |rules|
  {
    Fires(rules[i], windowTo, t)
  }

  // ----- what is generated -----

  lemma RawExactly(rule: ZoneRule, wall: Wall)
    ensures var x := ToRaw(rule, wall);
            ReadAt(x.t, rule.from, wall) && x.to == rule.to && x.from == rule.from
  {
    assert wall == Seconds(wall) * SECOND + wall % SECOND;
    assert Seconds(wall - rule.from * SECOND) == Seconds(wall) - rule.from;
  }

  lemma {:induction false} BlockExactly(rule: ZoneRule, walls: seq<Wall>, windowTo: Wall, x: Raw)
    ensures x in Block(rule, walls, windowTo) <==>
            && x.to == rule.to && x.from == rule.from && x.t <= windowTo / SECOND
            && exists wall :: wall in walls && ReadAt(x.t, rule.from, wall)
    decreases |walls|
  {
    hide ToRaw;
    if walls != [] {
      var (init, last) := (walls[..|walls| - 1], walls[|walls| - 1]);
      BlockExactly(rule, init, windowTo, x);
      RawExactly(rule, last);
      assert walls == init + [last];
      assert forall wall :: wall in walls <==> wall in init || wall == last;
    }
  }

  lemma ClocksExactly(rule: ZoneRule, windowTo: Wall, wall: Wall)
    requires RuleWalls(rule, windowTo).Ok?
    ensures wall in RuleWalls(rule, windowTo).value <==> IsClock(rule, windowTo, wall)
  {
    hide Expansion, Parse;
  }

  lemma RuleExactly(rule: ZoneRule, windowTo: Wall, x: Raw)
    requires RuleWalls(rule, windowTo).Ok?
    ensures x in Block(rule, RuleWalls(rule, windowTo).value, windowTo) <==>
            Fires(rule, windowTo, x.t) && x.to == rule.to && x.from == rule.from
  {
    hide RuleWalls, IsClock;
    BlockExactly(rule, RuleWalls(rule, windowTo).value, windowTo, x);
    forall wall: Wall ensures wall in RuleWalls(rule, windowTo).value <==> IsClock(rule, windowTo, wall) {
      ClocksExactly(rule, windowTo, wall);
    }
  }

  lemma LastRule(rules: seq<ZoneRule>, windowTo: Wall)
    requires rules != [] && Generated(rules, windowTo).Ok?
    ensures var n := |rules| - 1;
            && Generated(rules[..n], windowTo).Ok? && RuleWalls(rules[n], windowTo).Ok?
            && Generated(rules, windowTo).value
               == Generated(rules[..n], windowTo).value + Block(rules[n], RuleWalls(rules[n], windowTo).value, windowTo)
  {
    hide RuleWalls, Block;
  }

  /** The transitions generated are exactly the firings of the rules, with the rule's offsets. */
  lemma {:induction false} GeneratedExactly(rules: seq<ZoneRule>, windowTo: Wall, x: Raw)
    requires Generated(rules, windowTo).Ok?
    ensures x in Generated(rules, windowTo).value <==>
            exists i :: 0 <= i < |rules| && FiresIn(rules, windowTo, i, x.t)
                     && x.to == rules[i].to && x.from == rules[i].from
    decreases |rules|
  {
    hide RuleWalls, Block, Fires, Generated;
    if rules == [] {
      NothingGenerated(windowTo);
    } else {
      var n := |rules| - 1;
      LastRule(rules, windowTo);
      GeneratedExactly(rules[..n], windowTo, x);
      RuleExactly(rules[n], windowTo, x);
      forall i | 0 <= i < n ensures FiresIn(rules[..n], windowTo, i, x.t) <==> FiresIn(rules, windowTo, i, x.t) {
      }
      assert FiresIn(rules, windowTo, n, x.t) <==> Fires(rules[n], windowTo, x.t);
    }
  }

  lemma NothingGenerated(windowTo: Wall)
    ensures Generated([], windowTo) == Ok([])
  {
  }

  // ----- which rule governs -----

  /** Of all firings up to secs, rule i's at t is the latest, and no rule before it fires then too. */
  ghost predicate Rules(rules: seq<ZoneRule>, windowTo: Wall, secs: int, i: nat, t: int)
    requires i < |rules|
  {
    && FiresIn(rules, windowTo, i, t) && t <= secs
    && forall k, u | 0 <= k < |rules| && FiresIn(rules, windowTo, k, u) && u <= secs :: u < t || (u == t && i <= k)
  }

  /** No rule has fired by secs. */
  ghost predicate Unruled(rules: seq<ZoneRule>, windowTo: Wall, secs: int) {
    forall k, u | 0 <= k < |rules| && FiresIn(rules, windowTo, k, u) :: secs < u
  }

  /** Rule i's firing at t is the earliest of all, and no rule before it fires then too. */
  ghost predicate Opens(rules: seq<ZoneRule>, windowTo: Wall, i: nat, t: int)
    requires i < |rules|
  {
    && FiresIn(rules, windowTo, i, t)
    && forall k, u | 0 <= k < |rules| && FiresIn(rules, windowTo, k, u) :: t < u || (t == u && i <= k)
  }

  lemma {:induction false} GoverningRule(rules: seq<ZoneRule>, windowTo: Wall, secs: int)
    requires Generated(rules, windowTo).Ok?
    ensures match Governing(Generated(rules, windowTo).value, secs)
      case None => Unruled(rules, windowTo, secs)
      case Some(r) => exists i | 0 <= i < |rules| ::
                        Rules(rules, windowTo, secs, i, r.t) && r.to == rules[i].to && r.from == rules[i].from
    decreases |rules|
  {
    hide RuleWalls, Block, Fires, Generated, Governing;
    if rules == [] {
      NothingGenerated(windowTo);
      GoverningNothing(secs);
    } else {
      var n := |rules| - 1;
      LastRule(rules, windowTo);
      GoverningRule(rules[..n], windowTo, secs);
      var block := Block(rules[n], RuleWalls(rules[n], windowTo).value, windowTo);
      GoverningConcat(Generated(rules[..n], windowTo).value, block, secs);
      GoverningFound(block, secs);
      forall x: Raw
        ensures x in block <==> Fires(rules[n], windowTo, x.t) && x.to == rules[n].to && x.from == rules[n].from
      {
        RuleExactly(rules[n], windowTo, x);
      }
      forall u | Fires(rules[n], windowTo, u) ensures Raw(u, rules[n].to, rules[n].from) in block {
      }
      RulesJoin(rules, windowTo, secs, Governing(Generated(rules[..n], windowTo).value, secs), Governing(block, secs));
    }
  }

  /** The last rule joins: its latest firing wins if it is later than that of the rules before. */
  lemma RulesJoin(rules: seq<ZoneRule>, windowTo: Wall, secs: int, a: Option<Raw>, b: Option<Raw>)
    requires rules != []
    requires var n := |rules| - 1;
             match a
             case None => Unruled(rules[..n], windowTo, secs)
             case Some(r) => exists i | 0 <= i < n :: Rules(rules[..n], windowTo, secs, i, r.t)
                                      && r.to == rules[i].to && r.from == rules[i].from
    requires var last := rules[|rules| - 1];
             match b
             case None => forall u | Fires(last, windowTo, u) :: secs < u
             case Some(r) => && Fires(last, windowTo, r.t) && r.t <= secs && r.to == last.to && r.from == last.from
                             && forall u | Fires(last, windowTo, u) && u <= secs :: u <= r.t
    ensures match Later(a, b)
      case None => Unruled(rules, windowTo, secs)
      case Some(r) => exists i | 0 <= i < |rules| ::
                        Rules(rules, windowTo, secs, i, r.t) && r.to == rules[i].to && r.from == rules[i].from
  {
    hide Fires;
    var n := |rules| - 1;
    forall k, u | 0 <= k < |rules|
      ensures FiresIn(rules, windowTo, k, u) <==>
              if k < n then FiresIn(rules[..n], windowTo, k, u) else Fires(rules[n], windowTo, u)
    {
    }
    if Later(a, b).Some? {
      if b.Some? && (a == None || a.value.t < b.value.t) {
        assert Rules(rules, windowTo, secs, n, b.value.t);
      } else {
        var i :| 0 <= i < n && Rules(rules[..n], windowTo, secs, i, a.value.t)
              && a.value.to == rules[i].to && a.value.from == rules[i].from;
        assert Rules(rules, windowTo, secs, i, a.value.t);
      }
    }
  }

  // ----- before the first firing -----

  lemma {:induction false} FirstFound(all: seq<Raw>)
    requires all != []
    ensures First(all) in all && forall i | 0 <= i < |all| :: First(all).t <= all[i].t
    decreases |all|
  {
    if 1 < |all| {
      FirstFound(all[..|all| - 1]);
    }
  }

  lemma {:induction false} FirstConcat(a: seq<Raw>, b: seq<Raw>)
    requires a + b != []
    ensures First(a + b)
         == if a == [] then First(b) else if b == [] || First(a).t <= First(b).t then First(a) else First(b)
    decreases |b|
  {
    if b == [] {
      assert a + b == a;
    } else if a == [] {
      assert a + b == b;
    } else {
      var init := b[..|b| - 1];
      assert (a + b)[..|a + b| - 1] == a + init;
      FirstConcat(a, init);
      if |b| == 1 {
        assert init == [];
      }
    }
  }

  lemma {:induction false} OpeningRule(rules: seq<ZoneRule>, windowTo: Wall)
    requires Generated(rules, windowTo).Ok? && Generated(rules, windowTo).value != []
    ensures var f := First(Generated(rules, windowTo).value);
            exists i | 0 <= i < |rules| :: Opens(rules, windowTo, i, f.t) && f.from == rules[i].from
    decreases |rules|
  {
    hide RuleWalls, Block, Fires, Generated, First;
    if rules == [] {
      NothingGenerated(windowTo);
    } else {
      var n := |rules| - 1;
      LastRule(rules, windowTo);
      var before := Generated(rules[..n], windowTo).value;
      var block := Block(rules[n], RuleWalls(rules[n], windowTo).value, windowTo);
      FirstConcat(before, block);
      if before != [] {
        OpeningRule(rules[..n], windowTo);
      } else {
        NeverFires(rules[..n], windowTo);
      }
      if block != [] {
        FirstFound(block);
      }
      forall x: Raw
        ensures x in block <==> Fires(rules[n], windowTo, x.t) && x.to == rules[n].to && x.from == rules[n].from
      {
        RuleExactly(rules[n], windowTo, x);
      }
      forall u | Fires(rules[n], windowTo, u) ensures Raw(u, rules[n].to, rules[n].from) in block {
      }
      OpensJoin(rules, windowTo, if before == [] then None else Some(First(before)),
                if block == [] then None else Some(First(block)));
    }
  }

  /** Nothing is generated exactly if no rule fires by the end of the window. */
  lemma NeverFires(rules: seq<ZoneRule>, windowTo: Wall)
    requires Generated(rules, windowTo).Ok?
    ensures Generated(rules, windowTo).value == [] <==>
            forall i, t :: 0 <= i < |rules| ==> !FiresIn(rules, windowTo, i, t)
  {
    hide Generated, Fires;
    var all := Generated(rules, windowTo).value;
    if all != [] {
      GeneratedExactly(rules, windowTo, all[0]);
    }
    forall i, t | 0 <= i < |rules| && FiresIn(rules, windowTo, i, t) ensures all != [] {
      GeneratedExactly(rules, windowTo, Raw(t, rules[i].to, rules[i].from));
    }
  }

  lemma OpensJoin(rules: seq<ZoneRule>, windowTo: Wall, a: Option<Raw>, b: Option<Raw>)
    requires rules != [] && (a.Some? || b.Some?)
    requires var n := |rules| - 1;
             match a
             case None => forall i, t :: 0 <= i < n ==> !FiresIn(rules[..n], windowTo, i, t)
             case Some(f) => exists i | 0 <= i < n :: Opens(rules[..n], windowTo, i, f.t) && f.from == rules[i].from
    requires var last := rules[|rules| - 1];
             match b
             case None => forall u :: !Fires(last, windowTo, u)
             case Some(f) => && Fires(last, windowTo, f.t) && f.from == last.from
                             && forall u | Fires(last, windowTo, u) :: f.t <= u
    ensures var f := if a == None then b.value else if b == None || a.value.t <= b.value.t then a.value else b.value;
            exists i | 0 <= i < |rules| :: Opens(rules, windowTo, i, f.t) && f.from == rules[i].from
  {
    hide Fires;
    var n := |rules| - 1;
    forall k, u | 0 <= k < |rules|
      ensures FiresIn(rules, windowTo, k, u) <==>
              if k < n then FiresIn(rules[..n], windowTo, k, u) else Fires(rules[n], windowTo, u)
    {
    }
    if a == None || (b.Some? && b.value.t < a.value.t) {
      assert Opens(rules, windowTo, n, b.value.t);
    } else {
      var i :| 0 <= i < n && Opens(rules[..n], windowTo, i, a.value.t) && a.value.from == rules[i].from;
      assert Opens(rules, windowTo, i, a.value.t);
    }
  }

  // ----- the offset at every second -----

  /** The offset of the rule that fired last, or before every firing the old offset of the rule
    * that fires first; among rules that fire together the one listed first. */
  ghost predicate OffsetRuled(rules: seq<ZoneRule>, windowTo: Wall, secs: int, offset: int) {
    || (exists i, t :: 0 <= i < |rules| && Rules(rules, windowTo, secs, i, t) && offset == rules[i].to)
    || (Unruled(rules, windowTo, secs)
        && exists i, t :: 0 <= i < |rules| && Opens(rules, windowTo, i, t) && offset == rules[i].from)
  }

  /** What the compiled table gives at a second of the window, said of the rules alone. */
  lemma OffsetExactly(rules: seq<ZoneRule>, windowTo: Wall, secs: int, offset: int)
    requires Generated(rules, windowTo).Ok? && Generated(rules, windowTo).value != []
    ensures OffsetBy(Generated(rules, windowTo).value, secs) == offset <==> OffsetRuled(rules, windowTo, secs, offset)
  {
    hide Generated, Fires, Governing, First;
    GoverningRule(rules, windowTo, secs);
    OpeningRule(rules, windowTo);
    OneRuleRules(rules, windowTo, secs);
  }

  lemma OneRuleRules(rules: seq<ZoneRule>, windowTo: Wall, secs: int)
    ensures forall i, t, k, u | 0 <= i < |rules| && 0 <= k < |rules| ::
              Rules(rules, windowTo, secs, i, t) && Rules(rules, windowTo, secs, k, u) ==> i == k && t == u
    ensures forall i, t, k, u | 0 <= i < |rules| && 0 <= k < |rules| ::
              Opens(rules, windowTo, i, t) && Opens(rules, windowTo, k, u) ==> i == k && t == u
    ensures forall i, t | 0 <= i < |rules| :: Unruled(rules, windowTo, secs) ==> !Rules(rules, windowTo, secs, i, t)
  {
    hide Fires;
  }

  /** compile_zone is refused exactly for an RRULE outside the subset, or if no rule fires by the
    * end of the window. */
  lemma {:induction false} FailsExactly(rules: seq<ZoneRule>, windowTo: Wall)
    ensures Generated(rules, windowTo).Err? <==>
            exists i | 0 <= i < |rules| :: rules[i].rrule.Some? && Parse(rules[i].rrule.value).Err?
    decreases |rules|
  {
    hide Expansion, Parse, Block;
    if rules != [] {
      var n := |rules| - 1;
      FailsExactly(rules[..n], windowTo);
      assert forall i | 0 <= i < n :: rules[..n][i] == rules[i];
    }
  }

  // ----- a zone with one summer -----

  const SUMMER := ZoneRule(100 * DAY + 7_200 * SECOND, -18_000, -14_400, None, [])
  const WINTER := ZoneRule(300 * DAY + 7_200 * SECOND, -14_400, -18_000, None, [])

  /** Clocks at 02:00 five hours west go forward on day 100, at 07:00 UTC, and four hours west
    * back on day 300, at 06:00 UTC. */
  lemma SummerAndWinter(windowTo: Wall, secs: int)
    requires 301 * DAY <= windowTo
    ensures var all := Generated([SUMMER, WINTER], windowTo);
            && all.Ok? && all.value != []
            && OffsetBy(all.value, secs)
               == if 100 * 86_400 + 25_200 <= secs < 300 * 86_400 + 21_600 then -14_400 else -18_000
  {
    hide Generated, Fires, Governing, First, OffsetBy;
    var rules := [SUMMER, WINTER];
    FailsExactly(rules, windowTo);
    SummerFires(windowTo);
    NeverFires(rules, windowTo);
    var (t, u) := (100 * 86_400 + 25_200, 300 * 86_400 + 21_600);
    assert FiresIn(rules, windowTo, 0, t) && FiresIn(rules, windowTo, 1, u);
    forall k, x | 0 <= k < |rules|
      ensures FiresIn(rules, windowTo, k, x) <==> (k == 0 && x == t) || (k == 1 && x == u)
    {
      assert FiresIn(rules, windowTo, k, x) <==> Fires(rules[k], windowTo, x);
    }
    if secs < t {
      assert Opens(rules, windowTo, 0, t);
      OffsetExactly(rules, windowTo, secs, -18_000);
    } else if secs < u {
      assert Rules(rules, windowTo, secs, 0, t);
      OffsetExactly(rules, windowTo, secs, -14_400);
    } else {
      assert Rules(rules, windowTo, secs, 1, u);
      OffsetExactly(rules, windowTo, secs, -18_000);
    }
  }

  lemma SummerFires(windowTo: Wall)
    requires 301 * DAY <= windowTo
    ensures forall x :: Fires(SUMMER, windowTo, x) <==> x == 100 * 86_400 + 25_200
    ensures forall x :: Fires(WINTER, windowTo, x) <==> x == 300 * 86_400 + 21_600
  {
    assert IsClock(SUMMER, windowTo, SUMMER.dtstart) && IsClock(WINTER, windowTo, WINTER.dtstart);
    assert ReadAt(100 * 86_400 + 25_200, -18_000, SUMMER.dtstart);
    assert ReadAt(300 * 86_400 + 21_600, -14_400, WINTER.dtstart);
  }
}
