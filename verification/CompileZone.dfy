/** compile_zone: VTIMEZONE rules (section 3.6.5 of RFC 5545) to an offset table. */
module CompileZone {
  import opened Wrappers
  import opened Civil
  import opened Zones
  import opened Recurrence
  import opened ExpandLoop
  import opened RuleParts

  /** A STANDARD or DAYLIGHT sub-component. */
  datatype ZoneRule = ZoneRule(dtstart: Wall, from: int, to: int, rrule: Option<seq<Part>>, rdates: seq<Wall>)

  /** A transition instant in seconds with the offsets after and before it. */
  datatype Raw = Raw(t: int, to: int, from: int)

  // ----- the reference: which transition governs an instant -----

  /** Of two transitions, the later; the first wins a tie. */
  function Later(a: Option<Raw>, b: Option<Raw>): Option<Raw> {
    if b.Some? && (a == None || a.value.t < b.value.t) then b else a
  }

  function By(x: Raw, secs: int): Option<Raw> { if x.t <= secs then Some(x) else None }

  /** The latest transition at or before secs, the earliest listed among equals. */
  function Governing(all: seq<Raw>, secs: int): Option<Raw> {
    if all == [] then None
    else
      var last := all[|all| - 1];
      Later(Governing(all[..|all| - 1], secs), By(last, secs))
  }

  /** The earliest transition, the first listed among equals. */
  function First(all: seq<Raw>): Raw
    requires all != []
  {
    var last := all[|all| - 1];
    if |all| == 1 then last
    else
      var f := First(all[..|all| - 1]);
      if last.t < f.t then last else f
  }

  function OffsetBy(all: seq<Raw>, secs: int): int
    requires all != []
  {
    match Governing(all, secs)
    case Some(r) => r.to
    case None => First(all).from
  }

  // ----- the transitions the rules generate -----

  function RuleWalls(rule: ZoneRule, windowTo: Wall): Result<seq<Wall>, RuleError> {
    match rule.rrule
    case None => Ok([rule.dtstart] + rule.rdates)
    case Some(parts) =>
      match Parse(parts)
      case Err(e) => Err(e)
      case Ok(r) =>
        ParsedIsValid(parts);
        Ok([rule.dtstart] + Expansion(r, rule.dtstart, UTC, windowTo, STEP_CAP) + rule.rdates)
  }

  function ToRaw(rule: ZoneRule, wall: Wall): Raw {
    Raw(Seconds(wall - rule.from * SECOND), rule.to, rule.from)
  }

  /** The transitions of one rule up to the window end. */
  function Block(rule: ZoneRule, walls: seq<Wall>, windowTo: Wall): seq<Raw> {
    if walls == [] then []
    else
      var raw := ToRaw(rule, walls[|walls| - 1]);
      Block(rule, walls[..|walls| - 1], windowTo) + if raw.t <= Seconds(windowTo) then [raw] else []
  }

  /** The transitions of all rules in rule order; an unsupported RRULE is an error. */
  function Generated(rules: seq<ZoneRule>, windowTo: Wall): Result<seq<Raw>, RuleError> {
    if rules == [] then Ok([])
    else
      var rule := rules[|rules| - 1];
      match Generated(rules[..|rules| - 1], windowTo)
      case Err(e) => Err(e)
      case Ok(all) =>
        match RuleWalls(rule, windowTo)
        case Err(e) => Err(e)
        case Ok(walls) => Ok(all + Block(rule, walls, windowTo))
  }

  // ----- what the code keeps of them -----

  /** raw keeps of all what matters from the window start on. */
  ghost predicate Keeps(all: seq<Raw>, raw: seq<Raw>, windowFrom: int) {
    && (forall secs | Seconds(windowFrom) <= secs :: Governing(raw, secs) == Governing(all, secs))
    && ((forall i | 0 <= i < |all| :: Seconds(windowFrom) <= all[i].t) ==> raw == all)
    && (raw == [] <==> all == [])
  }

  lemma {:induction false} GoverningConcat(a: seq<Raw>, b: seq<Raw>, secs: int)
    ensures Governing(a + b, secs) == Later(Governing(a, secs), Governing(b, secs))
  {
    if b == [] {
      assert a + b == a;
    } else {
      var init := b[..|b| - 1];
      GoverningConcat(a, init, secs);
      assert (a + b)[..|a + b| - 1] == a + init;
    }
  }

  lemma {:induction false} GoverningFound(all: seq<Raw>, secs: int)
    ensures Governing(all, secs).Some? ==>
              && Governing(all, secs).value in all
              && Governing(all, secs).value.t <= secs
              && forall i | 0 <= i < |all| && all[i].t <= secs :: all[i].t <= Governing(all, secs).value.t
    ensures Governing(all, secs) == None ==> forall i | 0 <= i < |all| :: secs < all[i].t
  {
    if all != [] {
      GoverningFound(all[..|all| - 1], secs);
    }
  }

  /** The state of the inner loop: in-window transitions and the latest earlier one. */
  ghost predicate Pruned(rule: ZoneRule, block: seq<Raw>, kept: seq<Raw>, before: Option<Raw>, start: int) {
    && (forall i | 0 <= i < |block| :: block[i].to == rule.to && block[i].from == rule.from)
    && (forall i | 0 <= i < |kept| :: start <= kept[i].t)
    && (before.Some? ==> before.value.t < start && before.value in block)
    && (before == None ==> kept == block)
    && (forall secs | start <= secs :: Governing(block, secs) == Later(before, Governing(kept, secs)))
  }

  method CollectBlock(rule: ZoneRule, walls: seq<Wall>, windowFrom: int, windowTo: Wall)
    returns (kept: seq<Raw>, before: Option<Raw>)
    ensures Pruned(rule, Block(rule, walls, windowTo), kept, before, Seconds(windowFrom))
  {
    kept, before := [], None;
    for i := 0 to |walls|
      invariant Pruned(rule, Block(rule, walls[..i], windowTo), kept, before, Seconds(windowFrom))
    {
      assert walls[..i + 1][..i] == walls[..i];
      var entry := ToRaw(rule, walls[i]);
      ghost var block := Block(rule, walls[..i], windowTo);
      if Seconds(windowTo) < entry.t {
        assert block + [] == block;
        continue;
      }
      PrunedStep(rule, block, kept, before, Seconds(windowFrom), entry);
      if entry.t < Seconds(windowFrom) {
        before := if before.Some? && entry.t <= before.value.t then before else Some(entry);
      } else {
        kept := kept + [entry];
      }
    }
    assert walls[..|walls|] == walls;
  }

  lemma PrunedStep(rule: ZoneRule, block: seq<Raw>, kept: seq<Raw>, before: Option<Raw>, start: int, entry: Raw)
    requires Pruned(rule, block, kept, before, start) && entry.to == rule.to && entry.from == rule.from
    ensures if entry.t < start
            then Pruned(rule, block + [entry], kept,
                        if before.Some? && entry.t <= before.value.t then before else Some(entry), start)
            else Pruned(rule, block + [entry], kept + [entry], before, start)
  {
    var before' := if before.Some? && entry.t <= before.value.t then before else Some(entry);
    forall secs | start <= secs
      ensures entry.t < start ==> Governing(block + [entry], secs) == Later(before', Governing(kept, secs))
      ensures start <= entry.t ==>
                Governing(block + [entry], secs) == Later(before, Governing(kept + [entry], secs))
    {
      assert (block + [entry])[..|block|] == block;
      assert (kept + [entry])[..|kept|] == kept;
      GoverningFound(kept, secs);
      GoverningFound(block, secs);
    }
  }

  lemma BlockKept(rule: ZoneRule, block: seq<Raw>, kept: seq<Raw>, before: Option<Raw>, windowFrom: int)
    requires Pruned(rule, block, kept, before, Seconds(windowFrom))
    ensures Keeps(block, if before.Some? then kept + [before.value] else kept, windowFrom)
  {
    if before.Some? {
      forall secs | Seconds(windowFrom) <= secs
        ensures Governing(kept + [before.value], secs) == Governing(block, secs)
      {
        assert (kept + [before.value])[..|kept|] == kept;
        GoverningFound(kept, secs);
      }
    }
  }

  lemma KeepsConcat(all: seq<Raw>, raw: seq<Raw>, block: seq<Raw>, kept: seq<Raw>, windowFrom: int)
    requires Keeps(all, raw, windowFrom) && Keeps(block, kept, windowFrom)
    ensures Keeps(all + block, raw + kept, windowFrom)
  {
    forall secs | Seconds(windowFrom) <= secs ensures Governing(raw + kept, secs) == Governing(all + block, secs) {
      GoverningConcat(all, block, secs);
      GoverningConcat(raw, kept, secs);
    }
    if forall i | 0 <= i < |all + block| :: Seconds(windowFrom) <= (all + block)[i].t {
      assert forall i | 0 <= i < |all| :: all[i] == (all + block)[i];
      assert forall i | 0 <= i < |block| :: block[i] == (all + block)[|all| + i];
    }
  }

  // ----- sorting -----

  predicate StrictlySorted(raw: seq<Raw>) { forall i, j | 0 <= i < j < |raw| :: raw[i].t < raw[j].t }

  /** sort_by_key and dedup_by_key, one entry at a time: a later entry for a time already present is dropped. */
  function Insert(s: seq<Raw>, x: Raw): (r: seq<Raw>)
    requires StrictlySorted(s)
    ensures StrictlySorted(r) && r != []
    ensures forall i | 0 <= i < |r| :: r[i] == x || r[i] in s
  {
    if s == [] then [x]
    else
      var last := s[|s| - 1];
      if last.t < x.t then s + [x]
      else if last.t == x.t then s
      else Insert(s[..|s| - 1], x) + [last]
  }

  function Sorted(raw: seq<Raw>): (r: seq<Raw>)
    ensures StrictlySorted(r) && (r == [] <==> raw == [])
  {
    if raw == [] then [] else Insert(Sorted(raw[..|raw| - 1]), raw[|raw| - 1])
  }

  lemma GoverningNothing(secs: int)
    ensures Governing([], secs) == None
  {
  }

  lemma GoverningAppend(s: seq<Raw>, x: Raw, secs: int)
    ensures Governing(s + [x], secs) == Later(Governing(s, secs), By(x, secs))
  {
    assert (s + [x])[..|s|] == s;
  }

  lemma GoverningEarlier(s: seq<Raw>, x: Raw, secs: int)
    requires StrictlySorted(s + [x])
    ensures Governing(s, secs).Some? ==> Governing(s, secs).value.t < x.t
  {
    GoverningFound(s, secs);
    if Governing(s, secs).Some? {
      var i :| 0 <= i < |s| && s[i] == Governing(s, secs).value;
      assert (s + [x])[i] == s[i] && (s + [x])[|s|] == x;
    }
  }

  lemma SortedInit(s: seq<Raw>)
    requires StrictlySorted(s) && s != []
    ensures StrictlySorted(s[..|s| - 1])
  {
  }

  lemma {:induction false} GoverningInsert(s: seq<Raw>, x: Raw, secs: int)
    requires StrictlySorted(s)
    ensures Governing(Insert(s, x), secs) == Later(Governing(s, secs), By(x, secs))
  {
    hide Governing, StrictlySorted;
    GoverningNothing(secs);
    if s == [] {
      GoverningAppend([], x, secs);
      assert [] + [x] == [x];
    } else {
      var init, last := s[..|s| - 1], s[|s| - 1];
      assert s == init + [last];
      SortedInit(s);
      GoverningAppend(init, last, secs);
      GoverningEarlier(init, last, secs);
      if last.t < x.t {
        GoverningAppend(s, x, secs);
      } else if x.t < last.t {
        GoverningInsert(init, x, secs);
        GoverningAppend(Insert(init, x), last, secs);
      }
    }
  }

  lemma {:induction false} GoverningSorted(raw: seq<Raw>, secs: int)
    ensures Governing(Sorted(raw), secs) == Governing(raw, secs)
  {
    if raw != [] {
      var init := raw[..|raw| - 1];
      GoverningSorted(init, secs);
      GoverningInsert(Sorted(init), raw[|raw| - 1], secs);
    }
  }

  lemma {:induction false} InsertFirst(s: seq<Raw>, x: Raw)
    requires StrictlySorted(s)
    ensures Insert(s, x)[0] == if s == [] || x.t < s[0].t then x else s[0]
  {
    if s != [] && x.t < s[|s| - 1].t && 1 < |s| {
      InsertFirst(s[..|s| - 1], x);
    }
  }

  lemma {:induction false} FirstSorted(raw: seq<Raw>)
    requires raw != []
    ensures Sorted(raw)[0] == First(raw)
  {
    InsertFirst(Sorted(raw[..|raw| - 1]), raw[|raw| - 1]);
    if 1 < |raw| {
      FirstSorted(raw[..|raw| - 1]);
    }
  }

  // ----- the table -----

  function Pairs(raw: seq<Raw>): (r: seq<Transition>)
    ensures |r| == |raw|
  {
    if raw == [] then [] else Pairs(raw[..|raw| - 1]) + [(raw[|raw| - 1].t, raw[|raw| - 1].to)]
  }

  /** On sorted transitions the table lookup finds the governing one. */
  lemma {:induction false} LookupIsGoverning(raw: seq<Raw>, secs: int)
    requires StrictlySorted(raw)
    ensures Lookup(Pairs(raw), secs) ==
            match Governing(raw, secs) case Some(r) => Some(r.to) case None => None
  {
    if raw != [] {
      LookupIsGoverning(raw[..|raw| - 1], secs);
      GoverningFound(raw[..|raw| - 1], secs);
      assert Pairs(raw)[..|raw| - 1] == Pairs(raw[..|raw| - 1]);
    }
  }

  lemma {:induction false} LookupPrepended(base: Transition, table: seq<Transition>, secs: int)
    requires base.0 <= secs
    ensures Lookup([base] + table, secs) == Some(match Lookup(table, secs) case Some(o) => o case None => base.1)
  {
    if table != [] {
      assert ([base] + table)[..|table|] == [base] + table[..|table| - 1];
      LookupPrepended(base, table[..|table| - 1], secs);
    }
  }

  /** sorted is cut at the first transition in the window; base is the offset before it. */
  predicate CutAt(sorted: seq<Raw>, start: int, n: nat, base: int) {
    && StrictlySorted(sorted) && sorted != [] && n <= |sorted|
    && (forall i | 0 <= i < n :: sorted[i].t < start)
    && (forall i | n <= i < |sorted| :: start <= sorted[i].t)
    && base == if 0 < n then sorted[n - 1].to else sorted[0].from
  }

  lemma CutLookup(sorted: seq<Raw>, start: int, n: nat, base: int, secs: int)
    requires CutAt(sorted, start, n, base) && start <= secs
    ensures OffsetAt([(start, base)] + Pairs(sorted[n..]), secs) ==
            match Governing(sorted, secs) case Some(r) => r.to case None => sorted[0].from
  {
    hide Governing, Lookup, Pairs;
    LookupPrepended((start, base), Pairs(sorted[n..]), secs);
    LookupIsGoverning(sorted[n..], secs);
    assert sorted == sorted[..n] + sorted[n..];
    GoverningConcat(sorted[..n], sorted[n..], secs);
    GoverningCut(sorted, start, n, base, secs);
  }

  lemma GoverningCut(sorted: seq<Raw>, start: int, n: nat, base: int, secs: int)
    requires CutAt(sorted, start, n, base) && start <= secs
    ensures Governing(sorted[..n], secs) == if 0 < n then Some(sorted[n - 1]) else None
    ensures Governing(sorted[n..], secs).Some? ==> start <= Governing(sorted[n..], secs).value.t
  {
    hide Governing;
    GoverningFound(sorted[n..], secs);
    if 0 < n {
      assert sorted[..n] == sorted[..n - 1] + [sorted[n - 1]];
      GoverningAppend(sorted[..n - 1], sorted[n - 1], secs);
      GoverningEarlier(sorted[..n - 1], sorted[n - 1], secs);
    } else {
      GoverningFound(sorted[..n], secs);
    }
  }

  predicate Ordered(table: seq<Transition>) { forall i, j | 0 <= i < j < |table| :: table[i].0 <= table[j].0 }

  lemma {:induction false} PairsAt(raw: seq<Raw>, i: nat)
    requires i < |raw|
    ensures Pairs(raw)[i] == (raw[i].t, raw[i].to)
  {
    if i < |raw| - 1 {
      PairsAt(raw[..|raw| - 1], i);
    }
  }

  /** The wall clocks of one rule: its start, its recurrence and its RDATEs. */
  method CollectWalls(rule: ZoneRule, windowTo: Wall) returns (r: Result<seq<Wall>, RuleError>)
    ensures r == RuleWalls(rule, windowTo)
  {
    hide Expansion, Parse;
    var candidates := [rule.dtstart];
    if rule.rrule.Some? {
      var parsed := ParseRule(rule.rrule.value);
      if parsed.Err? {
        return Err(parsed.error);
      }
      var expanded := ExpandRRule(parsed.value, rule.dtstart, UTC, windowTo);
      candidates := candidates + expanded;
    }
    r := Ok(candidates + rule.rdates);
  }

  /** What each rule contributes: everything in the window and its latest transition before it. */
  method GenerateRaw(rules: seq<ZoneRule>, windowFrom: int, windowTo: Wall) returns (r: Result<seq<Raw>, RuleError>)
    ensures r.Err? <==> Generated(rules, windowTo).Err?
    ensures r.Ok? ==> Keeps(Generated(rules, windowTo).value, r.value, windowFrom)
  {
    hide RuleWalls, Block, Keeps, Pruned;
    var raw := [];
    ghost var all := [];
    NothingKept(windowFrom);
    for i := 0 to |rules|
      invariant Generated(rules[..i], windowTo) == Ok(all)
      invariant Keeps(all, raw, windowFrom)
    {
      assert rules[..i + 1][..i] == rules[..i];
      var rule := rules[i];
      var candidates := CollectWalls(rule, windowTo);
      if candidates.Err? {
        GeneratedFails(rules, i + 1, windowTo);
        return Err(candidates.error);
      }
      var kept, before := CollectBlock(rule, candidates.value, windowFrom, windowTo);
      var more := if before.Some? then kept + [before.value] else kept;
      ghost var block := Block(rule, candidates.value, windowTo);
      BlockKept(rule, block, kept, before, windowFrom);
      KeepsConcat(all, raw, block, more, windowFrom);
      raw := raw + more;
      all := all + block;
    }
    assert rules[..|rules|] == rules;
    r := Ok(raw);
  }

  /** Where the sorted transitions enter the window, and the offset before that. */
  method FindCut(sorted: seq<Raw>, windowFrom: int) returns (n: nat, base: int)
    requires StrictlySorted(sorted) && sorted != []
    ensures n <= |sorted| && CutAt(sorted, Seconds(windowFrom), n, base)
  {
    n := 0;
    while n < |sorted| && sorted[n].t < Seconds(windowFrom)
      invariant n <= |sorted| && forall i | 0 <= i < n :: sorted[i].t < Seconds(windowFrom)
    {
      n := n + 1;
    }
    base := if 0 < n then sorted[n - 1].to else sorted[0].from;
  }

  /** compile_zone. On success the table is in time order and, over the whole
    * window, gives at each instant the offset of the governing transition of
    * everything the rules generate, although only one earlier transition per
    * rule is kept. */
  method CompileZone(rules: seq<ZoneRule>, windowFrom: int, windowTo: Wall)
    returns (r: Result<seq<Transition>, RuleError>)
    ensures r.Err? <==> Generated(rules, windowTo).Err? || Generated(rules, windowTo).value == []
    ensures r.Ok? ==> Ordered(r.value)
    ensures r.Ok? ==>
              forall secs | Seconds(windowFrom) <= secs <= Seconds(windowTo) ::
                OffsetAt(r.value, secs) == OffsetBy(Generated(rules, windowTo).value, secs)
  {
    hide Generated, Pairs, Keeps, OffsetBy, Ordered, OffsetAt, CutAt;
    var raw := GenerateRaw(rules, windowFrom, windowTo);
    if raw.Err? {
      return Err(raw.error);
    }
    ghost var all := Generated(rules, windowTo).value;
    EmptyTogether(all, raw.value, windowFrom);
    if raw.value == [] {
      return Err(Unsupported);
    }
    var sorted := Sorted(raw.value);
    var n, base := FindCut(sorted, windowFrom);
    r := Ok([(Seconds(windowFrom), base)] + Pairs(sorted[n..]));
    TableIsExact(all, raw.value, sorted, n, base, windowFrom);
  }

  lemma NothingKept(windowFrom: int)
    ensures Keeps([], [], windowFrom)
  {
  }

  lemma EmptyTogether(all: seq<Raw>, raw: seq<Raw>, windowFrom: int)
    requires Keeps(all, raw, windowFrom)
    ensures raw == [] <==> all == []
  {
  }

  lemma {:induction false} GeneratedFails(rules: seq<ZoneRule>, i: nat, windowTo: Wall)
    requires i <= |rules| && Generated(rules[..i], windowTo).Err?
    ensures Generated(rules, windowTo).Err?
    decreases |rules| - i
  {
    if i < |rules| {
      assert rules[..i + 1][..i] == rules[..i];
      GeneratedFails(rules, i + 1, windowTo);
    } else {
      assert rules[..i] == rules;
    }
  }

  lemma TableIsExact(all: seq<Raw>, raw: seq<Raw>, sorted: seq<Raw>, n: nat, base: int, windowFrom: int)
    requires Keeps(all, raw, windowFrom) && raw != [] && sorted == Sorted(raw)
    requires CutAt(sorted, Seconds(windowFrom), n, base)
    ensures var table := [(Seconds(windowFrom), base)] + Pairs(sorted[n..]);
            && Ordered(table)
            && forall secs | Seconds(windowFrom) <= secs :: OffsetAt(table, secs) == OffsetBy(all, secs)
  {
    hide Governing, First, Sorted, OffsetAt, StrictlySorted;
    var start := Seconds(windowFrom);
    TableOrdered(sorted, start, n, base);
    forall secs | start <= secs
      ensures OffsetAt([(start, base)] + Pairs(sorted[n..]), secs) == OffsetBy(all, secs)
    {
      CutLookup(sorted, start, n, base, secs);
      GoverningSorted(raw, secs);
      if Governing(all, secs) == None {
        NothingEarlier(all, secs, start);
        FirstSorted(raw);
      }
    }
  }

  lemma TableOrdered(sorted: seq<Raw>, start: int, n: nat, base: int)
    requires CutAt(sorted, start, n, base)
    ensures Ordered([(start, base)] + Pairs(sorted[n..]))
  {
    hide Pairs;
    var table := [(start, base)] + Pairs(sorted[n..]);
    forall i | 1 <= i < |table| ensures table[i].0 == sorted[n + i - 1].t {
      PairsAt(sorted[n..], i - 1);
    }
  }

  lemma NothingEarlier(all: seq<Raw>, secs: int, start: int)
    requires Governing(all, secs) == None && start <= secs
    ensures forall i | 0 <= i < |all| :: start <= all[i].t
  {
    GoverningFound(all, secs);
  }
}
