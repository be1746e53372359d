/** RRULE as the list of its parts: parsing, truncate_rrule and the COUNT
  * re-anchoring of the continuation. Tokens are already read: a part carries
  * its number, list or UNTIL form. */
module RuleParts {
  import opened Wrappers
  import opened Civil
  import opened Zones
  import opened Recurrence
  import opened RecurrenceDates
  import opened Expand
  import opened SeriesSplit

  datatype Until = Instant(at: int) | Day(date: Date)

  datatype Part =
    | FreqPart(freq: Freq)
    | IntervalPart(n: nat)
    | CountPart(n: nat)
    | UntilPart(until: Until)
    | ByDayPart(entries: seq<ByDay>)
    | ByMonthdayPart(days: seq<int>)
    | ByMonthPart(months: seq<nat>)
    | WkstPart
    | UnknownPart

  datatype RuleError = Unsupported

  /** What the parser has collected so far; rule.freq is meaningless until freq is set. */
  datatype Draft = Draft(freq: Option<Freq>, rule: Rule)

  const EMPTY := Draft(None, Rule(Daily, 1, None, None, None, [], [], []))

  function ReadPart(d: Draft, part: Part): Result<Draft, RuleError> {
    match part
    case FreqPart(freq) => Ok(d.(freq := Some(freq)))
    case IntervalPart(n) => if n == 0 then Err(Unsupported) else Ok(d.(rule := d.rule.(interval := n)))
    case CountPart(n) => Ok(d.(rule := d.rule.(count := Some(n))))
    case UntilPart(Instant(at)) => Ok(d.(rule := d.rule.(untilInstant := Some(at), untilDate := None)))
    case UntilPart(Day(date)) => Ok(d.(rule := d.rule.(untilInstant := None, untilDate := Some(date))))
    case ByDayPart(entries) =>
      if exists i | 0 <= i < |entries| :: 7 <= entries[i].weekday then Err(Unsupported)
      else Ok(d.(rule := d.rule.(byDay := d.rule.byDay + entries)))
    case ByMonthdayPart(days) => Ok(d.(rule := d.rule.(byMonthday := days)))
    case ByMonthPart(months) =>
      if exists i | 0 <= i < |months| :: !(1 <= months[i] <= 12) then Err(Unsupported)
      else Ok(d.(rule := d.rule.(byMonth := months)))
    case WkstPart => Ok(d)
    case UnknownPart => Err(Unsupported)
  }

  function ReadParts(d: Draft, parts: seq<Part>): Result<Draft, RuleError>
    decreases parts
  {
    if parts == [] then Ok(d)
    else match ReadPart(d, parts[0])
      case Ok(d') => ReadParts(d', parts[1..])
      case Err(e) => Err(e)
  }

  function Finish(d: Draft): Result<Rule, RuleError> {
    if d.freq == None then Err(Unsupported) else Ok(d.rule.(freq := d.freq.value))
  }

  function Parse(parts: seq<Part>): Result<Rule, RuleError> {
    match ReadParts(EMPTY, parts)
    case Ok(d) => Finish(d)
    case Err(e) => Err(e)
  }

  lemma {:induction false} ReadPartsValid(d: Draft, parts: seq<Part>)
    requires d.rule.Valid()
    ensures ReadParts(d, parts).Ok? ==> ReadParts(d, parts).value.rule.Valid()
    decreases parts
  {
    if parts != [] && ReadPart(d, parts[0]).Ok? {
      ReadPartsValid(ReadPart(d, parts[0]).value, parts[1..]);
    }
  }

  /** A rule the parser accepts is one the expansion is defined for. */
  lemma ParsedIsValid(parts: seq<Part>)
    ensures Parse(parts).Ok? ==> Parse(parts).value.Valid()
  {
    ReadPartsValid(EMPTY, parts);
  }

  /** ParsedRRule::parse. */
  method ParseRule(parts: seq<Part>) returns (r: Result<Rule, RuleError>)
    ensures r == Parse(parts)
    ensures r.Ok? ==> r.value.Valid()
  {
    var d := EMPTY;
    for i := 0 to |parts|
      invariant ReadParts(EMPTY, parts) == ReadParts(d, parts[i..])
    {
      assert parts[i..][1..] == parts[i + 1..];
      var next := ReadPart(d, parts[i]);
      if next.Err? {
        ParsedIsValid(parts);
        return Err(next.error);
      }
      d := next.value;
    }
    ParsedIsValid(parts);
    r := Finish(d);
  }

  // ----- truncate_rrule -----

  predicate Bounds(part: Part) { part.CountPart? || part.UntilPart? }

  function Unbounded(parts: seq<Part>): seq<Part> {
    if parts == [] then []
    else if Bounds(parts[0]) then Unbounded(parts[1..])
    else [parts[0]] + Unbounded(parts[1..])
  }

  predicate HasCount(parts: seq<Part>) { exists i | 0 <= i < |parts| :: parts[i].CountPart? }

  lemma HasCountFrom(parts: seq<Part>)
    requires parts != []
    ensures HasCount(parts) <==> parts[0].CountPart? || HasCount(parts[1..])
  {
    assert parts == [parts[0]] + parts[1..];
  }

  lemma NoCount()
    ensures !HasCount([])
  {
  }

  function UntilFor(last: Point, allDay: bool): Until {
    match last
    case AllDay(date) => Day(date)
    case Timed(at) => if allDay then Day(UtcDate(at)) else Instant(WholeSecond(at))
  }

  /** The UNTIL of a last kept occurrence: its own day, the day of UTC it falls on, or the last whole
    * second not after it. */
  lemma UntilWritten(last: Point, allDay: bool)
    ensures match UntilFor(last, allDay)
      case Day(date) => if last.AllDay? then date == last.date
                        else allDay && (0 <= last.at ==> date * DAY <= last.at < (date + 1) * DAY)
      case Instant(at) => last.Timed? && !allDay && at % SECOND == 0 && at <= last.at < at + SECOND
  {
  }

  /** The loop over the parts: COUNT and UNTIL dropped, COUNT remembered. */
  method StripBounds(parts: seq<Part>) returns (kept: seq<Part>, hadCount: bool)
    ensures kept == Unbounded(parts) && hadCount == HasCount(parts)
  {
    hide HasCount;
    NoCount();
    kept, hadCount := [], false;
    for i := 0 to |parts|
      invariant kept + Unbounded(parts[i..]) == Unbounded(parts)
      invariant hadCount || HasCount(parts[i..]) <==> HasCount(parts)
    {
      ghost var rest := Unbounded(parts[i + 1..]);
      assert parts[i..][1..] == parts[i + 1..];
      HasCountFrom(parts[i..]);
      assert (kept + [parts[i]]) + rest == kept + ([parts[i]] + rest);
      if parts[i].CountPart? {
        hadCount := true;
      } else if !parts[i].UntilPart? {
        kept := kept + [parts[i]];
      }
    }
    assert parts[|parts|..] == [] && kept + [] == kept;
  }

  method TruncateRRule(parts: seq<Part>, before: seq<Point>, allDay: bool) returns (r: Option<seq<Part>>)
    ensures r == None <==> before == []
    ensures before != [] ==>
              r == Some(Unbounded(parts) +
                        [if HasCount(parts) then CountPart(|before|)
                         else UntilPart(UntilFor(before[|before| - 1], allDay))])
  {
    if before == [] {
      return None;
    }
    var last := before[|before| - 1];
    var kept, hadCount := StripBounds(parts);
    if hadCount {
      kept := kept + [CountPart(|before|)];
    } else {
      kept := kept + [UntilPart(UntilFor(last, allDay))];
    }
    r := Some(kept);
  }

  function Unbound(rule: Rule): Rule { rule.(count := None, untilInstant := None, untilDate := None) }

  function UnboundDraft(d: Draft): Draft { d.(rule := Unbound(d.rule)) }

  lemma {:induction false} ReadUnbounded(d: Draft, parts: seq<Part>)
    requires ReadParts(d, parts).Ok?
    ensures ReadParts(UnboundDraft(d), Unbounded(parts)) == Ok(UnboundDraft(ReadParts(d, parts).value))
    ensures ReadParts(d, parts).value.rule.count.Some? <==> d.rule.count.Some? || HasCount(parts)
    decreases parts
  {
    if parts != [] {
      var d' := ReadPart(d, parts[0]).value;
      ReadUnbounded(d', parts[1..]);
      HasCountFrom(parts);
      if !Bounds(parts[0]) {
        assert ReadPart(UnboundDraft(d), parts[0]) == Ok(UnboundDraft(d'));
        assert Unbounded(parts)[1..] == Unbounded(parts[1..]);
      } else {
        assert UnboundDraft(d') == UnboundDraft(d);
      }
    }
  }

  lemma {:induction false} ReadConcat(d: Draft, a: seq<Part>, b: seq<Part>)
    requires ReadParts(d, a).Ok?
    ensures ReadParts(d, a + b) == ReadParts(ReadParts(d, a).value, b)
    decreases a
  {
    if a == [] {
      assert a + b == b;
    } else {
      assert (a + b)[1..] == a[1..] + b;
      ReadConcat(ReadPart(d, a[0]).value, a[1..], b);
    }
  }

  /** Rewriting the parts and parsing them again is truncating the parsed rule. */
  lemma TruncatePartsMeaning(parts: seq<Part>, before: seq<Point>, allDay: bool)
    requires Parse(parts).Ok? && before != []
    ensures var last := before[|before| - 1];
            Parse(Unbounded(parts) +
                  [if HasCount(parts) then CountPart(|before|) else UntilPart(UntilFor(last, allDay))])
            == Ok(Truncated(Parse(parts).value, |before|, last, allDay))
  {
    var bound := if HasCount(parts) then CountPart(|before|)
                 else UntilPart(UntilFor(before[|before| - 1], allDay));
    ReadUnbounded(EMPTY, parts);
    ReadConcat(EMPTY, Unbounded(parts), [bound]);
  }

  // ----- reanchor_count -----

  /** COUNT lowered by the occurrences already past; None when one reaches zero. */
  function ReanchorCount(parts: seq<Part>, skipped: nat): Option<seq<Part>> {
    if parts == [] then Some([])
    else match ReanchorCount(parts[1..], skipped)
      case None => None
      case Some(rest) =>
        match parts[0]
        case CountPart(n) => if n <= skipped then None else Some([CountPart(n - skipped)] + rest)
        case part => Some([part] + rest)
  }

  lemma {:induction false} ReanchorNone(parts: seq<Part>, skipped: nat)
    ensures ReanchorCount(parts, skipped) == None <==>
            exists i | 0 <= i < |parts| :: parts[i].CountPart? && parts[i].n <= skipped
  {
    if parts != [] {
      ReanchorNone(parts[1..], skipped);
      assert parts == [parts[0]] + parts[1..];
    }
  }

  function Lowered(d: Draft, skipped: nat): Draft { d.(rule := Continued(d.rule, skipped)) }

  lemma {:induction false} ReadReanchored(d: Draft, parts: seq<Part>, skipped: nat)
    requires ReadParts(d, parts).Ok? && ReanchorCount(parts, skipped).Some?
    requires d.rule.count.Some? ==> skipped < d.rule.count.value
    ensures ReadParts(Lowered(d, skipped), ReanchorCount(parts, skipped).value)
            == Ok(Lowered(ReadParts(d, parts).value, skipped))
    ensures ReadParts(d, parts).value.rule.count.Some? ==> skipped < ReadParts(d, parts).value.rule.count.value
    decreases parts
  {
    if parts != [] {
      var d' := ReadPart(d, parts[0]).value;
      ReadReanchored(d', parts[1..], skipped);
      var reanchored := ReanchorCount(parts, skipped).value;
      assert reanchored[1..] == ReanchorCount(parts[1..], skipped).value;
      assert ReadPart(Lowered(d, skipped), reanchored[0]) == Ok(Lowered(d', skipped));
    }
  }

  /** Rewriting COUNT and parsing again is lowering the parsed rule's COUNT. */
  lemma ReanchorPartsMeaning(parts: seq<Part>, skipped: nat)
    requires Parse(parts).Ok? && ReanchorCount(parts, skipped).Some?
    ensures Parse(ReanchorCount(parts, skipped).value) == Ok(Continued(Parse(parts).value, skipped))
  {
    ReadReanchored(EMPTY, parts, skipped);
  }

  // ----- what a text means, part by part -----

  datatype Kind = Frequency | Interval | Count | Bound | Weekdays | Monthdays | Months | Other

  function KindOf(part: Part): Kind {
    match part
    case FreqPart(_) => Frequency
    case IntervalPart(_) => Interval
    case CountPart(_) => Count
    case UntilPart(_) => Bound
    case ByDayPart(_) => Weekdays
    case ByMonthdayPart(_) => Monthdays
    case ByMonthPart(_) => Months
    case _ => Other
  }

  /** p is the last part of its kind. */
  predicate IsLast(parts: seq<Part>, p: Part) {
    exists i | 0 <= i < |parts| :: parts[i] == p && forall j | i < j < |parts| :: KindOf(parts[j]) != KindOf(p)
  }

  predicate Lacks(parts: seq<Part>, k: Kind) { forall i | 0 <= i < |parts| :: KindOf(parts[i]) != k }

  /** The weekdays of all BYDAY parts, in order. */
  function AllWeekdays(parts: seq<Part>): seq<ByDay> {
    if parts == [] then []
    else AllWeekdays(parts[..|parts| - 1])
         + if parts[|parts| - 1].ByDayPart? then parts[|parts| - 1].entries else []
  }

  /** No part of its own is refused. */
  predicate Sound(part: Part) {
    match part
    case IntervalPart(n) => n != 0
    case ByDayPart(entries) => forall i | 0 <= i < |entries| :: entries[i].weekday < 7
    case ByMonthPart(months) => forall i | 0 <= i < |months| :: 1 <= months[i] <= 12
    case UnknownPart => false
    case _ => true
  }

  predicate FreqSpelled(parts: seq<Part>, freq: Option<Freq>) {
    match freq
    case Some(f) => IsLast(parts, FreqPart(f))
    case None => Lacks(parts, Frequency)
  }

  predicate IntervalSpelled(parts: seq<Part>, n: nat) {
    IsLast(parts, IntervalPart(n)) || (Lacks(parts, Interval) && n == 1)
  }

  predicate CountSpelled(parts: seq<Part>, count: Option<nat>) {
    match count
    case Some(n) => IsLast(parts, CountPart(n))
    case None => Lacks(parts, Count)
  }

  predicate UntilSpelled(parts: seq<Part>, instant: Option<int>, date: Option<Date>) {
    match (instant, date)
    case (Some(at), None) => IsLast(parts, UntilPart(Instant(at)))
    case (None, Some(on)) => IsLast(parts, UntilPart(Day(on)))
    case (None, None) => Lacks(parts, Bound)
    case (Some(_), Some(_)) => false
  }

  predicate MonthdaysSpelled(parts: seq<Part>, days: seq<int>) {
    IsLast(parts, ByMonthdayPart(days)) || (Lacks(parts, Monthdays) && days == [])
  }

  predicate MonthsSpelled(parts: seq<Part>, months: seq<nat>) {
    IsLast(parts, ByMonthPart(months)) || (Lacks(parts, Months) && months == [])
  }

  /** The rule the parts spell: of each kind the last part counts, only weekdays add up; INTERVAL
    * is 1 if not given, and any other part not given is none. */
  predicate Spells(parts: seq<Part>, freq: Option<Freq>, r: Rule) {
    && FreqSpelled(parts, freq) && IntervalSpelled(parts, r.interval) && CountSpelled(parts, r.count)
    && UntilSpelled(parts, r.untilInstant, r.untilDate) && r.byDay == AllWeekdays(parts)
    && MonthdaysSpelled(parts, r.byMonthday) && MonthsSpelled(parts, r.byMonth)
  }

  lemma LastStays(parts: seq<Part>, x: Part, p: Part)
    requires KindOf(x) != KindOf(p) && IsLast(parts, p)
    ensures IsLast(parts + [x], p)
  {
    hide KindOf;
    var all := parts + [x];
    var i :| 0 <= i < |parts| && parts[i] == p && forall j | i < j < |parts| :: KindOf(parts[j]) != KindOf(p);
    assert all[i] == p;
    forall j | i < j < |all| ensures KindOf(all[j]) != KindOf(p) {
    }
  }

  lemma LastWas(parts: seq<Part>, x: Part, p: Part)
    requires x != p && IsLast(parts + [x], p)
    ensures KindOf(x) != KindOf(p) && IsLast(parts, p)
  {
    hide KindOf;
    var all := parts + [x];
    var i :| 0 <= i < |all| && all[i] == p && forall j | i < j < |all| :: KindOf(all[j]) != KindOf(p);
    assert all[|parts|] == x && parts[i] == p;
    forall j | i < j < |parts| ensures KindOf(parts[j]) != KindOf(p) {
      assert all[j] == parts[j];
    }
  }

  lemma LastOneMore(parts: seq<Part>, x: Part, p: Part)
    ensures IsLast(parts + [x], p) <==> x == p || (KindOf(x) != KindOf(p) && IsLast(parts, p))
  {
    hide KindOf, IsLast;
    if x == p {
      NewIsLast(parts, x);
    } else if IsLast(parts + [x], p) {
      LastWas(parts, x, p);
    } else if KindOf(x) != KindOf(p) && IsLast(parts, p) {
      LastStays(parts, x, p);
    }
  }

  lemma NewIsLast(parts: seq<Part>, x: Part)
    ensures IsLast(parts + [x], x)
  {
    assert (parts + [x])[|parts|] == x;
  }

  lemma LacksOneMore(parts: seq<Part>, x: Part, k: Kind)
    ensures Lacks(parts + [x], k) <==> KindOf(x) != k && Lacks(parts, k)
  {
    hide KindOf;
    var all := parts + [x];
    assert all[|parts|] == x;
    forall i | 0 <= i < |parts| ensures all[i] == parts[i] {
    }
  }

  /** A part leaves the others of its kind behind and all other kinds as they were. */
  lemma OneMore(parts: seq<Part>, x: Part)
    ensures IsLast(parts + [x], x)
    ensures forall p | KindOf(p) != KindOf(x) :: IsLast(parts + [x], p) <==> IsLast(parts, p)
    ensures forall k | k != KindOf(x) :: Lacks(parts + [x], k) <==> Lacks(parts, k)
  {
    hide KindOf, IsLast, Lacks;
    LastOneMore(parts, x, x);
    forall p | KindOf(p) != KindOf(x) ensures IsLast(parts + [x], p) <==> IsLast(parts, p) {
      LastOneMore(parts, x, p);
    }
    forall k | k != KindOf(x) ensures Lacks(parts + [x], k) <==> Lacks(parts, k) {
      LacksOneMore(parts, x, k);
    }
  }

  lemma OthersStay(parts: seq<Part>, x: Part, freq: Option<Freq>, r: Rule)
    requires Spells(parts, freq, r)
    ensures var (all, k) := (parts + [x], KindOf(x));
            && (k != Frequency ==> FreqSpelled(all, freq)) && (k != Interval ==> IntervalSpelled(all, r.interval))
            && (k != Count ==> CountSpelled(all, r.count))
            && (k != Bound ==> UntilSpelled(all, r.untilInstant, r.untilDate))
            && (k != Weekdays ==> r.byDay == AllWeekdays(all))
            && (k != Monthdays ==> MonthdaysSpelled(all, r.byMonthday))
            && (k != Months ==> MonthsSpelled(all, r.byMonth))
  {
    hide IsLast, Lacks, AllWeekdays, Spells, KindOf;
    BoundsStay(parts, x, freq, r);
    ListsStay(parts, x, freq, r);
  }

  lemma BoundsStay(parts: seq<Part>, x: Part, freq: Option<Freq>, r: Rule)
    requires Spells(parts, freq, r)
    ensures var (all, k) := (parts + [x], KindOf(x));
            && (k != Frequency ==> FreqSpelled(all, freq)) && (k != Interval ==> IntervalSpelled(all, r.interval))
            && (k != Count ==> CountSpelled(all, r.count))
            && (k != Bound ==> UntilSpelled(all, r.untilInstant, r.untilDate))
  {
    hide IsLast, Lacks, AllWeekdays;
    OneMore(parts, x);
  }

  lemma OneMoreWeekdays(parts: seq<Part>, x: Part)
    ensures AllWeekdays(parts + [x]) == AllWeekdays(parts) + if x.ByDayPart? then x.entries else []
  {
    assert (parts + [x])[..|parts|] == parts;
  }

  lemma ListsStay(parts: seq<Part>, x: Part, freq: Option<Freq>, r: Rule)
    requires Spells(parts, freq, r)
    ensures var (all, k) := (parts + [x], KindOf(x));
            && (k != Weekdays ==> r.byDay == AllWeekdays(all))
            && (k != Monthdays ==> MonthdaysSpelled(all, r.byMonthday))
            && (k != Months ==> MonthsSpelled(all, r.byMonth))
  {
    hide IsLast, Lacks, AllWeekdays;
    OneMoreWeekdays(parts, x);
    OneMore(parts, x);
  }

  lemma ReadOneMore(d: Draft, parts: seq<Part>, x: Part)
    requires Spells(parts, d.freq, d.rule) && ReadPart(d, x).Ok?
    ensures var d' := ReadPart(d, x).value; Spells(parts + [x], d'.freq, d'.rule)
  {
    hide IsLast, Lacks, AllWeekdays;
    OthersStay(parts, x, d.freq, d.rule);
    OneMoreWeekdays(parts, x);
    assert IsLast(parts + [x], x) by { OneMore(parts, x); }
  }

  lemma {:induction false} ReadsSpelled(parts: seq<Part>)
    ensures ReadParts(EMPTY, parts).Ok? <==> forall i | 0 <= i < |parts| :: Sound(parts[i])
    ensures ReadParts(EMPTY, parts).Ok? ==>
              var d := ReadParts(EMPTY, parts).value; Spells(parts, d.freq, d.rule)
    decreases |parts|
  {
    hide Spells;
    if parts == [] {
      NothingSpelled();
    } else {
      var (front, x) := (parts[..|parts| - 1], parts[|parts| - 1]);
      assert parts == front + [x];
      ReadsSpelled(front);
      if ReadParts(EMPTY, front).Ok? {
        ReadConcat(EMPTY, front, [x]);
        var d := ReadParts(EMPTY, front).value;
        assert ReadParts(d, [x]) == ReadPart(d, x);
        if ReadPart(d, x).Ok? {
          ReadOneMore(d, front, x);
        }
      } else {
        ReadFails(EMPTY, front, [x]);
      }
    }
  }

  lemma NothingSpelled()
    ensures Spells([], None, EMPTY.rule)
  {
  }

  lemma {:induction false} ReadFails(d: Draft, a: seq<Part>, b: seq<Part>)
    requires ReadParts(d, a).Err?
    ensures ReadParts(d, a + b).Err?
    decreases a
  {
    assert (a + b)[1..] == a[1..] + b;
    if ReadPart(d, a[0]).Ok? {
      ReadFails(ReadPart(d, a[0]).value, a[1..], b);
    }
  }

  /** A text is accepted exactly if every part is sound and FREQ is among them, and the rule is the
    * one the parts spell. */
  lemma ParsedExactly(parts: seq<Part>)
    ensures Parse(parts).Ok? <==>
            && (forall i | 0 <= i < |parts| :: Sound(parts[i]))
            && exists i | 0 <= i < |parts| :: parts[i].FreqPart?
    ensures Parse(parts).Ok? ==> var r := Parse(parts).value; Spells(parts, Some(r.freq), r)
  {
    ReadsSpelled(parts);
    if ReadParts(EMPTY, parts).Ok? {
      FreqGiven(parts, ReadParts(EMPTY, parts).value);
    }
  }

  lemma FreqGiven(parts: seq<Part>, d: Draft)
    requires Spells(parts, d.freq, d.rule)
    ensures d.freq.Some? <==> exists i | 0 <= i < |parts| :: parts[i].FreqPart?
    ensures d.freq.Some? ==> Spells(parts, d.freq, d.rule.(freq := d.freq.value))
  {
    if d.freq.Some? {
      assert IsLast(parts, FreqPart(d.freq.value));
    } else {
      assert Lacks(parts, Frequency);
    }
  }
}
