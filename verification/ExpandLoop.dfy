/** expand_rrule as the loop the repository runs. */
module ExpandLoop {
  import opened Wrappers
  import opened Civil
  import opened Zones
  import opened Divides
  import opened Recurrence
  import opened RecurrenceDates
  import opened Expand

  /** The until and count checks on one candidate; go is false when iteration stops. */
  method Accept(rule: Rule, zone: Zone, candidate: Wall, out: seq<Wall>, emitted: nat)
    returns (go: bool, out': seq<Wall>, emitted': nat)
    ensures !Admits(rule, zone, candidate) ==> !go && out' == out && emitted' == emitted
    ensures Admits(rule, zone, candidate) ==>
              out' == out + [candidate] && emitted' == emitted + 1 && go == !CountReached(rule, emitted + 1)
  {
    out', emitted' := out, emitted;
    if rule.untilInstant.Some? {
      var instant := FromLocal(zone, candidate);
      if instant == None || rule.untilInstant.value < instant.value {
        return false, out', emitted';
      }
    }
    if rule.untilDate.Some? && rule.untilDate.value < DateOf(candidate) {
      return false, out', emitted';
    }
    emitted' := emitted + 1;
    out' := out + [candidate];
    go := rule.count == None || emitted' < rule.count.value;
  }

  /** goal is what out becomes once the candidates ds have been visited. */
  ghost predicate Pending(
    rule: Rule, zone: Zone, time: nat, window: Wall, ds: seq<Date>, out: seq<Wall>, emitted: nat, goal: seq<Wall>)
  {
    goal == out + Take(rule, zone, time, window, ds, emitted)
  }

  /** One period's candidates: done is set when the expansion returns from inside the period. */
  method VisitDates(
    rule: Rule, zone: Zone, time: nat, window: Wall, dates: seq<Date>, ghost later: seq<Date>,
    out: seq<Wall>, emitted: nat, ghost goal: seq<Wall>)
    returns (done: bool, out': seq<Wall>, emitted': nat)
    requires Pending(rule, zone, time, window, dates + later, out, emitted, goal)
    ensures if done then out' == goal else Pending(rule, zone, time, window, later, out', emitted', goal)
  {
    out', emitted' := out, emitted;
    for i := 0 to |dates|
      invariant Pending(rule, zone, time, window, dates[i..] + later, out', emitted', goal)
    {
      var candidate := At(dates[i], time);
      assert (dates[i..] + later)[1..] == dates[i + 1..] + later;
      if window < candidate {
        return true, out', emitted';
      }
      var go;
      go, out', emitted' := Accept(rule, zone, candidate, out', emitted');
      if !go {
        return true, out', emitted';
      }
    }
    assert dates[|dates|..] + later == later;
    done := false;
  }

  /** Once a period starts beyond the window nothing more is emitted. */
  lemma LateStream(rule: Rule, anchor: Wall, zone: Zone, window: Wall, k: nat, emitted: nat, first: Date)
    requires rule.Valid() && 1 <= k && window < At(first, TimeOf(anchor))
    requires forall d: Date | Unit(rule, k) <= Distance(rule, DateOf(anchor), d) :: first <= d
    ensures Take(rule, zone, TimeOf(anchor), window, Stream(rule, DateOf(anchor), k, STEP_CAP), emitted) == []
  {
    hide Stream, Rule.Valid, At;
    var ds := Stream(rule, DateOf(anchor), k, STEP_CAP);
    if ds != [] {
      StreamExact(rule, DateOf(anchor), k, STEP_CAP, ds[0]);
      AtOrder(ds[0], first, TimeOf(anchor));
    }
  }

  lemma DayStep(rule: Rule, a: Date, k: nat)
    requires rule.Valid() && (rule.freq.Daily? || rule.freq.Weekly?) && 1 <= k <= STEP_CAP
    ensures Stream(rule, a, k, STEP_CAP) ==
            if DayPasses(rule, a, a + k) then [a + k] + Stream(rule, a, k + 1, STEP_CAP)
            else Stream(rule, a, k + 1, STEP_CAP)
  {
  }

  method ExpandDays(rule: Rule, anchor: Wall, zone: Zone, window: Wall, out: seq<Wall>, emitted: nat,
      ghost goal: seq<Wall>)
    returns (out': seq<Wall>)
    requires rule.Valid() && (rule.freq.Daily? || rule.freq.Weekly?)
    requires Pending(rule, zone, TimeOf(anchor), window, Stream(rule, DateOf(anchor), 1, STEP_CAP), out, emitted, goal)
    ensures out' == goal
  {
    hide Stream, DayPasses, At, Admits, CountReached;
    out' := out;
    var time, emitted', steps := TimeOf(anchor), emitted, 0;
    var a, day := DateOf(anchor), DateOf(anchor);
    while true
      invariant steps <= STEP_CAP && day == a + steps
      invariant Pending(rule, zone, time, window, Stream(rule, a, steps + 1, STEP_CAP), out', emitted', goal)
      decreases STEP_CAP - steps
    {
      steps := steps + 1;
      if STEP_CAP < steps {
        StreamEnd(rule, a);
        return;
      }
      day := day + 1;
      var candidate := At(day, time);
      if window < candidate {
        LateStream(rule, anchor, zone, window, steps, emitted', day);
        return;
      }
      DayStep(rule, a, steps);
      if DayPasses(rule, a, day) {
        assert Stream(rule, a, steps, STEP_CAP)[1..] == Stream(rule, a, steps + 1, STEP_CAP);
        var go;
        go, out', emitted' := Accept(rule, zone, candidate, out', emitted');
        if !go {
          return;
        }
      }
    }
  }

  lemma StreamEnd(rule: Rule, a: Date)
    requires rule.Valid()
    ensures Stream(rule, a, STEP_CAP + 1, STEP_CAP) == []
  {
  }

  lemma NextStride(rule: Rule, k: nat)
    ensures Stride(rule, k + 1) == Stride(rule, k) + rule.interval
  {
  }

  lemma MonthStep(rule: Rule, a: Date, k: nat, m: YearMonth)
    requires rule.Valid() && rule.freq.Monthly? && 1 <= k <= STEP_CAP
    requires m.Valid() && m.Index() == MonthOf(a).Index() + Stride(rule, k)
    ensures Stream(rule, a, k, STEP_CAP) ==
            if rule.byMonth != [] && m.month !in rule.byMonth then Stream(rule, a, k + 1, STEP_CAP)
            else MonthDates(rule, m, DayOfMonth(a)) + Stream(rule, a, k + 1, STEP_CAP)
  {
    hide MonthDates, Stride, Stream, MonthStart, DayOfMonth;
    SameIndex(m, MonthByIndex(MonthOf(a).Index() + Stride(rule, k)));
    StreamStep(rule, a, k);
  }

  lemma StreamStep(rule: Rule, a: Date, k: nat)
    requires rule.Valid() && 1 <= k <= STEP_CAP
    ensures Stream(rule, a, k, STEP_CAP) == PeriodDates(rule, a, k) + Stream(rule, a, k + 1, STEP_CAP)
  {
  }

  function YearStart(year: nat): Date
    requires 1 <= year
  {
    YearMonth(year, 1).Start()
  }

  lemma YearStartBounds(year: nat, d: Date)
    requires 1 <= year
    ensures year <= MonthOf(d).year <==> YearStart(year) <= d
  {
    hide MonthStart;
    var first := YearMonth(year, 1);
    var m := MonthOf(d);
    if year <= m.year {
      if first != m {
        StartMonotone(first, m);
        StartOfNext(first);
      }
    } else {
      StartMonotone(m, first);
    }
  }

  lemma BeyondWindow(window: Wall, d: Date, time: nat)
    requires DateOf(window) < d
    ensures window < At(d, time)
  {
  }

  /** Nothing is emitted from the periods that lie in a year after the window's. */
  lemma LateYears(rule: Rule, anchor: Wall, zone: Zone, window: Wall, k: nat, emitted: nat)
    requires rule.Valid() && 1 <= k
    requires rule.freq.Monthly? ==>
               12 * (MonthOf(DateOf(window)).year + 1) <= MonthOf(DateOf(anchor)).Index() + Stride(rule, k)
    requires rule.freq.Yearly? ==> MonthOf(DateOf(window)).year < MonthOf(DateOf(anchor)).year + Stride(rule, k)
    requires rule.freq.Monthly? || rule.freq.Yearly?
    ensures Take(rule, zone, TimeOf(anchor), window, Stream(rule, DateOf(anchor), k, STEP_CAP), emitted) == []
  {
    hide Stream, Take, Stride;
    var year := MonthOf(DateOf(window)).year + 1;
    YearStartBounds(year, DateOf(window));
    BeyondWindow(window, YearStart(year), TimeOf(anchor));
    forall d: Date | Unit(rule, k) <= Distance(rule, DateOf(anchor), d) ensures YearStart(year) <= d {
      YearStartBounds(year, d);
    }
    LateStream(rule, anchor, zone, window, k, emitted, YearStart(year));
  }

  method ExpandMonths(rule: Rule, anchor: Wall, zone: Zone, window: Wall, out: seq<Wall>, emitted: nat,
      ghost goal: seq<Wall>)
    returns (out': seq<Wall>)
    requires rule.Valid() && rule.freq.Monthly?
    requires Pending(rule, zone, TimeOf(anchor), window, Stream(rule, DateOf(anchor), 1, STEP_CAP), out, emitted, goal)
    ensures out' == goal
  {
    hide Stream, MonthDates, Stride, Take, MonthStart, DateOf, TimeOf, DayOfMonth;
    out' := out;
    var time, emitted', steps := TimeOf(anchor), emitted, 0;
    var a, windowYear := DateOf(anchor), MonthOf(DateOf(window)).year;
    var index := 12 * MonthOf(a).year + MonthOf(a).month - 1;
    NoStride(rule);
    while true
      invariant steps <= STEP_CAP && index == MonthOf(a).Index() + Stride(rule, steps)
      invariant Pending(rule, zone, time, window, Stream(rule, a, steps + 1, STEP_CAP), out', emitted', goal)
      decreases STEP_CAP - steps
    {
      steps := steps + 1;
      if STEP_CAP < steps {
        StreamEnd(rule, a);
        NothingToTake(rule, zone, time, window, emitted');
        return;
      }
      NextStride(rule, steps - 1);
      index := index + rule.interval;
      var m := MonthByIndex(index);
      if windowYear + 1 < m.year {
        LateYears(rule, anchor, zone, window, steps, emitted');
        return;
      }
      MonthStep(rule, a, steps, m);
      if rule.byMonth != [] && m.month !in rule.byMonth {
        continue;
      }
      var dates := CollectMonthDates(rule, m, DayOfMonth(a));
      var done;
      done, out', emitted' :=
        VisitDates(rule, zone, time, window, dates, Stream(rule, a, steps + 1, STEP_CAP), out', emitted', goal);
      if done {
        return;
      }
      if windowYear < m.year {
        NextStride(rule, steps);
        LateYears(rule, anchor, zone, window, steps + 1, emitted');
        return;
      }
    }
  }

  lemma NoStride(rule: Rule)
    ensures Stride(rule, 0) == 0
  {
  }

  lemma NothingToTake(rule: Rule, zone: Zone, time: nat, window: Wall, emitted: nat)
    ensures Take(rule, zone, time, window, [], emitted) == []
  {
  }

  method VisitYear(
    rule: Rule, anchor: Wall, zone: Zone, window: Wall, year: nat, ghost later: seq<Date>,
    out: seq<Wall>, emitted: nat, ghost goal: seq<Wall>)
    returns (done: bool, out': seq<Wall>, emitted': nat)
    requires rule.Valid() && 1 <= year
    requires Pending(rule, zone, TimeOf(anchor), window,
               YearDates(rule, year, YearMonths(rule, DateOf(anchor)), DayOfMonth(DateOf(anchor))) + later,
               out, emitted, goal)
    ensures if done then out' == goal else Pending(rule, zone, TimeOf(anchor), window, later, out', emitted', goal)
  {
    hide MonthDates, Take;
    out', emitted' := out, emitted;
    var months, anchorDay := YearMonths(rule, DateOf(anchor)), DayOfMonth(DateOf(anchor));
    for i := 0 to |months|
      invariant Pending(rule, zone, TimeOf(anchor), window,
                  YearDates(rule, year, months[i..], anchorDay) + later, out', emitted', goal)
    {
      var dates := CollectMonthDates(rule, YearMonth(year, months[i]), anchorDay);
      ghost var rest := YearDates(rule, year, months[i + 1..], anchorDay) + later;
      assert months[i..][1..] == months[i + 1..];
      assert YearDates(rule, year, months[i..], anchorDay) + later == dates + rest;
      done, out', emitted' := VisitDates(rule, zone, TimeOf(anchor), window, dates, rest, out', emitted', goal);
      if done {
        return;
      }
    }
    assert YearDates(rule, year, months[|months|..], anchorDay) + later == later;
    done := false;
  }

  method ExpandYears(rule: Rule, anchor: Wall, zone: Zone, window: Wall, out: seq<Wall>, emitted: nat,
      ghost goal: seq<Wall>)
    returns (out': seq<Wall>)
    requires rule.Valid() && rule.freq.Yearly?
    requires Pending(rule, zone, TimeOf(anchor), window, Stream(rule, DateOf(anchor), 1, STEP_CAP), out, emitted, goal)
    ensures out' == goal
  {
    hide Stream, YearDates, YearMonths, Stride, Take, MonthStart, DateOf, TimeOf, DayOfMonth;
    out' := out;
    var time, emitted', steps := TimeOf(anchor), emitted, 0;
    var a, windowYear := DateOf(anchor), MonthOf(DateOf(window)).year;
    var year := MonthOf(a).year;
    NoStride(rule);
    while true
      invariant steps <= STEP_CAP && year == MonthOf(a).year + Stride(rule, steps)
      invariant Pending(rule, zone, time, window, Stream(rule, a, steps + 1, STEP_CAP), out', emitted', goal)
      decreases STEP_CAP - steps
    {
      steps := steps + 1;
      if STEP_CAP < steps {
        StreamEnd(rule, a);
        NothingToTake(rule, zone, time, window, emitted');
        return;
      }
      NextStride(rule, steps - 1);
      year := year + rule.interval;
      if windowYear < year {
        LateYears(rule, anchor, zone, window, steps, emitted');
        return;
      }
      YearStep(rule, a, steps, year);
      var done;
      done, out', emitted' :=
        VisitYear(rule, anchor, zone, window, year, Stream(rule, a, steps + 1, STEP_CAP), out', emitted', goal);
      if done {
        return;
      }
    }
  }

  lemma YearStep(rule: Rule, a: Date, k: nat, year: nat)
    requires rule.Valid() && rule.freq.Yearly? && 1 <= k <= STEP_CAP && year == MonthOf(a).year + Stride(rule, k)
    ensures Stream(rule, a, k, STEP_CAP) ==
            YearDates(rule, year, YearMonths(rule, a), DayOfMonth(a)) + Stream(rule, a, k + 1, STEP_CAP)
  {
    hide YearDates, YearMonths, Stride, Stream, MonthStart, DayOfMonth;
    StreamStep(rule, a, k);
  }

  /** expand_rrule. */
  method ExpandRRule(rule: Rule, anchor: Wall, zone: Zone, window: Wall) returns (out: seq<Wall>)
    requires rule.Valid()
    ensures out == Expansion(rule, anchor, zone, window, 200_000)
  {
    hide Stream, Take, Rule.Valid;
    out := [];
    var emitted := 0;
    if anchor <= window && rule.untilInstant == None && rule.untilDate == None {
      out := out + [anchor];
      emitted := emitted + 1;
      if rule.count == Some(1) {
        return;
      }
    } else if anchor <= window {
      var fits := true;
      if rule.untilInstant.Some? {
        var instant := FromLocal(zone, anchor);
        fits := instant == None || instant.value <= rule.untilInstant.value;
      }
      if fits {
        out := out + [anchor];
        emitted := emitted + 1;
        if rule.count.Some? && rule.count.value <= 1 {
          return;
        }
      }
    }
    ghost var goal := Expansion(rule, anchor, zone, window, STEP_CAP);
    match rule.freq {
      case Daily | Weekly => out := ExpandDays(rule, anchor, zone, window, out, emitted, goal);
      case Monthly => out := ExpandMonths(rule, anchor, zone, window, out, emitted, goal);
      case Yearly => out := ExpandYears(rule, anchor, zone, window, out, emitted, goal);
    }
  }
}
