/** "This and following": a series cut at its k-th occurrence loses nothing
  * and repeats nothing, and when it does. */
module SeriesSplit {
  import opened Wrappers
  import opened Civil
  import opened Zones
  import opened Divides
  import opened Recurrence
  import opened RecurrenceDates
  import opened Expand
  import opened ExpandLimits
  import opened Ordered

  predicate PositiveCount(rule: Rule) { rule.count.Some? ==> 1 <= rule.count.value }

  // ----- IsExpansion determines the sequence -----

  lemma ExpansionIncluded(
    rule: Rule, anchor: Wall, zone: Zone, window: Wall, cap: nat, s: seq<Wall>, t: seq<Wall>, x: Wall)
    requires rule.Valid() && PositiveCount(rule)
    requires IsExpansion(rule, anchor, zone, window, cap, s) && IsExpansion(rule, anchor, zone, window, cap, t)
    requires x in s
    ensures x in t
  {
    hide Rule.Valid, Occurs, Admits, WithinCap, StartsWithAnchor;
    if x !in t {
      forall v: Wall | v <= x && Occurs(rule, anchor, v) ensures Admits(rule, zone, v) {
        OccursLater(rule, anchor, v);
        assert v in s;
      }
      assert CountReached(rule, |t|);
      forall y | y in t ensures y in s {
        if y != anchor && x < y {
          assert false;
        }
      }
      ShorterWithout(s, t, x);
    }
  }

  lemma ExpansionUnique(rule: Rule, anchor: Wall, zone: Zone, window: Wall, cap: nat, s: seq<Wall>, t: seq<Wall>)
    requires rule.Valid() && PositiveCount(rule)
    requires IsExpansion(rule, anchor, zone, window, cap, s) && IsExpansion(rule, anchor, zone, window, cap, t)
    ensures s == t
  {
    hide Rule.Valid, Occurs, Admits, WithinCap, StartsWithAnchor;
    forall x ensures x in s <==> x in t {
      if x in s {
        ExpansionIncluded(rule, anchor, zone, window, cap, s, t, x);
      }
      if x in t {
        ExpansionIncluded(rule, anchor, zone, window, cap, t, s, x);
      }
    }
    AscendingUnique(s, t);
  }

  // ----- re-anchoring -----

  /** The rule with COUNT lowered by the k occurrences already past. */
  function Continued(rule: Rule, k: nat): (c: Rule)
    ensures rule.Valid() ==> c.Valid()
  {
    rule.(count := if rule.count.Some? && k <= rule.count.value then Some(rule.count.value - k) else rule.count)
  }

  /** From one of its own occurrences on, a rule has the dates of the later periods. */
  lemma ReanchorDay(rule: Rule, k: nat, a: Date, b: Date, d: Date)
    requires rule.Valid() && (rule.freq.Daily? || rule.freq.Weekly?) && Matches(rule, a, b)
    ensures Matches(Continued(rule, k), b, d) <==> Matches(rule, a, d) && b < d
  {
    hide Multiple, MatchesMonthday, HasWeekday, Weekday, WeekIndex, MonthStart;
    if b < d {
      if rule.freq.Weekly? {
        DividesDifference(WeekIndex(d) - WeekIndex(a), WeekIndex(b) - WeekIndex(a), rule.interval);
      } else {
        DividesDifference(d - a, b - a, rule.interval);
      }
    }
  }

  lemma SameDayTest(rule: Rule, k: nat, a: Date, b: Date, d: Date)
    requires MatchesInMonth(rule, b, DayOfMonth(a))
    ensures MatchesInMonth(Continued(rule, k), d, DayOfMonth(b)) <==> MatchesInMonth(rule, d, DayOfMonth(a))
  {
  }

  lemma ReanchorMonth(rule: Rule, k: nat, a: Date, b: Date, d: Date)
    requires rule.Valid() && rule.freq.Monthly? && Matches(rule, a, b)
    ensures Matches(Continued(rule, k), b, d) <==>
            Matches(rule, a, d) && Distance(rule, a, b) < Distance(rule, a, d)
  {
    hide Multiple, MatchesInMonth, MonthStart;
    SameDayTest(rule, k, a, b, d);
    DividesDifference(Distance(rule, a, d), Distance(rule, a, b), rule.interval);
  }

  lemma ReanchorYear(rule: Rule, k: nat, a: Date, b: Date, d: Date)
    requires rule.Valid() && rule.freq.Yearly? && Matches(rule, a, b)
    ensures Matches(Continued(rule, k), b, d) <==>
            Matches(rule, a, d) && Distance(rule, a, b) < Distance(rule, a, d)
  {
    hide Multiple, MatchesInMonth, MonthStart;
    SameDayTest(rule, k, a, b, d);
    DividesDifference(Distance(rule, a, d), Distance(rule, a, b), rule.interval);
  }

  lemma Reanchor(rule: Rule, k: nat, a: Date, b: Date, d: Date)
    requires rule.Valid() && Matches(rule, a, b)
    ensures Matches(Continued(rule, k), b, d) <==>
            Matches(rule, a, d) && Distance(rule, a, b) < Distance(rule, a, d)
    ensures Distance(rule, b, d) == Distance(rule, a, d) - Distance(rule, a, b)
  {
    hide Matches;
    match rule.freq {
      case Daily | Weekly => ReanchorDay(rule, k, a, b, d);
      case Monthly => ReanchorMonth(rule, k, a, b, d);
      case Yearly => ReanchorYear(rule, k, a, b, d);
    }
  }

  predicate SamePeriod(rule: Rule, anchor: Wall, v: Wall, w: Wall) {
    Distance(rule, DateOf(anchor), DateOf(v)) == Distance(rule, DateOf(anchor), DateOf(w))
  }

  /** The window ends before the step cap does. */
  predicate CapCovers(rule: Rule, anchor: Wall, window: Wall, cap: nat) {
    WithinCap(rule, anchor, cap, window)
  }

  /** An UNTIL instant, once passed, stays passed. */
  ghost predicate UntilMonotone(rule: Rule, zone: Zone) {
    rule.untilInstant.Some? ==> NarrowSpread(zone) && forall w :: FromLocal(zone, w).Some?
  }

  lemma DistanceMonotone(rule: Rule, anchor: Wall, v: Wall, w: Wall)
    requires v <= w
    ensures Distance(rule, DateOf(anchor), DateOf(v)) <= Distance(rule, DateOf(anchor), DateOf(w))
  {
    hide Distance;
    if Distance(rule, DateOf(anchor), DateOf(w)) < Distance(rule, DateOf(anchor), DateOf(v)) {
      DistanceOrders(rule, DateOf(anchor), DateOf(w), DateOf(v));
    }
  }

  lemma ReanchorWall(rule: Rule, k: nat, anchor: Wall, b: Wall, w: Wall)
    requires rule.Valid() && Occurs(rule, anchor, b)
    ensures Occurs(Continued(rule, k), b, w) <==>
            Occurs(rule, anchor, w) &&
            Distance(rule, DateOf(anchor), DateOf(b)) < Distance(rule, DateOf(anchor), DateOf(w))
    ensures Distance(rule, DateOf(b), DateOf(w)) ==
            Distance(rule, DateOf(anchor), DateOf(w)) - Distance(rule, DateOf(anchor), DateOf(b))
  {
    hide Matches, Distance;
    Reanchor(rule, k, DateOf(anchor), DateOf(b), DateOf(w));
  }

  /** Once one occurrence fails UNTIL every later one does. */
  lemma UntilStaysPassed(rule: Rule, zone: Zone, v: Wall, w: Wall)
    requires UntilMonotone(rule, zone) && !Admits(rule, zone, v)
    requires TimeOf(v) == TimeOf(w) && v < w
    ensures !Admits(rule, zone, w)
  {
    hide FromLocal;
    ADayApart(v, w);
    if rule.untilInstant.Some? {
      ResolveKeepsDayOrder(zone, v, w);
    }
  }

  // ----- rules with at most one candidate per period -----

  predicate OneDate(rule: Rule) {
    if rule.byMonthday != [] then |rule.byMonthday| == 1
    else rule.byDay != [] ==> |rule.byDay| == 1 && rule.byDay[0].ordinal.Some?
  }

  predicate OnePerPeriod(rule: Rule) {
    || rule.freq.Daily?
    || rule.freq.Weekly?
    || (OneDate(rule) && (rule.freq.Yearly? ==> |rule.byMonth| <= 1))
  }

  lemma SameMonthDate(rule: Rule, anchorDay: nat, d: Date, e: Date)
    requires OneDate(rule) && MonthOf(d) == MonthOf(e)
    requires MatchesInMonth(rule, d, anchorDay) && MatchesInMonth(rule, e, anchorDay)
    ensures d == e
  {
    hide MonthStart, MonthLength, Leap, MatchesByDay;
    if rule.byMonthday == [] && rule.byDay != [] {
      assert MatchesByDay(rule.byDay[0], d) && MatchesByDay(rule.byDay[0], e);
      SameByDay(rule.byDay[0], d, e);
    } else {
      assert DayOfMonth(d) == DayOfMonth(e);
    }
  }

  lemma SameByDay(b: ByDay, d: Date, e: Date)
    requires b.ordinal.Some? && MonthOf(d) == MonthOf(e) && MatchesByDay(b, d) && MatchesByDay(b, e)
    ensures d == e
  {
    hide MonthStart, IsNthWeekday, NthWeekdayOfMonth;
    NthWeekdayClosedForm(MonthOf(d), b.weekday, b.ordinal.value, d);
    NthWeekdayClosedForm(MonthOf(d), b.weekday, b.ordinal.value, e);
  }

  lemma SamePeriodSameMonth(rule: Rule, a: Date, d: Date, e: Date)
    requires rule.Valid() && (rule.freq.Monthly? || rule.freq.Yearly?) && (rule.freq.Yearly? ==> |rule.byMonth| <= 1)
    requires Matches(rule, a, d) && Matches(rule, a, e) && Distance(rule, a, d) == Distance(rule, a, e)
    ensures MonthOf(d) == MonthOf(e)
    ensures MatchesInMonth(rule, d, DayOfMonth(a)) && MatchesInMonth(rule, e, DayOfMonth(a))
  {
    hide MatchesInMonth, DayPasses, Multiple, MonthStart;
    SameIndex(MonthOf(d), MonthOf(e));
  }

  lemma OnePerPeriodDistinct(rule: Rule, anchor: Wall, v: Wall, w: Wall)
    requires rule.Valid() && OnePerPeriod(rule) && Occurs(rule, anchor, v) && Occurs(rule, anchor, w)
    requires SamePeriod(rule, anchor, v, w)
    ensures v == w
  {
    hide MatchesInMonth, OneDate, Matches, MonthStart;
    WallParts(v);
    WallParts(w);
    if rule.freq.Monthly? || rule.freq.Yearly? {
      SamePeriodSameMonth(rule, DateOf(anchor), DateOf(v), DateOf(w));
      SameMonthDate(rule, DayOfMonth(DateOf(anchor)), DateOf(v), DateOf(w));
    }
  }

  // ----- the continuation -----

  /** What splitting s at k requires and names: b is the k-th occurrence. */
  ghost predicate SplitPoint(
    rule: Rule, anchor: Wall, zone: Zone, window: Wall, cap: nat, s: seq<Wall>, k: nat, b: Wall)
  {
    && rule.Valid() && PositiveCount(rule)
    && IsExpansion(rule, anchor, zone, window, cap, s)
    && 1 <= k < |s| && b == s[k]
  }

  lemma SplitPointOccurs(
    rule: Rule, anchor: Wall, zone: Zone, window: Wall, cap: nat, s: seq<Wall>, k: nat, b: Wall)
    requires SplitPoint(rule, anchor, zone, window, cap, s, k, b)
    ensures anchor < b && Occurs(rule, anchor, b) && b <= window && Admits(rule, zone, b)
    ensures WithinCap(rule, anchor, cap, b)
  {
    hide Rule.Valid, Occurs, Admits, WithinCap, StartsWithAnchor;
    assert s[0] in s && s[k] in s;
    if s[0] != anchor {
      OccursLater(rule, anchor, s[0]);
    }
  }

  /** Every occurrence up to the split point and before it is in s. */
  lemma BeforeSplit(
    rule: Rule, anchor: Wall, zone: Zone, window: Wall, cap: nat, s: seq<Wall>, k: nat, b: Wall, v: Wall)
    requires SplitPoint(rule, anchor, zone, window, cap, s, k, b)
    requires Occurs(rule, anchor, v) && v <= b
    ensures v in s && Admits(rule, zone, v)
  {
    hide Rule.Valid, Occurs, Admits, WithinCap, StartsWithAnchor;
    OccursLater(rule, anchor, v);
    assert b in s;
  }

  /** w passes every cut of the continuation at b. */
  ghost predicate PassesCuts(rule: Rule, zone: Zone, window: Wall, cap: nat, k: nat, b: Wall, w: Wall)
    requires rule.Valid()
  {
    var c := Continued(rule, k);
    Occurs(c, b, w) && w <= window && WithinCap(c, b, cap, w) && AdmittedThrough(c, b, zone, w)
  }

  /** Where s ends, not by COUNT, the continuation goes on. */
  ghost predicate Resumes(rule: Rule, zone: Zone, window: Wall, cap: nat, s: seq<Wall>, k: nat)
    requires rule.Valid() && k < |s|
  {
    !CountReached(rule, |s|) && exists w: Wall :: s[|s| - 1] < w && PassesCuts(rule, zone, window, cap, k, s[k], w)
  }

  /** An occurrence of the continuation that passes every cut is in s, unless COUNT ended s or the
    * continuation resumes. */
  lemma ContinuationComplete(
    rule: Rule, anchor: Wall, zone: Zone, window: Wall, cap: nat, s: seq<Wall>, k: nat, b: Wall, w: Wall)
    requires SplitPoint(rule, anchor, zone, window, cap, s, k, b) && !Resumes(rule, zone, window, cap, s, k)
    requires PassesCuts(rule, zone, window, cap, k, b, w)
    ensures w in s || CountReached(rule, |s|)
  {
    hide Rule.Valid, Matches, Distance, Admits, FromLocal, WithinCap, AdmittedThrough, StartsWithAnchor;
    SplitPointOccurs(rule, anchor, zone, window, cap, s, k, b);
    ReanchorWall(rule, k, anchor, b, w);
    if w <= s[|s| - 1] {
      assert s[|s| - 1] in s;
    }
  }

  lemma TailMember(s: seq<Wall>, k: nat, w: Wall)
    requires Ascending(s) && k < |s|
    ensures w in s[k..] <==> w in s && s[k] <= w
  {
    if w in s {
      var i :| 0 <= i < |s| && s[i] == w;
      if k <= i {
        assert s[k..][i - k] == w;
      }
    }
  }

  /** An occurrence of s after b lies in a later period when its successor does. */
  lemma LaterPeriod(
    rule: Rule, anchor: Wall, zone: Zone, window: Wall, cap: nat, s: seq<Wall>, k: nat, b: Wall, w: Wall)
    requires SplitPoint(rule, anchor, zone, window, cap, s, k, b)
    requires k + 1 < |s| && !SamePeriod(rule, anchor, b, s[k + 1])
    requires w in s && b < w
    ensures Occurs(rule, anchor, w)
    ensures Distance(rule, DateOf(anchor), DateOf(b)) < Distance(rule, DateOf(anchor), DateOf(w))
  {
    hide Rule.Valid, Occurs, Distance, Admits, WithinCap, StartsWithAnchor;
    SplitPointOccurs(rule, anchor, zone, window, cap, s, k, b);
    var i :| 0 <= i < |s| && s[i] == w;
    DistanceMonotone(rule, anchor, b, s[k + 1]);
    DistanceMonotone(rule, anchor, s[k + 1], w);
  }

  lemma TailIsExpansion(
    rule: Rule, anchor: Wall, zone: Zone, window: Wall, cap: nat, s: seq<Wall>, k: nat, b: Wall)
    requires SplitPoint(rule, anchor, zone, window, cap, s, k, b)
    requires k + 1 < |s| ==> !SamePeriod(rule, anchor, b, s[k + 1])
    requires !Resumes(rule, zone, window, cap, s, k)
    ensures IsExpansion(Continued(rule, k), b, zone, window, cap, s[k..])
  {
    hide Rule.Valid, Matches, Distance, Admits, FromLocal, Resumes;
    var c, t := Continued(rule, k), s[k..];
    SplitPointOccurs(rule, anchor, zone, window, cap, s, k, b);
    forall w ensures w in t <==> w in s && b <= w {
      if 0 <= w {
        TailMember(s, k, w);
      }
    }
    assert t[0] == b;
    forall w | w in t && w != b
      ensures Occurs(c, b, w) && w <= window && Admits(c, zone, w) && WithinCap(c, b, cap, w)
    {
      TailClause(rule, anchor, zone, window, cap, s, k, b, w);
    }
    forall v: Wall, w | Occurs(c, b, v) && w in t && v < w ensures v in t {
      ReanchorWall(rule, k, anchor, b, v);
      OccursLater(c, b, v);
    }
    forall w: Wall | Occurs(c, b, w) && w <= window && WithinCap(c, b, cap, w) && AdmittedThrough(c, b, zone, w)
      ensures w in t || CountReached(c, |t|)
    {
      OccursLater(c, b, w);
      ContinuationComplete(rule, anchor, zone, window, cap, s, k, b, w);
    }
    AdmitsSame(rule, k, zone, b);
    AdmittedAnchor(c, zone, b);
  }

  lemma AdmittedAnchor(rule: Rule, zone: Zone, w: Wall)
    requires Admits(rule, zone, w)
    ensures AdmitsAnchor(rule, zone, w)
  {
  }

  lemma AdmitsSame(rule: Rule, k: nat, zone: Zone, w: Wall)
    ensures Admits(Continued(rule, k), zone, w) <==> Admits(rule, zone, w)
  {
  }

  lemma TailClause(
    rule: Rule, anchor: Wall, zone: Zone, window: Wall, cap: nat, s: seq<Wall>, k: nat, b: Wall, w: Wall)
    requires SplitPoint(rule, anchor, zone, window, cap, s, k, b)
    requires k + 1 < |s| ==> !SamePeriod(rule, anchor, b, s[k + 1])
    requires w in s && b < w
    ensures Occurs(Continued(rule, k), b, w) && w <= window && Admits(Continued(rule, k), zone, w)
    ensures WithinCap(Continued(rule, k), b, cap, w)
  {
    hide Rule.Valid, Matches, Admits;
    var i :| 0 <= i < |s| && s[i] == w;
    SplitPointOccurs(rule, anchor, zone, window, cap, s, k, b);
    LaterPeriod(rule, anchor, zone, window, cap, s, k, b, w);
    ReanchorWall(rule, k, anchor, b, w);
    AdmitsSame(rule, k, zone, w);
    SameDistance(rule, k, b, w);
    DistanceMonotone(rule, anchor, anchor, b);
  }

  lemma SameDistance(rule: Rule, k: nat, b: Wall, w: Wall)
    ensures Distance(Continued(rule, k), DateOf(b), DateOf(w)) == Distance(rule, DateOf(b), DateOf(w))
  {
  }

  /** The continuation expands to exactly s[k..] exactly if s[k] is not followed by another
    * occurrence of its own period and the continuation does not resume where s ended. */
  lemma ContinuationExact(
    rule: Rule, anchor: Wall, zone: Zone, window: Wall, cap: nat, s: seq<Wall>, k: nat)
    requires rule.Valid() && Orderly(rule) && PositiveCount(rule)
    requires s == Expansion(rule, anchor, zone, window, cap) && 1 <= k < |s|
    ensures Expansion(Continued(rule, k), s[k], zone, window, cap) == s[k..] <==>
            !(k + 1 < |s| && SamePeriod(rule, anchor, s[k], s[k + 1])) && !Resumes(rule, zone, window, cap, s, k)
  {
    hide Expansion, Distance, IsExpansion, Resumes;
    var c, b := Continued(rule, k), s[k];
    ExpansionExact(rule, anchor, zone, window, cap);
    StillOrderly(rule, anchor, zone, window, cap, s, k);
    ExpansionExact(c, b, zone, window, cap);
    if k + 1 < |s| && SamePeriod(rule, anchor, b, s[k + 1]) {
      SplitInsidePeriodLoses(rule, anchor, zone, window, cap, s, k, b);
    } else if Resumes(rule, zone, window, cap, s, k) {
      ResumingAdds(rule, anchor, zone, window, cap, s, k, b);
    } else {
      TailIsExpansion(rule, anchor, zone, window, cap, s, k, b);
      ExpansionUnique(c, b, zone, window, cap, Expansion(c, b, zone, window, cap), s[k..]);
    }
  }

  lemma ResumingAdds(
    rule: Rule, anchor: Wall, zone: Zone, window: Wall, cap: nat, s: seq<Wall>, k: nat, b: Wall)
    requires SplitPoint(rule, anchor, zone, window, cap, s, k, b) && Resumes(rule, zone, window, cap, s, k)
    ensures Continued(rule, k).Valid() && !IsExpansion(Continued(rule, k), b, zone, window, cap, s[k..])
  {
    hide Rule.Valid, Occurs, Admits, WithinCap, AdmittedThrough, StartsWithAnchor;
    var w: Wall :| s[|s| - 1] < w && PassesCuts(rule, zone, window, cap, k, b, w);
    TailMember(s, k, w);
    forall i | 0 <= i < |s| ensures s[i] < w {
      assert s[i] <= s[|s| - 1];
    }
  }

  /** It does not resume if the window ends before the cap does and either UNTIL, once passed,
    * stays passed, or s goes on in a later period, or periods hold one candidate. */
  lemma NeverResumes(rule: Rule, anchor: Wall, zone: Zone, window: Wall, cap: nat, s: seq<Wall>, k: nat)
    requires k < |s| && SplitPoint(rule, anchor, zone, window, cap, s, k, s[k]) && CapCovers(rule, anchor, window, cap)
    requires || UntilMonotone(rule, zone)
             || (k + 1 < |s| && !SamePeriod(rule, anchor, s[k], s[k + 1]))
             || OnePerPeriod(rule)
    ensures !Resumes(rule, zone, window, cap, s, k)
  {
    hide Rule.Valid, Matches, Distance, Admits, FromLocal, UntilMonotone, OnePerPeriod, StartsWithAnchor, CapCovers;
    if w: Wall :| s[|s| - 1] < w && PassesCuts(rule, zone, window, cap, k, s[k], w) {
      SplitPointOccurs(rule, anchor, zone, window, cap, s, k, s[k]);
      ReanchorWall(rule, k, anchor, s[k], w);
      forall v: Wall | v <= w && Occurs(rule, anchor, v) ensures Admits(rule, zone, v) {
        AdmittedOnTheWay(rule, anchor, zone, window, cap, s, k, v, w);
      }
      WithinCovered(rule, anchor, window, cap, w);
      assert AdmittedThrough(rule, anchor, zone, w);
      forall i | 0 <= i < |s| ensures s[i] < w {
        assert s[i] <= s[|s| - 1];
      }
    }
  }

  lemma WithinCovered(rule: Rule, anchor: Wall, window: Wall, cap: nat, w: Wall)
    requires CapCovers(rule, anchor, window, cap) && w <= window
    ensures WithinCap(rule, anchor, cap, w)
  {
    DistanceMonotone(rule, anchor, w, window);
  }

  lemma AdmittedOnTheWay(
    rule: Rule, anchor: Wall, zone: Zone, window: Wall, cap: nat, s: seq<Wall>, k: nat, v: Wall, w: Wall)
    requires k < |s| && SplitPoint(rule, anchor, zone, window, cap, s, k, s[k])
    requires PassesCuts(rule, zone, window, cap, k, s[k], w) && v <= w && Occurs(rule, anchor, v)
    requires || UntilMonotone(rule, zone)
             || (k + 1 < |s| && !SamePeriod(rule, anchor, s[k], s[k + 1]))
             || OnePerPeriod(rule)
    ensures Admits(rule, zone, v)
  {
    hide Rule.Valid, Matches, Distance, Admits, FromLocal, UntilMonotone, OnePerPeriod, StartsWithAnchor, WithinCap;
    var b := s[k];
    SplitPointOccurs(rule, anchor, zone, window, cap, s, k, b);
    ReanchorWall(rule, k, anchor, b, v);
    ReanchorWall(rule, k, anchor, b, w);
    AdmitsSame(rule, k, zone, v);
    AdmitsSame(rule, k, zone, w);
    if v <= b {
      BeforeSplit(rule, anchor, zone, window, cap, s, k, b, v);
    } else {
      DistanceMonotone(rule, anchor, b, v);
      if SamePeriod(rule, anchor, b, v) {
        OwnPeriodAdmitted(rule, anchor, zone, window, cap, s, k, v, w);
      }
    }
  }

  /** Of b's own period nothing that UNTIL refuses lies between b and w. */
  lemma OwnPeriodAdmitted(
    rule: Rule, anchor: Wall, zone: Zone, window: Wall, cap: nat, s: seq<Wall>, k: nat, v: Wall, w: Wall)
    requires k < |s| && SplitPoint(rule, anchor, zone, window, cap, s, k, s[k])
    requires Occurs(rule, anchor, v) && Occurs(rule, anchor, w) && Admits(rule, zone, w) && s[k] < v <= w
    requires SamePeriod(rule, anchor, s[k], v)
    requires || UntilMonotone(rule, zone)
             || (k + 1 < |s| && !SamePeriod(rule, anchor, s[k], s[k + 1]))
             || OnePerPeriod(rule)
    ensures Admits(rule, zone, v)
  {
    hide Rule.Valid, Matches, Distance, Admits, FromLocal, UntilMonotone, OnePerPeriod, StartsWithAnchor, WithinCap;
    SplitPointOccurs(rule, anchor, zone, window, cap, s, k, s[k]);
    if OnePerPeriod(rule) {
      OnePerPeriodDistinct(rule, anchor, s[k], v);
    } else if UntilMonotone(rule, zone) {
      if v < w && !Admits(rule, zone, v) {
        UntilStaysPassed(rule, zone, v, w);
      }
    } else {
      if s[k + 1] <= v {
        DistanceMonotone(rule, anchor, s[k], s[k + 1]);
        DistanceMonotone(rule, anchor, s[k + 1], v);
      }
      assert s[k + 1] in s;
      NothingBetween(s, k, v);
    }
  }

  lemma NothingBetween(s: seq<Wall>, k: nat, v: Wall)
    requires Ascending(s) && k + 1 < |s|
    ensures v in s && s[k] < v ==> s[k + 1] <= v
  {
    if v in s {
      var i :| 0 <= i < |s| && s[i] == v;
    }
  }

  lemma StillOrderly(rule: Rule, anchor: Wall, zone: Zone, window: Wall, cap: nat, s: seq<Wall>, k: nat)
    requires rule.Valid() && Orderly(rule) && PositiveCount(rule) && IsExpansion(rule, anchor, zone, window, cap, s)
    requires 1 <= k < |s|
    ensures Continued(rule, k).Valid() && Orderly(Continued(rule, k)) && PositiveCount(Continued(rule, k))
  {
    hide Occurs, Admits, WithinCap, StartsWithAnchor, AdmittedThrough;
  }

  lemma SplitInsidePeriodLoses(
    rule: Rule, anchor: Wall, zone: Zone, window: Wall, cap: nat, s: seq<Wall>, k: nat, b: Wall)
    requires SplitPoint(rule, anchor, zone, window, cap, s, k, b)
    requires Continued(rule, k).Valid()
    requires k + 1 < |s| && SamePeriod(rule, anchor, b, s[k + 1])
    ensures !IsExpansion(Continued(rule, k), b, zone, window, cap, s[k..])
  {
    hide Rule.Valid, Matches, Distance, Admits;
    SplitPointOccurs(rule, anchor, zone, window, cap, s, k, b);
    ReanchorWall(rule, k, anchor, b, s[k + 1]);
    assert s[k..][1] == s[k + 1];
    assert s[k + 1] in s[k..];
  }

  /** For a rule with one candidate a period the continuation is exact up to the cap. */
  lemma ContinuationOfSparseRule(
    rule: Rule, anchor: Wall, zone: Zone, window: Wall, cap: nat, s: seq<Wall>, k: nat)
    requires rule.Valid() && Orderly(rule) && OnePerPeriod(rule) && PositiveCount(rule)
    requires s == Expansion(rule, anchor, zone, window, cap) && 1 <= k < |s|
    requires CapCovers(rule, anchor, window, cap)
    ensures Expansion(Continued(rule, k), s[k], zone, window, cap) == s[k..]
  {
    hide Expansion, Distance, CapCovers, Matches, Admits, AdmittedThrough, StartsWithAnchor, WithinCap, Resumes;
    ExpansionExact(rule, anchor, zone, window, cap);
    ContinuationExact(rule, anchor, zone, window, cap, s, k);
    NeverResumes(rule, anchor, zone, window, cap, s, k);
    if k + 1 < |s| && SamePeriod(rule, anchor, s[k], s[k + 1]) {
      SplitPointOccurs(rule, anchor, zone, window, cap, s, k, s[k]);
      assert s[k + 1] in s;
      OnePerPeriodDistinct(rule, anchor, s[k], s[k + 1]);
    }
  }

  // ----- truncation -----

  /** A start point as the API hands it over: an instant, or an all-day date. */
  datatype Point = Timed(at: int) | AllDay(date: Date)

  /** The UTC date of an instant; instants before year 1 are not modelled. */
  function UtcDate(at: int): Date { if at < 0 then 0 else DateOf(at) }

  /** Dropping the fraction of a second, as the compact UNTIL form does. */
  function WholeSecond(at: int): int { Seconds(at) * SECOND }

  /** The master's rule after truncate_rrule: COUNT becomes k if there was one,
    * otherwise UNTIL becomes the last kept occurrence. */
  function Truncated(rule: Rule, k: nat, last: Point, allDay: bool): Rule {
    if rule.count.Some? then rule.(count := Some(k), untilInstant := None, untilDate := None)
    else match last
      case AllDay(date) => rule.(untilInstant := None, untilDate := Some(date))
      case Timed(at) =>
        if allDay then rule.(untilInstant := None, untilDate := Some(UtcDate(at)))
        else rule.(untilInstant := Some(WholeSecond(at)), untilDate := None)
  }

  /** The last kept occurrence as a point; a timed one must resolve. */
  function LastPoint(zone: Zone, w: Wall, allDay: bool): Point
    requires allDay || FromLocal(zone, w).Some?
  {
    if allDay then AllDay(DateOf(w)) else Timed(FromLocal(zone, w).value)
  }

  /** Rules that differ only in COUNT and UNTIL. */
  predicate SameDates(rule: Rule, r: Rule) {
    r == rule.(count := r.count, untilInstant := r.untilInstant, untilDate := r.untilDate)
  }

  lemma SameDayPasses(rule: Rule, r: Rule, a: Date, d: Date)
    requires rule.Valid() && SameDates(rule, r) && a <= d
    ensures DayPasses(r, a, d) <==> DayPasses(rule, a, d)
  {
    hide Multiple, MatchesMonthday, HasWeekday, Weekday, WeekIndex, MonthStart;
  }

  lemma SameInMonth(rule: Rule, r: Rule, d: Date, anchorDay: nat)
    requires SameDates(rule, r)
    ensures MatchesInMonth(r, d, anchorDay) <==> MatchesInMonth(rule, d, anchorDay)
  {
    hide MatchesMonthday, MatchesByDay, MonthStart;
  }

  lemma SameMatches(rule: Rule, r: Rule, a: Date, d: Date)
    requires rule.Valid() && SameDates(rule, r) && r.Valid()
    ensures Matches(r, a, d) <==> Matches(rule, a, d)
    ensures Distance(r, a, d) == Distance(rule, a, d)
  {
    hide Multiple, DayPasses, MatchesInMonth, MonthStart;
    if a <= d {
      SameDayPasses(rule, r, a, d);
    }
    SameInMonth(rule, r, d, DayOfMonth(a));
  }

  lemma SameOccurrences(rule: Rule, r: Rule, anchor: Wall, cap: nat, w: Wall)
    requires rule.Valid() && SameDates(rule, r)
    ensures r.Valid()
    ensures Occurs(r, anchor, w) <==> Occurs(rule, anchor, w)
    ensures WithinCap(r, anchor, cap, w) <==> WithinCap(rule, anchor, cap, w)
  {
    hide Matches, Distance;
    SameMatches(rule, r, DateOf(anchor), DateOf(w));
  }

  lemma HeadMember(s: seq<Wall>, n: nat, w: Wall)
    requires Ascending(s) && n <= |s| && w in s
    ensures w in s[..n] <==> n == |s| || w < s[n]
  {
    var i :| 0 <= i < |s| && s[i] == w;
    if i < n {
      assert s[..n][i] == w;
    }
  }

  /** A prefix of an expansion is the expansion of a rule with the same dates
    * whose cuts fall exactly behind it. */
  lemma PrefixIsExpansion(
    rule: Rule, r: Rule, anchor: Wall, zone: Zone, window: Wall, cap: nat, s: seq<Wall>, n: nat)
    requires rule.Valid() && r.Valid() && SameDates(rule, r) && IsExpansion(rule, anchor, zone, window, cap, s)
    requires n <= |s| && s != [] && s[0] == anchor
    requires 0 < n <==> StartsWithAnchor(r, anchor, zone, window)
    requires forall i | 0 < i < n :: Admits(r, zone, s[i])
    requires CountReached(r, n) || forall w: Wall | Occurs(rule, anchor, w) && w !in s[..n] :: !Admits(r, zone, w)
    requires r.count.Some? ==> n <= r.count.value
    ensures IsExpansion(r, anchor, zone, window, cap, s[..n])
  {
    hide Rule.Valid, Matches, Distance, Admits, SameDates, StartsWithAnchor, WithinCap, Occurs;
    var t := s[..n];
    forall w: Wall
      ensures Occurs(r, anchor, w) <==> Occurs(rule, anchor, w)
      ensures WithinCap(r, anchor, cap, w) <==> WithinCap(rule, anchor, cap, w)
    {
      SameOccurrences(rule, r, anchor, cap, w);
    }
    assert 0 < n ==> t[0] == anchor;
    forall w | w in t && w != anchor
      ensures Occurs(rule, anchor, w) && w <= window && Admits(r, zone, w) && WithinCap(rule, anchor, cap, w)
    {
      var i :| 0 <= i < n && t[i] == w;
      assert s[i] == w && w in s;
    }
    forall v: Wall, w | Occurs(rule, anchor, v) && w in t && v < w ensures v in t {
      HeadMember(s, n, w);
      HeadMember(s, n, v);
    }
    assert forall w: Wall | AdmittedThrough(r, anchor, zone, w) && Occurs(rule, anchor, w) :: Admits(r, zone, w);
  }

  lemma StartsAtAnchor(rule: Rule, anchor: Wall, zone: Zone, window: Wall, cap: nat, s: seq<Wall>)
    requires rule.Valid() && NarrowSpread(zone)
    requires IsExpansion(rule, anchor, zone, window, cap, s) && s != []
    ensures s[0] == anchor && anchor <= window
  {
    hide Rule.Valid, Matches, WithinCap, NarrowSpread, FromLocal, AdmittedThrough;
    assert s[0] in s;
    if anchor in s {
      var i :| 0 <= i < |s| && s[i] == anchor;
      if 0 < i {
        OccursLater(rule, anchor, s[0]);
      }
    } else {
      OccursLater(rule, anchor, s[0]);
      ADayApart(anchor, s[0]);
      ResolveKeepsDayOrder(zone, anchor, s[0]);
    }
  }

  /** UNTIL written from the last kept occurrence is not cut short: a COUNT, an
    * all-day date, a custom zone (which resolves to whole seconds) or a start
    * on a whole second. */
  predicate UntilExact(rule: Rule, anchor: Wall, zone: Zone, allDay: bool) {
    rule.count.Some? || allDay || zone.Custom? || TimeOf(anchor) % SECOND == 0
  }

  /** Whole seconds taken off leave the fraction as it is. */
  lemma ShiftedFraction(x: int, offset: int)
    ensures WholeSecond(x - offset * SECOND) == x - offset * SECOND <==> x % SECOND == 0
  {
    assert x == Seconds(x) * SECOND + x % SECOND;
    assert Seconds(x - offset * SECOND) == Seconds(x) - offset;
  }

  lemma FloorFraction(zone: Zone, w: int)
    ensures Floor(zone, w) % SECOND == 0 <==> zone.Custom? || w % SECOND == 0
  {
  }

  lemma ResolvedFraction(zone: Zone, w: Wall)
    requires FromLocal(zone, w).Some?
    ensures WholeSecond(FromLocal(zone, w).value) == FromLocal(zone, w).value <==>
            zone.Custom? || TimeOf(w) % SECOND == 0
  {
    hide FromLocal, Offsets, WholeSecond, Floor;
    var offset := ResolvedIsShifted(zone, w);
    FractionOfDay(w);
    FloorFraction(zone, w);
    ShiftedFraction(Floor(zone, w), offset);
  }

  lemma FractionOfDay(w: nat)
    ensures (w % DAY) % SECOND == w % SECOND
  {
    assert w == 86_400 * (w / DAY) * SECOND + w % DAY;
  }

  /** Occurrences before the k-th resolve at least a second before it. */
  lemma EarlierResolvesWholeSecondBefore(zone: Zone, v: Wall, w: Wall)
    requires NarrowSpread(zone) && TimeOf(v) == TimeOf(w) && v < w
    requires FromLocal(zone, v).Some? && FromLocal(zone, w).Some?
    ensures FromLocal(zone, v).value <= WholeSecond(FromLocal(zone, w).value)
  {
    hide FromLocal;
    ADayApart(v, w);
    var a := ResolvedIsShifted(zone, v);
    var b := ResolvedIsShifted(zone, w);
    assert b - a < 86_400;
    assert FromLocal(zone, w).value - FromLocal(zone, v).value >= SECOND;
  }

  /** How many of the k kept occurrences the truncated rule still yields. */
  function KeptCount(rule: Rule, anchor: Wall, zone: Zone, allDay: bool, k: nat): nat
    requires 1 <= k
  {
    if UntilExact(rule, anchor, zone, allDay) then k else k - 1
  }

  /** The kept clocks after the anchor resolve, where UNTIL has to be written from the last of them. */
  predicate KeptResolve(rule: Rule, zone: Zone, s: seq<Wall>, k: nat, allDay: bool)
    requires k <= |s|
  {
    rule.count.Some? || allDay || forall i | 0 < i < k :: FromLocal(zone, s[i]).Some?
  }

  /** The situation of a truncation: s[..k] is kept and its occurrences resolve. */
  ghost predicate Truncation(
    rule: Rule, anchor: Wall, zone: Zone, window: Wall, cap: nat, s: seq<Wall>, k: nat, allDay: bool)
  {
    && rule.Valid() && PositiveCount(rule) && NarrowSpread(zone)
    && IsExpansion(rule, anchor, zone, window, cap, s)
    && 1 <= k <= |s| && KeptResolve(rule, zone, s, k, allDay) && (!allDay ==> FromLocal(zone, s[k - 1]).Some?)
  }

  function TruncatedAt(rule: Rule, zone: Zone, s: seq<Wall>, k: nat, allDay: bool): Rule
    requires 1 <= k <= |s| && (!allDay ==> FromLocal(zone, s[k - 1]).Some?)
  {
    Truncated(rule, k, LastPoint(zone, s[k - 1], allDay), allDay)
  }

  lemma TimesAgree(rule: Rule, anchor: Wall, zone: Zone, window: Wall, cap: nat, s: seq<Wall>, i: nat)
    requires rule.Valid() && IsExpansion(rule, anchor, zone, window, cap, s) && i < |s|
    ensures TimeOf(s[i]) == TimeOf(anchor)
    ensures s[i] != anchor ==> Occurs(rule, anchor, s[i]) && s[i] <= window && Admits(rule, zone, s[i])
  {
    hide Matches, Admits, WithinCap, StartsWithAnchor, AdmittedThrough;
    assert s[i] in s;
  }

  /** The truncated rule admits the i-th occurrence for i below KeptCount and not the later ones. */
  lemma TruncatedAdmits(
    rule: Rule, anchor: Wall, zone: Zone, window: Wall, cap: nat, s: seq<Wall>, k: nat, allDay: bool, i: nat)
    requires Truncation(rule, anchor, zone, window, cap, s, k, allDay) && rule.count == None
    requires i < k && (0 < i || FromLocal(zone, anchor).Some?)
    ensures Admits(TruncatedAt(rule, zone, s, k, allDay), zone, s[i]) <==>
            i < KeptCount(rule, anchor, zone, allDay, k)
  {
    hide Rule.Valid, Matches, WithinCap, FromLocal, StartsWithAnchor, AdmittedThrough, IsExpansion, NarrowSpread;
    StartsAtAnchor(rule, anchor, zone, window, cap, s);
    TimesAgree(rule, anchor, zone, window, cap, s, i);
    TimesAgree(rule, anchor, zone, window, cap, s, k - 1);
    assert i < k - 1 ==> s[i] < s[k - 1] by { AscendsAt(rule, anchor, zone, window, cap, s, i, k - 1); }
    if allDay {
    } else {
      ResolvedFraction(zone, s[k - 1]);
      if i < k - 1 {
        EarlierResolvesWholeSecondBefore(zone, s[i], s[k - 1]);
      }
    }
  }

  lemma AscendsAt(rule: Rule, anchor: Wall, zone: Zone, window: Wall, cap: nat, s: seq<Wall>, i: nat, j: nat)
    requires rule.Valid() && IsExpansion(rule, anchor, zone, window, cap, s) && i <= j < |s|
    ensures i < j ==> s[i] < s[j]
  {
  }

  /** It admits no occurrence of the rule after the k-th. */
  lemma TruncatedExcludes(
    rule: Rule, anchor: Wall, zone: Zone, window: Wall, cap: nat, s: seq<Wall>, k: nat, allDay: bool, w: Wall)
    requires Truncation(rule, anchor, zone, window, cap, s, k, allDay) && rule.count == None
    requires Occurs(rule, anchor, w) && s[k - 1] < w
    ensures !Admits(TruncatedAt(rule, zone, s, k, allDay), zone, w)
  {
    hide Rule.Valid, Matches, WithinCap, FromLocal, StartsWithAnchor, AdmittedThrough, IsExpansion, NarrowSpread;
    TimesAgree(rule, anchor, zone, window, cap, s, k - 1);
    ADayApart(s[k - 1], w);
    if !allDay && FromLocal(zone, w).Some? {
      ResolveKeepsDayOrder(zone, s[k - 1], w);
    }
  }

  lemma CountedPrefix(
    rule: Rule, anchor: Wall, zone: Zone, window: Wall, cap: nat, s: seq<Wall>, k: nat, allDay: bool)
    requires Truncation(rule, anchor, zone, window, cap, s, k, allDay) && rule.count.Some?
    ensures IsExpansion(TruncatedAt(rule, zone, s, k, allDay), anchor, zone, window, cap, s[..k])
  {
    hide Rule.Valid, Matches, WithinCap, FromLocal, AdmittedThrough, NarrowSpread;
    StartsAtAnchor(rule, anchor, zone, window, cap, s);
    var r := TruncatedAt(rule, zone, s, k, allDay);
    SameOccurrences(rule, r, anchor, cap, anchor);
    PrefixIsExpansion(rule, r, anchor, zone, window, cap, s, k);
  }

  /** The truncated rule starts with the anchor, unless that is the one kept occurrence and lost. */
  lemma AnchorStays(
    rule: Rule, anchor: Wall, zone: Zone, window: Wall, cap: nat, s: seq<Wall>, k: nat, allDay: bool)
    requires Truncation(rule, anchor, zone, window, cap, s, k, allDay) && rule.count == None
    ensures StartsWithAnchor(TruncatedAt(rule, zone, s, k, allDay), anchor, zone, window) <==>
            0 < KeptCount(rule, anchor, zone, allDay, k)
  {
    hide Rule.Valid, Matches, WithinCap, FromLocal, AdmittedThrough, NarrowSpread, IsExpansion;
    StartsAtAnchor(rule, anchor, zone, window, cap, s);
    if FromLocal(zone, anchor).Some? {
      TruncatedAdmits(rule, anchor, zone, window, cap, s, k, allDay, 0);
    }
  }

  lemma UntilPrefix(
    rule: Rule, anchor: Wall, zone: Zone, window: Wall, cap: nat, s: seq<Wall>, k: nat, allDay: bool)
    requires Truncation(rule, anchor, zone, window, cap, s, k, allDay) && rule.count == None
    ensures IsExpansion(TruncatedAt(rule, zone, s, k, allDay), anchor, zone, window, cap,
                        s[..KeptCount(rule, anchor, zone, allDay, k)])
  {
    hide Rule.Valid, Matches, WithinCap, FromLocal, AdmittedThrough, NarrowSpread;
    var r, n := TruncatedAt(rule, zone, s, k, allDay), KeptCount(rule, anchor, zone, allDay, k);
    StartsAtAnchor(rule, anchor, zone, window, cap, s);
    SameOccurrences(rule, r, anchor, cap, anchor);
    AnchorStays(rule, anchor, zone, window, cap, s, k, allDay);
    forall i | 0 < i < n ensures Admits(r, zone, s[i]) {
      TruncatedAdmits(rule, anchor, zone, window, cap, s, k, allDay, i);
    }
    forall w: Wall | Occurs(rule, anchor, w) && w !in s[..n] ensures !Admits(r, zone, w) {
      if w <= s[k - 1] {
        OccursLater(rule, anchor, w);
        assert s[k - 1] in s;
        var i :| 0 <= i < |s| && s[i] == w;
        HeadMember(s, n, w);
        TruncatedAdmits(rule, anchor, zone, window, cap, s, k, allDay, i);
      } else {
        TruncatedExcludes(rule, anchor, zone, window, cap, s, k, allDay, w);
      }
    }
    PrefixIsExpansion(rule, r, anchor, zone, window, cap, s, n);
  }

  /** An UNTIL written behind a kept clock in a gap loses what follows the gap. */
  lemma KeptGapLoses(rule: Rule, anchor: Wall, zone: Zone, window: Wall, cap: nat, s: seq<Wall>, k: nat)
    requires rule.Valid() && Orderly(rule) && PositiveCount(rule) && NarrowSpread(zone)
    requires IsExpansion(rule, anchor, zone, window, cap, s) && 1 <= k <= |s|
    requires FromLocal(zone, s[k - 1]).Some? && !KeptResolve(rule, zone, s, k, false)
    ensures TruncatedAt(rule, zone, s, k, false).Valid()
    ensures Expansion(TruncatedAt(rule, zone, s, k, false), anchor, zone, window, cap) != s[..k]
  {
    hide Expansion, Orderly, Rule.Valid, FromLocal, Matches, Admits, WithinCap, AdmittedThrough, StartsWithAnchor;
    var r := TruncatedAt(rule, zone, s, k, false);
    TruncatedStaysOrderly(rule, zone, s, k, false);
    var i :| 0 < i < k && FromLocal(zone, s[i]) == None;
    StartsAtAnchor(rule, anchor, zone, window, cap, s);
    TimesAgree(rule, anchor, zone, window, cap, s, i);
    SameOccurrences(rule, r, anchor, cap, s[i]);
    GapEndsSeries(r, anchor, zone, window, cap, s[i], s[k - 1]);
    assert s[..k][k - 1] == s[k - 1];
  }

  /** Truncating a series after its k-th occurrence keeps exactly the first k, unless UNTIL has
    * to be written behind a kept clock in a gap, or for a start that is not on a whole second of
    * a tz-database zone: then the k-th is lost as well. */
  lemma TruncationExact(
    rule: Rule, anchor: Wall, zone: Zone, window: Wall, cap: nat, s: seq<Wall>, k: nat, allDay: bool)
    requires rule.Valid() && Orderly(rule) && PositiveCount(rule) && NarrowSpread(zone)
    requires s == Expansion(rule, anchor, zone, window, cap) && 1 <= k <= |s|
    requires !allDay ==> FromLocal(zone, s[k - 1]).Some?
    ensures var r := TruncatedAt(rule, zone, s, k, allDay);
            && r.Valid()
            && (KeptResolve(rule, zone, s, k, allDay) ==>
                  Expansion(r, anchor, zone, window, cap) == s[..KeptCount(rule, anchor, zone, allDay, k)])
            && (Expansion(r, anchor, zone, window, cap) == s[..k] <==>
                UntilExact(rule, anchor, zone, allDay) && KeptResolve(rule, zone, s, k, allDay))
  {
    hide Expansion, IsExpansion, FromLocal, NarrowSpread, Rule.Valid, UntilExact, Orderly, KeptResolve;
    ExpansionExact(rule, anchor, zone, window, cap);
    if KeptResolve(rule, zone, s, k, allDay) {
      ResolvedTruncation(rule, anchor, zone, window, cap, s, k, allDay);
    } else {
      NotAllDay(rule, zone, s, k, allDay);
      KeptGapLoses(rule, anchor, zone, window, cap, s, k);
    }
  }

  lemma NotAllDay(rule: Rule, zone: Zone, s: seq<Wall>, k: nat, allDay: bool)
    requires k <= |s| && !KeptResolve(rule, zone, s, k, allDay)
    ensures !allDay
  {
  }

  lemma ResolvedTruncation(
    rule: Rule, anchor: Wall, zone: Zone, window: Wall, cap: nat, s: seq<Wall>, k: nat, allDay: bool)
    requires Truncation(rule, anchor, zone, window, cap, s, k, allDay) && Orderly(rule)
    ensures var r := TruncatedAt(rule, zone, s, k, allDay);
            && r.Valid()
            && Expansion(r, anchor, zone, window, cap) == s[..KeptCount(rule, anchor, zone, allDay, k)]
            && (Expansion(r, anchor, zone, window, cap) == s[..k] <==> UntilExact(rule, anchor, zone, allDay))
  {
    hide Expansion, IsExpansion, FromLocal, NarrowSpread, Rule.Valid, UntilExact, Orderly;
    var r := TruncatedAt(rule, zone, s, k, allDay);
    TruncatedStaysOrderly(rule, zone, s, k, allDay);
    ExpansionExact(r, anchor, zone, window, cap);
    if rule.count.Some? {
      CountedPrefix(rule, anchor, zone, window, cap, s, k, allDay);
      AlwaysExactWithCount(rule, anchor, zone, allDay);
    } else {
      UntilPrefix(rule, anchor, zone, window, cap, s, k, allDay);
    }
    var n := KeptCount(rule, anchor, zone, allDay, k);
    ExpansionUnique(r, anchor, zone, window, cap, Expansion(r, anchor, zone, window, cap), s[..n]);
    assert |s[..k]| == k;
  }

  lemma AlwaysExactWithCount(rule: Rule, anchor: Wall, zone: Zone, allDay: bool)
    requires rule.count.Some?
    ensures UntilExact(rule, anchor, zone, allDay)
  {
  }

  lemma TruncatedStaysOrderly(rule: Rule, zone: Zone, s: seq<Wall>, k: nat, allDay: bool)
    requires rule.Valid() && Orderly(rule) && 1 <= k <= |s| && (!allDay ==> FromLocal(zone, s[k - 1]).Some?)
    ensures var r := TruncatedAt(rule, zone, s, k, allDay); r.Valid() && Orderly(r) && PositiveCount(r)
  {
    hide FromLocal;
  }

  /** The two halves of a split make up the series, nothing lost or repeated, exactly if UNTIL is
    * not cut short and, where it is written, the kept clocks resolve. */
  lemma SplitConserves(
    rule: Rule, anchor: Wall, zone: Zone, window: Wall, cap: nat, s: seq<Wall>, k: nat, allDay: bool)
    requires rule.Valid() && Orderly(rule) && OnePerPeriod(rule) && PositiveCount(rule) && NarrowSpread(zone)
    requires s == Expansion(rule, anchor, zone, window, cap) && 1 <= k < |s|
    requires CapCovers(rule, anchor, window, cap) && (!allDay ==> FromLocal(zone, s[k - 1]).Some?)
    ensures TruncatedAt(rule, zone, s, k, allDay).Valid()
    ensures Expansion(TruncatedAt(rule, zone, s, k, allDay), anchor, zone, window, cap) +
            Expansion(Continued(rule, k), s[k], zone, window, cap) == s
            <==> UntilExact(rule, anchor, zone, allDay) && KeptResolve(rule, zone, s, k, allDay)
  {
    hide Expansion, FromLocal, NarrowSpread, CapCovers, UntilExact, Orderly, OnePerPeriod, Rule.Valid;
    hide KeptResolve;
    TruncationExact(rule, anchor, zone, window, cap, s, k, allDay);
    ContinuationOfSparseRule(rule, anchor, zone, window, cap, s, k);
    var kept := Expansion(TruncatedAt(rule, zone, s, k, allDay), anchor, zone, window, cap);
    assert s[..k] + s[k..] == s;
    if kept + s[k..] == s {
      assert |kept| == k && kept == (kept + s[k..])[..k];
    }
  }
}
