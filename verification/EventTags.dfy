/** The etag captured by a conditional PUT when the clock does not advance: which writes it
  * does not see, for one transaction and over every run. */
module EventTags {
  import opened Wrappers
  import opened EventRows
  import opened EventSpec
  import opened EventEffects
  import opened EventSplit
  import opened EventPut
  import opened EventRuns
  import opened EventGuards

  /** The transaction creates, updates or deletes an override of j. */
  predicate OverrideWrite(db: Db, op: Op, j: Id) {
    match op
    case Create(_, _, data) => data.master == Some(j)
    case Update(id, _, _) => id in db.rows && OverrideOf(db.rows[id], j)
    case Delete(id, _) => id in db.rows && OverrideOf(db.rows[id], j)
    case _ => false
  }

  /** How a master stands after a write of its own: a later sequence, or deleted. */
  predicate Superseded(row: Row, row': Row) {
    row.sequence < row'.sequence || row' == row.(live := false)
  }

  lemma CreatedTag(db: Db, cal: Cal, id: Id, data: NewEvent, now: int, j: Id)
    requires Wf(db) && GoodMaster(db, cal, data) && CreateTx(db, cal, id, data, now).Ok? && j in db.rows
    requires !NotWritten(db, CreateTx(db, cal, id, data, now).value, j)
    ensures data.master == Some(j)
    ensures CreateTx(db, cal, id, data, now).value.rows[j] == Touched(db.rows[j], now)
  {
    hide Unique, Fits, RowOk;
  }

  lemma UpdatedTag(db: Db, id: Id, e: Option<Etag>, p: Patch, now: int, j: Id)
    requires Wf(db) && UpdateTx(db, id, e, p, now).Ok? && IsMaster(db.rows, j)
    requires !NotWritten(db, UpdateTx(db, id, e, p, now).value, j)
    ensures var row' := UpdateTx(db, id, e, p, now).value.rows[j];
            if OverrideOf(db.rows[id], j) then row' == Touched(db.rows[j], now) else Superseded(db.rows[j], row')
  {
    hide Unique;
    assert RowOk(db, id);
  }

  lemma DeletedTag(db: Db, id: Id, e: Option<Etag>, now: int, j: Id)
    requires Wf(db) && DeleteTx(db, id, e, now).Ok? && IsMaster(db.rows, j)
    requires !NotWritten(db, DeleteTx(db, id, e, now).value, j)
    ensures var row' := DeleteTx(db, id, e, now).value.rows[j];
            if OverrideOf(db.rows[id], j) then row' == Touched(db.rows[j], now) else Superseded(db.rows[j], row')
  {
    hide Unique;
    assert RowOk(db, id);
  }

  lemma SplitTag(db: Db, m: Id, s: SeriesSplit, c: Id, now: int, j: Id)
    requires Wf(db) && db.clock <= now && SplitTx(db, m, s, c, now).Ok? && IsMaster(db.rows, j)
    requires s.continuation.Some? ==> s.continuation.value.master == None
    requires !NotWritten(db, SplitTx(db, m, s, c, now).value, j)
    ensures Superseded(db.rows[j], SplitTx(db, m, s, c, now).value.rows[j])
  {
    hide SplitTx, Wf, ContinuationRow, Untouched, CtagsFollow, MovedOn;
    SplitKeeps(db, m, s, c, now);
    SplitPartition(db, m, s, c, now);
  }

  lemma PutTag(db: Db, p: Put, now: int, j: Id)
    requires Wf(db) && WellFormedPut(p) && PutTx(db, p, now).Ok? && IsMaster(db.rows, j)
    requires j in PutTx(db, p, now).value.0.rows && !NotWritten(db, PutTx(db, p, now).value.0, j)
    ensures Superseded(db.rows[j], PutTx(db, p, now).value.0.rows[j])
  {
    hide Wf, PutTx, Unique, OthersStay, PutMaster, HoldsOverrides;
    PutStores(db, p, now);
  }

  /** One transaction and the tag of a master: kept if not logged, re-stamped by an override
    * write, and superseded by every other write. */
  lemma LoggedStep(db: Db, op: Op, now: int, j: Id)
    requires Wf(db) && db.clock <= now && WellFormed(db, op) && IsMaster(db.rows, j)
    ensures var d := After(db, op, now);
            && IsMaster(d.rows, j)
            && if NotWritten(db, d, j) then Visible(d.rows[j]) == Visible(db.rows[j])
               else if OverrideWrite(db, op, j) then d.rows[j] == Touched(db.rows[j], now)
               else Superseded(db.rows[j], d.rows[j])
  {
    hide Wf, Untouched, CtagsFollow, Superseded, Touched;
    hide CreateTx, UpdateTx, DeleteTx, SplitTx, PutTx, GoodMaster, WellFormedPut;
    var d := After(db, op, now);
    var touched := StepEffect(db, op, now);
    if d != db {
      if NotWritten(db, d, j) {
        UnloggedKept(db, d, touched, now, j);
      } else {
        LoggedStays(db, d, touched, now, j);
        match op
        case Create(cal, id, data) => CreatedTag(db, cal, id, data, now, j);
        case Update(id, ifMatch, p) =>
          UpdateCommits(db, id, ifMatch, p, now);
          UpdatedTag(db, id, ifMatch, p, now, j);
        case Delete(id, ifMatch) =>
          DeleteCommits(db, id, ifMatch, now);
          DeletedTag(db, id, ifMatch, now, j);
        case Split(id, s, c) => SplitTag(db, id, s, c, now, j);
        case PutSeries(p) => PutTag(db, p, now, j);
      }
    }
  }

  lemma UnloggedKept(db: Db, d: Db, touched: set<Id>, now: int, j: Id)
    requires Effect(db, d, touched, now) && IsMaster(db.rows, j) && NotWritten(db, d, j)
    ensures IsMaster(d.rows, j) && Visible(d.rows[j]) == Visible(db.rows[j])
  {
    hide Untouched, MovedOn, CtagsFollow;
    assert j !in touched;
    KeptPart(db.rows, d.rows, j);
  }

  lemma LoggedStays(db: Db, d: Db, touched: set<Id>, now: int, j: Id)
    requires Effect(db, d, touched, now) && IsMaster(db.rows, j) && !NotWritten(db, d, j)
    ensures IsMaster(d.rows, j)
  {
    hide Untouched, CtagsFollow;
  }

  // ----- one override write -----

  lemma CommittedIsLogged(db: Db, op: Op, now: int, j: Id)
    requires Wf(db) && db.clock <= now && WellFormed(db, op) && OverrideWrite(db, op, j) && After(db, op, now) != db
    ensures !NotWritten(db, After(db, op, now), j)
  {
    hide Wf, Effect, CreateTx, UpdateTx, DeleteTx, GoodMaster;
    var d := After(db, op, now);
    match op {
      case Create(cal, id, data) => CreateKeeps(db, cal, id, data, now);
      case Update(id, ifMatch, p) => UpdateKeeps(db, id, ifMatch, p, now);
      case Delete(id, ifMatch) => DeleteKeeps(db, id, ifMatch, now);
    }
    SingleEffectLogs(db, d, j, now);
  }

  lemma SingleEffectLogs(db: Db, d: Db, j: Id, now: int)
    requires Effect(db, d, {j}, now)
    ensures !NotWritten(db, d, j)
  {
    hide Untouched, CtagsFollow, MovedOn;
    assert j in {j};
    var k :| |db.log| <= k < |d.log| && d.log[k].cal == d.rows[j].cal && d.log[k].id == j;
  }

  /** The clock matters: a committed creation, update or deletion of an override leaves the
    * etag captured before it in place exactly in the very millisecond of that etag. */
  lemma OverrideWriteUnseenExactly(db: Db, op: Op, now: int, cal: Cal, href: Name, j: Id)
    requires Wf(db) && db.clock <= now && WellFormed(db, op) && ServedAt(db.rows, cal, href, j)
    requires OverrideWrite(db, op, j) && After(db, op, now) != db
    ensures var d := After(db, op, now);
            && !NotWritten(db, d, j)
            && (MeetsPrecondition(d.rows, AtHref(d.rows, cal, href), MatchEtag(db.rows[j].etag)) <==>
                now == db.rows[j].updatedAt)
  {
    hide Wf, After, WellFormed, OverrideWrite, NotWritten, Superseded;
    CommittedIsLogged(db, op, now, j);
    LoggedStep(db, op, now, j);
    var d := After(db, op, now);
    var touched := StepEffect(db, op, now);
    MasterEtag(db, j);
    MasterEtag(d, j);
    assert ServedAt(d.rows, cal, href, j);
    OneResourcePerName(d, cal, href, AtHref(d.rows, cal, href).value, j);
  }

  // ----- runs -----

  /** Each step that logs j is an override write at time t. */
  ghost predicate Unnoticed(db: Db, steps: seq<Step>, j: Id, t: int)
    requires Run(db, steps)
    decreases |steps|
  {
    steps == [] ||
    (var d := After(db, steps[0].op, steps[0].now);
     && (NotWritten(db, d, j) || (OverrideWrite(db, steps[0].op, j) && steps[0].now == t))
     && Unnoticed(d, steps[1..], j, t))
  }

  predicate Tagged(row: Row, q: int, t: int) { row.sequence == q && row.updatedAt == t }

  /** Past the tag for good, or deleted. */
  predicate Spoiled(row: Row, q: int, t: int) {
    q <= row.sequence && (q < row.sequence || t < row.updatedAt || !row.live)
  }

  lemma SpoiledStays(row: Row, row': Row, q: int, t: int, now: int)
    requires Spoiled(row, q, t) && row.updatedAt <= now
    requires Visible(row') == Visible(row) || row' == Touched(row, now) || Superseded(row, row')
    ensures Spoiled(row', q, t)
  {
    assert Visible(row').sequence == row'.sequence && Visible(row').updatedAt == row'.updatedAt;
    assert Visible(row').live == row'.live;
    assert Visible(row).sequence == row.sequence && Visible(row).updatedAt == row.updatedAt;
    assert Visible(row).live == row.live;
  }

  lemma ClockBounds(db: Db, j: Id)
    requires Wf(db) && j in db.rows
    ensures db.rows[j].updatedAt <= db.clock
  {
    assert RowOk(db, j);
  }

  lemma {:induction false} RunStaysSpoiled(db: Db, steps: seq<Step>, j: Id, q: int, t: int)
    requires Wf(db) && Run(db, steps) && IsMaster(db.rows, j) && Spoiled(db.rows[j], q, t)
    ensures var b := End(db, steps); Wf(b) && IsMaster(b.rows, j) && Spoiled(b.rows[j], q, t)
    decreases |steps|
  {
    hide Wf, WellFormed, After, NotWritten, OverrideWrite, Touched, Superseded, Spoiled;
    if steps != [] {
      var d := After(db, steps[0].op, steps[0].now);
      var touched := StepEffect(db, steps[0].op, steps[0].now);
      LoggedStep(db, steps[0].op, steps[0].now, j);
      ClockBounds(db, j);
      SpoiledStays(db.rows[j], d.rows[j], q, t, steps[0].now);
      RunStaysSpoiled(d, steps[1..], j, q, t);
    }
  }

  /** A step leaves the row and its tag as they are, unlogged or as an override write at the
    * tag's own time, or it spoils the tag. */
  lemma StepTags(row: Row, row': Row, q: int, t: int, now: int, logged: bool, touch: bool)
    requires Tagged(row, q, t) && row.etag == EtagOf(row) && t <= now
    requires if !logged then Visible(row') == Visible(row)
             else if touch then row' == Touched(row, now) else Superseded(row, row')
    ensures if !logged || (touch && now == t) then Tagged(row', q, t) && Visible(row') == Visible(row)
            else Spoiled(row', q, t)
  {
    assert Visible(row').sequence == row'.sequence && Visible(row').updatedAt == row'.updatedAt;
    assert Visible(row).sequence == row.sequence && Visible(row).updatedAt == row.updatedAt;
  }

  lemma {:induction false} RunTags(db: Db, steps: seq<Step>, j: Id, q: int, t: int)
    requires Wf(db) && Run(db, steps) && IsMaster(db.rows, j) && Tagged(db.rows[j], q, t)
    ensures var b := End(db, steps);
            && Wf(b) && IsMaster(b.rows, j)
            && if Unnoticed(db, steps, j, t) then Tagged(b.rows[j], q, t) && Visible(b.rows[j]) == Visible(db.rows[j])
               else Spoiled(b.rows[j], q, t)
    decreases |steps|
  {
    hide Wf, WellFormed, After, NotWritten, OverrideWrite, Touched, Superseded, Spoiled, Tagged, Visible;
    if steps != [] {
      var d := After(db, steps[0].op, steps[0].now);
      var touched := StepEffect(db, steps[0].op, steps[0].now);
      var (logged, touch) := (!NotWritten(db, d, j), OverrideWrite(db, steps[0].op, j));
      LoggedStep(db, steps[0].op, steps[0].now, j);
      ClockBounds(db, j);
      TaggedAt(db.rows[j], q, t);
      MasterEtag(db, j);
      StepTags(db.rows[j], d.rows[j], q, t, steps[0].now, logged, touch);
      if !logged || (touch && steps[0].now == t) {
        RunTags(d, steps[1..], j, q, t);
      } else {
        RunStaysSpoiled(d, steps[1..], j, q, t);
      }
    }
  }

  lemma TaggedAt(row: Row, q: int, t: int)
    requires Tagged(row, q, t)
    ensures row.updatedAt == t
  {
  }

  /** Another resource took the name and carries the captured tag. */
  ghost predicate TakenOver(row: Row, rows: Rows, cal: Cal, href: Name, j: Id) {
    exists i :: i != j && ServedAt(rows, cal, href, i) && Tagged(rows[i], row.sequence, row.updatedAt)
  }

  /** Whatever the clock did: where j is still served at its name, a PUT that captured its
    * etag passes exactly if each step that logged j was an override write in the very
    * millisecond of the etag; where it is not, exactly if another resource took the name
    * over with the same tag, and then some step fell into that millisecond. */
  lemma MatchEtagAtAnyTime(a: Db, steps: seq<Step>, cal: Cal, href: Name, j: Id)
    requires Wf(a) && Run(a, steps) && ServedAt(a.rows, cal, href, j)
    ensures var (b, t) := (End(a, steps), a.rows[j].updatedAt);
            MeetsPrecondition(b.rows, AtHref(b.rows, cal, href), MatchEtag(a.rows[j].etag)) <==>
            if ServedAt(b.rows, cal, href, j) then Unnoticed(a, steps, j, t)
            else TakenOver(a.rows[j], b.rows, cal, href, j)
    ensures var (b, t) := (End(a, steps), a.rows[j].updatedAt);
            TakenOver(a.rows[j], b.rows, cal, href, j) ==> exists k :: 0 <= k < |steps| && steps[k].now == t
  {
    hide Wf, Run, End, Unnoticed, NotWritten;
    var (b, q, t) := (End(a, steps), a.rows[j].sequence, a.rows[j].updatedAt);
    RunTags(a, steps, j, q, t);
    MasterEtag(a, j);
    TagDecides(a.rows[j], b, cal, href, j);
    if ServedAt(b.rows, cal, href, j) {
      TagOrSpoiled(b.rows[j], q, t);
    }
    if TakenOver(a.rows[j], b.rows, cal, href, j) && Later(steps, t) {
      MatchEtagExact(a, steps, cal, href, j);
      TakerIsServed(a.rows[j], b, cal, href, j);
    }
    ClockBounds(a, j);
    NeverEarlier(a, steps);
  }

  /** What a conditional PUT can lose, whatever the clock did: it commits over j only if j's
    * own row is as it was captured and each step that logged j was an override write in the
    * captured millisecond; over another resource only if that one took the name and the tag. */
  lemma NoLostUpdateAtAnyTime(a: Db, steps: seq<Step>, j: Id, p: Put, now: int)
    requires Wf(a) && Run(a, steps) && ServedAt(a.rows, p.cal, p.href, j)
    requires WellFormedPut(p) && p.pre == MatchEtag(a.rows[j].etag)
    requires PutTx(End(a, steps), p, now).Ok?
    ensures var (b, t) := (End(a, steps), a.rows[j].updatedAt);
            var (_, m, created) := PutTx(b, p, now).value;
            && !created && ServedAt(b.rows, p.cal, p.href, m)
            && (m == j ==> Unnoticed(a, steps, j, t) && Visible(b.rows[j]) == Visible(a.rows[j]))
            && (m != j ==> TakenOver(a.rows[j], b.rows, p.cal, p.href, j))
  {
    hide Wf, Run, End, Unnoticed, Visible, TakenOver;
    hide WithOverrides, WithoutOverrides, Fits, ReplacedMaster;
    var (b, q, t) := (End(a, steps), a.rows[j].sequence, a.rows[j].updatedAt);
    MatchEtagAtAnyTime(a, steps, p.cal, p.href, j);
    RunTags(a, steps, j, q, t);
    var m := PutTx(b, p, now).value.1;
    if ServedAt(b.rows, p.cal, p.href, j) {
      OneResourcePerName(b, p.cal, p.href, m, j);
    }
  }

  lemma TagOrSpoiled(row: Row, q: int, t: int)
    ensures row.live ==> !(Tagged(row, q, t) && Spoiled(row, q, t))
  {
  }

  /** The check compares calendar, sequence and time of whatever is served at the name. */
  lemma TagDecides(row: Row, b: Db, cal: Cal, href: Name, j: Id)
    requires Wf(b) && row.etag == EtagOf(row) && row.cal == cal
    ensures MeetsPrecondition(b.rows, AtHref(b.rows, cal, href), MatchEtag(row.etag)) <==>
            if ServedAt(b.rows, cal, href, j) then Tagged(b.rows[j], row.sequence, row.updatedAt)
            else TakenOver(row, b.rows, cal, href, j)
  {
    hide Wf;
    forall i, k | ServedAt(b.rows, cal, href, i) && ServedAt(b.rows, cal, href, k) ensures i == k {
      OneResourcePerName(b, cal, href, i, k);
    }
    forall i | ServedAt(b.rows, cal, href, i) ensures b.rows[i].etag == EtagOf(b.rows[i]) {
      MasterEtag(b, i);
    }
  }

  lemma TakerIsServed(row: Row, b: Db, cal: Cal, href: Name, j: Id)
    requires Wf(b) && row.etag == EtagOf(row) && row.cal == cal && TakenOver(row, b.rows, cal, href, j)
    ensures AtHref(b.rows, cal, href).Some? && AtHref(b.rows, cal, href) != Some(j)
    ensures MeetsPrecondition(b.rows, AtHref(b.rows, cal, href), MatchEtag(row.etag))
  {
    hide Wf;
    var i :| i != j && ServedAt(b.rows, cal, href, i) && Tagged(b.rows[i], row.sequence, row.updatedAt);
    OneResourcePerName(b, cal, href, AtHref(b.rows, cal, href).value, i);
    MasterEtag(b, i);
  }

  lemma {:induction false} NeverEarlier(a: Db, steps: seq<Step>)
    requires Wf(a) && Run(a, steps)
    ensures forall k | 0 <= k < |steps| :: a.clock <= steps[k].now
    decreases |steps|
  {
    hide Wf, WellFormed, After, Effect;
    if steps != [] {
      var d := After(a, steps[0].op, steps[0].now);
      var touched := StepEffect(a, steps[0].op, steps[0].now);
      AfterClock(a, d, touched, steps[0].now);
      NeverEarlier(d, steps[1..]);
      forall k | 0 <= k < |steps| ensures a.clock <= steps[k].now {
        assert k == 0 || steps[k] == steps[1..][k - 1];
      }
    }
  }

  lemma AfterClock(a: Db, d: Db, touched: set<Id>, now: int)
    requires a.clock <= now && (d == a || Effect(a, d, touched, now))
    ensures a.clock <= d.clock
  {
  }

  /** A resource can be taken over: once a renamed resource has freed the name, a first PUT
    * there in the millisecond of an etag of sequence 0 carries that very etag. */
  lemma FreshPutCarriesTag(db: Db, p: Put, etag: Etag)
    requires Wf(db) && WellFormedPut(p) && etag == Etag(p.cal, 0, db.clock)
    requires PutTarget(db.rows, p.cal, p.href, p.master.uid, p.pre) == Ok(Fresh) && PutTx(db, p, db.clock).Ok?
    ensures var d := PutTx(db, p, db.clock).value.0;
            MeetsPrecondition(d.rows, AtHref(d.rows, p.cal, p.href), MatchEtag(etag))
  {
    hide Wf, PutTx, OthersStay, HoldsOverrides, Fits, Unique, PutTarget;
    PutStores(db, p, db.clock);
    var (d, m, _) := PutTx(db, p, db.clock).value;
    StoredKeepsWf(db, d, p, m, db.clock);
    FreshIsNew(db, p, db.clock);
    assert ServedAt(d.rows, p.cal, p.href, m);
    OneResourcePerName(d, p.cal, p.href, AtHref(d.rows, p.cal, p.href).value, m);
  }

  lemma FreshIsNew(db: Db, p: Put, now: int)
    requires Wf(db) && WellFormedPut(p) && PutTx(db, p, now).Ok?
    requires PutTarget(db.rows, p.cal, p.href, p.master.uid, p.pre) == Ok(Fresh)
    ensures var (d, m, _) := PutTx(db, p, now).value; m in d.rows && d.rows[m].sequence == 0
  {
    hide Unique, RowOk, WithOverrides, WithoutOverrides, PutTarget, Inserted;
    MasterWritten(db, p, Fresh, now);
    var (rows, m) := WriteMaster(db, p.cal, p.href, Fresh, p.master, p.minted, now).value;
    ClearedRows(rows, m);
    var d0 := db.(rows := WithoutOverrides(rows, m), clock := now);
    OverridesInserted(d0, p.cal, m, p.overrides, p.ids, now);
    KeptByInsertion(d0, WithOverrides(d0, p.cal, m, p.overrides, p.ids, now).value, p, m, now);
  }
}
