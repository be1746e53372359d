/** What entity tags guard: conditional PUTs lose no update, derived tags are
  * accepted, one resource per name, one UID per series. */
module EventGuards {
  import opened Wrappers
  import opened EventRows
  import opened EventSpec
  import opened EventEffects
  import opened EventSplit
  import opened EventPut
  import opened EventRuns

  // ----- no lost update -----

  /** No write to j's resource committed between a and b. */
  predicate NotWritten(a: Db, b: Db, j: Id) {
    forall k | |a.log| <= k < |b.log| :: b.log[k].id != j
  }

  predicate Ahead(row: Row, row': Row) {
    row.sequence < row'.sequence || (row.sequence == row'.sequence && row.updatedAt < row'.updatedAt)
  }

  /** How j, a master at a, stands at a later b. */
  predicate Settled(a: Db, b: Db, j: Id) {
    && IsMaster(a.rows, j) && IsMaster(b.rows, j) && b.rows[j].cal == a.rows[j].cal
    && (|| (NotWritten(a, b, j) && Visible(b.rows[j]) == Visible(a.rows[j]))
        || (!NotWritten(a, b, j) && Ahead(a.rows[j], b.rows[j]))
        || (&& !NotWritten(a, b, j) && !b.rows[j].live
            && b.rows[j].sequence == a.rows[j].sequence && b.rows[j].updatedAt == a.rows[j].updatedAt))
  }

  /** A master at b that was not at a, or has been renamed since, was written after t. */
  ghost predicate Named(a: Db, b: Db, t: int) {
    forall i | IsMaster(b.rows, i) ::
      || t < b.rows[i].updatedAt
      || (&& IsMaster(a.rows, i) && b.rows[i].cal == a.rows[i].cal
          && ResourceName(i, b.rows[i]) == ResourceName(i, a.rows[i]))
  }

  lemma MovedStaysSettled(a: Db, b: Db, d: Db, j: Id, now: int)
    requires Settled(a, b, j) && j in d.rows && !NotWritten(a, d, j)
    requires MovedOn(b.rows[j], d.rows[j], now) && a.rows[j].updatedAt < now
    ensures Settled(a, d, j)
  {
  }

  lemma StepSettles(a: Db, b: Db, op: Op, now: int, j: Id)
    requires Wf(b) && b.clock <= now && WellFormed(b, op) && Settled(a, b, j) && |a.log| <= |b.log|
    requires a.rows[j].updatedAt < now
    ensures Settled(a, After(b, op, now), j)
  {
    hide WellFormed, After, MovedOn, Wf, Untouched, CtagsFollow, Ahead;
    var d := After(b, op, now);
    var touched := StepEffect(b, op, now);
    if d != b {
      if j in touched {
        var k :| |b.log| <= k < |d.log| && d.log[k].cal == d.rows[j].cal && d.log[k].id == j;
        MovedStaysSettled(a, b, d, j, now);
      } else {
        KeptPart(b.rows, d.rows, j);
        UnloggedStaysSettled(a, b, d, j);
      }
    }
  }

  lemma UnloggedStaysSettled(a: Db, b: Db, d: Db, j: Id)
    requires Settled(a, b, j) && j in d.rows && Visible(d.rows[j]) == Visible(b.rows[j])
    requires |a.log| <= |b.log| && b.log <= d.log && NotWritten(b, d, j)
    ensures Settled(a, d, j)
  {
    if NotWritten(a, b, j) {
      assert NotWritten(a, d, j);
    } else {
      var k :| |a.log| <= k < |b.log| && b.log[k].id == j;
      assert d.log[k].id == j;
    }
  }

  lemma StepNames(a: Db, b: Db, op: Op, now: int, t: int)
    requires Wf(b) && b.clock <= now && WellFormed(b, op) && Named(a, b, t) && t < now
    ensures Named(a, After(b, op, now), t)
  {
    hide WellFormed, After, Wf, CtagsFollow;
    var d := After(b, op, now);
    var touched := StepEffect(b, op, now);
    if d != b {
      forall i | IsMaster(d.rows, i) && d.rows[i].updatedAt <= t
        ensures IsMaster(a.rows, i) && d.rows[i].cal == a.rows[i].cal
             && ResourceName(i, d.rows[i]) == ResourceName(i, a.rows[i])
      {
        if i !in touched {
          assert PartOf(d.rows, i, i);
          assert Visible(b.rows[i]) == Visible(d.rows[i]);
        }
        assert IsMaster(b.rows, i);
      }
    }
  }

  ghost predicate Later(steps: seq<Step>, t: int) { forall k | 0 <= k < |steps| :: t < steps[k].now }

  lemma {:induction false} RunSettles(a: Db, b: Db, steps: seq<Step>, j: Id)
    requires Wf(b) && Run(b, steps) && Settled(a, b, j) && Named(a, b, a.rows[j].updatedAt) && a.log <= b.log
    requires Later(steps, a.rows[j].updatedAt)
    ensures var d := End(b, steps);
            Wf(d) && Settled(a, d, j) && Named(a, d, a.rows[j].updatedAt) && a.log <= d.log
    decreases |steps|
  {
    hide Wf, WellFormed, After, Settled, Named, CtagsFollow, Untouched, LoggedBetween;
    if steps != [] {
      var d := After(b, steps[0].op, steps[0].now);
      assert j in a.rows && |a.log| <= |b.log| by { SettledMaster(a, b, j); }
      StepGrows(b, steps[0].op, steps[0].now, j);
      StepSettles(a, b, steps[0].op, steps[0].now, j);
      StepNames(a, b, steps[0].op, steps[0].now, a.rows[j].updatedAt);
      RunSettles(a, d, steps[1..], j);
    }
  }

  lemma SettledMaster(a: Db, b: Db, j: Id)
    requires Settled(a, b, j)
    ensures j in a.rows && j in b.rows
  {
  }

  /** One resource per name: what is served at a name is unique. */
  lemma OneResourcePerName(db: Db, cal: Cal, href: Name, i: Id, j: Id)
    requires Wf(db) && i in db.rows && j in db.rows && db.rows[i].cal == cal && db.rows[j].cal == cal
    requires ResourceName(i, db.rows[i]) == href && ResourceName(j, db.rows[j]) == href
    ensures i == j
  {
    assert Fits(db.rows, i, db.rows[i]);
  }

  /** A PUT that captured its etag at a passes the check at b exactly if nothing
    * was written to the resource in between. */
  lemma MatchEtagExact(a: Db, steps: seq<Step>, cal: Cal, href: Name, j: Id)
    requires Wf(a) && Run(a, steps) && ServedAt(a.rows, cal, href, j) && Later(steps, a.rows[j].updatedAt)
    ensures var b := End(a, steps);
            && j in b.rows
            && (MeetsPrecondition(b.rows, AtHref(b.rows, cal, href), MatchEtag(a.rows[j].etag)) <==>
                NotWritten(a, b, j))
            && (NotWritten(a, b, j) ==> AtHref(b.rows, cal, href) == Some(j))
  {
    hide Wf, Run, End;
    var b := End(a, steps);
    RunSettles(a, a, steps, j);
    MasterEtag(a, j);
    if NotWritten(a, b, j) {
      assert ServedAt(b.rows, cal, href, j);
      OneResourcePerName(b, cal, href, AtHref(b.rows, cal, href).value, j);
    } else if AtHref(b.rows, cal, href).Some? {
      var i := AtHref(b.rows, cal, href).value;
      MasterEtag(b, i);
      if b.rows[i].etag == a.rows[j].etag {
        OneResourcePerName(a, cal, href, i, j);
        assert false;
      }
    }
  }

  lemma MasterEtag(db: Db, i: Id)
    requires Wf(db) && IsMaster(db.rows, i)
    ensures db.rows[i].etag == EtagOf(db.rows[i])
  {
    assert RowOk(db, i);
  }

  /** No lost update: a PUT holding the etag captured at a commits at b only if no
    * write to that resource committed in between, and then replaces that resource. */
  lemma NoLostUpdate(a: Db, steps: seq<Step>, j: Id, p: Put, now: int)
    requires Wf(a) && Run(a, steps) && ServedAt(a.rows, p.cal, p.href, j) && Later(steps, a.rows[j].updatedAt)
    requires WellFormedPut(p) && p.pre == MatchEtag(a.rows[j].etag)
    requires PutTx(End(a, steps), p, now).Ok?
    ensures var b := End(a, steps);
            && NotWritten(a, b, j)
            && Resource(b.rows, j) == Resource(a.rows, j)
            && PutTx(b, p, now).value.1 == j && !PutTx(b, p, now).value.2
  {
    hide Wf, Run, End, Resource, WithOverrides, WithoutOverrides, WellFormedPut, Fits, ReplacedMaster, Later;
    var b := End(a, steps);
    MatchEtagExact(a, steps, p.cal, p.href, j);
    WrittenIfDifferent(a, steps, j);
  }

  lemma WrittenIfDifferent(a: Db, steps: seq<Step>, j: Id)
    requires Wf(a) && Run(a, steps) && NotWritten(a, End(a, steps), j)
    ensures Resource(End(a, steps).rows, j) == Resource(a.rows, j)
  {
    hide Wf, Run, End, Resource;
    if Resource(End(a, steps).rows, j) != Resource(a.rows, j) {
      JournalComplete(a, steps, j);
    }
  }

  // ----- open() captures the etag of whatever row holds the name -----

  predicate Holds(rows: Rows, cal: Cal, href: Name, i: Id) {
    i in rows && rows[i].cal == cal && ResourceName(i, rows[i]) == href
  }

  /** The precondition open hands to put_series. */
  ghost function Captured(rows: Rows, cal: Cal, href: Name, createNew: bool): (pre: Precondition)
    ensures pre.MatchEtag? ==> exists i :: Holds(rows, cal, href, i) && pre.etag == rows[i].etag
    ensures pre == NoCondition ==> forall i :: !Holds(rows, cal, href, i)
  {
    if createNew then NotExists
    else if exists i :: Holds(rows, cal, href, i) then
      var i :| Holds(rows, cal, href, i); MatchEtag(rows[i].etag)
    else NoCondition
  }

  /** With no write in between, a captured PUT passes its own check exactly if its
    * name is free or serves a live resource; over a deleted row or an override's
    * row it never does. */
  lemma CapturedPutPasses(db: Db, cal: Cal, href: Name)
    requires Wf(db)
    ensures MeetsPrecondition(db.rows, AtHref(db.rows, cal, href), Captured(db.rows, cal, href, false))
       <==> forall i :: Holds(db.rows, cal, href, i) ==> ServedAt(db.rows, cal, href, i)
  {
    hide Wf;
    forall i, j | Holds(db.rows, cal, href, i) && Holds(db.rows, cal, href, j) ensures i == j {
      OneResourcePerName(db, cal, href, i, j);
    }
    var at := AtHref(db.rows, cal, href);
    if at.Some? {
      assert Holds(db.rows, cal, href, at.value);
    }
  }

  /** So a deleted resource cannot be put again at its own name except with
    * If-None-Match: whatever was captured is refused. */
  lemma DeletedNameRefusesCapture(db: Db, p: Put, i: Id, now: int)
    requires Wf(db) && p.Valid() && Holds(db.rows, p.cal, p.href, i) && !db.rows[i].live
    requires p.pre == Captured(db.rows, p.cal, p.href, false)
    ensures PutTx(db, p, now) == Err(Conflict)
  {
    hide Wf, WriteMaster, WithOverrides, WithoutOverrides;
    CapturedPutPasses(db, p.cal, p.href);
  }

  // ----- derived etags are accepted -----

  /** The etag get_event derives is accepted by update_event exactly if it is the
    * stored one, and for every master it is. */
  lemma DerivedEtagAccepted(db: Db, id: Id, p: Patch, now: int)
    requires Wf(db) && Get(db, id).Ok?
    ensures var (row, e) := Get(db, id).value;
            && (UpdateTx(db, id, Some(e), p, now).Ok? <==> row.etag == EtagOf(row))
            && (row.master == None ==> UpdateTx(db, id, Some(e), p, now).Ok? && DeleteTx(db, id, Some(e), now).Ok?)
  {
    hide PatchedRow, Appended, Unique;
    assert RowOk(db, id);
  }

  // ----- updates in a row -----

  /** One patch with the effect of p and then q. */
  function Merged(p: Patch, q: Patch): Patch {
    Patch(
      if q.startsAt.Some? then q.startsAt else p.startsAt,
      if q.startDate.Some? then q.startDate else if q.startsAt.Some? then None else p.startDate,
      if q.endsAt.Some? then q.endsAt else p.endsAt,
      if q.endDate.Some? then q.endDate else if q.endsAt.Some? then None else p.endDate,
      if q.allDay.Some? then q.allDay else p.allDay,
      if q.tzid.Some? then q.tzid else p.tzid,
      if q.status.Some? then q.status else p.status,
      p.fields + q.fields,
      if q.attendees.Some? then q.attendees else p.attendees)
  }

  /** Two updates in a row leave what one update with the merged patch would, but for one
    * more sequence step; a repeated update changes nothing else. */
  lemma UpdatesMerge(db: Db, id: Id, e: Option<Etag>, f: Option<Etag>, p: Patch, q: Patch, now: int, later: int)
    requires Wf(db) && UpdateTx(db, id, e, p, now).Ok?
    requires db.clock <= now && UpdateTx(UpdateTx(db, id, e, p, now).value, id, f, q, later).Ok?
    ensures UpdateTx(db, id, e, Merged(p, q), later).Ok?
    ensures var two := UpdateTx(UpdateTx(db, id, e, p, now).value, id, f, q, later).value;
            var one := UpdateTx(db, id, e, Merged(p, q), later).value;
            && Get(two, id).Ok? && Get(one, id).Ok?
            && Get(two, id).value.0 == Bumped(Get(one, id).value.0, later)
            && forall i | i in db.rows && i != id :: i in two.rows && i in one.rows && two.rows[i] == one.rows[i]
    ensures Merged(p, p) == p
  {
    hide Wf, PatchedRow, Touched, UpdateTx, Bumped, Merged, Effect, EtagOf;
    UpdatedRows(db, id, e, p, now);
    UpdateKeeps(db, id, e, p, now);
    var d := UpdateTx(db, id, e, p, now).value;
    UpdatedRows(d, id, f, q, later);
    MergedIsAccepted(db, id, e, p, q, now, later);
    UpdatedRows(db, id, e, Merged(p, q), later);
    PatchesCompose(db.rows[id], p, q, now, later);
    if db.rows[id].master.Some? {
      TouchedTwice(db.rows[db.rows[id].master.value], now, later);
    }
    MergedWithItself(p);
  }

  lemma MergedWithItself(p: Patch)
    ensures Merged(p, p) == p
  {
    assert p.fields + p.fields == p.fields;
  }

  lemma UpdatedRows(db: Db, id: Id, e: Option<Etag>, p: Patch, now: int)
    requires Wf(db) && UpdateTx(db, id, e, p, now).Ok?
    ensures var d := UpdateTx(db, id, e, p, now).value; var row := PatchedRow(db.rows[id], p, now);
            && id in db.rows && row.master == db.rows[id].master && row.master != Some(id) && row.live
            && (row.master.Some? ==> row.master.value in db.rows)
            && d.rows == if row.master == None then db.rows[id := row]
                         else db.rows[id := row][row.master.value := Touched(db.rows[row.master.value], now)]
  {
    hide Unique, PatchedBody;
    assert RowOk(db, id);
  }

  lemma MergedIsAccepted(db: Db, id: Id, e: Option<Etag>, p: Patch, q: Patch, now: int, later: int)
    requires UpdateTx(db, id, e, p, now).Ok?
    ensures UpdateTx(db, id, e, Merged(p, q), later).Ok? && Get(UpdateTx(db, id, e, p, now).value, id).Ok?
  {
  }

  lemma TouchedTwice(row: Row, now: int, later: int)
    ensures Touched(Touched(row, now), later) == Touched(row, later)
  {
  }

  lemma PatchesCompose(row: Row, p: Patch, q: Patch, now: int, later: int)
    ensures PatchedRow(PatchedRow(row, p, now), q, later) == Bumped(PatchedRow(row, Merged(p, q), later), later)
  {
    assert (row.body.fields + p.fields) + q.fields == row.body.fields + (p.fields + q.fields);
  }

  lemma MasterIsNotItself(db: Db, id: Id)
    requires Wf(db) && id in db.rows
    ensures db.rows[id].master != Some(id)
  {
    assert RowOk(db, id);
  }

  /** The fields an update never touches. */
  predicate SameFrame(row: Row, row': Row) {
    && SameKeys(row, row') && row'.master == row.master && row'.origin == row.origin && row'.live == row.live
    && row'.organizerUser == row.organizerUser && row'.floating == row.floating && row'.alarms == row.alarms
    && row'.body.rrule == row.body.rrule && row'.body.rdate == row.body.rdate && row'.body.exdate == row.body.exdate
    && row'.body.organizerEmail == row.body.organizerEmail
  }

  /** The etag returned by an accepted update is the one a later get derives; it is
    * accepted in turn, and the one it replaces no longer is. The row moves one sequence
    * on and keeps everything a patch has no part for. */
  lemma UpdateThenGet(db: Db, id: Id, e: Option<Etag>, p: Patch, now: int)
    requires Wf(db) && UpdateTx(db, id, e, p, now).Ok?
    ensures var d := UpdateTx(db, id, e, p, now).value;
            && Get(d, id) == Ok((PatchedRow(db.rows[id], p, now), EtagOf(PatchedRow(db.rows[id], p, now))))
            && SameFrame(db.rows[id], d.rows[id]) && d.rows[id].sequence == db.rows[id].sequence + 1
            && UpdateTx(d, id, Some(Get(d, id).value.1), p, now).Ok?
            && (db.rows[id].master == None ==> UpdateTx(d, id, Some(db.rows[id].etag), p, now) == Err(Conflict))
  {
    assert RowOk(db, id);
  }

  /** Overrides stored by a PUT never get an etag: the derived one is refused until
    * the row is next written. */
  lemma PutOverridesRefuseDerivedEtag(db: Db, p: Put, now: int, k: nat, patch: Patch, later: int)
    requires Wf(db) && WellFormedPut(p) && PutTx(db, p, now).Ok? && k < |p.ids|
    ensures var d := PutTx(db, p, now).value.0;
            Get(d, p.ids[k]).Ok? && UpdateTx(d, p.ids[k], Some(Get(d, p.ids[k]).value.1), patch, later) == Err(Conflict)
  {
    hide Wf, PutTx, OthersStay, PutMaster, Unique;
    PutStores(db, p, now);
  }

  // ----- which writes leave an override's derived etag refused -----

  /** The stored etag is not the derived one. */
  predicate Stale(row: Row) { row.etag != EtagOf(row) }

  /** i was an override with a stale etag. */
  predicate WasStale(rows: Rows, i: Id) { i in rows && Stale(rows[i]) }

  /** The override i has a stale etag after the transaction. */
  predicate StaleAfter(db: Db, op: Op, now: int, i: Id) {
    match op
    case Create(_, id, _) => i != id && WasStale(db.rows, i)
    case Update(id, _, _) => i != id && WasStale(db.rows, i)
    case Delete(_, _) => WasStale(db.rows, i)
    case Split(m, s, _) =>
      if Moves(db.rows, m, s, i) then db.rows[i].etag != Etag(db.rows[i].cal, db.rows[i].sequence, now)
      else WasStale(db.rows, i)
    case PutSeries(p) => i in p.ids || WasStale(db.rows, i)
  }

  /** After a committed transaction the derived etag of a live override is refused exactly
    * in these cases: put overrides always, created and updated ones never, one moved by a
    * split unless its stored etag happens to be that of the split's own time, and every
    * other one exactly if it was before. */
  lemma OverrideEtagExact(db: Db, op: Op, now: int, i: Id, patch: Patch, later: int)
    requires Wf(db) && db.clock <= now && WellFormed(db, op) && After(db, op, now) != db
    requires var d := After(db, op, now); i in d.rows && d.rows[i].live && d.rows[i].master.Some?
    ensures var d := After(db, op, now);
            && Get(d, i).Ok?
            && (UpdateTx(d, i, Some(Get(d, i).value.1), patch, later) == Err(Conflict) <==> StaleAfter(db, op, now, i))
  {
    hide Wf, CreateTx, UpdateTx, DeleteTx, SplitTx, PutTx, GoodMaster, WellFormedPut, StaleAfter, EtagOf;
    var d := After(db, op, now);
    RefusedIfStale(d, i, patch, later);
    match op
    case Create(cal, id, data) => CreatedStale(db, cal, id, data, now, i);
    case Update(id, ifMatch, p) => UpdatedStale(db, id, ifMatch, p, now, i);
    case Delete(id, ifMatch) => DeletedStale(db, id, ifMatch, now, i);
    case Split(id, s, c) => SplitStale(db, id, s, c, now, i);
    case PutSeries(p) => PutStale(db, p, now, i);
  }

  lemma RefusedIfStale(d: Db, i: Id, patch: Patch, later: int)
    requires i in d.rows && d.rows[i].live
    ensures Get(d, i).Ok?
    ensures (UpdateTx(d, i, Some(Get(d, i).value.1), patch, later) == Err(Conflict) <==> Stale(d.rows[i]))
  {
    hide PatchedRow, Appended;
  }

  lemma CreatedStale(db: Db, cal: Cal, id: Id, data: NewEvent, now: int, i: Id)
    requires Wf(db) && GoodMaster(db, cal, data) && CreateTx(db, cal, id, data, now).Ok?
    requires var d := CreateTx(db, cal, id, data, now).value; i in d.rows && d.rows[i].master.Some?
    ensures Stale(CreateTx(db, cal, id, data, now).value.rows[i]) <==> StaleAfter(db, Create(cal, id, data), now, i)
  {
    hide Unique, Fits, RowOk;
  }

  lemma UpdatedStale(db: Db, id: Id, e: Option<Etag>, p: Patch, now: int, i: Id)
    requires Wf(db) && UpdateTx(db, id, e, p, now).Ok?
    requires var d := UpdateTx(db, id, e, p, now).value; i in d.rows && d.rows[i].master.Some?
    ensures Stale(UpdateTx(db, id, e, p, now).value.rows[i]) <==> StaleAfter(db, Update(id, e, p), now, i)
  {
    hide Unique;
    assert RowOk(db, id);
  }

  lemma DeletedStale(db: Db, id: Id, e: Option<Etag>, now: int, i: Id)
    requires Wf(db) && DeleteTx(db, id, e, now).Ok?
    requires var d := DeleteTx(db, id, e, now).value; i in d.rows && d.rows[i].master.Some?
    ensures Stale(DeleteTx(db, id, e, now).value.rows[i]) <==> StaleAfter(db, Delete(id, e), now, i)
  {
    hide Unique;
    assert RowOk(db, id);
  }

  lemma SplitStale(db: Db, m: Id, s: SeriesSplit, c: Id, now: int, i: Id)
    requires Wf(db) && SplitTx(db, m, s, c, now).Ok?
    requires s.continuation.Some? ==> s.continuation.value.master == None
    requires var d := SplitTx(db, m, s, c, now).value; i in d.rows && d.rows[i].live && d.rows[i].master.Some?
    ensures Stale(SplitTx(db, m, s, c, now).value.rows[i]) <==> StaleAfter(db, Split(m, s, c), now, i)
  {
    hide SplitTx, Wf, TruncatedMaster, ContinuationRow;
    SplitPartition(db, m, s, c, now);
    SplitNeedsRule(db, m, s, c, now);
    MasterIsNoOverride(db, m);
    TruncatedUid(db.rows[m], s, now);
    if s.continuation.Some? {
      ContinuationUid(db.rows[m].cal, s.continuation.value, now);
    }
  }

  lemma PutStale(db: Db, p: Put, now: int, i: Id)
    requires Wf(db) && WellFormedPut(p) && PutTx(db, p, now).Ok?
    requires var d := PutTx(db, p, now).value.0; i in d.rows && d.rows[i].master.Some?
    ensures Stale(PutTx(db, p, now).value.0.rows[i]) <==> StaleAfter(db, PutSeries(p), now, i)
  {
    hide Wf, PutTx, Unique, PutMaster;
    PutStores(db, p, now);
    var (d, m, _) := PutTx(db, p, now).value;
    if i in p.ids {
      var k :| 0 <= k < |p.ids| && p.ids[k] == i;
    } else {
      assert Visible(d.rows[i]) == Visible(db.rows[i]);
    }
  }

  // ----- what a put leaves behind -----

  /** After a put the returned row is the only one at the name, and its overrides
    * are exactly the ones put. */
  lemma PutServesExactly(db: Db, p: Put, now: int, i: Id)
    requires Wf(db) && db.clock <= now && WellFormedPut(p) && PutTx(db, p, now).Ok?
    ensures var (d, m, _) := PutTx(db, p, now).value;
            && (ServedAt(d.rows, p.cal, p.href, i) <==> i == m)
            && PutMaster(d.rows[m], m, p.cal, p.href, p.master, now)
            && (i in d.rows && OverrideOf(d.rows[i], m) <==> i in p.ids)
            && (forall k | 0 <= k < |p.ids| :: p.ids[k] in d.rows
                  && d.rows[p.ids[k]] == PutRow(p.cal, None, Some(m), p.overrides[k], now))
  {
    hide Wf, PutTx, Unique, OthersStay;
    PutStores(db, p, now);
    var (d, m, _) := PutTx(db, p, now).value;
    StoredKeepsWf(db, d, p, m, now);
    if ServedAt(d.rows, p.cal, p.href, i) {
      OneResourcePerName(d, p.cal, p.href, i, m);
    }
    if i in d.rows && i != m && i !in p.ids {
      OthersAreNoOverrides(db, d, p, m, i, now);
    }
  }

  lemma OthersAreNoOverrides(db: Db, d: Db, p: Put, m: Id, i: Id, now: int)
    requires p.Valid() && Stored(db, d, p, m, now) && i in d.rows && i != m && i !in p.ids
    ensures !OverrideOf(d.rows[i], m)
  {
    assert Visible(d.rows[i]) == Visible(db.rows[i]);
  }

  // ----- one UID per series -----

  /** Every live override carries its master's UID. */
  predicate OneUid(rows: Rows) {
    forall i | i in rows && rows[i].live && rows[i].master.Some? ::
      rows[i].master.value in rows && rows[rows[i].master.value].uid == rows[i].uid
  }

  /** The caller passes the master's UID when it creates an override. */
  predicate PassesUid(db: Db, op: Op) {
    op.Create? && op.data.master.Some? ==>
      op.data.master.value in db.rows && op.data.uid == db.rows[op.data.master.value].uid
  }

  lemma CreateUid(db: Db, cal: Cal, id: Id, data: NewEvent, now: int)
    requires Wf(db) && GoodMaster(db, cal, data) && CreateTx(db, cal, id, data, now).Ok? && OneUid(db.rows)
    ensures OneUid(CreateTx(db, cal, id, data, now).value.rows) <==> PassesUid(db, Create(cal, id, data))
  {
    hide Unique, Fits, RowOk;
    var d := CreateTx(db, cal, id, data, now).value;
    assert d.rows[id].live && d.rows[id].uid == data.uid && d.rows[id].master == data.master;
  }

  lemma SplitUid(db: Db, m: Id, s: SeriesSplit, c: Id, now: int)
    requires Wf(db) && SplitTx(db, m, s, c, now).Ok? && OneUid(db.rows)
    requires s.continuation.Some? ==> s.continuation.value.master == None
    ensures OneUid(SplitTx(db, m, s, c, now).value.rows)
  {
    hide SplitTx, Wf, TruncatedMaster, ContinuationRow, Fate;
    SplitPartition(db, m, s, c, now);
    var d := SplitTx(db, m, s, c, now).value;
    SplitNeedsRule(db, m, s, c, now);
    MasterIsNoOverride(db, m);
    TruncatedUid(db.rows[m], s, now);
    if s.continuation.Some? {
      ContinuationUid(db.rows[m].cal, s.continuation.value, now);
    }
    forall i | i in d.rows && d.rows[i].live && d.rows[i].master.Some?
      ensures d.rows[i].master.value in d.rows && d.rows[d.rows[i].master.value].uid == d.rows[i].uid
    {
      MasterOfOverride(db, i);
      FateUid(db.rows[i], s, c, now);
    }
  }

  /** An override of the split series that stays live keeps its master and UID, or moves to
    * the continuation and takes its UID. */
  lemma FateUid(row: Row, s: SeriesSplit, c: Id, now: int)
    ensures var f := Fate(row, s, c, now);
            f.live ==>
              || (f.master == row.master && f.uid == row.uid)
              || (s.continuation.Some? && f.master == Some(c) && f.uid == s.continuation.value.uid)
  {
  }

  lemma TruncatedUid(row: Row, s: SeriesSplit, now: int)
    ensures TruncatedMaster(row, s, now).uid == row.uid && TruncatedMaster(row, s, now).master == row.master
  {
  }

  lemma ContinuationUid(cal: Cal, data: NewEvent, now: int)
    ensures ContinuationRow(cal, data, now).uid == data.uid && ContinuationRow(cal, data, now).master == data.master
  {
  }

  lemma MasterOfOverride(db: Db, i: Id)
    requires Wf(db) && i in db.rows && db.rows[i].master.Some?
    ensures IsMaster(db.rows, db.rows[i].master.value)
  {
    assert RowOk(db, i);
  }

  lemma SplitNeedsRule(db: Db, m: Id, s: SeriesSplit, c: Id, now: int)
    requires SplitTx(db, m, s, c, now).Ok?
    ensures m in db.rows && db.rows[m].body.rrule.Some?
  {
  }

  lemma PutUid(db: Db, p: Put, now: int)
    requires Wf(db) && WellFormedPut(p) && PutTx(db, p, now).Ok? && OneUid(db.rows)
    ensures OneUid(PutTx(db, p, now).value.0.rows)
  {
    hide Unique, PutTx;
    PutStores(db, p, now);
    var (d, m, _) := PutTx(db, p, now).value;
    forall i | i in d.rows && d.rows[i].live && d.rows[i].master.Some?
      ensures d.rows[i].master.value in d.rows && d.rows[d.rows[i].master.value].uid == d.rows[i].uid
    {
      if i !in p.ids {
        OthersAreNoOverrides(db, d, p, m, i, now);
        assert Visible(d.rows[i]) == Visible(db.rows[i]);
        OtherMasterStays(db, d, p, m, i, now);
      }
    }
  }

  /** Every transaction keeps one UID per series, if overrides are created with it. */
  lemma StepKeepsOneUid(db: Db, op: Op, now: int)
    requires Wf(db) && WellFormed(db, op) && OneUid(db.rows) && PassesUid(db, op)
    ensures OneUid(After(db, op, now).rows)
  {
    hide Wf, OneUid, CreateTx, SplitTx, PutTx, GoodMaster, WellFormedPut, PassesUid;
    if After(db, op, now) != db {
      match op
      case Create(cal, id, data) => CreateUid(db, cal, id, data, now);
      case Update(id, ifMatch, patch) => UpdateUid(db, id, ifMatch, patch, now);
      case Delete(id, ifMatch) => DeleteUid(db, id, ifMatch, now);
      case Split(id, s, c) => SplitUid(db, id, s, c, now);
      case PutSeries(p) => PutUid(db, p, now);
    }
  }

  lemma UpdateUid(db: Db, id: Id, ifMatch: Option<Etag>, p: Patch, now: int)
    requires OneUid(db.rows) && UpdateTx(db, id, ifMatch, p, now).Ok?
    ensures OneUid(UpdateTx(db, id, ifMatch, p, now).value.rows)
  {
  }

  lemma DeleteUid(db: Db, id: Id, ifMatch: Option<Etag>, now: int)
    requires OneUid(db.rows) && DeleteTx(db, id, ifMatch, now).Ok?
    ensures OneUid(DeleteTx(db, id, ifMatch, now).value.rows)
  {
  }

  /** Each operation of the run that creates an override passes the master's UID. */
  ghost predicate PassesUids(db: Db, steps: seq<Step>)
    requires Run(db, steps)
    decreases |steps|
  {
    steps == [] ||
    (PassesUid(db, steps[0].op) && PassesUids(After(db, steps[0].op, steps[0].now), steps[1..]))
  }

  /** Over every such run the series keep one UID each. */
  lemma {:induction false} RunKeepsOneUid(db: Db, steps: seq<Step>)
    requires Wf(db) && Run(db, steps) && OneUid(db.rows) && PassesUids(db, steps)
    ensures OneUid(End(db, steps).rows)
    decreases |steps|
  {
    hide Wf, WellFormed, After, OneUid, PassesUid, Effect;
    if steps != [] {
      var touched := StepEffect(db, steps[0].op, steps[0].now);
      StepKeepsOneUid(db, steps[0].op, steps[0].now);
      RunKeepsOneUid(After(db, steps[0].op, steps[0].now), steps[1..]);
    }
  }
}
