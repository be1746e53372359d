/** How the event transactions act on delivered copies and on the message log. */
module SchedulingEdits {
  import opened Wrappers
  import opened EventRows
  import opened EventSpec
  import opened EventEffects
  import opened EventSplit
  import opened EventPut
  import opened EventRuns
  import opened Scheduling
  import opened SchedulingCopies

  // ----- create, update, delete -----

  lemma CreateStructure(db: Db, cal: Cal, id: Id, data: NewEvent, now: int)
    requires Structure(db.rows) && CreateTx(db, cal, id, data, now).Ok?
    ensures Structure(CreateTx(db, cal, id, data, now).value.rows)
  {
    hide Fits;
    var d := CreateTx(db, cal, id, data, now).value;
    forall c | c in d.rows && d.rows[c].origin.Some? ensures CopyOk(d.rows, c) {
      assert CopyOk(db.rows, c);
    }
  }

  lemma UpdateStructure(db: Db, id: Id, ifMatch: Option<Etag>, p: Patch, now: int)
    requires Structure(db.rows) && UpdateTx(db, id, ifMatch, p, now).Ok?
    ensures Structure(UpdateTx(db, id, ifMatch, p, now).value.rows)
  {
    hide Structure;
    KeptStructure(db.rows, UpdateTx(db, id, ifMatch, p, now).value.rows);
  }

  lemma DeleteStructure(db: Db, id: Id, ifMatch: Option<Etag>, now: int)
    requires Structure(db.rows) && DeleteTx(db, id, ifMatch, now).Ok?
    ensures Structure(DeleteTx(db, id, ifMatch, now).value.rows)
  {
    hide Structure;
    KeptStructure(db.rows, DeleteTx(db, id, ifMatch, now).value.rows);
  }

  // ----- split -----

  /** No override that moves is delivered under a master copy, or is a copy itself. */
  ghost predicate SplitLeavesCopies(rows: Rows, m: Id, s: SeriesSplit) {
    && (forall i | Moves(rows, m, s, i) :: rows[i].origin == None)
    && (forall c | c in rows && rows[c].origin.Some? && Moves(rows, m, s, rows[c].origin.value) ::
          rows[c].master == None)
  }

  /** A split keeps the copies' structure exactly if no override it moves is delivered:
    * the copies of moved overrides stay under the old master's copy. */
  lemma SplitStructure(db: Db, m: Id, s: SeriesSplit, c: Id, now: int)
    requires Wf(db) && Structure(db.rows) && SplitTx(db, m, s, c, now).Ok?
    requires s.continuation.Some? ==> s.continuation.value.master == None
    ensures Structure(SplitTx(db, m, s, c, now).value.rows) <==> SplitLeavesCopies(db.rows, m, s)
  {
    hide Wf, SplitTx, Structure, TruncatedMaster, ContinuationRow;
    SplitPartition(db, m, s, c, now);
    var d := SplitTx(db, m, s, c, now).value;
    SplitRows(db, d, m, s, c, now);
    SplitOneLive(db.rows, d.rows, m, s, c, now);
    if SplitLeavesCopies(db.rows, m, s) {
      forall x | x in d.rows && d.rows[x].origin.Some? ensures CopyOk(d.rows, x) {
        SplitKeepsCopy(db.rows, d.rows, m, s, c, x);
      }
      OneLiveCopies(d.rows);
    } else {
      SplitBreaksCopy(db.rows, d.rows, m, s, c);
    }
  }

  lemma OneLiveCopies(rows: Rows)
    requires OneLive(rows) && forall x | x in rows && rows[x].origin.Some? :: CopyOk(rows, x)
    ensures Structure(rows)
  {
  }

  /** The rows after a split, as far as the structure is concerned. */
  predicate SplitShape(rows: Rows, rows': Rows, m: Id, s: SeriesSplit, c: Id) {
    && m in rows && rows[m].master == None
    && rows'.Keys == rows.Keys + (if s.continuation.Some? then {c} else {})
    && (s.continuation.Some? ==> c !in rows && rows'[c].origin == None && rows'[c].master == None)
    && (forall i | i in rows :: SplitRow(rows, rows', m, s, c, i))
  }

  predicate SplitRow(rows: Rows, rows': Rows, m: Id, s: SeriesSplit, c: Id, i: Id)
    requires i in rows
  {
    && i in rows' && rows'[i].origin == rows[i].origin && rows'[i].cal == rows[i].cal && rows'[i].rid == rows[i].rid
    && (rows'[i].live ==> rows[i].live)
    && rows'[i].master == if Moves(rows, m, s, i) then Some(c) else rows[i].master
  }

  lemma SplitRows(db: Db, d: Db, m: Id, s: SeriesSplit, c: Id, now: int)
    requires Wf(db) && SplitTx(db, m, s, c, now).Ok? && d == SplitTx(db, m, s, c, now).value
    requires s.continuation.Some? ==> s.continuation.value.master == None
    ensures SplitShape(db.rows, d.rows, m, s, c)
  {
    hide Wf, SplitTx, Fate, Moves, TruncatedMaster, ContinuationRow;
    SplitCommits(db, m, s, c, now);
    MasterIsNoOverride(db, m);
    SplitPartition(db, m, s, c, now);
    forall i | i in db.rows ensures SplitRow(db.rows, d.rows, m, s, c, i) {
      if i == m {
        TruncatedPlace(db.rows, m, s, c, now);
      } else if OverrideOf(db.rows[i], m) && db.rows[i].live {
        FatePlace(db.rows, m, s, c, now, i);
      } else {
        NotMoved(db.rows, m, s, i);
      }
    }
    if s.continuation.Some? {
      ContinuationPlace(db.rows[m].cal, s.continuation.value, now);
    }
  }

  lemma TruncatedPlace(rows: Rows, m: Id, s: SeriesSplit, c: Id, now: int)
    requires IsMaster(rows, m)
    ensures var row := TruncatedMaster(rows[m], s, now);
            && row.origin == rows[m].origin && row.cal == rows[m].cal
            && row.rid == rows[m].rid && row.live == rows[m].live
            && row.master == None && !Moves(rows, m, s, m)
  {
  }

  lemma FatePlace(rows: Rows, m: Id, s: SeriesSplit, c: Id, now: int, i: Id)
    requires i in rows && OverrideOf(rows[i], m) && rows[i].live
    ensures var row := Fate(rows[i], s, c, now);
            && row.origin == rows[i].origin && row.cal == rows[i].cal && row.rid == rows[i].rid
            && row.master == if Moves(rows, m, s, i) then Some(c) else rows[i].master
  {
  }

  lemma NotMoved(rows: Rows, m: Id, s: SeriesSplit, i: Id)
    requires i in rows && !(OverrideOf(rows[i], m) && rows[i].live)
    ensures !Moves(rows, m, s, i)
  {
  }

  lemma ContinuationPlace(cal: Cal, data: NewEvent, now: int)
    ensures ContinuationRow(cal, data, now).origin == None && ContinuationRow(cal, data, now).master == data.master
  {
  }

  lemma SplitCommits(db: Db, m: Id, s: SeriesSplit, c: Id, now: int)
    requires SplitTx(db, m, s, c, now).Ok?
    ensures m in db.rows && db.rows[m].body.rrule.Some?
  {
  }

  lemma SplitOneLive(rows: Rows, rows': Rows, m: Id, s: SeriesSplit, c: Id, now: int)
    requires Structure(rows) && SplitShape(rows, rows', m, s, c)
    ensures OneLive(rows')
  {
  }

  lemma SplitKeepsCopy(rows: Rows, rows': Rows, m: Id, s: SeriesSplit, c: Id, x: Id)
    requires Structure(rows) && SplitShape(rows, rows', m, s, c) && SplitLeavesCopies(rows, m, s)
    requires x in rows' && rows'[x].origin.Some?
    ensures CopyOk(rows', x)
  {
    hide OneLive, Moves;
    assert CopyOk(rows, x);
    MoveNeedsContinuation(rows, m, s, rows[x].origin.value);
  }

  lemma MoveNeedsContinuation(rows: Rows, m: Id, s: SeriesSplit, i: Id)
    ensures Moves(rows, m, s, i) ==> s.continuation.Some?
  {
  }

  lemma SplitBreaksCopy(rows: Rows, rows': Rows, m: Id, s: SeriesSplit, c: Id)
    requires Structure(rows) && SplitShape(rows, rows', m, s, c) && !SplitLeavesCopies(rows, m, s)
    ensures !Structure(rows')
  {
    hide OneLive;
    if i :| Moves(rows, m, s, i) && rows[i].origin.Some? {
      assert !CopyOk(rows', i);
    } else {
      var x :| x in rows && rows[x].origin.Some? && Moves(rows, m, s, rows[x].origin.value) && rows[x].master.Some?;
      assert CopyOk(rows, x);
      assert !CopyOk(rows', x);
    }
  }

  // ----- put -----

  /** The put brings back no deleted copy whose origin has a live one in the calendar. */
  ghost predicate RevivesNoTwin(rows: Rows, m: Id) {
    m in rows && !rows[m].live && OriginLeft(rows, m, m).Some? ==>
      forall c :: !IsLiveCopy(rows, rows[m].origin.value, rows[m].cal, c)
  }

  /** A put keeps the copies' structure exactly if it revives no twin of a live copy. */
  lemma PutStructure(db: Db, p: Put, now: int)
    requires Wf(db) && Structure(db.rows) && db.clock <= now && WellFormedPut(p) && PutTx(db, p, now).Ok?
    ensures Structure(PutTx(db, p, now).value.0.rows) <==> RevivesNoTwin(db.rows, PutTx(db, p, now).value.1)
  {
    hide Wf, Structure, PutTx, Unique, PutMaster, OriginLeft, RevivesNoTwin;
    PutStores(db, p, now);
    PutOrigins(db, p, now);
    var (d, m, _) := PutTx(db, p, now).value;
    if RevivesNoTwin(db.rows, m) {
      PutOneLive(db, d, p, m, now);
      forall x | x in d.rows && d.rows[x].origin.Some? ensures CopyOk(d.rows, x) {
        PutKeepsCopy(db, d, p, m, now, x);
      }
      OneLiveCopies(d.rows);
    } else {
      PutTwins(db, d, p, m, now);
    }
  }

  lemma PutTwins(db: Db, d: Db, p: Put, m: Id, now: int)
    requires Wf(db) && Structure(db.rows) && WellFormedPut(p) && Stored(db, d, p, m, now)
    requires OriginsAfterPut(db.rows, d.rows, p, m) && !RevivesNoTwin(db.rows, m)
    ensures !Structure(d.rows)
  {
    hide Unique, CopyOk, PutRow;
    var o := db.rows[m].origin.value;
    var c :| IsLiveCopy(db.rows, o, db.rows[m].cal, c);
    TwinIsNoOverride(db, m, c, o);
    PutKeepsRow(db, d, p, m, now, c);
    assert Visible(d.rows[c]) == Visible(db.rows[c]);
    assert d.rows[m].origin == Some(o) && d.rows[c].origin == Some(o);
  }

  lemma TwinIsNoOverride(db: Db, m: Id, c: Id, o: Id)
    requires Wf(db) && Structure(db.rows) && m in db.rows && c in db.rows
    requires db.rows[m].origin == Some(o) && db.rows[c].origin == Some(o)
    ensures !OverrideOf(db.rows[c], m)
  {
    hide Unique;
    assert CopyOk(db.rows, c);
    assert RowOk(db, o);
  }

  predicate OriginsAfterPut(rows: Rows, rows': Rows, p: Put, m: Id) {
    forall i | i in rows' :: rows'[i].origin == if i in p.ids then None else OriginLeft(rows, m, i)
  }

  lemma PutOneLive(db: Db, d: Db, p: Put, m: Id, now: int)
    requires Structure(db.rows) && p.Valid() && Stored(db, d, p, m, now) && OriginsAfterPut(db.rows, d.rows, p, m)
    requires RevivesNoTwin(db.rows, m)
    ensures OneLive(d.rows)
  {
    hide Unique, PutMaster, CopyOk;
    forall x, y | x in d.rows && y in d.rows && d.rows[x].live && d.rows[y].live && d.rows[x].origin.Some?
        && d.rows[y].origin == d.rows[x].origin && d.rows[y].cal == d.rows[x].cal
      ensures x == y
    {
      PutCopyBefore(db, d, p, m, now, x);
      PutCopyBefore(db, d, p, m, now, y);
      assert x == m || IsLiveCopy(db.rows, d.rows[x].origin.value, d.rows[x].cal, x);
      assert y == m || IsLiveCopy(db.rows, d.rows[x].origin.value, d.rows[x].cal, y);
    }
  }

  /** A copy after a put was one before, with the same place. */
  lemma PutCopyBefore(db: Db, d: Db, p: Put, m: Id, now: int, x: Id)
    requires p.Valid() && Stored(db, d, p, m, now) && OriginsAfterPut(db.rows, d.rows, p, m)
    requires x in d.rows && d.rows[x].origin.Some?
    ensures x in db.rows && d.rows[x].origin == db.rows[x].origin && d.rows[x].cal == db.rows[x].cal
         && d.rows[x].master == db.rows[x].master && d.rows[x].rid == db.rows[x].rid
    ensures x != m ==> d.rows[x].live == db.rows[x].live && !OverrideOf(db.rows[x], m)
  {
    hide Unique;
    if x != m {
      assert Visible(d.rows[x]) == Visible(db.rows[x]);
    }
  }

  lemma PutKeepsCopy(db: Db, d: Db, p: Put, m: Id, now: int, x: Id)
    requires Wf(db) && Structure(db.rows) && WellFormedPut(p) && Stored(db, d, p, m, now)
    requires OriginsAfterPut(db.rows, d.rows, p, m)
    requires x in d.rows && d.rows[x].origin.Some?
    ensures CopyOk(d.rows, x)
  {
    hide Unique, PutMaster, OneLive, Stored, PutRow;
    PutCopyBefore(db, d, p, m, now, x);
    assert CopyOk(db.rows, x);
    var o := db.rows[x].origin.value;
    PutKeepsRow(db, d, p, m, now, o);
    if db.rows[x].master.Some? {
      var mc := db.rows[x].master.value;
      assert RowOk(db, x) && RowOk(db, o);
      PutKeepsRow(db, d, p, m, now, mc);
    }
  }

  lemma PutKeepsRow(db: Db, d: Db, p: Put, m: Id, now: int, i: Id)
    requires WellFormedPut(p) && Stored(db, d, p, m, now) && OriginsAfterPut(db.rows, d.rows, p, m)
    requires i in db.rows && !OverrideOf(db.rows[i], m)
    ensures i in d.rows && d.rows[i].origin == OriginLeft(db.rows, m, i)
         && d.rows[i].master == db.rows[i].master && d.rows[i].rid == db.rows[i].rid
  {
    hide Unique, PutMaster;
    if i != m {
      assert Visible(d.rows[i]) == Visible(db.rows[i]);
    }
  }
}
