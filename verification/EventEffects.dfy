/** What every event transaction keeps: the invariant, and the effect that the
  * journal and the entity tags are judged by. */
module EventEffects {
  import opened Wrappers
  import opened EventRows
  import opened EventSpec

  // ----- the invariant -----

  predicate RowOk(db: Db, i: Id)
    requires i in db.rows
  {
    var row := db.rows[i];
    && row.cal in db.ctag
    && row.updatedAt <= db.clock
    && (row.master == None ==> row.etag == EtagOf(row))
    && (row.master.Some? ==>
          && row.body.rrule == None
          && row.master.value in db.rows
          && db.rows[row.master.value].master == None
          && db.rows[row.master.value].cal == row.cal)
  }

  /** The stored etag of every master is the one derived from its row, an
    * override's master is a master of the same calendar, and both indexes hold. */
  predicate Wf(db: Db) {
    Unique(db.rows) && forall i | i in db.rows :: RowOk(db, i)
  }

  // ----- the effect on resources -----

  predicate IsMaster(rows: Rows, j: Id) { j in rows && rows[j].master == None }

  /** i is stored as part of j's resource: j itself or one of its overrides. */
  predicate PartOf(rows: Rows, i: Id, j: Id) { i in rows && (i == j || OverrideOf(rows[i], j)) }

  /** The origin link is internal bookkeeping, not part of what a client sees. */
  function Visible(row: Row): Row { row.(origin := None) }

  /** Neither j nor any override of j was written. */
  ghost predicate Untouched(rows: Rows, rows': Rows, j: Id) {
    IsMaster(rows, j) || IsMaster(rows', j) ==>
      forall i | PartOf(rows, i, j) || PartOf(rows', i, j) ::
        i in rows && i in rows' && Visible(rows[i]) == Visible(rows'[i])
  }

  /** How a written master moved on: it was soft-deleted, or its sequence rose,
    * or its update time became that of the transaction. */
  predicate MovedOn(row: Row, row': Row, now: int) {
    && row'.cal == row.cal && row.master == None && row'.master == None
    && (|| row' == row.(live := false)
        || row.sequence < row'.sequence
        || (row.sequence == row'.sequence && row'.updatedAt == now && row'.href == row.href))
    && (row' == row.(live := false) || row'.updatedAt == now)
  }

  predicate Logged(db: Db, db': Db, cal: Cal, j: Id) {
    exists k | |db.log| <= k < |db'.log| :: db'.log[k].cal == cal && db'.log[k].id == j
  }

  /** CTags never fall, and rise wherever something was logged. */
  predicate CtagsFollow(db: Db, db': Db) {
    && db'.ctag.Keys == db.ctag.Keys
    && (forall c | c in db.ctag :: db.ctag[c] <= db'.ctag[c])
    && (forall k | |db.log| <= k < |db'.log| && db'.log[k].cal in db.ctag ::
          db.ctag[db'.log[k].cal] < db'.ctag[db'.log[k].cal])
  }

  /** db' is db after a committed transaction that wrote the resources in touched. */
  ghost predicate Effect(db: Db, db': Db, touched: set<Id>, now: int) {
    && db'.clock == now
    && db.log <= db'.log
    && CtagsFollow(db, db')
    && (forall k | |db.log| <= k < |db'.log| :: db'.log[k].id in touched)
    && (forall j | j !in touched :: Untouched(db.rows, db'.rows, j))
    && (forall j | j in touched :: j in db'.rows && Logged(db, db', db'.rows[j].cal, j))
    && (forall j | j in touched && j in db.rows :: MovedOn(db.rows[j], db'.rows[j], now))
    && (forall j | j in touched && j !in db.rows :: db'.rows[j].updatedAt == now && db'.rows[j].master == None)
  }

  // ----- keys and uniqueness -----

  predicate SameKeys(row: Row, row': Row) {
    row'.cal == row.cal && row'.uid == row.uid && row'.rid == row.rid && row'.href == row.href
  }

  lemma UniqueAfterWrite(rows: Rows, id: Id, row: Row)
    requires Unique(rows) && Fits(rows, id, row)
    ensures Unique(rows[id := row])
  {
    var rows' := rows[id := row];
    forall i | i in rows' ensures Fits(rows', i, rows'[i]) {
      if i != id {
        assert Fits(rows, i, rows[i]);
      }
    }
  }

  lemma UniqueWithSameKeys(rows: Rows, rows': Rows)
    requires Unique(rows) && rows'.Keys <= rows.Keys
    requires forall i | i in rows' :: SameKeys(rows[i], rows'[i])
    ensures Unique(rows')
  {
    forall i | i in rows' ensures Fits(rows', i, rows'[i]) {
      assert Fits(rows, i, rows[i]);
    }
  }

  lemma FitsWithSameKeys(rows: Rows, id: Id, row: Row)
    requires Unique(rows) && id in rows && SameKeys(rows[id], row)
    ensures Fits(rows, id, row)
  {
    assert Fits(rows, id, rows[id]);
  }

  // ----- single-resource writes: create, update, delete -----

  /** The resource a row belongs to. */
  function ResourceId(id: Id, row: Row): Id { row.master.GetOr(id) }

  /** Writing row under id and journalling it with append_change. */
  function WriteOne(db: Db, id: Id, row: Row, op: Operation, now: int): Db {
    Appended(db.(rows := db.rows[id := row], clock := now), row.cal, id, op, now)
  }

  /** A row that may be written: it fits, and if an override its master does. */
  predicate Writable(db: Db, id: Id, row: Row, now: int) {
    && Fits(db.rows, id, row)
    && row.cal in db.ctag && row.updatedAt <= now
    && (id in db.rows ==> row.cal == db.rows[id].cal && row.master == db.rows[id].master)
    && (row.master == None ==> row.etag == EtagOf(row))
    && (row.master.Some? ==>
          && row.body.rrule == None
          && row.master.value != id
          && IsMaster(db.rows, row.master.value)
          && db.rows[row.master.value].cal == row.cal)
  }

  lemma TouchedRow(row: Row, now: int)
    ensures var t := Touched(row, now);
            && SameKeys(row, t) && t.master == row.master && t.etag == EtagOf(t) && t.updatedAt == now
            && t.sequence == row.sequence && t.live == row.live
  {
  }

  /** One row written; the journal is not part of the invariant. */
  lemma WriteKeepsWf(db: Db, id: Id, row: Row)
    requires Wf(db) && Writable(db, id, row, db.clock)
    ensures Wf(db.(rows := db.rows[id := row]))
  {
    hide Unique, Fits;
    var d := db.(rows := db.rows[id := row]);
    UniqueAfterWrite(db.rows, id, row);
    forall i | i in d.rows ensures RowOk(d, i) {
      if i in db.rows {
        assert RowOk(db, i);
      }
    }
  }

  lemma LaterKeepsWf(db: Db, d: Db)
    requires Wf(db) && d.rows == db.rows && d.ctag.Keys == db.ctag.Keys && db.clock <= d.clock
    ensures Wf(d)
  {
    hide Unique;
    forall i | i in d.rows ensures RowOk(d, i) {
      assert RowOk(db, i);
    }
  }

  lemma TouchedIsWritable(db: Db, m: Id)
    requires Wf(db) && IsMaster(db.rows, m)
    ensures Writable(db, m, Touched(db.rows[m], db.clock), db.clock)
  {
    assert RowOk(db, m);
    FitsWithSameKeys(db.rows, m, Touched(db.rows[m], db.clock));
  }

  lemma WriteOneKeepsWf(db: Db, id: Id, row: Row, op: Operation, now: int)
    requires Wf(db) && db.clock <= now && Writable(db, id, row, now)
    ensures Wf(WriteOne(db, id, row, op, now))
  {
    hide Wf, Unique, Fits, Touched;
    var d0 := db.(clock := now);
    LaterKeepsWf(db, d0);
    WriteKeepsWf(d0, id, row);
    var d1 := d0.(rows := d0.rows[id := row]);
    if row.master.Some? {
      var m := row.master.value;
      TouchedIsWritable(d1, m);
      WriteKeepsWf(d1, m, Touched(d1.rows[m], now));
      LaterKeepsWf(d1.(rows := d1.rows[m := Touched(d1.rows[m], now)]), WriteOne(db, id, row, op, now));
    } else {
      LaterKeepsWf(d1, WriteOne(db, id, row, op, now));
    }
  }

  lemma WriteOneElsewhere(db: Db, id: Id, row: Row, op: Operation, now: int, j: Id)
    requires Wf(db) && Writable(db, id, row, now) && j != ResourceId(id, row)
    ensures Untouched(db.rows, WriteOne(db, id, row, op, now).rows, j)
  {
    hide Unique, Fits;
    var db' := WriteOne(db, id, row, op, now);
    if IsMaster(db.rows, j) || IsMaster(db'.rows, j) {
      forall i | PartOf(db.rows, i, j) || PartOf(db'.rows, i, j)
        ensures i in db.rows && i in db'.rows && Visible(db.rows[i]) == Visible(db'.rows[i])
      {
        if i in db.rows {
          assert RowOk(db, i);
        }
      }
    }
  }

  lemma WriteOneEffect(db: Db, id: Id, row: Row, op: Operation, now: int)
    requires Wf(db) && db.clock <= now && Writable(db, id, row, now)
    requires id in db.rows && row.master == None ==> MovedOn(db.rows[id], row, now)
    requires id !in db.rows ==> row.updatedAt == now
    ensures Effect(db, WriteOne(db, id, row, op, now), {ResourceId(id, row)}, now)
  {
    hide Unique, Fits, Untouched;
    var db' := WriteOne(db, id, row, op, now);
    var r := ResourceId(id, row);
    assert db'.log[|db.log|].id == r && db'.log[|db.log|].cal == row.cal;
    assert db'.rows[r].cal == row.cal;
    if row.master.Some? {
      assert RowOk(db, r);
    }
    forall j | j != r ensures Untouched(db.rows, db'.rows, j) {
      WriteOneElsewhere(db, id, row, op, now, j);
    }
  }

  /** The check the event API makes before it writes an override. */
  predicate GoodMaster(db: Db, cal: Cal, data: NewEvent) {
    data.master.Some? ==> IsMaster(db.rows, data.master.value) && db.rows[data.master.value].cal == cal
  }

  lemma CreateIsWrite(db: Db, cal: Cal, id: Id, data: NewEvent, now: int)
    requires Wf(db) && db.clock <= now && GoodMaster(db, cal, data)
    requires CreateTx(db, cal, id, data, now).Ok?
    ensures var row := NewRow(cal, data, now); var written := row.(etag := EtagOf(row));
            && CreateTx(db, cal, id, data, now) == Ok(WriteOne(db, id, written, Created, now))
            && Writable(db, id, written, now) && id !in db.rows
  {
  }

  lemma CreateKeeps(db: Db, cal: Cal, id: Id, data: NewEvent, now: int)
    requires Wf(db) && db.clock <= now && GoodMaster(db, cal, data)
    requires CreateTx(db, cal, id, data, now).Ok?
    ensures var d := CreateTx(db, cal, id, data, now).value;
            && id !in db.rows && Wf(d) && Effect(db, d, {data.master.GetOr(id)}, now)
  {
    hide Wf, Effect, Writable, WriteOne, CreateTx;
    CreateIsWrite(db, cal, id, data, now);
    var row := NewRow(cal, data, now);
    WriteOneKeepsWf(db, id, row.(etag := EtagOf(row)), Created, now);
    WriteOneEffect(db, id, row.(etag := EtagOf(row)), Created, now);
  }

  /** The invariant survives a creation exactly if the master given is a master of the same
    * calendar; the code checks that only when it is given the instant of the occurrence. */
  lemma CreateKeepsExactly(db: Db, cal: Cal, id: Id, data: NewEvent, now: int)
    requires Wf(db) && db.clock <= now && CreateTx(db, cal, id, data, now).Ok?
    ensures Wf(CreateTx(db, cal, id, data, now).value) <==> GoodMaster(db, cal, data)
  {
    hide Unique, Fits;
    var d := CreateTx(db, cal, id, data, now).value;
    if GoodMaster(db, cal, data) {
      CreateKeeps(db, cal, id, data, now);
    } else {
      assert !RowOk(d, id);
    }
  }

  lemma UpdateKeeps(db: Db, id: Id, ifMatch: Option<Etag>, p: Patch, now: int)
    requires Wf(db) && db.clock <= now && UpdateTx(db, id, ifMatch, p, now).Ok?
    ensures var d := UpdateTx(db, id, ifMatch, p, now).value;
            Wf(d) && Effect(db, d, {ResourceId(id, db.rows[id])}, now)
  {
    hide Effect;
    var row := PatchedRow(db.rows[id], p, now);
    FitsWithSameKeys(db.rows, id, row);
    assert RowOk(db, id);
    assert Writable(db, id, row, now);
    WriteOneKeepsWf(db, id, row, Updated, now);
    WriteOneEffect(db, id, row, Updated, now);
  }

  lemma DeleteKeeps(db: Db, id: Id, ifMatch: Option<Etag>, now: int)
    requires Wf(db) && db.clock <= now && DeleteTx(db, id, ifMatch, now).Ok?
    ensures var d := DeleteTx(db, id, ifMatch, now).value;
            Wf(d) && Effect(db, d, {ResourceId(id, db.rows[id])}, now)
  {
    hide Effect;
    var row := db.rows[id].(live := false);
    FitsWithSameKeys(db.rows, id, row);
    assert RowOk(db, id);
    assert Writable(db, id, row, now);
    WriteOneKeepsWf(db, id, row, Deleted, now);
    WriteOneEffect(db, id, row, Deleted, now);
  }

  // ----- composing effects inside one transaction -----

  /** Rows rewritten inside the resources already journalled. */
  ghost predicate Within(rows: Rows, rows': Rows, touched: set<Id>) {
    && (forall j | j !in touched :: Untouched(rows, rows', j))
    && (forall j | j in touched :: j in rows && j in rows' && rows'[j] == rows[j])
  }

  lemma UntouchedTransitive(a: Rows, b: Rows, c: Rows, j: Id)
    requires Untouched(a, b, j) && Untouched(b, c, j)
    ensures Untouched(a, c, j)
  {
    if IsMaster(a, j) || IsMaster(c, j) {
      assert PartOf(a, j, j) || PartOf(c, j, j);
      assert IsMaster(b, j);
      forall i | PartOf(a, i, j) || PartOf(c, i, j)
        ensures i in a && i in c && Visible(a[i]) == Visible(c[i])
      {
        assert PartOf(b, i, j);
      }
    }
  }

  lemma Absorb(db: Db, d: Db, rows: Rows, touched: set<Id>, now: int)
    requires Effect(db, d, touched, now) && Within(d.rows, rows, touched)
    ensures Effect(db, d.(rows := rows), touched, now)
  {
    hide Untouched;
    forall j | j !in touched ensures Untouched(db.rows, rows, j) {
      UntouchedTransitive(db.rows, d.rows, rows, j);
    }
  }

  lemma ComposeNew(db: Db, d: Db, e: Db, m: Id, c: Id, now: int)
    requires Effect(db, d, {m}, now) && Effect(d, e, {c}, now)
    requires m != c && c !in db.rows && c !in d.rows
    requires m in e.rows && e.rows[m] == d.rows[m]
    ensures Effect(db, e, {m, c}, now)
  {
    hide Untouched, MovedOn;
    forall j | j != m && j != c ensures Untouched(db.rows, e.rows, j) {
      UntouchedTransitive(db.rows, d.rows, e.rows, j);
    }
  }

  lemma KeptPart(rows: Rows, rows': Rows, m: Id)
    requires Untouched(rows, rows', m) && IsMaster(rows, m)
    ensures m in rows' && Visible(rows'[m]) == Visible(rows[m])
  {
    assert PartOf(rows, m, m);
  }
}
