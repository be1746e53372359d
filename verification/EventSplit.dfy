/** split_event keeps the invariant and writes the master and the continuation only;
  * it partitions the series' overrides at the wall. */
module EventSplit {
  import opened Wrappers
  import opened EventRows
  import opened EventSpec
  import opened EventEffects

  lemma MasterIsNoOverride(db: Db, m: Id)
    requires Wf(db) && m in db.rows && db.rows[m].body.rrule.Some?
    ensures IsMaster(db.rows, m)
  {
    assert RowOk(db, m);
  }

  /** Soft-deleting overrides of m stays inside m's resource. */
  lemma BuriedKeepsWf(d: Db, m: Id, p: Option<Rid> -> bool)
    requires Wf(d)
    ensures Wf(d.(rows := Buried(d.rows, m, p)))
  {
    hide Unique;
    var d' := d.(rows := Buried(d.rows, m, p));
    UniqueWithSameKeys(d.rows, d'.rows);
    forall i | i in d'.rows ensures RowOk(d', i) {
      assert RowOk(d, i);
    }
  }

  lemma BuriedWithin(rows: Rows, m: Id, p: Option<Rid> -> bool, touched: set<Id>)
    requires m in touched && forall j | j in touched :: IsMaster(rows, j)
    ensures Within(rows, Buried(rows, m, p), touched)
  {
    var rows' := Buried(rows, m, p);
    forall j | j !in touched ensures Untouched(rows, rows', j) {
      if IsMaster(rows, j) || IsMaster(rows', j) {
        forall i | PartOf(rows, i, j) || PartOf(rows', i, j)
          ensures i in rows && i in rows' && Visible(rows[i]) == Visible(rows'[i])
        {
        }
      }
    }
  }

  lemma TruncatedIsWritable(db: Db, m: Id, s: SeriesSplit, now: int)
    requires Wf(db) && db.clock <= now && IsMaster(db.rows, m)
    ensures var row := TruncatedMaster(db.rows[m], s, now);
            Writable(db, m, row, now) && MovedOn(db.rows[m], row, now)
  {
    FitsWithSameKeys(db.rows, m, TruncatedMaster(db.rows[m], s, now));
    assert RowOk(db, m);
  }

  lemma TruncateKeeps(db: Db, m: Id, s: SeriesSplit, now: int)
    requires Wf(db) && db.clock <= now && IsMaster(db.rows, m)
    ensures var d := SplitMaster(db, m, s, now);
            && Wf(d) && Effect(db, d, {m}, now) && IsMaster(d.rows, m) && d.rows.Keys == db.rows.Keys
            && d.rows[m].cal == db.rows[m].cal
            && d.rows == Buried(db.rows[m := TruncatedMaster(db.rows[m], s, now)], m, rid => s.At(rid))
            && d.clock == now && d.ctag.Keys == db.ctag.Keys
  {
    hide Effect, Wf, Within, RowOk, Writable, MovedOn, TruncatedMaster;
    var row := TruncatedMaster(db.rows[m], s, now);
    TruncatedIsWritable(db, m, s, now);
    TruncatedStaysMaster(db.rows[m], s, now);
    var d := WriteOne(db, m, row, Updated, now);
    WriteOneKeepsWf(db, m, row, Updated, now);
    WriteOneEffect(db, m, row, Updated, now);
    BuriedKeepsWf(d, m, rid => s.At(rid));
    BuriedWithin(d.rows, m, rid => s.At(rid), {m});
    Absorb(db, d, Buried(d.rows, m, rid => s.At(rid)), {m}, now);
  }

  lemma TruncatedStaysMaster(row: Row, s: SeriesSplit, now: int)
    requires row.master == None
    ensures TruncatedMaster(row, s, now).master == None && TruncatedMaster(row, s, now).cal == row.cal
  {
  }

  // ----- the continuation -----

  /** The continuation's row changes again after it was journalled. */
  lemma AbsorbNew(db: Db, d: Db, c: Id, row: Row, touched: set<Id>, now: int)
    requires Effect(db, d, touched, now) && c in touched && c !in db.rows
    requires row.cal == d.rows[c].cal && row.updatedAt == now && row.master == None
    ensures Effect(db, d.(rows := d.rows[c := row]), touched, now)
  {
    hide MovedOn;
    var d' := d.(rows := d.rows[c := row]);
    forall j | j !in touched ensures Untouched(db.rows, d'.rows, j) {
      if IsMaster(db.rows, j) || IsMaster(d'.rows, j) {
        forall i | PartOf(db.rows, i, j) || PartOf(d'.rows, i, j)
          ensures i in db.rows && i in d'.rows && Visible(db.rows[i]) == Visible(d'.rows[i])
        {
          assert PartOf(db.rows, i, j) || PartOf(d.rows, i, j);
        }
      }
    }
  }

  lemma ReparentedWithin(rows: Rows, m: Id, s: SeriesSplit, c: Id, uid: string, now: int)
    requires IsMaster(rows, m) && IsMaster(rows, c)
    ensures Within(rows, Reparented(rows, m, s, c, uid, now), {m, c})
  {
    var rows' := Reparented(rows, m, s, c, uid, now);
    forall j | j !in {m, c} ensures Untouched(rows, rows', j) {
      if IsMaster(rows, j) || IsMaster(rows', j) {
        forall i | PartOf(rows, i, j) || PartOf(rows', i, j)
          ensures i in rows && i in rows' && Visible(rows[i]) == Visible(rows'[i])
        {
        }
      }
    }
  }

  lemma ReparentedKeepsWf(d: Db, m: Id, s: SeriesSplit, c: Id, uid: string)
    requires Wf(d) && IsMaster(d.rows, m) && IsMaster(d.rows, c) && d.rows[c].cal == d.rows[m].cal
    requires Unique(Reparented(d.rows, m, s, c, uid, d.clock))
    ensures Wf(d.(rows := Reparented(d.rows, m, s, c, uid, d.clock)))
  {
    hide Unique;
    var d' := d.(rows := Reparented(d.rows, m, s, c, uid, d.clock));
    forall i | i in d'.rows ensures RowOk(d', i) {
      assert RowOk(d, i);
    }
  }

  lemma BumpedKeepsWf(d: Db, c: Id)
    requires Wf(d) && IsMaster(d.rows, c)
    ensures Wf(d.(rows := d.rows[c := Bumped(d.rows[c], d.clock)]))
  {
    hide Unique, Fits;
    var d' := d.(rows := d.rows[c := Bumped(d.rows[c], d.clock)]);
    UniqueWithSameKeys(d.rows, d'.rows);
    forall i | i in d'.rows ensures RowOk(d', i) {
      assert RowOk(d, i);
      assert RowOk(d, c);
    }
  }

  lemma SplitKeeps(db: Db, m: Id, s: SeriesSplit, c: Id, now: int)
    requires Wf(db) && db.clock <= now && SplitTx(db, m, s, c, now).Ok?
    requires s.continuation.Some? ==> s.continuation.value.master == None
    ensures var d := SplitTx(db, m, s, c, now).value;
            && Wf(d)
            && (s.continuation == None ==> Effect(db, d, {m}, now))
            && (s.continuation.Some? ==> c !in db.rows && Effect(db, d, {m, c}, now))
  {
    hide Effect, Wf, Within, Unique, SplitMaster, Buried, Reparented, CreateTx, TruncatedMaster, Bumped;
    MasterIsNoOverride(db, m);
    TruncateKeeps(db, m, s, now);
    var d := SplitMaster(db, m, s, now);
    match s.continuation
    case None =>
      BuriedKeepsWf(d, m, rid => s.At(rid) || s.After(rid));
      BuriedWithin(d.rows, m, rid => s.At(rid) || s.After(rid), {m});
      Absorb(db, d, Buried(d.rows, m, rid => s.At(rid) || s.After(rid)), {m}, now);
    case Some(data) =>
      ContinuationKeeps(db, d, m, s, c, data, now);
  }

  lemma ContinuationKeeps(db: Db, d: Db, m: Id, s: SeriesSplit, c: Id, data: NewEvent, now: int)
    requires Wf(d) && Effect(db, d, {m}, now) && IsMaster(d.rows, m) && d.rows.Keys == db.rows.Keys && d.clock == now
    requires data.master == None && CreateTx(d, d.rows[m].cal, c, data, now).Ok?
    requires Unique(Reparented(CreateTx(d, d.rows[m].cal, c, data, now).value.rows, m, s, c, data.uid, now))
    ensures var d2 := CreateTx(d, d.rows[m].cal, c, data, now).value;
            var rows := Reparented(d2.rows, m, s, c, data.uid, now);
            var d3 := d2.(rows := rows[c := Bumped(rows[c], now)]);
            c !in db.rows && Wf(d3) && Effect(db, d3, {m, c}, now)
  {
    hide Effect, Wf, Within, Unique, CreateTx;
    CreateKeeps(d, d.rows[m].cal, c, data, now);
    CreatedRows(d, d.rows[m].cal, c, data, now);
    var d2 := CreateTx(d, d.rows[m].cal, c, data, now).value;
    ComposeNew(db, d, d2, m, c, now);
    var rows := Reparented(d2.rows, m, s, c, data.uid, now);
    ReparentedWithin(d2.rows, m, s, c, data.uid, now);
    Absorb(db, d2, rows, {m, c}, now);
    ReparentedKeepsWf(d2, m, s, c, data.uid);
    var d3 := d2.(rows := rows);
    BumpedKeepsWf(d3, c);
    AbsorbNew(db, d3, c, Bumped(rows[c], now), {m, c}, now);
  }

  lemma CreatedRows(db: Db, cal: Cal, id: Id, data: NewEvent, now: int)
    requires data.master == None && CreateTx(db, cal, id, data, now).Ok?
    ensures var d := CreateTx(db, cal, id, data, now).value; var row := NewRow(cal, data, now);
            d.rows == db.rows[id := row.(etag := EtagOf(row))] && id !in db.rows && d.clock == now
  {
  }

  // ----- the wall partitions the overrides -----

  /** The live overrides the continuation takes over. */
  predicate Moves(rows: Rows, m: Id, s: SeriesSplit, i: Id) {
    && s.continuation.Some? && i in rows && OverrideOf(rows[i], m) && rows[i].live
    && !s.At(rows[i].rid) && s.After(rows[i].rid)
  }

  /** What becomes of one live override of the split series. */
  function Fate(row: Row, s: SeriesSplit, c: Id, now: int): Row {
    if s.At(row.rid) then row.(live := false)
    else if !s.After(row.rid) then row
    else match s.continuation
      case None => row.(live := false)
      case Some(data) => row.(master := Some(c), uid := data.uid, updatedAt := now)
  }

  /** The row the split leaves at the head of the continuation. */
  function ContinuationRow(cal: Cal, data: NewEvent, now: int): Row { Bumped(NewRow(cal, data, now), now) }

  /** Every row of the database after a split, named. */
  lemma SplitPartition(db: Db, m: Id, s: SeriesSplit, c: Id, now: int)
    requires Wf(db) && SplitTx(db, m, s, c, now).Ok?
    requires s.continuation.Some? ==> s.continuation.value.master == None
    ensures var d := SplitTx(db, m, s, c, now).value;
            && d.rows.Keys == db.rows.Keys + (if s.continuation.Some? then {c} else {})
            && d.rows[m] == TruncatedMaster(db.rows[m], s, now)
            && (s.continuation.Some? ==>
                  c !in db.rows && d.rows[c] == ContinuationRow(db.rows[m].cal, s.continuation.value, now))
            && forall i | i in db.rows && i != m ::
                 d.rows[i] == if OverrideOf(db.rows[i], m) && db.rows[i].live then Fate(db.rows[i], s, c, now)
                              else db.rows[i]
  {
    hide Wf, Unique, CreateTx, TruncatedMaster;
    MasterIsNoOverride(db, m);
    TruncatedStaysMaster(db.rows[m], s, now);
    var d := SplitMaster(db, m, s, now);
    if s.continuation.Some? {
      CreatedRows(d, db.rows[m].cal, c, s.continuation.value, now);
    }
  }
}
