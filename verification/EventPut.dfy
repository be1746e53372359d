/** put_series keeps the invariant, writes one resource only, and leaves that
  * resource holding exactly what was put. */
module EventPut {
  import opened Wrappers
  import opened EventRows
  import opened EventSpec
  import opened EventEffects

  // ----- inserting the overrides -----

  /** d is db with one row per override, under the given ids. */
  predicate Inserted(db: Db, d: Db, cal: Cal, m: Id, overrides: seq<PutData>, ids: seq<Id>, now: int)
    requires |ids| == |overrides|
  {
    && d == db.(rows := d.rows)
    && (forall i | i in db.rows :: i in d.rows && d.rows[i] == db.rows[i])
    && (forall i | i in d.rows :: i in db.rows || i in ids)
    && (forall k | 0 <= k < |ids| ::
          ids[k] !in db.rows && ids[k] in d.rows && d.rows[ids[k]] == PutRow(cal, None, Some(m), overrides[k], now))
  }

  lemma OneMoreInserted(db: Db, d: Db, cal: Cal, m: Id, overrides: seq<PutData>, ids: seq<Id>, now: int)
    requires |ids| == |overrides| > 0
    requires var n := |ids| - 1; Inserted(db, d, cal, m, overrides[..n], ids[..n], now) && ids[n] !in d.rows
    ensures var n := |ids| - 1;
            var e := d.(rows := d.rows[ids[n] := PutRow(cal, None, Some(m), overrides[n], now)]);
            Inserted(db, e, cal, m, overrides, ids, now)
  {
    hide PutRow;
    var n := |ids| - 1;
    var e := d.(rows := d.rows[ids[n] := PutRow(cal, None, Some(m), overrides[n], now)]);
    forall i | i in e.rows ensures i in db.rows || i in ids {
      assert i == ids[n] || i in db.rows || i in ids[..n];
    }
    forall k | 0 <= k < |ids|
      ensures ids[k] !in db.rows && ids[k] in e.rows && e.rows[ids[k]] == PutRow(cal, None, Some(m), overrides[k], now)
    {
      if k < n {
        assert ids[..n][k] == ids[k] && overrides[..n][k] == overrides[k];
      }
    }
  }

  lemma {:induction false} OverridesInserted(db: Db, cal: Cal, m: Id, overrides: seq<PutData>, ids: seq<Id>, now: int)
    requires |ids| == |overrides| && Unique(db.rows)
    requires WithOverrides(db, cal, m, overrides, ids, now).Ok?
    ensures var d := WithOverrides(db, cal, m, overrides, ids, now).value;
            Unique(d.rows) && Inserted(db, d, cal, m, overrides, ids, now)
    decreases |overrides|
  {
    hide Unique, PutRow, Fits, Inserted;
    if overrides == [] {
      NothingInserted(db, cal, m, now);
    } else {
      var n := |overrides| - 1;
      OverridesInserted(db, cal, m, overrides[..n], ids[..n], now);
      var d := WithOverrides(db, cal, m, overrides[..n], ids[..n], now).value;
      UniqueAfterWrite(d.rows, ids[n], PutRow(cal, None, Some(m), overrides[n], now));
      OneMoreInserted(db, d, cal, m, overrides, ids, now);
    }
  }

  lemma NothingInserted(db: Db, cal: Cal, m: Id, now: int)
    ensures Inserted(db, db, cal, m, [], [], now)
  {
  }

  // ----- writing the master -----

  /** The master as it was put, wherever it went. */
  predicate PutMaster(row: Row, m: Id, cal: Cal, href: Name, data: PutData, now: int) {
    && row.cal == cal && row.master == None && ResourceName(m, row) == href
    && row.uid == data.uid && row.body == data.body && row.floating == data.floating
    && row.attendees == data.attendees && row.alarms == data.alarms
    && row.live && row.updatedAt == now
  }

  /** A target the lookup could have chosen. */
  predicate Fitting(db: Db, p: Put, target: Target) {
    match target
    case Fresh => true
    case Replace(id) => ServedAt(db.rows, p.cal, p.href, id)
    case Revive(id) => HasUid(db.rows, p.cal, p.master.uid, id) && !db.rows[id].live
  }

  lemma TargetFits(db: Db, p: Put)
    requires PutTarget(db.rows, p.cal, p.href, p.master.uid, p.pre).Ok?
    ensures Fitting(db, p, PutTarget(db.rows, p.cal, p.href, p.master.uid, p.pre).value)
  {
  }

  lemma MasterWritten(db: Db, p: Put, target: Target, now: int)
    requires Unique(db.rows) && Fitting(db, p, target) && p.master.rid == None
    requires WriteMaster(db, p.cal, p.href, target, p.master, p.minted, now).Ok?
    ensures var (rows, m) := WriteMaster(db, p.cal, p.href, target, p.master, p.minted, now).value;
            && Unique(rows) && rows == db.rows[m := rows[m]]
            && PutMaster(rows[m], m, p.cal, p.href, p.master, now) && PlainMaster(rows[m])
            && (target.Fresh? ==> m !in db.rows && p.cal in db.ctag)
            && (!target.Fresh? ==> m == target.id && m in db.rows && PlainMaster(db.rows[m]) && db.rows[m].cal == p.cal
                                   && db.rows[m].sequence < rows[m].sequence)
  {
    hide Unique, Fits;
    var (rows, m) := WriteMaster(db, p.cal, p.href, target, p.master, p.minted, now).value;
    assert Fits(db.rows, m, rows[m]);
    UniqueAfterWrite(db.rows, m, rows[m]);
  }

  // ----- the whole transaction -----

  /** What flush_events hands over: one master, its own overrides, one UID. */
  predicate WellFormedPut(p: Put) {
    && p.Valid() && p.master.rid == None
    && forall k | 0 <= k < |p.overrides| :: p.overrides[k].rid.Some? && p.overrides[k].uid == p.master.uid
  }

  /** The rows outside m's resource stay, up to the origin link. */
  predicate OthersStay(rows: Rows, rows': Rows, m: Id) {
    forall i | i in rows && i != m && !OverrideOf(rows[i], m) :: i in rows' && Visible(rows'[i]) == Visible(rows[i])
  }

  /** m's overrides are one per override put, and nothing else is new. */
  predicate HoldsOverrides(rows: Rows, rows': Rows, p: Put, m: Id, now: int)
    requires p.Valid()
  {
    && (forall k | 0 <= k < |p.ids| ::
          && p.ids[k] in rows' && p.ids[k] != m
          && (p.ids[k] in rows ==> OverrideOf(rows[p.ids[k]], m))
          && rows'[p.ids[k]] == PutRow(p.cal, None, Some(m), p.overrides[k], now))
    && (forall i | i in rows' && i != m :: i in p.ids || (i in rows && !OverrideOf(rows[i], m)))
  }

  predicate Journalled(db: Db, d: Db, cal: Cal, m: Id) {
    && |d.log| == |db.log| + 1 && db.log <= d.log && d.log[|db.log|].cal == cal && d.log[|db.log|].id == m
    && cal in db.ctag && d.ctag == db.ctag[cal := db.ctag[cal] + 1]
  }

  /** The database after a committed put, its target named. */
  predicate Stored(db: Db, d: Db, p: Put, m: Id, now: int)
    requires p.Valid()
  {
    && d.clock == now && m in d.rows && Unique(d.rows)
    && PlainMaster(d.rows[m]) && d.rows[m].etag == EtagOf(d.rows[m])
    && PutMaster(d.rows[m], m, p.cal, p.href, p.master, now)
    && OthersStay(db.rows, d.rows, m)
    && HoldsOverrides(db.rows, d.rows, p, m, now)
    && Journalled(db, d, p.cal, m)
    && (m in db.rows ==>
          PlainMaster(db.rows[m]) && db.rows[m].cal == p.cal && db.rows[m].sequence < d.rows[m].sequence)
  }

  lemma ClearedRows(rows: Rows, m: Id)
    requires IsMaster(rows, m) && Unique(rows)
    ensures var rows' := WithoutOverrides(rows, m);
            && Unique(rows') && m in rows' && rows'[m] == rows[m].(origin := rows'[m].origin)
            && OthersStay(rows, rows', m)
            && forall i | i in rows' :: i in rows && !OverrideOf(rows[i], m)
  {
    UniqueWithSameKeys(rows, WithoutOverrides(rows, m));
  }

  /** The middle of the transaction: from the written master to the inserted overrides. */
  lemma OverridesReplaced(db: Db, rows: Rows, p: Put, m: Id, now: int)
    requires WellFormedPut(p) && IsMaster(rows, m) && Unique(rows) && rows == db.rows[m := rows[m]]
    requires m in db.rows ==> db.rows[m].master == None
    requires WithOverrides(db.(rows := WithoutOverrides(rows, m), clock := now), p.cal, m, p.overrides, p.ids, now).Ok?
    ensures var cleared := db.(rows := WithoutOverrides(rows, m), clock := now);
            var d := WithOverrides(cleared, p.cal, m, p.overrides, p.ids, now).value;
            && d == db.(rows := d.rows, clock := now) && Unique(d.rows)
            && m in d.rows && d.rows[m] == rows[m].(origin := d.rows[m].origin)
            && OthersStay(db.rows, d.rows, m) && HoldsOverrides(db.rows, d.rows, p, m, now)
  {
    hide Unique, PutRow, WithOverrides, WithoutOverrides, Inserted, OthersStay, HoldsOverrides, Visible;
    ClearedRows(rows, m);
    var d0 := db.(rows := WithoutOverrides(rows, m), clock := now);
    OverridesInserted(d0, p.cal, m, p.overrides, p.ids, now);
    var d := WithOverrides(d0, p.cal, m, p.overrides, p.ids, now).value;
    InsertedOthersStay(db.rows, rows, d0, d, p, m, now);
    InsertedHolds(db.rows, rows, d0, d, p, m, now);
    KeptByInsertion(d0, d, p, m, now);
  }

  lemma KeptByInsertion(d0: Db, d: Db, p: Put, m: Id, now: int)
    requires p.Valid() && Inserted(d0, d, p.cal, m, p.overrides, p.ids, now) && m in d0.rows
    ensures d == d0.(rows := d.rows) && m in d.rows && d.rows[m] == d0.rows[m]
  {
  }

  lemma InsertedOthersStay(was: Rows, rows: Rows, d0: Db, d: Db, p: Put, m: Id, now: int)
    requires p.Valid() && m in rows && rows == was[m := rows[m]]
    requires OthersStay(rows, d0.rows, m) && Inserted(d0, d, p.cal, m, p.overrides, p.ids, now)
    ensures OthersStay(was, d.rows, m)
  {
    hide Visible, PutRow;
    forall i | i in was && i != m && !OverrideOf(was[i], m)
      ensures i in d.rows && Visible(d.rows[i]) == Visible(was[i])
    {
      assert rows[i] == was[i];
    }
  }

  lemma InsertedHolds(was: Rows, rows: Rows, d0: Db, d: Db, p: Put, m: Id, now: int)
    requires p.Valid() && m in rows && rows == was[m := rows[m]] && m in d0.rows
    requires OthersStay(rows, d0.rows, m) && Inserted(d0, d, p.cal, m, p.overrides, p.ids, now)
    requires forall i | i in d0.rows :: i in rows && !OverrideOf(rows[i], m)
    ensures HoldsOverrides(was, d.rows, p, m, now)
  {
    hide PutRow, Visible;
    forall k | 0 <= k < |p.ids|
      ensures p.ids[k] in d.rows && p.ids[k] != m && (p.ids[k] in was ==> OverrideOf(was[p.ids[k]], m))
    {
      if p.ids[k] in was && p.ids[k] != m {
        assert rows[p.ids[k]] == was[p.ids[k]];
      }
    }
  }

  lemma PutStores(db: Db, p: Put, now: int)
    requires Wf(db) && WellFormedPut(p) && PutTx(db, p, now).Ok?
    ensures var (d, m, _) := PutTx(db, p, now).value; Stored(db, d, p, m, now)
  {
    hide Unique, WithOverrides, WithoutOverrides, PutTarget, WriteMaster, HoldsOverrides, OthersStay, PutMaster, Fits;
    TargetFits(db, p);
    var target := PutTarget(db.rows, p.cal, p.href, p.master.uid, p.pre).value;
    MasterWritten(db, p, target, now);
    var (rows, m) := WriteMaster(db, p.cal, p.href, target, p.master, p.minted, now).value;
    if !target.Fresh? {
      assert RowOk(db, m);
    }
    OverridesReplaced(db, rows, p, m, now);
    var d2 :=
      WithOverrides(db.(rows := WithoutOverrides(rows, m), clock := now), p.cal, m, p.overrides, p.ids, now).value;
    var row := d2.rows[m].(etag := EtagOf(d2.rows[m]));
    EtagWritten(db.rows, d2.rows, p, m, row, now);
    SameMaster(rows[m], row, m, p, now);
  }

  lemma SameMaster(row: Row, row': Row, m: Id, p: Put, now: int)
    requires PutMaster(row, m, p.cal, p.href, p.master, now) && row' == row.(origin := row'.origin, etag := row'.etag)
    ensures PutMaster(row', m, p.cal, p.href, p.master, now)
  {
  }

  lemma EtagWritten(rows: Rows, rows': Rows, p: Put, m: Id, row: Row, now: int)
    requires p.Valid() && m in rows' && SameKeys(rows'[m], row) && Unique(rows')
    requires OthersStay(rows, rows', m) && HoldsOverrides(rows, rows', p, m, now)
    ensures var rows'' := rows'[m := row];
            Unique(rows'') && OthersStay(rows, rows'', m) && HoldsOverrides(rows, rows'', p, m, now)
  {
    hide PutRow;
    UniqueWithSameKeys(rows', rows'[m := row]);
  }

  lemma StoredKeepsWf(db: Db, d: Db, p: Put, m: Id, now: int)
    requires Wf(db) && db.clock <= now && WellFormedPut(p) && Stored(db, d, p, m, now)
    ensures Wf(d)
  {
    hide Unique, Fits;
    forall i | i in d.rows ensures RowOk(d, i) {
      if i == m {
      } else if i in p.ids {
        assert RowOk(d, i);
      } else {
        assert RowOk(db, i);
        assert Visible(d.rows[i]) == Visible(db.rows[i]);
        if db.rows[i].master.Some? {
          OtherMasterStays(db, d, p, m, i, now);
        }
      }
    }
  }

  lemma OtherMasterStays(db: Db, d: Db, p: Put, m: Id, i: Id, now: int)
    requires Wf(db) && p.Valid() && Stored(db, d, p, m, now)
    requires i in db.rows && db.rows[i].master.Some? && db.rows[i].master != Some(m)
    ensures var j := db.rows[i].master.value; IsMaster(d.rows, j) && d.rows[j].cal == db.rows[i].cal
  {
    hide Unique;
    assert RowOk(db, i);
    assert Visible(d.rows[db.rows[i].master.value]) == Visible(db.rows[db.rows[i].master.value]);
  }

  lemma StoredElsewhere(db: Db, d: Db, p: Put, m: Id, now: int, j: Id)
    requires WellFormedPut(p) && Stored(db, d, p, m, now) && j != m
    ensures Untouched(db.rows, d.rows, j)
  {
    hide Unique, PutMaster, EtagOf;
    if IsMaster(db.rows, j) || IsMaster(d.rows, j) {
      forall i | PartOf(db.rows, i, j) || PartOf(d.rows, i, j)
        ensures i in db.rows && i in d.rows && Visible(db.rows[i]) == Visible(d.rows[i])
      {
        assert i != m;
      }
    }
  }

  lemma StoredEffect(db: Db, d: Db, p: Put, m: Id, now: int)
    requires Wf(db) && WellFormedPut(p) && Stored(db, d, p, m, now)
    ensures Effect(db, d, {m}, now)
  {
    hide Unique, RowOk, Untouched, HoldsOverrides, OthersStay;
    assert d.log[|db.log|].id == m;
    forall j | j != m ensures Untouched(db.rows, d.rows, j) {
      StoredElsewhere(db, d, p, m, now, j);
    }
  }

  // ----- origin links across a put -----

  /** The origin link of i once m's overrides are gone. */
  function OriginLeft(rows: Rows, m: Id, i: Id): Option<Id> {
    if i !in rows || rows[i].origin == None then None
    else if rows[i].origin.value in rows && OverrideOf(rows[rows[i].origin.value], m) then None
    else rows[i].origin
  }

  lemma WrittenOrigin(db: Db, p: Put, target: Target, now: int)
    requires Fitting(db, p, target) && WriteMaster(db, p.cal, p.href, target, p.master, p.minted, now).Ok?
    ensures var (rows, m) := WriteMaster(db, p.cal, p.href, target, p.master, p.minted, now).value;
            rows[m].origin == if m in db.rows then db.rows[m].origin else None
  {
  }

  lemma ClearedOrigins(was: Rows, rows: Rows, m: Id)
    requires IsMaster(rows, m) && rows == was[m := rows[m]] && (m in was ==> was[m].master == None)
    requires rows[m].origin == if m in was then was[m].origin else None
    ensures forall i | i in WithoutOverrides(rows, m) :: WithoutOverrides(rows, m)[i].origin == OriginLeft(was, m, i)
  {
  }

  lemma InsertedOrigins(was: Rows, d0: Db, d: Db, p: Put, m: Id, now: int)
    requires p.Valid() && Inserted(d0, d, p.cal, m, p.overrides, p.ids, now)
    requires forall i | i in d0.rows :: d0.rows[i].origin == OriginLeft(was, m, i)
    ensures forall i | i in d.rows :: d.rows[i].origin == if i in p.ids then None else OriginLeft(was, m, i)
  {
    forall i | i in d.rows ensures d.rows[i].origin == if i in p.ids then None else OriginLeft(was, m, i) {
      if i in p.ids {
        var k :| 0 <= k < |p.ids| && p.ids[k] == i;
      }
    }
  }

  /** A put clears exactly the links to the overrides it removes; rows it inserts have none. */
  lemma PutOrigins(db: Db, p: Put, now: int)
    requires Wf(db) && WellFormedPut(p) && PutTx(db, p, now).Ok?
    ensures var (d, m, _) := PutTx(db, p, now).value;
            forall i | i in d.rows :: d.rows[i].origin == if i in p.ids then None else OriginLeft(db.rows, m, i)
  {
    hide Unique, WithOverrides, WithoutOverrides, PutTarget, WriteMaster, PutMaster, Fits, PutRow, Inserted, OriginLeft;
    TargetFits(db, p);
    var target := PutTarget(db.rows, p.cal, p.href, p.master.uid, p.pre).value;
    MasterWritten(db, p, target, now);
    WrittenOrigin(db, p, target, now);
    var (rows, m) := WriteMaster(db, p.cal, p.href, target, p.master, p.minted, now).value;
    ClearedOrigins(db.rows, rows, m);
    ClearedRows(rows, m);
    var d0 := db.(rows := WithoutOverrides(rows, m), clock := now);
    OverridesInserted(d0, p.cal, m, p.overrides, p.ids, now);
    var d2 := WithOverrides(d0, p.cal, m, p.overrides, p.ids, now).value;
    InsertedOrigins(db.rows, d0, d2, p, m, now);
    KeptByInsertion(d0, d2, p, m, now);
  }
}
