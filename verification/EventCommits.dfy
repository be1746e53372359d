/** When a create, a split and a put commit, exactly: what stands in the way is named in columns,
  * row by row, and so is the error. */
module EventCommits {
  import opened Wrappers
  import opened Civil
  import opened EventRows
  import opened EventSpec
  import opened EventEffects
  import opened EventSplit
  import opened EventPut
  import opened EventSeen

  // ----- places -----

  /** One RECURRENCE-ID to the index: no RECURRENCE-ID, one clock, one date, or a date and its midnight. */
  predicate SameOccurrence(a: Option<Rid>, b: Option<Rid>) {
    match (a, b)
    case (None, None) => true
    case (Some(AtWall(v)), Some(AtWall(w))) => v == w
    case (Some(OnDate(d)), Some(OnDate(e))) => d == e
    case (Some(AtWall(v)), Some(OnDate(d))) => v == d * 86_400_000_000_000
    case (Some(OnDate(d)), Some(AtWall(v))) => v == d * 86_400_000_000_000
    case _ => false
  }

  /** The row, deleted or not, has this UID and RECURRENCE-ID in the calendar. */
  predicate TakesPlace(row: Row, cal: Cal, uid: string, rid: Option<Rid>) {
    row.cal == cal && row.uid == uid && SameOccurrence(row.rid, rid)
  }

  /** The row, deleted or not, has this name in the calendar: the one it was put under, or its id's. */
  predicate TakesName(i: Id, row: Row, cal: Cal, name: Name) {
    row.cal == cal && (row.href == Some(name) || (row.href == None && name == IdName(i)))
  }

  lemma OccurrenceKeys(a: Option<Rid>, b: Option<Rid>)
    ensures SameOccurrence(a, b) <==> RidKey(a) == RidKey(b)
  {
    assert DAY == 86_400_000_000_000;
  }

  lemma FitsExactly(rows: Rows, id: Id, row: Row)
    ensures Fits(rows, id, row) <==>
            forall j | j in rows && j != id ::
              !TakesPlace(rows[j], row.cal, row.uid, row.rid) && !TakesName(j, rows[j], row.cal, ResourceName(id, row))
  {
    forall j | j in rows && j != id
      ensures SameUidKey(rows[j], row) <==> TakesPlace(rows[j], row.cal, row.uid, row.rid)
      ensures SameNameKey(j, rows[j], id, row) <==> TakesName(j, rows[j], row.cal, ResourceName(id, row))
    {
      OccurrenceKeys(rows[j].rid, row.rid);
    }
  }

  // ----- create -----

  /** No row has the id, the place or the name. */
  predicate Vacant(rows: Rows, id: Id, cal: Cal, uid: string, rid: Option<Rid>, name: Name) {
    id !in rows && forall j | j in rows :: !TakesPlace(rows[j], cal, uid, rid) && !TakesName(j, rows[j], cal, name)
  }

  lemma InsertAccepted(db: Db, id: Id, row: Row)
    ensures InsertError(db, id, row)
         == if !Vacant(db.rows, id, row.cal, row.uid, row.rid, ResourceName(id, row)) then Some(Conflict)
            else if row.cal in db.ctag && (row.master.Some? ==> row.master.value in db.rows && row.body.rrule == None)
            then None
            else Some(Database)
  {
    hide Fits, TakesPlace, TakesName, ResourceName;
    FitsExactly(db.rows, id, row);
  }

  /** A create commits exactly if its id is free and no row of the calendar has its UID with its
    * RECURRENCE-ID or its name, the calendar exists, and an override has an existing master and no rule;
    * it is a conflict exactly if the first fails. */
  lemma CreateAccepted(db: Db, cal: Cal, id: Id, data: NewEvent, now: int)
    ensures var r := CreateTx(db, cal, id, data, now);
            if !Vacant(db.rows, id, cal, data.uid, data.rid, IdName(id)) then r == Err(Conflict)
            else if cal in db.ctag && (data.master.Some? ==> data.master.value in db.rows && data.body.rrule == None)
            then r.Ok?
            else r == Err(Database)
  {
    hide Vacant;
    InsertAccepted(db, id, NewRow(cal, data, now));
  }

  // ----- the overrides of a put -----

  /** Rows for the overrides can be added: fresh ids, free places and names, and no two alike. */
  predicate Joins(rows: Rows, cal: Cal, overrides: seq<PutData>, ids: seq<Id>)
    requires |ids| == |overrides|
  {
    && (forall k | 0 <= k < |ids| :: Vacant(rows, ids[k], cal, overrides[k].uid, overrides[k].rid, IdName(ids[k])))
    && (forall k, l | 0 <= k < l < |ids| ::
          ids[k] != ids[l]
          && !(overrides[k].uid == overrides[l].uid && SameOccurrence(overrides[k].rid, overrides[l].rid)))
  }

  lemma VacantAfter(db: Db, d: Db, cal: Cal, m: Id, overrides: seq<PutData>, ids: seq<Id>, now: int, id: Id,
      data: PutData)
    requires |ids| == |overrides| && Inserted(db, d, cal, m, overrides, ids, now)
    ensures Vacant(d.rows, id, cal, data.uid, data.rid, IdName(id)) <==>
            && Vacant(db.rows, id, cal, data.uid, data.rid, IdName(id))
            && forall k | 0 <= k < |ids| ::
                 ids[k] != id && !(overrides[k].uid == data.uid && SameOccurrence(overrides[k].rid, data.rid))
  {
    hide SameOccurrence;
    forall k | 0 <= k < |ids|
      ensures TakesPlace(d.rows[ids[k]], cal, data.uid, data.rid) <==>
              overrides[k].uid == data.uid && SameOccurrence(overrides[k].rid, data.rid)
      ensures TakesName(ids[k], d.rows[ids[k]], cal, IdName(id)) <==> ids[k] == id
    {
    }
    forall i | i in db.rows ensures i in d.rows && d.rows[i] == db.rows[i] {
    }
    forall i | i in d.rows && i !in db.rows ensures exists k :: 0 <= k < |ids| && ids[k] == i {
    }
  }

  lemma {:induction false} OverridesCommit(db: Db, cal: Cal, m: Id, overrides: seq<PutData>, ids: seq<Id>, now: int)
    requires |ids| == |overrides| && Unique(db.rows) && cal in db.ctag && m in db.rows
    ensures WithOverrides(db, cal, m, overrides, ids, now).Ok? <==> Joins(db.rows, cal, overrides, ids)
    decreases |overrides|
  {
    hide Unique, PutRow, Fits, Inserted, Vacant, SameOccurrence, InsertError;
    if overrides != [] {
      var n := |overrides| - 1;
      OverridesCommit(db, cal, m, overrides[..n], ids[..n], now);
      JoinsStep(db.rows, cal, overrides, ids);
      if Joins(db.rows, cal, overrides[..n], ids[..n]) {
        OverridesInserted(db, cal, m, overrides[..n], ids[..n], now);
        var d := WithOverrides(db, cal, m, overrides[..n], ids[..n], now).value;
        VacantAfter(db, d, cal, m, overrides[..n], ids[..n], now, ids[n], overrides[n]);
        PutInserts(db, d, cal, m, overrides, ids, now);
      }
    }
  }

  lemma PutInserts(db: Db, d: Db, cal: Cal, m: Id, overrides: seq<PutData>, ids: seq<Id>, now: int)
    requires |ids| == |overrides| && overrides != [] && cal in db.ctag && m in db.rows
    requires var n := |ids| - 1; Inserted(db, d, cal, m, overrides[..n], ids[..n], now)
    ensures var (o, id) := (overrides[|ids| - 1], ids[|ids| - 1]);
            InsertError(d, id, PutRow(cal, None, Some(m), o, now)) == None <==>
            Vacant(d.rows, id, cal, o.uid, o.rid, IdName(id))
  {
    hide Vacant;
    InsertAccepted(d, ids[|ids| - 1], PutRow(cal, None, Some(m), overrides[|ids| - 1], now));
  }

  /** The last override joins beside the others. */
  lemma JoinsStep(rows: Rows, cal: Cal, overrides: seq<PutData>, ids: seq<Id>)
    requires |ids| == |overrides| && overrides != []
    ensures var n := |ids| - 1;
            Joins(rows, cal, overrides, ids) <==>
            && Joins(rows, cal, overrides[..n], ids[..n])
            && Vacant(rows, ids[n], cal, overrides[n].uid, overrides[n].rid, IdName(ids[n]))
            && forall k | 0 <= k < n ::
                 ids[..n][k] != ids[n]
                 && !(overrides[..n][k].uid == overrides[n].uid
                      && SameOccurrence(overrides[..n][k].rid, overrides[n].rid))
  {
    hide Vacant, SameOccurrence;
    var n := |ids| - 1;
    forall k | 0 <= k < n ensures ids[..n][k] == ids[k] && overrides[..n][k] == overrides[k] {
    }
  }

  // ----- put -----

  /** What lets a put begin: its zones are known, its precondition holds of the stored etag of the row
    * served at its name, and where none is served no live row of the calendar has its UID. */
  predicate Admits(rows: Rows, p: Put) {
    && (p.master.body.tzid.Some? ==> p.master.body.tzid.value in p.zones)
    && (forall k | 0 <= k < |p.overrides| && p.overrides[k].body.tzid.Some? ::
          p.overrides[k].body.tzid.value in p.zones)
    && (match p.pre
        case NoCondition => true
        case NotExists => forall i | i in rows :: !IsServed(rows, p, i)
        case MatchEtag(e) => exists i :: i in rows && IsServed(rows, p, i) && rows[i].etag == e)
    && ((forall i | i in rows :: !IsServed(rows, p, i)) ==>
          forall i | i in rows && rows[i].live && rows[i].master == None && rows[i].rid == None ::
            !TakesPlace(rows[i], p.cal, p.master.uid, None))
  }

  predicate IsServed(rows: Rows, p: Put, i: Id)
    requires i in rows
  {
    rows[i].live && rows[i].master == None && rows[i].rid == None && TakesName(i, rows[i], p.cal, p.href)
  }

  lemma ServedExactly(rows: Rows, p: Put, i: Id)
    ensures ServedAt(rows, p.cal, p.href, i) <==> i in rows && IsServed(rows, p, i)
    ensures HasUid(rows, p.cal, p.master.uid, i) <==>
            i in rows && rows[i].master == None && rows[i].rid == None && TakesPlace(rows[i], p.cal, p.master.uid, None)
  {
  }

  lemma OneServed(rows: Rows, p: Put, i: Id, j: Id)
    requires Unique(rows) && ServedAt(rows, p.cal, p.href, i) && ServedAt(rows, p.cal, p.href, j)
    ensures i == j
  {
    assert Fits(rows, i, rows[i]);
  }

  lemma OneHolder(rows: Rows, p: Put, i: Id, j: Id)
    requires Unique(rows) && HasUid(rows, p.cal, p.master.uid, i) && HasUid(rows, p.cal, p.master.uid, j)
    ensures i == j
  {
    assert Fits(rows, i, rows[i]);
  }

  /** The master's new row stands nobody's place or name in the way, its own row aside; a new row needs
    * an id and an existing calendar. */
  predicate MasterFits(db: Db, p: Put, target: Target) {
    && (forall j | j in db.rows && (target.Fresh? || j != target.id) ::
          !TakesPlace(db.rows[j], p.cal, p.master.uid, None) && !TakesName(j, db.rows[j], p.cal, p.href))
    && (target.Fresh? ==>
          p.cal in db.ctag && (p.minted !in db.rows || (p.href.IdName? && p.href.id !in db.rows)))
  }

  /** The new overrides have ids of their own, or of overrides they replace, and places and names that no
    * row outside the resource has. */
  predicate OverridesFit(rows: Rows, p: Put, m: Id)
    requires p.Valid()
  {
    && (forall k | 0 <= k < |p.ids| ::
          && p.ids[k] != m && (p.ids[k] in rows ==> rows[p.ids[k]].master == Some(m)) && p.href != IdName(p.ids[k])
          && forall j | j in rows && j != m && rows[j].master != Some(m) ::
               !TakesPlace(rows[j], p.cal, p.overrides[k].uid, p.overrides[k].rid)
               && !TakesName(j, rows[j], p.cal, IdName(p.ids[k])))
    && (forall k, l | 0 <= k < l < |p.ids| ::
          p.ids[k] != p.ids[l]
          && !(p.overrides[k].uid == p.overrides[l].uid && SameOccurrence(p.overrides[k].rid, p.overrides[l].rid)))
  }

  /** The row a put goes to: the one served at its name; else a deleted one with its UID; else a new one. */
  predicate GoesTo(rows: Rows, p: Put, target: Target) {
    match target
    case Replace(m) => m in rows && IsServed(rows, p, m)
    case Revive(m) =>
      && m in rows && !rows[m].live && rows[m].master == None && rows[m].rid == None
      && TakesPlace(rows[m], p.cal, p.master.uid, None) && forall i | i in rows :: !IsServed(rows, p, i)
    case Fresh =>
      forall i | i in rows && rows[i].master == None && rows[i].rid == None ::
        !IsServed(rows, p, i) && !TakesPlace(rows[i], p.cal, p.master.uid, None)
  }

  lemma TargetExactly(db: Db, p: Put)
    requires Wf(db) && WellFormedPut(p)
    ensures var r := PutTarget(db.rows, p.cal, p.href, p.master.uid, p.pre);
            r.Ok? ==> Fitting(db, p, r.value) && GoesTo(db.rows, p, r.value)
    ensures p.ZonesKnown() && PutTarget(db.rows, p.cal, p.href, p.master.uid, p.pre).Ok? <==> Admits(db.rows, p)
    ensures PutTarget(db.rows, p.cal, p.href, p.master.uid, p.pre).Err? ==>
              PutTarget(db.rows, p.cal, p.href, p.master.uid, p.pre) == Err(Conflict)
  {
    hide Unique, RowOk, TakesPlace, TakesName, ServedAt, HasUid;
    var (at, same) := (AtHref(db.rows, p.cal, p.href), ByUid(db.rows, p.cal, p.master.uid));
    forall i
      ensures ServedAt(db.rows, p.cal, p.href, i) <==> i in db.rows && IsServed(db.rows, p, i)
      ensures HasUid(db.rows, p.cal, p.master.uid, i) <==>
              && i in db.rows && db.rows[i].master == None && db.rows[i].rid == None
              && TakesPlace(db.rows[i], p.cal, p.master.uid, None)
    {
      ServedExactly(db.rows, p, i);
    }
    forall i | at.Some? && ServedAt(db.rows, p.cal, p.href, i) ensures i == at.value {
      OneServed(db.rows, p, i, at.value);
    }
    forall i | same.Some? && HasUid(db.rows, p.cal, p.master.uid, i) ensures i == same.value {
      OneHolder(db.rows, p, i, same.value);
    }
  }

  lemma MasterCommits(db: Db, p: Put, target: Target, now: int)
    requires Wf(db) && WellFormedPut(p) && Fitting(db, p, target)
    ensures WriteMaster(db, p.cal, p.href, target, p.master, p.minted, now).Ok? <==> MasterFits(db, p, target)
  {
    hide Unique, Fits, TakesPlace, TakesName, RowOk, InsertError, Vacant;
    match target
    case Fresh =>
      var (id, href) := (PutId(db.rows, p.href, p.minted), PutHref(db.rows, p.href));
      var row := PutRow(p.cal, href, None, p.master, now);
      InsertAccepted(db, id, row);
      assert ResourceName(id, row) == p.href;
      VacantFor(db.rows, id, p.cal, p.master.uid, p.href);
    case Replace(id) =>
      FitsExactly(db.rows, id, ReplacedMaster(db.rows[id], None, p.master, now));
    case Revive(id) =>
      FitsExactly(db.rows, id, ReplacedMaster(db.rows[id], Some(p.href), p.master, now));
  }

  lemma VacantFor(rows: Rows, id: Id, cal: Cal, uid: string, name: Name)
    ensures Vacant(rows, id, cal, uid, None, name) <==>
            && id !in rows
            && forall j | j in rows :: !TakesPlace(rows[j], cal, uid, None) && !TakesName(j, rows[j], cal, name)
  {
  }

  /** The rows the overrides meet: those outside the resource, and the new master. */
  lemma ClearedFits(db: Db, rows: Rows, p: Put, m: Id, now: int)
    requires WellFormedPut(p) && m in rows && rows == db.rows[m := rows[m]] && rows[m].master == None
    requires m in db.rows ==> db.rows[m].master == None
    requires PutMaster(rows[m], m, p.cal, p.href, p.master, now) && rows[m].rid == None
    ensures Joins(WithoutOverrides(rows, m), p.cal, p.overrides, p.ids) <==> OverridesFit(db.rows, p, m)
  {
    hide SameOccurrence, PutMaster;
    var cleared := WithoutOverrides(rows, m);
    assert forall j :: j in cleared <==> j == m || (j in db.rows && db.rows[j].master != Some(m));
    forall k | 0 <= k < |p.ids|
      ensures Vacant(cleared, p.ids[k], p.cal, p.overrides[k].uid, p.overrides[k].rid, IdName(p.ids[k])) <==>
              && p.ids[k] != m && (p.ids[k] in db.rows ==> db.rows[p.ids[k]].master == Some(m))
              && p.href != IdName(p.ids[k])
              && forall j | j in db.rows && j != m && db.rows[j].master != Some(m) ::
                   !TakesPlace(db.rows[j], p.cal, p.overrides[k].uid, p.overrides[k].rid)
                   && !TakesName(j, db.rows[j], p.cal, IdName(p.ids[k]))
    {
      PlaceCleared(db, rows, p, m, now, k);
    }
  }

  lemma PlaceCleared(db: Db, rows: Rows, p: Put, m: Id, now: int, k: nat)
    requires WellFormedPut(p) && m in rows && rows == db.rows[m := rows[m]] && rows[m].master == None
    requires m in db.rows ==> db.rows[m].master == None
    requires PutMaster(rows[m], m, p.cal, p.href, p.master, now) && rows[m].rid == None && k < |p.ids|
    ensures var o := p.overrides[k];
            Vacant(WithoutOverrides(rows, m), p.ids[k], p.cal, o.uid, o.rid, IdName(p.ids[k])) <==>
            && p.ids[k] != m && (p.ids[k] in db.rows ==> db.rows[p.ids[k]].master == Some(m))
            && p.href != IdName(p.ids[k])
            && forall j | j in db.rows && j != m && db.rows[j].master != Some(m) ::
                 !TakesPlace(db.rows[j], p.cal, p.overrides[k].uid, p.overrides[k].rid)
                 && !TakesName(j, db.rows[j], p.cal, IdName(p.ids[k]))
  {
    var cleared := WithoutOverrides(rows, m);
    forall j | j in db.rows && j != m && db.rows[j].master != Some(m)
      ensures j in cleared
      ensures forall rid :: TakesPlace(cleared[j], p.cal, p.overrides[k].uid, rid) <==>
                TakesPlace(db.rows[j], p.cal, p.overrides[k].uid, rid)
      ensures forall name :: TakesName(j, cleared[j], p.cal, name) <==> TakesName(j, db.rows[j], p.cal, name)
    {
    }
    assert m in cleared && !TakesPlace(cleared[m], p.cal, p.overrides[k].uid, p.overrides[k].rid);
    assert TakesName(m, cleared[m], p.cal, IdName(p.ids[k])) <==> p.href == IdName(p.ids[k]);
  }

  /** A put commits exactly if it is admitted, its master's row fits and its overrides fit, about the
    * row its target is; if it is not admitted the error is a conflict. */
  lemma PutCommitsExactly(db: Db, p: Put, now: int)
    requires Wf(db) && WellFormedPut(p)
    ensures !Admits(db.rows, p) ==> PutTx(db, p, now) == Err(Conflict)
    ensures Admits(db.rows, p) ==>
              PutTarget(db.rows, p.cal, p.href, p.master.uid, p.pre).Ok?
              && var target := PutTarget(db.rows, p.cal, p.href, p.master.uid, p.pre).value;
                 var m := if target.Fresh? then PutId(db.rows, p.href, p.minted) else target.id;
                 && GoesTo(db.rows, p, target)
                 && (PutTx(db, p, now).Ok? <==> MasterFits(db, p, target) && OverridesFit(db.rows, p, m))
  {
    hide Wf, Unique, Admits, PutTarget, WriteMaster, WithOverrides, WithoutOverrides, MasterFits, OverridesFit, Joins,
      PutMaster, Fitting, GoesTo;
    TargetExactly(db, p);
    if Admits(db.rows, p) {
      var target := PutTarget(db.rows, p.cal, p.href, p.master.uid, p.pre).value;
      MasterCommits(db, p, target, now);
      if MasterFits(db, p, target) {
        WrittenCommits(db, p, target, now);
      }
    }
  }

  lemma WrittenCommits(db: Db, p: Put, target: Target, now: int)
    requires Wf(db) && WellFormedPut(p) && Fitting(db, p, target) && MasterFits(db, p, target)
    requires WriteMaster(db, p.cal, p.href, target, p.master, p.minted, now).Ok?
    ensures var (rows, m) := WriteMaster(db, p.cal, p.href, target, p.master, p.minted, now).value;
            && m == (if target.Fresh? then PutId(db.rows, p.href, p.minted) else target.id)
            && var cleared := db.(rows := WithoutOverrides(rows, m), clock := now);
               WithOverrides(cleared, p.cal, m, p.overrides, p.ids, now).Ok? <==> OverridesFit(db.rows, p, m)
  {
    hide Unique, WithOverrides, WithoutOverrides, OverridesFit, Joins, PutMaster, Fits, InsertError, TakesPlace,
      TakesName, RowOk;
    MasterWritten(db, p, target, now);
    var (rows, m) := WriteMaster(db, p.cal, p.href, target, p.master, p.minted, now).value;
    ClearedRows(rows, m);
    if !target.Fresh? {
      RowInCalendar(db, m);
    }
    ClearedFits(db, rows, p, m, now);
    OverridesCommit(db.(rows := WithoutOverrides(rows, m), clock := now), p.cal, m, p.overrides, p.ids, now);
  }

  lemma RowInCalendar(db: Db, m: Id)
    requires Wf(db) && m in db.rows
    ensures db.rows[m].cal in db.ctag
  {
    assert RowOk(db, m);
  }

  // ----- split -----

  /** The override moves to the continuation: live, and behind the wall. */
  predicate MovesOn(row: Row, m: Id, s: SeriesSplit) {
    row.live && row.master == Some(m) && SideOf(s, row.rid) == Behind
  }

  /** No row gets in the way of a moved override under its new UID: none that has that UID, none that moves
    * with it, and not the continuation itself. */
  predicate MovesFit(rows: Rows, m: Id, s: SeriesSplit, cal: Cal, data: NewEvent) {
    forall i | i in rows && MovesOn(rows[i], m, s) ::
      && !SameOccurrence(data.rid, rows[i].rid)
      && forall j | j in rows && j != i && rows[j].cal == cal ::
           !((rows[j].uid == data.uid || MovesOn(rows[j], m, s)) && SameOccurrence(rows[j].rid, rows[i].rid))
  }

  lemma MovesExactly(s: SeriesSplit, row: Row)
    ensures SideOf(s, row.rid) == Behind <==> s.After(row.rid)
    ensures SideOf(s, row.rid) == OnWall <==> s.At(row.rid)
  {
  }

  lemma VacantSame(rows: Rows, rows': Rows, id: Id, cal: Cal, uid: string, rid: Option<Rid>, name: Name)
    requires rows'.Keys == rows.Keys && forall i | i in rows :: SameKeys(rows[i], rows'[i])
    ensures Vacant(rows', id, cal, uid, rid, name) <==> Vacant(rows, id, cal, uid, rid, name)
  {
    hide SameOccurrence;
    forall i | i in rows
      ensures TakesPlace(rows'[i], cal, uid, rid) <==> TakesPlace(rows[i], cal, uid, rid)
      ensures TakesName(i, rows'[i], cal, name) <==> TakesName(i, rows[i], cal, name)
    {
    }
  }

  /** The rows of a split before its overrides move. */
  lemma SplitRows(db: Db, m: Id, s: SeriesSplit, now: int)
    requires Wf(db) && m in db.rows && db.rows[m].master == None
    ensures var rows := SplitMaster(db, m, s, now).rows;
            && rows.Keys == db.rows.Keys && SplitMaster(db, m, s, now).ctag.Keys == db.ctag.Keys
            && forall i | i in db.rows ::
                 && SameKeys(db.rows[i], rows[i]) && rows[i].master == db.rows[i].master
                 && (rows[i].live <==> db.rows[i].live && !(db.rows[i].master == Some(m) && s.At(db.rows[i].rid)))
  {
    hide Unique, RowOk;
  }

  lemma MovedUnique(rows: Rows, m: Id, s: SeriesSplit, c: Id, cal: Cal, data: NewEvent, now: int)
    requires Unique(rows) && c in rows && rows[c].master == None && rows[c].cal == cal && rows[c].uid == data.uid
    requires rows[c].rid == data.rid && forall i | i in rows && rows[i].master == Some(m) :: rows[i].cal == cal
    ensures Unique(Reparented(rows, m, s, c, data.uid, now)) <==> MovesFit(rows, m, s, cal, data)
  {
    hide SameOccurrence, RidKey;
    var rows' := Reparented(rows, m, s, c, data.uid, now);
    forall i | i in rows
      ensures MovesOn(rows[i], m, s) <==> OverrideOf(rows[i], m) && rows[i].live && s.After(rows[i].rid)
    {
      MovesExactly(s, rows[i]);
    }
    forall i, j | i in rows && j in rows ensures SameOccurrence(rows[i].rid, rows[j].rid) <==>
      RidKey(rows[i].rid) == RidKey(rows[j].rid)
    {
      OccurrenceKeys(rows[i].rid, rows[j].rid);
    }
    if MovesFit(rows, m, s, cal, data) {
      forall i | i in rows' ensures Fits(rows', i, rows'[i]) {
        assert Fits(rows, i, rows[i]);
      }
    }
    if Unique(rows') {
      forall i | i in rows && MovesOn(rows[i], m, s)
        ensures !SameOccurrence(data.rid, rows[i].rid)
        ensures forall j | j in rows && j != i && rows[j].cal == cal ::
                  !((rows[j].uid == data.uid || MovesOn(rows[j], m, s)) && SameOccurrence(rows[j].rid, rows[i].rid))
      {
        assert Fits(rows', i, rows'[i]);
        assert !SameUidKey(rows'[c], rows'[i]);
        forall j | j in rows && j != i && rows[j].cal == cal
          ensures !((rows[j].uid == data.uid || MovesOn(rows[j], m, s)) && SameOccurrence(rows[j].rid, rows[i].rid))
        {
          assert !SameUidKey(rows'[j], rows'[i]);
        }
      }
    }
  }

  lemma MovesSame(rows: Rows, rows': Rows, m: Id, s: SeriesSplit, c: Id, cal: Cal, data: NewEvent)
    requires c !in rows && rows'.Keys == rows.Keys + {c} && rows'[c].master == None && rows'[c].rid == data.rid
    requires forall i | i in rows ::
               && SameKeys(rows[i], rows'[i]) && rows'[i].master == rows[i].master
               && (rows'[i].live <==> rows[i].live && !(rows[i].master == Some(m) && s.At(rows[i].rid)))
    ensures MovesFit(rows', m, s, cal, data) <==> MovesFit(rows, m, s, cal, data)
  {
    hide SameOccurrence;
    forall i | i in rows ensures MovesOn(rows'[i], m, s) <==> MovesOn(rows[i], m, s) {
      MovesExactly(s, rows[i]);
    }
    forall i | i in rows ensures SameOccurrence(rows'[c].rid, rows[i].rid) <==> SameOccurrence(data.rid, rows[i].rid) {
    }
    if MovesFit(rows', m, s, cal, data) {
      forall i | i in rows && MovesOn(rows[i], m, s)
        ensures !SameOccurrence(data.rid, rows[i].rid)
        ensures forall j | j in rows && j != i && rows[j].cal == cal ::
                  !((rows[j].uid == data.uid || MovesOn(rows[j], m, s)) && SameOccurrence(rows[j].rid, rows[i].rid))
      {
        assert MovesOn(rows'[i], m, s);
      }
    }
  }

  lemma CreatedVacant(d: Db, cal: Cal, c: Id, data: NewEvent, now: int)
    requires data.master == None && cal in d.ctag
    ensures CreateTx(d, cal, c, data, now).Ok? <==> Vacant(d.rows, c, cal, data.uid, data.rid, IdName(c))
    ensures CreateTx(d, cal, c, data, now).Err? ==> CreateTx(d, cal, c, data, now) == Err(Conflict)
  {
    hide Vacant, CreateTx;
    CreateAccepted(d, cal, c, data, now);
  }

  lemma ContinuationCommits(db: Db, m: Id, s: SeriesSplit, c: Id, data: NewEvent, now: int)
    requires Wf(db) && db.clock <= now && m in db.rows && db.rows[m].body.rrule.Some? && db.rows[m].master == None
    requires data.master == None
    ensures var (d, cal) := (SplitMaster(db, m, s, now), db.rows[m].cal);
            && (CreateTx(d, cal, c, data, now).Ok? <==> Vacant(db.rows, c, cal, data.uid, data.rid, IdName(c)))
            && (CreateTx(d, cal, c, data, now).Err? ==> CreateTx(d, cal, c, data, now) == Err(Conflict))
            && (CreateTx(d, cal, c, data, now).Ok? ==>
                  (Unique(Reparented(CreateTx(d, cal, c, data, now).value.rows, m, s, c, data.uid, now)) <==>
                   MovesFit(db.rows, m, s, cal, data)))
  {
    hide Wf, Unique, Effect, SplitMaster, CreateTx, Reparented, Vacant, MovesFit;
    var (d, cal) := (SplitMaster(db, m, s, now), db.rows[m].cal);
    RowInCalendar(db, m);
    SplitRows(db, m, s, now);
    VacantSame(db.rows, d.rows, c, cal, data.uid, data.rid, IdName(c));
    CreatedVacant(d, cal, c, data, now);
    if CreateTx(d, cal, c, data, now).Ok? {
      TruncateKeeps(db, m, s, now);
      CreateKeeps(d, cal, c, data, now);
      CreatedRows(d, cal, c, data, now);
      var d2 := CreateTx(d, cal, c, data, now).value;
      OverridesInCalendar(d2, m);
      IsUnique(d2);
      MovedUnique(d2.rows, m, s, c, cal, data, now);
      MovesSame(db.rows, d2.rows, m, s, c, cal, data);
    }
  }

  lemma IsUnique(db: Db)
    requires Wf(db)
    ensures Unique(db.rows)
  {
    hide Unique, RowOk;
  }

  lemma OverridesInCalendar(db: Db, m: Id)
    requires Wf(db) && m in db.rows
    ensures forall i | i in db.rows && db.rows[i].master == Some(m) :: db.rows[i].cal == db.rows[m].cal
  {
    hide Unique;
    forall i | i in db.rows && db.rows[i].master == Some(m) ensures db.rows[i].cal == db.rows[m].cal {
      assert RowOk(db, i);
    }
  }

  /** A split commits exactly for a live master that recurs, and with a continuation if its id, place and
    * name are free and nothing gets in the way of the overrides that move; each failure has its error. */
  lemma SplitCommitsExactly(db: Db, m: Id, s: SeriesSplit, c: Id, now: int)
    requires Wf(db) && db.clock <= now && (s.continuation.Some? ==> s.continuation.value.master == None)
    ensures var r := SplitTx(db, m, s, c, now);
            if !(m in db.rows && db.rows[m].live) then r == Err(NotFound)
            else if db.rows[m].body.rrule == None then r == Err(Conflict)
            else match s.continuation
              case None => r.Ok?
              case Some(data) =>
                if !Vacant(db.rows, c, db.rows[m].cal, data.uid, data.rid, IdName(c)) then r == Err(Conflict)
                else if MovesFit(db.rows, m, s, db.rows[m].cal, data) then r.Ok?
                else r == Err(Database)
  {
    hide Wf, Unique, SplitMaster, CreateTx, Reparented, Vacant, MovesFit, Buried, Bumped;
    if m in db.rows && db.rows[m].live && db.rows[m].body.rrule.Some? && s.continuation.Some? {
      MasterIsNoOverride(db, m);
      ContinuationCommits(db, m, s, c, s.continuation.value, now);
    }
  }
}
