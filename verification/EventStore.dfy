/** The event store: each public method is one transaction over a working copy
  * that is either committed or dropped. */
module EventStore {
  import opened Wrappers
  import opened EventRows
  import opened EventSpec
  import opened EventEffects
  import opened EventSplit
  import opened EventPut
  import opened EventSeen
  import opened EventRuns

  /** An open transaction; now() is fixed for its whole life. */
  class Transaction {
    var rows: Rows
    var log: seq<Entry>
    var ctag: map<Cal, nat>
    const now: int

    ghost function View(): Db reads this { Db(rows, log, ctag, now) }

    constructor Begin(rows: Rows, log: seq<Entry>, ctag: map<Cal, nat>, now: int)
      ensures View() == Db(rows, log, ctag, now)
    {
      this.rows, this.log, this.ctag, this.now := rows, log, ctag, now;
    }

    method RecordChange(cal: Cal, id: Id, op: Operation)
      modifies this
      ensures View() == Recorded(old(View()), cal, id, op)
    {
      log := log + [Entry(cal, id, op)];
      if cal in ctag {
        ctag := ctag[cal := ctag[cal] + 1];
      }
    }

    /** UPDATE ... SET etag, from the row as it now stands. */
    method RefreshEtag(id: Id)
      requires id in rows
      modifies this
      ensures View() == old(View()).(rows := old(rows)[id := old(rows)[id].(etag := EtagOf(old(rows)[id]))])
    {
      rows := rows[id := rows[id].(etag := EtagOf(rows[id]))];
    }

    method AppendChange(cal: Cal, id: Id, op: Operation)
      modifies this
      ensures View() == Appended(old(View()), cal, id, op, now)
    {
      var resource, operation := id, op;
      if id in rows && rows[id].master.Some? && rows[id].master.value in rows {
        var m := rows[id].master.value;
        rows := rows[m := rows[m].(updatedAt := now)];
        RefreshEtag(m);
        resource, operation := m, Updated;
      }
      RecordChange(cal, resource, operation);
    }

    /** INSERT, or the constraint it violates. */
    method Insert(id: Id, row: Row) returns (error: Option<DbError>)
      modifies this
      ensures error == InsertError(old(View()), id, row)
      ensures View() == if error == None then old(View()).(rows := old(rows)[id := row]) else old(View())
    {
      error := InsertError(Db(rows, log, ctag, now), id, row);
      if error == None {
        rows := rows[id := row];
      }
    }

    method InsertEvent(cal: Cal, id: Id, data: NewEvent) returns (r: Result<Row, DbError>)
      modifies this
      ensures match CreateTx(old(View()), cal, id, data, now)
        case Ok(d) => id in d.rows && View() == d && r == Ok(d.rows[id].(etag := Unset))
        case Err(e) => r == Err(e)
    {
      hide Fits;
      var row := NewRow(cal, data, now);
      var error := Insert(id, row);
      if error.Some? {
        return Err(error.value);
      }
      RefreshEtag(id);
      AppendChange(cal, id, Created);
      r := Ok(row);
    }

    /** UPDATE events SET ... from the patch, then the attendees if given, then the etag. */
    method PatchEvent(id: Id, patch: Patch)
      requires id in rows
      modifies this
      ensures View() == old(View()).(rows := old(rows)[id := PatchedRow(old(rows)[id], patch, now)])
    {
      var current := rows[id];
      var row := current.(body := PatchedBody(current.body, patch), sequence := current.sequence + 1, updatedAt := now);
      if patch.attendees.Some? {
        row := row.(attendees := patch.attendees.value);
      }
      rows := rows[id := row];
      RefreshEtag(id);
      assert rows[id] == PatchedRow(current, patch, now);
    }

    /** The first half of a split: the master stops before the wall. */
    method TruncateMaster(m: Id, split: SeriesSplit)
      requires m in rows
      modifies this
      ensures var row := TruncatedMaster(old(rows)[m], split, now);
              View() == Appended(old(View()).(rows := old(rows)[m := row]), row.cal, m, Updated, now)
    {
      hide Appended;
      var master := rows[m];
      var body := master.body.(rrule := split.rrule, rdate := split.rdate, exdate := split.exdate);
      rows := rows[m := master.(body := body, sequence := master.sequence + 1, updatedAt := now)];
      RefreshEtag(m);
      assert rows == old(rows)[m := TruncatedMaster(master, split, now)];
      AppendChange(master.cal, m, Updated);
    }

    /** The second half: the continuation is created and takes the later overrides. */
    method Continue(cal: Cal, m: Id, split: SeriesSplit, c: Id, data: NewEvent) returns (error: Option<DbError>)
      requires data.master == None
      modifies this
      ensures match CreateTx(old(View()), cal, c, data, now)
        case Err(e) => error == Some(e)
        case Ok(d) =>
          var moved := Reparented(d.rows, m, split, c, data.uid, now);
          if !Unique(moved) then error == Some(Database)
          else error == None && c in moved && View() == d.(rows := moved[c := Bumped(moved[c], now)])
    {
      hide Unique, CreateTx;
      var created := InsertEvent(cal, c, data);
      if created.Err? {
        return Some(created.error);
      }
      var moved := Reparented(rows, m, split, c, data.uid, now);
      if !Unique(moved) {
        return Some(Database);
      }
      rows := moved[c := moved[c].(sequence := moved[c].sequence + 1, updatedAt := now)];
      RefreshEtag(c);
      error := None;
    }

    /** Soft-deletes the live overrides of m that p selects. */
    method Bury(m: Id, p: Option<Rid> -> bool)
      modifies this
      ensures View() == old(View()).(rows := Buried(old(rows), m, p))
    {
      rows := Buried(rows, m, p);
    }

    /** update_master: content replaced, a deleted row brought back. */
    method UpdateMaster(id: Id, href: Option<Name>, data: PutData) returns (error: Option<DbError>)
      requires id in rows
      modifies this
      ensures error == None <==> Fits(old(rows), id, ReplacedMaster(old(rows)[id], href, data, now))
      ensures error.Some? ==> error.value == Conflict
      ensures View() == if error.Some? then old(View())
                        else old(View()).(rows := old(rows)[id := ReplacedMaster(old(rows)[id], href, data, now)])
    {
      var row := ReplacedMaster(rows[id], href, data, now);
      if !Fits(rows, id, row) {
        return Some(Conflict);
      }
      rows := rows[id := row];
      error := None;
    }

    /** The overrides of the PUT, inserted one by one. */
    method InsertOverrides(cal: Cal, m: Id, overrides: seq<PutData>, ids: seq<Id>) returns (error: Option<DbError>)
      requires |ids| == |overrides|
      modifies this
      ensures match WithOverrides(old(View()), cal, m, overrides, ids, now)
        case Ok(d) => error == None && View() == d
        case Err(e) => error == Some(e)
    {
      hide PutRow, InsertError;
      var k := 0;
      while k < |overrides|
        invariant 0 <= k <= |overrides|
        invariant WithOverrides(old(View()), cal, m, overrides[..k], ids[..k], now) == Ok(View())
      {
        error := Insert(ids[k], PutRow(cal, None, Some(m), overrides[k], now));
        assert overrides[..k + 1][..k] == overrides[..k] && ids[..k + 1][..k] == ids[..k];
        if error.Some? {
          FirstErrorStands(old(View()), cal, m, overrides, ids, k + 1, now);
          return;
        }
        k := k + 1;
      }
      assert overrides[..k] == overrides && ids[..k] == ids;
      error := None;
    }
  }

  /** A failed INSERT aborts the whole loop. */
  lemma {:induction false} FirstErrorStands(db: Db, cal: Cal, m: Id, overrides: seq<PutData>, ids: seq<Id>, k: nat,
      now: int)
    requires |ids| == |overrides| && k <= |overrides|
    requires WithOverrides(db, cal, m, overrides[..k], ids[..k], now).Err?
    ensures WithOverrides(db, cal, m, overrides, ids, now) == WithOverrides(db, cal, m, overrides[..k], ids[..k], now)
    decreases |overrides|
  {
    hide PutRow, InsertError;
    if k == |overrides| {
      assert overrides[..k] == overrides && ids[..k] == ids;
    } else {
      var n := |overrides| - 1;
      assert overrides[..n][..k] == overrides[..k] && ids[..n][..k] == ids[..k];
      FirstErrorStands(db, cal, m, overrides[..n], ids[..n], k, now);
    }
  }

  /** Two rows a lookup finds for one UID are one row. */
  lemma OneMasterPerUid(rows: Rows, cal: Cal, uid: string, i: Id, j: Id)
    requires Unique(rows) && HasUid(rows, cal, uid, i) && HasUid(rows, cal, uid, j)
    ensures i == j
  {
    assert Fits(rows, i, rows[i]);
  }

  lemma OneServedPerName(rows: Rows, cal: Cal, href: Name, i: Id, j: Id)
    requires Unique(rows) && ServedAt(rows, cal, href, i) && ServedAt(rows, cal, href, j)
    ensures i == j
  {
    assert Fits(rows, i, rows[i]);
  }

  class Store {
    var rows: Rows
    var log: seq<Entry>
    var ctag: map<Cal, nat>
    var clock: int

    ghost function View(): Db reads this { Db(rows, log, ctag, clock) }

    ghost predicate Valid() reads this { Wf(View()) }

    constructor (calendars: set<Cal>)
      ensures Valid() && rows == map[] && log == [] && ctag.Keys == calendars
    {
      rows, log, clock := map[], [], 0;
      ctag := map c | c in calendars :: 0;
    }

    method Commit(tx: Transaction)
      modifies this
      ensures View() == tx.View()
    {
      rows, log, ctag, clock := tx.rows, tx.log, tx.ctag, tx.now;
    }

    /** The row is returned as it was inserted, before its etag is written; the etag beside it is
      * the one then stored. */
    method CreateEvent(cal: Cal, id: Id, data: NewEvent, now: int) returns (r: Result<(Row, Etag), DbError>)
      requires Valid() && clock <= now && GoodMaster(View(), cal, data)
      modifies this
      ensures Valid()
      ensures match CreateTx(old(View()), cal, id, data, now)
        case Ok(d) => View() == d && id in d.rows && r == Ok((d.rows[id].(etag := Unset), d.rows[id].etag))
        case Err(e) => View() == old(View()) && r == Err(e)
    {
      hide Wf, CreateTx, GoodMaster;
      var tx := new Transaction.Begin(rows, log, ctag, now);
      CreateIgnoresClock(View(), cal, id, data, now);
      var created := tx.InsertEvent(cal, id, data);
      match created
      case Err(e) => r := Err(e);
      case Ok(row) =>
        CreateKeeps(View(), cal, id, data, now);
        CreatedEtag(View(), cal, id, data, now);
        Commit(tx);
        r := Ok((row, EtagOf(row)));
    }

    /** The row is returned with the etag it had; the etag beside it is the one now stored. */
    method UpdateEvent(id: Id, ifMatch: Option<Etag>, patch: Patch, now: int) returns (r: Result<(Row, Etag), DbError>)
      requires Valid() && clock <= now
      modifies this
      ensures Valid()
      ensures match UpdateTx(old(View()), id, ifMatch, patch, now)
        case Ok(d) =>
          View() == d && id in d.rows && r == Ok((d.rows[id].(etag := old(rows)[id].etag), d.rows[id].etag))
        case Err(e) => View() == old(View()) && r == Err(e)
    {
      hide Wf, Fits, Unique, PatchedRow, Appended;
      var tx := new Transaction.Begin(rows, log, ctag, now);
      if id !in tx.rows || !tx.rows[id].live {
        return Err(NotFound);
      }
      var current := tx.rows[id];
      if ifMatch.Some? && ifMatch.value != current.etag {
        return Err(Conflict);
      }
      tx.PatchEvent(id, patch);
      var event := tx.rows[id].(etag := current.etag);
      tx.AppendChange(event.cal, id, Updated);
      assert UpdateTx(View(), id, ifMatch, patch, now) == Ok(tx.View()) by {
        PatchedKeepsCal(current, patch, now);
      }
      UpdateKeeps(View(), id, ifMatch, patch, now);
      PatchedStored(View(), id, ifMatch, patch, now);
      Commit(tx);
      r := Ok((event, EtagOf(event)));
    }

    method DeleteEvent(id: Id, ifMatch: Option<Etag>, now: int) returns (error: Option<DbError>)
      requires Valid() && clock <= now
      modifies this
      ensures Valid()
      ensures match DeleteTx(old(View()), id, ifMatch, now)
        case Ok(d) => View() == d && error == None
        case Err(e) => View() == old(View()) && error == Some(e)
    {
      hide Wf, Fits, Unique;
      var tx := new Transaction.Begin(rows, log, ctag, now);
      if id !in tx.rows || !tx.rows[id].live {
        return Some(NotFound);
      }
      var current := tx.rows[id];
      if ifMatch.Some? && ifMatch.value != current.etag {
        return Some(Conflict);
      }
      tx.rows := tx.rows[id := current.(live := false)];
      tx.AppendChange(current.cal, id, Deleted);
      DeleteKeeps(View(), id, ifMatch, now);
      Commit(tx);
      error := None;
    }

    /** Found exactly for a live row, which is returned as it is; of a master the etag
      * returned is the stored one. */
    method GetEvent(id: Id) returns (r: Result<(Row, Etag), DbError>)
      requires Valid()
      ensures r.Ok? <==> id in rows && rows[id].live
      ensures r.Ok? ==> r.value.0 == rows[id] && r.value.1 == EtagOf(rows[id])
      ensures r.Ok? && rows[id].master == None ==> r.value.1 == rows[id].etag
      ensures r.Err? ==> r.error == NotFound
      ensures r == Get(View(), id)
    {
      if id !in rows || !rows[id].live {
        return Err(NotFound);
      }
      assert RowOk(View(), id);
      var event := rows[id];
      r := Ok((event, EtagOf(event)));
    }

    /** The live event served under a name; its etag is derived from the row. */
    method GetEventByHref(cal: Cal, name: Name) returns (r: Result<(Row, Etag), DbError>)
      requires Valid()
      ensures r.Ok? <==>
              exists i :: IsMaster(rows, i) && rows[i].live && rows[i].cal == cal && ResourceName(i, rows[i]) == name
      ensures forall i :: IsMaster(rows, i) && rows[i].live && rows[i].cal == cal && ResourceName(i, rows[i]) == name
                ==> r == Ok((rows[i], rows[i].etag))
      ensures r.Err? ==> r.error == NotFound
    {
      if i :| && i in rows && rows[i].live && rows[i].master == None
              && rows[i].cal == cal && ResourceName(i, rows[i]) == name {
        assert IsMaster(rows, i);
        assert RowOk(View(), i) && Fits(rows, i, rows[i]);
        r := Ok((rows[i], EtagOf(rows[i])));
      } else {
        r := Err(NotFound);
      }
    }

    method SplitEvent(m: Id, split: SeriesSplit, c: Id, now: int) returns (error: Option<DbError>)
      requires Valid() && clock <= now
      requires split.continuation.Some? ==> split.continuation.value.master == None
      modifies this
      ensures Valid()
      ensures match SplitTx(old(View()), m, split, c, now)
        case Ok(d) => View() == d && error == None
        case Err(e) => View() == old(View()) && error == Some(e)
    {
      hide Wf, Unique, CreateTx, Buried, Reparented, SplitMaster, Bumped, Appended, TruncatedMaster;
      var tx := new Transaction.Begin(rows, log, ctag, now);
      if m !in tx.rows || !tx.rows[m].live {
        return Some(NotFound);
      }
      if tx.rows[m].body.rrule == None {
        return Some(Conflict);
      }
      MasterIsNoOverride(View(), m);
      var master := tx.rows[m];
      tx.TruncateMaster(m, split);
      tx.Bury(m, rid => split.At(rid));
      assert tx.View() == SplitMaster(View(), m, split, now) by {
        SplitMasterUnfolds(View(), m, split, now);
      }
      match split.continuation {
        case None =>
          tx.Bury(m, rid => split.At(rid) || split.After(rid));
        case Some(data) =>
          error := tx.Continue(master.cal, m, split, c, data);
          if error.Some? {
            return;
          }
      }
      SplitKeeps(View(), m, split, c, now);
      Commit(tx);
      error := None;
    }

    /** Every referenced zone must be known. */
    method CheckZones(p: Put) returns (ok: bool)
      ensures ok == p.ZonesKnown()
    {
      if !KnownZone(p.master, p.zones) {
        return false;
      }
      var k := 0;
      while k < |p.overrides|
        invariant 0 <= k <= |p.overrides|
        invariant forall i | 0 <= i < k :: KnownZone(p.overrides[i], p.zones)
      {
        if !KnownZone(p.overrides[k], p.zones) {
          return false;
        }
        k := k + 1;
      }
      ok := true;
    }

    /** The row locks: which row the PUT replaces or brings back. */
    method FindTarget(p: Put) returns (r: Result<Target, DbError>)
      requires Unique(rows)
      ensures r == PutTarget(rows, p.cal, p.href, p.master.uid, p.pre)
    {
      hide Unique, Fits;
      var atHref: Option<Id> := None;
      if i :| i in rows && ServedAt(rows, p.cal, p.href, i) {
        OneServedPerName(rows, p.cal, p.href, i, AtHref(rows, p.cal, p.href).value);
        atHref := Some(i);
      }
      match p.pre {
        case MatchEtag(expected) =>
          if atHref == None || rows[atHref.value].etag != expected {
            return Err(Conflict);
          }
        case NotExists =>
          if atHref.Some? {
            return Err(Conflict);
          }
        case NoCondition =>
      }
      if atHref.Some? {
        return Ok(Replace(atHref.value));
      }
      if i :| i in rows && HasUid(rows, p.cal, p.master.uid, i) {
        OneMasterPerUid(rows, p.cal, p.master.uid, i, ByUid(rows, p.cal, p.master.uid).value);
        r := if rows[i].live then Err(Conflict) else Ok(Revive(i));
      } else {
        r := Ok(Fresh);
      }
    }

    method PutSeries(p: Put, now: int) returns (r: Result<(Row, bool), DbError>)
      requires Valid() && clock <= now && WellFormedPut(p)
      modifies this
      ensures Valid()
      ensures match PutTx(old(View()), p, now)
        case Ok((d, m, created)) => View() == d && m in d.rows && r == Ok((d.rows[m], created))
        case Err(e) => View() == old(View()) && r == Err(e)
    {
      hide Wf, Fits, PutTarget, WithOverrides, WithoutOverrides, WriteMaster, Unique, Appended, Stored;
      var known := CheckZones(p);
      if !known {
        return Err(Conflict);
      }
      assert Unique(rows) by { ValidUnique(); }
      var found := FindTarget(p);
      if found.Err? {
        return Err(found.error);
      }
      var tx := new Transaction.Begin(rows, log, ctag, now);
      var target := found.value;
      WriteIgnoresClock(View(), p, target, now);
      var error, m := WriteMasterRow(tx, p, target);
      if error.Some? {
        return Err(error.value);
      }
      MasterNotCleared(tx.rows, m);
      tx.rows := WithoutOverrides(tx.rows, m);
      error := tx.InsertOverrides(p.cal, m, p.overrides, p.ids);
      if error.Some? {
        return Err(error.value);
      }
      tx.RefreshEtag(m);
      tx.AppendChange(p.cal, m, if target.Replace? then Updated else Created);
      PutStores(View(), p, now);
      StoredKeepsWf(View(), tx.View(), p, m, now);
      StoredHasMaster(View(), tx.View(), p, m, now);
      Commit(tx);
      r := Ok((rows[m], !target.Replace?));
    }

    lemma ValidUnique()
      requires Valid()
      ensures Unique(rows)
    {
    }

    method WriteMasterRow(tx: Transaction, p: Put, target: Target) returns (error: Option<DbError>, m: Id)
      requires !target.Fresh? ==> target.id in tx.rows && PlainMaster(tx.rows[target.id])
      modifies tx
      ensures match WriteMaster(old(tx.View()), p.cal, p.href, target, p.master, p.minted, tx.now)
        case Ok((rows, id)) => error == None && m == id && tx.View() == old(tx.View()).(rows := rows)
        case Err(e) => error == Some(e)
    {
      hide Fits, InsertError, ReplacedMaster, PutRow;
      match target
      case Replace(id) =>
        m := id;
        error := tx.UpdateMaster(id, None, p.master);
      case Revive(id) =>
        m := id;
        error := tx.UpdateMaster(id, Some(p.href), p.master);
      case Fresh =>
        var storedHref: Option<Name> := Some(p.href);
        m := p.minted;
        if p.href.IdName? && p.href.id !in tx.rows {
          m, storedHref := p.href.id, None;
        }
        error := tx.Insert(m, PutRow(p.cal, storedHref, None, p.master, tx.now));
    }
  }

  lemma CreatedEtag(db: Db, cal: Cal, id: Id, data: NewEvent, now: int)
    requires Wf(db) && GoodMaster(db, cal, data) && CreateTx(db, cal, id, data, now).Ok?
    ensures var d := CreateTx(db, cal, id, data, now).value;
            id in d.rows && d.rows[id].etag == EtagOf(d.rows[id].(etag := Unset))
  {
    hide Fits, Unique, RowOk;
  }

  lemma CreateIgnoresClock(db: Db, cal: Cal, id: Id, data: NewEvent, now: int)
    ensures CreateTx(db.(clock := now), cal, id, data, now) == CreateTx(db, cal, id, data, now)
  {
  }

  lemma SplitMasterUnfolds(db: Db, m: Id, s: SeriesSplit, now: int)
    requires m in db.rows
    ensures var row := TruncatedMaster(db.rows[m], s, now);
            var d := Appended(db.(rows := db.rows[m := row], clock := now), row.cal, m, Updated, now);
            SplitMaster(db, m, s, now) == d.(rows := Buried(d.rows, m, rid => s.At(rid)))
  {
    hide Buried, TruncatedMaster, Appended;
  }

  lemma WriteIgnoresClock(db: Db, p: Put, target: Target, now: int)
    requires !target.Fresh? ==> target.id in db.rows && PlainMaster(db.rows[target.id])
    ensures WriteMaster(db.(clock := now), p.cal, p.href, target, p.master, p.minted, now)
         == WriteMaster(db, p.cal, p.href, target, p.master, p.minted, now)
  {
    hide Fits, ReplacedMaster, PutRow, PutId, PutHref;
  }

  lemma PatchedStored(db: Db, id: Id, e: Option<Etag>, p: Patch, now: int)
    requires Wf(db) && UpdateTx(db, id, e, p, now).Ok?
    ensures var d := UpdateTx(db, id, e, p, now).value;
            id in d.rows && d.rows[id] == PatchedRow(db.rows[id], p, now)
            && d.rows[id].etag == EtagOf(d.rows[id].(etag := db.rows[id].etag))
  {
    hide Wf, UpdateTx, PatchedBody, OthersAsBefore, LoggedOnce;
    UpdatedTable(db, id, e, p, now);
  }

  lemma PatchedKeepsCal(row: Row, p: Patch, now: int)
    ensures PatchedRow(row, p, now).cal == row.cal
  {
  }

  lemma MasterNotCleared(rows: Rows, m: Id)
    requires IsMaster(rows, m)
    ensures m in WithoutOverrides(rows, m)
  {
  }

  lemma StoredHasMaster(db: Db, d: Db, p: Put, m: Id, now: int)
    requires p.Valid() && Stored(db, d, p, m, now)
    ensures m in d.rows
  {
  }
}
