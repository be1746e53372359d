/** Delivered copies: their structure over every step, and how they mirror the
  * organizer's row. */
module SchedulingCopies {
  import opened Wrappers
  import opened EventRows
  import opened EventEffects
  import opened Scheduling

  // ----- structure -----

  /** A copy's origin is no copy and no override of that copy, and has its RECURRENCE-ID;
    * a copy that is stored as an override hangs under the copy of its origin's master. */
  predicate CopyOk(rows: Rows, c: Id)
    requires c in rows && rows[c].origin.Some?
  {
    var o := rows[c].origin.value;
    && o in rows && rows[o].origin == None && rows[o].master != Some(c) && rows[c].rid == rows[o].rid
    && (rows[c].master.Some? ==>
          && rows[c].master.value in rows
          && rows[rows[c].master.value].origin.Some?
          && rows[o].master == rows[rows[c].master.value].origin)
  }

  /** At most one live copy of an origin row per calendar. */
  predicate OneLive(rows: Rows) {
    forall c, d | c in rows && d in rows && rows[c].live && rows[d].live && rows[c].origin.Some?
        && rows[d].origin == rows[c].origin && rows[d].cal == rows[c].cal ::
      c == d
  }

  predicate Structure(rows: Rows) {
    OneLive(rows) && forall c | c in rows && rows[c].origin.Some? :: CopyOk(rows, c)
  }

  predicate SameIdentity(row: Row, row': Row) {
    && row'.cal == row.cal && row'.master == row.master && row'.origin == row.origin && row'.rid == row.rid
    && row'.href == row.href && row'.floating == row.floating && (row'.live ==> row.live)
  }

  /** No row disappears or changes identity, and only copies are new. */
  predicate Kept(rows: Rows, rows': Rows) {
    && (forall i | i in rows :: i in rows' && SameIdentity(rows[i], rows'[i]))
    && (forall i | i in rows' && i !in rows :: rows'[i].origin.Some?)
  }

  /** No organizer's row is written. */
  predicate OriginsKept(rows: Rows, rows': Rows) {
    forall i | i in rows && rows[i].origin == None :: i in rows' && rows'[i] == rows[i]
  }

  lemma KeptTransitive(a: Rows, b: Rows, c: Rows)
    requires Kept(a, b) && Kept(b, c)
    ensures Kept(a, c)
  {
    forall i | i in c && i !in a ensures c[i].origin.Some? {
      if i in b {
        assert SameIdentity(b[i], c[i]);
      }
    }
  }

  lemma OriginsKeptTransitive(a: Rows, b: Rows, c: Rows)
    requires Kept(a, b) && OriginsKept(a, b) && OriginsKept(b, c)
    ensures OriginsKept(a, c)
  {
    forall i | i in a && a[i].origin == None ensures i in c && c[i] == a[i] {
      assert b[i] == a[i];
    }
  }

  lemma KeptStructure(rows: Rows, rows': Rows)
    requires Structure(rows) && Kept(rows, rows') && rows'.Keys == rows.Keys
    ensures Structure(rows')
  {
    forall c | c in rows' && rows'[c].origin.Some? ensures CopyOk(rows', c) {
      assert CopyOk(rows, c);
    }
  }

  // ----- one copy -----

  /** What a copy has of its origin: every field of the copy list. */
  predicate Mirrors(copy: Row, o: Row) {
    copy.uid == o.uid && copy.body == o.body && copy.organizerUser == o.organizerUser && copy.sequence == o.sequence
  }

  /** o may be delivered to cal under the master copy, if one is given. */
  predicate Deliverable(rows: Rows, o: Id, cal: Cal, master: Option<Id>) {
    && IsSubject(rows, o)
    && (master.Some? ==>
          && IsMaster(rows, master.value) && rows[master.value].cal == cal
          && rows[master.value].origin.Some? && rows[o].master == rows[master.value].origin)
  }

  /** The single row an upsert writes. */
  predicate Wrote(rows: Rows, rows': Rows, c: Id) {
    c in rows' && rows' == rows[c := rows'[c]]
  }

  lemma RecopiedIsWritable(db: Db, o: Id, cal: Cal, c: Id, now: int)
    requires Wf(db) && Structure(db.rows) && IsSubject(db.rows, o) && IsLiveCopy(db.rows, o, cal, c) && db.clock == now
    requires Fits(db.rows, c, Recopied(db.rows[c], db.rows[o], now))
    ensures Writable(db, c, Recopied(db.rows[c], db.rows[o], now), now)
  {
    hide Unique, Fits;
    assert RowOk(db, c) && RowOk(db, o) && CopyOk(db.rows, c);
  }

  lemma NewCopyIsWritable(db: Db, o: Id, cal: Cal, master: Option<Id>, c: Id, now: int)
    requires Wf(db) && Deliverable(db.rows, o, cal, master) && db.clock == now && c !in db.rows
    requires InsertError(db, c, NewCopy(db.rows[o], o, cal, master, now)) == None
    ensures Writable(db, c, NewCopy(db.rows[o], o, cal, master, now), now)
  {
    hide Unique, Fits;
    assert RowOk(db, o);
  }

  lemma FitsElsewhere(rows: Rows, o: Id, c: Id, row: Row)
    requires o in rows && c != o && Fits(rows, c, row) && row.uid == rows[o].uid
    requires RidKey(row.rid) == RidKey(rows[o].rid)
    ensures row.cal != rows[o].cal
  {
  }

  lemma NewCopyStructure(rows: Rows, o: Id, cal: Cal, master: Option<Id>, c: Id, row: Row)
    requires Structure(rows) && Deliverable(rows, o, cal, master) && c !in rows
    requires row.origin == Some(o) && row.cal == cal && row.master == master && row.rid == rows[o].rid
    requires rows[o].master != Some(c)
    requires forall d :: !IsLiveCopy(rows, o, cal, d)
    ensures Structure(rows[c := row]) && Kept(rows, rows[c := row]) && OriginsKept(rows, rows[c := row])
  {
    var rows' := rows[c := row];
    forall d | d in rows' && rows'[d].origin.Some? ensures CopyOk(rows', d) {
      if d != c {
        assert CopyOk(rows, d);
      }
    }
    forall d | d in rows ensures !(rows[d].live && rows[d].origin == Some(o) && rows[d].cal == cal) {
      assert !IsLiveCopy(rows, o, cal, d);
    }
  }

  /** upsert_copy keeps the invariants, writes one row, and leaves a live copy that
    * mirrors a live origin. */
  lemma UpsertKeeps(db: Db, o: Id, cal: Cal, master: Option<Id>, now: int)
    requires Wf(db) && Structure(db.rows) && db.clock == now && Deliverable(db.rows, o, cal, master)
    requires UpsertCopy(db, o, cal, master, now).Ok?
    ensures var (d, copy) := UpsertCopy(db, o, cal, master, now).value;
            && Wf(d) && Structure(d.rows) && Kept(db.rows, d.rows) && OriginsKept(db.rows, d.rows)
            && d.clock == now && d.ctag.Keys == db.ctag.Keys && db.log <= d.log
            && (db.rows[o].live ==> copy.Some? && Mirrors(d.rows[copy.value], d.rows[o]))
            && (copy.Some? ==> IsLiveCopy(d.rows, o, cal, copy.value) && Wrote(db.rows, d.rows, copy.value))
            && (copy.Some? && copy.value in db.rows ==>
                  db.rows[copy.value].origin == Some(o) && db.rows[copy.value].live)
            && (copy.Some? ==> Parts(d.rows, copy.value) == Parts(db.rows, copy.value))
            && (copy == None ==> d == db)
            && (db.rows[o].live ==> cal != db.rows[o].cal)
  {
    hide Wf, Structure, Kept, OriginsKept, Fits, Writable, InsertError, Recopied, NewCopy;
    if db.rows[o].live {
      match LiveCopy(db.rows, o, cal)
      case Some(c) =>
        var row := Recopied(db.rows[c], db.rows[o], now);
        RecopiedIsWritable(db, o, cal, c, now);
        WriteKeepsWf(db, c, row);
        RecopiedFacts(db.rows, c, o, now);
        LaterKeepsWf(db.(rows := db.rows[c := row]), UpsertCopy(db, o, cal, master, now).value.0);
        KeptStructure(db.rows, db.rows[c := row]);
        SameRid(db.rows, o, c);
        FitsElsewhere(db.rows, o, c, row);
      case None =>
        var c := FreshId(db.rows);
        var row := NewCopy(db.rows[o], o, cal, master, now);
        NewCopyIsWritable(db, o, cal, master, c, now);
        WriteKeepsWf(db, c, row);
        NewCopyFacts(db.rows[o], o, cal, master, now);
        MasterTaken(db, o);
        NewCopyStructure(db.rows, o, cal, master, c, row);
        InsertedFits(db, c, row);
        FitsElsewhere(db.rows, o, c, row);
        LaterKeepsWf(db.(rows := db.rows[c := row]), UpsertCopy(db, o, cal, master, now).value.0);
    } else {
      NothingKept(db.rows);
    }
  }

  lemma MasterTaken(db: Db, o: Id)
    requires Wf(db) && o in db.rows
    ensures db.rows[o].master.Some? ==> db.rows[o].master.value in db.rows
  {
    assert RowOk(db, o);
  }

  lemma SameRid(rows: Rows, o: Id, c: Id)
    requires Structure(rows) && c in rows && rows[c].origin == Some(o)
    ensures o in rows && rows[o].origin == None && rows[c].rid == rows[o].rid
  {
    assert CopyOk(rows, c);
  }

  lemma InsertedFits(db: Db, c: Id, row: Row)
    requires InsertError(db, c, row) == None
    ensures Fits(db.rows, c, row)
  {
  }

  lemma NothingKept(rows: Rows)
    ensures Kept(rows, rows) && OriginsKept(rows, rows)
  {
  }

  lemma RecopiedFacts(rows: Rows, c: Id, o: Id, now: int)
    requires c in rows && o in rows && rows[c].origin.Some? && rows[o].origin == None
    ensures var row := Recopied(rows[c], rows[o], now);
            && Kept(rows, rows[c := row]) && OriginsKept(rows, rows[c := row])
            && row.cal == rows[c].cal && row.origin == rows[c].origin && row.rid == rows[c].rid
            && row.attendees == rows[c].attendees && row.alarms == rows[c].alarms
            && row.live == rows[c].live && Mirrors(row, rows[o])
  {
  }

  lemma NewCopyFacts(o: Row, oid: Id, cal: Cal, master: Option<Id>, now: int)
    ensures var row := NewCopy(o, oid, cal, master, now);
            && row.cal == cal && row.origin == Some(oid) && row.live && row.master == master && Mirrors(row, o)
            && row.attendees == [] && row.alarms == [] && row.rid == o.rid && row.href == None && !row.floating
  {
  }

  // ----- rebuilding one attendee's copies -----

  /** c was delivered from a row that is still live. */
  predicate LiveOrigin(rows: Rows, c: Id)
    requires c in rows
  {
    rows[c].origin.Some? && IsSubject(rows, rows[c].origin.value) && rows[rows[c].origin.value].live
  }

  /** Attendees and alarms, or none for a row that did not exist. */
  function Parts(rows: Rows, c: Id): (seq<Attendee>, seq<string>) {
    if c in rows then (rows[c].attendees, rows[c].alarms) else ([], [])
  }

  /** Deleted rows keep the key they occupy in the unique index. */
  predicate DeadKept(rows: Rows, rows': Rows) {
    forall i | i in rows && !rows[i].live :: i in rows' && !rows'[i].live && rows'[i].uid == rows[i].uid
  }

  lemma DeadKeptTransitive(a: Rows, b: Rows, c: Rows)
    requires DeadKept(a, b) && DeadKept(b, c)
    ensures DeadKept(a, c)
  {
  }

  /** What one delivery step of m to cal may do: identities and organizers' rows
    * stay, so do the copies of live rows in every other calendar and the keys of
    * deleted rows, and only copies of m itself get attendees and alarms. */
  predicate Delivers(db: Db, d: Db, m: Id, cal: Cal) {
    && Kept(db.rows, d.rows) && OriginsKept(db.rows, d.rows) && DeadKept(db.rows, d.rows)
    && d.clock == db.clock && d.ctag.Keys == db.ctag.Keys && db.log <= d.log
    && (forall c | c in db.rows && LiveOrigin(db.rows, c) && db.rows[c].cal != cal ::
          c in d.rows && d.rows[c] == db.rows[c])
    && (forall c | c in d.rows && d.rows[c].origin.Some? && d.rows[c].origin != Some(m) ::
          Parts(d.rows, c) == Parts(db.rows, c))
  }

  lemma DeliversTransitive(a: Db, b: Db, c: Db, m: Id, cal: Cal)
    requires Delivers(a, b, m, cal) && Delivers(b, c, m, cal)
    ensures Delivers(a, c, m, cal)
  {
    hide SameIdentity, LiveOrigin;
    KeptTransitive(a.rows, b.rows, c.rows);
    OriginsKeptTransitive(a.rows, b.rows, c.rows);
    DeadKeptTransitive(a.rows, b.rows, c.rows);
    forall i | i in a.rows && LiveOrigin(a.rows, i) && a.rows[i].cal != cal
      ensures i in c.rows && c.rows[i] == a.rows[i]
    {
      assert b.rows[i] == a.rows[i];
      LiveOriginStays(a.rows, b.rows, i);
    }
    forall i | i in c.rows && c.rows[i].origin.Some? && c.rows[i].origin != Some(m)
      ensures Parts(c.rows, i) == Parts(a.rows, i)
    {
      if i in b.rows {
        KeptRow(b.rows, c.rows, i);
      } else {
        assert i !in a.rows;
      }
    }
  }

  lemma LiveOriginStays(rows: Rows, rows': Rows, c: Id)
    requires OriginsKept(rows, rows') && c in rows && LiveOrigin(rows, c) && c in rows' && rows'[c] == rows[c]
    ensures LiveOrigin(rows', c)
  {
  }

  lemma KeptRow(rows: Rows, rows': Rows, i: Id)
    requires Kept(rows, rows') && i in rows
    ensures i in rows' && rows'[i].origin == rows[i].origin && rows'[i].cal == rows[i].cal
    ensures rows'[i].master == rows[i].master
  {
  }

  lemma UpsertDelivers(db: Db, d: Db, m: Id, cal: Cal, c: Id)
    requires Kept(db.rows, d.rows) && OriginsKept(db.rows, d.rows) && db.log <= d.log
    requires d.clock == db.clock && d.ctag.Keys == db.ctag.Keys && Wrote(db.rows, d.rows, c) && d.rows[c].cal == cal
    requires Parts(d.rows, c) == Parts(db.rows, c) && (c in db.rows ==> db.rows[c].live)
    ensures Delivers(db, d, m, cal)
  {
    hide LiveOrigin;
    forall i | i in db.rows && LiveOrigin(db.rows, i) && db.rows[i].cal != cal
      ensures i in d.rows && d.rows[i] == db.rows[i]
    {
      assert SameIdentity(db.rows[i], d.rows[i]);
    }
  }

  lemma NothingDelivered(db: Db, m: Id, cal: Cal)
    ensures Delivers(db, db, m, cal)
  {
  }

  ghost predicate HasMirror(rows: Rows, o: Id, cal: Cal) {
    o in rows && exists c :: IsLiveCopy(rows, o, cal, c) && Mirrors(rows[c], rows[o])
  }

  /** mc is the copy of m in cal that overrides hang under. */
  predicate MasterCopy(rows: Rows, m: Id, cal: Cal, mc: Id) {
    IsMaster(rows, mc) && rows[mc].cal == cal && rows[mc].origin == Some(m) && IsSubject(rows, m)
  }

  predicate OriginOverrides(rows: Rows, m: Id, os: seq<Id>) {
    forall o | o in os :: o != m && IsSubject(rows, o) && OverrideOf(rows[o], m)
  }

  /** Every live override of m in the list is delivered under the master copy. */
  lemma {:induction false} UpsertAllKeeps(db: Db, m: Id, os: seq<Id>, cal: Cal, mc: Id, now: int)
    requires Wf(db) && Structure(db.rows) && db.clock == now
    requires MasterCopy(db.rows, m, cal, mc) && OriginOverrides(db.rows, m, os)
    requires UpsertAll(db, os, cal, mc, now).Ok?
    ensures var d := UpsertAll(db, os, cal, mc, now).value;
            && Wf(d) && Structure(d.rows) && Delivers(db, d, m, cal)
            && d.clock == now && mc in d.rows && d.rows[mc] == db.rows[mc]
            && forall o | o in os :: o in db.rows && (db.rows[o].live ==> HasMirror(d.rows, o, cal))
    decreases |os|
  {
    hide Wf, Structure, Delivers, UpsertCopy, HasMirror;
    if os == [] {
      NothingDelivered(db, m, cal);
    } else {
      var n := |os| - 1;
      assert os[n] in os;
      UpsertAllKeeps(db, m, os[..n], cal, mc, now);
      var d := UpsertAll(db, os[..n], cal, mc, now).value;
      OneMoreDelivered(db, d, m, os[n], cal, mc, now);
      var e := UpsertAll(db, os, cal, mc, now).value;
      forall x | x in os ensures x in db.rows && (db.rows[x].live ==> HasMirror(e.rows, x, cal)) {
        if x != os[n] && db.rows[x].live {
          assert x in os[..n];
          MirrorStays(db, d, m, os[n], cal, mc, now, x);
        }
      }
    }
  }

  lemma OneMoreDelivered(db: Db, d: Db, m: Id, o: Id, cal: Cal, mc: Id, now: int)
    requires Wf(d) && Structure(d.rows) && d.clock == now && Delivers(db, d, m, cal)
    requires MasterCopy(db.rows, m, cal, mc) && mc in d.rows && d.rows[mc] == db.rows[mc]
    requires o != m && IsSubject(db.rows, o) && OverrideOf(db.rows[o], m)
    requires UpsertCopy(d, o, cal, Some(mc), now).Ok?
    ensures var e := UpsertCopy(d, o, cal, Some(mc), now).value.0;
            && Wf(e) && Structure(e.rows) && Delivers(db, e, m, cal) && Delivers(d, e, m, cal)
            && e.clock == now && mc in e.rows && e.rows[mc] == db.rows[mc]
            && (db.rows[o].live ==> HasMirror(e.rows, o, cal))
  {
    hide Wf, Structure, Kept, OriginsKept, UpsertCopy, Delivers, Mirrors;
    OriginAfter(db, d, m, cal, o);
    OriginAfter(db, d, m, cal, m);
    UpsertKeeps(d, o, cal, Some(mc), now);
    var (e, copy) := UpsertCopy(d, o, cal, Some(mc), now).value;
    if copy == None {
      NothingDelivered(d, m, cal);
    } else {
      UpsertDelivers(d, e, m, cal, copy.value);
    }
    DeliversTransitive(db, d, e, m, cal);
    OriginAfter(db, e, m, cal, o);
  }

  lemma MirrorStays(db: Db, d: Db, m: Id, o: Id, cal: Cal, mc: Id, now: int, x: Id)
    requires Wf(d) && Structure(d.rows) && d.clock == now && Delivers(db, d, m, cal)
    requires MasterCopy(db.rows, m, cal, mc) && mc in d.rows && d.rows[mc] == db.rows[mc]
    requires IsSubject(db.rows, o) && OverrideOf(db.rows[o], m)
    requires UpsertCopy(d, o, cal, Some(mc), now).Ok?
    requires x != o && IsSubject(db.rows, x) && HasMirror(d.rows, x, cal)
    ensures HasMirror(UpsertCopy(d, o, cal, Some(mc), now).value.0.rows, x, cal)
  {
    hide Wf, Structure, Kept, UpsertCopy, Delivers, Mirrors;
    OriginAfter(db, d, m, cal, o);
    OriginAfter(db, d, m, cal, m);
    OriginAfter(db, d, m, cal, x);
    UpsertKeeps(d, o, cal, Some(mc), now);
    var (e, copy) := UpsertCopy(d, o, cal, Some(mc), now).value;
    var c :| IsLiveCopy(d.rows, x, cal, c) && Mirrors(d.rows[c], d.rows[x]);
    assert x in e.rows && e.rows[x] == d.rows[x];
    assert IsLiveCopy(e.rows, x, cal, c) && e.rows[c] == d.rows[c];
  }

  lemma OriginAfter(db: Db, d: Db, m: Id, cal: Cal, o: Id)
    requires Delivers(db, d, m, cal) && IsSubject(db.rows, o)
    ensures o in d.rows && d.rows[o] == db.rows[o]
  {
  }

  // ----- overrides, dead copies, attendees and alarms -----

  lemma CopyOfMaster(rows: Rows, m: Id, c: Id)
    requires Structure(rows) && c in rows && rows[c].origin == Some(m)
    ensures m in rows && (rows[m].master == None ==> rows[c].master == None)
  {
    assert CopyOk(rows, c);
  }

  lemma NoCopyUnderOrigin(rows: Rows, m: Id)
    requires Structure(rows) && IsSubject(rows, m)
    ensures forall c | c in rows && rows[c].origin.Some? :: !OverrideOf(rows[c], m)
  {
    forall c | c in rows && rows[c].origin.Some? ensures !OverrideOf(rows[c], m) {
      assert CopyOk(rows, c);
    }
  }

  lemma OverridesAreOrigins(db: Db, m: Id)
    requires Wf(db) && Structure(db.rows) && IsSubject(db.rows, m)
    ensures OriginOverrides(db.rows, m, LiveOverrides(db.rows, m))
    ensures forall o | o in LiveOverrides(db.rows, m) :: o in db.rows && db.rows[o].live
    ensures db.rows[m].master.Some? ==> LiveOverrides(db.rows, m) == []
  {
    hide Unique, Structure;
    var os := LiveOverrides(db.rows, m);
    NoCopyUnderOrigin(db.rows, m);
    forall o | o in os
      ensures o != m && IsSubject(db.rows, o) && OverrideOf(db.rows[o], m) && db.rows[m].master == None
    {
      assert RowOk(db, o);
    }
    if os != [] {
      assert os[0] in os;
    }
  }

  /** The rows outside cs stay as they are. */
  predicate OthersSame(rows: Rows, rows': Rows, cs: seq<Id>) {
    forall i | i in rows && i !in cs :: i in rows' && rows'[i] == rows[i]
  }

  lemma {:induction false} DropAllKeeps(db: Db, cs: seq<Id>)
    requires Wf(db)
    ensures var d := DropAll(db, cs);
            && Wf(d) && d.rows.Keys == db.rows.Keys
            && d.clock == db.clock && d.ctag.Keys == db.ctag.Keys && db.log <= d.log
            && OthersSame(db.rows, d.rows, cs)
            && forall i | i in db.rows :: d.rows[i] == db.rows[i].(live := d.rows[i].live)
                && (d.rows[i].live ==> db.rows[i].live)
    decreases |cs|
  {
    hide Wf;
    if cs != [] {
      var n := |cs| - 1;
      DropAllKeeps(db, cs[..n]);
      var d := DropAll(db, cs[..n]);
      if cs[n] in d.rows {
        DropKeepsWf(d, cs[n]);
      }
    }
  }

  lemma DropKeepsWf(db: Db, c: Id)
    requires Wf(db) && c in db.rows
    ensures Wf(Recorded(db.(rows := db.rows[c := db.rows[c].(live := false)]), db.rows[c].cal, c, Deleted))
  {
    hide Unique, Fits;
    assert RowOk(db, c);
    FitsWithSameKeys(db.rows, c, db.rows[c].(live := false));
    WriteKeepsWf(db, c, db.rows[c].(live := false));
    LaterKeepsWf(db.(rows := db.rows[c := db.rows[c].(live := false)]),
                 Recorded(db.(rows := db.rows[c := db.rows[c].(live := false)]), db.rows[c].cal, c, Deleted));
  }

  /** Rows as they are but for their attendees and alarms, and those only on the
    * copies of m in cal. */
  predicate PartsReplaced(rows: Rows, rows': Rows, m: Id, cal: Cal) {
    && rows'.Keys == rows.Keys
    && forall i | i in rows ::
         rows'[i] == if rows[i].cal == cal && rows[i].origin == Some(m) && m in rows
                     then rows[i].(attendees := rows[m].attendees, alarms := rows[m].alarms) else rows[i]
  }

  /** The master branch of the filter matches nothing: copies of overrides hang under
    * a copy, and the organizer's overrides live in the organizer's calendar. So only the
    * copies of m itself, master or override, are filled. */
  lemma OnlyMasterCopiesFilled(db: Db, m: Id, cal: Cal)
    requires Wf(db) && Structure(db.rows) && IsSubject(db.rows, m) && db.rows[m].cal != cal
    ensures PartsReplaced(db.rows, FilledParts(ClearedParts(db.rows, m, cal), m, cal), m, cal)
  {
    hide Unique, OneLive;
    forall i | i in db.rows
      ensures Replaceable(db.rows, m, cal, i) <==> db.rows[i].cal == cal && db.rows[i].origin == Some(m)
    {
      assert RowOk(db, i);
    }
  }

  /** Equal in everything the invariant looks at. */
  predicate Alike(row: Row, row': Row) {
    && SameKeys(row, row') && row'.master == row.master && row'.body == row.body
    && row'.sequence == row.sequence && row'.updatedAt == row.updatedAt && row'.etag == row.etag
  }

  lemma AlikeKeepsWf(db: Db, rows: Rows)
    requires Wf(db) && rows.Keys == db.rows.Keys && forall i | i in rows :: Alike(db.rows[i], rows[i])
    ensures Wf(db.(rows := rows))
  {
    hide Unique;
    UniqueWithSameKeys(db.rows, rows);
    var d := db.(rows := rows);
    forall i | i in d.rows ensures RowOk(d, i) {
      assert RowOk(db, i);
      assert Alike(db.rows[i], rows[i]);
      if db.rows[i].master.Some? {
        assert Alike(db.rows[db.rows[i].master.value], rows[db.rows[i].master.value]);
      }
    }
  }

  lemma PartsKeepWf(db: Db, rows: Rows, m: Id, cal: Cal)
    requires Wf(db) && PartsReplaced(db.rows, rows, m, cal)
    ensures Wf(db.(rows := rows))
  {
    hide Wf;
    AlikeKeepsWf(db, rows);
  }

  // ----- a whole rebuild -----

  /** The live copy of m in cal mirrors it, attendees and alarms included. */
  predicate FullMirror(rows: Rows, m: Id, cal: Cal, c: Id) {
    && m in rows && IsLiveCopy(rows, m, cal, c) && Mirrors(rows[c], rows[m])
    && rows[c].attendees == rows[m].attendees && rows[c].alarms == rows[m].alarms
  }

  lemma DropDelivers(db: Db, m: Id, cal: Cal)
    requires Wf(db) && Structure(db.rows) && IsSubject(db.rows, m) && db.rows[m].live
    ensures var d := DropAll(db, DeadCopies(db.rows, m));
            && Wf(d) && Structure(d.rows) && Delivers(db, d, m, cal)
            && (forall i | i in db.rows && db.rows[i].live && db.rows[i].origin.Some?
                && db.rows[i].origin.value in db.rows
                  && db.rows[db.rows[i].origin.value].live :: i in d.rows && d.rows[i] == db.rows[i])
  {
    hide Wf, Structure, DropAll;
    var cs := DeadCopies(db.rows, m);
    DropAllKeeps(db, cs);
    KeptStructure(db.rows, DropAll(db, cs).rows);
  }

  lemma PartsDeliver(db: Db, m: Id, cal: Cal)
    requires Wf(db) && Structure(db.rows) && IsSubject(db.rows, m) && db.rows[m].cal != cal
    ensures var d := db.(rows := FilledParts(ClearedParts(db.rows, m, cal), m, cal));
            && Wf(d) && Structure(d.rows) && Delivers(db, d, m, cal) && PartsReplaced(db.rows, d.rows, m, cal)
  {
    hide Wf, Structure, FilledParts;
    OnlyMasterCopiesFilled(db, m, cal);
    var rows := FilledParts(ClearedParts(db.rows, m, cal), m, cal);
    PartsKeepWf(db, rows, m, cal);
    KeptStructure(db.rows, rows);
  }

  /** rebuild_copy: the master copy mirrors its origin in full, each live override has
    * a copy that mirrors the copied fields. */
  lemma RebuildKeeps(db: Db, m: Id, cal: Cal, now: int)
    requires Wf(db) && Structure(db.rows) && db.clock == now && IsSubject(db.rows, m) && db.rows[m].live
    requires RebuildCopy(db, m, cal, now).Ok?
    ensures var d := RebuildCopy(db, m, cal, now).value;
            && Wf(d) && Structure(d.rows) && Delivers(db, d, m, cal) && cal != db.rows[m].cal
            && (exists c :: FullMirror(d.rows, m, cal, c))
            && forall o | o in LiveOverrides(db.rows, m) :: HasMirror(d.rows, o, cal)
  {
    hide Wf, Structure, Delivers, DropAll, DeadCopies, FilledParts, ClearedParts, LiveOverrides, UpsertCopy, UpsertAll,
      HasMirror, Kept, OriginsKept, Wrote;
    UpsertKeeps(db, m, cal, None, now);
    var (d1, copy) := UpsertCopy(db, m, cal, None, now).value;
    var mc := copy.value;
    UpsertDelivers(db, d1, m, cal, mc);
    OriginAfter(db, d1, m, cal, m);
    SameOverrides(db.rows, d1.rows, m);
    OverridesAreOrigins(db, m);
    OverridesAreOrigins(d1, m);
    var os := LiveOverrides(d1.rows, m);
    CopyOfMaster(d1.rows, m, mc);
    if os == [] {
      NothingUpserted(d1, cal, mc, now);
      NothingDelivered(d1, m, cal);
    } else {
      UpsertAllKeeps(d1, m, os, cal, mc, now);
    }
    var d2 := UpsertAll(d1, os, cal, mc, now).value;
    OriginAfter(d1, d2, m, cal, m);
    FinishRebuild(db, d1, d2, m, os, cal, mc, now);
  }

  lemma NothingUpserted(db: Db, cal: Cal, mc: Id, now: int)
    ensures UpsertAll(db, [], cal, mc, now) == Ok(db)
  {
  }

  lemma SameOverrides(rows: Rows, rows': Rows, m: Id)
    requires Structure(rows) && Structure(rows') && Kept(rows, rows') && OriginsKept(rows, rows') && IsSubject(rows, m)
    ensures LiveOverrides(rows', m) == LiveOverrides(rows, m)
  {
    hide Structure, Listed, SameIdentity;
    NoCopyUnderOrigin(rows, m);
    NoCopyUnderOrigin(rows', m);
    forall i ensures i in OverrideSet(rows, m) <==> i in OverrideSet(rows', m) {
      if i in OverrideSet(rows, m) {
        assert rows[i].origin == None;
        assert rows'[i] == rows[i];
      } else if i in OverrideSet(rows', m) {
        assert rows'[i].origin == None;
        assert i in rows;
        OriginBefore(rows, rows', i);
      }
    }
    assert OverrideSet(rows, m) == OverrideSet(rows', m);
  }

  lemma OriginBefore(rows: Rows, rows': Rows, i: Id)
    requires Kept(rows, rows') && OriginsKept(rows, rows') && i in rows && i in rows' && rows'[i].origin == None
    ensures rows'[i] == rows[i]
  {
    assert SameIdentity(rows[i], rows'[i]);
  }

  lemma FinishRebuild(db: Db, d1: Db, d2: Db, m: Id, os: seq<Id>, cal: Cal, mc: Id, now: int)
    requires Wf(d2) && Structure(d2.rows) && Delivers(db, d1, m, cal) && Delivers(d1, d2, m, cal)
    requires IsSubject(db.rows, m) && db.rows[m].live && db.rows[m].cal != cal
    requires IsLiveCopy(d2.rows, m, cal, mc) && m in d2.rows && d2.rows[m] == db.rows[m]
    requires Mirrors(d2.rows[mc], d2.rows[m])
    requires forall o | o in os :: IsSubject(db.rows, o) && db.rows[o].live && HasMirror(d2.rows, o, cal)
    ensures var d3 := DropAll(d2, DeadCopies(d2.rows, m));
            var d := d3.(rows := FilledParts(ClearedParts(d3.rows, m, cal), m, cal));
            && Wf(d) && Structure(d.rows) && Delivers(db, d, m, cal)
            && FullMirror(d.rows, m, cal, mc)
            && forall o | o in os :: HasMirror(d.rows, o, cal)
  {
    hide Wf, Structure, DropAll, DeadCopies, FilledParts, ClearedParts, Delivers, Kept;
    DropDelivers(d2, m, cal);
    var d3 := DropAll(d2, DeadCopies(d2.rows, m));
    OriginAfter(d2, d3, m, cal, m);
    PartsDeliver(d3, m, cal);
    var d := d3.(rows := FilledParts(ClearedParts(d3.rows, m, cal), m, cal));
    DeliversTransitive(db, d1, d2, m, cal);
    DeliversTransitive(db, d2, d3, m, cal);
    DeliversTransitive(db, d3, d, m, cal);
    forall o | o in os ensures HasMirror(d.rows, o, cal) {
      OriginAfter(db, d2, m, cal, o);
      OriginAfter(d2, d3, m, cal, o);
      OriginAfter(d3, d, m, cal, o);
      var c :| IsLiveCopy(d2.rows, o, cal, c) && Mirrors(d2.rows[c], d2.rows[o]);
      assert d3.rows[c] == d2.rows[c];
      assert IsLiveCopy(d.rows, o, cal, c) && Mirrors(d.rows[c], d.rows[o]);
    }
  }
}
