/** A dispatch row by row: what becomes of every row, which rows are new, and which are journalled. */
module SchedulingRows {
  import opened Wrappers
  import opened EventRows
  import opened EventEffects
  import opened Scheduling
  import opened SchedulingCopies
  import opened SchedulingDispatch
  import opened SchedulingCommits

  // ----- the journal -----

  /** Every entry added names a row in its own calendar, and the CTags follow. */
  predicate Records(db: Db, d: Db) {
    && db.log <= d.log && CtagsFollow(db, d)
    && forall k | |db.log| <= k < |d.log| :: d.log[k].id in d.rows && d.log[k].cal == d.rows[d.log[k].id].cal
  }

  /** An entry for i was added. */
  predicate Mentioned(db: Db, d: Db, i: Id) { exists k :: |db.log| <= k < |d.log| && d.log[k].id == i }

  lemma RecordsTransitive(a: Db, b: Db, c: Db)
    requires Records(a, b) && Records(b, c) && Kept(b.rows, c.rows)
    ensures Records(a, c)
  {
    forall k | |a.log| <= k < |c.log|
      ensures c.log[k].id in c.rows && c.log[k].cal == c.rows[c.log[k].id].cal
      ensures c.log[k].cal in a.ctag ==> a.ctag[c.log[k].cal] < c.ctag[c.log[k].cal]
    {
      if k < |b.log| {
        assert c.log[k] == b.log[k];
        KeptRow(b.rows, c.rows, b.log[k].id);
      }
    }
  }

  lemma MentionedTransitive(a: Db, b: Db, c: Db, i: Id)
    requires a.log <= b.log && b.log <= c.log
    ensures Mentioned(a, c, i) <==> Mentioned(a, b, i) || Mentioned(b, c, i)
  {
    if Mentioned(a, b, i) {
      var k :| |a.log| <= k < |b.log| && b.log[k].id == i;
      assert c.log[k].id == i;
    }
    if Mentioned(b, c, i) {
      var k :| |b.log| <= k < |c.log| && c.log[k].id == i;
    }
    if Mentioned(a, c, i) {
      var k :| |a.log| <= k < |c.log| && c.log[k].id == i;
      assert k < |b.log| ==> b.log[k].id == i;
    }
  }

  lemma RecordedOnce(db: Db, rows: Rows, cal: Cal, c: Id, op: Operation)
    requires c in rows && rows[c].cal == cal
    ensures var d := Recorded(db.(rows := rows), cal, c, op);
            Records(db, d) && forall i :: Mentioned(db, d, i) <==> i == c
  {
    var d := Recorded(db.(rows := rows), cal, c, op);
    assert d.log[|db.log|].id == c;
  }

  lemma NothingRecorded(db: Db, rows: Rows)
    ensures Records(db, db.(rows := rows)) && forall i :: !Mentioned(db, db.(rows := rows), i)
  {
  }

  // ----- one upsert -----

  /** The row o's copy is written to. */
  lemma UpsertWrites(db: Db, o: Id, cal: Cal, master: Option<Id>, now: int) returns (c: Id)
    requires o in db.rows && db.rows[o].live && UpsertCopy(db, o, cal, master, now).Ok?
    ensures var (d, copy) := UpsertCopy(db, o, cal, master, now).value;
            && copy == Some(c) && c in d.rows && d.rows == db.rows[c := d.rows[c]] && d.rows[c].cal == cal
            && (if c in db.rows
                then IsLiveCopy(db.rows, o, cal, c) && d.rows[c] == Recopied(db.rows[c], db.rows[o], now)
                else d.rows[c] == NewCopy(db.rows[o], o, cal, master, now))
            && (c !in db.rows ==> forall x :: !IsLiveCopy(db.rows, o, cal, x))
            && Records(db, d) && (forall i :: Mentioned(db, d, i) <==> i == c)
  {
    hide Fits, Records, Mentioned, CtagsFollow;
    var (d, copy) := UpsertCopy(db, o, cal, master, now).value;
    c := copy.value;
    UpsertRecords(db, o, cal, master, now);
  }

  lemma UpsertRecords(db: Db, o: Id, cal: Cal, master: Option<Id>, now: int)
    requires o in db.rows && db.rows[o].live && UpsertCopy(db, o, cal, master, now).Ok?
    ensures var (d, copy) := UpsertCopy(db, o, cal, master, now).value;
            copy.Some? && Records(db, d) && forall i :: Mentioned(db, d, i) <==> i == copy.value
  {
    hide Fits, Records, Mentioned, Recorded;
    var (d, copy) := UpsertCopy(db, o, cal, master, now).value;
    match LiveCopy(db.rows, o, cal)
    case Some(c) =>
      RecordedOnce(db, db.rows[c := Recopied(db.rows[c], db.rows[o], now)], db.rows[c].cal, c, Updated);
    case None =>
      var c := FreshId(db.rows);
      RecordedOnce(db, db.rows[c := NewCopy(db.rows[o], o, cal, master, now)], cal, c, Created);
  }

  /** What becomes of an old row when o is upserted in cal. */
  lemma UpsertRow(db: Db, o: Id, cal: Cal, master: Option<Id>, now: int, i: Id)
    requires Structure(db.rows) && o in db.rows && db.rows[o].live && UpsertCopy(db, o, cal, master, now).Ok?
    requires i in db.rows
    ensures var d := UpsertCopy(db, o, cal, master, now).value.0;
            && i in d.rows
            && d.rows[i] == (if IsLiveCopy(db.rows, o, cal, i) then Recopied(db.rows[i], db.rows[o], now)
                else db.rows[i])
            && (Mentioned(db, d, i) <==> IsLiveCopy(db.rows, o, cal, i))
  {
    hide Recopied, NewCopy, CopyOk, UpsertCopy, Mentioned, Records;
    var c := UpsertWrites(db, o, cal, master, now);
  }

  // ----- the overrides of one rebuild -----

  /** i is the live copy, in cal, of one of the rows in os. */
  predicate CopyOfAny(rows: Rows, os: seq<Id>, cal: Cal, i: Id)
    requires i in rows
  {
    && rows[i].live && rows[i].cal == cal
    && rows[i].origin.Some? && rows[i].origin.value in os && rows[i].origin.value in rows
  }

  function AllUpserted(rows: Rows, os: seq<Id>, cal: Cal, now: int, i: Id): Row
    requires i in rows
  {
    if CopyOfAny(rows, os, cal, i) then Recopied(rows[i], rows[rows[i].origin.value], now) else rows[i]
  }

  lemma RecopiedTwice(copy: Row, o: Row, now: int)
    ensures var r := Recopied(copy, o, now);
            && Recopied(r, o, now) == r && r.live == copy.live && r.origin == copy.origin && r.cal == copy.cal
            && r.rid == copy.rid && r.master == copy.master && r.href == copy.href
            && r.attendees == copy.attendees && r.alarms == copy.alarms
  {
  }

  lemma {:induction false} UpsertAllRow(db: Db, m: Id, os: seq<Id>, cal: Cal, mc: Id, now: int, i: Id)
    requires Wf(db) && Structure(db.rows) && db.clock == now
    requires MasterCopy(db.rows, m, cal, mc) && OriginOverrides(db.rows, m, os) && forall o | o in os :: db.rows[o].live
    requires UpsertAll(db, os, cal, mc, now).Ok? && i in db.rows
    ensures var d := UpsertAll(db, os, cal, mc, now).value;
            && i in d.rows && d.rows[i] == AllUpserted(db.rows, os, cal, now, i)
            && Records(db, d) && (Mentioned(db, d, i) <==> CopyOfAny(db.rows, os, cal, i))
    decreases |os|
  {
    hide Wf, Structure, Delivers, UpsertCopy, HasMirror, Records, Mentioned, Recopied;
    if os == [] {
      NothingRecorded(db, db.rows);
    } else {
      var n := |os| - 1;
      assert os[n] in os && forall o | o in os[..n] :: o in os;
      UpsertAllKeeps(db, m, os[..n], cal, mc, now);
      UpsertAllRow(db, m, os[..n], cal, mc, now, i);
      var d := UpsertAll(db, os[..n], cal, mc, now).value;
      OriginAfter(db, d, m, cal, os[n]);
      OneMoreRow(db, d, os, cal, mc, now, i);
    }
  }

  lemma OneMoreRow(db: Db, d: Db, os: seq<Id>, cal: Cal, mc: Id, now: int, i: Id)
    requires os != [] && Structure(d.rows) && i in db.rows && i in d.rows
    requires var n := |os| - 1;
             && d.rows[i] == AllUpserted(db.rows, os[..n], cal, now, i)
             && Records(db, d) && (Mentioned(db, d, i) <==> CopyOfAny(db.rows, os[..n], cal, i))
             && os[n] in d.rows && os[n] in db.rows && d.rows[os[n]] == db.rows[os[n]] && db.rows[os[n]].live
             && UpsertCopy(d, os[n], cal, Some(mc), now).Ok?
    ensures var e := UpsertCopy(d, os[|os| - 1], cal, Some(mc), now).value.0;
            && i in e.rows && e.rows[i] == AllUpserted(db.rows, os, cal, now, i)
            && Records(db, e) && (Mentioned(db, e, i) <==> CopyOfAny(db.rows, os, cal, i))
  {
    hide Structure, UpsertCopy, Records, Mentioned, Recopied;
    var o := os[|os| - 1];
    var e := UpsertCopy(d, o, cal, Some(mc), now).value.0;
    UpsertRow(d, o, cal, Some(mc), now, i);
    UpsertJournal(db, d, o, cal, Some(mc), now, i);
    RecopiedTwice(db.rows[i], db.rows[o], now);
    if db.rows[i].origin.Some? && db.rows[i].origin.value in db.rows {
      RecopiedTwice(db.rows[i], db.rows[db.rows[i].origin.value], now);
    }
    assert forall x :: x in os <==> x == o || x in os[..|os| - 1];
  }

  lemma UpsertJournal(db: Db, d: Db, o: Id, cal: Cal, master: Option<Id>, now: int, i: Id)
    requires o in d.rows && d.rows[o].live && UpsertCopy(d, o, cal, master, now).Ok? && Records(db, d)
    ensures var e := UpsertCopy(d, o, cal, master, now).value.0;
            Records(db, e) && (Mentioned(db, e, i) <==> Mentioned(db, d, i) || Mentioned(d, e, i))
  {
    hide UpsertCopy, Mentioned, Recopied, NewCopy;
    var c := UpsertWrites(d, o, cal, master, now);
    var e := UpsertCopy(d, o, cal, master, now).value.0;
    MentionedTransitive(db, d, e, i);
    forall k | |db.log| <= k < |e.log|
      ensures e.log[k].id in e.rows && e.log[k].cal == e.rows[e.log[k].id].cal
      ensures e.log[k].cal in db.ctag ==> db.ctag[e.log[k].cal] < e.ctag[e.log[k].cal]
    {
      if k < |d.log| {
        assert e.log[k] == d.log[k];
        RecopiedCal(d.rows, c, o, now);
      }
    }
  }

  lemma RecopiedCal(rows: Rows, c: Id, o: Id, now: int)
    ensures c in rows && o in rows ==> Recopied(rows[c], rows[o], now).cal == rows[c].cal
  {
  }

  // ----- dropping copies of deleted rows -----

  lemma {:induction false} DropAllRow(db: Db, cs: seq<Id>, i: Id)
    requires i in db.rows && forall c | c in cs :: c in db.rows
    ensures var d := DropAll(db, cs);
            && d.rows.Keys == db.rows.Keys
            && d.rows[i] == (if i in cs then db.rows[i].(live := false) else db.rows[i])
            && Records(db, d) && (Mentioned(db, d, i) <==> i in cs)
    decreases |cs|
  {
    hide Records, Mentioned;
    if cs == [] {
      NothingRecorded(db, db.rows);
    } else {
      var n := |cs| - 1;
      assert cs[n] in cs && forall c | c in cs[..n] :: c in cs;
      DropAllRow(db, cs[..n], i);
      DropAllRow(db, cs[..n], cs[n]);
      var d := DropAll(db, cs[..n]);
      var c := cs[n];
      var rows := d.rows[c := d.rows[c].(live := false)];
      RecordedOnce(d, rows, d.rows[c].cal, c, Deleted);
      RecordsOn(db, d, rows, d.rows[c].cal, c, Deleted, i);
      assert forall x :: x in cs <==> x == c || x in cs[..n];
    }
  }

  /** One more entry after those already made, calendars unchanged. */
  lemma RecordsOn(db: Db, d: Db, rows: Rows, cal: Cal, c: Id, op: Operation, i: Id)
    requires Records(db, d) && c in rows && rows[c].cal == cal
    requires forall x | x in d.rows :: x in rows && rows[x].cal == d.rows[x].cal
    ensures var e := Recorded(d.(rows := rows), cal, c, op);
            Records(db, e) && (Mentioned(db, e, i) <==> Mentioned(db, d, i) || i == c)
  {
    hide Mentioned;
    var e := Recorded(d.(rows := rows), cal, c, op);
    RecordedOnce(d, rows, cal, c, op);
    MentionedTransitive(db, d, e, i);
    forall k | |db.log| <= k < |e.log|
      ensures e.log[k].id in e.rows && e.log[k].cal == e.rows[e.log[k].id].cal
      ensures e.log[k].cal in db.ctag ==> db.ctag[e.log[k].cal] < e.ctag[e.log[k].cal]
    {
      if k < |d.log| {
        assert e.log[k] == d.log[k];
      }
    }
  }

  // ----- one rebuild -----

  /** The copy i of m or of an override of m is written when m is delivered to cals. */
  predicate Served(rows: Rows, m: Id, cals: set<Cal>, i: Id)
    requires i in rows
  {
    && rows[i].live && rows[i].origin.Some? && rows[i].origin.value in rows
    && if rows[i].origin == Some(m) then rows[i].cal in cals
       else OverrideOf(rows[rows[i].origin.value], m)
            && if rows[rows[i].origin.value].live then rows[i].cal in cals else cals != {}
  }

  /** What becomes of an old row when m is delivered to cals: copies of m and of its live
    * overrides there are rewritten, copies of its deleted overrides disappear everywhere,
    * and the copies of m there, deleted ones too, get its attendees and alarms. */
  function ServedRow(rows: Rows, m: Id, cals: set<Cal>, now: int, i: Id): Row
    requires i in rows && m in rows
  {
    var row := rows[i];
    var written :=
      if !Served(rows, m, cals, i) then row
      else if rows[row.origin.value].live then Recopied(row, rows[row.origin.value], now)
      else row.(live := false);
    if row.origin == Some(m) && row.cal in cals
    then written.(attendees := rows[m].attendees, alarms := rows[m].alarms)
    else written
  }

  lemma DeadIsServed(rows: Rows, m: Id, i: Id)
    requires m in rows && rows[m].live && i in rows
    ensures i in DeadCopies(rows, m) <==>
              rows[i].live && rows[i].origin.Some? && rows[i].origin.value in rows
              && !rows[rows[i].origin.value].live && OverrideOf(rows[rows[i].origin.value], m)
    ensures forall c | c in DeadCopies(rows, m) :: c in rows
  {
  }

  lemma OverridesListed(rows: Rows, m: Id, i: Id)
    ensures i in LiveOverrides(rows, m) <==> i in rows && rows[i].live && OverrideOf(rows[i], m)
  {
  }

  /** i is rewritten by the upserts of one rebuild: a live copy, in cal, of m or of a live override. */
  predicate UpsertedBy(rows: Rows, m: Id, cal: Cal, i: Id)
    requires i in rows
  {
    && rows[i].live && rows[i].cal == cal && rows[i].origin.Some? && rows[i].origin.value in rows
    && rows[rows[i].origin.value].live
    && (rows[i].origin == Some(m) || OverrideOf(rows[rows[i].origin.value], m))
  }

  lemma JoinJournals(a: Db, b: Db, c: Db, i: Id)
    requires Records(a, b) && Records(b, c) && Kept(b.rows, c.rows)
    ensures Records(a, c) && (Mentioned(a, c, i) <==> Mentioned(a, b, i) || Mentioned(b, c, i))
  {
    hide Kept, Mentioned;
    RecordsTransitive(a, b, c);
    MentionedTransitive(a, b, c, i);
  }

  lemma DeliveredIsKept(a: Db, b: Db, m: Id, cal: Cal)
    requires Delivers(a, b, m, cal)
    ensures Kept(a.rows, b.rows) && OriginsKept(a.rows, b.rows) && b.clock == a.clock
  {
  }

  lemma ComposeUpserts(db: Db, d: Db, m: Id, os: seq<Id>, cal: Cal, now: int, i: Id)
    requires Ready(db, m, now) && i in db.rows && i in d.rows && OriginsKept(db.rows, d.rows)
    requires d.rows[i] == if IsLiveCopy(db.rows, m, cal, i) then Recopied(db.rows[i], db.rows[m], now) else db.rows[i]
    requires os == LiveOverrides(db.rows, m)
    ensures AllUpserted(d.rows, os, cal, now, i)
         == if UpsertedBy(db.rows, m, cal, i) then Recopied(db.rows[i], db.rows[db.rows[i].origin.value], now)
           else db.rows[i]
    ensures UpsertedBy(db.rows, m, cal, i) <==> IsLiveCopy(db.rows, m, cal, i) || CopyOfAny(d.rows, os, cal, i)
  {
    hide Wf, Structure, Recopied, LiveOverrides;
    RecopiedTwice(db.rows[i], db.rows[m], now);
    OverridesAreOrigins(db, m);
    if db.rows[i].origin.Some? {
      SameRid(db.rows, db.rows[i].origin.value, i);
      OverridesListed(db.rows, m, db.rows[i].origin.value);
    }
  }

  /** The upserts of one rebuild. */
  lemma UpsertsRow(db: Db, m: Id, cal: Cal, now: int, i: Id)
    requires Ready(db, m, now) && RebuildCopy(db, m, cal, now).Ok? && i in db.rows
    ensures var (d1, copy) := UpsertCopy(db, m, cal, None, now).value;
            && UpsertCopy(db, m, cal, None, now).Ok? && copy.Some?
            && UpsertAll(d1, LiveOverrides(d1.rows, m), cal, copy.value, now).Ok?
    ensures var (d1, copy) := UpsertCopy(db, m, cal, None, now).value;
            var d2 := UpsertAll(d1, LiveOverrides(d1.rows, m), cal, copy.value, now).value;
            && Ready(d2, m, now) && Delivers(db, d2, m, cal) && db.rows[m].cal != cal
            && (forall o | IsSubject(db.rows, o) :: o in d2.rows && d2.rows[o] == db.rows[o])
            && i in d2.rows
            && d2.rows[i] == (if UpsertedBy(db.rows, m, cal, i)
                              then Recopied(db.rows[i], db.rows[db.rows[i].origin.value], now) else db.rows[i])
            && Records(db, d2) && (Mentioned(db, d2, i) <==> UpsertedBy(db.rows, m, cal, i))
  {
    hide Wf, Structure, Delivers, UpsertCopy, UpsertAll, Kept, OriginsKept, HasMirror, LiveOverrides, Records,
      Mentioned,
      Recopied, DropAll, FilledParts, ClearedParts, DeadCopies, CopyOfAny, UpsertedBy, Mirrors;
    UpsertKeeps(db, m, cal, None, now);
    var (d1, copy) := UpsertCopy(db, m, cal, None, now).value;
    UpsertRow(db, m, cal, None, now, i);
    var c := UpsertWrites(db, m, cal, None, now);
    UpsertDelivers(db, d1, m, cal, c);
    OriginAfter(db, d1, m, cal, m);
    SameOverrides(db.rows, d1.rows, m);
    OverridesAreOrigins(db, m);
    OverridesAreOrigins(d1, m);
    CopyOfMaster(d1.rows, m, c);
    var os := LiveOverrides(d1.rows, m);
    if os == [] {
      NothingUpserted(d1, cal, c, now);
      NothingDelivered(d1, m, cal);
      NothingRecorded(d1, d1.rows);
    } else {
      UpsertAllKeeps(d1, m, os, cal, c, now);
      UpsertAllRow(d1, m, os, cal, c, now, i);
    }
    var d2 := UpsertAll(d1, os, cal, c, now).value;
    assert Records(d1, d2) && d2.rows[i] == AllUpserted(d1.rows, os, cal, now, i)
        && (Mentioned(d1, d2, i) <==> CopyOfAny(d1.rows, os, cal, i)) by {
      if os == [] {
        assert !CopyOfAny(d1.rows, os, cal, i) by { NoneOfNone(d1.rows, cal, i); }
      }
    }
    DeliversTransitive(db, d1, d2, m, cal);
    DeliveredIsKept(d1, d2, m, cal);
    JoinJournals(db, d1, d2, i);
    ComposeUpserts(db, d1, m, os, cal, now, i);
    DeliveredIsKept(db, d2, m, cal);
    SubjectsStay(db.rows, d2.rows);
  }

  lemma SubjectsStay(rows: Rows, rows': Rows)
    requires OriginsKept(rows, rows')
    ensures forall o | IsSubject(rows, o) :: o in rows' && rows'[o] == rows[o]
  {
  }

  lemma NoneOfNone(rows: Rows, cal: Cal, i: Id)
    requires i in rows
    ensures !CopyOfAny(rows, [], cal, i)
  {
  }

  /** The upserted row, then dropped if its origin is deleted, then with m's parts if a copy of m. */
  lemma ComposeRebuild(rows: Rows, rows2: Rows, m: Id, cal: Cal, now: int, i: Id, row3: Row, row: Row)
    requires Structure(rows) && IsSubject(rows, m) && rows[m].live && i in rows && i in rows2 && m in rows2
    requires forall o | IsSubject(rows, o) :: o in rows2 && rows2[o] == rows[o]
    requires rows2[i]
          == if UpsertedBy(rows, m, cal, i) then Recopied(rows[i], rows[rows[i].origin.value], now) else rows[i]
    requires row3 == if i in DeadCopies(rows2, m) then rows2[i].(live := false) else rows2[i]
    requires row == if row3.cal == cal && row3.origin == Some(m)
                    then row3.(attendees := rows[m].attendees, alarms := rows[m].alarms) else row3
    ensures row == ServedRow(rows, m, {cal}, now, i)
    ensures Served(rows, m, {cal}, i) <==> UpsertedBy(rows, m, cal, i) || i in DeadCopies(rows2, m)
  {
    hide Structure, Recopied, DeadCopies;
    DeadIsServed(rows2, m, i);
    if rows[i].origin.Some? {
      SameRid(rows, rows[i].origin.value, i);
      RecopiedTwice(rows[i], rows[rows[i].origin.value], now);
    }
  }

  /** What becomes of an old row in one rebuild, and whether it is journalled. */
  lemma RebuildRow(db: Db, m: Id, cal: Cal, now: int, i: Id)
    requires Ready(db, m, now) && RebuildCopy(db, m, cal, now).Ok? && i in db.rows
    ensures var d := RebuildCopy(db, m, cal, now).value;
            && Ready(d, m, now) && Kept(db.rows, d.rows) && OriginsKept(db.rows, d.rows)
            && i in d.rows && d.rows[i] == ServedRow(db.rows, m, {cal}, now, i)
            && Records(db, d) && (Mentioned(db, d, i) <==> Served(db.rows, m, {cal}, i))
  {
    hide Wf, Structure, Delivers, UpsertCopy, UpsertAll, LiveOverrides, Records, Mentioned, Recopied, DropAll,
      FilledParts,
      ClearedParts, DeadCopies, UpsertedBy, ServedRow, Served, Kept, OriginsKept;
    UpsertsRow(db, m, cal, now, i);
    var (d1, copy) := UpsertCopy(db, m, cal, None, now).value;
    var d2 := UpsertAll(d1, LiveOverrides(d1.rows, m), cal, copy.value, now).value;
    DropDelivers(d2, m, cal);
    DeadIsServed(d2.rows, m, i);
    DropAllRow(d2, DeadCopies(d2.rows, m), i);
    var d3 := DropAll(d2, DeadCopies(d2.rows, m));
    OriginAfter(d2, d3, m, cal, m);
    PartsDeliver(d3, m, cal);
    var d := d3.(rows := FilledParts(ClearedParts(d3.rows, m, cal), m, cal));
    NothingRecorded(d3, d.rows);
    OriginAfter(d3, d, m, cal, m);
    DeliversTransitive(db, d2, d3, m, cal);
    DeliversTransitive(db, d3, d, m, cal);
    DeliveredIsKept(d2, d3, m, cal);
    DeliveredIsKept(d3, d, m, cal);
    DeliveredIsKept(db, d, m, cal);
    JoinJournals(db, d2, d3, i);
    JoinJournals(db, d3, d, i);
    ComposeRebuild(db.rows, d2.rows, m, cal, now, i, d3.rows[i], d.rows[i]);
  }

  // ----- a whole delivery -----

  /** The collections of the local attendees. */
  function Homes(dir: Directory, atts: seq<Attendee>, organizer: string): set<Cal> {
    set a | a in atts && RecipientOf(dir, a, organizer).Local? :: RecipientOf(dir, a, organizer).cal
  }

  lemma ServedAgain(rows: Rows, rows2: Rows, m: Id, cals: set<Cal>, cal: Cal, now: int, i: Id)
    requires Structure(rows) && IsSubject(rows, m) && rows[m].live && i in rows && i in rows2 && m in rows2
    requires OriginsKept(rows, rows2) && rows2[i] == ServedRow(rows, m, cals, now, i)
    ensures ServedRow(rows2, m, {cal}, now, i) == ServedRow(rows, m, cals + {cal}, now, i)
    ensures Served(rows, m, cals + {cal}, i) <==> Served(rows, m, cals, i) || Served(rows2, m, {cal}, i)
  {
    hide Structure, Recopied;
    if rows[i].origin.Some? {
      SameRid(rows, rows[i].origin.value, i);
      RecopiedTwice(rows[i], rows[rows[i].origin.value], now);
      RecopiedParts(rows[i], rows[m], now);
    }
  }

  lemma RecopiedParts(copy: Row, o: Row, now: int)
    ensures Recopied(Recopied(copy, o, now).(attendees := o.attendees, alarms := o.alarms), o, now)
         == Recopied(copy, o, now).(attendees := o.attendees, alarms := o.alarms)
  {
  }

  lemma {:induction false} DeliveredRow(db: Db, dir: Directory, m: Id, organizer: string, atts: seq<Attendee>,
      now: int, i: Id)
    requires Ready(db, m, now) && Delivered(db, dir, m, organizer, atts, now).Ok? && i in db.rows
    ensures var d := Delivered(db, dir, m, organizer, atts, now).value;
            && Ready(d, m, now) && Kept(db.rows, d.rows) && OriginsKept(db.rows, d.rows)
            && i in d.rows && d.rows[i] == ServedRow(db.rows, m, Homes(dir, atts, organizer), now, i)
            && Records(db, d) && (Mentioned(db, d, i) <==> Served(db.rows, m, Homes(dir, atts, organizer), i))
    decreases |atts|
  {
    hide Ready, Kept, OriginsKept, RebuildCopy, ServedRow, Served, Records, Mentioned, RecipientOf, Homes;
    OneMoreHome(dir, atts, organizer);
    if atts == [] {
      NothingKept(db.rows);
      NothingRecorded(db, db.rows);
      ReadySubject(db, db, m, now);
      NobodyServed(db.rows, m, now, i);
    } else {
      var n := |atts| - 1;
      DeliveredRow(db, dir, m, organizer, atts[..n], now, i);
      var r := RecipientOf(dir, atts[n], organizer);
      if r.Local? {
        DeliveredOnce(db, Delivered(db, dir, m, organizer, atts[..n], now).value, m, Homes(dir, atts[..n], organizer),
                      r.cal, now, i);
      }
    }
  }

  lemma OneMoreHome(dir: Directory, atts: seq<Attendee>, organizer: string)
    ensures atts == [] ==> Homes(dir, atts, organizer) == {}
    ensures atts != [] ==>
              var (before, r) :=
                (Homes(dir, atts[..|atts| - 1], organizer), RecipientOf(dir, atts[|atts| - 1], organizer));
              Homes(dir, atts, organizer) == if r.Local? then before + {r.cal} else before
  {
    hide RecipientOf;
    if atts != [] {
      assert atts == atts[..|atts| - 1] + [atts[|atts| - 1]];
    }
  }

  lemma DeliveredOnce(db: Db, d: Db, m: Id, cals: set<Cal>, cal: Cal, now: int, i: Id)
    requires Ready(db, m, now) && Ready(d, m, now) && Kept(db.rows, d.rows) && OriginsKept(db.rows, d.rows)
    requires i in db.rows
    requires i in d.rows && d.rows[i] == ServedRow(db.rows, m, cals, now, i)
    requires Records(db, d) && (Mentioned(db, d, i) <==> Served(db.rows, m, cals, i))
    requires RebuildCopy(d, m, cal, now).Ok?
    ensures var e := RebuildCopy(d, m, cal, now).value;
            && Ready(e, m, now) && Kept(db.rows, e.rows) && OriginsKept(db.rows, e.rows)
            && i in e.rows && e.rows[i] == ServedRow(db.rows, m, cals + {cal}, now, i)
            && Records(db, e) && (Mentioned(db, e, i) <==> Served(db.rows, m, cals + {cal}, i))
  {
    hide Ready, Kept, OriginsKept, RebuildCopy, ServedRow, Served, Records, Mentioned;
    RebuildRow(d, m, cal, now, i);
    var e := RebuildCopy(d, m, cal, now).value;
    KeptTransitive(db.rows, d.rows, e.rows);
    OriginsKeptTransitive(db.rows, d.rows, e.rows);
    JoinJournals(db, d, e, i);
    ReadySubject(db, d, m, now);
    ServedAgain(db.rows, d.rows, m, cals, cal, now, i);
  }

  lemma ReadySubject(db: Db, d: Db, m: Id, now: int)
    requires Ready(db, m, now) && Ready(d, m, now)
    ensures Structure(db.rows) && IsSubject(db.rows, m) && db.rows[m].live && m in d.rows
  {
    hide Wf, Structure;
  }

  lemma NobodyServed(rows: Rows, m: Id, now: int, i: Id)
    requires i in rows && m in rows && rows[m].live
    ensures !Served(rows, m, {}, i) && ServedRow(rows, m, {}, now, i) == rows[i]
  {
  }

  // ----- cancelling strays -----

  lemma CancelAllPlaces(db: Db, cs: seq<Id>, now: int)
    requires Distinct(cs)
    ensures var d := CancelAll(db, cs, now);
            forall x | x in db.rows ::
              x in d.rows && d.rows[x].cal == db.rows[x].cal && d.rows[x].live == db.rows[x].live
  {
    hide CancelAll, CancelledCopy;
    forall x | x in db.rows
      ensures var d := CancelAll(db, cs, now);
              x in d.rows && d.rows[x].cal == db.rows[x].cal && d.rows[x].live == db.rows[x].live
    {
      CancelAllRow(db, cs, now, x);
      CancelledFacts(db.rows[x], now);
    }
  }

  lemma {:induction false} CancelAllJournal(db: Db, cs: seq<Id>, now: int, i: Id)
    requires Distinct(cs) && forall c | c in cs :: c in db.rows && db.rows[c].live
    ensures var d := CancelAll(db, cs, now);
            Records(db, d) && (Mentioned(db, d, i) <==> i in cs)
    decreases |cs|
  {
    hide Records, Mentioned, CancelledCopy;
    if cs == [] {
      NothingRecorded(db, db.rows);
    } else {
      var n := |cs| - 1;
      assert cs[n] in cs && forall c | c in cs[..n] :: c in cs;
      CancelAllJournal(db, cs[..n], now, i);
      var d := CancelAll(db, cs[..n], now);
      CancelAllPlaces(db, cs[..n], now);
      var c := cs[n];
      CancelledFacts(d.rows[c], now);
      RecordsOn(db, d, d.rows[c := CancelledCopy(d.rows[c], now)], d.rows[c].cal, c, Updated, i);
      assert forall x :: x in cs <==> x == c || x in cs[..n];
    }
  }

  // ----- a whole dispatch -----

  /** An uninvited owner sees i, a live copy of m. */
  predicate Stray(rows: Rows, dir: Directory, m: Id, i: Id)
    requires m in rows
  {
    IsStray(rows, dir, m, CurrentEmails(rows[m].attendees, rows[m].body.organizerEmail),
            InternalUsers(dir, rows[m].attendees, rows[m].body.organizerEmail), i)
  }

  /** The collections a dispatch of m serves. */
  function HomesOf(rows: Rows, dir: Directory, m: Id): set<Cal>
    requires m in rows
  {
    Homes(dir, rows[m].attendees, rows[m].body.organizerEmail)
  }

  /** What a dispatch of m makes of an old row. */
  function SentRow(rows: Rows, dir: Directory, m: Id, now: int, i: Id): Row
    requires i in rows && m in rows
  {
    var row := ServedRow(rows, m, HomesOf(rows, dir, m), now, i);
    if Stray(rows, dir, m, i) then CancelledCopy(row, now) else row
  }

  /** i is written and journalled by a dispatch of m. */
  predicate Rewritten(rows: Rows, dir: Directory, m: Id, i: Id)
    requires i in rows && m in rows
  {
    Served(rows, m, HomesOf(rows, dir, m), i) || Stray(rows, dir, m, i)
  }

  lemma StaysStray(rows: Rows, rows2: Rows, dir: Directory, m: Id, now: int, i: Id)
    requires Structure(rows) && IsSubject(rows, m) && rows[m].live && i in rows && i in rows2
    requires m in rows2 && rows2[m] == rows[m] && rows2[i] == ServedRow(rows, m, HomesOf(rows, dir, m), now, i)
    ensures Stray(rows2, dir, m, i) <==> Stray(rows, dir, m, i)
  {
    hide Structure, Recopied, CurrentEmails, InternalUsers, Owners, Uninvited, Homes;
    NoCopyUnderOrigin(rows, m);
    if rows[i].origin.Some? {
      SameRid(rows, rows[i].origin.value, i);
      RecopiedTwice(rows[i], rows[rows[i].origin.value], now);
    }
  }

  /** Every old row after a committed dispatch by the organizer, and whether it is journalled. */
  lemma SentExactly(s: Sched, dir: Directory, m: Id, actor: User, now: int, i: Id)
    requires Wf(s.db) && Structure(s.db.rows) && s.db.clock <= now && Dispatch(s, dir, m, actor, now).Ok?
    requires IsOrganizer(dir, s.db.rows[m], actor) && i in s.db.rows
    ensures IsSubject(s.db.rows, m) && s.db.rows[m].live
    ensures var d := Dispatch(s, dir, m, actor, now).value.db;
            && Wf(d) && Structure(d.rows) && Kept(s.db.rows, d.rows) && d.clock == now
            && i in d.rows && d.rows[i] == SentRow(s.db.rows, dir, m, now, i)
            && Records(s.db, d) && (Mentioned(s.db, d, i) <==> Rewritten(s.db.rows, dir, m, i))
  {
    hide Wf, Structure, Kept, Dispatch, Delivered, Strays, CancelAll, CancelledCopy, ServedRow, Served, Records,
      Mentioned, Homes, IsOrganizer, IsStray, CurrentEmails, InternalUsers, Progress, OriginsKept;
    CommittedDispatch(s, dir, m, actor, now);
    var row := s.db.rows[m];
    var db := s.db.(clock := now);
    LaterKeepsWf(s.db, db);
    var (current, internal) :=
      (CurrentEmails(row.attendees, row.body.organizerEmail),
       InternalUsers(dir, row.attendees, row.body.organizerEmail));
    DeliveredRow(db, dir, m, row.body.organizerEmail, row.attendees, now, i);
    var d := Delivered(db, dir, m, row.body.organizerEmail, row.attendees, now).value;
    var cs := Strays(d.rows, dir, m, current, internal);
    SentSubject(db, d, m);
    StraysAreCopiesOfSubject(d.rows, dir, m, current, internal);
    StraysLive(d.rows, dir, m, current, internal);
    CancelAllRow(d, cs, now, i);
    CancelAllJournal(d, cs, now, i);
    StrayJournal(db, d, m, cs, now, i);
    StaysStray(db.rows, d.rows, dir, m, now, i);
    SameRecords(s.db, db, CancelAll(d, cs, now), i);
  }

  lemma StraysLive(rows: Rows, dir: Directory, m: Id, current: set<string>, internal: set<User>)
    ensures forall c | c in Strays(rows, dir, m, current, internal) :: c in rows && rows[c].live
  {
  }

  lemma SentSubject(db: Db, d: Db, m: Id)
    requires IsSubject(db.rows, m) && OriginsKept(db.rows, d.rows)
    ensures IsSubject(d.rows, m) && d.rows[m] == db.rows[m]
  {
  }

  lemma SameRecords(a: Db, b: Db, c: Db, i: Id)
    requires b == a.(clock := b.clock) && Records(b, c)
    ensures Records(a, c) && (Mentioned(a, c, i) <==> Mentioned(b, c, i))
  {
  }

  lemma StrayJournal(db: Db, d: Db, m: Id, cs: seq<Id>, now: int, i: Id)
    requires Ready(d, m, now) && Distinct(cs) && Kept(db.rows, d.rows)
    requires forall c | c in cs :: c in d.rows && d.rows[c].live && d.rows[c].origin == Some(m)
    requires Records(db, d) && Records(d, CancelAll(d, cs, now))
    requires (Mentioned(d, CancelAll(d, cs, now), i) <==> i in cs)
    ensures var e := CancelAll(d, cs, now);
            && Wf(e) && Structure(e.rows) && Kept(db.rows, e.rows) && e.clock == now
            && Records(db, e) && (Mentioned(db, e, i) <==> Mentioned(db, d, i) || i in cs)
  {
    hide Wf, Structure, Kept, CancelAll, CancelledCopy, Records, Mentioned;
    CancelAllKeeps(d, cs, now);
    var e := CancelAll(d, cs, now);
    CancelledKeepsStructure(d.rows, e.rows, cs, now);
    JoinJournals(db, d, e, i);
    KeptTransitive(db.rows, d.rows, e.rows);
  }

  // ----- new rows -----

  /** The row i is a copy of a series row in one of the collections, where that row had no
    * live copy; it hangs under a master copy unless it is a copy of m itself. */
  predicate NewCopyOf(rows: Rows, m: Id, cals: set<Cal>, row: Row) {
    && row.origin.Some? && InSeries(rows, m, row.origin.value) && row.cal in cals
    && (row.master == None <==> row.origin == Some(m)) && row.href == None && !row.floating
    && forall x | x in rows :: !IsLiveCopy(rows, row.origin.value, row.cal, x)
  }

  /** Every row that d adds to db is such a copy, of this very time, and is journalled. */
  predicate NewCopies(db: Db, d: Db, m: Id, cals: set<Cal>) {
    db.log <= d.log
    && forall i | i in d.rows && i !in db.rows ::
         NewCopyOf(db.rows, m, cals, d.rows[i]) && Mentioned(db, d, i) && d.rows[i].updatedAt == d.clock
  }

  /** Update times change to the present only. */
  predicate Stamped(rows: Rows, rows': Rows, now: int) {
    forall i | i in rows :: i in rows' && (rows'[i].updatedAt == rows[i].updatedAt || rows'[i].updatedAt == now)
  }

  lemma NewCopiesKept(db: Db, d: Db, e: Db, m: Id, cals: set<Cal>)
    requires NewCopies(db, d, m, cals) && Kept(d.rows, e.rows) && d.log <= e.log
    requires e.clock == d.clock && Stamped(d.rows, e.rows, d.clock)
    requires forall i | i in e.rows && i !in d.rows ::
               NewCopyOf(db.rows, m, cals, e.rows[i]) && Mentioned(d, e, i) && e.rows[i].updatedAt == e.clock
    ensures NewCopies(db, e, m, cals)
  {
    hide NewCopyOf, Mentioned;
    forall i | i in e.rows && i !in db.rows
      ensures NewCopyOf(db.rows, m, cals, e.rows[i]) && Mentioned(db, e, i) && e.rows[i].updatedAt == e.clock
    {
      MentionedTransitive(db, d, e, i);
      if i in d.rows {
        SamePlaceNewCopy(db.rows, m, cals, d.rows[i], e.rows[i]);
      }
    }
  }

  lemma SamePlaceNewCopy(rows: Rows, m: Id, cals: set<Cal>, row: Row, row': Row)
    requires NewCopyOf(rows, m, cals, row) && SameIdentity(row, row')
    ensures NewCopyOf(rows, m, cals, row')
  {
  }

  lemma UpsertNew(db: Db, d: Db, m: Id, now: int, r: Id, cal: Cal, master: Option<Id>, cals: set<Cal>)
    requires Ready(db, m, now) && Underway(db.rows, d, m, now) && InSeries(db.rows, m, r)
    requires (master == None <==> r == m)
    requires Deliverable(d.rows, r, cal, master) && UpsertCopy(d, r, cal, master, now).Ok?
    requires NewCopies(db, d, m, cals) && cal in cals
    ensures NewCopies(db, UpsertCopy(d, r, cal, master, now).value.0, m, cals)
  {
    hide Wf, Structure, Ready, Traced, Kept, OriginsKept, UpsertCopy, NewCopy, Recopied, InSeries, NewCopyOf, NewCopies;
    SubjectUnderway(db, d, m, now, r);
    UpsertKeeps(d, r, cal, master, now);
    var c := UpsertWrites(d, r, cal, master, now);
    var e := UpsertCopy(d, r, cal, master, now).value.0;
    UpsertStamps(d, r, cal, master, now, c);
    forall i | i in e.rows && i !in d.rows
      ensures NewCopyOf(db.rows, m, cals, e.rows[i]) && Mentioned(d, e, i) && e.rows[i].updatedAt == e.clock
    {
      NewCopyFacts(d.rows[r], r, cal, master, now);
      NoCopyBefore(db.rows, d, m, now, r, cal);
      CopyPlace(db.rows, m, cals, r, e.rows[i]);
    }
    NewCopiesKept(db, d, e, m, cals);
  }

  lemma UpsertStamps(d: Db, r: Id, cal: Cal, master: Option<Id>, now: int, c: Id)
    requires r in d.rows && d.clock == now && UpsertCopy(d, r, cal, master, now).Ok?
    requires var e := UpsertCopy(d, r, cal, master, now).value.0;
             && c in e.rows && e.rows == d.rows[c := e.rows[c]]
             && e.rows[c] == if c in d.rows then Recopied(d.rows[c], d.rows[r], now)
                 else NewCopy(d.rows[r], r, cal, master, now)
    ensures var e := UpsertCopy(d, r, cal, master, now).value.0;
            e.clock == now && Stamped(d.rows, e.rows, now) && e.rows[c].updatedAt == now
  {
    hide Fits, InsertError;
  }

  lemma CopyPlace(rows: Rows, m: Id, cals: set<Cal>, r: Id, row: Row)
    requires InSeries(rows, m, r) && row.origin == Some(r) && row.cal in cals && (row.master == None <==> r == m)
    requires row.href == None && !row.floating
    requires forall x | x in rows :: !IsLiveCopy(rows, r, row.cal, x)
    ensures NewCopyOf(rows, m, cals, row)
  {
  }

  lemma NoCopyBefore(rows: Rows, d: Db, m: Id, now: int, r: Id, cal: Cal)
    requires Underway(rows, d, m, now) && InSeries(rows, m, r) && r in rows
    requires forall x :: !IsLiveCopy(d.rows, r, cal, x)
    ensures forall x | x in rows :: !IsLiveCopy(rows, r, cal, x)
  {
    hide Wf, Structure, InSeries;
    forall x | x in rows ensures !IsLiveCopy(rows, r, cal, x) {
      assert !IsLiveCopy(d.rows, r, cal, x);
      assert SameIdentity(rows[x], d.rows[x]);
      assert rows[x].origin == Some(r) ==> SeriesCopy(rows, m, rows[x]);
    }
  }

  lemma {:induction false} UpsertAllNew(db: Db, d: Db, m: Id, now: int, os: seq<Id>, cal: Cal, mc: Id, cals: set<Cal>)
    requires Ready(db, m, now) && Underway(db.rows, d, m, now) && MasterCopy(d.rows, m, cal, mc)
    requires OverridesOfSeries(db.rows, m, os) && UpsertAll(d, os, cal, mc, now).Ok?
    requires NewCopies(db, d, m, cals) && cal in cals
    ensures NewCopies(db, UpsertAll(d, os, cal, mc, now).value, m, cals)
    decreases |os|
  {
    hide Ready, Underway, InSeries, UpsertCopy, LiveOverrides, NewCopies;
    if os != [] {
      var n := |os| - 1;
      assert forall o | o in os[..n] :: o in os;
      assert os[n] in os;
      UpsertAllNew(db, d, m, now, os[..n], cal, mc, cals);
      UpsertAllUnderway(db, d, m, now, os[..n], cal, mc);
      var e := UpsertAll(d, os[..n], cal, mc, now).value;
      OverrideDeliverable(db, e, m, now, os[n], cal, mc);
      UpsertNew(db, e, m, now, os[n], cal, Some(mc), cals);
    }
  }

  lemma RebuildNew(db: Db, d: Db, m: Id, now: int, cal: Cal, cals: set<Cal>)
    requires Ready(db, m, now) && Underway(db.rows, d, m, now) && RebuildCopy(d, m, cal, now).Ok?
    requires NewCopies(db, d, m, cals) && cal in cals
    ensures NewCopies(db, RebuildCopy(d, m, cal, now).value, m, cals)
  {
    hide Ready, Underway, UpsertCopy, UpsertAll, LiveOverrides, DropAll, FilledParts, ClearedParts, DeadCopies,
      NewCopies, Kept;
    SubjectUnderway(db, d, m, now, m);
    UpsertUnderway(db, d, m, now, m, cal, None);
    UpsertedElsewhere(db, d, m, now, cal);
    UpsertNew(db, d, m, now, m, cal, None, cals);
    var (d1, copy) := UpsertCopy(d, m, cal, None, now).value;
    SeriesUnderway(db, d1, m, now);
    var os := LiveOverrides(d1.rows, m);
    if os == [] {
      NothingUpserted(d1, cal, copy.value, now);
    } else {
      RebuiltMasterCopy(db, d1, m, now, cal, copy.value);
      UpsertAllUnderway(db, d1, m, now, os, cal, copy.value);
      UpsertAllNew(db, d1, m, now, os, cal, copy.value, cals);
    }
    FinishNew(db, UpsertAll(d1, os, cal, copy.value, now).value, m, now, cal, cals);
  }

  lemma FinishNew(db: Db, d: Db, m: Id, now: int, cal: Cal, cals: set<Cal>)
    requires Ready(db, m, now) && Underway(db.rows, d, m, now) && db.rows[m].cal != cal
    requires NewCopies(db, d, m, cals)
    ensures var d3 := DropAll(d, DeadCopies(d.rows, m));
            var e := d3.(rows := FilledParts(ClearedParts(d3.rows, m, cal), m, cal));
            NewCopies(db, e, m, cals)
  {
    hide Wf, Structure, DropAll, DeadCopies, FilledParts, ClearedParts, Traced, OriginsKept, InSeries, NewCopies,
      NewCopyOf, LiveOrigin, Parts, DeadKept, Kept, SameIdentity;
    MasterInSeries(db.rows, m);
    SubjectUnderway(db, d, m, now, m);
    DropDelivers(d, m, cal);
    DropAllKeeps(d, DeadCopies(d.rows, m));
    var d3 := DropAll(d, DeadCopies(d.rows, m));
    OriginAfter(d, d3, m, cal, m);
    PartsDeliver(d3, m, cal);
    var e := d3.(rows := FilledParts(ClearedParts(d3.rows, m, cal), m, cal));
    SameTimes(d.rows, d3.rows, e.rows, m, cal, now);
    NewCopiesKept(db, d, d3, m, cals);
    NewCopiesKept(db, d3, e, m, cals);
  }

  lemma SameTimes(rows: Rows, rows': Rows, rows'': Rows, m: Id, cal: Cal, now: int)
    requires rows'.Keys == rows.Keys && PartsReplaced(rows', rows'', m, cal)
    requires forall i | i in rows :: rows'[i] == rows[i].(live := rows'[i].live)
    ensures Stamped(rows, rows', now) && Stamped(rows', rows'', now)
  {
  }

  lemma {:induction false} DeliveredNew(db: Db, dir: Directory, m: Id, organizer: string, atts: seq<Attendee>, now: int,
      cals: set<Cal>)
    requires Ready(db, m, now) && Delivered(db, dir, m, organizer, atts, now).Ok? && Homes(dir, atts, organizer) <= cals
    ensures NewCopies(db, Delivered(db, dir, m, organizer, atts, now).value, m, cals)
    decreases |atts|
  {
    hide Ready, Underway, RebuildCopy, RecipientOf, NewCopyOf, Homes;
    OneMoreHome(dir, atts, organizer);
    if atts != [] {
      var n := |atts| - 1;
      DeliveredNew(db, dir, m, organizer, atts[..n], now, cals);
      DeliveryUnderway(db, dir, m, organizer, atts[..n], now);
      var r := RecipientOf(dir, atts[n], organizer);
      if r.Local? {
        RebuildNew(db, Delivered(db, dir, m, organizer, atts[..n], now).value, m, now, r.cal, cals);
      }
    }
  }

  /** The rows a committed dispatch by the organizer adds. */
  lemma SentNew(s: Sched, dir: Directory, m: Id, actor: User, now: int)
    requires Wf(s.db) && Structure(s.db.rows) && s.db.clock <= now && Dispatch(s, dir, m, actor, now).Ok?
    requires IsOrganizer(dir, s.db.rows[m], actor)
    ensures IsSubject(s.db.rows, m) && s.db.rows[m].live
    ensures NewCopies(s.db, Dispatch(s, dir, m, actor, now).value.db, m, HomesOf(s.db.rows, dir, m))
  {
    hide Wf, Structure, Kept, Dispatch, Delivered, Strays, CancelAll, Homes, IsOrganizer, CurrentEmails, InternalUsers,
      Traced, OriginsKept, NewCopies, CancelledExactly;
    CommittedDispatch(s, dir, m, actor, now);
    var row := s.db.rows[m];
    var db := s.db.(clock := now);
    LaterKeepsWf(s.db, db);
    var (current, internal) :=
      (CurrentEmails(row.attendees, row.body.organizerEmail),
       InternalUsers(dir, row.attendees, row.body.organizerEmail));
    DeliveredNew(db, dir, m, row.body.organizerEmail, row.attendees, now, HomesOf(s.db.rows, dir, m));
    DeliveryUnderway(db, dir, m, row.body.organizerEmail, row.attendees, now);
    var d := Delivered(db, dir, m, row.body.organizerEmail, row.attendees, now).value;
    var cs := Strays(d.rows, dir, m, current, internal);
    SentSubject(db, d, m);
    StraysAreCopiesOfSubject(d.rows, dir, m, current, internal);
    CancelAllKeeps(d, cs, now);
    CancelledKeepsStructure(d.rows, CancelAll(d, cs, now).rows, cs, now);
    SameKeysNoNew(d.rows, CancelAll(d, cs, now).rows, cs, now);
    StartedNew(s.db, db, d, m, HomesOf(s.db.rows, dir, m));
    NewCopiesKept(s.db, d, CancelAll(d, cs, now), m, HomesOf(s.db.rows, dir, m));
  }

  lemma StartedNew(a: Db, b: Db, d: Db, m: Id, cals: set<Cal>)
    requires b == a.(clock := b.clock) && NewCopies(b, d, m, cals)
    ensures NewCopies(a, d, m, cals)
  {
    forall i | i in d.rows && i !in a.rows
      ensures NewCopyOf(a.rows, m, cals, d.rows[i]) && Mentioned(a, d, i) && d.rows[i].updatedAt == d.clock
    {
      assert Mentioned(b, d, i);
    }
  }

  lemma SameKeysNoNew(rows: Rows, rows': Rows, cs: seq<Id>, now: int)
    requires CancelledExactly(rows, rows', cs, now)
    ensures rows'.Keys == rows.Keys && Stamped(rows, rows', now)
  {
  }

  // ----- each subject reaches its own copies -----

  /** A dispatch of m, master or override, gives attendees and alarms to the copies of m in
    * the collections it serves and to no other copy. */
  lemma SentParts(s: Sched, dir: Directory, m: Id, actor: User, now: int, c: Id)
    requires Wf(s.db) && Structure(s.db.rows) && s.db.clock <= now && Dispatch(s, dir, m, actor, now).Ok?
    requires IsOrganizer(dir, s.db.rows[m], actor) && c in s.db.rows
    ensures m in s.db.rows
    ensures Parts(Dispatch(s, dir, m, actor, now).value.db.rows, c)
         == Parts(s.db.rows,
                  if s.db.rows[c].origin == Some(m) && s.db.rows[c].cal in HomesOf(s.db.rows, dir, m) then m else c)
  {
    hide Wf, Structure, Kept, Dispatch, Homes, IsOrganizer, Records, Mentioned, Stray, CancelledCopy, Recopied, Served;
    SentExactly(s, dir, m, actor, now, c);
    CancelledFacts(ServedRow(s.db.rows, m, HomesOf(s.db.rows, dir, m), now, c), now);
    if s.db.rows[c].origin.Some? && s.db.rows[c].origin.value in s.db.rows {
      RecopiedTwice(s.db.rows[c], s.db.rows[s.db.rows[c].origin.value], now);
    }
    ServedHasOrigin(s.db.rows, m, HomesOf(s.db.rows, dir, m), c);
  }

  lemma ServedHasOrigin(rows: Rows, m: Id, cals: set<Cal>, c: Id)
    requires c in rows
    ensures Served(rows, m, cals, c) ==> rows[c].origin.Some? && rows[c].origin.value in rows
  {
  }

  /** Calling m off, master or override, cancels among the copies exactly the live copies of
    * m in the local attendees' collections. */
  lemma CopyReachedExactly(rows: Rows, dir: Directory, m: Id, c: Id)
    requires Structure(rows) && IsSubject(rows, m) && c in rows && rows[c].origin.Some?
    ensures Reached(rows, dir, m, rows[m], rows[m].attendees, c)
       <==> rows[c].live && rows[c].origin == Some(m) && rows[c].cal in HomesOf(rows, dir, m)
  {
    hide Structure, RecipientOf;
    NoCopyUnderOrigin(rows, m);
    var (atts, organizer) := (rows[m].attendees, rows[m].body.organizerEmail);
    if rows[c].cal in HomesOf(rows, dir, m) {
      var a :| a in atts && RecipientOf(dir, a, organizer).Local? && RecipientOf(dir, a, organizer).cal == rows[c].cal;
      var k :| 0 <= k < |atts| && atts[k] == a;
    }
  }

  /** The copy of an override takes part only in its own moves: a dispatch or calling off of
    * the master leaves its attendees, alarms and status; one of the override itself fills
    * and cancels it. */
  lemma OverrideNeedsItsOwnMove(s: Sched, dir: Directory, m: Id, o: Id, actor: User, now: int, c: Id)
    requires Wf(s.db) && Structure(s.db.rows) && s.db.clock <= now && IsSubject(s.db.rows, m) && IsSubject(s.db.rows, o)
    requires OverrideOf(s.db.rows[o], m) && c in s.db.rows && s.db.rows[c].live && s.db.rows[c].origin == Some(o)
    requires IsOrganizer(dir, s.db.rows[m], actor) && IsOrganizer(dir, s.db.rows[o], actor)
    ensures Dispatch(s, dir, m, actor, now).Ok? ==>
              Parts(Dispatch(s, dir, m, actor, now).value.db.rows, c) == Parts(s.db.rows, c)
    ensures Dispatch(s, dir, o, actor, now).Ok? && s.db.rows[c].cal in HomesOf(s.db.rows, dir, o) ==>
              Parts(Dispatch(s, dir, o, actor, now).value.db.rows, c) == Parts(s.db.rows, o)
    ensures var d := CancelDispatch(s, dir, m, actor, now).value.db; c in d.rows && d.rows[c] == s.db.rows[c]
    ensures var d := CancelDispatch(s, dir, o, actor, now).value.db;
            c in d.rows && (s.db.rows[c].cal in HomesOf(s.db.rows, dir, o) ==> IsCancelled(s.db.rows[c], d.rows[c]))
  {
    hide Wf, Structure, Dispatch, Homes, IsOrganizer, CalledOff, Parts, Reached, IsCancelled;
    if Dispatch(s, dir, m, actor, now).Ok? {
      SentParts(s, dir, m, actor, now, c);
    }
    if Dispatch(s, dir, o, actor, now).Ok? {
      SentParts(s, dir, o, actor, now, c);
    }
    CopyReachedExactly(s.db.rows, dir, m, c);
    CopyReachedExactly(s.db.rows, dir, o, c);
    var s0 := s.(db := s.db.(clock := now));
    CalledOffExactly(s0, dir, m, s.db.rows[m], s.db.rows[m].attendees, now, c);
    CalledOffExactly(s0, dir, o, s.db.rows[o], s.db.rows[o].attendees, now, c);
    NotItsOwnMaster(s.db, o);
  }

  lemma NotItsOwnMaster(db: Db, o: Id)
    requires Wf(db) && o in db.rows
    ensures !OverrideOf(db.rows[o], o)
  {
    assert RowOk(db, o);
  }
}
