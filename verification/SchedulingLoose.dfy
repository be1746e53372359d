/** What every scheduling move keeps without the copies' structure: the invariant of the
  * events table, tags and sequences. Runs may then hold any edit, the splits and puts that
  * take delivered overrides away from their copies among them. */
module SchedulingLoose {
  import opened Wrappers
  import opened EventRows
  import opened EventSpec
  import opened EventEffects
  import opened EventSplit
  import opened EventPut
  import opened EventRuns
  import opened Scheduling
  import opened SchedulingCopies
  import opened SchedulingMessages
  import opened SchedulingDispatch
  import opened SchedulingRows
  import opened SchedulingEdits
  import opened SchedulingRuns

  /** An origin is a row, and the copy of a master is no override. */
  predicate Linked(rows: Rows) {
    forall c | c in rows && rows[c].origin.Some? ::
      rows[c].origin.value in rows && (rows[rows[c].origin.value].master == None ==> rows[c].master == None)
  }

  // ----- one row across a step -----

  /** The row was written, stamped and journalled, or keeps sequence and time; if it was
    * journalled and keeps them it is gone. */
  predicate Stamps(db: Db, d: Db, now: int, i: Id)
    requires i in db.rows && i in d.rows
  {
    if d.rows[i].updatedAt == now && Mentioned(db, d, i) then true
    else d.rows[i].sequence == db.rows[i].sequence && d.rows[i].updatedAt == db.rows[i].updatedAt
         && (Mentioned(db, d, i) ==> !d.rows[i].live)
  }

  predicate RowTick(db: Db, d: Db, now: int, i: Id)
    requires i in db.rows
  {
    && i in d.rows && SameIdentity(db.rows[i], d.rows[i]) && Stamps(db, d, now, i)
    && (db.rows[i].origin == None ==> db.rows[i].sequence <= d.rows[i].sequence && d.rows[i].uid == db.rows[i].uid)
    && (db.rows[i].origin == None && db.rows[i].master == None ==> d.rows[i] == db.rows[i] && !Mentioned(db, d, i))
  }

  /** A copy, stamped, under a copy if it is an override. */
  predicate Arrived(rows: Rows, now: int, i: Id)
    requires i in rows
  {
    && rows[i].origin.Some? && rows[i].updatedAt == now
    && (rows[i].master.Some? ==> rows[i].master.value in rows && rows[rows[i].master.value].origin.Some?)
  }

  /** What any part of a dispatch or calling off does to the table. */
  predicate Tick(db: Db, d: Db, now: int) {
    && Wf(d) && Linked(d.rows) && d.clock == now && Records(db, d)
    && (forall i | i in db.rows :: RowTick(db, d, now, i))
    && (forall i | i in d.rows && i !in db.rows :: Arrived(d.rows, now, i))
  }

  lemma RowTickTransitive(a: Db, b: Db, c: Db, now: int, i: Id)
    requires i in a.rows && RowTick(a, b, now, i) && RowTick(b, c, now, i) && a.log <= b.log && b.log <= c.log
    ensures RowTick(a, c, now, i)
  {
    hide Mentioned;
    MentionedTransitive(a, b, c, i);
  }

  lemma TickIsKept(db: Db, d: Db, now: int)
    requires Tick(db, d, now)
    ensures Kept(db.rows, d.rows)
  {
    hide Wf, Linked, Stamps, Mentioned, Records;
    forall i | i in db.rows ensures i in d.rows && SameIdentity(db.rows[i], d.rows[i]) {
      assert RowTick(db, d, now, i);
    }
  }

  lemma RecordsExtend(db: Db, d: Db)
    requires Records(db, d)
    ensures db.log <= d.log
  {
  }

  lemma TickTransitive(a: Db, b: Db, c: Db, now: int)
    requires Tick(a, b, now) && Tick(b, c, now)
    ensures Tick(a, c, now)
  {
    hide Wf, Linked, RowTick, Records, Kept;
    TickIsKept(b, c, now);
    RecordsTransitive(a, b, c);
    RecordsExtend(a, b);
    RecordsExtend(b, c);
    forall i | i in a.rows ensures RowTick(a, c, now, i) {
      assert RowTick(a, b, now, i);
      TickedIn(a, b, now, i);
      RowTickTransitive(a, b, c, now, i);
    }
    forall i | i in c.rows && i !in a.rows ensures Arrived(c.rows, now, i) {
      if i in b.rows {
        TickedNew(b, c, now, i);
      }
    }
  }

  lemma TickedIn(db: Db, d: Db, now: int, i: Id)
    requires i in db.rows && RowTick(db, d, now, i)
    ensures i in d.rows
  {
  }

  lemma TickedNew(db: Db, d: Db, now: int, i: Id)
    requires i in db.rows && Arrived(db.rows, now, i) && forall x | x in db.rows :: RowTick(db, d, now, x)
    ensures i in d.rows && Arrived(d.rows, now, i)
  {
    hide Mentioned;
    assert RowTick(db, d, now, i);
    if db.rows[i].master.Some? {
      assert RowTick(db, d, now, db.rows[i].master.value);
    }
  }

  lemma NoTick(db: Db, now: int)
    requires Wf(db) && Linked(db.rows) && db.clock == now
    ensures Tick(db, db, now)
  {
    hide Wf, Linked, Records;
    NothingRecorded(db, db.rows);
    forall i | i in db.rows ensures RowTick(db, db, now, i) {
      SameIdentitySelf(db.rows[i]);
    }
  }

  lemma LinkedKept(rows: Rows, rows': Rows)
    requires Linked(rows) && rows'.Keys == rows.Keys && forall i | i in rows :: SameIdentity(rows[i], rows'[i])
    ensures Linked(rows')
  {
  }

  // ----- upserts -----

  lemma UpsertFits(db: Db, o: Id, cal: Cal, master: Option<Id>, now: int, c: Id)
    requires o in db.rows && db.rows[o].live && UpsertCopy(db, o, cal, master, now).Ok?
    requires UpsertCopy(db, o, cal, master, now).value.1 == Some(c)
    ensures var d := UpsertCopy(db, o, cal, master, now).value.0;
            && Fits(db.rows, c, d.rows[c]) && d.clock == db.clock && d.ctag.Keys == db.ctag.Keys && db.log <= d.log
            && (c !in db.rows ==> d.rows[c].cal in db.ctag)
  {
    hide Fits;
  }

  predicate MasterCopy(rows: Rows, cal: Cal, mc: Id) {
    IsMaster(rows, mc) && rows[mc].cal == cal && rows[mc].origin.Some?
  }

  /** o may be stored in cal under that master. */
  predicate Placeable(rows: Rows, o: Id, cal: Cal, master: Option<Id>) {
    o in rows
    && (master.Some? ==> MasterCopy(rows, cal, master.value) && rows[o].master.Some?)
    && (rows[o].master == None ==> master == None)
  }

  lemma WrittenCopy(db: Db, o: Id, cal: Cal, master: Option<Id>, now: int, c: Id, row: Row)
    requires Wf(db) && Linked(db.rows) && db.clock == now && Placeable(db.rows, o, cal, master) && Fits(db.rows, c, row)
    requires if c in db.rows then IsLiveCopy(db.rows, o, cal, c) && row == Recopied(db.rows[c], db.rows[o], now)
             else row == NewCopy(db.rows[o], o, cal, master, now) && cal in db.ctag
    ensures Writable(db, c, row, now) && Linked(db.rows[c := row]) && row.updatedAt == now && row.origin == Some(o)
    ensures if c in db.rows then SameIdentity(db.rows[c], row) else Arrived(db.rows[c := row], now, c)
  {
    hide Unique, Fits;
    assert RowOk(db, o);
    if c in db.rows {
      assert RowOk(db, c);
    }
  }

  lemma WroteTick(db: Db, d: Db, now: int, c: Id)
    requires Wf(d) && Linked(d.rows) && d.clock == now && Records(db, d)
    requires c in d.rows && d.rows == db.rows[c := d.rows[c]] && d.rows[c].updatedAt == now && d.rows[c].origin.Some?
    requires if c in db.rows then SameIdentity(db.rows[c], d.rows[c]) else Arrived(d.rows, now, c)
    requires forall i :: Mentioned(db, d, i) <==> i == c
    ensures Tick(db, d, now)
  {
    hide Wf, Linked, Mentioned, Records;
    forall i | i in db.rows ensures RowTick(db, d, now, i) {
      SameIdentitySelf(db.rows[i]);
    }
  }

  lemma UpsertTick(db: Db, o: Id, cal: Cal, master: Option<Id>, now: int)
    requires Wf(db) && Linked(db.rows) && db.clock == now && Placeable(db.rows, o, cal, master)
    requires UpsertCopy(db, o, cal, master, now).Ok?
    ensures var (d, copy) := UpsertCopy(db, o, cal, master, now).value;
            Tick(db, d, now) && (copy.Some? ==> IsLiveCopy(d.rows, o, cal, copy.value))
  {
    hide Wf, Linked, Tick, UpsertCopy, Placeable, Writable, Recopied, NewCopy, Mentioned, Fits, Records;
    if o in db.rows && db.rows[o].live {
      var c := UpsertWrites(db, o, cal, master, now);
      UpsertFits(db, o, cal, master, now, c);
      var d := UpsertCopy(db, o, cal, master, now).value.0;
      WrittenCopy(db, o, cal, master, now, c, d.rows[c]);
      WriteKeepsWf(db, c, d.rows[c]);
      LaterKeepsWf(db.(rows := d.rows), d);
      WroteTick(db, d, now, c);
      UpsertedLive(db, o, cal, master, now);
    } else {
      NoTick(db, now);
      UpsertOfDead(db, o, cal, master, now);
    }
  }

  lemma UpsertedLive(db: Db, o: Id, cal: Cal, master: Option<Id>, now: int)
    requires o in db.rows && db.rows[o].live && UpsertCopy(db, o, cal, master, now).Ok?
    ensures var (d, copy) := UpsertCopy(db, o, cal, master, now).value;
            copy.Some? && IsLiveCopy(d.rows, o, cal, copy.value)
  {
    hide Fits, InsertError;
  }

  lemma UpsertOfDead(db: Db, o: Id, cal: Cal, master: Option<Id>, now: int)
    requires !(o in db.rows && db.rows[o].live) && UpsertCopy(db, o, cal, master, now).Ok?
    ensures var (d, copy) := UpsertCopy(db, o, cal, master, now).value;
            d == db && (copy.Some? ==> IsLiveCopy(d.rows, o, cal, copy.value))
  {
  }

  /** mc is a copy in cal, and the rows to hang under it are overrides. */
  predicate UnderMaster(rows: Rows, os: seq<Id>, cal: Cal, mc: Id) {
    && (forall o | o in os :: o in rows && rows[o].master.Some?)
    && (os != [] ==> MasterCopy(rows, cal, mc))
  }

  lemma UnderMasterKept(db: Db, d: Db, now: int, os: seq<Id>, cal: Cal, mc: Id)
    requires Tick(db, d, now) && UnderMaster(db.rows, os, cal, mc)
    ensures UnderMaster(d.rows, os, cal, mc)
  {
    hide Wf, Linked, Stamps, Mentioned, Records;
    forall i | i in db.rows
      ensures i in d.rows && SameIdentity(db.rows[i], d.rows[i])
    {
      assert RowTick(db, d, now, i);
    }
  }

  lemma TickKeeps(db: Db, d: Db, now: int)
    requires Tick(db, d, now)
    ensures Wf(d) && Linked(d.rows) && d.clock == now && Records(db, d) && db.log <= d.log
  {
  }

  lemma {:induction false} UpsertAllTick(db: Db, os: seq<Id>, cal: Cal, mc: Id, now: int)
    requires Wf(db) && Linked(db.rows) && db.clock == now && UnderMaster(db.rows, os, cal, mc)
    requires UpsertAll(db, os, cal, mc, now).Ok?
    ensures Tick(db, UpsertAll(db, os, cal, mc, now).value, now)
    decreases |os|
  {
    hide Wf, Linked, Tick, UpsertCopy;
    if os == [] {
      NoTick(db, now);
    } else {
      var n := |os| - 1;
      assert os[n] in os && forall o | o in os[..n] :: o in os;
      UpsertAllTick(db, os[..n], cal, mc, now);
      var d := UpsertAll(db, os[..n], cal, mc, now).value;
      TickKeeps(db, d, now);
      UnderMasterKept(db, d, now, os, cal, mc);
      UpsertTick(d, os[n], cal, Some(mc), now);
      TickTransitive(db, d, UpsertAll(db, os, cal, mc, now).value, now);
    }
  }

  // ----- drops, parts, cancellations -----

  lemma DroppedRecords(db: Db, cs: seq<Id>)
    requires forall c | c in cs :: c in db.rows
    ensures Records(db, DropAll(db, cs))
  {
    hide Records, Mentioned;
    if cs == [] {
      NothingRecorded(db, db.rows);
    } else {
      DropAllRow(db, cs, cs[0]);
    }
  }

  lemma DropTick(db: Db, m: Id, now: int)
    requires Wf(db) && Linked(db.rows) && db.clock == now
    ensures Tick(db, DropAll(db, DeadCopies(db.rows, m)), now)
  {
    hide Wf, Linked, Mentioned, DropAll, Records;
    var cs := DeadCopies(db.rows, m);
    var d := DropAll(db, cs);
    DropAllKeeps(db, cs);
    DroppedRecords(db, cs);
    forall i | i in db.rows ensures RowTick(db, d, now, i) && SameIdentity(db.rows[i], d.rows[i]) {
      DropAllRow(db, cs, i);
      SameIdentitySelf(db.rows[i]);
    }
    LinkedKept(db.rows, d.rows);
  }

  /** Equal but for attendees and alarms, and equal altogether for rows that are neither
    * copies nor overrides. */
  predicate SameButParts(row: Row, row': Row) {
    && row' == row.(attendees := row'.attendees, alarms := row'.alarms)
    && (row.origin == None && row.master == None ==> row' == row)
  }

  lemma PartsTick(db: Db, m: Id, cal: Cal, now: int)
    requires Wf(db) && Linked(db.rows) && db.clock == now
    ensures Tick(db, db.(rows := FilledParts(ClearedParts(db.rows, m, cal), m, cal)), now)
  {
    hide Wf, Linked, Mentioned, FilledParts, ClearedParts, Records;
    var rows := FilledParts(ClearedParts(db.rows, m, cal), m, cal);
    var d := db.(rows := rows);
    PartsRows(db.rows, m, cal);
    AlikeKeepsWf(db, rows);
    NothingRecorded(db, rows);
    forall i | i in db.rows ensures RowTick(db, d, now, i) && SameIdentity(db.rows[i], d.rows[i]) {
      SameIdentitySelf(db.rows[i]);
    }
    LinkedKept(db.rows, rows);
  }

  lemma PartsRows(rows: Rows, m: Id, cal: Cal)
    ensures var rows' := FilledParts(ClearedParts(rows, m, cal), m, cal);
            rows'.Keys == rows.Keys && forall i | i in rows :: SameButParts(rows[i], rows'[i])
  {
  }

  /** Copies and overrides, all live. */
  predicate Cancellable(rows: Rows, cs: seq<Id>) {
    Distinct(cs) && forall c | c in cs :: c in rows && rows[c].live && (rows[c].origin.Some? || rows[c].master.Some?)
  }

  lemma CancelTick(db: Db, cs: seq<Id>, now: int)
    requires Wf(db) && Linked(db.rows) && db.clock == now && Cancellable(db.rows, cs)
    ensures Tick(db, CancelAll(db, cs, now), now)
  {
    hide Wf, Linked, Mentioned, CancelAll, Records, CancelledCopy;
    var d := CancelAll(db, cs, now);
    CancelAllKeeps(db, cs, now);
    CancelAllJournal(db, cs, now, 0);
    forall i | i in db.rows ensures RowTick(db, d, now, i) && SameIdentity(db.rows[i], d.rows[i]) {
      CancelAllJournal(db, cs, now, i);
      CancelledFacts(db.rows[i], now);
      SameIdentitySelf(db.rows[i]);
    }
    LinkedKept(db.rows, d.rows);
  }

  // ----- rebuilds and dispatches -----

  lemma SeriesUnderMaster(db: Db, m: Id, cal: Cal, mc: Id)
    requires Wf(db) && Linked(db.rows) && IsLiveCopy(db.rows, m, cal, mc)
    ensures UnderMaster(db.rows, LiveOverrides(db.rows, m), cal, mc)
  {
    hide Unique;
    var os := LiveOverrides(db.rows, m);
    forall o | o in os ensures o in db.rows && db.rows[o].master == Some(m) && db.rows[m].master == None {
      assert RowOk(db, o);
    }
    if os != [] {
      assert os[0] in os;
    }
  }

  lemma RebuildTick(db: Db, m: Id, cal: Cal, now: int)
    requires Wf(db) && Linked(db.rows) && db.clock == now && m in db.rows && RebuildCopy(db, m, cal, now).Ok?
    ensures Tick(db, RebuildCopy(db, m, cal, now).value, now)
  {
    hide Wf, Linked, Tick, UpsertCopy, UpsertAll, LiveOverrides, DropAll, DeadCopies, UnderMaster;
    hide FilledParts, ClearedParts, Records;
    UpsertTick(db, m, cal, None, now);
    var (d1, copy) := UpsertCopy(db, m, cal, None, now).value;
    TickKeeps(db, d1, now);
    if copy.Some? {
      var mc := copy.value;
      SeriesUnderMaster(d1, m, cal, mc);
      UpsertAllTick(d1, LiveOverrides(d1.rows, m), cal, mc, now);
      var d2 := UpsertAll(d1, LiveOverrides(d1.rows, m), cal, mc, now).value;
      TickKeeps(d1, d2, now);
      DropTick(d2, m, now);
      var d3 := DropAll(d2, DeadCopies(d2.rows, m));
      TickKeeps(d2, d3, now);
      PartsTick(d3, m, cal, now);
      TickTransitive(db, d1, d2, now);
      TickTransitive(db, d2, d3, now);
      TickTransitive(db, d3, RebuildCopy(db, m, cal, now).value, now);
    }
  }

  lemma {:induction false} DeliveredTick(db: Db, dir: Directory, m: Id, organizer: string, atts: seq<Attendee>,
      now: int)
    requires Wf(db) && Linked(db.rows) && db.clock == now && m in db.rows
    requires Delivered(db, dir, m, organizer, atts, now).Ok?
    ensures Tick(db, Delivered(db, dir, m, organizer, atts, now).value, now)
    decreases |atts|
  {
    hide Wf, Linked, Tick, RebuildCopy, RecipientOf;
    if atts == [] {
      NoTick(db, now);
    } else {
      var n := |atts| - 1;
      DeliveredTick(db, dir, m, organizer, atts[..n], now);
      var d := Delivered(db, dir, m, organizer, atts[..n], now).value;
      TickKeeps(db, d, now);
      TickKeepsRow(db, d, now, m);
      var r := RecipientOf(dir, atts[n], organizer);
      if r.Local? {
        RebuildTick(d, m, r.cal, now);
        TickTransitive(db, d, RebuildCopy(d, m, r.cal, now).value, now);
      }
    }
  }

  lemma TickKeepsRow(db: Db, d: Db, now: int, i: Id)
    requires Tick(db, d, now) && i in db.rows
    ensures i in d.rows && SameIdentity(db.rows[i], d.rows[i])
  {
    assert RowTick(db, d, now, i);
  }

  lemma StraysCancellable(rows: Rows, dir: Directory, m: Id, current: set<string>, internal: set<User>)
    ensures Cancellable(rows, Strays(rows, dir, m, current, internal))
  {
  }

  lemma CopiesInCancellable(rows: Rows, m: Id, cal: Cal)
    ensures Cancellable(rows, CopiesIn(rows, m, cal))
  {
  }

  /** A dispatch by the organizer, whatever the copies look like. */
  lemma DispatchTick(s: Sched, dir: Directory, m: Id, actor: User, now: int)
    requires Wf(s.db) && Linked(s.db.rows) && s.db.clock <= now && Dispatch(s, dir, m, actor, now).Ok?
    ensures var t := Dispatch(s, dir, m, actor, now).value;
            t == s || Tick(s.db.(clock := now), t.db, now)
  {
    hide Wf, Linked, Tick, Dispatch, Delivered, Strays, CancelAll, Cancellable, IsOrganizer, Records;
    hide CurrentEmails, InternalUsers;
    CommittedDispatch(s, dir, m, actor, now);
    var row := s.db.rows[m];
    if IsOrganizer(dir, row, actor) {
      var db := s.db.(clock := now);
      LaterKeepsWf(s.db, db);
      DeliveredTick(db, dir, m, row.body.organizerEmail, row.attendees, now);
      var d := Delivered(db, dir, m, row.body.organizerEmail, row.attendees, now).value;
      TickKeeps(db, d, now);
      var current := CurrentEmails(row.attendees, row.body.organizerEmail);
      var internal := InternalUsers(dir, row.attendees, row.body.organizerEmail);
      StraysCancellable(d.rows, dir, m, current, internal);
      CancelTick(d, Strays(d.rows, dir, m, current, internal), now);
      TickTransitive(db, d, CancelAll(d, Strays(d.rows, dir, m, current, internal), now), now);
    }
  }

  lemma {:induction false} CalledOffTick(s: Sched, dir: Directory, m: Id, row: Row, atts: seq<Attendee>, now: int)
    requires Wf(s.db) && Linked(s.db.rows) && s.db.clock == now
    ensures var t := CalledOff(s, dir, m, row, atts, now);
            && Tick(s.db, t.db, now) && Adds(s.messages, t.messages, m, row.sequence)
            && (RequestsRise(s.messages) ==> RequestsRise(t.messages))
    decreases |atts|
  {
    hide Wf, Linked, Tick, RecipientOf, CancelAll, CopiesIn, Cancellable, RequestsRise, Queued;
    if atts == [] {
      NoTick(s.db, now);
    } else {
      var n := |atts| - 1;
      CalledOffTick(s, dir, m, row, atts[..n], now);
      var t := CalledOff(s, dir, m, row, atts[..n], now);
      TickKeeps(s.db, t.db, now);
      var r := RecipientOf(dir, atts[n], row.body.organizerEmail);
      if r.Local? {
        CopiesInCancellable(t.db.rows, m, r.cal);
        CancelTick(t.db, CopiesIn(t.db.rows, m, r.cal), now);
        TickTransitive(s.db, t.db, CancelAll(t.db, CopiesIn(t.db.rows, m, r.cal), now), now);
      }
      QueuedCancel(t.messages, m, r, row.sequence);
    }
  }

  // ----- replies and declines -----

  /** The same rows, in their places and at their sequences. */
  predicate InPlace(rows: Rows, rows': Rows) {
    && rows'.Keys == rows.Keys
    && forall i | i in rows :: SameIdentity(rows[i], rows'[i]) && rows'[i].sequence == rows[i].sequence
  }

  /** A reply rewrites rows in their place. */
  lemma ReplyLoose(db: Db, m: Id, email: string, partstat: string, now: int)
    requires Wf(db) && db.clock <= now && Reply(db, m, email, partstat, now).Ok?
    ensures var d := Reply(db, m, email, partstat, now).value;
            Wf(d) && d.clock == now && db.log <= d.log && InPlace(db.rows, d.rows)
  {
    hide Wf, Answered, Touched, RepliedRow, Reply;
    ReplyExactly(db, m, email, partstat, now);
    var d := Reply(db, m, email, partstat, now).value;
    ReplyKeepsWf(db, m, email, partstat, now);
    forall i | i in db.rows ensures SameIdentity(db.rows[i], d.rows[i]) && d.rows[i].sequence == db.rows[i].sequence {
      RepliedInPlace(db.rows[i], email, partstat, now);
    }
  }

  lemma RepliedInPlace(row: Row, email: string, partstat: string, now: int)
    ensures SameIdentity(row, row) && SameIdentity(row, Touched(row, now)) && Touched(row, now).sequence == row.sequence
    ensures SameIdentity(row, RepliedRow(row, email, partstat, now))
    ensures RepliedRow(row, email, partstat, now).sequence == row.sequence
  {
  }

  /** So does a decline, which deletes its copy in place. */
  lemma DeclineLoose(db: Db, dir: Directory, c: Id, actor: User, now: int)
    requires Wf(db) && db.clock <= now && Decline(db, dir, c, actor, now).Ok?
    ensures var d := Decline(db, dir, c, actor, now).value;
            Wf(d) && db.clock <= d.clock <= now && db.log <= d.log && InPlace(db.rows, d.rows)
  {
    hide Wf, Reply, EmailFor, Owners;
    forall i | i in db.rows ensures SameIdentity(db.rows[i], db.rows[i]) {
      SameIdentitySelf(db.rows[i]);
    }
    if c in db.rows && db.rows[c].live && db.rows[c].origin.Some? {
      var o := db.rows[c].origin.value;
      var email := if o in db.rows then EmailFor(dir, db.rows[o].attendees, actor) else None;
      if email.Some? && Reply(db, o, email.value, "DECLINED", now).Ok? {
        ReplyLoose(db, o, email.value, "DECLINED", now);
        BuryKeepsWf(Reply(db, o, email.value, "DECLINED", now).value, c, now);
      } else {
        BuryKeepsWf(db, c, now);
      }
    }
  }

  // ----- edits -----

  lemma CreateLinked(db: Db, cal: Cal, id: Id, data: NewEvent, now: int)
    requires Linked(db.rows) && CreateTx(db, cal, id, data, now).Ok?
    ensures Linked(CreateTx(db, cal, id, data, now).value.rows)
  {
    hide Fits;
  }

  lemma UpdateLinked(db: Db, id: Id, ifMatch: Option<Etag>, p: Patch, now: int)
    requires Linked(db.rows) && UpdateTx(db, id, ifMatch, p, now).Ok?
    ensures Linked(UpdateTx(db, id, ifMatch, p, now).value.rows)
  {
  }

  lemma DeleteLinked(db: Db, id: Id, ifMatch: Option<Etag>, now: int)
    requires Linked(db.rows) && DeleteTx(db, id, ifMatch, now).Ok?
    ensures Linked(DeleteTx(db, id, ifMatch, now).value.rows)
  {
  }

  lemma SplitLinked(db: Db, m: Id, s: SeriesSplit, c: Id, now: int)
    requires Wf(db) && Linked(db.rows) && SplitTx(db, m, s, c, now).Ok?
    requires s.continuation.Some? ==> s.continuation.value.master == None
    ensures Linked(SplitTx(db, m, s, c, now).value.rows)
  {
    hide Wf, SplitTx;
    SplitRows(db, SplitTx(db, m, s, c, now).value, m, s, c, now);
  }

  lemma PutLinked(db: Db, p: Put, now: int)
    requires Wf(db) && Linked(db.rows) && WellFormedPut(p) && PutTx(db, p, now).Ok?
    ensures Linked(PutTx(db, p, now).value.0.rows)
  {
    hide Wf, PutTx, Unique, PutMaster, OriginLeft;
    PutStores(db, p, now);
    PutOrigins(db, p, now);
    var (d, m, _) := PutTx(db, p, now).value;
    forall x | x in d.rows && d.rows[x].origin.Some?
      ensures d.rows[x].origin.value in d.rows
           && (d.rows[d.rows[x].origin.value].master == None ==> d.rows[x].master == None)
    {
      PutCopyBefore(db, d, p, m, now, x);
      OriginIsLeft(db.rows, m, x);
      PutKeepsRow(db, d, p, m, now, db.rows[x].origin.value);
    }
  }

  lemma OriginIsLeft(rows: Rows, m: Id, x: Id)
    requires Linked(rows) && x in rows && OriginLeft(rows, m, x).Some?
    ensures rows[x].origin.Some? && rows[x].origin.value in rows && !OverrideOf(rows[rows[x].origin.value], m)
  {
  }

  lemma EditLinked(db: Db, op: Op, now: int)
    requires Wf(db) && Linked(db.rows) && WellFormed(db, op)
    ensures Linked(After(db, op, now).rows)
  {
    hide Wf, Linked, CreateTx, UpdateTx, DeleteTx, SplitTx, PutTx, GoodMaster, WellFormedPut;
    if After(db, op, now) != db {
      match op
      case Create(cal, id, data) => CreateLinked(db, cal, id, data, now);
      case Update(id, ifMatch, patch) => UpdateLinked(db, id, ifMatch, patch, now);
      case Delete(id, ifMatch) => DeleteLinked(db, id, ifMatch, now);
      case Split(id, s, c) => SplitLinked(db, id, s, c, now);
      case PutSeries(p) => PutLinked(db, p, now);
    }
  }

  // ----- one move -----

  /** What holds whatever was split or put: the events table, the links and the message log. */
  ghost predicate LooseInv(s: Sched) {
    Wf(s.db) && Linked(s.db.rows) && RequestsRise(s.messages) && MessagesBound(s.db.rows, s.messages)
  }

  lemma InvIsLoose(s: Sched)
    requires Inv(s)
    ensures LooseInv(s)
  {
    hide Wf, OneLive;
    forall c | c in s.db.rows && s.db.rows[c].origin.Some?
      ensures s.db.rows[c].origin.value in s.db.rows
           && (s.db.rows[s.db.rows[c].origin.value].master == None ==> s.db.rows[c].master == None)
    {
      assert CopyOk(s.db.rows, c);
    }
  }

  lemma TickSequences(db: Db, d: Db, now: int)
    requires Tick(db, d, now)
    ensures SequencesRise(db.rows, d.rows, {})
  {
    hide Wf, Linked, Mentioned, Records;
    forall i | IsSubject(db.rows, i) ensures IsSubject(d.rows, i) && db.rows[i].sequence <= d.rows[i].sequence {
      assert RowTick(db, d, now, i);
    }
  }

  lemma InPlaceSequences(rows: Rows, rows': Rows)
    requires InPlace(rows, rows')
    ensures SequencesRise(rows, rows', {}) && (Linked(rows) ==> Linked(rows'))
  {
  }

  lemma SendLoose(s: Sched, dir: Directory, m: Id, actor: User, now: int)
    requires LooseInv(s) && s.db.clock <= now && Dispatch(s, dir, m, actor, now).Ok?
    ensures LooseInv(Dispatch(s, dir, m, actor, now).value)
  {
    hide Wf, Linked, Tick, Dispatch, Outbox, RequestsRise, IsOrganizer;
    var t := Dispatch(s, dir, m, actor, now).value;
    DispatchTick(s, dir, m, actor, now);
    CommittedDispatch(s, dir, m, actor, now);
    if t != s {
      TickKeeps(s.db.(clock := now), t.db, now);
      TickSequences(s.db.(clock := now), t.db, now);
      OutboxAdds(s.messages, dir, m, s.db.rows[m]);
      AddedBound(s, t, m, s.db.rows[m].sequence);
    }
  }

  lemma CallOffLoose(s: Sched, dir: Directory, m: Id, actor: User, now: int)
    requires LooseInv(s) && s.db.clock <= now && CancelDispatch(s, dir, m, actor, now).Ok?
    ensures LooseInv(CancelDispatch(s, dir, m, actor, now).value)
  {
    hide Wf, Linked, Tick, CalledOff, RequestsRise, IsOrganizer;
    var t := CancelDispatch(s, dir, m, actor, now).value;
    if IsOrganizer(dir, s.db.rows[m], actor) {
      var db := s.db.(clock := now);
      LaterKeepsWf(s.db, db);
      CalledOffTick(s.(db := db), dir, m, s.db.rows[m], s.db.rows[m].attendees, now);
      TickKeeps(db, t.db, now);
      TickSequences(db, t.db, now);
      AddedBound(s, t, m, s.db.rows[m].sequence);
    }
  }

  /** Every possible move keeps it. */
  lemma NextLoose(s: Sched, dir: Directory, move: Move, now: int)
    requires LooseInv(s) && Possible(s, move, now)
    ensures LooseInv(Next(s, dir, move, now))
  {
    hide Wf, Linked, RequestsRise, Dispatch, CancelDispatch, Reply, Decline, WellFormed, After, Gone, SameIdentity,
      MessagesBound;
    match move
    case Send(m, actor) => if Dispatch(s, dir, m, actor, now).Ok? { SendLoose(s, dir, m, actor, now); }
    case CallOff(m, actor) => if CancelDispatch(s, dir, m, actor, now).Ok? { CallOffLoose(s, dir, m, actor, now); }
    case Answer(m, email, partstat) =>
      if Reply(s.db, m, email, partstat, now).Ok? {
        ReplyLoose(s.db, m, email, partstat, now);
        InPlaceSequences(s.db.rows, Next(s, dir, move, now).db.rows);
        AddedBound(s, Next(s, dir, move, now), m, 0);
      }
    case Refuse(c, actor) =>
      if Decline(s.db, dir, c, actor, now).Ok? {
        DeclineLoose(s.db, dir, c, actor, now);
        InPlaceSequences(s.db.rows, Next(s, dir, move, now).db.rows);
        AddedBound(s, Next(s, dir, move, now), c, 0);
      }
    case Edit(op) =>
      var touched := StepEffect(s.db, op, now);
      EditLinked(s.db, op, now);
      EditSequences(s.db, op, now);
      SurvivingFacts(s.messages, Gone(s.db, op, now));
      BoundAfter(s.db.rows, After(s.db, op, now).rows, s.messages, Surviving(s.messages, Gone(s.db, op, now)),
                 Gone(s.db, op, now));
  }
}
