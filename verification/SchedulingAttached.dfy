/** When the copies of overrides hang under the copy of their master: what a dispatch of one
  * override does to that, move by move and over runs. */
module SchedulingAttached {
  import opened Wrappers
  import opened EventRows
  import opened EventSpec
  import opened EventEffects
  import opened EventSplit
  import opened EventPut
  import opened EventRuns
  import opened Scheduling
  import opened SchedulingCopies
  import opened SchedulingMessages
  import opened SchedulingDispatch
  import opened SchedulingCommits
  import opened SchedulingRows
  import opened SchedulingEdits
  import opened SchedulingRuns
  import opened SchedulingTheorems

  /** The copy of an override hangs under the copy of that override's master. */
  predicate Hangs(rows: Rows, c: Id)
    requires c in rows && rows[c].origin.Some?
  {
    var o := rows[c].origin.value;
    && o in rows
    && (rows[o].master.Some? ==>
          && rows[c].master.Some? && rows[c].master.value in rows
          && rows[rows[c].master.value].origin == rows[o].master)
  }

  predicate Attached(rows: Rows) { forall c | c in rows && rows[c].origin.Some? :: Hangs(rows, c) }

  /** Delivering an override on its own inserts its copy without a master. */
  lemma DetachedCopy(db: Db, o: Id, cal: Cal, now: int)
    requires Wf(db) && Structure(db.rows) && db.clock == now && IsSubject(db.rows, o) && db.rows[o].live
    requires db.rows[o].master.Some? && UpsertCopy(db, o, cal, None, now).Ok?
    requires forall c :: !IsLiveCopy(db.rows, o, cal, c)
    ensures var d := UpsertCopy(db, o, cal, None, now).value.0; Structure(d.rows) && !Attached(d.rows)
  {
    hide Wf, Structure, UpsertCopy, NewCopy;
    UpsertKeeps(db, o, cal, None, now);
    var c := UpsertWrites(db, o, cal, None, now);
    NewCopyFacts(db.rows[o], o, cal, None, now);
    var d := UpsertCopy(db, o, cal, None, now).value.0;
    assert c !in db.rows && d.rows[o] == db.rows[o];
    assert !Hangs(d.rows, c);
  }

  /** The move is a committed dispatch, by the organizer, of an override that has no live
    * copy yet in some local attendee's collection. */
  ghost predicate Detaches(s: Sched, dir: Directory, move: Move, now: int) {
    && move.Send? && Dispatch(s, dir, move.subject, move.actor, now).Ok?
    && move.subject in s.db.rows && s.db.rows[move.subject].master.Some?
    && IsOrganizer(dir, s.db.rows[move.subject], move.actor)
    && exists cal :: cal in HomesOf(s.db.rows, dir, move.subject) && NoLiveCopy(s.db.rows, move.subject, cal)
  }

  predicate NoLiveCopy(rows: Rows, o: Id, cal: Cal) { forall c | c in rows :: !IsLiveCopy(rows, o, cal, c) }

  // ----- rows that keep their place -----

  /** Old rows keep their links, and new rows are no copies. */
  predicate SameLinks(rows: Rows, rows': Rows) {
    && (forall i | i in rows :: i in rows' && rows'[i].origin == rows[i].origin && rows'[i].master == rows[i].master)
    && (forall i | i in rows' && i !in rows :: rows'[i].origin == None)
  }

  lemma SameLinksAttached(rows: Rows, rows': Rows)
    requires Attached(rows) && SameLinks(rows, rows')
    ensures Attached(rows')
  {
    forall c | c in rows' && rows'[c].origin.Some? ensures Hangs(rows', c) {
      assert Hangs(rows, c);
    }
  }

  lemma KeptLinks(rows: Rows, rows': Rows)
    requires Kept(rows, rows') && rows'.Keys == rows.Keys
    ensures SameLinks(rows, rows')
  {
    forall i | i in rows ensures i in rows' && rows'[i].origin == rows[i].origin && rows'[i].master == rows[i].master {
      KeptRow(rows, rows', i);
    }
  }

  // ----- dispatches -----

  lemma SentAttached(s: Sched, dir: Directory, m: Id, actor: User, now: int)
    requires Wf(s.db) && Structure(s.db.rows) && s.db.clock <= now && Dispatch(s, dir, m, actor, now).Ok?
    requires IsOrganizer(dir, s.db.rows[m], actor) && Attached(s.db.rows)
    ensures Attached(Dispatch(s, dir, m, actor, now).value.db.rows) <==> !Detaches(s, dir, Send(m, actor), now)
  {
    hide Wf, Structure, Dispatch, Kept, Progress, Homes, IsOrganizer, NewCopyOf, Hangs, Mentioned, OriginsKept,
      DeadKept,
      Parts;
    var d := Dispatch(s, dir, m, actor, now).value.db;
    DispatchKeeps(s, dir, m, actor, now);
    SentNew(s, dir, m, actor, now);
    SentExactly(s, dir, m, actor, now, m);
    if Detaches(s, dir, Send(m, actor), now) {
      var cal :| cal in HomesOf(s.db.rows, dir, m) && NoLiveCopy(s.db.rows, m, cal);
      SentDetaches(s, dir, m, actor, now, cal);
    } else {
      forall c | c in d.rows && d.rows[c].origin.Some? ensures Hangs(d.rows, c) {
        if c in s.db.rows {
          KeptHangs(s.db.rows, d.rows, c);
        } else {
          NewHangs(s.db.rows, d.rows, dir, m, c);
        }
      }
    }
  }

  lemma KeptHangs(rows: Rows, rows': Rows, c: Id)
    requires Kept(rows, rows') && Attached(rows) && c in rows && c in rows' && rows'[c].origin.Some?
    ensures Hangs(rows', c)
  {
    assert SameIdentity(rows[c], rows'[c]);
    assert Hangs(rows, c);
  }

  lemma NewHangs(rows: Rows, rows': Rows, dir: Directory, m: Id, c: Id)
    requires Structure(rows') && Kept(rows, rows') && m in rows && c in rows'
    requires NewCopyOf(rows, m, HomesOf(rows, dir, m), rows'[c])
    requires rows[m].master.Some? ==> forall cal | cal in HomesOf(rows, dir, m) :: !NoLiveCopy(rows, m, cal)
    ensures Hangs(rows', c)
  {
    hide Homes, InSeries;
    assert CopyOk(rows', c);
    if rows'[c].origin == Some(m) {
      assert NoLiveCopy(rows, m, rows'[c].cal);
      KeptRow(rows, rows', m);
    }
  }

  lemma SentDetaches(s: Sched, dir: Directory, m: Id, actor: User, now: int, cal: Cal)
    requires Wf(s.db) && Structure(s.db.rows) && s.db.clock <= now && Dispatch(s, dir, m, actor, now).Ok?
    requires IsOrganizer(dir, s.db.rows[m], actor) && s.db.rows[m].master.Some?
    requires cal in HomesOf(s.db.rows, dir, m) && NoLiveCopy(s.db.rows, m, cal)
    ensures !Attached(Dispatch(s, dir, m, actor, now).value.db.rows)
  {
    hide Wf, Structure, Dispatch, IsOrganizer, RecipientOf, Mentioned, AllOwnersInvited, LiveOverrides, Mirrors;
    CommittedSend(s, dir, m, actor, now);
    var organizer := s.db.rows[m].body.organizerEmail;
    var a :| a in s.db.rows[m].attendees && RecipientOf(dir, a, organizer).Local?
      && RecipientOf(dir, a, organizer).cal == cal;
    var c := DispatchMirrors(s, dir, m, actor, now, a);
    SentNew(s, dir, m, actor, now);
    SentExactly(s, dir, m, actor, now, m);
    var d := Dispatch(s, dir, m, actor, now).value.db;
    WasLiveCopy(s.db.rows, d.rows, m, cal, c);
    assert NewCopyOf(s.db.rows, m, HomesOf(s.db.rows, dir, m), d.rows[c]);
    assert !Hangs(d.rows, c);
  }

  lemma WasLiveCopy(rows: Rows, rows': Rows, o: Id, cal: Cal, c: Id)
    requires Kept(rows, rows') && IsLiveCopy(rows', o, cal, c)
    ensures c in rows ==> IsLiveCopy(rows, o, cal, c)
  {
  }

  // ----- edits -----

  lemma CreateLinks(db: Db, cal: Cal, id: Id, data: NewEvent, now: int)
    requires CreateTx(db, cal, id, data, now).Ok?
    ensures SameLinks(db.rows, CreateTx(db, cal, id, data, now).value.rows)
  {
    hide Fits;
  }

  lemma UpdateLinks(db: Db, id: Id, ifMatch: Option<Etag>, p: Patch, now: int)
    requires UpdateTx(db, id, ifMatch, p, now).Ok?
    ensures SameLinks(db.rows, UpdateTx(db, id, ifMatch, p, now).value.rows)
  {
  }

  lemma DeleteLinks(db: Db, id: Id, ifMatch: Option<Etag>, now: int)
    requires DeleteTx(db, id, ifMatch, now).Ok?
    ensures SameLinks(db.rows, DeleteTx(db, id, ifMatch, now).value.rows)
  {
  }

  lemma SplitAttached(db: Db, m: Id, s: SeriesSplit, c: Id, now: int)
    requires Wf(db) && SplitTx(db, m, s, c, now).Ok? && Attached(db.rows) && SplitLeavesCopies(db.rows, m, s)
    requires s.continuation.Some? ==> s.continuation.value.master == None
    ensures Attached(SplitTx(db, m, s, c, now).value.rows)
  {
    hide Wf, SplitTx, Moves;
    var d := SplitTx(db, m, s, c, now).value;
    SplitRows(db, d, m, s, c, now);
    forall x | x in d.rows && d.rows[x].origin.Some? ensures Hangs(d.rows, x) {
      assert Hangs(db.rows, x);
      MovedIsOverride(db.rows, m, s, db.rows[x].origin.value);
    }
  }

  lemma MovedIsOverride(rows: Rows, m: Id, s: SeriesSplit, i: Id)
    ensures Moves(rows, m, s, i) ==> i in rows && OverrideOf(rows[i], m)
  {
  }

  lemma PutAttached(db: Db, p: Put, now: int)
    requires Wf(db) && WellFormedPut(p) && PutTx(db, p, now).Ok? && Attached(db.rows)
    ensures Attached(PutTx(db, p, now).value.0.rows)
  {
    hide Wf, PutTx, PutMaster, Hangs, OriginLeft, Unique;
    PutStores(db, p, now);
    PutOrigins(db, p, now);
    var (d, m, _) := PutTx(db, p, now).value;
    forall x | x in d.rows && d.rows[x].origin.Some? ensures Hangs(d.rows, x) {
      PutHangs(db, d, p, m, now, x);
    }
  }

  lemma PutHangs(db: Db, d: Db, p: Put, m: Id, now: int, x: Id)
    requires Wf(db) && WellFormedPut(p) && Stored(db, d, p, m, now) && OriginsAfterPut(db.rows, d.rows, p, m)
    requires Attached(db.rows) && x in d.rows && d.rows[x].origin.Some?
    ensures Hangs(d.rows, x)
  {
    hide Unique, PutMaster, Stored, PutRow;
    PutCopyBefore(db, d, p, m, now, x);
    assert Hangs(db.rows, x);
    var o := db.rows[x].origin.value;
    PutKeepsRow(db, d, p, m, now, o);
    if db.rows[o].master.Some? {
      var mc := db.rows[x].master.value;
      assert RowOk(db, x) && RowOk(db, o);
      PutKeepsRow(db, d, p, m, now, mc);
    }
  }

  lemma EditAttached(db: Db, op: Op, now: int)
    requires Wf(db) && db.clock <= now && WellFormed(db, op) && LeavesCopies(db, op, now) && Attached(db.rows)
    ensures Attached(After(db, op, now).rows)
  {
    hide Wf, Attached, SameLinks, CreateTx, UpdateTx, DeleteTx, SplitTx, PutTx, SplitLeavesCopies, RevivesNoTwin,
      GoodMaster, WellFormedPut;
    if After(db, op, now) != db {
      match op
      case Create(cal, id, data) =>
        CreateLinks(db, cal, id, data, now);
        SameLinksAttached(db.rows, After(db, op, now).rows);
      case Update(id, ifMatch, patch) =>
        UpdateLinks(db, id, ifMatch, patch, now);
        SameLinksAttached(db.rows, After(db, op, now).rows);
      case Delete(id, ifMatch) =>
        DeleteLinks(db, id, ifMatch, now);
        SameLinksAttached(db.rows, After(db, op, now).rows);
      case Split(id, s, c) => SplitAttached(db, id, s, c, now);
      case PutSeries(p) => PutAttached(db, p, now);
    }
  }

  // ----- one move, and runs -----

  lemma ReplyLinks(db: Db, m: Id, email: string, partstat: string, now: int)
    requires Reply(db, m, email, partstat, now).Ok?
    ensures SameLinks(db.rows, Reply(db, m, email, partstat, now).value.rows)
  {
    hide Answered;
  }

  lemma DeclineLinks(db: Db, dir: Directory, c: Id, actor: User, now: int)
    requires Wf(db) && Structure(db.rows) && db.clock <= now && Decline(db, dir, c, actor, now).Ok?
    ensures SameLinks(db.rows, Decline(db, dir, c, actor, now).value.rows)
  {
    hide Wf, Structure, Decline;
    if Declines(db.rows, dir, c, actor) {
      DeclineRows(db, dir, c, actor, now);
    } else {
      DeclineEffective(db, dir, c, actor, now);
    }
  }

  /** The copy is live and the actor owns its collection. */
  predicate Declines(rows: Rows, dir: Directory, c: Id, actor: User) {
    c in rows && rows[c].live && rows[c].origin.Some? && actor in Owners(dir, rows[c].cal)
  }

  lemma DeclineEffective(db: Db, dir: Directory, c: Id, actor: User, now: int)
    requires Decline(db, dir, c, actor, now).Ok? && !Declines(db.rows, dir, c, actor)
    ensures Decline(db, dir, c, actor, now) == Ok(db)
  {
  }

  lemma CallOffLinks(s: Sched, dir: Directory, m: Id, actor: User, now: int)
    requires Wf(s.db) && Structure(s.db.rows) && s.db.clock <= now && CancelDispatch(s, dir, m, actor, now).Ok?
    ensures SameLinks(s.db.rows, CancelDispatch(s, dir, m, actor, now).value.db.rows)
  {
    hide Wf, Structure, Kept, CalledOff, IsOrganizer, IsExternal;
    if IsOrganizer(dir, s.db.rows[m], actor) {
      var db := s.db.(clock := now);
      LaterKeepsWf(s.db, db);
      CalledOffKeeps(s.(db := db), dir, m, s.db.rows[m], s.db.rows[m].attendees, now);
      KeptLinks(s.db.rows, CancelDispatch(s, dir, m, actor, now).value.db.rows);
    }
  }

  /** Where every override's copy hangs under its master's copy, a move leaves it so exactly
    * unless it dispatches an override to a collection that has no copy of it yet. */
  lemma NextAttached(s: Sched, dir: Directory, move: Move, now: int)
    requires Inv(s) && Allowed(s, move, now) && Attached(s.db.rows)
    ensures Attached(Next(s, dir, move, now).db.rows) <==> !Detaches(s, dir, move, now)
  {
    hide Wf, Structure, RequestsRise, MessagesBound, Dispatch, CancelDispatch, Reply, Decline, WellFormed, LeavesCopies,
      After, Gone, Attached, SameLinks, Homes, IsOrganizer;
    match move
    case Send(m, actor) =>
      if Dispatch(s, dir, m, actor, now).Ok? {
        CommittedSend(s, dir, m, actor, now);
        if IsOrganizer(dir, s.db.rows[m], actor) {
          SentAttached(s, dir, m, actor, now);
        }
      }
    case CallOff(m, actor) =>
      if CancelDispatch(s, dir, m, actor, now).Ok? {
        CallOffLinks(s, dir, m, actor, now);
        SameLinksAttached(s.db.rows, Next(s, dir, move, now).db.rows);
      }
    case Answer(m, email, partstat) =>
      if Reply(s.db, m, email, partstat, now).Ok? {
        ReplyLinks(s.db, m, email, partstat, now);
        SameLinksAttached(s.db.rows, Next(s, dir, move, now).db.rows);
      }
    case Refuse(c, actor) =>
      if Decline(s.db, dir, c, actor, now).Ok? {
        DeclineLinks(s.db, dir, c, actor, now);
        SameLinksAttached(s.db.rows, Next(s, dir, move, now).db.rows);
      }
    case Edit(op) => EditAttached(s.db, op, now);
  }

  lemma CommittedSend(s: Sched, dir: Directory, m: Id, actor: User, now: int)
    requires Dispatch(s, dir, m, actor, now).Ok?
    ensures m in s.db.rows && (!IsOrganizer(dir, s.db.rows[m], actor) ==> Dispatch(s, dir, m, actor, now) == Ok(s))
  {
    hide Delivered, CancelAll, Strays, Outbox, IsOrganizer;
    CommittedDispatch(s, dir, m, actor, now);
  }

  /** No turn of the run dispatches an override to a collection that has no copy of it. */
  ghost predicate NeverDetaches(s: Sched, dir: Directory, turns: seq<Turn>)
    requires Playable(s, dir, turns)
    decreases |turns|
  {
    turns == [] ||
    (!Detaches(s, dir, turns[0].move, turns[0].now)
     && NeverDetaches(Next(s, dir, turns[0].move, turns[0].now), dir, turns[1..]))
  }

  /** Over every such run each override's copy stays under its master's copy. */
  lemma {:induction false} RunKeepsAttached(s: Sched, dir: Directory, turns: seq<Turn>)
    requires Inv(s) && Attached(s.db.rows) && Playable(s, dir, turns) && KeepsCopies(s, dir, turns)
    requires NeverDetaches(s, dir, turns)
    ensures Inv(Played(s, dir, turns)) && Attached(Played(s, dir, turns).db.rows)
    decreases |turns|
  {
    hide Inv, Next, Possible, LeavesCopies, Attached, Detaches;
    if turns != [] {
      NextKeeps(s, dir, turns[0].move, turns[0].now);
      NextAttached(s, dir, turns[0].move, turns[0].now);
      RunKeepsAttached(Next(s, dir, turns[0].move, turns[0].now), dir, turns[1..]);
    }
  }
}
