/** Runs that mix scheduling steps with event edits: the invariants over every run,
  * replies surviving dispatches, and the ways a dispatch gets blocked. */
module SchedulingRuns {
  import opened Wrappers
  import opened EventRows
  import opened EventSpec
  import opened EventEffects
  import opened EventSplit
  import opened EventPut
  import opened EventRuns
  import opened EventGuards
  import opened Scheduling
  import opened SchedulingCopies
  import opened SchedulingMessages
  import opened SchedulingDispatch
  import opened SchedulingEdits

  datatype Move =
    | Send(subject: Id, actor: User)
    | CallOff(subject: Id, actor: User)
    | Answer(subject: Id, email: string, partstat: string)
    | Refuse(copy: Id, actor: User)
    | Edit(op: Op)

  // ----- edits and the message log -----

  /** The rows a committed put hard-deletes, which takes their messages with them. */
  ghost function Gone(db: Db, op: Op, now: int): set<Id>
    requires WellFormed(db, op)
  {
    if op.PutSeries? && PutTx(db, op.put, now).Ok?
    then set i | i in db.rows && OverrideOf(db.rows[i], PutTx(db, op.put, now).value.1)
    else {}
  }

  function Surviving(msgs: seq<Message>, gone: set<Id>): seq<Message> {
    if msgs == [] then []
    else
      var before := Surviving(msgs[..|msgs| - 1], gone);
      if msgs[|msgs| - 1].subject in gone then before else before + [msgs[|msgs| - 1]]
  }

  lemma {:induction false} SurvivingFacts(msgs: seq<Message>, gone: set<Id>)
    ensures var r := Surviving(msgs, gone);
            && (forall msg | msg in r :: msg in msgs && msg.subject !in gone)
            && (RequestsRise(msgs) ==> RequestsRise(r))
    decreases |msgs|
  {
    if msgs != [] {
      var n := |msgs| - 1;
      SurvivingFacts(msgs[..n], gone);
      var before := Surviving(msgs[..n], gone);
      var r := Surviving(msgs, gone);
      if RequestsRise(msgs) {
        forall i, j | 0 <= i < j < |r| && r[i].verb == Request && r[j].verb == Request
            && r[i].subject == r[j].subject && r[i].email == r[j].email
          ensures r[i].sequence < r[j].sequence
        {
          if j == |before| {
            assert before[i] in msgs[..n];
          }
        }
      }
    }
  }

  /** No message is newer than its subject, which is an organizer's row. */
  predicate MessagesBound(rows: Rows, msgs: seq<Message>) {
    forall msg | msg in msgs :: IsSubject(rows, msg.subject) && msg.sequence <= rows[msg.subject].sequence
  }

  /** Organizers' rows stay organizers' rows and their sequences never fall. */
  ghost predicate SequencesRise(rows: Rows, rows': Rows, gone: set<Id>) {
    forall i | IsSubject(rows, i) && i !in gone :: IsSubject(rows', i) && rows[i].sequence <= rows'[i].sequence
  }

  lemma CreateSequences(db: Db, cal: Cal, id: Id, data: NewEvent, now: int)
    requires CreateTx(db, cal, id, data, now).Ok?
    ensures SequencesRise(db.rows, CreateTx(db, cal, id, data, now).value.rows, {})
  {
    hide Fits;
  }

  lemma UpdateSequences(db: Db, id: Id, ifMatch: Option<Etag>, p: Patch, now: int)
    requires UpdateTx(db, id, ifMatch, p, now).Ok?
    ensures SequencesRise(db.rows, UpdateTx(db, id, ifMatch, p, now).value.rows, {})
  {
  }

  lemma DeleteSequences(db: Db, id: Id, ifMatch: Option<Etag>, now: int)
    requires DeleteTx(db, id, ifMatch, now).Ok?
    ensures SequencesRise(db.rows, DeleteTx(db, id, ifMatch, now).value.rows, {})
  {
  }

  lemma SplitSequences(db: Db, m: Id, s: SeriesSplit, c: Id, now: int)
    requires Wf(db) && SplitTx(db, m, s, c, now).Ok?
    requires s.continuation.Some? ==> s.continuation.value.master == None
    ensures SequencesRise(db.rows, SplitTx(db, m, s, c, now).value.rows, {})
  {
    hide Wf, SplitTx;
    SplitPartition(db, m, s, c, now);
  }

  lemma PutSequences(db: Db, p: Put, now: int)
    requires Wf(db) && WellFormedPut(p) && PutTx(db, p, now).Ok?
    ensures SequencesRise(db.rows, PutTx(db, p, now).value.0.rows, Gone(db, PutSeries(p), now))
  {
    hide Wf, PutTx, Unique, PutMaster;
    PutStores(db, p, now);
    PutOrigins(db, p, now);
    var (d, m, _) := PutTx(db, p, now).value;
    forall i | IsSubject(db.rows, i) && i !in Gone(db, PutSeries(p), now)
      ensures IsSubject(d.rows, i) && db.rows[i].sequence <= d.rows[i].sequence
    {
      assert !OverrideOf(db.rows[i], m);
      assert i != m ==> i in d.rows && Visible(d.rows[i]) == Visible(db.rows[i]);
    }
  }

  // ----- one step -----

  /** An edit that takes no delivered override away from its copies. */
  ghost predicate LeavesCopies(db: Db, op: Op, now: int)
    requires WellFormed(db, op)
  {
    match op
    case Split(m, s, c) => SplitTx(db, m, s, c, now).Ok? ==> SplitLeavesCopies(db.rows, m, s)
    case PutSeries(p) => PutTx(db, p, now).Ok? ==> RevivesNoTwin(db.rows, PutTx(db, p, now).value.1)
    case _ => true
  }

  /** A move whose caller hands over what the code expects. */
  ghost predicate Possible(s: Sched, move: Move, now: int) {
    s.db.clock <= now && (move.Edit? ==> WellFormed(s.db, move.op))
  }

  /** A possible move that takes no delivered override away from its copies. */
  ghost predicate Allowed(s: Sched, move: Move, now: int) {
    Possible(s, move, now) && (move.Edit? ==> LeavesCopies(s.db, move.op, now))
  }

  function Committed<T>(r: Result<T, DbError>, otherwise: T): T { if r.Ok? then r.value else otherwise }

  ghost function Next(s: Sched, dir: Directory, move: Move, now: int): Sched
    requires Possible(s, move, now)
  {
    match move
    case Send(m, actor) => Committed(Dispatch(s, dir, m, actor, now), s)
    case CallOff(m, actor) => Committed(CancelDispatch(s, dir, m, actor, now), s)
    case Answer(m, email, partstat) => s.(db := Committed(Reply(s.db, m, email, partstat, now), s.db))
    case Refuse(c, actor) => s.(db := Committed(Decline(s.db, dir, c, actor, now), s.db))
    case Edit(op) => Sched(After(s.db, op, now), Surviving(s.messages, Gone(s.db, op, now)))
  }

  /** The invariants of the whole system. */
  ghost predicate Inv(s: Sched) {
    Wf(s.db) && Structure(s.db.rows) && RequestsRise(s.messages) && MessagesBound(s.db.rows, s.messages)
  }

  lemma BoundAfter(rows: Rows, rows': Rows, msgs: seq<Message>, msgs': seq<Message>, gone: set<Id>)
    requires MessagesBound(rows, msgs) && SequencesRise(rows, rows', gone)
    requires forall msg | msg in msgs' :: (msg in msgs && msg.subject !in gone)
               || (IsSubject(rows', msg.subject) && msg.sequence <= rows'[msg.subject].sequence)
    ensures MessagesBound(rows', msgs')
  {
  }

  lemma EditKeeps(s: Sched, op: Op, now: int)
    requires Inv(s) && s.db.clock <= now && WellFormed(s.db, op) && LeavesCopies(s.db, op, now)
    ensures Inv(Sched(After(s.db, op, now), Surviving(s.messages, Gone(s.db, op, now))))
  {
    hide Wf, Structure, RequestsRise, MessagesBound, WellFormed, CreateTx, UpdateTx, DeleteTx, SplitTx, PutTx,
      LeavesCopies;
    var touched := StepEffect(s.db, op, now);
    EditStructure(s.db, op, now);
    EditSequences(s.db, op, now);
    SurvivingFacts(s.messages, Gone(s.db, op, now));
    BoundAfter(s.db.rows, After(s.db, op, now).rows, s.messages, Surviving(s.messages, Gone(s.db, op, now)),
               Gone(s.db, op, now));
  }

  lemma EditStructure(db: Db, op: Op, now: int)
    requires Wf(db) && Structure(db.rows) && db.clock <= now && WellFormed(db, op) && LeavesCopies(db, op, now)
    ensures Structure(After(db, op, now).rows)
  {
    hide Wf, Structure, CreateTx, UpdateTx, DeleteTx, SplitTx, PutTx, SplitLeavesCopies, RevivesNoTwin,
      GoodMaster, WellFormedPut;
    if After(db, op, now) != db {
      match op
      case Create(cal, id, data) => CreateStructure(db, cal, id, data, now);
      case Update(id, ifMatch, patch) => UpdateStructure(db, id, ifMatch, patch, now);
      case Delete(id, ifMatch) => DeleteStructure(db, id, ifMatch, now);
      case Split(id, s, c) => SplitStructure(db, id, s, c, now);
      case PutSeries(p) => PutStructure(db, p, now);
    }
  }

  lemma EditSequences(db: Db, op: Op, now: int)
    requires Wf(db) && WellFormed(db, op)
    ensures SequencesRise(db.rows, After(db, op, now).rows, Gone(db, op, now))
  {
    hide Wf, CreateTx, UpdateTx, DeleteTx, SplitTx, PutTx, GoodMaster, WellFormedPut;
    if After(db, op, now) != db {
      match op
      case Create(cal, id, data) => CreateSequences(db, cal, id, data, now);
      case Update(id, ifMatch, patch) => UpdateSequences(db, id, ifMatch, patch, now);
      case Delete(id, ifMatch) => DeleteSequences(db, id, ifMatch, now);
      case Split(id, s, c) => SplitSequences(db, id, s, c, now);
      case PutSeries(p) => PutSequences(db, p, now);
    }
  }

  lemma SendKeeps(s: Sched, dir: Directory, m: Id, actor: User, now: int)
    requires Inv(s) && s.db.clock <= now && Dispatch(s, dir, m, actor, now).Ok?
    ensures Inv(Dispatch(s, dir, m, actor, now).value)
  {
    hide Wf, Structure, RequestsRise, Dispatch, Outbox, Kept;
    DispatchKeeps(s, dir, m, actor, now);
    CommittedDispatch(s, dir, m, actor, now);
    OutboxAdds(s.messages, dir, m, s.db.rows[m]);
    AddedBound(s, Dispatch(s, dir, m, actor, now).value, m, s.db.rows[m].sequence);
  }

  lemma AddedBound(s: Sched, t: Sched, m: Id, sequence: int)
    requires MessagesBound(s.db.rows, s.messages) && SequencesRise(s.db.rows, t.db.rows, {})
    requires t.messages == s.messages || (Adds(s.messages, t.messages, m, sequence)
               && IsSubject(s.db.rows, m) && sequence <= s.db.rows[m].sequence)
    ensures MessagesBound(t.db.rows, t.messages)
  {
    forall msg | msg in t.messages ensures msg in s.messages || (msg.subject == m && msg.sequence == sequence) {
      var k :| 0 <= k < |t.messages| && t.messages[k] == msg;
      if k < |s.messages| {
        assert s.messages[k] == msg;
      }
    }
  }

  lemma CallOffKeeps(s: Sched, dir: Directory, m: Id, actor: User, now: int)
    requires Inv(s) && s.db.clock <= now && CancelDispatch(s, dir, m, actor, now).Ok?
    ensures Inv(CancelDispatch(s, dir, m, actor, now).value)
  {
    hide Wf, Structure, RequestsRise, MessagesBound;
    CancelDispatchKeeps(s, dir, m, actor, now);
    AddedBound(s, CancelDispatch(s, dir, m, actor, now).value, m, s.db.rows[m].sequence);
  }

  lemma AnswerKeeps(s: Sched, m: Id, email: string, partstat: string, now: int)
    requires Inv(s) && s.db.clock <= now && Reply(s.db, m, email, partstat, now).Ok?
    ensures Inv(s.(db := Reply(s.db, m, email, partstat, now).value))
  {
    hide Wf, Structure, RequestsRise, Reply, Answered, Kept;
    ReplyKeeps(s.db, m, email, partstat, now);
    ReplyExactly(s.db, m, email, partstat, now);
    AddedBound(s, s.(db := Reply(s.db, m, email, partstat, now).value), m, 0);
  }

  lemma RefuseKeeps(s: Sched, dir: Directory, c: Id, actor: User, now: int)
    requires Inv(s) && s.db.clock <= now && Decline(s.db, dir, c, actor, now).Ok?
    ensures Inv(s.(db := Decline(s.db, dir, c, actor, now).value))
  {
    hide Wf, Structure, RequestsRise, Kept, MessagesBound;
    DeclineKeeps(s.db, dir, c, actor, now);
    DeclineSequences(s.db, dir, c, actor, now);
    AddedBound(s, s.(db := Decline(s.db, dir, c, actor, now).value), c, 0);
  }

  lemma DeclineSequences(db: Db, dir: Directory, c: Id, actor: User, now: int)
    requires Wf(db) && db.clock <= now && Decline(db, dir, c, actor, now).Ok?
    ensures SequencesRise(db.rows, Decline(db, dir, c, actor, now).value.rows, {})
  {
    hide Wf, Reply, EmailFor, Owners, Answered;
    if c in db.rows && db.rows[c].live && db.rows[c].origin.Some? {
      var o := db.rows[c].origin.value;
      var email := if o in db.rows then EmailFor(dir, db.rows[o].attendees, actor) else None;
      if email.Some? && Reply(db, o, email.value, "DECLINED", now).Ok? {
        ReplyExactly(db, o, email.value, "DECLINED", now);
      }
    }
  }

  /** Every move keeps the invariants. */
  lemma NextKeeps(s: Sched, dir: Directory, move: Move, now: int)
    requires Inv(s) && Allowed(s, move, now)
    ensures Inv(Next(s, dir, move, now))
  {
    hide Inv, Dispatch, CancelDispatch, Reply, Decline, WellFormed, LeavesCopies, After, Gone;
    match move
    case Send(m, actor) => if Dispatch(s, dir, m, actor, now).Ok? { SendKeeps(s, dir, m, actor, now); }
    case CallOff(m, actor) => if CancelDispatch(s, dir, m, actor, now).Ok? { CallOffKeeps(s, dir, m, actor, now); }
    case Answer(m, email, partstat) =>
      if Reply(s.db, m, email, partstat, now).Ok? { AnswerKeeps(s, m, email, partstat, now); }
    case Refuse(c, actor) => if Decline(s.db, dir, c, actor, now).Ok? { RefuseKeeps(s, dir, c, actor, now); }
    case Edit(op) => EditKeeps(s, op, now);
  }
}
