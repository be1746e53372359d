/** The lost-update guard of a conditional PUT over runs of edits and scheduling moves. */
module SchedulingGuards {
  import opened Wrappers
  import opened EventRows
  import opened EventSpec
  import opened EventEffects
  import opened EventPut
  import opened EventRuns
  import opened EventGuards
  import opened EventTags
  import opened Scheduling
  import opened SchedulingCopies
  import opened SchedulingMessages
  import opened SchedulingDispatch
  import opened SchedulingCommits
  import opened SchedulingRows
  import opened SchedulingRuns
  import opened SchedulingLoose
  import opened SchedulingTheorems
  import opened SchedulingAttached
  import opened SchedulingJournal

  /** Equal in what the etag and the name are taken from, and not brought back. */
  predicate SameTag(row: Row, row': Row) {
    && row'.cal == row.cal && row'.sequence == row.sequence && row'.updatedAt == row.updatedAt
    && row'.href == row.href && row'.rid == row.rid && (row'.live ==> row.live)
  }

  /** The master j was written, logged and stamped, or keeps its tag; if it was logged and
    * keeps its tag it is gone. */
  predicate TagStep(db: Db, d: Db, now: int, j: Id)
    requires j in db.rows
  {
    && IsMaster(d.rows, j) && d.rows[j].cal == db.rows[j].cal
    && if d.rows[j].updatedAt == now && Mentioned(db, d, j) then true
       else SameTag(db.rows[j], d.rows[j]) && (Mentioned(db, d, j) ==> !d.rows[j].live)
  }

  /** What every move does to tags: each master takes a tag step, and new masters carry the
    * time of the move. */
  ghost predicate TagsStep(db: Db, d: Db, now: int) {
    && db.log <= d.log && (d == db || d.clock == now)
    && (forall j | IsMaster(db.rows, j) :: TagStep(db, d, now, j))
    && (forall i | IsMaster(d.rows, i) :: if i in db.rows then IsMaster(db.rows, i) else d.rows[i].updatedAt == now)
  }

  lemma NoTagStep(db: Db, now: int)
    ensures TagsStep(db, db, now)
  {
  }

  // ----- one move -----

  lemma EditTags(db: Db, op: Op, now: int)
    requires Wf(db) && db.clock <= now && WellFormed(db, op)
    ensures TagsStep(db, After(db, op, now), now)
  {
    hide Wf, WellFormed, After, Untouched, Effect, TagsStep, MovedOn;
    var d := After(db, op, now);
    NoTagStep(db, now);
    var touched := StepEffect(db, op, now);
    if d != db {
      EffectTags(db, d, touched, now);
    }
  }

  lemma EffectTags(db: Db, d: Db, touched: set<Id>, now: int)
    requires Effect(db, d, touched, now)
    ensures TagsStep(db, d, now)
  {
    hide Untouched, CtagsFollow, Mentioned;
    forall j | IsMaster(db.rows, j) ensures TagStep(db, d, now, j) {
      TouchedMentioned(db, d, touched, now, j);
      if j !in touched {
        KeptPart(db.rows, d.rows, j);
      }
    }
    forall i | IsMaster(d.rows, i) ensures if i in db.rows then IsMaster(db.rows, i) else d.rows[i].updatedAt == now {
      if i !in touched {
        PartBefore(db.rows, d.rows, i);
      }
    }
  }

  lemma PartBefore(rows: Rows, rows': Rows, i: Id)
    requires Untouched(rows, rows', i) && IsMaster(rows', i)
    ensures IsMaster(rows, i)
  {
    assert PartOf(rows', i, i);
    assert Visible(rows[i]) == Visible(rows'[i]);
  }

  lemma TouchedMentioned(db: Db, d: Db, touched: set<Id>, now: int, j: Id)
    requires Effect(db, d, touched, now)
    ensures Mentioned(db, d, j) <==> j in touched
  {
    hide Untouched, MovedOn, CtagsFollow;
    if j in touched {
      var k :| |db.log| <= k < |d.log| && d.log[k].cal == d.rows[j].cal && d.log[k].id == j;
    }
  }

  /** Rows that keep their identity and are stamped when they are journalled. */
  lemma KeptTags(db: Db, d: Db, now: int)
    requires Kept(db.rows, d.rows) && db.log <= d.log && d.clock == now
    requires forall j | IsMaster(db.rows, j) :: j in d.rows && TagStep(db, d, now, j)
    requires forall i | i in d.rows && i !in db.rows :: d.rows[i].updatedAt == now
    ensures TagsStep(db, d, now)
  {
    hide TagStep;
    forall i | IsMaster(d.rows, i) && i in db.rows ensures IsMaster(db.rows, i) {
      KeptRow(db.rows, d.rows, i);
    }
  }

  /** A dispatch or a calling off, whatever the copies look like. */
  lemma TickTags(a: Db, db: Db, d: Db, now: int)
    requires db == a.(clock := now) && Tick(db, d, now)
    ensures TagsStep(a, d, now)
  {
    hide Wf, Linked, Records, Kept, Mentioned, TagStep;
    TickKeeps(db, d, now);
    TickIsKept(db, d, now);
    forall j | IsMaster(a.rows, j) ensures j in d.rows && TagStep(a, d, now, j) {
      assert RowTick(db, d, now, j);
      TickTag(a, db, d, now, j);
    }
    KeptTags(a, d, now);
  }

  lemma TickTag(a: Db, db: Db, d: Db, now: int, j: Id)
    requires db == a.(clock := now) && IsMaster(a.rows, j) && RowTick(db, d, now, j)
    ensures j in d.rows && TagStep(a, d, now, j)
  {
    assert Mentioned(a, d, j) == Mentioned(db, d, j);
  }

  lemma ReplyTags(db: Db, m: Id, email: string, partstat: string, now: int)
    requires Wf(db) && db.clock <= now && Reply(db, m, email, partstat, now).Ok?
    ensures TagsStep(db, Reply(db, m, email, partstat, now).value, now)
  {
    hide Wf, Reply, Answered, Kept, Records, Mentioned, RepliedRow, Touched, InPlace;
    ReplyLoose(db, m, email, partstat, now);
    ReplyExactly(db, m, email, partstat, now);
    var d := Reply(db, m, email, partstat, now).value;
    InPlaceIsKept(db.rows, d.rows);
    forall j | IsMaster(db.rows, j) ensures j in d.rows && TagStep(db, d, now, j) {
      ReplyRecords(db, m, email, partstat, now, j);
      KeptRow(db.rows, d.rows, j);
      TouchedRow(db.rows[j], now);
      RepliedStamp(db.rows[j], email, partstat, now);
    }
    KeptTags(db, d, now);
  }

  lemma RepliedStamp(row: Row, email: string, partstat: string, now: int)
    ensures row.master == None ==> RepliedRow(row, email, partstat, now).updatedAt == now
  {
  }

  /** A decline: the reply, if there is one, and the deletion of the copy. */
  lemma DeclineTags(db: Db, dir: Directory, c: Id, actor: User, now: int)
    requires Wf(db) && db.clock <= now && Declines(db.rows, dir, c, actor)
    ensures Decline(db, dir, c, actor, now).Ok? && TagsStep(db, Decline(db, dir, c, actor, now).value, now)
  {
    hide Wf, Reply, EmailFor, Owners, TagsStep;
    var o := db.rows[c].origin.value;
    var email := if o in db.rows then EmailFor(dir, db.rows[o].attendees, actor) else None;
    if email.Some? && Reply(db, o, email.value, "DECLINED", now).Ok? {
      ReplyTags(db, o, email.value, "DECLINED", now);
      ReplyLoose(db, o, email.value, "DECLINED", now);
      BuriedTags(db, Reply(db, o, email.value, "DECLINED", now).value, c, now);
    } else {
      NoTagStep(db, now);
      BuriedTags(db, db, c, now);
    }
  }

  lemma BuriedTags(db: Db, d: Db, c: Id, now: int)
    requires TagsStep(db, d, now) && c in d.rows
    ensures TagsStep(db, d.(rows := d.rows[c := d.rows[c].(live := false)], clock := now), now)
  {
    var e := d.(rows := d.rows[c := d.rows[c].(live := false)], clock := now);
    forall j | IsMaster(db.rows, j) ensures TagStep(db, e, now, j) {
      assert TagStep(db, d, now, j);
      assert Mentioned(db, e, j) == Mentioned(db, d, j);
    }
  }

  /** Every move takes a tag step. */
  lemma NextTags(s: Sched, dir: Directory, move: Move, now: int)
    requires LooseInv(s) && Possible(s, move, now)
    ensures TagsStep(s.db, Next(s, dir, move, now).db, now)
  {
    hide Wf, Linked, RequestsRise, MessagesBound, Dispatch, CalledOff, Reply, Decline, WellFormed, After, Gone, Tick,
      TagsStep, IsOrganizer, Declines;
    NoTagStep(s.db, now);
    match move
    case Send(m, actor) =>
      if Dispatch(s, dir, m, actor, now).Ok? {
        DispatchTick(s, dir, m, actor, now);
        if Dispatch(s, dir, m, actor, now).value != s {
          TickTags(s.db, s.db.(clock := now), Dispatch(s, dir, m, actor, now).value.db, now);
        }
      }
    case CallOff(m, actor) =>
      if IsSubject(s.db.rows, m) && IsOrganizer(dir, s.db.rows[m], actor) {
        var db := s.db.(clock := now);
        LaterKeepsWf(s.db, db);
        CalledOffTick(s.(db := db), dir, m, s.db.rows[m], s.db.rows[m].attendees, now);
        TickTags(s.db, db, Next(s, dir, move, now).db, now);
      }
    case Answer(m, email, partstat) =>
      if Reply(s.db, m, email, partstat, now).Ok? {
        ReplyTags(s.db, m, email, partstat, now);
      }
    case Refuse(c, actor) =>
      if Declines(s.db.rows, dir, c, actor) {
        DeclineTags(s.db, dir, c, actor, now);
      } else if Decline(s.db, dir, c, actor, now).Ok? {
        DeclineEffective(s.db, dir, c, actor, now);
      }
    case Edit(op) => EditTags(s.db, op, now);
  }

  // ----- runs -----

  /** How j, a master at a, stands at a later b: unlogged with its tag, or logged and then
    * either stamped later or gone. */
  predicate Guarded(a: Db, b: Db, j: Id) {
    && IsMaster(a.rows, j) && IsMaster(b.rows, j) && a.log <= b.log
    && if NotWritten(a, b, j) then SameTag(a.rows[j], b.rows[j])
       else a.rows[j].updatedAt < b.rows[j].updatedAt || !b.rows[j].live
  }

  lemma WrittenInStep(a: Db, b: Db, d: Db, j: Id)
    requires a.log <= b.log && b.log <= d.log
    ensures NotWritten(a, d, j) <==> NotWritten(a, b, j) && !Mentioned(b, d, j)
  {
    MentionedTransitive(a, b, d, j);
    forall x: Db, y: Db | x.log <= y.log ensures NotWritten(x, y, j) <==> !Mentioned(x, y, j) {
    }
  }

  lemma StepGuarded(a: Db, b: Db, d: Db, now: int, j: Id)
    requires Guarded(a, b, j) && TagsStep(b, d, now) && a.rows[j].updatedAt < now
    ensures Guarded(a, d, j)
  {
    hide NotWritten, Mentioned;
    WrittenInStep(a, b, d, j);
    assert TagStep(b, d, now, j);
  }

  lemma StepNamed(a: Db, b: Db, d: Db, now: int, t: int)
    requires Named(a, b, t) && TagsStep(b, d, now) && t < now
    ensures Named(a, d, t)
  {
    hide Mentioned;
    forall i | IsMaster(d.rows, i)
      ensures t < d.rows[i].updatedAt
           || (IsMaster(a.rows, i) && d.rows[i].cal == a.rows[i].cal
             && ResourceName(i, d.rows[i]) == ResourceName(i, a.rows[i]))
    {
      if i in b.rows {
        assert TagStep(b, d, now, i);
      }
    }
  }

  lemma GuardedMasters(a: Db, b: Db, j: Id)
    requires Guarded(a, b, j)
    ensures j in a.rows && j in b.rows
  {
  }

  predicate AllLater(turns: seq<Turn>, t: int) { forall k | 0 <= k < |turns| :: t < turns[k].now }

  lemma {:induction false} RunGuarded(a: Db, s: Sched, dir: Directory, turns: seq<Turn>, j: Id)
    requires LooseInv(s) && Playable(s, dir, turns) && Guarded(a, s.db, j) && Named(a, s.db, a.rows[j].updatedAt)
    requires AllLater(turns, a.rows[j].updatedAt)
    ensures var t := Played(s, dir, turns); LooseInv(t) && Guarded(a, t.db, j) && Named(a, t.db, a.rows[j].updatedAt)
    decreases |turns|
  {
    hide LooseInv, Next, Possible, Guarded, Named, TagsStep;
    GuardedMasters(a, s.db, j);
    if turns != [] {
      var n := Next(s, dir, turns[0].move, turns[0].now);
      NextLoose(s, dir, turns[0].move, turns[0].now);
      NextTags(s, dir, turns[0].move, turns[0].now);
      StepGuarded(a, s.db, n.db, turns[0].now, j);
      StepNamed(a, s.db, n.db, turns[0].now, a.rows[j].updatedAt);
      RunGuarded(a, n, dir, turns[1..], j);
    }
  }

  lemma LooseWf(s: Sched)
    requires LooseInv(s)
    ensures Wf(s.db)
  {
  }

  lemma StartsGuarded(a: Db, j: Id)
    requires IsMaster(a.rows, j)
    ensures Guarded(a, a, j) && Named(a, a, a.rows[j].updatedAt)
  {
  }

  /** A PUT that captured its etag passes the check after any run of edits, dispatches,
    * cancellations, replies and declines exactly if the resource was not logged in between
    * and is still served. */
  lemma MatchEtagOverRuns(s: Sched, dir: Directory, turns: seq<Turn>, cal: Cal, href: Name, j: Id)
    requires LooseInv(s) && Playable(s, dir, turns) && ServedAt(s.db.rows, cal, href, j)
    requires AllLater(turns, s.db.rows[j].updatedAt)
    ensures var b := Played(s, dir, turns).db;
            && j in b.rows
            && (MeetsPrecondition(b.rows, AtHref(b.rows, cal, href), MatchEtag(s.db.rows[j].etag)) <==>
                NotWritten(s.db, b, j) && b.rows[j].live)
            && (NotWritten(s.db, b, j) && b.rows[j].live ==> AtHref(b.rows, cal, href) == Some(j))
  {
    hide LooseInv, Playable, Played, Guarded, Named;
    StartsGuarded(s.db, j);
    RunGuarded(s.db, s, dir, turns, j);
    var b := Played(s, dir, turns).db;
    LooseWf(s);
    LooseWf(Played(s, dir, turns));
    GuardedMasters(s.db, b, j);
    GuardedMatch(s.db, b, cal, href, j);
  }

  lemma GuardedMatch(a: Db, b: Db, cal: Cal, href: Name, j: Id)
    requires Wf(a) && Wf(b) && ServedAt(a.rows, cal, href, j) && Guarded(a, b, j) && Named(a, b, a.rows[j].updatedAt)
    ensures MeetsPrecondition(b.rows, AtHref(b.rows, cal, href), MatchEtag(a.rows[j].etag))
       <==> NotWritten(a, b, j) && b.rows[j].live
    ensures NotWritten(a, b, j) && b.rows[j].live ==> AtHref(b.rows, cal, href) == Some(j)
  {
    hide Wf, NotWritten;
    MasterEtag(a, j);
    MasterEtag(b, j);
    if NotWritten(a, b, j) && b.rows[j].live {
      assert ServedAt(b.rows, cal, href, j);
      OneResourcePerName(b, cal, href, AtHref(b.rows, cal, href).value, j);
    } else if AtHref(b.rows, cal, href).Some? {
      var i := AtHref(b.rows, cal, href).value;
      MasterEtag(b, i);
      if b.rows[i].etag == a.rows[j].etag {
        OneResourcePerName(a, cal, href, i, j);
        assert false;
      }
    }
  }

  // ----- runs whose clock may stand still -----

  /** Every turn that logs j is at time t. */
  ghost predicate LoggedOnlyAt(s: Sched, dir: Directory, turns: seq<Turn>, j: Id, t: int)
    requires Playable(s, dir, turns)
    decreases |turns|
  {
    turns == [] ||
    (var n := Next(s, dir, turns[0].move, turns[0].now);
     && (NotWritten(s.db, n.db, j) || turns[0].now == t)
     && LoggedOnlyAt(n, dir, turns[1..], j, t))
  }

  /** j was last stamped at t, or has passed t: stamped later or deleted. */
  predicate TimedAt(db: Db, j: Id, t: int, unmoved: bool) {
    && IsMaster(db.rows, j)
    && if unmoved then db.rows[j].updatedAt == t else t < db.clock && (t < db.rows[j].updatedAt || !db.rows[j].live)
  }

  lemma StepTimed(b: Db, d: Db, now: int, j: Id, t: int, unmoved: bool)
    requires TagsStep(b, d, now) && TimedAt(b, j, t, unmoved) && b.clock <= now && b.rows[j].updatedAt <= b.clock
    ensures TimedAt(d, j, t, unmoved && (NotWritten(b, d, j) || now == t))
  {
    assert TagStep(b, d, now, j);
    assert NotWritten(b, d, j) == !Mentioned(b, d, j);
  }

  lemma {:induction false} RunTimed(s: Sched, dir: Directory, turns: seq<Turn>, j: Id, t: int, unmoved: bool)
    requires LooseInv(s) && Playable(s, dir, turns) && TimedAt(s.db, j, t, unmoved)
    ensures var b := Played(s, dir, turns);
            LooseInv(b) && TimedAt(b.db, j, t, unmoved && LoggedOnlyAt(s, dir, turns, j, t))
    decreases |turns|
  {
    hide LooseInv, Next, TagsStep, NotWritten, TimedAt;
    if turns != [] {
      var n := Next(s, dir, turns[0].move, turns[0].now);
      NextLoose(s, dir, turns[0].move, turns[0].now);
      NextTags(s, dir, turns[0].move, turns[0].now);
      TimedIn(s, j, t, unmoved);
      StepTimed(s.db, n.db, turns[0].now, j, t, unmoved);
      RunTimed(n, dir, turns[1..], j, t, unmoved && (NotWritten(s.db, n.db, j) || turns[0].now == t));
    }
  }

  lemma TimedIn(s: Sched, j: Id, t: int, unmoved: bool)
    requires LooseInv(s) && TimedAt(s.db, j, t, unmoved)
    ensures j in s.db.rows && s.db.rows[j].updatedAt <= s.db.clock
  {
    hide Wf;
    ClockBounds(s.db, j);
  }

  /** Whatever the clock did: where j is still served at its name, a PUT that captured its
    * etag passes exactly if every turn that logged j was in the very millisecond of the etag
    * and the sequence is as it was; where it is not, exactly if another resource took the
    * name over with the same tag. */
  lemma MatchEtagAnyClock(s: Sched, dir: Directory, turns: seq<Turn>, cal: Cal, href: Name, j: Id)
    requires LooseInv(s) && Playable(s, dir, turns) && ServedAt(s.db.rows, cal, href, j)
    ensures var b := Played(s, dir, turns).db; var row := s.db.rows[j];
            MeetsPrecondition(b.rows, AtHref(b.rows, cal, href), MatchEtag(row.etag)) <==>
            if ServedAt(b.rows, cal, href, j)
            then LoggedOnlyAt(s, dir, turns, j, row.updatedAt) && b.rows[j].sequence == row.sequence
            else TakenOver(row, b.rows, cal, href, j)
  {
    hide LooseInv, Playable, Played, LoggedOnlyAt, TakenOver;
    LooseWf(s);
    MasterEtag(s.db, j);
    RunTimed(s, dir, turns, j, s.db.rows[j].updatedAt, true);
    LooseWf(Played(s, dir, turns));
    TagDecides(s.db.rows[j], Played(s, dir, turns).db, cal, href, j);
  }

  // ----- an organizer's resource: which turns go unseen -----

  /** The moves that re-stamp j without raising its sequence: edits of its overrides, replies
    * and declines. */
  predicate Restamps(db: Db, move: Move, j: Id) {
    match move
    case Edit(op) => OverrideWrite(db, op, j)
    case Answer(_, _, _) => true
    case Refuse(_, _) => true
    case _ => false
  }

  /** Every turn that logs j is an override edit, a reply or a decline at time t. */
  ghost predicate UnseenTurns(s: Sched, dir: Directory, turns: seq<Turn>, j: Id, t: int)
    requires Playable(s, dir, turns)
    decreases |turns|
  {
    turns == [] ||
    (var n := Next(s, dir, turns[0].move, turns[0].now);
     && (NotWritten(s.db, n.db, j) || (Restamps(s.db, turns[0].move, j) && turns[0].now == t))
     && UnseenTurns(n, dir, turns[1..], j, t))
  }

  /** One move and an organizer's master: as it was if not logged, re-stamped by the moves
    * above, superseded by every other. */
  predicate MasterMove(row: Row, row': Row, now: int, logged: bool, restamped: bool) {
    && row'.master == None && row'.origin == None
    && if !logged || restamped then row'.sequence == row.sequence && row'.live == row.live
                                    && row'.updatedAt == (if logged then now else row.updatedAt)
       else Superseded(row, row')
  }

  lemma MasterMoved(row: Row, row': Row, q: int, t: int, now: int, logged: bool, restamped: bool)
    requires MasterMove(row, row', now, logged, restamped) && row.updatedAt <= now
    ensures Tagged(row, q, t) ==>
              if !logged || (restamped && now == t) then Tagged(row', q, t) else Spoiled(row', q, t)
    ensures Spoiled(row, q, t) ==> Spoiled(row', q, t)
  {
  }

  lemma KeptMaster(row: Row, now: int)
    requires row.master == None && row.origin == None
    ensures MasterMove(row, row, now, false, false) && MasterMove(row, row, now, false, true)
  {
  }

  lemma EditMoves(db: Db, op: Op, now: int, j: Id)
    requires Wf(db) && db.clock <= now && WellFormed(db, op) && IsMaster(db.rows, j) && db.rows[j].origin == None
    ensures var d := After(db, op, now);
            && j in d.rows
            && MasterMove(db.rows[j], d.rows[j], now, !NotWritten(db, d, j), OverrideWrite(db, op, j))
  {
    hide Wf, WellFormed, After, NotWritten, OverrideWrite, Superseded;
    LoggedStep(db, op, now, j);
    EditSequences(db, op, now);
    MasterNotGone(db, op, now, j);
    var (row, row') := (db.rows[j], After(db, op, now).rows[j]);
    assert Visible(row').sequence == row'.sequence && Visible(row').updatedAt == row'.updatedAt;
    assert Visible(row).sequence == row.sequence && Visible(row).updatedAt == row.updatedAt;
    assert Visible(row').live == row'.live && Visible(row).live == row.live;
  }

  lemma MasterNotGone(db: Db, op: Op, now: int, j: Id)
    requires WellFormed(db, op) && IsMaster(db.rows, j)
    ensures j !in Gone(db, op, now)
  {
  }

  lemma ReplyMoves(db: Db, m: Id, email: string, partstat: string, now: int, j: Id)
    requires Wf(db) && db.clock <= now && Reply(db, m, email, partstat, now).Ok?
    requires IsMaster(db.rows, j) && db.rows[j].origin == None
    ensures var d := Reply(db, m, email, partstat, now).value;
            && j in d.rows && MasterMove(db.rows[j], d.rows[j], now, !NotWritten(db, d, j), true)
  {
    hide Wf, Reply, Answered, Records;
    ReplyExactly(db, m, email, partstat, now);
    ReplyRecords(db, m, email, partstat, now, j);
    var d := Reply(db, m, email, partstat, now).value;
    assert NotWritten(db, d, j) == !Mentioned(db, d, j);
  }

  lemma DeclineMoves(db: Db, dir: Directory, c: Id, actor: User, now: int, j: Id)
    requires Wf(db) && db.clock <= now && Decline(db, dir, c, actor, now).Ok?
    requires IsMaster(db.rows, j) && db.rows[j].origin == None
    ensures var d := Decline(db, dir, c, actor, now).value;
            && j in d.rows && MasterMove(db.rows[j], d.rows[j], now, !NotWritten(db, d, j), true)
  {
    hide Wf, Reply, EmailFor, Owners, Answered, MasterMove;
    KeptMaster(db.rows[j], now);
    if Declines(db.rows, dir, c, actor) {
      var o := db.rows[c].origin.value;
      var email := if o in db.rows then EmailFor(dir, db.rows[o].attendees, actor) else None;
      if email.Some? && Reply(db, o, email.value, "DECLINED", now).Ok? {
        ReplyMoves(db, o, email.value, "DECLINED", now, j);
      }
    }
  }

  /** A dispatch or a calling off leaves every organizer's master alone. */
  lemma TickMoves(a: Db, db: Db, d: Db, now: int, j: Id)
    requires db == a.(clock := now) && Tick(db, d, now) && IsMaster(a.rows, j) && a.rows[j].origin == None
    ensures j in d.rows && MasterMove(a.rows[j], d.rows[j], now, !NotWritten(a, d, j), false)
  {
    hide Wf, Linked, Records;
    assert RowTick(db, d, now, j);
    assert NotWritten(a, d, j) == !Mentioned(db, d, j);
  }

  lemma NextMoves(s: Sched, dir: Directory, move: Move, now: int, j: Id)
    requires LooseInv(s) && Possible(s, move, now) && IsMaster(s.db.rows, j) && s.db.rows[j].origin == None
    ensures var n := Next(s, dir, move, now);
            && j in n.db.rows
            && MasterMove(s.db.rows[j], n.db.rows[j], now, !NotWritten(s.db, n.db, j), Restamps(s.db, move, j))
  {
    hide Wf, Linked, RequestsRise, MessagesBound, Dispatch, CalledOff, Reply, Decline, WellFormed, After, Gone, Tick,
      IsOrganizer, MasterMove, OverrideWrite;
    KeptMaster(s.db.rows[j], now);
    match move
    case Send(m, actor) =>
      if Dispatch(s, dir, m, actor, now).Ok? {
        DispatchTick(s, dir, m, actor, now);
        if Dispatch(s, dir, m, actor, now).value != s {
          TickMoves(s.db, s.db.(clock := now), Dispatch(s, dir, m, actor, now).value.db, now, j);
        }
      }
    case CallOff(m, actor) =>
      if IsSubject(s.db.rows, m) && IsOrganizer(dir, s.db.rows[m], actor) {
        var db := s.db.(clock := now);
        LaterKeepsWf(s.db, db);
        CalledOffTick(s.(db := db), dir, m, s.db.rows[m], s.db.rows[m].attendees, now);
        TickMoves(s.db, db, Next(s, dir, move, now).db, now, j);
      }
    case Answer(m, email, partstat) =>
      if Reply(s.db, m, email, partstat, now).Ok? {
        ReplyMoves(s.db, m, email, partstat, now, j);
      }
    case Refuse(c, actor) =>
      if Decline(s.db, dir, c, actor, now).Ok? {
        DeclineMoves(s.db, dir, c, actor, now, j);
      }
    case Edit(op) => EditMoves(s.db, op, now, j);
  }

  predicate OwnMaster(rows: Rows, j: Id) { IsMaster(rows, j) && rows[j].origin == None }

  predicate Standing(rows: Rows, j: Id, q: int, t: int, unseen: bool) {
    OwnMaster(rows, j) && if unseen then Tagged(rows[j], q, t) else Spoiled(rows[j], q, t)
  }

  lemma {:induction false} RunStands(s: Sched, dir: Directory, turns: seq<Turn>, j: Id, q: int, t: int, unseen: bool)
    requires LooseInv(s) && Playable(s, dir, turns) && Standing(s.db.rows, j, q, t, unseen)
    ensures var b := Played(s, dir, turns);
            LooseInv(b) && Standing(b.db.rows, j, q, t, unseen && UnseenTurns(s, dir, turns, j, t))
    decreases |turns|
  {
    hide LooseInv, Next, NotWritten, Restamps, Standing;
    if turns != [] {
      var n := Next(s, dir, turns[0].move, turns[0].now);
      NextLoose(s, dir, turns[0].move, turns[0].now);
      StepStands(s, dir, turns[0].move, turns[0].now, j, q, t, unseen);
      RunStands(n, dir, turns[1..], j, q, t,
        unseen && (NotWritten(s.db, n.db, j) || (Restamps(s.db, turns[0].move, j) && turns[0].now == t)));
    }
  }

  lemma StepStands(s: Sched, dir: Directory, move: Move, now: int, j: Id, q: int, t: int, unseen: bool)
    requires LooseInv(s) && Possible(s, move, now) && Standing(s.db.rows, j, q, t, unseen)
    ensures var n := Next(s, dir, move, now);
            Standing(n.db.rows, j, q, t,
              unseen && (NotWritten(s.db, n.db, j) || (Restamps(s.db, move, j) && now == t)))
  {
    hide LooseInv, Next, NotWritten, Restamps, Tagged, Spoiled, Superseded;
    var n := Next(s, dir, move, now);
    var (logged, restamped) := (!NotWritten(s.db, n.db, j), Restamps(s.db, move, j));
    NextMoves(s, dir, move, now, j);
    LooseWf(s);
    ClockBounds(s.db, j);
    MasterMoved(s.db.rows[j], n.db.rows[j], q, t, now, logged, restamped);
  }

  /** The same for an organizer's own resource, in terms of the turns alone: it passes exactly
    * if every turn that logged j was an edit of one of its overrides, a reply or a decline
    * in the very millisecond of the etag. */
  lemma UnseenTurnsExactly(s: Sched, dir: Directory, turns: seq<Turn>, cal: Cal, href: Name, j: Id)
    requires LooseInv(s) && Playable(s, dir, turns) && ServedAt(s.db.rows, cal, href, j)
    requires s.db.rows[j].origin == None && ServedAt(Played(s, dir, turns).db.rows, cal, href, j)
    ensures var b := Played(s, dir, turns).db; var row := s.db.rows[j];
            MeetsPrecondition(b.rows, AtHref(b.rows, cal, href), MatchEtag(row.etag)) <==>
            UnseenTurns(s, dir, turns, j, row.updatedAt)
  {
    hide LooseInv, Playable, Played, UnseenTurns, TakenOver;
    var row := s.db.rows[j];
    LooseWf(s);
    MasterEtag(s.db, j);
    RunStands(s, dir, turns, j, row.sequence, row.updatedAt, true);
    LooseWf(Played(s, dir, turns));
    TagDecides(row, Played(s, dir, turns).db, cal, href, j);
    TagOrSpoiled(Played(s, dir, turns).db.rows[j], row.sequence, row.updatedAt);
  }

  // ----- no lost update -----

  lemma UnloggedIsSame(s: Sched, dir: Directory, turns: seq<Turn>, j: Id)
    requires LooseInv(s) && Playable(s, dir, turns) && NeverMissed(s, dir, turns)
    requires NotWritten(s.db, Played(s, dir, turns).db, j)
    ensures Resource(Played(s, dir, turns).db.rows, j) == Resource(s.db.rows, j)
  {
    hide LooseInv, Playable, Played, NeverMissed, Resource;
    RunJournalComplete(s, dir, turns, j);
  }

  /** No lost update with scheduling: after a run without missed moves a PUT holding the
    * captured etag commits only onto the very resource it was captured from, unchanged. */
  lemma NoLostUpdateOverRuns(s: Sched, dir: Directory, turns: seq<Turn>, j: Id, p: Put, now: int)
    requires LooseInv(s) && Playable(s, dir, turns) && NeverMissed(s, dir, turns)
    requires ServedAt(s.db.rows, p.cal, p.href, j)
    requires AllLater(turns, s.db.rows[j].updatedAt)
    requires WellFormedPut(p) && p.pre == MatchEtag(s.db.rows[j].etag) && PutTx(Played(s, dir, turns).db, p, now).Ok?
    ensures var b := Played(s, dir, turns).db;
            && NotWritten(s.db, b, j) && Resource(b.rows, j) == Resource(s.db.rows, j)
            && PutTx(b, p, now).value.1 == j && !PutTx(b, p, now).value.2
  {
    hide LooseInv, Playable, Played, NeverMissed, Resource, WithOverrides, WithoutOverrides, WellFormedPut, Fits,
      ReplacedMaster,
      NotWritten, AllLater;
    MatchEtagOverRuns(s, dir, turns, p.cal, p.href, j);
    UnloggedIsSame(s, dir, turns, j);
  }

  /** What a conditional PUT can lose over such runs, whatever the clock did: it commits over j
    * only if all that was logged of j was logged in the captured millisecond, and over an
    * organizer's resource only if that was edits of its overrides, replies and declines. */
  lemma NoLostUpdateAnyClock(s: Sched, dir: Directory, turns: seq<Turn>, j: Id, p: Put, now: int)
    requires LooseInv(s) && Playable(s, dir, turns) && ServedAt(s.db.rows, p.cal, p.href, j)
    requires WellFormedPut(p) && p.pre == MatchEtag(s.db.rows[j].etag) && PutTx(Played(s, dir, turns).db, p, now).Ok?
    ensures var b := Played(s, dir, turns).db; var row := s.db.rows[j];
            var (_, m, created) := PutTx(b, p, now).value;
            && !created && ServedAt(b.rows, p.cal, p.href, m)
            && (m == j ==> LoggedOnlyAt(s, dir, turns, j, row.updatedAt) && b.rows[j].sequence == row.sequence)
            && (m == j && row.origin == None ==> UnseenTurns(s, dir, turns, j, row.updatedAt))
            && (m != j ==> TakenOver(row, b.rows, p.cal, p.href, j))
  {
    hide LooseInv, Playable, Played, LoggedOnlyAt, UnseenTurns, TakenOver;
    hide Wf, WithOverrides, WithoutOverrides, Fits, ReplacedMaster;
    var b := Played(s, dir, turns).db;
    MatchEtagAnyClock(s, dir, turns, p.cal, p.href, j);
    RunKeepsLoose(s, dir, turns);
    LooseWf(Played(s, dir, turns));
    var m := PutTx(b, p, now).value.1;
    if ServedAt(b.rows, p.cal, p.href, j) {
      OneResourcePerName(b, p.cal, p.href, m, j);
      if s.db.rows[j].origin == None {
        UnseenTurnsExactly(s, dir, turns, p.cal, p.href, j);
      }
    }
  }
}
