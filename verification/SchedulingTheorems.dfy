/** What holds after every run of scheduling moves and edits. */
module SchedulingTheorems {
  import opened Wrappers
  import opened EventRows
  import opened EventSpec
  import opened EventEffects
  import opened EventPut
  import opened EventRuns
  import opened Scheduling
  import opened SchedulingCopies
  import opened SchedulingMessages
  import opened SchedulingDispatch
  import opened SchedulingCommits
  import opened SchedulingEdits
  import opened SchedulingRuns
  import opened SchedulingLoose

  datatype Turn = Turn(move: Move, now: int)

  /** A run: every move is possible when it is reached. */
  ghost predicate Playable(s: Sched, dir: Directory, turns: seq<Turn>)
    decreases |turns|
  {
    turns == [] ||
    (Possible(s, turns[0].move, turns[0].now) && Playable(Next(s, dir, turns[0].move, turns[0].now), dir, turns[1..]))
  }

  ghost function Played(s: Sched, dir: Directory, turns: seq<Turn>): Sched
    requires Playable(s, dir, turns)
    decreases |turns|
  {
    if turns == [] then s else Played(Next(s, dir, turns[0].move, turns[0].now), dir, turns[1..])
  }

  /** No edit of the run takes a delivered override away from its copies. */
  ghost predicate KeepsCopies(s: Sched, dir: Directory, turns: seq<Turn>)
    requires Playable(s, dir, turns)
    decreases |turns|
  {
    turns == [] ||
    (Allowed(s, turns[0].move, turns[0].now) && KeepsCopies(Next(s, dir, turns[0].move, turns[0].now), dir, turns[1..]))
  }

  /** Over every run that keeps copies: etags agree, copies keep their structure, REQUEST
    * sequences strictly increase and never pass their subject's. */
  lemma {:induction false} RunKeepsInv(s: Sched, dir: Directory, turns: seq<Turn>)
    requires Inv(s) && Playable(s, dir, turns) && KeepsCopies(s, dir, turns)
    ensures Inv(Played(s, dir, turns))
    decreases |turns|
  {
    hide Inv, Next, Possible, LeavesCopies;
    if turns != [] {
      NextKeeps(s, dir, turns[0].move, turns[0].now);
      RunKeepsInv(Next(s, dir, turns[0].move, turns[0].now), dir, turns[1..]);
    }
  }

  /** Over every run: etags agree and the message log is in order. */
  lemma {:induction false} RunKeepsLoose(s: Sched, dir: Directory, turns: seq<Turn>)
    requires LooseInv(s) && Playable(s, dir, turns)
    ensures LooseInv(Played(s, dir, turns))
    decreases |turns|
  {
    hide LooseInv, Next, Possible;
    if turns != [] {
      NextLoose(s, dir, turns[0].move, turns[0].now);
      RunKeepsLoose(Next(s, dir, turns[0].move, turns[0].now), dir, turns[1..]);
    }
  }

  /** After any run and a committed dispatch by the organizer, every external attendee
    * has been sent the subject's current sequence. */
  lemma ExternalsUpToDate(s: Sched, dir: Directory, turns: seq<Turn>, m: Id, actor: User, now: int, email: string)
    requires LooseInv(s) && Playable(s, dir, turns)
    requires var t := Played(s, dir, turns);
             && Dispatch(t, dir, m, actor, now).Ok? && IsOrganizer(dir, t.db.rows[m], actor)
             && IsExternal(dir, t.db.rows[m], t.db.rows[m].attendees, email)
    ensures var t := Played(s, dir, turns);
            Message(m, email, Request, t.db.rows[m].sequence) in Dispatch(t, dir, m, actor, now).value.messages
  {
    hide Wf, Linked, RequestsRise, Playable, Played, Dispatch, Outbox, IsExternal;
    RunKeepsLoose(s, dir, turns);
    var t := Played(s, dir, turns);
    CommittedDispatch(t, dir, m, actor, now);
    forall k | 0 <= k < |t.messages| && t.messages[k].subject == m
      ensures t.messages[k].sequence <= t.db.rows[m].sequence
    {
      assert t.messages[k] in t.messages;
    }
    ExternalsAsked(t.messages, dir, m, t.db.rows[m], email);
  }

  // ----- replies survive -----

  predicate OnlySends(turns: seq<Turn>) { forall k | 0 <= k < |turns| :: turns[k].move.Send? }

  /** Any number of dispatches, of any subjects by any actors, write no organizer's row. */
  lemma {:induction false} SendsLeaveOrigins(s: Sched, dir: Directory, turns: seq<Turn>)
    requires Inv(s) && Playable(s, dir, turns) && OnlySends(turns)
    ensures var t := Played(s, dir, turns); Inv(t) && Kept(s.db.rows, t.db.rows) && OriginsKept(s.db.rows, t.db.rows)
    decreases |turns|
  {
    hide Inv, Kept, OriginsKept, Dispatch;
    NothingKept(s.db.rows);
    if turns != [] {
      var t := Next(s, dir, turns[0].move, turns[0].now);
      NextKeeps(s, dir, turns[0].move, turns[0].now);
      SendLeavesOrigins(s, dir, turns[0].move.subject, turns[0].move.actor, turns[0].now);
      SendsLeaveOrigins(t, dir, turns[1..]);
      KeptTransitive(s.db.rows, t.db.rows, Played(s, dir, turns).db.rows);
      OriginsKeptTransitive(s.db.rows, t.db.rows, Played(s, dir, turns).db.rows);
    }
  }

  lemma SendLeavesOrigins(s: Sched, dir: Directory, m: Id, actor: User, now: int)
    requires Inv(s) && s.db.clock <= now
    ensures var t := Committed(Dispatch(s, dir, m, actor, now), s);
            Kept(s.db.rows, t.db.rows) && OriginsKept(s.db.rows, t.db.rows)
  {
    hide Kept, OriginsKept, Dispatch, Wf, Structure, MessagesBound, RequestsRise;
    NothingKept(s.db.rows);
    if Dispatch(s, dir, m, actor, now).Ok? {
      DispatchKeeps(s, dir, m, actor, now);
    }
  }

  /** A PARTSTAT set by reply is still on the origin after any number of dispatches, and
    * on the copy every dispatch of that subject rebuilds. */
  lemma ReplySurvives(s: Sched, dir: Directory, m: Id, email: string, partstat: string, at: int, turns: seq<Turn>,
      r: Sched, t: Sched, actor: User, now: int, a: Attendee) returns (c: Id)
    requires Inv(s) && s.db.clock <= at && Reply(s.db, m, email, partstat, at) == Ok(r.db) && r.messages == s.messages
    requires Playable(r, dir, turns) && OnlySends(turns) && t == Played(r, dir, turns)
    requires t.db.clock <= now && Dispatch(t, dir, m, actor, now).Ok? && IsOrganizer(dir, t.db.rows[m], actor)
    requires a in t.db.rows[m].attendees && RecipientOf(dir, a, t.db.rows[m].body.organizerEmail).Local?
    ensures m in s.db.rows && m in t.db.rows && t.db.rows[m] == RepliedRow(s.db.rows[m], email, partstat, at)
    ensures var rows := Dispatch(t, dir, m, actor, now).value.db.rows;
            && IsLiveCopy(rows, m, RecipientOf(dir, a, t.db.rows[m].body.organizerEmail).cal, c)
            && rows[c].attendees == Answered(s.db.rows[m].attendees, email, partstat)
  {
    hide Wf, Structure, MessagesBound, RequestsRise, Playable, Played, Dispatch, Reply, Kept, RecipientOf, IsOrganizer,
      Answered, AllOwnersInvited, LiveOverrides, Mirrors, HasMirror;
    AnswerKeeps(s, m, email, partstat, at);
    ReplyExactly(s.db, m, email, partstat, at);
    SendsLeaveOrigins(r, dir, turns);
    RepliedKeepsOrigin(s.db.rows[m], email, partstat, at);
    RepliedAttendees(s.db.rows[m], email, partstat, at);
    c := DispatchMirrors(t, dir, m, actor, now, a);
  }

  lemma RepliedKeepsOrigin(row: Row, email: string, partstat: string, now: int)
    ensures RepliedRow(row, email, partstat, now).origin == row.origin
  {
  }

  lemma RepliedAttendees(row: Row, email: string, partstat: string, now: int)
    ensures RepliedRow(row, email, partstat, now).attendees == Answered(row.attendees, email, partstat)
  {
  }

  // ----- declines -----

  /** Equal but for etag, update time and PARTSTATs. */
  predicate SameButAnswers(row: Row, row': Row) {
    && row' == row.(etag := row'.etag, updatedAt := row'.updatedAt, attendees := row'.attendees)
    && |row'.attendees| == |row.attendees|
    && forall i | 0 <= i < |row.attendees| ::
         row'.attendees[i] == row.attendees[i].(partstat := row'.attendees[i].partstat)
  }

  lemma RepliedIsSame(row: Row, email: string, partstat: string, now: int)
    ensures SameButAnswers(row, RepliedRow(row, email, partstat, now))
    ensures RepliedRow(row, email, partstat, now).live == row.live
  {
  }

  /** What a decline leaves: the copy deleted in its place, the origin but for its
    * answers, and at most one journal entry, for the origin's master. */
  lemma DeclineExactly(db: Db, dir: Directory, c: Id, user: User, now: int)
    requires Wf(db) && Structure(db.rows) && db.clock <= now
    requires c in db.rows && db.rows[c].live && db.rows[c].origin.Some? && user in Owners(dir, db.rows[c].cal)
    ensures Decline(db, dir, c, user, now).Ok?
    ensures var d := Decline(db, dir, c, user, now).value; var o := db.rows[c].origin.value;
            && c in d.rows && !d.rows[c].live && SameKeys(db.rows[c], d.rows[c])
            && o in db.rows && o in d.rows && SameButAnswers(db.rows[o], d.rows[o]) && d.clock == now
            && db.log <= d.log && (forall k | |db.log| <= k < |d.log| :: d.log[k].id == db.rows[o].master.GetOr(o))
            && (db.rows[o].live && EmailFor(dir, db.rows[o].attendees, user).Some? ==>
                  d.rows[o] == RepliedRow(db.rows[o], EmailFor(dir, db.rows[o].attendees, user).value, "DECLINED", now))
  {
    hide Wf, Structure, Reply, EmailFor, Owners, Answered, Touched;
    SameRid(db.rows, db.rows[c].origin.value, c);
    var o := db.rows[c].origin.value;
    var email := EmailFor(dir, db.rows[o].attendees, user);
    if email.Some? {
      ReplyAccepted(db, o, email.value, "DECLINED", now);
    }
    if email.Some? && Reply(db, o, email.value, "DECLINED", now).Ok? {
      ReplyExactly(db, o, email.value, "DECLINED", now);
      RepliedIsSame(db.rows[o], email.value, "DECLINED", now);
      TouchedRow(db.rows[c], now);
    }
  }

  /** The address a user replies under: of an attendee row linked to the user or carrying
    * the user's address; none if there is no such row. */
  lemma {:induction false} EmailForExact(dir: Directory, atts: seq<Attendee>, u: User)
    ensures match EmailFor(dir, atts, u)
      case Some(e) =>
        u in dir.emailOf
        && exists k | 0 <= k < |atts| :: atts[k].email == Some(e) && (atts[k].user == Some(u) || e == dir.emailOf[u])
      case None =>
        u in dir.emailOf ==>
          forall k | 0 <= k < |atts| ::
            atts[k].email == None || (atts[k].user != Some(u) && atts[k].email != Some(dir.emailOf[u]))
    decreases |atts|
  {
    if u in dir.emailOf && atts != [] && !Identity(dir, atts[0], u) {
      EmailForExact(dir, atts[1..], u);
      match EmailFor(dir, atts[1..], u)
      case Some(e) =>
        var k :| 0 <= k < |atts[1..]| && atts[1..][k].email == Some(e)
              && (atts[1..][k].user == Some(u) || e == dir.emailOf[u]);
        assert atts[k + 1] == atts[1..][k];
      case None =>
        forall k | 0 <= k < |atts|
          ensures atts[k].email == None || (atts[k].user != Some(u) && atts[k].email != Some(dir.emailOf[u]))
        {
          assert k == 0 || atts[k] == atts[1..][k - 1];
        }
    }
  }

  lemma SameRecipient(dir: Directory, a: Attendee, b: Attendee, organizer: string)
    requires b == a.(partstat := b.partstat)
    ensures RecipientOf(dir, b, organizer) == RecipientOf(dir, a, organizer)
  {
  }

  /** A declined copy blocks: once an owner has declined an up-to-date copy, every
    * dispatch by the organizer fails while that attendee stays on the list. */
  lemma DeclineBlocksDispatch(s: Sched, dir: Directory, c: Id, m: Id, cal: Cal, user: User, at: int, actor: User,
      now: int,
      a: Attendee)
    requires Inv(s) && s.db.clock <= at <= now && IsLiveCopy(s.db.rows, m, cal, c) && user in Owners(dir, cal)
    requires m in s.db.rows && s.db.rows[m].live && s.db.rows[c].uid == s.db.rows[m].uid
    requires IsOrganizer(dir, s.db.rows[m], actor) && a in s.db.rows[m].attendees
    requires var r := RecipientOf(dir, a, s.db.rows[m].body.organizerEmail); r.Local? && r.cal == cal
    ensures Decline(s.db, dir, c, user, at).Ok?
    ensures Dispatch(s.(db := Decline(s.db, dir, c, user, at).value), dir, m, actor, now) == Err(Database)
  {
    hide Wf, Structure, MessagesBound, RequestsRise, Dispatch, Decline, RecipientOf;
    SameRid(s.db.rows, m, c);
    DeclineExactly(s.db, dir, c, user, at);
    RefuseKeeps(s, dir, c, user, at);
    var t := s.(db := Decline(s.db, dir, c, user, at).value);
    var i :| 0 <= i < |s.db.rows[m].attendees| && s.db.rows[m].attendees[i] == a;
    var b := t.db.rows[m].attendees[i];
    assert b in t.db.rows[m].attendees;
    SameRecipient(dir, a, b, s.db.rows[m].body.organizerEmail);
    BlockedDispatch(t, dir, m, actor, now, b, m, c);
  }

  /** Every row after a decline: the copy deleted, one PARTSTAT and one update time apart
    * from that nothing is different. */
  predicate DeclinedRows(rows: Rows, rows': Rows, c: Id) {
    && rows'.Keys == rows.Keys
    && forall i | i in rows ::
         && rows'[i].live == (rows[i].live && i != c) && SameButAnswers(rows[i], rows'[i].(live := rows[i].live))
  }

  lemma DeclineRows(db: Db, dir: Directory, c: Id, user: User, now: int)
    requires Wf(db) && Structure(db.rows) && db.clock <= now
    requires c in db.rows && db.rows[c].live && db.rows[c].origin.Some? && user in Owners(dir, db.rows[c].cal)
    ensures Decline(db, dir, c, user, now).Ok? && DeclinedRows(db.rows, Decline(db, dir, c, user, now).value.rows, c)
  {
    hide Wf, Structure, Reply, EmailFor, Owners, Answered, Touched, SameButAnswers;
    SameRid(db.rows, db.rows[c].origin.value, c);
    var o := db.rows[c].origin.value;
    var email := EmailFor(dir, db.rows[o].attendees, user);
    var d := Decline(db, dir, c, user, now).value;
    forall i | i in db.rows ensures SameButAnswers(db.rows[i], db.rows[i]) {
      NoAnswer(db.rows[i], now);
    }
    if email.Some? && Reply(db, o, email.value, "DECLINED", now).Ok? {
      ReplyExactly(db, o, email.value, "DECLINED", now);
      var e := Reply(db, o, email.value, "DECLINED", now).value;
      forall i | i in db.rows ensures e.rows[i].live == db.rows[i].live && SameButAnswers(db.rows[i], e.rows[i]) {
        NoAnswer(db.rows[i], now);
        RepliedIsSame(db.rows[i], email.value, "DECLINED", now);
      }
      BuriedIsSame(db.rows, e.rows, c);
      assert d.rows == e.rows[c := e.rows[c].(live := false)];
    } else {
      BuriedIsSame(db.rows, db.rows, c);
      assert d.rows == db.rows[c := db.rows[c].(live := false)];
    }
  }

  lemma BuriedIsSame(rows: Rows, rows': Rows, c: Id)
    requires c in rows && rows'.Keys == rows.Keys
    requires forall i | i in rows :: rows'[i].live == rows[i].live && SameButAnswers(rows[i], rows'[i])
    ensures DeclinedRows(rows, rows'[c := rows'[c].(live := false)], c)
  {
    hide SameButAnswers;
    var rows'' := rows'[c := rows'[c].(live := false)];
    forall i | i in rows
      ensures rows''[i].live == (rows[i].live && i != c) && SameButAnswers(rows[i], rows''[i].(live := rows[i].live))
    {
      assert rows''[i].(live := rows[i].live) == rows'[i];
    }
  }

  lemma NoAnswer(row: Row, now: int)
    ensures SameButAnswers(row, row) && SameButAnswers(row, Touched(row, now)) && Touched(row, now).live == row.live
  {
  }

  /** The declined copy is the one a dispatch of m would reuse for a local attendee. */
  ghost predicate Needed(rows: Rows, dir: Directory, m: Id, c: Id)
    requires m in rows && c in rows && rows[c].origin.Some? && rows[c].origin.value in rows
  {
    var organizer := rows[m].body.organizerEmail;
    && InSeries(rows, m, rows[c].origin.value) && rows[c].uid == rows[rows[c].origin.value].uid
    && exists a :: a in rows[m].attendees && RecipientOf(dir, a, organizer).Local?
                && RecipientOf(dir, a, organizer).cal == rows[c].cal
  }

  lemma DeclineClock(db: Db, dir: Directory, c: Id, user: User, now: int)
    requires Wf(db) && Structure(db.rows) && db.clock <= now && Decline(db, dir, c, user, now).Ok?
    ensures var d := Decline(db, dir, c, user, now).value; d.clock <= now && d.ctag.Keys == db.ctag.Keys
  {
    hide Wf, Structure, EmailFor, Owners, Answered;
  }

  lemma DeclinedSubject(rows: Rows, rows': Rows, dir: Directory, m: Id, c: Id, actor: User)
    requires Structure(rows) && IsSubject(rows, m) && DeclinedRows(rows, rows', c)
    requires c in rows && rows[c].origin.Some?
    ensures IsSubject(rows', m) && rows'[m].live == rows[m].live
    ensures IsOrganizer(dir, rows'[m], actor) <==> IsOrganizer(dir, rows[m], actor)
    ensures LiveOverrides(rows', m) == LiveOverrides(rows, m)
    ensures OneSeriesUid(rows, m) ==> OneSeriesUid(rows', m)
  {
    hide Structure, Listed;
    NoCopyUnderOrigin(rows, m);
    assert OverrideSet(rows', m) == OverrideSet(rows, m);
    assert LiveOverrides(rows', m) == LiveOverrides(rows, m);
  }

  /** In cal only the loss of r's own current copy closes its place. */
  lemma DeclineOpen(rows: Rows, rows': Rows, c: Id, r: Id, cal: Cal)
    requires Structure(rows) && DeclinedRows(rows, rows', c) && r in rows && c in rows && rows[c].origin.Some?
    requires Open(rows, r, cal)
    ensures Open(rows', r, cal) <==> !(rows[c].origin == Some(r) && rows[c].cal == cal && rows[c].uid == rows[r].uid)
  {
    hide OneLive;
    assert CopyOk(rows, c);
    forall x | x in rows
      ensures HoldsKey(rows', r, cal, x) <==> HoldsKey(rows, r, cal, x)
      ensures IsLiveCopy(rows', r, cal, x) <==> IsLiveCopy(rows, r, cal, x) && x != c
    {
      assert SameButAnswers(rows[x], rows'[x].(live := rows[x].live));
      assert SameButAnswers(rows[r], rows'[r].(live := rows[r].live));
    }
    assert HoldsKey(rows, r, cal, c) ==> IsLiveCopy(rows, r, cal, c);
    if rows[c].origin == Some(r) && rows[c].cal == cal && rows[c].uid == rows[r].uid {
      assert HoldsKey(rows, r, cal, c);
      assert !IsLiveCopy(rows', r, cal, c);
    }
  }

  lemma DeclinedRecipients(rows: Rows, rows': Rows, dir: Directory, m: Id, c: Id)
    requires m in rows && DeclinedRows(rows, rows', c)
    ensures m in rows' && rows'[m].body.organizerEmail == rows[m].body.organizerEmail
    ensures var (was, now, organizer) := (rows[m].attendees, rows'[m].attendees, rows[m].body.organizerEmail);
            |now| == |was| && forall i | 0 <= i < |was| ::
              RecipientOf(dir, now[i], organizer) == RecipientOf(dir, was[i], organizer)
  {
    hide RecipientOf;
    assert SameButAnswers(rows[m], rows'[m].(live := rows[m].live));
    forall i | 0 <= i < |rows[m].attendees|
      ensures RecipientOf(dir, rows'[m].attendees[i], rows[m].body.organizerEmail)
           == RecipientOf(dir, rows[m].attendees[i], rows[m].body.organizerEmail)
    {
      SameRecipient(dir, rows[m].attendees[i], rows'[m].attendees[i], rows[m].body.organizerEmail);
    }
  }

  lemma NeededObstructs(rows: Rows, rows': Rows, dir: Directory, m: Id, c: Id)
    requires Structure(rows) && m in rows && DeclinedRows(rows, rows', c)
    requires c in rows && rows[c].origin.Some? && rows[c].origin.value in rows
    requires LiveOverrides(rows', m) == LiveOverrides(rows, m) && Needed(rows, dir, m, c)
    requires Unobstructed(rows, dir, m, rows[m].body.organizerEmail, rows[m].attendees)
    ensures !Unobstructed(rows', dir, m, rows'[m].body.organizerEmail, rows'[m].attendees)
  {
    hide Structure, RecipientOf, LiveOverrides, DeclinedRows, Open, Unobstructed;
    DeclinedRecipients(rows, rows', dir, m, c);
    NeededOpen(rows, dir, m, c);
    var organizer := rows[m].body.organizerEmail;
    var o := rows[c].origin.value;
    var a :| a in rows[m].attendees && RecipientOf(dir, a, organizer).Local?
      && RecipientOf(dir, a, organizer).cal == rows[c].cal;
    var i :| 0 <= i < |rows[m].attendees| && rows[m].attendees[i] == a;
    DeclineOpen(rows, rows', c, o, rows[c].cal);
    ObstructedAt(rows', dir, m, organizer, rows'[m].attendees, i, o);
  }

  lemma NeededOpen(rows: Rows, dir: Directory, m: Id, c: Id)
    requires m in rows && c in rows && rows[c].origin.Some? && rows[c].origin.value in rows
    requires Unobstructed(rows, dir, m, rows[m].body.organizerEmail, rows[m].attendees) && Needed(rows, dir, m, c)
    ensures Open(rows, rows[c].origin.value, rows[c].cal)
  {
    hide RecipientOf, Open, InSeries;
  }

  lemma ObstructedAt(rows: Rows, dir: Directory, m: Id, organizer: string, atts: seq<Attendee>, i: nat, r: Id)
    requires i < |atts| && RecipientOf(dir, atts[i], organizer).Local? && InSeries(rows, m, r)
    requires !Open(rows, r, RecipientOf(dir, atts[i], organizer).cal)
    ensures !Unobstructed(rows, dir, m, organizer, atts)
  {
    hide RecipientOf, Open, InSeries;
    assert atts[i] in atts;
  }

  lemma NotNeededStaysOpen(rows: Rows, rows': Rows, dir: Directory, m: Id, c: Id)
    requires Structure(rows) && m in rows && DeclinedRows(rows, rows', c)
    requires c in rows && rows[c].origin.Some? && rows[c].origin.value in rows
    requires LiveOverrides(rows', m) == LiveOverrides(rows, m) && !Needed(rows, dir, m, c)
    requires forall r | InSeries(rows, m, r) :: r in rows
    requires Unobstructed(rows, dir, m, rows[m].body.organizerEmail, rows[m].attendees)
    ensures Unobstructed(rows', dir, m, rows'[m].body.organizerEmail, rows'[m].attendees)
  {
    hide Structure, RecipientOf, LiveOverrides, DeclinedRows, Open;
    DeclinedRecipients(rows, rows', dir, m, c);
    var organizer := rows[m].body.organizerEmail;
    forall b, r | b in rows'[m].attendees && RecipientOf(dir, b, organizer).Local? && InSeries(rows', m, r)
      ensures Open(rows', r, RecipientOf(dir, b, organizer).cal)
    {
      var i :| 0 <= i < |rows'[m].attendees| && rows'[m].attendees[i] == b;
      var a := rows[m].attendees[i];
      assert a in rows[m].attendees;
      assert InSeries(rows, m, r);
      DeclineOpen(rows, rows', c, r, RecipientOf(dir, b, organizer).cal);
    }
  }

  /** Where a dispatch of m would have committed, one after a decline commits exactly unless
    * the declined copy is up to date in its UID, was delivered from m or a live override of
    * it, and lies in a local attendee's collection. */
  lemma DispatchAfterDecline(s: Sched, dir: Directory, c: Id, user: User, at: int, m: Id, actor: User, now: int)
    requires Wf(s.db) && Structure(s.db.rows) && s.db.clock <= at <= now && HomesExist(dir, s.db)
    requires c in s.db.rows && s.db.rows[c].live && s.db.rows[c].origin.Some? && user in Owners(dir, s.db.rows[c].cal)
    requires IsSubject(s.db.rows, m) && IsOrganizer(dir, s.db.rows[m], actor) && OneSeriesUid(s.db.rows, m)
    requires Dispatch(s, dir, m, actor, now).Ok?
    ensures s.db.rows[c].origin.value in s.db.rows && Decline(s.db, dir, c, user, at).Ok?
    ensures Dispatch(s.(db := Decline(s.db, dir, c, user, at).value), dir, m, actor, now).Ok?
       <==> !Needed(s.db.rows, dir, m, c)
  {
    hide Wf, Structure, Dispatch, Decline, RecipientOf, IsOrganizer, Unobstructed, LiveOverrides, Needed, OneSeriesUid;
    SameRid(s.db.rows, s.db.rows[c].origin.value, c);
    DeclineRows(s.db, dir, c, user, at);
    DeclineKeeps(s.db, dir, c, user, at);
    DeclineClock(s.db, dir, c, user, at);
    var t := s.(db := Decline(s.db, dir, c, user, at).value);
    DeclinedSubject(s.db.rows, t.db.rows, dir, m, c, actor);
    DispatchCommitsExactly(s, dir, m, actor, now);
    DispatchCommitsExactly(t, dir, m, actor, now);
    forall r | InSeries(s.db.rows, m, r) ensures r in s.db.rows {
      SeriesListed(s.db.rows, m, r);
    }
    if Needed(s.db.rows, dir, m, c) {
      NeededObstructs(s.db.rows, t.db.rows, dir, m, c);
    } else {
      NotNeededStaysOpen(s.db.rows, t.db.rows, dir, m, c);
    }
  }

  lemma SeriesListed(rows: Rows, m: Id, r: Id)
    requires m in rows && InSeries(rows, m, r)
    ensures r in rows
  {
  }

  /** A decline takes the copy away from its calendar without a journal entry for it. */
  lemma DeclineIsNotJournalled(db: Db, dir: Directory, c: Id, user: User, now: int)
    requires Wf(db) && Structure(db.rows) && db.clock <= now
    requires c in db.rows && db.rows[c].live && db.rows[c].origin.Some? && user in Owners(dir, db.rows[c].cal)
    requires db.rows[c].origin.value in db.rows && db.rows[db.rows[c].origin.value].master == None
    ensures var d := Decline(db, dir, c, user, now).value;
            Resource(db.rows, c).Some? && Resource(d.rows, c) == None && !LoggedBetween(db, d, c)
  {
    hide Wf, Structure, Decline, SameButAnswers;
    SameRid(db.rows, db.rows[c].origin.value, c);
    CopyOfMaster(db.rows, db.rows[c].origin.value, c);
    DeclineExactly(db, dir, c, user, now);
  }

  // ----- puts over delivered overrides -----

  /** A PUT of a series whose delivered override it stores again blocks every later
    * dispatch: the old copy loses its origin but keeps its place. */
  lemma PutBlocksDispatch(s: Sched, dir: Directory, p: Put, at: int, t: Sched, m: Id, created: bool, k: nat, o: Id,
      cal: Cal,
      c: Id, actor: User, now: int, a: Attendee)
    requires Inv(s) && Allowed(s, Edit(PutSeries(p)), at) && t == Next(s, dir, Edit(PutSeries(p)), at) && at <= now
    requires PutTx(s.db, p, at) == Ok((t.db, m, created)) && k < |p.ids|
    requires o in s.db.rows && OverrideOf(s.db.rows[o], m) && IsLiveCopy(s.db.rows, o, cal, c) && c !in p.ids && c != m
    requires s.db.rows[c].uid == p.master.uid && RidKey(s.db.rows[c].rid) == RidKey(p.overrides[k].rid)
    requires IsSubject(s.db.rows, m) && m in t.db.rows
    requires IsOrganizer(dir, t.db.rows[m], actor) && a in t.db.rows[m].attendees
    requires var r := RecipientOf(dir, a, t.db.rows[m].body.organizerEmail); r.Local? && r.cal == cal
    ensures Dispatch(t, dir, m, actor, now) == Err(Database)
  {
    hide Wf, Structure, MessagesBound, RequestsRise, Dispatch, PutTx, RecipientOf, IsOrganizer, LeavesCopies,
      Next, PutMaster, Stored;
    NextKeeps(s, dir, Edit(PutSeries(p)), at);
    PutStores(s.db, p, at);
    PutOrigins(s.db, p, at);
    NoOverrideCopies(s.db, m, c, o);
    AfterPut(s.db, t.db, p, m, at, k, o, c);
    BlockedDispatch(t, dir, m, actor, now, a, p.ids[k], c);
  }

  /** A copy is not itself an override of the subject its origin overrides. */
  lemma NoOverrideCopies(db: Db, m: Id, c: Id, o: Id)
    requires Structure(db.rows) && c in db.rows && db.rows[c].origin == Some(o) && o in db.rows
    requires OverrideOf(db.rows[o], m)
    requires IsSubject(db.rows, m)
    ensures !OverrideOf(db.rows[c], m)
  {
    assert CopyOk(db.rows, c);
  }

  lemma AfterPut(db: Db, d: Db, p: Put, m: Id, now: int, k: nat, o: Id, c: Id)
    requires WellFormedPut(p) && Stored(db, d, p, m, now) && k < |p.ids|
    requires c in db.rows && c != m && !OverrideOf(db.rows[c], m)
    requires db.rows[c].uid == p.master.uid && RidKey(db.rows[c].rid) == RidKey(p.overrides[k].rid)
    requires OriginsAfterPut(db.rows, d.rows, p, m) && IsSubject(db.rows, m) && c !in p.ids
    requires db.rows[c].origin == Some(o) && o in db.rows && OverrideOf(db.rows[o], m)
    ensures d.clock == now && IsSubject(d.rows, m) && d.rows[m].live
    ensures InSeries(d.rows, m, p.ids[k]) && HoldsKey(d.rows, p.ids[k], db.rows[c].cal, c) && Unwritten(d.rows, c)
  {
    hide Unique;
    assert Visible(d.rows[c]) == Visible(db.rows[c]);
  }
}
