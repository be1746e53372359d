/** Which scheduling moves the change journal misses, exactly, and its completeness over all
  * other runs. */
module SchedulingJournal {
  import opened Wrappers
  import opened EventRows
  import opened EventSpec
  import opened EventEffects
  import opened EventRuns
  import opened Scheduling
  import opened SchedulingCopies
  import opened SchedulingMessages
  import opened SchedulingDispatch
  import opened SchedulingCommits
  import opened SchedulingRows
  import opened SchedulingRuns
  import opened SchedulingLoose
  import opened SchedulingTheorems
  import opened SchedulingAttached

  /** Every resource that differs was logged in between. */
  ghost predicate Faithful(db: Db, d: Db) {
    forall j :: Resource(db.rows, j) != Resource(d.rows, j) ==> LoggedBetween(db, d, j)
  }

  // ----- resources, row by row -----

  /** What clients see of one row. */
  function Exposed(rows: Rows, i: Id): Option<Row> {
    if i in rows && rows[i].live then Some(Visible(rows[i])) else None
  }

  predicate Changed(rows: Rows, rows': Rows, i: Id) { Exposed(rows, i) != Exposed(rows', i) }

  /** The master j differs, or j is served and one of its overrides differs. */
  predicate Differs(rows: Rows, rows': Rows, j: Id) {
    && IsMaster(rows', j)
    && (Changed(rows, rows', j)
        || (rows'[j].live && exists i | i in rows' :: OverrideOf(rows'[i], j) && Changed(rows, rows', i)))
  }

  lemma ResourceDiffers(rows: Rows, rows': Rows, j: Id)
    requires Kept(rows, rows')
    ensures Resource(rows, j) != Resource(rows', j) <==> Differs(rows, rows', j)
  {
    hide SameIdentity;
    if j in rows {
      KeptRow(rows, rows', j);
    }
    if IsMaster(rows, j) && rows[j].live && IsMaster(rows', j) && rows'[j].live {
      PartsDiffer(rows, rows', j);
    }
  }

  lemma PartsDiffer(rows: Rows, rows': Rows, j: Id)
    requires Kept(rows, rows') && IsMaster(rows, j) && rows[j].live && IsMaster(rows', j) && rows'[j].live
    ensures PartsOf(rows, j) != PartsOf(rows', j) <==> Differs(rows, rows', j)
  {
    hide SameIdentity;
    var (before, after) := (PartsOf(rows, j), PartsOf(rows', j));
    forall i
      ensures i in before <==> PartOf(rows', i, j) && Exposed(rows, i).Some?
      ensures i in before ==> before[i] == Exposed(rows, i).value
      ensures i in after <==> PartOf(rows', i, j) && Exposed(rows', i).Some?
      ensures i in after ==> after[i] == Exposed(rows', i).value
    {
      if i in rows {
        KeptRow(rows, rows', i);
      }
    }
    if Differs(rows, rows', j) {
      var i :| i in rows' && PartOf(rows', i, j) && Changed(rows, rows', i);
      assert before != after;
    } else {
      forall i ensures (i in before <==> i in after) && (i in before ==> before[i] == after[i]) {
        assert PartOf(rows', i, j) ==> !Changed(rows, rows', i);
      }
      assert before == after;
    }
  }

  // ----- which resources are missed -----

  /** i is an override whose change its live master's log entries do not cover. */
  predicate Unheard(db: Db, d: Db, i: Id) {
    && i in d.rows && d.rows[i].master.Some? && Changed(db.rows, d.rows, i)
    && var p := d.rows[i].master.value; p in d.rows && d.rows[p].live && !Mentioned(db, d, p)
  }

  lemma MentionedIsLogged(db: Db, d: Db, j: Id)
    requires Records(db, d) && Wf(d) && IsMaster(d.rows, j)
    ensures LoggedBetween(db, d, j) <==> Mentioned(db, d, j)
  {
    hide Unique;
    assert RowOk(d, j);
    if Mentioned(db, d, j) {
      var k :| |db.log| <= k < |d.log| && d.log[k].id == j;
      assert EntryFor(d.rows, d.log[k], j);
    }
  }

  /** If every master that changes is logged, what is missed are the unheard overrides. */
  lemma FaithfulExactly(db: Db, d: Db)
    requires Wf(d) && Kept(db.rows, d.rows) && Records(db, d)
    requires forall i | IsMaster(d.rows, i) && Changed(db.rows, d.rows, i) :: Mentioned(db, d, i)
    ensures Faithful(db, d) <==> forall i :: !Unheard(db, d, i)
  {
    hide Wf, Kept, Records, Resource, LoggedBetween, Changed, Mentioned;
    if i :| Unheard(db, d, i) {
      var p := d.rows[i].master.value;
      MasterIsMaster(d, i);
      ResourceDiffers(db.rows, d.rows, p);
      MentionedIsLogged(db, d, p);
    } else {
      forall j | Resource(db.rows, j) != Resource(d.rows, j) ensures LoggedBetween(db, d, j) {
        ResourceDiffers(db.rows, d.rows, j);
        MentionedIsLogged(db, d, j);
        if !Mentioned(db, d, j) {
          UnheardPart(db, d, j);
        }
      }
    }
  }

  lemma UnheardPart(db: Db, d: Db, j: Id)
    requires forall i | IsMaster(d.rows, i) && Changed(db.rows, d.rows, i) :: Mentioned(db, d, i)
    requires Differs(db.rows, d.rows, j) && !Mentioned(db, d, j)
    ensures exists i :: Unheard(db, d, i)
  {
    hide Changed, Mentioned;
    var i :| i in d.rows && OverrideOf(d.rows[i], j) && Changed(db.rows, d.rows, i);
    assert Unheard(db, d, i);
  }

  lemma MasterIsMaster(d: Db, i: Id)
    requires Wf(d) && i in d.rows && d.rows[i].master.Some?
    ensures IsMaster(d.rows, d.rows[i].master.value) && d.rows[d.rows[i].master.value].cal == d.rows[i].cal
  {
    assert RowOk(d, i);
  }

  lemma NothingMissed(db: Db)
    ensures Faithful(db, db)
  {
  }

  // ----- dispatches -----

  /** A dispatch of m rewrites the override copy i and not the live copy it hangs under. */
  predicate SentUnheard(rows: Rows, dir: Directory, m: Id, now: int, i: Id) {
    && m in rows && i in rows && rows[i].live && rows[i].master.Some? && rows[i].master.value in rows
    && rows[rows[i].master.value].live
    && Rewritten(rows, dir, m, i) && !Rewritten(rows, dir, m, rows[i].master.value)
    && SentRow(rows, dir, m, now, i) != rows[i]
  }

  lemma UnwrittenStays(rows: Rows, dir: Directory, m: Id, now: int, i: Id)
    requires m in rows && i in rows && rows[m].live
    ensures !Rewritten(rows, dir, m, i) && rows[i].live ==> SentRow(rows, dir, m, now, i) == rows[i]
    ensures SentRow(rows, dir, m, now, i).origin == rows[i].origin
  {
    hide Homes, IsStray;
  }

  lemma SentFaithful(s: Sched, dir: Directory, m: Id, actor: User, now: int)
    requires Wf(s.db) && Structure(s.db.rows) && s.db.clock <= now && Dispatch(s, dir, m, actor, now).Ok?
    requires IsOrganizer(dir, s.db.rows[m], actor)
    ensures Faithful(s.db, Dispatch(s, dir, m, actor, now).value.db)
       <==> forall i :: !SentUnheard(s.db.rows, dir, m, now, i)
  {
    hide Wf, Structure, Dispatch, Kept, IsOrganizer, Records, NewCopies, Rewritten, SentRow, Homes, Faithful,
      Unheard, SentUnheard;
    SentNew(s, dir, m, actor, now);
    SentExactly(s, dir, m, actor, now, m);
    var d := Dispatch(s, dir, m, actor, now).value.db;
    forall i | IsMaster(d.rows, i) && Changed(s.db.rows, d.rows, i) ensures Mentioned(s.db, d, i) {
      SentChange(s, dir, m, actor, now, i);
    }
    FaithfulExactly(s.db, d);
    forall i ensures Unheard(s.db, d, i) <==> SentUnheard(s.db.rows, dir, m, now, i) {
      SentUnheardExactly(s, dir, m, actor, now, i);
    }
  }

  /** A row that changes is journalled. */
  lemma SentChange(s: Sched, dir: Directory, m: Id, actor: User, now: int, i: Id)
    requires Wf(s.db) && Structure(s.db.rows) && s.db.clock <= now && Dispatch(s, dir, m, actor, now).Ok?
    requires IsOrganizer(dir, s.db.rows[m], actor)
    requires Changed(s.db.rows, Dispatch(s, dir, m, actor, now).value.db.rows, i)
    ensures Mentioned(s.db, Dispatch(s, dir, m, actor, now).value.db, i)
    ensures i in s.db.rows ==> s.db.rows[i].live
  {
    hide Wf, Structure, Dispatch, IsOrganizer, Records, Rewritten, SentRow, Homes, Mentioned, NewCopyOf;
    SentNew(s, dir, m, actor, now);
    if i in s.db.rows {
      SentExactly(s, dir, m, actor, now, i);
      UnwrittenStays(s.db.rows, dir, m, now, i);
      KeptDead(s.db.rows, Dispatch(s, dir, m, actor, now).value.db.rows, i);
    }
  }

  lemma KeptDead(rows: Rows, rows': Rows, i: Id)
    requires Kept(rows, rows') && i in rows
    ensures i in rows' && (rows'[i].live ==> rows[i].live) && rows'[i].master == rows[i].master
  {
    assert SameIdentity(rows[i], rows'[i]);
  }

  lemma SentUnheardExactly(s: Sched, dir: Directory, m: Id, actor: User, now: int, i: Id)
    requires Wf(s.db) && Structure(s.db.rows) && s.db.clock <= now && Dispatch(s, dir, m, actor, now).Ok?
    requires IsOrganizer(dir, s.db.rows[m], actor)
    ensures Unheard(s.db, Dispatch(s, dir, m, actor, now).value.db, i) <==> SentUnheard(s.db.rows, dir, m, now, i)
  {
    hide Wf, Structure, Dispatch, IsOrganizer, Records, Rewritten, SentRow, Homes, Mentioned, Kept, NewCopies;
    var d := Dispatch(s, dir, m, actor, now).value.db;
    CommittedSend(s, dir, m, actor, now);
    SentExactly(s, dir, m, actor, now, m);
    if i in s.db.rows {
      SentExactly(s, dir, m, actor, now, i);
      UnwrittenStays(s.db.rows, dir, m, now, i);
      KeptDead(s.db.rows, d.rows, i);
      if s.db.rows[i].master.Some? {
        var p := s.db.rows[i].master.value;
        MasterTaken(s.db, i);
        SentExactly(s, dir, m, actor, now, p);
        UnwrittenStays(s.db.rows, dir, m, now, p);
        KeptDead(s.db.rows, d.rows, p);
      }
    } else if Unheard(s.db, d, i) {
      NewIsHeard(s, dir, m, actor, now, i);
    }
  }

  /** The master of a new override copy is journalled if it is live. */
  lemma NewIsHeard(s: Sched, dir: Directory, m: Id, actor: User, now: int, i: Id)
    requires Wf(s.db) && Structure(s.db.rows) && s.db.clock <= now && Dispatch(s, dir, m, actor, now).Ok?
    requires IsOrganizer(dir, s.db.rows[m], actor)
    ensures i !in s.db.rows ==> !Unheard(s.db, Dispatch(s, dir, m, actor, now).value.db, i)
  {
    hide Wf, Structure, Dispatch, IsOrganizer, Records, Mentioned, SentRow, Homes, Changed, Kept, NewCopyOf, Rewritten;
    var d := Dispatch(s, dir, m, actor, now).value.db;
    SentNew(s, dir, m, actor, now);
    SentExactly(s, dir, m, actor, now, m);
    if i !in s.db.rows && i in d.rows && d.rows[i].master.Some? {
      var p := d.rows[i].master.value;
      MasterIsMaster(d, i);
      if p in s.db.rows {
        SentExactly(s, dir, m, actor, now, p);
        KeptDead(s.db.rows, d.rows, p);
        KeptRow(s.db.rows, d.rows, p);
        if s.db.rows[p].live {
          NewUnderServed(s.db, d, dir, m, i, p);
        }
      }
    }
  }

  lemma NewUnderServed(db: Db, d: Db, dir: Directory, m: Id, i: Id, p: Id)
    requires Wf(db) && Structure(db.rows) && Structure(d.rows) && IsSubject(db.rows, m) && db.rows[m].live
    requires Kept(db.rows, d.rows) && i in d.rows && NewCopyOf(db.rows, m, HomesOf(db.rows, dir, m), d.rows[i])
    requires d.rows[i].master == Some(p) && p in db.rows && d.rows[p].cal == d.rows[i].cal && db.rows[p].live
    ensures Rewritten(db.rows, dir, m, p)
  {
    hide Wf, Structure, Homes, LiveOverrides, Kept, IsStray;
    CopyOrigin(d.rows, i);
    KeptRow(db.rows, d.rows, p);
    var r := d.rows[i].origin.value;
    OverridesListed(db.rows, m, r);
    KeptRow(db.rows, d.rows, r);
  }

  lemma CopyOrigin(rows: Rows, i: Id)
    requires Structure(rows) && i in rows && rows[i].origin.Some? && rows[i].master.Some?
    ensures rows[i].origin.value in rows && rows[i].master.value in rows
         && rows[rows[i].origin.value].master == rows[rows[i].master.value].origin
  {
    assert CopyOk(rows, i);
  }

  // ----- calling off -----

  lemma {:induction false} CalledOffJournal(s: Sched, dir: Directory, m: Id, row: Row, atts: seq<Attendee>, now: int,
      i: Id)
    requires Wf(s.db) && Structure(s.db.rows) && s.db.clock == now && i in s.db.rows
    ensures var t := CalledOff(s, dir, m, row, atts, now);
            Records(s.db, t.db) && (Mentioned(s.db, t.db, i) <==> Reached(s.db.rows, dir, m, row, atts, i))
    decreases |atts|
  {
    hide Wf, Structure, RecipientOf, CancelledCopy, CancelAll, Queued, Records, Mentioned, Kept, CopiesIn;
    if atts == [] {
      NothingRecorded(s.db, s.db.rows);
    } else {
      var n := |atts| - 1;
      CalledOffJournal(s, dir, m, row, atts[..n], now, i);
      CalledOffKeeps(s, dir, m, row, atts[..n], now);
      CalledOffExactly(s, dir, m, row, atts[..n], now, i);
      var t := CalledOff(s, dir, m, row, atts[..n], now);
      var r := RecipientOf(dir, atts[n], row.body.organizerEmail);
      assert Reached(s.db.rows, dir, m, row, atts, i) <==>
        (Reached(s.db.rows, dir, m, row, atts[..n], i)
         || (r.Local? && r.cal == s.db.rows[i].cal && s.db.rows[i].live
             && (s.db.rows[i].origin == Some(m) || OverrideOf(s.db.rows[i], m))));
      if r.Local? {
        var cs := CopiesIn(t.db.rows, m, r.cal);
        CopiesInDistinct(t.db.rows, m, r.cal);
        CancelAllJournal(t.db, cs, now, i);
        CancelAllKeeps(t.db, cs, now);
        CancelledKeepsStructure(t.db.rows, CancelAll(t.db, cs, now).rows, cs, now);
        JoinJournals(s.db, t.db, CancelAll(t.db, cs, now), i);
      }
    }
  }

  /** Calling m off cancels the override i, whose master stays served and is not written. */
  predicate CalledOffUnheard(rows: Rows, dir: Directory, m: Id, i: Id) {
    && m in rows && i in rows && Reached(rows, dir, m, rows[m], rows[m].attendees, i)
    && rows[i].master.Some? && rows[i].master.value in rows && rows[rows[i].master.value].live
  }

  lemma CalledOffFaithful(s: Sched, dir: Directory, m: Id, now: int)
    requires Wf(s.db) && Structure(s.db.rows) && s.db.clock <= now && IsSubject(s.db.rows, m)
    ensures var t := CalledOff(s.(db := s.db.(clock := now)), dir, m, s.db.rows[m], s.db.rows[m].attendees, now);
            && Kept(s.db.rows, t.db.rows) && Records(s.db, t.db)
            && (Faithful(s.db, t.db) <==> forall i :: !CalledOffUnheard(s.db.rows, dir, m, i))
  {
    hide Wf, Structure, Kept, CalledOff, Records, Reached, IsExternal, Faithful, Mentioned, Changed;
    var db := s.db.(clock := now);
    LaterKeepsWf(s.db, db);
    var (row, atts) := (s.db.rows[m], s.db.rows[m].attendees);
    var s0 := s.(db := db);
    var t := CalledOff(s0, dir, m, row, atts, now);
    CalledOffKeeps(s0, dir, m, row, atts, now);
    CalledOffJournal(s0, dir, m, row, atts, now, m);
    SameRecords(s.db, db, t.db, m);
    forall i | i in t.db.rows
      ensures Changed(s.db.rows, t.db.rows, i) <==> Reached(s.db.rows, dir, m, row, atts, i)
      ensures Mentioned(s.db, t.db, i) <==> Reached(s.db.rows, dir, m, row, atts, i)
      ensures t.db.rows[i].live == s.db.rows[i].live && t.db.rows[i].master == s.db.rows[i].master
    {
      CalledOffExactly(s0, dir, m, row, atts, now, i);
      CalledOffJournal(s0, dir, m, row, atts, now, i);
      SameRecords(s.db, db, t.db, i);
      ReachedChanges(s.db.rows, t.db.rows, dir, m, row, atts, i);
    }
    FaithfulExactly(s.db, t.db);
    forall i ensures Unheard(s.db, t.db, i) <==> CalledOffUnheard(s.db.rows, dir, m, i) {
      if i in s.db.rows && s.db.rows[i].master.Some? && Reached(s.db.rows, dir, m, row, atts, i) {
        MasterUnreached(s.db, dir, m, i);
      }
    }
  }

  lemma ReachedChanges(rows: Rows, rows': Rows, dir: Directory, m: Id, row: Row, atts: seq<Attendee>, i: Id)
    requires i in rows && i in rows' && rows'[i].live == rows[i].live && SameIdentity(rows[i], rows'[i])
    requires if Reached(rows, dir, m, row, atts, i) then IsCancelled(rows[i], rows'[i]) else rows'[i] == rows[i]
    ensures Changed(rows, rows', i) <==> Reached(rows, dir, m, row, atts, i)
    ensures rows'[i].master == rows[i].master
  {
    hide RecipientOf;
    assert Visible(rows[i]).sequence == rows[i].sequence && Visible(rows'[i]).sequence == rows'[i].sequence;
  }

  /** The master of a row that is reached is not. */
  lemma MasterUnreached(db: Db, dir: Directory, m: Id, i: Id)
    requires Wf(db) && Structure(db.rows) && IsSubject(db.rows, m) && i in db.rows && db.rows[i].master.Some?
    requires Reached(db.rows, dir, m, db.rows[m], db.rows[m].attendees, i)
    ensures !Reached(db.rows, dir, m, db.rows[m], db.rows[m].attendees, db.rows[i].master.value)
  {
    hide RecipientOf, Unique, OneLive;
    var p := db.rows[i].master.value;
    assert RowOk(db, i) && RowOk(db, m);
    if db.rows[i].origin.Some? {
      assert CopyOk(db.rows, i);
    }
  }

  // ----- replies and declines -----

  lemma ReplyRecords(db: Db, m: Id, email: string, partstat: string, now: int, i: Id)
    requires Wf(db) && db.clock <= now && Reply(db, m, email, partstat, now).Ok?
    ensures var d := Reply(db, m, email, partstat, now).value;
            && IsMaster(db.rows, db.rows[m].master.GetOr(m)) && Records(db, d)
            && (Mentioned(db, d, i) <==> i == db.rows[m].master.GetOr(m))
  {
    hide Unique, Answered, Touched;
    ReplyExactly(db, m, email, partstat, now);
    var d := Reply(db, m, email, partstat, now).value;
    var touched := db.rows[m].master.GetOr(m);
    assert RowOk(db, m);
    RepliedKeepsCal(db.rows[touched], email, partstat, now);
    assert d.log[|db.log|].id == touched;
  }

  lemma RepliedKeepsCal(row: Row, email: string, partstat: string, now: int)
    ensures Touched(row, now).cal == row.cal && RepliedRow(row, email, partstat, now).cal == row.cal
  {
  }

  lemma AnswerFaithful(db: Db, m: Id, email: string, partstat: string, now: int)
    requires Wf(db) && db.clock <= now && Reply(db, m, email, partstat, now).Ok?
    ensures var d := Reply(db, m, email, partstat, now).value;
            Kept(db.rows, d.rows) && Records(db, d) && Faithful(db, d)
  {
    hide Wf, Reply, Answered, Touched, Records, Mentioned, Faithful, RepliedRow, SameIdentity;
    ReplyLoose(db, m, email, partstat, now);
    ReplyExactly(db, m, email, partstat, now);
    var d := Reply(db, m, email, partstat, now).value;
    forall i
      ensures Mentioned(db, d, i) <==> i == db.rows[m].master.GetOr(m)
      ensures Records(db, d) && IsMaster(db.rows, db.rows[m].master.GetOr(m))
      ensures i in db.rows ==> d.rows[i].master == db.rows[i].master
    {
      ReplyRecords(db, m, email, partstat, now, i);
      if i in db.rows {
        KeptRow(db.rows, d.rows, i);
      }
    }
    FaithfulExactly(db, d);
  }

  /** A decline takes effect on a copy that clients see: a copy of a master, or an override
    * copy whose master copy is served. */
  predicate DeclineUnheard(rows: Rows, dir: Directory, c: Id, actor: User) {
    && Declines(rows, dir, c, actor)
    && (rows[c].master.Some? ==> rows[c].master.value in rows && rows[rows[c].master.value].live)
  }

  /** A decline changes and journals nothing but the copy and its origin's resource, and
    * journals at most the latter. */
  lemma DeclineRecords(db: Db, dir: Directory, c: Id, actor: User, now: int, i: Id)
    requires Wf(db) && Structure(db.rows) && db.clock <= now && Declines(db.rows, dir, c, actor)
    ensures Decline(db, dir, c, actor, now).Ok? && db.rows[c].origin.value in db.rows
    ensures var d := Decline(db, dir, c, actor, now).value;
            var o := db.rows[c].origin.value; var touched := db.rows[o].master.GetOr(o);
            && touched in db.rows && db.rows[touched].master == None
            && touched != c && db.rows[c].master != Some(touched)
            && Wf(d) && Kept(db.rows, d.rows) && Records(db, d) && d.rows.Keys == db.rows.Keys
            && (Mentioned(db, d, i) ==> i == touched)
            && (i != c && Changed(db.rows, d.rows, i) ==> (i == o || i == touched) && Mentioned(db, d, touched))
  {
    hide Wf, Structure, Reply, EmailFor, Owners, Answered, Touched, Kept, Records, RepliedRow;
    var o := db.rows[c].origin.value;
    SameRid(db.rows, o, c);
    ReplyTouchesMaster(db, o);
    CopyApart(db, c);
    DeclineKeeps(db, dir, c, actor, now);
    var touched := db.rows[o].master.GetOr(o);
    var email := EmailFor(dir, db.rows[o].attendees, actor);
    var d := Decline(db, dir, c, actor, now).value;
    if email.Some? && Reply(db, o, email.value, "DECLINED", now).Ok? {
      ReplyExactly(db, o, email.value, "DECLINED", now);
      ReplyKeeps(db, o, email.value, "DECLINED", now);
      ReplyRecords(db, o, email.value, "DECLINED", now, i);
      ReplyRecords(db, o, email.value, "DECLINED", now, touched);
      BuriedRecords(db, Reply(db, o, email.value, "DECLINED", now).value, d, c, i);
      BuriedRecords(db, Reply(db, o, email.value, "DECLINED", now).value, d, c, touched);
    } else {
      NothingRecorded(db, db.rows);
      NothingKept(db.rows);
      BuriedRecords(db, db, d, c, i);
    }
  }

  /** The master of a copy's origin is neither that copy nor what the copy hangs under. */
  lemma CopyApart(db: Db, c: Id)
    requires Wf(db) && Structure(db.rows) && c in db.rows && db.rows[c].origin.Some?
    ensures var o := db.rows[c].origin.value;
            && o in db.rows
            && var touched := db.rows[o].master.GetOr(o); touched != c && db.rows[c].master != Some(touched)
  {
    hide Unique, OneLive;
    assert CopyOk(db.rows, c);
    forall p | p in db.rows && db.rows[p].origin.Some? ensures db.rows[p].origin != Some(p) {
      assert CopyOk(db.rows, p);
    }
  }

  lemma BuriedRecords(db: Db, d: Db, e: Db, c: Id, i: Id)
    requires Records(db, d) && c in d.rows && e.rows == d.rows[c := d.rows[c].(live := false)]
    requires e.log == d.log && e.ctag == d.ctag
    ensures Records(db, e) && (Mentioned(db, e, i) <==> Mentioned(db, d, i))
  {
  }

  lemma RefuseFaithful(db: Db, dir: Directory, c: Id, actor: User, now: int)
    requires Wf(db) && Structure(db.rows) && db.clock <= now && Declines(db.rows, dir, c, actor)
    ensures Decline(db, dir, c, actor, now).Ok?
    ensures Faithful(db, Decline(db, dir, c, actor, now).value) <==> !DeclineUnheard(db.rows, dir, c, actor)
  {
    hide Wf, Structure, Kept, Records, Mentioned, Faithful, Decline, Owners, Resource, LoggedBetween;
    DeclineRecords(db, dir, c, actor, now, c);
    DeclineRows(db, dir, c, actor, now);
    var d := Decline(db, dir, c, actor, now).value;
    if db.rows[c].master == None {
      ResourceDiffers(db.rows, d.rows, c);
      MentionedIsLogged(db, d, c);
      KeptRow(db.rows, d.rows, c);
      assert Changed(db.rows, d.rows, c);
      MissedAt(db, d, c);
    } else {
      MasterTaken(db, c);
      RefusedOverride(db, dir, c, actor, now);
    }
  }

  lemma MissedAt(db: Db, d: Db, j: Id)
    requires Resource(db.rows, j) != Resource(d.rows, j) && !LoggedBetween(db, d, j)
    ensures !Faithful(db, d)
  {
  }

  lemma RefusedOverride(db: Db, dir: Directory, c: Id, actor: User, now: int)
    requires Wf(db) && Structure(db.rows) && db.clock <= now && Declines(db.rows, dir, c, actor)
    requires db.rows[c].master.Some? && db.rows[c].master.value in db.rows && Decline(db, dir, c, actor, now).Ok?
    ensures Faithful(db, Decline(db, dir, c, actor, now).value) <==> !db.rows[db.rows[c].master.value].live
  {
    hide Wf, Structure, Kept, Records, Mentioned, Faithful, Decline, Owners, Changed, DeclinedRows;
    var d := Decline(db, dir, c, actor, now).value;
    var p := db.rows[c].master.value;
    DeclineRecords(db, dir, c, actor, now, p);
    DeclineRows(db, dir, c, actor, now);
    KeptRow(db.rows, d.rows, c);
    var o := db.rows[c].origin.value;
    var touched := db.rows[o].master.GetOr(o);
    KeptRow(db.rows, d.rows, o);
    KeptRow(db.rows, d.rows, touched);
    OwnMasterApart(db, c);
    DeclinedLive(db.rows, d.rows, c, c);
    DeclinedLive(db.rows, d.rows, c, p);
    CopyChanged(db.rows, d.rows, c);
    forall i | i in d.rows && Changed(db.rows, d.rows, i) && i != c
      ensures (i == o || i == touched) && Mentioned(db, d, touched)
    {
      DeclineRecords(db, dir, c, actor, now, i);
    }
    FaithfulExactly(db, d);
    if !db.rows[p].live {
      forall i ensures !Unheard(db, d, i) {
      }
    } else {
      assert Unheard(db, d, c);
    }
  }

  lemma DeclinedLive(rows: Rows, rows': Rows, c: Id, p: Id)
    requires DeclinedRows(rows, rows', c) && p in rows
    ensures p in rows' && rows'[p].live == (rows[p].live && p != c)
  {
  }

  lemma CopyChanged(rows: Rows, rows': Rows, c: Id)
    requires c in rows && rows[c].live && c in rows' && !rows'[c].live
    ensures Changed(rows, rows', c)
  {
  }

  lemma OwnMasterApart(db: Db, c: Id)
    requires Wf(db) && c in db.rows
    ensures db.rows[c].master != Some(c)
  {
    assert RowOk(db, c);
  }

  // ----- one move -----

  /** The moves whose effect the journal misses. */
  ghost predicate Silent(s: Sched, dir: Directory, move: Move, now: int) {
    match move
    case Send(m, actor) =>
      && Dispatch(s, dir, m, actor, now).Ok? && m in s.db.rows && IsOrganizer(dir, s.db.rows[m], actor)
      && exists i :: SentUnheard(s.db.rows, dir, m, now, i)
    case CallOff(m, actor) =>
      && IsSubject(s.db.rows, m) && IsOrganizer(dir, s.db.rows[m], actor)
      && exists i :: CalledOffUnheard(s.db.rows, dir, m, i)
    case Answer(_, _, _) => false
    case Refuse(c, actor) => DeclineUnheard(s.db.rows, dir, c, actor)
    case Edit(_) => false
  }

  lemma EditFaithful(db: Db, op: Op, now: int)
    requires Wf(db) && db.clock <= now && WellFormed(db, op)
    ensures Faithful(db, After(db, op, now)) && Grew(db, After(db, op, now))
  {
    hide Wf, WellFormed, After, Untouched, LoggedBetween, Resource, Grew;
    StepGrows(db, op, now, 0);
    forall j | Resource(db.rows, j) != Resource(After(db, op, now).rows, j)
      ensures LoggedBetween(db, After(db, op, now), j)
    {
      StepGrows(db, op, now, j);
      if Untouched(db.rows, After(db, op, now).rows, j) {
        UntouchedResource(db.rows, After(db, op, now).rows, j);
      }
    }
  }

  lemma KeptGrows(db: Db, d: Db)
    requires Kept(db.rows, d.rows) && Records(db, d)
    ensures Grew(db, d)
  {
    forall j | j in db.rows && IsMaster(db.rows, j) ensures IsMaster(d.rows, j) && d.rows[j].cal == db.rows[j].cal {
      KeptRow(db.rows, d.rows, j);
    }
  }

  /** The move writes no copies, or finds their structure intact. */
  ghost predicate Intact(s: Sched, move: Move) { move.Edit? || move.Answer? || Structure(s.db.rows) }

  /** Every move, and in particular every edit and every reply, logs each resource it
    * changes, exactly unless it is silent; the journal and the CTags only grow. */
  lemma NextFaithful(s: Sched, dir: Directory, move: Move, now: int)
    requires LooseInv(s) && Possible(s, move, now) && Intact(s, move)
    ensures Faithful(s.db, Next(s, dir, move, now).db) <==> !Silent(s, dir, move, now)
    ensures Grew(s.db, Next(s, dir, move, now).db)
  {
    hide Wf, Structure, RequestsRise, MessagesBound, Dispatch, CancelDispatch, Reply, Decline, WellFormed, Linked,
      After, Gone, Faithful, Grew, SentUnheard, CalledOffUnheard, IsOrganizer, DeclineUnheard;
    NothingMissed(s.db);
    NothingGrew(s.db);
    match move
    case Send(m, actor) => SendFaithful(s, dir, m, actor, now);
    case CallOff(m, actor) => CallOffFaithful(s, dir, m, actor, now);
    case Answer(m, email, partstat) =>
      if Reply(s.db, m, email, partstat, now).Ok? {
        AnswerFaithful(s.db, m, email, partstat, now);
        KeptGrows(s.db, Reply(s.db, m, email, partstat, now).value);
      }
    case Refuse(c, actor) => RefusalFaithful(s.db, dir, c, actor, now);
    case Edit(op) => EditFaithful(s.db, op, now);
  }

  lemma SendFaithful(s: Sched, dir: Directory, m: Id, actor: User, now: int)
    requires Wf(s.db) && Structure(s.db.rows) && s.db.clock <= now
    ensures var d := Next(s, dir, Send(m, actor), now).db;
            (Faithful(s.db, d) <==> !Silent(s, dir, Send(m, actor), now)) && Grew(s.db, d)
  {
    hide Wf, Structure, RequestsRise, MessagesBound, Dispatch, Faithful, Grew, SentUnheard, IsOrganizer, Kept, Records,
      SentRow, Rewritten;
    NothingMissed(s.db);
    NothingGrew(s.db);
    if Dispatch(s, dir, m, actor, now).Ok? {
      CommittedSend(s, dir, m, actor, now);
      if IsOrganizer(dir, s.db.rows[m], actor) {
        SentFaithful(s, dir, m, actor, now);
        SentExactly(s, dir, m, actor, now, m);
        KeptGrows(s.db, Dispatch(s, dir, m, actor, now).value.db);
      }
    }
  }

  lemma CallOffFaithful(s: Sched, dir: Directory, m: Id, actor: User, now: int)
    requires Wf(s.db) && Structure(s.db.rows) && s.db.clock <= now
    ensures var d := Next(s, dir, CallOff(m, actor), now).db;
            (Faithful(s.db, d) <==> !Silent(s, dir, CallOff(m, actor), now)) && Grew(s.db, d)
  {
    hide Wf, Structure, RequestsRise, MessagesBound, CalledOff, Faithful, Grew, CalledOffUnheard, IsOrganizer, Kept,
      Records;
    NothingMissed(s.db);
    NothingGrew(s.db);
    if IsSubject(s.db.rows, m) && IsOrganizer(dir, s.db.rows[m], actor) {
      CalledOffFaithful(s, dir, m, now);
      KeptGrows(s.db, Next(s, dir, CallOff(m, actor), now).db);
    }
  }

  lemma RefusalFaithful(db: Db, dir: Directory, c: Id, actor: User, now: int)
    requires Wf(db) && Structure(db.rows) && db.clock <= now
    ensures var d := Committed(Decline(db, dir, c, actor, now), db);
            (Faithful(db, d) <==> !DeclineUnheard(db.rows, dir, c, actor)) && Grew(db, d)
  {
    hide Wf, Structure, Decline, Faithful, Grew, Kept, Records, Declines;
    NothingMissed(db);
    NothingGrew(db);
    if Declines(db.rows, dir, c, actor) {
      DeclineRecords(db, dir, c, actor, now, c);
      RefuseFaithful(db, dir, c, actor, now);
      KeptGrows(db, Decline(db, dir, c, actor, now).value);
    } else if Decline(db, dir, c, actor, now).Ok? {
      DeclineEffective(db, dir, c, actor, now);
    }
  }

  // ----- the journal grows, whatever the copies look like -----

  lemma TickGrows(a: Db, db: Db, d: Db, now: int)
    requires db == a.(clock := now) && Tick(db, d, now)
    ensures Grew(a, d)
  {
    hide Wf, Linked, RowTick, Records, Kept, Grew;
    TickIsKept(db, d, now);
    SameRecords(a, db, d, 0);
    KeptGrows(a, d);
  }

  lemma InPlaceIsKept(rows: Rows, rows': Rows)
    requires InPlace(rows, rows')
    ensures Kept(rows, rows')
  {
    hide SameIdentity;
  }

  lemma DeclineGrows(db: Db, dir: Directory, c: Id, actor: User, now: int)
    requires Wf(db) && db.clock <= now && Decline(db, dir, c, actor, now).Ok?
    ensures Grew(db, Decline(db, dir, c, actor, now).value)
  {
    hide Wf, Reply, EmailFor, Owners, Records, Mentioned, InPlace, Kept, Grew;
    var d := Decline(db, dir, c, actor, now).value;
    DeclineLoose(db, dir, c, actor, now);
    InPlaceIsKept(db.rows, d.rows);
    NothingRecorded(db, db.rows);
    if Declines(db.rows, dir, c, actor) {
      var o := db.rows[c].origin.value;
      var email := if o in db.rows then EmailFor(dir, db.rows[o].attendees, actor) else None;
      if email.Some? && Reply(db, o, email.value, "DECLINED", now).Ok? {
        ReplyExactly(db, o, email.value, "DECLINED", now);
        ReplyRecords(db, o, email.value, "DECLINED", now, c);
        BuriedRecords(db, Reply(db, o, email.value, "DECLINED", now).value, d, c, c);
      } else {
        BuriedRecords(db, db, d, c, c);
      }
    }
    KeptGrows(db, d);
  }

  /** Over every move the journal and the CTags only grow. */
  lemma NextGrows(s: Sched, dir: Directory, move: Move, now: int)
    requires LooseInv(s) && Possible(s, move, now)
    ensures Grew(s.db, Next(s, dir, move, now).db)
  {
    hide Wf, Linked, RequestsRise, MessagesBound, Dispatch, CalledOff, Reply, Decline, WellFormed, After, Gone, Grew;
    hide Tick, IsOrganizer, Records, Kept, InPlace;
    NothingGrew(s.db);
    match move
    case Send(m, actor) =>
      if Dispatch(s, dir, m, actor, now).Ok? {
        DispatchTick(s, dir, m, actor, now);
        if Dispatch(s, dir, m, actor, now).value != s {
          TickGrows(s.db, s.db.(clock := now), Dispatch(s, dir, m, actor, now).value.db, now);
        }
      }
    case CallOff(m, actor) =>
      if IsSubject(s.db.rows, m) && IsOrganizer(dir, s.db.rows[m], actor) {
        var db := s.db.(clock := now);
        LaterKeepsWf(s.db, db);
        CalledOffTick(s.(db := db), dir, m, s.db.rows[m], s.db.rows[m].attendees, now);
        TickGrows(s.db, db, Next(s, dir, move, now).db, now);
      }
    case Answer(m, email, partstat) =>
      if Reply(s.db, m, email, partstat, now).Ok? {
        ReplyLoose(s.db, m, email, partstat, now);
        ReplyRecords(s.db, m, email, partstat, now, m);
        InPlaceIsKept(s.db.rows, Reply(s.db, m, email, partstat, now).value.rows);
        KeptGrows(s.db, Reply(s.db, m, email, partstat, now).value);
      }
    case Refuse(c, actor) =>
      if Decline(s.db, dir, c, actor, now).Ok? {
        DeclineGrows(s.db, dir, c, actor, now);
      }
    case Edit(op) => StepGrows(s.db, op, now, 0);
  }

  // ----- runs -----

  /** No turn of the run is silent. */
  ghost predicate NeverSilent(s: Sched, dir: Directory, turns: seq<Turn>)
    requires Playable(s, dir, turns)
    decreases |turns|
  {
    turns == [] ||
    (!Silent(s, dir, turns[0].move, turns[0].now)
     && NeverSilent(Next(s, dir, turns[0].move, turns[0].now), dir, turns[1..]))
  }

  /** The move is silent or, on copies that an edit has broken, fails to log what it changes. */
  ghost predicate Missed(s: Sched, dir: Directory, move: Move, now: int)
    requires Possible(s, move, now)
  {
    if Intact(s, move) then Silent(s, dir, move, now) else !Faithful(s.db, Next(s, dir, move, now).db)
  }

  ghost predicate NeverMissed(s: Sched, dir: Directory, turns: seq<Turn>)
    requires Playable(s, dir, turns)
    decreases |turns|
  {
    turns == [] ||
    (!Missed(s, dir, turns[0].move, turns[0].now)
     && NeverMissed(Next(s, dir, turns[0].move, turns[0].now), dir, turns[1..]))
  }

  /** Over a run that keeps copies only silent moves can be missed. */
  lemma {:induction false} OnlySilentMissed(s: Sched, dir: Directory, turns: seq<Turn>)
    requires Inv(s) && Playable(s, dir, turns) && KeepsCopies(s, dir, turns)
    ensures NeverMissed(s, dir, turns) <==> NeverSilent(s, dir, turns)
    decreases |turns|
  {
    hide Wf, Structure, RequestsRise, MessagesBound, Next, Possible, LeavesCopies, Silent, Faithful;
    if turns != [] {
      NextKeeps(s, dir, turns[0].move, turns[0].now);
      OnlySilentMissed(Next(s, dir, turns[0].move, turns[0].now), dir, turns[1..]);
    }
  }

  /** A move that is not missed logs everything it changes. */
  lemma StepJournal(s: Sched, dir: Directory, move: Move, now: int, j: Id)
    requires LooseInv(s) && Possible(s, move, now) && !Missed(s, dir, move, now)
    ensures var n := Next(s, dir, move, now);
            && Grew(s.db, n.db)
            && (Resource(s.db.rows, j) != Resource(n.db.rows, j) ==> LoggedBetween(s.db, n.db, j))
  {
    hide LooseInv, Next, Possible, Intact, Silent, Resource, LoggedBetween, Grew;
    NextGrows(s, dir, move, now);
    if Intact(s, move) {
      NextFaithful(s, dir, move, now);
    }
  }

  /** Change-journal completeness with scheduling: over every run of edits and scheduling
    * moves none of which is missed, a resource that differs was logged in between in its
    * own calendar, whose CTag has grown. */
  lemma {:induction false} RunJournalComplete(s: Sched, dir: Directory, turns: seq<Turn>, j: Id)
    requires LooseInv(s) && Playable(s, dir, turns) && NeverMissed(s, dir, turns)
    ensures var t := Played(s, dir, turns);
            && Grew(s.db, t.db)
            && (Resource(s.db.rows, j) != Resource(t.db.rows, j) ==> LoggedBetween(s.db, t.db, j))
    decreases |turns|
  {
    hide LooseInv, Next, Possible, Missed, Resource, LoggedBetween, Grew;
    if turns == [] {
      NothingGrew(s.db);
    } else {
      var n := Next(s, dir, turns[0].move, turns[0].now);
      NextLoose(s, dir, turns[0].move, turns[0].now);
      StepJournal(s, dir, turns[0].move, turns[0].now, j);
      RunJournalComplete(n, dir, turns[1..], j);
      var t := Played(n, dir, turns[1..]);
      GrewTransitive(s.db, n.db, t.db);
      if LoggedBetween(s.db, n.db, j) {
        LoggedEarlier(s.db, n.db, t.db, j);
      } else if LoggedBetween(n.db, t.db, j) {
        LoggedLater(s.db, n.db, t.db, j);
      }
    }
  }

  // ----- the silent dispatches in other words -----

  /** A dispatch of an override is unheard at exactly the live copies of it that hang under a
    * live copy of the master and end up different. */
  lemma UnheardOverrideSends(db: Db, dir: Directory, m: Id, now: int, i: Id)
    requires Wf(db) && Structure(db.rows) && IsSubject(db.rows, m) && db.rows[m].live && db.rows[m].master.Some?
    requires i in db.rows && db.rows[i].live && db.rows[i].master.Some? && db.rows[i].master.value in db.rows
    ensures SentUnheard(db.rows, dir, m, now, i)
      <==> (&& db.rows[i].origin == Some(m) && db.rows[db.rows[i].master.value].live
            && (db.rows[i].cal in HomesOf(db.rows, dir, m) || Stray(db.rows, dir, m, i))
            && SentRow(db.rows, dir, m, now, i) != db.rows[i])
  {
    hide Wf, Structure, Homes, SentRow, CurrentEmails, InternalUsers, Owners, Uninvited;
    AttachedPlace(db, i);
    NothingUnderOverride(db, m);
  }

  /** The attached copy i of a deleted override of m lies outside the collections served,
    * some collection is served, and the copy it hangs under is live and not cancelled. */
  predicate DroppedUnheard(rows: Rows, dir: Directory, m: Id, i: Id)
    requires m in rows && i in rows && rows[i].master.Some? && rows[i].master.value in rows
  {
    && rows[i].origin.Some? && rows[i].origin.value in rows && OverrideOf(rows[rows[i].origin.value], m)
    && !rows[rows[i].origin.value].live && HomesOf(rows, dir, m) != {} && rows[i].cal !in HomesOf(rows, dir, m)
    && rows[rows[i].master.value].live && !Stray(rows, dir, m, rows[i].master.value)
  }

  /** A dispatch of a master is unheard at exactly the live copies of its deleted overrides
    * that it drops outside the collections it serves. */
  lemma UnheardMasterSends(db: Db, dir: Directory, m: Id, now: int, i: Id)
    requires Wf(db) && Structure(db.rows) && IsSubject(db.rows, m) && db.rows[m].live && db.rows[m].master == None
    requires i in db.rows && db.rows[i].live && db.rows[i].master.Some? && db.rows[i].master.value in db.rows
    ensures SentUnheard(db.rows, dir, m, now, i) <==> DroppedUnheard(db.rows, dir, m, i)
  {
    hide Wf, Structure, Homes, CurrentEmails, InternalUsers, Owners, Uninvited, Recopied, CancelledCopy;
    AttachedPlace(db, i);
    if db.rows[i].origin.Some? {
      CopyOfMasterApart(db, m, i);
    }
  }

  /** How an attached row stands to the row it hangs under. */
  lemma AttachedPlace(db: Db, i: Id)
    requires Wf(db) && Structure(db.rows) && i in db.rows && db.rows[i].master.Some?
    ensures var p := db.rows[i].master.value;
            p in db.rows && db.rows[p].master == None && db.rows[p].cal == db.rows[i].cal
    ensures db.rows[i].origin.Some? ==>
              var (o, p) := (db.rows[i].origin.value, db.rows[i].master.value);
              o in db.rows && db.rows[p].origin.Some? && db.rows[o].master == db.rows[p].origin
  {
    hide Unique, OneLive;
    assert RowOk(db, i);
    if db.rows[i].origin.Some? {
      assert CopyOk(db.rows, i);
    }
  }

  lemma NothingUnderOverride(db: Db, m: Id)
    requires Wf(db) && m in db.rows && db.rows[m].master.Some?
    ensures db.rows[m].master != Some(m) && forall o | o in db.rows :: !OverrideOf(db.rows[o], m)
  {
    hide Unique;
    forall o | o in db.rows ensures !OverrideOf(db.rows[o], m) {
      assert RowOk(db, o);
    }
  }

  lemma CopyOfMasterApart(db: Db, m: Id, i: Id)
    requires Wf(db) && Structure(db.rows) && IsSubject(db.rows, m) && db.rows[m].master == None
    requires i in db.rows && db.rows[i].master.Some? && db.rows[i].origin.Some?
    ensures db.rows[i].origin != Some(m) && db.rows[i].master != Some(m)
  {
    AttachedPlace(db, i);
  }
}
