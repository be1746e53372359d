/** An organizer's series keeps one UID over every run of edits and scheduling moves, so the
  * exact condition for a dispatch of it to commit stands after every such run. */
module SchedulingUids {
  import opened Wrappers
  import opened EventRows
  import opened EventSpec
  import opened EventEffects
  import opened EventSplit
  import opened EventPut
  import opened EventRuns
  import opened EventGuards
  import opened Scheduling
  import opened SchedulingCopies
  import opened SchedulingMessages
  import opened SchedulingDispatch
  import opened SchedulingCommits
  import opened SchedulingRows
  import opened SchedulingEdits
  import opened SchedulingRuns
  import opened SchedulingLoose
  import opened SchedulingTheorems
  import opened SchedulingAttached

  /** An override of m that is no copy and, if live, carries the UID of m. */
  predicate Belongs(rows: Rows, m: Id, i: Id)
    requires m in rows && i in rows
  {
    OverrideOf(rows[i], m) ==> rows[i].origin == None && (rows[i].live ==> rows[i].uid == rows[m].uid)
  }

  /** m is an organizer's master, its overrides are no copies and the live ones carry its UID. */
  predicate OwnSeries(rows: Rows, m: Id) {
    IsMaster(rows, m) && rows[m].origin == None && forall i | i in rows :: Belongs(rows, m, i)
  }

  /** A UID is passed to every override the run creates. */
  ghost predicate UidsPassed(s: Sched, dir: Directory, turns: seq<Turn>)
    requires Playable(s, dir, turns)
    decreases |turns|
  {
    turns == [] ||
    ((turns[0].move.Edit? ==> PassesUid(s.db, turns[0].move.op))
     && UidsPassed(Next(s, dir, turns[0].move, turns[0].now), dir, turns[1..]))
  }

  // ----- edits -----

  lemma CreateOwn(db: Db, cal: Cal, id: Id, data: NewEvent, now: int, m: Id)
    requires OwnSeries(db.rows, m) && CreateTx(db, cal, id, data, now).Ok? && PassesUid(db, Create(cal, id, data))
    ensures OwnSeries(CreateTx(db, cal, id, data, now).value.rows, m)
  {
    hide Fits;
  }

  lemma UpdateOwn(db: Db, id: Id, ifMatch: Option<Etag>, p: Patch, now: int, m: Id)
    requires OwnSeries(db.rows, m) && UpdateTx(db, id, ifMatch, p, now).Ok?
    ensures OwnSeries(UpdateTx(db, id, ifMatch, p, now).value.rows, m)
  {
  }

  lemma DeleteOwn(db: Db, id: Id, ifMatch: Option<Etag>, now: int, m: Id)
    requires OwnSeries(db.rows, m) && DeleteTx(db, id, ifMatch, now).Ok?
    ensures OwnSeries(DeleteTx(db, id, ifMatch, now).value.rows, m)
  {
  }

  /** The overrides that stay with m keep their UID; those that move leave m. */
  lemma SplitOwn(db: Db, m0: Id, s: SeriesSplit, c: Id, now: int, m: Id)
    requires Wf(db) && OwnSeries(db.rows, m) && SplitTx(db, m0, s, c, now).Ok?
    requires s.continuation.Some? ==> s.continuation.value.master == None
    ensures OwnSeries(SplitTx(db, m0, s, c, now).value.rows, m)
  {
    hide SplitTx, Wf, TruncatedMaster, ContinuationRow, Fate;
    SplitPartition(db, m0, s, c, now);
    var d := SplitTx(db, m0, s, c, now).value;
    SplitNeedsRule(db, m0, s, c, now);
    MasterIsNoOverride(db, m0);
    TruncatedPlace(db.rows, m0, s, c, now);
    TruncatedUid(db.rows[m0], s, now);
    if s.continuation.Some? {
      ContinuationUid(db.rows[m0].cal, s.continuation.value, now);
    }
    forall i | i in d.rows ensures Belongs(d.rows, m, i) {
      if i in db.rows {
        FateUid(db.rows[i], s, c, now);
        FateOrigin(db.rows[i], s, c, now);
      }
    }
  }

  lemma FateOrigin(row: Row, s: SeriesSplit, c: Id, now: int)
    ensures var f := Fate(row, s, c, now);
            f.origin == row.origin && (f.master == row.master || (s.continuation.Some? && f.master == Some(c)))
  {
  }

  lemma PutOwn(db: Db, p: Put, now: int, m: Id)
    requires Wf(db) && WellFormedPut(p) && PutTx(db, p, now).Ok? && OwnSeries(db.rows, m)
    ensures OwnSeries(PutTx(db, p, now).value.0.rows, m)
  {
    hide Wf, Unique, PutTx;
    PutStores(db, p, now);
    PutOrigins(db, p, now);
    var (d, n, _) := PutTx(db, p, now).value;
    if m != n {
      assert Visible(d.rows[m]) == Visible(db.rows[m]);
    }
    forall i | i in d.rows ensures Belongs(d.rows, m, i) {
      if i != n && i !in p.ids {
        assert Visible(d.rows[i]) == Visible(db.rows[i]);
        OthersAreNoOverrides(db, d, p, n, i, now);
        assert Belongs(db.rows, m, i);
      }
    }
  }

  lemma EditOwn(db: Db, op: Op, now: int, m: Id)
    requires Wf(db) && WellFormed(db, op) && OwnSeries(db.rows, m) && PassesUid(db, op)
    ensures OwnSeries(After(db, op, now).rows, m)
  {
    hide Wf, OwnSeries, CreateTx, UpdateTx, DeleteTx, SplitTx, PutTx, GoodMaster, WellFormedPut, PassesUid;
    if After(db, op, now) != db {
      match op
      case Create(cal, id, data) => CreateOwn(db, cal, id, data, now, m);
      case Update(id, ifMatch, patch) => UpdateOwn(db, id, ifMatch, patch, now, m);
      case Delete(id, ifMatch) => DeleteOwn(db, id, ifMatch, now, m);
      case Split(id, s, c) => SplitOwn(db, id, s, c, now, m);
      case PutSeries(p) => PutOwn(db, p, now, m);
    }
  }

  // ----- scheduling moves -----

  lemma TickOwn(db: Db, d: Db, now: int, m: Id)
    requires Tick(db, d, now) && OwnSeries(db.rows, m)
    ensures OwnSeries(d.rows, m)
  {
    hide Wf, Linked, Records, Mentioned, Stamps;
    assert RowTick(db, d, now, m);
    forall i | i in d.rows ensures Belongs(d.rows, m, i) {
      if i in db.rows {
        assert RowTick(db, d, now, i) && Belongs(db.rows, m, i);
      }
    }
  }

  lemma ReplyOwn(db: Db, r: Id, email: string, partstat: string, now: int, m: Id)
    requires Wf(db) && db.clock <= now && Reply(db, r, email, partstat, now).Ok? && OwnSeries(db.rows, m)
    ensures OwnSeries(Reply(db, r, email, partstat, now).value.rows, m)
  {
    hide Wf, Reply, Answered, RepliedRow, Touched;
    ReplyExactly(db, r, email, partstat, now);
    var d := Reply(db, r, email, partstat, now).value;
    forall i | i in db.rows ensures SameSeries(db.rows[i], d.rows[i]) {
      RepliedSeries(db.rows[i], email, partstat, now);
    }
    forall i | i in d.rows ensures Belongs(d.rows, m, i) {
      assert Belongs(db.rows, m, i);
    }
  }

  predicate SameSeries(row: Row, row': Row) {
    row'.uid == row.uid && row'.master == row.master && row'.origin == row.origin && row'.live == row.live
  }

  lemma RepliedSeries(row: Row, email: string, partstat: string, now: int)
    ensures SameSeries(row, row) && SameSeries(row, Touched(row, now))
    ensures SameSeries(row, RepliedRow(row, email, partstat, now))
  {
  }

  lemma BuriedOwn(rows: Rows, c: Id, m: Id)
    requires OwnSeries(rows, m) && c in rows
    ensures OwnSeries(rows[c := rows[c].(live := false)], m)
  {
    var rows' := rows[c := rows[c].(live := false)];
    forall i | i in rows' ensures Belongs(rows', m, i) {
      assert Belongs(rows, m, i);
    }
  }

  lemma DeclineOwn(db: Db, dir: Directory, c: Id, actor: User, now: int, m: Id)
    requires Wf(db) && db.clock <= now && Decline(db, dir, c, actor, now).Ok? && OwnSeries(db.rows, m)
    ensures OwnSeries(Decline(db, dir, c, actor, now).value.rows, m)
  {
    hide Wf, Reply, EmailFor, Owners, OwnSeries;
    if Declines(db.rows, dir, c, actor) {
      var o := db.rows[c].origin.value;
      var email := if o in db.rows then EmailFor(dir, db.rows[o].attendees, actor) else None;
      if email.Some? && Reply(db, o, email.value, "DECLINED", now).Ok? {
        ReplyOwn(db, o, email.value, "DECLINED", now, m);
        ReplyLoose(db, o, email.value, "DECLINED", now);
        BuriedOwn(Reply(db, o, email.value, "DECLINED", now).value.rows, c, m);
      } else {
        BuriedOwn(db.rows, c, m);
      }
    }
  }

  /** Every move keeps the series, if overrides are created with its UID. */
  lemma NextOwn(s: Sched, dir: Directory, move: Move, now: int, m: Id)
    requires LooseInv(s) && Possible(s, move, now) && OwnSeries(s.db.rows, m)
    requires move.Edit? ==> PassesUid(s.db, move.op)
    ensures OwnSeries(Next(s, dir, move, now).db.rows, m)
  {
    hide Wf, Linked, RequestsRise, MessagesBound, Dispatch, CalledOff, Reply, Decline, WellFormed, After, Gone, Tick,
      IsOrganizer, OwnSeries, PassesUid;
    match move
    case Send(n, actor) =>
      if Dispatch(s, dir, n, actor, now).Ok? {
        DispatchTick(s, dir, n, actor, now);
        if Dispatch(s, dir, n, actor, now).value != s {
          TickOwn(s.db.(clock := now), Dispatch(s, dir, n, actor, now).value.db, now, m);
        }
      }
    case CallOff(n, actor) =>
      if IsSubject(s.db.rows, n) && IsOrganizer(dir, s.db.rows[n], actor) {
        var db := s.db.(clock := now);
        LaterKeepsWf(s.db, db);
        CalledOffTick(s.(db := db), dir, n, s.db.rows[n], s.db.rows[n].attendees, now);
        TickOwn(db, Next(s, dir, move, now).db, now, m);
      }
    case Answer(n, email, partstat) =>
      if Reply(s.db, n, email, partstat, now).Ok? {
        ReplyOwn(s.db, n, email, partstat, now, m);
      }
    case Refuse(c, actor) =>
      if Decline(s.db, dir, c, actor, now).Ok? {
        DeclineOwn(s.db, dir, c, actor, now, m);
      }
    case Edit(op) => EditOwn(s.db, op, now, m);
  }

  // ----- runs -----

  /** Over every run of edits and scheduling moves an organizer's series keeps one UID, if
    * overrides are created with it. */
  lemma {:induction false} RunKeepsSeries(s: Sched, dir: Directory, turns: seq<Turn>, m: Id)
    requires LooseInv(s) && Playable(s, dir, turns) && UidsPassed(s, dir, turns) && OwnSeries(s.db.rows, m)
    ensures var b := Played(s, dir, turns).db; OwnSeries(b.rows, m) && OneSeriesUid(b.rows, m)
    decreases |turns|
  {
    hide LooseInv, Next, Possible, OwnSeries, OneSeriesUid, PassesUid;
    OwnIsOne(s.db.rows, m);
    if turns != [] {
      NextLoose(s, dir, turns[0].move, turns[0].now);
      NextOwn(s, dir, turns[0].move, turns[0].now, m);
      RunKeepsSeries(Next(s, dir, turns[0].move, turns[0].now), dir, turns[1..], m);
    }
  }

  lemma OwnIsOne(rows: Rows, m: Id)
    requires OwnSeries(rows, m)
    ensures m in rows && OneSeriesUid(rows, m)
  {
    forall o | o in LiveOverrides(rows, m) ensures o in rows && rows[o].uid == rows[m].uid {
      assert Belongs(rows, m, o);
    }
  }

  /** So after every run that keeps copies a dispatch of the series commits exactly if no
    * collection it serves holds one of its keys in another row. */
  lemma DispatchCommitsAfterRun(s: Sched, dir: Directory, turns: seq<Turn>, m: Id, actor: User, now: int)
    requires Inv(s) && Playable(s, dir, turns) && KeepsCopies(s, dir, turns) && UidsPassed(s, dir, turns)
    requires OwnSeries(s.db.rows, m)
    requires var t := Played(s, dir, turns); t.db.clock <= now && HomesExist(dir, t.db)
    ensures var t := Played(s, dir, turns);
            && m in t.db.rows
            && (Dispatch(t, dir, m, actor, now).Ok? <==>
                && t.db.rows[m].live
                && (IsOrganizer(dir, t.db.rows[m], actor) ==>
                      Unobstructed(t.db.rows, dir, m, t.db.rows[m].body.organizerEmail, t.db.rows[m].attendees)))
  {
    hide LooseInv, Playable, Played, KeepsCopies, UidsPassed, Wf, Structure, RequestsRise, MessagesBound, OneSeriesUid,
      IsOrganizer, Unobstructed, HomesExist, Dispatch;
    InvIsLoose(s);
    RunKeepsInv(s, dir, turns);
    RunKeepsSeries(s, dir, turns, m);
    OwnIsSubject(Played(s, dir, turns).db.rows, m);
    DispatchCommitsExactly(Played(s, dir, turns), dir, m, actor, now);
  }

  lemma OwnIsSubject(rows: Rows, m: Id)
    requires OwnSeries(rows, m)
    ensures IsSubject(rows, m)
  {
  }
}
