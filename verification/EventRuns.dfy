/** Runs of event transactions: the invariant, the completeness of the change
  * journal, and the lost-update guard of a conditional PUT. */
module EventRuns {
  import opened Wrappers
  import opened EventRows
  import opened EventSpec
  import opened EventEffects
  import opened EventSplit
  import opened EventPut

  datatype Op =
    | Create(cal: Cal, id: Id, data: NewEvent)
    | Update(id: Id, ifMatch: Option<Etag>, patch: Patch)
    | Delete(id: Id, ifMatch: Option<Etag>)
    | Split(id: Id, split: SeriesSplit, continuation: Id)
    | PutSeries(put: Put)

  /** What the callers of the five transactions hand over. */
  ghost predicate WellFormed(db: Db, op: Op) {
    match op
    case Create(cal, _, data) => GoodMaster(db, cal, data)
    case Split(_, s, _) => s.continuation.Some? ==> s.continuation.value.master == None
    case PutSeries(p) => WellFormedPut(p)
    case _ => true
  }

  /** One transaction: committed, or rolled back without a trace. */
  ghost function After(db: Db, op: Op, now: int): Db
    requires WellFormed(db, op)
  {
    var outcome := match op
      case Create(cal, id, data) => CreateTx(db, cal, id, data, now)
      case Update(id, ifMatch, patch) => UpdateTx(db, id, ifMatch, patch, now)
      case Delete(id, ifMatch) => DeleteTx(db, id, ifMatch, now)
      case Split(id, s, c) => SplitTx(db, id, s, c, now)
      case PutSeries(p) => (match PutTx(db, p, now) case Ok(r) => Ok(r.0) case Err(e) => Err(e));
    match outcome
    case Ok(d) => d
    case Err(_) => db
  }

  datatype Step = Step(op: Op, now: int)

  /** A run: every operation is well formed when it is reached and the clock never goes back. */
  ghost predicate Run(db: Db, steps: seq<Step>)
    decreases |steps|
  {
    steps == [] ||
    (&& db.clock <= steps[0].now && WellFormed(db, steps[0].op)
     && Run(After(db, steps[0].op, steps[0].now), steps[1..]))
  }

  ghost function End(db: Db, steps: seq<Step>): Db
    requires Run(db, steps)
    decreases |steps|
  {
    if steps == [] then db else End(After(db, steps[0].op, steps[0].now), steps[1..])
  }

  // ----- one step -----

  /** Every transaction either leaves no trace or has an effect the journal covers. */
  lemma StepEffect(db: Db, op: Op, now: int) returns (touched: set<Id>)
    requires Wf(db) && db.clock <= now && WellFormed(db, op)
    ensures var d := After(db, op, now); Wf(d) && (d == db || Effect(db, d, touched, now))
  {
    hide Wf, Effect, CreateTx, UpdateTx, DeleteTx, SplitTx, PutTx, GoodMaster, Stored;
    touched := {};
    if After(db, op, now) != db {
      match op
      case Create(cal, id, data) =>
        CreateKeeps(db, cal, id, data, now);
        touched := {data.master.GetOr(id)};
      case Update(id, ifMatch, patch) =>
        UpdateCommits(db, id, ifMatch, patch, now);
        UpdateKeeps(db, id, ifMatch, patch, now);
        touched := {ResourceId(id, db.rows[id])};
      case Delete(id, ifMatch) =>
        DeleteCommits(db, id, ifMatch, now);
        DeleteKeeps(db, id, ifMatch, now);
        touched := {ResourceId(id, db.rows[id])};
      case Split(id, s, c) =>
        SplitKeeps(db, id, s, c, now);
        touched := if s.continuation.Some? then {id, c} else {id};
      case PutSeries(p) =>
        PutStores(db, p, now);
        var (d, m, _) := PutTx(db, p, now).value;
        StoredKeepsWf(db, d, p, m, now);
        StoredEffect(db, d, p, m, now);
        touched := {m};
    }
  }

  lemma UpdateCommits(db: Db, id: Id, ifMatch: Option<Etag>, p: Patch, now: int)
    requires UpdateTx(db, id, ifMatch, p, now).Ok?
    ensures id in db.rows
  {
  }

  lemma DeleteCommits(db: Db, id: Id, ifMatch: Option<Etag>, now: int)
    requires DeleteTx(db, id, ifMatch, now).Ok?
    ensures id in db.rows
  {
  }

  lemma {:induction false} RunKeepsWf(db: Db, steps: seq<Step>)
    requires Wf(db) && Run(db, steps)
    ensures Wf(End(db, steps))
    decreases |steps|
  {
    hide Wf, WellFormed, After;
    if steps != [] {
      var touched := StepEffect(db, steps[0].op, steps[0].now);
      RunKeepsWf(After(db, steps[0].op, steps[0].now), steps[1..]);
    }
  }

  // ----- journal completeness -----

  /** The live rows stored as j and its overrides. */
  function PartsOf(rows: Rows, j: Id): Rows {
    map i | i in rows && PartOf(rows, i, j) && rows[i].live :: Visible(rows[i])
  }

  /** What clients see of j's resource: its live master and overrides, if the master is live. */
  function Resource(rows: Rows, j: Id): Option<Rows> {
    if IsMaster(rows, j) && rows[j].live then Some(PartsOf(rows, j)) else None
  }

  lemma UntouchedResource(rows: Rows, rows': Rows, j: Id)
    requires Untouched(rows, rows', j)
    ensures Resource(rows, j) == Resource(rows', j)
  {
    if IsMaster(rows, j) || IsMaster(rows', j) {
      assert PartOf(rows, j, j) || PartOf(rows', j, j);
      assert Visible(rows[j]) == Visible(rows'[j]);
      if rows[j].live {
        assert PartsOf(rows, j) == PartsOf(rows', j);
      }
    }
  }

  /** The entry names the master j in j's own calendar. */
  predicate EntryFor(rows: Rows, e: Entry, j: Id) { IsMaster(rows, j) && e.id == j && e.cal == rows[j].cal }

  /** j is logged between two log positions in its own calendar, whose CTag grew. */
  predicate LoggedBetween(db: Db, db': Db, j: Id) {
    exists k :: |db.log| <= k < |db'.log| && EntryFor(db'.rows, db'.log[k], j)
             && db'.log[k].cal in db.ctag && db'.log[k].cal in db'.ctag
             && db.ctag[db'.log[k].cal] < db'.ctag[db'.log[k].cal]
  }

  /** Masters are never removed and never change calendar. */
  predicate MastersStay(rows: Rows, rows': Rows) {
    forall j | j in rows && IsMaster(rows, j) :: IsMaster(rows', j) && rows'[j].cal == rows[j].cal
  }

  /** The journal and the CTags only grow, each entry with a CTag step, and masters stay. */
  predicate Grew(db: Db, db': Db) {
    db.log <= db'.log && CtagsFollow(db, db') && MastersStay(db.rows, db'.rows)
  }

  lemma GrewTransitive(a: Db, b: Db, c: Db)
    requires Grew(a, b) && Grew(b, c)
    ensures Grew(a, c)
  {
    forall k | |a.log| <= k < |c.log| && c.log[k].cal in a.ctag
      ensures a.ctag[c.log[k].cal] < c.ctag[c.log[k].cal]
    {
      if k < |b.log| {
        assert c.log[k] == b.log[k];
      }
    }
  }

  lemma StepGrows(db: Db, op: Op, now: int, j: Id)
    requires Wf(db) && db.clock <= now && WellFormed(db, op)
    ensures var d := After(db, op, now);
            && Wf(d) && Grew(db, d)
            && (Untouched(db.rows, d.rows, j) || LoggedBetween(db, d, j))
  {
    hide WellFormed, After, Untouched, MovedOn;
    var d := After(db, op, now);
    var touched := StepEffect(db, op, now);
    if d == db {
      UnchangedUntouched(db.rows, j);
    } else {
      EffectKeepsMasters(db, d, touched, now);
      if j in touched {
        assert RowOk(d, j);
        EffectLogs(db, d, touched, now, j);
      }
    }
  }

  lemma EffectKeepsMasters(db: Db, d: Db, touched: set<Id>, now: int)
    requires Effect(db, d, touched, now)
    ensures MastersStay(db.rows, d.rows)
  {
    hide Untouched, CtagsFollow;
    forall j | IsMaster(db.rows, j) ensures IsMaster(d.rows, j) && d.rows[j].cal == db.rows[j].cal {
      if j !in touched {
        KeptPart(db.rows, d.rows, j);
      }
    }
  }

  lemma EffectLogs(db: Db, d: Db, touched: set<Id>, now: int, j: Id)
    requires Effect(db, d, touched, now) && j in touched && j in d.rows && d.rows[j].cal in d.ctag
    ensures LoggedBetween(db, d, j)
  {
    hide Untouched;
    var k :| |db.log| <= k < |d.log| && d.log[k].cal == d.rows[j].cal && d.log[k].id == j;
  }

  lemma UnchangedUntouched(rows: Rows, j: Id)
    ensures Untouched(rows, rows, j)
  {
  }

  /** Change-journal completeness: over every run from every state that satisfies the
    * invariant, a resource whose content or existence differs was logged in
    * between, and its calendar's CTag has strictly grown. */
  lemma JournalComplete(db: Db, steps: seq<Step>, j: Id)
    requires Wf(db) && Run(db, steps)
    requires Resource(db.rows, j) != Resource(End(db, steps).rows, j)
    ensures LoggedBetween(db, End(db, steps), j)
  {
    hide Wf, Run, End, Resource, Untouched, LoggedBetween;
    JournalCovers(db, steps, j);
    if Untouched(db.rows, End(db, steps).rows, j) {
      UntouchedResource(db.rows, End(db, steps).rows, j);
    }
  }

  lemma {:induction false} JournalCovers(db: Db, steps: seq<Step>, j: Id)
    requires Wf(db) && Run(db, steps)
    ensures var d := End(db, steps);
            Grew(db, d) && (Untouched(db.rows, d.rows, j) || LoggedBetween(db, d, j))
    decreases |steps|
  {
    hide Wf, WellFormed, After, Untouched, LoggedBetween, CtagsFollow;
    if steps == [] {
      UnchangedUntouched(db.rows, j);
      NothingGrew(db);
    } else {
      var d := After(db, steps[0].op, steps[0].now);
      StepGrows(db, steps[0].op, steps[0].now, j);
      JournalCovers(d, steps[1..], j);
      var e := End(d, steps[1..]);
      GrewTransitive(db, d, e);
      if LoggedBetween(db, d, j) {
        LoggedEarlier(db, d, e, j);
      } else if LoggedBetween(d, e, j) {
        LoggedLater(db, d, e, j);
      } else {
        UntouchedTransitive(db.rows, d.rows, e.rows, j);
      }
    }
  }

  lemma NothingGrew(db: Db)
    ensures Grew(db, db)
  {
  }

  lemma LoggedEarlier(a: Db, b: Db, c: Db, j: Id)
    requires Grew(b, c) && LoggedBetween(a, b, j)
    ensures LoggedBetween(a, c, j)
  {
    var k :| |a.log| <= k < |b.log| && EntryFor(b.rows, b.log[k], j) && b.log[k].cal in a.ctag && b.log[k].cal in b.ctag
          && a.ctag[b.log[k].cal] < b.ctag[b.log[k].cal];
    assert c.log[k] == b.log[k];
  }

  lemma LoggedLater(a: Db, b: Db, c: Db, j: Id)
    requires Grew(a, b) && Grew(b, c) && LoggedBetween(b, c, j)
    ensures LoggedBetween(a, c, j)
  {
    var k :| |b.log| <= k < |c.log| && EntryFor(c.rows, c.log[k], j) && c.log[k].cal in b.ctag && c.log[k].cal in c.ctag
          && b.ctag[c.log[k].cal] < c.ctag[c.log[k].cal];
  }
}
