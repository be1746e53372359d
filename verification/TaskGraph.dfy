/** What the task operations do to the task graph. */
module TaskGraph {
  import opened Wrappers
  import opened EventRows
  import opened Tasks

  // ----- the removed set -----

  /** Doomed is closed, holds the target, and lies in every closed set that does. */
  lemma DoomedIsLeast(tasks: Tasks, cal: Cal, target: Id)
    requires target in tasks
    ensures target in Doomed(tasks, cal, target) && Closed(tasks, cal, Doomed(tasks, cal, target))
    ensures forall s: set<Id> | target in s && Closed(tasks, cal, s) :: Doomed(tasks, cal, target) <= s
  {
    var r := Doomed(tasks, cal, target);
    forall x, y | x in r && Pulls(tasks, cal, x, y) ensures y in r {
      forall s: set<Id> | target in s && Closed(tasks, cal, s) ensures y in s {
        assert x in s;
      }
    }
  }

  lemma LeastIsDoomed(tasks: Tasks, cal: Cal, target: Id, r: set<Id>)
    requires target in tasks && target in r && Closed(tasks, cal, r) && r <= Doomed(tasks, cal, target)
    ensures r == Doomed(tasks, cal, target)
  {
  }

  /** Everything removed was live; nothing outside the calendar is removed but the target. */
  lemma DoomedIsLive(tasks: Tasks, cal: Cal, target: Id)
    requires target in tasks && tasks[target].live && tasks[target].cal == cal
    ensures forall x | x in Doomed(tasks, cal, target) :: x in tasks && tasks[x].live && tasks[x].cal == cal
  {
    var s := set x | x in tasks && tasks[x].live && tasks[x].cal == cal;
    assert Closed(tasks, cal, s);
    DoomedIsLeast(tasks, cal, target);
  }

  /** After a deletion no live task of the calendar is an override or a subtask, by UID,
    * of a removed one. */
  lemma NothingDangles(db: TaskDb, d: TaskDb, id: Id, now: int, x: Id, y: Id)
    requires id in db.tasks && DeletedTask(db, d, id, now)
    requires x in Doomed(db.tasks, db.tasks[id].cal, id) && y in d.tasks && d.tasks[y].live
    requires d.tasks[y].cal == db.tasks[id].cal
    ensures d.tasks[y].master != Some(x) && d.tasks[y].parent != Some(db.tasks[x].uid)
  {
    var cal := db.tasks[id].cal;
    DoomedIsLeast(db.tasks, cal, id);
    assert Pulls(db.tasks, cal, x, y) ==> y in Doomed(db.tasks, cal, id);
  }

  /** The UID of an override is its master's, so deleting one occurrence removes every
    * subtask of the series; the master itself goes only if it is pulled too. */
  lemma OverrideTakesSubtasks(tasks: Tasks, cal: Cal, o: Id, m: Id, y: Id)
    requires o in tasks && m in tasks && tasks[o].master == Some(m) && tasks[o].uid == tasks[m].uid
    requires y in tasks && tasks[y].live && tasks[y].cal == cal && tasks[y].parent == Some(tasks[m].uid)
    ensures y in Doomed(tasks, cal, o)
    ensures tasks[m].parent == None && tasks[m].master == None && m != o ==> m !in Doomed(tasks, cal, o)
  {
    DoomedIsLeast(tasks, cal, o);
    assert Pulls(tasks, cal, o, y);
    if tasks[m].parent == None && tasks[m].master == None && m != o {
      var s := (set x | x in tasks && x != m);
      assert Closed(tasks, cal, s);
    }
  }

  /** Deleting a task removes nothing else exactly if no other live task overrides it or is
    * a subtask by its UID; for an occurrence that is its whole series' UID. */
  lemma OnlyItselfExactly(tasks: Tasks, cal: Cal, o: Id)
    requires o in tasks
    ensures Doomed(tasks, cal, o) == {o} <==>
            forall y | y in tasks && tasks[y].cal == cal && tasks[y].live
              && (tasks[y].master == Some(o) || tasks[y].parent == Some(tasks[o].uid)) :: y == o
  {
    DoomedIsLeast(tasks, cal, o);
    if Doomed(tasks, cal, o) == {o} {
      forall y | y in tasks && tasks[y].cal == cal && tasks[y].live
                   && (tasks[y].master == Some(o) || tasks[y].parent == Some(tasks[o].uid))
        ensures y == o
      {
        assert Pulls(tasks, cal, o, y);
      }
    }
    if forall y | Pulls(tasks, cal, o, y) :: y == o {
      assert Closed(tasks, cal, {o});
    }
  }

  // ----- the bounded walk -----

  lemma {:induction false} ClimbOnce(tasks: Tasks, cal: Cal, u: string, p: string, n: nat)
    requires ParentOf(tasks, cal, u) == Some(p)
    ensures Climb(tasks, cal, u, n + 1) == Climb(tasks, cal, p, n)
  {
    if n == 0 {
      assert Climb(tasks, cal, u, 0) == Some(u);
    } else {
      ClimbOnce(tasks, cal, u, p, n - 1);
    }
  }

  lemma {:induction false} ClimbFromRoot(tasks: Tasks, cal: Cal, u: string, n: nat)
    requires ParentOf(tasks, cal, u) == None && 0 < n
    ensures Climb(tasks, cal, u, n) == None
  {
    if n == 1 {
      assert Climb(tasks, cal, u, 0) == Some(u);
    } else {
      ClimbFromRoot(tasks, cal, u, n - 1);
    }
  }

  /** The UID is among the first k ancestors, from itself counted first. */
  ghost predicate IsAncestor(tasks: Tasks, cal: Cal, from: string, uid: string, k: nat) {
    exists n: nat :: n < k && Climb(tasks, cal, from, n) == Some(uid)
  }

  lemma AncestorOneMore(tasks: Tasks, cal: Cal, from: string, p: string, uid: string, k: nat)
    requires ParentOf(tasks, cal, from) == Some(p) && from != uid
    ensures IsAncestor(tasks, cal, from, uid, k + 1) <==> IsAncestor(tasks, cal, p, uid, k)
  {
    hide Climb;
    if n: nat :| n < k + 1 && Climb(tasks, cal, from, n) == Some(uid) {
      assert n != 0 by { ClimbNowhere(tasks, cal, from); }
      ClimbOnce(tasks, cal, from, p, n - 1);
      assert Climb(tasks, cal, p, n - 1) == Some(uid);
    }
    if n: nat :| n < k && Climb(tasks, cal, p, n) == Some(uid) {
      ClimbOnce(tasks, cal, from, p, n);
      assert Climb(tasks, cal, from, n + 1) == Some(uid);
    }
  }

  lemma ClimbNowhere(tasks: Tasks, cal: Cal, from: string)
    ensures Climb(tasks, cal, from, 0) == Some(from)
  {
  }

  /** The walk says Cycle exactly if the task's UID is among the proposed parent and its
    * next ancestors, as many as the walk may visit. */
  lemma {:induction false} WalkFindsCycles(tasks: Tasks, cal: Cal, uid: string, from: string, left: nat)
    ensures Walk(tasks, cal, uid, from, left) == Cycle <==> IsAncestor(tasks, cal, from, uid, left)
    decreases left
  {
    hide Climb;
    ClimbNowhere(tasks, cal, from);
    if 0 < left && from != uid {
      match ParentOf(tasks, cal, from)
      case None =>
        forall n: nat | 0 < n ensures Climb(tasks, cal, from, n) == None {
          ClimbFromRoot(tasks, cal, from, n);
        }
      case Some(p) =>
        WalkFindsCycles(tasks, cal, uid, p, left - 1);
        AncestorOneMore(tasks, cal, from, p, uid, left - 1);
    }
  }

  /** It passes only if the UID is no ancestor at all, and gives up only if there are
    * more ancestors than it may visit. */
  lemma {:induction false} WalkPassesOnlyTrees(tasks: Tasks, cal: Cal, uid: string, from: string, left: nat)
    ensures Walk(tasks, cal, uid, from, left) == Fine ==> !Reaches(tasks, cal, from, uid)
    ensures Walk(tasks, cal, uid, from, left) == TooDeep ==> Climb(tasks, cal, from, left).Some?
    ensures Walk(tasks, cal, uid, from, left) == Fine ==> Climb(tasks, cal, from, left) == None
    decreases left
  {
    hide Climb;
    ClimbNowhere(tasks, cal, from);
    if 0 < left && from != uid {
      match ParentOf(tasks, cal, from)
      case None =>
        forall n: nat | 0 < n ensures Climb(tasks, cal, from, n) == None {
          ClimbFromRoot(tasks, cal, from, n);
        }
      case Some(p) =>
        WalkPassesOnlyTrees(tasks, cal, uid, p, left - 1);
        ClimbOnce(tasks, cal, from, p, left - 1);
        ReachesOneMore(tasks, cal, from, p, uid);
    }
  }

  lemma ReachesOneMore(tasks: Tasks, cal: Cal, from: string, p: string, uid: string)
    requires ParentOf(tasks, cal, from) == Some(p) && from != uid
    ensures Reaches(tasks, cal, from, uid) ==> Reaches(tasks, cal, p, uid)
  {
    if n: nat :| Climb(tasks, cal, from, n) == Some(uid) {
      assert IsAncestor(tasks, cal, from, uid, n + 1);
      AncestorOneMore(tasks, cal, from, p, uid, n);
    }
  }

  // ----- what an accepted update does to the parent relation -----

  /** The parent relation is left alone, or changed for one UID. */
  ghost predicate Reparents(tasks: Tasks, tasks': Tasks, cal: Cal, uid: string, p: Option<string>) {
    ParentOf(tasks', cal, uid) == p && forall v: string | v != uid ::
      ParentOf(tasks', cal, v) == ParentOf(tasks, cal, v)
  }

  /** Climbing in the new relation is climbing in the old one until uid is met. */
  lemma {:induction false} ClimbUntilMet(tasks: Tasks, tasks': Tasks, cal: Cal, uid: string, p: Option<string>,
      from: string, n: nat)
    requires Reparents(tasks, tasks', cal, uid, p)
    ensures IsAncestor(tasks, cal, from, uid, n) || Climb(tasks', cal, from, n) == Climb(tasks, cal, from, n)
  {
    if n != 0 {
      ClimbUntilMet(tasks, tasks', cal, uid, p, from, n - 1);
      if !IsAncestor(tasks, cal, from, uid, n) {
        assert Climb(tasks, cal, from, n - 1) != Some(uid);
      }
    }
  }

  lemma {:induction false} ClimbSum(tasks: Tasks, cal: Cal, u: string, i: nat, v: string, j: nat)
    requires Climb(tasks, cal, u, i) == Some(v)
    ensures Climb(tasks, cal, u, i + j) == Climb(tasks, cal, v, j)
    decreases j
  {
    if j == 0 {
      ClimbNowhere(tasks, cal, v);
    } else {
      ClimbSum(tasks, cal, u, i, v, j - 1);
    }
  }

  lemma AncestorStep(tasks: Tasks, cal: Cal, from: string, uid: string, n: nat)
    ensures IsAncestor(tasks, cal, from, uid, n + 1) <==>
            IsAncestor(tasks, cal, from, uid, n) || Climb(tasks, cal, from, n) == Some(uid)
  {
    hide Climb;
    if IsAncestor(tasks, cal, from, uid, n) {
      AncestorGrows(tasks, cal, from, uid, n, n + 1);
    }
  }

  /** The first time uid is met, the old and the new climb agree. */
  lemma {:induction false} MetInBoth(tasks: Tasks, tasks': Tasks, cal: Cal, uid: string, p: Option<string>,
      from: string, n: nat)
    requires Reparents(tasks, tasks', cal, uid, p)
    ensures IsAncestor(tasks', cal, from, uid, n) <==> IsAncestor(tasks, cal, from, uid, n)
  {
    hide Climb, Reparents;
    if n != 0 {
      hide IsAncestor;
      MetInBoth(tasks, tasks', cal, uid, p, from, n - 1);
      ClimbUntilMet(tasks, tasks', cal, uid, p, from, n - 1);
      AncestorStep(tasks, cal, from, uid, n - 1);
      AncestorStep(tasks', cal, from, uid, n - 1);
    }
  }

  lemma AncestorGrows(tasks: Tasks, cal: Cal, from: string, uid: string, k: nat, n: nat)
    requires IsAncestor(tasks, cal, from, uid, k) && k <= n
    ensures IsAncestor(tasks, cal, from, uid, n)
  {
    var i: nat :| i < k && Climb(tasks, cal, from, i) == Some(uid);
    assert i < n && Climb(tasks, cal, from, i) == Some(uid);
  }

  /** Giving uid a parent keeps the relation acyclic exactly if that parent does not lead
    * back to uid. */
  lemma ReparentAcyclic(tasks: Tasks, tasks': Tasks, cal: Cal, uid: string, p: Option<string>)
    requires Reparents(tasks, tasks', cal, uid, p) && Acyclic(tasks, cal)
    ensures Acyclic(tasks', cal) <==> (p.Some? ==> !Reaches(tasks, cal, p.value, uid))
  {
    if p.Some? && Reaches(tasks, cal, p.value, uid) {
      ReparentLoops(tasks, tasks', cal, uid, p.value);
    } else {
      forall u: string, n: nat | 0 < n ensures Climb(tasks', cal, u, n) != Some(u) {
        NoNewLoop(tasks, tasks', cal, uid, p, u, n);
      }
    }
  }

  lemma ReparentLoops(tasks: Tasks, tasks': Tasks, cal: Cal, uid: string, p: string)
    requires Reparents(tasks, tasks', cal, uid, Some(p)) && Reaches(tasks, cal, p, uid)
    ensures !Acyclic(tasks', cal)
  {
    var n: nat :| Climb(tasks, cal, p, n) == Some(uid);
    assert IsAncestor(tasks, cal, p, uid, n + 1);
    MetInBoth(tasks, tasks', cal, uid, Some(p), p, n + 1);
    var k: nat :| k < n + 1 && Climb(tasks', cal, p, k) == Some(uid);
    ClimbOnce(tasks', cal, uid, p, k);
    assert Climb(tasks', cal, uid, k + 1) == Some(uid);
  }

  lemma NoNewLoop(tasks: Tasks, tasks': Tasks, cal: Cal, uid: string, p: Option<string>, u: string, n: nat)
    requires Reparents(tasks, tasks', cal, uid, p) && Acyclic(tasks, cal) && 0 < n
    requires p.Some? ==> !Reaches(tasks, cal, p.value, uid)
    ensures Climb(tasks', cal, u, n) != Some(u)
  {
    hide Climb;
    if Climb(tasks', cal, u, n) == Some(u) {
      ClimbUntilMet(tasks, tasks', cal, uid, p, u, n);
      assert IsAncestor(tasks, cal, u, uid, n);
      MetInBoth(tasks, tasks', cal, uid, p, u, n);
      var i: nat :| i < n && Climb(tasks', cal, u, i) == Some(uid);
      ClimbSum(tasks', cal, u, i, uid, n - i);
      ClimbSum(tasks', cal, uid, n - i, u, i);
      NoLoopThrough(tasks, tasks', cal, uid, p, n);
    }
  }

  lemma NoLoopThrough(tasks: Tasks, tasks': Tasks, cal: Cal, uid: string, p: Option<string>, n: nat)
    requires Reparents(tasks, tasks', cal, uid, p) && 0 < n
    requires p.Some? ==> !Reaches(tasks, cal, p.value, uid)
    ensures Climb(tasks', cal, uid, n) != Some(uid)
  {
    hide Climb;
    match p
    case None => ClimbFromRoot(tasks', cal, uid, n);
    case Some(q) =>
      ClimbOnce(tasks', cal, uid, q, n - 1);
      if Climb(tasks', cal, q, n - 1) == Some(uid) {
        assert IsAncestor(tasks', cal, q, uid, n);
        MetInBoth(tasks, tasks', cal, uid, p, q, n);
      }
  }

  // ----- update_task -----

  /** The indexes and column checks the parent lookup relies on. */
  predicate Keyed(tasks: Tasks) { UniqueUids(tasks) && MastersHaveNoRid(tasks) }

  lemma ParentIs(tasks: Tasks, cal: Cal, uid: string, i: Id)
    requires Keyed(tasks) && IsMasterOf(tasks, cal, uid, i)
    ensures ParentOf(tasks, cal, uid) == tasks[i].parent
  {
    forall j | IsMasterOf(tasks, cal, uid, j) ensures j == i {
    }
  }

  /** An accepted update changes the written row, and of its master sequence, time and etag. */
  lemma UpdatedRows(db: TaskDb, id: Id, ifMatch: Option<Etag>, p: TaskPatch, now: int)
    requires UpdateTask(db, id, ifMatch, p, now).Ok? && Keyed(db.tasks)
    requires db.tasks[id].master.Some? ==> db.tasks[id].master.value != id
    ensures var d := UpdateTask(db, id, ifMatch, p, now).value;
            && d.tasks.Keys == db.tasks.Keys && Keyed(d.tasks) && d.clock == now
            && d.tasks[id] == PatchedTask(db.tasks[id], p, now)
            && forall i | i in db.tasks && i != id ::
                 d.tasks[i] == db.tasks[i].(sequence := d.tasks[i].sequence, updatedAt := d.tasks[i].updatedAt,
                                            etag := d.tasks[i].etag)
  {
    hide Walk, Keyed, PatchedTask, ChecksParent;
    PatchedPlace(db.tasks[id], p, now);
    KeyedKept(db.tasks, UpdateTask(db, id, ifMatch, p, now).value.tasks);
  }

  predicate SamePlace(t: Task,
      t': Task) { t'.cal == t.cal && t'.uid == t.uid && t'.rid == t.rid && t'.master == t.master }

  lemma PatchedPlace(t: Task, p: TaskPatch, now: int)
    ensures SamePlace(t, PatchedTask(t, p, now))
  {
  }

  lemma KeyedKept(tasks: Tasks, tasks': Tasks)
    requires Keyed(tasks) && tasks'.Keys == tasks.Keys && forall i | i in tasks :: SamePlace(tasks[i], tasks'[i])
    ensures Keyed(tasks')
  {
  }

  /** The column checks on dates: each pair exclusive, DURATION excludes DUE. */
  predicate Exclusive(t: Timing) {
    && !(t.startsAt.Some? && t.startDate.Some?) && !(t.dueAt.Some? && t.dueDate.Some?)
    && !(t.duration.Some? && (t.dueAt.Some? || t.dueDate.Some?))
  }

  /** Whatever the patch holds, the written dates satisfy the column checks, and a date in
    * the patch is the one written. */
  lemma TimingStaysExclusive(t: Timing, p: Timing)
    requires Exclusive(t)
    ensures var r := PatchedTiming(t, p);
            && Exclusive(r)
            && (p.startDate.Some? ==> r.startDate == p.startDate)
            && (p.startDate == None && p.startsAt.Some? ==> r.startsAt == p.startsAt)
            && (p.duration.Some? ==> r.duration == p.duration)
            && (p.duration == None && p.dueDate.Some? ==> r.dueDate == p.dueDate)
            && (p.duration == None && p.dueDate == None && p.dueAt.Some? ==> r.dueAt == p.dueAt)
            && (p == Timing(None, None, None, None, None) ==> r == t)
  {
  }

  lemma SameParents(tasks: Tasks, tasks': Tasks, cal: Cal, v: string)
    requires Keyed(tasks) && Keyed(tasks') && tasks'.Keys == tasks.Keys
    requires forall i | i in tasks :: IsMasterOf(tasks, cal, v, i) || IsMasterOf(tasks', cal, v, i) ==>
               IsMasterOf(tasks, cal, v, i) && IsMasterOf(tasks', cal, v, i) && tasks'[i].parent == tasks[i].parent
    ensures ParentOf(tasks', cal, v) == ParentOf(tasks, cal, v)
  {
    if i :| IsMasterOf(tasks, cal, v, i) {
      ParentIs(tasks, cal, v, i);
      ParentIs(tasks', cal, v, i);
    } else {
      assert forall i :: !IsMasterOf(tasks', cal, v, i);
    }
  }

  lemma UpdateReparents(db: TaskDb, id: Id, ifMatch: Option<Etag>, p: TaskPatch, now: int)
    requires Keyed(db.tasks) && UpdateTask(db, id, ifMatch, p, now).Ok?
    requires db.tasks[id].master.Some? ==> db.tasks[id].master.value != id
    ensures var d := UpdateTask(db, id, ifMatch, p, now).value; var t := db.tasks[id];
            if t.master == None then Reparents(db.tasks, d.tasks, t.cal, t.uid, p.parent.GetOr(t.parent))
            else forall v: string :: ParentOf(d.tasks, t.cal, v) == ParentOf(db.tasks, t.cal, v)
  {
    hide Keyed, UpdateTask;
    UpdateCommits(db, id, ifMatch, p, now);
    UpdatedRows(db, id, ifMatch, p, now);
    var d := UpdateTask(db, id, ifMatch, p, now).value;
    var t := db.tasks[id];
    forall v: string | t.master.Some? || v != t.uid
      ensures ParentOf(d.tasks, t.cal, v) == ParentOf(db.tasks, t.cal, v)
    {
      SameParents(db.tasks, d.tasks, t.cal, v);
    }
    if t.master == None {
      assert IsMasterOf(d.tasks, t.cal, t.uid, id);
      ParentIs(d.tasks, t.cal, t.uid, id);
    }
  }

  lemma UpdateCommits(db: TaskDb, id: Id, ifMatch: Option<Etag>, p: TaskPatch, now: int)
    requires UpdateTask(db, id, ifMatch, p, now).Ok?
    ensures id in db.tasks && db.tasks[id].live
    ensures var t := db.tasks[id];
            ChecksParent(t, p) ==> Walk(db.tasks, t.cal, t.uid, p.parent.value.value, WALK_LIMIT) == Fine
  {
  }

  lemma SameRelation(tasks: Tasks, tasks': Tasks, cal: Cal)
    requires forall v: string :: ParentOf(tasks', cal, v) == ParentOf(tasks, cal, v)
    ensures Acyclic(tasks', cal) <==> Acyclic(tasks, cal)
  {
    forall u: string, n: nat ensures Climb(tasks', cal, u, n) == Climb(tasks, cal, u, n) {
      SameClimb(tasks, tasks', cal, u, n);
    }
  }

  lemma {:induction false} SameClimb(tasks: Tasks, tasks': Tasks, cal: Cal, u: string, n: nat)
    requires forall v: string :: ParentOf(tasks', cal, v) == ParentOf(tasks, cal, v)
    ensures Climb(tasks', cal, u, n) == Climb(tasks, cal, u, n)
  {
    if n != 0 {
      SameClimb(tasks, tasks', cal, u, n - 1);
    }
  }

  /** The one hole in the cycle check: giving a task without a parent the empty string. */
  ghost predicate SlipsThrough(tasks: Tasks, t: Task, p: TaskPatch) {
    t.master == None && t.parent == None && p.parent == Some(Some("")) && Reaches(tasks, t.cal, "", t.uid)
  }

  /** An accepted update keeps an acyclic parent relation acyclic, except through that hole. */
  lemma UpdateKeepsAcyclic(db: TaskDb, id: Id, ifMatch: Option<Etag>, p: TaskPatch, now: int)
    requires Keyed(db.tasks) && UpdateTask(db, id, ifMatch, p, now).Ok?
    requires db.tasks[id].master.Some? ==> db.tasks[id].master.value != id
    requires Acyclic(db.tasks, db.tasks[id].cal)
    ensures Acyclic(UpdateTask(db, id, ifMatch, p, now).value.tasks, db.tasks[id].cal) <==>
            !SlipsThrough(db.tasks, db.tasks[id], p)
  {
    hide UpdateTask, Keyed, Acyclic, Reaches, Walk;
    UpdateCommits(db, id, ifMatch, p, now);
    UpdateReparents(db, id, ifMatch, p, now);
    var d := UpdateTask(db, id, ifMatch, p, now).value;
    var t := db.tasks[id];
    if t.master.Some? {
      SameRelation(db.tasks, d.tasks, t.cal);
    } else {
      ReparentAcyclic(db.tasks, d.tasks, t.cal, t.uid, p.parent.GetOr(t.parent));
      if ChecksParent(t, p) {
        WalkPassesOnlyTrees(db.tasks, t.cal, t.uid, p.parent.value.value, WALK_LIMIT);
      } else if t.parent.Some? && p.parent.GetOr(t.parent).Some? {
        ParentIs(db.tasks, t.cal, t.uid, id);
        ParentNeverLeadsBack(db.tasks, t.cal, t.uid, t.parent.value);
      }
    }
  }

  lemma ParentNeverLeadsBack(tasks: Tasks, cal: Cal, uid: string, p: string)
    requires Acyclic(tasks, cal) && ParentOf(tasks, cal, uid) == Some(p)
    ensures !Reaches(tasks, cal, p, uid)
  {
    if n: nat :| Climb(tasks, cal, p, n) == Some(uid) {
      ClimbOnce(tasks, cal, uid, p, n);
    }
  }

  /** A checked parent is refused exactly if the task is among its first ancestors or it
    * has more ancestors than the walk may visit. */
  lemma RefusalExact(db: TaskDb, id: Id, p: TaskPatch, now: int)
    requires id in db.tasks && db.tasks[id].live && ChecksParent(db.tasks[id], p)
    requires !(p.timing.duration.Some? && (p.timing.dueAt.Some? || p.timing.dueDate.Some?))
    ensures var t := db.tasks[id]; var parent := p.parent.value.value;
            UpdateTask(db, id, None, p, now) == Err(Conflict)
            <==> IsAncestor(db.tasks, t.cal, parent, t.uid, 64) || Climb(db.tasks, t.cal, parent, 64).Some?
  {
    hide Walk, Climb, IsAncestor;
    var t := db.tasks[id];
    WalkFindsCycles(db.tasks, t.cal, t.uid, p.parent.value.value, WALK_LIMIT);
    WalkPassesOnlyTrees(db.tasks, t.cal, t.uid, p.parent.value.value, WALK_LIMIT);
    AncestorIsReached(db.tasks, t.cal, t.uid, p.parent.value.value);
  }

  lemma AncestorIsReached(tasks: Tasks, cal: Cal, uid: string, from: string)
    ensures IsAncestor(tasks, cal, from, uid, WALK_LIMIT) ==> Reaches(tasks, cal, from, uid)
  {
    hide Climb;
  }

  // ----- what a client sees -----

  /** The parent of a UID: what its live master in the calendar says, and none if there is none. */
  lemma ParentExactly(tasks: Tasks, cal: Cal, uid: string, p: string)
    requires Keyed(tasks)
    ensures ParentOf(tasks, cal, uid) == Some(p) <==>
            exists i :: i in tasks && tasks[i].cal == cal && tasks[i].uid == uid && tasks[i].live
                   && tasks[i].master == None && tasks[i].parent == Some(p)
  {
    hide Keyed;
    if i :| IsMasterOf(tasks, cal, uid, i) {
      ParentIs(tasks, cal, uid, i);
    }
    forall i | i in tasks && tasks[i].cal == cal && tasks[i].uid == uid && tasks[i].live && tasks[i].master == None
      ensures ParentOf(tasks, cal, uid) == tasks[i].parent
    {
      ParentIs(tasks, cal, uid, i);
    }
  }

  /** The dates a patch leaves: a date wins over an instant, a DURATION over both, what is given
    * clears its partners, and where nothing is given the row's own stay. */
  predicate TimingTook(t: Timing, t': Timing, p: Timing) {
    && (p.startDate.Some? ==> t'.startDate == p.startDate && t'.startsAt == None)
    && (p.startDate == None && p.startsAt.Some? ==> t'.startsAt == p.startsAt && t'.startDate == None)
    && (p.startDate == None && p.startsAt == None ==> t'.startsAt == t.startsAt && t'.startDate == t.startDate)
    && (p.duration.Some? ==> t'.duration == p.duration && t'.dueAt == None && t'.dueDate == None)
    && (p.duration == None && p.dueDate.Some? ==>
          t'.dueDate == p.dueDate && t'.dueAt == None && t'.duration == None)
    && (p.duration == None && p.dueDate == None && p.dueAt.Some? ==>
          t'.dueAt == p.dueAt && t'.dueDate == None && t'.duration == None)
    && (p.duration == None && p.dueDate == None && p.dueAt == None ==>
          t'.dueAt == t.dueAt && t'.dueDate == t.dueDate && t'.duration == t.duration)
  }

  /** Every part of the patch in its column, one sequence step, a new time and etag. */
  predicate TaskTook(t: Task, t': Task, p: TaskPatch, now: int) {
    && TimingTook(t.timing, t'.timing, p.timing)
    && t'.parent == (match p.parent case Some(x) => x case None => t.parent)
    && t'.details.Keys == t.details.Keys + p.details.Keys
    && (forall k | k in p.details :: t'.details[k] == p.details[k])
    && (forall k | k in t.details && k !in p.details :: t'.details[k] == t.details[k])
    && t'.sequence == t.sequence + 1 && t'.updatedAt == now && t'.etag == Etag(t.cal, t.sequence + 1, now)
    && t' == t.(timing := t'.timing, parent := t'.parent, details := t'.details, sequence := t'.sequence,
                updatedAt := t'.updatedAt, etag := t'.etag)
  }

  lemma PatchedSeen(t: Task, p: TaskPatch, now: int)
    ensures TaskTook(t, PatchedTask(t, p, now), p, now)
  {
  }

  /** Every row after an accepted update, and the one journal entry: the written row takes the
    * patch; an override's master moves on by one sequence step; no other row is written. */
  lemma UpdateSeen(db: TaskDb, id: Id, ifMatch: Option<Etag>, p: TaskPatch, now: int)
    requires UpdateTask(db, id, ifMatch, p, now).Ok?
    requires id in db.tasks && db.tasks[id].master.Some? ==>
               db.tasks[id].master.value != id && db.tasks[id].master.value in db.tasks
    ensures id in db.tasks
    ensures var d := UpdateTask(db, id, ifMatch, p, now).value; var t := db.tasks[id];
            && d.tasks.Keys == db.tasks.Keys && TaskTook(t, d.tasks[id], p, now) && d.clock == now
            && (forall i | i in db.tasks && i != id ::
                  if t.master == Some(i) then
                    d.tasks[i] == db.tasks[i].(sequence := db.tasks[i].sequence + 1, updatedAt := now,
                                               etag := Etag(t.cal, db.tasks[i].sequence + 1, now))
                  else d.tasks[i] == db.tasks[i])
            && d.log == db.log + [Entry(t.cal, if t.master.Some? then t.master.value else id, Updated)]
            && d.ctag.Keys == db.ctag.Keys
            && forall c | c in db.ctag :: d.ctag[c] == db.ctag[c] + if c == t.cal then 1 else 0
  {
    hide Walk, PatchedTask, ChecksParent, TaskTook;
    PatchedSeen(db.tasks[id], p, now);
    PatchedPlace(db.tasks[id], p, now);
  }

  /** An update is accepted exactly for a live task whose stored etag is the one given, if one is
    * given, with no DURATION beside a due date or time, and with a parent that is the one the task
    * has, none, or one the walk passes; a task without a parent passes the empty one unwalked. */
  lemma UpdateAccepted(db: TaskDb, id: Id, ifMatch: Option<Etag>, p: TaskPatch, now: int)
    ensures UpdateTask(db, id, ifMatch, p, now).Ok? <==>
            && id in db.tasks && db.tasks[id].live && (ifMatch == None || ifMatch == Some(db.tasks[id].etag))
            && !(p.timing.duration.Some? && (p.timing.dueAt.Some? || p.timing.dueDate.Some?))
            && (p.parent.Some? && p.parent.value.Some? && p.parent.value != db.tasks[id].parent
                  && !(p.parent.value == Some("") && db.tasks[id].parent == None) ==>
                  var (t, parent) := (db.tasks[id], p.parent.value.value);
                  !IsAncestor(db.tasks, t.cal, parent, t.uid, 64) && Climb(db.tasks, t.cal, parent, 64) == None)
    ensures UpdateTask(db, id, ifMatch, p, now) == Err(NotFound) <==> !(id in db.tasks && db.tasks[id].live)
  {
    hide Walk, Climb, IsAncestor, AppendedTask, PatchedTask;
    if id in db.tasks && p.parent.Some? && p.parent.value.Some? {
      var (t, parent) := (db.tasks[id], p.parent.value.value);
      WalkFindsCycles(db.tasks, t.cal, t.uid, parent, WALK_LIMIT);
      WalkPassesOnlyTrees(db.tasks, t.cal, t.uid, parent, WALK_LIMIT);
      AncestorIsReached(db.tasks, t.cal, t.uid, parent);
    }
  }

  /** A set of tasks that takes along the live overrides and the live subtasks of all its own. */
  ghost predicate TakesAlong(tasks: Tasks, cal: Cal, s: set<Id>) {
    forall x, y | x in s && x in tasks && y in tasks && tasks[y].cal == cal && tasks[y].live
                    && (tasks[y].master == Some(x) || tasks[y].parent == Some(tasks[x].uid)) ::
      y in s
  }

  /** A deletion hides the target and what hangs under it, step by step, and nothing more: the rows
    * hidden take along all theirs, and lie in every set that does and holds the target. Every
    * hidden row keeps its columns and is logged once; every other row stays as it was. */
  lemma DeleteSeen(db: TaskDb, d: TaskDb, id: Id, now: int) returns (hidden: set<Id>)
    requires id in db.tasks && db.tasks[id].live && DeletedTask(db, d, id, now)
    ensures var (tasks, cal) := (db.tasks, db.tasks[id].cal);
            && id in hidden && hidden <= tasks.Keys && TakesAlong(tasks, cal, hidden)
            && (forall s: set<Id> | id in s && TakesAlong(tasks, cal, s) :: hidden <= s)
            && (forall i | i in hidden :: tasks[i].live && tasks[i].cal == cal)
            && d.tasks.Keys == tasks.Keys
            && (forall i | i in tasks :: d.tasks[i] == if i in hidden then tasks[i].(live := false) else tasks[i])
            && |d.log| == |db.log| + |hidden| && d.log[..|db.log|] == db.log
            && (forall i :: i in hidden <==> Entry(cal, i, Deleted) in d.log[|db.log|..])
            && d.ctag.Keys == db.ctag.Keys && d.clock == now
            && forall c | c in db.ctag :: d.ctag[c] == db.ctag[c] + if c == cal then 1 else 0
  {
    hide Doomed;
    var (tasks, cal) := (db.tasks, db.tasks[id].cal);
    hidden := Doomed(tasks, cal, id);
    DoomedIsLeast(tasks, cal, id);
    DoomedIsLive(tasks, cal, id);
    forall s: set<Id> | id in s && TakesAlong(tasks, cal, s) ensures hidden <= s {
      assert Closed(tasks, cal, s);
    }
    assert TakesAlong(tasks, cal, hidden) by {
      forall x, y | x in hidden && x in tasks && y in tasks && tasks[y].cal == cal && tasks[y].live
                      && (tasks[y].master == Some(x) || tasks[y].parent == Some(tasks[x].uid))
        ensures y in hidden
      {
        assert Pulls(tasks, cal, x, y);
      }
    }
  }
}
