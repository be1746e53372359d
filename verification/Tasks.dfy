/** Tasks: overrides under a master, subtasks chained by the parent's UID, and the
  * two operations that walk this graph. */
module Tasks {
  import opened Wrappers
  import opened EventRows

  /** Dates and times of a task: each pair excludes its partner, DURATION excludes DUE. */
  datatype Timing = Timing(
    startsAt: Option<int>, startDate: Option<int>, dueAt: Option<int>, dueDate: Option<int>, duration: Option<int>)

  datatype Task = Task(
    cal: Cal, uid: string, master: Option<Id>, rid: Option<Rid>, parent: Option<string>,
    timing: Timing, details: map<string, string>,
    sequence: int, etag: Etag, live: bool, updatedAt: int)

  type Tasks = map<Id, Task>

  datatype TaskDb = TaskDb(tasks: Tasks, log: seq<Entry>, ctag: map<Cal, nat>, clock: int)

  function TaskEtag(t: Task): Etag { Etag(t.cal, t.sequence, t.updatedAt) }

  /** The unique index over calendar, UID and RECURRENCE-ID, deleted rows included. */
  predicate UniqueUids(tasks: Tasks) {
    forall i, j | i in tasks && j in tasks && tasks[i].cal == tasks[j].cal && tasks[i].uid == tasks[j].uid
        && RidKey(tasks[i].rid) == RidKey(tasks[j].rid) :: i == j
  }

  /** Masters have no RECURRENCE-ID and overrides have one. */
  predicate MastersHaveNoRid(tasks: Tasks) {
    forall i | i in tasks :: tasks[i].master == None <==> tasks[i].rid == None
  }

  function RecordedTask(db: TaskDb, cal: Cal, id: Id, op: Operation): TaskDb {
    db.(log := db.log + [Entry(cal, id, op)],
        ctag := if cal in db.ctag then db.ctag[cal := db.ctag[cal] + 1] else db.ctag)
  }

  // ----- the parent relation -----

  predicate IsMasterOf(tasks: Tasks, cal: Cal, uid: string, i: Id) {
    i in tasks && tasks[i].cal == cal && tasks[i].uid == uid && tasks[i].live && tasks[i].master == None
  }

  /** The parent UID of the live master with this UID. */
  ghost function ParentOf(tasks: Tasks, cal: Cal, uid: string): (r: Option<string>)
    ensures (forall i :: !IsMasterOf(tasks, cal, uid, i)) ==> r == None
    ensures r.Some? ==> exists i :: IsMasterOf(tasks, cal, uid, i) && tasks[i].parent == r
  {
    if exists i :: IsMasterOf(tasks, cal, uid, i) then
      var i :| IsMasterOf(tasks, cal, uid, i); tasks[i].parent
    else None
  }

  /** n steps up from uid. */
  ghost function Climb(tasks: Tasks, cal: Cal, uid: string, n: nat): Option<string> {
    if n == 0 then Some(uid)
    else
      match Climb(tasks, cal, uid, n - 1)
      case None => None
      case Some(v) => ParentOf(tasks, cal, v)
  }

  ghost predicate Reaches(tasks: Tasks, cal: Cal, from: string, to: string) {
    exists n: nat :: Climb(tasks, cal, from, n) == Some(to)
  }

  /** No UID is its own ancestor. */
  ghost predicate Acyclic(tasks: Tasks, cal: Cal) {
    forall u: string, n: nat | 0 < n :: Climb(tasks, cal, u, n) != Some(u)
  }

  datatype Verdict = Fine | Cycle | TooDeep

  const WALK_LIMIT := 64

  /** The bounded walk up from current, with the number of steps it has left. */
  ghost function Walk(tasks: Tasks, cal: Cal, uid: string, current: string, left: nat): Verdict
    decreases left
  {
    if left == 0 then TooDeep
    else if current == uid then Cycle
    else
      match ParentOf(tasks, cal, current)
      case None => Fine
      case Some(p) => Walk(tasks, cal, uid, p, left - 1)
  }

  // ----- update_task -----

  datatype TaskPatch = TaskPatch(
    timing: Timing, parent: Option<Option<string>>, details: map<string, string>)

  function PatchedTiming(t: Timing, p: Timing): Timing {
    var (startsAt, startDate) :=
      if p.startDate.Some? then (None, p.startDate) else if p.startsAt.Some? then (p.startsAt, None)
      else (t.startsAt, t.startDate);
    var (dueAt, dueDate, duration) :=
      if p.duration.Some? then (None, None, p.duration)
      else if p.dueDate.Some? then (None, p.dueDate, None)
      else if p.dueAt.Some? then (p.dueAt, None, None)
      else (t.dueAt, t.dueDate, t.duration);
    Timing(startsAt, startDate, dueAt, dueDate, duration)
  }

  function PatchedTask(t: Task, p: TaskPatch, now: int): Task {
    var r := t.(timing := PatchedTiming(t.timing, p.timing), parent := p.parent.GetOr(t.parent),
                details := t.details + p.details,
                sequence := t.sequence + 1, updatedAt := now);
    r.(etag := TaskEtag(r))
  }

  /** append_task_change: an override's change moves its master on and is logged as the master's. */
  function AppendedTask(db: TaskDb, cal: Cal, id: Id, op: Operation, now: int): TaskDb {
    if id in db.tasks && db.tasks[id].master.Some? && db.tasks[id].master.value in db.tasks then
      var m := db.tasks[id].master.value;
      var row := db.tasks[m].(sequence := db.tasks[m].sequence + 1, updatedAt := now);
      RecordedTask(db.(tasks := db.tasks[m := row.(etag := Etag(cal, row.sequence, now))]), cal, m, Updated)
    else RecordedTask(db, cal, id, op)
  }

  /** The parent check runs only when a parent is proposed that differs from the current
    * one, an absent parent counting as the empty string. */
  predicate ChecksParent(t: Task, p: TaskPatch) {
    var parent := p.parent.GetOr(t.parent);
    parent.Some? && parent.value != t.parent.GetOr("")
  }

  ghost function UpdateTask(db: TaskDb, id: Id, ifMatch: Option<Etag>, p: TaskPatch, now: int): Result<TaskDb,
      DbError> {
    if id !in db.tasks || !db.tasks[id].live then Err(NotFound)
    else
      var t := db.tasks[id];
      if ifMatch.Some? && ifMatch.value != t.etag then Err(Conflict)
      else if p.timing.duration.Some? && (p.timing.dueAt.Some? || p.timing.dueDate.Some?) then Err(Conflict)
      else if ChecksParent(t, p) && Walk(db.tasks, t.cal, t.uid, p.parent.value.value, WALK_LIMIT) != Fine
        then Err(Conflict)
      else Ok(AppendedTask(db.(tasks := db.tasks[id := PatchedTask(t, p, now)], clock := now), t.cal, id, Updated, now))
  }

  // ----- delete_task -----

  /** Deleting x takes y along: a live override of x, or a live subtask by x's UID. */
  predicate Pulls(tasks: Tasks, cal: Cal, x: Id, y: Id) {
    && x in tasks && y in tasks && tasks[y].cal == cal && tasks[y].live
    && (tasks[y].master == Some(x) || tasks[y].parent == Some(tasks[x].uid))
  }

  ghost predicate Closed(tasks: Tasks, cal: Cal, s: set<Id>) {
    forall x, y | x in s && Pulls(tasks, cal, x, y) :: y in s
  }

  /** The least closed set that holds the target: what every closed set holding it has. */
  ghost function Doomed(tasks: Tasks, cal: Cal, target: Id): set<Id> {
    set x | x in tasks && forall s: set<Id> :: target in s && Closed(tasks, cal, s) ==> x in s
  }

  /** One deletion entry per removed task, in some order. */
  predicate EntriesFor(entries: seq<Entry>, cal: Cal, ids: set<Id>) {
    && |entries| == |ids|
    && (forall e | e in entries :: e.cal == cal && e.op == Deleted && e.id in ids)
    && (forall i | i in ids :: Entry(cal, i, Deleted) in entries)
  }

  function Removed(tasks: Tasks, ids: set<Id>): Tasks {
    map i | i in tasks :: if i in ids then tasks[i].(live := false) else tasks[i]
  }

  /** What a committed delete_task did. */
  ghost predicate DeletedTask(db: TaskDb, d: TaskDb, id: Id, now: int)
    requires id in db.tasks
  {
    var cal := db.tasks[id].cal;
    var ids := Doomed(db.tasks, cal, id);
    && d.tasks == Removed(db.tasks, ids)
    && db.log <= d.log && EntriesFor(d.log[|db.log|..], cal, ids)
    && d.ctag == (if cal in db.ctag then db.ctag[cal := db.ctag[cal] + 1] else db.ctag)
    && d.clock == now
  }
}
