/** The task store: update with its bounded walk, delete with its worklist. */
module TaskStore {
  import opened Wrappers
  import opened EventRows
  import opened Tasks
  import opened TaskGraph

  /** The walk from the proposed parent, one lookup a step. */
  method RejectParentCycle(tasks: Tasks, cal: Cal, uid: string, proposed: string) returns (error: Option<DbError>)
    requires Keyed(tasks)
    ensures error == if Walk(tasks, cal, uid, proposed, WALK_LIMIT) == Fine then None else Some(Conflict)
  {
    var current := proposed;
    var step := 0;
    while step < WALK_LIMIT
      invariant 0 <= step <= WALK_LIMIT
      invariant Walk(tasks, cal, uid, current, WALK_LIMIT - step) == Walk(tasks, cal, uid, proposed, WALK_LIMIT)
    {
      if current == uid {
        return Some(Conflict);
      }
      var next := FindParent(tasks, cal, current);
      if next == None {
        return None;
      }
      current := next.value;
      step := step + 1;
    }
    error := Some(Conflict);
  }

  method FindParent(tasks: Tasks, cal: Cal, uid: string) returns (parent: Option<string>)
    requires Keyed(tasks)
    ensures parent == ParentOf(tasks, cal, uid)
  {
    if i :| i in tasks && IsMasterOf(tasks, cal, uid, i) {
      ParentIs(tasks, cal, uid, i);
      parent := tasks[i].parent;
    } else {
      parent := None;
    }
  }

  /** The recursive query: each round joins the rows found last with the live rows they
    * pull, and keeps the new ones. */
  method CollectTree(tasks: Tasks, cal: Cal, target: Id) returns (tree: set<Id>)
    requires target in tasks
    ensures tree == Doomed(tasks, cal, target)
  {
    tree := {target};
    var working := {target};
    DoomedIsLeast(tasks, cal, target);
    while working != {}
      invariant working <= tree && target in tree && tree <= tasks.Keys
      invariant tree <= Doomed(tasks, cal, target)
      invariant forall x, y | x in tree - working && Pulls(tasks, cal, x, y) :: y in tree
      decreases |tasks.Keys| - |tree|, |working|
    {
      var found := set y | y in tasks && (exists x | x in working :: Pulls(tasks, cal, x, y)) && y !in tree;
      forall y | y in found ensures y in Doomed(tasks, cal, target) {
        var x :| x in working && Pulls(tasks, cal, x, y);
        assert x in Doomed(tasks, cal, target);
      }
      ghost var before := tree;
      tree := tree + found;
      SizeGrows(before, found, tasks.Keys);
      working := found;
    }
    LeastIsDoomed(tasks, cal, target, tree);
  }

  lemma SizeGrows(s: set<Id>, more: set<Id>, all: set<Id>)
    requires s !! more && s + more <= all
    ensures |s + more| == |s| + |more| && |s + more| <= |all|
    ensures more != {} ==> |more| > 0
  {
    assert all == (s + more) + (all - (s + more));
  }

  /** INSERT INTO change_log ... SELECT over the removed ids. */
  method LogDeletions(cal: Cal, ids: set<Id>) returns (entries: seq<Entry>)
    ensures EntriesFor(entries, cal, ids)
  {
    entries := [];
    var rest := ids;
    while rest != {}
      invariant rest <= ids
      invariant EntriesFor(entries, cal, ids - rest)
      decreases rest
    {
      var i :| i in rest;
      assert ids - (rest - {i}) == (ids - rest) + {i};
      entries := entries + [Entry(cal, i, Deleted)];
      rest := rest - {i};
    }
    assert ids - rest == ids;
  }

  lemma RemovedKeepsPlaces(tasks: Tasks, ids: set<Id>)
    requires Keyed(tasks)
    ensures Keyed(Removed(tasks, ids)) && Removed(tasks, ids).Keys == tasks.Keys
    ensures forall i | i in tasks :: Removed(tasks, ids)[i].master == tasks[i].master
  {
    hide Keyed;
    KeyedKept(tasks, Removed(tasks, ids));
  }

  /** What an accepted update returns: the row as it was before its etag was written, and the new
    * etag of its resource, its own or its master's. If that master is deleted the update stands
    * and NotFound is returned. */
  function Answer(tasks: Tasks, row: Task): Result<(Task, Etag), DbError> {
    match row.master
    case None => Ok((row, Etag(row.cal, row.sequence, row.updatedAt)))
    case Some(m) =>
      if m in tasks && tasks[m].live
      then Ok((row, Etag(tasks[m].cal, tasks[m].sequence, tasks[m].updatedAt))) else Err(NotFound)
  }

  class Store {
    var tasks: Tasks
    var log: seq<Entry>
    var ctag: map<Cal, nat>
    var clock: int

    ghost function View(): TaskDb reads this { TaskDb(tasks, log, ctag, clock) }

    ghost predicate Valid() reads this {
      && Keyed(tasks)
      && forall i | i in tasks && tasks[i].master.Some? :: tasks[i].master.value != i
    }

    constructor (calendars: set<Cal>)
      ensures Valid() && tasks == map[] && log == [] && ctag.Keys == calendars
    {
      tasks, log, clock := map[], [], 0;
      ctag := map c | c in calendars :: 0;
    }

    method RecordChange(cal: Cal, id: Id, op: Operation)
      modifies this
      ensures View() == RecordedTask(old(View()), cal, id, op)
    {
      log := log + [Entry(cal, id, op)];
      if cal in ctag {
        ctag := ctag[cal := ctag[cal] + 1];
      }
    }

    method AppendChange(cal: Cal, id: Id, op: Operation)
      modifies this
      ensures View() == AppendedTask(old(View()), cal, id, op, old(clock))
    {
      if id in tasks && tasks[id].master.Some? && tasks[id].master.value in tasks {
        var m := tasks[id].master.value;
        var row := tasks[m].(sequence := tasks[m].sequence + 1, updatedAt := clock);
        tasks := tasks[m := row.(etag := Etag(cal, row.sequence, clock))];
        RecordChange(cal, m, Updated);
      } else {
        RecordChange(cal, id, op);
      }
    }

    /** UPDATE tasks SET ..., then the etag. */
    method WritePatch(id: Id, patch: TaskPatch, parent: Option<string>, now: int)
      requires id in tasks && parent == patch.parent.GetOr(tasks[id].parent)
      modifies this
      ensures View() == old(View()).(tasks := old(tasks)[id := PatchedTask(old(tasks)[id], patch, now)], clock := now)
    {
      var current := tasks[id];
      var row := current.(timing := PatchedTiming(current.timing, patch.timing), parent := parent,
                          details := current.details + patch.details,
                          sequence := current.sequence + 1, updatedAt := now);
      clock := now;
      tasks := tasks[id := row.(etag := TaskEtag(row))];
    }

    /** get_task: the live row and the etag derived from it. */
    method GetTask(id: Id) returns (r: Result<(Task, Etag), DbError>)
      ensures r == if id in tasks && tasks[id].live
                   then Ok((tasks[id], Etag(tasks[id].cal, tasks[id].sequence, tasks[id].updatedAt)))
                   else Err(NotFound)
    {
      if id !in tasks || !tasks[id].live {
        return Err(NotFound);
      }
      r := Ok((tasks[id], TaskEtag(tasks[id])));
    }

    /** The answer to an accepted update. */
    method Report(row: Task) returns (r: Result<(Task, Etag), DbError>)
      ensures r == Answer(tasks, row)
    {
      if row.master.Some? {
        var master := GetTask(row.master.value);
        if master.Err? {
          return Err(master.error);
        }
        r := Ok((row, master.value.1));
      } else {
        r := Ok((row, TaskEtag(row)));
      }
    }

    method Update(id: Id, ifMatch: Option<Etag>, patch: TaskPatch, now: int) returns (r: Result<(Task, Etag), DbError>)
      requires Valid() && clock <= now
      modifies this
      ensures Valid()
      ensures match UpdateTask(old(View()), id, ifMatch, patch, now)
        case Err(e) => r == Err(e) && View() == old(View())
        case Ok(d) =>
          && View() == d && id in d.tasks && id in old(tasks)
          && r == Answer(d.tasks, d.tasks[id].(etag := old(tasks)[id].etag))
    {
      hide Keyed, Walk, AppendedTask, PatchedTask;
      if id !in tasks || !tasks[id].live {
        return Err(NotFound);
      }
      var current := tasks[id];
      if ifMatch.Some? && ifMatch.value != current.etag {
        return Err(Conflict);
      }
      if patch.timing.duration.Some? && (patch.timing.dueAt.Some? || patch.timing.dueDate.Some?) {
        return Err(Conflict);
      }
      var parent := patch.parent.GetOr(current.parent);
      if parent.Some? && parent.value != current.parent.GetOr("") {
        var error := RejectParentCycle(tasks, current.cal, current.uid, parent.value);
        if error.Some? {
          return Err(error.value);
        }
      }
      UpdatedRows(View(), id, ifMatch, patch, now);
      PatchedPlace(current, patch, now);
      WritePatch(id, patch, parent, now);
      var row := tasks[id].(etag := current.etag);
      AppendChange(current.cal, id, Updated);
      r := Report(row);
    }

    method Delete(id: Id, ifMatch: Option<Etag>, now: int) returns (r: Result<nat, DbError>)
      requires Valid() && clock <= now
      modifies this
      ensures Valid()
      ensures r.Ok? <==>
              id in old(tasks) && old(tasks)[id].live && (ifMatch == None || ifMatch == Some(old(tasks)[id].etag))
      ensures r.Ok? ==> DeletedTask(old(View()), View(), id, now)
      ensures r.Ok? ==> r.value == |Doomed(old(tasks), old(tasks)[id].cal, id)|
      ensures r.Err? ==> View() == old(View())
      ensures r.Err? ==> r.error == if id in tasks && tasks[id].live then Conflict else NotFound
    {
      hide Keyed, Doomed, EntriesFor, Removed;
      if id !in tasks || !tasks[id].live {
        return Err(NotFound);
      }
      var current := tasks[id];
      if ifMatch.Some? && ifMatch.value != current.etag {
        return Err(Conflict);
      }
      var ids := CollectTree(tasks, current.cal, id);
      var entries := LogDeletions(current.cal, ids);
      RemovedKeepsPlaces(tasks, ids);
      tasks := Removed(tasks, ids);
      log := log + entries;
      if current.cal in ctag {
        ctag := ctag[current.cal := ctag[current.cal] + 1];
      }
      clock := now;
      assert log[|old(log)|..] == entries;
      r := Ok(|ids|);
    }
  }
}
