/**
 The transactional actuator for task scheduling state: per-field ownership over processes that other programs
 may also change, and that may exit at any moment.
 */
module TaskActuator {
  import opened Common
  import opened Tasks

  datatype Presence = Current | Reused | Disappeared | Unknown

  /**
   The tasks and the durable journal cell. Operations fail and the daemon is killed as in the register machine;
   besides, any operation may find that its process has exited.
   */
  class TaskWorld {
    var tasks: TaskStates
    var durable: Option<TaskTable>
    var dead: bool
    var healthy: bool
    const atomicStore: bool

    constructor (tasks: TaskStates, atomicStore: bool)
      ensures this.tasks == tasks && durable == None && !dead && !healthy && this.atomicStore == atomicStore
    {
      this.tasks, this.durable, this.dead, this.healthy, this.atomicStore := tasks, None, false, false, atomicStore;
    }

    method Fate(id: ProcessId) returns (effect: bool, ok: bool)
      modifies this`dead, this`tasks
      ensures tasks == old(tasks) || tasks == old(tasks) - {id}
      ensures ok ==> effect
      ensures old(dead) ==> dead && !effect
      ensures dead ==> !ok
      ensures healthy && !old(dead) ==> ok && !dead && tasks == old(tasks)
    {
      effect, ok := *, *;
      var killed: bool, exited: bool := *, *;
      if healthy {
        effect, ok := !dead, !dead;
        return;
      }
      if exited { tasks := tasks - {id}; }
      if dead {
        effect, ok := false, false;
      } else if killed {
        dead, ok := true, false;
      } else if ok {
        effect := true;
      }
    }

    /** `process_identity_is_current`. */
    method Identity(id: ProcessId) returns (p: Presence)
      modifies this`dead, this`tasks
      ensures tasks == old(tasks) || tasks == old(tasks) - {id}
      ensures p.Reused? || p.Disappeared? ==> id !in tasks
      ensures healthy && !old(dead) ==> !dead && tasks == old(tasks) && !p.Unknown? && (p.Current? <==> id in tasks)
    {
      var reused: bool := *;
      var effect, ok := Fate(id);
      p := if !ok then Unknown else if id in tasks then Current else if reused then Reused else Disappeared;
    }

    method ReadTask(id: ProcessId) returns (r: Option<TaskState>)
      modifies this`dead, this`tasks
      ensures tasks == old(tasks) || tasks == old(tasks) - {id}
      ensures r.Some? ==> id in tasks && r.value == tasks[id]
      ensures healthy && !old(dead) ==> !dead && tasks == old(tasks) && (id in tasks ==> r.Some?)
    {
      var effect, ok := Fate(id);
      r := if ok && id in tasks then Some(tasks[id]) else None;
    }

    /** Sets the fields of a task one by one, so an interrupted write leaves some of them; then reads back. */
    method WriteTask(id: ProcessId, v: TaskState) returns (actual: Option<TaskState>)
      modifies this`dead, this`tasks
      ensures tasks.Keys == old(tasks.Keys) || tasks.Keys == old(tasks.Keys) - {id}
      ensures forall k :: k in tasks && k != id ==> tasks[k] == old(tasks)[k]
      ensures id in tasks ==> Between(old(tasks)[id], v, tasks[id])
      ensures actual.Some? ==> id in tasks && actual.value == tasks[id]
      ensures healthy && !old(dead) ==> !dead && tasks.Keys == old(tasks.Keys) && (id in tasks ==> actual == Some(v))
    {
      var done: Mask := *;
      var effect, ok := Fate(id);
      if effect && id in tasks {
        ghost var was := tasks[id];
        tasks := tasks[id := if healthy then v else Copy(done, tasks[id], v)];
        assert Between(was, v, tasks[id]);
      }
      actual := if ok && id in tasks then Some(tasks[id]) else None;
    }

    method StoreTable(t: TaskTable) returns (ok: bool)
      modifies this`durable, this`dead
      ensures ok ==> durable == Some(t)
      ensures !ok ==> durable == old(durable) || (!atomicStore && durable == Some(t))
      ensures healthy && !old(dead) ==> ok && !dead
    {
      var effect: bool, fails: bool, killed: bool := *, *, *;
      ok := !dead && (healthy || (!fails && !killed));
      if ok || (!dead && effect && !atomicStore) { durable := Some(t); }
      if killed && !healthy { dead := true; }
    }

    method RemoveTable() returns (ok: bool)
      modifies this`durable, this`dead
      ensures ok ==> durable == None
      ensures !ok ==> durable == old(durable) || durable == None
      ensures healthy && !old(dead) ==> ok && !dead
    {
      var effect: bool, fails: bool, killed: bool := *, *, *;
      ok := !dead && (healthy || (!fails && !killed));
      if ok || (!dead && effect) { durable := None; }
      if killed && !healthy { dead := true; }
    }
  }

  function Stored(d: Option<TaskTable>): TaskTable {
    if d.Some? then d.value else map[]
  }

  class TaskActuator {
    const world: TaskWorld
    /** Every field value this run ever requests; only the contracts mention it. */
    ghost const asked: Asks
    var degraded: bool
    var table: TaskTable
    var recoveryRequired: bool

    /** Load the table an earlier daemon left. */
    constructor (world: TaskWorld, ghost asked: Asks)
      requires TasksFit(asked, world.tasks, Stored(world.durable))
      ensures this.world == world && this.asked == asked && Valid()
      ensures !degraded && (recoveryRequired <==> Stored(world.durable) != map[])
    {
      this.world, this.asked, this.degraded := world, asked, false;
      this.table, this.recoveryRequired := Stored(world.durable), Stored(world.durable) != map[];
    }

    /** Memory and store agree, with no transition under way. */
    ghost predicate Ready()
      reads this, world
    {
      !degraded && !recoveryRequired && Stored(world.durable) == table && IdleTable(table)
    }

    ghost predicate Valid()
      reads this, world
    {
      && TasksFit(asked, world.tasks, Stored(world.durable))
      && (!degraded && recoveryRequired ==> Stored(world.durable) == table)
      && (!degraded && !recoveryRequired ==> Ready())
    }

    /** `persist_or_remove_journal`. */
    method Persist() returns (ok: bool)
      modifies world`durable, world`dead
      ensures ok ==> Stored(world.durable) == table
      ensures !ok ==> || Stored(world.durable) == old(Stored(world.durable))
                      || (Stored(world.durable) == table && (table == map[] || !world.atomicStore))
      ensures world.healthy && !old(world.dead) ==> ok && !world.dead
    {
      if table == map[] {
        ok := world.RemoveTable();
      } else {
        ok := world.StoreTable(table);
      }
    }

    /** The observation loop of `apply_tasks`. */
    method Observe(requests: seq<TaskRequest>) returns (observed: Option<TaskStates>)
      modifies world`tasks, world`dead
      ensures Survivors(old(world.tasks), world.tasks)
      ensures observed.Some? ==>
                && (forall i :: 0 <= i < |requests| ==> requests[i].identity in observed.value && requests[i].identity in old(world.tasks))
                && (forall id :: id in observed.value ==> id in old(world.tasks) && observed.value[id] == old(world.tasks)[id])
                && (forall i, j :: 0 <= i < j < |requests| ==> requests[i].identity != requests[j].identity)
      ensures world.healthy && !old(world.dead) ==>
                && !world.dead && world.tasks == old(world.tasks)
                && (observed.Some? <==> AllLive(requests, world.tasks))
    {
      var seen: TaskStates := map[];
      for k := 0 to |requests|
        invariant Survivors(old(world.tasks), world.tasks)
        invariant forall i :: 0 <= i < k ==> requests[i].identity in seen
        invariant forall id :: id in seen ==> id in old(world.tasks) && seen[id] == old(world.tasks)[id]
        invariant forall id :: id in seen ==> exists i :: 0 <= i < k && requests[i].identity == id
        invariant forall i, j :: 0 <= i < j < k ==> requests[i].identity != requests[j].identity
        invariant world.healthy && !old(world.dead) ==> !world.dead && world.tasks == old(world.tasks)
      {
        var id := requests[k].identity;
        if id in seen { return None; }
        var presence := world.Identity(id);
        if presence != Current { return None; }
        var current := world.ReadTask(id);
        if current.None? { return None; }
        seen := seen[id := current.value];
      }
      observed := Some(seen);
    }

    /** The preparation loop of `apply_tasks`: renew what exists, extend it by the request, record it if it owns anything. */
    method Prepare(requests: seq<TaskRequest>, observed: TaskStates) returns (ps: seq<PreparedTask>, ghost plans: Plans)
      requires forall i :: 0 <= i < |requests| ==> requests[i].identity in observed
      requires forall i, j :: 0 <= i < j < |requests| ==> requests[i].identity != requests[j].identity
      modifies this`table
      ensures TasksPrepared(old(table), plans, ps) && TasksAnnounced(old(table), plans, table) && PlansFor(old(table), plans)
      ensures forall id :: id in plans ==> id in observed && plans[id].before == observed[id]
      ensures forall i :: 0 <= i < |requests| ==> requests[i].identity in plans && plans[requests[i].identity].want == requests[i].desired
      ensures forall id :: id in plans ==> exists i :: 0 <= i < |requests| && requests[i].identity == id
    {
      ps, plans := [], map[];
      for k := 0 to |requests|
        invariant TasksPrepared(old(table), plans, ps) && TasksAnnounced(old(table), plans, table) && PlansFor(old(table), plans)
        invariant forall id :: id in plans ==> id in observed && plans[id].before == observed[id]
        invariant forall i :: 0 <= i < k ==> requests[i].identity in plans && plans[requests[i].identity].want == requests[i].desired
        invariant forall id :: id in plans ==> exists i :: 0 <= i < k && requests[i].identity == id
      {
        var id, want := requests[k].identity, requests[k].desired;
        var m, plan := PrepareOne(id, observed[id], want, old(table), plans);
        TasksPreparedGrow(old(table), plans, ps, m, plan);
        PlansForGrow(old(table), plans, id, plan);
        ps, plans := ps + [m], plans[id := plan];
      }
    }

    /** One request. */
    method PrepareOne(id: ProcessId, current: TaskState, want: TaskState, ghost before: TaskTable, ghost plans: Plans)
      returns (m: PreparedTask, ghost plan: Plan)
      requires TasksAnnounced(before, plans, table) && id !in plans
      modifies this`table
      ensures plan.before == current && plan.want == want
      ensures PlansFor(before, map[id := plan])
      ensures m.identity == id && Prepares(before, map[id := plan], m)
      ensures TasksAnnounced(before, plans[id := plan], table)
    {
      var base := BaseEntry(table, id, current);
      var rollback := if id in table then Some(base) else None;
      var entry := Retargeted(base, current, want);
      plan := Plan(current, want, base, entry);
      AnnounceTask(before, plans, table, id, plan);
      table := table - {id};
      if Recorded(entry) {
        table := table[id := entry];
      }
      m := PreparedTask(id, current, entry.desired, Changed(current, entry.desired), rollback);
    }

    /** The write loop of `apply_tasks`; it stops at the first task that fails. */
    method WriteTasks(ps: seq<PreparedTask>, ghost table0: TaskTable, ghost plans: Plans)
      returns (ok: bool, applied: TaskStates, attempted: seq<nat>)
      requires TasksPrepared(table0, plans, ps) && PlansFor(table0, plans) && PlansCurrent(plans, world.tasks)
      requires TasksAnnounced(table0, plans, table)
      modifies this`table, world`tasks, world`dead
      ensures TasksMidway(plans, old(world.tasks), world.tasks)
      ensures TasksAttempted(ps, attempted, |attempted|, old(world.tasks), world.tasks)
      ensures SameOutside(plans, old(table), table)
      ensures ok ==> TasksWritten(plans, plans.Keys, old(world.tasks), world.tasks) && TasksSettled(old(table), plans.Keys, table)
      ensures ok ==> applied.Keys == plans.Keys && forall id :: id in applied ==> applied[id] == plans[id].planned.desired
      ensures world.healthy && !old(world.dead) ==> !world.dead && (plans.Keys <= old(world.tasks.Keys) ==> ok)
    {
      applied, attempted, ok := map[], [], true;
      ghost var done: set<ProcessId> := {};
      WritingTasksStarts(ps, plans, world.tasks, table);
      for k := 0 to |ps|
        invariant ok && done == applied.Keys <= plans.Keys && forall id :: id in applied ==> applied[id] == plans[id].planned.desired
        invariant WritingTasks(ps, k, plans, done, old(world.tasks), world.tasks, old(table), table, attempted)
        invariant world.healthy && !old(world.dead) ==> !world.dead && world.tasks.Keys == old(world.tasks.Keys)
      {
        var m := ps[k];
        ghost var now := world.tasks;
        if m.changed == {} {
          WritingTasksSkips(table0, ps, k, plans, done, old(world.tasks), now, old(table), table, attempted);
          applied, done := applied[m.identity := m.before], done + {m.identity};
        } else {
          ok, attempted := WriteChanged(ps, k, attempted, table0, plans, done, old(world.tasks), old(table));
          if !ok { return; }
          applied, done := applied[m.identity := m.desired], done + {m.identity};
        }
      }
      WritingTasksEnds(table0, ps, plans, done, old(world.tasks), world.tasks, old(table), table, attempted);
    }

    /** The iteration of the write loop for a task that changes. */
    method WriteChanged(ps: seq<PreparedTask>, k: nat, attempted: seq<nat>, ghost table0: TaskTable, ghost plans: Plans, ghost done: set<ProcessId>,
                        ghost before: TaskStates, ghost announced: TaskTable) returns (ok: bool, attempts: seq<nat>)
      requires k < |ps| && TasksPrepared(table0, plans, ps) && TasksAnnounced(table0, plans, announced) && done <= plans.Keys
      requires WritingTasks(ps, k, plans, done, before, world.tasks, announced, table, attempted)
      modifies this`table, world`tasks, world`dead
      ensures ps[k].identity in plans && ps[k].desired == plans[ps[k].identity].planned.desired
      ensures if ok then WritingTasks(ps, k + 1, plans, done + {ps[k].identity}, before, world.tasks, announced, table, attempts)
              else TasksMidway(plans, before, world.tasks) && TasksAttempted(ps, attempts, |attempts|, before, world.tasks)
                   && SameOutside(plans, announced, table)
      ensures world.healthy && !old(world.dead) ==>
                !world.dead && world.tasks.Keys == old(world.tasks.Keys) && (ps[k].identity in world.tasks ==> ok)
    {
      var m := ps[k];
      assert m.identity in plans && m.desired == plans[m.identity].planned.desired by { assert UnfoldBatch(true); assert Prepares(table0, plans, m); }
      ghost var now := world.tasks;
      var tried;
      ok, tried := WriteOneTask(m);
      attempts := if tried then attempted + [k] else attempted;
      WritingTasksStops(table0, ps, k, plans, done, before, now, announced, table, attempted, world.tasks, tried);
      if ok {
        WritingTasksSettles(table0, ps, k, plans, done, before, now, announced, table, attempted, world.tasks);
        if m.identity in table {
          table := table[m.identity := table[m.identity].(applied := m.desired, desired := m.desired)];
        }
      }
    }

    /** Verify, write, compare the readback, verify again. */
    method WriteOneTask(m: PreparedTask) returns (ok: bool, tried: bool)
      modifies world`tasks, world`dead
      ensures world.tasks.Keys <= old(world.tasks.Keys)
      ensures forall id :: id in world.tasks && id != m.identity ==> world.tasks[id] == old(world.tasks)[id]
      ensures m.identity in world.tasks ==> Between(old(world.tasks)[m.identity], m.desired, world.tasks[m.identity])
      ensures !tried ==> !ok && Survivors(old(world.tasks), world.tasks)
      ensures ok ==> m.identity in world.tasks ==> world.tasks[m.identity] == m.desired
      ensures world.healthy && !old(world.dead) ==>
                !world.dead && world.tasks.Keys == old(world.tasks.Keys) && (m.identity in world.tasks ==> ok)
    {
      var presence := world.Identity(m.identity);
      if presence != Current { return false, false; }
      tried := true;
      var actual := world.WriteTask(m.identity, m.desired);
      if actual != Some(m.desired) { return false, tried; }
      presence := world.Identity(m.identity);
      ok := presence == Current;
    }

    /** `record_task_rollback_failure_if_present`: a failure on a process that has exited is no failure. */
    method StillPresent(id: ProcessId) returns (present: bool)
      modifies world`tasks, world`dead
      ensures world.tasks == old(world.tasks) || world.tasks == old(world.tasks) - {id}
      ensures !present ==> id !in world.tasks
      ensures world.healthy && !old(world.dead) ==> !world.dead && world.tasks == old(world.tasks)
    {
      var presence := world.Identity(id);
      present := presence != Disappeared;
    }

    /** `rollback_tasks` for one attempted task; `abort` is an identity check that failed between read and write. */
    method RollBackOneTask(m: PreparedTask) returns (ok: bool, abort: bool)
      requires m.changed == Changed(m.before, m.desired)
      requires m.identity in world.tasks ==> Between(m.before, m.desired, world.tasks[m.identity])
      modifies world`tasks, world`dead
      ensures world.tasks.Keys <= old(world.tasks.Keys)
      ensures forall id :: id in world.tasks && id != m.identity ==> world.tasks[id] == old(world.tasks)[id]
      ensures m.identity in world.tasks ==> Between(m.before, m.desired, world.tasks[m.identity])
      ensures ok && m.identity in world.tasks ==> world.tasks[m.identity] == m.before
      ensures abort ==> !ok
      ensures world.healthy && !old(world.dead) ==> ok && !world.dead
    {
      abort := false;
      var presence := world.Identity(m.identity);
      if presence == Unknown { return false, abort; }
      if presence != Current { return true, abort; }
      var reading := world.ReadTask(m.identity);
      if reading.None? {
        var present := StillPresent(m.identity);
        return !present, abort;
      }
      var current := reading.value;
      presence := world.Identity(m.identity);
      if presence == Unknown { return false, true; }
      if presence != Current { return true, abort; }
      var restorable := MatchingEither(m.changed, current, m.desired, m.before);
      var rollback := Copy(restorable, current, m.before);
      RollbackTarget(m.before, m.desired, current);
      if restorable == {} || rollback == current { return true, abort; }
      var actual := world.WriteTask(m.identity, rollback);
      if m.identity in world.tasks {
        RollbackStaysBetween(m.before, m.desired, current, world.tasks[m.identity]);
      }
      if actual.Some? && ValuesEqual(restorable, actual.value, m.before) {
        presence := world.Identity(m.identity);
        if presence == Current { return true, abort; }
      }
      var present := StillPresent(m.identity);
      ok := !present;
    }

    /** `rollback_tasks`: every attempted task that still exists, last first. */
    method RollBackTasks(ps: seq<PreparedTask>, attempted: seq<nat>, ghost table0: TaskTable, ghost plans: Plans, ghost before: TaskStates)
      returns (ok: bool)
      requires TasksPrepared(table0, plans, ps) && PlansCurrent(plans, before)
      requires TasksMidway(plans, before, world.tasks) && TasksAttempted(ps, attempted, |attempted|, before, world.tasks)
      modifies world`tasks, world`dead
      ensures TasksMidway(plans, before, world.tasks)
      ensures ok ==> Survivors(before, world.tasks)
      ensures world.healthy && !old(world.dead) ==> ok && !world.dead
    {
      ok := true;
      var j := |attempted|;
      while j > 0
        invariant 0 <= j <= |attempted|
        invariant TasksMidway(plans, before, world.tasks)
        invariant ok ==> TasksAttempted(ps, attempted, j, before, world.tasks)
        invariant forall a :: 0 <= a < |attempted| ==> attempted[a] < |ps|
        invariant world.healthy && !old(world.dead) ==> ok && !world.dead
      {
        j := j - 1;
        var m := ps[attempted[j]];
        assert Prepares(table0, plans, m) by { assert UnfoldBatch(true); }
        ghost var now := world.tasks;
        var done, abort := RollBackOneTask(m);
        if abort { return false; }
        if ok && done { TaskUndone(ps, attempted, j, before, now, world.tasks); }
        ok := ok && done;
      }
      if ok { NothingAttempted(ps, attempted, before, world.tasks); }
    }

    /** Take the batch's entries out of memory again, keeping what was lost from outside relinquished. */
    method Withdraw(ps: seq<PreparedTask>, ghost table0: TaskTable, ghost plans: Plans)
      requires TasksPrepared(table0, plans, ps)
      requires SameOutside(plans, table0, table)
      modifies this`table
      ensures TasksWithdrawn(table0, plans, table)
    {
      for k := 0 to |ps|
        invariant SameOutside(plans, table0, table)
        invariant forall i :: 0 <= i < k ==> (ps[i].identity in table <==> ps[i].identity in table0)
                                             && (ps[i].identity in table ==> ps[i].identity in plans && table[ps[i].identity] == plans[ps[i].identity].base)
      {
        var m := ps[k];
        assert UnfoldBatch(true);
        assert Prepares(table0, plans, m);
        table := table - {m.identity};
        if m.rollback.Some? { table := table[m.identity := m.rollback.value]; }
      }
      forall id | id in plans ensures (id in table <==> id in table0) && (id in table ==> table[id] == plans[id].base) {
        assert UnfoldBatch(true);
        assert TaskListed(ps, id);
        var i :| 0 <= i < |ps| && ps[i].identity == id;
      }
    }

    /** Roll back, withdraw the batch's entries and persist that; any failure on the way degrades. */
    method UndoTasks(ps: seq<PreparedTask>, attempted: seq<nat>, ghost table0: TaskTable, ghost plans: Plans, ghost before: TaskStates)
      requires TasksPrepared(table0, plans, ps) && PlansFor(table0, plans) && PlansWellFormed(asked, plans) && PlansCurrent(plans, before)
      requires TasksMidway(plans, before, world.tasks) && TasksAttempted(ps, attempted, |attempted|, before, world.tasks)
      requires SameOutside(plans, table0, table)
      requires TasksFit(asked, before, table0) && TasksFit(asked, before, Stored(world.durable)) && IdleTable(table0) && !degraded
      requires TasksAnnounced(table0, plans, Stored(world.durable))
      modifies this`degraded, this`table, world`tasks, world`durable, world`dead
      ensures TasksFit(asked, world.tasks, Stored(world.durable))
      ensures Survivors(RestoredTasks(table0, before), RestoredTasks(Stored(world.durable), world.tasks))
      ensures !degraded ==> && Survivors(before, world.tasks) && TasksWithdrawn(table0, plans, table)
                            && Stored(world.durable) == table && IdleTable(table)
      ensures OwnedSince(table0, plans, Stored(world.durable))
      ensures world.healthy && !old(world.dead) ==> !world.dead && !degraded
    {
      ghost var announced := Stored(world.durable);
      var undone := RollBackTasks(ps, attempted, table0, plans, before);
      MidwayFits(asked, table0, plans, before, world.tasks, announced);
      AnnouncedTasksKeepOutcome(table0, plans, announced, before, world.tasks);
      EntriesValid(asked, before, table0);
      AnnouncedSince(table0, plans, announced, announced, {});
      if !undone {
        degraded := true;
        return;
      }
      Withdraw(ps, table0, plans);
      WithdrawnSince(table0, plans, table);
      WithdrawnFits(asked, world.tasks, table0, plans, table);
      WithdrawnTasksKeepOutcome(table0, plans, table, before, world.tasks);
      var persisted := Persist();
      if !persisted { degraded := true; }
    }

    /**
     `apply_tasks`. Whatever fails, whichever processes exit and wherever the daemon is killed, the state every
     surviving task would be restored to is conserved. Success means each request holds on every field not lost to
     an outside writer; an error that leaves the actuator read-write leaves the tasks untouched.
     */
    method ApplyTasks(requests: seq<TaskRequest>) returns (r: Option<TaskStates>)
      requires Valid() && RequestsFit(asked, requests)
      modifies this`degraded, this`table, world`tasks, world`durable, world`dead
      ensures Valid()
      ensures SurvivorsExcept(old(RestoredTasks(Stored(world.durable), world.tasks)), RestoredTasks(Stored(world.durable), world.tasks),
                              if world.atomicStore then {} else old(SlotsAtRisk(Stored(world.durable), world.tasks, requests)))
      ensures ClaimsSince(requests, old(Stored(world.durable)), old(RestoredTasks(Stored(world.durable), world.tasks)), Stored(world.durable))
      ensures old(degraded || recoveryRequired) ==>
                r.None? && world.tasks == old(world.tasks) && world.durable == old(world.durable) && table == old(table) && degraded == old(degraded)
      ensures r.None? && !degraded ==> Survivors(old(world.tasks), world.tasks) && OnlyRenewed(old(table), old(world.tasks), table)
      ensures r.Some? ==> !degraded && TasksGranted(requests, old(table), old(world.tasks), world.tasks, r.value)
      ensures world.healthy && !old(world.dead) && old(Ready()) ==>
                !world.dead && !degraded && (r.Some? <==> AllLive(requests, old(world.tasks)))
    {
      if degraded || recoveryRequired { return None; }
      ghost var start, table0 := world.tasks, table;
      if requests == [] { return Some(map[]); }
      var observed := Observe(requests);
      SurvivorsFit(asked, start, world.tasks, table0);
      SurvivorsWhole(RestoredTasks(table0, start), RestoredTasks(table0, world.tasks));
      if observed.None? { return None; }
      var ps, plans := Prepare(requests, observed.value);
      PlansAreWellFormed(asked, start, table0, requests, plans);
      ghost var seen, except := world.tasks, if world.atomicStore then {} else SlotsAtRisk(table0, start, requests);
      RisksCovered(table0, start, requests, plans);
      r := CommitTasks(ps, table0, plans, except);
      ExceptFrom(RestoredTasks(table0, start), RestoredTasks(table0, seen), RestoredTasks(Stored(world.durable), world.tasks), except);
      PlansTraced(requests, table0, plans, start, Stored(world.durable));
      if r.Some? {
        PlansGranted(requests, table0, plans, start, seen, world.tasks, r.value);
      } else if !degraded {
        PlansWithdrawn(table0, plans, start, table);
      }
    }

    /** The announce, write and commit phases of `apply_tasks`. */
    method CommitTasks(ps: seq<PreparedTask>, ghost table0: TaskTable, ghost plans: Plans, ghost except: set<Slot>) returns (r: Option<TaskStates>)
      requires TasksPrepared(table0, plans, ps) && PlansFor(table0, plans) && PlansWellFormed(asked, plans) && PlansCurrent(plans, world.tasks)
      requires TasksAnnounced(table0, plans, table) && IdleTable(table0) && Stored(world.durable) == table0
      requires TasksFit(asked, world.tasks, table0) && !degraded && !recoveryRequired
      requires world.atomicStore || RisksExcepted(table0, plans, except)
      modifies this`degraded, this`table, world`tasks, world`durable, world`dead
      ensures Valid()
      ensures SurvivorsExcept(RestoredTasks(table0, old(world.tasks)), RestoredTasks(Stored(world.durable), world.tasks), except)
      ensures OwnedSince(table0, plans, Stored(world.durable))
      ensures r.None? && !degraded ==> Survivors(old(world.tasks), world.tasks) && TasksWithdrawn(table0, plans, table)
      ensures r.Some? ==> && !degraded && TasksWritten(plans, plans.Keys, old(world.tasks), world.tasks)
                          && r.value.Keys == plans.Keys && forall id :: id in plans ==> r.value[id] == plans[id].planned.desired
      ensures world.healthy && !old(world.dead) ==> !world.dead && !degraded && (plans.Keys <= old(world.tasks.Keys) ==> r.Some?)
    {
      ghost var before, announced := world.tasks, table;
      AnnouncedFits(asked, before, table0, plans, announced);
      WrittenIsMidway(plans, {}, before, before);
      AnnouncedTasksKeepOutcome(table0, plans, announced, before, before);
      SurvivorsWhole(RestoredTasks(table0, before), RestoredTasks(announced, before));
      EntriesValid(asked, before, table0);
      AnnouncedSince(table0, plans, announced, announced, {});
      var stored := Persist();
      if !stored {
        degraded := true;
        return None;
      }
      var ok, applied, attempted := WriteTasks(ps, table0, plans);
      if !ok {
        UndoTasks(ps, attempted, table0, plans, before);
        SurvivorsWhole(RestoredTasks(table0, before), RestoredTasks(Stored(world.durable), world.tasks));
        return None;
      }
      r := StoreTasks(ps, applied, attempted, table0, plans, before, announced, except);
    }

    /** Persist the committed entries; if that fails the tasks are rolled back and the actuator degrades. */
    method StoreTasks(ps: seq<PreparedTask>, applied: TaskStates, attempted: seq<nat>, ghost table0: TaskTable, ghost plans: Plans,
                      ghost before: TaskStates, ghost announced: TaskTable, ghost except: set<Slot>) returns (r: Option<TaskStates>)
      requires TasksPrepared(table0, plans, ps) && PlansFor(table0, plans) && PlansWellFormed(asked, plans) && PlansCurrent(plans, before)
      requires TasksAnnounced(table0, plans, announced) && IdleTable(table0) && Stored(world.durable) == announced
      requires TasksFit(asked, before, table0) && TasksFit(asked, before, announced) && !degraded && !recoveryRequired
      requires TasksWritten(plans, plans.Keys, before, world.tasks) && TasksSettled(announced, plans.Keys, table)
      requires TasksMidway(plans, before, world.tasks) && TasksAttempted(ps, attempted, |attempted|, before, world.tasks)
      requires world.atomicStore || RisksExcepted(table0, plans, except)
      modifies this`degraded, this`table, world`tasks, world`durable, world`dead
      ensures Valid()
      ensures SurvivorsExcept(RestoredTasks(table0, before), RestoredTasks(Stored(world.durable), world.tasks), except)
      ensures OwnedSince(table0, plans, Stored(world.durable))
      ensures r.None? ==> degraded
      ensures r.Some? ==> !degraded && r.value == applied && world.tasks == old(world.tasks)
      ensures world.healthy && !old(world.dead) ==> !world.dead && r.Some?
    {
      SettledTasksKeepOutcome(table0, plans, announced, table, before, world.tasks);
      SurvivorsWhole(RestoredTasks(table0, before), RestoredTasks(table, world.tasks));
      SettledFits(asked, before, announced, plans.Keys, table);
      MidwayFits(asked, table0, plans, before, world.tasks, table);
      EntriesValid(asked, before, table0);
      AnnouncedSince(table0, plans, announced, table, plans.Keys);
      var stored := Persist();
      if stored { return Some(applied); }
      ghost var durable := Stored(world.durable);
      var undone := RollBackTasks(ps, attempted, table0, plans, before);
      MidwayFits(asked, table0, plans, before, world.tasks, durable);
      if durable == announced {
        AnnouncedTasksKeepOutcome(table0, plans, announced, before, world.tasks);
        SurvivorsWhole(RestoredTasks(table0, before), RestoredTasks(durable, world.tasks));
      } else {
        UndoneCommitKeepsTasks(table0, plans, announced, table, before, world.tasks, except);
      }
      degraded := true;
      r := None;
    }

    // ------------------------------------------------------------- restoring

    /** One entry of `restore_tasks` or `recover_tasks_locked`; a process that is gone needs nothing. */
    method RestoreOneTask(entry: TaskEntry) returns (ok: bool)
      modifies world`tasks, world`dead
      ensures world.tasks.Keys <= old(world.tasks.Keys)
      ensures forall id :: id in world.tasks && id != entry.identity ==> world.tasks[id] == old(world.tasks)[id]
      ensures entry.identity in world.tasks ==>
                var was := old(world.tasks)[entry.identity];
                && Between(was, TaskOutcome(entry, was), world.tasks[entry.identity])
                && (ok ==> world.tasks[entry.identity] == TaskOutcome(entry, was))
      ensures world.healthy && !old(world.dead) ==> ok && !world.dead && world.tasks.Keys == old(world.tasks.Keys)
    {
      var presence := world.Identity(entry.identity);
      if presence == Unknown { return false; }
      if presence != Current { return true; }
      var reading := world.ReadTask(entry.identity);
      if reading.None? { return false; }
      var current := reading.value;
      var restorable := MatchingEither(entry.owned, current, entry.applied, entry.desired);
      var desired := Copy(restorable, current, entry.original);
      var changed := Changed(current, desired);
      if changed == {} {
        SameFields(current, desired);
        return true;
      }
      var actual := world.WriteTask(entry.identity, desired);
      if actual.None? { return false; }
      ghost var now := world.tasks[entry.identity];
      presence := world.Identity(entry.identity);
      ok := presence == Current && ValuesEqual(changed, actual.value, entry.original);
      if ok { RestoreComplete(entry, current, now); }
    }

    /** The loop of `restore_tasks` and `recover_tasks_locked`. */
    method RestoreTaskList(list: seq<TaskEntry>, ghost entries: TaskTable) returns (ok: bool)
      requires TakenFromTable(entries, list)
      modifies world`tasks, world`dead
      ensures TasksRestoring(entries, old(world.tasks), world.tasks)
      ensures forall id :: id in world.tasks && !EntryListed(list, id) ==> world.tasks[id] == old(world.tasks)[id]
      ensures ok ==> forall id :: id in world.tasks && EntryListed(list, id) ==> world.tasks[id] == OutcomeIn(entries, id, old(world.tasks)[id])
      ensures world.healthy && !old(world.dead) ==> ok && !world.dead && world.tasks.Keys == old(world.tasks.Keys)
    {
      ok := true;
      RestoringListStarts(entries, list, world.tasks);
      for k := 0 to |list|
        invariant ok && RestoringList(entries, list, k, old(world.tasks), world.tasks)
        invariant world.healthy && !old(world.dead) ==> !world.dead && world.tasks.Keys == old(world.tasks.Keys)
      {
        ghost var now := world.tasks;
        ok := RestoreOneTask(list[k]);
        RestoringListStep(entries, list, k, old(world.tasks), now, world.tasks, ok);
        if !ok { return; }
      }
    }

    /**
     `restore_tasks`: give the selected tasks' owned fields back, leave fields changed from outside alone, and
     release the tasks. No intent is needed: restoring is idempotent field by field.
     */
    method RestoreTasks(ids: seq<ProcessId>) returns (ok: bool)
      requires Valid()
      modifies this`degraded, this`table, world`tasks, world`durable, world`dead
      ensures Valid()
      ensures Survivors(old(RestoredTasks(Stored(world.durable), world.tasks)), RestoredTasks(Stored(world.durable), world.tasks))
      ensures EntriesKept(old(Stored(world.durable)), Stored(world.durable))
      ensures old(degraded || recoveryRequired) ==>
                !ok && world.tasks == old(world.tasks) && world.durable == old(world.durable) && table == old(table) && degraded == old(degraded)
      ensures !ok ==> degraded || old(recoveryRequired)
      ensures ok ==> && !degraded && table == old(table) - (set id | id in ids) && world.tasks.Keys <= old(world.tasks.Keys)
                     && forall id :: id in world.tasks ==>
                          world.tasks[id] == if id in ids then OutcomeIn(old(table), id, old(world.tasks)[id]) else old(world.tasks)[id]
      ensures world.healthy && !old(world.dead) && old(Ready()) ==> ok && !world.dead
    {
      if degraded || recoveryRequired { return false; }
      ghost var table0, before := table, world.tasks;
      var list := Pick(table, ids);
      TableEntriesCorrect(table, ids) by { assert Unfold(true); }
      ghost var dropped := set id | id in ids;
      if list == [] {
        NothingListed(table0, list, ids);
        return true;
      }
      ok := RestoreTaskList(list, table);
      RestoringTasksKeepsOutcome(asked, table0, before, world.tasks);
      if !ok { degraded := true; return; }
      ReleasingKeepsOutcome(asked, table0, before, world.tasks, dropped);
      table := table - set id | id in ids;
      ok := Persist();
      if !ok { degraded := true; }
    }

    /** `recover_pending`, for the tasks: restore everything journaled, then remove the journal. */
    method RecoverTasks() returns (ok: bool)
      requires Valid()
      modifies this`degraded, this`table, this`recoveryRequired, world`tasks, world`durable, world`dead
      ensures Valid() && (if ok then !degraded && !recoveryRequired else degraded)
      ensures Survivors(old(RestoredTasks(Stored(world.durable), world.tasks)), RestoredTasks(Stored(world.durable), world.tasks))
      ensures EntriesKept(old(Stored(world.durable)), Stored(world.durable))
      ensures old(degraded || !recoveryRequired) ==>
                ok == !degraded && world.tasks == old(world.tasks) && world.durable == old(world.durable)
      ensures ok && old(recoveryRequired) ==>
                && Stored(world.durable) == map[] && table == map[] && world.tasks.Keys <= old(world.tasks.Keys)
                && Survivors(old(RestoredTasks(Stored(world.durable), world.tasks)), world.tasks)
      ensures world.healthy && !old(world.dead) && !old(degraded) ==> ok && !world.dead && world.tasks.Keys == old(world.tasks.Keys)
    {
      if degraded { return false; }
      if !recoveryRequired { return true; }
      ghost var table0, before := table, world.tasks;
      var ids := Listing(table.Keys);
      var list := Pick(table, ids);
      TableEntriesCorrect(table, ids) by { assert Unfold(true); }
      ok := RestoreTaskList(list, table);
      RestoringTasksKeepsOutcome(asked, table0, before, world.tasks);
      if !ok { degraded := true; return; }
      ReleasingKeepsOutcome(asked, table0, before, world.tasks, table0.Keys);
      assert table0 - table0.Keys == map[];
      ok := world.RemoveTable();
      if !ok { degraded := true; return; }
      table, recoveryRequired := map[], false;
    }
  }

  lemma NothingListed(table: TaskTable, list: seq<TaskEntry>, ids: seq<ProcessId>)
    requires list == [] && forall id :: EntryListed(list, id) <==> id in ids && id in table
    ensures table - (set id | id in ids) == table && forall id :: id in ids ==> id !in table
  {
    forall id | id in ids ensures id !in table {
      assert !EntryListed(list, id);
    }
  }

  /** The fields a request list puts at risk on a store whose failed writes may take effect. */
  ghost function SlotsAtRisk(table: TaskTable, tasks: TaskStates, requests: seq<TaskRequest>): set<Slot> {
    set q, f: Field | q in requests && f in {Affinity, Nice, Policy, ClampMin, ClampMax} && q.identity in tasks
                      && FieldAtRisk(table, q.identity, tasks[q.identity], q.desired, f) :: Slot(q.identity, f)
  }

  lemma RisksCovered(table: TaskTable, tasks: TaskStates, requests: seq<TaskRequest>, plans: Plans)
    requires forall id :: id in plans ==> id in tasks && plans[id].before == tasks[id]
    requires forall i :: 0 <= i < |requests| ==> requests[i].identity in plans && plans[requests[i].identity].want == requests[i].desired
    requires forall id :: id in plans ==> exists i :: 0 <= i < |requests| && requests[i].identity == id
    ensures RisksExcepted(table, plans, SlotsAtRisk(table, tasks, requests))
  {
    forall id, f | id in plans && FieldAtRisk(table, id, plans[id].before, plans[id].want, f) ensures Slot(id, f) in SlotsAtRisk(table, tasks, requests) {
      var i :| 0 <= i < |requests| && requests[i].identity == id;
      assert requests[i] in requests;
    }
  }

  ghost predicate RequestsTask(requests: seq<TaskRequest>, id: ProcessId) { exists i :: 0 <= i < |requests| && requests[i].identity == id }

  /** Every owned field was owned with the same original, or is newly requested with its outcome so far as its original. */
  ghost predicate ClaimsSince(requests: seq<TaskRequest>, before: TaskTable, outcome: TaskStates, now: TaskTable) {
    forall id, f :: OwnsField(now, id, f) ==>
      || (OwnsField(before, id, f) && Get(now[id].original, f) == Get(before[id].original, f))
      || (!OwnsField(before, id, f) && RequestsTask(requests, id) && id in outcome && Get(now[id].original, f) == Get(outcome[id], f))
  }

  lemma PlansTraced(requests: seq<TaskRequest>, table: TaskTable, plans: Plans, tasks: TaskStates, now: TaskTable)
    requires OwnedSince(table, plans, now)
    requires forall id :: id in plans ==> id in tasks && plans[id].before == tasks[id]
    requires forall id :: id in plans ==> exists i :: 0 <= i < |requests| && requests[i].identity == id
    ensures ClaimsSince(requests, table, RestoredTasks(table, tasks), now)
  {
    forall id, f | OwnsField(now, id, f) && !OwnsField(table, id, f)
      ensures RequestsTask(requests, id) && id in RestoredTasks(table, tasks) && Get(now[id].original, f) == Get(RestoredTasks(table, tasks)[id], f)
    {
      if id in table { OutcomeFieldwise(table[id], tasks[id], f); }
    }
  }

  lemma ExceptFrom(a: TaskStates, b: TaskStates, c: TaskStates, except: set<Slot>)
    requires Survivors(a, b) && SurvivorsExcept(b, c, except)
    ensures SurvivorsExcept(a, c, except)
  {
  }

  /** Entries may go, but those that stay are unchanged. */
  ghost predicate EntriesKept(before: TaskTable, now: TaskTable) {
    forall id :: id in now ==> id in before && now[id] == before[id]
  }

  lemma EntriesValid(asked: Asks, tasks: TaskStates, table: TaskTable)
    requires TasksFit(asked, tasks, table)
    ensures forall id :: id in table ==> ValidEntry(id, table[id])
  {
    assert Unfold(true);
  }

  /** Every live requested task holds its request, on the fields that are granted. */
  ghost predicate TasksGranted(requests: seq<TaskRequest>, table: TaskTable, before: TaskStates, now: TaskStates, outcome: TaskStates) {
    && now.Keys <= before.Keys
    && (forall i :: 0 <= i < |requests| ==>
          var id := requests[i].identity;
          && id in outcome && id in before
          && outcome[id] == PlannedEntry(table, id, before[id], requests[i].desired).desired)
    && (forall id :: id in now ==> now[id] == if id in outcome then outcome[id] else before[id])
    && (forall id :: id in outcome ==> exists i :: 0 <= i < |requests| && requests[i].identity == id)
  }

  /** The table is as it was, except that losses to outside writers may have been noted. */
  ghost predicate OnlyRenewed(before: TaskTable, tasks: TaskStates, now: TaskTable) {
    && now.Keys == before.Keys
    && forall id :: id in now ==> now[id] == before[id] || (id in tasks && now[id] == Renewed(before[id], tasks[id]))
  }

  lemma PlansGranted(requests: seq<TaskRequest>, table: TaskTable, plans: Plans, start: TaskStates, before: TaskStates, now: TaskStates, outcome: TaskStates)
    requires PlansFor(table, plans) && Survivors(start, before) && TasksWritten(plans, plans.Keys, before, now)
    requires forall id :: id in plans ==> id in start && plans[id].before == start[id]
    requires forall i :: 0 <= i < |requests| ==> requests[i].identity in plans && plans[requests[i].identity].want == requests[i].desired
    requires forall id :: id in plans ==> exists i :: 0 <= i < |requests| && requests[i].identity == id
    requires outcome.Keys == plans.Keys && forall id :: id in plans ==> outcome[id] == plans[id].planned.desired
    ensures TasksGranted(requests, table, start, now, outcome)
  {
    assert UnfoldBatch(true);
  }

  lemma PlansWithdrawn(table: TaskTable, plans: Plans, tasks: TaskStates, withdrawn: TaskTable)
    requires PlansFor(table, plans) && TasksWithdrawn(table, plans, withdrawn)
    requires forall id :: id in plans ==> id in tasks && plans[id].before == tasks[id]
    ensures OnlyRenewed(table, tasks, withdrawn)
  {
    assert UnfoldBatch(true);
  }

  ghost predicate RequestsFit(asked: Asks, requests: seq<TaskRequest>) {
    forall i :: 0 <= i < |requests| ==> WellFormed(requests[i].desired) && AskedWhole(asked, requests[i].identity, requests[i].desired)
  }

  lemma SurvivorsFit(asked: Asks, before: TaskStates, now: TaskStates, table: TaskTable)
    requires TasksFit(asked, before, table) && Survivors(before, now)
    ensures TasksFit(asked, now, table) && Survivors(RestoredTasks(table, before), RestoredTasks(table, now))
  {
    assert Unfold(true);
  }

  lemma PlansAreWellFormed(asked: Asks, tasks: TaskStates, table: TaskTable, requests: seq<TaskRequest>, plans: Plans)
    requires TasksFit(asked, tasks, table) && RequestsFit(asked, requests)
    requires forall id :: id in plans ==> id in tasks && plans[id].before == tasks[id]
    requires forall i :: 0 <= i < |requests| ==> requests[i].identity in plans && plans[requests[i].identity].want == requests[i].desired
    requires forall id :: id in plans ==> exists i :: 0 <= i < |requests| && requests[i].identity == id
    ensures PlansWellFormed(asked, plans)
  {
    assert Unfold(true);
    forall id | id in plans
      ensures WellFormed(plans[id].before) && WellFormed(plans[id].want) && AskedWhole(asked, id, plans[id].want)
    {
      var i :| 0 <= i < |requests| && requests[i].identity == id;
    }
  }

  /** No request repeats and every requested process lives. */
  predicate AllLive(requests: seq<TaskRequest>, tasks: TaskStates) {
    && (forall i :: 0 <= i < |requests| ==> requests[i].identity in tasks)
    && (forall i, j :: 0 <= i < j < |requests| ==> requests[i].identity != requests[j].identity)
  }
}
