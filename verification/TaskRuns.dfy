/**
 Whole runs over tasks: batches, restores, recoveries, restarts, exiting processes and writes from outside, in any
 order and with any faults; then a fault-free restart and recovery.
 */
module TaskRuns {
  import opened Common
  import opened Tasks
  import opened TaskActuator

  datatype Command =
    | Apply(requests: seq<TaskRequest>)
    | Restore(ids: seq<ProcessId>)
    | Recover
    | Restart
    | Exit(process: ProcessId)
    | Outside(task: ProcessId, field: Field, source: TaskState)

  ghost predicate CommandFits(asked: Asks, c: Command) {
    match c
    case Apply(requests) => RequestsFit(asked, requests)
    case Outside(_, _, source) => WellFormed(source)
    case _ => true
  }

  predicate Touches(c: Command, id: ProcessId, f: Field) { c.Outside? && c.task == id && c.field == f }

  /**
   A field written from outside: the value stays, unless the field is owned and holds a journaled value again;
   and a value nobody ever requested stays in any case.
   */
  lemma OutsideFieldWrite(asked: Asks, tasks: TaskStates, table: TaskTable, id: ProcessId, f: Field, source: TaskState)
    requires TasksFit(asked, tasks, table) && id in tasks && WellFormed(source)
    ensures
      var now := Copy({f}, tasks[id], source);
      && TasksFit(asked, tasks[id := now], table)
      && (forall g :: g != f ==> Get(OutcomeIn(table, id, now), g) == Get(OutcomeIn(table, id, tasks[id]), g))
      && Get(OutcomeIn(table, id, now), f)
         == (if id in table && f in table[id].owned && (Get(source, f) == Get(table[id].applied, f) || Get(source, f) == Get(table[id].desired, f))
             then Get(table[id].original, f) else Get(source, f))
      && (Ask(id, f, Get(source, f)) !in asked ==> Get(OutcomeIn(table, id, now), f) == Get(source, f))
  {
    assert Unfold(true);
    CopyWellFormed({f}, tasks[id], source);
  }

  // ----------------------------------------------------------------------- one step

  /** The command writes from outside a value that is not a journaled one of an owned field. */
  ghost predicate Foreign(table: TaskTable, c: Command) {
    c.Outside? && !(OwnsField(table, c.task, c.field)
                    && (Get(c.source, c.field) == Get(table[c.task].applied, c.field) || Get(c.source, c.field) == Get(table[c.task].desired, c.field)))
  }

  ghost predicate Requests(c: Command, id: ProcessId) { c.Apply? && RequestsTask(c.requests, id) }

  /** The slots a command puts at risk on a store whose failed writes may take effect. */
  ghost function RiskOf(world: TaskWorld, c: Command): set<Slot>
    reads world
  {
    if c.Apply? && !world.atomicStore then SlotsAtRisk(Stored(world.durable), world.tasks, c.requests) else {}
  }

  /**
   What one command does to the state recovery would leave, given the stored tables before and after it: an untouched
   slot stays; a touched one holds the foreign value, or the original its owner journaled; and a field is owned as
   before, or newly requested with its outcome so far as its original.
   */
  ghost predicate StepExplained(asked: Asks, c: Command, table0: TaskTable, was: TaskStates, table1: TaskTable, now: TaskStates, risky: set<Slot>) {
    && now.Keys <= was.Keys
    && (forall id, f :: id in now && !Touches(c, id, f) && Slot(id, f) !in risky ==> Get(now[id], f) == Get(was[id], f))
    && (c.Outside? && c.task in now ==>
          && Get(now[c.task], c.field) == Get(if Foreign(table0, c) then c.source else table0[c.task].original, c.field)
          && (Ask(c.task, c.field, Get(c.source, c.field)) !in asked ==> Get(now[c.task], c.field) == Get(c.source, c.field)))
    && (forall id, f :: OwnsField(table1, id, f) ==>
          || (OwnsField(table0, id, f) && Get(table1[id].original, f) == Get(table0[id].original, f))
          || (!OwnsField(table0, id, f) && Requests(c, id) && id in was && Get(table1[id].original, f) == Get(was[id], f)))
  }

  method Step(a: TaskActuator, c: Command) returns (next: TaskActuator)
    requires a.Valid() && CommandFits(a.asked, c)
    modifies a, a.world`tasks, a.world`durable, a.world`dead
    ensures next == a || fresh(next)
    ensures next.Valid() && next.world == a.world && next.asked == a.asked
    ensures StepExplained(a.asked, c, old(Stored(a.world.durable)), old(RestoredTasks(Stored(a.world.durable), a.world.tasks)),
                          Stored(a.world.durable), RestoredTasks(Stored(a.world.durable), a.world.tasks), old(RiskOf(a.world, c)))
  {
    next := a;
    ghost var table0, was := Stored(a.world.durable), RestoredTasks(Stored(a.world.durable), a.world.tasks);
    match c
    case Apply(requests) => var _ := a.ApplyTasks(requests);
    case Restore(ids) =>
      var _ := a.RestoreTasks(ids);
      SurvivorsWhole(was, RestoredTasks(Stored(a.world.durable), a.world.tasks));
    case Recover =>
      var _ := a.RecoverTasks();
      SurvivorsWhole(was, RestoredTasks(Stored(a.world.durable), a.world.tasks));
    case Restart =>
      a.world.dead := false;
      next := new TaskActuator(a.world, a.asked);
    case Exit(id) =>
      SurvivorsFit(a.asked, a.world.tasks, a.world.tasks - {id}, table0);
      a.world.tasks := a.world.tasks - {id};
    case Outside(id, f, source) =>
      if id in a.world.tasks {
        OutsideFieldWrite(a.asked, a.world.tasks, table0, id, f, source);
        a.world.tasks := a.world.tasks[id := Copy({f}, a.world.tasks[id], source)];
      }
  }

  // --------------------------------------------------------------------- whole runs

  /** Write `i` is the last of the first `k` commands to touch the field. */
  predicate LastTouch(cs: seq<Command>, k: nat, i: nat, id: ProcessId, f: Field) {
    i < k <= |cs| && Touches(cs[i], id, f) && forall j :: i < j < k ==> !Touches(cs[j], id, f)
  }

  predicate Untouched(cs: seq<Command>, k: nat, id: ProcessId, f: Field) {
    k <= |cs| && forall j :: 0 <= j < k ==> !Touches(cs[j], id, f)
  }

  /**
   The history of the first `n` commands: `tables[k]` is the table on disk and `trace[k]` the state recovery would
   leave, both before command `k`.
   */
  ghost predicate Explained(asked: Asks, cs: seq<Command>, n: nat, tables: seq<TaskTable>, trace: seq<TaskStates>, risky: set<Slot>) {
    && n <= |cs| && |tables| == |trace| == n + 1 && tables[0] == map[]
    && forall k :: 0 <= k < n ==> StepExplained(asked, cs[k], tables[k], trace[k], tables[k + 1], trace[k + 1], risky)
  }

  /** The field was claimed by command `j` and has been owned since, up to command `k`. */
  ghost predicate ClaimedAt(tables: seq<TaskTable>, j: nat, k: nat, id: ProcessId, f: Field) {
    && j < k < |tables| && !OwnsField(tables[j], id, f) && OwnsField(tables[k], id, f)
    && (forall m :: j < m <= k ==> OwnsField(tables[m], id, f) && Get(tables[m][id].original, f) == Get(tables[k][id].original, f))
  }

  /** Surviving tasks were there all along. */
  lemma {:induction false} TasksOnlyExit(asked: Asks, cs: seq<Command>, n: nat, tables: seq<TaskTable>, trace: seq<TaskStates>, risky: set<Slot>, j: nat, k: nat)
    requires Explained(asked, cs, n, tables, trace, risky) && j <= k <= n
    ensures trace[k].Keys <= trace[j].Keys
    decreases k - j
  {
    if j < k {
      TasksOnlyExit(asked, cs, n, tables, trace, risky, j, k - 1);
      assert StepExplained(asked, cs[k - 1], tables[k - 1], trace[k - 1], tables[k], trace[k], risky);
    }
  }

  /** The journaled original of an owned field is what recovery would have left when it was claimed. */
  lemma {:induction false} OriginalIsClaimTime(asked: Asks, cs: seq<Command>, n: nat, tables: seq<TaskTable>, trace: seq<TaskStates>, risky: set<Slot>,
                                               k: nat, id: ProcessId, f: Field) returns (j: nat)
    requires Explained(asked, cs, n, tables, trace, risky) && k <= n && OwnsField(tables[k], id, f)
    ensures ClaimedAt(tables, j, k, id, f) && Requests(cs[j], id)
    ensures id in trace[j] && Get(tables[k][id].original, f) == Get(trace[j][id], f)
    decreases k
  {
    assert k > 0;
    assert StepExplained(asked, cs[k - 1], tables[k - 1], trace[k - 1], tables[k], trace[k], risky);
    if OwnsField(tables[k - 1], id, f) {
      j := OriginalIsClaimTime(asked, cs, n, tables, trace, risky, k - 1, id, f);
      assert forall m :: j < m <= k ==> OwnsField(tables[m], id, f) && Get(tables[m][id].original, f) == Get(tables[k][id].original, f);
    } else {
      j := k - 1;
    }
  }

  /** A slot nobody touches stays. */
  lemma {:induction false} UntouchedStays(asked: Asks, cs: seq<Command>, n: nat, tables: seq<TaskTable>, trace: seq<TaskStates>, risky: set<Slot>,
                                          j: nat, k: nat, id: ProcessId, f: Field)
    requires Explained(asked, cs, n, tables, trace, risky) && j <= k <= n && id in trace[k] && Slot(id, f) !in risky
    requires forall m :: j <= m < k ==> !Touches(cs[m], id, f)
    ensures id in trace[j] && Get(trace[k][id], f) == Get(trace[j][id], f)
    decreases k - j
  {
    if j < k {
      assert StepExplained(asked, cs[k - 1], tables[k - 1], trace[k - 1], tables[k], trace[k], risky);
      UntouchedStays(asked, cs, n, tables, trace, risky, j, k - 1, id, f);
    }
  }

  /**
   The last write to a field decides it: a foreign value stays; a journaled one hands the field back, and it ends
   where recovery would have left it when the daemon claimed it.
   */
  lemma {:induction false} LastTouchDecides(asked: Asks, cs: seq<Command>, n: nat, tables: seq<TaskTable>, trace: seq<TaskStates>, risky: set<Slot>,
                                            i: nat, id: ProcessId, f: Field)
    requires Explained(asked, cs, n, tables, trace, risky) && LastTouch(cs, n, i, id, f) && id in trace[n] && Slot(id, f) !in risky
    ensures Decided(asked, cs, tables, trace, i, id, f, trace[n][id])
  {
    UntouchedStays(asked, cs, n, tables, trace, risky, i + 1, n, id, f);
    assert StepExplained(asked, cs[i], tables[i], trace[i], tables[i + 1], trace[i + 1], risky);
    if !Foreign(tables[i], cs[i]) {
      var j := OriginalIsClaimTime(asked, cs, n, tables, trace, risky, i, id, f);
      assert ClaimedAt(tables, j, i, id, f);
    }
  }

  ghost predicate Decided(asked: Asks, cs: seq<Command>, tables: seq<TaskTable>, trace: seq<TaskStates>, i: nat, id: ProcessId, f: Field, final: TaskState)
    requires i < |cs| && i < |tables| == |trace| && cs[i].Outside?
  {
    && (Foreign(tables[i], cs[i]) ==> Get(final, f) == Get(cs[i].source, f))
    && (!Foreign(tables[i], cs[i]) ==>
          exists j: nat :: ClaimedAt(tables, j, i, id, f) && Requests(cs[j], id) && id in trace[j] && Get(final, f) == Get(trace[j][id], f))
    && (Ask(id, f, Get(cs[i].source, f)) !in asked ==> Get(final, f) == Get(cs[i].source, f))
  }

  /** No write to the field among the first `k` commands is foreign. */
  ghost predicate NeverForeign(cs: seq<Command>, k: nat, tables: seq<TaskTable>, id: ProcessId, f: Field) {
    k <= |cs| && k <= |tables| && forall i :: 0 <= i < k && Touches(cs[i], id, f) ==> !Foreign(tables[i], cs[i])
  }

  /** A field to which nobody ever wrote a foreign value keeps its first value. */
  lemma {:induction false} NeverForeignKeepsFirst(asked: Asks, cs: seq<Command>, n: nat, tables: seq<TaskTable>, trace: seq<TaskStates>, risky: set<Slot>,
                                                  k: nat, id: ProcessId, f: Field)
    requires Explained(asked, cs, n, tables, trace, risky) && k <= n && id in trace[k] && Slot(id, f) !in risky && NeverForeign(cs, k, tables, id, f)
    ensures id in trace[0] && Get(trace[k][id], f) == Get(trace[0][id], f)
    decreases k
  {
    if k > 0 {
      assert StepExplained(asked, cs[k - 1], tables[k - 1], trace[k - 1], tables[k], trace[k], risky);
      if Touches(cs[k - 1], id, f) {
        var j := OriginalIsClaimTime(asked, cs, n, tables, trace, risky, k - 1, id, f);
        NeverForeignKeepsFirst(asked, cs, n, tables, trace, risky, j, id, f);
      } else {
        NeverForeignKeepsFirst(asked, cs, n, tables, trace, risky, k - 1, id, f);
      }
    }
  }

  /** Some of the first `k` commands requests the task; two of them do. */
  ghost predicate Requested(cs: seq<Command>, k: nat, id: ProcessId) { exists i :: 0 <= i < k && i < |cs| && Requests(cs[i], id) }

  ghost predicate RequestedTwice(cs: seq<Command>, k: nat, id: ProcessId) {
    exists j :: 0 <= j < k && j < |cs| && Requests(cs[j], id) && Requested(cs, j, id)
  }

  /** Command `k` asks to change a field that is owned and journaled away from its original. */
  ghost predicate RiskAt(cs: seq<Command>, tables: seq<TaskTable>, k: nat, s: Slot) {
    && k < |cs| && k < |tables| && OwnsField(tables[k], s.id, s.field)
    && Get(tables[k][s.id].applied, s.field) != Get(tables[k][s.id].original, s.field)
    && cs[k].Apply? && exists q :: q in cs[k].requests && q.identity == s.id && Get(q.desired, s.field) != Get(tables[k][s.id].applied, s.field)
  }

  /** Only such fields are ever at risk, and their tasks have been requested before. */
  ghost predicate RisksTraced(cs: seq<Command>, n: nat, tables: seq<TaskTable>, risky: set<Slot>) {
    forall s :: s in risky ==> RequestedTwice(cs, n, s.id) && exists k: nat :: k < n && RiskAt(cs, tables, k, s)
  }

  lemma RisksTracedNext(asked: Asks, cs: seq<Command>, n: nat, tables: seq<TaskTable>, trace: seq<TaskStates>, risky: set<Slot>, world: TaskWorld, table: TaskTable)
    requires n < |cs| && Explained(asked, cs, n, tables, trace, risky) && RisksTraced(cs, n, tables, risky) && Stored(world.durable) == tables[n]
    ensures RisksTraced(cs, n + 1, tables + [table], risky + RiskOf(world, cs[n]))
  {
    forall s | s in risky + RiskOf(world, cs[n])
      ensures RequestedTwice(cs, n + 1, s.id) && exists k: nat :: k < n + 1 && RiskAt(cs, tables + [table], k, s)
    {
      if s in risky {
        var j :| 0 <= j < n && j < |cs| && Requests(cs[j], s.id) && Requested(cs, j, s.id);
        var k: nat :| k < n && RiskAt(cs, tables, k, s);
        assert RiskAt(cs, tables + [table], k, s);
      } else {
        var q :| q in cs[n].requests && q.identity == s.id && q.identity in world.tasks
                 && FieldAtRisk(tables[n], q.identity, world.tasks[q.identity], q.desired, s.field);
        var i :| 0 <= i < |cs[n].requests| && cs[n].requests[i] == q;
        assert RiskAt(cs, tables + [table], n, s);
        assert Requests(cs[n], s.id);
        var j := OriginalIsClaimTime(asked, cs, n, tables, trace, risky, n, s.id, s.field);
        assert Requested(cs, n, s.id);
      }
    }
  }

  /** More slots may be excepted, and one more command explained. */
  lemma ExplainedNext(asked: Asks, cs: seq<Command>, n: nat, tables: seq<TaskTable>, trace: seq<TaskStates>, risky: set<Slot>,
                      table: TaskTable, now: TaskStates, more: set<Slot>)
    requires n < |cs| && Explained(asked, cs, n, tables, trace, risky)
    requires StepExplained(asked, cs[n], tables[n], trace[n], table, now, more)
    ensures Explained(asked, cs, n + 1, tables + [table], trace + [now], risky + more)
  {
    var ts, st := tables + [table], trace + [now];
    forall k | 0 <= k < n + 1 ensures StepExplained(asked, cs[k], ts[k], st[k], ts[k + 1], st[k + 1], risky + more) {
      if k < n { assert StepExplained(asked, cs[k], tables[k], trace[k], tables[k + 1], trace[k + 1], risky); }
    }
  }

  /** Every field of every surviving task ends where its history says. */
  ghost predicate FieldsDecided(asked: Asks, cs: seq<Command>, tables: seq<TaskTable>, trace: seq<TaskStates>, risky: set<Slot>, first: TaskStates, final: TaskStates) {
    && |tables| == |trace| == |cs| + 1 && final.Keys <= first.Keys
    && (forall id, f :: id in final && Slot(id, f) !in risky && NeverForeign(cs, |cs|, tables, id, f) ==> Get(final[id], f) == Get(first[id], f))
    && (forall id, f, i: nat :: id in final && Slot(id, f) !in risky && LastTouch(cs, |cs|, i, id, f) ==> Decided(asked, cs, tables, trace, i, id, f, final[id]))
  }

  lemma HistoryDecides(asked: Asks, cs: seq<Command>, tables: seq<TaskTable>, trace: seq<TaskStates>, risky: set<Slot>, final: TaskStates)
    requires Explained(asked, cs, |cs|, tables, trace, risky) && Survivors(trace[|cs|], final)
    ensures FieldsDecided(asked, cs, tables, trace, risky, trace[0], final)
  {
    TasksOnlyExit(asked, cs, |cs|, tables, trace, risky, 0, |cs|);
    forall id, f | id in final && Slot(id, f) !in risky && NeverForeign(cs, |cs|, tables, id, f) ensures Get(final[id], f) == Get(trace[0][id], f) {
      NeverForeignKeepsFirst(asked, cs, |cs|, tables, trace, risky, |cs|, id, f);
    }
    forall id, f, i: nat | id in final && Slot(id, f) !in risky && LastTouch(cs, |cs|, i, id, f) ensures Decided(asked, cs, tables, trace, i, id, f, final[id]) {
      LastTouchDecides(asked, cs, |cs|, tables, trace, risky, i, id, f);
    }
  }

  /**
   Per-field ownership over whole runs. From unclaimed tasks, after any run a fault-free restart and recovery
   succeed, and every field of every surviving task ends exactly where the history of the run says: at its first
   value if nobody ever wrote a foreign value to it; at the last value written if that was foreign; and else where it
   would have ended when the daemon claimed it. On a store that is not atomic, fields put at risk are excepted: those
   of tasks requested again while journaled away from their original.
   */
  method RunThenRecover(world: TaskWorld, cs: seq<Command>, ghost asked: Asks)
    returns (ok: bool, ghost tables: seq<TaskTable>, ghost trace: seq<TaskStates>, ghost risky: set<Slot>)
    requires world.durable == None && forall id :: id in world.tasks ==> WellFormed(world.tasks[id])
    requires forall i :: 0 <= i < |cs| ==> CommandFits(asked, cs[i])
    modifies world
    ensures ok && Stored(world.durable) == map[]
    ensures Explained(asked, cs, |cs|, tables, trace, risky) && trace[0] == old(world.tasks) && Survivors(trace[|cs|], world.tasks)
    ensures FieldsDecided(asked, cs, tables, trace, risky, old(world.tasks), world.tasks)
    ensures (world.atomicStore ==> risky == {}) && RisksTraced(cs, |cs|, tables, risky)
  {
    var a := new TaskActuator(world, asked);
    tables, trace, risky := [Stored(world.durable)], [world.tasks], {};
    assert RestoredTasks(map[], world.tasks) == world.tasks;
    for k := 0 to |cs|
      invariant fresh(a) && a.world == world && a.asked == asked && a.Valid() && (world.atomicStore ==> risky == {})
      invariant Explained(asked, cs, k, tables, trace, risky) && RisksTraced(cs, k, tables, risky) && trace[0] == old(world.tasks)
      invariant tables[k] == Stored(world.durable) && trace[k] == RestoredTasks(Stored(world.durable), world.tasks)
    {
      ghost var more := RiskOf(world, cs[k]);
      forall table ensures RisksTraced(cs, k + 1, tables + [table], risky + more) {
        RisksTracedNext(asked, cs, k, tables, trace, risky, world, table);
      }
      a := Step(a, cs[k]);
      ghost var table, now := Stored(world.durable), RestoredTasks(Stored(world.durable), world.tasks);
      ExplainedNext(asked, cs, k, tables, trace, risky, table, now, more);
      tables, trace, risky := tables + [table], trace + [now], risky + more;
    }
    world.dead, world.healthy := false, true;
    a := new TaskActuator(world, asked);
    assert Stored(world.durable) == map[] ==> trace[|cs|] == world.tasks;
    ok := a.RecoverTasks();
    HistoryDecides(asked, cs, tables, trace, risky, world.tasks);
  }

  /**
   The case to mind: a foreign value followed, before the daemon looks again, by the journaled one. The field counts as
   the daemon's once more and goes back to its original, so the foreign value is gone.
   */
  lemma HandedBackFieldLosesForeignValue(id: ProcessId)
    ensures
      var at := (level: int) => TaskState({0}, level, Other, None, None, None);
      var table := map[id := TaskEntry(id, at(0), at(5), at(5), {Nice}, {})];
      && ValidEntry(id, table[id]) && Idle(table[id])
      && Foreign(table, Outside(id, Nice, at(-3))) && OutcomeIn(table, id, Copy({Nice}, at(5), at(-3))) == at(-3)
      && !Foreign(table, Outside(id, Nice, at(5))) && OutcomeIn(table, id, Copy({Nice}, at(-3), at(5))) == at(0)
  {
    var at := (level: int) => TaskState({0}, level, Other, None, None, None);
    var e := TaskEntry(id, at(0), at(5), at(5), {Nice}, {});
    SameFields(TaskOutcome(e, Copy({Nice}, at(5), at(-3))), at(-3));
    SameFields(TaskOutcome(e, Copy({Nice}, at(-3), at(5))), at(0));
  }
}
