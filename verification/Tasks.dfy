/**
 Task scheduling state field by field: masks, ownership entries, and what preparing, writing, rolling back and
 restoring do to the state each task would finally be left in.
 */
module Tasks {
  import opened Common

  /** A stable process identity: PID, start time and owner. The code only ever compares it. */
  type ProcessId(==, !new)

  datatype SchedulingClass = Other | BatchClass | IdleClass | Fifo

  /** `ProcessSchedulingState`. */
  datatype TaskState = TaskState(
    affinity: set<nat>, nice: int, policy: SchedulingClass, priority: Option<nat>, clampMin: Option<nat>, clampMax: Option<nat>)

  /** The fields a mask can name; class and fixed priority are one field, set by one system call. */
  datatype Field = Affinity | Nice | Policy | ClampMin | ClampMax

  datatype FieldValue = Cpus(cpus: set<nat>) | Level(level: int) | Class(policy: SchedulingClass, priority: Option<nat>) | Clamped(value: Option<nat>)

  function Get(s: TaskState, f: Field): FieldValue {
    match f
    case Affinity => Cpus(s.affinity)
    case Nice => Level(s.nice)
    case Policy => Class(s.policy, s.priority)
    case ClampMin => Clamped(s.clampMin)
    case ClampMax => Clamped(s.clampMax)
  }

  /** `TaskFieldMask`, as the set of the fields it names. */
  type Mask = set<Field>

  /** `TaskFieldMask::changed`. */
  function Changed(before: TaskState, after: TaskState): (m: Mask)
    ensures forall f :: f in m <==> Get(before, f) != Get(after, f)
  {
    set f: Field | f in {Affinity, Nice, Policy, ClampMin, ClampMax} && Get(before, f) != Get(after, f)
  }

  /** `TaskFieldMask::fields_matching_either`. */
  function MatchingEither(mask: Mask, current: TaskState, first: TaskState, second: TaskState): (m: Mask)
    ensures forall f :: f in m <==> f in mask && (Get(current, f) == Get(first, f) || Get(current, f) == Get(second, f))
  {
    set f | f in mask && (Get(current, f) == Get(first, f) || Get(current, f) == Get(second, f))
  }

  /** `TaskFieldMask::copy`. */
  function Copy(mask: Mask, destination: TaskState, source: TaskState): (s: TaskState)
    ensures forall f :: Get(s, f) == if f in mask then Get(source, f) else Get(destination, f)
  {
    TaskState(if Affinity in mask then source.affinity else destination.affinity,
              if Nice in mask then source.nice else destination.nice,
              if Policy in mask then source.policy else destination.policy,
              if Policy in mask then source.priority else destination.priority,
              if ClampMin in mask then source.clampMin else destination.clampMin,
              if ClampMax in mask then source.clampMax else destination.clampMax)
  }

  /** `TaskFieldMask::values_equal`. */
  predicate ValuesEqual(mask: Mask, left: TaskState, right: TaskState) {
    forall f :: f in mask ==> Get(left, f) == Get(right, f)
  }

  /** A state is determined by its fields. */
  lemma SameFields(a: TaskState, b: TaskState)
    requires forall f :: Get(a, f) == Get(b, f)
    ensures a == b
  {
    assert Get(a, Affinity) == Get(b, Affinity) && Get(a, Nice) == Get(b, Nice) && Get(a, Policy) == Get(b, Policy);
    assert Get(a, ClampMin) == Get(b, ClampMin) && Get(a, ClampMax) == Get(b, ClampMax);
  }

  /** The changed fields are the least mask whose copy turns one state into the other. */
  lemma ChangedIsLeast(before: TaskState, after: TaskState, mask: Mask)
    ensures Copy(Changed(before, after), before, after) == after
    ensures Copy(mask, before, after) == after <==> Changed(before, after) <= mask
  {
    SameFields(Copy(Changed(before, after), before, after), after);
    if Changed(before, after) <= mask {
      SameFields(Copy(mask, before, after), after);
    } else {
      var f :| f in Changed(before, after) && f !in mask;
      assert Get(Copy(mask, before, after), f) == Get(before, f);
    }
  }

  /** `validate_journal_scheduling_state`. */
  predicate WellFormed(s: TaskState) {
    if s.policy.Fifo? then s.priority.Some? && 1 <= s.priority.value <= 99 else s.priority.None?
  }

  lemma CopyWellFormed(mask: Mask, destination: TaskState, source: TaskState)
    requires WellFormed(destination) && WellFormed(source)
    ensures WellFormed(Copy(mask, destination, source))
  {
  }

  // ---------------------------------------------------------------- ownership entries

  /** `TaskJournalEntry`. */
  datatype TaskEntry = TaskEntry(
    identity: ProcessId, original: TaskState, desired: TaskState, applied: TaskState, owned: Mask, relinquished: Mask)

  type TaskTable = map<ProcessId, TaskEntry>

  type TaskStates = map<ProcessId, TaskState>

  /** The checks `validate_decoded_journal` makes on one task entry. */
  predicate ValidEntry(key: ProcessId, e: TaskEntry) {
    && key == e.identity && WellFormed(e.original) && WellFormed(e.desired) && WellFormed(e.applied)
    && e.owned !! e.relinquished
  }

  /** A field value somebody requested for a task during a run. */
  datatype Ask = Ask(id: ProcessId, field: Field, value: FieldValue)

  type Asks = set<Ask>

  /** Every journaled value of an owned field was requested, or is the original itself. */
  ghost predicate FromAsked(asked: Asks, e: TaskEntry) {
    forall f :: f in e.owned ==>
      && (Ask(e.identity, f, Get(e.applied, f)) in asked || Get(e.applied, f) == Get(e.original, f))
      && (Ask(e.identity, f, Get(e.desired, f)) in asked || Get(e.desired, f) == Get(e.original, f))
  }

  ghost predicate AskedWhole(asked: Asks, id: ProcessId, want: TaskState) {
    forall f :: Ask(id, f, Get(want, f)) in asked
  }

  /** No transition is under way. */
  predicate Idle(e: TaskEntry) { e.applied == e.desired }

  /** What restoring leaves: each owned field still holding a journaled value goes back to its original. */
  function TaskOutcome(e: TaskEntry, current: TaskState): TaskState {
    Copy(MatchingEither(e.owned, current, e.applied, e.desired), current, e.original)
  }

  /** Restoring moves exactly the owned fields that still hold a journaled value, each to its original, and does so once. */
  lemma OutcomeFieldwise(e: TaskEntry, current: TaskState, f: Field)
    ensures Get(TaskOutcome(e, current), f)
            == if f in e.owned && (Get(current, f) == Get(e.applied, f) || Get(current, f) == Get(e.desired, f)) then Get(e.original, f)
               else Get(current, f)
    ensures TaskOutcome(e, TaskOutcome(e, current)) == TaskOutcome(e, current)
  {
    SameFields(TaskOutcome(e, TaskOutcome(e, current)), TaskOutcome(e, current));
  }

  function OutcomeIn(table: TaskTable, id: ProcessId, current: TaskState): TaskState {
    if id in table then TaskOutcome(table[id], current) else current
  }

  /** What restoring every live task would leave. */
  function RestoredTasks(table: TaskTable, tasks: TaskStates): TaskStates {
    map id | id in tasks :: OutcomeIn(table, id, tasks[id])
  }

  /** Every field holds its old value or the new one: what an interrupted write leaves. */
  ghost predicate Between(a: TaskState, b: TaskState, now: TaskState) {
    forall f :: Get(now, f) == Get(a, f) || Get(now, f) == Get(b, f)
  }

  lemma BetweenSame(a: TaskState, now: TaskState)
    requires Between(a, a, now)
    ensures now == a
  {
    SameFields(a, now);
  }

  /** An existing entry brought up to date: fields changed from outside are relinquished for good. */
  function Renewed(e: TaskEntry, current: TaskState): TaskEntry {
    var still := MatchingEither(e.owned, current, e.applied, e.applied);
    var lost := e.owned - still;
    e.(original := Copy(lost, e.original, current), desired := current, applied := current,
       owned := still, relinquished := e.relinquished + lost)
  }

  function Unowned(id: ProcessId, current: TaskState): TaskEntry {
    TaskEntry(id, current, current, current, {}, {})
  }

  /** The entry announcing a request: requested fields become owned unless they were relinquished. */
  function Retargeted(e: TaskEntry, current: TaskState, want: TaskState): TaskEntry {
    var next := e.owned + (Changed(current, want) - e.relinquished);
    e.(original := Copy(next - e.owned, e.original, current), desired := Copy(next, current, want), applied := current, owned := next)
  }

  function BaseEntry(table: TaskTable, id: ProcessId, current: TaskState): TaskEntry {
    if id in table then Renewed(table[id], current) else Unowned(id, current)
  }

  function PlannedEntry(table: TaskTable, id: ProcessId, current: TaskState, want: TaskState): TaskEntry {
    Retargeted(BaseEntry(table, id, current), current, want)
  }

  predicate Recorded(e: TaskEntry) { e.owned != {} || e.relinquished != {} }

  /** Everything `apply_tasks` writes into the journal passes the validator. */
  lemma PlannedEntryIsValid(asked: Asks, table: TaskTable, id: ProcessId, current: TaskState, want: TaskState)
    requires id in table ==> ValidEntry(id, table[id]) && FromAsked(asked, table[id])
    requires WellFormed(current) && WellFormed(want) && AskedWhole(asked, id, want)
    ensures FromAsked(asked, BaseEntry(table, id, current)) && FromAsked(asked, PlannedEntry(table, id, current, want))
    ensures ValidEntry(id, BaseEntry(table, id, current)) && ValidEntry(id, PlannedEntry(table, id, current, want))
    ensures Idle(BaseEntry(table, id, current))
    ensures WellFormed(PlannedEntry(table, id, current, want).desired)
  {
  }

  /** Bringing an entry up to date does not change what restoring would leave. */
  lemma RenewingKeepsOutcome(table: TaskTable, id: ProcessId, current: TaskState)
    requires id in table ==> Idle(table[id])
    ensures TaskOutcome(BaseEntry(table, id, current), current) == OutcomeIn(table, id, current)
  {
    SameFields(TaskOutcome(BaseEntry(table, id, current), current), OutcomeIn(table, id, current));
  }

  /** Announcing a request, and writing any part of it, keeps what restoring would leave. */
  lemma AnnouncingKeepsOutcome(table: TaskTable, id: ProcessId, current: TaskState, want: TaskState, now: TaskState)
    requires id in table ==> Idle(table[id])
    requires Between(current, PlannedEntry(table, id, current, want).desired, now)
    ensures TaskOutcome(PlannedEntry(table, id, current, want), now) == OutcomeIn(table, id, current)
    ensures !Recorded(PlannedEntry(table, id, current, want)) ==> now == OutcomeIn(table, id, current)
  {
    var e := PlannedEntry(table, id, current, want);
    RenewingKeepsOutcome(table, id, current);
    SameFields(TaskOutcome(e, now), TaskOutcome(BaseEntry(table, id, current), current));
    if !Recorded(e) {
      SameFields(now, TaskOutcome(e, now));
    }
  }

  /** Once the request is in place, so does the settled entry. */
  lemma SettlingKeepsOutcome(table: TaskTable, id: ProcessId, current: TaskState, want: TaskState)
    requires id in table ==> Idle(table[id])
    ensures
      var e := PlannedEntry(table, id, current, want);
      TaskOutcome(e.(applied := e.desired), e.desired) == OutcomeIn(table, id, current)
  {
    var e := PlannedEntry(table, id, current, want);
    AnnouncingKeepsOutcome(table, id, current, want, e.desired);
    SameFields(TaskOutcome(e.(applied := e.desired), e.desired), TaskOutcome(e, e.desired));
  }

  /** A request changes a field that is still owned but journaled away from its original. */
  predicate FieldAtRisk(table: TaskTable, id: ProcessId, before: TaskState, want: TaskState, f: Field) {
    && id in table && f in table[id].owned && Get(before, f) == Get(table[id].applied, f)
    && Get(want, f) != Get(before, f) && Get(before, f) != Get(table[id].original, f)
  }

  /**
   When a commit record reached the disk although its store reported failure, rolling the task back, completely or in
   part, keeps what restoring would leave in every field not at risk ...
   */
  lemma UndoneCommitKeepsField(table: TaskTable, id: ProcessId, before: TaskState, want: TaskState, now: TaskState, f: Field)
    requires id in table ==> ValidEntry(id, table[id]) && Idle(table[id])
    requires Between(before, PlannedEntry(table, id, before, want).desired, now) && !FieldAtRisk(table, id, before, want, f)
    ensures
      var e := PlannedEntry(table, id, before, want);
      && Get(TaskOutcome(e.(applied := e.desired), now), f) == Get(OutcomeIn(table, id, before), f)
      && (!Recorded(e) ==> Get(now, f) == Get(OutcomeIn(table, id, before), f))
  {
  }

  /** ... and a field at risk that was rolled back is left away from its original: the condition is exact. */
  lemma UndoneCommitLosesField(table: TaskTable, id: ProcessId, before: TaskState, want: TaskState, f: Field)
    requires id in table ==> ValidEntry(id, table[id]) && Idle(table[id])
    ensures
      var e := PlannedEntry(table, id, before, want);
      Get(TaskOutcome(e.(applied := e.desired), before), f) == Get(OutcomeIn(table, id, before), f) <==> !FieldAtRisk(table, id, before, want, f)
  {
  }

  /** Restoring may stop anywhere and be repeated. */
  lemma RestoringKeepsOutcome(e: TaskEntry, current: TaskState, now: TaskState)
    requires Between(current, TaskOutcome(e, current), now)
    ensures TaskOutcome(e, now) == TaskOutcome(e, current)
  {
    SameFields(TaskOutcome(e, now), TaskOutcome(e, current));
  }

  /** What `rollback_tasks` computes from an interrupted write is the state from before it. */
  lemma RollbackTarget(before: TaskState, desired: TaskState, current: TaskState)
    requires Between(before, desired, current)
    ensures
      var restorable := MatchingEither(Changed(before, desired), current, desired, before);
      && Copy(restorable, current, before) == before
      && (restorable == {} ==> current == before)
      && (forall actual :: Between(current, before, actual) && ValuesEqual(restorable, actual, before) ==> actual == before)
  {
    var restorable := MatchingEither(Changed(before, desired), current, desired, before);
    SameFields(Copy(restorable, current, before), before);
    forall actual | Between(current, before, actual) && ValuesEqual(restorable, actual, before) ensures actual == before {
      SameFields(actual, before);
    }
    if restorable == {} { SameFields(current, before); }
  }

  lemma RollbackStaysBetween(before: TaskState, desired: TaskState, current: TaskState, now: TaskState)
    requires Between(before, desired, current) && Between(current, before, now)
    ensures Between(before, desired, now)
  {
  }

  /** A restore whose changed fields read back as the original is complete. */
  lemma RestoreComplete(e: TaskEntry, current: TaskState, now: TaskState)
    requires Between(current, TaskOutcome(e, current), now)
    requires ValuesEqual(Changed(current, TaskOutcome(e, current)), now, e.original)
    ensures now == TaskOutcome(e, current)
  {
    SameFields(now, TaskOutcome(e, current));
  }

  // --------------------------------------------------------------- whole batches

  datatype TaskRequest = TaskRequest(identity: ProcessId, desired: TaskState)

  /** What one request found and wants, and the entries that follow from it. */
  datatype Plan = Plan(before: TaskState, want: TaskState, base: TaskEntry, planned: TaskEntry)

  type Plans = map<ProcessId, Plan>

  /** `PreparedTaskMutation`, with the identity it is stored under. */
  datatype PreparedTask = PreparedTask(identity: ProcessId, before: TaskState, desired: TaskState, changed: Mask, rollback: Option<TaskEntry>)

  /** Each plan's entries are the ones its request produces (folded). */
  ghost predicate PlansFor(table: TaskTable, plans: Plans) {
    forall z {:trigger UnfoldBatch(z)} :: UnfoldBatch(z) ==>
      forall id :: id in plans ==>
        && plans[id].base == BaseEntry(table, id, plans[id].before)
        && plans[id].planned == PlannedEntry(table, id, plans[id].before, plans[id].want)
  }

  ghost predicate Prepares(table: TaskTable, plans: Plans, m: PreparedTask) {
    && m.identity in plans && m.before == plans[m.identity].before && m.desired == plans[m.identity].planned.desired
    && m.changed == Changed(m.before, m.desired)
    && m.rollback == (if m.identity in table then Some(plans[m.identity].base) else None)
  }

  ghost predicate TaskListed(ps: seq<PreparedTask>, id: ProcessId) { exists i :: 0 <= i < |ps| && ps[i].identity == id }

  /** The outcome of the preparation loop (folded). */
  ghost predicate TasksPrepared(table: TaskTable, plans: Plans, ps: seq<PreparedTask>) {
    forall z {:trigger UnfoldBatch(z)} :: UnfoldBatch(z) ==>
      && (forall i :: 0 <= i < |ps| ==> Prepares(table, plans, ps[i]))
      && (forall i, j :: 0 <= i < j < |ps| ==> ps[i].identity != ps[j].identity)
      && (forall id :: id in plans ==> TaskListed(ps, id))
  }

  lemma TasksPreparedGrow(table: TaskTable, plans: Plans, ps: seq<PreparedTask>, m: PreparedTask, p: Plan)
    requires TasksPrepared(table, plans, ps) && m.identity !in plans && Prepares(table, map[m.identity := p], m)
    ensures TasksPrepared(table, plans[m.identity := p], ps + [m])
  {
    assert UnfoldBatch(true);
    var all, grown := ps + [m], plans[m.identity := p];
    forall i | 0 <= i < |all| ensures Prepares(table, grown, all[i]) && (i < |ps| ==> all[i].identity != m.identity) {
      if i < |ps| { assert Prepares(table, plans, ps[i]); }
    }
    forall id | id in grown ensures TaskListed(all, id) {
      if id in plans {
        var i :| 0 <= i < |ps| && ps[i].identity == id;
        assert all[i].identity == id;
      } else {
        assert all[|ps|].identity == id;
      }
    }
  }

  /** The table once the plans are announced. */
  ghost predicate TasksAnnounced(table: TaskTable, plans: Plans, now: TaskTable) {
    && (forall id :: id in plans ==> (id in now <==> Recorded(plans[id].planned)) && (id in now ==> now[id] == plans[id].planned))
    && (forall id :: id !in plans ==> (id in now <==> id in table) && (id in now ==> now[id] == table[id]))
  }

  /** Announcing one more plan. */
  lemma AnnounceTask(table: TaskTable, plans: Plans, now: TaskTable, id: ProcessId, p: Plan)
    requires TasksAnnounced(table, plans, now) && id !in plans
    ensures TasksAnnounced(table, plans[id := p], if Recorded(p.planned) then (now - {id})[id := p.planned] else now - {id})
  {
  }

  lemma PlansForGrow(table: TaskTable, plans: Plans, id: ProcessId, p: Plan)
    requires PlansFor(table, plans) && PlansFor(table, map[id := p])
    ensures PlansFor(table, plans[id := p])
  {
    assert UnfoldBatch(true);
    assert map[id := p][id] == p;
  }

  /** Of an announced table, the tasks in `done` settled. */
  ghost predicate TasksSettled(announced: TaskTable, done: set<ProcessId>, now: TaskTable) {
    && now.Keys == announced.Keys
    && (forall id :: id in now ==> now[id] == if id in done then announced[id].(applied := announced[id].desired) else announced[id])
  }

  /** The plans withdrawn: what was lost from outside stays relinquished. */
  ghost predicate TasksWithdrawn(table: TaskTable, plans: Plans, now: TaskTable) {
    && now.Keys == table.Keys
    && (forall id :: id in now ==> now[id] == if id in plans then plans[id].base else table[id])
  }

  /** Every live task the plans mention is where the plan found it. */
  ghost predicate PlansCurrent(plans: Plans, tasks: TaskStates) {
    forall id :: id in plans && id in tasks ==> tasks[id] == plans[id].before
  }

  ghost predicate IdleTable(table: TaskTable) { forall id :: id in table ==> Idle(table[id]) }

  /** An interrupted batch: some processes may have exited, and each planned field is old or new. */
  ghost predicate TasksMidway(plans: Plans, before: TaskStates, now: TaskStates) {
    && now.Keys <= before.Keys
    && (forall id :: id in now ==> if id in plans then Between(before[id], plans[id].planned.desired, now[id]) else now[id] == before[id])
  }

  /** The batch in place on the tasks in `done`, not begun on the others. */
  ghost predicate TasksWritten(plans: Plans, done: set<ProcessId>, before: TaskStates, now: TaskStates) {
    && now.Keys <= before.Keys
    && (forall id :: id in now ==> now[id] == if id in plans && id in done then plans[id].planned.desired else before[id])
  }

  /** Tasks that moved are among the first `j` attempts. */
  ghost predicate TasksAttempted(ps: seq<PreparedTask>, attempted: seq<nat>, j: nat, before: TaskStates, now: TaskStates) {
    && (forall a :: 0 <= a < |attempted| ==> attempted[a] < |ps|)
    && (forall id :: id in now && id in before && now[id] != before[id] ==> AttemptedTask(ps, attempted, j, id))
  }

  ghost predicate AttemptedTask(ps: seq<PreparedTask>, attempted: seq<nat>, j: nat, id: ProcessId) {
    exists a :: 0 <= a < j && a < |attempted| && attempted[a] < |ps| && ps[attempted[a]].identity == id
  }

  ghost predicate Survivors(before: TaskStates, now: TaskStates) {
    now.Keys <= before.Keys && forall id :: id in now ==> now[id] == before[id]
  }

  /** Only entries of planned tasks differ. */
  ghost predicate SameOutside(plans: Plans, before: TaskTable, now: TaskTable) {
    forall id :: id !in plans ==> (id in now <==> id in before) && (id in now ==> now[id] == before[id])
  }

  /** One field of one task. */
  datatype Slot = Slot(id: ProcessId, field: Field)

  /** Some processes may have exited; every field of the others outside `except` is as it was. */
  ghost predicate SurvivorsExcept(before: TaskStates, now: TaskStates, except: set<Slot>) {
    now.Keys <= before.Keys && forall id, f :: id in now && Slot(id, f) !in except ==> Get(now[id], f) == Get(before[id], f)
  }

  lemma SurvivorsWhole(before: TaskStates, now: TaskStates)
    ensures Survivors(before, now) <==> SurvivorsExcept(before, now, {})
    ensures Survivors(before, now) ==> forall except :: SurvivorsExcept(before, now, except)
  {
    if SurvivorsExcept(before, now, {}) {
      forall id | id in now ensures now[id] == before[id] { SameFields(now[id], before[id]); }
    }
  }

  /** Every slot the plans put at risk is excepted. */
  ghost predicate RisksExcepted(table: TaskTable, plans: Plans, except: set<Slot>) {
    forall id, f :: id in plans && FieldAtRisk(table, id, plans[id].before, plans[id].want, f) ==> Slot(id, f) in except
  }

  /** The write loop before mutation `k`. */
  ghost predicate WritingTasks(ps: seq<PreparedTask>, k: nat, plans: Plans, done: set<ProcessId>, before: TaskStates, now: TaskStates,
                               announced: TaskTable, table: TaskTable, attempted: seq<nat>) {
    forall z {:trigger UnfoldBatch(z)} :: UnfoldBatch(z) ==>
      && TasksWritten(plans, done, before, now) && TasksSettled(announced, done, table)
      && TasksAttempted(ps, attempted, |attempted|, before, now)
      && (forall i :: 0 <= i < |ps| ==> (ps[i].identity in done <==> i < k))
  }

  lemma WritingTasksStarts(ps: seq<PreparedTask>, plans: Plans, before: TaskStates, announced: TaskTable)
    ensures WritingTasks(ps, 0, plans, {}, before, before, announced, announced, [])
  {
  }

  lemma WrittenIsMidway(plans: Plans, done: set<ProcessId>, before: TaskStates, now: TaskStates)
    requires TasksWritten(plans, done, before, now)
    ensures TasksMidway(plans, before, now)
  {
  }

  lemma UnchangedPlan(table0: TaskTable, ps: seq<PreparedTask>, k: nat, plans: Plans)
    requires k < |ps| && TasksPrepared(table0, plans, ps) && PlansFor(table0, plans) && ps[k].changed == {}
    ensures ps[k].identity in plans && ps[k].before == ps[k].desired == plans[ps[k].identity].planned.desired == plans[ps[k].identity].planned.applied
    ensures plans[ps[k].identity].before == ps[k].before
    ensures forall i :: 0 <= i < |ps| && i != k ==> ps[i].identity != ps[k].identity
  {
    assert UnfoldBatch(true);
    assert Prepares(table0, plans, ps[k]);
    SameFields(ps[k].before, ps[k].desired);
  }

  /** An unchanged task is already settled. */
  lemma WritingTasksSkips(table0: TaskTable, ps: seq<PreparedTask>, k: nat, plans: Plans, done: set<ProcessId>, before: TaskStates, now: TaskStates,
                          announced: TaskTable, table: TaskTable, attempted: seq<nat>)
    requires k < |ps| && TasksPrepared(table0, plans, ps) && PlansFor(table0, plans) && PlansCurrent(plans, before)
    requires TasksAnnounced(table0, plans, announced)
    requires WritingTasks(ps, k, plans, done, before, now, announced, table, attempted) && ps[k].changed == {}
    ensures ps[k].identity in plans && ps[k].before == ps[k].desired == plans[ps[k].identity].planned.desired
    ensures WritingTasks(ps, k + 1, plans, done + {ps[k].identity}, before, now, announced, table, attempted)
  {
    UnchangedPlan(table0, ps, k, plans);
    SettledAlready(ps, k, plans, done, before, now, announced, table, attempted);
  }

  lemma SettledAlready(ps: seq<PreparedTask>, k: nat, plans: Plans, done: set<ProcessId>, before: TaskStates, now: TaskStates,
                       announced: TaskTable, table: TaskTable, attempted: seq<nat>)
    requires k < |ps| && ps[k].identity in plans && PlansCurrent(plans, before)
    requires var p := plans[ps[k].identity]; p.planned.applied == p.planned.desired == p.before
    requires forall i :: 0 <= i < |ps| && i != k ==> ps[i].identity != ps[k].identity
    requires ps[k].identity in announced ==> announced[ps[k].identity] == plans[ps[k].identity].planned
    requires WritingTasks(ps, k, plans, done, before, now, announced, table, attempted)
    ensures WritingTasks(ps, k + 1, plans, done + {ps[k].identity}, before, now, announced, table, attempted)
  {
    assert UnfoldBatch(true);
  }

  /** A written task settles its entry. */
  lemma WritingTasksSettles(table0: TaskTable, ps: seq<PreparedTask>, k: nat, plans: Plans, done: set<ProcessId>, before: TaskStates, now: TaskStates,
                            announced: TaskTable, table: TaskTable, attempted: seq<nat>, after: TaskStates)
    requires k < |ps| && TasksPrepared(table0, plans, ps)
    requires WritingTasks(ps, k, plans, done, before, now, announced, table, attempted)
    requires after.Keys <= now.Keys && forall id :: id in after ==> after[id] == if id == ps[k].identity then ps[k].desired else now[id]
    requires TasksAnnounced(table0, plans, announced)
    ensures
      var id := ps[k].identity;
      && id in plans && ps[k].desired == plans[id].planned.desired
      && (id in table ==> table[id].desired == ps[k].desired)
      && WritingTasks(ps, k + 1, plans, done + {id}, before, after, announced,
                      if id in table then table[id := table[id].(applied := ps[k].desired, desired := ps[k].desired)] else table,
                      attempted + [k])
  {
    assert UnfoldBatch(true);
    assert Prepares(table0, plans, ps[k]);
    AttemptAddsTask(ps, attempted, k, before, now, after);
  }

  lemma AttemptAddsTask(ps: seq<PreparedTask>, attempted: seq<nat>, k: nat, before: TaskStates, now: TaskStates, after: TaskStates)
    requires k < |ps| && TasksAttempted(ps, attempted, |attempted|, before, now)
    requires after.Keys <= now.Keys && forall id :: id in after && id != ps[k].identity ==> after[id] == now[id]
    ensures TasksAttempted(ps, attempted + [k], |attempted| + 1, before, after)
  {
    var more := attempted + [k];
    forall id | id in after && id in before && after[id] != before[id] ensures AttemptedTask(ps, more, |more|, id) {
      if id == ps[k].identity {
        assert more[|attempted|] == k;
      } else {
        var a :| 0 <= a < |attempted| && attempted[a] < |ps| && ps[attempted[a]].identity == id;
        assert more[a] == attempted[a];
      }
    }
  }

  /** Interrupting the write of mutation `k` leaves the batch midway. */
  lemma WritingTasksStops(table0: TaskTable, ps: seq<PreparedTask>, k: nat, plans: Plans, done: set<ProcessId>, before: TaskStates, now: TaskStates,
                          announced: TaskTable, table: TaskTable, attempted: seq<nat>, after: TaskStates, tried: bool)
    requires k < |ps| && TasksPrepared(table0, plans, ps)
    requires WritingTasks(ps, k, plans, done, before, now, announced, table, attempted)
    requires after.Keys <= now.Keys && forall id :: id in after && id != ps[k].identity ==> after[id] == now[id]
    requires ps[k].identity in after ==> Between(now[ps[k].identity], ps[k].desired, after[ps[k].identity])
    requires (tried || Survivors(now, after)) && done <= plans.Keys
    ensures ps[k].identity in plans && SameOutside(plans, announced, table)
    ensures
      var all := if tried then attempted + [k] else attempted;
      TasksMidway(plans, before, after) && TasksAttempted(ps, all, |all|, before, after)
  {
    assert UnfoldBatch(true);
    assert Prepares(table0, plans, ps[k]);
    AttemptAddsTask(ps, attempted, k, before, now, after);
  }

  lemma WritingTasksEnds(table0: TaskTable, ps: seq<PreparedTask>, plans: Plans, done: set<ProcessId>, before: TaskStates, now: TaskStates,
                         announced: TaskTable, table: TaskTable, attempted: seq<nat>)
    requires TasksPrepared(table0, plans, ps) && WritingTasks(ps, |ps|, plans, done, before, now, announced, table, attempted)
    requires TasksAnnounced(table0, plans, announced) && done <= plans.Keys
    ensures done == plans.Keys && TasksWritten(plans, plans.Keys, before, now) && TasksSettled(announced, plans.Keys, table)
    ensures TasksMidway(plans, before, now) && TasksAttempted(ps, attempted, |attempted|, before, now)
    ensures SameOutside(plans, announced, table)
  {
    assert UnfoldBatch(true);
    forall id | id in plans ensures id in done {
      assert TaskListed(ps, id);
      var i :| 0 <= i < |ps| && ps[i].identity == id;
    }
  }

  lemma NothingAttempted(ps: seq<PreparedTask>, attempted: seq<nat>, before: TaskStates, now: TaskStates)
    requires now.Keys <= before.Keys && TasksAttempted(ps, attempted, 0, before, now)
    ensures Survivors(before, now)
  {
    assert forall id :: !AttemptedTask(ps, attempted, 0, id);
  }

  /** Undoing attempt `j`. */
  lemma TaskUndone(ps: seq<PreparedTask>, attempted: seq<nat>, j: nat, before: TaskStates, now: TaskStates, after: TaskStates)
    requires j < |attempted| && TasksAttempted(ps, attempted, j + 1, before, now)
    requires after.Keys <= now.Keys && forall id :: id in after && id != ps[attempted[j]].identity ==> after[id] == now[id]
    requires ps[attempted[j]].identity in after ==> ps[attempted[j]].identity in before && after[ps[attempted[j]].identity] == before[ps[attempted[j]].identity]
    ensures TasksAttempted(ps, attempted, j, before, after)
  {
    forall id | id in after && id in before && after[id] != before[id] ensures AttemptedTask(ps, attempted, j, id) {
      var a :| 0 <= a < j + 1 && attempted[a] < |ps| && ps[attempted[a]].identity == id;
      assert a < j;
    }
  }

  lemma AnnouncedTasksKeepOutcome(table: TaskTable, plans: Plans, announced: TaskTable, before: TaskStates, now: TaskStates)
    requires IdleTable(table) && PlansCurrent(plans, before) && PlansFor(table, plans)
    requires TasksAnnounced(table, plans, announced) && TasksMidway(plans, before, now)
    ensures Survivors(RestoredTasks(table, before), RestoredTasks(announced, now))
  {
    assert UnfoldBatch(true);
    forall id | id in now ensures OutcomeIn(announced, id, now[id]) == OutcomeIn(table, id, before[id]) {
      if id in plans {
        AnnouncingKeepsOutcome(table, id, before[id], plans[id].want, now[id]);
      }
    }
  }

  lemma SettledTasksKeepOutcome(table: TaskTable, plans: Plans, announced: TaskTable, settled: TaskTable, before: TaskStates, now: TaskStates)
    requires IdleTable(table) && PlansCurrent(plans, before) && PlansFor(table, plans) && TasksAnnounced(table, plans, announced)
    requires TasksSettled(announced, plans.Keys, settled) && TasksWritten(plans, plans.Keys, before, now)
    ensures Survivors(RestoredTasks(table, before), RestoredTasks(settled, now)) && IdleTable(settled)
  {
    assert UnfoldBatch(true);
    forall id | id in now ensures OutcomeIn(settled, id, now[id]) == OutcomeIn(table, id, before[id]) {
      if id in plans {
        SettlingKeepsOutcome(table, id, before[id], plans[id].want);
        assert Between(before[id], plans[id].planned.desired, now[id]);
        AnnouncingKeepsOutcome(table, id, before[id], plans[id].want, now[id]);
      }
    }
  }

  /** With the commit record on disk and the batch rolled back, only slots at risk are lost. */
  lemma UndoneCommitKeepsTasks(table: TaskTable, plans: Plans, announced: TaskTable, settled: TaskTable, before: TaskStates, now: TaskStates, except: set<Slot>)
    requires IdleTable(table) && (forall id :: id in table ==> ValidEntry(id, table[id]))
    requires PlansCurrent(plans, before) && PlansFor(table, plans) && TasksAnnounced(table, plans, announced)
    requires TasksSettled(announced, plans.Keys, settled) && TasksMidway(plans, before, now) && RisksExcepted(table, plans, except)
    ensures SurvivorsExcept(RestoredTasks(table, before), RestoredTasks(settled, now), except)
  {
    forall id, f | id in now && Slot(id, f) !in except ensures Get(OutcomeIn(settled, id, now[id]), f) == Get(OutcomeIn(table, id, before[id]), f) {
      if id in plans {
        assert UnfoldBatch(true);
        UndoneCommitKeepsField(table, id, before[id], plans[id].want, now[id], f);
      }
    }
  }

  lemma WithdrawnTasksKeepOutcome(table: TaskTable, plans: Plans, withdrawn: TaskTable, before: TaskStates, now: TaskStates)
    requires IdleTable(table) && PlansCurrent(plans, before) && PlansFor(table, plans) && TasksWithdrawn(table, plans, withdrawn) && Survivors(before, now)
    ensures Survivors(RestoredTasks(table, before), RestoredTasks(withdrawn, now)) && IdleTable(withdrawn)
  {
    assert UnfoldBatch(true);
    forall id | id in now ensures OutcomeIn(withdrawn, id, now[id]) == OutcomeIn(table, id, before[id]) {
      if id in plans && id in table {
        RenewingKeepsOutcome(table, id, before[id]);
      }
    }
  }

  // ------------------------------------------------------------------ validity

  /** What holds of the tasks and the stored table at every kill point (folded). */
  ghost predicate TasksFit(asked: Asks, tasks: TaskStates, table: TaskTable) {
    forall z {:trigger Unfold(z)} :: Unfold(z) ==>
      (forall id :: id in tasks ==> WellFormed(tasks[id])) && (forall id :: id in table ==> ValidEntry(id, table[id]) && FromAsked(asked, table[id]))
  }

  /** A plan starts from a well-formed state and wants a well-formed one that was asked for. */
  ghost predicate PlansWellFormed(asked: Asks, plans: Plans) {
    forall id :: id in plans ==> WellFormed(plans[id].before) && WellFormed(plans[id].want) && AskedWhole(asked, id, plans[id].want)
  }

  lemma BetweenWellFormed(a: TaskState, b: TaskState, now: TaskState)
    requires WellFormed(a) && WellFormed(b) && Between(a, b, now)
    ensures WellFormed(now)
  {
    assert Get(now, Policy) == Get(a, Policy) || Get(now, Policy) == Get(b, Policy);
  }

  lemma MidwayFits(asked: Asks, table: TaskTable, plans: Plans, before: TaskStates, now: TaskStates, stored: TaskTable)
    requires TasksFit(asked, before, table) && TasksFit(asked, before, stored) && PlansWellFormed(asked, plans) && PlansFor(table, plans)
    requires TasksMidway(plans, before, now) && PlansCurrent(plans, before)
    ensures TasksFit(asked, now, table) && TasksFit(asked, now, stored)
  {
    assert Unfold(true) && UnfoldBatch(true);
    forall id | id in now ensures WellFormed(now[id]) {
      if id in plans {
        PlannedEntryIsValid(asked, table, id, before[id], plans[id].want);
        BetweenWellFormed(before[id], plans[id].planned.desired, now[id]);
      }
    }
  }

  lemma PlanIsValid(asked: Asks, tasks: TaskStates, table: TaskTable, plans: Plans, id: ProcessId)
    requires TasksFit(asked, tasks, table) && PlansWellFormed(asked, plans) && PlansFor(table, plans) && id in plans
    ensures ValidEntry(id, plans[id].planned) && FromAsked(asked, plans[id].planned)
    ensures id in table ==> ValidEntry(id, plans[id].base) && FromAsked(asked, plans[id].base)
  {
    assert Unfold(true) && UnfoldBatch(true);
    PlannedEntryIsValid(asked, table, id, plans[id].before, plans[id].want);
  }

  lemma AnnouncedFits(asked: Asks, tasks: TaskStates, table: TaskTable, plans: Plans, announced: TaskTable)
    requires TasksFit(asked, tasks, table) && PlansWellFormed(asked, plans) && PlansFor(table, plans) && TasksAnnounced(table, plans, announced)
    ensures TasksFit(asked, tasks, announced)
  {
    forall id | id in plans ensures ValidEntry(id, plans[id].planned) && FromAsked(asked, plans[id].planned) {
      PlanIsValid(asked, tasks, table, plans, id);
    }
    assert (forall id :: id in tasks ==> WellFormed(tasks[id])) && (forall id :: id in table ==> ValidEntry(id, table[id]) && FromAsked(asked, table[id]))
      by { assert Unfold(true); }
  }

  lemma SettledFits(asked: Asks, tasks: TaskStates, announced: TaskTable, done: set<ProcessId>, settled: TaskTable)
    requires TasksFit(asked, tasks, announced) && TasksSettled(announced, done, settled)
    ensures TasksFit(asked, tasks, settled)
  {
    assert Unfold(true);
  }

  lemma WithdrawnFits(asked: Asks, tasks: TaskStates, table: TaskTable, plans: Plans, withdrawn: TaskTable)
    requires TasksFit(asked, tasks, table) && PlansWellFormed(asked, plans) && PlansFor(table, plans) && TasksWithdrawn(table, plans, withdrawn)
    ensures TasksFit(asked, tasks, withdrawn)
  {
    forall id | id in plans && id in table ensures ValidEntry(id, plans[id].base) && FromAsked(asked, plans[id].base) {
      PlanIsValid(asked, tasks, table, plans, id);
    }
    assert (forall id :: id in tasks ==> WellFormed(tasks[id])) && (forall id :: id in table ==> ValidEntry(id, table[id]) && FromAsked(asked, table[id]))
      by { assert Unfold(true); }
  }

  /** A field is granted to a request unless it was lost to an outside writer earlier. */
  lemma GrantedFields(table: TaskTable, id: ProcessId, current: TaskState, want: TaskState, f: Field)
    requires id in table ==> ValidEntry(id, table[id])
    ensures
      var lost := id in table && (f in table[id].relinquished
                                  || (f in table[id].owned && Get(current, f) != Get(table[id].applied, f)));
      && Get(PlannedEntry(table, id, current, want).desired, f) == Get(if lost then current else want, f)
      && (f in PlannedEntry(table, id, current, want).relinquished <==> lost)
  {
  }

  // ------------------------------------------------------------------ restoring

  /** Some live tasks already carry their restored state, or part of it. */
  ghost predicate TasksRestoring(table: TaskTable, before: TaskStates, now: TaskStates) {
    && now.Keys <= before.Keys
    && (forall id :: id in now ==> Between(before[id], OutcomeIn(table, id, before[id]), now[id]))
  }

  lemma RestoringTasksKeepsOutcome(asked: Asks, table: TaskTable, before: TaskStates, now: TaskStates)
    requires TasksRestoring(table, before, now) && TasksFit(asked, before, table)
    ensures Survivors(RestoredTasks(table, before), RestoredTasks(table, now)) && TasksFit(asked, now, table)
  {
    assert Unfold(true);
    forall id | id in now ensures OutcomeIn(table, id, now[id]) == OutcomeIn(table, id, before[id]) && WellFormed(now[id]) {
      if id in table {
        RestoringKeepsOutcome(table[id], before[id], now[id]);
        CopyWellFormed(MatchingEither(table[id].owned, before[id], table[id].applied, table[id].desired), before[id], table[id].original);
        BetweenWellFormed(before[id], OutcomeIn(table, id, before[id]), now[id]);
      } else {
        BetweenSame(before[id], now[id]);
      }
    }
  }

  /** Dropping the entries of tasks that carry their restored state. */
  lemma ReleasingKeepsOutcome(asked: Asks, table: TaskTable, before: TaskStates, now: TaskStates, ids: set<ProcessId>)
    requires Survivors(RestoredTasks(table, before), RestoredTasks(table, now)) && TasksFit(asked, now, table)
    requires forall id :: id in now && id in table && id in ids ==> now[id] == OutcomeIn(table, id, now[id])
    ensures Survivors(RestoredTasks(table, before), RestoredTasks(table - ids, now)) && TasksFit(asked, now, table - ids)
  {
    assert Unfold(true);
  }

  ghost predicate EntryListed(list: seq<TaskEntry>, id: ProcessId) { exists i :: 0 <= i < |list| && list[i].identity == id }

  /** The listed entries come from the table. */
  ghost predicate TakenFromTable(table: TaskTable, list: seq<TaskEntry>) {
    forall i :: 0 <= i < |list| ==> list[i].identity in table && table[list[i].identity] == list[i]
  }

  /** Picking entries by identity takes exactly the journaled ones among them. */
  lemma TableEntriesCorrect(table: TaskTable, ids: seq<ProcessId>)
    requires forall id :: id in table ==> table[id].identity == id
    ensures TakenFromTable(table, Pick(table, ids))
    ensures forall id :: EntryListed(Pick(table, ids), id) <==> id in ids && id in table
  {
    var list := Pick(table, ids);
    PickCorrect(table, ids);
    forall i | 0 <= i < |list| ensures exists id :: id in ids && id in table && table[id] == list[i] { assert list[i] in list; }
    forall id | id in ids && id in table ensures EntryListed(list, id) {
      var i :| 0 <= i < |list| && list[i] == table[id];
    }
  }

  /** The restore loop before entry `k`. */
  ghost predicate RestoringList(table: TaskTable, list: seq<TaskEntry>, k: nat, before: TaskStates, now: TaskStates) {
    && TasksRestoring(table, before, now)
    && (forall id :: id in now && !EntryListed(list, id) ==> now[id] == before[id])
    && (forall i :: 0 <= i < k && i < |list| && list[i].identity in now ==>
          now[list[i].identity] == TaskOutcome(list[i], before[list[i].identity]))
  }

  lemma RestoringListStarts(table: TaskTable, list: seq<TaskEntry>, before: TaskStates)
    ensures RestoringList(table, list, 0, before, before)
  {
  }

  /** Restoring entry `k`, completely or in part, from wherever its task is. */
  lemma RestoringListStep(table: TaskTable, list: seq<TaskEntry>, k: nat, before: TaskStates, now: TaskStates, after: TaskStates, done: bool)
    requires k < |list| && TakenFromTable(table, list) && RestoringList(table, list, k, before, now)
    requires after.Keys <= now.Keys && forall id :: id in after && id != list[k].identity ==> after[id] == now[id]
    requires var id := list[k].identity; id in after ==>
               if done then after[id] == TaskOutcome(list[k], now[id]) else Between(now[id], TaskOutcome(list[k], now[id]), after[id])
    ensures RestoringList(table, list, if done then k + 1 else k, before, after)
  {
    var e := list[k];
    var id := e.identity;
    assert EntryListed(list, id);
    if id in after { RestoreOnce(e, before[id], now[id], after[id], done); }
    forall x | x in after ensures Between(before[x], OutcomeIn(table, x, before[x]), after[x]) {
      if x != id { assert after[x] == now[x]; }
    }
    forall i | 0 <= i < (if done then k + 1 else k) && list[i].identity in after
      ensures after[list[i].identity] == TaskOutcome(list[i], before[list[i].identity])
    {
      if i < k { assert now[list[i].identity] == TaskOutcome(list[i], before[list[i].identity]); }
    }
  }

  /** Restoring again from where an earlier, possibly interrupted, restore left the task. */
  lemma RestoreOnce(e: TaskEntry, before: TaskState, now: TaskState, after: TaskState, done: bool)
    requires Between(before, TaskOutcome(e, before), now)
    requires if done then after == TaskOutcome(e, now) else Between(now, TaskOutcome(e, now), after)
    ensures Between(before, TaskOutcome(e, before), after)
    ensures done || now == TaskOutcome(e, before) ==> after == TaskOutcome(e, before)
  {
    RestoringKeepsOutcome(e, before, now);
    if !done && now == TaskOutcome(e, before) { BetweenSame(now, after); }
  }

  // ------------------------------------------------------------------ claim times

  ghost predicate OwnsField(table: TaskTable, id: ProcessId, f: Field) { id in table && f in table[id].owned }

  /** Every owned field was owned with the same original, or is claimed by a plan from where the plan found it. */
  ghost predicate OwnedSince(table: TaskTable, plans: Plans, now: TaskTable) {
    forall id, f :: OwnsField(now, id, f) ==>
      || (OwnsField(table, id, f) && Get(now[id].original, f) == Get(table[id].original, f))
      || (!OwnsField(table, id, f) && id in plans && Get(now[id].original, f) == Get(plans[id].before, f))
  }

  /** An owned field of a planned entry keeps its original, or is new with the current value as its original. */
  lemma PlannedOriginals(table: TaskTable, id: ProcessId, current: TaskState, want: TaskState, f: Field)
    requires id in table ==> ValidEntry(id, table[id])
    ensures f in PlannedEntry(table, id, current, want).owned ==>
              Get(PlannedEntry(table, id, current, want).original, f) == if OwnsField(table, id, f) then Get(table[id].original, f) else Get(current, f)
    ensures f in BaseEntry(table, id, current).owned ==>
              OwnsField(table, id, f) && Get(BaseEntry(table, id, current).original, f) == Get(table[id].original, f)
  {
  }

  lemma AnnouncedSince(table: TaskTable, plans: Plans, announced: TaskTable, settled: TaskTable, done: set<ProcessId>)
    requires (forall id :: id in table ==> ValidEntry(id, table[id])) && PlansFor(table, plans)
    requires TasksAnnounced(table, plans, announced) && TasksSettled(announced, done, settled)
    ensures OwnedSince(table, plans, announced) && OwnedSince(table, plans, settled)
  {
    forall id, f | OwnsField(announced, id, f)
      ensures Get(announced[id].original, f) == (if OwnsField(table, id, f) then Get(table[id].original, f)
                                                 else if id in plans then Get(plans[id].before, f) else Get(announced[id].original, f))
      ensures OwnsField(table, id, f) || id in plans
    {
      if id in plans {
        assert UnfoldBatch(true);
        PlannedOriginals(table, id, plans[id].before, plans[id].want, f);
      }
    }
  }

  lemma WithdrawnSince(table: TaskTable, plans: Plans, withdrawn: TaskTable)
    requires (forall id :: id in table ==> ValidEntry(id, table[id])) && PlansFor(table, plans) && TasksWithdrawn(table, plans, withdrawn)
    ensures OwnedSince(table, plans, withdrawn)
  {
    forall id, f | OwnsField(withdrawn, id, f)
      ensures OwnsField(table, id, f) && Get(withdrawn[id].original, f) == Get(table[id].original, f)
    {
      if id in plans {
        assert UnfoldBatch(true);
        PlannedOriginals(table, id, plans[id].before, plans[id].want, f);
      }
    }
  }
}
