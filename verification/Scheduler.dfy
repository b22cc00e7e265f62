/**
 Scheduler policy: validation of task profiles, cgroup classes, process rules and CPU groups, resolution of the groups, and the
 decisions made at run time. Matchers are arbitrary predicates; text checks on names are left out.
 */
module Scheduler {
  import opened Common

  const MAX_FIFO_PRIORITY: nat := 50
  const MAX_TASK_PROFILES: nat := 256
  const MAX_CGROUP_CLASSES: nat := 256
  const MAX_FOCUS_PROTECTED: nat := 256
  const MAX_PROCESS_RULES: nat := 1024
  const MAX_THREAD_RULES_PER_PROCESS: nat := 256
  const MAX_TOTAL_THREAD_RULES: nat := 4096

  datatype SchedulingClass = Other | Batch | Idle | Fifo

  datatype Scene = BackgroundScene | ForegroundScene | IdleScene | TouchScene | BoostScene

  datatype TaskPlan = TaskPlan(
    affinity: Option<set<nat>>, nice: Option<int>, class_: Option<SchedulingClass>, priority: Option<nat>,
    clampMin: Option<nat>, clampMax: Option<nat>)

  datatype TaskProfile = TaskProfile(id: string, group: Option<string>, plan: TaskPlan, scenes: map<Scene, TaskPlan>)

  datatype Realtime = Realtime(enabled: bool, maxPriority: nat, housekeeping: set<nat>)

  datatype ProcessInfo = ProcessInfo(identity: nat, uid: nat)

  datatype ThreadRule = ThreadRule(selects: (ProcessInfo, ProcessInfo) -> bool, profile: string)

  datatype ProcessRule = ProcessRule(matches: ProcessInfo -> bool, profile: Option<string>, cgroup: Option<string>, threads: seq<ThreadRule>)

  /** Lease and debounce times in milliseconds, and the matchers of protected workloads. */
  datatype Focus = Focus(enabled: bool, profile: Option<string>, lease: nat, debounce: nat, protected: seq<ProcessInfo -> bool>)

  datatype CgroupClass = CgroupClass(id: string, group: Option<string>, allowed: set<nat>, weight: nat)

  datatype Config = Config(
    enabled: bool, profiles: seq<TaskProfile>, classes: seq<CgroupClass>, rules: seq<ProcessRule>, focus: Focus, realtime: Realtime)

  /** The device's CPUs and logical groups. */
  datatype Device = Device(cpus: set<nat>, groups: map<string, set<nat>>)

  // ------------------------------------------------------------------------- plans

  function OrElse<T>(a: Option<T>, b: Option<T>): Option<T> { if a.Some? then a else b }

  /** `merge_task_plan`. */
  function Merge(base: TaskPlan, patch: TaskPlan): TaskPlan {
    TaskPlan(OrElse(patch.affinity, base.affinity), OrElse(patch.nice, base.nice), OrElse(patch.class_, base.class_),
             OrElse(patch.priority, base.priority), OrElse(patch.clampMin, base.clampMin), OrElse(patch.clampMax, base.clampMax))
  }

  /** `effective_task_plan`. */
  function EffectivePlan(p: TaskProfile, scene: Scene): TaskPlan {
    if scene in p.scenes then Merge(p.plan, p.scenes[scene]) else p.plan
  }

  /** `validate_task_plan`. */
  predicate PlanValid(p: TaskPlan) {
    && (p.affinity.Some? ==> p.affinity.value != {})
    && (p.nice.Some? ==> -20 <= p.nice.value <= 19)
    && (p.priority.Some? ==> 1 <= p.priority.value <= MAX_FIFO_PRIORITY)
    && (p.clampMin.Some? ==> p.clampMin.value <= 1024)
    && (p.clampMax.Some? ==> p.clampMax.value <= 1024)
    && (p.clampMin.Some? && p.clampMax.Some? ==> p.clampMin.value <= p.clampMax.value)
  }

  /** `validate_effective_task_plan`. */
  predicate EffectiveValid(p: TaskPlan, hasGroup: bool, rt: Realtime) {
    && PlanValid(p)
    && (if p.class_ == Some(Fifo) then
          && rt.enabled
          && p.priority.Some? && p.priority.value <= rt.maxPriority
          && (p.affinity.Some? || hasGroup)
          && (p.affinity.Some? ==> p.affinity.value !! rt.housekeeping)
        else p.priority.None?)
  }

  predicate ProfileValid(p: TaskProfile, rt: Realtime) {
    && !(p.group.Some? && p.plan.affinity.Some?)
    && EffectiveValid(p.plan, p.group.Some?, rt)
    && (forall scene :: scene in p.scenes ==> PlanValid(p.scenes[scene]) && EffectiveValid(Merge(p.plan, p.scenes[scene]), p.group.Some?, rt))
  }

  /** Either a CPU group or CPUs, and a weight in range. */
  predicate ClassValid(c: CgroupClass) { (c.group.None? <==> c.allowed != {}) && 1 <= c.weight <= 10_000 }

  predicate KnownClass(config: Config, id: string) { exists i :: 0 <= i < |config.classes| && config.classes[i].id == id }

  predicate FocusValid(config: Config) {
    var focus := config.focus;
    && |focus.protected| <= MAX_FOCUS_PROTECTED
    && (focus.profile.Some? ==> KnownProfile(config, focus.profile.value)) && (focus.enabled ==> focus.profile.Some?)
    && 15_000 <= focus.lease <= 600_000 && focus.debounce <= 2_000 && focus.debounce < focus.lease
  }

  predicate KnownProfile(config: Config, id: string) { exists i :: 0 <= i < |config.profiles| && config.profiles[i].id == id }

  function ThreadCount(rules: seq<ProcessRule>): nat {
    if rules == [] then 0 else ThreadCount(rules[..|rules| - 1]) + |rules[|rules| - 1].threads|
  }

  predicate RuleValid(config: Config, r: ProcessRule) {
    && (r.profile.Some? ==> KnownProfile(config, r.profile.value))
    && (r.cgroup.Some? ==> KnownClass(config, r.cgroup.value))
    && |r.threads| <= MAX_THREAD_RULES_PER_PROCESS
    && (forall i :: 0 <= i < |r.threads| ==> KnownProfile(config, r.threads[i].profile))
  }

  /** What the policy-only validator accepts. */
  predicate PolicyValid(config: Config) {
    && (config.realtime.enabled ==> config.enabled && config.realtime.housekeeping != {})
    && 1 <= config.realtime.maxPriority <= MAX_FIFO_PRIORITY
    && |config.profiles| <= MAX_TASK_PROFILES && |config.rules| <= MAX_PROCESS_RULES
    && ThreadCount(config.rules) <= MAX_TOTAL_THREAD_RULES
    && (forall i :: 0 <= i < |config.profiles| ==> ProfileValid(config.profiles[i], config.realtime))
    && (forall i, j :: 0 <= i < j < |config.profiles| ==> config.profiles[i].id != config.profiles[j].id)
    && |config.classes| <= MAX_CGROUP_CLASSES
    && (forall i :: 0 <= i < |config.classes| ==> ClassValid(config.classes[i]))
    && (forall i, j :: 0 <= i < j < |config.classes| ==> config.classes[i].id != config.classes[j].id)
    && FocusValid(config)
    && (forall i :: 0 <= i < |config.rules| ==> RuleValid(config, config.rules[i]))
  }

  /** `validate_fifo_affinity_reference`. */
  predicate GroupSafe(p: TaskPlan, group: Option<set<nat>>, rt: Realtime) {
    p.class_ == Some(Fifo) && group.Some? ==> group.value !! rt.housekeeping
  }

  function GroupCpus(d: Device, p: TaskProfile): Option<set<nat>> {
    if p.group.Some? && p.group.value in d.groups then Some(d.groups[p.group.value]) else None
  }

  predicate ProfileReferencesValid(d: Device, p: TaskProfile, rt: Realtime) {
    && (p.group.Some? ==> p.group.value in d.groups)
    && (p.plan.affinity.Some? ==> p.plan.affinity.value <= d.cpus)
    && GroupSafe(p.plan, if p.plan.affinity.None? then GroupCpus(d, p) else None, rt)
    && (forall scene :: scene in p.scenes ==>
          && (p.scenes[scene].affinity.Some? ==> p.scenes[scene].affinity.value <= d.cpus)
          && GroupSafe(Merge(p.plan, p.scenes[scene]), if Merge(p.plan, p.scenes[scene]).affinity.None? then GroupCpus(d, p) else None, rt))
  }

  /** `validate_scheduler_references`. */
  predicate ReferencesValid(d: Device, config: Config) {
    && config.realtime.housekeeping <= d.cpus
    && (forall i :: 0 <= i < |config.profiles| ==> ProfileReferencesValid(d, config.profiles[i], config.realtime))
    && (forall i :: 0 <= i < |config.classes| ==> ClassReferencesValid(d, config.classes[i]))
  }

  predicate ClassReferencesValid(d: Device, c: CgroupClass) { (c.group.Some? ==> c.group.value in d.groups) && c.allowed <= d.cpus }

  predicate DeviceValid(d: Device) {
    forall g :: g in d.groups ==> d.groups[g] != {} && d.groups[g] <= d.cpus
  }

  // -------------------------------------------------------------------- validators

  /** Record an issue unless the condition holds. */
  function Check(issues: seq<string>, ok: bool, issue: string): (r: seq<string>)
    ensures r == [] <==> issues == [] && ok
  {
    if ok then issues else issues + [issue]
  }

  /** `validate_scheduler`: no issue is reported exactly for the valid policies, however long its lists are. */
  method ValidateScheduler(config: Config) returns (issues: seq<string>)
    ensures issues == [] <==> PolicyValid(config)
  {
    var rt := config.realtime;
    issues := Check([], !(rt.enabled && !config.enabled), "requires scheduler.enabled");
    issues := Check(issues, 1 <= rt.maxPriority <= MAX_FIFO_PRIORITY, "max_priority");
    issues := Check(issues, !(rt.enabled && rt.housekeeping == {}), "must reserve at least one CPU");
    issues := Check(issues, |config.profiles| <= MAX_TASK_PROFILES, "too many task profiles");
    issues := Check(issues, |config.rules| <= MAX_PROCESS_RULES, "too many process rules");
    issues := Check(issues, |config.classes| <= MAX_CGROUP_CLASSES, "too many cgroup classes");
    var ids, classes: set<string>;
    issues, ids := ValidateProfiles(config, issues);
    issues, classes := ValidateClasses(config, issues);
    issues := ValidateFocus(config.focus, ids, issues);
    issues := ValidateRules(config, ids, classes, issues);
    if |config.profiles| <= MAX_TASK_PROFILES && |config.classes| <= MAX_CGROUP_CLASSES {
      AllIdsCollected(config, ids, classes);
      RulesAgree(config, ids, classes);
    }
    assert |config.rules| <= MAX_PROCESS_RULES ==> config.rules[..Min(|config.rules|, MAX_PROCESS_RULES)] == config.rules;
  }

  /** `validate_focus`. */
  method ValidateFocus(focus: Focus, ids: set<string>, before: seq<string>) returns (issues: seq<string>)
    ensures issues == [] <==>
            && before == [] && |focus.protected| <= MAX_FOCUS_PROTECTED
            && (if focus.profile.Some? then focus.profile.value in ids else !focus.enabled)
            && 15_000 <= focus.lease <= 600_000 && focus.debounce <= 2_000
  {
    issues := Check(before, |focus.protected| <= MAX_FOCUS_PROTECTED, "too many protected workloads");
    issues := Check(issues, focus.profile.Some? ==> focus.profile.value in ids, "unknown focus profile");
    issues := Check(issues, focus.profile.None? ==> !focus.enabled, "focus profile required");
    issues := Check(issues, 15_000 <= focus.lease <= 600_000, "lease_ttl_ms");
    issues := Check(issues, focus.debounce <= 2_000, "debounce_ms");
    issues := Check(issues, focus.debounce < focus.lease, "debounce_ms shorter than lease_ttl_ms");
  }

  ghost predicate CollectedClasses(config: Config, ids: set<string>, n: nat) {
    n <= |config.classes| && forall id :: id in ids <==> exists i :: 0 <= i < n && config.classes[i].id == id
  }

  /** The class loop, over at most the allowed number of classes. */
  method ValidateClasses(config: Config, before: seq<string>) returns (issues: seq<string>, ids: set<string>)
    ensures CollectedClasses(config, ids, Min(|config.classes|, MAX_CGROUP_CLASSES))
    ensures issues == [] <==>
            && before == []
            && (forall i :: 0 <= i < |config.classes| && i < MAX_CGROUP_CLASSES ==> ClassValid(config.classes[i]))
            && (forall i, j :: 0 <= i < j < |config.classes| && j < MAX_CGROUP_CLASSES ==> config.classes[i].id != config.classes[j].id)
  {
    issues, ids := before, {};
    for k := 0 to Min(|config.classes|, MAX_CGROUP_CLASSES)
      invariant CollectedClasses(config, ids, k)
      invariant issues == [] <==>
                && before == []
                && (forall i :: 0 <= i < k ==> ClassValid(config.classes[i]))
                && (forall i, j :: 0 <= i < j < k ==> config.classes[i].id != config.classes[j].id)
    {
      var c := config.classes[k];
      issues := Check(issues, c.id !in ids, "duplicate cgroup class id");
      ids := ids + {c.id};
      issues := Check(issues, !(c.group.Some? && c.allowed != {}), "mutually exclusive");
      issues := Check(issues, !(c.group.None? && c.allowed == {}), "must contain at least one CPU");
      issues := Check(issues, 1 <= c.weight <= 10_000, "cpu_weight");
    }
  }

  lemma RulesAgree(config: Config, ids: set<string>, classes: set<string>)
    requires forall id :: id in ids <==> KnownProfile(config, id)
    requires forall id :: id in classes <==> KnownClass(config, id)
    ensures forall i :: 0 <= i < |config.rules| ==> (RuleChecked(config.rules[i], ids, classes) <==> RuleValid(config, config.rules[i]))
  {
  }

  /** The ids collected from the first `n` profiles. */
  ghost predicate CollectedIds(config: Config, ids: set<string>, n: nat) {
    n <= |config.profiles| && forall id :: id in ids <==> exists i :: 0 <= i < n && config.profiles[i].id == id
  }

  lemma AllIdsCollected(config: Config, ids: set<string>, classes: set<string>)
    requires CollectedIds(config, ids, |config.profiles|) && CollectedClasses(config, classes, |config.classes|)
    ensures forall id :: id in ids <==> KnownProfile(config, id)
    ensures forall id :: id in classes <==> KnownClass(config, id)
  {
  }

  /** The profile loop, over at most the allowed number of profiles. */
  method ValidateProfiles(config: Config, before: seq<string>) returns (issues: seq<string>, ids: set<string>)
    ensures CollectedIds(config, ids, Min(|config.profiles|, MAX_TASK_PROFILES))
    ensures issues == [] <==>
            && before == []
            && (forall i :: 0 <= i < |config.profiles| && i < MAX_TASK_PROFILES ==> ProfileValid(config.profiles[i], config.realtime))
            && (forall i, j :: 0 <= i < j < |config.profiles| && j < MAX_TASK_PROFILES ==> config.profiles[i].id != config.profiles[j].id)
  {
    issues, ids := before, {};
    for k := 0 to Min(|config.profiles|, MAX_TASK_PROFILES)
      invariant CollectedIds(config, ids, k)
      invariant issues == [] <==>
                && before == []
                && (forall i :: 0 <= i < k ==> ProfileValid(config.profiles[i], config.realtime))
                && (forall i, j :: 0 <= i < j < k ==> config.profiles[i].id != config.profiles[j].id)
    {
      var p := config.profiles[k];
      issues := Check(issues, p.id !in ids, "duplicate task profile id");
      ids := ids + {p.id};
      issues := ValidateProfile(p, config.realtime, issues);
    }
  }

  method ValidateProfile(p: TaskProfile, rt: Realtime, before: seq<string>) returns (issues: seq<string>)
    ensures issues == [] <==> before == [] && ProfileValid(p, rt)
  {
    issues := Check(before, !(p.group.Some? && p.plan.affinity.Some?), "mutually exclusive");
    issues := ValidateEffective(p.plan, p.group.Some?, rt, issues);
    var rest := p.scenes.Keys;
    while rest != {}
      invariant rest <= p.scenes.Keys
      invariant issues == [] <==>
                && before == [] && !(p.group.Some? && p.plan.affinity.Some?) && EffectiveValid(p.plan, p.group.Some?, rt)
                && (forall scene :: scene in p.scenes && scene !in rest ==>
                      PlanValid(p.scenes[scene]) && EffectiveValid(Merge(p.plan, p.scenes[scene]), p.group.Some?, rt))
      decreases rest
    {
      var scene :| scene in rest;
      issues := ValidatePlan(p.scenes[scene], issues);
      issues := ValidateEffective(Merge(p.plan, p.scenes[scene]), p.group.Some?, rt, issues);
      rest := rest - {scene};
    }
  }

  method ValidatePlan(p: TaskPlan, before: seq<string>) returns (issues: seq<string>)
    ensures issues == [] <==> before == [] && PlanValid(p)
  {
    issues := Check(before, !(p.affinity.Some? && p.affinity.value == {}), "affinity must not be empty");
    issues := Check(issues, p.nice.Some? ==> -20 <= p.nice.value <= 19, "nice");
    issues := Check(issues, p.priority.Some? ==> 1 <= p.priority.value <= MAX_FIFO_PRIORITY, "rt_priority");
    issues := Check(issues, p.clampMin.Some? ==> p.clampMin.value <= 1024, "uclamp_min");
    issues := Check(issues, p.clampMax.Some? ==> p.clampMax.value <= 1024, "uclamp_max");
    issues := Check(issues, p.clampMin.Some? && p.clampMax.Some? ==> p.clampMin.value <= p.clampMax.value, "uclamp order");
  }

  method ValidateEffective(p: TaskPlan, hasGroup: bool, rt: Realtime, before: seq<string>) returns (issues: seq<string>)
    ensures issues == [] <==> before == [] && EffectiveValid(p, hasGroup, rt)
  {
    issues := ValidatePlan(p, before);
    if p.class_ == Some(Fifo) {
      issues := Check(issues, rt.enabled, "fifo requires realtime");
      issues := Check(issues, p.priority.Some?, "rt_priority is required");
      issues := Check(issues, p.priority.Some? ==> p.priority.value <= rt.maxPriority, "rt_priority above max_priority");
      issues := Check(issues, p.affinity.Some? || hasGroup, "fifo requires an affinity");
      issues := Check(issues, p.affinity.Some? ==> p.affinity.value !! rt.housekeeping, "fifo affinity overlaps housekeeping");
    } else {
      issues := Check(issues, p.priority.None?, "rt_priority only for fifo");
    }
  }

  ghost predicate RuleChecked(r: ProcessRule, ids: set<string>, classes: set<string>) {
    && (r.profile.Some? ==> r.profile.value in ids)
    && (r.cgroup.Some? ==> r.cgroup.value in classes)
    && |r.threads| <= MAX_THREAD_RULES_PER_PROCESS
    && (forall i :: 0 <= i < |r.threads| ==> r.threads[i].profile in ids)
  }

  lemma {:induction false} ThreadCountGrows(rules: seq<ProcessRule>, k: nat)
    requires k < |rules|
    ensures ThreadCount(rules[..k + 1]) == ThreadCount(rules[..k]) + |rules[k].threads| <= ThreadCount(rules)
    decreases |rules| - k
  {
    assert rules[..k + 1][..k] == rules[..k] && rules[..k + 1][k] == rules[k];
    if k + 1 < |rules| {
      ThreadCountGrows(rules, k + 1);
    } else {
      assert rules[..k + 1] == rules;
    }
  }

  /** The rule loop; bounding the work it does never hides a broken reference of an otherwise clean policy. */
  method ValidateRules(config: Config, ids: set<string>, classes: set<string>, before: seq<string>) returns (issues: seq<string>)
    ensures issues == [] ==> before == [] && ThreadCount(config.rules[..Min(|config.rules|, MAX_PROCESS_RULES)]) <= MAX_TOTAL_THREAD_RULES
                             && forall i :: 0 <= i < |config.rules| && i < MAX_PROCESS_RULES ==> RuleChecked(config.rules[i], ids, classes)
    ensures (&& before == [] && |config.rules| <= MAX_PROCESS_RULES && ThreadCount(config.rules) <= MAX_TOTAL_THREAD_RULES
             && forall i :: 0 <= i < |config.rules| ==> RuleChecked(config.rules[i], ids, classes))
            ==> issues == []
  {
    var n := Min(|config.rules|, MAX_PROCESS_RULES);
    var rules := config.rules[..n];
    if n == |config.rules| { assert rules == config.rules; }
    issues := Check(before, ThreadCount(rules) <= MAX_TOTAL_THREAD_RULES, "too many thread rules");
    var validated := 0;
    for k := 0 to n
      invariant issues == [] ==> before == [] && ThreadCount(rules) <= MAX_TOTAL_THREAD_RULES && validated == ThreadCount(rules[..k])
      invariant issues == [] ==> forall i :: 0 <= i < k ==> RuleChecked(rules[i], ids, classes)
      invariant before == [] && ThreadCount(rules) <= MAX_TOTAL_THREAD_RULES && (forall i :: 0 <= i < n ==> RuleChecked(rules[i], ids, classes)) ==> issues == []
    {
      var r := rules[k];
      ThreadCountGrows(rules, k);
      issues := Check(issues, r.profile.Some? ==> r.profile.value in ids, "unknown task profile");
      issues := Check(issues, r.cgroup.Some? ==> r.cgroup.value in classes, "unknown cgroup class");
      issues := Check(issues, |r.threads| <= MAX_THREAD_RULES_PER_PROCESS, "too many thread rules in process rule");
      var remaining := if validated <= MAX_TOTAL_THREAD_RULES then MAX_TOTAL_THREAD_RULES - validated else 0;
      var limit := Min(MAX_THREAD_RULES_PER_PROCESS, remaining);
      issues := ValidateThreads(r.threads, ids, limit, issues);
      validated := validated + Min(|r.threads|, limit);
    }
  }

  method ValidateThreads(threads: seq<ThreadRule>, ids: set<string>, limit: nat, before: seq<string>) returns (issues: seq<string>)
    ensures issues == [] <==> before == [] && forall i :: 0 <= i < |threads| && i < limit ==> threads[i].profile in ids
  {
    issues := before;
    for k := 0 to Min(|threads|, limit)
      invariant issues == [] <==> before == [] && forall i :: 0 <= i < k ==> threads[i].profile in ids
    {
      issues := Check(issues, threads[k].profile in ids, "unknown task profile");
    }
  }

  // -------------------------------------------------------------------- resolution

  /** A plan with its profile's CPU group filled in where it names no affinity of its own. */
  function Resolved(p: TaskPlan, group: Option<set<nat>>): TaskPlan {
    if p.affinity.None? && group.Some? then p.(affinity := group) else p
  }

  function Materialized(d: Device, p: TaskProfile): TaskProfile {
    if p.group.Some? then p.(group := None, plan := p.plan.(affinity := GroupCpus(d, p))) else p
  }

  /** The CPUs a class allows. */
  function ClassCpus(d: Device, c: CgroupClass): set<nat> {
    if c.group.None? then c.allowed else if c.group.value in d.groups then d.groups[c.group.value] else {}
  }

  function MaterializedClass(d: Device, c: CgroupClass): CgroupClass { c.(group := None, allowed := ClassCpus(d, c)) }

  lemma ResolvedValid(p: TaskPlan, cpus: set<nat>, rt: Realtime)
    requires EffectiveValid(p, true, rt) && cpus != {} && (p.affinity.None? ==> GroupSafe(p, Some(cpus), rt))
    ensures EffectiveValid(Resolved(p, Some(cpus)), false, rt)
  {
  }

  lemma MergeResolved(base: TaskPlan, patch: TaskPlan, cpus: set<nat>)
    requires base.affinity.None?
    ensures Merge(base.(affinity := Some(cpus)), patch) == Resolved(Merge(base, patch), Some(cpus))
  {
  }

  /** Resolving the group of one profile keeps it valid, and resolves every effective plan the same way. */
  lemma MaterializedProfile(d: Device, p: TaskProfile, rt: Realtime)
    requires DeviceValid(d) && ProfileValid(p, rt) && ProfileReferencesValid(d, p, rt)
    ensures ProfileValid(Materialized(d, p), rt) && Materialized(d, p).group.None? && Materialized(d, p).id == p.id
    ensures forall scene :: EffectivePlan(Materialized(d, p), scene) == Resolved(EffectivePlan(p, scene), GroupCpus(d, p))
  {
    if p.group.Some? {
      var cpus := GroupCpus(d, p).value;
      ResolvedValid(p.plan, cpus, rt);
      forall scene | scene in p.scenes
        ensures Merge(p.plan.(affinity := Some(cpus)), p.scenes[scene]) == Resolved(Merge(p.plan, p.scenes[scene]), Some(cpus))
        ensures EffectiveValid(Merge(p.plan.(affinity := Some(cpus)), p.scenes[scene]), false, rt)
      {
        MergeResolved(p.plan, p.scenes[scene], cpus);
        ResolvedValid(Merge(p.plan, p.scenes[scene]), cpus, rt);
      }
    }
  }

  /** `materialize_cpu_groups`: validate, then resolve the group of each profile and class in place. */
  method Materialize(d: Device, config: Config) returns (r: Option<Config>)
    requires DeviceValid(d) && PolicyValid(config)
    ensures r.Some? <==> ReferencesValid(d, config)
    ensures r.Some? ==>
              && PolicyValid(r.value) && r.value == config.(profiles := r.value.profiles, classes := r.value.classes)
              && |r.value.profiles| == |config.profiles| && |r.value.classes| == |config.classes|
              && (forall i :: 0 <= i < |config.profiles| ==>
                    && r.value.profiles[i].group.None?
                    && forall scene :: EffectivePlan(r.value.profiles[i], scene)
                                       == Resolved(EffectivePlan(config.profiles[i], scene), GroupCpus(d, config.profiles[i])))
              && (forall i :: 0 <= i < |config.classes| ==>
                    && r.value.classes[i] == config.classes[i].(group := None, allowed := r.value.classes[i].allowed)
                    && r.value.classes[i].allowed == ClassCpus(d, config.classes[i]) != {} && r.value.classes[i].allowed <= d.cpus)
  {
    if !ReferencesValid(d, config) { return None; }
    var profiles := config.profiles;
    for k := 0 to |profiles|
      invariant |profiles| == |config.profiles|
      invariant forall i :: 0 <= i < |profiles| ==> profiles[i] == if i < k then Materialized(d, config.profiles[i]) else config.profiles[i]
    {
      var p := profiles[k];
      if p.group.Some? {
        profiles := profiles[k := p.(group := None, plan := p.plan.(affinity := GroupCpus(d, p)))];
      }
    }
    var classes := config.classes;
    for k := 0 to |classes|
      invariant |classes| == |config.classes|
      invariant forall i :: 0 <= i < |classes| ==> classes[i] == if i < k then MaterializedClass(d, config.classes[i]) else config.classes[i]
    {
      var c := classes[k];
      if c.group.Some? {
        classes := classes[k := c.(group := None, allowed := if c.group.value in d.groups then d.groups[c.group.value] else {})];
      }
    }
    var policy := config.(profiles := profiles, classes := classes);
    MaterializedPolicy(d, config, policy);
    r := Some(policy);
  }

  lemma MaterializedPolicy(d: Device, config: Config, policy: Config)
    requires DeviceValid(d) && PolicyValid(config) && ReferencesValid(d, config)
    requires policy == config.(profiles := policy.profiles, classes := policy.classes)
    requires |policy.profiles| == |config.profiles| && |policy.classes| == |config.classes|
    requires forall i :: 0 <= i < |config.profiles| ==> policy.profiles[i] == Materialized(d, config.profiles[i])
    requires forall i :: 0 <= i < |config.classes| ==> policy.classes[i] == MaterializedClass(d, config.classes[i])
    ensures PolicyValid(policy)
    ensures forall i :: 0 <= i < |config.classes| ==> policy.classes[i].allowed != {} && policy.classes[i].allowed <= d.cpus
    ensures forall i, scene :: 0 <= i < |config.profiles| ==>
              policy.profiles[i].group.None?
              && EffectivePlan(policy.profiles[i], scene) == Resolved(EffectivePlan(config.profiles[i], scene), GroupCpus(d, config.profiles[i]))
  {
    forall i | 0 <= i < |config.profiles|
      ensures ProfileValid(policy.profiles[i], config.realtime) && policy.profiles[i].id == config.profiles[i].id && policy.profiles[i].group.None?
      ensures forall scene :: EffectivePlan(policy.profiles[i], scene) == Resolved(EffectivePlan(config.profiles[i], scene), GroupCpus(d, config.profiles[i]))
    {
      MaterializedProfile(d, config.profiles[i], config.realtime);
    }
    forall id ensures KnownProfile(config, id) <==> KnownProfile(policy, id) {
      if KnownProfile(config, id) {
        var i :| 0 <= i < |config.profiles| && config.profiles[i].id == id;
        assert policy.profiles[i].id == id;
      }
    }
    forall i | 0 <= i < |config.classes|
      ensures ClassValid(policy.classes[i]) && policy.classes[i].id == config.classes[i].id
      ensures policy.classes[i].allowed != {} && policy.classes[i].allowed <= d.cpus
    {
      assert ClassValid(config.classes[i]) && ClassReferencesValid(d, config.classes[i]);
    }
    forall id | KnownClass(config, id) ensures KnownClass(policy, id) {
      var i :| 0 <= i < |config.classes| && config.classes[i].id == id;
      assert policy.classes[i].id == id;
    }
    forall i | 0 <= i < |policy.rules| ensures RuleValid(policy, policy.rules[i]) {
      assert RuleValid(config, config.rules[i]);
    }
  }

  // ---------------------------------------------------------------------- decisions

  datatype Decision = Decision(tasks: map<nat, TaskPlan>, cgroup: Option<string>)

  function FindProfile(profiles: seq<TaskProfile>, id: string): (r: Option<TaskProfile>)
    ensures r.Some? ==> r.value in profiles && r.value.id == id
    ensures r.None? ==> forall i :: 0 <= i < |profiles| ==> profiles[i].id != id
  {
    if profiles == [] then None else if profiles[0].id == id then Some(profiles[0]) else FindProfile(profiles[1..], id)
  }

  /** Every planned task gets the effective plan of some profile. */
  ghost predicate FromProfiles(config: Config, scene: Scene, tasks: map<nat, TaskPlan>) {
    forall t :: t in tasks ==> exists i :: 0 <= i < |config.profiles| && tasks[t] == EffectivePlan(config.profiles[i], scene)
  }

  function FirstSelector(rules: seq<ThreadRule>, workload: ProcessInfo, thread: ProcessInfo): (r: Option<ThreadRule>)
    ensures r.Some? ==> exists i :: 0 <= i < |rules| && rules[i] == r.value
  {
    if rules == [] then None else if rules[0].selects(workload, thread) then Some(rules[0])
    else
      var rest := FirstSelector(rules[1..], workload, thread);
      assert rest.Some? ==> exists i :: 0 <= i < |rules[1..]| && rules[1..][i] == rest.value && rules[i + 1] == rest.value;
      rest
  }

  /** The workload itself or another task of the same user. */
  predicate Eligible(workload: ProcessInfo, threads: seq<ProcessInfo>, x: ProcessInfo) {
    x == workload || (x in threads && x.uid == workload.uid && x.identity != workload.identity)
  }

  /** The profile a matching rule gives a task: its first selecting thread rule's, or for the workload the rule's own. */
  function RuleProfile(rule: ProcessRule, workload: ProcessInfo, x: ProcessInfo): Option<string> {
    var selected := FirstSelector(rule.threads, workload, x);
    if selected.Some? then Some(selected.value.profile) else if x == workload then rule.profile else None
  }

  /** The plan of the profile with this id. */
  ghost predicate PlanOf(config: Config, id: string, scene: Scene, plan: TaskPlan) {
    exists i :: 0 <= i < |config.profiles| && config.profiles[i].id == id && plan == EffectivePlan(config.profiles[i], scene)
  }

  ghost predicate PlannedBy(config: Config, rule: ProcessRule, workload: ProcessInfo, scene: Scene, x: ProcessInfo, plan: TaskPlan) {
    RuleProfile(rule, workload, x).Some? && PlanOf(config, RuleProfile(rule, workload, x).value, scene, plan)
  }

  /** Some eligible task of this identity is planned so. */
  ghost predicate Attributed(config: Config, rule: ProcessRule, workload: ProcessInfo, threads: seq<ProcessInfo>, scene: Scene, t: nat, plan: TaskPlan) {
    exists x :: Eligible(workload, threads, x) && x.identity == t && PlannedBy(config, rule, workload, scene, x, plan)
  }

  lemma AttributedGrows(config: Config, rule: ProcessRule, workload: ProcessInfo, threads: seq<ProcessInfo>, k: nat, scene: Scene, t: nat, plan: TaskPlan)
    requires k < |threads| && Attributed(config, rule, workload, threads[..k], scene, t, plan)
    ensures Attributed(config, rule, workload, threads[..k + 1], scene, t, plan)
  {
    var x :| Eligible(workload, threads[..k], x) && x.identity == t && PlannedBy(config, rule, workload, scene, x, plan);
    assert threads[..k + 1] == threads[..k] + [threads[k]];
    assert Eligible(workload, threads[..k + 1], x);
  }

  /** The decision a rule stands for: exactly the tasks it selects, each with the plan of the profile it selects. */
  ghost predicate RuleDecides(config: Config, rule: ProcessRule, workload: ProcessInfo, threads: seq<ProcessInfo>, scene: Scene, tasks: map<nat, TaskPlan>) {
    && (forall t :: t in tasks ==> Attributed(config, rule, workload, threads, scene, t, tasks[t]))
    && (forall x :: Eligible(workload, threads, x) && RuleProfile(rule, workload, x).Some? ==> x.identity in tasks)
  }

  /** The focused workload and its user's tasks all get the focus profile's plan. */
  ghost predicate FocusDecides(config: Config, workload: ProcessInfo, threads: seq<ProcessInfo>, scene: Scene, tasks: map<nat, TaskPlan>) {
    && config.focus.profile.Some?
    && (forall t :: t in tasks <==> t == workload.identity || exists i :: 0 <= i < |threads| && threads[i].identity == t && threads[i].uid == workload.uid)
    && (forall t :: t in tasks ==> PlanOf(config, config.focus.profile.value, scene, tasks[t]))
  }

  lemma PlansAreFromProfiles(config: Config, rule: ProcessRule, workload: ProcessInfo, threads: seq<ProcessInfo>, scene: Scene, tasks: map<nat, TaskPlan>)
    requires RuleDecides(config, rule, workload, threads, scene, tasks)
    ensures FromProfiles(config, scene, tasks)
  {
    forall t | t in tasks ensures exists i :: 0 <= i < |config.profiles| && tasks[t] == EffectivePlan(config.profiles[i], scene) {
      assert Attributed(config, rule, workload, threads, scene, t, tasks[t]);
    }
  }

  /** One more thread of the list, planned or not. */
  lemma RuleDecidesGrows(config: Config, rule: ProcessRule, workload: ProcessInfo, threads: seq<ProcessInfo>, k: nat, scene: Scene,
                         tasks: map<nat, TaskPlan>, plan: Option<TaskPlan>)
    requires k < |threads| && RuleDecides(config, rule, workload, threads[..k], scene, tasks)
    requires plan.Some? ==> Eligible(workload, threads, threads[k]) && PlannedBy(config, rule, workload, scene, threads[k], plan.value)
    requires plan.None? ==> threads[k].uid != workload.uid || threads[k].identity == workload.identity || RuleProfile(rule, workload, threads[k]).None?
    ensures RuleDecides(config, rule, workload, threads[..k + 1], scene, if plan.Some? then tasks[threads[k].identity := plan.value] else tasks)
  {
    var more, next := threads[..k + 1], if plan.Some? then tasks[threads[k].identity := plan.value] else tasks;
    assert more == threads[..k] + [threads[k]];
    forall t | t in next ensures Attributed(config, rule, workload, more, scene, t, next[t]) {
      if plan.Some? && t == threads[k].identity {
        assert Eligible(workload, more, threads[k]);
      } else {
        AttributedGrows(config, rule, workload, threads, k, scene, t, tasks[t]);
      }
    }
    forall x | Eligible(workload, more, x) && RuleProfile(rule, workload, x).Some? ensures x.identity in next {
      if x != threads[k] || x == workload { assert Eligible(workload, threads[..k], x); }
    }
  }

  /** `evaluate_scheduler`: the first matching rule decides, and without one a focused workload gets the focus default. */
  method Evaluate(config: Config, workload: ProcessInfo, threads: seq<ProcessInfo>, focused: bool, scene: Scene) returns (r: Option<Decision>)
    requires PolicyValid(config)
    ensures r.Some? && FromProfiles(config, scene, r.value.tasks)
    ensures !config.enabled ==> r.value == Decision(map[], None)
    ensures config.enabled && (forall i :: 0 <= i < |config.rules| ==> !config.rules[i].matches(workload)) ==>
              && r.value.cgroup == None
              && if focused && config.focus.enabled then FocusDecides(config, workload, threads, scene, r.value.tasks) else r.value.tasks == map[]
    ensures forall k :: config.enabled && 0 <= k < |config.rules| && config.rules[k].matches(workload)
                        && (forall i :: 0 <= i < k ==> !config.rules[i].matches(workload)) ==>
              RuleDecides(config, config.rules[k], workload, threads, scene, r.value.tasks) && r.value.cgroup == config.rules[k].cgroup
    ensures r.value.cgroup.Some? ==> KnownClass(config, r.value.cgroup.value)
  {
    if !config.enabled { return Some(Decision(map[], None)); }
    for k := 0 to |config.rules|
      invariant forall i :: 0 <= i < k ==> !config.rules[i].matches(workload)
    {
      if config.rules[k].matches(workload) {
        r := EvaluateRule(config, config.rules[k], workload, threads, scene);
        PlansAreFromProfiles(config, config.rules[k], workload, threads, scene, r.value.tasks);
        return;
      }
    }
    r := FocusDefault(config, workload, threads, focused, scene);
  }

  /** The effective plan of a profile looked up by id; a known id is always found. */
  method LookUp(config: Config, id: string, scene: Scene) returns (r: Option<TaskPlan>)
    ensures r.Some? <==> KnownProfile(config, id)
    ensures r.Some? ==> PlanOf(config, id, scene, r.value)
  {
    var profile := FindProfile(config.profiles, id);
    r := if profile.Some? then Some(EffectivePlan(profile.value, scene)) else None;
  }

  method EvaluateRule(config: Config, rule: ProcessRule, workload: ProcessInfo, threads: seq<ProcessInfo>, scene: Scene) returns (r: Option<Decision>)
    requires RuleValid(config, rule)
    ensures r.Some? && RuleDecides(config, rule, workload, threads, scene, r.value.tasks) && r.value.cgroup == rule.cgroup
  {
    var tasks: map<nat, TaskPlan> := map[];
    if rule.profile.Some? {
      var plan := LookUp(config, rule.profile.value, scene);
      if plan.None? { return None; }
      tasks := tasks[workload.identity := plan.value];
    }
    var leader := FirstSelector(rule.threads, workload, workload);
    if leader.Some? {
      var plan := LookUp(config, leader.value.profile, scene);
      if plan.None? { return None; }
      tasks := tasks[workload.identity := plan.value];
    }
    LeaderDecided(config, rule, workload, threads, scene, tasks);
    for k := 0 to |threads|
      invariant RuleDecides(config, rule, workload, threads[..k], scene, tasks)
    {
      var thread, plan := threads[k], None;
      if thread.uid == workload.uid && thread.identity != workload.identity {
        var selected := FirstSelector(rule.threads, workload, thread);
        if selected.Some? {
          plan := LookUp(config, selected.value.profile, scene);
          if plan.None? { return None; }
        }
      }
      RuleDecidesGrows(config, rule, workload, threads, k, scene, tasks, plan);
      if plan.Some? { tasks := tasks[thread.identity := plan.value]; }
    }
    assert threads[..|threads|] == threads;
    r := Some(Decision(tasks, rule.cgroup));
  }

  lemma LeaderDecided(config: Config, rule: ProcessRule, workload: ProcessInfo, threads: seq<ProcessInfo>, scene: Scene, tasks: map<nat, TaskPlan>)
    requires RuleProfile(rule, workload, workload).Some? <==> workload.identity in tasks
    requires forall t :: t in tasks ==> t == workload.identity && PlannedBy(config, rule, workload, scene, workload, tasks[t])
    ensures RuleDecides(config, rule, workload, threads[..0], scene, tasks)
  {
    assert Eligible(workload, threads[..0], workload);
  }

  /** `focus_default_decision`. */
  method FocusDefault(config: Config, workload: ProcessInfo, threads: seq<ProcessInfo>, focused: bool, scene: Scene) returns (r: Option<Decision>)
    requires PolicyValid(config)
    ensures r.Some? && FromProfiles(config, scene, r.value.tasks)
    ensures r.value.cgroup == None
    ensures if focused && config.focus.enabled then FocusDecides(config, workload, threads, scene, r.value.tasks) else r.value.tasks == map[]
  {
    if !focused || !config.focus.enabled || config.focus.profile.None? { return Some(Decision(map[], None)); }
    var found := LookUp(config, config.focus.profile.value, scene);
    if found.None? { return None; }
    var plan := found.value;
    var tasks: map<nat, TaskPlan> := map[workload.identity := plan];
    for k := 0 to |threads|
      invariant forall t :: t in tasks <==> t == workload.identity || exists i :: 0 <= i < k && threads[i].identity == t && threads[i].uid == workload.uid
      invariant forall t :: t in tasks ==> tasks[t] == plan
    {
      if threads[k].uid == workload.uid {
        tasks := tasks[threads[k].identity := plan];
      }
    }
    r := Some(Decision(tasks, None));
  }

  /** A FIFO plan is confined: priority in bounds, and some CPUs, none of them reserved for housekeeping. */
  predicate FifoSafe(p: TaskPlan, rt: Realtime) {
    p.class_ == Some(Fifo) ==>
      && rt.enabled && p.priority.Some? && 1 <= p.priority.value <= rt.maxPriority <= MAX_FIFO_PRIORITY
      && p.affinity.Some? && p.affinity.value != {} && p.affinity.value !! rt.housekeeping
  }

  lemma ResolvedProfilesAreSafe(config: Config, scene: Scene, tasks: map<nat, TaskPlan>)
    requires PolicyValid(config) && FromProfiles(config, scene, tasks)
    requires forall i :: 0 <= i < |config.profiles| ==> config.profiles[i].group.None?
    ensures forall t :: t in tasks ==> FifoSafe(tasks[t], config.realtime)
  {
    forall t | t in tasks ensures FifoSafe(tasks[t], config.realtime) {
      var i :| 0 <= i < |config.profiles| && tasks[t] == EffectivePlan(config.profiles[i], scene);
      assert ProfileValid(config.profiles[i], config.realtime);
    }
  }

  /**
   Static validation is sound for every decision at run time: for any device and policy that pass individual and
   cross-file validation, every FIFO plan any decision emits is confined, and any cgroup class it names is a class of
   the policy whose CPUs exist on the device.
   */
  method DecideSafely(d: Device, config: Config, workload: ProcessInfo, threads: seq<ProcessInfo>, focused: bool, scene: Scene)
    returns (decision: Option<Decision>)
    requires DeviceValid(d)
    ensures decision.Some? <==> PolicyValid(config) && ReferencesValid(d, config)
    ensures decision.Some? ==> forall t :: t in decision.value.tasks ==> FifoSafe(decision.value.tasks[t], config.realtime)
    ensures decision.Some? && decision.value.cgroup.Some? ==>
              exists i :: 0 <= i < |config.classes| && config.classes[i].id == decision.value.cgroup.value
                          && ClassCpus(d, config.classes[i]) != {} && ClassCpus(d, config.classes[i]) <= d.cpus
  {
    var issues := ValidateScheduler(config);
    if issues != [] { return None; }
    var policy := Materialize(d, config);
    if policy.None? { return None; }
    decision := Evaluate(policy.value, workload, threads, focused, scene);
    ResolvedProfilesAreSafe(policy.value, scene, decision.value.tasks);
    if decision.value.cgroup.Some? {
      var i :| 0 <= i < |policy.value.classes| && policy.value.classes[i].id == decision.value.cgroup.value;
      assert config.classes[i].id == decision.value.cgroup.value;
    }
  }
}
