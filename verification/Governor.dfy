/**
 One governor transition over all CPU clusters: demand, burst, package budget, ramp, dwell and efficiency ceiling, and
 the frequency windows that come out of it.
 */
module Governor {
  import opened Common
  import opened Frequency
  import opened EnergyModel
  import opened Bucket
  import opened BudgetPath
  import opened Efficiency

  /** `FrequencyPolicy`. */
  datatype Policy = Policy(hardware: Limits, floor: nat, reference: nat, efficientCap: nat, unit: nat, available: seq<nat>)

  /** `FrequencyPolicy::validate`. */
  predicate ValidPolicy(p: Policy) {
    && p.hardware.min <= p.hardware.max
    && p.hardware.min <= p.floor <= p.reference <= p.hardware.max && p.floor <= p.efficientCap <= p.hardware.max
    && MultipleOf(p.hardware.min, p.unit) && MultipleOf(p.hardware.max, p.unit) && MultipleOf(p.floor, p.unit)
    && MultipleOf(p.reference, p.unit) && MultipleOf(p.efficientCap, p.unit)
    && (forall i :: 0 <= i < |p.available| ==> MultipleOf(p.available[i], p.unit) && p.hardware.min <= p.available[i] <= p.hardware.max)
  }

  /** `CpuTargetPolicy`; the targets of a package are listed in the order of their ids. */
  datatype Target = Target(policy: Policy, model: Option<Model>, cores: nat)

  datatype Config = Config(predictThreshold: real, rampLatency: nat, residency: nat)

  datatype Observation = Observation(
    rawLoad: Option<real>, activeLoadSum: Option<real>, frequency: Option<nat>, administratorCap: Option<nat>, thermalCap: Option<nat>)

  datatype Input = Input(
    timestamp: nat, observations: seq<Observation>, config: Config, budget: Budget, margin: real, burst: real,
    limitEfficiency: bool, integrate: bool)

  datatype Demand = Demand(previousRaw: real, predicted: real)

  datatype TargetState = TargetState(demand: Demand, budgetCap: Option<nat>, lastLimits: Option<Limits>, lastChange: Option<nat>)

  datatype State = State(
    targets: seq<TargetState>, bucket: Balance, previousTimestamp: Option<nat>, rampElapsed: nat, cursor: Option<nat>, pathLength: nat)

  // -------------------------------------------------------------------- demand

  function Unit(x: real): (r: real)
    ensures 0.0 <= r <= 1.0
  {
    ClampReal(x, 0.0, 1.0)
  }

  function MinReal(a: real, b: real): real { if a <= b then a else b }

  function MaxReal(a: real, b: real): real { if a >= b then a else b }

  datatype DemandOutcome = DemandOutcome(next: Demand, selected: real, bypassed: bool)

  /** `DemandState::update_performance`. */
  function UpdateDemand(d: Demand, raw: real, previousFinal: real, maximum: real, threshold: real): (r: DemandOutcome)
    requires maximum > 0.0
    ensures 0.0 <= r.selected <= 1.0
  {
    var load := Unit(raw) * ClampReal(previousFinal, 0.0, maximum);
    var alpha := if load > d.predicted then 0.98 else 0.97;
    var predicted := alpha * d.predicted + (1.0 - alpha) * load;
    var bypassed := Unit(raw) - d.previousRaw > threshold;
    var selected := ClampReal(if bypassed && predicted > load then predicted else load, 0.0, maximum);
    DemandOutcome(Demand(Unit(raw), predicted), Unit(selected / maximum), bypassed)
  }

  /** The predicted performance moves from its old value towards the load without passing it; the selection lies in 0 to 1. */
  lemma PredictionFollowsLoad(d: Demand, raw: real, previousFinal: real, maximum: real, threshold: real)
    requires maximum > 0.0
    ensures
      var load := Unit(raw) * ClampReal(previousFinal, 0.0, maximum);
      var r := UpdateDemand(d, raw, previousFinal, maximum, threshold);
      && (load <= d.predicted ==> load <= r.next.predicted <= d.predicted)
      && (load >= d.predicted ==> d.predicted <= r.next.predicted <= load)
      && r.next.previousRaw == Unit(raw)
  {
  }

  /** A share of the residual headroom, limited by a growth factor and the maximum. */
  function DemandOf(s: real, maximum: real, share: real, growth: real): real {
    MinReal(MinReal(s + Share(maximum - s, share), Share(s, growth)), maximum)
  }

  function Share(x: real, k: real): real { x * k }

  /** `reference_normal_demand_performance`. */
  function NormalDemand(selected: real, maximum: real, margin: real): real
    requires maximum >= 0.0
  {
    var s, m := ClampReal(selected, 0.0, maximum), Unit(margin);
    DemandOf(s, maximum, m, MaxReal(8.0 * m, 1.1))
  }

  /** `reference_burst_demand_performance`. */
  function BurstDemand(selected: real, maximum: real, margin: real, burst: real): real
    requires maximum >= 0.0
  {
    var s, m, b := ClampReal(selected, 0.0, maximum), Unit(margin), Unit(burst);
    DemandOf(s, maximum, m + b, MaxReal(8.0 * (m + 4.0 * b), 1.1))
  }

  lemma HeadroomGrows(s: real, maximum: real, m: real, n: real, g: real, h: real)
    requires 0.0 <= s <= maximum && 0.0 <= m <= n && 1.0 <= g <= h
    ensures 0.0 <= Share(maximum - s, m) <= Share(maximum - s, n) && s <= Share(s, g) <= Share(s, h)
  {
    MulUp(0.0, m, maximum - s);
    MulUp(m, n, maximum - s);
    MulUp(1.0, g, s);
    MulUp(g, h, s);
  }

  lemma SmallestRises(s: real, a: real, b: real, c: real, d: real, maximum: real)
    requires s <= a <= c && s <= b <= d && s <= maximum
    ensures s <= MinReal(MinReal(a, b), maximum) <= MinReal(MinReal(c, d), maximum) <= maximum
  {
  }

  lemma DemandGrows(s: real, maximum: real, m: real, n: real, g: real, h: real)
    requires 0.0 <= s <= maximum && 0.0 <= m <= n && 1.0 <= g <= h
    ensures s <= DemandOf(s, maximum, m, g) <= DemandOf(s, maximum, n, h) <= maximum
  {
    HeadroomGrows(s, maximum, m, n, g, h);
    SmallestRises(s, s + Share(maximum - s, m), Share(s, g), s + Share(maximum - s, n), Share(s, h), maximum);
  }

  /** Demand never falls below the selected performance nor exceeds the maximum, and a burst only adds to it. */
  lemma DemandBounds(selected: real, maximum: real, margin: real, burst: real)
    requires maximum >= 0.0
    ensures
      var s := ClampReal(selected, 0.0, maximum);
      s <= NormalDemand(selected, maximum, margin) <= BurstDemand(selected, maximum, margin, burst) <= maximum
  {
    var s, m, b := ClampReal(selected, 0.0, maximum), Unit(margin), Unit(burst);
    DemandGrows(s, maximum, m, m + b, MaxReal(8.0 * m, 1.1), MaxReal(8.0 * (m + 4.0 * b), 1.1));
  }

  /** `reference_concurrency_scale`. */
  function ConcurrencyScale(cores: nat): real {
    if cores == 0 then 0.0 else (1.0 + 0.8 * (cores as real - 1.0)) / cores as real
  }

  // --------------------------------------------------------------- OPP selection

  /** `first_opp_meeting_performance`. */
  function FirstMeeting(control: seq<EnergyOpp>, performance: real): (r: EnergyOpp)
    requires control != []
    ensures r in control
  {
    if |control| == 1 || control[0].performance >= performance then control[0] else FirstMeeting(control[1..], performance)
  }

  /** The least control OPP that meets a demand, or the top one when none does. */
  ghost predicate LeastMeeting(control: seq<EnergyOpp>, performance: real, f: nat) {
    exists k :: 0 <= k < |control| && control[k].frequency == f
                && (control[k].performance >= performance || k == |control| - 1)
                && forall j :: 0 <= j < k ==> control[j].performance < performance
  }

  lemma {:induction false} FirstMeetingIsLeast(control: seq<EnergyOpp>, performance: real)
    requires control != []
    ensures LeastMeeting(control, performance, FirstMeeting(control, performance).frequency)
  {
    if |control| == 1 || control[0].performance >= performance {
      assert control[0].frequency == FirstMeeting(control, performance).frequency;
    } else {
      FirstMeetingIsLeast(control[1..], performance);
      var rest, f := control[1..], FirstMeeting(control, performance).frequency;
      var k :| 0 <= k < |rest| && rest[k].frequency == f && (rest[k].performance >= performance || k == |rest| - 1)
               && forall j :: 0 <= j < k ==> rest[j].performance < performance;
      forall j | 0 <= j < k + 1 ensures control[j].performance < performance {
        if j > 0 { assert control[j] == rest[j - 1]; }
      }
      assert control[k + 1] == rest[k];
    }
  }

  const EPSILON: real := 0.000000000000000220446049250313080847

  /** The last control OPP of a prefix at or below `limit` that is at most `sweet` or affordable at this progress. */
  function LastAffordable(control: seq<EnergyOpp>, limit: nat, sweet: nat, base: real, span: real, progress: real): (r: Option<EnergyOpp>)
    requires span > 0.0
    ensures r.Some? ==> r.value in control && r.value.frequency <= limit
  {
    if control == [] || control[0].frequency > limit then None
    else
      var later := LastAffordable(control[1..], limit, sweet, base, span, progress);
      if later.Some? then later
      else if Affordable(control[0], sweet, base, span, progress) then Some(control[0])
      else None
  }

  /** `ramp_limited_floor`. */
  function RampLimitedFloor(m: Model, requested: nat, cap: nat, progress: real): nat
    requires ValidModel(m)
  {
    assert Unfold(true);
    var base, span := RampBase(m), RampTop(m, cap).power - RampBase(m).power;
    if span <= EPSILON then Min(requested, cap)
    else
      var last := LastAffordable(m.control, Min(requested, cap), m.sweet, base.power, span, progress);
      if last.Some? then last.value.frequency else Min(base.frequency, cap)
  }

  /** The OPP the ramp starts from: the last control OPP at or below the sweet spot, or the first one. */
  function RampBase(m: Model): EnergyOpp
    requires m.control != []
  {
    var at := OppAtOrBelow(m.control, m.sweet);
    if at.Some? then at.value else m.control[0]
  }

  /** The OPP the ramp leads to: the last control OPP at or below the cap, or the last one. */
  function RampTop(m: Model, cap: nat): EnergyOpp
    requires m.control != []
  {
    var at := OppAtOrBelow(m.control, cap);
    if at.Some? then at.value else m.control[|m.control| - 1]
  }

  /** At or below the sweet spot, or within this progress of the power span. */
  predicate Affordable(o: EnergyOpp, sweet: nat, base: real, span: real, progress: real)
    requires span > 0.0
  {
    o.frequency <= sweet || (o.power - base) / span <= progress
  }

  /** `last` is the greatest affordable control OPP up to the limit. */
  ghost predicate GreatestAffordable(control: seq<EnergyOpp>, limit: nat, sweet: nat, base: real, span: real, progress: real, last: Option<EnergyOpp>)
    requires span > 0.0
  {
    && (last.Some? ==> last.value in control && last.value.frequency <= limit && Affordable(last.value, sweet, base, span, progress))
    && (forall i :: 0 <= i < |control| && control[i].frequency <= limit && Affordable(control[i], sweet, base, span, progress) ==>
          last.Some? && control[i].frequency <= last.value.frequency)
  }

  lemma {:induction false} LastAffordableIsGreatest(control: seq<EnergyOpp>, limit: nat, sweet: nat, base: real, span: real, progress: real)
    requires span > 0.0 && RisingTable(control)
    ensures GreatestAffordable(control, limit, sweet, base, span, progress, LastAffordable(control, limit, sweet, base, span, progress))
  {
    if control != [] {
      var rest := control[1..];
      LastAffordableIsGreatest(rest, limit, sweet, base, span, progress);
      forall i | 0 < i < |control| ensures control[i] == rest[i - 1] && control[0].frequency < control[i].frequency {}
      var later := LastAffordable(rest, limit, sweet, base, span, progress);
      if later.Some? {
        var j :| 0 <= j < |rest| && rest[j] == later.value;
        assert control[j + 1] == later.value;
      }
    }
  }

  /**
   The ramp: with no power span the request itself, else the greatest control OPP under request and cap that is at
   most the sweet spot or whose share of the span the progress has reached.
   */
  ghost predicate RampAllows(m: Model, requested: nat, cap: nat, progress: real, f: nat)
    requires m.control != []
  {
    var span := RampTop(m, cap).power - RampBase(m).power;
    if span <= EPSILON then f == Min(requested, cap)
    else exists last :: GreatestAffordable(m.control, Min(requested, cap), m.sweet, RampBase(m).power, span, progress, last)
                        && f == if last.Some? then last.value.frequency else Min(RampBase(m).frequency, cap)
  }

  lemma RampFollows(m: Model, requested: nat, cap: nat, progress: real)
    requires ValidModel(m) && m.control != []
    ensures RampAllows(m, requested, cap, progress, RampLimitedFloor(m, requested, cap, progress))
  {
    var base, span := RampBase(m), RampTop(m, cap).power - RampBase(m).power;
    if span > EPSILON {
      assert RisingTable(m.control) by { OppsAboveLowest(m); }
      LastAffordableIsGreatest(m.control, Min(requested, cap), m.sweet, base.power, span, progress);
      var last := LastAffordable(m.control, Min(requested, cap), m.sweet, base.power, span, progress);
      assert GreatestAffordable(m.control, Min(requested, cap), m.sweet, base.power, span, progress, last);
    }
  }

  /** Every OPP of a model, control or not, is at or above its lowest. */
  lemma OppsAboveLowest(m: Model)
    requires ValidModel(m)
    ensures m.control != [] && forall o :: o in m.opps || o in m.control ==> Lowest(m) <= o.frequency
    ensures RisingTable(m.control) && m.opps != []
  {
    assert Unfold(true);
  }

  lemma HasFrequencyAboveLowest(m: Model, f: nat)
    requires ValidModel(m) && HasFrequency(m.control, f)
    ensures Lowest(m) <= f
  {
    OppsAboveLowest(m);
    var i :| 0 <= i < |m.control| && m.control[i].frequency == f;
    assert m.control[i] in m.control;
  }

  /** The ramp never goes above what was requested or capped, nor below the lowest OPP. */
  lemma RampBounds(m: Model, requested: nat, cap: nat, progress: real)
    requires ValidModel(m) && Lowest(m) <= requested && Lowest(m) <= cap
    ensures Lowest(m) <= RampLimitedFloor(m, requested, cap, progress) <= cap
  {
    OppsAboveLowest(m);
  }

  // ----------------------------------------------------------------- preparation

  /** `PreparedTarget`. */
  datatype Prepared = Prepared(target: Target, model: Model, safetyCap: nat, demand: DemandOutcome, maximum: real, demanded: real, power: real)

  function MinOption(a: nat, b: Option<nat>): nat { if b.Some? then Min(a, b.value) else a }

  /** Hardware, administrator and thermal caps together. */
  function SafetyCap(t: Target, o: Observation): nat {
    MinOption(MinOption(t.policy.hardware.max, o.administratorCap), o.thermalCap)
  }

  /** The condition under which a target can be governed at all. */
  predicate Governable(t: Target, o: Observation) {
    ValidPolicy(t.policy) && t.model.Some? && OppAtOrBelow(t.model.value.opps, SafetyCap(t, o)).Some?
  }

  ghost predicate ModelsValid(targets: seq<Target>) {
    forall i :: 0 <= i < |targets| && targets[i].model.Some? ==> ValidModel(targets[i].model.value)
  }

  ghost predicate PreparedFor(t: Target, o: Observation, p: Prepared) {
    && p.target == t && t.model == Some(p.model) && p.safetyCap == SafetyCap(t, o) && p.maximum > 0.0
    && ValidModel(p.model) && Lowest(p.model) <= p.safetyCap
  }

  function RawLoad(o: Observation): real { Unit(if o.rawLoad.Some? then o.rawLoad.value else 0.0) }

  /** The performance of the fastest OPP under the safety cap. */
  function MaximumPerformance(t: Target, o: Observation): (m: real)
    requires Governable(t, o) && ValidModel(t.model.value)
    ensures m > 0.0
  {
    var top := OppAtOrBelow(t.model.value.opps, SafetyCap(t, o));
    PositivePerformance(t.model.value, top.value);
    top.value.performance
  }

  /** Load is scaled by the performance selected in the preceding cycle, at first the maximum. */
  function SelectedDemand(t: Target, o: Observation, s: TargetState, config: Config): DemandOutcome
    requires Governable(t, o) && ValidModel(t.model.value)
  {
    var maximum := MaximumPerformance(t, o);
    var last := if s.lastLimits.Some? then OppAtOrBelow(t.model.value.opps, s.lastLimits.value.min) else None;
    UpdateDemand(s.demand, RawLoad(o), MinReal(if last.Some? then last.value.performance else maximum, maximum), maximum, config.predictThreshold)
  }

  /** The performance a target demands, with the burst formula or the normal one. */
  function Demanded(t: Target, o: Observation, s: TargetState, input: Input, bursting: bool): real
    requires Governable(t, o) && ValidModel(t.model.value)
  {
    DemandFor(SelectedDemand(t, o, s, input.config).selected, MaximumPerformance(t, o), input, bursting)
  }

  function DemandFor(share: real, maximum: real, input: Input, bursting: bool): real
    requires maximum > 0.0
  {
    if bursting then BurstDemand(maximum * share, maximum, input.margin, input.burst) else NormalDemand(maximum * share, maximum, input.margin)
  }

  /** Busy cores at the power of the OPP they run at, scaled for concurrency; an unknown frequency is the last minimum. */
  function EstimatedPower(t: Target, o: Observation, s: TargetState): real {
    var frequency := if o.frequency.Some? then o.frequency.value
                     else if s.lastLimits.Some? then s.lastLimits.value.min else t.policy.floor;
    var active := if o.activeLoadSum.Some? then ClampReal(o.activeLoadSum.value, 0.0, t.cores as real) else RawLoad(o) * t.cores as real;
    var at := if t.model.Some? then OppAtOrBelow(t.model.value.opps, frequency) else None;
    if at.Some? then at.value.power * active * ConcurrencyScale(t.cores) else 0.0
  }

  /** The estimated power of the first `n` targets together. */
  function PackagePower(targets: seq<Target>, state: State, input: Input, n: nat): real
    requires n <= |targets| == |state.targets| == |input.observations|
  {
    if n == 0 then 0.0
    else PackagePower(targets, state, input, n - 1) + EstimatedPower(targets[n - 1], input.observations[n - 1], state.targets[n - 1])
  }

  method PrepareTarget(t: Target, o: Observation, s: TargetState, input: Input) returns (r: Result<Prepared>)
    requires t.model.Some? ==> ValidModel(t.model.value)
    ensures r.Ok? <==> Governable(t, o)
    ensures r.Ok? ==> Readied(t, o, s, input, r.value)
  {
    if !ValidPolicy(t.policy) { return Err("invalid frequency policy"); }
    if t.model.None? { return Err("missing energy model"); }
    var model := t.model.value;
    var cap := SafetyCap(t, o);
    var top := OppAtOrBelow(model.opps, cap);
    if top.None? { return Err("no OPP below safety cap"); }
    OppsAboveLowest(model);
    BypassMeansJump(t, o, s, input.config);
    r := Ok(Prepared(t, model, cap, SelectedDemand(t, o, s, input.config), MaximumPerformance(t, o), Demanded(t, o, s, input, false), EstimatedPower(t, o, s)));
  }

  lemma BypassMeansJump(t: Target, o: Observation, s: TargetState, config: Config)
    requires Governable(t, o) && ValidModel(t.model.value)
    ensures SelectedDemand(t, o, s, config).bypassed <==> Jumps(o, s, config)
  {
  }

  lemma PositivePerformance(m: Model, o: EnergyOpp)
    requires ValidModel(m) && o in m.opps
    ensures o.performance > 0.0
  {
    assert Unfold(true);
  }

  ghost predicate AllPrepared(targets: seq<Target>, input: Input, ps: seq<Prepared>) {
    |ps| == |targets| == |input.observations| && forall i :: 0 <= i < |ps| ==> PreparedFor(targets[i], input.observations[i], ps[i])
  }

  /** The demand is the one the observation, state and input call for (folded). */
  ghost predicate Demanding(t: Target, o: Observation, s: TargetState, input: Input, bursting: bool, p: Prepared) {
    forall z {:trigger Unfold(z)} :: Unfold(z) ==>
      && Governable(t, o) && ValidModel(t.model.value)
      && p.maximum == MaximumPerformance(t, o) && p.demand == SelectedDemand(t, o, s, input.config) && p.demanded == Demanded(t, o, s, input, bursting)
  }

  /** What preparing one target gives (folded). */
  ghost predicate Readied(t: Target, o: Observation, s: TargetState, input: Input, p: Prepared) {
    forall z {:trigger UnfoldBatch(z)} :: UnfoldBatch(z) ==>
      && Governable(t, o) && PreparedFor(t, o, p) && (p.demand.bypassed <==> Jumps(o, s, input.config))
      && Demanding(t, o, s, input, false, p) && p.power == EstimatedPower(t, o, s)
  }

  function TotalPower(ps: seq<Prepared>): real { if ps == [] then 0.0 else TotalPower(ps[..|ps| - 1]) + ps[|ps| - 1].power }

  lemma {:induction false} PowersAddUp(targets: seq<Target>, state: State, input: Input, ps: seq<Prepared>)
    requires |ps| <= |targets| == |state.targets| == |input.observations|
    requires forall i :: 0 <= i < |ps| ==> Readied(targets[i], input.observations[i], state.targets[i], input, ps[i])
    ensures TotalPower(ps) == PackagePower(targets, state, input, |ps|)
  {
    if ps != [] {
      var n := |ps| - 1;
      PowersAddUp(targets, state, input, ps[..n]);
      assert Readied(targets[n], input.observations[n], state.targets[n], input, ps[n]);
      assert UnfoldBatch(true);
    }
  }

  /** The preparation loop: every target, or the first error. */
  method PrepareAll(targets: seq<Target>, state: State, input: Input) returns (r: Result<seq<Prepared>>, power: real, bypass: bool)
    requires |state.targets| == |targets| == |input.observations| && ModelsValid(targets)
    ensures r.Ok? <==> forall i :: 0 <= i < |targets| ==> Governable(targets[i], input.observations[i])
    ensures r.Ok? ==> AllPrepared(targets, input, r.value) && (bypass <==> !NothingJumps(state, input))
    ensures r.Ok? ==> power == PackagePower(targets, state, input, |targets|)
    ensures r.Ok? ==> forall i :: 0 <= i < |targets| ==> Demanding(targets[i], input.observations[i], state.targets[i], input, false, r.value[i])
  {
    var ps: seq<Prepared> := [];
    power, bypass := 0.0, false;
    for k := 0 to |targets|
      invariant |ps| == k && forall i :: 0 <= i < k ==> Readied(targets[i], input.observations[i], state.targets[i], input, ps[i])
      invariant power == TotalPower(ps) && (bypass <==> exists i :: 0 <= i < k && ps[i].demand.bypassed)
    {
      var one := PrepareTarget(targets[k], input.observations[k], state.targets[k], input);
      if one.Err? { return Err(one.reason), power, bypass; }
      power, bypass := power + one.value.power, bypass || one.value.demand.bypassed;
      assert ps == (ps + [one.value])[..k];
      ps := ps + [one.value];
    }
    r := Ok(ps);
    PowersAddUp(targets, state, input, ps);
    AllReadied(targets, state, input, ps);
  }

  lemma AllReadied(targets: seq<Target>, state: State, input: Input, ps: seq<Prepared>)
    requires |ps| == |targets| == |state.targets| == |input.observations|
    requires forall i :: 0 <= i < |ps| ==> Readied(targets[i], input.observations[i], state.targets[i], input, ps[i])
    ensures AllPrepared(targets, input, ps) && ((exists i :: 0 <= i < |ps| && ps[i].demand.bypassed) <==> !NothingJumps(state, input))
    ensures forall i :: 0 <= i < |ps| ==> Governable(targets[i], input.observations[i])
    ensures forall i :: 0 <= i < |ps| ==> Demanding(targets[i], input.observations[i], state.targets[i], input, false, ps[i])
  {
    assert UnfoldBatch(true);
    forall i | 0 <= i < |ps|
      ensures Governable(targets[i], input.observations[i]) && PreparedFor(targets[i], input.observations[i], ps[i])
      ensures Demanding(targets[i], input.observations[i], state.targets[i], input, false, ps[i])
      ensures ps[i].demand.bypassed <==> Jumps(input.observations[i], state.targets[i], input.config)
    {
      assert Readied(targets[i], input.observations[i], state.targets[i], input, ps[i]);
    }
  }

  function ModelsOf(ps: seq<Prepared>): seq<Model> { seq(|ps|, i requires 0 <= i < |ps| => ps[i].model) }

  function CapsOf(ps: seq<Prepared>): seq<nat> { seq(|ps|, i requires 0 <= i < |ps| => ps[i].safetyCap) }

  function ClustersOf(ps: seq<Prepared>): seq<Cluster> { seq(|ps|, i requires 0 <= i < |ps| => Cluster(ps[i].model, ps[i].target.cores)) }

  /** During a burst every cluster but the slowest demands the burst performance instead. */
  method ApplyBurst(targets: seq<Target>, state: State, input: Input, ps: seq<Prepared>) returns (qs: seq<Prepared>)
    requires AllPrepared(targets, input, ps) && HasModels(targets) && |state.targets| == |ps|
    requires forall i :: 0 <= i < |ps| ==> Demanding(targets[i], input.observations[i], state.targets[i], input, false, ps[i])
    ensures AllPrepared(targets, input, qs) && ModelsOf(qs) == ModelsOf(ps) && ClustersOf(qs) == ClustersOf(ps)
    ensures forall i :: 0 <= i < |ps| ==> Demanding(targets[i], input.observations[i], state.targets[i], input, Bursting(targets, input, i), qs[i])
    ensures input.burst <= 0.0 ==> qs == ps
    ensures input.burst > 0.0 ==> forall i :: 0 <= i < |ps| ==>
              qs[i].demanded == if Slowest(Speeds(ModelsOf(ps)), i) then ps[i].demanded else BurstDemanded(ps[i], input)
  {
    qs := ps;
    if input.burst > 0.0 {
      var order := SortByPerformance(Speeds(ModelsOf(ps)));
      SortedDistinct(Speeds(ModelsOf(ps)), order);
      var k := 1;
      while k < |order|
        invariant 1 <= k && |qs| == |ps| && forall i :: 0 <= i < |ps| ==> qs[i] == ps[i].(demanded := qs[i].demanded)
        invariant forall j :: 0 <= j < |order| ==> qs[order[j]].demanded == if 0 < j < k then BurstDemanded(ps[order[j]], input) else ps[order[j]].demanded
      {
        qs := qs[order[k] := qs[order[k]].(demanded := BurstDemanded(ps[order[k]], input))];
        k := k + 1;
      }
      forall i | 0 <= i < |ps| ensures qs[i].demanded == if Slowest(Speeds(ModelsOf(ps)), i) then ps[i].demanded else BurstDemanded(ps[i], input) {
        assert i in order;
        var j :| 0 <= j < |order| && order[j] == i;
        SlowestIsFirst(Speeds(ModelsOf(ps)), order, j);
      }
    }
    assert ModelsOf(ps) == TargetModels(targets);
    forall i | 0 <= i < |ps| ensures Demanding(targets[i], input.observations[i], state.targets[i], input, Bursting(targets, input, i), qs[i]) {
      assert Demanding(targets[i], input.observations[i], state.targets[i], input, false, ps[i]);
      BurstReplacesDemand(targets[i], input.observations[i], state.targets[i], input, ps[i], qs[i], Bursting(targets, input, i));
    }
  }

  lemma BurstReplacesDemand(t: Target, o: Observation, s: TargetState, input: Input, p: Prepared, q: Prepared, bursting: bool)
    requires p.maximum > 0.0 && Demanding(t, o, s, input, false, p)
    requires q == if bursting then p.(demanded := BurstDemanded(p, input)) else p
    ensures Demanding(t, o, s, input, bursting, q)
  {
    assert Unfold(true);
  }

  /** No cluster comes before this one in performance order. */
  predicate Slowest(speeds: seq<real>, i: nat)
    requires i < |speeds|
  {
    forall j :: 0 <= j < |speeds| ==> !Slower(speeds, j, i)
  }

  lemma SlowestIsFirst(speeds: seq<real>, order: seq<nat>, j: nat)
    requires Sorted(speeds, order) && j < |order| == |speeds| && forall i: nat :: i < |speeds| ==> i in order
    ensures Slowest(speeds, order[j]) <==> j == 0
  {
    if j == 0 {
      forall i | 0 <= i < |speeds| ensures !Slower(speeds, i, order[0]) {
        assert i in order;
        var k :| 0 <= k < |order| && order[k] == i;
        assert k > 0 ==> Slower(speeds, order[0], order[k]);
      }
    } else {
      assert Slower(speeds, order[0], order[j]);
    }
  }

  function BurstDemanded(p: Prepared, input: Input): real
    requires p.maximum > 0.0
  {
    DemandFor(p.demand.selected, p.maximum, input, true)
  }

  // --------------------------------------------------------------------- planning

  /** The cap in force, and the least OPP meeting the demand under it. */
  ghost predicate Budgeted(p: Prepared, burst: bool, cap: Option<nat>, plan: Plan) {
    && plan.cap == (if burst then p.safetyCap else MinOption(p.safetyCap, cap))
    && (exists f :: LeastMeeting(p.model.control, p.demanded, f) && plan.floor == Min(f, plan.cap))
  }

  /** The demanded OPP under the feedback cap; a burst lifts the feedback cap but not the safety cap. */
  method BudgetPlans(targets: seq<Target>, input: Input, ps: seq<Prepared>, caps: seq<Option<nat>>) returns (plans: seq<Plan>)
    requires AllPrepared(targets, input, ps) && |caps| == |ps|
    requires forall c :: 0 <= c < |ps| && caps[c].Some? ==> HasFrequency(ps[c].model.control, caps[c].value)
    ensures PlansSafe(ModelsOf(ps), CapsOf(ps), plans)
    ensures forall i :: 0 <= i < |ps| ==> Budgeted(ps[i], input.burst > 0.0, caps[i], plans[i])
  {
    plans := [];
    for k := 0 to |ps|
      invariant |plans| == k && forall i :: 0 <= i < k ==> Lowest(ps[i].model) <= plans[i].floor <= plans[i].cap <= ps[i].safetyCap
      invariant forall i :: 0 <= i < k ==> Budgeted(ps[i], input.burst > 0.0, caps[i], plans[i])
    {
      assert PreparedFor(targets[k], input.observations[k], ps[k]);
      var plan := BudgetPlan(ps[k], input.burst > 0.0, caps[k]);
      plans := plans + [plan];
    }
  }

  method BudgetPlan(p: Prepared, burst: bool, feedback: Option<nat>) returns (plan: Plan)
    requires ValidModel(p.model) && Lowest(p.model) <= p.safetyCap
    requires feedback.Some? ==> HasFrequency(p.model.control, feedback.value)
    ensures Lowest(p.model) <= plan.floor <= plan.cap <= p.safetyCap && Budgeted(p, burst, feedback, plan)
  {
    OppsAboveLowest(p.model);
    if feedback.Some? { HasFrequencyAboveLowest(p.model, feedback.value); }
    FirstMeetingIsLeast(p.model.control, p.demanded);
    var floor := FirstMeeting(p.model.control, p.demanded).frequency;
    var cap := if burst then p.safetyCap else MinOption(p.safetyCap, feedback);
    plan := Plan(Min(floor, cap), cap);
  }

  /** Whether some cluster wants to rise above its sweet spot. */
  predicate HighCostIncrease(ps: seq<Prepared>, plans: seq<Plan>, states: seq<TargetState>)
    requires |ps| == |plans| == |states|
  {
    exists i :: 0 <= i < |ps| && plans[i].floor > ps[i].model.sweet
                && plans[i].floor > if states[i].lastLimits.Some? then states[i].lastLimits.value.min else ps[i].target.policy.floor
  }

  function Elapsed(now: nat, earlier: nat): nat { if now >= earlier then now - earlier else 0 }

  /** The last window changed less than the residency ago. */
  predicate Dwelling(s: TargetState, input: Input) {
    s.lastLimits.Some? && s.lastChange.Some? && Elapsed(input.timestamp, s.lastChange.value) < input.config.residency
  }

  /**
   The floor after ramp and dwell: a bypass changes nothing; within the residency it does not rise; otherwise nothing
   is delayed up to the sweet spot, and above it the ramp decides.
   */
  ghost predicate Ramped(p: Prepared, plan: Plan, s: TargetState, input: Input, bypassRamp: bool, progress: real, selected: Plan) {
    && p.model.control != [] && selected.cap == plan.cap
    && (bypassRamp ==> selected == plan)
    && (!bypassRamp && Dwelling(s, input) && plan.cap >= s.lastLimits.value.max ==> selected.floor <= s.lastLimits.value.min)
    && (!Dwelling(s, input) && plan.floor <= p.model.sweet ==> selected == plan)
    && (!bypassRamp && !Dwelling(s, input) && plan.floor > p.model.sweet ==> RampAllows(p.model, plan.floor, plan.cap, progress, selected.floor))
  }

  /** Ramp and dwell for one target. */
  method SelectPlan(p: Prepared, plan: Plan, s: TargetState, input: Input, bypassRamp: bool, progress: real) returns (selected: Plan)
    requires ValidModel(p.model) && Lowest(p.model) <= plan.floor <= plan.cap
    requires s.lastLimits.Some? ==> Lowest(p.model) <= s.lastLimits.value.min
    ensures Lowest(p.model) <= selected.floor <= selected.cap == plan.cap
    ensures Ramped(p, plan, s, input, bypassRamp, progress, selected)
  {
    var floor := plan.floor;
    OppsAboveLowest(p.model);
    if !bypassRamp && plan.floor > p.model.sweet {
      RampFollows(p.model, plan.floor, plan.cap, progress);
      RampBounds(p.model, plan.floor, plan.cap, progress);
      floor := RampLimitedFloor(p.model, plan.floor, plan.cap, progress);
    }
    var safetyReduction := s.lastLimits.Some? && plan.cap < s.lastLimits.value.max;
    var dwellActive := s.lastChange.Some? && Elapsed(input.timestamp, s.lastChange.value) < input.config.residency;
    var upward := s.lastLimits.Some? && floor > s.lastLimits.value.min;
    if dwellActive && upward && !safetyReduction && !bypassRamp {
      floor := Min(s.lastLimits.value.min, plan.cap);
    }
    selected := Plan(Min(floor, plan.cap), plan.cap);
  }

  method SelectPlans(ps: seq<Prepared>, plans: seq<Plan>, states: seq<TargetState>, input: Input, bypassRamp: bool, progress: real)
    returns (selected: seq<Plan>)
    requires PlansSafe(ModelsOf(ps), CapsOf(ps), plans) && |states| == |ps| && LastLimitsOk(ModelsOf(ps), states)
    ensures PlansSafe(ModelsOf(ps), CapsOf(ps), selected)
    ensures forall i :: 0 <= i < |ps| ==> Ramped(ps[i], plans[i], states[i], input, bypassRamp, progress, selected[i])
  {
    selected := [];
    for k := 0 to |ps|
      invariant forall i :: 0 <= i < k && i < |selected| ==> Ramped(ps[i], plans[i], states[i], input, bypassRamp, progress, selected[i])
      invariant |selected| == k && forall i :: 0 <= i < k ==> Lowest(ps[i].model) <= selected[i].floor <= selected[i].cap <= ps[i].safetyCap
    {
      assert ModelsOf(ps)[k] == ps[k].model && CapsOf(ps)[k] == ps[k].safetyCap;
      var one := SelectPlan(ps[k], plans[k], states[k], input, bypassRamp, progress);
      selected := selected + [one];
    }
    forall i | 0 <= i < |ps| ensures ValidModel(ModelsOf(ps)[i]) {}
  }

  /** The windows of the preceding cycle start at or above the lowest OPP. */
  ghost predicate LastLimitsOk(models: seq<Model>, states: seq<TargetState>) {
    |states| == |models| && forall i :: 0 <= i < |states| && states[i].lastLimits.Some? ==> Lowest(models[i]) <= states[i].lastLimits.value.min
  }

  /** The efficiency ceiling, applied in place when enabled. */
  method LimitEfficiency(models: seq<Model>, caps: seq<nat>, plans: seq<Plan>, enabled: bool) returns (limited: seq<Plan>)
    requires PlansSafe(models, caps, plans)
    ensures PlansSafe(models, caps, limited)
    ensures !enabled ==> limited == plans
    ensures forall i :: 0 <= i < |plans| ==> limited[i].floor <= plans[i].floor && limited[i].cap <= plans[i].cap
    ensures enabled ==> exists order :: PerformanceOrder(models, order) && Usable(models, order, plans) && limited == Cascade(models, order, |order|, plans)
  {
    limited := plans;
    if enabled {
      var selected := new Plan[|plans|](i requires 0 <= i < |plans| => plans[i]);
      assert selected[..] == plans;
      ghost var order := ApplyEfficiencyLimits(models, selected);
      limited := selected[..];
      CascadeKeepsSafe(models, order, |order|, plans, caps);
      CascadeLowers(models, order, |order|, plans);
    }
  }

  // ------------------------------------------------------------------- transition

  function BudgetOf(state: State): BudgetState {
    BudgetState(seq(|state.targets|, i requires 0 <= i < |state.targets| => state.targets[i].budgetCap), state.cursor, state.pathLength)
  }

  function TargetModels(targets: seq<Target>): seq<Model>
    requires forall i :: 0 <= i < |targets| ==> targets[i].model.Some?
  {
    seq(|targets|, i requires 0 <= i < |targets| => targets[i].model.value)
  }

  function TargetClusters(targets: seq<Target>): seq<Cluster>
    requires forall i :: 0 <= i < |targets| ==> targets[i].model.Some?
  {
    seq(|targets|, i requires 0 <= i < |targets| => Cluster(targets[i].model.value, targets[i].cores))
  }

  /** A package all of whose targets carry a built model. */
  ghost predicate Package(targets: seq<Target>) {
    && (forall i :: 0 <= i < |targets| ==> targets[i].model.Some? && ValidModel(targets[i].model.value))
    && RisingClusters(TargetClusters(targets))
  }

  /** The invariant of every reachable governor state. */
  ghost predicate StateOk(targets: seq<Target>, state: State)
    requires Package(targets)
  {
    LastLimitsOk(TargetModels(targets), state.targets) && BudgetOk(TargetClusters(targets), BudgetOf(state))
  }

  /** A window between the lowest OPP and every cap. */
  predicate SafeWindow(t: Target, o: Observation, w: Limits) {
    && t.model.Some? && Lowest(t.model.value) <= w.min <= w.max <= t.policy.hardware.max
    && (o.administratorCap.Some? ==> w.max <= o.administratorCap.value)
    && (o.thermalCap.Some? ==> w.max <= o.thermalCap.value)
  }

  /** The maximum before the efficiency ceiling: the feedback cap under the safety cap, the former lifted by a burst. */
  function CapInForce(t: Target, o: Observation, burst: bool, feedback: Option<nat>): nat {
    if burst then SafetyCap(t, o) else MinOption(SafetyCap(t, o), feedback)
  }

  /** The load jumped by more than the prediction threshold. */
  predicate Jumps(o: Observation, s: TargetState, config: Config) {
    Unit(if o.rawLoad.Some? then o.rawLoad.value else 0.0) - s.demand.previousRaw > config.predictThreshold
  }

  ghost predicate NothingJumps(state: State, input: Input)
    requires |state.targets| == |input.observations|
  {
    forall i :: 0 <= i < |state.targets| ==> !Jumps(input.observations[i], state.targets[i], input.config)
  }

  function Progress(ramp: nat, latency: nat): real { if latency == 0 then 1.0 else Unit(ramp as real / latency as real) }

  /** `low`, or with the efficiency ceiling at most that. */
  predicate Lowered(input: Input, low: nat, w: nat) { w <= low && (!input.limitEfficiency ==> w == low) }

  /**
   The minimum: the least control OPP meeting the demand, under the cap. A bypass takes it at once, and so does a
   target at or below its sweet spot outside the residency; above the sweet spot the ramp decides.
   */
  ghost predicate MinimumFollows(m: Model, demanded: real, cap: nat, was: TargetState, input: Input, bypassRamp: bool, progress: real, w: Limits) {
    && m.control != []
    && exists f :: LeastMeeting(m.control, demanded, f)
                   && (bypassRamp || (!Dwelling(was, input) && Min(f, cap) <= m.sweet) ==> Lowered(input, Min(f, cap), w.min))
                   && (!bypassRamp && !Dwelling(was, input) && Min(f, cap) > m.sweet ==>
                         exists g :: RampAllows(m, Min(f, cap), cap, progress, g) && Lowered(input, g, w.min))
  }

  /** Whether the burst formula applies to target `i`: during a burst, to every cluster but the slowest. */
  ghost predicate Bursting(targets: seq<Target>, input: Input, i: nat)
    requires i < |targets| && HasModels(targets)
  {
    input.burst > 0.0 && !Slowest(Speeds(TargetModels(targets)), i)
  }

  predicate HasModels(targets: seq<Target>) { forall i :: 0 <= i < |targets| ==> targets[i].model.Some? }

  /** What the window of target `i` is, besides being safe; the efficiency ceiling may only lower it (folded). */
  ghost predicate WindowFollows(targets: seq<Target>, state: State, input: Input, next: State, i: nat, w: Limits)
    requires |targets| == |state.targets| == |input.observations| == |next.targets| && i < |targets| && HasModels(targets)
  {
    forall z {:trigger Unfold(z)} :: Unfold(z) ==>
      var t, o, was := targets[i], input.observations[i], state.targets[i];
      var cap := CapInForce(t, o, input.burst > 0.0, next.targets[i].budgetCap);
      var bypassRamp := input.burst > 0.0 || !NothingJumps(state, input);
      && Lowered(input, cap, w.max)
      && (!bypassRamp && Dwelling(was, input) && cap >= was.lastLimits.value.max ==> w.min <= was.lastLimits.value.min)
      && RampMoves(state, input, bypassRamp, next.rampElapsed)
      && Governable(t, o) && ValidModel(t.model.value)
      && next.targets[i] == Recorded(was, SelectedDemand(t, o, was, input.config).next, next.targets[i].budgetCap, w, input.timestamp)
      && MinimumFollows(t.model.value, Demanded(t, o, was, input, Bursting(targets, input, i)), cap, was, input, bypassRamp,
                        Progress(next.rampElapsed, input.config.rampLatency), w)
  }

  /** What is kept of a target: the time of the last change moves only when the window does. */
  function Recorded(was: TargetState, demand: Demand, cap: Option<nat>, w: Limits, now: nat): TargetState {
    TargetState(demand, cap, Some(w), if was.lastLimits == Some(w) then was.lastChange else Some(now))
  }

  /** A bypass completes the ramp; otherwise it starts over or goes on by the time elapsed. */
  predicate RampMoves(state: State, input: Input, bypassRamp: bool, ramp: nat) {
    && (bypassRamp ==> ramp == input.config.rampLatency)
    && (!bypassRamp ==> ramp == 0 || ramp == Min(state.rampElapsed + ElapsedSince(state, input), input.config.rampLatency))
  }

  datatype Transition = Transition(limits: seq<Limits>, next: State, power: real, packageLimit: Option<nat>)

  function InitialState(n: nat): State {
    State(seq(n, _ => TargetState(Demand(0.0, 0.0), None, None, None)), Balance(0.0, 0.0), None, 0, None, 0)
  }

  lemma InitialStateOk(targets: seq<Target>)
    requires Package(targets)
    ensures StateOk(targets, InitialState(|targets|))
  {
  }

  function ElapsedSince(state: State, input: Input): nat {
    if state.previousTimestamp.Some? then Elapsed(input.timestamp, state.previousTimestamp.value) else 0
  }

  /**
   The package budget: a burst freezes bucket and caps; otherwise the bucket integrates the estimated power and the
   caps take one adjustment towards the limit the bucket then selects (folded).
   */
  ghost predicate PackageFollows(clusters: seq<Cluster>, state: State, input: Input, power: real, bucket: Balance, budget: BudgetState)
    requires RisingClusters(clusters)
  {
    forall z {:trigger Unfold(z)} :: Unfold(z) ==>
      && (input.burst > 0.0 ==> bucket == state.bucket && (state.pathLength > 0 ==> budget == BudgetOf(state)))
      && (input.burst <= 0.0 ==>
            && Bounded(bucket) && bucket == Updated(state.bucket, power, ElapsedSince(state, input), input.budget, input.integrate)
            && AdjustsTo(clusters, BudgetOf(state), budget, power, Selected(bucket, input.budget) as real))
  }

  method StepPackage(clusters: seq<Cluster>, state: State, input: Input, power: real) returns (bucket: Balance, budget: BudgetState)
    requires RisingClusters(clusters) && BudgetOk(clusters, BudgetOf(state))
    ensures PackageFollows(clusters, state, input, power, bucket, budget)
    ensures BudgetOk(clusters, budget) && |budget.caps| == |clusters|
    ensures forall c :: 0 <= c < |clusters| && budget.caps[c].Some? ==> HasFrequency(clusters[c].model.control, budget.caps[c].value)
  {
    var burst := input.burst > 0.0;
    bucket := if burst then state.bucket else Updated(state.bucket, power, ElapsedSince(state, input), input.budget, input.integrate);
    budget := StepBudget(clusters, BudgetOf(state), burst, power, Selected(bucket, input.budget) as real);
  }

  /** One transition: what its windows, its budget and its new state are; a failed one changes nothing (folded). */
  ghost predicate Follows(targets: seq<Target>, state: State, input: Input, windows: Option<seq<Limits>>, next: State)
    requires |targets| == |state.targets| == |input.observations| == |next.targets|
  {
    forall z {:trigger Unfold(z)} :: Unfold(z) ==>
      && (windows.Some? <==> forall i :: 0 <= i < |targets| ==> Governable(targets[i], input.observations[i]))
      && (windows.None? ==> next == state)
      && (windows.Some? ==>
            && HasModels(targets) && Package(targets) && |windows.value| == |targets| && next.previousTimestamp == Some(input.timestamp)
            && PackageFollows(TargetClusters(targets), state, input, PackagePower(targets, state, input, |targets|), next.bucket, BudgetOf(next))
            && (forall i :: 0 <= i < |targets| ==> SafeWindow(targets[i], input.observations[i], windows.value[i]))
            && (forall i :: 0 <= i < |targets| ==> WindowFollows(targets, state, input, next, i, windows.value[i])))
  }

  /** `transition_governor`. A target without a model, with an invalid policy or without an OPP under its cap fails it. */
  method Step(targets: seq<Target>, state: State, input: Input) returns (r: Result<Transition>)
    requires ModelsValid(targets) && |state.targets| == |targets| == |input.observations|
    requires HasModels(targets) ==> Package(targets) && StateOk(targets, state)
    ensures r.Ok? <==> forall i :: 0 <= i < |targets| ==> Governable(targets[i], input.observations[i])
    ensures r.Ok? ==>
              && HasModels(targets) && |r.value.next.targets| == |targets| && StateOk(targets, r.value.next)
              && Follows(targets, state, input, Some(r.value.limits), r.value.next)
              && r.value.power == PackagePower(targets, state, input, |targets|)
              && r.value.packageLimit == if input.burst > 0.0 then None else Some(Selected(r.value.next.bucket, input.budget))
  {
    var preparation, power, predictionBypass := PreparePackage(targets, state, input);
    if preparation.Err? { return Err(preparation.reason); }
    var ps := preparation.value;
    var bucket, budget := StepPackage(ClustersOf(ps), state, input, power);
    var burst := input.burst > 0.0;
    var limits, states, ramp := SelectWindows(targets, state, input, ps, budget.caps, burst || predictionBypass);
    var next := State(states, bucket, Some(input.timestamp), ramp, budget.cursor, budget.pathLength);
    assert BudgetOf(next) == budget;
    r := Ok(Transition(limits, next, power, if burst then None else Some(Selected(bucket, input.budget))));
    WindowsCarryOver(targets, state, input, State(states, state.bucket, None, ramp, None, 0), next, limits);
    TransitionFollows(targets, state, input, limits, next);
  }

  /** Every target prepared, with the burst demand where a burst applies. */
  method PreparePackage(targets: seq<Target>, state: State, input: Input) returns (r: Result<seq<Prepared>>, power: real, bypass: bool)
    requires |state.targets| == |targets| == |input.observations| && ModelsValid(targets)
    ensures r.Ok? <==> forall i :: 0 <= i < |targets| ==> Governable(targets[i], input.observations[i])
    ensures r.Ok? ==> && HasModels(targets) && AllPrepared(targets, input, r.value)
                      && ModelsOf(r.value) == TargetModels(targets) && ClustersOf(r.value) == TargetClusters(targets)
                      && (bypass <==> !NothingJumps(state, input)) && power == PackagePower(targets, state, input, |targets|)
    ensures r.Ok? ==> forall i :: 0 <= i < |targets| ==>
              Demanding(targets[i], input.observations[i], state.targets[i], input, Bursting(targets, input, i), r.value[i])
  {
    r, power, bypass := PrepareAll(targets, state, input);
    if r.Err? { return; }
    assert HasModels(targets) by { assert forall i :: 0 <= i < |targets| ==> Governable(targets[i], input.observations[i]); }
    var ps := ApplyBurst(targets, state, input, r.value);
    assert ModelsOf(ps) == TargetModels(targets) && ClustersOf(ps) == TargetClusters(targets);
    r := Ok(ps);
  }

  lemma TransitionFollows(targets: seq<Target>, state: State, input: Input, limits: seq<Limits>, next: State)
    requires |targets| == |state.targets| == |input.observations| == |next.targets| == |limits| && HasModels(targets) && Package(targets)
    requires forall i :: 0 <= i < |targets| ==> Governable(targets[i], input.observations[i])
    requires PackageFollows(TargetClusters(targets), state, input, PackagePower(targets, state, input, |targets|), next.bucket, BudgetOf(next))
    requires forall i :: 0 <= i < |targets| ==> SafeWindow(targets[i], input.observations[i], limits[i])
    requires forall i :: 0 <= i < |targets| ==> WindowFollows(targets, state, input, next, i, limits[i])
    requires next.previousTimestamp == Some(input.timestamp)
    ensures Follows(targets, state, input, Some(limits), next)
  {
  }

  /** A window speaks only of the targets' new states and the ramp. */
  lemma WindowsCarryOver(targets: seq<Target>, state: State, input: Input, next: State, other: State, limits: seq<Limits>)
    requires |targets| == |state.targets| == |input.observations| == |next.targets| == |limits| && HasModels(targets)
    requires other.targets == next.targets && other.rampElapsed == next.rampElapsed
    requires forall i :: 0 <= i < |targets| ==> WindowFollows(targets, state, input, next, i, limits[i])
    ensures forall i :: 0 <= i < |targets| ==> WindowFollows(targets, state, input, other, i, limits[i])
  {
    forall i | 0 <= i < |targets| ensures WindowFollows(targets, state, input, other, i, limits[i]) {
      assert WindowFollows(targets, state, input, next, i, limits[i]);
    }
  }

  /** From the caps to the windows: demand under the cap, ramp, dwell and efficiency ceiling. */
  method SelectWindows(targets: seq<Target>, state: State, input: Input, ps: seq<Prepared>, caps: seq<Option<nat>>, bypassRamp: bool)
    returns (limits: seq<Limits>, states: seq<TargetState>, ramp: nat)
    requires HasModels(targets) && AllPrepared(targets, input, ps) && |caps| == |ps| == |state.targets| && LastLimitsOk(ModelsOf(ps), state.targets)
    requires forall c :: 0 <= c < |ps| && caps[c].Some? ==> HasFrequency(ps[c].model.control, caps[c].value)
    requires bypassRamp <==> input.burst > 0.0 || !NothingJumps(state, input)
    requires forall i :: 0 <= i < |ps| ==> Demanding(targets[i], input.observations[i], state.targets[i], input, Bursting(targets, input, i), ps[i])
    ensures |limits| == |states| == |targets| && LastLimitsOk(ModelsOf(ps), states)
    ensures forall i :: 0 <= i < |targets| ==> SafeWindow(targets[i], input.observations[i], limits[i])
    ensures forall i :: 0 <= i < |targets| ==> states[i].lastLimits == Some(limits[i]) && states[i].budgetCap == caps[i]
    ensures forall i :: 0 <= i < |targets| ==> WindowFollows(targets, state, input, State(states, state.bucket, None, ramp, None, 0), i, limits[i])
  {
    var plans := BudgetPlans(targets, input, ps, caps);
    ramp := if bypassRamp then input.config.rampLatency
            else if HighCostIncrease(ps, plans, state.targets) then Min(state.rampElapsed + ElapsedSince(state, input), input.config.rampLatency) else 0;
    var progress := Progress(ramp, input.config.rampLatency);
    var ramped := SelectPlans(ps, plans, state.targets, input, bypassRamp, progress);
    var selected := LimitEfficiency(ModelsOf(ps), CapsOf(ps), ramped, input.limitEfficiency);
    limits, states := Record(ps, state.targets, caps, selected, input.timestamp);
    WindowsSafe(targets, input, ps, selected, limits);
    ghost var next := State(states, state.bucket, None, ramp, None, 0);
    forall i | 0 <= i < |targets| ensures WindowFollows(targets, state, input, next, i, limits[i]) {
      assert PreparedFor(targets[i], input.observations[i], ps[i]);
      WindowIsSelected(targets, state, input, next, i, ps[i], plans[i], ramped[i], bypassRamp, limits[i]);
    }
  }

  lemma WindowIsSelected(targets: seq<Target>, state: State, input: Input, next: State, i: nat, p: Prepared, plan: Plan, ramped: Plan, bypassRamp: bool, w: Limits)
    requires |targets| == |state.targets| == |input.observations| == |next.targets| && i < |targets| && HasModels(targets)
    requires PreparedFor(targets[i], input.observations[i], p)
    requires Demanding(targets[i], input.observations[i], state.targets[i], input, Bursting(targets, input, i), p)
    requires bypassRamp <==> input.burst > 0.0 || !NothingJumps(state, input)
    requires Budgeted(p, input.burst > 0.0, next.targets[i].budgetCap, plan)
    requires Ramped(p, plan, state.targets[i], input, bypassRamp, Progress(next.rampElapsed, input.config.rampLatency), ramped)
    requires next.targets[i] == Recorded(state.targets[i], p.demand.next, next.targets[i].budgetCap, w, input.timestamp)
    requires RampMoves(state, input, bypassRamp, next.rampElapsed) && Lowered(input, ramped.floor, w.min) && Lowered(input, ramped.cap, w.max)
    ensures WindowFollows(targets, state, input, next, i, w)
  {
    MinimumIsSelected(p, plan, next.targets[i].budgetCap, state.targets[i], input, bypassRamp, Progress(next.rampElapsed, input.config.rampLatency), ramped, w);
    assert Unfold(true);
  }

  /** Plan, ramp and efficiency ceiling together give the minimum its meaning. */
  lemma MinimumIsSelected(p: Prepared, plan: Plan, cap: Option<nat>, was: TargetState, input: Input, bypassRamp: bool, progress: real, ramped: Plan, w: Limits)
    requires Budgeted(p, input.burst > 0.0, cap, plan) && Ramped(p, plan, was, input, bypassRamp, progress, ramped)
    requires Lowered(input, ramped.floor, w.min)
    ensures MinimumFollows(p.model, p.demanded, plan.cap, was, input, bypassRamp, progress, w)
  {
    var f :| LeastMeeting(p.model.control, p.demanded, f) && plan.floor == Min(f, plan.cap);
    if !bypassRamp && !Dwelling(was, input) && plan.floor > p.model.sweet {
      assert RampAllows(p.model, Min(f, plan.cap), plan.cap, progress, ramped.floor);
    }
  }

  /** Store the selected windows and the new demand and budget caps. */
  method Record(ps: seq<Prepared>, states: seq<TargetState>, caps: seq<Option<nat>>, selected: seq<Plan>, timestamp: nat)
    returns (limits: seq<Limits>, next: seq<TargetState>)
    requires |ps| == |states| == |caps| == |selected|
    ensures |limits| == |next| == |ps|
    ensures forall i :: 0 <= i < |ps| ==> limits[i] == Limits(selected[i].floor, selected[i].cap)
    ensures forall i :: 0 <= i < |ps| ==> next[i] == Recorded(states[i], ps[i].demand.next, caps[i], limits[i], timestamp)
  {
    limits, next := [], [];
    for k := 0 to |ps|
      invariant |limits| == |next| == k
      invariant forall i :: 0 <= i < k ==> limits[i] == Limits(selected[i].floor, selected[i].cap)
      invariant forall i :: 0 <= i < k ==> next[i] == Recorded(states[i], ps[i].demand.next, caps[i], limits[i], timestamp)
    {
      var window := Limits(selected[k].floor, selected[k].cap);
      var changed := if states[k].lastLimits != Some(window) then Some(timestamp) else states[k].lastChange;
      limits := limits + [window];
      next := next + [TargetState(ps[k].demand.next, caps[k], Some(window), changed)];
    }
  }

  lemma WindowsSafe(targets: seq<Target>, input: Input, ps: seq<Prepared>, selected: seq<Plan>, limits: seq<Limits>)
    requires AllPrepared(targets, input, ps) && PlansSafe(ModelsOf(ps), CapsOf(ps), selected) && |limits| == |ps|
    requires forall i :: 0 <= i < |ps| ==> limits[i] == Limits(selected[i].floor, selected[i].cap)
    ensures forall i :: 0 <= i < |targets| ==> SafeWindow(targets[i], input.observations[i], limits[i])
  {
    forall i | 0 <= i < |targets| ensures SafeWindow(targets[i], input.observations[i], limits[i]) {
      assert ModelsOf(ps)[i] == ps[i].model && CapsOf(ps)[i] == ps[i].safetyCap;
    }
  }

  // --------------------------------------------------------------------- whole runs

  lemma PackageOfModels(targets: seq<Target>)
    requires ModelsValid(targets) && HasModels(targets)
    ensures Package(targets)
  {
    forall i | 0 <= i < |targets| ensures targets[i].model.value.control != [] && RisingTable(targets[i].model.value.control) {
      OppsAboveLowest(targets[i].model.value);
    }
  }

  /** The invariant, for a package all of whose targets have a model (folded). */
  ghost predicate Sound(targets: seq<Target>, state: State) {
    forall z {:trigger Unfold(z)} :: Unfold(z) && HasModels(targets) ==> Package(targets) && StateOk(targets, state)
  }

  ghost predicate Shaped(targets: seq<Target>, inputs: seq<Input>, states: seq<State>, windows: seq<Option<seq<Limits>>>) {
    && |states| == |inputs| + 1 && |windows| == |inputs|
    && (forall k :: 0 <= k < |states| ==> |states[k].targets| == |targets|)
    && (forall k :: 0 <= k < |inputs| ==> |inputs[k].observations| == |targets|)
  }

  /** `states` is a run over `inputs` from the initial state, and `windows` are those it emits (folded). */
  ghost predicate IsRun(targets: seq<Target>, inputs: seq<Input>, states: seq<State>, windows: seq<Option<seq<Limits>>>) {
    && Shaped(targets, inputs, states, windows)
    && forall z {:trigger UnfoldBatch(z)} :: UnfoldBatch(z) ==>
         && states[0] == InitialState(|targets|)
         && (forall k :: 0 <= k < |states| ==> Sound(targets, states[k]))
         && (forall k :: 0 <= k < |inputs| ==> Follows(targets, states[k], inputs[k], windows[k], states[k + 1]))
  }

  lemma RunGrows(targets: seq<Target>, inputs: seq<Input>, states: seq<State>, windows: seq<Option<seq<Limits>>>, input: Input, window: Option<seq<Limits>>, next: State)
    requires IsRun(targets, inputs, states, windows) && |input.observations| == |targets| == |next.targets|
    requires Follows(targets, states[|inputs|], input, window, next)
    requires Sound(targets, next)
    ensures IsRun(targets, inputs + [input], states + [next], windows + [window])
  {
    assert UnfoldBatch(true);
    var more, after := inputs + [input], states + [next];
    forall k | 0 <= k < |more| ensures Follows(targets, after[k], more[k], (windows + [window])[k], after[k + 1]) {
      if k < |inputs| { assert Follows(targets, states[k], inputs[k], windows[k], states[k + 1]); }
    }
  }

  /** A run of the governor from its initial state. */
  method Run(targets: seq<Target>, inputs: seq<Input>) returns (windows: seq<Option<seq<Limits>>>, ghost states: seq<State>)
    requires ModelsValid(targets) && forall k :: 0 <= k < |inputs| ==> |inputs[k].observations| == |targets|
    ensures IsRun(targets, inputs, states, windows)
  {
    var state := InitialState(|targets|);
    if HasModels(targets) {
      PackageOfModels(targets);
      InitialStateOk(targets);
    }
    windows, states := [], [state];
    assert inputs[..0] == [];
    for n := 0 to |inputs|
      invariant |states| == n + 1 && states[n] == state && IsRun(targets, inputs[..n], states, windows)
      invariant Sound(targets, state)
    {
      assert HasModels(targets) ==> Package(targets) && StateOk(targets, state) by { assert Unfold(true); }
      var step := Step(targets, state, inputs[n]);
      var next := if step.Ok? then step.value.next else state;
      var window := if step.Ok? then Some(step.value.limits) else None;
      RunGrows(targets, inputs[..n], states, windows, inputs[n], window, next);
      assert inputs[..n] + [inputs[n]] == inputs[..n + 1];
      state, windows, states := next, windows + [window], states + [next];
    }
    assert inputs[..|inputs|] == inputs;
  }

  /** The limit the bucket selects in cycle `k` of a run, and the power it is compared with. */
  ghost function CycleOf(targets: seq<Target>, inputs: seq<Input>, states: seq<State>, k: nat): Cycle
    requires k < |inputs| == |states| - 1 && |inputs[k].observations| == |targets| == |states[k].targets|
  {
    Cycle(PackagePower(targets, states[k], inputs[k], |targets|), Selected(states[k + 1].bucket, inputs[k].budget) as real)
  }

  /** Cycles `from` to `to` all succeed and none is a burst. */
  ghost predicate Governed(inputs: seq<Input>, windows: seq<Option<seq<Limits>>>, from: nat, to: nat) {
    from < to <= |inputs| == |windows| && forall k :: from <= k < to ==> windows[k].Some? && inputs[k].burst <= 0.0
  }

  lemma CycleMoves(targets: seq<Target>, inputs: seq<Input>, states: seq<State>, windows: seq<Option<seq<Limits>>>, path: seq<BudgetPath.Step>, k: nat)
    requires IsRun(targets, inputs, states, windows) && k < |inputs| && windows[k].Some? && inputs[k].burst <= 0.0
    requires HasModels(targets) && Package(targets) && PathFor(TargetClusters(targets), path)
    ensures forall i :: 0 <= i < |path| ==> path[i].cluster < |targets|
    ensures Moves(TargetClusters(targets), path, BudgetOf(states[k]), BudgetOf(states[k + 1]), CycleOf(targets, inputs, states, k))
  {
    assert Follows(targets, states[k], inputs[k], windows[k], states[k + 1]) by { assert UnfoldBatch(true); }
    var cycle := CycleOf(targets, inputs, states, k);
    assert AdjustsTo(TargetClusters(targets), BudgetOf(states[k]), BudgetOf(states[k + 1]), cycle.power, cycle.limit) by { assert Unfold(true); }
  }

  ghost function CyclesOf(targets: seq<Target>, inputs: seq<Input>, states: seq<State>, windows: seq<Option<seq<Limits>>>, from: nat, to: nat): seq<Cycle>
    requires Shaped(targets, inputs, states, windows) && from <= to <= |inputs|
  {
    seq(to - from, k requires 0 <= k < to - from => CycleOf(targets, inputs, states, from + k))
  }

  /** Over such a stretch of a run the budget is the fold of its cycles. */
  lemma {:induction false} StretchFolds(targets: seq<Target>, inputs: seq<Input>, states: seq<State>, windows: seq<Option<seq<Limits>>>,
                                        from: nat, to: nat, path: seq<BudgetPath.Step>)
    requires IsRun(targets, inputs, states, windows) && Governed(inputs, windows, from, to) && HasModels(targets) && Package(targets)
    requires PathFor(TargetClusters(targets), path)
    ensures forall i :: 0 <= i < |path| ==> path[i].cluster < |targets|
    ensures BudgetOf(states[to]) == Cycles(Started(TargetClusters(targets), path, BudgetOf(states[from])), path,
                                           CyclesOf(targets, inputs, states, windows, from, to))
  {
    var clusters, cycles := TargetClusters(targets), CyclesOf(targets, inputs, states, windows, from, to);
    var budgets := seq(to - from + 1, k requires 0 <= k <= to - from => BudgetOf(states[from + k]));
    CycleMoves(targets, inputs, states, windows, path, from);
    forall k | 0 <= k < |cycles| ensures Moves(clusters, path, budgets[k], budgets[k + 1], cycles[k]) {
      CycleMoves(targets, inputs, states, windows, path, from + k);
    }
    ChainFolds(clusters, path, budgets, cycles);
  }

  lemma StretchStart(targets: seq<Target>, inputs: seq<Input>, states: seq<State>, windows: seq<Option<seq<Limits>>>, from: nat, path: seq<BudgetPath.Step>)
    returns (b: nat)
    requires IsRun(targets, inputs, states, windows) && from <= |inputs| && HasModels(targets) && Package(targets)
    requires PathFor(TargetClusters(targets), path) && path != []
    ensures AtBoundary(TargetClusters(targets), path, Started(TargetClusters(targets), path, BudgetOf(states[from])), b)
  {
    var clusters := TargetClusters(targets);
    assert StateOk(targets, states[from]) by { assert UnfoldBatch(true) && Unfold(true); }
    StartedOnBoundary(clusters, path, BudgetOf(states[from]));
    b :| AtBoundary(clusters, path, Started(clusters, path, BudgetOf(states[from])), b);
  }

  /**
   Power above the limit in as many governed cycles as the path is long: every feedback cap is at its bottom, and no
   window reaches above the first control OPP of its path.
   */
  lemma {:induction false} OverloadThrottles(targets: seq<Target>, inputs: seq<Input>, states: seq<State>, windows: seq<Option<seq<Limits>>>,
                                             from: nat, to: nat, path: seq<BudgetPath.Step>)
    requires IsRun(targets, inputs, states, windows) && Governed(inputs, windows, from, to) && HasModels(targets) && Package(targets)
    requires PathFor(TargetClusters(targets), path) && 0 < |path| <= to - from
    requires forall k :: from <= k < to ==> var c := CycleOf(targets, inputs, states, k); Over(c.power, c.limit)
    ensures AtBoundary(TargetClusters(targets), path, BudgetOf(states[to]), 0)
    ensures |windows[to - 1].value| == |targets| && forall i :: 0 <= i < |targets| ==>
              var c := TargetClusters(targets)[i]; windows[to - 1].value[i].max <= c.model.control[First(c)].frequency
  {
    var clusters := TargetClusters(targets);
    var b := StretchStart(targets, inputs, states, windows, from, path);
    StretchFolds(targets, inputs, states, windows, from, to, path);
    SustainedOverload(clusters, path, Started(clusters, path, BudgetOf(states[from])), b, CyclesOf(targets, inputs, states, windows, from, to));
    WindowUnderCap(targets, inputs, states, windows, to - 1);
    forall i | 0 <= i < |targets| ensures BudgetOf(states[to]).caps[i] == Some(clusters[i].model.control[First(clusters[i])].frequency) {
      BoundaryEnds(clusters, path, i);
    }
  }

  /**
   Power below the limit as long: every feedback cap is at its top, so that without the efficiency ceiling every
   window reaches to the last control OPP or to the cap that safety sets.
   */
  lemma {:induction false} HeadroomReleases(targets: seq<Target>, inputs: seq<Input>, states: seq<State>, windows: seq<Option<seq<Limits>>>,
                                            from: nat, to: nat, path: seq<BudgetPath.Step>)
    requires IsRun(targets, inputs, states, windows) && Governed(inputs, windows, from, to) && HasModels(targets) && Package(targets)
    requires PathFor(TargetClusters(targets), path) && 0 < |path| <= to - from
    requires forall k :: from <= k < to ==> var c := CycleOf(targets, inputs, states, k); Under(c.power, c.limit)
    ensures AtBoundary(TargetClusters(targets), path, BudgetOf(states[to]), |path|)
    ensures |windows[to - 1].value| == |targets| == |inputs[to - 1].observations| && forall i :: 0 <= i < |targets| && !inputs[to - 1].limitEfficiency ==>
              windows[to - 1].value[i].max == Min(SafetyCap(targets[i], inputs[to - 1].observations[i]), Top(TargetClusters(targets), i))
  {
    var clusters := TargetClusters(targets);
    var b := StretchStart(targets, inputs, states, windows, from, path);
    StretchFolds(targets, inputs, states, windows, from, to, path);
    SustainedHeadroom(clusters, path, Started(clusters, path, BudgetOf(states[from])), b, CyclesOf(targets, inputs, states, windows, from, to));
    WindowUnderCap(targets, inputs, states, windows, to - 1);
    forall i | 0 <= i < |targets| ensures BudgetOf(states[to]).caps[i] == Some(Top(clusters, i)) {
      BoundaryEnds(clusters, path, i);
    }
  }

  /** Outside a burst a window's maximum is the feedback cap under the safety cap, or below it by the ceiling. */
  lemma WindowUnderCap(targets: seq<Target>, inputs: seq<Input>, states: seq<State>, windows: seq<Option<seq<Limits>>>, k: nat)
    requires IsRun(targets, inputs, states, windows) && k < |inputs| && windows[k].Some? && inputs[k].burst <= 0.0
    ensures |windows[k].value| == |targets| == |inputs[k].observations| == |states[k + 1].targets|
    ensures forall i :: 0 <= i < |targets| ==>
              Lowered(inputs[k], MinOption(SafetyCap(targets[i], inputs[k].observations[i]), BudgetOf(states[k + 1]).caps[i]), windows[k].value[i].max)
  {
    assert Follows(targets, states[k], inputs[k], windows[k], states[k + 1]) by { assert UnfoldBatch(true); }
    assert Unfold(true);
    forall i | 0 <= i < |targets|
      ensures Lowered(inputs[k], MinOption(SafetyCap(targets[i], inputs[k].observations[i]), BudgetOf(states[k + 1]).caps[i]), windows[k].value[i].max)
    {
      assert WindowFollows(targets, states[k], inputs[k], states[k + 1], i, windows[k].value[i]);
    }
  }

  /** What the actuator makes of a safe window is under the same caps. */
  lemma SnappedWindowIsSafe(t: Target, o: Observation, w: Limits, f: FrequencyTarget)
    requires SafeWindow(t, o, w) && CanonicalTarget(f)
    ensures SnapLimits(f, w).Ok? ==>
              var snapped := SnapLimits(f, w).value;
              && snapped.min <= snapped.max <= w.max && snapped.max <= t.policy.hardware.max
              && (o.administratorCap.Some? ==> snapped.max <= o.administratorCap.value)
              && (o.thermalCap.Some? ==> snapped.max <= o.thermalCap.value)
    ensures SnapLimits(f, w).Ok? && f.opps == Frequencies(t.model.value.opps) && t.model.value.opps != [] ==>
              TightestInside(f.opps, w, SnapLimits(f, w).value)
  {
    SnapLimitsCorrect(f, w);
  }
}
