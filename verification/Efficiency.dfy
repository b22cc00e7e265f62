/**
 The cross-cluster efficiency ceiling: from the highest-performance cluster down, each cluster is capped near the
 cost per performance of the next higher one's selected OPP.
 */
module Efficiency {
  import opened Common
  import opened EnergyModel

  /** `BudgetedOpp`. */
  datatype Plan = Plan(floor: nat, cap: nat)

  /** `opp_at_or_below`. */
  function OppAtOrBelow(opps: seq<EnergyOpp>, cap: nat): (r: Option<EnergyOpp>)
    ensures r.Some? ==> r.value in opps && r.value.frequency <= cap
    ensures r.None? <==> forall i :: 0 <= i < |opps| ==> opps[i].frequency > cap
  {
    if opps == [] then None
    else if opps[|opps| - 1].frequency <= cap then Some(opps[|opps| - 1])
    else OppAtOrBelow(opps[..|opps| - 1], cap)
  }

  /** The first control OPP strictly above a cost, or the last one. */
  function FirstDearer(control: seq<EnergyOpp>, cost: real): (r: EnergyOpp)
    requires control != [] && forall i :: 0 <= i < |control| ==> control[i].performance > 0.0
    ensures r in control
  {
    if |control| == 1 || Cost(control[0]) > cost then control[0] else FirstDearer(control[1..], cost)
  }

  /** The ceiling for a cluster below one that runs at `highFloor`. */
  function EfficiencyCap(low: Model, high: Model, highFloor: nat): nat
    requires ValidModel(low) && ValidModel(high)
  {
    assert Unfold(true);
    var at := OppAtOrBelow(high.opps, highFloor);
    var highOpp := if at.Some? then at.value else high.opps[0];
    Max(FirstDearer(low.control, Cost(highOpp)).frequency, low.plain)
  }

  function Limited(plan: Plan, cap: nat): Plan {
    Plan(Min(plan.floor, Min(plan.cap, cap)), Min(plan.cap, cap))
  }

  // ------------------------------------------------------------------- the order

  predicate Slower(speeds: seq<real>, a: nat, b: nat)
    requires a < |speeds| && b < |speeds|
  {
    speeds[a] < speeds[b] || (speeds[a] == speeds[b] && a < b)
  }

  /** Distinct indices, from slow to fast. */
  ghost predicate Sorted(speeds: seq<real>, order: seq<nat>) {
    && (forall i :: 0 <= i < |order| ==> order[i] < |speeds|)
    && (forall i, j :: 0 <= i < j < |order| ==> Slower(speeds, order[i], order[j]))
  }

  lemma InsertSorted(speeds: seq<real>, order: seq<nat>, p: nat, k: nat)
    requires Sorted(speeds, order) && p <= |order| && k < |speeds|
    requires forall i :: 0 <= i < p ==> Slower(speeds, order[i], k)
    requires forall i :: p <= i < |order| ==> Slower(speeds, k, order[i])
    ensures Sorted(speeds, order[..p] + [k] + order[p..])
  {
    var next := order[..p] + [k] + order[p..];
    forall i | 0 <= i < |next| ensures next[i] == if i < p then order[i] else if i == p then k else order[i - 1] {}
  }

  /** Stable sort of the cluster indices by performance per hertz. */
  method SortByPerformance(speeds: seq<real>) returns (order: seq<nat>)
    ensures Sorted(speeds, order) && |order| == |speeds| && forall i: nat :: i < |speeds| ==> i in order
  {
    order := [];
    for k := 0 to |speeds|
      invariant |order| == k && Sorted(speeds, order) && forall i :: 0 <= i < k ==> order[i] < k
      invariant forall i: nat :: i < k ==> i in order
    {
      var p := |order|;
      while p > 0 && speeds[k] < speeds[order[p - 1]]
        invariant 0 <= p <= |order|
        invariant forall i :: p <= i < |order| ==> Slower(speeds, k, order[i])
      {
        p := p - 1;
      }
      forall i | 0 <= i < p ensures Slower(speeds, order[i], k) {
        assert i < p - 1 ==> Slower(speeds, order[i], order[p - 1]);
      }
      InsertSorted(speeds, order, p, k);
      InsertCovers(order, p, k);
      order := order[..p] + [k] + order[p..];
    }
  }

  lemma InsertCovers(order: seq<nat>, p: nat, k: nat)
    requires p <= |order| && forall i: nat :: i < k ==> i in order
    ensures forall i: nat :: i < k + 1 ==> i in order[..p] + [k] + order[p..]
  {
    var next := order[..p] + [k] + order[p..];
    assert order == order[..p] + order[p..];
    assert forall x :: x in order <==> x in order[..p] || x in order[p..];
    assert forall x :: x in next <==> x in order[..p] || x == k || x in order[p..];
  }

  function Speeds(models: seq<Model>): seq<real> { seq(|models|, i requires 0 <= i < |models| => models[i].performancePerHz) }

  /** The cluster indices from little to big: sorted, and so without repetition, and all of them. */
  ghost predicate PerformanceOrder(models: seq<Model>, order: seq<nat>) {
    |order| == |models| && Sorted(Speeds(models), order) && forall i: nat :: i < |models| ==> i in order
  }

  // ------------------------------------------------------------------ the cascade

  ghost predicate Usable(models: seq<Model>, order: seq<nat>, plans: seq<Plan>) {
    && |plans| == |models| && |order| == |models| && (forall i :: 0 <= i < |models| ==> ValidModel(models[i]))
    && (forall i :: 0 <= i < |order| ==> order[i] < |models|)
    && (forall i, j :: 0 <= i < j < |order| ==> order[i] != order[j])
  }

  ghost function Cascade(models: seq<Model>, order: seq<nat>, p: nat, plans: seq<Plan>): (r: seq<Plan>)
    requires Usable(models, order, plans) && p <= |order|
    ensures |r| == |plans|
    decreases p
  {
    if p <= 1 then plans
    else
      var low, high := order[p - 2], order[p - 1];
      Cascade(models, order, p - 1, plans[low := Limited(plans[low], EfficiencyCap(models[low], models[high], plans[high].floor))])
  }

  lemma SortedDistinct(speeds: seq<real>, order: seq<nat>)
    requires Sorted(speeds, order)
    ensures forall i, j :: 0 <= i < j < |order| ==> order[i] != order[j]
  {
    forall i, j | 0 <= i < j < |order| ensures order[i] != order[j] { assert Slower(speeds, order[i], order[j]); }
  }

  /** `apply_reference_efficiency_limits`, in place. */
  method ApplyEfficiencyLimits(models: seq<Model>, selected: array<Plan>) returns (ghost order: seq<nat>)
    requires selected.Length == |models| && forall i :: 0 <= i < |models| ==> ValidModel(models[i])
    modifies selected
    ensures PerformanceOrder(models, order) && Usable(models, order, old(selected[..]))
    ensures selected[..] == Cascade(models, order, |order|, old(selected[..]))
  {
    var sorted := SortByPerformance(Speeds(models));
    order := sorted;
    SortedDistinct(Speeds(models), sorted);
    var p := |sorted|;
    while p > 1
      invariant 0 <= p <= |sorted| && Usable(models, sorted, selected[..])
      invariant Cascade(models, sorted, p, selected[..]) == Cascade(models, sorted, |sorted|, old(selected[..]))
    {
      var low, high := sorted[p - 2], sorted[p - 1];
      var cap := EfficiencyCap(models[low], models[high], selected[high].floor);
      ghost var before := selected[..];
      var limited := Min(selected[low].cap, cap);
      selected[low] := Plan(Min(selected[low].floor, limited), limited);
      assert selected[..] == before[low := Limited(before[low], cap)];
      p := p - 1;
    }
  }

  /** The cascade touches only the lower clusters it walks. */
  lemma {:induction false} CascadeKeepsOthers(models: seq<Model>, order: seq<nat>, p: nat, plans: seq<Plan>)
    requires Usable(models, order, plans) && p <= |order|
    ensures
      var r := Cascade(models, order, p, plans);
      forall q :: 0 <= q < |order| && q + 1 >= p ==> r[order[q]] == plans[order[q]]
    decreases p
  {
    if p > 1 {
      var low, high := order[p - 2], order[p - 1];
      var next := plans[low := Limited(plans[low], EfficiencyCap(models[low], models[high], plans[high].floor))];
      CascadeKeepsOthers(models, order, p - 1, next);
    }
  }

  /** Each lower cluster ends at its own plan limited by its next higher cluster's final floor. */
  lemma {:induction false} CascadeLimits(models: seq<Model>, order: seq<nat>, p: nat, plans: seq<Plan>, q: nat)
    requires Usable(models, order, plans) && p <= |order| && q + 1 < p
    ensures
      var r := Cascade(models, order, p, plans);
      r[order[q]] == Limited(plans[order[q]], EfficiencyCap(models[order[q]], models[order[q + 1]], r[order[q + 1]].floor))
    decreases p
  {
    var low, high := order[p - 2], order[p - 1];
    var next := plans[low := Limited(plans[low], EfficiencyCap(models[low], models[high], plans[high].floor))];
    CascadeKeepsOthers(models, order, p - 1, next);
    if q + 2 < p { CascadeLimits(models, order, p - 1, next, q); }
  }

  /** Below the top, each plan of `to` is that of `from` limited by the ceiling `to` itself sets. */
  ghost predicate AllLimited(models: seq<Model>, order: seq<nat>, p: nat, from: seq<Plan>, to: seq<Plan>)
    requires Usable(models, order, from) && Usable(models, order, to) && p <= |order|
  {
    forall q :: 0 <= q && q + 1 < p ==>
      to[order[q]] == Limited(from[order[q]], EfficiencyCap(models[order[q]], models[order[q + 1]], to[order[q + 1]].floor))
  }

  /** A plan list already limited everywhere is left alone. */
  lemma {:induction false} CascadeFixes(models: seq<Model>, order: seq<nat>, p: nat, plans: seq<Plan>)
    requires Usable(models, order, plans) && p <= |order| && AllLimited(models, order, p, plans, plans)
    ensures Cascade(models, order, p, plans) == plans
    decreases p
  {
    if p > 1 {
      var q := p - 2;
      assert plans[order[q]] == Limited(plans[order[q]], EfficiencyCap(models[order[q]], models[order[q + 1]], plans[order[q + 1]].floor));
      assert plans[order[q] := plans[order[q]]] == plans;
      CascadeFixes(models, order, p - 1, plans);
    }
  }

  lemma LimitedTwice(plan: Plan, cap: nat)
    ensures Limited(Limited(plan, cap), cap) == Limited(plan, cap)
    ensures Limited(plan, cap).floor <= plan.floor && Limited(plan, cap).cap <= plan.cap && Limited(plan, cap).cap <= cap
    ensures Limited(plan, cap).floor <= Limited(plan, cap).cap
  {
  }

  /**
   The whole pass: every lower cluster respects the bound computed from the final floor of its next higher one, the
   top cluster is untouched, nothing is raised, floors stay below caps, and a second pass changes nothing.
   */
  lemma CascadeCorrect(models: seq<Model>, order: seq<nat>, plans: seq<Plan>)
    requires PerformanceOrder(models, order) && Usable(models, order, plans)
    requires forall i :: 0 <= i < |plans| ==> plans[i].floor <= plans[i].cap
    ensures
      var r := Cascade(models, order, |order|, plans);
      && (forall q :: 0 <= q && q + 1 < |order| ==>
            r[order[q]].cap <= EfficiencyCap(models[order[q]], models[order[q + 1]], r[order[q + 1]].floor))
      && (|order| > 0 ==> r[order[|order| - 1]] == plans[order[|order| - 1]])
      && (forall q :: 0 <= q < |order| ==> r[order[q]].floor <= plans[order[q]].floor && r[order[q]].cap <= plans[order[q]].cap)
      && (forall q :: 0 <= q < |order| ==> r[order[q]].floor <= r[order[q]].cap)
      && Usable(models, order, r) && Cascade(models, order, |order|, r) == r
  {
    var r := Cascade(models, order, |order|, plans);
    CascadeKeepsOthers(models, order, |order|, plans);
    CascadeAllLimited(models, order, plans);
    CascadeFixes(models, order, |order|, r);
    forall q | 0 <= q && q + 1 < |order|
      ensures r[order[q]].cap <= EfficiencyCap(models[order[q]], models[order[q + 1]], r[order[q + 1]].floor)
      ensures r[order[q]].floor <= plans[order[q]].floor && r[order[q]].cap <= plans[order[q]].cap && r[order[q]].floor <= r[order[q]].cap
    {
      LimitedTwice(plans[order[q]], EfficiencyCap(models[order[q]], models[order[q + 1]], r[order[q + 1]].floor));
    }
  }

  lemma CascadeAllLimited(models: seq<Model>, order: seq<nat>, plans: seq<Plan>)
    requires Usable(models, order, plans)
    ensures
      var r := Cascade(models, order, |order|, plans);
      Usable(models, order, r) && AllLimited(models, order, |order|, plans, r) && AllLimited(models, order, |order|, r, r)
  {
    var r := Cascade(models, order, |order|, plans);
    forall q | 0 <= q && q + 1 < |order|
      ensures var cap := EfficiencyCap(models[order[q]], models[order[q + 1]], r[order[q + 1]].floor);
              r[order[q]] == Limited(plans[order[q]], cap) == Limited(r[order[q]], cap)
    {
      CascadeLimits(models, order, |order|, plans, q);
      LimitedTwice(plans[order[q]], EfficiencyCap(models[order[q]], models[order[q + 1]], r[order[q + 1]].floor));
    }
  }

  // --------------------------------------------------------------- safe throughout

  function Lowest(m: Model): nat { if m.opps == [] then 0 else m.opps[0].frequency }

  /** Every plan lies between its model's lowest OPP and a cap. */
  ghost predicate PlansSafe(models: seq<Model>, caps: seq<nat>, plans: seq<Plan>) {
    && |plans| == |models| == |caps|
    && (forall i :: 0 <= i < |models| ==> ValidModel(models[i]) && Lowest(models[i]) <= plans[i].floor <= plans[i].cap <= caps[i])
  }

  lemma EfficiencyCapAboveLowest(low: Model, high: Model, highFloor: nat)
    requires ValidModel(low) && ValidModel(high)
    ensures Lowest(low) <= EfficiencyCap(low, high, highFloor)
  {
    assert Unfold(true);
    var k :| 0 <= k < |low.opps| && low.opps[k].frequency == low.plain;
  }

  /** The cascade raises nothing. */
  lemma {:induction false} CascadeLowers(models: seq<Model>, order: seq<nat>, p: nat, plans: seq<Plan>)
    requires Usable(models, order, plans) && p <= |order|
    ensures var r := Cascade(models, order, p, plans); forall i :: 0 <= i < |plans| ==> r[i].floor <= plans[i].floor && r[i].cap <= plans[i].cap
    decreases p
  {
    if p > 1 {
      var low, high := order[p - 2], order[p - 1];
      CascadeLowers(models, order, p - 1, plans[low := Limited(plans[low], EfficiencyCap(models[low], models[high], plans[high].floor))]);
    }
  }

  /** The cascade keeps plans safe. */
  lemma {:induction false} CascadeKeepsSafe(models: seq<Model>, order: seq<nat>, p: nat, plans: seq<Plan>, caps: seq<nat>)
    requires Usable(models, order, plans) && p <= |order| && PlansSafe(models, caps, plans)
    ensures PlansSafe(models, caps, Cascade(models, order, p, plans))
    decreases p
  {
    if p > 1 {
      var low, high := order[p - 2], order[p - 1];
      EfficiencyCapAboveLowest(models[low], models[high], plans[high].floor);
      CascadeKeepsSafe(models, order, p - 1,
                       plans[low := Limited(plans[low], EfficiencyCap(models[low], models[high], plans[high].floor))], caps);
    }
  }
}
