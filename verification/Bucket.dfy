/**
 The PL1/PL2-style energy bucket: a clamped balance that power above the slow limit drains and power below it
 refills, scaled. Energies are millijoules and powers milliwatts, as reals.
 */
module Bucket {
  import opened Common

  datatype Budget = Budget(slow: nat, fast: nat, capacity: nat, recoverScale: real)

  /** `EnergyBucketState` as a value. */
  datatype Balance = Balance(capacity: real, remaining: real)

  function ClampReal(x: real, lo: real, hi: real): real
    requires lo <= hi
  {
    if x < lo then lo else if x > hi then hi else x
  }

  /** The energy above the slow limit over one millisecond; what is below it counts scaled. */
  function ChargeRate(power: real, budget: Budget): real {
    var excess := (power - budget.slow as real) / 1000.0;
    if excess < 0.0 then excess * budget.recoverScale else excess
  }

  function Charge(power: real, ms: nat, budget: Budget): real { ChargeRate(power, budget) * ms as real }

  /** A larger capacity starts a full bucket; a smaller one clamps the balance. */
  function Resized(b: Balance, capacity: real): Balance
    requires capacity >= 0.0
  {
    Balance(capacity, if capacity > b.capacity then capacity else ClampReal(b.remaining, -capacity, capacity))
  }

  function Updated(b: Balance, power: real, ms: nat, budget: Budget, integrate: bool): Balance {
    var capacity := budget.capacity as real;
    var resized := Resized(b, capacity);
    if integrate then Balance(capacity, ClampReal(resized.remaining - Charge(power, ms, budget), -capacity, capacity)) else resized
  }

  class EnergyBucket {
    var capacity: real
    var remaining: real

    constructor ()
      ensures Value() == Balance(0.0, 0.0) && Bounded(Value())
    {
      capacity, remaining := 0.0, 0.0;
    }

    ghost function Value(): Balance
      reads this
    {
      Balance(capacity, remaining)
    }

    /** `EnergyBucketState::update`. */
    method Update(power: real, ms: nat, budget: Budget, integrate: bool) returns (delta: real, selected: nat)
      modifies this
      ensures Value() == Updated(old(Value()), power, ms, budget, integrate) && Bounded(Value())
      ensures delta == if integrate then Charge(power, ms, budget) else 0.0
      ensures selected == Selected(Value(), budget)
    {
      var size := budget.capacity as real;
      if size > capacity {
        remaining := size;
      } else {
        remaining := ClampReal(remaining, -size, size);
      }
      capacity := size;
      delta := 0.0;
      if integrate {
        delta := Delta(power, ms, budget);
        remaining := ClampReal(remaining - delta, -size, size);
      }
      selected := if remaining > 0.0 then budget.fast else budget.slow;
    }
  }

  /** The charge of one interval, as the update computes it. */
  method Delta(power: real, ms: nat, budget: Budget) returns (delta: real)
    ensures delta == Charge(power, ms, budget)
  {
    delta := (power - budget.slow as real) * (ms as real / 1000.0);
    DeltaIsCharge(power, ms, budget);
    if delta < 0.0 { delta := delta * budget.recoverScale; }
  }

  lemma Commute(e: real, m: real)
    ensures e * (m / 1000.0) == e / 1000.0 * m
  {
  }

  lemma ScaleLast(e: real, m: real, s: real)
    ensures e * m * s == e * s * m
  {
  }

  lemma ProductSign(e: real, m: real)
    requires m >= 0.0
    ensures e >= 0.0 ==> e * m >= 0.0
    ensures e < 0.0 && m > 0.0 ==> e * m < 0.0
    ensures e < 0.0 ==> e * m <= 0.0
    ensures m == 0.0 ==> e * m == 0.0
  {
  }

  /** Scaling the whole interval's deficit or its rate is the same. */
  lemma DeltaIsCharge(power: real, ms: nat, budget: Budget)
    ensures
      var raw := (power - budget.slow as real) * (ms as real / 1000.0);
      (if raw < 0.0 then raw * budget.recoverScale else raw) == Charge(power, ms, budget)
  {
    var e, m, s := power - budget.slow as real, ms as real, budget.recoverScale;
    Commute(e, m);
    ProductSign(e / 1000.0, m);
    ScaleLast(e / 1000.0, m, s);
    if m == 0.0 {
      assert Charge(power, ms, budget) == 0.0 by { ZeroProduct(ChargeRate(power, budget)); }
    }
  }

  lemma ZeroProduct(x: real)
    ensures x * 0.0 == 0.0
  {
  }

  predicate Bounded(b: Balance) { -b.capacity <= b.remaining <= b.capacity }

  /** The limit in force: the fast one while the balance is strictly positive. */
  function Selected(b: Balance, budget: Budget): nat {
    if b.remaining > 0.0 then budget.fast else budget.slow
  }

  // ----------------------------------------------------------------- whole stretches

  /** One update; a suspended interval is not integrated. */
  datatype Sample = Sample(power: real, ms: nat, integrate: bool)

  /** The balance after a list of samples. */
  function Run(b: Balance, samples: seq<Sample>, budget: Budget): Balance {
    if samples == [] then b
    else
      var last := samples[|samples| - 1];
      Updated(Run(b, samples[..|samples| - 1], budget), last.power, last.ms, budget, last.integrate)
  }

  /** The charge of the intervals that are integrated. */
  function TotalCharge(samples: seq<Sample>, budget: Budget): real {
    if samples == [] then 0.0
    else
      var last := samples[|samples| - 1];
      TotalCharge(samples[..|samples| - 1], budget) + if last.integrate then Charge(last.power, last.ms, budget) else 0.0
  }

  /** Every cycle of the stretch selects the fast limit. */
  ghost predicate AllFast(b: Balance, samples: seq<Sample>, budget: Budget) {
    forall k :: 0 < k <= |samples| ==> Run(b, samples[..k], budget).remaining > 0.0
  }

  lemma {:induction false} StretchDrains(b: Balance, samples: seq<Sample>, budget: Budget)
    requires samples != [] && AllFast(b, samples, budget)
    ensures var r := Run(b, samples, budget);
            && Bounded(r) && r.capacity == budget.capacity as real
            && r.remaining <= Resized(b, r.capacity).remaining - TotalCharge(samples, budget)
  {
    var init := samples[..|samples| - 1];
    assert samples[..|samples|] == samples;
    if init != [] {
      forall k | 0 < k <= |init| ensures Run(b, init[..k], budget).remaining > 0.0 {
        assert init[..k] == samples[..k];
      }
      StretchDrains(b, init, budget);
    }
  }

  /** Over any stretch of cycles that all run at the fast limit, the net excess energy of its integrated intervals stays below the capacity. */
  lemma FastStretchIsBounded(b: Balance, samples: seq<Sample>, budget: Budget)
    requires samples != [] && AllFast(b, samples, budget)
    ensures TotalCharge(samples, budget) < budget.capacity as real
  {
    StretchDrains(b, samples, budget);
    assert samples[..|samples|] == samples;
  }

  // ------------------------------------------------------------ sampling independence

  function Sum(times: seq<nat>): nat {
    if times == [] then 0 else Sum(times[..|times| - 1]) + times[|times| - 1]
  }

  function Constant(power: real, times: seq<nat>): seq<Sample> {
    seq(|times|, i requires 0 <= i < |times| => Sample(power, times[i], true))
  }

  /** Two drifts in one direction, clamped after each, make one drift. */
  lemma ClampTwice(x: real, a: real, b: real, c: real)
    requires c >= 0.0 && -c <= x <= c && ((a >= 0.0 && b >= 0.0) || (a <= 0.0 && b <= 0.0))
    ensures ClampReal(ClampReal(x - a, -c, c) - b, -c, c) == ClampReal(x - (a + b), -c, c)
  {
  }

  lemma ChargesAdd(power: real, m: nat, n: nat, budget: Budget)
    ensures Charge(power, m + n, budget) == Charge(power, m, budget) + Charge(power, n, budget)
    ensures (Charge(power, m, budget) >= 0.0 && Charge(power, n, budget) >= 0.0) || (Charge(power, m, budget) <= 0.0 && Charge(power, n, budget) <= 0.0)
  {
    var k := ChargeRate(power, budget);
    AddProduct(k, m as real, n as real);
    ProductSign(k, m as real);
    ProductSign(k, n as real);
    assert (m + n) as real == m as real + n as real;
  }

  lemma AddProduct(k: real, m: real, n: real)
    ensures k * (m + n) == k * m + k * n
  {
  }

  /** Two consecutive samples at one power are one sample. */
  lemma UpdateTwice(b: Balance, power: real, m: nat, n: nat, budget: Budget)
    ensures Updated(Updated(b, power, m, budget, true), power, n, budget, true) == Updated(b, power, m + n, budget, true)
  {
    var c := budget.capacity as real;
    ChargesAdd(power, m, n, budget);
    var r := Resized(b, c).remaining;
    ClampTwice(r, Charge(power, m, budget), Charge(power, n, budget), c);
    assert Resized(Updated(b, power, m, budget, true), c) == Updated(b, power, m, budget, true);
  }

  /** However an interval of constant power is cut into samples, the final balance is that of one sample. */
  lemma {:induction false} SamplingIndependence(b: Balance, power: real, times: seq<nat>, budget: Budget)
    requires times != []
    ensures Run(b, Constant(power, times), budget) == Updated(b, power, Sum(times), budget, true)
  {
    var init, last := times[..|times| - 1], times[|times| - 1];
    var all := Constant(power, times);
    assert all[..|all| - 1] == Constant(power, init);
    assert all[|all| - 1] == Sample(power, last, true);
    if init == [] {
      assert Sum(times) == last;
    } else {
      SamplingIndependence(b, power, init, budget);
      UpdateTwice(b, power, Sum(init), last, budget);
    }
  }
}
