/**
 Frequency windows: the actuator's inward snapping, the policy engine's cap-and-snap, and the
 ordered register writes that move a live window without ever exposing an inverted pair.
 */
module Frequency {
  import opened Common

  /** A minimum/maximum pair in hertz; may be inverted until validated. */
  datatype Limits = Limits(min: nat, max: nat)

  /** A discovered frequency target (`hertzPerUnit` is the kernel attribute's unit). */
  datatype FrequencyTarget = FrequencyTarget(
    id: TargetId, minPath: string, maxPath: string,
    hardwareMin: nat, hardwareMax: nat, opps: seq<nat>, hertzPerUnit: nat)

  function HardwareLimits(t: FrequencyTarget): Limits { Limits(t.hardwareMin, t.hardwareMax) }

  predicate MultipleOf(x: nat, unit: nat) { unit != 0 && x % unit == 0 }

  /** What `FrequencyTarget::new` and `with_hertz_per_unit` establish. */
  predicate CanonicalTarget(t: FrequencyTarget) {
    && t.minPath != t.maxPath
    && t.hardwareMin <= t.hardwareMax
    && StrictlyIncreasing(t.opps)
    && (forall i :: 0 <= i < |t.opps| ==> t.hardwareMin <= t.opps[i] <= t.hardwareMax)
    && MultipleOf(t.hardwareMin, t.hertzPerUnit) && MultipleOf(t.hardwareMax, t.hertzPerUnit)
    && (forall i :: 0 <= i < |t.opps| ==> MultipleOf(t.opps[i], t.hertzPerUnit))
  }

  /** `validate_limits`: inside the hardware range, ordered, and representable in kernel units. */
  predicate ValidLimits(t: FrequencyTarget, l: Limits) {
    && t.hardwareMin <= l.min <= l.max <= t.hardwareMax
    && MultipleOf(l.min, t.hertzPerUnit) && MultipleOf(l.max, t.hertzPerUnit)
  }

  // ---------------------------------------------------------------- snapping

  /** First listed OPP at or above `x`. */
  function FirstAtLeast(opps: seq<nat>, x: nat): Option<nat> {
    if opps == [] then None
    else if opps[0] >= x then Some(opps[0])
    else FirstAtLeast(opps[1..], x)
  }

  /** Last listed OPP at or below `x`. */
  function LastAtMost(opps: seq<nat>, x: nat): Option<nat> {
    if opps == [] then None
    else if opps[|opps| - 1] <= x then Some(opps[|opps| - 1])
    else LastAtMost(opps[..|opps| - 1], x)
  }

  function GetOr(o: Option<nat>, default: nat): nat {
    match o case Some(v) => v case None => default
  }

  /** `FrequencyTarget::snap_limits`. */
  function SnapLimits(t: FrequencyTarget, requested: Limits): Result<Limits> {
    if !ValidLimits(t, requested) then Err("invalid frequency range")
    else if t.opps == [] then Ok(requested)
    else
      var minimum := GetOr(FirstAtLeast(t.opps, requested.min), t.hardwareMax);
      var maximum := GetOr(LastAtMost(t.opps, requested.max), t.hardwareMin);
      Ok(Limits(Min(minimum, maximum), maximum))
  }

  /** On a sorted table the two scans find the tightest OPP on each side. */
  ghost predicate IsFirstAtLeast(opps: seq<nat>, x: nat, r: Option<nat>) {
    match r
    case Some(v) => v in opps && x <= v && forall o :: o in opps && x <= o ==> v <= o
    case None => forall o :: o in opps ==> o < x
  }

  ghost predicate IsLastAtMost(opps: seq<nat>, x: nat, r: Option<nat>) {
    match r
    case Some(v) => v in opps && v <= x && forall o :: o in opps && o <= x ==> o <= v
    case None => forall o :: o in opps ==> x < o
  }

  lemma {:induction false} FirstAtLeastIsTightest(opps: seq<nat>, x: nat)
    requires StrictlyIncreasing(opps)
    ensures IsFirstAtLeast(opps, x, FirstAtLeast(opps, x))
  {
    if opps != [] && opps[0] < x {
      FirstAtLeastIsTightest(opps[1..], x);
      assert forall o :: o in opps <==> o == opps[0] || o in opps[1..];
    }
  }

  lemma {:induction false} LastAtMostIsTightest(opps: seq<nat>, x: nat)
    requires StrictlyIncreasing(opps)
    ensures IsLastAtMost(opps, x, LastAtMost(opps, x))
  {
    if opps != [] {
      var n := |opps| - 1;
      assert forall o :: o in opps <==> o == opps[n] || o in opps[..n];
      if opps[n] > x {
        LastAtMostIsTightest(opps[..n], x);
      }
    }
  }

  /** The window `w` is the tightest one with OPP endpoints inside `requested`, if one exists. */
  ghost predicate TightestInside(opps: seq<nat>, requested: Limits, w: Limits) {
    && w.max in opps && w.max <= requested.max
    && (forall o :: o in opps && o <= requested.max ==> o <= w.max)
    && w.min in opps && w.min <= w.max
    && (if exists o :: o in opps && requested.min <= o <= requested.max
        then requested.min <= w.min && forall o :: o in opps && requested.min <= o ==> w.min <= o
        else w.min == w.max)
  }

  /**
   Snapping succeeds exactly on valid windows and yields a valid window whose maximum is never
   raised, which is the tightest inward OPP window when some OPP is at or below the requested
   maximum, and which a second snap leaves alone.
   */
  lemma SnapLimitsCorrect(t: FrequencyTarget, requested: Limits)
    requires CanonicalTarget(t)
    ensures SnapLimits(t, requested).Ok? <==> ValidLimits(t, requested)
    ensures SnapLimits(t, requested).Ok? ==>
              var w := SnapLimits(t, requested).value;
              && ValidLimits(t, w)
              && w.max <= requested.max
              && SnapLimits(t, w) == Ok(w)
              && (t.opps == [] ==> w == requested)
              && (t.opps != [] && t.opps[0] <= requested.max ==> TightestInside(t.opps, requested, w))
              && (t.opps != [] && t.opps[0] > requested.max ==> w == Limits(t.hardwareMin, t.hardwareMin))
  {
    if ValidLimits(t, requested) && t.opps != [] {
      var w := SnapLimits(t, requested).value;
      FirstAtLeastIsTightest(t.opps, requested.min);
      LastAtMostIsTightest(t.opps, requested.max);
      FirstAtLeastIsTightest(t.opps, w.min);
      LastAtMostIsTightest(t.opps, w.max);
      assert t.opps[0] in t.opps;
      assert forall o :: o in t.opps ==> t.opps[0] <= o;
    }
  }

  // ------------------------------------------------- the policy engine's window

  function Insert(x: nat, s: seq<nat>): seq<nat> {
    if s == [] then [x]
    else if x < s[0] then [x] + s
    else if x == s[0] then s
    else [s[0]] + Insert(x, s[1..])
  }

  /** `sort_unstable` followed by `dedup`. */
  function SortDedup(s: seq<nat>): seq<nat> {
    if s == [] then [] else Insert(s[0], SortDedup(s[1..]))
  }

  lemma {:induction false} InsertCorrect(x: nat, s: seq<nat>)
    requires StrictlyIncreasing(s)
    ensures StrictlyIncreasing(Insert(x, s))
    ensures forall o :: o in Insert(x, s) <==> o == x || o in s
  {
    if s == [] {
      assert Insert(x, s) == [x];
    } else if x < s[0] {
      ConsIncreasing(x, s);
    } else if x > s[0] {
      var rest := Insert(x, s[1..]);
      InsertCorrect(x, s[1..]);
      assert forall o :: o in s <==> o == s[0] || o in s[1..];
      assert forall o :: o in rest ==> s[0] < o;
      ConsIncreasing(s[0], rest);
    }
  }

  lemma ConsIncreasing(x: nat, s: seq<nat>)
    requires StrictlyIncreasing(s) && forall o :: o in s ==> x < o
    ensures StrictlyIncreasing([x] + s) && forall o :: o in [x] + s <==> o == x || o in s
  {
    var all := [x] + s;
    forall i, j | 0 <= i < j < |all| ensures all[i] < all[j] {
      assert all[j] == s[j - 1] && s[j - 1] in s;
      if i > 0 { assert all[i] == s[i - 1]; }
    }
  }

  lemma {:induction false} SortDedupCorrect(s: seq<nat>)
    ensures StrictlyIncreasing(SortDedup(s))
    ensures forall o :: o in SortDedup(s) <==> o in s
  {
    if s != [] {
      SortDedupCorrect(s[1..]);
      InsertCorrect(s[0], SortDedup(s[1..]));
      assert forall o :: o in s <==> o == s[0] || o in s[1..];
    }
  }

  lemma {:induction false} SortDedupFixesCanonical(s: seq<nat>)
    requires StrictlyIncreasing(s)
    ensures SortDedup(s) == s
  {
    if s != [] {
      SortDedupFixesCanonical(s[1..]);
      assert s == [s[0]] + s[1..];
    }
  }

  function InRange(s: seq<nat>, lo: nat, hi: nat): seq<nat> {
    if s == [] then []
    else (if lo <= s[0] <= hi then [s[0]] else []) + InRange(s[1..], lo, hi)
  }

  lemma {:induction false} InRangeCorrect(s: seq<nat>, lo: nat, hi: nat)
    ensures forall o :: o in InRange(s, lo, hi) <==> o in s && lo <= o <= hi
  {
    if s != [] {
      InRangeCorrect(s[1..], lo, hi);
      assert forall o :: o in s <==> o == s[0] || o in s[1..];
    }
  }

  function QuantizeDown(x: nat, unit: nat): nat
    requires unit != 0
  {
    x / unit * unit
  }

  function QuantizeUp(x: nat, unit: nat): nat
    requires unit != 0
  {
    (x / unit + (if x % unit == 0 then 0 else 1)) * unit
  }

  /** The tightest of the hardware maximum and the optional caps, clamped into the hardware range. */
  function HardCap(hardware: Limits, administrator: Option<nat>, thermal: Option<nat>): nat
    requires hardware.min <= hardware.max
  {
    Clamp(Min(hardware.max, Min(GetOr(administrator, hardware.max), GetOr(thermal, hardware.max))),
          hardware.min, hardware.max)
  }

  /** `constrain_frequency_limits`. Each `Clamp` call is checked for an inverted range. */
  function ConstrainLimits(requested: Limits, hardware: Limits, administrator: Option<nat>,
                           thermal: Option<nat>, available: seq<nat>, unit: nat): Result<Limits> {
    if hardware.min > hardware.max then Err("invalid hardware limits")
    else if requested.min > requested.max then Err("reversed request")
    else if !MultipleOf(hardware.min, unit) || !MultipleOf(hardware.max, unit) then Err("invalid quantum")
    else
      var opps := SortDedup(InRange(available, hardware.min, hardware.max));
      var unsnappedMax := Clamp(requested.max, hardware.min, HardCap(hardware, administrator, thermal));
      if opps == [] then
        var max := Max(QuantizeDown(unsnappedMax, unit), hardware.min);
        Ok(Limits(Min(QuantizeUp(Clamp(requested.min, hardware.min, max), unit), max), max))
      else
        match LastAtMost(opps, unsnappedMax)
        case None => Err("no OPP at or below cap")
        case Some(max) =>
          SortDedupCorrect(InRange(available, hardware.min, hardware.max));
          InRangeCorrect(available, hardware.min, hardware.max);
          LastAtMostIsTightest(opps, unsnappedMax);
          var unsnappedMin := Clamp(requested.min, hardware.min, max);
          Ok(Limits(match FirstAtLeast(opps, unsnappedMin)
                    case Some(f) => if f <= max then f else max
                    case None => max,
                    max))
  }

  lemma QuantizeBounds(x: nat, unit: nat)
    requires unit != 0
    ensures QuantizeDown(x, unit) <= x < QuantizeDown(x, unit) + unit
    ensures x <= QuantizeUp(x, unit) < x + unit
    ensures MultipleOf(QuantizeDown(x, unit), unit) && MultipleOf(QuantizeUp(x, unit), unit)
  {
    var q := x / unit;
    assert x == q * unit + x % unit;
    MultipleIsMultiple(q, unit);
    MultipleIsMultiple(q + 1, unit);
    assert (q + 1) * unit == q * unit + unit;
  }

  lemma MultipleIsMultiple(q: nat, unit: nat)
    requires unit != 0
    ensures (q * unit) % unit == 0
  {
    var x := q * unit;
    var d, r := x / unit, x % unit;
    assert x == d * unit + r;
    assert (q - d) * unit == r;
    if q < d {
      assert (d - q) * unit >= 0;
      assert (q - d) * unit == -((d - q) * unit);
    } else if q > d {
      MulMonotone(1, q - d, unit);
    }
  }

  /** Two multiples of one unit closer than the unit are equal. */
  lemma NearbyMultiples(a: nat, b: nat, unit: nat)
    requires MultipleOf(a, unit) && MultipleOf(b, unit) && a <= b < a + unit
    ensures a == b
  {
    var i, j := a / unit, b / unit;
    assert a == i * unit && b == j * unit;
    assert (j - i) * unit == b - a;
    if j > i {
      MulMonotone(1, j - i, unit);
    } else {
      MulMonotone(j, i, unit);
    }
  }

  lemma MulMonotone(i: nat, j: nat, u: nat)
    requires i <= j
    ensures i * u <= j * u
  {
    assert j * u == i * u + (j - i) * u;
  }

  /** The window the caps allow: the request clamped into `hardware.min ..= cap`. */
  function CappedRequest(requested: Limits, hardware: Limits, cap: nat): Limits
    requires hardware.min <= cap
  {
    var max := Clamp(requested.max, hardware.min, cap);
    Limits(Clamp(requested.min, hardware.min, max), max)
  }

  /**
   Policy and actuator agree. For the target a policy describes, whatever the caps,
   `constrain_frequency_limits` fails only when the table has no OPP at or below the capped maximum;
   otherwise the pair it returns is exactly what the actuator's own `snap_limits` leaves unchanged,
   it stays under every cap that is at or above the hardware minimum, and it is the tightest OPP
   (or kernel-unit) window inside the capped request.
   */
  lemma ConstrainAgreesWithSnap(t: FrequencyTarget, requested: Limits, administrator: Option<nat>,
                                thermal: Option<nat>, available: seq<nat>)
    requires CanonicalTarget(t) && requested.min <= requested.max
    requires t.opps == SortDedup(InRange(available, t.hardwareMin, t.hardwareMax))
    ensures
      var hardware := HardwareLimits(t);
      var cap := HardCap(hardware, administrator, thermal);
      var capped := CappedRequest(requested, hardware, cap);
      var r := ConstrainLimits(requested, hardware, administrator, thermal, available, t.hertzPerUnit);
      && (r.Err? <==> t.opps != [] && t.opps[0] > capped.max)
      && (r.Ok? ==>
            var w := r.value;
            && SnapLimits(t, w) == Ok(w)
            && w.max <= cap <= t.hardwareMax
            && (administrator.Some? && administrator.value >= t.hardwareMin ==> w.max <= administrator.value)
            && (thermal.Some? && thermal.value >= t.hardwareMin ==> w.max <= thermal.value)
            && (t.opps != [] ==> TightestInside(t.opps, capped, w))
            && (t.opps == [] ==> TightestUnits(t.hertzPerUnit, capped, w)))
  {
    var hardware := HardwareLimits(t);
    var cap := HardCap(hardware, administrator, thermal);
    var capped := CappedRequest(requested, hardware, cap);
    if t.opps == [] {
      ConstrainUnits(t, requested, administrator, thermal, available);
    } else {
      ConstrainOpps(t, requested, administrator, thermal, available);
    }
  }

  /** The tightest window of kernel-unit multiples inside `requested` (whose ends are in hardware range). */
  ghost predicate TightestUnits(unit: nat, requested: Limits, w: Limits) {
    && MultipleOf(w.min, unit) && MultipleOf(w.max, unit) && w.min <= w.max <= requested.max
    && requested.max < w.max + unit
    && (if exists m: nat :: MultipleOf(m, unit) && requested.min <= m <= requested.max
        then requested.min <= w.min < requested.min + unit
        else w.min == w.max)
  }

  lemma ConstrainUnits(t: FrequencyTarget, requested: Limits, administrator: Option<nat>,
                       thermal: Option<nat>, available: seq<nat>)
    requires CanonicalTarget(t) && requested.min <= requested.max
    requires t.opps == [] == SortDedup(InRange(available, t.hardwareMin, t.hardwareMax))
    ensures
      var hardware := HardwareLimits(t);
      var cap := HardCap(hardware, administrator, thermal);
      var r := ConstrainLimits(requested, hardware, administrator, thermal, available, t.hertzPerUnit);
      && r.Ok?
      && SnapLimits(t, r.value) == Ok(r.value)
      && r.value.max <= cap
      && TightestUnits(t.hertzPerUnit, CappedRequest(requested, hardware, cap), r.value)
  {
    var hardware, unit := HardwareLimits(t), t.hertzPerUnit;
    var cap := HardCap(hardware, administrator, thermal);
    var capped := CappedRequest(requested, hardware, cap);
    var w := ConstrainLimits(requested, hardware, administrator, thermal, available, unit).value;
    QuantizeBounds(capped.max, unit);
    var down := QuantizeDown(capped.max, unit);
    if down < t.hardwareMin {
      NearbyMultiples(down, t.hardwareMin, unit);
    }
    assert w.max == down;
    var low := Clamp(requested.min, hardware.min, w.max);
    QuantizeBounds(low, unit);
    var up := QuantizeUp(low, unit);
    if up > w.max {
      NearbyMultiples(w.max, up, unit);
    }
    assert w.min == up;
    if m: nat :| MultipleOf(m, unit) && capped.min <= m <= capped.max {
      // A multiple inside the window is at most the quantised maximum, so clamping the minimum
      // to that maximum changes nothing.
      if m > down {
        NearbyMultiples(down, m, unit);
      }
      assert low == capped.min;
    } else {
      assert MultipleOf(down, unit);
      assert down < capped.min;
    }
  }

  lemma ConstrainOpps(t: FrequencyTarget, requested: Limits, administrator: Option<nat>,
                      thermal: Option<nat>, available: seq<nat>)
    requires CanonicalTarget(t) && requested.min <= requested.max
    requires t.opps == SortDedup(InRange(available, t.hardwareMin, t.hardwareMax)) != []
    ensures
      var hardware := HardwareLimits(t);
      var cap := HardCap(hardware, administrator, thermal);
      var capped := CappedRequest(requested, hardware, cap);
      var r := ConstrainLimits(requested, hardware, administrator, thermal, available, t.hertzPerUnit);
      && (r.Err? <==> t.opps[0] > capped.max)
      && (r.Ok? ==>
            && SnapLimits(t, r.value) == Ok(r.value)
            && r.value.max <= cap
            && TightestInside(t.opps, capped, r.value))
  {
    var hardware := HardwareLimits(t);
    var cap := HardCap(hardware, administrator, thermal);
    var capped := CappedRequest(requested, hardware, cap);
    var opps := t.opps;
    NoneBelowFirst(opps, capped.max);
    var r := ConstrainLimits(requested, hardware, administrator, thermal, available, t.hertzPerUnit);
    if r.Ok? {
      var w := r.value;
      OppWindow(t, capped, Clamp(requested.min, hardware.min, w.max), w);
    }
  }

  /** The downward scan fails exactly below the first OPP. */
  lemma NoneBelowFirst(opps: seq<nat>, x: nat)
    requires StrictlyIncreasing(opps) && opps != []
    ensures LastAtMost(opps, x).None? <==> opps[0] > x
    ensures LastAtMost(opps, x).Some? ==> LastAtMost(opps, x).value <= x && exists i :: 0 <= i < |opps| && opps[i] == LastAtMost(opps, x).value
  {
    LastAtMostIsTightest(opps, x);
    assert opps[0] in opps && forall o :: o in opps ==> opps[0] <= o;
  }

  /** A window built from the OPP under `capped.max` and the OPP above `low` is tightest and snapped. */
  lemma OppWindow(t: FrequencyTarget, capped: Limits, low: nat, w: Limits)
    requires CanonicalTarget(t) && t.opps != []
    requires LastAtMost(t.opps, capped.max) == Some(w.max)
    requires low == Min(capped.min, w.max)
    requires var f := FirstAtLeast(t.opps, low); w.min == (if f.Some? && f.value <= w.max then f.value else w.max)
    ensures SnapLimits(t, w) == Ok(w) && TightestInside(t.opps, capped, w)
  {
    var opps := t.opps;
    LastAtMostIsTightest(opps, capped.max);
    FirstAtLeastIsTightest(opps, low);
    assert w.min in opps && w.max in opps;
    assert ValidLimits(t, w);
    assert FirstAtLeast(opps, w.min) == Some(w.min) by { FirstAtLeastIsTightest(opps, w.min); }
    assert LastAtMost(opps, w.max) == Some(w.max) by { LastAtMostIsTightest(opps, w.max); }
  }

  // ---------------------------------------------------------------- kernel units

  /** `encode_frequency` before printing: the integer written to the attribute. */
  function EncodeUnits(frequency: nat, unit: nat): Option<nat> {
    if unit == 0 then None else Some(frequency / unit)
  }

  /** `parse_hertz` after scanning: the frequency an attribute's integer denotes, unless it overflows u64. */
  function DecodeUnits(raw: nat, unit: nat): Option<nat> {
    if raw * unit >= 0x1_0000_0000_0000_0000 then None else Some(raw * unit)
  }

  /** Kernel-unit encoding reads back exactly the representable frequencies. */
  lemma EncodeUnitsRoundTrip(frequency: nat, unit: nat)
    requires unit != 0 && frequency < 0x1_0000_0000_0000_0000
    ensures EncodeUnits(frequency, unit).Some?
    ensures DecodeUnits(EncodeUnits(frequency, unit).value, unit) == Some(frequency)
            <==> MultipleOf(frequency, unit)
  {
    assert frequency == frequency / unit * unit + frequency % unit;
  }

  // ------------------------------------------------------------- ordered writes

  datatype Write = WriteMin(value: nat) | WriteMax(value: nat)

  /** The register writes `write_ordered` issues, in order. */
  function OrderedWrites(current: Limits, desired: Limits): seq<Write> {
    var minWrite := if desired.min != current.min then [WriteMin(desired.min)] else [];
    var maxWrite := if desired.max != current.max then [WriteMax(desired.max)] else [];
    if desired.max < current.min then minWrite + maxWrite else maxWrite + minWrite
  }

  function Apply(l: Limits, w: Write): Limits {
    match w
    case WriteMin(v) => l.(min := v)
    case WriteMax(v) => l.(max := v)
  }

  /** Every pair visible in the registers while a list of writes takes effect. */
  function Visible(start: Limits, writes: seq<Write>): seq<Limits>
    decreases |writes|
  {
    if writes == [] then [start] else [start] + Visible(Apply(start, writes[0]), writes[1..])
  }

  function PushUnique(pairs: seq<Limits>, pair: Limits): seq<Limits> {
    if pair in pairs then pairs else pairs + [pair]
  }

  /** `ordered_write_states`. */
  function OrderedWriteStates(current: Limits, desired: Limits): seq<Limits> {
    if desired.max < current.min then
      var s1 := if desired.min != current.min then PushUnique([current], current.(min := desired.min)) else [current];
      if desired.max != current.max then PushUnique(s1, Limits(desired.min, desired.max)) else s1
    else
      var s1 := if desired.max != current.max then PushUnique([current], current.(max := desired.max)) else [current];
      if desired.min != current.min then PushUnique(s1, Limits(desired.min, desired.max)) else s1
  }

  function PushAll(pairs: seq<Limits>, more: seq<Limits>): seq<Limits>
    decreases |more|
  {
    if more == [] then pairs else PushAll(PushUnique(pairs, more[0]), more[1..])
  }

  /** `transaction_legal_pairs`: the journaled list of pairs a crash may leave behind. */
  function LegalPairs(current: Limits, desired: Limits): seq<Limits> {
    PushAll(OrderedWriteStates(current, desired), OrderedWriteStates(desired, current))
  }

  lemma {:induction false} PushAllMembers(pairs: seq<Limits>, more: seq<Limits>)
    ensures forall p :: p in PushAll(pairs, more) <==> p in pairs || p in more
    ensures Distinct(pairs) ==> Distinct(PushAll(pairs, more))
    ensures pairs != [] ==> PushAll(pairs, more) != []
    decreases |more|
  {
    if more != [] {
      PushAllMembers(PushUnique(pairs, more[0]), more[1..]);
      assert forall p :: p in more <==> p == more[0] || p in more[1..];
    }
  }

  /**
   The journaled legal pairs are exactly the pairs visible while the ordered writes move the window
   to the desired value or back; none of them is inverted, none repeats, and each is valid for the
   target whenever both ends are.
   */
  lemma LegalPairsAreVisiblePairs(t: FrequencyTarget, current: Limits, desired: Limits)
    requires ValidLimits(t, current) && ValidLimits(t, desired)
    ensures forall p :: p in LegalPairs(current, desired) <==>
                        || p in Visible(current, OrderedWrites(current, desired))
                        || p in Visible(desired, OrderedWrites(desired, current))
    ensures forall p :: p in LegalPairs(current, desired) ==> ValidLimits(t, p) && p.min <= p.max
    ensures Distinct(LegalPairs(current, desired)) && LegalPairs(current, desired) != []
    ensures current == desired ==> LegalPairs(current, desired) == [current]
  {
    OrderedStatesAreVisible(t, current, desired);
    OrderedStatesAreVisible(t, desired, current);
    PushAllMembers(OrderedWriteStates(current, desired), OrderedWriteStates(desired, current));
    if current == desired {
      assert OrderedWriteStates(current, desired) == [current];
      assert PushAll([current], [current]) == PushAll(PushUnique([current], current), []);
    }
  }

  lemma OrderedStatesAreVisible(t: FrequencyTarget, current: Limits, desired: Limits)
    requires ValidLimits(t, current) && ValidLimits(t, desired)
    ensures forall p :: p in OrderedWriteStates(current, desired) <==> p in Visible(current, OrderedWrites(current, desired))
    ensures forall p :: p in OrderedWriteStates(current, desired) ==> ValidLimits(t, p)
    ensures Distinct(OrderedWriteStates(current, desired))
    ensures current in OrderedWriteStates(current, desired) && desired in OrderedWriteStates(current, desired)
    ensures var v := Visible(current, OrderedWrites(current, desired)); v[|v| - 1] == desired
  {
    var w := OrderedWrites(current, desired);
    if |w| == 0 {
    } else if |w| == 1 {
      assert w[1..] == [];
      assert Visible(current, w) == [current, Apply(current, w[0])];
    } else {
      assert w == [w[0], w[1]];
      assert w[1..] == [w[1]] && w[1..][1..] == [];
      var mid := Apply(current, w[0]);
      assert Visible(mid, w[1..]) == [mid, Apply(mid, w[1])];
      assert Visible(current, w) == [current, mid, Apply(mid, w[1])];
    }
  }
}
