/**
 The energy model of a cluster: the power curve over its OPP table, nearest-OPP snapping and the sparse control
 table. Powers and performances are reals; frequencies are whole hertz.
 */
module EnergyModel {
  import opened Common
  import opened Frequency

  datatype EnergyOpp = EnergyOpp(frequency: nat, performance: real, power: real)

  datatype Model = Model(
    opps: seq<EnergyOpp>, control: seq<EnergyOpp>, performancePerHz: real, free: nat, sweet: nat, plain: nat)

  function Cost(o: EnergyOpp): real
    requires o.performance > 0.0
  {
    o.power / o.performance
  }

  /** Strictly rising frequencies, positive performance, and power that never falls. */
  predicate RisingTable(opps: seq<EnergyOpp>) {
    && (forall i, j :: 0 <= i < j < |opps| ==> opps[i].frequency < opps[j].frequency && opps[i].power <= opps[j].power)
    && (forall i :: 0 <= i < |opps| ==> opps[i].performance > 0.0)
  }

  predicate SubTable(control: seq<EnergyOpp>, opps: seq<EnergyOpp>) {
    forall i :: 0 <= i < |control| ==> control[i] in opps
  }

  predicate HasFrequency(opps: seq<EnergyOpp>, f: nat) { exists i :: 0 <= i < |opps| && opps[i].frequency == f }

  predicate WellBuilt(m: Model) {
    && |m.opps| >= 2 && RisingTable(m.opps)
    && |m.control| >= 1 && RisingTable(m.control) && SubTable(m.control, m.opps)
    && m.control[|m.control| - 1] == m.opps[|m.opps| - 1]
    && HasFrequency(m.opps, m.plain)
  }

  /** What every expanded model satisfies (folded). */
  ghost predicate ValidModel(m: Model) {
    forall z {:trigger Unfold(z)} :: Unfold(z) ==> WellBuilt(m)
  }

  function Frequencies(opps: seq<EnergyOpp>): seq<nat> { seq(|opps|, i requires 0 <= i < |opps| => opps[i].frequency) }

  // --------------------------------------------------------------------- snapping

  /** Twice the distance, plus one above the request: nearer wins, and below wins a tie. */
  function SnapKey(f: nat, requested: nat): nat {
    if f > requested then (f - requested) * 2 + 1 else (requested - f) * 2
  }

  /** `snap_frequency_nearest` over a nonempty table: the first entry of least key. */
  function SnapNearest(table: seq<nat>, requested: nat): nat
    requires table != []
  {
    if |table| == 1 then table[0]
    else
      var rest := SnapNearest(table[1..], requested);
      if SnapKey(table[0], requested) <= SnapKey(rest, requested) then table[0] else rest
  }

  lemma {:induction false} SnapIsNearest(table: seq<nat>, requested: nat)
    requires table != []
    ensures SnapNearest(table, requested) in table
    ensures forall f :: f in table ==> SnapKey(SnapNearest(table, requested), requested) <= SnapKey(f, requested)
  {
    if |table| > 1 {
      SnapIsNearest(table[1..], requested);
      assert forall f :: f in table <==> f == table[0] || f in table[1..];
    }
  }

  /** Snapping is monotone, and leaves what is in the table alone. */
  lemma SnapMonotone(table: seq<nat>, a: nat, b: nat)
    requires table != [] && a <= b
    ensures SnapNearest(table, a) <= SnapNearest(table, b)
    ensures a in table ==> SnapNearest(table, a) == a
  {
    SnapIsNearest(table, a);
    SnapIsNearest(table, b);
  }

  // ------------------------------------------------------------- sparse control table

  /** `interpolate_hertz`. */
  function Interpolate(lower: nat, upper: nat, part: nat, total: nat): nat
    requires total > 0
  {
    lower + (if upper >= lower then upper - lower else 0) * part / total
  }

  /** The nine requested control frequencies, in order. */
  function ControlRequests(free: nat, plain: nat, sweet: nat, maximum: nat): seq<nat> {
    [free, plain,
     Interpolate(plain, sweet, 1, 3), Interpolate(plain, sweet, 2, 3), Interpolate(plain, sweet, 3, 3),
     Interpolate(sweet, maximum, 1, 4), Interpolate(sweet, maximum, 2, 4), Interpolate(sweet, maximum, 3, 4),
     Interpolate(sweet, maximum, 4, 4)]
  }

  lemma ControlRequestsRise(free: nat, plain: nat, sweet: nat, maximum: nat)
    requires free <= plain <= sweet <= maximum
    ensures var r := ControlRequests(free, plain, sweet, maximum);
            && (forall i, j :: 0 <= i <= j < 9 ==> r[i] <= r[j])
            && r[4] == sweet && r[8] == maximum
  {
  }

  /** The entry of a table with a given frequency. */
  function AtFrequency(opps: seq<EnergyOpp>, f: nat): Option<EnergyOpp> {
    if opps == [] then None else if opps[0].frequency == f then Some(opps[0]) else AtFrequency(opps[1..], f)
  }

  lemma {:induction false} AtFrequencyFinds(opps: seq<EnergyOpp>, f: nat)
    ensures AtFrequency(opps, f).Some? <==> f in Frequencies(opps)
    ensures AtFrequency(opps, f).Some? ==> AtFrequency(opps, f).value in opps && AtFrequency(opps, f).value.frequency == f
  {
    if opps == [] {
    } else {
      AtFrequencyFinds(opps[1..], f);
      assert Frequencies(opps) == [opps[0].frequency] + Frequencies(opps[1..]);
    }
  }

  /** `sparse_reference_control_opps`: snap each request and keep those above the last one kept. */
  method SparseControl(opps: seq<EnergyOpp>, free: nat, plain: nat, sweet: nat) returns (selected: seq<EnergyOpp>)
    requires opps != [] && RisingTable(opps)
    requires free <= plain <= sweet
    requires HasFrequency(opps, free) && HasFrequency(opps, plain) && HasFrequency(opps, sweet)
    ensures RisingTable(selected) && SubTable(selected, opps) && 1 <= |selected| <= 9
    ensures selected[0].frequency == free && selected[|selected| - 1] == opps[|opps| - 1]
    ensures HasFrequency(selected, plain) && HasFrequency(selected, sweet)
  {
    var maximum := opps[|opps| - 1].frequency;
    assert sweet <= maximum by { var i :| 0 <= i < |opps| && opps[i].frequency == sweet; }
    var requested := ControlRequests(free, plain, sweet, maximum);
    ControlRequestsRise(free, plain, sweet, maximum);
    selected := SelectControl(opps, requested);
    SelectionComplete(opps, selected, free, plain, sweet);
  }

  /** Snap each request and keep those above the last one kept. */
  method SelectControl(opps: seq<EnergyOpp>, requested: seq<nat>) returns (selected: seq<EnergyOpp>)
    requires opps != [] && RisingTable(opps)
    requires forall i, j :: 0 <= i <= j < |requested| ==> requested[i] <= requested[j]
    ensures |selected| <= |requested| && Selecting(opps, Frequencies(opps), requested, |requested|, selected)
  {
    var available := Frequencies(opps);
    selected := [];
    for k := 0 to |requested|
      invariant |selected| <= k && Selecting(opps, available, requested, k, selected)
    {
      var snapped := SnapNearest(available, requested[k]);
      SnapIsNearest(available, requested[k]);
      AtFrequencyFinds(opps, snapped);
      if selected == [] || selected[|selected| - 1].frequency < snapped {
        var found := AtFrequency(opps, snapped);
        if found.Some? {
          SelectNext(opps, available, requested, k, selected, found.value);
          selected := selected + [found.value];
        }
      } else {
        SkipNext(opps, available, requested, k, selected);
      }
    }
  }

  /** The selection loop before request `k`: every earlier request's snapped frequency is in the rising sub-table. */
  ghost predicate Selecting(opps: seq<EnergyOpp>, available: seq<nat>, requested: seq<nat>, k: nat, selected: seq<EnergyOpp>) {
    && k <= |requested| && available != [] && RisingTable(selected) && SubTable(selected, opps)
    && (k > 0 ==> selected != [] && selected[|selected| - 1].frequency == SnapNearest(available, requested[k - 1])
                  && selected[0].frequency == SnapNearest(available, requested[0]))
    && (k == 0 ==> selected == [])
    && (forall i :: 0 <= i < k ==> HasFrequency(selected, SnapNearest(available, requested[i])))
  }

  lemma SelectNext(opps: seq<EnergyOpp>, available: seq<nat>, requested: seq<nat>, k: nat, selected: seq<EnergyOpp>, o: EnergyOpp)
    requires k < |requested| && Selecting(opps, available, requested, k, selected) && RisingTable(opps) && o in opps
    requires o.frequency == SnapNearest(available, requested[k])
    requires selected == [] || selected[|selected| - 1].frequency < o.frequency
    ensures Selecting(opps, available, requested, k + 1, selected + [o])
  {
    HasFrequencyGrows(selected, o);
    RisingGrows(opps, selected, o);
  }

  lemma SkipNext(opps: seq<EnergyOpp>, available: seq<nat>, requested: seq<nat>, k: nat, selected: seq<EnergyOpp>)
    requires k < |requested| && Selecting(opps, available, requested, k, selected)
    requires forall i, j :: 0 <= i <= j < |requested| ==> requested[i] <= requested[j]
    requires selected != [] && selected[|selected| - 1].frequency >= SnapNearest(available, requested[k])
    ensures Selecting(opps, available, requested, k + 1, selected)
  {
    SnapMonotone(available, requested[k - 1], requested[k]);
  }

  lemma SelectionComplete(opps: seq<EnergyOpp>, selected: seq<EnergyOpp>, free: nat, plain: nat, sweet: nat)
    requires opps != [] && RisingTable(opps) && free <= plain <= sweet <= opps[|opps| - 1].frequency
    requires HasFrequency(opps, free) && HasFrequency(opps, plain) && HasFrequency(opps, sweet)
    requires Selecting(opps, Frequencies(opps), ControlRequests(free, plain, sweet, opps[|opps| - 1].frequency), 9, selected)
    ensures selected != [] && selected[0].frequency == free && selected[|selected| - 1] == opps[|opps| - 1]
    ensures HasFrequency(selected, plain) && HasFrequency(selected, sweet)
  {
    var maximum := opps[|opps| - 1].frequency;
    var requested := ControlRequests(free, plain, sweet, maximum);
    ControlRequestsRise(free, plain, sweet, maximum);
    InTable(opps, free);
    InTable(opps, plain);
    InTable(opps, sweet);
    InTable(opps, maximum);
    assert HasFrequency(selected, SnapNearest(Frequencies(opps), requested[1]));
    assert HasFrequency(selected, SnapNearest(Frequencies(opps), requested[4]));
    LastOfTable(opps, selected[|selected| - 1]);
  }

  lemma InTable(opps: seq<EnergyOpp>, f: nat)
    requires HasFrequency(opps, f)
    ensures f in Frequencies(opps) && SnapNearest(Frequencies(opps), f) == f
  {
    var i :| 0 <= i < |opps| && opps[i].frequency == f;
    assert Frequencies(opps)[i] == f;
    SnapMonotone(Frequencies(opps), f, f);
  }

  lemma HasFrequencyGrows(selected: seq<EnergyOpp>, o: EnergyOpp)
    ensures forall f :: HasFrequency(selected, f) ==> HasFrequency(selected + [o], f)
    ensures HasFrequency(selected + [o], o.frequency)
  {
    var more := selected + [o];
    forall f | HasFrequency(selected, f) ensures HasFrequency(more, f) {
      var i :| 0 <= i < |selected| && selected[i].frequency == f;
      assert more[i].frequency == f;
    }
    assert more[|selected|] == o;
  }

  lemma RisingGrows(opps: seq<EnergyOpp>, selected: seq<EnergyOpp>, o: EnergyOpp)
    requires RisingTable(opps) && RisingTable(selected) && SubTable(selected, opps) && o in opps
    requires selected == [] || selected[|selected| - 1].frequency < o.frequency
    ensures RisingTable(selected + [o])
  {
    forall i | 0 <= i < |selected| ensures selected[i].frequency < o.frequency && selected[i].power <= o.power {
      assert selected[i].frequency <= selected[|selected| - 1].frequency;
      assert selected[i] in opps;
    }
  }

  lemma LastOfTable(opps: seq<EnergyOpp>, o: EnergyOpp)
    requires opps != [] && RisingTable(opps) && o in opps && o.frequency == opps[|opps| - 1].frequency
    ensures o == opps[|opps| - 1]
  {
  }

  // ----------------------------------------------------------------- the power curve

  /** `CpuEnergyModelConfig::ReferenceCurveV1`. */
  datatype Curve = Curve(relativePerformance: nat, typicalPower: nat, typical: nat, sweet: nat, plain: nat, free: nat)

  /** What `validate_energy_model` requires. */
  predicate ValidCurve(c: Curve) {
    c.relativePerformance > 0 && c.typicalPower > 0 && 0 < c.free <= c.plain <= c.sweet <= c.typical
  }

  function Cube(x: real): real { x * x * x }

  /** The cubic coefficient, calibrated at the typical point. */
  function A3(c: Curve): real
    requires ValidCurve(c)
  {
    CubePositive(c.typical as real);
    c.typicalPower as real / Cube(c.typical as real)
  }

  lemma CubePositive(x: real)
    requires x > 0.0
    ensures Cube(x) > 0.0
  {
    assert x * x > 0.0;
  }

  /** The power of one core at frequency `x`: linear up to `p`, quadratic up to `s`, then cubic. */
  function CurvePower(a1: real, a2: real, a3: real, s: real, p: real, x: real): real {
    if x <= p then a1 * x else if x <= s then a2 * (x * x) else a3 * Cube(x)
  }

  function A2(c: Curve): real
    requires ValidCurve(c)
  {
    A3(c) * c.sweet as real
  }

  function A1(c: Curve): real
    requires ValidCurve(c)
  {
    A2(c) * c.plain as real
  }

  function PowerAt(c: Curve, x: real): real
    requires ValidCurve(c)
  {
    CurvePower(A1(c), A2(c), A3(c), c.sweet as real, c.plain as real, x)
  }

  /** How the coefficients of the pieces are related (folded). */
  ghost predicate Coefficients(a1: real, a2: real, a3: real, s: real, p: real) {
    forall z {:trigger Unfold(z)} :: Unfold(z) ==> a3 > 0.0 && a2 == a3 * s && a1 == a2 * p && 0.0 < p <= s
  }

  lemma QuotientPositive(n: real, d: real)
    requires n > 0.0 && d > 0.0
    ensures n / d > 0.0 && n / d * d == n
  {
  }

  lemma CurveCoefficients(c: Curve)
    requires ValidCurve(c)
    ensures Coefficients(A1(c), A2(c), A3(c), c.sweet as real, c.plain as real)
    ensures A3(c) * Cube(c.typical as real) == c.typicalPower as real
  {
    CubePositive(c.typical as real);
    QuotientPositive(c.typicalPower as real, Cube(c.typical as real));
  }

  lemma Associates(a: real, b: real, c: real)
    ensures a * b * c == a * (b * c)
  {
  }

  lemma MulUp(a: real, b: real, k: real)
    requires a <= b && k >= 0.0
    ensures a * k <= b * k && k * a <= k * b
  {
    assert (b - a) * k >= 0.0;
  }

  lemma ProductPositive(a: real, b: real)
    requires a > 0.0 && b > 0.0
    ensures a * b > 0.0
  {
  }

  lemma Distribute(k: real, a: real, b: real)
    ensures k * a - k * b == k * (a - b)
  {
  }

  lemma ProductBelow(x: real, y: real, b: real)
    requires 0.0 < x <= b && 0.0 < y <= b
    ensures 0.0 < x * y <= b * b
  {
    ProductPositive(x, y);
    MulUp(x, b, y);
    MulUp(y, b, b);
  }

  /** From `fx` to `fy` is a rise at a positive rate of at most `rate` over a distance `d` (folded). */
  ghost predicate Rises(fx: real, fy: real, rate: real, d: real) {
    forall z {:trigger Unfold(z)} :: Unfold(z) ==> 0.0 < fy - fx <= rate * d
  }

  lemma UnfoldRise(fx: real, fy: real, rate: real, d: real)
    requires Rises(fx, fy, rate, d)
    ensures 0.0 < fy - fx <= rate * d
  {
    assert Unfold(true);
  }

  /** A rise bounded on two adjoining intervals is bounded on their union. */
  lemma Telescope(rate: real, x: real, m: real, y: real, fx: real, fm: real, fy: real)
    requires Rises(fx, fm, rate, m - x) && Rises(fm, fy, rate, y - m)
    ensures Rises(fx, fy, rate, y - x)
  {
    assert Unfold(true);
    assert rate * (y - x) == rate * (m - x) + rate * (y - m);
  }

  /** A rise at a fixed positive rate. */
  lemma FixedRate(fx: real, fy: real, k: real, rate: real, d: real)
    requires fy - fx == k * d && 0.0 < k <= rate && d > 0.0
    ensures Rises(fx, fy, rate, d)
  {
    MulUp(k, rate, d);
    ProductPositive(k, d);
  }

  lemma SquareSlope(k: real, x: real, y: real, b: real, rate: real)
    requires 0.0 < k && 0.0 < x < y <= b && 2.0 * (k * b) <= rate
    ensures Rises(k * (x * x), k * (y * y), rate, y - x)
  {
    Distribute(k, y * y, x * x);
    assert y * y - x * x == (x + y) * (y - x);
    Associates(k, x + y, y - x);
    ProductPositive(k, x + y);
    MulUp(x + y, 2.0 * b, k);
    assert k * (2.0 * b) == 2.0 * (k * b);
    FixedRate(k * (x * x), k * (y * y), k * (x + y), rate, y - x);
  }

  lemma CubeDifference(x: real, y: real)
    ensures Cube(y) - Cube(x) == (y * y + y * x + x * x) * (y - x)
  {
    var yy, yx, xx := y * y, y * x, x * x;
    assert (yy + yx + xx) * (y - x) == yy * y + yx * y + xx * y - yy * x - yx * x - xx * x;
    assert yx * y == yy * x && xx * y == yx * x;
  }

  lemma CubeRate(x: real, y: real, b: real)
    requires 0.0 < x < y <= b
    ensures 0.0 < y * y + y * x + x * x <= 3.0 * (b * b)
  {
    ProductBelow(y, y, b);
    ProductBelow(y, x, b);
    ProductBelow(x, x, b);
  }

  lemma CubeSlope(k: real, x: real, y: real, b: real, rate: real)
    requires 0.0 < k && 0.0 < x < y <= b && rate == 3.0 * (k * (b * b))
    ensures Rises(k * Cube(x), k * Cube(y), rate, y - x)
  {
    CubeRate(x, y, b);
    CubeDifference(x, y);
    assert rate == k * (3.0 * (b * b)) by { Associates(k, 3.0, b * b); }
    ScaleSlope(k, Cube(x), Cube(y), y * y + y * x + x * x, y - x, 3.0 * (b * b), rate);
  }

  lemma ScaleSlope(k: real, fx: real, fy: real, q: real, d: real, bound: real, rate: real)
    requires k > 0.0 && 0.0 < q <= bound && d > 0.0 && fy - fx == q * d && rate == k * bound
    ensures Rises(k * fx, k * fy, rate, d)
  {
    Distribute(k, fy, fx);
    Associates(k, q, d);
    ProductPositive(k, q);
    MulUp(q, bound, k);
    FixedRate(k * fx, k * fy, k * q, rate, d);
  }

  /** Neighbouring pieces meet. */
  lemma PiecesMeet(a1: real, a2: real, a3: real, s: real, p: real)
    requires Coefficients(a1, a2, a3, s, p)
    ensures 0.0 < p <= s && a3 > 0.0 && 0.0 < a1 && 0.0 < a2
    ensures a1 * p == a2 * (p * p) && a2 * (s * s) == a3 * Cube(s)
  {
    assert Unfold(true);
    ProductPositive(a3, s);
    ProductPositive(a2, p);
    Associates(a2, p, p);
    Associates(a3, s, s * s);
    Associates(s, s, s);
  }

  /** The slopes of the lower pieces stay below that of the cubic one. */
  lemma SquareRate(a2: real, a3: real, s: real, b: real, rate: real)
    requires a3 > 0.0 && a2 == a3 * s && 0.0 < s <= b && rate == 3.0 * (a3 * (b * b))
    ensures 2.0 * (a2 * b) <= rate
  {
    MulUp(s, b, b);
    MulUp(s * b, b * b, a3);
    Associates(a3, s, b);
    ProductPositive(b, b);
    ProductPositive(a3, b * b);
  }

  lemma LinearRate(a1: real, a2: real, p: real, b: real, rate: real)
    requires a2 > 0.0 && a1 == a2 * p && 0.0 < p <= b && 2.0 * (a2 * b) <= rate
    ensures a1 <= rate
  {
    MulUp(p, b, a2);
    ProductPositive(a2, b);
  }

  lemma LowSlope(a1: real, a2: real, a3: real, s: real, p: real, x: real, y: real, b: real, rate: real)
    requires Coefficients(a1, a2, a3, s, p) && s <= b && 2.0 * (a2 * b) <= rate && 0.0 < x < y <= p
    ensures Rises(CurvePower(a1, a2, a3, s, p, x), CurvePower(a1, a2, a3, s, p, y), rate, y - x)
  {
    PiecesMeet(a1, a2, a3, s, p);
    assert a1 == a2 * p by { assert Unfold(true); }
    LinearRate(a1, a2, p, b, rate);
    Distribute(a1, y, x);
    FixedRate(a1 * x, a1 * y, a1, rate, y - x);
  }

  /** On its closed middle piece the curve is its quadratic, on the closed upper one its cubic. */
  lemma CurvePieces(a1: real, a2: real, a3: real, s: real, p: real, x: real)
    requires Coefficients(a1, a2, a3, s, p)
    ensures a2 > 0.0 && a3 > 0.0
    ensures p <= x <= s ==> CurvePower(a1, a2, a3, s, p, x) == a2 * (x * x)
    ensures s <= x ==> CurvePower(a1, a2, a3, s, p, x) == a3 * Cube(x)
  {
    PiecesMeet(a1, a2, a3, s, p);
  }

  lemma MiddleSlope(a1: real, a2: real, a3: real, s: real, p: real, x: real, y: real, b: real, rate: real)
    requires Coefficients(a1, a2, a3, s, p) && 0.0 < p <= x < y <= s <= b && 2.0 * (a2 * b) <= rate
    ensures Rises(CurvePower(a1, a2, a3, s, p, x), CurvePower(a1, a2, a3, s, p, y), rate, y - x)
  {
    CurvePieces(a1, a2, a3, s, p, x);
    CurvePieces(a1, a2, a3, s, p, y);
    SquareSlope(a2, x, y, b, rate);
  }

  lemma HighSlope(a1: real, a2: real, a3: real, s: real, p: real, x: real, y: real, b: real, rate: real)
    requires Coefficients(a1, a2, a3, s, p) && 0.0 < s <= x < y <= b && rate == 3.0 * (a3 * (b * b))
    ensures Rises(CurvePower(a1, a2, a3, s, p, x), CurvePower(a1, a2, a3, s, p, y), rate, y - x)
  {
    CurvePieces(a1, a2, a3, s, p, x);
    CurvePieces(a1, a2, a3, s, p, y);
    CubeSlope(a3, x, y, b, rate);
  }

  /** Within one closed piece. */
  lemma PieceSlope(a1: real, a2: real, a3: real, s: real, p: real, x: real, y: real, b: real, rate: real)
    requires Coefficients(a1, a2, a3, s, p) && s <= b && rate == 3.0 * (a3 * (b * b))
    requires 0.0 < x < y <= b && (y <= p || (p <= x && y <= s) || s <= x)
    ensures Rises(CurvePower(a1, a2, a3, s, p, x), CurvePower(a1, a2, a3, s, p, y), rate, y - x)
  {
    assert a3 > 0.0 && a2 == a3 * s && 0.0 < p <= s by { assert Unfold(true); }
    SquareRate(a2, a3, s, b, rate);
    if y <= p {
      LowSlope(a1, a2, a3, s, p, x, y, b, rate);
    } else if s <= x {
      HighSlope(a1, a2, a3, s, p, x, y, b, rate);
    } else {
      MiddleSlope(a1, a2, a3, s, p, x, y, b, rate);
    }
  }

  lemma UpperSlope(a1: real, a2: real, a3: real, s: real, p: real, x: real, y: real, b: real, rate: real)
    requires Coefficients(a1, a2, a3, s, p) && 0.0 < p <= x < y <= b && s <= b && rate == 3.0 * (a3 * (b * b))
    ensures Rises(CurvePower(a1, a2, a3, s, p, x), CurvePower(a1, a2, a3, s, p, y), rate, y - x)
  {
    if x < s < y {
      PieceSlope(a1, a2, a3, s, p, x, s, b, rate);
      PieceSlope(a1, a2, a3, s, p, s, y, b, rate);
      Telescope(rate, x, s, y, CurvePower(a1, a2, a3, s, p, x), CurvePower(a1, a2, a3, s, p, s), CurvePower(a1, a2, a3, s, p, y));
    } else {
      PieceSlope(a1, a2, a3, s, p, x, y, b, rate);
    }
  }

  /** Between any two frequencies the curve rises, at most at the cubic piece's steepest rate. */
  lemma CurveSlope(a1: real, a2: real, a3: real, s: real, p: real, x: real, y: real, b: real, rate: real)
    requires Coefficients(a1, a2, a3, s, p) && 0.0 < x < y <= b && 0.0 < p && s <= b && rate == 3.0 * (a3 * (b * b))
    ensures Rises(CurvePower(a1, a2, a3, s, p, x), CurvePower(a1, a2, a3, s, p, y), rate, y - x)
  {
    if x < p < y {
      PieceSlope(a1, a2, a3, s, p, x, p, b, rate);
      UpperSlope(a1, a2, a3, s, p, p, y, b, rate);
      Telescope(rate, x, p, y, CurvePower(a1, a2, a3, s, p, x), CurvePower(a1, a2, a3, s, p, p), CurvePower(a1, a2, a3, s, p, y));
    } else if y <= p {
      PieceSlope(a1, a2, a3, s, p, x, y, b, rate);
    } else {
      UpperSlope(a1, a2, a3, s, p, x, y, b, rate);
    }
  }

  /**
   The reference curve rises strictly, and on every bounded interval at a bounded rate, so it is continuous across
   its pieces.
   */
  lemma CurveRisesContinuously(c: Curve, x: real, y: real, bound: real)
    requires ValidCurve(c) && 0.0 < x < y <= bound && c.sweet as real <= bound
    ensures 0.0 < PowerAt(c, y) - PowerAt(c, x) <= 3.0 * (A3(c) * (bound * bound)) * (y - x)
  {
    CurveCoefficients(c);
    var rate := 3.0 * (A3(c) * (bound * bound));
    CurveSlope(A1(c), A2(c), A3(c), c.sweet as real, c.plain as real, x, y, bound, rate);
    UnfoldRise(PowerAt(c, x), PowerAt(c, y), rate, y - x);
  }

  /** The calibration point. */
  lemma TypicalPower(c: Curve)
    requires ValidCurve(c)
    ensures PowerAt(c, c.typical as real) == c.typicalPower as real
  {
    var s, p, t := c.sweet as real, c.plain as real, c.typical as real;
    CurveCoefficients(c);
    PiecesMeet(A1(c), A2(c), A3(c), s, p);
    assert A3(c) * Cube(t) == c.typicalPower as real;
  }

  /** Power divided by frequency. */
  function PerHz(a1: real, a2: real, a3: real, s: real, p: real, x: real): real {
    if x <= p then a1 else if x <= s then a2 * x else a3 * (x * x)
  }

  lemma DivOut(k: real, x: real)
    requires x != 0.0
    ensures k * x / x == k
  {
  }

  lemma PerHertz(a1: real, a2: real, a3: real, s: real, p: real, x: real)
    requires x > 0.0
    ensures CurvePower(a1, a2, a3, s, p, x) / x == PerHz(a1, a2, a3, s, p, x)
  {
    Associates(a2, x, x);
    Associates(a3, x * x, x);
    DivOut(PerHz(a1, a2, a3, s, p, x), x);
  }

  lemma PerHzRises(a1: real, a2: real, a3: real, s: real, p: real, x: real, y: real)
    requires Coefficients(a1, a2, a3, s, p) && 0.0 < x <= y
    ensures PerHz(a1, a2, a3, s, p, x) <= PerHz(a1, a2, a3, s, p, y)
  {
    assert Unfold(true);
    ProductPositive(a3, s);
    if y > p { MulUp(if x <= p then p else x, y, a2); }
    if y > s {
      MulUp(s, y, y);
      MulUp(s * y, y * y, a3);
      Associates(a3, s, y);
      if x > s {
        MulUp(x, y, x);
        MulUp(x, y, y);
        MulUp(x * x, y * y, a3);
      }
    }
  }

  /** Power per hertz, and so cost per performance, never falls along the curve. */
  lemma CostNeverFalls(c: Curve, x: real, y: real)
    requires ValidCurve(c) && 0.0 < x <= y
    ensures PowerAt(c, x) / x <= PowerAt(c, y) / y
  {
    CurveCoefficients(c);
    PerHertz(A1(c), A2(c), A3(c), c.sweet as real, c.plain as real, x);
    PerHertz(A1(c), A2(c), A3(c), c.sweet as real, c.plain as real, y);
    PerHzRises(A1(c), A2(c), A3(c), c.sweet as real, c.plain as real, x, y);
  }

  // ------------------------------------------------------------------ expansion

  /** Performance per hertz. */
  function Scale(c: Curve): (k: real)
    ensures c.relativePerformance > 0 ==> k > 0.0
  {
    c.relativePerformance as real / 100.0
  }

  /** The model point of the reference curve at one OPP. */
  function CurveOpp(c: Curve, f: nat): EnergyOpp
    requires ValidCurve(c)
  {
    EnergyOpp(f, f as real * (Scale(c)), PowerAt(c, f as real))
  }

  function CurveOpps(c: Curve, table: seq<nat>): seq<EnergyOpp>
    requires ValidCurve(c)
  {
    seq(|table|, i requires 0 <= i < |table| => CurveOpp(c, table[i]))
  }

  lemma CurveOppsRise(c: Curve, table: seq<nat>)
    requires ValidCurve(c) && StrictlyIncreasing(table) && forall i :: 0 <= i < |table| ==> table[i] > 0
    ensures RisingTable(CurveOpps(c, table)) && Frequencies(CurveOpps(c, table)) == table
  {
    var opps := CurveOpps(c, table);
    forall i, j | 0 <= i < j < |opps| ensures opps[i].frequency < opps[j].frequency && opps[i].power <= opps[j].power {
      CurvePowersRise(c, table[i], table[j]);
    }
    forall i | 0 <= i < |opps| ensures opps[i].performance > 0.0 {
      ProductPositive(table[i] as real, Scale(c));
    }
    forall i | 0 <= i < |table| ensures Frequencies(opps)[i] == table[i] {}
  }

  lemma CurvePowersRise(c: Curve, x: nat, y: nat)
    requires ValidCurve(c) && 0 < x < y
    ensures CurveOpp(c, x).power < CurveOpp(c, y).power
  {
    CurveRisesContinuously(c, x as real, y as real, if y >= c.sweet then y as real else c.sweet as real);
  }

  /** The cost per performance never falls from one OPP of the curve to the next. */
  lemma CurveCostsRise(c: Curve, x: nat, y: nat)
    requires ValidCurve(c) && 0 < x <= y
    ensures CurveOpp(c, x).performance > 0.0 && CurveOpp(c, y).performance > 0.0
    ensures Cost(CurveOpp(c, x)) <= Cost(CurveOpp(c, y))
  {
    CostPerHertz(c, x);
    CostPerHertz(c, y);
    CostNeverFalls(c, x as real, y as real);
    ScaleUp(PowerAt(c, x as real) / x as real, PowerAt(c, y as real) / y as real, Scale(c));
  }

  lemma ScaleUp(a: real, b: real, k: real)
    requires a <= b && k > 0.0
    ensures a * (1.0 / k) <= b * (1.0 / k)
  {
    MulUp(a, b, 1.0 / k);
  }

  /** The cost of an OPP is its power per hertz over the performance per hertz. */
  lemma CostPerHertz(c: Curve, x: nat)
    requires ValidCurve(c) && x > 0
    ensures CurveOpp(c, x).performance > 0.0 && Cost(CurveOpp(c, x)) == PowerAt(c, x as real) / x as real * (1.0 / Scale(c))
  {
    CostOverScale(PowerAt(c, x as real), x as real, Scale(c), CurveOpp(c, x));
  }

  lemma CostOverScale(power: real, x: real, k: real, o: EnergyOpp)
    requires x > 0.0 && k > 0.0 && o.power == power && o.performance == x * k
    ensures o.performance > 0.0 && Cost(o) == power / x * (1.0 / k)
  {
    ProductPositive(x, k);
    DivByProduct(power, x, k);
  }

  lemma DivByProduct(n: real, x: real, k: real)
    requires x > 0.0 && k > 0.0
    ensures x * k != 0.0 && n / (x * k) == n / x * (1.0 / k)
  {
    ProductPositive(x, k);
    var q, r := n / x, 1.0 / k;
    assert q * x == n && r * k == 1.0;
    assert q * r * (x * k) == (q * x) * (r * k);
    DivOut(q * r, x * k);
  }

  /** `EnergyModel::from_config` for a validated reference curve. */
  method ExpandReference(c: Curve, available: seq<nat>) returns (r: Result<Model>)
    requires c.free > 0 && forall i :: 0 <= i < |available| ==> available[i] > 0
    ensures r.Ok? <==> |SortDedup(available)| >= 2 && c.relativePerformance > 0 && c.typicalPower > 0 && c.free <= c.plain <= c.sweet <= c.typical
    ensures r.Ok? ==>
              && ValidCurve(c) && WellBuilt(r.value) && r.value.opps == CurveOpps(c, SortDedup(available))
              && |r.value.control| <= 9 && r.value.control[0].frequency == r.value.free
              && HasFrequency(r.value.control, r.value.plain) && HasFrequency(r.value.control, r.value.sweet)
              && r.value.free <= r.value.plain <= r.value.sweet
              && r.value.free == SnapNearest(SortDedup(available), c.free) && r.value.plain == SnapNearest(SortDedup(available), c.plain)
              && r.value.sweet == SnapNearest(SortDedup(available), c.sweet)
  {
    var table := SortDedup(available);
    SortDedupCorrect(available);
    if |table| < 2 { return Err("insufficient OPPs"); }
    if c.relativePerformance == 0 { return Err("relative_performance"); }
    if c.typicalPower == 0 { return Err("typical_power_mw_per_core"); }
    if !(c.free <= c.plain <= c.sweet <= c.typical) { return Err("curve ordering"); }
    forall i | 0 <= i < |table| ensures table[i] > 0 { assert table[i] in available; }
    var model := BuildReference(c, table);
    r := Ok(model);
  }

  /** The model of a valid curve over a sorted table. */
  method BuildReference(c: Curve, table: seq<nat>) returns (m: Model)
    requires ValidCurve(c) && |table| >= 2 && StrictlyIncreasing(table) && forall i :: 0 <= i < |table| ==> table[i] > 0
    ensures WellBuilt(m) && m.opps == CurveOpps(c, table)
    ensures |m.control| <= 9 && m.control[0].frequency == m.free && HasFrequency(m.control, m.plain) && HasFrequency(m.control, m.sweet)
    ensures m.free <= m.plain <= m.sweet
    ensures m.free == SnapNearest(table, c.free) && m.plain == SnapNearest(table, c.plain) && m.sweet == SnapNearest(table, c.sweet)
  {
    var opps := CurveOpps(c, table);
    CurveOppsRise(c, table);
    m := Assemble(table, opps, Scale(c), c.free, c.plain, c.sweet);
  }

  /** Snap the three calibration frequencies onto a rising table and select its control OPPs. */
  method Assemble(table: seq<nat>, opps: seq<EnergyOpp>, scale: real, free: nat, plain: nat, sweet: nat) returns (m: Model)
    requires |opps| >= 2 && RisingTable(opps) && Frequencies(opps) == table && free <= plain <= sweet
    ensures WellBuilt(m) && m.opps == opps && m.performancePerHz == scale
    ensures |m.control| <= 9 && m.control[0].frequency == m.free && HasFrequency(m.control, m.plain) && HasFrequency(m.control, m.sweet)
    ensures m.free <= m.plain <= m.sweet
    ensures m.free == SnapNearest(table, free) && m.plain == SnapNearest(table, plain) && m.sweet == SnapNearest(table, sweet)
  {
    var f, p, s := SnapNearest(table, free), SnapNearest(table, plain), SnapNearest(table, sweet);
    SnapMonotone(table, free, plain);
    SnapMonotone(table, plain, sweet);
    SnapInTable(opps, free);
    SnapInTable(opps, plain);
    SnapInTable(opps, sweet);
    var control := SparseControl(opps, f, p, s);
    m := Model(opps, control, scale, f, s, p);
  }

  lemma SnapInTable(opps: seq<EnergyOpp>, f: nat)
    requires opps != []
    ensures HasFrequency(opps, SnapNearest(Frequencies(opps), f))
  {
    var table := Frequencies(opps);
    SnapIsNearest(table, f);
    var i :| 0 <= i < |table| && table[i] == SnapNearest(table, f);
    assert opps[i].frequency == table[i];
  }

  datatype Point = Point(capacity: nat, power: nat)

  /** What `validate_energy_model` requires of a measured table, keyed by frequency. */
  predicate ValidPoints(points: map<nat, Point>) {
    && (forall f :: f in points ==> f > 0 && points[f].capacity > 0 && points[f].power > 0)
    && (forall f, g :: f in points && g in points && f < g ==> points[f].capacity <= points[g].capacity && points[f].power <= points[g].power)
  }

  /** `EnergyModel::from_config` for a measured table: every OPP needs its own point, and all of them are control OPPs. */
  method ExpandMeasured(points: map<nat, Point>, available: seq<nat>) returns (r: Result<Model>)
    requires ValidPoints(points)
    ensures r.Ok? <==> |SortDedup(available)| >= 2 && forall f :: f in available ==> f in points
    ensures r.Ok? ==>
              && WellBuilt(r.value) && Frequencies(r.value.opps) == SortDedup(available) && r.value.control == r.value.opps
              && r.value.plain == r.value.sweet == r.value.free
              && (exists k :: 0 <= k < |r.value.opps| && r.value.opps[k].frequency == r.value.free
                              && forall i :: 0 <= i < |r.value.opps| ==> Cost(r.value.opps[k]) <= Cost(r.value.opps[i]))
  {
    var table := SortDedup(available);
    SortDedupCorrect(available);
    if |table| < 2 { return Err("insufficient OPPs"); }
    var measured := MeasuredOpps(points, table);
    if measured.None? {
      assert forall i :: 0 <= i < |table| ==> table[i] in available;
      return Err("missing measured OPP");
    }
    var opps := measured.value;
    forall f | f in available ensures f in points {
      assert f in table;
      var i :| 0 <= i < |table| && table[i] == f;
    }
    var best := Cheapest(opps);
    var free := opps[best].frequency;
    var last := opps[|opps| - 1];
    assert HasFrequency(opps, free);
    r := Ok(Model(opps, opps, last.performance / last.frequency as real, free, free, free));
  }

  /** The measured point of every table entry, unless one is missing. */
  method MeasuredOpps(points: map<nat, Point>, table: seq<nat>) returns (r: Option<seq<EnergyOpp>>)
    requires ValidPoints(points) && StrictlyIncreasing(table)
    ensures r.Some? <==> forall i :: 0 <= i < |table| ==> table[i] in points
    ensures r.Some? ==> RisingTable(r.value) && Frequencies(r.value) == table && (forall i :: 0 <= i < |r.value| ==> r.value[i].frequency > 0)
  {
    var opps: seq<EnergyOpp> := [];
    for k := 0 to |table|
      invariant |opps| == k
      invariant forall i :: 0 <= i < k ==> table[i] in points
                                           && opps[i] == EnergyOpp(table[i], points[table[i]].capacity as real, points[table[i]].power as real)
    {
      if table[k] !in points { return None; }
      opps := opps + [EnergyOpp(table[k], points[table[k]].capacity as real, points[table[k]].power as real)];
    }
    assert Frequencies(opps) == table;
    r := Some(opps);
  }

  /** The first OPP of least cost. */
  method Cheapest(opps: seq<EnergyOpp>) returns (best: nat)
    requires opps != [] && forall i :: 0 <= i < |opps| ==> opps[i].performance > 0.0
    ensures best < |opps| && forall i :: 0 <= i < |opps| ==> Cost(opps[best]) <= Cost(opps[i])
  {
    best := 0;
    for k := 1 to |opps|
      invariant best < |opps| && forall i :: 0 <= i < k ==> Cost(opps[best]) <= Cost(opps[i])
    {
      if Cost(opps[k]) < Cost(opps[best]) { best := k; }
    }
  }
}
