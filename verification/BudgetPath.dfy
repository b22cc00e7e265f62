/**
 The package power cap: a global path of control-OPP transitions ordered by energy cost, and a cursor that lowers or
 raises one cluster's cap per cycle. All caps together are one integer: a boundary on the path.
 */
module BudgetPath {
  import opened Common
  import opened EnergyModel

  datatype Cluster = Cluster(model: Model, cores: nat)

  datatype Step = Step(key: real, cluster: nat, lower: nat, upper: nat)

  /** `reference_nr_cost_penalty`. */
  function Penalty(cores: nat): real {
    var p := 1.0 + 0.1 * (cores as real - 1.0);
    if p < 1.0 then 1.0 else if p > 1.2 then 1.2 else p
  }

  /** The first control OPP at or above a frequency, or the last one. */
  function FirstControl(control: seq<EnergyOpp>, plain: nat): nat
    requires control != []
    ensures FirstControl(control, plain) < |control|
  {
    if |control| == 1 || control[0].frequency >= plain then 0 else 1 + FirstControl(control[1..], plain)
  }

  function First(c: Cluster): nat
    requires c.model.control != []
  {
    FirstControl(c.model.control, c.model.plain)
  }

  /** Cluster `c` has a transition from its control OPP `k` to the next. */
  predicate HasStep(clusters: seq<Cluster>, c: nat, k: nat) {
    c < |clusters| && clusters[c].model.control != [] && First(clusters[c]) <= k && k + 1 < |clusters[c].model.control|
  }

  function StepAt(clusters: seq<Cluster>, c: nat, k: nat): Step
    requires HasStep(clusters, c, k)
  {
    var control := clusters[c].model.control;
    Step(control[k].power * Penalty(clusters[c].cores), c, control[k].frequency, control[k + 1].frequency)
  }

  predicate RisingClusters(clusters: seq<Cluster>) {
    forall c :: 0 <= c < |clusters| ==> clusters[c].model.control != [] && RisingTable(clusters[c].model.control)
  }

  // ------------------------------------------------------------------- the order

  /** Cost first, then cluster, then frequency. */
  predicate Before(a: Step, b: Step) {
    a.key < b.key || (a.key == b.key && (a.cluster < b.cluster || (a.cluster == b.cluster && a.lower < b.lower)))
  }

  predicate Ordered(path: seq<Step>) { forall i, j :: 0 <= i < j < |path| ==> Before(path[i], path[j]) }

  function Insert(s: Step, path: seq<Step>): seq<Step> {
    if path == [] then [s] else if Before(s, path[0]) then [s] + path else [path[0]] + Insert(s, path[1..])
  }

  lemma {:induction false} InsertOrdered(s: Step, path: seq<Step>)
    requires Ordered(path) && forall i :: 0 <= i < |path| ==> Before(s, path[i]) || Before(path[i], s)
    ensures Ordered(Insert(s, path)) && forall t :: t in Insert(s, path) <==> t == s || t in path
  {
    if path != [] && !Before(s, path[0]) {
      InsertOrdered(s, path[1..]);
      var rest := Insert(s, path[1..]);
      assert forall i :: 0 <= i < |rest| ==> rest[i] in rest;
      assert forall t :: t in path <==> t == path[0] || t in path[1..];
    } else if path != [] {
      assert forall t :: t in path ==> exists i :: 0 <= i < |path| && path[i] == t;
    }
  }

  lemma PenaltyPositive(cores: nat)
    ensures Penalty(cores) >= 1.0
  {
  }

  /** Within one cluster, costlier and faster go together. */
  lemma LaterStepsCostMore(clusters: seq<Cluster>, c: nat, k: nat, l: nat)
    requires RisingClusters(clusters) && HasStep(clusters, c, k) && HasStep(clusters, c, l) && k < l
    ensures Before(StepAt(clusters, c, k), StepAt(clusters, c, l))
  {
    var control, penalty := clusters[c].model.control, Penalty(clusters[c].cores);
    assert control[k].frequency < control[l].frequency && control[k].power <= control[l].power;
    PenaltyPositive(clusters[c].cores);
    MulUp(control[k].power, control[l].power, penalty);
  }

  /** Two different transitions are ordered one way or the other. */
  lemma StepsCompare(clusters: seq<Cluster>, c: nat, k: nat, d: nat, l: nat)
    requires RisingClusters(clusters) && HasStep(clusters, c, k) && HasStep(clusters, d, l) && (c != d || k != l)
    ensures Before(StepAt(clusters, c, k), StepAt(clusters, d, l)) || Before(StepAt(clusters, d, l), StepAt(clusters, c, k))
    ensures c == d && k < l ==> Before(StepAt(clusters, c, k), StepAt(clusters, d, l))
  {
    if c == d && k < l {
      LaterStepsCostMore(clusters, c, k, l);
    } else if c == d {
      LaterStepsCostMore(clusters, c, l, k);
    } else {
      Trichotomy(StepAt(clusters, c, k), StepAt(clusters, d, l));
    }
  }

  lemma Trichotomy(a: Step, b: Step)
    requires a.cluster != b.cluster
    ensures Before(a, b) || Before(b, a)
  {
  }

  /** The path holds exactly the transitions of every cluster, in order. */
  ghost predicate PathFor(clusters: seq<Cluster>, path: seq<Step>) {
    && Ordered(path)
    && (forall i :: 0 <= i < |path| ==> IsStep(clusters, path[i]))
    && (forall c: nat, k: nat :: HasStep(clusters, c, k) ==> StepAt(clusters, c, k) in path)
  }

  ghost predicate IsStep(clusters: seq<Cluster>, s: Step) {
    exists k: nat :: HasStep(clusters, s.cluster, k) && s == StepAt(clusters, s.cluster, k)
  }

  /** Building the path: the transitions of the first `c` clusters, and of cluster `c` below `k`. */
  ghost predicate PartialPath(clusters: seq<Cluster>, path: seq<Step>, c: nat, k: nat) {
    && Ordered(path)
    && (forall i :: 0 <= i < |path| ==> IsStep(clusters, path[i]))
    && (forall d: nat, l: nat :: HasStep(clusters, d, l) ==> (StepAt(clusters, d, l) in path <==> d < c || (d == c && l < k)))
  }

  lemma PartialGrows(clusters: seq<Cluster>, path: seq<Step>, c: nat, k: nat)
    requires RisingClusters(clusters) && PartialPath(clusters, path, c, k) && HasStep(clusters, c, k)
    ensures PartialPath(clusters, Insert(StepAt(clusters, c, k), path), c, k + 1)
  {
    var s := StepAt(clusters, c, k);
    forall i | 0 <= i < |path| ensures Before(s, path[i]) || Before(path[i], s) {
      assert IsStep(clusters, path[i]);
      var l: nat :| HasStep(clusters, path[i].cluster, l) && path[i] == StepAt(clusters, path[i].cluster, l);
      assert path[i] in path;
      StepsCompare(clusters, c, k, path[i].cluster, l);
    }
    InsertOrdered(s, path);
    var more := Insert(s, path);
    assert IsStep(clusters, s);
    forall i | 0 <= i < |more| ensures IsStep(clusters, more[i]) { assert more[i] in more; }
    forall d: nat, l: nat | HasStep(clusters, d, l)
      ensures StepAt(clusters, d, l) in more <==> d < c || (d == c && l < k + 1)
    {
      if !(d == c && l == k) { StepsCompare(clusters, c, k, d, l); }
    }
  }

  /** `reference_budget_path`. */
  method BuildPath(clusters: seq<Cluster>) returns (path: seq<Step>)
    requires RisingClusters(clusters)
    ensures PathFor(clusters, path)
  {
    path := [];
    for c := 0 to |clusters|
      invariant PartialPath(clusters, path, c, 0)
    {
      var control := clusters[c].model.control;
      var k := First(clusters[c]);
      assert PartialPath(clusters, path, c, k);
      while k + 1 < |control|
        invariant First(clusters[c]) <= k < |control|
        invariant PartialPath(clusters, path, c, k)
      {
        PartialGrows(clusters, path, c, k);
        path := Insert(StepAt(clusters, c, k), path);
        k := k + 1;
      }
    }
  }

  // ---------------------------------------------------------------- caps as a boundary

  function Top(clusters: seq<Cluster>, c: nat): nat
    requires c < |clusters| && clusters[c].model.control != []
  {
    clusters[c].model.control[|clusters[c].model.control| - 1].frequency
  }

  /** The cap of cluster `c` when the path is cut at `b`: the lower OPP of its next step, or its top. */
  function CapAt(clusters: seq<Cluster>, path: seq<Step>, b: nat, c: nat): nat
    requires c < |clusters| && clusters[c].model.control != []
    decreases |path| - b
  {
    if b >= |path| then Top(clusters, c)
    else if path[b].cluster == c then path[b].lower
    else CapAt(clusters, path, b + 1, c)
  }

  /** Where `CapAt` looks: the cluster's next step ... */
  lemma {:induction false} CapAtNext(clusters: seq<Cluster>, path: seq<Step>, b: nat, j: nat)
    requires b <= j < |path| && path[j].cluster < |clusters| && clusters[path[j].cluster].model.control != []
    requires forall n :: b <= n < j ==> path[n].cluster != path[j].cluster
    ensures CapAt(clusters, path, b, path[j].cluster) == path[j].lower
    decreases j - b
  {
    if b < j { CapAtNext(clusters, path, b + 1, j); }
  }

  /** ... or its top, when there is none. */
  lemma {:induction false} CapAtNone(clusters: seq<Cluster>, path: seq<Step>, b: nat, c: nat)
    requires c < |clusters| && clusters[c].model.control != []
    requires forall n :: b <= n < |path| ==> path[n].cluster != c
    ensures CapAt(clusters, path, b, c) == Top(clusters, c)
    decreases |path| - b
  {
    if b < |path| { CapAtNone(clusters, path, b + 1, c); }
  }

  /** The upper end of a step is the lower end of its cluster's next one, or the top. */
  lemma {:induction false} UpperIsNext(clusters: seq<Cluster>, path: seq<Step>, i: nat)
    requires RisingClusters(clusters) && PathFor(clusters, path) && i < |path|
    ensures path[i].cluster < |clusters| && CapAt(clusters, path, i + 1, path[i].cluster) == path[i].upper
  {
    assert IsStep(clusters, path[i]);
    var c := path[i].cluster;
    var k: nat :| HasStep(clusters, c, k) && path[i] == StepAt(clusters, c, k);
    if HasStep(clusters, c, k + 1) {
      var m := FollowingStep(clusters, path, i, k);
      CapAtNext(clusters, path, i + 1, m);
    } else {
      NoLaterStep(clusters, path, i, k);
      CapAtNone(clusters, path, i + 1, c);
    }
  }

  /** The transition after a cluster's `k`-th one is its next on the path. */
  lemma {:induction false} FollowingStep(clusters: seq<Cluster>, path: seq<Step>, i: nat, k: nat) returns (m: nat)
    requires RisingClusters(clusters) && PathFor(clusters, path) && i < |path|
    requires var c := path[i].cluster; HasStep(clusters, c, k) && HasStep(clusters, c, k + 1) && path[i] == StepAt(clusters, c, k)
    ensures i < m < |path| && path[m] == StepAt(clusters, path[i].cluster, k + 1)
    ensures forall n :: i < n < m ==> path[n].cluster != path[i].cluster
  {
    var c := path[i].cluster;
    assert StepAt(clusters, c, k + 1) in path;
    m :| 0 <= m < |path| && path[m] == StepAt(clusters, c, k + 1);
    Positions(clusters, path, i, m, c, k, k + 1);
    forall n | i < n < m ensures path[n].cluster != c {
      assert IsStep(clusters, path[n]);
      if path[n].cluster == c {
        var l: nat :| HasStep(clusters, c, l) && path[n] == StepAt(clusters, c, l);
        Positions(clusters, path, i, n, c, k, l);
        Positions(clusters, path, n, m, c, l, k + 1);
      }
    }
  }

  lemma Asymmetric(a: Step, b: Step)
    requires Before(a, b)
    ensures !Before(b, a) && a != b
  {
  }

  /** A cluster's transitions lie on the path in their own order. */
  lemma Positions(clusters: seq<Cluster>, path: seq<Step>, i: nat, j: nat, c: nat, k: nat, l: nat)
    requires RisingClusters(clusters) && Ordered(path) && i < |path| && j < |path| && HasStep(clusters, c, k) && HasStep(clusters, c, l)
    requires path[i] == StepAt(clusters, c, k) && path[j] == StepAt(clusters, c, l)
    ensures k < l <==> i < j
  {
    if k < l {
      LaterStepsCostMore(clusters, c, k, l);
      Asymmetric(path[i], path[j]);
    } else if l < k {
      LaterStepsCostMore(clusters, c, l, k);
      Asymmetric(path[j], path[i]);
    } else if i < j {
      Asymmetric(path[i], path[j]);
    }
  }

  lemma {:induction false} NoLaterStep(clusters: seq<Cluster>, path: seq<Step>, i: nat, k: nat)
    requires RisingClusters(clusters) && PathFor(clusters, path) && i < |path|
    requires var c := path[i].cluster; HasStep(clusters, c, k) && path[i] == StepAt(clusters, c, k) && !HasStep(clusters, c, k + 1)
    ensures forall j :: i < j < |path| ==> path[j].cluster != path[i].cluster
  {
    var c := path[i].cluster;
    forall j | i < j < |path| ensures path[j].cluster != c {
      assert IsStep(clusters, path[j]);
      if path[j].cluster == c {
        var l: nat :| HasStep(clusters, c, l) && path[j] == StepAt(clusters, c, l);
        Positions(clusters, path, i, j, c, k, l);
      }
    }
  }

  // ------------------------------------------------------------------- the cursor

  /** The part of the governor state the feedback loop moves. */
  datatype BudgetState = BudgetState(caps: seq<Option<nat>>, cursor: Option<nat>, pathLength: nat)

  /** Every cap is where boundary `b` puts it, and the cursor is at the boundary or just below it. */
  ghost predicate AtBoundary(clusters: seq<Cluster>, path: seq<Step>, s: BudgetState, b: nat)
    requires RisingClusters(clusters)
  {
    && s.pathLength == |path| && |s.caps| == |clusters|
    && s.cursor.Some? && s.cursor.value < |path| && (b == s.cursor.value || b == s.cursor.value + 1)
    && (forall c :: 0 <= c < |clusters| ==> s.caps[c] == Some(CapAt(clusters, path, b, c)))
  }

  /** Where the feedback stands before an adjustment: a path of a new length restarts it from the top. */
  ghost function Started(clusters: seq<Cluster>, path: seq<Step>, s: BudgetState): (t: BudgetState)
    requires RisingClusters(clusters) && |s.caps| == |clusters|
    ensures t.pathLength == |path| && |t.caps| == |clusters|
  {
    if s.pathLength == |path| then s
    else BudgetState(seq(|clusters|, c requires 0 <= c < |clusters| => Some(Top(clusters, c))), if path == [] then None else Some(|path| - 1), |path|)
  }

  method InitBudget(clusters: seq<Cluster>, path: seq<Step>, s: BudgetState) returns (t: BudgetState)
    requires RisingClusters(clusters) && |s.caps| == |clusters|
    ensures s.pathLength == |path| ==> t == s
    ensures s.pathLength != |path| && path != [] ==> AtBoundary(clusters, path, t, |path|)
    ensures t == Started(clusters, path, s)
  {
    t := s;
    if s.pathLength != |path| {
      var caps: seq<Option<nat>> := seq(|clusters|, c requires 0 <= c < |clusters| => Some(Top(clusters, c)));
      t := BudgetState(caps, if path == [] then None else Some(|path| - 1), |path|);
    }
  }

  predicate Over(power: real, limit: real) { power > limit * 1.1 }

  predicate Under(power: real, limit: real) { !Over(power, limit) && power < limit * 0.9 }

  /** `adjust_reference_budget_cap`. */
  method AdjustBudgetCap(s: BudgetState, path: seq<Step>, power: real, limit: real) returns (t: BudgetState)
    requires forall i :: 0 <= i < |path| ==> path[i].cluster < |s.caps|
    ensures t == Adjusted(s, path, power, limit)
  {
    t := s;
    if s.cursor.None? { return; }
    var cursor := s.cursor.value;
    if cursor >= |path| { return; }
    var step := path[cursor];
    if power > limit * 1.1 {
      t := t.(caps := t.caps[step.cluster := Some(step.lower)]);
      if cursor > 0 { t := t.(cursor := Some(cursor - 1)); }
    } else if power < limit * 0.9 {
      t := t.(caps := t.caps[step.cluster := Some(step.upper)]);
      if cursor + 1 < |path| { t := t.(cursor := Some(cursor + 1)); }
    }
  }

  ghost function Adjusted(s: BudgetState, path: seq<Step>, power: real, limit: real): BudgetState
    requires forall i :: 0 <= i < |path| ==> path[i].cluster < |s.caps|
  {
    if s.cursor.None? || s.cursor.value >= |path| then s
    else
      var i := s.cursor.value;
      if Over(power, limit) then
        s.(caps := s.caps[path[i].cluster := Some(path[i].lower)], cursor := Some(if i > 0 then i - 1 else 0))
      else if Under(power, limit) then
        s.(caps := s.caps[path[i].cluster := Some(path[i].upper)], cursor := Some(if i + 1 < |path| then i + 1 else i))
      else s
  }

  lemma {:induction false} PathInRange(clusters: seq<Cluster>, path: seq<Step>)
    requires PathFor(clusters, path)
    ensures forall i :: 0 <= i < |path| ==> path[i].cluster < |clusters|
  {
    forall i | 0 <= i < |path| ensures path[i].cluster < |clusters| { assert IsStep(clusters, path[i]); }
  }

  /**
   One cycle moves the boundary by at most one: to the cursor when over budget, just past it when under, and not at
   all in between.
   */
  lemma {:induction false} AdjustMovesBoundary(clusters: seq<Cluster>, path: seq<Step>, s: BudgetState, b: nat, power: real, limit: real)
    requires RisingClusters(clusters) && PathFor(clusters, path) && AtBoundary(clusters, path, s, b)
    ensures forall i :: 0 <= i < |path| ==> path[i].cluster < |s.caps|
    ensures
      var next := if Over(power, limit) then s.cursor.value else if Under(power, limit) then s.cursor.value + 1 else b;
      AtBoundary(clusters, path, Adjusted(s, path, power, limit), next) && b - 1 <= next <= b + 1
  {
    PathInRange(clusters, path);
    var i := s.cursor.value;
    UpperIsNext(clusters, path, i);
    forall c | 0 <= c < |clusters|
      ensures path[i].cluster != c ==> CapAt(clusters, path, i, c) == CapAt(clusters, path, i + 1, c)
      ensures path[i].cluster == c ==> CapAt(clusters, path, i, c) == path[i].lower
    {
    }
  }

  // ---------------------------------------------------------------- sustained pressure

  datatype Cycle = Cycle(power: real, limit: real)

  /** Repeated cycles. */
  ghost function Cycles(s: BudgetState, path: seq<Step>, cycles: seq<Cycle>): BudgetState
    requires forall i :: 0 <= i < |path| ==> path[i].cluster < |s.caps|
    ensures |Cycles(s, path, cycles).caps| == |s.caps|
    decreases |cycles|
  {
    if cycles == [] then s
    else Cycles(Adjusted(s, path, cycles[0].power, cycles[0].limit), path, cycles[1..])
  }

  /** Sustained over-budget power brings every cap to its cluster's bottom within as many cycles as the path is long. */
  lemma {:induction false} SustainedOverload(clusters: seq<Cluster>, path: seq<Step>, s: BudgetState, b: nat, cycles: seq<Cycle>)
    requires RisingClusters(clusters) && PathFor(clusters, path) && AtBoundary(clusters, path, s, b)
    requires forall i :: 0 <= i < |cycles| ==> Over(cycles[i].power, cycles[i].limit)
    requires b == 0 || |cycles| > s.cursor.value
    ensures forall i :: 0 <= i < |path| ==> path[i].cluster < |s.caps|
    ensures AtBoundary(clusters, path, Cycles(s, path, cycles), 0)
    decreases |cycles|
  {
    PathInRange(clusters, path);
    if cycles != [] {
      AdjustMovesBoundary(clusters, path, s, b, cycles[0].power, cycles[0].limit);
      SustainedOverload(clusters, path, Adjusted(s, path, cycles[0].power, cycles[0].limit), s.cursor.value, cycles[1..]);
    }
  }

  /** Sustained under-budget power brings every cap to its cluster's top as fast. */
  lemma {:induction false} SustainedHeadroom(clusters: seq<Cluster>, path: seq<Step>, s: BudgetState, b: nat, cycles: seq<Cycle>)
    requires RisingClusters(clusters) && PathFor(clusters, path) && AtBoundary(clusters, path, s, b)
    requires forall i :: 0 <= i < |cycles| ==> Under(cycles[i].power, cycles[i].limit)
    requires b == |path| || |cycles| >= |path| - s.cursor.value
    ensures forall i :: 0 <= i < |path| ==> path[i].cluster < |s.caps|
    ensures AtBoundary(clusters, path, Cycles(s, path, cycles), |path|)
    decreases |cycles|
  {
    PathInRange(clusters, path);
    if cycles != [] {
      AdjustMovesBoundary(clusters, path, s, b, cycles[0].power, cycles[0].limit);
      SustainedHeadroom(clusters, path, Adjusted(s, path, cycles[0].power, cycles[0].limit), s.cursor.value + 1, cycles[1..]);
    }
  }

  /** At the bottom every cluster is capped at the first control OPP of its path, at the top at its last. */
  lemma {:induction false} BoundaryEnds(clusters: seq<Cluster>, path: seq<Step>, c: nat)
    requires RisingClusters(clusters) && PathFor(clusters, path) && c < |clusters|
    ensures CapAt(clusters, path, 0, c) == clusters[c].model.control[First(clusters[c])].frequency
    ensures CapAt(clusters, path, |path|, c) == Top(clusters, c)
  {
    var k := First(clusters[c]);
    if HasStep(clusters, c, k) {
      var m := FirstOnPath(clusters, path, c, k);
      CapAtNext(clusters, path, 0, m);
    } else {
      forall n | 0 <= n < |path| ensures path[n].cluster != c { assert IsStep(clusters, path[n]); }
      CapAtNone(clusters, path, 0, c);
    }
  }

  lemma {:induction false} FirstOnPath(clusters: seq<Cluster>, path: seq<Step>, c: nat, k: nat) returns (m: nat)
    requires RisingClusters(clusters) && PathFor(clusters, path) && c < |clusters| && HasStep(clusters, c, k) && k == First(clusters[c])
    ensures m < |path| && path[m] == StepAt(clusters, c, k) && forall n :: 0 <= n < m ==> path[n].cluster != c
  {
    assert StepAt(clusters, c, k) in path;
    m :| 0 <= m < |path| && path[m] == StepAt(clusters, c, k);
    forall n | 0 <= n < m ensures path[n].cluster != c {
      assert IsStep(clusters, path[n]);
      if path[n].cluster == c {
        var l: nat :| HasStep(clusters, c, l) && path[n] == StepAt(clusters, c, l);
        Positions(clusters, path, n, m, c, l, k);
      }
    }
  }

  // ---------------------------------------------------------- one path per package

  /** The path is determined by the clusters. */
  lemma {:induction false} PathUnique(p: seq<Step>, q: seq<Step>)
    requires Ordered(p) && Ordered(q) && forall s :: s in p <==> s in q
    ensures p == q
    decreases |p|
  {
    assert |q| > 0 ==> q[0] in p;
    if p != [] {
      assert p[0] in p && p[0] in q;
      assert q[0] in q && q[0] in p;
      FirstIsLeast(p);
      FirstIsLeast(q);
      assert p[0] == q[0];
      forall s ensures s in p[1..] <==> s in q[1..] {
        RestOf(p, s);
        RestOf(q, s);
      }
      PathUnique(p[1..], q[1..]);
      assert p == [p[0]] + p[1..] && q == [q[0]] + q[1..];
    }
  }

  lemma FirstIsLeast(p: seq<Step>)
    requires Ordered(p) && p != []
    ensures forall s :: s in p ==> s == p[0] || Before(p[0], s)
  {
  }

  lemma RestOf(p: seq<Step>, s: Step)
    requires Ordered(p) && p != []
    ensures s in p[1..] <==> s in p && s != p[0]
  {
    if s in p[1..] {
      var i :| 0 <= i < |p[1..]| && p[1..][i] == s;
      assert Before(p[0], p[i + 1]);
    }
  }

  lemma {:induction false} PathsAgree(clusters: seq<Cluster>, p: seq<Step>, q: seq<Step>)
    requires PathFor(clusters, p) && PathFor(clusters, q)
    ensures p == q
  {
    forall s ensures s in p <==> s in q {
      if s in p {
        var i :| 0 <= i < |p| && p[i] == s;
        assert IsStep(clusters, p[i]);
      }
      if s in q {
        var i :| 0 <= i < |q| && q[i] == s;
        assert IsStep(clusters, q[i]);
      }
    }
    PathUnique(p, q);
  }

  ghost predicate OnBoundary(clusters: seq<Cluster>, path: seq<Step>, s: BudgetState)
    requires RisingClusters(clusters)
  {
    exists b: nat :: AtBoundary(clusters, path, s, b)
  }

  /** Not started, or on a boundary of the package's path (folded). */
  ghost predicate BudgetOk(clusters: seq<Cluster>, s: BudgetState)
    requires RisingClusters(clusters)
  {
    forall z {:trigger Unfold(z)} :: Unfold(z) ==>
      && |s.caps| == |clusters|
      && (|| (s.pathLength == 0 && s.cursor == None && forall c :: 0 <= c < |s.caps| ==> s.caps[c] == None)
          || (s.pathLength > 0 && forall path :: PathFor(clusters, path) ==> OnBoundary(clusters, path, s)))
  }

  /** Every cap in force is a control OPP of its cluster. */
  lemma {:induction false} CapIsControl(clusters: seq<Cluster>, path: seq<Step>, b: nat, c: nat)
    requires RisingClusters(clusters) && PathFor(clusters, path) && c < |clusters|
    ensures HasFrequency(clusters[c].model.control, CapAt(clusters, path, b, c))
    decreases |path| - b
  {
    var control := clusters[c].model.control;
    if b >= |path| {
      assert control[|control| - 1].frequency == Top(clusters, c);
    } else if path[b].cluster == c {
      assert IsStep(clusters, path[b]);
      var k: nat :| HasStep(clusters, c, k) && path[b] == StepAt(clusters, c, k);
      assert control[k].frequency == path[b].lower;
    } else {
      CapIsControl(clusters, path, b + 1, c);
    }
  }

  /**
   One governor cycle of the budget: rebuild the path, restart if its length changed, and unless a burst freezes the
   feedback, adjust one cap.
   */
  method StepBudget(clusters: seq<Cluster>, s: BudgetState, frozen: bool, power: real, limit: real) returns (t: BudgetState)
    requires RisingClusters(clusters) && BudgetOk(clusters, s)
    ensures BudgetOk(clusters, t) && |t.caps| == |clusters|
    ensures forall c :: 0 <= c < |clusters| && t.caps[c].Some? ==> HasFrequency(clusters[c].model.control, t.caps[c].value)
    ensures s.pathLength > 0 && frozen ==> t == s
    ensures !frozen ==> AdjustsTo(clusters, s, t, power, limit)
  {
    var path := BuildPath(clusters);
    assert |s.caps| == |clusters| by { assert Unfold(true); }
    var u := InitBudget(clusters, path, s);
    StartsOk(clusters, path, s, u);
    PathInRange(clusters, path);
    t := u;
    if !frozen {
      t := AdjustBudgetCap(u, path, power, limit);
    }
    StepsOk(clusters, path, u, t, power, limit, frozen);
    forall q | PathFor(clusters, q) ensures q == path { PathsAgree(clusters, path, q); }
  }

  /** The state moves along the package's path as one adjustment says. */
  ghost predicate AdjustsTo(clusters: seq<Cluster>, s: BudgetState, t: BudgetState, power: real, limit: real)
    requires RisingClusters(clusters)
  {
    |s.caps| == |clusters| && forall path: seq<Step> :: PathFor(clusters, path) ==>
      (forall i :: 0 <= i < |path| ==> path[i].cluster < |clusters|) && t == Adjusted(Started(clusters, path, s), path, power, limit)
  }

  lemma StartsOk(clusters: seq<Cluster>, path: seq<Step>, s: BudgetState, u: BudgetState)
    requires RisingClusters(clusters) && PathFor(clusters, path) && BudgetOk(clusters, s)
    requires s.pathLength == |path| ==> u == s
    requires s.pathLength != |path| && path != [] ==> AtBoundary(clusters, path, u, |path|)
    requires u.pathLength == |path|
    ensures s.pathLength > 0 ==> u == s
    ensures path == [] ==> u == s && u.cursor == None && forall c :: 0 <= c < |u.caps| ==> u.caps[c] == None
    ensures path != [] ==> OnBoundary(clusters, path, u)
  {
    assert Unfold(true);
    if s.pathLength > 0 {
      assert OnBoundary(clusters, path, s);
    }
  }

  lemma {:induction false} StepsOk(clusters: seq<Cluster>, path: seq<Step>, u: BudgetState, t: BudgetState, power: real, limit: real, frozen: bool)
    requires RisingClusters(clusters) && PathFor(clusters, path) && |u.caps| == |clusters| && u.pathLength == |path|
    requires forall i :: 0 <= i < |path| ==> path[i].cluster < |u.caps|
    requires path == [] ==> u.cursor == None && forall c :: 0 <= c < |u.caps| ==> u.caps[c] == None
    requires path != [] ==> OnBoundary(clusters, path, u)
    requires t == if frozen then u else Adjusted(u, path, power, limit)
    ensures BudgetOk(clusters, t) && |t.caps| == |clusters|
    ensures forall c :: 0 <= c < |clusters| && t.caps[c].Some? ==> HasFrequency(clusters[c].model.control, t.caps[c].value)
  {
    if path != [] {
      var b: nat :| AtBoundary(clusters, path, u, b);
      var next := b;
      if !frozen {
        AdjustMovesBoundary(clusters, path, u, b, power, limit);
        next := if Over(power, limit) then u.cursor.value else if Under(power, limit) then u.cursor.value + 1 else b;
      }
      assert AtBoundary(clusters, path, t, next);
      forall c | 0 <= c < |clusters| ensures t.caps[c].Some? && HasFrequency(clusters[c].model.control, t.caps[c].value) {
        CapIsControl(clusters, path, next, c);
      }
      forall q | PathFor(clusters, q) ensures OnBoundary(clusters, q, t) {
        PathsAgree(clusters, path, q);
      }
    }
  }

  /** One adjustment along a given path. */
  ghost predicate Moves(clusters: seq<Cluster>, path: seq<Step>, s: BudgetState, t: BudgetState, cycle: Cycle)
    requires RisingClusters(clusters) && forall i :: 0 <= i < |path| ==> path[i].cluster < |clusters|
  {
    |s.caps| == |clusters| && t == Adjusted(Started(clusters, path, s), path, cycle.power, cycle.limit)
  }

  lemma MovesOn(clusters: seq<Cluster>, path: seq<Step>, s: BudgetState, t: BudgetState, cycle: Cycle)
    requires RisingClusters(clusters) && forall i :: 0 <= i < |path| ==> path[i].cluster < |clusters|
    requires Moves(clusters, path, s, t, cycle)
    ensures |t.caps| == |clusters| && Started(clusters, path, t) == t
  {
  }

  /** A list of states each adjusted from the one before is the fold of the adjustments. */
  lemma {:induction false} ChainFolds(clusters: seq<Cluster>, path: seq<Step>, states: seq<BudgetState>, cycles: seq<Cycle>)
    requires RisingClusters(clusters) && forall i :: 0 <= i < |path| ==> path[i].cluster < |clusters|
    requires |states| == |cycles| + 1 && cycles != []
    requires forall k :: 0 <= k < |cycles| ==> Moves(clusters, path, states[k], states[k + 1], cycles[k])
    ensures |states[0].caps| == |clusters|
    ensures states[|cycles|] == Cycles(Started(clusters, path, states[0]), path, cycles)
    decreases |cycles|
  {
    assert Moves(clusters, path, states[0], states[1], cycles[0]);
    MovesOn(clusters, path, states[0], states[1], cycles[0]);
    var rest, later := states[1..], cycles[1..];
    if later != [] {
      forall k | 0 <= k < |later| ensures Moves(clusters, path, rest[k], rest[k + 1], later[k]) {
        assert Moves(clusters, path, states[k + 1], states[k + 2], cycles[k + 1]);
      }
      ChainFolds(clusters, path, rest, later);
    }
  }

  /** A started feedback is on a boundary. */
  lemma StartedOnBoundary(clusters: seq<Cluster>, path: seq<Step>, s: BudgetState)
    requires RisingClusters(clusters) && PathFor(clusters, path) && BudgetOk(clusters, s) && path != []
    ensures |s.caps| == |clusters| && OnBoundary(clusters, path, Started(clusters, path, s))
  {
    assert Unfold(true);
    if s.pathLength == 0 { assert AtBoundary(clusters, path, Started(clusters, path, s), |path|); }
    else { assert OnBoundary(clusters, path, s); }
  }
}
