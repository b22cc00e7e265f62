/**
 Whole runs: any list of actuator calls, each with any faults and a kill at any write, interleaved with restarts
 and writes from outside; then a fault-free restart and recovery.
 */
module Runs {
  import opened Common
  import opened Frequency
  import opened Scalar
  import opened Journal
  import opened Hardware
  import opened Batch
  import opened ScalarBatch
  import opened Actuator

  datatype Command =
    | Apply(frequencies: seq<FrequencyRequest>)
    | ApplyFast(owned: seq<FrequencyRequest>)
    | ApplyNodes(values: seq<ScalarRequest>)
    | Release(targets: seq<TargetId>)
    | ReleaseNodes(nodes: seq<TargetId>)
    | Recover
    | Restart
    | OutsideNode(node: TargetId, text: Option<ScalarValue>)
    | OutsidePair(pair: TargetId, window: Limits)

  predicate TouchesNode(c: Command, id: TargetId) { c.OutsideNode? && c.node == id }

  predicate TouchesPair(cs: seq<Command>, id: TargetId) {
    exists i :: 0 <= i < |cs| && cs[i].OutsidePair? && cs[i].pair == id
  }

  /** Outside writers leave text the node's domain accepts. */
  predicate WritesInDomain(r: Registry, c: Command) {
    c.OutsideNode? && c.node in r.scalars ==> c.text.Some? && ValidValue(r.scalars[c.node].domain, c.text.value)
  }

  ghost predicate RequestsNode(c: Command, id: TargetId) { c.ApplyNodes? && Asks(c.values, id) }

  /** Some of the first `k` commands requests the node. */
  ghost predicate Requested(cs: seq<Command>, k: nat, id: TargetId) {
    exists i :: 0 <= i < k && i < |cs| && RequestsNode(cs[i], id)
  }

  /** Two of the first `k` commands request the node. */
  ghost predicate RequestedTwice(cs: seq<Command>, k: nat, id: TargetId) {
    exists j :: 0 <= j < k && j < |cs| && RequestsNode(cs[j], id) && Requested(cs, j, id)
  }

  /** What a run leaves on disk and in the nodes at one moment. */
  datatype Moment = Moment(durable: Option<Journal>, scal: Nodes)

  ghost function Outcome(m: Moment): Nodes { RestoredScal(m.durable, m.scal) }

  /** The nodes a command puts at risk on a store whose failed writes may take effect. */
  ghost function AtRiskFrom(atomic: bool, m: Moment, c: Command): set<TargetId> {
    if c.ApplyNodes? && !atomic then RiskSet(ClaimedNodes(m.durable), m.scal, c.values) else {}
  }

  /** What a text written from outside makes of a node: it stays, or counts as the daemon's and the original comes back. */
  ghost function OutsideOutcome(d: Option<Journal>, id: TargetId, text: Option<ScalarValue>): Option<ScalarValue> {
    if id in ClaimedNodes(d) then NodeOutcome(ClaimedNodes(d)[id], text) else text
  }

  /**
   What one command does to the nodes recovery would leave: only an outside write changes one, as stated, and a batch
   those it puts at risk; and it claims only nodes it requests.
   */
  ghost predicate NodeStep(c: Command, m: Moment, n: Moment, risk: set<TargetId>) {
    && KeptExcept(Outcome(m), Outcome(n), if c.OutsideNode? then {c.node} else risk)
    && (c.OutsideNode? && c.node in Outcome(m) ==> Outcome(n)[c.node] == OutsideOutcome(m.durable, c.node, c.text))
    && (forall id :: id in ClaimedNodes(n.durable) ==> id in ClaimedNodes(m.durable) || RequestsNode(c, id))
  }

  /** Every claimed node reads as a value of its domain. */
  ghost predicate ClaimsReadable(r: Registry, d: Option<Journal>, scal: Nodes) { AllReadable(r, scal, ClaimedNodes(d).Keys) }

  /** A step that claims no more and keeps recovery's outcome keeps the claimed nodes readable. */
  lemma ClaimsStayReadable(r: Registry, bootId: string, fingerprint: string, f0: map<TargetId, Limits>, s0: Nodes, d0: Option<Journal>,
                           f1: map<TargetId, Limits>, s1: Nodes, d1: Option<Journal>)
    requires MachineFits(r, bootId, fingerprint, f0, s0, d0) && MachineFits(r, bootId, fingerprint, f1, s1, d1)
    requires ClaimsReadable(r, d0, s0) && ClaimedNodes(d1).Keys <= ClaimedNodes(d0).Keys && RestoredScal(d1, s1) == RestoredScal(d0, s0)
    ensures ClaimsReadable(r, d1, s1)
  {
    assert Unfold(true);
    forall id | id in ClaimedNodes(d1) ensures Readable(r, s1, id) {
      assert Inspect(id) && Readable(r, s0, id);
      assert RestoredScal(d1, s1)[id] == RestoredScal(d0, s0)[id];
    }
  }

  /** A scalar batch, however it ends, keeps the claimed nodes readable. */
  lemma SaneStaysReadable(r: Registry, requests: seq<ScalarRequest>, d0: Option<Journal>, s0: Nodes, d1: Option<Journal>, s1: Nodes)
    requires ClaimsReadable(r, d0, s0) && NodesSane(r, requests, ClaimedNodes(d0).Keys, s0, ClaimedNodes(d1).Keys, s1)
    ensures ClaimsReadable(r, d1, s1)
  {
    forall id | id in ClaimedNodes(d1) ensures Readable(r, s1, id) {
      assert Readable(r, s0, id);
    }
  }

  /** A node written from outside either counts as ours, and its original comes back, or is foreign and stays. */
  lemma OutsideNodeWrite(r: Registry, bootId: string, fingerprint: string, freq: map<TargetId, Limits>, scal: Nodes, d: Option<Journal>,
                         id: TargetId, v: Option<ScalarValue>)
    requires MachineFits(r, bootId, fingerprint, freq, scal, d) && id in scal
    ensures MachineFits(r, bootId, fingerprint, freq, scal[id := v], d)
    ensures KeptExcept(RestoredScal(d, scal), RestoredScal(d, scal[id := v]), {id})
    ensures RestoredScal(d, scal[id := v])[id] == if id in ClaimedNodes(d) then NodeOutcome(ClaimedNodes(d)[id], v) else v
    ensures ClaimsReadable(r, d, scal) && (id in r.scalars ==> v.Some? && ValidValue(r.scalars[id].domain, v.value)) ==> ClaimsReadable(r, d, scal[id := v])
  {
    assert Unfold(true);
    var now := scal[id := v];
    if ClaimsReadable(r, d, scal) && (id in r.scalars ==> v.Some? && ValidValue(r.scalars[id].domain, v.value)) {
      forall k | k in ClaimedNodes(d) ensures Readable(r, now, k) {
        assert Readable(r, scal, k);
      }
    }
  }

  lemma OutsidePairWrite(r: Registry, bootId: string, fingerprint: string, freq: map<TargetId, Limits>, scal: Nodes, d: Option<Journal>,
                         id: TargetId, l: Limits)
    requires MachineFits(r, bootId, fingerprint, freq, scal, d) && id in freq && id !in ClaimedPairs(d)
    requires id in r.targets ==> InHardware(r.targets[id], l)
    ensures MachineFits(r, bootId, fingerprint, freq[id := l], scal, d)
    ensures RestoredFreq(d, freq[id := l]) == RestoredFreq(d, freq)[id := l]
    ensures forall j :: Agreed(r, bootId, fingerprint, freq, j, d) ==> Agreed(r, bootId, fingerprint, freq[id := l], j, d)
  {
    assert Unfold(true);
  }

  lemma NothingClaimedAnywhere(r: Registry, bootId: string, fingerprint: string, freq: map<TargetId, Limits>, scal: Nodes, j: Journal)
    requires MachineFits(r, bootId, fingerprint, freq, scal, Some(j)) && j.bootId != bootId
    ensures RestoredFreq(Some(j), freq) == RestoredFreq(None, freq) && RestoredScal(Some(j), scal) == RestoredScal(None, scal)
  {
    assert Unfold(true);
  }

  /**
   One command. It changes what recovery would leave only where it writes from outside, and on a store that is not
   atomic in the nodes a scalar batch puts at risk. It claims only nodes it requests.
   */
  method Step(a: FrequencyActuator, c: Command) returns (next: FrequencyActuator)
    requires a.Valid() && a.Ours() && ValidRegistry(a.registry) && a.bootId != "" && a.fingerprint != ""
    modifies a, a.world`freq, a.world`scal, a.world`durable, a.world`dead
    ensures next == a || fresh(next)
    ensures next.Valid() && next.Ours()
    ensures next.world == a.world && next.registry == a.registry && next.bootId == a.bootId && next.fingerprint == a.fingerprint
    ensures RestoredFreq(a.world.durable, a.world.freq).Keys == old(RestoredFreq(a.world.durable, a.world.freq)).Keys
    ensures forall id :: id in old(RestoredFreq(a.world.durable, a.world.freq)) && !(c.OutsidePair? && c.pair == id) ==>
              RestoredFreq(a.world.durable, a.world.freq)[id] == old(RestoredFreq(a.world.durable, a.world.freq))[id]
    ensures NodeStep(c, old(Moment(a.world.durable, a.world.scal)), Moment(a.world.durable, a.world.scal),
                     old(AtRiskFrom(a.world.atomicStore, Moment(a.world.durable, a.world.scal), c)))
    ensures old(ClaimsReadable(a.registry, a.world.durable, a.world.scal)) && WritesInDomain(a.registry, c) ==>
              ClaimsReadable(a.registry, a.world.durable, a.world.scal)
  {
    next := a;
    ghost var f0, s0, d0 := a.world.freq, a.world.scal, a.world.durable;
    match c
    case Apply(requests) => var _ := a.ApplyBatch(requests);
    case ApplyFast(requests) => var _ := a.ApplyOwnedBatchFast(requests);
    case ApplyNodes(requests) =>
      var _ := a.ApplyScalars(requests);
      if ClaimsReadable(a.registry, d0, s0) { SaneStaysReadable(a.registry, requests, d0, s0, a.world.durable, a.world.scal); }
    case Release(ids) => var _ := a.RestoreTargets(ids);
    case ReleaseNodes(ids) =>
      var _ := a.RestoreScalars(ids);
      if ClaimsReadable(a.registry, d0, s0) {
        ClaimsStayReadable(a.registry, a.bootId, a.fingerprint, f0, s0, d0, a.world.freq, a.world.scal, a.world.durable);
      }
    case Recover => RecoverCommand(a);
    case Restart =>
      a.world.dead := false;
      next := new FrequencyActuator(a.world, a.registry, a.bootId, a.fingerprint);
    case OutsideNode(id, v) =>
      if id in a.world.scal {
        OutsideNodeWrite(a.registry, a.bootId, a.fingerprint, a.world.freq, a.world.scal, a.world.durable, id, v);
        a.world.scal := a.world.scal[id := v];
      }
    case OutsidePair(id, l) =>
      if id in a.world.freq && id !in ClaimedPairs(a.world.durable) && (id in a.registry.targets ==> InHardware(a.registry.targets[id], l)) {
        OutsidePairWrite(a.registry, a.bootId, a.fingerprint, a.world.freq, a.world.scal, a.world.durable, id, l);
        a.world.freq := a.world.freq[id := l];
      }
  }

  /** Recovery in the middle of a run. */
  method RecoverCommand(a: FrequencyActuator)
    requires a.Valid() && a.Ours() && a.bootId != "" && a.fingerprint != ""
    modifies a, a.world`freq, a.world`scal, a.world`durable, a.world`dead
    ensures a.Valid() && a.Ours()
    ensures RestoredFreq(a.world.durable, a.world.freq) == old(RestoredFreq(a.world.durable, a.world.freq))
    ensures RestoredScal(a.world.durable, a.world.scal) == old(RestoredScal(a.world.durable, a.world.scal))
    ensures ClaimedNodes(a.world.durable).Keys <= old(ClaimedNodes(a.world.durable).Keys)
    ensures old(ClaimsReadable(a.registry, a.world.durable, a.world.scal)) ==> ClaimsReadable(a.registry, a.world.durable, a.world.scal)
  {
    ghost var f0, s0, d0 := a.world.freq, a.world.scal, a.world.durable;
    if !a.degraded && a.recoveryRequired && a.journal.bootId != a.bootId {
      NothingClaimedAnywhere(a.registry, a.bootId, a.fingerprint, a.world.freq, a.world.scal, a.journal);
    }
    var _ := a.RecoverPending();
    if ClaimsReadable(a.registry, d0, s0) {
      ClaimsStayReadable(a.registry, a.bootId, a.fingerprint, f0, s0, d0, a.world.freq, a.world.scal, a.world.durable);
    }
  }

  /** Pairs nobody wrote from outside are equal. */
  ghost predicate PairsKept(cs: seq<Command>, was: map<TargetId, Limits>, now: map<TargetId, Limits>) {
    now.Keys == was.Keys && forall id :: id in was && !TouchesPair(cs, id) ==> now[id] == was[id]
  }

  lemma PairsKeptNext(cs: seq<Command>, k: nat, f0: map<TargetId, Limits>, f1: map<TargetId, Limits>, f2: map<TargetId, Limits>)
    requires k < |cs| && PairsKept(cs, f0, f1) && f2.Keys == f1.Keys
    requires forall id :: id in f1 && !(cs[k].OutsidePair? && cs[k].pair == id) ==> f2[id] == f1[id]
    ensures PairsKept(cs, f0, f2)
  {
    assert cs[k].OutsidePair? ==> TouchesPair(cs, cs[k].pair);
  }

  // -------------------------------------------------------------- histories of nodes

  /** `trace[k]` is the moment before command `k`, for the first `n` commands. */
  ghost predicate History(atomic: bool, cs: seq<Command>, n: nat, trace: seq<Moment>) {
    && n <= |cs| && |trace| == n + 1
    && forall k :: 0 <= k < n ==> NodeStep(cs[k], trace[k], trace[k + 1], AtRiskFrom(atomic, trace[k], cs[k]))
  }

  /** Some command from `j` on puts the node at risk. */
  ghost predicate AtRiskSince(atomic: bool, cs: seq<Command>, trace: seq<Moment>, j: nat, id: TargetId) {
    exists k :: j <= k < |cs| && k < |trace| && id in AtRiskFrom(atomic, trace[k], cs[k])
  }

  predicate UntouchedSince(cs: seq<Command>, j: nat, id: TargetId) { forall k :: j <= k < |cs| ==> !TouchesNode(cs[k], id) }

  /** A node neither touched nor put at risk keeps its outcome. */
  lemma {:induction false} NodeStays(atomic: bool, cs: seq<Command>, trace: seq<Moment>, j: nat, id: TargetId)
    requires History(atomic, cs, |cs|, trace) && j <= |cs| && UntouchedSince(cs, j, id) && !AtRiskSince(atomic, cs, trace, j, id)
    ensures Outcome(trace[|cs|]).Keys == Outcome(trace[j]).Keys
    ensures id in Outcome(trace[j]) ==> Outcome(trace[|cs|])[id] == Outcome(trace[j])[id]
    decreases |cs| - j
  {
    if j < |cs| {
      assert NodeStep(cs[j], trace[j], trace[j + 1], AtRiskFrom(atomic, trace[j], cs[j]));
      assert !TouchesNode(cs[j], id) && id !in AtRiskFrom(atomic, trace[j], cs[j]);
      NodeStays(atomic, cs, trace, j + 1, id);
    }
  }

  lemma {:induction false} NodesStayPresent(atomic: bool, cs: seq<Command>, n: nat, trace: seq<Moment>, k: nat)
    requires History(atomic, cs, n, trace) && k <= n
    ensures Outcome(trace[k]).Keys == Outcome(trace[0]).Keys
    decreases k
  {
    if k > 0 {
      NodesStayPresent(atomic, cs, n, trace, k - 1);
      assert NodeStep(cs[k - 1], trace[k - 1], trace[k], AtRiskFrom(atomic, trace[k - 1], cs[k - 1]));
    }
  }

  /**
   Every node ends where its history says: as it was if nobody wrote it from outside, and else as its last outside
   write leaves it; unless a batch put it at risk since.
   */
  ghost predicate NodesDecided(atomic: bool, cs: seq<Command>, trace: seq<Moment>, now: Nodes)
    requires |trace| == |cs| + 1
  {
    && now.Keys == Outcome(trace[0]).Keys
    && (forall id :: id in now && UntouchedSince(cs, 0, id) && !AtRiskSince(atomic, cs, trace, 0, id) ==> now[id] == Outcome(trace[0])[id])
    && (forall id, i :: 0 <= i < |cs| && id in now && TouchesNode(cs[i], id) && UntouchedSince(cs, i + 1, id) && !AtRiskSince(atomic, cs, trace, i + 1, id) ==>
          now[id] == OutsideOutcome(trace[i].durable, id, cs[i].text))
  }

  lemma {:induction false} HistoryDecides(atomic: bool, cs: seq<Command>, trace: seq<Moment>)
    requires History(atomic, cs, |cs|, trace)
    ensures NodesDecided(atomic, cs, trace, Outcome(trace[|cs|]))
  {
    var now := Outcome(trace[|cs|]);
    NodesStayPresent(atomic, cs, |cs|, trace, |cs|);
    forall id | id in now && UntouchedSince(cs, 0, id) && !AtRiskSince(atomic, cs, trace, 0, id) ensures now[id] == Outcome(trace[0])[id] {
      NodeStays(atomic, cs, trace, 0, id);
    }
    forall id, i | 0 <= i < |cs| && id in now && TouchesNode(cs[i], id) && UntouchedSince(cs, i + 1, id) && !AtRiskSince(atomic, cs, trace, i + 1, id)
      ensures now[id] == OutsideOutcome(trace[i].durable, id, cs[i].text)
    {
      NodesStayPresent(atomic, cs, |cs|, trace, i);
      assert NodeStep(cs[i], trace[i], trace[i + 1], AtRiskFrom(atomic, trace[i], cs[i]));
      NodeStays(atomic, cs, trace, i + 1, id);
    }
  }

  /** A claim was there at the start or has been requested since. */
  lemma {:induction false} ClaimsAreRequested(atomic: bool, cs: seq<Command>, n: nat, trace: seq<Moment>, k: nat, id: TargetId)
    requires History(atomic, cs, n, trace) && k <= n && id in ClaimedNodes(trace[k].durable)
    ensures id in ClaimedNodes(trace[0].durable) || Requested(cs, k, id)
    decreases k
  {
    if k > 0 {
      assert NodeStep(cs[k - 1], trace[k - 1], trace[k], AtRiskFrom(atomic, trace[k - 1], cs[k - 1]));
      if id in ClaimedNodes(trace[k - 1].durable) { ClaimsAreRequested(atomic, cs, n, trace, k - 1, id); }
    }
  }

  /** Nothing is at risk on an atomic store, and on another from an unclaimed machine only nodes requested twice. */
  lemma RisksAreRequestedTwice(atomic: bool, cs: seq<Command>, trace: seq<Moment>, j: nat, id: TargetId)
    requires History(atomic, cs, |cs|, trace) && ClaimedNodes(trace[0].durable) == map[] && AtRiskSince(atomic, cs, trace, j, id)
    ensures !atomic && RequestedTwice(cs, |cs|, id)
  {
    var k :| j <= k < |cs| && id in AtRiskFrom(atomic, trace[k], cs[k]);
    RiskIsRequested(ClaimedNodes(trace[k].durable), trace[k].scal, cs[k].values);
    ClaimsAreRequested(atomic, cs, |cs|, trace, k, id);
    assert RequestsNode(cs[k], id);
  }

  lemma RiskIsRequested(claims: Claims, scal: Nodes, requests: seq<ScalarRequest>)
    ensures forall id :: id in RiskSet(claims, scal, requests) ==> id in claims && Asks(requests, id)
  {
    forall id | id in RiskSet(claims, scal, requests) ensures id in claims && Asks(requests, id) {
      var q :| q in requests && q.target == id;
      var i :| 0 <= i < |requests| && requests[i] == q;
    }
  }

  /** No outside writer among the first `n` commands leaves text a domain rejects. */
  ghost predicate AllInDomain(r: Registry, cs: seq<Command>, n: nat) { forall i :: 0 <= i < n && i < |cs| ==> WritesInDomain(r, cs[i]) }

  /** Every command of a run, in order; each may fail, be killed half way, or both. */
  method RunAll(world: World, r: Registry, bootId: string, fingerprint: string, cs: seq<Command>) returns (ghost trace: seq<Moment>)
    requires ValidRegistry(r) && bootId != "" && fingerprint != ""
    requires MachineFits(r, bootId, fingerprint, world.freq, world.scal, world.durable)
    modifies world`freq, world`scal, world`durable, world`dead
    ensures MachineFits(r, bootId, fingerprint, world.freq, world.scal, world.durable)
    ensures PairsKept(cs, old(RestoredFreq(world.durable, world.freq)), RestoredFreq(world.durable, world.freq))
    ensures History(world.atomicStore, cs, |cs|, trace)
    ensures trace[0] == old(Moment(world.durable, world.scal)) && trace[|cs|] == Moment(world.durable, world.scal)
    ensures old(ClaimsReadable(r, world.durable, world.scal)) && AllInDomain(r, cs, |cs|) ==> ClaimsReadable(r, world.durable, world.scal)
  {
    var a := new FrequencyActuator(world, r, bootId, fingerprint);
    ghost var f0, m0 := world.freq, Moment(world.durable, world.scal);
    trace := [m0];
    for k := 0 to |cs|
      invariant fresh(a) && a.world == world && a.registry == r && a.bootId == bootId && a.fingerprint == fingerprint
      invariant a.Valid() && a.Ours() && |trace| == k + 1 && trace[0] == m0 && trace[k] == Moment(world.durable, world.scal)
      invariant RunSoFar(world.atomicStore, r, cs, k, f0, world.freq, trace)
    {
      ghost var f := world.freq;
      a := Step(a, cs[k]);
      RunSoFarNext(world.atomicStore, r, cs, k, f0, f, trace, world.freq, Moment(world.durable, world.scal));
      trace := trace + [Moment(world.durable, world.scal)];
    }
    assert UnfoldBatch(true);
  }

  /** What the first `k` commands keep (folded). */
  ghost predicate RunSoFar(atomic: bool, r: Registry, cs: seq<Command>, k: nat, f0: map<TargetId, Limits>, f: map<TargetId, Limits>, trace: seq<Moment>)
    requires |trace| == k + 1
  {
    forall z {:trigger UnfoldBatch(z)} :: UnfoldBatch(z) ==>
      && PairsKept(cs, RestoredFreq(trace[0].durable, f0), RestoredFreq(trace[k].durable, f))
      && History(atomic, cs, k, trace)
      && (ClaimsReadable(r, trace[0].durable, trace[0].scal) && AllInDomain(r, cs, k) ==> ClaimsReadable(r, trace[k].durable, trace[k].scal))
  }

  lemma RunSoFarNext(atomic: bool, r: Registry, cs: seq<Command>, k: nat, f0: map<TargetId, Limits>, f: map<TargetId, Limits>, trace: seq<Moment>,
                     f': map<TargetId, Limits>, n: Moment)
    requires k < |cs| && |trace| == k + 1 && RunSoFar(atomic, r, cs, k, f0, f, trace)
    requires RestoredFreq(n.durable, f').Keys == RestoredFreq(trace[k].durable, f).Keys
    requires forall id :: id in RestoredFreq(trace[k].durable, f) && !(cs[k].OutsidePair? && cs[k].pair == id) ==>
               RestoredFreq(n.durable, f')[id] == RestoredFreq(trace[k].durable, f)[id]
    requires NodeStep(cs[k], trace[k], n, AtRiskFrom(atomic, trace[k], cs[k]))
    requires ClaimsReadable(r, trace[k].durable, trace[k].scal) && WritesInDomain(r, cs[k]) ==> ClaimsReadable(r, n.durable, n.scal)
    ensures RunSoFar(atomic, r, cs, k + 1, f0, f', trace + [n])
  {
    assert UnfoldBatch(true);
    PairsKeptNext(cs, k, RestoredFreq(trace[0].durable, f0), RestoredFreq(trace[k].durable, f), RestoredFreq(n.durable, f'));
    var more := trace + [n];
    forall i | 0 <= i < k + 1 ensures NodeStep(cs[i], more[i], more[i + 1], AtRiskFrom(atomic, more[i], cs[i])) {
      if i < k { assert NodeStep(cs[i], trace[i], trace[i + 1], AtRiskFrom(atomic, trace[i], cs[i])); }
    }
  }

  /**
   Crash safety. From a machine nobody has claimed, after any run a fault-free restart and recovery put every
   register pair that nobody wrote from outside back exactly as it was, whatever the store did. Unless outside writers
   left text a domain rejects, recovery succeeds and leaves nothing claimed; and then every node is as it was, or as
   its last outside write decides. On a store that is not atomic, nodes a batch put at risk since are excepted; they
   were requested more than once.
   */
  method RunThenRecover(world: World, r: Registry, bootId: string, fingerprint: string, cs: seq<Command>)
    returns (ok: bool, ghost trace: seq<Moment>)
    requires ValidRegistry(r) && bootId != "" && fingerprint != ""
    requires world.durable == None && RegistersOk(r, world.freq) && r.scalars.Keys <= world.scal.Keys
    modifies world
    ensures PairsKept(cs, old(world.freq), world.freq)
    ensures AllInDomain(r, cs, |cs|) ==> ok
    ensures History(world.atomicStore, cs, |cs|, trace) && trace[0] == Moment(None, old(world.scal)) && Outcome(trace[0]) == old(world.scal)
    ensures ok ==> ClaimedPairs(world.durable) == map[] && ClaimedNodes(world.durable) == map[]
    ensures ok ==> NodesDecided(world.atomicStore, cs, trace, world.scal)
    ensures forall id, j: nat :: AtRiskSince(world.atomicStore, cs, trace, j, id) ==> !world.atomicStore && RequestedTwice(cs, |cs|, id)
  {
    UnclaimedMachine(r, bootId, fingerprint, world.freq, world.scal);
    trace := RunAll(world, r, bootId, fingerprint, cs);
    ghost var d1 := world.durable;
    world.dead, world.healthy := false, true;
    var a := new FrequencyActuator(world, r, bootId, fingerprint);
    PendingIdentity(r, bootId, fingerprint, world.freq, world.scal, d1);
    ok := a.RecoverPending();
    HistoryDecides(world.atomicStore, cs, trace);
    forall id, j: nat | AtRiskSince(world.atomicStore, cs, trace, j, id) ensures !world.atomicStore && RequestedTwice(cs, |cs|, id) {
      RisksAreRequestedTwice(world.atomicStore, cs, trace, j, id);
    }
  }

  lemma UnclaimedMachine(r: Registry, bootId: string, fingerprint: string, freq: map<TargetId, Limits>, scal: Nodes)
    requires ValidRegistry(r) && RegistersOk(r, freq) && r.scalars.Keys <= scal.Keys
    ensures MachineFits(r, bootId, fingerprint, freq, scal, None)
    ensures RestoredFreq(None, freq) == freq && RestoredScal(None, scal) == scal
  {
  }

  /** A pending journal of the run is ours; without one nothing is claimed. */
  lemma PendingIdentity(r: Registry, bootId: string, fingerprint: string, freq: map<TargetId, Limits>, scal: Nodes, d: Option<Journal>)
    requires MachineFits(r, bootId, fingerprint, freq, scal, d)
    ensures d.Some? && !IsEmpty(d.value) ==> d.value.bootId == bootId && d.value.fingerprint == fingerprint
    ensures d.None? || IsEmpty(d.value) ==> RestoredFreq(d, freq) == freq && RestoredScal(d, scal) == scal
  {
    assert Unfold(true);
  }

  // ------------------------------------------------- recovery without configuration

  /** The part of a registry a journal mentions. */
  ghost function Mentioned(r: Registry, j: Journal): Registry
    requires j.entries.Keys <= r.targets.Keys && j.scalars.Keys <= r.scalars.Keys
  {
    Registry(map id | id in j.entries.Keys :: r.targets[id], map id | id in j.scalars.Keys :: r.scalars[id])
  }

  lemma MentionedWrites(r: Registry, bootId: string, fingerprint: string, j: Journal)
    requires WrittenFrom(r, bootId, fingerprint, j) && j.entries.Keys <= r.targets.Keys && j.scalars.Keys <= r.scalars.Keys
    ensures WrittenFrom(Mentioned(r, j), bootId, fingerprint, j)
  {
  }

  lemma MentionedUsable(r: Registry, freq: map<TargetId, Limits>, j: Journal)
    requires UsableRegistry(r) && RegistersOk(r, freq) && j.entries.Keys <= r.targets.Keys && j.scalars.Keys <= r.scalars.Keys
    ensures UsableRegistry(Mentioned(r, j)) && RegistersOk(Mentioned(r, j), freq)
  {
  }

  /** It is a valid registry of its own, and the machine and its journal fit it as well. */
  lemma MentionedFits(r: Registry, bootId: string, fingerprint: string, freq: map<TargetId, Limits>, scal: Nodes, j: Journal)
    requires ValidRegistry(r) && MachineFits(r, bootId, fingerprint, freq, scal, Some(j))
    ensures WrittenFrom(r, j.bootId, j.fingerprint, j) && j.entries.Keys <= r.targets.Keys && j.scalars.Keys <= r.scalars.Keys
    ensures ValidRegistry(Mentioned(r, j)) && MachineFits(Mentioned(r, j), bootId, fingerprint, freq, scal, Some(j))
    ensures ClaimsReadable(Mentioned(r, j), Some(j), scal) <==> ClaimsReadable(r, Some(j), scal)
  {
    assert UsableRegistry(r) && RegistersOk(r, freq) && r.scalars.Keys <= scal.Keys && WrittenFrom(r, j.bootId, j.fingerprint, j)
           && (IsEmpty(j) || (j.bootId == bootId && j.fingerprint == fingerprint)) by { assert Unfold(true); }
    MentionedIsValid(r, j);
    MentionedWrites(r, j.bootId, j.fingerprint, j);
    MentionedUsable(r, freq, j);
    forall id | id in j.scalars ensures Readable(Mentioned(r, j), scal, id) <==> Readable(r, scal, id) {}
  }

  lemma MentionedIsValid(r: Registry, j: Journal)
    requires ValidRegistry(r) && j.entries.Keys <= r.targets.Keys && j.scalars.Keys <= r.scalars.Keys
    ensures ValidRegistry(Mentioned(r, j))
  {
  }

  /** Every entry carries the manifest of its own kind. */
  lemma ManifestKinds(r: Registry, j: Journal)
    requires WrittenFrom(r, j.bootId, j.fingerprint, j)
    ensures forall id :: id in j.entries ==> j.entries[id].manifest.FrequencyPair?
    ensures forall id :: id in j.scalars ==> j.scalars[id].manifest.ScalarNode?
  {
    forall id | id in j.entries ensures j.entries[id].manifest.FrequencyPair? { assert EntryFor(r.targets[id], j.entries[id]); }
    forall id | id in j.scalars ensures j.scalars[id].manifest.ScalarNode? { assert ScalarEntryFor(r.scalars[id], j.scalars[id]); }
  }

  /**
   Recovery without configuration: a daemon that knows nothing but the journal rebuilds its registry from the
   manifests and recovers exactly the registers and nodes the configured daemon `r` would.
   */
  method RecoverFromJournalAlone(world: World, ghost r: Registry, bootId: string, fingerprint: string) returns (ok: bool)
    requires ValidRegistry(r) && bootId != "" && fingerprint != ""
    requires MachineFits(r, bootId, fingerprint, world.freq, world.scal, world.durable)
    modifies world`freq, world`scal, world`durable, world`dead
    ensures RestoredFreq(world.durable, world.freq) == old(RestoredFreq(world.durable, world.freq))
    ensures RestoredScal(world.durable, world.scal) == old(RestoredScal(world.durable, world.scal))
    ensures ok ==> && world.freq == old(RestoredFreq(world.durable, world.freq)) && world.scal == old(RestoredScal(world.durable, world.scal))
                   && ClaimedPairs(world.durable) == map[] && ClaimedNodes(world.durable) == map[]
    ensures world.healthy && !old(world.dead) ==> (ok <==> old(ClaimsReadable(r, world.durable, world.scal)))
  {
    var loaded := world.Load();
    if loaded.Err? { return false; }
    PendingIdentity(r, bootId, fingerprint, world.freq, world.scal, world.durable);
    if loaded.value.None? || IsEmpty(loaded.value.value) { return true; }
    var j := loaded.value.value;
    MentionedFits(r, bootId, fingerprint, world.freq, world.scal, j);
    var rebuilt := RebuildRegistry(r, j);
    ok := RecoverWith(world, rebuilt.value, bootId, fingerprint, j);
  }

  /** The registry the manifests of a journal describe, walked in any order. */
  method RebuildRegistry(ghost r: Registry, j: Journal) returns (rebuilt: Result<Registry>)
    requires ValidRegistry(r) && WrittenFrom(r, j.bootId, j.fingerprint, j) && j.entries.Keys <= r.targets.Keys && j.scalars.Keys <= r.scalars.Keys
    ensures rebuilt == Ok(Mentioned(r, j))
  {
    ManifestKinds(r, j);
    var fids := Listing(j.entries.Keys);
    var sids := Listing(j.scalars.Keys);
    JournalRebuildsRegistry(r, j.bootId, j.fingerprint, j, fids, sids);
    rebuilt := SelfDescribingRegistry(FrequencyManifests(j, fids), ScalarManifests(j, sids));
  }

  /** Start over the given registry and recover the pending journal. */
  method RecoverWith(world: World, r: Registry, bootId: string, fingerprint: string, ghost j: Journal) returns (ok: bool)
    requires ValidRegistry(r) && bootId != "" && fingerprint != "" && world.durable == Some(j) && !IsEmpty(j)
    requires MachineFits(r, bootId, fingerprint, world.freq, world.scal, world.durable)
    modifies world`freq, world`scal, world`durable, world`dead
    ensures RestoredFreq(world.durable, world.freq) == old(RestoredFreq(world.durable, world.freq))
    ensures RestoredScal(world.durable, world.scal) == old(RestoredScal(world.durable, world.scal))
    ensures ok ==> && world.freq == old(RestoredFreq(world.durable, world.freq)) && world.scal == old(RestoredScal(world.durable, world.scal))
                   && ClaimedPairs(world.durable) == map[] && ClaimedNodes(world.durable) == map[]
    ensures world.healthy && !old(world.dead) ==> (ok <==> old(ClaimsReadable(r, world.durable, world.scal)))
  {
    PendingIdentity(r, bootId, fingerprint, world.freq, world.scal, world.durable);
    var a := new FrequencyActuator(world, r, bootId, fingerprint);
    ok := a.RecoverPending();
  }

  // ------------------------------------------------------------ the two batch paths

  lemma {:induction false} SnappedAsks(r: Registry, requests: seq<FrequencyRequest>)
    requires Snapped(r, requests).Some?
    ensures forall id :: id in Snapped(r, requests).value ==> exists i :: 0 <= i < |requests| && requests[i].target == id
  {
    if requests != [] {
      var last := |requests| - 1;
      SnappedAsks(r, requests[..last]);
      forall id | id in Snapped(r, requests).value ensures exists i :: 0 <= i < |requests| && requests[i].target == id {
        if id in Snapped(r, requests[..last]).value {
          var i :| 0 <= i < last && requests[..last][i].target == id;
          assert requests[i].target == id;
        } else {
          assert requests[last].target == id;
        }
      }
    }
  }

  /** With nothing in flight, the entries are a function of which targets are owned and where their registers are. */
  lemma EntriesDetermined(r: Registry, bootId: string, fingerprint: string, freq: map<TargetId, Limits>,
                          j1: Journal, d1: Option<Journal>, j2: Journal, d2: Option<Journal>)
    requires Agreed(r, bootId, fingerprint, freq, j1, d1) && Agreed(r, bootId, fingerprint, freq, j2, d2)
    requires j1.entries.Keys == j2.entries.Keys
    ensures j1.entries == j2.entries
  {
    assert Unfold(true);
  }

  /**
   The fast path refines the durable one: from the same state, on owned targets and without faults, both accept
   the same batches and leave the same registers, outcome and entries; and recovery from the stale durable journal
   the fast path keeps reaches the same registers as recovery from the fresh one.
   */
  method FastRefinesDurable(a: FrequencyActuator, b: FrequencyActuator, requests: seq<FrequencyRequest>)
    returns (durable: Result<map<TargetId, Limits>>, fast: Result<map<TargetId, Limits>>)
    requires a != b && a.world != b.world
    requires a.registry == b.registry && a.bootId == b.bootId && a.fingerprint == b.fingerprint
    requires a.Valid() && a.Ready() && b.Valid() && b.Ready()
    requires a.world.freq == b.world.freq && a.journal == b.journal && a.world.durable == b.world.durable
    requires a.world.healthy && !a.world.dead && b.world.healthy && !b.world.dead
    requires forall i :: 0 <= i < |requests| ==> requests[i].target in a.journal.entries
    modifies a`degraded, a`journal, a.world`freq, a.world`durable, a.world`dead
    modifies b`degraded, b`journal, b.world`freq, b.world`dead
    ensures a.Valid() && a.Ready() && b.Valid() && b.Ready()
    ensures (durable.Ok? <==> fast.Ok?) && (durable.Ok? ==> durable == fast)
    ensures durable.Ok? <==> Snapped(a.registry, requests).Some?
    ensures a.world.freq == b.world.freq && a.journal.entries == b.journal.entries
    ensures RestoredFreq(a.world.durable, a.world.freq) == RestoredFreq(b.world.durable, b.world.freq)
    ensures b.world.durable == old(a.world.durable)
  {
    if Snapped(a.registry, requests).Some? { SnappedAsks(a.registry, requests); }
    durable := a.ApplyBatch(requests);
    fast := b.ApplyOwnedBatchFast(requests);
    EntriesDetermined(a.registry, a.bootId, a.fingerprint, a.world.freq, a.journal, a.world.durable, b.journal, b.world.durable);
  }
}
