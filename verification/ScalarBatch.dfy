/**
 Scalar batches as values: what a request list asks of the typed nodes, how the journal announces and settles
 it, and which of those steps keep the value recovery would leave in every node.
 */
module ScalarBatch {
  import opened Common
  import opened Scalar
  import opened Journal
  import opened Hardware

  type Nodes = map<TargetId, Option<ScalarValue>>

  type Claims = map<TargetId, ScalarEntry>

  type Values = map<TargetId, ScalarValue>

  datatype ScalarRequest = ScalarRequest(target: TargetId, value: ScalarValue)

  /** `PreparedScalarMutation`. */
  datatype PreparedNode = PreparedNode(target: ScalarTarget, before: ScalarValue, desired: ScalarValue, needsWrite: bool, needsJournal: bool)

  // ------------------------------------------------------------ what is asked for

  /** The node's text parses to a value of its domain. */
  predicate Readable(r: Registry, scal: Nodes, id: TargetId) {
    id in r.scalars && id in scal && scal[id].Some? && ValidValue(r.scalars[id].domain, scal[id].value)
  }

  /** A journaled node still holds what the actuator last wrote or meant to write. */
  predicate StillOurs(claims: Claims, scal: Nodes, id: TargetId) {
    id in claims ==> id in scal && (scal[id] == Some(claims[id].applied) || scal[id] == Some(claims[id].desired))
  }

  predicate RequestAcceptable(r: Registry, claims: Claims, scal: Nodes, q: ScalarRequest) {
    && q.target in r.scalars && ValidValue(r.scalars[q.target].domain, q.value)
    && Readable(r, scal, q.target) && StillOurs(claims, scal, q.target)
  }

  /** What a fault-free `apply_scalars` accepts. */
  predicate NodesAcceptable(r: Registry, claims: Claims, scal: Nodes, requests: seq<ScalarRequest>) {
    && (forall i :: 0 <= i < |requests| ==> RequestAcceptable(r, claims, scal, requests[i]))
    && (forall i, j :: 0 <= i < j < |requests| ==> requests[i].target != requests[j].target)
  }

  ghost predicate Asks(requests: seq<ScalarRequest>, id: TargetId) { exists i :: 0 <= i < |requests| && requests[i].target == id }

  /** `wanted` is the request list as a map. */
  ghost predicate AskedFor(requests: seq<ScalarRequest>, wanted: Values) {
    && (forall i :: 0 <= i < |requests| ==> requests[i].target in wanted && wanted[requests[i].target] == requests[i].value)
    && (forall id :: id in wanted ==> Asks(requests, id))
  }

  lemma AskedGrows(requests: seq<ScalarRequest>, k: nat, wanted: Values)
    requires k < |requests| && AskedFor(requests[..k], wanted) && requests[k].target !in wanted
    ensures AskedFor(requests[..k + 1], wanted[requests[k].target := requests[k].value])
  {
    var upTo := requests[..k + 1];
    forall i | 0 <= i < k ensures upTo[i] == requests[..k][i] && upTo[i].target in wanted {}
    forall id | id in wanted ensures Asks(upTo, id) {
      var i :| 0 <= i < k && requests[..k][i].target == id;
      assert upTo[i].target == id;
    }
    assert upTo[k] == requests[k];
  }

  /** The request asks for something other than what the node holds. */
  predicate NodeChanges(scal: Nodes, wanted: Values, id: TargetId) {
    id in wanted && id in scal && scal[id] != Some(wanted[id])
  }

  /** The nodes once `done` is written. */
  ghost function Over(scal: Nodes, done: Values): Nodes {
    map id | id in scal :: if id in done then Some(done[id]) else scal[id]
  }

  // ---------------------------------------------------------- prepared mutations

  ghost predicate NodeFor(r: Registry, claims: Claims, scal: Nodes, wanted: Values, m: PreparedNode) {
    var id := m.target.id;
    && id in r.scalars && m.target == r.scalars[id]
    && id in wanted && m.desired == wanted[id]
    && id in scal && scal[id] == Some(m.before)
    && (m.needsWrite <==> NodeChanges(scal, wanted, id)) && m.needsJournal == m.needsWrite
    && (id in claims ==> claims[id].applied == m.before && claims[id].desired == m.before)
  }

  ghost predicate NodeValues(m: PreparedNode) {
    ValidValue(m.target.domain, m.before) && ValidValue(m.target.domain, m.desired)
  }

  predicate InspectNode(i: int) { true }

  ghost predicate ListedNode(ps: seq<PreparedNode>, id: TargetId) { exists i :: 0 <= i < |ps| && ps[i].target.id == id }

  /** The outcome of the validation loop (folded). */
  ghost predicate PreparedNodes(r: Registry, claims: Claims, scal: Nodes, wanted: Values, ps: seq<PreparedNode>) {
    forall z {:trigger UnfoldBatch(z)} :: UnfoldBatch(z) ==>
      && (forall i :: 0 <= i < |ps| ==> NodeFor(r, claims, scal, wanted, ps[i]))
      && (forall i {:trigger InspectNode(i)} :: InspectNode(i) && 0 <= i < |ps| ==> NodeValues(ps[i]))
      && (forall i, j :: 0 <= i < j < |ps| ==> ps[i].target.id != ps[j].target.id)
      && (forall id :: id in wanted ==> ListedNode(ps, id))
  }

  lemma PreparedNodesGrow(r: Registry, claims: Claims, scal: Nodes, wanted: Values, ps: seq<PreparedNode>, m: PreparedNode)
    requires PreparedNodes(r, claims, scal, wanted, ps) && m.target.id !in wanted
    requires NodeFor(r, claims, scal, map[m.target.id := m.desired], m) && NodeValues(m)
    ensures PreparedNodes(r, claims, scal, wanted[m.target.id := m.desired], ps + [m])
  {
    assert UnfoldBatch(true);
    var all, grown := ps + [m], wanted[m.target.id := m.desired];
    forall i | 0 <= i < |all| ensures NodeFor(r, claims, scal, grown, all[i]) && (i < |ps| ==> all[i].target.id != m.target.id) {
      if i < |ps| { assert NodeFor(r, claims, scal, wanted, ps[i]); }
    }
    forall i | 0 <= i < |all| ensures NodeValues(all[i]) {
      assert InspectNode(i);
    }
    forall id | id in grown ensures ListedNode(all, id) {
      if id in wanted {
        var i :| 0 <= i < |ps| && ps[i].target.id == id;
        assert all[i].target.id == id;
      } else {
        assert all[|ps|].target.id == id;
      }
    }
  }

  // ------------------------------------------------------------ announce and settle

  /** A fresh claim on a node that holds `before`. */
  function Claim(t: ScalarTarget, before: ScalarValue): ScalarEntry {
    ScalarEntry(t.id, t.path, ScalarNode(t), before, before, before)
  }

  /** The entry announcing a write, over the existing claim or a fresh one. */
  function NodeIntent(claims: Claims, t: ScalarTarget, before: ScalarValue, desired: ScalarValue): ScalarEntry {
    (if t.id in claims then claims[t.id] else Claim(t, before)).(applied := before, desired := desired)
  }

  ghost predicate NodesAnnounced(r: Registry, claims: Claims, scal: Nodes, wanted: Values, now: Claims) {
    && (forall id :: id in now <==> id in claims || NodeChanges(scal, wanted, id))
    && (forall id :: id in now && !NodeChanges(scal, wanted, id) ==> id in claims && now[id] == claims[id])
    && (forall id :: NodeChanges(scal, wanted, id) ==>
          && id in r.scalars && scal[id].Some? && id in now
          && now[id] == NodeIntent(claims, r.scalars[id], scal[id].value, wanted[id]))
  }

  ghost predicate NodesSettled(announced: Claims, scal: Nodes, done: Values, now: Claims) {
    && now.Keys == announced.Keys
    && (forall id :: id in now ==> now[id] == if NodeChanges(scal, done, id) then announced[id].(applied := done[id], desired := done[id])
                                              else announced[id])
  }

  lemma AnnounceOne(r: Registry, claims: Claims, scal: Nodes, done: Values, now: Claims, m: PreparedNode)
    requires NodesAnnounced(r, claims, scal, done, now) && m.target.id !in done
    requires NodeFor(r, claims, scal, map[m.target.id := m.desired], m) && r.scalars[m.target.id].id == m.target.id
    ensures NodesAnnounced(r, claims, scal, done[m.target.id := m.desired],
                           if m.needsJournal then now[m.target.id := NodeIntent(now, m.target, m.before, m.desired)] else now)
  {
  }

  lemma SettleOne(announced: Claims, scal: Nodes, done: Values, now: Claims, id: TargetId, v: ScalarValue)
    requires NodesSettled(announced, scal, done, now) && id !in done && id in scal && (scal[id] != Some(v) ==> id in announced)
    ensures NodesSettled(announced, scal, done[id := v],
                         if scal[id] != Some(v) then now[id := now[id].(applied := v, desired := v)] else now)
  {
  }

  lemma OverOne(scal: Nodes, done: Values, id: TargetId, v: ScalarValue)
    requires id !in done && id in scal
    ensures Over(scal, done[id := v]) == if scal[id] != Some(v) then Over(scal, done)[id := Some(v)] else Over(scal, done)
  {
  }

  /** The write loop after `k` mutations: `applied` holds exactly their values, and nodes and journal follow it. */
  ghost predicate WritingNodes(ps: seq<PreparedNode>, k: nat, wanted: Values, before: Nodes, now: Nodes,
                               announced: Claims, entries: Claims, applied: Values) {
    forall z {:trigger UnfoldBatch(z)} :: UnfoldBatch(z) ==>
      && now == Over(before, applied) && NodesSettled(announced, before, applied, entries)
      && (forall id :: id in applied ==> id in wanted && wanted[id] == applied[id])
      && (forall i :: 0 <= i < |ps| ==> (ps[i].target.id in applied <==> i < k))
  }

  lemma WritingNodesStarts(ps: seq<PreparedNode>, wanted: Values, before: Nodes, announced: Claims)
    ensures WritingNodes(ps, 0, wanted, before, before, announced, announced, map[])
  {
  }

  lemma WritingNodesNext(r: Registry, claims: Claims, ps: seq<PreparedNode>, k: nat, wanted: Values, before: Nodes, now: Nodes,
                         announced: Claims, entries: Claims, applied: Values)
    requires k < |ps| && PreparedNodes(r, claims, before, wanted, ps) && NodesAnnounced(r, claims, before, wanted, announced)
    requires WritingNodes(ps, k, wanted, before, now, announced, entries, applied)
    ensures
      var m := ps[k];
      var id := m.target.id;
      && id in r.scalars && m.target == r.scalars[id] && id in now && now[id] == Some(m.before) && NodeValues(m)
      && (m.needsWrite ==> id in entries)
      && WritingNodes(ps, k + 1, wanted, before, if m.needsWrite then now[id := Some(m.desired)] else now, announced,
                      if m.needsWrite && id in entries then entries[id := entries[id].(applied := m.desired, desired := m.desired)] else entries,
                      applied[id := m.desired])
      && (!m.needsWrite ==> m.before == m.desired)
  {
    assert UnfoldBatch(true) && InspectNode(k);
    var m := ps[k];
    assert NodeFor(r, claims, before, wanted, m);
    SettleOne(announced, before, applied, entries, m.target.id, m.desired);
    OverOne(before, applied, m.target.id, m.desired);
  }

  /** Wherever the loop stops, each node holds its old value or the wanted one. */
  lemma StoppedMidway(r: Registry, claims: Claims, ps: seq<PreparedNode>, k: nat, wanted: Values, before: Nodes, now: Nodes,
                      announced: Claims, entries: Claims, applied: Values)
    requires k < |ps| && PreparedNodes(r, claims, before, wanted, ps) && WritingNodes(ps, k, wanted, before, now, announced, entries, applied)
    ensures Midway(before, now, wanted) && Midway(before, now[ps[k].target.id := Some(ps[k].desired)], wanted)
  {
    assert UnfoldBatch(true);
    assert NodeFor(r, claims, before, wanted, ps[k]);
  }

  lemma WritingNodesEnds(r: Registry, claims: Claims, ps: seq<PreparedNode>, wanted: Values, before: Nodes, now: Nodes,
                         announced: Claims, entries: Claims, applied: Values)
    requires PreparedNodes(r, claims, before, wanted, ps) && WritingNodes(ps, |ps|, wanted, before, now, announced, entries, applied)
    ensures applied == wanted && now == Over(before, wanted) && NodesSettled(announced, before, wanted, entries)
  {
    assert UnfoldBatch(true);
    forall id | id in wanted ensures id in applied {
      assert ListedNode(ps, id);
      var i :| 0 <= i < |ps| && ps[i].target.id == id;
    }
  }

  /** Every node that moved is among the first `j` attempts. */
  ghost predicate MovedAreAttempted(ps: seq<PreparedNode>, attempted: seq<nat>, j: nat, before: Nodes, now: Nodes) {
    forall id :: id in now && id in before && now[id] != before[id] ==> AttemptedNode(ps, attempted, j, id)
  }

  ghost predicate AttemptedNode(ps: seq<PreparedNode>, attempted: seq<nat>, j: nat, id: TargetId) {
    exists a :: 0 <= a < j && a < |attempted| && attempted[a] < |ps| && ps[attempted[a]].target.id == id
  }

  /** Attempting mutation `k` covers the node it moves. */
  lemma AttemptCovers(ps: seq<PreparedNode>, attempted: seq<nat>, k: nat, before: Nodes, now: Nodes, v: Option<ScalarValue>)
    requires k < |ps| && MovedAreAttempted(ps, attempted, |attempted|, before, now)
    ensures MovedAreAttempted(ps, attempted + [k], |attempted| + 1, before, now)
    ensures MovedAreAttempted(ps, attempted + [k], |attempted| + 1, before, now[ps[k].target.id := v])
  {
    var more := attempted + [k];
    forall id | id in now && id in before && now[id] != before[id] ensures AttemptedNode(ps, more, |more|, id) {
      var a :| 0 <= a < |attempted| && attempted[a] < |ps| && ps[attempted[a]].target.id == id;
      assert more[a] == attempted[a];
    }
    assert AttemptedNode(ps, more, |more|, ps[k].target.id) by { assert more[|attempted|] == k; }
  }

  /** Undoing attempt `j` leaves only earlier attempts to undo. */
  lemma AttemptUndone(ps: seq<PreparedNode>, attempted: seq<nat>, j: nat, before: Nodes, now: Nodes)
    requires j < |attempted| && attempted[j] < |ps| && MovedAreAttempted(ps, attempted, j + 1, before, now)
    requires ps[attempted[j]].target.id in now && ps[attempted[j]].target.id in before
    requires now[ps[attempted[j]].target.id] == before[ps[attempted[j]].target.id]
    ensures MovedAreAttempted(ps, attempted, j, before, now)
  {
    forall id | id in now && id in before && now[id] != before[id] ensures AttemptedNode(ps, attempted, j, id) {
      var a :| 0 <= a < j + 1 && attempted[a] < |ps| && ps[attempted[a]].target.id == id;
      assert a < j;
    }
  }

  lemma NothingMoved(ps: seq<PreparedNode>, attempted: seq<nat>, before: Nodes, now: Nodes)
    requires now.Keys == before.Keys && MovedAreAttempted(ps, attempted, 0, before, now)
    ensures now == before
  {
    assert forall id :: !AttemptedNode(ps, attempted, 0, id);
  }

  // ------------------------------------------------------- what recovery would leave

  /** Agreement on every node outside `except`. */
  ghost predicate KeptExcept(a: Nodes, b: Nodes, except: set<TargetId>) {
    a.Keys == b.Keys && forall id :: id in a && id !in except ==> a[id] == b[id]
  }

  /** The claims fit the nodes a batch wants to change: still owned, nothing in flight, readable. */
  ghost predicate Owns(r: Registry, claims: Claims, scal: Nodes, wanted: Values) {
    && (forall id :: NodeChanges(scal, wanted, id) ==>
          id in r.scalars && r.scalars[id].id == id && scal[id].Some?
          && (id in claims ==> claims[id].applied == scal[id].value && claims[id].desired == scal[id].value))
  }

  lemma PreparedOwns(r: Registry, claims: Claims, scal: Nodes, wanted: Values, ps: seq<PreparedNode>)
    requires PreparedNodes(r, claims, scal, wanted, ps)
    ensures Owns(r, claims, scal, wanted)
  {
    assert UnfoldBatch(true);
    forall id | NodeChanges(scal, wanted, id)
      ensures id in r.scalars && r.scalars[id].id == id && scal[id].Some?
              && (id in claims ==> claims[id].applied == scal[id].value && claims[id].desired == scal[id].value)
    {
      assert ListedNode(ps, id);
      var i :| 0 <= i < |ps| && ps[i].target.id == id;
      assert NodeFor(r, claims, scal, wanted, ps[i]);
    }
  }

  /** Every node holds its value from before the batch or the one the batch wants. */
  ghost predicate Midway(before: Nodes, now: Nodes, wanted: Values) {
    now.Keys == before.Keys && forall id :: id in now ==> now[id] == before[id] || (id in wanted && now[id] == Some(wanted[id]))
  }

  /** Announcing a batch, and then writing any part of it, keeps what recovery would leave. */
  lemma AnnouncedKeepsOutcome(r: Registry, claims: Claims, before: Nodes, wanted: Values, announced: Claims, now: Nodes)
    requires Owns(r, claims, before, wanted) && NodesAnnounced(r, claims, before, wanted, announced) && Midway(before, now, wanted)
    ensures RestoredNodes(announced, now) == RestoredNodes(claims, before)
  {
    forall id | id in before ensures RestoredNodes(announced, now)[id] == RestoredNodes(claims, before)[id] {
      if !NodeChanges(before, wanted, id) {
        assert now[id] == before[id];
      }
    }
  }

  /** Once everything is written, the settled claims leave the same. */
  lemma SettledKeepsOutcome(r: Registry, claims: Claims, before: Nodes, wanted: Values, announced: Claims, settled: Claims)
    requires Owns(r, claims, before, wanted) && NodesAnnounced(r, claims, before, wanted, announced)
    requires NodesSettled(announced, before, wanted, settled)
    ensures RestoredNodes(settled, Over(before, wanted)) == RestoredNodes(claims, before)
  {
    var now := Over(before, wanted);
    forall id | id in before ensures RestoredNodes(settled, now)[id] == RestoredNodes(claims, before)[id] {
      assert NodeChanges(before, wanted, id) || now[id] == before[id];
    }
  }

  /** The node is changed by a batch while it is journaled away from its original. */
  ghost predicate AtRisk(claims: Claims, scal: Nodes, wanted: Values, id: TargetId) {
    NodeChanges(scal, wanted, id) && id in claims && scal[id] != Some(claims[id].original)
  }

  /**
   When a commit record reached the disk although its store reported failure, undoing the batch keeps what
   recovery would leave in every node except those at risk ...
   */
  lemma UndoneCommitKeepsOthers(r: Registry, claims: Claims, before: Nodes, wanted: Values, announced: Claims, settled: Claims,
                                now: Nodes, except: set<TargetId>)
    requires Owns(r, claims, before, wanted) && NodesAnnounced(r, claims, before, wanted, announced)
    requires NodesSettled(announced, before, wanted, settled) && Midway(before, now, wanted)
    requires forall id :: AtRisk(claims, before, wanted, id) ==> id in except
    ensures KeptExcept(RestoredNodes(claims, before), RestoredNodes(settled, now), except)
  {
    forall id | id in before && id !in except ensures RestoredNodes(claims, before)[id] == RestoredNodes(settled, now)[id] {
      assert !AtRisk(claims, before, wanted, id);
      if !NodeChanges(before, wanted, id) {
        assert now[id] == before[id];
      }
    }
  }

  /** ... and each node at risk that was put back is then left away from its original: the condition is exact. */
  lemma UndoneCommitLosesExactly(r: Registry, claims: Claims, before: Nodes, wanted: Values, announced: Claims, settled: Claims, id: TargetId)
    requires Owns(r, claims, before, wanted) && NodesAnnounced(r, claims, before, wanted, announced)
    requires NodesSettled(announced, before, wanted, settled) && id in before
    ensures RestoredNodes(settled, before)[id] == RestoredNodes(claims, before)[id] <==> !AtRisk(claims, before, wanted, id)
  {
  }

  /** With `stored` on disk, every interruption of the batch leaves what recovery would produce, outside `except`. */
  ghost predicate KeptMidway(claims: Claims, before: Nodes, stored: Claims, wanted: Values, except: set<TargetId>) {
    forall now :: Midway(before, now, wanted) ==> KeptExcept(RestoredNodes(claims, before), RestoredNodes(stored, now), except)
  }

  lemma AnnouncedKept(r: Registry, claims: Claims, before: Nodes, wanted: Values, announced: Claims, except: set<TargetId>)
    requires Owns(r, claims, before, wanted) && NodesAnnounced(r, claims, before, wanted, announced)
    ensures KeptMidway(claims, before, announced, wanted, except)
  {
    forall now | Midway(before, now, wanted) ensures KeptExcept(RestoredNodes(claims, before), RestoredNodes(announced, now), except) {
      AnnouncedKeepsOutcome(r, claims, before, wanted, announced, now);
    }
  }

  lemma CommittedKept(r: Registry, claims: Claims, before: Nodes, wanted: Values, announced: Claims, settled: Claims, except: set<TargetId>)
    requires Owns(r, claims, before, wanted) && NodesAnnounced(r, claims, before, wanted, announced)
    requires NodesSettled(announced, before, wanted, settled)
    requires forall id :: AtRisk(claims, before, wanted, id) ==> id in except
    ensures KeptMidway(claims, before, settled, wanted, except)
  {
    forall now | Midway(before, now, wanted) ensures KeptExcept(RestoredNodes(claims, before), RestoredNodes(settled, now), except) {
      UndoneCommitKeepsOthers(r, claims, before, wanted, announced, settled, now, except);
    }
  }

  /** Whichever of the two records reached the disk. */
  lemma KeptOnDisk(r: Registry, claims: Claims, before: Nodes, wanted: Values, announced: Claims, settled: Claims, except: set<TargetId>, intentOnly: bool)
    requires Owns(r, claims, before, wanted) && NodesAnnounced(r, claims, before, wanted, announced)
    requires NodesSettled(announced, before, wanted, settled)
    requires intentOnly || forall id :: AtRisk(claims, before, wanted, id) ==> id in except
    ensures KeptMidway(claims, before, if intentOnly then announced else settled, wanted, except)
  {
    if intentOnly {
      AnnouncedKept(r, claims, before, wanted, announced, except);
    } else {
      CommittedKept(r, claims, before, wanted, announced, settled, except);
    }
  }

  /** The nodes a request list puts at risk. */
  ghost function RiskSet(claims: Claims, scal: Nodes, requests: seq<ScalarRequest>): set<TargetId> {
    set q | q in requests && q.target in claims && q.target in scal
            && scal[q.target] != Some(q.value) && scal[q.target] != Some(claims[q.target].original) :: q.target
  }

  lemma RiskSetCovers(claims: Claims, scal: Nodes, requests: seq<ScalarRequest>, wanted: Values)
    requires AskedFor(requests, wanted)
    ensures forall id :: AtRisk(claims, scal, wanted, id) ==> id in RiskSet(claims, scal, requests)
  {
    forall id | AtRisk(claims, scal, wanted, id) ensures id in RiskSet(claims, scal, requests) {
      assert Asks(requests, id);
      var i :| 0 <= i < |requests| && requests[i].target == id;
      assert requests[i] in requests;
    }
  }

  /** What any outcome of a batch leaves: a node that changed is readable, and a new claim was requested on a readable node. */
  ghost predicate NodesSane(r: Registry, requests: seq<ScalarRequest>, owned: set<TargetId>, before: Nodes, claimed: set<TargetId>, now: Nodes) {
    && now.Keys == before.Keys
    && (forall id :: id in now ==> now[id] == before[id] || Readable(r, now, id))
    && (forall id :: id in claimed ==> id in owned || (Asks(requests, id) && Readable(r, before, id)))
  }

  lemma MidwayIsSane(r: Registry, requests: seq<ScalarRequest>, claims: Claims, before: Nodes, wanted: Values, ps: seq<PreparedNode>,
                     claimed: set<TargetId>, now: Nodes)
    requires PreparedNodes(r, claims, before, wanted, ps) && AskedFor(requests, wanted) && Midway(before, now, wanted)
    requires forall id :: id in claimed ==> id in claims || NodeChanges(before, wanted, id)
    ensures NodesSane(r, requests, claims.Keys, before, claimed, now)
  {
    forall id | id in wanted
      ensures id in r.scalars && Readable(r, before, id) && ValidValue(r.scalars[id].domain, wanted[id])
    {
      assert UnfoldBatch(true);
      assert ListedNode(ps, id);
      var i :| 0 <= i < |ps| && ps[i].target.id == id;
      assert NodeFor(r, claims, before, wanted, ps[i]) && InspectNode(i);
    }
  }

  /** The announced claims come from the registry. */
  lemma AnnouncedNodesAreOurs(r: Registry, claims: Claims, scal: Nodes, wanted: Values, ps: seq<PreparedNode>, now: Claims)
    requires PreparedNodes(r, claims, scal, wanted, ps) && NodesFrom(r, claims) && NodesAnnounced(r, claims, scal, wanted, now)
    ensures NodesFrom(r, now)
  {
    forall id | id in now ensures id in r.scalars && ScalarEntryFor(r.scalars[id], now[id]) && ValuesFor(r.scalars[id], now[id]) {
      assert Inspect(id);
      if NodeChanges(scal, wanted, id) {
        assert UnfoldBatch(true);
        assert ListedNode(ps, id);
        var i :| 0 <= i < |ps| && ps[i].target.id == id;
        assert NodeFor(r, claims, scal, wanted, ps[i]) && InspectNode(i);
      }
    }
  }

  lemma SettledNodesAreOurs(r: Registry, announced: Claims, scal: Nodes, wanted: Values, settled: Claims, claims: Claims)
    requires NodesFrom(r, announced) && NodesAnnounced(r, claims, scal, wanted, announced) && NodesSettled(announced, scal, wanted, settled)
    requires forall id :: id in claims ==> claims[id].applied == claims[id].desired
    ensures NodesFrom(r, settled) && forall id :: id in settled ==> settled[id].applied == settled[id].desired
  {
    forall id | id in settled
      ensures id in r.scalars && ScalarEntryFor(r.scalars[id], settled[id]) && ValuesFor(r.scalars[id], settled[id])
              && settled[id].applied == settled[id].desired
    {
      assert Inspect(id);
    }
  }

  // --------------------------------------------------------------------- restoring

  /** `needs_write` of a restore: the node still holds a journaled value other than its original. */
  predicate NeedsRestore(e: ScalarEntry, current: Option<ScalarValue>) {
    (current == Some(e.applied) || current == Some(e.desired)) && current != Some(e.original)
  }

  function RestoreIntent(e: ScalarEntry, current: Option<ScalarValue>): ScalarEntry {
    if NeedsRestore(e, current) then e.(applied := current.value, desired := e.original) else e
  }

  ghost predicate InNodes(list: seq<ScalarEntry>, id: TargetId) { exists i :: 0 <= i < |list| && list[i].target == id }

  ghost predicate TakenNodes(r: Registry, claims: Claims, list: seq<ScalarEntry>) {
    forall i :: 0 <= i < |list| ==> list[i].target in claims && claims[list[i].target] == list[i]
                                    && list[i].target in r.scalars && ScalarEntryFor(r.scalars[list[i].target], list[i])
  }

  /** Picking entries by id takes exactly the journaled ones among them. */
  lemma JournaledNodesCorrect(r: Registry, claims: Claims, ids: seq<TargetId>)
    requires NodesFrom(r, claims) && forall id :: id in r.scalars ==> r.scalars[id].id == id
    ensures TakenNodes(r, claims, Pick(claims, ids))
    ensures forall id :: InNodes(Pick(claims, ids), id) <==> id in ids && id in claims
  {
    var list := Pick(claims, ids);
    PickCorrect(claims, ids);
    forall id | id in claims ensures claims[id].target == id { assert ScalarEntryFor(r.scalars[id], claims[id]); }
    forall i | 0 <= i < |list| ensures exists id :: id in ids && id in claims && claims[id] == list[i] { assert list[i] in list; }
    forall id | id in ids && id in claims ensures InNodes(list, id) {
      var i :| 0 <= i < |list| && list[i] == claims[id];
    }
  }

  ghost predicate AllReadable(r: Registry, scal: Nodes, ids: set<TargetId>) { forall id :: id in ids ==> Readable(r, scal, id) }

  lemma ListReadable(r: Registry, scal: Nodes, list: seq<ScalarEntry>, listed: set<TargetId>)
    requires forall id :: id in listed <==> InNodes(list, id)
    ensures AllReadable(r, scal, listed) <==> forall i :: 0 <= i < |list| ==> Readable(r, scal, list[i].target)
  {
    forall i | 0 <= i < |list| ensures list[i].target in listed {
      assert InNodes(list, list[i].target);
    }
    forall id | id in listed ensures exists i :: 0 <= i < |list| && list[i].target == id {
      assert InNodes(list, id);
    }
  }

  /** The journal after the planning loop: every listed node that needs it is announced as being restored. */
  ghost predicate RestoresPlanned(claims: Claims, scal: Nodes, listed: set<TargetId>, now: Claims) {
    && now.Keys == claims.Keys
    && (forall id :: id in now ==> now[id] == if id in listed && id in scal then RestoreIntent(claims[id], scal[id]) else claims[id])
  }

  lemma PlanOne(claims: Claims, scal: Nodes, done: set<TargetId>, now: Claims, id: TargetId)
    requires RestoresPlanned(claims, scal, done, now) && id in claims && id in scal
    ensures RestoresPlanned(claims, scal, done + {id},
                            if NeedsRestore(claims[id], scal[id])
                            then now[id := now[id].(applied := scal[id].value, desired := claims[id].original)] else now)
  {
  }

  /** Listed nodes may already hold their original again. */
  ghost predicate Restoring(claims: Claims, before: Nodes, listed: set<TargetId>, now: Nodes) {
    && now.Keys == before.Keys
    && (forall id :: id in now ==> now[id] == before[id] || (id in listed && id in claims && now[id] == NodeOutcome(claims[id], before[id])))
  }

  /** The listed nodes done, the others untouched. */
  ghost function RestoredSome(claims: Claims, scal: Nodes, listed: set<TargetId>): Nodes {
    map id | id in scal :: if id in listed && id in claims then NodeOutcome(claims[id], scal[id]) else scal[id]
  }

  lemma PlannedRestoresKeepOutcome(claims: Claims, before: Nodes, listed: set<TargetId>, planned: Claims, now: Nodes)
    requires RestoresPlanned(claims, before, listed, planned) && Restoring(claims, before, listed, now)
    ensures RestoredNodes(planned, now) == RestoredNodes(claims, before)
  {
    forall id | id in before ensures RestoredNodes(planned, now)[id] == RestoredNodes(claims, before)[id] {
      if id in claims { assert planned[id].original == claims[id].original; }
    }
  }

  lemma NothingPlanned(claims: Claims, scal: Nodes, list: seq<ScalarEntry>, listed: set<TargetId>, planned: Claims)
    requires RestoresPlanned(claims, scal, listed, planned) && forall id :: id in listed <==> InNodes(list, id)
    requires forall i :: 0 <= i < |list| ==> list[i].target in claims && list[i] == claims[list[i].target] && list[i].target in scal
    requires forall i :: 0 <= i < |list| ==> !NeedsRestore(list[i], scal[list[i].target])
    ensures planned == claims
  {
    forall id | id in claims ensures planned[id] == claims[id] {
      if id in listed { assert InNodes(list, id); }
    }
  }

  lemma ReleasedNodesKeepOutcome(claims: Claims, before: Nodes, listed: set<TargetId>, planned: Claims, rest: Claims)
    requires RestoresPlanned(claims, before, listed, planned)
    requires rest == planned - listed
    ensures rest == claims - listed
    ensures RestoredNodes(rest, RestoredSome(claims, before, listed)) == RestoredNodes(claims, before)
  {
  }

  lemma PlannedNodesAreOurs(r: Registry, claims: Claims, scal: Nodes, listed: set<TargetId>, planned: Claims)
    requires NodesFrom(r, claims) && RestoresPlanned(claims, scal, listed, planned)
    ensures NodesFrom(r, planned)
  {
    forall id | id in planned ensures id in r.scalars && ScalarEntryFor(r.scalars[id], planned[id]) && ValuesFor(r.scalars[id], planned[id]) {
      assert Inspect(id);
    }
  }

  lemma NothingToWriteNodes(r: Registry, claims: Claims, scal: Nodes, wanted: Values, ps: seq<PreparedNode>, applied: Values)
    requires PreparedNodes(r, claims, scal, wanted, ps) && forall i :: 0 <= i < |ps| ==> !ps[i].needsWrite
    requires forall i :: 0 <= i < |ps| ==> ps[i].target.id in applied && applied[ps[i].target.id] == ps[i].before
    requires forall id :: id in applied ==> ListedNode(ps, id)
    ensures applied == wanted && Over(scal, wanted) == scal && forall id :: !NodeChanges(scal, wanted, id)
  {
    assert UnfoldBatch(true);
    forall id | id in wanted || id in applied ensures id in wanted && id in applied && id in scal && scal[id] == Some(wanted[id]) && applied[id] == wanted[id] {
      var i :| 0 <= i < |ps| && ps[i].target.id == id;
      assert NodeFor(r, claims, scal, wanted, ps[i]);
    }
  }
}
