/**
 Frequency batches as values: what a request list asks for, the mutations prepared for it, and how the
 registers and the journal entries stand while the batch is announced and written.
 */
module Batch {
  import opened Common
  import opened Frequency
  import opened Journal

  datatype FrequencyRequest = FrequencyRequest(target: TargetId, limits: Limits)

  /** `PreparedFrequencyMutation`. */
  datatype Prepared = Prepared(target: FrequencyTarget, before: Limits, previous: Limits, desired: Limits, needsWrite: bool)

  // ------------------------------------------------------------ what is asked for

  /** Add one request to what was asked for so far: it must not repeat, be unknown or be invalid. */
  function AddRequest(r: Registry, sofar: Option<map<TargetId, Limits>>, q: FrequencyRequest): Option<map<TargetId, Limits>> {
    match sofar
    case None => None
    case Some(m) =>
      if q.target in m || q.target !in r.targets then None
      else
        match SnapLimits(r.targets[q.target], q.limits)
        case Err(_) => None
        case Ok(l) => Some(m[q.target := l])
  }

  /** Each target's snapped window, unless some request is rejected. */
  function Snapped(r: Registry, requests: seq<FrequencyRequest>): Option<map<TargetId, Limits>> {
    if requests == [] then Some(map[])
    else AddRequest(r, Snapped(r, requests[..|requests| - 1]), requests[|requests| - 1])
  }

  lemma SnappedNext(r: Registry, requests: seq<FrequencyRequest>, k: nat)
    requires k < |requests|
    ensures Snapped(r, requests[..k + 1]) == AddRequest(r, Snapped(r, requests[..k]), requests[k])
  {
    var upTo := requests[..k + 1];
    assert upTo[..|upTo| - 1] == requests[..k] && upTo[|upTo| - 1] == requests[k];
  }

  /** A target may be claimed only from its full hardware range, unless it already holds the wanted window. */
  predicate ClaimableOne(r: Registry, owned: set<TargetId>, freq: map<TargetId, Limits>, id: TargetId, l: Limits) {
    id in owned || (id in freq && id in r.targets && (freq[id] == l || freq[id] == HardwareLimits(r.targets[id])))
  }

  predicate Claimable(r: Registry, owned: set<TargetId>, freq: map<TargetId, Limits>, wanted: map<TargetId, Limits>) {
    forall id :: id in wanted ==> ClaimableOne(r, owned, freq, id, wanted[id])
  }

  /** A rejected prefix rejects the whole batch. */
  lemma {:induction false} SnappedPrefix(r: Registry, requests: seq<FrequencyRequest>, k: nat)
    requires k <= |requests| && Snapped(r, requests[..k]).None?
    ensures Snapped(r, requests).None?
    decreases |requests| - k
  {
    if k == |requests| {
      assert requests[..k] == requests;
    } else {
      SnappedNext(r, requests, k);
      SnappedPrefix(r, requests, k + 1);
    }
  }

  /** An accepted batch contains what each of its prefixes asked for. */
  lemma {:induction false} SnappedExtends(r: Registry, requests: seq<FrequencyRequest>, k: nat)
    requires k <= |requests| && Snapped(r, requests).Some? && Snapped(r, requests[..k]).Some?
    ensures forall id :: id in Snapped(r, requests[..k]).value ==>
              id in Snapped(r, requests).value && Snapped(r, requests).value[id] == Snapped(r, requests[..k]).value[id]
    decreases |requests| - k
  {
    if k == |requests| {
      assert requests[..k] == requests;
    } else {
      SnappedNext(r, requests, k);
      if Snapped(r, requests[..k + 1]).None? {
        SnappedPrefix(r, requests, k + 1);
      } else {
        SnappedExtends(r, requests, k + 1);
      }
    }
  }

  /** What a fault-free `apply_batch` accepts. */
  predicate Acceptable(r: Registry, owned: set<TargetId>, freq: map<TargetId, Limits>, requests: seq<FrequencyRequest>) {
    var wanted := Snapped(r, requests);
    wanted.Some? && Claimable(r, owned, freq, wanted.value)
  }

  /** A batch whose request `k` repeats, is unknown, cannot be snapped or cannot be claimed is not acceptable. */
  lemma RejectedPrefix(r: Registry, owned: set<TargetId>, freq: map<TargetId, Limits>, requests: seq<FrequencyRequest>, k: nat)
    requires k < |requests| && Snapped(r, requests[..k]).Some?
    ensures
      var q, wanted := requests[k], Snapped(r, requests[..k]).value;
      var ok := && q.target !in wanted && q.target in r.targets
                && SnapLimits(r.targets[q.target], q.limits).Ok?
                && ClaimableOne(r, owned, freq, q.target, SnapLimits(r.targets[q.target], q.limits).value);
      && (!ok ==> !Acceptable(r, owned, freq, requests))
      && (ok ==> Snapped(r, requests[..k + 1]) == Some(wanted[q.target := SnapLimits(r.targets[q.target], q.limits).value]))
  {
    SnappedNext(r, requests, k);
    if Snapped(r, requests[..k + 1]).None? {
      SnappedPrefix(r, requests, k + 1);
    } else if Snapped(r, requests).Some? {
      SnappedExtends(r, requests, k + 1);
      assert requests[k].target in Snapped(r, requests[..k + 1]).value;
    }
  }

  // -------------------------------------------------------------- journal entries

  /** The journal entry of a target that holds window `l` and has no transition under way. */
  function Settled(t: FrequencyTarget, l: Limits): FrequencyEntry {
    FrequencyEntry(t.id, t.minPath, t.maxPath, FrequencyPair(t), HardwareLimits(t), l, l, [l])
  }

  /** The journal entry announcing a transition. */
  function Intent(t: FrequencyTarget, from: Limits, to: Limits): FrequencyEntry {
    FrequencyEntry(t.id, t.minPath, t.maxPath, FrequencyPair(t), HardwareLimits(t), to, from, LegalPairs(from, to))
  }

  /** An entry on its way to window `to`. */
  predicate Heading(t: FrequencyTarget, to: Limits, e: FrequencyEntry) {
    EntryFor(t, e) && e.desired == to
  }

  lemma IntentIsWritten(t: FrequencyTarget, from: Limits, to: Limits)
    requires ValidLimits(t, from) && ValidLimits(t, to)
    ensures EntryFor(t, Intent(t, from, to)) && TransitionFor(t, Intent(t, from, to))
  {
    LegalPairsAreVisiblePairs(t, from, to);
  }

  lemma EntriesGrow(r: Registry, entries: map<TargetId, FrequencyEntry>, id: TargetId, e: FrequencyEntry)
    requires EntriesFrom(r, entries) && id in r.targets
    requires EntryFor(r.targets[id], e) && TransitionFor(r.targets[id], e)
    ensures EntriesFrom(r, entries[id := e])
  {
  }

  // ---------------------------------------------------------------- the machine

  predicate InHardware(t: FrequencyTarget, l: Limits) { t.hardwareMin <= l.min <= l.max <= t.hardwareMax }

  ghost predicate RegistersOk(r: Registry, freq: map<TargetId, Limits>) {
    r.targets.Keys <= freq.Keys && forall id :: id in r.targets ==> InHardware(r.targets[id], freq[id])
  }

  ghost predicate UsableRegistry(r: Registry) {
    && (forall id :: id in r.targets ==> r.targets[id].id == id)
    && (forall id :: id in r.scalars ==> r.scalars[id].id == id)
    && (forall id {:trigger Inspect(id)} :: Inspect(id) && id in r.targets ==> CanonicalTarget(r.targets[id]))
  }

  /** The batch wants something other than what the registers held. */
  predicate Changes(before: map<TargetId, Limits>, wanted: map<TargetId, Limits>, id: TargetId) {
    id in wanted && id in before && wanted[id] != before[id]
  }

  // ---------------------------------------------------------- prepared mutations

  /** One prepared mutation of registers that held `freq`, towards the windows in `wanted`. */
  ghost predicate PreparedFor(r: Registry, freq: map<TargetId, Limits>, wanted: map<TargetId, Limits>, m: Prepared) {
    var id := m.target.id;
    && id in r.targets && m.target == r.targets[id] && id in freq && id in wanted
    && m.desired == wanted[id] && m.before == freq[id]
    && (m.needsWrite <==> Changes(freq, wanted, id))
    && (m.needsWrite ==> m.previous == m.before)
  }

  /** Its two ends are valid windows. */
  ghost predicate PreparedValid(m: Prepared) {
    ValidLimits(m.target, m.desired) && (m.needsWrite ==> ValidLimits(m.target, m.previous))
  }

  /** Always true; asserting it for an index brings that mutation's validity into a proof. */
  predicate InspectAt(i: int) { true }

  ghost predicate Listed(ps: seq<Prepared>, id: TargetId) { exists i :: 0 <= i < |ps| && ps[i].target.id == id }

  ghost predicate PreparedBatch(r: Registry, freq: map<TargetId, Limits>, wanted: map<TargetId, Limits>, ps: seq<Prepared>) {
    forall z {:trigger UnfoldBatch(z)} :: UnfoldBatch(z) ==>
      && (forall i :: 0 <= i < |ps| ==> PreparedFor(r, freq, wanted, ps[i]))
      && (forall i, j :: 0 <= i < j < |ps| ==> ps[i].target.id != ps[j].target.id)
      && (forall i {:trigger InspectAt(i)} :: InspectAt(i) && 0 <= i < |ps| ==> PreparedValid(ps[i]))
      && (forall id :: id in wanted ==> Listed(ps, id))
  }

  /** A batch whose request `k` repeats, is unknown, cannot be snapped or is not owned is not acceptable. */
  lemma RejectedOwned(r: Registry, owned: set<TargetId>, requests: seq<FrequencyRequest>, k: nat)
    requires k < |requests| && Snapped(r, requests[..k]).Some?
    ensures
      var q, wanted := requests[k], Snapped(r, requests[..k]).value;
      var ok := q.target !in wanted && q.target in r.targets && SnapLimits(r.targets[q.target], q.limits).Ok? && q.target in owned;
      !ok ==> !(Snapped(r, requests).Some? && Snapped(r, requests).value.Keys <= owned)
  {
    SnappedNext(r, requests, k);
    if Snapped(r, requests[..k + 1]).None? {
      SnappedPrefix(r, requests, k + 1);
    } else if Snapped(r, requests).Some? {
      SnappedExtends(r, requests, k + 1);
      assert requests[k].target in Snapped(r, requests[..k + 1]).value;
    }
  }

  lemma PreparedGrows(r: Registry, freq: map<TargetId, Limits>, wanted: map<TargetId, Limits>, ps: seq<Prepared>, m: Prepared)
    requires PreparedBatch(r, freq, wanted, ps) && m.target.id !in wanted
    requires PreparedFor(r, freq, map[m.target.id := m.desired], m) && PreparedValid(m)
    ensures PreparedBatch(r, freq, wanted[m.target.id := m.desired], ps + [m])
  {
    assert UnfoldBatch(true);
    var all, grown := ps + [m], wanted[m.target.id := m.desired];
    forall i | 0 <= i < |all| ensures PreparedFor(r, freq, grown, all[i]) && (i < |ps| ==> all[i].target.id != m.target.id) {
      if i < |ps| { assert PreparedFor(r, freq, wanted, ps[i]); }
    }
    forall i | 0 <= i < |all| ensures PreparedValid(all[i]) {
      assert InspectAt(i);
    }
    forall id | id in grown ensures Listed(all, id) {
      if id in wanted {
        var i :| 0 <= i < |ps| && ps[i].target.id == id;
        assert all[i].target.id == id;
      } else {
        assert all[|ps|].target.id == id;
      }
    }
  }

  /** The state of the validation loop: the requests seen so far are accepted and prepared. */
  ghost predicate Collected(r: Registry, owned: set<TargetId>, freq: map<TargetId, Limits>, requests: seq<FrequencyRequest>,
                            wanted: map<TargetId, Limits>, ps: seq<Prepared>) {
    Snapped(r, requests) == Some(wanted) && Claimable(r, owned, freq, wanted) && PreparedBatch(r, freq, wanted, ps)
  }

  lemma CollectOne(r: Registry, owned: set<TargetId>, freq: map<TargetId, Limits>, requests: seq<FrequencyRequest>, k: nat,
                   wanted: map<TargetId, Limits>, ps: seq<Prepared>, m: Prepared)
    requires k < |requests| && Collected(r, owned, freq, requests[..k], wanted, ps)
    requires m.target.id == requests[k].target && m.target.id !in wanted && m.target.id in r.targets
    requires SnapLimits(r.targets[m.target.id], requests[k].limits) == Ok(m.desired)
    requires PreparedFor(r, freq, map[m.target.id := m.desired], m) && PreparedValid(m)
    requires ClaimableOne(r, owned, freq, m.target.id, m.desired)
    ensures Collected(r, owned, freq, requests[..k + 1], wanted[m.target.id := m.desired], ps + [m])
  {
    RejectedPrefix(r, owned, freq, requests, k);
    PreparedGrows(r, freq, wanted, ps, m);
  }

  // ----------------------------------------------------- the announce and write loops

  /** Entries outside the batch's changes are untouched. */
  ghost predicate Untouched(before: map<TargetId, FrequencyEntry>, now: map<TargetId, FrequencyEntry>,
                            freq: map<TargetId, Limits>, wanted: map<TargetId, Limits>) {
    forall id :: !Changes(freq, wanted, id) ==> (id in now <==> id in before) && (id in now ==> now[id] == before[id])
  }

  /** The first `k` mutations are announced. */
  ghost predicate Announced(now: map<TargetId, FrequencyEntry>, ps: seq<Prepared>, k: nat) {
    forall z {:trigger UnfoldBatch(z)} :: UnfoldBatch(z) ==>
      forall i :: 0 <= i < k && i < |ps| && ps[i].needsWrite ==>
        ps[i].target.id in now && Heading(ps[i].target, ps[i].desired, now[ps[i].target.id])
  }

  /** The facts about mutation `k` the announce loop needs. */
  lemma PreparedAt(r: Registry, freq: map<TargetId, Limits>, wanted: map<TargetId, Limits>, ps: seq<Prepared>, k: nat)
    requires PreparedBatch(r, freq, wanted, ps) && k < |ps|
    ensures PreparedFor(r, freq, wanted, ps[k]) && PreparedValid(ps[k])
  {
    assert UnfoldBatch(true) && InspectAt(k);
  }

  /** Announcing mutation `k`, or skipping one that needs no write. */
  lemma AnnounceNext(r: Registry, freq: map<TargetId, Limits>, wanted: map<TargetId, Limits>, ps: seq<Prepared>, k: nat,
                     before: map<TargetId, FrequencyEntry>, now: map<TargetId, FrequencyEntry>, entry: FrequencyEntry)
    requires PreparedBatch(r, freq, wanted, ps) && k < |ps| && Untouched(before, now, freq, wanted) && Announced(now, ps, k)
    requires ps[k].needsWrite ==> Heading(ps[k].target, ps[k].desired, entry)
    ensures var next := if ps[k].needsWrite then now[ps[k].target.id := entry] else now;
            Untouched(before, next, freq, wanted) && Announced(next, ps, k + 1)
  {
    assert UnfoldBatch(true);
    assert PreparedFor(r, freq, wanted, ps[k]);
  }

  /** The first `done` of the announced transitions settled. */
  ghost predicate Progressed(announced: map<TargetId, FrequencyEntry>, now: map<TargetId, FrequencyEntry>, ps: seq<Prepared>, done: nat) {
    && now.Keys == announced.Keys
    && (forall z {:trigger UnfoldBatch(z)} :: UnfoldBatch(z) ==>
          forall i :: 0 <= i < |ps| && ps[i].needsWrite ==>
            && ps[i].target.id in now
            && (i < done ==> now[ps[i].target.id] == Settled(ps[i].target, ps[i].desired))
            && (done <= i ==> now[ps[i].target.id] == announced[ps[i].target.id]))
  }

  /** Settling touches only the batch's own entries. */
  ghost predicate UntouchedBy(announced: map<TargetId, FrequencyEntry>, now: map<TargetId, FrequencyEntry>,
                              freq: map<TargetId, Limits>, wanted: map<TargetId, Limits>) {
    forall id :: id in now && id in announced && !Changes(freq, wanted, id) ==> now[id] == announced[id]
  }

  /** Registers outside the batch's changes are untouched. */
  ghost predicate Moved(before: map<TargetId, Limits>, now: map<TargetId, Limits>, wanted: map<TargetId, Limits>) {
    now.Keys == before.Keys && forall id :: id in now && !Changes(before, wanted, id) ==> now[id] == before[id]
  }

  /** The registers after `k` iterations of the write loop. */
  ghost predicate RegistersLoop(ps: seq<Prepared>, k: nat, before: map<TargetId, Limits>, now: map<TargetId, Limits>) {
    now.Keys == before.Keys
    && forall i :: 0 <= i < |ps| && ps[i].target.id in now ==> now[ps[i].target.id] == if i < k then ps[i].desired else before[ps[i].target.id]
  }

  /** The outcome map after `k` iterations. */
  ghost predicate OutcomeLoop(ps: seq<Prepared>, k: nat, wanted: map<TargetId, Limits>, applied: map<TargetId, Limits>) {
    && (forall id :: id in applied ==> id in wanted && applied[id] == wanted[id])
    && (forall i :: 0 <= i < k && i < |ps| ==> ps[i].target.id in applied)
  }

  /** `attempted` lists mutations, and every target outside it still has its old registers. */
  ghost predicate AttemptsCover(ps: seq<Prepared>, attempted: seq<nat>, k: nat) {
    && (forall a :: 0 <= a < |attempted| ==> attempted[a] < k && attempted[a] < |ps| && ps[attempted[a]].needsWrite)
    && (forall i :: 0 <= i < k && i < |ps| && ps[i].needsWrite ==> i in attempted)
  }

  /** Iteration `k` wrote only its own target's registers. */
  lemma RegistersStep(r: Registry, ps: seq<Prepared>, k: nat, before: map<TargetId, Limits>, now: map<TargetId, Limits>,
                      wanted: map<TargetId, Limits>, l: Limits)
    requires PreparedBatch(r, before, wanted, ps) && k < |ps| && ps[k].needsWrite
    requires RegistersLoop(ps, k, before, now) && Moved(before, now, wanted)
    ensures
      var next := now[ps[k].target.id := l];
      && Moved(before, next, wanted)
      && (forall i :: k < i < |ps| ==> ps[i].target.id in next && next[ps[i].target.id] == before[ps[i].target.id])
      && (l == ps[k].desired ==> RegistersLoop(ps, k + 1, before, next))
  {
    assert UnfoldBatch(true);
    assert PreparedFor(r, before, wanted, ps[k]);
    forall i | k < i < |ps| ensures ps[i].target.id in now && ps[i].target.id != ps[k].target.id {
      assert PreparedFor(r, before, wanted, ps[i]);
    }
  }

  lemma AttemptsStep(ps: seq<Prepared>, attempted: seq<nat>, k: nat)
    requires AttemptsCover(ps, attempted, k) && k < |ps|
    ensures ps[k].needsWrite ==> AttemptsCover(ps, attempted + [k], k + 1)
    ensures !ps[k].needsWrite ==> AttemptsCover(ps, attempted, k + 1)
  {
    var more := attempted + [k];
    assert forall i :: i in attempted ==> i in more;
    assert more[|attempted|] == k;
  }

  lemma ProgressedStep(announced: map<TargetId, FrequencyEntry>, entries: map<TargetId, FrequencyEntry>, ps: seq<Prepared>, k: nat)
    requires Progressed(announced, entries, ps, k) && k < |ps|
    requires forall i, j :: 0 <= i < j < |ps| ==> ps[i].target.id != ps[j].target.id
    ensures ps[k].needsWrite ==> Progressed(announced, entries[ps[k].target.id := Settled(ps[k].target, ps[k].desired)], ps, k + 1)
    ensures !ps[k].needsWrite ==> Progressed(announced, entries, ps, k + 1)
  {
    assert UnfoldBatch(true);
  }

  /** The write loop after `k` successful iterations (folded). */
  ghost predicate Writing(r: Registry, wanted: map<TargetId, Limits>, ps: seq<Prepared>, k: nat,
                          before: map<TargetId, Limits>, now: map<TargetId, Limits>,
                          announced: map<TargetId, FrequencyEntry>, entries: map<TargetId, FrequencyEntry>,
                          applied: map<TargetId, Limits>, attempted: seq<nat>) {
    forall z {:trigger Unfold(z)} :: Unfold(z) ==>
      && PreparedBatch(r, before, wanted, ps) && k <= |ps|
      && RegistersOk(r, now) && Moved(before, now, wanted) && RegistersLoop(ps, k, before, now)
      && OutcomeLoop(ps, k, wanted, applied) && AttemptsCover(ps, attempted, k)
      && Announced(announced, ps, |ps|) && Progressed(announced, entries, ps, k) && UntouchedBy(announced, entries, before, wanted)
  }

  lemma WritingStarts(r: Registry, wanted: map<TargetId, Limits>, ps: seq<Prepared>, freq: map<TargetId, Limits>, entries: map<TargetId, FrequencyEntry>)
    requires PreparedBatch(r, freq, wanted, ps) && RegistersOk(r, freq) && Announced(entries, ps, |ps|)
    ensures Writing(r, wanted, ps, 0, freq, freq, entries, entries, map[], [])
  {
    assert UnfoldBatch(true);
  }

  /** What iteration `k` finds. */
  lemma WritingAt(r: Registry, wanted: map<TargetId, Limits>, ps: seq<Prepared>, k: nat, before: map<TargetId, Limits>, now: map<TargetId, Limits>,
                  announced: map<TargetId, FrequencyEntry>, entries: map<TargetId, FrequencyEntry>, applied: map<TargetId, Limits>, attempted: seq<nat>)
    requires Writing(r, wanted, ps, k, before, now, announced, entries, applied, attempted) && k < |ps|
    ensures
      var m, id := ps[k], ps[k].target.id;
      && id in r.targets && m.target == r.targets[id] && id in now && now[id] == m.before
      && (m.needsWrite ==> && m.previous == m.before && ValidLimits(m.target, m.previous) && ValidLimits(m.target, m.desired)
                           && id in entries && Heading(m.target, m.desired, entries[id]))
  {
    assert Unfold(true) && UnfoldBatch(true) && InspectAt(k);
    assert PreparedFor(r, before, wanted, ps[k]);
  }

  lemma WritingSkips(r: Registry, wanted: map<TargetId, Limits>, ps: seq<Prepared>, k: nat, before: map<TargetId, Limits>, now: map<TargetId, Limits>,
                     announced: map<TargetId, FrequencyEntry>, entries: map<TargetId, FrequencyEntry>, applied: map<TargetId, Limits>, attempted: seq<nat>)
    requires Writing(r, wanted, ps, k, before, now, announced, entries, applied, attempted) && k < |ps| && !ps[k].needsWrite
    ensures Writing(r, wanted, ps, k + 1, before, now, announced, entries, applied[ps[k].target.id := ps[k].before], attempted)
  {
    assert Unfold(true) && UnfoldBatch(true);
    assert PreparedFor(r, before, wanted, ps[k]);
    AttemptsStep(ps, attempted, k);
    ProgressedStep(announced, entries, ps, k);
  }

  /** Target `k` was being written: what a failure there leaves. */
  lemma WritingStops(r: Registry, wanted: map<TargetId, Limits>, ps: seq<Prepared>, k: nat, before: map<TargetId, Limits>, now: map<TargetId, Limits>,
                     announced: map<TargetId, FrequencyEntry>, entries: map<TargetId, FrequencyEntry>, applied: map<TargetId, Limits>, attempted: seq<nat>,
                     l: Limits)
    requires Writing(r, wanted, ps, k, before, now, announced, entries, applied, attempted) && k < |ps| && ps[k].needsWrite
    requires InHardware(ps[k].target, l)
    ensures Interrupted(r, wanted, ps, before, now[ps[k].target.id := l], attempted + [k])
    ensures entries.Keys == announced.Keys && UntouchedBy(announced, entries, before, wanted)
  {
    assert Unfold(true) && UnfoldBatch(true);
    assert PreparedFor(r, before, wanted, ps[k]);
    RegistersStep(r, ps, k, before, now, wanted, l);
    AttemptsStep(ps, attempted, k);
    var next, more := now[ps[k].target.id := l], attempted + [k];
    forall i | 0 <= i < |ps| && ps[i].needsWrite && i !in more ensures ps[i].target.id in next && next[ps[i].target.id] == before[ps[i].target.id] {
      assert i > k;
    }
  }

  lemma WritingSettles(r: Registry, wanted: map<TargetId, Limits>, ps: seq<Prepared>, k: nat, before: map<TargetId, Limits>, now: map<TargetId, Limits>,
                       announced: map<TargetId, FrequencyEntry>, entries: map<TargetId, FrequencyEntry>, applied: map<TargetId, Limits>, attempted: seq<nat>)
    requires Writing(r, wanted, ps, k, before, now, announced, entries, applied, attempted) && k < |ps| && ps[k].needsWrite
    requires InHardware(ps[k].target, ps[k].desired)
    ensures Writing(r, wanted, ps, k + 1, before, now[ps[k].target.id := ps[k].desired], announced,
                    entries[ps[k].target.id := Settled(ps[k].target, ps[k].desired)],
                    applied[ps[k].target.id := ps[k].desired], attempted + [k])
  {
    assert Unfold(true);
    var m := ps[k];
    assert PreparedFor(r, before, wanted, m) && (forall i, j :: 0 <= i < j < |ps| ==> ps[i].target.id != ps[j].target.id) by {
      assert UnfoldBatch(true);
    }
    ProgressedStep(announced, entries, ps, k);
    AttemptsStep(ps, attempted, k);
    RegistersStep(r, ps, k, before, now, wanted, m.desired);
  }

  /** A batch that stopped: only attempted targets may hold something new. */
  ghost predicate Interrupted(r: Registry, wanted: map<TargetId, Limits>, ps: seq<Prepared>, before: map<TargetId, Limits>,
                              now: map<TargetId, Limits>, attempted: seq<nat>) {
    && RegistersOk(r, now) && Moved(before, now, wanted)
    && (forall a :: 0 <= a < |attempted| ==> attempted[a] < |ps|)
    && (forall z {:trigger UnfoldBatch(z)} :: UnfoldBatch(z) ==>
          && (forall a :: 0 <= a < |attempted| ==> ps[attempted[a]].needsWrite)
          && (forall i :: 0 <= i < |ps| && ps[i].needsWrite && i !in attempted ==>
                ps[i].target.id in now && ps[i].target.id in before && now[ps[i].target.id] == before[ps[i].target.id]))
  }

  /** The rollback loop with targets from index `j` on handled (folded). */
  ghost predicate Undoing(r: Registry, wanted: map<TargetId, Limits>, ps: seq<Prepared>, before: map<TargetId, Limits>,
                          failed: map<TargetId, Limits>, now: map<TargetId, Limits>, attempted: seq<nat>, j: nat, ok: bool) {
    forall z {:trigger Unfold(z)} :: Unfold(z) ==>
      && PreparedBatch(r, before, wanted, ps) && Interrupted(r, wanted, ps, before, failed, attempted)
      && RegistersOk(r, now) && Moved(before, now, wanted) && now.Keys == failed.Keys
      && (forall id :: id in now && !Attempted(ps, attempted, id) ==> now[id] == failed[id])
      && (ok ==> forall a :: j <= a < |attempted| ==>
            ps[attempted[a]].target.id in now && now[ps[attempted[a]].target.id] == ps[attempted[a]].previous)
  }

  lemma UndoingAt(r: Registry, wanted: map<TargetId, Limits>, ps: seq<Prepared>, before: map<TargetId, Limits>,
                  failed: map<TargetId, Limits>, now: map<TargetId, Limits>, attempted: seq<nat>, j: nat, ok: bool)
    requires Undoing(r, wanted, ps, before, failed, now, attempted, j + 1, ok) && j < |attempted| && attempted[j] < |ps|
    ensures
      var m := ps[attempted[j]];
      m.target.id in now && m.target.id in r.targets && InHardware(m.target, now[m.target.id]) && ValidLimits(m.target, m.previous)
  {
    assert Unfold(true) && UnfoldBatch(true) && InspectAt(attempted[j]);
    assert PreparedFor(r, before, wanted, ps[attempted[j]]);
  }

  lemma UndoingStep(r: Registry, wanted: map<TargetId, Limits>, ps: seq<Prepared>, before: map<TargetId, Limits>,
                    failed: map<TargetId, Limits>, now: map<TargetId, Limits>, attempted: seq<nat>, j: nat, ok: bool, l: Limits, done: bool)
    requires Undoing(r, wanted, ps, before, failed, now, attempted, j + 1, ok) && j < |attempted| && attempted[j] < |ps|
    requires InHardware(ps[attempted[j]].target, l) && (done ==> l == ps[attempted[j]].previous)
    ensures Undoing(r, wanted, ps, before, failed, now[ps[attempted[j]].target.id := l], attempted, j, ok && done)
  {
    assert Unfold(true);
    var m := ps[attempted[j]];
    assert PreparedFor(r, before, wanted, m) && m.needsWrite && (forall i, j :: 0 <= i < j < |ps| ==> ps[i].target.id != ps[j].target.id) by {
      assert UnfoldBatch(true);
    }
    assert Attempted(ps, attempted, m.target.id);
    if ok && done {
      UndoneStep(ps, attempted, j, now, l);
    }
  }

  lemma UndoneStep(ps: seq<Prepared>, attempted: seq<nat>, j: nat, now: map<TargetId, Limits>, l: Limits)
    requires j < |attempted| && forall a :: 0 <= a < |attempted| ==> attempted[a] < |ps|
    requires forall i, k :: 0 <= i < k < |ps| ==> ps[i].target.id != ps[k].target.id
    requires forall a :: j < a < |attempted| ==> ps[attempted[a]].target.id in now && now[ps[attempted[a]].target.id] == ps[attempted[a]].previous
    requires l == ps[attempted[j]].previous
    ensures var next := now[ps[attempted[j]].target.id := l];
            forall a :: j <= a < |attempted| ==> ps[attempted[a]].target.id in next && next[ps[attempted[a]].target.id] == ps[attempted[a]].previous
  {
    forall a | j < a < |attempted| ensures ps[attempted[a]].target.id == ps[attempted[j]].target.id ==> attempted[a] == attempted[j] {
      var x, y := attempted[a], attempted[j];
      assert x < y ==> ps[x].target.id != ps[y].target.id;
      assert y < x ==> ps[y].target.id != ps[x].target.id;
    }
  }

  lemma UndoingEnds(r: Registry, wanted: map<TargetId, Limits>, ps: seq<Prepared>, before: map<TargetId, Limits>,
                    failed: map<TargetId, Limits>, now: map<TargetId, Limits>, attempted: seq<nat>, ok: bool)
    requires Undoing(r, wanted, ps, before, failed, now, attempted, 0, ok)
    ensures RegistersOk(r, now) && Moved(before, now, wanted) && (ok ==> now == before)
  {
    assert Unfold(true) && UnfoldBatch(true);
    if ok {
      UndoneCompletely(r, wanted, ps, before, failed, now, attempted);
    }
  }

  /** Undoing every attempted target puts all registers back. */
  lemma UndoneCompletely(r: Registry, wanted: map<TargetId, Limits>, ps: seq<Prepared>, before: map<TargetId, Limits>,
                         failed: map<TargetId, Limits>, now: map<TargetId, Limits>, attempted: seq<nat>)
    requires PreparedBatch(r, before, wanted, ps) && Interrupted(r, wanted, ps, before, failed, attempted)
    requires now.Keys == failed.Keys
    requires forall a :: 0 <= a < |attempted| ==> ps[attempted[a]].target.id in now && now[ps[attempted[a]].target.id] == ps[attempted[a]].previous
    requires forall id :: id in now && !Attempted(ps, attempted, id) ==> now[id] == failed[id]
    ensures now == before
  {
    assert UnfoldBatch(true);
    forall id | id in now ensures now[id] == before[id] {
      if Attempted(ps, attempted, id) {
        var a :| 0 <= a < |attempted| && attempted[a] < |ps| && ps[attempted[a]].target.id == id;
        assert PreparedFor(r, before, wanted, ps[attempted[a]]);
      } else if Changes(before, wanted, id) {
        assert Listed(ps, id);
        var i :| 0 <= i < |ps| && ps[i].target.id == id;
        assert PreparedFor(r, before, wanted, ps[i]);
      }
    }
  }

  ghost predicate Attempted(ps: seq<Prepared>, attempted: seq<nat>, id: TargetId) {
    exists a :: 0 <= a < |attempted| && attempted[a] < |ps| && ps[attempted[a]].target.id == id
  }

  lemma WritingEnds(r: Registry, wanted: map<TargetId, Limits>, ps: seq<Prepared>, before: map<TargetId, Limits>, now: map<TargetId, Limits>,
                    announced: map<TargetId, FrequencyEntry>, entries: map<TargetId, FrequencyEntry>, applied: map<TargetId, Limits>, attempted: seq<nat>)
    requires Writing(r, wanted, ps, |ps|, before, now, announced, entries, applied, attempted)
    ensures applied == wanted && now == before + wanted
    ensures Interrupted(r, wanted, ps, before, now, attempted) && Progressed(announced, entries, ps, |ps|)
    ensures UntouchedBy(announced, entries, before, wanted)
  {
    assert Unfold(true) && UnfoldBatch(true);
    OutcomeComplete(r, before, wanted, ps, applied);
    RegistersComplete(r, before, wanted, ps, now);
  }

  /** Which targets are owned once a batch succeeded: the old ones and those it moved. */
  ghost predicate OwnedAfter(before: set<TargetId>, freq: map<TargetId, Limits>, wanted: map<TargetId, Limits>, now: set<TargetId>) {
    forall id :: id in now <==> id in before || Changes(freq, wanted, id)
  }

  /** A batch that asks for what the registers already hold reports exactly that. */
  lemma NothingToWrite(r: Registry, freq: map<TargetId, Limits>, wanted: map<TargetId, Limits>, ps: seq<Prepared>, applied: map<TargetId, Limits>)
    requires PreparedBatch(r, freq, wanted, ps) && forall i :: 0 <= i < |ps| ==> !ps[i].needsWrite
    requires forall i :: 0 <= i < |ps| ==> ps[i].target.id in applied && applied[ps[i].target.id] == ps[i].before
    requires forall id :: id in applied ==> Listed(ps, id)
    ensures applied == wanted && freq == freq + wanted && forall id :: !Changes(freq, wanted, id)
  {
    assert UnfoldBatch(true);
    forall id | id in wanted || id in applied ensures id in wanted && id in applied && id in freq && applied[id] == wanted[id] == freq[id] {
      var i :| 0 <= i < |ps| && ps[i].target.id == id;
      assert PreparedFor(r, freq, wanted, ps[i]);
    }
  }

  lemma OutcomeComplete(r: Registry, freq: map<TargetId, Limits>, wanted: map<TargetId, Limits>, ps: seq<Prepared>, applied: map<TargetId, Limits>)
    requires PreparedBatch(r, freq, wanted, ps) && OutcomeLoop(ps, |ps|, wanted, applied)
    ensures applied == wanted
  {
    assert UnfoldBatch(true);
    forall id | id in wanted ensures id in applied {
      assert Listed(ps, id);
    }
  }

  lemma RegistersComplete(r: Registry, before: map<TargetId, Limits>, wanted: map<TargetId, Limits>, ps: seq<Prepared>, now: map<TargetId, Limits>)
    requires PreparedBatch(r, before, wanted, ps) && RegistersLoop(ps, |ps|, before, now) && Moved(before, now, wanted)
    ensures now == before + wanted
  {
    assert UnfoldBatch(true);
    forall id | id in wanted ensures id in now && now[id] == wanted[id] {
      var i :| 0 <= i < |ps| && ps[i].target.id == id;
      assert PreparedFor(r, before, wanted, ps[i]);
    }
  }
}
