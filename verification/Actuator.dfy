/**
 The transactional actuator for frequency pairs and scalar nodes: journal the intent, write, read back,
 commit or roll back in reverse, degrade on doubt, and recover from whatever the durable journal says.
 */
module Actuator {
  import opened Common
  import opened Frequency
  import opened Scalar
  import opened Journal
  import opened Hardware
  import opened Batch
  import opened ScalarBatch

  const U64_MAX: nat := 0xFFFF_FFFF_FFFF_FFFF

  function SaturatingIncrement(n: nat): nat { if n >= U64_MAX then U64_MAX else n + 1 }

  // ------------------------------------------------------- invariants over values

  /** What holds of the machine at every point where the daemon may be killed (folded). */
  ghost predicate MachineFits(r: Registry, bootId: string, fingerprint: string, freq: map<TargetId, Limits>,
                              scal: map<TargetId, Option<ScalarValue>>, durable: Option<Journal>) {
    forall z {:trigger Unfold(z)} :: Unfold(z) ==>
      && UsableRegistry(r) && RegistersOk(r, freq) && r.scalars.Keys <= scal.Keys
      && (durable.Some? ==>
            && WrittenFrom(r, durable.value.bootId, durable.value.fingerprint, durable.value)
            && (IsEmpty(durable.value) || (durable.value.bootId == bootId && durable.value.fingerprint == fingerprint)))
  }

  ghost predicate AllSettled(r: Registry, freq: map<TargetId, Limits>, entries: map<TargetId, FrequencyEntry>) {
    forall id :: id in entries ==> id in r.targets && id in freq && entries[id] == Settled(r.targets[id], freq[id])
  }

  /** Memory and store claim the same targets and nodes (folded). */
  ghost predicate Mirrored(r: Registry, bootId: string, fingerprint: string, journal: Journal, durable: Option<Journal>) {
    forall z {:trigger Unfold(z)} :: Unfold(z) ==>
      && WrittenFrom(r, bootId, fingerprint, journal)
      && ClaimedPairs(durable).Keys == journal.entries.Keys
      && ClaimedNodes(durable) == journal.scalars
  }

  ghost predicate NoTransition(scalars: map<TargetId, ScalarEntry>) {
    forall id :: id in scalars ==> scalars[id].applied == scalars[id].desired
  }

  /** Nothing in flight: memory, registers and store agree (folded). */
  ghost predicate Agreed(r: Registry, bootId: string, fingerprint: string, freq: map<TargetId, Limits>,
                         journal: Journal, durable: Option<Journal>) {
    forall z {:trigger Unfold(z)} :: Unfold(z) ==>
      && Mirrored(r, bootId, fingerprint, journal, durable)
      && AllSettled(r, freq, journal.entries)
      && NoTransition(journal.scalars)
  }

  /** The machine fits under the identity its durable journal carries. */
  ghost predicate Trusted(world: World, r: Registry, bootId: string, fingerprint: string)
    reads world
  {
    || MachineFits(r, bootId, fingerprint, world.freq, world.scal, world.durable)
    || (world.durable.Some?
        && MachineFits(r, world.durable.value.bootId, world.durable.value.fingerprint, world.freq, world.scal, world.durable))
  }

  /** A loaded journal passes the validator; an empty one leaves nothing to recover. */
  lemma LoadedJournal(r: Registry, bootId: string, fingerprint: string, freq: map<TargetId, Limits>,
                      scal: map<TargetId, Option<ScalarValue>>, j: Journal)
    requires ValidRegistry(r) && bootId != "" && fingerprint != ""
    requires MachineFits(r, bootId, fingerprint, freq, scal, Some(j)) || MachineFits(r, j.bootId, j.fingerprint, freq, scal, Some(j))
    ensures ValidateDecoded(j)
    ensures IsEmpty(j) ==>
              && MachineFits(r, bootId, fingerprint, freq, scal, Some(j))
              && Agreed(r, bootId, fingerprint, freq, j.(schemaVersion := JOURNAL_SCHEMA_VERSION, bootId := bootId, fingerprint := fingerprint), Some(j))
  {
    assert Unfold(true);
    WrittenJournalsValidate(r, j.bootId, j.fingerprint, j);
  }

  /** The intents over a settled journal: storing them, or not, changes nothing recovery would restore. */
  lemma IntentsStored(r: Registry, bootId: string, fingerprint: string, freq: map<TargetId, Limits>, scal: map<TargetId, Option<ScalarValue>>,
                      j0: Journal, d0: Option<Journal>, wanted: map<TargetId, Limits>, ps: seq<Prepared>, j1: Journal)
    requires MachineFits(r, bootId, fingerprint, freq, scal, d0) && Agreed(r, bootId, fingerprint, freq, j0, d0)
    requires PreparedBatch(r, freq, wanted, ps) && Claimable(r, j0.entries.Keys, freq, wanted)
    requires j1 == j0.(generation := j1.generation, entries := j1.entries)
    requires EntriesFrom(r, j1.entries) && Untouched(j0.entries, j1.entries, freq, wanted) && Announced(j1.entries, ps, |ps|)
    ensures MachineFits(r, bootId, fingerprint, freq, scal, Some(j1))
    ensures RestoredFreq(Some(j1), freq) == RestoredFreq(d0, freq)
    ensures ClaimedNodes(Some(j1)) == ClaimedNodes(d0)
    ensures OwnedAfter(j0.entries.Keys, freq, wanted, j1.entries.Keys)
  {
    assert Unfold(true) && UnfoldBatch(true);
    forall id | Changes(freq, wanted, id) ensures id in j1.entries {
      assert Listed(ps, id);
      var i :| 0 <= i < |ps| && ps[i].target.id == id;
      assert PreparedFor(r, freq, wanted, ps[i]);
    }
    ClaimsExchange(r, Some(j1), d0, freq);
  }

  /** Moving the registers of journaled targets only. */
  lemma WritesConserve(r: Registry, bootId: string, fingerprint: string, before: map<TargetId, Limits>, now: map<TargetId, Limits>,
                       scal: map<TargetId, Option<ScalarValue>>, owned: set<TargetId>, d: Option<Journal>, wanted: map<TargetId, Limits>)
    requires MachineFits(r, bootId, fingerprint, before, scal, d) && RegistersOk(r, now) && Moved(before, now, wanted)
    requires OwnedAfter(owned, before, wanted, ClaimedPairs(d).Keys)
    ensures MachineFits(r, bootId, fingerprint, now, scal, d)
    ensures RestoredFreq(d, now) == RestoredFreq(d, before)
  {
    assert Unfold(true);
    ClaimedWritesKeepOutcome(d, before, now);
  }

  /** After the batch every entry is settled on what the registers now hold. */
  lemma BatchSettled(r: Registry, freq: map<TargetId, Limits>, e0: map<TargetId, FrequencyEntry>, e1: map<TargetId, FrequencyEntry>,
                     wanted: map<TargetId, Limits>, ps: seq<Prepared>, e2: map<TargetId, FrequencyEntry>)
    requires AllSettled(r, freq, e0) && PreparedBatch(r, freq, wanted, ps)
    requires Untouched(e0, e1, freq, wanted) && UntouchedBy(e1, e2, freq, wanted) && Progressed(e1, e2, ps, |ps|)
    ensures AllSettled(r, freq + wanted, e2)
  {
    assert UnfoldBatch(true);
    var now := freq + wanted;
    forall id | id in e2 ensures id in r.targets && id in now && e2[id] == Settled(r.targets[id], now[id]) {
      if Changes(freq, wanted, id) {
        assert Listed(ps, id);
        var i :| 0 <= i < |ps| && ps[i].target.id == id;
        assert PreparedFor(r, freq, wanted, ps[i]);
      }
    }
  }

  /** Settled entries on valid windows are well-formed. */
  lemma SettledEntriesAreOurs(r: Registry, freq: map<TargetId, Limits>, e1: map<TargetId, FrequencyEntry>,
                              wanted: map<TargetId, Limits>, ps: seq<Prepared>, e2: map<TargetId, FrequencyEntry>)
    requires PreparedBatch(r, freq, wanted, ps) && EntriesFrom(r, e1) && e2.Keys == e1.Keys
    requires UntouchedBy(e1, e2, freq, wanted) && AllSettled(r, freq + wanted, e2)
    ensures EntriesFrom(r, e2)
  {
    forall id | id in e2 ensures id in r.targets && TransitionFor(r.targets[id], e2[id]) {
      assert Inspect(id);
      if Changes(freq, wanted, id) {
        assert UnfoldBatch(true);
        assert Listed(ps, id);
        var i :| 0 <= i < |ps| && ps[i].target.id == id;
        assert PreparedFor(r, freq, wanted, ps[i]) && InspectAt(i);
      }
    }
  }

  /** The committed batch agrees with the registers, stored or not. */
  lemma BatchCommitted(r: Registry, bootId: string, fingerprint: string, freq: map<TargetId, Limits>, scal: map<TargetId, Option<ScalarValue>>,
                       j0: Journal, d0: Option<Journal>, j1: Journal, wanted: map<TargetId, Limits>, ps: seq<Prepared>, j2: Journal)
    requires Agreed(r, bootId, fingerprint, freq, j0, d0) && PreparedBatch(r, freq, wanted, ps)
    requires j1 == j0.(generation := j1.generation, entries := j1.entries) && j2 == j1.(entries := j2.entries)
    requires Untouched(j0.entries, j1.entries, freq, wanted)
    requires UntouchedBy(j1.entries, j2.entries, freq, wanted) && Progressed(j1.entries, j2.entries, ps, |ps|)
    requires MachineFits(r, bootId, fingerprint, freq + wanted, scal, Some(j1))
    ensures Agreed(r, bootId, fingerprint, freq + wanted, j2, Some(j2))
    ensures MachineFits(r, bootId, fingerprint, freq + wanted, scal, Some(j2))
  {
    assert Unfold(true);
    BatchSettled(r, freq, j0.entries, j1.entries, wanted, ps, j2.entries);
    SettledEntriesAreOurs(r, freq, j1.entries, wanted, ps, j2.entries);
  }

  // ------------------------------------------------------- restoring and releasing

  ghost predicate InList(list: seq<FrequencyEntry>, id: TargetId) { exists i :: 0 <= i < |list| && list[i].target == id }

  /** Entries taken from a journal of this registry. */
  ghost predicate TakenFrom(r: Registry, entries: map<TargetId, FrequencyEntry>, list: seq<FrequencyEntry>) {
    forall i :: 0 <= i < |list| ==> list[i].target in entries && list[i].target in r.targets
                                    && entries[list[i].target] == list[i] && EntryFor(r.targets[list[i].target], list[i])
  }

  /** Picking entries by id takes exactly the journaled ones among them. */
  lemma JournaledCorrect(r: Registry, entries: map<TargetId, FrequencyEntry>, ids: seq<TargetId>)
    requires EntriesFrom(r, entries) && UsableRegistry(r)
    ensures TakenFrom(r, entries, Pick(entries, ids))
    ensures forall id :: InList(Pick(entries, ids), id) <==> id in ids && id in entries
  {
    var list := Pick(entries, ids);
    PickCorrect(entries, ids);
    forall id | id in entries ensures entries[id].target == id { assert EntryFor(r.targets[id], entries[id]); }
    forall i | 0 <= i < |list| ensures exists id :: id in ids && id in entries && entries[id] == list[i] { assert list[i] in list; }
    forall id | id in ids && id in entries ensures InList(list, id) {
      var i :| 0 <= i < |list| && list[i] == entries[id];
    }
  }

  /** Storing a journal that claims the same targets and nodes changes nothing recovery would restore. */
  lemma SameClaimsStored(r: Registry, bootId: string, fingerprint: string, freq: map<TargetId, Limits>, scal: map<TargetId, Option<ScalarValue>>,
                         d0: Option<Journal>, j0: Journal, j1: Journal)
    requires MachineFits(r, bootId, fingerprint, freq, scal, d0) && Mirrored(r, bootId, fingerprint, j0, d0)
    requires j1 == j0.(generation := j1.generation, entries := j1.entries) && j1.entries.Keys == j0.entries.Keys && EntriesFrom(r, j1.entries)
    ensures MachineFits(r, bootId, fingerprint, freq, scal, Some(j1))
    ensures RestoredFreq(Some(j1), freq) == RestoredFreq(d0, freq) && ClaimedNodes(Some(j1)) == ClaimedNodes(d0)
    ensures Mirrored(r, bootId, fingerprint, j1, d0) && Mirrored(r, bootId, fingerprint, j1, Some(j1))
  {
    assert Unfold(true);
    ClaimsExchange(r, Some(j1), d0, freq);
  }

  /** Resetting journaled targets only. */
  lemma ResetsConserve(r: Registry, bootId: string, fingerprint: string, before: map<TargetId, Limits>, now: map<TargetId, Limits>,
                       scal: map<TargetId, Option<ScalarValue>>, d: Option<Journal>, list: seq<FrequencyEntry>)
    requires MachineFits(r, bootId, fingerprint, before, scal, d) && RegistersOk(r, now) && now.Keys == before.Keys
    requires forall id :: id in now && !InList(list, id) ==> now[id] == before[id]
    requires forall i :: 0 <= i < |list| ==> list[i].target in ClaimedPairs(d)
    ensures MachineFits(r, bootId, fingerprint, now, scal, d)
    ensures RestoredFreq(d, now) == RestoredFreq(d, before)
  {
    assert Unfold(true);
    ClaimedWritesKeepOutcome(d, before, now);
  }

  /** Dropping the claims of targets that are back at their hardware range. */
  lemma ClaimsReleased(r: Registry, bootId: string, fingerprint: string, freq: map<TargetId, Limits>, scal: map<TargetId, Option<ScalarValue>>,
                       d1: Option<Journal>, j1: Journal, list: seq<FrequencyEntry>, j2: Journal, d2: Option<Journal>)
    requires MachineFits(r, bootId, fingerprint, freq, scal, d1) && Mirrored(r, bootId, fingerprint, j1, d1)
    requires forall i :: 0 <= i < |list| ==> list[i].target in r.targets && list[i].target in freq
                                             && freq[list[i].target] == HardwareLimits(r.targets[list[i].target])
    requires forall id :: id in j2.entries <==> id in j1.entries && !InList(list, id)
    requires forall id :: id in j2.entries ==> j2.entries[id] == j1.entries[id]
    requires AllSettled(r, freq, j2.entries) && NoTransition(j2.scalars)
    requires j2 == j1.(generation := j2.generation, entries := j2.entries)
    requires d2 == Some(j2) || (d2 == None && IsEmpty(j2))
    ensures MachineFits(r, bootId, fingerprint, freq, scal, d2) && Agreed(r, bootId, fingerprint, freq, j2, d2)
    ensures RestoredFreq(d2, freq) == RestoredFreq(d1, freq) && ClaimedNodes(d2) == ClaimedNodes(d1)
  {
    assert Unfold(true);
    ClaimsExchange(r, d2, d1, freq);
  }

  /** Entries nobody listed are still settled after the listed ones were reset. */
  lemma RestSettled(r: Registry, before: map<TargetId, Limits>, now: map<TargetId, Limits>, e0: map<TargetId, FrequencyEntry>,
                    list: seq<FrequencyEntry>, e2: map<TargetId, FrequencyEntry>)
    requires AllSettled(r, before, e0) && now.Keys == before.Keys
    requires forall id :: id in now && !InList(list, id) ==> now[id] == before[id]
    requires forall id :: id in e2 ==> id in e0 && !InList(list, id) && e2[id] == e0[id]
    ensures AllSettled(r, now, e2)
  {
  }

  /** A fast batch agrees with the registers over the older durable claim. */
  lemma FastCommitted(r: Registry, bootId: string, fingerprint: string, freq: map<TargetId, Limits>,
                      j0: Journal, d0: Option<Journal>, j1: Journal, wanted: map<TargetId, Limits>, ps: seq<Prepared>, j2: Journal)
    requires Agreed(r, bootId, fingerprint, freq, j0, d0) && PreparedBatch(r, freq, wanted, ps)
    requires wanted.Keys <= j0.entries.Keys && EntriesFrom(r, j1.entries)
    requires j1 == j0.(generation := j1.generation, entries := j1.entries) && j2 == j1.(entries := j2.entries)
    requires Untouched(j0.entries, j1.entries, freq, wanted) && Announced(j1.entries, ps, |ps|)
    requires UntouchedBy(j1.entries, j2.entries, freq, wanted) && Progressed(j1.entries, j2.entries, ps, |ps|)
    ensures Agreed(r, bootId, fingerprint, freq + wanted, j2, d0) && j2.entries.Keys == j0.entries.Keys
  {
    assert Unfold(true);
    BatchSettled(r, freq, j0.entries, j1.entries, wanted, ps, j2.entries);
    SettledEntriesAreOurs(r, freq, j1.entries, wanted, ps, j2.entries);
    OwnedBatchKeepsKeys(r, freq, j0.entries, j1.entries, wanted, ps);
  }

  lemma OwnedBatchKeepsKeys(r: Registry, freq: map<TargetId, Limits>, e0: map<TargetId, FrequencyEntry>, e1: map<TargetId, FrequencyEntry>,
                            wanted: map<TargetId, Limits>, ps: seq<Prepared>)
    requires PreparedBatch(r, freq, wanted, ps) && wanted.Keys <= e0.Keys
    requires Untouched(e0, e1, freq, wanted) && Announced(e1, ps, |ps|)
    ensures e1.Keys == e0.Keys
  {
    assert UnfoldBatch(true);
    forall id | Changes(freq, wanted, id) ensures id in e1 && id in e0 {
      assert Listed(ps, id);
      var i :| 0 <= i < |ps| && ps[i].target.id == id;
      assert PreparedFor(r, freq, wanted, ps[i]);
    }
  }

  /** Putting the saved entries of the written targets back restores the whole table. */
  lemma SavedEntriesRestore(r: Registry, freq: map<TargetId, Limits>, e0: map<TargetId, FrequencyEntry>, e1: map<TargetId, FrequencyEntry>,
                            e2: map<TargetId, FrequencyEntry>, wanted: map<TargetId, Limits>, ps: seq<Prepared>, saved: map<TargetId, FrequencyEntry>)
    requires PreparedBatch(r, freq, wanted, ps) && e1.Keys == e0.Keys && e2.Keys == e1.Keys
    requires Untouched(e0, e1, freq, wanted) && UntouchedBy(e1, e2, freq, wanted)
    requires forall id :: id in saved ==> id in e0 && saved[id] == e0[id]
    requires forall i :: 0 <= i < |ps| && ps[i].needsWrite ==> ps[i].target.id in saved
    ensures e2 + saved == e0
  {
    assert UnfoldBatch(true);
    forall id | id in e0 ensures (e2 + saved)[id] == e0[id] {
      if Changes(freq, wanted, id) {
        assert Listed(ps, id);
        var i :| 0 <= i < |ps| && ps[i].target.id == id;
        assert PreparedFor(r, freq, wanted, ps[i]);
      }
    }
  }

  /** What a fault-free fast batch accepts: the same windows, on targets already owned. */
  predicate FastAcceptable(r: Registry, owned: set<TargetId>, requests: seq<FrequencyRequest>) {
    Snapped(r, requests).Some? && Snapped(r, requests).value.Keys <= owned
  }

  /** Before the batch was written, storing its final journal instead of its intents would have meant the same. */
  lemma StoredElsewhere(r: Registry, bootId: string, fingerprint: string, before: map<TargetId, Limits>, now: map<TargetId, Limits>,
                        scal: map<TargetId, Option<ScalarValue>>, j1: Journal, j2: Journal)
    requires MachineFits(r, bootId, fingerprint, before, scal, Some(j1)) && MachineFits(r, bootId, fingerprint, now, scal, Some(j2))
    requires j1.entries.Keys == j2.entries.Keys
    ensures MachineFits(r, bootId, fingerprint, before, scal, Some(j2))
    ensures RestoredFreq(Some(j1), before) == RestoredFreq(Some(j2), before)
  {
    assert Unfold(true);
    ClaimsExchange(r, Some(j1), Some(j2), before);
  }

  /** Putting the old journal back over the old registers. */
  lemma BatchRolledBack(r: Registry, bootId: string, fingerprint: string, freq: map<TargetId, Limits>, scal: map<TargetId, Option<ScalarValue>>,
                        j0: Journal, d0: Option<Journal>, d: Option<Journal>)
    requires MachineFits(r, bootId, fingerprint, freq, scal, d0) && Agreed(r, bootId, fingerprint, freq, j0, d0)
    requires d == Some(j0) || (d == None && IsEmpty(j0))
    ensures MachineFits(r, bootId, fingerprint, freq, scal, d) && Agreed(r, bootId, fingerprint, freq, j0, d)
    ensures RestoredFreq(d, freq) == RestoredFreq(d0, freq) && ClaimedNodes(d) == ClaimedNodes(d0)
  {
    assert Unfold(true);
    ClaimsExchange(r, d, d0, freq);
  }

  // ----------------------------------------------------------------- scalar nodes

  /** Storing a journal with other scalar claims changes nothing about the registers. */
  lemma NodesStored(r: Registry, bootId: string, fingerprint: string, freq: map<TargetId, Limits>, scal: Nodes,
                    d0: Option<Journal>, j0: Journal, j1: Journal, d1: Option<Journal>)
    requires MachineFits(r, bootId, fingerprint, freq, scal, d0) && Mirrored(r, bootId, fingerprint, j0, d0)
    requires j1 == j0.(generation := j1.generation, scalars := j1.scalars) && NodesFrom(r, j1.scalars)
    requires d1 == Some(j1) || (d1 == None && IsEmpty(j1))
    ensures MachineFits(r, bootId, fingerprint, freq, scal, d1) && Mirrored(r, bootId, fingerprint, j1, d1)
    ensures RestoredFreq(d1, freq) == RestoredFreq(d0, freq) && ClaimedNodes(d1) == j1.scalars
    ensures (Agreed(r, bootId, fingerprint, freq, j0, d0) || AllSettled(r, freq, j0.entries)) && NoTransition(j1.scalars) ==> Agreed(r, bootId, fingerprint, freq, j1, d1)
  {
    assert Unfold(true);
    ClaimsExchange(r, d1, d0, freq);
  }

  /** The committed scalar batch agrees with the nodes and leaves recovery's outcome as it was. */
  lemma NodesCommitted(r: Registry, bootId: string, fingerprint: string, freq: map<TargetId, Limits>, s0: Nodes, before: Journal,
                       d0: Option<Journal>, announced: Journal, wanted: Values, now: Journal)
    requires MachineFits(r, bootId, fingerprint, freq, s0, d0) && Agreed(r, bootId, fingerprint, freq, before, d0) && Owns(r, before.scalars, s0, wanted)
    requires NodesAnnounced(r, before.scalars, s0, wanted, announced.scalars) && NodesFrom(r, announced.scalars)
    requires announced == before.(generation := announced.generation, scalars := announced.scalars)
    requires now == announced.(scalars := now.scalars) && NodesSettled(announced.scalars, s0, wanted, now.scalars)
    ensures MachineFits(r, bootId, fingerprint, freq, s0, Some(now)) && MachineFits(r, bootId, fingerprint, freq, Over(s0, wanted), Some(now))
    ensures Agreed(r, bootId, fingerprint, freq, now, Some(now)) && RestoredFreq(Some(now), freq) == RestoredFreq(d0, freq)
    ensures RestoredNodes(now.scalars, Over(s0, wanted)) == RestoredNodes(before.scalars, s0)
  {
    assert Mirrored(r, bootId, fingerprint, before, d0) && NoTransition(before.scalars) by { assert Unfold(true); }
    SettledNodesAreOurs(r, announced.scalars, s0, wanted, now.scalars, before.scalars);
    NodesStored(r, bootId, fingerprint, freq, s0, d0, before, now, Some(now));
    NodesMoved(r, bootId, fingerprint, freq, s0, Over(s0, wanted), Some(now));
    SettledKeepsOutcome(r, before.scalars, s0, wanted, announced.scalars, now.scalars);
  }

  lemma NodesMoved(r: Registry, bootId: string, fingerprint: string, freq: map<TargetId, Limits>, before: Nodes, now: Nodes, d: Option<Journal>)
    requires MachineFits(r, bootId, fingerprint, freq, before, d) && now.Keys == before.Keys
    ensures MachineFits(r, bootId, fingerprint, freq, now, d)
  {
    assert Unfold(true);
  }

  /** Dropping the claims of restored nodes, stored or removed, keeps recovery's outcome. */
  lemma NodesReleased(r: Registry, bootId: string, fingerprint: string, freq: map<TargetId, Limits>, scal: Nodes, d: Option<Journal>,
                      j0: Journal, s0: Nodes, listed: set<TargetId>, planned: Journal, now: Journal)
    requires MachineFits(r, bootId, fingerprint, freq, scal, d) && Mirrored(r, bootId, fingerprint, planned, d)
    requires AllSettled(r, freq, j0.entries) && NoTransition(j0.scalars) && planned == j0.(scalars := planned.scalars)
    requires scal == RestoredSome(j0.scalars, s0, listed) && RestoresPlanned(j0.scalars, s0, listed, planned.scalars)
    requires now == planned.(generation := now.generation, scalars := planned.scalars - listed)
    ensures now.scalars == j0.scalars - listed && RestoredNodes(now.scalars, scal) == RestoredNodes(j0.scalars, s0)
    ensures now.scalars.Keys <= ClaimedNodes(d).Keys
    ensures forall d2 :: d2 == Some(now) || (d2 == None && IsEmpty(now)) ==>
              && MachineFits(r, bootId, fingerprint, freq, scal, d2) && Agreed(r, bootId, fingerprint, freq, now, d2)
              && RestoredFreq(d2, freq) == RestoredFreq(d, freq) && ClaimedNodes(d2) == now.scalars
  {
    ReleasedNodesKeepOutcome(j0.scalars, s0, listed, planned.scalars, now.scalars);
    assert NodesFrom(r, planned.scalars) && ClaimedNodes(d) == planned.scalars by { assert Unfold(true); }
    NodesStored(r, bootId, fingerprint, freq, scal, d, planned, now, Some(now));
    if IsEmpty(now) { NodesStored(r, bootId, fingerprint, freq, scal, d, planned, now, None); }
  }

  // --------------------------------------------------------------------- recovery

  /** Once every claimed pair is back at its hardware range, the claim no longer matters. */
  lemma AllReset(r: Registry, bootId: string, fingerprint: string, freq: map<TargetId, Limits>, scal: Nodes, d: Option<Journal>, j: Journal, list: seq<FrequencyEntry>)
    requires MachineFits(r, bootId, fingerprint, freq, scal, d) && ClaimedPairs(d).Keys == j.entries.Keys
    requires forall id :: id in j.entries ==> InList(list, id)
    requires forall i :: 0 <= i < |list| ==> list[i].target in r.targets && list[i].target in freq
                                             && freq[list[i].target] == HardwareLimits(r.targets[list[i].target])
    ensures RestoredFreq(d, freq) == freq
  {
    assert Unfold(true);
    forall id | id in freq && id in ClaimedPairs(d) ensures ClaimedPairs(d)[id].original == freq[id] {
      assert EntryFor(r.targets[id], ClaimedPairs(d)[id]) && InList(list, id);
    }
  }

  lemma NothingClaimed(r: Registry, bootId: string, fingerprint: string, freq: map<TargetId, Limits>, scal: Nodes, d: Option<Journal>)
    requires MachineFits(r, bootId, fingerprint, freq, scal, d)
    ensures forall b, f :: MachineFits(r, b, f, freq, scal, None)
    ensures RestoredFreq(None, freq) == freq && RestoredScal(None, scal) == scal
  {
    assert Unfold(true);
  }

  lemma EmptyAgrees(r: Registry, bootId: string, fingerprint: string, freq: map<TargetId, Limits>, j: Journal, d: Option<Journal>)
    requires bootId != "" && fingerprint != "" && IsEmpty(j) && j.schemaVersion == JOURNAL_SCHEMA_VERSION
    requires j.bootId == bootId && j.fingerprint == fingerprint && ClaimedPairs(d) == map[] && ClaimedNodes(d) == map[]
    ensures Agreed(r, bootId, fingerprint, freq, j, d)
  {
  }

  /** A pending journal of this boot and device is in step with memory. */
  lemma PendingMirrored(r: Registry, bootId: string, fingerprint: string, freq: map<TargetId, Limits>, scal: Nodes, j: Journal)
    requires MachineFits(r, bootId, fingerprint, freq, scal, Some(j)) && j.bootId == bootId && j.fingerprint == fingerprint
    ensures Mirrored(r, bootId, fingerprint, j, Some(j)) && j.schemaVersion == JOURNAL_SCHEMA_VERSION && bootId != "" && fingerprint != ""
    ensures UsableRegistry(r) && EntriesFrom(r, j.entries) && NodesFrom(r, j.scalars)
    ensures IsEmpty(j) ==> Agreed(r, bootId, fingerprint, freq, j, Some(j))
  {
    assert Unfold(true);
  }

  ghost function OwnedIds(claims: Claims, ids: seq<TargetId>): set<TargetId> { set id | id in ids && id in claims }

  class FrequencyActuator {
    const world: World
    const registry: Registry
    const bootId: string
    const fingerprint: string
    var degraded: bool
    var journal: Journal
    var recoveryRequired: bool

    /** `FrequencyActuator::new`: load and validate the journal an earlier daemon left. */
    constructor (world: World, registry: Registry, bootId: string, fingerprint: string)
      requires ValidRegistry(registry) && bootId != "" && fingerprint != ""
      requires Trusted(world, registry, bootId, fingerprint)
      ensures this.world == world && this.registry == registry && this.bootId == bootId && this.fingerprint == fingerprint
      ensures Valid()
      ensures !degraded ==> (recoveryRequired <==> world.durable.Some? && !IsEmpty(world.durable.value))
      ensures world.healthy && !world.dead ==> !degraded
    {
      this.world, this.registry, this.bootId, this.fingerprint := world, registry, bootId, fingerprint;
      var empty := Journal(JOURNAL_SCHEMA_VERSION, bootId, fingerprint, 0, map[], map[]);
      var loaded := world.Load();
      if loaded.Ok? && loaded.value.Some? {
        var j := loaded.value.value;
        LoadedJournal(registry, bootId, fingerprint, world.freq, world.scal, j);
        if !ValidateDecoded(j) {
          degraded, journal, recoveryRequired := true, empty, true;
        } else if IsEmpty(j) {
          degraded, journal, recoveryRequired :=
            false, j.(schemaVersion := JOURNAL_SCHEMA_VERSION, bootId := bootId, fingerprint := fingerprint), false;
        } else {
          degraded, journal, recoveryRequired := false, j, true;
        }
      } else {
        degraded, journal, recoveryRequired := loaded.Err?, empty, loaded.Err?;
        assert loaded.Ok? ==> Agreed(registry, bootId, fingerprint, world.freq, empty, None);
      }
    }

    /** The machine fits and its durable journal, if any, was written under this boot and device. */
    ghost predicate Ours()
      reads this, world
    {
      MachineFits(registry, bootId, fingerprint, world.freq, world.scal, world.durable)
    }

    /** Read-write, with nothing in flight. */
    ghost predicate Ready()
      reads this, world
    {
      !degraded && !recoveryRequired && Agreed(registry, bootId, fingerprint, world.freq, journal, world.durable)
    }

    ghost predicate Valid()
      reads this, world
    {
      && Trusted(world, registry, bootId, fingerprint)
      && (!degraded && recoveryRequired ==> world.durable == Some(journal))
      && (!degraded && !recoveryRequired ==> Ready() && Ours())
    }

    // ------------------------------------------------------- register sequences

    /** `wait_for_limits`: poll a bounded number of times until the pair reads back as requested. */
    method WaitForLimits(t: FrequencyTarget, requested: Limits) returns (ok: bool)
      requires t.id in world.freq
      ensures ok ==> world.freq[t.id] == requested
      ensures world.dead ==> !ok
      ensures world.healthy && !world.dead && world.freq[t.id] == requested ==> ok
    {
      var polls: int :| 0 <= polls;
      while true
        invariant 0 <= polls
        decreases polls
      {
        var reading := world.ReadPair(t.id);
        if reading == Pair(requested) { return true; }
        if reading == Failed || polls == 0 { return false; }
        polls := polls - 1;
      }
    }

    /** `write_ordered`: at every kill point the pair is one of the ordered write states. */
    method WriteOrdered(t: FrequencyTarget, current: Limits, desired: Limits) returns (ok: bool)
      requires t.id in world.freq && world.freq[t.id] == current
      requires ValidLimits(t, current) && ValidLimits(t, desired)
      modifies world`freq, world`dead
      ensures t.id in world.freq && world.freq == old(world.freq)[t.id := world.freq[t.id]]
      ensures world.freq[t.id] in OrderedWriteStates(current, desired)
      ensures ok ==> world.freq[t.id] == desired
      ensures old(world.dead) ==> world.dead && world.freq == old(world.freq)
      ensures world.healthy && !old(world.dead) ==> ok && !world.dead
    {
      ok := true;
      if desired.max < current.min {
        if desired.min != current.min {
          ok := world.WriteMinimum(t.id, desired.min);
          if !ok { return; }
        }
        if desired.max != current.max {
          ok := world.WriteMaximum(t.id, desired.max);
        }
      } else {
        if desired.max != current.max {
          ok := world.WriteMaximum(t.id, desired.max);
          if !ok { return; }
        }
        if desired.min != current.min {
          ok := world.WriteMinimum(t.id, desired.min);
        }
      }
    }

    /** `reset_frequency_request`: widen to the hardware range, then narrow; from any in-range pair. */
    method ResetRequest(t: FrequencyTarget, desired: Limits) returns (ok: bool)
      requires t.id in world.freq && InHardware(t, world.freq[t.id]) && ValidLimits(t, desired)
      modifies world`freq, world`dead
      ensures t.id in world.freq && world.freq == old(world.freq)[t.id := world.freq[t.id]]
      ensures InHardware(t, world.freq[t.id])
      ensures ok ==> world.freq[t.id] == desired
      ensures old(world.dead) ==> world.dead && world.freq == old(world.freq)
      ensures world.healthy && !old(world.dead) ==> ok && !world.dead
    {
      ok := world.WriteMinimum(t.id, t.hardwareMin);
      if !ok { return; }
      ok := world.WriteMaximum(t.id, t.hardwareMax);
      if !ok { return; }
      if desired.max != t.hardwareMax {
        ok := world.WriteMaximum(t.id, desired.max);
        if !ok { return; }
      }
      if desired.min != t.hardwareMin {
        ok := world.WriteMinimum(t.id, desired.min);
      }
    }

    /** `apply_requested_limits`. */
    method ApplyRequestedLimits(t: FrequencyTarget, current: Limits, desired: Limits) returns (ok: bool)
      requires t.id in world.freq && world.freq[t.id] == current
      requires ValidLimits(t, current) && ValidLimits(t, desired)
      modifies world`freq, world`dead
      ensures t.id in world.freq && world.freq == old(world.freq)[t.id := world.freq[t.id]]
      ensures world.freq[t.id] in LegalPairs(current, desired) && InHardware(t, world.freq[t.id])
      ensures ok ==> world.freq[t.id] == desired
      ensures world.healthy && !old(world.dead) ==> ok && !world.dead
    {
      ok := WriteOrdered(t, current, desired);
      if ok {
        ok := WaitForLimits(t, desired);
      }
      LegalPairsAreVisiblePairs(t, current, desired);
      PushAllMembers(OrderedWriteStates(current, desired), OrderedWriteStates(desired, current));
    }

    /** `restore_frequency_request`. */
    method RestoreRequest(t: FrequencyTarget, desired: Limits) returns (ok: bool)
      requires t.id in world.freq && InHardware(t, world.freq[t.id]) && ValidLimits(t, desired)
      modifies world`freq, world`dead
      ensures t.id in world.freq && world.freq == old(world.freq)[t.id := world.freq[t.id]]
      ensures InHardware(t, world.freq[t.id])
      ensures ok ==> world.freq[t.id] == desired
      ensures world.healthy && !old(world.dead) ==> ok && !world.dead
    {
      ok := ResetRequest(t, desired);
      if ok {
        ok := WaitForLimits(t, desired);
      }
    }

    // ------------------------------------------------------- frequency batches

    /** One iteration of `apply_batch`'s validation loop, after the duplicate check. */
    method PrepareClaim(q: FrequencyRequest) returns (r: Result<Prepared>)
      requires Valid() && Ready()
      ensures r.Ok? ==>
                && q.target in registry.targets && r.value.target.id == q.target
                && SnapLimits(registry.targets[q.target], q.limits) == Ok(r.value.desired)
                && PreparedFor(registry, world.freq, map[q.target := r.value.desired], r.value) && PreparedValid(r.value)
                && ClaimableOne(registry, journal.entries.Keys, world.freq, q.target, r.value.desired)
      ensures world.healthy && !world.dead && q.target in registry.targets && r.Err? ==>
                var snapped := SnapLimits(registry.targets[q.target], q.limits);
                snapped.Err? || !ClaimableOne(registry, journal.entries.Keys, world.freq, q.target, snapped.value)
    {
      if q.target !in registry.targets { return Err("unknown target"); }
      var t := registry.targets[q.target];
      assert Unfold(true) && Inspect(t.id);
      var snapped := SnapLimits(t, q.limits);
      if snapped.Err? { return Err(snapped.reason); }
      SnapLimitsCorrect(t, q.limits);
      var reading := world.ReadPair(t.id);
      if !reading.Pair? { return Err("cannot read limits"); }
      var before, desired := reading.limits, snapped.value;
      var owned := t.id in journal.entries;
      var previous := if owned then journal.entries[t.id].desired else HardwareLimits(t);
      var unclaimedNoop := !owned && before == desired;
      if !owned && !unclaimedNoop && before != HardwareLimits(t) {
        return Err("cannot claim a constrained target");
      }
      var needsWrite := if owned then previous != desired else !unclaimedNoop;
      r := Ok(Prepared(t, before, previous, desired, needsWrite));
    }

    /** The validation loop of `apply_batch`; it writes nothing. */
    method PrepareClaims(requests: seq<FrequencyRequest>) returns (r: Result<seq<Prepared>>)
      requires Valid() && Ready()
      ensures r.Ok? ==> Acceptable(registry, journal.entries.Keys, world.freq, requests)
                        && PreparedBatch(registry, world.freq, Snapped(registry, requests).value, r.value)
      ensures world.healthy && !world.dead && r.Err? ==> !Acceptable(registry, journal.entries.Keys, world.freq, requests)
    {
      var ps: seq<Prepared> := [];
      var seen: set<TargetId> := {};
      ghost var wanted: map<TargetId, Limits> := map[];
      for k := 0 to |requests|
        invariant Collected(registry, journal.entries.Keys, world.freq, requests[..k], wanted, ps) && seen == wanted.Keys
      {
        var q := requests[k];
        RejectedPrefix(registry, journal.entries.Keys, world.freq, requests, k);
        if q.target in seen { return Err("duplicate request"); }
        seen := seen + {q.target};
        var one := PrepareClaim(q);
        if one.Err? { return Err(one.reason); }
        CollectOne(registry, journal.entries.Keys, world.freq, requests, k, wanted, ps, one.value);
        ps := ps + [one.value];
        wanted := wanted[q.target := one.value.desired];
      }
      assert requests[..|requests|] == requests;
      r := Ok(ps);
    }

    /** The intent loop of both batch operations: announce every transition before the first write. */
    method RecordIntents(ps: seq<Prepared>, fast: bool, ghost wanted: map<TargetId, Limits>)
      requires PreparedBatch(registry, world.freq, wanted, ps)
      requires EntriesFrom(registry, journal.entries)
      modifies this`journal
      ensures journal == old(journal).(entries := journal.entries)
      ensures EntriesFrom(registry, journal.entries)
      ensures Untouched(old(journal.entries), journal.entries, world.freq, wanted)
      ensures Announced(journal.entries, ps, |ps|)
    {
      for k := 0 to |ps|
        invariant journal == old(journal).(entries := journal.entries)
        invariant EntriesFrom(registry, journal.entries)
        invariant Untouched(old(journal.entries), journal.entries, world.freq, wanted)
        invariant Announced(journal.entries, ps, k)
      {
        var m := ps[k];
        PreparedAt(registry, world.freq, wanted, ps, k);
        if m.needsWrite {
          var entry := IntentFor(m, if fast then m.before else m.previous);
          EntriesGrow(registry, journal.entries, m.target.id, entry);
          AnnounceNext(registry, world.freq, wanted, ps, k, old(journal.entries), journal.entries, entry);
          journal := journal.(entries := journal.entries[m.target.id := entry]);
        } else {
          AnnounceNext(registry, world.freq, wanted, ps, k, old(journal.entries), journal.entries, Settled(m.target, m.before));
        }
      }
    }

    /** The entry one mutation is announced with: the existing one or a fresh claim, retargeted. */
    method IntentFor(m: Prepared, from: Limits) returns (entry: FrequencyEntry)
      requires EntriesFrom(registry, journal.entries)
      requires m.target.id in registry.targets && m.target == registry.targets[m.target.id]
      requires ValidLimits(m.target, from) && ValidLimits(m.target, m.desired)
      ensures Heading(m.target, m.desired, entry) && TransitionFor(m.target, entry) && entry.applied == from
    {
      var id := m.target.id;
      entry := if id in journal.entries then journal.entries[id]
               else FrequencyEntry(id, m.target.minPath, m.target.maxPath, FrequencyPair(m.target),
                                   HardwareLimits(m.target), m.previous, m.previous, [m.previous]);
      entry := entry.(applied := from, desired := m.desired, legalPairs := LegalPairs(from, m.desired));
      assert entry == Intent(m.target, from, m.desired);
      IntentIsWritten(m.target, from, m.desired);
    }

    /** One iteration of the write loop: move the registers and settle the entry. */
    method WriteOne(m: Prepared, current: Limits) returns (ok: bool)
      requires m.target.id in world.freq && world.freq[m.target.id] == current
      requires ValidLimits(m.target, current) && ValidLimits(m.target, m.desired)
      requires m.target.id in journal.entries && Heading(m.target, m.desired, journal.entries[m.target.id])
      modifies world`freq, world`dead, this`journal
      ensures m.target.id in world.freq && world.freq == old(world.freq)[m.target.id := world.freq[m.target.id]]
      ensures InHardware(m.target, world.freq[m.target.id])
      ensures ok ==> world.freq[m.target.id] == m.desired
      ensures journal == if ok then old(journal).(entries := old(journal.entries)[m.target.id := Settled(m.target, m.desired)])
                         else old(journal)
      ensures world.healthy && !old(world.dead) ==> ok && !world.dead
    {
      ok := ApplyRequestedLimits(m.target, current, m.desired);
      if ok {
        var entry := journal.entries[m.target.id].(applied := m.desired, legalPairs := [m.desired]);
        journal := journal.(entries := journal.entries[m.target.id := entry]);
      }
    }

    /** The write loop of both batch operations; it stops at the first target that fails. */
    method WriteAll(ps: seq<Prepared>, fast: bool, ghost wanted: map<TargetId, Limits>)
      returns (ok: bool, applied: map<TargetId, Limits>, attempted: seq<nat>)
      requires PreparedBatch(registry, world.freq, wanted, ps)
      requires Announced(journal.entries, ps, |ps|)
      requires RegistersOk(registry, world.freq)
      modifies world`freq, world`dead, this`journal
      ensures journal == old(journal).(entries := journal.entries)
      ensures Interrupted(registry, wanted, ps, old(world.freq), world.freq, attempted)
      ensures journal.entries.Keys == old(journal.entries.Keys)
      ensures UntouchedBy(old(journal.entries), journal.entries, old(world.freq), wanted)
      ensures ok ==> && Progressed(old(journal.entries), journal.entries, ps, |ps|)
                     && applied == wanted && world.freq == old(world.freq) + wanted
      ensures world.healthy && !old(world.dead) ==> ok && !world.dead
    {
      applied, attempted, ok := map[], [], true;
      WritingStarts(registry, wanted, ps, world.freq, journal.entries);
      for k := 0 to |ps|
        invariant ok && journal == old(journal).(entries := journal.entries)
        invariant world.healthy && !old(world.dead) ==> !world.dead
        invariant Writing(registry, wanted, ps, k, old(world.freq), world.freq, old(journal.entries), journal.entries, applied, attempted)
      {
        var m := ps[k];
        ghost var f, e := world.freq, journal.entries;
        WritingAt(registry, wanted, ps, k, old(world.freq), f, old(journal.entries), e, applied, attempted);
        if !m.needsWrite {
          WritingSkips(registry, wanted, ps, k, old(world.freq), f, old(journal.entries), e, applied, attempted);
          applied := applied[m.target.id := m.before];
        } else {
          ok := WriteOne(m, if fast then m.before else m.previous);
          WritingStops(registry, wanted, ps, k, old(world.freq), f, old(journal.entries), e, applied, attempted, world.freq[m.target.id]);
          if !ok { attempted := attempted + [k]; return; }
          WritingSettles(registry, wanted, ps, k, old(world.freq), f, old(journal.entries), e, applied, attempted);
          applied, attempted := applied[m.target.id := m.desired], attempted + [k];
        }
      }
      WritingEnds(registry, wanted, ps, old(world.freq), world.freq, old(journal.entries), journal.entries, applied, attempted);
    }

    /** `rollback_frequency_requests`: reset every attempted target, last first, whatever fails on the way. */
    method RollBack(ps: seq<Prepared>, attempted: seq<nat>, ghost before: map<TargetId, Limits>, ghost wanted: map<TargetId, Limits>)
      returns (ok: bool)
      requires PreparedBatch(registry, before, wanted, ps)
      requires Interrupted(registry, wanted, ps, before, world.freq, attempted)
      modifies world`freq, world`dead
      ensures RegistersOk(registry, world.freq) && Moved(before, world.freq, wanted)
      ensures ok ==> world.freq == before
      ensures world.healthy && !old(world.dead) ==> ok && !world.dead
    {
      ok := true;
      var j := |attempted|;
      while j > 0
        invariant 0 <= j <= |attempted|
        invariant world.healthy && !old(world.dead) ==> ok && !world.dead
        invariant Undoing(registry, wanted, ps, before, old(world.freq), world.freq, attempted, j, ok)
      {
        j := j - 1;
        var m := ps[attempted[j]];
        UndoingAt(registry, wanted, ps, before, old(world.freq), world.freq, attempted, j, ok);
        ghost var f, was := world.freq, ok;
        var done := RestoreRequest(m.target, m.previous);
        if !done { ok := false; }
        UndoingStep(registry, wanted, ps, before, old(world.freq), f, attempted, j, was, world.freq[m.target.id], done);
      }
      UndoingEnds(registry, wanted, ps, before, old(world.freq), world.freq, attempted, ok);
    }

    /** `persist_or_remove_locked`. */
    method PersistOrRemove() returns (ok: bool)
      modifies this`degraded, world`durable, world`dead
      ensures ok ==> world.durable == (if IsEmpty(journal) then None else Some(journal)) && degraded == old(degraded)
      ensures !ok ==> degraded && world.durable in {old(world.durable), None, Some(journal)}
      ensures !ok ==> world.durable == None ==> IsEmpty(journal) || old(world.durable) == None
      ensures world.healthy && !old(world.dead) ==> ok && !world.dead
      ensures old(world.dead) ==> !ok && world.durable == old(world.durable)
    {
      if IsEmpty(journal) {
        ok := world.Remove();
      } else {
        ok := world.Store(journal);
      }
      if !ok { degraded := true; }
    }

    /**
     `apply_batch`. Whatever fails and wherever the daemon is killed, the registers recovery would restore
     are conserved. Success means every requested target holds its snapped window and is journaled; an error
     that leaves the actuator read-write leaves registers and journal exactly as they were.
     */
    method ApplyBatch(requests: seq<FrequencyRequest>) returns (r: Result<map<TargetId, Limits>>)
      requires Valid()
      modifies this`degraded, this`journal, world`freq, world`durable, world`dead
      ensures Valid() && (old(Ours()) ==> Ours())
      ensures RestoredFreq(world.durable, world.freq) == old(RestoredFreq(world.durable, world.freq))
      ensures ClaimedNodes(world.durable) == old(ClaimedNodes(world.durable))
      ensures old(degraded || recoveryRequired) ==>
                r.Err? && world.freq == old(world.freq) && world.durable == old(world.durable)
                && journal == old(journal) && degraded == old(degraded)
      ensures r.Err? && !degraded ==> world.freq == old(world.freq) && journal == old(journal)
      ensures r.Ok? ==> && !degraded && Acceptable(registry, old(journal.entries.Keys), old(world.freq), requests)
                        && Snapped(registry, requests) == Some(r.value) && world.freq == old(world.freq) + r.value
                        && OwnedAfter(old(journal.entries.Keys), old(world.freq), r.value, journal.entries.Keys)
                        && (world.freq != old(world.freq) ==>
                              world.durable == Some(journal) && journal.generation == SaturatingIncrement(old(journal.generation)))
      ensures world.healthy && !old(world.dead) && old(Ready()) ==>
                !world.dead && !degraded && (r.Ok? <==> Acceptable(registry, old(journal.entries.Keys), old(world.freq), requests))
    {
      if degraded { return Err("degraded"); }
      if recoveryRequired { return Err("recovery required"); }
      if requests == [] { return Ok(map[]); }
      var preparation := PrepareClaims(requests);
      if preparation.Err? { return Err(preparation.reason); }
      var ps := preparation.value;
      ghost var wanted := Snapped(registry, requests).value;
      if forall i :: 0 <= i < |ps| ==> !ps[i].needsWrite {
        var same := ReportUnchanged(ps, wanted);
        return Ok(same);
      }
      r := CommitBatch(ps, wanted);
    }

    /** The outcome of a batch none of whose targets needs a write. */
    method ReportUnchanged(ps: seq<Prepared>, ghost wanted: map<TargetId, Limits>) returns (applied: map<TargetId, Limits>)
      requires PreparedBatch(registry, world.freq, wanted, ps) && forall i :: 0 <= i < |ps| ==> !ps[i].needsWrite
      ensures applied == wanted && world.freq + wanted == world.freq
      ensures forall owned :: OwnedAfter(owned, world.freq, wanted, owned)
    {
      assert UnfoldBatch(true);
      applied := map i | 0 <= i < |ps| :: ps[i].target.id := ps[i].before;
      NothingToWrite(registry, world.freq, wanted, ps, applied);
    }

    /** Roll back, put the old journal back, and persist that; any failure on the way degrades. */
    method UndoBatch(ps: seq<Prepared>, attempted: seq<nat>, before: Journal, ghost f0: map<TargetId, Limits>,
                     ghost d0: Option<Journal>, ghost stored: Journal, ghost wanted: map<TargetId, Limits>)
      returns (r: Result<map<TargetId, Limits>>)
      requires MachineFits(registry, bootId, fingerprint, f0, world.scal, d0) && Agreed(registry, bootId, fingerprint, f0, before, d0)
      requires PreparedBatch(registry, f0, wanted, ps) && Interrupted(registry, wanted, ps, f0, world.freq, attempted)
      requires world.durable == Some(stored) && OwnedAfter(before.entries.Keys, f0, wanted, stored.entries.Keys)
      requires MachineFits(registry, bootId, fingerprint, f0, world.scal, Some(stored))
      requires RestoredFreq(Some(stored), f0) == RestoredFreq(d0, f0) && ClaimedNodes(Some(stored)) == ClaimedNodes(d0)
      modifies this`degraded, this`journal, world`freq, world`durable, world`dead
      ensures r.Err?
      ensures Ours()
      ensures RestoredFreq(world.durable, world.freq) == RestoredFreq(d0, f0) && ClaimedNodes(world.durable) == ClaimedNodes(d0)
      ensures !degraded ==> && world.freq == f0 && journal == before && !old(degraded)
                            && Agreed(registry, bootId, fingerprint, world.freq, journal, world.durable)
    {
      var undone := RollBack(ps, attempted, f0, wanted);
      WritesConserve(registry, bootId, fingerprint, f0, world.freq, world.scal, before.entries.Keys, Some(stored), wanted);
      if !undone {
        degraded := true;
        return Err("rollback failed");
      }
      journal := before;
      var persisted := PersistOrRemove();
      if world.durable == Some(journal) || (world.durable == None && IsEmpty(journal)) {
        BatchRolledBack(registry, bootId, fingerprint, f0, world.scal, before, d0, world.durable);
      }
      r := Err("transaction failed");
    }

    /** Announce the batch and persist the announcement. */
    method AnnounceBatch(ps: seq<Prepared>, ghost wanted: map<TargetId, Limits>) returns (ok: bool)
      requires Ours() && Agreed(registry, bootId, fingerprint, world.freq, journal, world.durable)
      requires PreparedBatch(registry, world.freq, wanted, ps) && Claimable(registry, journal.entries.Keys, world.freq, wanted)
      modifies this`journal, world`durable, world`dead
      ensures journal == old(journal).(generation := SaturatingIncrement(old(journal.generation)), entries := journal.entries)
      ensures EntriesFrom(registry, journal.entries) && Announced(journal.entries, ps, |ps|)
      ensures Untouched(old(journal.entries), journal.entries, world.freq, wanted)
      ensures OwnedAfter(old(journal.entries.Keys), world.freq, wanted, journal.entries.Keys)
      ensures MachineFits(registry, bootId, fingerprint, world.freq, world.scal, Some(journal))
      ensures RestoredFreq(Some(journal), world.freq) == old(RestoredFreq(world.durable, world.freq))
      ensures ClaimedNodes(Some(journal)) == old(ClaimedNodes(world.durable))
      ensures world.durable == old(world.durable) || world.durable == Some(journal)
      ensures ok ==> world.durable == Some(journal)
      ensures world.healthy && !old(world.dead) ==> ok && !world.dead
    {
      ghost var before := journal;
      assert EntriesFrom(registry, journal.entries) by { assert Unfold(true); }
      journal := journal.(generation := SaturatingIncrement(journal.generation));
      RecordIntents(ps, false, wanted);
      IntentsStored(registry, bootId, fingerprint, world.freq, world.scal, before, world.durable, wanted, ps, journal);
      ok := world.Store(journal);
    }

    /** The announce, write and commit phases of `apply_batch`. */
    method CommitBatch(ps: seq<Prepared>, ghost wanted: map<TargetId, Limits>) returns (r: Result<map<TargetId, Limits>>)
      requires Valid() && Ready()
      requires PreparedBatch(registry, world.freq, wanted, ps) && Claimable(registry, journal.entries.Keys, world.freq, wanted)
      modifies this`degraded, this`journal, world`freq, world`durable, world`dead
      ensures Valid() && Ours()
      ensures RestoredFreq(world.durable, world.freq) == old(RestoredFreq(world.durable, world.freq))
      ensures ClaimedNodes(world.durable) == old(ClaimedNodes(world.durable))
      ensures r.Err? && !degraded ==> world.freq == old(world.freq) && journal == old(journal)
      ensures r.Ok? ==> && !degraded && r.value == wanted && world.freq == old(world.freq) + wanted
                        && OwnedAfter(old(journal.entries.Keys), old(world.freq), wanted, journal.entries.Keys)
                        && world.durable == Some(journal) && journal.generation == SaturatingIncrement(old(journal.generation))
      ensures world.healthy && !old(world.dead) ==> !world.dead && !degraded && r.Ok?
    {
      var before := journal;
      ghost var f0, d0 := world.freq, world.durable;
      var stored := AnnounceBatch(ps, wanted);
      ghost var announced := journal;
      if !stored {
        journal, degraded := before, true;
        return Err("cannot persist pre-mutation journal");
      }
      assert RegistersOk(registry, world.freq) by { assert Unfold(true); }
      var ok, applied, attempted := WriteAll(ps, false, wanted);
      WritesConserve(registry, bootId, fingerprint, f0, world.freq, world.scal, before.entries.Keys, Some(announced), wanted);
      if !ok {
        r := UndoBatch(ps, attempted, before, f0, d0, announced, wanted);
        return;
      }
      BatchCommitted(registry, bootId, fingerprint, f0, world.scal, before, d0, announced, wanted, ps, journal);
      r := StoreCommitted(ps, applied, attempted, before, f0, d0, announced, wanted);
    }

    /** Persist the committed journal; if that fails the batch is rolled back and the actuator degrades. */
    method StoreCommitted(ps: seq<Prepared>, applied: map<TargetId, Limits>, attempted: seq<nat>, before: Journal,
                          ghost f0: map<TargetId, Limits>, ghost d0: Option<Journal>, ghost announced: Journal, ghost wanted: map<TargetId, Limits>)
      returns (r: Result<map<TargetId, Limits>>)
      requires MachineFits(registry, bootId, fingerprint, f0, world.scal, d0) && Agreed(registry, bootId, fingerprint, f0, before, d0)
      requires PreparedBatch(registry, f0, wanted, ps) && Interrupted(registry, wanted, ps, f0, world.freq, attempted)
      requires world.durable == Some(announced) && OwnedAfter(before.entries.Keys, f0, wanted, announced.entries.Keys)
      requires MachineFits(registry, bootId, fingerprint, f0, world.scal, Some(announced)) && world.freq == f0 + wanted
      requires RestoredFreq(Some(announced), f0) == RestoredFreq(d0, f0) && ClaimedNodes(Some(announced)) == ClaimedNodes(d0)
      requires journal.entries.Keys == announced.entries.Keys && journal.scalars == announced.scalars && !degraded
      requires Agreed(registry, bootId, fingerprint, world.freq, journal, Some(journal))
      requires MachineFits(registry, bootId, fingerprint, world.freq, world.scal, Some(journal))
      modifies this`degraded, this`journal, world`freq, world`durable, world`dead
      ensures Ours()
      ensures RestoredFreq(world.durable, world.freq) == RestoredFreq(d0, f0) && ClaimedNodes(world.durable) == ClaimedNodes(d0)
      ensures r.Err? ==> degraded
      ensures r.Ok? ==> && !degraded && r.value == applied && world.freq == f0 + wanted && journal == old(journal) && world.durable == Some(journal)
                        && Agreed(registry, bootId, fingerprint, world.freq, journal, world.durable)
      ensures world.healthy && !old(world.dead) ==> !world.dead && r.Ok?
    {
      var now := journal;
      StoredElsewhere(registry, bootId, fingerprint, f0, world.freq, world.scal, announced, now);
      WritesConserve(registry, bootId, fingerprint, f0, world.freq, world.scal, before.entries.Keys, Some(now), wanted);
      var stored := world.Store(journal);
      if stored {
        r := Ok(applied);
      } else {
        r := UndoBatch(ps, attempted, before, f0, d0, if world.durable == Some(now) then now else announced, wanted);
        degraded := true;
      }
    }

    // ---------------------------------------------------------- the fast path

    /** One iteration of `apply_owned_batch_fast`'s validation loop, after the duplicate check. */
    method PrepareOwnedOne(q: FrequencyRequest) returns (r: Result<Prepared>)
      requires Valid() && Ready()
      ensures r.Ok? ==>
                && q.target in registry.targets && r.value.target.id == q.target && q.target in journal.entries
                && SnapLimits(registry.targets[q.target], q.limits) == Ok(r.value.desired)
                && PreparedFor(registry, world.freq, map[q.target := r.value.desired], r.value) && PreparedValid(r.value)
      ensures world.healthy && !world.dead && q.target in registry.targets && r.Err? ==>
                SnapLimits(registry.targets[q.target], q.limits).Err? || q.target !in journal.entries
    {
      if q.target !in registry.targets { return Err("unknown target"); }
      var t := registry.targets[q.target];
      assert Unfold(true) && Inspect(t.id);
      if t.id !in journal.entries { return Err("ownership required"); }
      var snapped := SnapLimits(t, q.limits);
      if snapped.Err? { return Err(snapped.reason); }
      SnapLimitsCorrect(t, q.limits);
      var reading := world.ReadPair(t.id);
      if !reading.Pair? { return Err("cannot read limits"); }
      var before, desired := reading.limits, snapped.value;
      var previous := journal.entries[t.id].desired;
      r := Ok(Prepared(t, before, previous, desired, previous != desired || before != desired));
    }

    method PrepareOwned(requests: seq<FrequencyRequest>) returns (r: Result<seq<Prepared>>)
      requires Valid() && Ready()
      ensures r.Ok? ==> FastAcceptable(registry, journal.entries.Keys, requests)
                        && PreparedBatch(registry, world.freq, Snapped(registry, requests).value, r.value)
      ensures world.healthy && !world.dead && r.Err? ==> !FastAcceptable(registry, journal.entries.Keys, requests)
    {
      var ps: seq<Prepared> := [];
      var seen: set<TargetId> := {};
      ghost var wanted: map<TargetId, Limits> := map[];
      ghost var owned := journal.entries.Keys;
      for k := 0 to |requests|
        invariant Collected(registry, owned, world.freq, requests[..k], wanted, ps) && seen == wanted.Keys && seen <= owned
      {
        var q := requests[k];
        RejectedOwned(registry, owned, requests, k);
        if q.target in seen { return Err("duplicate request"); }
        seen := seen + {q.target};
        var one := PrepareOwnedOne(q);
        if one.Err? { return Err(one.reason); }
        CollectOne(registry, owned, world.freq, requests, k, wanted, ps, one.value);
        ps := ps + [one.value];
        wanted := wanted[q.target := one.value.desired];
      }
      assert requests[..|requests|] == requests;
      r := Ok(ps);
    }

    /**
     `apply_owned_batch_fast`: the same transition as `apply_batch` on owned targets, without touching the
     store. Conservation, atomicity and the outcome are those of the durable path.
     */
    method ApplyOwnedBatchFast(requests: seq<FrequencyRequest>) returns (r: Result<map<TargetId, Limits>>)
      requires Valid()
      modifies this`degraded, this`journal, world`freq, world`dead
      ensures Valid() && (old(Ours()) ==> Ours())
      ensures RestoredFreq(world.durable, world.freq) == old(RestoredFreq(world.durable, world.freq))
      ensures old(degraded || recoveryRequired) ==> r.Err? && world.freq == old(world.freq) && journal == old(journal) && degraded == old(degraded)
      ensures r.Err? && !degraded ==> world.freq == old(world.freq) && journal == old(journal)
      ensures r.Ok? ==> && !degraded && FastAcceptable(registry, old(journal.entries.Keys), requests)
                        && Snapped(registry, requests) == Some(r.value) && world.freq == old(world.freq) + r.value
                        && journal.entries.Keys == old(journal.entries.Keys)
      ensures world.healthy && !old(world.dead) && old(Ready()) ==>
                !world.dead && !degraded && (r.Ok? <==> FastAcceptable(registry, old(journal.entries.Keys), requests))
    {
      if degraded { return Err("degraded"); }
      if recoveryRequired { return Err("recovery required"); }
      if requests == [] { return Ok(map[]); }
      var preparation := PrepareOwned(requests);
      if preparation.Err? { return Err(preparation.reason); }
      var ps := preparation.value;
      ghost var wanted := Snapped(registry, requests).value;
      if forall i :: 0 <= i < |ps| ==> !ps[i].needsWrite {
        var same := ReportUnchanged(ps, wanted);
        return Ok(same);
      }
      r := CommitFast(ps, wanted);
    }

    /** The announce, write and rollback phases of the fast path; only memory and registers change. */
    method CommitFast(ps: seq<Prepared>, ghost wanted: map<TargetId, Limits>) returns (r: Result<map<TargetId, Limits>>)
      requires Valid() && Ready()
      requires PreparedBatch(registry, world.freq, wanted, ps) && wanted.Keys <= journal.entries.Keys
      modifies this`degraded, this`journal, world`freq, world`dead
      ensures Valid() && Ours()
      ensures RestoredFreq(world.durable, world.freq) == old(RestoredFreq(world.durable, world.freq))
      ensures r.Err? && !degraded ==> world.freq == old(world.freq) && journal == old(journal)
      ensures r.Ok? ==> && !degraded && r.value == wanted && world.freq == old(world.freq) + wanted
                        && journal.entries.Keys == old(journal.entries.Keys)
      ensures world.healthy && !old(world.dead) ==> !world.dead && !degraded && r.Ok?
    {
      var generationBefore := journal.generation;
      ghost var f0, j0 := world.freq, journal;
      assert EntriesFrom(registry, journal.entries) by { assert Unfold(true); }
      assert RegistersOk(registry, world.freq) by { assert Unfold(true); }
      var saved := SaveEntries(ps, wanted);
      journal := journal.(generation := SaturatingIncrement(journal.generation));
      RecordIntents(ps, true, wanted);
      ghost var announced := journal;
      OwnedBatchKeepsKeys(registry, f0, j0.entries, announced.entries, wanted, ps);
      var ok, applied, attempted := WriteAll(ps, true, wanted);
      assert OwnedAfter(j0.entries.Keys, f0, wanted, ClaimedPairs(world.durable).Keys) by { assert Unfold(true); }
      WritesConserve(registry, bootId, fingerprint, f0, world.freq, world.scal, j0.entries.Keys, world.durable, wanted);
      if ok {
        FastCommitted(registry, bootId, fingerprint, f0, j0, world.durable, announced, wanted, ps, journal);
        return Ok(applied);
      }
      var undone := RollBack(ps, attempted, f0, wanted);
      WritesConserve(registry, bootId, fingerprint, f0, world.freq, world.scal, j0.entries.Keys, world.durable, wanted);
      if !undone {
        degraded := true;
        return Err("fast rollback failed");
      }
      SavedEntriesRestore(registry, f0, j0.entries, announced.entries, journal.entries, wanted, ps, saved);
      journal := journal.(generation := generationBefore, entries := journal.entries + saved);
      r := Err("fast transaction failed");
    }

    /** `entries_before`: the current entries of the targets about to be written. */
    method SaveEntries(ps: seq<Prepared>, ghost wanted: map<TargetId, Limits>) returns (saved: map<TargetId, FrequencyEntry>)
      requires PreparedBatch(registry, world.freq, wanted, ps) && wanted.Keys <= journal.entries.Keys
      ensures forall id :: id in saved ==> id in journal.entries && saved[id] == journal.entries[id]
      ensures forall i :: 0 <= i < |ps| && ps[i].needsWrite ==> ps[i].target.id in saved
    {
      saved := map[];
      for k := 0 to |ps|
        invariant forall id :: id in saved ==> id in journal.entries && saved[id] == journal.entries[id]
        invariant forall i :: 0 <= i < k && ps[i].needsWrite ==> ps[i].target.id in saved
      {
        assert UnfoldBatch(true);
        assert PreparedFor(registry, world.freq, wanted, ps[k]);
        if ps[k].needsWrite {
          saved := saved[ps[k].target.id := journal.entries[ps[k].target.id]];
        }
      }
    }

    // ------------------------------------------------------------- restoring

    /** The intent loop of `restore_targets` and `recover_pending`; no identity check can fail. */
    method RecordRestores(list: seq<FrequencyEntry>, ghost base: map<TargetId, FrequencyEntry>) returns (ok: bool)
      requires UsableRegistry(registry) && EntriesFrom(registry, base) && TakenFrom(registry, base, list)
      requires journal.entries == base
      modifies this`journal
      ensures ok
      ensures journal == old(journal).(entries := journal.entries) && journal.entries.Keys == base.Keys
      ensures EntriesFrom(registry, journal.entries)
      ensures forall id :: id in journal.entries && !InList(list, id) ==> journal.entries[id] == base[id]
    {
      for k := 0 to |list|
        invariant journal == old(journal).(entries := journal.entries) && journal.entries.Keys == base.Keys
        invariant EntriesFrom(registry, journal.entries)
        invariant forall id :: id in journal.entries && !InList(list, id) ==> journal.entries[id] == base[id]
      {
        var entry := list[k];
        assert InList(list, entry.target) && Inspect(entry.target);
        assert EntryFor(registry.targets[entry.target], entry);
        if entry.target !in registry.targets { return false; }
        var t := registry.targets[entry.target];
        if t.minPath != entry.minPath || t.maxPath != entry.maxPath || entry.manifest != FrequencyPair(t) || entry.original != HardwareLimits(t) {
          return false;
        }
        var next := entry.(applied := entry.desired, desired := entry.original, legalPairs := LegalPairs(entry.desired, entry.original));
        assert next == Intent(t, entry.desired, HardwareLimits(t));
        IntentIsWritten(t, entry.desired, HardwareLimits(t));
        EntriesGrow(registry, journal.entries, entry.target, next);
        journal := journal.(entries := journal.entries[entry.target := next]);
      }
      ok := true;
    }

    /** The write loop of `restore_targets` and `recover_pending`. */
    method ResetListed(list: seq<FrequencyEntry>) returns (ok: bool)
      requires UsableRegistry(registry) && RegistersOk(registry, world.freq)
      requires forall i :: 0 <= i < |list| ==> list[i].target in registry.targets && EntryFor(registry.targets[list[i].target], list[i])
      modifies world`freq, world`dead
      ensures RegistersOk(registry, world.freq) && world.freq.Keys == old(world.freq.Keys)
      ensures forall id :: id in world.freq && !InList(list, id) ==> world.freq[id] == old(world.freq)[id]
      ensures ok ==> forall i :: 0 <= i < |list| ==> world.freq[list[i].target] == HardwareLimits(registry.targets[list[i].target])
      ensures world.healthy && !old(world.dead) ==> ok && !world.dead
    {
      ok := true;
      for k := 0 to |list|
        invariant ok && (world.healthy && !old(world.dead) ==> !world.dead)
        invariant RegistersOk(registry, world.freq) && world.freq.Keys == old(world.freq.Keys)
        invariant forall id :: id in world.freq && !InList(list, id) ==> world.freq[id] == old(world.freq)[id]
        invariant forall i :: 0 <= i < k ==> world.freq[list[i].target] == HardwareLimits(registry.targets[list[i].target])
      {
        var entry := list[k];
        assert InList(list, entry.target) && Inspect(entry.target);
        ok := RestoreRequest(registry.targets[entry.target], entry.original);
        if !ok { return; }
      }
    }

    /** Announce the restore of the listed entries and persist that. */
    method AnnounceRestores(list: seq<FrequencyEntry>) returns (ok: bool)
      requires Ours() && Mirrored(registry, bootId, fingerprint, journal, world.durable) && TakenFrom(registry, journal.entries, list)
      modifies this`journal, world`durable, world`dead
      ensures Ours() && Mirrored(registry, bootId, fingerprint, journal, world.durable)
      ensures RestoredFreq(world.durable, world.freq) == old(RestoredFreq(world.durable, world.freq))
      ensures ClaimedNodes(world.durable) == old(ClaimedNodes(world.durable))
      ensures journal == old(journal).(entries := journal.entries) && journal.entries.Keys == old(journal.entries.Keys)
      ensures forall id :: id in journal.entries && !InList(list, id) ==> journal.entries[id] == old(journal.entries)[id]
      ensures ok && list == [] ==> world.durable == old(world.durable) && journal == old(journal)
      ensures ok && list != [] ==> world.durable == Some(journal)
      ensures world.healthy && !old(world.dead) ==> ok && !world.dead
    {
      ghost var j0, d0 := journal, world.durable;
      assert UsableRegistry(registry) && EntriesFrom(registry, journal.entries) by { assert Unfold(true); }
      ok := RecordRestores(list, journal.entries);
      SameClaimsStored(registry, bootId, fingerprint, world.freq, world.scal, d0, j0, journal);
      if list != [] {
        ok := world.Store(journal);
      }
    }

    /** Announce the restore of the listed entries, persist that, and reset their registers. */
    method RestoreListed(list: seq<FrequencyEntry>) returns (ok: bool)
      requires Ours() && Mirrored(registry, bootId, fingerprint, journal, world.durable)
      requires TakenFrom(registry, journal.entries, list)
      modifies this`degraded, this`journal, world`freq, world`durable, world`dead
      ensures Ours() && Mirrored(registry, bootId, fingerprint, journal, world.durable)
      ensures RestoredFreq(world.durable, world.freq) == old(RestoredFreq(world.durable, world.freq))
      ensures ClaimedNodes(world.durable) == old(ClaimedNodes(world.durable))
      ensures journal == old(journal).(entries := journal.entries) && journal.entries.Keys == old(journal.entries.Keys)
      ensures forall id :: id in journal.entries && !InList(list, id) ==> journal.entries[id] == old(journal.entries)[id]
      ensures world.freq.Keys == old(world.freq.Keys)
      ensures forall id :: id in world.freq && !InList(list, id) ==> world.freq[id] == old(world.freq)[id]
      ensures if ok then degraded == old(degraded) else degraded
      ensures ok && list == [] ==> world.durable == old(world.durable) && journal == old(journal)
      ensures ok && list != [] ==> world.durable == Some(journal)
      ensures ok ==> forall i :: 0 <= i < |list| ==> list[i].target in registry.targets && list[i].target in world.freq
                                                     && world.freq[list[i].target] == HardwareLimits(registry.targets[list[i].target])
      ensures world.healthy && !old(world.dead) ==> ok && !world.dead
    {
      ghost var f0 := world.freq;
      ok := AnnounceRestores(list);
      if !ok { degraded := true; return; }
      assert UsableRegistry(registry) && RegistersOk(registry, world.freq) && ClaimedPairs(world.durable).Keys == journal.entries.Keys by { assert Unfold(true); }
      ok := ResetListed(list);
      ResetsConserve(registry, bootId, fingerprint, f0, world.freq, world.scal, world.durable, list);
      if !ok { degraded := true; }
    }

    /**
     `restore_targets`: put the selected owned targets back to their hardware range and release them. Any
     failure degrades; what recovery would restore is conserved throughout.
     */
    method RestoreTargets(ids: seq<TargetId>) returns (ok: bool)
      requires Valid()
      modifies this`degraded, this`journal, world`freq, world`durable, world`dead
      ensures Valid() && (old(Ours()) ==> Ours())
      ensures RestoredFreq(world.durable, world.freq) == old(RestoredFreq(world.durable, world.freq))
      ensures ClaimedNodes(world.durable) == old(ClaimedNodes(world.durable))
      ensures old(degraded || recoveryRequired) ==>
                !ok && world.freq == old(world.freq) && world.durable == old(world.durable) && journal == old(journal) && degraded == old(degraded)
      ensures !ok ==> degraded || old(recoveryRequired)
      ensures ok ==> && !degraded && journal.entries.Keys == (set id | id in old(journal.entries) && id !in ids)
                     && world.freq.Keys == old(world.freq.Keys)
                     && forall id :: id in world.freq ==>
                          world.freq[id] == if id in ids && id in old(journal.entries) && id in registry.targets
                                            then HardwareLimits(registry.targets[id]) else old(world.freq)[id]
      ensures world.healthy && !old(world.dead) && old(Ready()) ==> ok && !world.dead
    {
      if degraded || recoveryRequired { return false; }
      var list := Pick(journal.entries, ids);
      ghost var j0, f0 := journal, world.freq;
      JournaledCorrect(registry, journal.entries, ids) by { assert Unfold(true); }
      assert Mirrored(registry, bootId, fingerprint, journal, world.durable) && AllSettled(registry, f0, j0.entries)
             && NoTransition(j0.scalars) by { assert Unfold(true); }
      ok := RestoreListed(list);
      if !ok { return; }
      ok := Release(ids, list, j0, f0, journal);
    }

    /** Drop the restored entries and persist what is left. */
    method Release(ids: seq<TargetId>, ghost list: seq<FrequencyEntry>, ghost j0: Journal, ghost f0: map<TargetId, Limits>,
                   ghost announced: Journal) returns (ok: bool)
      requires journal == announced && !degraded
      requires Ours() && Mirrored(registry, bootId, fingerprint, announced, world.durable)
      requires AllSettled(registry, f0, j0.entries) && NoTransition(announced.scalars)
      requires announced.entries.Keys == j0.entries.Keys
      requires world.freq.Keys == f0.Keys && forall id :: id in world.freq && !InList(list, id) ==> world.freq[id] == f0[id]
      requires forall id :: id in announced.entries && !InList(list, id) ==> announced.entries[id] == j0.entries[id]
      requires forall id :: InList(list, id) <==> id in ids && id in announced.entries
      requires forall i :: 0 <= i < |list| ==> list[i].target in registry.targets && list[i].target in world.freq
                                               && world.freq[list[i].target] == HardwareLimits(registry.targets[list[i].target])
      modifies this`degraded, this`journal, world`durable, world`dead
      ensures Ours()
      ensures RestoredFreq(world.durable, world.freq) == old(RestoredFreq(world.durable, world.freq))
      ensures ClaimedNodes(world.durable) == old(ClaimedNodes(world.durable))
      ensures ok ==> && !degraded && Agreed(registry, bootId, fingerprint, world.freq, journal, world.durable)
                     && journal.entries.Keys == (set id | id in announced.entries && id !in ids)
      ensures !ok ==> degraded
      ensures world.healthy && !old(world.dead) ==> ok && !world.dead
    {
      var dropped := set id | id in ids;
      ghost var d := world.durable;
      journal := journal.(entries := journal.entries - dropped, generation := SaturatingIncrement(journal.generation));
      RestSettled(registry, f0, world.freq, j0.entries, list, journal.entries);
      ok := PersistOrRemove();
      if world.durable == Some(journal) || (world.durable == None && IsEmpty(journal)) {
        ClaimsReleased(registry, bootId, fingerprint, world.freq, world.scal, d, announced, list, journal, world.durable);
      }
    }

    // ----------------------------------------------------------- scalar batches

    /** `write_scalar`: write, read back and compare. */
    method WriteVerified(t: ScalarTarget, v: ScalarValue) returns (ok: bool)
      requires t.id in world.scal
      modifies world`scal, world`dead
      ensures ok ==> world.scal == old(world.scal)[t.id := Some(v)]
      ensures world.scal == old(world.scal) || world.scal == old(world.scal)[t.id := Some(v)]
      ensures world.healthy && !old(world.dead) && ValidValue(t.domain, v) ==> ok && !world.dead
    {
      ok := world.WriteNode(t.id, v);
      if ok {
        var actual := world.ReadNode(t);
        ok := actual == Some(v);
      }
    }

    /** One iteration of `apply_scalars`' validation loop, after the duplicate check. */
    method PrepareNode(q: ScalarRequest) returns (r: Result<PreparedNode>)
      requires Valid() && Ready()
      ensures r.Ok? ==> && RequestAcceptable(registry, journal.scalars, world.scal, q) && r.value.target.id == q.target && r.value.desired == q.value
                        && NodeFor(registry, journal.scalars, world.scal, map[q.target := q.value], r.value) && NodeValues(r.value)
      ensures world.healthy && !world.dead && r.Err? ==> !RequestAcceptable(registry, journal.scalars, world.scal, q)
    {
      if q.target !in registry.scalars { return Err("unknown target"); }
      var t := registry.scalars[q.target];
      if !ValidValue(t.domain, q.value) { return Err("value outside domain"); }
      assert t.id == q.target && t.id in world.scal && NodesFrom(registry, journal.scalars) && NoTransition(journal.scalars) by { assert Unfold(true); }
      var reading := world.ReadNode(t);
      if reading.None? { return Err("cannot read node"); }
      var before := reading.value;
      if t.id in journal.scalars {
        var entry := journal.scalars[t.id];
        assert ScalarEntryFor(t, entry);
        if entry.path != t.path || entry.manifest != ScalarNode(t) { return Err("journal identity changed"); }
        if before != entry.applied && before != entry.desired { return Err("ownership lost"); }
      }
      var needsWrite := before != q.value;
      var needsJournal := if t.id in journal.scalars then journal.scalars[t.id].desired != q.value || journal.scalars[t.id].applied != before
                          else needsWrite;
      r := Ok(PreparedNode(t, before, q.value, needsWrite, needsJournal));
    }

    /** The validation loop of `apply_scalars`; it writes nothing. */
    method PrepareNodes(requests: seq<ScalarRequest>) returns (r: Result<seq<PreparedNode>>, ghost wanted: Values)
      requires Valid() && Ready()
      ensures r.Ok? ==> && NodesAcceptable(registry, journal.scalars, world.scal, requests) && AskedFor(requests, wanted)
                        && PreparedNodes(registry, journal.scalars, world.scal, wanted, r.value)
      ensures world.healthy && !world.dead && r.Err? ==> !NodesAcceptable(registry, journal.scalars, world.scal, requests)
    {
      var ps: seq<PreparedNode> := [];
      var seen: set<TargetId> := {};
      wanted := map[];
      for k := 0 to |requests|
        invariant NodesAcceptable(registry, journal.scalars, world.scal, requests[..k]) && AskedFor(requests[..k], wanted)
        invariant PreparedNodes(registry, journal.scalars, world.scal, wanted, ps) && seen == wanted.Keys
      {
        var q := requests[k];
        if q.target in seen {
          assert Asks(requests[..k], q.target);
          return Err("duplicate request"), wanted;
        }
        seen := seen + {q.target};
        var one := PrepareNode(q);
        if one.Err? { return Err(one.reason), wanted; }
        PreparedNodesGrow(registry, journal.scalars, world.scal, wanted, ps, one.value);
        AskedGrows(requests, k, wanted);
        ps := ps + [one.value];
        wanted := wanted[q.target := q.value];
      }
      assert requests[..|requests|] == requests;
      r := Ok(ps);
    }

    /** The intent loop of `apply_scalars`. */
    method RecordNodeIntents(ps: seq<PreparedNode>, ghost wanted: Values)
      requires PreparedNodes(registry, journal.scalars, world.scal, wanted, ps)
      modifies this`journal
      ensures journal == old(journal).(scalars := journal.scalars)
      ensures NodesAnnounced(registry, old(journal.scalars), world.scal, wanted, journal.scalars)
    {
      ghost var done: Values := map[];
      for k := 0 to |ps|
        invariant journal == old(journal).(scalars := journal.scalars)
        invariant NodesAnnounced(registry, old(journal.scalars), world.scal, done, journal.scalars)
        invariant forall id :: id in done ==> id in wanted && done[id] == wanted[id]
        invariant forall i :: 0 <= i < |ps| ==> (ps[i].target.id in done <==> i < k)
      {
        var m := ps[k];
        assert NodeFor(registry, old(journal.scalars), world.scal, wanted, m) by { assert UnfoldBatch(true); }
        AnnounceOne(registry, old(journal.scalars), world.scal, done, journal.scalars, m);
        if m.needsJournal {
          journal := journal.(scalars := journal.scalars[m.target.id := NodeIntent(journal.scalars, m.target, m.before, m.desired)]);
        }
        assert forall i :: 0 <= i < |ps| && i != k ==> ps[i].target.id != m.target.id by { assert UnfoldBatch(true); }
        done := done[m.target.id := m.desired];
      }
      assert forall id :: id in wanted ==> id in done by {
        assert UnfoldBatch(true);
        assert forall id :: id in wanted ==> ListedNode(ps, id);
      }
      assert done == wanted;
    }

    /** The write loop of `apply_scalars`; it stops at the first node that fails. */
    method WriteNodes(ps: seq<PreparedNode>, ghost claims: Claims, ghost wanted: Values)
      returns (ok: bool, applied: Values, attempted: seq<nat>)
      requires PreparedNodes(registry, claims, world.scal, wanted, ps)
      requires NodesAnnounced(registry, claims, world.scal, wanted, journal.scalars)
      modifies world`scal, world`dead, this`journal
      ensures journal == old(journal).(scalars := journal.scalars)
      ensures Midway(old(world.scal), world.scal, wanted)
      ensures MovedAreAttempted(ps, attempted, |attempted|, old(world.scal), world.scal)
      ensures forall a :: 0 <= a < |attempted| ==> attempted[a] < |ps|
      ensures ok ==> && applied == wanted && world.scal == Over(old(world.scal), wanted)
                     && NodesSettled(old(journal.scalars), old(world.scal), wanted, journal.scalars)
      ensures world.healthy && !old(world.dead) ==> ok && !world.dead
    {
      applied, attempted, ok := map[], [], true;
      WritingNodesStarts(ps, wanted, world.scal, journal.scalars);
      for k := 0 to |ps|
        invariant ok && journal == old(journal).(scalars := journal.scalars) && (world.healthy && !old(world.dead) ==> !world.dead)
        invariant WritingNodes(ps, k, wanted, old(world.scal), world.scal, old(journal.scalars), journal.scalars, applied)
        invariant MovedAreAttempted(ps, attempted, |attempted|, old(world.scal), world.scal)
        invariant forall a :: 0 <= a < |attempted| ==> attempted[a] < |ps|
      {
        var m := ps[k];
        WritingNodesNext(registry, claims, ps, k, wanted, old(world.scal), world.scal, old(journal.scalars), journal.scalars, applied);
        if m.needsWrite {
          ok, attempted := WriteChangedNode(ps, k, attempted, claims, wanted, old(world.scal), old(journal.scalars), applied);
          if !ok { return; }
          applied := applied[m.target.id := m.desired];
        } else {
          applied := applied[m.target.id := m.before];
        }
      }
      WritingNodesEnds(registry, claims, ps, wanted, old(world.scal), world.scal, old(journal.scalars), journal.scalars, applied);
    }

    /** The iteration of the write loop for a node that changes. */
    method WriteChangedNode(ps: seq<PreparedNode>, k: nat, attempted: seq<nat>, ghost claims: Claims, ghost wanted: Values,
                            ghost before: Nodes, ghost announced: Claims, ghost applied: Values) returns (ok: bool, attempts: seq<nat>)
      requires k < |ps| && ps[k].needsWrite && PreparedNodes(registry, claims, before, wanted, ps)
      requires NodesAnnounced(registry, claims, before, wanted, announced)
      requires WritingNodes(ps, k, wanted, before, world.scal, announced, journal.scalars, applied)
      requires MovedAreAttempted(ps, attempted, |attempted|, before, world.scal)
      modifies world`scal, world`dead, this`journal
      ensures attempts == attempted + [k] && journal == old(journal).(scalars := journal.scalars)
      ensures MovedAreAttempted(ps, attempts, |attempts|, before, world.scal)
      ensures if ok then WritingNodes(ps, k + 1, wanted, before, world.scal, announced, journal.scalars, applied[ps[k].target.id := ps[k].desired])
              else Midway(before, world.scal, wanted)
      ensures world.healthy && !old(world.dead) ==> ok && !world.dead
    {
      var m := ps[k];
      ghost var now := world.scal;
      WritingNodesNext(registry, claims, ps, k, wanted, before, now, announced, journal.scalars, applied);
      AttemptCovers(ps, attempted, k, before, now, Some(m.desired));
      attempts := attempted + [k];
      ok := WriteVerified(m.target, m.desired);
      if !ok {
        StoppedMidway(registry, claims, ps, k, wanted, before, now, announced, journal.scalars, applied);
        return;
      }
      var entry := journal.scalars[m.target.id].(applied := m.desired, desired := m.desired);
      journal := journal.(scalars := journal.scalars[m.target.id := entry]);
    }

    /** `rollback_scalars`: put every attempted node that holds the batch's value back, last first. */
    method RollBackNodes(ps: seq<PreparedNode>, attempted: seq<nat>, ghost claims: Claims, ghost before: Nodes, ghost wanted: Values)
      returns (ok: bool)
      requires PreparedNodes(registry, claims, before, wanted, ps) && Midway(before, world.scal, wanted)
      requires MovedAreAttempted(ps, attempted, |attempted|, before, world.scal)
      requires forall a :: 0 <= a < |attempted| ==> attempted[a] < |ps|
      modifies world`scal, world`dead
      ensures Midway(before, world.scal, wanted)
      ensures ok ==> world.scal == before
      ensures world.healthy && !old(world.dead) ==> ok && !world.dead
    {
      ok := true;
      var j := |attempted|;
      while j > 0
        invariant 0 <= j <= |attempted|
        invariant Midway(before, world.scal, wanted) && (world.healthy && !old(world.dead) ==> ok && !world.dead)
        invariant ok ==> MovedAreAttempted(ps, attempted, j, before, world.scal)
      {
        j := j - 1;
        var m := ps[attempted[j]];
        assert NodeFor(registry, claims, before, wanted, m) && NodeValues(m) by { assert UnfoldBatch(true) && InspectNode(attempted[j]); }
        ghost var now := world.scal;
        var current := world.ReadNode(m.target);
        if current.None? {
          ok := false;
        } else if current.value != m.before && current.value == m.desired {
          var done := WriteVerified(m.target, m.before);
          if !done { ok := false; }
        }
        if ok { AttemptUndone(ps, attempted, j, before, world.scal); }
      }
      if ok { NothingMoved(ps, attempted, before, world.scal); }
    }

    /** Roll back, put the old journal back, and persist that; any failure on the way degrades. */
    method UndoNodes(ps: seq<PreparedNode>, attempted: seq<nat>, before: Journal, ghost s0: Nodes, ghost d0: Option<Journal>,
                     ghost stored: Journal, ghost wanted: Values, ghost except: set<TargetId>)
      requires MachineFits(registry, bootId, fingerprint, world.freq, s0, d0) && Agreed(registry, bootId, fingerprint, world.freq, before, d0)
      requires PreparedNodes(registry, before.scalars, s0, wanted, ps) && Midway(s0, world.scal, wanted)
      requires MovedAreAttempted(ps, attempted, |attempted|, s0, world.scal) && forall a :: 0 <= a < |attempted| ==> attempted[a] < |ps|
      requires world.durable == Some(stored) && MachineFits(registry, bootId, fingerprint, world.freq, s0, Some(stored))
      requires RestoredFreq(Some(stored), world.freq) == RestoredFreq(d0, world.freq)
      requires KeptMidway(ClaimedNodes(d0), s0, stored.scalars, wanted, except)
      modifies this`degraded, this`journal, world`scal, world`durable, world`dead
      ensures Ours()
      ensures RestoredFreq(world.durable, world.freq) == RestoredFreq(d0, world.freq)
      ensures KeptExcept(RestoredScal(d0, s0), RestoredScal(world.durable, world.scal), except)
      ensures !degraded ==> && world.scal == s0 && journal == before && !old(degraded)
                            && Agreed(registry, bootId, fingerprint, world.freq, journal, world.durable)
      ensures Midway(s0, world.scal, wanted)
      ensures ClaimedNodes(world.durable) == stored.scalars || ClaimedNodes(world.durable) == before.scalars
    {
      var undone := RollBackNodes(ps, attempted, before.scalars, s0, wanted);
      NodesMoved(registry, bootId, fingerprint, world.freq, s0, world.scal, Some(stored));
      if !undone {
        degraded := true;
        return;
      }
      journal := before;
      var persisted := PersistOrRemove();
      if world.durable == Some(journal) || (world.durable == None && IsEmpty(journal)) {
        BatchRolledBack(registry, bootId, fingerprint, world.freq, s0, before, d0, world.durable);
      }
    }

    /** Announce the batch and persist the announcement. */
    method AnnounceNodes(ps: seq<PreparedNode>, ghost wanted: Values, ghost except: set<TargetId>) returns (ok: bool)
      requires Ours() && Mirrored(registry, bootId, fingerprint, journal, world.durable)
      requires PreparedNodes(registry, journal.scalars, world.scal, wanted, ps)
      requires ClaimedNodes(world.durable) == journal.scalars && NodesFrom(registry, journal.scalars)
      modifies this`journal, world`durable, world`dead
      ensures journal == old(journal).(generation := journal.generation, scalars := journal.scalars)
      ensures Ours() && RestoredFreq(world.durable, world.freq) == old(RestoredFreq(world.durable, world.freq))
      ensures Owns(registry, old(journal.scalars), world.scal, wanted) && NodesFrom(registry, journal.scalars)
      ensures NodesAnnounced(registry, old(journal.scalars), world.scal, wanted, journal.scalars)
      ensures KeptMidway(old(journal.scalars), world.scal, journal.scalars, wanted, except)
      ensures world.durable == old(world.durable) || world.durable == Some(journal)
      ensures ok ==> world.durable == Some(journal)
      ensures RestoredScal(world.durable, world.scal) == old(RestoredScal(world.durable, world.scal))
      ensures world.healthy && !old(world.dead) ==> ok && !world.dead
    {
      ghost var j0, s0, d0 := journal, world.scal, world.durable;
      journal := journal.(generation := SaturatingIncrement(journal.generation));
      RecordNodeIntents(ps, wanted);
      PreparedOwns(registry, j0.scalars, s0, wanted, ps);
      AnnouncedNodesAreOurs(registry, j0.scalars, s0, wanted, ps, journal.scalars);
      NodesStored(registry, bootId, fingerprint, world.freq, s0, d0, j0, journal, Some(journal));
      AnnouncedKept(registry, j0.scalars, s0, wanted, journal.scalars, except);
      AnnouncedKeepsOutcome(registry, j0.scalars, s0, wanted, journal.scalars, s0);
      ok := world.Store(journal);
    }

    /** The announce, write and commit phases of `apply_scalars`. */
    method CommitNodes(ps: seq<PreparedNode>, ghost wanted: Values, ghost except: set<TargetId>) returns (r: Result<Values>)
      requires Valid() && Ready() && PreparedNodes(registry, journal.scalars, world.scal, wanted, ps)
      requires !world.atomicStore ==> forall id :: AtRisk(journal.scalars, world.scal, wanted, id) ==> id in except
      modifies this`degraded, this`journal, world`scal, world`durable, world`dead
      ensures Valid() && Ours()
      ensures RestoredFreq(world.durable, world.freq) == old(RestoredFreq(world.durable, world.freq))
      ensures KeptExcept(old(RestoredScal(world.durable, world.scal)), RestoredScal(world.durable, world.scal), except)
      ensures r.Err? && !degraded ==> world.scal == old(world.scal) && journal == old(journal)
      ensures r.Ok? ==> && !degraded && r.value == wanted && world.scal == Over(old(world.scal), wanted)
                        && (forall id :: id in journal.scalars <==> id in old(journal.scalars) || NodeChanges(old(world.scal), wanted, id))
                        && world.durable == Some(journal)
      ensures Midway(old(world.scal), world.scal, wanted)
      ensures forall id :: id in ClaimedNodes(world.durable) ==> id in old(journal.scalars) || NodeChanges(old(world.scal), wanted, id)
      ensures world.healthy && !old(world.dead) ==> !world.dead && !degraded && r.Ok?
    {
      var before := journal;
      ghost var s0, d0 := world.scal, world.durable;
      assert Mirrored(registry, bootId, fingerprint, before, d0) && NodesFrom(registry, before.scalars) && ClaimedNodes(d0) == before.scalars
        by { assert Unfold(true); }
      var stored := AnnounceNodes(ps, wanted, except);
      ghost var announced := journal;
      if !stored {
        journal, degraded := before, true;
        return Err("cannot persist pre-mutation scalar journal");
      }
      var ok, applied, attempted := WriteNodes(ps, before.scalars, wanted);
      if !ok {
        UndoNodes(ps, attempted, before, s0, d0, announced, wanted, except);
        return Err("scalar transaction failed");
      }
      r := StoreCommittedNodes(ps, applied, attempted, before, s0, d0, announced, wanted, except);
    }

    /** Persist the committed scalar journal; if that fails the batch is rolled back and the actuator degrades. */
    method StoreCommittedNodes(ps: seq<PreparedNode>, applied: Values, attempted: seq<nat>, before: Journal, ghost s0: Nodes,
                               ghost d0: Option<Journal>, ghost announced: Journal, ghost wanted: Values, ghost except: set<TargetId>)
      returns (r: Result<Values>)
      requires MachineFits(registry, bootId, fingerprint, world.freq, s0, d0) && Agreed(registry, bootId, fingerprint, world.freq, before, d0) && !degraded
      requires PreparedNodes(registry, before.scalars, s0, wanted, ps) && world.scal == Over(s0, wanted) && Midway(s0, world.scal, wanted)
      requires Owns(registry, before.scalars, s0, wanted) && ClaimedNodes(d0) == before.scalars
      requires NodesAnnounced(registry, before.scalars, s0, wanted, announced.scalars) && NodesFrom(registry, announced.scalars)
      requires announced == before.(generation := announced.generation, scalars := announced.scalars)
      requires journal == announced.(scalars := journal.scalars) && NodesSettled(announced.scalars, s0, wanted, journal.scalars)
      requires MovedAreAttempted(ps, attempted, |attempted|, s0, world.scal) && forall a :: 0 <= a < |attempted| ==> attempted[a] < |ps|
      requires world.durable == Some(announced) && MachineFits(registry, bootId, fingerprint, world.freq, s0, Some(announced))
      requires RestoredFreq(Some(announced), world.freq) == RestoredFreq(d0, world.freq)
      requires !world.atomicStore ==> forall id :: AtRisk(before.scalars, s0, wanted, id) ==> id in except
      modifies this`degraded, this`journal, world`scal, world`durable, world`dead
      ensures Ours()
      ensures RestoredFreq(world.durable, world.freq) == RestoredFreq(d0, world.freq)
      ensures KeptExcept(RestoredScal(d0, s0), RestoredScal(world.durable, world.scal), except)
      ensures r.Err? ==> degraded
      ensures r.Ok? ==> && !degraded && r.value == applied && world.scal == old(world.scal) && journal == old(journal) && world.durable == Some(journal)
                        && Agreed(registry, bootId, fingerprint, world.freq, journal, world.durable)
      ensures world.healthy && !old(world.dead) ==> !world.dead && r.Ok?
      ensures Midway(s0, world.scal, wanted) && ClaimedNodes(world.durable).Keys <= announced.scalars.Keys
    {
      var now := journal;
      NodesCommitted(registry, bootId, fingerprint, world.freq, s0, before, d0, announced, wanted, now);
      var stored := world.Store(journal);
      if stored { return Ok(applied); }
      KeptOnDisk(registry, before.scalars, s0, wanted, announced.scalars, now.scalars, except, world.durable == Some(announced));
      UndoNodes(ps, attempted, before, s0, d0, if world.durable == Some(announced) then announced else now, wanted, except);
      degraded := true;
      r := Err("post-mutation scalar journal failed");
    }

    /**
     `apply_scalars`. Wherever it fails or the daemon is killed, the value recovery would leave in every node is
     conserved; with a store whose failed writes may take effect, in every node but those this batch moves while
     they are journaled away from their original.
     */
    method ApplyScalars(requests: seq<ScalarRequest>) returns (r: Result<Values>)
      requires Valid()
      modifies this`degraded, this`journal, world`scal, world`durable, world`dead
      ensures Valid() && (old(Ours()) ==> Ours())
      ensures RestoredFreq(world.durable, world.freq) == old(RestoredFreq(world.durable, world.freq))
      ensures KeptExcept(old(RestoredScal(world.durable, world.scal)), RestoredScal(world.durable, world.scal),
                         if world.atomicStore then {} else old(RiskSet(ClaimedNodes(world.durable), world.scal, requests)))
      ensures NodesSane(registry, requests, old(ClaimedNodes(world.durable).Keys), old(world.scal), ClaimedNodes(world.durable).Keys, world.scal)
      ensures old(degraded || recoveryRequired) ==>
                r.Err? && world.scal == old(world.scal) && world.durable == old(world.durable) && journal == old(journal) && degraded == old(degraded)
      ensures r.Err? && !degraded ==> world.scal == old(world.scal) && journal == old(journal)
      ensures r.Ok? ==> && !degraded && NodesAcceptable(registry, old(journal.scalars), old(world.scal), requests) && AskedFor(requests, r.value)
                        && world.scal == Over(old(world.scal), r.value)
                        && (forall id :: id in journal.scalars <==> id in old(journal.scalars) || NodeChanges(old(world.scal), r.value, id))
                        && (world.scal != old(world.scal) ==> world.durable == Some(journal))
      ensures world.healthy && !old(world.dead) && old(Ready()) ==>
                !world.dead && !degraded && (r.Ok? <==> NodesAcceptable(registry, old(journal.scalars), old(world.scal), requests))
    {
      if degraded { return Err("degraded"); }
      if recoveryRequired { return Err("recovery required"); }
      if requests == [] { return Ok(map[]); }
      var preparation, wanted := PrepareNodes(requests);
      if preparation.Err? { return Err(preparation.reason); }
      var ps := preparation.value;
      if forall i :: 0 <= i < |ps| ==> !ps[i].needsWrite && !ps[i].needsJournal {
        var same := ReportUnchangedNodes(ps, wanted);
        return Ok(same);
      }
      ghost var claims, s0 := journal.scalars, world.scal;
      assert ClaimedNodes(world.durable) == claims by { assert Unfold(true); }
      RiskSetCovers(claims, s0, requests, wanted);
      r := CommitNodes(ps, wanted, if world.atomicStore then {} else RiskSet(claims, s0, requests));
      MidwayIsSane(registry, requests, claims, s0, wanted, ps, ClaimedNodes(world.durable).Keys, world.scal);
    }

    /** The outcome of a batch none of whose nodes needs a write. */
    method ReportUnchangedNodes(ps: seq<PreparedNode>, ghost wanted: Values) returns (applied: Values)
      requires PreparedNodes(registry, journal.scalars, world.scal, wanted, ps) && forall i :: 0 <= i < |ps| ==> !ps[i].needsWrite
      ensures applied == wanted && Over(world.scal, wanted) == world.scal && forall id :: !NodeChanges(world.scal, wanted, id)
    {
      assert UnfoldBatch(true);
      applied := map i | 0 <= i < |ps| :: ps[i].target.id := ps[i].before;
      NothingToWriteNodes(registry, journal.scalars, world.scal, wanted, ps, applied);
    }

    // ---------------------------------------------------- restoring scalars, recovery

    /** One iteration of the planning loop; the identity checks never fail on a journal of ours. */
    method PlanNodeRestore(entry: ScalarEntry) returns (ok: bool, needsWrite: bool)
      requires entry.target in registry.scalars && registry.scalars[entry.target].id == entry.target && entry.target in world.scal
      requires ScalarEntryFor(registry.scalars[entry.target], entry) && entry.target in journal.scalars
      modifies this`journal
      ensures ok ==> && Readable(registry, world.scal, entry.target) && needsWrite == NeedsRestore(entry, world.scal[entry.target])
                     && journal == if needsWrite then old(journal).(scalars := old(journal.scalars)[entry.target :=
                                       old(journal.scalars)[entry.target].(applied := world.scal[entry.target].value, desired := entry.original)])
                                   else old(journal)
      ensures !ok ==> journal == old(journal)
      ensures world.healthy && !world.dead ==> (ok <==> Readable(registry, world.scal, entry.target))
    {
      needsWrite := false;
      var t := registry.scalars[entry.target];
      if entry.path != t.path || entry.manifest != ScalarNode(t) { return false, needsWrite; }
      var current := world.ReadNode(t);
      if current.None? { return false, needsWrite; }
      var owned := current.value == entry.applied || current.value == entry.desired;
      ok, needsWrite := true, owned && current.value != entry.original;
      if needsWrite {
        var intent := journal.scalars[entry.target].(applied := current.value, desired := entry.original);
        journal := journal.(scalars := journal.scalars[entry.target := intent]);
      }
    }

    /** The planning loop of `restore_scalars` and `recover_scalars_locked`: read each node, announce what must be written. */
    method PlanNodeRestores(list: seq<ScalarEntry>, ghost claims: Claims, ghost listed: set<TargetId>)
      returns (ok: bool, needsWrite: seq<bool>)
      requires UsableRegistry(registry) && TakenNodes(registry, claims, list) && journal.scalars == claims && registry.scalars.Keys <= world.scal.Keys
      requires forall id :: id in listed <==> InNodes(list, id)
      modifies this`journal
      ensures journal == old(journal).(scalars := journal.scalars)
      ensures ok ==> && RestoresPlanned(claims, world.scal, listed, journal.scalars) && |needsWrite| == |list|
                     && (forall i :: 0 <= i < |list| ==> needsWrite[i] == NeedsRestore(list[i], world.scal[list[i].target]))
                     && (forall i :: 0 <= i < |list| ==> Readable(registry, world.scal, list[i].target))
      ensures world.healthy && !world.dead ==> (ok <==> forall i :: 0 <= i < |list| ==> Readable(registry, world.scal, list[i].target))
    {
      needsWrite := [];
      ghost var done: set<TargetId> := {};
      for k := 0 to |list|
        invariant journal == old(journal).(scalars := journal.scalars) && |needsWrite| == k
        invariant RestoresPlanned(claims, world.scal, done, journal.scalars)
        invariant forall i :: 0 <= i < k ==> needsWrite[i] == NeedsRestore(list[i], world.scal[list[i].target])
        invariant forall i :: 0 <= i < k ==> Readable(registry, world.scal, list[i].target) && list[i].target in done
        invariant forall id :: id in done ==> id in listed
      {
        var entry := list[k];
        assert InNodes(list, entry.target);
        PlanOne(claims, world.scal, done, journal.scalars, entry.target);
        var write;
        ok, write := PlanNodeRestore(entry);
        if !ok { return; }
        needsWrite, done := needsWrite + [write], done + {entry.target};
      }
      assert done == listed;
      ok := true;
    }

    /** The write loop of `restore_scalars` and `recover_scalars_locked`. */
    method WriteNodeRestores(list: seq<ScalarEntry>, needsWrite: seq<bool>, ghost claims: Claims, ghost listed: set<TargetId>)
      returns (ok: bool)
      requires UsableRegistry(registry) && TakenNodes(registry, claims, list) && NodesFrom(registry, claims) && registry.scalars.Keys <= world.scal.Keys
      requires forall id :: id in listed <==> InNodes(list, id)
      requires |needsWrite| == |list| && forall i :: 0 <= i < |list| ==> needsWrite[i] == NeedsRestore(list[i], world.scal[list[i].target])
      modifies world`scal, world`dead
      ensures Restoring(claims, old(world.scal), listed, world.scal)
      ensures ok ==> world.scal == RestoredSome(claims, old(world.scal), listed)
      ensures world.healthy && !old(world.dead) ==> ok && !world.dead
    {
      ok := true;
      for k := 0 to |list|
        invariant ok && (world.healthy && !old(world.dead) ==> !world.dead)
        invariant Restoring(claims, old(world.scal), listed, world.scal)
        invariant forall i :: 0 <= i < k ==> world.scal[list[i].target] == NodeOutcome(list[i], old(world.scal)[list[i].target])
      {
        var entry := list[k];
        assert InNodes(list, entry.target);
        if needsWrite[k] {
          assert ScalarEntryFor(registry.scalars[entry.target], entry) && Inspect(entry.target);
          ok := WriteVerified(registry.scalars[entry.target], entry.original);
          if !ok { return; }
        }
      }
    }

    /** Plan, announce and write the restore of the listed scalar entries. */
    method RestoreNodes(list: seq<ScalarEntry>, ghost listed: set<TargetId>) returns (ok: bool)
      requires Ours() && Mirrored(registry, bootId, fingerprint, journal, world.durable)
      requires TakenNodes(registry, journal.scalars, list) && forall id :: id in listed <==> InNodes(list, id)
      modifies this`degraded, this`journal, world`scal, world`durable, world`dead
      ensures Ours() && journal == old(journal).(scalars := journal.scalars)
      ensures RestoredFreq(world.durable, world.freq) == old(RestoredFreq(world.durable, world.freq))
      ensures RestoredScal(world.durable, world.scal) == old(RestoredScal(world.durable, world.scal))
      ensures if ok then degraded == old(degraded) else degraded
      ensures ok ==> && world.scal == RestoredSome(old(journal.scalars), old(world.scal), listed)
                     && RestoresPlanned(old(journal.scalars), old(world.scal), listed, journal.scalars)
                     && Mirrored(registry, bootId, fingerprint, journal, world.durable)
      ensures world.healthy && !old(world.dead) ==>
                !world.dead && (ok <==> AllReadable(registry, old(world.scal), listed))
      ensures ClaimedNodes(world.durable).Keys == old(ClaimedNodes(world.durable).Keys)
    {
      ghost var claims, s0 := journal.scalars, world.scal;
      ListReadable(registry, s0, list, listed);
      assert UsableRegistry(registry) && NodesFrom(registry, claims) && ClaimedNodes(world.durable) == claims
             && registry.scalars.Keys <= s0.Keys by { assert Unfold(true); }
      var needsWrite;
      ok, needsWrite := PlanNodeRestores(list, claims, listed);
      if !ok { degraded := true; return; }
      ok := AnnounceNodeRestores(list, needsWrite, old(journal), listed);
      if !ok { degraded := true; return; }
      ok := WriteNodeRestores(list, needsWrite, claims, listed);
      NodesMoved(registry, bootId, fingerprint, world.freq, s0, world.scal, world.durable);
      PlannedRestoresKeepOutcome(claims, s0, listed, journal.scalars, world.scal);
      if !ok { degraded := true; }
    }

    /** Persist the restore intents if some node must be written. */
    method AnnounceNodeRestores(list: seq<ScalarEntry>, needsWrite: seq<bool>, ghost j0: Journal, ghost listed: set<TargetId>) returns (ok: bool)
      requires Ours() && Mirrored(registry, bootId, fingerprint, j0, world.durable)
      requires NodesFrom(registry, j0.scalars) && ClaimedNodes(world.durable) == j0.scalars && registry.scalars.Keys <= world.scal.Keys
      requires TakenNodes(registry, j0.scalars, list) && forall id :: id in listed <==> InNodes(list, id)
      requires journal == j0.(scalars := journal.scalars) && RestoresPlanned(j0.scalars, world.scal, listed, journal.scalars)
      requires |needsWrite| == |list| && forall i :: 0 <= i < |list| ==> needsWrite[i] == NeedsRestore(list[i], world.scal[list[i].target])
      modifies world`durable, world`dead
      ensures Ours()
      ensures RestoredFreq(world.durable, world.freq) == old(RestoredFreq(world.durable, world.freq))
      ensures RestoredScal(world.durable, world.scal) == old(RestoredScal(world.durable, world.scal))
      ensures ok ==> Mirrored(registry, bootId, fingerprint, journal, world.durable) && ClaimedNodes(world.durable) == journal.scalars
      ensures world.healthy && !old(world.dead) ==> ok && !world.dead
      ensures old(world.dead) ==> world.dead
      ensures ClaimedNodes(world.durable).Keys == old(ClaimedNodes(world.durable).Keys)
    {
      PlannedNodesAreOurs(registry, j0.scalars, world.scal, listed, journal.scalars);
      NodesStored(registry, bootId, fingerprint, world.freq, world.scal, world.durable, j0, journal, Some(journal));
      PlannedRestoresKeepOutcome(j0.scalars, world.scal, listed, journal.scalars, world.scal);
      if exists i :: 0 <= i < |needsWrite| && needsWrite[i] {
        ok := world.Store(journal);
      } else {
        ok := true;
        NothingPlanned(j0.scalars, world.scal, list, listed, journal.scalars);
      }
    }

    /**
     `restore_scalars`: give the selected nodes that still hold our value their original back, leave foreign
     values alone, and release them all.
     */
    method RestoreScalars(ids: seq<TargetId>) returns (ok: bool)
      requires Valid()
      modifies this`degraded, this`journal, world`scal, world`durable, world`dead
      ensures Valid() && (old(Ours()) ==> Ours())
      ensures RestoredFreq(world.durable, world.freq) == old(RestoredFreq(world.durable, world.freq))
      ensures RestoredScal(world.durable, world.scal) == old(RestoredScal(world.durable, world.scal))
      ensures old(degraded || recoveryRequired) ==>
                !ok && world.scal == old(world.scal) && world.durable == old(world.durable) && journal == old(journal) && degraded == old(degraded)
      ensures !ok ==> degraded || old(recoveryRequired)
      ensures ok ==> && !degraded && journal.scalars == old(journal.scalars) - OwnedIds(old(journal.scalars), ids)
                     && world.scal == RestoredSome(old(journal.scalars), old(world.scal), OwnedIds(old(journal.scalars), ids))
      ensures world.healthy && !old(world.dead) && old(Ready()) ==>
                !world.dead && (ok <==> AllReadable(registry, old(world.scal), OwnedIds(old(journal.scalars), ids)))
      ensures ClaimedNodes(world.durable).Keys <= old(ClaimedNodes(world.durable).Keys)
    {
      if degraded || recoveryRequired { return false; }
      var list := Pick(journal.scalars, ids);
      ghost var j0, s0 := journal, world.scal;
      ghost var listed := OwnedIds(j0.scalars, ids);
      JournaledNodesCorrect(registry, journal.scalars, ids) by { assert Unfold(true); }
      assert Mirrored(registry, bootId, fingerprint, journal, world.durable) && AllSettled(registry, world.freq, j0.entries)
             && NoTransition(j0.scalars) && ClaimedNodes(world.durable) == j0.scalars by { assert Unfold(true); }
      ok := RestoreNodes(list, listed);
      if !ok { return; }
      ok := ReleaseNodes(ids, listed, j0, s0);
    }

    /** Drop the restored nodes and persist what is left. */
    method ReleaseNodes(ids: seq<TargetId>, ghost listed: set<TargetId>, ghost j0: Journal, ghost s0: Nodes) returns (ok: bool)
      requires Ours() && Mirrored(registry, bootId, fingerprint, journal, world.durable) && !degraded
      requires AllSettled(registry, world.freq, j0.entries) && NoTransition(j0.scalars) && journal == j0.(scalars := journal.scalars)
      requires listed == OwnedIds(j0.scalars, ids)
      requires world.scal == RestoredSome(j0.scalars, s0, listed) && RestoresPlanned(j0.scalars, s0, listed, journal.scalars)
      requires RestoredScal(world.durable, world.scal) == RestoredNodes(j0.scalars, s0)
      modifies this`degraded, this`journal, world`durable, world`dead
      ensures Ours()
      ensures RestoredFreq(world.durable, world.freq) == old(RestoredFreq(world.durable, world.freq))
      ensures RestoredScal(world.durable, world.scal) == old(RestoredScal(world.durable, world.scal))
      ensures if ok then !degraded && Agreed(registry, bootId, fingerprint, world.freq, journal, world.durable) else degraded
      ensures ok ==> journal.scalars == j0.scalars - listed
      ensures world.healthy && !old(world.dead) ==> ok && !world.dead
      ensures ClaimedNodes(world.durable).Keys <= old(ClaimedNodes(world.durable).Keys)
    {
      ghost var planned, d := journal, world.durable;
      var dropped := set id | id in ids;
      journal := journal.(scalars := journal.scalars - dropped, generation := SaturatingIncrement(journal.generation));
      assert journal.scalars == planned.scalars - listed;
      NodesReleased(registry, bootId, fingerprint, world.freq, world.scal, d, j0, s0, listed, planned, journal);
      ok := PersistOrRemove();
    }

    /**
     `recover_pending`: what recovery would leave is what it leaves. A journal of another boot is discarded
     without touching the machine; one of another device degrades.
     */
    method RecoverPending() returns (ok: bool)
      requires Valid() && bootId != "" && fingerprint != ""
      modifies this`degraded, this`journal, this`recoveryRequired, world`freq, world`scal, world`durable, world`dead
      ensures Valid() && (old(Ours()) ==> Ours()) && (if ok then !degraded && !recoveryRequired else degraded)
      ensures old(degraded || !recoveryRequired) ==>
                ok == !degraded && world.freq == old(world.freq) && world.scal == old(world.scal) && world.durable == old(world.durable)
                && journal == old(journal) && degraded == old(degraded) && recoveryRequired == old(recoveryRequired)
      ensures old(!degraded && recoveryRequired && journal.bootId != bootId) ==>
                && world.freq == old(world.freq) && world.scal == old(world.scal)
                && (world.durable == None || (!ok && world.durable == old(world.durable)))
      ensures old(degraded || !recoveryRequired || journal.bootId == bootId) ==>
                && RestoredFreq(world.durable, world.freq) == old(RestoredFreq(world.durable, world.freq))
                && RestoredScal(world.durable, world.scal) == old(RestoredScal(world.durable, world.scal))
      ensures ok && old(recoveryRequired) && old(journal.bootId) == bootId ==>
                && world.freq == old(RestoredFreq(world.durable, world.freq)) && world.scal == old(RestoredScal(world.durable, world.scal))
                && ClaimedPairs(world.durable) == map[] && ClaimedNodes(world.durable) == map[] && IsEmpty(journal)
      ensures world.healthy && !old(world.dead) && old(!degraded && recoveryRequired && journal.bootId == bootId) ==>
                !world.dead && (ok <==> old(journal.fingerprint) == fingerprint
                                        && AllReadable(registry, old(world.scal), old(journal.scalars.Keys)))
                && (old(journal.fingerprint) == fingerprint ==> world.freq == old(RestoredFreq(world.durable, world.freq)))
      ensures ClaimedNodes(world.durable).Keys <= old(ClaimedNodes(world.durable).Keys)
    {
      if degraded { return false; }
      if !recoveryRequired { return true; }
      NothingClaimed(registry, journal.bootId, journal.fingerprint, world.freq, world.scal, world.durable) by { assert Unfold(true); }
      if journal.bootId != bootId {
        ok := world.Remove();
        if !ok { degraded := true; return; }
        journal := Journal(JOURNAL_SCHEMA_VERSION, bootId, fingerprint, SaturatingIncrement(journal.generation), map[], map[]);
        recoveryRequired := false;
        EmptyAgrees(registry, bootId, fingerprint, world.freq, journal, None);
        return;
      }
      if journal.fingerprint != fingerprint {
        degraded := true;
        return false;
      }
      PendingMirrored(registry, bootId, fingerprint, world.freq, world.scal, journal);
      if IsEmpty(journal) {
        recoveryRequired := false;
        return true;
      }
      ok := RecoverResources();
    }

    /** Restore every journaled pair and node of this boot, then remove the journal. */
    method RecoverResources() returns (ok: bool)
      requires !degraded && recoveryRequired && Ours()
      requires Mirrored(registry, bootId, fingerprint, journal, world.durable) && bootId != "" && fingerprint != ""
      requires UsableRegistry(registry) && EntriesFrom(registry, journal.entries)
      requires journal.schemaVersion == JOURNAL_SCHEMA_VERSION && journal.bootId == bootId && journal.fingerprint == fingerprint
      modifies this`degraded, this`journal, this`recoveryRequired, world`freq, world`scal, world`durable, world`dead
      ensures Ours()
      ensures RestoredFreq(world.durable, world.freq) == old(RestoredFreq(world.durable, world.freq))
      ensures RestoredScal(world.durable, world.scal) == old(RestoredScal(world.durable, world.scal))
      ensures if ok then !degraded && !recoveryRequired && Agreed(registry, bootId, fingerprint, world.freq, journal, world.durable) else degraded
      ensures ok ==> && world.freq == old(RestoredFreq(world.durable, world.freq)) && world.scal == old(RestoredScal(world.durable, world.scal))
                     && world.durable == None && IsEmpty(journal)
      ensures world.healthy && !old(world.dead) ==>
                && !world.dead && (ok <==> AllReadable(registry, old(world.scal), old(journal.scalars.Keys)))
                && world.freq == old(RestoredFreq(world.durable, world.freq))
      ensures ClaimedNodes(world.durable).Keys <= old(ClaimedNodes(world.durable).Keys)
    {
      var fids := Listing(journal.entries.Keys);
      var pairs := Pick(journal.entries, fids);
      JournaledCorrect(registry, journal.entries, fids);
      ok := RestoreListed(pairs);
      if !ok { return; }
      assert ClaimedPairs(world.durable).Keys == journal.entries.Keys by { assert Unfold(true); }
      AllReset(registry, bootId, fingerprint, world.freq, world.scal, world.durable, journal, pairs);
      ok := RecoverNodes();
    }

    /** `recover_scalars_locked` and the completion of `recover_pending`, once the registers are back. */
    method RecoverNodes() returns (ok: bool)
      requires !degraded && recoveryRequired && Ours()
      requires Mirrored(registry, bootId, fingerprint, journal, world.durable) && bootId != "" && fingerprint != ""
      requires journal.schemaVersion == JOURNAL_SCHEMA_VERSION && journal.bootId == bootId && journal.fingerprint == fingerprint
      requires RestoredFreq(world.durable, world.freq) == world.freq
      modifies this`degraded, this`journal, this`recoveryRequired, world`scal, world`durable, world`dead
      ensures Ours() && RestoredFreq(world.durable, world.freq) == world.freq
      ensures RestoredScal(world.durable, world.scal) == old(RestoredScal(world.durable, world.scal))
      ensures if ok then !degraded && !recoveryRequired && Agreed(registry, bootId, fingerprint, world.freq, journal, world.durable) else degraded
      ensures ok ==> world.scal == old(RestoredScal(world.durable, world.scal)) && world.durable == None && IsEmpty(journal)
      ensures world.healthy && !old(world.dead) ==> !world.dead && (ok <==> AllReadable(registry, old(world.scal), old(journal.scalars.Keys)))
      ensures ClaimedNodes(world.durable).Keys <= old(ClaimedNodes(world.durable).Keys)
    {
      ghost var claims, s0, d0 := journal.scalars, world.scal, world.durable;
      var sids := Listing(journal.scalars.Keys);
      var nodes := Pick(journal.scalars, sids);
      JournaledNodesCorrect(registry, journal.scalars, sids) by { assert Unfold(true); }
      assert RestoredScal(d0, s0) == RestoredSome(claims, s0, claims.Keys) by { assert Unfold(true); }
      ok := RestoreNodes(nodes, claims.Keys);
      if !ok { return; }
      NothingClaimed(registry, bootId, fingerprint, world.freq, world.scal, world.durable);
      ok := world.Remove();
      if !ok { degraded := true; return; }
      journal := journal.(entries := map[], scalars := map[], generation := SaturatingIncrement(journal.generation));
      recoveryRequired := false;
      EmptyAgrees(registry, bootId, fingerprint, world.freq, journal, None);
    }
  }
}
