/**
 The machine the actuator drives: request registers, typed scalar nodes and the durable journal cell.
 Every operation may fail, and the daemon may be killed at any of them. A killed daemon is modelled by
 `dead`: no later operation has any effect or succeeds until the next start, so the machine state a call
 leaves behind ranges over the state at every possible kill point inside that call.
 */
module Hardware {
  import opened Common
  import opened Frequency
  import opened Scalar
  import opened Journal

  /** What reading a register pair yields: the pair, a torn or malformed readback, or an I/O error. */
  datatype Reading = Pair(limits: Limits) | Malformed | Failed

  class World {
    /** The user-facing min/max request registers of each frequency target. */
    var freq: map<TargetId, Limits>
    /** The typed value each scalar node reads as; `None` when its text does not parse. */
    var scal: map<TargetId, Option<ScalarValue>>
    var durable: Option<Journal>
    var dead: bool
    /** While set, no operation fails. */
    var healthy: bool
    /** Whether a failed `store_durable` is known to leave the previous bytes in place. */
    const atomicStore: bool

    constructor (freq: map<TargetId, Limits>, scal: map<TargetId, Option<ScalarValue>>, atomicStore: bool)
      ensures this.freq == freq && this.scal == scal && this.durable == None && !dead && !healthy
      ensures this.atomicStore == atomicStore
    {
      this.freq, this.scal, this.durable := freq, scal, None;
      this.dead, this.healthy, this.atomicStore := false, false, atomicStore;
    }

    /** Chooses how one operation goes: whether it takes effect and whether it reports success. */
    method Fate() returns (effect: bool, ok: bool)
      modifies this`dead
      ensures ok ==> effect
      ensures old(dead) ==> dead && !effect
      ensures dead ==> !ok
      ensures healthy && !old(dead) ==> ok && !dead
    {
      effect, ok := *, *;
      var killed: bool := *;
      if dead {
        effect, ok := false, false;
      } else if healthy {
        effect, ok := true, true;
      } else if killed {
        dead, ok := true, false;
      } else if ok {
        effect := true;
      }
    }

    method ReadPair(id: TargetId) returns (r: Reading)
      requires id in freq
      ensures r.Pair? ==> r.limits == freq[id]
      ensures dead ==> !r.Pair?
      ensures healthy && !dead ==> r.Pair?
    {
      var torn: bool, lost: bool := *, *;
      if dead || (lost && !healthy) {
        r := Failed;
      } else if torn && !healthy {
        r := Malformed;
      } else {
        r := Pair(freq[id]);
      }
    }

    /** Writing a minimum above the current maximum is never allowed to be attempted. */
    method WriteMinimum(id: TargetId, v: nat) returns (ok: bool)
      requires id in freq && v <= freq[id].max
      modifies this`freq, this`dead
      ensures ok ==> freq == old(freq)[id := old(freq)[id].(min := v)]
      ensures !ok ==> freq == old(freq) || freq == old(freq)[id := old(freq)[id].(min := v)]
      ensures old(dead) ==> dead && freq == old(freq)
      ensures dead ==> !ok
      ensures healthy && !old(dead) ==> ok && !dead
    {
      var effect;
      effect, ok := Fate();
      if effect { freq := freq[id := freq[id].(min := v)]; }
    }

    method WriteMaximum(id: TargetId, v: nat) returns (ok: bool)
      requires id in freq && freq[id].min <= v
      modifies this`freq, this`dead
      ensures ok ==> freq == old(freq)[id := old(freq)[id].(max := v)]
      ensures !ok ==> freq == old(freq) || freq == old(freq)[id := old(freq)[id].(max := v)]
      ensures old(dead) ==> dead && freq == old(freq)
      ensures dead ==> !ok
      ensures healthy && !old(dead) ==> ok && !dead
    {
      var effect;
      effect, ok := Fate();
      if effect { freq := freq[id := freq[id].(max := v)]; }
    }

    /** `read_scalar`: the node's value when it can be read, parses and lies in the domain. */
    method ReadNode(t: ScalarTarget) returns (r: Option<ScalarValue>)
      requires t.id in scal
      ensures r.Some? ==> r == scal[t.id] && ValidValue(t.domain, r.value)
      ensures dead ==> r.None?
      ensures healthy && !dead && scal[t.id].Some? && ValidValue(t.domain, scal[t.id].value) ==> r.Some?
    {
      var lost: bool := *;
      if dead || (lost && !healthy) || scal[t.id].None? || !ValidValue(t.domain, scal[t.id].value) {
        r := None;
      } else {
        r := scal[t.id];
      }
    }

    method WriteNode(id: TargetId, v: ScalarValue) returns (ok: bool)
      requires id in scal
      modifies this`scal, this`dead
      ensures ok ==> scal == old(scal)[id := Some(v)]
      ensures !ok ==> scal == old(scal) || scal == old(scal)[id := Some(v)]
      ensures old(dead) ==> dead && scal == old(scal)
      ensures dead ==> !ok
      ensures healthy && !old(dead) ==> ok && !dead
    {
      var effect;
      effect, ok := Fate();
      if effect { scal := scal[id := Some(v)]; }
    }

    method Store(j: Journal) returns (ok: bool)
      modifies this`durable, this`dead
      ensures ok ==> durable == Some(j)
      ensures !ok ==> durable == old(durable) || (!atomicStore && durable == Some(j))
      ensures old(dead) ==> dead && durable == old(durable)
      ensures dead ==> !ok
      ensures healthy && !old(dead) ==> ok && !dead
    {
      var effect;
      effect, ok := Fate();
      if effect && (ok || !atomicStore) { durable := Some(j); }
    }

    /** `StateStore::load`. */
    method Load() returns (r: Result<Option<Journal>>)
      ensures r.Ok? ==> r.value == durable
      ensures healthy && !dead ==> r.Ok?
    {
      var lost: bool := *;
      if dead || (lost && !healthy) {
        r := Err("cannot read journal");
      } else {
        r := Ok(durable);
      }
    }

    /** A failed removal may still have unlinked the journal. */
    method Remove() returns (ok: bool)
      modifies this`durable, this`dead
      ensures ok ==> durable == None
      ensures !ok ==> durable == old(durable) || durable == None
      ensures old(dead) ==> dead && durable == old(durable)
      ensures dead ==> !ok
      ensures healthy && !old(dead) ==> ok && !dead
    {
      var effect;
      effect, ok := Fate();
      if effect { durable := None; }
    }
  }

  // ------------------------------------------------- what recovery would produce

  function ClaimedPairs(d: Option<Journal>): map<TargetId, FrequencyEntry> {
    if d.Some? then d.value.entries else map[]
  }

  function ClaimedNodes(d: Option<Journal>): map<TargetId, ScalarEntry> {
    if d.Some? then d.value.scalars else map[]
  }

  /** A claimed pair is reset to its original; an unclaimed one is left alone. */
  ghost function RestoredFreq(d: Option<Journal>, freq: map<TargetId, Limits>): map<TargetId, Limits> {
    map id | id in freq :: if id in ClaimedPairs(d) then ClaimedPairs(d)[id].original else freq[id]
  }

  /**
   Two journals of one registry lead recovery to the same registers, unless they disagree about a pair that
   is away from its hardware range.
   */
  lemma ClaimsExchange(r: Registry, d1: Option<Journal>, d2: Option<Journal>, freq: map<TargetId, Limits>)
    requires EntriesFrom(r, ClaimedPairs(d1)) && EntriesFrom(r, ClaimedPairs(d2))
    requires forall id :: id in freq && ((id in ClaimedPairs(d1)) != (id in ClaimedPairs(d2))) ==>
               id in r.targets && freq[id] == HardwareLimits(r.targets[id])
    ensures RestoredFreq(d1, freq) == RestoredFreq(d2, freq)
  {
    forall id | id in freq ensures RestoredFreq(d1, freq)[id] == RestoredFreq(d2, freq)[id] {
      assert id in ClaimedPairs(d1) ==> EntryFor(r.targets[id], ClaimedPairs(d1)[id]);
      assert id in ClaimedPairs(d2) ==> EntryFor(r.targets[id], ClaimedPairs(d2)[id]);
    }
  }

  /** Writing claimed registers does not change what recovery leads to. */
  lemma ClaimedWritesKeepOutcome(d: Option<Journal>, before: map<TargetId, Limits>, now: map<TargetId, Limits>)
    requires now.Keys == before.Keys
    requires forall id :: id in now && id !in ClaimedPairs(d) ==> now[id] == before[id]
    ensures RestoredFreq(d, now) == RestoredFreq(d, before)
  {
  }

  /** A claimed node still holding a journaled value gets its original back; a third value is foreign. */
  function NodeOutcome(e: ScalarEntry, current: Option<ScalarValue>): Option<ScalarValue> {
    if current == Some(e.applied) || current == Some(e.desired) then Some(e.original) else current
  }

  ghost function RestoredNodes(claims: map<TargetId, ScalarEntry>, scal: map<TargetId, Option<ScalarValue>>): map<TargetId, Option<ScalarValue>> {
    map id | id in scal :: if id in claims then NodeOutcome(claims[id], scal[id]) else scal[id]
  }

  ghost function RestoredScal(d: Option<Journal>, scal: map<TargetId, Option<ScalarValue>>): map<TargetId, Option<ScalarValue>> {
    RestoredNodes(ClaimedNodes(d), scal)
  }
}
