/**
 The recovery journal: target registry, self-describing manifests, the fail-closed validator that
 every journal must pass before it is trusted, and the shape of the journals the actuator writes.
 */
module Journal {
  import opened Common
  import opened Frequency
  import opened Scalar

  const JOURNAL_SCHEMA_VERSION: nat := 6

  datatype ScalarTarget = ScalarTarget(id: TargetId, path: string, domain: ScalarDomain)

  datatype Registry = Registry(targets: map<TargetId, FrequencyTarget>, scalars: map<TargetId, ScalarTarget>)

  /** A recovery manifest repeats every field of the target it identifies. */
  datatype ResourceManifest = FrequencyPair(frequency: FrequencyTarget) | ScalarNode(scalar: ScalarTarget)

  datatype FrequencyEntry = FrequencyEntry(
    target: TargetId, minPath: string, maxPath: string, manifest: ResourceManifest,
    original: Limits, desired: Limits, applied: Limits, legalPairs: seq<Limits>)

  datatype ScalarEntry = ScalarEntry(
    target: TargetId, path: string, manifest: ResourceManifest,
    original: ScalarValue, desired: ScalarValue, applied: ScalarValue)

  datatype Journal = Journal(
    schemaVersion: nat, bootId: string, fingerprint: string, generation: nat,
    entries: map<TargetId, FrequencyEntry>, scalars: map<TargetId, ScalarEntry>)

  predicate IsEmpty(j: Journal) { j.entries == map[] && j.scalars == map[] }

  // ---------------------------------------------------------------- construction

  /** `validate_sysfs_path`: an absolute path under `/sys` without parent components. */
  predicate SysfsPath(p: string) {
    var parts := Split(p, '/');
    |parts| >= 2 && parts[0] == "" && parts[1] == "sys" && ".." !in parts
  }

  /** `FrequencyTarget::new` followed by `with_hertz_per_unit`. */
  function NewFrequencyTarget(m: FrequencyTarget): Result<FrequencyTarget> {
    if !SysfsPath(m.minPath) || !SysfsPath(m.maxPath) then Err("unsafe path")
    else if m.minPath == m.maxPath then Err("attributes must be distinct")
    else if m.hardwareMin > m.hardwareMax then Err("reversed hardware bounds")
    else
      var opps := SortDedup(m.opps);
      if exists i :: 0 <= i < |opps| && (opps[i] < m.hardwareMin || opps[i] > m.hardwareMax) then Err("OPP out of range")
      else if m.hertzPerUnit == 0 then Err("zero unit")
      else if !(&& MultipleOf(m.hardwareMin, m.hertzPerUnit) && MultipleOf(m.hardwareMax, m.hertzPerUnit)
                && forall i :: 0 <= i < |opps| ==> MultipleOf(opps[i], m.hertzPerUnit))
        then Err("not representable")
      else Ok(m.(opps := opps))
  }

  /** `to_frequency_target`: rebuild the target and require the manifest to be canonical. */
  function RebuildFrequency(m: FrequencyTarget): Result<FrequencyTarget> {
    match NewFrequencyTarget(m)
    case Ok(t) => if t == m then Ok(t) else Err("not canonical")
    case Err(e) => Err(e)
  }

  /** `to_scalar_target`; enum domains kept as sets are canonical once they are valid. */
  function RebuildScalar(m: ScalarTarget): Result<ScalarTarget> {
    if SysfsPath(m.path) && CanonicalDomain(m.domain) then Ok(m) else Err("invalid scalar target")
  }

  function Paths(t: FrequencyTarget): set<string> { {t.minPath, t.maxPath} }

  /** `TargetRegistry::new` over the targets from index `i`, given what is already claimed. */
  function RegisterTargets(ts: seq<FrequencyTarget>, i: nat, acc: map<TargetId, FrequencyTarget>, claimed: set<string>)
    : Result<(map<TargetId, FrequencyTarget>, set<string>)>
    requires i <= |ts|
    decreases |ts| - i
  {
    if i == |ts| then Ok((acc, claimed))
    else if ts[i].id in acc then Err("duplicate target")
    else if ts[i].minPath in claimed || ts[i].maxPath in claimed || ts[i].minPath == ts[i].maxPath then Err("path claimed twice")
    else RegisterTargets(ts, i + 1, acc[ts[i].id := ts[i]], claimed + Paths(ts[i]))
  }

  /** `with_scalar_targets` over the targets from index `i`. */
  function RegisterScalars(ss: seq<ScalarTarget>, i: nat, targets: map<TargetId, FrequencyTarget>,
                           acc: map<TargetId, ScalarTarget>, claimed: set<string>): Result<map<TargetId, ScalarTarget>>
    requires i <= |ss|
    decreases |ss| - i
  {
    if i == |ss| then Ok(acc)
    else if RebuildScalar(ss[i]).Err? then Err("not canonical")
    else if ss[i].id in targets || ss[i].id in acc then Err("duplicate target")
    else if ss[i].path in claimed then Err("path claimed twice")
    else RegisterScalars(ss, i + 1, targets, acc[ss[i].id := ss[i]], claimed + {ss[i].path})
  }

  function NewRegistry(ts: seq<FrequencyTarget>, ss: seq<ScalarTarget>): Result<Registry> {
    match RegisterTargets(ts, 0, map[], {})
    case Err(e) => Err(e)
    case Ok((targets, claimed)) =>
      match RegisterScalars(ss, 0, targets, map[], claimed)
      case Err(e) => Err(e)
      case Ok(scalars) => Ok(Registry(targets, scalars))
  }

  /** What a successfully built registry satisfies. */
  predicate ValidRegistry(r: Registry) {
    && (forall id :: id in r.targets ==>
          var t := r.targets[id];
          t.id == id && CanonicalTarget(t) && SysfsPath(t.minPath) && SysfsPath(t.maxPath))
    && (forall id :: id in r.scalars ==>
          var t := r.scalars[id];
          t.id == id && id !in r.targets && SysfsPath(t.path) && CanonicalDomain(t.domain))
    && (forall a, b :: a in r.targets && b in r.targets && a != b ==> Paths(r.targets[a]) !! Paths(r.targets[b]))
    && (forall a, b :: a in r.targets && b in r.scalars ==> r.scalars[b].path !in Paths(r.targets[a]))
    && (forall a, b :: a in r.scalars && b in r.scalars && a != b ==> r.scalars[a].path != r.scalars[b].path)
  }

  lemma NewTargetIsCanonical(m: FrequencyTarget)
    ensures NewFrequencyTarget(m).Ok? ==> Registrable(NewFrequencyTarget(m).value)
  {
    SortDedupCorrect(m.opps);
    if NewFrequencyTarget(m).Ok? {
      var t := NewFrequencyTarget(m).value;
      assert t == m.(opps := SortDedup(m.opps));
      assert forall i :: 0 <= i < |t.opps| ==> t.opps[i] in t.opps;
    }
  }

  /** What `FrequencyTarget::new` guarantees of a target. */
  predicate Registrable(t: FrequencyTarget) {
    CanonicalTarget(t) && SysfsPath(t.minPath) && SysfsPath(t.maxPath)
  }

  ghost predicate TargetsOk(acc: map<TargetId, FrequencyTarget>, claimed: set<string>) {
    && (forall id :: id in acc ==> acc[id].id == id && Registrable(acc[id]) && Paths(acc[id]) <= claimed)
    && (forall a, b :: a in acc && b in acc && a != b ==> Paths(acc[a]) !! Paths(acc[b]))
  }

  ghost predicate ScalarsOk(targets: map<TargetId, FrequencyTarget>, acc: map<TargetId, ScalarTarget>, claimed: set<string>) {
    && (forall id :: id in targets ==> Paths(targets[id]) <= claimed)
    && (forall id :: id in acc ==> acc[id].id == id && id !in targets && SysfsPath(acc[id].path) && CanonicalDomain(acc[id].domain)
                                   && acc[id].path in claimed)
    && (forall a, b :: a in targets && b in acc ==> acc[b].path !in Paths(targets[a]))
    && (forall a, b :: a in acc && b in acc && a != b ==> acc[a].path != acc[b].path)
  }

  lemma {:induction false} RegisteredTargetsOk(ts: seq<FrequencyTarget>, i: nat, acc: map<TargetId, FrequencyTarget>, claimed: set<string>)
    requires i <= |ts| && TargetsOk(acc, claimed) && forall k :: 0 <= k < |ts| ==> Registrable(ts[k])
    ensures var r := RegisterTargets(ts, i, acc, claimed); r.Ok? ==> TargetsOk(r.value.0, r.value.1)
    decreases |ts| - i
  {
    if RegisterTargets(ts, i, acc, claimed).Ok? && i < |ts| {
      RegisteredTargetsOk(ts, i + 1, acc[ts[i].id := ts[i]], claimed + Paths(ts[i]));
    }
  }

  lemma {:induction false} RegisteredScalarsOk(ss: seq<ScalarTarget>, i: nat, targets: map<TargetId, FrequencyTarget>,
                                               acc: map<TargetId, ScalarTarget>, claimed: set<string>)
    requires i <= |ss| && ScalarsOk(targets, acc, claimed)
    ensures var r := RegisterScalars(ss, i, targets, acc, claimed); r.Ok? ==> exists more :: ScalarsOk(targets, r.value, more)
    decreases |ss| - i
  {
    if RegisterScalars(ss, i, targets, acc, claimed).Ok? && i < |ss| {
      RegisteredScalarsOk(ss, i + 1, targets, acc[ss[i].id := ss[i]], claimed + {ss[i].path});
    }
  }

  /** A registry that builds claims every path once and holds only canonical targets. */
  lemma NewRegistryIsValid(ts: seq<FrequencyTarget>, ss: seq<ScalarTarget>)
    requires forall k :: 0 <= k < |ts| ==> Registrable(ts[k])
    ensures NewRegistry(ts, ss).Ok? ==> ValidRegistry(NewRegistry(ts, ss).value)
  {
    RegisteredTargetsOk(ts, 0, map[], {});
    if RegisterTargets(ts, 0, map[], {}).Ok? {
      var (targets, claimed) := RegisterTargets(ts, 0, map[], {}).value;
      RegisteredScalarsOk(ss, 0, targets, map[], claimed);
    }
  }

  // ------------------------------------------------------------------- validator

  /** The checks `validate_decoded_journal` makes on one frequency entry. */
  predicate ValidFrequencyEntry(key: TargetId, e: FrequencyEntry) {
    && key == e.target
    && SysfsPath(e.minPath) && SysfsPath(e.maxPath) && e.minPath != e.maxPath
    && e.original.min <= e.original.max && e.desired.min <= e.desired.max && e.applied.min <= e.applied.max
    && e.manifest.FrequencyPair?
    && e.manifest.frequency.id == e.target
    && e.manifest.frequency.minPath == e.minPath && e.manifest.frequency.maxPath == e.maxPath
    && var built := RebuildFrequency(e.manifest.frequency);
    && built.Ok?
    && ValidLimits(built.value, e.original) && ValidLimits(built.value, e.desired) && ValidLimits(built.value, e.applied)
    && e.original == HardwareLimits(built.value)
    && e.legalPairs != []
    && (forall i :: 0 <= i < |e.legalPairs| ==> ValidLimits(built.value, e.legalPairs[i]))
    && Distinct(e.legalPairs)
    && e.legalPairs == (if e.desired == e.applied then [e.applied] else LegalPairs(e.applied, e.desired))
  }

  predicate ValidScalarEntry(key: TargetId, e: ScalarEntry, frequencyKeys: set<TargetId>) {
    && key == e.target && key !in frequencyKeys
    && SysfsPath(e.path)
    && e.manifest.ScalarNode?
    && e.manifest.scalar.id == e.target && e.manifest.scalar.path == e.path
    && RebuildScalar(e.manifest.scalar).Ok?
    && var domain := e.manifest.scalar.domain;
    ValidValue(domain, e.original) && ValidValue(domain, e.desired) && ValidValue(domain, e.applied)
  }

  /** No sysfs path is claimed by two entries. */
  predicate PathsClaimedOnce(j: Journal) {
    && (forall a, b :: a in j.entries && b in j.entries && a != b ==>
          {j.entries[a].minPath, j.entries[a].maxPath} !! {j.entries[b].minPath, j.entries[b].maxPath})
    && (forall a, b :: a in j.entries && b in j.scalars ==>
          j.scalars[b].path !in {j.entries[a].minPath, j.entries[a].maxPath})
    && (forall a, b :: a in j.scalars && b in j.scalars && a != b ==> j.scalars[a].path != j.scalars[b].path)
  }

  /** `validate_decoded_journal`, for the frequency and scalar parts. */
  predicate ValidateDecoded(j: Journal) {
    && j.schemaVersion == JOURNAL_SCHEMA_VERSION
    && j.bootId != "" && j.fingerprint != ""
    && PathsClaimedOnce(j)
    && (forall id :: id in j.entries ==> ValidFrequencyEntry(id, j.entries[id]))
    && (forall id :: id in j.scalars ==> ValidScalarEntry(id, j.scalars[id], j.entries.Keys))
  }

  // ---------------------------------------------------------- what the writer emits

  function ExpectedPairs(applied: Limits, desired: Limits): seq<Limits> {
    if desired == applied then [applied] else LegalPairs(applied, desired)
  }

  /** Always true; asserting it for an id brings that id's detailed facts into a proof. */
  predicate Inspect(id: TargetId) { true }

  /** An entry that names target `t` and remembers its full hardware range. */
  predicate EntryFor(t: FrequencyTarget, e: FrequencyEntry) {
    && e.target == t.id && e.minPath == t.minPath && e.maxPath == t.maxPath && e.manifest == FrequencyPair(t)
    && e.original == HardwareLimits(t)
  }

  /** Its transition is between valid windows and lists exactly the pairs that transition can expose. */
  predicate TransitionFor(t: FrequencyTarget, e: FrequencyEntry) {
    ValidLimits(t, e.desired) && ValidLimits(t, e.applied) && e.legalPairs == ExpectedPairs(e.applied, e.desired)
  }

  predicate ScalarEntryFor(t: ScalarTarget, e: ScalarEntry) {
    e.target == t.id && e.path == t.path && e.manifest == ScalarNode(t)
  }

  predicate ValuesFor(t: ScalarTarget, e: ScalarEntry) {
    ValidValue(t.domain, e.original) && ValidValue(t.domain, e.desired) && ValidValue(t.domain, e.applied)
  }

  predicate EntriesFrom(r: Registry, entries: map<TargetId, FrequencyEntry>) {
    && (forall id :: id in entries ==> id in r.targets && EntryFor(r.targets[id], entries[id]))
    && (forall id {:trigger Inspect(id)} :: Inspect(id) && id in entries && id in r.targets ==> TransitionFor(r.targets[id], entries[id]))
  }

  predicate NodesFrom(r: Registry, scalars: map<TargetId, ScalarEntry>) {
    && (forall id :: id in scalars ==> id in r.scalars && ScalarEntryFor(r.scalars[id], scalars[id]))
    && (forall id {:trigger Inspect(id)} :: Inspect(id) && id in scalars && id in r.scalars ==> ValuesFor(r.scalars[id], scalars[id]))
  }

  /** A journal whose every entry the actuator built from its own registry. */
  predicate WrittenFrom(r: Registry, bootId: string, fingerprint: string, j: Journal) {
    && j.schemaVersion == JOURNAL_SCHEMA_VERSION
    && j.bootId == bootId != "" && j.fingerprint == fingerprint != ""
    && EntriesFrom(r, j.entries) && NodesFrom(r, j.scalars)
  }

  lemma CanonicalRebuilds(t: FrequencyTarget)
    requires CanonicalTarget(t) && SysfsPath(t.minPath) && SysfsPath(t.maxPath)
    ensures RebuildFrequency(t) == Ok(t)
  {
    SortDedupFixesCanonical(t.opps);
    assert t.(opps := SortDedup(t.opps)) == t;
  }

  lemma WrittenEntryIsValid(t: FrequencyTarget, e: FrequencyEntry)
    requires CanonicalTarget(t) && SysfsPath(t.minPath) && SysfsPath(t.maxPath)
    requires EntryFor(t, e) && TransitionFor(t, e)
    ensures ValidFrequencyEntry(t.id, e)
  {
    CanonicalRebuilds(t);
    LegalPairsAreVisiblePairs(t, e.applied, e.desired);
    assert ValidLimits(t, HardwareLimits(t));
    forall i | 0 <= i < |e.legalPairs| ensures ValidLimits(t, e.legalPairs[i]) {
      assert e.legalPairs[i] in e.legalPairs;
    }
  }

  lemma WrittenScalarIsValid(t: ScalarTarget, e: ScalarEntry, frequencyKeys: set<TargetId>)
    requires SysfsPath(t.path) && CanonicalDomain(t.domain) && t.id !in frequencyKeys
    requires ScalarEntryFor(t, e) && ValuesFor(t, e)
    ensures ValidScalarEntry(t.id, e, frequencyKeys)
  {
  }

  /** The registry claims every path once, so the journal does too. */
  lemma WrittenPathsClaimedOnce(r: Registry, bootId: string, fingerprint: string, j: Journal)
    requires ValidRegistry(r) && WrittenFrom(r, bootId, fingerprint, j)
    ensures PathsClaimedOnce(j)
  {
    forall id | id in j.entries
      ensures id in r.targets && {j.entries[id].minPath, j.entries[id].maxPath} == Paths(r.targets[id])
    {
      assert EntryFor(r.targets[id], j.entries[id]);
    }
    forall id | id in j.scalars ensures id in r.scalars && j.scalars[id].path == r.scalars[id].path {
      assert ScalarEntryFor(r.scalars[id], j.scalars[id]);
    }
  }

  /** Writer and validator agree: a journal built from a valid registry is always accepted. */
  lemma WrittenJournalsValidate(r: Registry, bootId: string, fingerprint: string, j: Journal)
    requires ValidRegistry(r) && WrittenFrom(r, bootId, fingerprint, j)
    ensures ValidateDecoded(j)
  {
    WrittenPathsClaimedOnce(r, bootId, fingerprint, j);
    forall id | id in j.entries ensures ValidFrequencyEntry(id, j.entries[id]) {
      var t := r.targets[id];
      assert t.id == id && Inspect(id);
      WrittenEntryIsValid(t, j.entries[id]);
    }
    forall id | id in j.scalars ensures ValidScalarEntry(id, j.scalars[id], j.entries.Keys) {
      var t := r.scalars[id];
      assert t.id == id && id !in r.targets && Inspect(id);
      WrittenScalarIsValid(t, j.scalars[id], j.entries.Keys);
    }
  }

  // ------------------------------------------------------- self-describing recovery

  /** The manifests of the journaled targets, in some iteration order of their ids. */
  function FrequencyManifests(j: Journal, ids: seq<TargetId>): seq<FrequencyTarget>
    requires forall i :: 0 <= i < |ids| ==> ids[i] in j.entries && j.entries[ids[i]].manifest.FrequencyPair?
  {
    seq(|ids|, i requires 0 <= i < |ids| => j.entries[ids[i]].manifest.frequency)
  }

  function ScalarManifests(j: Journal, ids: seq<TargetId>): seq<ScalarTarget>
    requires forall i :: 0 <= i < |ids| ==> ids[i] in j.scalars && j.scalars[ids[i]].manifest.ScalarNode?
  {
    seq(|ids|, i requires 0 <= i < |ids| => j.scalars[ids[i]].manifest.scalar)
  }

  /** `self_describing_registry`: rebuild every manifest, then register them all. */
  function RebuildAll(ms: seq<FrequencyTarget>): Result<seq<FrequencyTarget>> {
    if ms == [] then Ok([])
    else
      match (RebuildFrequency(ms[0]), RebuildAll(ms[1..]))
      case (Ok(t), Ok(ts)) => Ok([t] + ts)
      case (Err(e), _) => Err(e)
      case (_, Err(e)) => Err(e)
  }

  function SelfDescribingRegistry(fs: seq<FrequencyTarget>, ss: seq<ScalarTarget>): Result<Registry> {
    match RebuildAll(fs)
    case Err(e) => Err(e)
    case Ok(ts) => NewRegistry(ts, ss)
  }

  lemma {:induction false} RebuildAllCanonical(ms: seq<FrequencyTarget>)
    requires forall i :: 0 <= i < |ms| ==> RebuildFrequency(ms[i]) == Ok(ms[i])
    ensures RebuildAll(ms) == Ok(ms)
  {
    if ms != [] {
      RebuildAllCanonical(ms[1..]);
      assert ms == [ms[0]] + ms[1..];
    }
  }

  ghost predicate IndependentTargets(ts: seq<FrequencyTarget>) {
    && (forall i :: 0 <= i < |ts| ==> ts[i].minPath != ts[i].maxPath)
    && (forall i, j :: 0 <= i < j < |ts| ==> ts[i].id != ts[j].id)
    && (forall i, j :: 0 <= i < j < |ts| ==> Paths(ts[i]) !! Paths(ts[j]))
  }

  /** Independent targets all register, adding exactly themselves and their paths. */
  lemma {:induction false} RegisterAll(ts: seq<FrequencyTarget>, i: nat, acc: map<TargetId, FrequencyTarget>, claimed: set<string>)
    requires i <= |ts| && IndependentTargets(ts)
    requires forall k :: i <= k < |ts| ==> ts[k].id !in acc
    requires forall k :: i <= k < |ts| ==> Paths(ts[k]) !! claimed
    ensures
      var r := RegisterTargets(ts, i, acc, claimed);
      && r.Ok?
      && (forall id :: id in r.value.0 ==> id in acc || exists k :: i <= k < |ts| && ts[k].id == id)
      && (forall id :: id in acc ==> id in r.value.0 && r.value.0[id] == acc[id])
      && (forall k :: i <= k < |ts| ==> ts[k].id in r.value.0 && r.value.0[ts[k].id] == ts[k])
      && (forall p :: p in r.value.1 ==> p in claimed || exists k :: i <= k < |ts| && p in Paths(ts[k]))
    decreases |ts| - i
  {
    if i < |ts| {
      var t := ts[i];
      assert t.minPath in Paths(t) && t.maxPath in Paths(t);
      RegisterAll(ts, i + 1, acc[t.id := t], claimed + Paths(t));
    }
  }

  lemma {:induction false} RegisterAllScalars(ss: seq<ScalarTarget>, i: nat, targets: map<TargetId, FrequencyTarget>,
                                              acc: map<TargetId, ScalarTarget>, claimed: set<string>)
    requires i <= |ss|
    requires forall k :: i <= k < |ss| ==> RebuildScalar(ss[k]).Ok?
    requires forall k :: i <= k < |ss| ==> ss[k].id !in targets && ss[k].id !in acc && ss[k].path !in claimed
    requires forall a, b :: i <= a < b < |ss| ==> ss[a].id != ss[b].id
    requires forall a, b :: i <= a < b < |ss| ==> ss[a].path != ss[b].path
    ensures
      var r := RegisterScalars(ss, i, targets, acc, claimed);
      && r.Ok?
      && (forall id :: id in r.value ==> id in acc || exists k :: i <= k < |ss| && ss[k].id == id)
      && (forall id :: id in acc ==> id in r.value && r.value[id] == acc[id])
      && (forall k :: i <= k < |ss| ==> ss[k].id in r.value && r.value[ss[k].id] == ss[k])
    decreases |ss| - i
  {
    if i < |ss| {
      RegisterAllScalars(ss, i + 1, targets, acc[ss[i].id := ss[i]], claimed + {ss[i].path});
    }
  }

  /** A map holding exactly the listed targets is the restriction of the table they came from. */
  lemma ListedRestriction<T>(m: map<TargetId, T>, ids: seq<TargetId>, keys: set<TargetId>, table: map<TargetId, T>)
    requires forall id :: id in ids <==> id in keys
    requires forall id :: id in keys ==> id in table
    requires forall id :: id in m ==> exists k :: 0 <= k < |ids| && ids[k] == id
    requires forall k :: 0 <= k < |ids| ==> ids[k] in m && ids[k] in table && m[ids[k]] == table[ids[k]]
    ensures m == map id | id in keys :: table[id]
  {
  }

  /**
   Recovery without configuration: whatever order the journal is walked in, the registry rebuilt
   from its own manifests holds exactly the journaled targets with the definitions they were
   claimed under, so recovery never degrades on identity.
   */
  lemma JournalRebuildsRegistry(r: Registry, bootId: string, fingerprint: string, j: Journal,
                                fids: seq<TargetId>, sids: seq<TargetId>)
    requires ValidRegistry(r) && WrittenFrom(r, bootId, fingerprint, j)
    requires Distinct(fids) && (forall id :: id in fids <==> id in j.entries)
    requires Distinct(sids) && (forall id :: id in sids <==> id in j.scalars)
    ensures SelfDescribingRegistry(FrequencyManifests(j, fids), ScalarManifests(j, sids))
            == Ok(Registry(map id | id in j.entries.Keys :: r.targets[id], map id | id in j.scalars.Keys :: r.scalars[id]))
  {
    var ts, ss := FrequencyManifests(j, fids), ScalarManifests(j, sids);
    forall i | 0 <= i < |ts|
      ensures fids[i] in r.targets && ts[i] == r.targets[fids[i]] && ts[i].id == fids[i]
    {
      assert fids[i] in j.entries;
    }
    forall i | 0 <= i < |ss|
      ensures sids[i] in r.scalars && ss[i] == r.scalars[sids[i]] && ss[i].id == sids[i]
    {
      assert sids[i] in j.scalars;
    }
    RebuildListed(r, fids, ts);
    ListedIndependent(r, fids, ts);
    RebuiltTargets(r.targets, fids, ts, j.entries.Keys);
    var (targets, claimed) := RegisterTargets(ts, 0, map[], {}).value;
    ListedScalars(r, fids, ts, sids, ss, targets, claimed);
    RebuiltScalars(r.scalars, sids, ss, j.scalars.Keys, targets, claimed);
  }

  /** Independent targets listed from a table register as the restriction of that table. */
  lemma RebuiltTargets(table: map<TargetId, FrequencyTarget>, ids: seq<TargetId>, ts: seq<FrequencyTarget>, keys: set<TargetId>)
    requires |ts| == |ids| && IndependentTargets(ts)
    requires forall id :: id in ids <==> id in keys
    requires forall i :: 0 <= i < |ts| ==> ids[i] in table && ts[i] == table[ids[i]] && ts[i].id == ids[i]
    ensures forall id :: id in keys ==> id in table
    ensures
      var r := RegisterTargets(ts, 0, map[], {});
      && r.Ok? && r.value.0 == (map id | id in keys :: table[id])
      && (forall id :: id in r.value.0 ==> exists k :: 0 <= k < |ts| && ts[k].id == id)
      && (forall p :: p in r.value.1 ==> exists k :: 0 <= k < |ts| && p in Paths(ts[k]))
  {
    RegisterAll(ts, 0, map[], {});
    var m := RegisterTargets(ts, 0, map[], {}).value.0;
    forall id | id in m ensures exists k :: 0 <= k < |ids| && ids[k] == id {
      var k :| 0 <= k < |ts| && ts[k].id == id;
      assert ids[k] == id;
    }
    ListedRestriction(m, ids, keys, table);
  }

  lemma RebuiltScalars(table: map<TargetId, ScalarTarget>, ids: seq<TargetId>, ss: seq<ScalarTarget>, keys: set<TargetId>,
                       targets: map<TargetId, FrequencyTarget>, claimed: set<string>)
    requires |ss| == |ids|
    requires forall id :: id in ids <==> id in keys
    requires forall i :: 0 <= i < |ss| ==> ids[i] in table && ss[i] == table[ids[i]] && ss[i].id == ids[i]
    requires forall k :: 0 <= k < |ss| ==> RebuildScalar(ss[k]).Ok?
    requires forall k :: 0 <= k < |ss| ==> ss[k].id !in targets && ss[k].path !in claimed
    requires forall a, b :: 0 <= a < b < |ss| ==> ss[a].id != ss[b].id
    requires forall a, b :: 0 <= a < b < |ss| ==> ss[a].path != ss[b].path
    ensures forall id :: id in keys ==> id in table
    ensures RegisterScalars(ss, 0, targets, map[], claimed) == Ok(map id | id in keys :: table[id])
  {
    RegisterAllScalars(ss, 0, targets, map[], claimed);
    var m := RegisterScalars(ss, 0, targets, map[], claimed).value;
    forall id | id in m ensures exists k :: 0 <= k < |ids| && ids[k] == id {
      var k :| 0 <= k < |ss| && ss[k].id == id;
      assert ids[k] == id;
    }
    ListedRestriction(m, ids, keys, table);
  }

  lemma RebuildListed(r: Registry, fids: seq<TargetId>, ts: seq<FrequencyTarget>)
    requires ValidRegistry(r) && |ts| == |fids|
    requires forall i :: 0 <= i < |ts| ==> fids[i] in r.targets && ts[i] == r.targets[fids[i]]
    ensures RebuildAll(ts) == Ok(ts)
  {
    forall i | 0 <= i < |ts| ensures RebuildFrequency(ts[i]) == Ok(ts[i]) {
      CanonicalRebuilds(r.targets[fids[i]]);
    }
    RebuildAllCanonical(ts);
  }

  lemma ListedIndependent(r: Registry, fids: seq<TargetId>, ts: seq<FrequencyTarget>)
    requires ValidRegistry(r) && |ts| == |fids| && Distinct(fids)
    requires forall i :: 0 <= i < |ts| ==> fids[i] in r.targets && ts[i] == r.targets[fids[i]]
    ensures IndependentTargets(ts)
  {
  }

  lemma ListedScalars(r: Registry, fids: seq<TargetId>, ts: seq<FrequencyTarget>, sids: seq<TargetId>, ss: seq<ScalarTarget>,
                      targets: map<TargetId, FrequencyTarget>, claimed: set<string>)
    requires ValidRegistry(r) && |ts| == |fids| && |ss| == |sids| && Distinct(sids)
    requires forall i :: 0 <= i < |ts| ==> fids[i] in r.targets && ts[i] == r.targets[fids[i]]
    requires forall i :: 0 <= i < |ss| ==> sids[i] in r.scalars && ss[i] == r.scalars[sids[i]]
    requires forall id :: id in targets ==> exists k :: 0 <= k < |ts| && ts[k].id == id
    requires forall p :: p in claimed ==> exists k :: 0 <= k < |ts| && p in Paths(ts[k])
    ensures forall k :: 0 <= k < |ss| ==> RebuildScalar(ss[k]).Ok?
    ensures forall k :: 0 <= k < |ss| ==> ss[k].id !in targets && ss[k].path !in claimed
    ensures forall a, b :: 0 <= a < b < |ss| ==> ss[a].id != ss[b].id
    ensures forall a, b :: 0 <= a < b < |ss| ==> ss[a].path != ss[b].path
  {
    forall k | 0 <= k < |ss| ensures RebuildScalar(ss[k]).Ok? && ss[k].id !in targets && ss[k].path !in claimed {
      var t := r.scalars[sids[k]];
      assert t.id == sids[k] && t.id !in r.targets;
      forall i | 0 <= i < |ts| ensures ts[i].id != t.id && t.path !in Paths(ts[i]) {
        assert r.targets[fids[i]].id == fids[i];
      }
    }
  }
}
