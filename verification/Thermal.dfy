/** The thermal guard: immediate entry into emergency states, hysteresis and a full dwell on every other change. */
module Thermal {
  import opened Common

  datatype State = Normal | Warning | Throttled | Critical | Degraded

  /** Temperatures in thousandths of a degree. */
  datatype Thresholds = Thresholds(warning: int, throttled: int, critical: int, hysteresis: int, dwell: nat, staleAfter: nat)

  datatype Reading = Reading(healthy: bool, sampledAt: nat, temperature: Option<int>)

  datatype Event = Event(now: nat, reading: Reading)

  /** The guard's mutable fields: its state, and a candidate with the time it was first seen. */
  datatype Guard = Guard(state: State, pending: Option<(State, nat)>)

  function Rank(s: State): nat {
    match s case Normal => 0 case Warning => 1 case Throttled => 2 case Critical => 3 case Degraded => 4
  }

  function Since(now: nat, earlier: nat): nat { if now >= earlier then now - earlier else 0 }

  /** `classify_temperature`. */
  function Classify(t: Thresholds, temperature: int): State {
    if temperature >= t.critical then Critical
    else if temperature >= t.throttled then Throttled
    else if temperature >= t.warning then Warning
    else Normal
  }

  /** The threshold a state has to recover from. */
  function Threshold(t: Thresholds, s: State): int
    requires s.Critical? || s.Throttled? || s.Warning?
  {
    match s case Critical => t.critical case Throttled => t.throttled case Warning => t.warning
  }

  /** `candidate_state`. */
  function Candidate(t: Thresholds, s: State, temperature: int): State {
    var raw := Classify(t, temperature);
    if Rank(raw) >= Rank(s) || s.Degraded? || s.Normal? then raw
    else if temperature < Threshold(t, s) - t.hysteresis then raw
    else s
  }

  /** A reading the guard trusts. */
  predicate Usable(t: Thresholds, e: Event) {
    e.reading.healthy && e.reading.sampledAt <= e.now && Since(e.now, e.reading.sampledAt) <= t.staleAfter && e.reading.temperature.Some?
  }

  class ThermalGuard {
    const thresholds: Thresholds
    var state: State
    var pending: Option<(State, nat)>

    constructor (thresholds: Thresholds)
      ensures this.thresholds == thresholds && Value() == Guard(Normal, None)
    {
      this.thresholds, this.state, this.pending := thresholds, Normal, None;
    }

    ghost function Value(): Guard
      reads this
    {
      Guard(state, pending)
    }

    /** `ThermalGuard::update`. */
    method Update(e: Event) returns (now: State)
      modifies this`state, this`pending
      ensures Value() == Next(thresholds, old(Value()), e) && now == state
    {
      if !e.reading.healthy || e.reading.sampledAt > e.now || Since(e.now, e.reading.sampledAt) > thresholds.staleAfter
         || e.reading.temperature.None? {
        state, pending := Degraded, None;
        return state;
      }
      var candidate := Candidate(thresholds, state, e.reading.temperature.value);
      if candidate == Critical {
        state, pending := candidate, None;
      } else if candidate == state {
        pending := None;
      } else if pending.Some? && pending.value.0 == candidate {
        if Since(e.now, pending.value.1) >= thresholds.dwell {
          state, pending := candidate, None;
        }
      } else if thresholds.dwell == 0 {
        state, pending := candidate, None;
      } else {
        pending := Some((candidate, e.now));
      }
      now := state;
    }
  }

  ghost function Next(t: Thresholds, g: Guard, e: Event): Guard {
    if !Usable(t, e) then Guard(Degraded, None)
    else
      var candidate := Candidate(t, g.state, e.reading.temperature.value);
      if candidate.Critical? || candidate == g.state then Guard(candidate, None)
      else if g.pending.Some? && g.pending.value.0 == candidate then
        if Since(e.now, g.pending.value.1) >= t.dwell then Guard(candidate, None) else g
      else if t.dwell == 0 then Guard(candidate, None)
      else Guard(g.state, Some((candidate, e.now)))
  }

  /** The guard after the first `n` events. */
  ghost function After(t: Thresholds, events: seq<Event>, n: nat): Guard
    requires n <= |events|
  {
    if n == 0 then Guard(Normal, None) else Next(t, After(t, events, n - 1), events[n - 1])
  }

  // --------------------------------------------------------------------- history

  /** From event `k` up to event `n` the guard was in `s`, and every reading was usable and pointed to `c`. */
  ghost predicate Stretch(t: Thresholds, events: seq<Event>, k: nat, n: nat, s: State, c: State)
    requires n <= |events|
  {
    k <= n && forall j :: k <= j < n ==>
      After(t, events, j).state == s && Usable(t, events[j]) && Candidate(t, s, events[j].reading.temperature.value) == c
  }

  ghost predicate FirstSeen(t: Thresholds, events: seq<Event>, k: nat, n: nat, s: State, c: State, since: nat)
    requires n <= |events|
  {
    k < n && events[k].now == since && Stretch(t, events, k, n, s, c)
  }

  /** One more event of the same kind. */
  lemma StretchGrows(t: Thresholds, events: seq<Event>, k: nat, n: nat, s: State, c: State)
    requires n < |events| && Stretch(t, events, k, n, s, c)
    requires After(t, events, n).state == s && Usable(t, events[n]) && Candidate(t, s, events[n].reading.temperature.value) == c
    ensures Stretch(t, events, k, n + 1, s, c)
  {
  }

  /** What one event does to the pending candidate. */
  lemma PendingNext(t: Thresholds, g: Guard, e: Event)
    ensures
      var next := Next(t, g, e);
      && (next.pending.Some? ==>
            && next.state == g.state && Usable(t, e) && Candidate(t, g.state, e.reading.temperature.value) == next.pending.value.0 != g.state
            && (next.pending == g.pending || next.pending.value.1 == e.now))
      && (next.state != g.state && !next.state.Critical? && !next.state.Degraded? ==>
            && Usable(t, e) && Candidate(t, g.state, e.reading.temperature.value) == next.state
            && (t.dwell == 0 || (g.pending.Some? && g.pending.value.0 == next.state && Since(e.now, g.pending.value.1) >= t.dwell)))
  {
  }

  /** A pending candidate has been seen without interruption since it was noted. */
  lemma {:induction false} PendingMeansStretch(t: Thresholds, events: seq<Event>, n: nat)
    requires n <= |events|
    ensures
      var g := After(t, events, n);
      g.pending.Some? ==> g.pending.value.0 != g.state && exists k: nat :: FirstSeen(t, events, k, n, g.state, g.pending.value.0, g.pending.value.1)
  {
    if n > 0 {
      PendingMeansStretch(t, events, n - 1);
      var before, g := After(t, events, n - 1), After(t, events, n);
      PendingNext(t, before, events[n - 1]);
      if g.pending.Some? {
        var c, since := g.pending.value.0, g.pending.value.1;
        if g.pending == before.pending {
          var k: nat :| FirstSeen(t, events, k, n - 1, g.state, c, since);
          StretchGrows(t, events, k, n - 1, g.state, c);
          assert FirstSeen(t, events, k, n, g.state, c, since);
        } else {
          StretchGrows(t, events, n - 1, n - 1, g.state, c);
          assert FirstSeen(t, events, n - 1, n, g.state, c, since);
        }
      }
    }
  }

  /** Every reading of the stretch lies below the state's threshold less the hysteresis. */
  ghost predicate Cool(t: Thresholds, events: seq<Event>, k: nat, n: nat, s: State)
    requires n <= |events|
  {
    forall j :: k <= j < n ==>
      Usable(t, events[j])
      && (s.Critical? || s.Throttled? || s.Warning? ==> events[j].reading.temperature.value < Threshold(t, s) - t.hysteresis)
  }

  /**
   The guard changes to a state other than Critical and Degraded only after an uninterrupted stretch, at least the
   dwell long, of usable readings that all pointed there; and when that state is milder than Critical, Throttled or
   Warning, every one of those readings was below the threshold less the hysteresis.
   */
  lemma {:induction false} ChangesNeedFullDwell(t: Thresholds, events: seq<Event>, n: nat) returns (k: nat)
    requires n < |events|
    requires var was, now := After(t, events, n).state, After(t, events, n + 1).state; was != now && !now.Critical? && !now.Degraded?
    ensures
      var was, now := After(t, events, n).state, After(t, events, n + 1).state;
      && k <= n && Stretch(t, events, k, n + 1, was, now)
      && Since(events[n].now, events[k].now) >= t.dwell
      && (Rank(now) < Rank(was) ==> Cool(t, events, k, n + 1, was))
  {
    var g := After(t, events, n);
    var now := After(t, events, n + 1).state;
    PendingNext(t, g, events[n]);
    if t.dwell == 0 {
      k := n;
    } else {
      PendingMeansStretch(t, events, n);
      k :| FirstSeen(t, events, k, n, g.state, g.pending.value.0, g.pending.value.1);
    }
    StretchGrows(t, events, k, n, g.state, now);
    if Rank(now) < Rank(g.state) { StretchIsCool(t, events, k, n + 1, g.state, now); }
  }

  /** Readings that point to a milder state are below the threshold less the hysteresis. */
  lemma StretchIsCool(t: Thresholds, events: seq<Event>, k: nat, n: nat, s: State, c: State)
    requires n <= |events| && Stretch(t, events, k, n, s, c) && Rank(c) < Rank(s)
    ensures Cool(t, events, k, n, s)
  {
  }

  /** Emergencies are never delayed: an untrusted reading degrades at once, and a critical one is critical at once. */
  lemma EmergenciesAreImmediate(t: Thresholds, events: seq<Event>, n: nat)
    requires n < |events|
    ensures !Usable(t, events[n]) ==> After(t, events, n + 1) == Guard(Degraded, None)
    ensures Usable(t, events[n]) && events[n].reading.temperature.value >= t.critical ==> After(t, events, n + 1) == Guard(Critical, None)
  {
  }

  /** The emergency states are entered only that way. */
  lemma EmergenciesAreReal(t: Thresholds, events: seq<Event>, n: nat)
    requires n < |events|
    ensures After(t, events, n + 1).state.Degraded? && !After(t, events, n).state.Degraded? ==> !Usable(t, events[n])
    ensures After(t, events, n + 1).state.Critical? && !After(t, events, n).state.Critical? ==>
              Usable(t, events[n]) && events[n].reading.temperature.value >= t.critical
  {
  }

  /** While readings stay usable and below every threshold less the hysteresis, one dwell brings the guard back to Normal. */
  lemma {:induction false} CoolReadingsRecover(t: Thresholds, events: seq<Event>, k: nat, n: nat)
    requires k < n < |events| && t.hysteresis >= 0 && t.warning <= t.throttled <= t.critical
    requires forall j :: k <= j <= n ==> Usable(t, events[j]) && events[j].reading.temperature.value < t.warning - t.hysteresis
    requires forall i, j :: 0 <= i <= j <= n ==> events[i].now <= events[j].now
    requires events[n].now - events[k].now >= t.dwell
    ensures After(t, events, n + 1).state.Normal?
  {
    StaysPending(t, events, k, n);
  }

  lemma {:induction false} StaysPending(t: Thresholds, events: seq<Event>, k: nat, m: nat)
    requires k <= m < |events| && t.hysteresis >= 0 && t.warning <= t.throttled <= t.critical
    requires forall j :: k <= j <= m ==> Usable(t, events[j]) && events[j].reading.temperature.value < t.warning - t.hysteresis
    requires forall i, j :: 0 <= i <= j <= m ==> events[i].now <= events[j].now
    ensures
      var g := After(t, events, m + 1);
      || (g.state.Normal? && g.pending.None?)
      || (g.pending.Some? && g.pending.value.0.Normal? && g.pending.value.1 <= events[k].now && events[m].now - g.pending.value.1 < t.dwell)
  {
    var g := After(t, events, m);
    CoolNext(t, g, events[m]);
    if k < m {
      StaysPending(t, events, k, m - 1);
    } else {
      PendingMeansStretch(t, events, k);
      if g.pending.Some? {
        var i: nat :| FirstSeen(t, events, i, k, g.state, g.pending.value.0, g.pending.value.1);
      }
    }
  }

  /** What one reading below every threshold does. */
  lemma CoolNext(t: Thresholds, g: Guard, e: Event)
    requires t.hysteresis >= 0 && t.warning <= t.throttled <= t.critical
    requires Usable(t, e) && e.reading.temperature.value < t.warning - t.hysteresis
    ensures
      var next := Next(t, g, e);
      if g.state.Normal? then next == Guard(Normal, None)
      else if g.pending.Some? && g.pending.value.0.Normal? then
        next == if Since(e.now, g.pending.value.1) >= t.dwell then Guard(Normal, None) else g
      else next == if t.dwell == 0 then Guard(Normal, None) else Guard(g.state, Some((Normal, e.now)))
  {
  }
}
