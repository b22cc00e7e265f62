/**
 The focus reporter of the GNOME Shell extension: generations, one call in flight, and debounce, retry and renewal
 timers. Each method is one callback of the main loop; callbacks never interleave.
 */
module FocusReporter {
  import opened Common

  const RETRY_MINIMUM_MS: nat := 500
  const RETRY_MAXIMUM_MS: nat := 30000

  datatype Message = SetForeground(pid: nat) | ClearForeground

  /** A call on the bus; `serial` is its object identity. */
  datatype Call = Call(serial: nat, generation: nat, message: Message)

  /** How a call ends. Only a call whose cancellable was triggered reports cancellation. */
  datatype Ending = Replied | Failed | Cancelled

  datatype Renewal = Renewal(generation: nat, pid: nat)

  class Reporter {
    var enabled: bool
    var daemonPresent: bool
    var userSession: bool
    var idle: bool
    var forceUpdate: bool
    var debounce: bool
    var retry: Option<nat>
    var renewal: Option<Renewal>
    var retryDelay: nat
    var call: Option<Call>
    var calls: nat
    var generation: nat
    var desiredKnown: bool
    var desired: Option<nat>
    var reported: Option<nat>
    /** A null focus was acknowledged by the daemon in the current generation. */
    ghost var cleared: bool

    /** How many of the four activities are under way. */
    ghost function Active(): nat
      reads this
    {
      (if debounce then 1 else 0) + (if call.Some? then 1 else 0) + (if retry.Some? then 1 else 0) + (if renewal.Some? then 1 else 0)
    }

    /** What a call or timer in progress says about the state. */
    ghost predicate Coherent()
      reads this
    {
      && (call.Some? ==> && call.value.generation == generation && call.value.serial < calls
                         && desired == (match call.value.message case SetForeground(pid) => Some(pid) case ClearForeground => None))
      && (retry.Some? ==> retry.value == generation)
      && (renewal.Some? ==> renewal.value.generation == generation && desired == Some(renewal.value.pid) && reported == desired)
      && (debounce ==> desired.Some?)
      && (cleared ==> desired.None? && reported.None? && desiredKnown)
      && (Active() > 0 || cleared ==> enabled && daemonPresent && desiredKnown)
      && Sane()
    }

    /** What holds whatever is in progress. */
    ghost predicate Sane()
      reads this
    {
      && (idle || daemonPresent ==> enabled) && (desired.Some? ==> desiredKnown)
      && RETRY_MINIMUM_MS <= retryDelay <= RETRY_MAXIMUM_MS
    }

    /** At most one activity, and never stuck. */
    ghost predicate Valid()
      reads this
    {
      && Coherent() && Active() <= 1
      && (enabled && daemonPresent ==> (idle && forceUpdate) || Active() == 1 || cleared)
    }

    /** A reporter that was never enabled. */
    constructor ()
      ensures Valid() && !enabled
    {
      enabled, daemonPresent, userSession, idle, forceUpdate := false, false, false, false, false;
      debounce, retry, renewal, retryDelay, call, calls := false, None, None, RETRY_MINIMUM_MS, None, 0;
      generation, desiredKnown, desired, reported, cleared := 0, false, None, None, false;
    }

    method Enable(user: bool)
      requires Valid() && !enabled
      modifies this
      ensures Valid() && enabled && idle && !daemonPresent && userSession == user
      ensures calls == old(calls)
    {
      ClearSources();
      Forget();
      enabled, retryDelay, userSession, forceUpdate, generation := true, RETRY_MINIMUM_MS, user, false, 0;
      QueueUpdate(false);
    }

    /** Returns whether a last, uncancelled Clear is sent. */
    method Disable() returns (clears: bool)
      requires Valid() && enabled
      modifies this
      ensures Valid() && !enabled && Active() == 0 && !idle
      ensures clears <==> old(daemonPresent) && (old(desiredKnown) || old(reported).Some?)
    {
      clears := daemonPresent && (desiredKnown || reported.Some? || desired.Some? || call.Some?);
      enabled := false;
      generation := generation + 1;
      ClearSources();
      Forget();
    }

    /** No timer and no call. */
    method ClearSources()
      modifies this`idle, this`debounce, this`retry, this`renewal, this`call
      ensures !idle && Active() == 0
    {
      idle, debounce, retry, renewal := false, false, None, None;
      call := None;
    }

    /** No daemon and no focus. */
    method Forget()
      modifies this`daemonPresent, this`reported, this`desired, this`desiredKnown, this`cleared
      ensures !daemonPresent && reported.None? && desired.None? && !desiredKnown && !cleared
    {
      daemonPresent, reported, desired, desiredKnown, cleared := false, None, None, false, false;
    }

    method AdvanceGeneration()
      requires Sane()
      modifies this`generation, this`debounce, this`retry, this`renewal, this`call, this`cleared
      ensures Coherent() && Active() == 0 && generation == old(generation) + 1 && !cleared
    {
      generation := generation + 1;
      debounce, retry, renewal := false, None, None;
      call, cleared := None, false;
    }

    method OnDaemonAppeared()
      requires Valid()
      modifies this
      ensures Valid() && enabled == old(enabled)
      ensures enabled ==> daemonPresent && idle && forceUpdate
    {
      if !enabled { return; }
      daemonPresent, retryDelay, reported := true, RETRY_MINIMUM_MS, None;
      AdvanceGeneration();
      QueueUpdate(true);
    }

    method OnDaemonVanished()
      requires Valid()
      modifies this
      ensures Valid() && enabled == old(enabled)
      ensures enabled ==> !daemonPresent && Active() == 0
    {
      if !enabled { return; }
      daemonPresent, reported := false, None;
      AdvanceGeneration();
    }

    method OnSessionModeChanged(user: bool)
      requires Valid() && enabled
      modifies this
      ensures Valid() && enabled && userSession == user && daemonPresent == old(daemonPresent)
      ensures !user && old(userSession) ==> desired.None? && desiredKnown
    {
      if user == userSession { return; }
      userSession := user;
      if user {
        QueueUpdate(true);
      } else {
        SetDesired(None, true);
      }
    }

    /** `_queueUpdate`: one idle, which re-reads the focus. */
    method QueueUpdate(force: bool)
      requires Coherent() && enabled
      modifies this`idle, this`forceUpdate
      ensures Coherent() && idle && forceUpdate == (old(forceUpdate) || force)
    {
      forceUpdate := forceUpdate || force;
      idle := true;
    }

    /** The idle callback; `focus` is the top level's PID the shell reports at that moment. */
    method OnIdle(focus: Option<nat>)
      requires Valid() && idle
      modifies this
      ensures Valid() && !idle && enabled && daemonPresent == old(daemonPresent) && userSession == old(userSession)
      ensures desiredKnown && desired == if userSession then focus else None
    {
      idle := false;
      var force := forceUpdate;
      forceUpdate := false;
      SetDesired(if userSession then focus else None, force);
    }

    method SetDesired(pid: Option<nat>, force: bool)
      requires Coherent() && Active() <= 1 && enabled
      requires daemonPresent && !force ==> Active() == 1 || cleared
      modifies this`desiredKnown, this`desired, this`generation, this`debounce, this`retry, this`renewal, this`call, this`calls, this`cleared
      ensures Coherent() && Active() <= 1 && desiredKnown && desired == pid
      ensures daemonPresent ==> Active() == 1 || cleared
    {
      if desiredKnown && pid == desired && !force { return; }
      desiredKnown, desired := true, pid;
      AdvanceGeneration();
      if !daemonPresent { return; }
      if pid.None? {
        SendClear();
        return;
      }
      debounce := true;
    }

    method OnDebounce()
      requires Valid() && debounce
      modifies this
      ensures Valid() && call.Some? && desired == old(desired) && idle == old(idle)
    {
      debounce := false;
      SendDesired();
    }

    method SendDesired()
      requires Coherent() && Active() == 0 && enabled && daemonPresent && desiredKnown
      modifies this`renewal, this`call, this`calls, this`cleared
      ensures Coherent() && Active() == 1 && call.Some?
    {
      cleared := false;
      if desired.None? { SendClear(); } else { SendSet(desired.value); }
    }

    method SendSet(pid: nat)
      requires Coherent() && Active() == 0 && enabled && daemonPresent && desiredKnown && desired == Some(pid)
      modifies this`renewal, this`call, this`calls
      ensures Coherent() && Active() == 1 && call == Some(Call(old(calls), generation, SetForeground(pid)))
    {
      if call.Some? { return; }
      renewal := None;
      StartCall(SetForeground(pid));
    }

    method SendClear()
      requires Coherent() && Active() == 0 && enabled && daemonPresent && desiredKnown && desired.None?
      modifies this`renewal, this`call, this`calls
      ensures Coherent() && Active() == 1 && call == Some(Call(old(calls), generation, ClearForeground))
    {
      if call.Some? { return; }
      renewal := None;
      StartCall(ClearForeground);
    }

    method StartCall(message: Message)
      modifies this`call, this`calls
      ensures call == Some(Call(old(calls), generation, message)) && calls == old(calls) + 1
    {
      call := Some(Call(calls, generation, message));
      calls := calls + 1;
    }

    /** The completion of any call ever started, current or abandoned. */
    method OnCallFinished(c: Call, ending: Ending)
      requires Valid() && (ending.Cancelled? ==> call != Some(c))
      modifies this
      ensures Valid() && desired == old(desired) && desiredKnown == old(desiredKnown) && enabled == old(enabled) && daemonPresent == old(daemonPresent)
      ensures idle == old(idle) && userSession == old(userSession) && generation == old(generation)
      ensures old(call) != Some(c) ==> call == old(call) && reported == old(reported) && retryDelay == old(retryDelay)
      ensures old(call) == Some(c) && ending.Replied? ==> reported == desired && (desired.Some? ==> renewal.Some?) && (desired.None? ==> cleared)
                                                          && retryDelay == RETRY_MINIMUM_MS
      ensures old(call) == Some(c) && ending.Failed? ==> retry.Some? && retryDelay == Min(2 * old(retryDelay), RETRY_MAXIMUM_MS)
    {
      var current := call == Some(c);
      if current { call := None; }
      if ending == Cancelled { return; }
      if !current || !enabled || c.generation != generation { return; }
      if ending == Failed {
        RetryLater();
        return;
      }
      retry, retryDelay := None, RETRY_MINIMUM_MS;
      match c.message
      case SetForeground(pid) =>
        if desired != Some(pid) { return; }
        reported := Some(pid);
        ScheduleRenewal(c.generation, pid);
      case ClearForeground =>
        if desired.None? { reported := None; }
        cleared := true;
    }

    method ScheduleRenewal(at: nat, pid: nat)
      requires at == generation
      modifies this`renewal
      ensures renewal == if enabled && daemonPresent && desired == Some(pid) then Some(Renewal(generation, pid)) else None
    {
      renewal := None;
      if !enabled || !daemonPresent || desired != Some(pid) { return; }
      renewal := Some(Renewal(at, pid));
    }

    method OnRenewal()
      requires Valid() && renewal.Some?
      modifies this
      ensures Valid() && call.Some? && desired == old(desired) && idle == old(idle)
    {
      var r := renewal.value;
      renewal := None;
      if r.generation == generation && desired == Some(r.pid) { SendSet(r.pid); }
    }

    /** Bounded exponential backoff. */
    method RetryLater()
      requires RETRY_MINIMUM_MS <= retryDelay <= RETRY_MAXIMUM_MS && retry.None? && daemonPresent
      modifies this`retry, this`renewal, this`retryDelay
      ensures retry == Some(generation) && renewal.None? && retryDelay == Min(2 * old(retryDelay), RETRY_MAXIMUM_MS)
    {
      if retry.Some? || !daemonPresent { return; }
      renewal := None;
      retryDelay := Min(retryDelay * 2, RETRY_MAXIMUM_MS);
      retry := Some(generation);
    }

    method OnRetry()
      requires Valid() && retry.Some?
      modifies this
      ensures Valid() && call.Some? && desired == old(desired) && idle == old(idle)
    {
      var at := retry.value;
      retry := None;
      if at == generation { SendDesired(); }
    }

    /**
     Never stuck: from any reachable state with the daemon present, the pending idle, timer and call, run once
     without a fault, bring the daemon's view to the current focus, and a non-null focus keeps being renewed.
     */
    method Settle(focus: Option<nat>)
      requires Valid() && enabled && daemonPresent
      modifies this
      ensures Valid() && Active() <= 1 && !idle
      ensures reported == desired && (desired.Some? ==> renewal.Some?) && (desired.None? ==> cleared)
      ensures desired == if old(idle) then if old(userSession) then focus else None else old(desired)
    {
      if idle { OnIdle(focus); }
      if debounce { OnDebounce(); } else if retry.Some? { OnRetry(); }
      if call.Some? { OnCallFinished(call.value, Replied); }
    }
  }

  /** Main-loop events, in any order. A call may finish long after it was abandoned. */
  datatype Event =
    | Enable(user: bool) | Disable | Appeared | Vanished | SessionMode(user: bool) | FocusNotified
    | Idle(focus: Option<nat>) | Debounce | Renew | Retry | Finished(finished: Call, ending: Ending)

  /** Every run keeps the invariant; events that cannot fire in a state are skipped. */
  method Run(events: seq<Event>) returns (r: Reporter)
    ensures r.Valid()
  {
    r := new Reporter();
    for k := 0 to |events|
      invariant fresh(r) && r.Valid()
    {
      match events[k]
      case Enable(user) => if !r.enabled { r.Enable(user); }
      case Disable => if r.enabled { var _ := r.Disable(); }
      case Appeared => r.OnDaemonAppeared();
      case Vanished => r.OnDaemonVanished();
      case SessionMode(user) => if r.enabled { r.OnSessionModeChanged(user); }
      case FocusNotified => if r.enabled { r.QueueUpdate(false); }
      case Idle(focus) => if r.idle { r.OnIdle(focus); }
      case Debounce => if r.debounce { r.OnDebounce(); }
      case Renew => if r.renewal.Some? { r.OnRenewal(); }
      case Retry => if r.retry.Some? { r.OnRetry(); }
      case Finished(c, ending) => if ending != Cancelled || r.call != Some(c) { r.OnCallFinished(c, ending); }
    }
  }
}
