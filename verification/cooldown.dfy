/**
 Whom a recorded 429 holds back (core/request_manager.py, core/rate_limiter.py). The cooldown of a
 host is tested before a call queues for its limiter; what that means for calls already under way
 is stated exactly, by the earliest time at which their next request can start.
 */
module Cooldown {
  import opened Common
  import opened HostLimit

  /** The call has not yet tested the cooldown for its next request. */
  predicate BeforeWait(p: Phase) { p.Fresh? || p.Sending? || p.Recording? }

  /** The call has tested it, and its next request has not started. */
  predicate Queued(p: Phase) { p.Cooling? || p.AwaitPermit? || p.AwaitLock? || p.Spacing? }

  function LastStart(limiters: seq<Limiter>, k: nat): int {
    if k < |limiters| then limiters[k].last else 0
  }

  /**
   The earliest time at which a queued call can start: by its own wake-up, or by its limiter's clock.
   If `set_limit` may be called (`limits`), a call that still sleeps can wake up to a new limiter whose
   interval is over; otherwise it will queue for the host's present one at the present interval.
   */
  function Earliest(limits: bool, now: int, host: Host, limiters: seq<Limiter>, p: Phase): int
    requires Queued(p)
  {
    match p
    case Cooling(_, until) =>
      if limits || limiters == [] then Max(now, until)
      else Max(Max(now, until), LastStart(limiters, |limiters| - 1) + EffectiveInterval(host))
    case AwaitPermit(_, k, interval) => Max(now, LastStart(limiters, k) + interval)
    case AwaitLock(_, k, interval) => Max(now, LastStart(limiters, k) + interval)
    case Spacing(_, _, _, until) => Max(now, until)
  }

  predicate NotBefore(start: Start, c: nat, sent: nat, time: int) {
    start.call == c && start.attempt > sent ==> time <= start.at
  }

  /** Every start of call `c` after its first `sent` requests is at `time` or later. */
  ghost predicate StartsHeld(limiters: seq<Limiter>, c: nat, sent: nat, time: int) {
    forall k, i :: 0 <= k < |limiters| && 0 <= i < |limiters[k].starts| ==>
      NotBefore(limiters[k].starts[i], c, sent, time)
  }

  /** Continuations with or without `set_limit` calls, and with or without cancelling calls one by one. */
  predicate Allowed(limits: bool, cancels: bool, events: seq<Event>) {
    forall e :: e in events ==> (e.SetLimit? ==> limits) && (e.Cancel? ==> cancels)
  }

  predicate PermitFree(limiters: seq<Limiter>, k: nat) { k < |limiters| && limiters[k].free > 0 }

  /** Nobody else is in line, or sleeps through a cooldown like the call, and a permit is free if it needs one. */
  predicate Alone(s: State, c: nat)
    requires c < |s.calls|
  {
    var p := s.calls[c].phase;
    && (forall d :: 0 <= d < |s.calls| && d != c ==>
          !InLine(s.calls[d].phase) && !(p.Cooling? && s.calls[d].phase.Cooling?))
    && (p.AwaitPermit? ==> PermitFree(s.limiters, p.limiter))
    && (p.Cooling? ==> s.limiters != [] && PermitFree(s.limiters, |s.limiters| - 1))
  }

  /** However the run goes on within these limits, the call's later requests start at `time` or later. */
  ghost predicate HeldUntil(limits: bool, cancels: bool, setup: Setup, events: seq<Event>, s: State, c: nat, time: int)
    requires c < |s.calls|
  {
    forall more, late :: Allowed(limits, cancels, more) && Play(setup, events + more) == Some(late) ==>
      StartsHeld(late.limiters, c, s.calls[c].sent, time)
  }

  // ---- No start is earlier ----------------------------------------------------------------------

  /** What holds a call back until `time`: the host, its queue position, or that time has come. */
  predicate Held(limits: bool, now: int, host: Host, limiters: seq<Limiter>, call: Call, sent: nat, time: int) {
    && sent <= call.sent
    && if call.sent > sent then time <= now
       else if BeforeWait(call.phase) then time <= host.cooldownUntil
       else Queued(call.phase) ==> time <= Earliest(limits, now, host, limiters, call.phase)
  }

  lemma ClocksAdvance(policy: Policy, s: State, x: nat, e: Event, s': State, k: nat)
    requires x < |s.calls| && CallStep(policy, s, x, e) == Some(s') && Inv(policy, s)
    ensures |s'.limiters| == |s.limiters| && LastStart(s.limiters, k) <= LastStart(s'.limiters, k)
  {
    assert CallInv(policy, s.now, |s.limiters|, s.calls[x]);
    MoverKeeps(policy, s, x, e, s');
    hide CallStep, HostInv, CallInv, PermitsInv, LockInv, AllStartsInv;
    if k < |s.limiters| {
      MoverStarts(policy, s, x, e, s', k);
    }
  }

  /** Another call's step may raise the host's slowdown, and never lowers it. */
  lemma MoverKeepsInterval(policy: Policy, s: State, x: nat, e: Event, s': State)
    requires x < |s.calls| && CallStep(policy, s, x, e) == Some(s')
    ensures EffectiveInterval(s.host) <= EffectiveInterval(s'.host)
  {
  }

  /** The call's own step. */
  lemma OwnStepHeld(limits: bool, policy: Policy, s: State, c: nat, e: Event, s': State, sent: nat, time: int)
    requires c < |s.calls| && CallStep(policy, s, c, e) == Some(s') && s'.now == s.now
    requires |s'.calls| == |s.calls| && s.host.cooldownUntil <= s'.host.cooldownUntil
    requires s.calls[c].phase.Spacing? ==> Sleeps(s.limiters, s.calls[c].phase, c)
    requires Held(limits, s.now, s.host, s.limiters, s.calls[c], sent, time)
    ensures Held(limits, s'.now, s'.host, s'.limiters, s'.calls[c], sent, time)
  {
  }

  lemma MoverHeld(limits: bool, policy: Policy, s: State, x: nat, e: Event, s': State, c: nat, sent: nat, time: int)
    requires x < |s.calls| && c < |s.calls| && CallStep(policy, s, x, e) == Some(s') && Inv(policy, s)
    requires Held(limits, s.now, s.host, s.limiters, s.calls[c], sent, time)
    ensures |s'.calls| == |s.calls|
    ensures Held(limits, s'.now, s'.host, s'.limiters, s'.calls[c], sent, time)
  {
    assert CallInv(policy, s.now, |s.limiters|, s.calls[x]);
    MoverKeeps(policy, s, x, e, s');
    MoverKeepsHost(policy, s, x, e, s');
    hide CallStep, CallInv, Held, HostInv;
    if x == c {
      if s.calls[c].phase.Spacing? {
        SleeperHasLock(s.limiters, s.calls, c);
      }
      OwnStepHeld(limits, policy, s, c, e, s', sent, time);
    } else {
      OtherStepHeld(limits, policy, s, x, e, s', c, sent, time);
    }
    hide Inv, Sleeps;
  }

  /** Another call's step. */
  lemma OtherStepHeld(limits: bool, policy: Policy, s: State, x: nat, e: Event, s': State, c: nat, sent: nat, time: int)
    requires x < |s.calls| && c < |s.calls| && CallStep(policy, s, x, e) == Some(s') && Inv(policy, s)
    requires s'.now == s.now && |s'.calls| == |s.calls| && s'.calls[c] == s.calls[c]
    requires s.host.cooldownUntil <= s'.host.cooldownUntil
    requires Held(limits, s.now, s.host, s.limiters, s.calls[c], sent, time)
    ensures Held(limits, s'.now, s'.host, s'.limiters, s'.calls[c], sent, time)
  {
    hide CallStep, Inv, LastStart, EffectiveInterval;
    ClocksAdvance(policy, s, x, e, s', 0);
    var p := s.calls[c].phase;
    if p.AwaitPermit? || p.AwaitLock? {
      ClocksAdvance(policy, s, x, e, s', p.limiter);
    } else if p.Cooling? && s.limiters != [] {
      ClocksAdvance(policy, s, x, e, s', |s.limiters| - 1);
    }
    MoverKeepsInterval(policy, s, x, e, s');
  }

  lemma MoverStartsHeld(limits: bool, policy: Policy, s: State, x: nat, e: Event, s': State, c: nat, sent: nat,
                        time: int)
    requires x < |s.calls| && c < |s.calls| && CallStep(policy, s, x, e) == Some(s') && Inv(policy, s)
    requires Held(limits, s.now, s.host, s.limiters, s.calls[c], sent, time)
    requires StartsHeld(s.limiters, c, sent, time)
    ensures StartsHeld(s'.limiters, c, sent, time)
  {
    assert CallInv(policy, s.now, |s.limiters|, s.calls[x]);
    MoverKeeps(policy, s, x, e, s');
    if s.calls[c].phase.Spacing? {
      SleeperHasLock(s.limiters, s.calls, c);
    }
    hide CallStep, HostInv, CallInv, PermitsInv, ClocksInv, LockInv, AllStartsInv;
    forall k, i | 0 <= k < |s'.limiters| && 0 <= i < |s'.limiters[k].starts|
      ensures NotBefore(s'.limiters[k].starts[i], c, sent, time)
    {
      MoverStarts(policy, s, x, e, s', k);
      if i < |s.limiters[k].starts| {
        assert s'.limiters[k].starts[i] == s.limiters[k].starts[i];
      } else {
        StartedOn(policy, s, x, e, s', k);
      }
    }
  }

  /** The limiter whose clock moves is the one the call queued for. */
  lemma StartedOn(policy: Policy, s: State, x: nat, e: Event, s': State, k: nat)
    requires x < |s.calls| && CallStep(policy, s, x, e) == Some(s')
    requires k < |s.limiters| == |s'.limiters| && |s'.limiters[k].starts| > |s.limiters[k].starts|
    ensures (s.calls[x].phase.AwaitLock? || s.calls[x].phase.Spacing?) && s.calls[x].phase.limiter == k
  {
  }

  lemma StepHeld(limits: bool, policy: Policy, s: State, e: Event, s': State, c: nat, sent: nat, time: int)
    requires Inv(policy, s) && c < |s.calls| && Next(policy, s, e) == Some(s') && (limits || !e.SetLimit?)
    requires Held(limits, s.now, s.host, s.limiters, s.calls[c], sent, time)
    requires StartsHeld(s.limiters, c, sent, time)
    ensures |s'.calls| == |s.calls|
    ensures Held(limits, s'.now, s'.host, s'.limiters, s'.calls[c], sent, time)
    ensures StartsHeld(s'.limiters, c, sent, time)
  {
    if !e.SetLimit? && !e.Tick? {
      hide CallStep, Inv;
      MoverHeld(limits, policy, s, e.c, e, s', c, sent, time);
      MoverStartsHeld(limits, policy, s, e.c, e, s', c, sent, time);
    } else {
      InRange(policy, s, c);
      hide CallStep, Inv;
    }
  }

  /** A queued call waits for a limiter that exists. */
  lemma InRange(policy: Policy, s: State, c: nat)
    requires Inv(policy, s) && c < |s.calls|
    ensures var p := s.calls[c].phase;
            p.AwaitPermit? || p.AwaitLock? || p.Spacing? ==> p.limiter < |s.limiters|
  {
    assert CallInv(policy, s.now, |s.limiters|, s.calls[c]);
  }

  lemma StartsSoFar(policy: Policy, s: State, c: nat, time: int)
    requires Inv(policy, s) && c < |s.calls|
    ensures StartsHeld(s.limiters, c, s.calls[c].sent, time)
  {
    hide HostInv, CallsInv, PermitsInv, ClocksInv, LockInv;
    forall k, i | 0 <= k < |s.limiters| && 0 <= i < |s.limiters[k].starts|
      ensures NotBefore(s.limiters[k].starts[i], c, s.calls[c].sent, time)
    {
      assert StartsInv(s.limiters[k].starts, s.calls);
      assert StartOk(s.limiters[k].starts[i], s.calls);
    }
  }

  lemma {:induction false} RunHeld(limits: bool, cancels: bool, setup: Setup, events: seq<Event>, more: seq<Event>,
                                   s: State, late: State, c: nat, time: int)
    requires Play(setup, events) == Some(s) && Play(setup, events + more) == Some(late) && c < |s.calls|
    requires Allowed(limits, cancels, more)
    requires Held(limits, s.now, s.host, s.limiters, s.calls[c], s.calls[c].sent, time)
    ensures |late.calls| == |s.calls|
    ensures Held(limits, late.now, late.host, late.limiters, late.calls[c], s.calls[c].sent, time)
    ensures StartsHeld(late.limiters, c, s.calls[c].sent, time)
    decreases |more|
  {
    hide Next, Inv, Held, StartsHeld;
    if more == [] {
      assert events + more == events;
      PlayInv(setup, events, s);
      StartsSoFar(setup.policy, s, c, time);
    } else {
      var fewer := more[..|more| - 1];
      assert (events + more)[..|events + more| - 1] == events + fewer;
      var before := Play(setup, events + fewer).value;
      RunHeld(limits, cancels, setup, events, fewer, s, before, c, time);
      PlayInv(setup, events + fewer, before);
      StepHeld(limits, setup.policy, before, more[|more| - 1], late, c, s.calls[c].sent, time);
    }
  }

  // ---- One start is that early ------------------------------------------------------------------

  /** A run and a position at which call `c` starts its next request at `time`. */
  ghost predicate StartsAt(setup: Setup, events: seq<Event>, late: State, k: nat, c: nat, n: nat, time: int) {
    && Play(setup, events) == Some(late) && k < |late.limiters| && late.limiters[k].starts != []
    && c < |late.calls| && late.calls[c].phase == Sending(n, k)
    && var start := late.limiters[k].starts[|late.limiters[k].starts| - 1];
       start.call == c && start.attempt == n && start.at == time
  }

  /** The call sleeps on the lock: it starts when it wakes up. */
  lemma SleeperStarts(setup: Setup, events: seq<Event>, s: State, c: nat)
    returns (more: seq<Event>, late: State)
    requires Play(setup, events) == Some(s) && c < |s.calls| && s.calls[c].phase.Spacing?
    requires s.calls[c].phase.limiter < |s.limiters|
    ensures StartsAt(setup, events + more, late, s.calls[c].phase.limiter, c, s.calls[c].phase.attempt,
                     Max(s.now, s.calls[c].phase.until))
    ensures Allowed(false, false, more)
  {
    hide Play;
    var until := s.calls[c].phase.until;
    var all, now := events, s;
    more := [];
    assert all == events + more;
    if s.now < until {
      all, now := Step(setup, all, now, Tick(until - s.now));
      more := [Tick(until - s.now)];
    }
    all, late := Step(setup, all, now, Spaced(c));
    assert all == events + (more + [Spaced(c)]);
    more := more + [Spaced(c)];
  }

  /** The lock is free: the call takes it and starts as soon as its interval is over. */
  lemma LockerStarts(limits: bool, setup: Setup, events: seq<Event>, s: State, c: nat)
    returns (more: seq<Event>, late: State)
    requires Play(setup, events) == Some(s) && c < |s.calls| && s.calls[c].phase.AwaitLock?
    requires s.calls[c].phase.limiter < |s.limiters| && s.limiters[s.calls[c].phase.limiter].lock.None?
    ensures var p := s.calls[c].phase;
            StartsAt(setup, events + more, late, p.limiter, c, p.attempt,
                     Earliest(limits, s.now, s.host, s.limiters, p))
    ensures Allowed(false, false, more)
  {
    hide Play;
    var all, now := Step(setup, events, s, Lock(c));
    if now.calls[c].phase.Spacing? {
      more, late := SleeperStarts(setup, all, now, c);
      assert events + [Lock(c)] + more == events + ([Lock(c)] + more);
      more := [Lock(c)] + more;
    } else {
      more, late := [Lock(c)], now;
    }
  }

  /** A permit and the lock are free. */
  lemma PermitStarts(limits: bool, setup: Setup, events: seq<Event>, s: State, c: nat)
    returns (more: seq<Event>, late: State)
    requires Play(setup, events) == Some(s) && c < |s.calls| && s.calls[c].phase.AwaitPermit?
    requires s.calls[c].phase.limiter < |s.limiters|
    requires var lim := s.limiters[s.calls[c].phase.limiter]; lim.lock.None? && lim.free > 0
    ensures var p := s.calls[c].phase;
            StartsAt(setup, events + more, late, p.limiter, c, p.attempt,
                     Earliest(limits, s.now, s.host, s.limiters, p))
    ensures Allowed(false, false, more)
  {
    hide Play;
    var all, now := Step(setup, events, s, Acquire(c));
    more, late := LockerStarts(limits, setup, all, now, c);
    assert events + [Acquire(c)] + more == events + ([Acquire(c)] + more);
    more := [Acquire(c)] + more;
  }

  /** A call that holds a limiter's lock or permit may be cancelled, which leaves the clock alone. */
  lemma HolderCancels(setup: Setup, events: seq<Event>, s: State, c: nat, d: nat, k: nat)
    returns (all: seq<Event>, after: State)
    requires Play(setup, events) == Some(s) && c < |s.calls| && d < |s.calls| && d != c && k < |s.limiters|
    requires Holds(s.calls[d].phase, k)
    ensures all == events + [Cancel(d)] && Play(setup, all) == Some(after)
    ensures after.now == s.now && |after.calls| == |s.calls| && after.calls[c] == s.calls[c]
    ensures |after.limiters| == |s.limiters| && after.limiters[k].last == s.limiters[k].last
    ensures after.limiters[k].free == s.limiters[k].free + 1
    ensures after.limiters[k].lock == if s.calls[d].phase.Spacing? then None else s.limiters[k].lock
  {
    hide Play;
    all, after := Step(setup, events, s, Cancel(d));
  }

  lemma LockHolder(policy: Policy, s: State, k: nat)
    requires Inv(policy, s) && k < |s.limiters| && s.limiters[k].lock.Some?
    ensures LockedBySleeper(s.calls, s.limiters[k].lock.value, k)
  {
    hide HostInv, CallsInv, PermitsInv, ClocksInv, AllStartsInv, SleepersLock;
  }

  lemma PermitHolder(policy: Policy, s: State, k: nat) returns (d: nat)
    requires Inv(policy, s) && k < |s.limiters| && s.limiters[k].free == 0
    ensures d < |s.calls| && Holds(s.calls[d].phase, k)
  {
    hide HostInv, CallsInv, LockInv, ClocksInv, AllStartsInv;
    assert |Holders(s.calls, k)| >= 1;
    d :| d in Holders(s.calls, k);
  }

  lemma FreeIsNat(policy: Policy, s: State, k: nat)
    requires Inv(policy, s) && k < |s.limiters|
    ensures s.limiters[k].free >= 0
  {
    hide HostInv, CallsInv, LockInv, ClocksInv, AllStartsInv, Holders;
  }

  /** A call that waits for the lock, whoever holds it. */
  lemma LockWaiterStarts(limits: bool, setup: Setup, events: seq<Event>, s: State, c: nat)
    returns (more: seq<Event>, late: State)
    requires Play(setup, events) == Some(s) && c < |s.calls| && s.calls[c].phase.AwaitLock?
    ensures var p := s.calls[c].phase;
            StartsAt(setup, events + more, late, p.limiter, c, p.attempt,
                     Earliest(limits, s.now, s.host, s.limiters, p))
    ensures Allowed(false, !Alone(s, c), more)
  {
    PlayInv(setup, events, s);
    InRange(setup.policy, s, c);
    hide Play, Inv, Alone, StartsAt, Earliest, Allowed;
    if s.limiters[s.calls[c].phase.limiter].lock.Some? {
      more, late := LockAfterCancel(limits, setup, events, s, c);
    } else {
      more, late := LockerStarts(limits, setup, events, s, c);
      FewerAllowed(more, !Alone(s, c));
    }
  }

  lemma LockTaken(policy: Policy, s: State, c: nat) returns (d: nat)
    requires Inv(policy, s) && c < |s.calls| && s.calls[c].phase.AwaitLock?
    requires s.calls[c].phase.limiter < |s.limiters| && s.limiters[s.calls[c].phase.limiter].lock.Some?
    ensures d < |s.calls| && d != c && s.calls[d].phase.Spacing? && Holds(s.calls[d].phase, s.calls[c].phase.limiter)
    ensures !Alone(s, c)
  {
    LockHolder(policy, s, s.calls[c].phase.limiter);
    d := s.limiters[s.calls[c].phase.limiter].lock.value;
    hide Inv;
  }

  lemma LockAfterCancel(limits: bool, setup: Setup, events: seq<Event>, s: State, c: nat)
    returns (more: seq<Event>, late: State)
    requires Play(setup, events) == Some(s) && c < |s.calls| && s.calls[c].phase.AwaitLock? && Inv(setup.policy, s)
    requires s.calls[c].phase.limiter < |s.limiters| && s.limiters[s.calls[c].phase.limiter].lock.Some?
    ensures var p := s.calls[c].phase;
            StartsAt(setup, events + more, late, p.limiter, c, p.attempt,
                     Earliest(limits, s.now, s.host, s.limiters, p))
    ensures Allowed(false, !Alone(s, c), more)
  {
    hide Play, Inv, Alone, StartsAt, Earliest, Allowed;
    var d := LockTaken(setup.policy, s, c);
    var all, after := HolderCancels(setup, events, s, c, d, s.calls[c].phase.limiter);
    SameEarliest(limits, s, after, c);
    var rest;
    rest, late := LockerStarts(limits, setup, all, after, c);
    more := [Cancel(d)] + rest;
    assert all + rest == events + more;
    CancelAllowed(d, rest);
  }

  /** A call that waits for a permit, whoever holds them. */
  lemma PermitWaiterStarts(limits: bool, setup: Setup, events: seq<Event>, s: State, c: nat)
    returns (more: seq<Event>, late: State)
    requires Play(setup, events) == Some(s) && c < |s.calls| && s.calls[c].phase.AwaitPermit?
    ensures var p := s.calls[c].phase;
            StartsAt(setup, events + more, late, p.limiter, c, p.attempt,
                     Earliest(limits, s.now, s.host, s.limiters, p))
    ensures Allowed(false, !Alone(s, c), more)
  {
    PlayInv(setup, events, s);
    InRange(setup.policy, s, c);
    hide Play, Inv, Alone, StartsAt, Earliest, Allowed;
    var k := s.calls[c].phase.limiter;
    if s.limiters[k].lock.None? && s.limiters[k].free > 0 {
      more, late := PermitStarts(limits, setup, events, s, c);
      FewerAllowed(more, !Alone(s, c));
    } else {
      more, late := PermitAfterCancel(limits, setup, events, s, c);
    }
  }

  lemma PermitAfterCancel(limits: bool, setup: Setup, events: seq<Event>, s: State, c: nat)
    returns (more: seq<Event>, late: State)
    requires Play(setup, events) == Some(s) && c < |s.calls| && s.calls[c].phase.AwaitPermit? && Inv(setup.policy, s)
    requires s.calls[c].phase.limiter < |s.limiters|
    requires var lim := s.limiters[s.calls[c].phase.limiter]; !(lim.lock.None? && lim.free > 0)
    ensures var p := s.calls[c].phase;
            StartsAt(setup, events + more, late, p.limiter, c, p.attempt,
                     Earliest(limits, s.now, s.host, s.limiters, p))
    ensures Allowed(false, !Alone(s, c), more)
  {
    hide Play, Inv, Alone, StartsAt, Earliest, Allowed;
    var d := InTheWay(setup.policy, s, c);
    var all, after := HolderCancels(setup, events, s, c, d, s.calls[c].phase.limiter);
    SameEarliest(limits, s, after, c);
    var rest;
    rest, late := PermitStarts(limits, setup, all, after, c);
    more := [Cancel(d)] + rest;
    assert all + rest == events + more;
    CancelAllowed(d, rest);
  }

  lemma FewerAllowed(events: seq<Event>, cancels: bool)
    requires Allowed(false, false, events)
    ensures Allowed(false, cancels, events)
  {
  }

  lemma CancelAllowed(d: nat, events: seq<Event>)
    requires Allowed(false, false, events)
    ensures Allowed(false, true, [Cancel(d)] + events)
  {
  }

  /** A call that is not alone waits for the lock of another one, or for one of its permits. */
  lemma InTheWay(policy: Policy, s: State, c: nat) returns (d: nat)
    requires Inv(policy, s) && c < |s.calls| && s.calls[c].phase.AwaitPermit? && s.calls[c].phase.limiter < |s.limiters|
    requires var lim := s.limiters[s.calls[c].phase.limiter]; !(lim.lock.None? && lim.free > 0)
    ensures var lim := s.limiters[s.calls[c].phase.limiter];
      && d < |s.calls| && d != c && Holds(s.calls[d].phase, s.calls[c].phase.limiter)
      && lim.free >= 0 && !Alone(s, c) && (lim.lock.Some? ==> s.calls[d].phase.Spacing?)
  {
    var k := s.calls[c].phase.limiter;
    FreeIsNat(policy, s, k);
    if s.limiters[k].lock.Some? {
      LockHolder(policy, s, k);
      d := s.limiters[k].lock.value;
    } else {
      d := PermitHolder(policy, s, k);
    }
    hide Inv;
  }

  /** Cancelling somebody leaves the earliest start of a waiting call as it is. */
  lemma SameEarliest(limits: bool, s: State, after: State, c: nat)
    requires c < |s.calls| == |after.calls| && after.calls[c] == s.calls[c]
    requires s.calls[c].phase.AwaitPermit? || s.calls[c].phase.AwaitLock?
    requires s.calls[c].phase.limiter < |s.limiters| == |after.limiters| && after.now == s.now
    requires after.limiters[s.calls[c].phase.limiter].last == s.limiters[s.calls[c].phase.limiter].last
    ensures Earliest(limits, after.now, after.host, after.limiters, s.calls[c].phase)
         == Earliest(limits, s.now, s.host, s.limiters, s.calls[c].phase)
  {
  }

  /** The host gets a limiter whose interval is already over. */
  lemma LimiterIsReplaced(setup: Setup, events: seq<Event>, s: State, c: nat)
    returns (more: seq<Event>, after: State)
    requires Play(setup, events) == Some(s) && c < |s.calls| && s.host.slowdown >= 0
    ensures Play(setup, events + more) == Some(after) && after.now == s.now && after.calls == s.calls
    ensures |after.limiters| == |s.limiters| + 1
    ensures var lim := after.limiters[|s.limiters|];
            lim.free > 0 && lim.lock.None? && lim.last + EffectiveInterval(after.host) == s.now
    ensures Allowed(true, false, more)
  {
    hide Play;
    var other := if s.host.maxConcurrency == 1 then 2 else 1;
    var all: seq<Event>;
    all, after := Step(setup, events, s, SetLimit(s.host.slowdown, other));
    all, after := Step(setup, all, after, SetLimit(0, other));
    more := [SetLimit(s.host.slowdown, other), SetLimit(0, other)];
    assert all == events + more;
  }

  /** A call that slept through its cooldown wakes up to a limiter that was replaced meanwhile. */
  lemma AwakeStarts(setup: Setup, events: seq<Event>, s: State, c: nat)
    returns (more: seq<Event>, late: State, k: nat)
    requires Play(setup, events) == Some(s) && c < |s.calls| && s.calls[c].phase.Cooling?
    requires s.calls[c].phase.until <= s.now && s.host.slowdown >= 0
    ensures StartsAt(setup, events + more, late, k, c, s.calls[c].phase.attempt, s.now)
    ensures Allowed(true, false, more)
  {
    hide Play;
    var replace, now := LimiterIsReplaced(setup, events, s, c);
    k := |s.limiters|;
    var all, queued := Step(setup, events + replace, now, Cooled(c));
    more, late := PermitStarts(true, setup, all, queued, c);
    assert all + more == events + (replace + [Cooled(c)] + more);
    more := replace + [Cooled(c)] + more;
  }

  /** Without `set_limit` it queues for the host's present limiter. */
  lemma AwakeQueues(setup: Setup, events: seq<Event>, s: State, c: nat)
    returns (more: seq<Event>, late: State)
    requires Play(setup, events) == Some(s) && c < |s.calls| && s.calls[c].phase.Cooling?
    requires s.calls[c].phase.until <= s.now && s.limiters != []
    ensures StartsAt(setup, events + more, late, |s.limiters| - 1, c, s.calls[c].phase.attempt,
                     Max(s.now, LastStart(s.limiters, |s.limiters| - 1) + EffectiveInterval(s.host)))
    ensures Allowed(false, !Alone(s, c), more)
  {
    hide Play;
    var all, queued := Step(setup, events, s, Cooled(c));
    more, late := PermitWaiterStarts(false, setup, all, queued, c);
    assert all + more == events + ([Cooled(c)] + more);
    more := [Cooled(c)] + more;
  }

  lemma {:induction false} LimiterExists(setup: Setup, events: seq<Event>, s: State)
    requires Play(setup, events) == Some(s)
    ensures s.limiters != []
  {
    if events != [] {
      LimiterExists(setup, events[..|events| - 1], Play(setup, events[..|events| - 1]).value);
    }
  }

  /** The cooldown the call sleeps through comes to its end. */
  lemma CoolsDown(setup: Setup, events: seq<Event>, s: State, until: int) returns (wait: seq<Event>, now: State)
    requires Play(setup, events) == Some(s)
    ensures Play(setup, events + wait) == Some(now) && now == s.(now := Max(s.now, until))
    ensures Allowed(false, false, wait)
  {
    hide Play;
    if s.now < until {
      var all;
      all, now := Step(setup, events, s, Tick(until - s.now));
      wait := [Tick(until - s.now)];
    } else {
      wait, now := [], s;
      assert events + wait == events;
    }
  }

  lemma CoolerStarts(limits: bool, setup: Setup, events: seq<Event>, s: State, c: nat)
    returns (more: seq<Event>, late: State, k: nat)
    requires Play(setup, events) == Some(s) && c < |s.calls| && s.calls[c].phase.Cooling?
    ensures var p := s.calls[c].phase;
            StartsAt(setup, events + more, late, k, c, p.attempt, Earliest(limits, s.now, s.host, s.limiters, p))
    ensures Allowed(limits, !Alone(s, c), more)
  {
    hide Play, StartsAt, LastStart, EffectiveInterval;
    SlowdownIsNat(setup, events, s);
    LimiterExists(setup, events, s);
    var wait, now := CoolsDown(setup, events, s, s.calls[c].phase.until);
    if limits {
      more, late, k := AwakeStarts(setup, events + wait, now, c);
    } else {
      k := |s.limiters| - 1;
      more, late := AwakeQueues(setup, events + wait, now, c);
    }
    assert events + wait + more == events + (wait + more);
    more := wait + more;
  }

  /**
   Every queued call can start at its earliest time: some continuation of the run does it. If the call is
   alone, nobody needs to be cancelled for that.
   */
  lemma EarliestIsReached(limits: bool, setup: Setup, events: seq<Event>, s: State, c: nat)
    returns (more: seq<Event>, late: State, k: nat)
    requires Play(setup, events) == Some(s) && c < |s.calls| && Queued(s.calls[c].phase)
    ensures var p := s.calls[c].phase;
            StartsAt(setup, events + more, late, k, c, p.attempt, Earliest(limits, s.now, s.host, s.limiters, p))
    ensures Allowed(limits, !Alone(s, c), more)
  {
    PlayInv(setup, events, s);
    InRange(setup.policy, s, c);
    hide Play, Inv, StartsAt;
    var p := s.calls[c].phase;
    if p.Cooling? {
      more, late, k := CoolerStarts(limits, setup, events, s, c);
    } else {
      k := p.limiter;
      if p.AwaitPermit? {
        more, late := PermitWaiterStarts(limits, setup, events, s, c);
      } else if p.AwaitLock? {
        more, late := LockWaiterStarts(limits, setup, events, s, c);
      } else {
        more, late := SleeperStarts(setup, events, s, c);
      }
    }
  }

  // ---- Exactly who is held back -----------------------------------------------------------------

  lemma QueuedAttempt(policy: Policy, s: State, c: nat)
    requires Inv(policy, s) && c < |s.calls| && Queued(s.calls[c].phase)
    ensures s.calls[c].phase.attempt == s.calls[c].sent + 1
  {
    assert CallInv(policy, s.now, |s.limiters|, s.calls[c]);
  }

  lemma AllRunsHeld(limits: bool, cancels: bool, setup: Setup, events: seq<Event>, s: State, c: nat, time: int)
    requires Play(setup, events) == Some(s) && c < |s.calls|
    requires Held(limits, s.now, s.host, s.limiters, s.calls[c], s.calls[c].sent, time)
    ensures HeldUntil(limits, cancels, setup, events, s, c, time)
  {
    hide Play, Held, StartsHeld;
    forall more, late | Allowed(limits, cancels, more) && Play(setup, events + more) == Some(late)
      ensures StartsHeld(late.limiters, c, s.calls[c].sent, time)
    {
      RunHeld(limits, cancels, setup, events, more, s, late, c, time);
    }
  }

  /**
   `Earliest` bounds all continuations, and is the exact bound with further `set_limit` calls and
   without: in every reached state, whatever the clock, the host, the limiters and the other calls do
   next, a queued call's requests start at `time` or later in all continuations if and only if `time` is
   not after its earliest start. Where calls are not cancelled one by one it is exact for a call alone.
   */
  lemma EarliestIsExact(limits: bool, cancels: bool, setup: Setup, events: seq<Event>, s: State, c: nat, time: int)
    requires Play(setup, events) == Some(s) && c < |s.calls| && Queued(s.calls[c].phase)
    ensures time <= Earliest(limits, s.now, s.host, s.limiters, s.calls[c].phase) ==>
              HeldUntil(limits, cancels, setup, events, s, c, time)
    ensures (cancels || Alone(s, c)) && HeldUntil(limits, cancels, setup, events, s, c, time) ==>
              time <= Earliest(limits, s.now, s.host, s.limiters, s.calls[c].phase)
  {
    var p := s.calls[c].phase;
    if time <= Earliest(limits, s.now, s.host, s.limiters, p) {
      AllRunsHeld(limits, cancels, setup, events, s, c, time);
    } else if cancels || Alone(s, c) {
      PlayInv(setup, events, s);
      QueuedAttempt(setup.policy, s, c);
      var more, late, k := EarliestIsReached(limits, setup, events, s, c);
      hide Play, Inv, Earliest;
      var i := |late.limiters[k].starts| - 1;
      assert !NotBefore(late.limiters[k].starts[i], c, s.calls[c].sent, time);
      assert !StartsHeld(late.limiters, c, s.calls[c].sent, time);
      assert Allowed(limits, cancels, more);
    }
  }

  /** The call has ended or not tested the cooldown, or is kept back as long anyway. */
  predicate KeptBack(limits: bool, s: State, c: nat)
    requires c < |s.calls|
  {
    var p := s.calls[c].phase;
    Queued(p) ==> s.host.cooldownUntil <= Earliest(limits, s.now, s.host, s.limiters, p)
  }

  /**
   Exactly which calls the host's present cooldown holds back, in every reached state: those that
   have ended or not yet tested the cooldown for their next request, and those already queued whose
   own wake-up or limiter keeps them back as long anyway. A call that is alone slips through even if
   nobody is ever cancelled.
   */
  lemma CooldownHoldsBack(limits: bool, cancels: bool, setup: Setup, events: seq<Event>, s: State, c: nat)
    requires Play(setup, events) == Some(s) && c < |s.calls|
    ensures KeptBack(limits, s, c) ==> HeldUntil(limits, cancels, setup, events, s, c, s.host.cooldownUntil)
    ensures cancels || Alone(s, c) ==>
              (HeldUntil(limits, cancels, setup, events, s, c, s.host.cooldownUntil) <==> KeptBack(limits, s, c))
  {
    if Queued(s.calls[c].phase) {
      EarliestIsExact(limits, cancels, setup, events, s, c, s.host.cooldownUntil);
    } else {
      AllRunsHeld(limits, cancels, setup, events, s, c, s.host.cooldownUntil);
    }
    hide Play, HeldUntil, Earliest, Alone;
  }

  /** The second call has passed the cooldown test when the first one's 429 is recorded. */
  lemma RecordedWhileWaiting(setup: Setup) returns (events: seq<Event>, s: State)
    requires setup.concurrency >= 1 && setup.calls >= 2 && setup.policy.maxCooldown > 0
    ensures Play(setup, events) == Some(s)
    ensures s.now == setup.start && s.host.cooldownUntil == setup.start + setup.policy.maxCooldown
    ensures |s.calls| == setup.calls && s.calls[1] == Call(AwaitPermit(1, 0, setup.interval), 0, [])
    ensures |s.limiters| == 1 && s.limiters[0].last == s.now
    ensures |s.throttles| == 1 && s.throttles[0].at == s.now
    ensures Alone(s, 1) && Allowed(false, false, events)
  {
    s := Initial(setup.interval, setup.concurrency, setup.calls, setup.start);
    assert Play(setup, []) == Some(s);
    hide Play;
    PassesThrough(setup, [], s, 0);
    events, s := [] + Through(0), Passed(s, 0);
    events, s := Step(setup, events, s, Begin(1));
    events, s := Step(setup, events, s, Respond(0, TooMany(Some(setup.policy.maxCooldown))));
    events, s := Step(setup, events, s, Record(0));
  }

  /**
   The exception is real for every setup whose interval is shorter than its longest cooldown: a call
   that passed the test starts one interval after a 429 was recorded, during the cooldown. Nobody is
   cancelled and no other call waits.
   */
  lemma WaitingCallSlipsThrough(setup: Setup) returns (events: seq<Event>, s: State, more: seq<Event>, late: State)
    requires setup.concurrency >= 1 && setup.calls >= 2 && setup.interval < setup.policy.maxCooldown
    ensures Play(setup, events) == Some(s) && s.throttles != []
    ensures StartsAt(setup, events + more, late, 0, 1, 1, setup.start + setup.interval)
    ensures s.now <= setup.start + setup.interval < s.host.cooldownUntil
    ensures Allowed(false, false, events + more)
  {
    events, s := RecordedWhileWaiting(setup);
    hide Play;
    more, late := PermitWaiterStarts(false, setup, events, s, 1);
  }

  // ---- Every call can still be answered ---------------------------------------------------------

  /** It tests the cooldown for its next request. */
  lemma TestsCooldown(setup: Setup, events: seq<Event>, s: State, c: nat) returns (all: seq<Event>, now: State)
    requires Play(setup, events) == Some(s) && c < |s.calls|
    requires s.calls[c].phase.Fresh? || s.calls[c].phase.Recording?
    ensures events <= all && Play(setup, all) == Some(now) && c < |now.calls|
    ensures Queued(now.calls[c].phase) || (s.calls[c].phase.Recording? && s.calls[c].phase.attempt >= MAX_ATTEMPTS)
  {
    hide Play;
    all, now := Step(setup, events, s, if s.calls[c].phase.Fresh? then Begin(c) else Record(c));
  }

  /**
   No call is ever stuck: in every reached state a call that has not ended, and whose third request was not
   refused, can still be sent and answered, whatever the other calls hold.
   */
  lemma EveryCallCanBeAnswered(setup: Setup, events: seq<Event>, s: State, c: nat)
    returns (all: seq<Event>, late: State)
    requires Play(setup, events) == Some(s) && c < |s.calls| && !s.calls[c].phase.Done?
    requires s.calls[c].phase.Recording? ==> s.calls[c].phase.attempt < MAX_ATTEMPTS
    ensures Play(setup, all) == Some(late) && c < |late.calls| && late.calls[c].phase == Done(Answered)
  {
    hide Play, StartsAt, Earliest;
    all, late := events, s;
    if s.calls[c].phase.Fresh? || s.calls[c].phase.Recording? {
      all, late := TestsCooldown(setup, events, s, c);
    }
    if Queued(late.calls[c].phase) {
      all, late := GetsSent(setup, all, late, c);
    }
    PlayInv(setup, all, late);
    SendingInRange(setup.policy, late, c);
    hide Inv;
    all, late := Step(setup, all, late, Respond(c, Response));
  }

  lemma GetsSent(setup: Setup, events: seq<Event>, s: State, c: nat) returns (all: seq<Event>, late: State)
    requires Play(setup, events) == Some(s) && c < |s.calls| && Queued(s.calls[c].phase)
    ensures Play(setup, all) == Some(late) && c < |late.calls| && late.calls[c].phase.Sending?
  {
    hide Play;
    var more, k;
    more, late, k := EarliestIsReached(true, setup, events, s, c);
    all := events + more;
  }

  lemma SendingInRange(policy: Policy, s: State, c: nat)
    requires Inv(policy, s) && c < |s.calls| && s.calls[c].phase.Sending?
    ensures s.calls[c].phase.limiter < |s.limiters|
  {
    assert CallInv(policy, s.now, |s.limiters|, s.calls[c]);
  }
}
