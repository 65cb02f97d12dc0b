/**
 Per-host throttling (core/rate_limiter.py, core/request_manager.py): rate limiters, the state
 a host keeps about HTTP 429 answers (section 4 of RFC 6585), and the retry loop of a request,
 under any number of concurrent calls and `set_limit` calls. Times are integers of one clock.
 */
module HostLimit {
  import opened Common

  const MAX_ATTEMPTS := 3

  /** The three non-negative 429 settings of a request manager. */
  datatype Policy = Policy(defaultCooldown: nat, increase: nat, maxCooldown: nat)

  datatype Host = Host(
    baseInterval: int, maxConcurrency: int,
    cooldownUntil: int, cooldownEvents: nat, lastRetryAfter: Option<int>, slowdown: int)

  function NewHost(interval: int, maxConcurrency: int): Host {
    Host(interval, maxConcurrency, 0, 0, None, 0)
  }

  function EffectiveInterval(h: Host): int { h.baseInterval + h.slowdown }

  /** `retryAfter` is the parsed header, a non-negative number of seconds or absent. */
  function CooldownSeconds(policy: Policy, retryAfter: Option<nat>): nat {
    Min(if retryAfter.Some? then retryAfter.value else policy.defaultCooldown, policy.maxCooldown)
  }

  /** The header's seconds, or the default without one, cut off at the maximum. */
  predicate IsCooldown(policy: Policy, retryAfter: Option<nat>, seconds: int) {
    && seconds <= policy.maxCooldown
    && (retryAfter.Some? ==>
          seconds <= retryAfter.value && (seconds == retryAfter.value || seconds == policy.maxCooldown))
    && (retryAfter.None? ==>
          seconds <= policy.defaultCooldown
          && (seconds == policy.defaultCooldown || seconds == policy.maxCooldown))
  }

  /** The state after `set_limit` with valid limits. */
  function LimitedHost(h: Host, interval: int, maxConcurrency: int): Host {
    h.(baseInterval := interval, maxConcurrency := maxConcurrency)
  }

  /** The state after a 429 whose arrival was timed at `at`. */
  function Recorded(policy: Policy, h: Host, cooldown: nat, at: int): Host {
    h.(cooldownUntil := Max(h.cooldownUntil, at + cooldown), cooldownEvents := h.cooldownEvents + 1,
       lastRetryAfter := Some(cooldown), slowdown := h.slowdown + policy.increase)
  }

  /** The state a host keeps, as the object the request manager updates in place. */
  class HostState {
    var baseInterval: int
    var maxConcurrency: int
    var cooldownUntil: int
    var cooldownEvents: nat
    var lastRetryAfter: Option<int>
    var slowdown: int

    function View(): Host
      reads this
    {
      Host(baseInterval, maxConcurrency, cooldownUntil, cooldownEvents, lastRetryAfter, slowdown)
    }

    constructor (interval: int, maxConcurrency: int)
      ensures View() == NewHost(interval, maxConcurrency)
    {
      baseInterval, this.maxConcurrency := interval, maxConcurrency;
      cooldownUntil, cooldownEvents, lastRetryAfter, slowdown := 0, 0, None, 0;
    }

    method Record429(policy: Policy, retryAfter: Option<nat>, at: int)
      modifies this
      ensures View() == Recorded(policy, old(View()), CooldownSeconds(policy, retryAfter), at)
      ensures lastRetryAfter.Some? && IsCooldown(policy, retryAfter, lastRetryAfter.value)
      ensures cooldownUntil == Max(old(cooldownUntil), at + lastRetryAfter.value)
    {
      var cooldown := CooldownSeconds(policy, retryAfter);
      cooldownUntil := Max(cooldownUntil, at + cooldown);
      cooldownEvents := cooldownEvents + 1;
      lastRetryAfter := Some(cooldown);
      slowdown := slowdown + policy.increase;
    }

    /** `set_limit` on a known host; `replace` tells that a new limiter takes over, as in `Limited`. */
    method SetLimit(interval: int, concurrency: int) returns (ok: bool, replace: bool)
      modifies this
      ensures ok <==> 0 <= interval && 1 <= concurrency
      ensures replace <==> ok && concurrency != old(maxConcurrency)
      ensures View() == if ok then LimitedHost(old(View()), interval, concurrency) else old(View())
      ensures forall s: State {:trigger Limited(s, interval, concurrency)} :: ok && s.host == old(View()) ==>
                && View() == Limited(s, interval, concurrency).host
                && (replace <==> |Limited(s, interval, concurrency).limiters| == |s.limiters| + 1)
    {
      if interval < 0 || concurrency < 1 {
        return false, false;
      }
      baseInterval := interval;
      replace := maxConcurrency != concurrency;
      if replace {
        maxConcurrency := concurrency;
      }
      return true, replace;
    }
  }

  /** One request start: which attempt of which call, when, and the interval it had to keep. */
  datatype Start = Start(call: nat, attempt: nat, at: int, interval: int)

  datatype Limiter = Limiter(permits: int, free: int, last: int, lock: Option<nat>, starts: seq<Start>)

  datatype Outcome = Answered | Dropped | RateLimited | CallCancelled

  /** Where one call of `_make_request` stands. */
  datatype Phase =
    | Fresh
    | Cooling(attempt: nat, until: int)
    | AwaitPermit(attempt: nat, limiter: nat, interval: int)
    | AwaitLock(attempt: nat, limiter: nat, interval: int)
    | Spacing(attempt: nat, limiter: nat, interval: int, until: int)
    | Sending(attempt: nat, limiter: nat)
    | Recording(attempt: nat, cooldown: nat, at: int)
    | Done(outcome: Outcome)

  /** A call, the number of requests it has sent, and the ends of the cooldowns of its own 429s. */
  datatype Call = Call(phase: Phase, sent: nat, ends: seq<int>)

  /** A recorded 429: when it arrived and the cooldown computed for it. */
  datatype Throttle = Throttle(at: int, cooldown: nat)

  datatype State = State(now: int, host: Host, throttles: seq<Throttle>, limiters: seq<Limiter>, calls: seq<Call>)

  datatype Answer = Response | TooMany(retryAfter: Option<nat>) | Failure

  datatype Event =
    | Begin(c: nat) | Cooled(c: nat) | Acquire(c: nat) | Lock(c: nat) | Spaced(c: nat)
    | Respond(c: nat, answer: Answer) | Record(c: nat) | Cancel(c: nat)
    | SetLimit(interval: int, concurrency: int)
    | Tick(elapsed: int)

  function NewLimiter(interval: int, concurrency: int, now: int): Limiter {
    Limiter(concurrency, concurrency, now - interval, None, [])
  }

  function Initial(interval: int, concurrency: int, calls: nat, now: int): State {
    State(now, NewHost(interval, concurrency), [], [NewLimiter(interval, concurrency, now)],
          seq(calls, _ => Call(Fresh, 0, [])))
  }

  /** Call `c` enters a phase and limiter `k` takes a new state. */
  function Moved(s: State, c: nat, call: Call, k: nat, lim: Limiter): State
    requires c < |s.calls| && k < |s.limiters|
  {
    s.(calls := s.calls[c := call], limiters := s.limiters[k := lim])
  }

  /** The start of a request: the limiter's clock moves, and its lock is free again. */
  function Begun(s: State, c: nat, n: nat, k: nat, interval: int): State
    requires c < |s.calls| && k < |s.limiters|
  {
    Moved(s, c, Call(Sending(n, k), s.calls[c].sent + 1, s.calls[c].ends), k,
          s.limiters[k].(last := s.now, lock := None,
                         starts := s.limiters[k].starts + [Start(c, n, s.now, interval)]))
  }

  /** The permit goes back, and with it the lock when the call held it. */
  function Released(lim: Limiter, unlock: bool): Limiter {
    lim.(free := lim.free + 1, lock := if unlock then None else lim.lock)
  }

  function Stop(s: State, c: nat, phase: Phase): State
    requires c < |s.calls|
  {
    s.(calls := s.calls[c := s.calls[c].(phase := phase)])
  }

  /** What call `c` does with the lock: it starts at once, or holds the lock and sleeps first. */
  function Locked(s: State, c: nat, n: nat, k: nat, interval: int): State
    requires c < |s.calls| && k < |s.limiters|
  {
    var elapsed := s.now - s.limiters[k].last;
    if elapsed < interval
    then Moved(s, c, s.calls[c].(phase := Spacing(n, k, interval, s.now + (interval - elapsed))),
               k, s.limiters[k].(lock := Some(c)))
    else Begun(s, c, n, k, interval)
  }

  function Answered429(policy: Policy, s: State, c: nat, n: nat, cooldown: nat, at: int): State
    requires c < |s.calls|
  {
    var host := Recorded(policy, s.host, cooldown, at);
    var phase := if n >= MAX_ATTEMPTS then Done(RateLimited) else Waiting(s, n + 1, host);
    s.(host := host, throttles := s.throttles + [Throttle(at, cooldown)],
       calls := s.calls[c := Call(phase, s.calls[c].sent, s.calls[c].ends + [at + cooldown])])
  }

  /** `_wait_for_host_cooldown` and what follows it: without a cooldown left, nothing is awaited. */
  function Waiting(s: State, n: nat, host: Host): Phase {
    if host.cooldownUntil > s.now || s.limiters == [] then Cooling(n, Max(s.now, host.cooldownUntil))
    else AwaitPermit(n, |s.limiters| - 1, EffectiveInterval(host))
  }

  /** The call waits in the line of a limiter, or sleeps on its lock. */
  predicate InLine(p: Phase) { p.AwaitPermit? || p.AwaitLock? || p.Spacing? }

  predicate HasPermit(p: Phase) { p.AwaitLock? || p.Spacing? || p.Sending? }

  /** A cancelled call gives back its permit and, when asleep on it, the lock. */
  function Cancelled(s: State, c: nat): Option<State>
    requires c < |s.calls|
  {
    var call := s.calls[c].(phase := Done(CallCancelled));
    var phase := s.calls[c].phase;
    if phase.Done? || phase.Fresh? then None
    else if HasPermit(phase) then
      var k := phase.limiter;
      if k < |s.limiters| then Some(Moved(s, c, call, k, Released(s.limiters[k], phase.Spacing?))) else None
    else Some(s.(calls := s.calls[c := call]))
  }

  function CallStep(policy: Policy, s: State, c: nat, e: Event): Option<State>
    requires c < |s.calls|
  {
    var call := s.calls[c];
    match (call.phase, e)
    case (Fresh, Begin(_)) => Some(Stop(s, c, Waiting(s, 1, s.host)))
    case (Cooling(n, until), Cooled(_)) =>
      if until <= s.now && s.limiters != []
      then Some(Stop(s, c, AwaitPermit(n, |s.limiters| - 1, EffectiveInterval(s.host)))) else None
    case (AwaitPermit(n, k, interval), Acquire(_)) =>
      if k < |s.limiters| && s.limiters[k].free > 0
      then Some(Moved(s, c, call.(phase := AwaitLock(n, k, interval)), k,
                      s.limiters[k].(free := s.limiters[k].free - 1)))
      else None
    case (AwaitLock(n, k, interval), Lock(_)) =>
      if k < |s.limiters| && s.limiters[k].lock.None? then Some(Locked(s, c, n, k, interval)) else None
    case (Spacing(n, k, interval, until), Spaced(_)) =>
      if k < |s.limiters| && until <= s.now then Some(Begun(s, c, n, k, interval)) else None
    case (Sending(n, k), Respond(_, answer)) =>
      if k < |s.limiters| then
        Some(Moved(s, c,
                   call.(phase := match answer
                                  case Response => Done(Answered)
                                  case Failure => Done(Dropped)
                                  case TooMany(after) => Recording(n, CooldownSeconds(policy, after), s.now)),
                   k, Released(s.limiters[k], false)))
      else None
    case (Recording(n, cooldown, at), Record(_)) => Some(Answered429(policy, s, c, n, cooldown, at))
    case (_, Cancel(_)) => Cancelled(s, c)
    case (_, _) => None
  }

  /** A different concurrency installs a fresh limiter; calls under way keep the old one. */
  function Limited(s: State, interval: int, concurrency: int): State {
    var host := LimitedHost(s.host, interval, concurrency);
    if concurrency == s.host.maxConcurrency then s.(host := host)
    else s.(host := host, limiters := s.limiters + [NewLimiter(interval, concurrency, s.now)])
  }

  function Next(policy: Policy, s: State, e: Event): Option<State> {
    match e
    case SetLimit(interval, concurrency) =>
      if 0 <= interval && 1 <= concurrency then Some(Limited(s, interval, concurrency)) else None
    case Tick(elapsed) => if 0 < elapsed then Some(s.(now := s.now + elapsed)) else None
    case _ => if e.c < |s.calls| then CallStep(policy, s, e.c, e) else None
  }

  datatype Setup = Setup(policy: Policy, interval: nat, concurrency: nat, calls: nat, start: nat)

  function Play(setup: Setup, events: seq<Event>): Option<State> {
    if events == [] then
      if setup.concurrency >= 1
      then Some(Initial(setup.interval, setup.concurrency, setup.calls, setup.start)) else None
    else
      match Play(setup, events[..|events| - 1])
      case None => None
      case Some(s) => Next(setup.policy, s, events[|events| - 1])
  }

  // ---- The 429 state of the host ----------------------------------------------------------------

  /** The host state is the summary of all recorded 429s. */
  ghost predicate HostInv(policy: Policy, now: int, host: Host, throttles: seq<Throttle>) {
    && host.cooldownEvents == |throttles|
    && host.slowdown == policy.increase * |throttles|
    && host.lastRetryAfter == (if throttles == [] then None else Some(throttles[|throttles| - 1].cooldown))
    && (forall i :: 0 <= i < |throttles| ==> throttles[i].at <= now && throttles[i].cooldown <= policy.maxCooldown)
    && UntilIsLatest(host.cooldownUntil, throttles)
    && host.baseInterval >= 0
  }

  /** `until` is the latest end of any recorded cooldown, 0 when there is none later. */
  ghost predicate UntilIsLatest(until: int, throttles: seq<Throttle>) {
    && until >= 0
    && (forall i :: 0 <= i < |throttles| ==> throttles[i].at + throttles[i].cooldown <= until)
    && (until > 0 ==> exists i :: 0 <= i < |throttles| && throttles[i].at + throttles[i].cooldown == until)
  }

  lemma RecordKeepsHost(policy: Policy, now: int, host: Host, throttles: seq<Throttle>, cooldown: nat, at: int)
    requires HostInv(policy, now, host, throttles)
    requires at <= now && cooldown <= policy.maxCooldown
    ensures HostInv(policy, now, Recorded(policy, host, cooldown, at), throttles + [Throttle(at, cooldown)])
  {
    var more := throttles + [Throttle(at, cooldown)];
    var until := Max(host.cooldownUntil, at + cooldown);
    assert policy.increase * |more| == policy.increase * |throttles| + policy.increase;
    assert more[|throttles|].at + more[|throttles|].cooldown == at + cooldown;
    if until > 0 && until == host.cooldownUntil {
      var i :| 0 <= i < |throttles| && throttles[i].at + throttles[i].cooldown == until;
      assert more[i] == throttles[i];
    }
  }

  // ---- The course of one call -------------------------------------------------------------------

  /** How far a call is: what it sent, which 429s it saw, and that its own cooldown is over. */
  ghost predicate CallInv(policy: Policy, now: int, limiters: int, call: Call) {
    && 0 <= |call.ends| <= MAX_ATTEMPTS
    && call.sent <= MAX_ATTEMPTS
    && (call.phase.Done? && call.phase.outcome == RateLimited <==> |call.ends| == MAX_ATTEMPTS)
    && match call.phase
       case Fresh => call.sent == 0 && call.ends == []
       case Cooling(n, until) => AtAttempt(call, n) && (n >= 2 ==> call.ends[n - 2] <= until)
       case AwaitPermit(n, k, interval) => AtAttempt(call, n) && k < limiters && OwnCooldownOver(call, n, now)
       case AwaitLock(n, k, interval) => AtAttempt(call, n) && k < limiters && OwnCooldownOver(call, n, now)
       case Spacing(n, k, interval, until) => AtAttempt(call, n) && k < limiters && OwnCooldownOver(call, n, now)
       case Sending(n, k) => 1 <= n <= MAX_ATTEMPTS && call.sent == n && |call.ends| == n - 1 && k < limiters
       case Recording(n, cooldown, at) =>
         1 <= n <= MAX_ATTEMPTS && call.sent == n && |call.ends| == n - 1
         && at <= now && cooldown <= policy.maxCooldown
       case Done(outcome) =>
         match outcome
         case Answered => call.sent == |call.ends| + 1
         case Dropped => call.sent == |call.ends| + 1
         case RateLimited => call.sent == MAX_ATTEMPTS
         case CallCancelled => |call.ends| <= call.sent <= |call.ends| + 1
  }

  /** About to make attempt `n`: every earlier attempt was sent and answered by a 429. */
  predicate AtAttempt(call: Call, n: nat) {
    1 <= n <= MAX_ATTEMPTS && call.sent == n - 1 && |call.ends| == n - 1
  }

  predicate OwnCooldownOver(call: Call, n: nat, at: int) {
    n >= 2 && n - 2 < |call.ends| ==> call.ends[n - 2] <= at
  }

  ghost predicate CallsInv(policy: Policy, now: int, limiters: int, calls: seq<Call>) {
    forall c :: 0 <= c < |calls| ==> CallInv(policy, now, limiters, calls[c])
  }

  /** A call's record only grows. */
  predicate Grew(before: Call, after: Call) {
    before.sent <= after.sent && before.ends <= after.ends
  }

  /** One call's step touches that call and one limiter only, and keeps the call's invariant. */
  lemma MoverKeeps(policy: Policy, s: State, c: nat, e: Event, s': State)
    requires c < |s.calls| && CallStep(policy, s, c, e) == Some(s')
    requires CallInv(policy, s.now, |s.limiters|, s.calls[c])
    ensures |s'.calls| == |s.calls| && s'.calls == s.calls[c := s'.calls[c]]
    ensures s'.now == s.now && |s'.limiters| == |s.limiters|
    ensures CallInv(policy, s'.now, |s'.limiters|, s'.calls[c])
    ensures Grew(s.calls[c], s'.calls[c])
  {
  }

  lemma MoverKeepsHost(policy: Policy, s: State, c: nat, e: Event, s': State)
    requires c < |s.calls| && CallStep(policy, s, c, e) == Some(s')
    requires CallInv(policy, s.now, |s.limiters|, s.calls[c])
    requires HostInv(policy, s.now, s.host, s.throttles)
    ensures HostInv(policy, s'.now, s'.host, s'.throttles)
    ensures s.host.cooldownUntil <= s'.host.cooldownUntil
  {
    hide HostInv;
    var phase := s.calls[c].phase;
    if phase.Recording? && e.Record? {
      RecordKeepsHost(policy, s.now, s.host, s.throttles, phase.cooldown, phase.at);
    }
  }

  // ---- Permits ----------------------------------------------------------------------------------

  predicate Holds(p: Phase, k: nat) { HasPermit(p) && p.limiter == k }

  function Held(call: Call, k: nat): nat { if Holds(call.phase, k) then 1 else 0 }

  ghost function Holders(calls: seq<Call>, k: nat): set<nat> {
    set c: nat | c < |calls| && Holds(calls[c].phase, k)
  }

  /** Every permit of every limiter is free or held by exactly one call. */
  ghost predicate PermitsInv(limiters: seq<Limiter>, calls: seq<Call>) {
    forall k :: 0 <= k < |limiters| ==>
      && 1 <= limiters[k].permits && 0 <= limiters[k].free
      && limiters[k].free + |Holders(calls, k)| == limiters[k].permits
  }

  lemma HoldersChange(calls: seq<Call>, c: nat, call: Call, k: nat)
    requires c < |calls|
    ensures |Holders(calls[c := call], k)| == |Holders(calls, k)| - Held(calls[c], k) + Held(call, k)
  {
    var before, after := Holders(calls, k), Holders(calls[c := call], k);
    var rest := before - {c};
    assert rest == after - {c};
    assert before == if Holds(calls[c].phase, k) then rest + {c} else rest;
    assert after == if Holds(call.phase, k) then rest + {c} else rest;
  }

  lemma MoverMovesPermits(policy: Policy, s: State, c: nat, e: Event, s': State, k: nat)
    requires c < |s.calls| && CallStep(policy, s, c, e) == Some(s')
    requires |s'.calls| == |s.calls| && |s'.limiters| == |s.limiters| && k < |s.limiters|
    requires 0 <= s.limiters[k].free
    ensures s'.limiters[k].permits == s.limiters[k].permits
    ensures 0 <= s'.limiters[k].free == s.limiters[k].free + Held(s.calls[c], k) - Held(s'.calls[c], k)
  {
  }

  lemma MoverKeepsPermits(policy: Policy, s: State, c: nat, e: Event, s': State)
    requires c < |s.calls| && CallStep(policy, s, c, e) == Some(s')
    requires CallInv(policy, s.now, |s.limiters|, s.calls[c])
    requires PermitsInv(s.limiters, s.calls)
    ensures PermitsInv(s'.limiters, s'.calls)
  {
    MoverKeeps(policy, s, c, e, s');
    hide CallStep, CallInv;
    forall k | 0 <= k < |s'.limiters|
      ensures 1 <= s'.limiters[k].permits && 0 <= s'.limiters[k].free
      ensures s'.limiters[k].free + |Holders(s'.calls, k)| == s'.limiters[k].permits
    {
      MoverMovesPermits(policy, s, c, e, s', k);
      HoldersChange(s.calls, c, s'.calls[c], k);
    }
  }

  // ---- The clock of one limiter -----------------------------------------------------------------

  /** Consecutive starts keep the later one's interval; `last` is the time of the latest start. */
  ghost predicate ClockInv(now: int, last: int, starts: seq<Start>) {
    && last <= now
    && (starts != [] ==> last == starts[|starts| - 1].at)
    && (forall i :: 0 < i < |starts| ==> starts[i - 1].at + starts[i].interval <= starts[i].at)
  }

  ghost predicate ClocksInv(now: int, limiters: seq<Limiter>) {
    forall k :: 0 <= k < |limiters| ==> ClockInv(now, limiters[k].last, limiters[k].starts)
  }

  /** A limiter's lock is held exactly by the call that sleeps on it, until its interval is over. */
  ghost predicate LockInv(limiters: seq<Limiter>, calls: seq<Call>) {
    && SleepersLock(limiters, calls)
    && (forall k :: 0 <= k < |limiters| && limiters[k].lock.Some? ==> LockedBySleeper(calls, limiters[k].lock.value, k))
  }

  ghost predicate SleepersLock(limiters: seq<Limiter>, calls: seq<Call>) {
    forall c: nat :: c < |calls| && calls[c].phase.Spacing? ==> Sleeps(limiters, calls[c].phase, c)
  }

  predicate Sleeps(limiters: seq<Limiter>, p: Phase, c: nat)
    requires p.Spacing?
  {
    p.limiter < |limiters| && limiters[p.limiter].lock == Some(c) && p.until == limiters[p.limiter].last + p.interval
  }

  predicate LockedBySleeper(calls: seq<Call>, c: nat, k: nat) {
    c < |calls| && calls[c].phase.Spacing? && calls[c].phase.limiter == k
  }

  /** Call `c` starts attempt `n` on a limiter at `now`, no sooner than `interval` after the last start. */
  predicate Starts(now: int, c: nat, lim: Limiter, lim': Limiter, call: Call, call': Call) {
    && (call.phase.AwaitLock? || call.phase.Spacing?)
    && call'.sent == call.sent + 1
    && lim'.last == now
    && lim.last + call.phase.interval <= now
    && lim'.starts == lim.starts + [Start(c, call.phase.attempt, now, call.phase.interval)]
  }

  predicate SameClock(lim: Limiter, lim': Limiter) {
    lim'.last == lim.last && lim'.starts == lim.starts
  }

  lemma MoverStarts(policy: Policy, s: State, c: nat, e: Event, s': State, k: nat)
    requires c < |s.calls| && CallStep(policy, s, c, e) == Some(s')
    requires |s'.calls| == |s.calls| && |s'.limiters| == |s.limiters| && k < |s.limiters|
    requires LockInv(s.limiters, s.calls)
    ensures (SameClock(s.limiters[k], s'.limiters[k])
             || Starts(s.now, c, s.limiters[k], s'.limiters[k], s.calls[c], s'.calls[c]))
  {
  }

  lemma MoverKeepsSleepers(policy: Policy, s: State, c: nat, e: Event, s': State)
    requires c < |s.calls| && CallStep(policy, s, c, e) == Some(s')
    requires |s'.calls| == |s.calls| && s'.calls == s.calls[c := s'.calls[c]] && |s'.limiters| == |s.limiters|
    requires LockInv(s.limiters, s.calls)
    ensures SleepersLock(s'.limiters, s'.calls)
  {
    forall x: nat | x < |s'.calls| && s'.calls[x].phase.Spacing? ensures Sleeps(s'.limiters, s'.calls[x].phase, x) {
      MoverKeepsSleeper(policy, s, c, e, s', x);
    }
  }

  lemma MoverKeepsSleeper(policy: Policy, s: State, c: nat, e: Event, s': State, x: nat)
    requires c < |s.calls| && CallStep(policy, s, c, e) == Some(s')
    requires |s'.calls| == |s.calls| && s'.calls == s.calls[c := s'.calls[c]] && |s'.limiters| == |s.limiters|
    requires LockInv(s.limiters, s.calls)
    requires x < |s'.calls| && s'.calls[x].phase.Spacing?
    ensures Sleeps(s'.limiters, s'.calls[x].phase, x)
  {
  }

  lemma MoverKeepsLock(policy: Policy, s: State, c: nat, e: Event, s': State)
    requires c < |s.calls| && CallStep(policy, s, c, e) == Some(s')
    requires |s'.calls| == |s.calls| && s'.calls == s.calls[c := s'.calls[c]] && |s'.limiters| == |s.limiters|
    requires LockInv(s.limiters, s.calls)
    ensures LockInv(s'.limiters, s'.calls)
  {
    hide SleepersLock;
    MoverKeepsSleepers(policy, s, c, e, s');
    forall k | 0 <= k < |s'.limiters| && s'.limiters[k].lock.Some?
      ensures LockedBySleeper(s'.calls, s'.limiters[k].lock.value, k)
    {
      MoverKeepsLocked(policy, s, c, e, s', k);
    }
  }

  lemma MoverKeepsLocked(policy: Policy, s: State, c: nat, e: Event, s': State, k: nat)
    requires c < |s.calls| && CallStep(policy, s, c, e) == Some(s')
    requires |s'.calls| == |s.calls| && s'.calls == s.calls[c := s'.calls[c]] && |s'.limiters| == |s.limiters|
    requires LockInv(s.limiters, s.calls)
    requires k < |s'.limiters| && s'.limiters[k].lock.Some?
    ensures LockedBySleeper(s'.calls, s'.limiters[k].lock.value, k)
  {
    hide SleepersLock;
    var p := s.calls[c].phase;
    if p.Spacing? {
      assert Sleeps(s.limiters, p, c) by { SleeperHasLock(s.limiters, s.calls, c); }
    }
  }

  lemma SleeperHasLock(limiters: seq<Limiter>, calls: seq<Call>, c: nat)
    requires LockInv(limiters, calls) && c < |calls| && calls[c].phase.Spacing?
    ensures Sleeps(limiters, calls[c].phase, c)
  {
  }

  lemma MoverKeepsClocks(policy: Policy, s: State, c: nat, e: Event, s': State)
    requires c < |s.calls| && CallStep(policy, s, c, e) == Some(s')
    requires |s'.calls| == |s.calls| && |s'.limiters| == |s.limiters| && s'.now == s.now
    requires LockInv(s.limiters, s.calls) && ClocksInv(s.now, s.limiters)
    ensures ClocksInv(s'.now, s'.limiters)
  {
    hide CallStep, LockInv;
    forall k | 0 <= k < |s'.limiters| ensures ClockInv(s'.now, s'.limiters[k].last, s'.limiters[k].starts) {
      MoverStarts(policy, s, c, e, s', k);
    }
  }

  // ---- The starts of one limiter and the calls they belong to ------------------------------------

  /** The start is an attempt its call has sent, and a retry came after the call's own cooldown. */
  predicate StartOk(start: Start, calls: seq<Call>) {
    && start.call < |calls|
    && 1 <= start.attempt <= calls[start.call].sent
    && (start.attempt >= 2 ==>
          start.attempt - 2 < |calls[start.call].ends| && calls[start.call].ends[start.attempt - 2] <= start.at)
  }

  ghost predicate StartsInv(starts: seq<Start>, calls: seq<Call>) {
    && (forall i :: 0 <= i < |starts| ==> StartOk(starts[i], calls))
    && (forall i, j :: 0 <= i < j < |starts| && starts[i].call == starts[j].call ==>
          starts[i].attempt < starts[j].attempt)
  }

  ghost predicate AllStartsInv(limiters: seq<Limiter>, calls: seq<Call>) {
    forall k :: 0 <= k < |limiters| ==> StartsInv(limiters[k].starts, calls)
  }

  lemma StartStaysOk(start: Start, calls: seq<Call>, c: nat, call: Call)
    requires StartOk(start, calls) && c < |calls| && Grew(calls[c], call)
    ensures StartOk(start, calls[c := call])
  {
  }

  lemma StartsSurvive(starts: seq<Start>, calls: seq<Call>, c: nat, call: Call)
    requires StartsInv(starts, calls) && c < |calls| && Grew(calls[c], call)
    ensures StartsInv(starts, calls[c := call])
  {
    hide StartOk;
    forall i | 0 <= i < |starts| ensures StartOk(starts[i], calls[c := call]) {
      StartStaysOk(starts[i], calls, c, call);
    }
  }

  lemma StartJoins(policy: Policy, now: int, limiters: int, lim: Limiter, lim': Limiter, calls: seq<Call>, c: nat,
                   call: Call)
    requires c < |calls| && CallInv(policy, now, limiters, calls[c]) && Grew(calls[c], call)
    requires Starts(now, c, lim, lim', calls[c], call)
    requires StartsInv(lim.starts, calls)
    ensures StartsInv(lim'.starts, calls[c := call])
  {
    StartsSurvive(lim.starts, calls, c, call);
  }

  lemma MoverKeepsStarts(policy: Policy, s: State, c: nat, e: Event, s': State)
    requires c < |s.calls| && CallStep(policy, s, c, e) == Some(s')
    requires LockInv(s.limiters, s.calls) && AllStartsInv(s.limiters, s.calls)
    requires CallInv(policy, s.now, |s.limiters|, s.calls[c])
    ensures AllStartsInv(s'.limiters, s'.calls)
  {
    MoverKeeps(policy, s, c, e, s');
    hide CallStep, LockInv, CallInv, StartsInv, Grew, Starts;
    forall k | 0 <= k < |s'.limiters| ensures StartsInv(s'.limiters[k].starts, s'.calls) {
      MoverStarts(policy, s, c, e, s', k);
      if SameClock(s.limiters[k], s'.limiters[k]) {
        StartsSurvive(s.limiters[k].starts, s.calls, c, s'.calls[c]);
      } else {
        StartJoins(policy, s.now, |s.limiters|, s.limiters[k], s'.limiters[k], s.calls, c, s'.calls[c]);
      }
    }
  }

  // ---- Every run --------------------------------------------------------------------------------

  ghost predicate Inv(policy: Policy, s: State) {
    && HostInv(policy, s.now, s.host, s.throttles)
    && CallsInv(policy, s.now, |s.limiters|, s.calls)
    && PermitsInv(s.limiters, s.calls)
    && ClocksInv(s.now, s.limiters)
    && LockInv(s.limiters, s.calls)
    && AllStartsInv(s.limiters, s.calls)
  }

  lemma CallStepKeeps(policy: Policy, s: State, c: nat, e: Event, s': State)
    requires c < |s.calls| && CallStep(policy, s, c, e) == Some(s')
    requires Inv(policy, s)
    ensures Inv(policy, s') && s.host.cooldownUntil <= s'.host.cooldownUntil
  {
    assert CallInv(policy, s.now, |s.limiters|, s.calls[c]);
    hide CallStep, CallInv, HostInv, PermitsInv, ClocksInv, LockInv, AllStartsInv;
    MoverKeeps(policy, s, c, e, s');
    MoverKeepsHost(policy, s, c, e, s');
    MoverKeepsPermits(policy, s, c, e, s');
    MoverKeepsClocks(policy, s, c, e, s');
    MoverKeepsLock(policy, s, c, e, s');
    MoverKeepsStarts(policy, s, c, e, s');
  }

  lemma WaitingKeepsCall(policy: Policy, now: int, later: int, limiters: int, more: int, call: Call)
    requires CallInv(policy, now, limiters, call) && now <= later && limiters <= more
    ensures CallInv(policy, later, more, call)
  {
  }

  lemma WaitingKeepsCalls(policy: Policy, now: int, later: int, limiters: int, more: int, calls: seq<Call>)
    requires CallsInv(policy, now, limiters, calls) && now <= later && limiters <= more
    ensures CallsInv(policy, later, more, calls)
  {
    hide CallInv;
    forall c | 0 <= c < |calls| ensures CallInv(policy, later, more, calls[c]) {
      WaitingKeepsCall(policy, now, later, limiters, more, calls[c]);
    }
  }

  lemma TickKeeps(policy: Policy, s: State, later: int)
    requires Inv(policy, s) && s.now <= later
    ensures Inv(policy, s.(now := later))
  {
    WaitingKeepsCalls(policy, s.now, later, |s.limiters|, |s.limiters|, s.calls);
    hide CallsInv, PermitsInv, LockInv, AllStartsInv, UntilIsLatest;
  }

  /** No call holds a permit of a limiter that does not exist yet. */
  lemma NobodyHoldsNew(policy: Policy, now: int, limiters: nat, calls: seq<Call>)
    requires CallsInv(policy, now, limiters, calls)
    ensures Holders(calls, limiters) == {}
  {
    forall c: nat | c < |calls| ensures !Holds(calls[c].phase, limiters) {
      assert CallInv(policy, now, limiters, calls[c]);
    }
  }

  lemma NewLimiterKeeps(policy: Policy, s: State, interval: nat, concurrency: nat)
    requires Inv(policy, s) && 1 <= concurrency
    ensures var limiters := s.limiters + [NewLimiter(interval, concurrency, s.now)];
            && CallsInv(policy, s.now, |limiters|, s.calls) && PermitsInv(limiters, s.calls)
            && ClocksInv(s.now, limiters) && LockInv(limiters, s.calls) && AllStartsInv(limiters, s.calls)
  {
    var limiters := s.limiters + [NewLimiter(interval, concurrency, s.now)];
    WaitingKeepsCalls(policy, s.now, s.now, |s.limiters|, |limiters|, s.calls);
    NobodyHoldsNew(policy, s.now, |s.limiters|, s.calls);
    hide CallsInv, Holders, StartsInv, ClockInv;
    assert ClockInv(s.now, s.now - interval, []) by { EmptyClock(s.now, interval); }
    assert StartsInv([], s.calls) by { EmptyStarts(s.calls); }
  }

  lemma EmptyClock(now: int, interval: nat)
    ensures ClockInv(now, now - interval, [])
  {
  }

  lemma EmptyStarts(calls: seq<Call>)
    ensures StartsInv([], calls)
  {
  }

  lemma StepKeeps(policy: Policy, s: State, e: Event, s': State)
    requires Inv(policy, s) && Next(policy, s, e) == Some(s')
    ensures Inv(policy, s') && s.host.cooldownUntil <= s'.host.cooldownUntil
  {
    hide CallStep, CallsInv, PermitsInv, ClocksInv, LockInv, AllStartsInv, UntilIsLatest;
    match e
    case SetLimit(interval, concurrency) => NewLimiterKeeps(policy, s, interval, concurrency);
    case Tick(elapsed) => TickKeeps(policy, s, s.now + elapsed);
    case _ => CallStepKeeps(policy, s, e.c, e, s');
  }

  lemma {:induction false} PlayInv(setup: Setup, events: seq<Event>, s: State)
    requires Play(setup, events) == Some(s)
    ensures Inv(setup.policy, s)
  {
    hide Inv, Next;
    if events == [] {
      InitialInv(setup);
    } else {
      var before := Play(setup, events[..|events| - 1]).value;
      PlayInv(setup, events[..|events| - 1], before);
      StepKeeps(setup.policy, before, events[|events| - 1], s);
    }
  }

  lemma InitialInv(setup: Setup)
    requires 1 <= setup.concurrency
    ensures Inv(setup.policy, Initial(setup.interval, setup.concurrency, setup.calls, setup.start))
  {
    var s := Initial(setup.interval, setup.concurrency, setup.calls, setup.start);
    assert Holders(s.calls, 0) == {};
  }

  // ---- What the limits promise ------------------------------------------------------------------

  /** Free permits and calls inside `throttle` always add up to the limiter's permits. */
  lemma PermitsConserved(setup: Setup, events: seq<Event>, s: State, k: nat)
    requires Play(setup, events) == Some(s) && k < |s.limiters|
    ensures 0 <= s.limiters[k].free
    ensures s.limiters[k].free + |Holders(s.calls, k)| == s.limiters[k].permits
  {
    PlayInv(setup, events, s);
    hide HostInv, CallsInv, ClocksInv, LockInv, AllStartsInv, Holders;
  }

  /** The intervals that the starts after `i` up to `j` had to keep. */
  function IntervalSum(starts: seq<Start>, i: nat, j: nat): int
    requires i <= j < |starts|
  {
    if i == j then 0 else IntervalSum(starts, i, j - 1) + starts[j].interval
  }

  /** Between two starts of one limiter lie at least the intervals of all starts after the first. */
  lemma StartsAreSpaced(setup: Setup, events: seq<Event>, s: State, k: nat, i: nat, j: nat)
    requires Play(setup, events) == Some(s) && k < |s.limiters| && i <= j < |s.limiters[k].starts|
    ensures s.limiters[k].starts[j].at - s.limiters[k].starts[i].at >= IntervalSum(s.limiters[k].starts, i, j)
  {
    PlayInv(setup, events, s);
    hide HostInv, CallsInv, PermitsInv, LockInv, AllStartsInv;
    ClockSums(s.now, s.limiters[k].last, s.limiters[k].starts, i, j);
  }

  lemma {:induction false} ClockSums(now: int, last: int, starts: seq<Start>, i: nat, j: nat)
    requires ClockInv(now, last, starts) && i <= j < |starts|
    ensures starts[j].at - starts[i].at >= IntervalSum(starts, i, j)
  {
    if i < j {
      ClockSums(now, last, starts, i, j - 1);
    }
  }

  /** No `set_limit` of the run asks for an interval below `floor`. */
  predicate KeepsFloor(floor: int, events: seq<Event>) {
    forall e :: e in events && e.SetLimit? ==> floor <= e.interval
  }

  predicate IntervalAtLeast(floor: int, p: Phase) {
    p.AwaitPermit? || p.AwaitLock? || p.Spacing? ==> floor <= p.interval
  }

  ghost predicate FloorInv(floor: int, s: State) {
    && floor <= s.host.baseInterval
    && (forall c :: 0 <= c < |s.calls| ==> IntervalAtLeast(floor, s.calls[c].phase))
    && (forall k, i :: 0 <= k < |s.limiters| && 0 <= i < |s.limiters[k].starts| ==>
          floor <= s.limiters[k].starts[i].interval)
  }

  lemma CallStepKeepsFloor(policy: Policy, s: State, c: nat, e: Event, s': State, floor: int)
    requires c < |s.calls| && CallStep(policy, s, c, e) == Some(s')
    requires FloorInv(floor, s) && s.host.slowdown >= 0
    ensures FloorInv(floor, s')
  {
  }

  lemma StepKeepsFloor(policy: Policy, s: State, e: Event, s': State, floor: int)
    requires Next(policy, s, e) == Some(s')
    requires FloorInv(floor, s) && s.host.slowdown >= 0 && (e.SetLimit? ==> floor <= e.interval)
    ensures FloorInv(floor, s')
  {
    hide CallStep;
    if !e.SetLimit? && !e.Tick? {
      CallStepKeepsFloor(policy, s, e.c, e, s', floor);
    }
  }

  lemma SlowdownIsNat(setup: Setup, events: seq<Event>, s: State)
    requires Play(setup, events) == Some(s)
    ensures s.host.slowdown >= 0
  {
    PlayInv(setup, events, s);
    hide CallsInv, PermitsInv, ClocksInv, LockInv, AllStartsInv, UntilIsLatest;
  }

  lemma {:induction false} PlayKeepsFloor(setup: Setup, events: seq<Event>, s: State, floor: int)
    requires Play(setup, events) == Some(s)
    requires floor <= setup.interval && KeepsFloor(floor, events)
    ensures FloorInv(floor, s)
  {
    hide Next;
    if events != [] {
      var before := Play(setup, events[..|events| - 1]).value;
      PlayKeepsFloor(setup, events[..|events| - 1], before, floor);
      SlowdownIsNat(setup, events[..|events| - 1], before);
      StepKeepsFloor(setup.policy, before, events[|events| - 1], s, floor);
    }
  }

  lemma {:induction false} SumKeepsFloor(starts: seq<Start>, i: nat, j: nat, floor: int)
    requires i <= j < |starts|
    requires forall x :: 0 <= x < |starts| ==> floor <= starts[x].interval
    ensures IntervalSum(starts, i, j) >= (j - i) * floor
  {
    if i < j {
      SumKeepsFloor(starts, i, j - 1, floor);
      assert (j - i) * floor == (j - 1 - i) * floor + floor;
    }
  }

  /** The configured seconds between starts hold for any two starts of one limiter, whoever makes them. */
  lemma BaseIntervalHolds(setup: Setup, events: seq<Event>, s: State, floor: int, k: nat, i: nat, j: nat)
    requires Play(setup, events) == Some(s) && k < |s.limiters| && i <= j < |s.limiters[k].starts|
    requires floor <= setup.interval && KeepsFloor(floor, events)
    ensures s.limiters[k].starts[j].at - s.limiters[k].starts[i].at >= (j - i) * floor
  {
    StartsAreSpaced(setup, events, s, k, i, j);
    PlayKeepsFloor(setup, events, s, floor);
    SumKeepsFloor(s.limiters[k].starts, i, j, floor);
  }

  /** The host's 429 state is the exact summary of all recorded 429s, whatever else happened. */
  lemma HostStateExact(setup: Setup, events: seq<Event>, s: State)
    requires Play(setup, events) == Some(s)
    ensures s.host.cooldownEvents == |s.throttles|
    ensures s.host.slowdown == setup.policy.increase * s.host.cooldownEvents
    ensures UntilIsLatest(s.host.cooldownUntil, s.throttles)
    ensures (s.host.cooldownUntil > 0 ==>
               exists i :: 0 <= i < |s.throttles|
                   && s.host.cooldownUntil <= s.throttles[i].at + setup.policy.maxCooldown)
  {
    PlayInv(setup, events, s);
    hide CallsInv, PermitsInv, ClocksInv, LockInv, AllStartsInv;
    if s.host.cooldownUntil > 0 {
      var i :| 0 <= i < |s.throttles| && s.throttles[i].at + s.throttles[i].cooldown == s.host.cooldownUntil;
      assert s.throttles[i].cooldown <= setup.policy.maxCooldown;
    }
  }

  /** The host-wide cooldown never moves back. */
  lemma {:induction false} CooldownNeverDecreases(setup: Setup, events: seq<Event>, n: nat, early: State, late: State)
    requires n <= |events|
    requires Play(setup, events[..n]) == Some(early) && Play(setup, events) == Some(late)
    ensures early.host.cooldownUntil <= late.host.cooldownUntil
  {
    hide Next, Inv;
    if n == |events| {
      assert events[..n] == events;
    } else {
      var front := events[..|events| - 1];
      var before := Play(setup, front).value;
      assert front[..n] == events[..n];
      CooldownNeverDecreases(setup, front, n, early, before);
      PlayInv(setup, front, before);
      StepKeeps(setup.policy, before, events[|events| - 1], late);
    }
  }

  /** A call sends at most three requests and gives up exactly when all three were answered by 429. */
  lemma GivesUpAfterThree(setup: Setup, events: seq<Event>, s: State, c: nat)
    requires Play(setup, events) == Some(s) && c < |s.calls|
    ensures |s.calls[c].ends| <= s.calls[c].sent <= 3
    ensures s.calls[c].phase == Done(RateLimited) <==> |s.calls[c].ends| == 3
    ensures s.calls[c].phase == Done(Answered) ==> s.calls[c].sent == |s.calls[c].ends| + 1
  {
    PlayInv(setup, events, s);
    hide HostInv, PermitsInv, ClocksInv, LockInv, AllStartsInv;
    assert CallInv(setup.policy, s.now, |s.limiters|, s.calls[c]);
  }

  /** A retry starts no earlier than the end of the cooldown computed for its own previous 429. */
  lemma RetriesWait(setup: Setup, events: seq<Event>, s: State, k: nat, i: nat)
    requires Play(setup, events) == Some(s) && k < |s.limiters| && i < |s.limiters[k].starts|
    ensures StartOk(s.limiters[k].starts[i], s.calls)
  {
    PlayInv(setup, events, s);
    hide HostInv, CallsInv, PermitsInv, ClocksInv, LockInv, StartOk;
    assert StartsInv(s.limiters[k].starts, s.calls);
  }

  // ---- A replaced limiter -----------------------------------------------------------------------

  /** The run sets limits, if at all, to this interval and this concurrency. */
  predicate SetsOnly(events: seq<Event>, interval: int, concurrency: int) {
    forall e :: e in events && e.SetLimit? ==> e.interval == interval && e.concurrency == concurrency
  }

  /** Any two different starts on the host, on whatever limiters, lie `interval` apart. */
  ghost predicate HostSpaced(s: State, interval: int) {
    forall k, i, l, j ::
      0 <= k < |s.limiters| && 0 <= i < |s.limiters[k].starts| && 0 <= l < |s.limiters|
      && 0 <= j < |s.limiters[l].starts| && (k != l || i != j) ==>
        Apart(s.limiters[k].starts[i].at, s.limiters[l].starts[j].at, interval)
  }

  predicate Apart(x: int, y: int, interval: int) { x + interval <= y || y + interval <= x }

  /** Setting this concurrency at any moments of any run keeps the starts of the host apart. */
  ghost predicate SpacingSurvives(setup: Setup, concurrency: int) {
    forall events, s :: Play(setup, events) == Some(s) && SetsOnly(events, setup.interval, concurrency) ==>
      HostSpaced(s, setup.interval)
  }

  lemma OneLimiterStep(policy: Policy, s: State, e: Event, s': State)
    requires Next(policy, s, e) == Some(s') && (e.SetLimit? ==> e.concurrency == s.host.maxConcurrency)
    ensures |s'.limiters| == |s.limiters| && s'.host.maxConcurrency == s.host.maxConcurrency
  {
  }

  lemma {:induction false} OneLimiter(setup: Setup, events: seq<Event>, s: State)
    requires Play(setup, events) == Some(s)
    requires SetsOnly(events, setup.interval, setup.concurrency)
    ensures |s.limiters| == 1 && s.host.maxConcurrency == setup.concurrency
  {
    hide Next;
    if events != [] {
      var before := Play(setup, events[..|events| - 1]).value;
      OneLimiter(setup, events[..|events| - 1], before);
      OneLimiterStep(setup.policy, before, events[|events| - 1], s);
    }
  }

  lemma OnceOrMore(n: int, interval: int)
    requires n >= 1 && interval >= 0
    ensures n * interval >= interval
  {
    assert n * interval == (n - 1) * interval + interval;
  }

  lemma TwoStartsApart(setup: Setup, events: seq<Event>, s: State, i: nat, j: nat)
    requires Play(setup, events) == Some(s) && KeepsFloor(setup.interval, events)
    requires |s.limiters| == 1 && i < j < |s.limiters[0].starts|
    ensures s.limiters[0].starts[i].at + setup.interval <= s.limiters[0].starts[j].at
  {
    hide Play, KeepsFloor;
    BaseIntervalHolds(setup, events, s, setup.interval, 0, i, j);
    OnceOrMore(j - i, setup.interval);
  }

  lemma SameConcurrencySurvives(setup: Setup, events: seq<Event>, s: State)
    requires Play(setup, events) == Some(s) && SetsOnly(events, setup.interval, setup.concurrency)
    ensures HostSpaced(s, setup.interval)
  {
    assert KeepsFloor(setup.interval, events);
    OneLimiter(setup, events, s);
    hide Play, SetsOnly, KeepsFloor;
    forall i, j | 0 <= i < j < |s.limiters[0].starts|
      ensures s.limiters[0].starts[i].at + setup.interval <= s.limiters[0].starts[j].at
    {
      TwoStartsApart(setup, events, s, i, j);
    }
  }

  lemma Continues(setup: Setup, events: seq<Event>, s: State, e: Event)
    requires Play(setup, events) == Some(s)
    ensures Play(setup, events + [e]) == Next(setup.policy, s, e)
  {
    assert (events + [e])[..|events + [e]| - 1] == events;
  }

  /** What a call does that meets no cooldown, a free permit and an interval already over. */
  function Through(c: nat): seq<Event> { [Begin(c), Acquire(c), Lock(c)] }

  predicate Unhindered(s: State, c: nat) {
    && c < |s.calls| && s.calls[c].phase.Fresh? && s.limiters != []
    && s.host.cooldownUntil <= s.now
    && var lim := s.limiters[|s.limiters| - 1];
       lim.free > 0 && lim.lock.None? && lim.last + EffectiveInterval(s.host) <= s.now
  }

  /** It starts at this very moment on the newest limiter. */
  function Passed(s: State, c: nat): State
    requires Unhindered(s, c)
  {
    var k := |s.limiters| - 1;
    var interval := EffectiveInterval(s.host);
    var lim := s.limiters[k];
    s.(limiters := s.limiters[k := lim.(free := lim.free - 1, last := s.now,
                                        starts := lim.starts + [Start(c, 1, s.now, interval)])],
       calls := s.calls[c := Call(Sending(1, k), s.calls[c].sent + 1, s.calls[c].ends)])
  }

  lemma PassesThrough(setup: Setup, events: seq<Event>, s: State, c: nat)
    requires Play(setup, events) == Some(s) && Unhindered(s, c)
    ensures Play(setup, events + Through(c)) == Some(Passed(s, c))
  {
    hide Play;
    var p, k, interval := setup.policy, |s.limiters| - 1, EffectiveInterval(s.host);
    var s2 := Stop(s, c, AwaitPermit(1, k, interval));
    assert Next(p, s, Begin(c)) == Some(s2);
    Continues(setup, events, s, Begin(c));
    var lim := s.limiters[k].(free := s.limiters[k].free - 1);
    var s3 := Moved(s2, c, s2.calls[c].(phase := AwaitLock(1, k, interval)), k, lim);
    assert Next(p, s2, Acquire(c)) == Some(s3);
    Continues(setup, events + [Begin(c)], s2, Acquire(c));
    assert Next(p, s3, Lock(c)) == Some(Begun(s3, c, 1, k, interval));
    Continues(setup, events + [Begin(c)] + [Acquire(c)], s3, Lock(c));
    assert events + [Begin(c)] + [Acquire(c)] + [Lock(c)] == events + Through(c);
    assert Begun(s3, c, 1, k, interval).calls == Passed(s, c).calls;
    assert Begun(s3, c, 1, k, interval).limiters == Passed(s, c).limiters;
  }

  /** One call starts, the concurrency changes, and a second call starts at the same moment. */
  lemma Overtakes(setup: Setup, concurrency: int)
    requires setup.interval > 0 && setup.concurrency >= 1 && setup.calls >= 2
    requires concurrency >= 1 && concurrency != setup.concurrency
    ensures !SpacingSurvives(setup, concurrency)
  {
    var s := Initial(setup.interval, setup.concurrency, setup.calls, setup.start);
    assert Play(setup, []) == Some(s);
    hide Play;
    PassesThrough(setup, [], s, 0);
    var first := Passed(s, 0);
    var events := [] + Through(0);
    var change := SetLimit(setup.interval, concurrency);
    Continues(setup, events, first, change);
    var replaced := Limited(first, setup.interval, concurrency);
    PassesThrough(setup, events + [change], replaced, 1);
    var second := Passed(replaced, 1);
    assert SetsOnly(events + [change] + Through(1), setup.interval, concurrency);
    assert second.limiters[0].starts[0].at == setup.start == second.limiters[1].starts[0].at;
    assert !Apart(second.limiters[0].starts[0].at, second.limiters[1].starts[0].at, setup.interval);
    assert !HostSpaced(second, setup.interval);
  }

  /**
   `rate_limit` is kept host-wide under `set_limit` exactly when the concurrency it asks for is the
   one in force: any other value installs a limiter that knows nothing of the starts before it.
   */
  lemma SpacingNeedsSameConcurrency(setup: Setup, concurrency: int)
    requires setup.interval > 0 && setup.concurrency >= 1 && setup.calls >= 2 && concurrency >= 1
    ensures SpacingSurvives(setup, concurrency) <==> concurrency == setup.concurrency
  {
    if concurrency == setup.concurrency {
      forall events, s | Play(setup, events) == Some(s) && SetsOnly(events, setup.interval, concurrency)
        ensures HostSpaced(s, setup.interval)
      {
        SameConcurrencySurvives(setup, events, s);
      }
    } else {
      Overtakes(setup, concurrency);
    }
  }

  lemma Step(setup: Setup, events: seq<Event>, s: State, e: Event) returns (events': seq<Event>, s': State)
    requires Play(setup, events) == Some(s) && Next(setup.policy, s, e).Some?
    ensures events' == events + [e] && Some(s') == Next(setup.policy, s, e) == Play(setup, events')
  {
    Continues(setup, events, s, e);
    events', s' := events + [e], Next(setup.policy, s, e).value;
  }
}
