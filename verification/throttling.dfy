/**
 Per-host throttling, read off the events of a run (core/request_manager.py, core/rate_limiter.py): which
 cooldowns are recorded, which spacing a start keeps, how many permits there are, how calls end.
 */
module Throttling {
  import opened Common
  import opened HostLimit

  // ---- What the events say ----------------------------------------------------------------------

  function Clock(setup: Setup, events: seq<Event>): int {
    if events == [] then setup.start
    else
      var e := events[|events| - 1];
      Clock(setup, events[..|events| - 1]) + if e.Tick? then e.elapsed else 0
  }

  /** The configured seconds between starts. */
  function Base(setup: Setup, events: seq<Event>): int {
    if events == [] then setup.interval
    else
      var e := events[|events| - 1];
      if e.SetLimit? then e.interval else Base(setup, events[..|events| - 1])
  }

  /** The configured concurrency. */
  function Concurrency(setup: Setup, events: seq<Event>): int {
    if events == [] then setup.concurrency
    else
      var e := events[|events| - 1];
      if e.SetLimit? then e.concurrency else Concurrency(setup, events[..|events| - 1])
  }

  /** How many 429s were recorded. */
  function Recordings(events: seq<Event>): nat {
    if events == [] then 0
    else Recordings(events[..|events| - 1]) + if events[|events| - 1].Record? then 1 else 0
  }

  function RecordingsOf(events: seq<Event>, c: nat): nat {
    if events == [] then 0
    else RecordingsOf(events[..|events| - 1], c) + if events[|events| - 1] == Record(c) then 1 else 0
  }

  /** A 429 answer: its Retry-After seconds, if it had any, and when it arrived. */
  datatype Refusal = Refusal(retryAfter: Option<nat>, at: int)

  /** The last 429 answer to call `c`. */
  function LastRefusal(setup: Setup, events: seq<Event>, c: nat): Option<Refusal> {
    if events == [] then None
    else
      var before, e := events[..|events| - 1], events[|events| - 1];
      if e.Respond? && e.c == c && e.answer.TooMany? then Some(Refusal(e.answer.retryAfter, Clock(setup, before)))
      else LastRefusal(setup, before, c)
  }

  /** The recorded 429 answers, in the order of their recording. */
  function Refusals(setup: Setup, events: seq<Event>): seq<Refusal> {
    if events == [] then []
    else
      var before, e := events[..|events| - 1], events[|events| - 1];
      if e.Record? && LastRefusal(setup, before, e.c).Some?
      then Refusals(setup, before) + [LastRefusal(setup, before, e.c).value] else Refusals(setup, before)
  }

  // ---- Recorded cooldowns -----------------------------------------------------------------------

  ghost predicate CooldownDue(policy: Policy, call: Call, refusal: Option<Refusal>) {
    call.phase.Recording? ==>
      refusal.Some? && call.phase.at == refusal.value.at
      && IsCooldown(policy, refusal.value.retryAfter, call.phase.cooldown)
  }

  /** Throttles and refusals correspond one to one. */
  ghost predicate Match(policy: Policy, throttles: seq<Throttle>, refusals: seq<Refusal>) {
    && |throttles| == |refusals|
    && forall i :: 0 <= i < |throttles| ==>
         throttles[i].at == refusals[i].at && IsCooldown(policy, refusals[i].retryAfter, throttles[i].cooldown)
  }

  lemma ClockStep(policy: Policy, s: State, e: Event, s': State)
    requires Next(policy, s, e) == Some(s')
    ensures s'.now == s.now + (if e.Tick? then e.elapsed else 0) && |s'.calls| == |s.calls|
  {
  }

  lemma {:induction false} ClockIsNow(setup: Setup, events: seq<Event>, s: State)
    requires Play(setup, events) == Some(s)
    ensures s.now == Clock(setup, events) && |s.calls| == setup.calls
  {
    if events != [] {
      var before := Play(setup, events[..|events| - 1]).value;
      ClockIsNow(setup, events[..|events| - 1], before);
      ClockStep(setup.policy, before, events[|events| - 1], s);
      hide Next;
    }
  }

  lemma CallCooldownStep(policy: Policy, s: State, e: Event, s': State, c: nat, refusal: Option<Refusal>)
    requires Next(policy, s, e) == Some(s') && c < |s.calls| == |s'.calls|
    requires CooldownDue(policy, s.calls[c], refusal)
    ensures CooldownDue(policy, s'.calls[c],
                        if e.Respond? && e.c == c && e.answer.TooMany?
                        then Some(Refusal(e.answer.retryAfter, s.now)) else refusal)
  {
  }

  lemma {:induction false} CallCooldowns(setup: Setup, events: seq<Event>, s: State, c: nat)
    requires Play(setup, events) == Some(s) && c < |s.calls|
    ensures CooldownDue(setup.policy, s.calls[c], LastRefusal(setup, events, c))
  {
    if events != [] {
      var before := Play(setup, events[..|events| - 1]).value;
      ClockIsNow(setup, events[..|events| - 1], before);
      ClockIsNow(setup, events, s);
      CallCooldowns(setup, events[..|events| - 1], before, c);
      CallCooldownStep(setup.policy, before, events[|events| - 1], s, c,
                       LastRefusal(setup, events[..|events| - 1], c));
      hide Next;
    }
  }

  lemma ThrottleStep(policy: Policy, s: State, e: Event, s': State)
    requires Next(policy, s, e) == Some(s')
    ensures if e.Record?
            then e.c < |s.calls| && s.calls[e.c].phase.Recording?
                 && s'.throttles == s.throttles + [Throttle(s.calls[e.c].phase.at, s.calls[e.c].phase.cooldown)]
            else s'.throttles == s.throttles
  {
  }

  /**
   Every recorded 429 stands for one 429 answer of the run: timed at its arrival, with the seconds of its
   Retry-After header, or the default without one, cut off at the maximum.
   */
  lemma {:induction false} ThrottlesAreRefusals(setup: Setup, events: seq<Event>, s: State)
    requires Play(setup, events) == Some(s)
    ensures Match(setup.policy, s.throttles, Refusals(setup, events))
    ensures |s.throttles| == Recordings(events)
  {
    if events != [] {
      var before, e := events[..|events| - 1], events[|events| - 1];
      var s0 := Play(setup, before).value;
      ThrottlesAreRefusals(setup, before, s0);
      ThrottleStep(setup.policy, s0, e, s);
      if e.Record? {
        CallCooldowns(setup, before, s0, e.c);
      }
      hide Next;
    }
  }

  /** The recorded 429 answers to call `c`. */
  function RefusalsOf(setup: Setup, events: seq<Event>, c: nat): seq<Refusal> {
    if events == [] then []
    else
      var before, e := events[..|events| - 1], events[|events| - 1];
      if e == Record(c) && LastRefusal(setup, before, c).Some?
      then RefusalsOf(setup, before, c) + [LastRefusal(setup, before, c).value] else RefusalsOf(setup, before, c)
  }

  /** Each of a call's own cooldowns lasts from its 429 answer for the seconds computed from it. */
  ghost predicate OwnCooldowns(policy: Policy, ends: seq<int>, refusals: seq<Refusal>) {
    && |ends| == |refusals|
    && forall i :: 0 <= i < |ends| ==> IsCooldown(policy, refusals[i].retryAfter, ends[i] - refusals[i].at)
  }

  lemma OwnCooldownStep(policy: Policy, s: State, e: Event, s': State, c: nat)
    requires Next(policy, s, e) == Some(s') && c < |s.calls| == |s'.calls|
    ensures if e == Record(c)
            then s.calls[c].phase.Recording?
                 && s'.calls[c].ends == s.calls[c].ends + [s.calls[c].phase.at + s.calls[c].phase.cooldown]
            else s'.calls[c].ends == s.calls[c].ends
  {
  }

  lemma {:induction false} OwnCooldownsKnown(setup: Setup, events: seq<Event>, s: State, c: nat)
    requires Play(setup, events) == Some(s) && c < |s.calls|
    ensures OwnCooldowns(setup.policy, s.calls[c].ends, RefusalsOf(setup, events, c))
  {
    hide Next, OwnCooldowns, IsCooldown;
    if events == [] {
      NoCooldowns(setup, s, c);
    } else {
      var before, e := events[..|events| - 1], events[|events| - 1];
      var s0 := Play(setup, before).value;
      ClockIsNow(setup, before, s0);
      ClockIsNow(setup, events, s);
      OwnCooldownsKnown(setup, before, s0, c);
      OwnCooldownStep(setup.policy, s0, e, s, c);
      if e == Record(c) {
        CallCooldowns(setup, before, s0, c);
        OwnCooldownGrows(setup.policy, s0.calls[c].ends, RefusalsOf(setup, before, c),
                         LastRefusal(setup, before, c).value, s0.calls[c].phase.cooldown);
      }
    }
  }

  lemma NoCooldowns(setup: Setup, s: State, c: nat)
    requires Play(setup, []) == Some(s) && c < |s.calls|
    ensures OwnCooldowns(setup.policy, s.calls[c].ends, RefusalsOf(setup, [], c))
  {
  }

  lemma OwnCooldownGrows(policy: Policy, ends: seq<int>, refusals: seq<Refusal>, refusal: Refusal, seconds: int)
    requires OwnCooldowns(policy, ends, refusals) && IsCooldown(policy, refusal.retryAfter, seconds)
    ensures OwnCooldowns(policy, ends + [refusal.at + seconds], refusals + [refusal])
  {
    hide IsCooldown;
  }

  /** A retry starts no earlier than its call's previous 429 answer and the seconds computed from that one. */
  lemma RetriesWaitAsTold(setup: Setup, events: seq<Event>, s: State, k: nat, i: nat) returns (seconds: int)
    requires Play(setup, events) == Some(s) && k < |s.limiters| && i < |s.limiters[k].starts|
    requires s.limiters[k].starts[i].attempt >= 2
    ensures var start := s.limiters[k].starts[i]; var refusals := RefusalsOf(setup, events, start.call);
      && start.attempt - 2 < |refusals|
      && IsCooldown(setup.policy, refusals[start.attempt - 2].retryAfter, seconds)
      && refusals[start.attempt - 2].at + seconds <= start.at
  {
    hide Play, IsCooldown, RefusalsOf, Next;
    var start := s.limiters[k].starts[i];
    RetriesWait(setup, events, s, k, i);
    OwnCooldownsKnown(setup, events, s, start.call);
    var refusals := RefusalsOf(setup, events, start.call);
    seconds := s.calls[start.call].ends[start.attempt - 2] - refusals[start.attempt - 2].at;
  }

  // ---- Spacing ----------------------------------------------------------------------------------

  /** The length of the run up to the moment when call `c` last tested the cooldown. */
  function TestedAt(events: seq<Event>, c: nat): (n: nat)
    ensures n <= |events|
  {
    if events == [] then 0
    else
      var e := events[|events| - 1];
      if e == Begin(c) || e == Cooled(c) || e == Record(c) then |events| else TestedAt(events[..|events| - 1], c)
  }

  /** The base interval then in force, and the increase for every 429 recorded until then. */
  function IntervalDue(setup: Setup, events: seq<Event>): int {
    Base(setup, events) + Recordings(events) * setup.policy.increase
  }

  lemma HostStep(policy: Policy, s: State, e: Event, s': State)
    requires Next(policy, s, e) == Some(s')
    ensures s'.host.baseInterval == if e.SetLimit? then e.interval else s.host.baseInterval
    ensures s'.host.maxConcurrency == if e.SetLimit? then e.concurrency else s.host.maxConcurrency
    ensures s'.host.slowdown == s.host.slowdown + if e.Record? then policy.increase else 0
  {
  }

  lemma {:induction false} HostIs(setup: Setup, events: seq<Event>, s: State)
    requires Play(setup, events) == Some(s)
    ensures s.host.baseInterval == Base(setup, events) && s.host.maxConcurrency == Concurrency(setup, events)
    ensures s.host.slowdown == Recordings(events) * setup.policy.increase
  {
    if events != [] {
      var before, e := events[..|events| - 1], events[|events| - 1];
      HostIs(setup, before, Play(setup, before).value);
      HostStep(setup.policy, Play(setup, before).value, e, s);
      OneMore(Recordings(before), setup.policy.increase);
      hide Next;
    }
  }

  lemma OneMore(n: nat, x: int)
    ensures (n + 1) * x == n * x + x
  {
  }

  lemma LineStep(policy: Policy, s: State, e: Event, s': State, c: nat)
    requires Next(policy, s, e) == Some(s') && c < |s.calls| == |s'.calls| && InLine(s'.calls[c].phase)
    ensures if e == Begin(c) || e == Cooled(c) || e == Record(c)
            then s'.calls[c].phase.interval == s'.host.baseInterval + s'.host.slowdown
            else InLine(s.calls[c].phase) && s'.calls[c].phase.interval == s.calls[c].phase.interval
  {
  }

  /** A call in line keeps the interval that was due when it tested the cooldown. */
  lemma {:induction false} LineInterval(setup: Setup, events: seq<Event>, s: State, c: nat)
    requires Play(setup, events) == Some(s) && c < |s.calls| && InLine(s.calls[c].phase)
    ensures s.calls[c].phase.interval == IntervalDue(setup, events[..TestedAt(events, c)])
  {
    if events != [] {
      var before, e := events[..|events| - 1], events[|events| - 1];
      var s0 := Play(setup, before).value;
      ClockIsNow(setup, before, s0);
      ClockIsNow(setup, events, s);
      LineStep(setup.policy, s0, e, s, c);
      if e == Begin(c) || e == Cooled(c) || e == Record(c) {
        HostIs(setup, events, s);
        assert events[..|events|] == events;
      } else {
        LineInterval(setup, before, s0, c);
        assert events[..TestedAt(before, c)] == before[..TestedAt(before, c)];
      }
      hide Next;
    }
  }

  lemma StartStep(policy: Policy, s: State, e: Event, s': State, k: nat)
    requires Inv(policy, s) && Next(policy, s, e) == Some(s')
    requires k < |s.limiters| && k < |s'.limiters| && |s'.limiters[k].starts| > |s.limiters[k].starts|
    ensures (e.Lock? || e.Spaced?) && e.c < |s.calls| && InLine(s.calls[e.c].phase)
    ensures s'.limiters[k].starts[..|s.limiters[k].starts|] == s.limiters[k].starts
    ensures |s'.limiters[k].starts| == |s.limiters[k].starts| + 1
    ensures var start := s'.limiters[k].starts[|s.limiters[k].starts|];
      start.call == e.c && start.at == s.now && start.interval == s.calls[e.c].phase.interval
  {
    if !e.SetLimit? && !e.Tick? {
      assert CallInv(policy, s.now, |s.limiters|, s.calls[e.c]);
      MoverKeeps(policy, s, e.c, e, s');
      MoverStarts(policy, s, e.c, e, s', k);
    }
    hide HostInv, CallsInv, CallInv, PermitsInv, ClocksInv, LockInv, AllStartsInv;
  }

  lemma LastTwo(now: int, last: int, starts: seq<Start>)
    requires ClockInv(now, last, starts) && |starts| >= 2
    ensures starts[|starts| - 2].at + starts[|starts| - 1].interval <= starts[|starts| - 1].at
  {
  }

  /**
   A 429 widens the spacing for every call that tests the cooldown after it: a new start of a limiter is
   later than the one before by at least the base interval that was configured at that test plus the
   increase for each 429 recorded until then.
   */
  lemma RefusalsWidenSpacing(setup: Setup, events: seq<Event>, s: State, e: Event, s': State, k: nat)
    requires Play(setup, events) == Some(s) && Play(setup, events + [e]) == Some(s')
    requires k < |s.limiters| && k < |s'.limiters|
    requires |s'.limiters[k].starts| > |s.limiters[k].starts| > 0
    ensures e.Lock? || e.Spaced?
    ensures var tested := events[..TestedAt(events, e.c)]; var starts := s.limiters[k].starts;
      Clock(setup, events) - starts[|starts| - 1].at
      >= Base(setup, tested) + Recordings(tested) * setup.policy.increase
  {
    assert (events + [e])[..|events|] == events;
    PlayInv(setup, events, s);
    PlayInv(setup, events + [e], s');
    StartStep(setup.policy, s, e, s', k);
    ClockIsNow(setup, events, s);
    LineInterval(setup, events, s, e.c);
    hide Play, HostInv, CallsInv, PermitsInv, LockInv, AllStartsInv, ClockInv, Next;
    var starts := s'.limiters[k].starts;
    LastTwo(s'.now, s'.limiters[k].last, starts);
    assert starts[|starts| - 2] == starts[..|s.limiters[k].starts|][|starts| - 2];
  }

  // ---- Permits ----------------------------------------------------------------------------------

  lemma PermitsStep(policy: Policy, s: State, e: Event, s': State)
    requires Next(policy, s, e) == Some(s') && s.limiters != []
    requires s.limiters[|s.limiters| - 1].permits == s.host.maxConcurrency
    ensures s'.limiters != [] && s'.limiters[|s'.limiters| - 1].permits == s'.host.maxConcurrency
  {
  }

  lemma {:induction false} PermitsFollow(setup: Setup, events: seq<Event>, s: State)
    requires Play(setup, events) == Some(s)
    ensures s.limiters != [] && s.limiters[|s.limiters| - 1].permits == s.host.maxConcurrency
  {
    hide Next;
    if events != [] {
      var before := Play(setup, events[..|events| - 1]).value;
      PermitsFollow(setup, events[..|events| - 1], before);
      PermitsStep(setup.policy, before, events[|events| - 1], s);
    }
  }

  /**
   The limiter in force has exactly as many permits as were last configured, so no more calls than that
   are inside it at once.
   */
  lemma PermitsAreConfigured(setup: Setup, events: seq<Event>, s: State)
    requires Play(setup, events) == Some(s)
    ensures s.limiters != [] && s.limiters[|s.limiters| - 1].permits == Concurrency(setup, events)
    ensures |Holders(s.calls, |s.limiters| - 1)| <= Concurrency(setup, events)
  {
    PermitsFollow(setup, events, s);
    HostIs(setup, events, s);
    PermitsConserved(setup, events, s, |s.limiters| - 1);
    hide Play, Holders;
  }

  // ---- How calls end ----------------------------------------------------------------------------

  /** A call has ended the way its events say, and has seen as many 429s as were recorded for it. */
  predicate EndsBy(events: seq<Event>, c: nat, call: Call) {
    && (call.phase == Done(Answered) <==> Respond(c, Response) in events)
    && (call.phase == Done(Dropped) <==> Respond(c, Failure) in events)
    && (call.phase == Done(CallCancelled) <==> Cancel(c) in events)
    && (call.phase == Done(RateLimited) <==> RecordingsOf(events, c) == 3)
    && |call.ends| == RecordingsOf(events, c) <= 3
  }

  predicate Ends(e: Event, c: nat) { e == Respond(c, Response) || e == Respond(c, Failure) || e == Cancel(c) }

  lemma EndStep(policy: Policy, s: State, e: Event, s': State, c: nat)
    requires Inv(policy, s) && Next(policy, s, e) == Some(s') && c < |s.calls| == |s'.calls|
    ensures Ends(e, c) || e == Record(c) ==> !s.calls[c].phase.Done?
    ensures e == Respond(c, Response) ==> s'.calls[c].phase == Done(Answered)
    ensures e == Respond(c, Failure) ==> s'.calls[c].phase == Done(Dropped)
    ensures e == Cancel(c) ==> s'.calls[c].phase == Done(CallCancelled)
    ensures |s'.calls[c].ends| == |s.calls[c].ends| + if e == Record(c) then 1 else 0
    ensures e == Record(c) ==> (s'.calls[c].phase.Done? ==> s'.calls[c].phase == Done(RateLimited))
    ensures !Ends(e, c) && e != Record(c) ==>
              (s'.calls[c].phase.Done? <==> s.calls[c].phase.Done?)
              && (s.calls[c].phase.Done? ==> s'.calls[c].phase == s.calls[c].phase)
  {
    hide HostInv, PermitsInv, ClocksInv, LockInv, AllStartsInv;
  }

  lemma EndsGrow(events: seq<Event>, e: Event, c: nat)
    ensures RecordingsOf(events + [e], c) == RecordingsOf(events, c) + if e == Record(c) then 1 else 0
    ensures forall x :: x in events + [e] <==> x in events || x == e
  {
    assert (events + [e])[..|events|] == events;
  }

  /**
   How a call ends is decided by its answers: a response ends it, and so does a failed request, which is
   not repeated; it gives up exactly when a third 429 was recorded for it.
   */
  lemma {:induction false} CallsEndByAnswers(setup: Setup, events: seq<Event>, s: State, c: nat)
    requires Play(setup, events) == Some(s) && c < |s.calls|
    ensures EndsBy(events, c, s.calls[c])
  {
    hide Next, Inv;
    GivesUpAfterThree(setup, events, s, c);
    if events != [] {
      var before, e := events[..|events| - 1], events[|events| - 1];
      var s0 := Play(setup, before).value;
      ClockIsNow(setup, before, s0);
      ClockIsNow(setup, events, s);
      CallsEndByAnswers(setup, before, s0, c);
      PlayInv(setup, before, s0);
      EndStep(setup.policy, s0, e, s, c);
      assert events == before + [e];
      EndsGrow(before, e, c);
    }
  }
}
