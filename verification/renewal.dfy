/**
 How a heartbeat renews a worker's deadline (worker.py), read off the events of a run: the deadline is
 that of the last acknowledged send, the watchdog fires from then on and not before, and a worker that is
 acknowledged in time is never stopped by it.
 */
module Renewal {
  import opened Common
  import opened Lease
  import opened Exclusion

  /** The time on the common clock. */
  function Clock(cfg: Config, events: seq<Event>): int {
    if events == [] then cfg.start
    else
      var e := events[|events| - 1];
      Clock(cfg, events[..|events| - 1]) + if e.Tick? then e.elapsed else 0
  }

  /** When worker `w` last sent a claim. */
  function ClaimedAt(cfg: Config, events: seq<Event>, w: nat): int {
    if events == [] then cfg.start
    else
      var before := events[..|events| - 1];
      if events[|events| - 1] == SendClaim(w) then Clock(cfg, before) else ClaimedAt(cfg, before, w)
  }

  /** When worker `w` last sent a heartbeat. */
  function SentAt(cfg: Config, events: seq<Event>, w: nat): int {
    if events == [] then cfg.start
    else
      var before := events[..|events| - 1];
      if events[|events| - 1] == SendBeat(w) then Clock(cfg, before) else SentAt(cfg, before, w)
  }

  /** When worker `w` sent what was last acknowledged: its claim, or a heartbeat since. */
  function RenewedAt(cfg: Config, events: seq<Event>, w: nat): int {
    if events == [] then cfg.start
    else
      var before, e := events[..|events| - 1], events[|events| - 1];
      if e.ReceiveGrant? && e.w == w then
        if ClaimedAt(cfg, before, w) == 0 then Clock(cfg, before) else ClaimedAt(cfg, before, w)
      else if e == ReceiveAck(w) then SentAt(cfg, before, w)
      else RenewedAt(cfg, before, w)
  }

  /** A worker's own times are those of its events. */
  predicate Dated(r: Worker, lease: int, claimed: int, sent: int, renewed: int) {
    && (r.Claiming? ==> r.started == claimed)
    && (r.Running? ==> r.deadline == renewed + lease - MARGIN && (r.beat.Some? ==> r.beat == Some(sent)))
  }

  lemma ClockStep(cfg: Config, s: State, e: Event)
    requires Next(cfg, s, e).Some?
    ensures Next(cfg, s, e).value.now == s.now + if e.Tick? then e.elapsed else 0
  {
  }

  lemma {:induction false} ClockIsNow(cfg: Config, events: seq<Event>)
    requires Play(cfg, events).Some?
    ensures Play(cfg, events).value.now == Clock(cfg, events)
  {
    if events != [] {
      ClockIsNow(cfg, events[..|events| - 1]);
      ClockStep(cfg, Play(cfg, events[..|events| - 1]).value, events[|events| - 1]);
      hide Next;
    }
  }

  lemma DatedStep(cfg: Config, s: State, e: Event, w: nat, claimed: int, sent: int, renewed: int)
    requires Next(cfg, s, e).Some? && w < |s.workers| && Dated(s.workers[w], cfg.lease, claimed, sent, renewed)
    ensures var s' := Next(cfg, s, e).value;
      && |s'.workers| == |s.workers|
      && Dated(s'.workers[w], cfg.lease,
               if e == SendClaim(w) then s.now else claimed,
               if e == SendBeat(w) then s.now else sent,
               if e.ReceiveGrant? && e.w == w then if claimed == 0 then s.now else claimed
               else if e == ReceiveAck(w) then sent else renewed)
  {
  }

  /**
   The deadline of a running worker is the time at which it sent what was last acknowledged, its claim or
   a heartbeat, plus the lease less the margin: in every run, whatever is lost, late or sent twice.
   */
  lemma {:induction false} DeadlineIsRenewal(cfg: Config, events: seq<Event>, w: nat)
    requires Play(cfg, events).Some? && w < cfg.workers
    ensures w < |Play(cfg, events).value.workers|
    ensures Dated(Play(cfg, events).value.workers[w], cfg.lease,
                  ClaimedAt(cfg, events, w), SentAt(cfg, events, w), RenewedAt(cfg, events, w))
  {
    if events != [] {
      var before, e := events[..|events| - 1], events[|events| - 1];
      DeadlineIsRenewal(cfg, before, w);
      ClockIsNow(cfg, before);
      DatedStep(cfg, Play(cfg, before).value, e, w,
                ClaimedAt(cfg, before, w), SentAt(cfg, before, w), RenewedAt(cfg, before, w));
      hide Next, Dated;
    }
  }

  predicate HasFired(r: Worker) { r.Running? && r.fired }

  /** Only its own watchdog can make a worker fire. */
  lemma FiresByWatchdog(cfg: Config, s: State, e: Event, w: nat)
    requires Next(cfg, s, e).Some? && w < |s.workers| == |Next(cfg, s, e).value.workers|
    requires !HasFired(s.workers[w]) && HasFired(Next(cfg, s, e).value.workers[w])
    ensures e == Watchdog(w)
  {
  }

  /**
   A round of the watchdog fires exactly when the renewed lease, less the margin, is over; otherwise the
   next one is due then, or after a second if that is sooner.
   */
  lemma WatchdogFiresExactly(cfg: Config, events: seq<Event>, w: nat)
    requires Play(cfg, events + [Watchdog(w)]).Some?
    ensures Play(cfg, events).Some? && w < |Play(cfg, events).value.workers|
    ensures w < |Play(cfg, events + [Watchdog(w)]).value.workers|
    ensures !HasFired(Play(cfg, events).value.workers[w])
    ensures HasFired(Play(cfg, events + [Watchdog(w)]).value.workers[w])
        <==> RenewedAt(cfg, events, w) + cfg.lease - 5000 <= Clock(cfg, events)
    ensures var r := Play(cfg, events + [Watchdog(w)]).value.workers[w];
      r.Running? && (!r.fired ==>
        r.wake == Min(Clock(cfg, events) + 1000, RenewedAt(cfg, events, w) + cfg.lease - 5000))
  {
    assert (events + [Watchdog(w)])[..|events|] == events;
    WorkersStay(cfg, events);
    DeadlineIsRenewal(cfg, events, w);
    ClockIsNow(cfg, events);
    WatchRound(cfg, Play(cfg, events).value, w);
    hide Play, Next, RenewedAt, SentAt, ClaimedAt, Clock;
  }

  lemma WatchRound(cfg: Config, s: State, w: nat)
    requires w < |s.workers| && Next(cfg, s, Watchdog(w)).Some?
    ensures var s' := Next(cfg, s, Watchdog(w)).value;
      && |s'.workers| == |s.workers| && s.workers[w].Running? && !s.workers[w].fired && s'.workers[w].Running?
      && (s'.workers[w].fired <==> s.workers[w].deadline <= s.now)
      && (!s'.workers[w].fired ==> s'.workers[w].wake == Min(s.now + 1000, s.workers[w].deadline))
  {
  }

  lemma {:induction false} WorkersStay(cfg: Config, events: seq<Event>)
    requires Play(cfg, events).Some?
    ensures |Play(cfg, events).value.workers| == cfg.workers
  {
    if events != [] {
      WorkersStay(cfg, events[..|events| - 1]);
    }
  }

  /** In every round of its watchdog, less than the lease without the margin has passed since the last renewal. */
  ghost predicate RenewedInTime(cfg: Config, events: seq<Event>, w: nat) {
    forall i :: 0 <= i < |events| && events[i] == Watchdog(w) ==>
      Clock(cfg, events[..i]) < RenewedAt(cfg, events[..i], w) + cfg.lease - MARGIN
  }

  /** A worker whose heartbeats are acknowledged in time is never stopped for its lease. */
  lemma {:induction false} RenewedNeverFires(cfg: Config, events: seq<Event>, w: nat)
    requires Play(cfg, events).Some? && w < cfg.workers && RenewedInTime(cfg, events, w)
    ensures w < |Play(cfg, events).value.workers| && !HasFired(Play(cfg, events).value.workers[w])
  {
    WorkersStay(cfg, events);
    if events != [] {
      var before, e := events[..|events| - 1], events[|events| - 1];
      assert RenewedInTime(cfg, before, w) by {
        assert forall i :: 0 <= i < |before| ==> events[i] == before[i] && events[..i] == before[..i];
      }
      assert e == Watchdog(w) ==> Clock(cfg, before) < RenewedAt(cfg, before, w) + cfg.lease - MARGIN;
      RenewedNeverFires(cfg, before, w);
      if HasFired(Play(cfg, events).value.workers[w]) {
        FiresByWatchdog(cfg, Play(cfg, before).value, e, w);
        assert events == before + [Watchdog(w)];
        WatchdogFiresExactly(cfg, before, w);
      }
    }
  }

  // ---- The catalog's side -----------------------------------------------------------------------

  /** When the catalog last granted a claim or accepted a heartbeat. */
  function AcceptedAt(cfg: Config, events: seq<Event>): int {
    if events == [] then cfg.start
    else
      var before, e := events[..|events| - 1], events[|events| - 1];
      if e.GrantClaim? || e.AcceptBeat? then Clock(cfg, before) else AcceptedAt(cfg, before)
  }

  /** A lease in force expires one lease after that, neither earlier nor later. */
  lemma {:induction false} ExpiryIsExact(cfg: Config, events: seq<Event>)
    requires Play(cfg, events).Some? && Play(cfg, events).value.holder.Some?
    ensures Play(cfg, events).value.expiry == AcceptedAt(cfg, events) + cfg.lease
  {
    var before, e := events[..|events| - 1], events[|events| - 1];
    ClockIsNow(cfg, before);
    ExpiryStep(cfg, Play(cfg, before).value, e);
    if Play(cfg, before).value.holder.Some? {
      ExpiryIsExact(cfg, before);
    }
    hide Next;
  }

  lemma ExpiryStep(cfg: Config, s: State, e: Event)
    requires Next(cfg, s, e).Some? && Next(cfg, s, e).value.holder.Some?
    ensures Next(cfg, s, e).value.expiry == if e.GrantClaim? || e.AcceptBeat? then s.now + cfg.lease else s.expiry
    ensures e.GrantClaim? || s.holder.Some?
  {
  }

  // ---- Runs that go on --------------------------------------------------------------------------

  /** The first worker runs under a lease just renewed, and its watchdog is due. */
  ghost predicate JustRenewed(cfg: Config, s: State) {
    FirstRuns(cfg, s, s.now + cfg.lease - MARGIN)
  }

  /** It polls, beats, is acknowledged and writes. */
  lemma OneBeat(cfg: Config, events: seq<Event>, s: State) returns (events': seq<Event>, s': State)
    requires Play(cfg, events) == Some(s) && JustRenewed(cfg, s) && 0 <= cfg.delay
    requires MARGIN < cfg.lease
    ensures Play(cfg, events') == Some(s') && JustRenewed(cfg, s')
    ensures s'.now == s.now + Min(POLL, cfg.lease - MARGIN) && |s'.writes| == |s.writes| + 1
  {
    hide Play;
    events', s' := Step(cfg, events, s, Watchdog(0));
    events', s' := Step(cfg, events', s', Tick(Min(POLL, cfg.lease - MARGIN)));
    events', s' := Step(cfg, events', s', SendBeat(0));
    events', s' := Step(cfg, events', s', AcceptBeat(Beat(0, s'.now)));
    events', s' := Step(cfg, events', s', ReceiveAck(0));
    events', s' := Step(cfg, events', s', Emit(0));
  }

  lemma {:induction false} BeatsOn(cfg: Config, events: seq<Event>, s: State, until: int)
    returns (events': seq<Event>, s': State)
    requires Play(cfg, events) == Some(s) && JustRenewed(cfg, s) && 0 <= cfg.delay && MARGIN < cfg.lease
    ensures Play(cfg, events') == Some(s') && JustRenewed(cfg, s') && until <= s'.now
    ensures |s'.writes| >= |s.writes| && (s.now < until ==> |s'.writes| > |s.writes|)
    decreases until - s.now
  {
    hide Play, JustRenewed;
    events', s' := events, s;
    if s.now < until {
      events', s' := OneBeat(cfg, events, s);
      events', s' := BeatsOn(cfg, events', s', until);
    }
  }

  /**
   A renewed lease has no end: for every length of time some run keeps one worker running and writing under
   its first claim that long, without its watchdog firing.
   */
  lemma RunsAsLongAsNeeded(cfg: Config, length: nat) returns (events: seq<Event>, s: State)
    requires 2 <= cfg.workers && 0 < cfg.start && 0 <= cfg.claimTimeout && 0 <= cfg.delay && MARGIN < cfg.lease
    ensures Play(cfg, events) == Some(s) && cfg.start + length <= s.now
    ensures |s.workers| == cfg.workers && s.workers[0].Running? && s.workers[0].token == 0 && !s.workers[0].fired
    ensures s.holder == Some(0)
    ensures length > 0 ==> s.writes != []
  {
    events, s := FirstClaims(cfg);
    events, s := BeatsOn(cfg, events, s, cfg.start + length);
  }

  /** A released lease is free at once: another worker runs at the same moment. */
  lemma HandsOver(cfg: Config, events: seq<Event>, s: State) returns (events': seq<Event>, s': State)
    requires Play(cfg, events) == Some(s) && JustRenewed(cfg, s) && 0 <= cfg.claimTimeout && 0 < cfg.start <= s.now
    ensures Play(cfg, events') == Some(s') && s'.now == s.now
    ensures |s'.workers| == cfg.workers >= 2 && s'.workers[0].Idle? && s'.workers[1].Running?
    ensures s'.holder == Some(s'.workers[1].token)
  {
    hide Play;
    events', s' := Step(cfg, events, s, Stop(0));
    events', s' := Step(cfg, events', s', SendRelease(0));
    events', s' := Step(cfg, events', s', AcceptRelease(0));
    events', s' := Step(cfg, events', s', SendClaim(1));
    events', s' := Step(cfg, events', s', GrantClaim(Call(1, s.now)));
    events', s' := Step(cfg, events', s', ReceiveGrant(1, Grant(1, s.now, 1)));
  }
}
