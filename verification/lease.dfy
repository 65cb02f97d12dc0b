/**
 The claim and lease protocol between workers and the catalog (worker.py), with a clock.

 Any number of workers share one catalog, which keeps one global claim token and an expiry.
 Requests and responses may be lost, duplicated, delayed and reordered. Times are in
 milliseconds of one common clock. At most `delay` passes from the wake-up time of a watchdog to
 its next round, or, when it fires, to the end of all emits, by way of resuming the job and
 delivering the cancellation; nothing else is assumed about scheduling.
 */
module Lease {
  import opened Common

  const MARGIN := 5000   // `lease_seconds - 5`
  const POLL := 1000     // the watchdog sleeps at most one second

  datatype Config = Config(workers: nat, lease: int, delay: int, claimTimeout: int, start: int)

  datatype Worker =
    | Idle
    | Claiming(call: nat, started: int)
    | Running(token: nat, deadline: int, wake: int, beat: Option<int>, fired: bool)
    | Stopping(token: nat)

  datatype Grant = Grant(call: nat, started: int, token: nat)

  /** A heartbeat request or its acknowledgement, with the time read before sending. */
  datatype Beat = Beat(token: nat, started: int)

  datatype Call = Call(call: nat, started: int)

  datatype Write = Write(token: nat, at: int, expiry: int)

  datatype State = State(
    now: int,
    // catalog
    holder: Option<nat>, expiry: int, nextToken: nat,
    // workers
    workers: seq<Worker>, nextCall: nat,
    // everything ever sent: any of it may still arrive
    calls: set<Call>, grants: set<Grant>, beats: set<Beat>, acks: set<Beat>, releases: set<nat>,
    // dataset writes in the order they were sent, with the lease then in force
    writes: seq<Write>)

  datatype Event =
    | SendClaim(w: nat)
    | GrantClaim(call: Call)
    | Expire
    | ReceiveGrant(w: nat, grant: Grant)
    | AbandonClaim(w: nat)
    | SendBeat(w: nat)
    | AcceptBeat(beat: Beat)
    | ReceiveAck(w: nat)
    | Watchdog(w: nat)
    | Stop(w: nat)
    | SendRelease(w: nat)
    | AcceptRelease(token: nat)
    | Emit(w: nat)
    | Tick(elapsed: int)

  function Initial(cfg: Config): State {
    State(cfg.start, None, 0, 0, seq(cfg.workers, _ => Idle), 0, {}, {}, {}, {}, {}, [])
  }

  /** `(claim_started or time.monotonic()) + lease_seconds - 5`: a zero start counts as absent. */
  function FirstDeadline(started: int, now: int, lease: int): int {
    (if started == 0 then now else started) + lease - MARGIN
  }

  /** One round of the watchdog loop; once it has fired, the job goes on until it is stopped. */
  function Watch(now: int, r: Worker): Worker
    requires r.Running?
  {
    if now < r.deadline then r.(wake := now + Min(POLL, Max(0, r.deadline - now))) else r.(fired := true)
  }

  function Set(s: State, w: nat, to: Worker): State
    requires w < |s.workers|
  {
    s.(workers := s.workers[w := to])
  }

  function WorkerStep(cfg: Config, s: State, w: nat, e: Event): Option<State>
    requires w < |s.workers|
  {
    match (s.workers[w], e)
    case (Idle, SendClaim(_)) =>
      Some(Set(s, w, Claiming(s.nextCall, s.now))
           .(nextCall := s.nextCall + 1, calls := s.calls + {Call(s.nextCall, s.now)}))
    case (Claiming(call, started), ReceiveGrant(_, g)) =>
      if g in s.grants && g.call == call && s.now <= started + cfg.claimTimeout
      then Some(Set(s, w, Running(g.token, FirstDeadline(started, s.now, cfg.lease), s.now, None, false)))
      else None
    case (Claiming(_, _), AbandonClaim(_)) => Some(Set(s, w, Idle))
    case (Running(token, _, _, None, _), SendBeat(_)) =>
      Some(Set(s, w, s.workers[w].(beat := Some(s.now))).(beats := s.beats + {Beat(token, s.now)}))
    case (Running(token, _, _, Some(started), _), ReceiveAck(_)) =>
      if Beat(token, started) in s.acks
      then Some(Set(s, w, s.workers[w].(deadline := started + cfg.lease - MARGIN, beat := None)))
      else None
    case (Running(_, _, wake, _, fired), Watchdog(_)) =>
      if !fired && wake <= s.now then Some(Set(s, w, Watch(s.now, s.workers[w]))) else None
    case (Running(token, _, _, _, _), Stop(_)) => Some(Set(s, w, Stopping(token)))
    case (Running(token, _, _, _, _), Emit(_)) =>
      Some(s.(writes := s.writes + [Write(token, s.now, s.expiry)]))
    case (Stopping(token), SendRelease(_)) => Some(Set(s, w, Idle).(releases := s.releases + {token}))
    case (_, _) => None
  }

  /**
   Time passes only so far that from each wake-up of a watchdog everything that follows is done in
   time: its own round, or, when it fires, resuming the job and cancelling the work.
   */
  predicate MayTick(cfg: Config, s: State, elapsed: int) {
    && 0 < elapsed
    && forall w | 0 <= w < |s.workers| :: s.workers[w].Running? ==> s.now + elapsed <= s.workers[w].wake + cfg.delay
  }

  function CatalogStep(cfg: Config, s: State, e: Event): Option<State> {
    match e
    case GrantClaim(c) =>
      if c in s.calls && s.holder.None?
      then Some(s.(holder := Some(s.nextToken), expiry := s.now + cfg.lease, nextToken := s.nextToken + 1,
                   grants := s.grants + {Grant(c.call, c.started, s.nextToken)}))
      else None
    case Expire => if s.holder.Some? && s.expiry <= s.now then Some(s.(holder := None)) else None
    case AcceptBeat(b) =>
      if b in s.beats && s.holder == Some(b.token)
      then Some(s.(expiry := s.now + cfg.lease, acks := s.acks + {b})) else None
    case AcceptRelease(t) =>
      if t in s.releases && s.holder == Some(t) then Some(s.(holder := None)) else None
    case Tick(elapsed) => if MayTick(cfg, s, elapsed) then Some(s.(now := s.now + elapsed)) else None
    case _ => None
  }

  function Next(cfg: Config, s: State, e: Event): Option<State> {
    if e.GrantClaim? || e.Expire? || e.AcceptBeat? || e.AcceptRelease? || e.Tick? then CatalogStep(cfg, s, e)
    else if e.w < |s.workers| then WorkerStep(cfg, s, e.w, e) else None
  }

  function Play(cfg: Config, events: seq<Event>): Option<State> {
    if events == [] then Some(Initial(cfg))
    else
      match Play(cfg, events[..|events| - 1])
      case None => None
      case Some(s) => Next(cfg, s, events[|events| - 1])
  }

  /** Scheduling delay below the margin, and a claim response no later than the first deadline. */
  predicate Timely(cfg: Config) {
    0 < cfg.start && 0 <= cfg.delay < MARGIN && cfg.claimTimeout <= cfg.lease - MARGIN
  }

  // ---- What every run keeps -----------------------------------------------------------

  /** A running worker holds the catalog's lease, and its own deadline is early enough. */
  ghost predicate Covered(cfg: Config, now: int, holder: Option<nat>, expiry: int, r: Worker) {
    r.Running? ==>
      && holder == Some(r.token)
      && r.deadline + MARGIN <= expiry
      && r.deadline <= now + cfg.lease - MARGIN
      && r.wake <= r.deadline
      && now <= r.wake + cfg.delay
      && (r.beat.Some? ==> r.deadline <= r.beat.value + cfg.lease - MARGIN)
  }

  predicate Holds(r: Worker) { r.Running? || r.Stopping? }

  /** A token leaves the grants for good once a worker has taken it up. */
  predicate Used(workers: seq<Worker>, releases: set<nat>, token: nat) {
    token in releases || exists w | 0 <= w < |workers| :: Holds(workers[w]) && workers[w].token == token
  }

  /** Each call has one caller waiting for it at most, and none once its grant was taken up. */
  ghost predicate Awaited(now: int, nextCall: nat, workers: seq<Worker>, calls: set<Call>, grants: set<Grant>,
                          releases: set<nat>) {
    && (forall c :: c in calls ==> c.call < nextCall && 0 < c.started <= now)
    && (forall c, d :: c in calls && d in calls && c.call == d.call ==> c == d)
    && (forall g :: g in grants ==> Call(g.call, g.started) in calls)
    && (forall w :: 0 <= w < |workers| && workers[w].Claiming? ==> Call(workers[w].call, workers[w].started) in calls)
    && (forall v, w :: 0 <= v < w < |workers| && workers[v].Claiming? && workers[w].Claiming? ==>
        workers[v].call != workers[w].call)
    && (forall w, g :: 0 <= w < |workers| && workers[w].Claiming? && g in grants && g.call == workers[w].call ==>
          !Used(workers, releases, g.token))
  }

  /** Tokens are fresh, and a token is granted for one call and taken up by one worker. */
  ghost predicate Tokens(nextToken: nat, holder: Option<nat>, workers: seq<Worker>, grants: set<Grant>,
                         releases: set<nat>) {
    && (holder.Some? ==> holder.value < nextToken)
    && (forall g :: g in grants ==> g.token < nextToken)
    && (forall g, h :: g in grants && h in grants && g.token == h.token ==> g == h)
    && (forall w :: 0 <= w < |workers| && Holds(workers[w]) ==>
        workers[w].token !in releases && workers[w].token < nextToken)
    && (forall v, w :: 0 <= v < w < |workers| && Holds(workers[v]) && Holds(workers[w]) ==>
        workers[v].token != workers[w].token)
    && (forall t :: t in releases ==> t < nextToken)
  }

  /** Until its lease has run out, a grant that was not released still holds the catalog. */
  ghost predicate Leased(cfg: Config, now: int, holder: Option<nat>, expiry: int, grants: set<Grant>,
                         releases: set<nat>) {
    forall g :: g in grants && now < g.started + cfg.lease && g.token !in releases ==>
      holder == Some(g.token) && g.started + cfg.lease <= expiry
  }

  ghost predicate Beats(cfg: Config, now: int, nextToken: nat, holder: Option<nat>, expiry: int, beats: set<Beat>,
                        acks: set<Beat>) {
    && (forall b :: b in beats ==> b.started <= now && b.token < nextToken)
    && (forall b :: b in acks && holder == Some(b.token) ==> b.started + cfg.lease <= expiry)
    && acks <= beats
  }

  /** Writes carry nondecreasing tokens and precede the expiry of the lease they were sent under. */
  ghost predicate Ordered(holder: Option<nat>, nextToken: nat, writes: seq<Write>) {
    && (forall i, j :: 0 <= i < j < |writes| ==> writes[i].token <= writes[j].token)
    && (forall i :: 0 <= i < |writes| ==> writes[i].at < writes[i].expiry && writes[i].token < nextToken)
    && (holder.Some? ==> forall i :: 0 <= i < |writes| ==> writes[i].token <= holder.value)
  }

  ghost predicate Inv(cfg: Config, s: State) {
    && (forall w :: 0 <= w < |s.workers| ==> Covered(cfg, s.now, s.holder, s.expiry, s.workers[w]))
    && Awaited(s.now, s.nextCall, s.workers, s.calls, s.grants, s.releases)
    && Tokens(s.nextToken, s.holder, s.workers, s.grants, s.releases)
    && Leased(cfg, s.now, s.holder, s.expiry, s.grants, s.releases)
    && Beats(cfg, s.now, s.nextToken, s.holder, s.expiry, s.beats, s.acks)
    && Ordered(s.holder, s.nextToken, s.writes)
    && cfg.start <= s.now
  }

  // ---- Preservation -------------------------------------------------------------------

  lemma InitialInv(cfg: Config)
    ensures Inv(cfg, Initial(cfg))
  {
  }

  lemma SendClaimKeeps(cfg: Config, s: State, w: nat)
    requires Timely(cfg) && Inv(cfg, s) && w < |s.workers|
    requires WorkerStep(cfg, s, w, SendClaim(w)).Some?
    ensures Inv(cfg, WorkerStep(cfg, s, w, SendClaim(w)).value)
  {
    hide Leased, Beats, Ordered;
  }

  /** The grant a worker takes up is still in force: its response is too young to have expired. */
  lemma GrantInForce(cfg: Config, s: State, w: nat, g: Grant)
    requires Timely(cfg) && Inv(cfg, s) && w < |s.workers| && s.workers[w].Claiming?
    requires g in s.grants && g.call == s.workers[w].call && s.now <= s.workers[w].started + cfg.claimTimeout
    ensures g.started == s.workers[w].started > 0 && !Used(s.workers, s.releases, g.token)
    ensures Covered(cfg, s.now, s.holder, s.expiry,
                    Running(g.token, FirstDeadline(g.started, s.now, cfg.lease), s.now, None, false))
  {
    assert Call(g.call, g.started) in s.calls && Call(s.workers[w].call, s.workers[w].started) in s.calls;
  }

  /** A worker that takes up an unused token keeps tokens and calls apart. */
  lemma TakeUp(s: State, w: nat, g: Grant, r: Worker)
    requires w < |s.workers| && s.workers[w].Claiming? && g in s.grants && g.call == s.workers[w].call
    requires Awaited(s.now, s.nextCall, s.workers, s.calls, s.grants, s.releases)
    requires Tokens(s.nextToken, s.holder, s.workers, s.grants, s.releases)
    requires r.Running? && r.token == g.token
    ensures Awaited(s.now, s.nextCall, s.workers[w := r], s.calls, s.grants, s.releases)
    ensures Tokens(s.nextToken, s.holder, s.workers[w := r], s.grants, s.releases)
  {
    assert !Used(s.workers, s.releases, g.token);
  }

  lemma ReceiveGrantKeeps(cfg: Config, s: State, w: nat, g: Grant)
    requires Timely(cfg) && Inv(cfg, s) && w < |s.workers|
    requires WorkerStep(cfg, s, w, ReceiveGrant(w, g)).Some?
    ensures Inv(cfg, WorkerStep(cfg, s, w, ReceiveGrant(w, g)).value)
  {
    hide Awaited, Tokens, Leased, Beats, Ordered;
    GrantInForce(cfg, s, w, g);
    TakeUp(s, w, g, Running(g.token, FirstDeadline(g.started, s.now, cfg.lease), s.now, None, false));
  }

  /** A worker that stops keeps its token to itself. */
  lemma Halt(s: State, w: nat)
    requires w < |s.workers| && s.workers[w].Running?
    requires Awaited(s.now, s.nextCall, s.workers, s.calls, s.grants, s.releases)
    requires Tokens(s.nextToken, s.holder, s.workers, s.grants, s.releases)
    ensures Awaited(s.now, s.nextCall, s.workers[w := Stopping(s.workers[w].token)], s.calls, s.grants, s.releases)
    ensures Tokens(s.nextToken, s.holder, s.workers[w := Stopping(s.workers[w].token)], s.grants, s.releases)
  {
  }

  /** A worker that keeps running under the same token changes neither. */
  lemma KeepRunning(s: State, w: nat, r: Worker)
    requires w < |s.workers| && s.workers[w].Running? && r.Running? && r.token == s.workers[w].token
    requires Awaited(s.now, s.nextCall, s.workers, s.calls, s.grants, s.releases)
    requires Tokens(s.nextToken, s.holder, s.workers, s.grants, s.releases)
    ensures Awaited(s.now, s.nextCall, s.workers[w := r], s.calls, s.grants, s.releases)
    ensures Tokens(s.nextToken, s.holder, s.workers[w := r], s.grants, s.releases)
  {
  }

  lemma StopKeeps(cfg: Config, s: State, w: nat)
    requires Timely(cfg) && Inv(cfg, s) && w < |s.workers|
    requires WorkerStep(cfg, s, w, Stop(w)).Some?
    ensures Inv(cfg, WorkerStep(cfg, s, w, Stop(w)).value)
  {
    hide Awaited, Tokens, Leased, Beats, Ordered;
    Halt(s, w);
  }

  lemma WatchdogKeeps(cfg: Config, s: State, w: nat)
    requires Timely(cfg) && Inv(cfg, s) && w < |s.workers|
    requires WorkerStep(cfg, s, w, Watchdog(w)).Some?
    ensures Inv(cfg, WorkerStep(cfg, s, w, Watchdog(w)).value)
  {
    hide Awaited, Tokens, Leased, Beats, Ordered;
    KeepRunning(s, w, Watch(s.now, s.workers[w]));
  }

  lemma AbandonKeeps(cfg: Config, s: State, w: nat)
    requires Timely(cfg) && Inv(cfg, s) && w < |s.workers|
    requires WorkerStep(cfg, s, w, AbandonClaim(w)).Some?
    ensures Inv(cfg, WorkerStep(cfg, s, w, AbandonClaim(w)).value)
  {
    hide Leased, Beats, Ordered;
  }

  lemma SendReleaseKeeps(cfg: Config, s: State, w: nat)
    requires Timely(cfg) && Inv(cfg, s) && w < |s.workers|
    requires WorkerStep(cfg, s, w, SendRelease(w)).Some?
    ensures Inv(cfg, WorkerStep(cfg, s, w, SendRelease(w)).value)
  {
    hide Beats, Ordered;
  }

  lemma BeatKeeps(cfg: Config, s: State, w: nat, e: Event)
    requires Timely(cfg) && Inv(cfg, s) && w < |s.workers| && (e == SendBeat(w) || e == ReceiveAck(w))
    requires WorkerStep(cfg, s, w, e).Some?
    ensures Inv(cfg, WorkerStep(cfg, s, w, e).value)
  {
    hide Awaited, Tokens, Leased, Ordered;
    assert s.workers[w].token < s.nextToken by { TokenKnown(s, w); }
    KeepRunning(s, w, if e.SendBeat? then s.workers[w].(beat := Some(s.now))
                      else s.workers[w].(deadline := s.workers[w].beat.value + cfg.lease - MARGIN, beat := None));
  }

  lemma TokenKnown(s: State, w: nat)
    requires w < |s.workers| && s.workers[w].Running?
    requires Tokens(s.nextToken, s.holder, s.workers, s.grants, s.releases)
    ensures s.workers[w].token < s.nextToken
  {
  }

  lemma EmitKeeps(cfg: Config, s: State, w: nat)
    requires Timely(cfg) && Inv(cfg, s) && w < |s.workers|
    requires WorkerStep(cfg, s, w, Emit(w)).Some?
    ensures Inv(cfg, WorkerStep(cfg, s, w, Emit(w)).value)
  {
  }

  lemma GrantClaimKeeps(cfg: Config, s: State, e: Event)
    requires Timely(cfg) && Inv(cfg, s) && e.GrantClaim? && CatalogStep(cfg, s, e).Some?
    ensures Inv(cfg, CatalogStep(cfg, s, e).value)
  {
  }

  lemma AcceptBeatKeeps(cfg: Config, s: State, e: Event)
    requires Timely(cfg) && Inv(cfg, s) && e.AcceptBeat? && CatalogStep(cfg, s, e).Some?
    ensures Inv(cfg, CatalogStep(cfg, s, e).value)
  {
  }

  /** The lease runs out or is released. */
  lemma FreeKeeps(cfg: Config, s: State, e: Event)
    requires Timely(cfg) && Inv(cfg, s) && (e.Expire? || e.AcceptRelease?) && CatalogStep(cfg, s, e).Some?
    ensures Inv(cfg, CatalogStep(cfg, s, e).value)
  {
    hide Awaited;
  }

  lemma TickKeeps(cfg: Config, s: State, e: Event)
    requires Timely(cfg) && Inv(cfg, s) && e.Tick? && CatalogStep(cfg, s, e).Some?
    ensures Inv(cfg, CatalogStep(cfg, s, e).value)
  {
    hide Tokens, Ordered;
  }

  lemma CatalogStepKeeps(cfg: Config, s: State, e: Event)
    requires Timely(cfg) && Inv(cfg, s) && CatalogStep(cfg, s, e).Some?
    ensures Inv(cfg, CatalogStep(cfg, s, e).value)
  {
    hide Inv;
    match e
    case GrantClaim(_) => GrantClaimKeeps(cfg, s, e);
    case AcceptBeat(_) => AcceptBeatKeeps(cfg, s, e);
    case Tick(_) => TickKeeps(cfg, s, e);
    case _ => FreeKeeps(cfg, s, e);
  }

  lemma NextKeeps(cfg: Config, s: State, e: Event)
    requires Timely(cfg) && Inv(cfg, s) && Next(cfg, s, e).Some?
    ensures Inv(cfg, Next(cfg, s, e).value)
  {
    hide Inv, WorkerStep, CatalogStep;
    match e
    case SendClaim(w) => SendClaimKeeps(cfg, s, w);
    case ReceiveGrant(w, g) => ReceiveGrantKeeps(cfg, s, w, g);
    case AbandonClaim(w) => AbandonKeeps(cfg, s, w);
    case SendBeat(w) => BeatKeeps(cfg, s, w, e);
    case ReceiveAck(w) => BeatKeeps(cfg, s, w, e);
    case Watchdog(w) => WatchdogKeeps(cfg, s, w);
    case Stop(w) => StopKeeps(cfg, s, w);
    case SendRelease(w) => SendReleaseKeeps(cfg, s, w);
    case Emit(w) => EmitKeeps(cfg, s, w);
    case _ => CatalogStepKeeps(cfg, s, e);
  }

  lemma {:induction false} PlayInv(cfg: Config, events: seq<Event>)
    requires Timely(cfg) && Play(cfg, events).Some?
    ensures Inv(cfg, Play(cfg, events).value)
  {
    if events == [] {
      InitialInv(cfg);
    } else {
      var before := events[..|events| - 1];
      PlayInv(cfg, before);
      NextKeeps(cfg, Play(cfg, before).value, events[|events| - 1]);
    }
  }
}
