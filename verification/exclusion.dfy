/**
 What the lease protocol guarantees (worker.py): the lease outlasts every writer, and two workers
 exclude each other in every run exactly when scheduling delays stay below the worker's five seconds.
 */
module Exclusion {
  import opened Common
  import opened Lease

  /**
   Lease safety over all runs: whenever a worker may still write, the catalog holds its token,
   the lease has not expired, and the worker's own deadline is at least the margin before the
   expiry, however many claims and heartbeats were lost, delayed or duplicated. So two workers
   never write at the same time.
   */
  lemma LeaseSafety(cfg: Config, events: seq<Event>)
    requires Timely(cfg) && Play(cfg, events).Some?
    ensures var s := Play(cfg, events).value;
      && (forall w :: 0 <= w < |s.workers| && s.workers[w].Running? ==>
            && s.holder == Some(s.workers[w].token)
            && s.workers[w].deadline + 5000 <= s.expiry
            && s.now < s.expiry)
      && (forall v, w :: 0 <= v < w < |s.workers| ==> !(s.workers[v].Running? && s.workers[w].Running?))
  {
    PlayInv(cfg, events);
    var s := Play(cfg, events).value;
    forall w | 0 <= w < |s.workers| && s.workers[w].Running?
      ensures s.now < s.expiry && s.holder == Some(s.workers[w].token)
    {
      assert Covered(cfg, s.now, s.holder, s.expiry, s.workers[w]);
    }
  }

  /** The writes of different claims are never interleaved, and each one precedes its lease's expiry. */
  lemma WritesNeverInterleave(cfg: Config, events: seq<Event>, i: nat, j: nat, k: nat)
    requires Timely(cfg) && Play(cfg, events).Some?
    requires i < j < k < |Play(cfg, events).value.writes|
    ensures var writes := Play(cfg, events).value.writes;
      && writes[j].at < writes[j].expiry
      && (writes[i].token == writes[k].token ==> writes[j].token == writes[i].token)
  {
    PlayInv(cfg, events);
  }

  ghost predicate OneRuns(workers: seq<Worker>) {
    forall v, w :: 0 <= v < w < |workers| ==> !(workers[v].Running? && workers[w].Running?)
  }

  ghost predicate Exclusive(cfg: Config) {
    forall events :: Play(cfg, events).Some? ==> OneRuns(Play(cfg, events).value.workers)
  }

  lemma Step(cfg: Config, events: seq<Event>, s: State, e: Event) returns (events': seq<Event>, s': State)
    requires Play(cfg, events) == Some(s) && Next(cfg, s, e).Some?
    ensures events' == events + [e] && Some(s') == Next(cfg, s, e) == Play(cfg, events')
  {
    events', s' := events + [e], Next(cfg, s, e).value;
    assert events'[..|events'| - 1] == events;
  }

  /** Only the first worker runs, and its watchdog is due. */
  ghost predicate FirstRuns(cfg: Config, s: State, deadline: int) {
    && |s.workers| == cfg.workers >= 2 && s.workers[0] == Running(0, deadline, s.now, None, false)
    && (forall w :: 1 <= w < |s.workers| ==> s.workers[w] == Idle)
    && s.nextCall == s.nextToken == 1
    && s.holder == Some(0) && s.expiry == deadline + MARGIN
  }

  /** The first worker's claim is granted and answered at once. */
  lemma FirstClaims(cfg: Config) returns (events: seq<Event>, s: State)
    requires 2 <= cfg.workers && 0 < cfg.start && 0 <= cfg.claimTimeout
    ensures Play(cfg, events) == Some(s)
    ensures s.now == cfg.start && FirstRuns(cfg, s, cfg.start + cfg.lease - MARGIN)
  {
    s := Initial(cfg);
    assert Play(cfg, []) == Some(s);
    hide Play;
    events, s := Step(cfg, [], s, SendClaim(0));
    events, s := Step(cfg, events, s, GrantClaim(Call(0, cfg.start)));
    events, s := Step(cfg, events, s, ReceiveGrant(0, Grant(0, cfg.start, 0)));
  }

  /** Its watchdog polls, each time resumed on time, until the deadline is reached. */
  lemma {:induction false} PollsToDeadline(cfg: Config, events: seq<Event>, s: State, deadline: int)
    returns (events': seq<Event>, s': State)
    requires Play(cfg, events) == Some(s) && FirstRuns(cfg, s, deadline) && s.now <= deadline && 0 <= cfg.delay
    ensures Play(cfg, events') == Some(s') && FirstRuns(cfg, s', deadline) && s'.now == deadline
    decreases deadline - s.now
  {
    hide Play;
    events', s' := events, s;
    if s.now < deadline {
      events', s' := Step(cfg, events, s, Watchdog(0));
      events', s' := Step(cfg, events', s', Tick(Min(POLL, deadline - s.now)));
      events', s' := PollsToDeadline(cfg, events', s', deadline);
    }
  }

  /**
   The five seconds are needed: if the watchdog may be resumed that late at the deadline, the
   first worker still runs when the lease has expired and the catalog grants a second claim.
   */
  lemma LateWatchdogOverlaps(cfg: Config) returns (events: seq<Event>)
    requires 2 <= cfg.workers && 0 < cfg.start && MARGIN <= cfg.delay
    requires MARGIN <= cfg.lease && 0 <= cfg.claimTimeout
    ensures Play(cfg, events).Some? && !OneRuns(Play(cfg, events).value.workers)
  {
    hide Play;
    var s;
    events, s := FirstClaims(cfg);
    events, s := PollsToDeadline(cfg, events, s, cfg.start + cfg.lease - MARGIN);
    var again := Call(1, cfg.start + cfg.lease);
    events, s := Step(cfg, events, s, Tick(MARGIN));
    events, s := Step(cfg, events, s, Expire);
    events, s := Step(cfg, events, s, SendClaim(1));
    events, s := Step(cfg, events, s, GrantClaim(again));
    events, s := Step(cfg, events, s, ReceiveGrant(1, Grant(1, again.started, 1)));
    assert s.workers[0].Running? && s.workers[1].Running?;
  }

  /** Mutual exclusion of writers holds exactly when scheduling delays stay below the margin. */
  lemma ExclusionNeedsTheMargin(cfg: Config)
    requires 2 <= cfg.workers && 0 < cfg.start && 0 <= cfg.delay
    requires 0 <= cfg.claimTimeout <= cfg.lease - MARGIN
    ensures Exclusive(cfg) <==> cfg.delay < 5000
  {
    if cfg.delay < MARGIN {
      forall events | Play(cfg, events).Some?
        ensures OneRuns(Play(cfg, events).value.workers)
      {
        LeaseSafety(cfg, events);
      }
    } else {
      var events := LateWatchdogOverlaps(cfg);
    }
  }
}
