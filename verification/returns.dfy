/**
 When `execute` in runner.py returns: in every interleaving exactly if nothing fails, and if nothing has
 failed yet it always can. The concurrency it allows is also reached.
 */
module Returns {
  import opened Common
  import opened Runner

  predicate Legal(cfg: Config) { cfg.limit.Some? ==> 1 <= cfg.limit.value }

  /** Every entry is in scope, and no dataset is listed twice. */
  predicate InScopeOnce(scope: Scope, l: seq<Selection>) {
    && (forall i :: 0 <= i < |l| ==> l[i].scope == scope)
    && (forall i, j :: 0 <= i < j < |l| ==> l[i].code != l[j].code)
  }

  predicate WellListed(cfg: Config) { InScopeOnce(cfg.scope, cfg.listing) }

  /** Something outside the run goes wrong: setup, stream, an emit, the cleanup, or a cancellation arrives. */
  predicate Failing(e: Event) {
    match e
    case Prepare(ok) => !ok
    case SkipAck(ok) => !ok
    case EmitAck(_, ok) => !ok
    case Close(ok) => !ok
    case Abort(_, clean) => !clean
    case StreamFail => true
    case Interrupt(_) => true
    case _ => false
  }

  predicate Smooth(events: seq<Event>) { forall e :: e in events ==> !Failing(e) }

  /** How many entries were taken from the stream. */
  function Yields(events: seq<Event>): nat {
    if events == [] then 0 else Yields(events[..|events| - 1]) + (if events[|events| - 1].Yield? then 1 else 0)
  }

  // ---- Returning means that nothing failed ------------------------------------------------------

  /** Nothing has gone wrong so far. */
  ghost predicate Healthy(s: State) {
    && Normal(s.phase) && s.cancelling == {} && (s.phase.Draining? ==> !s.phase.cut)
    && forall c :: c in s.tasks ==> !s.tasks[c].Lost? && !s.tasks[c].Cancelled?
  }

  predicate OnErrorPath(p: Phase) { Leaving(p) && !p.exit.Returned? }

  /** The run is on its way out with an error, or will be. */
  ghost predicate Troubled(s: State) {
    OnErrorPath(s.phase) || exists c :: c in s.tasks && s.tasks[c].Lost?
  }

  /** The entries taken are those discovered, and perhaps one that was refused. */
  lemma {:induction false} YieldsCounted(cfg: Config, events: seq<Event>)
    requires Play(cfg, events).Some?
    ensures var s := Play(cfg, events).value;
      && s.discovered <= Yields(events) <= |cfg.listing|
      && (Yields(events) == s.discovered || (Yields(events) == s.discovered + 1 && OnErrorPath(s.phase)))
  {
    if events != [] {
      var before, e := events[..|events| - 1], events[|events| - 1];
      YieldsCounted(cfg, before);
      YieldStep(cfg, Play(cfg, before).value, e);
      hide Next, Play;
    }
  }

  lemma YieldStep(cfg: Config, s: State, e: Event)
    requires Next(cfg, s, e).Some?
    ensures var s' := Next(cfg, s, e).value;
      && (OnErrorPath(s.phase) ==> OnErrorPath(s'.phase) && !e.Yield?)
      && (if e.Yield?
          then s.discovered < |cfg.listing|
               && (s'.discovered == s.discovered + 1 || (s'.discovered == s.discovered && OnErrorPath(s'.phase)))
          else s'.discovered == s.discovered)
  {
  }

  lemma TakenPrefix(cfg: Config, s: State)
    requires Inv(cfg, s)
    ensures s.discovered <= |cfg.listing| && InScopeOnce(cfg.scope, cfg.listing[..s.discovered])
    ensures s.seen == Codes(cfg.listing[..s.discovered]) && s.tasks.Keys <= s.seen
  {
    hide Once, Bounded, Unwinding, Pooled, Accounted;
    var prefix := cfg.listing[..s.discovered];
    assert forall i :: 0 <= i < |prefix| ==> prefix[i] in prefix;
  }

  /** The next entry is refused exactly if the listing stops being well-formed with it. */
  lemma EntryRefused(cfg: Config, s: State)
    requires Inv(cfg, s) && s.discovered < |cfg.listing|
    ensures var sel := cfg.listing[s.discovered];
      sel.scope != cfg.scope || sel.code in s.seen <==> !InScopeOnce(cfg.scope, cfg.listing[..s.discovered + 1])
  {
    TakenPrefix(cfg, s);
    hide Inv;
    var prefix, more, sel := cfg.listing[..s.discovered], cfg.listing[..s.discovered + 1], cfg.listing[s.discovered];
    assert more == prefix + [sel];
    if sel.code in s.seen {
      var x :| x in prefix && x.code == sel.code;
      var i :| 0 <= i < |prefix| && prefix[i] == x;
      assert more[i].code == more[s.discovered].code;
    } else {
      assert forall i :: 0 <= i < |prefix| ==> prefix[i].code in Codes(prefix);
    }
    if sel.scope != cfg.scope {
      assert more[s.discovered].scope != cfg.scope;
    }
  }

  lemma HealthyTask(cfg: Config, s: State, e: Event)
    requires Healthy(s) && IsTaskEvent(e) && TaskStep(cfg, s, e).Some? && !Failing(e)
    ensures Healthy(TaskStep(cfg, s, e).value)
  {
  }

  lemma HealthyHarvest(cfg: Config, s: State)
    requires Inv(cfg, s) && Healthy(s) && s.phase.AwaitingSlot?
    ensures Healthy(Harvest(cfg, s)) && !Harvest(cfg, s).phase.Draining?
  {
    hide Inv;
  }

  lemma HealthyEntry(cfg: Config, s: State, sel: Selection)
    requires Healthy(s) && sel.scope == cfg.scope && sel.code !in s.seen
    ensures Healthy(Discover(cfg, s, sel))
  {
  }

  lemma HealthyGathered(s: State)
    requires Healthy(s) && s.phase.Gathering? && forall c :: c in s.pool ==> c in s.tasks && s.tasks[c].Finished?
    ensures Healthy(Leave(s, Returned))
  {
    assert Leave(s, Returned).cancelling == {};
  }

  lemma HealthyStep(cfg: Config, s: State, e: Event)
    requires Inv(cfg, s) && Healthy(s) && Next(cfg, s, e).Some? && !Failing(e)
    requires e.Yield? ==> s.discovered < |cfg.listing| ==>
               InScopeOnce(cfg.scope, cfg.listing[..s.discovered + 1])
    ensures Healthy(Next(cfg, s, e).value)
  {
    hide Inv, InScopeOnce, Discover, Harvest, TaskStep;
    if IsTaskEvent(e) {
      HealthyTask(cfg, s, e);
    } else if e.Yield? {
      EntryRefused(cfg, s);
      HealthyEntry(cfg, s, cfg.listing[s.discovered]);
    } else if e.SlotFree? {
      HealthyHarvest(cfg, s);
    } else if e.GatherOk? {
      HealthyGathered(s);
    }
  }

  lemma ExitStays(cfg: Config, s: State, e: Event)
    requires Next(cfg, s, e).Some? && OnErrorPath(s.phase)
    ensures OnErrorPath(Next(cfg, s, e).value.phase)
  {
  }

  lemma TroubledStep(cfg: Config, s: State, e: Event)
    requires Inv(cfg, s) && Troubled(s) && Next(cfg, s, e).Some?
    ensures Troubled(Next(cfg, s, e).value)
  {
    hide Inv, Next;
    if c :| c in s.tasks && s.tasks[c].Lost? {
      NextKeepsOver(cfg, s, e, c);
    } else {
      ExitStays(cfg, s, e);
    }
  }

  lemma TroubleStarts(cfg: Config, s: State, e: Event)
    requires Next(cfg, s, e).Some? && Failing(e)
    ensures Troubled(Next(cfg, s, e).value)
  {
    if IsTaskEvent(e) {
      assert e.code in Next(cfg, s, e).value.tasks;
    }
  }

  lemma RefusedStep(cfg: Config, s: State)
    requires Inv(cfg, s) && Next(cfg, s, Yield).Some? && s.discovered < |cfg.listing|
    requires !InScopeOnce(cfg.scope, cfg.listing[..s.discovered + 1])
    ensures Troubled(Next(cfg, s, Yield).value)
  {
    EntryRefused(cfg, s);
    hide Inv, InScopeOnce;
  }

  /** The limit is legal, no event failed, and every entry taken was in scope and new. */
  predicate NothingFailed(cfg: Config, events: seq<Event>)
    requires Yields(events) <= |cfg.listing|
  {
    Legal(cfg) && Smooth(events) && InScopeOnce(cfg.scope, cfg.listing[..Yields(events)])
  }

  lemma PrefixOnce(scope: Scope, l: seq<Selection>, m: nat, n: nat)
    requires m <= n <= |l| && InScopeOnce(scope, l[..n])
    ensures InScopeOnce(scope, l[..m])
  {
    assert l[..m] == l[..n][..m];
  }

  ghost predicate Foreseen(cfg: Config, events: seq<Event>, s: State) {
    && Yields(events) <= |cfg.listing|
    && if NothingFailed(cfg, events) then Healthy(s) else Troubled(s)
  }

  /** Every reached state is healthy, or already in trouble, as the events so far say. */
  lemma {:induction false} Outlook(cfg: Config, events: seq<Event>)
    requires Play(cfg, events).Some?
    ensures Foreseen(cfg, events, Play(cfg, events).value)
  {
    hide Inv, Next, Healthy, NothingFailed, Foreseen;
    YieldsCounted(cfg, events);
    if events == [] {
      NothingYet(cfg);
    } else {
      var before := events[..|events| - 1];
      Outlook(cfg, before);
      YieldsCounted(cfg, before);
      PlayInv(cfg, before);
      OutlookStep(cfg, before, events[|events| - 1], Play(cfg, before).value);
      assert before + [events[|events| - 1]] == events;
    }
  }

  lemma NothingYet(cfg: Config)
    ensures Foreseen(cfg, [], Initial(cfg))
  {
    assert cfg.listing[..0] == [];
    assert NothingFailed(cfg, []) <==> Legal(cfg);
  }

  lemma NotBoth(s: State)
    ensures !(Healthy(s) && OnErrorPath(s.phase))
  {
  }

  lemma OutlookStep(cfg: Config, before: seq<Event>, e: Event, s: State)
    requires Inv(cfg, s) && Next(cfg, s, e).Some? && Foreseen(cfg, before, s)
    requires Yields(before + [e]) <= |cfg.listing|
    requires Yields(before) == s.discovered || OnErrorPath(s.phase)
    ensures Foreseen(cfg, before + [e], Next(cfg, s, e).value)
  {
    var events := before + [e];
    assert events[..|before|] == before;
    SmoothGrows(before, e);
    NotBoth(s);
    hide Inv, Next, Healthy, Troubled, InScopeOnce, Smooth, Legal;
    if !NothingFailed(cfg, before) {
      TroubledStep(cfg, s, e);
      if InScopeOnce(cfg.scope, cfg.listing[..Yields(events)]) {
        PrefixOnce(cfg.scope, cfg.listing, Yields(before), Yields(events));
      }
    } else if Failing(e) {
      TroubleStarts(cfg, s, e);
    } else if !e.Yield? || InScopeOnce(cfg.scope, cfg.listing[..Yields(events)]) {
      HealthyStep(cfg, s, e);
    } else {
      RefusedStep(cfg, s);
    }
  }

  lemma SmoothGrows(events: seq<Event>, e: Event)
    ensures Smooth(events + [e]) <==> Smooth(events) && !Failing(e)
  {
    assert forall x :: x in events + [e] <==> x in events || x == e;
  }

  /**
   A run that is over has returned normally if and only if nothing failed: the limit was legal, every
   entry taken was in scope and new, and setup, stream, emits and cleanup succeeded without a cancellation.
   */
  lemma ReturnsIffNothingFails(cfg: Config, events: seq<Event>)
    requires Play(cfg, events).Some? && Play(cfg, events).value.phase.Left?
    ensures Yields(events) <= |cfg.listing|
    ensures Play(cfg, events).value.phase == Left(Returned) <==> NothingFailed(cfg, events)
  {
    Outlook(cfg, events);
    PlayInv(cfg, events);
    hide Play, NothingFailed, Core;
  }

  // ---- A run in which nothing has failed can return ---------------------------------------------

  lemma RunStep(cfg: Config, events: seq<Event>, r: State, e: Event) returns (events': seq<Event>, r': State)
    requires Play(cfg, events) == Some(r) && Smooth(events)
    requires Next(cfg, r, e).Some? && !Failing(e)
    ensures events' == events + [e] && Play(cfg, events') == Some(r') == Next(cfg, r, e) && Smooth(events')
  {
    events', r' := events + [e], Next(cfg, r, e).value;
    assert events'[..|events'| - 1] == events;
  }

  predicate NoneFailed(s: State) { forall x :: x in s.emitted ==> !x.outcome.Failed? }

  /** Only resolutions have moved on, and none of them has newly failed. */
  ghost predicate OnlyTasksMoved(r: State, r': State) {
    && r' == r.(tasks := r'.tasks, emitted := r'.emitted, accepted := r'.accepted, inFlight := r'.inFlight)
    && r'.tasks.Keys == r.tasks.Keys && (NoneFailed(r) ==> NoneFailed(r'))
  }

  /** The answer arrives and is emitted. */
  lemma FinishResolving(cfg: Config, events: seq<Event>, r: State, c: Code) returns (events': seq<Event>, r': State)
    requires Play(cfg, events) == Some(r) && Smooth(events)
    requires c in r.tasks && r.tasks[c].Resolving? && c !in r.cancelling
    ensures events <= events' && Play(cfg, events') == Some(r') && Smooth(events')
    ensures OnlyTasksMoved(r, r') && r'.tasks == r.tasks[c := Finished]
  {
    hide Play, Smooth;
    events', r' := RunStep(cfg, events, r, Answer(c, Documents(true)));
    events', r' := RunStep(cfg, events', r', EmitAck(c, true));
  }

  /** A resolution that is not over runs to its end. */
  lemma FinishTask(cfg: Config, events: seq<Event>, r: State, c: Code) returns (events': seq<Event>, r': State)
    requires Play(cfg, events) == Some(r) && Smooth(events)
    requires c in r.tasks && !Over(r.tasks[c]) && c !in r.cancelling
    ensures events <= events' && Play(cfg, events') == Some(r') && Smooth(events')
    ensures OnlyTasksMoved(r, r') && r'.tasks == r.tasks[c := Finished]
  {
    hide Play, Smooth;
    events', r' := events, r;
    if r.tasks[c].Emitting? {
      events', r' := RunStep(cfg, events, r, EmitAck(c, true));
    } else {
      if r.tasks[c].Created? {
        events', r' := RunStep(cfg, events, r, Start(c));
      } else if r.tasks[c].Backoff? {
        events', r' := RunStep(cfg, events, r, Wake(c));
      }
      events', r' := FinishResolving(cfg, events', r', c);
    }
  }

  ghost predicate AllFinished(r: State) { forall c :: c in r.tasks ==> r.tasks[c].Finished? }

  lemma {:induction false} FinishAll(cfg: Config, events: seq<Event>, r: State)
    returns (events': seq<Event>, r': State)
    requires Play(cfg, events) == Some(r) && Smooth(events) && Healthy(r)
    ensures events <= events' && Play(cfg, events') == Some(r') && Smooth(events')
    ensures OnlyTasksMoved(r, r') && AllFinished(r')
    decreases |Unfinished(r)|
  {
    hide Play, Smooth;
    events', r' := events, r;
    if c :| c in r.tasks && !Over(r.tasks[c]) {
      events', r' := FinishTask(cfg, events, r, c);
      assert Unfinished(r') == Unfinished(r) - {c};
      events', r' := FinishAll(cfg, events', r');
    }
  }

  predicate Full(cfg: Config, s: State) { s.pool != {} && |s.pool| >= cfg.concurrency }

  lemma TaskKeepsMain(cfg: Config, s: State, e: Event)
    requires IsTaskEvent(e) && TaskStep(cfg, s, e).Some?
    ensures TaskStep(cfg, s, e).value.phase == s.phase && TaskStep(cfg, s, e).value.pool == s.pool
  {
  }

  lemma EntryFills(cfg: Config, s: State, sel: Selection)
    requires Discover(cfg, s, sel).phase.AwaitingSlot?
    ensures Full(cfg, Discover(cfg, s, sel))
  {
    assert sel.code in s.pool + {sel.code};
  }

  lemma HarvestGoesOn(cfg: Config, s: State)
    ensures !Harvest(cfg, s).phase.AwaitingSlot?
  {
  }

  /** The loop waits for a slot only when the pool is full. */
  lemma SlotStep(cfg: Config, s: State, e: Event)
    requires Next(cfg, s, e).Some? && Next(cfg, s, e).value.phase.AwaitingSlot?
    requires s.phase.AwaitingSlot? ==> Full(cfg, s)
    ensures Full(cfg, Next(cfg, s, e).value)
  {
    hide Full, TaskStep, Discover, Harvest;
    if IsTaskEvent(e) {
      TaskKeepsMain(cfg, s, e);
      assert Full(cfg, s) ==> Full(cfg, Next(cfg, s, e).value) by { FullSame(cfg, s, Next(cfg, s, e).value); }
    } else if s.phase.Discovering? && e.Yield? {
      EntryFills(cfg, s, cfg.listing[s.discovered]);
    } else if s.phase.AwaitingSlot? && e.SlotFree? {
      HarvestGoesOn(cfg, s);
    }
  }

  lemma FullSame(cfg: Config, s: State, s': State)
    requires s'.pool == s.pool
    ensures Full(cfg, s) ==> Full(cfg, s')
  {
  }

  lemma {:induction false} WaitsWhenFull(cfg: Config, events: seq<Event>)
    requires Play(cfg, events).Some? && Play(cfg, events).value.phase.AwaitingSlot?
    ensures Full(cfg, Play(cfg, events).value)
  {
    if events != [] {
      var before := events[..|events| - 1];
      if Play(cfg, before).value.phase.AwaitingSlot? {
        WaitsWhenFull(cfg, before);
      }
      SlotStep(cfg, Play(cfg, before).value, events[|events| - 1]);
      hide Next, Full;
    }
  }

  lemma SmoothIsHealthy(cfg: Config, events: seq<Event>)
    requires Play(cfg, events).Some? && Smooth(events) && Legal(cfg) && WellListed(cfg)
    ensures Healthy(Play(cfg, events).value)
  {
    Outlook(cfg, events);
    assert cfg.listing[..|cfg.listing|] == cfg.listing;
    PrefixOnce(cfg.scope, cfg.listing, Yields(events), |cfg.listing|);
  }

  function Rank(p: Phase): nat {
    match p
    case Preparing => 6
    case Skipping(_) => 5
    case AwaitingSlot => 5
    case Discovering => 4
    case Gathering => 3
    case Draining(_, _) => 2
    case Closing(_) => 1
    case Left(_) => 0
  }

  /** The next step of the loop once every resolution so far has finished. */
  function NextMain(cfg: Config, r: State): Event {
    match r.phase
    case Preparing => Prepare(true)
    case Skipping(_) => SkipAck(true)
    case AwaitingSlot => SlotFree
    case Discovering => if r.discovered < |cfg.listing| then Yield else StreamEnd
    case Gathering => GatherOk
    case Draining(_, _) => Drained
    case _ => Close(true)
  }

  ghost predicate Advanced(cfg: Config, r: State, r': State) {
    && r.discovered <= r'.discovered <= |cfg.listing|
    && (r'.discovered == r.discovered ==> Rank(r'.phase) < Rank(r.phase))
    && (NoneFailed(r) ==> NoneFailed(r'))
  }

  lemma EntryMoves(cfg: Config, r: State)
    requires Inv(cfg, r) && r.phase.Discovering? && WellListed(cfg) && r.discovered < |cfg.listing|
    ensures NextMain(cfg, r) == Yield && Next(cfg, r, Yield).Some? && Advanced(cfg, r, Next(cfg, r, Yield).value)
  {
    EntryRefused(cfg, r);
    assert cfg.listing[..|cfg.listing|] == cfg.listing;
    PrefixOnce(cfg.scope, cfg.listing, r.discovered + 1, |cfg.listing|);
    hide Inv, InScopeOnce, Advanced, Enter, Awaits;
    EntryAdvances(cfg, r, cfg.listing[r.discovered]);
  }

  lemma EntryAdvances(cfg: Config, r: State, sel: Selection)
    requires r.discovered < |cfg.listing|
    ensures Advanced(cfg, r, Enter(r, sel).(phase := Awaits(cfg, Enter(r, sel), sel)))
  {
  }

  lemma HarvestMoves(cfg: Config, r: State)
    requires AllFinished(r) && r.phase.AwaitingSlot? && r.pool != {} && r.pool <= r.tasks.Keys
    requires r.discovered <= |cfg.listing|
    ensures NextMain(cfg, r) == SlotFree && Next(cfg, r, SlotFree).Some?
    ensures Advanced(cfg, r, Next(cfg, r, SlotFree).value)
  {
    var c :| c in r.pool;
    assert Over(r.tasks[c]);
  }

  lemma GatherMoves(cfg: Config, r: State)
    requires AllFinished(r) && r.phase.Gathering? && r.pool <= r.tasks.Keys && r.discovered <= |cfg.listing|
    ensures NextMain(cfg, r) == GatherOk && Next(cfg, r, GatherOk).Some?
    ensures Advanced(cfg, r, Next(cfg, r, GatherOk).value)
  {
  }

  lemma OtherMoves(cfg: Config, r: State)
    requires AllFinished(r) && r.pool <= r.tasks.Keys && r.discovered <= |cfg.listing|
    requires r.phase.Preparing? || r.phase.Skipping? || r.phase.Draining? || r.phase.Closing?
             || (r.phase.Discovering? && r.discovered == |cfg.listing|)
    ensures Next(cfg, r, NextMain(cfg, r)).Some? && Advanced(cfg, r, Next(cfg, r, NextMain(cfg, r)).value)
  {
  }

  lemma SmoothMain(cfg: Config, r: State)
    ensures !Failing(NextMain(cfg, r))
  {
  }

  lemma MainMoves(cfg: Config, r: State)
    requires Inv(cfg, r) && AllFinished(r) && WellListed(cfg) && !r.phase.Left?
    requires r.phase.AwaitingSlot? ==> Full(cfg, r)
    ensures Next(cfg, r, NextMain(cfg, r)).Some? && !Failing(NextMain(cfg, r))
    ensures Advanced(cfg, r, Next(cfg, r, NextMain(cfg, r)).value)
  {
    TakenPrefix(cfg, r);
    PoolKnown(cfg, r);
    SmoothMain(cfg, r);
    hide Inv, InScopeOnce, Next, AllFinished, Advanced, NextMain, Failing;
    if r.phase.Discovering? && r.discovered < |cfg.listing| {
      EntryMoves(cfg, r);
    } else if r.phase.AwaitingSlot? {
      HarvestMoves(cfg, r);
    } else if r.phase.Gathering? {
      GatherMoves(cfg, r);
    } else {
      OtherMoves(cfg, r);
    }
  }

  lemma PoolKnown(cfg: Config, r: State)
    requires Inv(cfg, r)
    ensures r.pool <= r.tasks.Keys
  {
  }

  /**
   While nothing has failed, a run over a well-formed listing with a legal limit can always still
   return, whatever has happened so far, without anything failing and with no further dataset failing.
   */
  lemma {:induction false} CanReturn(cfg: Config, events: seq<Event>, r: State)
    returns (more: seq<Event>, late: State)
    requires Play(cfg, events) == Some(r) && Smooth(events) && Legal(cfg) && WellListed(cfg)
    ensures Play(cfg, events + more) == Some(late) && Smooth(events + more) && late.phase == Left(Returned)
    ensures NoneFailed(r) ==> NoneFailed(late)
    decreases |cfg.listing| - r.discovered, Rank(r.phase)
  {
    hide Play, Inv, Next, Smooth, NoneFailed, InScopeOnce, Legal, Healthy;
    DiscoveredBounded(cfg, events, r);
    if r.phase.Left? {
      SmoothIsHealthy(cfg, events);
      HealthyEnd(r);
      more, late := [], r;
      assert events + more == events;
    } else {
      var all, now := OneRound(cfg, events, r);
      DiscoveredBounded(cfg, all, now);
      more, late := CanReturn(cfg, all, now);
      assert events + (all[|events|..] + more) == all + more;
      more := all[|events|..] + more;
    }
  }

  lemma DiscoveredBounded(cfg: Config, events: seq<Event>, r: State)
    requires Play(cfg, events) == Some(r)
    ensures r.discovered <= |cfg.listing|
  {
    PlayInv(cfg, events);
    TakenPrefix(cfg, r);
    hide Play, Inv;
  }

  lemma HealthyEnd(r: State)
    requires Healthy(r) && r.phase.Left?
    ensures r.phase == Left(Returned)
  {
  }

  /** All resolutions finish, and the loop takes one step. */
  lemma OneRound(cfg: Config, events: seq<Event>, r: State) returns (all: seq<Event>, now: State)
    requires Play(cfg, events) == Some(r) && Smooth(events) && Legal(cfg) && WellListed(cfg) && !r.phase.Left?
    ensures events <= all && Play(cfg, all) == Some(now) && Smooth(all) && Advanced(cfg, r, now)
  {
    SmoothIsHealthy(cfg, events);
    hide Play, Inv, Next, Smooth, Healthy, WellListed, Legal;
    all, now := FinishAll(cfg, events, r);
    PlayInv(cfg, all);
    if now.phase.AwaitingSlot? {
      WaitsWhenFull(cfg, all);
    }
    MainMoves(cfg, now);
    all, now := RunStep(cfg, all, now, NextMain(cfg, now));
  }

  lemma AcceptedAsEmitted(cfg: Config, s: State)
    requires Inv(cfg, s) && NoneFailed(s)
    ensures forall c :: c in s.accepted ==> !s.accepted[c].Failed?
  {
    hide Walked, Once, Bounded, Unwinding, Pooled;
    forall c | c in s.accepted ensures !s.accepted[c].Failed? {
      if c in s.tasks {
        assert TaskAccount(cfg.retries, c, s.tasks[c], s.emitted, s.accepted);
      } else {
        assert SkipAccount(s.phase, c, s.emitted, s.accepted);
      }
    }
  }

  /** For every such input some run returns with every dataset it fetched saved. */
  lemma SomeRunSavesAll(cfg: Config) returns (events: seq<Event>, s: State)
    requires Legal(cfg) && WellListed(cfg)
    ensures Play(cfg, events) == Some(s) && Smooth(events) && s.phase == Left(Returned)
    ensures forall c :: c in s.accepted ==> !s.accepted[c].Failed?
  {
    events, s := CanReturn(cfg, [], Initial(cfg));
    assert [] + events == events;
    PlayInv(cfg, events);
    AcceptedAsEmitted(cfg, s);
  }

  // ---- The concurrency is used ------------------------------------------------------------------

  /** How many resolutions may be open at once before the loop stops taking entries. */
  function Room(cfg: Config): nat
    requires Legal(cfg)
  {
    if cfg.limit.Some? then Min(Capacity(cfg), cfg.limit.value) else Capacity(cfg)
  }

  /** The stream is being asked, and every resolution so far awaits its answer. */
  ghost predicate AllOpen(r: State, n: nat) {
    && r.phase.Discovering? && r.discovered == n && r.cancelling == {} && r.pool == r.tasks.Keys
    && forall c :: c in r.tasks ==> r.tasks[c] == Resolving(0)
  }

  lemma OpenCount(cfg: Config, r: State, n: nat)
    requires Inv(cfg, r) && AllOpen(r, n)
    ensures n <= |cfg.listing| && r.attempts == |r.pool| == FetchCount(cfg.listing[..n])
  {
    hide Once, Bounded, Unwinding, Pooled, Accounted, Codes, Fetchable, DistinctCodes;
  }

  /** Another entry to fetch is taken and its resolution started. */
  lemma OpenNext(cfg: Config, events: seq<Event>, r: State, n: nat) returns (events': seq<Event>, r': State)
    requires Play(cfg, events) == Some(r) && Smooth(events) && WellListed(cfg)
    requires AllOpen(r, n) && n < |cfg.listing| && cfg.listing[n].shouldFetch
    ensures Play(cfg, events') == Some(r') && Smooth(events')
    ensures r'.pool == r'.tasks.Keys && |r'.pool| == |r.pool| + 1 && r'.discovered == n + 1 && r'.cancelling == {}
    ensures forall c :: c in r'.tasks ==> r'.tasks[c] == Resolving(0)
    ensures r'.phase == if |r'.pool| >= cfg.concurrency then AwaitingSlot else AfterAttempt(cfg, r.attempts + 1)
  {
    hide Play, Smooth, WellListed, Next;
    events', r' := TakeEntry(cfg, events, r);
    events', r' := StartEntry(cfg, events', r', cfg.listing[n].code);
  }

  /** An entry to fetch is taken from the stream. */
  lemma TakeEntry(cfg: Config, events: seq<Event>, r: State) returns (events': seq<Event>, r': State)
    requires Play(cfg, events) == Some(r) && Smooth(events) && WellListed(cfg) && r.phase.Discovering?
    requires r.discovered < |cfg.listing| && cfg.listing[r.discovered].shouldFetch
    ensures Play(cfg, events') == Some(r') && Smooth(events')
    ensures var code := cfg.listing[r.discovered].code;
      && code !in r.tasks && code !in r.seen && r'.tasks == r.tasks[code := Created] && r'.pool == r.pool + {code}
      && r'.accepted == r.accepted && r'.cancelling == r.cancelling && r'.listingComplete == r.listingComplete
      && r'.discovered == r.discovered + 1
      && r'.phase == if |r'.pool| >= cfg.concurrency then AwaitingSlot else AfterAttempt(cfg, r.attempts + 1)
  {
    PlayInv(cfg, events);
    NextIsNew(cfg, r);
    hide Play, Smooth, Inv, WellListed;
    events', r' := RunStep(cfg, events, r, Yield);
  }

  lemma StartEntry(cfg: Config, events: seq<Event>, r: State, c: Code) returns (events': seq<Event>, r': State)
    requires Play(cfg, events) == Some(r) && Smooth(events)
    requires c in r.tasks && r.tasks[c].Created? && c !in r.cancelling
    ensures Play(cfg, events') == Some(r') && Smooth(events')
    ensures r' == r.(tasks := r.tasks[c := Resolving(0)], inFlight := r.inFlight + 1)
  {
    hide Play, Smooth;
    events', r' := RunStep(cfg, events, r, Start(c));
  }

  /** The next entry is in scope and new. */
  lemma NextIsNew(cfg: Config, r: State)
    requires Inv(cfg, r) && WellListed(cfg) && r.discovered < |cfg.listing|
    ensures cfg.listing[r.discovered].code !in r.seen && cfg.listing[r.discovered].code !in r.tasks
    ensures cfg.listing[r.discovered].scope == cfg.scope
  {
    EntryRefused(cfg, r);
    TakenPrefix(cfg, r);
    assert cfg.listing[..|cfg.listing|] == cfg.listing;
    PrefixOnce(cfg.scope, cfg.listing, r.discovered + 1, |cfg.listing|);
    hide Inv, InScopeOnce;
  }

  lemma PassSkip(cfg: Config, events: seq<Event>, r: State, n: nat) returns (events': seq<Event>, r': State)
    requires Play(cfg, events) == Some(r) && Smooth(events) && WellListed(cfg)
    requires AllOpen(r, n) && n < |cfg.listing| && !cfg.listing[n].shouldFetch
    ensures Play(cfg, events') == Some(r') && Smooth(events') && AllOpen(r', n + 1)
  {
    hide Play, Smooth, Inv, WellListed, Next;
    events', r' := TakeSkip(cfg, events, r);
    events', r' := AckSkip(cfg, events', r', n);
  }

  /** An entry not to be fetched is taken from the stream. */
  lemma TakeSkip(cfg: Config, events: seq<Event>, r: State) returns (events': seq<Event>, r': State)
    requires Play(cfg, events) == Some(r) && Smooth(events) && WellListed(cfg) && r.phase.Discovering?
    requires r.discovered < |cfg.listing| && !cfg.listing[r.discovered].shouldFetch
    ensures Play(cfg, events') == Some(r') && Smooth(events')
    ensures r'.phase == Skipping(cfg.listing[r.discovered].code) && r'.discovered == r.discovered + 1
    ensures r'.tasks == r.tasks && r'.pool == r.pool && r'.cancelling == r.cancelling
    ensures r'.accepted == r.accepted && r'.listingComplete == r.listingComplete
  {
    PlayInv(cfg, events);
    NextIsNew(cfg, r);
    hide Play, Smooth, Inv, WellListed;
    events', r' := RunStep(cfg, events, r, Yield);
  }

  lemma AckSkip(cfg: Config, events: seq<Event>, r: State, n: nat) returns (events': seq<Event>, r': State)
    requires Play(cfg, events) == Some(r) && Smooth(events)
    requires r.phase.Skipping? && AllOpen(r.(phase := Discovering), n + 1)
    ensures Play(cfg, events') == Some(r') && Smooth(events') && AllOpen(r', n + 1)
  {
    hide Play, Smooth;
    events', r' := RunStep(cfg, events, r, SkipAck(true));
  }

  lemma {:induction false} WalkAhead(cfg: Config, n: nat) returns (events: seq<Event>, r: State)
    requires Legal(cfg) && WellListed(cfg) && n <= |cfg.listing| && FetchCount(cfg.listing[..n]) < Room(cfg)
    ensures Play(cfg, events) == Some(r) && Smooth(events) && AllOpen(r, n)
  {
    if n == 0 {
      assert Play(cfg, []) == Some(Initial(cfg));
      hide Play;
      events, r := RunStep(cfg, [], Initial(cfg), Prepare(true));
    } else {
      FetchCountMonotone(cfg.listing, n - 1, n);
      events, r := WalkAhead(cfg, n - 1);
      PlayInv(cfg, events);
      OpenCount(cfg, r, n - 1);
      assert cfg.listing[..n][..n - 1] == cfg.listing[..n - 1];
      hide Play, Smooth, WellListed, Inv;
      if cfg.listing[n - 1].shouldFetch {
        events, r := OpenNext(cfg, events, r, n - 1);
      } else {
        events, r := PassSkip(cfg, events, r, n - 1);
      }
    }
  }

  /** The shortest prefix with `count` entries to fetch. */
  lemma {:induction false} PrefixWith(l: seq<Selection>, count: nat) returns (n: nat)
    requires 1 <= count <= FetchCount(l)
    ensures n < |l| && l[n].shouldFetch && FetchCount(l[..n]) == count - 1
  {
    n := |l| - 1;
    if !(l[n].shouldFetch && FetchCount(l) == count) {
      n := PrefixWith(l[..n], count);
      assert l[..|l| - 1][..n] == l[..n];
    }
  }

  /**
   The bound on open resolutions is reached: some run in which nothing fails has as many in flight at once
   as the concurrency, the limit and the entries to fetch allow.
   */
  lemma ConcurrencyIsReached(cfg: Config) returns (events: seq<Event>, s: State)
    requires Legal(cfg) && WellListed(cfg)
    ensures Play(cfg, events) == Some(s) && Smooth(events)
    ensures var most := Min(Max(1, cfg.concurrency), FetchCount(cfg.listing));
      s.inFlight == |Unfinished(s)| == if cfg.limit.Some? then Min(most, cfg.limit.value) else most
  {
    var count := Min(Room(cfg), FetchCount(cfg.listing));
    if count == 0 {
      events, s := [], Initial(cfg);
      assert Unfinished(s) == {};
    } else {
      var n := PrefixWith(cfg.listing, count);
      events, s := WalkAhead(cfg, n);
      PlayInv(cfg, events);
      OpenCount(cfg, s, n);
      hide Play, Smooth, WellListed, Inv;
      events, s := OpenNext(cfg, events, s, n);
      AllInFlight(cfg, events, s);
    }
  }

  lemma AllInFlight(cfg: Config, events: seq<Event>, s: State)
    requires Play(cfg, events) == Some(s) && s.pool == s.tasks.Keys
    requires forall c :: c in s.tasks ==> s.tasks[c] == Resolving(0)
    ensures s.inFlight == |Unfinished(s)| == |s.pool|
  {
    PlayInv(cfg, events);
    assert Unfinished(s) == s.tasks.Keys == InFlight(s.tasks);
  }

  // ---- Every run can end ------------------------------------------------------------------------

  lemma AnyStep(cfg: Config, events: seq<Event>, r: State, e: Event) returns (events': seq<Event>, r': State)
    requires Play(cfg, events) == Some(r) && Next(cfg, r, e).Some?
    ensures events' == events + [e] && Play(cfg, events') == Some(r') == Next(cfg, r, e)
  {
    events', r' := events + [e], Next(cfg, r, e).value;
    assert events'[..|events'| - 1] == events;
  }

  lemma OpenIsCancelling(cfg: Config, r: State, c: Code)
    requires Inv(cfg, r) && Leaving(r.phase) && c in r.tasks && !Over(r.tasks[c])
    ensures c in r.cancelling
  {
    hide Walked, Once, Bounded, Accounted;
  }

  lemma AbortOne(cfg: Config, events: seq<Event>, r: State, c: Code) returns (events': seq<Event>, r': State)
    requires Play(cfg, events) == Some(r) && c in r.tasks && !Over(r.tasks[c]) && c in r.cancelling
    ensures events <= events' && Play(cfg, events') == Some(r')
    ensures r'.phase == r.phase && r'.pool == r.pool && r'.tasks == r.tasks[c := Cancelled]
  {
    hide Play;
    events', r' := AnyStep(cfg, events, r, Abort(c, true));
  }

  lemma OneFewerOpen(r: State, r': State, c: Code)
    requires c in Unfinished(r) && r'.tasks == r.tasks[c := Cancelled]
    ensures r'.tasks.Keys == r.tasks.Keys && |Unfinished(r')| < |Unfinished(r)|
  {
    assert Unfinished(r') == Unfinished(r) - {c};
  }

  lemma {:induction false} AbortAll(cfg: Config, events: seq<Event>, r: State)
    returns (events': seq<Event>, r': State)
    requires Play(cfg, events) == Some(r) && Leaving(r.phase)
    ensures events <= events' && Play(cfg, events') == Some(r')
    ensures r'.phase == r.phase && r'.pool == r.pool && r'.tasks.Keys == r.tasks.Keys && Unfinished(r') == {}
    decreases |Unfinished(r)|
  {
    events', r' := events, r;
    if c :| c in Unfinished(r) {
      PlayInv(cfg, events);
      OpenIsCancelling(cfg, r, c);
      hide Play, Inv;
      var one, now := AbortOne(cfg, events, r, c);
      OneFewerOpen(r, now, c);
      hide Unfinished, Over;
      events', r' := AbortAll(cfg, one, now);
    }
  }

  /** Whatever has happened, a run can still end: cancelled, it unwinds. */
  lemma CanLeave(cfg: Config, events: seq<Event>, r: State) returns (more: seq<Event>, late: State)
    requires Play(cfg, events) == Some(r)
    ensures Play(cfg, events + more) == Some(late) && late.phase.Left?
  {
    hide Play, Inv;
    var all := events;
    late := r;
    if !Leaving(late.phase) {
      all, late := AnyStep(cfg, all, late, Interrupt(Interrupted));
    }
    PlayInv(cfg, all);
    PoolKnown(cfg, late);
    all, late := AbortAll(cfg, all, late);
    all, late := UnwindsAway(cfg, all, late);
    more := all[|events|..];
    assert events + more == all;
  }

  lemma UnwindsAway(cfg: Config, events: seq<Event>, r: State) returns (events': seq<Event>, r': State)
    requires Play(cfg, events) == Some(r) && Leaving(r.phase) && Unfinished(r) == {} && r.pool <= r.tasks.Keys
    ensures events <= events' && Play(cfg, events') == Some(r') && r'.phase.Left?
  {
    NoneOpen(r);
    hide Play, Unfinished;
    events', r' := events, r;
    if r.phase.Draining? {
      events', r' := AnyStep(cfg, events, r, Drained);
    }
    if r'.phase.Closing? {
      events', r' := AnyStep(cfg, events', r', Close(true));
    }
  }

  lemma NoneOpen(r: State)
    requires Unfinished(r) == {} && r.pool <= r.tasks.Keys
    ensures forall c :: c in r.pool ==> c in r.tasks && Over(r.tasks[c])
  {
    forall c | c in r.pool ensures c in r.tasks && Over(r.tasks[c]) {
      assert c !in Unfinished(r);
    }
  }

  /** And once it has, nothing happens any more. */
  lemma LeftIsFinal(cfg: Config, r: State, e: Event)
    requires Inv(cfg, r) && r.phase.Left?
    ensures Next(cfg, r, e).None?
  {
    hide Walked, Once, Bounded, Accounted, InFlight;
  }

  /** A cancellation may arrive at any time until the run has left, and puts it on the error path for good. */
  lemma CancelledAnyTime(cfg: Config, events: seq<Event>, r: State, more: seq<Event>)
    requires Play(cfg, events) == Some(r) && !r.phase.Left?
    ensures Play(cfg, events + [Interrupt(Interrupted)]).Some?
    ensures Play(cfg, events + [Interrupt(Interrupted)] + more).Some? ==>
              Play(cfg, events + [Interrupt(Interrupted)] + more).value.phase != Left(Returned)
  {
    var cut := Interrupt(Interrupted);
    assert (events + [cut])[..|events|] == events;
    CanBeCancelled(cfg, r);
    var all := events + [cut] + more;
    assert cut in all;
    if Play(cfg, all).Some? && Play(cfg, all).value.phase == Left(Returned) {
      ReturnsIffNothingFails(cfg, all);
    }
    hide Play, Next;
  }

  lemma CanBeCancelled(cfg: Config, r: State)
    requires !r.phase.Left?
    ensures Next(cfg, r, Interrupt(Interrupted)).Some?
  {
  }

  /** Once every resolution has ended, the cleanup follows, unless the wait for them was itself cancelled. */
  lemma DrainedThenCloses(cfg: Config, r: State)
    requires r.phase.Draining? && Next(cfg, r, Drained).Some? && Next(cfg, r, Interrupt(Interrupted)).Some?
    ensures !r.phase.cut ==> Next(cfg, r, Drained).value.phase == Closing(r.phase.exit)
    ensures var cut := Next(cfg, r, Interrupt(Interrupted)).value;
      Next(cfg, cut, Drained).Some? && Next(cfg, cut, Drained).value.phase == Left(Interrupted)
  {
  }
}
