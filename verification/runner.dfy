/**
 Bounded discovery and resolution (`execute` in runner.py) as a state machine.

 One event is the code that runs between two awaits: of the coroutine that walks the
 discovery stream, or of one resolution task. The scheduler is any sequence of events, so
 a statement about every `Play` is a statement about every interleaving.
 */
module Runner {
  import opened Common

  type Code = string

  datatype Scope = Scope(provider: string, language: string)

  datatype Selection = Selection(scope: Scope, code: Code, shouldFetch: bool)

  datatype Outcome = Skipped | Saved | Failed

  datatype Record = Record(code: Code, outcome: Outcome)

  /** What one `resolve_dataset` call did; `Transient` errors are the retried ones. */
  datatype Reply = Documents(sameIdentity: bool) | Transient | Fatal

  datatype Config = Config(
    scope: Scope,
    listing: seq<Selection>,   // what the discovery stream would yield
    limit: Option<int>,
    concurrency: int,
    retries: nat)              // len(retry_delays)

  datatype Task =
    | Created                        // scheduled, body not entered
    | Resolving(attempt: nat)
    | Backoff(attempt: nat)
    | Emitting(outcome: Outcome)
    | Finished
    | Lost                           // emit (or cleanup) raised
    | Cancelled

  datatype Exit = Returned | Raised | Interrupted

  datatype Phase =
    | Preparing                      // set_limit, adapter construction
    | Discovering                    // awaiting the stream
    | Skipping(code: Code)           // awaiting the emit of a skip record
    | AwaitingSlot                   // asyncio.wait(tasks, FIRST_COMPLETED)
    | Gathering                      // gather(*tasks) after the loop
    | Draining(exit: Exit, cut: bool)// finally: gather(return_exceptions=True); cut: cancelled meanwhile
    | Closing(exit: Exit)
    | Left(exit: Exit)

  datatype State = State(
    phase: Phase,
    // Progress
    discovered: nat, inFlight: int, attempts: nat, listingComplete: bool,
    // locals
    seen: set<Code>, pool: set<Code>,
    // every task ever created, and those asked to cancel
    tasks: map<Code, Task>, cancelling: set<Code>,
    // calls of emit in order, and those it acknowledged
    emitted: seq<Record>, accepted: map<Code, Outcome>)

  datatype Event =
    | Prepare(ok: bool)
    | Yield | StreamEnd | StreamFail
    | SkipAck(ok: bool)
    | SlotFree
    | GatherOk | GatherRaise
    | Drained | Close(ok: bool)
    | Interrupt(exit: Exit)
    | Start(code: Code)
    | Answer(code: Code, reply: Reply)
    | Wake(code: Code)
    | EmitAck(code: Code, ok: bool)
    | Abort(code: Code, clean: bool)

  predicate Over(t: Task) { t.Finished? || t.Lost? || t.Cancelled? }

  predicate Running(t: Task) { t.Resolving? || t.Backoff? || t.Emitting? }

  /** `len(tasks) >= concurrency` is tested after adding, so one task always fits. */
  function Capacity(cfg: Config): nat { Max(1, cfg.concurrency) }

  function Initial(cfg: Config): State {
    State(if cfg.limit.Some? && cfg.limit.value < 1 then Left(Raised) else Preparing,
          0, 0, 0, false, {}, {}, map[], {}, [], map[])
  }

  /** Entering the `finally` block: every task still in `tasks` is asked to cancel. */
  function Leave(s: State, exit: Exit): State {
    s.(phase := Draining(exit, false),
       cancelling := set c | c in s.pool && c in s.tasks && !Over(s.tasks[c]))
  }

  /** The `limit` test that ends the body of the discovery loop. */
  function AfterAttempt(cfg: Config, attempts: nat): Phase {
    if cfg.limit.Some? && attempts >= cfg.limit.value then Gathering else Discovering
  }

  /** A selection is taken from the stream: recorded as seen, then its skip emitted or its task created. */
  function Enter(s: State, sel: Selection): State {
    var s := s.(seen := s.seen + {sel.code}, discovered := s.discovered + 1);
    if sel.shouldFetch then
      s.(attempts := s.attempts + 1, tasks := s.tasks[sel.code := Created], pool := s.pool + {sel.code})
    else
      s.(emitted := s.emitted + [Record(sel.code, Skipped)])
  }

  /** What the loop awaits after that. */
  function Awaits(cfg: Config, s: State, sel: Selection): Phase {
    if !sel.shouldFetch then Skipping(sel.code)
    else if |s.pool| >= cfg.concurrency then AwaitingSlot
    else AfterAttempt(cfg, s.attempts)
  }

  /** The discovery loop body for one selection. */
  function Discover(cfg: Config, s: State, sel: Selection): State {
    if sel.scope != cfg.scope || sel.code in s.seen
    then Leave(s, Raised)
    else Enter(s, sel).(phase := Awaits(cfg, Enter(s, sel), sel))
  }

  /** `asyncio.wait` returned: the finished tasks leave the pool, and the first failure is raised. */
  function Harvest(cfg: Config, s: State): State {
    var done := set c | c in s.pool && c in s.tasks && Over(s.tasks[c]);
    var s' := s.(pool := s.pool - done);
    if forall c | c in done :: s.tasks[c].Finished? then s'.(phase := AfterAttempt(cfg, s.attempts))
    else Leave(s', Raised)
  }

  function SetTask(s: State, c: Code, t: Task): State
    requires c in s.tasks
  {
    s.(tasks := s.tasks[c := t],
       inFlight := s.inFlight + (if Running(t) then 1 else 0) - (if Running(s.tasks[c]) then 1 else 0))
  }

  /** A resolution calls `emit` with its payload. */
  function Emit(s: State, c: Code, outcome: Outcome): State
    requires c in s.tasks
  {
    SetTask(s, c, Emitting(outcome)).(emitted := s.emitted + [Record(c, outcome)])
  }

  function AfterReply(cfg: Config, s: State, c: Code, attempt: nat, reply: Reply): State
    requires c in s.tasks
  {
    match reply
    case Documents(same) => Emit(s, c, if same then Saved else Failed)
    case Fatal => Emit(s, c, Failed)
    case Transient =>
      if attempt == cfg.retries then Emit(s, c, Failed) else SetTask(s, c, Backoff(attempt))
  }

  /** One step of the coroutine that walks the stream. */
  function MainStep(cfg: Config, s: State, e: Event): Option<State> {
    match (s.phase, e)
    case (Preparing, Prepare(ok)) => Some(if ok then s.(phase := Discovering) else Leave(s, Raised))
    case (Discovering, Yield) =>
      if s.discovered < |cfg.listing| then Some(Discover(cfg, s, cfg.listing[s.discovered])) else None
    case (Discovering, StreamEnd) =>
      if s.discovered == |cfg.listing|
      then Some(s.(phase := Gathering, listingComplete := cfg.limit.None?)) else None
    case (Discovering, StreamFail) => Some(Leave(s, Raised))
    case (Skipping(c), SkipAck(ok)) =>
      Some(if ok then s.(phase := Discovering, accepted := s.accepted[c := Skipped]) else Leave(s, Raised))
    case (AwaitingSlot, SlotFree) =>
      if exists c | c in s.pool :: c in s.tasks && Over(s.tasks[c]) then Some(Harvest(cfg, s)) else None
    case (Gathering, GatherOk) =>
      if forall c | c in s.pool :: c in s.tasks && s.tasks[c].Finished? then Some(Leave(s, Returned)) else None
    case (Gathering, GatherRaise) =>
      if exists c | c in s.pool :: c in s.tasks && s.tasks[c].Lost? then Some(Leave(s, Raised)) else None
    case (Draining(exit, cut), Drained) =>
      if forall c | c in s.pool :: c in s.tasks && Over(s.tasks[c])
      then Some(s.(phase := if cut then Left(exit) else Closing(exit))) else None
    case (Closing(exit), Close(ok)) => Some(s.(phase := Left(if ok then exit else Raised)))
    case (Left(_), Interrupt(_)) => None
    case (Draining(_, _), Interrupt(_)) => Some(s.(phase := Draining(Interrupted, true)))
    case (Closing(_), Interrupt(_)) => Some(s.(phase := Closing(Interrupted)))
    case (_, Interrupt(exit)) => if exit.Returned? then None else Some(Leave(s, exit))
    case (_, _) => None
  }

  predicate IsTaskEvent(e: Event) { e.Start? || e.Answer? || e.Wake? || e.EmitAck? || e.Abort? }

  /** One step of a resolution task. A cancelled task can only unwind. */
  function TaskStep(cfg: Config, s: State, e: Event): Option<State>
    requires IsTaskEvent(e)
  {
    var c := e.code;
    if c !in s.tasks then None
    else if c in s.cancelling then
      if e.Abort? && !Over(s.tasks[c]) then Some(SetTask(s, c, if e.clean then Cancelled else Lost)) else None
    else
      match (s.tasks[c], e)
      case (Created, Start(_)) => Some(SetTask(s, c, Resolving(0)))
      case (Resolving(k), Answer(_, reply)) => Some(AfterReply(cfg, s, c, k, reply))
      case (Backoff(k), Wake(_)) => Some(SetTask(s, c, Resolving(k + 1)))
      case (Emitting(o), EmitAck(_, ok)) =>
        Some(if ok then SetTask(s, c, Finished).(accepted := s.accepted[c := o]) else SetTask(s, c, Lost))
      case (_, _) => None
  }

  function Next(cfg: Config, s: State, e: Event): Option<State> {
    if IsTaskEvent(e)
    then TaskStep(cfg, s, e)
    else MainStep(cfg, s, e)
  }

  /** The state after a schedule, if the schedule is possible. */
  function Play(cfg: Config, events: seq<Event>): Option<State> {
    if events == [] then Some(Initial(cfg))
    else
      match Play(cfg, events[..|events| - 1])
      case None => None
      case Some(s) => Next(cfg, s, events[|events| - 1])
  }

  // ---- What every schedule keeps ------------------------------------------------------

  function Codes(l: seq<Selection>): set<Code> { set x | x in l :: x.code }

  function Fetchable(l: seq<Selection>): set<Code> { set x | x in l && x.shouldFetch :: x.code }

  function FetchCount(l: seq<Selection>): nat {
    if l == [] then 0 else FetchCount(l[..|l| - 1]) + (if l[|l| - 1].shouldFetch then 1 else 0)
  }

  ghost predicate DistinctCodes(l: seq<Selection>) {
    forall i, j :: 0 <= i < j < |l| ==> l[i].code != l[j].code
  }

  ghost function InFlight(tasks: map<Code, Task>): set<Code> { set c | c in tasks && Running(tasks[c]) }

  function Sent(emitted: seq<Record>): set<Code> { set r | r in emitted :: r.code }

  predicate Leaving(p: Phase) { p.Draining? || p.Closing? || p.Left? }

  /** Not on the way out because of a failure or a cancellation. */
  predicate Normal(p: Phase) { Leaving(p) ==> p.exit.Returned? }

  /** The locals agree with the walked prefix of the listing. */
  ghost predicate Walked(scope: Scope, l: seq<Selection>, seen: set<Code>, fetching: set<Code>, attempts: nat) {
    && DistinctCodes(l)
    && (forall x :: x in l ==> x.scope == scope)
    && seen == Codes(l)
    && fetching == Fetchable(l)
    && attempts == |fetching| == FetchCount(l)
    && fetching <= seen
    && |seen| == |l|
  }

  /** The pool holds every unfinished task. */
  ghost predicate Pooled(pool: set<Code>, tasks: map<Code, Task>) {
    && pool <= tasks.Keys
    && forall c :: c in tasks && c !in pool ==> Over(tasks[c])
  }

  /** The pool never overflows, and has room whenever the stream is being asked. */
  ghost predicate Bounded(cfg: Config, phase: Phase, size: nat) {
    && size <= Capacity(cfg)
    && (phase.Preparing? || phase.Discovering? || phase.Skipping? ==> size < Capacity(cfg))
  }

  /** Cancellation is asked for only on the way out, and nothing is left running at the end. */
  ghost predicate Unwinding(phase: Phase, pool: set<Code>, tasks: map<Code, Task>, cancelling: set<Code>) {
    if !Leaving(phase) then
      && cancelling == {}
      && (forall c :: c in tasks ==> !tasks[c].Cancelled?)
      && (forall c :: c in tasks && c !in pool ==> tasks[c].Finished?)
    else
      && cancelling <= pool
      && (forall c :: c in pool && c in tasks ==> Over(tasks[c]) || c in cancelling)
      && (phase.Closing? || phase.Left? ==> forall c :: c in tasks ==> Over(tasks[c]))
      && (phase.exit.Returned? ==> forall c :: c in tasks ==> tasks[c].Finished?)
  }

  /** Every dataset is emitted at most once. */
  ghost predicate Once(emitted: seq<Record>, seen: set<Code>) {
    && (forall i, j :: 0 <= i < j < |emitted| ==> emitted[i].code != emitted[j].code)
    && Sent(emitted) <= seen
  }

  /** A task and what it has emitted and had acknowledged. */
  ghost predicate TaskAccount(retries: nat, c: Code, t: Task, emitted: seq<Record>, accepted: map<Code, Outcome>) {
    && (t.Created? || t.Resolving? || t.Backoff? ==> c !in Sent(emitted))
    && (t.Emitting? ==> Record(c, t.outcome) in emitted && !t.outcome.Skipped?)
    && (t.Finished? <==> c in accepted)
    && (c in accepted ==> !accepted[c].Skipped? && Record(c, accepted[c]) in emitted)
    && (t.Resolving? ==> t.attempt <= retries)
    && (t.Backoff? ==> t.attempt < retries)
  }

  /** A selection that is not fetched and its skip record. */
  ghost predicate SkipAccount(phase: Phase, c: Code, emitted: seq<Record>, accepted: map<Code, Outcome>) {
    && Record(c, Skipped) in emitted
    && (c in accepted ==> accepted[c].Skipped?)
    && (phase == Skipping(c) ==> c !in accepted)
    && (Normal(phase) ==> c in accepted || phase == Skipping(c))
  }

  ghost predicate Accounted(retries: nat, phase: Phase, seen: set<Code>, tasks: map<Code, Task>,
                            emitted: seq<Record>, accepted: map<Code, Outcome>)
  {
    && (forall c :: c in tasks ==> TaskAccount(retries, c, tasks[c], emitted, accepted))
    && (forall c :: c in seen && c !in tasks ==> SkipAccount(phase, c, emitted, accepted))
    && (phase.Skipping? ==> phase.code in seen && phase.code !in tasks)
    && accepted.Keys <= seen
  }

  /** When discovery may have stopped, and what `listing_complete` then means. */
  ghost predicate Stopped(cfg: Config, phase: Phase, discovered: nat, attempts: nat, listingComplete: bool) {
    && discovered <= |cfg.listing|
    && (listingComplete ==> cfg.limit.None? && discovered == |cfg.listing| && (phase.Gathering? || Leaving(phase)))
    && (cfg.limit.Some? ==>
          && (phase != Left(Raised) ==> 1 <= cfg.limit.value)
          && (1 <= cfg.limit.value ==> attempts <= cfg.limit.value)
          && (phase.Preparing? || phase.Discovering? || phase.Skipping? ==> attempts < cfg.limit.value)
          && (1 <= cfg.limit.value == attempts ==> discovered > 0 && cfg.listing[discovered - 1].shouldFetch))
    && (phase.Gathering? || (Leaving(phase) && phase.exit.Returned?) ==>
          || (cfg.limit.Some? && attempts == cfg.limit.value)
          || (discovered == |cfg.listing| && (cfg.limit.None? ==> listingComplete)))
  }

  ghost predicate Core(cfg: Config, s: State) {
    && Stopped(cfg, s.phase, s.discovered, s.attempts, s.listingComplete)
    && Walked(cfg.scope, cfg.listing[..s.discovered], s.seen, s.tasks.Keys, s.attempts)
    && Pooled(s.pool, s.tasks)
    && Bounded(cfg, s.phase, |s.pool|)
    && Once(s.emitted, s.seen)
    && Accounted(cfg.retries, s.phase, s.seen, s.tasks, s.emitted, s.accepted)
    && s.inFlight == |InFlight(s.tasks)|
  }

  ghost predicate Inv(cfg: Config, s: State) {
    Core(cfg, s) && Unwinding(s.phase, s.pool, s.tasks, s.cancelling)
  }

  // ---- Preservation -------------------------------------------------------------------

  lemma InitialInv(cfg: Config)
    ensures Inv(cfg, Initial(cfg))
  {
    assert cfg.listing[..0] == [];
    assert InFlight(map[]) == {};
  }

  lemma CodesGrow(l: seq<Selection>, x: Selection)
    ensures Codes(l + [x]) == Codes(l) + {x.code}
    ensures Fetchable(l + [x]) == if x.shouldFetch then Fetchable(l) + {x.code} else Fetchable(l)
    ensures Fetchable(l) <= Codes(l)
  {
    assert forall y :: y in l + [x] <==> y in l || y == x;
  }

  lemma FetchCountGrows(l: seq<Selection>, x: Selection)
    ensures FetchCount(l + [x]) == FetchCount(l) + (if x.shouldFetch then 1 else 0)
  {
    assert (l + [x])[..|l|] == l;
  }

  lemma DistinctGrows(l: seq<Selection>, x: Selection)
    requires DistinctCodes(l) && x.code !in Codes(l)
    ensures DistinctCodes(l + [x])
  {
    assert forall i :: 0 <= i < |l| ==> l[i].code in Codes(l);
  }

  lemma PrefixGrows(scope: Scope, l: seq<Selection>, x: Selection, seen: set<Code>, fetching: set<Code>, attempts: nat)
    requires Walked(scope, l, seen, fetching, attempts) && x.scope == scope && x.code !in seen
    ensures x.code !in fetching
    ensures Walked(scope, l + [x], seen + {x.code},
                   if x.shouldFetch then fetching + {x.code} else fetching,
                   if x.shouldFetch then attempts + 1 else attempts)
  {
    hide Codes, Fetchable, FetchCount, DistinctCodes;
    CodesGrow(l, x);
    FetchCountGrows(l, x);
    DistinctGrows(l, x);
  }

  lemma SentGrows(emitted: seq<Record>, r: Record)
    ensures Sent(emitted + [r]) == Sent(emitted) + {r.code}
    ensures forall q :: q in emitted + [r] <==> q in emitted || q == r
  {
    assert forall q :: q in emitted + [r] <==> q in emitted || q == r;
  }

  lemma OnceGrows(emitted: seq<Record>, seen: set<Code>, r: Record)
    requires Once(emitted, seen) && r.code !in Sent(emitted)
    ensures Once(emitted + [r], seen + {r.code})
  {
    SentGrows(emitted, r);
    assert forall i :: 0 <= i < |emitted| ==> emitted[i].code in Sent(emitted);
  }

  /** Moving one task between states moves it in or out of `in_flight`. */
  lemma InFlightMoves(tasks: map<Code, Task>, c: Code, t: Task)
    requires c in tasks
    ensures |InFlight(tasks[c := t])|
         == |InFlight(tasks)| + (if Running(t) then 1 else 0) - (if Running(tasks[c]) then 1 else 0)
  {
    var rest := InFlight(tasks) - {c};
    assert InFlight(tasks) == if Running(tasks[c]) then rest + {c} else rest;
    assert InFlight(tasks[c := t]) == if Running(t) then rest + {c} else rest;
  }

  /** A record for another dataset leaves the accounts of the rest alone. */
  lemma AccountsGrow(retries: nat, phase: Phase, c: Code, t: Task, emitted: seq<Record>, accepted: map<Code, Outcome>,
                     r: Record)
    requires c != r.code
    ensures TaskAccount(retries, c, t, emitted, accepted) ==> TaskAccount(retries, c, t, emitted + [r], accepted)
    ensures SkipAccount(phase, c, emitted, accepted) ==> SkipAccount(phase, c, emitted + [r], accepted)
  {
    SentGrows(emitted, r);
  }

  /** Entering a phase that does not await a skip record. */
  lemma Enters(retries: nat, from: Phase, to: Phase, seen: set<Code>, tasks: map<Code, Task>,
               emitted: seq<Record>, accepted: map<Code, Outcome>)
    requires Accounted(retries, from, seen, tasks, emitted, accepted)
    requires !to.Skipping? && (Normal(to) ==> Normal(from) && !from.Skipping?)
    ensures Accounted(retries, to, seen, tasks, emitted, accepted)
  {
    forall c | c in seen && c !in tasks
      ensures SkipAccount(to, c, emitted, accepted)
    {
      assert SkipAccount(from, c, emitted, accepted);
    }
  }

  lemma LeaveUnwinding(s: State, exit: Exit)
    requires Pooled(s.pool, s.tasks)
    requires exit.Returned? ==> forall c :: c in s.tasks ==> s.tasks[c].Finished?
    ensures var s' := Leave(s, exit); Unwinding(s'.phase, s'.pool, s'.tasks, s'.cancelling)
  {
  }

  lemma LeaveKeeps(cfg: Config, s: State, exit: Exit)
    requires Core(cfg, s) && !Leaving(s.phase)
    requires exit.Returned? ==> s.phase.Gathering? && forall c :: c in s.tasks ==> s.tasks[c].Finished?
    ensures Inv(cfg, Leave(s, exit))
  {
    LeaveUnwinding(s, exit);
    Enters(cfg.retries, s.phase, Draining(exit, false), s.seen, s.tasks, s.emitted, s.accepted);
  }

  lemma NewTaskPooled(pool: set<Code>, tasks: map<Code, Task>, c: Code)
    requires Pooled(pool, tasks) && c !in tasks
    ensures tasks[c := Created].Keys == tasks.Keys + {c}
    ensures Pooled(pool + {c}, tasks[c := Created])
    ensures |pool + {c}| == |pool| + 1
    ensures InFlight(tasks[c := Created]) == InFlight(tasks)
  {
  }

  lemma NewTaskAccounts(retries: nat, phase: Phase, seen: set<Code>, tasks: map<Code, Task>, c: Code,
                        emitted: seq<Record>, accepted: map<Code, Outcome>)
    requires Accounted(retries, phase, seen, tasks, emitted, accepted) && Once(emitted, seen)
    requires c !in seen && !phase.Skipping?
    ensures Accounted(retries, phase, seen + {c}, tasks[c := Created], emitted, accepted)
  {
    assert TaskAccount(retries, c, Created, emitted, accepted);
    assert forall d :: d in tasks && d != c ==> tasks[c := Created][d] == tasks[d];
  }

  lemma NewTaskUnwinding(from: Phase, to: Phase, pool: set<Code>, tasks: map<Code, Task>, cancelling: set<Code>,
                         c: Code)
    requires Unwinding(from, pool, tasks, cancelling) && !Leaving(from) && !Leaving(to) && c !in tasks
    ensures Unwinding(to, pool + {c}, tasks[c := Created], cancelling)
  {
  }

  lemma PhaseUnwinding(from: Phase, to: Phase, pool: set<Code>, tasks: map<Code, Task>, cancelling: set<Code>)
    requires Unwinding(from, pool, tasks, cancelling) && !Leaving(from) && !Leaving(to)
    ensures Unwinding(to, pool, tasks, cancelling)
  {
  }

  lemma OnceWider(emitted: seq<Record>, seen: set<Code>, c: Code)
    requires Once(emitted, seen)
    ensures Once(emitted, seen + {c})
  {
  }

  lemma Fetched(scope: Scope, l: seq<Selection>, seen: set<Code>, fetching: set<Code>, attempts: nat)
    requires Walked(scope, l, seen, fetching, attempts)
    ensures fetching <= seen && fetching == Fetchable(l)
  {
  }

  lemma NewSkipAccounts(retries: nat, phase: Phase, seen: set<Code>, tasks: map<Code, Task>, c: Code,
                        emitted: seq<Record>, accepted: map<Code, Outcome>)
    requires Accounted(retries, phase, seen, tasks, emitted, accepted) && Once(emitted, seen)
    requires c !in seen && c !in tasks && phase.Discovering?
    ensures Once(emitted + [Record(c, Skipped)], seen + {c})
    ensures Accounted(retries, Skipping(c), seen + {c}, tasks, emitted + [Record(c, Skipped)], accepted)
  {
    var r := Record(c, Skipped);
    OnceGrows(emitted, seen, r);
    SentGrows(emitted, r);
    forall d | d in tasks
      ensures TaskAccount(retries, d, tasks[d], emitted + [r], accepted)
    {
      AccountsGrow(retries, phase, d, tasks[d], emitted, accepted, r);
    }
    forall d | d in seen + {c} && d !in tasks
      ensures SkipAccount(Skipping(c), d, emitted + [r], accepted)
    {
      if d != c {
        assert SkipAccount(phase, d, emitted, accepted);
      }
    }
  }

  lemma EnterWalked(cfg: Config, s: State, sel: Selection)
    requires Inv(cfg, s) && s.discovered < |cfg.listing| && sel == cfg.listing[s.discovered]
    requires sel.scope == cfg.scope && sel.code !in s.seen
    ensures var s' := Enter(s, sel);
      && sel.code !in s.tasks
      && Walked(cfg.scope, cfg.listing[..s'.discovered], s'.seen, s'.tasks.Keys, s'.attempts)
  {
    hide Pooled, Unwinding, Once, Accounted, Bounded, InFlight, Codes, Fetchable, FetchCount, DistinctCodes, Walked;
    PrefixGrows(cfg.scope, cfg.listing[..s.discovered], sel, s.seen, s.tasks.Keys, s.attempts);
    assert cfg.listing[..s.discovered + 1] == cfg.listing[..s.discovered] + [sel];
    assert sel.shouldFetch ==> s.tasks[sel.code := Created].Keys == s.tasks.Keys + {sel.code};
  }

  lemma EnterKeeps(cfg: Config, s: State, sel: Selection, phase: Phase)
    requires Inv(cfg, s) && s.phase.Discovering? && s.discovered < |cfg.listing|
    requires sel == cfg.listing[s.discovered] && sel.scope == cfg.scope && sel.code !in s.seen
    requires if sel.shouldFetch
             then phase.AwaitingSlot? || phase.Discovering? || phase.Gathering?
             else phase == Skipping(sel.code)
    requires Stopped(cfg, phase, Enter(s, sel).discovered, Enter(s, sel).attempts, s.listingComplete)
    requires Bounded(cfg, phase, |Enter(s, sel).pool|)
    ensures Inv(cfg, Enter(s, sel).(phase := phase))
  {
    hide Pooled, Unwinding, Once, Accounted, Stopped, Bounded, InFlight, Walked;
    var c := sel.code;
    EnterWalked(cfg, s, sel) by { assert s.discovered <= |cfg.listing|; }
    if sel.shouldFetch {
      Enters(cfg.retries, s.phase, phase, s.seen, s.tasks, s.emitted, s.accepted);
      NewTaskPooled(s.pool, s.tasks, c);
      NewTaskAccounts(cfg.retries, phase, s.seen, s.tasks, c, s.emitted, s.accepted);
      NewTaskUnwinding(s.phase, phase, s.pool, s.tasks, s.cancelling, c);
      OnceWider(s.emitted, s.seen, c);
    } else {
      PhaseUnwinding(s.phase, phase, s.pool, s.tasks, s.cancelling);
      NewSkipAccounts(cfg.retries, s.phase, s.seen, s.tasks, c, s.emitted, s.accepted);
    }
  }

  lemma TaskUnseen(cfg: Config, s: State, c: Code)
    requires Inv(cfg, s) && c !in s.seen
    ensures c !in s.tasks
  {
  }

  lemma AwaitsKeeps(cfg: Config, s: State, sel: Selection)
    requires Stopped(cfg, s.phase, s.discovered, s.attempts, s.listingComplete)
    requires Bounded(cfg, s.phase, |s.pool|) && s.phase.Discovering?
    requires s.discovered < |cfg.listing| && sel == cfg.listing[s.discovered] && sel.code !in s.pool
    ensures var s' := Enter(s, sel); var phase := Awaits(cfg, s', sel);
      && Stopped(cfg, phase, s'.discovered, s'.attempts, s.listingComplete)
      && Bounded(cfg, phase, |s'.pool|)
  {
    assert |s.pool + {sel.code}| == |s.pool| + 1;
  }

  lemma DiscoverKeeps(cfg: Config, s: State)
    requires Inv(cfg, s) && s.phase.Discovering? && s.discovered < |cfg.listing|
    ensures Inv(cfg, Discover(cfg, s, cfg.listing[s.discovered]))
  {
    hide Walked, Unwinding, Once, Accounted, InFlight, Stopped, Bounded, Enter, Awaits;
    var sel := cfg.listing[s.discovered];
    if sel.scope != cfg.scope || sel.code in s.seen {
      LeaveKeeps(cfg, s, Raised);
    } else {
      TaskUnseen(cfg, s, sel.code);
      AwaitsKeeps(cfg, s, sel);
      EnterKeeps(cfg, s, sel, Awaits(cfg, Enter(s, sel), sel)) by {
        AwaitsPhase(cfg, Enter(s, sel), sel);
        EnterListing(s, sel);
      }
    }
  }

  lemma AwaitsPhase(cfg: Config, s: State, sel: Selection)
    ensures var phase := Awaits(cfg, s, sel);
      if sel.shouldFetch then phase.AwaitingSlot? || phase.Discovering? || phase.Gathering?
      else phase == Skipping(sel.code)
  {
  }

  lemma EnterListing(s: State, sel: Selection)
    ensures Enter(s, sel).listingComplete == s.listingComplete
  {
  }

  lemma HarvestKeeps(cfg: Config, s: State)
    requires Inv(cfg, s) && s.phase.AwaitingSlot?
    requires exists c :: c in s.pool && c in s.tasks && Over(s.tasks[c])
    ensures Inv(cfg, Harvest(cfg, s))
  {
    hide Walked, Once, Accounted, InFlight;
    var done := set c | c in s.pool && c in s.tasks && Over(s.tasks[c]);
    var mid, s' := s.(pool := s.pool - done), Harvest(cfg, s);
    var c :| c in s.pool && c in s.tasks && Over(s.tasks[c]);
    assert c in done && c !in mid.pool;
    SubsetSize(mid.pool, s.pool);
    assert Pooled(mid.pool, mid.tasks);
    if forall c | c in done :: s.tasks[c].Finished? {
      Enters(cfg.retries, s.phase, s'.phase, s.seen, s.tasks, s.emitted, s.accepted);
      assert Unwinding(s'.phase, s'.pool, s'.tasks, s'.cancelling);
    } else {
      assert s' == Leave(mid, Raised);
      LeaveKeeps(cfg, mid, Raised);
    }
  }

  lemma SkipAckKeeps(cfg: Config, s: State)
    requires Inv(cfg, s) && s.phase.Skipping?
    ensures var c := s.phase.code;
      Accounted(cfg.retries, Discovering, s.seen, s.tasks, s.emitted, s.accepted[c := Skipped])
  {
    var c := s.phase.code;
    var accepted := s.accepted[c := Skipped];
    forall d | d in s.tasks
      ensures TaskAccount(cfg.retries, d, s.tasks[d], s.emitted, accepted)
    {
      assert TaskAccount(cfg.retries, d, s.tasks[d], s.emitted, s.accepted);
    }
    forall d | d in s.seen && d !in s.tasks
      ensures SkipAccount(Discovering, d, s.emitted, accepted)
    {
      assert SkipAccount(s.phase, d, s.emitted, s.accepted);
    }
  }

  /** Events of the coroutine after it has entered its `finally` block. */
  lemma LeavingStepKeeps(cfg: Config, s: State, e: Event)
    requires Inv(cfg, s) && Leaving(s.phase) && MainStep(cfg, s, e).Some?
    ensures Inv(cfg, MainStep(cfg, s, e).value)
  {
    hide Walked, Once, Accounted, InFlight;
    var s' := MainStep(cfg, s, e).value;
    Enters(cfg.retries, s.phase, s'.phase, s.seen, s.tasks, s.emitted, s.accepted);
  }

  lemma MainStepKeeps(cfg: Config, s: State, e: Event)
    requires Inv(cfg, s) && MainStep(cfg, s, e).Some?
    ensures Inv(cfg, MainStep(cfg, s, e).value)
  {
    hide Walked, Pooled, Once, InFlight;
    var s' := MainStep(cfg, s, e).value;
    if Leaving(s.phase) {
      LeavingStepKeeps(cfg, s, e);
    } else if s.phase.Discovering? && e.Yield? {
      DiscoverKeeps(cfg, s);
    } else if s.phase.AwaitingSlot? && e.SlotFree? {
      HarvestKeeps(cfg, s);
    } else if s.phase.Gathering? && e.GatherOk? {
      assert s' == Leave(s, Returned);
      LeaveKeeps(cfg, s, Returned);
    } else if s'.phase.Draining? {
      assert s' == Leave(s, s'.phase.exit);
      LeaveKeeps(cfg, s, s'.phase.exit);
    } else if s.phase.Skipping? {
      SkipAckKeeps(cfg, s);
      assert s' == s.(phase := Discovering, accepted := s.accepted[s.phase.code := Skipped]);
    } else {
      assert s' == s.(phase := s'.phase, listingComplete := s'.listingComplete);
      Enters(cfg.retries, s.phase, s'.phase, s.seen, s.tasks, s.emitted, s.accepted);
    }
  }

  function Append(emitted: seq<Record>, c: Code, o: Option<Outcome>): seq<Record> {
    if o.None? then emitted else emitted + [Record(c, o.value)]
  }

  function Put(accepted: map<Code, Outcome>, c: Code, o: Option<Outcome>): map<Code, Outcome> {
    if o.None? then accepted else accepted[c := o.value]
  }

  /** One task moves; what it sent or had acknowledged concerns no other dataset. */
  lemma TaskAccounts(retries: nat, phase: Phase, seen: set<Code>, tasks: map<Code, Task>, c: Code, t: Task,
                     emitted: seq<Record>, accepted: map<Code, Outcome>, sent: Option<Outcome>, acked: Option<Outcome>)
    requires Accounted(retries, phase, seen, tasks, emitted, accepted) && c in tasks && c in seen
    requires TaskAccount(retries, c, t, Append(emitted, c, sent), Put(accepted, c, acked))
    ensures Accounted(retries, phase, seen, tasks[c := t], Append(emitted, c, sent), Put(accepted, c, acked))
  {
    if sent.Some? {
      SentGrows(emitted, Record(c, sent.value));
    }
    var emitted', accepted' := Append(emitted, c, sent), Put(accepted, c, acked);
    forall d | d in tasks
      ensures TaskAccount(retries, d, tasks[c := t][d], emitted', accepted')
    {
      if d != c {
        assert TaskAccount(retries, d, tasks[d], emitted, accepted);
      }
    }
    forall d | d in seen && d !in tasks
      ensures SkipAccount(phase, d, emitted', accepted')
    {
      assert SkipAccount(phase, d, emitted, accepted);
    }
  }

  lemma TaskUnwinds(phase: Phase, pool: set<Code>, tasks: map<Code, Task>, cancelling: set<Code>, c: Code, t: Task)
    requires Unwinding(phase, pool, tasks, cancelling) && Pooled(pool, tasks)
    requires c in tasks && !Over(tasks[c])
    requires if c in cancelling then Over(t) else !t.Cancelled?
    ensures Unwinding(phase, pool, tasks[c := t], cancelling) && Pooled(pool, tasks[c := t])
  {
  }

  lemma SetTaskKeeps(cfg: Config, s: State, c: Code, t: Task, sent: Option<Outcome>, acked: Option<Outcome>)
    requires Inv(cfg, s) && c in s.tasks && !Over(s.tasks[c])
    requires if c in s.cancelling then Over(t) else !t.Cancelled?
    requires sent.Some? ==> c !in Sent(s.emitted)
    requires TaskAccount(cfg.retries, c, t, Append(s.emitted, c, sent), Put(s.accepted, c, acked))
    ensures Inv(cfg, SetTask(s, c, t).(emitted := Append(s.emitted, c, sent), accepted := Put(s.accepted, c, acked)))
  {
    hide Walked, Pooled, Unwinding, Once, Accounted, TaskAccount, Bounded, InFlight, Running;
    InFlightMoves(s.tasks, c, t);
    assert s.tasks[c := t].Keys == s.tasks.Keys;
    Fetched(cfg.scope, cfg.listing[..s.discovered], s.seen, s.tasks.Keys, s.attempts);
    TaskUnwinds(s.phase, s.pool, s.tasks, s.cancelling, c, t);
    TaskAccounts(cfg.retries, s.phase, s.seen, s.tasks, c, t, s.emitted, s.accepted, sent, acked);
    if sent.Some? {
      OnceGrows(s.emitted, s.seen, Record(c, sent.value));
      assert s.seen + {c} == s.seen;
    }
  }

  lemma AccountOf(cfg: Config, s: State, c: Code)
    requires Inv(cfg, s) && c in s.tasks
    ensures TaskAccount(cfg.retries, c, s.tasks[c], s.emitted, s.accepted)
  {
  }

  lemma EmitKeeps(cfg: Config, s: State, c: Code, outcome: Outcome)
    requires Inv(cfg, s) && c in s.tasks && s.tasks[c].Resolving? && c !in s.cancelling && outcome != Skipped
    ensures Inv(cfg, Emit(s, c, outcome))
  {
    hide Inv;
    AccountOf(cfg, s, c);
    SentGrows(s.emitted, Record(c, outcome));
    SetTaskKeeps(cfg, s, c, Emitting(outcome), Some(outcome), None);
  }

  /** A task moves without emitting. */
  lemma MoveKeeps(cfg: Config, s: State, c: Code, t: Task, acked: Option<Outcome>)
    requires Inv(cfg, s) && c in s.tasks && !Over(s.tasks[c])
    requires if c in s.cancelling then Over(t) else !t.Cancelled?
    requires TaskAccount(cfg.retries, c, t, s.emitted, Put(s.accepted, c, acked))
    ensures Inv(cfg, SetTask(s, c, t).(accepted := Put(s.accepted, c, acked)))
  {
    hide Inv;
    SetTaskKeeps(cfg, s, c, t, None, acked);
  }

  lemma TaskStepKeeps(cfg: Config, s: State, e: Event)
    requires Inv(cfg, s) && IsTaskEvent(e) && TaskStep(cfg, s, e).Some?
    ensures Inv(cfg, TaskStep(cfg, s, e).value)
  {
    hide Inv;
    var c := e.code;
    AccountOf(cfg, s, c);
    if c in s.cancelling {
      MoveKeeps(cfg, s, c, if e.clean then Cancelled else Lost, None);
    } else {
      match e
      case Start(_) => MoveKeeps(cfg, s, c, Resolving(0), None);
      case Wake(_) => MoveKeeps(cfg, s, c, Resolving(s.tasks[c].attempt + 1), None);
      case EmitAck(_, ok) =>
        if ok {
          MoveKeeps(cfg, s, c, Finished, Some(s.tasks[c].outcome));
        } else {
          MoveKeeps(cfg, s, c, Lost, None);
        }
      case Answer(_, reply) =>
        if reply.Transient? && s.tasks[c].attempt < cfg.retries {
          MoveKeeps(cfg, s, c, Backoff(s.tasks[c].attempt), None);
        } else {
          EmitKeeps(cfg, s, c, if reply == Documents(true) then Saved else Failed);
        }
    }
  }

  lemma NextKeeps(cfg: Config, s: State, e: Event)
    requires Inv(cfg, s) && Next(cfg, s, e).Some?
    ensures Inv(cfg, Next(cfg, s, e).value)
  {
    if IsTaskEvent(e) {
      TaskStepKeeps(cfg, s, e);
    } else {
      MainStepKeeps(cfg, s, e);
    }
  }

  lemma {:induction false} PlayInv(cfg: Config, events: seq<Event>)
    requires Play(cfg, events).Some?
    ensures Inv(cfg, Play(cfg, events).value)
  {
    if events == [] {
      InitialInv(cfg);
    } else {
      var before := events[..|events| - 1];
      PlayInv(cfg, before);
      NextKeeps(cfg, Play(cfg, before).value, events[|events| - 1]);
    }
  }

  // ---- Theorems about every schedule --------------------------------------------------

  function WithOutcome(accepted: map<Code, Outcome>, skipped: bool): set<Code> {
    set c | c in accepted && accepted[c].Skipped? == skipped
  }

  /** On a normal return every task has finished and every skip record was acknowledged. */
  lemma ReturnedAccounts(cfg: Config, s: State)
    requires Inv(cfg, s) && Leaving(s.phase) && s.phase.exit.Returned?
    ensures s.accepted.Keys == s.seen == Sent(s.emitted)
    ensures WithOutcome(s.accepted, false) == s.tasks.Keys == Fetchable(cfg.listing[..s.discovered])
    ensures WithOutcome(s.accepted, true) == s.seen - s.tasks.Keys
  {
    hide Walked, Bounded, Pooled, InFlight;
    Fetched(cfg.scope, cfg.listing[..s.discovered], s.seen, s.tasks.Keys, s.attempts);
    forall c | c in s.seen
      ensures c in s.accepted && (s.accepted[c].Skipped? <==> c !in s.tasks) && c in Sent(s.emitted)
    {
      if c in s.tasks {
        assert TaskAccount(cfg.retries, c, s.tasks[c], s.emitted, s.accepted);
      } else {
        assert SkipAccount(s.phase, c, s.emitted, s.accepted);
      }
      assert Record(c, s.accepted[c]) in s.emitted;
    }
  }

  /**
   In every interleaving a dataset is emitted at most once, and only if it was listed. A
   normal return accounts for every listed dataset: skips, saves and failures add up.
   */
  lemma Conservation(cfg: Config, events: seq<Event>)
    requires Play(cfg, events).Some?
    ensures var s := Play(cfg, events).value;
      && (forall i, j :: 0 <= i < j < |s.emitted| ==> s.emitted[i].code != s.emitted[j].code)
      && s.discovered <= |cfg.listing|
      && (forall x :: x in cfg.listing[..s.discovered] ==> x.scope == cfg.scope)
      && DistinctCodes(cfg.listing[..s.discovered])
      && Sent(s.emitted) <= s.seen == Codes(cfg.listing[..s.discovered])
      && (s.phase == Left(Returned) ==>
            && s.accepted.Keys == Sent(s.emitted) == s.seen
            && |WithOutcome(s.accepted, true)| == s.discovered - s.attempts
            && |WithOutcome(s.accepted, false)| == s.attempts
            && s.inFlight == 0)
  {
    PlayInv(cfg, events);
    var s := Play(cfg, events).value;
    hide Play, Accounted, Bounded, Unwinding, Pooled;
    if s.phase == Left(Returned) {
      ReturnedAccounts(cfg, s);
      ReturnedCounts(cfg, s);
    }
  }

  lemma ReturnedCounts(cfg: Config, s: State)
    requires Inv(cfg, s) && s.phase == Left(Returned)
    ensures |s.seen - s.tasks.Keys| == s.discovered - s.attempts
    ensures |s.tasks.Keys| == s.attempts && s.inFlight == 0
  {
    hide Accounted, Once, Bounded, Unwinding, Pooled, Codes, Fetchable, FetchCount, DistinctCodes;
    NothingRuns(cfg, s);
    assert |cfg.listing[..s.discovered]| == s.discovered;
    assert s.seen == (s.seen - s.tasks.Keys) + s.tasks.Keys;
  }

  lemma NothingRuns(cfg: Config, s: State)
    requires Inv(cfg, s) && s.phase.Left?
    ensures forall c :: c in s.tasks ==> Over(s.tasks[c])
    ensures s.inFlight == 0
  {
    assert InFlight(s.tasks) == {};
  }

  function Unfinished(s: State): set<Code> { set c | c in s.tasks && !Over(s.tasks[c]) }

  /**
   No reachable state has more unfinished resolutions than the concurrency allows (at least
   one), and however `execute` leaves, every task it created has finished.
   */
  lemma BoundedWithoutOrphans(cfg: Config, events: seq<Event>)
    requires Play(cfg, events).Some?
    ensures var s := Play(cfg, events).value;
      && |Unfinished(s)| <= Max(1, cfg.concurrency)
      && 0 <= s.inFlight <= |Unfinished(s)|
      && (s.phase.Left? ==> Unfinished(s) == {})
  {
    PlayInv(cfg, events);
    hide Play, Accounted, Once, Stopped, Walked;
    var s := Play(cfg, events).value;
    SubsetSize(Unfinished(s), s.pool);
    SubsetSize(InFlight(s.tasks), Unfinished(s));
    if s.phase.Left? {
      NothingRuns(cfg, s);
    }
  }

  lemma NextKeepsOver(cfg: Config, s: State, e: Event, c: Code)
    requires Inv(cfg, s) && Next(cfg, s, e).Some? && c in s.tasks && Over(s.tasks[c])
    ensures var s' := Next(cfg, s, e).value; c in s'.tasks && s'.tasks[c] == s.tasks[c]
  {
    hide Pooled, Unwinding, Once, Accounted, Stopped, Bounded, InFlight, Walked;
    if !IsTaskEvent(e) && s.phase.Discovering? && e.Yield? && s.discovered < |cfg.listing| {
      var sel := cfg.listing[s.discovered];
      if sel.code !in s.seen {
        TaskUnseen(cfg, s, sel.code);
      }
    }
  }

  lemma {:induction false} OverForever(cfg: Config, events: seq<Event>, more: seq<Event>, c: Code)
    requires Play(cfg, events).Some? && Play(cfg, events + more).Some?
    requires c in Play(cfg, events).value.tasks && Over(Play(cfg, events).value.tasks[c])
    ensures var s' := Play(cfg, events + more).value;
      c in s'.tasks && s'.tasks[c] == Play(cfg, events).value.tasks[c]
  {
    hide Inv, Next, Over;
    if more == [] {
      assert events + more == events;
    } else {
      var fewer := more[..|more| - 1];
      assert (events + more)[..|events + more| - 1] == events + fewer;
      OverForever(cfg, events, fewer, c);
      PlayInv(cfg, events + fewer);
      NextKeepsOver(cfg, Play(cfg, events + fewer).value, more[|more| - 1], c);
    }
  }

  /**
   A lost catalog stops the run instead of becoming a dataset failure: once an emit has
   failed, that dataset is never recorded again, with any outcome, and no continuation of
   the run returns normally.
   */
  lemma LostEmitStopsTheRun(cfg: Config, events: seq<Event>, more: seq<Event>, c: Code)
    requires Play(cfg, events).Some? && Play(cfg, events + more).Some?
    requires c in Play(cfg, events).value.tasks && Play(cfg, events).value.tasks[c].Lost?
    ensures var s' := Play(cfg, events + more).value;
      && c !in s'.accepted
      && s'.phase != Left(Returned)
      && |set r | r in s'.emitted && r.code == c| <= 1
  {
    OverForever(cfg, events, more, c);
    PlayInv(cfg, events + more);
    var s' := Play(cfg, events + more).value;
    assert TaskAccount(cfg.retries, c, s'.tasks[c], s'.emitted, s'.accepted);
    var records := set r | r in s'.emitted && r.code == c;
    if records != {} {
      var r :| r in records;
      assert records == {r};
    }
  }

  lemma {:induction false} FetchCountMonotone(l: seq<Selection>, m: nat, n: nat)
    requires m <= n <= |l|
    ensures FetchCount(l[..m]) <= FetchCount(l[..n])
    ensures m < n && l[n - 1].shouldFetch ==> FetchCount(l[..m]) < FetchCount(l[..n])
    decreases n
  {
    if m < n {
      assert l[..n][..n - 1] == l[..n - 1];
      FetchCountMonotone(l, m, n - 1);
    }
  }

  /**
   A run walks a prefix of the listing. When a bounded run returns normally, that is the
   shortest prefix with `limit` datasets to fetch, or the whole listing; skips and retries
   do not count. Only an unbounded normal run has listed everything.
   */
  lemma LimitSemantics(cfg: Config, events: seq<Event>)
    requires Play(cfg, events).Some?
    ensures var s := Play(cfg, events).value;
      && s.discovered <= |cfg.listing|
      && s.attempts == FetchCount(cfg.listing[..s.discovered])
      && (s.phase == Left(Returned) && cfg.limit.Some? ==>
            && !s.listingComplete
            && s.attempts == Min(cfg.limit.value, FetchCount(cfg.listing))
            && (s.discovered == |cfg.listing| || s.attempts == cfg.limit.value)
            && (forall m: nat :: m < s.discovered ==> FetchCount(cfg.listing[..m]) < cfg.limit.value))
      && (s.phase == Left(Returned) && cfg.limit.None? ==> s.listingComplete && s.discovered == |cfg.listing|)
  {
    PlayInv(cfg, events);
    var s := Play(cfg, events).value;
    if s.phase == Left(Returned) && cfg.limit.Some? {
      ShortestPrefix(cfg, s.discovered, s.attempts, s.listingComplete);
    }
  }

  lemma ShortestPrefix(cfg: Config, discovered: nat, attempts: nat, listingComplete: bool)
    requires cfg.limit.Some? && Stopped(cfg, Left(Returned), discovered, attempts, listingComplete)
    requires attempts == FetchCount(cfg.listing[..discovered])
    ensures attempts == Min(cfg.limit.value, FetchCount(cfg.listing))
    ensures forall m: nat :: m < discovered ==> FetchCount(cfg.listing[..m]) < cfg.limit.value
  {
    assert cfg.listing[..|cfg.listing|] == cfg.listing;
    FetchCountMonotone(cfg.listing, discovered, |cfg.listing|);
    forall m: nat | m < discovered
      ensures FetchCount(cfg.listing[..m]) < cfg.limit.value
    {
      FetchCountMonotone(cfg.listing, m, discovered);
    }
  }

  /** How often `resolve_dataset` is called for a dataset: once on start, once per retry. */
  function Calls(events: seq<Event>, c: Code): nat {
    if events == [] then 0
    else
      Calls(events[..|events| - 1], c)
      + (if events[|events| - 1] == Start(c) || events[|events| - 1] == Wake(c) then 1 else 0)
  }

  /** No dataset is fetched more than 1 + len(retry_delays) times. */
  lemma CallsFollowTask(cfg: Config, events: seq<Event>, c: Code)
    requires Play(cfg, events).Some?
    ensures var s := Play(cfg, events).value;
      && (c !in s.tasks || s.tasks[c].Created? ==> Calls(events, c) == 0)
      && (c in s.tasks && (s.tasks[c].Resolving? || s.tasks[c].Backoff?) ==> Calls(events, c) == s.tasks[c].attempt + 1)
      && Calls(events, c) <= cfg.retries + 1
  {
    CallsAccounted(cfg, events, c);
    hide Play, Calls, TransientAnswers;
  }

  /** What the latest `resolve_dataset` call for a dataset came to. */
  function LastReply(events: seq<Event>, c: Code): Option<Reply> {
    if events == [] then None
    else
      var e := events[|events| - 1];
      if e.Answer? && e.code == c then Some(e.reply) else LastReply(events[..|events| - 1], c)
  }

  /** Saved means matching documents; failed means anything else, a transient error only after all retries. */
  predicate Explained(cfg: Config, outcome: Outcome, reply: Option<Reply>, calls: nat) {
    && reply.Some?
    && (outcome.Saved? <==> reply.value == Documents(true))
    && (reply.value.Transient? ==> calls == cfg.retries + 1)
  }

  lemma MainRecordsSkips(cfg: Config, s: State, e: Event, r: Record)
    requires MainStep(cfg, s, e).Some? && r in MainStep(cfg, s, e).value.emitted
    ensures r in s.emitted || r.outcome.Skipped?
  {
  }

  lemma AnswerRecords(cfg: Config, s: State, e: Event, r: Record)
    requires IsTaskEvent(e) && TaskStep(cfg, s, e).Some?
    requires r in TaskStep(cfg, s, e).value.emitted && r !in s.emitted
    ensures e.Answer? && e.code == r.code && r.code in s.tasks && s.tasks[r.code].Resolving?
    ensures r.outcome.Saved? <==> e.reply == Documents(true)
    ensures e.reply.Transient? ==> s.tasks[r.code].attempt == cfg.retries
  {
  }

  /** A recorded dataset is never started, retried or answered again. */
  lemma RecordedRests(cfg: Config, s: State, e: Event, c: Code)
    requires Inv(cfg, s) && Next(cfg, s, e).Some? && c in s.tasks && c in Sent(s.emitted)
    ensures e != Start(c) && e != Wake(c) && !(e.Answer? && e.code == c)
  {
    AccountOf(cfg, s, c);
    hide Inv, Sent, MainStep;
  }

  /** A step records a fetched dataset only on the answer that settles it. */
  lemma RecordedByAnswer(cfg: Config, s: State, e: Event, c: Code, outcome: Outcome)
    requires Inv(cfg, s) && Next(cfg, s, e).Some? && !outcome.Skipped?
    requires Record(c, outcome) in Next(cfg, s, e).value.emitted
    ensures if Record(c, outcome) in s.emitted
            then e != Start(c) && e != Wake(c) && !(e.Answer? && e.code == c)
            else e.Answer? && e.code == c && c in s.tasks && s.tasks[c].Resolving?
                 && (outcome.Saved? <==> e.reply == Documents(true))
                 && (e.reply.Transient? ==> s.tasks[c].attempt == cfg.retries)
  {
    var r := Record(c, outcome);
    if r in s.emitted {
      assert c in Sent(s.emitted);
      if IsTaskEvent(e) && e.code == c {
        assert c in s.tasks;
        RecordedRests(cfg, s, e, c);
      }
    } else if IsTaskEvent(e) {
      AnswerRecords(cfg, s, e, r);
    } else {
      MainRecordsSkips(cfg, s, e, r);
    }
    hide Inv, MainStep, TaskStep;
  }

  /**
   In every interleaving a dataset is recorded as saved exactly when its last resolution brought
   documents of the right identity, and as failed after a transient error only if every retry was used.
   */
  lemma {:induction false} OutcomeMatchesReply(cfg: Config, events: seq<Event>, c: Code, outcome: Outcome)
    requires Play(cfg, events).Some? && !outcome.Skipped?
    requires Record(c, outcome) in Play(cfg, events).value.emitted
    ensures Explained(cfg, outcome, LastReply(events, c), Calls(events, c))
  {
    if events != [] {
      var before, e := events[..|events| - 1], events[|events| - 1];
      var s := Play(cfg, before).value;
      PlayInv(cfg, before);
      RecordedByAnswer(cfg, s, e, c, outcome);
      hide Inv, Next;
      if Record(c, outcome) in s.emitted {
        OutcomeMatchesReply(cfg, before, c, outcome);
      } else {
        CallsFollowTask(cfg, before, c);
      }
    }
  }

  // ---- Only transient errors are retried ------------------------------------------------

  function TransientAnswers(events: seq<Event>, c: Code): nat {
    if events == [] then 0
    else
      TransientAnswers(events[..|events| - 1], c) + (if events[|events| - 1] == Answer(c, Transient) then 1 else 0)
  }

  /** Where a dataset's calls and transient answers stand. */
  predicate CallsAccount(retries: nat, t: Task, calls: nat, transient: nat) {
    && transient <= calls <= transient + 1
    && calls <= retries + 1
    && (t.Created? ==> calls == 0)
    && (t.Resolving? ==> calls == transient + 1 == t.attempt + 1)
    && (t.Backoff? ==> calls == transient == t.attempt + 1)
    && (t.Emitting? && calls == transient ==> calls == retries + 1 && t.outcome.Failed?)
  }

  function TaskOf(s: State, c: Code): Task { if c in s.tasks then s.tasks[c] else Created }

  /** How a step can move one task; a dataset not yet taken counts as created. */
  predicate Moves(retries: nat, t: Task, e: Event, c: Code, t': Task) {
    if e == Start(c) then t.Created? && t' == Resolving(0)
    else if e == Wake(c) then t.Backoff? && t' == Resolving(t.attempt + 1)
    else if e.Answer? && e.code == c then
      && t.Resolving?
      && if !e.reply.Transient? then t'.Emitting?
         else t' == if t.attempt == retries then Emitting(Failed) else Backoff(t.attempt)
    else t' == t || Over(t')
  }

  lemma MovesStep(cfg: Config, s: State, e: Event, c: Code)
    requires Inv(cfg, s) && Next(cfg, s, e).Some?
    ensures var s' := Next(cfg, s, e).value;
      && (c in s.tasks ==> c in s'.tasks)
      && Moves(cfg.retries, TaskOf(s, c), e, c, TaskOf(s', c))
  {
    hide Pooled, Unwinding, Once, Accounted, Stopped, Bounded, InFlight, Walked;
    if !IsTaskEvent(e) && s.phase.Discovering? && e.Yield? && s.discovered < |cfg.listing| {
      var sel := cfg.listing[s.discovered];
      if sel.code !in s.seen {
        TaskUnseen(cfg, s, sel.code);
      }
    }
  }

  lemma {:induction false} CallsAccounted(cfg: Config, events: seq<Event>, c: Code)
    requires Play(cfg, events).Some?
    ensures CallsAccount(cfg.retries, TaskOf(Play(cfg, events).value, c), Calls(events, c), TransientAnswers(events, c))
  {
    if events != [] {
      var before, e := events[..|events| - 1], events[|events| - 1];
      CallsAccounted(cfg, before, c);
      PlayInv(cfg, before);
      MovesStep(cfg, Play(cfg, before).value, e, c);
      AttemptBounded(cfg, Play(cfg, before).value, c);
      hide Inv, Next, TaskOf, Moves, CallsAccount;
      CallsMove(cfg.retries, TaskOf(Play(cfg, before).value, c), e, c, TaskOf(Play(cfg, events).value, c),
                Calls(before, c), TransientAnswers(before, c));
    } else {
      assert TaskOf(Initial(cfg), c) == Created;
    }
  }

  lemma AttemptBounded(cfg: Config, s: State, c: Code)
    requires Inv(cfg, s)
    ensures TaskOf(s, c).Resolving? ==> TaskOf(s, c).attempt <= cfg.retries
    ensures TaskOf(s, c).Backoff? ==> TaskOf(s, c).attempt < cfg.retries
  {
    if c in s.tasks {
      AccountOf(cfg, s, c);
    }
    hide Inv;
  }

  lemma CallsMove(retries: nat, t: Task, e: Event, c: Code, t': Task, calls: nat, transient: nat)
    requires (t.Resolving? ==> t.attempt <= retries) && (t.Backoff? ==> t.attempt < retries)
    requires Moves(retries, t, e, c, t') && CallsAccount(retries, t, calls, transient)
    ensures CallsAccount(retries, t', calls + (if e == Start(c) || e == Wake(c) then 1 else 0),
                         transient + (if e == Answer(c, Transient) then 1 else 0))
  {
  }

  /**
   Every call but the last one of a dataset came to a transient error, so an answer of any other kind is
   the last: no later part of the run calls for that dataset again.
   */
  lemma OnlyTransientIsRetried(cfg: Config, before: seq<Event>, c: Code, reply: Reply, after: seq<Event>)
    requires Play(cfg, before + [Answer(c, reply)] + after).Some? && !reply.Transient?
    ensures Calls(before, c) == TransientAnswers(before, c) + 1
    ensures Calls(before + [Answer(c, reply)] + after, c) == Calls(before, c)
  {
    var answered := before + [Answer(c, reply)];
    PlayPrefix(cfg, answered, after);
    assert answered[..|before|] == before;
    PlayInv(cfg, before);
    CallsAccounted(cfg, before, c);
    AnswerEndsCalls(cfg, before, c, reply);
    NeverCalledAgain(cfg, answered, after, c);
  }

  lemma {:induction false} PlayPrefix(cfg: Config, events: seq<Event>, more: seq<Event>)
    requires Play(cfg, events + more).Some?
    ensures Play(cfg, events).Some?
  {
    if more == [] {
      assert events + more == events;
    } else {
      var fewer := more[..|more| - 1];
      assert (events + more)[..|events + more| - 1] == events + fewer;
      PlayPrefix(cfg, events, fewer);
    }
  }

  predicate Settled(s: State, c: Code) { c in s.tasks && (s.tasks[c].Emitting? || Over(s.tasks[c])) }

  lemma AnswerEndsCalls(cfg: Config, before: seq<Event>, c: Code, reply: Reply)
    requires Play(cfg, before + [Answer(c, reply)]).Some? && Play(cfg, before).Some? && !reply.Transient?
    ensures c in Play(cfg, before).value.tasks && Play(cfg, before).value.tasks[c].Resolving?
    ensures Settled(Play(cfg, before + [Answer(c, reply)]).value, c)
    ensures Calls(before + [Answer(c, reply)], c) == Calls(before, c)
  {
    assert (before + [Answer(c, reply)])[..|before|] == before;
  }

  lemma SettledStays(cfg: Config, s: State, e: Event, c: Code)
    requires Inv(cfg, s) && Next(cfg, s, e).Some? && Settled(s, c)
    ensures Settled(Next(cfg, s, e).value, c) && e != Start(c) && e != Wake(c)
  {
    MovesStep(cfg, s, e, c);
    hide Inv, Next;
  }

  lemma {:induction false} NeverCalledAgain(cfg: Config, events: seq<Event>, more: seq<Event>, c: Code)
    requires Play(cfg, events).Some? && Play(cfg, events + more).Some? && Settled(Play(cfg, events).value, c)
    ensures Settled(Play(cfg, events + more).value, c) && Calls(events + more, c) == Calls(events, c)
  {
    hide Inv, Next, Settled;
    if more == [] {
      assert events + more == events;
    } else {
      var fewer := more[..|more| - 1];
      assert (events + more)[..|events + more| - 1] == events + fewer;
      NeverCalledAgain(cfg, events, fewer, c);
      PlayInv(cfg, events + fewer);
      SettledStays(cfg, Play(cfg, events + fewer).value, more[|more| - 1], c);
    }
  }

  // ---- What is in flight ------------------------------------------------------------------

  lemma {:induction false} StartedByEvent(cfg: Config, events: seq<Event>, c: Code)
    requires Play(cfg, events).Some?
    ensures var t := TaskOf(Play(cfg, events).value, c);
      if t.Created? then Start(c) !in events else Over(t) || Start(c) in events
  {
    hide Inv, Next;
    if events != [] {
      var before, e := events[..|events| - 1], events[|events| - 1];
      StartedByEvent(cfg, before, c);
      PlayInv(cfg, before);
      MovesStep(cfg, Play(cfg, before).value, e, c);
      assert events == before + [e];
    }
  }

  /** `in_flight` is the number of resolutions that have been started and are not over. */
  lemma InFlightExact(cfg: Config, events: seq<Event>)
    requires Play(cfg, events).Some?
    ensures var s := Play(cfg, events).value;
      s.inFlight == |set c | c in s.tasks && Start(c) in events && !Over(s.tasks[c])|
  {
    PlayInv(cfg, events);
    var s := Play(cfg, events).value;
    forall c | c in s.tasks ensures Running(s.tasks[c]) <==> Start(c) in events && !Over(s.tasks[c]) {
      StartedByEvent(cfg, events, c);
    }
    hide Play;
    assert InFlight(s.tasks) == set c | c in s.tasks && Start(c) in events && !Over(s.tasks[c]);
  }
}
