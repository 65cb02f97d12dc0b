/**
 One claimed job (`run_job` in worker.py): the work, heartbeat, lease watchdog and stop
 tasks race; the first wake-up decides the outcome by a fixed priority, every child is
 cancelled, and completion is reported once all of them have ended.
 */
module Job {
  import opened Common
  import Runner

  datatype WorkEnd = Succeeded | Failed | WasCancelled

  /** `progress` belongs to the job, so its last values stay visible after the work ended. */
  datatype Work =
    | Loading(run: Runner.State)      // reading per-dataset state pages
    | Executing(run: Runner.State)
    | Ended(run: Runner.State, end: WorkEnd)

  /** The heartbeat loop: still beating, told to cancel, broken by an error, or cancelled. */
  datatype Pulse = Beating | Asked | Broken | PulseCancelled

  datatype Helper = Waiting | Fired | HelperCancelled

  datatype Reason = Interrupted | LeaseLost | PulseError | WorkError

  datatype Report = Report(listingComplete: bool, error: Option<Reason>, discovered: nat)

  datatype Main =
    | Racing
    | Cleaning(error: Option<Reason>)
    | Reported(report: Report)
    | GaveUp                          // finalization unavailable; the lease expires

  datatype State = State(main: Main, work: Work, pulse: Pulse, watchdog: Helper, stopped: Helper)

  datatype Event =
    | Loaded | LoadFailed
    | Exec(event: Runner.Event)
    | WorkAborted                     // cancellation reached the work before `execute` began
    | PulseEnds(to: Pulse) | WatchdogFires | StopSet
    | HelpersAborted
    | WakeUp
    | Complete(delivered: bool)
    | CleanupTimeout

  function Initial(cfg: Runner.Config): State {
    State(Racing, Loading(Runner.Initial(cfg)), Beating, Waiting, Waiting)
  }

  predicate AllEnded(s: State) {
    s.work.Ended? && !s.pulse.Beating? && !s.watchdog.Waiting? && !s.stopped.Waiting?
  }

  /** `execute` returning, raising or being cancelled ends the work task the same way. */
  function AfterExec(run: Runner.State): Work {
    match run.phase
    case Left(Returned) => Ended(run, Succeeded)
    case Left(Raised) => Ended(run, Failed)
    case Left(Interrupted) => Ended(run, WasCancelled)
    case _ => Executing(run)
  }

  /** The branch order after the first completion; the heartbeat's request to cancel is no error. */
  function Verdict(s: State): Option<Reason> {
    if s.stopped.Fired? then Some(Interrupted)
    else if s.watchdog.Fired? then Some(LeaseLost)
    else if s.pulse.Asked? then None
    else if s.pulse.Broken? then Some(PulseError)
    else if s.work.Ended? && s.work.end.Failed? then Some(WorkError)
    else None
  }

  function Completion(s: State, error: Option<Reason>): Report {
    Report(s.work.run.listingComplete && error.None? && s.work.Ended? && !s.work.end.WasCancelled?,
           error, s.work.run.discovered)
  }

  /** Children may still move after the wake-up; cancellation reaches `execute` as an interrupt. */
  function Next(cfg: Runner.Config, s: State, e: Event): Option<State> {
    match e
    case Loaded => if s.work.Loading? then Some(s.(work := AfterExec(s.work.run))) else None
    case LoadFailed => if s.work.Loading? then Some(s.(work := Ended(s.work.run, Failed))) else None
    case WorkAborted =>
      if s.work.Loading? && s.main.Cleaning? then Some(s.(work := Ended(s.work.run, WasCancelled))) else None
    case Exec(x) =>
      if !s.work.Executing? || (x.Interrupt? && !s.main.Cleaning?) then None
      else
        (match Runner.Next(cfg, s.work.run, x)
         case None => None
         case Some(run) => Some(s.(work := AfterExec(run))))
    case PulseEnds(to) => if s.pulse.Beating? && (to.Asked? || to.Broken?) then Some(s.(pulse := to)) else None
    case WatchdogFires => if s.watchdog.Waiting? then Some(s.(watchdog := Fired)) else None
    case StopSet => if s.stopped.Waiting? then Some(s.(stopped := Fired)) else None
    case HelpersAborted =>
      if !s.main.Cleaning? then None
      else Some(s.(pulse := if s.pulse.Beating? then PulseCancelled else s.pulse,
                   watchdog := if s.watchdog.Waiting? then HelperCancelled else s.watchdog,
                   stopped := if s.stopped.Waiting? then HelperCancelled else s.stopped))
    case WakeUp =>
      if s.main.Racing? && (s.work.Ended? || !s.pulse.Beating? || !s.watchdog.Waiting? || !s.stopped.Waiting?)
      then Some(s.(main := Cleaning(Verdict(s)))) else None
    case Complete(delivered) =>
      if s.main.Cleaning? && AllEnded(s)
      then Some(s.(main := if delivered then Reported(Completion(s, s.main.error)) else GaveUp)) else None
    case CleanupTimeout => if s.main.Cleaning? then Some(s.(main := GaveUp)) else None
  }

  function Play(cfg: Runner.Config, events: seq<Event>): Option<State> {
    if events == [] then Some(Initial(cfg))
    else
      match Play(cfg, events[..|events| - 1])
      case None => None
      case Some(s) => Next(cfg, s, events[|events| - 1])
  }

  // ---- What every schedule keeps ------------------------------------------------------

  /** The embedded run is one of `execute`'s own, so everything proved about those applies. */
  ghost predicate Inv(cfg: Runner.Config, s: State) {
    && Runner.Inv(cfg, s.work.run)
    && (s.work.Loading? ==> s.work.run == Runner.Initial(cfg))
    && (s.work.Ended? && s.work.end.Succeeded? ==> s.work.run.phase == Runner.Left(Runner.Returned))
    && (s.work.Ended? && s.work.run.listingComplete && s.work.end.Failed? ==>
          s.work.run.phase == Runner.Left(Runner.Raised))
    && (s.main.Racing? ==> !(s.work.Ended? && s.work.end.WasCancelled?))
    && (s.main.Racing? ==>
          && Unforced(s.work.run.phase)
          && !s.pulse.PulseCancelled? && !s.watchdog.HelperCancelled? && !s.stopped.HelperCancelled?)
    && (s.main.Cleaning? && s.main.error.None? ==> CalmEnd(s))
    && (s.main.Reported? ==> s.main.report == Completion(s, s.main.report.error) && AllEnded(s))
    && (s.main.Reported? && s.main.report.error.None? ==> CalmEnd(s))
  }

  predicate Unforced(p: Runner.Phase) { Runner.Leaving(p) ==> !p.exit.Interrupted? }

  /** Without an error, either the catalog asked to cancel or the work had ended normally. */
  predicate CalmEnd(s: State) {
    s.pulse.Asked? || (s.work.Ended? && s.work.end.Succeeded?)
  }

  /** Only a cancellation from outside makes `execute` leave as interrupted. */
  lemma StaysUnforced(cfg: Runner.Config, run: Runner.State, x: Runner.Event)
    requires Runner.Next(cfg, run, x).Some? && !x.Interrupt? && Unforced(run.phase)
    ensures Unforced(Runner.Next(cfg, run, x).value.phase)
  {
  }

  lemma ExecKeeps(cfg: Runner.Config, s: State, x: Runner.Event)
    requires Inv(cfg, s) && Next(cfg, s, Exec(x)).Some?
    ensures Inv(cfg, Next(cfg, s, Exec(x)).value)
  {
    hide Runner.Inv, Runner.Next;
    Runner.NextKeeps(cfg, s.work.run, x);
    if s.main.Racing? {
      StaysUnforced(cfg, s.work.run, x);
    }
  }

  lemma NextKeeps(cfg: Runner.Config, s: State, e: Event)
    requires Inv(cfg, s) && Next(cfg, s, e).Some?
    ensures Inv(cfg, Next(cfg, s, e).value)
  {
    hide Runner.Inv, Runner.Next;
    if e.Exec? {
      ExecKeeps(cfg, s, e.event);
    }
  }

  lemma {:induction false} PlayInv(cfg: Runner.Config, events: seq<Event>)
    requires Play(cfg, events).Some?
    ensures Inv(cfg, Play(cfg, events).value)
  {
    if events == [] {
      Runner.InitialInv(cfg);
    } else {
      var before := events[..|events| - 1];
      PlayInv(cfg, before);
      NextKeeps(cfg, Play(cfg, before).value, events[|events| - 1]);
    }
  }

  // ---- Theorems -----------------------------------------------------------------------

  /** Every listed dataset has exactly one acknowledged outcome. */
  ghost predicate AllAccounted(cfg: Runner.Config, run: Runner.State) {
    && cfg.limit.None?
    && run.discovered == |cfg.listing|
    && run.accepted.Keys == Runner.Codes(cfg.listing)
    && Runner.DistinctCodes(cfg.listing)
    && (forall x :: x in cfg.listing ==> x.code in run.accepted && (run.accepted[x.code].Skipped? <==> !x.shouldFetch))
  }

  /**
   Checkpoint soundness. A completion report that claims a complete listing comes from an
   unbounded run whose stream was exhausted; and if the work ended normally, every listed
   dataset was accounted for. The one other way to claim it is that the catalog had asked to
   cancel and the work ended with an error, before or while it was cancelled: that error is
   never read. `FalseReportPossible` in checkpoint.dfy tells for which inputs this can happen.
   */
  lemma CheckpointSound(cfg: Runner.Config, events: seq<Event>)
    requires Play(cfg, events).Some? && Play(cfg, events).value.main.Reported?
    ensures var s := Play(cfg, events).value; var report := s.main.report;
      && s.work.Ended? && report.discovered == s.work.run.discovered
      && (report.listingComplete ==> cfg.limit.None? && report.discovered == |cfg.listing| && report.error.None?)
      && (report.listingComplete && s.work.end.Succeeded? ==> AllAccounted(cfg, s.work.run))
      && (report.listingComplete && !s.work.end.Succeeded? <==>
            s.pulse.Asked? && report.error.None? && s.work.end.Failed? && s.work.run.listingComplete)
      && (s.work.end.Succeeded? && report.error.None? ==> (report.listingComplete <==> cfg.limit.None?))
  {
    PlayInv(cfg, events);
    var s := Play(cfg, events).value;
    if s.work.end.Succeeded? {
      SucceededRun(cfg, s.work.run);
    }
  }

  lemma SucceededRun(cfg: Runner.Config, run: Runner.State)
    requires Runner.Inv(cfg, run) && run.phase == Runner.Left(Runner.Returned)
    ensures run.listingComplete <==> cfg.limit.None?
    ensures cfg.limit.None? ==> AllAccounted(cfg, run)
  {
    Runner.ReturnedAccounts(cfg, run);
    if cfg.limit.None? {
      assert cfg.listing[..run.discovered] == cfg.listing;
      forall x | x in cfg.listing
        ensures x.code in run.accepted && (run.accepted[x.code].Skipped? <==> !x.shouldFetch)
      {
        ListedOnce(cfg.listing, x);
        assert x.code in run.accepted.Keys;
      }
    }
  }

  /** In a listing without duplicates a code is fetchable exactly when its selection is. */
  lemma ListedOnce(l: seq<Runner.Selection>, x: Runner.Selection)
    requires Runner.DistinctCodes(l) && x in l
    ensures x.code in Runner.Codes(l)
    ensures x.code in Runner.Fetchable(l) <==> x.shouldFetch
  {
    if x.code in Runner.Fetchable(l) {
      var y :| y in l && y.shouldFetch && y.code == x.code;
      var i :| 0 <= i < |l| && l[i] == x;
      var j :| 0 <= j < |l| && l[j] == y;
      assert i == j;
    }
  }

  /** What the first wake-up decided is what gets reported. */
  lemma {:induction false} VerdictStands(cfg: Runner.Config, events: seq<Event>, more: seq<Event>,
                                         error: Option<Reason>)
    requires Play(cfg, events).Some? && Play(cfg, events + more).Some?
    requires Play(cfg, events).value.main == Cleaning(error)
    ensures var main := Play(cfg, events + more).value.main;
      main == Cleaning(error) || main.GaveUp? || (main.Reported? && main.report.error == error)
  {
    if more == [] {
      assert events + more == events;
    } else {
      var fewer := more[..|more| - 1];
      assert (events + more)[..|events + more| - 1] == events + fewer;
      VerdictStands(cfg, events, fewer, error);
    }
  }

  /**
   A worker that was stopped, lost its lease or lost its heartbeat before the first wake-up
   never reports a complete listing, whatever the work does meanwhile.
   */
  lemma InterruptedRunsNeverCheckpoint(cfg: Runner.Config, before: seq<Event>, after: seq<Event>)
    requires Play(cfg, before).Some? && Play(cfg, before + [WakeUp] + after).Some?
    requires var s := Play(cfg, before).value; s.stopped.Fired? || s.watchdog.Fired? || s.pulse.Broken?
    ensures var main := Play(cfg, before + [WakeUp] + after).value.main;
      main.Reported? ==> !main.report.listingComplete && main.report.error.Some?
  {
    hide Runner.Inv, Runner.Next;
    var events := before + [WakeUp];
    assert events[..|events| - 1] == before;
    PlayPrefix(cfg, events, after);
    VerdictStands(cfg, events, after, Play(cfg, events).value.main.error);
    PlayInv(cfg, events + after);
  }

  lemma {:induction false} PlayPrefix(cfg: Runner.Config, events: seq<Event>, more: seq<Event>)
    requires Play(cfg, events + more).Some?
    ensures Play(cfg, events).Some?
  {
    if more == [] {
      assert events + more == events;
    } else {
      var fewer := more[..|more| - 1];
      assert (events + more)[..|events + more| - 1] == events + fewer;
      PlayPrefix(cfg, events, fewer);
    }
  }

  lemma PlayStep(cfg: Runner.Config, events: seq<Event>, s: State, e: Event, s': State)
    requires Play(cfg, events) == Some(s) && Next(cfg, s, e) == Some(s')
    ensures Play(cfg, events + [e]) == Some(s')
  {
    assert (events + [e])[..|events|] == events;
  }

  /** One event of the embedded run, from one explicit state to the next. */
  lemma ExecStep(cfg: Runner.Config, events: seq<Event>, s: State, x: Runner.Event, run: Runner.State)
    returns (s': State)
    requires Play(cfg, events) == Some(s) && s.work.Executing? && !x.Interrupt?
    requires Runner.Next(cfg, s.work.run, x) == Some(run)
    ensures s' == s.(work := AfterExec(run)) && Play(cfg, events + [Exec(x)]) == Some(s')
  {
    s' := s.(work := AfterExec(run));
    PlayStep(cfg, events, s, Exec(x), s');
  }

  /** A run with one dataset taken from the stream and nothing acknowledged yet. */
  function One(c: Runner.Code, phase: Runner.Phase, task: Runner.Task, listed: bool, sent: bool): Runner.State {
    Runner.State(phase, 1, if Runner.Running(task) then 1 else 0, 1, listed, {c}, {c}, map[c := task], {},
                 if sent then [Runner.Record(c, Runner.Saved)] else [], map[])
  }

  lemma OneTaken(cfg: Runner.Config, sel: Runner.Selection)
    requires cfg.listing == [sel] && sel.scope == cfg.scope && sel.shouldFetch
    requires cfg.limit.None? && cfg.concurrency >= 2
    ensures Runner.Next(cfg, Runner.Initial(cfg).(phase := Runner.Discovering), Runner.Yield)
         == Some(One(sel.code, Runner.Discovering, Runner.Created, false, false))
  {
    var s := Runner.Initial(cfg).(phase := Runner.Discovering);
    assert s.seen + {sel.code} == {sel.code} && s.pool + {sel.code} == {sel.code};
    assert Runner.Enter(s, sel) == One(sel.code, Runner.Discovering, Runner.Created, false, false);
  }

  lemma OneMoves(c: Runner.Code, phase: Runner.Phase, task: Runner.Task, listed: bool, sent: bool, to: Runner.Task)
    ensures Runner.SetTask(One(c, phase, task, listed, sent), c, to) == One(c, phase, to, listed, sent)
  {
    assert map[c := task][c := to] == map[c := to];
  }

  lemma OneEmits(cfg: Runner.Config, c: Runner.Code)
    ensures Runner.Next(cfg, One(c, Runner.Discovering, Runner.Resolving(0), false, false),
                        Runner.Answer(c, Runner.Documents(true)))
         == Some(One(c, Runner.Discovering, Runner.Emitting(Runner.Saved), false, true))
  {
    OneMoves(c, Runner.Discovering, Runner.Resolving(0), false, false, Runner.Emitting(Runner.Saved));
    assert [] + [Runner.Record(c, Runner.Saved)] == [Runner.Record(c, Runner.Saved)];
    assert Runner.Emit(One(c, Runner.Discovering, Runner.Resolving(0), false, false), c, Runner.Saved)
        == One(c, Runner.Discovering, Runner.Emitting(Runner.Saved), false, true);
  }

  lemma OneRaises(c: Runner.Code)
    ensures Runner.Leave(One(c, Runner.Gathering, Runner.Lost, true, true), Runner.Raised)
         == One(c, Runner.Draining(Runner.Raised, false), Runner.Lost, true, true)
  {
  }

  /** The stream ends while the only dataset is still being emitted. */
  lemma ListedWhileEmitting(cfg: Runner.Config, sel: Runner.Selection) returns (events: seq<Event>, s: State)
    requires cfg.listing == [sel] && sel.scope == cfg.scope && sel.shouldFetch
    requires cfg.limit.None? && cfg.concurrency >= 2
    ensures Play(cfg, events) == Some(s)
    ensures s == State(Racing, Executing(One(sel.code, Runner.Gathering, Runner.Emitting(Runner.Saved), true, true)),
                       Beating, Waiting, Waiting)
  {
    hide One, Runner.SetTask, Runner.Discover, Runner.Emit;
    var c := sel.code;
    var r0 := Runner.Initial(cfg);
    events, s := [Loaded], Initial(cfg).(work := Executing(r0));
    PlayStep(cfg, [], Initial(cfg), Loaded, s);
    assert [] + [Loaded] == [Loaded];
    s := ExecStep(cfg, events, s, Runner.Prepare(true), r0.(phase := Runner.Discovering));
    events := events + [Exec(Runner.Prepare(true))];
    OneTaken(cfg, sel);
    OneShape(c, Runner.Discovering, Runner.Created, false, false);
    s := ExecStep(cfg, events, s, Runner.Yield, One(c, Runner.Discovering, Runner.Created, false, false));
    events := events + [Exec(Runner.Yield)];
    OneMoves(c, Runner.Discovering, Runner.Created, false, false, Runner.Resolving(0));
    OneShape(c, Runner.Discovering, Runner.Resolving(0), false, false);
    s := ExecStep(cfg, events, s, Runner.Start(c), One(c, Runner.Discovering, Runner.Resolving(0), false, false));
    events := events + [Exec(Runner.Start(c))];
    OneEmits(cfg, c);
    OneShape(c, Runner.Discovering, Runner.Emitting(Runner.Saved), false, true);
    s := ExecStep(cfg, events, s, Runner.Answer(c, Runner.Documents(true)),
                  One(c, Runner.Discovering, Runner.Emitting(Runner.Saved), false, true));
    events := events + [Exec(Runner.Answer(c, Runner.Documents(true)))];
    OneShape(c, Runner.Gathering, Runner.Emitting(Runner.Saved), true, true);
    OneListed(cfg, c);
    s := ExecStep(cfg, events, s, Runner.StreamEnd,
                  One(c, Runner.Gathering, Runner.Emitting(Runner.Saved), true, true));
    events := events + [Exec(Runner.StreamEnd)];
  }

  lemma OneListed(cfg: Runner.Config, c: Runner.Code)
    requires |cfg.listing| == 1 && cfg.limit.None?
    ensures Runner.Next(cfg, One(c, Runner.Discovering, Runner.Emitting(Runner.Saved), false, true), Runner.StreamEnd)
         == Some(One(c, Runner.Gathering, Runner.Emitting(Runner.Saved), true, true))
  {
  }

  lemma OneShape(c: Runner.Code, phase: Runner.Phase, task: Runner.Task, listed: bool, sent: bool)
    ensures var r := One(c, phase, task, listed, sent);
      && r.phase == phase && r.tasks == map[c := task] && r.pool == {c} && r.cancelling == {}
      && r.listingComplete == listed && r.discovered == 1 && r.accepted == map[]
  {
  }

  /** From there the emit fails, and `execute` raises with the listing already flagged complete. */
  lemma RaisesAfterListing(cfg: Runner.Config, sel: Runner.Selection) returns (events: seq<Event>, s: State)
    requires cfg.listing == [sel] && sel.scope == cfg.scope && sel.shouldFetch
    requires cfg.limit.None? && cfg.concurrency >= 2
    ensures Play(cfg, events) == Some(s)
    ensures s == State(Racing, Ended(s.work.run, Failed), Beating, Waiting, Waiting)
    ensures s.work.run.listingComplete && s.work.run.discovered == 1 && s.work.run.accepted == map[]
  {
    hide One, Runner.SetTask, Runner.Discover, Runner.Emit, Runner.Leave, Runner.Next;
    var c := sel.code;
    events, s := ListedWhileEmitting(cfg, sel);
    OneShape(c, Runner.Gathering, Runner.Emitting(Runner.Saved), true, true);
    OneFails(cfg, c);
    OneShape(c, Runner.Gathering, Runner.Lost, true, true);
    s := ExecStep(cfg, events, s, Runner.EmitAck(c, false), One(c, Runner.Gathering, Runner.Lost, true, true));
    events := events + [Exec(Runner.EmitAck(c, false))];
    OneShape(c, Runner.Draining(Runner.Raised, false), Runner.Lost, true, true);
    s := ExecStep(cfg, events, s, Runner.GatherRaise,
                  One(c, Runner.Draining(Runner.Raised, false), Runner.Lost, true, true));
    events := events + [Exec(Runner.GatherRaise)];
    OneShape(c, Runner.Closing(Runner.Raised), Runner.Lost, true, true);
    s := ExecStep(cfg, events, s, Runner.Drained, One(c, Runner.Closing(Runner.Raised), Runner.Lost, true, true));
    events := events + [Exec(Runner.Drained)];
    OneShape(c, Runner.Left(Runner.Raised), Runner.Lost, true, true);
    s := ExecStep(cfg, events, s, Runner.Close(true), One(c, Runner.Left(Runner.Raised), Runner.Lost, true, true));
    events := events + [Exec(Runner.Close(true))];
  }

  /** The failed emit surfaces in the final gather and unwinds the run. */
  lemma OneFails(cfg: Runner.Config, c: Runner.Code)
    ensures Runner.Next(cfg, One(c, Runner.Gathering, Runner.Emitting(Runner.Saved), true, true),
                        Runner.EmitAck(c, false))
         == Some(One(c, Runner.Gathering, Runner.Lost, true, true))
    ensures Runner.Next(cfg, One(c, Runner.Gathering, Runner.Lost, true, true), Runner.GatherRaise)
         == Some(One(c, Runner.Draining(Runner.Raised, false), Runner.Lost, true, true))
    ensures Runner.Next(cfg, One(c, Runner.Draining(Runner.Raised, false), Runner.Lost, true, true), Runner.Drained)
         == Some(One(c, Runner.Closing(Runner.Raised), Runner.Lost, true, true))
    ensures Runner.Next(cfg, One(c, Runner.Closing(Runner.Raised), Runner.Lost, true, true), Runner.Close(true))
         == Some(One(c, Runner.Left(Runner.Raised), Runner.Lost, true, true))
  {
    OneMoves(c, Runner.Gathering, Runner.Emitting(Runner.Saved), true, true, Runner.Lost);
    OneRaises(c);
    assert c in One(c, Runner.Gathering, Runner.Lost, true, true).pool;
  }

  /**
   One run of this kind: the dataset's emit fails after the stream has ended, and the heartbeat
   asks to cancel before the job wakes up. The report then claims a complete listing although
   the only dataset was never acknowledged.
   */
  lemma CheckpointLostFailure(cfg: Runner.Config, sel: Runner.Selection) returns (events: seq<Event>)
    requires cfg.listing == [sel] && sel.scope == cfg.scope && sel.shouldFetch
    requires cfg.limit.None? && cfg.concurrency >= 2
    ensures Play(cfg, events).Some?
    ensures var s := Play(cfg, events).value;
      s.main == Reported(Report(true, None, 1)) && sel.code !in s.work.run.accepted
  {
    var s: State;
    events, s := RaisesAfterListing(cfg, sel);
    PlayStep(cfg, events, s, PulseEnds(Asked), s.(pulse := Asked));
    events, s := events + [PulseEnds(Asked)], s.(pulse := Asked);
    PlayStep(cfg, events, s, WakeUp, s.(main := Cleaning(None)));
    events, s := events + [WakeUp], s.(main := Cleaning(None));
    var idle := s.(watchdog := HelperCancelled, stopped := HelperCancelled);
    PlayStep(cfg, events, s, HelpersAborted, idle);
    events, s := events + [HelpersAborted], idle;
    PlayStep(cfg, events, s, Complete(true), s.(main := Reported(Report(true, None, 1))));
    events := events + [Complete(true)];
  }
}
