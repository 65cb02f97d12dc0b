/**
 What a job reports (`run_job` in worker.py), read off its schedule: the reason by its fixed priority,
 and that a job in which nothing fails reports its listing and has it accounted for.
 */
module Reports {
  import opened Common
  import opened Job
  import opened Returns
  import Runner

  lemma JobStep(cfg: Runner.Config, events: seq<Event>, s: State, e: Event) returns (events': seq<Event>, s': State)
    requires Play(cfg, events) == Some(s) && Next(cfg, s, e).Some?
    ensures events' == events + [e] && Play(cfg, events') == Some(s') == Next(cfg, s, e)
  {
    events', s' := events + [e], Next(cfg, s, e).value;
    assert events'[..|events'| - 1] == events;
  }

  // ---- The run inside the job -------------------------------------------------------------------

  /** The events of `execute` in a job's schedule. */
  function RunEvents(events: seq<Event>): seq<Runner.Event> {
    if events == [] then []
    else
      var e := events[|events| - 1];
      RunEvents(events[..|events| - 1]) + if e.Exec? then [e.event] else []
  }

  lemma RunEventsGrow(events: seq<Event>, e: Event)
    ensures RunEvents(events + [e]) == RunEvents(events) + if e.Exec? then [e.event] else []
  {
    assert (events + [e])[..|events|] == events;
  }

  lemma EmbeddedStep(cfg: Runner.Config, s: State, e: Event)
    requires Next(cfg, s, e).Some?
    ensures var run := Next(cfg, s, e).value.work.run;
      if e.Exec? then Runner.Next(cfg, s.work.run, e.event) == Some(run) else run == s.work.run
  {
    hide Runner.Next;
  }

  /** The job's run is `execute` after these events. */
  lemma {:induction false} Embedded(cfg: Runner.Config, events: seq<Event>)
    requires Play(cfg, events).Some?
    ensures Runner.Play(cfg, RunEvents(events)) == Some(Play(cfg, events).value.work.run)
  {
    if events != [] {
      var before, e := events[..|events| - 1], events[|events| - 1];
      Embedded(cfg, before);
      EmbeddedStep(cfg, Play(cfg, before).value, e);
      hide Next, Runner.Next;
      if e.Exec? {
        assert RunEvents(events)[..|RunEvents(before)|] == RunEvents(before);
      } else {
        assert RunEvents(events) == RunEvents(before);
      }
    }
  }

  function Execs(events: seq<Runner.Event>): seq<Event> {
    if events == [] then [] else Execs(events[..|events| - 1]) + [Exec(events[|events| - 1])]
  }

  /** Whatever `execute` can go on to do, it can do inside the job, while nothing else happens. */
  lemma {:induction false} Lift(cfg: Runner.Config, events: seq<Event>, s: State, more: seq<Runner.Event>,
                                late: Runner.State)
    requires Play(cfg, events) == Some(s) && s.work.Executing?
    requires s.main.Cleaning? || forall e :: e in more ==> !e.Interrupt?
    requires Runner.Play(cfg, RunEvents(events) + more) == Some(late)
    ensures Play(cfg, events + Execs(more)) == Some(if more == [] then s else s.(work := AfterExec(late)))
  {
    hide Runner.Next, Runner.Inv;
    Embedded(cfg, events);
    if more == [] {
      assert events + Execs([]) == events;
      assert RunEvents(events) + [] == RunEvents(events);
    } else {
      var fewer, e := more[..|more| - 1], more[|more| - 1];
      var run := RunEvents(events) + fewer;
      assert (RunEvents(events) + more)[..|run|] == run;
      var before := Runner.Play(cfg, run).value;
      Runner.PlayInv(cfg, run);
      if before.phase.Left? {
        LeftIsFinal(cfg, before, e);
      }
      Lift(cfg, events, s, fewer, before);
      LiftLast(cfg, events + Execs(fewer), s.(work := Executing(before)), e, late);
      assert events + Execs(fewer) + [Exec(e)] == events + Execs(more);
    }
  }

  lemma LiftLast(cfg: Runner.Config, events: seq<Event>, s: State, e: Runner.Event, late: Runner.State)
    requires Play(cfg, events) == Some(s) && s.work.Executing? && (s.main.Cleaning? || !e.Interrupt?)
    requires Runner.Next(cfg, s.work.run, e) == Some(late)
    ensures Play(cfg, events + [Exec(e)]) == Some(s.(work := AfterExec(late)))
  {
    hide Runner.Next;
    PlayStep(cfg, events, s, Exec(e), s.(work := AfterExec(late)));
  }

  // ---- The reason -------------------------------------------------------------------------------

  predicate PulseEnded(events: seq<Event>) { PulseEnds(Asked) in events || PulseEnds(Broken) in events }

  /** Reading the state pages failed, or `execute` has raised. */
  predicate WorkFailed(cfg: Runner.Config, events: seq<Event>) {
    || LoadFailed in events
    || (Loaded in events && var run := Runner.Play(cfg, RunEvents(events));
        run.Some? && run.value.phase == Runner.Left(Runner.Raised))
  }

  lemma InGrown<T>(events: seq<T>, e: T, x: T)
    ensures x in events + [e] <==> x in events || x == e
  {
  }

  /** Each helper and the heartbeat ended the way its event says. */
  lemma {:induction false} EndedByEvents(cfg: Runner.Config, events: seq<Event>)
    requires Play(cfg, events).Some?
    ensures var s := Play(cfg, events).value;
      && (s.stopped.Fired? <==> StopSet in events) && (s.watchdog.Fired? <==> WatchdogFires in events)
      && (s.pulse.Asked? <==> PulseEnds(Asked) in events) && (s.pulse.Broken? <==> PulseEnds(Broken) in events)
  {
    hide Runner.Next;
    if events != [] {
      var before, e := events[..|events| - 1], events[|events| - 1];
      EndedByEvents(cfg, before);
      assert events == before + [e];
      InGrown(before, e, StopSet);
      InGrown(before, e, WatchdogFires);
      InGrown(before, e, PulseEnds(Asked));
      InGrown(before, e, PulseEnds(Broken));
    }
  }

  /** The work, by whether its state pages were read. */
  predicate WorkIs(w: Work, loaded: bool, failed: bool) {
    if loaded then !failed && w == AfterExec(w.run)
    else if failed then w == Ended(w.run, Failed)
    else w.Loading? || w == Ended(w.run, WasCancelled)
  }

  lemma WorkStep(cfg: Runner.Config, s: State, e: Event, loaded: bool, failed: bool)
    requires Next(cfg, s, e).Some? && WorkIs(s.work, loaded, failed)
    ensures WorkIs(Next(cfg, s, e).value.work, loaded || e == Loaded, failed || e == LoadFailed)
  {
    hide Runner.Next;
  }

  lemma {:induction false} LoadedByEvents(cfg: Runner.Config, events: seq<Event>)
    requires Play(cfg, events).Some?
    ensures WorkIs(Play(cfg, events).value.work, Loaded in events, LoadFailed in events)
  {
    if events != [] {
      var before, e := events[..|events| - 1], events[|events| - 1];
      LoadedByEvents(cfg, before);
      WorkStep(cfg, Play(cfg, before).value, e, Loaded in before, LoadFailed in before);
      hide Next, WorkIs;
      assert events == before + [e];
      InGrown(before, e, Loaded);
      InGrown(before, e, LoadFailed);
    }
  }

  /** While the job has not woken up, the work has failed exactly if its events say so. */
  lemma FailedByEvents(cfg: Runner.Config, events: seq<Event>)
    requires Play(cfg, events).Some? && Play(cfg, events).value.main.Racing?
    ensures var w := Play(cfg, events).value.work; (w.Ended? && w.end.Failed?) <==> WorkFailed(cfg, events)
  {
    Embedded(cfg, events);
    LoadedByEvents(cfg, events);
    PlayInv(cfg, events);
    hide Runner.Play, Runner.Inv, Play;
  }

  /** The reason of a report, by what had happened when the job first woke up. */
  ghost predicate ReasonIs(cfg: Runner.Config, before: seq<Event>, error: Option<Reason>) {
    && (error == Some(Interrupted) <==> StopSet in before)
    && (error == Some(LeaseLost) <==> StopSet !in before && WatchdogFires in before)
    && (error == Some(PulseError) <==>
          StopSet !in before && WatchdogFires !in before && PulseEnds(Broken) in before)
    && (error == Some(WorkError) <==>
          StopSet !in before && WatchdogFires !in before && !PulseEnded(before) && WorkFailed(cfg, before))
    && (error == None <==>
          StopSet !in before && WatchdogFires !in before && PulseEnds(Broken) !in before
          && (PulseEnds(Asked) in before || !WorkFailed(cfg, before)))
  }

  lemma WakeUpDecides(cfg: Runner.Config, before: seq<Event>)
    requires Play(cfg, before + [WakeUp]).Some?
    ensures Play(cfg, before + [WakeUp]).value.main.Cleaning?
    ensures ReasonIs(cfg, before, Play(cfg, before + [WakeUp]).value.main.error)
  {
    assert (before + [WakeUp])[..|before|] == before;
    EndedByEvents(cfg, before);
    FailedByEvents(cfg, before);
    hide WorkFailed;
  }

  /**
   The priority of the reasons: a stop first, then the lease, then the heartbeat, then the work. The
   report carries what held at the first wake-up, whatever happens afterwards.
   */
  lemma ReportedReason(cfg: Runner.Config, before: seq<Event>, after: seq<Event>)
    requires Play(cfg, before + [WakeUp] + after).Some?
    requires Play(cfg, before + [WakeUp] + after).value.main.Reported?
    ensures ReasonIs(cfg, before, Play(cfg, before + [WakeUp] + after).value.main.report.error)
  {
    hide Runner.Inv, Runner.Next, ReasonIs;
    var events := before + [WakeUp];
    PlayPrefix(cfg, events, after);
    WakeUpDecides(cfg, before);
    VerdictStands(cfg, events, after, Play(cfg, events).value.main.error);
  }

  lemma {:induction false} EndedStays(cfg: Runner.Config, events: seq<Event>, more: seq<Event>)
    requires Play(cfg, events).Some? && Play(cfg, events + more).Some? && Play(cfg, events).value.work.Ended?
    ensures Play(cfg, events + more).value.work == Play(cfg, events).value.work
  {
    hide Runner.Next;
    if more == [] {
      assert events + more == events;
    } else {
      var fewer := more[..|more| - 1];
      assert (events + more)[..|events + more| - 1] == events + fewer;
      EndedStays(cfg, events, fewer);
    }
  }

  lemma SucceededByEvents(cfg: Runner.Config, events: seq<Event>)
    requires Play(cfg, events).Some? && Loaded in events
    requires Runner.Play(cfg, RunEvents(events)).Some?
    requires Runner.Play(cfg, RunEvents(events)).value.phase == Runner.Left(Runner.Returned)
    ensures var w := Play(cfg, events).value.work; w == Ended(w.run, Succeeded) && w == AfterExec(w.run)
    ensures !WorkFailed(cfg, events)
  {
    Embedded(cfg, events);
    LoadedByEvents(cfg, events);
    PlayInv(cfg, events);
    hide Runner.Play, Runner.Inv, Play;
  }

  /**
   A job whose work returned by itself before a stop, the watchdog or a broken heartbeat reports no error;
   its listing counts as complete exactly if the run was unbounded, and then it is accounted for.
   */
  lemma HealthyJobReports(cfg: Runner.Config, before: seq<Event>, after: seq<Event>)
    requires Play(cfg, before + [WakeUp] + after).Some?
    requires Play(cfg, before + [WakeUp] + after).value.main.Reported?
    requires StopSet !in before && WatchdogFires !in before && PulseEnds(Broken) !in before && Loaded in before
    requires Runner.Play(cfg, RunEvents(before)).Some?
    requires Runner.Play(cfg, RunEvents(before)).value.phase == Runner.Left(Runner.Returned)
    ensures var s := Play(cfg, before + [WakeUp] + after).value;
      && s.main.report == Report(cfg.limit.None?, None, s.work.run.discovered)
      && (cfg.limit.None? ==> AllAccounted(cfg, s.work.run) && s.work.run.discovered == |cfg.listing|)
  {
    var events := before + [WakeUp];
    PlayPrefix(cfg, events, after);
    PlayPrefix(cfg, before, [WakeUp]);
    SucceededByEvents(cfg, before);
    assert before + ([WakeUp] + after) == events + after;
    EndedStays(cfg, before, [WakeUp] + after);
    ReportedReason(cfg, before, after);
    CheckpointSound(cfg, events + after);
    hide Runner.Inv, Runner.Play, Play, WorkFailed, AllAccounted, RunEvents, AfterExec;
  }

  // ---- Jobs that do report ----------------------------------------------------------------------

  /** With every child ended, the report is sent. */
  lemma ReportIsSent(cfg: Runner.Config, events: seq<Event>, s: State, error: Option<Reason>)
    returns (events': seq<Event>, s': State)
    requires Play(cfg, events) == Some(s) && s.main == Cleaning(error) && s.work.Ended?
    ensures events <= events' && Play(cfg, events') == Some(s') && s'.work == s.work
    ensures s'.main == Reported(Completion(s, error))
    ensures PulseEnds(Asked) in events' <==> PulseEnds(Asked) in events
  {
    hide Play, Runner.Next;
    events', s' := JobStep(cfg, events, s, HelpersAborted);
    events', s' := JobStep(cfg, events', s', Complete(true));
  }

  lemma NoAsking(events: seq<Runner.Event>)
    ensures PulseEnds(Asked) !in Execs(events)
  {
  }

  /**
   For every unbounded, well-formed input there is a job, never asked to cancel, that reports its listing
   as complete and without an error, every dataset accounted for and none failed; and for every bounded
   one a job that reports without an error.
   */
  lemma SomeJobCompletes(cfg: Runner.Config) returns (events: seq<Event>, s: State)
    requires Legal(cfg) && WellListed(cfg)
    ensures Play(cfg, events) == Some(s) && PulseEnds(Asked) !in events
    ensures s.main == Reported(Report(cfg.limit.None?, None, s.work.run.discovered))
    ensures cfg.limit.None? ==> s.work.run.discovered == |cfg.listing| && AllAccounted(cfg, s.work.run)
    ensures forall c :: c in s.work.run.accepted ==> !s.work.run.accepted[c].Failed?
  {
    hide Play, Runner.Play, Runner.Inv, WellListed, AllAccounted, Runner.Next;
    var run, r := SomeRunSavesAll(cfg);
    events, s := LoadsPages(cfg);
    assert [] + run == run;
    SmoothIsCalm(run);
    SomethingHappened(cfg, run);
    Lift(cfg, events, s, run, r);
    NoAsking(run);
    events, s := events + Execs(run), s.(work := AfterExec(r));
    events, s := JobStep(cfg, events, s, WakeUp);
    assert s.main == Cleaning(None);
    events, s := ReportIsSent(cfg, events, s, None);
    CheckpointSound(cfg, events);
  }

  /** The state pages are read, and `execute` begins. */
  lemma LoadsPages(cfg: Runner.Config) returns (events: seq<Event>, s: State)
    requires Legal(cfg)
    ensures Play(cfg, events) == Some(s) && RunEvents(events) == [] && PulseEnds(Asked) !in events
    ensures s == State(Racing, Executing(Runner.Initial(cfg)), Beating, Waiting, Waiting)
    ensures Runner.Play(cfg, []) == Some(Runner.Initial(cfg))
  {
    assert Play(cfg, []) == Some(Initial(cfg));
    hide Play, Runner.Next;
    events, s := JobStep(cfg, [], Initial(cfg), Loaded);
    RunEventsGrow([], Loaded);
  }

  lemma SmoothIsCalm(events: seq<Runner.Event>)
    requires Smooth(events)
    ensures forall e :: e in events ==> !e.Interrupt?
  {
  }

  lemma SomethingHappened(cfg: Runner.Config, run: seq<Runner.Event>)
    requires Legal(cfg) && Runner.Play(cfg, run).Some? && Runner.Play(cfg, run).value.phase.Left?
    ensures run != []
  {
  }

  lemma NotYetLeft(cfg: Runner.Config, run: seq<Runner.Event>, more: seq<Runner.Event>)
    requires Runner.Play(cfg, run).Some? && Runner.Play(cfg, run + more).Some?
    requires !Runner.Play(cfg, run).value.phase.Left? && Runner.Play(cfg, run + more).value.phase.Left?
    ensures more != []
  {
    assert run + [] == run;
  }

  lemma WakesUp(cfg: Runner.Config, events: seq<Event>, s: State) returns (events': seq<Event>, s': State)
    requires Play(cfg, events) == Some(s) && s.main.Racing?
    ensures events <= events' && Play(cfg, events') == Some(s') && s'.main.Cleaning?
  {
    hide Play, Runner.Next;
    events', s' := events, s;
    if s.stopped.Waiting? {
      events', s' := JobStep(cfg, events, s, StopSet);
    }
    events', s' := JobStep(cfg, events', s', WakeUp);
  }

  /** The work can be brought to an end once the job is cleaning up. */
  lemma WorkEnds(cfg: Runner.Config, events: seq<Event>, s: State) returns (events': seq<Event>, s': State)
    requires Play(cfg, events) == Some(s) && s.main.Cleaning?
    ensures events <= events' && Play(cfg, events') == Some(s') && s' == s.(work := s'.work) && s'.work.Ended?
  {
    hide Play, Runner.Next;
    events', s' := events, s;
    if s.work.Loading? {
      events', s' := JobStep(cfg, events, s, WorkAborted);
    } else if s.work.Executing? {
      events', s' := RunEnds(cfg, events, s);
    }
  }

  lemma RunEnds(cfg: Runner.Config, events: seq<Event>, s: State) returns (events': seq<Event>, s': State)
    requires Play(cfg, events) == Some(s) && s.main.Cleaning? && s.work.Executing?
    ensures events <= events' && Play(cfg, events') == Some(s') && s' == s.(work := s'.work) && s'.work.Ended?
  {
    LoadedByEvents(cfg, events);
    Embedded(cfg, events);
    hide Play, Runner.Play, Next;
    var more, late := CanLeave(cfg, RunEvents(events), s.work.run);
    Lift(cfg, events, s, more, late);
    NotYetLeft(cfg, RunEvents(events), more);
    events', s' := events + Execs(more), s.(work := AfterExec(late));
  }

  /** No job is ever stuck: unless it has given up or reported, it can still report. */
  lemma EveryJobCanReport(cfg: Runner.Config, events: seq<Event>, s: State) returns (events': seq<Event>, s': State)
    requires Play(cfg, events) == Some(s) && (s.main.Racing? || s.main.Cleaning?)
    ensures events <= events' && Play(cfg, events') == Some(s') && s'.main.Reported?
  {
    hide Play, Next;
    events', s' := events, s;
    if s.main.Racing? {
      events', s' := WakesUp(cfg, events, s);
    }
    events', s' := WorkEnds(cfg, events', s');
    events', s' := ReportIsSent(cfg, events', s', s'.main.error);
  }
}
