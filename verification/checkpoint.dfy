/**
 When a job can report a complete listing although a listed dataset was not accounted for
 (`run_job` in worker.py around `execute` in runner.py), as a condition on its input.
 */
module Checkpoint {
  import opened Common
  import opened Job
  import opened Reports
  import opened Returns
  import Runner

  /** The report claims a complete listing, and some listed dataset has no acknowledged outcome. */
  ghost predicate FalseReport(cfg: Runner.Config, s: State) {
    s.main.Reported? && s.main.report.listingComplete && !AllAccounted(cfg, s.work.run)
  }

  predicate FetchesSomething(cfg: Runner.Config) {
    exists i :: 0 <= i < |cfg.listing| && cfg.listing[i].shouldFetch
  }

  predicate NeverAsked(events: seq<Event>) { PulseEnds(Asked) !in events }

  // ---- What excludes a false report -------------------------------------------------------------

  /** With one slot, or nothing to fetch, the end of the stream finds everything acknowledged. */
  ghost predicate Settled(cfg: Runner.Config, run: Runner.State) {
    run.listingComplete && (cfg.concurrency <= 1 || !FetchesSomething(cfg)) ==>
      run.accepted.Keys == run.seen && forall c :: c in run.tasks ==> run.tasks[c].Finished?
  }

  lemma NoTasksWithoutFetch(cfg: Runner.Config, run: Runner.State)
    requires Runner.Inv(cfg, run) && !FetchesSomething(cfg)
    ensures run.tasks == map[]
  {
    hide Runner.Accounted, Runner.Once, Runner.Bounded, Runner.Unwinding, Runner.Pooled;
    var prefix := cfg.listing[..run.discovered];
    forall x | x in prefix ensures !x.shouldFetch {
      var i :| 0 <= i < |prefix| && prefix[i] == x;
      assert !cfg.listing[i].shouldFetch;
    }
    assert Runner.Fetchable(prefix) == {};
    assert run.tasks.Keys == {};
  }

  lemma EmptyPoolFinished(cfg: Runner.Config, run: Runner.State)
    requires Runner.Inv(cfg, run) && run.phase.Discovering? && cfg.concurrency <= 1
    ensures forall c :: c in run.tasks ==> run.tasks[c].Finished?
  {
    hide Runner.Accounted, Runner.Once, Runner.Walked;
    assert |run.pool| == 0;
  }

  lemma FinishedAccepted(cfg: Runner.Config, run: Runner.State)
    requires Runner.Inv(cfg, run) && run.phase.Discovering?
    requires forall c :: c in run.tasks ==> run.tasks[c].Finished?
    ensures run.accepted.Keys == run.seen
  {
    hide Runner.Walked, Runner.Once, Runner.Bounded, Runner.Unwinding, Runner.Pooled;
    forall c | c in run.seen ensures c in run.accepted {
      if c in run.tasks {
        assert Runner.TaskAccount(cfg.retries, c, run.tasks[c], run.emitted, run.accepted);
      } else {
        assert Runner.SkipAccount(run.phase, c, run.emitted, run.accepted);
      }
    }
  }

  /** Once the stream has ended, nothing but the phase of a settled run can change. */
  lemma SettledStays(cfg: Runner.Config, run: Runner.State, e: Runner.Event)
    requires Runner.Inv(cfg, run) && Runner.Next(cfg, run, e).Some? && run.listingComplete
    requires run.accepted.Keys == run.seen && forall c :: c in run.tasks ==> run.tasks[c].Finished?
    ensures var after := Runner.Next(cfg, run, e).value;
            after.accepted == run.accepted && after.seen == run.seen && after.tasks == run.tasks
  {
    hide Runner.Accounted, Runner.Once, Runner.Bounded, Runner.Unwinding, Runner.Pooled, Runner.Walked;
  }

  lemma SettledStep(cfg: Runner.Config, run: Runner.State, e: Runner.Event)
    requires Runner.Inv(cfg, run) && Runner.Next(cfg, run, e).Some? && Settled(cfg, run)
    ensures Settled(cfg, Runner.Next(cfg, run, e).value)
  {
    var after := Runner.Next(cfg, run, e).value;
    if after.listingComplete && (cfg.concurrency <= 1 || !FetchesSomething(cfg)) {
      if run.listingComplete {
        SettledStays(cfg, run, e);
      } else {
        StreamEnded(cfg, run, e);
        if cfg.concurrency <= 1 {
          EmptyPoolFinished(cfg, run);
        } else {
          NoTasksWithoutFetch(cfg, run);
        }
        FinishedAccepted(cfg, run);
      }
    }
    hide Runner.Next, Runner.Inv;
  }

  lemma StreamEnded(cfg: Runner.Config, run: Runner.State, e: Runner.Event)
    requires Runner.Next(cfg, run, e).Some? && !run.listingComplete && Runner.Next(cfg, run, e).value.listingComplete
    ensures run.phase.Discovering?
    ensures var after := Runner.Next(cfg, run, e).value;
            after.accepted == run.accepted && after.seen == run.seen && after.tasks == run.tasks
  {
  }

  lemma {:induction false} PlaySettled(cfg: Runner.Config, events: seq<Event>)
    requires Play(cfg, events).Some?
    ensures Settled(cfg, Play(cfg, events).value.work.run)
  {
    hide Runner.Inv, Runner.Next, Settled;
    if events == [] {
      assert Settled(cfg, Runner.Initial(cfg)) by { InitialSettled(cfg); }
    } else {
      var before, e := events[..|events| - 1], events[|events| - 1];
      PlaySettled(cfg, before);
      PlayInv(cfg, before);
      if e.Exec? {
        SettledStep(cfg, Play(cfg, before).value.work.run, e.event);
      }
    }
  }

  lemma InitialSettled(cfg: Runner.Config)
    ensures Settled(cfg, Runner.Initial(cfg))
  {
  }

  /** If everything listed is acknowledged, it is accounted for with the right kind of outcome. */
  lemma AcknowledgedIsAccounted(cfg: Runner.Config, run: Runner.State)
    requires Runner.Inv(cfg, run) && run.listingComplete && run.accepted.Keys == run.seen
    ensures AllAccounted(cfg, run)
  {
    assert cfg.listing[..run.discovered] == cfg.listing;
    hide Runner.Once, Runner.Bounded, Runner.Unwinding, Runner.Pooled;
    forall x | x in cfg.listing
      ensures x.code in run.accepted && (run.accepted[x.code].Skipped? <==> !x.shouldFetch)
    {
      ListedOnce(cfg.listing, x);
      var c := x.code;
      if c in run.tasks.Keys {
        assert Runner.TaskAccount(cfg.retries, c, run.tasks[c], run.emitted, run.accepted);
      } else {
        assert Runner.SkipAccount(run.phase, c, run.emitted, run.accepted);
      }
    }
  }

  /** The listing of a run whose stream ended was in scope and free of duplicates. */
  lemma CompleteIsWellListed(cfg: Runner.Config, run: Runner.State)
    requires Runner.Inv(cfg, run) && run.listingComplete
    ensures WellListed(cfg) && cfg.limit.None?
  {
    assert cfg.listing[..run.discovered] == cfg.listing;
    hide Runner.Once, Runner.Bounded, Runner.Unwinding, Runner.Pooled, Runner.Accounted;
  }

  lemma {:induction false} AskedByEvent(cfg: Runner.Config, events: seq<Event>)
    requires Play(cfg, events).Some? && Play(cfg, events).value.pulse.Asked?
    ensures !NeverAsked(events)
  {
    hide Runner.Next;
    var e := events[|events| - 1];
    if e != PulseEnds(Asked) {
      AskedByEvent(cfg, events[..|events| - 1]);
      assert PulseEnds(Asked) in events[..|events| - 1];
    }
  }

  /**
   A schedule in which the heartbeat is never told to cancel never reports falsely, whatever fails and
   whoever interrupts it; and a false report needs an unbounded run, two slots, something to fetch,
   and a listing in scope without duplicates.
   */
  lemma FalseReportNeeds(cfg: Runner.Config, events: seq<Event>)
    requires Play(cfg, events).Some? && FalseReport(cfg, Play(cfg, events).value)
    ensures !NeverAsked(events)
    ensures cfg.limit.None? && cfg.concurrency >= 2 && WellListed(cfg) && FetchesSomething(cfg)
  {
    hide Runner.Inv, Runner.Next;
    var s := Play(cfg, events).value;
    CheckpointSound(cfg, events);
    PlayInv(cfg, events);
    PlaySettled(cfg, events);
    AskedByEvent(cfg, events);
    CompleteIsWellListed(cfg, s.work.run);
    if s.work.run.accepted.Keys == s.work.run.seen {
      AcknowledgedIsAccounted(cfg, s.work.run);
    }
  }

  // ---- A false report in every other case -------------------------------------------------------

  /** Every dataset fetched so far is settled, except that `hold` has not even been started. */
  ghost predicate Holding(r: Runner.State, hold: Runner.Code) {
    && r.cancelling == {} && !r.listingComplete && hold !in r.accepted
    && forall c :: c in r.tasks ==> if c == hold then r.tasks[c].Created? else r.tasks[c].Finished?
  }

  ghost predicate HoldingAt(r: Runner.State, n: nat, hold: Runner.Code) {
    r.phase.Discovering? && r.discovered == n && Holding(r, hold)
  }

  /** A created resolution runs to its end and is recorded as failed. */
  lemma FinishOne(cfg: Runner.Config, events: seq<Runner.Event>, r: Runner.State, c: Runner.Code)
    returns (events': seq<Runner.Event>, r': Runner.State)
    requires Runner.Play(cfg, events) == Some(r) && Smooth(events)
    requires c in r.tasks && r.tasks[c].Created? && c !in r.cancelling
    ensures Runner.Play(cfg, events') == Some(r') && Smooth(events')
    ensures r'.tasks == r.tasks[c := Runner.Finished] && r'.accepted == r.accepted[c := Runner.Failed]
    ensures r'.phase == r.phase && r'.pool == r.pool && r'.cancelling == r.cancelling
    ensures r'.discovered == r.discovered && r'.listingComplete == r.listingComplete
  {
    hide Runner.Play, Smooth;
    events', r' := RunStep(cfg, events, r, Runner.Start(c));
    events', r' := RunStep(cfg, events', r', Runner.Answer(c, Runner.Fatal));
    events', r' := RunStep(cfg, events', r', Runner.EmitAck(c, true));
  }

  /** A settled resolution in a full pool makes room. */
  lemma MakeRoom(cfg: Runner.Config, events: seq<Runner.Event>, r: Runner.State, hold: Runner.Code, d: Runner.Code)
    returns (events': seq<Runner.Event>, r': Runner.State)
    requires Runner.Play(cfg, events) == Some(r) && Smooth(events) && cfg.limit.None?
    requires r.phase.AwaitingSlot? && Holding(r, hold) && d in r.pool && d in r.tasks && d != hold
    ensures Runner.Play(cfg, events') == Some(r') && Smooth(events')
    ensures HoldingAt(r', r.discovered, hold) && r'.tasks == r.tasks
  {
    hide Runner.Play, Smooth;
    events', r' := RunStep(cfg, events, r, Runner.SlotFree);
  }

  /** A skipped dataset. */
  lemma PassSkipped(cfg: Runner.Config, events: seq<Runner.Event>, r: Runner.State, n: nat, hold: Runner.Code)
    returns (events': seq<Runner.Event>, r': Runner.State)
    requires Runner.Play(cfg, events) == Some(r) && Smooth(events) && WellListed(cfg) && cfg.limit.None?
    requires HoldingAt(r, n, hold) && n < |cfg.listing| && !cfg.listing[n].shouldFetch && cfg.listing[n].code != hold
    ensures Runner.Play(cfg, events') == Some(r') && Smooth(events') && HoldingAt(r', n + 1, hold)
    ensures r'.tasks == r.tasks
  {
    hide Runner.Play, Smooth, WellListed, Runner.Next;
    events', r' := TakeSkip(cfg, events, r);
    events', r' := SkipAcked(cfg, events', r', n, hold);
  }

  lemma SkipAcked(cfg: Runner.Config, events: seq<Runner.Event>, r: Runner.State, n: nat, hold: Runner.Code)
    returns (events': seq<Runner.Event>, r': Runner.State)
    requires Runner.Play(cfg, events) == Some(r) && Smooth(events)
    requires r.phase.Skipping? && r.phase.code != hold && Holding(r, hold) && r.discovered == n + 1
    ensures Runner.Play(cfg, events') == Some(r') && Smooth(events') && HoldingAt(r', n + 1, hold)
    ensures r'.tasks == r.tasks
  {
    hide Runner.Play, Smooth;
    events', r' := RunStep(cfg, events, r, Runner.SkipAck(true));
  }

  /** A dataset to fetch, taken from the stream. */
  lemma TakeFetched(cfg: Runner.Config, events: seq<Runner.Event>, r: Runner.State, n: nat, hold: Runner.Code)
    returns (events': seq<Runner.Event>, r': Runner.State)
    requires Runner.Play(cfg, events) == Some(r) && Smooth(events) && WellListed(cfg) && cfg.limit.None?
    requires HoldingAt(r, n, hold) && n < |cfg.listing| && cfg.listing[n].shouldFetch
    ensures Runner.Play(cfg, events') == Some(r') && Smooth(events')
    ensures var code := cfg.listing[n].code;
            && code !in r.tasks && r'.tasks == r.tasks[code := Runner.Created] && r'.pool == r.pool + {code}
            && r'.accepted == r.accepted && r'.cancelling == {} && !r'.listingComplete && r'.discovered == n + 1
            && r'.phase == if |r'.pool| >= cfg.concurrency then Runner.AwaitingSlot else Runner.Discovering
  {
    hide Runner.Play, Smooth, WellListed, Runner.Next;
    events', r' := TakeEntry(cfg, events, r);
  }

  lemma AnotherOne(pool: set<Runner.Code>, hold: Runner.Code) returns (d: Runner.Code)
    requires |pool| >= 2
    ensures d in pool && d != hold
  {
    assert |pool - {hold}| >= 1 by {
      assert pool <= (pool - {hold}) + {hold};
      SubsetSize(pool, (pool - {hold}) + {hold});
    }
    d :| d in pool - {hold};
  }

  /** The walk over one more entry of the listing. */
  lemma PassEntry(cfg: Runner.Config, events: seq<Runner.Event>, r: Runner.State, n: nat, hold: Runner.Code)
    returns (events': seq<Runner.Event>, r': Runner.State)
    requires Runner.Play(cfg, events) == Some(r) && Smooth(events) && WellListed(cfg) && cfg.limit.None?
    requires cfg.concurrency >= 2 && HoldingAt(r, n, hold) && n < |cfg.listing|
    requires !cfg.listing[n].shouldFetch ==> cfg.listing[n].code != hold
    ensures Runner.Play(cfg, events') == Some(r') && Smooth(events') && HoldingAt(r', n + 1, hold)
    ensures hold in r'.tasks <==> hold in r.tasks || cfg.listing[n].code == hold
  {
    hide Runner.Play, Smooth, WellListed, Runner.Next;
    var code := cfg.listing[n].code;
    if !cfg.listing[n].shouldFetch {
      events', r' := PassSkipped(cfg, events, r, n, hold);
    } else {
      events', r' := TakeFetched(cfg, events, r, n, hold);
      var d := code;
      if code != hold {
        events', r' := FinishOne(cfg, events', r', code);
      } else if r'.phase.AwaitingSlot? {
        Runner.PlayInv(cfg, events');
        PoolKnown(cfg, r');
        d := AnotherOne(r'.pool, hold);
      }
      if r'.phase.AwaitingSlot? {
        events', r' := MakeRoom(cfg, events', r', hold, d);
      }
    }
  }

  /** The walk over the first `n` entries. */
  lemma {:induction false} WalkEntries(cfg: Runner.Config, n: nat, h: nat)
    returns (events: seq<Runner.Event>, r: Runner.State)
    requires WellListed(cfg) && cfg.limit.None? && cfg.concurrency >= 2 && n <= |cfg.listing|
    requires h < |cfg.listing| && cfg.listing[h].shouldFetch
    ensures Runner.Play(cfg, events) == Some(r) && Smooth(events) && HoldingAt(r, n, cfg.listing[h].code)
    ensures cfg.listing[h].code in r.tasks <==> h < n
  {
    var hold := cfg.listing[h].code;
    if n == 0 {
      assert Runner.Play(cfg, []) == Some(Runner.Initial(cfg));
      hide Runner.Play;
      events, r := RunStep(cfg, [], Runner.Initial(cfg), Runner.Prepare(true));
    } else {
      events, r := WalkEntries(cfg, n - 1, h);
      assert n - 1 != h ==> cfg.listing[n - 1].code != hold;
      hide Runner.Play, WellListed;
      events, r := PassEntry(cfg, events, r, n - 1, hold);
    }
  }

  /** The stream has ended with one fetched dataset outstanding. */
  ghost predicate Outstanding(cfg: Runner.Config, r: Runner.State, hold: Runner.Code) {
    && r.phase.Gathering? && r.listingComplete && r.discovered == |cfg.listing| && r.cancelling == {}
    && hold in r.tasks && r.tasks[hold].Created? && hold in r.pool && hold !in r.accepted
    && r.pool <= r.tasks.Keys
    && forall c :: c in r.tasks && c != hold ==> r.tasks[c].Finished?
  }

  lemma UnstartedIsPooled(cfg: Runner.Config, r: Runner.State, c: Runner.Code)
    requires Runner.Inv(cfg, r) && c in r.tasks && r.tasks[c].Created?
    ensures c in r.pool
  {
    hide Runner.Once, Runner.Bounded, Runner.Unwinding, Runner.Walked, Runner.Accounted;
  }

  lemma StreamEndsEarly(cfg: Runner.Config, h: nat) returns (events: seq<Runner.Event>, r: Runner.State)
    requires WellListed(cfg) && cfg.limit.None? && cfg.concurrency >= 2
    requires h < |cfg.listing| && cfg.listing[h].shouldFetch
    ensures Runner.Play(cfg, events) == Some(r) && Smooth(events) && Outstanding(cfg, r, cfg.listing[h].code)
  {
    events, r := WalkEntries(cfg, |cfg.listing|, h);
    Runner.PlayInv(cfg, events);
    UnstartedIsPooled(cfg, r, cfg.listing[h].code);
    PoolKnown(cfg, r);
    hide Runner.Play, Runner.Inv, WellListed;
    events, r := RunStep(cfg, events, r, Runner.StreamEnd);
  }

  function Undisturbed(r: Runner.State): State { State(Racing, Executing(r), Beating, Waiting, Waiting) }

  /** Every schedule of the run that has not left is one of the job, before anything else happened. */
  lemma Undisturbedly(cfg: Runner.Config, run: seq<Runner.Event>, r: Runner.State) returns (events: seq<Event>)
    requires Runner.Play(cfg, run) == Some(r) && Smooth(run) && !r.phase.Left? && Legal(cfg)
    ensures Play(cfg, events) == Some(Undisturbed(r))
  {
    hide Play, Runner.Play, Next, Runner.Next;
    var s;
    events, s := LoadsPages(cfg);
    assert [] + run == run;
    SmoothIsCalm(run);
    Lift(cfg, events, s, run, r);
    events := events + Execs(run);
  }

  /** Cancelled from there, the outstanding resolution unwinds with the run. */
  lemma CancelledUnwinds(cfg: Runner.Config, events: seq<Event>, s: State, hold: Runner.Code)
    returns (events': seq<Event>, s': State)
    requires Play(cfg, events) == Some(s) && s.main.Cleaning? && s.work.Executing?
    requires Outstanding(cfg, s.work.run, hold)
    ensures Play(cfg, events') == Some(s') && s' == s.(work := Executing(s'.work.run)) && s'.work.Executing?
    ensures var r, r' := s.work.run, s'.work.run;
            && r'.phase == Runner.Draining(Runner.Interrupted, false) && r'.pool == r.pool
            && r'.tasks == r.tasks[hold := Runner.Cancelled]
            && r'.listingComplete && r'.discovered == r.discovered && r'.accepted == r.accepted
  {
    hide Play;
    events', s' := JobStep(cfg, events, s, Exec(Runner.Interrupt(Runner.Interrupted)));
    events', s' := JobStep(cfg, events', s', Exec(Runner.Abort(hold, true)));
  }

  /** And then `execute` ends with the error of its cleanup. */
  lemma CleanupRaises(cfg: Runner.Config, events: seq<Event>, s: State, hold: Runner.Code)
    returns (events': seq<Event>, s': State)
    requires Play(cfg, events) == Some(s) && s.main.Cleaning? && s.work.Executing?
    requires Outstanding(cfg, s.work.run, hold)
    ensures Play(cfg, events') == Some(s')
    ensures s' == s.(work := s'.work) && s'.work.Ended? && s'.work.end.Failed?
    ensures s'.work.run.listingComplete && s'.work.run.discovered == |cfg.listing| && hold !in s'.work.run.accepted
  {
    hide Play;
    events', s' := CancelledUnwinds(cfg, events, s, hold);
    events', s' := JobStep(cfg, events', s', Exec(Runner.Drained));
    events', s' := JobStep(cfg, events', s', Exec(Runner.Close(false)));
  }

  lemma NotAccounted(cfg: Runner.Config, run: Runner.State, h: nat)
    requires h < |cfg.listing| && cfg.listing[h].code !in run.accepted
    ensures !AllAccounted(cfg, run)
  {
    assert cfg.listing[h] in cfg.listing;
  }

  /** The heartbeat asks to cancel while the work is healthy, and the job wakes up. */
  lemma AskedInGather(cfg: Runner.Config, events: seq<Event>, r: Runner.State)
    returns (events': seq<Event>, s: State)
    requires Play(cfg, events) == Some(Undisturbed(r))
    ensures Play(cfg, events') == Some(s) && s == State(Cleaning(None), Executing(r), Asked, Waiting, Waiting)
  {
    hide Play, Runner.Next;
    events', s := JobStep(cfg, events, Undisturbed(r), PulseEnds(Asked));
    events', s := JobStep(cfg, events', s, WakeUp);
  }

  /** The heartbeat asks to cancel in the final gather, and the cleanup of the cancelled work raises. */
  lemma FalseReportHappens(cfg: Runner.Config, h: nat) returns (events: seq<Event>)
    requires WellListed(cfg) && cfg.limit.None? && cfg.concurrency >= 2
    requires h < |cfg.listing| && cfg.listing[h].shouldFetch
    ensures Play(cfg, events).Some? && FalseReport(cfg, Play(cfg, events).value)
  {
    hide Play, Runner.Play, Smooth, Undisturbed, AllAccounted, WellListed;
    var early, r := StreamEndsEarly(cfg, h);
    var s: State;
    events := Undisturbedly(cfg, early, r);
    events, s := AskedInGather(cfg, events, r);
    events, s := CleanupRaises(cfg, events, s, cfg.listing[h].code);
    events, s := ReportIsSent(cfg, events, s, None);
    NotAccounted(cfg, s.work.run, h);
  }

  /**
   A false report is possible exactly if the catalog may ask to cancel a job whose run is unbounded,
   has two slots or more, and finds something to fetch in a listing in scope without duplicates.
   */
  lemma FalseReportPossible(cfg: Runner.Config, mayAsk: bool)
    ensures (exists events :: Play(cfg, events).Some? && (mayAsk || NeverAsked(events))
                              && FalseReport(cfg, Play(cfg, events).value))
        <==> mayAsk && cfg.limit.None? && cfg.concurrency >= 2 && WellListed(cfg) && FetchesSomething(cfg)
  {
    hide Play, FalseReport, WellListed, NeverAsked;
    forall events | Play(cfg, events).Some? && FalseReport(cfg, Play(cfg, events).value)
      ensures !NeverAsked(events) && cfg.limit.None? && cfg.concurrency >= 2 && WellListed(cfg) && FetchesSomething(cfg)
    {
      FalseReportNeeds(cfg, events);
    }
    if mayAsk && cfg.limit.None? && cfg.concurrency >= 2 && WellListed(cfg) && FetchesSomething(cfg) {
      var h :| 0 <= h < |cfg.listing| && cfg.listing[h].shouldFetch;
      var events := FalseReportHappens(cfg, h);
    }
  }
}
