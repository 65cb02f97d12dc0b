/**
 Which datasets a run fetches: the Kolada rule (kolada/adapter.py) and the timestamp rule of
 the other adapters (interface.py), and what they guarantee over a whole history of jobs.
 Instants are microseconds since the epoch, in UTC.
 */
module Selection {
  import opened Common
  import Runner
  import Returns
  import Job
  import Reports

  const DAY := 86_400_000_000
  const WINDOW_DAYS := 30
  const FIRST_FEED_YEAR := 2010

  datatype DatasetState = DatasetState(sourceUpdatedAt: Option<int>, lastFetchedAt: Option<int>, hasError: bool)

  datatype Context = Context(
    datasets: map<Runner.Code, DatasetState>, startedAt: int, previousComplete: Option<int>, force: bool)

  // ---- Timestamp selection --------------------------------------------------------------

  /** `select_by_timestamp`; `updated` is the listing's timestamp. */
  function SelectByTimestamp(ctx: Context, code: Runner.Code, updated: Option<int>): bool {
    || ctx.force
    || code !in ctx.datasets
    || (var state := ctx.datasets[code];
        || state.lastFetchedAt.None?
        || state.hasError
        || updated.None?
        || state.sourceUpdatedAt.None?
        || updated != state.sourceUpdatedAt)
  }

  // ---- Kolada selection -----------------------------------------------------------------

  datatype Kpi = Kpi(id: string, hasOu: bool)

  /** A change published by the source for one KPI, with the data year it concerns. */
  datatype Change = Change(kpi: string, ou: bool, year: int, at: int)

  function CodeOf(kpi: string, ou: bool): Runner.Code { if ou then kpi + "_OU" else kpi }

  /** Midnight UTC, thirty days before the day on which the run started. */
  function Cutoff(startedAt: int): int { (startedAt / DAY - WINDOW_DAYS) * DAY }

  function StaleBefore(startedAt: int): int { startedAt - WINDOW_DAYS * DAY }

  predicate Full(ctx: Context) {
    ctx.force || ctx.previousComplete.None? || ctx.previousComplete.value < Cutoff(ctx.startedAt)
  }

  /** The fetch decision; `changes` is what the change feed returned, empty in a full run. */
  predicate ShouldFetch(ctx: Context, kpi: string, ou: bool, changes: set<string>) {
    || Full(ctx)
    || CodeOf(kpi, ou) !in ctx.datasets
    || (var state := ctx.datasets[CodeOf(kpi, ou)];
        || state.lastFetchedAt.None?
        || state.lastFetchedAt.value < StaleBefore(ctx.startedAt)
        || state.hasError
        || kpi in changes)
  }

  /** The feed reports every change of its kind since the cutoff, for the years it is asked about. */
  ghost predicate FeedReports(ctx: Context, maxYear: int, ou: bool, log: set<Change>, changes: set<string>) {
    !Full(ctx) ==>
      forall c | c in log && c.ou == ou && FIRST_FEED_YEAR <= c.year <= maxYear
                 && Cutoff(ctx.startedAt) <= c.at < ctx.startedAt :: c.kpi in changes
  }

  /** Two runs meet a dataset alike: the same start, checkpoint and force, and the same stored state of it. */
  predicate MeetAlike(one: Context, two: Context, code: Runner.Code) {
    && one.startedAt == two.startedAt && one.previousComplete == two.previousComplete && one.force == two.force
    && (code in one.datasets <==> code in two.datasets)
    && (code in one.datasets ==> one.datasets[code] == two.datasets[code])
  }

  /** The decision for a dataset depends on nothing that concerns other datasets or other KPIs. */
  lemma DecisionIsLocal(one: Context, two: Context, kpi: string, ou: bool, feed: set<string>, other: set<string>)
    requires MeetAlike(one, two, CodeOf(kpi, ou)) && (kpi in feed <==> kpi in other)
    ensures ShouldFetch(one, kpi, ou, feed) <==> ShouldFetch(two, kpi, ou, other)
  {
  }

  lemma CutoffBeforeStale(startedAt: int)
    ensures Cutoff(startedAt) <= StaleBefore(startedAt)
  {
  }

  /** Every covered change since the previous complete run started is selected. */
  lemma SelectsSinceCheckpoint(ctx: Context, maxYear: int, log: set<Change>, changes: set<string>, c: Change)
    requires FeedReports(ctx, maxYear, c.ou, log, changes)
    requires c in log && FIRST_FEED_YEAR <= c.year <= maxYear && c.at < ctx.startedAt
    requires ctx.previousComplete.Some? ==> ctx.previousComplete.value <= c.at
    ensures ShouldFetch(ctx, c.kpi, c.ou, changes)
  {
  }

  /** The UTC day of an instant. */
  function Day(t: int): int { t / DAY }

  lemma DayStarts(t: int)
    ensures Day(t) * DAY <= t < (Day(t) + 1) * DAY
  {
  }

  /**
   A change published on the UTC day on which the stored document was acknowledged, or later, is
   selected whatever the checkpoint says: either it is young enough for the feed, or the document is
   already stale.
   */
  lemma SelectsSinceFetch(ctx: Context, maxYear: int, log: set<Change>, changes: set<string>, c: Change)
    requires FeedReports(ctx, maxYear, c.ou, log, changes)
    requires c in log && FIRST_FEED_YEAR <= c.year <= maxYear && c.at < ctx.startedAt
    requires CodeOf(c.kpi, c.ou) in ctx.datasets ==>
      var last := ctx.datasets[CodeOf(c.kpi, c.ou)].lastFetchedAt; last.Some? ==> Day(last.value) <= Day(c.at)
    ensures ShouldFetch(ctx, c.kpi, c.ou, changes)
  {
    CutoffBeforeStale(ctx.startedAt);
    DayStarts(c.at);
    if CodeOf(c.kpi, c.ou) in ctx.datasets && ctx.datasets[CodeOf(c.kpi, c.ou)].lastFetchedAt.Some? {
      DayStarts(ctx.datasets[CodeOf(c.kpi, c.ou)].lastFetchedAt.value);
      BeforeMidnight(c.at, ctx.startedAt / DAY - WINDOW_DAYS);
    }
  }

  /** An instant is before a midnight exactly when its day is. */
  lemma BeforeMidnight(t: int, day: int)
    ensures t < day * DAY <==> Day(t) < day
  {
  }

  /** The next run's decision about a stored dataset without error, the feed knowing one change at `at`. */
  predicate FetchedNext(kpi: string, ou: bool, last: int, at: int, startedAt: int, checkpoint: Option<int>,
                        force: bool) {
    ShouldFetch(
      Context(map[CodeOf(kpi, ou) := DatasetState(None, Some(last), false)], startedAt, checkpoint, force),
      kpi, ou, if Cutoff(startedAt) <= at < startedAt then {kpi} else {})
  }

  /**
   The window is exact: every later run fetches the dataset for a change at `at`, if and only if the
   change is not from an earlier UTC day than the last acknowledged fetch.
   */
  lemma FetchWindowExact(kpi: string, ou: bool, last: int, at: int)
    ensures (forall startedAt, checkpoint, force :: last <= startedAt && at < startedAt ==>
               FetchedNext(kpi, ou, last, at, startedAt, checkpoint, force))
        <==> Day(last) <= Day(at)
  {
    if Day(last) <= Day(at) {
      forall startedAt, checkpoint, force | last <= startedAt && at < startedAt
        ensures FetchedNext(kpi, ou, last, at, startedAt, checkpoint, force)
      {
        CutoffBeforeStale(startedAt);
        BeforeMidnight(at, startedAt / DAY - WINDOW_DAYS);
        BeforeMidnight(last, startedAt / DAY - WINDOW_DAYS);
      }
    } else {
      var startedAt := (Day(last) + WINDOW_DAYS) * DAY;
      DayStarts(last);
      BeforeMidnight(at, Day(last));
      assert Cutoff(startedAt) == Day(last) * DAY == StaleBefore(startedAt);
      assert !FetchedNext(kpi, ou, last, at, startedAt, Some(startedAt), false);
    }
  }

  /**
   Which runs can miss the change, and no others: those started more than thirty days after the change,
   counted in UTC days, and no more than thirty days after the acknowledgement.
   */
  lemma MissEnds(kpi: string, ou: bool, last: int, at: int, startedAt: int)
    requires last <= startedAt && at < startedAt
    ensures (forall checkpoint, force :: FetchedNext(kpi, ou, last, at, startedAt, checkpoint, force))
        <==> Day(startedAt) <= Day(at) + WINDOW_DAYS || last + WINDOW_DAYS * DAY < startedAt
  {
    BeforeMidnight(at, Day(startedAt) - WINDOW_DAYS);
    if Day(at) + WINDOW_DAYS < Day(startedAt) && startedAt <= last + WINDOW_DAYS * DAY {
      CutoffBeforeStale(startedAt);
      assert !FetchedNext(kpi, ou, last, at, startedAt, Some(startedAt), false);
    }
  }

  // ---- The listing of a run -------------------------------------------------------------

  function Select(scope: Runner.Scope, ctx: Context, kpi: string, ou: bool, changes: set<string>): Runner.Selection {
    Runner.Selection(scope, CodeOf(kpi, ou), ShouldFetch(ctx, kpi, ou, changes))
  }

  /** What `discover_datasets` yields: each KPI, followed by its unit dataset if it has one. */
  function Listing(scope: Runner.Scope, ctx: Context, kpis: seq<Kpi>, changed: set<string>, changedOu: set<string>)
    : seq<Runner.Selection>
  {
    if kpis == [] then []
    else
      Listing(scope, ctx, kpis[..|kpis| - 1], changed, changedOu)
      + [Select(scope, ctx, kpis[|kpis| - 1].id, false, changed)]
      + (if kpis[|kpis| - 1].hasOu then [Select(scope, ctx, kpis[|kpis| - 1].id, true, changedOu)] else [])
  }

  method DiscoverDatasets(scope: Runner.Scope, ctx: Context, kpis: seq<Kpi>, changed: set<string>,
                          changedOu: set<string>)
    returns (listing: seq<Runner.Selection>)
    ensures listing == Listing(scope, ctx, kpis, changed, changedOu)
  {
    listing := [];
    for i := 0 to |kpis|
      invariant listing == Listing(scope, ctx, kpis[..i], changed, changedOu)
    {
      assert kpis[..i + 1][..i] == kpis[..i];
      listing := listing + [Select(scope, ctx, kpis[i].id, false, changed)];
      if kpis[i].hasOu {
        listing := listing + [Select(scope, ctx, kpis[i].id, true, changedOu)];
      }
    }
    assert kpis[..|kpis|] == kpis;
  }

  /** How many KPIs have unit data. */
  function Units(kpis: seq<Kpi>): nat {
    if kpis == [] then 0 else Units(kpis[..|kpis| - 1]) + if kpis[|kpis| - 1].hasOu then 1 else 0
  }

  /** The KPI's entry stands at this place and, if it has unit data, that dataset's entry right behind. */
  predicate PlacedAt(l: seq<Runner.Selection>, at: nat, scope: Runner.Scope, ctx: Context, kpi: Kpi,
                     changed: set<string>, changedOu: set<string>) {
    && at < |l|
    && l[at] == Runner.Selection(scope, kpi.id, ShouldFetch(ctx, kpi.id, false, changed))
    && (kpi.hasOu ==>
          && at + 1 < |l|
          && l[at + 1] == Runner.Selection(scope, kpi.id + "_OU", ShouldFetch(ctx, kpi.id, true, changedOu)))
  }

  /**
   The listing holds nothing but, in the order of the KPIs, one entry for each and right behind it one for
   its unit dataset if and only if it has one.
   */
  lemma {:induction false} ListingExact(scope: Runner.Scope, ctx: Context, kpis: seq<Kpi>, changed: set<string>,
                                        changedOu: set<string>)
    ensures var l := Listing(scope, ctx, kpis, changed, changedOu);
      && |l| == |kpis| + Units(kpis)
      && forall i :: 0 <= i < |kpis| ==> PlacedAt(l, i + Units(kpis[..i]), scope, ctx, kpis[i], changed, changedOu)
  {
    hide PlacedAt, Listing, Units;
    if kpis == [] {
      ListingNone(scope, ctx, changed, changedOu);
    } else {
      ListingExact(scope, ctx, kpis[..|kpis| - 1], changed, changedOu);
      ListingLast(scope, ctx, kpis, changed, changedOu);
      PlacedAllStay(Listing(scope, ctx, kpis[..|kpis| - 1], changed, changedOu),
                    Listing(scope, ctx, kpis, changed, changedOu), scope, ctx, kpis[..|kpis| - 1], kpis,
                    changed, changedOu);
    }
  }

  lemma ListingNone(scope: Runner.Scope, ctx: Context, changed: set<string>, changedOu: set<string>)
    ensures Listing(scope, ctx, [], changed, changedOu) == [] && Units([]) == 0
  {
  }

  lemma PlacedAllStay(front: seq<Runner.Selection>, l: seq<Runner.Selection>, scope: Runner.Scope, ctx: Context,
                      before: seq<Kpi>, kpis: seq<Kpi>, changed: set<string>, changedOu: set<string>)
    requires before <= kpis && front <= l
    requires forall i :: 0 <= i < |before| ==>
               PlacedAt(front, i + Units(before[..i]), scope, ctx, before[i], changed, changedOu)
    ensures forall i :: 0 <= i < |before| ==>
              PlacedAt(l, i + Units(kpis[..i]), scope, ctx, kpis[i], changed, changedOu)
  {
    hide PlacedAt, Units;
    forall i | 0 <= i < |before|
      ensures PlacedAt(l, i + Units(kpis[..i]), scope, ctx, kpis[i], changed, changedOu)
    {
      assert before[i] == kpis[i] && before[..i] == kpis[..i];
      PlacedStays(front, l, i + Units(kpis[..i]), scope, ctx, kpis[i], changed, changedOu);
    }
  }

  lemma ListingLast(scope: Runner.Scope, ctx: Context, kpis: seq<Kpi>, changed: set<string>, changedOu: set<string>)
    requires kpis != []
    ensures var n := |kpis| - 1;
      var l, front := Listing(scope, ctx, kpis, changed, changedOu), Listing(scope, ctx, kpis[..n], changed, changedOu);
      && front <= l && |l| == |front| + 1 + (if kpis[n].hasOu then 1 else 0)
      && Units(kpis) == Units(kpis[..n]) + (if kpis[n].hasOu then 1 else 0)
      && PlacedAt(l, |front|, scope, ctx, kpis[n], changed, changedOu)
  {
    hide ShouldFetch;
  }

  lemma PlacedStays(front: seq<Runner.Selection>, l: seq<Runner.Selection>, at: nat, scope: Runner.Scope, ctx: Context,
                    kpi: Kpi, changed: set<string>, changedOu: set<string>)
    requires front <= l && PlacedAt(front, at, scope, ctx, kpi, changed, changedOu)
    ensures PlacedAt(l, at, scope, ctx, kpi, changed, changedOu)
  {
    hide ShouldFetch;
  }

  predicate Lists(kpis: seq<Kpi>, kpi: string, ou: bool) {
    exists k | k in kpis :: k.id == kpi && (ou ==> k.hasOu)
  }

  lemma {:induction false} Listed(scope: Runner.Scope, ctx: Context, kpis: seq<Kpi>, changed: set<string>,
                                  changedOu: set<string>, kpi: string, ou: bool)
    requires Lists(kpis, kpi, ou)
    ensures Select(scope, ctx, kpi, ou, if ou then changedOu else changed)
              in Listing(scope, ctx, kpis, changed, changedOu)
  {
    var last, front := kpis[|kpis| - 1], kpis[..|kpis| - 1];
    if !(last.id == kpi && (ou ==> last.hasOu)) {
      assert forall k :: k in kpis ==> k in front || k == last;
      Listed(scope, ctx, front, changed, changedOu, kpi, ou);
    }
  }

  // ---- Histories of jobs ------------------------------------------------------------------

  /** What the catalog stores for a dataset, and when the source was read for its document. */
  datatype Stored = Stored(readAt: int, state: DatasetState)

  datatype Store = Store(datasets: map<Runner.Code, Stored>, checkpoint: Option<int>, clock: int)

  /** One job: its input, what the feeds answered, its schedule, and the times that passed. */
  datatype Run = Run(
    startedAt: int, force: bool, maxYear: int, scope: Runner.Scope, kpis: seq<Kpi>,
    changed: set<string>, changedOu: set<string>,
    limit: Option<int>, concurrency: int, retries: nat,
    events: seq<Job.Event>,
    readAt: map<Runner.Code, int>, acceptedAt: map<Runner.Code, int>, endedAt: int)

  function ContextOf(store: Store, run: Run): Context {
    Context(map c | c in store.datasets :: store.datasets[c].state, run.startedAt, store.checkpoint, run.force)
  }

  function ConfigOf(store: Store, run: Run): Runner.Config {
    Runner.Config(run.scope, Listing(run.scope, ContextOf(store, run), run.kpis, run.changed, run.changedOu),
                  run.limit, run.concurrency, run.retries)
  }

  /** The job's schedule is possible, the feeds reported what they promise, and times are in order. */
  ghost predicate Possible(store: Store, run: Run, log: set<Change>) {
    && Job.Play(ConfigOf(store, run), run.events).Some?
    && FeedReports(ContextOf(store, run), run.maxYear, false, log, run.changed)
    && FeedReports(ContextOf(store, run), run.maxYear, true, log, run.changedOu)
    && store.clock <= run.startedAt <= run.endedAt
    && var accepted := Job.Play(ConfigOf(store, run), run.events).value.work.run.accepted;
       forall c :: c in accepted && accepted[c].Saved? ==>
         c in run.readAt && c in run.acceptedAt && run.startedAt <= run.readAt[c] <= run.acceptedAt[c] <= run.endedAt
  }

  /** The catalog moves its checkpoint on a complete report from a job it did not ask to cancel. */
  predicate Completes(final: Job.State) {
    final.main.Reported? && final.main.report.listingComplete && !final.pulse.Asked?
  }

  function Recorded(store: Store, run: Run, accepted: map<Runner.Code, Runner.Outcome>): map<Runner.Code, Stored>
    requires forall c :: c in accepted && accepted[c].Saved? ==> c in run.readAt && c in run.acceptedAt
  {
    map c | c in store.datasets.Keys + accepted.Keys && (c in store.datasets || !accepted[c].Skipped?) ::
      if c !in accepted || accepted[c].Skipped? then store.datasets[c]
      else if accepted[c].Saved? then Stored(run.readAt[c], DatasetState(None, Some(run.acceptedAt[c]), false))
      else if c in store.datasets then store.datasets[c].(state := store.datasets[c].state.(hasError := true))
      else Stored(run.startedAt, DatasetState(None, None, true))
  }

  ghost function After(store: Store, run: Run, log: set<Change>): Store
    requires Possible(store, run, log)
  {
    var final := Job.Play(ConfigOf(store, run), run.events).value;
    Store(Recorded(store, run, final.work.run.accepted),
          if Completes(final) then Some(run.startedAt) else store.checkpoint,
          run.endedAt)
  }

  ghost predicate Happens(store: Store, history: seq<Run>, log: set<Change>)
    decreases |history|
  {
    history != [] ==> Possible(store, history[0], log) && Happens(After(store, history[0], log), history[1..], log)
  }

  ghost function Final(store: Store, history: seq<Run>, log: set<Change>): Store
    requires Happens(store, history, log)
    decreases |history|
  {
    if history == [] then store else Final(After(store, history[0], log), history[1..], log)
  }

  ghost predicate IsComplete(store: Store, run: Run, log: set<Change>)
    requires Possible(store, run, log)
  {
    Completes(Job.Play(ConfigOf(store, run), run.events).value)
  }

  /** The dataset is in the source's catalogue, and its changes are in feed-covered years, in every complete run. */
  ghost predicate AlwaysListed(store: Store, history: seq<Run>, log: set<Change>, kpi: string, ou: bool,
                               years: set<int>)
    requires Happens(store, history, log)
    decreases |history|
  {
    history != [] ==>
      && (IsComplete(store, history[0], log) ==>
            Lists(history[0].kpis, kpi, ou) && forall y :: y in years ==> FIRST_FEED_YEAR <= y <= history[0].maxYear)
      && AlwaysListed(After(store, history[0], log), history[1..], log, kpi, ou, years)
  }

  /** The stored document is newer than every change before the checkpoint, or is due for a retry. */
  ghost predicate UpToDate(store: Store, log: set<Change>, kpi: string, ou: bool, years: set<int>) {
    store.checkpoint.Some? ==>
      && CodeOf(kpi, ou) in store.datasets
      && (var d := store.datasets[CodeOf(kpi, ou)];
          || d.state.hasError
          || (d.state.lastFetchedAt.Some?
              && forall c :: c in log && c.kpi == kpi && c.ou == ou && c.year in years && c.at < store.checkpoint.value
                   ==> c.at <= d.readAt))
  }

  ghost predicate Sensible(store: Store) {
    && (store.checkpoint.Some? ==> store.checkpoint.value <= store.clock)
    && (forall c :: c in store.datasets ==> store.datasets[c].readAt <= store.clock)
  }

  /** In a complete run that listed the dataset, it was skipped only if the rule allowed it. */
  lemma CompleteRunAccounts(store: Store, run: Run, log: set<Change>, kpi: string, ou: bool)
    requires Possible(store, run, log) && IsComplete(store, run, log) && Lists(run.kpis, kpi, ou)
    ensures var accepted := Job.Play(ConfigOf(store, run), run.events).value.work.run.accepted;
      && CodeOf(kpi, ou) in accepted
      && (accepted[CodeOf(kpi, ou)].Skipped? <==>
            !ShouldFetch(ContextOf(store, run), kpi, ou, if ou then run.changedOu else run.changed))
  {
    hide Job.Play, ShouldFetch, Runner.Codes, Runner.DistinctCodes, FeedReports;
    var cfg := ConfigOf(store, run);
    Job.CheckpointSound(cfg, run.events);
    Listed(run.scope, ContextOf(store, run), run.kpis, run.changed, run.changedOu, kpi, ou);
    var sel := Select(run.scope, ContextOf(store, run), kpi, ou, if ou then run.changedOu else run.changed);
    assert sel in cfg.listing;
  }

  /** What a skipped dataset missed before this run: nothing. */
  lemma SkipMissesNothing(store: Store, run: Run, log: set<Change>, kpi: string, ou: bool, years: set<int>)
    requires Possible(store, run, log) && UpToDate(store, log, kpi, ou, years)
    requires !ShouldFetch(ContextOf(store, run), kpi, ou, if ou then run.changedOu else run.changed)
    requires forall y :: y in years ==> FIRST_FEED_YEAR <= y <= run.maxYear
    ensures CodeOf(kpi, ou) in store.datasets
    ensures var d := store.datasets[CodeOf(kpi, ou)];
      && d.state.lastFetchedAt.Some? && !d.state.hasError
      && forall c :: c in log && c.kpi == kpi && c.ou == ou && c.year in years && c.at < run.startedAt ==>
          c.at <= d.readAt
  {
    hide Job.Play;
    var d := store.datasets[CodeOf(kpi, ou)];
    forall c | c in log && c.kpi == kpi && c.ou == ou && c.year in years && c.at < run.startedAt
      ensures c.at <= d.readAt
    {
      if store.checkpoint.Some? && c.at < store.checkpoint.value {
        assert c.at <= d.readAt;
      } else {
        SelectsSinceCheckpoint(ContextOf(store, run), run.maxYear, log, if ou then run.changedOu else run.changed, c);
      }
    }
  }

  lemma CompleteRunKeeps(store: Store, run: Run, log: set<Change>, kpi: string, ou: bool, years: set<int>)
    requires Possible(store, run, log) && UpToDate(store, log, kpi, ou, years)
    requires IsComplete(store, run, log) && Lists(run.kpis, kpi, ou)
    requires forall y :: y in years ==> FIRST_FEED_YEAR <= y <= run.maxYear
    ensures UpToDate(After(store, run, log), log, kpi, ou, years)
  {
    hide Job.Play, ShouldFetch, FeedReports;
    CompleteRunAccounts(store, run, log, kpi, ou);
    var code := CodeOf(kpi, ou);
    var accepted := Job.Play(ConfigOf(store, run), run.events).value.work.run.accepted;
    if accepted[code].Skipped? {
      SkipMissesNothing(store, run, log, kpi, ou, years);
    }
  }

  lemma PartialRunKeeps(store: Store, run: Run, log: set<Change>, kpi: string, ou: bool, years: set<int>)
    requires Possible(store, run, log) && UpToDate(store, log, kpi, ou, years) && Sensible(store)
    requires !IsComplete(store, run, log)
    ensures UpToDate(After(store, run, log), log, kpi, ou, years)
  {
    hide Job.Play, FeedReports;
  }

  lemma AfterSensible(store: Store, run: Run, log: set<Change>)
    requires Possible(store, run, log) && Sensible(store)
    ensures Sensible(After(store, run, log))
  {
    hide Job.Play, FeedReports;
  }

  lemma {:induction false} HistoryKeeps(store: Store, history: seq<Run>, log: set<Change>, kpi: string, ou: bool,
                                        years: set<int>)
    requires Happens(store, history, log) && AlwaysListed(store, history, log, kpi, ou, years)
    requires Sensible(store) && UpToDate(store, log, kpi, ou, years)
    ensures UpToDate(Final(store, history, log), log, kpi, ou, years)
    decreases |history|
  {
    if history != [] {
      hide UpToDate, Sensible, Possible, After;
      var run := history[0];
      if IsComplete(store, run, log) {
        CompleteRunKeeps(store, run, log, kpi, ou, years);
      } else {
        PartialRunKeeps(store, run, log, kpi, ou, years);
      }
      AfterSensible(store, run, log);
      HistoryKeeps(After(store, run, log), history[1..], log, kpi, ou, years);
    }
  }

  /**
   No change is ever lost. Start from a catalog without a checkpoint and let any history of
   jobs happen, each scheduled, bounded, interrupted or failing in any way. Every change to a
   listed dataset published before the resulting checkpoint is reflected in the stored
   document, unless the dataset is marked in error and so due for another fetch.
   */
  lemma NoLostChange(store: Store, history: seq<Run>, log: set<Change>, c: Change)
    requires store.checkpoint.None? && forall d :: d in store.datasets ==> store.datasets[d].readAt <= store.clock
    requires Happens(store, history, log) && AlwaysListed(store, history, log, c.kpi, c.ou, {c.year})
    requires c in log
    ensures var final := Final(store, history, log); var code := CodeOf(c.kpi, c.ou);
      final.checkpoint.Some? && c.at < final.checkpoint.value ==>
        code in final.datasets && (final.datasets[code].state.hasError || c.at <= final.datasets[code].readAt)
  {
    HistoryKeeps(store, history, log, c.kpi, c.ou, {c.year});
  }

  /** Only an unbounded job whose every listed dataset was acknowledged moves the checkpoint. */
  lemma CheckpointNeedsEverything(store: Store, run: Run, log: set<Change>)
    requires Possible(store, run, log) && After(store, run, log).checkpoint != store.checkpoint
    ensures run.limit.None?
    ensures Job.AllAccounted(ConfigOf(store, run), Job.Play(ConfigOf(store, run), run.events).value.work.run)
  {
    Job.CheckpointSound(ConfigOf(store, run), run.events);
  }

  function Everywhere(codes: set<Runner.Code>, at: int): map<Runner.Code, int> { map c | c in codes :: at }

  /** An unbounded job over a listing without duplicates can be complete, and then moves the checkpoint to its start. */
  lemma CompleteRunIsPossible(store: Store, draft: Run, log: set<Change>) returns (run: Run)
    requires draft.limit.None? && store.clock <= draft.startedAt
    requires Returns.WellListed(ConfigOf(store, draft))
    requires FeedReports(ContextOf(store, draft), draft.maxYear, false, log, draft.changed)
    requires FeedReports(ContextOf(store, draft), draft.maxYear, true, log, draft.changedOu)
    ensures run == draft.(events := run.events, readAt := run.readAt, acceptedAt := run.acceptedAt,
                          endedAt := draft.startedAt)
    ensures Possible(store, run, log) && IsComplete(store, run, log)
    ensures After(store, run, log).checkpoint == Some(draft.startedAt)
  {
    hide Job.Play, FeedReports, Returns.WellListed, Runner.Next;
    var events, s := Reports.SomeJobCompletes(ConfigOf(store, draft));
    AskedNever(ConfigOf(store, draft), events);
    var times := Everywhere(s.work.run.accepted.Keys, draft.startedAt);
    run := draft.(events := events, readAt := times, acceptedAt := times, endedAt := draft.startedAt);
    assert ConfigOf(store, run) == ConfigOf(store, draft);
    assert ContextOf(store, run) == ContextOf(store, draft);
  }

  lemma AskedNever(cfg: Runner.Config, events: seq<Job.Event>)
    requires Job.Play(cfg, events).Some? && Job.PulseEnds(Job.Asked) !in events
    ensures !Job.Play(cfg, events).value.pulse.Asked?
  {
    Reports.EndedByEvents(cfg, events);
  }

  /** The document reflects the change, is due for a retry, or was acknowledged on a later day than the change's. */
  ghost predicate Reflected(store: Store, c: Change) {
    CodeOf(c.kpi, c.ou) in store.datasets &&
    var d := store.datasets[CodeOf(c.kpi, c.ou)];
    d.state.hasError || c.at <= d.readAt
        || (d.state.lastFetchedAt.Some? && Day(c.at) < Day(d.state.lastFetchedAt.value))
  }

  lemma CompleteRunReflects(store: Store, run: Run, log: set<Change>, c: Change)
    requires Possible(store, run, log) && IsComplete(store, run, log) && Lists(run.kpis, c.kpi, c.ou)
    requires c in log && FIRST_FEED_YEAR <= c.year <= run.maxYear && c.at < run.startedAt
    ensures Reflected(After(store, run, log), c)
  {
    hide Job.Play, ShouldFetch, FeedReports, Day;
    CompleteRunAccounts(store, run, log, c.kpi, c.ou);
    var code := CodeOf(c.kpi, c.ou);
    var accepted := Job.Play(ConfigOf(store, run), run.events).value.work.run.accepted;
    if accepted[code].Skipped? {
      SkippedReflects(store, run, log, c);
    }
  }

  /** A skipped dataset is stored, and missed the change only across a midnight. */
  lemma SkippedReflects(store: Store, run: Run, log: set<Change>, c: Change)
    requires Possible(store, run, log)
    requires c in log && FIRST_FEED_YEAR <= c.year <= run.maxYear && c.at < run.startedAt
    requires !ShouldFetch(ContextOf(store, run), c.kpi, c.ou, if c.ou then run.changedOu else run.changed)
    ensures Reflected(store, c)
  {
    hide Job.Play, Day;
    var ctx, changes := ContextOf(store, run), if c.ou then run.changedOu else run.changed;
    if Day(store.datasets[CodeOf(c.kpi, c.ou)].state.lastFetchedAt.value) <= Day(c.at) {
      SelectsSinceFetch(ctx, run.maxYear, log, changes, c);
    }
  }

  lemma PartialRunReflects(store: Store, run: Run, log: set<Change>, c: Change)
    requires Possible(store, run, log) && Reflected(store, c) && c.at < store.clock
    ensures Reflected(After(store, run, log), c)
  {
    hide Job.Play, FeedReports, Day;
  }

  lemma {:induction false} LaterRunsReflect(store: Store, history: seq<Run>, log: set<Change>, c: Change)
    requires Happens(store, history, log) && Reflected(store, c) && c.at < store.clock
    ensures Reflected(Final(store, history, log), c)
    decreases |history|
  {
    if history != [] {
      hide Reflected, Possible;
      PartialRunReflects(store, history[0], log, c);
      LaterRunsReflect(After(store, history[0], log), history[1..], log, c);
    }
  }

  /**
   What one complete run alone guarantees, whatever happened before it and whatever jobs follow it:
   every change to a dataset it lists, published before it started in a year it covers, is reflected
   in the stored document, unless the dataset is marked in error or the document was acknowledged on
   a later UTC day than the change.
   */
  lemma LostOnlyAcrossMidnight(store: Store, run: Run, history: seq<Run>, log: set<Change>, c: Change)
    requires Possible(store, run, log) && IsComplete(store, run, log) && Lists(run.kpis, c.kpi, c.ou)
    requires c in log && FIRST_FEED_YEAR <= c.year <= run.maxYear && c.at < run.startedAt
    requires Happens(After(store, run, log), history, log)
    ensures Reflected(Final(After(store, run, log), history, log), c)
  {
    CompleteRunReflects(store, run, log, c);
    hide Reflected;
    assert c.at < After(store, run, log).clock;
    LaterRunsReflect(After(store, run, log), history, log, c);
  }

  // ---- What staleness repairs -------------------------------------------------------------------

  /** After a complete run every listed dataset is in error or was acknowledged within the last thirty days. */
  lemma CompleteRunIsFresh(store: Store, run: Run, log: set<Change>, kpi: string, ou: bool)
    requires Possible(store, run, log) && IsComplete(store, run, log) && Lists(run.kpis, kpi, ou)
    ensures CodeOf(kpi, ou) in After(store, run, log).datasets
    ensures var state := After(store, run, log).datasets[CodeOf(kpi, ou)].state;
      state.hasError || (state.lastFetchedAt.Some? && StaleBefore(run.startedAt) <= state.lastFetchedAt.value)
  {
    hide Job.Play, FeedReports, Cutoff;
    CompleteRunAccounts(store, run, log, kpi, ou);
  }

  /** No stored document was read longer than `latency` before it was acknowledged. */
  ghost predicate ReadWithin(store: Store, latency: nat) {
    forall d :: d in store.datasets ==>
      var stored := store.datasets[d];
      stored.state.lastFetchedAt.Some? ==> stored.state.lastFetchedAt.value - latency <= stored.readAt
  }

  predicate Brief(history: seq<Run>, latency: nat) {
    forall i :: 0 <= i < |history| ==> history[i].endedAt <= history[i].startedAt + latency
  }

  lemma AfterReadWithin(store: Store, run: Run, log: set<Change>, latency: nat)
    requires Possible(store, run, log) && ReadWithin(store, latency) && run.endedAt <= run.startedAt + latency
    ensures ReadWithin(After(store, run, log), latency)
  {
    hide Job.Play, FeedReports;
  }

  lemma {:induction false} HistoryReadWithin(store: Store, history: seq<Run>, log: set<Change>, latency: nat)
    requires Happens(store, history, log) && ReadWithin(store, latency) && Brief(history, latency)
    ensures ReadWithin(Final(store, history, log), latency)
    decreases |history|
  {
    if history != [] {
      hide ReadWithin, Possible;
      AfterReadWithin(store, history[0], log, latency);
      HistoryReadWithin(After(store, history[0], log), history[1..], log, latency);
    }
  }

  /** The document shows the source as it was at `at` or later, or is due for a retry. */
  ghost predicate ShowsSince(store: Store, code: Runner.Code, at: int) {
    code in store.datasets && (store.datasets[code].state.hasError || at <= store.datasets[code].readAt)
  }

  lemma CompleteRunShows(store: Store, run: Run, log: set<Change>, kpi: string, ou: bool, latency: nat, at: int)
    requires Possible(store, run, log) && IsComplete(store, run, log) && Lists(run.kpis, kpi, ou)
    requires ReadWithin(store, latency) && at + WINDOW_DAYS * DAY + latency <= run.startedAt
    ensures ShowsSince(After(store, run, log), CodeOf(kpi, ou), at)
  {
    CompleteRunIsFresh(store, run, log, kpi, ou);
    hide Job.Play, FeedReports;
  }

  lemma AnyRunShows(store: Store, run: Run, log: set<Change>, code: Runner.Code, at: int)
    requires Possible(store, run, log) && ShowsSince(store, code, at) && at < store.clock
    ensures ShowsSince(After(store, run, log), code, at)
  {
    hide Job.Play, FeedReports;
  }

  lemma {:induction false} LaterRunsShow(store: Store, history: seq<Run>, log: set<Change>, code: Runner.Code, at: int)
    requires Happens(store, history, log) && ShowsSince(store, code, at) && at < store.clock
    ensures ShowsSince(Final(store, history, log), code, at)
    decreases |history|
  {
    if history != [] {
      hide ShowsSince, Possible;
      AnyRunShows(store, history[0], log, code, at);
      LaterRunsShow(After(store, history[0], log), history[1..], log, code, at);
    }
  }

  /**
   Nothing stays missed. Let any jobs happen, none longer than `latency`, then a complete one that lists
   the dataset, then any others. Its document shows everything the source published up to thirty days and
   `latency` before the complete run started, or the dataset is marked in error: whether or not it was
   listed before and in whatever years the changes were. With an empty `log` nothing is asked of the feed.
   */
  lemma NothingStaysMissed(store: Store, earlier: seq<Run>, run: Run, later: seq<Run>, log: set<Change>,
                           kpi: string, ou: bool, latency: nat, at: int)
    requires ReadWithin(store, latency) && Brief(earlier, latency) && Happens(store, earlier, log)
    requires var before := Final(store, earlier, log);
      && Possible(before, run, log) && IsComplete(before, run, log) && Lists(run.kpis, kpi, ou)
      && Happens(After(before, run, log), later, log)
    requires at + WINDOW_DAYS * DAY + latency <= run.startedAt
    ensures ShowsSince(Final(After(Final(store, earlier, log), run, log), later, log), CodeOf(kpi, ou), at)
  {
    var before := Final(store, earlier, log);
    HistoryReadWithin(store, earlier, log, latency);
    CompleteRunShows(before, run, log, kpi, ou, latency, at);
    hide ShowsSince, ReadWithin;
    assert at < After(before, run, log).clock;
    LaterRunsShow(After(before, run, log), later, log, CodeOf(kpi, ou), at);
  }

  // ---- When a dataset is skipped, by what happened to it ----------------------------------------

  /** What run `j` of the history had acknowledged for a dataset, if anything. */
  ghost function OutcomeIn(store: Store, history: seq<Run>, log: set<Change>, j: nat, code: Runner.Code)
    : Option<Runner.Outcome>
    requires Happens(store, history, log) && j < |history|
    decreases |history|
  {
    if j > 0 then OutcomeIn(After(store, history[0], log), history[1..], log, j - 1, code)
    else
      var accepted := Job.Play(ConfigOf(store, history[0]), history[0].events).value.work.run.accepted;
      if code in accepted then Some(accepted[code]) else None
  }

  ghost predicate CompleteIn(store: Store, history: seq<Run>, log: set<Change>, j: nat)
    requires Happens(store, history, log) && j < |history|
    decreases |history|
  {
    if j > 0 then CompleteIn(After(store, history[0], log), history[1..], log, j - 1)
    else IsComplete(store, history[0], log)
  }

  ghost predicate SavedIn(store: Store, history: seq<Run>, log: set<Change>, j: nat, code: Runner.Code)
    requires Happens(store, history, log)
  {
    j < |history| && OutcomeIn(store, history, log, j, code) == Some(Runner.Saved)
  }

  ghost predicate FailedIn(store: Store, history: seq<Run>, log: set<Change>, j: nat, code: Runner.Code)
    requires Happens(store, history, log)
  {
    j < |history| && OutcomeIn(store, history, log, j, code) == Some(Runner.Failed)
  }

  /** Run `j` is the last one that saved the dataset. */
  ghost predicate LastSaved(store: Store, history: seq<Run>, log: set<Change>, j: nat, code: Runner.Code)
    requires Happens(store, history, log)
  {
    SavedIn(store, history, log, j, code)
    && forall i :: j < i < |history| ==> !SavedIn(store, history, log, i, code)
  }

  ghost predicate FailedSince(store: Store, history: seq<Run>, log: set<Change>, j: int, code: Runner.Code)
    requires Happens(store, history, log)
  {
    exists i: nat :: j < i < |history| && FailedIn(store, history, log, i, code)
  }

  /** Run `j` is the last complete one. */
  ghost predicate LastComplete(store: Store, history: seq<Run>, log: set<Change>, j: nat)
    requires Happens(store, history, log)
  {
    && j < |history| && CompleteIn(store, history, log, j)
    && forall i :: j < i < |history| ==> !CompleteIn(store, history, log, i)
  }

  function FetchedAt(store: Store, code: Runner.Code): Option<int> {
    if code in store.datasets then store.datasets[code].state.lastFetchedAt else None
  }

  predicate Errored(store: Store, code: Runner.Code) { code in store.datasets && store.datasets[code].state.hasError }

  /** One run, by its outcome for the dataset. */
  lemma AfterRun(store: Store, run: Run, log: set<Change>, code: Runner.Code)
    requires Possible(store, run, log)
    ensures var accepted := Job.Play(ConfigOf(store, run), run.events).value.work.run.accepted;
      var after := After(store, run, log);
      if code in accepted && accepted[code].Saved?
      then code in run.acceptedAt && FetchedAt(after, code) == Some(run.acceptedAt[code]) && !Errored(after, code)
      else FetchedAt(after, code) == FetchedAt(store, code)
           && (Errored(after, code) <==> Errored(store, code) || (code in accepted && accepted[code].Failed?))
  {
    hide Job.Play, FeedReports;
  }

  lemma LaterOutcome(store: Store, history: seq<Run>, log: set<Change>, i: nat, code: Runner.Code)
    requires Happens(store, history, log) && history != []
    ensures Happens(After(store, history[0], log), history[1..], log)
    ensures SavedIn(store, history, log, i + 1, code)
        <==> SavedIn(After(store, history[0], log), history[1..], log, i, code)
    ensures FailedIn(store, history, log, i + 1, code)
        <==> FailedIn(After(store, history[0], log), history[1..], log, i, code)
  {
  }

  /** Runs that do not save a dataset leave its acknowledgement, and mark it exactly if one fails on it. */
  lemma {:induction false} Unsaved(store: Store, history: seq<Run>, log: set<Change>, code: Runner.Code)
    requires Happens(store, history, log) && forall i :: 0 <= i < |history| ==> !SavedIn(store, history, log, i, code)
    ensures FetchedAt(Final(store, history, log), code) == FetchedAt(store, code)
    ensures Errored(Final(store, history, log), code)
        <==> Errored(store, code) || FailedSince(store, history, log, -1, code)
    decreases |history|
  {
    if history != [] {
      var after, rest := After(store, history[0], log), history[1..];
      assert !SavedIn(store, history, log, 0, code);
      AfterRun(store, history[0], log, code);
      hide Possible, After, Errored, FetchedAt;
      forall i | 0 <= i < |rest| ensures !SavedIn(after, rest, log, i, code) {
        LaterOutcome(store, history, log, i, code);
        assert !SavedIn(store, history, log, i + 1, code);
      }
      Unsaved(after, rest, log, code);
      FailedFirstOrLater(store, history, log, -1, code);
    }
  }

  lemma FailedFirstOrLater(store: Store, history: seq<Run>, log: set<Change>, j: int, code: Runner.Code)
    requires Happens(store, history, log) && history != [] && j >= -1
    ensures Happens(After(store, history[0], log), history[1..], log)
    ensures FailedSince(store, history, log, j, code)
        <==> (j < 0 && FailedIn(store, history, log, 0, code))
             || FailedSince(After(store, history[0], log), history[1..], log, Max(-1, j - 1), code)
  {
    var after, rest := After(store, history[0], log), history[1..];
    hide FailedIn, After;
    if FailedSince(store, history, log, j, code) {
      var i: nat :| j < i < |history| && FailedIn(store, history, log, i, code);
      if i > 0 {
        LaterOutcome(store, history, log, i - 1, code);
        assert FailedIn(after, rest, log, i - 1, code);
      }
    }
    if FailedSince(after, rest, log, Max(-1, j - 1), code) {
      var i: nat :| Max(-1, j - 1) < i < |rest| && FailedIn(after, rest, log, i, code);
      LaterOutcome(store, history, log, i, code);
      assert FailedIn(store, history, log, i + 1, code);
    }
  }

  /** The catalog keeps the acknowledgement of the last save, and an error mark exactly after a later failure. */
  lemma {:induction false} RemembersLastSaved(store: Store, history: seq<Run>, log: set<Change>, j: nat,
                                              code: Runner.Code)
    requires Happens(store, history, log) && LastSaved(store, history, log, j, code)
    ensures code in history[j].acceptedAt
    ensures FetchedAt(Final(store, history, log), code) == Some(history[j].acceptedAt[code])
    ensures Errored(Final(store, history, log), code) <==> FailedSince(store, history, log, j, code)
    decreases |history|
  {
    var after, rest := After(store, history[0], log), history[1..];
    AfterRun(store, history[0], log, code);
    FailedFirstOrLater(store, history, log, j, code);
    LastSavedLater(store, history, log, j, code);
    if j == 0 {
      assert OutcomeIn(store, history, log, 0, code) == Some(Runner.Saved);
    }
    hide Possible, After, Errored, FetchedAt, LastSaved, FailedSince;
    if j == 0 {
      Unsaved(after, rest, log, code);
    } else {
      RemembersLastSaved(after, rest, log, j - 1, code);
    }
  }

  lemma LastSavedLater(store: Store, history: seq<Run>, log: set<Change>, j: nat, code: Runner.Code)
    requires Happens(store, history, log) && LastSaved(store, history, log, j, code)
    ensures Happens(After(store, history[0], log), history[1..], log)
    ensures j > 0 ==> LastSaved(After(store, history[0], log), history[1..], log, j - 1, code)
    ensures j == 0 ==> forall i :: 0 <= i < |history| - 1 ==>
              !SavedIn(After(store, history[0], log), history[1..], log, i, code)
  {
    hide After, SavedIn;
    forall i | 0 <= i < |history| - 1
      ensures SavedIn(store, history, log, i + 1, code)
          <==> SavedIn(After(store, history[0], log), history[1..], log, i, code)
    {
      LaterOutcome(store, history, log, i, code);
    }
    LatestKnown(store, history, log, j, code);
    assert j > 0 ==> SavedIn(store, history, log, j - 1 + 1, code);
  }

  lemma LatestKnown(store: Store, history: seq<Run>, log: set<Change>, j: nat, code: Runner.Code)
    requires Happens(store, history, log) && LastSaved(store, history, log, j, code)
    ensures j < |history| && SavedIn(store, history, log, j, code)
    ensures forall i :: j < i < |history| ==> !SavedIn(store, history, log, i, code)
  {
    hide OutcomeIn;
  }

  /** The checkpoint is the start of the last complete run. */
  lemma {:induction false} CheckpointIsLastComplete(store: Store, history: seq<Run>, log: set<Change>)
    requires Happens(store, history, log)
    ensures (forall j :: 0 <= j < |history| ==> !CompleteIn(store, history, log, j)) ==>
              Final(store, history, log).checkpoint == store.checkpoint
    ensures forall j :: 0 <= j < |history| && LastComplete(store, history, log, j) ==>
              Final(store, history, log).checkpoint == Some(history[j].startedAt)
    decreases |history|
  {
    if history != [] {
      var after, rest := After(store, history[0], log), history[1..];
      assert after.checkpoint ==
        if CompleteIn(store, history, log, 0) then Some(history[0].startedAt) else store.checkpoint;
      hide Possible, After;
      CheckpointIsLastComplete(after, rest, log);
      assert forall i: nat :: i < |rest| ==>
               (CompleteIn(store, history, log, i + 1) <==> CompleteIn(after, rest, log, i));
      forall j | 0 <= j < |history| && LastComplete(store, history, log, j)
        ensures Final(store, history, log).checkpoint == Some(history[j].startedAt)
      {
        if j > 0 {
          assert LastComplete(after, rest, log, j - 1);
        } else {
          assert forall i: nat :: i < |rest| ==> !CompleteIn(after, rest, log, i);
        }
      }
    }
  }

  /** It was last saved by run `j`, recently, and no run has failed on it since. */
  ghost predicate FreshFrom(store: Store, history: seq<Run>, log: set<Change>, j: nat, code: Runner.Code,
                            startedAt: int)
    requires Happens(store, history, log)
  {
    && LastSaved(store, history, log, j, code) && !FailedSince(store, history, log, j, code)
    && code in history[j].acceptedAt && startedAt - 30 * 86_400_000_000 <= history[j].acceptedAt[code]
  }

  /** Run `j` was the last complete one, and began no earlier than thirty UTC days before this day. */
  ghost predicate ListedFrom(store: Store, history: seq<Run>, log: set<Change>, j: nat, startedAt: int)
    requires Happens(store, history, log)
  {
    && LastComplete(store, history, log, j)
    && startedAt / 86_400_000_000 - 30 <= history[j].startedAt / 86_400_000_000
  }

  /**
   Which datasets the next run skips, in terms of what happened, starting from an empty catalog: those
   saved within the last thirty days with no failure since, which the feed does not report, provided that
   the run is not forced and the last complete run began within thirty UTC days.
   */
  lemma SkippedExactly(store: Store, history: seq<Run>, log: set<Change>, run: Run, kpi: string, ou: bool,
                       feed: set<string>)
    requires store.datasets == map[] && store.checkpoint.None? && Happens(store, history, log)
    ensures !ShouldFetch(ContextOf(Final(store, history, log), run), kpi, ou, feed)
        <==> && !run.force && kpi !in feed
             && (exists i :: 0 <= i < |history| && ListedFrom(store, history, log, i, run.startedAt))
             && (exists j :: 0 <= j < |history| && FreshFrom(store, history, log, j, CodeOf(kpi, ou), run.startedAt))
  {
    var final := Final(store, history, log);
    CheckpointKnown(store, history, log, run.startedAt);
    SaveKnown(store, history, log, CodeOf(kpi, ou), run.startedAt);
    hide Final, LastSaved, LastComplete, FailedSince;
  }

  lemma CheckpointKnown(store: Store, history: seq<Run>, log: set<Change>, startedAt: int)
    requires store.checkpoint.None? && Happens(store, history, log)
    ensures var checkpoint := Final(store, history, log).checkpoint;
      checkpoint.Some? && Cutoff(startedAt) <= checkpoint.value
      <==> exists i :: 0 <= i < |history| && ListedFrom(store, history, log, i, startedAt)
  {
    CheckpointIsLastComplete(store, history, log);
    var n := LatestComplete(store, history, log);
    hide Final, CompleteIn, Happens;
    if n >= 0 {
      BeforeMidnight(history[n].startedAt, startedAt / DAY - WINDOW_DAYS);
      assert Cutoff(startedAt) <= history[n].startedAt <==> ListedFrom(store, history, log, n, startedAt);
    }
    forall i | 0 <= i < |history| && ListedFrom(store, history, log, i, startedAt) ensures i == n {
      assert CompleteIn(store, history, log, i);
    }
  }

  lemma SaveKnown(store: Store, history: seq<Run>, log: set<Change>, code: Runner.Code, startedAt: int)
    requires store.datasets == map[] && Happens(store, history, log)
    ensures var final := Final(store, history, log);
      code in final.datasets && final.datasets[code].state.lastFetchedAt.Some?
      && StaleBefore(startedAt) <= final.datasets[code].state.lastFetchedAt.value
      && !final.datasets[code].state.hasError
      <==> exists j :: 0 <= j < |history| && FreshFrom(store, history, log, j, code, startedAt)
  {
    var n := LatestSave(store, history, log, code);
    if n < 0 {
      Unsaved(store, history, log, code);
    } else {
      RemembersLastSaved(store, history, log, n, code);
    }
    hide Final, SavedIn, FailedSince, Happens;
    if n >= 0 {
      assert FreshFrom(store, history, log, n, code, startedAt) <==>
               !Errored(Final(store, history, log), code) && StaleBefore(startedAt) <= history[n].acceptedAt[code];
    }
    forall j | 0 <= j < |history| && FreshFrom(store, history, log, j, code, startedAt) ensures j == n {
      assert SavedIn(store, history, log, j, code);
    }
  }

  lemma LatestSave(store: Store, history: seq<Run>, log: set<Change>, code: Runner.Code) returns (n: int)
    requires Happens(store, history, log)
    ensures -1 <= n < |history| && (n >= 0 ==> LastSaved(store, history, log, n, code))
    ensures n < 0 ==> forall i :: 0 <= i < |history| ==> !SavedIn(store, history, log, i, code)
  {
    hide Happens, SavedIn;
    n := |history| - 1;
    while n >= 0 && !SavedIn(store, history, log, n, code)
      invariant -1 <= n < |history|
      invariant forall i :: n < i < |history| ==> !SavedIn(store, history, log, i, code)
    {
      n := n - 1;
    }
  }

  lemma LatestComplete(store: Store, history: seq<Run>, log: set<Change>) returns (n: int)
    requires Happens(store, history, log)
    ensures -1 <= n < |history| && (n >= 0 ==> LastComplete(store, history, log, n))
    ensures n < 0 ==> forall i :: 0 <= i < |history| ==> !CompleteIn(store, history, log, i)
  {
    hide Happens, CompleteIn;
    n := |history| - 1;
    while n >= 0 && !CompleteIn(store, history, log, n)
      invariant -1 <= n < |history|
      invariant forall i :: n < i < |history| ==> !CompleteIn(store, history, log, i)
    {
      n := n - 1;
    }
  }
}
