/**
 The adapters that select by listing timestamps (`select_by_timestamp` in providers/interface.py),
 over whole histories of jobs: what the catalog remembers of a dataset, and hence which datasets the
 next run fetches. Each listing offers a code together with the timestamp it shows, if any.
 */
module Timestamps {
  import opened Common
  import Runner
  import Job
  import Selection

  datatype Offer = Offer(code: Runner.Code, updated: Option<int>)

  type Store = map<Runner.Code, Selection.DatasetState>

  /** One job: its input, the listing it meets, its schedule, and when its documents were accepted. */
  datatype Run = Run(
    startedAt: int, checkpoint: Option<int>, force: bool, scope: Runner.Scope, offers: seq<Offer>,
    limit: Option<int>, concurrency: int, retries: nat,
    events: seq<Job.Event>, acceptedAt: Runner.Code -> int)

  function ContextOf(store: Store, run: Run): Selection.Context {
    Selection.Context(store, run.startedAt, run.checkpoint, run.force)
  }

  function Selected(store: Store, run: Run, offer: Offer): Runner.Selection {
    Runner.Selection(run.scope, offer.code,
                     Selection.SelectByTimestamp(ContextOf(store, run), offer.code, offer.updated))
  }

  function Listing(store: Store, run: Run): (listing: seq<Runner.Selection>)
    ensures |listing| == |run.offers|
    ensures forall i :: 0 <= i < |listing| ==> listing[i] == Selected(store, run, run.offers[i])
  {
    seq(|run.offers|, i requires 0 <= i < |run.offers| => Selected(store, run, run.offers[i]))
  }

  function ConfigOf(store: Store, run: Run): Runner.Config {
    Runner.Config(run.scope, Listing(store, run), run.limit, run.concurrency, run.retries)
  }

  predicate Possible(store: Store, run: Run) { Job.Play(ConfigOf(store, run), run.events).Some? }

  /** What the catalog acknowledged in this run. */
  function Accepted(store: Store, run: Run): map<Runner.Code, Runner.Outcome>
    requires Possible(store, run)
  {
    Job.Play(ConfigOf(store, run), run.events).value.work.run.accepted
  }

  /** The timestamp sent along with a dataset: the one under which the listing first shows it. */
  function Stamp(offers: seq<Offer>, code: Runner.Code): Option<int> {
    if offers == [] then None
    else if offers[0].code == code then offers[0].updated
    else Stamp(offers[1..], code)
  }

  /** A saved document brings its timestamp, a failure only marks the dataset, a skip changes nothing. */
  function Recorded(store: Store, run: Run): Store
    requires Possible(store, run)
  {
    var accepted := Accepted(store, run);
    map c | c in store.Keys + accepted.Keys && (c in store || !accepted[c].Skipped?) ::
      if c !in accepted || accepted[c].Skipped? then store[c]
      else if accepted[c].Saved? then Selection.DatasetState(Stamp(run.offers, c), Some(run.acceptedAt(c)), false)
      else if c in store then store[c].(hasError := true)
      else Selection.DatasetState(None, None, true)
  }

  /** The runs happened one after the other, from an empty catalog. */
  predicate Happens(history: seq<Run>)
    decreases |history|, 0
  {
    history != [] ==>
      && Happens(history[..|history| - 1])
      && Possible(After(history[..|history| - 1]), history[|history| - 1])
  }

  function After(history: seq<Run>): Store
    requires Happens(history)
    decreases |history|, 1
  {
    if history == [] then map[]
    else Recorded(After(history[..|history| - 1]), history[|history| - 1])
  }

  lemma {:induction false} HappensBefore(history: seq<Run>, n: nat)
    requires Happens(history) && n <= |history|
    ensures Happens(history[..n])
  {
    if n == |history| {
      assert history[..n] == history;
    } else {
      assert history[..|history| - 1][..n] == history[..n];
      HappensBefore(history[..|history| - 1], n);
    }
  }

  /** What run `j` of the history had acknowledged for a dataset, if anything. */
  ghost function OutcomeIn(history: seq<Run>, j: nat, code: Runner.Code): Option<Runner.Outcome>
    requires Happens(history) && j < |history|
  {
    HappensBefore(history, j + 1);
    var before, run := history[..j], history[j];
    assert history[..j + 1][..j] == before && history[..j + 1][j] == run;
    var accepted := Accepted(After(before), run);
    if code in accepted then Some(accepted[code]) else None
  }

  lemma OutcomeEarlier(history: seq<Run>, j: nat, code: Runner.Code)
    requires Happens(history) && j < |history| - 1
    ensures Happens(history[..|history| - 1])
    ensures OutcomeIn(history[..|history| - 1], j, code) == OutcomeIn(history, j, code)
  {
    assert history[..|history| - 1][..j] == history[..j];
  }

  ghost predicate SavedIn(history: seq<Run>, j: nat, code: Runner.Code)
    requires Happens(history)
  {
    j < |history| && OutcomeIn(history, j, code) == Some(Runner.Saved)
  }

  ghost predicate FailedIn(history: seq<Run>, j: nat, code: Runner.Code)
    requires Happens(history)
  {
    j < |history| && OutcomeIn(history, j, code) == Some(Runner.Failed)
  }

  /** Run `j` is the last one that saved the dataset. */
  ghost predicate LastSaved(history: seq<Run>, j: nat, code: Runner.Code)
    requires Happens(history)
  {
    SavedIn(history, j, code) && forall i :: j < i < |history| ==> !SavedIn(history, i, code)
  }

  ghost predicate FailedSince(history: seq<Run>, j: nat, code: Runner.Code)
    requires Happens(history)
  {
    exists i :: j < i < |history| && FailedIn(history, i, code)
  }

  lemma LastStep(history: seq<Run>, code: Runner.Code)
    requires Happens(history) && history != []
    ensures var before := history[..|history| - 1]; var store := After(before);
            var outcome := OutcomeIn(history, |history| - 1, code);
            var after := After(history);
            && Happens(before)
            && (outcome.None? || outcome.value.Skipped? ==>
                  (code in after <==> code in store) && (code in store ==> after[code] == store[code]))
            && (outcome == Some(Runner.Saved) ==>
                  code in after && !after[code].hasError && after[code].lastFetchedAt.Some?
                  && after[code].sourceUpdatedAt == Stamp(history[|history| - 1].offers, code))
            && (outcome == Some(Runner.Failed) ==>
                  code in after && after[code].hasError
                  && after[code].lastFetchedAt == (if code in store then store[code].lastFetchedAt else None)
                  && after[code].sourceUpdatedAt == (if code in store then store[code].sourceUpdatedAt else None))
  {
    hide Job.Play;
    var n := |history| - 1;
    assert history[..n + 1] == history;
  }

  /** A dataset that no run has saved has never been fetched as far as the catalog knows. */
  lemma {:induction false} NeverSaved(history: seq<Run>, code: Runner.Code)
    requires Happens(history) && forall j :: 0 <= j < |history| ==> !SavedIn(history, j, code)
    ensures code in After(history) ==> After(history)[code].lastFetchedAt.None?
  {
    if history != [] {
      var before := history[..|history| - 1];
      LastStep(history, code);
      forall j | 0 <= j < |before| ensures !SavedIn(before, j, code) {
        OutcomeEarlier(history, j, code);
        assert !SavedIn(history, j, code);
      }
      NeverSaved(before, code);
      assert !SavedIn(history, |history| - 1, code);
      hide After, OutcomeIn;
    }
  }

  /**
   What the catalog remembers of a dataset after any history of jobs, bounded, interrupted and failed
   ones included: the timestamp under which it was offered to the last run that saved it, and an
   error mark exactly if a later run failed on it.
   */
  lemma {:induction false} RemembersLastSaved(history: seq<Run>, j: nat, code: Runner.Code)
    requires Happens(history) && LastSaved(history, j, code)
    ensures code in After(history) && After(history)[code].lastFetchedAt.Some?
    ensures After(history)[code].sourceUpdatedAt == Stamp(history[j].offers, code)
    ensures After(history)[code].hasError <==> FailedSince(history, j, code)
  {
    hide After, OutcomeIn, Happens;
    LastStep(history, code);
    var n := |history| - 1;
    if j < n {
      var before := history[..n];
      EarlierLastSaved(history, j, code);
      RemembersLastSaved(before, j, code);
      assert !SavedIn(history, n, code);
      FailedStep(history, j, code);
    }
  }

  lemma EarlierOutcomes(history: seq<Run>, i: nat, code: Runner.Code)
    requires Happens(history) && i < |history| - 1
    ensures Happens(history[..|history| - 1])
    ensures SavedIn(history[..|history| - 1], i, code) <==> SavedIn(history, i, code)
    ensures FailedIn(history[..|history| - 1], i, code) <==> FailedIn(history, i, code)
  {
    OutcomeEarlier(history, i, code);
    hide OutcomeIn, Happens;
  }

  lemma EarlierLastSaved(history: seq<Run>, j: nat, code: Runner.Code)
    requires Happens(history) && LastSaved(history, j, code) && j < |history| - 1
    ensures Happens(history[..|history| - 1]) && LastSaved(history[..|history| - 1], j, code)
  {
    var before := history[..|history| - 1];
    EarlierOutcomes(history, j, code);
    hide Happens;
    forall i | j < i < |before| ensures !SavedIn(before, i, code) {
      EarlierOutcomes(history, i, code);
    }
    assert SavedIn(before, j, code);
    hide SavedIn;
  }

  lemma FailedStep(history: seq<Run>, j: nat, code: Runner.Code)
    requires Happens(history) && j < |history| - 1
    ensures Happens(history[..|history| - 1])
    ensures FailedSince(history, j, code) <==>
              FailedSince(history[..|history| - 1], j, code) || FailedIn(history, |history| - 1, code)
  {
    hide Happens, OutcomeIn, FailedIn, After;
    var n, before := |history| - 1, history[..|history| - 1];
    EarlierOutcomes(history, j, code);
    if FailedSince(history, j, code) {
      var i :| j < i < |history| && FailedIn(history, i, code);
      if i < n {
        EarlierOutcomes(history, i, code);
      }
    }
    if FailedSince(before, j, code) {
      var i :| j < i < |before| && FailedIn(before, i, code);
      EarlierOutcomes(history, i, code);
    }
  }

  /**
   Which datasets the next run fetches, in terms of what happened to them: all if it is forced; else
   those no run has saved, those a run failed on since, and those the listing shows with no timestamp
   or with another one, earlier or later, than when they were last saved.
   */
  lemma RefetchOnAnyDifference(history: seq<Run>, run: Run, offer: Offer)
    requires Happens(history) && offer in run.offers
    ensures (forall j :: 0 <= j < |history| ==> !SavedIn(history, j, offer.code)) ==>
              Selected(After(history), run, offer).shouldFetch
    ensures forall j :: 0 <= j < |history| && LastSaved(history, j, offer.code) ==>
              (Selected(After(history), run, offer).shouldFetch <==>
                 || run.force || FailedSince(history, j, offer.code)
                 || offer.updated.None? || offer.updated != Stamp(history[j].offers, offer.code))
  {
    hide After, LastSaved, SavedIn, FailedSince;
    if forall j :: 0 <= j < |history| ==> !SavedIn(history, j, offer.code) {
      NeverSaved(history, offer.code);
    }
    forall j | 0 <= j < |history| && LastSaved(history, j, offer.code)
      ensures Selected(After(history), run, offer).shouldFetch <==>
                || run.force || FailedSince(history, j, offer.code)
                || offer.updated.None? || offer.updated != Stamp(history[j].offers, offer.code)
    {
      RemembersLastSaved(history, j, offer.code);
    }
  }

  /** The job reported a complete listing, and the catalog had not asked it to cancel. */
  predicate IsComplete(store: Store, run: Run)
    requires Possible(store, run)
  {
    Selection.Completes(Job.Play(ConfigOf(store, run), run.events).value)
  }

  lemma {:induction false} StampOfOffer(offers: seq<Offer>, i: nat)
    requires i < |offers| && forall k, l :: 0 <= k < l < |offers| ==> offers[k].code != offers[l].code
    ensures Stamp(offers, offers[i].code) == offers[i].updated
  {
    if i > 0 {
      StampOfOffer(offers[1..], i - 1);
    }
  }

  lemma OffersDistinct(store: Store, run: Run)
    requires Runner.DistinctCodes(Listing(store, run))
    ensures forall k, l :: 0 <= k < l < |run.offers| ==> run.offers[k].code != run.offers[l].code
  {
    var listing := Listing(store, run);
    forall k, l | 0 <= k < l < |run.offers| ensures run.offers[k].code != run.offers[l].code {
      assert listing[k].code == run.offers[k].code && listing[l].code == run.offers[l].code;
    }
  }

  /** A dataset the timestamp rule skips is stored, fetched, without error, and has the same timestamp. */
  lemma SkippedAsStored(store: Store, run: Run, offer: Offer)
    requires !Selected(store, run, offer).shouldFetch
    ensures offer.code in store && !store[offer.code].hasError && store[offer.code].lastFetchedAt.Some?
    ensures store[offer.code].sourceUpdatedAt == offer.updated
  {
  }

  /**
   After a complete job the catalog is in step with the listing: every dataset it offered is stored
   under exactly the timestamp it was offered with, or is marked in error and so due again.
   */
  lemma CompleteRunInStep(store: Store, run: Run, i: nat)
    requires Possible(store, run) && IsComplete(store, run) && i < |run.offers|
    ensures var code := run.offers[i].code; var after := Recorded(store, run);
            code in after
            && (after[code].hasError
                || (after[code].lastFetchedAt.Some? && after[code].sourceUpdatedAt == run.offers[i].updated))
  {
    var cfg := ConfigOf(store, run);
    Job.CheckpointSound(cfg, run.events);
    hide Job.Play, Runner.Codes;
    OffersDistinct(store, run);
    StampOfOffer(run.offers, i);
    var sel := Listing(store, run)[i];
    assert sel in cfg.listing;
    if !sel.shouldFetch {
      SkippedAsStored(store, run, run.offers[i]);
    }
  }
}
