# Models and proofs for the NordicIntel harvest worker

This project models the parts of the harvest worker whose correctness depends on more than one
function: the job protocol, incremental selection over a history of jobs, the PXWeb v1 catalogue,
request throttling, sample enrichment, and Kolada probing. Every claim below is a Dafny contract
or lemma over all inputs, all schedules or all reachable states.

`dafny verify dfyconfig.toml` checks everything.

## How the models are built

Asynchronous code is a state machine. One event is the code between two awaits, a schedule is any
sequence of events, and `Play` gives the state after a schedule, or nothing if the schedule is
impossible. A lemma about every `Play` is a lemma about every interleaving. What a machine promises is stated about its
events wherever possible: what was answered, acknowledged or configured, and when. That it can also go
on is proved by runs constructed for every input or from every state. Objects that are
updated in place and loops over local variables are classes and methods, each proved against a
function or predicate about which the theorems are then stated.

| file | models |
| --- | --- |
| `runner.dfy` | `execute`: bounded scheduling of resolutions over a discovery stream |
| `returns.dfy` | when a run returns, that it always still can, and that its concurrency is used |
| `job.dfy` | `run_job`: the race of work, heartbeat, lease watchdog and stop; it embeds `runner.dfy` |
| `reports.dfy` | the reason and the report of a job, read off its schedule |
| `checkpoint.dfy` | for which inputs a job can report a complete listing falsely |
| `lease.dfy` | any number of workers and one catalog with a claim token and a lease, in real time |
| `exclusion.dfy` | what the lease protocol guarantees, and how much scheduling delay it allows |
| `renewal.dfy` | how acknowledged heartbeats renew a deadline, read off the events of a run |
| `selection.dfy` | which datasets a run fetches, and histories of jobs built on `job.dfy` |
| `timestamps.dfy` | histories of jobs of the adapters that select by listing timestamps |
| `category_tree.dfy` | the event-driven category tree parser and the recursive walk it refines |
| `web_url.dfy` | table URLs, their parser, and percent-encoding over bytes |
| `navigation.dfy`, `resolver.dfy` | the breadth-first crawl and the cached path resolver |
| `host_limit.dfy` | rate limiters, 429 state and the retry loop under concurrent calls |
| `throttling.dfy` | recorded cooldowns, spacing, permits and outcomes, read off the events of a run |
| `cooldown.dfy` | which calls under way a recorded 429 holds back |
| `cell_selection.dfy` | the greedy reduction of a sample to the cell limit |
| `enrichment.dfy` | acceptance and merging of a sampled JSON-stat2 response |
| `structure.dfy` | the structural validators and the PXWeb v1 dimension builder |
| `presence.dfy` | pagination, batching and presence probing of Kolada |

## What the proofs found

- A completion report can claim a complete listing although a listed dataset was never accounted for:
  when the catalog asks to cancel and the work then ends with an error, that error is never read. The
  work may have failed by itself before the job woke up (`Job.CheckpointLostFailure`), or it was
  healthy and raised in its cleanup while being cancelled (`Checkpoint.FalseReportHappens`). It is
  possible exactly for unbounded runs with a concurrency of at least two and something to fetch in a
  listing in scope without duplicates, and only if the catalog asks to cancel
  (`Checkpoint.FalseReportPossible`); a run that is never asked never reports falsely
  (`Checkpoint.FalseReportNeeds`). `README.md:54-55` of the repository promises a checkpoint only for
  successful runs; that holds if the catalog ignores `listing_complete` on jobs it asked to cancel,
  which `selection.dfy` and `timestamps.dfy` assume.
- `README.md:45-46` promises a minimum time between request starts of a host. It is kept under
  `set_limit` exactly when the requested concurrency is the one in force
  (`HostLimit.SpacingNeedsSameConcurrency`): another value installs a limiter that knows nothing
  of the starts before it. This program calls `set_limit` once on a fresh manager (runner.py:74-78),
  so only other users of that interface are concerned.
- A recorded 429 does not hold back every call of the host. The cooldown is tested once, before a call
  queues for its limiter. In every reached state, and whether or not `set_limit` is called again, the
  present cooldown holds back exactly the calls that have ended or not tested it for their next
  request, and those queued ones that cannot start earlier anyway: `Cooldown.Earliest` gives that time,
  from the clock, the call's own wake-up, and the last start and the interval on its limiter
  (`Cooldown.CooldownHoldsBack`). A call that sleeps through an earlier, shorter cooldown slips through
  as well as one that waits for a permit or the lock. This is exact for the request manager as an
  interface: behind other waiters, the early start is one in which those are cancelled one by one or
  passed in line. This program only cancels all its calls together (runner.py:113-115), and asyncio serves
  waiters in order. The bound holds there too, and is exact for a call alone in line, which slips through
  without any cancellation (`Cooldown.WaitingCallSlipsThrough`); behind others it may be kept back longer.
- The five-second margin of the lease is necessary: writers exclude each other exactly when
  scheduling delays stay below it (`Exclusion.ExclusionNeedsTheMargin`).
- A table URL is read back exactly under the condition in `WebUrl.TableUrlRoundTrip`. It is wider
  than "no component contains `__` or ends in `_`": the last component may end in an underscore, and
  if the database id is a run of underscores, leading components that are single underscores may be
  found again at the end of the web root. It also constrains the database id, whose trailing run of
  underscores must be even.
- A concurrency of zero or less is refused by `set_limit` before anything is discovered, unless the
  input brings a `max_concurrency` of its own (runner.py:74-78). With one, the run goes on with at most
  one resolution in flight (`Runner.BoundedWithoutOrphans` bounds it by the maximum of 1 and the
  concurrency).
- Where a complete Kolada run did not list a dataset, a later one that does can miss an older change to
  it, but only if the stored document was acknowledged on a later UTC day than the change
  (`Selection.LostOnlyAcrossMidnight`), and across a midnight the rule does skip it
  (`Selection.FetchWindowExact`): the change feed is asked from midnight on, the document counts as
  fresh from its acknowledgement on, and it may have been read before both. Only runs started within
  thirty days of that acknowledgement can miss it (`Selection.MissEnds`), and a complete run that lists
  the dataset leaves nothing missed, or an error mark, that is older than thirty days and the length of a
  job: in whatever year, listed before or not, even if the feed reports nothing
  (`Selection.NothingStaysMissed`).
- The duplicate-ordinal test of a category index is implied by the dense-sequence test
  (`Structure.CategoryIff`), and the structural validators can refuse the output of the PXWeb v1
  builder only for blank texts (`Structure.BuildDimensions`).
- Kolada's cycle test never refuses a list of pages that ends (`Presence.RevisitedNeverEnds`).

## Model

| member | source | states |
| --- | --- | --- |
| Runner.Conservation | src/nordicintel_harvest/runner.py:85-120 | in every interleaving no dataset is emitted twice and only listed ones in scope are; on a normal return the acknowledged datasets are exactly the seen ones, skips are discovered minus attempts, saves plus failures are attempts, and nothing is in flight |
| Runner.ReturnedAccounts | src/nordicintel_harvest/runner.py:96-111 | on a normal return exactly the entries to fetch ended as saved or failed and exactly the others as skipped |
| Runner.LostEmitStopsTheRun | src/nordicintel_harvest/runner.py:67-71 | once an emit of a fetched dataset has failed, that dataset is never acknowledged or recorded again and no continuation of the run returns normally |
| Runner.BoundedWithoutOrphans | src/nordicintel_harvest/runner.py:99-120 | at most max(1, concurrency) resolutions are unfinished in any reachable state, and none is when `execute` has left, by return, failure or cancellation |
| Runner.LimitSemantics | src/nordicintel_harvest/runner.py:96-111 | the discovered datasets are a prefix of the listing; a bounded run that returns stops at the shortest prefix with `limit` fetchable entries, so attempts are the minimum of limit and fetchable entries; only an unbounded one is complete |
| Runner.CallsFollowTask | src/nordicintel_harvest/runner.py:52-60 | no dataset is fetched more often than once plus the number of retry delays |
| Runner.OutcomeMatchesReply | src/nordicintel_harvest/runner.py:52-66 | a dataset is recorded as saved exactly when its last resolution brought documents of the right identity, and as failed after a transient error only when every retry was used |
| Runner.OnlyTransientIsRetried | src/nordicintel_harvest/runner.py:53-66 | every call of a dataset but the last came to a transient error: an answer of any other kind ends its calls for good |
| Runner.InFlightExact | src/nordicintel_harvest/runner.py:50-71 | `in_flight` is the number of resolutions that were started and are not over, in every reachable state |
| Runner.PlayInv | src/nordicintel_harvest/runner.py:23-120 | the invariant over pool, resolutions, emitted records, acknowledgements and progress counters holds after every schedule |
| Returns.ReturnsIffNothingFails | src/nordicintel_harvest/runner.py:35-120 | a run that is over has returned normally if and only if the limit was legal, every entry taken was in scope and new, and no setup, stream, emit or cleanup failed and no cancellation came |
| Returns.CanReturn | src/nordicintel_harvest/runner.py:85-120 | while nothing has failed, a run over a well-formed listing can always still return, from every reachable state, with no further dataset failing |
| Returns.SomeRunSavesAll | src/nordicintel_harvest/runner.py:50-120 | for every legal limit and well-formed listing some run returns with every dataset it fetched saved |
| Returns.ConcurrencyIsReached | src/nordicintel_harvest/runner.py:99-108 | some run has as many resolutions in flight at once as the concurrency, the limit and the entries to fetch allow |
| Returns.WaitsWhenFull | src/nordicintel_harvest/runner.py:100-102 | the loop waits for a resolution only while the pool holds as many as the concurrency |
| Returns.CanLeave | src/nordicintel_harvest/runner.py:112-120 | from every reachable state a run can be brought to its end by cancelling it |
| Returns.CancelledAnyTime | src/nordicintel_harvest/runner.py:112-120 | a cancellation is possible until the run has left, and a run that was cancelled never returns normally |
| Returns.DrainedThenCloses | src/nordicintel_harvest/runner.py:113-120 | after the resolutions have ended the cleanup follows, unless the wait for them was cancelled |
| Reports.ReportedReason | src/nordicintel_harvest/worker.py:94-125 | the reported reason, by what had happened when the job first woke up: interrupted exactly after a stop; else lease lost exactly if the watchdog fired; else the heartbeat's error; else the work's, unless the catalog asked to cancel; else none |
| Reports.HealthyJobReports | src/nordicintel_harvest/worker.py:103-125 | a job whose work returned before a stop, the watchdog or a broken heartbeat reports no error and a complete listing exactly if it was unbounded, with every dataset accounted for |
| Reports.SomeJobCompletes | src/nordicintel_harvest/worker.py:89-125 | for every unbounded well-formed input some job, never asked to cancel, reports the complete listing without an error, all datasets accounted for and none failed |
| Reports.EveryJobCanReport | src/nordicintel_harvest/worker.py:107-125 | no job is stuck: as long as it has neither reported nor given up, it can still report |
| Job.CheckpointSound | src/nordicintel_harvest/worker.py:95-125 | a report of a complete listing comes from an unbounded run with exhausted stream; if the work ended normally every listed dataset has exactly one acknowledged outcome; otherwise the catalog had asked to cancel and an error of the work was never read |
| Checkpoint.FalseReportPossible | src/nordicintel_harvest/worker.py:95-125 | some schedule reports a complete listing with a dataset unaccounted for if and only if the catalog may ask to cancel, the run is unbounded, the concurrency is at least two, and a listing in scope without duplicates has something to fetch |
| Checkpoint.FalseReportNeeds | src/nordicintel_harvest/worker.py:101-124 | a schedule in which the heartbeat is never told to cancel never reports falsely, whatever fails and whoever interrupts it |
| Checkpoint.FalseReportHappens | src/nordicintel_harvest/runner.py:111-120 | for every such input there is a run in which the work is healthy when the job wakes up and its cleanup raises |
| Job.CheckpointLostFailure | src/nordicintel_harvest/worker.py:101-124 | a concrete run whose report claims a complete listing although the work failed with a dataset unaccounted for |
| Job.InterruptedRunsNeverCheckpoint | src/nordicintel_harvest/worker.py:97-124 | a stop, lost lease or broken heartbeat before the first wake-up excludes a complete report, whatever the work does meanwhile |
| Job.VerdictStands | src/nordicintel_harvest/worker.py:95-125 | the reason decided at the first wake-up is the one reported, if any is |
| Job.SucceededRun | src/nordicintel_harvest/worker.py:117-124 | a run that returned is complete exactly when it was unbounded, and then accounts for the whole listing |
| Exclusion.LeaseSafety | src/nordicintel_harvest/worker.py:69-109 | whenever a worker may still write, until its job has been resumed and its work cancelled, the catalog holds its token, the lease is unexpired and the local deadline is five seconds before the expiry, under lost, delayed and duplicated claims and heartbeats; no two workers run |
| Exclusion.WritesNeverInterleave | src/nordicintel_harvest/worker.py:57-58 | writes of different claims never interleave and each precedes the expiry of its lease |
| Exclusion.LateWatchdogOverlaps | src/nordicintel_harvest/worker.py:84-87 | with a watchdog that may be resumed five seconds late there is, for every such lease, a run in which two workers hold claims at once |
| Exclusion.ExclusionNeedsTheMargin | src/nordicintel_harvest/worker.py:35 | for every lease and every claim timeout within the first deadline, exclusion over all runs holds if and only if the scheduling delay is below the margin |
| Renewal.DeadlineIsRenewal | src/nordicintel_harvest/worker.py:35-82 | in every run the deadline of a running worker is the time at which it sent what was last acknowledged, its claim or a heartbeat, plus the lease less the margin |
| Renewal.WatchdogFiresExactly | src/nordicintel_harvest/worker.py:84-87 | a round of the watchdog fires exactly when that deadline is reached, and is otherwise followed by one after a second or at the deadline |
| Renewal.RenewedNeverFires | src/nordicintel_harvest/worker.py:69-87 | a worker whose heartbeats are acknowledged within the lease less the margin is never stopped for its lease |
| Renewal.RunsAsLongAsNeeded | src/nordicintel_harvest/worker.py:69-87 | for every length of time some run keeps one worker running and writing under its first claim that long, its watchdog never firing |
| Renewal.HandsOver | src/nordicintel_harvest/worker.py:107-125 | a lease released at the end of a job is free for another worker at once |
| Renewal.ExpiryIsExact | src/nordicintel_harvest/worker.py:72-79 | a lease in force expires exactly one lease after its last acceptance |
| Selection.NoLostChange | src/nordicintel_harvest/providers/adapters/kolada/adapter.py:68-107 | over any history of jobs, every change to a listed dataset published before the resulting checkpoint is reflected in the stored document or the dataset is marked in error |
| Selection.HistoryKeeps | src/nordicintel_harvest/providers/adapters/kolada/adapter.py:68-107 | the induction over histories: complete, partial, bounded, interrupted and failed jobs all keep the store up to date with its checkpoint |
| Selection.SelectsSinceFetch | src/nordicintel_harvest/providers/adapters/kolada/adapter.py:70-107 | a change published on the UTC day on which the stored document was acknowledged, or later, is selected whatever the checkpoint says: by the feed if young, by staleness otherwise |
| Selection.FetchWindowExact | src/nordicintel_harvest/providers/adapters/kolada/adapter.py:70-107 | every later run fetches the dataset for a change if and only if the change is not from an earlier UTC day than the last acknowledged fetch |
| Selection.LostOnlyAcrossMidnight | src/nordicintel_harvest/providers/adapters/kolada/adapter.py:68-107 | one complete run that lists a dataset, whatever happened before and follows, leaves every earlier change in a year it covers reflected, the dataset marked in error, or its document acknowledged on a later UTC day than the change |
| Selection.MissEnds | src/nordicintel_harvest/providers/adapters/kolada/adapter.py:70-107 | the runs that can miss a change to a stored dataset are exactly those started more than thirty UTC days after it and no more than thirty days after the last acknowledged fetch |
| Selection.CompleteRunIsFresh | src/nordicintel_harvest/providers/adapters/kolada/adapter.py:93-107 | after a complete run every listed dataset is stored, and is in error or was acknowledged within the last thirty days |
| Selection.NothingStaysMissed | src/nordicintel_harvest/providers/adapters/kolada/adapter.py:70-107 | after any history of jobs, a complete run that lists a dataset and any further jobs, its document shows everything published up to thirty days and one job's length before that run, or the dataset is in error, whatever the feed reports and whether or not the dataset was listed before |
| Selection.SelectsSinceCheckpoint | src/nordicintel_harvest/providers/adapters/kolada/adapter.py:70-107 | every feed-covered change between the previous complete run's start and this run's start is selected |
| Selection.SkipMissesNothing | src/nordicintel_harvest/providers/adapters/kolada/adapter.py:93-107 | a skipped dataset is stored without error and read after every change before the run |
| Selection.CompleteRunAccounts | src/nordicintel_harvest/providers/adapters/kolada/adapter.py:93-107 | in a complete run every listed dataset is acknowledged, as skipped exactly when the rule does not fetch it |
| Selection.CheckpointNeedsEverything | src/nordicintel_harvest/worker.py:117-121 | a job that moves the checkpoint was unbounded and accounted for its whole listing |
| Selection.DiscoverDatasets | src/nordicintel_harvest/providers/adapters/kolada/adapter.py:93-107 | the nested loop yields each KPI followed by its unit dataset if it has one, with the rule's decision |
| Selection.SkippedExactly | src/nordicintel_harvest/providers/adapters/kolada/adapter.py:69-107 | from an empty catalog and after any history of jobs, the next run skips a dataset if and only if it is not forced, the feed does not report the KPI, the last complete run began within thirty UTC days, and the dataset was last saved within thirty days with no failure since |
| Selection.DecisionIsLocal | src/nordicintel_harvest/providers/adapters/kolada/adapter.py:97-107 | the decision for a dataset does not depend on the state of other datasets or on the feed's answer about other KPIs |
| Selection.ListingExact | src/nordicintel_harvest/providers/adapters/kolada/adapter.py:93-107 | the listing has one entry for each KPI, in their order, followed by its unit dataset exactly if it has one, and nothing else |
| Selection.CompleteRunIsPossible | src/nordicintel_harvest/providers/adapters/kolada/adapter.py:68-107 | over a listing without duplicates an unbounded job can be complete, and then moves the checkpoint to its start |
| Timestamps.RefetchOnAnyDifference | src/nordicintel_harvest/providers/interface.py:89-104 | after any history of jobs the next run fetches a dataset exactly when it is forced, no run has saved it, a run failed on it since it was last saved, or it is listed without a timestamp or with another one, earlier or later, than when it was last saved |
| Timestamps.RemembersLastSaved | src/nordicintel_harvest/runner.py:43-66 | after any history of jobs, bounded, interrupted and failed ones included, the catalog holds the timestamp under which the dataset was offered to the last run that saved it, and an error mark exactly if a later run failed on it |
| Timestamps.CompleteRunInStep | src/nordicintel_harvest/providers/interface.py:89-104 | after a complete job every offered dataset is stored under exactly the offered timestamp or marked in error |
| CategoryTree.CategoryTreeParser.HandleStartTag | src/nordicintel_harvest/providers/adapters/pxweb_v1/catalog.py:109-124 | the handler takes the parser's state to the machine's next state |
| CategoryTree.CategoryTreeParser.HandleData | src/nordicintel_harvest/providers/adapters/pxweb_v1/catalog.py:149-151 | text goes to the innermost open `li` if that is classified |
| CategoryTree.CategoryTreeParser.HandleEndTag | src/nordicintel_harvest/providers/adapters/pxweb_v1/catalog.py:126-147 | closing an `li` pops it and records a table for a linked leaf, or fails when its link cannot be read |
| CategoryTree.CategoryTreeParser.FeedEvents | src/nordicintel_harvest/providers/adapters/pxweb_v1/catalog.py:103-151 | feeding events to the object is running the machine over them |
| CategoryTree.WalkRefines | src/nordicintel_harvest/providers/adapters/pxweb_v1/catalog.py:103-151 | from any stack, the events of well-nested items change stack and tables as the recursive walk says |
| CategoryTree.ParserRefinesWalk | src/nordicintel_harvest/providers/adapters/pxweb_v1/catalog.py:103-151 | on every well-nested document the parser fails exactly when the walk does, returns to an empty stack and yields the walk's tables in its order |
| CategoryTree.ParsesCatalogue | src/nordicintel_harvest/providers/adapters/pxweb_v1/catalog.py:103-151 | for any catalogue, whatever other classes its items carry, parsing fails exactly if the ids of some link cannot be read, and otherwise yields exactly its linked tables in page order, each with its ids, its cleaned title and, index by index, the cleaned names of its categories outermost first |
| WebUrl.TableUrlRoundTrip | src/nordicintel_harvest/providers/adapters/pxweb_v1/catalog.py:171-230 | for every web root, printing and parsing a table URL returns id and path if and only if the id is not empty and the path is recoverable or borrows its leading underscores from the root |
| WebUrl.ReadsBack | src/nordicintel_harvest/providers/adapters/pxweb_v1/catalog.py:171-179 | every recoverable path is read back from any web root |
| WebUrl.BorrowedReadsBack | src/nordicintel_harvest/providers/adapters/pxweb_v1/catalog.py:175-178 | single underscores that vanish in the route are found again at the end of the root's tokens, when the parity of the database id fits |
| WebUrl.OnlyRecoverable | src/nordicintel_harvest/providers/adapters/pxweb_v1/catalog.py:224-230 | nothing else is read back, from any web root |
| WebUrl.CleanIsEvenRun | src/nordicintel_harvest/providers/adapters/pxweb_v1/catalog.py:175 | the condition on the database id is that its trailing run of underscores is even |
| WebUrl.UnquoteQuote | src/nordicintel_harvest/providers/adapters/pxweb_v1/parsing.py:11-12 | decoding undoes encoding, also in front of further text (sections 2.1 and 2.4 of RFC 3986) |
| WebUrl.QuotedByte | src/nordicintel_harvest/providers/adapters/pxweb_v1/parsing.py:11-12 | a byte is kept if it is unreserved or safe and otherwise written as percent sign and two upper-case hexadecimal digits (sections 2.1 and 2.3 of RFC 3986) |
| WebUrl.QuotedInParts | src/nordicintel_harvest/providers/adapters/pxweb_v1/parsing.py:11-12 | a text is encoded byte by byte |
| WebUrl.DecodedEscape | src/nordicintel_harvest/providers/adapters/pxweb_v1/parsing.py:11-12 | an escape with digits of either case is decoded to its byte |
| WebUrl.DecodedOther | src/nordicintel_harvest/providers/adapters/pxweb_v1/parsing.py:11-12 | a byte that begins no escape is left as it is |
| WebUrl.EncodeSegmentIdempotent | src/nordicintel_harvest/providers/adapters/pxweb_v1/parsing.py:11-12 | encoding a segment twice is encoding it once |
| WebUrl.ComponentQuotingIdempotent | src/nordicintel_harvest/schemas/contracts.py:12-23 | quoting a URL component whose safe bytes include `%` is idempotent |
| Navigation.CrawlNavigation | src/nordicintel_harvest/providers/adapters/pxweb_v1/catalog.py:524-606 | folders are requested breadth first, none twice and no more than 10,000; on success they are exactly the reachable ones, each answered or, below the root, missing with status 400 or 404, and the output is their tables, no more and no fewer, sorted by folded id and folded path; every failure has the cause it reports |
| Navigation.SortTablesSorts | src/nordicintel_harvest/providers/adapters/pxweb_v1/catalog.py:606 | the final sort keeps the tables and orders them by the key |
| Navigation.Visit | src/nordicintel_harvest/providers/adapters/pxweb_v1/catalog.py:552-602 | one folder's entries extend queue, seen folders, seen tables and output by exactly the unseen children and first tables, and the cap is reported only when exceeded |
| Navigation.OutputIsExact | src/nordicintel_harvest/providers/adapters/pxweb_v1/catalog.py:582-602 | the tables of the requested folders appear once per path and case-folded id, nothing else does, each with one category per path component |
| Navigation.AllRequested | src/nordicintel_harvest/providers/adapters/pxweb_v1/catalog.py:531-579 | when the queue is empty a folder has been requested if and only if it is reachable through answering folders |
| Navigation.FolderTablesSpec | src/nordicintel_harvest/providers/adapters/pxweb_v1/catalog.py:582-602 | the tables of one folder cover its table ids exactly once up to case |
| Navigation.ReachedStepByStep | src/nordicintel_harvest/providers/adapters/pxweb_v1/catalog.py:552-579 | a folder is reachable exactly if the reply to every folder on the way lists the next one under an id that is not blank |
| Navigation.CategoriesByReplies | src/nordicintel_harvest/providers/adapters/pxweb_v1/catalog.py:556-578 | each category of a reached folder has the id of its component and the name given by the first entry that lists it: its cleaned text less the id in front, or the id |
| Navigation.TablesByEntries | src/nordicintel_harvest/providers/adapters/pxweb_v1/catalog.py:582-602 | every output table is that of the first entry of its folded id in its folder, with title, urls and date from that entry |
| Navigation.EntriesHaveTables | src/nordicintel_harvest/providers/adapters/pxweb_v1/catalog.py:582-602 | every entry that lists a table is represented in its folder's tables |
| Navigation.OutputAscends | src/nordicintel_harvest/providers/adapters/pxweb_v1/catalog.py:606 | in the output folded ids ascend by code points, and folded paths among equal ids |
| Navigation.PathStringIs | src/nordicintel_harvest/providers/adapters/pxweb_v1/catalog.py:167-168 | the path text has a slash in front of every component and nothing else |
| Resolver.ResolveApiCategoryPaths | src/nordicintel_harvest/providers/adapters/pxweb_v1/catalog.py:423-455 | no parent is requested twice, every path resolves as walking it alone with fresh requests, and a failure is one that a walk meets |
| Resolver.ResolvePath | src/nordicintel_harvest/providers/adapters/pxweb_v1/catalog.py:430-454 | one path through any faithful cache gives the fresh walk's result and keeps the cache faithful |
| Resolver.ResolvedInOrder | src/nordicintel_harvest/providers/adapters/pxweb_v1/catalog.py:433-454 | a path is resolved exactly when every step has an accepted match, and keeps the requested ids in order |
| Resolver.ExactMatchWins | src/nordicintel_harvest/providers/adapters/pxweb_v1/catalog.py:409-420 | a folder whose spelling is unique is matched whatever else is listed |
| Resolver.MatchedExactly | src/nordicintel_harvest/providers/adapters/pxweb_v1/catalog.py:409-420 | the matched folder is the only one of the requested spelling; or else the only one when case is folded; or else the only one when normalized; or none |
| Resolver.WalkOutcome | src/nordicintel_harvest/providers/adapters/pxweb_v1/catalog.py:430-455 | a walk follows the matched folders as far as it can; past the last it is resolved with named categories, before it fails if a request does and is dropped if nothing matches |
| HostLimit.PermitsConserved | src/nordicintel_harvest/core/rate_limiter.py:44-50 | in every reachable state a limiter's free permits and the calls inside `throttle` add up to its permits |
| HostLimit.StartsAreSpaced | src/nordicintel_harvest/core/rate_limiter.py:31-41 | between two starts of a limiter lies at least the sum of the effective intervals of the later ones, under any number of callers |
| HostLimit.BaseIntervalHolds | src/nordicintel_harvest/core/request_manager.py:219-220 | any two starts of a limiter are apart by the base interval times their distance |
| HostLimit.SpacingNeedsSameConcurrency | src/nordicintel_harvest/core/request_manager.py:203-211 | host-wide spacing survives `set_limit` if and only if the concurrency stays the one in force |
| HostLimit.HostStateExact | src/nordicintel_harvest/core/request_manager.py:249-264 | the slowdown is the increase times the recorded 429s, the cooldown end is the latest recorded one and at most a 429 time plus the maximum cooldown (section 4 of RFC 6585) |
| HostLimit.CooldownNeverDecreases | src/nordicintel_harvest/core/request_manager.py:258-264 | the host's cooldown end never moves back along any run |
| HostLimit.GivesUpAfterThree | src/nordicintel_harvest/core/request_manager.py:296-347 | a call sends at most three requests and ends in the rate-limit error exactly after three recorded 429s |
| HostLimit.RetriesWait | src/nordicintel_harvest/core/request_manager.py:213-217 | every start is an attempt its call made, and a retry starts no earlier than the end of the cooldown of its own previous 429 |
| Cooldown.CooldownHoldsBack | src/nordicintel_harvest/core/request_manager.py:213-217 | in every reached state the host's cooldown holds back a call's later requests in all continuations, with further `set_limit` calls or without, if and only if the call is not queued or cannot start before the cooldown's end anyway; without cancelling calls one by one, that still holds it back, and is exact for a call alone in line |
| Cooldown.EarliestIsExact | src/nordicintel_harvest/core/request_manager.py:296-320 | for every queued call and every time, all continuations start its requests at that time or later if and only if the time is not after its earliest start; without cancelling calls one by one, for a call alone in line |
| Cooldown.EarliestIsReached | src/nordicintel_harvest/core/rate_limiter.py:31-50 | some continuation starts the call at exactly that time, whoever holds the limiter's permits and lock; nobody is cancelled in it if the call is alone in line |
| Cooldown.WaitingCallSlipsThrough | src/nordicintel_harvest/core/request_manager.py:296-311 | for every setup whose interval is shorter than its longest cooldown a call that passed the test starts during a recorded cooldown, in a run in which nobody is cancelled and no other call is in line |
| HostLimit.HostState.Record429 | src/nordicintel_harvest/core/request_manager.py:244-264 | recording a 429 updates the host object to the recorded state, the cooldown being the seconds of the header, or the default without one, cut off at the maximum |
| HostLimit.HostState.SetLimit | src/nordicintel_harvest/core/request_manager.py:184-211 | invalid limits change nothing; valid ones take the host object where the machine's `set_limit` takes its host, and announce a new limiter exactly when the machine installs one |
| Throttling.ThrottlesAreRefusals | src/nordicintel_harvest/core/request_manager.py:244-264 | the recorded 429s are, one by one, the 429 answers of the run, timed at their arrival, each with the seconds of its header, or the default without one, cut off at the maximum |
| Throttling.RefusalsWidenSpacing | src/nordicintel_harvest/core/request_manager.py:219-311 | a new start of a limiter is later than the one before by at least the base interval configured when its call tested the cooldown plus the increase for every 429 recorded until then |
| Throttling.RetriesWaitAsTold | src/nordicintel_harvest/core/request_manager.py:296-338 | a retry starts no earlier than its previous 429 answer and the seconds computed from that answer |
| Throttling.PermitsAreConfigured | src/nordicintel_harvest/core/request_manager.py:203-211 | the limiter in force has exactly as many permits as were last configured, and no more calls are inside it |
| Throttling.CallsEndByAnswers | src/nordicintel_harvest/core/request_manager.py:296-347 | a call ends answered exactly after a response, without one exactly after a failed request, cancelled exactly after a cancellation, and in the rate-limit error exactly after its third recorded 429 |
| Cooldown.EveryCallCanBeAnswered | src/nordicintel_harvest/core/request_manager.py:296-333 | in every reached state a call that has not ended, and whose third request was not refused, can still be sent and answered |
| CellSelection.SelectCells | src/nordicintel_harvest/providers/adapters/pxweb_v1/enrichment.py:17-29 | each selection is a prefix in ordinal order, reductions form a suffix of the ids, and for a limit of at least 1 the cells are within it and the most that any choice of one or two categories per dimension reaches |
| CellSelection.HalfIsBest | src/nordicintel_harvest/providers/adapters/pxweb_v1/enrichment.py:25-29 | halving an excessive sample loses no better choice |
| CellSelection.OptimalPlainly | src/nordicintel_harvest/providers/adapters/pxweb_v1/enrichment.py:17-29 | the asked sizes are full for a first part of the dimensions and one for the rest, and within a limit of at least 1 no other choice has more cells |
| CellSelection.FullIsTwo | src/nordicintel_harvest/providers/adapters/pxweb_v1/enrichment.py:17-23 | full means two categories, or the only one |
| Enrichment.EnrichMetadata | src/nordicintel_harvest/providers/adapters/pxweb_v1/enrichment.py:38-175 | a failed request is a retriable failure exactly without a response, with status 429 or with one from 500; otherwise the imperative merge yields the merged documents exactly for a 2xx status, a sample of the described kind in any axis order, and a result that passes the final validation |
| Enrichment.AcceptedPlainly | src/nordicintel_harvest/providers/adapters/pxweb_v1/enrichment.py:46-138 | without the stand-in, a sample is accepted if and only if it is a dataset whose axes are the metadata's dimensions in any order, each sized as selected and showing exactly the selected categories densely numbered, with fields that speak of them only and objects where objects belong |
| Enrichment.StrayKeysRefused | src/nordicintel_harvest/providers/adapters/pxweb_v1/enrichment.py:85-90 | where the stand-in replaces the sole code, a per-category field that speaks of anything else is refused |
| Enrichment.StructurePreserved | src/nordicintel_harvest/providers/adapters/pxweb_v1/enrichment.py:107-156 | every accepted sample leaves identity, id order, titles, category indexes and labels and dimension extension values as they were; dataset extension values too, `px` exactly when the sample brings none or an equal one; new units, notes and coordinates speak of selected categories only |
| Enrichment.SampleCarriedOver | src/nordicintel_harvest/providers/adapters/pxweb_v1/enrichment.py:123-146 | every note, link, unit, coordinate and extension value of an accepted sample arrives, except extension values the metadata already has |
| Enrichment.TextsCarriedOver | src/nordicintel_harvest/providers/adapters/pxweb_v1/enrichment.py:148-174 | the sample's source and note replace the document's; each non-blank text among its PX settings arrives at its place and a blank one changes nothing; the flag arrives if it can be read; the settings arrive without the axis layout; the subject's other values stay |
| Enrichment.EnrichingTwice | src/nordicintel_harvest/providers/adapters/pxweb_v1/enrichment.py:46-174 | an accepted sample is accepted again by the document it enriched, and changes nothing the second time |
| Enrichment.AxisOrderIrrelevant | src/nordicintel_harvest/providers/adapters/pxweb_v1/enrichment.py:52-105 | permuting a sample's ids together with its sizes changes neither acceptance nor result |
| Enrichment.SyntheticAxisIgnored | src/nordicintel_harvest/providers/adapters/pxweb_v1/enrichment.py:69-78 | a synthetic contents axis at any position changes nothing if its size is 1 and is refused otherwise |
| Enrichment.MarkerStandsForSoleCode | src/nordicintel_harvest/providers/adapters/pxweb_v1/enrichment.py:79-94 | hiding the sole contents code behind the stand-in changes neither acceptance nor result |
| Presence.GetPaginatedValues | src/nordicintel_harvest/providers/adapters/kolada/client.py:38-59 | returns the values of the complete list of pages, or fails exactly when no complete list exists |
| Presence.RevisitedNeverEnds | src/nordicintel_harvest/providers/adapters/kolada/client.py:43-45 | a revisited page lies on no complete list, so the cycle test refuses none |
| Presence.ExtractPresence | src/nordicintel_harvest/providers/adapters/kolada/parsing.py:281-308 | the loop collects exactly the years and ids of entries with a live value |
| Presence.PresenceDistributes | src/nordicintel_harvest/providers/adapters/kolada/parsing.py:281-308 | presence distributes over concatenated answers |
| Presence.RequestsCoverOnce | src/nordicintel_harvest/providers/adapters/kolada/parsing.py:267-278 | all requests together ask for every pair exactly as often as it occurs in the rectangle |
| Presence.RequestsWithinLimit | src/nordicintel_harvest/providers/adapters/kolada/parsing.py:267-278 | no request is empty or exceeds 25 values in either filter |
| Presence.FetchPresence | src/nordicintel_harvest/providers/adapters/kolada/client.py:179-193 | if the upstream answers the requests made here honestly the result is the direct definition over the rectangle, and it fails exactly when some request cannot be read to the end |
| Presence.HonestUpstream | src/nordicintel_harvest/providers/adapters/kolada/client.py:172-177 | for the client's comma-joined urls and ids without separators, whatever the data, some upstream answers all these requests to the end and honestly |
| Presence.UrlsDiffer | src/nordicintel_harvest/providers/adapters/kolada/client.py:172-177 | different requests have different urls as long as no id contains a comma or a slash |
| Presence.PresentExactly | src/nordicintel_harvest/providers/adapters/kolada/parsing.py:281-308 | a year or id is present exactly if some entry of that period and id has a reading with a value that is not deleted |
| Presence.DirectlyPresent | src/nordicintel_harvest/providers/adapters/kolada/client.py:179-193 | the direct definition: what the data observes at a year and a municipality that were both asked for |
| Presence.ChainStepByStep | src/nordicintel_harvest/providers/adapters/kolada/client.py:42-58 | a complete list of pages starts at the url, each page's link taken relative to its own url leads to the next, and the last has none |
| Presence.ValuesInOrder | src/nordicintel_harvest/providers/adapters/kolada/client.py:54 | the values stand in the order of the pages |
| Presence.RequestsExactly | src/nordicintel_harvest/providers/adapters/kolada/parsing.py:267-278 | the requests are one for each slice of 25 municipalities and each slice of 25 years, municipality slices outermost, and no others |
| Structure.ValidateStructure | src/nordicintel_harvest/schemas/datasets.py:124-156 | acceptance is equivalent to a non-empty duplicate-free id list equal to the dimension keys with roles that are pairwise disjoint subsequences of it |
| Structure.SubsequenceIff | src/nordicintel_harvest/schemas/datasets.py:142-147 | known, sorted and duplicate-free positions characterise subsequences of the id list |
| Structure.CategoryIff | src/nordicintel_harvest/schemas/dimensions.py:44-66 | a category is accepted exactly when its index is a bijection onto 0..n-1 over non-blank keys that all have non-blank labels |
| Structure.EnumerationIsIndex | src/nordicintel_harvest/schemas/dimensions.py:56-62 | numbering a list by position gives an acceptable index exactly when no key repeats |
| Structure.IndexRoundTrip | src/nordicintel_harvest/providers/adapters/pxweb_v1/enrichment.py:18-21 | sorting an index by ordinal and numbering the result again gives the index back |
| Structure.ListRoundTrip | src/nordicintel_harvest/providers/adapters/pxweb_v1/adapter.py:304-307 | numbering a duplicate-free list and sorting by ordinal gives the list back |
| Structure.BuildDimensions | src/nordicintel_harvest/providers/adapters/pxweb_v1/adapter.py:227-314 | the variable loop succeeds exactly for non-empty lists of complete variables with distinct codes, and its result satisfies the metadata validator, keeps payload order, and has exactly the detected roles |
| Structure.BuildCategory | src/nordicintel_harvest/providers/adapters/pxweb_v1/adapter.py:254-268 | the value loop succeeds exactly for distinct non-blank ids and numbers them in payload order, each with its own text or its id |
| Structure.BuiltCategoryAccepted | src/nordicintel_harvest/providers/adapters/pxweb_v1/adapter.py:301-311 | a built category is accepted by the validator exactly when its texts are not blank |
| Structure.DetectedRolesFit | src/nordicintel_harvest/providers/adapters/pxweb_v1/adapter.py:279-280 | whatever roles are detected, the role lists are pairwise disjoint subsequences of the ids |
| Structure.StripExactly | src/nordicintel_harvest/providers/adapters/pxweb_v1/adapter.py:235-240 | stripping takes white space off both ends and nothing else |
| Structure.BlankIsSpace | src/nordicintel_harvest/schemas/dimensions.py:15-17 | a text is blank exactly if it is all white space |
| Structure.DimensionReads | src/nordicintel_harvest/providers/adapters/pxweb_v1/adapter.py:235-268 | a built dimension has the stripped text as title, or the code, and for every value its stripped id with the payload position and its own text, or the id |
| Structure.DetectedRole | src/nordicintel_harvest/providers/adapters/pxweb_v1/adapter.py:252-280 | a dimension has exactly the role detected from its stripped code, its title and its time flag |

## Left out

- `execute`, `run_job`, the workers and the request calls are transition systems over values, since what matters there is interleaving; update in place is modelled for the tree parser and the host state only, and aliasing between concurrent holders of one object is not.
- The catalog server is reduced to what the repository's README says of it: one claim token, a constant lease, per-dataset state, and a checkpoint that ignores jobs it asked to cancel. Its storage, history and API are not part of this model.
- A cancellation of `run_job` from outside and the unfinished cleanup after its timeout are modelled as giving up without a report.
- The failed outcome of a dataset is taken to leave its accepted timestamp as it was, as `README.md:52-53` of the repository suggests.
- Timers are taken not to fire early and the monotonic clock to start above zero; a start time of exactly 0 would be read as missing (worker.py:35).
- Times and intervals are integers of one clock; float rounding is not modelled.
- Per-dataset state pages (worker.py:37-51) arrive as one map, and the worker's polling interval and logging are absent.
- HTTP, JSON decoding, response buffering, timeouts and the session are nondeterministic replies; a Retry-After value is a non-negative number or absent (section 10.2.3 of RFC 9110).
- The Kolada change feed is assumed to report what it promises for the years asked about; the requests of `changed_kpi_ids` and the KPI group join of `list_kpis` are not modelled.
- Exclusion.LeaseSafety: assumes that a claim response is accepted no later than the first local deadline, as the 10-second timeout of the single claim attempt (catalog.py:15, worker.py:142-146) ensures for a 90-second lease, that all parties share one clock rate, and that the configured delay bounds the whole chain from a watchdog's wake-up to the end of all emits.
- Selection.NoLostChange: assumes that the dataset is listed and its year covered in every complete run of the history; `Selection.LostOnlyAcrossMidnight` needs one such run and states the window it leaves, `Selection.NothingStaysMissed` needs one and no year, thirty days later.
- Cooldown.EarliestIsExact: neither the order in which a limiter serves its waiters nor that this program cancels its calls all together is modelled; the earliest start of a call behind others, when nobody is cancelled or passed, is left out.
- Selection.NothingStaysMissed: assumes that no earlier job took longer than the stated length.
- An emit or completion that the catalog accepted although its answer was lost leaves no trace in the models: only acknowledged outcomes count as accepted, and an unanswered completion as none.
- Enrichment.AcceptedPlainly: speaks of samples without the stand-in; those with it are reduced to such samples by `Enrichment.SyntheticAxisIgnored` and `Enrichment.MarkerStandsForSoleCode`.
- WebUrl.UnquoteQuote: works on bytes, so the replacement of invalid UTF-8 is not modelled.
- HTML tokenising, text cleaning, prefix stripping, case folding, normalisation, URL joining and, in the crawl, the two URL builders are function parameters about which nothing is assumed.
- The discovery stream is whatever the adapter yields: the PXWeb v1 adapter turns a failed listing of a database into an empty one (pxweb_v1/adapter.py:134-148), and a run over such a stream can still be complete.
- `_tables_from_web`, the web-only metadata requests and the expansion form of the tree page.
- Enrichment.EnrichMetadata: the type checks of the final validation, `coerce_bool`, `structured_extras` and the test for blank texts are function parameters about which nothing is assumed.
- Presence.FetchPresence: an upstream that answers infinitely many different pages is not modelled.
- Structure.BuildDimensions: leaves out time labels, extensions and the rules of role detection, which is a parameter.
- PXWeb v2, the other adapters' field copying, the command line, settings, signals and the registry.
