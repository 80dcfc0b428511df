# SLASettle: verified models

SLASettle pays out on a service-level agreement when independent watchers vote that an endpoint
was down. Its contracts emit events; an indexer (a Node server and a Cloudflare worker) turns them
into tables and answers read requests; a Go daemon watches one endpoint and votes once a round; a
web application creates agreements and shows them. This project models the parts of that system
whose behaviour is not obvious from any one function, and proves what they are for.

What the files say, from the ground up:

- `Wrappers`, `Arithmetic`, `Sequences`, `Decimal`, `WhiteSpace`, `JsNumbers`: options and results,
  order facts, filter-and-map with the origin of every element, decimal notation, and what JavaScript
  trims and reads as a number.
- `Events`, `ContractEvents`: decoded events, the classifier as the loop it is, and the documented
  wire format it must invert.
- `Store`, `Replay`, `Redelivery`, `Thresholds`: the tables, the SQL statements, the two stores as
  classes; one event at a time as the meaning of a batch; why delivering events again is harmless;
  why caching thresholds commutes with all of it.
- `Ingestion`, `Gaps`, `Convergence`: one cycle of the Node poller and of the worker, exactly when a
  cycle leaves a gap and that a gap stays, and what every gap-free run of either against a growing
  chain converges to.
- `Reads`, `Pagination`, `SettlementsRoute`, `CurrentRound`: eligible watchers, the current round,
  vote counts, the settlements route with its limit rule, lazy threshold fill and keyset cursor, and
  the current-round route from contract events to its answer.
- `LedgerClock`, `Rounds`: the round id in IEEE 754 arithmetic, and the daemon's scheduling.
- `Retry`, `ScVal`, `Submission`: bounded retry, the ScVal decoder, and the trace of RPC calls a
  round makes.
- `WorkerPool`, `Polling`: the bounded pool as a transition system under every schedule, and the
  polling hook as a state machine over the events of a browser.
- `TokenAmount`, `CreateSla`: the decimal printer and parser, the form, and the transaction builder.

How the outside world appears. The chain is an immutable list of events; an RPC node sees a prefix
of it and returns a contiguous slice after the cursor, with a cursor at the end of the slice, a blank
one or none. Time, transport failures, cancellation, database faults, the order in which promises
settle and the rounding of a double are parameters, and every theorem holds for all of them. A table
maps its primary key to its row. StrKey checksums, URL parsing and SHA-256 are functions nothing is
assumed about. An exception is a `Result`; inside a store it rolls the transaction back.

Where code and documentation disagree, the model follows the code:

- `apps/docs/developers/indexer-api.md:154` says that an invalid cursor is answered with 400. The
  code treats a cursor that does not decode as the first page (`indexer/src/api/pagination.ts:16-26`,
  `indexer/src/worker/routes.ts:141-142`). Line 155 there says that an SLA without recorded events
  is answered with 404; the settlements route answers 200 with an empty page.
- The comment on `applyBatch` (`indexer/src/db/db.ts:106-113`) speaks of ruling out double processing
  after a crash. A cleared or blank cursor still makes ingestion go over old events again; what holds,
  and is proved, is that this makes no difference.
- "No event is skipped" is false of the worker when a response carries no cursor and none was stored
  before: it resumes after the chain tip (`indexer/src/worker/ingest.ts:34-35, 61`). It is false of a
  poller without START_LEDGER after a blank cursor (`indexer/src/ingest/poller.ts:32-34`), which
  restarts at a later tip. `Gaps.WorkerGap` and `Gaps.PollerGap` say exactly when there is no gap, and
  `Gaps.WorkerCanSkip` and `Gaps.PollerCanSkip` are runs in which an event is never recorded, whatever
  follows.
- The form means to tell "too many decimal places" from "not a number", but does so by the words of
  an error message that quotes the input (`apps/web/lib/create-sla-validation.ts:89-94, 115-124`,
  `apps/web/lib/format.ts:49`): `10 decimal places` is answered with the former.
  `CreateSla.ParsePositiveAmountProblem` and `CreateSla.ReadUptime` say exactly when.
- "What is printed can be parsed" is false of amounts printed with a sign or a comma;
  `TokenAmount.FormatReparsesUnedited` gives the exact range.

## Model

| member | source | states |
|---|---|---|
| ContractEvents.DocumentedFormatClassified | indexer/src/ingest/classify.ts:59-206 | every contract event in the documented wire format, with its i128s as bigint or as string, becomes its one row or watcher update, each field in its own column whether a topic or the data carried it |
| ContractEvents.RowsDetermineEvents | indexer/src/rpc/decode.ts:19-40 | events recorded alike are the same event, except for the uptime target and penalty of an SLA, which have no column: ingestion loses nothing else |
| ContractEvents.HexInjective | indexer/src/rpc/decode.ts:128-135 | different endpoint hashes are stored as different hex strings |
| ContractEvents.HashColumns | indexer/src/rpc/decode.ts:128-135 | the endpoint hash stored for a check and for an SLA reads back as the bytes of the event: two lowercase hexadecimal digits a byte, the high one first |
| ContractEvents.IntegerColumns | indexer/src/ingest/classify.ts:100-206 | every id, round id, bond, payout and amount column reads back as the integer of the event: a minus sign only, no leading zeros |
| Events.ClassifyEvents | indexer/src/ingest/classify.ts:59-206 | the classifier's loop yields a batch exactly when every event is classifiable, and each bucket and the skip log are then the page filtered, in page order |
| Events.EventsConserved | indexer/src/ingest/classify.ts:59-206 | the positions of the five buckets and of the skips partition the page: each event is exactly one row, one watcher update or one logged skip |
| Events.QuarantineMalformedStatus | indexer/src/ingest/classify.ts:38-48 | a vote is recorded only for `["Up"]` and `["Down"]`, as submitted; every other status is quarantined and nothing else is |
| Events.ThresholdInAnyForm | indexer/src/ingest/classify.ts:135 | an integer threshold is stored as that integer whether it arrives as a number, a bigint, decimal text or alone in a list |
| Events.OddThresholds | indexer/src/ingest/classify.ts:135 | what `Number` makes of the other values: 0 for null, false, blank text and the empty list, 1 for true, the byte of a byte string of one, NULL for NaN |
| Events.ListPrints | indexer/src/ingest/classify.ts:59-206 | `String` of a list is its elements with commas between them, null and undefined as nothing |
| Events.BytesPrint | indexer/src/ingest/classify.ts:59-206 | `String` of a byte string is that of the list of its bytes |
| Events.OddValuesPrint | indexer/src/ingest/classify.ts:59-206 | `String` of a missing field, null, a boolean and a record |
| Sequences.FilterMapOrigin | indexer/src/ingest/classify.ts:62-203 | pushing in a loop keeps order: bucket values come from strictly increasing positions, exactly those where something was found |
| Store.IndexerDb.ApplyBatch | indexer/src/db/db.ts:114-194 | one transaction: with a fault anywhere nothing changes, otherwise checkpoint and every statement of the batch land, in order |
| Store.IndexerDb.SetSlaQuorumThreshold | indexer/src/db/db.ts:209-217 | one transaction: with a fault at either update nothing changes, otherwise the SLA's threshold is set and exactly its settlements that have none are filled |
| Store.IndexerD1.Batch | indexer/src/db/d1.ts:121-122 | a D1 batch is all or nothing |
| Store.IndexerD1.ApplyBatch | indexer/src/db/d1.ts:31-123 | the statement list the loops build has the same committed effect as the Node store's transaction |
| Store.IndexerD1.SetSlaQuorumThreshold | indexer/src/db/d1.ts:197-204 | the batch of the two updates commits with the same effect as the Node store's, or changes nothing |
| Store.FillRows | indexer/src/db/db.ts:212-214 | updating the matching rows in any order gives the same table |
| Replay.EffectFields | indexer/src/db/db.ts:131-191 | an event alone writes the one table its row belongs to and leaves the others alone |
| Replay.AppliedTableByTable | indexer/src/db/db.ts:114-194 | a committed batch is five independent folds and a new checkpoint, whatever order the statements come in between tables |
| Replay.GroupingInvisible | indexer/src/ingest/classify.ts:59-206 | classifying a page and committing its batch equals applying each of its events alone in chain order, for every page and every database |
| Replay.PagesInvisible | indexer/src/ingest/poller.ts:48-80 | for every way of cutting a log into pages, ingestion stops before the first page with an event the classifier throws on, leaving the tables of one in-order pass over the pages before, and gets to the end exactly when every event is classifiable |
| Replay.PageSizesAgree | indexer/src/worker/ingest.ts:41-72 | two page sizes get through the same chain or neither does; when they do their tables are equal, else each has passed only classifiable events |
| Replay.FirstEventWins | indexer/src/db/db.ts:141-191 | under every key the four insert-or-ignore tables hold the row of the first event with that key, and nothing else |
| Redelivery.ReplayGrows | indexer/src/db/db.ts:131-191 | ingestion never loses or changes a row, nor a watcher's first registration time, and records every event it is given |
| Redelivery.RedeliverOne | indexer/src/db/db.ts:131-139 | delivering an old event again keeps the state a catching-up state: only removal marks of watchers with events still to come may differ from the one-pass result |
| Redelivery.Redeliver | indexer/src/db/db.ts:131-191 | the same for any stretch of old events |
| Redelivery.Deliver | indexer/src/ingest/poller.ts:29-80 | a page that starts at or before the position and ends anywhere, old events and new ones mixed, keeps ingestion standing where it should |
| Redelivery.CaughtUp | indexer/src/ingest/poller.ts:29-80 | back at the furthest position the tables equal those of one in-order pass |
| Thresholds.FillTruthful | indexer/src/db/db.ts:209-217 | a fill stores only the SLA's own threshold, leaves no null behind for that SLA, and changes no threshold already there |
| Thresholds.FillInvisible | indexer/src/db/db.ts:209-217 | a fill changes nothing but thresholds |
| Thresholds.ReplayTruthful | indexer/src/db/db.ts:155-191 | ingestion, replays included, keeps every stored threshold true and never turns one back to null |
| Thresholds.ReplayIgnoresThresholds | indexer/src/db/db.ts:114-194 | with or without fills in between, ingestion builds the same rows |
| Ingestion.RunOnce | indexer/src/ingest/poller.ts:25-95 | one poller cycle commits a whole page and its checkpoint or changes nothing, resumes from the stored cursor, START_LEDGER or the tip in that order, and reports a full page |
| Ingestion.StorePage | indexer/src/ingest/poller.ts:60-94 | the part of it after the fetch, with the two checkpoint rules for an empty and a non-empty page |
| Ingestion.RunIngestionStep | indexer/src/worker/ingest.ts:16-79 | one worker step likewise, with its own resume rule and page size |
| Ingestion.StoreResponse | indexer/src/worker/ingest.ts:47-79 | the part of it after the fetch, with the cursor kept when the response has none |
| Ingestion.CommittedPage | indexer/src/ingest/poller.ts:48-80 | a committed cycle has applied exactly one contiguous slice of the chain, starting where the checkpoint says |
| Ingestion.CheckpointAfter | indexer/src/ingest/poller.ts:60-80 | the checkpoint a committed cycle leaves: for the poller the ledger of its last event, or the latest one for an empty page, and the cursor of the response; for the worker always the latest ledger, and the cursor it had when the response carries none |
| Gaps.WorkerGap | indexer/src/worker/ingest.ts:29-62 | the worker's next start is not past the page it stored if and only if the checkpoint holds a cursor or the page reached everything the node sees |
| Gaps.PollerGap | indexer/src/ingest/poller.ts:29-46 | the poller's next start is not past the page it stored if and only if the checkpoint holds a cursor, or the chain holds nothing after the page, or the restart ledger is at most that of the first event after it |
| Gaps.SkippedForGood | indexer/src/worker/ingest.ts:31-62 | once the next request starts after an event, no continuation that clears no checkpoint, in the worker or in a poller without START_LEDGER reading later tips, writes what that event would have written: every place of every table that no later event writes keeps its row, or stays without one, thresholds aside |
| Gaps.RowsDetermineTables | indexer/src/db/db.ts:131-191 | the places that lemma speaks of hold everything: tables equal at every place are equal, cached thresholds aside |
| Gaps.WorkerCanSkip | indexer/src/worker/ingest.ts:34-62 | one fixed cycle of the worker, answered with a blank cursor, after which under every continuation a registration is never recorded, although one in-order pass records it |
| Gaps.PollerCanSkip | indexer/src/ingest/poller.ts:29-46 | the same, with its own fixed cycle, for a poller without START_LEDGER that restarts at a later tip |
| Convergence.TurnKeeps | indexer/src/ingest/poller.ts:25-95 | every committed cycle that starts no later than the last page ended, every failed cycle, cleared checkpoint and threshold fill keeps the run invariant and loses no threshold |
| Convergence.RunKeeps | indexer/src/ingest/poller.ts:101-112 | so does every run of them |
| Convergence.Converges | indexer/src/ingest/poller.ts:25-112 | at-least-once delivery converges: after any gap-free run of either deployment, at the furthest position the tables are those of one in-order pass up to thresholds filled in, exactly those when none was, and no event the classifier throws on has been passed |
| Convergence.SafeIsGapFree | indexer/src/worker/ingest.ts:29-62 | for the worker and a poller with START_LEDGER, a run is gap-free when each committed response carried a cursor, or left an older one kept, or reached everything the node sees, or the restart ledger is fixed |
| Convergence.SafeRunsConverge | indexer/src/worker/ingest.ts:16-79 | convergence with that condition on the responses, which takes in the runs where the worker resumes after its last ledger |
| Convergence.ConvergesFromTip | indexer/src/ingest/poller.ts:32-46 | convergence for a poller without START_LEDGER, from the ledger of the tip its first committed cycle read, as long as no later cycle starts past the page before it |
| Convergence.HealthyCycle | indexer/src/worker/ingest.ts:29-72 | an undisturbed cycle commits exactly when its page holds no event the classifier throws on, and then advances by a full page or to the end of the log |
| Convergence.EventuallyConverges | indexer/src/ingest/poller.ts:101-112 | after any gap-free run from which the next request can resume at a closed ledger, as many undisturbed cycles as the log has pages reach its end if and only if no event of it makes the classifier throw, and the tables are then those of one pass over the whole log |
| Convergence.SafeRunsEventuallyConverge | indexer/src/worker/ingest.ts:16-79 | the same with the condition on the responses |
| Reads.EligibleIffLastRegistered | indexer/src/db/d1.ts:125-130 | a watcher is listed iff its last event is a registration, `registered_at` is the time of its first registration ever, and a known watcher last removed is marked with the time of that removal |
| Reads.CurrentRoundSplit | indexer/src/worker/routes.ts:93-97 | every eligible watcher is in exactly one of checked-in and not-yet-checked-in, as often as it was listed |
| Reads.CurrentRoundAnswer | indexer/src/api/routes.ts:42-64 | in terms of the log: not-yet-checked-in are exactly the watchers last registered who submitted no well-formed check for the SLA and round |
| CurrentRound.CurrentRoundOnChain | indexer/src/worker/routes.ts:89-97 | from contract events on the wire to the answer, round id in floating point and ids as text: checked in are exactly the watchers with a vote on the SLA in round seconds / length, not yet checked in exactly those the registry last registered without one, each once |
| Reads.CheckedInIff | indexer/src/db/d1.ts:132-141 | an address is checked in iff a well-formed check event of that address for the SLA and round was delivered |
| Reads.ChecksTable | indexer/src/db/db.ts:141-147 | however often events are delivered, the checks table holds exactly their check rows |
| Reads.VotesCountDistinctChecks | indexer/src/db/d1.ts:172-187 | the votes counted for a status are the distinct well-formed events that cast it, and none counts for both |
| Reads.VotesAddUp | indexer/src/db/d1.ts:172-187 | votes_up + votes_down is the number of distinct well-formed check events for the SLA and round, over all endpoint hashes |
| Pagination.PageMeaning | indexer/src/db/d1.ts:143-170 | a page is the newest `limit` keys below the cursor, nothing skipped, and hasMore says whether anything is left |
| Pagination.KeyLessMeans | indexer/src/db/d1.ts:152-159 | the order: the earlier close time is less, among equal times the smaller event id; a text is less than another when it is a proper prefix of it or has the smaller character where they first differ |
| Pagination.SortedUnique | indexer/src/db/d1.ts:152-164 | a set of keys has only one newest-first listing, so the query's order is fixed by its ORDER BY |
| Pagination.RequestKeeps | indexer/src/worker/routes.ts:141-192 | one request keeps the client's invariant while rows are inserted before it |
| Pagination.FollowWhileInserting | indexer/src/worker/routes.ts:141-192 | following next_cursor while rows are inserted: no row twice, newest first, only stored rows, and every row of the start once next_cursor is null |
| Pagination.FollowToTheEnd | indexer/src/worker/routes.ts:141-192 | on a table at rest it returns exactly the stored keys in order, in exactly max(1, ceil(n / limit)) requests |
| SettlementsRoute.LimitRange | indexer/src/api/routes.ts:90-101 | every number gives a 400 exactly when negative or fractional, and else a limit in 1..100: 20 for zero, NaN or no parameter, otherwise the number cut at 100 |
| SettlementsRoute.LimitOfText | indexer/src/worker/routes.ts:120-140 | for texts: a whole number in digits of any length gives itself, cut at 100, zero gives 20, and so do a blank, an absent and a non-numeric parameter |
| SettlementsRoute.LimitOfSigned | indexer/src/worker/routes.ts:118-139 | a minus sign before digits is a 400 unless they are zero; a plus sign changes nothing |
| JsNumbers.NumberOfDigits | indexer/src/worker/routes.ts:121 | `Number(...)` of a whole number in digits, in double arithmetic, is that number up to 2^53 and an integer not below 2^53 past it |
| JsNumbers.NumberOfSpelling | indexer/src/worker/routes.ts:119 | `Number` of every decimal spelling with a sign, a fraction and an exponent or without, and white space around it: the number spelled, with its sign, correctly rounded, or infinite past the largest double |
| JsNumbers.NumberOfRadix | indexer/src/worker/routes.ts:119 | `Number` of hexadecimal, octal and binary spellings: their value, correctly rounded, or NaN without digits or with one that is not of the radix |
| JsNumbers.RadixNext | indexer/src/worker/routes.ts:119 | that value: each digit adds to the radix times the value of those before it |
| JsNumbers.OverflowBound | indexer/src/worker/routes.ts:119 | numbers are infinite from the largest double and half the unit in its last place on |
| SettlementsRoute.KeysOnlyGrow | indexer/src/db/d1.ts:143-170 | a threshold fill does not change what is paged through and ingestion only adds to it |
| SettlementsRoute.FollowWhileIngesting | indexer/src/worker/routes.ts:116-195 | the same for settlements while the indexer ingests, re-delivers and caches thresholds between requests: nothing twice, newest first, only settlements of the SLA as stored at the end, and every one of the start once next_cursor is null |
| SettlementsRoute.WorkerFill | indexer/src/worker/routes.ts:149-169 | the worker makes one live read for each null row up to and including the first that succeeds, shows that threshold in every null row from there on, and stores it in one transaction |
| SettlementsRoute.NodeFill | indexer/src/api/routes.ts:129-143 | the Node server makes one live read iff some row has no threshold, and a failed read or store ends the request with nothing shown |
| SettlementsRoute.WorkerSettlements | indexer/src/worker/routes.ts:116-195 | a 400 exactly for a bad limit; else the answer lists exactly the newest settlements of that SLA below the cursor, up to the limit, each with its own row and votes, and a next cursor iff any is left, the last row's; the threshold reads, fills and the store are as WorkerFill says |
| SettlementsRoute.NodeSettlements | indexer/src/api/routes.ts:84-179 | the same listing on the Node server, where no row is answered without a threshold, one read is made iff a listed row has none, and a failed read or store is a 500 |
| LedgerClock.CloseTimeExact | indexer/src/api/ledgerInfo.ts:20-44 | a close time is accepted iff it prints a number of seconds whose milliseconds are a date, and the sequence is a positive safe integer; both come out exactly |
| LedgerClock.FloorOfRoundedQuotient | indexer/src/api/ledgerInfo.ts:57-59 | for integers whose sum stays within 2^53, flooring the rounded double quotient is integer division |
| LedgerClock.RoundIdExact | indexer/src/api/ledgerInfo.ts:57-59 | the floating-point round id is the integer quotient of the seconds, for every accepted close time, every positive round length and any tie rule |
| Rounds.InRoundIff | watcher/internal/round/round.go:16-23 | a moment is in a round iff it lies between that round's start and the next one's |
| Rounds.WaitLandsOnBoundary | watcher/internal/round/round.go:30-38 | the wait is positive, at most one round, and ends exactly at the start of the next round |
| Rounds.NextBoundaryIsFirst | watcher/internal/round/round.go:30-38 | the boundary a sleep aims at is the first one after the moment it was computed, and no other lies in between |
| Rounds.Daemon | watcher/cmd/watcher/main.go:63-80 | over the whole loop, with any check durations, late wake-ups and stops, each sleep aims at the first boundary after the work before it, the boundaries strictly increase, and within the rounds looked at the loop ends only when stopped |
| Rounds.WatcherAndIndexerAgree | watcher/internal/round/round.go:16-18 | watcher and indexer compute the same round id |
| Retry.Do | watcher/internal/retry/retry.go:42-68 | between 1 and max(1, MaxAttempts) calls, a result exactly when a call gave one, the k-th wait as scheduled, cancellation only from a wait |
| Retry.DoUncancelled | watcher/internal/retry/retry.go:42-68 | without cancellation it succeeds iff one of its allowed calls does, with the first success, and waits at most (attempts - 1) * MaxDelay in all |
| Retry.WaitsWithinCap | watcher/internal/retry/retry.go:47-65 | the k-th wait is min(BaseDelay * 2^k, MaxDelay) when BaseDelay is within the cap |
| ScVal.DecodeScValNative | watcher/internal/contract/contract.go:473-572 | the recursive decoder with its loops computes Decode: the value, the first error, or the panic at a map or vec whose inner pointer is nil |
| ScVal.DecodesIffEveryNodeOk | watcher/internal/contract/contract.go:473-572 | on trees of any depth it succeeds iff every node has a supported type with a payload and every map key is a symbol |
| ScVal.FailureHasCause | watcher/internal/contract/contract.go:479-510 | every failure comes from a node that is not fine, and it is a panic exactly when that node is a map or vec with a nil inner pointer: a tree without any is decoded or refused |
| ScVal.DecodedElems | watcher/internal/contract/contract.go:495-510 | a decoded vec holds its elements decoded, in order |
| ScVal.DecodedFields | watcher/internal/contract/contract.go:479-494 | a decoded map has exactly the entry names as fields, the last entry of a name deciding |
| ScVal.DecodedScalars | watcher/internal/contract/contract.go:473-568 | each scalar type decodes to the value it carries, an i128 from its two words |
| ScVal.DecodeInvertsEncoders | watcher/internal/contract/contract.go:388-402 | the decoder inverts the u64, bytes32 and status encoders |
| ScVal.Int128Bijection | watcher/internal/contract/contract.go:539-549 | every i128 has exactly one pair of high and low words |
| ScVal.Int128Range | watcher/internal/contract/contract.go:539-549 | every pair of words is an i128 |
| Submission.Retried | watcher/internal/contract/contract.go:226-237 | one RPC call under retry: identical calls, all before the last failed and not cut off, the last answered or the attempts used up |
| Submission.TriedOnce | watcher/internal/retry/retry.go:42-68 | that fixes the number of calls, and the last is answered iff some call within the attempts is, with no wait before it cancelled |
| Submission.SimulateOp | watcher/internal/contract/contract.go:241-279 | accounts are loaded until one is answered, and exactly then one unsigned transaction for the operation on that account is simulated; it yields the last answer iff that carries no error |
| Submission.SubmitAndPoll | watcher/internal/contract/contract.go:332-375 | the same envelope is sent at each attempt, an accepted send is polled for its hash and no other, success iff the last polled status is SUCCESS |
| Submission.SubmitCheck | watcher/internal/contract/contract.go:178-219 | for every pattern of failures each phase (load, simulate, load, send, poll) is entered exactly when the one before got what it needs and goes as retry makes it, and success is reported iff the trace ends in a poll answered SUCCESS |
| Submission.SendsFollowSimulation | watcher/internal/contract/contract.go:302-330 | every send comes after a simulation that succeeded and carries the one signed envelope prepared from it: the operation simulated, with the transaction data and, in order, the authorization entries of that simulation |
| Submission.PrepareMeans | watcher/internal/contract/contract.go:302-330 | a simulation prepares an operation iff it has no error and everything in it decodes, and then it is the same call with that data and those authorization entries |
| Submission.AnsweredIsSent | watcher/internal/contract/contract.go:178-219 | when every call is answered at once, every simulation prepares and no send is refused, the trace is load, simulate, load, one send and one poll |
| Submission.ReadContract | watcher/internal/contract/contract.go:281-296 | a read's calls and value are those of one simulate phase: the value is what the last simulation decodes to, None exactly when some step gives nothing |
| Submission.ReadMeans | watcher/internal/contract/contract.go:281-296 | a read sends nothing, stays within its attempts, and the value comes from a simulation of that very operation in its trace |
| Submission.Preflight | watcher/cmd/watcher/main.go:83-117 | the three reads are made one after the other, each exactly when the answer before allows it, and a round is cleared exactly when its number was read, this watcher has not voted and the committed hash is the configured one |
| Submission.AnsweredRoundClears | watcher/cmd/watcher/main.go:83-117 | on a network that answers every call at once, round u is cleared iff the first read is answered with u, the second with false, and the third with an SLA whose endpoint hash is the configured one |
| Submission.RunOneRound | watcher/cmd/watcher/main.go:83-137 | the trace is the three reads and then, exactly when they clear a round, the submission; every transaction sent is a signed submit_check on the registry with the watcher, the SLA, that round, the hash and Down or Up by the health check; success is reported iff the trace ends in a poll answered SUCCESS |
| Submission.RoundSendsOnlyCleared | watcher/cmd/watcher/main.go:83-137 | whatever a round sends, however often, is that one signed vote, with what a simulation of it supplied, after reads of the contract in the trace that gave this very round, no vote yet and an SLA committed to the configured endpoint |
| WorkerPool.MapWithLimit | apps/web/lib/use-provider-slas.ts:36-47 | the pool with its loops ends after exactly n settlements (none for limit 0) in the state the transition system PoolAfter has then, its trace of calls started and settled included; every call is started and settled, at every moment at most min(limit, n) are in flight, and slot i holds the value of call i |
| WorkerPool.PoolSafety | apps/web/lib/use-provider-slas.ts:36-47 | of that system under every schedule and after any number of settlements: calls are made in index order, each once; each settles at most once and only after it was made; at most min(limit, n) are in flight, then and at every earlier moment, and exactly that many while an index is left; it has ended iff n settlements have happened, and then every slot holds its own value |
| WorkerPool.DisciplinedMeans | apps/web/lib/use-provider-slas.ts:36-47 | a trace in which calls start in order below the cap and only calls in flight settle has each index started once, settled at most once, and in flight exactly in between |
| WorkerPool.TokenMetadata.GetTokenMetadata | apps/web/lib/use-provider-slas.ts:58-69 | a token is requested the first time it is asked for and never again |
| WorkerPool.AskInOrder | apps/web/lib/use-provider-slas.ts:58-79 | whatever order the workers ask in, each distinct token is requested once and all askers share the request |
| WorkerPool.FetchProviderSlas | apps/web/lib/use-provider-slas.ts:55-94 | for the SLAs whose own reads succeeded, asking for their tokens in any order: each distinct token is requested once; at most four reads are in flight at every moment; SLA i yields the error of its own reads, or the error or the metadata of the one request made for its own token; the outcomes split into two order-preserving lists whose lengths add up to the number of SLAs |
| Polling.EffectClosure.constructor | apps/web/lib/use-polling.ts:47-87 | starting the effect makes a request at once, hidden tab or not |
| Polling.EffectClosure.Finish | apps/web/lib/use-polling.ts:73-76 | a settled request leaves a live effect with exactly one timeout armed and a cleaned-up one with none |
| Polling.EffectClosure.FireTimer | apps/web/lib/use-polling.ts:47-58 | a timeout makes a request iff the tab is visible, and otherwise arms exactly one new timeout |
| Polling.EffectClosure.OnVisibilityChange | apps/web/lib/use-polling.ts:79-84 | a tab that becomes visible makes a request iff none is in flight, and leaves no second timeout behind |
| Polling.EffectClosure.Cleanup | apps/web/lib/use-polling.ts:89-93 | after cleanup nothing is armed, and a request in flight goes on |
| Polling.Life | apps/web/lib/use-polling.ts:47-93 | the closure driven through any steps of the browser makes exactly the requests, settlements and cleanup that CourseOf derives from those steps, and ends with the timeouts that leaves armed |
| Polling.CourseOrderly | apps/web/lib/use-polling.ts:47-93 | of CourseOf, for every sequence of steps: the effect starts with a request, requests never overlap, each settles once, none is made after cleanup; until cleanup there is always a request in flight or exactly one timeout armed, after it none is armed |
| Polling.NextKeeps | apps/web/lib/use-polling.ts:36-101 | every event of the browser keeps the invariant |
| Polling.PollingSafety | apps/web/lib/use-polling.ts:36-101 | in every run: data shown was returned by a call of the current fetcher; a live instance has one request in flight or exactly one timeout armed; after cleanup none is armed; no instance has two requests in flight |
| Polling.CancelledNeverWrites | apps/web/lib/use-polling.ts:60-72 | a call that settles after cleanup changes nothing |
| Polling.DataNeverGoesBack | apps/web/lib/use-polling.ts:36-101 | data shown later never comes from a call that started earlier |
| Polling.WhatIsShown | apps/web/lib/use-polling.ts:36-101 | what the component is given in every run, from its events and calls: data exactly when a call of the current fetcher returned it to the live effect and nothing but rejected calls of that fetcher came after; no longer loading from the first settlement on, with the message of a rejection; nothing before that, after a reset, for another fetcher or while disabled |
| Polling.RunStores | apps/web/lib/use-polling.ts:60-72 | the same of the stored state |
| Polling.LiveByRun | apps/web/lib/use-polling.ts:36-93 | the last run of the effect or unmount decides what polls: an instance for the fetcher rendered then, which made a request at once, or nothing |
| TokenAmount.ParseAmountMeaning | apps/web/lib/format.ts:46-62 | the parser accepts exactly plain decimals with at most `decimals` fraction digits, tells the two errors apart, and returns the number spelled times 10^decimals |
| TokenAmount.ParseFormat | apps/web/lib/format.ts:15-62 | printing, removing commas and parsing is the identity for every amount >= 0 and every number of decimals |
| TokenAmount.FormatInjective | apps/web/lib/format.ts:15-34 | at fixed decimals no two amounts, negative ones included, print the same |
| TokenAmount.FormatReparsesUnedited | apps/web/lib/format.ts:15-62 | the printed form parses as it stands iff 0 <= amount < 1000 * 10^decimals |
| TokenAmount.GroupedDigits | apps/web/lib/format.ts:23-24 | grouping adds commas only, on every fourth place from the right and nowhere else |
| TokenAmount.NoIdleZeros | apps/web/lib/format.ts:15-34 | a printed amount never ends in a zero of the fraction or in a dot, and its whole part has no zero in front |
| TokenAmount.FormatNegative | apps/web/lib/format.ts:15-34 | a negative amount prints as its magnitude after a minus sign |
| WhiteSpace.TrimRemovesOnlySpace | apps/web/lib/format.ts:47 | trimming removes white space at both ends and nothing else |
| WhiteSpace.SpaceCharacters | apps/web/lib/format.ts:47 | the 25 characters that count as white space, by code point |
| TokenAmount.ParseFormatBps | apps/web/lib/format.ts:68-72 | a printed percentage without its sign reads back as the same basis points |
| CreateSla.ReadQuorum | apps/web/lib/create-sla-validation.ts:69-78 | with `Number` in double arithmetic, a threshold is accepted iff it is a whole number from 1 to 2^32 - 1, as that number; otherwise the complaint fits the input |
| CreateSla.ReadUptime | apps/web/lib/create-sla-validation.ts:80-95 | a target is accepted iff it denotes 1 to 10000 hundredths of a percent, as that many; otherwise the complaint is the one AmountComplaint makes due, and no other is |
| CreateSla.ValidateStaticFields | apps/web/lib/create-sla-validation.ts:37-98 | each field is free of an error iff it holds something the contract accepts, every error is the one due to what was entered (for the endpoint: nothing, no http(s) prefix, or not a URL with a host), and the values handed on are what the inputs denote |
| CreateSla.ParsePositiveAmountMeaning | apps/web/lib/create-sla-validation.ts:106-129 | an amount is accepted iff it denotes a positive i128, as that value |
| CreateSla.ParsePositiveAmountProblem | apps/web/lib/create-sla-validation.ts:106-129 | which complaint an amount gets, in both directions: too many places iff it is a decimal with too many, or no decimal and holds the words "decimal places"; not a number iff it is no decimal and does not hold them; blank, zero and too large likewise |
| CreateSla.MessageNames | apps/web/lib/create-sla-validation.ts:89-94 | the test for those words on the thrown message, which quotes the input, succeeds iff there were too many places or the quoted input holds them |
| CreateSla.QuotedWordsMislead | apps/web/lib/create-sla-validation.ts:115-124 | whatever holds those words is no number, and is nevertheless said to have too many decimal places, as an amount and as an uptime target |
| CreateSla.TenDecimalPlaces | apps/web/lib/create-sla-validation.ts:115-124 | such an input: `10 decimal places` |
| CreateSla.ValidateAmounts | apps/web/lib/create-sla-validation.ts:132-153 | no error iff the inputs denote 0 < penalty <= bond <= 2^127 - 1, and then those two numbers; the penalty is said to exceed the bond only when it does |
| CreateSla.EndpointCommitment | packages/sdk/src/hash.ts:25-68 | the commitment is the SHA-256 of the domain prefix and the URL that stands in the input between ASCII white space, and there is one iff that begins with http(s):// and parses with a host |
| CreateSla.BuildsExactly | packages/sdk/src/sla-vault.ts:26-43 | the call is built iff every parameter is acceptable, for arbitrary parameters, and carries them unchanged with the one commitment given |
| CreateSla.RefusesFirst | packages/sdk/src/sla-vault.ts:26-139 | a refusal names the first unacceptable parameter, for the reason it is unacceptable |
| CreateSla.SubmitForm | packages/sdk/src/sla-vault.ts:132-140 | form errors iff the form is not complete; an error-free form is refused by the SDK only for the wallet's own address; otherwise the call carries exactly what the inputs denote |

## Left out

- ContractEvents.DocumentedFormatClassified: payloads outside the documented format are covered by Events only; there `String()` of a byte string is written as a Uint8Array prints, although under Node a topic that is a Buffer prints as text, and a threshold that is read through its text counts when the text spells an integer in decimal, so that exponents, fractions and hexadecimal are stored as null, and one beyond 2^53 is kept exactly.
- Ingestion.RunIngestionStep: the start ledger is a parameter; the default constant, the empty contract list error and the reading of environment variables are not modelled.
- Ingestion.RunOnce: the retention-window warning and the other log lines, the retries inside the RPC client, and events that the node has already pruned.
- Convergence.Converges: holds for gap-free runs, as the runs of Gaps.WorkerCanSkip and Gaps.PollerCanSkip show it must; it says nothing about `checkpoint.last_ledger`, which mixes event ledgers and chain tips.
- Convergence.EventuallyConverges: the undisturbed cycles get a cursor at the page's end, no store fault and a node that has seen the whole log; a page with an event the classifier throws on is never passed, so the log's end is then not reached.
- Pagination.FollowToTheEnd: cursors are keys; the JSON and base64url coding of a cursor is taken to be inverted by its decoding, and one that does not decode means the first page.
- SettlementsRoute.WorkerSettlements: routing, CORS, HEAD requests, the explorer link and `Number(round_id)` in the answer.
- SettlementsRoute.LimitOfText: says nothing of its own about fractional, exponent and radix spellings, which JsNumbers reads and SettlementsRoute.LimitRange then covers.
- Reads.EligibleIffLastRegistered: the order of rows by `registered_at` and the other unordered queries are any order.
- LedgerClock.RoundIdExact: the header fields are given as the double or string they arrive as; the JSON-RPC call is not modelled.
- Rounds.Daemon: times are at or after 1970, a wake-up is never early and the clock does not step back; int64 overflow of durations, and rounds so long that they saturate a Go duration, are out.
- Retry.Do: delays are unbounded naturals, so overflow of `delay *= 2` above 2^62 ns is out.
- Submission.SubmitCheck: building, encoding and signing a transaction cannot fail here, nor can the `must...` helpers panic; the time bounds and fee of an envelope are not modelled.
- Submission.ReadContract: a value at which the decoder panics (ScVal.FailureHasCause) ends the daemon; here the read fails.
- Submission.RunOneRound: the HTTP health check is its verdict, and its own timeout is not modelled.
- WorkerPool.MapWithLimit: for a function that does not reject, as its only caller passes; a NaN or negative limit is not modelled; a call settling and its worker going on are one step.
- WorkerPool.FetchProviderSlas: discovery through the indexer, the refresh hook and its retries; the order in which workers ask for metadata is a parameter of its own, not derived from the pool's interleaving.
- Polling.PollingSafety: React's batching and StrictMode double effects, and the error text and interval of a run; `refresh` may overlap an old request with a new one, so non-overlap is per instance.
- CreateSla.SubmitForm: reading the token's decimals and symbol, the review screen, wallet signing and the transaction's life after it is built.
- TokenAmount.ParseFormatBps: basis points are unsigned, as the contract stores them.
- Lifecycle events and provider SLAs as read routes, health and clock routes, response validators of the web client and configuration loaders: each is settled by reading one branch.
- Rows stored before the v0.2 migration without an endpoint hash.
- `useSettlementHistory`: its `reload` and `loadMore` may overlap, and then no gap-free claim holds.
- The Soroban contracts, which live in another repository.
