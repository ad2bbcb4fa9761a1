# The feed archive, modelled

A Dafny model of the parts of old-news where state accumulates over long runs, or where two
forms of one thing have to agree, with proofs of what they promise.

**Polls.** `RunLog` is a counter read off an append-only log instead of stored beside it.
`Backoff` is the one wait written in Python and in SQL, `Schedule` the feed row that moves by it,
truncation and all, and `Failing` what runs of failures leave of it. `Normalise` is the bytes a
fingerprint is taken of, and `PlainText` what normalising keeps of a text. `Ingest` is the item
and version tables and what keeps them sound, `Shortcut` runs of polls with and without the skip
of an unchanged body, and `Archive` the loops that do the writing. `Timeline` puts tables and
schedules together in one run.

**Sweeps, queue and breaker.** `Spacing` and `Sweep` queue a batch, `Jobs` is the queue as its
locks see it, and `Capture` the visit log, the sweep's query and the breaker that read it.
`Protocol` puts them together as interleaved steps: sweeps that choose and later queue, starts,
checks, requests, answers, aborts and the clock. Its invariants hold in every reachable state.
`ExactBound` builds the interleavings that reach its bound under any configuration. `Polling` is the
same for feeds, each moved by its schedule, and `ExactRun` reaches its bound. `Politeness` and
`PollPacing` say of every run, off the rows alone, when a page, a host and a feed are left alone.

**Carvings.** `Carving` is the upsert loop that carves text out of stored documents under one
parser after another: it drains, and it never hides text.

**Lists.** `Calendar`, `Numerals` and `Pieces` are dates, digits and splitting. `Cursor` is the
opaque cursor down to its base64, `Keyset` reading any sorted table a page at a time while it
changes, and `Paging` the archive's own keys and cursors over it.

**Queries.** `Links` is the client's tokeniser and its switches, `Query` the server's grammar,
`Periods` years and months in both, and `Printing` the agreement of the two.

**Round trips.** `Snippet` marks matches and unmarks them, `Opml` writes subscriptions out and
reads them in, `OpmlShape` says where each stands, `OpmlOrder` what that keeps of their order, and
`Dictionaries` keeps every stored body readable across retraining.

Classes and methods stand where the program updates in place or loops; each is proved against a
function, and the theorems are about those functions. `Wrappers` holds the two outcome types.

## Model

| member | source | states |
|---|---|---|
| `RunLog.ResetAtIsLatestReset` | src/old_news/db/base.py:79-84 | the reset a run is counted from is there exactly when a resetting row of the scope is, and is the latest of them |
| `RunLog.DerivedIsStored` | src/old_news/db/base.py:63-96 | the length read off the log equals the counter one would store, after every append of the log's life, exactly when every append came in clock order; for every log, scope and pair of predicates |
| `RunLog.ChronologicalRun` | src/old_news/db/base.py:63-96 | with strictly increasing stamps inside the scope, both facts of the derived run, its length and when it last grew, are those of the stored counter |
| `RunLog.SteppedOver` | src/old_news/db/base.py:73-75 | a row of another scope, or one that neither counts nor resets, moves neither fact whatever its clock says |
| `RunLog.RunIsStanding` | src/old_news/db/base.py:63-96 | the length is the number of counting rows of the scope later than every reset of it, and the stamp the latest of theirs |
| `RunLog.TieIsLost` | src/old_news/db/base.py:85 | a counting row stamped with the instant of the reset before it is counted by a stored counter and not by the query |
| `Backoff.WaitGrows` | src/old_news/politeness/backoff.py:26-48 | a longer run never waits less, in the Python spelling or the SQL one, and both stay inside the policy's bounds |
| `Backoff.PythonIsSqlCut` | src/old_news/politeness/backoff.py:31-48 | the integer wait computed in Python is the SQL wait truncated, for every policy and run |
| `Backoff.CeilingReached` | src/old_news/politeness/backoff.py:26-48 | from some number of failures on the wait is the maximum in both spellings, exactly when the factor is above one or the bounds leave nothing to grow by, for every factor there is |
| `Backoff.WholeWaits` | src/old_news/politeness/backoff.py:26-48 | with a whole factor both spellings are the base times that factor once for each failure, held inside the bounds |
| `Schedule.Feed.Reschedule` | src/old_news/ingest/service.py:298-313 | the columns a healthy poll writes are those of the specification of a poll, nothing else moves |
| `Schedule.Feed.RecordFailure` | src/old_news/ingest/service.py:162-192 | a failure is logged before it is counted, and the next poll waits what the publisher named or what the derived run says |
| `Schedule.Feed.RecordDisallowed` | src/old_news/ingest/service.py:137-147 | a robots refusal is logged and waits the backoff ceiling |
| `Schedule.Feed.RecordAnswer` | src/old_news/ingest/service.py:241-251 | an answer that is no document is a failure, with the wait a rate limit names |
| `Schedule.WaitWithinBounds` | src/old_news/ingest/service.py:137-207 | after any poll from any state and under any settings the wait lies between the smallest bound and the larger of the two ceilings and the ttl: with bounds in order, the minimum interval and the backoff ceiling or the ttl |
| `Schedule.TtlIsFloor` | src/old_news/ingest/schedule.py:56-60 | the ttl is a floor under every wait but a robots refusal's and a named rate limit's, and under those exactly when what they set is no shorter |
| `Schedule.RunAfterPoll` | src/old_news/db/models/poll.py:60-69 | a failed poll lengthens the derived run by one and any other outcome ends it |
| `Schedule.EveryPollIsLogged` | src/old_news/ingest/service.py:109-207 | every poll logs one row with how it ended and what was answered, and the feed has succeeded exactly when it reached a document |
| `Schedule.FirstPoll` | src/old_news/ingest/schedule.py:49-54 | as shipped a first poll leaves a feed 450 seconds when it finds something and 1125 when it does not |
| `Schedule.FailingWaitsLonger` | src/old_news/ingest/service.py:162-192 | while a feed keeps failing without naming a wait, whatever came back if anything did, each wait is at least the one before |
| `Schedule.QuietFeedsReachTheCeiling` | src/old_news/ingest/schedule.py:49-54 | quiet polls take every healthy interval to the ceiling exactly when one quiet poll lengthens the shortest by a whole second, or there is only one interval |
| `Schedule.BusyFeedsReachTheFloor` | src/old_news/ingest/schedule.py:49-54 | busy polls take every healthy interval to the floor exactly when the busy multiplier is below one, or there is only one interval |
| `Schedule.DefaultDrift` | src/old_news/ingest/schedule.py:33-60 | with the shipped settings and no ttl, twenty quiet polls reach six hours and seven busy ones reach five minutes from any healthy interval, truncation and all, and neither count can be one smaller |
| `Schedule.PollsDrift` | src/old_news/ingest/service.py:298-313 | read back off the feed's row each time, the interval after any run of quiet or busy polls is the one the drift says |
| `Schedule.DefaultPolls` | src/old_news/ingest/service.py:298-313 | under the shipped settings twenty quiet polls leave any healthy feed without a ttl waiting six hours and seven busy ones five minutes, and neither count can be one smaller |
| `Failing.RunIsConsecutive` | src/old_news/ingest/service.py:129-134 | a feed's consecutive failures are the failed rows of its log with no other outcome at or after them |
| `Failing.FailuresWait` | src/old_news/ingest/service.py:162-192 | after any run of failures that named no wait the feed waits what the base grows to over its whole run, those before it and these |
| `Failing.DefaultFailures` | src/old_news/ingest/schedule.py:43-48 | as shipped, the n-th failure in a row leaves a feed without a ttl waiting min(900 * 2^n, 86400) seconds |
| `Failing.NextIsLonger` | src/old_news/ingest/schedule.py:43-48 | below the ceiling the next failure waits longer exactly when one more factor passes the next whole second |
| `Failing.FailuresDouble` | src/old_news/ingest/service.py:162-192 | with a factor of two or more each failure of a run at least doubles the wait of the one before, or waits the ceiling |
| `Failing.FailingFeedsReachTheCeiling` | src/old_news/ingest/schedule.py:43-48 | under any settings a failing feed comes to wait the ceiling exactly when the bounds leave nothing else, the waits grow, or one of the first two is there |
| `Failing.RateLimitsAreObeyed` | src/old_news/ingest/service.py:195-207 | a 429 or 503 is waited out as it asks inside the bounds, or for the ceiling when unreadable; any other failed answer like none at all |
| `Normalise.Digested` | src/old_news/ingest/normalise.py:84-90 | the digest fed field by field is the digest of the fields' bytes each followed by the separator |
| `Normalise.NormalisedIsPlain` | src/old_news/ingest/normalise.py:77-81 | normalising leaves only single spaces, none at the ends, and no separator character |
| `PlainText.NormalisedIsWords` | src/old_news/ingest/normalise.py:77-81 | a normalised text is the words of what is left without its comments, in order, with one space between |
| `PlainText.CommentComesOut` | src/old_news/ingest/normalise.py:67-81 | a comment comes out up to the first place it closes |
| `PlainText.OthersStay` | src/old_news/ingest/normalise.py:67-81 | every other character stays, at an opening that never closes too |
| `Normalise.FieldsInjective` | src/old_news/ingest/normalise.py:84-90 | fields without the separator are told by the bytes they are joined into, however many they are |
| `Normalise.FingerprintIsFields` | src/old_news/ingest/normalise.py:93-95 | two items fingerprint alike exactly when their normalised fields are the same, for any numbers of fields |
| `Normalise.BoundariesCount` | src/old_news/ingest/normalise.py:84-90 | for any fields at all, no other fields of their number digest to the same exactly when there are fewer than two or none of them holds the separator |
| `Ingest.HeadIsNewest` | src/old_news/db/models/item.py:357-366 | in a chained table a version is superseded by nothing exactly when it is its item's newest: one head per item |
| `Ingest.ChainIsUnbranched` | src/old_news/ingest/store.py:189-217 | walking back from a head, each version supersedes the one before it, differs from it, and the first supersedes nothing |
| `Ingest.ChainIsWhole` | src/old_news/ingest/store.py:189-217 | that walk visits every version the item has |
| `Ingest.FirstOccurrencesKeys` | src/old_news/ingest/store.py:139-146 | the entries a document is read as carry each identity in it once |
| `Ingest.FirstOccurrencesAre` | src/old_news/ingest/store.py:139-146 | an entry is kept exactly when no earlier entry of the document shares its identity |
| `Ingest.UpsertSound` | src/old_news/ingest/store.py:148-181 | writing one entry keeps one item per feed and identity and one chain per item |
| `Ingest.UpsertCurrent` | src/old_news/ingest/store.py:148-181 | afterwards the entry's fingerprint is what its item's head says |
| `Ingest.UpsertElsewhere` | src/old_news/ingest/store.py:148-181 | every other identity, of any feed, looks as it did |
| `Shortcut.CountsAddUp` | src/old_news/ingest/store.py:123-186 | new, edited and unchanged counts add up to the first occurrences, and new and edited are the rows added |
| `Shortcut.ShortcutShows` | src/old_news/ingest/service.py:98-105 | on any sound tables skipping an unchanged body differs from applying it exactly when some entry of it is not at its head |
| `Shortcut.StorePollSettled` | src/old_news/ingest/store.py:59-90 | after any poll every first occurrence of the last stored document of every feed is at its head |
| `Shortcut.ShortcutIsInvisible` | src/old_news/ingest/service.py:98-105 | over every run of polls of any feeds, each served from one URL, skipping unchanged bodies leaves the same documents, items and versions as applying all, and the same new-item counts for the schedule to move by |
| `Shortcut.ShortcutNeverShows` | src/old_news/ingest/service.py:98-105 | the same of every archive that began empty |
| `Timeline.ScheduleIsTheSame` | src/old_news/ingest/service.py:209-313 | over every run of polls of any feeds, documents and failures and refusals alike, the skip leaves the same tables and every feed's row the same, its next poll with it |
| `Timeline.ScheduleFromNothing` | src/old_news/ingest/service.py:209-313 | the same of every archive that began empty, whatever its feeds' rows were |
| `Shortcut.EveryRunIsSound` | src/old_news/ingest/store.py:123-186 | from an empty archive every run of polls, from whatever URLs, keeps one item per identity and one unbranched chain per item |
| `Shortcut.EveryRunIsNeverAhead` | src/old_news/ingest/store.py:189-217 | no run of polls stores a version published after it was observed, whatever dates publishers give |
| `Shortcut.EveryVersionIsFound` | src/old_news/ingest/store.py:123-217 | in every run each version stored is the first entry of its identity in what some poll of its feed was served, dated as given or, if that was ahead, as found |
| `Shortcut.RedirectIsHidden` | src/old_news/ingest/service.py:98-105 | when the URL served changes under the same bytes the shortcut does hide entries: two polls that show it |
| `Archive.EntryStep` | src/old_news/ingest/store.py:140-160 | the snapshot taken before the loop still answers for an entry not seen before in it |
| `Archive.CountsAreRows` | src/old_news/ingest/store.py:131-186 | new, edited and churning entries are counted by the rows: no item of the identity, a head that says something else, a head of the feed at the same address |
| `Archive.Store.RecordDocument` | src/old_news/ingest/store.py:59-90 | a body is stored exactly when it differs from the last one of its feed |
| `Archive.Store.ApplyItems` | src/old_news/ingest/store.py:123-186 | the loop over a snapshot and a seen-set writes what looking up every first occurrence afresh would, and its counts add up to the entries parsed |
| `Archive.Store.StorePoll` | src/old_news/ingest/service.py:84-106 | the write half of a poll is the specification the runs are made of |
| `Spacing.Stagger` | src/old_news/politeness/spacing.py:12-22 | job k is held back one gap for each job of its own host before it in the batch |
| `Spacing.OneGapApart` | src/old_news/politeness/spacing.py:7-22 | any two jobs of one host in a batch are at least one gap apart, however hosts interleave |
| `Spacing.NoHostDelaysAnother` | src/old_news/politeness/spacing.py:12-22 | one host's delays are nothing, one gap, two gaps and so on, whatever else the batch holds |
| `Spacing.LongerDelayWins` | src/old_news/politeness/spacing.py:7-22 | a job and the next of its host are apart by the longer of our delay and the host's own, and by no more |
| `Sweep.Waiting.DeferEach` | src/old_news/tasks/sweep.py:10-41 | what is queued is what was not waiting, at its staggered time, and the count returned is how many |
| `Sweep.QueuedApart` | src/old_news/tasks/sweep.py:21-41 | two jobs one sweep queues for one host are at least one gap apart even when subjects between them were skipped |
| `Jobs.SelectStep` | src/old_news/tasks/sweep.py:10-41 | choosing a batch adds one pending job for each subject in it and none for any other |
| `Jobs.DeferStep` | src/old_news/tasks/sweep.py:29-41 | queueing a chosen subject never adds to what is pending for anyone: it moves a job on, or drops it |
| `Jobs.StartStep` | src/old_news/tasks/sweep.py:35-37 | a job that starts under its host's lock moves from waiting to running and changes no count |
| `Jobs.FinishStep` | src/old_news/tasks/sweep.py:35-37 | a job that ends takes one off its own subject's count and nobody else's |
| `Capture.KeepKnown` | src/old_news/extract/due.py:109-118 | of a batch, exactly the rows whose host is named and has had its rules asked for are kept, in order |
| `Capture.DeclinesMoveNothing` | src/old_news/extract/capture.py:164-168 | a visit we chose not to make, and a dead link, move neither the host's run nor its clock |
| `Capture.WaitOnlyShortens` | src/old_news/extract/breaker.py:15-22 | a host that is not refusing does not begin to as time passes with nothing recorded |
| `Capture.AlwaysProbeableAgain` | src/old_news/extract/breaker.py:15-22 | however long its run, a host is probeable again one maximum wait after its last failure |
| `Capture.ChronologicalHost` | src/old_news/db/models/page.py:116-128 | what one more visit does to its host's run, by outcome and policy |
| `Capture.ProbeDecides` | src/old_news/extract/breaker.py:15-22 | a tripped host is refused throughout the wait after a probe exactly when the probe failed |
| `Capture.DeadLinksStayDue` | src/old_news/extract/due.py:46-103 | with a dead link in the log its version is due, at any time, exactly when it would be without and the host that answered is not refusing |
| `Politeness.RefusingIsShut` | src/old_news/extract/breaker.py:15-22 | a host refuses exactly while its failed visits later than any success reach the threshold and one of them is not yet behind by the wait for as many as there are past it |
| `Politeness.DueWhenWaited` | src/old_news/extract/due.py:36-107 | a page is due exactly when it is eligible, tries are left, and every failed visit to it is behind by the backoff for as many as there were |
| `Politeness.ShippedWaits` | src/old_news/config/extract.py:36-53 | as shipped the waits are min(900 * 3^n, 86400) seconds for a page and min(1800 * 2^n, 86400) for a host past its threshold |
| `Politeness.ChosenHaveWaited` | src/old_news/extract/due.py:96-103 | in every run every version a sweep takes has waited out the backoff since each failed visit and has tries left |
| `Politeness.OpenHostsAreAsked` | src/old_news/extract/breaker.py:25-35 | in every run the check lets a host past and writes nothing exactly when it is not shut, so always below the threshold |
| `Politeness.RefusalsAreJustified` | src/old_news/extract/capture.py:150-196 | in every reachable state each refused visit was to a host shut at the time |
| `Politeness.RequestsWaitOut` | src/old_news/extract/capture.py:150-196 | in every reachable state each request left while its host was not shut |
| `Politeness.VisitsWereRequested` | src/old_news/extract/capture.py:150-220 | in every reachable state each visit answered or failed had a request go before it, to its host while that was not shut |
| `Politeness.TriesAreSpent` | src/old_news/extract/capture.py:23-30 | an answer spends a try of its version exactly when it is neither 200 to 299 nor 404 nor 410, and no other step spends any |
| `Politeness.CapturedByAnswers` | src/old_news/extract/capture.py:23-30 | a page is captured by an answer from 200 to 299 and by nothing else |
| `Politeness.WaitingKeepsItsTime` | src/old_news/tasks/sweep.py:29-41 | a waiting job keeps its time until it starts, whatever sweeps choose its version again |
| `Politeness.HostsAreFreed` | src/old_news/extract/capture.py:150-220 | a host is free for its next job exactly when the one it had has written its row or been cut off |
| `Protocol.QueueStep` | src/old_news/tasks/sweep.py:29-41 | every step of sweeps and jobs keeps one running job per host and one waiting per version, with no more sweeps in flight than allowed |
| `Protocol.LogStep` | src/old_news/extract/capture.py:82-126 | every step keeps the visit log in clock order within each host |
| `Protocol.RequestsStep` | src/old_news/extract/capture.py:193-208 | what the breaker answered a job still holds when it sends, and every request made stays justified by the log it was made under |
| `Protocol.TriesStep` | src/old_news/extract/due.py:96-103 | every step keeps each version's failed tries and pending jobs within the bound |
| `Protocol.EveryRunKept` | src/old_news/tasks/extract.py:20-44 | every reachable state of sweeps, starts, checks, requests, answers and clock ticks keeps all four invariants |
| `Protocol.TriesAreBounded` | src/old_news/extract/due.py:69-107 | in every interleaving a version collects at most max_failures failed visits, one more, and one for each sweep that can be caught between choosing and queueing |
| `Protocol.OverForGood` | src/old_news/extract/due.py:46-107 | once a version is captured or its tries are spent and its jobs are through, no run of steps visits it again |
| `Protocol.RequestsArePaced` | src/old_news/extract/breaker.py:15-22 | in every interleaving each request to a host at or over the threshold left at least the probe's wait after the last failure logged before it |
| `Protocol.FailedProbesAreApart` | src/old_news/extract/breaker.py:15-22 | two requests to a tripped host with a failure recorded between them are at least that wait apart, whatever was queued |
| `ExactBound.TheBoundIsReached` | src/old_news/tasks/sweep.py:29-41 | under every configuration, shipped breaker and waits included, every version with a host has an interleaving that takes it to that bound exactly, each choice made while the version was due |
| `ExactBound.OneOverWhenAtomic` | src/old_news/tasks/sweep.py:29-41 | max_failures and one is never passed exactly when no sweep can be caught between choosing and queueing, or there is no host to visit |
| `Polling.KeptStep` | src/old_news/ingest/service.py:41-56 | every step of poll sweeps and jobs keeps the log ordered and each feed's failure run and pending jobs within the bound |
| `Polling.FailureRunIsBounded` | src/old_news/ingest/service.py:41-56 | in every interleaving a feed's failure run stays within max_consecutive_failures, one more, and one for each sweep in flight |
| `ExactRun.TheRunIsReached` | src/old_news/ingest/service.py:41-56 | under every configuration that polls at all, any feed has an interleaving that reaches that bound exactly, chosen each time while due_polls would choose it, next_poll_at and all |
| `ExactRun.OneOverWhenAtomic` | src/old_news/ingest/service.py:41-56 | max_consecutive_failures and one is never passed exactly when no sweep can be caught between choosing and queueing, or the limit lets no feed be polled |
| `Polling.GivenUpForGood` | src/old_news/ingest/service.py:180-182 | once a feed's run has reached the limit and its jobs are through, no run of steps ever logs another poll of it, though nothing is stored to say so |
| `PollPacing.DueWhenTimely` | src/old_news/ingest/service.py:41-56 | a feed is due exactly when subscribed to, never answered 410, short of the limit in failed rows since any other, and past the time its row says |
| `PollPacing.ChosenMayBePolled` | src/old_news/ingest/service.py:41-56 | in every run whatever a sweep takes is such a feed |
| `PollPacing.PollsAreSpaced` | src/old_news/ingest/service.py:41-56 | in every run a feed polled is not taken again before the whole wait that poll set is over, nor before the least wait there is |
| `PollPacing.GoneForGood` | src/old_news/ingest/service.py:71-81 | a feed once answered 410 is never polled again in any run, whatever was queued |
| `PollPacing.GoneWhenAnswered` | src/old_news/ingest/service.py:241-251 | an answer of 410 is what makes a feed such |
| `PollPacing.ClocksAreTheirOwn` | src/old_news/ingest/service.py:209-251 | every running poll keeps the time it started as its own clock, whatever happens meanwhile |
| `PollPacing.WaitingKeepsItsTime` | src/old_news/tasks/sweep.py:29-41 | a waiting poll keeps its time until it starts, whatever sweeps choose its feed again |
| `Carving.TextsOf` | src/old_news/extract/feed.py:117-120 | the texts collected are, for each identity in the document, the first entry's |
| `Carving.Captures.Store` | src/old_news/extract/feed.py:103-156 | one pass over the wanted versions leaves the table the specification says, and counts them |
| `Carving.TextIsTheHeads` | src/old_news/extract/feed.py:115-120 | read by the parser that stored it, a document gives each head the text of the very entry the head was made from, repeated identities and all |
| `Carving.CapturedBodies` | src/old_news/extract/feed.py:124-148 | each wanted version gains its own text if it has none like it, and every other version's carvings are untouched |
| `Carving.CapturedIsDone` | src/old_news/extract/feed.py:58-82 | re-reading a document leaves it wanting nothing under that parser, text found or not, and every other document wanting what it did |
| `Carving.ContentIsShown` | src/old_news/extract/feed.py:112-156 | a wanted version gains its first entry's content, its summary where there is no content, and where there is neither keeps what it held |
| `Carving.OnlyTheseAreCarved` | src/old_news/extract/feed.py:170-188 | a pass takes exactly the document's versions that nothing supersedes and no row of which bears the parser's stamp, and leaves all others their texts |
| `Carving.RowsAreAdded` | src/old_news/extract/feed.py:103-156 | a pass moves nothing of an older row but its stamp, and each row it adds is of a version it took, under the document read |
| `Carving.DueAreTheNewest` | src/old_news/extract/feed.py:70-82 | the documents due are those with such a version, newest first |
| `Carving.SweepTakesItsBatch` | src/old_news/extract/feed.py:70-82 | one sweep takes exactly the newest limit documents off what is due and leaves the rest in order |
| `Carving.SweepsDrain` | src/old_news/extract/feed.py:70-82 | with nothing new arriving, after k sweeps what is due is what was due less k batches, down to nothing |
| `Carving.TextStaysShown` | src/old_news/extract/feed.py:129-148 | over every run of visits, parsers going forward or back, carvings are only added and a version once shown some text is never shown none |
| `Carving.NothingIsHidden` | src/old_news/extract/feed.py:129-148 | after any visits a version is shown text exactly when one of them wanted it and found it some |
| `Carving.NewestIsLatestParse` | src/old_news/extract/feed.py:145-148 | the text just found is what is shown exactly when it was never carved before the newest carving |
| `Carving.StampIsTaken` | src/old_news/extract/feed.py:58-67 | finding a text another parser carved takes that row from it: the version counts as carved by that parser still exactly when it has another row of it |
| `Calendar.DayBeforeIsNext` | src/old_news/ui/archive.py:181-184 | no date falls between a day and the day before it |
| `Calendar.InstantOrders` | src/old_news/ui/entries.py:159-164 | instants are in the order of the stamps' own parts, year first |
| `Cursor.PaddingRestored` | src/old_news/ui/cursor.py:22-27 | the padding stripped from base64 is exactly what -len % 4 puts back, for bytes of every length (sections 3.2, 4 and 5 of RFC 4648) |
| `Cursor.Base64Reads` | src/old_news/ui/cursor.py:28 | the lenient reader gives back the bytes the encoder was given, from anywhere in a text |
| `Cursor.IsoReads` | src/old_news/ui/cursor.py:21-33 | any datetime, naive or with any offset to the microsecond, reads back from its isoformat |
| `Cursor.IdReads` | src/old_news/ui/cursor.py:21-34 | a UUID reads back from its hyphenated text |
| `Cursor.RawSplits` | src/old_news/ui/cursor.py:21-28 | the four fields come apart as they went in: none can hold the separator |
| `Cursor.DecodeEncode` | src/old_news/ui/cursor.py:19-37 | decode of encode is the same triple for every pair of timestamps and every id, and is never the empty cursor |
| `Cursor.OnlyThisVersion` | src/old_news/ui/cursor.py:10-30 | a cursor cut under any version text is read exactly when it is this version, and otherwise is a bad cursor |
| `Keyset.PageIsTopmost` | src/old_news/ui/entries.py:145-172 | a page is in descending order, and every row left out of it is lower than all of it |
| `Keyset.FollowOwed` | src/old_news/ui/entries.py:155-172 | a traversal descends strictly and shows every row that held still, whatever changes between its pages |
| `Keyset.RestAfter` | src/old_news/ui/entries.py:155-160 | under the key of a row of the sorted list lies exactly the rest of the sorted list |
| `Paging.ValuesAreKeys` | src/old_news/ui/entries.py:130-142 | the values a cursor is cut on in Python are the keys SQL sorts by, in both orders |
| `Paging.PlacedWithinADay` | src/old_news/ui/entries.py:95-109 | a row is placed at its publisher's date, or a day before it was found when that date is earlier, or when it was found when there is none |
| `Paging.SortIsLawful` | src/old_news/ui/entries.py:155-160 | the row comparison is a strict total order on keys: no two different keys tie |
| `Paging.FollowIsKeyset` | src/old_news/ui/archive.py:131-139 | following opaque cursors is following their keys, and none the archive cut is ever refused |
| `Paging.TraversalIsComplete` | src/old_news/ui/entries.py:155-172 | following cursors to the empty one, under any limits, either order and any changes between pages, is strictly descending and shows every row whose keys hold still exactly once |
| `Paging.NewestFirst` | src/old_news/ui/entries.py:150-152 | however the archive changes between pages, a later entry is placed no later than an earlier one, then found no later, then of lower id, by the rows' own columns |
| `Paging.PageIsNewest` | src/old_news/ui/entries.py:150-172 | a page is the newest of the rows older than its cursor's, newest first and in full, with a cursor at its last exactly when something is left out |
| `Paging.StillTraversal` | src/old_news/ui/entries.py:163-172 | with nothing changing the pages laid end to end are the whole sorted list, in at most as many pages as rows |
| `Links.TermsAreStable` | web/src/lib/links.ts:53-62 | cutting, joining and cutting again gives the same terms for every query, open quotes included |
| `Links.TermsAreClean` | web/src/lib/links.ts:53-62 | no term repeats, opens with a space or holds a space outside quotes, and only the first can hold an odd quote |
| `Links.ToggledReads` | web/src/lib/links.ts:143-154 | switched off, exactly the narrowing's terms go; switched on with balanced quotes or onto nothing, the terms are those kept and then those added, and the query carries them |
| `Links.OnAndOff` | web/src/lib/links.ts:143-154 | an undated narrowing with none of its terms present and balanced quotes comes off again and leaves the query's terms joined |
| `Links.PeriodReplaces` | web/src/lib/links.ts:149-153 | switching a period on leaves exactly its own dates and every other term where it was |
| `Links.OpenQuoteStays` | web/src/lib/links.ts:143-154 | a word with unbalanced quotes, switched on in any query without a quoted phrase, comes off again exactly when that query was empty |
| `Links.OpenQuoteMayComeOff` | web/src/lib/links.ts:143-154 | balanced quotes are not needed either: an unbalanced word does come off again from itself said twice |
| `Links.ChipComesOff` | web/src/lib/links.ts:115-132 | the query a chip leaves has exactly the terms that were not on it |
| `Links.OneChipEach` | web/src/lib/links.ts:115-132 | every term of the query is on exactly one chip |
| `Query.Parse` | src/old_news/ui/query.py:110-156 | the loop reads a text token by token into the query the specification folds, and stops at the first token that cannot be read |
| `Query.ParsedCollects` | src/old_news/ui/query.py:110-156 | a text is read exactly when each of its tokens is, and then every name, state and word is under its own key in the order typed and the last of each bound stands |
| `Query.TermsAreWords` | src/old_news/ui/query.py:122-132 | a token makes terms of all its words in order, with its sign, and only quotes make a phrase |
| `Query.WordsAreRuns` | src/old_news/ui/query.py:15 | a text is its words and what stands between them: each word all word characters, the rest none, and something between any two |
| `Query.WordsAreTheOnly` | src/old_news/ui/query.py:15 | no other words have that property |
| `Query.FaultIsTheFirst` | src/old_news/ui/query.py:111-156 | the error is what is wrong with the first token that cannot be read: nothing after its key, a minus it does not take, or a state or date that is none |
| `Printing.QuotesHold` | src/old_news/ui/query.py:9-13 | what is in quotes stays one token, spaces and all, with its key and its minus, and means what is between the quotes |
| `Query.ParsedJoins` | src/old_news/ui/query.py:110-156 | reading two lists of tokens one after the other is reading the second into what the first made |
| `Query.ParsedGrows` | src/old_news/ui/query.py:110-156 | later tokens only add to terms, names and states |
| `Periods.RangeIsPeriod` | web/src/lib/links.ts:161-167 | the half-open range of a period holds exactly the days of that year or month |
| `Periods.MonthsTileTheYear` | web/src/lib/links.ts:161-167 | the twelve month ranges meet end to end and put every day of the year in exactly one |
| `Periods.BoundsAre` | web/src/lib/links.ts:161-167 | the two bounds a period's name is turned into |
| `Periods.SinceReads` | src/old_news/ui/query.py:80-89 | the first bound is read as the first day of the period |
| `Periods.YearsRead` | src/old_news/ui/query.py:80-89 | a bare year is read exactly from 1 to 9999, and one past a C int is raised over instead of refused |
| `Periods.UntilReads` | src/old_news/ui/query.py:80-89 | the second is read as the first day past it, and refused exactly when there is no such day |
| `Periods.PreviousUndoes` | web/src/lib/links.ts:94-98 | stepping back from the upper bound names the period again, in the rail's own spelling exactly from the year 1000 on |
| `Periods.MonthsInsideAYear` | src/old_news/ui/archive.py:177-198 | a range that takes in any day fails exactly when all its days are of the year 9999, there being no January past it; otherwise it is counted in months exactly when all its days are of one year, and then against that whole year |
| `Periods.PeriodsCountInMonths` | src/old_news/ui/archive.py:177-198 | every period of the rail is counted in months of the year that contains it, and in 9999 none can be |
| `Printing.NarrowingParses` | web/src/lib/links.ts:46-49 | each readable narrowing is cut into the terms it was spelled with and does to any query exactly what was meant |
| `Printing.PrintThenParse` | src/old_news/ui/query.py:110-156 | any list of readable narrowings, printed, joined and parsed, is exactly the names, states and half-open range they mean |
| `Printing.PeriodParses` | src/old_news/ui/query.py:110-156 | a printed period is read as its range, or refused exactly when there is no day past it |
| `Printing.OneNameParses` | web/src/lib/links.ts:46-49 | a publication's link asks for that publication exactly when something is left of its name and, quoted, it is on one line or, bare, holds no space only the server knows |
| `Printing.BothCutAlike` | web/src/lib/links.ts:53-62 | the client cuts what it printed into the very tokens the server does, each once |
| `Printing.BothKnowOperators` | web/src/lib/links.ts:66-67 | the client calls a term on one line an operator, and a date, exactly when the server reads it as one |
| `Printing.WithinIsSpelled` | web/src/lib/links.ts:161-167 | what within makes of a period's name is its two terms joined |
| `Printing.ClickNarrows` | web/src/lib/links.ts:143-154 | clicking something not there yet asks for all that was asked and for that besides, end to end through both languages |
| `Printing.ClickDates` | web/src/lib/links.ts:149-153 | clicking a period asks for what the undated query did within that period alone, whichever was on before |
| `Snippet.MarkedText` | src/old_news/ui/search.py:148-156 | the loop wraps exactly the matching words and leaves the rest as it is |
| `Snippet.UnfilteredIsWalk` | web/src/lib/snippet.ts:9-25 | splitting on the markers is reading them off one at a time |
| `Snippet.RunsAreTheWindow` | web/src/lib/snippet.ts:9-25 | the runs laid end to end are the window exactly when it held no opening marker of its own |
| `Snippet.HitsAreTheWords` | web/src/lib/snippet.ts:9-25 | what is highlighted is every word with a wanted prefix, in order, and nothing else |
| `Snippet.HighlightsAreTheHits` | src/old_news/ui/search.py:143-156 | a word is highlighted exactly when it is a whole word of the window that begins, folded, with a word asked for |
| `Snippet.FirstMatchIsFirst` | src/old_news/ui/search.py:165-176 | the match a fragment opens on starts no later than any other whole word that hits |
| `Snippet.ClippedKeepsWord` | src/old_news/extract/plain.py:17-21 | a word is still a word after the cut when its space-delimited token ends before it |
| `Snippet.CutOnAWord` | src/old_news/extract/plain.py:17-21 | a text too long is cut at its last space that fits, or where it stops fitting when there is none, and ends in an ellipsis; one that fits is left alone |
| `Snippet.WindowOpensOnAWord` | src/old_news/ui/search.py:159-181 | the run-up is never longer than it may be, opens after the first space in reach wherever there is one before the match, and is as long as it may be where there is none |
| `Snippet.FragmentShowsTheMatch` | src/old_news/ui/search.py:165-181 | when the token holding the first match ends inside the window the fragment highlights that match |
| `Opml.Listing.Walk` | src/old_news/subscriptions/opml.py:50-68 | the recursive walk appends exactly what the tree holds, in order, under the categories it is found in |
| `OpmlShape.FoundIs` | src/old_news/subscriptions/opml.py:50-68 | a subscription is found exactly at the end of a trail of outlines without feeds, under the nearest title above, as a feed or as a site to find one on |
| `Opml.Grouped` | src/old_news/subscriptions/opml.py:73-75 | grouping keeps each category's outlines in their order, and the categories in the order first seen |
| `Opml.Render` | src/old_news/subscriptions/opml.py:71-106 | the loops write the categories sorted, each with its outlines sorted |
| `Opml.SortedIs` | src/old_news/subscriptions/opml.py:92 | sorting by lower-cased title and then URL orders the outlines and loses none |
| `Opml.RoundTrip` | src/old_news/subscriptions/opml.py:50-106 | parse of render is the subscriptions grouped by category and sorted, empty titles replaced by the URL and nothing left to discover |
| `Opml.NothingLost` | src/old_news/subscriptions/opml.py:50-106 | every subscription comes back once for each time it went out, and no other |
| `Opml.OneTripIsEnough` | src/old_news/subscriptions/opml.py:71-72 | when every title is there a second trip changes nothing |
| `Opml.TwoTripsAreEnough` | src/old_news/subscriptions/opml.py:71-72 | two trips always reach a list every later trip leaves as it is |
| `OpmlOrder.SortedIsStable` | src/old_news/subscriptions/opml.py:92 | those that tie in lowered title and URL keep the order they came in |
| `OpmlOrder.OrderForgottenWhen` | src/old_news/subscriptions/opml.py:87-103 | every rearrangement of a list of subscriptions is written the same exactly when those of one category that tie in lowered title and URL are written alike |
| `OpmlShape.RenderedIs` | src/old_news/subscriptions/opml.py:87-103 | what is written at the top is each subscription of no category and one outline for each category, holding all of its subscriptions and no others |
| `Dictionaries.Library.Expand` | src/old_news/db/dictionaries.py:123-145 | reading a body back through the cache gives what the specification gives and caches what it says |
| `Dictionaries.Library.Cache` | src/old_news/db/dictionaries.py:148-151 | a dictionary already loaded is answered with, and one that is not is loaded |
| `Dictionaries.Library.SavePage` | src/old_news/extract/capture.py:110-123 | a page's bytes already held for its URL are pointed at, and stored otherwise |
| `Dictionaries.Library.StoreDictionary` | src/old_news/db/dictionaries.py:233-265 | an identical retrain moves the stamp and rewrites no body; any other adds a row |
| `Dictionaries.Library.Samples` | src/old_news/db/dictionaries.py:180-193 | what a dictionary is trained on is the bytes that were served |
| `Dictionaries.Expands` | src/old_news/db/dictionaries.py:123-145 | in any kept state a stored body expands to the bytes served, whatever is cached and whatever was trained since |
| `Dictionaries.SavedUnderTheNewest` | src/old_news/db/dictionaries.py:95-120 | a body is stored under the dictionary last trained for its scope and key, and under none exactly when there is none |
| `Dictionaries.ReadsAreCached` | src/old_news/db/dictionaries.py:131-151 | a body once read reads the same again with no row to look its dictionary up in |
| `Dictionaries.TrainedKept` | src/old_news/db/dictionaries.py:233-265 | storing a dictionary leaves every body readable and every cached dictionary some row's |
| `Dictionaries.EveryRunKept` | src/old_news/db/dictionaries.py:95-151 | every run of saves, shared bodies, old rows, reads, retrains and restarts keeps the cache in agreement with the rows and every body recoverable |
| `Dictionaries.EveryBodyReadsBack` | src/old_news/db/bytes.py:12-28 | in every reachable state every stored body reads back as the bytes that were served, whichever row of its name is looked up (frame header per section 3.1.1 of RFC 8878) |
| `Dictionaries.BodiesAreNotRewritten` | src/old_news/db/dictionaries.py:238-256 | a body once stored is the same after any further run |
| `Dictionaries.SharedNameMisreads` | src/old_news/db/dictionaries.py:131-145 | with a lawful library and two dictionaries of one name, whichever row the lookup takes misreads one of two bodies saved under them: what the naming assumption rules out |
| `Dictionaries.SharedNameReads` | src/old_news/db/dictionaries.py:131-145 | for every lawful library the lookup may answer both bodies from either row, and the row taken reads both back exactly when its dictionary makes of the other's frame what was served |
| `Dictionaries.AnyRowWillDo` | src/old_news/db/dictionaries.py:131-145 | in every kept state the answer does not depend on which row of a name the unordered lookup takes |
| `Dictionaries.Train` | src/old_news/db/dictionaries.py:196-230 | the dictionary trained is strictly better than plain zstd on the newest sample, no worse than any on the ladder and first among equals, and there is none exactly when too few samples are there or none beats plain zstd |

## Left out

- HTTP, DNS, SMTP, Postgres and SQL text: tables are maps and sequences and each transactional function is one step; a row's id is its place in its table.
- feedparser, trafilatura, lxml, protego, zstd and casefold are parameters, with the laws they are relied on for written as hypotheses. A SHA-256 is told apart by what went in.
- XML escaping and parsing: OPML is a tree of outlines; control characters no XML can hold are not modelled, nor is the size cap.
- Protocol.TriesAreBounded: max_failures and one holds only of sweeps that choose and queue in one transaction. `due_captures` and the deferrals are separate ones, so the bound has one more for each sweep that can be between the two, and `ExactBound.TheBoundIsReached` shows it cannot be lowered; `ExactBound.OneOverWhenAtomic` says exactly when the smaller one holds. `max_failures` below one is one, a first visit being free.
- Polling.FailureRunIsBounded: max_consecutive_failures and one holds only of sweeps that choose and queue in one transaction, `ExactRun.TheRunIsReached` shows that no less than one more for each sweep between the two will do, and `ExactRun.OneOverWhenAtomic` says exactly when the smaller bound holds.
- Protocol.RequestsArePaced: the `www` fallback and redirects are part of the one request, and a host's rows are taken to be stamped in the order they are stored. Image and robots fetches do not go through the breaker.
- Capture.ProbeDecides: the configuration says a tripped host gets one capture per interval. The code paces only failures: a probe that ends in a dead link or a refused redirect leaves the probe due, and the next request may follow at once.
- Capture.DeadLinksStayDue: a 404 or 410 is neither a success nor a counted try, so the code offers such a version again at every sweep; the tries that are bounded are the failed ones.
- Schedule.TtlIsFloor: a robots refusal and a rate limit that named its wait ignore the feed's ttl; the code is followed.
- Schedule.QuietFeedsReachTheCeiling: truncation holds an interval still where a quiet poll adds less than a second to it; the condition excludes exactly those settings.
- Arithmetic on waits is over the reals, so the rounding of floats and of timestamps is not modelled; integer truncation is.
- Shortcut.ShortcutIsInvisible: each feed is served from one URL. When that changes under the same bytes the shortcut does show, as `Shortcut.RedirectIsHidden` does.
- RunLog.ChronologicalRun: stamps increase strictly within a scope. Two rows of one transaction share theirs, and `RunLog.TieIsLost` is what that costs.
- Normalise.BoundariesCount: identities are digests of fields nobody normalised, so they rest on none of those holding the separator.
- Carving.NewestIsLatestParse: that the newest carving is the current parse is false when a text comes back; the condition is stated. Carvings are modelled by their text's bytes, their compression being part of `Dictionaries`.
- Carving.StampIsTaken: two parsers taking turns each leave the other's sweep with the versions they agree on; draining is proved for one parser.
- Cursor.DecodeEncode: `Decode` reads the forms `encode` writes, of any datetime. Other spellings `fromisoformat` and `UUID` would take are refused by the model.
- Paging.TraversalIsComplete: the archive's own stamps are in UTC, and a cursor that holds another clock, which no page gives out, is refused by the model. A snapshot is the filtered rows one request sees. Our own clock is taken to be past the year one, so a day can be taken off it.
- Query.Parse: a date with a number past a C int is an error nothing in the code catches; the model gives it an outcome of its own.
- Links.OnAndOff: with unbalanced quotes a narrowing need not come off, and `Links.OpenQuoteStays` says exactly when over queries that hold no quoted phrase. Where one holds a phrase, balanced quotes are enough but not needed, by `Links.OpenQuoteMayComeOff`, and what decides is how the phrase is cut at its inner spaces.
- Links.PeriodReplaces: the labels of chips, which are the locale's, are left out.
- Periods.BoundsAre: a name is four digits, or four and two. JavaScript's `Number` takes other spellings no rail sends.
- Printing.OneNameParses: the two languages know different whitespace; the names that do not come through are exactly characterised instead of excluded.
- Periods.MonthsInsideAYear: over a range inside 9999 the code raises; the model gives that an outcome of its own.
- Snippet.FragmentShowsTheMatch: the window is free of the opening marker, and `flatten` is not modelled: a reading is already one line.
- Opml.RoundTrip: outlines are stripped and their URLs not empty. That the order of subscriptions is forgotten is false of tied ones, and `OpmlOrder.OrderForgottenWhen` says exactly when.
- Dictionaries.EveryBodyReadsBack: a dictionary's name is taken to determine its bytes, trained ones to have names, and rows from before compression never to open with the magic. Deleting a feed and its dictionaries is not modelled.
- Archive.Store.StorePoll: columns of a version that no other column depends on, and refreshing a feed's title and metadata, are left out.
- Offset paging in `search.deep`, facet counts, URL canonicalisation, images, extraction, Kindle, mail, the admin screens and infrastructure: left out, as library behaviour or easy claims.
