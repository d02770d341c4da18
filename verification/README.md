# W2L: verified models of its protocols and its pixel scan

W2L reads web pages for agents. This project models the parts of it whose correctness is spread over many steps, and
proves what each promises over every input, history or interleaving:

- **Jobs** (`Lifecycle`, `LifecycleInvariant`, `RunSteps`, `Reachability`, `LifecycleSafety`, `Cancellation`, `LateAppend`, `Admission`,
  `Closing`, `EngineProcess`): batches and crawls as durable rows plus the runs of one process, under start, append, cancel,
  resume, run end, shutdown, crash and restart. `Lifecycle` is the transition system; `EngineProcess.Process` is the engine's
  maps and rows, each method tied to the step it performs.
- **Submissions, overrides, cache, hand-off of a batch** (`Submissions`, `Overrides`, `PageCache`, `BatchHandoff`): the
  idempotency keys, the URL list with its robots overrides, the page cache and the items handed to a person.
- **A page handed to a person** (`ChromeHandoff`): the polling loop against a predicate on the history of polls.
- **The DevTools connection** (`DevTools`): commands, answers, deadlines and loss, each command's promise settled once.
- **The rate limit and the crawl status pages** (`Limiter`, `Paging`).
- **The glyph scan and the ridge** (`Separable`, `BandedScan`, `GlyphFacts`, `GlyphReading`, `CloseGlyphs`, `Ridge`): strided filters with running
  sums, overlapping bands, peaks, and the constrained search along a ridge.
- **The file store** (`FileStore`): partial write and rename under concurrent savers, failures and a crash.

`Options` and `Sequences` hold what several modules share. Times are whole milliseconds, floats are exact reals, digests
are injective, and what the browser, the network and the URL parser answer are inputs.

## What the proofs found

Where a promise fails the code is modelled as it is, a concrete run shows the failure, and the exact condition is proved.

- A cancellation is undone in two ways, and `Cancellation.CancelHoldsExactly` says exactly when it holds for good. One that
  lands between a run's decision how to end and the write of that end is overwritten
  (`packages/runtime/src/orchestrator.ts:443-462`, the run `CancelLostHappens`). One that lands while an append to the batch
  is being counted is overwritten by the append's row, even after the cancellation was announced
  (`packages/api/src/engine.ts:1613-1626`, the run `CountedAppendUndoesCancel`).
- The comment at `packages/api/src/engine.ts:1432` leaves a cancellation's event to the run in flight. It is never sent when
  the run had decided another end or read another status to announce (`CancelUntoldHappens`), nor when a counted append
  reopens the row before the run reads it (`CountedAppendSilencesCancel`). `Cancellation.CancelToldExactly` gives the exact
  condition over the whole engine.
- An append that lands while a completed batch is announcing its end (`packages/api/src/engine.ts:974-978`) leaves the row
  pending with no run until the next start or append (`LateAppendHappens`), and takes an earlier append with it whose URLs
  the same run was to be launched again for (`SecondAppendStrandsTheFirst`). `LateAppend.StrandsExactly` and
  `NeverStrandedExactly` say exactly which actions leave a batch so; without them, and without a loss, a batch that has come
  to rest has a step for every URL, or was cancelled, failed or cut (`BatchServed`).
- A URL is lost exactly when the process dies, or the store throws as the relaunched run opens, while a batch's row says
  completed and a URL has no step: `LossExactly`, `NoUrlLost`, and the run `UrlLostHappens`. Restart looks at unfinished rows only
  (`packages/api/src/engine.ts:1000`).
- The active-batch limit does not bound the batches active now because a run's own write made them so
  (`Admission.LimitHolds`). `LimitKeptExactly` says when a whole run keeps to it; `RelaunchPassesLimit` and
  `CountPassesLimit` are runs that do not.
- `packages/api/src/engine.ts:583-584` says there is no await between claiming a key and recording it. With an active-batch
  limit a batch waits for the count there, and an append waits there for its reads always; a crawl sent under the same key
  meanwhile starts a second job: `Submissions.OnePerKeyExactly`, `BatchCrossingHappens`, `AppendCrossingHappens`. Where
  nothing waits, or no crawl comes between, keys are idempotent: `SameKindHasOne`.
- Following `next` misses a step written in the cursor's own millisecond under a smaller random id, and nothing else:
  `Paging.FollowingNextIsExact`, `LateOnlyInTheSameMillisecond`, and the run `LateRowHappens`.
- The max filter starts from 0, so it gives the maximum exactly where the square holds a value that is not negative:
  `Separable.MaxExactly`. The scan uses it on averages of absolute values.
- Two kept glyphs can be closer than 6 px, only when the first was no longer the last of its 8 px cell:
  `GlyphFacts.FoundExactly`; of one-pixel stripes the scan keeps such a pair (`CloseGlyphs.KeptCloser`).

## Model

| member | source | states |
|---|---|---|
| LifecycleInvariant.TaskStepKeeps | packages/api/src/engine.ts:862-988 | every step of a run keeps a batch's list bounded and without repeats, its steps within the list, and what its row may say in each phase of its run; which step sets what is `RunSteps` |
| LifecycleInvariant.ApplyKeeps | packages/api/src/engine.ts:1188-1638 | every request, run step, count step, shutdown and restart keeps the invariant of the whole engine |
| LifecycleInvariant.CountDecides | packages/api/src/engine.ts:1822-1828 | fewer steps than URLs means exactly that some URL has no step |
| RunSteps.BecomesExactly | packages/runtime/src/orchestrator.ts:442-494 | one action gives a row another status in exactly the named cases; it says failed exactly by the write of an end decided as failed or by a run that throws with the row unfinished |
| RunSteps.DecidesExactly | packages/runtime/src/orchestrator.ts:442-446 | a run decides its end exactly when its workers stop: cancelled before the shutdown before a failure, a budget hit no failure, nothing else changed |
| RunSteps.RunEndsAs | packages/runtime/src/orchestrator.ts:442-468 | whatever happens between that decision and its write, but a crash, the row says what was decided; over budget with nothing failed, cancelled or shut down it says completed and is marked as cut |
| RunSteps.FailedOnlyByFailure | packages/runtime/src/orchestrator.ts:442-468 | over any run from the start a row says failed only after its run's opening failed or its workers stopped on a failure, not told to stop |
| RunSteps.RecordsExactly | packages/runtime/src/orchestrator.ts:295-400 | a step is recorded exactly for a URL the run was given while nothing told it to stop, and none is taken away |
| RunSteps.CutExactly | packages/runtime/src/orchestrator.ts:446-468 | the mark of a cut attempt is set exactly by the end of a run over budget and cleared exactly by the next run or its end |
| RunSteps.SeedsExactly | packages/runtime/src/orchestrator.ts:256-283 | the list a run works on is the row's as it opened, or as it last read it while not told to stop |
| RunSteps.LaunchesExactly | packages/api/src/engine.ts:862-1011 | a run is launched in exactly four ways, with a signal not raised: restart, relaunch for appended URLs, resume, an append to an idle task |
| RunSteps.SignalExactly | packages/api/src/engine.ts:1419-1434 | a run's signal is raised exactly by cancelling an unfinished task whose run has not written its end |
| RunSteps.TellsExactly | packages/api/src/engine.ts:971-985 | one action announces one end, with one status, in exactly the named cases |
| RunSteps.ListExactly | packages/api/src/engine.ts:1615-1626 | a list grows by an append's URLs, at its end, and by nothing else |
| RunSteps.AddsExactly | packages/api/src/engine.ts:1188-1326 | a task is added exactly when one is submitted and let in: pending, without a step, launched if a channel is offered |
| RunSteps.CountExactly | packages/api/src/engine.ts:1293-1295 | a submission waits for the count exactly when the limit asks it to, and is over when decided or the process is gone |
| RunSteps.ReadsExactly | packages/api/src/engine.ts:1293-1295 | the count adds one for exactly the unfinished batches among the rows it reads |
| LifecycleSafety.LossExactly | packages/api/src/engine.ts:971-985 | one action leaves a completed, uncut, idle batch with a URL without a step if and only if it is a crash, or a failed opening, while such a batch is exposed |
| LifecycleSafety.NoUrlLost | packages/api/src/engine.ts:971-1011 | over a whole run no URL is ever lost if and only if none of those actions happens |
| LifecycleSafety.EveryUrlAccounted | packages/api/src/engine.ts:995-1011 | from the start, after any run without them, each URL of each batch has a step, or a run in flight, or a row restart will run, or a cancelled, failed or cut batch |
| LifecycleSafety.UrlLostHappens | packages/api/src/engine.ts:1000 | a run from the start, an append and a crash among it, loses a URL |
| LifecycleSafety.ListOnlyGrows | packages/api/src/engine.ts:1604-1626 | every action keeps the old list as a prefix, at most 1000 long and without repeats |
| LifecycleSafety.EndsHold | packages/api/src/engine.ts:1609-1626 | a completed crawl stays so; a completed batch leaves completed only with a URL outstanding, by an append or the run that fetches it; a failed batch only by a counted append |
| LifecycleSafety.CompletedCrawlForGood | packages/api/src/engine.ts:1929-1935 | a completed crawl is completed after every sequence of actions |
| LifecycleSafety.AnnouncedEndsHold | packages/api/src/engine.ts:726-737 | every terminal event carries a terminal status, and a crawl announced completed or cancelled has that status still |
| LifecycleSafety.EventsTellTheRow | packages/api/src/engine.ts:726-737 | over any run from the start every event, of a batch or a crawl, carries a terminal status its own row had by then |
| Cancellation.CancelUndoneExactly | packages/runtime/src/orchestrator.ts:442-468 | a cancelled row stops being cancelled in exactly two cases, both writes decided before the cancellation |
| Cancellation.CancelHoldsExactly | packages/api/src/engine.ts:1419-1439 | a cancelled task stays cancelled over every continuation if and only if its run has not decided to end otherwise and no append to it is being counted below the limit |
| Cancellation.SettledForGood | packages/api/src/engine.ts:1419-1439 | such a cancellation outlasts every sequence of actions |
| Cancellation.CancelLostHappens | packages/runtime/src/orchestrator.ts:442-468 | a run from the start in which a batch cancelled after its end was decided ends completed |
| Cancellation.CountedAppendUndoesCancel | packages/api/src/engine.ts:1613-1626 | a run from the start in which a batch cancelled, idle and announced as cancelled is made pending again and launched by an append counted meanwhile |
| Cancellation.CancelToldExactly | packages/api/src/engine.ts:1425-1434 | over every continuation of the engine without another cancellation of the task: once its run is no longer on its way to tell, the cancellation of an active task was announced, once and as the first end, if and only if it met the run in time and nothing spoiled the announcement first |
| Cancellation.TellingStep | packages/api/src/engine.ts:971-985 | one action keeps a run telling and says nothing, or ends it with the cancellation announced, or is one of the three that spoil it: a restart, a counted append that reopens the row, a failed opening of a row so reopened |
| Cancellation.CancelUntoldHappens | packages/api/src/engine.ts:974-978 | a run from the start in which a cancellation comes too late: the row cancelled, nothing in flight and only a completed end announced |
| Cancellation.CountedAppendSilencesCancel | packages/api/src/engine.ts:1613-1626 | a run from the start in which one in time is never announced: a counted append reopens the row before the run reads it |
| LateAppend.StrandsExactly | packages/api/src/engine.ts:971-1011 | one action of the engine strands a batch if and only if an append, counted or not, lands on its run past the last look or on a batch no run can be launched for, its workers stop for a shutdown, a restart does not launch its active row, or it is new and its launch throws |
| LateAppend.NeverStrandedExactly | packages/api/src/engine.ts:971-1011 | over a whole run of the engine a batch is never stranded if and only if none of these happens to it |
| LateAppend.BatchServed | packages/api/src/engine.ts:971-978 | after any run from the start in which nothing strands a batch and no URL is lost, the idle batch has a step for every URL it accepted, or was cancelled, failed or cut |
| LateAppend.StrandedUntilHelped | packages/api/src/engine.ts:1626-1632 | a stranded batch gets no step and stays so exactly until a cancellation, an append or a restart takes it out |
| LateAppend.WaitsExactly | packages/api/src/engine.ts:971-978 | left to its run alone, with no shutdown, a batch can come to wait if and only if its row is active past the run's last look, or a pause is about to be written; then every end of the run comes to that |
| LateAppend.AppendWaitsExactly | packages/api/src/engine.ts:1626-1632 | the same for the batch an append has just been accepted by: left to its run alone it can come to wait if and only if the append met the run too late, and then none of the new URLs gets a step |
| LateAppend.AppendServed | packages/api/src/engine.ts:971-978 | an append in time is served when its run is left alone: every URL has a step, or the batch was cancelled, failed or cut (`LateAppend.BatchServed` says it over the engine) |
| LateAppend.LateAppendHappens | packages/api/src/engine.ts:1596-1638 | a late append is accepted in a run from the start |
| LateAppend.SecondAppendStrandsTheFirst | packages/api/src/engine.ts:974-978 | a run from the start in which a late append strands an earlier one that was in time, though nothing failed, was cancelled or cut |
| Admission.LimitHolds | packages/api/src/engine.ts:1277-1326 | in every reachable state the active batches, but for those active now because a run revived them, are within the limit |
| Admission.LimitKeptExactly | packages/api/src/engine.ts:1293-1295 | over a whole run the limit is never passed if and only if no run revives a batch at a full limit and no submission is written at a full limit after a revival of a row its count had read |
| Admission.PassesExactly | packages/api/src/engine.ts:1277-1326 | one action passes the limit in exactly those two cases |
| Admission.AppendAddsNone | packages/api/src/engine.ts:1609-1613 | an append, counted or not yet, leaves the number of active batches as it is |
| Admission.CountComplete | packages/api/src/engine.ts:750-761 | a count read row by row, with runs and crawls going on meanwhile, covers at its end every active batch but those revived since their row was read |
| Admission.CommitAdmits | packages/api/src/engine.ts:1293-1295 | a count below the limit leaves room for the one submission it admits, revived batches apart |
| Admission.RevivesExactly | packages/api/src/engine.ts:971-975 | a run revives a batch exactly when it reopens a completed one for appended URLs or writes a pause over a cancellation |
| Admission.RelaunchPassesLimit | packages/api/src/engine.ts:974-975 | from the start, with a limit of one, a relaunch makes two batches active |
| Admission.CountPassesLimit | packages/api/src/engine.ts:1293-1295 | from the start, with a limit of one, a submission counted before a relaunch makes two batches active |
| Closing.RelaunchOnlyForAppended | packages/api/src/engine.ts:1813-1828 | a relaunch follows only a completed, uncut end, for URLs past what the ending run had seeded |
| Closing.RelaunchRecords | packages/api/src/engine.ts:971-975 | a relaunched batch that comes to write a completed, uncut end has recorded at least one step more, whatever else went on |
| Closing.InternalUses | packages/runtime/src/orchestrator.ts:266-418 | every step a run takes by itself, relaunch included, uses up a measure of URLs and phases |
| Closing.OwnRunEnds | packages/api/src/engine.ts:1563-1570 | with no new requests all runs together take at most as many steps as the measure says |
| Closing.StuckExactlyWhenIdle | packages/api/src/engine.ts:1563-1570 | no run can take a step any more if and only if nothing is in flight |
| Closing.CloseReachesIdle | packages/api/src/engine.ts:1563-1581 | however the runs interleave, the loop in close ends with nothing in flight |
| Closing.FuelBound | packages/api/src/engine.ts:1605 | one batch's share of the measure is bounded by two passes over 1000 URLs |
| EngineProcess.Process.LaunchTask | packages/api/src/engine.ts:862-988 | a launch adds the task's signal and in-flight entry, or throws and changes nothing; no other task changes |
| EngineProcess.Process.ActiveBatchCount | packages/api/src/engine.ts:750-761 | the loop over the rows counts the pending, running and paused batches |
| EngineProcess.Process.AppendToBatch | packages/api/src/engine.ts:1596-1638 | each refusal exactly when its check is the first to fail, with the first repeated URL named; otherwise the append's step of the transition system, the exception of a launch that throws included, and nothing else changes |
| EngineProcess.Process.CancelCrawl | packages/api/src/engine.ts:1419-1439 | the cancellation's step; the end is announced here if and only if the row was active and no run is in flight (whether a run in flight announces it: `Cancellation.CancelToldExactly`) |
| EngineProcess.Process.ResumeCrawl | packages/api/src/engine.ts:1441-1460 | the resume's step, each refusal if and only if its reason is the first to hold; a launch that throws leaves the row as it was |
| EngineProcess.Process.OpenRow | packages/runtime/src/orchestrator.ts:471-494 | the run throws at a cancelled row, else the row says running, uncut, and the run has its list |
| EngineProcess.Process.SeedAppended | packages/runtime/src/orchestrator.ts:256-283 | the list is read again unless the run was told to stop |
| EngineProcess.Process.StopWorkers | packages/runtime/src/orchestrator.ts:442-446 | the end is decided by the signal and the row, then the shutdown, then the failure |
| EngineProcess.Process.WriteEnd | packages/runtime/src/orchestrator.ts:459-468 | the decided end is written over the row as it is now, its list kept |
| EngineProcess.Process.RunReturned | packages/api/src/engine.ts:971-985 | a returned run's step: run again for appended URLs, fail when that launch throws, or announce with the row's status |
| EngineProcess.Process.RunAnnounced | packages/api/src/engine.ts:726-737 | the end is announced with the status read, if terminal, and the task leaves the in-flight map |
| EngineProcess.Process.RunThrew | packages/api/src/engine.ts:980-985 | a run that threw leaves its row failed if it was active, out of the maps, and announced with that row's status |
| EngineProcess.Process.ResumeOnStart | packages/api/src/engine.ts:995-1011 | every unfinished batch, and every unfinished crawl with stored options, is launched; nothing else changes |
| ChromeHandoff.ReadPage | packages/api/src/chromeHandoff.ts:193-274 | the loop ends as the polls and the tables say: a read at the first poll after the last return where three polls in a row were through, the person had acted and the page was the one asked for; the caller told once of the first check, and asked once for a click, at the first poll clear without an act |
| ChromeHandoff.JudgesTheHistory | packages/api/src/chromeHandoff.ts:218-239 | what the loop judges from its own variables is what the polls and the tables say of the page: through, asked for, showing a check, its status |
| ChromeHandoff.ReadMeans | packages/api/src/chromeHandoff.ts:218-239 | what is read was shown so by three polls in a row: loaded, no check for its status, response and text, 2xx or no status, on the site, at no sign-in step, no secret field, no field changed, and after a return, made before them, a document heard since |
| ChromeHandoff.Hear | packages/api/src/chromeHandoff.ts:160-174 | the listeners' record is the documents heard so far, the act, and the first document after each return |
| ChromeHandoff.SaysUnique | packages/api/src/chromeHandoff.ts:193-267 | a history says one thing: the returns, the poll and the outcome are determined |
| ChromeHandoff.EndsAtFirstReady | packages/api/src/chromeHandoff.ts:240-258 | when some poll is the first ready one, the wait ends there, with a read or with no return left |
| ChromeHandoff.NoReadWithoutAct | packages/api/src/chromeHandoff.ts:242-246 | nothing is read without an act of the person's own at or before that poll |
| ChromeHandoff.ReadIsAskedFor | packages/api/src/chromeHandoff.ts:234-254 | what is read names the URL's own page, by path without its last slashes and query, or the first document heard after one of at most two returns |
| DevTools.EveryCommandSettlesOnce | packages/api/src/chromeLogin.ts:200-236 | over any run a command is settled by the first of its own answer, its deadline and the loss, and until then waits in the map |
| DevTools.SettledExactly | packages/api/src/chromeLogin.ts:200-247 | over any run a promise is settled by an outcome if and only if the events say so: refused with the message of the error answering its id, answered with the result that did, timed out by its deadline, or closed by the loss, whichever came first |
| DevTools.IssuedArePendingOrSettled | packages/api/src/chromeLogin.ts:200-245 | issued commands are the disjoint union of pending and settled; deadlines run for exactly the pending; no promise is settled twice |
| DevTools.FirstDecisionDecides | packages/api/src/chromeLogin.ts:178-198 | the attempt to connect comes out as the first of opening, cancelling, the deadline and the loss |
| DevTools.LostForGood | packages/api/src/chromeLogin.ts:238-245 | after the loss nothing is pending and no deadline runs, whatever comes |
| DevTools.FailuresInOrder | packages/api/src/chromeLogin.ts:238-245 | at the loss the promises fail in the order their commands were sent |
| DevTools.LateAnswerIsIgnored | packages/api/src/chromeLogin.ts:231-236 | an answer to an unknown or settled command changes nothing |
| DevTools.SendTakesAFreshId | packages/api/src/chromeLogin.ts:200-212 | a send takes an id above every id waiting and a deadline of its own for its one call, or after the loss is refused at once and takes neither |
| DevTools.IdsRise | packages/api/src/chromeLogin.ts:203 | over any run the next id lies above every id that was ever waiting |
| DevTools.KeysApart | packages/api/src/chromeLogin.ts:213-219 | listener keys of sessions without a bar in their ids are equal only for the same session and event |
| DevTools.Connection.SendCommand | packages/api/src/chromeLogin.ts:200-212 | a send is the send step of the transition system |
| DevTools.Connection.HearMessage | packages/api/src/chromeLogin.ts:231-236 | a pending id is taken out with its deadline and its promise refused with the error's message or answered with the result; any other changes nothing |
| DevTools.Connection.Lost | packages/api/src/chromeLogin.ts:238-245 | the loss fails every waiter in order, clears the map and the deadlines, and settles an attempt still open |
| DevTools.Connection.HearEvent | packages/api/src/chromeLogin.ts:226-230 | an event goes to exactly its session's listeners for it, in order |
| DevTools.Connection.Open | packages/api/src/chromeLogin.ts:194-199 | the open event ends the wait to connect, and connects unless it was cancelled |
| DevTools.Connection.Abort | packages/api/src/chromeLogin.ts:183-184 | a cancellation settles an attempt still open and nothing after it |
| DevTools.Connection.DeadlinePasses | packages/api/src/chromeLogin.ts:190-193 | the connecting deadline settles an attempt still open |
| DevTools.Connection.TimerRuns | packages/api/src/chromeLogin.ts:205-208 | a command's deadline takes out its waiter and settles its promise, and no other |
| DevTools.Connection.On | packages/api/src/chromeLogin.ts:213-217 | one more listener of that session and event, the same one not twice; no other list changes |
| DevTools.Connection.Off | packages/api/src/chromeLogin.ts:218 | the listener hears the event no more, taking it off undoes having added it, and every other listener and list stays |
| Limiter.SlidingWindowLimiter.RetryAfterSeconds | packages/api/src/app.ts:160-170 | one call against the key's own queue: what left the window is dropped, then admitted or told how long to wait; no other key's queue changes |
| Limiter.AdmitsExactly | packages/api/src/app.ts:155-170 | over any history a call is admitted if and only if fewer than the limit of its key's calls were admitted in the 60 s before it |
| Limiter.QueueCounts | packages/api/src/app.ts:160-170 | the queue counts, from the window's edge on, exactly the admissions of the whole history |
| Limiter.NoWindowOverflows | packages/api/src/app.ts:150-170 | no 60 s window, wherever it starts, holds more than the limit of one key's admissions |
| Limiter.WaitIsExact | packages/api/src/app.ts:167 | a key left alone is admitted after the seconds returned, 1 to 60 of them, and refused one second sooner |
| Limiter.WaitInHistory | packages/api/src/app.ts:167 | over any history a refused call is told 1 to 60 seconds, after which, nothing else admitted, fewer than the limit lie in the 60 s before, and a second sooner they do not |
| Limiter.KeysApart | packages/api/src/app.ts:155-170 | a key's queue is what its own calls alone make it |
| Paging.FollowingNextIsExact | packages/api/src/app.ts:560-573 | a client that followed `next` to its end has every step once and in order if and only if no step was written where it had already been, and otherwise all the others |
| Paging.LateOnlyInTheSameMillisecond | packages/runtime/src/sqliteStore.ts:360-366 | with a forward clock a late step is exactly one of the cursor's own millisecond with a smaller id |
| Paging.LateRowHappens | packages/api/src/app.ts:560-573 | a run from the start whose reader ends without the row of the smaller id |
| Paging.ReadingProgresses | packages/api/src/engine.ts:1379-1404 | once the crawl is finished every request brings a step or ends the reading |
| Paging.EndedIsEnd | packages/api/src/engine.ts:1386-1402 | a reader that ended did so with the last step written: nothing changes after |
| Paging.OtherOrderLoses | packages/api/src/engine.ts:1386-1402 | with the page read before the status a step that is not late is lost, in a run from the start |
| Paging.PageIs | packages/runtime/src/sqliteStore.ts:341-375 | a page holds at most the limit, exactly the rows past the old cursor and not past the new one, and says more exactly when a row past the old one is left out, and then it is full |
| PageCache.ReuseIsAnEarlierFetch | packages/api/src/engine.ts:421-457 | over any history a reused result is what came back to an earlier live request for the same address, mode, shape, rungs, fast mode, robots override and build, no older and no newer than asked |
| PageCache.AnswerExactly | packages/api/src/engine.ts:421-446 | over any history a request is answered from the cache if and only if it asks, governance allows it and the newest kept fetch asked for in the same way is as old as it asks; else a lockdown misses and the rest are fetched |
| PageCache.KeysShared | packages/runtime/src/pageCache.ts:106-114 | two requests have one key if and only if they agree in address, mode, shape, rungs, fast mode, robots override and build |
| PageCache.StoredTrace | packages/runtime/src/pageCache.ts:87-87 | what is stored of a trace is its own events in order, none of the cache's |
| PageCache.LockdownNeverFetches | packages/api/src/engine.ts:421-446 | a lockdown request goes on to the ladder exactly in mode authed, with actions, with maxAge 0 or when governance refuses; of those the parser accepts, the last alone |
| PageCache.NeverAnsweredFromCache | packages/api/src/engine.ts:421-446 | authed pages, pages after actions and refused URLs are never answered from the cache, and the first two, and headers without a request to store, never stored |
| PageCache.Cache.Lookup | packages/runtime/src/pageCache.ts:69-75 | the stored result exactly when its age fits the bounds, a fetch ahead of the clock counting as age 0 |
| PageCache.Cache.Store | packages/runtime/src/pageCache.ts:83-93 | a success with a fetch time replaces what was fetched no later, and nothing else is written |
| Submissions.OnePerKeyExactly | packages/api/src/engine.ts:579-594 | over any run one key has one standing submission at a time, up to exactly the first counted batch or append recorded under a key a crawl has started under while it waited |
| Submissions.SameKindHasOne | packages/api/src/engine.ts:1203-1209 | crawls alone, batches and appends alone, and crawls and batches together without a limit never give a key two standing submissions |
| Submissions.RepeatReplays | packages/api/src/engine.ts:586-594 | while a start or an append stands under its key, sending it again answers with it and another body conflicts, nothing changed |
| Submissions.AnswersExactly | packages/api/src/engine.ts:579-594 | over any run, up to the first crossing, a start or an append is a new one if and only if no submission stands under its key; else the one that stands answers, or a conflict |
| Submissions.RecordedExactly | packages/api/src/engine.ts:586-594 | a submission is recorded exactly when it is accepted, under its own key and body as of now, a start as the next task and an append as its own; one that waits is held as it was sent |
| Submissions.FreedExactly | packages/api/src/engine.ts:1278-1326 | the guard is free again exactly when its submission is refused, appended, created or failed, and taken exactly by a new batch or append |
| Submissions.HeldForOneUnderWay | packages/api/src/engine.ts:1278-1326 | over any run a submission is told that another is in progress exactly when one is: a batch being created, or one waiting |
| Submissions.FailureFrees | packages/api/src/engine.ts:1324 | a failed creation frees its key: the next start under it, of any kind or body, is a new one |
| Submissions.BatchCrossingHappens | packages/api/src/engine.ts:1291-1295 | with a limit, a run from the start gives one key a live crawl and a live batch |
| Submissions.AppendCrossingHappens | packages/api/src/engine.ts:1600-1628 | without one, a run from the start gives one key a live crawl and an append |
| Submissions.Submitter.StartCrawlJob | packages/api/src/engine.ts:1203-1209 | the claim and its verdict are the crawl's step of the transition system |
| Submissions.Submitter.StartBatchJob | packages/api/src/engine.ts:1277-1326 | the guard, the claim and the wait or the record are the batch's step |
| Submissions.Submitter.StartAppendJob | packages/api/src/engine.ts:1288-1292 | the guard and the claim are the append's step |
| Submissions.Submitter.SettleJob | packages/api/src/engine.ts:1293-1326 | the end of the wait refuses or records as the step does |
| Submissions.Submitter.CreationDone | packages/api/src/engine.ts:1319-1326 | a creation that succeeded frees the guard as the step does |
| Submissions.Submitter.CreationFails | packages/api/src/engine.ts:1324 | a failed creation forgets its key as the step does |
| Submissions.IdempotencyStore.ClaimKey | packages/runtime/src/idempotencyStore.ts:73-85 | fresh, replay or conflict as the row, its age and its task say; a stale row is removed |
| Submissions.IdempotencyStore.Record | packages/runtime/src/idempotencyStore.ts:88-92 | every later claim of the key, for 24 hours while the task exists, replays for this body and conflicts for another; claims of other keys are as before |
| Submissions.IdempotencyStore.Forget | packages/runtime/src/idempotencyStore.ts:95-97 | every later claim of the key is fresh, and claims of other keys are as before |
| Overrides.StartedWell | packages/api/src/engine.ts:1287-1288 | a new batch has at most 1000 URLs, none twice after canonicalization, and overrides one to a page |
| Overrides.AppendKeeps | packages/api/src/engine.ts:1604-1623 | an accepted append keeps list and overrides as prefixes, at most 1000 URLs, none twice after canonicalization, overrides one to a page |
| Overrides.RetryRefused | packages/api/src/engine.ts:1605-1608 | an append that was written is refused when sent again, whatever came since |
| Overrides.RefusedExactly | packages/api/src/engine.ts:1604-1612 | each refusal of an append has its own condition, in the order of the checks, by canonical forms and 1000 URLs; none is met exactly when it is written |
| Overrides.AppendIsTheJobs | packages/api/src/engine.ts:1604-1626 | by canonical forms an append is accepted here exactly when it is in the jobs' model, and grows the same job |
| Overrides.LookupExactly | packages/api/src/engine.ts:1766-1775 | a URL's override is o if and only if o is recorded and names the same page, however either is spelled |
| Overrides.AppendIsolated | packages/api/src/engine.ts:1616-1623 | an append changes no override of a URL that is not one of its own |
| Overrides.TableOf | packages/api/src/engine.ts:1766-1773 | the loop files each override under its URL and its canonical form, and nothing else |
| Overrides.BatchStore.Append | packages/api/src/engine.ts:1604-1626 | the first failing check's refusal with the row unchanged, or the grown row |
| Overrides.SubmittedOverrides | packages/contracts/src/api.ts:896-914 | what the parser lets through gives each override one of the submission's own pages and no page two |
| BatchHandoff.HandOff | packages/api/src/engine.ts:807-852 | whatever comes of each item, and whatever is appended meanwhile, the old steps end as the outcomes say, one item for each step that waited, none answered when it breaks off |
| BatchHandoff.HandoffConserves | packages/api/src/engine.ts:813-846 | ids, URLs and order stay; a step changes exactly when a success or partial page was read for it, was stopped at a check, and now holds that page |
| BatchHandoff.StillWaitingExactly | packages/api/src/engine.ts:1902-1904 | a second handoff waits for exactly those of which no success or partial page was read |
| BatchHandoff.NothingElseWaits | packages/api/src/engine.ts:1902-1904 | a step that did not wait is unchanged and does not wait after |
| BatchHandoff.ItemsTellTheTruth | packages/api/src/engine.ts:850-851 | each item has its step's id, URL and status, and says through exactly when the step was replaced |
| BatchHandoff.WaitingAreStopped | packages/api/src/engine.ts:1902-1904 | the steps handed over are, in order, exactly the blocked ones with a captcha, a challenge, a bot check or a login wall |
| BatchHandoff.ErrorsListed | packages/runtime/src/sqliteStore.ts:341-366 | the error steps are exactly the failed, blocked, cancelled and over-budget ones |
| BatchHandoff.ThroughCounted | packages/api/src/engine.ts:851-852 | the number through is the number of items that say so |
| BatchHandoff.TaskStore.StepsOf | packages/api/src/engine.ts:1917-1926 | page after page gives every error step once and in order |
| Separable.FilterInTwoPasses | apps/public-web/src/heroGlyphsWorker.ts:21-46 | the row pass and the column pass with running sums give at each pixel the average over the clamped square, and with max the maximum of 0 and the truncated square |
| Separable.Pass | apps/public-web/src/heroGlyphsWorker.ts:22-40 | each line of a strided layout is swept, every index in bounds and no line written over another |
| Separable.BoxLine | apps/public-web/src/heroGlyphsWorker.ts:33-38 | the moving sum is the window's clamped sum at every position |
| Separable.MaxExactly | apps/public-web/src/heroGlyphsWorker.ts:25-31 | the max filter gives the square's maximum if and only if the square holds a value that is not negative |
| GlyphReading.BoxIsMean | apps/public-web/src/heroGlyphsWorker.ts:33-38 | the box filter is the average over the square of side 2r + 1, read at the edge outside the picture |
| Separable.FilterLocal | apps/public-web/src/heroGlyphsWorker.ts:15-18 | a part of the picture filters as the whole does but for r rows next to an edge the whole does not have |
| BandedScan.Analyse | apps/public-web/src/heroGlyphsWorker.ts:48-102 | for every picture the glyphs found band by band are the list one pass over the whole picture, filtered directly, finds; what that list is, is `GlyphReading.FoundIsExactly` |
| GlyphReading.FoundIsExactly | apps/public-web/src/heroGlyphsWorker.ts:63-99 | a list is the one found if and only if it is in reading order, stands at exactly the peaks (4.5 or 8 by the ground, no stronger mark within 4 px) that no earlier glyph blocks, and gives each the kind its ground, warmth, strongest pixel and mountain call for and its weight |
| GlyphReading.FoundMeans | apps/public-web/src/heroGlyphsWorker.ts:73-99 | every glyph found stands at a peak of the picture and has the kind and weight its pixels call for |
| GlyphReading.PeakCovered | apps/public-web/src/heroGlyphsWorker.ts:77-84 | every peak is found or has a found glyph less than 6 px away |
| BandedScan.FiltersAgree | apps/public-web/src/heroGlyphsWorker.ts:57-69 | in a band the luminance, ground, contrast, marks and peaks are the whole picture's 0, 6, 6, 8 and 12 rows in from its own edges |
| BandedScan.StrongestPixel | apps/public-web/src/heroGlyphsWorker.ts:86-87 | the loop over the 7 x 7 finds the strongest place of the specification |
| BandedScan.IsTaken | apps/public-web/src/heroGlyphsWorker.ts:79-83 | the cell loop with its early exit answers whether a neighbouring cell's last glyph is closer than 6 px |
| GlyphFacts.FoundExactly | apps/public-web/src/heroGlyphsWorker.ts:71-99 | what is found are peaks at their own places; every peak is found or has a found glyph less than 6 px away; two found that close only when the first had been replaced in its cell |
| GlyphFacts.TakenExactly | apps/public-web/src/heroGlyphsWorker.ts:79-84 | a place is passed over if and only if a glyph still last in its cell is less than 6 px away |
| GlyphFacts.StrongestIs | apps/public-web/src/heroGlyphsWorker.ts:86-87 | the mark's pixel has the most contrast of the 7 x 7; the centre wins a tie, then the first in reading order |
| CloseGlyphs.KeptCloser | apps/public-web/src/heroGlyphsWorker.ts:54-56 | of a picture of one-pixel stripes, whatever the mountain, the scan keeps two glyphs closer than 6 px |
| Ridge.TraceRidge | apps/public-web/src/heroMarks.ts:62-100 | each traced row is the first maximiser of the eight-row darkening in its interval, or the guess when the interval is empty; the output is the median of five clamped neighbours |
| Ridge.TraceStaysClose | apps/public-web/src/heroMarks.ts:72-90 | a traced row is within reach of its guess, and within five rows of the one before if and only if the two intervals meet |
| Ridge.EdgeTraced | apps/public-web/src/heroMarks.ts:62-90 | of a picture bright above a row and dark below, guessed within reach, every traced row is the last bright one |
| Ridge.RowAt | apps/public-web/src/heroMarks.ts:76-87 | the column reads are in bounds and the search finds the first row to darken most |
| Ridge.DarkeningIs | apps/public-web/src/heroMarks.ts:78-84 | the darkening at a row is the ground of the four rows above less that of the four below, each once |
| Ridge.MedianRank | apps/public-web/src/heroMarks.ts:66-70 | the median of an odd number of values is one of them with at most half below and at most half above |
| Ridge.SpikeTakenOut | apps/public-web/src/heroMarks.ts:91-98 | with four of five neighbours in a range the smoothed row is in it |
| Ridge.SpikeSmoothed | apps/public-web/src/heroMarks.ts:91-98 | a column that jumps does not show: when the other four within two columns, read at the ends past them, lie in a range, so does the smoothed row |
| FileStore.FinalNameHoldsTheWholeFile | packages/bench/src/fileStore.ts:8-13 | under any interleaving, failure and crash a final name holds whole bytes with its digest |
| FileStore.FinalNameIsForGood | packages/bench/src/fileStore.ts:19-33 | a final name, once there, stays and never changes its bytes |
| FileStore.ReturnedPathExists | packages/bench/src/fileStore.ts:19-33 | every returned path exists, then and after, and holds the bytes saved |
| FileStore.OnlyACrashLeavesPartials | packages/bench/src/fileStore.ts:26-31 | without a crash every partial file is some running save's to clean up |
| FileStore.SaveIsSixSteps | packages/bench/src/fileStore.ts:19-33 | a save that finds nothing is six steps of the transition system, back with the bytes under the final name and no partial file |
| FileStore.Store.Save | packages/bench/src/fileStore.ts:19-33 | one save alone returns the path with the bytes under it, or fails with the disk as it was, its partial file gone either way |

## Left out

- LifecycleSafety.NoUrlLost: a run's own read and write of its row are one step too, though the code awaits between them when a run opens and when it writes its end (`packages/runtime/src/orchestrator.ts:442-494`); an append that lands in between is overwritten there, its URLs with it, which neither this nor `LossExactly` and `LateAppend.BatchServed` see.
- Jobs: a request's read, check and write are one step, though `resumeCrawl` and `appendToBatch` await between them (the count of active batches, and a run's end, are spread out as the code spreads them).
- Jobs: the store is taken to fail only where a run opens; errors of other reads and writes, webhook deliveries and the report of a job are not modelled.
- Jobs: whether a process offers a channel for a task is fixed for the process; two attempts begun in the same instant are not told apart.
- Jobs: a crawl's frontier is an unbounded source of URLs, so that a crawl ends without being told to is not claimed (`Closing` asks that every run is a batch's or has been told to stop).
- Closing.CloseReachesIdle: says that maximal runs are finite and end idle; that a pending promise is eventually settled is the runtime's part.
- ChromeHandoff.ReadPage: the URL parser, the host test, the login-path test and the gate classifier are tables; which of the two acts was heard, the check kept as evidence and the words of the time-out are not modelled.
- DevTools: messages that are not JSON, a command whose parameters cannot be written as JSON, and a connection asked for with a signal already raised (refused before there is a socket) are not modelled.
- Limiter: the clock does not run backwards; the middleware around the limiter is not modelled.
- Paging: one attempt of one crawl; a resume that starts another attempt while a client reads is not modelled.
- PageCache.ReuseIsAnEarlierFetch: keys are the parts they digest, and the parts that shape a page are one string; the ladder's own refusal of a URL governance refuses is not modelled.
- Submissions.OnePerKeyExactly: a creation that fails is taken to fail within the 24 hours of its key and before its directory is removed.
- Submissions: what an append does to the list is `Overrides`; a process that dies between an append's write and its record leaves the key free, and the retry is then refused by `Overrides.RetryRefused`.
- Overrides: the canonical form is taken to be its own canonical form and to depend only on what a URL parses to.
- BatchHandoff.HandOff: the refusals before a handoff begins (no Chrome, a batch not finished, one already handed over, unreadable formats) are each one branch and are left out.
- Separable.FilterInTwoPasses: exact reals stand for 32-bit floats, and the picture has at least one pixel.
- BandedScan.Analyse: the canvas gives the band's own pixels; alpha, and the artwork's map of the mountain beyond a function of the place, are not modelled. The fog and the embers are left out.
- Ridge.TraceRidge: the guess is given rounded; lifting ink and the dark-ground test are left out.
- FileStore.ReturnedPathExists: nothing but the store touches its directory; a rename is one step; directories are taken to exist.
- HTTP routing, response shapes, lanes, extractors, robots parsing, monitors, deliveries and the site's drawing are left out.
