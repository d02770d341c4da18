/**
 * Exactly when one action of the engine changes a row or a run, and, over whole runs, how a run ends and which runs end failed.
 */
module RunSteps {
  import opened Options
  import opened Lifecycle
  import opened LifecycleInvariant
  import opened Reachability

  /** The row says the task has not ended. */
  predicate Unfinished(t: Task) {
    t.status == Pending || t.status == Running || t.status == Paused
  }

  /** The run is told to stop: by its own signal, by its row, or by the service's shutdown. */
  predicate ToldToStop(e: Engine, i: nat)
    requires i < |e.tasks|
  {
    e.tasks[i].aborted || e.tasks[i].status == Cancelled || e.closing
  }

  /** Every URL a batch's run was given has a step; a crawl's run may find its frontier empty at any time. */
  ghost predicate AllFetched(t: Task) {
    t.run.Working? && forall k :: 0 <= k < t.run.seeded && t.kind.Batch? && k < |t.kind.urls| ==> t.kind.urls[k] in t.steps
  }

  // ---------------------------------------------------------------- the row's status

  /** A counted append to the task writes its row. */
  predicate CountedLands(e: Engine, a: Action, i: nat)
    requires i < |e.tasks|
  {
    && a == Commit && e.submission.Counting? && e.submission.left == {} && e.limit.Some? && e.submission.count < e.limit.value
    && e.submission.request.AppendTo? && e.submission.request.id == i && e.tasks[i].kind.Batch?
  }

  /** An append that is not counted writes the row of a completed batch. */
  predicate AppendReopens(e: Engine, a: Action, i: nat)
    requires i < |e.tasks|
  {
    && a.BeginAppend? && a.id == i && e.submission == Free && e.limit == None && e.tasks[i].status == Completed && Appendable(e.tasks[i], a.urls)
  }

  predicate ResumesCrawl(e: Engine, a: Action, i: nat)
    requires i < |e.tasks|
  {
    && a == On(i, Resume) && e.tasks[i].kind == Crawl(true) && e.tasks[i].run == Idle && !e.tasks[i].refused
    && e.tasks[i].status != Completed && e.tasks[i].status != Cancelled
  }

  /** The end a run has decided is written. */
  predicate WritesEnd(e: Engine, a: Action, i: nat, s: Status)
    requires i < |e.tasks|
  {
    a == On(i, WriteRow) && e.tasks[i].run.Decided? && e.tasks[i].run.outcome == s
  }

  /** The run throws with its row unfinished: the store failed as it opened, or an append reopened a row written as failed. */
  predicate ThrowsUnfinished(e: Engine, a: Action, i: nat)
    requires i < |e.tasks|
  {
    Unfinished(e.tasks[i]) && ((a == On(i, OpenFails) && e.tasks[i].run == Opening) || (a == On(i, EndFailure) && e.tasks[i].run == Failing))
  }

  /** What makes a row say `s`. */
  ghost predicate Becomes(e: Engine, a: Action, i: nat, s: Status)
    requires i < |e.tasks|
  {
    match s
    case Pending => ResumesCrawl(e, a, i) || AppendReopens(e, a, i) || CountedLands(e, a, i)
    case Running => a == On(i, OpenRun) && e.tasks[i].run == Opening && e.tasks[i].status != Cancelled
    case Paused => WritesEnd(e, a, i, Paused)
    case Completed => WritesEnd(e, a, i, Completed)
    case Cancelled => (a == On(i, Cancel) && Unfinished(e.tasks[i])) || WritesEnd(e, a, i, Cancelled)
    case Failed => WritesEnd(e, a, i, Failed) || ThrowsUnfinished(e, a, i)
  }

  lemma StepBecomes(e: Engine, a: Action, i: nat, s: Status)
    requires Inv(e) && i < |e.tasks| && a.On? && a.id == i && e.tasks[i].status != s
    ensures TaskStep(e.tasks[i], a.step, e.closing).status == s <==> Becomes(e, a, i, s)
  {
    assert WellFormed(e.tasks[i]);
  }

  lemma AppendStatus(e: Engine, a: Action, i: nat)
    requires i < |e.tasks| && (a.BeginAppend? || a.Commit?)
    ensures i < |Apply(e, a).tasks|
    ensures Apply(e, a).tasks[i].status == if AppendReopens(e, a, i) || CountedLands(e, a, i) then Pending else e.tasks[i].status
  {
  }

  lemma OthersKeepStatus(e: Engine, a: Action, i: nat)
    requires i < |e.tasks| && !a.On? && !a.BeginAppend? && !a.Commit?
    ensures i < |Apply(e, a).tasks| && Apply(e, a).tasks[i].status == e.tasks[i].status
  {
  }

  // One action gives a row another status in exactly the named cases.
  lemma BecomesExactly(e: Engine, a: Action, i: nat, s: Status)
    requires Inv(e) && i < |e.tasks| && e.tasks[i].status != s
    ensures i < |Apply(e, a).tasks| && (Apply(e, a).tasks[i].status == s <==> Becomes(e, a, i, s))
  {
    if a.BeginAppend? || a.Commit? {
      AppendStatus(e, a, i);
    } else if !a.On? {
      OthersKeepStatus(e, a, i);
    } else if a.id == i {
      StepBecomes(e, a, i, s);
    }
  }

  // ---------------------------------------------------------------- steps and budget

  // What is not the task's own step leaves its steps and its mark alone, raises no signal, and at most launches or takes away its run.
  lemma Aside(e: Engine, a: Action, i: nat)
    requires i < |e.tasks| && !(a.On? && a.id == i)
    ensures i < |Apply(e, a).tasks| && var t, t' := e.tasks[i], Apply(e, a).tasks[i];
      t'.steps == t.steps && t'.cut == t.cut && (t'.aborted ==> t.aborted) && (t'.run == t.run || t'.run == Idle || t'.run == Opening)
  {
  }

  lemma StepRecords(e: Engine, i: nat, step: TaskAction, u: Url)
    requires i < |e.tasks| && u !in e.tasks[i].steps
    ensures var t, t' := e.tasks[i], TaskStep(e.tasks[i], step, e.closing);
      t.steps <= t'.steps && (u in t'.steps <==> Records(e, On(i, step), i, u))
  {
  }

  /** The run at work, not told to stop, fetches a URL it was given. */
  ghost predicate Records(e: Engine, a: Action, i: nat, u: Url)
    requires i < |e.tasks|
  {
    && a == On(i, Record(u)) && e.tasks[i].run.Working? && !ToldToStop(e, i)
    && (e.tasks[i].kind.Batch? ==> exists k :: 0 <= k < e.tasks[i].run.seeded && k < |e.tasks[i].kind.urls| && e.tasks[i].kind.urls[k] == u)
  }

  // One action records a step exactly when the run at work, not told to stop, was given the URL; no step is ever taken away.
  lemma RecordsExactly(e: Engine, a: Action, i: nat, u: Url)
    requires i < |e.tasks| && u !in e.tasks[i].steps
    ensures i < |Apply(e, a).tasks| && e.tasks[i].steps <= Apply(e, a).tasks[i].steps
    ensures u in Apply(e, a).tasks[i].steps <==> Records(e, a, i, u)
  {
    if a.On? && a.id == i {
      StepRecords(e, i, a.step, u);
    } else {
      Aside(e, a, i);
    }
  }

  // A row is marked as cut exactly by the end of a run over budget, and unmarked exactly by the next run or its end.
  lemma CutExactly(e: Engine, a: Action, i: nat)
    requires i < |e.tasks|
    ensures i < |Apply(e, a).tasks|
    ensures !e.tasks[i].cut ==> (Apply(e, a).tasks[i].cut <==> a == On(i, WriteRow) && e.tasks[i].run.Decided? && e.tasks[i].run.overBudget)
    ensures e.tasks[i].cut ==> (!Apply(e, a).tasks[i].cut <==>
      || (a == On(i, WriteRow) && e.tasks[i].run.Decided? && !e.tasks[i].run.overBudget)
      || (a == On(i, OpenRun) && e.tasks[i].run == Opening && e.tasks[i].status != Cancelled))
  {
    if !(a.On? && a.id == i) {
      Aside(e, a, i);
    }
  }

  // ---------------------------------------------------------------- the list, and new tasks

  predicate Appends(e: Engine, a: Action, i: nat)
    requires i < |e.tasks|
  {
    || (a.BeginAppend? && a.id == i && e.submission == Free && Appendable(e.tasks[i], a.urls) && (e.tasks[i].status != Completed || e.limit == None))
    || CountedLands(e, a, i)
  }

  function AppendedUrls(e: Engine, a: Action, i: nat): seq<Url>
    requires i < |e.tasks|
  {
    if CountedLands(e, a, i) then e.submission.request.urls else if Appends(e, a, i) then a.urls else []
  }

  lemma StepKeepsKind(t: Task, step: TaskAction, closing: bool)
    ensures TaskStep(t, step, closing).kind == t.kind
  {
  }

  lemma RequestList(e: Engine, a: Action, i: nat)
    requires i < |e.tasks| && !a.On?
    ensures i < |Apply(e, a).tasks|
    ensures AppendedUrls(e, a, i) == [] ==> Apply(e, a).tasks[i].kind == e.tasks[i].kind
    ensures AppendedUrls(e, a, i) != [] ==> e.tasks[i].kind.Batch? && Apply(e, a).tasks[i].kind == Batch(e.tasks[i].kind.urls + AppendedUrls(e, a, i))
  {
    if e.tasks[i].kind.Batch? {
      assert e.tasks[i].kind.urls + [] == e.tasks[i].kind.urls;
    }
  }

  // A list grows by an append's URLs, at its end, and by nothing else.
  lemma ListExactly(e: Engine, a: Action, i: nat)
    requires i < |e.tasks|
    ensures i < |Apply(e, a).tasks|
    ensures e.tasks[i].kind.Batch? ==> Apply(e, a).tasks[i].kind == Batch(e.tasks[i].kind.urls + AppendedUrls(e, a, i))
    ensures e.tasks[i].kind.Crawl? ==> Apply(e, a).tasks[i].kind == e.tasks[i].kind
  {
    if e.tasks[i].kind.Batch? {
      assert e.tasks[i].kind.urls + [] == e.tasks[i].kind.urls;
    }
    if !a.On? {
      RequestList(e, a, i);
    } else if a.id == i {
      StepKeepsKind(e.tasks[i], a.step, e.closing);
    }
  }

  /** The task an action submits, if it submits one. */
  function Submitted(e: Engine, a: Action): Option<(Kind, bool)> {
    match a
    case StartCrawl(refused) => Some((Crawl(true), refused))
    case BeginBatch(urls, refused) => if e.submission == Free && e.limit == None && ValidList(urls) then Some((Batch(urls), refused)) else None
    case Commit =>
      if e.submission.Counting? && e.submission.left == {} && e.limit.Some? && e.submission.count < e.limit.value && e.submission.request.NewBatch?
      then Some((Batch(e.submission.request.urls), e.submission.request.refused))
      else None
    case _ => None
  }

  // A task is added exactly when one is submitted: pending, without a step, and launched unless the process offers no channel.
  lemma AddsExactly(e: Engine, a: Action)
    ensures |Apply(e, a).tasks| == |e.tasks| + if Submitted(e, a).Some? then 1 else 0
    ensures Submitted(e, a).Some? ==>
      var (kind, refused) := Submitted(e, a).value;
      Apply(e, a).tasks == e.tasks + [Task(kind, Pending, {}, false, if refused then Idle else Opening, false, refused)]
  {
  }

  // ---------------------------------------------------------------- the submission under way, and the shutdown

  /** A batch, or an append to a completed one, that the limit makes wait for its count. */
  predicate WaitsForCount(e: Engine, a: Action, request: Request) {
    && e.submission == Free && e.limit != None
    && ((a.BeginBatch? && ValidList(a.urls) && request == NewBatch(a.urls, a.refused))
      || (a.BeginAppend? && a.id < |e.tasks| && e.tasks[a.id].status == Completed && Appendable(e.tasks[a.id], a.urls) && request == AppendTo(a.id, a.urls)))
  }

  // A count begins with every row to read and none counted; it is over when the last row is read and the submission decided, or the process gone.
  lemma CountExactly(e: Engine, a: Action)
    ensures e.submission == Free ==> (Apply(e, a).submission.Counting? <==> exists request :: WaitsForCount(e, a, request))
    ensures forall request :: WaitsForCount(e, a, request) ==>
      var s := Apply(e, a).submission; s.request == request && s.count == 0 && forall i: nat :: i in s.left <==> i < |e.tasks|
    ensures e.submission.Counting? ==> (Apply(e, a).submission == Free <==> a.Restart? || (a == Commit && e.submission.left == {} && e.limit != None))
  {
    if e.submission == Free && Apply(e, a).submission.Counting? {
      assert WaitsForCount(e, a, Apply(e, a).submission.request);
    }
  }

  // A row is read once, and adds one exactly when it is an unfinished batch's.
  lemma ReadsExactly(e: Engine, row: nat)
    requires e.submission.Counting? && row in e.submission.left && row < |e.tasks|
    ensures var s := Apply(e, ReadRow(row)).submission;
      && s.Counting? && s.left == e.submission.left - {row} && s.request == e.submission.request
      && s.count == e.submission.count + if e.tasks[row].kind.Batch? && Unfinished(e.tasks[row]) then 1 else 0
  {
  }

  lemma ClosesExactly(e: Engine, a: Action)
    ensures Apply(e, a).closing <==> a == Close || (e.closing && !a.Restart?)
  {
  }

  // ---------------------------------------------------------------- a run's phases

  /** The row is one restart runs again. */
  predicate RunsAgain(e: Engine, a: Action, i: nat)
    requires i < |e.tasks|
  {
    a.Restart? && a.resume && Unfinished(e.tasks[i]) && e.tasks[i].kind != Crawl(false) && i !in a.withheld
  }

  /** A completed batch, uncut and with URLs left, is run again by the run that just ended. */
  ghost predicate Relaunches(e: Engine, a: Action, i: nat)
    requires i < |e.tasks|
  {
    && a == On(i, CheckOutstanding) && e.tasks[i].run.Written? && e.tasks[i].kind.Batch?
    && e.tasks[i].status == Completed && !e.tasks[i].cut && Outstanding(e.tasks[i])
  }

  lemma StepLaunches(e: Engine, a: Action, i: nat)
    requires Inv(e) && i < |e.tasks| && e.tasks[i].run != Opening && a.On? && a.id == i
    ensures TaskStep(e.tasks[i], a.step, e.closing).run == Opening <==> Relaunches(e, a, i) || ResumesCrawl(e, a, i)
    ensures TaskStep(e.tasks[i], a.step, e.closing).run == Opening ==> !TaskStep(e.tasks[i], a.step, e.closing).aborted
  {
    assert WellFormed(e.tasks[i]);
    if e.tasks[i].kind.Batch? {
      CountDecides(e.tasks[i]);
    }
  }

  lemma RequestLaunches(e: Engine, a: Action, i: nat)
    requires i < |e.tasks| && e.tasks[i].run != Opening && !a.On?
    ensures i < |Apply(e, a).tasks| && (Apply(e, a).tasks[i].run == Opening <==>
      RunsAgain(e, a, i) || (Appends(e, a, i) && e.tasks[i].run == Idle && !e.tasks[i].refused))
    ensures Apply(e, a).tasks[i].run == Opening ==> !Apply(e, a).tasks[i].aborted
  {
  }

  // A run is launched in exactly four ways, each with a signal of its own.
  lemma LaunchesExactly(e: Engine, a: Action, i: nat)
    requires Inv(e) && i < |e.tasks| && e.tasks[i].run != Opening
    ensures i < |Apply(e, a).tasks| && (Apply(e, a).tasks[i].run == Opening <==>
      || RunsAgain(e, a, i)
      || Relaunches(e, a, i)
      || ResumesCrawl(e, a, i)
      || (Appends(e, a, i) && e.tasks[i].run == Idle && !e.tasks[i].refused))
    ensures Apply(e, a).tasks[i].run == Opening ==> !Apply(e, a).tasks[i].aborted
  {
    if !a.On? {
      RequestLaunches(e, a, i);
    } else if a.id == i {
      StepLaunches(e, a, i);
    }
  }

  // A run at work has been given the list as it was when it opened, or when it last read the row while not told to stop.
  lemma SeedsExactly(e: Engine, a: Action, i: nat, n: nat)
    requires i < |e.tasks| && e.tasks[i].run != Working(n)
    ensures i < |Apply(e, a).tasks| && (Apply(e, a).tasks[i].run == Working(n) <==>
      && n == (if e.tasks[i].kind.Batch? then |e.tasks[i].kind.urls| else 0)
      && ((a == On(i, OpenRun) && e.tasks[i].run == Opening && e.tasks[i].status != Cancelled)
        || (a == On(i, Seed) && e.tasks[i].run.Working? && !ToldToStop(e, i))))
  {
    if !(a.On? && a.id == i) {
      Aside(e, a, i);
    }
  }

  // A run's signal is raised exactly by the cancellation of an unfinished task whose run has not written its end.
  lemma SignalExactly(e: Engine, a: Action, i: nat)
    requires i < |e.tasks| && !e.tasks[i].aborted
    ensures i < |Apply(e, a).tasks| && (Apply(e, a).tasks[i].aborted <==>
      && a == On(i, Cancel) && Unfinished(e.tasks[i])
      && (e.tasks[i].run == Opening || e.tasks[i].run.Working? || e.tasks[i].run.Decided?))
  {
    if !(a.On? && a.id == i) {
      Aside(e, a, i);
    }
  }

  /** The end chosen when workers stop: told to cancel, then the shutdown, then a failure; a budget hit is no failure. */
  ghost predicate Chosen(e: Engine, i: nat, failed: bool, s: Status)
    requires i < |e.tasks|
  {
    var cancelled := e.tasks[i].aborted || e.tasks[i].status == Cancelled;
    && (s == Cancelled <==> cancelled)
    && (s == Paused <==> !cancelled && e.closing)
    && (s == Failed <==> !cancelled && !e.closing && failed)
    && (s == Completed <==> !cancelled && !e.closing && !failed)
  }

  /** The workers stop. */
  ghost predicate Stops(e: Engine, a: Action, i: nat)
    requires i < |e.tasks|
  {
    && a.On? && a.id == i && a.step.Stop? && e.tasks[i].run.Working?
    && (ToldToStop(e, i) || a.step.failed || a.step.overBudget || AllFetched(e.tasks[i]))
  }

  lemma FetchedIsDrained(t: Task)
    requires t.run.Working?
    ensures Drained(t, t.run.seeded) <==> AllFetched(t)
  {
    if Drained(t, t.run.seeded) && t.kind.Batch? {
      assert forall k :: 0 <= k < t.run.seeded && k < |t.kind.urls| ==> Urls(t)[k] == t.kind.urls[k];
    }
    if AllFetched(t) && t.kind.Batch? {
      assert forall k :: 0 <= k < t.run.seeded && k < |t.kind.urls| ==> Urls(t)[k] == t.kind.urls[k];
    }
  }

  lemma StepDecides(e: Engine, a: Action, i: nat)
    requires i < |e.tasks| && !e.tasks[i].run.Decided? && a.On? && a.id == i
    ensures TaskStep(e.tasks[i], a.step, e.closing).run.Decided? <==> Stops(e, a, i)
    ensures Stops(e, a, i) ==> DecidedAs(e, a, i, TaskStep(e.tasks[i], a.step, e.closing))
  {
    if e.tasks[i].run.Working? {
      FetchedIsDrained(e.tasks[i]);
    }
    if Stops(e, a, i) {
      var s := DecideEnd(e.tasks[i], e.closing, a.step.failed);
      assert Chosen(e, i, a.step.failed, s);
    }
  }

  /** The task with the end its workers' stop calls for, and nothing else changed. */
  ghost predicate DecidedAs(e: Engine, a: Action, i: nat, t: Task)
    requires i < |e.tasks| && Stops(e, a, i)
  {
    exists s :: Chosen(e, i, a.step.failed, s) && t == e.tasks[i].(run := Decided(e.tasks[i].run.seeded, s, a.step.overBudget))
  }

  // A run decides its end exactly when its workers stop, and nothing else changes then.
  lemma DecidesExactly(e: Engine, a: Action, i: nat)
    requires i < |e.tasks| && !e.tasks[i].run.Decided?
    ensures i < |Apply(e, a).tasks| && (Apply(e, a).tasks[i].run.Decided? <==> Stops(e, a, i))
    ensures Stops(e, a, i) ==> DecidedAs(e, a, i, Apply(e, a).tasks[i])
  {
    if a.On? && a.id == i {
      StepDecides(e, a, i);
    } else {
      Aside(e, a, i);
    }
  }

  // ---------------------------------------------------------------- what is announced

  /** What makes an event of task `i` ending as `s`: a run's announcement, a run that threw, or the cancellation of an unfinished task without a run. */
  predicate Tells(e: Engine, a: Action, i: nat, s: Status) {
    && i < |e.tasks|
    && var t := e.tasks[i];
      || (a == On(i, Announce) && t.run == Finishing(s) && s != Pending && s != Running && s != Paused)
      || (a == On(i, OpenRun) && t.run == Opening && t.status == Cancelled && s == Cancelled)
      || (((a == On(i, OpenFails) && t.run == Opening) || (a == On(i, EndFailure) && t.run == Failing)) && s == (if Unfinished(t) then Failed else t.status))
      || (a == On(i, Cancel) && t.run == Idle && Unfinished(t) && s == Cancelled)
  }

  lemma StepTold(e: Engine, i: nat, step: TaskAction, s: Status)
    requires Inv(e) && i < |e.tasks|
    ensures Announced(e.tasks[i], step, e.closing) == Some(s) <==> Tells(e, On(i, step), i, s)
  {
    assert WellFormed(e.tasks[i]);
  }

  // One action announces one end, exactly in those cases, and takes none back.
  lemma TellsExactly(e: Engine, a: Action)
    requires Inv(e)
    ensures Apply(e, a).log == e.log <==> forall i, s :: !Tells(e, a, i, s)
    ensures forall i, s :: Tells(e, a, i, s) ==> Apply(e, a).log == e.log + [Ending(i, s)]
  {
    if a.On? && a.id < |e.tasks| {
      forall s ensures Announced(e.tasks[a.id], a.step, e.closing) == Some(s) <==> Tells(e, a, a.id, s) {
        StepTold(e, a.id, a.step, s);
      }
      var told := Announced(e.tasks[a.id], a.step, e.closing);
      if told.Some? {
        assert Tells(e, a, a.id, told.value);
      }
    }
  }

  // ---------------------------------------------------------------- the end of a run, over whole runs

  /** Neither the write of task `i`'s end nor a restart is among the actions. */
  ghost predicate Undisturbed(actions: seq<Action>, i: nat) {
    forall k :: 0 <= k < |actions| ==> actions[k] != On(i, WriteRow) && !actions[k].Restart?
  }

  lemma DecidedStays(e: Engine, a: Action, i: nat)
    requires i < |e.tasks| && e.tasks[i].run.Decided? && a != On(i, WriteRow) && !a.Restart?
    ensures i < |Apply(e, a).tasks| && Apply(e, a).tasks[i].run == e.tasks[i].run
  {
  }

  lemma {:induction false} DecidedUntilWritten(e: Engine, actions: seq<Action>, i: nat)
    requires i < |e.tasks| && e.tasks[i].run.Decided? && Undisturbed(actions, i)
    ensures i < |Execute(e, actions).tasks| && Execute(e, actions).tasks[i].run == e.tasks[i].run
    decreases |actions|
  {
    if actions != [] {
      DecidedStays(e, actions[0], i);
      assert forall k :: 0 <= k < |actions| - 1 ==> actions[1..][k] == actions[k + 1];
      DecidedUntilWritten(Apply(e, actions[0]), actions[1..], i);
    }
  }

  /** The row as the run's end leaves it. */
  ghost predicate EndedAs(e: Engine, i: nat, s: Status, cut: bool) {
    i < |e.tasks| && e.tasks[i].status == s && e.tasks[i].cut == cut && !e.tasks[i].aborted && (if s == Failed then e.tasks[i].run == Failing else e.tasks[i].run.Written?)
  }

  // Whatever happens between the workers' stop and the write but a crash, a cancellation among it, the row written says what the
  // workers' stop decided: over budget with nothing failed, cancelled or shut down it says completed, and is marked as cut.
  lemma RunEndsAs(e: Engine, i: nat, failed: bool, overBudget: bool, between: seq<Action>, s: Status)
    requires i < |e.tasks| && Stops(e, On(i, Stop(failed, overBudget)), i) && Undisturbed(between, i) && Chosen(e, i, failed, s)
    ensures EndedAs(Execute(e, [On(i, Stop(failed, overBudget))] + between + [On(i, WriteRow)]), i, s, overBudget)
  {
    var stop, write := On(i, Stop(failed, overBudget)), On(i, WriteRow);
    DecidesExactly(e, stop, i);
    var decided := Apply(e, stop);
    DecidedUntilWritten(decided, between, i);
    ExecuteLast(e, [stop] + between, write);
    assert ([stop] + between)[1..] == between;
    assert Execute(e, [stop] + between) == Execute(decided, between);
  }

  // ---------------------------------------------------------------- which runs end failed

  /** The store failed as the task's run opened with its row unfinished, or its workers stopped on a failure and nothing told them to stop. */
  ghost predicate FailureOf(e: Engine, a: Action, i: nat) {
    && i < |e.tasks|
    && ((a == On(i, OpenFails) && e.tasks[i].run == Opening && Unfinished(e.tasks[i]))
      || (a.On? && a.id == i && a.step.Stop? && a.step.failed && e.tasks[i].run.Working? && !ToldToStop(e, i)))
  }

  /** One of the first `n` actions was a failure of the task. */
  ghost predicate FailedBy(limit: Option<nat>, actions: seq<Action>, n: nat, i: nat) {
    exists m: nat :: m < n && FailureAt(limit, actions, m, i)
  }

  ghost predicate FailureAt(limit: Option<nat>, actions: seq<Action>, m: nat, i: nat) {
    m < |actions| && FailureOf(Execute(Init(limit), actions[..m]), actions[m], i)
  }

  /** The row says failed, or is about to. */
  predicate FailedOrFailing(t: Task) {
    t.status == Failed || t.run == Failing || (t.run.Decided? && t.run.outcome == Failed)
  }

  lemma StepFailing(e: Engine, a: Action, i: nat)
    requires i < |e.tasks| && a.On? && a.id == i && FailedOrFailing(TaskStep(e.tasks[i], a.step, e.closing))
    ensures FailedOrFailing(e.tasks[i]) || FailureOf(e, a, i)
  {
  }

  lemma RequestFailing(e: Engine, a: Action, i: nat)
    requires !a.On? && i < |Apply(e, a).tasks| && FailedOrFailing(Apply(e, a).tasks[i])
    ensures i < |e.tasks| && FailedOrFailing(e.tasks[i])
  {
  }

  lemma FailingFromFailure(e: Engine, a: Action, i: nat)
    requires i < |Apply(e, a).tasks| && FailedOrFailing(Apply(e, a).tasks[i])
    ensures (i < |e.tasks| && FailedOrFailing(e.tasks[i])) || FailureOf(e, a, i)
  {
    if !a.On? {
      RequestFailing(e, a, i);
    } else if a.id == i && i < |e.tasks| {
      StepFailing(e, a, i);
    }
  }

  lemma {:induction false} FailedRunsFailed(limit: Option<nat>, actions: seq<Action>, n: nat, i: nat)
    requires n <= |actions| && i < |Execute(Init(limit), actions[..n]).tasks| && FailedOrFailing(Execute(Init(limit), actions[..n]).tasks[i])
    ensures FailedBy(limit, actions, n, i)
    decreases n
  {
    if n > 0 {
      assert actions[..n] == actions[..n - 1] + [actions[n - 1]];
      ExecuteLast(Init(limit), actions[..n - 1], actions[n - 1]);
      var e := Execute(Init(limit), actions[..n - 1]);
      FailingFromFailure(e, actions[n - 1], i);
      if FailureOf(e, actions[n - 1], i) {
        assert FailureAt(limit, actions, n - 1, i);
      } else {
        FailedRunsFailed(limit, actions, n - 1, i);
        var m: nat :| m < n - 1 && FailureAt(limit, actions, m, i);
      }
    }
  }

  // A row says failed only after its run's opening failed, or its workers stopped on a failure: never for a budget, a cancellation or a shutdown.
  lemma FailedOnlyByFailure(limit: Option<nat>, actions: seq<Action>, i: nat)
    requires i < |Execute(Init(limit), actions).tasks| && Execute(Init(limit), actions).tasks[i].status == Failed
    ensures FailedBy(limit, actions, |actions|, i)
  {
    assert actions[..|actions|] == actions;
    FailedRunsFailed(limit, actions, |actions|, i);
  }
}
