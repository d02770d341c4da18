/** What every reachable state of the engine keeps, and the safety results that follow from it. */
module LifecycleInvariant {
  import opened Sequences
  import opened Lifecycle

  // ---------------------------------------------------------------- one task

  ghost predicate Outstanding(t: Task) {
    exists u :: u in Urls(t) && u !in t.steps
  }

  ghost predicate WellFormed(t: Task) {
    && (t.kind.Batch? ==> 1 <= |t.kind.urls| <= MAX_BATCH_URLS && Distinct(t.kind.urls) && t.steps <= Elements(t.kind.urls))
    && (!t.run.Idle? ==> !t.refused)
    && RunFits(t)
  }

  /** What a row can say in each phase of a run. */
  ghost predicate RunFits(t: Task) {
    match t.run
    case Idle => true
    case Opening => Active(t.status) || t.status.Cancelled? || (t.status.Completed? && !t.cut && Outstanding(t))
    case Working(k) => k <= |Urls(t)| && AtWork(t)
    case Decided(k, outcome, overBudget) =>
      && k <= |Urls(t)| && AtWork(t)
      && (outcome.Cancelled? || outcome.Paused? || outcome.Failed? || outcome.Completed?)
      && (outcome.Completed? && !overBudget ==> Covered(t, k))
    case Written(k) => k <= |Urls(t)| && AtEnd(t) && (t.status.Completed? && !t.cut ==> Covered(t, k))
    case Finishing(read) => AtEnd(t) && (t.status.Completed? && !t.cut ==> !Outstanding(t)) && (t.kind.Crawl? && Terminal(read) ==> t.status == read)
    case Failing => t.status.Failed? || (t.kind.Batch? && (t.status.Pending? || t.status.Cancelled?))
  }

  predicate AtWork(t: Task) {
    t.status.Running? || t.status.Cancelled? || (t.kind.Batch? && t.status.Pending?)
  }

  predicate AtEnd(t: Task) {
    t.status.Completed? || t.status.Cancelled? || t.status.Paused? || (t.kind.Batch? && t.status.Pending?)
  }

  lemma CountDecides(t: Task)
    requires WellFormed(t) && t.kind.Batch?
    ensures |t.steps| < |t.kind.urls| <==> Outstanding(t)
  {
    if |t.steps| < |t.kind.urls| {
      PartialSubset(t.steps, t.kind.urls);
    } else {
      FullSubset(t.steps, t.kind.urls);
    }
  }

  lemma RunStepKeeps(t: Task, a: TaskAction, closing: bool)
    requires WellFormed(t) && (a.OpenRun? || a.OpenFails? || a.Seed? || a.Record? || a.Stop?)
    ensures WellFormed(TaskStep(t, a, closing))
  {
  }

  lemma EndStepKeeps(t: Task, a: TaskAction, closing: bool)
    requires WellFormed(t) && !(a.OpenRun? || a.OpenFails? || a.Seed? || a.Record? || a.Stop?)
    ensures WellFormed(TaskStep(t, a, closing))
  {
    if t.kind.Batch? {
      CountDecides(t);
    }
  }

  lemma TaskStepKeeps(t: Task, a: TaskAction, closing: bool)
    requires WellFormed(t)
    ensures WellFormed(TaskStep(t, a, closing))
  {
    if a.OpenRun? || a.OpenFails? || a.Seed? || a.Record? || a.Stop? {
      RunStepKeeps(t, a, closing);
    } else {
      EndStepKeeps(t, a, closing);
    }
  }

  lemma ExtendKeeps(t: Task, more: seq<Url>, rerun: bool)
    requires WellFormed(t) && t.kind.Batch? && ValidList(more)
    requires |t.kind.urls| + |more| <= MAX_BATCH_URLS && forall u :: u in more ==> u !in t.kind.urls
    requires rerun || (!t.status.Completed? && !t.status.Failed?  && !t.status.Cancelled?)
    ensures WellFormed(Extend(t, more, rerun))
  {
    var t' := Extend(t, more, rerun);
    assert forall i :: 0 <= i < |t.kind.urls| ==> t'.kind.urls[i] == t.kind.urls[i];
    assert Elements(t.kind.urls) <= Elements(t'.kind.urls);
    assert Distinct(more);
    DistinctAppend(t.kind.urls, more);
  }

  // ---------------------------------------------------------------- the engine

  ghost predicate RequestFits(e: Engine, request: Request) {
    match request
    case NewBatch(urls, refused) => ValidList(urls)
    case AppendTo(id, urls) =>
      && id < |e.tasks| && e.tasks[id].kind.Batch? && ValidList(urls)
      && |e.tasks[id].kind.urls| + |urls| <= MAX_BATCH_URLS
      && forall u :: u in urls ==> u !in e.tasks[id].kind.urls
  }

  ghost predicate SubmissionFits(e: Engine) {
    e.submission.Counting? ==>
      && e.limit.Some?
      && (forall i :: i in e.submission.left ==> i < |e.tasks|)
      && RequestFits(e, e.submission.request)
  }

  /** Every announced end is a terminal status, and a crawl announced as completed or cancelled has that status still. */
  ghost predicate LogHolds(e: Engine) {
    forall k :: 0 <= k < |e.log| ==> EndingHolds(e, e.log[k])
  }

  ghost predicate EndingHolds(e: Engine, ending: Ending) {
    && ending.id < |e.tasks| && Terminal(ending.status)
    && (e.tasks[ending.id].kind.Crawl? && !ending.status.Failed? ==> e.tasks[ending.id].status == ending.status && SettledRun(e.tasks[ending.id]))
  }

  predicate SettledRun(t: Task) {
    t.run.Idle?
  }

  ghost predicate Inv(e: Engine) {
    && (forall i :: 0 <= i < |e.tasks| ==> WellFormed(e.tasks[i]))
    && SubmissionFits(e)
    && LogHolds(e)
  }

  lemma FulfilKeeps(e: Engine, request: Request)
    requires Inv(e) && RequestFits(e, request)
    ensures Inv(Fulfil(e, request).(submission := Free))
  {
    var e' := Fulfil(e, request);
    match request {
      case NewBatch(urls, refused) =>
        assert forall i :: 0 <= i < |e.tasks| ==> e'.tasks[i] == e.tasks[i];
        assert WellFormed(NewTask(Batch(urls), refused));
        assert forall k :: 0 <= k < |e.log| ==> EndingHolds(e, e.log[k]);
      case AppendTo(id, urls) =>
        ExtendKeeps(e.tasks[id], urls, true);
        assert forall k :: 0 <= k < |e.log| ==> EndingHolds(e, e.log[k]);
    }
  }

  // What was announced of a task holds after its own steps too; and so does what one announces.
  lemma StepAnnounces(t: Task, step: TaskAction, closing: bool)
    requires WellFormed(t)
    ensures TaskStep(t, step, closing).kind == t.kind
    ensures Announced(t, step, closing).Some? ==> Terminal(Announced(t, step, closing).value)
    ensures t.kind.Crawl? && Announced(t, step, closing).Some? && !Announced(t, step, closing).value.Failed? ==>
      TaskStep(t, step, closing).status == Announced(t, step, closing).value && SettledRun(TaskStep(t, step, closing))
    ensures t.kind.Crawl? && SettledRun(t) && (t.status.Completed? || t.status.Cancelled?) ==> TaskStep(t, step, closing) == t
  {
  }

  // One task's step keeps what was announced, of it and of the others.
  lemma EndingKept(e: Engine, id: nat, step: TaskAction, ending: Ending)
    requires Inv(e) && id < |e.tasks| && EndingHolds(e, ending)
    ensures EndingHolds(Apply(e, On(id, step)), ending)
  {
    StepAnnounces(e.tasks[id], step, e.closing);
  }

  lemma EndingNew(e: Engine, id: nat, step: TaskAction)
    requires Inv(e) && id < |e.tasks| && Announced(e.tasks[id], step, e.closing).Some?
    ensures EndingHolds(Apply(e, On(id, step)), Ending(id, Announced(e.tasks[id], step, e.closing).value))
  {
    StepAnnounces(e.tasks[id], step, e.closing);
  }

  lemma LogKept(e: Engine, id: nat, step: TaskAction)
    requires Inv(e) && id < |e.tasks|
    ensures LogHolds(Apply(e, On(id, step)))
  {
    var e', told := Apply(e, On(id, step)), Announced(e.tasks[id], step, e.closing);
    forall k | 0 <= k < |e'.log| ensures EndingHolds(e', e'.log[k]) {
      if k < |e.log| {
        EndingKept(e, id, step, e.log[k]);
      } else {
        EndingNew(e, id, step);
      }
    }
  }

  lemma OnKeeps(e: Engine, id: nat, step: TaskAction)
    requires Inv(e)
    ensures Inv(Apply(e, On(id, step)))
  {
    if id < |e.tasks| {
      TaskStepKeeps(e.tasks[id], step, e.closing);
      StepAnnounces(e.tasks[id], step, e.closing);
      LogKept(e, id, step);
    }
  }

  lemma StartCrawlKeeps(e: Engine, refused: bool)
    requires Inv(e)
    ensures Inv(Apply(e, StartCrawl(refused)))
  {
  }

  lemma BeginAppendKeeps(e: Engine, id: nat, urls: seq<Url>)
    requires Inv(e)
    ensures Inv(Apply(e, BeginAppend(id, urls)))
  {
    assert forall k :: 0 <= k < |e.log| ==> EndingHolds(e, e.log[k]);
    if e.submission.Free? && id < |e.tasks| && Appendable(e.tasks[id], urls) {
      ExtendKeeps(e.tasks[id], urls, e.tasks[id].status.Completed?);
    }
  }

  lemma RestartKeeps(e: Engine, resume: bool, withheld: set<nat>)
    requires Inv(e)
    ensures Inv(Apply(e, Restart(resume, withheld)))
  {
  }

  lemma ApplyKeeps(e: Engine, a: Action)
    requires Inv(e)
    ensures Inv(Apply(e, a))
  {
    match a {
      case On(id, step) => OnKeeps(e, id, step);
      case StartCrawl(refused) => StartCrawlKeeps(e, refused);
      case BeginBatch(urls, refused) =>
        if e.submission.Free? && ValidList(urls) && e.limit.None? {
          FulfilKeeps(e, NewBatch(urls, refused));
        }
      case BeginAppend(id, urls) => BeginAppendKeeps(e, id, urls);
      case ReadRow(row) =>
      case Commit =>
        if e.submission.Counting? {
          FulfilKeeps(e, e.submission.request);
        }
      case Close =>
      case Restart(resume, withheld) => RestartKeeps(e, resume, withheld);
    }
  }

  lemma {:induction false} ExecuteKeeps(e: Engine, actions: seq<Action>)
    requires Inv(e)
    ensures Inv(Execute(e, actions))
    decreases |actions|
  {
    if actions != [] {
      ApplyKeeps(e, actions[0]);
      ExecuteKeeps(Apply(e, actions[0]), actions[1..]);
    }
  }
}
