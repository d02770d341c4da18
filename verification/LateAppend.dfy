/** Which batches this process finishes, and which it leaves waiting for a restart although nothing failed, was cancelled or was cut. */
module LateAppend {
  import opened Options
  import opened Lifecycle
  import opened LifecycleInvariant
  import opened LifecycleSafety
  import opened Reachability

  /** Active on its row, with no run in this process. */
  predicate Waiting(t: Task) {
    Active(t.status) && t.run.Idle?
  }

  /** Past its last look at the row and active there, or about to write a pause. */
  predicate PastHelp(t: Task) {
    (Active(t.status) && (t.run.Idle? || t.run.Written? || t.run.Finishing?)) || (t.run.Decided? && t.run.outcome.Paused?)
  }

  lemma StepPastHelp(t: Task, a: TaskAction)
    requires WellFormed(t) && t.kind.Batch? && Internal(a)
    ensures PastHelp(TaskStep(t, a, false)) <==> PastHelp(t)
    ensures PastHelp(t) ==> TaskStep(t, a, false).steps == t.steps
  {
  }

  // A run by itself neither gets past help nor comes back from it.
  lemma {:induction false} RunPastHelp(t: Task, steps: seq<TaskAction>)
    requires WellFormed(t) && t.kind.Batch? && AllInternal(steps)
    ensures var t' := TaskRun(t, steps, false);
      WellFormed(t') && t'.kind == t.kind && (PastHelp(t') <==> PastHelp(t)) && (PastHelp(t) ==> t'.steps == t.steps)
    decreases |steps|
  {
    if steps != [] {
      assert Internal(steps[0]);
      TaskStepKeeps(t, steps[0], false);
      StepPastHelp(t, steps[0]);
      RunPastHelp(TaskStep(t, steps[0], false), steps[1..]);
    }
  }

  /** The steps that end a run from the phase it is in. */
  function Remaining(r: Run): seq<TaskAction> {
    match r
    case Decided(_, _, _) => [WriteRow, CheckOutstanding, Announce]
    case Written(_) => [CheckOutstanding, Announce]
    case Finishing(_) => [Announce]
    case _ => []
  }

  lemma {:induction false} RemainingWaits(t: Task)
    requires WellFormed(t) && t.kind.Batch? && PastHelp(t)
    ensures AllInternal(Remaining(t.run)) && Waiting(TaskRun(t, Remaining(t.run), false))
    decreases |Remaining(t.run)|
  {
    if t.run.Decided? {
      var t' := TaskStep(t, WriteRow, false);
      TaskStepKeeps(t, WriteRow, false);
      assert Remaining(t.run)[1..] == Remaining(t'.run);
      RemainingWaits(t');
    } else if t.run.Written? {
      var t' := TaskStep(t, CheckOutstanding, false);
      TaskStepKeeps(t, CheckOutstanding, false);
      assert Remaining(t.run)[1..] == Remaining(t'.run);
      RemainingWaits(t');
    } else if t.run.Finishing? {
      assert Remaining(t.run)[1..] == [];
    }
  }

  // What its run does by itself can leave a batch waiting if and only if the batch is past help; and then every way the run ends does.
  lemma WaitsExactly(t: Task)
    requires WellFormed(t) && t.kind.Batch?
    ensures (exists steps :: AllInternal(steps) && Waiting(TaskRun(t, steps, false))) <==> PastHelp(t)
    ensures forall steps :: AllInternal(steps) && TaskRun(t, steps, false).run.Idle? ==> (Waiting(TaskRun(t, steps, false)) <==> PastHelp(t))
  {
    forall steps | AllInternal(steps) ensures PastHelp(TaskRun(t, steps, false)) <==> PastHelp(t) {
      RunPastHelp(t, steps);
    }
    if PastHelp(t) {
      RemainingWaits(t);
    }
  }

  /** An append that meets the task now comes too late: its run has looked for the last time, or none can be launched. */
  predicate TooLate(t: Task) {
    t.run.Written? || t.run.Finishing? || (t.run.Decided? && t.run.outcome.Paused?) || (t.run.Idle? && t.refused)
  }

  function Accepted(t: Task, more: seq<Url>): Task
    requires Appendable(t, more)
  {
    Extend(t, more, t.status.Completed?)
  }

  lemma AcceptedPastHelp(t: Task, more: seq<Url>)
    requires WellFormed(t) && Appendable(t, more)
    ensures WellFormed(Accepted(t, more)) && (PastHelp(Accepted(t, more)) <==> TooLate(t)) && !Lost(Accepted(t, more))
  {
    ExtendKeeps(t, more, t.status.Completed?);
  }

  // An accepted append can be left waiting by this process if and only if it met the run too late; then its URLs stay without a
  // step however the run goes on.
  lemma AppendWaitsExactly(t: Task, more: seq<Url>)
    requires WellFormed(t) && Appendable(t, more)
    ensures (exists steps :: AllInternal(steps) && Waiting(TaskRun(Accepted(t, more), steps, false))) <==> TooLate(t)
    ensures TooLate(t) ==> forall steps :: AllInternal(steps) ==> TaskRun(Accepted(t, more), steps, false).steps == t.steps
  {
    AcceptedPastHelp(t, more);
    WaitsExactly(Accepted(t, more));
    forall steps | AllInternal(steps) && TooLate(t) ensures TaskRun(Accepted(t, more), steps, false).steps == t.steps {
      RunPastHelp(Accepted(t, more), steps);
    }
  }

  ghost predicate NoFailedOpening(steps: seq<TaskAction>) {
    forall k :: 0 <= k < |steps| ==> !steps[k].OpenFails?
  }

  lemma {:induction false} RunNeverLost(t: Task, steps: seq<TaskAction>)
    requires WellFormed(t) && !Lost(t) && AllInternal(steps) && NoFailedOpening(steps)
    ensures !Lost(TaskRun(t, steps, false))
    decreases |steps|
  {
    if steps != [] {
      assert Internal(steps[0]) && !steps[0].OpenFails?;
      StepLoses(t, steps[0], false);
      TaskStepKeeps(t, steps[0], false);
      RunNeverLost(TaskStep(t, steps[0], false), steps[1..]);
    }
  }

  // An append in time is served: however its run ends, unless an opening fails, every URL of the list has a step, or the batch was
  // cancelled, failed or cut by a budget.
  lemma AppendServed(t: Task, more: seq<Url>, steps: seq<TaskAction>)
    requires WellFormed(t) && Appendable(t, more) && !TooLate(t) && AllInternal(steps) && NoFailedOpening(steps)
    requires TaskRun(Accepted(t, more), steps, false).run.Idle?
    ensures var t' := TaskRun(Accepted(t, more), steps, false);
      Urls(t') == t.kind.urls + more && (t'.cut || t'.status.Cancelled? || t'.status.Failed? || (t'.status.Completed? && !Outstanding(t')))
  {
    AcceptedPastHelp(t, more);
    RunPastHelp(Accepted(t, more), steps);
    RunNeverLost(Accepted(t, more), steps);
  }

  // ---------------------------------------------------------------- over the engine

  /** Task `i` is a batch this process will not finish unless a request or a restart helps it. */
  predicate Stranded(e: Engine, i: nat) {
    i < |e.tasks| && e.tasks[i].kind.Batch? && PastHelp(e.tasks[i])
  }

  /** An append, counted or not, writes the row of task `i`. */
  predicate AppendLands(e: Engine, a: Action, i: nat) {
    || CountedAppendLands(e, a, i)
    || (a.BeginAppend? && a.id == i && e.submission.Free? && i < |e.tasks| && Appendable(e.tasks[i], a.urls) && !(e.tasks[i].status.Completed? && e.limit.Some?))
  }

  /** The workers of task `i` stop for a shutdown. */
  predicate PausesAt(e: Engine, a: Action, i: nat) {
    && a.On? && a.id == i && a.step.Stop? && i < |e.tasks| && e.closing
    && e.tasks[i].kind.Batch? && e.tasks[i].run.Working? && !e.tasks[i].aborted && !e.tasks[i].status.Cancelled?
  }

  /** A new batch is written as task `i` and its launch throws. */
  predicate NewBatchUnlaunched(e: Engine, a: Action, i: nat) {
    && i == |e.tasks|
    && match a
      case BeginBatch(urls, refused) => refused && e.submission.Free? && ValidList(urls) && e.limit.None?
      case Commit =>
        && e.submission.Counting? && e.submission.left == {} && e.limit.Some? && e.submission.count < e.limit.value
        && e.submission.request.NewBatch? && e.submission.request.refused
      case _ => false
  }

  /** The four ways a batch is stranded: by an append that meets its run too late, a pause, a restart that does not launch it, or a launch that throws. */
  predicate Strands(e: Engine, a: Action, i: nat) {
    || (AppendLands(e, a, i) && i < |e.tasks| && (e.tasks[i].run.Written? || e.tasks[i].run.Finishing? || (e.tasks[i].run.Idle? && e.tasks[i].refused)))
    || PausesAt(e, a, i)
    || (a.Restart? && i < |e.tasks| && ActiveBatch(e.tasks[i]) && (!a.resume || i in a.withheld))
    || NewBatchUnlaunched(e, a, i)
  }

  /** The ways out: a cancellation that no decided pause will write over, an append or a restart that launches it, or a restart of a row no longer active. */
  predicate Helps(e: Engine, a: Action, i: nat)
    requires i < |e.tasks|
  {
    var t := e.tasks[i];
    || (a == On(i, Cancel) && Active(t.status) && !t.run.Decided?)
    || (AppendLands(e, a, i) && t.run.Idle? && !t.refused)
    || (a.Restart? && (!Active(t.status) || (a.resume && i !in a.withheld)))
  }

  lemma OwnStepStrands(t: Task, a: TaskAction, closing: bool)
    requires WellFormed(t) && t.kind.Batch? && !PastHelp(t)
    ensures PastHelp(TaskStep(t, a, closing)) <==> a.Stop? && closing && t.run.Working? && !t.aborted && !t.status.Cancelled?
  {
  }

  lemma AppendStrands(t: Task, more: seq<Url>, rerun: bool)
    requires WellFormed(t) && t.kind.Batch? && !PastHelp(t) && (rerun || Active(t.status))
    ensures PastHelp(Extend(t, more, rerun)) <==> t.run.Written? || t.run.Finishing? || (t.run.Idle? && t.refused)
  {
  }

  lemma OnStrands(e: Engine, id: nat, step: TaskAction, i: nat)
    requires Inv(e) && i < |e.tasks| && !Stranded(e, i)
    ensures Stranded(Apply(e, On(id, step)), i) <==> Strands(e, On(id, step), i)
  {
    if id == i && e.tasks[i].kind.Batch? {
      OwnStepStrands(e.tasks[i], step, e.closing);
    }
  }

  lemma RequestStrands(e: Engine, a: Action, i: nat)
    requires Inv(e) && i < |e.tasks| && !Stranded(e, i) && !a.On?
    ensures Stranded(Apply(e, a), i) <==> Strands(e, a, i)
  {
    assert WellFormed(e.tasks[i]);
    if AppendLands(e, a, i) && e.tasks[i].kind.Batch? {
      var more, rerun := if a.Commit? then e.submission.request.urls else a.urls, a.Commit? || e.tasks[i].status.Completed?;
      AppendStrands(e.tasks[i], more, rerun);
      assert Apply(e, a).tasks[i] == Extend(e.tasks[i], more, rerun);
    }
  }

  lemma NewStrands(e: Engine, a: Action, i: nat)
    requires Inv(e) && |e.tasks| <= i
    ensures Stranded(Apply(e, a), i) <==> Strands(e, a, i)
  {
  }

  // One action strands a batch in exactly the named cases.
  lemma StrandsExactly(e: Engine, a: Action, i: nat)
    requires Inv(e) && !Stranded(e, i)
    ensures Stranded(Apply(e, a), i) <==> Strands(e, a, i)
  {
    if i >= |e.tasks| {
      NewStrands(e, a, i);
    } else if a.On? {
      OnStrands(e, a.id, a.step, i);
    } else {
      RequestStrands(e, a, i);
    }
  }

  lemma OwnStepHelps(t: Task, a: TaskAction, closing: bool)
    requires WellFormed(t) && t.kind.Batch? && PastHelp(t)
    ensures PastHelp(TaskStep(t, a, closing)) <==> !(a.Cancel? && Active(t.status) && !t.run.Decided?)
    ensures TaskStep(t, a, closing).steps == t.steps
  {
  }

  lemma AppendHelps(t: Task, more: seq<Url>, rerun: bool)
    requires WellFormed(t) && t.kind.Batch? && PastHelp(t)
    ensures PastHelp(Extend(t, more, rerun)) <==> !(t.run.Idle? && !t.refused)
  {
  }

  lemma OnHelps(e: Engine, id: nat, step: TaskAction, i: nat)
    requires Inv(e) && Stranded(e, i)
    ensures i < |Apply(e, On(id, step)).tasks| && (Stranded(Apply(e, On(id, step)), i) <==> !Helps(e, On(id, step), i))
    ensures Apply(e, On(id, step)).tasks[i].steps == e.tasks[i].steps
  {
    if id == i {
      OwnStepHelps(e.tasks[i], step, e.closing);
    }
  }

  lemma RequestHelps(e: Engine, a: Action, i: nat)
    requires Inv(e) && Stranded(e, i) && !a.On?
    ensures i < |Apply(e, a).tasks| && (Stranded(Apply(e, a), i) <==> !Helps(e, a, i))
    ensures Apply(e, a).tasks[i].steps == e.tasks[i].steps
  {
    if AppendLands(e, a, i) {
      var more, rerun := if a.Commit? then e.submission.request.urls else a.urls, a.Commit? || e.tasks[i].status.Completed?;
      AppendHelps(e.tasks[i], more, rerun);
      assert Apply(e, a).tasks[i] == Extend(e.tasks[i], more, rerun);
    }
  }

  // A stranded batch stays so exactly until it is helped, and gets no step meanwhile.
  lemma StrandedUntilHelped(e: Engine, a: Action, i: nat)
    requires Inv(e) && Stranded(e, i)
    ensures i < |Apply(e, a).tasks| && (Stranded(Apply(e, a), i) <==> !Helps(e, a, i))
    ensures Apply(e, a).tasks[i].steps == e.tasks[i].steps
  {
    if a.On? {
      OnHelps(e, a.id, a.step, i);
    } else {
      RequestHelps(e, a, i);
    }
  }

  ghost predicate NeverStranded(e: Engine, actions: seq<Action>, i: nat)
    decreases |actions|
  {
    !Stranded(e, i) && (actions != [] ==> NeverStranded(Apply(e, actions[0]), actions[1..], i))
  }

  ghost predicate NothingStrands(e: Engine, actions: seq<Action>, i: nat)
    decreases |actions|
  {
    actions != [] ==> !Strands(e, actions[0], i) && NothingStrands(Apply(e, actions[0]), actions[1..], i)
  }

  // Over a whole run of the engine a batch is never stranded if and only if nothing in it strands the batch.
  lemma {:induction false} NeverStrandedExactly(e: Engine, actions: seq<Action>, i: nat)
    requires Inv(e) && !Stranded(e, i)
    ensures NeverStranded(e, actions, i) <==> NothingStrands(e, actions, i)
    decreases |actions|
  {
    if actions != [] {
      StrandsExactly(e, actions[0], i);
      ApplyKeeps(e, actions[0]);
      if !Strands(e, actions[0], i) {
        NeverStrandedExactly(Apply(e, actions[0]), actions[1..], i);
      }
    }
  }

  lemma {:induction false} EndNotStranded(e: Engine, actions: seq<Action>, i: nat)
    requires NeverStranded(e, actions, i)
    ensures !Stranded(Execute(e, actions), i)
    decreases |actions|
  {
    if actions != [] {
      EndNotStranded(Apply(e, actions[0]), actions[1..], i);
    }
  }

  // After any run from the start in which nothing strands a batch and no URL is lost, the batch, once idle, has a step for every URL it
  // accepted, or it was cancelled, failed or cut by a budget.
  lemma BatchServed(limit: Option<nat>, actions: seq<Action>, i: nat)
    requires NothingStrands(Init(limit), actions, i) && Spared(Init(limit), actions)
    ensures var e := Execute(Init(limit), actions);
      i < |e.tasks| && e.tasks[i].kind.Batch? && e.tasks[i].run.Idle? ==>
        e.tasks[i].status.Cancelled? || e.tasks[i].status.Failed? || e.tasks[i].cut || !Outstanding(e.tasks[i])
  {
    NeverStrandedExactly(Init(limit), actions, i);
    EndNotStranded(Init(limit), actions, i);
    NoUrlLost(Init(limit), actions);
    EndNotLost(Init(limit), actions);
    var e := Execute(Init(limit), actions);
    assert i < |e.tasks| ==> !Lost(e.tasks[i]);
  }

  // ---------------------------------------------------------------- that it happens

  // A late append is accepted in a run from the start: the batch is completed and its end being announced.
  lemma LateAppendHappens()
    ensures Reachable(None, Alone(None, ANNOUNCING)) && Appendable(ANNOUNCING, ["b"]) && TooLate(ANNOUNCING)
    ensures Reachable(None, Alone(None, Accepted(ANNOUNCING, ["b"]))) && Active(Accepted(ANNOUNCING, ["b"]).status)
  {
    ReachesAnnouncing(None);
    assert Appendable(ANNOUNCING, ["b"]);
    ReachNext(None, Alone(None, ANNOUNCING), BeginAppend(0, ["b"]), Alone(None, Accepted(ANNOUNCING, ["b"])));
  }

  const FULL := STORED_GROWN.(kind := Batch(["a", "b", "c"]), status := Pending)

  lemma FullSteps()
    ensures TaskStep(FULL, CheckOutstanding, false) == FULL.(run := Finishing(Pending))
    ensures TaskStep(FULL.(run := Finishing(Pending)), Announce, false) == FULL.(run := Idle)
  {
  }

  lemma ReachesFull()
    ensures Appendable(STORED_GROWN, ["c"]) && Reachable(None, Alone(None, FULL))
  {
    ReachesStoredGrown(None);
    assert ["a", "b"] + ["c"] == ["a", "b", "c"];
    assert Appendable(STORED_GROWN, ["c"]);
    ReachNext(None, Alone(None, STORED_GROWN), BeginAppend(0, ["c"]), Alone(None, FULL));
  }

  // A late append strands an earlier one that was in time, in a run from the start: nothing failed, was cancelled or cut, and the URL
  // appended first has no step.
  lemma SecondAppendStrandsTheFirst()
    ensures Reachable(None, Alone(None, STOPPED)) && Appendable(STOPPED, ["b"]) && !TooLate(STOPPED)
    ensures Strands(Alone(None, STORED_GROWN), BeginAppend(0, ["c"]), 0)
    ensures Reachable(None, Alone(None, FULL.(run := Idle))) && Stranded(Alone(None, FULL.(run := Idle)), 0)
    ensures "b" in Urls(FULL) && "b" !in FULL.steps
  {
    ReachesStopped(None);
    ReachesFull();
    FullSteps();
    assert Appendable(STOPPED, ["b"]);
    ReachStep(None, FULL, CheckOutstanding);
    ReachStep(None, FULL.(run := Finishing(Pending)), Announce);
    assert FULL.kind.urls[1] == "b";
  }
}
