/** Why closing the engine ends: a run's own steps use up a measure, relaunches included, and only an idle task has none left. */
module Closing {
  import opened Sequences
  import opened Lifecycle
  import opened LifecycleInvariant
  import opened LifecycleSafety

  function Phase(r: Run): nat {
    match r
    case Idle => 0
    case Finishing(_) => 1
    case Failing => 1
    case Written(_) => 2
    case Decided(_, _, _) => 3
    case Working(_) => 4
    case Opening => 5
  }

  /** How many URLs of the list the run has not been given; a run yet to open is given all of them. */
  function Unseeded(t: Task): nat {
    match t.run
    case Working(k) => if k <= |Urls(t)| then |Urls(t)| - k else 0
    case Decided(k, _, _) => if k <= |Urls(t)| then |Urls(t)| - k else 0
    case Written(k) => if k <= |Urls(t)| then |Urls(t)| - k else 0
    case _ => 0
  }

  function Unfetched(t: Task): nat {
    if |t.steps| <= |Urls(t)| then |Urls(t)| - |t.steps| else 0
  }

  /** An upper bound on the steps a task's run takes by itself. */
  function Fuel(t: Task): nat {
    10 * (Unseeded(t) + Unfetched(t)) + Phase(t.run)
  }

  // A relaunch happens only for URLs appended after the ending run was given its last, never after a pause or a budget cut.
  lemma RelaunchOnlyForAppended(t: Task)
    requires WellFormed(t) && t.run.Written? && TaskStep(t, CheckOutstanding, false).run.Opening?
    ensures t.status.Completed? && !t.cut && Covered(t, t.run.seeded) && t.run.seeded < |Urls(t)| && Unseeded(t) > 0
  {
    CountDecides(t);
    var u :| u in Urls(t) && u !in t.steps;
    var i :| 0 <= i < |Urls(t)| && Urls(t)[i] == u;
    assert i >= t.run.seeded;
  }

  lemma RecordUses(t: Task, url: Url, closing: bool)
    requires WellFormed(t) && t.kind.Batch? && TaskStep(t, Record(url), closing) != t
    ensures Fuel(TaskStep(t, Record(url), closing)) < Fuel(t)
  {
    var t' := TaskStep(t, Record(url), closing);
    TaskStepKeeps(t, Record(url), closing);
    DistinctSize(t.kind.urls);
    SubsetSize(t'.steps, Elements(t.kind.urls));
    assert |t'.steps| == |t.steps| + 1;
  }

  // Every step a run takes by itself uses up the measure: seeding, fetching, ending and being run again.
  lemma InternalUses(t: Task, a: TaskAction, closing: bool)
    requires WellFormed(t) && Internal(a) && (t.kind.Batch? || closing)
    requires TaskStep(t, a, closing) != t
    ensures Fuel(TaskStep(t, a, closing)) < Fuel(t)
  {
    match a {
      case Record(url) =>
        if t.kind.Batch? {
          RecordUses(t, url, closing);
        }
      case CheckOutstanding =>
        if RelaunchNeeded(t) && !t.refused {
          RelaunchOnlyForAppended(t);
        }
      case _ =>
    }
  }

  // A task in flight always has a step of its own to take.
  lemma InFlightMoves(t: Task, closing: bool) returns (a: TaskAction)
    requires WellFormed(t) && !t.run.Idle?
    ensures Internal(a) && TaskStep(t, a, closing) != t
  {
    match t.run {
      case Opening => a := OpenRun;
      case Working(k) =>
        a := Stop(false, false);
        if !Stopping(t, closing) && !Drained(t, k) {
          var i :| 0 <= i < k && i < |Urls(t)| && Urls(t)[i] !in t.steps;
          a := Record(Urls(t)[i]);
        }
      case Decided(_, _, _) => a := WriteRow;
      case Written(_) => a := CheckOutstanding;
      case Finishing(_) => a := Announce;
      case Failing => a := EndFailure;
    }
  }

  // ---------------------------------------------------------------- the engine

  function EngineFuel(e: Engine): nat {
    Sum(e.tasks, Fuel)
  }

  /** No request comes in, and every run is a batch's or has been told to stop. */
  predicate Draining(e: Engine) {
    e.closing || forall i :: 0 <= i < |e.tasks| ==> e.tasks[i].kind.Batch? || e.tasks[i].run.Idle?
  }

  predicate NothingInFlight(e: Engine) {
    forall i :: 0 <= i < |e.tasks| ==> e.tasks[i].run.Idle?
  }

  /** A step of some run that changes its task. */
  predicate OwnStep(e: Engine, a: Action) {
    a.On? && a.id < |e.tasks| && Internal(a.step) && TaskStep(e.tasks[a.id], a.step, e.closing) != e.tasks[a.id]
  }

  ghost predicate OwnRun(e: Engine, actions: seq<Action>)
    decreases |actions|
  {
    actions != [] ==> OwnStep(e, actions[0]) && OwnRun(Apply(e, actions[0]), actions[1..])
  }

  lemma OwnStepDrains(e: Engine, a: Action)
    requires Draining(e) && OwnStep(e, a)
    ensures Apply(e, a).tasks == e.tasks[a.id := TaskStep(e.tasks[a.id], a.step, e.closing)] && Draining(Apply(e, a))
    ensures e.tasks[a.id].kind.Batch? || e.closing
  {
    StepKind(e.tasks[a.id], a.step, e.closing);
  }

  lemma OwnStepUses(e: Engine, a: Action)
    requires Inv(e) && Draining(e) && OwnStep(e, a)
    ensures Inv(Apply(e, a)) && Draining(Apply(e, a)) && EngineFuel(Apply(e, a)) < EngineFuel(e)
  {
    var t' := TaskStep(e.tasks[a.id], a.step, e.closing);
    OwnStepDrains(e, a);
    OnKeeps(e, a.id, a.step);
    InternalUses(e.tasks[a.id], a.step, e.closing);
    SumUpdate(e.tasks, a.id, t', Fuel);
  }

  // However the runs interleave, with no new request they take at most as many steps as the measure says.
  lemma {:induction false} OwnRunEnds(e: Engine, actions: seq<Action>)
    requires Inv(e) && Draining(e) && OwnRun(e, actions)
    ensures |actions| <= EngineFuel(e)
    ensures Inv(Execute(e, actions)) && Draining(Execute(e, actions))
    decreases |actions|
  {
    if actions != [] {
      OwnStepUses(e, actions[0]);
      OwnRunEnds(Apply(e, actions[0]), actions[1..]);
    }
  }

  // The wait of `close` is over exactly when no run can take a step any more.
  lemma StuckExactlyWhenIdle(e: Engine)
    requires Inv(e)
    ensures NothingInFlight(e) <==> forall a :: !OwnStep(e, a)
  {
    if !NothingInFlight(e) {
      var i: nat :| i < |e.tasks| && !e.tasks[i].run.Idle?;
      assert WellFormed(e.tasks[i]);
      var step := InFlightMoves(e.tasks[i], e.closing);
      assert OwnStep(e, On(i, step));
    }
  }

  // A maximal run of the runs' own steps leaves nothing in flight, after at most the measured number of steps.
  lemma CloseReachesIdle(e: Engine, actions: seq<Action>)
    requires Inv(e) && Draining(e) && OwnRun(e, actions)
    requires forall a :: !OwnStep(Execute(e, actions), a)
    ensures NothingInFlight(Execute(e, actions)) && |actions| <= EngineFuel(e)
  {
    OwnRunEnds(e, actions);
    StuckExactlyWhenIdle(Execute(e, actions));
  }

  // A batch's own share of the measure is bounded by its list: at most two passes over a thousand URLs.
  lemma FuelBound(t: Task)
    requires WellFormed(t) && t.kind.Batch?
    ensures Fuel(t) <= 20 * MAX_BATCH_URLS + 5
  {
  }

  // ---------------------------------------------------------------- what a relaunch brings

  /** Where the run has been given URLs, it has been given the first `n`. */
  predicate SeededPast(r: Run, n: nat) {
    match r
    case Working(k) => k >= n
    case Decided(k, _, _) => k >= n
    case Written(k) => k >= n
    case _ => true
  }

  /** The task is what became of `was`: its list and steps no less, and its run given all that list. */
  ghost predicate CameFrom(was: Task, t: Task) {
    t.kind.Batch? && Urls(was) <= Urls(t) && was.steps <= t.steps && SeededPast(t.run, |Urls(was)|)
  }

  lemma StepCameFrom(was: Task, t: Task, a: TaskAction, closing: bool)
    requires CameFrom(was, t)
    ensures CameFrom(was, TaskStep(t, a, closing))
  {
  }

  lemma ActionCameFrom(was: Task, e: Engine, a: Action, i: nat)
    requires i < |e.tasks| && CameFrom(was, e.tasks[i])
    ensures i < |Apply(e, a).tasks| && CameFrom(was, Apply(e, a).tasks[i])
  {
    ListKept(e, a, i);
    if a.On? && a.id == i {
      StepCameFrom(was, e.tasks[i], a.step, e.closing);
    }
  }

  lemma {:induction false} RunCameFrom(was: Task, e: Engine, actions: seq<Action>, i: nat)
    requires i < |e.tasks| && CameFrom(was, e.tasks[i])
    ensures i < |Execute(e, actions).tasks| && CameFrom(was, Execute(e, actions).tasks[i])
    decreases |actions|
  {
    if actions != [] {
      ActionCameFrom(was, e, actions[0], i);
      RunCameFrom(was, Apply(e, actions[0]), actions[1..], i);
    }
  }

  // A relaunched batch that comes to write a completed, uncut end has recorded at least one step more, whatever else went on.
  lemma RelaunchRecords(e: Engine, actions: seq<Action>, i: nat)
    requires Inv(e) && i < |e.tasks| && e.tasks[i].kind.Batch? && e.tasks[i].run.Opening? && Outstanding(e.tasks[i])
    ensures var e' := Execute(e, actions);
      && i < |e'.tasks| && e.tasks[i].steps <= e'.tasks[i].steps
      && (e'.tasks[i].run.Written? && e'.tasks[i].status.Completed? && !e'.tasks[i].cut ==> |e'.tasks[i].steps| > |e.tasks[i].steps|)
  {
    var was := e.tasks[i];
    ExecuteKeeps(e, actions);
    RunCameFrom(was, e, actions, i);
    var t := Execute(e, actions).tasks[i];
    if t.run.Written? && t.status.Completed? && !t.cut {
      assert WellFormed(t);
      var u :| u in Urls(was) && u !in was.steps;
      var k :| 0 <= k < |Urls(was)| && Urls(was)[k] == u;
      assert Urls(t)[k] == u;
      SubsetSize(was.steps + {u}, t.steps);
    }
  }
}
