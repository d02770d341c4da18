/** What a run of the engine from its start can come to, and the one-task states its concrete runs go through. */
module Reachability {
  import opened Options
  import opened Lifecycle

  ghost predicate Reachable(limit: Option<nat>, e: Engine) {
    exists actions :: Execute(Init(limit), actions) == e
  }

  lemma {:induction false} ExecuteLast(e: Engine, actions: seq<Action>, a: Action)
    ensures Execute(e, actions + [a]) == Apply(Execute(e, actions), a)
    decreases |actions|
  {
    if actions == [] {
      assert (actions + [a])[1..] == [] && Execute(Apply(e, a), []) == Apply(e, a);
    } else {
      assert (actions + [a])[0] == actions[0] && (actions + [a])[1..] == actions[1..] + [a];
      ExecuteLast(Apply(e, actions[0]), actions[1..], a);
    }
  }

  lemma ReachNext(limit: Option<nat>, e: Engine, a: Action, next: Engine)
    requires Reachable(limit, e) && Apply(e, a) == next
    ensures Reachable(limit, next)
  {
    var actions :| Execute(Init(limit), actions) == e;
    ExecuteLast(Init(limit), actions, a);
  }

  lemma ReachInit(limit: Option<nat>)
    ensures Reachable(limit, Init(limit))
  {
    assert Execute(Init(limit), []) == Init(limit);
  }

  /** The engine with one task and nothing else under way. */
  function Alone(limit: Option<nat>, t: Task): Engine {
    Engine(limit, [t], Free, false, [], {})
  }

  // A step that ends nothing and revives nothing leaves the task alone.
  lemma AloneStep(limit: Option<nat>, t: Task, step: TaskAction)
    requires Announced(t, step, false).None? && !Revives(t, TaskStep(t, step, false))
    ensures Apply(Alone(limit, t), On(0, step)) == Alone(limit, TaskStep(t, step, false))
  {
  }

  lemma ReachStep(limit: Option<nat>, t: Task, step: TaskAction)
    requires Reachable(limit, Alone(limit, t)) && Announced(t, step, false).None? && !Revives(t, TaskStep(t, step, false))
    ensures Reachable(limit, Alone(limit, TaskStep(t, step, false)))
  {
    AloneStep(limit, t, step);
    ReachNext(limit, Alone(limit, t), On(0, step), Alone(limit, TaskStep(t, step, false)));
  }

  // ---------------------------------------------------------------- a batch of one URL

  const LAUNCHED := Task(Batch(["a"]), Pending, {}, false, Opening, false, false)
  const STARTED := LAUNCHED.(status := Running, run := Working(1))
  const FETCHED := STARTED.(steps := {"a"})
  const STOPPED := FETCHED.(run := Decided(1, Completed, false))
  const STORED := STOPPED.(status := Completed, run := Written(1))
  const ANNOUNCING := STORED.(run := Finishing(Completed))

  const STOPPED_GROWN := STOPPED.(kind := Batch(["a", "b"]))
  const STORED_GROWN := STOPPED_GROWN.(status := Completed, run := Written(1))
  const REOPENING := STORED_GROWN.(run := Opening)
  const REOPENED := REOPENING.(status := Running, run := Working(2))

  lemma FetchesOne()
    ensures TaskStep(LAUNCHED, OpenRun, false) == STARTED && TaskStep(STARTED, Record("a"), false) == FETCHED
  {
    assert STARTED.kind.urls[0] == "a" && STARTED.steps + {"a"} == {"a"};
  }

  lemma EndsOne()
    ensures TaskStep(FETCHED, Stop(false, false), false) == STOPPED && TaskStep(STOPPED, WriteRow, false) == STORED
    ensures TaskStep(STORED, CheckOutstanding, false) == ANNOUNCING && TaskStep(STOPPED_GROWN, WriteRow, false) == STORED_GROWN
  {
  }

  lemma ReachesLaunched(limit: Option<nat>)
    requires limit == None || limit == Some(1)
    ensures Reachable(limit, Alone(limit, LAUNCHED))
  {
    ReachInit(limit);
    var asked := Apply(Init(limit), BeginBatch(["a"], false));
    ReachNext(limit, Init(limit), BeginBatch(["a"], false), asked);
    if limit.Some? {
      ReachNext(limit, asked, Commit, Alone(limit, LAUNCHED));
    } else {
      assert asked == Alone(limit, LAUNCHED);
    }
  }

  // With no limit, or a limit of one: the batch is started, fetched and about to write its end.
  lemma ReachesStopped(limit: Option<nat>)
    requires limit == None || limit == Some(1)
    ensures Reachable(limit, Alone(limit, STOPPED))
  {
    FetchesOne();
    EndsOne();
    ReachesLaunched(limit);
    ReachStep(limit, LAUNCHED, OpenRun);
    ReachStep(limit, STARTED, Record("a"));
    ReachStep(limit, FETCHED, Stop(false, false));
  }

  lemma ReachesAnnouncing(limit: Option<nat>)
    requires limit == None || limit == Some(1)
    ensures Reachable(limit, Alone(limit, ANNOUNCING))
  {
    EndsOne();
    ReachesStopped(limit);
    ReachStep(limit, STOPPED, WriteRow);
    ReachStep(limit, STORED, CheckOutstanding);
  }

  // A URL appended after the workers stopped; then the row is written as completed.
  lemma ReachesStoredGrown(limit: Option<nat>)
    requires limit == None || limit == Some(1)
    ensures Reachable(limit, Alone(limit, STOPPED_GROWN)) && Reachable(limit, Alone(limit, STORED_GROWN))
  {
    EndsOne();
    ReachesStopped(limit);
    assert ["a"] + ["b"] == ["a", "b"] && Appendable(STOPPED, ["b"]);
    ReachNext(limit, Alone(limit, STOPPED), BeginAppend(0, ["b"]), Alone(limit, STOPPED_GROWN));
    ReachStep(limit, STOPPED_GROWN, WriteRow);
  }
}
