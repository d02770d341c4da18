/**
 * The active-batch limit: a count that reads one row at a time, while everything but another submission goes on. The
 * only batches it does not bound are those a run's own write made active.
 */
module Admission {
  import opened Options
  import opened Lifecycle
  import opened LifecycleInvariant
  import opened Reachability

  /** Of the first `n` tasks, how many are active batches outside `except`. */
  function Outside(tasks: seq<Task>, except: set<nat>, n: nat): nat
    requires n <= |tasks|
  {
    if n == 0 then 0 else Outside(tasks, except, n - 1) + if ActiveBatch(tasks[n - 1]) && n - 1 !in except then 1 else 0
  }

  /** How many batches are pending, running or paused. */
  function ActiveBatches(tasks: seq<Task>): nat {
    Outside(tasks, {}, |tasks|)
  }

  /** Every batch an account names is active. */
  ghost predicate AllActive(e: Engine, marked: set<nat>) {
    forall i :: i in marked ==> i < |e.tasks| && ActiveBatch(e.tasks[i])
  }

  /** A count under way covers the active batches among the rows it read, but for those revived since it read them. */
  ghost predicate CountCovers(e: Engine) {
    e.submission.Counting? ==>
      && Outside(e.tasks, e.submission.left + e.submission.since, |e.tasks|) <= e.submission.count
      && e.submission.since <= e.revived && e.submission.since !! e.submission.left
  }

  ghost predicate Admitted(e: Engine) {
    && AllActive(e, e.revived) && CountCovers(e)
    && (e.limit.Some? ==> Outside(e.tasks, e.revived, |e.tasks|) <= e.limit.value)
  }

  // ---------------------------------------------------------------- counting

  /** Task `i` counts in one list only if it does in the other. */
  ghost predicate CountsOnlyIf(a: seq<Task>, x: set<nat>, b: seq<Task>, y: set<nat>, i: nat)
    requires i < |a| && i < |b|
  {
    ActiveBatch(a[i]) && i !in x ==> ActiveBatch(b[i]) && i !in y
  }

  lemma {:induction false} OutsideOrder(a: seq<Task>, x: set<nat>, b: seq<Task>, y: set<nat>, n: nat)
    requires n <= |a| && n <= |b| && forall i :: 0 <= i < n ==> CountsOnlyIf(a, x, b, y, i)
    ensures Outside(a, x, n) <= Outside(b, y, n)
  {
    if n > 0 {
      OutsideOrder(a, x, b, y, n - 1);
      assert CountsOnlyIf(a, x, b, y, n - 1);
    }
  }

  lemma {:induction false} OutsideOneMore(a: seq<Task>, x: set<nat>, b: seq<Task>, y: set<nat>, n: nat, k: nat)
    requires n <= |a| && n <= |b| && forall i :: 0 <= i < n && i != k ==> CountsOnlyIf(a, x, b, y, i)
    ensures Outside(a, x, n) <= Outside(b, y, n) + 1
    ensures k < n && !(ActiveBatch(b[k]) && k !in y) && ActiveBatch(a[k]) && k !in x && (forall i :: 0 <= i < n && i != k ==> CountsOnlyIf(b, y, a, x, i)) ==>
      Outside(a, x, n) == Outside(b, y, n) + 1
  {
    if n > 0 {
      if k == n - 1 {
        OutsideOrder(a, x, b, y, n - 1);
        if forall i :: 0 <= i < n && i != k ==> CountsOnlyIf(b, y, a, x, i) {
          OutsideOrder(b, y, a, x, n - 1);
        }
      } else {
        OutsideOneMore(a, x, b, y, n - 1, k);
        assert CountsOnlyIf(a, x, b, y, n - 1);
        if forall i :: 0 <= i < n && i != k ==> CountsOnlyIf(b, y, a, x, i) {
          assert CountsOnlyIf(b, y, a, x, n - 1);
        }
      }
    }
  }

  // Leaving an account out drops at most its members.
  lemma {:induction false} OutsideBound(tasks: seq<Task>, except: set<nat>, n: nat)
    requires n <= |tasks|
    ensures Outside(tasks, {}, n) <= Outside(tasks, except, n) + |set i | i in except && i < n|
  {
    if n > 0 {
      OutsideBound(tasks, except, n - 1);
      var before, now := set i | i in except && i < n - 1, set i | i in except && i < n;
      assert now == if n - 1 in except then before + {n - 1} else before;
    }
  }

  lemma {:induction false} OutsideNone(tasks: seq<Task>, except: set<nat>, n: nat)
    requires n <= |tasks| && forall i :: 0 <= i < n ==> i in except
    ensures Outside(tasks, except, n) == 0
  {
    if n > 0 {
      OutsideNone(tasks, except, n - 1);
    }
  }

  // Tasks that are no active batches do not count.
  lemma {:induction false} OutsideRest(tasks: seq<Task>, except: set<nat>, m: nat, n: nat)
    requires m <= n <= |tasks| && forall i :: m <= i < n ==> !ActiveBatch(tasks[i])
    ensures Outside(tasks, except, n) == Outside(tasks, except, m)
  {
    if m < n {
      OutsideRest(tasks, except, m, n - 1);
    }
  }

  // ---------------------------------------------------------------- every action

  /** Every task counts after only if it did before, outside the accounts. */
  ghost predicate NoNewOutside(e: Engine, e': Engine) {
    |e'.tasks| >= |e.tasks| && (forall i :: 0 <= i < |e.tasks| ==> CountsOnlyIf(e'.tasks, e'.revived, e.tasks, e.revived, i))
    && forall i :: |e.tasks| <= i < |e'.tasks| ==> !ActiveBatch(e'.tasks[i])
  }

  lemma NoNewWithin(e: Engine, e': Engine)
    requires NoNewOutside(e, e') && e'.limit == e.limit
    requires e.limit.Some? ==> Outside(e.tasks, e.revived, |e.tasks|) <= e.limit.value
    ensures e'.limit.Some? ==> Outside(e'.tasks, e'.revived, |e'.tasks|) <= e'.limit.value
  {
    OutsideOrder(e'.tasks, e'.revived, e.tasks, e.revived, |e.tasks|);
    OutsideRest(e'.tasks, e'.revived, |e.tasks|, |e'.tasks|);
  }

  // A task's own step puts no batch outside the accounts that was not there before.
  lemma OnAccounts(e: Engine, id: nat, step: TaskAction)
    requires id < |e.tasks| && AllActive(e, e.revived)
    ensures var e' := Apply(e, On(id, step));
      NoNewOutside(e, e') && AllActive(e', e'.revived) && e'.limit == e.limit
  {
  }

  lemma OnCovers(e: Engine, id: nat, step: TaskAction)
    requires id < |e.tasks| && CountCovers(e) && AllActive(e, e.revived)
    ensures CountCovers(Apply(e, On(id, step)))
  {
    var e' := Apply(e, On(id, step));
    if e.submission.Counting? {
      OutsideOrder(e'.tasks, e'.submission.left + e'.submission.since, e.tasks, e.submission.left + e.submission.since, |e.tasks|);
    }
  }

  lemma OnAdmits(e: Engine, id: nat, step: TaskAction)
    requires Inv(e) && Admitted(e)
    ensures Admitted(Apply(e, On(id, step)))
  {
    if id < |e.tasks| {
      OnAccounts(e, id, step);
      OnCovers(e, id, step);
      NoNewWithin(e, Apply(e, On(id, step)));
    }
  }

  /** The task counts before and after alike. */
  ghost predicate CountsAlike(e: Engine, e': Engine) {
    |e'.tasks| >= |e.tasks| && (forall i :: 0 <= i < |e.tasks| ==> (ActiveBatch(e'.tasks[i]) <==> ActiveBatch(e.tasks[i])))
    && forall i :: |e.tasks| <= i < |e'.tasks| ==> !ActiveBatch(e'.tasks[i])
  }

  lemma AlikeActive(e: Engine, e': Engine)
    requires CountsAlike(e, e')
    ensures ActiveBatches(e'.tasks) == ActiveBatches(e.tasks)
  {
    OutsideOrder(e'.tasks, {}, e.tasks, {}, |e.tasks|);
    OutsideOrder(e.tasks, {}, e'.tasks, {}, |e.tasks|);
    OutsideRest(e'.tasks, {}, |e.tasks|, |e'.tasks|);
  }

  lemma AlikeAdmits(e: Engine, e': Engine)
    requires Admitted(e) && CountsAlike(e, e') && e'.limit == e.limit && e'.revived == e.revived
    requires e'.submission == e.submission || e'.submission.Free? || (e'.submission.Counting? && e'.submission.left == Rows(|e'.tasks|) && e'.submission.since == {})
    ensures Admitted(e')
  {
    NoNewWithin(e, e');
    if e'.submission.Counting? {
      var except := e'.submission.left + e'.submission.since;
      if e'.submission == e.submission {
        OutsideOrder(e'.tasks, except, e.tasks, except, |e.tasks|);
        OutsideRest(e'.tasks, except, |e.tasks|, |e'.tasks|);
      } else {
        OutsideNone(e'.tasks, except, |e'.tasks|);
      }
    }
  }

  // An append adds no active batch: one to an active batch leaves it counted, one to a completed batch waits for the count.
  lemma AppendAddsNone(e: Engine, id: nat, urls: seq<Url>)
    requires Inv(e) && e.limit.Some?
    ensures CountsAlike(e, Apply(e, BeginAppend(id, urls)))
    ensures ActiveBatches(Apply(e, BeginAppend(id, urls)).tasks) == ActiveBatches(e.tasks)
  {
    AlikeActive(e, Apply(e, BeginAppend(id, urls)));
  }

  lemma CountAdmits(e: Engine, row: nat)
    requires Inv(e) && Admitted(e)
    ensures Admitted(Apply(e, ReadRow(row)))
  {
    if e.submission.Counting? && row in e.submission.left {
      var s := e.submission;
      var before, after := s.left + s.since, s.left - {row} + s.since;
      OutsideOneMore(e.tasks, after, e.tasks, before, |e.tasks|, row);
      if !ActiveBatch(e.tasks[row]) {
        OutsideOrder(e.tasks, after, e.tasks, before, |e.tasks|);
      }
    }
  }

  // A complete count has seen every active batch but those revived since it read them: no batch can be new since it began.
  lemma CountComplete(e: Engine)
    requires Inv(e) && Admitted(e) && e.submission.Counting? && e.submission.left == {}
    ensures Outside(e.tasks, e.submission.since, |e.tasks|) <= e.submission.count
    ensures Outside(e.tasks, e.revived, |e.tasks|) <= e.submission.count
  {
    assert e.submission.left + e.submission.since == e.submission.since;
    OutsideOrder(e.tasks, e.revived, e.tasks, e.submission.since, |e.tasks|);
  }

  /** A submission's write makes one task active at most. */
  lemma FulfilAdds(e: Engine, request: Request)
    requires RequestFits(e, request)
    ensures var e', k := Fulfil(e, request), if request.AppendTo? then request.id else |e.tasks|;
      && |e.tasks| <= |e'.tasks| && k < |e'.tasks| && e'.limit == e.limit
      && Outside(e'.tasks, e'.revived, |e'.tasks|) <= Outside(e.tasks, e.revived, |e.tasks|) + 1
      && ActiveBatches(e'.tasks) == ActiveBatches(e.tasks) + if request.AppendTo? && ActiveBatch(e.tasks[request.id]) then 0 else 1
  {
    var e' := Fulfil(e, request);
    if request.AppendTo? {
      OutsideOneMore(e'.tasks, e'.revived, e.tasks, e.revived, |e.tasks|, request.id);
      OutsideOneMore(e'.tasks, {}, e.tasks, {}, |e.tasks|, request.id);
      if ActiveBatch(e.tasks[request.id]) {
        AlikeActive(e, e');
      }
    } else {
      OutsideOrder(e'.tasks, e.revived, e.tasks, e.revived, |e.tasks|);
      OutsideOrder(e'.tasks, {}, e.tasks, {}, |e.tasks|);
      OutsideOrder(e.tasks, {}, e'.tasks, {}, |e.tasks|);
    }
  }

  // A count below the limit leaves room for the one submission it admits.
  lemma CommitAdmits(e: Engine)
    requires Inv(e) && Admitted(e)
    ensures Admitted(Apply(e, Commit))
  {
    if e.submission.Counting? && e.submission.left == {} && e.submission.count < e.limit.value {
      CountComplete(e);
      FulfilAdds(e, e.submission.request);
    }
  }

  lemma BeginAdmits(e: Engine, a: Action)
    requires Inv(e) && Admitted(e) && (a.BeginBatch? || a.BeginAppend?)
    ensures Admitted(Apply(e, a))
  {
    if e.limit.Some? {
      if a.BeginAppend? {
        AppendAddsNone(e, a.id, a.urls);
      }
      AlikeAdmits(e, Apply(e, a));
    }
  }

  lemma ApplyAdmits(e: Engine, a: Action)
    requires Inv(e) && Admitted(e)
    ensures Admitted(Apply(e, a))
  {
    match a {
      case On(id, step) => OnAdmits(e, id, step);
      case BeginBatch(urls, refused) => BeginAdmits(e, a);
      case BeginAppend(id, urls) => BeginAdmits(e, a);
      case ReadRow(row) => CountAdmits(e, row);
      case Commit => CommitAdmits(e);
      case _ => AlikeAdmits(e, Apply(e, a));
    }
  }

  lemma {:induction false} ExecuteAdmits(e: Engine, actions: seq<Action>)
    requires Inv(e) && Admitted(e)
    ensures Admitted(Execute(e, actions)) && Execute(e, actions).limit == e.limit
    decreases |actions|
  {
    if actions != [] {
      ApplyKeeps(e, actions[0]);
      ApplyAdmits(e, actions[0]);
      ExecuteAdmits(Apply(e, actions[0]), actions[1..]);
    }
  }

  // In every reachable state the active batches, but for those active now because a run revived them, are within the limit; so the
  // limit is exceeded by no more than those.
  lemma LimitHolds(limit: nat, actions: seq<Action>)
    ensures var e := Execute(Init(Some(limit)), actions);
      && AllActive(e, e.revived) && Outside(e.tasks, e.revived, |e.tasks|) <= limit
      && ActiveBatches(e.tasks) <= limit + |e.revived|
  {
    ExecuteAdmits(Init(Some(limit)), actions);
    var e := Execute(Init(Some(limit)), actions);
    OutsideBound(e.tasks, e.revived, |e.tasks|);
    assert (set i | i in e.revived && i < |e.tasks|) == e.revived;
  }

  // ---------------------------------------------------------------- when the limit is passed

  // A run revives a batch in exactly two ways: it runs again for what an append added while it was ending, or it
  // writes a pause over a cancellation that came after its end was decided.
  lemma RevivesExactly(t: Task, a: TaskAction, closing: bool)
    requires WellFormed(t)
    ensures Revives(t, TaskStep(t, a, closing)) <==> t.kind.Batch? && RunRevives(t, a)
  {
  }

  predicate RunRevives(t: Task, a: TaskAction) {
    (a.OpenRun? && t.run.Opening? && t.status.Completed?) || (a.WriteRow? && t.run.Decided? && t.run.outcome.Paused? && t.status.Cancelled?)
  }

  predicate CountBelow(e: Engine) {
    e.submission.Counting? && e.submission.left == {} && e.limit.Some? && e.submission.count < e.limit.value
  }

  /**
   * An action at a full limit that a run's revival lies behind: the revival itself, or the write of a submission counted
   * below the limit although a row it had read was revived since.
   */
  predicate Passes(e: Engine, a: Action) {
    && e.limit.Some? && ActiveBatches(e.tasks) == e.limit.value
    && match a
      case On(id, step) => id < |e.tasks| && e.tasks[id].kind.Batch? && RunRevives(e.tasks[id], step)
      case Commit =>
        && CountBelow(e) && e.submission.since != {}
        && (e.submission.request.AppendTo? && e.submission.request.id < |e.tasks| ==> !ActiveBatch(e.tasks[e.submission.request.id]))
      case _ => false
  }

  predicate WithinLimit(e: Engine) {
    e.limit.Some? ==> ActiveBatches(e.tasks) <= e.limit.value
  }

  lemma OnActive(e: Engine, id: nat, step: TaskAction)
    requires Inv(e) && id < |e.tasks|
    ensures var e', t := Apply(e, On(id, step)), e.tasks[id];
      && ActiveBatches(e'.tasks) <= ActiveBatches(e.tasks) + 1
      && (ActiveBatches(e'.tasks) == ActiveBatches(e.tasks) + 1 <==> t.kind.Batch? && RunRevives(t, step))
  {
    var e' := Apply(e, On(id, step));
    RevivesExactly(e.tasks[id], step, e.closing);
    OutsideOneMore(e'.tasks, {}, e.tasks, {}, |e.tasks|, id);
    if !Revives(e.tasks[id], e'.tasks[id]) {
      OutsideOrder(e'.tasks, {}, e.tasks, {}, |e.tasks|);
    }
  }

  lemma CommitActive(e: Engine)
    requires Inv(e) && Admitted(e) && WithinLimit(e)
    ensures WithinLimit(Apply(e, Commit)) <==> !Passes(e, Commit)
  {
    if CountBelow(e) {
      CountComplete(e);
      FulfilAdds(e, e.submission.request);
    }
  }

  // One action passes the limit in exactly the named cases.
  lemma PassesExactly(e: Engine, a: Action)
    requires Inv(e) && Admitted(e) && WithinLimit(e)
    ensures WithinLimit(Apply(e, a)) <==> !Passes(e, a)
  {
    match a {
      case On(id, step) =>
        if id < |e.tasks| {
          OnActive(e, id, step);
        }
      case Commit => CommitActive(e);
      case BeginBatch(urls, refused) =>
        if e.limit.Some? {
          AlikeActive(e, Apply(e, a));
        }
      case BeginAppend(id, urls) =>
        if e.limit.Some? {
          AppendAddsNone(e, id, urls);
        }
      case _ => AlikeActive(e, Apply(e, a));
    }
  }

  ghost predicate NeverPassed(e: Engine, actions: seq<Action>)
    decreases |actions|
  {
    WithinLimit(e) && (actions != [] ==> NeverPassed(Apply(e, actions[0]), actions[1..]))
  }

  ghost predicate NothingPasses(e: Engine, actions: seq<Action>)
    decreases |actions|
  {
    actions != [] ==> !Passes(e, actions[0]) && NothingPasses(Apply(e, actions[0]), actions[1..])
  }

  lemma {:induction false} LimitKeptFrom(e: Engine, actions: seq<Action>)
    requires Inv(e) && Admitted(e) && WithinLimit(e)
    ensures NeverPassed(e, actions) <==> NothingPasses(e, actions)
    decreases |actions|
  {
    if actions != [] {
      PassesExactly(e, actions[0]);
      ApplyKeeps(e, actions[0]);
      ApplyAdmits(e, actions[0]);
      if !Passes(e, actions[0]) {
        LimitKeptFrom(Apply(e, actions[0]), actions[1..]);
      }
    }
  }

  // Over a whole run from the start the limit is never passed if and only if no run revives a batch at a full limit and no
  // submission is written at a full limit after a revival of a row its count had read.
  lemma LimitKeptExactly(limit: Option<nat>, actions: seq<Action>)
    ensures NeverPassed(Init(limit), actions) <==> NothingPasses(Init(limit), actions)
  {
    LimitKeptFrom(Init(limit), actions);
  }

  // ---------------------------------------------------------------- that it is passed

  const BESIDE := Task(Batch(["c"]), Pending, {}, false, Opening, false, false)
  const TWO := Engine(Some(1), [REOPENED, BESIDE], Free, false, [], {0})

  /** One task, with another batch's count under way. */
  function BatchCounted(t: Task, left: set<nat>, since: set<nat>): Engine {
    Engine(Some(1), [t], Counting(NewBatch(["c"], false), left, 0, since), false, [], since)
  }

  lemma BothActive()
    ensures ActiveBatches(TWO.tasks) == 2
  {
    assert Outside(TWO.tasks, {}, 1) == 1;
  }

  lemma ReachesBatchCounted()
    ensures Reachable(Some(1), BatchCounted(STORED_GROWN, {}, {}))
  {
    ReachesStoredGrown(Some(1));
    assert Rows(1) == {0} && Rows(1) - {0} == {};
    ReachNext(Some(1), Alone(Some(1), STORED_GROWN), BeginBatch(["c"], false), BatchCounted(STORED_GROWN, {0}, {}));
    ReachNext(Some(1), BatchCounted(STORED_GROWN, {0}, {}), ReadRow(0), BatchCounted(STORED_GROWN, {}, {}));
  }

  // The revival does pass the limit, in a run from the start: one active batch is allowed; a batch got one more URL as it ended,
  // another is counted in while the first row says completed, and then the first one reopens.
  lemma RelaunchPassesLimit()
    ensures Reachable(Some(1), TWO) && ActiveBatches(TWO.tasks) == 2
  {
    ReachesBatchCounted();
    BothActive();
    assert RelaunchNeeded(STORED_GROWN);
    var beside := Engine(Some(1), [STORED_GROWN, BESIDE], Free, false, [], {});
    var reopening := beside.(tasks := [REOPENING, BESIDE]);
    ReachNext(Some(1), BatchCounted(STORED_GROWN, {}, {}), Commit, beside);
    ReachNext(Some(1), beside, On(0, CheckOutstanding), reopening);
    ReachNext(Some(1), reopening, On(0, OpenRun), TWO);
  }

  // So does the write of a submission: the first batch reopens between the count's reading its row and the write.
  lemma CountPassesLimit()
    ensures exists e :: Reachable(Some(1), e) && Passes(e, Commit) && Apply(e, Commit).tasks == TWO.tasks
  {
    ReachesBatchCounted();
    assert RelaunchNeeded(STORED_GROWN);
    ReachNext(Some(1), BatchCounted(STORED_GROWN, {}, {}), On(0, CheckOutstanding), BatchCounted(REOPENING, {}, {}));
    ReachNext(Some(1), BatchCounted(REOPENING, {}, {}), On(0, OpenRun), BatchCounted(REOPENED, {}, {0}));
    var e := BatchCounted(REOPENED, {}, {0});
    assert Outside(e.tasks, {}, 1) == 1;
    assert Apply(e, Commit).tasks == TWO.tasks;
  }
}
