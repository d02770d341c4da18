/** Over every run of the engine: which URLs can be lost, which ends are final, and what its events say. */
module LifecycleSafety {
  import opened Options
  import opened Sequences
  import opened Lifecycle
  import opened LifecycleInvariant
  import opened Reachability

  // ---------------------------------------------------------------- no accepted URL is lost

  /** A completed batch nothing will run again although it has a URL without a step. */
  ghost predicate Lost(t: Task) {
    t.kind.Batch? && t.status.Completed? && !t.cut && t.run.Idle? && Outstanding(t)
  }

  /** A completed batch whose URLs without a step are known to this process alone: its row does not say it must run again. */
  ghost predicate Exposed(t: Task) {
    t.kind.Batch? && t.status.Completed? && !t.cut && (t.run.Written? || t.run.Opening?) && Outstanding(t)
  }

  /** The only ways a URL is lost: the process is gone, or the store throws at the relaunch, while a batch is exposed. */
  ghost predicate Loses(e: Engine, a: Action) {
    match a
    case Restart(_, _) => exists i :: 0 <= i < |e.tasks| && Exposed(e.tasks[i])
    case On(id, step) => step.OpenFails? && id < |e.tasks| && e.tasks[id].run.Opening? && Exposed(e.tasks[id])
    case _ => false
  }

  ghost predicate SomeLost(e: Engine) {
    exists i :: 0 <= i < |e.tasks| && Lost(e.tasks[i])
  }

  lemma StepLoses(t: Task, a: TaskAction, closing: bool)
    requires WellFormed(t) && !Lost(t)
    ensures Lost(TaskStep(t, a, closing)) <==> a.OpenFails? && t.run.Opening? && Exposed(t)
  {
  }

  lemma RestartLoses(t: Task, resume: bool, refused: bool)
    requires WellFormed(t) && !Lost(t)
    ensures Lost(NextProcess(t, resume, refused)) <==> Exposed(t)
  {
  }

  // One action loses a URL in exactly the named cases.
  lemma LossExactly(e: Engine, a: Action)
    requires Inv(e) && !SomeLost(e)
    ensures SomeLost(Apply(e, a)) <==> Loses(e, a)
  {
    var e' := Apply(e, a);
    match a {
      case On(id, step) =>
        if id < |e.tasks| {
          StepLoses(e.tasks[id], step, e.closing);
          assert e'.tasks[id] == TaskStep(e.tasks[id], step, e.closing);
          assert Loses(e, a) <==> Lost(e'.tasks[id]);
        }
      case Restart(resume, withheld) =>
        forall i | 0 <= i < |e.tasks| ensures Lost(e'.tasks[i]) <==> Exposed(e.tasks[i]) {
          RestartLoses(e.tasks[i], resume, i in withheld);
        }
      case _ =>
        forall i | 0 <= i < |e'.tasks| ensures !Lost(e'.tasks[i]) {
          if i < |e.tasks| {
            assert !Lost(e.tasks[i]);
          }
        }
    }
  }

  ghost predicate NeverLost(e: Engine, actions: seq<Action>)
    decreases |actions|
  {
    !SomeLost(e) && (actions != [] ==> NeverLost(Apply(e, actions[0]), actions[1..]))
  }

  ghost predicate Spared(e: Engine, actions: seq<Action>)
    decreases |actions|
  {
    actions != [] ==> !Loses(e, actions[0]) && Spared(Apply(e, actions[0]), actions[1..])
  }

  // Over a whole run no URL is lost if and only if no crash and no failed opening hits an exposed batch.
  lemma {:induction false} NoUrlLost(e: Engine, actions: seq<Action>)
    requires Inv(e) && !SomeLost(e)
    ensures NeverLost(e, actions) <==> Spared(e, actions)
    decreases |actions|
  {
    if actions != [] {
      LossExactly(e, actions[0]);
      ApplyKeeps(e, actions[0]);
      if !Loses(e, actions[0]) {
        NoUrlLost(Apply(e, actions[0]), actions[1..]);
      }
    }
  }

  /** Where a URL of a batch stands: fetched, being worked on, to be run again at the next start, or excused by the batch's own end. */
  ghost predicate Accounted(t: Task, u: Url) {
    u in t.steps || !t.run.Idle? || Active(t.status) || t.status.Cancelled? || t.status.Failed? || t.cut
  }

  // From the empty engine: after any spared run every URL of every batch is accounted for.
  lemma {:induction false} EveryUrlAccounted(limit: Option<nat>, actions: seq<Action>)
    requires Spared(Init(limit), actions)
    ensures forall i, u ::
      var e := Execute(Init(limit), actions);
      0 <= i < |e.tasks| && u in Urls(e.tasks[i]) ==> Accounted(e.tasks[i], u)
  {
    NoUrlLost(Init(limit), actions);
    EndNotLost(Init(limit), actions);
    var e := Execute(Init(limit), actions);
    ExecuteKeeps(Init(limit), actions);
    forall i, u | 0 <= i < |e.tasks| && u in Urls(e.tasks[i]) ensures Accounted(e.tasks[i], u) {
      assert !Lost(e.tasks[i]);
    }
  }

  lemma {:induction false} EndNotLost(e: Engine, actions: seq<Action>)
    requires NeverLost(e, actions)
    ensures !SomeLost(Execute(e, actions))
    decreases |actions|
  {
    if actions != [] {
      EndNotLost(Apply(e, actions[0]), actions[1..]);
    }
  }

  lemma CrashesExposed()
    ensures Apply(Alone(None, STORED_GROWN), Restart(true, {})) == Alone(None, STORED_GROWN.(run := Idle))
    ensures SomeLost(Alone(None, STORED_GROWN.(run := Idle)))
  {
    var lost := STORED_GROWN.(run := Idle);
    assert lost.kind.urls[1] == "b" && "b" !in lost.steps;
    assert Lost(Alone(None, lost).tasks[0]);
  }

  // A URL is lost in a run from the start: appended after the workers stopped, its row written as completed, and the process gone.
  lemma UrlLostHappens()
    ensures exists e :: Reachable(None, e) && SomeLost(e)
  {
    ReachesStoredGrown(None);
    CrashesExposed();
    ReachNext(None, Alone(None, STORED_GROWN), Restart(true, {}), Alone(None, STORED_GROWN.(run := Idle)));
  }

  // ---------------------------------------------------------------- the list only grows

  lemma StepKind(t: Task, step: TaskAction, closing: bool)
    ensures TaskStep(t, step, closing).kind == t.kind
  {
  }

  /** The task is of the same kind, its list no shorter and begun alike. */
  ghost predicate SameJob(t: Task, t': Task) {
    (t'.kind.Batch? <==> t.kind.Batch?) && Urls(t) <= Urls(t')
  }

  lemma RequestKind(e: Engine, a: Action, i: nat)
    requires i < |e.tasks| && !a.On?
    ensures i < |Apply(e, a).tasks| && SameJob(e.tasks[i], Apply(e, a).tasks[i])
    ensures a.Restart? ==> Apply(e, a).tasks[i].kind == e.tasks[i].kind
  {
  }

  lemma ListKept(e: Engine, a: Action, i: nat)
    requires i < |e.tasks|
    ensures i < |Apply(e, a).tasks| && SameJob(e.tasks[i], Apply(e, a).tasks[i])
    ensures a.On? || a.Restart? ==> Apply(e, a).tasks[i].kind == e.tasks[i].kind
  {
    if !a.On? {
      RequestKind(e, a, i);
    } else if a.id == i {
      StepKind(e.tasks[i], a.step, e.closing);
    }
  }

  // Every action keeps a batch's list as a prefix of the new one, within the bound and without repeats.
  lemma ListOnlyGrows(e: Engine, a: Action, i: nat)
    requires Inv(e) && i < |e.tasks|
    ensures i < |Apply(e, a).tasks| && Urls(e.tasks[i]) <= Urls(Apply(e, a).tasks[i])
    ensures e.tasks[i].kind.Batch? ==> |Urls(Apply(e, a).tasks[i])| <= 1000 && Distinct(Urls(Apply(e, a).tasks[i]))
    ensures a.On? || a.Restart? ==> Urls(e.tasks[i]) == Urls(Apply(e, a).tasks[i])
  {
    ListKept(e, a, i);
    ApplyKeeps(e, a);
    assert WellFormed(Apply(e, a).tasks[i]);
  }

  // ---------------------------------------------------------------- which ends are final

  /** A counted append to task `i` is about to write the row. */
  predicate CountedAppendLands(e: Engine, a: Action, i: nat) {
    && a.Commit? && e.submission.Counting? && e.submission.left == {}
    && e.limit.Some? && e.submission.count < e.limit.value
    && e.submission.request.AppendTo? && e.submission.request.id == i
  }

  function StatusAfter(e: Engine, actions: seq<Action>, i: nat): Status
    requires i < |e.tasks|
  {
    KeepsTasks(e, actions);
    Execute(e, actions).tasks[i].status
  }

  lemma {:induction false} KeepsTasks(e: Engine, actions: seq<Action>)
    ensures |e.tasks| <= |Execute(e, actions).tasks|
    decreases |actions|
  {
    if actions != [] {
      KeepsTasks(Apply(e, actions[0]), actions[1..]);
    }
  }

  lemma GrownOutstanding(t: Task, more: seq<Url>, rerun: bool)
    requires WellFormed(t) && t.kind.Batch? && more != [] && more[0] !in t.kind.urls
    ensures Outstanding(Extend(t, more, rerun))
  {
    var t' := Extend(t, more, rerun);
    assert t'.kind.urls[|t.kind.urls|] == more[0];
    assert more[0] in Urls(t') && more[0] !in t'.steps;
  }

  lemma StepEndsHold(t: Task, step: TaskAction, closing: bool)
    requires WellFormed(t)
    ensures t.kind.Crawl? && t.status.Completed? ==> TaskStep(t, step, closing).status.Completed?
    ensures t.kind.Batch? && t.status.Completed? && !TaskStep(t, step, closing).status.Completed? ==> step.OpenRun? && Outstanding(TaskStep(t, step, closing))
    ensures t.kind.Batch? && t.status.Failed? ==> TaskStep(t, step, closing).status.Failed?
  {
  }

  // A completed crawl never leaves completed; a completed batch leaves it only with a URL to fetch, by an
  // append or by the run that fetches what an append added; a failed batch leaves it only by a counted append.
  lemma EndsHold(e: Engine, a: Action, i: nat)
    requires Inv(e) && i < |e.tasks|
    ensures e.tasks[i].kind.Crawl? && e.tasks[i].status.Completed? ==> Apply(e, a).tasks[i].status.Completed?
    ensures e.tasks[i].kind.Batch? && e.tasks[i].status.Completed? && !Apply(e, a).tasks[i].status.Completed? ==>
      Outstanding(Apply(e, a).tasks[i]) && (a == On(i, OpenRun) || (a.BeginAppend? && a.id == i) || CountedAppendLands(e, a, i))
    ensures e.tasks[i].kind.Batch? && e.tasks[i].status.Failed? && !Apply(e, a).tasks[i].status.Failed? ==> CountedAppendLands(e, a, i)
  {
    var t := e.tasks[i];
    if a.On? && a.id == i {
      StepEndsHold(t, a.step, e.closing);
    } else if a.BeginAppend? && a.id == i && Appendable(t, a.urls) {
      GrownOutstanding(t, a.urls, t.status.Completed?);
    } else if CountedAppendLands(e, a, i) && t.kind.Batch? {
      GrownOutstanding(t, e.submission.request.urls, true);
    }
  }

  lemma {:induction false} CompletedCrawlForGood(e: Engine, actions: seq<Action>, i: nat)
    requires Inv(e) && i < |e.tasks| && e.tasks[i].kind.Crawl? && e.tasks[i].status.Completed?
    ensures StatusAfter(e, actions, i) == Completed
    decreases |actions|
  {
    if actions != [] {
      CompletedCrawlStays(e, actions[0], i);
      CompletedCrawlForGood(Apply(e, actions[0]), actions[1..], i);
    }
  }

  lemma CompletedCrawlStays(e: Engine, a: Action, i: nat)
    requires Inv(e) && i < |e.tasks| && e.tasks[i].kind.Crawl? && e.tasks[i].status.Completed?
    ensures var e' := Apply(e, a); Inv(e') && i < |e'.tasks| && e'.tasks[i].kind.Crawl? && e'.tasks[i].status.Completed?
  {
    EndsHold(e, a, i);
    ApplyKeeps(e, a);
  }

  // What a job's subscribers were told: every announced end is a terminal status, and a crawl announced as
  // completed or cancelled has that status still, whatever came after.
  lemma AnnouncedEndsHold(limit: Option<nat>, actions: seq<Action>, k: nat)
    requires k < |Execute(Init(limit), actions).log|
    ensures
      var e := Execute(Init(limit), actions);
      var ending := e.log[k];
      ending.id < |e.tasks| && Terminal(ending.status)
      && (e.tasks[ending.id].kind.Crawl? && !ending.status.Failed? ==> e.tasks[ending.id].status == ending.status)
  {
    ExecuteKeeps(Init(limit), actions);
    var e := Execute(Init(limit), actions);
    assert EndingHolds(e, e.log[k]);
  }

  // ---------------------------------------------------------------- what the events say

  /** Task `id` had status `s` after the first `m` actions. */
  ghost predicate HadStatus(limit: Option<nat>, actions: seq<Action>, m: nat, id: nat, s: Status) {
    m <= |actions| && var e := Execute(Init(limit), actions[..m]); id < |e.tasks| && e.tasks[id].status == s
  }

  ghost predicate EverHad(limit: Option<nat>, actions: seq<Action>, n: nat, id: nat, s: Status) {
    exists m: nat :: m <= n && HadStatus(limit, actions, m, id, s)
  }

  /** Every event told, and every status read for one, was its task's own at some moment until then. */
  ghost predicate ToldTrue(limit: Option<nat>, actions: seq<Action>, n: nat, e: Engine) {
    && (forall k :: 0 <= k < |e.log| ==> EverHad(limit, actions, n, e.log[k].id, e.log[k].status))
    && forall i :: 0 <= i < |e.tasks| && e.tasks[i].run.Finishing? ==> EverHad(limit, actions, n, i, e.tasks[i].run.read)
  }

  lemma StepTells(t: Task, step: TaskAction, closing: bool)
    ensures var t' := TaskStep(t, step, closing);
      && (t'.run.Finishing? ==> t.status == t'.run.read || (t.run.Finishing? && t.run.read == t'.run.read))
      && (Announced(t, step, closing).Some? ==> SaysOf(t, t', Announced(t, step, closing).value))
  {
  }

  /** The status the row has after the step, or the one read before it. */
  predicate SaysOf(t: Task, t': Task, s: Status) {
    t'.status == s || (t.run.Finishing? && t.run.read == s)
  }

  /** A status being announced after an action was the row's before it, or was being announced already. */
  ghost predicate ReadsTrue(e: Engine, e': Engine) {
    forall i :: 0 <= i < |e'.tasks| && e'.tasks[i].run.Finishing? ==>
      i < |e.tasks| && (e.tasks[i].status == e'.tasks[i].run.read || (e.tasks[i].run.Finishing? && e.tasks[i].run.read == e'.tasks[i].run.read))
  }

  lemma OnTells(e: Engine, id: nat, step: TaskAction)
    requires id < |e.tasks|
    ensures var e' := Apply(e, On(id, step));
      && ReadsTrue(e, e') && (e'.log == e.log || exists s :: e'.log == e.log + [Ending(id, s)] && SaysOf(e.tasks[id], e'.tasks[id], s))
  {
    StepTells(e.tasks[id], step, e.closing);
  }

  lemma RequestTells(e: Engine, a: Action)
    requires !a.On?
    ensures ReadsTrue(e, Apply(e, a)) && Apply(e, a).log == e.log
  {
  }

  // What one action adds: an event with the status read before, or the status the row has after.
  lemma ActionTells(e: Engine, a: Action)
    ensures var e' := Apply(e, a);
      && ReadsTrue(e, e')
      && forall k :: 0 <= k < |e'.log| ==> (k < |e.log| && e'.log[k] == e.log[k]) || NewEnding(e, e', e'.log[k])
  {
    if a.On? && a.id < |e.tasks| {
      OnTells(e, a.id, a.step);
    } else if !a.On? {
      RequestTells(e, a);
    }
  }

  ghost predicate NewEnding(e: Engine, e': Engine, ending: Ending) {
    ending.id < |e.tasks| == |e'.tasks| && SaysOf(e.tasks[ending.id], e'.tasks[ending.id], ending.status)
  }

  lemma EverHadStill(limit: Option<nat>, actions: seq<Action>, n: nat, id: nat, s: Status)
    requires EverHad(limit, actions, n, id, s)
    ensures EverHad(limit, actions, n + 1, id, s)
  {
    var m: nat :| m <= n && HadStatus(limit, actions, m, id, s);
    assert m <= n + 1;
  }

  lemma NextTells(limit: Option<nat>, actions: seq<Action>, n: nat, e: Engine, e': Engine)
    requires n < |actions| && Execute(Init(limit), actions[..n]) == e && Execute(Init(limit), actions[..n + 1]) == e' == Apply(e, actions[n])
    requires ToldTrue(limit, actions, n, e)
    ensures ToldTrue(limit, actions, n + 1, e')
  {
    ActionTells(e, actions[n]);
    forall k | 0 <= k < |e'.log| ensures EverHad(limit, actions, n + 1, e'.log[k].id, e'.log[k].status) {
      var ending := e'.log[k];
      if k >= |e.log| && e'.tasks[ending.id].status == ending.status {
        assert HadStatus(limit, actions, n + 1, ending.id, ending.status);
      } else {
        EverHadStill(limit, actions, n, ending.id, ending.status);
      }
    }
    forall i | 0 <= i < |e'.tasks| && e'.tasks[i].run.Finishing? ensures EverHad(limit, actions, n + 1, i, e'.tasks[i].run.read) {
      if e.tasks[i].status == e'.tasks[i].run.read {
        assert HadStatus(limit, actions, n, i, e'.tasks[i].run.read);
      }
      EverHadStill(limit, actions, n, i, e'.tasks[i].run.read);
    }
  }

  lemma {:induction false} EventsTold(limit: Option<nat>, actions: seq<Action>, n: nat)
    requires n <= |actions|
    ensures ToldTrue(limit, actions, n, Execute(Init(limit), actions[..n]))
  {
    if n > 0 {
      EventsTold(limit, actions, n - 1);
      assert actions[..n] == actions[..n - 1] + [actions[n - 1]];
      ExecuteLast(Init(limit), actions[..n - 1], actions[n - 1]);
      NextTells(limit, actions, n - 1, Execute(Init(limit), actions[..n - 1]), Execute(Init(limit), actions[..n]));
    }
  }

  // What a job's subscribers were told: every event carries a terminal status its own row had by then, batch or crawl.
  lemma EventsTellTheRow(limit: Option<nat>, actions: seq<Action>, k: nat)
    requires k < |Execute(Init(limit), actions).log|
    ensures var ending := Execute(Init(limit), actions).log[k];
      Terminal(ending.status) && EverHad(limit, actions, |actions|, ending.id, ending.status)
  {
    AnnouncedEndsHold(limit, actions, k);
    EventsTold(limit, actions, |actions|);
    assert actions[..|actions|] == actions;
  }
}
