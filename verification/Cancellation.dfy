/** When a cancellation holds, and when the end of a cancelled job is announced as one. */
module Cancellation {
  import opened Options
  import opened Lifecycle
  import opened LifecycleInvariant
  import opened LifecycleSafety
  import opened Reachability

  // ---------------------------------------------------------------- when it holds

  /** The run of a task has stopped with another end than a cancellation and is about to write it. */
  predicate DecidedOtherwise(t: Task) {
    t.run.Decided? && !t.run.outcome.Cancelled?
  }

  // A cancelled row stops being cancelled in exactly two cases: its run, having decided its end before the
  // cancellation, writes that end over it; or an append that was being counted writes its row over it.
  lemma CancelUndoneExactly(e: Engine, a: Action, i: nat)
    requires Inv(e) && i < |e.tasks| && e.tasks[i].status.Cancelled?
    ensures !Apply(e, a).tasks[i].status.Cancelled? <==>
      (a == On(i, WriteRow) && DecidedOtherwise(e.tasks[i])) || CountedAppendLands(e, a, i)
  {
    assert WellFormed(e.tasks[i]);
    if a.Commit? && e.submission.Counting? {
      assert RequestFits(e, e.submission.request);
    }
  }

  /** An append to the task is being counted, and the count has not reached the limit. */
  predicate UnderCount(e: Engine, i: nat) {
    && e.submission.Counting? && e.submission.request.AppendTo? && e.submission.request.id == i
    && e.limit.Some? && e.submission.count < e.limit.value
  }

  /** A cancellation nothing under way can write over. */
  predicate CancelSettled(e: Engine, i: nat)
    requires i < |e.tasks|
  {
    e.tasks[i].status.Cancelled? && !DecidedOtherwise(e.tasks[i]) && !UnderCount(e, i)
  }

  lemma SettledStays(e: Engine, a: Action, i: nat)
    requires Inv(e) && i < |e.tasks| && CancelSettled(e, i)
    ensures i < |Apply(e, a).tasks| && CancelSettled(Apply(e, a), i)
  {
    CancelUndoneExactly(e, a, i);
    assert WellFormed(e.tasks[i]);
  }

  lemma {:induction false} SettledForGood(e: Engine, actions: seq<Action>, i: nat)
    requires Inv(e) && i < |e.tasks| && CancelSettled(e, i)
    ensures StatusAfter(e, actions, i) == Cancelled
    decreases |actions|
  {
    if actions != [] {
      SettledStays(e, actions[0], i);
      ApplyKeeps(e, actions[0]);
      SettledForGood(Apply(e, actions[0]), actions[1..], i);
    }
  }

  lemma StatusLater(e: Engine, a: Action, rest: seq<Action>, i: nat)
    requires Inv(e) && i < |e.tasks|
    ensures i < |Apply(e, a).tasks| && StatusAfter(e, [a] + rest, i) == StatusAfter(Apply(e, a), rest, i)
  {
    assert ([a] + rest)[0] == a && ([a] + rest)[1..] == rest;
    ListOnlyGrows(e, a, i);
  }

  lemma StatusNext(e: Engine, a: Action, i: nat)
    requires Inv(e) && i < |e.tasks|
    ensures i < |Apply(e, a).tasks| && StatusAfter(e, [a], i) == Apply(e, a).tasks[i].status
  {
    StatusLater(e, a, [], i);
    assert [a] + [] == [a];
  }

  // Cancelled before the count reads it, a row is not counted.
  lemma ReadCancelled(e: Engine, i: nat, row: nat)
    requires Inv(e) && i < |e.tasks| && e.tasks[i].status.Cancelled? && UnderCount(e, i) && row in e.submission.left
    ensures var e' := Apply(Apply(e, On(row, Cancel)), ReadRow(row));
      Inv(e') && i < |e'.tasks| && e'.tasks[i].status.Cancelled? && UnderCount(e', i) && e'.submission.left == e.submission.left - {row}
  {
    ApplyKeeps(e, On(row, Cancel));
    ApplyKeeps(Apply(e, On(row, Cancel)), ReadRow(row));
  }

  // The count can be brought to its end below the limit, by cancelling each row left before it is read; then the append's row is written.
  lemma {:induction false} CountLands(e: Engine, i: nat) returns (actions: seq<Action>)
    requires Inv(e) && i < |e.tasks| && e.tasks[i].status.Cancelled? && UnderCount(e, i)
    ensures StatusAfter(e, actions, i) != Cancelled
    decreases |e.submission.left|
  {
    if e.submission.left == {} {
      actions := [Commit];
      StatusNext(e, Commit, i);
      CancelUndoneExactly(e, Commit, i);
    } else {
      var row :| row in e.submission.left;
      ReadCancelled(e, i, row);
      var cancelled := Apply(e, On(row, Cancel));
      ApplyKeeps(e, On(row, Cancel));
      var rest := CountLands(Apply(cancelled, ReadRow(row)), i);
      actions := [On(row, Cancel)] + ([ReadRow(row)] + rest);
      StatusLater(e, On(row, Cancel), [ReadRow(row)] + rest, i);
      StatusLater(cancelled, ReadRow(row), rest, i);
    }
  }

  // A cancelled task stays cancelled over every continuation if and only if its run has not decided to end otherwise and no append
  // to it is under way whose count is below the limit.
  lemma CancelHoldsExactly(e: Engine, i: nat)
    requires Inv(e) && i < |e.tasks| && e.tasks[i].status.Cancelled?
    ensures (forall actions :: StatusAfter(e, actions, i) == Cancelled) <==> !DecidedOtherwise(e.tasks[i]) && !UnderCount(e, i)
  {
    if DecidedOtherwise(e.tasks[i]) {
      StatusNext(e, On(i, WriteRow), i);
      assert StatusAfter(e, [On(i, WriteRow)], i) != Cancelled;
    } else if UnderCount(e, i) {
      var actions := CountLands(e, i);
      assert StatusAfter(e, actions, i) != Cancelled;
    } else {
      forall actions ensures StatusAfter(e, actions, i) == Cancelled {
        SettledForGood(e, actions, i);
      }
    }
  }

  // The first way, in a run from the start: the batch was cancelled after its end was decided, and ends completed.
  lemma CancelLostHappens()
    ensures var cancelled := STOPPED.(status := Cancelled, aborted := true);
      Reachable(None, Alone(None, cancelled)) && Apply(Alone(None, cancelled), On(0, WriteRow)) == Alone(None, STORED)
  {
    ReachesStopped(None);
    ReachStep(None, STOPPED, Cancel);
    AloneStep(None, STOPPED.(status := Cancelled, aborted := true), WriteRow);
  }

  const COUNTED := Counting(AppendTo(0, ["c"]), {}, 0, {})

  /** The batch of one URL under an append's complete count, in the phases the runs below go through. */
  function AppendCounted(t: Task): Engine {
    Engine(Some(1), [t], COUNTED, false, [], {})
  }

  const CANCELLED := REOPENED.(status := Cancelled, aborted := true)
  const ENDING := CANCELLED.(run := Written(2), aborted := false)
  const TOLD := Engine(Some(1), [ENDING.(run := Idle)], COUNTED, false, [Ending(0, Cancelled)], {})

  lemma ReachesAppendCounted()
    ensures Reachable(Some(1), AppendCounted(STORED_GROWN))
  {
    ReachesStoredGrown(Some(1));
    var e := Alone(Some(1), STORED_GROWN);
    assert Appendable(STORED_GROWN, ["c"]);
    assert Rows(1) == {0} && Rows(1) - {0} == {};
    var begun := e.(submission := COUNTED.(left := {0}));
    ReachNext(Some(1), e, BeginAppend(0, ["c"]), begun);
    ReachNext(Some(1), begun, ReadRow(0), AppendCounted(STORED_GROWN));
  }

  lemma ReachesReopened()
    ensures Reachable(Some(1), Engine(Some(1), [REOPENED], COUNTED.(since := {0}), false, [], {0}))
  {
    ReachesAppendCounted();
    assert RelaunchNeeded(STORED_GROWN);
    ReachNext(Some(1), AppendCounted(STORED_GROWN), On(0, CheckOutstanding), AppendCounted(REOPENING));
    ReachNext(Some(1), AppendCounted(REOPENING), On(0, OpenRun), Engine(Some(1), [REOPENED], COUNTED.(since := {0}), false, [], {0}));
  }

  // The batch runs again, is cancelled and has written that end, the append's count still open.
  lemma ReachesEnding()
    ensures Reachable(Some(1), AppendCounted(CANCELLED)) && Reachable(Some(1), AppendCounted(ENDING))
  {
    ReachesReopened();
    var reopened := Engine(Some(1), [REOPENED], COUNTED.(since := {0}), false, [], {0});
    ReachNext(Some(1), reopened, On(0, Cancel), AppendCounted(CANCELLED));
    var stopped := CANCELLED.(run := Decided(2, Cancelled, false));
    ReachNext(Some(1), AppendCounted(CANCELLED), On(0, Stop(false, false)), AppendCounted(stopped));
    ReachNext(Some(1), AppendCounted(stopped), On(0, WriteRow), AppendCounted(ENDING));
  }

  // The second way, in a run from the start: a batch cancelled, idle and announced as cancelled is made pending again and launched by
  // an append whose count began before.
  lemma CountedAppendUndoesCancel()
    ensures Reachable(Some(1), TOLD) && TOLD.log == [Ending(0, Cancelled)] && TOLD.tasks[0].status.Cancelled? && TOLD.tasks[0].run.Idle?
    ensures Apply(TOLD, Commit).tasks[0].status.Pending? && Apply(TOLD, Commit).tasks[0].run.Opening?
  {
    ReachesEnding();
    var announcing := AppendCounted(ENDING.(run := Finishing(Cancelled)));
    ReachNext(Some(1), AppendCounted(ENDING), On(0, CheckOutstanding), announcing);
    ReachNext(Some(1), announcing, On(0, Announce), TOLD);
  }

  // ---------------------------------------------------------------- when it is announced

  /** The ends of task `i` announced so far, in order. */
  function EndsOf(log: seq<Ending>, i: nat): seq<Status> {
    if log == [] then []
    else EndsOf(log[..|log| - 1], i) + if log[|log| - 1].id == i then [log[|log| - 1].status] else []
  }

  /** The ends of task `i` one action announces. */
  function Said(e: Engine, a: Action, i: nat): seq<Status> {
    if a.On? && a.id == i && i < |e.tasks| && Announced(e.tasks[i], a.step, e.closing).Some?
    then [Announced(e.tasks[i], a.step, e.closing).value] else []
  }

  /** The ends of task `i` a run announces. */
  function EndsAfter(e: Engine, actions: seq<Action>, i: nat): seq<Status>
    decreases |actions|
  {
    if actions == [] then [] else Said(e, actions[0], i) + EndsAfter(Apply(e, actions[0]), actions[1..], i)
  }

  lemma ActionSays(e: Engine, a: Action, i: nat)
    ensures EndsOf(Apply(e, a).log, i) == EndsOf(e.log, i) + Said(e, a, i)
  {
    assert EndsOf(e.log, i) + [] == EndsOf(e.log, i);
    if a.On? && a.id < |e.tasks| && Announced(e.tasks[a.id], a.step, e.closing).Some? {
      var log := Apply(e, a).log;
      assert log[..|log| - 1] == e.log;
    }
  }

  lemma Joined(a: seq<Status>, b: seq<Status>, c: seq<Status>)
    ensures (a + b) + c == a + (b + c)
  {
  }

  // They are what the log has more of task `i` at the end.
  lemma {:induction false} LogSays(e: Engine, actions: seq<Action>, i: nat)
    ensures EndsOf(Execute(e, actions).log, i) == EndsOf(e.log, i) + EndsAfter(e, actions, i)
    decreases |actions|
  {
    if actions == [] {
      assert EndsOf(e.log, i) + [] == EndsOf(e.log, i);
    } else {
      var next, rest := Apply(e, actions[0]), actions[1..];
      ActionSays(e, actions[0], i);
      LogSays(next, rest, i);
      Joined(EndsOf(e.log, i), Said(e, actions[0], i), EndsAfter(next, rest, i));
    }
  }

  /** The task's run is on its way to announce a cancellation. */
  predicate Telling(t: Task) {
    match t.run
    case Idle => false
    case Opening => t.status.Cancelled? || t.aborted
    case Working(_) => t.status.Cancelled? || t.aborted
    case Decided(_, outcome, _) => outcome.Cancelled?
    case Written(_) => t.status.Cancelled?
    case Finishing(read) => read.Cancelled?
    case Failing => t.status.Cancelled?
  }

  /** The phase a cancellation meets still lets it be told: the run has neither decided another end nor read another status to announce. */
  predicate InTime(r: Run) {
    !(r.Decided? && !r.outcome.Cancelled?) && !(r.Finishing? && !r.read.Cancelled?)
  }

  /**
   * What keeps a run from telling a cancellation: the process is gone; a counted append reopens the row where only the row says
   * cancelled; or a run whose row was reopened so fails to open.
   */
  predicate Spoils(e: Engine, a: Action, i: nat)
    requires i < |e.tasks|
  {
    var t := e.tasks[i];
    || a.Restart?
    || (CountedAppendLands(e, a, i) && (t.run.Written? || t.run.Failing? || ((t.run.Opening? || t.run.Working?) && !t.aborted)))
    || (a == On(i, OpenFails) && t.run.Opening? && !t.status.Cancelled?)
  }

  lemma StepTells(t: Task, step: TaskAction, closing: bool)
    requires Telling(t) && !(step.OpenFails? && t.run.Opening? && !t.status.Cancelled?)
    ensures var t' := TaskStep(t, step, closing);
      (Telling(t') && Announced(t, step, closing).None?) || (t'.run.Idle? && Announced(t, step, closing) == Some(Cancelled))
  {
  }

  // One action keeps a run telling and says nothing of it, or ends it with the cancellation announced; or it spoils that, and says none.
  lemma TellingStep(e: Engine, a: Action, i: nat)
    requires Inv(e) && i < |e.tasks| && Telling(e.tasks[i])
    ensures i < |Apply(e, a).tasks|
    ensures var t' := Apply(e, a).tasks[i];
      if Spoils(e, a, i) then !Telling(t') && Cancelled !in Said(e, a, i)
      else (Telling(t') && Said(e, a, i) == []) || (t'.run.Idle? && Said(e, a, i) == [Cancelled])
  {
    if a.On? && a.id == i && !Spoils(e, a, i) {
      StepTells(e.tasks[i], a.step, e.closing);
    }
  }

  // A run that is not telling comes to announce a cancellation only by another cancellation.
  lemma MuteStep(e: Engine, a: Action, i: nat)
    requires Inv(e) && i < |e.tasks| && !Telling(e.tasks[i]) && a != On(i, Cancel)
    ensures i < |Apply(e, a).tasks| && !Telling(Apply(e, a).tasks[i]) && Cancelled !in Said(e, a, i)
  {
    if a.On? && a.id == i {
      StepMute(e.tasks[i], a.step, e.closing);
    }
  }

  lemma StepMute(t: Task, step: TaskAction, closing: bool)
    requires !Telling(t) && !step.Cancel?
    ensures !Telling(TaskStep(t, step, closing)) && Announced(t, step, closing) != Some(Cancelled)
  {
  }

  /** Task `i` is not cancelled again. */
  ghost predicate NoCancel(actions: seq<Action>, i: nat) {
    forall k :: 0 <= k < |actions| ==> actions[k] != On(i, Cancel)
  }

  /** Something spoils the announcement before it is made. */
  predicate SpoiledFirst(e: Engine, actions: seq<Action>, i: nat)
    decreases |actions|
  {
    && actions != [] && i < |e.tasks| && Telling(e.tasks[i])
    && (Spoils(e, actions[0], i) || SpoiledFirst(Apply(e, actions[0]), actions[1..], i))
  }

  predicate StillTelling(e: Engine, i: nat) {
    i < |e.tasks| && Telling(e.tasks[i])
  }

  lemma {:induction false} MuteTellsNoCancel(e: Engine, actions: seq<Action>, i: nat)
    requires Inv(e) && i < |e.tasks| && !Telling(e.tasks[i]) && NoCancel(actions, i)
    ensures Cancelled !in EndsAfter(e, actions, i)
    decreases |actions|
  {
    if actions != [] {
      MuteStep(e, actions[0], i);
      ApplyKeeps(e, actions[0]);
      MuteTellsNoCancel(Apply(e, actions[0]), actions[1..], i);
    }
  }

  /** A cancellation is announced, as the first of these ends and no other. */
  predicate TellsOnce(ends: seq<Status>) {
    ends != [] && ends[0] == Cancelled && Cancelled !in ends[1..]
  }

  lemma SaidThen(said: seq<Status>, after: seq<Status>)
    requires Cancelled !in after
    ensures Cancelled !in said ==> Cancelled !in said + after
    ensures said == [Cancelled] ==> TellsOnce(said + after)
  {
    assert (said + after)[|said|..] == after;
  }

  // The step that ends the telling either says the cancellation, and nothing after does, or was spoilt.
  lemma TellingEnds(e: Engine, a: Action, rest: seq<Action>, next: Engine, i: nat)
    requires Inv(e) && i < |e.tasks| && Telling(e.tasks[i]) && NoCancel(rest, i) && next == Apply(e, a) && !StillTelling(next, i)
    ensures !SpoiledFirst(next, rest, i)
    ensures var ends := Said(e, a, i) + EndsAfter(next, rest, i);
      if Spoils(e, a, i) then Cancelled !in ends else TellsOnce(ends)
  {
    TellingStep(e, a, i);
    ApplyKeeps(e, a);
    MuteTellsNoCancel(next, rest, i);
    SaidThen(Said(e, a, i), EndsAfter(next, rest, i));
  }

  lemma {:induction false} TellingTells(e: Engine, actions: seq<Action>, i: nat)
    requires Inv(e) && i < |e.tasks| && Telling(e.tasks[i]) && NoCancel(actions, i) && !StillTelling(Execute(e, actions), i)
    ensures if SpoiledFirst(e, actions, i) then Cancelled !in EndsAfter(e, actions, i) else TellsOnce(EndsAfter(e, actions, i))
    decreases |actions|
  {
    var a, rest := actions[0], actions[1..];
    var next := Apply(e, a);
    TellingStep(e, a, i);
    ApplyKeeps(e, a);
    if StillTelling(next, i) {
      TellingTells(next, rest, i);
      assert Said(e, a, i) + EndsAfter(next, rest, i) == EndsAfter(next, rest, i);
    } else {
      TellingEnds(e, a, rest, next, i);
    }
  }

  // The cancellation itself: said here when no run is in flight; else the run it met goes on to tell it when it met it in time.
  lemma CancelMeets(e: Engine, next: Engine, i: nat)
    requires Inv(e) && i < |e.tasks| && Active(e.tasks[i].status) && next == Apply(e, On(i, Cancel))
    ensures Inv(next) && i < |next.tasks|
    ensures Said(e, On(i, Cancel), i) == if e.tasks[i].run.Idle? then [Cancelled] else []
    ensures StillTelling(next, i) <==> !e.tasks[i].run.Idle? && InTime(e.tasks[i].run)
  {
    ApplyKeeps(e, On(i, Cancel));
  }

  lemma CancelThenTells(e: Engine, next: Engine, rest: seq<Action>, i: nat)
    requires Inv(e) && i < |e.tasks| && Active(e.tasks[i].status) && next == Apply(e, On(i, Cancel))
    requires NoCancel(rest, i) && !StillTelling(Execute(next, rest), i)
    ensures var ends, told := Said(e, On(i, Cancel), i) + EndsAfter(next, rest, i), InTime(e.tasks[i].run) && !SpoiledFirst(next, rest, i);
      (Cancelled in ends <==> told) && (told ==> TellsOnce(ends))
  {
    var said, after := Said(e, On(i, Cancel), i), EndsAfter(next, rest, i);
    CancelMeets(e, next, i);
    if StillTelling(next, i) {
      assert said + after == after;
      TellingTells(next, rest, i);
    } else {
      MuteTellsNoCancel(next, rest, i);
      SaidThen(said, after);
    }
  }

  // Over every continuation of the engine in which the task is not cancelled again: once its run is no longer on its way to tell,
  // the cancellation of an active task has been announced, once and as the first end, if and only if it met the run in time and
  // nothing spoiled the announcement first.
  lemma CancelToldExactly(e: Engine, rest: seq<Action>, i: nat)
    requires Inv(e) && i < |e.tasks| && Active(e.tasks[i].status)
    requires NoCancel(rest, i) && !StillTelling(Execute(Apply(e, On(i, Cancel)), rest), i)
    ensures var next := Apply(e, On(i, Cancel));
      var ends, told := Said(e, On(i, Cancel), i) + EndsAfter(next, rest, i), InTime(e.tasks[i].run) && !SpoiledFirst(next, rest, i);
      && EndsOf(Execute(next, rest).log, i) == EndsOf(e.log, i) + ends
      && (Cancelled in ends <==> told) && (told ==> TellsOnce(ends))
  {
    var next := Apply(e, On(i, Cancel));
    CancelThenTells(e, next, rest, i);
    ActionSays(e, On(i, Cancel), i);
    LogSays(next, rest, i);
    Joined(EndsOf(e.log, i), Said(e, On(i, Cancel), i), EndsAfter(next, rest, i));
  }

  const GROWN := ANNOUNCING.(kind := Batch(["a", "b"]), status := Pending)
  const LATE := GROWN.(status := Cancelled)
  const OVER := Engine(None, [LATE.(run := Idle)], Free, false, [Ending(0, Completed)], {})

  lemma ReachesLate()
    ensures Reachable(None, Alone(None, LATE))
  {
    ReachesAnnouncing(None);
    assert ["a"] + ["b"] == ["a", "b"] && Appendable(ANNOUNCING, ["b"]);
    ReachNext(None, Alone(None, ANNOUNCING), BeginAppend(0, ["b"]), Alone(None, GROWN));
    ReachStep(None, GROWN, Cancel);
  }

  // A cancellation too late to be told, in a run from the start: it is on the row, nothing is in flight, and only a completed end was
  // announced.
  lemma CancelUntoldHappens()
    ensures Reachable(None, OVER) && OVER.tasks[0].status.Cancelled? && OVER.tasks[0].run.Idle? && OVER.log == [Ending(0, Completed)]
  {
    ReachesLate();
    ReachNext(None, Alone(None, LATE), On(0, Announce), OVER);
  }

  const REOPENED_ROW := ENDING.(kind := Batch(["a", "b", "c"]), status := Pending)
  const SILENT := Alone(Some(1), REOPENED_ROW.(run := Idle))

  lemma SilentSteps()
    ensures TaskStep(REOPENED_ROW, CheckOutstanding, false) == REOPENED_ROW.(run := Finishing(Pending))
    ensures TaskStep(REOPENED_ROW.(run := Finishing(Pending)), Announce, false) == REOPENED_ROW.(run := Idle)
  {
  }

  // One in time and yet untold, in a run from the start: an append counted meanwhile reopens the row before the run reads it.
  lemma CountedAppendSilencesCancel()
    ensures Reachable(Some(1), AppendCounted(CANCELLED)) && InTime(REOPENED.run) && Telling(CANCELLED)
    ensures Reachable(Some(1), SILENT) && SILENT.tasks[0].run.Idle? && SILENT.log == []
  {
    ReachesEnding();
    SilentSteps();
    assert ["a", "b"] + ["c"] == ["a", "b", "c"];
    ReachNext(Some(1), AppendCounted(ENDING), Commit, Alone(Some(1), REOPENED_ROW));
    ReachStep(Some(1), REOPENED_ROW, CheckOutstanding);
    ReachStep(Some(1), REOPENED_ROW.(run := Finishing(Pending)), Announce);
  }
}
