/**
 * The life of a job: a durable row (kind, status, URL list, recorded steps), the run this process has
 * for it, and the requests and run phases that act on both.
 *
 * A task is named by its position in `tasks`, so a new task is a new position. A batch's URLs are
 * their canonical forms. Every action is one indivisible read-check-write, except the two the program
 * spreads out: a run's end (the status is decided, then the row is written, then the URLs without a
 * step are looked for, then the job's end is announced) and a submission the active-batch limit counts
 * (the rows are read one at a time before the new row is written).
 */
module Lifecycle {
  import opened Options

  type Url = string

  const MAX_BATCH_URLS := 1000

  datatype Status = Pending | Running | Paused | Completed | Failed | Cancelled

  predicate Active(s: Status) {
    s.Pending? || s.Running? || s.Paused?
  }

  datatype Kind = Batch(urls: seq<Url>) | Crawl(optionsStored: bool)

  /** What this process is doing for a task; every phase but Idle is an entry of the in-flight map. */
  datatype Run =
    | Idle
    | Opening                                                        // launched; its run has not read the row yet
    | Working(seeded: nat)                                           // the first `seeded` URLs are given to the workers
    | Decided(seeded: nat, outcome: Status, overBudget: bool)        // workers stopped, the end status chosen, the row not written
    | Written(seeded: nat)                                           // the row is written; the outstanding check comes next
    | Finishing(read: Status)                                        // the end is being announced with the status read
    | Failing                                                        // the run threw after its row was written as failed

  /**
   * `cut`: a budget cut the latest attempt short. `aborted`: the run's own signal has been raised.
   * `refused`: this process offers no channel for the task, so every launch of it throws.
   */
  datatype Task = Task(kind: Kind, status: Status, steps: set<Url>, cut: bool, run: Run, aborted: bool, refused: bool)

  function Urls(t: Task): seq<Url> {
    if t.kind.Batch? then t.kind.urls else []
  }

  // ---------------------------------------------------------------- one task's own steps

  datatype TaskAction =
    | OpenRun
    | OpenFails                                 // the store throws while the run opens
    | Seed                                      // the run re-reads the row and seeds what an append added
    | Record(url: Url)
    | Stop(failed: bool, overBudget: bool)      // the workers have stopped
    | WriteRow
    | CheckOutstanding
    | Announce
    | EndFailure
    | Cancel
    | Resume

  /** The steps a run takes by itself, no request behind them. */
  predicate Internal(a: TaskAction) {
    !a.Cancel? && !a.Resume?
  }

  predicate Stopping(t: Task, closing: bool) {
    t.aborted || t.status.Cancelled? || closing
  }

  ghost predicate Covered(t: Task, n: nat) {
    forall i :: 0 <= i < n && i < |Urls(t)| ==> Urls(t)[i] in t.steps
  }

  predicate Drained(t: Task, n: nat)
    ensures Drained(t, n) <==> Covered(t, n)
  {
    forall i :: 0 <= i < n && i < |Urls(t)| ==> Urls(t)[i] in t.steps
  }

  /** The handler of a run that threw: out of the in-flight map, and failed if its row still says it is active. */
  function Fail(t: Task): Task {
    t.(run := Idle, aborted := false, status := if Active(t.status) then Failed else t.status)
  }

  /** A launch: a new run with a signal of its own, or nothing when the process offers no channel. */
  function Launch(t: Task): Task {
    if t.refused then t else t.(run := Opening, aborted := false)
  }

  function DecideEnd(t: Task, closing: bool, failed: bool): Status {
    if t.aborted || t.status.Cancelled? then Cancelled
    else if closing then Paused
    else if failed then Failed
    else Completed
  }

  /** Whether the engine finds a completed batch, not cut short, with fewer steps than URLs. */
  predicate RelaunchNeeded(t: Task) {
    t.kind.Batch? && t.status.Completed? && !t.cut && |t.steps| < |t.kind.urls|
  }

  function TaskStep(t: Task, a: TaskAction, closing: bool): Task {
    match a
    case OpenRun =>
      if !t.run.Opening? then t
      else if t.status.Cancelled? then Fail(t)
      else t.(status := Running, cut := false, run := Working(|Urls(t)|))
    case OpenFails =>
      if t.run.Opening? then Fail(t) else t
    case Seed =>
      if t.run.Working? && !Stopping(t, closing) then t.(run := Working(|Urls(t)|)) else t
    case Record(url) =>
      if !t.run.Working? || Stopping(t, closing) || url in t.steps then t
      else if t.kind.Batch? && !(exists i :: 0 <= i < t.run.seeded && i < |t.kind.urls| && t.kind.urls[i] == url) then t
      else t.(steps := t.steps + {url})
    case Stop(failed, overBudget) =>
      if t.run.Working? && (Stopping(t, closing) || failed || overBudget || Drained(t, t.run.seeded))
      then t.(run := Decided(t.run.seeded, DecideEnd(t, closing, failed), overBudget))
      else t
    case WriteRow =>
      if !t.run.Decided? then t
      else t.(status := t.run.outcome, cut := t.run.overBudget, aborted := false, run := if t.run.outcome.Failed? then Failing else Written(t.run.seeded))
    case CheckOutstanding =>
      if !t.run.Written? then t
      else if RelaunchNeeded(t) then (if t.refused then Fail(t) else Launch(t))
      else t.(run := Finishing(t.status))
    case Announce =>
      if t.run.Finishing? then t.(run := Idle) else t
    case EndFailure =>
      if t.run.Failing? then Fail(t) else t
    case Cancel =>
      if Active(t.status)
      then t.(status := Cancelled, aborted := t.aborted || t.run.Opening? || t.run.Working? || t.run.Decided?)
      else t
    case Resume =>
      if t.kind.Crawl? && t.kind.optionsStored && t.run.Idle? && !t.status.Completed? && !t.status.Cancelled? && !t.refused
      then Launch(t.(status := Pending))
      else t
  }

  predicate Terminal(s: Status) {
    !Active(s)
  }

  /** The status a step announces as the job's end, if it announces one. */
  function Announced(t: Task, a: TaskAction, closing: bool): Option<Status> {
    var t' := TaskStep(t, a, closing);
    if a.Announce? && t.run.Finishing? then (if Terminal(t.run.read) then Some(t.run.read) else None)
    else if !t.run.Idle? && t'.run.Idle? && !a.Announce? then (if Terminal(t'.status) then Some(t'.status) else None)
    else if a.Cancel? && Active(t.status) && t.run.Idle? then Some(Cancelled)
    else None
  }

  /** The steps of a run by itself. */
  ghost predicate AllInternal(steps: seq<TaskAction>) {
    forall k :: 0 <= k < |steps| ==> Internal(steps[k])
  }

  function TaskRun(t: Task, steps: seq<TaskAction>, closing: bool): Task
    decreases |steps|
  {
    if steps == [] then t else TaskRun(TaskStep(t, steps[0], closing), steps[1..], closing)
  }

  /** An append's write: new URLs at the list's end; with `rerun` the row becomes pending; an idle task is launched. */
  function Extend(t: Task, more: seq<Url>, rerun: bool): Task
    requires t.kind.Batch?
  {
    var grown := t.(kind := Batch(t.kind.urls + more), status := if rerun then Pending else t.status);
    if t.run.Idle? then Launch(grown) else grown
  }

  // ---------------------------------------------------------------- the engine

  datatype Request = NewBatch(urls: seq<Url>, refused: bool) | AppendTo(id: nat, urls: seq<Url>)

  /**
   * The one submission under way. The rows `left` are still to be read, in any order; of those read, `count` were active
   * batches, and `since` keeps account of the ones a run has made active after they were read.
   */
  datatype Submission = Free | Counting(request: Request, left: set<nat>, count: nat, since: set<nat>)

  datatype Ending = Ending(id: nat, status: Status)

  /**
   * `limit`: the active-batch limit. `closing`: the service shutdown signal. `log`: the ends announced.
   * `revived` keeps account of the batches active now because a run's own write made them so, without their being counted.
   */
  datatype Engine = Engine(limit: Option<nat>, tasks: seq<Task>, submission: Submission, closing: bool, log: seq<Ending>, revived: set<nat>)

  datatype Action =
    | On(id: nat, step: TaskAction)
    | StartCrawl(refused: bool)
    | BeginBatch(urls: seq<Url>, refused: bool)
    | BeginAppend(id: nat, urls: seq<Url>)
    | ReadRow(row: nat)                             // the count reads one more row
    | Commit                                        // the count is complete: refuse, or write the row
    | Close
    | Restart(resume: bool, withheld: set<nat>)     // this process is gone, at any point; another one starts

  function NewTask(kind: Kind, refused: bool): Task {
    Launch(Task(kind, Pending, {}, false, Idle, false, refused))
  }

  predicate ActiveBatch(t: Task) {
    t.kind.Batch? && Active(t.status)
  }

  predicate ValidList(urls: seq<Url>) {
    1 <= |urls| <= MAX_BATCH_URLS && forall i, j :: 0 <= i < j < |urls| ==> urls[i] != urls[j]
  }

  predicate Appendable(t: Task, more: seq<Url>) {
    && t.kind.Batch? && ValidList(more)
    && |t.kind.urls| + |more| <= MAX_BATCH_URLS
    && (forall u :: u in more ==> u !in t.kind.urls)
    && !t.status.Cancelled? && !t.status.Failed?
  }

  predicate Revives(t: Task, t': Task) {
    !ActiveBatch(t) && ActiveBatch(t')
  }

  /** An account of revived batches after a step of one task: revived, it enters; no longer active, it leaves. */
  function Account(marked: set<nat>, id: nat, t: Task, t': Task): set<nat> {
    if Revives(t, t') then marked + {id} else if ActiveBatch(t') then marked else marked - {id}
  }

  function Watched(s: Submission, id: nat, t: Task, t': Task): Submission {
    if s.Counting? && id !in s.left then s.(since := Account(s.since, id, t, t')) else s
  }

  function NextProcess(t: Task, resume: bool, refused: bool): Task {
    var rest := t.(run := Idle, aborted := false, refused := refused);
    if resume && Active(t.status) && (t.kind.Batch? || t.kind.optionsStored) then Launch(rest) else rest
  }

  /** The rows there are when a count begins. */
  function Rows(n: nat): (rows: set<nat>)
    ensures forall i: nat :: i in rows <==> i < n
  {
    if n == 0 then {} else Rows(n - 1) + {n - 1}
  }

  function Fulfil(e: Engine, request: Request): Engine {
    match request
    case NewBatch(urls, refused) => e.(tasks := e.tasks + [NewTask(Batch(urls), refused)])
    case AppendTo(id, urls) =>
      if id >= |e.tasks| || !e.tasks[id].kind.Batch? then e
      else e.(tasks := e.tasks[id := Extend(e.tasks[id], urls, true)], revived := e.revived - {id})
  }

  function Apply(e: Engine, a: Action): Engine {
    match a
    case On(id, step) =>
      if id >= |e.tasks| then e
      else
        var t := e.tasks[id];
        var t' := TaskStep(t, step, e.closing);
        var ended := Announced(t, step, e.closing);
        e.(tasks := e.tasks[id := t'],
           submission := Watched(e.submission, id, t, t'),
           log := if ended.Some? then e.log + [Ending(id, ended.value)] else e.log,
           revived := Account(e.revived, id, t, t'))
    case StartCrawl(refused) =>
      e.(tasks := e.tasks + [NewTask(Crawl(true), refused)])
    case BeginBatch(urls, refused) =>
      if !e.submission.Free? || !ValidList(urls) then e
      else if e.limit.None? then Fulfil(e, NewBatch(urls, refused))
      else e.(submission := Counting(NewBatch(urls, refused), Rows(|e.tasks|), 0, {}))
    case BeginAppend(id, urls) =>
      if !e.submission.Free? || id >= |e.tasks| || !Appendable(e.tasks[id], urls) then e
      else if e.tasks[id].status.Completed? && e.limit.Some? then e.(submission := Counting(AppendTo(id, urls), Rows(|e.tasks|), 0, {}))
      else e.(tasks := e.tasks[id := Extend(e.tasks[id], urls, e.tasks[id].status.Completed?)])
    case ReadRow(row) =>
      if !e.submission.Counting? || row !in e.submission.left || row >= |e.tasks| then e
      else
        var s := e.submission;
        e.(submission := s.(left := s.left - {row}, count := s.count + if ActiveBatch(e.tasks[row]) then 1 else 0))
    case Commit =>
      if !e.submission.Counting? || e.submission.left != {} || e.limit.None? then e
      else if e.submission.count >= e.limit.value then e.(submission := Free)
      else Fulfil(e, e.submission.request).(submission := Free)
    case Close => e.(closing := true)
    case Restart(resume, withheld) =>
      e.(tasks := seq(|e.tasks|, i requires 0 <= i < |e.tasks| => NextProcess(e.tasks[i], resume, i in withheld)),
         submission := Free, closing := false)
  }

  function Init(limit: Option<nat>): Engine {
    Engine(limit, [], Free, false, [], {})
  }

  function Execute(e: Engine, actions: seq<Action>): Engine
    decreases |actions|
  {
    if actions == [] then e else Execute(Apply(e, actions[0]), actions[1..])
  }
}
