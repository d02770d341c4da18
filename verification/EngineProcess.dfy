/**
 * One API process: the rows in the store beside the in-memory maps it keeps for its runs, and the requests
 * and run ends that update them. Each method is tied to the step of `Lifecycle` it performs.
 */
module EngineProcess {
  import opened Options
  import opened Lifecycle
  import opened Admission

  datatype Row = Row(kind: Kind, status: Status, steps: set<Url>, cut: bool)

  datatype AppendAnswer =
    | Accepted(requested: nat, appended: nat)
    | NotFound
    | TooMany
    | AlreadyInBatch(url: Url)
    | Ended(status: Status)
    | LimitReached
    | NoChannelFor(requested: nat)

  datatype ResumeAnswer = Resumed | IsBatch | IsOver(status: Status) | AlreadyRunning | OptionsMissing | NoChannel | UnknownTask

  /** What a step's announcement adds to the endings. */
  function Told(id: nat, ended: Option<Status>): seq<Ending> {
    match ended
    case Some(s) => [Ending(id, s)]
    case None => []
  }

  predicate IsBatchRow(rows: seq<Row>, id: nat) {
    id < |rows| && rows[id].kind.Batch?
  }

  predicate IsCrawlRow(rows: seq<Row>, id: nat) {
    id < |rows| && rows[id].kind.Crawl?
  }

  /** A crawl neither completed nor cancelled. */
  predicate OpenCrawlRow(rows: seq<Row>, id: nat) {
    IsCrawlRow(rows, id) && !rows[id].status.Completed? && !rows[id].status.Cancelled?
  }

  /** The batch exists, and the list stays within its bound and repeats nothing. */
  ghost predicate Fits(rows: seq<Row>, id: nat, more: seq<Url>) {
    IsBatchRow(rows, id) && |rows[id].kind.urls| + |more| <= MAX_BATCH_URLS && !Repeats(rows[id].kind.urls, more)
  }

  ghost predicate FirstRepeat(urls: seq<Url>, more: seq<Url>, i: nat)
    requires i < |more|
  {
    more[i] in urls && forall j :: 0 <= j < i ==> more[j] !in urls
  }

  ghost predicate Repeats(urls: seq<Url>, more: seq<Url>) {
    exists u :: u in more && u in urls
  }

  class Process {
    const limit: Option<nat>
    const refused: set<nat>          // the tasks this process offers no channel for
    var rows: seq<Row>               // one row a task directory
    var inflight: map<nat, Run>      // a task in flight and the phase its run is in
    var controllers: map<nat, bool>  // the signal of each run until it returns: true once raised
    var closing: bool
    var endings: seq<Ending>

    constructor (limit: Option<nat>, refused: set<nat>, rows: seq<Row>)
      ensures this.limit == limit && this.refused == refused && this.rows == rows
      ensures inflight == map[] && controllers == map[] && !closing && endings == [] && Valid()
    {
      this.limit, this.refused, this.rows := limit, refused, rows;
      inflight, controllers, closing, endings := map[], map[], false, [];
    }

    ghost predicate Valid()
      reads this
    {
      && (forall id :: id in inflight ==> id < |rows| && !inflight[id].Idle?)
      && (forall id :: id in controllers ==> id in inflight)
      && (forall id :: id in inflight && (inflight[id].Opening? || inflight[id].Working? || inflight[id].Decided?) ==> id in controllers)
      && (forall id :: id in controllers ==> inflight[id].Opening? || inflight[id].Working? || inflight[id].Decided?)
    }

    /** The task a row and the maps describe. */
    ghost function TaskOf(id: nat): Task
      requires id < |rows|
      reads this
    {
      Task(rows[id].kind, rows[id].status, rows[id].steps, rows[id].cut, if id in inflight then inflight[id] else Idle,
           id in controllers && controllers[id], id in refused)
    }

    ghost function State(): seq<Task>
      reads this
    {
      seq(|rows|, i requires 0 <= i < |rows| reads this => TaskOf(i))
    }

    /** Nothing but task `id` has changed. */
    twostate predicate OnlyChanges(id: nat)
      reads this
    {
      |rows| == old(|rows|) && forall k {:trigger TaskOf(k)} :: 0 <= k < |rows| && k != id ==> TaskOf(k) == old(TaskOf(k))
    }

    /** `launchTask`: a controller of its own and an entry in the in-flight map, or an exception when no channel is offered. */
    method LaunchTask(id: nat) returns (threw: bool)
      requires Valid() && id < |rows|
      modifies this`inflight, this`controllers
      ensures Valid() && threw == (id in refused)
      ensures OnlyChanges(id) && TaskOf(id) == Launch(old(TaskOf(id)))
      ensures threw ==> inflight == old(inflight) && controllers == old(controllers)
    {
      threw := id in refused;
      if !threw {
        controllers := controllers[id := false];
        inflight := inflight[id := Opening];
      }
    }

    /** `activeBatchCount`, with nothing else going on meanwhile. */
    method ActiveBatchCount() returns (count: nat)
      requires Valid()
      ensures count == ActiveBatches(State())
    {
      count := 0;
      ghost var tasks := State();
      for i := 0 to |rows|
        invariant count == Outside(tasks, {}, i)
      {
        if rows[i].kind.Batch? && (rows[i].status.Pending? || rows[i].status.Running? || rows[i].status.Paused?) {
          count := count + 1;
        }
      }
    }

    /** Room under the active-batch limit for a batch that runs again. */
    ghost predicate NoRoom(id: nat)
      requires id < |rows|
      reads this
    {
      rows[id].status.Completed? && limit.Some? && ActiveBatches(State()) >= limit.value
    }

    /**
     * `appendToBatch`, its checks in their order: the batch must exist, the list stay within its bound and repeat
     * nothing, the batch not be cancelled or failed, and a completed batch find room under the active-batch limit. When no
     * run is in flight and none can be launched the list has grown all the same, and the caller gets the exception.
     */
    method AppendToBatch(id: nat, more: seq<Url>) returns (answer: AppendAnswer)
      requires Valid() && ValidList(more)
      modifies this
      ensures Valid() && endings == old(endings) && closing == old(closing)
      ensures answer.NotFound? <==> !IsBatchRow(old(rows), id)
      ensures answer.TooMany? <==> IsBatchRow(old(rows), id) && |old(rows)[id].kind.urls| + |more| > MAX_BATCH_URLS
      ensures answer.AlreadyInBatch? <==> IsBatchRow(old(rows), id) && |old(rows)[id].kind.urls| + |more| <= MAX_BATCH_URLS && Repeats(old(rows)[id].kind.urls, more)
      ensures answer.AlreadyInBatch? ==> exists i :: 0 <= i < |more| && FirstRepeat(old(rows)[id].kind.urls, more, i) && answer.url == more[i]
      ensures answer.Ended? <==> Fits(old(rows), id, more) && (old(rows)[id].status.Cancelled? || old(rows)[id].status.Failed?)
      ensures answer.Ended? ==> answer.status == old(rows)[id].status
      ensures answer.LimitReached? <==> Fits(old(rows), id, more) && old(NoRoom(id))
      ensures answer.Accepted? || answer.NoChannelFor? <==> IsBatchRow(old(rows), id) && Appendable(old(TaskOf(id)), more) && !old(NoRoom(id))
      ensures answer.Accepted? || answer.NoChannelFor? ==> OnlyChanges(id) && TaskOf(id) == Extend(old(TaskOf(id)), more, old(rows)[id].status.Completed?)
      ensures answer.Accepted? ==> answer == Accepted(|old(rows)[id].kind.urls| + |more|, |more|)
      ensures answer.NoChannelFor? ==> id in refused && id !in old(inflight) && answer.requested == |old(rows)[id].kind.urls| + |more|
      ensures answer.Accepted? ==> id in inflight
      ensures !answer.Accepted? && !answer.NoChannelFor? ==> rows == old(rows) && inflight == old(inflight) && controllers == old(controllers)
    {
      if id >= |rows| || !rows[id].kind.Batch? {
        return NotFound;
      }
      var row := rows[id];
      var total := |row.kind.urls| + |more|;
      if total > MAX_BATCH_URLS {
        return TooMany;
      }
      var i := 0;
      while i < |more|
        invariant 0 <= i <= |more|
        invariant forall j :: 0 <= j < i ==> more[j] !in row.kind.urls
      {
        if more[i] in row.kind.urls {
          assert FirstRepeat(row.kind.urls, more, i);
          return AlreadyInBatch(more[i]);
        }
        i := i + 1;
      }
      if row.status.Cancelled? || row.status.Failed? {
        return Ended(row.status);
      }
      if row.status.Completed? && limit.Some? {
        var count := ActiveBatchCount();
        if count >= limit.value {
          return LimitReached;
        }
      }
      rows := rows[id := row.(kind := Batch(row.kind.urls + more), status := if row.status.Completed? then Pending else row.status)];
      answer := Accepted(total, |more|);
      if id !in inflight {
        var threw := LaunchTask(id);
        if threw {
          answer := NoChannelFor(total);
        }
      }
    }

    /** `cancelCrawl`, for batches and crawls: an active row is cancelled and its run told; with no run in flight the end is announced here. */
    method CancelCrawl(id: nat)
      requires Valid() && id < |rows|
      modifies this
      ensures Valid() && closing == old(closing)
      ensures OnlyChanges(id) && TaskOf(id) == TaskStep(old(TaskOf(id)), Cancel, closing)
      ensures |endings| > |old(endings)| <==> Active(old(rows)[id].status) && id !in inflight
      ensures endings == old(endings) + Told(id, Announced(old(TaskOf(id)), Cancel, closing))
    {
      if rows[id].status.Pending? || rows[id].status.Running? || rows[id].status.Paused? {
        rows := rows[id := rows[id].(status := Cancelled)];
        if id in controllers {
          controllers := controllers[id := true];
        }
        if id !in inflight {
          endings := endings + [Ending(id, Cancelled)];
        }
      }
    }

    /** `resumeCrawl`: `resumeRefusal`'s reasons in their order; a launch that throws puts the row back as it was. */
    method ResumeCrawl(id: nat) returns (answer: ResumeAnswer)
      requires Valid()
      modifies this
      ensures Valid() && closing == old(closing) && endings == old(endings)
      ensures answer.UnknownTask? <==> id >= old(|rows|)
      ensures id < old(|rows|) ==> OnlyChanges(id) && TaskOf(id) == TaskStep(old(TaskOf(id)), Resume, closing)
      ensures id >= old(|rows|) ==> rows == old(rows) && inflight == old(inflight) && controllers == old(controllers)
      ensures answer.IsBatch? <==> id < old(|rows|) && old(rows)[id].kind.Batch?
      ensures answer.IsOver? <==> IsCrawlRow(old(rows), id) && (old(rows)[id].status.Completed? || old(rows)[id].status.Cancelled?)
      ensures answer.IsOver? ==> answer.status == old(rows)[id].status
      ensures answer.AlreadyRunning? <==> OpenCrawlRow(old(rows), id) && id in old(inflight)
      ensures answer.OptionsMissing? <==> OpenCrawlRow(old(rows), id) && id !in old(inflight) && !old(rows)[id].kind.optionsStored
      ensures answer.NoChannel? <==> OpenCrawlRow(old(rows), id) && id !in old(inflight) && old(rows)[id].kind.optionsStored && id in refused
      ensures answer.Resumed? <==> OpenCrawlRow(old(rows), id) && id !in old(inflight) && old(rows)[id].kind.optionsStored && id !in refused
      ensures answer.Resumed? ==> TaskOf(id).status.Pending? && TaskOf(id).run.Opening?
    {
      if id >= |rows| {
        return UnknownTask;
      }
      var row := rows[id];
      if row.kind.Batch? {
        answer := IsBatch;
      } else if row.status.Completed? || row.status.Cancelled? {
        answer := IsOver(row.status);
      } else if id in inflight {
        answer := AlreadyRunning;
      } else if !row.kind.optionsStored {
        answer := OptionsMissing;
      } else {
        rows := rows[id := row.(status := Pending)];
        var threw := LaunchTask(id);
        answer := Resumed;
        if threw {
          rows := rows[id := row];
          answer := NoChannel;
        }
      }
    }

    /** A run opens: it throws at a cancelled row, and otherwise says running and takes the list as it is. */
    method OpenRow(id: nat)
      requires Valid() && id < |rows| && id in inflight && inflight[id].Opening?
      modifies this
      ensures Valid() && closing == old(closing)
      ensures OnlyChanges(id) && TaskOf(id) == TaskStep(old(TaskOf(id)), OpenRun, closing)
      ensures endings == old(endings) + Told(id, Announced(old(TaskOf(id)), OpenRun, closing))
      ensures rows[id].status == if old(rows)[id].status == Cancelled then Cancelled else Running
    {
      var row := rows[id];
      if row.status.Cancelled? {
        RunThrew(id);
      } else {
        rows := rows[id := row.(status := Running, cut := false)];
        inflight := inflight[id := Working(if row.kind.Batch? then |row.kind.urls| else 0)];
      }
    }

    /** `seedAppended`: unless told to stop, the run takes the list as it is now. */
    method SeedAppended(id: nat)
      requires Valid() && id < |rows| && id in inflight && inflight[id].Working?
      modifies this`inflight
      ensures Valid()
      ensures OnlyChanges(id) && TaskOf(id) == TaskStep(old(TaskOf(id)), Seed, closing)
    {
      if !controllers[id] && !rows[id].status.Cancelled? && !closing {
        inflight := inflight[id := Working(if rows[id].kind.Batch? then |rows[id].kind.urls| else 0)];
      }
    }

    /** The workers are done: the row is read and the end decided, a cancellation before a shutdown and that before a failure. */
    method StopWorkers(id: nat, failed: bool, overBudget: bool)
      requires Valid() && id < |rows| && id in inflight && inflight[id].Working?
      requires controllers[id] || rows[id].status.Cancelled? || closing || failed || overBudget || Drained(TaskOf(id), inflight[id].seeded)
      modifies this`inflight
      ensures Valid()
      ensures OnlyChanges(id) && TaskOf(id) == TaskStep(old(TaskOf(id)), Stop(failed, overBudget), closing)
    {
      var cancelled := controllers[id] || rows[id].status.Cancelled?;
      var interrupted := !cancelled && closing;
      var status := if cancelled then Cancelled else if interrupted then Paused else if failed then Failed else Completed;
      inflight := inflight[id := Decided(inflight[id].seeded, status, overBudget)];
    }

    /** The end is written over the row as it is now; a run that failed throws. */
    method WriteEnd(id: nat)
      requires Valid() && id < |rows| && id in inflight && inflight[id].Decided?
      modifies this`rows, this`inflight, this`controllers
      ensures Valid()
      ensures OnlyChanges(id) && TaskOf(id) == TaskStep(old(TaskOf(id)), WriteRow, closing)
      ensures rows[id].kind == old(rows)[id].kind && rows[id].status == old(inflight)[id].outcome
    {
      var end := inflight[id];
      rows := rows[id := rows[id].(status := end.outcome, cut := end.overBudget)];
      inflight := inflight[id := if end.outcome.Failed? then Failing else Written(end.seeded)];
      controllers := controllers - {id};
    }

    /**
     * What follows a run that returned: its controller goes, a batch with appended URLs left to fetch is run again, anything
     * else starts announcing its end with the status its row has now. A launch that throws here is the run's own failure.
     */
    method RunReturned(id: nat)
      requires Valid() && id < |rows| && id in inflight && inflight[id].Written?
      modifies this
      ensures Valid() && closing == old(closing)
      ensures OnlyChanges(id) && TaskOf(id) == TaskStep(old(TaskOf(id)), CheckOutstanding, closing)
      ensures endings == old(endings) + Told(id, Announced(old(TaskOf(id)), CheckOutstanding, closing))
    {
      if rows[id].kind.Batch? && rows[id].status.Completed? && !rows[id].cut && |rows[id].steps| < |rows[id].kind.urls| {
        var threw := LaunchTask(id);
        if threw {
          inflight := inflight - {id};
          endings := endings + [Ending(id, rows[id].status)];
        }
      } else {
        inflight := inflight[id := Finishing(rows[id].status)];
      }
    }

    /** The announcement is over: out of the in-flight map. */
    method RunAnnounced(id: nat)
      requires Valid() && id < |rows| && id in inflight && inflight[id].Finishing?
      modifies this
      ensures Valid() && closing == old(closing) && rows == old(rows)
      ensures OnlyChanges(id) && TaskOf(id) == TaskStep(old(TaskOf(id)), Announce, closing)
      ensures endings == old(endings) + Told(id, Announced(old(TaskOf(id)), Announce, closing))
    {
      var read := inflight[id].read;
      if read.Completed? || read.Failed? || read.Cancelled? {
        endings := endings + [Ending(id, read)];
      }
      inflight := inflight - {id};
    }

    /** The handler of a run that threw while opening or after writing its row as failed; `markCrawlFailed` among it. */
    method RunThrew(id: nat)
      requires Valid() && id < |rows| && id in inflight && (inflight[id].Opening? || inflight[id].Failing?)
      modifies this
      ensures Valid() && closing == old(closing)
      ensures OnlyChanges(id) && TaskOf(id) == Fail(old(TaskOf(id)))
      ensures endings == old(endings) + [Ending(id, Fail(old(TaskOf(id))).status)]
    {
      inflight := inflight - {id};
      controllers := controllers - {id};
      if rows[id].status.Pending? || rows[id].status.Running? || rows[id].status.Paused? {
        rows := rows[id := rows[id].(status := Failed)];
      }
      endings := endings + [Ending(id, rows[id].status)];
    }

    /** The startup loop: every unfinished batch, and every unfinished crawl with its options stored, is launched again. */
    method ResumeOnStart()
      requires Valid() && inflight == map[] && controllers == map[]
      modifies this`inflight, this`controllers
      ensures Valid()
      ensures forall k :: 0 <= k < |rows| ==> TaskOf(k) == NextProcess(old(TaskOf(k)), true, k in refused)
    {
      for id := 0 to |rows|
        invariant Valid() && rows == old(rows)
        invariant forall k :: 0 <= k < id ==> TaskOf(k) == NextProcess(old(TaskOf(k)), true, k in refused)
        invariant forall k :: id <= k < |rows| ==> TaskOf(k) == old(TaskOf(k)) && k !in inflight && k !in controllers
      {
        var unfinished := rows[id].status.Pending? || rows[id].status.Running? || rows[id].status.Paused?;
        if unfinished && (rows[id].kind.Batch? || rows[id].kind.optionsStored) {
          var threw := LaunchTask(id);
        }
      }
    }
  }
}
