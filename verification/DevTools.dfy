/**
 * The connection to Chrome's DevTools: commands matched with their answers by id, each with its own deadline, over a
 * socket that can be lost at any moment. Every event is one step; a run is any sequence of steps that can happen.
 */
module DevTools {
  import opened Options

  datatype Outcome = Answered(result: string) | Refused(message: string) | TimedOut(command: string) | ConnectionClosed

  /** How the attempt to connect came out. */
  datatype Opening = Connected | OpenCancelled | NoAnswer | NotAccepted

  /** One entry of the pending map: the call whose promise it settles. */
  datatype Waiter = Waiter(call: nat, command: string)

  datatype Settlement = Settlement(call: nat, outcome: Outcome)

  /**
   * The connection's state: `pending` by id, `timers` the ids whose deadline is running, `log` every settling of a
   * command's promise, in order. `calls` counts the calls of `send`, those refused at once among them.
   */
  datatype Conn = Conn(
    nextId: nat, calls: nat, up: bool, closed: bool, aborted: bool, armed: bool,
    pending: map<nat, Waiter>, timers: set<nat>, opening: Option<Opening>, log: seq<Settlement>)

  datatype Event =
    | Opens
    | Aborts
    | ConnectTimeout
    | Sends(command: string)
    | Hears(id: Option<nat>, error: Option<string>, result: string)
    | TimerFires(timer: nat)
    | Loses

  const INIT := Conn(1, 0, false, false, false, true, map[], {}, None, [])

  predicate Enabled(c: Conn, e: Event) {
    match e
    case Opens => !c.up
    case Aborts => !c.aborted
    case ConnectTimeout => c.armed
    case Sends(_) => c.opening == Some(Connected)
    case TimerFires(id) => id in c.timers
    case _ => true
  }

  /** A promise settles once; settling it again does nothing. */
  function Settle(opening: Option<Opening>, now: Opening): Option<Opening> {
    if opening.Some? then opening else Some(now)
  }

  function Reply(error: Option<string>, result: string): Outcome {
    if error.Some? then Refused(error.value) else Answered(result)
  }

  /** The waiter leaves the map, its timer stops and its promise settles. */
  function Answer(c: Conn, id: nat, outcome: Outcome): Conn
    requires id in c.pending
  {
    c.(pending := c.pending - {id}, timers := c.timers - {id}, log := c.log + [Settlement(c.pending[id].call, outcome)])
  }

  /** The waiters below `n` fail, in the order of their ids: the order they were put in the map. */
  function Failures(pending: map<nat, Waiter>, n: nat): seq<Settlement> {
    if n == 0 then []
    else Failures(pending, n - 1) + if n - 1 in pending then [Settlement(pending[n - 1].call, ConnectionClosed)] else []
  }

  function Send(c: Conn, command: string): Conn {
    if c.closed then c.(calls := c.calls + 1, log := c.log + [Settlement(c.calls, ConnectionClosed)])
    else c.(nextId := c.nextId + 1, calls := c.calls + 1, timers := c.timers + {c.nextId}, pending := c.pending[c.nextId := Waiter(c.calls, command)])
  }

  function Lose(c: Conn): Conn {
    if c.closed then c
    else c.(closed := true, armed := false, pending := map[], timers := c.timers - c.pending.Keys, log := c.log + Failures(c.pending, c.nextId),
      opening := if c.up then c.opening else Settle(c.opening, NotAccepted))
  }

  function Apply(c: Conn, e: Event): Conn {
    match e
    case Opens =>
      var open := c.(up := true, armed := false);
      if c.aborted then open else open.(opening := Settle(c.opening, Connected))
    case Aborts => if c.up then c.(aborted := true) else c.(aborted := true, opening := Settle(c.opening, OpenCancelled))
    case ConnectTimeout => c.(armed := false, opening := Settle(c.opening, NoAnswer))
    case Sends(command) => Send(c, command)
    case Hears(id, error, result) =>
      if id.Some? && id.value in c.pending then Answer(c, id.value, Reply(error, result)) else c
    case TimerFires(id) =>
      if id in c.pending then Answer(c, id, TimedOut(c.pending[id].command)) else c
    case Loses => Lose(c)
  }

  ghost predicate Step(c: Conn, e: Event, d: Conn) {
    Enabled(c, e) && d == Apply(c, e)
  }

  /** `run` is the states one history goes through, from the start. */
  ghost predicate Run(h: seq<Event>, run: seq<Conn>) {
    |run| == |h| + 1 && run[0] == INIT && forall n :: 0 <= n < |h| ==> Step(run[n], h[n], run[n + 1])
  }

  // ---------------------------------------------------------------- what a history says of one command

  /** A command's fate: not issued yet, waiting, or settled. */
  datatype Fate = NotSent | Waiting(command: string) | Settled(outcome: Outcome)

  function SendsIn(h: seq<Event>, n: nat): nat
    requires n <= |h|
  {
    if n == 0 then 0 else SendsIn(h, n - 1) + if h[n - 1].Sends? then 1 else 0
  }

  predicate LostIn(h: seq<Event>, n: nat)
    requires n <= |h|
  {
    n > 0 && (h[n - 1].Loses? || LostIn(h, n - 1))
  }

  /** The first of its answer, its deadline and the loss settles a command; nothing after that does. */
  function Next(fate: Fate, call: nat, e: Event, sends: nat, lost: bool): Fate {
    match fate
    case NotSent => if e.Sends? && sends == call then (if lost then Settled(ConnectionClosed) else Waiting(e.command)) else NotSent
    case Waiting(command) =>
      if e.Hears? && e.id == Some(call + 1) then Settled(Reply(e.error, e.result))
      else if e == TimerFires(call + 1) then Settled(TimedOut(command))
      else if e.Loses? then Settled(ConnectionClosed)
      else fate
    case Settled(_) => fate
  }

  function FateOf(h: seq<Event>, n: nat, call: nat): Fate
    requires n <= |h|
  {
    if n == 0 then NotSent else Next(FateOf(h, n - 1, call), call, h[n - 1], SendsIn(h, n - 1), LostIn(h, n - 1))
  }

  /** The first of opening, cancelling, the deadline and the loss decides the attempt to connect. */
  function Decide(decision: Option<Opening>, e: Event): Option<Opening> {
    if decision.Some? then decision
    else
      match e
      case Opens => Some(Connected)
      case Aborts => Some(OpenCancelled)
      case ConnectTimeout => Some(NoAnswer)
      case Loses => Some(NotAccepted)
      case _ => None
  }

  function FirstDecision(h: seq<Event>, n: nat): Option<Opening>
    requires n <= |h|
  {
    if n == 0 then None else Decide(FirstDecision(h, n - 1), h[n - 1])
  }

  // ---------------------------------------------------------------- the invariant

  /** Each waiter is for the call one below its id; deadlines run for exactly the waiters; after the loss there are none. */
  ghost predicate PendingWell(c: Conn) {
    && (forall id :: id in c.pending ==> id == c.pending[id].call + 1 && id < c.nextId)
    && c.timers == c.pending.Keys
    && (c.closed ==> c.pending == map[])
    && (if c.closed then c.nextId <= c.calls + 1 else c.nextId == c.calls + 1)
  }

  ghost predicate OpeningWell(c: Conn) {
    (c.up || c.aborted || c.closed || !c.armed) ==> c.opening.Some?
  }

  ghost predicate Logged(log: seq<Settlement>, call: nat) {
    exists k :: 0 <= k < |log| && log[k].call == call
  }

  /** Call `call` stands in the state as its fate says: waiting in the map only, or settled in the log only, by that outcome. */
  ghost predicate Stands(c: Conn, call: nat, fate: Fate) {
    match fate
    case NotSent => call >= c.calls && call + 1 !in c.pending && !Logged(c.log, call)
    case Waiting(command) => call < c.calls && call + 1 in c.pending && c.pending[call + 1].command == command && !Logged(c.log, call)
    case Settled(outcome) => call < c.calls && call + 1 !in c.pending && Settlement(call, outcome) in c.log
  }

  /** No promise is settled twice. */
  ghost predicate LogOnce(log: seq<Settlement>) {
    forall i, j :: 0 <= i < j < |log| ==> log[i].call != log[j].call
  }

  /** What is in the log was called, and no longer waits. */
  ghost predicate LogWell(c: Conn) {
    LogOnce(c.log) && forall k :: 0 <= k < |c.log| ==> c.log[k].call < c.calls && c.log[k].call + 1 !in c.pending
  }

  ghost predicate Inv(c: Conn) {
    PendingWell(c) && OpeningWell(c) && LogWell(c)
  }

  lemma {:induction false} FailuresListed(pending: map<nat, Waiter>, n: nat)
    requires forall id :: id in pending ==> id == pending[id].call + 1
    ensures forall k :: 0 <= k < |Failures(pending, n)| ==>
      var s := Failures(pending, n)[k]; s.call + 1 < n && s.call + 1 in pending && s == Settlement(s.call, ConnectionClosed)
    ensures forall id :: id in pending && id < n ==> Settlement(pending[id].call, ConnectionClosed) in Failures(pending, n)
  {
    if n > 0 {
      FailuresListed(pending, n - 1);
    }
  }

  lemma {:induction false} FailuresOnce(pending: map<nat, Waiter>, n: nat)
    requires forall id :: id in pending ==> id == pending[id].call + 1
    ensures LogOnce(Failures(pending, n))
  {
    if n > 0 {
      FailuresOnce(pending, n - 1);
      FailuresListed(pending, n - 1);
    }
  }

  // At the loss the promises fail in the order their commands were sent.
  lemma {:induction false} FailuresInOrder(pending: map<nat, Waiter>, n: nat)
    requires forall id :: id in pending ==> id == pending[id].call + 1
    ensures forall i, j :: 0 <= i < j < |Failures(pending, n)| ==> Failures(pending, n)[i].call < Failures(pending, n)[j].call
  {
    if n > 0 {
      FailuresInOrder(pending, n - 1);
      FailuresListed(pending, n - 1);
    }
  }

  lemma FailuresAre(pending: map<nat, Waiter>, n: nat)
    requires forall id :: id in pending ==> id == pending[id].call + 1
    ensures LogOnce(Failures(pending, n))
    ensures forall k :: 0 <= k < |Failures(pending, n)| ==>
      var s := Failures(pending, n)[k]; s.call + 1 < n && s.call + 1 in pending && s == Settlement(s.call, ConnectionClosed)
    ensures forall id :: id in pending && id < n ==> Settlement(pending[id].call, ConnectionClosed) in Failures(pending, n)
  {
    FailuresListed(pending, n);
    FailuresOnce(pending, n);
  }

  lemma LoggedAppend(log: seq<Settlement>, more: seq<Settlement>, call: nat)
    ensures Logged(log + more, call) <==> Logged(log, call) || Logged(more, call)
  {
    if Logged(log, call) {
      var k :| 0 <= k < |log| && log[k].call == call;
      assert (log + more)[k].call == call;
    }
    if Logged(more, call) {
      var k :| 0 <= k < |more| && more[k].call == call;
      assert (log + more)[|log| + k].call == call;
    }
  }

  lemma SendInv(c: Conn, command: string)
    requires Inv(c)
    ensures Inv(Send(c, command))
  {
  }

  // A send takes an id above every id waiting and a deadline of its own, for the one call it makes; after the loss it is refused at
  // once, and takes neither.
  lemma SendTakesAFreshId(c: Conn, command: string)
    requires Inv(c)
    ensures var d := Send(c, command);
      && d.calls == c.calls + 1 && !Logged(c.log, c.calls)
      && (c.closed ==> d.nextId == c.nextId && d.pending == c.pending && d.timers == c.timers && d.log == c.log + [Settlement(c.calls, ConnectionClosed)])
      && (!c.closed ==> d.nextId > c.nextId && d.log == c.log && d.pending.Keys == c.pending.Keys + {c.nextId} && d.timers == c.timers + {c.nextId})
      && (!c.closed ==> d.pending[c.nextId] == Waiter(c.calls, command) && forall id :: id in c.pending ==> id < c.nextId && d.pending[id] == c.pending[id])
  {
  }

  // No id is given twice: the next id lies above every id that was ever waiting.
  lemma {:induction false} IdsRise(h: seq<Event>, run: seq<Conn>, m: nat, n: nat, id: nat)
    requires Run(h, run) && m <= n <= |h|
    ensures run[m].nextId <= run[n].nextId
    ensures id in run[m].pending ==> id < run[n].nextId
    decreases n - m
  {
    FirstDecisionDecides(h, run, m);
    FirstDecisionDecides(h, run, n);
    if m < n {
      IdsRise(h, run, m, n - 1, id);
      assert Step(run[n - 1], h[n - 1], run[n]);
    }
  }

  lemma AnswerInv(c: Conn, id: nat, outcome: Outcome)
    requires Inv(c) && id in c.pending
    ensures Inv(Answer(c, id, outcome))
  {
  }

  lemma LogOnceAppend(log: seq<Settlement>, more: seq<Settlement>)
    requires LogOnce(log) && LogOnce(more) && forall k :: 0 <= k < |more| ==> !Logged(log, more[k].call)
    ensures LogOnce(log + more)
  {
  }

  lemma LoseInv(c: Conn)
    requires Inv(c)
    ensures Inv(Lose(c)) && Lose(c).closed && Lose(c).pending == map[] && Lose(c).timers == {}
  {
    if !c.closed {
      FailuresAre(c.pending, c.nextId);
      LogOnceAppend(c.log, Failures(c.pending, c.nextId));
    }
  }

  lemma ApplyInv(c: Conn, e: Event)
    requires Inv(c) && Enabled(c, e)
    ensures Inv(Apply(c, e))
  {
    match e
    case Sends(command) => SendInv(c, command);
    case Hears(id, error, result) =>
      if id.Some? && id.value in c.pending {
        AnswerInv(c, id.value, Reply(error, result));
      }
    case TimerFires(id) => AnswerInv(c, id, TimedOut(c.pending[id].command));
    case Loses => LoseInv(c);
    case _ =>
  }

  // The counters, the loss and the attempt to connect follow the history.
  lemma ApplyCounts(c: Conn, e: Event)
    requires Inv(c) && Enabled(c, e)
    ensures Apply(c, e).calls == c.calls + if e.Sends? then 1 else 0
    ensures Apply(c, e).closed == (c.closed || e.Loses?)
    ensures Apply(c, e).opening == Decide(c.opening, e)
  {
  }

  lemma AnswerStands(c: Conn, call: nat, fate: Fate, id: nat, outcome: Outcome)
    requires Inv(c) && Stands(c, call, fate) && id in c.pending
    ensures Stands(Answer(c, id, outcome), call, if id == call + 1 then Settled(outcome) else fate)
  {
  }

  lemma LoseStands(c: Conn, call: nat, fate: Fate)
    requires Inv(c) && Stands(c, call, fate)
    ensures Stands(Lose(c), call, if fate.Waiting? then Settled(ConnectionClosed) else fate)
  {
    if !c.closed {
      FailuresAre(c.pending, c.nextId);
      LoggedAppend(c.log, Failures(c.pending, c.nextId), call);
    }
  }

  lemma SendStands(c: Conn, call: nat, fate: Fate, command: string)
    requires Inv(c) && Stands(c, call, fate)
    ensures Stands(Send(c, command), call, Next(fate, call, Sends(command), c.calls, c.closed))
  {
  }

  // Each step moves each command's state as its fate moves.
  lemma ApplyStands(c: Conn, e: Event, call: nat, fate: Fate)
    requires Inv(c) && Enabled(c, e) && Stands(c, call, fate)
    ensures Stands(Apply(c, e), call, Next(fate, call, e, c.calls, c.closed))
  {
    match e
    case Sends(command) => SendStands(c, call, fate, command);
    case Hears(id, error, result) =>
      if id.Some? && id.value in c.pending {
        AnswerStands(c, call, fate, id.value, Reply(error, result));
      }
    case TimerFires(id) => AnswerStands(c, call, fate, id, TimedOut(c.pending[id].command));
    case Loses => LoseStands(c, call, fate);
    case _ =>
  }

  /** The state is what the history says of the counters, the loss and the attempt to connect. */
  ghost predicate Counts(c: Conn, sends: nat, lost: bool, decision: Option<Opening>) {
    Inv(c) && c.calls == sends && c.closed == lost && c.opening == decision
  }

  lemma StepCounts(c: Conn, e: Event, d: Conn, sends: nat, lost: bool, decision: Option<Opening>)
    requires Step(c, e, d) && Counts(c, sends, lost, decision)
    ensures Counts(d, sends + if e.Sends? then 1 else 0, lost || e.Loses?, Decide(decision, e))
  {
    ApplyInv(c, e);
    ApplyCounts(c, e);
  }

  // Over every run the attempt to connect comes out as its first decision, and is decided once it opened, was cancelled, timed out or was lost.
  lemma {:induction false} FirstDecisionDecides(h: seq<Event>, run: seq<Conn>, n: nat)
    requires Run(h, run) && n <= |h|
    ensures Counts(run[n], SendsIn(h, n), LostIn(h, n), FirstDecision(h, n))
  {
    if n > 0 {
      FirstDecisionDecides(h, run, n - 1);
      assert Step(run[n - 1], h[n - 1], run[n]);
      StepCounts(run[n - 1], h[n - 1], run[n], SendsIn(h, n - 1), LostIn(h, n - 1), FirstDecision(h, n - 1));
    }
  }

  lemma StepStands(c: Conn, e: Event, d: Conn, call: nat, fate: Fate)
    requires Step(c, e, d) && Inv(c) && Stands(c, call, fate)
    ensures Stands(d, call, Next(fate, call, e, c.calls, c.closed))
  {
    ApplyStands(c, e, call, fate);
  }

  // Over every run each command's promise is settled exactly once, by the first of its own answer, its deadline and the
  // loss of the connection; until then the command waits in the map with its deadline running.
  lemma {:induction false} EveryCommandSettlesOnce(h: seq<Event>, run: seq<Conn>, n: nat, call: nat)
    requires Run(h, run) && n <= |h|
    ensures Stands(run[n], call, FateOf(h, n, call))
  {
    if n > 0 {
      EveryCommandSettlesOnce(h, run, n - 1, call);
      FirstDecisionDecides(h, run, n - 1);
      assert Step(run[n - 1], h[n - 1], run[n]);
      StepStands(run[n - 1], h[n - 1], run[n], call, FateOf(h, n - 1, call));
    }
  }

  // ---------------------------------------------------------------- how a promise was settled, from the events alone

  /** The event ends the wait of call `call`: the answer of its id, its deadline, or the loss. */
  predicate Concerns(e: Event, call: nat) {
    (e.Hears? && e.id == Some(call + 1)) || e == TimerFires(call + 1) || e == Loses
  }

  /** Call `call`, of `command`, was sent at `s` over a connection not lost, and nothing has ended its wait before `n`. */
  ghost predicate WaitsFrom(h: seq<Event>, n: nat, call: nat, command: string, s: nat) {
    && s < n <= |h| && h[s] == Sends(command) && SendsIn(h, s) == call && !LostIn(h, s)
    && forall j :: s < j < n ==> !Concerns(h[j], call)
  }

  /** An error refuses and a result answers; the deadline times out, and the loss closes. */
  ghost predicate SettlesAs(e: Event, call: nat, command: string, outcome: Outcome) {
    || (e.Hears? && e.id == Some(call + 1) && e.error.Some? && outcome == Refused(e.error.value))
    || (e.Hears? && e.id == Some(call + 1) && e.error.None? && outcome == Answered(e.result))
    || (e == TimerFires(call + 1) && outcome == TimedOut(command))
    || (e == Loses && outcome == ConnectionClosed)
  }

  /** Event `m` settled call `call`: the first to concern it since it was sent, or its own sending after the loss. */
  ghost predicate SettledAt(h: seq<Event>, m: nat, call: nat, outcome: Outcome) {
    m < |h| &&
    ((h[m].Sends? && SendsIn(h, m) == call && LostIn(h, m) && outcome == ConnectionClosed)
      || exists command, s :: WaitsFrom(h, m, call, command, s) && SettlesAs(h[m], call, command, outcome))
  }

  lemma {:induction false} NotSentYet(h: seq<Event>, n: nat, call: nat)
    requires n <= |h| && SendsIn(h, n) <= call
    ensures FateOf(h, n, call) == NotSent
    decreases n
  {
    if n > 0 {
      NotSentYet(h, n - 1, call);
    }
  }

  lemma {:induction false} WaitingFrom(h: seq<Event>, n: nat, call: nat, command: string, s: nat)
    requires WaitsFrom(h, n, call, command, s)
    ensures FateOf(h, n, call) == Waiting(command)
    decreases n
  {
    if n == s + 1 {
      NotSentYet(h, s, call);
    } else {
      WaitingFrom(h, n - 1, call, command, s);
    }
  }

  lemma SettledStays(h: seq<Event>, m: nat, n: nat, call: nat, outcome: Outcome)
    requires m < n <= |h| && SettledAt(h, m, call, outcome)
    ensures FateOf(h, n, call) == Settled(outcome)
    decreases n
  {
    if n > m + 1 {
      SettledStays(h, m, n - 1, call, outcome);
    } else if h[m].Sends? {
      NotSentYet(h, m, call);
    } else {
      var command, s :| WaitsFrom(h, m, call, command, s) && SettlesAs(h[m], call, command, outcome);
      WaitingFrom(h, m, call, command, s);
    }
  }

  lemma {:induction false} FateFrom(h: seq<Event>, n: nat, call: nat)
    requires n <= |h|
    ensures var fate := FateOf(h, n, call);
      && (fate.NotSent? ==> SendsIn(h, n) <= call)
      && (fate.Waiting? ==> exists s :: WaitsFrom(h, n, call, fate.command, s))
      && (fate.Settled? ==> exists m: nat :: m < n && SettledAt(h, m, call, fate.outcome))
    decreases n
  {
    if n > 0 {
      FateFrom(h, n - 1, call);
      var was, fate := FateOf(h, n - 1, call), FateOf(h, n, call);
      if was.NotSent? && fate.Waiting? {
        assert WaitsFrom(h, n, call, fate.command, n - 1);
      } else if was.Waiting? {
        var s :| WaitsFrom(h, n - 1, call, was.command, s);
        if fate.Waiting? {
          assert WaitsFrom(h, n, call, was.command, s);
        } else {
          assert SettlesAs(h[n - 1], call, was.command, fate.outcome);
          assert SettledAt(h, n - 1, call, fate.outcome);
        }
      } else if was.NotSent? && fate.Settled? {
        assert SettledAt(h, n - 1, call, fate.outcome);
      }
    }
  }

  // Over every run a promise is in the log as settled by an outcome if and only if the events say so: refused with the message of the
  // error that answered its id, answered with the result that did, timed out by its own deadline, or closed by the loss.
  lemma SettledExactly(h: seq<Event>, run: seq<Conn>, n: nat, call: nat, outcome: Outcome)
    requires Run(h, run) && n <= |h|
    ensures Settlement(call, outcome) in run[n].log <==> exists m: nat :: m < n && SettledAt(h, m, call, outcome)
  {
    EveryCommandSettlesOnce(h, run, n, call);
    FirstDecisionDecides(h, run, n);
    FateFrom(h, n, call);
    var log := run[n].log;
    if Settlement(call, outcome) in log {
      var k :| 0 <= k < |log| && log[k] == Settlement(call, outcome);
      assert Logged(log, call);
      var settled := FateOf(h, n, call).outcome;
      var j :| 0 <= j < |log| && log[j] == Settlement(call, settled);
      assert log[j].call == log[k].call;
    }
    forall m: nat | m < n && SettledAt(h, m, call, outcome) ensures FateOf(h, n, call) == Settled(outcome) {
      SettledStays(h, m, n, call, outcome);
    }
  }

  // Issued ids are the disjoint union of those pending and those settled, whatever the run.
  lemma IssuedArePendingOrSettled(h: seq<Event>, run: seq<Conn>, n: nat, call: nat)
    requires Run(h, run) && n <= |h|
    ensures call < run[n].calls <==> call + 1 in run[n].pending || Logged(run[n].log, call)
    ensures !(call + 1 in run[n].pending && Logged(run[n].log, call))
    ensures run[n].timers == run[n].pending.Keys && LogOnce(run[n].log)
  {
    EveryCommandSettlesOnce(h, run, n, call);
    FirstDecisionDecides(h, run, n);
    var fate := FateOf(h, n, call);
    if fate.Settled? {
      var k :| 0 <= k < |run[n].log| && run[n].log[k] == Settlement(call, fate.outcome);
    }
  }

  // Once the connection is lost nothing is pending, whatever comes, and a later send is refused at once and takes no id.
  lemma {:induction false} LostForGood(h: seq<Event>, run: seq<Conn>, m: nat, n: nat)
    requires Run(h, run) && m <= n <= |h| && LostIn(h, m)
    ensures LostIn(h, n) && run[n].closed && run[n].pending == map[] && run[n].timers == {}
    decreases n - m
  {
    if m < n {
      LostForGood(h, run, m, n - 1);
    }
    FirstDecisionDecides(h, run, n);
  }

  // A late or unknown answer changes nothing.
  lemma LateAnswerIsIgnored(h: seq<Event>, run: seq<Conn>, n: nat, id: nat, error: Option<string>, result: string)
    requires Run(h, run) && n <= |h| && id > 0 && !FateOf(h, n, id - 1).Waiting?
    ensures Apply(run[n], Hears(Some(id), error, result)) == run[n]
  {
    EveryCommandSettlesOnce(h, run, n, id - 1);
  }

  // ---------------------------------------------------------------- listeners

  /** Listeners are kept under one key a session and event name. */
  function ListenerKey(session: string, event: string): string {
    session + "|" + event
  }

  lemma FirstBar(s: string, e: string)
    requires '|' !in s
    ensures ListenerKey(s, e)[|s|] == '|' && forall k :: 0 <= k < |s| ==> ListenerKey(s, e)[k] != '|'
    ensures ListenerKey(s, e)[..|s|] == s && ListenerKey(s, e)[|s| + 1..] == e
  {
  }

  // Sessions whose ids hold no bar do not hear each other's events.
  lemma KeysApart(s: string, e: string, t: string, f: string)
    requires '|' !in s && '|' !in t && ListenerKey(s, e) == ListenerKey(t, f)
    ensures s == t && e == f
  {
    FirstBar(s, e);
    FirstBar(t, f);
  }

  datatype Heard = Heard(listener: nat, params: string)

  function Deliveries(to: seq<nat>, params: string): (r: seq<Heard>)
    ensures |r| == |to| && forall k :: 0 <= k < |to| ==> r[k] == Heard(to[k], params)
  {
    if to == [] then [] else Deliveries(to[..|to| - 1], params) + [Heard(to[|to| - 1], params)]
  }

  /** The list without `x`. */
  function Remove(list: seq<nat>, x: nat): seq<nat> {
    if list == [] then [] else Remove(list[..|list| - 1], x) + if list[|list| - 1] == x then [] else [list[|list| - 1]]
  }

  lemma {:induction false} RemoveIs(list: seq<nat>, x: nat)
    ensures forall y :: y in Remove(list, x) <==> y in list && y != x
    ensures x !in list ==> Remove(list, x) == list
  {
    if list != [] {
      RemoveIs(list[..|list| - 1], x);
      assert list == list[..|list| - 1] + [list[|list| - 1]];
    }
  }

  // A listener added and taken off again leaves its list as it was.
  lemma OffUndoesOn(list: seq<nat>, x: nat)
    requires x !in list
    ensures Remove(list + [x], x) == list
  {
    RemoveIs(list, x);
    assert (list + [x])[..|list|] == list;
  }

  // ---------------------------------------------------------------- the connection

  /** The variables `connectCdp` closes over, and the promises it settles. Each method is one callback. */
  class Connection {
    var nextId: nat
    var calls: nat
    var up: bool
    var closed: bool
    var aborted: bool
    var armed: bool
    var pending: map<nat, Waiter>
    var timers: set<nat>
    var opening: Option<Opening>
    var log: seq<Settlement>
    var listeners: map<string, seq<nat>>
    var heard: seq<Heard>

    function State(): Conn
      reads this
    {
      Conn(nextId, calls, up, closed, aborted, armed, pending, timers, opening, log)
    }

    constructor ()
      ensures State() == INIT && listeners == map[] && heard == []
    {
      nextId, calls, up, closed, aborted, armed := 1, 0, false, false, false, true;
      pending, timers, opening, log := map[], {}, None, [];
      listeners, heard := map[], [];
    }

    method SettleOpening(o: Opening)
      modifies this`opening
      ensures opening == Settle(old(opening), o)
    {
      if opening.None? {
        opening := Some(o);
      }
    }

    method Open()
      requires Enabled(State(), Opens)
      modifies this
      ensures Step(old(State()), Opens, State()) && listeners == old(listeners) && heard == old(heard)
    {
      up, armed := true, false;
      if !aborted {
        SettleOpening(Connected);
      }
    }

    method Abort()
      requires Enabled(State(), Aborts)
      modifies this
      ensures Step(old(State()), Aborts, State()) && listeners == old(listeners) && heard == old(heard)
    {
      aborted := true;
      if !up {
        SettleOpening(OpenCancelled);
      }
    }

    method DeadlinePasses()
      requires Enabled(State(), ConnectTimeout)
      modifies this
      ensures Step(old(State()), ConnectTimeout, State()) && listeners == old(listeners) && heard == old(heard)
    {
      armed := false;
      SettleOpening(NoAnswer);
    }

    method SendCommand(command: string)
      requires Enabled(State(), Sends(command))
      modifies this
      ensures Step(old(State()), Sends(command), State()) && listeners == old(listeners) && heard == old(heard)
    {
      var call := calls;
      calls := calls + 1;
      if closed {
        log := log + [Settlement(call, ConnectionClosed)];
        return;
      }
      var id := nextId;
      nextId := nextId + 1;
      timers := timers + {id};
      pending := pending[id := Waiter(call, command)];
    }

    /** `waiter.resolve` and `waiter.reject`: the deadline stops and the promise settles. */
    method SettleWaiter(id: nat, waiter: Waiter, outcome: Outcome)
      modifies this`timers, this`log
      ensures timers == old(timers) - {id} && log == old(log) + [Settlement(waiter.call, outcome)]
    {
      timers := timers - {id};
      log := log + [Settlement(waiter.call, outcome)];
    }

    method HearMessage(id: Option<nat>, error: Option<string>, result: string)
      modifies this
      ensures Step(old(State()), Hears(id, error, result), State()) && listeners == old(listeners) && heard == old(heard)
      ensures id.None? || id.value !in old(pending) ==> State() == old(State())
      ensures id.Some? && id.value in old(pending) ==> pending == old(pending) - {id.value} && timers == old(timers) - {id.value}
      ensures id.Some? && id.value in old(pending) && error.Some? ==> log == old(log) + [Settlement(old(pending)[id.value].call, Refused(error.value))]
      ensures id.Some? && id.value in old(pending) && error.None? ==> log == old(log) + [Settlement(old(pending)[id.value].call, Answered(result))]
    {
      if id.None? || id.value !in pending {
        return;
      }
      var waiter := pending[id.value];
      pending := pending - {id.value};
      if error.Some? {
        SettleWaiter(id.value, waiter, Refused(error.value));
      } else {
        SettleWaiter(id.value, waiter, Answered(result));
      }
    }

    method TimerRuns(id: nat)
      requires Inv(State()) && Enabled(State(), TimerFires(id))
      modifies this
      ensures Step(old(State()), TimerFires(id), State()) && listeners == old(listeners) && heard == old(heard)
      ensures pending == old(pending) - {id} && log == old(log) + [Settlement(old(pending)[id].call, TimedOut(old(pending)[id].command))]
    {
      var waiter := pending[id];
      pending := pending - {id};
      SettleWaiter(id, waiter, TimedOut(waiter.command));
    }

    /** Every waiter fails, in the order of the map. */
    method FailAll()
      requires Inv(State())
      modifies this`timers, this`log
      ensures log == old(log) + Failures(pending, nextId) && timers == old(timers) - pending.Keys
    {
      for id := 0 to nextId
        invariant log == old(log) + Failures(pending, id)
        invariant timers == set t | t in old(timers) && !(t in pending && t < id)
      {
        if id in pending {
          SettleWaiter(id, pending[id], ConnectionClosed);
        }
      }
    }

    method Lost()
      requires Inv(State())
      modifies this
      ensures Step(old(State()), Loses, State()) && listeners == old(listeners) && heard == old(heard)
    {
      if closed {
        return;
      }
      FailAll();
      closed, armed, pending := true, false, map[];
      if !up {
        SettleOpening(NotAccepted);
      }
    }

    /** `on`: one more listener of the session's event; the same one is not added twice. */
    method On(session: string, event: string, listener: nat)
      modifies this`listeners
      ensures listeners.Keys == old(listeners).Keys + {ListenerKey(session, event)}
      ensures forall key :: key in old(listeners) && key != ListenerKey(session, event) ==> listeners[key] == old(listeners)[key]
      ensures var was := if ListenerKey(session, event) in old(listeners) then old(listeners)[ListenerKey(session, event)] else [];
        listeners[ListenerKey(session, event)] == if listener in was then was else was + [listener]
    {
      var key := ListenerKey(session, event);
      var list := if key in listeners then listeners[key] else [];
      if listener !in list {
        list := list + [listener];
      }
      listeners := listeners[key := list];
    }

    /** What `on` gives back: the listener hears the event no more; its list's other listeners, and every other list, stay. */
    method Off(session: string, event: string, listener: nat)
      requires ListenerKey(session, event) in listeners
      modifies this`listeners
      ensures listeners.Keys == old(listeners).Keys
      ensures forall x :: x in listeners[ListenerKey(session, event)] <==> x in old(listeners)[ListenerKey(session, event)] && x != listener
      ensures listener !in old(listeners)[ListenerKey(session, event)] ==> listeners == old(listeners)
      ensures forall list :: old(listeners)[ListenerKey(session, event)] == list + [listener] && listener !in list ==> listeners[ListenerKey(session, event)] == list
      ensures forall key :: key in listeners && key != ListenerKey(session, event) ==> listeners[key] == old(listeners)[key]
    {
      var key := ListenerKey(session, event);
      RemoveIs(listeners[key], listener);
      forall list | listeners[key] == list + [listener] && listener !in list ensures Remove(listeners[key], listener) == list {
        OffUndoesOn(list, listener);
      }
      listeners := listeners[key := Remove(listeners[key], listener)];
    }

    /** An event without an id goes to its session's listeners for it, in the order they came, and to no other. */
    method HearEvent(session: string, event: string, params: string)
      modifies this`heard
      ensures var key := ListenerKey(session, event);
        heard == old(heard) + Deliveries(if key in listeners then listeners[key] else [], params)
    {
      var key := ListenerKey(session, event);
      var to := if key in listeners then listeners[key] else [];
      for k := 0 to |to|
        invariant heard == old(heard) + Deliveries(to[..k], params)
      {
        assert to[..k + 1][..k] == to[..k];
        heard := heard + [Heard(to[k], params)];
      }
      assert to[..|to|] == to;
    }
  }
}
