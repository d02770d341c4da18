/**
 * Handing a finished batch's stopped items to a person: every step stopped at a check is read again in the person's
 * Chrome, one after another, and only a page with content replaces the stopped result.
 */
module BatchHandoff {
  import opened Options

  datatype Status = Success | Partial | EmptyVerified | Blocked | Failed | Cancelled | BudgetExceeded | Duplicate

  datatype Result = Result(status: Status, blockReason: Option<string>, page: string)

  datatype Step = Step(id: nat, url: string, status: Status, result: Option<Result>)

  /** What stopped a page that a person may still open. */
  const HANDOFF_REASONS: set<string> := {"captcha", "cloudflare_challenge", "bot_detected_generic", "login_wall"}

  predicate Contentful(s: Status) {
    s.Success? || s.Partial?
  }

  predicate IsError(s: Step) {
    s.status.Failed? || s.status.Blocked? || s.status.Cancelled? || s.status.BudgetExceeded?
  }

  predicate Needed(s: Step) {
    s.status.Blocked? && s.result.Some? && s.result.value.blockReason.Some? && s.result.value.blockReason.value in HANDOFF_REASONS
  }

  /**
   * What came of one item: the caller had gone, the page was read, it was not through, W2L was shutting down when the page
   * was read, or the reading failed in a way that ends the handoff.
   */
  datatype Outcome = CallerGone | ReadAs(result: Result) | NotThrough | ShutDown(result: Result) | Breaks

  datatype Item = Item(id: nat, url: string, through: bool, status: Status)

  predicate Through(o: Outcome) {
    o.ReadAs? && Contentful(o.result.status)
  }

  function Stored(s: Step, o: Outcome): Step {
    if Through(o) then s.(status := o.result.status, result := Some(o.result)) else s
  }

  function ItemOf(s: Step, o: Outcome): Item {
    Item(s.id, s.url, Through(o), if Through(o) then o.result.status else s.status)
  }

  // ---------------------------------------------------------------- the steps waiting

  /** Positions of the error steps from `from` on, in order. */
  function Errors(steps: seq<Step>, from: nat): seq<nat>
    decreases |steps| - from
  {
    if from >= |steps| then [] else (if IsError(steps[from]) then [from] else []) + Errors(steps, from + 1)
  }

  /** Of these positions, those whose step waits for a person. */
  function OnlyNeeded(steps: seq<Step>, at: seq<nat>): seq<nat>
    requires forall k :: 0 <= k < |at| ==> at[k] < |steps|
  {
    if at == [] then []
    else OnlyNeeded(steps, at[..|at| - 1]) + if Needed(steps[at[|at| - 1]]) then [at[|at| - 1]] else []
  }

  ghost predicate Rising(at: seq<nat>) {
    forall i, j :: 0 <= i < j < |at| ==> at[i] < at[j]
  }

  /** `at` names, in order, exactly the positions of the steps waiting. */
  ghost predicate Waiting(steps: seq<Step>, at: seq<nat>) {
    && Rising(at) && (forall k :: 0 <= k < |at| ==> at[k] < |steps|)
    && forall i :: 0 <= i < |steps| ==> (Needed(steps[i]) <==> i in at)
  }

  lemma {:induction false} ErrorsAre(steps: seq<Step>, from: nat)
    ensures Rising(Errors(steps, from)) && forall k :: 0 <= k < |Errors(steps, from)| ==> from <= Errors(steps, from)[k] < |steps|
    ensures forall i :: from <= i < |steps| ==> (IsError(steps[i]) <==> i in Errors(steps, from))
    decreases |steps| - from
  {
    if from < |steps| {
      ErrorsAre(steps, from + 1);
      var rest := Errors(steps, from + 1);
      if IsError(steps[from]) {
        assert Errors(steps, from) == [from] + rest;
      } else {
        assert Errors(steps, from) == rest;
      }
    }
  }

  // Every error step is listed, once and in order: those that failed, were blocked or cancelled, or ran over budget.
  lemma ErrorsListed(steps: seq<Step>)
    ensures var all := Errors(steps, 0);
      && Rising(all) && (forall k :: 0 <= k < |all| ==> all[k] < |steps|)
      && forall i :: 0 <= i < |steps| ==>
        (i in all <==> steps[i].status == Failed || steps[i].status == Blocked || steps[i].status == Cancelled || steps[i].status == BudgetExceeded)
  {
    ErrorsAre(steps, 0);
  }

  lemma {:induction false} OnlyNeededRises(steps: seq<Step>, at: seq<nat>)
    requires Rising(at) && forall k :: 0 <= k < |at| ==> at[k] < |steps|
    ensures Rising(OnlyNeeded(steps, at)) && forall i :: i in OnlyNeeded(steps, at) ==> i in at
  {
    if at != [] {
      var front, last := at[..|at| - 1], at[|at| - 1];
      OnlyNeededRises(steps, front);
      var found := OnlyNeeded(steps, front);
      forall k | 0 <= k < |found| ensures found[k] < last {
        assert found[k] in front;
      }
    }
  }

  lemma {:induction false} OnlyNeededAre(steps: seq<Step>, at: seq<nat>)
    requires forall k :: 0 <= k < |at| ==> at[k] < |steps|
    ensures forall i :: i in at ==> i < |steps| && (Needed(steps[i]) <==> i in OnlyNeeded(steps, at))
    ensures forall i :: i in OnlyNeeded(steps, at) ==> i in at && Needed(steps[i])
  {
    if at != [] {
      var front, last := at[..|at| - 1], at[|at| - 1];
      OnlyNeededAre(steps, front);
      assert at == front + [last];
    }
  }

  lemma Joined<T>(a: seq<T>, b: seq<T>, c: seq<T>)
    ensures a + (b + c) == (a + b) + c
  {
  }

  lemma ConsSplit<T>(x: T, front: seq<T>, rest: seq<T>)
    ensures [x] + (front + rest) == ([x] + front) + rest && ([x] + (front + rest))[..|front| + 1] == [x] + front
  {
  }

  // A page of errors ends where the next one begins.
  lemma {:induction false} ErrorsSplit(steps: seq<Step>, from: nat, limit: nat)
    requires 1 <= limit <= |Errors(steps, from)|
    ensures Errors(steps, from)[limit - 1] < |steps|
    ensures Errors(steps, from) == Errors(steps, from)[..limit] + Errors(steps, Errors(steps, from)[limit - 1] + 1)
    decreases |steps| - from
  {
    var rest := Errors(steps, from + 1);
    if !IsError(steps[from]) {
      assert [] + rest == rest;
      ErrorsSplit(steps, from + 1, limit);
    } else if limit > 1 {
      ErrorsSplit(steps, from + 1, limit - 1);
      ConsSplit(from, rest[..limit - 1], rest[limit - 1..]);
    }
  }

  lemma NextError(steps: seq<Step>, from: nat, page: seq<nat>, i: nat)
    requires Errors(steps, from) == page + Errors(steps, i) && i < |steps|
    ensures Errors(steps, from) == (page + if IsError(steps[i]) then [i] else []) + Errors(steps, i + 1)
  {
    Joined(page, if IsError(steps[i]) then [i] else [], Errors(steps, i + 1));
  }

  lemma NextPage(steps: seq<Step>, all: seq<nat>, from: nat, page: seq<nat>, limit: nat)
    requires Errors(steps, 0) == all + Errors(steps, from) && 1 <= limit < |Errors(steps, from)| && page == Errors(steps, from)[..limit]
    ensures var next := page[|page| - 1] + 1; Errors(steps, 0) == (all + page) + Errors(steps, next) && |Errors(steps, next)| < |Errors(steps, from)|
  {
    ErrorsSplit(steps, from, limit);
  }

  // ---------------------------------------------------------------- what a handoff leaves

  /** The steps after the first `n` outcomes. */
  function Handed(steps: seq<Step>, at: seq<nat>, outcomes: seq<Outcome>, n: nat): (r: seq<Step>)
    requires n <= |at| <= |outcomes| && forall k :: 0 <= k < |at| ==> at[k] < |steps|
    ensures |r| == |steps|
  {
    if n == 0 then steps
    else
      var before := Handed(steps, at, outcomes, n - 1);
      before[at[n - 1] := Stored(before[at[n - 1]], outcomes[n - 1])]
  }

  lemma {:induction false} HandedAt(steps: seq<Step>, at: seq<nat>, outcomes: seq<Outcome>, n: nat)
    requires n <= |at| <= |outcomes| && Rising(at) && forall k :: 0 <= k < |at| ==> at[k] < |steps|
    ensures forall k :: 0 <= k < n ==> Handed(steps, at, outcomes, n)[at[k]] == Stored(steps[at[k]], outcomes[k])
    ensures forall i :: 0 <= i < |steps| && i !in at[..n] ==> Handed(steps, at, outcomes, n)[i] == steps[i]
  {
    if n > 0 {
      HandedAt(steps, at, outcomes, n - 1);
      assert at[..n] == at[..n - 1] + [at[n - 1]];
      assert at[n - 1] !in at[..n - 1];
    }
  }

  function Items(steps: seq<Step>, at: seq<nat>, outcomes: seq<Outcome>, n: nat): (r: seq<Item>)
    requires n <= |at| <= |outcomes| && forall k :: 0 <= k < |at| ==> at[k] < |steps|
    ensures |r| == n
  {
    if n == 0 then [] else Items(steps, at, outcomes, n - 1) + [ItemOf(steps[at[n - 1]], outcomes[n - 1])]
  }

  function ThroughCount(items: seq<Item>): (r: nat)
    ensures r <= |items|
  {
    if items == [] then 0 else ThroughCount(items[..|items| - 1]) + if items[|items| - 1].through then 1 else 0
  }

  lemma {:induction false} ThroughCounted(items: seq<Item>)
    ensures ThroughCount(items) == |set k: nat | k < |items| && items[k].through|
  {
    if items != [] {
      var front, last := items[..|items| - 1], |items| - 1;
      ThroughCounted(front);
      var before, all := set k: nat | k < |front| && front[k].through, set k: nat | k < |items| && items[k].through;
      assert all == before + if items[last].through then {last} else {};
    }
  }

  datatype Response = Response(handedOff: nat, through: nat, notThrough: int, items: seq<Item>)

  /** How many outcomes there are before the handoff ends: all, or those before one that breaks it. */
  function Reached(outcomes: seq<Outcome>, n: nat): (r: nat)
    requires n <= |outcomes|
    ensures r <= n && (r < n ==> outcomes[r].Breaks?) && forall k :: 0 <= k < r ==> !outcomes[k].Breaks?
  {
    if n == 0 then 0 else if Reached(outcomes, n - 1) == n - 1 && !outcomes[n - 1].Breaks? then n else Reached(outcomes, n - 1)
  }

  class TaskStore {
    var steps: seq<Step>

    constructor (steps: seq<Step>)
      ensures this.steps == steps
    {
      this.steps := steps;
    }

    /** One page of the error steps past the cursor, and whether more follow. */
    method ListErrors(from: nat, limit: nat) returns (page: seq<nat>, hasMore: bool)
      requires limit >= 1
      ensures hasMore <==> |Errors(steps, from)| > limit
      ensures page == if hasMore then Errors(steps, from)[..limit] else Errors(steps, from)
    {
      page, hasMore := [], false;
      var i := from;
      while i < |steps|
        invariant from <= i && |page| <= limit && Errors(steps, from) == page + Errors(steps, i)
      {
        NextError(steps, from, page, i);
        if IsError(steps[i]) {
          if |page| == limit {
            return page, true;
          }
          page := page + [i];
        } else {
          assert page + [] == page;
        }
        i := i + 1;
      }
    }

    /** Every error step, page after page. */
    method StepsOf(limit: nat) returns (all: seq<nat>)
      requires limit >= 1
      ensures all == Errors(steps, 0)
    {
      all := [];
      var cursor := 0;
      while true
        invariant Errors(steps, 0) == all + Errors(steps, cursor)
        decreases |Errors(steps, cursor)|
      {
        var page, hasMore := ListErrors(cursor, limit);
        if !hasMore {
          return all + page;
        }
        NextPage(steps, all, cursor, page, limit);
        all := all + page;
        cursor := page[|page| - 1] + 1;
      }
    }

    /** `putStep` of a step the store has: the one under its id is replaced, in place. */
    method PutStep(i: nat, s: Step)
      requires i < |steps| && steps[i].id == s.id
      modifies this
      ensures steps == old(steps)[i := s]
    {
      steps := steps[i := s];
    }
  }

  /** `k` items are handed over: `now` holds what the first `k` outcomes leave, and what came meanwhile after it. */
  ghost predicate Progress(was: seq<Step>, now: seq<Step>, at: seq<nat>, outcomes: seq<Outcome>, k: nat, items: seq<Item>) {
    && Rising(at) && k <= |at| <= |outcomes| && (forall j :: 0 <= j < |at| ==> at[j] < |was|)
    && |now| >= |was| && now[..|was|] == Handed(was, at, outcomes, k)
    && items == Items(was, at, outcomes, k) && Reached(outcomes, k) == k
  }

  /**
   * `handOff`, once the batch may be handed over. `outcomes` is what comes of each item in turn; `arrivals` the steps an
   * append's run records meanwhile. None: it broke off.
   */
  method HandOff(store: TaskStore, outcomes: seq<Outcome>, arrivals: seq<seq<Step>>, limit: nat) returns (response: Option<Response>, ghost at: seq<nat>)
    requires limit >= 1 && |arrivals| == |outcomes| >= |store.steps|
    modifies store
    ensures Waiting(old(store.steps), at) && |at| <= |outcomes|
    ensures var n := Reached(outcomes, |at|);
      && |store.steps| >= |old(store.steps)| && store.steps[..|old(store.steps)|] == Handed(old(store.steps), at, outcomes, n)
      && (response.None? <==> n < |at|)
      && (response.Some? ==>
        var items := Items(old(store.steps), at, outcomes, |at|);
        response.value == Response(|at|, ThroughCount(items), |at| - ThroughCount(items), items))
  {
    ghost var was := store.steps;
    var waiting := WaitingSteps(store, limit);
    at := waiting;
    var items := HandEach(store, was, waiting, outcomes, arrivals);
    if items.None? {
      return None, at;
    }
    var through := ThroughCount(items.value);
    response := Some(Response(|items.value|, through, |items.value| - through, items.value));
  }

  /** The items in turn, until one breaks the handoff off. */
  method HandEach(store: TaskStore, ghost was: seq<Step>, at: seq<nat>, outcomes: seq<Outcome>, arrivals: seq<seq<Step>>) returns (items: Option<seq<Item>>)
    requires Progress(was, store.steps, at, outcomes, 0, []) && |arrivals| == |outcomes|
    modifies store
    ensures |store.steps| >= |was| && store.steps[..|was|] == Handed(was, at, outcomes, Reached(outcomes, |at|))
    ensures items == if Reached(outcomes, |at|) == |at| then Some(Items(was, at, outcomes, |at|)) else None
  {
    var done: seq<Item> := [];
    for k := 0 to |at|
      invariant Progress(was, store.steps, at, outcomes, k, done)
    {
      store.steps := store.steps + arrivals[k];
      var item := HandOne(store, was, at, outcomes, k, done);
      if item.None? {
        NeverReached(outcomes, k, |at|);
        return None;
      }
      done := done + [item.value];
    }
    items := Some(done);
  }

  // The next item's step is as it was, whatever came meanwhile; handing it over is the next step of the whole.
  lemma NextWaiting(was: seq<Step>, now: seq<Step>, at: seq<nat>, outcomes: seq<Outcome>, k: nat, items: seq<Item>)
    requires Progress(was, now, at, outcomes, k, items) && k < |at|
    ensures now[at[k]] == was[at[k]]
    ensures now[at[k] := Stored(now[at[k]], outcomes[k])][..|was|] == Handed(was, at, outcomes, k + 1)
  {
    HandedAt(was, at, outcomes, k);
    assert at[k] !in at[..k];
    assert now[at[k]] == now[..|was|][at[k]];
    assert now[at[k] := Stored(now[at[k]], outcomes[k])][..|was|] == now[..|was|][at[k] := Stored(now[at[k]], outcomes[k])];
  }

  /** One item: what came of it decides whether its step is replaced. None: the handoff breaks off. */
  method HandOne(store: TaskStore, ghost was: seq<Step>, at: seq<nat>, outcomes: seq<Outcome>, k: nat, ghost items: seq<Item>) returns (item: Option<Item>)
    requires Progress(was, store.steps, at, outcomes, k, items) && k < |at|
    modifies store
    ensures item.None? ==> outcomes[k].Breaks? && store.steps == old(store.steps)
    ensures item.Some? ==> Progress(was, store.steps, at, outcomes, k + 1, items + [item.value])
  {
    NextWaiting(was, store.steps, at, outcomes, k, items);
    var step := store.steps[at[k]];
    match outcomes[k]
    case Breaks => item := None;
    case ReadAs(result) =>
      if !Contentful(result.status) {
        item := Some(Item(step.id, step.url, false, step.status));
      } else {
        store.PutStep(at[k], step.(status := result.status, result := Some(result)));
        item := Some(Item(step.id, step.url, true, result.status));
      }
    case _ => item := Some(Item(step.id, step.url, false, step.status));
  }

  lemma {:induction false} NeverReached(outcomes: seq<Outcome>, k: nat, n: nat)
    requires k < n <= |outcomes| && outcomes[k].Breaks? && Reached(outcomes, k) == k
    ensures Reached(outcomes, n) == k
    decreases n
  {
  }

  lemma ErrorsNeeded(steps: seq<Step>)
    ensures (forall k :: 0 <= k < |Errors(steps, 0)| ==> Errors(steps, 0)[k] < |steps|)
    ensures Waiting(steps, OnlyNeeded(steps, Errors(steps, 0))) && |OnlyNeeded(steps, Errors(steps, 0))| <= |steps|
  {
    ErrorsAre(steps, 0);
    var errors := Errors(steps, 0);
    OnlyNeededRises(steps, errors);
    OnlyNeededAre(steps, errors);
    var at := OnlyNeeded(steps, errors);
    forall i | 0 <= i < |steps| ensures Needed(steps[i]) <==> i in at {
      if i in errors {
        var k :| 0 <= k < |errors| && errors[k] == i;
      }
    }
    assert forall k :: 0 <= k < |at| ==> at[k] in at;
    RisingFits(at, |steps|);
  }

  /** The steps waiting: every error step, page after page, and of those the ones stopped at a check. */
  method WaitingSteps(store: TaskStore, limit: nat) returns (at: seq<nat>)
    requires limit >= 1
    ensures Waiting(store.steps, at) && |at| <= |store.steps|
  {
    ErrorsNeeded(store.steps);
    var errors := store.StepsOf(limit);
    at := [];
    for k := 0 to |errors|
      invariant at == OnlyNeeded(store.steps, errors[..k])
    {
      assert errors[..k + 1][..k] == errors[..k];
      if Needed(store.steps[errors[k]]) {
        at := at + [errors[k]];
      }
    }
    assert errors[..|errors|] == errors;
  }

  lemma {:induction false} RisingFits(at: seq<nat>, n: nat)
    requires Rising(at) && forall k :: 0 <= k < |at| ==> at[k] < n
    ensures |at| <= n
  {
    if at != [] {
      RisingFits(at[..|at| - 1], at[|at| - 1]);
    }
  }

  // ---------------------------------------------------------------- what is conserved

  /** The steps handed over, `n` of the outcomes in. */
  ghost predicate HandoffOf(steps: seq<Step>, at: seq<nat>, outcomes: seq<Outcome>, n: nat) {
    Waiting(steps, at) && n <= |at| <= |outcomes|
  }

  /** Stopped at a captcha, a challenge, a bot check or a login wall. */
  predicate Stopped(s: Step) {
    s.status == Blocked && s.result.Some? && s.result.value.blockReason.Some?
    && (s.result.value.blockReason.value == "captcha" || s.result.value.blockReason.value == "cloudflare_challenge"
      || s.result.value.blockReason.value == "bot_detected_generic" || s.result.value.blockReason.value == "login_wall")
  }

  /** The person's Chrome gave a page with content, and it was stored. */
  predicate PageRead(o: Outcome) {
    o.ReadAs? && (o.result.status == Success || o.result.status == Partial)
  }

  // The steps handed over are the stopped ones, in order.
  lemma WaitingAreStopped(steps: seq<Step>, at: seq<nat>)
    requires Waiting(steps, at)
    ensures Rising(at) && (forall k :: 0 <= k < |at| ==> at[k] < |steps|) && forall i :: 0 <= i < |steps| ==> (i in at <==> Stopped(steps[i]))
  {
    forall i | 0 <= i < |steps| ensures Needed(steps[i]) <==> Stopped(steps[i]) {
    }
  }

  // A handoff, whole or broken off, changes no step's id or URL and moves none; the steps it changed are those of which a page was
  // read, each stopped before and now holding that page.
  lemma HandoffConserves(steps: seq<Step>, at: seq<nat>, outcomes: seq<Outcome>, n: nat)
    requires HandoffOf(steps, at, outcomes, n)
    ensures var now := Handed(steps, at, outcomes, n);
      && |now| == |steps|
      && (forall i :: 0 <= i < |steps| ==> now[i].id == steps[i].id && now[i].url == steps[i].url)
      && (forall i :: 0 <= i < |steps| && now[i] != steps[i] ==> Stopped(steps[i]) && i in at[..n])
      && forall k :: 0 <= k < |at| ==>
        now[at[k]] == if k < n && PageRead(outcomes[k]) then steps[at[k]].(status := outcomes[k].result.status, result := Some(outcomes[k].result)) else steps[at[k]]
  {
    HandedAt(steps, at, outcomes, n);
    forall k | n <= k < |at| ensures at[k] !in at[..n] {
    }
    forall i | i in at[..n] ensures i in at {
    }
  }

  // A second handoff waits for exactly the ones still stopped: those of the first of which no page was read.
  lemma StillWaitingExactly(steps: seq<Step>, at: seq<nat>, outcomes: seq<Outcome>, n: nat, k: nat)
    requires HandoffOf(steps, at, outcomes, n) && k < |at|
    ensures Needed(Handed(steps, at, outcomes, n)[at[k]]) <==> !(k < n && PageRead(outcomes[k]))
    ensures Stopped(Handed(steps, at, outcomes, n)[at[k]]) <==> !(k < n && PageRead(outcomes[k]))
  {
    HandoffConserves(steps, at, outcomes, n);
    assert at[k] in at;
  }

  lemma NothingElseWaits(steps: seq<Step>, at: seq<nat>, outcomes: seq<Outcome>, n: nat, i: nat)
    requires HandoffOf(steps, at, outcomes, n) && i < |steps| && i !in at
    ensures Handed(steps, at, outcomes, n)[i] == steps[i] && !Needed(Handed(steps, at, outcomes, n)[i])
  {
  }

  // The answer has one item for each step that waited, under its id, and says through exactly of those whose step now holds a page.
  lemma {:induction false} ItemsTellTheTruth(steps: seq<Step>, at: seq<nat>, outcomes: seq<Outcome>, n: nat)
    requires HandoffOf(steps, at, outcomes, n)
    ensures var items, now := Items(steps, at, outcomes, n), Handed(steps, at, outcomes, n);
      forall k :: 0 <= k < n ==>
        items[k].id == steps[at[k]].id && items[k].url == steps[at[k]].url && items[k].status == now[at[k]].status
        && (items[k].through <==> now[at[k]] != steps[at[k]])
  {
    HandedAt(steps, at, outcomes, n);
    forall k | 0 <= k < n ensures Items(steps, at, outcomes, n)[k] == ItemOf(steps[at[k]], outcomes[k]) {
      ItemAt(steps, at, outcomes, n, k);
    }
    assert forall k :: 0 <= k < n ==> at[k] in at && Needed(steps[at[k]]);
  }

  lemma {:induction false} ItemAt(steps: seq<Step>, at: seq<nat>, outcomes: seq<Outcome>, n: nat, k: nat)
    requires HandoffOf(steps, at, outcomes, n) && k < n
    ensures Items(steps, at, outcomes, n)[k] == ItemOf(steps[at[k]], outcomes[k])
  {
    if k < n - 1 {
      ItemAt(steps, at, outcomes, n - 1, k);
    }
  }
}
