/**
 * One answer per submission: the index of idempotency keys, and the starts of crawls and batches and the appends that
 * claim a key, take effect and record it. A crawl, and a batch without an active-batch limit, claims and records in one
 * step; a batch that must be counted, and every append, waits in between.
 */
module Submissions {
  import opened Options

  const TTL := 86_400_000

  /** A parsed request without its key. Equal bodies are equal fingerprints. */
  datatype Body = CrawlBody(json: string) | BatchBody(json: string) | AppendBody(json: string, to: nat)

  /** `reply` is the submission whose answer the row stores, `task` the task it started or extended. */
  datatype Row = Row(body: Body, reply: nat, task: nat, at: int)

  type Index = map<string, Row>

  datatype Claim = Fresh | Replay(reply: nat) | Conflict

  predicate Stale(row: Row, existing: set<nat>, now: int) {
    row.at + TTL <= now || row.task !in existing
  }

  /** The verdict on a submission that names a key: the store holds nothing that counts under it, or this body, or another one. */
  function ClaimOf(index: Index, existing: set<nat>, key: string, body: Body, now: int): Claim {
    if key !in index || Stale(index[key], existing, now) then Fresh
    else if index[key].body != body then Conflict
    else Replay(index[key].reply)
  }

  /** The index after a claim: a stale row is removed. */
  function AfterClaim(index: Index, existing: set<nat>, key: string, now: int): Index {
    if key in index && Stale(index[key], existing, now) then index - {key} else index
  }

  // ---------------------------------------------------------------- the submissions

  datatype Phase = Creating | Created | Failed

  /** A submission that was recorded, and the task it started or extended. */
  datatype Sub = Sub(key: Option<string>, body: Body, task: nat, at: int, phase: Phase)

  /** The one batch submission under way: claimed and waiting, a start for its count or an append for its checks; or creating its task. */
  datatype Guard = Free | Waiting(key: Option<string>, body: Body) | Making(sub: nat)

  /** `limited`: there is an active-batch limit. Tasks are numbered from 0; those `gone` had their directories removed. */
  datatype State = State(limited: bool, now: int, index: Index, tasks: nat, subs: seq<Sub>, gone: set<nat>, guard: Guard)

  datatype Answer = Accepted(sub: nat) | Replayed(sub: nat) | Conflicted | Busy | Held | Refused | NoAnswer

  datatype Action =
    | Tick(moment: int)
    | StartCrawl(key: Option<string>, json: string)
    | StartBatch(key: Option<string>, json: string)
    | StartAppend(key: Option<string>, json: string, to: nat)
    | Settle(refused: bool)                                        // the wait is over
    | Made(sub: nat)
    | Fails(sub: nat)
    | Removed(task: nat)

  function Init(limited: bool): State {
    State(limited, 0, map[], 0, [], {}, Free)
  }

  function Existing(s: State): set<nat> {
    set i: nat | i < s.tasks && i !in s.gone
  }

  function Claimed(s: State, key: Option<string>, body: Body): Claim {
    if key.None? then Fresh else ClaimOf(s.index, Existing(s), key.value, body, s.now)
  }

  function Dropped(s: State, key: Option<string>): State {
    if key.None? then s else s.(index := AfterClaim(s.index, Existing(s), key.value, s.now))
  }

  /** The submission takes effect and its key is recorded: a start with its task under creation, an append with its list written. */
  function Record(s: State, key: Option<string>, body: Body): State {
    var task := if body.AppendBody? then body.to else s.tasks;
    s.(subs := s.subs + [Sub(key, body, task, s.now, if body.AppendBody? then Created else Creating)],
       tasks := if body.AppendBody? then s.tasks else s.tasks + 1,
       index := if key.Some? then s.index[key.value := Row(body, |s.subs|, task, s.now)] else s.index)
  }

  function Ended(s: State, sub: nat, phase: Phase): State
    requires sub < |s.subs|
  {
    s.(subs := s.subs[sub := s.subs[sub].(phase := phase)], guard := if s.guard == Making(sub) then Free else s.guard)
  }

  function Forgotten(s: State, key: Option<string>): State {
    if key.Some? then s.(index := s.index - {key.value}) else s
  }

  predicate IsCreating(s: State, sub: nat) {
    sub < |s.subs| && s.subs[sub].phase.Creating?
  }

  /** Claim and record in one step. */
  predicate Starts(s: State, key: Option<string>, body: Body, t: State, answer: Answer) {
    match Claimed(s, key, body)
    case Fresh =>
      && t == Record(Dropped(s, key), key, body).(guard := if body.BatchBody? then Making(|s.subs|) else s.guard)
      && answer == Accepted(|s.subs|)
    case Replay(sub) => t == s && answer == Replayed(sub)
    case Conflict => t == s && answer == Conflicted
  }

  /** Claim, and record later. */
  predicate Waits(s: State, key: Option<string>, body: Body, t: State, answer: Answer) {
    match Claimed(s, key, body)
    case Fresh => t == Dropped(s, key).(guard := Waiting(key, body)) && answer == Held
    case Replay(sub) => t == s && answer == Replayed(sub)
    case Conflict => t == s && answer == Conflicted
  }

  /** The wait of a batch start or an append ends: refused by its count or its checks, or recorded. */
  predicate Settles(s: State, refused: bool, t: State, answer: Answer) {
    && s.guard.Waiting?
    && (s.guard.body.AppendBody? && s.guard.body.to !in Existing(s) ==> refused)
    && if refused then t == s.(guard := Free) && answer == Refused
       else t == Record(s, s.guard.key, s.guard.body).(guard := if s.guard.body.AppendBody? then Free else Making(|s.subs|)) && answer == Accepted(|s.subs|)
  }

  predicate Step(s: State, a: Action, t: State, answer: Answer) {
    match a
    case Tick(moment) => s.now <= moment && t == s.(now := moment) && answer == NoAnswer
    case StartCrawl(key, json) => Starts(s, key, CrawlBody(json), t, answer)
    case StartBatch(key, json) =>
      if !s.guard.Free? then t == s && answer == Busy
      else if s.limited then Waits(s, key, BatchBody(json), t, answer)
      else Starts(s, key, BatchBody(json), t, answer)
    case StartAppend(key, json, to) =>
      if !s.guard.Free? then t == s && answer == Busy else Waits(s, key, AppendBody(json, to), t, answer)
    case Settle(refused) => Settles(s, refused, t, answer)
    case Made(sub) => IsCreating(s, sub) && t == Ended(s, sub, Created) && answer == NoAnswer
    case Fails(sub) => IsCreating(s, sub) && t == Forgotten(Ended(s, sub, Failed), s.subs[sub].key) && answer == NoAnswer
    case Removed(task) => task < s.tasks && t == s.(gone := s.gone + {task}) && answer == NoAnswer
  }

  // ---------------------------------------------------------------- one submission per key

  /** The submission stands under its key: not failed, its task there, its 24 hours not over. */
  predicate Live(s: State, i: nat) {
    i < |s.subs| && !s.subs[i].phase.Failed? && s.subs[i].task !in s.gone && s.now < s.subs[i].at + TTL
  }

  predicate LiveUnder(s: State, i: nat, key: string) {
    Live(s, i) && s.subs[i].key == Some(key)
  }

  /** No two submissions of one key stood at once. */
  ghost predicate OnePerKey(s: State) {
    forall i, j :: 0 <= i < j < |s.subs| ==> Apart(s, i, j)
  }

  ghost predicate Apart(s: State, i: nat, j: nat)
    requires i < j < |s.subs|
  {
    (s.subs[i].key.Some? && s.subs[i].key == s.subs[j].key && !s.subs[i].phase.Failed? && !s.subs[j].phase.Failed? && s.subs[i].task !in s.gone) ==>
      s.subs[i].at + TTL <= s.subs[j].at
  }

  /** The key's row is this submission's. */
  ghost predicate OwnsRow(s: State, i: nat)
    requires i < |s.subs|
  {
    s.subs[i].key.Some? && s.subs[i].key.value in s.index && s.index[s.subs[i].key.value] == Row(s.subs[i].body, i, s.subs[i].task, s.subs[i].at)
  }

  ghost predicate Owns(s: State) {
    forall i: nat :: Live(s, i) && s.subs[i].key.Some? ==> OwnsRow(s, i)
  }

  ghost predicate Dated(s: State) {
    forall i :: 0 <= i < |s.subs| ==> s.subs[i].at <= s.now && s.subs[i].task < s.tasks
  }

  /** Under the key a submission waits to record, only the crawls named stand. */
  ghost predicate WaitsFor(s: State, crossed: set<nat>) {
    s.guard.Waiting? && s.guard.key.Some? ==> forall i: nat :: LiveUnder(s, i, s.guard.key.value) ==> i in crossed
  }

  /** `crossed`: the crawls started under the key of the submission that waits, since it claimed it. */
  ghost predicate Inv(s: State, crossed: set<nat>) {
    Dated(s) && Owns(s) && OnePerKey(s) && WaitsFor(s, crossed)
  }

  ghost function Crossing(s: State, a: Action, t: State, crossed: set<nat>): set<nat> {
    if (a.StartBatch? || a.StartAppend?) && s.guard.Free? then {}
    else if a.StartCrawl? && |t.subs| > |s.subs| && s.guard.Waiting? && s.guard.key.Some? && s.guard.key == a.key then crossed + {|s.subs|}
    else crossed
  }

  /** A creation that fails does so within the day, its directory not removed meanwhile. */
  ghost predicate Prompt(s: State, a: Action) {
    a.Fails? ==> Live(s, a.sub)
  }

  /** A submission is recorded under a key a crawl has started under since the submission claimed it. */
  ghost predicate Doubles(s: State, a: Action, crossed: set<nat>) {
    a == Settle(false) && s.guard.Waiting? && s.guard.key.Some? && exists i :: i in crossed && LiveUnder(s, i, s.guard.key.value)
  }

  // While a submission stands under a key, the key is its: the same body replays it and any other conflicts.
  lemma StandingAnswers(s: State, crossed: set<nat>, key: string, body: Body, i: nat)
    requires Inv(s, crossed) && LiveUnder(s, i, key)
    ensures Dropped(s, Some(key)) == s && Claimed(s, Some(key), body) == (if s.subs[i].body == body then Replay(i) else Conflict)
  {
    assert OwnsRow(s, i);
    assert s.subs[i].task in Existing(s);
  }

  lemma FreshStandsNone(s: State, crossed: set<nat>, key: Option<string>, body: Body)
    requires Inv(s, crossed) && Claimed(s, key, body).Fresh?
    ensures key.Some? ==> forall i: nat :: !LiveUnder(s, i, key.value)
  {
    if key.Some? {
      forall i: nat | LiveUnder(s, i, key.value) ensures false {
        StandingAnswers(s, crossed, key.value, body, i);
      }
    }
  }

  // ---------------------------------------------------------------- every step

  /** What a step that records nothing keeps: the submissions as they were, or no longer standing; live rows untouched. */
  ghost predicate Carries(s: State, t: State) {
    && |t.subs| == |s.subs| && s.now <= t.now && s.tasks == t.tasks && s.gone <= t.gone
    && (forall i :: 0 <= i < |s.subs| ==> t.subs[i] == s.subs[i].(phase := t.subs[i].phase) && (s.subs[i].phase.Failed? ==> t.subs[i].phase.Failed?))
    && (t.guard.Waiting? ==> t.guard == s.guard)
    && forall i: nat :: Live(t, i) && t.subs[i].key.Some? && OwnsRow(s, i) ==> OwnsRow(t, i)
  }

  lemma CarryKeeps(s: State, crossed: set<nat>, t: State)
    requires Inv(s, crossed) && Carries(s, t)
    ensures Inv(t, crossed)
  {
    forall i: nat | Live(t, i) && t.subs[i].key.Some? ensures OwnsRow(t, i) {
      assert Live(s, i) && OwnsRow(s, i);
    }
    forall i, j | 0 <= i < j < |t.subs| ensures Apart(t, i, j) {
      assert Apart(s, i, j);
    }
    forall i: nat | t.guard.Waiting? && t.guard.key.Some? && LiveUnder(t, i, t.guard.key.value) ensures i in crossed {
      assert LiveUnder(s, i, s.guard.key.value);
    }
  }

  // Dropping a stale row takes no standing submission's.
  lemma DropCarries(s: State, crossed: set<nat>, key: Option<string>)
    requires Inv(s, crossed)
    ensures Carries(s, Dropped(s, key)) && Inv(Dropped(s, key), crossed)
  {
    forall i: nat | Live(s, i) && s.subs[i].key.Some? && OwnsRow(s, i) ensures OwnsRow(Dropped(s, key), i) {
      assert s.subs[i].task in Existing(s);
    }
    CarryKeeps(s, crossed, Dropped(s, key));
  }

  // Forgetting a failed submission's key takes no other standing submission's row.
  lemma FailCarries(s: State, crossed: set<nat>, sub: nat)
    requires Inv(s, crossed) && IsCreating(s, sub) && Live(s, sub)
    ensures Carries(s, Forgotten(Ended(s, sub, Failed), s.subs[sub].key))
  {
    assert s.subs[sub].key.Some? ==> OwnsRow(s, sub);
  }

  /** Recorded, and everything else as it was. */
  ghost predicate Recorded(s: State, key: Option<string>, body: Body, t: State) {
    t == Record(s, key, body).(guard := t.guard)
  }

  // Recording a key nothing stands under keeps one submission per key.
  lemma RecordKeeps(s: State, crossed: set<nat>, key: Option<string>, body: Body, t: State)
    requires Inv(s, crossed) && Recorded(s, key, body, t) && (key.Some? ==> forall i: nat :: !LiveUnder(s, i, key.value))
    requires body.AppendBody? ==> body.to < s.tasks
    ensures Dated(t) && Owns(t) && OnePerKey(t)
    ensures forall i: nat :: Live(t, i) ==> Live(s, i) || i == |s.subs|
  {
    forall i: nat | Live(t, i) && t.subs[i].key.Some? ensures OwnsRow(t, i) {
      if i < |s.subs| {
        assert Live(s, i) && OwnsRow(s, i);
        assert key.Some? ==> !LiveUnder(s, i, key.value);
      }
    }
    forall i, j | 0 <= i < j < |t.subs| ensures Apart(t, i, j) {
      if j < |s.subs| {
        assert Apart(s, i, j);
      } else if key.Some? {
        assert !LiveUnder(s, i, key.value);
      }
    }
  }

  lemma StartKeeps(s: State, crossed: set<nat>, key: Option<string>, body: Body, t: State, answer: Answer)
    requires Inv(s, crossed) && Starts(s, key, body, t, answer) && !body.AppendBody?
    ensures Dated(t) && Owns(t) && OnePerKey(t)
    ensures t != s ==> Claimed(s, key, body).Fresh? && |t.subs| == |s.subs| + 1 && t.subs[|s.subs|].key == key
    ensures forall i: nat :: Live(t, i) ==> (i < |s.subs| && Live(s, i) && t.subs[i] == s.subs[i]) || i == |s.subs|
  {
    if Claimed(s, key, body).Fresh? {
      FreshStandsNone(s, crossed, key, body);
      DropCarries(s, crossed, key);
      var u := Dropped(s, key);
      forall i: nat | key.Some? ensures !LiveUnder(u, i, key.value) {
        assert LiveUnder(u, i, key.value) ==> LiveUnder(s, i, key.value);
      }
      RecordKeeps(u, crossed, key, body, t);
    }
  }

  lemma CrawlKeeps(s: State, crossed: set<nat>, key: Option<string>, json: string, t: State, answer: Answer)
    requires Inv(s, crossed) && Starts(s, key, CrawlBody(json), t, answer)
    ensures Inv(t, Crossing(s, StartCrawl(key, json), t, crossed))
  {
    StartKeeps(s, crossed, key, CrawlBody(json), t, answer);
    forall i: nat | t.guard.Waiting? && t.guard.key.Some? && LiveUnder(t, i, t.guard.key.value) ensures i in Crossing(s, StartCrawl(key, json), t, crossed) {
      if i < |s.subs| {
        assert LiveUnder(s, i, s.guard.key.value);
      }
    }
  }

  lemma BatchKeeps(s: State, crossed: set<nat>, key: Option<string>, json: string, t: State, answer: Answer)
    requires Inv(s, crossed) && s.guard.Free? && Starts(s, key, BatchBody(json), t, answer)
    ensures Inv(t, {})
  {
    StartKeeps(s, crossed, key, BatchBody(json), t, answer);
  }

  lemma WaitKeeps(s: State, crossed: set<nat>, key: Option<string>, body: Body, t: State, answer: Answer)
    requires Inv(s, crossed) && s.guard.Free? && Waits(s, key, body, t, answer)
    ensures Inv(t, {})
  {
    if Claimed(s, key, body).Fresh? {
      FreshStandsNone(s, crossed, key, body);
      DropCarries(s, crossed, key);
      var u := Dropped(s, key);
      forall i: nat | key.Some? ensures !LiveUnder(t, i, key.value) {
        assert LiveUnder(t, i, key.value) ==> LiveUnder(s, i, key.value);
      }
      forall i: nat | Live(t, i) && t.subs[i].key.Some? ensures OwnsRow(t, i) {
        assert Live(u, i) && OwnsRow(u, i);
      }
      forall i, j | 0 <= i < j < |t.subs| ensures Apart(t, i, j) {
        assert Apart(u, i, j);
      }
    }
  }

  lemma SettleKeeps(s: State, crossed: set<nat>, refused: bool, t: State, answer: Answer)
    requires Inv(s, crossed) && Settles(s, refused, t, answer) && !Doubles(s, Settle(refused), crossed)
    ensures Inv(t, crossed)
  {
    if refused {
      CarryKeeps(s, crossed, t);
    } else {
      RecordKeeps(s, crossed, s.guard.key, s.guard.body, t);
    }
  }

  lemma StepKeeps(s: State, crossed: set<nat>, a: Action, t: State, answer: Answer)
    requires Step(s, a, t, answer) && Prompt(s, a) && Inv(s, crossed) && !Doubles(s, a, crossed)
    ensures Inv(t, Crossing(s, a, t, crossed))
  {
    match a
    case StartCrawl(key, json) => CrawlKeeps(s, crossed, key, json, t, answer);
    case StartBatch(key, json) =>
      if s.guard.Free? {
        if s.limited {
          WaitKeeps(s, crossed, key, BatchBody(json), t, answer);
        } else {
          BatchKeeps(s, crossed, key, json, t, answer);
        }
      }
    case StartAppend(key, json, to) =>
      if s.guard.Free? {
        WaitKeeps(s, crossed, key, AppendBody(json, to), t, answer);
      }
    case Settle(refused) => SettleKeeps(s, crossed, refused, t, answer);
    case Fails(sub) =>
      FailCarries(s, crossed, sub);
      CarryKeeps(s, crossed, t);
    case _ => CarryKeeps(s, crossed, t);
  }

  // Recording a submission while a crawl started under its key stands gives the key two.
  lemma DoublingDoubles(s: State, crossed: set<nat>, t: State, answer: Answer)
    requires Step(s, Settle(false), t, answer) && Doubles(s, Settle(false), crossed) && Dated(s)
    ensures !OnePerKey(t)
  {
    var i :| i in crossed && LiveUnder(s, i, s.guard.key.value);
    assert !Apart(t, i, |s.subs|);
  }

  // ---------------------------------------------------------------- over whole runs

  ghost predicate StepAt(h: seq<Action>, run: seq<State>, answers: seq<Answer>, n: nat)
    requires n < |h| == |answers| && |run| == |h| + 1
  {
    Step(run[n], h[n], run[n + 1], answers[n]) && Prompt(run[n], h[n])
  }

  ghost predicate Run(limited: bool, h: seq<Action>, run: seq<State>, answers: seq<Answer>) {
    && |run| == |h| + 1 && |answers| == |h| && run[0] == Init(limited)
    && forall n :: 0 <= n < |h| ==> StepAt(h, run, answers, n)
  }

  ghost function Crossed(h: seq<Action>, run: seq<State>, n: nat): set<nat>
    requires n <= |h| < |run|
  {
    if n == 0 then {} else Crossing(run[n - 1], h[n - 1], run[n], Crossed(h, run, n - 1))
  }

  ghost predicate DoublesAt(h: seq<Action>, run: seq<State>, n: nat)
    requires n < |h| < |run|
  {
    Doubles(run[n], h[n], Crossed(h, run, n))
  }

  lemma {:induction false} RunKeeps(limited: bool, h: seq<Action>, run: seq<State>, answers: seq<Answer>, n: nat)
    requires Run(limited, h, run, answers) && n <= |h| && forall m :: 0 <= m < n ==> !DoublesAt(h, run, m)
    ensures Inv(run[n], Crossed(h, run, n))
  {
    if n > 0 {
      RunKeeps(limited, h, run, answers, n - 1);
      assert StepAt(h, run, answers, n - 1) && !DoublesAt(h, run, n - 1);
      StepKeeps(run[n - 1], Crossed(h, run, n - 1), h[n - 1], run[n], answers[n - 1]);
    }
  }

  // Over every run: one key has one standing submission, up to and exactly up to a counted batch or an append recorded under a key
  // a crawl has started under while that submission waited.
  lemma {:induction false} OnePerKeyExactly(limited: bool, h: seq<Action>, run: seq<State>, answers: seq<Answer>, n: nat)
    requires Run(limited, h, run, answers) && n <= |h|
    ensures (forall m :: 0 <= m <= n ==> OnePerKey(run[m])) <==> forall m :: 0 <= m < n ==> !DoublesAt(h, run, m)
  {
    if n == 0 {
    } else if forall m :: 0 <= m < n - 1 ==> !DoublesAt(h, run, m) {
      OnePerKeyExactly(limited, h, run, answers, n - 1);
      RunKeeps(limited, h, run, answers, n - 1);
      assert StepAt(h, run, answers, n - 1);
      if DoublesAt(h, run, n - 1) {
        DoublingDoubles(run[n - 1], Crossed(h, run, n - 1), run[n], answers[n - 1]);
      } else {
        RunKeeps(limited, h, run, answers, n);
      }
    } else {
      OnePerKeyExactly(limited, h, run, answers, n - 1);
    }
  }

  ghost predicate NoCrawls(h: seq<Action>) {
    forall n :: 0 <= n < |h| ==> !h[n].StartCrawl?
  }

  /** Nothing in the history waits between claiming and recording. */
  ghost predicate NothingWaits(limited: bool, h: seq<Action>) {
    forall n :: 0 <= n < |h| ==> !h[n].StartAppend? && (limited ==> !h[n].StartBatch?)
  }

  lemma {:induction false} NeverCrosses(limited: bool, h: seq<Action>, run: seq<State>, answers: seq<Answer>, n: nat)
    requires Run(limited, h, run, answers) && n <= |h| && (NoCrawls(h) || NothingWaits(limited, h))
    ensures run[n].limited == limited && Crossed(h, run, n) == {} && (NothingWaits(limited, h) ==> !run[n].guard.Waiting?)
  {
    if n > 0 {
      NeverCrosses(limited, h, run, answers, n - 1);
      assert StepAt(h, run, answers, n - 1);
    }
  }

  // Submissions of one kind are idempotent, and so are crawls and batches together where no limit makes a batch wait.
  lemma SameKindHasOne(limited: bool, h: seq<Action>, run: seq<State>, answers: seq<Answer>, n: nat)
    requires Run(limited, h, run, answers) && n <= |h| && (NoCrawls(h) || NothingWaits(limited, h))
    ensures OnePerKey(run[n])
  {
    forall m | 0 <= m < n ensures !DoublesAt(h, run, m) {
      NeverCrosses(limited, h, run, answers, m);
    }
    OnePerKeyExactly(limited, h, run, answers, n);
  }

  function BodyOf(a: Action): Body
    requires a.StartCrawl? || a.StartBatch? || a.StartAppend?
  {
    match a
    case StartCrawl(_, json) => CrawlBody(json)
    case StartBatch(_, json) => BatchBody(json)
    case StartAppend(_, json, to) => AppendBody(json, to)
  }

  /** What is recorded: the submission asked for, or the one that waited, as of now; a start makes the next task, an append extends its own. */
  ghost predicate NewOne(s: State, a: Action, t: State) {
    var key := if a.Settle? && s.guard.Waiting? then s.guard.key else if a.StartCrawl? || a.StartBatch? then a.key else None;
    && |t.subs| == |s.subs| + 1 && t.subs[..|s.subs|] == s.subs
    && var x := t.subs[|s.subs|];
    && x.key == key && x.at == s.now
    && (a.StartCrawl? || a.StartBatch? ==> x.body == BodyOf(a))
    && (a.Settle? ==> s.guard.Waiting? && x.body == s.guard.body)
    && (if x.body.AppendBody? then x.task == x.body.to && x.phase == Created && t.tasks == s.tasks else x.task == s.tasks && x.phase == Creating && t.tasks == s.tasks + 1)
  }

  // A submission is recorded exactly when it is accepted, and nothing else adds one; one that must wait is held as it was sent.
  lemma RecordedExactly(s: State, a: Action, t: State, answer: Answer)
    requires Step(s, a, t, answer)
    ensures answer.Accepted? <==> |t.subs| != |s.subs|
    ensures answer.Accepted? ==> answer.sub == |s.subs| && NewOne(s, a, t)
    ensures answer == Held ==> (a.StartBatch? || a.StartAppend?) && t.guard == Waiting(a.key, BodyOf(a)) && t.subs == s.subs && t.tasks == s.tasks
  {
  }

  /** Every row is of a submission that was recorded under its key and has not failed. */
  ghost predicate RowsWell(s: State) {
    forall key :: key in s.index ==> RowWell(s, key)
  }

  ghost predicate RowWell(s: State, key: string)
    requires key in s.index
  {
    && s.index[key].reply < |s.subs| && s.index[key].task < s.tasks
    && var x := s.subs[s.index[key].reply];
      x.key == Some(key) && x.body == s.index[key].body && x.task == s.index[key].task && x.at == s.index[key].at && x.phase != Failed
  }

  lemma RecordRows(s: State, key: Option<string>, body: Body)
    requires RowsWell(s) && (body.AppendBody? ==> body.to < s.tasks)
    ensures RowsWell(Record(s, key, body))
  {
    var t := Record(s, key, body);
    forall k | k in t.index ensures RowWell(t, k) {
      if key != Some(k) {
        assert RowWell(s, k);
      }
    }
  }

  lemma EndedRows(s: State, sub: nat, phase: Phase)
    requires RowsWell(s) && IsCreating(s, sub)
    ensures phase != Failed ==> RowsWell(Ended(s, sub, phase))
    ensures RowsWell(Forgotten(Ended(s, sub, phase), s.subs[sub].key))
  {
    var t := Forgotten(Ended(s, sub, phase), s.subs[sub].key);
    forall k | k in t.index ensures RowWell(t, k) {
      assert RowWell(s, k);
    }
    if phase != Failed {
      forall k | k in s.index ensures RowWell(Ended(s, sub, phase), k) {
        assert RowWell(s, k);
      }
    }
  }

  lemma StartRows(s: State, key: Option<string>, body: Body, t: State, answer: Answer)
    requires RowsWell(s) && Starts(s, key, body, t, answer) && !body.AppendBody?
    ensures RowsWell(t)
  {
    RecordRows(Dropped(s, key), key, body);
  }

  lemma SettleRows(s: State, refused: bool, t: State, answer: Answer)
    requires RowsWell(s) && Settles(s, refused, t, answer)
    ensures RowsWell(t)
  {
    if !refused {
      RecordRows(s, s.guard.key, s.guard.body);
    }
  }

  lemma StepRows(s: State, a: Action, t: State, answer: Answer)
    requires RowsWell(s) && Step(s, a, t, answer)
    ensures RowsWell(t)
  {
    match a
    case StartCrawl(key, json) => StartRows(s, key, CrawlBody(json), t, answer);
    case StartBatch(key, json) =>
      if s.guard.Free? && !s.limited {
        StartRows(s, key, BatchBody(json), t, answer);
      }
    case Settle(refused) => SettleRows(s, refused, t, answer);
    case Made(sub) => EndedRows(s, sub, Created);
    case Fails(sub) => EndedRows(s, sub, Failed);
    case _ =>
  }

  lemma {:induction false} RunRows(limited: bool, h: seq<Action>, run: seq<State>, answers: seq<Answer>, n: nat)
    requires Run(limited, h, run, answers) && n <= |h|
    ensures RowsWell(run[n])
    decreases n
  {
    if n > 0 {
      RunRows(limited, h, run, answers, n - 1);
      assert StepAt(h, run, answers, n - 1);
      StepRows(run[n - 1], h[n - 1], run[n], answers[n - 1]);
    }
  }

  lemma NoneStandsFresh(s: State, key: string, body: Body)
    requires RowsWell(s) && forall i: nat :: !LiveUnder(s, i, key)
    ensures Claimed(s, Some(key), body) == Fresh
  {
    if key in s.index {
      assert RowWell(s, key) && !LiveUnder(s, s.index[key].reply, key);
    }
  }

  /** What a start or an append comes to: a new one exactly when its key has none standing, else the one that stands or a conflict. */
  ghost predicate AnswersKey(s: State, a: Action, answer: Answer)
    requires a.StartCrawl? || a.StartBatch? || a.StartAppend?
  {
    var busy := !a.StartCrawl? && s.guard != Free;
    var none := a.key == None || forall i: nat :: !LiveUnder(s, i, a.key.value);
    && (answer == Busy <==> busy)
    && (answer.Accepted? || answer == Held <==> !busy && none)
    && (answer == Held <==> !busy && none && (a.StartAppend? || (a.StartBatch? && s.limited)))
    && (answer.Replayed? ==> a.key.Some? && LiveUnder(s, answer.sub, a.key.value) && s.subs[answer.sub].body == BodyOf(a))
    && (answer == Conflicted ==> exists i: nat :: a.key.Some? && LiveUnder(s, i, a.key.value) && s.subs[i].body != BodyOf(a))
  }

  // Over every run, up to the first crossing: a start or an append is a new one exactly when no submission stands under its key.
  lemma AnswersExactly(limited: bool, h: seq<Action>, run: seq<State>, answers: seq<Answer>, n: nat)
    requires Run(limited, h, run, answers) && n < |h| && forall m :: 0 <= m < n ==> !DoublesAt(h, run, m)
    requires h[n].StartCrawl? || h[n].StartBatch? || h[n].StartAppend?
    ensures AnswersKey(run[n], h[n], answers[n])
  {
    var s, a, crossed := run[n], h[n], Crossed(h, run, n);
    RunRows(limited, h, run, answers, n);
    RunKeeps(limited, h, run, answers, n);
    assert StepAt(h, run, answers, n);
    if a.key.Some? {
      if i: nat :| LiveUnder(s, i, a.key.value) {
        StandingAnswers(s, crossed, a.key.value, BodyOf(a), i);
      } else {
        NoneStandsFresh(s, a.key.value, BodyOf(a));
      }
    }
  }

  // While a submission stands under its key, sending it again answers with it and another body conflicts; nothing changes either way.
  lemma RepeatReplays(s: State, crossed: set<nat>, i: nat, key: string, a: Action, t: State, answer: Answer)
    requires Inv(s, crossed) && LiveUnder(s, i, key) && Step(s, a, t, answer)
    requires (a.StartCrawl? || a.StartBatch? || a.StartAppend?) && a.key == Some(key)
    ensures t == s && answer == if !a.StartCrawl? && !s.guard.Free? then Busy else if s.subs[i].body == BodyOf(a) then Replayed(i) else Conflicted
  {
    StandingAnswers(s, crossed, key, BodyOf(a), i);
  }

  // A failed creation frees the key: the next submission under it, of whatever kind or body, is a new one.
  lemma FailureFrees(s: State, sub: nat, key: string, body: Body, t: State, answer: Answer)
    requires Step(s, Fails(sub), t, answer) && s.subs[sub].key == Some(key)
    ensures Claimed(t, Some(key), body) == Fresh && t.subs[sub].phase.Failed? && key !in t.index
    ensures forall json, u, next :: Step(t, StartCrawl(Some(key), json), u, next) ==> next == Accepted(|t.subs|)
    ensures forall json, u, next :: Step(t, StartBatch(Some(key), json), u, next) ==> next == if t.guard != Free then Busy else if t.limited then Held else Accepted(|t.subs|)
  {
  }

  // ---------------------------------------------------------------- one batch submission at a time

  /** The guard is held for a batch whose task is still being created, or for a submission not recorded yet. */
  predicate HeldWell(s: State) {
    && (s.guard.Waiting? ==> s.guard.body.BatchBody? || s.guard.body.AppendBody?)
    && (s.guard.Making? ==> s.guard.sub < |s.subs| && s.subs[s.guard.sub].phase == Creating && s.subs[s.guard.sub].body.BatchBody?)
  }

  /** The submission the guard is held for is over: refused, appended, or its task created or not. */
  predicate Frees(s: State, a: Action) {
    || a == Settle(true)
    || (a == Settle(false) && s.guard.Waiting? && s.guard.body.AppendBody?)
    || (s.guard.Making? && (a == Made(s.guard.sub) || a == Fails(s.guard.sub)))
  }

  // A guard that is held is free again exactly when its submission is over, and one that is free is taken exactly by a batch or an
  // append that is neither a replay nor a conflict.
  lemma FreedExactly(s: State, a: Action, t: State, answer: Answer)
    requires Step(s, a, t, answer)
    ensures s.guard != Free ==> (t.guard == Free <==> Frees(s, a))
    ensures s.guard == Free ==> (t.guard != Free <==> (a.StartBatch? || a.StartAppend?) && (answer == Held || answer.Accepted?))
  {
  }

  lemma StepHolds(s: State, a: Action, t: State, answer: Answer)
    requires Step(s, a, t, answer) && HeldWell(s)
    ensures HeldWell(t)
    ensures answer == Busy <==> (a.StartBatch? || a.StartAppend?) && s.guard != Free
  {
  }

  // Over every run: whoever is told another submission is in progress, one is.
  lemma {:induction false} HeldForOneUnderWay(limited: bool, h: seq<Action>, run: seq<State>, answers: seq<Answer>, n: nat)
    requires Run(limited, h, run, answers) && n <= |h|
    ensures HeldWell(run[n])
    ensures n < |h| ==> (answers[n] == Busy <==> (h[n].StartBatch? || h[n].StartAppend?) && run[n].guard != Free)
  {
    if n > 0 {
      HeldForOneUnderWay(limited, h, run, answers, n - 1);
      assert StepAt(h, run, answers, n - 1);
      StepHolds(run[n - 1], h[n - 1], run[n], answers[n - 1]);
    }
    if n < |h| {
      assert StepAt(h, run, answers, n);
      StepHolds(run[n], h[n], run[n + 1], answers[n]);
    }
  }

  // ---------------------------------------------------------------- that keys do cross

  ghost predicate TwoLive(s: State, key: string) {
    exists i, j: nat :: i != j && LiveUnder(s, i, key) && LiveUnder(s, j, key)
  }

  ghost predicate Reachable(limited: bool, s: State) {
    exists h, run, answers :: Run(limited, h, run, answers) && run[|h|] == s
  }

  lemma ReachNext(limited: bool, s: State, a: Action, t: State, answer: Answer)
    requires Reachable(limited, s) && Step(s, a, t, answer) && Prompt(s, a)
    ensures Reachable(limited, t)
  {
    var h, run, answers :| Run(limited, h, run, answers) && run[|h|] == s;
    var h', run', answers' := h + [a], run + [t], answers + [answer];
    forall n | 0 <= n < |h'| ensures StepAt(h', run', answers', n) {
      if n < |h| {
        assert StepAt(h, run, answers, n);
      }
    }
    assert Run(limited, h', run', answers') && run'[|h'|] == t;
  }

  lemma ReachInit(limited: bool)
    ensures Reachable(limited, Init(limited))
  {
    assert Run(limited, [], [Init(limited)], []);
  }

  // With a limit: a batch claims its key and waits for the count, a crawl starts under the same key, and the batch is recorded.
  lemma BatchCrossingHappens(key: string)
    ensures exists s :: Reachable(true, s) && TwoLive(s, key)
  {
    ReachInit(true);
    var waits := Init(true).(guard := Waiting(Some(key), BatchBody("b")));
    ReachNext(true, Init(true), StartBatch(Some(key), "b"), waits, Held);
    var crawls := Record(waits, Some(key), CrawlBody("c"));
    ReachNext(true, waits, StartCrawl(Some(key), "c"), crawls, Accepted(0));
    var both := Record(crawls, Some(key), BatchBody("b")).(guard := Making(1));
    ReachNext(true, crawls, Settle(false), both, Accepted(1));
    assert LiveUnder(both, 0, key) && LiveUnder(both, 1, key);
  }

  /** One batch, started without a key and created. */
  const ONE_BATCH := Ended(Record(Init(false), None, BatchBody("b")).(guard := Making(0)), 0, Created)

  lemma ReachesOneBatch()
    ensures Reachable(false, ONE_BATCH)
  {
    ReachInit(false);
    var making := Record(Init(false), None, BatchBody("b")).(guard := Making(0));
    ReachNext(false, Init(false), StartBatch(None, "b"), making, Accepted(0));
    ReachNext(false, making, Made(0), ONE_BATCH, NoAnswer);
  }

  // Without one: an append to a batch claims its key and waits for its checks, and a crawl starts under the same key.
  lemma AppendCrossingHappens(key: string)
    ensures exists s :: Reachable(false, s) && TwoLive(s, key)
  {
    ReachesOneBatch();
    var waits := ONE_BATCH.(guard := Waiting(Some(key), AppendBody("a", 0)));
    ReachNext(false, ONE_BATCH, StartAppend(Some(key), "a", 0), waits, Held);
    var crawls := Record(waits, Some(key), CrawlBody("c"));
    ReachNext(false, waits, StartCrawl(Some(key), "c"), crawls, Accepted(1));
    assert 0 in Existing(crawls);
    var both := Record(crawls, Some(key), AppendBody("a", 0)).(guard := Free);
    ReachNext(false, crawls, Settle(false), both, Accepted(2));
    assert LiveUnder(both, 1, key) && LiveUnder(both, 2, key);
  }

  // ---------------------------------------------------------------- the store and the engine's part

  class IdempotencyStore {
    var rows: Index

    constructor ()
      ensures rows == map[]
    {
      rows := map[];
    }

    method ClaimKey(key: string, body: Body, existing: set<nat>, now: int) returns (claim: Claim)
      modifies this
      ensures claim == ClaimOf(old(rows), existing, key, body, now) && rows == AfterClaim(old(rows), existing, key, now)
    {
      if key !in rows {
        return Fresh;
      }
      var row := rows[key];
      var expired := row.at + TTL <= now;
      if expired || row.task !in existing {
        rows := rows - {key};
        return Fresh;
      }
      if row.body != body {
        return Conflict;
      }
      claim := Replay(row.reply);
    }

    /** For the next 24 hours, while the task exists, the key is this submission's: its body replays the reply, another conflicts. */
    method Record(key: string, body: Body, reply: nat, task: nat, now: int)
      modifies this
      ensures rows == old(rows)[key := Row(body, reply, task, now)]
      ensures forall b, existing, later ::
        (ClaimOf(rows, existing, key, b, later) == if now + 86_400_000 <= later || task !in existing then Fresh else if b == body then Replay(reply) else Conflict)
      ensures forall k, b, existing, later :: k != key ==> ClaimOf(rows, existing, k, b, later) == ClaimOf(old(rows), existing, k, b, later)
    {
      rows := rows[key := Row(body, reply, task, now)];
    }

    /** The key is free again for any submission, and no other key's claims change. */
    method Forget(key: string)
      modifies this
      ensures rows == old(rows) - {key}
      ensures forall b, existing, later :: ClaimOf(rows, existing, key, b, later) == Fresh
      ensures forall k, b, existing, later :: k != key ==> ClaimOf(rows, existing, k, b, later) == ClaimOf(old(rows), existing, k, b, later)
    {
      rows := rows - {key};
    }
  }

  /** The engine's part of a submission: `claimSubmission`, and what each start and append does with its verdict. */
  class Submitter {
    const limited: bool
    const store: IdempotencyStore
    var now: int
    var tasks: nat
    var subs: seq<Sub>
    var gone: set<nat>
    var guard: Guard

    constructor (limited: bool)
      ensures fresh(store) && Current() == Init(limited)
    {
      this.limited, now, tasks, subs, gone, guard := limited, 0, 0, [], {}, Free;
      store := new IdempotencyStore();
    }

    function Current(): State
      reads this, store
    {
      State(limited, now, store.rows, tasks, subs, gone, guard)
    }

    method ClaimSubmission(key: Option<string>, body: Body) returns (claim: Claim)
      modifies store
      ensures claim == Claimed(old(Current()), key, body) && Current() == Dropped(old(Current()), key)
    {
      if key.None? {
        return Fresh;
      }
      claim := store.ClaimKey(key.value, body, Existing(Current()), now);
    }

    method RecordSubmission(key: Option<string>, body: Body)
      modifies this, store
      ensures Current() == Record(old(Current()), key, body)
    {
      var task := if body.AppendBody? then body.to else tasks;
      if key.Some? {
        store.Record(key.value, body, |subs|, task, now);
      }
      subs := subs + [Sub(key, body, task, now, if body.AppendBody? then Created else Creating)];
      if !body.AppendBody? {
        tasks := tasks + 1;
      }
    }

    /** `startCrawl`, up to the creation of its task. */
    method StartCrawlJob(key: Option<string>, json: string) returns (answer: Answer)
      modifies this, store
      ensures Step(old(Current()), StartCrawl(key, json), Current(), answer)
    {
      var claim := ClaimSubmission(key, CrawlBody(json));
      match claim
      case Replay(sub) => answer := Replayed(sub);
      case Conflict => answer := Conflicted;
      case Fresh =>
        answer := Accepted(|subs|);
        RecordSubmission(key, CrawlBody(json));
    }

    /** `startBatch`, up to the count of active batches or, without a limit, the creation of its task. */
    method StartBatchJob(key: Option<string>, json: string) returns (answer: Answer)
      modifies this, store
      ensures Step(old(Current()), StartBatch(key, json), Current(), answer)
    {
      if !guard.Free? {
        return Busy;
      }
      var claim := ClaimSubmission(key, BatchBody(json));
      match claim
      case Replay(sub) => answer := Replayed(sub);
      case Conflict => answer := Conflicted;
      case Fresh =>
        if limited {
          guard := Waiting(key, BatchBody(json));
          answer := Held;
        } else {
          answer := Accepted(|subs|);
          guard := Making(|subs|);
          RecordSubmission(key, BatchBody(json));
        }
    }

    /** An append, up to its checks. */
    method StartAppendJob(key: Option<string>, json: string, to: nat) returns (answer: Answer)
      modifies this, store
      ensures Step(old(Current()), StartAppend(key, json, to), Current(), answer)
    {
      if !guard.Free? {
        return Busy;
      }
      var claim := ClaimSubmission(key, AppendBody(json, to));
      match claim
      case Replay(sub) => answer := Replayed(sub);
      case Conflict => answer := Conflicted;
      case Fresh =>
        guard := Waiting(key, AppendBody(json, to));
        answer := Held;
    }

    /** The wait over, the submission is refused or recorded. */
    method SettleJob(refused: bool) returns (answer: Answer)
      requires guard.Waiting? && (guard.body.AppendBody? && guard.body.to !in Existing(Current()) ==> refused)
      modifies this, store
      ensures Step(old(Current()), Settle(refused), Current(), answer)
    {
      if refused {
        guard := Free;
        return Refused;
      }
      answer := Accepted(|subs|);
      var key, body := guard.key, guard.body;
      guard := if body.AppendBody? then Free else Making(|subs|);
      RecordSubmission(key, body);
    }

    /** A creation that succeeded. */
    method CreationDone(sub: nat)
      requires IsCreating(Current(), sub)
      modifies this
      ensures Step(old(Current()), Made(sub), Current(), NoAnswer) && guard != Making(sub)
    {
      subs := subs[sub := subs[sub].(phase := Created)];
      if guard == Making(sub) {
        guard := Free;
      }
    }

    /** A creation that failed: its key is forgotten. */
    method CreationFails(sub: nat)
      requires IsCreating(Current(), sub)
      modifies this, store
      ensures Step(old(Current()), Fails(sub), Current(), NoAnswer) && guard != Making(sub)
    {
      if subs[sub].key.Some? {
        store.Forget(subs[sub].key.value);
      }
      subs := subs[sub := subs[sub].(phase := Failed)];
      if guard == Making(sub) {
        guard := Free;
      }
    }
  }
}
