/**
 * Reusing a page's stored result: what a request's plan is, what the cache answers before a fetch and keeps after one, and
 * that over any history a reused result is one an earlier live fetch of the same key returned.
 */
module PageCache {
  import opened Options

  datatype Mode = Standard | Research | Authed

  /**
   * What a request asks of a page. `shape` stands for every option a lane receives except the deadline; two requests have
   * the same shape when all of those agree. `address` is the URL as parsed, without its fragment, or the URL itself.
   */
  datatype Request = Request(
    url: string, address: string, mode: Mode, shape: string, timeout: Option<nat>, rungs: seq<string>, fastMode: bool,
    robotsOverride: Option<string>, build: string, actions: bool, headers: bool,
    maxAge: Option<nat>, minAge: Option<nat>, storeInCache: Option<bool>, lockdown: bool)

  datatype Key = Key(address: string, mode: Mode, shape: string, rungs: seq<string>, fastMode: bool, robotsOverride: Option<string>, build: string)

  datatype Bounds = Bounds(minAge: nat, maxAge: Option<nat>)

  datatype Plan = Plan(key: Key, bounds: Option<Bounds>, lockdown: bool, store: bool)

  datatype Event = Other(name: string) | CacheHit(age: nat) | CacheMiss | CacheStored

  datatype Result = Result(success: bool, fetchedAt: Option<int>, page: string, trace: seq<Event>)

  datatype Entry = Entry(fetchedAt: int, result: Result)

  datatype Hit = Hit(result: Result, age: nat)

  datatype Answer = HitWith(result: Result) | LockdownMiss | Fetch(missed: bool)

  /** Parsed keys are digests of these parts; equal digests are equal parts. */
  function KeyOf(r: Request): Key {
    Key(r.address, r.mode, r.shape, r.rungs, r.fastMode, r.robotsOverride, r.build)
  }

  predicate LookupRequested(r: Request) {
    r.maxAge != Some(0) && (r.maxAge.Some? || r.minAge.Some? || r.lockdown)
  }

  /** What the request parsers let through. */
  predicate Accepted(r: Request) {
    && !(r.lockdown && r.maxAge == Some(0))
    && (r.maxAge.Some? && r.minAge.Some? ==> r.minAge.value <= r.maxAge.value)
    && (r.mode.Authed? ==> !LookupRequested(r))
    && (r.actions ==> !LookupRequested(r) && r.storeInCache != Some(true))
  }

  function PlanFor(r: Request): Option<Plan> {
    if r.mode.Authed? || r.actions then None
    else
      var lookup := LookupRequested(r);
      var store := if r.headers then r.storeInCache == Some(true) else r.storeInCache != Some(false);
      if !lookup && !store then None
      else
        Some(Plan(KeyOf(r), if lookup then Some(Bounds(if r.minAge.Some? then r.minAge.value else 0, r.maxAge)) else None, r.lockdown, store))
  }

  function Age(now: int, fetchedAt: int): nat {
    if now < fetchedAt then 0 else now - fetchedAt
  }

  predicate Fits(age: nat, b: Bounds) {
    b.minAge <= age && (b.maxAge.Some? ==> age <= b.maxAge.value)
  }

  function Find(entries: map<Key, Entry>, key: Key, b: Bounds, now: int): Option<Hit> {
    if key in entries && Fits(Age(now, entries[key].fetchedAt), b) then Some(Hit(entries[key].result, Age(now, entries[key].fetchedAt))) else None
  }

  predicate IsCacheEvent(e: Event) {
    !e.Other?
  }

  function WithoutCacheEvents(trace: seq<Event>): seq<Event> {
    if trace == [] then []
    else WithoutCacheEvents(trace[..|trace| - 1]) + if IsCacheEvent(trace[|trace| - 1]) then [] else [trace[|trace| - 1]]
  }

  function Stored(r: Result): Result {
    r.(trace := WithoutCacheEvents(r.trace))
  }

  predicate Storable(r: Result) {
    r.success && r.fetchedAt.Some?
  }

  /** The entries after a result is offered: kept unless one fetched later is there. */
  function Keep(entries: map<Key, Entry>, key: Key, r: Result): map<Key, Entry> {
    if Storable(r) && (key in entries ==> entries[key].fetchedAt <= r.fetchedAt.value)
    then entries[key := Entry(r.fetchedAt.value, Stored(r))] else entries
  }

  class Cache {
    var entries: map<Key, Entry>

    constructor ()
      ensures entries == map[]
    {
      entries := map[];
    }

    method Lookup(key: Key, b: Bounds, now: int) returns (hit: Option<Hit>)
      ensures hit == Find(entries, key, b, now)
    {
      if key !in entries {
        return None;
      }
      var row := entries[key];
      var age := if now - row.fetchedAt > 0 then now - row.fetchedAt else 0;
      if age < b.minAge || (b.maxAge.Some? && age > b.maxAge.value) {
        return None;
      }
      hit := Some(Hit(row.result, age));
    }

    method Store(key: Key, r: Result) returns (written: bool)
      modifies this
      ensures entries == Keep(old(entries), key, r)
      ensures written <==> Storable(r) && (key in old(entries) ==> old(entries)[key].fetchedAt <= r.fetchedAt.value)
    {
      if !r.success || r.fetchedAt.None? {
        return false;
      }
      if key in entries && r.fetchedAt.value < entries[key].fetchedAt {
        return false;
      }
      entries := entries[key := Entry(r.fetchedAt.value, Stored(r))];
      written := true;
    }
  }

  /** The cache's answer before a fetch; `allowed` is what governance says of the URL. */
  function Consult(entries: map<Key, Entry>, plan: Option<Plan>, allowed: bool, now: int): Answer {
    if plan.None? || plan.value.bounds.None? || !allowed then Fetch(false)
    else
      var hit := Find(entries, plan.value.key, plan.value.bounds.value, now);
      if hit.Some? then HitWith(hit.value.result.(trace := hit.value.result.trace + [CacheHit(hit.value.age)]))
      else if plan.value.lockdown then LockdownMiss
      else Fetch(true)
  }

  /** The entries after a live fetch; `fails` says the write did. */
  function AfterFetch(entries: map<Key, Entry>, plan: Option<Plan>, r: Result, fails: bool): map<Key, Entry> {
    if plan.None? || !plan.value.store || fails then entries else Keep(entries, plan.value.key, r)
  }

  // ---------------------------------------------------------------- what one request can get

  // A request in lockdown goes on to the ladder exactly when it has no lookup to make or governance refuses its URL. The
  // parsers refuse the first kind, so an accepted one reaches the ladder only to be refused there before any request.
  lemma LockdownNeverFetches(entries: map<Key, Entry>, r: Request, allowed: bool, now: int)
    requires r.lockdown
    ensures Consult(entries, PlanFor(r), allowed, now).Fetch? <==> r.mode.Authed? || r.actions || r.maxAge == Some(0) || !allowed
    ensures Accepted(r) ==> (Consult(entries, PlanFor(r), allowed, now).Fetch? <==> !allowed)
  {
  }

  // The cache answers nothing in mode authed, nothing after actions and nothing governance refuses; of the first two it keeps nothing either.
  lemma NeverAnsweredFromCache(entries: map<Key, Entry>, r: Request, allowed: bool, now: int)
    ensures r.mode.Authed? || r.actions || !allowed ==> Consult(entries, PlanFor(r), allowed, now) == Fetch(false)
    ensures r.mode.Authed? || r.actions ==> forall x, fails :: AfterFetch(entries, PlanFor(r), x, fails) == entries
    ensures r.headers && r.storeInCache != Some(true) ==> forall x, fails :: AfterFetch(entries, PlanFor(r), x, fails) == entries
  {
  }

  // ---------------------------------------------------------------- any history

  /** A live fetch under way or returned: the request that made it, its plan and what it returned. */
  datatype Fetching = Fetching(request: Request, result: Option<Result>, failed: bool)

  datatype State = State(now: int, entries: map<Key, Entry>, fetches: seq<Fetching>)

  datatype Action =
    | Tick(to: int)
    | Ask(request: Request, allowed: bool)
    | Returns(fetch: nat, result: Result, fails: bool)

  const INIT := State(0, map[], [])

  ghost predicate Step(s: State, a: Action, t: State, answer: Option<Answer>) {
    match a
    case Tick(to) => s.now <= to && t == s.(now := to) && answer == None
    case Ask(request, allowed) =>
      var said := Consult(s.entries, PlanFor(request), allowed, s.now);
      answer == Some(said) && t == if said.Fetch? then s.(fetches := s.fetches + [Fetching(request, None, false)]) else s
    case Returns(fetch, result, fails) =>
      && fetch < |s.fetches| && s.fetches[fetch].result.None? && answer == None
      && t == s.(fetches := s.fetches[fetch := s.fetches[fetch].(result := Some(result), failed := fails)],
                 entries := AfterFetch(s.entries, PlanFor(s.fetches[fetch].request), result, fails))
  }

  /** Fetch `i` returned a result that could be kept under `key`. */
  ghost predicate Offered(s: State, i: nat, key: Key) {
    && i < |s.fetches| && s.fetches[i].result.Some? && !s.fetches[i].failed && Storable(s.fetches[i].result.value)
    && PlanFor(s.fetches[i].request).Some? && PlanFor(s.fetches[i].request).value.store && KeyOf(s.fetches[i].request) == key
  }

  /** Entry `key` is what fetch `i` returned. */
  ghost predicate FromFetch(s: State, i: nat, key: Key)
    requires key in s.entries
  {
    Offered(s, i, key) && s.entries[key] == Entry(s.fetches[i].result.value.fetchedAt.value, Stored(s.fetches[i].result.value))
  }

  ghost predicate EntriesFetched(s: State) {
    forall key :: key in s.entries ==> exists i: nat :: FromFetch(s, i, key)
  }

  /** The fetch's key has an entry no older. */
  ghost predicate Kept(s: State, i: nat, key: Key) {
    Offered(s, i, key) ==> key in s.entries && s.fetches[i].result.value.fetchedAt.value <= s.entries[key].fetchedAt
  }

  /** Every entry is a fetch's, and no offered fetch of its key is newer. */
  ghost predicate Inv(s: State) {
    EntriesFetched(s) && forall i: nat, key :: Kept(s, i, key)
  }

  lemma EntriesAfterReturn(s: State, fetch: nat, result: Result, fails: bool, t: State)
    requires EntriesFetched(s) && Step(s, Returns(fetch, result, fails), t, None)
    ensures EntriesFetched(t)
  {
    forall key | key in t.entries ensures exists i: nat :: FromFetch(t, i, key) {
      if !FromFetch(t, fetch, key) {
        assert key in s.entries && t.entries[key] == s.entries[key];
        var i: nat :| FromFetch(s, i, key);
        assert FromFetch(t, i, key);
      }
    }
  }

  lemma KeptAfterReturn(s: State, fetch: nat, result: Result, fails: bool, t: State, i: nat, key: Key)
    requires Kept(s, i, key) && Step(s, Returns(fetch, result, fails), t, None)
    ensures Kept(t, i, key)
  {
  }

  lemma ReturnKeeps(s: State, fetch: nat, result: Result, fails: bool, t: State)
    requires Inv(s) && Step(s, Returns(fetch, result, fails), t, None)
    ensures Inv(t)
  {
    EntriesAfterReturn(s, fetch, result, fails, t);
    forall i: nat, key ensures Kept(t, i, key) {
      assert Kept(s, i, key);
      KeptAfterReturn(s, fetch, result, fails, t, i, key);
    }
  }

  // Time passing and a fetch starting change no entry and offer nothing.
  lemma GrowKeeps(s: State, t: State)
    requires Inv(s) && t.entries == s.entries && |s.fetches| <= |t.fetches| && t.fetches[..|s.fetches|] == s.fetches
    requires forall i :: |s.fetches| <= i < |t.fetches| ==> t.fetches[i].result.None?
    ensures Inv(t)
  {
    assert forall i :: 0 <= i < |s.fetches| ==> t.fetches[i] == t.fetches[..|s.fetches|][i];
    forall key | key in t.entries ensures exists i: nat :: FromFetch(t, i, key) {
      var i: nat :| FromFetch(s, i, key);
      assert FromFetch(t, i, key);
    }
    forall i: nat, key ensures Kept(t, i, key) {
      assert Kept(s, i, key);
    }
  }

  ghost predicate StepAt(h: seq<Action>, run: seq<State>, answers: seq<Option<Answer>>, n: nat)
    requires n < |h| == |answers| && |run| == |h| + 1
  {
    Step(run[n], h[n], run[n + 1], answers[n])
  }

  ghost predicate Run(h: seq<Action>, run: seq<State>, answers: seq<Option<Answer>>) {
    |run| == |h| + 1 && |answers| == |h| && run[0] == INIT && forall n :: 0 <= n < |h| ==> StepAt(h, run, answers, n)
  }

  lemma {:induction false} RunKeeps(h: seq<Action>, run: seq<State>, answers: seq<Option<Answer>>, n: nat)
    requires Run(h, run, answers) && n <= |h|
    ensures Inv(run[n])
  {
    if n > 0 {
      RunKeeps(h, run, answers, n - 1);
      assert StepAt(h, run, answers, n - 1);
      match h[n - 1]
      case Returns(fetch, result, fails) => ReturnKeeps(run[n - 1], fetch, result, fails, run[n]);
      case _ => GrowKeeps(run[n - 1], run[n]);
    }
  }

  /** Fetch `i` could be kept under the key, none that could be is newer, and its age is within the bounds. */
  ghost predicate NewestInBounds(s: State, i: nat, key: Key, b: Bounds) {
    && Offered(s, i, key)
    && (forall j: nat :: Offered(s, j, key) ==> s.fetches[j].result.value.fetchedAt.value <= s.fetches[i].result.value.fetchedAt.value)
    && Fits(Age(s.now, s.fetches[i].result.value.fetchedAt.value), b)
  }

  // A lookup finds exactly the newest fetch of its key, when it is within the bounds.
  lemma FindExactly(s: State, key: Key, b: Bounds)
    requires Inv(s)
    ensures Find(s.entries, key, b, s.now).Some? <==> exists i: nat :: NewestInBounds(s, i, key, b)
    ensures Find(s.entries, key, b, s.now).Some? ==> exists i: nat :: NewestInBounds(s, i, key, b) && FoundIs(s, i, key, Find(s.entries, key, b, s.now).value)
  {
    forall j: nat | Offered(s, j, key) ensures key in s.entries && s.fetches[j].result.value.fetchedAt.value <= s.entries[key].fetchedAt {
      assert Kept(s, j, key);
    }
    if key in s.entries {
      var i: nat :| FromFetch(s, i, key);
      assert Offered(s, i, key) && FoundIs(s, i, key, Hit(s.entries[key].result, Age(s.now, s.entries[key].fetchedAt)));
      assert Fits(Age(s.now, s.entries[key].fetchedAt), b) ==> NewestInBounds(s, i, key, b);
      forall j: nat | NewestInBounds(s, j, key, b) ensures s.fetches[j].result.value.fetchedAt.value == s.entries[key].fetchedAt {
      }
    }
  }

  ghost predicate FoundIs(s: State, i: nat, key: Key, hit: Hit) {
    && Offered(s, i, key) && hit.result == Stored(s.fetches[i].result.value)
    && hit.age == Age(s.now, s.fetches[i].result.value.fetchedAt.value)
  }

  // ---------------------------------------------------------------- what a request gets, by what was asked

  /** The two requests ask for the same page in the same way; their deadlines and what they ask of the cache may differ. */
  predicate SameAsked(a: Request, b: Request) {
    && a.address == b.address && a.mode == b.mode && a.shape == b.shape && a.rungs == b.rungs
    && a.fastMode == b.fastMode && a.robotsOverride == b.robotsOverride && a.build == b.build
  }

  // Keys are shared exactly by requests that ask for the same.
  lemma KeysShared(a: Request, b: Request)
    ensures KeyOf(a) == KeyOf(b) <==> SameAsked(a, b)
  {
  }

  /** A lookup is asked for, of a page that may be answered from the cache. */
  predicate WantsStored(r: Request) {
    r.mode != Authed && !r.actions && r.maxAge != Some(0) && (r.maxAge != None || r.minAge != None || r.lockdown)
  }

  /** The page may be kept: with headers only when that is asked for, otherwise unless it is asked not to be. */
  predicate LetsKeep(r: Request) {
    r.mode != Authed && !r.actions && (r.storeInCache == Some(true) || (!r.headers && r.storeInCache == None))
  }

  lemma PlanExactly(r: Request)
    ensures PlanFor(r).Some? && PlanFor(r).value.bounds.Some? <==> WantsStored(r)
    ensures PlanFor(r).Some? && PlanFor(r).value.store <==> LetsKeep(r)
    ensures PlanFor(r).Some? ==> PlanFor(r).value.key == KeyOf(r) && PlanFor(r).value.lockdown == r.lockdown
    ensures WantsStored(r) ==> PlanFor(r).value.bounds.value.maxAge == r.maxAge
    ensures WantsStored(r) ==> PlanFor(r).value.bounds.value.minAge == match r.minAge { case Some(least) => least case None => 0 }
  {
    if r.storeInCache.Some? {
      assert if r.storeInCache.value then r.storeInCache == Some(true) else r.storeInCache == Some(false);
    }
  }

  /** Fetch `i` of the same page succeeded, could be kept, and was. */
  ghost predicate Candidate(s: State, i: nat, r: Request) {
    && i < |s.fetches| && SameAsked(s.fetches[i].request, r) && LetsKeep(s.fetches[i].request)
    && s.fetches[i].result.Some? && !s.fetches[i].failed && s.fetches[i].result.value.success && s.fetches[i].result.value.fetchedAt.Some?
  }

  /** Fetch `i` is a newest such one, and as old as the request asks for; one ahead of the clock has age 0. */
  ghost predicate Suits(s: State, i: nat, r: Request) {
    && Candidate(s, i, r)
    && var at := s.fetches[i].result.value.fetchedAt.value;
    && (forall j: nat :: Candidate(s, j, r) ==> s.fetches[j].result.value.fetchedAt.value <= at)
    && (r.minAge.Some? ==> r.minAge.value == 0 || at + r.minAge.value <= s.now)
    && (r.maxAge.Some? ==> s.now <= at + r.maxAge.value)
  }

  /** The events of the page's own run. */
  function OwnEvents(trace: seq<Event>): seq<Event> {
    if trace == [] then [] else (if trace[0].Other? then [trace[0]] else []) + OwnEvents(trace[1..])
  }

  lemma {:induction false} OwnEventsAppend(a: seq<Event>, b: seq<Event>)
    ensures OwnEvents(a + b) == OwnEvents(a) + OwnEvents(b)
  {
    if a == [] {
      assert a + b == b;
    } else {
      assert (a + b)[0] == a[0] && (a + b)[1..] == a[1..] + b;
      OwnEventsAppend(a[1..], b);
    }
  }

  // What is stored of a trace is its own events, in order.
  lemma {:induction false} StoredTrace(trace: seq<Event>)
    ensures WithoutCacheEvents(trace) == OwnEvents(trace)
  {
    if trace != [] {
      var last := |trace| - 1;
      StoredTrace(trace[..last]);
      assert trace == trace[..last] + [trace[last]] && [trace[last]][1..] == [];
      OwnEventsAppend(trace[..last], [trace[last]]);
    }
  }

  /** The answer is fetch `i`'s own result, its trace with the cache's own events taken out and the hit added. */
  ghost predicate Reuses(s: State, i: nat, answer: Result) {
    && i < |s.fetches| && s.fetches[i].result.Some? && s.fetches[i].result.value.fetchedAt.Some?
    && var fetched := s.fetches[i].result.value;
    && var age := if s.now < fetched.fetchedAt.value then 0 else s.now - fetched.fetchedAt.value;
    answer == fetched.(trace := OwnEvents(fetched.trace) + [CacheHit(age)])
  }

  /** What the cache says to a request. */
  ghost predicate Says(s: State, r: Request, allowed: bool, answer: Answer) {
    var looks := allowed && WantsStored(r);
    var suited := exists i: nat :: Suits(s, i, r);
    && (answer == Fetch(false) <==> !looks)
    && (answer == Fetch(true) <==> looks && !suited && !r.lockdown)
    && (answer == LockdownMiss <==> looks && !suited && r.lockdown)
    && (answer.HitWith? <==> looks && suited)
    && (answer.HitWith? ==> exists i: nat :: Suits(s, i, r) && Reuses(s, i, answer.result))
  }

  lemma CandidateOffered(s: State, i: nat, r: Request)
    ensures Candidate(s, i, r) <==> Offered(s, i, KeyOf(r))
  {
    if i < |s.fetches| {
      KeysShared(s.fetches[i].request, r);
      PlanExactly(s.fetches[i].request);
    }
  }

  lemma SuitsInBounds(s: State, i: nat, r: Request)
    requires WantsStored(r)
    ensures PlanFor(r).Some? && PlanFor(r).value.bounds.Some?
    ensures Suits(s, i, r) <==> NewestInBounds(s, i, KeyOf(r), PlanFor(r).value.bounds.value)
  {
    PlanExactly(r);
    CandidateOffered(s, i, r);
    forall j: nat ensures Candidate(s, j, r) <==> Offered(s, j, KeyOf(r)) {
      CandidateOffered(s, j, r);
    }
  }

  lemma HitReuses(s: State, i: nat, r: Request, hit: Hit)
    requires FoundIs(s, i, KeyOf(r), hit)
    ensures Reuses(s, i, hit.result.(trace := hit.result.trace + [CacheHit(hit.age)]))
  {
    StoredTrace(s.fetches[i].result.value.trace);
  }

  lemma ConsultSays(s: State, r: Request, allowed: bool)
    requires Inv(s)
    ensures Says(s, r, allowed, Consult(s.entries, PlanFor(r), allowed, s.now))
  {
    PlanExactly(r);
    if allowed && WantsStored(r) {
      var key, b := KeyOf(r), PlanFor(r).value.bounds.value;
      FindExactly(s, key, b);
      forall i: nat ensures Suits(s, i, r) <==> NewestInBounds(s, i, key, b) {
        SuitsInBounds(s, i, r);
      }
      var hit := Find(s.entries, key, b, s.now);
      if hit.Some? {
        var i: nat :| NewestInBounds(s, i, key, b) && FoundIs(s, i, key, hit.value);
        HitReuses(s, i, r, hit.value);
        assert Suits(s, i, r);
      } else {
        assert forall i: nat :: !Suits(s, i, r);
      }
    }
  }

  // Over any history a request is answered from the cache if and only if it asks for that, governance allows its URL, and the newest
  // kept fetch of the same page, asked for in the same way, is as old as it asks; the answer is that fetch's result. Otherwise a
  // lockdown fails and any other request is fetched.
  lemma AnswerExactly(h: seq<Action>, run: seq<State>, answers: seq<Option<Answer>>, n: nat)
    requires Run(h, run, answers) && n < |h| && h[n].Ask?
    ensures answers[n].Some? && Says(run[n], h[n].request, h[n].allowed, answers[n].value)
  {
    RunKeeps(h, run, answers, n);
    assert StepAt(h, run, answers, n);
    ConsultSays(run[n], h[n].request, h[n].allowed);
  }

  // ---------------------------------------------------------------- where a reused result came from

  /** Fetch `i` was begun by request `r` at action `j`, and its result came back at action `m`, the write under the key done. */
  ghost predicate FetchedBy(h: seq<Action>, answers: seq<Option<Answer>>, n: nat, i: nat, r: Request, result: Result, j: nat, m: nat) {
    && j < m < n <= |h| == |answers| && h[j].Ask? && h[j].request == r && answers[j].Some? && answers[j].value.Fetch? && h[m] == Returns(i, result, false)
  }

  ghost predicate BegunAt(h: seq<Action>, answers: seq<Option<Answer>>, n: nat, r: Request, j: nat) {
    j < n <= |h| == |answers| && h[j].Ask? && h[j].request == r && answers[j].Some? && answers[j].value.Fetch?
  }

  /** Where a fetch of the state after `n` actions came from. */
  ghost predicate Sourced(h: seq<Action>, answers: seq<Option<Answer>>, n: nat, i: nat, f: Fetching) {
    && (exists j :: BegunAt(h, answers, n, f.request, j))
    && (f.result.Some? && !f.failed ==> exists j, m :: FetchedBy(h, answers, n, i, f.request, f.result.value, j, m))
  }

  lemma SourcedStill(h: seq<Action>, answers: seq<Option<Answer>>, n: nat, i: nat, f: Fetching)
    requires Sourced(h, answers, n, i, f) && n < |h|
    ensures Sourced(h, answers, n + 1, i, f)
  {
    var j :| BegunAt(h, answers, n, f.request, j);
    assert BegunAt(h, answers, n + 1, f.request, j);
    if f.result.Some? && !f.failed {
      var j, m :| FetchedBy(h, answers, n, i, f.request, f.result.value, j, m);
      assert FetchedBy(h, answers, n + 1, i, f.request, f.result.value, j, m);
    }
  }

  lemma {:induction false} FetchesSourced(h: seq<Action>, run: seq<State>, answers: seq<Option<Answer>>, n: nat, i: nat)
    requires Run(h, run, answers) && n <= |h| && i < |run[n].fetches|
    ensures Sourced(h, answers, n, i, run[n].fetches[i])
    decreases n
  {
    if n > 0 {
      assert StepAt(h, run, answers, n - 1);
      var s, t := run[n - 1], run[n];
      if i >= |s.fetches| {
        assert BegunAt(h, answers, n, t.fetches[i].request, n - 1);
      } else {
        FetchesSourced(h, run, answers, n - 1, i);
        if t.fetches[i] == s.fetches[i] {
          SourcedStill(h, answers, n - 1, i, s.fetches[i]);
        } else {
          var j :| BegunAt(h, answers, n - 1, s.fetches[i].request, j);
          assert BegunAt(h, answers, n, t.fetches[i].request, j);
          if !t.fetches[i].failed {
            assert FetchedBy(h, answers, n, i, t.fetches[i].request, t.fetches[i].result.value, j, n - 1);
          }
        }
      }
    }
  }

  /** The answer at `n` is the result that came back to an earlier request for the same page, asked for in the same way. */
  ghost predicate ReusesEarlier(h: seq<Action>, run: seq<State>, answers: seq<Option<Answer>>, n: nat, i: nat, j: nat, m: nat)
    requires n < |h| == |answers| && |run| == |h| + 1
  {
    && j < m < n && h[j].Ask? && answers[j].Some? && answers[j].value.Fetch?
    && h[m].Returns? && h[m].fetch == i && !h[m].fails && h[m].result.success && h[m].result.fetchedAt.Some?
    && h[n].Ask? && SameAsked(h[j].request, h[n].request) && LetsKeep(h[j].request) && WantsStored(h[n].request)
    && answers[n].Some? && answers[n].value.HitWith? && Suits(run[n], i, h[n].request)
    && var age := if run[n].now < h[m].result.fetchedAt.value then 0 else run[n].now - h[m].result.fetchedAt.value;
    && answers[n].value.result == h[m].result.(trace := OwnEvents(h[m].result.trace) + [CacheHit(age)])
    && (h[n].request.minAge.Some? ==> h[n].request.minAge.value <= age) && (h[n].request.maxAge.Some? ==> age <= h[n].request.maxAge.value)
  }

  // Over any history a reused result is what came back to an earlier request, fetched live, for the same address, mode, shape, rungs,
  // fast mode, robots override and build: requests that differ in any of these never share an answer.
  lemma ReuseIsAnEarlierFetch(h: seq<Action>, run: seq<State>, answers: seq<Option<Answer>>, n: nat)
    requires Run(h, run, answers) && n < |h| && answers[n].Some? && answers[n].value.HitWith?
    ensures exists i: nat, j: nat, m: nat :: ReusesEarlier(h, run, answers, n, i, j, m)
  {
    assert StepAt(h, run, answers, n);
    AnswerExactly(h, run, answers, n);
    var s, r := run[n], h[n].request;
    var i: nat :| Suits(s, i, r) && Reuses(s, i, answers[n].value.result);
    FetchesSourced(h, run, answers, n, i);
    var j, m :| FetchedBy(h, answers, n, i, s.fetches[i].request, s.fetches[i].result.value, j, m);
    assert ReusesEarlier(h, run, answers, n, i, j, m);
  }
}
