/**
 * The rate limit: per caller key a queue of the moments it admitted, against a count over the whole history of calls.
 * Moments are whole milliseconds of a clock that does not run backwards.
 */
module Limiter {
  import opened Options

  const WINDOW := 60_000

  datatype Call = Call(key: string, now: int)

  /** Per key, the moments admitted that may still be in the window. */
  type Windows = map<string, seq<int>>

  function Queue(w: Windows, key: string): seq<int> {
    if key in w then w[key] else []
  }

  function Dropped(moments: seq<int>, until: int): seq<int> {
    if moments != [] && moments[0] <= until then Dropped(moments[1..], until) else moments
  }

  function Ceil(ms: int): int {
    (ms + 999) / 1000
  }

  function AtLeastOne(s: int): int {
    if s < 1 then 1 else s
  }

  /** One call against one queue: the queue after it, and the seconds to wait when it is refused. */
  function Ask(limit: nat, moments: seq<int>, now: int): (seq<int>, Option<int>)
    requires limit >= 1
  {
    var live := Dropped(moments, now - WINDOW);
    if |live| >= limit then (live, Some(AtLeastOne(Ceil(live[0] + WINDOW - now)))) else (live + [now], None)
  }

  class SlidingWindowLimiter {
    var admitted: Windows
    const perMinute: nat

    constructor (perMinute: nat)
      requires perMinute >= 1
      ensures this.perMinute == perMinute && admitted == map[]
    {
      this.perMinute := perMinute;
      admitted := map[];
    }

    /** One call of one caller; a refused one is told how long to stay away. */
    method RetryAfterSeconds(key: string, now: int) returns (wait: Option<int>)
      requires perMinute >= 1
      modifies this`admitted
      ensures (Queue(admitted, key), wait) == Ask(perMinute, Queue(old(admitted), key), now)
      ensures forall other :: other != key ==> Queue(admitted, other) == Queue(old(admitted), other)
    {
      var moments := if key in admitted then admitted[key] else [];
      admitted := admitted[key := moments];
      while |moments| > 0 && moments[0] <= now - WINDOW
        invariant Dropped(moments, now - WINDOW) == Dropped(Queue(old(admitted), key), now - WINDOW)
        invariant key in admitted && forall other :: other != key ==> Queue(admitted, other) == Queue(old(admitted), other)
      {
        moments := moments[1..];
      }
      admitted := admitted[key := moments];
      if |moments| >= perMinute {
        return Some(AtLeastOne(Ceil(moments[0] + WINDOW - now)));
      }
      admitted := admitted[key := moments + [now]];
      wait := None;
    }
  }

  // ---------------------------------------------------------------- the history

  ghost predicate Step(limit: nat, w: Windows, c: Call, wait: Option<int>, next: Windows)
    requires limit >= 1
  {
    && (Queue(next, c.key), wait) == Ask(limit, Queue(w, c.key), c.now)
    && forall other :: other != c.key ==> Queue(next, other) == Queue(w, other)
  }

  /** Call `n` was answered by one step, made no earlier than the call before it. */
  ghost predicate StepAt(limit: nat, h: seq<Call>, run: seq<Windows>, waits: seq<Option<int>>, n: nat)
    requires limit >= 1 && n < |h| == |waits| && |run| == |h| + 1
  {
    Step(limit, run[n], h[n], waits[n], run[n + 1]) && (n > 0 ==> h[n - 1].now <= h[n].now)
  }

  /** `waits` are the answers to the calls `h`, made one after another by a clock that does not run backwards. */
  ghost predicate Run(limit: nat, h: seq<Call>, run: seq<Windows>, waits: seq<Option<int>>) {
    && limit >= 1 && |run| == |h| + 1 && |waits| == |h| && run[0] == map[]
    && forall n :: 0 <= n < |h| ==> StepAt(limit, h, run, waits, n)
  }

  /** How many of the key's first `n` calls were admitted after `since`. */
  function Admitted(h: seq<Call>, waits: seq<Option<int>>, n: nat, key: string, since: int): nat
    requires n <= |h| == |waits|
  {
    if n == 0 then 0
    else Admitted(h, waits, n - 1, key, since) + if waits[n - 1].None? && h[n - 1].key == key && h[n - 1].now > since then 1 else 0
  }

  /** The moments after `since`. */
  function Above(moments: seq<int>, since: int): nat {
    if moments == [] then 0 else Above(moments[..|moments| - 1], since) + if moments[|moments| - 1] > since then 1 else 0
  }

  ghost predicate Rising(moments: seq<int>) {
    forall i, j :: 0 <= i < j < |moments| ==> moments[i] <= moments[j]
  }

  /** A queue as the limiter keeps one: in order, at most `limit` long, nothing from after `now`. */
  ghost predicate QueueWell(limit: nat, moments: seq<int>, now: int) {
    Rising(moments) && |moments| <= limit && forall i :: 0 <= i < |moments| ==> moments[i] <= now
  }

  lemma {:induction false} AboveHead(moments: seq<int>, since: int)
    requires moments != []
    ensures Above(moments, since) == Above(moments[1..], since) + if moments[0] > since then 1 else 0
  {
    if |moments| > 1 {
      var front := moments[..|moments| - 1];
      AboveHead(front, since);
      assert front[1..] == moments[1..][..|moments| - 2];
    }
  }

  // What is dropped lies at or before the edge, so a count from the edge on does not see it go.
  lemma {:induction false} DroppedCounts(moments: seq<int>, until: int, since: int)
    requires until <= since
    ensures Above(Dropped(moments, until), since) == Above(moments, since)
  {
    if moments != [] && moments[0] <= until {
      DroppedCounts(moments[1..], until, since);
      AboveHead(moments, since);
    }
  }

  lemma {:induction false} DroppedRises(moments: seq<int>, until: int, now: int)
    requires Rising(moments) && forall i :: 0 <= i < |moments| ==> moments[i] <= now
    ensures Rising(Dropped(moments, until)) && |Dropped(moments, until)| <= |moments|
    ensures forall i :: 0 <= i < |Dropped(moments, until)| ==> until < Dropped(moments, until)[i] <= now
  {
    if moments != [] && moments[0] <= until {
      DroppedRises(moments[1..], until, now);
    }
  }

  lemma {:induction false} AllAbove(moments: seq<int>, since: int)
    requires forall i :: 0 <= i < |moments| ==> moments[i] > since
    ensures Above(moments, since) == |moments|
  {
    if moments != [] {
      AllAbove(moments[..|moments| - 1], since);
    }
  }

  // What stays in the window is counted by the window.
  lemma LiveCount(moments: seq<int>, now: int)
    requires Rising(moments) && forall i :: 0 <= i < |moments| ==> moments[i] <= now
    ensures |Dropped(moments, now - WINDOW)| == Above(moments, now - WINDOW)
  {
    DroppedCounts(moments, now - WINDOW, now - WINDOW);
    DroppedRises(moments, now - WINDOW, now);
    AllAbove(Dropped(moments, now - WINDOW), now - WINDOW);
  }

  lemma AskWell(limit: nat, moments: seq<int>, now: int)
    requires limit >= 1 && QueueWell(limit, moments, now)
    ensures QueueWell(limit, Ask(limit, moments, now).0, now)
  {
    DroppedRises(moments, now - WINDOW, now);
  }

  lemma AboveAppend(moments: seq<int>, now: int, since: int)
    ensures Above(moments + [now], since) == Above(moments, since) + if now > since then 1 else 0
  {
  }

  // One call moves a count from the edge on by the call itself, when it is admitted.
  lemma AskCounts(limit: nat, moments: seq<int>, now: int, since: int)
    requires limit >= 1 && now - WINDOW <= since
    ensures Above(Ask(limit, moments, now).0, since) == Above(moments, since) + if Ask(limit, moments, now).1.None? && now > since then 1 else 0
  {
    DroppedCounts(moments, now - WINDOW, since);
    AboveAppend(Dropped(moments, now - WINDOW), now, since);
  }

  function LastNow(h: seq<Call>, n: nat, other: int): int
    requires n <= |h|
  {
    if n == 0 then other else h[n - 1].now
  }

  ghost predicate QueueCounted(limit: nat, moments: seq<int>, now: int, since: int, count: nat) {
    QueueWell(limit, moments, now) && Above(moments, since) == count
  }

  lemma StepCounts(limit: nat, w: Windows, c: Call, wait: Option<int>, next: Windows, key: string, since: int, now: int, count: nat)
    requires limit >= 1 && Step(limit, w, c, wait, next) && c.now <= now && now - WINDOW <= since
    requires QueueCounted(limit, Queue(w, key), c.now, since, count)
    ensures QueueCounted(limit, Queue(next, key), now, since, count + if wait.None? && c.key == key && c.now > since then 1 else 0)
  {
    if c.key == key {
      AskWell(limit, Queue(w, key), c.now);
      AskCounts(limit, Queue(w, key), c.now, since);
    }
  }

  // A key's queue counts, from the edge of the window on, exactly the admissions of the whole history.
  lemma {:induction false} QueueCounts(limit: nat, h: seq<Call>, run: seq<Windows>, waits: seq<Option<int>>, n: nat, key: string, since: int, now: int)
    requires Run(limit, h, run, waits) && n <= |h| && LastNow(h, n, now) <= now && now - WINDOW <= since
    ensures QueueCounted(limit, Queue(run[n], key), now, since, Admitted(h, waits, n, key, since))
  {
    if n > 0 {
      var c := h[n - 1];
      assert StepAt(limit, h, run, waits, n - 1);
      QueueCounts(limit, h, run, waits, n - 1, key, since, c.now);
      StepCounts(limit, run[n - 1], c, waits[n - 1], run[n], key, since, now, Admitted(h, waits, n - 1, key, since));
    }
  }

  lemma StepAdmits(limit: nat, w: Windows, c: Call, wait: Option<int>, next: Windows, count: nat)
    requires limit >= 1 && Step(limit, w, c, wait, next) && QueueCounted(limit, Queue(w, c.key), c.now, c.now - WINDOW, count)
    ensures wait.None? <==> count < limit
  {
    LiveCount(Queue(w, c.key), c.now);
  }

  // Over every history: a call is admitted exactly when fewer than the limit of its key's calls were admitted in the 60 s before it.
  lemma AdmitsExactly(limit: nat, h: seq<Call>, run: seq<Windows>, waits: seq<Option<int>>, n: nat)
    requires Run(limit, h, run, waits) && n < |h|
    ensures waits[n].None? <==> Admitted(h, waits, n, h[n].key, h[n].now - 60_000) < limit
  {
    assert StepAt(limit, h, run, waits, n);
    QueueCounts(limit, h, run, waits, n, h[n].key, h[n].now - WINDOW, h[n].now);
    StepAdmits(limit, run[n], h[n], waits[n], run[n + 1], Admitted(h, waits, n, h[n].key, h[n].now - WINDOW));
  }

  /** How many of the key's first `n` calls were admitted in the 60 s after `start`, its end included. */
  function InWindow(h: seq<Call>, waits: seq<Option<int>>, n: nat, key: string, start: int): nat
    requires n <= |h| == |waits|
  {
    if n == 0 then 0
    else InWindow(h, waits, n - 1, key, start) + if waits[n - 1].None? && h[n - 1].key == key && start < h[n - 1].now <= start + 60_000 then 1 else 0
  }

  lemma {:induction false} WindowInside(h: seq<Call>, waits: seq<Option<int>>, n: nat, key: string, start: int, since: int)
    requires n <= |h| == |waits| && since <= start
    ensures InWindow(h, waits, n, key, start) <= Admitted(h, waits, n, key, since)
  {
    if n > 0 {
      WindowInside(h, waits, n - 1, key, start, since);
    }
  }

  // No 60 s window, wherever it starts, holds more than the limit of one key's admissions.
  lemma {:induction false} NoWindowOverflows(limit: nat, h: seq<Call>, run: seq<Windows>, waits: seq<Option<int>>, n: nat, key: string, start: int)
    requires Run(limit, h, run, waits) && n <= |h|
    ensures InWindow(h, waits, n, key, start) <= limit
  {
    if n > 0 {
      NoWindowOverflows(limit, h, run, waits, n - 1, key, start);
      var c := h[n - 1];
      if waits[n - 1].None? && c.key == key && start < c.now <= start + WINDOW {
        AdmitsExactly(limit, h, run, waits, n - 1);
        WindowInside(h, waits, n - 1, key, start, c.now - WINDOW);
      }
    }
  }

  // ---------------------------------------------------------------- the seconds to wait

  lemma Kept(moments: seq<int>, until: int)
    requires moments == [] || moments[0] > until
    ensures Dropped(moments, until) == moments
  {
  }

  // The answer to a refused call is exact: left alone, a key is admitted after that many seconds and refused one second sooner.
  lemma WaitIsExact(limit: nat, moments: seq<int>, now: int)
    requires limit >= 1 && QueueWell(limit, moments, now) && Ask(limit, moments, now).1.Some?
    ensures var (after, wait) := Ask(limit, moments, now);
      && 1 <= wait.value <= 60
      && Ask(limit, after, now + 1000 * wait.value).1.None?
      && Ask(limit, after, now + 1000 * (wait.value - 1)).1.Some?
  {
    var (after, wait) := Ask(limit, moments, now);
    DroppedRises(moments, now - WINDOW, now);
    var sooner, later := now + 1000 * (wait.value - 1), now + 1000 * wait.value;
    Kept(after, sooner - WINDOW);
    assert after[0] <= later - WINDOW;
    DroppedRises(after[1..], later - WINDOW, now);
  }

  lemma LeftAlone(limit: nat, moments: seq<int>, now: int, later: int)
    requires limit >= 1 && QueueWell(limit, moments, now) && now <= later
    ensures Ask(limit, moments, later).1.None? <==> Above(moments, later - WINDOW) < limit
  {
    LiveCount(moments, later);
  }

  lemma CountLater(limit: nat, moments: seq<int>, now: int, later: int)
    requires limit >= 1 && QueueWell(limit, moments, now) && Ask(limit, moments, now).1.Some? && now <= later
    ensures Ask(limit, Ask(limit, moments, now).0, later).1.None? <==> Above(moments, later - WINDOW) < limit
  {
    AskWell(limit, moments, now);
    LeftAlone(limit, Ask(limit, moments, now).0, now, later);
    AskCounts(limit, moments, now, later - WINDOW);
  }

  lemma WaitCounts(limit: nat, moments: seq<int>, now: int, wait: int)
    requires limit >= 1 && QueueWell(limit, moments, now) && Ask(limit, moments, now).1 == Some(wait)
    ensures 1 <= wait <= 60 && Above(moments, now + 1000 * wait - 60_000) < limit <= Above(moments, now + 1000 * (wait - 1) - 60_000)
  {
    WaitIsExact(limit, moments, now);
    CountLater(limit, moments, now, now + 1000 * wait);
    CountLater(limit, moments, now, now + 1000 * (wait - 1));
  }

  lemma QueueCount(limit: nat, h: seq<Call>, run: seq<Windows>, waits: seq<Option<int>>, n: nat, since: int)
    requires Run(limit, h, run, waits) && n < |h| && h[n].now - WINDOW <= since
    ensures QueueWell(limit, Queue(run[n], h[n].key), h[n].now) && Above(Queue(run[n], h[n].key), since) == Admitted(h, waits, n, h[n].key, since)
    ensures Ask(limit, Queue(run[n], h[n].key), h[n].now).1 == waits[n]
  {
    assert StepAt(limit, h, run, waits, n);
    QueueCounts(limit, h, run, waits, n, h[n].key, since, h[n].now);
  }

  /** With no other call of the key admitted, fewer than the limit lie in the 60 s before the wait is over, and a second sooner they do not. */
  ghost predicate WaitFits(limit: nat, h: seq<Call>, waits: seq<Option<int>>, n: nat, wait: int)
    requires n < |h| == |waits|
  {
    && Admitted(h, waits, n, h[n].key, h[n].now + 1000 * wait - 60_000) < limit
    && Admitted(h, waits, n, h[n].key, h[n].now + 1000 * (wait - 1) - 60_000) >= limit
  }

  // Over every history a refused call is told exactly how long to stay away.
  lemma WaitInHistory(limit: nat, h: seq<Call>, run: seq<Windows>, waits: seq<Option<int>>, n: nat)
    requires Run(limit, h, run, waits) && n < |h| && waits[n].Some?
    ensures 1 <= waits[n].value <= 60 && WaitFits(limit, h, waits, n, waits[n].value)
  {
    var c, wait := h[n], waits[n].value;
    QueueCount(limit, h, run, waits, n, c.now - WINDOW);
    WaitCounts(limit, Queue(run[n], c.key), c.now, wait);
    QueueCount(limit, h, run, waits, n, c.now + 1000 * wait - WINDOW);
    QueueCount(limit, h, run, waits, n, c.now + 1000 * (wait - 1) - WINDOW);
  }

  // ---------------------------------------------------------------- keys

  /** A queue that saw only these calls. */
  function Alone(limit: nat, calls: seq<int>): seq<int>
    requires limit >= 1
  {
    if calls == [] then [] else Ask(limit, Alone(limit, calls[..|calls| - 1]), calls[|calls| - 1]).0
  }

  /** When the key called, among the first `n` calls. */
  function Own(h: seq<Call>, n: nat, key: string): seq<int>
    requires n <= |h|
  {
    if n == 0 then [] else Own(h, n - 1, key) + if h[n - 1].key == key then [h[n - 1].now] else []
  }

  lemma AloneAppend(limit: nat, calls: seq<int>, now: int)
    requires limit >= 1
    ensures Alone(limit, calls + [now]) == Ask(limit, Alone(limit, calls), now).0
  {
  }

  lemma StepAlone(limit: nat, w: Windows, c: Call, wait: Option<int>, next: Windows, key: string, own: seq<int>)
    requires limit >= 1 && Step(limit, w, c, wait, next) && Queue(w, key) == Alone(limit, own)
    ensures Queue(next, key) == Alone(limit, own + if c.key == key then [c.now] else [])
  {
    if c.key == key {
      AloneAppend(limit, own, c.now);
    } else {
      assert own + [] == own;
    }
  }

  // Keys never affect each other: a key's queue, and so its next answer, is what its own calls alone make it.
  lemma {:induction false} KeysApart(limit: nat, h: seq<Call>, run: seq<Windows>, waits: seq<Option<int>>, n: nat, key: string)
    requires Run(limit, h, run, waits) && n <= |h|
    ensures Queue(run[n], key) == Alone(limit, Own(h, n, key))
  {
    if n > 0 {
      KeysApart(limit, h, run, waits, n - 1, key);
      assert StepAt(limit, h, run, waits, n - 1);
      StepAlone(limit, run[n - 1], h[n - 1], waits[n - 1], run[n], key, Own(h, n - 1, key));
    }
  }
}
