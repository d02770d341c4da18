/**
 * Following `next` through a crawl's steps while the crawl still runs. Rows come in the order of their creation
 * millisecond and then their id; each request reads the status first and then one page after the cursor.
 */
module Paging {
  import opened Options

  datatype Row = Row(at: int, id: int)

  predicate Before(a: Row, b: Row) {
    a.at < b.at || (a.at == b.at && a.id < b.id)
  }

  ghost predicate Sorted(rows: seq<Row>) {
    forall i, j :: 0 <= i < j < |rows| ==> Before(rows[i], rows[j])
  }

  // ---------------------------------------------------------------- the store

  /** The rows with one more, in order. */
  function Insert(rows: seq<Row>, row: Row): seq<Row> {
    if rows == [] || Before(row, rows[0]) then [row] + rows else [rows[0]] + Insert(rows[1..], row)
  }

  predicate Past(cursor: Option<Row>, row: Row) {
    cursor.None? || Before(cursor.value, row)
  }

  /** The rows after the cursor, at most `n` of them. */
  function Select(rows: seq<Row>, cursor: Option<Row>, n: nat): seq<Row> {
    if rows == [] || n == 0 then []
    else if Past(cursor, rows[0]) then [rows[0]] + Select(rows[1..], cursor, n - 1)
    else Select(rows[1..], cursor, n)
  }

  datatype Page = Page(rows: seq<Row>, hasMore: bool, cursor: Option<Row>)

  /** One page: `limit` rows after the cursor, and whether a further one follows. The cursor is the last row's, or as it was. */
  function PageAt(rows: seq<Row>, cursor: Option<Row>, limit: nat): Page
    requires limit >= 1
  {
    var found := Select(rows, cursor, limit + 1);
    var page := if |found| > limit then found[..limit] else found;
    Page(page, |found| > limit, if page == [] then cursor else Some(page[|page| - 1]))
  }

  // ---------------------------------------------------------------- the crawl and its reader

  /** `status`: the status a request under way has read. */
  datatype State = State(rows: seq<Row>, finished: bool, status: Option<bool>, cursor: Option<Row>, received: seq<Row>, ended: bool)

  const INIT := State([], false, None, None, [], false)

  datatype Action = Write(row: Row) | Finish | ReadStatus | ReadPage(limit: nat)

  ghost predicate Step(s: State, a: Action, t: State) {
    match a
    case Write(row) => !s.finished && row !in s.rows && t == s.(rows := Insert(s.rows, row))
    case Finish => t == s.(finished := true)
    case ReadStatus => !s.ended && s.status.None? && t == s.(status := Some(s.finished))
    case ReadPage(limit) =>
      && !s.ended && s.status.Some? && limit >= 1
      && var page := PageAt(s.rows, s.cursor, limit);
        t == s.(status := None, cursor := page.cursor, received := s.received + page.rows, ended := s.status.value && !page.hasMore)
  }

  ghost predicate StepAt(h: seq<Action>, run: seq<State>, n: nat)
    requires n < |h| && |run| == |h| + 1
  {
    Step(run[n], h[n], run[n + 1])
  }

  ghost predicate Run(h: seq<Action>, run: seq<State>) {
    |run| == |h| + 1 && run[0] == INIT && forall n :: 0 <= n < |h| ==> StepAt(h, run, n)
  }

  /** A row written where the reader has already been. */
  predicate Late(s: State, a: Action) {
    a.Write? && !Past(s.cursor, a.row)
  }

  function LateRows(h: seq<Action>, run: seq<State>, n: nat): set<Row>
    requires n <= |h| < |run|
  {
    if n == 0 then {} else LateRows(h, run, n - 1) + if Late(run[n - 1], h[n - 1]) then {h[n - 1].row} else {}
  }

  // ---------------------------------------------------------------- sorted rows

  lemma Cons(row: Row, rows: seq<Row>)
    requires Sorted(rows) && forall r :: r in rows ==> Before(row, r)
    ensures Sorted([row] + rows)
  {
  }

  lemma TailAfter(rows: seq<Row>)
    requires Sorted(rows) && rows != []
    ensures rows == [rows[0]] + rows[1..] && Sorted(rows[1..])
    ensures forall r :: r in rows[1..] ==> Before(rows[0], r)
  {
  }

  lemma {:induction false} InsertSorted(rows: seq<Row>, row: Row)
    requires Sorted(rows) && row !in rows
    ensures Sorted(Insert(rows, row)) && forall r :: r in Insert(rows, row) <==> r in rows || r == row
  {
    if rows != [] {
      TailAfter(rows);
      if Before(row, rows[0]) {
        Cons(row, rows);
      } else {
        InsertSorted(rows[1..], row);
        Cons(rows[0], Insert(rows[1..], row));
      }
    }
  }

  // A page holds the first rows past the cursor: all of them when it is not full.
  lemma {:induction false} SelectIs(rows: seq<Row>, cursor: Option<Row>, n: nat)
    requires Sorted(rows)
    ensures Sorted(Select(rows, cursor, n)) && |Select(rows, cursor, n)| <= n
    ensures forall r :: r in Select(rows, cursor, n) ==> r in rows && Past(cursor, r)
    ensures forall r :: r in rows && Past(cursor, r) && r !in Select(rows, cursor, n) ==>
      |Select(rows, cursor, n)| == n && forall t :: t in Select(rows, cursor, n) ==> Before(t, r)
  {
    if rows != [] && n != 0 {
      TailAfter(rows);
      if Past(cursor, rows[0]) {
        SelectIs(rows[1..], cursor, n - 1);
        Cons(rows[0], Select(rows[1..], cursor, n - 1));
      } else {
        SelectIs(rows[1..], cursor, n);
      }
    }
  }

  lemma FullPage(found: seq<Row>, limit: nat)
    requires Sorted(found) && 1 <= limit < |found|
    ensures Sorted(found[..limit]) && forall r :: r in found[..limit] <==> r in found && !Before(found[limit - 1], r)
  {
  }

  lemma LastOf(rows: seq<Row>)
    requires Sorted(rows) && rows != []
    ensures forall r :: r in rows ==> !Before(rows[|rows| - 1], r)
  {
  }

  // What is not past the old cursor is not past the new one.
  lemma CursorMoves(cursor: Option<Row>, last: Row)
    requires Past(cursor, last)
    ensures forall r :: !Past(cursor, r) ==> !Before(last, r)
  {
  }

  /** What a page is: at most `limit` rows, those past the old cursor and not past the new one; more exactly when one past the old cursor is left, and then it is full. */
  ghost predicate PageWell(rows: seq<Row>, cursor: Option<Row>, limit: nat, page: Page) {
    && Sorted(page.rows) && |page.rows| <= limit
    && page.cursor == (if page.rows == [] then cursor else Some(page.rows[|page.rows| - 1]))
    && (forall r :: r in page.rows <==> r in rows && Past(cursor, r) && !Past(page.cursor, r))
    && (page.hasMore <==> exists r :: r in rows && Past(cursor, r) && r !in page.rows)
    && (page.hasMore ==> |page.rows| == limit)
    && (!page.hasMore ==> forall r :: r in rows ==> !Past(page.cursor, r))
  }

  lemma PageIs(rows: seq<Row>, cursor: Option<Row>, limit: nat)
    requires limit >= 1 && Sorted(rows)
    ensures PageWell(rows, cursor, limit, PageAt(rows, cursor, limit))
  {
    SelectIs(rows, cursor, limit + 1);
    var found, page := Select(rows, cursor, limit + 1), PageAt(rows, cursor, limit);
    if |found| > limit {
      FullPage(found, limit);
      assert found[limit] in found && found[limit] !in page.rows;
    } else if found != [] {
      LastOf(found);
      CursorMoves(cursor, found[|found| - 1]);
      assert found[|found| - 1] in found;
    }
  }

  // ---------------------------------------------------------------- what the reader has

  /** The reader has, in order and once each, the rows up to its cursor but for the late ones. */
  ghost predicate Has(rows: seq<Row>, cursor: Option<Row>, received: seq<Row>, late: set<Row>) {
    && Sorted(rows) && Sorted(received)
    && (forall r :: r in received ==> cursor.Some? && !Before(cursor.value, r))
    && (forall r :: r in late ==> r in rows && !Past(cursor, r))
    && forall r :: r in received <==> r in rows && !Past(cursor, r) && r !in late
  }

  ghost predicate Inv(s: State, late: set<Row>) {
    && Has(s.rows, s.cursor, s.received, late)
    && (s.status == Some(true) ==> s.finished)
    && (s.ended ==> s.finished && forall r :: r in s.rows ==> !Past(s.cursor, r))
  }

  lemma WriteHas(s: State, row: Row, late: set<Row>)
    requires Has(s.rows, s.cursor, s.received, late) && row !in s.rows
    ensures Has(Insert(s.rows, row), s.cursor, s.received, late + if Past(s.cursor, row) then {} else {row})
  {
    InsertSorted(s.rows, row);
  }

  lemma Concat(a: seq<Row>, b: seq<Row>)
    requires Sorted(a) && Sorted(b) && forall r, t :: r in a && t in b ==> Before(r, t)
    ensures Sorted(a + b)
  {
  }

  lemma ReadHas(s: State, limit: nat, page: Page, late: set<Row>)
    requires Has(s.rows, s.cursor, s.received, late) && PageWell(s.rows, s.cursor, limit, page)
    ensures Has(s.rows, page.cursor, s.received + page.rows, late)
  {
    Concat(s.received, page.rows);
    if page.rows != [] {
      LastOf(page.rows);
      assert page.rows[|page.rows| - 1] in page.rows;
      CursorMoves(s.cursor, page.rows[|page.rows| - 1]);
    }
  }

  lemma StepInv(s: State, a: Action, t: State, late: set<Row>)
    requires Step(s, a, t) && Inv(s, late)
    ensures Inv(t, late + if Late(s, a) then {a.row} else {})
  {
    match a
    case Write(row) => WriteHas(s, row, late);
    case ReadPage(limit) =>
      PageIs(s.rows, s.cursor, limit);
      ReadHas(s, limit, PageAt(s.rows, s.cursor, limit), late);
    case _ =>
  }

  lemma {:induction false} RunInv(h: seq<Action>, run: seq<State>, n: nat)
    requires Run(h, run) && n <= |h|
    ensures Inv(run[n], LateRows(h, run, n))
  {
    if n > 0 {
      RunInv(h, run, n - 1);
      assert StepAt(h, run, n - 1);
      StepInv(run[n - 1], h[n - 1], run[n], LateRows(h, run, n - 1));
    }
  }

  lemma {:induction false} SortedUnique(a: seq<Row>, b: seq<Row>)
    requires Sorted(a) && Sorted(b) && forall r :: r in a <==> r in b
    ensures a == b
  {
    if a == [] {
      assert forall k :: 0 <= k < |b| ==> b[k] in b;
    } else {
      assert a[0] in a && a[0] in b;
      assert b[0] in b && b[0] in a;
      TailAfter(a);
      TailAfter(b);
      assert a[0] == b[0];
      assert forall r :: r in a[1..] <==> r in a && r != a[0];
      assert forall r :: r in b[1..] <==> r in b && r != b[0];
      SortedUnique(a[1..], b[1..]);
    }
  }

  // The reader that followed `next` to its end has every row exactly once and in order, exactly when no row was written
  // where it had already been; with late rows it has all the others.
  lemma FollowingNextIsExact(h: seq<Action>, run: seq<State>, n: nat)
    requires Run(h, run) && n <= |h| && run[n].ended
    ensures run[n].received == run[n].rows <==> LateRows(h, run, n) == {}
    ensures Sorted(run[n].received) && forall r :: r in run[n].received <==> r in run[n].rows && r !in LateRows(h, run, n)
  {
    RunInv(h, run, n);
    if LateRows(h, run, n) == {} {
      SortedUnique(run[n].received, run[n].rows);
    } else {
      var r :| r in LateRows(h, run, n);
      assert r in run[n].rows && r !in run[n].received;
    }
  }

  // Nothing changes once the reader ended: it ended with the crawl's last row written.
  lemma EndedIsEnd(h: seq<Action>, run: seq<State>, n: nat)
    requires Run(h, run) && n < |h| && run[n].ended
    ensures run[n + 1].rows == run[n].rows && run[n + 1].received == run[n].received && run[n + 1].ended
  {
    RunInv(h, run, n);
    assert StepAt(h, run, n);
  }

  /** Rows are written in the order of their creation millisecond. */
  ghost predicate ClockForward(s: State, a: Action) {
    a.Write? ==> forall r :: r in s.rows ==> r.at <= a.row.at
  }

  // With a clock that does not run backwards only one row can be late: one written in the cursor's own millisecond under a smaller id.
  lemma LateOnlyInTheSameMillisecond(h: seq<Action>, run: seq<State>, n: nat)
    requires Run(h, run) && n < |h| && ClockForward(run[n], h[n])
    ensures Late(run[n], h[n]) <==> h[n].Write? && run[n].cursor.Some? && h[n].row.at == run[n].cursor.value.at && h[n].row.id < run[n].cursor.value.id
  {
    RunInv(h, run, n);
    CursorIsARow(h, run, n);
    assert StepAt(h, run, n);
  }

  lemma {:induction false} CursorIsARow(h: seq<Action>, run: seq<State>, n: nat)
    requires Run(h, run) && n <= |h|
    ensures run[n].cursor.Some? ==> run[n].cursor.value in run[n].rows
  {
    if n > 0 {
      CursorIsARow(h, run, n - 1);
      RunInv(h, run, n - 1);
      assert StepAt(h, run, n - 1);
      var s := run[n - 1];
      match h[n - 1]
      case Write(row) => InsertSorted(s.rows, row);
      case ReadPage(limit) => PageIs(s.rows, s.cursor, limit);
      case _ =>
    }
  }

  // Once the crawl is finished every request brings a row or ends the reading.
  lemma ReadingProgresses(s: State, limit: nat, t: State, late: set<Row>)
    requires Inv(s, late) && s.status == Some(true) && Step(s, ReadPage(limit), t)
    ensures t.ended || |t.received| > |s.received|
    ensures |t.received| <= |t.rows|
  {
    PageIs(s.rows, s.cursor, limit);
    StepInv(s, ReadPage(limit), t, late);
    Distinct(t.received, t.rows);
  }

  lemma {:induction false} Distinct(a: seq<Row>, b: seq<Row>)
    requires Sorted(a) && Sorted(b) && forall r :: r in a ==> r in b
    ensures |a| <= |b|
  {
    if a != [] {
      assert a[|a| - 1] in a;
      var k :| 0 <= k < |b| && b[k] == a[|a| - 1];
      forall r | r in a[..|a| - 1] ensures r in b[..k] {
        var i :| 0 <= i < |a| - 1 && a[i] == r;
        assert a[i] in a && Before(a[i], a[|a| - 1]);
        var j :| 0 <= j < |b| && b[j] == r;
      }
      Distinct(a[..|a| - 1], b[..k]);
    }
  }

  lemma PagesOfTwo(first: Row, late: Row)
    requires Before(late, first)
    ensures Insert([first], late) == [late, first] && Insert([], first) == [first]
    ensures PageAt([first], None, 1) == Page([first], false, Some(first)) && PageAt([late, first], Some(first), 1) == Page([], false, Some(first))
  {
    assert [first][1..] == [] && [late, first][1..] == [first];
    assert Select([first], None, 2) == [first];
    assert Select([first], Some(first), 2) == Select([first][1..], Some(first), 2) == [];
    assert Select([late, first], Some(first), 2) == [];
  }

  lemma LateSteps(first: Row, late: Row, wrote: State, read: State, over: State)
    requires Before(late, first)
    requires wrote == INIT.(rows := [first]) && read == wrote.(cursor := Some(first), received := [first])
    requires over == read.(rows := [late, first], finished := true)
    ensures Step(INIT, Write(first), wrote) && Step(wrote, ReadStatus, wrote.(status := Some(false)))
    ensures Step(wrote.(status := Some(false)), ReadPage(1), read)
    ensures Step(read, Write(late), over.(finished := false)) && Step(over.(finished := false), Finish, over)
    ensures Step(over, ReadStatus, over.(status := Some(true))) && Step(over.(status := Some(true)), ReadPage(1), over.(ended := true))
  {
    PagesOfTwo(first, late);
    assert wrote.received + [first] == read.received && over.received + [] == over.received;
  }

  // A late row does come about, in a run from the start: two rows of one millisecond, the smaller id written after the other was read.
  lemma LateRowHappens(at: int)
    ensures exists h, run: seq<State> :: Run(h, run) && |h| == 7 && run[7].ended && run[7].received == [Row(at, 9)] && run[7].rows == [Row(at, 3), Row(at, 9)]
  {
    var first, late := Row(at, 9), Row(at, 3);
    var wrote := INIT.(rows := [first]);
    var read := wrote.(cursor := Some(first), received := [first]);
    var over := read.(rows := [late, first], finished := true);
    LateSteps(first, late, wrote, read, over);
    var h, run := RunOn([], [INIT], Write(first), wrote);
    h, run := RunOn(h, run, ReadStatus, wrote.(status := Some(false)));
    h, run := RunOn(h, run, ReadPage(1), read);
    h, run := RunOn(h, run, Write(late), over.(finished := false));
    h, run := RunOn(h, run, Finish, over);
    h, run := RunOn(h, run, ReadStatus, over.(status := Some(true)));
    h, run := RunOn(h, run, ReadPage(1), over.(ended := true));
  }

  // A run goes on with one more step.
  lemma RunOn(h: seq<Action>, run: seq<State>, a: Action, t: State) returns (more: seq<Action>, on: seq<State>)
    requires Run(h, run) && Step(run[|h|], a, t)
    ensures Run(more, on) && |more| == |h| + 1 && on[|more|] == t
  {
    more, on := h + [a], run + [t];
    forall n | 0 <= n < |more| ensures StepAt(more, on, n) {
      if n < |h| {
        assert StepAt(h, run, n);
      }
    }
  }

  // ---------------------------------------------------------------- why the status is read first

  /** The same requests with their two reads in the other order: `status` holds whether the page had more after it. */
  ghost predicate SwappedStep(s: State, a: Action, t: State) {
    match a
    case ReadPage(limit) =>
      && !s.ended && s.status.None? && limit >= 1
      && var page := PageAt(s.rows, s.cursor, limit);
        t == s.(status := Some(page.hasMore), cursor := page.cursor, received := s.received + page.rows)
    case ReadStatus => !s.ended && s.status.Some? && t == s.(status := None, ended := s.finished && !s.status.value)
    case _ => Step(s, a, t)
  }

  ghost predicate SwappedRun(h: seq<Action>, run: seq<State>) {
    |run| == |h| + 1 && run[0] == INIT && forall n {:trigger h[n]} :: 0 <= n < |h| ==> SwappedStep(run[n], h[n], run[n + 1])
  }

  // Reading the page first loses a row that is not late: one written, as the crawl ends, between the two reads.
  lemma OtherOrderLoses(row: Row)
    ensures exists h, run: seq<State> :: SwappedRun(h, run) && |h| == 4 && LateRows(h, run, 4) == {} && run[4].ended && row in run[4].rows && row !in run[4].received
  {
    var h := [ReadPage(1), Write(row), Finish, ReadStatus];
    var read := INIT.(status := Some(false));
    var wrote := read.(rows := [row]);
    var run := [INIT, read, wrote, wrote.(finished := true), wrote.(finished := true, status := None, ended := true)];
    assert SwappedRun(h, run);
    assert run[1].cursor == None && h[0] == ReadPage(1) && h[2] == Finish && h[3] == ReadStatus;
    assert LateRows(h, run, 1) == {};
    assert LateRows(h, run, 2) == {};
    assert LateRows(h, run, 3) == {};
  }
}
