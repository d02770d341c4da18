/**
 * The ridge tracer: column by column the row, close to a guess and to the column before, below which the ground is darkest
 * against what lies above; then medians of five. Exact reals stand for floats.
 */
module Ridge {
  import opened Options
  import Separable
  import BandedScan

  /** Row by row; at least one pixel. */
  datatype Image = Image(w: int, h: int, pixels: seq<BandedScan.Pixel>) {
    ghost predicate Valid() {
      w > 0 && h > 0 && |pixels| == w * h
    }
  }

  function Clamp(k: int, n: int): int {
    Separable.Clamp(k, n)
  }

  // ---------------------------------------------------------------- medians

  function Insert(s: seq<real>, v: real): seq<real> {
    if s == [] || v < s[0] then [v] + s else [s[0]] + Insert(s[1..], v)
  }

  /** The values in order. */
  function Sort(s: seq<real>): seq<real> {
    if s == [] then [] else Insert(Sort(s[..|s| - 1]), s[|s| - 1])
  }

  function Below(s: seq<real>, v: real): nat {
    if s == [] then 0 else Below(s[..|s| - 1], v) + if s[|s| - 1] < v then 1 else 0
  }

  function Above(s: seq<real>, v: real): nat {
    if s == [] then 0 else Above(s[..|s| - 1], v) + if s[|s| - 1] > v then 1 else 0
  }

  ghost predicate InOrder(s: seq<real>) {
    forall i, j :: 0 <= i < j < |s| ==> s[i] <= s[j]
  }

  lemma {:induction false} BelowAppend(a: seq<real>, b: seq<real>, v: real)
    ensures Below(a + b, v) == Below(a, v) + Below(b, v) && Above(a + b, v) == Above(a, v) + Above(b, v)
  {
    if b == [] {
      assert a + b == a;
    } else {
      BelowAppend(a, b[..|b| - 1], v);
      assert (a + b)[..|a + b| - 1] == a + b[..|b| - 1];
    }
  }

  lemma InsertFirst(x: real, s: seq<real>)
    requires InOrder(s) && forall y :: y in s ==> x <= y
    ensures InOrder([x] + s)
  {
    assert forall i :: 0 <= i < |s| ==> s[i] in s;
  }

  lemma {:induction false} InsertIs(s: seq<real>, x: real)
    requires InOrder(s)
    ensures InOrder(Insert(s, x)) && |Insert(s, x)| == |s| + 1
    ensures forall y :: y in Insert(s, x) <==> y in s || y == x
  {
    if s == [] || x < s[0] {
      InsertFirst(x, s);
    } else {
      assert s == [s[0]] + s[1..];
      InsertIs(s[1..], x);
      InsertFirst(s[0], Insert(s[1..], x));
    }
  }

  lemma {:induction false} InsertCounts(s: seq<real>, x: real, v: real)
    ensures Below(Insert(s, x), v) == Below(s, v) + (if x < v then 1 else 0) && Above(Insert(s, x), v) == Above(s, v) + (if x > v then 1 else 0)
  {
    if s == [] || x < s[0] {
      BelowAppend([x], s, v);
    } else {
      assert s == [s[0]] + s[1..];
      InsertCounts(s[1..], x, v);
      BelowAppend([s[0]], s[1..], v);
      BelowAppend([s[0]], Insert(s[1..], x), v);
    }
  }

  lemma {:induction false} SortIs(s: seq<real>, v: real)
    ensures InOrder(Sort(s)) && |Sort(s)| == |s| && (forall y :: y in Sort(s) <==> y in s)
    ensures Below(Sort(s), v) == Below(s, v) && Above(Sort(s), v) == Above(s, v)
  {
    if s != [] {
      SortIs(s[..|s| - 1], v);
      InsertIs(Sort(s[..|s| - 1]), s[|s| - 1]);
      InsertCounts(Sort(s[..|s| - 1]), s[|s| - 1], v);
      assert s == s[..|s| - 1] + [s[|s| - 1]];
    }
  }

  ghost predicate AtLeast(s: seq<real>, v: real) {
    forall i :: 0 <= i < |s| ==> s[i] >= v
  }

  ghost predicate AtMost(s: seq<real>, v: real) {
    forall i :: 0 <= i < |s| ==> s[i] <= v
  }

  lemma {:induction false} NoneBeyond(s: seq<real>, v: real)
    ensures Below(s, v) <= |s| && Above(s, v) <= |s|
    ensures AtLeast(s, v) ==> Below(s, v) == 0
    ensures AtMost(s, v) ==> Above(s, v) == 0
  {
    if s != [] {
      NoneBeyond(s[..|s| - 1], v);
    }
  }

  lemma BelowSplit(front: seq<real>, back: seq<real>, v: real)
    ensures AtLeast(back, v) ==> Below(front + back, v) <= |front|
    ensures AtMost(front, v) ==> Above(front + back, v) <= |back|
  {
    BelowAppend(front, back, v);
    NoneBeyond(front, v);
    NoneBeyond(back, v);
  }

  lemma SplitOrder(s: seq<real>, k: nat)
    requires InOrder(s) && k < |s|
    ensures s == s[..k] + s[k..] && s == s[..k + 1] + s[k + 1..]
    ensures AtLeast(s[k..], s[k]) && AtMost(s[..k + 1], s[k])
  {
  }

  // In an ordered list at most `k` values lie below the one at `k`, and at most the rest above it.
  lemma RankInOrder(s: seq<real>, k: nat)
    requires InOrder(s) && k < |s|
    ensures Below(s, s[k]) <= k && Above(s, s[k]) <= |s| - k - 1
  {
    SplitOrder(s, k);
    BelowSplit(s[..k], s[k..], s[k]);
    BelowSplit(s[..k + 1], s[k + 1..], s[k]);
  }

  /** The middle of an odd number of values. */
  function Median(s: seq<real>): real
    requires s != []
  {
    SortIs(s, 0.0);
    Sort(s)[|s| / 2]
  }

  // The median is one of the values, with at most half of them below it and at most half above.
  lemma MedianRank(s: seq<real>)
    requires |s| % 2 == 1
    ensures Median(s) in s && Below(s, Median(s)) <= |s| / 2 && Above(s, Median(s)) <= |s| / 2
  {
    SortIs(s, Median(s));
    assert Sort(s)[|s| / 2] in Sort(s);
    RankInOrder(Sort(s), |s| / 2);
  }

  // ---------------------------------------------------------------- the ground

  function LuminanceAt(image: Image, x: int, y: int): real
    requires image.Valid()
  {
    var cx, cy := Clamp(x, image.w), Clamp(y, image.h);
    Separable.RowMajor(image.w, image.h, cx, cy);
    BandedScan.Luminance(image.pixels[cy * image.w + cx])
  }

  /** The seven values across, clamped into the image. */
  function Across(image: Image, x: int, y: int): seq<real>
    requires image.Valid()
  {
    [LuminanceAt(image, x - 3, y), LuminanceAt(image, x - 2, y), LuminanceAt(image, x - 1, y), LuminanceAt(image, x, y),
     LuminanceAt(image, x + 1, y), LuminanceAt(image, x + 2, y), LuminanceAt(image, x + 3, y)]
  }

  function Ground(image: Image, x: int, y: int): real
    requires image.Valid()
  {
    Median(Across(image, x, y))
  }

  /** How much the ground darkens from the four rows above to the four below. */
  function Darkening(image: Image, x: int, y: int): real
    requires image.Valid()
  {
    Ground(image, x, y - 4) + Ground(image, x, y - 3) + Ground(image, x, y - 2) + Ground(image, x, y - 1)
    - Ground(image, x, y + 1) - Ground(image, x, y + 2) - Ground(image, x, y + 3) - Ground(image, x, y + 4)
  }

  /** The ground above a row less the ground as far below it, summed over the `n` nearest rows. */
  function Drop(ground: int -> real, y: int, n: nat): real {
    if n == 0 then 0.0 else Drop(ground, y, n - 1) + ground(y - n) - ground(y + n)
  }

  lemma FourRows(ground: int -> real, y: int)
    ensures Drop(ground, y, 4) == ground(y - 4) + ground(y - 3) + ground(y - 2) + ground(y - 1) - ground(y + 1) - ground(y + 2) - ground(y + 3) - ground(y + 4)
  {
    assert Drop(ground, y, 1) == ground(y - 1) - ground(y + 1);
    assert Drop(ground, y, 2) == Drop(ground, y, 1) + ground(y - 2) - ground(y + 2);
    assert Drop(ground, y, 3) == Drop(ground, y, 2) + ground(y - 3) - ground(y + 3);
  }

  /** The ground down one column. */
  function GroundLine(image: Image, x: int): int -> real
    requires image.Valid()
  {
    y => Ground(image, x, y)
  }

  // The darkening weighs the four rows above a row against the four below, each row once.
  lemma DarkeningIs(image: Image, x: int, y: int)
    requires image.Valid()
    ensures Darkening(image, x, y) == Drop(GroundLine(image, x), y, 4)
  {
    FourRows(GroundLine(image, x), y);
  }

  method GroundAt(image: Image, x: int, y: int) returns (ground: real)
    requires image.Valid()
    ensures ground == Ground(image, x, y)
  {
    var row: seq<real> := [];
    for k: int := -3 to 4
      invariant |row| == k + 3 && forall j :: 0 <= j < |row| ==> row[j] == LuminanceAt(image, x - 3 + j, y)
    {
      var cx, cy := Clamp(x + k, image.w), Clamp(y, image.h);
      Separable.RowMajor(image.w, image.h, cx, cy);
      row := row + [BandedScan.Luminance(image.pixels[cy * image.w + cx])];
    }
    assert row == Across(image, x, y);
    SortIs(row, 0.0);
    ground := Sort(row)[3];
  }

  // ---------------------------------------------------------------- one column

  /** Where a column's row is sought: near the guess, and near the row before. */
  function Low(centre: int, reach: int, previous: Option<int>): int {
    if previous.None? || centre - reach >= previous.value - 5 then centre - reach else previous.value - 5
  }

  function High(centre: int, reach: int, previous: Option<int>): int {
    if previous.None? || centre + reach <= previous.value + 5 then centre + reach else previous.value + 5
  }

  /** `best` is the first row of [lo, hi] where `f` is greatest; when there is no row there, the guess itself. */
  ghost predicate FirstGreatest(f: int -> real, lo: int, hi: int, centre: int, best: int) {
    if lo > hi then best == centre
    else
      && lo <= best <= hi
      && (forall y :: lo <= y <= hi ==> f(y) <= f(best))
      && forall y :: lo <= y < best ==> f(y) < f(best)
  }

  function Darkness(image: Image, x: int): int -> real
    requires image.Valid()
  {
    y => Darkening(image, x, y)
  }

  /** The column of ground values the search reads. */
  method ColumnOf(image: Image, x: int, lo: int, hi: int) returns (column: seq<real>)
    requires image.Valid()
    ensures |column| == if hi - lo + 9 >= 0 then hi - lo + 9 else 0
    ensures IsColumn(image, x, lo - 4, column)
  {
    column := [];
    var y := lo - 4;
    while y <= hi + 4
      invariant lo - 4 <= y && (y <= hi + 5 || y == lo - 4) && |column| == y - (lo - 4)
      invariant IsColumn(image, x, lo - 4, column)
    {
      var ground := GroundAt(image, x, y);
      column := column + [ground];
      y := y + 1;
    }
  }

  function Change(column: seq<real>, k: int): real
    requires 4 <= k < |column| - 4
  {
    column[k - 4] + column[k - 3] + column[k - 2] + column[k - 1] - column[k + 1] - column[k + 2] - column[k + 3] - column[k + 4]
  }

  /** A column of ground values, read from row `top` down. */
  ghost predicate IsColumn(image: Image, x: int, top: int, column: seq<real>)
    requires image.Valid()
  {
    forall k :: 0 <= k < |column| ==> column[k] == Ground(image, x, top + k)
  }

  /** The change read from the column at a row is `f` there. */
  ghost predicate ChangeIs(f: int -> real, top: int, column: seq<real>, y: int) {
    4 <= y - top < |column| - 4 && Change(column, y - top) == f(y)
  }

  lemma ChangeIsDarkening(image: Image, x: int, top: int, column: seq<real>, y: int)
    requires image.Valid() && IsColumn(image, x, top, column) && 4 <= y - top < |column| - 4
    ensures ChangeIs(Darkness(image, x), top, column, y)
  {
  }

  method BestRow(column: seq<real>, centre: int, lo: int, hi: int, ghost f: int -> real, ghost top: int) returns (best: int)
    requires top == lo - 4 && forall y :: lo <= y <= hi ==> ChangeIs(f, top, column, y)
    ensures FirstGreatest(f, lo, hi, centre, best)
  {
    best := centre;
    var drop: Option<real> := None;
    var y := lo;
    while y <= hi
      invariant lo <= y && (y <= hi + 1 || y == lo)
      invariant y == lo ==> drop.None? && best == centre
      invariant y > lo ==> FirstGreatest(f, lo, y - 1, centre, best) && drop == Some(f(best))
    {
      assert ChangeIs(f, top, column, y);
      var change := Change(column, y - (lo - 4));
      if drop.None? || change > drop.value {
        drop := Some(change);
        best := y;
      }
      y := y + 1;
    }
  }

  /** The row of column `x` to darken most, the first of them. */
  method RowAt(image: Image, x: int, centre: int, lo: int, hi: int) returns (best: int)
    requires image.Valid()
    ensures FirstGreatest(Darkness(image, x), lo, hi, centre, best)
  {
    var column := ColumnOf(image, x, lo, hi);
    ghost var f, top := Darkness(image, x), lo - 4;
    forall y | lo <= y <= hi ensures ChangeIs(f, top, column, y) {
      ChangeIsDarkening(image, x, top, column, y);
    }
    best := BestRow(column, centre, lo, hi, f, top);
  }

  // ---------------------------------------------------------------- the whole ridge

  function Previous(rows: seq<int>, k: nat): Option<int>
    requires k <= |rows|
  {
    if k == 0 then None else Some(rows[k - 1])
  }

  /** Row `k` is the traced one, given the row before it. */
  ghost predicate Traced(image: Image, guess: int -> int, from: int, reach: int, rows: seq<int>, k: nat)
    requires image.Valid() && k < |rows|
  {
    var centre, previous := guess(from + k), Previous(rows, k);
    FirstGreatest(Darkness(image, from + k), Low(centre, reach, previous), High(centre, reach, previous), centre, rows[k])
  }

  ghost predicate TracedAll(image: Image, guess: int -> int, from: int, reach: int, rows: seq<int>)
    requires image.Valid()
  {
    forall k :: 0 <= k < |rows| ==> Traced(image, guess, from, reach, rows, k)
  }

  /** Five neighbouring rows, clamped to the ends. */
  function Neighbours(rows: seq<int>, k: nat): seq<real>
    requires k < |rows|
  {
    [rows[Clamp(k - 2, |rows|)] as real, rows[Clamp(k - 1, |rows|)] as real, rows[k] as real, rows[Clamp(k + 1, |rows|)] as real, rows[Clamp(k + 2, |rows|)] as real]
  }

  lemma TracedAppend(image: Image, guess: int -> int, from: int, reach: int, rows: seq<int>, best: int)
    requires image.Valid() && TracedAll(image, guess, from, reach, rows)
    requires var centre, previous := guess(from + |rows|), Previous(rows, |rows|);
      FirstGreatest(Darkness(image, from + |rows|), Low(centre, reach, previous), High(centre, reach, previous), centre, best)
    ensures TracedAll(image, guess, from, reach, rows + [best])
  {
    var now := rows + [best];
    forall k | 0 <= k < |now| ensures Traced(image, guess, from, reach, now, k) {
      assert Previous(now, k) == Previous(rows, k);
      if k < |rows| {
        assert Traced(image, guess, from, reach, rows, k);
      }
    }
  }

  /** The next column's row, near its guess and the row before. */
  method TraceColumn(image: Image, guess: int -> int, from: int, reach: int, x: int, previous: Option<int>, ghost rows: seq<int>) returns (best: int)
    requires image.Valid() && TracedAll(image, guess, from, reach, rows) && x == from + |rows| && previous == Previous(rows, |rows|)
    ensures TracedAll(image, guess, from, reach, rows + [best])
  {
    var centre := guess(x);
    best := RowAt(image, x, centre, Low(centre, reach, previous), High(centre, reach, previous));
    TracedAppend(image, guess, from, reach, rows, best);
  }

  /** `traceRidge`, the guess already rounded: the rows traced, and their five-column medians. */
  method TraceRidge(image: Image, guess: int -> int, from: int, to: int, reach: int) returns (smoothed: array<real>, ghost rows: seq<int>)
    requires image.Valid() && from <= to + 1
    ensures |rows| == smoothed.Length == to - from + 1 && TracedAll(image, guess, from, reach, rows)
    ensures forall k :: 0 <= k < |rows| ==> smoothed[k] == Median(Neighbours(rows, k))
  {
    var out := new int[to - from + 1];
    var previous: Option<int> := None;
    for x := from to to + 1
      invariant previous == Previous(out[..x - from], x - from) && TracedAll(image, guess, from, reach, out[..x - from])
    {
      var best := TraceColumn(image, guess, from, reach, x, previous, out[..x - from]);
      out[x - from] := best;
      assert out[..x - from + 1] == out[..x - from] + [best];
      previous := Some(best);
    }
    rows := out[..];
    assert rows == out[..to - from + 1];
    smoothed := Smooth(out);
  }

  /** Each row becomes the middle one of its five neighbours. */
  method Smooth(out: array<int>) returns (smoothed: array<real>)
    ensures fresh(smoothed) && smoothed.Length == out.Length
    ensures forall k :: 0 <= k < out.Length ==> smoothed[k] == Median(Neighbours(out[..], k))
  {
    smoothed := new real[out.Length];
    for k := 0 to out.Length
      invariant forall j :: 0 <= j < k ==> smoothed[j] == Median(Neighbours(out[..], j))
    {
      var window: seq<real> := [];
      for d: int := -2 to 3
        invariant |window| == d + 2 && forall j :: 0 <= j < |window| ==> window[j] == out[Clamp(k - 2 + j, out.Length)] as real
      {
        window := window + [out[Clamp(k + d, out.Length)] as real];
      }
      assert window == Neighbours(out[..], k);
      SortIs(window, 0.0);
      smoothed[k] := Sort(window)[2];
    }
  }

  // ---------------------------------------------------------------- what a trace is

  // Every traced row is within `reach` of its guess, and within five rows of the one before exactly when the two intervals meet;
  // where they do not it is the guess itself.
  lemma TraceStaysClose(image: Image, guess: int -> int, from: int, reach: nat, rows: seq<int>, k: nat)
    requires image.Valid() && TracedAll(image, guess, from, reach, rows) && k < |rows|
    ensures 0 - reach <= rows[k] - guess(from + k) <= reach
    ensures k > 0 ==> (-5 <= rows[k] - rows[k - 1] <= 5 <==> 0 - reach - 5 <= guess(from + k) - rows[k - 1] <= reach + 5)
    ensures k > 0 && !(0 - reach - 5 <= guess(from + k) - rows[k - 1] <= reach + 5) ==> rows[k] == guess(from + k)
  {
    assert Traced(image, guess, from, reach, rows, k);
  }

  // A median of five takes out a single spike: when four of the five neighbours lie in a range, so does the smoothed row.
  lemma {:induction false} SpikeTakenOut(s: seq<real>, lo: real, hi: real, spike: nat)
    requires |s| == 5 && spike < 5 && forall k :: 0 <= k < 5 && k != spike ==> lo <= s[k] <= hi
    ensures lo <= Median(s) <= hi
  {
    MedianRank(s);
    var m := Median(s);
    assert s == [s[0], s[1], s[2], s[3], s[4]];
    CountFive(s, m);
  }

  /** The traced row `d` columns from column `k`, the first or the last one's past the ends. */
  function Beside(rows: seq<int>, k: nat, d: int): int
    requires k < |rows|
  {
    if k + d < 0 then rows[0] else if k + d < |rows| then rows[k + d] else rows[|rows| - 1]
  }

  // A single column that jumps does not show: when the other four within two columns lie in a range, so does the smoothed row.
  lemma SpikeSmoothed(rows: seq<int>, k: nat, lo: int, hi: int, spike: int)
    requires k < |rows| && -2 <= spike <= 2 && forall d :: -2 <= d <= 2 && d != spike ==> lo <= Beside(rows, k, d) <= hi
    ensures lo as real <= Median(Neighbours(rows, k)) <= hi as real
  {
    var s := Neighbours(rows, k);
    assert s[0] == Beside(rows, k, -2) as real && s[1] == Beside(rows, k, -1) as real && s[2] == Beside(rows, k, 0) as real;
    assert s[3] == Beside(rows, k, 1) as real && s[4] == Beside(rows, k, 2) as real;
    SpikeTakenOut(s, lo as real, hi as real, spike + 2);
  }

  lemma CountFive(s: seq<real>, v: real)
    requires |s| == 5
    ensures Below(s, v) == (if s[0] < v then 1 else 0) + (if s[1] < v then 1 else 0) + (if s[2] < v then 1 else 0) + (if s[3] < v then 1 else 0) + (if s[4] < v then 1 else 0)
    ensures Above(s, v) == (if s[0] > v then 1 else 0) + (if s[1] > v then 1 else 0) + (if s[2] > v then 1 else 0) + (if s[3] > v then 1 else 0) + (if s[4] > v then 1 else 0)
  {
    assert s[..5] == s && s[..5][..4] == s[..4] && s[..4][..3] == s[..3] && s[..3][..2] == s[..2] && s[..2][..1] == s[..1] && s[..1][..0] == [];
    assert Below(s[..1], v) == (if s[0] < v then 1 else 0) && Above(s[..1], v) == (if s[0] > v then 1 else 0);
    assert Below(s[..2], v) == Below(s[..1], v) + (if s[1] < v then 1 else 0);
    assert Below(s[..3], v) == Below(s[..2], v) + (if s[2] < v then 1 else 0);
    assert Below(s[..4], v) == Below(s[..3], v) + (if s[3] < v then 1 else 0);
    assert Above(s[..2], v) == Above(s[..1], v) + (if s[1] > v then 1 else 0);
    assert Above(s[..3], v) == Above(s[..2], v) + (if s[2] > v then 1 else 0);
    assert Above(s[..4], v) == Above(s[..3], v) + (if s[3] > v then 1 else 0);
  }

  // ---------------------------------------------------------------- a painted edge

  function BrightnessOf(p: BandedScan.Pixel): real {
    0.3 * p.r as real + 0.6 * p.g as real + 0.1 * p.b as real
  }

  /** Every pixel above row `edge` is as bright as `above`, and every other as `below`, which is darker. */
  ghost predicate TwoTone(image: Image, edge: int, above: real, below: real)
    requires image.Valid()
  {
    && 1 <= edge < image.h && above > below
    && forall k :: 0 <= k < |image.pixels| ==> BrightnessOf(image.pixels[k]) == if k < edge * image.w then above else below
  }

  lemma RowSide(w: nat, edge: nat, x: nat, y: nat)
    requires x < w
    ensures y * w + x < edge * w <==> y < edge
  {
    if y < edge {
      Separable.RowMajor(w, edge, x, y);
    } else {
      assert (y - edge) * w >= 0;
      assert y * w == edge * w + (y - edge) * w;
    }
  }

  lemma ToneAt(image: Image, edge: int, above: real, below: real, x: int, y: int)
    requires image.Valid() && TwoTone(image, edge, above, below)
    ensures LuminanceAt(image, x, y) == if y < edge then above else below
  {
    var k := BrightnessAt(image, x, y);
  }

  /** A place's luminance is its pixel's brightness, outside the image that of the nearest one. */
  lemma BrightnessAt(image: Image, x: int, y: int) returns (k: nat)
    requires image.Valid()
    ensures k < |image.pixels| && LuminanceAt(image, x, y) == BrightnessOf(image.pixels[k])
    ensures k == (if y < 0 then 0 else if y < image.h then y else image.h - 1) * image.w + if x < 0 then 0 else if x < image.w then x else image.w - 1
    ensures forall edge :: 1 <= edge < image.h ==> (k < edge * image.w <==> y < edge)
  {
    var cx, cy := if x < 0 then 0 else if x < image.w then x else image.w - 1, if y < 0 then 0 else if y < image.h then y else image.h - 1;
    Separable.RowMajor(image.w, image.h, cx, cy);
    k := cy * image.w + cx;
    forall edge | 1 <= edge < image.h ensures k < edge * image.w <==> y < edge {
      RowSide(image.w, edge, cx, cy);
    }
  }

  lemma GroundTone(image: Image, edge: int, above: real, below: real, x: int, y: int)
    requires image.Valid() && TwoTone(image, edge, above, below)
    ensures Ground(image, x, y) == if y < edge then above else below
  {
    forall u ensures LuminanceAt(image, u, y) == if y < edge then above else below {
      ToneAt(image, edge, above, below, u, y);
    }
    MedianRank(Across(image, x, y));
  }

  lemma DarkeningTone(image: Image, edge: int, above: real, below: real, x: int, y: int)
    requires image.Valid() && TwoTone(image, edge, above, below)
    ensures Darkening(image, x, y) <= 4.0 * (above - below)
    ensures Darkening(image, x, y) == 4.0 * (above - below) <==> edge - 1 <= y <= edge
  {
    forall v ensures Ground(image, x, v) == if v < edge then above else below {
      GroundTone(image, edge, above, below, x, v);
    }
  }

  // The greatest value at two neighbouring rows: the first of them is found.
  lemma FirstOfTwo(f: int -> real, lo: int, hi: int, centre: int, best: int, row: int, top: real)
    requires FirstGreatest(f, lo, hi, centre, best) && lo <= row <= hi && GreatestTwice(f, row, top)
    ensures best == row
  {
    assert f(row) == top && f(row) <= f(best) <= top;
    assert row < best ==> f(row) < f(best);
  }

  lemma IntervalHolds(centre: int, reach: nat, previous: Option<int>, row: int)
    requires 0 - reach <= centre - row <= reach && (previous.None? || previous.value == row)
    ensures Low(centre, reach, previous) <= row <= High(centre, reach, previous)
  {
  }

  lemma TracedRow(image: Image, guess: int -> int, from: int, reach: nat, rows: seq<int>, k: nat, row: int, top: real)
    requires image.Valid() && k < |rows| && Traced(image, guess, from, reach, rows, k) && GreatestTwice(Darkness(image, from + k), row, top)
    requires 0 - reach <= guess(from + k) - row <= reach && (k > 0 ==> rows[k - 1] == row)
    ensures rows[k] == row
  {
    var f, centre, previous := Darkness(image, from + k), guess(from + k), Previous(rows, k);
    IntervalHolds(centre, reach, previous, row);
    FirstOfTwo(f, Low(centre, reach, previous), High(centre, reach, previous), centre, rows[k], row, top);
  }

  /** `top` is the greatest value, at the row and the next alone. */
  ghost predicate GreatestTwice(f: int -> real, row: int, top: real) {
    forall y :: f(y) <= top && (f(y) == top <==> row <= y <= row + 1)
  }

  lemma EdgeDarkest(image: Image, edge: int, above: real, below: real, x: int)
    requires image.Valid() && TwoTone(image, edge, above, below)
    ensures GreatestTwice(Darkness(image, x), edge - 1, 4.0 * (above - below))
  {
    forall y ensures Darkening(image, x, y) <= 4.0 * (above - below) && (Darkening(image, x, y) == 4.0 * (above - below) <==> edge - 1 <= y <= edge) {
      DarkeningTone(image, edge, above, below, x, y);
    }
  }

  /** In every column the ground darkens most at the row and the next. */
  ghost predicate DarkestAt(image: Image, row: int, top: real)
    requires image.Valid()
  {
    forall x :: GreatestTwice(Darkness(image, x), row, top)
  }

  lemma {:induction false} RowTraced(image: Image, guess: int -> int, from: int, reach: nat, rows: seq<int>, row: int, top: real, k: nat)
    requires image.Valid() && k < |rows| && DarkestAt(image, row, top)
    requires TracedAll(image, guess, from, reach, rows) && forall x :: 0 - reach <= guess(x) - row <= reach
    ensures rows[k] == row
  {
    if k > 0 {
      RowTraced(image, guess, from, reach, rows, row, top, k - 1);
    }
    assert Traced(image, guess, from, reach, rows, k);
    TracedRow(image, guess, from, reach, rows, k, row, top);
  }

  // A straight painted edge is traced: where every guess is within `reach` of the last bright row, every traced row is that row.
  lemma EdgeTraced(image: Image, guess: int -> int, from: int, reach: nat, rows: seq<int>, edge: int, above: real, below: real, k: nat)
    requires image.Valid() && TracedAll(image, guess, from, reach, rows) && TwoTone(image, edge, above, below) && k < |rows|
    requires forall x :: 0 - reach <= guess(x) - (edge - 1) <= reach
    ensures rows[k] == edge - 1
  {
    var top := 4.0 * (above - below);
    forall x ensures GreatestTwice(Darkness(image, x), edge - 1, top) {
      EdgeDarkest(image, edge, above, below, x);
    }
    RowTraced(image, guess, from, reach, rows, edge - 1, top, k);
  }
}
