/**
 * Box and max filters over a picture held row by row in one array: two strided passes with a running sum, and the
 * direct filter over the clamped square they amount to. Exact reals stand for the program's 32-bit floats.
 */
module Separable {
  /** A picture as its value at column x and row y. */
  type Raster = (int, int) -> real

  function Clamp(k: int, n: int): int
  {
    if k < 0 then 0 else if k >= n then n - 1 else k
  }

  function Larger(a: real, b: real): real {
    if a < b then b else a
  }

  // ---------------------------------------------------------------- the direct filter

  /** Row `y` summed over columns [lo, hi), each clamped into the picture. */
  function RowSum(f: Raster, w: int, y: int, lo: int, hi: int): real
    decreases hi - lo
  {
    if hi <= lo then 0.0 else RowSum(f, w, y, lo, hi - 1) + f(Clamp(hi - 1, w), y)
  }

  /** The rectangle of columns [lo, hi) and rows [top, end), each clamped into the picture, summed. */
  function RectSum(f: Raster, w: int, h: int, lo: int, hi: int, top: int, end: int): real
    decreases end - top
  {
    if end <= top then 0.0 else RectSum(f, w, h, lo, hi, top, end - 1) + RowSum(f, w, Clamp(end - 1, h), lo, hi)
  }

  /** The largest of 0 and row `y`'s values at columns [lo, hi). */
  function RowMax(f: Raster, y: int, lo: int, hi: int): real
    decreases hi - lo
  {
    if hi <= lo then 0.0 else Larger(RowMax(f, y, lo, hi - 1), f(hi - 1, y))
  }

  function RectMax(f: Raster, lo: int, hi: int, top: int, end: int): real
    decreases end - top
  {
    if end <= top then 0.0 else Larger(RectMax(f, lo, hi, top, end - 1), RowMax(f, end - 1, lo, hi))
  }

  function From(i: int, r: int): int {
    if i < r then 0 else i - r
  }

  function Till(i: int, r: int, n: int): int {
    if i + r + 1 > n then n else i + r + 1
  }

  function Side(r: nat): real {
    (2 * r + 1) as real
  }

  /** The average over the clamped (2r+1)-square about a pixel; with `max`, the maximum over the truncated square. */
  function FilterAt(f: Raster, w: int, h: int, r: nat, max: bool, x: int, y: int): real {
    if max then RectMax(f, From(x, r), Till(x, r, w), From(y, r), Till(y, r, h))
    else RectSum(f, w, h, x - r, x + r + 1, y - r, y + r + 1) / Side(r) / Side(r)
  }

  function Filter(f: Raster, w: int, h: int, r: nat, max: bool): Raster {
    (x, y) => FilterAt(f, w, h, r, max, x, y)
  }

  ghost predicate InSquare(w: int, h: int, r: nat, x: int, y: int, u: int, v: int) {
    0 <= u < w && 0 <= v < h && x - r <= u <= x + r && y - r <= v <= y + r
  }

  ghost predicate Within(lo: int, hi: int, u: int) {
    lo <= u < hi
  }

  lemma {:induction false} RowMaxBounds(f: Raster, y: int, lo: int, hi: int)
    ensures RowMax(f, y, lo, hi) >= 0.0
    ensures forall u :: Within(lo, hi, u) ==> f(u, y) <= RowMax(f, y, lo, hi)
    ensures RowMax(f, y, lo, hi) > 0.0 ==> exists u :: Within(lo, hi, u) && f(u, y) == RowMax(f, y, lo, hi)
    decreases hi - lo
  {
    if lo < hi {
      RowMaxBounds(f, y, lo, hi - 1);
      assert Within(lo, hi, hi - 1);
      if RowMax(f, y, lo, hi - 1) > 0.0 {
        var u :| Within(lo, hi - 1, u) && f(u, y) == RowMax(f, y, lo, hi - 1);
        assert Within(lo, hi, u);
      }
    }
  }

  lemma {:induction false} RectMaxBounds(f: Raster, lo: int, hi: int, top: int, end: int)
    ensures RectMax(f, lo, hi, top, end) >= 0.0
    ensures forall u, v :: Within(lo, hi, u) && Within(top, end, v) ==> f(u, v) <= RectMax(f, lo, hi, top, end)
    ensures RectMax(f, lo, hi, top, end) > 0.0 ==>
      exists u, v :: Within(lo, hi, u) && Within(top, end, v) && f(u, v) == RectMax(f, lo, hi, top, end)
    decreases end - top
  {
    if top < end {
      RectMaxBounds(f, lo, hi, top, end - 1);
      RowMaxBounds(f, end - 1, lo, hi);
      assert Within(top, end, end - 1);
      if RectMax(f, lo, hi, top, end - 1) > 0.0 {
        var u, v :| Within(lo, hi, u) && Within(top, end - 1, v) && f(u, v) == RectMax(f, lo, hi, top, end - 1);
        assert Within(top, end, v);
      }
    }
  }

  /** `m` is the maximum of the picture over the truncated square about a pixel. */
  ghost predicate IsMaximum(f: Raster, w: int, h: int, r: nat, x: int, y: int, m: real) {
    && (forall u, v :: InSquare(w, h, r, x, y, u, v) ==> f(u, v) <= m)
    && exists u, v :: InSquare(w, h, r, x, y, u, v) && f(u, v) == m
  }

  // The max filter starts from 0, so it gives the square's maximum exactly where the square holds no negative
  // maximum.
  lemma MaxExactly(f: Raster, w: int, h: int, r: nat, x: int, y: int)
    requires 0 <= x < w && 0 <= y < h
    ensures IsMaximum(f, w, h, r, x, y, FilterAt(f, w, h, r, true, x, y)) <==>
      exists u, v :: InSquare(w, h, r, x, y, u, v) && f(u, v) >= 0.0
  {
    var lo, hi, top, end := From(x, r), Till(x, r, w), From(y, r), Till(y, r, h);
    var m := FilterAt(f, w, h, r, true, x, y);
    RectMaxBounds(f, lo, hi, top, end);
    assert forall u, v :: InSquare(w, h, r, x, y, u, v) <==> Within(lo, hi, u) && Within(top, end, v);
    if m > 0.0 {
      var u, v :| Within(lo, hi, u) && Within(top, end, v) && f(u, v) == m;
      assert InSquare(w, h, r, x, y, u, v);
    }
  }

  // ---------------------------------------------------------------- one line

  /** A line summed over positions [lo, hi), each clamped into it. */
  function LineSum(line: seq<real>, lo: int, hi: int): real
    requires line != []
    decreases hi - lo
  {
    if hi <= lo then 0.0 else LineSum(line, lo, hi - 1) + line[Clamp(hi - 1, |line|)]
  }

  function LineMax(line: seq<real>, lo: nat, hi: nat): real
    requires hi <= |line|
    decreases hi - lo
  {
    if hi <= lo then 0.0 else Larger(LineMax(line, lo, hi - 1), line[hi - 1])
  }

  /** What one pass leaves at position `i` of a line. */
  function Swept(line: seq<real>, r: nat, max: bool, i: nat): real
    requires i < |line|
  {
    if max then LineMax(line, From(i, r), Till(i, r, |line|))
    else LineSum(line, i - r, i + r + 1) / Side(r)
  }

  // The window moves on by dropping the value it leaves and adding the one it meets.
  lemma {:induction false} LineSumFront(line: seq<real>, lo: int, hi: int)
    requires line != [] && lo < hi
    ensures LineSum(line, lo, hi) == line[Clamp(lo, |line|)] + LineSum(line, lo + 1, hi)
    decreases hi - lo
  {
    if lo + 1 < hi {
      LineSumFront(line, lo, hi - 1);
    } else {
      assert LineSum(line, lo, lo) == 0.0;
    }
  }

  // ---------------------------------------------------------------- strided lines in one array

  /** How lines lie in the array: line l's position i is at l * stride + i * step. */
  datatype Layout = Layout(length: nat, lines: nat, step: nat, stride: nat) {
    /** The two layouts in use: rows (step 1) and columns (stride 1) of one picture. */
    ghost predicate Valid() {
      && length > 0 && lines > 0
      && ((step == 1 && stride == length) || (stride == 1 && step == lines))
    }

    function Size(): nat { length * lines }

    function Cell(l: nat, i: nat): nat { l * stride + i * step }
  }

  lemma RowMajor(w: nat, h: nat, x: nat, y: nat)
    requires x < w && y < h
    ensures x + y * w < h * w && h * w == w * h
  {
    assert y * w <= (h - 1) * w;
    assert (h - 1) * w + w == h * w;
  }

  lemma CellInBounds(lay: Layout, l: nat, i: nat)
    requires lay.Valid() && l < lay.lines && i < lay.length
    ensures lay.Cell(l, i) < lay.Size()
  {
    if lay.step == 1 && lay.stride == lay.length {
      RowMajor(lay.length, lay.lines, i, l);
    } else {
      RowMajor(lay.lines, lay.length, l, i);
    }
  }

  lemma TimesGrows(w: nat, y: nat, v: nat)
    requires y < v
    ensures y * w + w <= v * w
  {
    assert v * w == y * w + (v - y) * w;
    assert (v - y) * w == w + (v - y - 1) * w;
  }

  lemma RowMajorApart(w: nat, x: nat, y: nat, u: nat, v: nat)
    requires x < w && u < w && x + y * w == u + v * w
    ensures x == u && y == v
  {
    if y < v {
      TimesGrows(w, y, v);
    } else if v < y {
      TimesGrows(w, v, y);
    }
  }

  lemma CellsApart(lay: Layout, l: nat, i: nat, m: nat, j: nat)
    requires lay.Valid() && l < lay.lines && i < lay.length && m < lay.lines && j < lay.length
    requires lay.Cell(l, i) == lay.Cell(m, j)
    ensures l == m && i == j
  {
    if lay.step == 1 && lay.stride == lay.length {
      RowMajorApart(lay.length, i, l, j, m);
    } else {
      RowMajorApart(lay.lines, l, i, m, j);
    }
  }

  /** One line of the array. */
  function Line(s: seq<real>, lay: Layout, l: nat): (line: seq<real>)
    requires lay.Valid() && |s| == lay.Size() && l < lay.lines
    ensures |line| == lay.length
  {
    seq(lay.length, i requires 0 <= i < lay.length => (CellInBounds(lay, l, i); s[lay.Cell(l, i)]))
  }

  /** The array as its lines. */
  function Lines(s: seq<real>, lay: Layout): (lines: seq<seq<real>>)
    requires lay.Valid() && |s| == lay.Size()
    ensures |lines| == lay.lines && forall l :: 0 <= l < |lines| ==> |lines[l]| == lay.length
  {
    seq(lay.lines, l requires 0 <= l < lay.lines => Line(s, lay, l))
  }

  lemma CellRead(s: seq<real>, lay: Layout, l: nat, i: nat)
    requires lay.Valid() && |s| == lay.Size() && l < lay.lines && i < lay.length
    ensures lay.Cell(l, i) < |s| && Lines(s, lay)[l][i] == s[lay.Cell(l, i)]
  {
    CellInBounds(lay, l, i);
  }

  // Writing one cell changes one position of one line.
  lemma CellWritten(s: seq<real>, lay: Layout, l: nat, i: nat, v: real)
    requires lay.Valid() && |s| == lay.Size() && l < lay.lines && i < lay.length
    ensures lay.Cell(l, i) < |s|
    ensures Lines(s[lay.Cell(l, i) := v], lay) == Lines(s, lay)[l := Lines(s, lay)[l][i := v]]
  {
    CellInBounds(lay, l, i);
    var now, was := s[lay.Cell(l, i) := v], Lines(s, lay);
    forall m: nat | m < lay.lines ensures Lines(now, lay)[m] == was[l := was[l][i := v]][m] {
      forall j: nat | j < lay.length ensures Lines(now, lay)[m][j] == was[l := was[l][i := v]][m][j] {
        CellRead(now, lay, m, j);
        CellRead(s, lay, m, j);
        if lay.Cell(m, j) == lay.Cell(l, i) {
          CellsApart(lay, m, j, l, i);
        }
      }
    }
  }

  /** The first `n` positions of a line hold what the pass leaves there. */
  ghost predicate LineDone(line: seq<real>, now: seq<real>, r: nat, max: bool, n: nat) {
    n <= |line| == |now| && forall i :: 0 <= i < n ==> now[i] == Swept(line, r, max, i)
  }

  /** The first `n` lines are done. */
  ghost predicate LinesDone(src: seq<seq<real>>, dst: seq<seq<real>>, r: nat, max: bool, n: nat) {
    n <= |src| == |dst| && forall l :: 0 <= l < n ==> LineDone(src[l], dst[l], r, max, |src[l]|)
  }

  /** The lines before `l` are done, and the first `n` positions of line `l`. */
  ghost predicate DoneTo(src: seq<real>, dst: seq<real>, lay: Layout, r: nat, max: bool, l: nat, n: nat) {
    && lay.Valid() && |src| == |dst| == lay.Size()
    && LinesDone(Lines(src, lay), Lines(dst, lay), r, max, l)
    && l < lay.lines && LineDone(Lines(src, lay)[l], Lines(dst, lay)[l], r, max, n)
  }

  /** Writes the next position of a line. */
  method Put(dst: array<real>, lay: Layout, l: nat, i: nat, v: real, ghost src: seq<real>, ghost r: nat, ghost max: bool)
    requires DoneTo(src, dst[..], lay, r, max, l, i) && i < lay.length
    modifies dst
    ensures v == Swept(Lines(src, lay)[l], r, max, i) ==> DoneTo(src, dst[..], lay, r, max, l, i + 1)
  {
    CellWritten(dst[..], lay, l, i, v);
    dst[l * lay.stride + i * lay.step] := v;
  }

  /** The largest of 0 and the window's values about position `i`. */
  method WindowMax(src: array<real>, lay: Layout, r: nat, l: nat, i: nat) returns (m: real)
    requires lay.Valid() && src.Length == lay.Size() && l < lay.lines && i < lay.length
    ensures m == Swept(Lines(src[..], lay)[l], r, true, i)
  {
    m := 0.0;
    var start, end := From(i, r), Till(i, r, lay.length);
    for k := start to end
      invariant m == LineMax(Lines(src[..], lay)[l], start, k)
    {
      CellRead(src[..], lay, l, k);
      m := Larger(m, src[l * lay.stride + k * lay.step]);
    }
  }

  /** The sum over the window about the line's first position. */
  method FirstSum(src: array<real>, lay: Layout, r: nat, l: nat) returns (sum: real)
    requires lay.Valid() && src.Length == lay.Size() && l < lay.lines
    ensures sum == LineSum(Lines(src[..], lay)[l], 0 - r, r + 1)
  {
    sum := 0.0;
    for k: int := 0 - r to r + 1
      invariant sum == LineSum(Lines(src[..], lay)[l], 0 - r, k)
    {
      CellRead(src[..], lay, l, Clamp(k, lay.length));
      sum := sum + src[l * lay.stride + Clamp(k, lay.length) * lay.step];
    }
  }

  /** The window's sum moved on by one position: the value it meets comes in, the one it leaves goes out. */
  method NextSum(src: array<real>, lay: Layout, r: nat, l: nat, i: nat, sum: real) returns (moved: real)
    requires lay.Valid() && src.Length == lay.Size() && l < lay.lines && i < lay.length
    requires sum == LineSum(Lines(src[..], lay)[l], i - r, i + r + 1)
    ensures moved == LineSum(Lines(src[..], lay)[l], i + 1 - r, i + r + 2)
  {
    var met, left := if lay.length - 1 < i + r + 1 then lay.length - 1 else i + r + 1, From(i, r);
    CellRead(src[..], lay, l, met);
    CellRead(src[..], lay, l, left);
    LineSumFront(Lines(src[..], lay)[l], i - r, i + r + 2);
    moved := sum + src[l * lay.stride + met * lay.step] - src[l * lay.stride + left * lay.step];
  }

  /** One line of the max pass. */
  method MaxLine(src: array<real>, dst: array<real>, lay: Layout, r: nat, l: nat)
    requires src != dst && DoneTo(src[..], dst[..], lay, r, true, l, 0)
    modifies dst
    ensures DoneTo(src[..], dst[..], lay, r, true, l, lay.length)
  {
    for i := 0 to lay.length
      invariant DoneTo(src[..], dst[..], lay, r, true, l, i)
    {
      var m := WindowMax(src, lay, r, l, i);
      Put(dst, lay, l, i, m, src[..], r, true);
    }
  }

  /** One line of the box pass, its sum moved along with the window. */
  method BoxLine(src: array<real>, dst: array<real>, lay: Layout, r: nat, l: nat)
    requires src != dst && DoneTo(src[..], dst[..], lay, r, false, l, 0)
    modifies dst
    ensures DoneTo(src[..], dst[..], lay, r, false, l, lay.length)
  {
    var sum := FirstSum(src, lay, r, l);
    for i := 0 to lay.length
      invariant DoneTo(src[..], dst[..], lay, r, false, l, i)
      invariant sum == LineSum(Lines(src[..], lay)[l], i - r, i + r + 1)
    {
      Put(dst, lay, l, i, sum / Side(r), src[..], r, false);
      sum := NextSum(src, lay, r, l, i, sum);
    }
  }

  ghost predicate Passed(src: seq<real>, dst: seq<real>, lay: Layout, r: nat, max: bool, n: nat) {
    lay.Valid() && |src| == |dst| == lay.Size() && LinesDone(Lines(src, lay), Lines(dst, lay), r, max, n)
  }

  /** One pass along every line. */
  method Pass(src: array<real>, dst: array<real>, lay: Layout, r: nat, max: bool)
    requires lay.Valid() && src.Length == dst.Length == lay.Size() && src != dst
    modifies dst
    ensures Passed(src[..], dst[..], lay, r, max, lay.lines)
  {
    for l := 0 to lay.lines
      invariant Passed(src[..], dst[..], lay, r, max, l)
    {
      if max {
        MaxLine(src, dst, lay, r, l);
      } else {
        BoxLine(src, dst, lay, r, l);
      }
    }
  }

  // ---------------------------------------------------------------- two passes are the direct filter

  function Rows(w: nat, h: nat): Layout { Layout(w, h, 1, w) }

  function Columns(w: nat, h: nat): Layout { Layout(h, w, w, 1) }

  /** The array's picture; outside it the value does not matter. */
  function View(s: seq<real>, w: nat): Raster {
    (x, y) => if 0 <= x < w && 0 <= y && x + y * w < |s| then s[x + y * w] else 0.0
  }

  lemma ViewAt(s: seq<real>, w: nat, h: nat, x: nat, y: nat)
    requires |s| == w * h && x < w && y < h
    ensures Rows(w, h).Valid() && Columns(w, h).Valid() && |s| == Rows(w, h).Size() == Columns(w, h).Size()
    ensures Lines(s, Rows(w, h))[y][x] == View(s, w)(x, y) == Lines(s, Columns(w, h))[x][y]
  {
    RowMajor(w, h, x, y);
    assert Rows(w, h).Size() == w * h && Columns(w, h).Size() == h * w == w * h;
    CellRead(s, Rows(w, h), y, x);
    CellRead(s, Columns(w, h), x, y);
    assert Rows(w, h).Cell(y, x) == x + y * w == Columns(w, h).Cell(x, y);
  }

  /** `line` is row `y` of the picture. */
  ghost predicate IsRow(f: Raster, y: int, line: seq<real>) {
    forall u :: 0 <= u < |line| ==> line[u] == f(u, y)
  }

  lemma {:induction false} RowSumIsLineSum(f: Raster, y: int, line: seq<real>, lo: int, hi: int)
    requires line != [] && IsRow(f, y, line)
    ensures LineSum(line, lo, hi) == RowSum(f, |line|, y, lo, hi)
    decreases hi - lo
  {
    if lo < hi {
      RowSumIsLineSum(f, y, line, lo, hi - 1);
    }
  }

  lemma {:induction false} RowMaxIsLineMax(f: Raster, y: int, line: seq<real>, lo: nat, hi: nat)
    requires hi <= |line| && IsRow(f, y, line)
    ensures LineMax(line, lo, hi) == RowMax(f, y, lo, hi)
    decreases hi - lo
  {
    if lo < hi {
      RowMaxIsLineMax(f, y, line, lo, hi - 1);
    }
  }

  /** What the pass along the rows leaves at a pixel. */
  function AcrossAt(f: Raster, w: int, r: nat, max: bool, x: int, y: int): real {
    if max then RowMax(f, y, From(x, r), Till(x, r, w)) else RowSum(f, w, y, x - r, x + r + 1) / Side(r)
  }

  lemma Across(src: seq<real>, across: seq<real>, w: nat, h: nat, r: nat, max: bool, x: nat, y: nat)
    requires x < w && y < h && |src| == |across| == w * h && Passed(src, across, Rows(w, h), r, max, h)
    ensures View(across, w)(x, y) == AcrossAt(View(src, w), w, r, max, x, y)
  {
    ViewAt(across, w, h, x, y);
    var line := Lines(src, Rows(w, h))[y];
    forall u | 0 <= u < w ensures line[u] == View(src, w)(u, y) {
      ViewAt(src, w, h, u, y);
    }
    assert LineDone(line, Lines(across, Rows(w, h))[y], r, max, w);
    if max {
      RowMaxIsLineMax(View(src, w), y, line, From(x, r), Till(x, r, w));
    } else {
      RowSumIsLineSum(View(src, w), y, line, x - r, x + r + 1);
    }
  }

  lemma DivAdd(a: real, b: real, d: real)
    requires d > 0.0
    ensures (a + b) / d == a / d + b / d
  {
  }

  /** `column` is what the first pass left in column `x`. */
  ghost predicate IsColumn(f: Raster, w: int, r: nat, max: bool, x: int, column: seq<real>) {
    forall y :: 0 <= y < |column| ==> column[y] == AcrossAt(f, w, r, max, x, y)
  }

  lemma {:induction false} ColumnSum(f: Raster, w: int, r: nat, x: int, column: seq<real>, top: int, end: int)
    requires column != [] && IsColumn(f, w, r, false, x, column)
    ensures LineSum(column, top, end) == RectSum(f, w, |column|, x - r, x + r + 1, top, end) / Side(r)
    decreases end - top
  {
    if top < end {
      ColumnSum(f, w, r, x, column, top, end - 1);
      var y := Clamp(end - 1, |column|);
      DivAdd(RectSum(f, w, |column|, x - r, x + r + 1, top, end - 1), RowSum(f, w, y, x - r, x + r + 1), Side(r));
    }
  }

  lemma {:induction false} ColumnMax(f: Raster, w: int, r: nat, x: int, column: seq<real>, top: nat, end: nat)
    requires end <= |column| && IsColumn(f, w, r, true, x, column)
    ensures LineMax(column, top, end) == RectMax(f, From(x, r), Till(x, r, w), top, end)
    decreases end - top
  {
    if top < end {
      ColumnMax(f, w, r, x, column, top, end - 1);
    }
  }

  lemma ColumnSwept(f: Raster, w: int, r: nat, max: bool, x: int, column: seq<real>, y: nat)
    requires y < |column| && IsColumn(f, w, r, max, x, column)
    ensures Swept(column, r, max, y) == FilterAt(f, w, |column|, r, max, x, y)
  {
    if max {
      ColumnMax(f, w, r, x, column, From(y, r), Till(y, r, |column|));
    } else {
      ColumnSum(f, w, r, x, column, y - r, y + r + 1);
    }
  }

  // Sweeping the rows and then the columns is filtering by the square.
  lemma TwoPasses(src: seq<real>, across: seq<real>, out: seq<real>, w: nat, h: nat, r: nat, max: bool, x: nat, y: nat)
    requires x < w && y < h && |src| == |across| == |out| == w * h
    requires Passed(src, across, Rows(w, h), r, max, h) && Passed(across, out, Columns(w, h), r, max, w)
    ensures View(out, w)(x, y) == FilterAt(View(src, w), w, h, r, max, x, y)
  {
    ViewAt(out, w, h, x, y);
    var column := Lines(across, Columns(w, h))[x];
    forall v | 0 <= v < h ensures column[v] == AcrossAt(View(src, w), w, r, max, x, v) {
      ViewAt(across, w, h, x, v);
      Across(src, across, w, h, r, max, x, v);
    }
    assert LineDone(column, Lines(out, Columns(w, h))[x], r, max, h);
    ColumnSwept(View(src, w), w, r, max, x, column, y);
  }

  /** The picture `f` and the array's agree at every pixel. */
  ghost predicate Holds(s: seq<real>, w: nat, h: nat, f: Raster) {
    |s| == w * h && forall x, y :: 0 <= x < w && 0 <= y < h ==> View(s, w)(x, y) == f(x, y)
  }

  /** `separable`: the direct filter of the source, in a new array. */
  method FilterInTwoPasses(source: array<real>, w: nat, h: nat, r: nat, max: bool) returns (out: array<real>)
    requires w > 0 && h > 0 && source.Length == w * h
    ensures fresh(out) && out.Length == source.Length
    ensures Holds(out[..], w, h, Filter(View(source[..], w), w, h, r, max))
  {
    assert Rows(w, h).Size() == w * h && Columns(w, h).Size() == h * w == w * h;
    var across := new real[source.Length];
    out := new real[source.Length];
    Pass(source, across, Rows(w, h), r, max);
    Pass(across, out, Columns(w, h), r, max);
    forall x, y | 0 <= x < w && 0 <= y < h ensures View(out[..], w)(x, y) == FilterAt(View(source[..], w), w, h, r, max, x, y) {
      TwoPasses(source[..], across[..], out[..], w, h, r, max, x, y);
    }
  }

  // ---------------------------------------------------------------- locality

  /** `f`, whose row 0 is row `from` of `g`, agrees with `g` on rows [lo, hi). */
  ghost predicate AgreeOn(f: Raster, g: Raster, w: int, from: int, lo: int, hi: int) {
    forall x, y :: 0 <= x < w && lo <= y < hi ==> f(x, y - from) == g(x, y)
  }

  lemma {:induction false} RowSumLocal(f: Raster, g: Raster, w: int, y: int, z: int, lo: int, hi: int)
    requires w > 0 && forall u :: 0 <= u < w ==> f(u, y) == g(u, z)
    ensures RowSum(f, w, y, lo, hi) == RowSum(g, w, z, lo, hi)
    decreases hi - lo
  {
    if lo < hi {
      RowSumLocal(f, g, w, y, z, lo, hi - 1);
    }
  }

  lemma {:induction false} RowMaxLocal(f: Raster, g: Raster, w: int, y: int, z: int, lo: int, hi: int)
    requires 0 <= lo && hi <= w && forall u :: 0 <= u < w ==> f(u, y) == g(u, z)
    ensures RowMax(f, y, lo, hi) == RowMax(g, z, lo, hi)
    decreases hi - lo
  {
    if lo < hi {
      RowMaxLocal(f, g, w, y, z, lo, hi - 1);
    }
  }

  /** Row `v`, clamped into the whole, is the row it is in the part, clamped there, and the two agree on it. */
  ghost predicate SameRow(rows: int, h: int, from: int, lo: int, hi: int, v: int) {
    Clamp(v - from, rows) + from == Clamp(v, h) && lo <= Clamp(v, h) < hi
  }

  lemma {:induction false} RectSumLocal(f: Raster, g: Raster, w: int, rows: int, h: int, from: int, lo: int, hi: int, left: int, right: int, top: int, end: int)
    requires w > 0 && AgreeOn(f, g, w, from, lo, hi)
    requires forall v :: top <= v < end ==> SameRow(rows, h, from, lo, hi, v)
    ensures RectSum(f, w, rows, left, right, top - from, end - from) == RectSum(g, w, h, left, right, top, end)
    decreases end - top
  {
    if top < end {
      RectSumLocal(f, g, w, rows, h, from, lo, hi, left, right, top, end - 1);
      assert SameRow(rows, h, from, lo, hi, end - 1);
      RowSumLocal(f, g, w, Clamp(end - 1, h) - from, Clamp(end - 1, h), left, right);
    }
  }

  lemma {:induction false} RectMaxLocal(f: Raster, g: Raster, w: int, from: int, lo: int, hi: int, left: int, right: int, top: int, end: int)
    requires AgreeOn(f, g, w, from, lo, hi) && lo <= top && end <= hi && 0 <= left && right <= w
    ensures RectMax(f, left, right, top - from, end - from) == RectMax(g, left, right, top, end)
    decreases end - top
  {
    if top < end {
      RectMaxLocal(f, g, w, from, lo, hi, left, right, top, end - 1);
      RowMaxLocal(f, g, w, end - 1 - from, end - 1, left, right);
    }
  }

  lemma PixelLocal(f: Raster, g: Raster, w: int, rows: int, h: int, from: int, r: nat, max: bool, lo: int, hi: int, x: int, y: int)
    requires w > 0 && 0 <= from <= lo <= hi <= from + rows <= h && AgreeOn(f, g, w, from, lo, hi)
    requires 0 <= x < w && lo <= y < hi && (lo == 0 || lo + r <= y) && (hi == h || y + r < hi)
    ensures FilterAt(f, w, rows, r, max, x, y - from) == FilterAt(g, w, h, r, max, x, y)
  {
    if max {
      RectMaxLocal(f, g, w, from, lo, hi, From(x, r), Till(x, r, w), From(y, r), Till(y, r, h));
    } else {
      assert forall v :: y - r <= v < y + r + 1 ==> SameRow(rows, h, from, lo, hi, v);
      RectSumLocal(f, g, w, rows, h, from, lo, hi, x - r, x + r + 1, y - r, y + r + 1);
    }
  }

  // A part of the picture filters as the whole does, but for the `r` rows next to an edge the whole does not have.
  lemma FilterLocal(f: Raster, g: Raster, w: int, rows: int, h: int, from: int, r: nat, max: bool, lo: int, hi: int, lo2: int, hi2: int)
    requires w > 0 && 0 <= from <= lo <= hi <= from + rows <= h && AgreeOn(f, g, w, from, lo, hi)
    requires lo <= lo2 && hi2 <= hi && (lo == 0 || lo + r <= lo2) && (hi == h || hi2 + r <= hi)
    ensures AgreeOn(Filter(f, w, rows, r, max), Filter(g, w, h, r, max), w, from, lo2, hi2)
  {
    forall x, y | 0 <= x < w && lo2 <= y < hi2 ensures Filter(f, w, rows, r, max)(x, y - from) == Filter(g, w, h, r, max)(x, y) {
      PixelLocal(f, g, w, rows, h, from, r, max, lo, hi, x, y);
    }
  }
}
