/** A picture of which the scan keeps two glyphs less than 6 px apart: black and white stripes one pixel wide. */
module CloseGlyphs {
  import opened Options
  import opened Separable
  import opened BandedScan
  import opened GlyphFacts

  const W := 64
  const H := 14

  /** Even columns are white, odd ones black. */
  function Stripes(mountain: Raster): Picture {
    Picture(W, H, seq(W * H, i => if i % 2 == 0 then Pixel(255, 255, 255) else Pixel(0, 0, 0)), mountain)
  }

  /** Every row of the picture is `line`, on the columns [from, to). */
  ghost predicate RowsAre(f: Raster, line: int -> real, from: int, to: int) {
    forall x, y :: from <= x < to && 0 <= y < H ==> f(x, y) == line(x)
  }

  // ---------------------------------------------------------------- filters of rows that are alike

  /** Columns [lo, hi) sum to the same in every row. */
  ghost predicate SumsAre(f: Raster, lo: int, hi: int, s: real) {
    forall v :: 0 <= v < H ==> RowSum(f, W, v, lo, hi) == s
  }

  lemma {:induction false} RectOfRows(f: Raster, lo: int, hi: int, top: int, end: int, s: real)
    requires top <= end && SumsAre(f, lo, hi, s)
    ensures RectSum(f, W, H, lo, hi, top, end) == (end - top) as real * s
    decreases end - top
  {
    if top < end {
      RectOfRows(f, lo, hi, top, end - 1, s);
      assert RowSum(f, W, Clamp(end - 1, H), lo, hi) == s;
    }
  }

  lemma Cancels(d: real, s: real)
    requires d > 0.0
    ensures d * s / d == s
  {
  }

  // A box filter is then the average along one row.
  lemma BoxOfRows(f: Raster, r: nat, x: int, y: int, s: real)
    requires SumsAre(f, x - r, x + r + 1, s)
    ensures FilterAt(f, W, H, r, false, x, y) == s / Side(r)
  {
    var total := RectSum(f, W, H, x - r, x + r + 1, y - r, y + r + 1);
    RectOfRows(f, x - r, x + r + 1, y - r, y + r + 1, s);
    assert y + r + 1 - (y - r) == 2 * r + 1;
    assert total == Side(r) * s;
    Cancels(Side(r), s);
    assert total / Side(r) == s;
  }

  // ---------------------------------------------------------------- the stripes, filtered

  function Stripe(): int -> real {
    x => if x % 2 == 0 then 255.0 else 0.0
  }

  /** How many of the first `n` columns are white; each column before the first counts as the first. */
  function Whites(n: int): int {
    if n <= 0 then n else (n + 1) / 2
  }

  lemma {:induction false} StripeSum(f: Raster, v: int, lo: int, hi: int)
    requires RowsAre(f, Stripe(), 0, W) && 0 <= v < H && lo <= hi <= W
    ensures RowSum(f, W, v, lo, hi) == 255.0 * (Whites(hi) - Whites(lo)) as real
    decreases hi - lo
  {
    if lo < hi {
      StripeSum(f, v, lo, hi - 1);
      assert f(Clamp(hi - 1, W), v) == Stripe()(Clamp(hi - 1, W));
    }
  }

  /** The white columns of the 13 about a column. */
  function Near(x: int): int {
    Whites(x + 7) - Whites(x - 6)
  }

  /** The contrast in thirteenths of white. */
  function Step(x: int): int {
    if x % 2 == 0 then 13 - Near(x) else Near(x)
  }

  const THIRTEENTH := 255.0 / 13.0

  /** Contrasts by column, in thirteenths of white. */
  type Steps = int -> int

  function StripeSteps(): Steps {
    x => Step(x)
  }

  function ContrastLine(st: Steps): int -> real {
    x => THIRTEENTH * st(x) as real
  }

  /** The marks in sixty-fifths of white. */
  function Five(st: Steps, x: int): int {
    st(x - 2) + st(x - 1) + st(x) + st(x + 1) + st(x + 2)
  }

  function MarkLine(st: Steps): int -> real {
    x => THIRTEENTH * Five(st, x) as real / 5.0
  }

  lemma LumShown(mountain: Raster)
    ensures RowsAre(LumOf(PixelsOf(Stripes(mountain).pixels, W)), Stripe(), 0, W)
  {
    var pixels := Stripes(mountain).pixels;
    forall x, y | 0 <= x < W && 0 <= y < H ensures LumOf(PixelsOf(pixels, W))(x, y) == Stripe()(x) {
      RowMajor(W, H, x, y);
      assert (x + y * W) % 2 == x % 2;
      assert PixelsOf(pixels, W)(x, y) == pixels[x + y * W];
    }
  }

  lemma Thirteenths(n: int)
    ensures 255.0 * n as real / Side(6) == THIRTEENTH * n as real
  {
  }

  lemma NearSums(lum: Raster, x: int)
    requires RowsAre(lum, Stripe(), 0, W) && 0 <= x < W - 6
    ensures SumsAre(lum, x - 6, x + 7, 255.0 * Near(x) as real)
  {
    var lo, hi := x - 6, x + 7;
    forall v | 0 <= v < H ensures RowSum(lum, W, v, lo, hi) == 255.0 * Near(x) as real {
      StripeSum(lum, v, lo, hi);
    }
  }

  lemma GroundAt(lum: Raster, x: int, y: int)
    requires RowsAre(lum, Stripe(), 0, W) && 0 <= x < W - 6
    ensures FilterAt(lum, W, H, 6, false, x, y) == THIRTEENTH * Near(x) as real
  {
    NearSums(lum, x);
    BoxOfRows(lum, 6, x, y, 255.0 * Near(x) as real);
    Thirteenths(Near(x));
  }

  lemma NearBounds(x: int)
    requires 0 <= x
    ensures 0 <= Near(x) <= 13
  {
  }

  lemma ContrastOfNear(x: int, shown: real, near: int)
    requires shown == Stripe()(x) && 0 <= near <= 13
    ensures Abs(shown - THIRTEENTH * near as real) == THIRTEENTH * (if x % 2 == 0 then 13 - near else near) as real
  {
  }

  lemma ContrastAt(lum: Raster, ground: Raster, x: int, y: int)
    requires RowsAre(lum, Stripe(), 0, W) && ground == Filter(lum, W, H, 6, false) && 0 <= x < W - 6 && 0 <= y < H
    ensures Apart(lum, ground)(x, y) == ContrastLine(StripeSteps())(x)
  {
    GroundAt(lum, x, y);
    NearBounds(x);
    ContrastOfNear(x, lum(x, y), Near(x));
  }

  lemma ContrastShown(lum: Raster, ground: Raster)
    requires RowsAre(lum, Stripe(), 0, W) && ground == Filter(lum, W, H, 6, false)
    ensures RowsAre(Apart(lum, ground), ContrastLine(StripeSteps()), 0, W - 6)
  {
    forall x, y | 0 <= x < W - 6 && 0 <= y < H ensures Apart(lum, ground)(x, y) == ContrastLine(StripeSteps())(x) {
      ContrastAt(lum, ground, x, y);
    }
  }

  lemma FiveSum(f: Raster, y: int, x: int)
    requires 2 <= x && x + 2 < W
    ensures RowSum(f, W, y, x - 2, x + 3) == f(x - 2, y) + f(x - 1, y) + f(x, y) + f(x + 1, y) + f(x + 2, y)
  {
    assert RowSum(f, W, y, x - 2, x - 2) == 0.0;
    assert RowSum(f, W, y, x - 2, x - 1) == f(x - 2, y);
    assert RowSum(f, W, y, x - 2, x) == f(x - 2, y) + f(x - 1, y);
    assert RowSum(f, W, y, x - 2, x + 1) == f(x - 2, y) + f(x - 1, y) + f(x, y);
    assert RowSum(f, W, y, x - 2, x + 2) == f(x - 2, y) + f(x - 1, y) + f(x, y) + f(x + 1, y);
  }

  lemma FiveSteps(a: int, b: int, c: int, d: int, e: int)
    ensures THIRTEENTH * a as real + THIRTEENTH * b as real + THIRTEENTH * c as real + THIRTEENTH * d as real + THIRTEENTH * e as real
      == THIRTEENTH * (a + b + c + d + e) as real
  {
  }

  lemma FiveContrasts(contrast: Raster, st: Steps, x: int, y: int)
    requires RowsAre(contrast, ContrastLine(st), 0, W - 6) && 2 <= x < W - 8 && 0 <= y < H
    ensures RowSum(contrast, W, y, x - 2, x + 3) == THIRTEENTH * Five(st, x) as real
  {
    FiveSum(contrast, y, x);
    var line := ContrastLine(st);
    assert contrast(x - 2, y) == line(x - 2) && contrast(x - 1, y) == line(x - 1) && contrast(x, y) == line(x);
    assert contrast(x + 1, y) == line(x + 1) && contrast(x + 2, y) == line(x + 2);
    FiveSteps(st(x - 2), st(x - 1), st(x), st(x + 1), st(x + 2));
  }

  lemma MarkAt(contrast: Raster, st: Steps, x: int, y: int)
    requires RowsAre(contrast, ContrastLine(st), 0, W - 6) && 2 <= x < W - 8
    ensures FilterAt(contrast, W, H, 2, false, x, y) == MarkLine(st)(x)
  {
    var lo, hi, s := x - 2, x + 3, THIRTEENTH * Five(st, x) as real;
    forall v | 0 <= v < H ensures RowSum(contrast, W, v, lo, hi) == s {
      FiveContrasts(contrast, st, x, v);
    }
    BoxOfRows(contrast, 2, x, y, s);
  }

  lemma MarksShown(contrast: Raster, st: Steps)
    requires RowsAre(contrast, ContrastLine(st), 0, W - 6)
    ensures RowsAre(Filter(contrast, W, H, 2, false), MarkLine(st), 2, W - 8)
  {
    forall x, y | 2 <= x < W - 8 && 0 <= y < H ensures Filter(contrast, W, H, 2, false)(x, y) == MarkLine(st)(x) {
      MarkAt(contrast, st, x, y);
    }
  }

  /** The marks are level from column 8 on, and at 6; odd columns before that stand higher the further left they are. */
  ghost predicate Levels(st: Steps) {
    Five(st, 3) == 33 && Five(st, 5) == 32 && Five(st, 7) == 31 && Five(st, 6) == 30 && forall x :: 8 <= x ==> Five(st, x) == 30
  }

  lemma LevelStep(x: int)
    requires 6 <= x
    ensures Step(x) == 6
  {
  }

  lemma StripesLevel()
    ensures Levels(StripeSteps())
  {
    var st := StripeSteps();
    assert st(1) == 9 && st(2) == 4 && st(3) == 8 && st(4) == 5 && st(5) == 7;
    forall x | 6 <= x ensures st(x) == 6 {
      LevelStep(x);
    }
  }

  // From column 12 on every place is a peak, as high as all about it.
  lemma LevelPeaks(marks: Raster, st: Steps, x: int, y: int)
    requires RowsAre(marks, MarkLine(st), 2, W - 8) && Levels(st) && 12 <= x < W - 12 && 0 <= y < H
    ensures FilterAt(marks, W, H, 4, true, x, y) == marks(x, y) == THIRTEENTH * 6.0
  {
    var lo, hi, top, end := From(x, 4), Till(x, 4, W), From(y, 4), Till(y, 4, H);
    RectMaxBounds(marks, lo, hi, top, end);
    forall u, v | Within(lo, hi, u) && Within(top, end, v) ensures marks(u, v) == THIRTEENTH * 6.0 {
      assert marks(u, v) == MarkLine(st)(u) && Five(st, u) == 30;
    }
    assert Within(lo, hi, x) && Within(top, end, y);
  }

  // Before it none is: a column three to five to the left is higher.
  lemma NoPeaksBefore(marks: Raster, st: Steps, x: int, y: int)
    requires RowsAre(marks, MarkLine(st), 2, W - 8) && Levels(st) && 6 <= x < 12 && 0 <= y < H
    ensures FilterAt(marks, W, H, 4, true, x, y) > marks(x, y)
  {
    var lo, hi, top, end := From(x, 4), Till(x, 4, W), From(y, 4), Till(y, 4, H);
    RectMaxBounds(marks, lo, hi, top, end);
    var u := if x < 8 then 3 else if x < 10 then 5 else 7;
    assert marks(u, y) == MarkLine(st)(u) && marks(x, y) == MarkLine(st)(x);
    assert Five(st, u) > Five(st, x);
    assert Within(lo, hi, u) && Within(top, end, y);
  }

  /** The scan's sense of the stripes. */
  function SenseOfStripes(mountain: Raster): Sense {
    SenseOf(FieldsOf(Stripes(mountain).pixels, W, H), mountain)
  }

  lemma StripesMarked(mountain: Raster)
    ensures RowsAre(FieldsOf(Stripes(mountain).pixels, W, H).marks, MarkLine(StripeSteps()), 2, W - 8)
  {
    var fs := FieldsOf(Stripes(mountain).pixels, W, H);
    LumShown(mountain);
    ContrastShown(fs.lum, fs.ground);
    MarksShown(fs.contrast, StripeSteps());
  }

  lemma PeaksWhere(marks: Raster, ground: real, st: Steps, x: int, y: int)
    requires RowsAre(marks, MarkLine(st), 2, W - 8) && Levels(st) && 6 <= x < W - 12 && 0 <= y < H
    ensures IsPeak(marks(x, y), ground, FilterAt(marks, W, H, 4, true, x, y)) <==> x >= 12
  {
    if x >= 12 {
      LevelPeaks(marks, st, x, y);
    } else {
      NoPeaksBefore(marks, st, x, y);
    }
  }

  lemma StripesSensed(mountain: Raster, x: int, y: int)
    requires 6 <= x < W - 12 && 6 <= y < H - 6
    ensures SenseOfStripes(mountain)(x, y).Some? <==> x >= 12
  {
    var fs := FieldsOf(Stripes(mountain).pixels, W, H);
    StripesMarked(mountain);
    StripesLevel();
    PeaksWhere(fs.marks, fs.ground(x, y), StripeSteps(), x, y);
  }

  /** In rows 6 and 7 the peaks are, up to column 51, the places from column 12 on. */
  ghost predicate Striped(sense: Sense) {
    SensesPlaces(sense) && forall x, y :: 6 <= x < W - 12 && 6 <= y < H - 6 ==> (sense(x, y).Some? <==> x >= 12)
  }

  lemma StripesStriped(mountain: Raster)
    ensures Striped(SenseOfStripes(mountain))
  {
    SensesWhereAsked(FieldsOf(Stripes(mountain).pixels, W, H), mountain);
    forall x, y | 6 <= x < W - 12 && 6 <= y < H - 6 ensures SenseOfStripes(mountain)(x, y).Some? <==> x >= 12 {
      StripesSensed(mountain, x, y);
    }
  }

  // ---------------------------------------------------------------- the scan of the two rows

  /** The first `n` glyphs stand six apart from column 12 on, in row 6. */
  ghost predicate SixApart(found: seq<Glyph>, n: nat) {
    n <= |found| && forall i :: 0 <= i < n ==> found[i].x == 12 + 6 * i && found[i].y == 6
  }

  /** The first four of them, and after these only glyphs of row 6 to the right of column 30. */
  ghost predicate FourFound(found: seq<Glyph>) {
    SixApart(found, 4) && forall i :: 4 <= i < |found| ==> found[i].x > 30 && found[i].y == 6
  }

  // One more column of row 6: within six of the last glyph it is passed over ...
  lemma RowSixTaken(kept: Kept, x: int, n: nat)
    requires NearIsLast(kept) && |kept.found| == n > 0 && SixApart(kept.found, n) && 12 + 6 * (n - 1) < x < 12 + 6 * n
    ensures Taken(kept, x, 6)
  {
    TakenExactly(kept, x, 6);
    SmallSquare(kept.found[n - 1].x - x);
    assert LastAndCloser(kept.found, n - 1, x, 6);
  }

  // ... and at six it is not.
  lemma RowSixFree(kept: Kept, n: nat)
    requires NearIsLast(kept) && |kept.found| == n && SixApart(kept.found, n)
    ensures !Taken(kept, 12 + 6 * n, 6)
  {
    TakenExactly(kept, 12 + 6 * n, 6);
    forall i: nat | i < n ensures !Closer(kept.found[i], 12 + 6 * n, 6) {
      FarApart(kept.found[i].x - (12 + 6 * n));
    }
  }

  /** How many glyphs row 6 has before column `end`. */
  function Count(end: int): nat {
    if end <= 12 then 0 else (end - 7) / 6
  }

  ghost predicate AfterRowSix(kept: Kept, end: int) {
    NearIsLast(kept) && |kept.found| == Count(end) && SixApart(kept.found, Count(end))
  }

  lemma VisitRowSix(kept: Kept, g: Glyph, x: int)
    requires AfterRowSix(kept, x) && 12 <= x && g.x == x && g.y == 6
    ensures AfterRowSix(Visit(kept, Some(g)), x + 1)
  {
    var n := Count(x);
    if x == 12 + 6 * n {
      RowSixFree(kept, n);
      KeepNearIsLast(kept, g);
    } else {
      RowSixTaken(kept, x, n);
    }
  }

  lemma {:induction false} RowSix(sense: Sense, end: int)
    requires Striped(sense) && 6 <= end <= 31
    ensures AfterRowSix(ScanRow(sense, Kept([], map[]), 6, end), end)
    decreases end
  {
    if end > 6 {
      RowSix(sense, end - 1);
      if end - 1 >= 12 {
        VisitRowSix(ScanRow(sense, Kept([], map[]), 6, end - 1), sense(end - 1, 6).value, end - 1);
      }
    }
  }

  lemma VisitNearIsLast(kept: Kept, sensed: Option<Glyph>)
    requires NearIsLast(kept)
    ensures NearIsLast(Visit(kept, sensed))
  {
    if sensed.Some? {
      KeepNearIsLast(kept, sensed.value);
    }
  }

  lemma {:induction false} RestOfRowSix(sense: Sense, end: int)
    requires Striped(sense) && 31 <= end
    ensures var kept := ScanRow(sense, Kept([], map[]), 6, end); NearIsLast(kept) && FourFound(kept.found)
    decreases end
  {
    if end == 31 {
      RowSix(sense, 31);
    } else {
      RestOfRowSix(sense, end - 1);
      VisitNearIsLast(ScanRow(sense, Kept([], map[]), 6, end - 1), sense(end - 1, 6));
    }
  }

  // The glyphs at 12 and at 18 stay the last of their cells.
  lemma FirstTwoLast(found: seq<Glyph>, i: nat)
    requires FourFound(found) && i < 2
    ensures LastInCell(found, i)
  {
    forall j | i < j < |found| ensures CellOf(found[j]) != CellOf(found[i]) {
      assert found[j].x >= 18 + 6 * i && found[j].y == 6;
    }
  }

  // In row 7 the places up to column 23 are close to one of these.
  lemma VisitRowSeven(kept: Kept, x: int)
    requires NearIsLast(kept) && FourFound(kept.found) && 12 <= x < 24
    ensures Taken(kept, x, 7)
  {
    var i := if x < 18 then 0 else 1;
    FirstTwoLast(kept.found, i);
    SmallSquare(kept.found[i].x - x);
    assert LastAndCloser(kept.found, i, x, 7);
    TakenExactly(kept, x, 7);
  }

  lemma SmallSquare(a: int)
    requires -5 <= a <= 5
    ensures a * a <= 25
  {
    if a < 0 {
      assert a * a == (0 - a) * (0 - a) <= 5 * (0 - a);
    } else {
      assert a * a <= 5 * a;
    }
  }

  lemma NotCloser(g: Glyph, x: int, y: int)
    requires g.x - x >= 6 || g.x - x <= -6
    ensures !Closer(g, x, y)
  {
    FarApart(g.x - x);
    assert (g.y - y) * (g.y - y) >= 0;
  }

  lemma FarOrReplaced(found: seq<Glyph>, i: nat)
    requires FourFound(found) && i < |found|
    ensures !LastAndCloser(found, i, 24, 7)
  {
    if i == 2 {
      assert CellOf(found[3]) == CellOf(found[2]);
    } else {
      NotCloser(found[i], 24, 7);
    }
  }

  // At column 24 no glyph blocks: the one just above has given its cell to the one at 30, and that and the one at 18 are too far.
  lemma VisitColumn24(kept: Kept)
    requires NearIsLast(kept) && FourFound(kept.found)
    ensures !Taken(kept, 24, 7)
  {
    TakenExactly(kept, 24, 7);
    forall i: nat | i < |kept.found| ensures !LastAndCloser(kept.found, i, 24, 7) {
      FarOrReplaced(kept.found, i);
    }
  }

  lemma {:induction false} RowSeven(sense: Sense, kept: Kept, end: int)
    requires Striped(sense) && NearIsLast(kept) && FourFound(kept.found) && end <= 24
    ensures ScanRow(sense, kept, 7, end) == kept
    decreases end
  {
    if end > 6 {
      RowSeven(sense, kept, end - 1);
      if end - 1 >= 12 {
        VisitRowSeven(kept, end - 1);
      }
    }
  }

  lemma {:induction false} ScanAppends(sense: Sense, kept: Kept, y: int, m: int, n: int)
    requires m <= n
    ensures ScanRow(sense, kept, y, m).found <= ScanRow(sense, kept, y, n).found
    decreases n - m
  {
    if m < n && n > 6 {
      ScanAppends(sense, kept, y, m, n - 1);
    }
  }

  /** Two of the glyphs are less than 6 px apart. */
  ghost predicate HasClose(found: seq<Glyph>) {
    exists i, j :: 0 <= i < j < |found| && Closer(found[i], found[j].x, found[j].y)
  }

  lemma ScanKeepsCloser(sense: Sense)
    requires Striped(sense)
    ensures HasClose(ScanTo(sense, W, 8).found)
  {
    RestOfRowSix(sense, W - 6);
    var six := ScanRow(sense, Kept([], map[]), 6, W - 6);
    assert ScanTo(sense, W, 7) == six;
    RowSeven(sense, six, 24);
    VisitColumn24(six);
    var seven := ScanRow(sense, six, 7, 25);
    assert seven.found == six.found + [sense(24, 7).value];
    ScanAppends(sense, six, 7, 25, W - 6);
    var found := ScanRow(sense, six, 7, W - 6).found;
    assert found[2] == six.found[2] && found[|six.found|] == sense(24, 7).value;
    assert Closer(found[2], found[|six.found|].x, found[|six.found|].y);
  }

  // Kept glyphs can be closer than 6 px: of the stripes the scan keeps one in row 6 and one just below it.
  lemma KeptCloser(mountain: Raster)
    ensures Stripes(mountain).Valid() && HasClose(Found(Stripes(mountain)))
  {
    StripesStriped(mountain);
    ScanKeepsCloser(SenseOfStripes(mountain));
  }
}
