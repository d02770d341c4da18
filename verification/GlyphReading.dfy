/** What a found glyph is and which are found, in terms of the picture's own pixels. */
module GlyphReading {
  import opened Options
  import opened Separable
  import opened BandedScan
  import opened GlyphFacts

  // ---------------------------------------------------------------- the picture's own averages

  /** `n` columns of row `v` from column `u` on, those outside the picture read at its edge. */
  function RowTotal(f: Raster, w: int, v: int, u: int, n: nat): real {
    if n == 0 then 0.0 else RowTotal(f, w, v, u, n - 1) + f(if u + n - 1 < 0 then 0 else if u + n - 1 < w then u + n - 1 else w - 1, v)
  }

  /** The same for `m` rows from row `v` on. */
  function SquareTotal(f: Raster, w: int, h: int, u: int, v: int, n: nat, m: nat): real
    decreases m
  {
    if m == 0 then 0.0
    else SquareTotal(f, w, h, u, v, n, m - 1) + RowTotal(f, w, if v + m - 1 < 0 then 0 else if v + m - 1 < h then v + m - 1 else h - 1, u, n)
  }

  /** The average over the square of side 2r + 1 about a place. */
  function Mean(f: Raster, w: int, h: int, r: nat, x: int, y: int): real {
    SquareTotal(f, w, h, x - r, y - r, 2 * r + 1, 2 * r + 1) / ((2 * r + 1) * (2 * r + 1)) as real
  }

  ghost predicate Agree(f: Raster, g: Raster, w: int, h: int) {
    forall x, y :: 0 <= x < w && 0 <= y < h ==> f(x, y) == g(x, y)
  }

  lemma {:induction false} RowTotalIs(f: Raster, g: Raster, w: int, h: int, v: int, u: int, n: nat)
    requires Agree(f, g, w, h) && w > 0 && 0 <= v < h
    ensures RowSum(f, w, v, u, u + n) == RowTotal(g, w, v, u, n)
  {
    if n > 0 {
      RowTotalIs(f, g, w, h, v, u, n - 1);
    }
  }

  lemma {:induction false} SquareTotalIs(f: Raster, g: Raster, w: int, h: int, u: int, v: int, n: nat, m: nat)
    requires Agree(f, g, w, h) && w > 0 && h > 0
    ensures RectSum(f, w, h, u, u + n, v, v + m) == SquareTotal(g, w, h, u, v, n, m)
  {
    if m > 0 {
      SquareTotalIs(f, g, w, h, u, v, n, m - 1);
      RowTotalIs(f, g, w, h, Clamp(v + m - 1, h), u, n);
    }
  }

  lemma TotalOverSquare(f: Raster, g: Raster, w: int, h: int, r: nat, d: int, x: int, y: int)
    requires Agree(f, g, w, h) && w > 0 && h > 0 && d == (2 * r + 1) * (2 * r + 1)
    ensures RectSum(f, w, h, x - r, x + r + 1, y - r, y + r + 1) / d as real == Mean(g, w, h, r, x, y)
  {
    SquareTotalIs(f, g, w, h, x - r, y - r, 2 * r + 1, 2 * r + 1);
  }

  lemma DivTwice(a: real, d: int)
    requires d > 0
    ensures a / d as real / d as real == a / (d * d) as real
  {
  }

  // The box filter is the average over the square, read at the edge outside the picture.
  lemma BoxIsMean(f: Raster, g: Raster, w: int, h: int, r: nat, x: int, y: int)
    requires Agree(f, g, w, h) && w > 0 && h > 0
    ensures Filter(f, w, h, r, false)(x, y) == Mean(g, w, h, r, x, y)
  {
    TotalOverSquare(f, g, w, h, r, (2 * r + 1) * (2 * r + 1), x, y);
    DivTwice(RectSum(f, w, h, x - r, x + r + 1, y - r, y + r + 1), 2 * r + 1);
  }

  // ---------------------------------------------------------------- what the scan reads, from the pixels

  function Shown(p: Picture, x: int, y: int): Pixel {
    if 0 <= x + y * p.w < |p.pixels| then p.pixels[x + y * p.w] else Pixel(0, 0, 0)
  }

  function Brightness(p: Picture): Raster {
    (x, y) => 0.3 * Shown(p, x, y).r as real + 0.6 * Shown(p, x, y).g as real + 0.1 * Shown(p, x, y).b as real
  }

  function Ground(p: Picture): Raster {
    (x, y) => Mean(Brightness(p), p.w, p.h, 6, x, y)
  }

  function Contrast(p: Picture): Raster {
    (x, y) => if Brightness(p)(x, y) > Ground(p)(x, y) then Brightness(p)(x, y) - Ground(p)(x, y) else Ground(p)(x, y) - Brightness(p)(x, y)
  }

  function Marks(p: Picture): Raster {
    (x, y) => Mean(Contrast(p), p.w, p.h, 2, x, y)
  }

  function RedLessBlue(p: Picture): Raster {
    (x, y) => (Shown(p, x, y).r - Shown(p, x, y).b) as real
  }

  /** A mark strong enough for its ground, and none stronger within 4 px. */
  ghost predicate Peak(p: Picture, x: int, y: int) {
    && Marks(p)(x, y) >= (if Ground(p)(x, y) < 60.0 then 4.5 else 8.0)
    && forall u, v :: InSquare(p.w, p.h, 4, x, y, u, v) ==> Marks(p)(u, v) <= Marks(p)(x, y)
  }

  /** The place of most contrast of the 7 x 7 about (x, y): (x, y) itself if none has more, else the first in reading order. */
  ghost predicate MostContrast(p: Picture, x: int, y: int, at: Place) {
    && InSquare(p.w, p.h, 3, x, y, at.0, at.1)
    && (forall u, v :: InSquare(p.w, p.h, 3, x, y, u, v) ==> Contrast(p)(u, v) <= Contrast(p)(at.0, at.1))
    && (at != (x, y) ==> Contrast(p)(x, y) < Contrast(p)(at.0, at.1))
    && (at != (x, y) ==> forall u, v :: InSquare(p.w, p.h, 3, x, y, u, v) && (v < at.1 || (v == at.1 && u < at.0)) ==>
        Contrast(p)(u, v) < Contrast(p)(at.0, at.1))
  }

  /** The glyph's kind, by the ground, its warmth over 9 x 9, the mark's own pixel and the mountain. */
  ghost predicate KindIs(p: Picture, g: Glyph, at: Place) {
    var own := Shown(p, at.0, at.1);
    var ground := Ground(p)(g.x, g.y);
    var warm := Mean(RedLessBlue(p), p.w, p.h, 4, g.x, g.y);
    var onMountain := p.mountain(g.x, g.y) >= 0.5;
    var lit := ground > 100.0 && warm > 50.0;
    var red := own.r as real > 1.2 * own.g as real && own.r > 100;
    var sunset := (warm > 25.0 && ground > 70.0) || (own.r - own.b > 40 && Brightness(p)(at.0, at.1) > 110.0);
    && (g.kind == Face <==> onMountain && lit)
    && (g.kind == Ember <==> onMountain && !lit && red)
    && (g.kind == Cool <==> onMountain && !lit && !red)
    && (g.kind == Cloud <==> !onMountain && sunset)
    && (g.kind == Night <==> !onMountain && !sunset)
  }

  /** A glyph on the mountain weighs as far as it is on it, another as far as it is off it. */
  ghost predicate WeightIs(p: Picture, g: Glyph) {
    g.weight == if g.kind == Face || g.kind == Ember || g.kind == Cool then p.mountain(g.x, g.y) else 1.0 - p.mountain(g.x, g.y)
  }

  ghost predicate Reads(p: Picture, g: Glyph) {
    WeightIs(p, g) && exists at :: MostContrast(p, g.x, g.y, at) && KindIs(p, g, at)
  }

  // ---------------------------------------------------------------- the scan's pictures are these

  /** The pictures the scan reads are, inside the picture, the ones above. */
  ghost predicate FieldsAre(p: Picture, fs: Fields) {
    && fs.w == p.w && fs.h == p.h && p.Valid()
    && (forall x, y :: 0 <= x < p.w && 0 <= y < p.h ==> fs.pixels(x, y) == Shown(p, x, y))
    && Agree(fs.lum, Brightness(p), p.w, p.h) && Agree(fs.ground, Ground(p), p.w, p.h)
    && Agree(fs.contrast, Contrast(p), p.w, p.h) && Agree(fs.marks, Marks(p), p.w, p.h)
    && fs.peaks == Filter(fs.marks, p.w, p.h, 4, true)
  }

  lemma PixelsShown(p: Picture, x: int, y: int)
    requires p.Valid() && 0 <= x < p.w && 0 <= y < p.h
    ensures PixelsOf(p.pixels, p.w)(x, y) == Shown(p, x, y)
  {
    RowMajor(p.w, p.h, x, y);
  }

  lemma LumShown(p: Picture)
    requires p.Valid()
    ensures Agree(LumOf(PixelsOf(p.pixels, p.w)), Brightness(p), p.w, p.h)
  {
    forall x, y | 0 <= x < p.w && 0 <= y < p.h ensures LumOf(PixelsOf(p.pixels, p.w))(x, y) == Brightness(p)(x, y) {
      PixelsShown(p, x, y);
    }
  }

  lemma GroundShown(p: Picture, lum: Raster)
    requires p.Valid() && Agree(lum, Brightness(p), p.w, p.h)
    ensures Agree(Filter(lum, p.w, p.h, 6, false), Ground(p), p.w, p.h)
  {
    forall x, y | 0 <= x < p.w && 0 <= y < p.h ensures Filter(lum, p.w, p.h, 6, false)(x, y) == Ground(p)(x, y) {
      BoxIsMean(lum, Brightness(p), p.w, p.h, 6, x, y);
    }
  }

  lemma ContrastRead(p: Picture, lum: Raster, ground: Raster)
    requires Agree(lum, Brightness(p), p.w, p.h) && Agree(ground, Ground(p), p.w, p.h)
    ensures Agree(Apart(lum, ground), Contrast(p), p.w, p.h)
  {
  }

  lemma MarksRead(p: Picture, contrast: Raster)
    requires p.Valid() && Agree(contrast, Contrast(p), p.w, p.h)
    ensures Agree(Filter(contrast, p.w, p.h, 2, false), Marks(p), p.w, p.h)
  {
    forall x, y | 0 <= x < p.w && 0 <= y < p.h ensures Filter(contrast, p.w, p.h, 2, false)(x, y) == Marks(p)(x, y) {
      BoxIsMean(contrast, Contrast(p), p.w, p.h, 2, x, y);
    }
  }

  lemma FieldsRead(p: Picture)
    requires p.Valid()
    ensures FieldsAre(p, FieldsOf(p.pixels, p.w, p.h))
  {
    var fs := FieldsOf(p.pixels, p.w, p.h);
    forall x, y | 0 <= x < p.w && 0 <= y < p.h ensures fs.pixels(x, y) == Shown(p, x, y) {
      PixelsShown(p, x, y);
    }
    LumShown(p);
    GroundShown(p, fs.lum);
    ContrastRead(p, fs.lum, fs.ground);
    MarksRead(p, fs.contrast);
  }

  /** A place the scan visits. */
  ghost predicate Inner(w: int, h: int, x: int, y: int) {
    6 <= x < w - 6 && 6 <= y < h - 6
  }

  // The scan's test for a peak is that no mark within 4 px is stronger.
  lemma PeaksRead(p: Picture, fs: Fields, x: int, y: int)
    requires FieldsAre(p, fs) && Inner(p.w, p.h, x, y)
    ensures IsPeak(fs.marks(x, y), fs.ground(x, y), fs.peaks(x, y)) <==> Peak(p, x, y)
  {
    var lo, hi, top, end := x - 4, x + 5, y - 4, y + 5;
    RectMaxBounds(fs.marks, lo, hi, top, end);
    var m := fs.peaks(x, y);
    assert m == RectMax(fs.marks, lo, hi, top, end);
    forall u, v | InSquare(p.w, p.h, 4, x, y, u, v) ensures Marks(p)(u, v) <= m {
      assert Within(lo, hi, u) && Within(top, end, v) && fs.marks(u, v) == Marks(p)(u, v);
    }
    if Marks(p)(x, y) < m && Marks(p)(x, y) > 0.0 {
      var u, v :| Within(lo, hi, u) && Within(top, end, v) && fs.marks(u, v) == m;
      assert InSquare(p.w, p.h, 4, x, y, u, v) && Marks(p)(u, v) == m;
    }
  }

  lemma MostContrastRead(p: Picture, fs: Fields, x: int, y: int)
    requires FieldsAre(p, fs) && Inner(p.w, p.h, x, y)
    ensures MostContrast(p, x, y, Strongest(fs.contrast, x, y, y + 4))
  {
    var end, left := y + 4, x - 3;
    StrongestIs(fs.contrast, x, y, end);
    var at := Strongest(fs.contrast, x, y, end);
    forall u, v | InSquare(p.w, p.h, 3, x, y, u, v) ensures fs.contrast(u, v) == Contrast(p)(u, v) && BeforeIn(x, y, end, left, u, v) {
    }
    assert InSquare(p.w, p.h, 3, x, y, x, y);
  }

  lemma WarmPixels(p: Picture, fs: Fields)
    requires FieldsAre(p, fs)
    ensures Agree(RedOverBlue(fs.pixels), RedLessBlue(p), p.w, p.h)
  {
  }

  lemma WarmthRead(p: Picture, fs: Fields, x: int, y: int)
    requires FieldsAre(p, fs) && Inner(p.w, p.h, x, y)
    ensures Warmth(fs, x, y) == Mean(RedLessBlue(p), p.w, p.h, 4, x, y)
  {
    WarmPixels(p, fs);
    TotalOverSquare(RedOverBlue(fs.pixels), RedLessBlue(p), p.w, p.h, 4, 81, x, y);
  }

  lemma KindRead(p: Picture, fs: Fields, at: Place, g: Glyph)
    requires FieldsAre(p, fs) && Inner(p.w, p.h, g.x, g.y) && MostContrast(p, g.x, g.y, at)
    requires g.kind == Classify(fs.ground(g.x, g.y), Warmth(fs, g.x, g.y), fs.pixels(at.0, at.1), fs.lum(at.0, at.1), p.mountain(g.x, g.y))
    ensures KindIs(p, g, at)
  {
    WarmthRead(p, fs, g.x, g.y);
    assert fs.ground(g.x, g.y) == Ground(p)(g.x, g.y) && fs.lum(at.0, at.1) == Brightness(p)(at.0, at.1);
  }

  lemma DescribeReads(p: Picture, fs: Fields, x: int, y: int)
    requires FieldsAre(p, fs) && Inner(p.w, p.h, x, y)
    ensures Reads(p, Describe(fs, p.mountain, 0, x, y))
  {
    MostContrastRead(p, fs, x, y);
    KindRead(p, fs, Strongest(fs.contrast, x, y, y + 4), Describe(fs, p.mountain, 0, x, y));
  }

  /** Where there is a peak, and which glyphs read what is shown. */
  type Peaks = (int, int) -> bool

  type Readings = Glyph -> bool

  ghost function PeaksOf(p: Picture): Peaks {
    (x, y) => Peak(p, x, y)
  }

  ghost function ReadingsOf(p: Picture): Readings {
    g => Reads(p, g)
  }

  /** A glyph is sensed exactly at the peaks, and reads what is shown there. */
  ghost predicate SensesThese(w: int, h: int, peaks: Peaks, readings: Readings, sense: Sense) {
    forall x, y :: Inner(w, h, x, y) ==> (sense(x, y).Some? <==> peaks(x, y)) && (sense(x, y).Some? ==> readings(sense(x, y).value))
  }

  lemma SensedReads(p: Picture, fs: Fields, x: int, y: int)
    requires FieldsAre(p, fs) && Inner(p.w, p.h, x, y)
    ensures Sensed(fs, p.mountain, 0, x, y).Some? <==> PeaksOf(p)(x, y)
    ensures Sensed(fs, p.mountain, 0, x, y).Some? ==> ReadingsOf(p)(Sensed(fs, p.mountain, 0, x, y).value)
  {
    PeaksRead(p, fs, x, y);
    DescribeReads(p, fs, x, y);
  }

  lemma SenseReads(p: Picture, sense: Sense)
    requires p.Valid() && sense == SenseOf(FieldsOf(p.pixels, p.w, p.h), p.mountain)
    ensures SensesThese(p.w, p.h, PeaksOf(p), ReadingsOf(p), sense)
  {
    FieldsRead(p);
    var fs := FieldsOf(p.pixels, p.w, p.h);
    forall x, y | Inner(p.w, p.h, x, y)
      ensures (sense(x, y).Some? <==> PeaksOf(p)(x, y)) && (sense(x, y).Some? ==> ReadingsOf(p)(sense(x, y).value))
    {
      SensedReads(p, fs, x, y);
    }
  }

  // ---------------------------------------------------------------- which peaks are found

  /** The glyph comes before a place in reading order. */
  ghost predicate Precedes(g: Glyph, x: int, y: int) {
    g.y < y || (g.y == y && g.x < x)
  }

  /** Glyph `i`, of those before the place the last in its 8 px cell, is less than 6 px away. */
  ghost predicate BlockedBy(found: seq<Glyph>, x: int, y: int, i: nat) {
    && i < |found| && Precedes(found[i], x, y)
    && (found[i].x - x) * (found[i].x - x) + (found[i].y - y) * (found[i].y - y) < 36
    && forall j :: i < j < |found| && Precedes(found[j], x, y) ==>
      found[j].x / 8 + found[j].y / 8 * 1024 != found[i].x / 8 + found[i].y / 8 * 1024
  }

  ghost predicate Blocked(found: seq<Glyph>, x: int, y: int) {
    exists i :: BlockedBy(found, x, y, i)
  }

  ghost predicate FoundAt(found: seq<Glyph>, x: int, y: int) {
    exists g :: g in found && g.x == x && g.y == y
  }

  /** Every glyph comes after those before it in the list. */
  ghost predicate InReadingOrder(found: seq<Glyph>) {
    forall i, j :: 0 <= i < j < |found| ==> Precedes(found[i], found[j].x, found[j].y)
  }

  /** Up to a place, a glyph is found exactly where one is sensed and none before it blocks. */
  ghost predicate Ruled(sense: Sense, w: int, found: seq<Glyph>, u: int, v: int) {
    forall x, y :: Earlier(w, x, y, u, v) ==> (FoundAt(found, x, y) <==> sense(x, y).Some? && !Blocked(found, x, y))
  }

  ghost predicate RuledScan(sense: Sense, w: int, kept: Kept, u: int, v: int) {
    Scanned(sense, w, kept, u, v) && InReadingOrder(kept.found) && Ruled(sense, w, kept.found, u, v)
  }

  lemma BlockedByAppend(found: seq<Glyph>, g: Glyph, x: int, y: int, i: nat)
    requires !Precedes(g, x, y)
    ensures BlockedBy(found + [g], x, y, i) <==> BlockedBy(found, x, y, i)
  {
    if i < |found| {
      assert (found + [g])[i] == found[i];
      assert forall j :: i < j < |found| ==> (found + [g])[j] == found[j];
    }
  }

  lemma BlockedAppend(found: seq<Glyph>, g: Glyph, x: int, y: int)
    requires !Precedes(g, x, y)
    ensures Blocked(found + [g], x, y) <==> Blocked(found, x, y)
  {
    forall i: nat ensures BlockedBy(found + [g], x, y, i) <==> BlockedBy(found, x, y, i) {
      BlockedByAppend(found, g, x, y, i);
    }
  }

  lemma LastIsBlocking(found: seq<Glyph>, x: int, y: int)
    requires forall i :: 0 <= i < |found| ==> Precedes(found[i], x, y)
    ensures Blocked(found, x, y) <==> exists i :: LastAndCloser(found, i, x, y)
  {
    forall i: nat ensures LastAndCloser(found, i, x, y) <==> BlockedBy(found, x, y, i) {
    }
  }

  // The scan passes a place over exactly when it is blocked.
  lemma TakenIsBlocked(sense: Sense, w: int, kept: Kept, x: int, y: int)
    requires Scanned(sense, w, kept, x, y)
    ensures Taken(kept, x, y) <==> Blocked(kept.found, x, y)
  {
    TakenExactly(kept, x, y);
    ScannedBefore(sense, w, kept, x, y);
    LastIsBlocking(kept.found, x, y);
  }

  lemma FoundAtAppend(found: seq<Glyph>, g: Glyph, x: int, y: int)
    ensures FoundAt(found + [g], x, y) <==> FoundAt(found, x, y) || (g.x == x && g.y == y)
  {
    if FoundAt(found, x, y) {
      var h :| h in found && h.x == x && h.y == y;
      assert h in found + [g];
    }
    assert g in found + [g];
  }

  /** Every glyph comes before the place. */
  ghost predicate AllBefore(found: seq<Glyph>, x: int, y: int) {
    forall i :: 0 <= i < |found| ==> Precedes(found[i], x, y)
  }

  lemma NoneFoundHere(found: seq<Glyph>, x: int, y: int)
    requires AllBefore(found, x, y)
    ensures !FoundAt(found, x, y)
  {
  }

  // A glyph kept at the place keeps to the rule ...
  lemma KeepsRule(sense: Sense, w: int, found: seq<Glyph>, g: Glyph, x: int, y: int)
    requires Ruled(sense, w, found, x, y) && AllBefore(found, x, y) && sense(x, y) == Some(g) && g.x == x && g.y == y && !Blocked(found, x, y)
    ensures Ruled(sense, w, found + [g], x + 1, y)
  {
    forall p, q | Earlier(w, p, q, x + 1, y) ensures FoundAt(found + [g], p, q) <==> sense(p, q).Some? && !Blocked(found + [g], p, q) {
      BlockedAppend(found, g, p, q);
      FoundAtAppend(found, g, p, q);
      assert (p == x && q == y) || Earlier(w, p, q, x, y);
    }
  }

  // ... and so does passing over one with no glyph or a blocked one.
  lemma PassesByRule(sense: Sense, w: int, found: seq<Glyph>, x: int, y: int)
    requires Ruled(sense, w, found, x, y) && AllBefore(found, x, y) && (sense(x, y).None? || Blocked(found, x, y))
    ensures Ruled(sense, w, found, x + 1, y)
  {
    NoneFoundHere(found, x, y);
    forall p, q | Earlier(w, p, q, x + 1, y) ensures FoundAt(found, p, q) <==> sense(p, q).Some? && !Blocked(found, p, q) {
      assert (p == x && q == y) || Earlier(w, p, q, x, y);
    }
  }

  lemma ScannedBefore(sense: Sense, w: int, kept: Kept, x: int, y: int)
    requires Scanned(sense, w, kept, x, y)
    ensures AllBefore(kept.found, x, y)
  {
    forall i | 0 <= i < |kept.found| ensures Precedes(kept.found[i], x, y) {
      assert kept.found[i] in kept.found;
    }
  }

  lemma VisitIsRuled(sense: Sense, w: int, kept: Kept, x: int, y: int)
    requires SensesPlaces(sense) && 6 <= x < w - 6 && 6 <= y && RuledScan(sense, w, kept, x, y)
    ensures RuledScan(sense, w, Visit(kept, sense(x, y)), x + 1, y)
  {
    VisitScans(sense, w, kept, x, y);
    TakenIsBlocked(sense, w, kept, x, y);
    ScannedBefore(sense, w, kept, x, y);
    if sense(x, y).Some? && !Blocked(kept.found, x, y) {
      KeepsRule(sense, w, kept.found, sense(x, y).value, x, y);
    } else {
      PassesByRule(sense, w, kept.found, x, y);
    }
  }

  lemma {:induction false} RowIsRuled(sense: Sense, w: int, kept: Kept, y: int, end: int)
    requires SensesPlaces(sense) && 6 <= y && (6 < end ==> end <= w - 6) && RuledScan(sense, w, kept, 6, y)
    ensures RuledScan(sense, w, ScanRow(sense, kept, y, end), if end <= 6 then 6 else end, y)
    decreases end
  {
    if end > 6 {
      RowIsRuled(sense, w, kept, y, end - 1);
      VisitIsRuled(sense, w, ScanRow(sense, kept, y, end - 1), end - 1, y);
    }
  }

  lemma NextRow(sense: Sense, w: int, kept: Kept, y: int)
    requires RuledScan(sense, w, kept, if w - 6 <= 6 then 6 else w - 6, y) && 6 <= y
    ensures RuledScan(sense, w, kept, 6, y + 1)
  {
    var end := if w - 6 <= 6 then 6 else w - 6;
    assert forall p, q :: Earlier(w, p, q, 6, y + 1) <==> Earlier(w, p, q, end, y);
  }

  lemma {:induction false} RowsAreRuled(sense: Sense, w: int, end: int)
    requires SensesPlaces(sense)
    ensures RuledScan(sense, w, ScanTo(sense, w, end), 6, if end <= 6 then 6 else end)
    decreases end
  {
    if end > 6 {
      RowsAreRuled(sense, w, end - 1);
      RowIsRuled(sense, w, ScanTo(sense, w, end - 1), end - 1, w - 6);
      NextRow(sense, w, ScanTo(sense, w, end), end - 1);
    }
  }

  // ---------------------------------------------------------------- what is found

  /** The glyphs are in reading order, each one of the readings, and stand exactly at the peaks no glyph before them blocks. */
  ghost predicate FoundBy(w: int, h: int, peaks: Peaks, readings: Readings, found: seq<Glyph>) {
    && InReadingOrder(found)
    && (forall g :: g in found ==> Inner(w, h, g.x, g.y) && readings(g))
    && forall x, y :: Inner(w, h, x, y) ==> (FoundAt(found, x, y) <==> peaks(x, y) && !Blocked(found, x, y))
  }

  lemma ScanFindsBy(w: int, h: int, peaks: Peaks, readings: Readings, sense: Sense, found: seq<Glyph>)
    requires SensesPlaces(sense) && SensesThese(w, h, peaks, readings, sense) && found == ScanTo(sense, w, h - 6).found
    ensures FoundBy(w, h, peaks, readings, found)
  {
    RowsAreRuled(sense, w, h - 6);
    ScanFinds(sense, w, h, found);
    forall g | g in found ensures Inner(w, h, g.x, g.y) && readings(g) {
      assert sense(g.x, g.y) == Some(g);
    }
    var end := if h - 6 <= 6 then 6 else h - 6;
    forall x, y | Inner(w, h, x, y) ensures FoundAt(found, x, y) <==> peaks(x, y) && !Blocked(found, x, y) {
      assert Earlier(w, x, y, 6, end);
    }
  }

  // ---------------------------------------------------------------- and nothing else is

  /** No place has two readings. */
  ghost predicate OneReading(readings: Readings) {
    forall g, h :: readings(g) && readings(h) && g.x == h.x && g.y == h.y ==> g == h
  }

  lemma OneMostContrast(p: Picture, x: int, y: int, a: Place, b: Place)
    requires MostContrast(p, x, y, a) && MostContrast(p, x, y, b)
    ensures a == b
  {
  }

  lemma ReadOnce(p: Picture, g: Glyph, h: Glyph)
    requires Reads(p, g) && Reads(p, h) && g.x == h.x && g.y == h.y
    ensures g == h
  {
    var a :| MostContrast(p, g.x, g.y, a) && KindIs(p, g, a);
    var b :| MostContrast(p, h.x, h.y, b) && KindIs(p, h, b);
    OneMostContrast(p, g.x, g.y, a, b);
  }

  lemma ReadingsOnce(p: Picture)
    ensures OneReading(ReadingsOf(p))
  {
    forall g, h | Reads(p, g) && Reads(p, h) && g.x == h.x && g.y == h.y ensures g == h {
      ReadOnce(p, g, h);
    }
  }

  /** No glyph from the `n`th on comes before the place. */
  ghost predicate RestAfter(found: seq<Glyph>, n: nat, x: int, y: int) {
    n <= |found| && forall i :: n <= i < |found| ==> !Precedes(found[i], x, y)
  }

  lemma BlockedByFirst(found: seq<Glyph>, n: nat, x: int, y: int)
    requires RestAfter(found, n, x, y)
    ensures Blocked(found, x, y) <==> Blocked(found[..n], x, y)
  {
    forall i: nat ensures BlockedBy(found, x, y, i) <==> BlockedBy(found[..n], x, y, i) {
      if i < n {
        assert found[..n][i] == found[i];
        assert forall j :: i < j < n ==> found[..n][j] == found[j];
      }
    }
  }

  lemma OrderedRest(found: seq<Glyph>, n: nat, x: int, y: int)
    requires InReadingOrder(found) && n <= |found| && (n < |found| ==> !Precedes(found[n], x, y))
    ensures RestAfter(found, n, x, y)
  {
  }

  lemma PlaceInList(found: seq<Glyph>, n: nat, x: int, y: int) returns (k: nat)
    requires InReadingOrder(found) && n <= |found| && (n < |found| ==> !Precedes(found[n], x, y)) && FoundAt(found, x, y)
    requires forall i :: 0 <= i < n ==> Precedes(found[i], x, y)
    ensures k == n < |found| && found[k].x == x && found[k].y == y
  {
    var g :| g in found && g.x == x && g.y == y;
    k :| k < |found| && found[k] == g;
  }

  // Two lists alike so far go on alike: a glyph of one that no glyph of the other comes before is the other's next.
  lemma NextIsNext(w: int, h: int, peaks: Peaks, readings: Readings, a: seq<Glyph>, b: seq<Glyph>, n: nat)
    requires OneReading(readings) && FoundBy(w, h, peaks, readings, a) && FoundBy(w, h, peaks, readings, b)
    requires n < |a| && n <= |b| && a[..n] == b[..n] && (n < |b| ==> !Precedes(b[n], a[n].x, a[n].y))
    ensures n < |b| && a[n] == b[n]
  {
    var x, y := a[n].x, a[n].y;
    assert a[n] in a && FoundAt(a, x, y);
    OrderedRest(a, n, x, y);
    OrderedRest(b, n, x, y);
    BlockedByFirst(a, n, x, y);
    BlockedByFirst(b, n, x, y);
    assert Inner(w, h, x, y) && FoundAt(b, x, y);
    forall i | 0 <= i < n ensures Precedes(b[i], x, y) {
      assert b[i] == b[..n][i] == a[..n][i] == a[i];
    }
    var k := PlaceInList(b, n, x, y);
    assert b[k] in b;
  }

  lemma {:induction false} FoundAlike(w: int, h: int, peaks: Peaks, readings: Readings, a: seq<Glyph>, b: seq<Glyph>, n: nat)
    requires OneReading(readings) && FoundBy(w, h, peaks, readings, a) && FoundBy(w, h, peaks, readings, b) && n <= |a|
    ensures n <= |b| && a[..n] == b[..n]
  {
    if n > 0 {
      var m := n - 1;
      FoundAlike(w, h, peaks, readings, a, b, m);
      if m < |b| && Precedes(b[m], a[m].x, a[m].y) {
        NextIsNext(w, h, peaks, readings, b, a, m);
      } else {
        NextIsNext(w, h, peaks, readings, a, b, m);
      }
      assert a[..n] == a[..m] + [a[m]] && b[..n] == b[..m] + [b[m]];
    }
  }

  lemma FoundTwice(w: int, h: int, peaks: Peaks, readings: Readings, a: seq<Glyph>, b: seq<Glyph>)
    requires OneReading(readings) && FoundBy(w, h, peaks, readings, a) && FoundBy(w, h, peaks, readings, b)
    ensures a == b
  {
    FoundAlike(w, h, peaks, readings, a, b, |a|);
    FoundAlike(w, h, peaks, readings, b, a, |b|);
  }

  // Whatever the picture: a list is what the scan finds if and only if it is in reading order, reads the picture's pixels, and stands
  // at exactly the peaks no glyph before them blocks.
  lemma FoundIsExactly(p: Picture, found: seq<Glyph>)
    requires p.Valid()
    ensures found == Found(p) <==> FoundBy(p.w, p.h, PeaksOf(p), ReadingsOf(p), found)
  {
    var whole := FieldsOf(p.pixels, p.w, p.h);
    var peaks, readings, sense, all := PeaksOf(p), ReadingsOf(p), SenseOf(whole, p.mountain), Found(p);
    SensesWhereAsked(whole, p.mountain);
    SenseReads(p, sense);
    ScanFindsBy(p.w, p.h, peaks, readings, sense, all);
    ReadingsOnce(p);
    if FoundBy(p.w, p.h, peaks, readings, found) {
      FoundTwice(p.w, p.h, peaks, readings, found, all);
    }
  }

  lemma FoundByMeans(w: int, h: int, peaks: Peaks, readings: Readings, found: seq<Glyph>, g: Glyph)
    requires FoundBy(w, h, peaks, readings, found) && g in found
    ensures Inner(w, h, g.x, g.y) && peaks(g.x, g.y) && readings(g)
  {
    assert FoundAt(found, g.x, g.y);
  }

  lemma BlockedIsNear(found: seq<Glyph>, x: int, y: int)
    requires Blocked(found, x, y)
    ensures FoundNear(found, x, y)
  {
    var i: nat :| BlockedBy(found, x, y, i);
    assert found[i] in found;
  }

  ghost predicate FoundNear(found: seq<Glyph>, x: int, y: int) {
    exists g :: g in found && (g.x - x) * (g.x - x) + (g.y - y) * (g.y - y) < 36
  }

  // A glyph found stands at a peak and reads what the picture shows there.
  lemma FoundMeans(p: Picture, g: Glyph)
    requires p.Valid() && g in Found(p)
    ensures Inner(p.w, p.h, g.x, g.y) && Peak(p, g.x, g.y) && Reads(p, g)
  {
    FoundIsExactly(p, Found(p));
    FoundByMeans(p.w, p.h, PeaksOf(p), ReadingsOf(p), Found(p), g);
  }

  // A peak is found, or has a found glyph less than 6 px away.
  lemma PeakCovered(p: Picture, x: int, y: int)
    requires p.Valid() && Inner(p.w, p.h, x, y) && Peak(p, x, y)
    ensures FoundAt(Found(p), x, y) || FoundNear(Found(p), x, y)
  {
    FoundIsExactly(p, Found(p));
    assert PeaksOf(p)(x, y);
    if Blocked(Found(p), x, y) {
      BlockedIsNear(Found(p), x, y);
    }
  }
}
