/**
 * Finding the painted glyphs: three composed filters over overlapping bands of the picture, a scan for peaks row by
 * row, and one kept glyph for a flat top. What is found is what one pass over the whole picture finds.
 */
module BandedScan {
  import opened Options
  import opened Separable

  const STRIP := 200
  const MARGIN := 16

  datatype Pixel = Pixel(r: int, g: int, b: int)

  datatype Kind = Night | Cloud | Face | Ember | Cool

  datatype Glyph = Glyph(x: int, y: int, kind: Kind, weight: real)

  /** The picture, row by row. `mountain` says how far a place is on the mountain. */
  datatype Picture = Picture(w: nat, h: nat, pixels: seq<Pixel>, mountain: Raster) {
    ghost predicate Valid() {
      w > 0 && h > 0 && |pixels| == w * h
    }
  }

  // ---------------------------------------------------------------- what a pixel shows

  type Pixels = (int, int) -> Pixel

  /** The pixels of a picture held row by row; outside it the value does not matter. */
  function PixelsOf(data: seq<Pixel>, w: nat): Pixels {
    (x, y) => if 0 <= x < w && 0 <= y && x + y * w < |data| then data[x + y * w] else Pixel(0, 0, 0)
  }

  function Luminance(p: Pixel): real {
    0.3 * p.r as real + 0.6 * p.g as real + 0.1 * p.b as real
  }

  function Abs(a: real): real {
    if a < 0.0 then -a else a
  }

  function LumOf(pixels: Pixels): Raster {
    (x, y) => Luminance(pixels(x, y))
  }

  function Apart(f: Raster, g: Raster): Raster {
    (x, y) => Abs(f(x, y) - g(x, y))
  }

  function RedOverBlue(pixels: Pixels): Raster {
    (x, y) => (pixels(x, y).r - pixels(x, y).b) as real
  }

  /** The pictures the scan reads. */
  datatype Fields = Fields(w: nat, h: nat, pixels: Pixels, lum: Raster, ground: Raster, contrast: Raster, marks: Raster, peaks: Raster)

  function FieldsOf(data: seq<Pixel>, w: nat, h: nat): Fields {
    var pixels := PixelsOf(data, w);
    var lum := LumOf(pixels);
    var ground := Filter(lum, w, h, 6, false);
    var contrast := Apart(lum, ground);
    var marks := Filter(contrast, w, h, 2, false);
    Fields(w, h, pixels, lum, ground, contrast, marks, Filter(marks, w, h, 4, true))
  }

  /** The mean of red over blue in the 9 x 9 pixels about a place. */
  function Warmth(fs: Fields, x: int, y: int): real {
    RectSum(RedOverBlue(fs.pixels), fs.w, fs.h, x - 4, x + 5, y - 4, y + 5) / 81.0
  }

  type Place = (int, int)

  function Stronger(c: Raster, best: Place, u: int, v: int): Place {
    if c(u, v) > c(best.0, best.1) then (u, v) else best
  }

  function StrongestInRow(c: Raster, x: int, v: int, end: int, best: Place): Place
    decreases end - x + 3
  {
    if end <= x - 3 then best else Stronger(c, StrongestInRow(c, x, v, end - 1, best), end - 1, v)
  }

  /** The strongest of the place itself and, in reading order, the 7 columns of rows [y - 3, end) about it. */
  function Strongest(c: Raster, x: int, y: int, end: int): Place
    decreases end - y + 3
  {
    if end <= y - 3 then (x, y) else StrongestInRow(c, x, end - 1, x + 4, Strongest(c, x, y, end - 1))
  }

  function Threshold(ground: real): real {
    if ground < 60.0 then 4.5 else 8.0
  }

  function Classify(ground: real, warm: real, p: Pixel, brightness: real, mountain: real): Kind {
    if mountain >= 0.5 then
      if ground > 100.0 && warm > 50.0 then Face
      else if p.r as real > 1.2 * p.g as real && p.r > 100 then Ember
      else Cool
    else if (warm > 25.0 && ground > 70.0) || (p.r - p.b > 40 && brightness > 110.0) then Cloud
    else Night
  }

  function WeightOf(kind: Kind, mountain: real): real {
    if kind.Face? || kind.Ember? || kind.Cool? then mountain else 1.0 - mountain
  }

  predicate IsPeak(marks: real, ground: real, peak: real) {
    marks >= Threshold(ground) && marks >= peak
  }

  /** The glyph at column x and row y of a picture whose row 0 is row `from` of the artwork. */
  function Describe(fs: Fields, mountain: Raster, from: int, x: int, y: int): Glyph {
    var best := Strongest(fs.contrast, x, y, y + 4);
    var kind := Classify(fs.ground(x, y), Warmth(fs, x, y), fs.pixels(best.0, best.1), fs.lum(best.0, best.1), mountain(x, from + y));
    Glyph(x, from + y, kind, WeightOf(kind, mountain(x, from + y)))
  }

  function Sensed(fs: Fields, mountain: Raster, from: int, x: int, y: int): Option<Glyph> {
    if IsPeak(fs.marks(x, y), fs.ground(x, y), fs.peaks(x, y)) then Some(Describe(fs, mountain, from, x, y)) else None
  }

  // ---------------------------------------------------------------- one glyph for a flat top

  /** The glyphs kept, and the last one kept in each 8 px cell. */
  datatype Kept = Kept(found: seq<Glyph>, near: map<int, nat>)

  function Key(x: int, y: int, dx: int, dy: int): int {
    x / 8 + dx + (y / 8 + dy) * 1024
  }

  predicate Closer(g: Glyph, x: int, y: int) {
    (g.x - x) * (g.x - x) + (g.y - y) * (g.y - y) < 36
  }

  /** The last glyph kept in a neighbouring cell is less than 6 px away. */
  predicate Blocks(kept: Kept, x: int, y: int, dx: int, dy: int) {
    var key := Key(x, y, dx, dy);
    key in kept.near && kept.near[key] < |kept.found| && Closer(kept.found[kept.near[key]], x, y)
  }

  predicate TakenInRow(kept: Kept, x: int, y: int, dy: int) {
    exists dx :: -1 <= dx < 2 && Blocks(kept, x, y, dx, dy)
  }

  predicate Taken(kept: Kept, x: int, y: int) {
    exists dy :: -1 <= dy < 2 && TakenInRow(kept, x, y, dy)
  }

  function Keep(kept: Kept, g: Glyph): Kept {
    Kept(kept.found + [g], kept.near[Key(g.x, g.y, 0, 0) := |kept.found|])
  }

  function Visit(kept: Kept, sensed: Option<Glyph>): Kept {
    if sensed.Some? && !Taken(kept, sensed.value.x, sensed.value.y) then Keep(kept, sensed.value) else kept
  }

  // ---------------------------------------------------------------- one pass over the whole picture

  type Sense = (int, int) -> Option<Glyph>

  function SenseOf(whole: Fields, mountain: Raster): Sense {
    (x, y) => Sensed(whole, mountain, 0, x, y)
  }

  ghost predicate SensesAt(sense: Sense, whole: Fields, mountain: Raster, x: int, y: int) {
    sense(x, y) == Sensed(whole, mountain, 0, x, y)
  }

  /** Columns [6, end) of row y visited. */
  function ScanRow(sense: Sense, kept: Kept, y: int, end: int): Kept
    decreases end
  {
    if end <= 6 then kept else Visit(ScanRow(sense, kept, y, end - 1), sense(end - 1, y))
  }

  /** Rows [6, end) visited, in order. */
  function ScanTo(sense: Sense, w: int, end: int): Kept
    decreases end
  {
    if end <= 6 then Kept([], map[]) else ScanRow(sense, ScanTo(sense, w, end - 1), end - 1, w - 6)
  }

  /** What one pass over the whole picture, filtered as a whole, finds. */
  function Found(p: Picture): seq<Glyph> {
    ScanTo(SenseOf(FieldsOf(p.pixels, p.w, p.h), p.mountain), p.w, p.h - 6).found
  }

  // ---------------------------------------------------------------- a band agrees with the whole

  function Min(a: int, b: int): int { if a < b then a else b }

  function Max(a: int, b: int): int { if a < b then b else a }

  /** The band's pixels. */
  ghost predicate IsBand(p: Picture, from: nat, rows: nat, data: seq<Pixel>) {
    p.Valid() && rows > 0 && from + rows <= p.h && |data| == p.w * rows && data == p.pixels[p.w * from..p.w * (from + rows)]
  }

  /** The first row a chain of filters of the given reach has right, and the row past the last. */
  function Lowest(from: int, reach: int): int { if from == 0 then 0 else from + reach }

  function Highest(h: int, from: int, rows: int, reach: int): int { if from + rows == h then h else from + rows - reach }

  ghost predicate BandAgrees(w: int, h: int, from: int, rows: int, f: Raster, g: Raster, reach: int) {
    AgreeOn(f, g, w, from, Lowest(from, reach), Highest(h, from, rows, reach))
  }

  ghost predicate SamePixels(w: int, from: int, rows: int, f: Pixels, g: Pixels) {
    forall x, y :: 0 <= x < w && from <= y < from + rows ==> f(x, y - from) == g(x, y)
  }

  lemma ReachGrows(w: int, h: int, from: int, rows: int, f: Raster, g: Raster, reach: nat, r: nat, max: bool)
    requires w > 0 && from >= 0 && from + rows <= h && BandAgrees(w, h, from, rows, f, g, reach)
    requires Lowest(from, reach) <= Highest(h, from, rows, reach)
    ensures BandAgrees(w, h, from, rows, Filter(f, w, rows, r, max), Filter(g, w, h, r, max), reach + r)
  {
    FilterLocal(f, g, w, rows, h, from, r, max, Lowest(from, reach), Highest(h, from, rows, reach), Lowest(from, reach + r), Highest(h, from, rows, reach + r));
  }

  lemma ApartAgrees(w: int, from: int, lo: int, hi: int, f: Raster, f': Raster, g: Raster, g': Raster)
    requires AgreeOn(f, g, w, from, lo, hi) && AgreeOn(f', g', w, from, lo, hi)
    ensures AgreeOn(Apart(f, f'), Apart(g, g'), w, from, lo, hi)
  {
  }

  /** What a band reads agrees with the whole, each picture as far in as its filters reach. */
  ghost predicate FieldsAgree(from: int, band: Fields, whole: Fields) {
    var w, h, rows := whole.w, whole.h, band.h;
    && band.w == w && 0 <= from && from + rows <= h && SamePixels(w, from, rows, band.pixels, whole.pixels)
    && BandAgrees(w, h, from, rows, band.lum, whole.lum, 0)
    && BandAgrees(w, h, from, rows, band.ground, whole.ground, 6)
    && BandAgrees(w, h, from, rows, band.contrast, whole.contrast, 6)
    && BandAgrees(w, h, from, rows, band.marks, whole.marks, 8)
    && BandAgrees(w, h, from, rows, band.peaks, whole.peaks, 12)
  }

  ghost predicate WideEnough(h: int, from: int, rows: int) {
    Lowest(from, MARGIN) <= Highest(h, from, rows, MARGIN)
  }

  lemma BandIndex(w: nat, x: nat, y: nat, from: nat, rows: nat)
    requires x < w && from <= y < from + rows
    ensures x + (y - from) * w < w * rows && w * from + (x + (y - from) * w) == x + y * w
    ensures w * (from + rows) == w * from + w * rows
  {
    RowMajor(w, rows, x, y - from);
    assert (y - from) * w == y * w - from * w;
  }

  lemma BandPixel(p: Picture, from: nat, rows: nat, data: seq<Pixel>, x: nat, y: nat)
    requires IsBand(p, from, rows, data) && x < p.w && from <= y < from + rows
    ensures PixelsOf(data, p.w)(x, y - from) == PixelsOf(p.pixels, p.w)(x, y)
  {
    BandIndex(p.w, x, y, from, rows);
    RowMajor(p.w, p.h, x, y);
    assert data[x + (y - from) * p.w] == p.pixels[x + y * p.w];
  }

  lemma BandPixels(p: Picture, from: nat, rows: nat, data: seq<Pixel>)
    requires IsBand(p, from, rows, data)
    ensures SamePixels(p.w, from, rows, PixelsOf(data, p.w), PixelsOf(p.pixels, p.w))
  {
    forall x, y | 0 <= x < p.w && from <= y < from + rows ensures PixelsOf(data, p.w)(x, y - from) == PixelsOf(p.pixels, p.w)(x, y) {
      BandPixel(p, from, rows, data, x, y);
    }
  }

  // Blurring by 6 and by 2 and searching by 4, the filters are right from the 12th row in.
  lemma FiltersAgree(p: Picture, from: nat, rows: nat, data: seq<Pixel>)
    requires IsBand(p, from, rows, data) && WideEnough(p.h, from, rows)
    ensures FieldsAgree(from, FieldsOf(data, p.w, rows), FieldsOf(p.pixels, p.w, p.h))
  {
    BandPixels(p, from, rows, data);
    var w, h, f, g := p.w, p.h, FieldsOf(data, p.w, rows), FieldsOf(p.pixels, p.w, p.h);
    assert BandAgrees(w, h, from, rows, f.lum, g.lum, 0);
    ReachGrows(w, h, from, rows, f.lum, g.lum, 0, 6, false);
    ApartAgrees(w, from, Lowest(from, 6), Highest(h, from, rows, 6), f.lum, f.ground, g.lum, g.ground);
    ReachGrows(w, h, from, rows, f.contrast, g.contrast, 6, 2, false);
    ReachGrows(w, h, from, rows, f.marks, g.marks, 8, 4, true);
  }

  lemma {:induction false} StrongestInRowLocal(f: Raster, g: Raster, w: int, from: int, lo: int, hi: int, x: int, v: int, end: int, best: Place)
    requires AgreeOn(f, g, w, from, lo, hi) && 3 <= x && end <= x + 4 <= w && lo <= v < hi
    requires 0 <= best.0 < w && lo <= best.1 < hi
    ensures var at := StrongestInRow(g, x, v, end, best);
      0 <= at.0 < w && lo <= at.1 < hi && StrongestInRow(f, x, v - from, end, (best.0, best.1 - from)) == (at.0, at.1 - from)
    decreases end - x + 3
  {
    if end > x - 3 {
      StrongestInRowLocal(f, g, w, from, lo, hi, x, v, end - 1, best);
    }
  }

  lemma {:induction false} StrongestLocal(f: Raster, g: Raster, w: int, from: int, lo: int, hi: int, x: int, y: int, end: int)
    requires AgreeOn(f, g, w, from, lo, hi) && 3 <= x && x + 4 <= w && lo <= y - 3 && end <= y + 4 <= hi
    ensures var at := Strongest(g, x, y, end);
      0 <= at.0 < w && lo <= at.1 < hi && Strongest(f, x, y - from, end - from) == (at.0, at.1 - from)
    decreases end - y + 3
  {
    if end > y - 3 {
      StrongestLocal(f, g, w, from, lo, hi, x, y, end - 1);
      StrongestInRowLocal(f, g, w, from, lo, hi, x, end - 1, x + 4, Strongest(g, x, y, end - 1));
    }
  }

  lemma WarmthLocal(from: int, f: Fields, g: Fields, x: int, y: int)
    requires f.w == g.w && 0 <= from && from + f.h <= g.h && SamePixels(g.w, from, f.h, f.pixels, g.pixels)
    requires 0 <= x < g.w && from + 4 <= y && y + 5 <= from + f.h
    ensures Warmth(f, x, y - from) == Warmth(g, x, y)
  {
    var end := from + f.h;
    assert AgreeOn(RedOverBlue(f.pixels), RedOverBlue(g.pixels), g.w, from, from, end);
    assert forall v :: y - 4 <= v < y + 5 ==> SameRow(f.h, g.h, from, from, end, v);
    RectSumLocal(RedOverBlue(f.pixels), RedOverBlue(g.pixels), g.w, f.h, g.h, from, from, end, x - 4, x + 5, y - 4, y + 5);
  }

  /** A place the scan visits: 6 px from the artwork's edges, and MARGIN px from an edge of the band's own. */
  ghost predicate Visited(w: int, h: int, from: int, rows: int, x: int, y: int) {
    6 <= x < w - 6 && 6 <= y < h - 6 && Lowest(from, MARGIN) <= y < Highest(h, from, rows, MARGIN)
  }

  lemma DescribesAlike(from: int, f: Fields, g: Fields, mountain: Raster, x: int, y: int)
    requires FieldsAgree(from, f, g) && Visited(g.w, g.h, from, f.h, x, y)
    ensures Describe(f, mountain, from, x, y - from) == Describe(g, mountain, 0, x, y)
  {
    StrongestLocal(f.contrast, g.contrast, g.w, from, Lowest(from, 6), Highest(g.h, from, f.h, 6), x, y, y + 4);
    WarmthLocal(from, f, g, x, y);
    var at := Strongest(g.contrast, x, y, y + 4);
    assert f.pixels(at.0, at.1 - from) == g.pixels(at.0, at.1);
    assert f.lum(at.0, at.1 - from) == g.lum(at.0, at.1);
    assert f.ground(x, y - from) == g.ground(x, y);
  }

  // In its own rows a band senses what the whole picture does.
  lemma SensesAlike(from: int, f: Fields, g: Fields, mountain: Raster, x: int, y: int)
    requires FieldsAgree(from, f, g) && Visited(g.w, g.h, from, f.h, x, y)
    ensures Sensed(f, mountain, from, x, y - from) == Sensed(g, mountain, 0, x, y)
  {
    assert f.ground(x, y - from) == g.ground(x, y);
    assert f.marks(x, y - from) == g.marks(x, y);
    assert f.peaks(x, y - from) == g.peaks(x, y);
    DescribesAlike(from, f, g, mountain, x, y);
  }

  // ---------------------------------------------------------------- the scan

  // Filtering the array filters the picture it holds.
  lemma FilterHolds(s: seq<real>, out: seq<real>, w: nat, h: nat, f: Raster, r: nat, max: bool)
    requires w > 0 && Holds(s, w, h, f) && Holds(out, w, h, Filter(View(s, w), w, h, r, max))
    ensures Holds(out, w, h, Filter(f, w, h, r, max))
  {
    assert AgreeOn(View(s, w), f, w, 0, 0, h);
    FilterLocal(View(s, w), f, w, h, h, 0, r, max, 0, h, 0, h);
    forall x, y | 0 <= x < w && 0 <= y < h ensures View(out, w)(x, y) == Filter(f, w, h, r, max)(x, y) {
      assert Filter(View(s, w), w, h, r, max)(x, y - 0) == Filter(f, w, h, r, max)(x, y);
    }
  }

  method FilterOf(source: array<real>, w: nat, h: nat, r: nat, max: bool, ghost f: Raster) returns (out: array<real>)
    requires w > 0 && h > 0 && source.Length == w * h && Holds(source[..], w, h, f)
    ensures fresh(out) && Holds(out[..], w, h, Filter(f, w, h, r, max))
  {
    out := FilterInTwoPasses(source, w, h, r, max);
    FilterHolds(source[..], out[..], w, h, f, r, max);
  }

  method LuminanceOf(data: seq<Pixel>, w: nat, h: nat) returns (lum: array<real>)
    requires |data| == w * h
    ensures fresh(lum) && Holds(lum[..], w, h, LumOf(PixelsOf(data, w)))
  {
    lum := new real[|data|];
    for i := 0 to |data|
      invariant forall j :: 0 <= j < i ==> lum[j] == Luminance(data[j])
    {
      lum[i] := Luminance(data[i]);
    }
    forall x, y | 0 <= x < w && 0 <= y < h ensures View(lum[..], w)(x, y) == LumOf(PixelsOf(data, w))(x, y) {
      RowMajor(w, h, x, y);
    }
  }

  method ContrastOf(lum: array<real>, ground: array<real>, w: nat, h: nat, ghost f: Raster, ghost g: Raster) returns (contrast: array<real>)
    requires Holds(lum[..], w, h, f) && Holds(ground[..], w, h, g)
    ensures fresh(contrast) && Holds(contrast[..], w, h, Apart(f, g))
  {
    contrast := new real[lum.Length];
    for i := 0 to lum.Length
      invariant forall j :: 0 <= j < i ==> contrast[j] == Abs(lum[j] - ground[j])
    {
      contrast[i] := Abs(lum[i] - ground[i]);
    }
    forall x, y | 0 <= x < w && 0 <= y < h ensures View(contrast[..], w)(x, y) == Apart(f, g)(x, y) {
      RowMajor(w, h, x, y);
      assert View(lum[..], w)(x, y) == f(x, y) && View(ground[..], w)(x, y) == g(x, y);
    }
  }

  /** The arrays of one band. */
  datatype Arrays = Arrays(data: seq<Pixel>, lum: array<real>, ground: array<real>, contrast: array<real>, marks: array<real>, peaks: array<real>)

  ghost predicate HoldFields(a: Arrays, fs: Fields)
    reads a.lum, a.ground, a.contrast, a.marks, a.peaks
  {
    && fs.w > 0 && |a.data| == fs.w * fs.h && fs.pixels == PixelsOf(a.data, fs.w)
    && Holds(a.lum[..], fs.w, fs.h, fs.lum) && Holds(a.ground[..], fs.w, fs.h, fs.ground)
    && Holds(a.contrast[..], fs.w, fs.h, fs.contrast)
    && Holds(a.marks[..], fs.w, fs.h, fs.marks) && Holds(a.peaks[..], fs.w, fs.h, fs.peaks)
  }

  /** Filters one band. */
  method ReadBand(data: seq<Pixel>, w: nat, h: nat) returns (a: Arrays)
    requires w > 0 && h > 0 && |data| == w * h
    ensures HoldFields(a, FieldsOf(data, w, h))
  {
    ghost var fs := FieldsOf(data, w, h);
    var lum := LuminanceOf(data, w, h);
    var ground := FilterOf(lum, w, h, 6, false, fs.lum);
    var contrast := ContrastOf(lum, ground, w, h, fs.lum, fs.ground);
    var marks := FilterOf(contrast, w, h, 2, false, fs.contrast);
    var peaks := FilterOf(marks, w, h, 4, true, fs.marks);
    a := Arrays(data, lum, ground, contrast, marks, peaks);
  }

  /** Whether a glyph kept near by is the same glyph. */
  method IsTaken(kept: Kept, x: int, y: int) returns (taken: bool)
    ensures taken == Taken(kept, x, y)
  {
    taken := false;
    var dy := -1;
    while dy <= 1 && !taken
      invariant -1 <= dy <= 2
      invariant taken ==> Taken(kept, x, y)
      invariant !taken ==> forall v :: -1 <= v < dy ==> !TakenInRow(kept, x, y, v)
    {
      var dx := -1;
      while dx <= 1 && !taken
        invariant -1 <= dx <= 2
        invariant taken ==> TakenInRow(kept, x, y, dy)
        invariant !taken ==> forall u :: -1 <= u < dx ==> !Blocks(kept, x, y, u, dy)
      {
        if Blocks(kept, x, y, dx, dy) {
          taken := true;
        }
        dx := dx + 1;
      }
      dy := dy + 1;
    }
  }

  // The window about a visited pixel lies in the arrays.
  lemma WindowIndex(w: nat, h: nat, x: nat, y: nat, dx: int, dy: int)
    requires 0 <= x + dx < w && 0 <= y + dy < h
    ensures x + y * w + dx + dy * w == (x + dx) + (y + dy) * w
    ensures 0 <= x + y * w + dx + dy * w < w * h
  {
    RowMajor(w, h, x + dx, y + dy);
    assert (y + dy) * w == y * w + dy * w;
  }

  /** The strongest pixel so far is at place `at`, at index `best`. */
  ghost predicate Best(w: nat, h: nat, at: Place, best: int) {
    0 <= at.0 < w && 0 <= at.1 < h && best == at.0 + at.1 * w && 0 <= best < w * h
  }

  method StrongerOf(contrast: array<real>, w: nat, h: nat, x: nat, y: nat, dx: int, dy: int, ghost c: Raster, before: nat, ghost was: Place) returns (best: nat, ghost at: Place)
    requires Holds(contrast[..], w, h, c) && 0 <= x + dx < w && 0 <= y + dy < h && Best(w, h, was, before)
    ensures at == Stronger(c, was, x + dx, y + dy) && Best(w, h, at, best)
  {
    var i := x + y * w;
    best, at := before, was;
    WindowIndex(w, h, x, y, dx, dy);
    assert View(contrast[..], w)(x + dx, y + dy) == c(x + dx, y + dy) && View(contrast[..], w)(at.0, at.1) == c(at.0, at.1);
    if contrast[i + dx + dy * w] > contrast[best] {
      best, at := i + dx + dy * w, (x + dx, y + dy);
    }
  }

  method StrongestOfRow(contrast: array<real>, w: nat, h: nat, x: nat, y: nat, dy: int, ghost c: Raster, before: nat, ghost was: Place) returns (best: nat, ghost at: Place)
    requires Holds(contrast[..], w, h, c) && 3 <= x && x + 4 <= w && 0 <= y + dy < h && Best(w, h, was, before)
    ensures at == StrongestInRow(c, x, y + dy, x + 4, was) && Best(w, h, at, best)
  {
    best, at := before, was;
    for dx: int := -3 to 4
      invariant at == StrongestInRow(c, x, y + dy, x + dx, was) && Best(w, h, at, best)
    {
      best, at := StrongerOf(contrast, w, h, x, y, dx, dy, c, best, at);
    }
  }

  /** The strongest pixel of the 7 x 7 about a place, the place itself first, then in reading order. */
  method StrongestPixel(contrast: array<real>, w: nat, h: nat, x: nat, y: nat, ghost c: Raster) returns (best: nat, ghost at: Place)
    requires Holds(contrast[..], w, h, c) && 3 <= x && x + 4 <= w && 3 <= y && y + 4 <= h
    ensures at == Strongest(c, x, y, y + 4) && Best(w, h, at, best)
  {
    best, at := x + y * w, (x, y);
    RowMajor(w, h, x, y);
    for dy: int := -3 to 4
      invariant at == Strongest(c, x, y, y + dy) && Best(w, h, at, best)
    {
      best, at := StrongestOfRow(contrast, w, h, x, y, dy, c, best, at);
    }
  }

  /** The sum of red over blue in the 9 x 9 about a place. */
  method WarmthSum(data: seq<Pixel>, w: nat, h: nat, x: nat, y: nat) returns (warm: real)
    requires |data| == w * h && 4 <= x && x + 5 <= w && 4 <= y && y + 5 <= h
    ensures warm == RectSum(RedOverBlue(PixelsOf(data, w)), w, h, x - 4, x + 5, y - 4, y + 5)
  {
    ghost var f := RedOverBlue(PixelsOf(data, w));
    var i := x + y * w;
    warm := 0.0;
    for dy: int := -4 to 5
      invariant warm == RectSum(f, w, h, x - 4, x + 5, y - 4, y + dy)
    {
      ghost var start := warm;
      for dx: int := -4 to 5
        invariant warm == start + RowSum(f, w, y + dy, x - 4, x + dx)
      {
        WindowIndex(w, h, x, y, dx, dy);
        var p := data[i + dx + dy * w];
        assert p == PixelsOf(data, w)(x + dx, y + dy);
        warm := warm + (p.r - p.b) as real;
      }
    }
  }

  /** The glyph at a peak that is not taken. */
  method DescribePixel(a: Arrays, ghost fs: Fields, w: nat, h: nat, mountain: Raster, from: int, x: nat, y: nat) returns (g: Glyph)
    requires HoldFields(a, fs) && fs.w == w && fs.h == h && 6 <= x && x + 6 <= w && 6 <= y && y + 6 <= h
    ensures g == Describe(fs, mountain, from, x, y)
  {
    var best, at := StrongestPixel(a.contrast, w, h, x, y, fs.contrast);
    var warm := WarmthSum(a.data, w, h, x, y);
    warm := warm / 81.0;
    RowMajor(w, h, x, y);
    var i, ay := x + y * w, from + y;
    assert View(a.ground[..], w)(x, y) == fs.ground(x, y) && View(a.lum[..], w)(at.0, at.1) == fs.lum(at.0, at.1);
    assert fs.pixels(at.0, at.1) == a.data[best];
    var kind := Classify(a.ground[i], warm, a.data[best], a.lum[best], mountain(x, ay));
    g := Glyph(x, ay, kind, WeightOf(kind, mountain(x, ay)));
  }

  /** One pixel of the scan. */
  method VisitPixel(a: Arrays, ghost fs: Fields, w: nat, h: nat, mountain: Raster, from: int, x: nat, y: nat, kept: Kept) returns (now: Kept)
    requires HoldFields(a, fs) && fs.w == w && fs.h == h && 6 <= x && x + 6 <= w && 6 <= y && y + 6 <= h
    ensures now == Visit(kept, Sensed(fs, mountain, from, x, y))
  {
    RowMajor(w, h, x, y);
    var i := x + y * w;
    assert View(a.marks[..], w)(x, y) == fs.marks(x, y) && View(a.ground[..], w)(x, y) == fs.ground(x, y);
    assert View(a.peaks[..], w)(x, y) == fs.peaks(x, y);
    now := kept;
    if a.marks[i] < (if a.ground[i] < 60.0 then 4.5 else 8.0) || a.marks[i] < a.peaks[i] {
      return;
    }
    var taken := IsTaken(kept, x, from + y);
    if !taken {
      var g := DescribePixel(a, fs, w, h, mountain, from, x, y);
      now := Kept(kept.found + [g], kept.near[x / 8 + (from + y) / 8 * 1024 := |kept.found|]);
    }
  }

  /** The arrays hold the band from row `from` of the picture whose own pictures are `whole`. */
  ghost predicate InBand(a: Arrays, fs: Fields, whole: Fields, mountain: Raster, from: nat, sense: Sense)
    reads a.lum, a.ground, a.contrast, a.marks, a.peaks
  {
    HoldFields(a, fs) && FieldsAgree(from, fs, whole) && forall x, y :: SensesAt(sense, whole, mountain, x, y)
  }

  /** One pixel of a band, in the pass over the whole picture. */
  method VisitPixelOfBand(a: Arrays, ghost fs: Fields, ghost whole: Fields, ghost sense: Sense, w: nat, rows: nat, mountain: Raster, from: nat, x: nat, y: nat, kept: Kept) returns (now: Kept)
    requires InBand(a, fs, whole, mountain, from, sense) && whole.w == w && fs.h == rows
    requires Visited(w, whole.h, from, rows, x, from + y)
    ensures now == Visit(kept, sense(x, from + y))
  {
    SensesAlike(from, fs, whole, mountain, x, from + y);
    assert SensesAt(sense, whole, mountain, x, from + y);
    now := VisitPixel(a, fs, w, rows, mountain, from, x, y, kept);
  }

  /** One row of a band, continuing the one pass over the whole picture. */
  method VisitRow(a: Arrays, ghost fs: Fields, ghost whole: Fields, ghost sense: Sense, w: nat, rows: nat, mountain: Raster, from: nat, y: nat, kept: Kept) returns (now: Kept)
    requires InBand(a, fs, whole, mountain, from, sense) && whole.w == w && fs.h == rows
    requires 6 <= from + y < whole.h - 6 && Lowest(from, MARGIN) <= from + y < Highest(whole.h, from, rows, MARGIN)
    ensures now == ScanRow(sense, kept, from + y, w - 6)
  {
    now := kept;
    var x := 6;
    while x < w - 6
      invariant 6 <= x && (x <= w - 6 || x == 6) && now == ScanRow(sense, kept, from + y, x)
    {
      now := VisitPixelOfBand(a, fs, whole, sense, w, rows, mountain, from, x, y, now);
      x := x + 1;
    }
  }

  // The band's own rows lie MARGIN px inside it, or at the artwork's edge.
  lemma OwnRows(h: nat, top: nat, from: int, rows: int)
    requires top < h && top % STRIP == 0 && from == Max(0, top - MARGIN) && rows == Min(h, top + STRIP + MARGIN) - from
    ensures rows > 0 && WideEnough(h, from, rows) && Lowest(from, MARGIN) <= Max(6, top)
    ensures Min(h - 6, top + STRIP) <= Highest(h, from, rows, MARGIN)
  {
  }

  // Where one band's rows end the next band's begin.
  lemma RowsJoin(sense: Sense, w: int, h: nat, top: nat)
    requires top < h && top % STRIP == 0
    ensures ScanTo(sense, w, Min(h - 6, top)) ==
      if Max(6, top) <= Min(h - 6, top + STRIP) then ScanTo(sense, w, Max(6, top)) else ScanTo(sense, w, Min(h - 6, top + STRIP))
  {
  }

  /** Rows [start, last) of a filtered band. */
  method VisitRows(a: Arrays, ghost fs: Fields, ghost whole: Fields, ghost sense: Sense, w: nat, rows: nat, mountain: Raster, from: nat, start: nat, last: int, kept: Kept) returns (now: Kept)
    requires InBand(a, fs, whole, mountain, from, sense) && whole.w == w && fs.h == rows
    requires 6 <= from + start && Lowest(from, MARGIN) <= from + start
    requires start < last ==> from + last <= whole.h - 6 && from + last <= Highest(whole.h, from, rows, MARGIN)
    requires start <= last ==> kept == ScanTo(sense, w, from + start)
    ensures now == if start <= last then ScanTo(sense, w, from + last) else kept
  {
    now := kept;
    var y := start;
    while y < last
      invariant start <= y && (start <= last ==> y <= last && now == ScanTo(sense, w, from + y))
      invariant start > last ==> now == kept
    {
      now := VisitRow(a, fs, whole, sense, w, rows, mountain, from, y, now);
      y := y + 1;
    }
  }

  lemma BandBounds(w: nat, h: nat, from: nat, rows: nat)
    requires from + rows <= h
    ensures w * from + w * rows == w * (from + rows) <= w * h
  {
  }

  /** What the whole picture, filtered as a whole, shows and senses. */
  ghost predicate IsWhole(p: Picture, whole: Fields, sense: Sense) {
    whole == FieldsOf(p.pixels, p.w, p.h) && forall x, y :: SensesAt(sense, whole, p.mountain, x, y)
  }

  /** The band's own pixels. */
  method BandData(p: Picture, from: nat, rows: nat) returns (data: seq<Pixel>)
    requires p.Valid() && rows > 0 && from + rows <= p.h
    ensures IsBand(p, from, rows, data)
  {
    BandBounds(p.w, p.h, from, rows);
    data := p.pixels[p.w * from..p.w * (from + rows)];
  }

  /** What a band reads agrees with what the whole picture shows. */
  lemma BandShows(p: Picture, whole: Fields, sense: Sense, from: nat, rows: nat, data: seq<Pixel>, fs: Fields)
    requires IsBand(p, from, rows, data) && WideEnough(p.h, from, rows) && IsWhole(p, whole, sense) && fs == FieldsOf(data, p.w, rows)
    ensures FieldsAgree(from, fs, whole) && fs.h == rows && forall x, y :: SensesAt(sense, whole, p.mountain, x, y)
  {
    FiltersAgree(p, from, rows, data);
  }

  /** The band from row `from`, filtered. */
  method BandOf(p: Picture, ghost whole: Fields, ghost sense: Sense, from: nat, rows: nat) returns (a: Arrays, ghost fs: Fields)
    requires p.Valid() && rows > 0 && from + rows <= p.h && WideEnough(p.h, from, rows) && IsWhole(p, whole, sense)
    ensures InBand(a, fs, whole, p.mountain, from, sense) && fs.h == rows
  {
    var data := BandData(p, from, rows);
    fs := FieldsOf(data, p.w, rows);
    BandShows(p, whole, sense, from, rows, data, fs);
    a := ReadBand(data, p.w, rows);
  }

  /** One band: its own rows, in the pass over the whole picture. */
  method ScanBand(p: Picture, ghost whole: Fields, ghost sense: Sense, top: nat, kept: Kept) returns (now: Kept)
    requires p.Valid() && top < p.h && top % STRIP == 0 && IsWhole(p, whole, sense)
    requires kept == ScanTo(sense, p.w, Min(p.h - 6, top))
    ensures now == ScanTo(sense, p.w, Min(p.h - 6, top + STRIP))
  {
    var from := Max(0, top - MARGIN);
    var rows := Min(p.h, top + STRIP + MARGIN) - from;
    OwnRows(p.h, top, from, rows);
    var a, fs := BandOf(p, whole, sense, from, rows);
    var last := Min(p.h - 6, top + STRIP) - from;
    RowsJoin(sense, p.w, p.h, top);
    now := VisitRows(a, fs, whole, sense, p.w, rows, p.mountain, from, Max(6, top) - from, last, kept);
  }

  /** Every band in turn. */
  method ScanBands(p: Picture, ghost whole: Fields, ghost sense: Sense) returns (kept: Kept)
    requires p.Valid() && IsWhole(p, whole, sense)
    ensures kept == ScanTo(sense, p.w, p.h - 6)
  {
    kept := Kept([], map[]);
    var top := 0;
    while top < p.h
      invariant top % STRIP == 0 && kept == ScanTo(sense, p.w, Min(p.h - 6, top))
    {
      kept := ScanBand(p, whole, sense, top, kept);
      top := top + STRIP;
    }
  }

  lemma WholeIs(p: Picture)
    ensures IsWhole(p, FieldsOf(p.pixels, p.w, p.h), SenseOf(FieldsOf(p.pixels, p.w, p.h), p.mountain))
  {
  }

  /** `analyse`: the glyphs found band by band are those one pass over the whole picture finds. */
  method Analyse(p: Picture) returns (found: seq<Glyph>)
    requires p.Valid()
    ensures found == Found(p)
  {
    WholeIs(p);
    var kept := ScanBands(p, FieldsOf(p.pixels, p.w, p.h), SenseOf(FieldsOf(p.pixels, p.w, p.h), p.mountain));
    found := kept.found;
  }
}
