/** What the scan finds: every peak is kept or stands close to a kept one, and which pairs of kept glyphs may be close. */
module GlyphFacts {
  import opened Options
  import opened Separable
  import opened BandedScan

  // ---------------------------------------------------------------- the mark's own colour

  /** `at` is the strongest of `c` among the centre and the window's places before row `v`, column `u`. */
  ghost predicate StrongestOf(c: Raster, x: int, y: int, v: int, u: int, at: Place) {
    && (at == (x, y) || BeforeIn(x, y, v, u, at.0, at.1))
    && c(x, y) <= c(at.0, at.1)
    && (forall p, q :: BeforeIn(x, y, v, u, p, q) ==> c(p, q) <= c(at.0, at.1))
    && (at == (x, y) || c(x, y) < c(at.0, at.1))
    && (at == (x, y) || forall p, q :: BeforeIn(x, y, v, u, p, q) && (q < at.1 || (q == at.1 && p < at.0)) ==> c(p, q) < c(at.0, at.1))
  }

  /** The place (p, q) of the 7 x 7 about (x, y) comes, in reading order, before column u of row v. */
  ghost predicate BeforeIn(x: int, y: int, v: int, u: int, p: int, q: int) {
    x - 3 <= p <= x + 3 && y - 3 <= q <= y + 3 && (q < v || (q == v && p < u))
  }

  lemma {:induction false} StrongestInRowIs(c: Raster, x: int, y: int, v: int, end: int, best: Place)
    requires y - 3 <= v <= y + 3 && x - 3 <= end <= x + 4 && StrongestOf(c, x, y, v, x - 3, best)
    ensures StrongestOf(c, x, y, v, end, StrongestInRow(c, x, v, end, best))
    decreases end - x + 3
  {
    if end > x - 3 {
      StrongestInRowIs(c, x, y, v, end - 1, best);
      assert forall p, q :: BeforeIn(x, y, v, end, p, q) <==> BeforeIn(x, y, v, end - 1, p, q) || (p == end - 1 && q == v);
    }
  }

  // The pixel a mark's colour is read from has the most contrast of the 7 x 7; the centre wins a tie, then the first in reading order.
  lemma {:induction false} StrongestIs(c: Raster, x: int, y: int, end: int)
    requires y - 3 <= end <= y + 4
    ensures StrongestOf(c, x, y, end, x - 3, Strongest(c, x, y, end))
    decreases end - y + 3
  {
    if end > y - 3 {
      StrongestIs(c, x, y, end - 1);
      var best := Strongest(c, x, y, end - 1);
      StrongestInRowIs(c, x, y, end - 1, x + 4, best);
      var left, right := x - 3, x + 4;
      assert forall p, q :: BeforeIn(x, y, end, left, p, q) <==> BeforeIn(x, y, end - 1, right, p, q);
    }
  }

  // ---------------------------------------------------------------- which glyphs are kept

  function CellOf(g: Glyph): int {
    Key(g.x, g.y, 0, 0)
  }

  /** No glyph kept later lies in the same cell. */
  ghost predicate LastInCell(found: seq<Glyph>, i: nat) {
    i < |found| && forall j :: i < j < |found| ==> CellOf(found[j]) != CellOf(found[i])
  }

  /** The map names the last glyph kept in each cell. */
  ghost predicate NearIsLast(kept: Kept) {
    && (forall k :: k in kept.near ==> kept.near[k] < |kept.found| && CellOf(kept.found[kept.near[k]]) == k && LastInCell(kept.found, kept.near[k]))
    && forall i :: 0 <= i < |kept.found| ==> CellOf(kept.found[i]) in kept.near
  }

  lemma KeepNearIsLast(kept: Kept, g: Glyph)
    requires NearIsLast(kept)
    ensures NearIsLast(Keep(kept, g))
  {
  }

  lemma CloseCells(a: int, b: int)
    requires -6 < a - b < 6
    ensures -1 <= a / 8 - b / 8 <= 1
  {
  }

  lemma FarApart(a: int)
    requires a >= 6 || a <= -6
    ensures a * a >= 36
  {
  }

  lemma CloserCells(g: Glyph, x: int, y: int)
    requires Closer(g, x, y)
    ensures -1 <= g.x / 8 - x / 8 <= 1 && -1 <= g.y / 8 - y / 8 <= 1
  {
    var a, b := g.x - x, g.y - y;
    assert a * a >= 0 && b * b >= 0;
    if !(-6 < a < 6) {
      FarApart(a);
    }
    if !(-6 < b < 6) {
      FarApart(b);
    }
    CloseCells(g.x, x);
    CloseCells(g.y, y);
  }

  /** Glyph `i`, still the last kept in its cell, is less than 6 px from a place. */
  ghost predicate LastAndCloser(found: seq<Glyph>, i: nat, x: int, y: int) {
    LastInCell(found, i) && Closer(found[i], x, y)
  }

  // A place is passed over exactly when some glyph still the last kept in its cell is less than 6 px away.
  lemma TakenExactly(kept: Kept, x: int, y: int)
    requires NearIsLast(kept)
    ensures Taken(kept, x, y) <==> exists i :: LastAndCloser(kept.found, i, x, y)
  {
    if exists i: nat :: LastAndCloser(kept.found, i, x, y) {
      var i: nat :| LastAndCloser(kept.found, i, x, y);
      var g := kept.found[i];
      CloserCells(g, x, y);
      var dx, dy := g.x / 8 - x / 8, g.y / 8 - y / 8;
      assert Key(x, y, dx, dy) == CellOf(g);
      var k := kept.near[CellOf(g)];
      assert CellOf(kept.found[k]) == CellOf(g) && LastInCell(kept.found, k);
      assert k == i;
      assert Blocks(kept, x, y, dx, dy);
      assert TakenInRow(kept, x, y, dy);
    }
    if Taken(kept, x, y) {
      var dy :| -1 <= dy < 2 && TakenInRow(kept, x, y, dy);
      var dx :| -1 <= dx < 2 && Blocks(kept, x, y, dx, dy);
      assert LastAndCloser(kept.found, kept.near[Key(x, y, dx, dy)], x, y);
    }
  }

  /** Two kept glyphs less than 6 px apart have between them one kept in the first's cell. */
  ghost predicate CloseOnlyWhenReplaced(found: seq<Glyph>) {
    forall i, j :: 0 <= i < j < |found| && Closer(found[i], found[j].x, found[j].y) ==> Replaced(found, i, j)
  }

  ghost predicate Replaced(found: seq<Glyph>, i: nat, j: nat) {
    exists k :: i < k < j && k < |found| && CellOf(found[k]) == CellOf(found[i])
  }

  lemma VisitKeepsApart(kept: Kept, sensed: Option<Glyph>)
    requires NearIsLast(kept) && CloseOnlyWhenReplaced(kept.found)
    ensures NearIsLast(Visit(kept, sensed)) && CloseOnlyWhenReplaced(Visit(kept, sensed).found)
  {
    var now := Visit(kept, sensed);
    if now != kept {
      var g := sensed.value;
      KeepNearIsLast(kept, g);
      TakenExactly(kept, g.x, g.y);
      forall i, j | 0 <= i < j < |now.found| && Closer(now.found[i], now.found[j].x, now.found[j].y) ensures Replaced(now.found, i, j) {
        if j < |kept.found| {
          assert Replaced(kept.found, i, j);
          var k :| i < k < j && k < |kept.found| && CellOf(kept.found[k]) == CellOf(kept.found[i]);
          assert CellOf(now.found[k]) == CellOf(now.found[i]);
        } else {
          assert !LastAndCloser(kept.found, i, g.x, g.y);
          var k :| i < k < |kept.found| && CellOf(kept.found[k]) == CellOf(kept.found[i]);
          assert CellOf(now.found[k]) == CellOf(now.found[i]);
        }
      }
    }
  }

  // ---------------------------------------------------------------- over the whole scan

  /** Place (x, y) is visited before column u of row v. */
  ghost predicate Earlier(w: int, x: int, y: int, u: int, v: int) {
    6 <= x < w - 6 && 6 <= y && (y < v || (y == v && x < u))
  }

  /** The peak at a place is kept, or a kept glyph is less than 6 px away. */
  ghost predicate Accounted(sense: Sense, found: seq<Glyph>, x: int, y: int) {
    sense(x, y).None? || sense(x, y).value in found || exists g :: g in found && Closer(g, x, y)
  }

  /** Every glyph the sense gives stands where it was asked for. */
  ghost predicate SensesPlaces(sense: Sense) {
    forall x, y :: sense(x, y).Some? ==> sense(x, y).value.x == x && sense(x, y).value.y == y
  }

  ghost predicate FromPeaks(sense: Sense, w: int, found: seq<Glyph>, u: int, v: int) {
    forall g :: g in found ==> Earlier(w, g.x, g.y, u, v) && sense(g.x, g.y) == Some(g)
  }

  ghost predicate Scanned(sense: Sense, w: int, kept: Kept, u: int, v: int) {
    && NearIsLast(kept) && CloseOnlyWhenReplaced(kept.found) && FromPeaks(sense, w, kept.found, u, v)
    && forall x, y :: Earlier(w, x, y, u, v) ==> Accounted(sense, kept.found, x, y)
  }

  lemma VisitScans(sense: Sense, w: int, kept: Kept, x: int, y: int)
    requires SensesPlaces(sense) && 6 <= x < w - 6 && 6 <= y && Scanned(sense, w, kept, x, y)
    ensures Scanned(sense, w, Visit(kept, sense(x, y)), x + 1, y)
  {
    var now := Visit(kept, sense(x, y));
    VisitKeepsApart(kept, sense(x, y));
    TakenExactly(kept, x, y);
    assert forall g :: g in kept.found ==> g in now.found;
    forall p, q | Earlier(w, p, q, x + 1, y) ensures Accounted(sense, now.found, p, q) {
      if Earlier(w, p, q, x, y) {
        assert Accounted(sense, kept.found, p, q);
      }
    }
  }

  lemma {:induction false} RowScans(sense: Sense, w: int, kept: Kept, y: int, end: int)
    requires SensesPlaces(sense) && 6 <= y && (6 < end ==> end <= w - 6) && Scanned(sense, w, kept, 6, y)
    ensures Scanned(sense, w, ScanRow(sense, kept, y, end), if end <= 6 then 6 else end, y)
    decreases end
  {
    if end > 6 {
      RowScans(sense, w, kept, y, end - 1);
      VisitScans(sense, w, ScanRow(sense, kept, y, end - 1), end - 1, y);
    }
  }

  lemma {:induction false} RowsScan(sense: Sense, w: int, end: int)
    requires SensesPlaces(sense)
    ensures Scanned(sense, w, ScanTo(sense, w, end), 6, if end <= 6 then 6 else end)
    decreases end
  {
    if end > 6 {
      RowsScan(sense, w, end - 1);
      RowScans(sense, w, ScanTo(sense, w, end - 1), end - 1, w - 6);
      var now := ScanTo(sense, w, end);
      forall p, q | Earlier(w, p, q, 6, end) ensures Accounted(sense, now.found, p, q) {
        assert Earlier(w, p, q, w - 6, end - 1);
      }
    }
  }

  /** What a whole scan found, against its sense of each place. */
  ghost predicate FoundWell(sense: Sense, w: int, h: int, found: seq<Glyph>) {
    && (forall g :: g in found ==> 6 <= g.x < w - 6 && 6 <= g.y < h - 6 && sense(g.x, g.y) == Some(g))
    && (forall x, y :: 6 <= x < w - 6 && 6 <= y < h - 6 ==> Accounted(sense, found, x, y))
    && CloseOnlyWhenReplaced(found)
  }

  lemma ScanFinds(sense: Sense, w: int, h: int, found: seq<Glyph>)
    requires SensesPlaces(sense) && found == ScanTo(sense, w, h - 6).found
    ensures FoundWell(sense, w, h, found)
  {
    RowsScan(sense, w, h - 6);
    forall x, y | 6 <= x < w - 6 && 6 <= y < h - 6 ensures Accounted(sense, found, x, y) {
      assert Earlier(w, x, y, 6, h - 6);
    }
  }

  lemma SensesWhereAsked(whole: Fields, mountain: Raster)
    ensures SensesPlaces(SenseOf(whole, mountain))
  {
  }

  // Whatever the picture: what is found are peaks of the picture filtered as a whole, each at its own place; every peak is
  // found or has a found glyph less than 6 px away; two found glyphs are that close only when the first was no longer the last of its cell.
  lemma FoundExactly(p: Picture)
    ensures FoundWell(SenseOf(FieldsOf(p.pixels, p.w, p.h), p.mountain), p.w, p.h, Found(p))
  {
    var whole := FieldsOf(p.pixels, p.w, p.h);
    SensesWhereAsked(whole, p.mountain);
    ScanFinds(SenseOf(whole, p.mountain), p.w, p.h, Found(p));
  }
}
