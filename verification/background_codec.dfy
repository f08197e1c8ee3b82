/** Lossless compression of a page's painted background, an `n` by `n`
    boolean grid indexed `[y][x]`, into rectangles, and the way back.
    Saved documents store the rectangles (`background_rects`). */
module BackgroundCodec {
  import opened Geometry

  /** All corners of a normalized rectangle lie in `[0, n)`. */
  predicate InGrid(r: Rect, n: int)
  {
    IsNormalized(r) && 0 <= r.x0 && r.x1 < n && 0 <= r.y0 && r.y1 < n
  }

  /** Two normalized rectangles share no cell. */
  predicate Disjoint(a: Rect, b: Rect)
  {
    a.x1 < b.x0 || b.x1 < a.x0 || a.y1 < b.y0 || b.y1 < a.y0
  }

  /** Some rectangle of `rects` covers cell `(x, y)`. */
  predicate Covers(rects: seq<Rect>, x: int, y: int)
  {
    exists i :: 0 <= i < |rects| && Contains(rects[i], x, y)
  }

  /** The rectangles tile exactly the set cells of `bg`: each is normalized
      and inside the grid, no two overlap, and a cell is covered iff it is
      set. */
  predicate ExactTiling(rects: seq<Rect>, bg: seq<seq<bool>>, n: nat)
    requires IsSquareGrid(bg, n)
  {
    && (forall i :: 0 <= i < |rects| ==> InGrid(rects[i], n))
    && (forall i, j :: 0 <= i < j < |rects| ==> Disjoint(rects[i], rects[j]))
    && (forall x, y :: 0 <= x < n && 0 <= y < n ==> (Covers(rects, x, y) <==> bg[y][x]))
  }

  /** The grid that painting every rectangle, clipped to `[0, n)`, gives. */
  function Painted(rects: seq<Rect>, n: nat): (g: seq<seq<bool>>)
    ensures IsSquareGrid(g, n)
  {
    seq(n, y => seq(n, x => Covers(rects, x, y)))
  }

  lemma CoversAppend(rects: seq<Rect>, r: Rect, x: int, y: int)
    ensures Covers(rects + [r], x, y) <==> Covers(rects, x, y) || Contains(r, x, y)
  {
    var all := rects + [r];
    if Covers(rects, x, y) {
      var i :| 0 <= i < |rects| && Contains(rects[i], x, y);
      assert all[i] == rects[i];
    }
    if Contains(r, x, y) {
      assert all[|rects|] == r;
    }
    if Covers(all, x, y) {
      var i :| 0 <= i < |all| && Contains(all[i], x, y);
      if i < |rects| {
        assert all[i] == rects[i];
      }
    }
  }

  /** A rectangle none of whose cells is covered yet overlaps no earlier
      rectangle. */
  lemma FreshRectDisjoint(rects: seq<Rect>, r: Rect, n: nat)
    requires forall i :: 0 <= i < |rects| ==> InGrid(rects[i], n)
    requires InGrid(r, n)
    requires forall x, y :: r.x0 <= x <= r.x1 && r.y0 <= y <= r.y1 ==> !Covers(rects, x, y)
    ensures forall i :: 0 <= i < |rects| ==> Disjoint(rects[i], r)
  {
    forall i | 0 <= i < |rects|
      ensures Disjoint(rects[i], r)
    {
      var a := rects[i];
      if !Disjoint(a, r) {
        var cx := if a.x0 < r.x0 then r.x0 else a.x0;
        var cy := if a.y0 < r.y0 then r.y0 else a.y0;
        assert Contains(a, cx, cy);
        assert Covers(rects, cx, cy);
        assert false;
      }
    }
  }

  /** Grow `w` to the right from `(x, y)` while the next cell is set and
      not yet visited. */
  method GrowWidth(bg: seq<seq<bool>>, visited: seq<seq<bool>>, n: nat, x: nat, y: nat) returns (w: nat)
    requires IsSquareGrid(bg, n) && IsSquareGrid(visited, n)
    requires x < n && y < n && bg[y][x] && !visited[y][x]
    ensures 1 <= w <= n - x
    ensures forall k :: x <= k < x + w ==> bg[y][k] && !visited[y][k]
    ensures x + w == n || !bg[y][x + w] || visited[y][x + w]
  {
    w := 1;
    while x + w < n && bg[y][x + w] && !visited[y][x + w]
      invariant 1 <= w <= n - x
      invariant forall k :: x <= k < x + w ==> bg[y][k] && !visited[y][k]
    {
      w := w + 1;
    }
  }

  /** Row `row` has a cell in `[x, x + w)` that is clear or already
      visited, so a rectangle spanning those columns cannot grow into it. */
  predicate RowBlocked(bg: seq<seq<bool>>, visited: seq<seq<bool>>, row: nat, x: nat, w: nat)
    requires row < |bg| && row < |visited|
    requires x + w <= |bg[row]| && x + w <= |visited[row]|
  {
    exists k :: x <= k < x + w && (!bg[row][k] || visited[row][k])
  }

  /** Grow `h` downwards while the whole next row segment `[x, x + w)` is
      set and not yet visited. */
  method GrowHeight(bg: seq<seq<bool>>, visited: seq<seq<bool>>, n: nat, x: nat, y: nat, w: nat) returns (h: nat)
    requires IsSquareGrid(bg, n) && IsSquareGrid(visited, n)
    requires y < n && 1 <= w && x + w <= n
    requires forall k :: x <= k < x + w ==> bg[y][k] && !visited[y][k]
    ensures 1 <= h <= n - y
    ensures forall yy, xx :: y <= yy < y + h && x <= xx < x + w ==> bg[yy][xx] && !visited[yy][xx]
    ensures y + h == n || RowBlocked(bg, visited, y + h, x, w)
  {
    h := 1;
    var canGrow := true;
    while y + h < n && canGrow
      invariant 1 <= h <= n - y
      invariant forall yy, xx :: y <= yy < y + h && x <= xx < x + w ==> bg[yy][xx] && !visited[yy][xx]
      invariant !canGrow ==> y + h < n && RowBlocked(bg, visited, y + h, x, w)
      decreases n - y - h + (if canGrow then 1 else 0)
    {
      var next := y + h;
      var xx := x;
      while xx < x + w
        invariant x <= xx <= x + w
        invariant forall k :: x <= k < xx ==> bg[next][k] && !visited[next][k]
      {
        if !bg[next][xx] || visited[next][xx] {
          assert RowBlocked(bg, visited, next, x, w);
          canGrow := false;
          break;
        }
        xx := xx + 1;
      }
      if canGrow {
        h := h + 1;
      }
    }
  }

  /** Mark every cell of the `w` by `h` block at `(x, y)` visited. */
  method MarkVisited(visited: seq<seq<bool>>, n: nat, x: nat, y: nat, w: nat, h: nat) returns (v: seq<seq<bool>>)
    requires IsSquareGrid(visited, n) && x + w <= n && y + h <= n
    ensures IsSquareGrid(v, n)
    ensures forall yy, xx :: 0 <= yy < n && 0 <= xx < n ==>
      v[yy][xx] == (visited[yy][xx] || (x <= xx < x + w && y <= yy < y + h))
  {
    v := visited;
    var yy := y;
    while yy < y + h
      invariant y <= yy <= y + h
      invariant IsSquareGrid(v, n)
      invariant forall b, a :: 0 <= b < n && 0 <= a < n ==>
        v[b][a] == (visited[b][a] || (x <= a < x + w && y <= b < yy))
    {
      var xx := x;
      while xx < x + w
        invariant x <= xx <= x + w
        invariant IsSquareGrid(v, n)
        invariant forall b, a :: 0 <= b < n && 0 <= a < n ==>
          v[b][a] == (visited[b][a] || (x <= a < x + w && y <= b < yy) || (b == yy && x <= a < xx))
      {
        v := v[yy := v[yy][xx := true]];
        xx := xx + 1;
      }
      yy := yy + 1;
    }
  }

  /** `_background_to_rects`: scan the cells row by row; from each set cell
      not yet visited grow a rectangle right, then down, over set unvisited
      cells, mark it visited and emit it. The result tiles exactly the set
      cells with disjoint, in-grid, normalized rectangles. */
  method BackgroundToRects(bg: seq<seq<bool>>, n: nat) returns (rects: seq<Rect>)
    requires IsSquareGrid(bg, n)
    ensures ExactTiling(rects, bg, n)
  {
    var visited := seq(n, _ => seq(n, _ => false));
    rects := [];
    var y := 0;
    while y < n
      invariant 0 <= y <= n
      invariant IsSquareGrid(visited, n)
      invariant forall i :: 0 <= i < |rects| ==> InGrid(rects[i], n)
      invariant forall i, j :: 0 <= i < j < |rects| ==> Disjoint(rects[i], rects[j])
      invariant forall b, a :: 0 <= b < n && 0 <= a < n ==> (visited[b][a] <==> Covers(rects, a, b))
      invariant forall b, a :: 0 <= b < n && 0 <= a < n && Covers(rects, a, b) ==> bg[b][a]
      invariant forall b, a :: 0 <= b < y && 0 <= a < n && bg[b][a] ==> visited[b][a]
    {
      var x := 0;
      while x < n
        invariant 0 <= x <= n
        invariant IsSquareGrid(visited, n)
        invariant forall i :: 0 <= i < |rects| ==> InGrid(rects[i], n)
        invariant forall i, j :: 0 <= i < j < |rects| ==> Disjoint(rects[i], rects[j])
        invariant forall b, a :: 0 <= b < n && 0 <= a < n ==> (visited[b][a] <==> Covers(rects, a, b))
        invariant forall b, a :: 0 <= b < n && 0 <= a < n && Covers(rects, a, b) ==> bg[b][a]
        invariant forall b, a :: 0 <= b < n && 0 <= a < n && (b < y || (b == y && a < x)) && bg[b][a] ==> visited[b][a]
      {
        if bg[y][x] && !visited[y][x] {
          var w := GrowWidth(bg, visited, n, x, y);
          var h := GrowHeight(bg, visited, n, x, y, w);
          var r := Rect(x, y, x + w - 1, y + h - 1);
          FreshRectDisjoint(rects, r, n);
          visited := MarkVisited(visited, n, x, y, w, h);
          forall b, a | 0 <= b < n && 0 <= a < n
            ensures Covers(rects + [r], a, b) <==> Covers(rects, a, b) || Contains(r, a, b)
          {
            CoversAppend(rects, r, a, b);
          }
          rects := rects + [r];
        }
        x := x + 1;
      }
      y := y + 1;
    }
  }

  /** Decoding an exact tiling of `bg` paints `bg` back. */
  lemma PaintedExactTiling(rects: seq<Rect>, bg: seq<seq<bool>>, n: nat)
    requires IsSquareGrid(bg, n) && ExactTiling(rects, bg, n)
    ensures Painted(rects, n) == bg
  {
    var g := Painted(rects, n);
    forall y | 0 <= y < n
      ensures g[y] == bg[y]
    {
      forall x | 0 <= x < n
        ensures g[y][x] == bg[y][x]
      {
      }
    }
  }

  /** A rectangle with no cell inside the grid changes nothing when
      decoded: decoding clips to `[0, n)`. */
  lemma PaintedIgnoresOutside(rects: seq<Rect>, r: Rect, n: nat)
    requires forall x, y :: 0 <= x < n && 0 <= y < n ==> !Contains(r, x, y)
    ensures Painted(rects + [r], n) == Painted(rects, n)
  {
    var g, g' := Painted(rects + [r], n), Painted(rects, n);
    forall y | 0 <= y < n
      ensures g[y] == g'[y]
    {
      forall x | 0 <= x < n
        ensures g[y][x] == g'[y][x]
      {
        CoversAppend(rects, r, x, y);
      }
    }
  }

  /** `_background_from_rects`: start from an empty grid and set every
      in-grid cell of every (normalized) rectangle. */
  method BackgroundFromRects(rects: seq<Rect>, n: nat) returns (bg: seq<seq<bool>>)
    ensures bg == Painted(rects, n)
  {
    bg := seq(n, _ => seq(n, _ => false));
    var i := 0;
    while i < |rects|
      invariant 0 <= i <= |rects|
      invariant IsSquareGrid(bg, n)
      invariant forall y, x :: 0 <= y < n && 0 <= x < n ==> (bg[y][x] <==> Covers(rects[..i], x, y))
    {
      var rr := Normalized(rects[i]);
      var cells := Cells(rr);
      var j := 0;
      while j < |cells|
        invariant 0 <= j <= |cells|
        invariant IsSquareGrid(bg, n)
        invariant forall y, x :: 0 <= y < n && 0 <= x < n ==>
          (bg[y][x] <==> Covers(rects[..i], x, y) || (x, y) in cells[..j])
      {
        var (x, y) := cells[j];
        if 0 <= x < n && 0 <= y < n {
          bg := bg[y := bg[y][x := true]];
        }
        assert cells[..j + 1] == cells[..j] + [cells[j]];
        j := j + 1;
      }
      assert cells[..j] == cells;
      CellsExactly(rr);
      assert rects[..i + 1] == rects[..i] + [rects[i]];
      forall y, x | 0 <= y < n && 0 <= x < n
        ensures bg[y][x] <==> Covers(rects[..i + 1], x, y)
      {
        CoversAppend(rects[..i], rects[i], x, y);
      }
      i := i + 1;
    }
    assert rects[..i] == rects;
    ghost var p := Painted(rects, n);
    forall y | 0 <= y < n
      ensures bg[y] == p[y]
    {
    }
  }

  /** Saving a background and loading it again gives the same grid. */
  method BackgroundRoundTrip(bg: seq<seq<bool>>, n: nat) returns (back: seq<seq<bool>>)
    requires IsSquareGrid(bg, n)
    ensures back == bg
  {
    var rects := BackgroundToRects(bg, n);
    back := BackgroundFromRects(rects, n);
    PaintedExactTiling(rects, bg, n);
  }
}
