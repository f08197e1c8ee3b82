/** The editor's data model: tools, rectangles on the cell grid, placed
    entries and per-page state. Rectangles hold two arbitrary corners;
    every consumer goes through `Normalized`. */
module Geometry {
  import opened Wrappers
  import opened JsonValue

  /** The closed set of editing tools. `ButtonPress` is kept as an enum
      member although loading maps its name to `ButtonStandard`. */
  datatype Tool =
    | Background
    | ButtonStandard
    | ButtonPress
    | ButtonToggle
    | TextEntry
    | SelectList
    | TextSlot
    | ItemSlot

  /** `Tool.value`, the name stored in saved documents. */
  function ToolValue(t: Tool): string
  {
    match t
    case Background => "background"
    case ButtonStandard => "button_standard"
    case ButtonPress => "button_press"
    case ButtonToggle => "button_toggle"
    case TextEntry => "text_entry"
    case SelectList => "select_list"
    case TextSlot => "text_slot"
    case ItemSlot => "item_slot"
  }

  /** `Tool(s)`: the enum member whose value is `s`, `None` where the
      constructor raises. */
  function ToolFromValue(s: string): (r: Option<Tool>)
    ensures r.Some? ==> ToolValue(r.value) == s
  {
    if s == "background" then Some(Background)
    else if s == "button_standard" then Some(ButtonStandard)
    else if s == "button_press" then Some(ButtonPress)
    else if s == "button_toggle" then Some(ButtonToggle)
    else if s == "text_entry" then Some(TextEntry)
    else if s == "select_list" then Some(SelectList)
    else if s == "text_slot" then Some(TextSlot)
    else if s == "item_slot" then Some(ItemSlot)
    else None
  }

  /** Every tool's name reads back as that tool, so names are distinct. */
  lemma ToolValueRoundTrip(t: Tool)
    ensures ToolFromValue(ToolValue(t)) == Some(t)
  {
  }

  /** Tools whose rectangles are forced square while dragging. */
  predicate SquareOnly(t: Tool)
  {
    t == ItemSlot
  }

  /** An axis-aligned rectangle of grid cells given by two corners, both
      inclusive, in any order. */
  datatype Rect = Rect(x0: int, y0: int, x1: int, y1: int)

  predicate IsNormalized(r: Rect)
  {
    r.x0 <= r.x1 && r.y0 <= r.y1
  }

  function Abs(a: int): nat
  {
    if a < 0 then -a else a
  }

  /** `sorted((a, b))` of two ints. */
  function Sorted2(a: int, b: int): (int, int)
  {
    if a <= b then (a, b) else (b, a)
  }

  /** `Rect.normalized()`: the same corners, smaller coordinate first on
      each axis. Normalizing a normalized rectangle changes nothing, so
      normalizing is idempotent. */
  function Normalized(r: Rect): (n: Rect)
    ensures IsNormalized(n)
    ensures {n.x0, n.x1} == {r.x0, r.x1} && {n.y0, n.y1} == {r.y0, r.y1}
    ensures IsNormalized(r) ==> n == r
  {
    var (ax0, ax1) := Sorted2(r.x0, r.x1);
    var (ay0, ay1) := Sorted2(r.y0, r.y1);
    Rect(ax0, ay0, ax1, ay1)
  }

  lemma NormalizedIdempotent(r: Rect)
    ensures Normalized(Normalized(r)) == Normalized(r)
  {
  }

  /** `Rect.width()`: the number of columns covered, counting both ends,
      whichever corner was given first. */
  function Width(r: Rect): (w: int)
    ensures w >= 1 && w == Abs(r.x1 - r.x0) + 1
  {
    var n := Normalized(r);
    n.x1 - n.x0 + 1
  }

  /** `Rect.height()`: the number of rows covered, counting both ends. */
  function Height(r: Rect): (h: int)
    ensures h >= 1 && h == Abs(r.y1 - r.y0) + 1
  {
    var n := Normalized(r);
    n.y1 - n.y0 + 1
  }

  /** The cell `(x, y)` lies inside `r`. */
  predicate Contains(r: Rect, x: int, y: int)
  {
    var n := Normalized(r);
    n.x0 <= x <= n.x1 && n.y0 <= y <= n.y1
  }

  /** The cells `(x, y)` with `x` from `x` to `x1`, left to right. */
  function RowCells(y: int, x: int, x1: int): seq<(int, int)>
    decreases x1 - x
  {
    if x > x1 then [] else [(x, y)] + RowCells(y, x + 1, x1)
  }

  /** Rows `y` to `y1` of columns `x0..x1`, top to bottom. */
  function RowsCells(y: int, y1: int, x0: int, x1: int): seq<(int, int)>
    decreases y1 - y
  {
    if y > y1 then [] else RowCells(y, x0, x1) + RowsCells(y + 1, y1, x0, x1)
  }

  /** `Rect.cells()`: every covered cell, `y` in the outer loop and `x` in
      the inner one. */
  function Cells(r: Rect): seq<(int, int)>
  {
    var n := Normalized(r);
    RowsCells(n.y0, n.y1, n.x0, n.x1)
  }

  lemma {:induction false} RowCellsAt(y: int, x: int, x1: int)
    requires x <= x1 + 1
    ensures |RowCells(y, x, x1)| == x1 - x + 1
    ensures forall k :: 0 <= k < x1 - x + 1 ==> RowCells(y, x, x1)[k] == (x + k, y)
    decreases x1 - x
  {
    if x <= x1 {
      RowCellsAt(y, x + 1, x1);
    }
  }

  /** Division by a positive number is determined by quotient and remainder. */
  lemma DivModUnique(a: int, w: int, q: int, m: int)
    requires w > 0 && 0 <= m < w && a == q * w + m
    ensures a / w == q && a % w == m
  {
    var q', m' := a / w, a % w;
    assert a == q' * w + m';
    assert (q - q') * w == m' - m;
    if q > q' {
      MulAtLeast(q - q', w);
    } else if q < q' {
      assert (q' - q) * w == m - m';
      MulAtLeast(q' - q, w);
    }
  }

  lemma MulAtLeast(d: int, w: int)
    requires d >= 1 && w > 0
    ensures d * w >= w
  {
    assert d * w == (d - 1) * w + w;
    assert (d - 1) * w >= 0;
  }

  /** Dropping one full row of `w` cells lowers the row index by one. */
  lemma DivModShift(i: int, w: int)
    requires w > 0 && i >= w
    ensures (i - w) / w + 1 == i / w && (i - w) % w == i % w
  {
    var q, m := (i - w) / w, (i - w) % w;
    assert i == (q + 1) * w + m;
    DivModUnique(i, w, q + 1, m);
  }

  lemma {:induction false} RowsCellsAt(y: int, y1: int, x0: int, x1: int)
    requires x0 <= x1 && y <= y1 + 1
    ensures |RowsCells(y, y1, x0, x1)| == (y1 - y + 1) * (x1 - x0 + 1)
    ensures forall i :: 0 <= i < |RowsCells(y, y1, x0, x1)| ==>
      RowsCells(y, y1, x0, x1)[i] == (x0 + i % (x1 - x0 + 1), y + i / (x1 - x0 + 1))
    decreases y1 - y
  {
    if y <= y1 {
      var w := x1 - x0 + 1;
      var row := RowCells(y, x0, x1);
      var rest := RowsCells(y + 1, y1, x0, x1);
      RowCellsAt(y, x0, x1);
      RowsCellsAt(y + 1, y1, x0, x1);
      assert (y1 - y + 1) * w == w + (y1 - y) * w;
      forall i | 0 <= i < |row + rest|
        ensures (row + rest)[i] == (x0 + i % w, y + i / w)
      {
        if i < w {
          DivModUnique(i, w, 0, i);
        } else {
          DivModShift(i, w);
        }
      }
    }
  }

  /** The `i`-th cell of `Cells(r)` in closed form: `Cells(r)` has
      `Width(r) * Height(r)` elements, row by row. */
  lemma CellsAt(r: Rect)
    ensures |Cells(r)| == Width(r) * Height(r)
    ensures forall i :: 0 <= i < |Cells(r)| ==>
      Cells(r)[i] == (Normalized(r).x0 + i % Width(r), Normalized(r).y0 + i / Width(r))
  {
    var n := Normalized(r);
    RowsCellsAt(n.y0, n.y1, n.x0, n.x1);
  }

  lemma MulMono(a: int, b: int, w: int)
    requires a <= b && w > 0
    ensures a * w <= b * w
  {
    assert b * w - a * w == (b - a) * w;
  }

  /** Row index and column of a cell number in a `w`-wide, `h`-high block. */
  lemma DivBound(i: int, w: int, h: int)
    requires w > 0 && 0 <= i < w * h
    ensures 0 <= i / w < h && 0 <= i % w < w
  {
    var q := i / w;
    if q >= h {
      MulMono(h, q, w);
    }
  }

  lemma IndexBound(row: int, col: int, w: int, h: int)
    requires 0 <= row < h && 0 <= col < w
    ensures 0 <= row * w + col < w * h
  {
    MulMono(row, h - 1, w);
    MulMono(0, row, w);
    assert (h - 1) * w + w == w * h;
  }

  /** `Cells(r)` holds exactly the cells inside `r`. */
  lemma CellsExactly(r: Rect)
    ensures forall x, y :: (x, y) in Cells(r) <==> Contains(r, x, y)
  {
    var n := Normalized(r);
    var w, h := Width(r), Height(r);
    var cs := Cells(r);
    CellsAt(r);
    forall x, y | Contains(r, x, y)
      ensures (x, y) in cs
    {
      var i := (y - n.y0) * w + (x - n.x0);
      IndexBound(y - n.y0, x - n.x0, w, h);
      DivModUnique(i, w, y - n.y0, x - n.x0);
      assert cs[i] == (x, y);
    }
    forall i | 0 <= i < |cs|
      ensures Contains(r, cs[i].0, cs[i].1)
    {
      DivBound(i, w, h);
    }
  }

  /** `Cells(r)` lists its cells in row-major order, by `y` then by `x`,
      so no cell occurs twice. */
  lemma CellsRowMajor(r: Rect)
    ensures forall i, j :: 0 <= i < j < |Cells(r)| ==>
      Cells(r)[i].1 < Cells(r)[j].1 || (Cells(r)[i].1 == Cells(r)[j].1 && Cells(r)[i].0 < Cells(r)[j].0)
  {
    var w := Width(r);
    var cs := Cells(r);
    CellsAt(r);
    forall i, j | 0 <= i < j < |cs|
      ensures cs[i].1 < cs[j].1 || (cs[i].1 == cs[j].1 && cs[i].0 < cs[j].0)
    {
      DivModOrder(i, j, w);
    }
  }

  lemma DivModOrder(i: int, j: int, w: int)
    requires 0 <= i < j && w > 0
    ensures i / w < j / w || (i / w == j / w && i % w < j % w)
  {
    var qi, qj := i / w, j / w;
    assert i == qi * w + i % w && j == qj * w + j % w;
    if qi > qj {
      assert (qj + 1) * w == qj * w + w;
      MulMono(qj + 1, qi, w);
    } else if qi == qj {
      assert j - i == j % w - i % w;
    }
  }

  /** `_make_square_rect`: the square drag box anchored at `start` and
      stretched towards `end` until it covers `end` on both axes. */
  function MakeSquareRect(start: (int, int), end: (int, int)): (r: Rect)
    ensures IsNormalized(r)
    ensures Width(r) == Height(r) == 1 + (if Abs(end.0 - start.0) >= Abs(end.1 - start.1) then Abs(end.0 - start.0) else Abs(end.1 - start.1))
    ensures Contains(r, start.0, start.1) && Contains(r, end.0, end.1)
    ensures (start.0 == r.x0 || start.0 == r.x1) && (start.1 == r.y0 || start.1 == r.y1)
  {
    var (x0, y0) := start;
    var (x1, y1) := end;
    var dx := x1 - x0;
    var dy := y1 - y0;
    var size := if Abs(dx) >= Abs(dy) then Abs(dx) else Abs(dy);
    var sx := if dx >= 0 then 1 else -1;
    var sy := if dy >= 0 then 1 else -1;
    Normalized(Rect(x0, y0, x0 + sx * size, y0 + sy * size))
  }

  /** A placed element: `entryId` is page-scoped, `uid` global, `text` is
      the `label` field (typed text, selected list value). `meta` is
      the free-form settings dict (locked flag, hover text, page change). */
  datatype Entry = Entry(
    entryId: int,
    tool: Tool,
    rect: Rect,
    uid: int,
    active: bool,
    text: string,
    meta: Json)

  /** One page: its painted background, the entries by id, and the
      cell -> entry-id lookup grid, both grids indexed `[y][x]`. */
  datatype PageState = PageState(
    pageId: int,
    background: seq<seq<bool>>,
    entries: map<int, Entry>,
    cellToEntry: seq<seq<Option<int>>>,
    nextEntryId: int)

  /** An `n` by `n` grid of anything. */
  predicate IsSquareGrid<T>(g: seq<seq<T>>, n: nat)
  {
    |g| == n && forall y :: 0 <= y < n ==> |g[y]| == n
  }

  /** The lookup grid with every in-grid cell of `rect` set to `eid`. */
  function Stamp(cells: seq<seq<Option<int>>>, rect: Rect, eid: int, n: nat): (r: seq<seq<Option<int>>>)
    requires IsSquareGrid(cells, n)
    ensures IsSquareGrid(r, n)
    ensures forall y, x :: 0 <= y < n && 0 <= x < n ==>
      r[y][x] == if Contains(rect, x, y) then Some(eid) else cells[y][x]
  {
    seq(n, y requires 0 <= y < n => seq(n, x requires 0 <= x < n => if Contains(rect, x, y) then Some(eid) else cells[y][x]))
  }

  /** `cell_to_entry[y][x] = eid` for every in-grid cell of `rect`, in the
      order `Rect.cells()` lists them. */
  method StampCells(cells: seq<seq<Option<int>>>, rect: Rect, eid: int, n: nat) returns (r: seq<seq<Option<int>>>)
    requires IsSquareGrid(cells, n)
    ensures r == Stamp(cells, rect, eid, n)
  {
    r := cells;
    var cs := Cells(rect);
    var j := 0;
    while j < |cs|
      invariant 0 <= j <= |cs|
      invariant IsSquareGrid(r, n)
      invariant forall y, x :: 0 <= y < n && 0 <= x < n ==>
        r[y][x] == if (x, y) in cs[..j] then Some(eid) else cells[y][x]
    {
      var (x, y) := cs[j];
      if 0 <= x < n && 0 <= y < n {
        r := r[y := r[y][x := Some(eid)]];
      }
      assert cs[..j + 1] == cs[..j] + [cs[j]];
      j := j + 1;
    }
    assert cs[..j] == cs;
    CellsExactly(rect);
    ghost var s := Stamp(cells, rect, eid, n);
    forall y | 0 <= y < n
      ensures r[y] == s[y]
    {
    }
  }
}
