/** Packing of component texture blocks onto square sheets: blocks are
    sorted largest first and each is placed top-left first-fit on a
    tile-occupancy grid, or on a sheet of its own when it is larger than a
    sheet. */
module SheetPacker {
  import opened Wrappers
  import opened JsonValue
  import opened Geometry
  import opened BackgroundCodec

  /** The deduplication key of a texture block: one block per toggle size
      and state, per button size, or per component uid. */
  datatype BlockKey =
    | ToggleKey(wTiles: int, hTiles: int, locked: bool, active: bool)
    | ButtonKey(wTiles: int, hTiles: int)
    | ComponentKey(uid: int)

  /** One block to pack: its key and its size in pixels (`w`, `h`, the
      whole 2x2 block) and in grid tiles of the component. */
  datatype BlockSpec = BlockSpec(key: BlockKey, w: int, h: int, wTiles: int, hTiles: int)

  /** A block placed on a sheet at pixel offset `(x, y)`. */
  datatype Placement = Placement(x: int, y: int, key: BlockKey)

  /** A sheet of `w` by `h` pixels. Shared sheets carry the tile-occupancy
      grid while packing; a dedicated sheet has none. */
  datatype Sheet = Sheet(w: int, h: int, placements: seq<Placement>, occ: Option<seq<seq<bool>>>)

  const ExportSheetPx: int := 256

  function BoolRepr(b: bool): string
  {
    if b then "True" else "False"
  }

  /** Python's `repr` of the key tuple, the last component of the sort key. */
  function KeyRepr(k: BlockKey): (s: string)
    ensures |s| > 0 && s[0] == '('
  {
    match k
    case ToggleKey(w, h, l, a) =>
      "('toggle', " + IntToString(w) + ", " + IntToString(h) + ", " + BoolRepr(l) + ", " + BoolRepr(a) + ")"
    case ButtonKey(w, h) => "('button', " + IntToString(w) + ", " + IntToString(h) + ")"
    case ComponentKey(u) => "('component', " + IntToString(u) + ")"
  }

  // ---------------------------------------------------------------------
  // Sort order

  /** Lexicographic order on strings by code point, as Python compares
      `str` values. */
  predicate StrLe(a: string, b: string)
  {
    |a| == 0 || (|b| > 0 && (a[0] < b[0] || (a[0] == b[0] && StrLe(a[1..], b[1..]))))
  }

  lemma {:induction false} StrLeTotal(a: string, b: string)
    ensures StrLe(a, b) || StrLe(b, a)
    decreases |a|
  {
    if |a| > 0 && |b| > 0 && a[0] == b[0] {
      StrLeTotal(a[1..], b[1..]);
    }
  }

  lemma {:induction false} StrLeTrans(a: string, b: string, c: string)
    requires StrLe(a, b) && StrLe(b, c)
    ensures StrLe(a, c)
    decreases |a|
  {
    if |a| > 0 && a[0] == b[0] && b[0] == c[0] {
      StrLeTrans(a[1..], b[1..], c[1..]);
    }
  }

  function Area(b: BlockSpec): int
  {
    b.h * b.w
  }

  /** `a` sorts no later than `b` under `reverse=True` on the key
      `(h * w, h, w, repr(block_key))`. */
  predicate SortKeyGe(a: BlockSpec, b: BlockSpec)
  {
    Area(a) > Area(b) || (Area(a) == Area(b) &&
      (a.h > b.h || (a.h == b.h &&
        (a.w > b.w || (a.w == b.w && StrLe(KeyRepr(b.key), KeyRepr(a.key)))))))
  }

  lemma SortKeyTotal(a: BlockSpec, b: BlockSpec)
    ensures SortKeyGe(a, b) || SortKeyGe(b, a)
  {
    StrLeTotal(KeyRepr(a.key), KeyRepr(b.key));
  }

  lemma SortKeyTrans(a: BlockSpec, b: BlockSpec, c: BlockSpec)
    requires SortKeyGe(a, b) && SortKeyGe(b, c)
    ensures SortKeyGe(a, c)
  {
    if Area(a) == Area(b) == Area(c) && a.h == b.h == c.h && a.w == b.w == c.w {
      StrLeTrans(KeyRepr(c.key), KeyRepr(b.key), KeyRepr(a.key));
    }
  }

  predicate SortedDesc(s: seq<BlockSpec>)
  {
    forall i, j :: 0 <= i < j < |s| ==> SortKeyGe(s[i], s[j])
  }

  /** Insert `x` after every element that sorts no later than it, so that
      equal keys keep their original order as in Python's stable sort. */
  function InsertBlock(x: BlockSpec, s: seq<BlockSpec>): (r: seq<BlockSpec>)
    ensures |r| == |s| + 1
  {
    if s == [] then [x]
    else if !SortKeyGe(s[0], x) then [x] + s
    else [s[0]] + InsertBlock(x, s[1..])
  }

  /** `items.sort(key=..., reverse=True)` on the block specs. */
  function SortBlocks(items: seq<BlockSpec>): (r: seq<BlockSpec>)
    ensures |r| == |items|
  {
    if items == [] then []
    else InsertBlock(items[|items| - 1], SortBlocks(items[..|items| - 1]))
  }

  lemma {:induction false} InsertBlockSorted(x: BlockSpec, s: seq<BlockSpec>)
    requires SortedDesc(s)
    ensures SortedDesc(InsertBlock(x, s))
    ensures multiset(InsertBlock(x, s)) == multiset(s) + multiset{x}
  {
    if s == [] {
    } else if !SortKeyGe(s[0], x) {
      SortKeyTotal(s[0], x);
      forall j | 0 <= j < |s|
        ensures SortKeyGe(x, s[j])
      {
        if j > 0 {
          SortKeyTrans(x, s[0], s[j]);
        }
      }
      ConsSortedDesc(x, s);
    } else {
      InsertBlockSorted(x, s[1..]);
      var t := InsertBlock(x, s[1..]);
      assert s == [s[0]] + s[1..];
      HeadDominates(s[0], x, s[1..], t);
      ConsSortedDesc(s[0], t);
    }
  }

  /** A block sorting no later than every block of a sorted list heads
      it. */
  lemma ConsSortedDesc(y: BlockSpec, t: seq<BlockSpec>)
    requires SortedDesc(t) && forall k :: 0 <= k < |t| ==> SortKeyGe(y, t[k])
    ensures SortedDesc([y] + t)
  {
    var r := [y] + t;
    forall i, j | 0 <= i < j < |r|
      ensures SortKeyGe(r[i], r[j])
    {
      assert r[j] == t[j - 1];
      if i > 0 {
        assert r[i] == t[i - 1];
      }
    }
  }

  /** The head of a sorted list sorts no later than anything in its tail
      with `x` inserted, when it sorts no later than `x`. */
  lemma HeadDominates(h: BlockSpec, x: BlockSpec, rest: seq<BlockSpec>, t: seq<BlockSpec>)
    requires SortKeyGe(h, x) && forall m :: 0 <= m < |rest| ==> SortKeyGe(h, rest[m])
    requires multiset(t) == multiset(rest) + multiset{x}
    ensures forall k :: 0 <= k < |t| ==> SortKeyGe(h, t[k])
  {
    forall k | 0 <= k < |t|
      ensures SortKeyGe(h, t[k])
    {
      assert t[k] in multiset(t);
      if t[k] != x {
        assert t[k] in multiset(rest);
        var m :| 0 <= m < |rest| && rest[m] == t[k];
      }
    }
  }

  /** The sorted blocks are a permutation of the input, largest key
      first. */
  lemma {:induction false} SortBlocksSorted(items: seq<BlockSpec>)
    ensures SortedDesc(SortBlocks(items))
    ensures multiset(SortBlocks(items)) == multiset(items)
    decreases |items|
  {
    if items != [] {
      var init := items[..|items| - 1];
      SortBlocksSorted(init);
      InsertBlockSorted(items[|items| - 1], SortBlocks(init));
      assert items == init + [items[|items| - 1]];
    }
  }

  /** Every block of `InsertBlock(x, s)` is `x` or a block of `s`. */
  lemma {:induction false} InsertBlockFrom(x: BlockSpec, s: seq<BlockSpec>)
    ensures forall e :: e in InsertBlock(x, s) ==> e == x || e in s
  {
    if s != [] && SortKeyGe(s[0], x) {
      InsertBlockFrom(x, s[1..]);
      forall e | e in InsertBlock(x, s[1..]) && e != x
        ensures e in s
      {
        assert e in s[1..];
      }
    }
  }

  /** Inserting a block with a new key keeps the keys distinct. */
  lemma {:induction false} InsertBlockDistinct(x: BlockSpec, s: seq<BlockSpec>)
    requires KeysDistinct(s) && forall e :: e in s ==> e.key != x.key
    ensures KeysDistinct(InsertBlock(x, s))
  {
    if s != [] && SortKeyGe(s[0], x) {
      var tail := s[1..];
      forall e | e in tail
        ensures e.key != x.key
      {
        assert e in s;
      }
      assert KeysDistinct(tail) by {
        forall i, j | 0 <= i < j < |tail|
          ensures tail[i].key != tail[j].key
        {
          assert tail[i] == s[i + 1] && tail[j] == s[j + 1];
        }
      }
      InsertBlockDistinct(x, tail);
      InsertBlockFrom(x, tail);
      var t := InsertBlock(x, tail);
      forall k | 0 <= k < |t|
        ensures s[0].key != t[k].key
      {
        assert t[k] in t;
        if t[k] != x {
          assert t[k] in tail;
          var m :| 0 <= m < |tail| && tail[m] == t[k];
          assert s[m + 1] == t[k];
        }
      }
      var r := [s[0]] + t;
      forall i, j | 0 <= i < j < |r|
        ensures r[i].key != r[j].key
      {
        if i == 0 {
          assert r[j] == t[j - 1];
        } else {
          assert r[i] == t[i - 1] && r[j] == t[j - 1];
        }
      }
    }
  }

  /** Every block of `SortBlocks(items)` is a block of `items`. */
  lemma SortBlocksFrom(items: seq<BlockSpec>)
    ensures forall e :: e in SortBlocks(items) ==> e in items
  {
    SortBlocksSorted(items);
    forall e | e in SortBlocks(items)
      ensures e in items
    {
      assert e in multiset(SortBlocks(items));
    }
  }

  /** Sorting keeps the keys distinct. */
  lemma {:induction false} SortBlocksDistinct(items: seq<BlockSpec>)
    requires KeysDistinct(items)
    ensures KeysDistinct(SortBlocks(items))
    decreases |items|
  {
    if items != [] {
      var m := |items| - 1;
      var init := items[..m];
      assert KeysDistinct(init) by {
        forall i, j | 0 <= i < j < |init|
          ensures init[i].key != init[j].key
        {
          assert init[i] == items[i] && init[j] == items[j];
        }
      }
      SortBlocksDistinct(init);
      SortBlocksFrom(init);
      forall e | e in SortBlocks(init)
        ensures e.key != items[m].key
      {
        var i :| 0 <= i < |init| && init[i] == e;
        assert items[i] == e;
      }
      InsertBlockDistinct(items[m], SortBlocks(init));
    }
  }

  /** `a` and `b` have the same sort key. */
  predicate SameSortKey(a: BlockSpec, b: BlockSpec)
  {
    SortKeyGe(a, b) && SortKeyGe(b, a)
  }

  /** The blocks of `s` whose sort key equals that of `x`, in list order. */
  function Ties(s: seq<BlockSpec>, x: BlockSpec): (r: seq<BlockSpec>)
    ensures |r| <= |s|
  {
    if s == [] then []
    else Ties(s[..|s| - 1], x) + (if SameSortKey(s[|s| - 1], x) then [s[|s| - 1]] else [])
  }

  lemma {:induction false} TiesAppend(a: seq<BlockSpec>, b: seq<BlockSpec>, x: BlockSpec)
    ensures Ties(a + b, x) == Ties(a, x) + Ties(b, x)
    decreases |b|
  {
    if b == [] {
      assert a + b == a;
    } else {
      var m := |b| - 1;
      assert (a + b)[..|a + b| - 1] == a + b[..m];
      assert (a + b)[|a + b| - 1] == b[m];
      TiesAppend(a, b[..m], x);
    }
  }

  /** The ties of a one-block list. */
  lemma TiesSingle(y: BlockSpec, x: BlockSpec)
    ensures Ties([y], x) == if SameSortKey(y, x) then [y] else []
  {
    assert [y][..0] == [];
  }

  lemma {:induction false} TiesNone(s: seq<BlockSpec>, x: BlockSpec)
    requires forall j :: 0 <= j < |s| ==> !SameSortKey(s[j], x)
    ensures Ties(s, x) == []
    decreases |s|
  {
    if s != [] {
      TiesNone(s[..|s| - 1], x);
    }
  }

  /** Inserting `y` in front of a sorted list whose head sorts after it:
      no block of the list ties with `y`. */
  lemma NoTiesAfter(y: BlockSpec, t: seq<BlockSpec>, x: BlockSpec)
    requires SortedDesc(t) && t != [] && !SortKeyGe(t[0], y) && SameSortKey(y, x)
    ensures Ties(t, x) == []
  {
    forall j | 0 <= j < |t|
      ensures !SameSortKey(t[j], x)
    {
      if SameSortKey(t[j], x) {
        SortKeyTrans(t[j], x, y);
        if j > 0 {
          SortKeyTrans(t[0], t[j], y);
        }
      }
    }
    TiesNone(t, x);
  }

  /** Insertion puts `y` after every block it ties with. */
  lemma {:induction false} InsertBlockTies(y: BlockSpec, t: seq<BlockSpec>, x: BlockSpec)
    requires SortedDesc(t)
    ensures Ties(InsertBlock(y, t), x) == Ties(t, x) + (if SameSortKey(y, x) then [y] else [])
    decreases |t|
  {
    if t == [] {
      TiesSingle(y, x);
    } else if !SortKeyGe(t[0], y) {
      InsertBlockFront(y, t, x);
    } else {
      assert SortedDesc(t[1..]);
      InsertBlockTies(y, t[1..], x);
      InsertBlockPast(y, t, x);
    }
  }

  /** The case of `InsertBlockTies` where `y` goes after `t[0]`, given
      the property for the rest of `t`. */
  lemma InsertBlockPast(y: BlockSpec, t: seq<BlockSpec>, x: BlockSpec)
    requires t != [] && SortKeyGe(t[0], y)
    requires Ties(InsertBlock(y, t[1..]), x) == Ties(t[1..], x) + (if SameSortKey(y, x) then [y] else [])
    ensures Ties(InsertBlock(y, t), x) == Ties(t, x) + (if SameSortKey(y, x) then [y] else [])
  {
    var rest := InsertBlock(y, t[1..]);
    assert InsertBlock(y, t) == [t[0]] + rest;
    TiesAppend([t[0]], rest, x);
    assert t == [t[0]] + t[1..];
    TiesAppend([t[0]], t[1..], x);
  }

  /** The case of `InsertBlockTies` where `y` goes first. */
  lemma InsertBlockFront(y: BlockSpec, t: seq<BlockSpec>, x: BlockSpec)
    requires SortedDesc(t) && t != [] && !SortKeyGe(t[0], y)
    ensures Ties(InsertBlock(y, t), x) == Ties(t, x) + (if SameSortKey(y, x) then [y] else [])
  {
    assert InsertBlock(y, t) == [y] + t;
    TiesAppend([y], t, x);
    TiesSingle(y, x);
    if SameSortKey(y, x) {
      NoTiesAfter(y, t, x);
    }
  }

  /** The sort is stable, as Python's is (also with `reverse=True`):
      blocks with equal sort keys keep their relative order. */
  lemma {:induction false} SortBlocksStable(items: seq<BlockSpec>, x: BlockSpec)
    ensures Ties(SortBlocks(items), x) == Ties(items, x)
    decreases |items|
  {
    if items != [] {
      var m := |items| - 1;
      SortBlocksStable(items[..m], x);
      SortBlocksSorted(items[..m]);
      InsertBlockTies(items[m], SortBlocks(items[..m]), x);
    }
  }

  // ---------------------------------------------------------------------
  // Sheet geometry

  /** The shared sheet size in pixels: 256, or 512 when a tile is larger
      than 256 pixels. */
  function MaxPx(tilePx: int): (m: int)
    ensures m == 256 || m == 512
    ensures m == 256 <==> tilePx <= 256
  {
    if ExportSheetPx < tilePx then 512 else ExportSheetPx
  }

  /** Tiles per side of a shared sheet, at least one. */
  function SheetTiles(tilePx: int): (t: int)
    requires tilePx > 0
    ensures t >= 1
    ensures t == 1 || t * tilePx <= MaxPx(tilePx) < (t + 1) * tilePx
  {
    var q := MaxPx(tilePx) / tilePx;
    DivFloor(MaxPx(tilePx), tilePx);
    if q < 1 then 1 else q
  }

  /** `_tiles_needed`: the number of tiles that cover `px` pixels, at
      least one. */
  function TilesNeeded(px: int, tilePx: int): (t: int)
    requires tilePx > 0
    ensures t >= 1
    ensures px >= 1 ==> (t - 1) * tilePx < px <= t * tilePx
  {
    var q := (px + tilePx - 1) / tilePx;
    DivFloor(px + tilePx - 1, tilePx);
    if q < 1 then 1 else q
  }

  /** `q * d <= a < (q + 1) * d` for the floor quotient `q`. */
  lemma DivFloor(a: int, d: int)
    requires d > 0
    ensures (a / d) * d <= a < (a / d + 1) * d
  {
  }

  /** Whole tiles need exactly their own count. */
  lemma TilesOfMultiple(k: int, tilePx: int)
    requires tilePx > 0 && k >= 1
    ensures TilesNeeded(k * tilePx, tilePx) == k
  {
    var t := TilesNeeded(k * tilePx, tilePx);
    MulAtLeast(k, tilePx);
    if t < k {
      MulMono(t, k - 1, tilePx);
    } else if t > k {
      MulMono(k, t - 1, tilePx);
    }
  }

  /** A block of whole tiles that is not wider than a shared sheet fits
      in its tile grid. */
  lemma WholeTilesFit(k: int, tilePx: int)
    requires tilePx > 0 && k >= 1 && k * tilePx <= MaxPx(tilePx)
    ensures TilesNeeded(k * tilePx, tilePx) <= SheetTiles(tilePx)
  {
    TilesOfMultiple(k, tilePx);
    var t := SheetTiles(tilePx);
    if k > t {
      MulMono(t + 1, k, tilePx);
    }
  }

  /** A block larger than a shared sheet on either side. */
  predicate Oversized(it: BlockSpec, tilePx: int)
  {
    it.w > MaxPx(tilePx) || it.h > MaxPx(tilePx)
  }

  /** The tile rectangle at `(x0, y0)` of `wt` by `ht` tiles is inside the
      `n` by `n` grid and all its cells are free. */
  predicate Free(occ: seq<seq<bool>>, n: nat, x0: int, y0: int, wt: int, ht: int)
    requires IsSquareGrid(occ, n)
  {
    0 <= x0 && 0 <= y0 && x0 + wt <= n && y0 + ht <= n &&
    forall y, x :: y0 <= y < y0 + ht && x0 <= x < x0 + wt ==> !occ[y][x]
  }

  /** `_can_place`: bounds first, then every cell, row by row. */
  method CanPlace(occ: seq<seq<bool>>, n: nat, x0: int, y0: int, wt: int, ht: int) returns (ok: bool)
    requires IsSquareGrid(occ, n)
    ensures ok <==> Free(occ, n, x0, y0, wt, ht)
  {
    if x0 < 0 || y0 < 0 {
      return false;
    }
    if x0 + wt > n || y0 + ht > n {
      return false;
    }
    var yy := y0;
    while yy < y0 + ht
      invariant y0 <= yy <= if ht >= 0 then y0 + ht else y0
      invariant forall y, x :: y0 <= y < yy && x0 <= x < x0 + wt ==> !occ[y][x]
    {
      var row := occ[yy];
      var xx := x0;
      while xx < x0 + wt
        invariant x0 <= xx <= if wt >= 0 then x0 + wt else x0
        invariant forall x :: x0 <= x < xx ==> !row[x]
      {
        if row[xx] {
          return false;
        }
        xx := xx + 1;
      }
      yy := yy + 1;
    }
    return true;
  }

  /** The grid with the tile rectangle at `(x0, y0)` marked occupied. */
  function Marked(occ: seq<seq<bool>>, n: nat, x0: int, y0: int, wt: int, ht: int): (g: seq<seq<bool>>)
    requires IsSquareGrid(occ, n)
    ensures IsSquareGrid(g, n)
  {
    seq(n, y requires 0 <= y < n => seq(n, x requires 0 <= x < n =>
      occ[y][x] || (x0 <= x < x0 + wt && y0 <= y < y0 + ht)))
  }

  /** `_mark`: set every cell of the tile rectangle. */
  method Mark(occ: seq<seq<bool>>, n: nat, x0: int, y0: int, wt: int, ht: int) returns (g: seq<seq<bool>>)
    requires IsSquareGrid(occ, n)
    requires 0 <= x0 && 0 <= y0 && 0 <= wt && 0 <= ht && x0 + wt <= n && y0 + ht <= n
    ensures g == Marked(occ, n, x0, y0, wt, ht)
  {
    g := occ;
    var yy := y0;
    while yy < y0 + ht
      invariant y0 <= yy <= y0 + ht
      invariant IsSquareGrid(g, n)
      invariant forall y, x :: 0 <= y < n && 0 <= x < n ==>
        g[y][x] == (occ[y][x] || (x0 <= x < x0 + wt && y0 <= y < yy))
    {
      var row := g[yy];
      var xx := x0;
      while xx < x0 + wt
        invariant x0 <= xx <= x0 + wt
        invariant |row| == n
        invariant forall x :: 0 <= x < n ==> row[x] == (g[yy][x] || (x0 <= x < xx))
      {
        row := row[xx := true];
        xx := xx + 1;
      }
      g := g[yy := row];
      yy := yy + 1;
    }
    var m := Marked(occ, n, x0, y0, wt, ht);
    forall y | 0 <= y < n
      ensures g[y] == m[y]
    {
      assert forall x :: 0 <= x < n ==> g[y][x] == m[y][x];
    }
  }

  /** The first position, in the row-major scan from `(x0, y0)`, where a
      `wt` by `ht` tile rectangle is free. */
  function ScanFrom(occ: seq<seq<bool>>, n: nat, wt: int, ht: int, y0: int, x0: int): (r: Option<(int, int)>)
    requires IsSquareGrid(occ, n)
    ensures r.Some? ==> Free(occ, n, r.value.0, r.value.1, wt, ht) && !Before(r.value.0, r.value.1, x0, y0)
    decreases n - ht + 1 - y0, n - wt + 1 - x0
  {
    if y0 < 0 || y0 > n - ht then None
    else if x0 < 0 || x0 > n - wt then ScanFrom(occ, n, wt, ht, y0 + 1, 0)
    else if Free(occ, n, x0, y0, wt, ht) then Some((x0, y0))
    else ScanFrom(occ, n, wt, ht, y0, x0 + 1)
  }

  /** The top-left first fit of a `wt` by `ht` rectangle. */
  function FirstFit(occ: seq<seq<bool>>, n: nat, wt: int, ht: int): (r: Option<(int, int)>)
    requires IsSquareGrid(occ, n)
    ensures r.Some? ==> Free(occ, n, r.value.0, r.value.1, wt, ht)
    ensures r.Some? ==> 0 <= r.value.0 <= n - wt && 0 <= r.value.1 <= n - ht
  {
    ScanFrom(occ, n, wt, ht, 0, 0)
  }

  /** `(x, y)` comes strictly before `(x0, y0)` in row-major order. */
  predicate Before(x: int, y: int, x0: int, y0: int)
  {
    y < y0 || (y == y0 && x < x0)
  }

  lemma {:induction false} ScanFromSpec(occ: seq<seq<bool>>, n: nat, wt: int, ht: int, y0: int, x0: int)
    requires IsSquareGrid(occ, n) && 0 <= y0 && 0 <= x0
    ensures var r := ScanFrom(occ, n, wt, ht, y0, x0);
      && (r.Some? ==>
            && Free(occ, n, r.value.0, r.value.1, wt, ht) && !Before(r.value.0, r.value.1, x0, y0)
            && forall x, y :: !Before(x, y, x0, y0) && Before(x, y, r.value.0, r.value.1) ==> !Free(occ, n, x, y, wt, ht))
      && (r.None? ==> forall x, y :: !Before(x, y, x0, y0) ==> !Free(occ, n, x, y, wt, ht))
    decreases n - ht + 1 - y0, n - wt + 1 - x0
  {
    if y0 > n - ht {
    } else if x0 > n - wt {
      ScanFromSpec(occ, n, wt, ht, y0 + 1, 0);
    } else if Free(occ, n, x0, y0, wt, ht) {
    } else {
      ScanFromSpec(occ, n, wt, ht, y0, x0 + 1);
    }
  }

  /** First fit is exactly the free position that no other free position
      precedes; it is absent only when no position is free. */
  lemma FirstFitSpec(occ: seq<seq<bool>>, n: nat, wt: int, ht: int)
    requires IsSquareGrid(occ, n)
    ensures var r := FirstFit(occ, n, wt, ht);
      && (r.Some? ==>
            && Free(occ, n, r.value.0, r.value.1, wt, ht)
            && forall x, y :: Before(x, y, r.value.0, r.value.1) ==> !Free(occ, n, x, y, wt, ht))
      && (r.None? <==> forall x, y :: !Free(occ, n, x, y, wt, ht))
  {
    ScanFromSpec(occ, n, wt, ht, 0, 0);
  }

  function EmptyOcc(n: nat): (g: seq<seq<bool>>)
    ensures IsSquareGrid(g, n)
  {
    seq(n, _ => seq(n, _ => false))
  }

  /** A fresh sheet takes any block whose tiles fit in its grid, at its
      top-left corner. */
  lemma FreshSheetAccepts(n: nat, wt: int, ht: int)
    requires 1 <= wt <= n && 1 <= ht <= n
    ensures FirstFit(EmptyOcc(n), n, wt, ht) == Some((0, 0))
  {
  }

  /** The tile rectangle a placement at `(x0, y0)` covers. */
  function TileRect(x0: int, y0: int, wt: int, ht: int): Rect
  {
    Rect(x0, y0, x0 + wt - 1, y0 + ht - 1)
  }

  /** Marking a free rectangle keeps the footprints an exact tiling of
      the occupied cells. */
  lemma MarkKeepsTiling(feet: seq<Rect>, occ: seq<seq<bool>>, n: nat, x0: int, y0: int, wt: int, ht: int)
    requires IsSquareGrid(occ, n) && ExactTiling(feet, occ, n)
    requires wt >= 1 && ht >= 1 && Free(occ, n, x0, y0, wt, ht)
    ensures ExactTiling(feet + [TileRect(x0, y0, wt, ht)], Marked(occ, n, x0, y0, wt, ht), n)
  {
    var r := TileRect(x0, y0, wt, ht);
    var g := Marked(occ, n, x0, y0, wt, ht);
    forall x, y | r.x0 <= x <= r.x1 && r.y0 <= y <= r.y1
      ensures !Covers(feet, x, y)
    {
      assert !occ[y][x];
    }
    FreshRectDisjoint(feet, r, n);
    forall x, y | 0 <= x < n && 0 <= y < n
      ensures Covers(feet + [r], x, y) <==> g[y][x]
    {
      CoversAppend(feet, r, x, y);
    }
  }

  /** `_place_in_sheet`: scan rows, then columns, for the first position
      where the block's tiles are free; mark them and append a placement
      at that position in pixels. A sheet with no room is left as it was. */
  method PlaceInSheet(sheet: Sheet, it: BlockSpec, tilePx: int) returns (ok: bool, out: Sheet)
    requires tilePx > 0 && sheet.occ.Some? && IsSquareGrid(sheet.occ.value, SheetTiles(tilePx))
    ensures var n := SheetTiles(tilePx);
      var wt := TilesNeeded(it.w, tilePx);
      var ht := TilesNeeded(it.h, tilePx);
      var ff := FirstFit(sheet.occ.value, n, wt, ht);
      && (ok <==> ff.Some?)
      && (!ok ==> out == sheet)
      && (ok ==> out == Sheet(sheet.w, sheet.h,
                              sheet.placements + [Placement(ff.value.0 * tilePx, ff.value.1 * tilePx, it.key)],
                              Some(Marked(sheet.occ.value, n, ff.value.0, ff.value.1, wt, ht))))
    ensures (if ok then Some(out) else None) == PlaceOnSheet(sheet, it, tilePx)
  {
    var n := SheetTiles(tilePx);
    var wt := TilesNeeded(it.w, tilePx);
    var ht := TilesNeeded(it.h, tilePx);
    var occ := sheet.occ.value;
    var y0 := 0;
    while y0 < n - ht + 1
      invariant 0 <= y0
      invariant FirstFit(occ, n, wt, ht) == ScanFrom(occ, n, wt, ht, y0, 0)
    {
      var x0 := 0;
      while x0 < n - wt + 1
        invariant 0 <= x0 && (x0 <= n - wt + 1 || x0 == 0)
        invariant FirstFit(occ, n, wt, ht) == ScanFrom(occ, n, wt, ht, y0, x0)
      {
        var can := CanPlace(occ, n, x0, y0, wt, ht);
        if can {
          var g := Mark(occ, n, x0, y0, wt, ht);
          return true, Sheet(sheet.w, sheet.h, sheet.placements + [Placement(x0 * tilePx, y0 * tilePx, it.key)], Some(g));
        }
        x0 := x0 + 1;
      }
      y0 := y0 + 1;
    }
    return false, sheet;
  }

  /** `_place_in_sheet` as a value: the sheet with the block placed at
      its first fit, or `None` when the sheet has no room. Dedicated
      sheets, which have no occupancy grid, take nothing (the packing loop
      skips them); a grid of another shape never arises. */
  function PlaceOnSheet(sh: Sheet, it: BlockSpec, tilePx: int): (r: Option<Sheet>)
    requires tilePx > 0
    ensures r.Some? ==> sh.occ.Some? && r.value.w == sh.w && r.value.h == sh.h
    ensures r.Some? ==> && |r.value.placements| == |sh.placements| + 1
                        && r.value.placements[..|sh.placements|] == sh.placements
                        && r.value.placements[|sh.placements|].key == it.key
  {
    if sh.occ.None? || !IsSquareGrid(sh.occ.value, SheetTiles(tilePx)) then None
    else
      var n := SheetTiles(tilePx);
      var wt, ht := TilesNeeded(it.w, tilePx), TilesNeeded(it.h, tilePx);
      var ff := FirstFit(sh.occ.value, n, wt, ht);
      if ff.None? then None
      else Some(Sheet(sh.w, sh.h, sh.placements + [Placement(ff.value.0 * tilePx, ff.value.1 * tilePx, it.key)],
                      Some(Marked(sh.occ.value, n, ff.value.0, ff.value.1, wt, ht))))
  }

  /** Sheet `t` is the first sheet from `s` on with room for the block. */
  predicate FirstRoom(sheets: seq<Sheet>, it: BlockSpec, tilePx: int, s: int, t: int)
    requires tilePx > 0
  {
    && 0 <= s <= t < |sheets|
    && PlaceOnSheet(sheets[t], it, tilePx).Some?
    && forall u :: s <= u < t ==> PlaceOnSheet(sheets[u], it, tilePx).None?
  }

  /** The search of the packing loop from sheet `s` on: the block goes
      onto the first sheet that takes it, the others are unchanged. */
  function PlaceFrom(sheets: seq<Sheet>, it: BlockSpec, tilePx: int, s: nat): Option<seq<Sheet>>
    requires tilePx > 0
    decreases |sheets| - s
  {
    if s >= |sheets| then None
    else
      var r := PlaceOnSheet(sheets[s], it, tilePx);
      if r.Some? then Some(sheets[s := r.value]) else PlaceFrom(sheets, it, tilePx, s + 1)
  }

  /** The search is first fit over the sheets: it fails exactly when no
      sheet from `s` on has room, and otherwise places the block on the
      first sheet that has room and changes no other sheet. */
  lemma {:induction false} PlaceFromSpec(sheets: seq<Sheet>, it: BlockSpec, tilePx: int, s: nat)
    requires tilePx > 0
    ensures PlaceFrom(sheets, it, tilePx, s).None? <==>
      forall u :: s <= u < |sheets| ==> PlaceOnSheet(sheets[u], it, tilePx).None?
    ensures PlaceFrom(sheets, it, tilePx, s).Some? ==>
      exists t :: FirstRoom(sheets, it, tilePx, s, t) &&
        PlaceFrom(sheets, it, tilePx, s).value == sheets[t := PlaceOnSheet(sheets[t], it, tilePx).value]
    decreases |sheets| - s
  {
    if s < |sheets| {
      if PlaceOnSheet(sheets[s], it, tilePx).Some? {
        assert FirstRoom(sheets, it, tilePx, s, s);
      } else {
        PlaceFromSpec(sheets, it, tilePx, s + 1);
        if PlaceFrom(sheets, it, tilePx, s + 1).Some? {
          var t :| FirstRoom(sheets, it, tilePx, s + 1, t) &&
            PlaceFrom(sheets, it, tilePx, s + 1).value == sheets[t := PlaceOnSheet(sheets[t], it, tilePx).value];
          assert FirstRoom(sheets, it, tilePx, s, t);
        }
      }
    }
  }

  /** One block of the packing loop as a value: an oversized block gets a
      dedicated sheet appended; any other block goes to the first shared
      sheet with room, or else onto a new sheet appended at the end. */
  function PackStep(sheets: seq<Sheet>, it: BlockSpec, tilePx: int): seq<Sheet>
    requires tilePx > 0
  {
    if Oversized(it, tilePx) then sheets + [Dedicated(it)]
    else
      var shared := PlaceFrom(sheets, it, tilePx, 0);
      if shared.Some? then shared.value
      else
        var started := PlaceOnSheet(NewSheet(tilePx), it, tilePx);
        sheets + [if started.Some? then started.value else NewSheet(tilePx)]
  }

  /** The packing loop as a value: the blocks in list order, each by
      `PackStep`. */
  function Pack(items: seq<BlockSpec>, tilePx: int): seq<Sheet>
    requires tilePx > 0
  {
    if items == [] then [] else PackStep(Pack(items[..|items| - 1], tilePx), items[|items| - 1], tilePx)
  }

  /** When some shared sheet has room, a step places the block on the
      first such sheet and changes nothing else. */
  lemma PackStepShared(sheets: seq<Sheet>, it: BlockSpec, tilePx: int)
    requires tilePx > 0 && !Oversized(it, tilePx)
    requires exists u :: 0 <= u < |sheets| && PlaceOnSheet(sheets[u], it, tilePx).Some?
    ensures exists t ::
      FirstRoom(sheets, it, tilePx, 0, t) && PackStep(sheets, it, tilePx) == sheets[t := PlaceOnSheet(sheets[t], it, tilePx).value]
  {
    PlaceFromSpec(sheets, it, tilePx, 0);
  }

  /** Only when no shared sheet has room does a step append a sheet, a
      new shared one, at the end. */
  lemma PackStepAppends(sheets: seq<Sheet>, it: BlockSpec, tilePx: int)
    requires tilePx > 0 && !Oversized(it, tilePx)
    requires forall u :: 0 <= u < |sheets| ==> PlaceOnSheet(sheets[u], it, tilePx).None?
    ensures var out := PackStep(sheets, it, tilePx);
      |out| == |sheets| + 1 && out[..|sheets|] == sheets && out[|sheets|].occ.Some?
  {
    PlaceFromSpec(sheets, it, tilePx, 0);
    var out := PackStep(sheets, it, tilePx);
    assert out[..|sheets|] == sheets;
  }

  // ---------------------------------------------------------------------
  // Packing

  /** The tile size of the first block with key `k`. */
  function TileDims(items: seq<BlockSpec>, k: BlockKey, tilePx: int): (int, int)
    requires tilePx > 0
  {
    if items == [] then (1, 1)
    else if items[0].key == k then (TilesNeeded(items[0].w, tilePx), TilesNeeded(items[0].h, tilePx))
    else TileDims(items[1..], k, tilePx)
  }

  predicate KeysDistinct(items: seq<BlockSpec>)
  {
    forall i, j :: 0 <= i < j < |items| ==> items[i].key != items[j].key
  }

  lemma {:induction false} TileDimsOf(items: seq<BlockSpec>, i: int, tilePx: int)
    requires tilePx > 0 && KeysDistinct(items) && 0 <= i < |items|
    ensures TileDims(items, items[i].key, tilePx) == (TilesNeeded(items[i].w, tilePx), TilesNeeded(items[i].h, tilePx))
  {
    if i > 0 {
      assert items[0].key != items[i].key;
      TileDimsOf(items[1..], i - 1, tilePx);
    }
  }

  /** The tile rectangle a placement covers. */
  function Footprint(p: Placement, items: seq<BlockSpec>, tilePx: int): Rect
    requires tilePx > 0
  {
    var d := TileDims(items, p.key, tilePx);
    TileRect(p.x / tilePx, p.y / tilePx, d.0, d.1)
  }

  function Footprints(pls: seq<Placement>, items: seq<BlockSpec>, tilePx: int): (r: seq<Rect>)
    requires tilePx > 0
    ensures |r| == |pls|
  {
    if pls == [] then []
    else Footprints(pls[..|pls| - 1], items, tilePx) + [Footprint(pls[|pls| - 1], items, tilePx)]
  }

  /** A shared sheet as packing leaves it: `MaxPx` square, its placements
      tile-aligned, and their footprints an exact tiling of the occupied
      cells, so they lie inside the grid and never overlap. */
  predicate SharedSheetSound(sh: Sheet, items: seq<BlockSpec>, tilePx: int)
    requires tilePx > 0
  {
    && sh.occ.Some? && sh.w == MaxPx(tilePx) && sh.h == MaxPx(tilePx)
    && IsSquareGrid(sh.occ.value, SheetTiles(tilePx))
    && (forall j :: 0 <= j < |sh.placements| ==> sh.placements[j].x % tilePx == 0 && sh.placements[j].y % tilePx == 0)
    && ExactTiling(Footprints(sh.placements, items, tilePx), sh.occ.value, SheetTiles(tilePx))
  }

  /** The sheet of its own an oversized block gets. */
  function Dedicated(it: BlockSpec): Sheet
  {
    Sheet(it.w, it.h, [Placement(0, 0, it.key)], None)
  }

  /** How many placements on one sheet carry key `k`. */
  function SheetCount(pls: seq<Placement>, k: BlockKey): nat
  {
    if pls == [] then 0 else SheetCount(pls[..|pls| - 1], k) + (if pls[|pls| - 1].key == k then 1 else 0)
  }

  /** How many placements on all sheets carry key `k`. */
  function PlacedCount(sheets: seq<Sheet>, k: BlockKey): nat
  {
    if sheets == [] then 0 else PlacedCount(sheets[..|sheets| - 1], k) + SheetCount(sheets[|sheets| - 1].placements, k)
  }

  /** A block is packed when it is oversized or its tiles fit in a
      shared sheet. */
  predicate Packable(it: BlockSpec, tilePx: int)
    requires tilePx > 0
  {
    Oversized(it, tilePx) ||
      (TilesNeeded(it.w, tilePx) <= SheetTiles(tilePx) && TilesNeeded(it.h, tilePx) <= SheetTiles(tilePx))
  }

  /** How many packable blocks carry key `k`. */
  function ExpectedCount(items: seq<BlockSpec>, k: BlockKey, tilePx: int): nat
    requires tilePx > 0
  {
    if items == [] then 0
    else
      var last := items[|items| - 1];
      ExpectedCount(items[..|items| - 1], k, tilePx) + (if last.key == k && Packable(last, tilePx) then 1 else 0)
  }

  /** With distinct keys, each packable block is expected once, every
      other block never, and keys of no block never. */
  lemma {:induction false} ExpectedCountOf(items: seq<BlockSpec>, k: BlockKey, tilePx: int)
    requires tilePx > 0 && KeysDistinct(items)
    ensures forall i :: 0 <= i < |items| && items[i].key == k ==>
      ExpectedCount(items, k, tilePx) == if Packable(items[i], tilePx) then 1 else 0
    ensures (forall i :: 0 <= i < |items| ==> items[i].key != k) ==> ExpectedCount(items, k, tilePx) == 0
    decreases |items|
  {
    if items != [] {
      var m := |items| - 1;
      ExpectedCountOf(items[..m], k, tilePx);
      forall i | 0 <= i < m && items[i].key == k
        ensures items[..m][i].key == k
      {
      }
    }
  }

  lemma PlacedCountAppend(sheets: seq<Sheet>, sh: Sheet, k: BlockKey)
    ensures PlacedCount(sheets + [sh], k) == PlacedCount(sheets, k) + SheetCount(sh.placements, k)
  {
    assert (sheets + [sh])[..|sheets|] == sheets;
  }

  lemma {:induction false} PlacedCountUpdate(sheets: seq<Sheet>, s: int, sh: Sheet, k: BlockKey)
    requires 0 <= s < |sheets|
    ensures PlacedCount(sheets[s := sh], k) + SheetCount(sheets[s].placements, k) == PlacedCount(sheets, k) + SheetCount(sh.placements, k)
    decreases |sheets|
  {
    var t := sheets[s := sh];
    var m := |sheets| - 1;
    if s == m {
      assert t[..m] == sheets[..m];
    } else {
      assert t[..m] == sheets[..m][s := sh];
      PlacedCountUpdate(sheets[..m], s, sh, k);
    }
  }

  lemma SheetCountAppend(pls: seq<Placement>, p: Placement, k: BlockKey)
    ensures SheetCount(pls + [p], k) == SheetCount(pls, k) + (if p.key == k then 1 else 0)
  {
    assert (pls + [p])[..|pls|] == pls;
  }

  lemma FootprintsAppend(pls: seq<Placement>, p: Placement, items: seq<BlockSpec>, tilePx: int)
    requires tilePx > 0
    ensures Footprints(pls + [p], items, tilePx) == Footprints(pls, items, tilePx) + [Footprint(p, items, tilePx)]
  {
    assert (pls + [p])[..|pls|] == pls;
  }

  /** Placing block `items[i]` on a sound shared sheet keeps it sound. */
  lemma PlaceKeepsSound(sheet: Sheet, out: Sheet, items: seq<BlockSpec>, i: int, tilePx: int, x0: int, y0: int)
    requires tilePx > 0 && KeysDistinct(items) && 0 <= i < |items|
    requires SharedSheetSound(sheet, items, tilePx)
    requires Free(sheet.occ.value, SheetTiles(tilePx), x0, y0, TilesNeeded(items[i].w, tilePx), TilesNeeded(items[i].h, tilePx))
    requires out == Sheet(sheet.w, sheet.h, sheet.placements + [Placement(x0 * tilePx, y0 * tilePx, items[i].key)],
                          Some(Marked(sheet.occ.value, SheetTiles(tilePx), x0, y0, TilesNeeded(items[i].w, tilePx), TilesNeeded(items[i].h, tilePx))))
    ensures SharedSheetSound(out, items, tilePx)
  {
    var n := SheetTiles(tilePx);
    var wt, ht := TilesNeeded(items[i].w, tilePx), TilesNeeded(items[i].h, tilePx);
    var p := Placement(x0 * tilePx, y0 * tilePx, items[i].key);
    DivModUnique(x0 * tilePx, tilePx, x0, 0);
    DivModUnique(y0 * tilePx, tilePx, y0, 0);
    TileDimsOf(items, i, tilePx);
    assert Footprint(p, items, tilePx) == TileRect(x0, y0, wt, ht);
    FootprintsAppend(sheet.placements, p, items, tilePx);
    MarkKeepsTiling(Footprints(sheet.placements, items, tilePx), sheet.occ.value, n, x0, y0, wt, ht);
    var pls := sheet.placements + [p];
    forall j | 0 <= j < |pls|
      ensures pls[j].x % tilePx == 0 && pls[j].y % tilePx == 0
    {
      if j < |sheet.placements| {
        assert pls[j] == sheet.placements[j];
      }
    }
  }

  /** `_new_sheet`: an empty shared sheet. */
  function NewSheet(tilePx: int): (sh: Sheet)
    requires tilePx > 0
    ensures SharedSheetSound(sh, [], tilePx)
  {
    Sheet(MaxPx(tilePx), MaxPx(tilePx), [], Some(EmptyOcc(SheetTiles(tilePx))))
  }

  lemma NewSheetSound(items: seq<BlockSpec>, tilePx: int)
    requires tilePx > 0
    ensures SharedSheetSound(NewSheet(tilePx), items, tilePx)
  {
  }

  /** A placement found by first fit keeps the sheet sound and puts one
      more `items[i]` on it. */
  lemma FirstFitPlacement(sheet: Sheet, out: Sheet, items: seq<BlockSpec>, i: int, tilePx: int)
    requires tilePx > 0 && KeysDistinct(items) && 0 <= i < |items|
    requires SharedSheetSound(sheet, items, tilePx)
    requires var ff := FirstFit(sheet.occ.value, SheetTiles(tilePx), TilesNeeded(items[i].w, tilePx), TilesNeeded(items[i].h, tilePx));
      ff.Some? && out == Sheet(sheet.w, sheet.h, sheet.placements + [Placement(ff.value.0 * tilePx, ff.value.1 * tilePx, items[i].key)],
                               Some(Marked(sheet.occ.value, SheetTiles(tilePx), ff.value.0, ff.value.1, TilesNeeded(items[i].w, tilePx), TilesNeeded(items[i].h, tilePx))))
    ensures SharedSheetSound(out, items, tilePx)
    ensures Packable(items[i], tilePx)
    ensures forall k :: SheetCount(out.placements, k) == SheetCount(sheet.placements, k) + (if k == items[i].key then 1 else 0)
  {
    var n := SheetTiles(tilePx);
    var wt, ht := TilesNeeded(items[i].w, tilePx), TilesNeeded(items[i].h, tilePx);
    FirstFitSpec(sheet.occ.value, n, wt, ht);
    var ff := FirstFit(sheet.occ.value, n, wt, ht).value;
    PlaceKeepsSound(sheet, out, items, i, tilePx, ff.0, ff.1);
    var p := Placement(ff.0 * tilePx, ff.1 * tilePx, items[i].key);
    forall k {
      SheetCountAppend(sheet.placements, p, k);
    }
  }

  /** Every shared sheet is sound, and every dedicated sheet holds one of
      the oversized blocks before `i`. */
  predicate SheetsOk(sheets: seq<Sheet>, items: seq<BlockSpec>, i: int, tilePx: int)
    requires tilePx > 0 && 0 <= i <= |items|
  {
    && (forall s :: 0 <= s < |sheets| && sheets[s].occ.Some? ==> SharedSheetSound(sheets[s], items, tilePx))
    && (forall s :: 0 <= s < |sheets| && sheets[s].occ.None? ==>
          exists j :: 0 <= j < i && Oversized(items[j], tilePx) && sheets[s] == Dedicated(items[j]))
  }

  /** The main packing loop of `_plan_component_sheet_layout`: every
      block in turn, in list order. */
  method PackSheets(items: seq<BlockSpec>, tilePx: int) returns (sheets: seq<Sheet>)
    requires tilePx > 0 && KeysDistinct(items)
    ensures forall s :: 0 <= s < |sheets| && sheets[s].occ.Some? ==> SharedSheetSound(sheets[s], items, tilePx)
    ensures forall s :: 0 <= s < |sheets| && sheets[s].occ.None? ==>
      exists i :: 0 <= i < |items| && Oversized(items[i], tilePx) && sheets[s] == Dedicated(items[i])
    ensures forall k :: PlacedCount(sheets, k) == ExpectedCount(items, k, tilePx)
    ensures sheets == Pack(items, tilePx)
  {
    sheets := [];
    var i := 0;
    while i < |items|
      invariant 0 <= i <= |items|
      invariant SheetsOk(sheets, items, i, tilePx)
      invariant forall k :: PlacedCount(sheets, k) == ExpectedCount(items[..i], k, tilePx)
      invariant sheets == Pack(items[..i], tilePx)
    {
      assert items[..i + 1][..i] == items[..i];
      sheets := PackOne(sheets, items, i, tilePx);
      i := i + 1;
    }
    assert items[..i] == items;
  }

  /** One block of the packing loop: an oversized block gets a dedicated
      sheet; any other block goes to the first shared sheet that has
      room, or else to a new sheet appended at the end (which stays empty
      when the block's tiles exceed the sheet's grid). Exactly one copy
      is placed when the block is packable, none otherwise. */
  method PackOne(sheets: seq<Sheet>, items: seq<BlockSpec>, i: int, tilePx: int) returns (out: seq<Sheet>)
    requires tilePx > 0 && KeysDistinct(items) && 0 <= i < |items|
    requires SheetsOk(sheets, items, i, tilePx)
    ensures SheetsOk(out, items, i + 1, tilePx)
    ensures forall k :: PlacedCount(out, k) == PlacedCount(sheets, k) + (if k == items[i].key && Packable(items[i], tilePx) then 1 else 0)
    ensures out == PackStep(sheets, items[i], tilePx)
  {
    var it := items[i];
    if it.w > MaxPx(tilePx) || it.h > MaxPx(tilePx) {
      out := sheets + [Dedicated(it)];
      forall k
        ensures PlacedCount(out, k) == PlacedCount(sheets, k) + (if k == it.key && Packable(it, tilePx) then 1 else 0)
      {
        PlacedCountAppend(sheets, Dedicated(it), k);
        SheetCountAppend([], Placement(0, 0, it.key), k);
      }
      assert out[|sheets|] == Dedicated(items[i]);
    } else {
      var placed;
      out, placed := PlaceShared(sheets, items, i, tilePx);
      if !placed {
        var sh := PlaceNew(items, i, tilePx);
        out := sheets + [sh];
        forall k {
          PlacedCountAppend(sheets, sh, k);
        }
      }
    }
  }

  /** The search through the existing sheets: the first shared sheet
      whose grid has room takes the block. */
  method PlaceShared(sheets: seq<Sheet>, items: seq<BlockSpec>, i: int, tilePx: int) returns (out: seq<Sheet>, placed: bool)
    requires tilePx > 0 && KeysDistinct(items) && 0 <= i < |items|
    requires SheetsOk(sheets, items, i, tilePx)
    ensures SheetsOk(out, items, i + 1, tilePx)
    ensures !placed ==> out == sheets
    ensures placed ==> Packable(items[i], tilePx)
    ensures placed ==> forall k :: PlacedCount(out, k) == PlacedCount(sheets, k) + (if k == items[i].key then 1 else 0)
    // First fit over the sheets: the block is placed exactly when some
    // sheet has room, on the first such sheet, and on no other.
    ensures placed <==> exists u :: 0 <= u < |sheets| && PlaceOnSheet(sheets[u], items[i], tilePx).Some?
    ensures placed ==>
      exists t :: FirstRoom(sheets, items[i], tilePx, 0, t) && out == sheets[t := PlaceOnSheet(sheets[t], items[i], tilePx).value]
    ensures (if placed then Some(out) else None) == PlaceFrom(sheets, items[i], tilePx, 0)
  {
    var it := items[i];
    out := sheets;
    placed := false;
    var s := 0;
    while s < |out| && !placed
      invariant 0 <= s <= |out| && |out| == |sheets|
      invariant SheetsOk(out, items, i, tilePx)
      invariant !placed ==> out == sheets
      invariant placed ==> Packable(it, tilePx)
      invariant placed ==> forall k :: PlacedCount(out, k) == PlacedCount(sheets, k) + (if k == it.key then 1 else 0)
      invariant !placed ==> PlaceFrom(sheets, it, tilePx, 0) == PlaceFrom(sheets, it, tilePx, s)
      invariant placed ==> PlaceFrom(sheets, it, tilePx, 0) == Some(out)
    {
      if out[s].occ.Some? {
        var ok, sh := PlaceInSheet(out[s], it, tilePx);
        if ok {
          FirstFitPlacement(out[s], sh, items, i, tilePx);
          forall k {
            PlacedCountUpdate(out, s, sh, k);
          }
          out := out[s := sh];
          placed := true;
        }
      }
      s := s + 1;
    }
    SheetsOkGrow(out, items, i, tilePx);
    PlaceFromSpec(sheets, it, tilePx, 0);
  }

  /** A new shared sheet for a block no existing sheet had room for: it
      holds the block when the block's tiles fit the grid, and nothing
      otherwise. */
  method PlaceNew(items: seq<BlockSpec>, i: int, tilePx: int) returns (sh: Sheet)
    requires tilePx > 0 && KeysDistinct(items) && 0 <= i < |items| && !Oversized(items[i], tilePx)
    ensures sh.occ.Some? && SharedSheetSound(sh, items, tilePx)
    ensures forall k :: SheetCount(sh.placements, k) == if k == items[i].key && Packable(items[i], tilePx) then 1 else 0
    ensures var started := PlaceOnSheet(NewSheet(tilePx), items[i], tilePx);
      sh == if started.Some? then started.value else NewSheet(tilePx)
  {
    var it := items[i];
    sh := NewSheet(tilePx);
    NewSheetSound(items, tilePx);
    var ok;
    ok, sh := PlaceInSheet(sh, it, tilePx);
    var n := SheetTiles(tilePx);
    var wt, ht := TilesNeeded(it.w, tilePx), TilesNeeded(it.h, tilePx);
    if Packable(it, tilePx) {
      FreshSheetAccepts(n, wt, ht);
    }
    FirstFitSpec(EmptyOcc(n), n, wt, ht);
    if ok {
      FirstFitPlacement(NewSheet(tilePx), sh, items, i, tilePx);
    }
  }

  /** A sheet list that is sound up to block `i` is sound up to `i + 1`. */
  lemma SheetsOkGrow(sheets: seq<Sheet>, items: seq<BlockSpec>, i: int, tilePx: int)
    requires tilePx > 0 && 0 <= i < |items| && SheetsOk(sheets, items, i, tilePx)
    ensures SheetsOk(sheets, items, i + 1, tilePx)
  {
    forall s | 0 <= s < |sheets| && sheets[s].occ.None?
      ensures exists j :: 0 <= j < i + 1 && Oversized(items[j], tilePx) && sheets[s] == Dedicated(items[j])
    {
      var j :| 0 <= j < i && Oversized(items[j], tilePx) && sheets[s] == Dedicated(items[j]);
    }
  }

  /** Each block whose key is unique is packed exactly once when it is
      packable and never otherwise, and no other key appears. */
  lemma EachBlockOnce(items: seq<BlockSpec>, sheets: seq<Sheet>, tilePx: int)
    requires tilePx > 0 && KeysDistinct(items)
    requires forall k :: PlacedCount(sheets, k) == ExpectedCount(items, k, tilePx)
    ensures forall i :: 0 <= i < |items| ==> PlacedCount(sheets, items[i].key) == if Packable(items[i], tilePx) then 1 else 0
    ensures forall k :: (forall i :: 0 <= i < |items| ==> items[i].key != k) ==> PlacedCount(sheets, k) == 0
  {
    forall k {
      ExpectedCountOf(items, k, tilePx);
    }
  }

  /** Every block the plan builds, two component sizes of whole tiles on
      each side, is packable. */
  lemma PlanBlockPackable(it: BlockSpec, tilePx: int)
    requires tilePx > 0 && it.wTiles >= 1 && it.hTiles >= 1
    requires it.w == it.wTiles * tilePx * 2 && it.h == it.hTiles * tilePx * 2
    ensures Packable(it, tilePx)
  {
    if !Oversized(it, tilePx) {
      assert it.w == (2 * it.wTiles) * tilePx && it.h == (2 * it.hTiles) * tilePx;
      WholeTilesFit(2 * it.wTiles, tilePx);
      WholeTilesFit(2 * it.hTiles, tilePx);
    }
  }

  /** A block's position in the placement index: 1-based sheet number and
      pixel offset. */
  datatype Position = Position(sheet: int, x: int, y: int)

  /** The index after the placements `pls` of sheet number `sheetNo`. */
  function SheetIndex(acc: map<BlockKey, Position>, pls: seq<Placement>, sheetNo: int, known: set<BlockKey>): (r: map<BlockKey, Position>)
    ensures forall k :: k in r ==> (k in acc && r[k] == acc[k]) || (k in known && r[k].sheet == sheetNo)
  {
    if pls == [] then acc
    else
      var m := SheetIndex(acc, pls[..|pls| - 1], sheetNo, known);
      var p := pls[|pls| - 1];
      if p.key in known then m[p.key := Position(sheetNo, p.x, p.y)] else m
  }

  /** The placement index over all sheets: sheet numbers start at 1, and
      keys without a block spec are skipped. */
  function PlacementIndex(sheets: seq<Sheet>, known: set<BlockKey>): (r: map<BlockKey, Position>)
    ensures forall k :: k in r ==> k in known && 1 <= r[k].sheet <= |sheets|
  {
    if sheets == [] then map[]
    else SheetIndex(PlacementIndex(sheets[..|sheets| - 1], known), sheets[|sheets| - 1].placements, |sheets|, known)
  }

  /** Build the placement index sheet by sheet, placement by placement. */
  method BuildPlacementIndex(sheets: seq<Sheet>, known: set<BlockKey>) returns (index: map<BlockKey, Position>)
    ensures index == PlacementIndex(sheets, known)
  {
    index := map[];
    var s := 0;
    while s < |sheets|
      invariant 0 <= s <= |sheets|
      invariant index == PlacementIndex(sheets[..s], known)
    {
      var pls := sheets[s].placements;
      ghost var acc := index;
      var j := 0;
      while j < |pls|
        invariant 0 <= j <= |pls|
        invariant index == SheetIndex(acc, pls[..j], s + 1, known)
      {
        var p := pls[j];
        assert pls[..j + 1][..j] == pls[..j];
        if p.key in known {
          index := index[p.key := Position(s + 1, p.x, p.y)];
        }
        j := j + 1;
      }
      assert pls[..j] == pls;
      assert sheets[..s + 1][..s] == sheets[..s];
      s := s + 1;
    }
    assert sheets[..s] == sheets;
  }

  /** Sheet number `pos.sheet` (from 1) holds a placement of key `k` at
      `(pos.x, pos.y)`. */
  predicate PlacedAt(sheets: seq<Sheet>, k: BlockKey, pos: Position)
  {
    1 <= pos.sheet <= |sheets| && Placement(pos.x, pos.y, k) in sheets[pos.sheet - 1].placements
  }

  lemma {:induction false} SheetIndexSpec(acc: map<BlockKey, Position>, pls: seq<Placement>, sheetNo: int, known: set<BlockKey>)
    ensures var r := SheetIndex(acc, pls, sheetNo, known);
      && (forall k :: k in r ==>
            (k in acc && r[k] == acc[k]) ||
            (k in known && r[k].sheet == sheetNo && Placement(r[k].x, r[k].y, k) in pls))
      && (forall p :: p in pls && p.key in known ==> p.key in r)
      && (forall k :: k in acc ==> k in r)
    decreases |pls|
  {
    if pls != [] {
      var m := |pls| - 1;
      SheetIndexSpec(acc, pls[..m], sheetNo, known);
      assert pls == pls[..m] + [pls[m]];
    }
  }

  /** Every index entry points at a placement of that key on the sheet it
      names (numbered from 1), and every placement whose key has a spec is
      indexed. */
  lemma {:induction false} PlacementIndexSpec(sheets: seq<Sheet>, known: set<BlockKey>)
    ensures forall k :: k in PlacementIndex(sheets, known) ==> k in known && PlacedAt(sheets, k, PlacementIndex(sheets, known)[k])
    ensures forall s, p :: 0 <= s < |sheets| && p in sheets[s].placements && p.key in known ==>
      p.key in PlacementIndex(sheets, known)
    decreases |sheets|
  {
    if sheets != [] {
      var m := |sheets| - 1;
      var prev := sheets[..m];
      PlacementIndexSpec(prev, known);
      var acc := PlacementIndex(prev, known);
      var pls := sheets[m].placements;
      SheetIndexSpec(acc, pls, m + 1, known);
      var idx := PlacementIndex(sheets, known);
      forall k | k in idx
        ensures k in known && PlacedAt(sheets, k, idx[k])
      {
        if k in acc && idx[k] == acc[k] {
          assert sheets[acc[k].sheet - 1] == prev[acc[k].sheet - 1];
        }
      }
      forall s, p | 0 <= s < |sheets| && p in sheets[s].placements && p.key in known
        ensures p.key in idx
      {
        if s < m {
          assert prev[s] == sheets[s];
        }
      }
    }
  }

  /** The sheets as written to the manifest, with the occupancy grids
      dropped. */
  function StripOcc(sheets: seq<Sheet>): (r: seq<Sheet>)
    ensures |r| == |sheets|
    ensures forall s :: 0 <= s < |r| ==> r[s] == Sheet(sheets[s].w, sheets[s].h, sheets[s].placements, None)
  {
    seq(|sheets|, s requires 0 <= s < |sheets| => sheets[s].(occ := None))
  }
}
