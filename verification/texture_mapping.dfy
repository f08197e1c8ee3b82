/** The connected-texture (CTM) resolver: each visual state of a UI module
    occupies a 4x4 block of atlas tiles, and a cell picks the tile of that
    block that matches which of its four neighbours belong to the same
    shape. Also: atlas origins from the mapping configuration and the
    optional mask -> offset override table. */
module TextureMapping {
  import opened Wrappers
  import opened JsonValue

  /** `CTM_DIRS`: neighbour direction `(dx, dy)` and its mask bit, in the
      order N, E, S, W (`y` grows downwards). */
  const CtmDirs: seq<(int, int, bv4)> := [(0, -1, 1), (1, 0, 2), (0, 1, 4), (-1, 0, 8)]

  /** Each direction is a unit step and owns its own bit of the 4-bit mask:
      the bits are 1, 2, 4, 8 and together make 15. */
  lemma CtmDirsBits()
    ensures |CtmDirs| == 4
    ensures forall d :: 0 <= d < 4 ==> CtmDirs[d].2 == (1 as bv4) << d
    ensures forall d :: 0 <= d < 4 ==> Abs(CtmDirs[d].0) + Abs(CtmDirs[d].1) == 1
    ensures CtmDirs[0].2 | CtmDirs[1].2 | CtmDirs[2].2 | CtmDirs[3].2 == 15
    ensures CtmDirs[0].0 == 0 && CtmDirs[0].1 == -1 && CtmDirs[2].0 == 0 && CtmDirs[2].1 == 1
    ensures CtmDirs[1].0 == 1 && CtmDirs[1].1 == 0 && CtmDirs[3].0 == -1 && CtmDirs[3].1 == 0
  {
  }

  function Abs(a: int): nat
  {
    if a < 0 then -a else a
  }

  /** Bit `bit` of a 4-bit mask, Python's `bool(m & bit)`. */
  predicate HasBit(m: int, bit: bv4)
    requires 0 <= m < 16
  {
    (m as bv4) & bit != 0
  }

  /** The default structured 4x4 layout: (0,0) for a lone cell, row 0 for
      horizontal strips, column 0 for vertical strips, and the 3x3 block
      (1..3, 1..3) as a nine-slice for two-dimensional shapes. */
  function DefaultCtmOffset(m: int): (off: (int, int))
    requires 0 <= m < 16
    ensures 0 <= off.0 < 4 && 0 <= off.1 < 4
  {
    var n := HasBit(m, 1);
    var e := HasBit(m, 2);
    var s := HasBit(m, 4);
    var w := HasBit(m, 8);
    if !(n || e || s || w) then (0, 0)
    else if !(n || s) && (e || w) then
      (if e && w then (2, 0) else if e then (1, 0) else (3, 0))
    else if !(e || w) && (n || s) then
      (if n && s then (0, 2) else if s then (0, 1) else (0, 3))
    else
      var dx := if w && e then 2 else if w then 3 else 1;
      var dy := if n && s then 2 else if n then 3 else 1;
      (dx, dy)
  }

  /** `ctm_tile_offset(mask)`: only the low four bits of the mask count;
      an entry of the configured override table wins over the default
      layout. Python's `mask & 0xF` equals `mask % 16` for every int. */
  function CtmTileOffset(mask: int, overrides: Option<map<int, (int, int)>>): (off: (int, int))
    ensures overrides.Some? && mask % 16 in overrides.value ==> off == overrides.value[mask % 16]
    ensures !(overrides.Some? && mask % 16 in overrides.value) ==> 0 <= off.0 < 4 && 0 <= off.1 < 4
  {
    var m := mask % 16;
    if overrides.Some? && m in overrides.value then overrides.value[m]
    else DefaultCtmOffset(m)
  }

  /** Masks that agree in their low four bits select the same tile. */
  lemma CtmLowBitsOnly(a: int, b: int, overrides: Option<map<int, (int, int)>>)
    requires a % 16 == b % 16
    ensures CtmTileOffset(a, overrides) == CtmTileOffset(b, overrides)
  {
  }

  /** An override for the reduced mask is returned as configured; without
      one the default layout decides. */
  lemma CtmOverrideFirst(mask: int, overrides: map<int, (int, int)>)
    ensures mask % 16 in overrides ==> CtmTileOffset(mask, Some(overrides)) == overrides[mask % 16]
    ensures mask % 16 !in overrides ==> CtmTileOffset(mask, Some(overrides)) == CtmTileOffset(mask, None)
  {
  }

  /** A lone cell uses (0,0), and no cell with a neighbour does. */
  lemma CtmSingleCell(mask: int)
    ensures CtmTileOffset(mask, None) == (0, 0) <==> mask % 16 == 0
  {
    var m := mask % 16;
    assert m == 0 <==> !(HasBit(m, 1) || HasBit(m, 2) || HasBit(m, 4) || HasBit(m, 8));
  }

  /** Strips: E+W -> (2,0), E -> (1,0), W -> (3,0) and N+S -> (0,2),
      S -> (0,1), N -> (0,3). Mask 15 (all four neighbours) is the centre
      of the nine-slice. */
  lemma CtmStrips()
    ensures CtmTileOffset(2 + 8, None) == (2, 0)
    ensures CtmTileOffset(2, None) == (1, 0)
    ensures CtmTileOffset(8, None) == (3, 0)
    ensures CtmTileOffset(1 + 4, None) == (0, 2)
    ensures CtmTileOffset(4, None) == (0, 1)
    ensures CtmTileOffset(1, None) == (0, 3)
    ensures CtmTileOffset(15, None) == (2, 2)
  {
  }

  /** Column of the nine-slice from the horizontal neighbours: east only is
      the left edge, both is the middle, west only is the right edge. */
  function ColumnOf(e: bool, w: bool): int
  {
    if e && w then 2 else if w then 3 else 1
  }

  /** Row of the nine-slice from the vertical neighbours: south only is the
      top edge, both is the middle, north only is the bottom edge. */
  function RowOf(n: bool, s: bool): int
  {
    if n && s then 2 else if n then 3 else 1
  }

  /** With a horizontal and a vertical neighbour the tile lies in the 3x3
      block, and each axis is resolved from its own two neighbours. */
  lemma CtmNineSlice(mask: int)
    requires var m := mask % 16; (HasBit(m, 2) || HasBit(m, 8)) && (HasBit(m, 1) || HasBit(m, 4))
    ensures var m := mask % 16;
      CtmTileOffset(mask, None) == (ColumnOf(HasBit(m, 2), HasBit(m, 8)), RowOf(HasBit(m, 1), HasBit(m, 4)))
    ensures 1 <= CtmTileOffset(mask, None).0 <= 3 && 1 <= CtmTileOffset(mask, None).1 <= 3
  {
  }

  /** The mask that the default layout sends to tile `(dx, dy)`. */
  function MaskForOffset(dx: int, dy: int): (m: int)
    requires 0 <= dx < 4 && 0 <= dy < 4
    ensures 0 <= m < 16
  {
    var h := if dx == 0 then 0 else if dx == 1 then 2 else if dx == 2 then 10 else 8;
    var v := if dy == 0 then 0 else if dy == 1 then 4 else if dy == 2 then 5 else 1;
    h + v
  }

  /** The default layout is a bijection from the 16 masks onto the 4x4
      block: `MaskForOffset` undoes it in both directions. */
  lemma CtmBijection()
    ensures forall m :: 0 <= m < 16 ==> MaskForOffset(DefaultCtmOffset(m).0, DefaultCtmOffset(m).1) == m
    ensures forall dx, dy :: 0 <= dx < 4 && 0 <= dy < 4 ==> DefaultCtmOffset(MaskForOffset(dx, dy)) == (dx, dy)
  {
    forall m | 0 <= m < 16
      ensures MaskForOffset(DefaultCtmOffset(m).0, DefaultCtmOffset(m).1) == m
    {
      MaskRoundTrip(m);
    }
    forall dx, dy | 0 <= dx < 4 && 0 <= dy < 4
      ensures DefaultCtmOffset(MaskForOffset(dx, dy)) == (dx, dy)
    {
      OffsetRoundTrip(dx, dy);
    }
  }

  lemma MaskRoundTrip(m: int)
    requires 0 <= m < 16
    ensures MaskForOffset(DefaultCtmOffset(m).0, DefaultCtmOffset(m).1) == m
  {
    if m == 0 {} else if m == 1 {} else if m == 2 {} else if m == 3 {}
    else if m == 4 {} else if m == 5 {} else if m == 6 {} else if m == 7 {}
    else if m == 8 {} else if m == 9 {} else if m == 10 {} else if m == 11 {}
    else if m == 12 {} else if m == 13 {} else if m == 14 {} else {}
  }

  lemma OffsetRoundTrip(dx: int, dy: int)
    requires 0 <= dx < 4 && 0 <= dy < 4
    ensures DefaultCtmOffset(MaskForOffset(dx, dy)) == (dx, dy)
  {
    MaskRoundTrip(MaskForOffset(dx, dy));
    var m := MaskForOffset(dx, dy);
    var off := DefaultCtmOffset(m);
    assert MaskForOffset(off.0, off.1) == m;
    MaskForOffsetInjective(off.0, off.1, dx, dy);
  }

  lemma MaskForOffsetInjective(a: int, b: int, c: int, d: int)
    requires 0 <= a < 4 && 0 <= b < 4 && 0 <= c < 4 && 0 <= d < 4
    requires MaskForOffset(a, b) == MaskForOffset(c, d)
    ensures a == c && b == d
  {
  }

  /** `_origin_from_obj`: an atlas origin in tile units from a
      configuration object. `{"tile": [x, y]}` is taken literally,
      `{"module": [x, y]}` is in units of whole modules; anything else is
      rejected. `tile` is looked at first. */
  function OriginFromObj(obj: Json, ctmSize: int): (r: Result<(int, int)>)
    ensures !obj.JObj? ==> r.Err?
    ensures obj.JObj? && "tile" !in obj.fields && "module" !in obj.fields ==> r.Err?
    ensures obj.JObj? && "tile" in obj.fields ==>
      var p := PairOfInts(obj.fields["tile"]);
      (r.Ok? <==> p.Some?) && (r.Ok? ==> r.value == p.value)
    ensures obj.JObj? && "tile" !in obj.fields && "module" in obj.fields ==>
      var p := PairOfInts(obj.fields["module"]);
      (r.Ok? <==> p.Some?) && (r.Ok? ==> r.value == (p.value.0 * ctmSize, p.value.1 * ctmSize))
  {
    if !obj.JObj? then Err("ctm_origins entries must be objects")
    else if "tile" in obj.fields then
      match PairOfInts(obj.fields["tile"])
      case Some((tx, ty)) => Ok((tx, ty))
      case None => Err("invalid 'tile'")
    else if "module" in obj.fields then
      match PairOfInts(obj.fields["module"])
      case Some((mx, my)) => Ok((mx * ctmSize, my * ctmSize))
      case None => Err("invalid 'module'")
    else Err("ctm_origins entries must have 'tile' or 'module'")
  }

  /** `a, b = v` followed by `int(a), int(b)`. Unpacking into two names
      takes a two-element list apart, and also a two-character string,
      whose characters become one-character strings for `int`. */
  function PairOfInts(v: Json): (r: Option<(int, int)>)
    ensures v.JList? ==>
      && (r.Some? <==> |v.items| == 2 && ToInt(v.items[0]).Some? && ToInt(v.items[1]).Some?)
      && (r.Some? ==> r.value == (ToInt(v.items[0]).value, ToInt(v.items[1]).value))
    ensures v.JStr? ==>
      && (r.Some? <==> |v.s| == 2 && ParseInt(v.s[..1]).Some? && ParseInt(v.s[1..]).Some?)
      && (r.Some? ==> r.value == (ParseInt(v.s[..1]).value, ParseInt(v.s[1..]).value))
    ensures !v.JList? && !v.JStr? ==> r.None?
  {
    if v.JList? && |v.items| == 2 then
      match (ToInt(v.items[0]), ToInt(v.items[1]))
      case (Some(a), Some(b)) => Some((a, b))
      case _ => None
    else if v.JStr? && |v.s| == 2 then
      match (ParseInt(v.s[..1]), ParseInt(v.s[1..]))
      case (Some(a), Some(b)) => Some((a, b))
      case _ => None
    else None
  }

  /** A two-digit string unpacks digit by digit: `{"tile": "12"}` is the
      tile (1, 2) and `{"module": "12"}` the module (1, 2). */
  lemma DigitStringOrigin(ctmSize: int)
    ensures OriginFromObj(JObj(map["tile" := JStr("12")]), ctmSize) == Ok((1, 2))
    ensures OriginFromObj(JObj(map["module" := JStr("12")]), ctmSize) == Ok((ctmSize, 2 * ctmSize))
  {
    assert "12"[..1] == "1" && "12"[1..] == "2";
    assert DigitsOf("1") == Some(1) && DigitsOf("2") == Some(2);
  }

  /** One configured override `key: value`: the key must read as an int
      and the value must be a two-element list, otherwise it is skipped. */
  predicate OverrideUsed(item: (string, Json))
  {
    ParseInt(item.0).Some? && item.1.JList? && |item.1.items| == 2
  }

  /** The mask an override applies to, reduced with `& 0xF`. */
  function OverrideMask(item: (string, Json)): int
    requires OverrideUsed(item)
  {
    ParseInt(item.0).value % 16
  }

  /** A used override whose coordinates do not convert with `int` makes the
      configuration fail to load. */
  predicate OverrideBroken(item: (string, Json))
  {
    OverrideUsed(item) && PairOfInts(item.1).None?
  }

  /** An override is the last word on its reduced mask: no later used
      override has the same mask. */
  predicate LastFor(items: seq<(string, Json)>, i: int)
    requires 0 <= i < |items| && OverrideUsed(items[i])
  {
    forall j :: i < j < |items| && OverrideUsed(items[j]) ==> OverrideMask(items[j]) != OverrideMask(items[i])
  }

  /** The override table that the items define, each used item writing
      its reduced mask in turn. */
  function OverridesFrom(items: seq<(string, Json)>): (r: map<int, (int, int)>)
    ensures forall k :: k in r ==> 0 <= k < 16
  {
    if items == [] then map[]
    else
      var m := OverridesFrom(items[..|items| - 1]);
      var it := items[|items| - 1];
      if OverrideUsed(it) && PairOfInts(it.1).Some? then m[OverrideMask(it) := PairOfInts(it.1).value] else m
  }

  /** The table's keys are exactly the reduced masks of the used items,
      and each holds the value of the last item for it. */
  lemma {:induction false} OverridesFromContents(items: seq<(string, Json)>)
    requires forall i :: 0 <= i < |items| ==> !OverrideBroken(items[i])
    ensures forall k :: k in OverridesFrom(items) <==>
      exists i :: 0 <= i < |items| && OverrideUsed(items[i]) && OverrideMask(items[i]) == k
    ensures forall i :: 0 <= i < |items| && OverrideUsed(items[i]) && LastFor(items, i) && PairOfInts(items[i].1).Some? ==>
      OverridesFrom(items)[OverrideMask(items[i])] == PairOfInts(items[i].1).value
  {
    if items != [] {
      var init := items[..|items| - 1];
      var last := items[|items| - 1];
      assert forall i :: 0 <= i < |init| ==> init[i] == items[i];
      OverridesFromContents(init);
      var m := OverridesFrom(items);
      forall k | k in m
        ensures exists i :: 0 <= i < |items| && OverrideUsed(items[i]) && OverrideMask(items[i]) == k
      {
        if !(OverrideUsed(last) && OverrideMask(last) == k) {
          assert k in OverridesFrom(init);
          var i :| 0 <= i < |init| && OverrideUsed(init[i]) && OverrideMask(init[i]) == k;
          assert items[i] == init[i];
        }
      }
      forall i | 0 <= i < |items| && OverrideUsed(items[i]) && LastFor(items, i) && PairOfInts(items[i].1).Some?
        ensures OverridesFrom(items)[OverrideMask(items[i])] == PairOfInts(items[i].1).value
      {
        if i < |init| {
          assert LastFor(init, i);
        }
      }
    }
  }

  /** The loop that builds `_CTM_MASK_TO_OFFSET` from the configured
      `ctm_mask_to_offset` object, given as its items in document order.
      Keys are stored reduced with `& 0xF`, later entries overwrite earlier
      ones, an empty table becomes `None`, and a used entry whose
      coordinates do not convert stops the configuration from loading. */
  method BuildMaskOverrides(items: seq<(string, Json)>) returns (r: Result<Option<map<int, (int, int)>>>)
    ensures r.Err? <==> exists i :: 0 <= i < |items| && OverrideBroken(items[i])
    ensures r.Ok? ==> r.value == if OverridesFrom(items) == map[] then None else Some(OverridesFrom(items))
  {
    var tmp: map<int, (int, int)> := map[];
    var i := 0;
    while i < |items|
      invariant 0 <= i <= |items|
      invariant forall j :: 0 <= j < i ==> !OverrideBroken(items[j])
      invariant tmp == OverridesFrom(items[..i])
    {
      var (k, v) := items[i];
      var kk := ParseInt(k);
      if kk.Some? && v.JList? && |v.items| == 2 {
        var pair := PairOfInts(v);
        if pair.None? {
          assert OverrideBroken(items[i]);
          return Err("ctm_mask_to_offset value is not a pair of ints");
        }
        tmp := tmp[kk.value % 16 := pair.value];
      }
      assert items[..i + 1][..i] == items[..i];
      i := i + 1;
    }
    assert items[..i] == items;
    r := if tmp == map[] then Ok(None) else Ok(Some(tmp));
  }
}
