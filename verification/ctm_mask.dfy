/** The editor's CTM neighbour mask: which of a cell's four neighbours
    belong to an explicit set of cells (one entry's cells, or the painted
    background), never the whole grid, so adjacent elements stay apart. */
module CtmMask {
  import opened TextureMapping

  /** The neighbour of `(x, y)` in direction `d` of `CtmDirs`. */
  function Neighbour(x: int, y: int, d: nat): (int, int)
    requires d < 4
  {
    (x + CtmDirs[d].0, y + CtmDirs[d].1)
  }

  /** `_ctm_mask`: OR together the bit of every direction whose neighbour
      is in `cellSet`. Bit `d` of the result is set exactly when neighbour
      `d` is in the set, so the result lies in 0..15. */
  method CtmMaskOf(cellSet: set<(int, int)>, x: int, y: int) returns (mask: int)
    ensures 0 <= mask < 16
    ensures forall d :: 0 <= d < 4 ==> (HasBit(mask, CtmDirs[d].2) <==> Neighbour(x, y, d) in cellSet)
  {
    mask := 0;
    var i := 0;
    while i < |CtmDirs|
      invariant 0 <= i <= 4
      invariant 0 <= mask < 16
      invariant forall d :: 0 <= d < i ==> (HasBit(mask, CtmDirs[d].2) <==> Neighbour(x, y, d) in cellSet)
      invariant forall d :: i <= d < 4 ==> !HasBit(mask, CtmDirs[d].2)
    {
      var (dx, dy, bit) := CtmDirs[i];
      if (x + dx, y + dy) in cellSet {
        mask := ((mask as bv4) | bit) as int;
      }
      i := i + 1;
    }
  }
}
