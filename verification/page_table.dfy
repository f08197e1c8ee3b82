/** The current page's cell-ownership table: entries by id, and the grid
    that maps every cell to the id of the entry drawn there. Placing an
    entry first removes every entry it would overlap. */
module PageTable {
  import opened Wrappers
  import opened JsonValue
  import opened Geometry
  import opened IntSets

  /** The page invariant: each id in the lookup grid names an entry
      covering that cell, each in-grid cell of an entry points back to it
      (so entries never share a cell), entries are filed under their own
      id, and every id is below `nextId`. */
  ghost predicate TableConsistent(cells: seq<seq<Option<int>>>, entries: map<int, Entry>, n: nat, nextId: int)
  {
    && IsSquareGrid(cells, n)
    && (forall y, x :: 0 <= y < n && 0 <= x < n && cells[y][x].Some? ==>
          cells[y][x].value in entries && Contains(entries[cells[y][x].value].rect, x, y))
    && (forall e, y, x :: e in entries && 0 <= y < n && 0 <= x < n && Contains(entries[e].rect, x, y) ==>
          cells[y][x] == Some(e))
    && (forall e :: e in entries ==> entries[e].entryId == e && e < nextId)
  }

  /** Removing the touched entries and then pointing the in-grid cells of
      `rect` at a fresh entry filed under `nextId` keeps the invariant: no
      surviving entry had a cell in `rect`, and no cleared cell belonged to
      a survivor. */
  lemma PlaceKeepsConsistent(before: seq<seq<Option<int>>>, mid: seq<seq<Option<int>>>, now: seq<seq<Option<int>>>,
                             entries: map<int, Entry>, t: set<int>, rect: Rect, ent: Entry, n: nat)
    requires TableConsistent(before, entries, n, ent.entryId)
    requires t == Touched(before, rect, n)
    requires IsSquareGrid(mid, n) && ClearedOf(mid, before, entries, t, n)
    requires IsSquareGrid(now, n)
    requires forall y, x :: 0 <= y < n && 0 <= x < n ==> now[y][x] == if Contains(rect, x, y) then Some(ent.entryId) else mid[y][x]
    requires ent.rect == rect
    ensures TableConsistent(now, (entries - t)[ent.entryId := ent], n, ent.entryId + 1)
  {
    var eid := ent.entryId;
    var after := (entries - t)[eid := ent];
    forall y, x | 0 <= y < n && 0 <= x < n && now[y][x].Some?
      ensures now[y][x].value in after && Contains(after[now[y][x].value].rect, x, y)
    {
      if !Contains(rect, x, y) {
        var v := before[y][x].value;
        assert v !in t;
      }
    }
    forall e, y, x | e in after && 0 <= y < n && 0 <= x < n && Contains(after[e].rect, x, y)
      ensures now[y][x] == Some(e)
    {
      if e != eid {
        assert before[y][x] == Some(e);
        TouchedHas(before, rect, n, x, y);
      }
    }
  }

  /** Removing the entries `gone` and clearing their cells keeps the
      invariant: a surviving cell id was not removed, and a survivor's
      cells were not cleared. */
  lemma RemoveKeepsConsistent(before: seq<seq<Option<int>>>, after: seq<seq<Option<int>>>,
                              entries: map<int, Entry>, gone: set<int>, n: nat, nextId: int)
    requires TableConsistent(before, entries, n, nextId)
    requires IsSquareGrid(after, n) && ClearedOf(after, before, entries, gone, n)
    ensures TableConsistent(after, entries - gone, n, nextId)
  {
    forall y, x | 0 <= y < n && 0 <= x < n && after[y][x].Some?
      ensures after[y][x].value in entries - gone && Contains((entries - gone)[after[y][x].value].rect, x, y)
    {
      assert after[y][x] == before[y][x];
    }
    forall e, y, x | e in entries - gone && 0 <= y < n && 0 <= x < n && Contains((entries - gone)[e].rect, x, y)
      ensures after[y][x] == Some(e)
    {
      assert before[y][x] == Some(e);
    }
  }

  lemma TouchedHas(cells: seq<seq<Option<int>>>, rect: Rect, n: nat, x: int, y: int)
    requires IsSquareGrid(cells, n)
    ensures 0 <= x < n && 0 <= y < n && Contains(rect, x, y) && cells[y][x].Some? ==> cells[y][x].value in Touched(cells, rect, n)
  {
  }

  /** The ids found in the in-grid cells of `rect`. */
  ghost function Touched(cells: seq<seq<Option<int>>>, rect: Rect, n: nat): set<int>
    requires IsSquareGrid(cells, n)
  {
    set x, y | 0 <= x < n && 0 <= y < n && Contains(rect, x, y) && cells[y][x].Some? :: cells[y][x].value
  }

  /** The lookup grid after removing the entries `gone`: a cell is cleared
      when it held the id of a removed entry and lies in that entry's
      rectangle. */
  ghost predicate ClearedOf(after: seq<seq<Option<int>>>, before: seq<seq<Option<int>>>, entries: map<int, Entry>, gone: set<int>, n: nat)
    requires IsSquareGrid(after, n) && IsSquareGrid(before, n)
  {
    forall y, x :: 0 <= y < n && 0 <= x < n ==>
      after[y][x] == if before[y][x].Some? && before[y][x].value in gone && before[y][x].value in entries
                        && Contains(entries[before[y][x].value].rect, x, y)
                     then None else before[y][x]
  }

  /** The keys a new entry's metadata starts from: a copy of the tool
      settings for a standard button when they are a dict, nothing
      otherwise. */
  function CopiedMeta(tool: Tool, toolMeta: Json): map<string, Json>
  {
    if tool == ButtonStandard && toolMeta.JObj? then toolMeta.fields else map[]
  }

  /** The metadata a newly placed entry starts with: a standard button
      copies the tool's page-change settings; every entry except background
      gets `locked: false` and a disabled, empty hover tooltip unless
      already present (`setdefault`), and no other key. */
  function NewEntryMeta(tool: Tool, toolMeta: Json): (meta: Json)
    ensures tool == Background ==> meta == JObj(map[])
    ensures tool != Background ==> var copied := CopiedMeta(tool, toolMeta);
      && meta.JObj?
      && meta.fields.Keys == copied.Keys + {"locked", "hover"}
      && (forall k :: k in copied ==> meta.fields[k] == copied[k])
      && ("locked" !in copied ==> meta.fields["locked"] == JBool(false))
      && ("hover" !in copied ==> meta.fields["hover"] == HoverDefault())
    ensures tool != Background && tool != ButtonStandard ==>
      meta == JObj(map["locked" := JBool(false), "hover" := HoverDefault()])
  {
    var base := if tool == ButtonStandard then toolMeta else JObj(map[]);
    if tool == Background then base
    else
      var m := if base.JObj? then base.fields else map[];
      var m1 := if "locked" in m then m else m["locked" := JBool(false)];
      var m2 := if "hover" in m1 then m1 else m1["hover" := HoverDefault()];
      JObj(m2)
  }

  function HoverDefault(): Json
  {
    JObj(map["enabled" := JBool(false), "text" := JStr("")])
  }

  /** The editing state of the current page (the fields the editor aliases
      to the selected page) and the global uid counter. */
  class Editor {
    var gridN: nat
    var entries: map<int, Entry>
    var cellToEntry: seq<seq<Option<int>>>
    var nextEntryId: int
    var nextUid: int
    var selectedEntryId: Option<int>
    var currentTool: Tool
    var standardButtonToolMeta: Json

    /** The lookup grid has the page's dimensions. */
    ghost predicate Shaped()
      reads this
    {
      IsSquareGrid(cellToEntry, gridN)
    }

    /** The page invariant that editing keeps: each id in the lookup grid
        names an entry covering that cell, each in-grid cell of an entry
        points back to it (so entries never share a cell), entries are
        filed under their own id, and every id is below `nextEntryId`. */
    ghost predicate Consistent()
      reads this
    {
      TableConsistent(cellToEntry, entries, gridN, nextEntryId)
    }

    constructor (n: nat)
      ensures gridN == n && entries == map[] && nextEntryId == 1 && nextUid == 1
      ensures cellToEntry == seq(n, _ => seq(n, _ => None)) && selectedEntryId == None
      ensures Consistent()
    {
      gridN := n;
      entries := map[];
      cellToEntry := seq(n, _ => seq(n, _ => None));
      nextEntryId := 1;
      nextUid := 1;
      selectedEntryId := None;
      currentTool := Background;
      standardButtonToolMeta := JObj(map["page_change" := JObj(map[
        "mode" := JStr("none"), "target_page_id" := JInt(1), "modulo" := JBool(true)])]);
    }

    /** `_remove_entry_id`: clear the cells of the entry's rectangle that
        still hold its id, drop the entry and its selection. An absent id
        changes nothing. */
    method RemoveEntryId(eid: int)
      requires Shaped()
      modifies this
      ensures Shaped()
      ensures gridN == old(gridN) && nextEntryId == old(nextEntryId) && nextUid == old(nextUid)
      ensures currentTool == old(currentTool) && standardButtonToolMeta == old(standardButtonToolMeta)
      ensures entries == old(entries) - {eid}
      ensures ClearedOf(cellToEntry, old(cellToEntry), old(entries), {eid}, gridN)
      ensures selectedEntryId == if eid in old(entries) && old(selectedEntryId) == Some(eid) then None else old(selectedEntryId)
      ensures eid !in old(entries) ==> cellToEntry == old(cellToEntry)
      ensures old(Consistent()) ==> Consistent()
    {
      if eid !in entries {
        assert ClearedOf(cellToEntry, old(cellToEntry), old(entries), {eid}, gridN);
        return;
      }
      var ent := entries[eid];
      var cells := Cells(ent.rect);
      var grid := cellToEntry;
      var j := 0;
      while j < |cells|
        invariant 0 <= j <= |cells|
        invariant IsSquareGrid(grid, gridN)
        invariant forall y, x :: 0 <= y < gridN && 0 <= x < gridN ==>
          grid[y][x] == if cellToEntry[y][x] == Some(eid) && (x, y) in cells[..j] then None else cellToEntry[y][x]
      {
        var (x, y) := cells[j];
        if 0 <= x < gridN && 0 <= y < gridN {
          if grid[y][x] == Some(eid) {
            grid := grid[y := grid[y][x := None]];
          }
        }
        assert cells[..j + 1] == cells[..j] + [cells[j]];
        j := j + 1;
      }
      assert cells[..j] == cells;
      CellsExactly(ent.rect);
      cellToEntry := grid;
      entries := entries - {eid};
      if selectedEntryId == Some(eid) {
        selectedEntryId := None;
      }
      if old(Consistent()) {
        RemoveKeepsConsistent(old(cellToEntry), cellToEntry, old(entries), {eid}, gridN, nextEntryId);
      }
    }

    /** `_remove_in_rect`: collect the ids in the in-grid cells of `rect`,
        then remove each of those entries. */
    method RemoveInRect(rect: Rect)
      requires Shaped()
      modifies this
      ensures Shaped()
      ensures gridN == old(gridN) && nextEntryId == old(nextEntryId) && nextUid == old(nextUid)
      ensures currentTool == old(currentTool) && standardButtonToolMeta == old(standardButtonToolMeta)
      ensures entries == old(entries) - Touched(old(cellToEntry), rect, gridN)
      ensures ClearedOf(cellToEntry, old(cellToEntry), old(entries), Touched(old(cellToEntry), rect, gridN), gridN)
      ensures selectedEntryId == if old(selectedEntryId).Some? && old(selectedEntryId).value in old(entries)
                                   && old(selectedEntryId).value in Touched(old(cellToEntry), rect, gridN)
                                then None else old(selectedEntryId)
      ensures old(Consistent()) ==> Consistent()
    {
      var touched := CollectTouched(rect);
      ghost var all := touched;
      ghost var gone: set<int> := {};
      while touched != {}
        invariant Shaped() && gridN == old(gridN) && nextEntryId == old(nextEntryId) && nextUid == old(nextUid)
        invariant currentTool == old(currentTool) && standardButtonToolMeta == old(standardButtonToolMeta)
        invariant touched !! gone && touched + gone == all
        invariant entries == old(entries) - gone
        invariant ClearedOf(cellToEntry, old(cellToEntry), old(entries), gone, gridN)
        invariant selectedEntryId == if old(selectedEntryId).Some? && old(selectedEntryId).value in old(entries)
                                       && old(selectedEntryId).value in gone
                                    then None else old(selectedEntryId)
        decreases touched
      {
        NoMemberEmpty(touched);
        var e :| e in touched;
        RemoveEntryId(e);
        touched := touched - {e};
        gone := gone + {e};
      }
      if old(Consistent()) {
        RemoveKeepsConsistent(old(cellToEntry), cellToEntry, old(entries), gone, gridN, nextEntryId);
      }
    }

    /** The ids held by the in-grid cells of `rect`, scanned in
        `Rect.cells()` order. */
    method CollectTouched(rect: Rect) returns (touched: set<int>)
      requires Shaped()
      ensures touched == Touched(cellToEntry, rect, gridN)
    {
      touched := {};
      var cells := Cells(rect);
      CellsExactly(rect);
      var j := 0;
      while j < |cells|
        invariant 0 <= j <= |cells|
        invariant touched == set x, y | 0 <= x < gridN && 0 <= y < gridN && (x, y) in cells[..j] && cellToEntry[y][x].Some? :: cellToEntry[y][x].value
      {
        var (x, y) := cells[j];
        if 0 <= x < gridN && 0 <= y < gridN {
          var id := cellToEntry[y][x];
          if id.Some? {
            touched := touched + {id.value};
          }
        }
        assert cells[..j + 1] == cells[..j] + [cells[j]];
        j := j + 1;
      }
      assert cells[..j] == cells;
    }

    /** `_place_entry`: remove every entry owning an in-grid cell of
        `rect`, then file a new entry under `nextEntryId` with uid
        `nextUid` (both counters advance by one) and point every in-grid
        cell of `rect` at it. The page invariant is kept. */
    method PlaceEntry(rect: Rect)
      requires Shaped()
      modifies this
      ensures Shaped()
      ensures gridN == old(gridN) && nextEntryId == old(nextEntryId) + 1 && nextUid == old(nextUid) + 1
      ensures currentTool == old(currentTool) && standardButtonToolMeta == old(standardButtonToolMeta)
      ensures entries == (old(entries) - Touched(old(cellToEntry), rect, gridN))[old(nextEntryId) :=
        Entry(old(nextEntryId), currentTool, rect, old(nextUid), false, "", NewEntryMeta(currentTool, standardButtonToolMeta))]
      ensures forall y, x :: 0 <= y < gridN && 0 <= x < gridN && Contains(rect, x, y) ==> cellToEntry[y][x] == Some(old(nextEntryId))
      ensures forall y, x :: 0 <= y < gridN && 0 <= x < gridN && !Contains(rect, x, y) ==>
        var c := old(cellToEntry)[y][x];
        cellToEntry[y][x] == if c.Some? && c.value in Touched(old(cellToEntry), rect, gridN) && c.value in old(entries)
                                && Contains(old(entries)[c.value].rect, x, y) then None else c
      ensures old(Consistent()) ==> Consistent()
      ensures selectedEntryId == if old(selectedEntryId).Some? && old(selectedEntryId).value in old(entries)
                                   && old(selectedEntryId).value in Touched(old(cellToEntry), rect, gridN)
                                then None else old(selectedEntryId)
    {
      ghost var t := Touched(cellToEntry, rect, gridN);
      RemoveInRect(rect);
      ghost var mid := cellToEntry;

      var eid := nextEntryId;
      nextEntryId := nextEntryId + 1;
      var uid := nextUid;
      nextUid := nextUid + 1;
      var ent := Entry(eid, currentTool, rect, uid, false, "", NewEntryMeta(currentTool, standardButtonToolMeta));
      entries := entries[eid := ent];

      cellToEntry := StampCells(cellToEntry, rect, eid, gridN);
      if old(Consistent()) {
        PlaceKeepsConsistent(old(cellToEntry), mid, cellToEntry, old(entries), t, rect, ent, gridN);
      }
    }

  }
}
