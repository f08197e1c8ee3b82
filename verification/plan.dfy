/** `_plan_component_sheet_layout`: collect one component record per
    exported entry of every page, deduplicate their texture blocks, pack
    the blocks onto sheets, index where each landed and attach sheet and
    texture offsets to the components. */
module ComponentPlan {
  import opened Wrappers
  import opened JsonValue
  import opened Geometry
  import opened IntSets
  import opened BackgroundCodec
  import opened Navigation
  import opened Components
  import opened SheetPacker

  /** A pixel offset into a sheet. */
  datatype Tex = Tex(x: int, y: int)

  /** A component record of the manifest. Optional keys are `None` when
      the record does not carry them; `locked` and `closeGui` are only
      written when true. `blockKey` is the internal `_block_key`, present
      while planning and removed once the texture offsets are attached. */
  datatype Component = Component(
    id: int,
    ctype: string,
    page: Option<int>,
    x: int,
    y: int,
    wTiles: int,
    hTiles: int,
    labelText: Option<string>,
    locked: bool,
    items: Option<seq<string>>,
    hoverText: Option<string>,
    openPage: Option<int>,
    closeGui: bool,
    toggled: Option<bool>,
    blockKey: Option<BlockKey>,
    sheet: Option<int>,
    tex: Option<Tex>,
    toggleTex: Option<Tex>,
    disabledTex: Option<Tex>,
    toggleDisabledTex: Option<Tex>)

  /** The tools listed in the manifest (everything but the background and
      the legacy press button). */
  predicate InManifest(t: Tool)
  {
    t == ButtonStandard || t == ButtonToggle || t == TextSlot || t == TextEntry || t == SelectList || t == ItemSlot
  }

  /** The entry's uid, or its entry id when the uid is not positive. */
  function ComponentUid(ent: Entry): (uid: int)
    ensures ent.uid > 0 ==> uid == ent.uid
    ensures ent.uid <= 0 ==> uid == ent.entryId
    ensures uid > 0 <==> ent.uid > 0 || ent.entryId > 0
  {
    if ent.uid <= 0 then ent.entryId else ent.uid
  }

  /** `bool(meta.get("locked", False))`. */
  predicate LockedFlag(ent: Entry)
  {
    Truthy(GetOr(MetaOf(ent), "locked", JBool(false)))
  }

  /** The texture-block key: one block per toggle size and state or per
      button size when grouping buttons by size, else one per uid. */
  function BlockKeyFor(ent: Entry, uid: int, wTiles: int, hTiles: int, group: bool): (k: BlockKey)
    ensures !group || (ent.tool != ButtonToggle && ent.tool != ButtonStandard) ==> k == ComponentKey(uid)
    ensures group && ent.tool == ButtonStandard ==> k == ButtonKey(wTiles, hTiles)
    ensures group && ent.tool == ButtonToggle ==> k == ToggleKey(wTiles, hTiles, LockedFlag(ent), ent.active)
  {
    if group && ent.tool == ButtonToggle then ToggleKey(wTiles, hTiles, LockedFlag(ent), ent.active)
    else if group && ent.tool == ButtonStandard then ButtonKey(wTiles, hTiles)
    else ComponentKey(uid)
  }

  /** A size of at least one tile is a positive pixel size exactly when
      the tile size is positive. */
  lemma ScaledPositive(tiles: int, tilePx: int)
    requires tiles >= 1
    ensures tiles * tilePx > 0 <==> tilePx > 0
    ensures tilePx > 0 ==> tiles * tilePx >= tilePx
  {
    if tilePx > 0 {
      MulAtLeast(tiles, tilePx);
    } else {
      assert tiles * tilePx == (tiles - 1) * tilePx + tilePx;
      assert (tiles - 1) * tilePx <= 0;
    }
  }

  /** The component record of entry `ent` on page `pid`, with the block
      spec of its texture when it needs one; `None` for entries the
      manifest skips. */
  function EntryComponent(pid: int, ent: Entry, pageIds: set<int>, table: ModuleTable, group: bool, tilePx: int)
    : (r: Option<(Component, Option<BlockSpec>)>)
    ensures r.Some? <==> InManifest(ent.tool) && tilePx > 0
    ensures r.Some? ==> var c := r.value.0; var spec := r.value.1;
      && c.page == Some(pid) && c.id == ComponentUid(ent) && c.ctype == ComponentTypeFor(ent.tool)
      && c.x == Normalized(ent.rect).x0 && c.y == Normalized(ent.rect).y0
      && c.wTiles == Width(ent.rect) && c.hTiles == Height(ent.rect)
      && c.sheet.None? && c.tex.None?
      && (c.blockKey.Some? <==> EntryRequiresComponentExport(ent.tool, table))
      && (spec.Some? <==> c.blockKey.Some?)
      && (spec.Some? ==>
            && spec.value.key == c.blockKey.value
            && spec.value.wTiles == c.wTiles && spec.value.hTiles == c.hTiles
            && spec.value.w == c.wTiles * tilePx * 2 && spec.value.h == c.hTiles * tilePx * 2)
      && (ent.tool == SelectList ==> c.labelText.None? && c.items == Some(ScrollListItems(ent.text)))
      && (ent.tool != SelectList ==> c.labelText == Some(ent.text) && c.items.None?)
      && (c.blockKey.Some? ==> c.blockKey.value == BlockKeyFor(ent, c.id, c.wTiles, c.hTiles, group))
      && c.hoverText == (if HoverTextEnabled(ent) then Some(FormatHoverTooltipText(ent)) else None)
      && c.locked == LockedFlag(ent)
      && c.openPage == ResolvedOpenPage(pid, ent, pageIds)
      && c.closeGui == CloseGuiFor(ent)
      && c.toggled == (if ent.tool == ButtonToggle then Some(ent.active) else None)
  {
    if ent.tool == Background || !InManifest(ent.tool) then None
    else
      var uid := ComponentUid(ent);
      var r := Normalized(ent.rect);
      var wTiles := Width(r);
      var hTiles := Height(r);
      var wPx := wTiles * tilePx;
      var hPx := hTiles * tilePx;
      ScaledPositive(wTiles, tilePx);
      ScaledPositive(hTiles, tilePx);
      if wPx <= 0 || hPx <= 0 then None
      else
        var ctype := ComponentTypeFor(ent.tool);
        var isList := ctype == "scroll_list";
        var needsTexture := EntryRequiresComponentExport(ent.tool, table);
        var key := if needsTexture then Some(BlockKeyFor(ent, uid, wTiles, hTiles, group)) else None;
        var c := Component(
          uid, ctype, Some(pid), r.x0, r.y0, wTiles, hTiles,
          if isList then None else Some(ent.text),
          LockedFlag(ent),
          if isList then Some(ScrollListItems(ent.text)) else None,
          if HoverTextEnabled(ent) then Some(FormatHoverTooltipText(ent)) else None,
          ResolvedOpenPage(pid, ent, pageIds),
          CloseGuiFor(ent),
          if ent.tool == ButtonToggle then Some(ent.active) else None,
          key, None, None, None, None, None);
        Some((c, if needsTexture then Some(BlockSpec(key.value, wPx * 2, hPx * 2, wTiles, hTiles)) else None))
  }

  // ---------------------------------------------------------------------
  // Collecting components

  /** What collecting builds: the component records in visiting order,
      the block specs in first-seen order, and for each block key the
      (page id, entry id) of the entry that first asked for it. */
  datatype Collected = Collected(components: seq<Component>, specs: seq<BlockSpec>, reps: map<BlockKey, (int, int)>)

  /** Visit one entry: record its component, and its block spec unless
      that key was seen already. */
  function AddEntry(acc: Collected, pid: int, ent: Entry, pageIds: set<int>, table: ModuleTable, group: bool, tilePx: int): Collected
    requires tilePx > 0
  {
    AddResult(acc, pid, ent.entryId, EntryComponent(pid, ent, pageIds, table, group, tilePx))
  }

  /** Record the component (and new block spec) one entry produced. */
  function AddResult(acc: Collected, pid: int, eid: int, e: Option<(Component, Option<BlockSpec>)>): Collected
  {
    match e
    case None => acc
    case Some((c, spec)) =>
      var acc1 :=
        if spec.Some? && spec.value.key !in acc.reps then
          acc.(specs := acc.specs + [spec.value], reps := acc.reps[spec.value.key := (pid, eid)])
        else acc;
      acc1.(components := acc1.components + [c])
  }

  /** The entries of a page in ascending id order. */
  function PageEntries(p: PageState): (r: seq<Entry>)
    ensures |r| == |p.entries|
  {
    var ids := SortedIds(p.entries.Keys);
    seq(|ids|, i requires 0 <= i < |ids| => p.entries[ids[i]])
  }

  function CollectEntries(acc: Collected, pid: int, ents: seq<Entry>, pageIds: set<int>, table: ModuleTable, group: bool, tilePx: int): Collected
    requires tilePx > 0
  {
    if ents == [] then acc
    else AddEntry(CollectEntries(acc, pid, ents[..|ents| - 1], pageIds, table, group, tilePx), pid, ents[|ents| - 1], pageIds, table, group, tilePx)
  }

  /** Every id of `ids` names a page. */
  predicate IdsIn(ids: seq<int>, pages: map<int, PageState>)
  {
    forall i :: 0 <= i < |ids| ==> ids[i] in pages
  }

  /** The components of the first `i` pages of `ids`. */
  function CollectPages(pages: map<int, PageState>, ids: seq<int>, i: nat, table: ModuleTable, group: bool, tilePx: int): Collected
    requires tilePx > 0 && IdsIn(ids, pages) && i <= |ids|
  {
    if i == 0 then Collected([], [], map[])
    else CollectEntries(CollectPages(pages, ids, i - 1, table, group, tilePx), ids[i - 1], PageEntries(pages[ids[i - 1]]), pages.Keys, table, group, tilePx)
  }

  /** All pages in ascending id order, each page's entries in ascending id
      order. */
  function Collect(pages: map<int, PageState>, table: ModuleTable, group: bool, tilePx: int): (col: Collected)
    requires tilePx > 0
    ensures pages == map[] ==> col == Collected([], [], map[])
    ensures Good(col, tilePx)
  {
    var ids := SortedIds(pages.Keys);
    assert IdsIn(ids, pages);
    CollectPagesGood(pages, ids, |ids|, table, group, tilePx);
    CollectPages(pages, ids, |ids|, table, group, tilePx)
  }

  /** The collecting loops of `_plan_component_sheet_layout`. */
  method CollectComponents(pages: map<int, PageState>, table: ModuleTable, group: bool, tilePx: int) returns (col: Collected)
    requires tilePx > 0
    ensures col == Collect(pages, table, group, tilePx)
  {
    var pageIds := SortedIds(pages.Keys);
    CollectAll(pages, pageIds, table, group, tilePx);
    col := CollectListed(pages, pageIds, table, group, tilePx);
  }

  /** The page loop over the listed page ids. */
  method CollectListed(pages: map<int, PageState>, ids: seq<int>, table: ModuleTable, group: bool, tilePx: int) returns (col: Collected)
    requires tilePx > 0 && IdsIn(ids, pages)
    ensures col == CollectPages(pages, ids, |ids|, table, group, tilePx)
  {
    col := Collected([], [], map[]);
    for i := 0 to |ids|
      invariant col == CollectPages(pages, ids, i, table, group, tilePx)
    {
      col := CollectNextPage(pages, ids, i, col, table, group, tilePx);
    }
  }

  /** One turn of the page loop: collect the entries of page `ids[i]`. */
  method CollectNextPage(pages: map<int, PageState>, ids: seq<int>, i: nat, col: Collected, table: ModuleTable, group: bool, tilePx: int)
    returns (next: Collected)
    requires tilePx > 0 && IdsIn(ids, pages) && i < |ids|
    requires col == CollectPages(pages, ids, i, table, group, tilePx)
    ensures next == CollectPages(pages, ids, i + 1, table, group, tilePx)
  {
    var pid := ids[i];
    CollectPagesNext(pages, ids, i, table, group, tilePx);
    next := CollectPage(col, pid, PageEntries(pages[pid]), pages.Keys, table, group, tilePx);
  }

  /** `Collect` is collecting all pages of the sorted id list. */
  lemma CollectAll(pages: map<int, PageState>, ids: seq<int>, table: ModuleTable, group: bool, tilePx: int)
    requires tilePx > 0 && ids == SortedIds(pages.Keys)
    ensures IdsIn(ids, pages)
    ensures Collect(pages, table, group, tilePx) == CollectPages(pages, ids, |ids|, table, group, tilePx)
  {
  }

  /** Collecting one more entry is visiting it after the ones before. */
  lemma CollectEntriesNext(start: Collected, pid: int, ents: seq<Entry>, j: nat, pageIds: set<int>, table: ModuleTable, group: bool, tilePx: int)
    requires tilePx > 0 && j < |ents|
    ensures CollectEntries(start, pid, ents[..j + 1], pageIds, table, group, tilePx)
      == AddEntry(CollectEntries(start, pid, ents[..j], pageIds, table, group, tilePx), pid, ents[j], pageIds, table, group, tilePx)
  {
    assert ents[..j + 1][..j] == ents[..j];
  }

  /** Collecting one more page is collecting that page's entries after
      the pages before it. */
  lemma CollectPagesNext(pages: map<int, PageState>, ids: seq<int>, i: nat, table: ModuleTable, group: bool, tilePx: int)
    requires tilePx > 0 && IdsIn(ids, pages) && i < |ids|
    ensures CollectPages(pages, ids, i + 1, table, group, tilePx)
      == CollectEntries(CollectPages(pages, ids, i, table, group, tilePx), ids[i], PageEntries(pages[ids[i]]), pages.Keys, table, group, tilePx)
  {
  }

  /** The inner loop over one page's entries: skip what the manifest
      leaves out, record a block spec for a key not seen before, and
      record the component. */
  method CollectPage(start: Collected, pid: int, ents: seq<Entry>, pageIds: set<int>, table: ModuleTable, group: bool, tilePx: int)
    returns (col: Collected)
    requires tilePx > 0
    ensures col == CollectEntries(start, pid, ents, pageIds, table, group, tilePx)
  {
    col := start;
    for j := 0 to |ents|
      invariant col == CollectEntries(start, pid, ents[..j], pageIds, table, group, tilePx)
    {
      CollectEntriesNext(start, pid, ents, j, pageIds, table, group, tilePx);
      col := VisitEntry(col, pid, ents[j], pageIds, table, group, tilePx);
    }
    assert ents[..|ents|] == ents;
  }

  /** One turn of the entry loop: skip what the manifest leaves out,
      record a block spec for a key not seen before, and record the
      component. */
  method VisitEntry(acc: Collected, pid: int, ent: Entry, pageIds: set<int>, table: ModuleTable, group: bool, tilePx: int)
    returns (col: Collected)
    requires tilePx > 0
    ensures col == AddEntry(acc, pid, ent, pageIds, table, group, tilePx)
  {
    col := acc;
    var e := EntryComponent(pid, ent, pageIds, table, group, tilePx);
    if e.Some? {
      var (c, spec) := e.value;
      if spec.Some? && spec.value.key !in col.reps {
        col := col.(specs := col.specs + [spec.value], reps := col.reps[spec.value.key := (pid, ent.entryId)]);
      }
      col := col.(components := col.components + [c]);
    }
  }

  /** The keys of a list of block specs. */
  function KeySet(specs: seq<BlockSpec>): set<BlockKey>
  {
    set i | 0 <= i < |specs| :: specs[i].key
  }

  /** What collecting keeps true: one spec per key, a representative for
      exactly the spec keys, block sizes two component sizes of whole
      tiles, and every component's block key among the specs. */
  ghost predicate Good(col: Collected, tilePx: int)
  {
    && KeysDistinct(col.specs)
    && col.reps.Keys == KeySet(col.specs)
    && (forall i :: 0 <= i < |col.specs| ==>
          && col.specs[i].wTiles >= 1 && col.specs[i].hTiles >= 1
          && col.specs[i].w == col.specs[i].wTiles * tilePx * 2
          && col.specs[i].h == col.specs[i].hTiles * tilePx * 2)
    && (forall i :: 0 <= i < |col.components| && col.components[i].blockKey.Some? ==>
          col.components[i].blockKey.value in col.reps)
  }

  lemma AddEntryGood(acc: Collected, pid: int, ent: Entry, pageIds: set<int>, table: ModuleTable, group: bool, tilePx: int)
    requires tilePx > 0 && Good(acc, tilePx)
    ensures Good(AddEntry(acc, pid, ent, pageIds, table, group, tilePx), tilePx)
  {
    var e := EntryComponent(pid, ent, pageIds, table, group, tilePx);
    if e.Some? {
      assert e.value.1.Some? ==> var sp := e.value.1.value;
        sp.wTiles >= 1 && sp.hTiles >= 1 && sp.w == sp.wTiles * tilePx * 2 && sp.h == sp.hTiles * tilePx * 2;
      AddResultGood(acc, pid, ent.entryId, e, tilePx);
    }
  }

  lemma AddResultGood(acc: Collected, pid: int, eid: int, e: Option<(Component, Option<BlockSpec>)>, tilePx: int)
    requires Good(acc, tilePx) && e.Some?
    requires e.value.1.Some? <==> e.value.0.blockKey.Some?
    requires e.value.1.Some? ==> var sp := e.value.1.value;
      && sp.key == e.value.0.blockKey.value
      && sp.wTiles >= 1 && sp.hTiles >= 1 && sp.w == sp.wTiles * tilePx * 2 && sp.h == sp.hTiles * tilePx * 2
    ensures Good(AddResult(acc, pid, eid, e), tilePx)
  {
    if e.Some? {
      var (c, spec) := e.value;
      if spec.Some? && spec.value.key !in acc.reps {
        var specs := acc.specs + [spec.value];
        assert KeySet(specs) == KeySet(acc.specs) + {spec.value.key} by {
          forall k | k in KeySet(specs)
            ensures k in KeySet(acc.specs) + {spec.value.key}
          {
            var i :| 0 <= i < |specs| && specs[i].key == k;
            if i < |acc.specs| {
              assert acc.specs[i].key == k;
            }
          }
          forall k | k in KeySet(acc.specs) + {spec.value.key}
            ensures k in KeySet(specs)
          {
            if k == spec.value.key {
              assert specs[|acc.specs|].key == k;
            } else {
              var i :| 0 <= i < |acc.specs| && acc.specs[i].key == k;
              assert specs[i].key == k;
            }
          }
        }
        assert KeysDistinct(specs) by {
          forall i, j | 0 <= i < j < |specs|
            ensures specs[i].key != specs[j].key
          {
            if j == |acc.specs| {
              assert specs[i].key in KeySet(acc.specs);
            }
          }
        }
      }
    }
  }

  lemma {:induction false} CollectEntriesGood(acc: Collected, pid: int, ents: seq<Entry>, pageIds: set<int>, table: ModuleTable, group: bool, tilePx: int)
    requires tilePx > 0 && Good(acc, tilePx)
    ensures Good(CollectEntries(acc, pid, ents, pageIds, table, group, tilePx), tilePx)
    decreases |ents|
  {
    if ents != [] {
      CollectEntriesGood(acc, pid, ents[..|ents| - 1], pageIds, table, group, tilePx);
      AddEntryGood(CollectEntries(acc, pid, ents[..|ents| - 1], pageIds, table, group, tilePx), pid, ents[|ents| - 1], pageIds, table, group, tilePx);
    }
  }

  lemma {:induction false} CollectPagesGood(pages: map<int, PageState>, ids: seq<int>, i: nat, table: ModuleTable, group: bool, tilePx: int)
    requires tilePx > 0 && IdsIn(ids, pages) && i <= |ids|
    ensures Good(CollectPages(pages, ids, i, table, group, tilePx), tilePx)
  {
    if i > 0 {
      var pid := ids[i - 1];
      var prev := CollectPages(pages, ids, i - 1, table, group, tilePx);
      var cur := CollectEntries(prev, pid, PageEntries(pages[pid]), pages.Keys, table, group, tilePx);
      assert CollectPages(pages, ids, i, table, group, tilePx) == cur;
      CollectPagesGood(pages, ids, i - 1, table, group, tilePx);
      CollectEntriesGood(prev, pid, PageEntries(pages[pid]), pages.Keys, table, group, tilePx);
    }
  }

  // ---------------------------------------------------------------------
  // Attaching texture offsets

  function Shift(t: Tex, d: (int, int)): Tex
  {
    Tex(t.x + d.0, t.y + d.1)
  }

  /** Give a component the sheet and offsets its block landed at, and drop
      its internal block key. A toggle button also gets the origins of its
      pressed and disabled quadrants, a standard button the origin of its
      locked quadrant. */
  function Attach(c: Component, index: map<BlockKey, Position>, tilePx: int): (r: Component)
    ensures r.blockKey.None?
    ensures r.id == c.id && r.page == c.page && r.ctype == c.ctype
  {
    if c.blockKey.None? || c.blockKey.value !in index then c.(blockKey := None)
    else
      var pos := index[c.blockKey.value];
      var tex := Tex(pos.x, pos.y);
      var c1 := c.(sheet := Some(pos.sheet), tex := Some(tex));
      var wPx := c.wTiles * tilePx;
      var hPx := c.hTiles * tilePx;
      var c2 :=
        if c.ctype == "toggle_button" then
          if wPx > 0 && hPx > 0 then
            c1.(toggleTex := Some(Tex(pos.x + wPx, pos.y)),
                disabledTex := Some(Tex(pos.x + wPx, pos.y + hPx)),
                toggleDisabledTex := Some(Tex(pos.x + wPx, pos.y + hPx)))
          else c1.(toggleTex := Some(tex), disabledTex := Some(tex), toggleDisabledTex := Some(tex))
        else c1;
      var c3 :=
        if c.ctype == "button" then
          if wPx > 0 then c2.(disabledTex := Some(Tex(pos.x + wPx, pos.y)))
          else c2.(disabledTex := Some(tex))
        else c2;
      c3.(blockKey := None)
  }

  function AttachAll(cs: seq<Component>, index: map<BlockKey, Position>, tilePx: int): (r: seq<Component>)
    ensures |r| == |cs| && forall i :: 0 <= i < |cs| ==> r[i] == Attach(cs[i], index, tilePx)
  {
    seq(|cs|, i requires 0 <= i < |cs| => Attach(cs[i], index, tilePx))
  }

  /** The manifest's texture origins agree with the 2x2 block layout: a
      toggle button's `toggle_tex` is its pressed (top-right) quadrant and
      `disabled_tex` its disabled (bottom-right) quadrant; a standard
      button's `disabled_tex` is its locked (top-right) quadrant. */
  lemma AttachMatchesQuadrants(c: Component, index: map<BlockKey, Position>, tilePx: int)
    requires tilePx > 0 && c.wTiles >= 1 && c.hTiles >= 1
    requires c.blockKey.Some? && c.blockKey.value in index
    ensures var r := Attach(c, index, tilePx);
      var pos := index[c.blockKey.value];
      var tex := Tex(pos.x, pos.y);
      var w := c.wTiles * tilePx;
      var h := c.hTiles * tilePx;
      && r.sheet == Some(pos.sheet) && r.tex == Some(Shift(tex, QuadrantOffset(TopLeft, w, h)))
      && (c.ctype == "toggle_button" ==>
            && r.toggleTex == Some(Shift(tex, QuadrantOffset(TopRight, w, h)))
            && r.disabledTex == Some(Shift(tex, QuadrantOffset(BottomRight, w, h)))
            && r.toggleDisabledTex == r.disabledTex)
      && (c.ctype == "button" ==> r.disabledTex == Some(Shift(tex, QuadrantOffset(TopRight, w, h))))
      && (c.ctype != "toggle_button" && c.ctype != "button" ==>
            r.toggleTex == c.toggleTex && r.disabledTex == c.disabledTex)
  {
    MulAtLeast(c.wTiles, tilePx);
    MulAtLeast(c.hTiles, tilePx);
  }

  // ---------------------------------------------------------------------
  // Component order

  /** The sort key `(page, id)`, a missing page counting as 0. */
  function PageKey(c: Component): int
  {
    if c.page.Some? then c.page.value else 0
  }

  predicate CompLe(a: Component, b: Component)
  {
    PageKey(a) < PageKey(b) || (PageKey(a) == PageKey(b) && a.id <= b.id)
  }

  predicate ComponentsSorted(s: seq<Component>)
  {
    forall i, j :: 0 <= i < j < |s| ==> CompLe(s[i], s[j])
  }

  lemma CompLeTrans(a: Component, b: Component, c: Component)
    requires !CompLe(b, a) && (b == c || CompLe(b, c))
    ensures CompLe(a, c)
  {
  }

  /** Insert `x` after every component that sorts no later than it, so
      that equal keys keep their order as Python's stable sort does. */
  function InsertComp(x: Component, s: seq<Component>): (r: seq<Component>)
    ensures |r| == |s| + 1
  {
    if s == [] then [x]
    else if !CompLe(s[0], x) then [x] + s
    else [s[0]] + InsertComp(x, s[1..])
  }

  /** `components.sort(key=lambda c: (page, id))`. */
  function SortComponents(s: seq<Component>): (r: seq<Component>)
    ensures |r| == |s|
  {
    if s == [] then [] else InsertComp(s[|s| - 1], SortComponents(s[..|s| - 1]))
  }

  lemma {:induction false} InsertCompSorted(x: Component, s: seq<Component>)
    requires ComponentsSorted(s)
    ensures ComponentsSorted(InsertComp(x, s))
    ensures multiset(InsertComp(x, s)) == multiset(s) + multiset{x}
  {
    if s == [] {
    } else if !CompLe(s[0], x) {
      forall j | 0 <= j < |s|
        ensures CompLe(x, s[j])
      {
        CompLeTrans(x, s[0], s[j]);
      }
      ConsCompSorted(x, s);
    } else {
      InsertCompSorted(x, s[1..]);
      var t := InsertComp(x, s[1..]);
      assert s == [s[0]] + s[1..];
      HeadCompDominates(s[0], x, s[1..], t);
      ConsCompSorted(s[0], t);
    }
  }

  /** A component sorting no later than every component of a sorted list
      heads it. */
  lemma ConsCompSorted(y: Component, t: seq<Component>)
    requires ComponentsSorted(t) && forall k :: 0 <= k < |t| ==> CompLe(y, t[k])
    ensures ComponentsSorted([y] + t)
  {
    var r := [y] + t;
    forall i, j | 0 <= i < j < |r|
      ensures CompLe(r[i], r[j])
    {
      assert r[j] == t[j - 1];
      if i > 0 {
        assert r[i] == t[i - 1];
      }
    }
  }

  /** The head of a sorted list sorts no later than anything in its tail
      with `x` inserted, when it sorts no later than `x`. */
  lemma HeadCompDominates(h: Component, x: Component, rest: seq<Component>, t: seq<Component>)
    requires CompLe(h, x) && forall m :: 0 <= m < |rest| ==> CompLe(h, rest[m])
    requires multiset(t) == multiset(rest) + multiset{x}
    ensures forall k :: 0 <= k < |t| ==> CompLe(h, t[k])
  {
    forall k | 0 <= k < |t|
      ensures CompLe(h, t[k])
    {
      assert t[k] in multiset(t);
      if t[k] != x {
        assert t[k] in multiset(rest);
        var m :| 0 <= m < |rest| && rest[m] == t[k];
      }
    }
  }

  /** The sorted components are a permutation of the input, ordered by
      page and then id. */
  lemma {:induction false} SortComponentsSorted(s: seq<Component>)
    ensures ComponentsSorted(SortComponents(s))
    ensures multiset(SortComponents(s)) == multiset(s)
    decreases |s|
  {
    if s != [] {
      var init := s[..|s| - 1];
      SortComponentsSorted(init);
      InsertCompSorted(s[|s| - 1], SortComponents(init));
      assert s == init + [s[|s| - 1]];
    }
  }

  /** The components of `s` with page `p` and id `id`, in list order. */
  function KeyTies(s: seq<Component>, p: int, id: int): (r: seq<Component>)
    ensures |r| <= |s|
  {
    if s == [] then []
    else KeyTies(s[..|s| - 1], p, id) + (if PageKey(s[|s| - 1]) == p && s[|s| - 1].id == id then [s[|s| - 1]] else [])
  }

  lemma {:induction false} KeyTiesAppend(a: seq<Component>, b: seq<Component>, p: int, id: int)
    ensures KeyTies(a + b, p, id) == KeyTies(a, p, id) + KeyTies(b, p, id)
    decreases |b|
  {
    if b == [] {
      assert a + b == a;
    } else {
      var m := |b| - 1;
      assert (a + b)[..|a + b| - 1] == a + b[..m];
      assert (a + b)[|a + b| - 1] == b[m];
      KeyTiesAppend(a, b[..m], p, id);
    }
  }

  lemma {:induction false} KeyTiesNone(s: seq<Component>, p: int, id: int)
    requires forall j :: 0 <= j < |s| ==> !(PageKey(s[j]) == p && s[j].id == id)
    ensures KeyTies(s, p, id) == []
    decreases |s|
  {
    if s != [] {
      KeyTiesNone(s[..|s| - 1], p, id);
    }
  }

  lemma KeyTiesSingle(y: Component, p: int, id: int)
    ensures KeyTies([y], p, id) == if PageKey(y) == p && y.id == id then [y] else []
  {
    assert [y][..0] == [];
  }

  /** When `y` goes in front of a sorted list, no component of the list
      has its page and id. */
  lemma InsertCompFront(y: Component, t: seq<Component>, p: int, id: int)
    requires ComponentsSorted(t) && t != [] && !CompLe(t[0], y)
    ensures KeyTies(InsertComp(y, t), p, id) == KeyTies(t, p, id) + (if PageKey(y) == p && y.id == id then [y] else [])
  {
    assert InsertComp(y, t) == [y] + t;
    KeyTiesAppend([y], t, p, id);
    KeyTiesSingle(y, p, id);
    if PageKey(y) == p && y.id == id {
      forall j | 0 <= j < |t|
        ensures !(PageKey(t[j]) == p && t[j].id == id)
      {
        if j > 0 {
          assert CompLe(t[0], t[j]);
        }
      }
      KeyTiesNone(t, p, id);
    }
  }

  /** Insertion puts `y` after every component with its page and id. */
  lemma {:induction false} InsertCompTies(y: Component, t: seq<Component>, p: int, id: int)
    requires ComponentsSorted(t)
    ensures KeyTies(InsertComp(y, t), p, id) == KeyTies(t, p, id) + (if PageKey(y) == p && y.id == id then [y] else [])
    decreases |t|
  {
    if t == [] {
      KeyTiesSingle(y, p, id);
    } else if !CompLe(t[0], y) {
      InsertCompFront(y, t, p, id);
    } else {
      var rest := InsertComp(y, t[1..]);
      assert InsertComp(y, t) == [t[0]] + rest;
      assert ComponentsSorted(t[1..]);
      InsertCompTies(y, t[1..], p, id);
      KeyTiesAppend([t[0]], rest, p, id);
      assert t == [t[0]] + t[1..];
      KeyTiesAppend([t[0]], t[1..], p, id);
    }
  }

  /** The sort is stable, as Python's is: components with the same page
      and id keep their relative order. */
  lemma {:induction false} SortComponentsStable(s: seq<Component>, p: int, id: int)
    ensures KeyTies(SortComponents(s), p, id) == KeyTies(s, p, id)
    decreases |s|
  {
    if s != [] {
      var m := |s| - 1;
      SortComponentsStable(s[..m], p, id);
      SortComponentsSorted(s[..m]);
      InsertCompTies(s[m], SortComponents(s[..m]), p, id);
    }
  }

  // ---------------------------------------------------------------------
  // The plan

  /** The plan: components in (page, id) order, the packed sheets without
      occupancy grids, where each block key landed, and the entry each
      block was first requested by. */
  datatype Plan = Plan(
    components: seq<Component>,
    sheets: seq<Sheet>,
    placementIndex: map<BlockKey, Position>,
    blockKeyToRep: map<BlockKey, (int, int)>)

  /** Placements on a shared sheet lie inside its tile grid and never
      overlap. */
  predicate PlacedApart(sh: Sheet, items: seq<BlockSpec>, tilePx: int)
    requires tilePx > 0
  {
    var feet := Footprints(sh.placements, items, tilePx);
    && (forall i :: 0 <= i < |feet| ==> InGrid(feet[i], SheetTiles(tilePx)))
    && (forall i, j :: 0 <= i < j < |feet| ==> Disjoint(feet[i], feet[j]))
  }

  /** A sheet of the plan: a shared `MaxPx` sheet whose placements lie
      apart, or the sheet of its own of one oversized block. */
  predicate PlanSheet(sh: Sheet, items: seq<BlockSpec>, tilePx: int)
    requires tilePx > 0
  {
    && sh.occ.None?
    && ((sh.w == MaxPx(tilePx) && sh.h == MaxPx(tilePx) && PlacedApart(sh, items, tilePx))
        || exists i :: 0 <= i < |items| && Oversized(items[i], tilePx) && sh == Dedicated(items[i]))
  }

  lemma {:induction false} PlacedCountWitness(sheets: seq<Sheet>, k: BlockKey)
    requires PlacedCount(sheets, k) > 0
    ensures exists s, p :: 0 <= s < |sheets| && p in sheets[s].placements && p.key == k
    decreases |sheets|
  {
    var m := |sheets| - 1;
    if SheetCount(sheets[m].placements, k) > 0 {
      SheetCountWitness(sheets[m].placements, k);
    } else {
      PlacedCountWitness(sheets[..m], k);
      var s, p :| 0 <= s < m && p in sheets[..m][s].placements && p.key == k;
      assert sheets[..m][s] == sheets[s];
    }
  }

  lemma {:induction false} SheetCountWitness(pls: seq<Placement>, k: BlockKey)
    requires SheetCount(pls, k) > 0
    ensures exists p :: p in pls && p.key == k
    decreases |pls|
  {
    var m := |pls| - 1;
    if pls[m].key != k {
      SheetCountWitness(pls[..m], k);
      var p :| p in pls[..m] && p.key == k;
      assert p in pls;
    }
  }

  lemma {:induction false} PlacedCountStrip(sheets: seq<Sheet>, k: BlockKey)
    ensures PlacedCount(StripOcc(sheets), k) == PlacedCount(sheets, k)
    decreases |sheets|
  {
    if sheets != [] {
      var m := |sheets| - 1;
      PlacedCountStrip(sheets[..m], k);
      assert StripOcc(sheets)[..m] == StripOcc(sheets[..m]);
    }
  }

  /** `_plan_component_sheet_layout`: with no component the plan is empty;
      otherwise every block is packed exactly once, onto shared sheets
      whose placements lie apart or onto a dedicated sheet when oversized;
      the index names where each block landed (sheets numbered from 1);
      every component that needs a texture finds its block in the index;
      and the components, with their offsets attached, come sorted by
      page and id. */
  method PlanComponentSheetLayout(pages: map<int, PageState>, table: ModuleTable, group: bool, tilePx: int)
    returns (plan: Plan)
    ensures tilePx <= 0 ==> plan == Plan([], [], map[], map[])
    ensures tilePx > 0 ==> var col := Collect(pages, table, group, tilePx);
      && (col.components == [] ==> plan == Plan([], [], map[], map[]))
      && (col.components != [] ==>
            && plan.blockKeyToRep == col.reps
            && (forall s :: 0 <= s < |plan.sheets| ==> PlanSheet(plan.sheets[s], col.specs, tilePx))
            && (forall k :: PlacedCount(plan.sheets, k) == if k in col.reps then 1 else 0)
            && plan.placementIndex.Keys == col.reps.Keys
            && (forall k :: k in plan.placementIndex ==> PlacedAt(plan.sheets, k, plan.placementIndex[k]))
            && (forall i :: 0 <= i < |col.components| && col.components[i].blockKey.Some? ==>
                  col.components[i].blockKey.value in plan.placementIndex)
            && ComponentsSorted(plan.components)
            && multiset(plan.components) == multiset(AttachAll(col.components, plan.placementIndex, tilePx))
            // First-fit packing of the blocks in sort order, and the stable
            // sort of the components.
            && plan.sheets == StripOcc(Pack(SortBlocks(col.specs), tilePx))
            && plan.placementIndex == PlacementIndex(Pack(SortBlocks(col.specs), tilePx), col.reps.Keys)
            && plan.components == SortComponents(AttachAll(col.components, plan.placementIndex, tilePx)))
  {
    if tilePx <= 0 {
      // Every entry has a non-positive pixel size and is skipped, so
      // there is no component.
      return Plan([], [], map[], map[]);
    }
    var col := CollectComponents(pages, table, group, tilePx);
    if col.components == [] {
      return Plan([], [], map[], map[]);
    }
    var items := SortBlocks(col.specs);
    SortBlocksSorted(col.specs);
    SortBlocksDistinct(col.specs);
    var sheets := PackSheets(items, tilePx);
    var known := col.reps.Keys;
    var index := BuildPlacementIndex(sheets, known);
    var stripped := StripOcc(sheets);
    var attached := AttachAll(col.components, index, tilePx);
    var sorted := SortComponents(attached);
    SortComponentsSorted(attached);
    plan := Plan(sorted, stripped, index, col.reps);
    SameBlocks(col.specs, items);
    PackedOnce(col, items, sheets, tilePx);
    IndexExact(col, sheets, tilePx);
    SheetsPlanned(col.specs, items, sheets, tilePx);
  }

  /** Sorting the specs keeps the same blocks. */
  lemma SameBlocks(specs: seq<BlockSpec>, items: seq<BlockSpec>)
    requires multiset(items) == multiset(specs)
    ensures forall e :: e in items <==> e in specs
  {
    forall e
      ensures e in items <==> e in specs
    {
      assert e in items <==> e in multiset(items);
      assert e in specs <==> e in multiset(specs);
    }
  }

  /** Each collected block is packed exactly once, and no other key. */
  lemma PackedOnce(col: Collected, items: seq<BlockSpec>, sheets: seq<Sheet>, tilePx: int)
    requires tilePx > 0 && Good(col, tilePx) && KeysDistinct(items)
    requires forall e :: e in items <==> e in col.specs
    requires forall k :: PlacedCount(sheets, k) == ExpectedCount(items, k, tilePx)
    ensures forall k :: PlacedCount(StripOcc(sheets), k) == if k in col.reps then 1 else 0
  {
    EachBlockOnce(items, sheets, tilePx);
    forall k
      ensures PlacedCount(StripOcc(sheets), k) == if k in col.reps then 1 else 0
    {
      PlacedCountStrip(sheets, k);
      if k in col.reps {
        var i :| 0 <= i < |col.specs| && col.specs[i].key == k;
        assert col.specs[i] in items;
        var j :| 0 <= j < |items| && items[j] == col.specs[i];
        PlanBlockPackable(items[j], tilePx);
      } else {
        forall j | 0 <= j < |items|
          ensures items[j].key != k
        {
          assert items[j] in items;
          var i :| 0 <= i < |col.specs| && col.specs[i] == items[j];
          assert col.specs[i].key in KeySet(col.specs);
        }
      }
    }
  }

  /** The index holds exactly the collected keys, each pointing at its
      placement. */
  lemma IndexExact(col: Collected, sheets: seq<Sheet>, tilePx: int)
    requires tilePx > 0
    requires forall k :: PlacedCount(StripOcc(sheets), k) == if k in col.reps then 1 else 0
    ensures PlacementIndex(sheets, col.reps.Keys).Keys == col.reps.Keys
    ensures forall k :: k in PlacementIndex(sheets, col.reps.Keys) ==>
      PlacedAt(StripOcc(sheets), k, PlacementIndex(sheets, col.reps.Keys)[k])
  {
    var known := col.reps.Keys;
    var index := PlacementIndex(sheets, known);
    PlacementIndexSpec(sheets, known);
    forall k | k in known
      ensures k in index
    {
      PlacedCountStrip(sheets, k);
      PlacedCountWitness(sheets, k);
    }
    forall k | k in index
      ensures PlacedAt(StripOcc(sheets), k, index[k])
    {
      assert PlacedAt(sheets, k, index[k]);
    }
  }

  /** After stripping, every sheet is a shared sheet whose placements lie
      apart, or the dedicated sheet of an oversized block. */
  lemma SheetsPlanned(specs: seq<BlockSpec>, items: seq<BlockSpec>, sheets: seq<Sheet>, tilePx: int)
    requires tilePx > 0 && KeysDistinct(specs) && KeysDistinct(items)
    requires forall e :: e in items <==> e in specs
    requires forall s :: 0 <= s < |sheets| && sheets[s].occ.Some? ==> SharedSheetSound(sheets[s], items, tilePx)
    requires forall s :: 0 <= s < |sheets| && sheets[s].occ.None? ==>
      exists i :: 0 <= i < |items| && Oversized(items[i], tilePx) && sheets[s] == Dedicated(items[i])
    ensures forall s :: 0 <= s < |StripOcc(sheets)| ==> PlanSheet(StripOcc(sheets)[s], specs, tilePx)
  {
    var stripped := StripOcc(sheets);
    forall s | 0 <= s < |stripped|
      ensures PlanSheet(stripped[s], specs, tilePx)
    {
      if sheets[s].occ.Some? {
        assert SharedSheetSound(sheets[s], items, tilePx);
        FootprintsSameKeys(sheets[s].placements, items, specs, tilePx);
      } else {
        var i :| 0 <= i < |items| && Oversized(items[i], tilePx) && sheets[s] == Dedicated(items[i]);
        assert items[i] in specs;
        var j :| 0 <= j < |specs| && specs[j] == items[i];
        assert Oversized(specs[j], tilePx) && stripped[s] == Dedicated(specs[j]);
      }
    }
  }

  /** Footprints only depend on each key's block size, so two lists of
      the same distinct blocks give the same footprints. */
  lemma {:induction false} FootprintsSameKeys(pls: seq<Placement>, a: seq<BlockSpec>, b: seq<BlockSpec>, tilePx: int)
    requires tilePx > 0 && KeysDistinct(a) && KeysDistinct(b)
    requires forall e :: e in a <==> e in b
    ensures Footprints(pls, a, tilePx) == Footprints(pls, b, tilePx)
    decreases |pls|
  {
    if pls != [] {
      var m := |pls| - 1;
      FootprintsSameKeys(pls[..m], a, b, tilePx);
      TileDimsSame(a, b, pls[m].key, tilePx);
    }
  }

  lemma TileDimsSame(a: seq<BlockSpec>, b: seq<BlockSpec>, k: BlockKey, tilePx: int)
    requires tilePx > 0 && KeysDistinct(a) && KeysDistinct(b)
    requires forall e :: e in a <==> e in b
    ensures TileDims(a, k, tilePx) == TileDims(b, k, tilePx)
  {
    if exists i :: 0 <= i < |a| && a[i].key == k {
      var i :| 0 <= i < |a| && a[i].key == k;
      assert a[i] in b;
      var j :| 0 <= j < |b| && b[j] == a[i];
      TileDimsOf(a, i, tilePx);
      TileDimsOf(b, j, tilePx);
    } else {
      forall j | 0 <= j < |b|
        ensures b[j].key != k
      {
        assert b[j] in a;
      }
      TileDimsAbsent(a, k, tilePx);
      TileDimsAbsent(b, k, tilePx);
    }
  }

  lemma {:induction false} TileDimsAbsent(items: seq<BlockSpec>, k: BlockKey, tilePx: int)
    requires tilePx > 0 && forall i :: 0 <= i < |items| ==> items[i].key != k
    ensures TileDims(items, k, tilePx) == (1, 1)
    decreases |items|
  {
    if items != [] {
      TileDimsAbsent(items[1..], k, tilePx);
    }
  }
}
