/** The saved-document format: what saving writes for the editor's pages,
    and what loading makes of a decoded JSON document, step by step,
    including the uid allocator that runs while entries are read back. */
module DocumentCodec {
  import opened Wrappers
  import opened JsonValue
  import opened Geometry
  import opened IntSets
  import opened BackgroundCodec

  /** The format version saving writes. */
  const JsonVersion: int := 3

  function Max(a: int, b: int): (m: int)
    ensures m >= a && m >= b && (m == a || m == b)
  {
    if a >= b then a else b
  }

  /** The part of the editor a document saves and a load replaces. */
  datatype DocState = DocState(
    guiName: string,
    gridN: nat,
    pages: map<int, PageState>,
    startPageId: int,
    nextUid: int)

  // ---------------------------------------------------------------------
  // Saving

  function RectJson(r: Rect): Json
  {
    JObj(map["x0" := JInt(r.x0), "y0" := JInt(r.y0), "x1" := JInt(r.x1), "y1" := JInt(r.y1)])
  }

  function RectsJson(rects: seq<Rect>): (r: seq<Json>)
    ensures |r| == |rects| && forall i :: 0 <= i < |r| ==> r[i] == RectJson(rects[i])
  {
    seq(|rects|, i requires 0 <= i < |rects| => RectJson(rects[i]))
  }

  /** An entry as `to_json_dict` writes it: its seven keys, each read
      back by `ParseEntry` (see `EntryJsonRead`). */
  function EntryJson(e: Entry): (j: Json)
    ensures j.JObj? && "id" in j.fields && "uid" in j.fields && "tool" in j.fields && "rect" in j.fields
      && "active" in j.fields && "label" in j.fields && "meta" in j.fields
  {
    JObj(map[
      "id" := JInt(e.entryId),
      "uid" := JInt(e.uid),
      "tool" := JStr(ToolValue(e.tool)),
      "rect" := RectJson(e.rect),
      "active" := JBool(e.active),
      "label" := JStr(e.text),
      "meta" := e.meta])
  }

  /** The entries of a page, by ascending id. */
  function EntriesJson(entries: map<int, Entry>): (r: seq<Json>)
    ensures |r| == |entries|
    ensures forall i :: 0 <= i < |r| ==> r[i] == EntryJson(entries[SortedIds(entries.Keys)[i]])
  {
    var ids := SortedIds(entries.Keys);
    seq(|ids|, i requires 0 <= i < |ids| => EntryJson(entries[ids[i]]))
  }

  function PageJson(pid: int, p: PageState, rects: seq<Rect>): (j: Json)
    ensures j.JObj? && "page_id" in j.fields && "background_rects" in j.fields && "entries" in j.fields
    ensures PageIdOf(j) == Some(pid)
  {
    JObj(map[
      "page_id" := JInt(pid),
      "background_rects" := JList(RectsJson(rects)),
      "entries" := JList(EntriesJson(p.entries))])
  }

  /** The pages, by ascending page id, each with the rectangles its
      background was compressed to. */
  function PagesJson(pages: map<int, PageState>, rects: map<int, seq<Rect>>): (r: seq<Json>)
    requires pages.Keys <= rects.Keys
    ensures |r| == |pages|
    ensures forall i :: 0 <= i < |r| ==>
      var pid := SortedIds(pages.Keys)[i]; r[i] == PageJson(pid, pages[pid], rects[pid])
  {
    var ids := SortedIds(pages.Keys);
    seq(|ids|, i requires 0 <= i < |ids| => PageJson(ids[i], pages[ids[i]], rects[ids[i]]))
  }

  function StringsJson(names: seq<string>): seq<Json>
  {
    seq(|names|, i requires 0 <= i < |names| => JStr(names[i]))
  }

  /** `to_json_dict`, given the rectangles each page's background was
      compressed to and the names of the skin packs listed as available. */
  function SaveJson(d: DocState, rects: map<int, seq<Rect>>, packs: seq<string>): (j: Json)
    requires d.pages.Keys <= rects.Keys
    ensures j.JObj? && "version" in j.fields && "gui_name" in j.fields && "grid_n" in j.fields
      && "start_page_id" in j.fields && "next_uid" in j.fields && "available_in_skin_packs" in j.fields
      && "pages" in j.fields
  {
    JObj(map[
      "version" := JInt(JsonVersion),
      "gui_name" := JStr(d.guiName),
      "grid_n" := JInt(d.gridN),
      "start_page_id" := JInt(d.startPageId),
      "next_uid" := JInt(d.nextUid),
      "available_in_skin_packs" := JList(StringsJson(packs)),
      "pages" := JList(PagesJson(d.pages, rects))])
  }

  // ---------------------------------------------------------------------
  // Header

  /** `version in (1, 2, 3)`; Python's `True == 1`, so `true` passes too. */
  function VersionOk(v: Option<Json>): (ok: bool)
    ensures ok <==> v.Some? && (v.value == JBool(true) || (v.value.JInt? && 1 <= v.value.i <= 3))
  {
    v == Some(JInt(1)) || v == Some(JInt(2)) || v == Some(JInt(3)) || v == Some(JBool(true))
  }

  /** `grid_n in (16, 32)`: the grid size, or `None` when it is refused. */
  function GridOf(g: Option<Json>): (r: Option<nat>)
    ensures r.Some? <==> g == Some(JInt(16)) || g == Some(JInt(32))
    ensures r.Some? ==> g == Some(JInt(r.value))
  {
    if g == Some(JInt(16)) then Some(16)
    else if g == Some(JInt(32)) then Some(32)
    else None
  }

  /** `str(data.get("gui_name") or "")` when the key is present; the old
      name otherwise. */
  function GuiNameAfter(data: Json, old_: string): (name: string)
    requires data.JObj?
    ensures "gui_name" !in data.fields ==> name == old_
    ensures "gui_name" in data.fields && data.fields["gui_name"].JStr? ==> name == data.fields["gui_name"].s
    ensures "gui_name" in data.fields && !Truthy(data.fields["gui_name"]) ==> name == ""
  {
    if "gui_name" in data.fields then PyStr(Or(data.fields["gui_name"], JStr(""))) else old_
  }

  /** `data["pages"]`, or for a document without a (non-null) `pages` key
      the single page 1 built from the top-level `background` and
      `entries`. */
  function PagesOf(data: Json): (r: Json)
    ensures !GetOr(data, "pages", JNull).JNull? ==> r == GetOr(data, "pages", JNull)
    ensures GetOr(data, "pages", JNull).JNull? ==>
      r.JList? && |r.items| == 1 && PageIdOf(r.items[0]) == Some(1)
  {
    var pages := GetOr(data, "pages", JNull);
    if pages.JNull? then
      var entries := GetOr(data, "entries", JNull);
      JList([JObj(map[
        "page_id" := JInt(1),
        "background" := GetOr(data, "background", JNull),
        "entries" := if entries.JNull? then JList([]) else entries])])
    else pages
  }

  /** `max(1, int(data.get("next_uid", 1)))`, 1 when `int` raises. */
  function StartCounter(data: Json): (c: int)
    ensures c >= 1
  {
    match ToInt(GetOr(data, "next_uid", JInt(1)))
    case Some(v) => Max(1, v)
    case None => 1
  }

  /** `int(data.get("start_page_id", 1))`, 1 when `int` raises. */
  function RequestedStart(data: Json): int
  {
    match ToInt(GetOr(data, "start_page_id", JInt(1)))
    case Some(v) => v
    case None => 1
  }

  // ---------------------------------------------------------------------
  // Pages and backgrounds

  /** `int(pobj.get("page_id", 1))`; `None` when `int` raises. */
  function PageIdOf(pobj: Json): Option<int>
  {
    ToInt(GetOr(pobj, "page_id", JInt(1)))
  }

  /** `Rect(int(o["x0"]), int(o["y0"]), int(o["x1"]), int(o["y1"]))`;
      `None` when `o` is not a dict or a key or a conversion fails. */
  function RectFromJson(o: Json): (r: Option<Rect>)
    ensures r.Some? ==> o.JObj? && {"x0", "y0", "x1", "y1"} <= o.fields.Keys
    ensures r.Some? ==>
      && ToInt(o.fields["x0"]) == Some(r.value.x0) && ToInt(o.fields["y0"]) == Some(r.value.y0)
      && ToInt(o.fields["x1"]) == Some(r.value.x1) && ToInt(o.fields["y1"]) == Some(r.value.y1)
  {
    match (ToInt(GetOr(o, "x0", JNull)), ToInt(GetOr(o, "y0", JNull)), ToInt(GetOr(o, "x1", JNull)), ToInt(GetOr(o, "y1", JNull)))
    case (Some(x0), Some(y0), Some(x1), Some(y1)) => if o.JObj? then Some(Rect(x0, y0, x1, y1)) else None
    case _ => None
  }

  /** The rectangles of a `background_rects` list; items that are not
      dicts or do not convert are skipped. */
  function RectsFromJson(items: seq<Json>): (r: seq<Rect>)
    ensures |r| <= |items|
  {
    if items == [] then []
    else
      var rest := RectsFromJson(items[..|items| - 1]);
      match RectFromJson(items[|items| - 1])
      case Some(rr) => rest + [rr]
      case None => rest
  }

  /** A legacy `background`: a list of `n` lists of `n` values, read with
      Python truthiness; `None` for any other shape. */
  function LegacyBackground(bg: Json, n: nat): (r: Option<seq<seq<bool>>>)
    ensures r.Some? ==> IsSquareGrid(r.value, n)
  {
    if bg.JList? && |bg.items| == n && forall y :: 0 <= y < n ==> bg.items[y].JList? && |bg.items[y].items| == n then
      Some(seq(n, y requires 0 <= y < n => seq(n, x requires 0 <= x < n => Truthy(bg.items[y].items[x]))))
    else None
  }

  /** A page's background: decoded from `background_rects` when that is a
      list, otherwise read from a legacy boolean grid, otherwise refused. */
  function PageBackground(pobj: Json, n: nat): (r: Result<seq<seq<bool>>>)
    ensures r.Ok? ==> IsSquareGrid(r.value, n)
  {
    var payload := GetOr(pobj, "background_rects", JNull);
    if payload.JList? then Ok(Painted(RectsFromJson(payload.items), n))
    else
      match LegacyBackground(GetOr(pobj, "background", JNull), n)
      case Some(g) => Ok(g)
      case None => Err("background has invalid dimensions")
  }

  // ---------------------------------------------------------------------
  // Entries

  /** `str(obj.get("tool") or "")` as a tool: `button_press` is read as a
      standard button, an unknown name as `None` (the entry is skipped). */
  function ToolOf(obj: Json): (r: Option<Tool>)
    ensures GetOr(obj, "tool", JNull) == JStr("button_press") ==> r == Some(ButtonStandard)
    ensures r.Some? ==> r.value != ButtonPress
    ensures GetOr(obj, "tool", JNull).JStr? && GetOr(obj, "tool", JNull).s != "button_press" ==>
      r == ToolFromValue(GetOr(obj, "tool", JNull).s)
  {
    var raw := PyStr(Or(GetOr(obj, "tool", JNull), JStr("")));
    if raw == "button_press" then Some(ButtonStandard) else ToolFromValue(raw)
  }

  /** An entry as read, before its uid is allocated. */
  datatype RawEntry = RawEntry(eid: int, tool: Tool, rect: Rect, requested: Json, active: bool, text: string, meta: Json)

  /** One item of a page's `entries`: `Ok(None)` when its tool is unknown,
      an error where the source raises (the item is not a dict, `rect` or
      `id` is missing or does not convert, `meta` is truthy but not a
      dict). */
  function ParseEntry(obj: Json): (r: Result<Option<RawEntry>>)
    ensures !obj.JObj? ==> r.Err?
    ensures r == Ok(None) <==> obj.JObj? && ToolOf(obj).None?
    ensures r.Ok? && r.value.Some? ==>
      var e := r.value.value;
      && ToolOf(obj) == Some(e.tool) && e.tool != ButtonPress
      && IsNormalized(e.rect) && e.meta.JObj?
      && ToInt(GetOr(obj, "id", JNull)) == Some(e.eid)
      && RectFromJson(GetOr(obj, "rect", JNull)).Some?
      && e.rect == Normalized(RectFromJson(GetOr(obj, "rect", JNull)).value)
  {
    if !obj.JObj? then Err("entry is not an object")
    else
      match ToolOf(obj)
      case None => Ok(None)
      case Some(tool) =>
        match RectFromJson(GetOr(obj, "rect", JNull))
        case None => Err("invalid rect")
        case Some(rect) =>
          match ToInt(GetOr(obj, "id", JNull))
          case None => Err("invalid id")
          case Some(eid) =>
            var meta := Or(GetOr(obj, "meta", JNull), JObj(map[]));
            if !meta.JObj? then Err("invalid meta")
            else
              Ok(Some(RawEntry(eid, tool, Normalized(rect), GetOr(obj, "uid", JNull),
                Truthy(GetOr(obj, "active", JBool(false))), PyStr(GetOr(obj, "label", JStr(""))), meta)))
  }

  // ---------------------------------------------------------------------
  // Uid allocation

  /** The allocator's state: the counter, the largest uid handed out (0
      before any), and the uids recorded so far. */
  datatype Alloc = Alloc(counter: int, maxUid: int, used: set<int>)

  /** What every allocation keeps: the counter is positive, every recorded
      uid is positive and at most `maxUid`, and `maxUid` is 0 or
      recorded. */
  predicate AllocInv(a: Alloc)
  {
    && a.counter >= 1
    && a.maxUid >= 0
    && (a.maxUid == 0 || a.maxUid in a.used)
    && forall u :: u in a.used ==> 0 < u <= a.maxUid
  }

  /** The first integer from `c` on that is not in `used`. */
  function NextFree(used: set<int>, c: int): (r: int)
    ensures c <= r && r !in used
    ensures forall k :: c <= k < r ==> k in used
    decreases set k | k in used && c <= k
  {
    if c in used then
      ghost var before := set k | k in used && c <= k;
      ghost var after := set k | k in used && c + 1 <= k;
      assert after <= before && c in before && c !in after;
      NextFree(used, c + 1)
    else c
  }

  /** `int(requested)`, 0 when it raises. */
  function RequestedUid(requested: Json): int
  {
    match ToInt(requested)
    case Some(v) => v
    case None => 0
  }

  /** `_alloc_uid`: a positive requested uid not yet recorded is kept;
      otherwise the counter moves to the first unrecorded value, which is
      recorded, and the allocator answers the larger of that value and the
      largest uid so far. The answer is always recorded; it is new exactly
      when the request was kept or the counter had passed every uid. */
  function AllocUid(a: Alloc, requested: Json): (r: (Alloc, int))
    requires AllocInv(a)
    ensures AllocInv(r.0)
    ensures r.1 > 0 && r.1 in r.0.used
    ensures a.used < r.0.used && r.0.counter >= a.counter && r.0.maxUid >= a.maxUid
    ensures var rid := RequestedUid(requested);
      rid > 0 && rid !in a.used ==> r == (Alloc(a.counter, Max(a.maxUid, rid), a.used + {rid}), rid)
    ensures r.1 !in a.used <==>
      (RequestedUid(requested) > 0 && RequestedUid(requested) !in a.used) || NextFree(a.used, a.counter) > a.maxUid
  {
    var rid := RequestedUid(requested);
    if rid > 0 && rid !in a.used then
      (Alloc(a.counter, Max(a.maxUid, rid), a.used + {rid}), rid)
    else
      var c := NextFree(a.used, a.counter);
      var m := Max(a.maxUid, c);
      (Alloc(c + 1, m, a.used + {c}), m)
  }

  /** The `next_uid` the load ends with, `max(uid_counter, max_uid + 1)`. */
  function NextUidAfter(a: Alloc): int
  {
    Max(a.counter, a.maxUid + 1)
  }

  /** After any run of allocations the final `next_uid` lies above every
      uid recorded. */
  lemma NextUidAboveUsed(a: Alloc)
    requires AllocInv(a)
    ensures forall u :: u in a.used ==> u < NextUidAfter(a)
    ensures NextUidAfter(a) >= 1
  {
  }

  /** The fallback can answer a uid already handed out: with uid 5
      recorded and the counter at 1, a second request for 5 reserves 1
      and still answers 5. */
  lemma AllocMayRepeat()
    ensures AllocInv(Alloc(1, 5, {5}))
    ensures AllocUid(Alloc(1, 5, {5}), JInt(5)).1 == 5
  {
    assert NextFree({5}, 1) == 1;
  }

  // ---------------------------------------------------------------------
  // Loading a page

  /** A page's entries and lookup grid as they are filled in, and the
      largest id seen (0 before any). */
  datatype PageBuild = PageBuild(entries: map<int, Entry>, cells: seq<seq<Option<int>>>, maxId: int)

  /** A read entry: filed under its own id, with a normalized rectangle
      and a uid the allocator recorded. */
  predicate EntryLoaded(e: Entry, k: int, used: set<int>)
  {
    e.entryId == k && IsNormalized(e.rect) && e.uid in used
  }

  /** What holds of a page while its entries are read: the lookup grid
      has the page's size and names only filed entries, and every entry
      is read, with an id at most `maxId`. */
  predicate BuildOk(b: PageBuild, n: nat, used: set<int>)
  {
    && IsSquareGrid(b.cells, n)
    && (forall k :: k in b.entries ==> EntryLoaded(b.entries[k], k, used) && k <= b.maxId)
    && (forall y, x :: 0 <= y < n && 0 <= x < n && b.cells[y][x].Some? ==> b.cells[y][x].value in b.entries)
  }

  /** A loaded page: filed under its id, both grids of the page's size,
      every entry read with an id below the next entry id, and the lookup
      grid naming only its entries. */
  predicate PageLoaded(p: PageState, pid: int, n: nat, used: set<int>)
  {
    && p.pageId == pid
    && IsSquareGrid(p.background, n)
    && IsSquareGrid(p.cellToEntry, n)
    && (forall k :: k in p.entries ==> EntryLoaded(p.entries[k], k, used) && k < p.nextEntryId)
    && (forall y, x :: 0 <= y < n && 0 <= x < n && p.cellToEntry[y][x].Some? ==> p.cellToEntry[y][x].value in p.entries)
  }

  function EmptyCells(n: nat): (g: seq<seq<Option<int>>>)
    ensures IsSquareGrid(g, n)
  {
    seq(n, _ => seq(n, _ => None))
  }

  /** The entry a raw entry becomes with its allocated uid. */
  function MakeEntry(raw: RawEntry, uid: int): Entry
  {
    Entry(raw.eid, raw.tool, raw.rect, uid, raw.active, raw.text, raw.meta)
  }

  /** Adding one read entry: filed under its id, its cells pointed at it. */
  function AddRaw(b: PageBuild, raw: RawEntry, uid: int, n: nat): (r: PageBuild)
    requires IsSquareGrid(b.cells, n)
    ensures IsSquareGrid(r.cells, n)
    ensures forall used :: BuildOk(b, n, used) && IsNormalized(raw.rect) ==> BuildOk(r, n, used + {uid})
  {
    PageBuild(b.entries[raw.eid := MakeEntry(raw, uid)], Stamp(b.cells, raw.rect, raw.eid, n), Max(b.maxId, raw.eid))
  }

  /** The page's `entries` from item `i` on, in order; the first error
      stops the load. */
  function LoadEntries(objs: seq<Json>, i: nat, n: nat, a: Alloc, b: PageBuild): (r: Result<(Alloc, PageBuild)>)
    requires i <= |objs| && AllocInv(a) && IsSquareGrid(b.cells, n)
    ensures r.Ok? ==> AllocInv(r.value.0) && IsSquareGrid(r.value.1.cells, n)
    ensures r.Ok? ==> a.used <= r.value.0.used && r.value.0.counter >= a.counter
    ensures r.Ok? && BuildOk(b, n, a.used) ==> BuildOk(r.value.1, n, r.value.0.used)
    decreases |objs| - i
  {
    if i == |objs| then Ok((a, b))
    else
      match ParseEntry(objs[i])
      case Err(m) => Err(m)
      case Ok(None) => LoadEntries(objs, i + 1, n, a, b)
      case Ok(Some(raw)) =>
        var (a', uid) := AllocUid(a, raw.requested);
        LoadEntries(objs, i + 1, n, a', AddRaw(b, raw, uid, n))
  }

  /** The checks on one item of `pages` before its entries are read: it
      must be a dict with a convertible `page_id`, a readable background
      and an `entries` list. */
  function PageHeader(pobj: Json, n: nat): (r: Result<(int, seq<seq<bool>>, seq<Json>)>)
    ensures r.Ok? ==> IsSquareGrid(r.value.1, n)
  {
    if !pobj.JObj? then Err("pages contains an invalid page object.")
    else
      match PageIdOf(pobj)
      case None => Err("invalid page_id")
      case Some(pid) =>
        match PageBackground(pobj, n)
        case Err(m) => Err(m)
        case Ok(bg) =>
          var entries := GetOr(pobj, "entries", JList([]));
          if !entries.JList? then Err("entries must be a list")
          else Ok((pid, bg, entries.items))
  }

  /** One item of `pages`: its header checks, then its entries; the
      page's next entry id is one above the largest id read. */
  function LoadPage(pobj: Json, n: nat, a: Alloc): (r: Result<(Alloc, int, PageState)>)
    requires AllocInv(a)
    ensures r.Ok? ==> AllocInv(r.value.0) && a.used <= r.value.0.used && r.value.0.counter >= a.counter
    ensures r.Ok? ==> r.value.2.pageId == r.value.1
    ensures r.Ok? ==> PageLoaded(r.value.2, r.value.1, n, r.value.0.used)
  {
    match PageHeader(pobj, n)
    case Err(m) => Err(m)
    case Ok((pid, bg, items)) =>
      match LoadEntries(items, 0, n, a, PageBuild(map[], EmptyCells(n), 0))
      case Err(m) => Err(m)
      case Ok((a', b)) => Ok((a', pid, PageState(pid, bg, b.entries, b.cells, b.maxId + 1)))
  }

  /** Where the page loop stopped: the pages stored so far, the
      allocator, and the error that stopped it, if any. */
  datatype PagesOutcome = PagesOutcome(pages: map<int, PageState>, alloc: Alloc, err: Option<string>)

  /** The items of `pages` from `i` on, each stored under its page id as
      soon as it is read; an error leaves the pages stored before it. */
  function LoadPages(pobjs: seq<Json>, i: nat, n: nat, a: Alloc, pages: map<int, PageState>): (r: PagesOutcome)
    requires i <= |pobjs| && AllocInv(a)
    ensures AllocInv(r.alloc)
    ensures r.err.None? ==> pages.Keys <= r.pages.Keys && (i < |pobjs| ==> r.pages != map[])
    ensures a.used <= r.alloc.used
    ensures (forall pid :: pid in pages ==> PageLoaded(pages[pid], pid, n, a.used)) ==>
      forall pid :: pid in r.pages ==> PageLoaded(r.pages[pid], pid, n, r.alloc.used)
    decreases |pobjs| - i
  {
    if i == |pobjs| then PagesOutcome(pages, a, None)
    else
      match LoadPage(pobjs[i], n, a)
      case Err(m) => PagesOutcome(pages, a, Some(m))
      case Ok((a', pid, st)) =>
        var r := LoadPages(pobjs, i + 1, n, a', pages[pid := st]);
        assert r.err.None? ==> pid in r.pages;
        r
  }

  // ---------------------------------------------------------------------
  // Loading a document

  /** The state after a load and the error it raised, if any. */
  datatype LoadResult = LoadResult(doc: DocState, err: Option<string>)

  /** `load_from_json_dict`. The name is taken first; version, grid size
      and the `pages` list are checked before anything else changes; the
      rest is `LoadBody`. */
  function Load(data: Json, before: DocState): (r: LoadResult)
    ensures !data.JObj? ==> r.doc == before && r.err.Some?
    ensures data.JObj? && !VersionOk(Get(data, "version")) ==>
      r.doc == before.(guiName := GuiNameAfter(data, before.guiName)) && r.err.Some?
    ensures r.err.None? ==>
      && data.JObj? && VersionOk(Get(data, "version"))
      && GridOf(Get(data, "grid_n")) == Some(r.doc.gridN) && r.doc.startPageId in r.doc.pages
  {
    if !data.JObj? then LoadResult(before, Some("Invalid JSON root (expected object)."))
    else
      var d1 := before.(guiName := GuiNameAfter(data, before.guiName));
      if !VersionOk(Get(data, "version")) then LoadResult(d1, Some("Unsupported JSON version"))
      else
        match GridOf(Get(data, "grid_n"))
        case None => LoadResult(d1, Some("grid_n must be 16 or 32"))
        case Some(n) =>
          var pages := PagesOf(data);
          if !pages.JList? || pages.items == [] then LoadResult(d1, Some("pages must be a non-empty list."))
          else LoadBody(data, d1, n, pages.items)
  }

  /** The part of `load_from_json_dict` after the header checks: set the
      grid size, clear the pages and read them one by one; an error there
      leaves the pages read so far. On success `next_uid` becomes
      `max(counter, max_uid + 1)` and the start page falls back to the
      smallest page id when it names no page. */
  function LoadBody(data: Json, d1: DocState, n: nat, items: seq<Json>): (r: LoadResult)
    requires items != []
    ensures r.doc.gridN == n && r.doc.guiName == d1.guiName
    ensures r.err.Some? ==> r.doc == d1.(gridN := n, pages := r.doc.pages)
    ensures r.err.None? ==> r.doc.startPageId in r.doc.pages
    ensures r.err.None? && RequestedStart(data) in r.doc.pages ==> r.doc.startPageId == RequestedStart(data)
    ensures r.err.None? && RequestedStart(data) !in r.doc.pages ==>
      forall pid :: pid in r.doc.pages ==> r.doc.startPageId <= pid
  {
    var out := LoadPages(items, 0, n, Alloc(StartCounter(data), 0, {}), map[]);
    if out.err.Some? then LoadResult(d1.(gridN := n, pages := out.pages), out.err)
    else
      var start := RequestedStart(data);
      var start' := if start in out.pages then start else SortedIds(out.pages.Keys)[0];
      LoadResult(DocState(d1.guiName, n, out.pages, start', NextUidAfter(out.alloc)), None)
  }
}
