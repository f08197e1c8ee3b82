/** The editor's document as an object: saving it to a JSON value and
    loading a JSON value into it, in place, with the uid allocator the
    load threads through every page. Each method is proved against the
    matching function of `DocumentCodec`. */
module Documents {
  import opened Wrappers
  import opened JsonValue
  import opened Geometry
  import opened IntSets
  import opened BackgroundCodec
  import opened DocumentCodec

  /** The allocator behind `_alloc_uid`: the counter, the largest uid
      handed out and the set of uids recorded, updated on every call. */
  class UidAllocator {
    var counter: int
    var maxUid: int
    var used: set<int>

    function State(): Alloc
      reads this
    {
      Alloc(counter, maxUid, used)
    }

    constructor (start: int)
      requires start >= 1
      ensures State() == Alloc(start, 0, {}) && AllocInv(State())
    {
      counter := start;
      maxUid := 0;
      used := {};
    }

    /** `_alloc_uid(requested)`. */
    method Allocate(requested: Json) returns (uid: int)
      requires AllocInv(State())
      modifies this
      ensures (State(), uid) == AllocUid(old(State()), requested)
    {
      var rid := RequestedUid(requested);
      if rid > 0 && rid !in used {
        used := used + {rid};
        maxUid := Max(maxUid, rid);
        return rid;
      }
      while counter in used
        invariant used == old(used) && maxUid == old(maxUid) && old(counter) <= counter
        invariant NextFree(used, old(counter)) == NextFree(used, counter)
        decreases set k | k in used && counter <= k
      {
        ghost var before := set k | k in used && counter <= k;
        ghost var after := set k | k in used && counter + 1 <= k;
        assert after <= before && counter in before && counter !in after;
        counter := counter + 1;
      }
      used := used + {counter};
      maxUid := Max(maxUid, counter);
      counter := counter + 1;
      uid := maxUid;
    }
  }

  /** The editor state that a document saves and a load replaces, plus
      the page shown after a load. */
  class Document {
    var guiName: string
    var gridN: nat
    var pages: map<int, PageState>
    var startPageId: int
    var currentPageId: int
    var nextUid: int
    /** The skin packs listed as available, in the order written. */
    var skinPacks: seq<string>

    function State(): DocState
      reads this
    {
      DocState(guiName, gridN, pages, startPageId, nextUid)
    }

    /** A list built page by page from the recorded rectangles is the
        `pages` list of those rectangles. */
    static lemma PagesJsonFrom(pages: map<int, PageState>, rects: map<int, seq<Rect>>, payload: seq<Json>, rs: seq<seq<Rect>>)
      requires pages.Keys <= rects.Keys
      requires |payload| == |rs| == |pages|
      requires forall k :: 0 <= k < |rs| ==> rects[SortedIds(pages.Keys)[k]] == rs[k]
      requires forall k :: 0 <= k < |rs| ==>
        var pid := SortedIds(pages.Keys)[k]; payload[k] == PageJson(pid, pages[pid], rs[k])
      ensures payload == PagesJson(pages, rects)
    {
    }

    /** The rectangles listed per page, looked up by page id. */
    static lemma RectsByPage(pages: map<int, PageState>, ids: seq<int>, rs: seq<seq<Rect>>, n: nat) returns (rects: map<int, seq<Rect>>)
      requires ids == SortedIds(pages.Keys) && |rs| == |ids|
      requires forall k :: 0 <= k < |ids| ==> ids[k] in pages && Painted(rs[k], n) == pages[ids[k]].background
      ensures rects.Keys == pages.Keys
      ensures forall k :: 0 <= k < |ids| ==> rects[ids[k]] == rs[k]
      ensures forall pid :: pid in pages ==> Painted(rects[pid], n) == pages[pid].background
    {
      rects := map pid | pid in pages :: rs[IndexOf(ids, pid)];
      forall k | 0 <= k < |ids|
        ensures rects[ids[k]] == rs[k]
      {
        var j := IndexOf(ids, ids[k]);
        assert j == k;
      }
    }

    /** `_background_to_rects` of each listed page's background, in
        order. */
    static method CompressBackgrounds(ids: seq<int>, pages: map<int, PageState>, n: nat) returns (rs: seq<seq<Rect>>)
      requires forall k :: 0 <= k < |ids| ==> ids[k] in pages && IsSquareGrid(pages[ids[k]].background, n)
      ensures |rs| == |ids|
      ensures forall k :: 0 <= k < |ids| ==> Painted(rs[k], n) == pages[ids[k]].background
    {
      rs := [];
      var i := 0;
      while i < |ids|
        invariant 0 <= i <= |ids| && |rs| == i
        invariant forall k :: 0 <= k < i ==> Painted(rs[k], n) == pages[ids[k]].background
      {
        var bgRects := BackgroundToRects(pages[ids[i]].background, n);
        PaintedExactTiling(bgRects, pages[ids[i]].background, n);
        rs := rs + [bgRects];
        i := i + 1;
      }
    }

    /** `rects` holds, for exactly the pages of `pages`, rectangles that
        paint each page's background back. */
    static predicate CompressedAs(rects: map<int, seq<Rect>>, pages: map<int, PageState>, n: nat)
    {
      && rects.Keys == pages.Keys
      && forall pid :: pid in pages ==> Painted(rects[pid], n) == pages[pid].background
    }

    /** The `pages` list of `to_json_dict`: every page by ascending id,
        its background compressed to rectangles that decode back to it. */
    static method PagesPayload(pages: map<int, PageState>, n: nat) returns (payload: seq<Json>)
      requires forall pid :: pid in pages ==> IsSquareGrid(pages[pid].background, n)
      ensures exists rects :: CompressedAs(rects, pages, n) && payload == PagesJson(pages, rects)
    {
      var ids := SortedIds(pages.Keys);
      forall k | 0 <= k < |ids|
        ensures ids[k] in pages
      {
        assert ids[k] in ids;
      }
      var rs := CompressBackgrounds(ids, pages, n);
      payload := seq(|ids|, k requires 0 <= k < |ids| => PageJson(ids[k], pages[ids[k]], rs[k]));
      PayloadCompressed(pages, n, ids, rs, payload);
    }

    /** A list of pages written from rectangles that paint each page's
        background back is the `pages` list for some such choice. */
    static lemma PayloadCompressed(pages: map<int, PageState>, n: nat, ids: seq<int>, rs: seq<seq<Rect>>, payload: seq<Json>)
      requires ids == SortedIds(pages.Keys) && |rs| == |ids|
      requires forall k :: 0 <= k < |ids| ==> ids[k] in pages && Painted(rs[k], n) == pages[ids[k]].background
      requires |payload| == |ids|
      requires forall k :: 0 <= k < |ids| ==> payload[k] == PageJson(ids[k], pages[ids[k]], rs[k])
      ensures exists rects :: CompressedAs(rects, pages, n) && payload == PagesJson(pages, rects)
    {
      var rects := RectsByPage(pages, ids, rs, n);
      PagesJsonFrom(pages, rects, payload, rs);
      assert CompressedAs(rects, pages, n) && payload == PagesJson(pages, rects);
    }

    /** `to_json_dict`: the header fields, the listed skin packs and every
        page, by ascending id, with its background compressed to
        rectangles that decode back to it and its entries by ascending id. */
    method ToJsonDict() returns (j: Json)
      requires forall pid :: pid in pages ==> IsSquareGrid(pages[pid].background, gridN)
      ensures exists rects :: CompressedAs(rects, pages, gridN) && j == SaveJson(State(), rects, skinPacks)
    {
      var payload := PagesPayload(pages, gridN);
      ghost var rects :| CompressedAs(rects, pages, gridN) && payload == PagesJson(pages, rects);
      j := JObj(map[
        "version" := JInt(JsonVersion),
        "gui_name" := JStr(guiName),
        "grid_n" := JInt(gridN),
        "start_page_id" := JInt(startPageId),
        "next_uid" := JInt(nextUid),
        "available_in_skin_packs" := JList(StringsJson(skinPacks)),
        "pages" := JList(payload)]);
      assert j == SaveJson(State(), rects, skinPacks);
    }

    /** The entry loop of one page: each item is parsed; an unknown tool
        is skipped, any other item gets a uid, is filed under its id and
        has its in-grid cells pointed at it. */
    static method ReadEntries(objs: seq<Json>, n: nat, alloc: UidAllocator) returns (r: Result<PageBuild>)
      requires AllocInv(alloc.State())
      modifies alloc
      ensures AllocInv(alloc.State())
      ensures var spec := LoadEntries(objs, 0, n, old(alloc.State()), PageBuild(map[], EmptyCells(n), 0));
        && (r.Ok? <==> spec.Ok?)
        && (r.Err? ==> spec == Err(r.msg))
        && (r.Ok? ==> r.value == spec.value.1 && alloc.State() == spec.value.0)
    {
      ghost var a0 := alloc.State();
      var es: map<int, Entry> := map[];
      var cells := EmptyCells(n);
      var maxId := 0;
      var k := 0;
      while k < |objs|
        invariant 0 <= k <= |objs|
        invariant AllocInv(alloc.State()) && IsSquareGrid(cells, n)
        invariant LoadEntries(objs, 0, n, a0, PageBuild(map[], EmptyCells(n), 0))
          == LoadEntries(objs, k, n, alloc.State(), PageBuild(es, cells, maxId))
        decreases |objs| - k
      {
        match ParseEntry(objs[k]) {
          case Err(m) =>
            return Err(m);
          case Ok(None) =>
          case Ok(Some(raw)) =>
            maxId := Max(maxId, raw.eid);
            var uid := alloc.Allocate(raw.requested);
            es := es[raw.eid := MakeEntry(raw, uid)];
            cells := StampCells(cells, raw.rect, raw.eid, n);
        }
        k := k + 1;
      }
      r := Ok(PageBuild(es, cells, maxId));
    }

    /** One item of `pages`, read with the shared allocator. */
    static method ReadPage(pobj: Json, n: nat, alloc: UidAllocator) returns (r: Result<(int, PageState)>)
      requires AllocInv(alloc.State())
      modifies alloc
      ensures AllocInv(alloc.State())
      ensures var spec := LoadPage(pobj, n, old(alloc.State()));
        && (r.Ok? <==> spec.Ok?)
        && (r.Err? ==> spec == Err(r.msg))
        && (r.Ok? ==> r.value == (spec.value.1, spec.value.2) && alloc.State() == spec.value.0)
    {
      var header := ReadPageHeader(pobj, n);
      if header.Err? {
        return Err(header.msg);
      }
      var (pid, background, items) := header.value;
      var built := ReadEntries(items, n, alloc);
      if built.Err? {
        return Err(built.msg);
      }
      var b := built.value;
      r := Ok((pid, PageState(pid, background, b.entries, b.cells, b.maxId + 1)));
    }

    /** The checks on a page before its entries: a dict, a convertible
        `page_id`, a readable background and an `entries` list. */
    static method ReadPageHeader(pobj: Json, n: nat) returns (r: Result<(int, seq<seq<bool>>, seq<Json>)>)
      ensures r == PageHeader(pobj, n)
    {
      if !pobj.JObj? {
        return Err("pages contains an invalid page object.");
      }
      var pageId := PageIdOf(pobj);
      if pageId.None? {
        return Err("invalid page_id");
      }
      var bg := ReadBackground(pobj, n);
      if bg.Err? {
        return Err(bg.msg);
      }
      var entries := GetOr(pobj, "entries", JList([]));
      if !entries.JList? {
        return Err("entries must be a list");
      }
      return Ok((pageId.value, bg.value, entries.items));
    }

    /** A page's background: painted from `background_rects` when that
        is a list, else the legacy boolean grid. */
    static method ReadBackground(pobj: Json, n: nat) returns (r: Result<seq<seq<bool>>>)
      ensures r == PageBackground(pobj, n)
    {
      var payload := GetOr(pobj, "background_rects", JNull);
      if payload.JList? {
        var background := BackgroundFromRects(RectsFromJson(payload.items), n);
        return Ok(background);
      }
      var legacy := LegacyBackground(GetOr(pobj, "background", JNull), n);
      if legacy.None? {
        return Err("background has invalid dimensions");
      }
      return Ok(legacy.value);
    }

    /** The page loop of `load_from_json_dict`: each item of `pages` is
        read and stored under its page id in turn; the first error stops
        the loop with the pages stored before it. */
    static method ReadPages(items: seq<Json>, n: nat, alloc: UidAllocator) returns (pages: map<int, PageState>, err: Option<string>)
      requires AllocInv(alloc.State())
      modifies alloc
      ensures var spec := LoadPages(items, 0, n, old(alloc.State()), map[]);
        pages == spec.pages && err == spec.err && (err.None? ==> alloc.State() == spec.alloc)
    {
      ghost var a0 := alloc.State();
      pages := map[];
      var i := 0;
      while i < |items|
        invariant 0 <= i <= |items|
        invariant AllocInv(alloc.State())
        invariant LoadPages(items, 0, n, a0, map[]) == LoadPages(items, i, n, alloc.State(), pages)
      {
        var r := ReadPage(items[i], n, alloc);
        if r.Err? {
          return pages, Some(r.msg);
        }
        var (pid, st) := r.value;
        pages := pages[pid := st];
        i := i + 1;
      }
      err := None;
    }

    /** `load_from_json_dict`, updating the document in place; the answer
        is the error raised, if any. An error raised while reading the
        pages leaves the pages read before it. */
    method LoadFromJsonDict(data: Json) returns (err: Option<string>)
      modifies this
      ensures LoadResult(State(), err) == Load(data, old(State()))
      ensures err.None? ==> currentPageId == startPageId && startPageId in pages
      ensures skinPacks == old(skinPacks)
    {
      if !data.JObj? {
        return Some("Invalid JSON root (expected object).");
      }
      if "gui_name" in data.fields {
        guiName := PyStr(Or(data.fields["gui_name"], JStr("")));
      }
      if !VersionOk(Get(data, "version")) {
        return Some("Unsupported JSON version");
      }
      var grid := GridOf(Get(data, "grid_n"));
      if grid.None? {
        return Some("grid_n must be 16 or 32");
      }
      var n := grid.value;
      var pageObjs := PagesOf(data);
      if !pageObjs.JList? || pageObjs.items == [] {
        return Some("pages must be a non-empty list.");
      }
      err := ReadDocumentBody(data, pageObjs.items, n);
    }

    /** Everything after the header checks: set the grid size, clear the
        pages, read them in order, then set `next_uid` and the start
        page, which is also the page shown. */
    method ReadDocumentBody(data: Json, items: seq<Json>, n: nat) returns (err: Option<string>)
      requires items != []
      modifies this
      ensures LoadResult(State(), err) == DocumentCodec.LoadBody(data, old(State()), n, items)
      ensures err.None? ==> currentPageId == startPageId && startPageId in pages
      ensures skinPacks == old(skinPacks)
    {
      ghost var d0 := State();
      ghost var expected := DocumentCodec.LoadBody(data, d0, n, items);
      var read, readErr, next, start := ReadBody(data, items, n, d0);
      if readErr.Some? {
        gridN, pages := n, read;
        return readErr;
      }
      gridN, pages, nextUid, startPageId, currentPageId := n, read, next, start, start;
      err := None;
    }

    /** The page loop with a fresh allocator started at the saved
        `next_uid`, then the counter and start page worked out from where
        it stopped: what a load leaves in a document that held `d1`. */
    static method ReadBody(data: Json, items: seq<Json>, n: nat, ghost d1: DocState)
      returns (pages: map<int, PageState>, err: Option<string>, next: int, start: int)
      requires items != []
      ensures err.Some? ==> LoadBody(data, d1, n, items) == LoadResult(d1.(gridN := n, pages := pages), err)
      ensures err.None? ==> LoadBody(data, d1, n, items) == LoadResult(DocState(d1.guiName, n, pages, start, next), None)
      ensures err.None? ==> start in pages
    {
      next, start := 0, 0;
      var alloc := new UidAllocator(StartCounter(data));
      ghost var out := LoadPages(items, 0, n, alloc.State(), map[]);
      BodyOutcome(data, d1, n, items, out);
      pages, err := ReadPages(items, n, alloc);
      if err.Some? {
        return;
      }
      next := Max(alloc.counter, alloc.maxUid + 1);
      var requested := RequestedStart(data);
      start := if requested in pages then requested else SortedIds(pages.Keys)[0];
    }

    /** The body of a load in terms of the outcome of its page loop. */
    static lemma BodyOutcome(data: Json, d1: DocState, n: nat, items: seq<Json>, out: PagesOutcome)
      requires items != [] && out == LoadPages(items, 0, n, Alloc(StartCounter(data), 0, {}), map[])
      ensures out.err.Some? ==> LoadBody(data, d1, n, items) == LoadResult(d1.(gridN := n, pages := out.pages), out.err)
      ensures out.err.None? ==>
        var start := RequestedStart(data);
        LoadBody(data, d1, n, items)
          == LoadResult(DocState(d1.guiName, n, out.pages,
                                 if start in out.pages then start else SortedIds(out.pages.Keys)[0],
                                 NextUidAfter(out.alloc)), None)
    {
    }
  }
}
