/** What loading a document guarantees, and what it does not: header
    checks that change nothing but the name, a page loop that is not
    all-or-nothing, the backward-compatible formats, and the bounds a
    successful load leaves on ids and uids. */
module LoadProperties {
  import opened Wrappers
  import opened JsonValue
  import opened Geometry
  import opened IntSets
  import opened BackgroundCodec
  import opened DocumentCodec

  /** Every page of a loaded document: filed under its id, both grids of
      the document's size, entries filed under their ids with normalized
      rectangles, ids below the page's next entry id and uids below the
      document's next uid, and a lookup grid naming only its entries. */
  predicate DocLoaded(d: DocState)
  {
    forall pid :: pid in d.pages ==>
      && d.pages[pid].pageId == pid
      && IsSquareGrid(d.pages[pid].background, d.gridN)
      && IsSquareGrid(d.pages[pid].cellToEntry, d.gridN)
      && (forall k :: k in d.pages[pid].entries ==>
            && d.pages[pid].entries[k].entryId == k
            && IsNormalized(d.pages[pid].entries[k].rect)
            && k < d.pages[pid].nextEntryId
            && d.pages[pid].entries[k].uid < d.nextUid)
      && (forall y, x :: 0 <= y < d.gridN && 0 <= x < d.gridN && d.pages[pid].cellToEntry[y][x].Some? ==>
            d.pages[pid].cellToEntry[y][x].value in d.pages[pid].entries)
  }

  lemma PagesLoadedBelow(pages: map<int, PageState>, n: nat, a: Alloc, next: int)
    requires AllocInv(a) && next == NextUidAfter(a)
    requires forall pid :: pid in pages ==> PageLoaded(pages[pid], pid, n, a.used)
    ensures DocLoaded(DocState("", n, pages, 0, next))
  {
    NextUidAboveUsed(a);
  }

  /** After the header, a successful read of the pages leaves at least
      one page, a start page that exists, and pages whose entry ids and
      uids lie below the counters that number the next entry and uid. */
  lemma BodySucceeds(data: Json, d1: DocState, n: nat, items: seq<Json>)
    requires items != [] && LoadBody(data, d1, n, items).err.None?
    ensures var d := LoadBody(data, d1, n, items).doc;
      && d.gridN == n && d.pages != map[] && d.startPageId in d.pages && d.nextUid >= 1 && DocLoaded(d)
  {
    var out := LoadPages(items, 0, n, Alloc(StartCounter(data), 0, {}), map[]);
    var d := LoadBody(data, d1, n, items).doc;
    assert d.pages == out.pages && d.nextUid == NextUidAfter(out.alloc);
    PagesLoadedBelow(out.pages, n, out.alloc, d.nextUid);
  }

  /** A load that succeeds accepted the header (a version of 1, 2 or 3, a
      grid size of 16 or 32), leaves at least one page, a start page that
      exists, and pages whose entry ids and uids lie below the counters
      that number the next entry and the next uid. */
  lemma LoadSucceeds(data: Json, before: DocState)
    requires Load(data, before).err.None?
    ensures var d := Load(data, before).doc;
      && data.JObj? && VersionOk(Get(data, "version"))
      && Get(data, "grid_n") == Some(JInt(d.gridN)) && (d.gridN == 16 || d.gridN == 32)
      && d.pages != map[] && d.startPageId in d.pages
      && d.nextUid >= 1
      && DocLoaded(d)
  {
    var n := GridOf(Get(data, "grid_n")).value;
    var d1 := before.(guiName := GuiNameAfter(data, before.guiName));
    BodySucceeds(data, d1, n, PagesOf(data).items);
  }

  /** A document refused at the header (not an object, or a bad version,
      grid size or `pages` list) changes nothing except, for an object
      with a `gui_name`, the name. */
  lemma HeaderErrorKeepsDocument(data: Json, before: DocState)
    requires !data.JObj? || !VersionOk(Get(data, "version")) || GridOf(Get(data, "grid_n")).None?
      || !PagesOf(data).JList? || PagesOf(data).items == []
    ensures Load(data, before).err.Some?
    ensures data.JObj? ==> Load(data, before).doc == before.(guiName := GuiNameAfter(data, before.guiName))
    ensures !data.JObj? ==> Load(data, before).doc == before
  {
  }

  /** Loading is not all-or-nothing: a document with a valid header whose
      only page is not an object fails, and leaves no page behind and the
      new grid size in place. */
  lemma LoadNotAtomic()
    ensures var page := PageState(1, [], map[], [], 1);
      var before := DocState("gui", 16, map[1 := page], 1, 1);
      var data := JObj(map["version" := JInt(3), "grid_n" := JInt(32), "pages" := JList([JInt(7)])]);
      && Load(data, before).err.Some?
      && before.pages != map[]
      && Load(data, before).doc.pages == map[]
      && Load(data, before).doc.gridN == 32
  {
    var page := PageState(1, [], map[], [], 1);
    var before := DocState("gui", 16, map[1 := page], 1, 1);
    var data := JObj(map["version" := JInt(3), "grid_n" := JInt(32), "pages" := JList([JInt(7)])]);
    assert 1 in before.pages;
    assert Get(data, "grid_n") == Some(JInt(32));
    assert Get(data, "version") == Some(JInt(3));
    assert PagesOf(data) == JList([JInt(7)]);
    assert LoadPage(JInt(7), 32, Alloc(StartCounter(data), 0, {})).Err?;
  }

  /** A document without a `pages` list (the single-page format) loads,
      when it loads, as the one page 1. */
  lemma SinglePageFormat(data: Json, before: DocState)
    requires data.JObj? && GetOr(data, "pages", JNull).JNull?
    requires Load(data, before).err.None?
    ensures Load(data, before).doc.pages.Keys == {1}
  {
    var n := GridOf(Get(data, "grid_n")).value;
    var d1 := before.(guiName := GuiNameAfter(data, before.guiName));
    var items := PagesOf(data).items;
    assert Load(data, before) == LoadBody(data, d1, n, items);
    SinglePageBody(data, d1, n, items);
  }

  lemma SinglePageBody(data: Json, d1: DocState, n: nat, items: seq<Json>)
    requires |items| == 1 && PageIdOf(items[0]) == Some(1)
    requires LoadBody(data, d1, n, items).err.None?
    ensures LoadBody(data, d1, n, items).doc.pages.Keys == {1}
  {
    var a0 := Alloc(StartCounter(data), 0, {});
    var r := LoadPage(items[0], n, a0);
    assert r.Ok? && r.value.1 == 1;
    var out := LoadPages(items, 1, n, r.value.0, map[1 := r.value.2]);
    assert LoadPages(items, 0, n, a0, map[]) == out;
    assert out.pages == map[1 := r.value.2];
  }

  /** The legacy background format: a list of rows of booleans. */
  function GridJson(bg: seq<seq<bool>>): Json
  {
    JList(seq(|bg|, y requires 0 <= y < |bg| => JList(seq(|bg[y]|, x requires 0 <= x < |bg[y]| => JBool(bg[y][x])))))
  }

  /** A page stored in the legacy format, with a boolean grid and no
      `background_rects`, reads back that grid. */
  lemma LegacyGridRead(pobj: Json, bg: seq<seq<bool>>, n: nat)
    requires IsSquareGrid(bg, n)
    requires pobj.JObj? && "background_rects" !in pobj.fields
    requires "background" in pobj.fields && pobj.fields["background"] == GridJson(bg)
    ensures PageBackground(pobj, n) == Ok(bg)
  {
    var g := GridJson(bg);
    assert forall y :: 0 <= y < n ==> g.items[y].JList? && |g.items[y].items| == n;
    var r := LegacyBackground(g, n).value;
    forall y | 0 <= y < n
      ensures r[y] == bg[y]
    {
      assert forall x :: 0 <= x < n ==> r[y][x] == Truthy(JBool(bg[y][x])) == bg[y][x];
    }
    assert r == bg;
  }

  /** A page whose `background_rects` is a list of rectangles reads back
      the grid those rectangles paint, clipped to the page. */
  lemma RectsRead(pobj: Json, rects: seq<Rect>, n: nat)
    requires pobj.JObj? && "background_rects" in pobj.fields
    requires pobj.fields["background_rects"] == JList(RectsJson(rects))
    ensures PageBackground(pobj, n) == Ok(Painted(rects, n))
  {
    RectsJsonRead(rects);
  }

  /** Saved rectangles read back as themselves. */
  lemma {:induction false} RectsJsonRead(rects: seq<Rect>)
    ensures RectsFromJson(RectsJson(rects)) == rects
  {
    if rects != [] {
      var js := RectsJson(rects);
      var init := rects[..|rects| - 1];
      assert js[..|js| - 1] == RectsJson(init);
      RectsJsonRead(init);
      var last := rects[|rects| - 1];
      assert js[|js| - 1] == RectJson(last);
      RectJsonRead(last);
      assert init + [last] == rects;
    }
  }

  /** A saved rectangle reads back as itself. */
  lemma RectJsonRead(r: Rect)
    ensures RectFromJson(RectJson(r)) == Some(r)
  {
  }

  /** A tool is read back from its saved name, except that the retired
      `button_press` is read as a standard button. */
  lemma ToolNameRead(obj: Json, t: Tool)
    requires obj.JObj? && "tool" in obj.fields && obj.fields["tool"] == JStr(ToolValue(t))
    ensures ToolOf(obj) == Some(if t == ButtonPress then ButtonStandard else t)
  {
    ToolValueRoundTrip(t);
  }

  /** The header `to_json_dict` writes is accepted and read back: the
      version passes the check, a grid size of 16 or 32 is kept, and the
      name, start page, uid counter and one item per page come back. */
  lemma SaveJsonRead(d: DocState, rects: map<int, seq<Rect>>, packs: seq<string>)
    requires d.pages.Keys <= rects.Keys
    ensures var j := SaveJson(d, rects, packs);
      && VersionOk(Get(j, "version"))
      && ((d.gridN == 16 || d.gridN == 32) ==> GridOf(Get(j, "grid_n")) == Some(d.gridN))
      && GuiNameAfter(j, "") == d.guiName
      && RequestedStart(j) == d.startPageId && StartCounter(j) == Max(1, d.nextUid)
      && PagesOf(j) == JList(PagesJson(d.pages, rects)) && |PagesOf(j).items| == |d.pages|
  {
    var j := SaveJson(d, rects, packs);
    assert Get(j, "pages") == Some(JList(PagesJson(d.pages, rects)));
  }

  /** An entry written by `to_json_dict` reads back with its id, tool
      (a retired `button_press` as a standard button), rectangle, active
      flag, label and meta; its uid comes back as the requested uid. */
  lemma EntryJsonRead(e: Entry)
    requires e.meta.JObj?
    ensures ParseEntry(EntryJson(e)) == Ok(Some(RawEntry(e.entryId,
      if e.tool == ButtonPress then ButtonStandard else e.tool,
      Normalized(e.rect), JInt(e.uid), e.active, e.text, e.meta)))
  {
    var j := EntryJson(e);
    ToolNameRead(j, e.tool);
    assert RectFromJson(GetOr(j, "rect", JNull)) == Some(e.rect);
    assert Or(e.meta, JObj(map[])) == e.meta;
  }

  /** The items of an entry list with the unknown-tool ones removed. */
  function KnownOnly(objs: seq<Json>): (r: seq<Json>)
    ensures |r| <= |objs|
  {
    if objs == [] then []
    else if objs[0].JObj? && ToolOf(objs[0]).None? then KnownOnly(objs[1..])
    else [objs[0]] + KnownOnly(objs[1..])
  }

  /** Reading a list from position `i + 1` is reading its tail from `i`. */
  lemma {:induction false} LoadEntriesShift(x: Json, rest: seq<Json>, i: nat, n: nat, a: Alloc, b: PageBuild)
    requires i <= |rest| && AllocInv(a) && IsSquareGrid(b.cells, n)
    ensures LoadEntries([x] + rest, i + 1, n, a, b) == LoadEntries(rest, i, n, a, b)
    decreases |rest| - i
  {
    var xs := [x] + rest;
    if i < |rest| {
      assert xs[i + 1] == rest[i];
      var p := ParseEntry(rest[i]);
      if p == Ok(None) {
        LoadEntriesShift(x, rest, i + 1, n, a, b);
      } else if p.Ok? {
        var raw := p.value.value;
        var (a', uid) := AllocUid(a, raw.requested);
        LoadEntriesShift(x, rest, i + 1, n, a', AddRaw(b, raw, uid, n));
      }
    }
  }

  /** Reading a list is reading its first item, then the rest. */
  lemma LoadHead(x: Json, rest: seq<Json>, n: nat, a: Alloc, b: PageBuild)
    requires AllocInv(a) && IsSquareGrid(b.cells, n)
    ensures var p := ParseEntry(x);
      LoadEntries([x] + rest, 0, n, a, b) ==
        if p.Err? then Err(p.msg)
        else if p.value.None? then LoadEntries(rest, 0, n, a, b)
        else LoadEntries(rest, 0, n, AllocUid(a, p.value.value.requested).0,
                         AddRaw(b, p.value.value, AllocUid(a, p.value.value.requested).1, n))
  {
    assert ([x] + rest)[0] == x;
    var p := ParseEntry(x);
    if p == Ok(None) {
      LoadEntriesShift(x, rest, 0, n, a, b);
    } else if p.Ok? {
      var raw := p.value.value;
      var (a', uid) := AllocUid(a, raw.requested);
      LoadEntriesShift(x, rest, 0, n, a', AddRaw(b, raw, uid, n));
    }
  }

  /** Entries with an unknown tool are skipped outright: reading the list
      is reading it with them removed. */
  lemma {:induction false} UnknownToolsSkipped(objs: seq<Json>, n: nat, a: Alloc, b: PageBuild)
    requires AllocInv(a) && IsSquareGrid(b.cells, n)
    ensures LoadEntries(objs, 0, n, a, b) == LoadEntries(KnownOnly(objs), 0, n, a, b)
    decreases |objs|
  {
    if objs != [] {
      var x, rest := objs[0], objs[1..];
      assert objs == [x] + rest;
      LoadHead(x, rest, n, a, b);
      if x.JObj? && ToolOf(x).None? {
        UnknownToolsSkipped(rest, n, a, b);
      } else {
        assert KnownOnly(objs) == [x] + KnownOnly(rest);
        LoadHead(x, KnownOnly(rest), n, a, b);
        var p := ParseEntry(x);
        if p.Ok? && p.value.Some? {
          var raw := p.value.value;
          var (a', uid) := AllocUid(a, raw.requested);
          UnknownToolsSkipped(rest, n, a', AddRaw(b, raw, uid, n));
        }
      }
    }
  }
}
