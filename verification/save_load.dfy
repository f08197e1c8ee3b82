/** Saving then loading. A document written by `to_json_dict` and read
    back by `load_from_json_dict` gets back its name, grid size, start
    page, uid counter, page ids, backgrounds and entries; the lookup grids
    and the next entry ids are rebuilt from the entries instead. */
module SaveLoad {
  import opened Wrappers
  import opened JsonValue
  import opened Geometry
  import opened IntSets
  import opened BackgroundCodec
  import opened DocumentCodec
  import opened LoadProperties

  /** An entry that reads back as itself: filed under its id, with a
      normalized rectangle, a tool other than the retired `button_press`,
      a positive uid below `bound` and a dict for `meta`. */
  predicate EntrySavable(e: Entry, k: int, bound: int)
  {
    e.entryId == k && IsNormalized(e.rect) && e.tool != ButtonPress && 0 < e.uid < bound && e.meta.JObj?
  }

  /** The uids of a page's entries. */
  function Uids(es: map<int, Entry>): set<int>
  {
    set k | k in es :: es[k].uid
  }

  /** No two entries of a page share a uid. */
  predicate UidsDistinct(es: map<int, Entry>)
  {
    forall k1, k2 :: k1 in es && k2 in es && k1 != k2 ==> es[k1].uid != es[k2].uid
  }

  /** Entries that read back as themselves, no two with the same uid. */
  predicate EntriesSavable(es: map<int, Entry>, bound: int)
  {
    (forall k :: k in es ==> EntrySavable(es[k], k, bound)) && UidsDistinct(es)
  }

  /** The uid conditions on a whole document: every page filed under its
      id with savable entries, and no uid used on two pages. */
  predicate UidsSavable(d: DocState)
  {
    && (forall pid :: pid in d.pages ==>
          d.pages[pid].pageId == pid && EntriesSavable(d.pages[pid].entries, d.nextUid))
    && (forall p1, p2 :: p1 in d.pages && p2 in d.pages && p1 != p2 ==>
          Uids(d.pages[p1].entries) !! Uids(d.pages[p2].entries))
  }

  /** A document whose save reads back as itself, given the rectangles
      each background was compressed to: a grid size the load accepts, a
      start page that exists, backgrounds those rectangles paint, and the
      uid conditions. */
  predicate DocSavable(d: DocState, rects: map<int, seq<Rect>>)
  {
    && (d.gridN == 16 || d.gridN == 32)
    && d.startPageId in d.pages && d.nextUid >= 1
    && d.pages.Keys <= rects.Keys
    && (forall pid :: pid in d.pages ==> Painted(rects[pid], d.gridN) == d.pages[pid].background)
    && UidsSavable(d)
  }

  /** A page read back: same id, same background, same entries. */
  predicate PageRestored(q: PageState, p: PageState)
  {
    q.pageId == p.pageId && q.background == p.background && q.entries == p.entries
  }

  /** A saved entry parses back to itself, with its uid as the request. */
  lemma EntryRead(e: Entry, bound: int)
    requires EntrySavable(e, e.entryId, bound)
    ensures ParseEntry(EntryJson(e)) == Ok(Some(RawEntry(e.entryId, e.tool, e.rect, JInt(e.uid), e.active, e.text, e.meta)))
  {
    var obj := EntryJson(e);
    EntryFields(e);
    ToolNameRead(obj, e.tool);
    assert GetOr(obj, "rect", JNull) == RectJson(e.rect);
    assert RectFromJson(RectJson(e.rect)) == Some(e.rect);
    assert GetOr(obj, "id", JNull) == JInt(e.entryId);
    assert GetOr(obj, "uid", JNull) == JInt(e.uid);
    assert GetOr(obj, "active", JBool(false)) == JBool(e.active);
    assert GetOr(obj, "label", JStr("")) == JStr(e.text);
    assert GetOr(obj, "meta", JNull) == e.meta;
  }

  /** The fields saving writes for an entry, each under its own key. */
  lemma EntryFields(e: Entry)
    ensures var f := EntryJson(e).fields;
      && "id" in f && f["id"] == JInt(e.entryId)
      && "uid" in f && f["uid"] == JInt(e.uid)
      && "tool" in f && f["tool"] == JStr(ToolValue(e.tool))
      && "rect" in f && f["rect"] == RectJson(e.rect)
      && "active" in f && f["active"] == JBool(e.active)
      && "label" in f && f["label"] == JStr(e.text)
      && "meta" in f && f["meta"] == e.meta
  {
  }

  /** The entries of `es` whose ids are in `ids[i..]`. */
  function From(es: map<int, Entry>, ids: seq<int>, i: nat): (r: map<int, Entry>)
    requires i <= |ids|
    ensures r.Keys <= es.Keys
  {
    map k | k in es && k in ids[i..] :: es[k]
  }

  /** With strictly increasing ids, the entries from `i` on are the one at
      `ids[i]` and, apart from it, those from `i + 1` on. */
  lemma FromSplit(es: map<int, Entry>, ids: seq<int>, i: nat)
    requires i < |ids| && ids[i] in es
    requires forall j, j' :: 0 <= j < j' < |ids| ==> ids[j] < ids[j']
    ensures ids[i] !in From(es, ids, i + 1)
    ensures From(es, ids, i) == From(es, ids, i + 1)[ids[i] := es[ids[i]]]
  {
    assert ids[i..] == [ids[i]] + ids[i + 1..];
    forall j | i + 1 <= j < |ids| ensures ids[j] != ids[i] { }
  }

  /** Adding an entry whose uid no other entry has adds its uid. */
  lemma UidsAdd(rest: map<int, Entry>, k: int, e: Entry)
    requires k !in rest && UidsDistinct(rest[k := e])
    ensures Uids(rest[k := e]) == Uids(rest) + {e.uid}
    ensures e.uid !in Uids(rest)
  {
    var here := rest[k := e];
    assert e.uid == here[k].uid;
    forall u | u in Uids(here) ensures u in Uids(rest) + {e.uid} {
      var k' :| k' in here && here[k'].uid == u;
      if k' != k { assert rest[k'].uid == u; }
    }
    forall u | u in Uids(rest) ensures u in Uids(here) {
      var k' :| k' in rest && rest[k'].uid == u;
      assert here[k'].uid == u;
    }
    forall k' | k' in rest ensures rest[k'].uid != e.uid {
      assert here[k'] == rest[k'];
    }
  }

  lemma UpdateThenMerge(m: map<int, Entry>, rest: map<int, Entry>, k: int, e: Entry)
    requires k !in rest
    ensures m[k := e] + rest == m + rest[k := e]
  {
  }

  /** An entry as it is read back, before its uid is allocated. */
  function Raw(e: Entry): (r: RawEntry)
    ensures MakeEntry(r, e.uid) == e
  {
    RawEntry(e.entryId, e.tool, e.rect, JInt(e.uid), e.active, e.text, e.meta)
  }

  /** Strictly increasing. */
  predicate Increasing(ids: seq<int>)
  {
    forall j, j' :: 0 <= j < j' < |ids| ==> ids[j] < ids[j']
  }

  /** Items that parse, one by one, as the entries of `es` filed under
      `ids`. */
  ghost predicate EntriesParse(objs: seq<Json>, ids: seq<int>, es: map<int, Entry>)
  {
    && |objs| == |ids|
    && forall j :: 0 <= j < |objs| ==> ids[j] in es && ParseEntry(objs[j]) == Ok(Some(Raw(es[ids[j]])))
  }

  /** Saved entries parse back as themselves, by ascending id. */
  lemma SavedEntriesParse(es: map<int, Entry>, bound: int)
    requires EntriesSavable(es, bound)
    ensures EntriesParse(EntriesJson(es), SortedIds(es.Keys), es)
  {
    var ids := SortedIds(es.Keys);
    forall j | 0 <= j < |ids|
      ensures ParseEntry(EntriesJson(es)[j]) == Ok(Some(Raw(es[ids[j]])))
    {
      EntryRead(es[ids[j]], bound);
    }
  }

  /** The allocator after recording `uid` as a kept request. */
  function Recorded(a: Alloc, uid: int): Alloc
  {
    Alloc(a.counter, Max(a.maxUid, uid), a.used + {uid})
  }

  /** One step of reading entries: an item that parses as `e`, whose uid
      is not recorded yet, is filed with that uid, which is recorded. */
  lemma EntryStep(objs: seq<Json>, i: nat, n: nat, a: Alloc, b: PageBuild, e: Entry)
    requires i < |objs| && AllocInv(a) && IsSquareGrid(b.cells, n)
    requires ParseEntry(objs[i]) == Ok(Some(Raw(e)))
    requires e.uid > 0 && e.uid !in a.used
    ensures AllocInv(Recorded(a, e.uid))
    ensures LoadEntries(objs, i, n, a, b) == LoadEntries(objs, i + 1, n, Recorded(a, e.uid), AddRaw(b, Raw(e), e.uid, n))
  {
    assert RequestedUid(Raw(e).requested) == e.uid;
    assert AllocUid(a, Raw(e).requested) == (Recorded(a, e.uid), e.uid);
  }

  /** What reading the entry at `ids[i]` does to the entries and uids
      still to read: it takes one entry off them, and its uid off theirs;
      that uid is not recorded yet and none of the rest will clash with
      it. */
  lemma EntrySplit(es: map<int, Entry>, ids: seq<int>, i: nat, used: set<int>)
    requires i < |ids| && ids[i] in es && Increasing(ids) && UidsDistinct(es)
    requires Uids(From(es, ids, i)) !! used
    ensures var e := es[ids[i]];
      var rest := From(es, ids, i + 1);
      && ids[i] !in rest
      && From(es, ids, i) == rest[ids[i] := e]
      && e.uid !in used
      && Uids(From(es, ids, i)) == Uids(rest) + {e.uid}
      && Uids(rest) !! used + {e.uid}
  {
    var k := ids[i];
    var rest := From(es, ids, i + 1);
    FromSplit(es, ids, i);
    assert UidsDistinct(rest[k := es[k]]);
    UidsAdd(rest, k, es[k]);
  }

  /** Reading the item at `i`, which parses as the entry at `ids[i]`:
      that entry is filed, its uid recorded, and the entries and uids
      still to read lose it. */
  lemma EntryAdvance(objs: seq<Json>, ids: seq<int>, es: map<int, Entry>, i: nat, n: nat, a: Alloc, b: PageBuild, bound: int)
    requires EntriesParse(objs, ids, es) && Increasing(ids) && i < |objs|
    requires AllocInv(a) && IsSquareGrid(b.cells, n)
    requires EntriesSavable(es, bound) && a.maxUid < bound
    requires Uids(From(es, ids, i)) !! a.used
    ensures var e := es[ids[i]];
      var a1 := Recorded(a, e.uid);
      var b1 := AddRaw(b, Raw(e), e.uid, n);
      && AllocInv(a1) && IsSquareGrid(b1.cells, n)
      && LoadEntries(objs, i, n, a, b) == LoadEntries(objs, i + 1, n, a1, b1)
      && a1.counter == a.counter && a1.maxUid < bound
      && Uids(From(es, ids, i + 1)) !! a1.used
      && a1.used + Uids(From(es, ids, i + 1)) == a.used + Uids(From(es, ids, i))
      && b1.entries + From(es, ids, i + 1) == b.entries + From(es, ids, i)
  {
    var k := ids[i];
    var e := es[k];
    EntrySplit(es, ids, i, a.used);
    EntryStep(objs, i, n, a, b, e);
    var b1 := AddRaw(b, Raw(e), e.uid, n);
    assert b1.entries == b.entries[k := e];
    UpdateThenMerge(b.entries, From(es, ids, i + 1), k, e);
  }

  /** Reading items that parse as the entries of `es` from item `i` on
      files exactly the entries not read yet, keeps each one's uid (none
      of them recorded yet), and leaves the counter where it was. */
  lemma {:induction false} EntriesRead(objs: seq<Json>, ids: seq<int>, es: map<int, Entry>, i: nat, n: nat, a: Alloc, b: PageBuild, bound: int)
    requires EntriesParse(objs, ids, es) && Increasing(ids) && i <= |objs|
    requires AllocInv(a) && IsSquareGrid(b.cells, n)
    requires EntriesSavable(es, bound) && a.maxUid < bound
    requires Uids(From(es, ids, i)) !! a.used
    ensures var r := LoadEntries(objs, i, n, a, b);
      && r.Ok?
      && r.value.1.entries == b.entries + From(es, ids, i)
      && r.value.0.counter == a.counter && r.value.0.maxUid < bound
      && r.value.0.used == a.used + Uids(From(es, ids, i))
    decreases |objs| - i
  {
    if i < |objs| {
      var e := es[ids[i]];
      EntryAdvance(objs, ids, es, i, n, a, b, bound);
      EntriesRead(objs, ids, es, i + 1, n, Recorded(a, e.uid), AddRaw(b, Raw(e), e.uid, n), bound);
    } else {
      assert From(es, ids, i) == map[];
    }
  }

  /** A page item that reads as page `p` under id `pid`: a dict with that
      page id, a background that reads as `p`'s, and an entry list that
      parses as `p`'s entries filed under the increasing ids `eids`, which
      name them all. */
  ghost predicate PageItem(pobj: Json, pid: int, p: PageState, eids: seq<int>, n: nat)
  {
    && pobj.JObj? && PageIdOf(pobj) == Some(pid)
    && PageBackground(pobj, n) == Ok(p.background)
    && GetOr(pobj, "entries", JList([])).JList?
    && EntriesParse(GetOr(pobj, "entries", JList([])).items, eids, p.entries)
    && Increasing(eids) && (forall k :: k in p.entries ==> k in eids)
  }

  /** A saved page is such an item, when its background is what its
      rectangles paint. */
  lemma SavedPageItem(pid: int, p: PageState, rs: seq<Rect>, n: nat, bound: int)
    requires Painted(rs, n) == p.background && EntriesSavable(p.entries, bound)
    ensures PageItem(PageJson(pid, p, rs), pid, p, SortedIds(p.entries.Keys), n)
  {
    var pobj := PageJson(pid, p, rs);
    RectsRead(pobj, rs, n);
    SavedEntriesParse(p.entries, bound);
    assert GetOr(pobj, "entries", JList([])) == JList(EntriesJson(p.entries));
    assert PageIdOf(pobj) == Some(pid);
  }

  /** Ids that name every entry select them all. */
  lemma FromAll(es: map<int, Entry>, ids: seq<int>)
    requires forall k :: k in es ==> k in ids
    ensures From(es, ids, 0) == es && map[] + From(es, ids, 0) == es
  {
    assert ids[0..] == ids;
    var f := From(es, ids, 0);
    forall k
      ensures k in f <==> k in es
    {
      if k in es { assert k in ids[0..]; }
    }
    assert f.Keys == es.Keys;
    assert f == es;
  }

  /** A page's entry list, read from the start with no entries filed,
      files exactly the page's entries and records exactly their uids. */
  lemma PageEntriesRead(objs: seq<Json>, eids: seq<int>, es: map<int, Entry>, n: nat, a: Alloc, bound: int)
    requires EntriesParse(objs, eids, es) && Increasing(eids) && (forall k :: k in es ==> k in eids)
    requires AllocInv(a) && a.maxUid < bound
    requires EntriesSavable(es, bound) && Uids(es) !! a.used
    ensures var r := LoadEntries(objs, 0, n, a, PageBuild(map[], EmptyCells(n), 0));
      && r.Ok? && r.value.1.entries == es
      && r.value.0.counter == a.counter && r.value.0.maxUid < bound
      && r.value.0.used == a.used + Uids(es)
  {
    FromAll(es, eids);
    EntriesRead(objs, eids, es, 0, n, a, PageBuild(map[], EmptyCells(n), 0), bound);
  }

  /** A page item reads back as its page, recording exactly its uids. */
  lemma PageRead(pobj: Json, pid: int, p: PageState, eids: seq<int>, n: nat, a: Alloc, bound: int)
    requires PageItem(pobj, pid, p, eids, n) && p.pageId == pid
    requires AllocInv(a) && a.maxUid < bound
    requires EntriesSavable(p.entries, bound) && Uids(p.entries) !! a.used
    ensures var r := LoadPage(pobj, n, a);
      && r.Ok? && r.value.1 == pid && PageRestored(r.value.2, p)
      && r.value.0.counter == a.counter && r.value.0.maxUid < bound
      && r.value.0.used == a.used + Uids(p.entries)
  {
    PageEntriesRead(GetOr(pobj, "entries", JList([])).items, eids, p.entries, n, a, bound);
  }

  /** Items that read, one by one, as the pages of `d` filed under
      `pids`, each page's entries under its ids in `eids`. */
  ghost predicate PagesParse(items: seq<Json>, pids: seq<int>, eids: map<int, seq<int>>, d: DocState)
  {
    && |items| == |pids|
    && forall j :: 0 <= j < |items| ==>
      pids[j] in d.pages && pids[j] in eids && PageItem(items[j], pids[j], d.pages[pids[j]], eids[pids[j]], d.gridN)
  }

  /** The pages read from item `i` on: each id in `ids[i..]` stored,
      restored from `saved`, and the pages stored before kept. */
  ghost predicate PagesFrom(pages: map<int, PageState>, saved: map<int, PageState>, ids: seq<int>, i: nat, acc: map<int, PageState>)
    requires i <= |ids| && forall j :: 0 <= j < |ids| ==> ids[j] in saved
  {
    && (forall pid :: pid in pages <==> pid in acc || pid in ids[i..])
    && (forall j :: i <= j < |ids| ==> PageRestored(pages[ids[j]], saved[ids[j]]))
    && (forall pid :: pid in acc && pid !in ids[i..] ==> pages[pid] == acc[pid])
  }

  /** Storing the page at `ids[i]` before reading the rest is reading
      from `i` on. */
  lemma PagesFromShift(pages: map<int, PageState>, saved: map<int, PageState>, ids: seq<int>, i: nat, acc: map<int, PageState>, st: PageState)
    requires i < |ids| && forall j :: 0 <= j < |ids| ==> ids[j] in saved
    requires Increasing(ids)
    requires PageRestored(st, saved[ids[i]])
    requires PagesFrom(pages, saved, ids, i + 1, acc[ids[i] := st])
    ensures PagesFrom(pages, saved, ids, i, acc)
  {
    assert ids[i..] == [ids[i]] + ids[i + 1..];
    assert ids[i] !in ids[i + 1..] by {
      forall j | i + 1 <= j < |ids| ensures ids[j] != ids[i] { }
    }
  }

  /** One step of reading pages: the page at `pids[i]` is read restored,
      with exactly its uids recorded. */
  lemma PageStep(items: seq<Json>, pids: seq<int>, eids: map<int, seq<int>>, d: DocState, i: nat, a: Alloc, acc: map<int, PageState>)
    requires PagesParse(items, pids, eids, d) && UidsSavable(d) && i < |items|
    requires AllocInv(a) && a.maxUid < d.nextUid
    requires Uids(d.pages[pids[i]].entries) !! a.used
    ensures var r := LoadPage(items[i], d.gridN, a);
      && r.Ok? && AllocInv(r.value.0)
      && r.value.0.counter == a.counter && r.value.0.maxUid < d.nextUid
      && r.value.0.used == a.used + Uids(d.pages[pids[i]].entries)
      && PageRestored(r.value.2, d.pages[pids[i]])
      && LoadPages(items, i, d.gridN, a, acc) == LoadPages(items, i + 1, d.gridN, r.value.0, acc[pids[i] := r.value.2])
  {
    PageRead(items[i], pids[i], d.pages[pids[i]], eids[pids[i]], d.gridN, a, d.nextUid);
  }

  /** Later pages' uids stay unrecorded when a page's uids are recorded. */
  lemma LaterUidsFree(d: DocState, pids: seq<int>, i: nat, used: set<int>)
    requires UidsSavable(d) && i < |pids| && Increasing(pids)
    requires forall j :: 0 <= j < |pids| ==> pids[j] in d.pages
    requires forall j :: i <= j < |pids| ==> Uids(d.pages[pids[j]].entries) !! used
    ensures forall j :: i + 1 <= j < |pids| ==>
      Uids(d.pages[pids[j]].entries) !! used + Uids(d.pages[pids[i]].entries)
  {
    forall j | i + 1 <= j < |pids|
      ensures Uids(d.pages[pids[j]].entries) !! used + Uids(d.pages[pids[i]].entries)
    {
      assert pids[j] != pids[i];
    }
  }

  /** Reading items that read as the pages of `d` from item `i` on stores
      every page not read yet, restored, keeps the pages stored before,
      and leaves the counter where it was and the largest uid below the
      saved `next_uid`. */
  lemma {:induction false} PagesRead(items: seq<Json>, pids: seq<int>, eids: map<int, seq<int>>, d: DocState, i: nat, a: Alloc, acc: map<int, PageState>)
    requires PagesParse(items, pids, eids, d) && Increasing(pids) && UidsSavable(d) && i <= |items|
    requires AllocInv(a) && a.maxUid < d.nextUid
    requires forall j :: i <= j < |pids| ==> Uids(d.pages[pids[j]].entries) !! a.used
    ensures var r := LoadPages(items, i, d.gridN, a, acc);
      && r.err.None?
      && r.alloc.counter == a.counter && r.alloc.maxUid < d.nextUid
      && PagesFrom(r.pages, d.pages, pids, i, acc)
    decreases |items| - i
  {
    if i < |items| {
      PageStep(items, pids, eids, d, i, a, acc);
      var r0 := LoadPage(items[i], d.gridN, a);
      var a1, st := r0.value.0, r0.value.2;
      LaterUidsFree(d, pids, i, a.used);
      PagesRead(items, pids, eids, d, i + 1, a1, acc[pids[i] := st]);
      var r := LoadPages(items, i + 1, d.gridN, a1, acc[pids[i] := st]);
      PagesFromShift(r.pages, d.pages, pids, i, acc, st);
    } else {
      assert pids[i..] == [];
    }
  }

  /** Reading all the items from the first, with the saved counter,
      stores exactly `d`'s pages, restored, and leaves the counter and
      the largest uid below `d`'s next uid. */
  lemma AllPagesRead(items: seq<Json>, pids: seq<int>, eids: map<int, seq<int>>, d: DocState)
    requires PagesParse(items, pids, eids, d) && Increasing(pids) && UidsSavable(d)
    requires forall pid :: pid in d.pages ==> pid in pids
    requires d.nextUid >= 1
    ensures var out := LoadPages(items, 0, d.gridN, Alloc(d.nextUid, 0, {}), map[]);
      && out.err.None?
      && out.alloc.counter == d.nextUid && out.alloc.maxUid < d.nextUid
      && out.pages.Keys == d.pages.Keys
      && forall pid :: pid in d.pages ==> PageRestored(out.pages[pid], d.pages[pid])
  {
    PagesRead(items, pids, eids, d, 0, Alloc(d.nextUid, 0, {}), map[]);
    var out := LoadPages(items, 0, d.gridN, Alloc(d.nextUid, 0, {}), map[]);
    PagesFromStart(out.pages, d.pages, pids);
  }

  /** Pages read from the first item, with nothing stored before, are
      exactly the saved ones, restored. */
  lemma PagesFromStart(pages: map<int, PageState>, saved: map<int, PageState>, ids: seq<int>)
    requires forall j :: 0 <= j < |ids| ==> ids[j] in saved
    requires forall pid :: pid in saved ==> pid in ids
    requires PagesFrom(pages, saved, ids, 0, map[])
    ensures pages.Keys == saved.Keys
    ensures forall pid :: pid in saved ==> PageRestored(pages[pid], saved[pid])
  {
    assert ids[0..] == ids;
    forall pid
      ensures pid in pages <==> pid in saved
    {
      if pid in saved { assert pid in ids[0..]; }
    }
    assert pages.Keys == saved.Keys;
    forall pid | pid in saved
      ensures PageRestored(pages[pid], saved[pid])
    {
      var j :| 0 <= j < |ids| && ids[j] == pid;
    }
  }

  /** After the header: items that read as all the pages of `d`, and a
      saved counter and start page equal to `d`'s, give back `d`'s pages,
      start page and uid counter. */
  lemma BodyRestores(data: Json, d1: DocState, d: DocState, items: seq<Json>, pids: seq<int>, eids: map<int, seq<int>>)
    requires PagesParse(items, pids, eids, d) && Increasing(pids) && UidsSavable(d) && items != []
    requires forall pid :: pid in d.pages ==> pid in pids
    requires d.startPageId in d.pages && d.nextUid >= 1
    requires StartCounter(data) == d.nextUid && RequestedStart(data) == d.startPageId
    ensures var r := LoadBody(data, d1, d.gridN, items);
      && r.err.None?
      && r.doc.guiName == d1.guiName && r.doc.gridN == d.gridN
      && r.doc.startPageId == d.startPageId && r.doc.nextUid == d.nextUid
      && r.doc.pages.Keys == d.pages.Keys
      && forall pid :: pid in d.pages ==> PageRestored(r.doc.pages[pid], d.pages[pid])
  {
    AllPagesRead(items, pids, eids, d);
  }

  /** The entry ids of every page of `d`, in ascending order. */
  function EntryIds(d: DocState): (r: map<int, seq<int>>)
    ensures r.Keys == d.pages.Keys
  {
    map pid | pid in d.pages :: SortedIds(d.pages[pid].entries.Keys)
  }

  /** What saving wrote reads, page by page, as the pages of `d`. */
  lemma SavedPagesParse(d: DocState, rects: map<int, seq<Rect>>)
    requires DocSavable(d, rects)
    ensures PagesParse(PagesJson(d.pages, rects), SortedIds(d.pages.Keys), EntryIds(d), d)
  {
    var items := PagesJson(d.pages, rects);
    var ids := SortedIds(d.pages.Keys);
    var eids := EntryIds(d);
    forall j | 0 <= j < |items|
      ensures ids[j] in d.pages && ids[j] in eids && PageItem(items[j], ids[j], d.pages[ids[j]], eids[ids[j]], d.gridN)
    {
      SavedPageAt(d, rects, ids[j], items[j]);
    }
  }

  /** The saved item of page `pid` reads as that page. */
  lemma SavedPageAt(d: DocState, rects: map<int, seq<Rect>>, pid: int, item: Json)
    requires DocSavable(d, rects) && pid in d.pages
    requires item == PageJson(pid, d.pages[pid], rects[pid])
    ensures pid in EntryIds(d) && PageItem(item, pid, d.pages[pid], EntryIds(d)[pid], d.gridN)
  {
    SavedPageItem(pid, d.pages[pid], rects[pid], d.gridN, d.nextUid);
  }

  /** The fields saving writes, each under its own key. */
  lemma SavedFields(d: DocState, rects: map<int, seq<Rect>>, packs: seq<string>)
    requires d.pages.Keys <= rects.Keys
    ensures var f := SaveJson(d, rects, packs).fields;
      && "version" in f && f["version"] == JInt(3)
      && "gui_name" in f && f["gui_name"] == JStr(d.guiName)
      && "grid_n" in f && f["grid_n"] == JInt(d.gridN)
      && "start_page_id" in f && f["start_page_id"] == JInt(d.startPageId)
      && "next_uid" in f && f["next_uid"] == JInt(d.nextUid)
      && "pages" in f && f["pages"] == JList(PagesJson(d.pages, rects))
  {
  }

  /** The header saving writes: an object with version 3, the grid
      size, the name, the pages list, and the counter and start page the
      load reads back. */
  lemma SavedHeader(d: DocState, rects: map<int, seq<Rect>>, packs: seq<string>)
    requires d.pages.Keys <= rects.Keys && (d.gridN == 16 || d.gridN == 32) && d.nextUid >= 1
    ensures var data := SaveJson(d, rects, packs);
      && data.JObj? && VersionOk(Get(data, "version"))
      && GridOf(Get(data, "grid_n")) == Some(d.gridN)
      && PagesOf(data) == JList(PagesJson(d.pages, rects))
      && StartCounter(data) == d.nextUid && RequestedStart(data) == d.startPageId
      && GuiNameAfter(data, "") == d.guiName
  {
    var data := SaveJson(d, rects, packs);
    SavedFields(d, rects, packs);
    assert Get(data, "version") == Some(JInt(3));
    assert GetOr(data, "pages", JNull) == JList(PagesJson(d.pages, rects));
    assert GetOr(data, "next_uid", JInt(1)) == JInt(d.nextUid);
    assert GetOr(data, "start_page_id", JInt(1)) == JInt(d.startPageId);
    assert GuiNameAfter(data, "") == d.guiName by {
      if d.guiName == "" { assert Or(JStr(d.guiName), JStr("")) == JStr(""); }
    }
  }

  /** A header that passes hands the pages list to the body of the load. */
  lemma HeaderPasses(data: Json, before: DocState, n: nat, items: seq<Json>)
    requires data.JObj? && VersionOk(Get(data, "version")) && GridOf(Get(data, "grid_n")) == Some(n)
    requires PagesOf(data) == JList(items) && items != []
    ensures Load(data, before) == LoadBody(data, before.(guiName := GuiNameAfter(data, before.guiName)), n, items)
  {
  }

  /** The round trip: loading what saving wrote succeeds and gives back
      the name, grid size, start page, uid counter, page ids, and each
      page's id, background and entries, whatever the editor held
      before. */
  lemma SaveLoadRoundTrip(d: DocState, rects: map<int, seq<Rect>>, packs: seq<string>, before: DocState)
    requires DocSavable(d, rects)
    ensures var r := Load(SaveJson(d, rects, packs), before);
      && r.err.None?
      && r.doc.guiName == d.guiName && r.doc.gridN == d.gridN
      && r.doc.startPageId == d.startPageId && r.doc.nextUid == d.nextUid
      && r.doc.pages.Keys == d.pages.Keys
      && forall pid :: pid in d.pages ==> PageRestored(r.doc.pages[pid], d.pages[pid])
  {
    var data := SaveJson(d, rects, packs);
    var items := PagesJson(d.pages, rects);
    var ids := SortedIds(d.pages.Keys);
    SavedHeader(d, rects, packs);
    SavedPagesParse(d, rects);
    assert d.startPageId in ids;
    assert GuiNameAfter(data, before.guiName) == d.guiName;
    HeaderPasses(data, before, d.gridN, items);
    BodyRestores(data, before.(guiName := d.guiName), d, items, ids, EntryIds(d));
  }
}
