/** Page navigation of standard buttons: the `page_change` settings in an
    entry's metadata resolve to the page the button opens, or to closing
    the GUI. */
module Navigation {
  import opened Wrappers
  import opened JsonValue
  import opened Geometry
  import opened IntSets

  /** `ent.meta` when it is a dict, else `{}`. */
  function MetaOf(ent: Entry): (m: Json)
    ensures m.JObj?
    ensures ent.meta.JObj? ==> m == ent.meta
    ensures !ent.meta.JObj? ==> m.fields == map[]
  {
    if ent.meta.JObj? then ent.meta else JObj(map[])
  }

  /** `meta.get("page_change")`. */
  function PageChange(ent: Entry): Json
  {
    GetOr(MetaOf(ent), "page_change", JNull)
  }

  /** The page-change modes a button can have; any other string is kept
      as `OtherMode` and opens nothing. */
  datatype PageMode = NoMode | Close | Goto | Next | Prev | OtherMode(name: string)

  /** `str(page_change.get("mode", "none"))`, classified. */
  function Mode(pc: Json): (m: PageMode)
    ensures Get(pc, "mode").None? ==> m == NoMode
    ensures ModeName(m) == PyStr(GetOr(pc, "mode", JStr("none")))
    ensures m.OtherMode? ==> m.name !in {"none", "close", "goto", "next", "prev"}
  {
    var s := PyStr(GetOr(pc, "mode", JStr("none")));
    if s == "none" then NoMode
    else if s == "close" then Close
    else if s == "goto" then Goto
    else if s == "next" then Next
    else if s == "prev" then Prev
    else OtherMode(s)
  }

  /** The name a mode is written with. */
  function ModeName(m: PageMode): string
  {
    match m
    case NoMode => "none"
    case Close => "close"
    case Goto => "goto"
    case Next => "next"
    case Prev => "prev"
    case OtherMode(name) => name
  }

  /** `bool(page_change.get("modulo", False))`. */
  function Modulo(pc: Json): (wrap: bool)
    ensures Get(pc, "modulo").None? ==> !wrap
    ensures Get(pc, "modulo").Some? ==> wrap == Truthy(Get(pc, "modulo").value)
  {
    Truthy(GetOr(pc, "modulo", JBool(false)))
  }

  /** `_resolved_open_page_for_button`: the page a standard button on page
      `pid` opens, given the ids of all pages. "goto" opens its target when
      that page exists; "next" and "prev" step through the ascending page
      ids, wrapping around when `modulo` is set; anything else opens
      nothing. Only existing pages are ever opened. */
  function ResolvedOpenPage(pid: int, ent: Entry, pages: set<int>): (r: Option<int>)
    ensures r.Some? ==> r.value in pages && ent.tool == ButtonStandard && PageChange(ent).JObj?
  {
    if ent.tool != ButtonStandard then None
    else
      var pc := PageChange(ent);
      if !pc.JObj? then None
      else ResolveMode(pid, pc, pages)
  }

  /** The mode dispatch of `ResolvedOpenPage` for a `page_change` dict. */
  function ResolveMode(pid: int, pc: Json, pages: set<int>): (r: Option<int>)
    ensures r.Some? ==> r.value in pages
  {
    var mode := Mode(pc);
    if pages == {} || mode == NoMode || mode == Close then None
    else if mode == Goto then
      match ToInt(GetOr(pc, "target_page_id", JInt(pid)))
      case None => None
      case Some(t) => if t in pages then Some(t) else None
    else if mode == Next || mode == Prev then StepFrom(pid, pages, mode == Next, Modulo(pc))
    else None
  }

  /** "next" (`forward`) or "prev" from page `pid` through the ascending
      page ids; nothing when `pid` is not a page. */
  function StepFrom(pid: int, pages: set<int>, forward: bool, wrap: bool): (r: Option<int>)
    ensures r.Some? ==> r.value in pages
  {
    if pid !in pages then None
    else
      var ids := SortedIds(pages);
      Step(ids, IndexOf(ids, pid), forward, wrap)
  }

  /** One step forward or back from position `cur` of `ids`, wrapping
      around or giving nothing past either end. */
  function Step(ids: seq<int>, cur: int, forward: bool, wrap: bool): (r: Option<int>)
    requires 0 <= cur < |ids|
    ensures r.Some? ==> r.value in ids
  {
    var ni := if forward then cur + 1 else cur - 1;
    if wrap then Some(ids[ni % |ids|])
    else if ni < 0 || ni >= |ids| then None
    else Some(ids[ni])
  }

  /** `_close_gui_for_button`: a standard button whose mode is "close". */
  function CloseGuiFor(ent: Entry): (close: bool)
    ensures close ==> ent.tool == ButtonStandard && PageChange(ent).JObj?
    ensures ent.tool == ButtonStandard && PageChange(ent).JObj? ==>
      (close <==> PyStr(GetOr(PageChange(ent), "mode", JStr("none"))) == "close")
  {
    ent.tool == ButtonStandard && PageChange(ent).JObj? && Mode(PageChange(ent)) == Close
  }

  /** A button either closes the GUI or opens a page, never both. */
  lemma CloseOpensNothing(pid: int, ent: Entry, pages: set<int>)
    requires CloseGuiFor(ent)
    ensures ResolvedOpenPage(pid, ent, pages) == None
  {
  }

  /** Modes "none" and "close", and every mode but "goto", "next" and
      "prev", open nothing. */
  lemma OtherModesOpenNothing(pid: int, ent: Entry, pages: set<int>)
    requires PageChange(ent).JObj?
    requires Mode(PageChange(ent)) !in {Goto, Next, Prev}
    ensures ResolvedOpenPage(pid, ent, pages) == None
  {
  }

  /** "goto" opens its target exactly when the target page exists. */
  lemma GotoOpensExisting(pid: int, ent: Entry, pages: set<int>, t: int)
    requires ent.tool == ButtonStandard && PageChange(ent).JObj? && Mode(PageChange(ent)) == Goto
    requires ToInt(GetOr(PageChange(ent), "target_page_id", JInt(pid))) == Some(t)
    ensures ResolvedOpenPage(pid, ent, pages) == Some(t) <==> t in pages
    ensures t !in pages ==> ResolvedOpenPage(pid, ent, pages) == None
  {
  }

  /** The least page id above `pid`. */
  predicate IsSuccessor(q: int, pid: int, pages: set<int>)
  {
    q in pages && pid < q && forall p :: p in pages && pid < p ==> q <= p
  }

  /** The greatest page id below `pid`. */
  predicate IsPredecessor(q: int, pid: int, pages: set<int>)
  {
    q in pages && q < pid && forall p :: p in pages && p < pid ==> p <= q
  }

  /** In ascending ids the element after `pid` is its successor. */
  lemma NextIdIsSuccessor(ids: seq<int>, pages: set<int>, i: int)
    requires ids == SortedIds(pages) && 0 <= i < |ids| - 1
    ensures IsSuccessor(ids[i + 1], ids[i], pages)
  {
    forall p | p in pages && ids[i] < p
      ensures ids[i + 1] <= p
    {
      assert p in ids;
      var k :| 0 <= k < |ids| && ids[k] == p;
      assert i < k;
    }
  }

  /** In ascending ids the element before `pid` is its predecessor. */
  lemma PrevIdIsPredecessor(ids: seq<int>, pages: set<int>, i: int)
    requires ids == SortedIds(pages) && 0 < i < |ids|
    ensures IsPredecessor(ids[i - 1], ids[i], pages)
  {
    forall p | p in pages && p < ids[i]
      ensures p <= ids[i - 1]
    {
      assert p in ids;
      var k :| 0 <= k < |ids| && ids[k] == p;
      assert k < i;
    }
  }

  /** "next" and "prev" buttons step through the page ids. */
  lemma ResolvedStep(pid: int, ent: Entry, pages: set<int>)
    requires ent.tool == ButtonStandard && PageChange(ent).JObj?
    requires Mode(PageChange(ent)) == Next || Mode(PageChange(ent)) == Prev
    ensures ResolvedOpenPage(pid, ent, pages) ==
      StepFrom(pid, pages, Mode(PageChange(ent)) == Next, Modulo(PageChange(ent)))
  {
  }

  /** Without wrap-around, "next" opens the next higher page id, and
      nothing on the last page. */
  lemma NextWithoutWrap(pid: int, pages: set<int>)
    requires pid in pages
    ensures StepFrom(pid, pages, true, false).Some? <==> exists q :: IsSuccessor(q, pid, pages)
    ensures StepFrom(pid, pages, true, false).Some? ==> IsSuccessor(StepFrom(pid, pages, true, false).value, pid, pages)
  {
    var ids := SortedIds(pages);
    var cur := IndexOf(ids, pid);
    if cur + 1 < |ids| {
      NextIdIsSuccessor(ids, pages, cur);
    } else {
      NoSuccessorAtEnd(ids, pages, cur);
    }
  }

  /** Without wrap-around, "prev" opens the next lower page id, and
      nothing on the first page. */
  lemma PrevWithoutWrap(pid: int, pages: set<int>)
    requires pid in pages
    ensures StepFrom(pid, pages, false, false).Some? <==> exists q :: IsPredecessor(q, pid, pages)
    ensures StepFrom(pid, pages, false, false).Some? ==> IsPredecessor(StepFrom(pid, pages, false, false).value, pid, pages)
  {
    var ids := SortedIds(pages);
    var cur := IndexOf(ids, pid);
    if cur > 0 {
      PrevIdIsPredecessor(ids, pages, cur);
    } else {
      NoPredecessorAtStart(ids, pages);
    }
  }

  lemma NoSuccessorAtEnd(ids: seq<int>, pages: set<int>, cur: int)
    requires ids == SortedIds(pages) && cur == |ids| - 1 && cur >= 0
    ensures !exists q :: IsSuccessor(q, ids[cur], pages)
  {
    forall q | q in pages
      ensures q <= ids[cur]
    {
      assert q in ids;
      var k :| 0 <= k < |ids| && ids[k] == q;
      if k < cur {
        assert ids[k] < ids[cur];
      }
    }
  }

  lemma NoPredecessorAtStart(ids: seq<int>, pages: set<int>)
    requires ids == SortedIds(pages) && |ids| > 0
    ensures !exists q :: IsPredecessor(q, ids[0], pages)
  {
    forall q | q in pages
      ensures ids[0] <= q
    {
      assert q in ids;
      var k :| 0 <= k < |ids| && ids[k] == q;
      if k > 0 {
        assert ids[0] < ids[k];
      }
    }
  }

  /** The wrapped step from position `cur`. */
  lemma WrapIndex(ids: seq<int>, cur: int)
    requires 0 <= cur < |ids|
    ensures Step(ids, cur, true, true) == Some(if cur + 1 < |ids| then ids[cur + 1] else ids[0])
    ensures Step(ids, cur, false, true) == Some(if cur > 0 then ids[cur - 1] else ids[|ids| - 1])
  {
    var n := |ids|;
    if cur + 1 < n {
      assert (cur + 1) % n == cur + 1;
    } else {
      assert (cur + 1) % n == 0;
    }
    if cur > 0 {
      assert (cur - 1) % n == cur - 1;
    } else {
      assert (cur - 1) % n == n - 1;
    }
  }

  /** With wrap-around, "next" opens the next higher page id, and the
      lowest page id on the highest page. */
  lemma NextWithWrap(pid: int, pages: set<int>)
    requires pid in pages
    ensures StepFrom(pid, pages, true, true).Some?
    ensures (exists q :: IsSuccessor(q, pid, pages)) ==> IsSuccessor(StepFrom(pid, pages, true, true).value, pid, pages)
    ensures (!exists q :: IsSuccessor(q, pid, pages)) ==> IsMin(StepFrom(pid, pages, true, true).value, pages)
  {
    var ids := SortedIds(pages);
    var cur := IndexOf(ids, pid);
    WrapIndex(ids, cur);
    if cur + 1 < |ids| {
      NextIdIsSuccessor(ids, pages, cur);
    } else {
      NoSuccessorAtEnd(ids, pages, cur);
      FirstIsMin(ids, pages);
    }
  }

  /** With wrap-around, "prev" opens the next lower page id, and the
      highest page id on the lowest page. */
  lemma PrevWithWrap(pid: int, pages: set<int>)
    requires pid in pages
    ensures StepFrom(pid, pages, false, true).Some?
    ensures (exists q :: IsPredecessor(q, pid, pages)) ==> IsPredecessor(StepFrom(pid, pages, false, true).value, pid, pages)
    ensures (!exists q :: IsPredecessor(q, pid, pages)) ==> IsMax(StepFrom(pid, pages, false, true).value, pages)
  {
    var ids := SortedIds(pages);
    var cur := IndexOf(ids, pid);
    WrapIndex(ids, cur);
    if cur > 0 {
      PrevIdIsPredecessor(ids, pages, cur);
    } else {
      NoPredecessorAtStart(ids, pages);
      LastIsMax(ids, pages);
    }
  }

  /** `m` is the greatest member of `s`. */
  predicate IsMax(m: int, s: set<int>)
  {
    m in s && forall x :: x in s ==> x <= m
  }

  lemma FirstIsMin(ids: seq<int>, pages: set<int>)
    requires ids == SortedIds(pages) && |ids| > 0
    ensures IsMin(ids[0], pages)
  {
    forall x | x in pages
      ensures ids[0] <= x
    {
      assert x in ids;
      var k :| 0 <= k < |ids| && ids[k] == x;
      if k > 0 {
        assert ids[0] < ids[k];
      }
    }
  }

  lemma LastIsMax(ids: seq<int>, pages: set<int>)
    requires ids == SortedIds(pages) && |ids| > 0
    ensures IsMax(ids[|ids| - 1], pages)
  {
    forall x | x in pages
      ensures x <= ids[|ids| - 1]
    {
      assert x in ids;
      var k :| 0 <= k < |ids| && ids[k] == x;
      if k < |ids| - 1 {
        assert ids[k] < ids[|ids| - 1];
      }
    }
  }
}
