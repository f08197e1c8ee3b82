/** The manifest side of the export: the flat component list regrouped
    per page, and the directory name a skin pack is written under. */
module Manifest {
  import opened JsonValue
  import opened IntSets
  import opened Wrappers
  import opened Components
  import opened ComponentPlan

  // ---------------------------------------------------------------------
  // Pages payload

  /** One page of the manifest: its id and its components, whose offsets
      no longer carry the page. */
  datatype PagePayload = PagePayload(page: int, components: seq<Component>)

  /** The components on page `pid`, in list order (a missing page counts
      as page 0). */
  function OnPage(cs: seq<Component>, pid: int): (r: seq<Component>)
    ensures |r| <= |cs|
    ensures forall c :: c in r <==> c in cs && PageKey(c) == pid
  {
    if cs == [] then []
    else
      var rest := OnPage(cs[..|cs| - 1], pid);
      var c := cs[|cs| - 1];
      assert forall d :: d in cs <==> d in cs[..|cs| - 1] || d == c;
      if PageKey(c) == pid then rest + [c] else rest
  }

  /** The component with `page` deleted from its offset. */
  function DropPage(c: Component): Component
  {
    c.(page := None)
  }

  function DropPages(cs: seq<Component>): (r: seq<Component>)
    ensures |r| == |cs| && forall i :: 0 <= i < |cs| ==> r[i] == DropPage(cs[i])
  {
    seq(|cs|, i requires 0 <= i < |cs| => DropPage(cs[i]))
  }

  /** Ascending ids. */
  predicate IdsAscending(cs: seq<Component>)
  {
    forall i, j :: 0 <= i < j < |cs| ==> cs[i].id <= cs[j].id
  }

  /** A page's components: those on the page, without their page, by id.
      Every component here has lost its page, so `SortComponents`, which
      orders by (page, id), orders them by id as `sort(key=id)` does. */
  function PageComponents(cs: seq<Component>, pid: int): (r: seq<Component>)
    ensures |r| == |OnPage(cs, pid)|
  {
    SortComponents(DropPages(OnPage(cs, pid)))
  }

  /** Within a page the components come in ascending id order, and they
      are exactly the components of that page with the page dropped. */
  lemma PageComponentsSpec(cs: seq<Component>, pid: int)
    ensures IdsAscending(PageComponents(cs, pid))
    ensures multiset(PageComponents(cs, pid)) == multiset(DropPages(OnPage(cs, pid)))
    ensures forall c :: c in PageComponents(cs, pid) ==> c.page.None?
  {
    var dropped := DropPages(OnPage(cs, pid));
    SortComponentsSorted(dropped);
    var r := PageComponents(cs, pid);
    forall c | c in r
      ensures c.page.None?
    {
      assert c in multiset(dropped);
    }
    forall i, j | 0 <= i < j < |r|
      ensures r[i].id <= r[j].id
    {
      assert r[i] in r && r[j] in r;
      assert CompLe(r[i], r[j]);
    }
  }

  /** `_manifest_pages_payload`: group the components by page, then for
      each page id in ascending order emit that page's components without
      their page, sorted by id. Components whose page is not a page of
      the editor are dropped. */
  method ManifestPagesPayload(components: seq<Component>, pageIds: set<int>) returns (payload: seq<PagePayload>)
    ensures |payload| == |pageIds|
    ensures forall i :: 0 <= i < |payload| ==>
      payload[i].page == SortedIds(pageIds)[i] && payload[i].components == PageComponents(components, payload[i].page)
  {
    // Build a lookup by page id.
    var byPage: map<int, seq<Component>> := map[];
    var i := 0;
    while i < |components|
      invariant 0 <= i <= |components|
      invariant forall p :: p in byPage ==> byPage[p] == OnPage(components[..i], p)
      invariant forall p :: p !in byPage ==> OnPage(components[..i], p) == []
    {
      var c := components[i];
      var page := PageKey(c);
      assert components[..i + 1][..i] == components[..i];
      if page in byPage {
        byPage := byPage[page := byPage[page] + [c]];
      } else {
        byPage := byPage[page := [c]];
      }
      i := i + 1;
    }
    assert components[..i] == components;

    var ids := SortedIds(pageIds);
    payload := [];
    var k := 0;
    while k < |ids|
      invariant 0 <= k <= |ids| && |payload| == k
      invariant forall j :: 0 <= j < k ==>
        payload[j].page == ids[j] && payload[j].components == PageComponents(components, payload[j].page)
    {
      var pid := ids[k];
      var onPage := if pid in byPage then byPage[pid] else [];
      assert onPage == OnPage(components, pid);
      var pageComponents := SortComponents(DropPages(onPage));
      assert pageComponents == PageComponents(components, pid);
      payload := payload + [PagePayload(pid, pageComponents)];
      k := k + 1;
    }
  }

  // ---------------------------------------------------------------------
  // Skin directory names

  /** The characters Windows forbids in a path component: `<>:"/\|?*`. */
  predicate IsBad(c: char)
  {
    c == '<' || c == '>' || c == ':' || c == '"' || c == '/' || c == '\\' || c == '|' || c == '?' || c == '*'
  }

  /** Each forbidden character replaced by `_`. */
  function ReplaceBad(s: string): (r: string)
    ensures |r| == |s|
    ensures forall i :: 0 <= i < |s| ==> r[i] == if IsBad(s[i]) then '_' else s[i]
    ensures forall c :: c in r ==> !IsBad(c)
  {
    var r := seq(|s|, i requires 0 <= i < |s| => if IsBad(s[i]) then '_' else s[i]);
    assert forall i :: 0 <= i < |r| ==> !IsBad(r[i]);
    r
  }

  /** `_safe_dir_name`: forbidden characters replaced by `_`, the result
      stripped, and "skin" when nothing is left. The name is never empty,
      holds no forbidden character and has no white space at either end. */
  function SafeDirName(name: string): (r: string)
    ensures r != ""
    ensures forall c :: c in r ==> !IsBad(c)
    ensures !IsSpace(r[0]) && !IsSpace(r[|r| - 1])
    ensures r == if Strip(ReplaceBad(name)) == "" then "skin" else Strip(ReplaceBad(name))
  {
    var replaced := ReplaceBad(name);
    var out := Strip(replaced);
    StripSubset(replaced);
    if out == "" then "skin" else out
  }

  /** A name that is already safe is kept: making it safe twice is making
      it safe once. */
  lemma SafeDirNameIdempotent(name: string)
    ensures SafeDirName(SafeDirName(name)) == SafeDirName(name)
  {
    var r := SafeDirName(name);
    assert ReplaceBad(r) == r;
    StripClean(r);
  }

  /** A name of ordinary characters is kept as it is. */
  lemma SafeNameKept(name: string)
    requires name != "" && !IsSpace(name[0]) && !IsSpace(name[|name| - 1])
    requires forall c :: c in name ==> !IsBad(c)
    ensures SafeDirName(name) == name
  {
    assert ReplaceBad(name) == name;
    StripClean(name);
  }

  /** A name of white space only, in the sense of `str.isspace` (a
      no-break space included), falls back to "skin". */
  lemma BlankNameIsSkin(name: string)
    requires forall i :: 0 <= i < |name| ==> IsSpace(name[i])
    ensures SafeDirName(name) == "skin"
  {
    var replaced := ReplaceBad(name);
    assert forall i :: 0 <= i < |replaced| ==> replaced[i] == name[i];
  }

  /** A forbidden character inside a name becomes `_`: "a/b" gives "a_b". */
  lemma SlashBecomesUnderscore()
    ensures SafeDirName("a/b") == "a_b"
  {
    assert ReplaceBad("a/b") == "a_b";
    StripClean("a_b");
  }

  /** A lone no-break space is blank. */
  lemma NoBreakSpaceIsSkin()
    ensures SafeDirName("\U{A0}") == "skin"
  {
    BlankNameIsSkin("\U{A0}");
  }
}
