/** Per-entry decisions of the component export: the type name the
    consumer sees, whether an entry gets its own texture block, which atlas
    module fills each quadrant of that 2x2 block and where the quadrants
    sit, the hover tooltip text and the items of a scroll list. */
module Components {
  import opened Wrappers
  import opened JsonValue
  import opened Geometry
  import opened Navigation

  // ---------------------------------------------------------------------
  // Component type names

  /** `_component_type_for_tool`: the consumer's name for a tool; tools
      without a name of their own keep their enum value. */
  function ComponentTypeFor(t: Tool): (r: string)
    ensures r != ""
    ensures r == "scroll_list" <==> t == SelectList
    ensures r == "toggle_button" <==> t == ButtonToggle
    ensures r == "button" <==> t == ButtonStandard
  {
    match t
    case ButtonStandard => "button"
    case ButtonToggle => "toggle_button"
    case TextSlot => "label"
    case TextEntry => "text_field"
    case SelectList => "scroll_list"
    case ItemSlot => "item_slot"
    case Background => ToolValue(Background)
    case ButtonPress => ToolValue(ButtonPress)
  }

  /** Distinct tools get distinct type names. */
  lemma ComponentTypeInjective(a: Tool, b: Tool)
    ensures ComponentTypeFor(a) == ComponentTypeFor(b) ==> a == b
  {
  }

  // ---------------------------------------------------------------------
  // Atlas modules and the export decision

  /** The per-tool variant -> atlas module table (`ENTRY_TOOL_MODULES`),
      loaded from the configuration. */
  type ModuleTable = map<Tool, map<string, string>>

  /** `ENTRY_TOOL_MODULES.get(tool) or {}`. */
  function ModulesFor(tool: Tool, table: ModuleTable): (mods: map<string, string>)
    ensures tool !in table ==> mods == map[]
    ensures tool in table ==> mods == table[tool]
  {
    if tool in table then table[tool] else map[]
  }

  /** `modules.get(key)`. */
  function Lookup(mods: map<string, string>, key: string): (r: Option<string>)
    ensures r.Some? <==> key in mods
  {
    if key in mods then Some(mods[key]) else None
  }

  /** Python's `a or b` on two optional module names: `a` unless it is
      missing or empty. */
  function OrElse(a: Option<string>, b: Option<string>): (r: Option<string>)
    ensures a.Some? && a.value != "" ==> r == a
    ensures !(a.Some? && a.value != "") ==> r == b
  {
    if a.Some? && a.value != "" then a else b
  }

  predicate NonEmpty(o: Option<string>)
  {
    o.Some? && o.value != ""
  }

  /** The module of the base visual: `base`, or for toggle buttons
      `unpressed` falling back to `base`. */
  function BaseModule(tool: Tool, mods: map<string, string>): (r: Option<string>)
    ensures tool != ButtonToggle ==> r == Lookup(mods, "base")
    ensures tool == ButtonToggle && NonEmpty(Lookup(mods, "unpressed")) ==> r == Lookup(mods, "unpressed")
    ensures tool == ButtonToggle && !NonEmpty(Lookup(mods, "unpressed")) ==> r == Lookup(mods, "base")
  {
    if tool != ButtonToggle then Lookup(mods, "base")
    else OrElse(Lookup(mods, "unpressed"), Lookup(mods, "base"))
  }

  /** `key` is mapped, to a module other than `base`. */
  predicate MappedElsewhere(mods: map<string, string>, key: string, base: string)
  {
    key in mods && mods[key] != base
  }

  /** `_entry_requires_component_export`: only buttons with a base module
      get a texture block of their own; a toggle button always does, a
      standard button only when its hover or locked variant is mapped to
      another module. */
  function EntryRequiresComponentExport(tool: Tool, table: ModuleTable): (r: bool)
    ensures r ==> (tool == ButtonStandard || tool == ButtonToggle) && NonEmpty(BaseModule(tool, ModulesFor(tool, table)))
    ensures tool == ButtonToggle ==> (r <==> NonEmpty(BaseModule(tool, ModulesFor(tool, table))))
    ensures tool == ButtonStandard && NonEmpty(BaseModule(tool, ModulesFor(tool, table))) ==>
      (r <==> exists key :: key in {"hover", "locked"} &&
                 MappedElsewhere(ModulesFor(tool, table), key, BaseModule(tool, ModulesFor(tool, table)).value))
  {
    if tool == Background then false
    else if tool != ButtonStandard && tool != ButtonToggle then false
    else
      var mods := ModulesFor(tool, table);
      var baseModule := BaseModule(tool, mods);
      if !NonEmpty(baseModule) then false
      else if tool == ButtonToggle then true
      else
        var base := baseModule.value;
        assert "hover" in {"hover", "locked"} && "locked" in {"hover", "locked"};
        MappedElsewhere(mods, "hover", base) || MappedElsewhere(mods, "locked", base)
  }

  // ---------------------------------------------------------------------
  // The 2x2 texture block

  /** The four quadrants of a texture block, each the component's own size. */
  datatype Quadrant = TopLeft | BottomLeft | TopRight | BottomRight

  /** Where a quadrant's copy lands in a block of `w` by `h` pixel cells:
      the `-to` offsets of `_compose_component_block`. */
  function QuadrantOffset(q: Quadrant, w: int, h: int): (int, int)
  {
    match q
    case TopLeft => (0, 0)
    case BottomLeft => (0, h)
    case TopRight => (w, 0)
    case BottomRight => (w, h)
  }

  /** The quadrant holding pixel `(px, py)` of a block of `w` by `h` cells. */
  function QuadrantAt(px: int, py: int, w: int, h: int): Quadrant
  {
    if px < w then (if py < h then TopLeft else BottomLeft)
    else (if py < h then TopRight else BottomRight)
  }

  /** Pixel `(px, py)` lies in the `w` by `h` cell copied to quadrant `q`. */
  predicate InQuadrant(px: int, py: int, q: Quadrant, w: int, h: int)
  {
    var (ox, oy) := QuadrantOffset(q, w, h);
    ox <= px < ox + w && oy <= py < oy + h
  }

  /** The four quadrants tile the `2w` by `2h` block: each pixel lies in
      exactly one of them, so no copy overwrites another. */
  lemma QuadrantsTile(px: int, py: int, w: int, h: int, q: Quadrant)
    requires w > 0 && h > 0 && 0 <= px < 2 * w && 0 <= py < 2 * h
    ensures InQuadrant(px, py, q, w, h) <==> q == QuadrantAt(px, py, w, h)
  {
  }

  /** The module composed into each quadrant (`None`: no module, the copy
      falls back to another variant's image). */
  datatype BlockModules = BlockModules(topLeft: Option<string>, bottomLeft: Option<string>,
                                       topRight: Option<string>, bottomRight: Option<string>)

  function ModuleAt(b: BlockModules, q: Quadrant): Option<string>
  {
    match q
    case TopLeft => b.topLeft
    case BottomLeft => b.bottomLeft
    case TopRight => b.topRight
    case BottomRight => b.bottomRight
  }

  /** The module choice of `_compose_component_block` for a standard button
      (base | locked over hover | locked_hover, each falling back to base,
      locked_hover to locked) and for a toggle button (unpressed | pressed
      over hover | disabled, where hover follows the active state and the
      disabled module the locked flag). */
  function BlockModulesFor(tool: Tool, mods: map<string, string>, active: bool, locked: bool): (r: Option<BlockModules>)
    ensures r.Some? <==> NonEmpty(BaseModule(tool, mods))
    ensures r.Some? ==> r.value.topLeft == BaseModule(tool, mods)
    // Standard button: each variant falls back to base, locked_hover to locked,
    // so no quadrant is left without a module.
    ensures r.Some? && tool == ButtonStandard ==>
      && r.value.bottomLeft == (if NonEmpty(Lookup(mods, "hover")) then Lookup(mods, "hover") else r.value.topLeft)
      && r.value.topRight == (if NonEmpty(Lookup(mods, "locked")) then Lookup(mods, "locked") else r.value.topLeft)
      && r.value.bottomRight == (if NonEmpty(Lookup(mods, "locked_hover")) then Lookup(mods, "locked_hover") else r.value.topRight)
      && NonEmpty(r.value.bottomLeft) && NonEmpty(r.value.topRight) && NonEmpty(r.value.bottomRight)
    // Toggle button: pressed is `base` or the unpressed base; hover follows the
    // active state; the disabled quadrant is the locked variant of the current
    // state when locked, else the first mapped locked variant, else pressed.
    ensures r.Some? && tool == ButtonToggle ==>
      var hoverKey := if active then "hover_base" else "hover_unpressed";
      && r.value.topRight == (if NonEmpty(Lookup(mods, "base")) then Lookup(mods, "base") else r.value.topLeft)
      && r.value.bottomLeft == (if NonEmpty(Lookup(mods, hoverKey)) then Lookup(mods, hoverKey) else r.value.topLeft)
      && NonEmpty(r.value.topRight) && NonEmpty(r.value.bottomLeft)
      && (locked ==> r.value.bottomRight == Lookup(mods, if active then "pressed_locked" else "unpressed_locked"))
      && (!locked ==>
            r.value.bottomRight == (if NonEmpty(Lookup(mods, "pressed_locked")) then Lookup(mods, "pressed_locked")
                                    else if NonEmpty(Lookup(mods, "unpressed_locked")) then Lookup(mods, "unpressed_locked")
                                    else r.value.topRight))
      && (!locked ==> NonEmpty(r.value.bottomRight))
    // Any other tool shows its base in all four quadrants.
    ensures r.Some? && tool != ButtonStandard && tool != ButtonToggle ==>
      r.value == BlockModules(r.value.topLeft, r.value.topLeft, r.value.topLeft, r.value.topLeft)
  {
    var base := BaseModule(tool, mods);
    if !NonEmpty(base) then None
    else if tool == ButtonStandard then
      var locked := OrElse(Lookup(mods, "locked"), base);
      Some(BlockModules(
        base,
        OrElse(Lookup(mods, "hover"), base),
        locked,
        OrElse(Lookup(mods, "locked_hover"), locked)))
    else if tool == ButtonToggle then
      var pressed := OrElse(Lookup(mods, "base"), base);
      var hover := OrElse(Lookup(mods, if active then "hover_base" else "hover_unpressed"), base);
      var disabled :=
        if locked then Lookup(mods, if active then "pressed_locked" else "unpressed_locked")
        else OrElse(Lookup(mods, "pressed_locked"), OrElse(Lookup(mods, "unpressed_locked"), pressed));
      Some(BlockModules(base, hover, pressed, disabled))
    else
      Some(BlockModules(base, base, base, base))
  }

  /** A standard button left out of the component export shows its base
      module in the base, hover and locked quadrants alike, so the page
      background loses nothing by baking it in. Only `locked_hover` is not
      consulted by the export decision. */
  lemma UnexportedButtonLooksAlike(table: ModuleTable, active: bool, locked: bool)
    requires NonEmpty(BaseModule(ButtonStandard, ModulesFor(ButtonStandard, table)))
    requires !EntryRequiresComponentExport(ButtonStandard, table)
    ensures var b := BlockModulesFor(ButtonStandard, ModulesFor(ButtonStandard, table), active, locked).value;
      && b.topLeft == BaseModule(ButtonStandard, ModulesFor(ButtonStandard, table))
      && b.bottomLeft == b.topLeft && b.topRight == b.topLeft
  {
    var mods := ModulesFor(ButtonStandard, table);
    var base := BaseModule(ButtonStandard, mods);
    assert !MappedElsewhere(mods, "hover", base.value) by {
      assert "hover" in {"hover", "locked"};
    }
    assert !MappedElsewhere(mods, "locked", base.value) by {
      assert "locked" in {"hover", "locked"};
    }
  }

  // ---------------------------------------------------------------------
  // Hover tooltip text

  /** `meta.get("hover")`. */
  function HoverOf(ent: Entry): (h: Json)
    ensures Get(MetaOf(ent), "hover").None? ==> h.JNull?
    ensures Get(MetaOf(ent), "hover").Some? ==> h == Get(MetaOf(ent), "hover").value
  {
    GetOr(MetaOf(ent), "hover", JNull)
  }

  /** `_hover_text_enabled_for`: the hover settings are a dict whose
      `enabled` is truthy. */
  function HoverTextEnabled(ent: Entry): (enabled: bool)
    ensures enabled ==> HoverOf(ent).JObj? && "enabled" in HoverOf(ent).fields
    ensures HoverOf(ent).JObj? && "enabled" in HoverOf(ent).fields ==>
      (enabled <==> Truthy(HoverOf(ent).fields["enabled"]))
  {
    HoverOf(ent).JObj? && Truthy(GetOr(HoverOf(ent), "enabled", JBool(false)))
  }

  /** `_hover_text_for`: the custom hover text, stripped. */
  function HoverTextFor(ent: Entry): (r: string)
    ensures r == [] || (!IsSpace(r[0]) && !IsSpace(r[|r| - 1]))
    ensures !HoverOf(ent).JObj? ==> r == ""
    ensures HoverOf(ent).JObj? && "text" !in HoverOf(ent).fields ==> r == ""
  {
    if !HoverOf(ent).JObj? then ""
    else Strip(PyStr(GetOr(HoverOf(ent), "text", JStr(""))))
  }

  /** A hover text `s` is shown as `s.strip()` (whose characterisation
      `Strip` carries): unchanged when it has no outer white space, and
      empty when it is all white space. */
  lemma HoverTextStripped(ent: Entry, s: string)
    requires HoverOf(ent).JObj? && GetOr(HoverOf(ent), "text", JStr("")) == JStr(s)
    ensures HoverTextFor(ent) == Strip(s)
    ensures (s == [] || (!IsSpace(s[0]) && !IsSpace(s[|s| - 1]))) ==> HoverTextFor(ent) == s
    ensures (forall i :: 0 <= i < |s| ==> IsSpace(s[i])) ==> HoverTextFor(ent) == ""
  {
    assert PyStr(JStr(s)) == s;
    if s == [] || (!IsSpace(s[0]) && !IsSpace(s[|s| - 1])) {
      StripClean(s);
    }
  }

  /** How a "next", "prev" or "goto" action's `modulo` flag is shown. */
  function WrapText(pc: Json): (r: string)
    ensures r == "wrap" <==> Modulo(pc)
    ensures r == "wrap" || r == "no-wrap"
  {
    if Modulo(pc) then "wrap" else "no-wrap"
  }

  /** `_format_button_hover_details`: a toggle's state, or a standard
      button's page action. "goto" shows its target, page 1 when the
      target is missing or not a number. */
  function ButtonHoverDetails(ent: Entry): (r: string)
    ensures ent.tool == ButtonStandard || ent.tool == ButtonToggle ==> r != ""
  {
    if ent.tool == ButtonToggle then "Toggle: " + (if ent.active then "ON" else "OFF")
    else if ent.tool == ButtonStandard then "Standard: " + StandardAction(PageChange(ent))
    else ""
  }

  /** What a standard button's details say after "Standard: ". */
  function StandardAction(pc: Json): string
  {
    if !pc.JObj? then "action=none"
    else
      match Mode(pc)
      case Close => "action=close_gui"
      case Goto =>
        var target := match ToInt(GetOr(pc, "target_page_id", JInt(1))) case Some(t) => t case None => 1;
        "goto page " + IntToString(target) + " (" + WrapText(pc) + ")"
      case Next => "next (" + WrapText(pc) + ")"
      case Prev => "prev (" + WrapText(pc) + ")"
      case _ => "action=none"
  }

  /** `_format_hover_tooltip_text`: the custom text when there is one,
      else a description generated from the tool. Never empty. */
  function FormatHoverTooltipText(ent: Entry): (r: string)
    ensures r != ""
    ensures HoverTextFor(ent) != "" ==> r == HoverTextFor(ent)
    ensures HoverTextFor(ent) == "" && (ent.tool == ButtonStandard || ent.tool == ButtonToggle) ==> r == ButtonHoverDetails(ent)
    ensures HoverTextFor(ent) == "" && ent.tool == TextEntry ==>
      r == if ent.text != "" then "Text entry: " + ent.text else "Text entry"
    ensures HoverTextFor(ent) == "" && ent.tool == SelectList ==>
      r == if ent.text != "" then "Select: " + ent.text else "Select list"
    ensures HoverTextFor(ent) == "" && ent.tool == TextSlot ==> r == "Text slot"
    ensures HoverTextFor(ent) == "" && ent.tool == ItemSlot ==> r == "Item slot"
    ensures HoverTextFor(ent) == "" && ent.tool in {Background, ButtonPress} ==> r == ToolValue(ent.tool)
  {
    var custom := HoverTextFor(ent);
    if custom != "" then custom
    else if ent.tool == ButtonStandard || ent.tool == ButtonToggle then ButtonHoverDetails(ent)
    else if ent.tool == TextEntry then (if ent.text != "" then "Text entry: " + ent.text else "Text entry")
    else if ent.tool == SelectList then (if ent.text != "" then "Select: " + ent.text else "Select list")
    else if ent.tool == TextSlot then "Text slot"
    else if ent.tool == ItemSlot then "Item slot"
    else ToolValue(ent.tool)
  }

  /** `text` begins with `p`. */
  predicate StartsWith(text: string, p: string)
  {
    |p| <= |text| && text[..|p|] == p
  }

  /** A toggle button's details show its state: "ON" exactly when it is
      active. */
  lemma ToggleDetails(ent: Entry)
    requires ent.tool == ButtonToggle
    ensures ButtonHoverDetails(ent) == "Toggle: ON" <==> ent.active
    ensures ButtonHoverDetails(ent) == "Toggle: OFF" <==> !ent.active
  {
  }

  /** A standard button's details are "Standard: " followed by its action
      text, and that text names a "goto", "next" or "prev" action exactly
      when the button's mode is that one (`ActionNamesMode`). */
  lemma ButtonDetailsNameMode(ent: Entry)
    requires ent.tool == ButtonStandard
    ensures ButtonHoverDetails(ent) == "Standard: " + StandardAction(PageChange(ent))
    ensures StartsWith(StandardAction(PageChange(ent)), "goto page ") <==>
      PageChange(ent).JObj? && Mode(PageChange(ent)) == Goto
    ensures StartsWith(StandardAction(PageChange(ent)), "next (") <==>
      PageChange(ent).JObj? && Mode(PageChange(ent)) == Next
    ensures StartsWith(StandardAction(PageChange(ent)), "prev (") <==>
      PageChange(ent).JObj? && Mode(PageChange(ent)) == Prev
  {
    ActionNamesMode(PageChange(ent));
  }

  /** The action text begins with the name of a page action exactly when
      that is the mode. */
  lemma ActionNamesMode(pc: Json)
    ensures StartsWith(StandardAction(pc), "goto page ") <==> pc.JObj? && Mode(pc) == Goto
    ensures StartsWith(StandardAction(pc), "next (") <==> pc.JObj? && Mode(pc) == Next
    ensures StartsWith(StandardAction(pc), "prev (") <==> pc.JObj? && Mode(pc) == Prev
  {
    var a := StandardAction(pc);
    ActionLetterOf(pc);
    if StartsWith(a, "goto page ") {
      assert a[0] == a[..10][0] == 'g';
    }
    if StartsWith(a, "next (") {
      assert a[0] == a[..6][0] == 'n';
    }
    if StartsWith(a, "prev (") {
      assert a[0] == a[..6][0] == 'p';
    }
  }

  /** "action=close_gui" is shown exactly for a button that closes the GUI,
      and "action=none" only for one that neither closes the GUI nor opens
      a page. */
  lemma ButtonDetailsNoPage(pid: int, ent: Entry, pages: set<int>)
    requires ent.tool == ButtonStandard
    ensures StandardAction(PageChange(ent)) == "action=close_gui" <==> CloseGuiFor(ent)
    ensures StandardAction(PageChange(ent)) == "action=none" ==>
      ResolvedOpenPage(pid, ent, pages) == None && !CloseGuiFor(ent)
  {
    var pc := PageChange(ent);
    var a := StandardAction(pc);
    ActionLetterOf(pc);
    if a == "action=close_gui" || a == "action=none" {
      assert a[0] == 'a';
    }
  }

  /** The first letter of a standard button's action text, which tells the
      page actions apart: 'g', 'n' or 'p', and 'a' ("action=") otherwise. */
  function ActionLetter(pc: Json): char
  {
    if !pc.JObj? then 'a'
    else match Mode(pc)
      case Goto => 'g'
      case Next => 'n'
      case Prev => 'p'
      case _ => 'a'
  }

  lemma ActionLetterOf(pc: Json)
    ensures StandardAction(pc) != [] && StandardAction(pc)[0] == ActionLetter(pc)
    ensures pc.JObj? && Mode(pc) == Goto ==> StartsWith(StandardAction(pc), "goto page ")
    ensures pc.JObj? && Mode(pc) == Next ==> StartsWith(StandardAction(pc), "next (")
    ensures pc.JObj? && Mode(pc) == Prev ==> StartsWith(StandardAction(pc), "prev (")
  {
    var a := StandardAction(pc);
    if pc.JObj? {
      match Mode(pc)
      case Goto =>
        var target := match ToInt(GetOr(pc, "target_page_id", JInt(1))) case Some(t) => t case None => 1;
        PrefixOf("goto page ", IntToString(target) + " (" + WrapText(pc) + ")", a);
      case Next =>
        PrefixOf("next (", WrapText(pc) + ")", a);
      case Prev =>
        PrefixOf("prev (", WrapText(pc) + ")", a);
      case _ =>
    }
  }

  lemma PrefixOf(p: string, rest: string, r: string)
    requires r == p + rest
    ensures StartsWith(r, p) && r[|p|..] == rest
  {
    assert r[..|p|] == p;
  }

  /** A "next" or "prev" button's details end with whether it wraps, which
      is the `modulo` flag its navigation follows. */
  lemma StepDetailsShowWrap(ent: Entry)
    requires ent.tool == ButtonStandard && PageChange(ent).JObj?
    requires Mode(PageChange(ent)) == Next || Mode(PageChange(ent)) == Prev
    ensures StandardAction(PageChange(ent)) ==
      ModeName(Mode(PageChange(ent))) + " (" + (if Modulo(PageChange(ent)) then "wrap" else "no-wrap") + ")"
  {
  }

  /** A "goto" button with a numeric target shows that target, and it is
      the page the button opens whenever that page exists. */
  lemma GotoDetailsShowTarget(pid: int, ent: Entry, pages: set<int>, t: int)
    requires ent.tool == ButtonStandard && PageChange(ent).JObj? && Mode(PageChange(ent)) == Goto
    requires "target_page_id" in PageChange(ent).fields && ToInt(PageChange(ent).fields["target_page_id"]) == Some(t)
    ensures StandardAction(PageChange(ent)) ==
      "goto page " + IntToString(t) + " (" + (if Modulo(PageChange(ent)) then "wrap" else "no-wrap") + ")"
    ensures t in pages ==> ResolvedOpenPage(pid, ent, pages) == Some(t)
  {
    var pc := PageChange(ent);
    assert GetOr(pc, "target_page_id", JInt(1)) == GetOr(pc, "target_page_id", JInt(pid));
    GotoOpensExisting(pid, ent, pages, t);
  }

  // ---------------------------------------------------------------------
  // Scroll-list items

  /** `s.split(",")`: the pieces between commas, at least one. */
  function SplitComma(s: string): (r: seq<string>)
    ensures |r| >= 1
    ensures forall i :: 0 <= i < |r| ==> ',' !in r[i]
  {
    if s == [] then [""]
    else if s[0] == ',' then [""] + SplitComma(s[1..])
    else
      var rest := SplitComma(s[1..]);
      [[s[0]] + rest[0]] + rest[1..]
  }

  /** `",".join(parts)`. */
  function JoinComma(parts: seq<string>): string
    requires |parts| >= 1
  {
    if |parts| == 1 then parts[0] else parts[0] + "," + JoinComma(parts[1..])
  }

  /** Splitting on commas loses nothing: joining the pieces gives the text back. */
  lemma {:induction false} SplitJoin(s: string)
    ensures JoinComma(SplitComma(s)) == s
  {
    if s != [] {
      SplitJoin(s[1..]);
      var rest := SplitComma(s[1..]);
      if s[0] == ',' {
        assert SplitComma(s)[1..] == rest;
      } else {
        var r := SplitComma(s);
        if |rest| == 1 {
          assert r == [[s[0]] + rest[0]];
        } else {
          assert r[1..] == rest[1..];
          assert JoinComma(rest) == rest[0] + "," + JoinComma(rest[1..]);
        }
      }
    }
  }

  /** Comma-free pieces joined with commas split back into themselves. */
  lemma {:induction false} JoinSplit(parts: seq<string>)
    requires |parts| >= 1 && forall i :: 0 <= i < |parts| ==> ',' !in parts[i]
    ensures SplitComma(JoinComma(parts)) == parts
    decreases |parts|, |parts[0]|
  {
    var p := parts[0];
    if p == [] {
      if |parts| > 1 {
        JoinSplit(parts[1..]);
        assert JoinComma(parts) == [','] + JoinComma(parts[1..]);
        assert [""] + parts[1..] == parts;
      }
    } else {
      var tail := [p[1..]] + parts[1..];
      JoinHead(parts);
      JoinSplit(tail);
      var s := JoinComma(parts);
      assert s[0] == p[0] && s[0] != ',';
      assert SplitComma(s) == [[p[0]] + tail[0]] + tail[1..];
      assert [p[0]] + p[1..] == p;
      assert [[p[0]] + p[1..]] + parts[1..] == parts;
    }
  }

  /** Joining pieces whose first is not empty: the first character of
      that piece, then the join of the pieces with it removed, which are
      still comma-free. */
  lemma JoinHead(parts: seq<string>)
    requires |parts| >= 1 && parts[0] != [] && forall i :: 0 <= i < |parts| ==> ',' !in parts[i]
    ensures var tail := [parts[0][1..]] + parts[1..];
      && (forall i :: 0 <= i < |tail| ==> ',' !in tail[i])
      && |JoinComma(parts)| >= 1
      && JoinComma(parts)[0] == parts[0][0] && parts[0][0] != ','
      && JoinComma(parts)[1..] == JoinComma(tail)
  {
    var p := parts[0];
    var tail := [p[1..]] + parts[1..];
    forall i | 0 <= i < |tail|
      ensures ',' !in tail[i]
    {
      if i == 0 {
        assert forall c :: c in p[1..] ==> c in p;
      } else {
        assert tail[i] == parts[i];
      }
    }
    assert p[0] in p;
    var s := JoinComma(parts);
    if |parts| == 1 {
      assert s == p;
    } else {
      assert tail[1..] == parts[1..];
      assert s == p + "," + JoinComma(parts[1..]);
      assert JoinComma(tail) == p[1..] + "," + JoinComma(parts[1..]);
    }
  }

  /** An item as the scroll list keeps it: non-empty, comma-free, no
      white space at either end. */
  predicate CleanItem(x: string)
  {
    x != [] && ',' !in x && !IsSpace(x[0]) && !IsSpace(x[|x| - 1])
  }

  /** Strip each piece and drop the empty ones. */
  function CleanPieces(pieces: seq<string>): (r: seq<string>)
    requires forall i :: 0 <= i < |pieces| ==> ',' !in pieces[i]
    ensures |r| <= |pieces|
    ensures forall i :: 0 <= i < |r| ==> CleanItem(r[i])
  {
    if pieces == [] then []
    else
      var x := Strip(pieces[0]);
      StripSubset(pieces[0]);
      var rest := CleanPieces(pieces[1..]);
      if x == [] then rest else [x] + rest
  }

  /** The `items` of a scroll list: its label split on commas, each piece
      stripped, empty pieces dropped. */
  function ScrollListItems(text: string): (r: seq<string>)
    ensures forall i :: 0 <= i < |r| ==> CleanItem(r[i])
  {
    CleanPieces(SplitComma(text))
  }

  /** A string without white space at either end strips to itself. */
  lemma StripClean(x: string)
    requires x == [] || (!IsSpace(x[0]) && !IsSpace(x[|x| - 1]))
    ensures Strip(x) == x
  {
  }

  lemma {:induction false} CleanPiecesKeeps(items: seq<string>)
    requires forall i :: 0 <= i < |items| ==> CleanItem(items[i]) && ',' !in items[i]
    ensures CleanPieces(items) == items
  {
    if items != [] {
      StripClean(items[0]);
      CleanPiecesKeeps(items[1..]);
    }
  }

  /** Writing clean items as a comma-separated label and reading the list
      back gives the same items. */
  lemma ScrollListRoundTrip(items: seq<string>)
    requires |items| >= 1 && forall i :: 0 <= i < |items| ==> CleanItem(items[i])
    ensures ScrollListItems(JoinComma(items)) == items
  {
    JoinSplit(items);
    CleanPiecesKeeps(items);
  }
}
