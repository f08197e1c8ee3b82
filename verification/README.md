# GUI builder export engine, in Dafny

A model of the logic behind the grid GUI editor's exports and documents.
The editor keeps one or more pages. Each page is a 16×16 or 32×32 grid with a
boolean background and a set of entries. An entry is a button, toggle, text
field, scroll list, label or item slot occupying a rectangle of cells. From
these pages the editor does four things:

- it saves the document as JSON and reads it back (`to_json_dict`,
  `load_from_json_dict`, with the `_alloc_uid` allocator);
- it compresses each background into rectangles and paints them back;
- it resolves connected-texture (CTM) tiles from 4-neighbour masks;
- it plans the component export: it collects one manifest record per entry,
  deduplicates texture blocks, packs them first-fit onto 256 px sheets,
  indexes the placements, derives the toggle and disabled texture offsets,
  and groups the records per page for the manifest.

Modules, one per file:

| module | file | what it holds |
|---|---|---|
| `Wrappers` | wrappers.dfy | `Option`, `Result` |
| `JsonValue` | json_value.dfy | the JSON value type and the Python built-ins applied to it (`dict.get`, truthiness, `int()`, `str()`, `strip()`) |
| `IntSets` | int_sets.dfy | `sorted(set)` of integers, minimum, index |
| `Geometry` | geometry.dfy | `Tool`, `Rect`, `Entry`, `PageState`; `normalized`, `width`, `height`, `cells`; `_make_square_rect`; stamping an id into a grid |
| `TextureMapping` | texture_mapping.dfy | `CTM_DIRS`, `ctm_tile_offset`, `_origin_from_obj`, the mask-override table |
| `CtmMask` | ctm_mask.dfy | `_ctm_mask` |
| `BackgroundCodec` | background_codec.dfy | `_background_to_rects`, `_background_from_rects` and their round trip |
| `PageTable` | page_table.dfy | the editor's current-page state as a class: `_remove_entry_id`, `_remove_in_rect`, `_place_entry` |
| `Components` | components.dfy | component type names, `_entry_requires_component_export`, the 2×2 block layout, hover texts, scroll-list items |
| `Navigation` | navigation.dfy | `_resolved_open_page_for_button`, `_close_gui_for_button` |
| `SheetPacker` | sheet_packer.dfy | block sort, `_tiles_needed`, `_can_place`, `_mark`, `_place_in_sheet`, the sheet loop, the placement index |
| `ComponentPlan` | plan.dfy | `_plan_component_sheet_layout` |
| `Manifest` | manifest.dfy | `_manifest_pages_payload`, `_safe_dir_name` |
| `DocumentCodec` | doc_codec.dfy | the JSON written by `to_json_dict` and the reading done by `load_from_json_dict`, as functions |
| `Documents` | documents.dfy | the document and the uid allocator as classes whose methods save and load in place, each proved against `DocumentCodec` |
| `LoadProperties` | load_properties.dfy | what a load guarantees, accepts and skips |
| `SaveLoad` | save_load.dfy | saving then loading gives the document back |

The loops and in-place updates of the source are methods with loop
invariants. Each method is proved equal to a specification function, or is
stated directly by the property it keeps. The lemmas then prove what the
source promises about those functions.

## Model

| member | source | states |
|---|---|---|
| Geometry.ToolFromValue | gui_builder_app/models.py:8-16 | `Tool(value)` returns only a tool whose value is the given string; any other string fails |
| Geometry.ToolValueRoundTrip | gui_builder_app/models.py:8-16 | every tool is found again from its own value |
| Geometry.Normalized | gui_builder_app/models.py:31-34 | the result has x0 ≤ x1 and y0 ≤ y1, keeps each axis's pair of coordinates (only reordered), and leaves a normalized rect unchanged |
| Geometry.NormalizedIdempotent | gui_builder_app/models.py:31-34 | normalizing twice equals normalizing once |
| Geometry.Width | gui_builder_app/models.py:36-38 | width is at least 1 and equals \|x1 − x0\| + 1, whatever the corner order |
| Geometry.Height | gui_builder_app/models.py:40-42 | height is at least 1 and equals \|y1 − y0\| + 1, whatever the corner order |
| Geometry.RowCellsAt | gui_builder_app/models.py:46 | the inner comprehension lists (x, y) for x from x0 to x1, in order |
| Geometry.RowsCellsAt | gui_builder_app/models.py:46 | the nested comprehension has rows·columns cells, cell i being (x0 + i mod w, y0 + i div w) |
| Geometry.CellsAt | gui_builder_app/models.py:44-46 | `cells()` has width·height elements, element i at column i mod width and row i div width of the normalized rect |
| Geometry.CellsExactly | gui_builder_app/models.py:44-46 | a cell is listed exactly when it lies inside the rectangle |
| Geometry.CellsRowMajor | gui_builder_app/models.py:44-46 | cells come in strictly increasing row-major order (y outer, x inner), so none repeats |
| Geometry.MakeSquareRect | gui_builder_app/app.py:1500-1508 | a normalized square whose side is 1 + max(\|dx\|, \|dy\|), containing both drag points, with the start point at a corner |
| Geometry.Stamp | gui_builder_app/app.py:2667-2669 | after stamping, each in-grid cell of the rect holds the entry id and every other cell is unchanged |
| Geometry.StampCells | gui_builder_app/app.py:1559-1561 | the cell loop over `rect.cells()` with the bounds check produces exactly `Stamp` |
| TextureMapping.CtmDirsBits | gui_builder_app/texture_mapping.py:100-105 | N(0,−1), E(1,0), S(0,1), W(−1,0) carry the distinct bits 1, 2, 4, 8, which together make 15 |
| TextureMapping.CtmTileOffset | gui_builder_app/texture_mapping.py:108-178 | an override for `mask & 0xF` is returned as it is; without one the offset lies inside the 4×4 module |
| TextureMapping.DefaultCtmOffset | gui_builder_app/texture_mapping.py:136-178 | the built-in mapping lands inside the 4×4 module |
| TextureMapping.CtmLowBitsOnly | gui_builder_app/texture_mapping.py:131 | masks equal modulo 16 give the same offset, with or without an override table |
| TextureMapping.CtmOverrideFirst | gui_builder_app/texture_mapping.py:131-135 | an override for `mask & 0xF` is returned first; without one the built-in mapping applies |
| TextureMapping.CtmSingleCell | gui_builder_app/texture_mapping.py:141-143 | with no overrides, the offset is (0,0) exactly when the masked value is 0 |
| TextureMapping.CtmStrips | gui_builder_app/texture_mapping.py:145-159 | E+W→(2,0), E→(1,0), W→(3,0), N+S→(0,2), S→(0,1), N→(0,3), and 15→(2,2) |
| TextureMapping.CtmNineSlice | gui_builder_app/texture_mapping.py:161-178 | a mask with both a horizontal and a vertical neighbour maps to a column from E/W and a row from N/S, each in 1..3 |
| TextureMapping.MaskForOffset | gui_builder_app/texture_mapping.py:141-178 | the inverse of the built-in mapping: every cell of the module has a mask in 0..15 |
| TextureMapping.CtmBijection | gui_builder_app/texture_mapping.py:141-178 | the built-in mapping is a bijection from 0..15 onto {0..3}×{0..3} |
| TextureMapping.MaskRoundTrip | gui_builder_app/texture_mapping.py:141-178 | mask → offset → mask is the identity on 0..15 |
| TextureMapping.OffsetRoundTrip | gui_builder_app/texture_mapping.py:141-178 | offset → mask → offset is the identity on {0..3}² |
| TextureMapping.MaskForOffsetInjective | gui_builder_app/texture_mapping.py:141-178 | two module cells never share a mask |
| TextureMapping.OriginFromObj | gui_builder_app/texture_mapping.py:29-38 | a non-object, or an object with neither key, is an error; "tile" is looked at first and returned as unpacked; "module" is multiplied by the CTM size; a value that does not unpack into two ints is an error |
| TextureMapping.PairOfInts | gui_builder_app/texture_mapping.py:33-37 | a list unpacks exactly when it has two items that both convert with `int()`, giving those ints; a string unpacks exactly when it has two characters that each convert with `int()`, giving those ints; any other scalar fails |
| TextureMapping.DigitStringOrigin | gui_builder_app/texture_mapping.py:32-37 | `{"tile": "12"}` is the tile (1, 2) and `{"module": "12"}` is (1, 2) times the CTM size |
| TextureMapping.OverridesFrom | gui_builder_app/texture_mapping.py:85-96 | every key of the override table is a masked value in 0..15 |
| TextureMapping.OverridesFromContents | gui_builder_app/texture_mapping.py:88-96 | the table's keys are the masked keys (0..15) of the usable items, and a key holds the pair of the last item reducing to it |
| TextureMapping.BuildMaskOverrides | gui_builder_app/texture_mapping.py:85-96 | the loop fails exactly when an item's pair does not convert; otherwise it yields that table, or none when the table is empty |
| CtmMask.CtmMaskOf | gui_builder_app/app.py:2140-2145 | the mask is in 0..15 and a direction's bit is set exactly when that neighbour is in the cell set |
| BackgroundCodec.Painted | gui_builder_app/app.py:1238-1246 | painting rectangles yields an n×n grid |
| BackgroundCodec.FreshRectDisjoint | gui_builder_app/app.py:1210-1234 | a rectangle over cells not yet covered is disjoint from every earlier one |
| BackgroundCodec.GrowWidth | gui_builder_app/app.py:1214-1216 | the run grows over set, unvisited cells and stops at the grid edge or at the first cell that is clear or visited |
| BackgroundCodec.GrowHeight | gui_builder_app/app.py:1219-1227 | the grown block lies inside the grid with all its cells set and unvisited, and growth stops only at the bottom edge or at a row with a clear or visited cell under the run |
| BackgroundCodec.MarkVisited | gui_builder_app/app.py:1230-1232 | exactly the block's cells become visited; nothing else changes |
| BackgroundCodec.BackgroundToRects | gui_builder_app/app.py:1202-1236 | the rectangles are normalized, inside the grid, pairwise disjoint, and together cover exactly the set cells |
| BackgroundCodec.PaintedExactTiling | gui_builder_app/app.py:1202-1246 | painting an exact tiling of a grid gives that grid back |
| BackgroundCodec.PaintedIgnoresOutside | gui_builder_app/app.py:1244 | a rectangle with no cell inside the grid paints nothing |
| BackgroundCodec.BackgroundFromRects | gui_builder_app/app.py:1238-1246 | the decoding loop computes `Painted`: a cell is set exactly when some rectangle covers it |
| BackgroundCodec.BackgroundRoundTrip | gui_builder_app/app.py:1202-1246 | compressing a grid and painting the rectangles gives the grid back |
| PageTable.NewEntryMeta | gui_builder_app/app.py:1546-1556 | a background entry gets empty meta; any other entry gets the copied tool meta (standard buttons only) plus `locked: false` and a disabled, empty `hover`, each added only when missing, and no other key |
| PageTable.TouchedHas | gui_builder_app/app.py:1529-1535 | every id found in an in-grid cell of the rect is among the touched ids |
| PageTable.RemoveKeepsConsistent | gui_builder_app/app.py:1515-1537 | removing a set of entries and clearing their cells keeps grid and entries consistent |
| PageTable.PlaceKeepsConsistent | gui_builder_app/app.py:1539-1561 | removing the touched entries and stamping the new one keeps grid and entries consistent, with the id counter one higher |
| PageTable.Editor.constructor | gui_builder_app/app.py:161-168 | a fresh page: no entries, an empty grid, both counters at 1, no selection, and a consistent table |
| PageTable.Editor.RemoveEntryId | gui_builder_app/app.py:1515-1527 | drops the entry and clears only the cells of its rect that held its id; clears the selection if it was selected; an absent id changes nothing; the page invariant is kept |
| PageTable.Editor.CollectTouched | gui_builder_app/app.py:1530-1535 | the ids found in the rect's in-grid cells |
| PageTable.Editor.RemoveInRect | gui_builder_app/app.py:1529-1537 | removes exactly the entries touched by the rect, clearing their cells, and clears the selection when it named one of them; the page invariant is kept |
| PageTable.Editor.PlaceEntry | gui_builder_app/app.py:1539-1561 | removes touched entries first (clearing a selection of one of them), then every in-grid cell of the rect names the new entry, built from the current tool and its new meta; `next_entry_id` and `next_uid` each grow by 1; a consistent table stays consistent |
| Components.ComponentTypeFor | gui_builder_app/app.py:2926-2940 | the names are non-empty, and "scroll_list", "toggle_button" and "button" belong to exactly one tool each |
| Components.ComponentTypeInjective | gui_builder_app/app.py:2926-2940 | different tools get different type names |
| Components.Lookup | gui_builder_app/app.py:2960 | `modules.get(key)` finds a module exactly when the key is mapped |
| Components.OrElse | gui_builder_app/app.py:2962 | `a or b` for an optional module name: a non-empty `a` wins |
| Components.BaseModule | gui_builder_app/app.py:2962 | "base" for every tool but the toggle; the toggle takes a non-empty "unpressed" and otherwise falls back to "base" |
| Components.ModulesFor | gui_builder_app/app.py:2960 | a tool missing from the module table gets no modules; any other tool gets its own mapping |
| Components.EntryRequiresComponentExport | gui_builder_app/app.py:2946-2976 | only buttons with a base module are exported: a toggle always, a standard button exactly when "hover" or "locked" maps to a different module |
| Components.QuadrantsTile | gui_builder_app/app.py:3010-3014 | the four destination quadrants of the 2×2 block partition its pixels |
| Components.BlockModulesFor | gui_builder_app/app.py:2979-3047 | a block exists exactly when a base module does; top-left is the base; a standard button's hover and locked quadrants fall back to the base and its locked-hover quadrant to the locked one; a toggle's pressed quadrant falls back to the base, its hover quadrant follows the active state, and its disabled quadrant is the locked variant of the current state when locked, otherwise the first mapped locked variant, otherwise the pressed one |
| Components.UnexportedButtonLooksAlike | gui_builder_app/app.py:2971-2976 | a standard button that is not exported would show its base module in the three quadrants the export check looks at |
| Components.HoverOf | gui_builder_app/app.py:1376-1377 | `meta.get("hover")`: null when the key is absent, otherwise its value |
| Components.HoverTextEnabled | gui_builder_app/app.py:1375-1380 | hover text is enabled only when `hover` is a dict with an `enabled` key, and then exactly when that value is truthy |
| Components.WrapText | gui_builder_app/app.py:1422-1423 | "wrap" exactly when `modulo` is set, "no-wrap" otherwise |
| Components.HoverTextFor | gui_builder_app/app.py:1382-1388 | the custom hover text has no outer whitespace as `str.strip()` defines it (Unicode spaces included); it is empty when `hover` is not a dict or has no "text" |
| Components.HoverTextStripped | gui_builder_app/app.py:1382-1388 | the shown text is the stored "text" stripped: unchanged when it has no outer whitespace, empty when it is all whitespace |
| Components.ButtonHoverDetails | gui_builder_app/app.py:1409-1437 | buttons always get a non-empty description |
| Components.ToggleDetails | gui_builder_app/app.py:1410-1411 | a toggle shows "Toggle: ON" exactly when active and "Toggle: OFF" exactly when not |
| Components.ButtonDetailsNameMode | gui_builder_app/app.py:1413-1435 | a standard button shows "Standard: " and its action; the action starts "goto page ", "next (" or "prev (" exactly when `page_change` is a dict with that mode |
| Components.ActionNamesMode | gui_builder_app/app.py:1416-1435 | the action text starts with "goto page ", "next (" or "prev (" exactly when the mode is that one |
| Components.ButtonDetailsNoPage | gui_builder_app/app.py:1416-1421 | "action=close_gui" is shown exactly for a button that closes the GUI; "action=none" only for a button that opens no page and does not close the GUI |
| Components.StepDetailsShowWrap | gui_builder_app/app.py:1422-1433 | a "next" or "prev" button shows its mode and "wrap" or "no-wrap" as its `modulo` flag says |
| Components.GotoDetailsShowTarget | gui_builder_app/app.py:1425-1430 | a "goto" button with a numeric target shows that number with its wrap flag, and opens that page whenever it exists |
| Components.FormatHoverTooltipText | gui_builder_app/app.py:1390-1407 | never empty; non-empty custom text wins; otherwise buttons get their details, a text entry "Text entry: <label>" or "Text entry", a select list "Select: <label>" or "Select list", the slots "Text slot" and "Item slot", and any other tool its value |
| Components.SplitComma | gui_builder_app/app.py:3176 | `split(",")` yields at least one piece and no piece contains a comma |
| Components.SplitJoin | gui_builder_app/app.py:3176 | joining the pieces with commas gives the text back |
| Components.JoinSplit | gui_builder_app/app.py:3176 | splitting comma-free pieces joined by commas gives the pieces back |
| Components.CleanPieces | gui_builder_app/app.py:3176-3177 | keeps at most the pieces it got, each stripped and non-empty |
| Components.ScrollListItems | gui_builder_app/app.py:3174-3178 | every scroll-list item is stripped, non-empty and comma-free |
| Components.StripClean | gui_builder_app/app.py:3176 | stripping text without outer spaces changes nothing |
| Components.CleanPiecesKeeps | gui_builder_app/app.py:3177 | clean items pass the filter unchanged |
| Components.ScrollListRoundTrip | gui_builder_app/app.py:3174-3178 | a label made by joining clean items with commas gives exactly those items back |
| Navigation.MetaOf | gui_builder_app/app.py:3076 | an entry's meta is always read as a dict: the meta itself when it is one, otherwise empty |
| Navigation.Mode | gui_builder_app/app.py:3081 | an absent `mode` reads as "none"; the mode's name is `str(page_change.get("mode", "none"))`; an unknown mode is none of the five known names |
| Navigation.Modulo | gui_builder_app/app.py:3082 | wrapping is off when `modulo` is absent, and otherwise follows the truthiness of its value |
| Navigation.CloseGuiFor | gui_builder_app/app.py:3115-3122 | only a standard button with a `page_change` dict can close the GUI, and such a button does exactly when its mode is "close" |
| Navigation.ResolvedOpenPage | gui_builder_app/app.py:3072-3113 | a resolved page always exists, and only standard buttons with a `page_change` dict resolve one |
| Navigation.ResolveMode | gui_builder_app/app.py:3081-3113 | whatever the mode, a resolved page exists |
| Navigation.StepFrom | gui_builder_app/app.py:3096-3113 | stepping from a page yields an existing page or none |
| Navigation.Step | gui_builder_app/app.py:3099-3113 | stepping an index of the sorted ids yields one of those ids or none |
| Navigation.CloseOpensNothing | gui_builder_app/app.py:3086-3087 | a close button opens no page |
| Navigation.OtherModesOpenNothing | gui_builder_app/app.py:3083-3105 | "none" and unknown modes open no page |
| Navigation.GotoOpensExisting | gui_builder_app/app.py:3089-3094 | "goto" yields its target exactly when that page exists, and none otherwise |
| Navigation.ResolvedStep | gui_builder_app/app.py:3096-3113 | "next"/"prev" resolve to a step forward/backward through the sorted ids, wrapping when `modulo` is set |
| Navigation.NextIdIsSuccessor | gui_builder_app/app.py:3100-3101 | the next sorted id is the least page id above the current one |
| Navigation.PrevIdIsPredecessor | gui_builder_app/app.py:3102-3103 | the previous sorted id is the greatest page id below the current one |
| Navigation.NextWithoutWrap | gui_builder_app/app.py:3100-3111 | without wrap, "next" yields a page exactly when a successor exists, and then it is the successor |
| Navigation.PrevWithoutWrap | gui_builder_app/app.py:3102-3111 | without wrap, "prev" yields a page exactly when a predecessor exists, and then it is the predecessor |
| Navigation.NoSuccessorAtEnd | gui_builder_app/app.py:3110-3111 | the last id has no successor, so "next" without wrap yields none there |
| Navigation.NoPredecessorAtStart | gui_builder_app/app.py:3110-3111 | the first id has no predecessor |
| Navigation.WrapIndex | gui_builder_app/app.py:3107-3108 | with wrap, the index moves by one modulo the page count |
| Navigation.NextWithWrap | gui_builder_app/app.py:3107-3113 | with wrap, "next" always yields a page: the successor, or the smallest page at the end |
| Navigation.PrevWithWrap | gui_builder_app/app.py:3107-3113 | with wrap, "prev" always yields a page: the predecessor, or the largest page at the start |
| Navigation.FirstIsMin | gui_builder_app/app.py:170-171 | the first sorted page id is the smallest |
| Navigation.LastIsMax | gui_builder_app/app.py:170-171 | the last sorted page id is the largest |
| IntSets.SortedIds | gui_builder_app/app.py:170-171 | `sorted(keys)` lists every key exactly once, strictly increasing |
| IntSets.MinOf | gui_builder_app/app.py:2684 | a non-empty set has a least element |
| IntSets.HeadIsMin | gui_builder_app/app.py:2684 | the first of the sorted ids is the least id |
| IntSets.IndexOf | gui_builder_app/app.py:3099 | `list.index` finds the first position holding the value |
| SheetPacker.KeyRepr | gui_builder_app/app.py:3240 | `repr` of a block key is a non-empty tuple text |
| SheetPacker.SortKeyTotal | gui_builder_app/app.py:3240 | the sort key (area, h, w, repr(key)) orders any two blocks |
| SheetPacker.SortKeyTrans | gui_builder_app/app.py:3240 | that order is transitive |
| SheetPacker.SortBlocks | gui_builder_app/app.py:3239-3240 | sorting keeps the number of blocks |
| SheetPacker.SortBlocksStable | gui_builder_app/app.py:3239-3240 | blocks with equal sort keys keep their relative order, as Python's stable sort with `reverse=True` does |
| SheetPacker.InsertBlockSorted | gui_builder_app/app.py:3239-3240 | inserting into a descending list keeps it descending and adds exactly that block |
| SheetPacker.SortBlocksSorted | gui_builder_app/app.py:3239-3240 | the blocks end up sorted largest first, as a permutation of the blocks |
| SheetPacker.InsertBlockDistinct | gui_builder_app/app.py:3216-3224 | inserting a block with a new key keeps keys distinct |
| SheetPacker.SortBlocksDistinct | gui_builder_app/app.py:3239-3240 | sorting keeps the keys distinct |
| SheetPacker.MaxPx | gui_builder_app/app.py:3242-3244 | the sheet size is 256 px (`EXPORT_SHEET_PX`) when a tile fits in it, and 512 px otherwise |
| SheetPacker.SheetTiles | gui_builder_app/app.py:3246 | a sheet is at least one tile wide and holds as many whole tiles as fit |
| SheetPacker.TilesNeeded | gui_builder_app/app.py:3256-3257 | at least one tile, and the fewest tiles covering the pixels |
| SheetPacker.TilesOfMultiple | gui_builder_app/app.py:3256-3257 | k whole tiles of pixels need exactly k tiles |
| SheetPacker.WholeTilesFit | gui_builder_app/app.py:3256-3257 | whole tiles that fit in the sheet's pixels fit in its tile grid |
| SheetPacker.CanPlace | gui_builder_app/app.py:3259-3269 | the check succeeds exactly when the block lies inside the sheet on free cells only |
| SheetPacker.Marked | gui_builder_app/app.py:3271-3275 | marking keeps the sheet's grid dimensions |
| SheetPacker.Mark | gui_builder_app/app.py:3271-3275 | the marking loop produces `Marked`: the block's cells set, the rest unchanged |
| SheetPacker.ScanFrom | gui_builder_app/app.py:3284-3292 | a position found is free for the block and not before the start in row-major order |
| SheetPacker.FirstFit | gui_builder_app/app.py:3284-3292 | a position found is free for the block and inside the sheet |
| SheetPacker.ScanFromSpec | gui_builder_app/app.py:3284-3292 | the scan from a position finds the first free position in row-major order from there, or proves none exists |
| SheetPacker.FirstFitSpec | gui_builder_app/app.py:3284-3292 | first fit finds the row-major first free position, and finds none exactly when the block fits nowhere |
| SheetPacker.EmptyOcc | gui_builder_app/app.py:3253 | a new sheet's occupancy grid is sheet_tiles square |
| SheetPacker.FreshSheetAccepts | gui_builder_app/app.py:3311-3313 | an empty sheet accepts any block that fits its grid, at (0,0) |
| SheetPacker.MarkKeepsTiling | gui_builder_app/app.py:3286-3287 | marking a free block keeps the footprints an exact tiling of the occupied cells |
| SheetPacker.PlaceInSheet | gui_builder_app/app.py:3277-3292 | it succeeds exactly when first fit finds a spot; on success it appends the placement at that spot in pixels and marks it; on failure the sheet is unchanged; the outcome is `PlaceOnSheet` |
| SheetPacker.PlaceOnSheet | gui_builder_app/app.py:3276-3292 | only a sheet with an occupancy grid accepts a block; on success the size is kept and one placement of that block is appended after the old ones |
| SheetPacker.PlaceFromSpec | gui_builder_app/app.py:3305-3310 | the search from a sheet on fails exactly when no sheet from there has room, and otherwise updates only the first sheet with room |
| SheetPacker.PackStepShared | gui_builder_app/app.py:3304-3310 | a block that is not oversized and has room on some shared sheet goes on the first such sheet, and no sheet is added |
| SheetPacker.PackStepAppends | gui_builder_app/app.py:3311-3314 | when no shared sheet has room a new sheet is appended last and the others are unchanged |
| SheetPacker.Footprints | gui_builder_app/app.py:3288-3290 | one tile footprint per placement |
| SheetPacker.ExpectedCountOf | gui_builder_app/app.py:3295-3314 | with distinct keys, each packable block is expected once, and an unknown key never |
| SheetPacker.PlaceKeepsSound | gui_builder_app/app.py:3286-3290 | placing on free cells keeps a shared sheet sound: tile-aligned, placements inside and apart |
| SheetPacker.NewSheet | gui_builder_app/app.py:3248-3254 | a new sheet is sound |
| SheetPacker.NewSheetSound | gui_builder_app/app.py:3248-3254 | a new sheet is sound whatever the block list |
| SheetPacker.FirstFitPlacement | gui_builder_app/app.py:3277-3292 | a first-fit placement keeps the sheet sound and adds exactly one placement of that key |
| SheetPacker.PackSheets | gui_builder_app/app.py:3294-3315 | the sheets are `Pack`: blocks in the given order, each oversized block on a dedicated (0,0) sheet appended last, each other block on the first shared sheet with room, else on a new sheet appended last; shared sheets are sound and each key is placed as often as it is expected |
| SheetPacker.PackOne | gui_builder_app/app.py:3295-3315 | one turn of the sheet loop is `PackStep`: it places the block once if packable, else leaves the counts unchanged, and keeps every sheet sound |
| SheetPacker.PlaceShared | gui_builder_app/app.py:3304-3310 | the block is placed exactly when some shared sheet has room, on the first such sheet and on no other; when it is not placed nothing changes; the outcome is `PlaceFrom` |
| SheetPacker.PlaceNew | gui_builder_app/app.py:3311-3314 | the new sheet is the empty sheet after placing the block at its first fit, holds that block once and is sound |
| SheetPacker.EachBlockOnce | gui_builder_app/app.py:3294-3314 | each packable block is placed exactly once, and no other key is placed |
| SheetPacker.PlanBlockPackable | gui_builder_app/app.py:3213-3214 | a 2×2 block of whole tiles is always packable |
| SheetPacker.BuildPlacementIndex | gui_builder_app/app.py:3317-3328 | the index loop computes `PlacementIndex` |
| SheetPacker.SheetIndex | gui_builder_app/app.py:3319-3328 | one sheet's pass keeps the earlier entries or adds known keys at that sheet's number |
| SheetPacker.PlacementIndex | gui_builder_app/app.py:3317-3328 | the index holds known keys only, each at a 1-based sheet number |
| SheetPacker.SheetIndexSpec | gui_builder_app/app.py:3319-3328 | one sheet's pass adds every known key placed on it, at that sheet's number |
| SheetPacker.PlacementIndexSpec | gui_builder_app/app.py:3317-3328 | the index holds only known keys, each at a 1-based sheet that has that placement, and it holds every placed known key |
| SheetPacker.StripOcc | gui_builder_app/app.py:3330-3332 | dropping `occ` keeps every sheet's size and placements |
| ComponentPlan.EntryComponent | gui_builder_app/app.py:3131-3226 | a record exists exactly for manifest tools when the tile size is positive (otherwise the pixel size is not positive and the entry is skipped); it carries page, uid, type, normalized origin, tile size, items or label, the formatted hover text exactly when hover text is enabled, the locked flag, the resolved open page, the close-GUI flag and, for a toggle only, its active state; it has a block key exactly when the entry needs export, and that key's block is 2× its pixel size |
| ComponentPlan.ComponentUid | gui_builder_app/app.py:3147-3150 | a positive uid is kept, otherwise the entry id is used; the result is positive exactly when one of them is |
| ComponentPlan.BlockKeyFor | gui_builder_app/app.py:3197-3211 | without grouping, or for non-buttons, the key is the component's uid; with grouping a standard button is keyed by its size and a toggle by size, locked flag and active state |
| ComponentPlan.PageEntries | gui_builder_app/app.py:3130 | one record per entry of the page |
| ComponentPlan.VisitEntry | gui_builder_app/app.py:3131-3228 | one turn of the entry loop: adds the record, and the block and representative of a key not seen before |
| ComponentPlan.CollectPage | gui_builder_app/app.py:3130-3228 | the entry loop computes `CollectEntries` for the page |
| ComponentPlan.CollectNextPage | gui_builder_app/app.py:3128-3130 | one turn of the page loop collects the next page's entries |
| ComponentPlan.CollectAll | gui_builder_app/app.py:3070 | collecting runs over the pages in sorted id order |
| ComponentPlan.CollectComponents | gui_builder_app/app.py:3124-3228 | the collecting loops compute `Collect`: pages in ascending id order, entries in ascending id order |
| ComponentPlan.CollectListed | gui_builder_app/app.py:3128-3130 | the page loop over the listed ids computes `CollectPages` over them |
| ComponentPlan.AddEntryGood | gui_builder_app/app.py:3216-3226 | visiting an entry keeps blocks one per key, a representative for exactly the block keys, and every record's key among them |
| ComponentPlan.AddResultGood | gui_builder_app/app.py:3216-3224 | recording a new block keeps keys distinct and the representatives in step |
| ComponentPlan.CollectEntriesGood | gui_builder_app/app.py:3130-3228 | the entry loop keeps that invariant |
| ComponentPlan.CollectPagesGood | gui_builder_app/app.py:3128-3228 | the page loop keeps that invariant |
| ComponentPlan.Collect | gui_builder_app/app.py:3124-3228 | the collected blocks have distinct keys, whole-tile sizes in pixels twice the component size, a representative for exactly their keys, and cover every record's key; nothing is collected from no pages |
| ComponentPlan.Attach | gui_builder_app/app.py:3335-3373 | attaching drops the internal block key and keeps id, page and type |
| ComponentPlan.AttachAll | gui_builder_app/app.py:3335-3373 | every record is attached, in order |
| ComponentPlan.AttachMatchesQuadrants | gui_builder_app/app.py:3338-3371 | `tex` is the block's top-left quadrant; a toggle's `toggle_tex` and `disabled_tex` are its top-right and bottom-right quadrants; a button's `disabled_tex` is its top-right (locked) quadrant, as in the 2×2 layout |
| ComponentPlan.InsertCompSorted | gui_builder_app/app.py:3376 | inserting keeps the (page, id) order and adds exactly that record |
| ComponentPlan.SortComponentsSorted | gui_builder_app/app.py:3376 | the records end up ordered by (page, id), as a permutation |
| ComponentPlan.SortComponents | gui_builder_app/app.py:3376 | sorting keeps the number of records |
| ComponentPlan.SortComponentsStable | gui_builder_app/app.py:3376 | records with the same (page, id) keep their relative order, as Python's stable sort does |
| ComponentPlan.PlacedCountStrip | gui_builder_app/app.py:3330-3332 | stripping `occ` keeps every placement count |
| ComponentPlan.SameBlocks | gui_builder_app/app.py:3239 | the sorted items are the same blocks as those collected |
| ComponentPlan.PackedOnce | gui_builder_app/app.py:3294-3314 | every collected block key is placed exactly once, and no other key is placed |
| ComponentPlan.IndexExact | gui_builder_app/app.py:3317-3328 | the placement index has exactly the collected keys, each pointing at its placement |
| ComponentPlan.SheetsPlanned | gui_builder_app/app.py:3294-3332 | every planned sheet is a 256 px sheet with placements inside and apart, or the dedicated sheet of one oversized block |
| ComponentPlan.PlanComponentSheetLayout | gui_builder_app/app.py:3063-3383 | a non-positive tile size or no records gives the empty plan; otherwise the representatives are the first-seen entries, the sheets are the first-fit packing (`Pack`) of the stably sorted blocks with `occ` stripped, every block is placed once on a sound sheet, the index is built from those sheets, exact and 1-based, every record's block is indexed, and the records are the attached ones in the stable (page, id) sort |
| Manifest.OnPage | gui_builder_app/app.py:2403-2412 | a page's list holds exactly the records of that page |
| Manifest.DropPages | gui_builder_app/app.py:2413-2418 | each record loses its page offset, in order |
| Manifest.PageComponents | gui_builder_app/app.py:2411-2422 | a page's list has one record per record of that page |
| Manifest.PageComponentsSpec | gui_builder_app/app.py:2411-2422 | a page's records, without page offsets, sorted by id and a permutation of that page's records |
| Manifest.ManifestPagesPayload | gui_builder_app/app.py:2399-2425 | one payload per page in ascending id order, each holding that page's records |
| Manifest.ReplaceBad | gui_builder_app/app.py:2288-2289 | each of `<>:"/\|?*` becomes `_`, everything else is kept, and none remains |
| Manifest.SafeDirName | gui_builder_app/app.py:2286-2290 | the name with each forbidden character replaced by "_" and then stripped, or "skin" when that is empty; so never empty, free of forbidden characters, no outer whitespace |
| Manifest.SlashBecomesUnderscore | gui_builder_app/app.py:2286-2290 | "a/b" becomes "a_b" |
| Manifest.SafeDirNameIdempotent | gui_builder_app/app.py:2286-2290 | applying it twice equals applying it once |
| Manifest.SafeNameKept | gui_builder_app/app.py:2286-2290 | a name that is already safe is kept |
| Manifest.BlankNameIsSkin | gui_builder_app/app.py:2286-2290 | a name made only of whitespace, Unicode spaces included, becomes "skin" |
| Manifest.NoBreakSpaceIsSkin | gui_builder_app/app.py:2286-2290 | a lone no-break space (U+00A0) becomes "skin" |
| JsonValue.Get | gui_builder_app/app.py:2535 | `d.get(key)` finds a value exactly when `d` is a dict holding the key |
| JsonValue.Or | gui_builder_app/app.py:2530 | `x or y` is `x` when `x` is truthy, `y` otherwise |
| JsonValue.NatToString | gui_builder_app/app.py:1430 | `str(n)` is non-empty decimal digits |
| JsonValue.NatToStringValue | gui_builder_app/app.py:1430 | the digits written have the value n |
| JsonValue.IntToString | gui_builder_app/app.py:1430 | `str(i)` is non-empty |
| JsonValue.ParseIntRoundTrip | gui_builder_app/app.py:2599 | `int(str(i)) == i` |
| JsonValue.ToInt | gui_builder_app/app.py:2599 | `int(x)` of an int is that int; of null, a list or a dict it raises |
| JsonValue.DigitValue | gui_builder_app/app.py:2599 | `int` gives a decimal digit a value below ten, and the ASCII digits their usual values |
| JsonValue.DigitValueFromSpec | gui_builder_app/app.py:2599 | a character is a decimal digit exactly when it lies in one of the runs of ten that follow each script's zero, and its value is its offset from that zero |
| JsonValue.ZerosApart | gui_builder_app/app.py:2599 | consecutive scripts' digit runs do not overlap |
| JsonValue.ZerosOrdered | gui_builder_app/app.py:2599 | the digit runs are disjoint and in increasing order |
| JsonValue.DigitInRun | gui_builder_app/app.py:2599 | the search finds every character of a run, whichever earlier run it starts from |
| JsonValue.DigitValueOfRun | gui_builder_app/app.py:2599 | a digit of any script has the value of its offset from that script's zero |
| JsonValue.DigitsFromZero | gui_builder_app/app.py:2599 | no decimal digit lies below the ASCII zero, so a sign is never read as a digit |
| JsonValue.ArabicIndicDigitsRead | gui_builder_app/texture_mapping.py:91 | `int` reads the Arabic-Indic digits one and two as 12 |
| JsonValue.FullWidthDigitsRead | gui_builder_app/texture_mapping.py:91 | `int` reads the full-width digits one and two as 12 |
| JsonValue.PyStr | gui_builder_app/app.py:2662 | `str(x)` of a string is that string |
| JsonValue.TrimLeft | gui_builder_app/app.py:2289 | removes exactly the leading whitespace, with whitespace as Python's `str.isspace` defines it |
| JsonValue.TrimRight | gui_builder_app/app.py:2289 | removes exactly the trailing whitespace, with whitespace as Python's `str.isspace` defines it |
| JsonValue.Strip | gui_builder_app/app.py:2289 | the result is the middle of the text with exactly the leading and trailing whitespace (Unicode spaces included) removed |
| DocumentCodec.Max | gui_builder_app/app.py:2584 | `max(a, b)` is one of them and at least both |
| DocumentCodec.EntryJson | gui_builder_app/app.py:2262-2270 | an entry is saved as a dict holding id, uid, tool, rect, active, label and meta |
| DocumentCodec.PageJson | gui_builder_app/app.py:2255-2272 | a page is saved as a dict holding page_id, background_rects and entries, and its page id reads back |
| DocumentCodec.SaveJson | gui_builder_app/app.py:2276-2284 | the document is saved as a dict holding the seven header keys |
| DocumentCodec.RectsJson | gui_builder_app/app.py:2258-2260 | one `{x0, y0, x1, y1}` object per rectangle, in order |
| DocumentCodec.EntriesJson | gui_builder_app/app.py:2261-2272 | one object per entry, in ascending id order |
| DocumentCodec.PagesJson | gui_builder_app/app.py:2251-2274 | one object per page, in ascending id order, with its rectangles |
| DocumentCodec.VersionOk | gui_builder_app/app.py:2535-2537 | the version is accepted exactly when it is 1, 2, 3 or `true` (Python's `True == 1`) |
| DocumentCodec.GuiNameAfter | gui_builder_app/app.py:2528-2533 | without the key the name is kept; a string is taken as it is; a falsy value gives "" |
| DocumentCodec.GridOf | gui_builder_app/app.py:2539-2541 | the grid size is accepted exactly when it is 16 or 32 |
| DocumentCodec.PagesOf | gui_builder_app/app.py:2543-2555 | a non-null `pages` is used as it is; otherwise a one-item list holding page 1 |
| DocumentCodec.StartCounter | gui_builder_app/app.py:2566-2571 | the uid counter starts at `max(1, int(next_uid))`, and at 1 when the value does not convert |
| DocumentCodec.RectFromJson | gui_builder_app/app.py:2609-2612 | a rect is read only from a dict holding the four coordinate keys, each field being `int()` of its key |
| DocumentCodec.RectsFromJson | gui_builder_app/app.py:2603-2613 | items that are not dicts or do not convert are skipped |
| DocumentCodec.LegacyBackground | gui_builder_app/app.py:2616-2622 | an accepted legacy grid is n×n |
| DocumentCodec.PageBackground | gui_builder_app/app.py:2601-2622 | an accepted background, from rectangles or a legacy grid, is n×n |
| DocumentCodec.ToolOf | gui_builder_app/app.py:2638-2647 | "button_press" reads as the standard button; any other string is looked up as a tool value; the deprecated press tool is never the result |
| DocumentCodec.ParseEntry | gui_builder_app/app.py:2637-2664 | a non-dict item fails; an item is skipped exactly when its tool is unknown; otherwise the entry has the tool read, the normalized rect of `rect`, the id `int(obj["id"])` and dict meta |
| DocumentCodec.NextFree | gui_builder_app/app.py:2587-2588 | the counter skips exactly the used values it meets and stops at the first free one |
| DocumentCodec.AllocUid | gui_builder_app/app.py:2574-2593 | a positive unused request is kept and recorded; otherwise the next free counter value is recorded; the result is positive and recorded; it is fresh exactly when the request was kept or the new counter value exceeds the old maximum |
| DocumentCodec.NextUidAboveUsed | gui_builder_app/app.py:2675 | the loaded `next_uid` is at least 1 and above every recorded uid |
| DocumentCodec.AllocMayRepeat | gui_builder_app/app.py:2587-2593 | with uid 5 taken and the counter at 1, requesting 5 again returns 5: the fallback returns `max_uid`, not the counter value it reserved |
| DocumentCodec.EmptyCells | gui_builder_app/app.py:2632 | the lookup grid starts n×n |
| DocumentCodec.AddRaw | gui_builder_app/app.py:2656-2669 | adding an entry keeps the grid n×n and the page well formed |
| DocumentCodec.LoadEntries | gui_builder_app/app.py:2636-2669 | reading a page's entries keeps the allocator valid, only adds uids, and keeps the page well formed |
| DocumentCodec.PageHeader | gui_builder_app/app.py:2596-2626 | an accepted page header has an n×n background |
| DocumentCodec.LoadPage | gui_builder_app/app.py:2595-2672 | a page read is filed under its id, and each of its entries is filed under its id, has a normalized rect and a recorded uid |
| DocumentCodec.LoadPages | gui_builder_app/app.py:2595-2672 | the page loop only adds pages, every page read is well formed, and the allocator only grows |
| DocumentCodec.Load | gui_builder_app/app.py:2524-2687 | a non-dict root fails and changes nothing; a bad version fails after only the name was set; a success had an accepted version and grid size, and its start page exists |
| DocumentCodec.LoadBody | gui_builder_app/app.py:2560-2684 | the grid size is set and the name kept; an error changes nothing else but the pages; a success starts on the requested page when it exists, otherwise on the smallest page id |
| Documents.UidAllocator.constructor | gui_builder_app/app.py:2566-2572 | the allocator starts at the given counter, with no uids recorded and a maximum of 0 |
| Documents.UidAllocator.Allocate | gui_builder_app/app.py:2574-2593 | the in-place allocator returns and records what `AllocUid` describes |
| Documents.Document.CompressBackgrounds | gui_builder_app/app.py:2252-2254 | every page's rectangles paint its background back |
| Documents.Document.PayloadCompressed | gui_builder_app/app.py:2251-2274 | the page list written is `PagesJson` for rectangles that paint each page's background |
| Documents.Document.PagesPayload | gui_builder_app/app.py:2251-2274 | the page loop writes `PagesJson` with rectangles that paint each background |
| Documents.Document.ToJsonDict | gui_builder_app/app.py:2250-2284 | the saved document is `SaveJson` of the state, with rectangles that paint each background |
| Documents.Document.ReadEntries | gui_builder_app/app.py:2636-2669 | the entry loop succeeds exactly when `LoadEntries` does, with the same error, page and allocator |
| Documents.Document.ReadBackground | gui_builder_app/app.py:2601-2622 | reading a background computes `PageBackground` |
| Documents.Document.ReadPageHeader | gui_builder_app/app.py:2596-2626 | reading a page header computes `PageHeader` |
| Documents.Document.ReadPage | gui_builder_app/app.py:2595-2672 | reading a page succeeds exactly when `LoadPage` does, with the same error, page and allocator |
| Documents.Document.ReadPages | gui_builder_app/app.py:2595-2672 | the page loop produces the pages and error of `LoadPages` |
| Documents.Document.ReadBody | gui_builder_app/app.py:2563-2684 | the body's pages, error, `next_uid` and start page are those of `LoadBody`, and the start page exists |
| Documents.Document.BodyOutcome | gui_builder_app/app.py:2674-2684 | after the pages are read, `next_uid` is `max(counter, max_uid + 1)` and the start page falls back to the smallest id |
| Documents.Document.ReadDocumentBody | gui_builder_app/app.py:2560-2687 | the state after the body is that of `LoadBody`, and on success the editor is on the start page |
| Documents.Document.LoadFromJsonDict | gui_builder_app/app.py:2524-2687 | the state and error after loading are those of `Load`; on success the editor is on an existing start page; the skin packs are untouched |
| LoadProperties.PagesLoadedBelow | gui_builder_app/app.py:2674-2675 | after the pages are read, every uid on every page is below `next_uid` |
| LoadProperties.BodySucceeds | gui_builder_app/app.py:2595-2687 | a body that succeeds has the grid size, at least one page, an existing start page, `next_uid` ≥ 1 and well-formed pages |
| LoadProperties.LoadSucceeds | gui_builder_app/app.py:2524-2687 | a load succeeds only for a dict with an accepted version and a grid of 16 or 32, and leaves pages, an existing start page, `next_uid` ≥ 1 and well-formed pages |
| LoadProperties.HeaderErrorKeepsDocument | gui_builder_app/app.py:2525-2558 | a bad root, version, grid size or page list raises before any page changes; only the name may already be set |
| LoadProperties.LoadNotAtomic | gui_builder_app/app.py:2557-2597 | a document whose first page item is not a dict raises after the pages were cleared and the grid size changed |
| LoadProperties.SinglePageFormat | gui_builder_app/app.py:2547-2555 | a document without `pages` loads as the single page 1 |
| LoadProperties.SinglePageBody | gui_builder_app/app.py:2547-2555 | one page item with id 1 loads as exactly page 1 |
| LoadProperties.LegacyGridRead | gui_builder_app/app.py:2616-2622 | a legacy boolean grid is read back as that grid |
| LoadProperties.RectsRead | gui_builder_app/app.py:2603-2614 | saved rectangles are read back and painted |
| LoadProperties.RectsJsonRead | gui_builder_app/app.py:2603-2613 | rectangles written as objects are read back unchanged |
| LoadProperties.ToolNameRead | gui_builder_app/app.py:2638-2647 | a saved tool name reads back as that tool, `button_press` as a standard button |
| LoadProperties.EntryJsonRead | gui_builder_app/app.py:2637-2664 | a saved entry parses back with its id, its tool (`button_press` as a standard button), its normalized rect, its uid as the request, and its active flag, label and meta |
| LoadProperties.SaveJsonRead | gui_builder_app/app.py:2525-2571 | a saved header passes the version check and gives back the grid size (when 16 or 32), the name, the start page, the uid counter and the page list, one item per page |
| LoadProperties.KnownOnly | gui_builder_app/app.py:2643-2647 | dropping the items with unknown tools keeps at most the items given |
| LoadProperties.LoadHead | gui_builder_app/app.py:2637-2669 | reading entries is reading the first item, then the rest |
| LoadProperties.UnknownToolsSkipped | gui_builder_app/app.py:2643-2647 | reading the entries equals reading them with the unknown-tool items removed |
| SaveLoad.EntryFields | gui_builder_app/app.py:2262-2270 | a saved entry carries id, uid, tool value, rect, active, label and meta |
| SaveLoad.EntryRead | gui_builder_app/app.py:2637-2664 | a saved entry parses back to itself, with its uid as the request |
| SaveLoad.Raw | gui_builder_app/app.py:2656-2664 | an entry rebuilt from its parsed form and uid is the entry |
| SaveLoad.SavedEntriesParse | gui_builder_app/app.py:2261-2272 | the saved entries parse back, one per id, in ascending id order |
| SaveLoad.EntryStep | gui_builder_app/app.py:2654 | a saved entry whose uid is still free keeps that uid |
| SaveLoad.EntrySplit | gui_builder_app/app.py:2637-2669 | the entries still to read split into the next one and the rest, with disjoint uids |
| SaveLoad.EntryAdvance | gui_builder_app/app.py:2637-2669 | reading one saved entry advances the allocator by its uid and the page by that entry |
| SaveLoad.EntriesRead | gui_builder_app/app.py:2637-2669 | reading the saved entries restores them all, keeps the counter, and records exactly their uids |
| SaveLoad.SavedPageItem | gui_builder_app/app.py:2255-2273 | a saved page item has the page id, the rectangles of its background and its entries |
| SaveLoad.FromAll | gui_builder_app/app.py:2666 | the entries from the first id on are all the entries |
| SaveLoad.PageEntriesRead | gui_builder_app/app.py:2636-2669 | a saved page's entries read back exactly |
| SaveLoad.PageRead | gui_builder_app/app.py:2595-2672 | a saved page reads back with the same id, background and entries |
| SaveLoad.PageStep | gui_builder_app/app.py:2595-2672 | reading one saved page restores it and records exactly its uids |
| SaveLoad.PagesRead | gui_builder_app/app.py:2595-2672 | reading the remaining saved pages succeeds and restores each of them |
| SaveLoad.AllPagesRead | gui_builder_app/app.py:2595-2672 | reading all saved pages succeeds with the same page ids, each page restored, and every uid below the saved `next_uid` |
| SaveLoad.PagesFromStart | gui_builder_app/app.py:2672 | the pages read are exactly the saved ones |
| SaveLoad.BodyRestores | gui_builder_app/app.py:2563-2684 | the body of a saved document restores grid size, start page, `next_uid`, page ids, backgrounds and entries |
| SaveLoad.EntryIds | gui_builder_app/app.py:2271 | each page's saved entry ids |
| SaveLoad.SavedPagesParse | gui_builder_app/app.py:2251-2274 | the saved pages parse back, one per page, in ascending id order |
| SaveLoad.SavedPageAt | gui_builder_app/app.py:2255-2273 | each saved page item parses back as its page |
| SaveLoad.SavedFields | gui_builder_app/app.py:2276-2284 | the saved document carries version 3, name, grid size, start page, `next_uid` and the pages |
| SaveLoad.SavedHeader | gui_builder_app/app.py:2276-2284 | a saved header passes the load's checks and gives back name, grid size, uid counter and start page |
| SaveLoad.HeaderPasses | gui_builder_app/app.py:2525-2558 | a document passing the header checks loads as its body |
| SaveLoad.SaveLoadRoundTrip | gui_builder_app/app.py:2524-2687 | loading what `to_json_dict` wrote succeeds and restores name, grid size, start page, `next_uid`, page ids, backgrounds and entries |

## Left out

- The Tk user interface is not modelled: windows, menus, mouse and keyboard handlers, drawing, tooltips, popups and timers. So are `cell_px` and every other pixel measurement on screen.
- Image pixels are not modelled: composing variant images, copying, scaling and rendering backgrounds. Only the module each quadrant of a component block shows (`BlockModulesFor`) and the quadrant offsets are modelled.
- `_scale_factors` and `_scale_factors_for` are left out because they use floating point and `round`.
- All file, zip and settings I/O is left out. This covers reading the JSON file, the mapping config loaded at import time, the skin-pack scan, the export and inject drivers, and writing the manifest and the button script. The config's values (the module table, the override items, the tile size and the CTM size) become parameters. `available_in_skin_packs` is a parameter of the save; it stands for the sorted names of the scanned skin packs, which the model takes as given.
- TextureMapping.PairOfInts: unpacking a two-key dict into two names (which gives its keys in insertion order) is not modelled, because the model's JSON objects are unordered maps; such a value is rejected.
- The `ctm_origins` and `entry_tool_modules` tables built at import time are not modelled as loops; `OriginFromObj` models one `ctm_origins` item.
- JSON numbers are integers only. Floats, and the Python equalities they bring (`16.0 == 16`), are not modelled.
- JsonValue.ToInt: does not model the whitespace, underscores or other bases that Python's `int()` accepts in a string, and `int()` of a float. Decimal digits of every script are read, with the digit table of Unicode 15.0; a Python built on another Unicode version may accept a few more or fewer.
- JsonValue.PyStr: lists and dicts give an empty string rather than Python's `repr` text.
- DocumentCodec.ParseEntry: `meta` must be a dict or falsy. `dict()` of a list of pairs, which Python would accept, is read as an error.
- Error messages are shortened texts. The model keeps where an error is raised, not its exact wording.
- Entries of a page are visited in ascending id order. The source iterates a dict in insertion order; this is the same for pages saved in id order, and for pages built by the editor, whose ids only grow.
- The lookup grid `cell_to_entry` and `next_entry_id` of a loaded page are rebuilt from its entries. The round trip states that page ids, backgrounds and entries come back, not these two derived fields.
- SaveLoad.SaveLoadRoundTrip: holds only for documents whose entry uids are positive and distinct. The load's uid allocator can return a uid already in use (`AllocMayRepeat`), so uniqueness of uids after a load is not claimed.
- Load is not all-or-nothing: an error in a page leaves the pages read so far and the new grid size (`LoadNotAtomic`). The model states this behaviour and asserts no atomicity.
- The editor's aliasing of the current page's fields (`entries`, `cell_to_entry`) into `pages` is not modelled. `PageTable.Editor` holds the current page's fields directly, and `Documents.Document` holds the pages.
- The selection UI refresh after removing the selected entry is left out. The selection itself is cleared.
- SheetPacker.SheetTiles: requires a positive tile size; the source divides by `TILE_PX` there only after some component exists, which needs a positive tile size (app.py:3157-3158, 3230).
- SheetPacker.TilesNeeded: requires a positive tile size, for the same reason as `SheetTiles`.
- `IntSets.SortedIds` is defined by the property of its result, a strictly increasing list of the set's members, rather than by a sorting algorithm.
