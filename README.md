# axure-to-mermaid, modelled in Dafny

axure-to-mermaid turns the sitemap of an Axure RP prototype (`$axure.document.sitemap.rootNodes`,
a forest of page and folder nodes) into Mermaid flowchart markup. It first flattens the forest
into a list of records that carry parent links, then groups the records into
`subgraph tierN[" "] … end` blocks. The repository holds four copies of this pipeline with
different rules. Each copy has its own module here:

- `HashFlatten`, `Processor`, `ParentGroups`: the `SitemapProcessor` class of
  `src/components/SitemapProcessor.js`.
  - Ids come from a 32-bit string hash.
  - An id → record map is filled by `initialize`.
  - A subtree is selected by walking parent links through that map.
  - Groups are keyed by parent and numbered from `tier0`.
- `LevelFlatten`, `LevelTiers`, `LinesMarkup`, `TreeSearch`, `Toolbar`: the bundled toolbar in
  `dist/axure-to-mermaid-injected.js`.
  - Records carry a depth `level`, and tiers go by level.
  - The markup is a list of lines joined by newlines.
  - The pre-order search `findCurrentNode` and the url search `findNodeByUrl` are modelled.
  - The toolbar's button state and its click handlers are modelled.
- `TitledMarkup`, `LegacyToolbar`: the stand-alone scripts `axure-to-mermaid-injected.js` and
  `axure-to-mermaid.js`.
  - The markup opens with a Mermaid front matter carrying the project title.
  - The markup is appended to one string.
  - The two scripts' `processSitemap` and `generateMermaidMarkup` are identical (lines 48-89 of
    the first, lines 32-78 of the second). The level-based `processSitemap` is also identical to
    the bundled one, so `LevelFlatten` serves all three.
- `SitemapTsv`: the copy-sitemap bookmarklet `AxureCopySitemap.Header.Bookmarklet.js`.
  - One tab-separated row per node, in pre-order, with an indented page column.
  - An optional header row.
- `EventEmitting` (with `JsSet`): the `EventEmitter` class of `src/utils/EventEmitter.js`.
  - It keeps a map of event names to sets of callbacks and a `disposed` flag.
  - `once` is built from a self-removing wrapper.
- `MermaidStore`: `createMermaidStore` of `src/store/MermaidStore.js`.
  - It keeps a state that is merged with object spread and then validated.
  - It keeps a version that counts accepted updates.
  - Subscribers are told of every accepted state.

`Sitemap` holds the node type, the pre-order (`Flat`, `Visits`) and JavaScript truthiness of an
optional string. `Text` holds decimal rendering, `join`, `split`, `repeat` and a literal
`replace`. `Wrappers` holds `Option` and `Result`.

Every method that loops or changes state is proved against a specification function or
predicate. `ProcessSitemap` returns the accumulator grown by `Flatten`. `FindNodeByUrl` returns
`UrlLookup`. `Emit` leaves `EmitMap` and calls `Handles`. The lemmas then state what those
functions mean.

The model follows the code in these places, where the code differs from what its comments
suggest:

- In `src/components/SitemapProcessor.js`:
  - the start node of a subtree keeps its own `parentId` edge line;
  - id-less siblings under one parent get the same hashed id (`HashFlatten.IdlessSiblingsCollide`);
  - `initialize` never clears the map, so a second `initialize` keeps stale entries.
- `findNodeByUrl` returns a top-level match's id as it is, even when that id is falsy. A nested
  match with a falsy id is skipped, and the search goes on.
- The start-here button of `axure-to-mermaid-injected.js` compares the page's `shortId` with `===`
  and does not check it for truthiness. An absent `shortId` can therefore select an id-less node.
- `validateState` accepts `null` as settings, because `typeof null` is `"object"`. The initial
  state is never validated.
- A second `EventEmitter.dispose()` throws, because the first one set `events` to `null`.

## Model

| member | source | states |
|---|---|---|
| Text.NatToString | src/components/SitemapProcessor.js:28 | decimal rendering of a number: non-empty, digits only |
| Text.ParseNatToString | src/components/SitemapProcessor.js:28 | reading the decimal rendering back gives the number |
| Text.NatToStringInjective | dist/axure-to-mermaid-injected.js:383 | distinct numbers render differently, so `tier{n}` names never collide |
| Text.Spaces | AxureCopySitemap.Header.Bookmarklet.js:1 | `' '.repeat(n)` has length n and only spaces |
| Text.SplitJoin | AxureCopySitemap.Header.Bookmarklet.js:1 | splitting a join at a separator that no part holds gives the parts back |
| Text.RemoveFirstAbsent | dist/axure-to-mermaid-injected.js:246 | `replace(".html", "")` leaves a string without `.html` unchanged |
| Text.RemoveFirstCuts | dist/axure-to-mermaid-injected.js:246 | `replace` cuts out exactly the first occurrence |
| Text.JoinContains | src/components/SitemapProcessor.js:95 | every part of a join occurs in it |
| Text.JoinFree | AxureCopySitemap.Header.Bookmarklet.js:1 | a character in neither the parts nor the separator is not in the join |
| Sitemap.Flat | dist/axure-to-mermaid-injected.js:410-419 | the pre-order has one entry per node at every depth |
| Sitemap.Visits | AxureCopySitemap.Header.Bookmarklet.js:1 | the depth-annotated pre-order has one visit per node |
| Sitemap.FlatAppend | dist/axure-to-mermaid-injected.js:411 | the pre-order of two forests side by side is the first's, then the second's |
| Sitemap.VisitsAppend | AxureCopySitemap.Header.Bookmarklet.js:1 | the same for the pre-order with depths |
| Sitemap.VisitsAreFlat | AxureCopySitemap.Header.Bookmarklet.js:1 | the visits list exactly the nodes of the pre-order, position by position |
| Sitemap.VisitsDepthBound | AxureCopySitemap.Header.Bookmarklet.js:1 | no visit is shallower than the start depth |
| HashFlatten.Hash | src/components/SitemapProcessor.js:28 | the `reduce` hash stays below 2^32 |
| HashFlatten.HashIsPolynomial | src/components/SitemapProcessor.js:28 | wrapping at every step (`>>> 0`) equals the unwrapped polynomial in 31, reduced once mod 2^32 |
| HashFlatten.AssignedId | src/components/SitemapProcessor.js:28 | a truthy id is kept verbatim; otherwise the id starts with `f`; never empty |
| HashFlatten.Flatten | src/components/SitemapProcessor.js:26-34 | one record per node at every depth |
| HashFlatten.FlattenAppend | src/components/SitemapProcessor.js:27 | `flatMap` over two forests concatenates their records |
| HashFlatten.FlattenFollowsPreOrder | src/components/SitemapProcessor.js:26-34 | record k has node k's name and type, and node k's truthy id, in pre-order |
| HashFlatten.FlattenParentLinked | src/components/SitemapProcessor.js:30-31 | a root's parentId is the outer one; every deeper record points to the record of the node it was recursed from |
| HashFlatten.ParentPrecedes | src/components/SitemapProcessor.js:30-31 | from the top, each record is a root (`null` parent) or points to an earlier record's id |
| HashFlatten.IdlessSiblingsCollide | src/components/SitemapProcessor.js:28 | two id-less siblings under a truthy parent get the same id |
| HashFlatten.IdlessSiblingsExample | src/components/SitemapProcessor.js:28 | a concrete forest where two differently named folders share an id |
| HashFlatten.HomeAboutExample | src/components/SitemapProcessor.js:26-34 | `Home > About` flattens to two records linked by parentId |
| Processor.Index | src/components/SitemapProcessor.js:16 | the map's keys are exactly the record ids, each filed under its own id |
| Processor.IndexLast | src/components/SitemapProcessor.js:16 | a later record with the same id overrides an earlier one |
| Processor.IndexSnoc | src/components/SitemapProcessor.js:16 | one more `nodeMap.set` is the map of one more record |
| Processor.InSubtreeStep | src/components/SitemapProcessor.js:70-73 | a non-target record is in the subtree exactly when its parent is |
| Processor.SubtreeMembers | src/components/SitemapProcessor.js:59-61 | the filter keeps exactly the records in the subtree, and always the start record |
| Processor.DistinctIdsWalksEnd | src/components/SitemapProcessor.js:68-75 | with distinct processed ids, every parent walk of `#isNodeInSubtree` stops |
| Processor.WalkEndsAt | src/components/SitemapProcessor.js:68-75 | the walk from the k-th record stops within k parent lookups |
| Processor.WalkEndsStops | src/components/SitemapProcessor.js:70-73 | a walk that reaches a missed parent lookup within some bound makes the loop return within that bound, whatever the start id |
| Processor.TerminatesStops | src/components/SitemapProcessor.js:68-75 | a walk that ends makes `#isNodeInSubtree` return for every start node |
| Processor.SitemapProcessor.constructor | src/components/SitemapProcessor.js:6-7 | not initialized, with an empty map |
| Processor.SitemapProcessor.Initialize | src/components/SitemapProcessor.js:14-18 | keeps the processed records and adds their index to the old map |
| Processor.SitemapProcessor.FindCurrentNode | src/components/SitemapProcessor.js:106-108 | the map's record for the id, or null exactly when the id is not mapped |
| Processor.SitemapProcessor.IsNodeInSubtree | src/components/SitemapProcessor.js:68-75 | true exactly when the parent chain meets the start node's id; needs only that the walk meet that id or a missed lookup |
| Processor.SitemapProcessor.GetSubtreeNodes | src/components/SitemapProcessor.js:57-62 | the subtree in original order; an unmapped start id raises whenever there is a record; needs, for a mapped start id only, that every record's walk stop at it or at a missed lookup |
| Processor.SitemapProcessor.GenerateMermaidMarkup | src/components/SitemapProcessor.js:41-51 | throws before `initialize`; renders all records for a falsy start id, otherwise the subtree or the error; a walk condition is asked only of a truthy, mapped start id |
| ParentGroups.Keys | src/components/SitemapProcessor.js:82-87 | the distinct parentIds, each once |
| ParentGroups.EntriesFor | src/components/SitemapProcessor.js:83-84 | the distinct entries under a key: a `Set` stores an identical entry once |
| ParentGroups.GroupsOf | src/components/SitemapProcessor.js:82-87 | one group per distinct parentId, first-seen order, holding that key's entries |
| ParentGroups.TierCount | src/components/SitemapProcessor.js:97 | as many tiers as distinct parentIds |
| ParentGroups.FindGroup | src/components/SitemapProcessor.js:83 | `acc.get(parentId)`: the only group with that key, or none |
| ParentGroups.GroupsSnocNew | src/components/SitemapProcessor.js:83-85 | a record with a new key opens a new last group |
| ParentGroups.GroupsSnocKnown | src/components/SitemapProcessor.js:83-85 | a record with a known key adds its entry to that group only, unless it is there |
| ParentGroups.BuildGroups | src/components/SitemapProcessor.js:82-87 | the reduce builds exactly GroupsOf |
| ParentGroups.GenerateMarkup | src/components/SitemapProcessor.js:81-99 | the markup is Render of the groups |
| ParentGroups.HeaderJoin | src/components/SitemapProcessor.js:89-93 | the header lines join to `graph TD`, a blank line, the classDef line, a blank line |
| ParentGroups.RenderShape | src/components/SitemapProcessor.js:89-98 | the markup opens with that header and ends with `class tier0,…,tier{n-1} containers` |
| ParentGroups.EntryRendered | src/components/SitemapProcessor.js:84-95 | every record's `id["name"]` entry (with its edge line) appears in the block of its parent's tier |
| ParentGroups.EntryInBlock | src/components/SitemapProcessor.js:95 | every entry of a group appears in its `subgraph` block |
| ParentGroups.BlockInRender | src/components/SitemapProcessor.js:94-96 | every group's block appears in the markup |
| LevelFlatten.LevelId | dist/axure-to-mermaid-injected.js:353 | a truthy id is kept; otherwise `folder_` plus the supplied suffix |
| LevelFlatten.Flatten | dist/axure-to-mermaid-injected.js:351-366 | one record per node at every depth |
| LevelFlatten.FlattenNode | dist/axure-to-mermaid-injected.js:354-363 | a node's own record, then its descendants' records |
| LevelFlatten.FlattenSnoc | dist/axure-to-mermaid-injected.js:352 | the records of one more root follow the others, pushed from where they stop |
| LevelFlatten.ProcessSitemap | dist/axure-to-mermaid-injected.js:351-366 | the accumulator grows by exactly the forest's records |
| LevelFlatten.FlattenFollowsPreOrder | dist/axure-to-mermaid-injected.js:351-366 | record k describes the k-th node of the pre-order: name, type, depth as level, id |
| LevelFlatten.LevelBound | dist/axure-to-mermaid-injected.js:357-362 | no level is below the roots' level |
| LevelFlatten.FlattenLevelLinked | dist/axure-to-mermaid-injected.js:358-362 | roots carry the outer parentId; a deeper record points to its enclosing record one level up |
| LevelFlatten.NodeIsSoleRoot | dist/axure-to-mermaid-injected.js:354-363 | a node's own record comes first, at its level; the rest are deeper and have a parent |
| LevelFlatten.SelectionIsSoleRoot | dist/axure-to-mermaid-injected.js:267 | re-flattening `[selectedNode]` makes it the only level-1 record with a null parent |
| LevelTiers.MaxLevelIsMax | dist/axure-to-mermaid-injected.js:379 | the deepest level bounds every level and is some record's level |
| LevelTiers.Tier | dist/axure-to-mermaid-injected.js:381 | a tier is no longer than the records |
| LevelTiers.TierMembers | dist/axure-to-mermaid-injected.js:381 | a tier holds exactly the records of its level |
| LevelTiers.TierAppend | dist/axure-to-mermaid-injected.js:381 | `filter` keeps input order |
| LevelTiers.TiersPartition | dist/axure-to-mermaid-injected.js:380-381 | with levels in 1..m each record is in exactly one of the tiers 1..m |
| LevelTiers.AllTiered | dist/axure-to-mermaid-injected.js:379-381 | the tiers 1..maxLevel hold every record |
| LevelTiers.TierLines | dist/axure-to-mermaid-injected.js:384-390 | one node line per tier record |
| LevelTiers.ClassLineNamesTiers | dist/axure-to-mermaid-injected.js:394-398 | the class line lists exactly `tier1..tier{maxLevel}`, comma-joined |
| LinesMarkup.Block | dist/axure-to-mermaid-injected.js:382-391 | a tier block is four lines plus one per tier record |
| LinesMarkup.Blocks | dist/axure-to-mermaid-injected.js:380-392 | the blocks of levels 1..m have 4m lines plus the tiers' records |
| LinesMarkup.GenerateMermaidMarkup | dist/axure-to-mermaid-injected.js:373-402 | the loop's pushes joined by newlines are Markup |
| LinesMarkup.BlocksPrefix | dist/axure-to-mermaid-injected.js:380 | the blocks come in ascending level order |
| LinesMarkup.BlockAt | dist/axure-to-mermaid-injected.js:380-392 | tier l's block sits after the preamble and the lower tiers: a blank line, `subgraph tier{l}`, tier l's lines in input order, `end`, a blank line |
| LinesMarkup.LineCount | dist/axure-to-mermaid-injected.js:373-402 | 5 + 4·maxLevel + one line per record, the last being the class line |
| TitledMarkup.TierBlock | axure-to-mermaid-injected.js:73-83 | a tier block is three lines plus one per tier record |
| TitledMarkup.TierBlocks | axure-to-mermaid-injected.js:71-84 | the blocks of levels 1..m have 3m lines plus the tiers' records |
| TitledMarkup.GenerateMermaidMarkup | axure-to-mermaid-injected.js:66-89 | the `+=` loop builds Markup: front matter, tier blocks, class line |
| TitledMarkup.AppendTier | axure-to-mermaid-injected.js:72-83 | one pass of the level loop appends exactly tier l's block |
| TitledMarkup.FrontMatterLines | axure-to-mermaid-injected.js:67 | the front matter is the eight lines up to the blank line |
| TitledMarkup.ClassLineOneLine | axure-to-mermaid-injected.js:86 | the class line has no newline and ends in `s` |
| TitledMarkup.LineCount | axure-to-mermaid-injected.js:66-89 | newlines: the front matter's, plus three per tier, plus one per record |
| TitledMarkup.Ends | axure-to-mermaid-injected.js:67-86 | the text opens with the front matter and ends with the class line, no newline after |
| TreeSearch.FirstWithIdMeaning | dist/axure-to-mermaid-injected.js:410-419 | none exactly when no node has the id; otherwise the earliest match in pre-order |
| TreeSearch.FirstWithIdAppend | dist/axure-to-mermaid-injected.js:411-416 | the search of two listings finds the first's match, else the second's |
| TreeSearch.FindCurrentNode | dist/axure-to-mermaid-injected.js:410-419 | the loop with early returns is the pre-order first match |
| TreeSearch.FindNodeByUrl | dist/axure-to-mermaid-injected.js:244-257 | the loop with early returns is UrlLookup |
| TreeSearch.UrlLookupNone | dist/axure-to-mermaid-injected.js:244-257 | no matching url anywhere gives null |
| TreeSearch.UrlLookupFirst | dist/axure-to-mermaid-injected.js:244-257 | the first pre-order match with a truthy id gives that id |
| TreeSearch.UrlLookupFound | dist/axure-to-mermaid-injected.js:244-257 | a truthy answer is the id of a node whose url matches |
| Toolbar.Handler | dist/axure-to-mermaid-injected.js:192-213 | a handler exists only for the four button types |
| Toolbar.HandlerTable | dist/axure-to-mermaid-injected.js:191-213 | a handler exists exactly for the (type, key) pairs of `BUTTONS` |
| Toolbar.ConfigKeysDistinct | dist/axure-to-mermaid-injected.js:3-12 | the button keys are distinct |
| Toolbar.CreateButtons | dist/axure-to-mermaid-injected.js:172-184 | one button per configuration, disabled exactly when its type is not `generate` |
| Toolbar.EnableAll | dist/axure-to-mermaid-injected.js:279-285 | one button per button |
| Toolbar.EnableAllMeaning | dist/axure-to-mermaid-injected.js:279-285 | non-generate buttons are enabled; keys, labels, types and generate buttons untouched |
| Toolbar.EnableAllIdempotent | dist/axure-to-mermaid-injected.js:279-285 | enabling twice is enabling once |
| Toolbar.CreatedThenEnabled | dist/axure-to-mermaid-injected.js:175-285 | after the first generation every created button is enabled |
| Toolbar.SelectedMeaning | dist/axure-to-mermaid-injected.js:232-266 | the selection is the first pre-order node carrying the start id, which is truthy |
| Toolbar.Toolbar.constructor | dist/axure-to-mermaid-injected.js:133-161 | empty text, buttons as created |
| Toolbar.Toolbar.EnableExportButtons | dist/axure-to-mermaid-injected.js:279-285 | the loop leaves EnableAll of the buttons, the text unchanged |
| Toolbar.Toolbar.HandleAllClick | dist/axure-to-mermaid-injected.js:220-225 | the whole sitemap's markup becomes the text and is copied; buttons enabled |
| Toolbar.Toolbar.HandleStartHereClick | dist/axure-to-mermaid-injected.js:231-273 | the selection's markup becomes the text; without a selection nothing changes |
| Toolbar.Toolbar.HandleButtonClick | dist/axure-to-mermaid-injected.js:191-214 | the all pair renders the whole sitemap, enables the buttons and copies; the start-here pair does so for the selection or changes nothing; each export pair emits its one effect on the unchanged text; a pair not in the table does nothing |
| LegacyToolbar.Converter.constructor | axure-to-mermaid-injected.js:135-245 | empty text; the five export buttons disabled |
| LegacyToolbar.Converter.EnableExportButtons | axure-to-mermaid-injected.js:137-143 | clears the five flags, text unchanged |
| LegacyToolbar.Converter.AllClick | axure-to-mermaid-injected.js:164-171 | the whole sitemap's titled markup becomes the text and is copied; buttons enabled |
| LegacyToolbar.Converter.StartHereClick | axure-to-mermaid-injected.js:173-195 | the first node whose id `===` shortId is flattened alone; without one nothing changes |
| SitemapTsv.Cell | AxureCopySitemap.Header.Bookmarklet.js:1 | an unknown column name gives an empty cell |
| SitemapTsv.RowOf | AxureCopySitemap.Header.Bookmarklet.js:1 | one cell per entry of `columnOrder` |
| SitemapTsv.Rows | AxureCopySitemap.Header.Bookmarklet.js:1 | one row per visit |
| SitemapTsv.RowsAppend | AxureCopySitemap.Header.Bookmarklet.js:1 | rows of two visit lists are concatenated |
| SitemapTsv.TraverseAndCopyTree | AxureCopySitemap.Header.Bookmarklet.js:1 | the push loop produces the rows of the pre-order with depths |
| SitemapTsv.TsvLines | AxureCopySitemap.Header.Bookmarklet.js:1 | one line per row |
| SitemapTsv.ConvertToTsv | AxureCopySitemap.Header.Bookmarklet.js:1 | the indexed `+=` loop writes each row tab-joined, with a newline |
| SitemapTsv.CopySitemap | AxureCopySitemap.Header.Bookmarklet.js:1 | the written rows are the header (when configured) and then the tree's rows |
| SitemapTsv.TsvDataShape | AxureCopySitemap.Header.Bookmarklet.js:1 | header first; row k is node k's, cell j is column j's, the page cell indented by depth |
| SitemapTsv.TsvIsJoin | AxureCopySitemap.Header.Bookmarklet.js:1 | the output is the tab-joined lines joined by newlines with a final newline |
| SitemapTsv.TsvReadsBack | AxureCopySitemap.Header.Bookmarklet.js:1 | without tabs or newlines in cells, splitting gives one line per row and each line's cells back |
| JsSet.Added | src/utils/EventEmitter.js:36 | `add`: exactly the old elements and the new one; no duplicates; a present element changes nothing |
| JsSet.Removed | src/utils/EventEmitter.js:51 | `delete` never grows the set |
| JsSet.RemovedMembers | src/utils/EventEmitter.js:51 | `delete` keeps exactly the other elements |
| JsSet.RemovedNoDuplicates | src/utils/EventEmitter.js:51 | `delete` keeps the set duplicate-free |
| JsSet.RemovedAbsent | src/utils/EventEmitter.js:51 | deleting an absent element changes nothing |
| JsSet.RemovedAppend | src/utils/EventEmitter.js:51 | deleting from two halves is deleting from each |
| JsSet.RemovedMiddle | src/utils/EventEmitter.js:51 | deleting the one occurrence of x from a + [x] + b leaves a + b |
| EventEmitting.OnMap | src/utils/EventEmitter.js:33-36 | the callback is in its event's set; other events untouched |
| EventEmitting.OffMap | src/utils/EventEmitter.js:50-56 | other events untouched |
| EventEmitting.PlainOnlyMembers | src/utils/EventEmitter.js:88-89 | what is left after an emit is exactly the non-wrapper callbacks |
| EventEmitting.Handles | src/utils/EventEmitter.js:71-73 | one call per registered callback |
| EventEmitting.OnKeepsRegistry | src/utils/EventEmitter.js:33-36 | `on` keeps every set non-empty and duplicate-free |
| EventEmitting.OffKeepsRegistry | src/utils/EventEmitter.js:50-56 | `off` removes the callback and deletes a set it empties, so no empty set remains |
| EventEmitting.OnTwice | src/utils/EventEmitter.js:36 | subscribing the same callback twice stores it once |
| EventEmitting.OnThenOff | src/utils/EventEmitter.js:30-57 | `off` of a callback `on` has just added restores the registry |
| EventEmitting.EmitDropsOnce | src/utils/EventEmitter.js:67-93 | after an emit no `once` wrapper of the event is left; other events untouched |
| EventEmitting.PlainOnlyNoDuplicates | src/utils/EventEmitter.js:88-89 | the callbacks left after an emit are duplicate-free |
| EventEmitting.MidwayStep | src/utils/EventEmitter.js:71-73 | part-way through an emit, a wrapper removes only itself |
| EventEmitting.OffMidway | src/utils/EventEmitter.js:88-89 | a wrapper's `off` moves the registry one callback further through the emit |
| EventEmitting.EventEmitter.constructor | src/utils/EventEmitter.js:16-19 | no events, not disposed |
| EventEmitting.EventEmitter.On | src/utils/EventEmitter.js:30-38 | adds the callback and returns its `off`; inert after dispose |
| EventEmitting.EventEmitter.Off | src/utils/EventEmitter.js:47-57 | OffMap of the registry; inert after dispose |
| EventEmitting.EventEmitter.Unsubscribing | src/utils/EventEmitter.js:37 | calling the returned function is `off` of that event and callback |
| EventEmitting.EventEmitter.Emit | src/utils/EventEmitter.js:67-75 | calls every callback of the set in order, the wrappers removing themselves; nothing for unknown events or after dispose |
| EventEmitting.EventEmitter.Once | src/utils/EventEmitter.js:85-93 | registers a fresh wrapper and returns its `off` |
| EventEmitting.EventEmitter.Dispose | src/utils/EventEmitter.js:99-103 | disposed with no events; a second call throws |
| EventEmitting.EventEmitter.ClearEvent | src/utils/EventEmitter.js:111-117 | removes only the named event |
| EventEmitting.EventEmitter.ClearAllEvents | src/utils/EventEmitter.js:123-126 | removes every event; inert after dispose |
| MermaidStore.Notifications | src/store/MermaidStore.js:48 | one call per subscriber |
| MermaidStore.ValidateMeaning | src/store/MermaidStore.js:20-28 | accepted exactly when diagram is a string and settings an object or null; the diagram's error first |
| MermaidStore.MergeGet | src/store/MermaidStore.js:40-43 | the spread takes the patch's value where it has one, the old one elsewhere |
| MermaidStore.MergeIdempotent | src/store/MermaidStore.js:40-43 | merging the same patch twice is merging it once |
| MermaidStore.PatchKeepsValid | src/store/MermaidStore.js:40-46 | a patch touching neither diagram nor settings is accepted from a valid state |
| MermaidStore.DefaultStateValid | src/store/MermaidStore.js:14 | the default state validates |
| MermaidStore.SetOutcomeMeaning | src/store/MermaidStore.js:37-50 | an accepted state validates and keeps the properties the update does not set; refused exactly when the merge fails validation |
| MermaidStore.TwoUpdates | src/store/MermaidStore.js:40-43 | two patches in a row merge as their union, the second winning |
| MermaidStore.Store.constructor | src/store/MermaidStore.js:14-18 | the initial state at version 0, no subscribers |
| MermaidStore.Store.Subscribe | src/store/MermaidStore.js:30-35 | adds the callback and calls it at once with state and version; inert after dispose |
| MermaidStore.Store.Unsubscribing | src/store/MermaidStore.js:34 | removes only that callback, also after dispose |
| MermaidStore.Store.SetState | src/store/MermaidStore.js:37-50 | accepted: merged state, version + 1, every subscriber notified; refused: throws, nothing changes |
| MermaidStore.Store.Dispose | src/store/MermaidStore.js:52-55 | disposed, no subscribers; state and version kept |
| MermaidStore.Store.GetSnapshot | src/store/MermaidStore.js:57-61 | the state, the version and the subscriber count |
| MermaidStore.Store.GetState | src/store/MermaidStore.js:66 | the state |

## Left out

- Hash: characters are Dafny `char`s, not UTF-16 code units, so a character outside the Basic Multilingual Plane counts once and not as a surrogate pair.
- `Math.random` ids: the random suffix is a parameter `supply: nat -> string`, indexed by the position at which the record is pushed.
- Processor.SitemapProcessor.IsNodeInSubtree: the walk can run forever on a cycle of parent ids that avoids the start id, which duplicate ids make possible. The method requires a ghost fuel bound within which the walk meets the start id or a missed lookup. `Processor.DistinctIdsWalksEnd` and `Processor.TerminatesStops` show that distinct ids give one.
- Processor.SitemapProcessor.GetSubtreeNodes and Processor.SitemapProcessor.GenerateMermaidMarkup: the non-terminating call is not modelled. For a truthy, mapped start id they require that every record's walk stop at that id or at a missed lookup, which is exactly when the source's filter returns. Every other call has no walk condition.
- LevelTiers.MaxLevelIsMax: `Math.max` of no levels is `-Infinity`; the model uses 0, which leaves the tier loop and the class line's tier list empty as `-Infinity` does, so empty input needs no precondition.
- TitledMarkup.LineCount: the count is stated relative to the newlines of the front matter, which depend on the project name.
- Sitemap: an absent `children` array and an empty one are the same value; every traversal treats them alike.
- SitemapTsv.Cell: an absent `id` or `url` is written as an empty cell, as `join` writes `undefined`.
- DOM, clipboard, `fetch`, `window.open`, downloads, pako/base64 serialization and the mermaid.ink export service: a click returns `Effect` values naming what it hands out.
- `console.log` in the copy handler, `unload`, `attachButtons`, `loadCSSInShadow` and the CSS and script loaders: I/O only.
- The export buttons of `axure-to-mermaid-injected.js`: only their `disabled` flags are modelled, because their handlers are downloads and network calls.
- The host page (`$axure`, `top`, `window.parent.location`): `Toolbar.Page` and the `Converter` fields pass its values in.
- EventEmitting.EventEmitter.Emit: the data passed to callbacks is not modelled, and `calls` records which callbacks ran. A callback that itself calls `on`, `off` or `emit` during an emit is not modelled.
- EventEmitting.EventEmitter.Dispose: after dispose `events` is `null`; the model keeps an empty map, which no operation can tell apart because each one checks the flag first.
- The static `EventEmitter.default` instance and the `mermaidStore` singleton: one instance of each class covers them.
- MermaidStore.Store.SetState: an argument that is not an object (a string or number spread into indexed properties) is not modelled, and neither is an updater that returns one. A subscriber that throws or re-enters the store is not modelled.
- JavaScript `Set`s are duplicate-free sequences in insertion order (`JsSet`), and callbacks and functions are identified by handles and tokens.
