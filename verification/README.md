# jsMind core, modelled in Dafny

This project models the data core of a TypeScript mind-map library. A mind
map is a tree of nodes. Each node has an id, a topic, a sort index, a side
(left or right of the root), an expanded flag, a free-form data payload and
an ordered list of children. The model covers these parts:

- **The node registry** (`src/mind.ts`): looking a node up, setting the
  root, adding, inserting, moving and removing nodes. It also covers the
  neighbour queries and how each node's side is chosen and passed down its
  subtree. Removing a node sets its registry entry to `undefined` and keeps
  the key. The model does the same: `Nodes` maps an id to `Option<Node>`,
  and `None` is a removed entry.
- **The node itself** (`src/node.ts`): the constructor, the index
  comparator used to sort children, and the ancestor test.
- **The two storage formats**:
  - `node_tree` (`src/format/nodeTree.ts`) is one nested record per node.
  - `node_array` (`src/format/nodeArray.ts`) is a flat pre-order list of
    records that link to their parent by `parentId`.

  Both directions are modelled. Writing is `getData`; reading is
  `getMind` and `parse`. Records are JSON values (`Value`), and the
  payload rules about reserved keys are modelled too. Two round-trip
  theorems say which part of a mind survives being written out and read
  back in each format.
- **The layout engine** (`src/layoutProvider.ts`): sides and indices, the
  vertical stacking of subtrees, horizontal offsets, visibility, connector
  points, the bounding box, and expanding and collapsing nodes.
- **The editor facade** (`src/jsMind.ts`): the tree effects of
  `selectNode`, `updateNode` and `removeNode`, and the keyboard neighbour
  search `findNodeBefore` / `findNodeAfter`. Also the `isEmpty` helper from
  `src/utils/config.ts` that `updateNode` uses.

`Mind` and `LayoutProvider` are classes whose methods update fields in
place, as they do in the source. Each method is proved against a
specification function of the old state: `Added`, `Moved`, `Pruned`,
`Built`, `Replay`, `Veils`, `Span` and so on. Lemmas then prove what the
source promises about those functions:

- the tree stays linked, and each node's side flows down its subtree;
- children stay sorted;
- the pre-order walk visits each node once;
- sibling subtrees stack without overlapping;
- the round trips rebuild the tree.

Ghost fields `rank` and `bound` on `Mind` witness that the parent links
form a finite tree.

## Where the code and its description differ

The model follows the code in each of these places.

- **Tree format, "children" key.** `extractData` does not reserve
  `"children"` (src/format/nodeTree.ts:157), so a node's payload keeps its
  child records. Writing such a node out again copies the stale list into
  a childless node (src/format/nodeTree.ts:56-63). Reading it back then
  revives children that had been removed: `NodeTreeReload.StaleChildrenRevive`.
  The tree round trip therefore holds only for minds whose payloads carry
  no `"children"` key of their own (`TreeClean`).
- **Explicit side at the root.** In `addNode`, an explicit side for a root
  child is compared against the local `direction` (src/mind.ts:109). That variable
  was just set to right, so the result is always right. After a round trip
  through either format, every root child therefore sits on the right.
- **Array format, payload.** `parse` passes `nodeJson.data` and not the
  extracted payload (src/format/nodeArray.ts:139). A reloaded non-root node
  therefore keeps only the record's `"data"` field (`Carried`).
- **Root flag.** The root is created without an expanded flag
  (src/mind.ts:64), so a reloaded root is collapsed.
- **Empty root id.** An empty root id is falsy, so array parsing skips
  every other record (src/format/nodeArray.ts:85).
- **`insertNodeAfter`.** It calls itself with the same arguments
  (src/mind.ts:169) and never returns for a live node. The model returns
  `Diverges`.
- **`setRoot` guard.** Its guard is inverted (src/mind.ts:63), but it only
  logs. A second `setRoot` always replaces `root` with a new childless
  node. When the id is already registered, `putNode` refuses that object:
  the source's root is then a node outside the registry, while the
  registry keeps the old entry. The model cannot express this case; see
  "## Left out".
- **Neighbour queries.** `getNodeAfter` / `getNodeBefore` use the node's
  sort index as an array position (src/mind.ts:191-198). They return the
  neighbour only when the indices are 1-based positions
  (`NeighboursWhenOneBased`).
- **Out-point cache.** `getNodePointOut` tests `y === 1` where `-1` is
  meant (src/layoutProvider.ts:295). The cache is never reused, because
  every path that writes the layout sets `cacheValid` to false. Every
  contract of the model is therefore stated for `!cacheValid`.

## Model

| member | source | states |
|---|---|---|
| MindNodes.NewNode | src/node.ts:40-51 | a new node has exactly the given id, index, topic, root flag, parent, side and flag, no children, and `{}` as payload when none is given |
| MindNodes.LastSortsAfter | src/node.ts:53-70 | index -1 sorts after every non-negative index, and two -1 indices tie |
| MindNodes.NonNegativeAscending | src/node.ts:53-70 | between two non-negative indices the comparator is their difference, so it orders them ascending |
| MindNodes.CompareAntisymmetric | src/node.ts:53-70 | swapping the arguments negates the comparison |
| MindNodes.NullActsAsZero | src/node.ts:53-70 | a null index compares exactly like index 0, on either side |
| MindNodes.CompareNotTransitive | src/node.ts:53-70 | -0.5 ties with 0 and with 5 although 0 < 5; in fact -0.5 ties with every index except -1, so the comparator is not a preorder on all numbers |
| MindNodes.RegularPreorder | src/node.ts:53-70 | on indices that are null, -1 or non-negative, the comparator is total and transitive |
| MindTree.DescendsFromRoot | src/node.ts:72-92 | following parent links from any live node reaches the root |
| MindTree.DescendsRank | src/node.ts:72-92 | a proper ancestor has a strictly smaller rank, so the parent walk terminates |
| MindTree.DescendsTransitive | src/node.ts:72-92 | an ancestor of an ancestor is an ancestor |
| MindTree.RootDescendsOnlyFromItself | src/node.ts:72-92 | the root's only ancestor is itself |
| MindTree.AncestorsOrdered | src/node.ts:72-92 | any two ancestors of a node are ancestor and descendant of each other |
| MindTree.SiblingSubtreesDisjoint | src/mind.ts:368-390 | no node lies in the subtrees of two different siblings |
| MindTree.SubtreeSplit | src/mind.ts:368-375 | a node's subtree is the node plus the subtrees of its children |
| MindTree.ParentsDetermineChildren | src/format/nodeArray.ts:80-90 | two linked registries with the same live nodes and the same parents have the same children sets |
| MindTree.InsertByCompare | src/mind.ts:246-248 | one insertion step of the sort adds exactly the new id to the list |
| MindTree.SortByCompare | src/mind.ts:246-248 | the sort of a child list is a permutation of it |
| MindTree.InsertKeepsSorted | src/mind.ts:246-248 | inserting a regular index into a sorted list keeps it sorted |
| MindTree.SortSorts | src/mind.ts:246-248 | when every index is regular, the sorted list is ordered by the comparator |
| MindTree.SortKeepsSorted | src/mind.ts:246-248 | an already sorted list is left exactly as it is |
| MindTree.Without | src/mind.ts:377-385 | splicing an id out of a list removes every copy of it and keeps every other id |
| MindTree.SpliceIsWithout | src/mind.ts:377-385 | in a list without duplicates, splicing out position i removes exactly that id |
| MindTree.Inherited | src/node.ts:72-92 | `inherited(a, k)` is true exactly when k descends from a |
| Adding.BalanceCounts | src/mind.ts:95-105 | the loop's tally is the number of right children minus the number of left children |
| Adding.RootChildDirection | src/mind.ts:92-110 | a new root child goes left exactly when no side is given, the root has more than one child, and right children outnumber left ones |
| Adding.AddedEffect | src/mind.ts:111-117 | adding registers the fresh node under its parent and changes only the parent's children among the other entries |
| Adding.AddedKeeps | src/mind.ts:115-117 | the new node is live, and every node live before stays live |
| Adding.AddedSorted | src/mind.ts:115-117 | after an add, the parent's children are sorted whenever their indices are regular |
| Adding.AddedDirection | src/mind.ts:92-114 | the new node's side is never centre; below the root it is the parent's side; at the root an explicit side gives right; without one, the balance rule decides |
| Adding.AddedLinked | src/mind.ts:111-117 | adding keeps the registry a linked tree whose sides flow down |
| MindStore.Position | src/mind.ts:191-198 | a number names an array slot exactly when it is a whole number inside the array |
| MindStore.LastIndexOf | src/mind.ts:285-293 | the backward scan finds the last occurrence of the id, or -1 when the id is absent |
| MindStore.SpliceFound | src/mind.ts:285-293 | splicing the found slot out of a list without duplicates removes exactly that id |
| MindStore.SortedPrecedes | src/mind.ts:246-248 | in a sorted list, a strictly smaller index comes first |
| MindStore.InsertedBefore | src/mind.ts:132-146 | a node inserted before b (index of b minus 0.5) lands before b among the siblings, when their indices are regular |
| MindStore.Mind.constructor | src/mind.ts:32-42 | a new mind has no nodes, no root, no selection and no metadata |
| MindStore.Mind.GetNode | src/mind.ts:49-54 | a node comes back exactly for live ids; it carries that id, and it is the root exactly when its id is the root's |
| MindStore.Mind.PutNode | src/mind.ts:234-240 | a node is registered exactly when its id is not yet a key (removed ids included); otherwise nothing changes |
| MindStore.Mind.SetRoot | src/mind.ts:62-66 | the root becomes the id; a new id is registered as a childless root, and an already registered id leaves the registry unchanged (the root then resolves to the old entry; see Left out) |
| MindStore.Mind.ResetIndex | src/mind.ts:246-248 | the parent's children are re-sorted by the comparator and nothing else changes |
| MindStore.Mind.AddNode | src/mind.ts:78-123 | a node comes back exactly when the parent is live and the id is new; then the registry becomes `Added`, otherwise nothing changes; the mind stays valid |
| MindStore.Mind.ChildDirection | src/mind.ts:92-114 | the side chosen for a new child is `NewDirection`, never centre |
| MindStore.Mind.InsertNodeBefore | src/mind.ts:132-146 | an unknown base node gives null; otherwise the new node is added under the base's parent (the key "undefined" for the root) with the base's index minus 0.5 |
| MindStore.Mind.InsertNodeAfter | src/mind.ts:156-170 | the call diverges exactly when the base node is live; an unknown base node gives null |
| MindStore.Mind.GetNodeAfter | src/mind.ts:176-199 | a result is a child of the same parent as the given non-root node |
| MindStore.Mind.GetNodeBefore | src/mind.ts:205-228 | a result is a child of the same parent as the given non-root node |
| MindStore.Mind.NeighboursWhenOneBased | src/mind.ts:191-224 | when the siblings' indices are their 1-based positions, the queries give the next and previous sibling, or null at the ends |
| MindStore.Mind.MoveNodeInternal | src/mind.ts:314-329 | the index becomes -1 for `_last_`, 0 for `_first_`, or the sibling's index minus 0.5, and the parent is re-sorted; otherwise nothing changes |
| MindStore.Mind.FlowNodeDirection | src/mind.ts:331-342 | every node of the subtree gets the given side, or the node's own side when none is given |
| MindStore.Mind.MoveNode | src/mind.ts:257-274 | a node comes back exactly when the id is live; the registry becomes `Moved` under the given or current parent; the mind stays valid |
| MindStore.Mind.Relocate | src/mind.ts:283-312 | `_moveNode` turns the registry into `Moved` and keeps the mind valid |
| MindStore.Mind.Reparent | src/mind.ts:284-297 | the node leaves its old parent's children and is appended to the new parent's; the ranks shift with the subtree |
| MindStore.Mind.Settle | src/mind.ts:299-310 | the side is set, the index placed, and the side flows down the subtree |
| MindStore.Mind.RemoveNode | src/mind.ts:348-394 | removal succeeds exactly for live non-root nodes; then the whole subtree's entries become removed, the node leaves its parent's children, and the selection is cleared exactly when it lay in the subtree |
| MindStore.Mind.Detach | src/mind.ts:377-390 | once the children are gone, the node is spliced out of its parent and its entry is removed |
| MindStore.Mind.RemovedValid | src/mind.ts:364-390 | after the removal, the mind is valid again and the selection is cleared exactly when it lay in the removed subtree |
| Moving.Reparented | src/mind.ts:284-297 | reparenting keeps every key, liveness, side, root flag and index, and puts the node under the new parent |
| Moving.MovedEntries | src/mind.ts:283-312 | a move changes only the node's parent, the subtree's sides, and indices and children lists |
| Moving.MovedLinked | src/mind.ts:283-312 | a move to a parent outside the node's subtree keeps the registry linked and keeps the moved subtree the same |
| Moving.MovedFlows | src/mind.ts:299-310 | after a move, sides still flow down the tree |
| Moving.MovedParent | src/mind.ts:284-297 | the node is among the new parent's children, and no longer among the old parent's when the two differ |
| Moving.MovedIndex | src/mind.ts:314-327 | `_last_` gives -1, `_first_` gives 0, and a live sibling under the new parent gives its index minus 0.5; no id, "" or an unknown id keeps the index |
| Moving.MovedIndexKept | src/mind.ts:321-326 | a beforeId that is not live, or is not under the new parent, leaves the index as it was |
| Moving.MovedDirection | src/mind.ts:299-342 | the whole moved subtree gets one side, never centre; it is left exactly when the new parent is the root and left was asked for, or the new parent is on the left |
| Moving.MovedValid | src/mind.ts:283-312 | a move to a parent outside the node's subtree keeps the tree linked, the sides flowing and the live nodes the same |
| Moving.MoveIntoOwnSubtree | src/mind.ts:284-297 | with the chain r, a, b, moving a under b makes a and b each other's parent, and the registry is no longer a tree |
| Removing.PrunedLinked | src/mind.ts:368-390 | removing a non-root subtree keeps the rest linked, with sides flowing |
| Config.TrimLeading | src/utils/config.ts:29 | the replace drops exactly the leading run of whitespace |
| Config.MissingIsEmpty | src/utils/config.ts:25-30 | a missing or empty string is empty |
| Config.EmptyIffAllSpace | src/utils/config.ts:25-30 | a string is empty exactly when all its characters are whitespace |
| Config.NonSpaceNotEmpty | src/utils/config.ts:25-30 | one non-space character makes a string non-empty |
| Config.TrimIsIdle | src/utils/config.ts:25-30 | trimming does not change emptiness, and trimming twice is trimming once |
| Records.Field | src/format/nodeArray.ts:159-170 | a field is read exactly when the record has it as an own key |
| Records.ExtractData | src/format/nodeArray.ts:159-170 | the payload is the record minus its reserved keys |
| Records.PayloadDropsReserved | src/format/nodeArray.ts:159-170 | a key is in the payload exactly when it is an own key of the record and not one of id, topic, parentId, isroot, direction, expanded; its value is kept |
| Records.PayloadKeepsChildren | src/format/nodeTree.ts:153-164 | a "children" key is not reserved, and it survives into the payload unchanged |
| Records.PayloadIdempotent | src/format/nodeTree.ts:153-164 | extracting from an extracted payload gives the same payload |
| Records.Overlay | src/format/nodeArray.ts:60-67 | the payload's own keys are copied over the header fields and win over them |
| Records.PayloadOfOverlay | src/format/nodeArray.ts:60-67 | writing a payload without reserved keys over a reserved-only header and extracting it again gives the payload back |
| Records.LastRootAt | src/format/nodeArray.ts:98-112 | finds the last record with `isroot === true`, or reports that there is none |
| Records.FirstRootAt | src/format/nodeArray.ts:80-83 | finds the first record with `isroot === true`, or reports that there is none |
| Records.Reverse | src/format/nodeArray.ts:81 | the reversed copy holds the same records in opposite order |
| Records.LastRootOfReverse | src/format/nodeArray.ts:80-83 | in the reversed copy, the last root record is the first root record of the input |
| Records.LastRootOfReverseNone | src/format/nodeArray.ts:80-89 | the reversed copy has no root record exactly when the input has none |
| Records.ExtractRoot | src/format/nodeArray.ts:98-112 | the last root record becomes the root and is spliced out, and its id is returned; with no root record nothing changes |
| Flattening.RecordFields | src/format/nodeArray.ts:48-67 | a node's record has its payload keys plus id, topic, expanded, parentId (when there is a parent), isroot (for the root) and direction (for root children), and nothing else |
| Flattening.CleanRecord | src/format/nodeArray.ts:48-67 | for a payload without reserved keys, the record reads back the node's id, topic, flag, parent, root flag and payload |
| Flattening.Preorder | src/format/nodeArray.ts:68-72 | the walk from a live node starts with that node |
| Flattening.Entries | src/format/nodeArray.ts:68-72 | one record per id, in the walk's order |
| Flattening.NodeRecord | src/format/nodeArray.ts:49-67 | the record built for a node is its `Record` |
| Flattening.ArrayNode | src/format/nodeArray.ts:48-73 | the records of the subtree are appended in pre-order |
| Flattening.PreorderMember | src/format/nodeArray.ts:68-72 | the walk from a node visits exactly the live nodes of its subtree |
| Flattening.PreorderDistinct | src/format/nodeArray.ts:68-72 | the walk visits no node twice |
| Flattening.PreorderOnce | src/format/nodeArray.ts:39-41 | the walk from the root lists every live node exactly once, root first |
| NodeArrayFormat.Array | src/format/nodeArray.ts:39-41 | the whole tree's records are appended in pre-order from the root |
| NodeArrayFormat.GetData | src/format/nodeArray.ts:29-37 | the output carries the metadata, the format name "node_array" and the pre-order records |
| NodeArrayFormat.EDirection | src/format/nodeArray.ts:132-137 | "left" gives -1 and any other truthy side gives right; a missing or falsy side gives null, which `addNode` treats as a given side and turns into right |
| NodeArrayFormat.ExtractSubNode | src/format/nodeArray.ts:121-152 | the count is the number of records taken; the registry is the replay of the taken records; each taken record is a child of the parent or of an earlier taken one; no child of a taken id is left behind |
| NodeArrayFormat.AddRecord | src/format/nodeArray.ts:130-141 | adding one child record replays one more step |
| NodeArrayFormat.TakeChild | src/format/nodeArray.ts:139-148 | taking a child and its own descendants keeps the scan's invariant, and the list shrinks |
| NodeArrayFormat.Parse | src/format/nodeArray.ts:80-90 | the reversed list's last root record becomes the root; with a truthy root id, the descendants are extracted from the rest |
| NodeArrayFormat.GetMind | src/format/nodeArray.ts:20-27 | a new mind with the source's metadata and the parsed records |
| NodeArrayReload.Carried | src/format/nodeArray.ts:139 | a reloaded node's payload is the record's "data" field, or `{}` when there is none |
| NodeArrayReload.NotLeft | src/format/nodeArray.ts:121-152 | no record of a live node is left over after extraction from the root |
| NodeArrayReload.ArrayRoundTrip | src/format/nodeArray.ts:80-90 | parsing the written records of a clean tree with a non-empty root id finds the root, leaves no record over, and rebuilds every live node with its parent |
| NodeArrayReload.ReloadArray | src/format/nodeArray.ts:20-37 | writing and reading back yields the same live nodes, each with its topic and parent, the same children sets, and the carried payload |
| NodeTreeFormat.Kids | src/format/nodeTree.ts:121-126 | the child records are the "children" array when there is one, otherwise none |
| NodeTreeFormat.Array | src/format/nodeTree.ts:76-78 | the whole tree's records are appended in pre-order from the root |
| NodeTreeFormat.NodeHead | src/format/nodeTree.ts:50-63 | the header fields, overwritten by the payload's own keys |
| NodeTreeFormat.BuildNode | src/format/nodeTree.ts:49-74 | the nested record of a node is its `Built` record |
| NodeTreeFormat.BuiltFields | src/format/nodeTree.ts:49-74 | a nested record has the children's records when there are children, otherwise the payload's "children"; it has the payload keys, id, topic and expanded, a direction only under the root, and no parentId or isroot |
| NodeTreeFormat.KidAt | src/format/nodeTree.ts:65-72 | the i-th child record is the record of the i-th child |
| NodeTreeFormat.GetData | src/format/nodeTree.ts:37-43 | the output carries the metadata, the format name "node_tree" and the root's nested record |
| NodeTreeFormat.TreeDirection | src/format/nodeTree.ts:168-172 | under the root, "left" gives -1 and anything else gives right; elsewhere the side is null |
| NodeTreeFormat.ExtractSubNode | src/format/nodeTree.ts:166-182 | success exactly when every node of the nested record can be added; the registry becomes `LoadSub`, and no live node is lost |
| NodeTreeFormat.ExtractChildren | src/format/nodeTree.ts:175-181 | the child records load one after the other, as `LoadKids` says |
| NodeTreeFormat.Parse | src/format/nodeTree.ts:117-128 | the record's id becomes the root, and the registry is `LoadRoot` exactly when every descendant can be added |
| NodeTreeFormat.GetMind | src/format/nodeTree.ts:24-31 | a new mind with the source's metadata and the parsed tree |
| NodeTreeReload.BuiltPayload | src/format/nodeTree.ts:49-74 | the payload read back from a written node is its own payload, plus "children" when it has children |
| NodeTreeReload.BuiltReads | src/format/nodeTree.ts:49-74 | a written record reads back the node's id, topic, flag and the records of its children |
| NodeTreeReload.BuiltWellFormed | src/format/nodeTree.ts:49-74 | every written record, at every depth, is well formed |
| NodeTreeReload.LoadSubtree | src/format/nodeTree.ts:166-182 | loading a written subtree adds exactly its nodes, as copies |
| NodeTreeReload.LoadChildren | src/format/nodeTree.ts:175-181 | loading the written children adds exactly the nodes below them |
| NodeTreeReload.TreeRoundTrip | src/format/nodeTree.ts:117-128 | reading back the written root record of a clean tree succeeds and rebuilds exactly the live nodes, each a copy |
| NodeTreeReload.ReloadTree | src/format/nodeTree.ts:24-43 | writing and reading back yields the same live nodes, each with its topic and parent, the same children sets, and the written record's payload |
| NodeTreeReload.StaleBuilt | src/format/nodeTree.ts:56-72 | a childless root whose payload still lists child "a" is written with that stale list |
| NodeTreeReload.StaleParsed | src/format/nodeTree.ts:121-126 | reading that record back creates "a" |
| NodeTreeReload.StaleChildrenRevive | src/format/nodeTree.ts:56-72 | a removed child listed in the payload comes back to life after a round trip |
| JsMindApi.Sides | src/jsMind.ts:518-550 | each live node's side |
| JsMindApi.LastOnSide | src/jsMind.ts:533-545 | a result is a sibling on the asked side |
| JsMindApi.FirstOnSide | src/jsMind.ts:567-582 | a result is a sibling on the asked side |
| JsMindApi.LastOnSideNone | src/jsMind.ts:533-545 | there is no result exactly when no earlier sibling is on that side |
| JsMindApi.LastOnSideAt | src/jsMind.ts:533-545 | the result is the nearest earlier sibling on that side |
| JsMindApi.FirstOnSideNone | src/jsMind.ts:567-582 | there is no result exactly when no later sibling is on that side |
| JsMindApi.FirstOnSideAt | src/jsMind.ts:567-582 | the result is the nearest later sibling on that side |
| JsMindApi.ScanBefore | src/jsMind.ts:533-545 | the loop returns the nearest same-side sibling before the node, or none |
| JsMindApi.ScanAfter | src/jsMind.ts:567-582 | the loop returns the nearest same-side sibling after the node, or none |
| JsMindApi.RetitledValid | src/jsMind.ts:432-459 | changing a topic keeps the tree linked, with sides flowing |
| JsMindApi.JsMind.FindNodeBefore | src/jsMind.ts:518-550 | the root or an unknown id gives none; a root child gets the nearest earlier root child on its side; deeper nodes defer to `getNodeBefore` |
| JsMindApi.JsMind.FindNodeAfter | src/jsMind.ts:552-587 | the root or an unknown id gives none; a root child gets the nearest later root child on its side; deeper nodes defer to `getNodeAfter` |
| JsMindApi.JsMind.SelectNode | src/jsMind.ts:481-497 | a live, visible node becomes the selection; otherwise the selection is unchanged |
| JsMindApi.JsMind.UpdateNode | src/jsMind.ts:432-459 | in an editable map, a non-empty topic that differs from a live node's topic replaces it and nothing else changes; otherwise nothing changes |
| JsMindApi.JsMind.RemoveNode | src/jsMind.ts:392-430 | removal happens exactly when the map is editable and the node is live and not the root; then it is `Pruned` and the selection is cleared exactly when it lay in the subtree |
| LayoutSpec.Max | src/layoutProvider.ts:139 | the larger of the two values |
| LayoutSpec.Ceil | src/layoutProvider.ts:319 | the least whole number not below the value |
| LayoutSpec.SideOf | src/layoutProvider.ts:59-77 | a root child lies at -1 or +1, and at -1 exactly when the map is not in side mode and the child is on the left |
| LayoutSpec.DirectionsPlace | src/layoutProvider.ts:43-106 | the root lies at 0; every node of a root child's subtree takes that child's side (+1 or -1); each node's stored index is its position among its siblings |
| LayoutSpec.OuterExpanded | src/layoutProvider.ts:160-169 | an expanded node's outer height is the larger of its own height and its children's stack |
| LayoutSpec.OuterCollapsed | src/layoutProvider.ts:160-169 | a collapsed node's outer height is its own height |
| LayoutSpec.StackGap | src/layoutProvider.ts:167-190 | neighbouring centres are half their heights plus the vertical gap apart |
| LayoutSpec.StackFirst | src/layoutProvider.ts:181-190 | the first child's centre lies half its own height below the top edge of a stack centred on the parent |
| LayoutSpec.StackLast | src/layoutProvider.ts:181-190 | the last child's centre lies half its own height above the bottom edge of the stack |
| LayoutSpec.TailNonNegative | src/layoutProvider.ts:177-182 | with non-negative heights, the rest of the stack has a non-negative height |
| LayoutSpec.StackApart | src/layoutProvider.ts:167-190 | with non-negative heights and gap, any two siblings' boxes are at least the gap apart and do not overlap |
| LayoutSpec.ShownFalse | src/layoutProvider.ts:454-473 | hiding a list hides every node below it |
| LayoutSpec.AllShown | src/layoutProvider.ts:454-473 | when every node is expanded, showing a list shows every node below it |
| LayoutSpec.CollapsedHidden | src/layoutProvider.ts:454-473 | when every non-root node is collapsed, showing a list hides every node below the list's own members |
| LayoutSpec.AllShownAfter | src/layoutProvider.ts:380-384 | after showing with every node expanded, every node below is marked visible |
| LayoutSpec.CollapsedAfter | src/layoutProvider.ts:400-404 | after showing with every non-root node collapsed, the list's members are marked visible and all deeper nodes hidden |
| LayoutSpec.AcrossMirrored | src/layoutProvider.ts:171-175 | the horizontal offset of a left node mirrors that of a right node |
| LayoutSpec.AcrossOutward | src/layoutProvider.ts:171-175 | a right child sits at least the horizontal gap to the right, and a left child at least as far to the left |
| LayoutSpec.SidesSplit | src/layoutProvider.ts:121-129 | the left and right lists together are a permutation of the root's children |
| LayoutSpec.SidesCover | src/layoutProvider.ts:121-134 | the subtrees of the two lists together are all nodes below the root's children |
| LayoutSpec.RootSides | src/layoutProvider.ts:121-134 | the stored side lists are the filtered children, and their heights are their stacks |
| LayoutSpec.RootBounds | src/layoutProvider.ts:136-139 | the box is half the root's width either way, from 0 down to the taller side |
| LayoutSpec.OffsetChild | src/layoutProvider.ts:252-264 | a non-root node's absolute position is its parent's plus its own offset |
| LayoutSpec.Connectors | src/layoutProvider.ts:268-321 | for a node on either side: the node point is its box's corner, the out point is the width plus the gap outward, and the expander is half the gap (rounded up) above the out point |
| LayoutSpec.ConnectorGap | src/layoutProvider.ts:171-175 | a child starts exactly the horizontal gap beyond its parent's out point, or beyond the root's half width |
| LayoutSpec.FlaggedKeeps | src/layoutProvider.ts:355-365 | setting one expanded flag changes nothing else, so the tree stays linked with sides flowing |
| LayoutSpec.AllFlagged | src/layoutProvider.ts:367-378 | the flag walk keeps every key and liveness, and changes nothing but flags |
| LayoutSpec.AllFlaggedIdle | src/layoutProvider.ts:367-378 | when no node needs a change, the walk leaves the registry as it is |
| LayoutSpec.CollapseFlagsAsWrittenIdle | src/layoutProvider.ts:392-398 | the collapse loop as written changes no registry |
| LayoutSpec.CollapseFlagsAsWrittenMisses | src/layoutProvider.ts:392-398 | on a root with one expanded child, the loop as written leaves the child expanded, where the collapse leaves it collapsed |
| LayoutSpec.DepthFlags | src/layoutProvider.ts:407-431 | the depth walk changes flags only |
| Layout.LayoutProvider.constructor | src/layoutProvider.ts:13-18 | a new provider stores the mind, the mode and the gaps, starts with empty layout maps, no bounds, and an invalid cache |
| Layout.LayoutProvider.Reset | src/layoutProvider.ts:24-28 | the sides and indices are laid out and the bounds are zero |
| Layout.LayoutProvider.LayoutDirectionRoot | src/layoutProvider.ts:43-78 | every node gets the side and index `Directions` and `Indices` give it |
| Layout.LayoutProvider.LayoutDirectionSide | src/layoutProvider.ts:86-106 | the node's whole subtree gets the given side, and each node its sibling index |
| Layout.LayoutProvider.Layout | src/layoutProvider.ts:30-34 | sides, heights, vertical and horizontal offsets, visibility, side lists and bounds all become their laid-out values |
| Layout.LayoutProvider.LayoutOffset | src/layoutProvider.ts:108-140 | heights, offsets, visibility, side lists and bounds become their laid-out values; sides are untouched |
| Layout.LayoutProvider.SplitSides | src/layoutProvider.ts:121-129 | the root's children split into the right list and the rest, in order |
| Layout.LayoutProvider.SetVisible | src/layoutProvider.ts:454-473 | each node below the list is visible exactly when the flag is set and every ancestor down to the list is expanded |
| Layout.LayoutProvider.LayoutOffsetSubNodes | src/layoutProvider.ts:142-193 | returns the stack's height; stores each node's outer height, centred vertical offset and horizontal offset; hides what lies below collapsed nodes |
| Layout.LayoutProvider.StackMembers | src/layoutProvider.ts:153-179 | the first loop lays out each member from the last to the first |
| Layout.LayoutProvider.CentreStack | src/layoutProvider.ts:185-190 | the second loop shifts every member by half the total height |
| Layout.LayoutProvider.LayoutOffsetMember | src/layoutProvider.ts:154-178 | one member's outer height, offsets and hidden children |
| Layout.LayoutProvider.LayoutOffsetSubNodesHeight | src/layoutProvider.ts:195-240 | returns the stack's height and stores each node's outer height and centred vertical offset |
| Layout.LayoutProvider.LayoutHeightMember | src/layoutProvider.ts:205-224 | one member's outer height and offset below the running base |
| Layout.LayoutProvider.OffsetXFor | src/layoutProvider.ts:171-175 | a node's horizontal offset from its parent |
| Layout.LayoutProvider.GetNodeOffset | src/layoutProvider.ts:242-266 | a node's absolute position is the sum of the offsets along its parent chain, and it is cached |
| Layout.LayoutProvider.GetNodePointIn | src/layoutProvider.ts:279-282 | the in-point is the node's absolute position |
| Layout.LayoutProvider.GetNodePointOut | src/layoutProvider.ts:284-307 | the out-point is the origin for the root, otherwise the position moved outward by the width plus the gap; it is cached |
| Layout.LayoutProvider.GetNodePointAsWritten | src/layoutProvider.ts:268-277 | writing a field of the null point fails with a type error for every node |
| Layout.LayoutProvider.GetNodePoint | src/layoutProvider.ts:268-277 | the node's corner point as `NodePoint` describes it |
| Layout.LayoutProvider.GetExpanderPointAsWritten | src/layoutProvider.ts:309-321 | writing a field of the null point fails with a type error for every node |
| Layout.LayoutProvider.GetExpanderPoint | src/layoutProvider.ts:309-321 | the expander's point as `ExpanderPoint` describes it |
| Layout.LayoutProvider.GetMinSize | src/layoutProvider.ts:323-342 | the bounds only widen, until they cover every node's out-point; each widened edge is some out-point; the size is the box's width and height |
| Layout.LayoutProvider.PartLayout | src/layoutProvider.ts:433-452 | the side of the node (both sides for the root) is restacked, the bottom bound becomes the taller side, and the cache is invalid |
| Layout.LayoutProvider.CollapseNode | src/layoutProvider.ts:355-359 | the flag is cleared, the node's side is restacked, and every node below it is hidden |
| Layout.LayoutProvider.ExpandNode | src/layoutProvider.ts:361-365 | the flag is set, the node's side is restacked, and the nodes below it are shown as far as they are expanded |
| Layout.LayoutProvider.ToggleNode | src/layoutProvider.ts:344-353 | the root changes nothing; any other node has its flag flipped, then is restacked and re-shown like collapse or expand |
| Layout.LayoutProvider.FlagAll | src/layoutProvider.ts:372-378 | every flag that differs is set, and the count of changed nodes is returned |
| Layout.LayoutProvider.ExpandAll | src/layoutProvider.ts:367-385 | every node ends expanded; when any flag changed, the tree is restacked and every node is visible |
| Layout.LayoutProvider.CollapseAll | src/layoutProvider.ts:387-405 | every non-root node ends collapsed; when any flag changed, the tree is restacked, the root's children are visible and every deeper node hidden |
| Layout.LayoutProvider.CollapseAllAsWritten | src/layoutProvider.ts:387-405 | no flag changes; when some non-root node is expanded, the tree is still restacked and re-shown |
| Layout.LayoutProvider.ExpandToDepth | src/layoutProvider.ts:407-431 | a target below 1 changes nothing; otherwise nodes above the target depth end expanded, nodes at it end collapsed, deeper flags are kept, and only flags change |
| Layout.LayoutProvider.IsExpand | src/layoutProvider.ts:475-477 | the node's expanded flag |
| Layout.LayoutProvider.IsVisible | src/layoutProvider.ts:479-486 | true exactly when the node was marked visible |

## Left out

- MindStore.Mind.MoveNode: requires `MoveSafe`. This excludes moving the root (`node.parent.id` throws, src/mind.ts:270). It excludes a parentId that is unknown or removed (`getNode` gives null or undefined and `push` throws, src/mind.ts:295-296, after the node was already spliced out of its old parent at src/mind.ts:285-293). It excludes a beforeId naming the root or a removed node (`nodeBefore.parent.id` throws, src/mind.ts:322-323). It also excludes a target inside the node's own subtree; see Findings.
- MindStore.Mind.SetRoot: the model's root is an id into the registry, so it cannot represent a root object that lies outside the registry. That happens on a second `setRoot` whose id is already registered (src/mind.ts:63-64): the source's `root` is a new node with the new topic and data and no children, while the model's root resolves to the old entry, with its old topic, parent and children. Every parse runs on the fresh mind that `getMind` creates, so no modelled operation reaches this case.
- MindStore.Mind.AddNode, SetRoot, MoveNode, RemoveNode: a failing call only logs to the console. The console is not modelled.
- Layout.LayoutProvider.GetMinSize, FlagAll, ExpandAll, CollapseAll, CollapseAllAsWritten: these require a registry with no removed entries. The source loops read a field of every entry and would throw on an `undefined` one (src/layoutProvider.ts:328-336, 372-378, 392-398).
- Layout.LayoutProvider.Layout: requires the bounds to exist. Before `reset()`, `layoutOffset` throws at src/layoutProvider.ts:136, after sides, heights, offsets and visibility were already written; that partial state is not modelled.
- Layout.LayoutProvider.ExpandToDepth: states the flags the walk leaves, not the layout and visibility after each `expandNode` / `collapseNode` inside it. Those are stated once per call by ExpandNode and CollapseNode.
- Layout.LayoutProvider: the offset and out-point caches are written but never reused, because `cacheValid` is never true. Every contract about positions is stated for an invalid cache.
- Layout.LayoutProvider: element sizes come from the view layer. Here they are an input map (`sizes`).
- MindTree.SortByCompare: `Array.prototype.sort` is modelled as a stable insertion sort. For an inconsistent comparator the engine's order is not specified, and this model picks one.
- MindNodes.Index: the index is a real number or null. NaN, the infinities and floating-point rounding are not modelled. The depth target of `expandToDepth` is a whole number.
- NodeTreeReload.TreeRoundTrip, ReloadTree: require `TreeClean`: no reserved keys in any payload, and a "children" key only on nodes that have children. Without it the round trip is lossy (see StaleChildrenRevive).
- NodeArrayReload.ArrayRoundTrip, ReloadArray: require `Clean` payloads and a non-empty root id. With an empty root id the source drops every other node (src/format/nodeArray.ts:85).
- NodeArrayReload.ReloadArray, NodeTreeReload.ReloadTree: state children as sets, not order. The indices are reset to null on reload, and the order then depends on the comparator.
- NodeTreeFormat.Parse, NodeArrayFormat.Parse: require a mind with no root yet, as `getMind` passes a fresh one (src/format/nodeTree.ts:25, src/format/nodeArray.ts:21).
- NodeArrayFormat.GetMind: requires the data to be an array of well-formed records. NodeTreeFormat.GetMind requires a well-formed nested record (string id and topic). Other JSON shapes make the source throw or behave by JavaScript coercion, which is not modelled.
- NodeTreeFormat.Kids: a "children" value that is not an array is read as no children.
- Records: a JSON object is an unordered map, so key order in the written records is not modelled.
- NodeTreeFormat.ExtractSubNode, ExtractChildren, Parse: when a nested `addNode` fails (a duplicate id), the source goes on and throws at the next child (`node` is null). The model stops with `ok == false` and states nothing about the partial registry.
- JsMindApi.JsMind.RemoveNode, UpdateNode: the relayout and view refresh after the edit (src/jsMind.ts:413-418, 446-448) are not stated; the contracts state the registry and the selection.
- JsMindApi.JsMind: view refresh, events, the console and the rest of the facade (options, themes, shortcuts, `getSelectedNode`) are not part of this model.
- Disk, network and clipboard I/O of the formats are not modelled. A format works on an in-memory `Value`.

## Findings

| source | as written | input that shows it | evidently intended | confidence | as-written member | corrected member |
|---|---|---|---|---|---|---|
| src/layoutProvider.ts:268-277 | `point` is `null` and then `point.x` is assigned | any node | a fresh point object `{}` | not executed | Layout.LayoutProvider.GetNodePointAsWritten | Layout.LayoutProvider.GetNodePoint |
| src/layoutProvider.ts:309-321 | `expandPoint` is `null` and then `expandPoint.x` is assigned | any node | a fresh point object `{}` | not executed | Layout.LayoutProvider.GetExpanderPointAsWritten | Layout.LayoutProvider.GetExpanderPoint |
| src/layoutProvider.ts:392-398 | `collapseAll` sets `node.expanded = true` | a root with one expanded child (LayoutSpec.CollapseFlagsAsWrittenMisses): the child stays expanded, yet the tree is relaid and re-shown | `node.expanded = false` | not executed | Layout.LayoutProvider.CollapseAllAsWritten | Layout.LayoutProvider.CollapseAll |
| src/mind.ts:284-297 | `_moveNode` does not check that the new parent lies outside the node's subtree | chain r, a, b; move a under b | refuse the move; otherwise a and b become each other's parent and `_flowNodeDirection` recurses forever | not executed | Moving.MoveIntoOwnSubtree | Moving.MovedValid |
