# Menu flattening, modelled in Dafny

The repository compares four ways of flattening a navigation menu. A menu is an
ordered forest of items. Each item has an `id`, a `label`, some scalar fields
(`route`, `icon`, `badge`, …) and optional `children`. Flattening lists every
item once, as a copy without `children`. The four strategies are:

- a recursive walk pushing onto a shared result array;
- `Array.prototype.flatMap` with recursion;
- `Array.prototype.reduce` with recursion;
- an explicit stack followed by a final `reverse()`.

Each strategy exists in several files, which differ in what they add to each copy:

- `flatten-menu.js`: no `level`; only its recursive `flattenMenu` adds `parent: <label>`;
- `flatten-menu-with-levels.js`: a `level` (roots are level 1) everywhere, and `parent: <label>` in the recursive walk;
- `flatten-menu-with-ids.js` and the two performance scripts: a `level` everywhere, and `parentId` and `parentLabel` in the recursive walk.

The stack flattener of `flatten-menu.js` also works differently. It pushes the items
themselves, not `{item, level}` frames, and it reverses each item's own `children` array in place.

`flatten-menu-with-ids.js` also queries the flat list:

- `findItemById`;
- a `parentId` filter;
- `findDescendants`, a breadth-first search over `parentId`;
- grouping by `level`, with a count per level.

The two performance scripts build large synthetic menus. They run the four
flatteners on them and compare the results.

The model is split into these modules:

- `Menu` (menu.dfy): the data model. A node's `label` is called `caption` because `label` is a
  reserved word in Dafny. All other scalar fields form one `attrs` map. A
  `Style` says what a flattener adds to each copy:
  - `PlainStyle`: nothing;
  - `LevelStyle`: `level`;
  - `LabelParentStyle`: `parent`;
  - `LevelLabelStyle`: `level` and `parent`;
  - `IdsStyle`: `level`, `parentId` and `parentLabel`.

  The specification of every flattening is `PreOrder(style, forest)`, the
  records of the pre-order walk `Visits`. `IterOrder` is what the stack
  flatteners really return: for each root in input order, the pre-order of
  that root's tree, reversed.
- `PreOrderFacts` (preorder.dfy): length, permutation, level and parent facts about those walks.
- `Flatten` (flatten.dfy): the four strategies. The recursive walk is a method
  that loops over the siblings and recurses into the children. flatMap is a
  recursive function. reduce is a loop. The stack variant loops over a stack of
  `{item, level}` frames.
- `MenuObjects` (menu_objects.dfy): the stack flattener of `flatten-menu.js`,
  which reverses each `children` array in place. It runs over a heap of
  `MenuNode` objects, and a ghost snapshot ties the heap to the value trees.
- `Links` (links.dfy): what the recursive flattener's parent fields mean.
- `Queries` (queries.dfy): `findItemById`, the `parentId` filter,
  `findDescendants` and the by-level grouping and count.
- `Generators` (generators.dfy): `createLargeMenu`/`createChildren`,
  `createRealisticLargeMenu` and `createMenuWithDepth`/`createNestedChildren`.
- `Demos` (demos.dfy): the comparisons the scripts print.

The flatteners of `performance-test-with-memory.js` (lines 258-346) are the same as
those of `performance-test-large.js` (lines 235-323), character for character. The
table cites the latter.

## Model

| member | source | states |
|---|---|---|
| Flatten.Walk | flatten-menu-with-ids.js:238-258 | the inner `flattenRecursive(items, parent, level)` appends to the accumulated result exactly the pre-order records of `items` at `level` under `parent` |
| Flatten.FlattenRecursive | flatten-menu-with-ids.js:235-262 | flattenMenuWithIds returns the pre-order of the menu: one copy per item, parents before children, siblings in order, with `level` and, below the roots, `parentId`/`parentLabel` (style `IdsStyle`). The same member with `LevelLabelStyle` is flattenMenuWithLevels (flatten-menu-with-levels.js:201-227), with `LabelParentStyle` flattenMenu (flatten-menu.js:201-226), and with `IdsStyle` the performance tests' flattenMenuRecursive (performance-test-large.js:235-262) |
| Flatten.FlattenFlatMap | flatten-menu-with-ids.js:265-281 | the flatMap flattening from any starting level is the pre-order records at that level, with `level` and no parent fields; the same in flatten-menu-with-levels.js:230-246 and performance-test-large.js:265-279, and without `level` (`levels` false) in flatten-menu.js:229-240 |
| Flatten.FlattenReduce | flatten-menu-with-ids.js:284-299 | the reduce flattening from any starting level is the same pre-order as flatMap; the same in flatten-menu-with-levels.js:249-264 and performance-test-large.js:281-296, and without `level` in flatten-menu.js:243-256 |
| Flatten.FlattenIterative | flatten-menu-with-ids.js:302-326 | the stack flattening (roots pushed in order, children pushed reversed, result reversed) returns `IterOrder`: per root in input order, that root's pre-order reversed; the same in flatten-menu-with-levels.js:267-291 and performance-test-large.js:299-323 |
| Flatten.ReversedOwedIsIterOrder | flatten-menu-with-ids.js:304-325 | the reverse of the records owed by the initial stack of root frames is `IterOrder` |
| Flatten.OwedFrames | flatten-menu-with-ids.js:317-320 | the records owed by the `{item, level}` frames of a child list are that list's pre-order one level deeper |
| Flatten.PopPush | flatten-menu-with-ids.js:307-322 | popping a frame and pushing its children's frames reversed emits the frame's record and keeps the owed records unchanged |
| Flatten.FlattenIterativePreOrder | flatten-menu-with-ids.js:313-325 | with the roots also pushed in reverse and no final reverse, the stack flattening returns exactly the pre-order ("maintain original order") |
| PreOrderFacts.VisitsLength | flatten-menu-with-ids.js:238-258 | the walk yields exactly one visit per node of the forest |
| PreOrderFacts.ParentPrecedes | flatten-menu-with-ids.js:245-255 | every visit is at or below the starting level: at that level it is a listed item with the given parent; deeper, an earlier visit one level up is its parent and holds it among its children |
| PreOrderFacts.RecordsIgnoreParent | flatten-menu-with-ids.js:265-281 | a style without parent fields gives the same records whatever parent the walk starts under |
| PreOrderFacts.IterOrderIsPermutation | flatten-menu-with-ids.js:302-326 | the stack result has one record per node and is a permutation (equal multisets) of the pre-order |
| PreOrderFacts.IterOrderIsNotPreOrder | flatten-menu-with-ids.js:313-325 | with levels, whenever some root has children the stack result differs from the pre-order |
| PreOrderFacts.ParentFieldsDiffer | flatten-menu-with-ids.js:246-249 | whenever some root has children, the records with parent fields differ from those without |
| PreOrderFacts.UnlinkPreOrder | flatten-menu-with-ids.js:246-249 | dropping the parent fields of the recursive result gives exactly the flatMap/reduce result |
| Links.RecordShape | flatten-menu-with-ids.js:241-249 | record k copies node k's own fields, has `level` as the style says, and is a root without parent fields at level 1; deeper, it links to an earlier record, one level up, whose node holds it as a child |
| Links.WithIdsIsWellLinked | flatten-menu-with-ids.js:245-249 | when ids are unique, every `parentId` of the recursive result names an earlier record; a record has a `parentId` exactly when its level is not 1 |
| Queries.FindById | flatten-menu-with-ids.js:385-387 | `find` returns nothing exactly when no record has the id, and otherwise the first record that has it |
| Queries.ChildrenOfIsFilter | flatten-menu-with-ids.js:397-399 | the `parentId` filter keeps each record with that `parentId`, as often as it occurs, and nothing else, in list order |
| Queries.ChildrenMember | flatten-menu-with-ids.js:397-399 | a record is in the filtered list exactly when it is in the list and has that `parentId` |
| Queries.FindDescendants | flatten-menu-with-ids.js:404-416 | the queue loop returns `Descendants`, the breadth-first layers of children of `parentId`, in the order the queue visits them |
| Queries.QueueStep | flatten-menu-with-ids.js:407-413 | one dequeue keeps the queue equal to the unvisited rest of the current layer followed by the next layer found so far |
| Queries.DescendantsAreReachers | flatten-menu-with-ids.js:404-416 | a record is a descendant exactly when a chain of `parentId` links leads from it to `parentId`; none is the start record; the direct children come first |
| Queries.UpToOne | flatten-menu-with-ids.js:408-412 | the first round of the queue returns exactly the `parentId` filter of the start id |
| Queries.ReachesAfter | flatten-menu-with-ids.js:404-416 | in a list whose parents come first, every descendant comes after each record with the start id |
| Queries.WellLinkedParentsEarlier | flatten-menu-with-ids.js:410 | a list in which every record has an id, no two records share an id, and every `parentId` names an earlier record satisfies `ParentsEarlier`, the ordering under which the search is proved to end |
| Queries.GroupByLevel | flatten-menu-with-ids.js:361-367 | the `byLevel` map has a key for exactly the levels that occur; each bucket is non-empty and holds that level's records in list order; the same grouping in flatten-menu-with-levels.js:322-328 |
| Queries.AtLevelIsFilter | flatten-menu-with-ids.js:361-367 | a level's bucket holds each record of that level as often as it occurs in the list, and no other |
| Queries.AtLevelNonEmpty | flatten-menu-with-ids.js:362-363 | a level's bucket is non-empty exactly when some record has that level |
| Queries.BucketsPartition | flatten-menu-with-ids.js:379-381 | for any duplicate-free key list covering every level, the buckets together are a permutation of the list, so the per-level counts add up to its length; the same count in flatten-menu-with-levels.js:340-342 |
| MenuObjects.MenuNode.constructor | flatten-menu.js:3-198 | a menu item object holds its id, label, other fields and its mutable `children` array |
| MenuObjects.DrainStack | flatten-menu.js:263-274 | the pop loop emits the copies in the order of the object walk of the reversed stack, and reverses `children` in place on exactly the visited items |
| MenuObjects.FlattenIterativeInPlace | flatten-menu.js:259-277 | flattenMenuIterative returns `IterOrder` of the menu as it was, and leaves every item's `children` reversed |
| MenuObjects.ReversedObjsIsIterOrder | flatten-menu.js:276 | the final `reverse()` of the records of that object walk is `IterOrder` of the trees |
| MenuObjects.ObjsRecords | flatten-menu.js:265-268 | the copies of the object walk are the plain pre-order records of the trees the objects form |
| MenuObjects.MirrorTree | flatten-menu.js:272 | after every `children` array has been reversed, each object's tree is the mirror image of its old tree |
| MenuObjects.SecondCallIsPostOrder | flatten-menu.js:259-277 | on mirrored trees the stack flattening returns the post-order of the original trees |
| MenuObjects.FlattenIterativeTwice | flatten-menu.js:272 | calling flattenMenuIterative twice returns `IterOrder`, then the post-order, and restores every `children` array |
| MenuObjects.RepeatedCallsDiffer | flatten-menu.js:272 | on a root with children A, B the first call gives B, A, root and the second A, B, root |
| MenuObjects.FlattenIterativeCopying | flatten-menu.js:259-277 | a stack flattening that pushes reversed copies of `children`, and of the roots, changes no object and returns the pre-order |
| Generators.DecimalString | performance-test-large.js:335-337 | the decimal text of an index, as written by the template literals, is non-empty and all digits |
| Generators.DecimalRoundTrip | performance-test-large.js:335-337 | reading the printed digits back as a decimal number gives the index again |
| Generators.DecimalStringCanonical | performance-test-large.js:335-337 | two indices print the same text exactly when they are equal, and only 0 prints with a leading zero |
| Generators.LargeRootIdsDistinct | performance-test-large.js:333-335 | the roots of a large menu have pairwise distinct ids `item-<i>` |
| Generators.CreateChildren | performance-test-large.js:348-366 | below `maxDepth` there are `childrenPerItem` children per level, numbered `child-<level>-<i>`, with badges below 50; at `maxDepth` a leaf |
| Generators.CreateLargeMenu | performance-test-large.js:326-346 | `level1Count` roots `item-<i>`, badge below 100, each holding `createChildren(1, …)` |
| Generators.CompleteCount | performance-test-large.js:348-366 | a complete k-ary child list from level c to d holds k·(1 + k + … + k^(d-c-1)) nodes |
| Generators.TreeSizeIsGeometric | performance-test-large.js:348-366 | the recursive size of one generated subtree equals the geometric sum |
| Generators.LargeMenuSize | performance-test-large.js:422-454 | a large menu has n·(1 + k + … + k^(d-1)) items, and every flattening returns that many records |
| Generators.CompleteDepth | performance-test-large.js:349-351 | the generated subtree below level c is at most d − c deep |
| Generators.LargeMenuLevels | performance-test-large.js:326-366 | every record of a large menu has a level between 1 and `maxDepth`, and level `maxDepth` occurs when there is a root and `childrenPerItem` ≥ 1 (or `maxDepth` is 1) |
| Generators.CreateRealisticLargeMenu | performance-test-with-memory.js:349-399 | the menu is the original items, then `itemCount` sections `section-<i>` with Overview, Details and Settings (General, Advanced) |
| Generators.SectionCount | performance-test-with-memory.js:362-395 | each section holds five nodes below it |
| Generators.RealisticMenuSize | performance-test-with-memory.js:349-399 | the realistic menu has the original's node count plus 6 per section, and every flattening returns that many records |
| Generators.CreateNestedChildren | performance-test-with-memory.js:419-439 | below `maxDepth`, 2 to 6 children per node, ids `depth-<level>-<root>-<i>`, badges below 20; at `maxDepth` a leaf |
| Generators.CreateMenuWithDepth | performance-test-with-memory.js:402-417 | `itemCount` roots `depth-item-<i>`, badge below 30, each holding `createNestedChildren(1, maxDepth, i)` |
| Generators.NestedDepth | performance-test-with-memory.js:420-422 | a nested subtree below level c is at most d − c deep |
| Generators.DepthMenuLevels | performance-test-with-memory.js:402-439 | every record of a depth menu has a level between 1 and `maxDepth`, and level `maxDepth` occurs whenever there is a root |
| Demos.LeavesOnly | flatten-menu.js:298-303 | on a menu of leaves parent fields never appear and the stack order is the pre-order |
| Demos.AllSameIff | performance-test-large.js:397-401 | the four results of a test agree exactly when no root has children |
| Demos.FlattenMenuCheck | flatten-menu.js:298-303 | flatMap and reduce equal flattenMenu without its parent fields; the printed check is true exactly when no root has children |
| Demos.CompareFlattenings | performance-test-large.js:369-401 | `allSame` is true exactly when no root has children |
| Demos.LargeMenuComparesFalse | performance-test-large.js:422-454 | every generated large menu with a root, `childrenPerItem` ≥ 1 and depth ≥ 2 makes the comparison false |
| Demos.CompareFlatteningsUnlinked | performance-test-large.js:397-401 | without the parent fields, and with the order-keeping stack flattening, the four results always agree |
| Demos.CompareCounts | performance-test-with-memory.js:516-522 | `countSame` is always true: every strategy returns one record per node |

## Left out

- Console output, timing (`performance.now`), memory figures (`process.memoryUsage`), `global.gc` and the printed summaries are not modelled: they are I/O.
- `JSON.stringify(a) === JSON.stringify(b)` is modelled as equality of the record sequences. Key order is not modelled; every strategy builds its copies in the same key order.
- A node's extra fields are one `attrs` map, kept apart from the added `level` and parent fields. The sample menus have no field named `level`, `parent`, `parentId` or `parentLabel`, which a spread copy would overwrite.
- The sample `menuItems` literal is not part of this model. Any menu can be given instead, so `createRealisticLargeMenu` takes it as the parameter `original`, and the fixed node count of that literal is not stated.
- `Math.random()` badges and child counts are parameters: any value in the source's range is allowed (badges in `[0, bound)`, 2 to 6 nested children).
- index.js is not part of this model. It is an unrelated demo of the built-in `map`, `flatMap` and `flat(Infinity)` on literal arrays of numbers, and it touches no menu.
- Queries.FindDescendants: requires `ParentsEarlier`: every record comes after each record whose id equals its `parentId`, so a record without an id would have to come before every root, and a root without an id breaks the condition. This is a sufficient condition, stronger than termination needs. The source's loop runs forever only when the walk from `parentId` reaches a parent cycle, or an undefined id whose filter matches the roots again. On lists that break `ParentsEarlier` but still end (an id-less record the search never reaches, or a duplicated id with no cycle), the model says nothing. Links.WithIdsIsWellLinked shows that the flattened list of a menu with unique ids satisfies the condition. The source's one call, on the sample menu, is such a list.
- Queries.FindById: the source can also be called with `undefined` to match an item without an id; the model takes a string id.
- Queries.BucketsPartition: the key order of `Object.keys` is left open. The count holds for any duplicate-free list of the levels.
- MenuObjects.FlattenIterativeInPlace: requires that no item object appears twice in the menu (no shared subtrees). With sharing, the in-place reversal would apply twice.
- Generators.LargeMenuSize, Generators.LargeMenuLevels, Generators.DepthMenuLevels: they require only the shape of the generated menus (child counts per level), not the generated strings, so they hold for more menus than the generators build.
- createNestedChildren numbers children by level, root and position only. The ids therefore repeat inside one root's tree, and the model does not state that they are unique.
- createChildren numbers children by level and position only, so every root of a large menu has the same child ids.
- JavaScript's call-stack and argument-count limits are not modelled. The recursive strategies can throw `RangeError` on very deep menus, and so can the spread in `push(...)` on very long child lists (performance-test-large.js:471 warns of this). The model returns a result for every finite menu.

## Findings

| source | as written | input that shows it | evidently intended | confidence | as-written member | corrected member |
|---|---|---|---|---|---|---|
| flatten-menu-with-ids.js:313-325 | the stack flattening pushes the roots in order and reverses the result, so it returns each root's pre-order backwards, despite the comments "maintain original order" | one root with one child: [child, root] instead of [root, child] | the pre-order that the other three strategies return | not executed | PreOrderFacts.IterOrderIsNotPreOrder | Flatten.FlattenIterativePreOrder |
| flatten-menu.js:272 | `item.children.reverse()` reverses the menu's own `children` arrays in place, so a second call on the same menu returns another order | a root with children A, B: first call B, A, root, second call A, B, root | flattening leaves the menu unchanged, and every call returns the same list | not executed | MenuObjects.RepeatedCallsDiffer | MenuObjects.FlattenIterativeCopying |
| performance-test-large.js:397-401 | `allSame` compares the recursive result, which carries `parentId`/`parentLabel`, with the others, which do not, and the reversed stack order too, so it is false on every menu with a nested item | `createLargeMenu(1, 1, 2)`: the recursive result has `parentId` on the child record, flatMap's does not | the four strategies compared on the fields they share, which then always agree | not executed | Demos.CompareFlattenings | Demos.CompareFlatteningsUnlinked |
