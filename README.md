# Lichtenberg tree: a verified model

This project models the branching-tree engine of the lichtenberg-sim repository in Dafny and
proves properties of it. The engine grows a Lichtenberg-style figure layer by layer from a
root. It walks the figure breadth first, and it cuts the figure, depth first, into
polylines that the mesh builders turn into tubes.

What is modelled:

- **Nodes.** A `TreeNode` has a location, a parent back-reference and ordered children.
  Here all nodes of one tree live in an arena, `TreeNodes.NodeArena`. It is a class with a
  `seq<Node>` field, and each node names its parent and children by index. The root is
  index 0. Nodes are only ever appended, so every child has a larger index than its parent.
  `TreeModel.WellFormed` is the arena invariant: parent and children agree, and no node is
  a child twice. Every method of the arena preserves it.
- **Randomness.** Every `Math.random()` call becomes `Random.RandomSource.Next`, which
  takes the next draw from an injected, infinite stream. So growth is a function of the
  draws, and every contract can say which draws were used. `randSymmetricInt` is
  `MathUtils.RandSymmetricInt`, a pure function of its one draw.
- **Growth.** `growTreeLayer` is modelled twice:
  - as loops: `NodeArena.GrowTips` and `NodeArena.GrowTip` (the do-while);
  - as a function: `Growth.GrowStep`, used as their specification.

  The lemmas in `Growth` state what a growth step guarantees, listed in the table below.
- **Layer traversal.** `layerTraverse` (`NodeArena.LayerTraverse`) is the queue loop. It is
  proved equal to the level order `LevelOrder.LevelOrder`. The level order is proved to
  list every node exactly once, in order of depth.
- **Depth traversal.** `depthTraverse` (`NodeArena.Search` and `DepthTraverse`) returns the
  stream of callback calls as `Start`/`Step`/`End` events, equal to
  `DepthOrder.DepthEvents`. `DepthOrder` and `TreePaths` prove what the stream says about
  the tree:
  - the stream is a sequence of downward paths;
  - every non-root node is reached exactly once;
  - the paths end exactly at the non-root leaves.
- **Path closures.** The `startPath`/`addToPath`/`endPath` closures of both mesh builders are
  `Paths.PathAccumulator`. `endPath` pushes the working array itself, not a copy, so the
  model keeps track of which collected paths alias the working path. For the streams
  `depthTraverse` produces, the closures collect exactly the paths the stream reports:
  `Encode` and `Collect` are proved inverse to each other.
- **Mesh builders.** `GeometryMeshes.BuildLichtenbergTreeMesh` and
  `Meshes.BuildLichtenbergTreeMesh` build one tube per collected path. The first merges the
  tubes only when there is at least one of them. This happens exactly when the root has
  children.
- **Both tree versions.** The current tree (src/Structures/LichtenbergTree.ts) is
  `Lichtenberg.LichtenbergTree`. It has a configuration with optional overrides and a
  growth rate that may be a range. The older tree (src/Structures/LictenbergTree.ts) is
  `LegacyLichtenberg.LichtenbergTree`. It has loose numeric fields and a fixed growth
  length. The two files' `TreeNode` classes differ only in that `growLength` may be a
  range in the current one. So both trees keep their nodes in a `NodeArena` and run its
  methods. The rows citing the current file's `TreeNode` lines also cover the older file's
  identical `TreeNode` (src/Structures/LictenbergTree.ts:4-47).
- **Counter loop.** `doNTimes` (src/utils/misc.ts) is `Misc.DoNTimes`.

Floating point is modelled as exact reals: locations are `Vec3` values over `real`, and
`Math.floor` is `.Floor`. The tests' concrete trees and test vectors are restated as lemmas:

- both traversal tests of src/Structures/LichtenbergTree.test.ts;
- the depth test of src/Structures/LictenbergTree.test.ts, through the same arena;
- the `randSymmetricInt` test vectors.

## Model

| member | source | states |
|---|---|---|
| TreeModel.WithChild | src/Structures/LichtenbergTree.ts:33-39 | `addChild`: exactly one new node, at the end, with the given location, the parent set and no children; the parent's children gain it last; every other node is unchanged |
| TreeModel.WithChildWellFormed | src/Structures/LichtenbergTree.ts:33-39 | adding a child keeps the arena a tree |
| TreeModel.WithChildrenShape | src/Structures/LichtenbergTree.ts:41-50 | `addChildren`: the arena stays a tree; the parent's children are extended by the new nodes in input order; the i-th new node has the i-th location and the parent; other nodes are unchanged |
| TreeModel.WithChildren | src/Structures/LichtenbergTree.ts:41-50 | `addChildren`: one `addChild` per location, in order, so the arena grows by exactly one node per location |
| TreeModel.Parent | src/Structures/LichtenbergTree.ts:4-12 | every non-root node has a parent, which comes before it and lists it among its children |
| TreeModel.RootHasNoParent | src/Structures/LichtenbergTree.ts:93-95 | the root never has a parent |
| Random.RandomSource.Next | src/utils/math.ts:22 | one `Math.random()` call: the next draw of the stream, and exactly one draw consumed |
| MathUtils.RandSymmetricInt | src/utils/math.ts:22 | the offset is `Math.floor((r*2-1)*s)`: the greatest integer at or below `(r*2-1)*s` |
| MathUtils.DrawSymmetricInt | src/utils/math.ts:2-23 | `randSymmetricInt` consumes exactly one draw and returns `floor((r*2-1)*s)` of that draw |
| MathUtils.RandSymmetricIntTestVectors | src/utils/math.test.ts:6-15 | a draw of 0.3 with range 5 gives -2; a draw of 0.8 gives 3 |
| MathUtils.RandSymmetricIntBounds | src/utils/math.ts:1-22 | for a natural range s and a draw in [0,1), the result lies in [-s, s], more tightly in [-s, s-1] for s > 0, and is 0 for s = 0 |
| MathUtils.RandSymmetricIntExtremes | src/utils/math.ts:22 | a draw of 0 gives exactly -s; a range of 0 always gives 0 |
| Misc.DoNTimes | src/utils/misc.ts:1-5 | the callback receives 0, 1, 2, ... in order, once for each natural number below n: the number of calls is the least natural number at or above n, and none for n <= 0 |
| Growth.RangeLengthBounds | src/Structures/LichtenbergTree.ts:17-19 | a ranged growth length lies between min and max |
| Growth.ChildLocation | src/Structures/LichtenbergTree.ts:14-25 | the location `branchOutRandChild` gives a child: y raised by the fixed length, or by `r*(max-min)+min` of the first draw for a range; then x and z offset by `randSymmetricInt` of the next two draws |
| Growth.BranchOut | src/Structures/LichtenbergTree.ts:111-112 | the do-while body: a new child of the tip at the location placed from the current draws, pushed onto the new tips, with the child's draws used up |
| Growth.ChildLocationBounds | src/Structures/LichtenbergTree.ts:14-31 | a new child lies within [-n, max(n-1,0)] of its parent in x and in z; y grows by the fixed length, or by a length between min and max for a range |
| Growth.GrowTip | src/Structures/LichtenbergTree.ts:109-115 | the do-while for one tip always adds a node |
| Growth.GrowLayer | src/Structures/LichtenbergTree.ts:105-116 | growing a layer never removes nodes |
| Growth.GrowStep | src/Structures/LichtenbergTree.ts:102-118 | `growTreeLayer` from an empty new-tip list, with the children placed from the draws as `branchOutRandChild` does; what it guarantees is stated by the `GrowLayer` lemmas below |
| Growth.GrowTipMore | src/Structures/LichtenbergTree.ts:109-115 | when the condition draw is below `branchFactor` and fewer than `maxChildBranches` children exist, the loop creates another child after consuming that draw |
| Growth.GrowTipLast | src/Structures/LichtenbergTree.ts:109-115 | otherwise the loop stops after the child just created, with the condition draw consumed |
| Growth.GrowTipWellFormed | src/Structures/LichtenbergTree.ts:109-115 | growing a tip keeps the arena a tree |
| Growth.GrowTipNewTips | src/Structures/LichtenbergTree.ts:109-115 | the children a tip grows are pushed onto the new tips in creation order |
| Growth.GrowTipChildren | src/Structures/LichtenbergTree.ts:109-115 | the tip's children are extended by exactly its new nodes, in creation order |
| Growth.GrowTipOthers | src/Structures/LichtenbergTree.ts:109-115 | growing a tip changes no other existing node |
| Growth.GrowTipLeaves | src/Structures/LichtenbergTree.ts:14-31 | the i-th new child of a tip is a leaf under that tip, placed from the draws at offset i times the draws per child |
| Growth.ChildCount | src/Structures/LichtenbergTree.ts:109-115 | every tip grows at least one child |
| Growth.GrowTipCount | src/Structures/LichtenbergTree.ts:109-115 | a tip grows exactly `ChildCount` children and consumes the draws of each child plus one condition draw per child |
| Growth.ChildCountStops | src/Structures/LichtenbergTree.ts:115 | every condition draw but the last passed the loop test and the last failed it |
| Growth.ChildCountBounds | src/Structures/LichtenbergTree.ts:109-115 | a tip grows between 1 and max(1, `maxChildBranches`) children |
| Growth.GrowLayerWellFormed | src/Structures/LichtenbergTree.ts:102-118 | a growth step keeps the arena a tree |
| Growth.GrowLayerTips | src/Structures/LichtenbergTree.ts:102-118 | the new tips are exactly the nodes created in this step, in creation order |
| Growth.GrowLayerOrder | src/Structures/LichtenbergTree.ts:104-117 | for distinct tips, the new tips are grouped by the tip they grew from, in the order of the tips: all the children the first tip gained, then those of the second, and so on |
| Growth.GrowLayerOld | src/Structures/LichtenbergTree.ts:102-118 | no existing node moves or changes parent or loses a child, and nodes that are not tips are untouched |
| Growth.GrowLayerLeaves | src/Structures/LichtenbergTree.ts:102-118 | every created node is a leaf whose parent is one of the old tips |
| Growth.GrowLayerSize | src/Structures/LichtenbergTree.ts:102-118 | the number of new nodes lies in [tips, tips * max(1, `maxChildBranches`)] |
| Growth.GrowLayerCounts | src/Structures/LichtenbergTree.ts:105-116 | each of distinct tips gains between 1 and max(1, `maxChildBranches`) children |
| TreeNodes.NodeArena.constructor | src/Structures/LichtenbergTree.ts:9-12 | a lone root with the given location, no parent and no children |
| TreeNodes.NodeArena.AddChild | src/Structures/LichtenbergTree.ts:33-39 | `addChild` appends the child as `WithChild` says and returns it |
| TreeNodes.NodeArena.AddChildren | src/Structures/LichtenbergTree.ts:41-50 | `addChildren` gives `WithChildren` and returns the new nodes in input order |
| TreeNodes.NodeArena.BranchOutRandChild | src/Structures/LichtenbergTree.ts:14-31 | the child is placed by `ChildLocation` from the next draws: a length draw for a range, then x, then z; a range takes three draws, a fixed length two |
| TreeNodes.NodeArena.GrowTip | src/Structures/LichtenbergTree.ts:106-115 | the do-while leaves the arena, new tips and draw count that `Growth.GrowTip` gives |
| TreeNodes.NodeArena.GrowTips | src/Structures/LichtenbergTree.ts:102-118 | the loop over the tips leaves the arena, new tips and draw count that `Growth.GrowStep` gives |
| TreeNodes.NodeArena.LayerTraverse | src/Structures/LichtenbergTree.ts:120-129 | the queue loop visits exactly the level order |
| TreeNodes.NodeArena.Search | src/Structures/LichtenbergTree.ts:132-156 | `search(node, started)` makes exactly the calls `PathEvents` gives |
| TreeNodes.NodeArena.DepthTraverse | src/Structures/LichtenbergTree.ts:158 | `search(root)` makes exactly the calls `DepthEvents` gives |
| LevelOrder.ExpandMembers | src/Structures/LichtenbergTree.ts:123-127 | the next layer holds exactly the children of the current layer's nodes |
| LevelOrder.ExpandNoDup | src/Structures/LichtenbergTree.ts:127 | the children of distinct nodes are distinct |
| LevelOrder.ExpandLevel | src/Structures/LichtenbergTree.ts:120-129 | the children of the nodes at depth d are exactly the nodes at depth d+1 |
| LevelOrder.LevelOrderFromLevels | src/Structures/LichtenbergTree.ts:120-129 | from the layer at depth d, the order lists each node of depth at least d once, by non-decreasing depth |
| LevelOrder.LevelOrderVisitsAll | src/Structures/LichtenbergTree.ts:120-129 | `layerTraverse` visits every node exactly once, in non-decreasing depth |
| LevelOrder.PendingStart | src/Structures/LichtenbergTree.ts:121 | the queue seeded with the root has the whole level order still to visit |
| LevelOrder.PendingPop | src/Structures/LichtenbergTree.ts:123-127 | visiting the head of the queue and queueing its children leaves the rest of the order to visit |
| LevelOrder.PendingNextLayer | src/Structures/LichtenbergTree.ts:122-127 | when a layer is used up, the queued children are the next layer |
| LevelOrder.Visit | src/Structures/LichtenbergTree.ts:122-128 | one pass of the queue loop keeps the traversal invariant and makes progress |
| LevelOrder.PendingEnd | src/Structures/LichtenbergTree.ts:122 | an empty queue has nothing left to visit |
| DepthOrder.Reach | src/Structures/LichtenbergTree.ts:146-152 | once a path is open, a node is a step when it has children and an end when it is a leaf, never a start |
| DepthOrder.OwnEvents | src/Structures/LichtenbergTree.ts:133-150 | the calls `search(node, started)` makes for the node itself: a start at the parent when no path is open and there is a parent, then a start at the node when still none is open, else a step for a node with children and an end for a leaf |
| DepthOrder.PathEvents | src/Structures/LichtenbergTree.ts:132-156 | all the calls of `search(node, started)`: the node's own, then those of its children's searches |
| DepthOrder.ChildEvents | src/Structures/LichtenbergTree.ts:152-155 | the calls of the child loop: each child searched in turn, only the first with a path open |
| DepthOrder.DepthEvents | src/Structures/LichtenbergTree.ts:158 | the calls of `depthTraverse`: `search(root)` with no path open |
| DepthOrder.OwnEventsAreEmission | src/Structures/LichtenbergTree.ts:136-152 | a node's own calls are fixed by the tree: the root starts a path; a first child continues its parent's path; any other child starts a path at its parent first |
| DepthOrder.FirstChildAt | src/Structures/LichtenbergTree.ts:154-157 | only the first child is searched with a path open |
| DepthOrder.PathEventsAreEmissions | src/Structures/LichtenbergTree.ts:132-156 | the calls of `search` are those of the nodes of the subtree in pre-order |
| DepthOrder.ChildEventsAreEmissions | src/Structures/LichtenbergTree.ts:154-157 | the calls of the child loop are those of the children's subtrees in turn |
| DepthOrder.DepthEventsAreEmissions | src/Structures/LichtenbergTree.ts:131-159 | `depthTraverse` makes the calls of every node in pre-order |
| DepthOrder.PreOrderFromDescendants | src/Structures/LichtenbergTree.ts:154-157 | the recursion below a node visits each of its descendants exactly once |
| DepthOrder.PreOrderChildrenDescendants | src/Structures/LichtenbergTree.ts:154-157 | the loop over the first i children visits each node below them exactly once |
| DepthOrder.PreOrderVisitsAll | src/Structures/LichtenbergTree.ts:131-159 | the search visits every node exactly once, the root first |
| DepthOrder.PathEventsChained | src/Structures/LichtenbergTree.ts:132-156 | `search` emits a chain of downward paths, starting as the flag says and ending at a leaf, except for a lone root |
| DepthOrder.ChildEventsChained | src/Structures/LichtenbergTree.ts:154-157 | the child loop emits a chain of downward paths from a child, ending at a leaf |
| DepthOrder.DepthEventsChained | src/Structures/LichtenbergTree.ts:131-159 | the stream opens with `Start(root)`, opens paths only after an end, walks one level down per event, ends at leaves; a childless root gives exactly `[Start(root)]` |
| DepthOrder.DepthEventsCoverBranches | src/Structures/LichtenbergTree.ts:131-159 | every non-root node gets exactly one step or end |
| DepthOrder.Locate | src/GeometryMeshes/LichtenbergTree.ts:16-27 | the closures see the location of each node, with the kind of every call kept |
| Paths.Alias | src/GeometryMeshes/LichtenbergTree.ts:24-27 | the entries pushed since the working path started all show its current contents |
| Paths.Feed | src/GeometryMeshes/LichtenbergTree.ts:16-27 | after any callback a working path exists and the aliasing bookkeeping stays in range |
| Paths.FeedAll | src/GeometryMeshes/LichtenbergTree.ts:16-29 | the closures run on the events one by one, in order |
| Paths.Collect | src/GeometryMeshes/LichtenbergTree.ts:13-29 | the `paths` array the closures leave, starting from no paths and no working path |
| Paths.FeedSteps | src/GeometryMeshes/LichtenbergTree.ts:20-22 | steps into a fresh path extend the working path and leave the paths alone |
| Paths.FeedEnd | src/GeometryMeshes/LichtenbergTree.ts:24-27 | ending a fresh path pushes it with the location appended |
| Paths.FeedPath | src/GeometryMeshes/LichtenbergTree.ts:16-27 | the calls of one path push exactly that path, whatever came before |
| Paths.FeedEncode | src/GeometryMeshes/LichtenbergTree.ts:13-29 | the calls of a list of paths push exactly those paths |
| Paths.CollectEncode | src/GeometryMeshes/LichtenbergTree.ts:13-29 | collecting the calls of any list of paths gives back those paths |
| Paths.Decompose | src/GeometryMeshes/LichtenbergTree.ts:13-29 | a stream that alternates starts and ends, and ends closed, reports some list of paths of two or more locations each |
| Paths.EncodeCollect | src/GeometryMeshes/LichtenbergTree.ts:13-29 | for such a stream the collected paths have two locations or more and report the stream again |
| Paths.EndsOfEncode | src/GeometryMeshes/LichtenbergTree.ts:24-27 | each path ends at its own end call |
| Paths.CollectEnds | src/GeometryMeshes/LichtenbergTree.ts:24-27 | there is one collected path per end call, finishing at that call's location |
| Paths.PathAccumulator.constructor | src/GeometryMeshes/LichtenbergTree.ts:13-14 | no paths and no working path |
| Paths.PathAccumulator.StartPath | src/GeometryMeshes/LichtenbergTree.ts:16-18 | the working path becomes the one location; the paths are unchanged |
| Paths.PathAccumulator.AddToPath | src/GeometryMeshes/LichtenbergTree.ts:20-22 | the location is appended to the working path, and to the pushed paths that alias it |
| Paths.PathAccumulator.EndPath | src/GeometryMeshes/LichtenbergTree.ts:24-27 | the location is appended and the working path is pushed onto the paths |
| Paths.CollectPaths | src/Meshes/LichtenbergTree.ts:12-28 | running the closures over a stream, one call per event, leaves `Collect` of the stream |
| Lichtenberg.MergeConfig | src/Structures/LichtenbergTree.ts:96-98 | each field given in the override replaces the current one; the others are kept |
| Lichtenberg.InitialConfig | src/Structures/LichtenbergTree.ts:84-99 | without an override the defaults `DefaultConfig` gives (fixed growth rate 5, spread range 5, branch factor 0.5, at most 3 child branches); with one, the defaults overridden |
| Lichtenberg.LichtenbergTree.constructor | src/Structures/LichtenbergTree.ts:93-99 | a lone childless root, which is the only tip, and the initial configuration |
| Lichtenberg.LichtenbergTree.GrowTreeLayer | src/Structures/LichtenbergTree.ts:102-118 | the arena, tips and draws used are those of `GrowStep`; the tips are the new nodes, grouped by old tip in the old tips' order; every old tip gains at least one and at most max(1, `maxChildBranches`) children |
| Lichtenberg.LichtenbergTree.LayerTraverse | src/Structures/LichtenbergTree.ts:120-129 | the callback receives the nodes in level order |
| Lichtenberg.LichtenbergTree.DepthTraverse | src/Structures/LichtenbergTree.ts:131-159 | the callbacks are called as `DepthEvents` says |
| Lichtenberg.BuildTestTree | src/Structures/LichtenbergTree.test.ts:13-31 | the test's construction gives exactly the six-node test arena |
| Lichtenberg.AddTestBranches | src/Structures/LichtenbergTree.test.ts:16-28 | the three `addChildren` calls on a lone root give the test arena |
| Lichtenberg.TestTreeWellFormed | src/Structures/LichtenbergTree.test.ts:6-12 | the test arena is a tree |
| Lichtenberg.TestTreeLayerOrder | src/Structures/LichtenbergTree.test.ts:67-74 | the layer traversal of the test tree visits nodes 0, 1, 2, 3, 4, 5 |
| Lichtenberg.TestTreeLayerLocations | src/Structures/LichtenbergTree.test.ts:57-75 | the layer test records (0,0,0), (-1,1,0), (0,1,0), (-2,2,0), (0,2,0), (1,2,0) |
| Lichtenberg.TestTreeDepthEvents | src/Structures/LichtenbergTree.test.ts:45-54 | the depth traversal of the test tree is Start 0, Step 1, End 3, Start 0, Step 2, End 4, Start 2, End 5 |
| Lichtenberg.TestTreeDepthLocations | src/Structures/LichtenbergTree.test.ts:34-55 | the depth test records those calls at the expected locations |
| LegacyLichtenberg.LichtenbergTree.constructor | src/Structures/LictenbergTree.ts:54-72 | a lone childless root as the only tip; growthRate 5, spreadRange 5, branchFactor 0.5, maxBranchesPerNode 3, maxBranchLength 10 |
| LegacyLichtenberg.LichtenbergTree.GrowTreeLayer | src/Structures/LictenbergTree.ts:75-90 | the arena, tips and draws of `GrowStep` with the fixed length; the tips are the new nodes, grouped by old tip in the old tips' order; every old tip gains at least one and at most max(1, `maxBranchesPerNode`) children; the fields are unchanged |
| LegacyLichtenberg.LichtenbergTree.LayerTraverse | src/Structures/LictenbergTree.ts:92-101 | the callback receives the nodes in level order |
| LegacyLichtenberg.LichtenbergTree.DepthTraverse | src/Structures/LictenbergTree.ts:103-131 | the callbacks are called as `DepthEvents` says |
| LegacyLichtenberg.BuildTestTree | src/Structures/LictenbergTree.test.ts:13-31 | the older test builds the same arena, so its depth test expects `TestTreeDepthEvents` |
| TreePaths.DepthEventsBelow | src/Structures/LichtenbergTree.ts:131-159 | the callbacks receive nodes of the tree only, and the first call starts a path at the root |
| TreePaths.LocatedEvents | src/GeometryMeshes/LichtenbergTree.ts:16-29 | the closures' first call starts a path at the root's location |
| TreePaths.TreePathsOf | src/GeometryMeshes/LichtenbergTree.ts:13-29 | the paths collected by the closures over `depthTraverse` of the tree |
| TreePaths.ChainedAlternating | src/Structures/LichtenbergTree.ts:136-156 | a path opens only right after the previous one ended, as the closures need |
| TreePaths.TreePathsShape | src/GeometryMeshes/LichtenbergTree.ts:13-29 | every path has two locations or more; there is no path exactly when the root has no children; otherwise the paths report the traversal again |
| TreePaths.TreePathsEnds | src/GeometryMeshes/LichtenbergTree.ts:24-29 | the paths finish, in order, at the locations of the traversal's end calls |
| TreePaths.DepthEventsEnds | src/Structures/LichtenbergTree.ts:146-157 | every leaf other than the root ends exactly one path, and no other node ends one |
| TreePaths.TestTreePaths | src/GeometryMeshes/LichtenbergTree.ts:13-29 | the test tree's paths are [(0,0,0),(-1,1,0),(-2,2,0)], [(0,0,0),(0,1,0),(0,2,0)] and [(0,1,0),(1,2,0)] |
| TreePaths.TubesShape | src/GeometryMeshes/LichtenbergTree.ts:35-39 | every tube has at least two points and ten segments, radius 0.5, 8 radial segments, and is open |
| TreePaths.TubeFor | src/GeometryMeshes/LichtenbergTree.ts:36-37 | the tube along a path: its points, `path.length * 5` tubular segments, radius 0.5, 8 radial segments, open |
| TreePaths.TubesEndAtLeaves | src/GeometryMeshes/LichtenbergTree.ts:35-39 | there is one tube per end call, finishing at that leaf's location |
| GeometryMeshes.BuildLichtenbergTreeMesh | src/GeometryMeshes/LichtenbergTree.ts:12-47 | one tube geometry per collected path, in order; the merged mesh is built exactly when the root has children, from those geometries |
| Meshes.BuildLichtenbergTreeMesh | src/Meshes/LichtenbergTree.ts:11-37 | one tube mesh per collected path, in order; none exactly when the root has no children |

## Left out

- Rendering is not modelled: `CatmullRomCurve3`, `TubeGeometry`, `mergeBufferGeometries`, `mergeVertices`, `Mesh`, `Group`, lights, materials and `cleanup`. A tube is a record of its constructor arguments, and the merged mesh is the list of geometries it merges.
- The branch-tip average location and the light placed there are not modelled. They are float vector arithmetic, and with no tips the average divides by zero.
- Floats are exact reals, so rounding in locations, in the ranged growth length and in the `randSymmetricInt` product is not captured.
- `Math.random()` is an injected stream of draws. `Random.UnitDraws` states that the draws lie in [0,1); the growth contracts hold for any stream.
- `maxBranchLength` is stored by the older tree's constructor and read nowhere, so there is nothing more to model.
- A configuration override whose field is present but `undefined` replaces the default with `undefined` in JavaScript. `Lichtenberg.ConfigOverride` has only present-with-value or absent fields.
- `maxChildBranches` and `maxBranchesPerNode` are integers here. A fractional bound would give the same counts as its ceiling.
- The callbacks of `layerTraverse` and `depthTraverse` are replaced by the sequence of their calls, and the mesh builders run the closures over that sequence after the traversal. The closures only touch their own state, so the interleaving does not change what they collect.
- `addToPath` or `endPath` before any `startPath` throws a TypeError in JavaScript. The model makes the first event a start by precondition; `depthTraverse` always satisfies it.
- The `if (currentNode)` check in `layerTraverse` is always true for a non-empty queue, so it is not modelled.
- Object identity of `TreeNode`s is modelled by arena indices. Both tree classes run the same `NodeArena` methods because the two files' `TreeNode` code is the same except for the range-valued length.
- The frame timing that calls `growTreeLayer` lives outside these files and is not modelled.
- Neither constructor has the default `rootLocation` of `new Vector3(0, 0, 0)`, so the root location is always passed. The tests always pass one, so no modelled behaviour depends on the default.
