/**
 * `LichtenbergTree`: a root `TreeNode`, a configuration and the current branch tips. Its
 * nodes live in a `NodeArena`; the tree grows one layer per `growTreeLayer` and is walked
 * breadth first by `layerTraverse` and depth first, path by path, by `depthTraverse`.
 */
module Lichtenberg {
  import opened Wrappers
  import opened TreeModel
  import opened Growth
  import opened LevelOrder
  import opened DepthOrder
  import opened TreeNodes
  import Random

  /** A `Partial<LichtenbergTreeConfig>`: every field is either given or left out. */
  datatype ConfigOverride = ConfigOverride(
    growthRate: Option<GrowLength>,
    spreadRange: Option<real>,
    branchFactor: Option<real>,
    maxChildBranches: Option<int>)

  /** The configuration a tree starts from: grow 5 up, spread up to 5 sideways, branch with probability 0.5, at most 3 children. */
  const DefaultConfig: Config := Config(Fixed(5.0), 5.0, 0.5, 3)

  /** `{ ...base, ...over }`: every field given in `over` replaces the one in `base`; the others are kept. */
  function MergeConfig(base: Config, over: ConfigOverride): (c: Config)
    ensures over.growthRate.Some? ==> c.growthRate == over.growthRate.value
    ensures over.growthRate.None? ==> c.growthRate == base.growthRate
    ensures over.spreadRange.Some? ==> c.spreadRange == over.spreadRange.value
    ensures over.spreadRange.None? ==> c.spreadRange == base.spreadRange
    ensures over.branchFactor.Some? ==> c.branchFactor == over.branchFactor.value
    ensures over.branchFactor.None? ==> c.branchFactor == base.branchFactor
    ensures over.maxChildBranches.Some? ==> c.maxChildBranches == over.maxChildBranches.value
    ensures over.maxChildBranches.None? ==> c.maxChildBranches == base.maxChildBranches
  {
    Config(
      over.growthRate.GetOr(base.growthRate),
      over.spreadRange.GetOr(base.spreadRange),
      over.branchFactor.GetOr(base.branchFactor),
      over.maxChildBranches.GetOr(base.maxChildBranches))
  }

  /** The configuration the constructor settles on: the defaults, overridden by `config` when one is passed. */
  function InitialConfig(config: Option<ConfigOverride>): (c: Config)
    ensures config.None? ==> c == DefaultConfig
    ensures config.Some? ==> c == MergeConfig(DefaultConfig, config.value)
  {
    match config
    case None => DefaultConfig
    case Some(over) => MergeConfig(DefaultConfig, over)
  }

  class LichtenbergTree {
    /** The tree's nodes; `root` is node `Root` of this arena. */
    const arena: NodeArena
    var config: Config
    var branchTips: seq<nat>

    /** The arena is a tree and the tips are distinct nodes of it. */
    ghost predicate Valid()
      reads this, arena
    {
      arena.Valid() && AllBelow(branchTips, |arena.nodes|) && NoDup(branchTips)
    }

    /** `new LichtenbergTree(rootLocation, config)`: a lone root, which is the only tip. */
    constructor (rootLocation: Vec3, config: Option<ConfigOverride>)
      ensures Valid() && fresh(arena)
      ensures arena.nodes == [Node(rootLocation, None, [])] && branchTips == [Root]
      ensures this.config == InitialConfig(config)
    {
      arena := new NodeArena(rootLocation);
      branchTips := [Root];
      this.config := InitialConfig(config);
    }

    /**
     * `growTreeLayer`: every tip grows at least one and at most `max(1, maxChildBranches)`
     * children, and the children grown in this layer, all of them new nodes, become the tips,
     * grouped by the old tip they grew from, in the old tips' order.
     */
    method GrowTreeLayer(rng: Random.RandomSource)
      requires Valid()
      modifies this, arena, rng
      ensures Valid() && config == old(config)
      ensures arena.nodes == GrowStep(old(arena.nodes), old(branchTips), config, rng.draws, old(rng.used)).nodes
      ensures branchTips == GrowStep(old(arena.nodes), old(branchTips), config, rng.draws, old(rng.used)).newTips
      ensures rng.used == GrowStep(old(arena.nodes), old(branchTips), config, rng.draws, old(rng.used)).pos
      ensures branchTips == Fresh(|old(arena.nodes)|, |arena.nodes| - |old(arena.nodes)|)
      ensures |old(branchTips)| <= |branchTips| <= |old(branchTips)| * Max(1, config.maxChildBranches)
      ensures branchTips == Gained(old(arena.nodes), arena.nodes, old(branchTips))
      ensures forall i :: 0 <= i < |old(branchTips)| ==>
        1 <= |arena.nodes[old(branchTips)[i]].children| - |old(arena.nodes)[old(branchTips)[i]].children| <= Max(1, config.maxChildBranches)
    {
      ghost var st := Grown(arena.nodes, [], rng.used);
      ghost var place := Placement(config, rng.draws);
      GrowLayerTips(st, branchTips, config, rng.draws, place);
      GrowLayerSize(st, branchTips, config, rng.draws, place);
      GrowLayerOrder(st, branchTips, config, rng.draws, place);
      GrowLayerCounts(st, branchTips, config, rng.draws, place);
      var newTips := arena.GrowTips(branchTips, config, rng);
      FreshNoDup(|st.nodes|, |arena.nodes| - |st.nodes|);
      branchTips := newTips;
    }

    /** `layerTraverse(callback)`: the nodes handed to `callback`, in order. */
    method LayerTraverse() returns (visited: seq<nat>)
      requires Valid()
      ensures visited == LevelOrder.LevelOrder(arena.nodes)
    {
      visited := arena.LayerTraverse();
    }

    /** `depthTraverse(onStartPath, onPathStep, onEndPath)`: the calls made, in order. */
    method DepthTraverse() returns (events: seq<PathEvent<nat>>)
      requires Valid()
      ensures events == DepthEvents(arena.nodes)
    {
      events := arena.DepthTraverse();
    }
  }

  // ---------------------------------------------------------------------------------------
  // The hand-built tree of the traversal tests

  /**
   * The arena of the test tree: the root at the origin with children (-1,1,0) and (0,1,0);
   * (-2,2,0) under the first, (0,2,0) and (1,2,0) under the second.
   */
  const TestTree: seq<Node> := [
    Node(Vec3(0.0, 0.0, 0.0), None, [1, 2]),
    Node(Vec3(-1.0, 1.0, 0.0), Some(0), [3]),
    Node(Vec3(0.0, 1.0, 0.0), Some(0), [4, 5]),
    Node(Vec3(-2.0, 2.0, 0.0), Some(1), []),
    Node(Vec3(0.0, 2.0, 0.0), Some(2), []),
    Node(Vec3(1.0, 2.0, 0.0), Some(2), [])
  ]

  /** `buildTestTree`: a tree at the origin, then the test's three `addChildren` calls. */
  method BuildTestTree() returns (tree: LichtenbergTree)
    ensures fresh(tree) && fresh(tree.arena) && tree.Valid()
    ensures tree.arena.nodes == TestTree && tree.branchTips == [Root] && tree.config == DefaultConfig
  {
    tree := new LichtenbergTree(Vec3(0.0, 0.0, 0.0), None);
    AddTestBranches(tree.arena);
  }

  /**
   * The three `addChildren` calls of both trees' tests, on a lone root at the origin: two
   * children under the root, one under the first of them and two under the second.
   */
  method AddTestBranches(arena: NodeArena)
    requires arena.Valid() && arena.nodes == [Node(Vec3(0.0, 0.0, 0.0), None, [])]
    modifies arena
    ensures arena.Valid() && arena.nodes == TestTree
  {
    var a, b, c := Vec3(-1.0, 1.0, 0.0), Vec3(0.0, 1.0, 0.0), Vec3(-2.0, 2.0, 0.0);
    var d, e := Vec3(0.0, 2.0, 0.0), Vec3(1.0, 2.0, 0.0);
    var o := Vec3(0.0, 0.0, 0.0);
    ghost var n0 := arena.nodes;
    var top := arena.AddChildren(Root, [a, b]);
    WithChildrenPair(n0, Root, a, b);
    ghost var n1 := arena.nodes;
    assert n1 == TestTree[..1][0 := Node(o, None, [1, 2])] + [Node(a, Some(0), []), Node(b, Some(0), [])] by {
      var m := WithChild(n0, 0, a);
      assert m[0].children == [1];
      assert n1[0].children == [1, 2];
    }
    var left := arena.AddChildren(arena.nodes[Root].children[0], [c]);
    WithChildrenSingle(n1, 1, c);
    ghost var n2 := arena.nodes;
    assert n2 == TestTree[..2] + [Node(b, Some(0), []), Node(c, Some(1), [])] by {
      assert n2[1].children == [3];
    }
    var right := arena.AddChildren(arena.nodes[Root].children[1], [d, e]);
    WithChildrenPair(n2, 2, d, e);
    ghost var n3 := arena.nodes;
    assert n3 == TestTree by {
      var m := WithChild(n2, 2, d);
      assert m[2].children == [4];
      assert n3[2].children == [4, 5];
    }
  }

  lemma WithChildrenSingle(nodes: seq<Node>, p: nat, a: Vec3)
    requires p < |nodes|
    ensures WithChildren(nodes, p, [a]) == WithChild(nodes, p, a)
  {
    assert [a][1..] == [];
  }

  lemma WithChildrenPair(nodes: seq<Node>, p: nat, a: Vec3, b: Vec3)
    requires p < |nodes|
    ensures WithChildren(nodes, p, [a, b]) == WithChild(WithChild(nodes, p, a), p, b)
  {
    assert [a, b][1..] == [b];
    WithChildrenSingle(WithChild(nodes, p, a), p, b);
  }

  /** The locations of `order`'s nodes: what the traversal test's callback records. */
  function Locations(nodes: seq<Node>, order: seq<nat>): (r: seq<Vec3>)
    requires AllBelow(order, |nodes|)
    ensures |r| == |order| && forall i :: 0 <= i < |order| ==> r[i] == nodes[order[i]].location
  {
    seq(|order|, i requires 0 <= i < |order| => nodes[order[i]].location)
  }

  /** The test tree is a tree. */
  lemma TestTreeWellFormed()
    ensures WellFormed(TestTree)
  {
    var t := TestTree;
    assert t[0].children == [1, 2] && t[1].children == [3] && t[2].children == [4, 5];
    assert t[3].children == [] && t[4].children == [] && t[5].children == [];
    forall i, k | 0 <= i < |t| && 0 <= k < |t[i].children|
      ensures i < t[i].children[k] < |t| && t[t[i].children[k]].parent == Some(i)
    {
      assert i == 0 || i == 1 || i == 2;
    }
    forall j | 0 <= j < |t| ensures ParentLinked(t, j) {
      assert j == 0 || j == 1 || j == 2 || j == 3 || j == 4 || j == 5;
    }
    forall i | 0 <= i < |t| ensures NoDup(t[i].children) {
      assert i == 0 || i == 1 || i == 2 || i == 3 || i == 4 || i == 5;
    }
  }

  /** The layers of the test tree: the root's children, then their children, then nothing. */
  lemma TestTreeLayers()
    ensures Ordered(TestTree)
    ensures Expand(TestTree, [0]) == [1, 2]
    ensures Expand(TestTree, [1, 2]) == [3, 4, 5]
    ensures Expand(TestTree, [3, 4, 5]) == []
  {
    TestTreeWellFormed();
    var t := TestTree;
    assert Expand(t, [0]) == [1, 2] by {
      assert [0][1..] == [];
    }
    assert Expand(t, [1, 2]) == [3, 4, 5] by {
      assert [1, 2][1..] == [2] && [2][1..] == [];
    }
    assert Expand(t, [3, 4, 5]) == [] by {
      assert [3, 4, 5][1..] == [4, 5] && [4, 5][1..] == [5] && [5][1..] == [];
    }
  }

  /** The layer traversal test: the root, the two nodes of layer 1, the three of layer 2. */
  lemma TestTreeLayerOrder()
    ensures Ordered(TestTree)
    ensures LevelOrder.LevelOrder(TestTree) == [0, 1, 2, 3, 4, 5]
  {
    TestTreeLowerLayers();
    LevelOrderRoot(TestTree);
    PrependRoot(LevelOrderFrom(TestTree, [1, 2]));
  }

  /** The root in front of the first two layers' order; kept apart so the test tree is not in scope. */
  lemma PrependRoot(rest: seq<nat>)
    requires rest == [1, 2, 3, 4, 5]
    ensures [Root] + rest == [0, 1, 2, 3, 4, 5]
  {
  }

  /** The level order from the first layer down. */
  lemma TestTreeLowerLayers()
    ensures Ordered(TestTree)
    ensures LevelOrderFrom(TestTree, [1, 2]) == [1, 2, 3, 4, 5]
    ensures Expand(TestTree, [0]) == [1, 2]
  {
    TestTreeLayers();
    var t := TestTree;
    assert LevelOrderFrom(t, []) == [];
    assert LevelOrderFrom(t, [3, 4, 5]) == [3, 4, 5];
  }

  /** What the layer traversal test's callback records: the locations, layer by layer. */
  lemma TestTreeLayerLocations()
    ensures Ordered(TestTree)
    ensures Locations(TestTree, LevelOrder.LevelOrder(TestTree)) == [
      Vec3(0.0, 0.0, 0.0), Vec3(-1.0, 1.0, 0.0), Vec3(0.0, 1.0, 0.0),
      Vec3(-2.0, 2.0, 0.0), Vec3(0.0, 2.0, 0.0), Vec3(1.0, 2.0, 0.0)]
  {
    TestTreeLayerOrder();
  }

  /**
   * The depth traversal test: a path from the root down the first child to its leaf, a path
   * from the root down the second child to its first leaf, and a path from that child to its
   * second leaf.
   */
  lemma TestTreeDepthEvents()
    ensures WellFormed(TestTree)
    ensures DepthEvents(TestTree) == [Start(0), Step(1), End(3), Start(0), Step(2), End(4), Start(2), End(5)]
  {
    TestTreeRootChildEvents();
    var t := TestTree;
    assert OwnEvents(t, 0, false) == [Start(0)];
    assert DepthEvents(t) == [Start(0)] + ChildEvents(t, 0, 2);
  }

  /** The calls made below the root: those of its first child, then those of its second. */
  lemma TestTreeRootChildEvents()
    ensures WellFormed(TestTree)
    ensures ChildEvents(TestTree, 0, 2) == [Step(1), End(3), Start(0), Step(2), End(4), Start(2), End(5)]
  {
    TestTreeInnerEvents();
    var t := TestTree;
    assert ChildEvents(t, 0, 1) == [Step(1), End(3)] by {
      assert ChildEvents(t, 0, 1) == ChildEvents(t, 0, 0) + PathEvents(t, 1, true);
    }
    assert ChildEvents(t, 0, 2) == ChildEvents(t, 0, 1) + PathEvents(t, 2, false);
  }

  /** The calls made below the root's two children. */
  lemma TestTreeInnerEvents()
    ensures WellFormed(TestTree)
    ensures PathEvents(TestTree, 1, true) == [Step(1), End(3)]
    ensures PathEvents(TestTree, 2, false) == [Start(0), Step(2), End(4), Start(2), End(5)]
  {
    TestTreeLeafEvents();
    var t := TestTree;
    assert ChildEvents(t, 1, 1) == [End(3)];
    assert ChildEvents(t, 2, 1) == [End(4)];
    assert ChildEvents(t, 2, 2) == [End(4), Start(2), End(5)];
  }

  /** The calls made at the three leaves: each ends a path, and the last also opens one at its parent. */
  lemma TestTreeLeafEvents()
    ensures WellFormed(TestTree)
    ensures PathEvents(TestTree, 3, true) == [End(3)]
    ensures PathEvents(TestTree, 4, true) == [End(4)]
    ensures PathEvents(TestTree, 5, false) == [Start(2), End(5)]
  {
    TestTreeWellFormed();
    var t := TestTree;
    assert ChildEvents(t, 3, 0) == [] && ChildEvents(t, 4, 0) == [] && ChildEvents(t, 5, 0) == [];
  }

  /** What the depth traversal test's callbacks record: the events at the nodes' locations. */
  lemma TestTreeDepthLocations()
    ensures WellFormed(TestTree)
    ensures DepthEvents(TestTree) == [Start(0), Step(1), End(3), Start(0), Step(2), End(4), Start(2), End(5)]
    ensures Locate(TestTree, DepthEvents(TestTree)) == [
      Start(Vec3(0.0, 0.0, 0.0)), Step(Vec3(-1.0, 1.0, 0.0)), End(Vec3(-2.0, 2.0, 0.0)),
      Start(Vec3(0.0, 0.0, 0.0)), Step(Vec3(0.0, 1.0, 0.0)), End(Vec3(0.0, 2.0, 0.0)),
      Start(Vec3(0.0, 1.0, 0.0)), End(Vec3(1.0, 2.0, 0.0))]
  {
    TestTreeDepthEvents();
  }
}
