/**
 * The older `LichtenbergTree` of src/Structures/LictenbergTree.ts. Its `TreeNode` is the
 * current one with a plain numeric `growLength`, and the tunables are loose fields of the
 * tree instead of a configuration object. Growth, the layer traversal and the depth
 * traversal run the same loops on the same kind of arena; a fixed `growthRate` makes each
 * child take two draws.
 */
module LegacyLichtenberg {
  import opened Wrappers
  import opened TreeModel
  import opened Growth
  import opened LevelOrder
  import opened DepthOrder
  import opened TreeNodes
  import Lichtenberg
  import Random

  class LichtenbergTree {
    const arena: NodeArena
    /** Declared and initialised to 10, read nowhere. */
    var maxBranchLength: int
    /** How far a child grows upwards from its parent (+y). */
    var growthRate: real
    /** How far a child can spread on either side in x and in z. */
    var spreadRange: real
    /** The probability that a tip grows another child. */
    var branchFactor: real
    var maxBranchesPerNode: int
    var branchTips: seq<nat>

    ghost predicate Valid()
      reads this, arena
    {
      arena.Valid() && AllBelow(branchTips, |arena.nodes|) && NoDup(branchTips)
    }

    /** The loose fields read as one configuration, with the fixed growth length they give. */
    function Settings(): Config
      reads this
    {
      Config(Fixed(growthRate), spreadRange, branchFactor, maxBranchesPerNode)
    }

    /**
     * `new LichtenbergTree(rootLocation)`: a lone root, which is the only tip, and the field
     * initialisers, which are the current tree's defaults.
     */
    constructor (rootLocation: Vec3)
      ensures Valid() && fresh(arena)
      ensures arena.nodes == [Node(rootLocation, None, [])] && branchTips == [Root]
      ensures maxBranchLength == 10 && Settings() == Lichtenberg.DefaultConfig
    {
      arena := new NodeArena(rootLocation);
      maxBranchLength := 10;
      growthRate := 5.0;
      spreadRange := 5.0;
      branchFactor := 0.5;
      maxBranchesPerNode := 3;
      branchTips := [Root];
    }

    /**
     * `growTreeLayer`: every tip grows at least one and at most `max(1, maxBranchesPerNode)`
     * children, and the children grown in this layer, all of them new nodes, become the tips,
     * grouped by the old tip they grew from, in the old tips' order.
     */
    method GrowTreeLayer(rng: Random.RandomSource)
      requires Valid()
      modifies this, arena, rng
      ensures Valid() && Settings() == old(Settings()) && maxBranchLength == old(maxBranchLength)
      ensures arena.nodes == GrowStep(old(arena.nodes), old(branchTips), Settings(), rng.draws, old(rng.used)).nodes
      ensures branchTips == GrowStep(old(arena.nodes), old(branchTips), Settings(), rng.draws, old(rng.used)).newTips
      ensures rng.used == GrowStep(old(arena.nodes), old(branchTips), Settings(), rng.draws, old(rng.used)).pos
      ensures branchTips == Fresh(|old(arena.nodes)|, |arena.nodes| - |old(arena.nodes)|)
      ensures |old(branchTips)| <= |branchTips| <= |old(branchTips)| * Max(1, maxBranchesPerNode)
      ensures branchTips == Gained(old(arena.nodes), arena.nodes, old(branchTips))
      ensures forall i :: 0 <= i < |old(branchTips)| ==>
        1 <= |arena.nodes[old(branchTips)[i]].children| - |old(arena.nodes)[old(branchTips)[i]].children| <= Max(1, maxBranchesPerNode)
    {
      var cfg := Settings();
      ghost var st := Grown(arena.nodes, [], rng.used);
      ghost var place := Placement(cfg, rng.draws);
      GrowLayerTips(st, branchTips, cfg, rng.draws, place);
      GrowLayerSize(st, branchTips, cfg, rng.draws, place);
      GrowLayerOrder(st, branchTips, cfg, rng.draws, place);
      GrowLayerCounts(st, branchTips, cfg, rng.draws, place);
      var newTips := arena.GrowTips(branchTips, cfg, rng);
      FreshNoDup(|st.nodes|, |arena.nodes| - |st.nodes|);
      branchTips := newTips;
    }

    /** `layerTraverse(callback)`: the nodes handed to `callback`, in order. */
    method LayerTraverse() returns (visited: seq<nat>)
      requires Valid()
      ensures visited == LevelOrder.LevelOrder(arena.nodes)
    {
      visited := arena.LayerTraverse();
    }

    /** `depthTraverse(onStartPath, onPathStep, onEndPath)`: the calls made, in order. */
    method DepthTraverse() returns (events: seq<PathEvent<nat>>)
      requires Valid()
      ensures events == DepthEvents(arena.nodes)
    {
      events := arena.DepthTraverse();
    }
  }

  /** `buildTestTree` of the older tree's test: the same three `addChildren` calls give the same arena. */
  method BuildTestTree() returns (tree: LichtenbergTree)
    ensures fresh(tree) && fresh(tree.arena) && tree.Valid()
    ensures tree.arena.nodes == Lichtenberg.TestTree && tree.branchTips == [Root]
  {
    tree := new LichtenbergTree(Vec3(0.0, 0.0, 0.0));
    Lichtenberg.AddTestBranches(tree.arena);
  }
}
