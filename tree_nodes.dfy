/**
 * The `TreeNode`s of a tree and the loops that walk and grow them. Every node lives in one
 * `NodeArena`, indexed from the root at 0; a node's `parent` and `children` are indices into
 * it. Both tree classes keep their nodes in an arena and run these methods on it.
 */
module TreeNodes {
  import opened Wrappers
  import opened TreeModel
  import opened MathUtils
  import opened Growth
  import opened LevelOrder
  import opened DepthOrder
  import Random

  class NodeArena {
    var nodes: seq<Node>

    ghost predicate Valid()
      reads this
    {
      WellFormed(nodes)
    }

    /** The root `TreeNode`: the given location, no parent, no children. */
    constructor (rootLocation: Vec3)
      ensures Valid() && nodes == [Node(rootLocation, None, [])]
    {
      nodes := [Node(rootLocation, None, [])];
    }

    /** `addChild(location)` on node `p`: returns the new child. */
    method AddChild(p: nat, location: Vec3) returns (child: nat)
      requires Valid() && p < |nodes|
      modifies this
      ensures Valid() && nodes == WithChild(old(nodes), p, location) && child == |old(nodes)|
    {
      WithChildWellFormed(nodes, p, location);
      child := |nodes|;
      nodes := nodes[p := nodes[p].(children := nodes[p].children + [child])] + [Node(location, Some(p), [])];
    }

    /** `addChildren(...locations)` on node `p`: one `addChild` per location, returning the new children in order. */
    method AddChildren(p: nat, locations: seq<Vec3>) returns (newChildren: seq<nat>)
      requires Valid() && p < |nodes|
      modifies this
      ensures Valid() && nodes == WithChildren(old(nodes), p, locations)
      ensures newChildren == Fresh(|old(nodes)|, |locations|)
    {
      newChildren := [];
      var i := 0;
      while i < |locations|
        invariant 0 <= i <= |locations| && Valid() && p < |nodes|
        invariant |nodes| == |old(nodes)| + i
        invariant WithChildren(nodes, p, locations[i..]) == WithChildren(old(nodes), p, locations)
        invariant newChildren == Fresh(|old(nodes)|, i)
      {
        assert locations[i..][0] == locations[i] && locations[i..][1..] == locations[i + 1..];
        var created := AddChild(p, locations[i]);
        FreshAppend(|old(nodes)|, i, 1);
        newChildren := newChildren + [created];
        i := i + 1;
      }
      assert locations[i..] == [];
    }

    /**
     * `branchOutRandChild(spreadRange, growLength)` on node `p`: a ranged length takes a draw
     * first, then x and z take one draw each; the child is added under `p`.
     */
    method BranchOutRandChild(p: nat, spreadRange: real, growLength: GrowLength, rng: Random.RandomSource) returns (child: nat)
      requires Valid() && p < |nodes|
      modifies this, rng
      ensures Valid() && child == |old(nodes)|
      ensures nodes == WithChild(old(nodes), p, ChildLocation(old(nodes)[p].location, spreadRange, growLength, rng.draws, old(rng.used)))
      ensures rng.used == old(rng.used) + DrawsPerChild(growLength)
    {
      ghost var pos := rng.used;
      var parentLocation := nodes[p].location;
      var length: real;
      match growLength {
        case Fixed(l) =>
          length := l;
        case Range(lo, hi) =>
          var draw := rng.Next();
          length := draw * (hi - lo) + lo;
      }
      ghost var xDraw := rng.used;
      var newY := parentLocation.y + length;
      var dx := DrawSymmetricInt(spreadRange, rng);
      var dz := DrawSymmetricInt(spreadRange, rng);
      var location := Vec3(parentLocation.x + dx as real, newY, parentLocation.z + dz as real);
      assert xDraw == if growLength.Range? then pos + 1 else pos;
      assert dx == RandSymmetricInt(rng.draws(xDraw), spreadRange);
      assert dz == RandSymmetricInt(rng.draws(xDraw + 1), spreadRange);
      assert location == ChildLocation(parentLocation, spreadRange, growLength, rng.draws, pos);
      child := AddChild(p, location);
    }

    /**
     * The do-while of `growTreeLayer` for one tip: create a child and push it onto the new
     * tips, then take the condition draw; go on while it is below `branchFactor` and fewer
     * than `maxChildBranches` children were created.
     */
    method GrowTip(tip: nat, cfg: Config, rng: Random.RandomSource, tips: seq<nat>) returns (newTips: seq<nat>)
      requires Valid() && tip < |nodes|
      modifies this, rng
      ensures Valid()
      ensures Grown(nodes, newTips, rng.used)
        == Growth.GrowTip(Grown(old(nodes), tips, old(rng.used)), tip, cfg, rng.draws, Placement(cfg, rng.draws), 0)
    {
      ghost var place := Placement(cfg, rng.draws);
      ghost var st := Grown(nodes, tips, rng.used);
      ghost var target := Growth.GrowTip(st, tip, cfg, rng.draws, place, 0);
      newTips := tips;
      var created := 0;
      while true
        invariant Valid() && tip < |nodes|
        invariant st == Grown(nodes, newTips, rng.used)
        invariant Growth.GrowTip(st, tip, cfg, rng.draws, place, created) == target
        decreases cfg.maxChildBranches - created
      {
        ghost var next := BranchOut(st, tip, cfg, place);
        var newTip := BranchOutRandChild(tip, cfg.spreadRange, cfg.growthRate, rng);
        newTips := newTips + [newTip];
        var draw := rng.Next();
        ghost var after := next.(pos := next.pos + 1);
        assert after == Grown(nodes, newTips, rng.used);
        if !(draw < cfg.branchFactor && created + 1 < cfg.maxChildBranches) {
          GrowTipLast(st, tip, cfg, rng.draws, place, created);
          st := after;
          break;
        }
        GrowTipMore(st, tip, cfg, rng.draws, place, created);
        st, created := after, created + 1;
      }
    }

    /** The outer loop of `growTreeLayer`: the do-while above for each tip in order. */
    method GrowTips(tips: seq<nat>, cfg: Config, rng: Random.RandomSource) returns (newTips: seq<nat>)
      requires Valid() && AllBelow(tips, |nodes|)
      modifies this, rng
      ensures Valid()
      ensures Grown(nodes, newTips, rng.used) == GrowStep(old(nodes), tips, cfg, rng.draws, old(rng.used))
    {
      ghost var place := Placement(cfg, rng.draws);
      ghost var goal := GrowLayer(Grown(nodes, [], rng.used), tips, cfg, rng.draws, place);
      newTips := [];
      var i := 0;
      while i < |tips|
        invariant 0 <= i <= |tips| && Valid() && AllBelow(tips, |nodes|)
        invariant GrowLayer(Grown(nodes, newTips, rng.used), tips[i..], cfg, rng.draws, place) == goal
      {
        assert tips[i..][0] == tips[i] && tips[i..][1..] == tips[i + 1..];
        newTips := GrowTip(tips[i], cfg, rng, newTips);
        i := i + 1;
      }
      assert tips[i..] == [];
    }

    /** `layerTraverse`: a queue seeded with the root; visit its head and queue the head's children. */
    method LayerTraverse() returns (visited: seq<nat>)
      requires Valid()
      ensures visited == LevelOrder.LevelOrder(nodes)
    {
      var queue := [Root];
      visited := [];
      ghost var rest, done := [Root], [];
      ghost var goal := LevelOrder.LevelOrder(nodes);
      PendingStart(nodes);
      while |queue| > 0
        invariant Traversing(nodes, queue, visited, rest, done, goal)
        decreases |goal| - |visited|
      {
        rest, done := Visit(nodes, queue, visited, rest, done, goal);
        var current := queue[0];
        queue := queue[1..] + nodes[current].children;
        visited := visited + [current];
      }
      PendingEnd(nodes);
    }

    /**
     * `search(node, pathStarted)`: report the start of a path at the parent when none is open,
     * then the node itself (a start, a step or an end), then search the children, telling only
     * the first that a path is open.
     */
    method Search(n: nat, pathStarted: bool) returns (events: seq<PathEvent<nat>>)
      requires Valid() && n < |nodes|
      ensures events == PathEvents(nodes, n, pathStarted)
      decreases |nodes| - n
    {
      var started := pathStarted;
      events := [];
      var parent := nodes[n].parent;
      if !started && parent.Some? {
        events := events + [Start(parent.value)];
        started := true;
      }
      if !started {
        events := events + [Start(n)];
        started := true;
      } else if nodes[n].children != [] {
        events := events + [Step(n)];
      } else {
        events := events + [End(n)];
      }
      assert events == OwnEvents(nodes, n, pathStarted) + ChildEvents(nodes, n, 0);
      var i := 0;
      while i < |nodes[n].children|
        invariant 0 <= i <= |nodes[n].children|
        invariant started <==> i == 0
        invariant events == OwnEvents(nodes, n, pathStarted) + ChildEvents(nodes, n, i)
      {
        var child := nodes[n].children[i];
        ChildAfterParent(nodes, n, i);
        var sub := Search(child, started);
        assert ChildEvents(nodes, n, i + 1) == ChildEvents(nodes, n, i) + sub;
        ConcatAssoc(OwnEvents(nodes, n, pathStarted), ChildEvents(nodes, n, i), sub);
        events := events + sub;
        started := false;
        i := i + 1;
      }
    }

    /** `depthTraverse`: `search(root)`. */
    method DepthTraverse() returns (events: seq<PathEvent<nat>>)
      requires Valid()
      ensures events == DepthEvents(nodes)
    {
      events := Search(Root, false);
    }
  }
}
