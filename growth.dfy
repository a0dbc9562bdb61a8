/**
 * One growth step (`growTreeLayer`) as a function of the arena, the current tips, the
 * configuration and the stream of random draws, together with the laws it obeys.
 */
module Growth {
  import opened Wrappers
  import opened TreeModel
  import opened MathUtils
  import Random

  /** `growLength` / `growthRate`: a fixed upward step, or a `{min, max}` range sampled per child. */
  datatype GrowLength = Fixed(length: real) | Range(min: real, max: real)

  /** The four tunables of a tree (`LichtenbergTreeConfig`; the older tree keeps them as loose fields). */
  datatype Config = Config(growthRate: GrowLength, spreadRange: real, branchFactor: real, maxChildBranches: int)

  function Max(a: int, b: int): int {
    if a < b then b else a
  }

  /** Draws `branchOutRandChild` consumes: one for a ranged length, then one for x and one for z. */
  function DrawsPerChild(g: GrowLength): nat {
    if g.Range? then 3 else 2
  }

  /** Draws consumed per child created in `growTreeLayer`: the child's own, plus one loop-condition draw. */
  function Stride(g: GrowLength): nat {
    DrawsPerChild(g) + 1
  }

  /** The draw position, relative to the start of a tip's growth, at which its child `i` begins: `i * Stride(g)`. */
  function Offset(g: GrowLength, i: nat): nat {
    if g.Range? then 4 * i else 3 * i
  }

  lemma OffsetStep(g: GrowLength, i: nat)
    ensures Offset(g, i) + Stride(g) == Offset(g, i + 1)
  {
  }

  /**
   * The location `branchOutRandChild` gives a child of a node at `parent`, reading the draws
   * from position `pos`: first the length (only for a range), then x, then z.
   */
  function ChildLocation(parent: Vec3, spreadRange: real, g: GrowLength, draws: nat -> real, pos: nat): Vec3
  {
    var length := match g
      case Fixed(l) => l
      case Range(lo, hi) => draws(pos) * (hi - lo) + lo;
    var xDraw := if g.Range? then pos + 1 else pos;
    Vec3(parent.x + RandSymmetricInt(draws(xDraw), spreadRange) as real,
         parent.y + length,
         parent.z + RandSymmetricInt(draws(xDraw + 1), spreadRange) as real)
  }

  /** A range length `draw * (max - min) + min` lies between `min` and `max`. */
  lemma RangeLengthBounds(draw: real, lo: real, hi: real)
    requires 0.0 <= draw < 1.0 && lo <= hi
    ensures lo <= draw * (hi - lo) + lo <= hi
  {
    MulNonNegative(draw, hi - lo);
    MulAtMostOne(draw, hi - lo);
  }

  /**
   * With draws in [0, 1) and a whole spread `n`, a child lies within `n` of its parent along x
   * and z (and strictly below `+n`); it lies exactly `length` above a fixed length, and between
   * `min` and `max` above for a range.
   */
  lemma ChildLocationBounds(parent: Vec3, n: nat, g: GrowLength, draws: nat -> real, pos: nat)
    requires Random.UnitDraws(draws)
    requires g.Range? ==> g.min <= g.max
    ensures var c := ChildLocation(parent, n as real, g, draws, pos);
      && parent.x - n as real <= c.x <= parent.x + Max(n - 1, 0) as real
      && parent.z - n as real <= c.z <= parent.z + Max(n - 1, 0) as real
      && (g.Fixed? ==> c.y == parent.y + g.length)
      && (g.Range? ==> parent.y + g.min <= c.y <= parent.y + g.max)
  {
    var xDraw := if g.Range? then pos + 1 else pos;
    RandSymmetricIntBounds(draws(xDraw), n);
    RandSymmetricIntBounds(draws(xDraw + 1), n);
    if g.Range? {
      assert 0.0 <= draws(pos) < 1.0;
      RangeLengthBounds(draws(pos), g.min, g.max);
    }
  }

  /**
   * Where `branchOutRandChild` places a child under a configuration and a draw stream: a
   * function of the parent's location and of the position of the child's first draw.
   */
  function Placement(cfg: Config, draws: nat -> real): (Vec3, nat) -> Vec3 {
    (parent: Vec3, pos: nat) => ChildLocation(parent, cfg.spreadRange, cfg.growthRate, draws, pos)
  }

  /** The state threaded through a growth step: the arena, the tips created so far, the draws used. */
  datatype Grown = Grown(nodes: seq<Node>, newTips: seq<nat>, pos: nat)

  /**
   * The body of `growTreeLayer`'s do-while, before its condition: `branchOutRandChild` on `tip`
   * (placed by `place` from the next draw position) and the push of the child onto the new tips.
   */
  function BranchOut(st: Grown, tip: nat, cfg: Config, place: (Vec3, nat) -> Vec3): (r: Grown)
    requires tip < |st.nodes|
  {
    Grown(WithChild(st.nodes, tip, place(st.nodes[tip].location, st.pos)),
          st.newTips + [|st.nodes|],
          st.pos + DrawsPerChild(cfg.growthRate))
  }

  /**
   * The do-while of `growTreeLayer` for one `tip`, `created` children into it: create a child,
   * then draw once more (the draw comes first in the condition, so it is always taken) and go
   * on while that draw is below `branchFactor` and fewer than `maxChildBranches` children were
   * created.
   */
  function GrowTip(st: Grown, tip: nat, cfg: Config, draws: nat -> real, place: (Vec3, nat) -> Vec3, created: nat): (r: Grown)
    requires tip < |st.nodes|
    ensures |st.nodes| < |r.nodes|
    decreases if created < cfg.maxChildBranches then cfg.maxChildBranches - created else 0
  {
    var next := BranchOut(st, tip, cfg, place);
    var after := next.(pos := next.pos + 1);
    if draws(next.pos) < cfg.branchFactor && created + 1 < cfg.maxChildBranches then
      GrowTip(after, tip, cfg, draws, place, created + 1)
    else
      after
  }

  /** `growTreeLayer`'s outer loop: grow every tip in order, threading the state through. */
  function GrowLayer(st: Grown, tips: seq<nat>, cfg: Config, draws: nat -> real, place: (Vec3, nat) -> Vec3): (r: Grown)
    requires AllBelow(tips, |st.nodes|)
    ensures |st.nodes| <= |r.nodes|
    decreases |tips|
  {
    if tips == [] then st
    else GrowLayer(GrowTip(st, tips[0], cfg, draws, place, 0), tips[1..], cfg, draws, place)
  }

  /** The whole growth step of a tree whose arena is `nodes`, with tips `tips`, from draw `pos` on. */
  function GrowStep(nodes: seq<Node>, tips: seq<nat>, cfg: Config, draws: nat -> real, pos: nat): (r: Grown)
    requires AllBelow(tips, |nodes|)
  {
    GrowLayer(Grown(nodes, [], pos), tips, cfg, draws, Placement(cfg, draws))
  }

  /** A turn of the do-while after which the loop goes on. */
  lemma GrowTipMore(st: Grown, tip: nat, cfg: Config, draws: nat -> real, place: (Vec3, nat) -> Vec3, created: nat)
    requires tip < |st.nodes|
    requires var next := BranchOut(st, tip, cfg, place);
      draws(next.pos) < cfg.branchFactor && created + 1 < cfg.maxChildBranches
    ensures var next := BranchOut(st, tip, cfg, place);
      GrowTip(st, tip, cfg, draws, place, created) == GrowTip(next.(pos := next.pos + 1), tip, cfg, draws, place, created + 1)
  {
  }

  /** The last turn of the do-while. */
  lemma GrowTipLast(st: Grown, tip: nat, cfg: Config, draws: nat -> real, place: (Vec3, nat) -> Vec3, created: nat)
    requires tip < |st.nodes|
    requires var next := BranchOut(st, tip, cfg, place);
      !(draws(next.pos) < cfg.branchFactor && created + 1 < cfg.maxChildBranches)
    ensures var next := BranchOut(st, tip, cfg, place);
      GrowTip(st, tip, cfg, draws, place, created) == next.(pos := next.pos + 1)
  {
  }

  /** Growing a tip keeps the arena a tree. */
  lemma {:induction false} GrowTipWellFormed(st: Grown, tip: nat, cfg: Config, draws: nat -> real, place: (Vec3, nat) -> Vec3, created: nat)
    requires WellFormed(st.nodes) && tip < |st.nodes|
    ensures WellFormed(GrowTip(st, tip, cfg, draws, place, created).nodes)
    decreases if created < cfg.maxChildBranches then cfg.maxChildBranches - created else 0
  {
    var next := BranchOut(st, tip, cfg, place);
    WithChildWellFormed(st.nodes, tip, place(st.nodes[tip].location, st.pos));
    if draws(next.pos) < cfg.branchFactor && created + 1 < cfg.maxChildBranches {
      GrowTipWellFormed(next.(pos := next.pos + 1), tip, cfg, draws, place, created + 1);
    }
  }

  /** The new tips a tip's growth pushes are the next arena indices, in creation order. */
  lemma {:induction false} GrowTipNewTips(st: Grown, tip: nat, cfg: Config, draws: nat -> real, place: (Vec3, nat) -> Vec3, created: nat)
    requires tip < |st.nodes|
    ensures GrowTip(st, tip, cfg, draws, place, created).newTips
      == st.newTips + Fresh(|st.nodes|, |GrowTip(st, tip, cfg, draws, place, created).nodes| - |st.nodes|)
    decreases if created < cfg.maxChildBranches then cfg.maxChildBranches - created else 0
  {
    var next := BranchOut(st, tip, cfg, place);
    if draws(next.pos) < cfg.branchFactor && created + 1 < cfg.maxChildBranches {
      var after := next.(pos := next.pos + 1);
      GrowTipNewTips(after, tip, cfg, draws, place, created + 1);
      FreshCons(|st.nodes|, |GrowTip(after, tip, cfg, draws, place, created + 1).nodes| - |after.nodes|);
    } else {
      FreshCons(|st.nodes|, 0);
    }
  }

  /**
   * The children a tip gains are the same indices, appended to the end of its children; its
   * location and parent stay the same.
   */
  lemma {:induction false} GrowTipChildren(st: Grown, tip: nat, cfg: Config, draws: nat -> real, place: (Vec3, nat) -> Vec3, created: nat)
    requires tip < |st.nodes|
    ensures GrowTip(st, tip, cfg, draws, place, created).nodes[tip]
      == st.nodes[tip].(children := st.nodes[tip].children + Fresh(|st.nodes|, |GrowTip(st, tip, cfg, draws, place, created).nodes| - |st.nodes|))
    decreases if created < cfg.maxChildBranches then cfg.maxChildBranches - created else 0
  {
    var next := BranchOut(st, tip, cfg, place);
    if draws(next.pos) < cfg.branchFactor && created + 1 < cfg.maxChildBranches {
      var after := next.(pos := next.pos + 1);
      GrowTipChildren(after, tip, cfg, draws, place, created + 1);
      FreshCons(|st.nodes|, |GrowTip(after, tip, cfg, draws, place, created + 1).nodes| - |after.nodes|);
    } else {
      FreshCons(|st.nodes|, 0);
    }
  }

  /** Growing a tip leaves every other old node as it was. */
  lemma {:induction false} GrowTipOthers(st: Grown, tip: nat, cfg: Config, draws: nat -> real, place: (Vec3, nat) -> Vec3, created: nat)
    requires tip < |st.nodes|
    ensures var r := GrowTip(st, tip, cfg, draws, place, created);
      forall j :: 0 <= j < |st.nodes| && j != tip ==> r.nodes[j] == st.nodes[j]
    decreases if created < cfg.maxChildBranches then cfg.maxChildBranches - created else 0
  {
    var next := BranchOut(st, tip, cfg, place);
    if draws(next.pos) < cfg.branchFactor && created + 1 < cfg.maxChildBranches {
      GrowTipOthers(next.(pos := next.pos + 1), tip, cfg, draws, place, created + 1);
    }
  }

  /**
   * The `i`-th child created for a tip is a childless node whose parent is the tip, placed from
   * draw position `pos + Offset(g, i)`: each child takes its own draws, then one condition draw.
   */
  lemma {:induction false} GrowTipLeaves(st: Grown, tip: nat, cfg: Config, draws: nat -> real, place: (Vec3, nat) -> Vec3, created: nat)
    requires tip < |st.nodes|
    ensures forall j :: |st.nodes| <= j < |GrowTip(st, tip, cfg, draws, place, created).nodes| ==>
      GrowTip(st, tip, cfg, draws, place, created).nodes[j]
        == Node(place(st.nodes[tip].location, st.pos + Offset(cfg.growthRate, j - |st.nodes|)), Some(tip), [])
    decreases if created < cfg.maxChildBranches then cfg.maxChildBranches - created else 0
  {
    var next := BranchOut(st, tip, cfg, place);
    var after := next.(pos := next.pos + 1);
    if draws(next.pos) < cfg.branchFactor && created + 1 < cfg.maxChildBranches {
      GrowTipLeaves(after, tip, cfg, draws, place, created + 1);
      GrowTipOthers(after, tip, cfg, draws, place, created + 1);
      var r := GrowTip(after, tip, cfg, draws, place, created + 1);
      forall j | |st.nodes| < j < |r.nodes|
        ensures r.nodes[j] == Node(place(st.nodes[tip].location, st.pos + Offset(cfg.growthRate, j - |st.nodes|)), Some(tip), [])
      {
        assert after.pos + Offset(cfg.growthRate, j - |after.nodes|) == st.pos + Offset(cfg.growthRate, j - |st.nodes|);
      }
      assert r.nodes[|st.nodes|] == after.nodes[|st.nodes|];
    }
  }

  /**
   * How many children the do-while creates for one tip, `created` children into it, when that
   * child's draws begin at `pos`: it depends on the condition draws and the cap only.
   */
  function ChildCount(cfg: Config, draws: nat -> real, pos: nat, created: nat): (k: nat)
    ensures k >= 1
    decreases if created < cfg.maxChildBranches then cfg.maxChildBranches - created else 0
  {
    var condition := pos + DrawsPerChild(cfg.growthRate);
    if draws(condition) < cfg.branchFactor && created + 1 < cfg.maxChildBranches then
      1 + ChildCount(cfg, draws, condition + 1, created + 1)
    else
      1
  }

  /** Growing a tip creates `ChildCount` children and takes `Stride(g)` draws for each. */
  lemma {:induction false} GrowTipCount(st: Grown, tip: nat, cfg: Config, draws: nat -> real, place: (Vec3, nat) -> Vec3, created: nat)
    requires tip < |st.nodes|
    ensures |GrowTip(st, tip, cfg, draws, place, created).nodes| == |st.nodes| + ChildCount(cfg, draws, st.pos, created)
    ensures GrowTip(st, tip, cfg, draws, place, created).pos == st.pos + Offset(cfg.growthRate, ChildCount(cfg, draws, st.pos, created))
    decreases if created < cfg.maxChildBranches then cfg.maxChildBranches - created else 0
  {
    var next := BranchOut(st, tip, cfg, place);
    if draws(next.pos) < cfg.branchFactor && created + 1 < cfg.maxChildBranches {
      GrowTipCount(next.(pos := next.pos + 1), tip, cfg, draws, place, created + 1);
      OffsetStep(cfg.growthRate, ChildCount(cfg, draws, next.pos + 1, created + 1));
    }
  }

  /**
   * The do-while stops at the first child after which its condition fails: for every earlier
   * child the condition draw (the last draw that child took) was below `branchFactor` and the
   * count below the cap, and after the last child it was not.
   */
  lemma {:induction false} ChildCountStops(cfg: Config, draws: nat -> real, pos: nat, created: nat)
    ensures var k := ChildCount(cfg, draws, pos, created);
      && (forall i :: 1 <= i < k ==>
            draws(pos + Offset(cfg.growthRate, i) - 1) < cfg.branchFactor && created + i < cfg.maxChildBranches)
      && !(draws(pos + Offset(cfg.growthRate, k) - 1) < cfg.branchFactor && created + k < cfg.maxChildBranches)
    decreases if created < cfg.maxChildBranches then cfg.maxChildBranches - created else 0
  {
    var condition := pos + DrawsPerChild(cfg.growthRate);
    if draws(condition) < cfg.branchFactor && created + 1 < cfg.maxChildBranches {
      ChildCountStops(cfg, draws, condition + 1, created + 1);
      var k := ChildCount(cfg, draws, pos, created);
      OffsetStep(cfg.growthRate, k - 1);
      forall i | 2 <= i < k
        ensures draws(pos + Offset(cfg.growthRate, i) - 1) < cfg.branchFactor && created + i < cfg.maxChildBranches
      {
        OffsetStep(cfg.growthRate, i - 1);
      }
    }
  }

  /** At most `max(1, maxChildBranches - created)` children: the do-while runs once, then the cap applies. */
  lemma {:induction false} ChildCountBounds(cfg: Config, draws: nat -> real, pos: nat, created: nat)
    ensures 1 <= ChildCount(cfg, draws, pos, created) <= Max(1, cfg.maxChildBranches - created)
    decreases if created < cfg.maxChildBranches then cfg.maxChildBranches - created else 0
  {
    var condition := pos + DrawsPerChild(cfg.growthRate);
    if draws(condition) < cfg.branchFactor && created + 1 < cfg.maxChildBranches {
      ChildCountBounds(cfg, draws, condition + 1, created + 1);
    }
  }

  /** Growing every tip keeps the arena a tree. */
  lemma {:induction false} GrowLayerWellFormed(st: Grown, tips: seq<nat>, cfg: Config, draws: nat -> real, place: (Vec3, nat) -> Vec3)
    requires WellFormed(st.nodes) && AllBelow(tips, |st.nodes|)
    ensures WellFormed(GrowLayer(st, tips, cfg, draws, place).nodes)
    decreases |tips|
  {
    if tips != [] {
      GrowTipWellFormed(st, tips[0], cfg, draws, place, 0);
      GrowLayerWellFormed(GrowTip(st, tips[0], cfg, draws, place, 0), tips[1..], cfg, draws, place);
    }
  }

  /** The new tips of a growth step are exactly the appended arena indices, in order. */
  lemma {:induction false} GrowLayerTips(st: Grown, tips: seq<nat>, cfg: Config, draws: nat -> real, place: (Vec3, nat) -> Vec3)
    requires AllBelow(tips, |st.nodes|)
    ensures var r := GrowLayer(st, tips, cfg, draws, place);
      r.newTips == st.newTips + Fresh(|st.nodes|, |r.nodes| - |st.nodes|)
    decreases |tips|
  {
    if tips != [] {
      var next := GrowTip(st, tips[0], cfg, draws, place, 0);
      GrowTipNewTips(st, tips[0], cfg, draws, place, 0);
      GrowLayerTips(next, tips[1..], cfg, draws, place);
      var r := GrowLayer(next, tips[1..], cfg, draws, place);
      FreshAppend(|st.nodes|, |next.nodes| - |st.nodes|, |r.nodes| - |next.nodes|);
    }
  }

  /**
   * A growth step keeps every old node's location and parent, only appends to the children of
   * tips, and leaves the nodes that are not tips exactly as they were.
   */
  lemma {:induction false} GrowLayerOld(st: Grown, tips: seq<nat>, cfg: Config, draws: nat -> real, place: (Vec3, nat) -> Vec3)
    requires AllBelow(tips, |st.nodes|)
    ensures var r := GrowLayer(st, tips, cfg, draws, place);
      && (forall j :: 0 <= j < |st.nodes| ==>
            && r.nodes[j].location == st.nodes[j].location && r.nodes[j].parent == st.nodes[j].parent
            && st.nodes[j].children <= r.nodes[j].children)
      && (forall j :: 0 <= j < |st.nodes| && j !in tips ==> r.nodes[j] == st.nodes[j])
    decreases |tips|
  {
    if tips != [] {
      var next := GrowTip(st, tips[0], cfg, draws, place, 0);
      GrowTipChildren(st, tips[0], cfg, draws, place, 0);
      GrowTipOthers(st, tips[0], cfg, draws, place, 0);
      GrowLayerOld(next, tips[1..], cfg, draws, place);
      var r := GrowLayer(next, tips[1..], cfg, draws, place);
      forall j | 0 <= j < |st.nodes|
        ensures st.nodes[j].children <= r.nodes[j].children
      {
        assert st.nodes[j].children <= next.nodes[j].children;
      }
      forall j | 0 <= j < |st.nodes| && j !in tips
        ensures r.nodes[j] == st.nodes[j]
      {
        assert j !in tips[1..];
      }
    }
  }

  /** Every node a growth step creates is a childless child of one of the tips. */
  lemma {:induction false} GrowLayerLeaves(st: Grown, tips: seq<nat>, cfg: Config, draws: nat -> real, place: (Vec3, nat) -> Vec3)
    requires AllBelow(tips, |st.nodes|)
    ensures var r := GrowLayer(st, tips, cfg, draws, place);
      forall j :: |st.nodes| <= j < |r.nodes| ==>
        r.nodes[j].children == [] && r.nodes[j].parent.Some? && r.nodes[j].parent.value in tips
    decreases |tips|
  {
    if tips != [] {
      var t := tips[0];
      var next := GrowTip(st, t, cfg, draws, place, 0);
      GrowTipLeaves(st, t, cfg, draws, place, 0);
      GrowLayerOld(next, tips[1..], cfg, draws, place);
      GrowLayerLeaves(next, tips[1..], cfg, draws, place);
      var r := GrowLayer(next, tips[1..], cfg, draws, place);
      forall j | |st.nodes| <= j < |next.nodes|
        ensures r.nodes[j].children == [] && r.nodes[j].parent == Some(t)
      {
        assert next.nodes[j] == Node(place(st.nodes[t].location, st.pos + Offset(cfg.growthRate, j - |st.nodes|)), Some(t), []);
        assert j !in tips[1..];
      }
    }
  }

  /** A growth step creates between `|tips|` and `|tips| * max(1, maxChildBranches)` nodes. */
  lemma {:induction false} GrowLayerSize(st: Grown, tips: seq<nat>, cfg: Config, draws: nat -> real, place: (Vec3, nat) -> Vec3)
    requires AllBelow(tips, |st.nodes|)
    ensures |tips| <= |GrowLayer(st, tips, cfg, draws, place).nodes| - |st.nodes| <= |tips| * Max(1, cfg.maxChildBranches)
    decreases |tips|
  {
    if tips != [] {
      GrowTipCount(st, tips[0], cfg, draws, place, 0);
      ChildCountBounds(cfg, draws, st.pos, 0);
      GrowLayerSize(GrowTip(st, tips[0], cfg, draws, place, 0), tips[1..], cfg, draws, place);
      var m := Max(1, cfg.maxChildBranches);
      assert (|tips| - 1) * m + m == |tips| * m;
    }
  }

  /** With distinct tips, every tip gains between one and `max(1, maxChildBranches)` children. */
  lemma {:induction false} GrowLayerCounts(st: Grown, tips: seq<nat>, cfg: Config, draws: nat -> real, place: (Vec3, nat) -> Vec3)
    requires AllBelow(tips, |st.nodes|) && NoDup(tips)
    ensures forall i :: 0 <= i < |tips| ==>
      1 <= |GrowLayer(st, tips, cfg, draws, place).nodes[tips[i]].children| - |st.nodes[tips[i]].children| <= Max(1, cfg.maxChildBranches)
    decreases |tips|
  {
    if tips != [] {
      var t := tips[0];
      var next := GrowTip(st, t, cfg, draws, place, 0);
      GrowTipChildren(st, t, cfg, draws, place, 0);
      GrowTipCount(st, t, cfg, draws, place, 0);
      ChildCountBounds(cfg, draws, st.pos, 0);
      GrowTipOthers(st, t, cfg, draws, place, 0);
      NoDupTail(tips);
      GrowLayerCounts(next, tips[1..], cfg, draws, place);
      GrowLayerOld(next, tips[1..], cfg, draws, place);
      var r := GrowLayer(next, tips[1..], cfg, draws, place);
      forall i | 1 <= i < |tips|
        ensures 1 <= |r.nodes[tips[i]].children| - |st.nodes[tips[i]].children| <= Max(1, cfg.maxChildBranches)
      {
        assert tips[i] == tips[1..][i - 1];
      }
    }
  }

  /**
   * The children each of `tips` gained between arenas `before` and `after`, tip by tip in the
   * order of `tips`: what a tip holds past the children it had before.
   */
  function Gained(before: seq<Node>, after: seq<Node>, tips: seq<nat>): (g: seq<nat>)
    requires AllBelow(tips, |before|) && |before| <= |after|
    decreases |tips|
  {
    if tips == [] then []
    else
      var t := tips[0];
      var k := |before[t].children|;
      (if k <= |after[t].children| then after[t].children[k..] else []) + Gained(before, after, tips[1..])
  }

  /** What the tips gained depends on the earlier arena only through the tips' child counts. */
  lemma {:induction false} GainedFrame(before: seq<Node>, other: seq<Node>, after: seq<Node>, tips: seq<nat>)
    requires AllBelow(tips, |before|) && AllBelow(tips, |other|) && |before| <= |after| && |other| <= |after|
    requires forall i :: 0 <= i < |tips| ==> |before[tips[i]].children| == |other[tips[i]].children|
    ensures Gained(before, after, tips) == Gained(other, after, tips)
    decreases |tips|
  {
    if tips != [] {
      GainedFrame(before, other, after, tips[1..]);
    }
  }

  /** A node that is not among the tips is the same after a growth step. */
  lemma GrowLayerKeeps(st: Grown, tips: seq<nat>, j: nat, cfg: Config, draws: nat -> real, place: (Vec3, nat) -> Vec3)
    requires AllBelow(tips, |st.nodes|) && j < |st.nodes| && j !in tips
    ensures GrowLayer(st, tips, cfg, draws, place).nodes[j] == st.nodes[j]
  {
    GrowLayerOld(st, tips, cfg, draws, place);
  }

  /**
   * What distinct tips gain from `before` to `after`, when from `before` to `mid` the first tip's
   * children were extended by `mine` and no other node changed, and the first tip did not
   * change from `mid` to `after`: `mine`, then what the other tips gain from `mid` to `after`.
   */
  lemma GainedSplit(before: seq<Node>, mid: seq<Node>, after: seq<Node>, tips: seq<nat>, mine: seq<nat>)
    requires AllBelow(tips, |before|) && NoDup(tips) && tips != []
    requires |before| <= |mid| <= |after|
    requires mid[tips[0]] == before[tips[0]].(children := before[tips[0]].children + mine)
    requires forall j :: 0 <= j < |before| && j != tips[0] ==> mid[j] == before[j]
    requires after[tips[0]] == mid[tips[0]]
    ensures Gained(before, after, tips) == mine + Gained(mid, after, tips[1..])
  {
    var k := |before[tips[0]].children|;
    assert after[tips[0]].children[k..] == mine;
    forall i | 0 <= i < |tips[1..]|
      ensures |before[tips[1..][i]].children| == |mid[tips[1..][i]].children|
    {
      assert tips[1..][i] == tips[i + 1] != tips[0];
    }
    GainedFrame(before, mid, after, tips[1..]);
  }

  /**
   * What the tips gain in a growth step: the first tip's own new children, then what the other
   * tips gain while the rest of the layer grows.
   */
  lemma GainedFirst(st: Grown, tips: seq<nat>, cfg: Config, draws: nat -> real, place: (Vec3, nat) -> Vec3)
    requires AllBelow(tips, |st.nodes|) && NoDup(tips) && tips != []
    ensures var next := GrowTip(st, tips[0], cfg, draws, place, 0);
      var r := GrowLayer(next, tips[1..], cfg, draws, place);
      Gained(st.nodes, r.nodes, tips) == Fresh(|st.nodes|, |next.nodes| - |st.nodes|) + Gained(next.nodes, r.nodes, tips[1..])
  {
    var next := GrowTip(st, tips[0], cfg, draws, place, 0);
    var r := GrowLayer(next, tips[1..], cfg, draws, place);
    GrowTipChildren(st, tips[0], cfg, draws, place, 0);
    GrowTipOthers(st, tips[0], cfg, draws, place, 0);
    NoDupTail(tips);
    GrowLayerKeeps(next, tips[1..], tips[0], cfg, draws, place);
    GainedSplit(st.nodes, next.nodes, r.nodes, tips, Fresh(|st.nodes|, |next.nodes| - |st.nodes|));
  }

  /**
   * The new tips of a growth step are grouped by old tip, in the order of the tips: first every
   * child the first tip gained, then every child the second gained, and so on.
   */
  lemma {:induction false} GrowLayerOrder(st: Grown, tips: seq<nat>, cfg: Config, draws: nat -> real, place: (Vec3, nat) -> Vec3)
    requires AllBelow(tips, |st.nodes|) && NoDup(tips)
    ensures var r := GrowLayer(st, tips, cfg, draws, place);
      r.newTips == st.newTips + Gained(st.nodes, r.nodes, tips)
    decreases |tips|
  {
    if tips != [] {
      var next := GrowTip(st, tips[0], cfg, draws, place, 0);
      var r := GrowLayer(next, tips[1..], cfg, draws, place);
      var mine := Fresh(|st.nodes|, |next.nodes| - |st.nodes|);
      GainedFirst(st, tips, cfg, draws, place);
      GrowTipNewTips(st, tips[0], cfg, draws, place, 0);
      NoDupTail(tips);
      GrowLayerOrder(next, tips[1..], cfg, draws, place);
      ConcatAssoc(st.newTips, mine, Gained(next.nodes, r.nodes, tips[1..]));
    }
  }
}
