/**
 * The callbacks `depthTraverse` makes, as a stream of path events. `search(node, started)`
 * first reports the parent as the start of a new path when no path is open and the node has
 * a parent, then reports the node itself (a start at the root, a step when it has children,
 * an end when it is a leaf), then recurses into the children, passing "a path is open" to the
 * first child only.
 *
 * The module gives a second, per-node description of the same stream (each node in pre-order
 * contributes its own events, decided by whether it is its parent's first child) and proves
 * the two equal; it then proves that the pre-order visits every node exactly once, and that
 * the stream is a sequence of downward paths: each starts at a node, steps down through first
 * children and ends at a leaf, and the next one starts only after that end.
 */
module DepthOrder {
  import opened TreeModel

  datatype PathEvent<T> = Start(node: T) | Step(node: T) | End(node: T)

  /** The event for `n` itself once a path is open: a step into an inner node, the end at a leaf. */
  function Reach(nodes: seq<Node>, n: nat): (e: PathEvent<nat>)
    requires n < |nodes|
    ensures !e.Start? && e.node == n
  {
    if nodes[n].children != [] then Step(n) else End(n)
  }

  /** The events `search(n, started)` makes before recursing into the children of `n`. */
  function OwnEvents(nodes: seq<Node>, n: nat, started: bool): (s: seq<PathEvent<nat>>)
    requires n < |nodes|
  {
    var opener := if !started && nodes[n].parent.Some? then [Start(nodes[n].parent.value)] else [];
    var open := started || nodes[n].parent.Some?;
    opener + [if !open then Start(n) else Reach(nodes, n)]
  }

  /** The events of `search(n, started)`. */
  function PathEvents(nodes: seq<Node>, n: nat, started: bool): (s: seq<PathEvent<nat>>)
    requires WellFormed(nodes) && n < |nodes|
    decreases |nodes| - n, 1, 0
  {
    OwnEvents(nodes, n, started) + ChildEvents(nodes, n, |nodes[n].children|)
  }

  /** The events of the recursive calls on the first `i` children of `n`; only the first is told a path is open. */
  function ChildEvents(nodes: seq<Node>, n: nat, i: nat): (s: seq<PathEvent<nat>>)
    requires WellFormed(nodes) && n < |nodes| && i <= |nodes[n].children|
    decreases |nodes| - n, 0, i
  {
    if i == 0 then []
    else
      ChildAfterParent(nodes, n, i - 1);
      ChildEvents(nodes, n, i - 1) + PathEvents(nodes, nodes[n].children[i - 1], i == 1)
  }

  /** The events of `depthTraverse`: `search(root)`, with no path open. */
  function DepthEvents(nodes: seq<Node>): seq<PathEvent<nat>>
    requires WellFormed(nodes)
  {
    PathEvents(nodes, Root, false)
  }

  // ---------------------------------------------------------------------------------------
  // A per-node description of the stream

  /** The nodes below `n` in pre-order: `n`, then each child's pre-order in turn. */
  function PreOrderFrom(nodes: seq<Node>, n: nat): (order: seq<nat>)
    requires WellFormed(nodes) && n < |nodes|
    ensures AllBelow(order, |nodes|)
    decreases |nodes| - n, 1, 0
  {
    [n] + PreOrderChildren(nodes, n, |nodes[n].children|)
  }

  /** The pre-orders of the first `i` children of `n`, concatenated. */
  function PreOrderChildren(nodes: seq<Node>, n: nat, i: nat): (order: seq<nat>)
    requires WellFormed(nodes) && n < |nodes| && i <= |nodes[n].children|
    ensures AllBelow(order, |nodes|)
    decreases |nodes| - n, 0, i
  {
    if i == 0 then []
    else
      ChildAfterParent(nodes, n, i - 1);
      PreOrderChildren(nodes, n, i - 1) + PreOrderFrom(nodes, nodes[n].children[i - 1])
  }

  function PreOrder(nodes: seq<Node>): (order: seq<nat>)
    requires WellFormed(nodes)
    ensures AllBelow(order, |nodes|)
  {
    PreOrderFrom(nodes, Root)
  }

  /** Whether `n` is the first child of its parent (never for the root). */
  ghost predicate IsFirstChild(nodes: seq<Node>, n: nat)
    requires WellFormed(nodes) && n < |nodes|
  {
    n != Root && nodes[Parent(nodes, n)].children[0] == n
  }

  /**
   * What node `n` contributes to the stream, judged from the tree alone: the root starts the
   * first path; a first child continues the path its parent is on; any other child starts a
   * new path at its parent and continues it.
   */
  ghost function Emission(nodes: seq<Node>, n: nat): seq<PathEvent<nat>>
    requires WellFormed(nodes) && n < |nodes|
  {
    if n == Root then [Start(Root)]
    else if IsFirstChild(nodes, n) then [Reach(nodes, n)]
    else [Start(Parent(nodes, n)), Reach(nodes, n)]
  }

  /** The emissions of the nodes of `order`, concatenated. */
  ghost function Emissions(nodes: seq<Node>, order: seq<nat>): seq<PathEvent<nat>>
    requires WellFormed(nodes) && AllBelow(order, |nodes|)
    decreases |order|
  {
    if order == [] then [] else Emission(nodes, order[0]) + Emissions(nodes, order[1..])
  }

  lemma {:induction false} EmissionsAppend(nodes: seq<Node>, a: seq<nat>, b: seq<nat>)
    requires WellFormed(nodes) && AllBelow(a, |nodes|) && AllBelow(b, |nodes|)
    ensures Emissions(nodes, a + b) == Emissions(nodes, a) + Emissions(nodes, b)
    decreases |a|
  {
    if a == [] {
      assert a + b == b;
    } else {
      assert (a + b)[0] == a[0] && (a + b)[1..] == a[1..] + b;
      EmissionsAppend(nodes, a[1..], b);
    }
  }

  /** The `started` flag `search` is called with is exactly "is its parent's first child". */
  lemma OwnEventsAreEmission(nodes: seq<Node>, n: nat)
    requires WellFormed(nodes) && n < |nodes|
    ensures OwnEvents(nodes, n, IsFirstChild(nodes, n)) == Emission(nodes, n)
  {
    if n == Root {
      RootHasNoParent(nodes);
    } else {
      var p := Parent(nodes, n);
    }
  }

  /** The child `c` at position `i` of `n` is its parent's first child exactly when `i == 0`. */
  lemma FirstChildAt(nodes: seq<Node>, n: nat, i: nat)
    requires WellFormed(nodes) && n < |nodes| && i < |nodes[n].children|
    ensures nodes[n].children[i] < |nodes|
    ensures IsFirstChild(nodes, nodes[n].children[i]) <==> i == 0
  {
    var c := nodes[n].children[i];
    ChildAfterParent(nodes, n, i);
    assert Parent(nodes, c) == n;
    assert NoDup(nodes[n].children);
  }

  /**
   * `search` makes, node by node, the emissions of the pre-order: the traversal's events are
   * decided by the tree alone, and not by the order the flag is threaded in.
   */
  lemma {:induction false} PathEventsAreEmissions(nodes: seq<Node>, n: nat)
    requires WellFormed(nodes) && n < |nodes|
    ensures PathEvents(nodes, n, IsFirstChild(nodes, n)) == Emissions(nodes, PreOrderFrom(nodes, n))
    decreases |nodes| - n, 1, 0
  {
    var k := |nodes[n].children|;
    ChildEventsAreEmissions(nodes, n, k);
    OwnEventsAreEmission(nodes, n);
    var rest := PreOrderChildren(nodes, n, k);
    assert ([n] + rest)[1..] == rest;
  }

  lemma {:induction false} ChildEventsAreEmissions(nodes: seq<Node>, n: nat, i: nat)
    requires WellFormed(nodes) && n < |nodes| && i <= |nodes[n].children|
    ensures ChildEvents(nodes, n, i) == Emissions(nodes, PreOrderChildren(nodes, n, i))
    decreases |nodes| - n, 0, i
  {
    if i > 0 {
      var c := nodes[n].children[i - 1];
      FirstChildAt(nodes, n, i - 1);
      ChildAfterParent(nodes, n, i - 1);
      ChildEventsAreEmissions(nodes, n, i - 1);
      PathEventsAreEmissions(nodes, c);
      EmissionsAppend(nodes, PreOrderChildren(nodes, n, i - 1), PreOrderFrom(nodes, c));
    }
  }

  /** `depthTraverse`'s events are the emissions of the tree's pre-order. */
  lemma DepthEventsAreEmissions(nodes: seq<Node>)
    requires WellFormed(nodes)
    ensures DepthEvents(nodes) == Emissions(nodes, PreOrder(nodes))
  {
    PathEventsAreEmissions(nodes, Root);
  }

  // ---------------------------------------------------------------------------------------
  // The pre-order visits every node exactly once

  /** `a` is `x` or one of its ancestors. */
  ghost predicate IsAncestor(nodes: seq<Node>, a: nat, x: nat)
    requires WellFormed(nodes) && x < |nodes|
    decreases x
  {
    x == a || (a < x && IsAncestor(nodes, a, Parent(nodes, x)))
  }

  lemma {:induction false} AncestorBelow(nodes: seq<Node>, a: nat, x: nat)
    requires WellFormed(nodes) && x < |nodes| && IsAncestor(nodes, a, x)
    ensures a <= x
  {
  }

  /** The root is an ancestor of every node. */
  lemma {:induction false} RootIsAncestor(nodes: seq<Node>, x: nat)
    requires WellFormed(nodes) && x < |nodes|
    ensures IsAncestor(nodes, Root, x)
    decreases x
  {
    if x != Root {
      RootIsAncestor(nodes, Parent(nodes, x));
    }
  }

  /** Two ancestors of the same node are ancestor and descendant of each other. */
  lemma {:induction false} AncestorsComparable(nodes: seq<Node>, a: nat, b: nat, x: nat)
    requires WellFormed(nodes) && x < |nodes| && IsAncestor(nodes, a, x) && IsAncestor(nodes, b, x)
    ensures a < |nodes| && b < |nodes|
    ensures IsAncestor(nodes, a, b) || IsAncestor(nodes, b, a)
    decreases x
  {
    if x != a && x != b {
      AncestorsComparable(nodes, a, b, Parent(nodes, x));
    }
  }

  /** A proper descendant of `n` descends from exactly the child of `n` on the way down to it. */
  lemma {:induction false} DescendsThroughChild(nodes: seq<Node>, n: nat, x: nat) returns (i: nat)
    requires WellFormed(nodes) && n < x < |nodes| && IsAncestor(nodes, n, x)
    ensures i < |nodes[n].children| && IsAncestor(nodes, nodes[n].children[i], x)
    decreases x
  {
    var p := Parent(nodes, x);
    if p == n {
      i :| 0 <= i < |nodes[n].children| && nodes[n].children[i] == x;
    } else {
      i := DescendsThroughChild(nodes, n, p);
      ChildAfterParent(nodes, n, i);
      AncestorBelow(nodes, nodes[n].children[i], p);
    }
  }

  /** A descendant of a child of `n` descends from `n`. */
  lemma {:induction false} ChildAncestor(nodes: seq<Node>, n: nat, i: nat, x: nat)
    requires WellFormed(nodes) && n < |nodes| && i < |nodes[n].children| && x < |nodes|
    requires IsAncestor(nodes, nodes[n].children[i], x)
    ensures IsAncestor(nodes, n, x) && n < x
    decreases x
  {
    var c := nodes[n].children[i];
    ChildAfterParent(nodes, n, i);
    if x == c {
      assert Parent(nodes, c) == n;
    } else {
      ChildAncestor(nodes, n, i, Parent(nodes, x));
    }
  }

  /** Distinct children of one node have no descendant in common. */
  lemma SiblingsDisjoint(nodes: seq<Node>, n: nat, i: nat, j: nat, x: nat)
    requires WellFormed(nodes) && n < |nodes| && i < j < |nodes[n].children| && x < |nodes|
    ensures !(IsAncestor(nodes, nodes[n].children[i], x) && IsAncestor(nodes, nodes[n].children[j], x))
  {
    var a, b := nodes[n].children[i], nodes[n].children[j];
    ChildAfterParent(nodes, n, i);
    ChildAfterParent(nodes, n, j);
    assert a != b by { assert NoDup(nodes[n].children); }
    if IsAncestor(nodes, a, x) && IsAncestor(nodes, b, x) {
      AncestorsComparable(nodes, a, b, x);
      if IsAncestor(nodes, a, b) {
        assert Parent(nodes, b) == n;
        AncestorBelow(nodes, a, n);
      } else {
        assert Parent(nodes, a) == n;
        AncestorBelow(nodes, b, n);
      }
    }
  }

  /** The pre-order from `n` lists every descendant of `n` exactly once, and nothing else. */
  lemma {:induction false} PreOrderFromDescendants(nodes: seq<Node>, n: nat)
    requires WellFormed(nodes) && n < |nodes|
    ensures NoDup(PreOrderFrom(nodes, n))
    ensures forall x: nat :: x in PreOrderFrom(nodes, n) <==> x < |nodes| && IsAncestor(nodes, n, x)
    decreases |nodes| - n, 1, 0
  {
    var k := |nodes[n].children|;
    var rest := PreOrderChildren(nodes, n, k);
    PreOrderChildrenDescendants(nodes, n, k);
    forall x: nat | x < |nodes| && IsAncestor(nodes, n, x) && x != n
      ensures x in rest
    {
      AncestorBelow(nodes, n, x);
      var i := DescendsThroughChild(nodes, n, x);
    }
    forall x | x in rest
      ensures IsAncestor(nodes, n, x) && x != n
    {
      var i :| 0 <= i < k && IsAncestor(nodes, nodes[n].children[i], x);
      ChildAncestor(nodes, n, i, x);
    }
    forall k | 0 <= k < |rest| ensures [n][0] != rest[k] {
      assert rest[k] in rest;
    }
    NoDupConcat([n], rest);
  }

  lemma {:induction false} PreOrderChildrenDescendants(nodes: seq<Node>, n: nat, i: nat)
    requires WellFormed(nodes) && n < |nodes| && i <= |nodes[n].children|
    ensures NoDup(PreOrderChildren(nodes, n, i))
    ensures forall x: nat :: x in PreOrderChildren(nodes, n, i) <==>
      x < |nodes| && exists j :: 0 <= j < i && IsAncestor(nodes, nodes[n].children[j], x)
    decreases |nodes| - n, 0, i
  {
    if i > 0 {
      var c := nodes[n].children[i - 1];
      ChildAfterParent(nodes, n, i - 1);
      PreOrderChildrenDescendants(nodes, n, i - 1);
      PreOrderFromDescendants(nodes, c);
      var front, back := PreOrderChildren(nodes, n, i - 1), PreOrderFrom(nodes, c);
      forall a, b | 0 <= a < |front| && 0 <= b < |back| ensures front[a] != back[b] {
        assert front[a] in front;
        var j :| 0 <= j < i - 1 && IsAncestor(nodes, nodes[n].children[j], front[a]);
        assert back[b] in back;
        SiblingsDisjoint(nodes, n, j, i - 1, back[b]);
      }
      NoDupConcat(front, back);
    }
  }

  /** The pre-order lists every node of the tree exactly once, starting at the root. */
  lemma PreOrderVisitsAll(nodes: seq<Node>)
    requires WellFormed(nodes)
    ensures NoDup(PreOrder(nodes))
    ensures forall x: nat :: x in PreOrder(nodes) <==> x < |nodes|
    ensures PreOrder(nodes)[0] == Root
  {
    PreOrderFromDescendants(nodes, Root);
    forall x: nat | x < |nodes| ensures IsAncestor(nodes, Root, x) {
      RootIsAncestor(nodes, x);
    }
  }

  // ---------------------------------------------------------------------------------------
  // The stream is a sequence of downward paths

  /**
   * Two consecutive events: a start comes only right after an end; anything else continues
   * the open path one level down, to a child of the node before it.
   */
  ghost predicate Adjacent(nodes: seq<Node>, a: PathEvent<nat>, b: PathEvent<nat>) {
    if b.Start? then a.End?
    else !a.End? && a.node < |nodes| && b.node in nodes[a.node].children
  }

  ghost predicate Chained(nodes: seq<Node>, s: seq<PathEvent<nat>>) {
    forall i :: 0 <= i < |s| - 1 ==> Adjacent(nodes, s[i], s[i + 1])
  }

  /** Every event names a node of the tree; steps are at inner nodes and ends at leaves. */
  ghost predicate Labelled(nodes: seq<Node>, s: seq<PathEvent<nat>>) {
    forall i :: 0 <= i < |s| ==>
      && s[i].node < |nodes|
      && (s[i].Step? ==> nodes[s[i].node].children != [])
      && (s[i].End? ==> nodes[s[i].node].children == [])
  }

  lemma ChainedAppend(nodes: seq<Node>, a: seq<PathEvent<nat>>, b: seq<PathEvent<nat>>)
    requires Chained(nodes, a) && Chained(nodes, b) && Labelled(nodes, a) && Labelled(nodes, b)
    requires a != [] && b != [] ==> Adjacent(nodes, a[|a| - 1], b[0])
    ensures Chained(nodes, a + b) && Labelled(nodes, a + b)
  {
    forall i | 0 <= i < |a + b| - 1 ensures Adjacent(nodes, (a + b)[i], (a + b)[i + 1]) {
      if i + 1 < |a| {
        assert (a + b)[i] == a[i] && (a + b)[i + 1] == a[i + 1];
      } else if i + 1 == |a| {
        assert (a + b)[i] == a[|a| - 1] && (a + b)[i + 1] == b[0];
      } else {
        assert (a + b)[i] == b[i - |a|] && (a + b)[i + 1] == b[i - |a| + 1];
      }
    }
    forall i | 0 <= i < |a + b| ensures (a + b)[i] == if i < |a| then a[i] else b[i - |a|] {
    }
  }

  /**
   * The events of `search(n, started)` form a chain of downward paths. The first is a step
   * or end at `n` when a path is open, otherwise the start of a path at the parent of `n`
   * (or at `n` itself for the root). The last is an end at a leaf, unless `n` is a childless
   * root, which makes the single event `Start(n)`.
   */
  lemma {:induction false} PathEventsChained(nodes: seq<Node>, n: nat, started: bool)
    requires WellFormed(nodes) && n < |nodes| && (n == Root ==> !started)
    ensures var s := PathEvents(nodes, n, started);
      && s != [] && Chained(nodes, s) && Labelled(nodes, s)
      && s[0] == (if started then Reach(nodes, n) else if n == Root then Start(Root) else Start(Parent(nodes, n)))
      && (n == Root && nodes[n].children == [] ==> s == [Start(Root)])
      && (n != Root || nodes[n].children != [] ==> s[|s| - 1].End?)
    decreases |nodes| - n, 1, 0
  {
    var own := OwnEvents(nodes, n, started);
    var k := |nodes[n].children|;
    if n == Root {
      RootHasNoParent(nodes);
    } else {
      var p := Parent(nodes, n);
      if !started {
        assert Reach(nodes, n).node in nodes[p].children;
      }
    }
    assert Chained(nodes, own) && Labelled(nodes, own);
    if k > 0 {
      ChildEventsChained(nodes, n, k);
      assert own[|own| - 1] == if n == Root then Start(n) else Step(n);
    }
    ChainedAppend(nodes, own, ChildEvents(nodes, n, k));
  }

  /** The events of the calls on the first `i >= 1` children: a chain from a child of `n` down to a leaf. */
  lemma {:induction false} ChildEventsChained(nodes: seq<Node>, n: nat, i: nat)
    requires WellFormed(nodes) && n < |nodes| && 0 < i <= |nodes[n].children|
    ensures var s := ChildEvents(nodes, n, i);
      && s != [] && Chained(nodes, s) && Labelled(nodes, s)
      && !s[0].Start? && s[0].node in nodes[n].children
      && s[|s| - 1].End?
    decreases |nodes| - n, 0, i
  {
    var c := nodes[n].children[i - 1];
    ChildAfterParent(nodes, n, i - 1);
    PathEventsChained(nodes, c, i == 1);
    assert Parent(nodes, c) == n;
    if i > 1 {
      ChildEventsChained(nodes, n, i - 1);
      ChainedAppend(nodes, ChildEvents(nodes, n, i - 1), PathEvents(nodes, c, false));
    } else {
      assert ChildEvents(nodes, n, 1) == PathEvents(nodes, c, true);
    }
  }

  /**
   * `depthTraverse` opens its first path at the root, only ever opens a path right after the
   * previous one ended, walks each path one level down at a time, ends every path at a leaf,
   * and ends with a closed path; a childless root gives the single event `Start(root)`.
   */
  lemma DepthEventsChained(nodes: seq<Node>)
    requires WellFormed(nodes)
    ensures var s := DepthEvents(nodes);
      && s != [] && s[0] == Start(Root) && Chained(nodes, s) && Labelled(nodes, s)
      && (nodes[Root].children == [] <==> s == [Start(Root)])
      && (nodes[Root].children != [] ==> s[|s| - 1].End?)
  {
    PathEventsChained(nodes, Root, false);
  }

  // ---------------------------------------------------------------------------------------
  // Every branch is walked exactly once

  /** The nodes reached by steps and ends, in order: the lower end of each branch walked. */
  function Reached<T>(s: seq<PathEvent<T>>): seq<T>
    decreases |s|
  {
    if s == [] then [] else (if s[0].Start? then [] else [s[0].node]) + Reached(s[1..])
  }

  lemma {:induction false} ReachedAppend<T>(a: seq<PathEvent<T>>, b: seq<PathEvent<T>>)
    ensures Reached(a + b) == Reached(a) + Reached(b)
    decreases |a|
  {
    if a == [] {
      assert a + b == b;
    } else {
      assert (a + b)[0] == a[0] && (a + b)[1..] == a[1..] + b;
      ReachedAppend(a[1..], b);
    }
  }

  lemma {:induction false} ReachedEmissions(nodes: seq<Node>, order: seq<nat>)
    requires WellFormed(nodes) && AllBelow(order, |nodes|) && Root !in order
    ensures Reached(Emissions(nodes, order)) == order
    decreases |order|
  {
    if order != [] {
      var e := Emission(nodes, order[0]);
      ReachedAppend(e, Emissions(nodes, order[1..]));
      ReachedEmissions(nodes, order[1..]);
      assert Reached(e) == [order[0]] by {
        if !IsFirstChild(nodes, order[0]) {
          assert e[1..] == [Reach(nodes, order[0])];
        }
      }
    }
  }

  /**
   * Every node but the root is reached by exactly one step or end: the paths `depthTraverse`
   * reports cover every branch of the tree (parent to child) exactly once.
   */
  lemma DepthEventsCoverBranches(nodes: seq<Node>)
    requires WellFormed(nodes)
    ensures var reached := Reached(DepthEvents(nodes));
      && NoDup(reached)
      && (forall x: nat :: x in reached <==> 0 < x < |nodes|)
  {
    DepthEventsAreEmissions(nodes);
    PreOrderVisitsAll(nodes);
    var order := PreOrder(nodes);
    NoDupTail(order);
    ReachedAppend(Emission(nodes, Root), Emissions(nodes, order[1..]));
    ReachedEmissions(nodes, order[1..]);
    assert Emissions(nodes, order) == Emission(nodes, Root) + Emissions(nodes, order[1..]);
    forall x: nat | x in order[1..] ensures 0 < x < |nodes| {
      assert x in order;
    }
    forall x: nat | 0 < x < |nodes| ensures x in order[1..] {
      assert x in order;
      assert x != order[0];
    }
  }

  // ---------------------------------------------------------------------------------------
  // From nodes to locations

  /** The callbacks receive nodes and the path builders use their locations. */
  function Locate(nodes: seq<Node>, s: seq<PathEvent<nat>>): (r: seq<PathEvent<Vec3>>)
    requires forall i :: 0 <= i < |s| ==> s[i].node < |nodes|
    ensures |r| == |s|
    ensures forall i :: 0 <= i < |s| ==>
      r[i].node == nodes[s[i].node].location
      && (r[i].Start? <==> s[i].Start?) && (r[i].Step? <==> s[i].Step?) && (r[i].End? <==> s[i].End?)
  {
    seq(|s|, i requires 0 <= i < |s| && s[i].node < |nodes| =>
      match s[i]
      case Start(n) => Start(nodes[n].location)
      case Step(n) => Step(nodes[n].location)
      case End(n) => End(nodes[n].location))
  }
}
