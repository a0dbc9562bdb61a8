/**
 * What both mesh builders take from a tree: they run `depthTraverse` with the path closures
 * and get one list of locations per path, then build one tube per path.
 *
 * The module connects the traversal to the closures: the event stream of any tree is a list
 * of paths the closures collect exactly, a root without children gives no path at all, and
 * the paths end at the leaves below the root, each leaf once.
 */
module TreePaths {
  import opened TreeModel
  import opened DepthOrder
  import opened Paths
  import Lichtenberg

  // ---------------------------------------------------------------------------------------
  // The event stream as the closures see it

  /** `depthTraverse` names nodes of the tree only, and opens its first path at the root. */
  lemma DepthEventsBelow(nodes: seq<Node>)
    requires WellFormed(nodes)
    ensures var s := DepthEvents(nodes);
      && s != [] && s[0] == Start(Root)
      && forall i :: 0 <= i < |s| ==> s[i].node < |nodes|
  {
    DepthEventsChained(nodes);
  }

  /** The callbacks' arguments mapped to their locations: what the closures are fed. */
  function LocatedEvents(nodes: seq<Node>): (r: seq<PathEvent<Vec3>>)
    requires WellFormed(nodes)
    ensures r != [] && r[0] == Start(nodes[Root].location)
  {
    DepthEventsBelow(nodes);
    Locate(nodes, DepthEvents(nodes))
  }

  /** The paths the closures leave behind after `depthTraverse`. */
  function TreePathsOf(nodes: seq<Node>): seq<seq<Vec3>>
    requires WellFormed(nodes)
  {
    Collect(LocatedEvents(nodes))
  }

  /** A downward chain that opens with a start alternates starts and ends as the closures need. */
  lemma ChainedAlternating(nodes: seq<Node>, s: seq<PathEvent<nat>>)
    requires Chained(nodes, s) && (s != [] ==> s[0].Start?)
    ensures Alternating(s)
  {
    forall i | 0 <= i < |s| - 1 ensures s[i + 1].Start? <==> s[i].End? {
      assert Adjacent(nodes, s[i], s[i + 1]);
    }
  }

  /** Mapping nodes to locations keeps every event's kind, so a complete stream stays complete. */
  lemma LocateComplete(nodes: seq<Node>, s: seq<PathEvent<nat>>)
    requires forall i :: 0 <= i < |s| ==> s[i].node < |nodes|
    requires Complete(s)
    ensures Complete(Locate(nodes, s))
  {
    var r := Locate(nodes, s);
    forall i | 0 <= i < |r| - 1 ensures r[i + 1].Start? <==> r[i].End? {
      assert s[i + 1].Start? <==> s[i].End?;
    }
  }

  /** The ends of the located stream are the locations of the ends of the stream. */
  lemma {:induction false} LocateEnds(nodes: seq<Node>, s: seq<PathEvent<nat>>)
    requires forall i :: 0 <= i < |s| ==> s[i].node < |nodes|
    ensures AllBelow(Ends(s), |nodes|)
    ensures Ends(Locate(nodes, s)) == Lichtenberg.Locations(nodes, Ends(s))
    decreases |s|
  {
    if s != [] {
      var r := Locate(nodes, s);
      assert Locate(nodes, s[1..]) == r[1..];
      LocateEnds(nodes, s[1..]);
      var head := if s[0].End? then [s[0].node] else [];
      assert Ends(s) == head + Ends(s[1..]);
      var locs := Lichtenberg.Locations(nodes, Ends(s));
      assert locs == Lichtenberg.Locations(nodes, head) + Lichtenberg.Locations(nodes, Ends(s[1..]));
    }
  }

  // ---------------------------------------------------------------------------------------
  // The paths of a tree

  /**
   * The closures collect the paths of the traversal exactly: each has two locations at
   * least, writing them back as events gives the stream again when the root has children,
   * and there is no path at all exactly when the root has none.
   */
  lemma TreePathsShape(nodes: seq<Node>)
    requires WellFormed(nodes)
    ensures AllPaths(TreePathsOf(nodes))
    ensures nodes[Root].children == [] <==> TreePathsOf(nodes) == []
    ensures nodes[Root].children != [] ==> Encode(TreePathsOf(nodes)) == LocatedEvents(nodes)
  {
    var s := DepthEvents(nodes);
    DepthEventsChained(nodes);
    var r := LocatedEvents(nodes);
    if nodes[Root].children == [] {
      assert r == [Start(nodes[Root].location)];
      assert r[1..] == [];
      assert FeedAll(Empty(), r) == FeedAll(Feed(Empty(), r[0]), []);
    } else {
      ChainedAlternating(nodes, s);
      LocateComplete(nodes, s);
      EncodeCollect(r);
    }
  }

  /**
   * There is one path per end event, and the paths finish, in order, at the locations of the
   * ends `depthTraverse` reports.
   */
  lemma TreePathsEnds(nodes: seq<Node>)
    requires WellFormed(nodes)
    ensures AllPaths(TreePathsOf(nodes)) && AllBelow(Ends(DepthEvents(nodes)), |nodes|)
    ensures Lasts(TreePathsOf(nodes)) == Lichtenberg.Locations(nodes, Ends(DepthEvents(nodes)))
  {
    var s := DepthEvents(nodes);
    DepthEventsBelow(nodes);
    TreePathsShape(nodes);
    LocateEnds(nodes, s);
    if nodes[Root].children == [] {
      DepthEventsChained(nodes);
      assert s[1..] == [];
      assert Ends(s) == [];
    } else {
      DepthEventsChained(nodes);
      ChainedAlternating(nodes, s);
      LocateComplete(nodes, s);
      CollectEnds(LocatedEvents(nodes));
    }
  }

  // ---------------------------------------------------------------------------------------
  // The ends are the leaves

  /** The leaves among `order`, in order. */
  function Leaves(nodes: seq<Node>, order: seq<nat>): (r: seq<nat>)
    requires AllBelow(order, |nodes|)
    decreases |order|
  {
    if order == [] then []
    else (if nodes[order[0]].children == [] then [order[0]] else []) + Leaves(nodes, order[1..])
  }

  /** Every node but the root ends its own path when it is a leaf and ends nothing otherwise. */
  lemma {:induction false} EndsOfEmissions(nodes: seq<Node>, order: seq<nat>)
    requires WellFormed(nodes) && AllBelow(order, |nodes|) && Root !in order
    ensures Ends(Emissions(nodes, order)) == Leaves(nodes, order)
    decreases |order|
  {
    if order != [] {
      var x := order[0];
      var e := Emission(nodes, x);
      EndsAppend(e, Emissions(nodes, order[1..]));
      EndsOfEmissions(nodes, order[1..]);
      var here := if nodes[x].children == [] then [x] else [];
      assert Ends(e) == here by {
        if !IsFirstChild(nodes, x) {
          assert e[1..] == [Reach(nodes, x)];
        }
      }
    }
  }

  /** The leaves of a duplicate-free order are duplicate free and are exactly its members without children. */
  lemma {:induction false} LeavesOf(nodes: seq<Node>, order: seq<nat>)
    requires AllBelow(order, |nodes|) && NoDup(order)
    ensures NoDup(Leaves(nodes, order))
    ensures forall x :: x in Leaves(nodes, order) <==> x in order && nodes[x].children == []
    decreases |order|
  {
    if order != [] {
      NoDupTail(order);
      LeavesOf(nodes, order[1..]);
      var here := if nodes[order[0]].children == [] then [order[0]] else [];
      NoDupConcat(here, Leaves(nodes, order[1..]));
      assert forall x :: x in order <==> x == order[0] || x in order[1..];
    }
  }

  /**
   * The paths of `depthTraverse` end at the leaves below the root: every leaf other than the
   * root ends exactly one path, and nothing else ends one.
   */
  lemma DepthEventsEnds(nodes: seq<Node>)
    requires WellFormed(nodes)
    ensures NoDup(Ends(DepthEvents(nodes)))
    ensures forall x: nat :: x in Ends(DepthEvents(nodes)) <==> 0 < x < |nodes| && nodes[x].children == []
  {
    DepthEventsAreEmissions(nodes);
    PreOrderVisitsAll(nodes);
    var order := PreOrder(nodes);
    NoDupTail(order);
    assert Emissions(nodes, order) == Emission(nodes, Root) + Emissions(nodes, order[1..]);
    EndsAppend(Emission(nodes, Root), Emissions(nodes, order[1..]));
    assert Ends([Start(Root)]) == [];
    EndsOfEmissions(nodes, order[1..]);
    LeavesOf(nodes, order[1..]);
    forall x: nat | x in order[1..] ensures 0 < x < |nodes| {
      assert x in order;
    }
    forall x: nat | 0 < x < |nodes| ensures x in order[1..] {
      assert x in order;
      assert x != order[0];
    }
  }

  /**
   * The paths the closures collect on the test tree: down the first child to its leaf, down
   * the second child to its first leaf, and from the second child to its other leaf.
   */
  lemma TestTreePaths()
    ensures WellFormed(Lichtenberg.TestTree)
    ensures TreePathsOf(Lichtenberg.TestTree) == TestTreePathList()
  {
    Lichtenberg.TestTreeDepthLocations();
    TestTreeEncode();
    CollectEncode(TestTreePathList());
  }

  function TestTreePathList(): seq<seq<Vec3>> {
    [[Vec3(0.0, 0.0, 0.0), Vec3(-1.0, 1.0, 0.0), Vec3(-2.0, 2.0, 0.0)],
     [Vec3(0.0, 0.0, 0.0), Vec3(0.0, 1.0, 0.0), Vec3(0.0, 2.0, 0.0)],
     [Vec3(0.0, 1.0, 0.0), Vec3(1.0, 2.0, 0.0)]]
  }

  /** Writing the test tree's paths back as events gives the stream of its traversal test. */
  lemma TestTreeEncode()
    ensures AllPaths(TestTreePathList())
    ensures Encode(TestTreePathList()) == [
      Start(Vec3(0.0, 0.0, 0.0)), Step(Vec3(-1.0, 1.0, 0.0)), End(Vec3(-2.0, 2.0, 0.0)),
      Start(Vec3(0.0, 0.0, 0.0)), Step(Vec3(0.0, 1.0, 0.0)), End(Vec3(0.0, 2.0, 0.0)),
      Start(Vec3(0.0, 1.0, 0.0)), End(Vec3(1.0, 2.0, 0.0))]
  {
    var ps := TestTreePathList();
    var p0: seq<Vec3>, p1: seq<Vec3>, p2: seq<Vec3> := ps[0], ps[1], ps[2];
    assert EncodePath(p0) == [Start(p0[0]), Step(p0[1]), End(p0[2])] by {
      assert p0[1..2] == [p0[1]];
    }
    assert EncodePath(p1) == [Start(p1[0]), Step(p1[1]), End(p1[2])] by {
      assert p1[1..2] == [p1[1]];
    }
    assert EncodePath(p2) == [Start(p2[0]), End(p2[1])] by {
      assert p2[1..1] == [];
    }
    var one: seq<seq<Vec3>> := [p2];
    assert one[1..] == [];
    assert Encode(one) == EncodePath(p2) + [];
    var e2 := Encode(one);
    var two: seq<seq<Vec3>> := [p1, p2];
    assert two[1..] == one;
    var e1 := Encode(two);
    assert e1 == EncodePath(p1) + e2;
    assert ps[1..] == two;
    assert Encode(ps) == EncodePath(p0) + e1;
  }

  // ---------------------------------------------------------------------------------------
  // One tube per path

  /** A `TubeGeometry` along the curve through a path's locations. */
  datatype Tube = Tube(points: seq<Vec3>, tubularSegments: nat, radius: real, radialSegments: nat, closed: bool)

  /** `new TubeGeometry(new CatmullRomCurve3(path), path.length * 5, 0.5, 8, false)`. */
  function TubeFor(path: seq<Vec3>): Tube {
    Tube(path, |path| * 5, 0.5, 8, false)
  }

  /** What the tubes of a tree's paths are: one per path, in order, each with ten segments or more. */
  ghost predicate TubesOf(nodes: seq<Node>, tubes: seq<Tube>)
    requires WellFormed(nodes)
  {
    var paths := TreePathsOf(nodes);
    |tubes| == |paths| && forall i :: 0 <= i < |tubes| ==> tubes[i] == TubeFor(paths[i])
  }

  /** Every tube of a tree runs along one of its paths, so it has at least ten segments, radius 0.5 and 8 radial segments. */
  lemma TubesShape(nodes: seq<Node>, tubes: seq<Tube>)
    requires WellFormed(nodes) && TubesOf(nodes, tubes)
    ensures forall i :: 0 <= i < |tubes| ==>
      |tubes[i].points| >= 2 && tubes[i].tubularSegments >= 10
      && tubes[i].radius == 0.5 && tubes[i].radialSegments == 8 && !tubes[i].closed
  {
    TreePathsShape(nodes);
    var paths := TreePathsOf(nodes);
    forall i | 0 <= i < |tubes| ensures |tubes[i].points| >= 2 && tubes[i].tubularSegments >= 10 {
      assert |paths[i]| >= 2;
    }
  }

  /** There is one tube per leaf below the root, in the order the paths end, and each tube finishes at its leaf. */
  lemma TubesEndAtLeaves(nodes: seq<Node>, tubes: seq<Tube>)
    requires WellFormed(nodes) && TubesOf(nodes, tubes)
    ensures AllBelow(Ends(DepthEvents(nodes)), |nodes|) && |tubes| == |Ends(DepthEvents(nodes))|
    ensures forall i :: 0 <= i < |tubes| ==>
      |tubes[i].points| >= 2 && tubes[i].points[|tubes[i].points| - 1] == nodes[Ends(DepthEvents(nodes))[i]].location
  {
    TreePathsEnds(nodes);
    var paths := TreePathsOf(nodes);
    var ends := Ends(DepthEvents(nodes));
    assert |Lasts(paths)| == |ends|;
    forall i | 0 <= i < |tubes|
      ensures |tubes[i].points| >= 2 && tubes[i].points[|tubes[i].points| - 1] == nodes[ends[i]].location
    {
      assert tubes[i].points == paths[i];
      assert Lasts(paths)[i] == Lichtenberg.Locations(nodes, ends)[i];
    }
  }
}
