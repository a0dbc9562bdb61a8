/**
 * The node graph of a Lichtenberg tree, held as an arena.
 *
 * A `TreeNode` of src/Structures/LichtenbergTree.ts (and of the older
 * src/Structures/LictenbergTree.ts) has a location, a `parent` back-reference and an ordered
 * `children` array. Here every node of one tree lives in one sequence; a node is named by its
 * index, the parent reference is an optional index and the children are a sequence of indices.
 * The root is index 0, and since nodes are only ever appended, a child's index is always
 * larger than its parent's.
 */
module TreeModel {
  import opened Wrappers

  /** A `Vector3`; its float components are modelled as exact reals. */
  datatype Vec3 = Vec3(x: real, y: real, z: real)

  datatype Node = Node(location: Vec3, parent: Option<nat>, children: seq<nat>)

  /** The index of the tree's root node. */
  const Root: nat := 0

  ghost predicate NoDup<T>(s: seq<T>) {
    forall i, j :: 0 <= i < j < |s| ==> s[i] != s[j]
  }

  /** Dropping the head of a duplicate-free sequence keeps it duplicate free, and the head is not in the rest. */
  lemma NoDupTail<T>(s: seq<T>)
    requires NoDup(s) && s != []
    ensures NoDup(s[1..]) && s[0] !in s[1..]
  {
    forall a, b | 0 <= a < b < |s[1..]| ensures s[1..][a] != s[1..][b] {
      assert s[1..][a] == s[a + 1] && s[1..][b] == s[b + 1];
    }
    forall a | 0 <= a < |s[1..]| ensures s[1..][a] != s[0] {
      assert s[1..][a] == s[a + 1];
    }
  }

  /** Two duplicate-free sequences with no element in common concatenate to a duplicate-free one. */
  lemma NoDupConcat<T>(a: seq<T>, b: seq<T>)
    requires NoDup(a) && NoDup(b)
    requires forall i, k :: 0 <= i < |a| && 0 <= k < |b| ==> a[i] != b[k]
    ensures NoDup(a + b)
  {
    forall i, k | 0 <= i < k < |a + b| ensures (a + b)[i] != (a + b)[k] {
      if k < |a| {
        assert (a + b)[i] == a[i] && (a + b)[k] == a[k];
      } else if i < |a| {
        assert (a + b)[i] == a[i] && (a + b)[k] == b[k - |a|];
      } else {
        assert (a + b)[i] == b[i - |a|] && (a + b)[k] == b[k - |a|];
      }
    }
  }

  ghost predicate AllBelow(s: seq<nat>, bound: nat) {
    forall i :: 0 <= i < |s| ==> s[i] < bound
  }

  /** The indices `start, start + 1, ..., start + count - 1`: the nodes appended by `count` additions. */
  function Fresh(start: nat, count: nat): (r: seq<nat>)
    ensures |r| == count && forall i :: 0 <= i < count ==> r[i] == start + i
  {
    seq(count, i => start + i)
  }

  /** The indices handed out by consecutive additions are distinct. */
  lemma FreshNoDup(start: nat, count: nat)
    ensures NoDup(Fresh(start, count))
  {
  }

  lemma FreshCons(start: nat, count: nat)
    ensures Fresh(start, count + 1) == [start] + Fresh(start + 1, count)
  {
    var f := Fresh(start + 1, count);
    forall i | 0 <= i < count + 1
      ensures Fresh(start, count + 1)[i] == ([start] + f)[i]
    {
      if i > 0 {
        assert ([start] + f)[i] == f[i - 1];
      }
    }
  }

  lemma FreshAppend(start: nat, a: nat, b: nat)
    ensures Fresh(start, a) + Fresh(start + a, b) == Fresh(start, a + b)
  {
    var f, g := Fresh(start, a), Fresh(start + a, b);
    forall i | 0 <= i < a + b
      ensures (f + g)[i] == Fresh(start, a + b)[i]
    {
      if i >= a {
        assert (f + g)[i] == g[i - a];
      }
    }
  }

  /** The arena holds a root, and every child index is in it and above its parent's: what walking down the tree needs. */
  ghost predicate Ordered(nodes: seq<Node>) {
    && |nodes| > 0
    && forall i, k :: 0 <= i < |nodes| && 0 <= k < |nodes[i].children| ==> i < nodes[i].children[k] < |nodes|
  }

  /** Regrouping a concatenation; stated on plain variables so that it stays cheap where the parts are large terms. */
  lemma ConcatAssoc<T>(a: seq<T>, b: seq<T>, c: seq<T>)
    ensures (a + b) + c == a + (b + c)
  {
  }

  /** Node `j`'s parent link: the root has none; any other node's parent comes earlier and lists it as a child. */
  ghost predicate ParentLinked(nodes: seq<Node>, j: nat)
    requires j < |nodes|
  {
    match nodes[j].parent
    case None => j == Root
    case Some(p) => p < j && j in nodes[p].children
  }

  /**
   * The arena is a rooted tree: every node but the root has exactly one parent, that parent's
   * children contain it exactly once, and every child's parent link points back.
   */
  ghost predicate WellFormed(nodes: seq<Node>) {
    && |nodes| > 0
    && Ordered(nodes)
    && (forall j :: 0 <= j < |nodes| ==> ParentLinked(nodes, j))
    && (forall i, k :: 0 <= i < |nodes| && 0 <= k < |nodes[i].children| ==>
          nodes[i].children[k] < |nodes| && nodes[nodes[i].children[k]].parent == Some(i))
    && (forall i :: 0 <= i < |nodes| ==> NoDup(nodes[i].children))
  }

  /** The parent of a non-root node. */
  function Parent(nodes: seq<Node>, j: nat): (p: nat)
    requires WellFormed(nodes) && 0 < j < |nodes|
    ensures nodes[j].parent == Some(p) && p < j && j in nodes[p].children
  {
    assert ParentLinked(nodes, j);
    nodes[j].parent.value
  }

  lemma RootHasNoParent(nodes: seq<Node>)
    requires WellFormed(nodes)
    ensures nodes[Root].parent == None
  {
    assert ParentLinked(nodes, Root);
  }

  /** Every child comes after its parent in the arena. */
  lemma ChildAfterParent(nodes: seq<Node>, i: nat, k: nat)
    requires WellFormed(nodes) && i < |nodes| && k < |nodes[i].children|
    ensures i < nodes[i].children[k] < |nodes|
  {
  }

  /**
   * `addChild(location)` on node `p`: a new node with that location, parent `p` and no
   * children is appended to the arena and to the end of `p`'s children.
   */
  function WithChild(nodes: seq<Node>, p: nat, location: Vec3): (r: seq<Node>)
    requires p < |nodes|
    ensures |r| == |nodes| + 1
    ensures r[|nodes|] == Node(location, Some(p), [])
    ensures r[p].children == nodes[p].children + [|nodes|]
    ensures r[p].location == nodes[p].location && r[p].parent == nodes[p].parent
    ensures forall j :: 0 <= j < |nodes| && j != p ==> r[j] == nodes[j]
  {
    nodes[p := nodes[p].(children := nodes[p].children + [|nodes|])] + [Node(location, Some(p), [])]
  }

  /** Adding a child keeps the arena a tree. */
  lemma WithChildWellFormed(nodes: seq<Node>, p: nat, location: Vec3)
    requires WellFormed(nodes) && p < |nodes|
    ensures WellFormed(WithChild(nodes, p, location))
  {
    var r := WithChild(nodes, p, location);
    var n := |nodes|;
    forall j | 0 <= j < |r|
      ensures ParentLinked(r, j)
    {
      if j < n {
        assert ParentLinked(nodes, j);
        match nodes[j].parent
        case None =>
        case Some(q) =>
          assert j in r[q].children by {
            assert nodes[q].children <= r[q].children;
          }
      } else {
        assert r[j].parent == Some(p);
        assert n in r[p].children;
      }
    }
    forall i, k | 0 <= i < |r| && 0 <= k < |r[i].children|
      ensures r[i].children[k] < |r| && r[r[i].children[k]].parent == Some(i)
    {
      if i == p && k == |nodes[p].children| {
        assert r[i].children[k] == n;
      } else {
        assert i < n;
        assert r[i].children[k] == nodes[i].children[k];
      }
    }
    forall i | 0 <= i < |r|
      ensures NoDup(r[i].children)
    {
      if i == p {
        forall a, b | 0 <= a < b < |r[p].children|
          ensures r[p].children[a] != r[p].children[b]
        {
          if b == |nodes[p].children| {
            assert nodes[p].children[a] < n;
          } else {
            assert NoDup(nodes[p].children);
          }
        }
      } else if i < n {
        assert r[i] == nodes[i];
      }
    }
  }

  /** `addChildren(...locations)` on node `p`: `addChild` for each location, in order. */
  function WithChildren(nodes: seq<Node>, p: nat, locations: seq<Vec3>): (r: seq<Node>)
    requires p < |nodes|
    ensures |r| == |nodes| + |locations|
    decreases |locations|
  {
    if locations == [] then nodes
    else WithChildren(WithChild(nodes, p, locations[0]), p, locations[1..])
  }

  /**
   * `addChildren` preserves input order: the new nodes are the next indices in the arena, they
   * hold the given locations in order with parent `p`, they extend `p`'s children in that
   * order, no other node changes, and the arena stays a tree.
   */
  lemma {:induction false} WithChildrenShape(nodes: seq<Node>, p: nat, locations: seq<Vec3>)
    requires WellFormed(nodes) && p < |nodes|
    ensures var r := WithChildren(nodes, p, locations);
      && WellFormed(r)
      && r[p].children == nodes[p].children + Fresh(|nodes|, |locations|)
      && r[p].location == nodes[p].location && r[p].parent == nodes[p].parent
      && (forall i :: 0 <= i < |locations| ==> r[|nodes| + i] == Node(locations[i], Some(p), []))
      && (forall j :: 0 <= j < |nodes| && j != p ==> r[j] == nodes[j])
    decreases |locations|
  {
    if locations != [] {
      var once := WithChild(nodes, p, locations[0]);
      WithChildWellFormed(nodes, p, locations[0]);
      WithChildrenShape(once, p, locations[1..]);
      var r := WithChildren(nodes, p, locations);
      assert r == WithChildren(once, p, locations[1..]);
      assert r[p].children == nodes[p].children + Fresh(|nodes|, |locations|) by {
        assert r[p].children == nodes[p].children + [|nodes|] + Fresh(|nodes| + 1, |locations| - 1);
      }
      forall i | 0 <= i < |locations|
        ensures r[|nodes| + i] == Node(locations[i], Some(p), [])
      {
        if i > 0 {
          assert r[|once| + (i - 1)] == Node(locations[1..][i - 1], Some(p), []);
        }
      }
    }
  }
}
