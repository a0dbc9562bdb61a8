/**
 * The order in which `layerTraverse` visits the nodes: breadth first, layer by layer, each
 * layer in the order its nodes were pushed onto the queue. This module defines that order
 * level by level, independently of any queue, and proves that it visits every node of the
 * tree exactly once, in order of non-decreasing depth.
 */
module LevelOrder {
  import opened TreeModel

  /** The smallest index in `s`, or `bound` when `s` is empty or holds nothing smaller. */
  function MinOr(s: seq<nat>, bound: nat): (m: nat)
    ensures m <= bound
    decreases |s|
  {
    if s == [] then bound
    else
      var rest := MinOr(s[1..], bound);
      if s[0] <= rest then s[0] else rest
  }

  /** `MinOr` is at most every element, and is one of them when all lie below the bound. */
  lemma {:induction false} MinOrIsMin(s: seq<nat>, bound: nat)
    ensures forall i :: 0 <= i < |s| ==> MinOr(s, bound) <= s[i]
    ensures s != [] && AllBelow(s, bound) ==> MinOr(s, bound) in s
    decreases |s|
  {
    if s != [] {
      MinOrIsMin(s[1..], bound);
      forall i | 0 < i < |s| ensures MinOr(s[1..], bound) <= s[i] {
        assert s[i] == s[1..][i - 1];
      }
    }
  }

  /** The children of the nodes of `level`, in order: what the queue holds once `level` is processed. */
  function Expand(nodes: seq<Node>, level: seq<nat>): (next: seq<nat>)
    requires Ordered(nodes) && AllBelow(level, |nodes|)
    ensures AllBelow(next, |nodes|)
    decreases |level|
  {
    if level == [] then []
    else
      var here := nodes[level[0]].children;
      assert forall k :: 0 <= k < |here| ==> here[k] < |nodes|;
      here + Expand(nodes, level[1..])
  }

  /** Every queued child lies above the smallest node of its layer. */
  lemma {:induction false} ExpandAbove(nodes: seq<Node>, level: seq<nat>)
    requires Ordered(nodes) && AllBelow(level, |nodes|)
    ensures forall k :: 0 <= k < |Expand(nodes, level)| ==> MinOr(level, |nodes|) < Expand(nodes, level)[k]
    decreases |level|
  {
    if level != [] {
      var here := nodes[level[0]].children;
      ExpandAbove(nodes, level[1..]);
      MinOrIsMin(level, |nodes|);
      var next := Expand(nodes, level);
      assert next == here + Expand(nodes, level[1..]);
      forall k | 0 <= k < |next| ensures MinOr(level, |nodes|) < next[k] {
        if k < |here| {
          assert level[0] < here[k];
        } else {
          assert next[k] == Expand(nodes, level[1..])[k - |here|];
        }
      }
    }
  }

  /** A node is queued by expanding a layer exactly when it is a child of a node of that layer. */
  lemma {:induction false} ExpandMembers(nodes: seq<Node>, level: seq<nat>, x: nat)
    requires Ordered(nodes) && AllBelow(level, |nodes|)
    ensures x in Expand(nodes, level) <==> exists i :: 0 <= i < |level| && x in nodes[level[i]].children
    decreases |level|
  {
    if level != [] {
      ExpandMembers(nodes, level[1..], x);
      if x in Expand(nodes, level[1..]) {
        var i :| 0 <= i < |level[1..]| && x in nodes[level[1..][i]].children;
        assert level[1..][i] == level[i + 1];
      }
      if exists i :: 0 <= i < |level| && x in nodes[level[i]].children {
        var i :| 0 <= i < |level| && x in nodes[level[i]].children;
        if i > 0 {
          assert level[1..][i - 1] == level[i];
        }
      }
    }
  }

  /** The level order from a queue layer `level` on: the layer, then the order from its children on. */
  function LevelOrderFrom(nodes: seq<Node>, level: seq<nat>): (order: seq<nat>)
    requires Ordered(nodes) && AllBelow(level, |nodes|)
    ensures AllBelow(order, |nodes|)
    decreases |nodes| - MinOr(level, |nodes|)
  {
    if level == [] then []
    else
      var next := Expand(nodes, level);
      assert MinOr(level, |nodes|) < MinOr(next, |nodes|) by {
        MinOrIsMin(level, |nodes|);
        MinOrIsMin(next, |nodes|);
        ExpandAbove(nodes, level);
      }
      level + LevelOrderFrom(nodes, next)
  }

  /** The order `layerTraverse` visits the nodes in: the level order from the root. */
  function LevelOrder(nodes: seq<Node>): (order: seq<nat>)
    requires Ordered(nodes)
    ensures AllBelow(order, |nodes|)
  {
    LevelOrderFrom(nodes, [Root])
  }

  /** The level order is the root, then the order from the root's children down. */
  lemma LevelOrderRoot(nodes: seq<Node>)
    requires Ordered(nodes)
    ensures LevelOrder(nodes) == [Root] + LevelOrderFrom(nodes, Expand(nodes, [Root]))
  {
  }

  /**
   * What the traversal has still to visit when its queue is `rest + done`, where `rest` is what
   * is left of the current layer and `done` holds the children of the part of the layer
   * already visited: the rest of the layer, then the order from the following layer on.
   */
  function Pending(nodes: seq<Node>, rest: seq<nat>, done: seq<nat>): seq<nat>
    requires Ordered(nodes) && AllBelow(rest, |nodes|) && AllBelow(done, |nodes|)
  {
    rest + LevelOrderFrom(nodes, done + Expand(nodes, rest))
  }

  /** Visiting the head `x` of the layer and queuing its children leaves the same order to visit. */
  lemma PendingPop(nodes: seq<Node>, rest: seq<nat>, done: seq<nat>)
    requires Ordered(nodes) && AllBelow(rest, |nodes|) && AllBelow(done, |nodes|) && rest != []
    ensures AllBelow(done + nodes[rest[0]].children, |nodes|)
    ensures Pending(nodes, rest, done) == [rest[0]] + Pending(nodes, rest[1..], done + nodes[rest[0]].children)
  {
    var here := nodes[rest[0]].children;
    assert forall k :: 0 <= k < |here| ==> here[k] < |nodes|;
    var e := Expand(nodes, rest[1..]);
    assert Expand(nodes, rest) == here + e;
    assert done + (here + e) == (done + here) + e;
    assert rest == [rest[0]] + rest[1..];
  }

  /** Once the current layer is used up, the queued children are the next layer. */
  lemma PendingNextLayer(nodes: seq<Node>, done: seq<nat>)
    requires Ordered(nodes) && AllBelow(done, |nodes|)
    ensures Pending(nodes, [], done) == Pending(nodes, done, [])
  {
    assert done + Expand(nodes, []) == done;
    assert [] + Expand(nodes, done) == Expand(nodes, done);
  }

  /**
   * The state of `layerTraverse`: the queue is `rest + done`, where `rest` is what is left of
   * the current layer and `done` the children queued from the part of it already visited, and
   * what has been visited followed by what is pending is the level order.
   */
  ghost predicate Traversing(nodes: seq<Node>, queue: seq<nat>, visited: seq<nat>, rest: seq<nat>, done: seq<nat>, goal: seq<nat>)
  {
    && Ordered(nodes) && AllBelow(rest, |nodes|) && AllBelow(done, |nodes|)
    && queue == rest + done
    && visited + Pending(nodes, rest, done) == goal
  }

  /**
   * One turn of the traversal: when the current layer is used up the queued children become
   * the layer; its head is visited and its children are queued. The visited prefix grows, so
   * the traversal ends.
   */
  lemma Visit(nodes: seq<Node>, queue: seq<nat>, visited: seq<nat>, rest: seq<nat>, done: seq<nat>, goal: seq<nat>)
    returns (rest': seq<nat>, done': seq<nat>)
    requires Traversing(nodes, queue, visited, rest, done, goal) && queue != []
    ensures queue[0] < |nodes|
    ensures Traversing(nodes, queue[1..] + nodes[queue[0]].children, visited + [queue[0]], rest', done', goal)
    ensures |visited| < |goal|
  {
    if rest == [] {
      PendingNextLayer(nodes, done);
      assert queue == done + [];
      rest', done' := VisitLayer(nodes, queue, visited, done, [], goal);
    } else {
      rest', done' := VisitLayer(nodes, queue, visited, rest, done, goal);
    }
  }

  /** A turn of the traversal that visits the head of a non-empty current layer. */
  lemma VisitLayer(nodes: seq<Node>, queue: seq<nat>, visited: seq<nat>, rest: seq<nat>, done: seq<nat>, goal: seq<nat>)
    returns (rest': seq<nat>, done': seq<nat>)
    requires Traversing(nodes, queue, visited, rest, done, goal) && rest != []
    ensures queue[0] < |nodes|
    ensures Traversing(nodes, queue[1..] + nodes[queue[0]].children, visited + [queue[0]], rest', done', goal)
    ensures |visited| < |goal|
  {
    var x := rest[0];
    assert x == queue[0];
    PendingPop(nodes, rest, done);
    rest', done' := rest[1..], done + nodes[x].children;
    ConcatTail(rest, done, nodes[x].children);
    ConcatAssoc(visited, [x], Pending(nodes, rest', done'));
  }

  /** Dropping the head of a queue `a + b` and appending `c`. */
  lemma ConcatTail(a: seq<nat>, b: seq<nat>, c: seq<nat>)
    requires a != []
    ensures (a + b)[1..] + c == a[1..] + (b + c)
  {
    assert (a + b)[1..] == a[1..] + b;
  }

  /** The traversal starts with the root alone in its queue. */
  lemma PendingStart(nodes: seq<Node>)
    requires Ordered(nodes)
    ensures Pending(nodes, [Root], []) == LevelOrder(nodes)
  {
    assert [] + Expand(nodes, [Root]) == Expand(nodes, [Root]);
  }

  /** With the queue empty nothing is left to visit. */
  lemma PendingEnd(nodes: seq<Node>)
    requires Ordered(nodes)
    ensures Pending(nodes, [], []) == []
  {
  }

  /** The number of edges from the root to node `j`. */
  ghost function Depth(nodes: seq<Node>, j: nat): nat
    requires WellFormed(nodes) && j < |nodes|
    decreases j
  {
    if j == Root then 0 else 1 + Depth(nodes, Parent(nodes, j))
  }

  /** `level` lists every node of depth `d` exactly once, and nothing else. */
  ghost predicate IsLevel(nodes: seq<Node>, level: seq<nat>, d: nat)
    requires WellFormed(nodes)
  {
    && AllBelow(level, |nodes|)
    && NoDup(level)
    && (forall x :: x in level ==> Depth(nodes, x) == d)
    && (forall x :: 0 <= x < |nodes| && Depth(nodes, x) == d ==> x in level)
  }

  /** A child is one level deeper than its parent. */
  lemma ChildDepth(nodes: seq<Node>, p: nat, k: nat)
    requires WellFormed(nodes) && p < |nodes| && k < |nodes[p].children|
    ensures nodes[p].children[k] < |nodes| && Depth(nodes, nodes[p].children[k]) == Depth(nodes, p) + 1
  {
    ChildAfterParent(nodes, p, k);
    assert Parent(nodes, nodes[p].children[k]) == p;
  }

  /** The children of distinct nodes are distinct, so expanding a duplicate-free layer keeps it duplicate free. */
  lemma {:induction false} ExpandNoDup(nodes: seq<Node>, level: seq<nat>)
    requires WellFormed(nodes) && AllBelow(level, |nodes|) && NoDup(level)
    ensures NoDup(Expand(nodes, level))
    decreases |level|
  {
    if level != [] {
      var here := nodes[level[0]].children;
      var rest := Expand(nodes, level[1..]);
      NoDupTail(level);
      ExpandNoDup(nodes, level[1..]);
      forall a, b | 0 <= a < |here| && 0 <= b < |rest| ensures here[a] != rest[b] {
        ExpandMembers(nodes, level[1..], rest[b]);
        var i :| 0 <= i < |level[1..]| && rest[b] in nodes[level[1..][i]].children;
        var k :| 0 <= k < |nodes[level[1..][i]].children| && nodes[level[1..][i]].children[k] == rest[b];
        ChildAfterParent(nodes, level[0], a);
        ChildAfterParent(nodes, level[1..][i], k);
        assert level[1..][i] == level[i + 1];
      }
      NoDupConcat(here, rest);
    }
  }

  /** The children of a whole level `d` are the whole level `d + 1`. */
  lemma ExpandLevel(nodes: seq<Node>, level: seq<nat>, d: nat)
    requires WellFormed(nodes) && IsLevel(nodes, level, d)
    ensures IsLevel(nodes, Expand(nodes, level), d + 1)
  {
    var next := Expand(nodes, level);
    ExpandNoDup(nodes, level);
    forall x | x in next ensures Depth(nodes, x) == d + 1 {
      ExpandMembers(nodes, level, x);
      var i :| 0 <= i < |level| && x in nodes[level[i]].children;
      var k :| 0 <= k < |nodes[level[i]].children| && nodes[level[i]].children[k] == x;
      ChildDepth(nodes, level[i], k);
    }
    forall x | 0 <= x < |nodes| && Depth(nodes, x) == d + 1 ensures x in next {
      var p := Parent(nodes, x);
      assert p in level;
      var i :| 0 <= i < |level| && level[i] == p;
      ExpandMembers(nodes, level, x);
    }
  }

  /** Below any node of depth at least `d` there is an ancestor of depth exactly `d`. */
  lemma {:induction false} AncestorAtDepth(nodes: seq<Node>, x: nat, d: nat) returns (y: nat)
    requires WellFormed(nodes) && x < |nodes| && d <= Depth(nodes, x)
    ensures y < |nodes| && Depth(nodes, y) == d
    decreases x
  {
    if Depth(nodes, x) == d {
      y := x;
    } else {
      y := AncestorAtDepth(nodes, Parent(nodes, x), d);
    }
  }

  /**
   * From a whole level `d` on, the level order lists every node of depth at least `d` exactly
   * once and nothing else, in order of non-decreasing depth.
   */
  lemma {:induction false} LevelOrderFromLevels(nodes: seq<Node>, level: seq<nat>, d: nat)
    requires WellFormed(nodes) && IsLevel(nodes, level, d)
    ensures var order := LevelOrderFrom(nodes, level);
      && NoDup(order)
      && (forall x :: x in order ==> d <= Depth(nodes, x))
      && (forall x :: 0 <= x < |nodes| && d <= Depth(nodes, x) ==> x in order)
      && (forall i, k :: 0 <= i < k < |order| ==> Depth(nodes, order[i]) <= Depth(nodes, order[k]))
    decreases |nodes| - MinOr(level, |nodes|)
  {
    var order := LevelOrderFrom(nodes, level);
    if level == [] {
      forall x | 0 <= x < |nodes| && d <= Depth(nodes, x) ensures false {
        var y := AncestorAtDepth(nodes, x, d);
        assert false;
      }
    } else {
      var next := Expand(nodes, level);
      MinOrIsMin(level, |nodes|);
      MinOrIsMin(next, |nodes|);
      ExpandAbove(nodes, level);
      ExpandLevel(nodes, level, d);
      LevelOrderFromLevels(nodes, next, d + 1);
      var tail := LevelOrderFrom(nodes, next);
      assert order == level + tail;
      forall i, k | 0 <= i < |level| && 0 <= k < |tail| ensures level[i] != tail[k] {
        assert tail[k] in tail;
        assert level[i] in level;
      }
      NoDupConcat(level, tail);
      forall i, k | 0 <= i < k < |order| ensures Depth(nodes, order[i]) <= Depth(nodes, order[k]) {
        if k < |level| {
          assert order[i] == level[i] && order[k] == level[k];
          assert level[i] in level && level[k] in level;
        } else if i < |level| {
          assert order[i] == level[i] && order[k] == tail[k - |level|];
          assert level[i] in level && tail[k - |level|] in tail;
        } else {
          assert order[i] == tail[i - |level|] && order[k] == tail[k - |level|];
        }
      }
    }
  }

  /** The root alone is the whole of level 0. */
  lemma RootLevel(nodes: seq<Node>)
    requires WellFormed(nodes)
    ensures IsLevel(nodes, [Root], 0)
  {
    forall x | 0 <= x < |nodes| && Depth(nodes, x) == 0 ensures x in [Root] {
    }
  }

  /**
   * `layerTraverse` visits every node of the tree exactly once, and never a node before a
   * shallower one: it visits the nodes in order of their depth.
   */
  lemma LevelOrderVisitsAll(nodes: seq<Node>)
    requires WellFormed(nodes)
    ensures var order := LevelOrder(nodes);
      && NoDup(order)
      && |order| == |nodes|
      && (forall x :: x in order <==> 0 <= x < |nodes|)
      && (forall i, k :: 0 <= i < k < |order| ==> Depth(nodes, order[i]) <= Depth(nodes, order[k]))
  {
    RootLevel(nodes);
    LevelOrderFromLevels(nodes, [Root], 0);
    var order := LevelOrder(nodes);
    NoDupLength(order, |nodes|);
  }

  /** A duplicate-free sequence holding exactly the indices below `n` has length `n`. */
  lemma NoDupLength(s: seq<nat>, n: nat)
    requires NoDup(s) && forall x :: x in s <==> 0 <= x < n
    ensures |s| == n
  {
    assert Below(n) == Elements(s);
    ElementsOfNoDup(s);
  }

  /** The indices below `n`, as a set. */
  function Below(n: nat): (r: set<nat>)
    ensures forall x: nat :: x in r <==> x < n
    ensures |r| == n
  {
    if n == 0 then {} else
      var r := Below(n - 1);
      assert n - 1 !in r;
      r + {n - 1}
  }

  ghost function Elements(s: seq<nat>): set<nat> {
    set x | x in s
  }

  lemma {:induction false} ElementsOfNoDup(s: seq<nat>)
    requires NoDup(s)
    ensures |Elements(s)| == |s|
    decreases |s|
  {
    if s != [] {
      NoDupTail(s);
      ElementsOfNoDup(s[1..]);
      var t := Elements(s[1..]);
      assert Elements(s) == t + {s[0]};
      assert s[0] !in t by {
        forall a | 0 <= a < |s[1..]| ensures s[1..][a] != s[0] {
          assert s[1..][a] == s[a + 1];
        }
      }
    }
  }
}
