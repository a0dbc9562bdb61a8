/**
 * The three closures both mesh builders hand to `depthTraverse`: `startPath` replaces the
 * working path by a new one holding the location, `addToPath` appends to the working path,
 * and `endPath` appends to it and pushes it onto `paths`.
 *
 * `endPath` pushes the working array itself, not a copy, so until the next `startPath` every
 * entry pushed since the last `startPath` is that same array and changes with it. The model
 * keeps this: `openedAt` is the number of paths when the working path was started, and the
 * paths from there on are all the working path.
 */
module Paths {
  import opened Wrappers
  import opened TreeModel
  import opened DepthOrder

  /** The closures' shared state: the finished paths, the working path, and where it was started. */
  datatype Builder<T> = Builder(paths: seq<seq<T>>, working: Option<seq<T>>, openedAt: nat)

  /** The paths with every entry from `k` on replaced by `w`: what aliasing the working array gives. */
  function Alias<T>(paths: seq<seq<T>>, k: nat, w: seq<T>): (r: seq<seq<T>>)
    requires k <= |paths|
    ensures |r| == |paths| && r[..k] == paths[..k]
    ensures forall i :: k <= i < |r| ==> r[i] == w
  {
    paths[..k] + seq(|paths| - k, _ => w)
  }

  ghost predicate Ready<T>(b: Builder<T>, e: PathEvent<T>) {
    b.openedAt <= |b.paths| && (e.Start? || b.working.Some?)
  }

  /** One callback. Appending to a working path that was never started is excluded. */
  function Feed<T>(b: Builder<T>, e: PathEvent<T>): (r: Builder<T>)
    requires Ready(b, e)
    ensures r.working.Some? && r.openedAt <= |r.paths|
  {
    match e
    case Start(x) => Builder(b.paths, Some([x]), |b.paths|)
    case Step(x) =>
      var w := b.working.value + [x];
      Builder(Alias(b.paths, b.openedAt, w), Some(w), b.openedAt)
    case End(x) =>
      var w := b.working.value + [x];
      Builder(Alias(b.paths, b.openedAt, w) + [w], Some(w), b.openedAt)
  }

  /** The callbacks for a whole stream of events, in order. */
  function FeedAll<T>(b: Builder<T>, s: seq<PathEvent<T>>): (r: Builder<T>)
    requires b.openedAt <= |b.paths| && (s != [] ==> Ready(b, s[0]))
    ensures r.openedAt <= |r.paths|
    decreases |s|
  {
    if s == [] then b else FeedAll(Feed(b, s[0]), s[1..])
  }

  /** The closures' state before the traversal: no paths and no working path. */
  function Empty<T>(): Builder<T> {
    Builder([], None, 0)
  }

  /** The paths a stream of events leaves behind. */
  function Collect<T>(s: seq<PathEvent<T>>): seq<seq<T>>
    requires s != [] ==> s[0].Start?
  {
    FeedAll(Empty(), s).paths
  }

  lemma {:induction false} FeedAllAppend<T>(b: Builder<T>, s: seq<PathEvent<T>>, t: seq<PathEvent<T>>)
    requires b.openedAt <= |b.paths| && (s != [] ==> Ready(b, s[0]))
    requires t != [] ==> Ready(FeedAll(b, s), t[0])
    ensures (s + t != [] ==> Ready(b, (s + t)[0]))
    ensures FeedAll(b, s + t) == FeedAll(FeedAll(b, s), t)
    decreases |s|
  {
    if s == [] {
      assert s + t == t;
    } else {
      assert (s + t)[0] == s[0] && (s + t)[1..] == s[1..] + t;
      FeedAllAppend(Feed(b, s[0]), s[1..], t);
    }
  }

  // ---------------------------------------------------------------------------------------
  // The inverse: writing paths back as events

  /** The steps of the inner part of a path. */
  function Steps<T>(inner: seq<T>): (r: seq<PathEvent<T>>)
    ensures |r| == |inner| && forall i :: 0 <= i < |r| ==> r[i] == Step(inner[i])
  {
    seq(|inner|, i requires 0 <= i < |inner| => Step(inner[i]))
  }

  /** A path of at least two locations: started at the first, stepped through, ended at the last. */
  function EncodePath<T>(p: seq<T>): (r: seq<PathEvent<T>>)
    requires |p| >= 2
  {
    [Start(p[0])] + Steps(p[1..|p| - 1]) + [End(p[|p| - 1])]
  }

  ghost predicate AllPaths<T>(ps: seq<seq<T>>) {
    forall i :: 0 <= i < |ps| ==> |ps[i]| >= 2
  }

  /** The events that report the paths `ps`, one after the other. */
  function Encode<T>(ps: seq<seq<T>>): (r: seq<PathEvent<T>>)
    requires AllPaths(ps)
    ensures ps != [] ==> r != [] && r[0].Start?
    decreases |ps|
  {
    if ps == [] then [] else EncodePath(ps[0]) + Encode(ps[1..])
  }

  /** Steps into a freshly started path extend the working path and leave the finished paths alone. */
  lemma {:induction false} FeedSteps<T>(b: Builder<T>, inner: seq<T>)
    requires b.working.Some? && b.openedAt == |b.paths|
    ensures FeedAll(b, Steps(inner)) == Builder(b.paths, Some(b.working.value + inner), b.openedAt)
    decreases |inner|
  {
    if inner == [] {
      assert b.working.value + inner == b.working.value;
    } else {
      var w := b.working.value + [inner[0]];
      assert b.paths[..b.openedAt] == b.paths;
      assert Feed(b, Step(inner[0])) == Builder(b.paths, Some(w), b.openedAt);
      assert Steps(inner)[1..] == Steps(inner[1..]);
      FeedSteps(Feed(b, Step(inner[0])), inner[1..]);
      assert w + inner[1..] == b.working.value + inner;
    }
  }

  lemma FeedOne<T>(b: Builder<T>, e: PathEvent<T>)
    requires Ready(b, e)
    ensures FeedAll(b, [e]) == Feed(b, e)
  {
    assert [e][1..] == [];
  }

  /** Ending a freshly started path pushes it. */
  lemma FeedEnd<T>(b: Builder<T>, x: T)
    requires b.working.Some? && b.openedAt == |b.paths|
    ensures FeedAll(b, [End(x)]) == Builder(b.paths + [b.working.value + [x]], Some(b.working.value + [x]), b.openedAt)
  {
    FeedOne(b, End(x));
    assert b.paths[..b.openedAt] == b.paths;
  }

  /** The events of one path, from any state, push exactly that path. */
  lemma FeedPath<T>(b: Builder<T>, p: seq<T>)
    requires b.openedAt <= |b.paths| && |p| >= 2
    ensures FeedAll(b, EncodePath(p)) == Builder(b.paths + [p], Some(p), |b.paths|)
  {
    var first, inner, last := [Start(p[0])], p[1..|p| - 1], [End(p[|p| - 1])];
    var steps := Steps(inner);
    var started := Builder(b.paths, Some([p[0]]), |b.paths|);
    FeedOne(b, Start(p[0]));
    FeedSteps(started, inner);
    FeedAllAppend(b, first, steps);
    var stepped := FeedAll(b, first + steps);
    assert stepped == Builder(b.paths, Some([p[0]] + inner), |b.paths|);
    FeedEnd(stepped, p[|p| - 1]);
    FeedAllAppend(b, first + steps, last);
    assert [p[0]] + inner + [p[|p| - 1]] == p;
  }

  /** Reporting paths one after the other pushes exactly those paths, whatever came before. */
  lemma {:induction false} FeedEncode<T>(b: Builder<T>, ps: seq<seq<T>>)
    requires b.openedAt <= |b.paths| && AllPaths(ps)
    ensures FeedAll(b, Encode(ps)).paths == b.paths + ps
    decreases |ps|
  {
    if ps == [] {
      assert b.paths + ps == b.paths;
    } else {
      FeedPath(b, ps[0]);
      var b' := FeedAll(b, EncodePath(ps[0]));
      FeedEncode(b', ps[1..]);
      FeedAllAppend(b, EncodePath(ps[0]), Encode(ps[1..]));
      assert b.paths + [ps[0]] + ps[1..] == b.paths + ps;
    }
  }

  /** Collecting the events of any list of paths gives back those paths. */
  lemma CollectEncode<T>(ps: seq<seq<T>>)
    requires AllPaths(ps)
    ensures Collect(Encode(ps)) == ps
  {
    FeedEncode(Empty(), ps);
  }

  // ---------------------------------------------------------------------------------------
  // Event streams that are a list of paths

  /**
   * The shape the closures rely on: the first event starts a path, and a path starts exactly
   * after the previous one ended (so a step or end always has a started path to extend).
   */
  ghost predicate Alternating<T>(s: seq<PathEvent<T>>) {
    && (s != [] ==> s[0].Start?)
    && (forall i :: 0 <= i < |s| - 1 ==> (s[i + 1].Start? <==> s[i].End?))
  }

  /** An alternating stream whose last path is ended. */
  ghost predicate Complete<T>(s: seq<PathEvent<T>>) {
    Alternating(s) && (s != [] ==> s[|s| - 1].End?)
  }

  /** The first end at or after `k`. */
  ghost function FirstEnd<T>(s: seq<PathEvent<T>>, k: nat): (j: nat)
    requires k < |s| && s[|s| - 1].End?
    ensures k <= j < |s| && s[j].End? && forall i :: k <= i < j ==> !s[i].End?
    decreases |s| - k
  {
    if s[k].End? then k else FirstEnd(s, k + 1)
  }

  /** A complete stream is the events of some list of paths. */
  lemma {:induction false} Decompose<T>(s: seq<PathEvent<T>>) returns (ps: seq<seq<T>>)
    requires Complete(s)
    ensures AllPaths(ps) && Encode(ps) == s
    decreases |s|
  {
    if s == [] {
      ps := [];
    } else {
      var j := FirstEnd(s, 0);
      assert j > 0;
      var path := seq(j + 1, i requires 0 <= i <= j => s[i].node);
      forall i | 1 <= i < j ensures s[i] == Step(path[i]) {
        assert !s[i - 1].End?;
      }
      var head := EncodePath(path);
      assert head == s[..j + 1] by {
        forall i | 0 <= i < j + 1 ensures head[i] == s[i] {
          if 0 < i < j {
            assert head[i] == Steps(path[1..j])[i - 1];
          }
        }
      }
      var rest := s[j + 1..];
      assert Complete(rest) by {
        forall i | 0 <= i < |rest| - 1 ensures rest[i + 1].Start? <==> rest[i].End? {
          assert rest[i] == s[j + 1 + i] && rest[i + 1] == s[j + 2 + i];
        }
        if rest != [] {
          assert rest[0] == s[j + 1];
        }
      }
      var ps' := Decompose(rest);
      ps := [path] + ps';
      assert ps[1..] == ps';
      assert s == s[..j + 1] + rest;
    }
  }

  /**
   * For a complete stream the closures collect exactly the paths the stream reports: writing
   * the collected paths back as events gives the stream again, and each has two locations at
   * least. With `CollectEncode` this makes `Collect` and `Encode` inverse to each other.
   */
  lemma EncodeCollect<T>(s: seq<PathEvent<T>>)
    requires Complete(s)
    ensures AllPaths(Collect(s)) && Encode(Collect(s)) == s
  {
    var ps := Decompose(s);
    CollectEncode(ps);
  }

  /** The locations of the end events, in order. */
  function Ends<T>(s: seq<PathEvent<T>>): seq<T>
    decreases |s|
  {
    if s == [] then [] else (if s[0].End? then [s[0].node] else []) + Ends(s[1..])
  }

  lemma {:induction false} EndsAppend<T>(a: seq<PathEvent<T>>, b: seq<PathEvent<T>>)
    ensures Ends(a + b) == Ends(a) + Ends(b)
    decreases |a|
  {
    if a == [] {
      assert a + b == b;
    } else {
      assert (a + b)[0] == a[0] && (a + b)[1..] == a[1..] + b;
      EndsAppend(a[1..], b);
    }
  }

  lemma {:induction false} EndsOfSteps<T>(inner: seq<T>)
    ensures Ends(Steps(inner)) == []
    decreases |inner|
  {
    if inner != [] {
      assert Steps(inner)[1..] == Steps(inner[1..]);
      EndsOfSteps(inner[1..]);
    }
  }

  /** The last location of each path. */
  function Lasts<T>(ps: seq<seq<T>>): (r: seq<T>)
    requires AllPaths(ps)
    ensures |r| == |ps| && forall i :: 0 <= i < |ps| ==> r[i] == ps[i][|ps[i]| - 1]
  {
    seq(|ps|, i requires 0 <= i < |ps| && |ps[i]| >= 2 => ps[i][|ps[i]| - 1])
  }

  /** Each reported path ends at its own end event: the ends of `Encode(ps)` are the paths' last locations. */
  lemma {:induction false} EndsOfEncode<T>(ps: seq<seq<T>>)
    requires AllPaths(ps)
    ensures Ends(Encode(ps)) == Lasts(ps)
    decreases |ps|
  {
    if ps != [] {
      var p := ps[0];
      EndsAppend(EncodePath(p), Encode(ps[1..]));
      EndsAppend([Start(p[0])] + Steps(p[1..|p| - 1]), [End(p[|p| - 1])]);
      EndsAppend([Start(p[0])], Steps(p[1..|p| - 1]));
      EndsOfSteps(p[1..|p| - 1]);
      assert Ends([End(p[|p| - 1])]) == [p[|p| - 1]];
      EndsOfEncode(ps[1..]);
    }
  }

  /** For a complete stream there is one path per end event, and it finishes at that end. */
  lemma CollectEnds<T>(s: seq<PathEvent<T>>)
    requires Complete(s)
    ensures AllPaths(Collect(s)) && Lasts(Collect(s)) == Ends(s)
  {
    EncodeCollect(s);
    EndsOfEncode(Collect(s));
  }

  // ---------------------------------------------------------------------------------------
  // The closures, as an object over locations

  /** `paths` and `workingPath` of a mesh builder; `openedAt` records which paths alias the working one. */
  class PathAccumulator {
    var paths: seq<seq<Vec3>>
    var workingPath: Option<seq<Vec3>>
    var openedAt: nat

    function State(): Builder<Vec3>
      reads this
    {
      Builder(paths, workingPath, openedAt)
    }

    ghost predicate Valid()
      reads this
    {
      openedAt <= |paths|
    }

    /** `const paths = []` and a `workingPath` that is not set yet. */
    constructor ()
      ensures Valid() && State() == Empty()
    {
      paths := [];
      workingPath := None;
      openedAt := 0;
    }

    /** `startPath`: a new working array holding the location; nothing pushed aliases it. */
    method StartPath(location: Vec3)
      requires Valid()
      modifies this
      ensures Valid() && State() == Feed(old(State()), Start(location))
      ensures paths == old(paths) && workingPath == Some([location]) && openedAt == |paths|
    {
      workingPath := Some([location]);
      openedAt := |paths|;
    }

    /** `addToPath`: push onto the working array, which every path pushed since it started shares. */
    method AddToPath(location: Vec3)
      requires Valid() && workingPath.Some?
      modifies this
      ensures Valid() && State() == Feed(old(State()), Step(location))
      ensures workingPath == Some(old(workingPath.value) + [location]) && openedAt == old(openedAt)
      ensures paths == Alias(old(paths), openedAt, workingPath.value)
    {
      var w := workingPath.value + [location];
      workingPath := Some(w);
      paths := Alias(paths, openedAt, w);
    }

    /** `endPath`: push onto the working array, then push the array itself onto `paths`. */
    method EndPath(location: Vec3)
      requires Valid() && workingPath.Some?
      modifies this
      ensures Valid() && State() == Feed(old(State()), End(location))
      ensures workingPath == Some(old(workingPath.value) + [location]) && openedAt == old(openedAt)
      ensures paths == Alias(old(paths), openedAt, workingPath.value) + [workingPath.value]
    {
      var w := workingPath.value + [location];
      workingPath := Some(w);
      paths := Alias(paths, openedAt, w) + [w];
    }
  }

  /**
   * The closures run over a stream of events, one callback per event in order, starting
   * from the builder's initial state: the paths they leave are `Collect(events)`.
   */
  method CollectPaths(events: seq<PathEvent<Vec3>>) returns (paths: seq<seq<Vec3>>)
    requires events != [] ==> events[0].Start?
    ensures paths == Collect(events)
  {
    var acc := new PathAccumulator();
    var i := 0;
    while i < |events|
      invariant 0 <= i <= |events|
      invariant acc.Valid() && (i > 0 ==> acc.workingPath.Some?)
      invariant FeedAll(acc.State(), events[i..]) == FeedAll(Empty(), events)
    {
      assert events[i..][1..] == events[i + 1..];
      match events[i] {
        case Start(x) => acc.StartPath(x);
        case Step(x) => acc.AddToPath(x);
        case End(x) => acc.EndPath(x);
      }
      i := i + 1;
    }
    paths := acc.paths;
  }
}
