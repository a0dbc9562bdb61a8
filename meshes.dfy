/**
 * `buildLichtenbergTreeMesh` of src/Meshes/LichtenbergTree.ts: collect the paths of
 * `depthTraverse` with the path closures and add one tube mesh per path to the group.
 */
module Meshes {
  import opened TreeModel
  import opened DepthOrder
  import opened Paths
  import opened TreePaths
  import opened Lichtenberg

  /** The tube meshes the group receives, in the order they are added. */
  method BuildLichtenbergTreeMesh(tree: LichtenbergTree) returns (group: seq<Tube>)
    requires tree.Valid()
    ensures TubesOf(tree.arena.nodes, group)
    ensures group == [] <==> tree.arena.nodes[Root].children == []
  {
    var events := tree.DepthTraverse();
    DepthEventsBelow(tree.arena.nodes);
    var paths := CollectPaths(Locate(tree.arena.nodes, events));
    group := [];
    for i := 0 to |paths|
      invariant |group| == i && forall k :: 0 <= k < i ==> group[k] == TubeFor(paths[k])
    {
      group := group + [TubeFor(paths[i])];
    }
    TreePathsShape(tree.arena.nodes);
  }
}
