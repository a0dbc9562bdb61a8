/**
 * `buildLichtenbergTreeMesh` of src/GeometryMeshes/LichtenbergTree.ts: collect the paths of
 * `depthTraverse` with the path closures, build one tube geometry per path, and merge the
 * geometries into the tree mesh only when there is at least one.
 */
module GeometryMeshes {
  import opened Wrappers
  import opened TreeModel
  import opened DepthOrder
  import opened Paths
  import opened TreePaths
  import opened Lichtenberg

  /** The tube geometries, and the merged tree mesh, which is only built when there are geometries to merge. */
  datatype TreeMesh = TreeMesh(geometries: seq<Tube>, merged: Option<seq<Tube>>)

  method BuildLichtenbergTreeMesh(tree: LichtenbergTree) returns (mesh: TreeMesh)
    requires tree.Valid()
    ensures TubesOf(tree.arena.nodes, mesh.geometries)
    ensures mesh.merged.Some? <==> tree.arena.nodes[Root].children != []
    ensures mesh.merged.Some? ==> mesh.merged.value == mesh.geometries
  {
    var events := tree.DepthTraverse();
    DepthEventsBelow(tree.arena.nodes);
    var paths := CollectPaths(Locate(tree.arena.nodes, events));
    var geometries := [];
    for i := 0 to |paths|
      invariant |geometries| == i && forall k :: 0 <= k < i ==> geometries[k] == TubeFor(paths[k])
    {
      geometries := geometries + [TubeFor(paths[i])];
    }
    TreePathsShape(tree.arena.nodes);
    if |geometries| > 0 {
      mesh := TreeMesh(geometries, Some(geometries));
    } else {
      mesh := TreeMesh(geometries, None);
    }
  }
}
