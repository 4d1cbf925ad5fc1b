/** Building a scene fragment from an imported scene: _buildScene and
    MeshNode::loadAsSceneFragment.

    BuildNode and BuildChildren say, as values, what tree _buildScene produces
    for an imported node and how far it moves the creation counter; BuildScene
    is the recursive construction on the heap and is proved to produce exactly
    that tree. Mirrors characterises the result independently, node by node, and
    the lemmas connect the two and give the creation indices. */
module MeshImport {
  import opened Wrappers
  import opened Transforms
  import opened Imported
  import opened SceneGraph

  /** The calls the importer makes into code outside this model:
      `createMaterial(materialIndex, filePath)` is MaterialHelper::createMaterial
      on scene material `materialIndex`, with the directory of `filePath`
      (None when it fails); `math` decomposes node transformations. */
  datatype Collaborators = Collaborators(
    createMaterial: (nat, string) -> Option<MaterialRef>,
    math: MatrixMath)

  // ---------------------------------------------------------------------
  // The tree _buildScene builds, as a value
  // ---------------------------------------------------------------------

  /** The material an imported mesh ends up with under _buildScene: the created
      one, or the default material when creation fails. */
  function ResolvedMaterial(env: Collaborators, mesh: AiMesh, filePath: string): MaterialRef
  {
    match env.createMaterial(mesh.materialIndex, filePath)
    case Some(m) => m
    case None => DefaultMaterial
  }

  /** The node _buildScene makes for a source node with exactly one mesh, given
      its creation index and the trees of its children. */
  function SingleMeshTree(meshes: seq<AiMesh>, node: AiNode, filePath: string, env: Collaborators,
                          index: nat, kids: seq<Tree>): Tree
    requires |node.meshes| == 1 && node.meshes[0] < |meshes|
  {
    var mesh := meshes[node.meshes[0]];
    var local := env.math.decompose(node.transformation);
    if mesh.hasPositions then
      var m := Some(ResolvedMaterial(env, mesh, filePath));
      MeshTree(index, mesh.name, local,
               MeshState(Some(ImportedMesh(node.meshes[0])), m, filePath, node.meshes[0], None, m),
               kids)
    else
      MeshTree(index, DefaultName, local, EmptyMeshState, kids)
  }

  /** The child mesh node _buildScene adds to a container for mesh `meshIndex`. */
  function MeshLeaf(meshes: seq<AiMesh>, meshIndex: nat, filePath: string, env: Collaborators,
                    index: nat): Tree
    requires meshIndex < |meshes|
  {
    var mesh := meshes[meshIndex];
    var m := Some(ResolvedMaterial(env, mesh, filePath));
    MeshTree(index, mesh.name, IdentityTrs,
             MeshState(Some(ImportedMesh(meshIndex)), m, filePath, meshIndex, None, m),
             [])
  }

  /** The mesh children of a container, the i-th with creation index next + i. */
  function MeshLeaves(meshes: seq<AiMesh>, node: AiNode, filePath: string, env: Collaborators,
                      next: nat): (ts: seq<Tree>)
    requires forall i :: 0 <= i < |node.meshes| ==> node.meshes[i] < |meshes|
  {
    seq(|node.meshes|, i requires 0 <= i < |node.meshes| =>
      MeshLeaf(meshes, node.meshes[i], filePath, env, next + i))
  }

  /** The tree _buildScene returns for `node` when the counter stands at `next`,
      and the counter's value afterwards. */
  function BuildNode(meshes: seq<AiMesh>, node: AiNode, filePath: string, env: Collaborators,
                     next: nat): (Tree, nat)
    requires MeshRefsValid(meshes, node)
    decreases node, |node.children| + 1
  {
    if |node.meshes| == 1 then
      var kids := BuildChildren(meshes, node, 0, filePath, env, next + 1);
      (SingleMeshTree(meshes, node, filePath, env, next, kids.0), kids.1)
    else
      var k := |node.meshes|;
      var kids := BuildChildren(meshes, node, 0, filePath, env, next + k);
      (PlainTree(DefaultName, env.math.decompose(node.transformation),
                 MeshLeaves(meshes, node, filePath, env, next) + kids.0),
       kids.1)
  }

  /** The trees _buildScene returns for children k.. of `parent`, built in order
      from counter value `next`, and the counter's value afterwards. */
  function BuildChildren(meshes: seq<AiMesh>, parent: AiNode, k: nat, filePath: string,
                         env: Collaborators, next: nat): (seq<Tree>, nat)
    requires MeshRefsValid(meshes, parent) && k <= |parent.children|
    decreases parent, |parent.children| - k
  {
    if k == |parent.children| then ([], next)
    else
      var first := BuildNode(meshes, parent.children[k], filePath, env, next);
      var rest := BuildChildren(meshes, parent, k + 1, filePath, env, first.1);
      ([first.0] + rest.0, rest.1)
  }

  // ---------------------------------------------------------------------
  // What every built tree looks like
  // ---------------------------------------------------------------------

  /** A mesh node that refers to imported mesh `meshIndex` of `filePath` and has
      a material: the created one if creation succeeds, the default otherwise.
      Its render item carries that material but no mesh, because setMesh(Mesh*)
      does not touch the render item. */
  ghost predicate ImportedMeshState(s: MeshState, meshIndex: nat, mesh: AiMesh, filePath: string,
                                    env: Collaborators)
  {
    s.mesh == Some(ImportedMesh(meshIndex)) &&
    s.meshPath == filePath && s.meshIndex == meshIndex &&
    s.material.Some? &&
    (env.createMaterial(mesh.materialIndex, filePath).Some? ==>
       s.material == env.createMaterial(mesh.materialIndex, filePath)) &&
    (env.createMaterial(mesh.materialIndex, filePath).None? ==> s.material == Some(DefaultMaterial)) &&
    s.itemMesh == None && s.itemMaterial == s.material
  }

  /** `t` has the shape _buildScene gives `node`: a node with exactly one mesh
      becomes a mesh node; any other node becomes a plain container holding
      first one mesh leaf per source mesh, in order. Either way the node has the
      decomposed source transformation and ends with trees mirroring the source
      children. */
  ghost predicate Mirrors(meshes: seq<AiMesh>, node: AiNode, filePath: string, env: Collaborators,
                          t: Tree)
    requires MeshRefsValid(meshes, node)
    decreases node, 1
  {
    var k := if |node.meshes| == 1 then 0 else |node.meshes|;
    t.local == env.math.decompose(node.transformation) &&
    k <= |t.children| &&
    OwnPartMirrors(meshes, node, filePath, env, t) &&
    ChildrenMirror(meshes, node, filePath, env, t.children[k..])
  }

  /** The part of Mirrors about the node itself and its mesh leaves. */
  ghost predicate OwnPartMirrors(meshes: seq<AiMesh>, node: AiNode, filePath: string,
                                 env: Collaborators, t: Tree)
    requires MeshRefsValid(meshes, node)
  {
    if |node.meshes| == 1 then
      t.MeshTree? &&
      var mesh := meshes[node.meshes[0]];
      (mesh.hasPositions ==>
         t.name == mesh.name && ImportedMeshState(t.state, node.meshes[0], mesh, filePath, env)) &&
      (!mesh.hasPositions ==> t.state == EmptyMeshState)
    else
      t.PlainTree? && |node.meshes| <= |t.children| &&
      forall i :: 0 <= i < |node.meshes| ==> LeafMirrors(meshes, node.meshes[i], filePath, env, t.children[i])
  }

  /** `leaf` is the childless, untransformed mesh node a container gets for
      imported mesh `meshIndex`. */
  ghost predicate LeafMirrors(meshes: seq<AiMesh>, meshIndex: nat, filePath: string,
                              env: Collaborators, leaf: Tree)
    requires meshIndex < |meshes|
  {
    leaf.MeshTree? && leaf.children == [] && leaf.local == IdentityTrs &&
    leaf.name == meshes[meshIndex].name &&
    ImportedMeshState(leaf.state, meshIndex, meshes[meshIndex], filePath, env)
  }

  /** `ts` holds one tree per child of `parent`, each mirroring its child. */
  ghost predicate ChildrenMirror(meshes: seq<AiMesh>, parent: AiNode, filePath: string,
                                 env: Collaborators, ts: seq<Tree>)
    requires MeshRefsValid(meshes, parent)
    decreases parent, 0
  {
    |ts| == |parent.children| &&
    forall j :: 0 <= j < |ts| ==> Mirrors(meshes, parent.children[j], filePath, env, ts[j])
  }

  /** The number of mesh nodes _buildScene creates for the subtree of `node`. */
  function MeshNodeCount(node: AiNode): nat
    decreases node, 1
  {
    (if |node.meshes| == 1 then 1 else |node.meshes|) + ChildrenMeshNodeCount(node, 0)
  }

  function ChildrenMeshNodeCount(parent: AiNode, k: nat): nat
    requires k <= |parent.children|
    decreases parent, 0, |parent.children| - k
  {
    if k == |parent.children| then 0
    else MeshNodeCount(parent.children[k]) + ChildrenMeshNodeCount(parent, k + 1)
  }

  /** The creation indices of the mesh nodes of a tree, in pre-order. */
  function Indices(t: Tree): seq<nat>
    decreases t, 1
  {
    (if t.MeshTree? then [t.index] else []) + IndicesOf(t.children)
  }

  function IndicesOf(ts: seq<Tree>): seq<nat>
    decreases ts, 0
  {
    if ts == [] then [] else Indices(ts[0]) + IndicesOf(ts[1..])
  }

  /** The counter values lo, lo + 1, ..., hi - 1. */
  function Range(lo: nat, hi: nat): (r: seq<nat>)
    requires lo <= hi
    ensures |r| == hi - lo && forall i :: 0 <= i < |r| ==> r[i] == lo + i
  {
    seq(hi - lo, i requires 0 <= i < hi - lo => lo + i)
  }

  // ---------------------------------------------------------------------
  // Lemmas
  // ---------------------------------------------------------------------

  /** BuildChildren returns one tree per remaining source child, the j-th
      mirroring child k + j, and consumes exactly the children's mesh-node count. */
  lemma {:induction false} BuildChildrenMirror(meshes: seq<AiMesh>, parent: AiNode, k: nat,
                                               filePath: string, env: Collaborators, next: nat)
    requires MeshRefsValid(meshes, parent) && k <= |parent.children|
    ensures var r := BuildChildren(meshes, parent, k, filePath, env, next);
      |r.0| == |parent.children| - k &&
      r.1 == next + ChildrenMeshNodeCount(parent, k) &&
      forall j :: 0 <= j < |r.0| ==> Mirrors(meshes, parent.children[k + j], filePath, env, r.0[j])
    decreases parent, |parent.children| - k
  {
    if k < |parent.children| {
      var first := BuildNode(meshes, parent.children[k], filePath, env, next);
      BuildNodeMirrors(meshes, parent.children[k], filePath, env, next);
      BuildChildrenMirror(meshes, parent, k + 1, filePath, env, first.1);
    }
  }

  /** A mesh leaf is the mesh node LeafMirrors describes. */
  lemma MeshLeafMirrors(meshes: seq<AiMesh>, meshIndex: nat, filePath: string, env: Collaborators,
                        index: nat)
    requires meshIndex < |meshes|
    ensures LeafMirrors(meshes, meshIndex, filePath, env, MeshLeaf(meshes, meshIndex, filePath, env, index))
  {
  }

  /** The leaves of a container, followed by any trees, make up the own part of
      the container. */
  lemma ContainerOwnPart(meshes: seq<AiMesh>, node: AiNode, filePath: string,
                         env: Collaborators, next: nat, kids: seq<Tree>)
    requires MeshRefsValid(meshes, node) && |node.meshes| != 1
    ensures OwnPartMirrors(meshes, node, filePath, env,
                           PlainTree(DefaultName, env.math.decompose(node.transformation),
                                     MeshLeaves(meshes, node, filePath, env, next) + kids))
  {
    var leaves := MeshLeaves(meshes, node, filePath, env, next);
    forall i | 0 <= i < |node.meshes|
      ensures LeafMirrors(meshes, node.meshes[i], filePath, env, (leaves + kids)[i])
    {
      assert (leaves + kids)[i] == MeshLeaf(meshes, node.meshes[i], filePath, env, next + i);
      MeshLeafMirrors(meshes, node.meshes[i], filePath, env, next + i);
    }
  }

  /** What _buildScene returns for `node` has the shape Mirrors describes, and
      the counter advances by the number of mesh nodes of that shape. */
  lemma {:induction false} BuildNodeMirrors(meshes: seq<AiMesh>, node: AiNode, filePath: string,
                                            env: Collaborators, next: nat)
    requires MeshRefsValid(meshes, node)
    ensures Mirrors(meshes, node, filePath, env, BuildNode(meshes, node, filePath, env, next).0)
    ensures BuildNode(meshes, node, filePath, env, next).1 == next + MeshNodeCount(node)
    decreases node, |node.children| + 1
  {
    var k := if |node.meshes| == 1 then 0 else |node.meshes|;
    var start := next + (if |node.meshes| == 1 then 1 else k);
    BuildChildrenMirror(meshes, node, 0, filePath, env, start);
    var kids := BuildChildren(meshes, node, 0, filePath, env, start);
    assert ChildrenMirror(meshes, node, filePath, env, kids.0);
    var t := BuildNode(meshes, node, filePath, env, next).0;
    if |node.meshes| == 1 {
      assert t == SingleMeshTree(meshes, node, filePath, env, next, kids.0);
      assert t.children[0..] == kids.0;
    } else {
      var leaves := MeshLeaves(meshes, node, filePath, env, next);
      assert t == PlainTree(DefaultName, env.math.decompose(node.transformation), leaves + kids.0);
      ContainerOwnPart(meshes, node, filePath, env, next, kids.0);
      assert t.children[k..] == kids.0;
    }
  }

  lemma {:induction false} IndicesOfAppend(xs: seq<Tree>, ys: seq<Tree>)
    ensures IndicesOf(xs + ys) == IndicesOf(xs) + IndicesOf(ys)
    decreases xs
  {
    if xs != [] {
      assert (xs + ys)[0] == xs[0] && (xs + ys)[1..] == xs[1..] + ys;
      IndicesOfAppend(xs[1..], ys);
      assert IndicesOf(xs + ys) == Indices(xs[0]) + (IndicesOf(xs[1..]) + IndicesOf(ys));
      assert IndicesOf(xs) == Indices(xs[0]) + IndicesOf(xs[1..]);
    } else {
      assert xs + ys == ys;
    }
  }

  lemma RangeAppend(lo: nat, mid: nat, hi: nat)
    requires lo <= mid <= hi
    ensures Range(lo, mid) + Range(mid, hi) == Range(lo, hi)
  {
  }

  /** A mesh leaf contributes exactly its own creation index. */
  lemma MeshLeafIndices(meshes: seq<AiMesh>, meshIndex: nat, filePath: string, env: Collaborators,
                        index: nat)
    requires meshIndex < |meshes|
    ensures Indices(MeshLeaf(meshes, meshIndex, filePath, env, index)) == [index]
  {
    var leaf := MeshLeaf(meshes, meshIndex, filePath, env, index);
    assert leaf.children == [] && leaf.MeshTree? && leaf.index == index;
    assert IndicesOf(leaf.children) == [];
  }

  /** The mesh children of a container carry the creation indices next, next + 1, .... */
  lemma {:induction false} MeshLeavesIndices(meshes: seq<AiMesh>, node: AiNode, filePath: string,
                                             env: Collaborators, next: nat, n: nat)
    requires forall i :: 0 <= i < |node.meshes| ==> node.meshes[i] < |meshes|
    requires n <= |node.meshes|
    ensures IndicesOf(MeshLeaves(meshes, node, filePath, env, next)[..n]) == Range(next, next + n)
  {
    var ls := MeshLeaves(meshes, node, filePath, env, next);
    if n == 0 {
      assert ls[..n] == [];
    } else {
      MeshLeavesIndices(meshes, node, filePath, env, next, n - 1);
      var last := ls[n - 1];
      assert last == MeshLeaf(meshes, node.meshes[n - 1], filePath, env, next + (n - 1));
      MeshLeafIndices(meshes, node.meshes[n - 1], filePath, env, next + (n - 1));
      assert ls[..n] == ls[..n - 1] + [last];
      IndicesOfAppend(ls[..n - 1], [last]);
      assert [last][1..] == [];
      assert IndicesOf([last]) == Indices(last) + IndicesOf([]);
      RangeAppend(next, next + (n - 1), next + n);
    }
  }

  lemma {:induction false} BuildChildrenIndices(meshes: seq<AiMesh>, parent: AiNode, k: nat,
                                                filePath: string, env: Collaborators, next: nat)
    requires MeshRefsValid(meshes, parent) && k <= |parent.children|
    ensures var r := BuildChildren(meshes, parent, k, filePath, env, next);
      next <= r.1 && IndicesOf(r.0) == Range(next, r.1)
    decreases parent, |parent.children| - k
  {
    if k < |parent.children| {
      var first := BuildNode(meshes, parent.children[k], filePath, env, next);
      BuildNodeIndices(meshes, parent.children[k], filePath, env, next);
      var rest := BuildChildren(meshes, parent, k + 1, filePath, env, first.1);
      BuildChildrenIndices(meshes, parent, k + 1, filePath, env, first.1);
      IndicesOfAppend([first.0], rest.0);
      assert IndicesOf([first.0]) == Indices(first.0);
      RangeAppend(next, first.1, rest.1);
    }
  }

  /** A one-mesh node contributes its own index, then its children's. */
  lemma SingleMeshIndices(meshes: seq<AiMesh>, node: AiNode, filePath: string, env: Collaborators,
                          index: nat, kids: seq<Tree>)
    requires |node.meshes| == 1 && node.meshes[0] < |meshes|
    ensures Indices(SingleMeshTree(meshes, node, filePath, env, index, kids)) == [index] + IndicesOf(kids)
  {
    var t := SingleMeshTree(meshes, node, filePath, env, index, kids);
    assert t.MeshTree? && t.index == index && t.children == kids;
  }

  /** A container contributes its leaves' indices next, next + 1, ..., then
      those of the trees after them. */
  lemma ContainerIndices(meshes: seq<AiMesh>, node: AiNode, filePath: string, env: Collaborators,
                         next: nat, kids: seq<Tree>)
    requires forall i :: 0 <= i < |node.meshes| ==> node.meshes[i] < |meshes|
    ensures Indices(PlainTree(DefaultName, env.math.decompose(node.transformation),
                              MeshLeaves(meshes, node, filePath, env, next) + kids)) ==
            Range(next, next + |node.meshes|) + IndicesOf(kids)
  {
    var leaves := MeshLeaves(meshes, node, filePath, env, next);
    MeshLeavesIndices(meshes, node, filePath, env, next, |node.meshes|);
    assert leaves[..|node.meshes|] == leaves;
    IndicesOfAppend(leaves, kids);
  }

  /** The mesh nodes _buildScene creates for `node` carry, in pre-order, exactly
      the creation indices next, next + 1, ... up to the counter's final value;
      in particular no two of them share an index. */
  lemma {:induction false} BuildNodeIndices(meshes: seq<AiMesh>, node: AiNode, filePath: string,
                                            env: Collaborators, next: nat)
    requires MeshRefsValid(meshes, node)
    ensures var r := BuildNode(meshes, node, filePath, env, next);
      next <= r.1 && Indices(r.0) == Range(next, r.1)
    decreases node, |node.children| + 1
  {
    var r := BuildNode(meshes, node, filePath, env, next);
    var k := if |node.meshes| == 1 then 1 else |node.meshes|;
    var kids := BuildChildren(meshes, node, 0, filePath, env, next + k);
    BuildChildrenIndices(meshes, node, 0, filePath, env, next + k);
    if |node.meshes| == 1 {
      assert r == (SingleMeshTree(meshes, node, filePath, env, next, kids.0), kids.1);
      SingleMeshIndices(meshes, node, filePath, env, next, kids.0);
    } else {
      assert r == (PlainTree(DefaultName, env.math.decompose(node.transformation),
                             MeshLeaves(meshes, node, filePath, env, next) + kids.0), kids.1);
      ContainerIndices(meshes, node, filePath, env, next, kids.0);
    }
    RangeAppend(next, next + k, r.1);
  }

  /** Creation indices in a built tree are pairwise distinct. */
  lemma BuildNodeIndicesDistinct(meshes: seq<AiMesh>, node: AiNode, filePath: string,
                                 env: Collaborators, next: nat)
    requires MeshRefsValid(meshes, node)
    ensures var ix := Indices(BuildNode(meshes, node, filePath, env, next).0);
      forall i, j :: 0 <= i < j < |ix| ==> ix[i] < ix[j]
  {
    BuildNodeIndices(meshes, node, filePath, env, next);
  }

  // ---------------------------------------------------------------------
  // The construction on the heap
  // ---------------------------------------------------------------------

  /** Sets up a freshly created mesh node for imported mesh `meshIndex`: its
      geometry (setMesh with a Mesh built from the aiMesh), name, path, mesh
      index and material, with the default material when creation fails. */
  method ConfigureImportedMesh(n: SceneNode, meshes: seq<AiMesh>, meshIndex: nat, filePath: string,
                               env: Collaborators)
    requires n.Valid() && n.IsMeshNode() && n.children == [] && n.renderItem.mesh == None
    requires meshIndex < |meshes|
    modifies n, n.renderItem
    ensures n.Valid() && n.Repr == old(n.Repr) && n.children == []
    ensures n.Shape() == MeshLeaf(meshes, meshIndex, filePath, env, n.nodeType.index).(local := old(n.Shape().local))
  {
    var mesh := meshes[meshIndex];
    n.name := mesh.name;
    n.meshPath := filePath;
    n.meshIndex := meshIndex;
    n.SetMesh(Some(ImportedMesh(meshIndex)));
    var meshMat := env.createMaterial(mesh.materialIndex, filePath);
    if meshMat.Some? {
      n.SetMaterial(meshMat);
    } else {
      n.SetMaterial(Some(DefaultMaterial));
    }
  }

  /** The first half of _buildScene for a source node with exactly one mesh:
      a mesh node, given the mesh's geometry, name, path, index and material
      when the mesh has vertex positions, and left empty otherwise. */
  method NewSingleMeshNode(meshes: seq<AiMesh>, node: AiNode, filePath: string, env: Collaborators,
                           counter: IndexCounter) returns (r: SceneNode)
    requires |node.meshes| == 1 && node.meshes[0] < |meshes|
    modifies counter
    ensures r.Valid() && fresh(r.Repr) && counter.next == old(counter.next) + 1
    ensures r.Shape() == SingleMeshTree(meshes, node, filePath, env, old(counter.next), []).(local := IdentityTrs)
  {
    r := new SceneNode.CreateMesh(counter);
    var mesh := meshes[node.meshes[0]];
    if mesh.hasPositions {
      ConfigureImportedMesh(r, meshes, node.meshes[0], filePath, env);
    }
  }

  /** One round of the container loop of _buildScene: a mesh node for imported
      mesh `meshIndex` is created, configured and added as the last child. */
  method AddMeshLeaf(r: SceneNode, meshes: seq<AiMesh>, meshIndex: nat, filePath: string,
                     env: Collaborators, counter: IndexCounter)
    requires r.Valid() && counter !in r.Repr && meshIndex < |meshes|
    requires r.nodeType.PlainNode?
    modifies counter, r`children, r`Repr, r`KidShapes
    ensures r.Valid() && fresh(r.Repr - old(r.Repr)) && counter !in r.Repr
    ensures counter.next == old(counter.next) + 1
    ensures r.Shape() == PlainTree(old(r.Shape()).name, old(r.Shape()).local,
      old(r.Shape()).children + [MeshLeaf(meshes, meshIndex, filePath, env, old(counter.next))])
  {
    var meshNode := new SceneNode.CreateMesh(counter);
    ConfigureImportedMesh(meshNode, meshes, meshIndex, filePath, env);
    r.AddChild(meshNode);
  }

  /** The first half of _buildScene for any other source node: a plain
      container with one mesh node per source mesh, in order. */
  method NewMeshContainer(meshes: seq<AiMesh>, node: AiNode, filePath: string, env: Collaborators,
                          counter: IndexCounter) returns (r: SceneNode)
    requires forall i :: 0 <= i < |node.meshes| ==> node.meshes[i] < |meshes|
    modifies counter
    ensures r.Valid() && fresh(r.Repr) && counter.next == old(counter.next) + |node.meshes|
    ensures r.Shape() == PlainTree(DefaultName, IdentityTrs, MeshLeaves(meshes, node, filePath, env, old(counter.next)))
  {
    ghost var start := counter.next;
    ghost var leaves := MeshLeaves(meshes, node, filePath, env, start);
    r := new SceneNode.CreatePlain();
    for i := 0 to |node.meshes|
      invariant r.Valid() && fresh(r.Repr) && counter !in r.Repr
      invariant counter.next == start + i
      invariant r.Shape() == PlainTree(DefaultName, IdentityTrs, leaves[..i])
    {
      AddMeshLeaf(r, meshes, node.meshes[i], filePath, env, counter);
      assert leaves[..i + 1] == leaves[..i] + [leaves[i]];
    }
    assert leaves[..|node.meshes|] == leaves;
  }

  /** The transform step of _buildScene: the node's position, scale and rotation
      become the decomposed source transformation. */
  method AssignTransform(r: SceneNode, local: Trs)
    requires r.Valid()
    modifies r`pos, r`scale, r`rot
    ensures r.Valid() && r.Shape() == old(r.Shape()).(local := local)
  {
    r.pos := local.pos;
    r.scale := local.scale;
    r.rot := local.rot;
  }

  /** _buildScene: builds on the heap exactly the tree BuildNode describes and
      moves the creation counter as BuildNode says. Nothing that existed before
      is changed except the counter. */
  method BuildScene(meshes: seq<AiMesh>, node: AiNode, filePath: string, env: Collaborators,
                    counter: IndexCounter) returns (r: SceneNode)
    requires MeshRefsValid(meshes, node)
    modifies counter
    ensures r.Valid() && fresh(r.Repr)
    ensures r.Shape() == BuildNode(meshes, node, filePath, env, old(counter.next)).0
    ensures counter.next == BuildNode(meshes, node, filePath, env, old(counter.next)).1
    decreases node, 2
  {
    ghost var start := counter.next;
    var local := env.math.decompose(node.transformation);
    if |node.meshes| == 1 {
      r := NewSingleMeshNode(meshes, node, filePath, env, counter);
      AssignTransform(r, local);
      ghost var own := r.Shape();
      assert own == SingleMeshTree(meshes, node, filePath, env, start, []);
      AddBuiltChildren(r, meshes, node, filePath, env, counter);
      ghost var kids := BuildChildren(meshes, node, 0, filePath, env, start + 1);
      assert r.Shape() == own.(children := kids.0);
      assert own.(children := kids.0) == SingleMeshTree(meshes, node, filePath, env, start, kids.0);
    } else {
      r := NewMeshContainer(meshes, node, filePath, env, counter);
      AssignTransform(r, local);
      ghost var leaves := MeshLeaves(meshes, node, filePath, env, start);
      AddBuiltChildren(r, meshes, node, filePath, env, counter);
      ghost var kids := BuildChildren(meshes, node, 0, filePath, env, start + |node.meshes|);
      assert r.Shape() == PlainTree(DefaultName, local, leaves + kids.0);
    }
  }

  /** One step of BuildChildren: the tree of child k, then the rest. */
  lemma BuildChildrenStep(meshes: seq<AiMesh>, parent: AiNode, k: nat, filePath: string,
                          env: Collaborators, next: nat, done: seq<Tree>)
    requires MeshRefsValid(meshes, parent) && k < |parent.children|
    ensures var first := BuildNode(meshes, parent.children[k], filePath, env, next);
      var rest := BuildChildren(meshes, parent, k + 1, filePath, env, first.1);
      var here := BuildChildren(meshes, parent, k, filePath, env, next);
      done + here.0 == (done + [first.0]) + rest.0 && here.1 == rest.1
  {
    var first := BuildNode(meshes, parent.children[k], filePath, env, next);
    var rest := BuildChildren(meshes, parent, k + 1, filePath, env, first.1);
    assert done + ([first.0] + rest.0) == (done + [first.0]) + rest.0;
  }

  /** One round of the final loop of _buildScene: the subtree for child `i` is
      built and added as the last child of `r`. */
  method AddBuiltChild(r: SceneNode, meshes: seq<AiMesh>, node: AiNode, i: nat, filePath: string,
                       env: Collaborators, counter: IndexCounter)
    requires MeshRefsValid(meshes, node) && i < |node.children|
    requires r.Valid() && counter !in r.Repr
    modifies counter, r`children, r`Repr, r`KidShapes
    ensures r.Valid() && fresh(r.Repr - old(r.Repr)) && counter !in r.Repr
    ensures var built := BuildNode(meshes, node.children[i], filePath, env, old(counter.next));
      r.Shape() == old(r.Shape()).(children := old(r.Shape()).children + [built.0]) &&
      counter.next == built.1
    decreases node, 0
  {
    var child := BuildScene(meshes, node.children[i], filePath, env, counter);
    r.AddChild(child);
  }

  /** The final loop of _buildScene: the subtree of every source child is built
      in order and added to `r`. */
  method AddBuiltChildren(r: SceneNode, meshes: seq<AiMesh>, node: AiNode, filePath: string,
                          env: Collaborators, counter: IndexCounter)
    requires MeshRefsValid(meshes, node)
    requires r.Valid() && counter !in r.Repr
    modifies counter, r`children, r`Repr, r`KidShapes
    ensures r.Valid() && fresh(r.Repr - old(r.Repr))
    ensures var kids := BuildChildren(meshes, node, 0, filePath, env, old(counter.next));
      r.Shape() == old(r.Shape()).(children := old(r.Shape()).children + kids.0) &&
      counter.next == kids.1
    decreases node, 1
  {
    ghost var header := r.Shape();
    ghost var total := BuildChildren(meshes, node, 0, filePath, env, counter.next);
    ghost var done: seq<Tree> := [];
    assert total.0 == done + total.0;
    for i := 0 to |node.children|
      invariant r.Valid() && fresh(r.Repr - old(r.Repr)) && counter !in r.Repr
      invariant r.KidShapes == header.children + done
      invariant var rest := BuildChildren(meshes, node, i, filePath, env, counter.next);
        total.0 == done + rest.0 && total.1 == rest.1
    {
      BuildChildrenStep(meshes, node, i, filePath, env, counter.next, done);
      ghost var built := BuildNode(meshes, node.children[i], filePath, env, counter.next);
      AddBuiltChild(r, meshes, node, i, filePath, env, counter);
      done := done + [built.0];
    }
  }

  // ---------------------------------------------------------------------
  // loadAsSceneFragment
  // ---------------------------------------------------------------------

  /** What loadAsSceneFragment returns, as a value (None for a null pointer),
      and the counter's value afterwards. `parsed` is what the asset parser
      returned for the file (None when parsing failed). */
  function FragmentTree(parsed: Option<AiScene>, filePath: string, env: Collaborators,
                        next: nat): Option<(Tree, nat)>
    requires parsed.Some? ==> WellFormed(parsed.value)
  {
    match parsed
    case None => None
    case Some(scene) =>
      if |scene.meshes| == 0 then None
      else if |scene.meshes| == 1 then
        var m := env.createMaterial(scene.meshes[0].materialIndex, filePath);
        Some((MeshTree(next, DefaultName, IdentityTrs,
                       MeshState(Some(ImportedMesh(0)), m, filePath, 0, None, m), []),
              next + 1))
      else
        Some(BuildNode(scene.meshes, scene.root, filePath, env, next))
  }

  /** loadAsSceneFragment: null when parsing failed or the scene has no mesh;
      for a single mesh, one mesh node made directly from it; otherwise the
      tree _buildScene builds from the root node. */
  method LoadAsSceneFragment(parsed: Option<AiScene>, filePath: string, env: Collaborators,
                             counter: IndexCounter) returns (r: SceneNode?)
    requires parsed.Some? ==> WellFormed(parsed.value)
    modifies counter
    ensures r == null <==> FragmentTree(parsed, filePath, env, old(counter.next)).None?
    ensures r == null ==> counter.next == old(counter.next)
    ensures r != null ==> r.Valid() && fresh(r.Repr)
    ensures r != null ==>
      (r.Shape(), counter.next) == FragmentTree(parsed, filePath, env, old(counter.next)).value
  {
    if parsed.None? {
      return null;
    }
    var scene := parsed.value;
    if |scene.meshes| == 0 {
      return null;
    }
    if |scene.meshes| == 1 {
      var mesh := scene.meshes[0];
      var n := new SceneNode.CreateMesh(counter);
      n.SetMesh(Some(ImportedMesh(0)));
      n.meshPath := filePath;
      n.meshIndex := 0;
      var meshMat := env.createMaterial(mesh.materialIndex, filePath);
      if meshMat.Some? {
        n.SetMaterial(meshMat);
      }
      return n;
    }
    r := BuildScene(scene.meshes, scene.root, filePath, env, counter);
  }

  /** loadAsSceneFragment returns null exactly when parsing failed or the
      parsed scene has no mesh. */
  lemma FragmentNullExactly(parsed: Option<AiScene>, filePath: string, env: Collaborators, next: nat)
    requires parsed.Some? ==> WellFormed(parsed.value)
    ensures FragmentTree(parsed, filePath, env, next).None? <==>
      (parsed.None? || |parsed.value.meshes| == 0)
  {
  }

  /** The one-mesh short cut: a childless mesh node for mesh 0 with the file's
      path, untransformed, whose material is the created one or none at all
      (there is no default fallback here). */
  lemma SingleMeshFragment(scene: AiScene, filePath: string, env: Collaborators, next: nat)
    requires WellFormed(scene) && |scene.meshes| == 1
    ensures var t := FragmentTree(Some(scene), filePath, env, next).value.0;
      t.MeshTree? && t.index == next && t.children == [] && t.local == IdentityTrs &&
      t.state.mesh == Some(ImportedMesh(0)) && t.state.meshPath == filePath && t.state.meshIndex == 0 &&
      t.state.material == env.createMaterial(scene.meshes[0].materialIndex, filePath) &&
      t.state.itemMaterial == t.state.material && t.state.itemMesh == None
  {
  }

  /** With more than one mesh, the fragment mirrors the scene's root node and
      its creation indices are next, next + 1, ... in pre-order. */
  lemma GeneralFragment(scene: AiScene, filePath: string, env: Collaborators, next: nat)
    requires WellFormed(scene) && |scene.meshes| > 1
    ensures var f := FragmentTree(Some(scene), filePath, env, next).value;
      Mirrors(scene.meshes, scene.root, filePath, env, f.0) &&
      f.1 == next + MeshNodeCount(scene.root) && Indices(f.0) == Range(next, f.1)
  {
    BuildNodeMirrors(scene.meshes, scene.root, filePath, env, next);
    BuildNodeIndices(scene.meshes, scene.root, filePath, env, next);
  }

  /** The short cut is not equivalent to the general path: when material
      creation fails it leaves the node without a material, where _buildScene
      would have given it the default material. */
  lemma ShortcutSkipsDefaultMaterial(filePath: string, math: MatrixMath)
    ensures var scene := AiScene([AiMesh("m", true, 0)], AiNode([0], [], Matrix([])));
      var env := Collaborators((i: nat, p: string) => None, math);
      FragmentTree(Some(scene), filePath, env, 0).value.0.state.material == None &&
      BuildNode(scene.meshes, scene.root, filePath, env, 0).0.state.material == Some(DefaultMaterial)
  {
  }

  /** Nor does the short cut keep the hierarchy: a single mesh held by a child of
      the root comes back as a lone mesh node, where _buildScene would have
      returned a container for the root holding a mesh node for the child. */
  lemma ShortcutDropsHierarchy(filePath: string, env: Collaborators)
    ensures var scene := AiScene([AiMesh("m", true, 0)], AiNode([], [AiNode([0], [], Matrix([]))], Matrix([])));
      var fragment := FragmentTree(Some(scene), filePath, env, 0).value.0;
      var general := BuildNode(scene.meshes, scene.root, filePath, env, 0).0;
      fragment.MeshTree? && fragment.children == [] &&
      general.PlainTree? && |general.children| == 1 && general.children[0].MeshTree?
  {
  }

  /** The mesh table of the example below: meshes A, B, C and D, where B and C
      share material 1. */
  function ExampleMeshes(): seq<AiMesh>
  {
    [AiMesh("A", true, 0), AiMesh("B", true, 1), AiMesh("C", true, 1), AiMesh("D", true, 2)]
  }

  /** The child holding mesh A alone becomes mesh node 0 with A's material. */
  lemma ExampleSingleMesh(filePath: string, env: Collaborators, m: Matrix, x: MaterialRef)
    requires env.createMaterial(0, filePath) == Some(x)
    ensures var a := BuildNode(ExampleMeshes(), AiNode([0], [], m), filePath, env, 0);
      a.1 == 1 && a.0.MeshTree? && a.0.index == 0 && a.0.name == "A" && a.0.children == [] &&
      a.0.state.mesh == Some(ImportedMesh(0)) && a.0.state.material == Some(x)
  {
    var node := AiNode([0], [], m);
    assert BuildChildren(ExampleMeshes(), node, 0, filePath, env, 1) == ([], 1);
  }

  /** The child holding meshes B, C and D becomes a container of mesh nodes 1, 2
      and 3, D falling back to the default material. */
  lemma ExampleContainer(filePath: string, env: Collaborators, m: Matrix, y: MaterialRef)
    requires env.createMaterial(1, filePath) == Some(y)
    requires env.createMaterial(2, filePath) == None
    ensures var b := BuildNode(ExampleMeshes(), AiNode([1, 2, 3], [], m), filePath, env, 1);
      b.1 == 4 && b.0.PlainTree? && |b.0.children| == 3 &&
      (forall i :: 0 <= i < 3 ==> b.0.children[i].MeshTree? && b.0.children[i].index == i + 1 &&
                                  b.0.children[i].state.meshIndex == i + 1) &&
      b.0.children[0].state.material == Some(y) &&
      b.0.children[1].state.material == Some(y) &&
      b.0.children[2].state.material == Some(DefaultMaterial)
  {
    var node := AiNode([1, 2, 3], [], m);
    assert BuildChildren(ExampleMeshes(), node, 0, filePath, env, 4) == ([], 4);
    var leaves := MeshLeaves(ExampleMeshes(), node, filePath, env, 1);
    assert BuildNode(ExampleMeshes(), node, filePath, env, 1).0.children == leaves + [];
    assert leaves + [] == leaves;
  }

  /** A root with two children, the first holding mesh A and the second meshes
      B, C and D, where material 2 cannot be created: the result is a container
      for the root holding a mesh node for A and a container with mesh nodes
      for B, C and D, in that order, D falling back to the default material. */
  lemma TwoChildrenExample(filePath: string, env: Collaborators, m: Matrix, x: MaterialRef, y: MaterialRef)
    requires env.createMaterial(0, filePath) == Some(x)
    requires env.createMaterial(1, filePath) == Some(y)
    requires env.createMaterial(2, filePath) == None
    ensures
      var root := AiNode([], [AiNode([0], [], m), AiNode([1, 2, 3], [], m)], m);
      var r := BuildNode(ExampleMeshes(), root, filePath, env, 0);
      r.1 == 4 && r.0.PlainTree? &&
      r.0.children == [BuildNode(ExampleMeshes(), AiNode([0], [], m), filePath, env, 0).0,
                       BuildNode(ExampleMeshes(), AiNode([1, 2, 3], [], m), filePath, env, 1).0]
  {
    var meshes := ExampleMeshes();
    var nodeA := AiNode([0], [], m);
    var nodeBcd := AiNode([1, 2, 3], [], m);
    var root := AiNode([], [nodeA, nodeBcd], m);
    assert MeshRefsValid(meshes, nodeA) && MeshRefsValid(meshes, nodeBcd);
    assert MeshRefsValid(meshes, root);
    ExampleSingleMesh(filePath, env, m, x);
    ExampleContainer(filePath, env, m, y);
    var a := BuildNode(meshes, nodeA, filePath, env, 0);
    var bcd := BuildNode(meshes, nodeBcd, filePath, env, 1);
    assert root.children[1] == nodeBcd && root.children[0] == nodeA;
    assert BuildChildren(meshes, root, 2, filePath, env, 4) == ([], 4);
    assert BuildChildren(meshes, root, 1, filePath, env, 1) == ([bcd.0] + [], 4);
    assert [bcd.0] + [] == [bcd.0];
    assert BuildChildren(meshes, root, 0, filePath, env, 0) == ([a.0] + [bcd.0], 4);
    assert MeshLeaves(meshes, root, filePath, env, 0) == [];
    assert [] + [a.0, bcd.0] == [a.0, bcd.0];
  }
}
