/** The scene description the asset parser hands to the importer (aiScene).
    Only what the importer looks at is kept: per node the mesh indices, the
    children and the transformation; per mesh its name, whether it has vertex
    positions, and its material index. */
module Imported {
  import opened Transforms

  /** An aiMesh. The importer looks up scene material `materialIndex`
      (mMaterials[mMaterialIndex]) and passes that material, with the file's
      directory, to material creation; the model folds the lookup into material
      creation, which takes `materialIndex` itself, so the table is not modelled. */
  datatype AiMesh = AiMesh(name: string, hasPositions: bool, materialIndex: nat)

  /** An aiNode: `meshes` are indices into the scene's mesh table (mMeshes),
      `children` are the child nodes (mChildren) and `transformation` is
      mTransformation. */
  datatype AiNode = AiNode(meshes: seq<nat>, children: seq<AiNode>, transformation: Matrix)

  /** An aiScene: the mesh table (mMeshes, so mNumMeshes is its length) and the
      root node (mRootNode). */
  datatype AiScene = AiScene(meshes: seq<AiMesh>, root: AiNode)

  /** Every mesh index met in the subtree of `node` names an entry of `meshes`. */
  ghost predicate MeshRefsValid(meshes: seq<AiMesh>, node: AiNode)
    decreases node
  {
    (forall i :: 0 <= i < |node.meshes| ==> node.meshes[i] < |meshes|) &&
    (forall j :: 0 <= j < |node.children| ==> MeshRefsValid(meshes, node.children[j]))
  }

  /** What the parser guarantees of every scene it returns. */
  ghost predicate WellFormed(scene: AiScene)
  {
    MeshRefsValid(scene.meshes, scene.root)
  }
}
