/** Scene nodes and mesh nodes (iris::SceneNode, iris::MeshNode), the render
    item a mesh node hands to the renderer, and the scene's two render lists.

    Dafny has no class inheritance here, so one class SceneNode stands for both:
    its constant `nodeType` says whether the object is a plain scene node or a
    mesh node, and the members that only MeshNode has require a mesh node. The
    tree below a node is described by the value Shape(), a Tree, which is what
    the importer's specification speaks about. */
module SceneGraph {
  import opened Wrappers
  import opened Transforms

  /** The geometry a mesh node refers to: a Mesh built in memory from mesh
      `sourceIndex` of an imported scene, or one loaded by Mesh::loadMesh. */
  datatype MeshRef = ImportedMesh(sourceIndex: nat) | LoadedMesh(path: string)

  /** A material: the one DefaultMaterial::create() makes, or one built by
      material creation (identified by an opaque id). */
  datatype MaterialRef = DefaultMaterial | CreatedMaterial(id: nat)

  /** What kind of node an object is; a mesh node carries its creation index. */
  datatype NodeType = PlainNode | MeshNode(index: nat)

  /** The fields of a mesh node, together with the two fields of its render item. */
  datatype MeshState = MeshState(
    mesh: Option<MeshRef>,
    material: Option<MaterialRef>,
    meshPath: string,
    meshIndex: int,
    itemMesh: Option<MeshRef>,
    itemMaterial: Option<MaterialRef>)

  /** The value of a scene-graph subtree. */
  datatype Tree =
    | PlainTree(name: string, local: Trs, children: seq<Tree>)
    | MeshTree(index: nat, name: string, local: Trs, state: MeshState, children: seq<Tree>)

  /** The name a node has until the importer gives it one. */
  const DefaultName: string := ""

  /** The mesh state of a freshly constructed mesh node: no mesh, no material,
      no path, mesh index 0, and an empty render item. */
  const EmptyMeshState: MeshState := MeshState(None, None, "", 0, None, None)

  /** The renderer's record for one mesh node (RenderItem). */
  class RenderItem {
    var mesh: Option<MeshRef>
    var material: Option<MaterialRef>

    constructor ()
      ensures mesh == None && material == None
    {
      mesh := None;
      material := None;
    }
  }

  /** The part of iris::Scene the mesh node writes to. */
  class Scene {
    var geometryRenderList: seq<RenderItem>
    var shadowRenderList: seq<RenderItem>

    constructor ()
      ensures geometryRenderList == [] && shadowRenderList == []
    {
      geometryRenderList := [];
      shadowRenderList := [];
    }
  }

  /** The class-wide counter MeshNode::index from which every mesh node takes
      its creation index. */
  class IndexCounter {
    var next: nat

    constructor ()
      ensures next == 0
    {
      next := 0;
    }
  }

  class SceneNode {
    const nodeType: NodeType
    var name: string
    var pos: Vec3
    var rot: Quat
    var scale: Vec3
    var children: seq<SceneNode>
    /** The scene this node belongs to; set when the node is added to a scene. */
    var scene: Scene?

    // The fields of a mesh node.
    var mesh: Option<MeshRef>
    var material: Option<MaterialRef>
    var meshPath: string
    var meshIndex: int
    /** The render item, allocated by the mesh-node constructor and never replaced;
        null for a plain node. */
    const renderItem: RenderItem?

    /** The objects of this subtree, and the values of its children's subtrees. */
    ghost var Repr: set<object>
    ghost var KidShapes: seq<Tree>

    /** This object is a mesh node. */
    predicate IsMeshNode()
    {
      nodeType.MeshNode? && renderItem != null
    }

    /** The subtree below this node is a well-formed tree whose child values are
        recorded in KidShapes. */
    ghost predicate Valid()
      reads this, Repr
      decreases Repr, 0
    {
      this in Repr &&
      (nodeType.MeshNode? <==> renderItem != null) &&
      (renderItem != null ==> renderItem in Repr) &&
      |KidShapes| == |children| &&
      forall i :: 0 <= i < |children| ==>
        children[i] in Repr && children[i].Repr <= Repr && this !in children[i].Repr &&
        (renderItem != null ==> renderItem !in children[i].Repr) &&
        children[i].Valid() && KidShapes[i] == children[i].Shape()
    }

    /** The value of the subtree below this node. */
    ghost function Shape(): (t: Tree)
      reads this, Repr
      requires Valid()
      ensures t.children == KidShapes
      ensures t.name == name && t.local == Trs(pos, rot, scale)
      ensures t.MeshTree? <==> nodeType.MeshNode?
      decreases Repr, 1
    {
      match nodeType
      case PlainNode => PlainTree(name, Trs(pos, rot, scale), KidShapes)
      case MeshNode(index) =>
        MeshTree(index, name, Trs(pos, rot, scale),
                 MeshState(mesh, material, meshPath, meshIndex, renderItem.mesh, renderItem.material),
                 KidShapes)
    }

    /** `new SceneNode()`: a plain node without children. */
    constructor CreatePlain()
      ensures Valid() && fresh(Repr)
      ensures Shape() == PlainTree(DefaultName, IdentityTrs, [])
      ensures children == [] && scene == null
    {
      nodeType := PlainNode;
      renderItem := null;
      name := DefaultName;
      pos, rot, scale := IdentityTrs.pos, IdentityTrs.rot, IdentityTrs.scale;
      children := [];
      scene := null;
      mesh, material, meshPath, meshIndex := None, None, "", 0;
      Repr := {this};
      KidShapes := [];
    }

    /** MeshNode::create(): a mesh node without children whose creation index is
        the counter's value, after which the counter has moved on by one. */
    constructor CreateMesh(counter: IndexCounter)
      modifies counter
      ensures Valid() && fresh(Repr) && IsMeshNode()
      ensures nodeType == MeshNode(old(counter.next)) && counter.next == old(counter.next) + 1
      ensures Shape() == MeshTree(old(counter.next), DefaultName, IdentityTrs, EmptyMeshState, [])
      ensures children == [] && scene == null
    {
      nodeType := MeshNode(counter.next);
      var item := new RenderItem();
      renderItem := item;
      name := DefaultName;
      pos, rot, scale := IdentityTrs.pos, IdentityTrs.rot, IdentityTrs.scale;
      children := [];
      scene := null;
      mesh, material, meshPath, meshIndex := None, None, "", 0;
      Repr := {this, item};
      KidShapes := [];
      new;
      counter.next := counter.next + 1;
    }

    /** setMesh(QString): `loaded` is what Mesh::loadMesh(source) returned. The
        node's mesh and its render item's mesh both become it, meshPath becomes
        `source` and meshIndex 0. */
    method SetMeshFromFile(source: string, loaded: Option<MeshRef>)
      requires IsMeshNode()
      modifies this`mesh, this`meshPath, this`meshIndex, renderItem`mesh
      ensures mesh == loaded && renderItem.mesh == loaded
      ensures meshPath == source && meshIndex == 0
    {
      mesh := loaded;
      meshPath := source;
      meshIndex := 0;
      renderItem.mesh := mesh;
    }

    /** setMesh(Mesh*): only the node's own mesh changes; the render item,
        meshPath and meshIndex are left as they were (the frame says so). */
    method SetMesh(m: Option<MeshRef>)
      requires IsMeshNode()
      modifies this`mesh
      ensures mesh == m
    {
      mesh := m;
    }

    /** setMaterial: the node's material and its render item's material both
        become `m`. */
    method SetMaterial(m: Option<MaterialRef>)
      requires IsMeshNode()
      modifies this`material, renderItem`material
      ensures material == m && renderItem.material == m
    {
      material := m;
      renderItem.material := m;
    }

    /** submitRenderItems: the render item is appended to both render lists of
        the node's scene. */
    method SubmitRenderItems()
      requires IsMeshNode() && scene != null
      modifies scene
      ensures scene.geometryRenderList == old(scene.geometryRenderList) + [renderItem]
      ensures scene.shadowRenderList == old(scene.shadowRenderList) + [renderItem]
    {
      scene.geometryRenderList := scene.geometryRenderList + [renderItem];
      scene.shadowRenderList := scene.shadowRenderList + [renderItem];
    }

    /** setLocalPos */
    method SetLocalPos(v: Vec3)
      modifies this`pos
      ensures pos == v
    {
      pos := v;
    }

    /** setLocalRot */
    method SetLocalRot(q: Quat)
      modifies this`rot
      ensures rot == q
    {
      rot := q;
    }

    /** setLocalScale */
    method SetLocalScale(v: Vec3)
      modifies this`scale
      ensures scale == v
    {
      scale := v;
    }

    /** addChild, as far as the tree is concerned: `c` becomes the last child. */
    method AddChild(c: SceneNode)
      requires Valid() && c.Valid() && Repr !! c.Repr
      modifies this`children, this`Repr, this`KidShapes
      ensures Valid() && Repr == old(Repr) + c.Repr
      ensures children == old(children) + [c]
      ensures Shape() == old(Shape()).(children := old(Shape().children) + [old(c.Shape())])
    {
      children := children + [c];
      Repr := Repr + c.Repr;
      KidShapes := KidShapes + [c.Shape()];
    }
  }

  /** Two mesh nodes constructed one after the other get distinct, increasing
      creation indices. */
  method CreationIndicesIncrease(counter: IndexCounter) returns (a: SceneNode, b: SceneNode)
    modifies counter
    ensures a.nodeType.MeshNode? && b.nodeType.MeshNode?
    ensures a.nodeType.index == old(counter.next) && b.nodeType.index == a.nodeType.index + 1
    ensures counter.next == old(counter.next) + 2
  {
    a := new SceneNode.CreateMesh(counter);
    b := new SceneNode.CreateMesh(counter);
  }

  /** Submitting twice puts the same render item at the end of each list twice. */
  method SubmitTwiceAppendsTwice(node: SceneNode)
    requires node.IsMeshNode() && node.scene != null
    modifies node.scene
    ensures node.scene.geometryRenderList == old(node.scene.geometryRenderList) + [node.renderItem, node.renderItem]
    ensures node.scene.shadowRenderList == old(node.scene.shadowRenderList) + [node.renderItem, node.renderItem]
  {
    node.SubmitRenderItems();
    node.SubmitRenderItems();
  }
}
