# Scene import and undo/redo commands of the IrisGL editor, in Dafny

This project models three pieces of the editor:

- **Mesh nodes and scene-fragment import** (`meshnode.cpp`). An asset file that the
  asset parser has read (an `aiScene`) becomes a tree of scene nodes and mesh nodes.
  The mesh node keeps a render item in step with its mesh and material, hands that
  item to the scene's two render lists, and takes its creation index from a
  class-wide counter.
- **The transform command** (`TransformSceneNodeCommand`). It records the old and
  the new position, rotation and scale of a node. `undo`/`redo` write one side back
  and refresh the transform panel.
- **The material-property command** (`ChangeMaterialPropertyCommand`). It finds a
  property by name, taking the last match. `undo`/`redo` set the old or new value.
  A texture property is routed to `setTextureWithUniform`.

Files and modules:

| file | module | contents |
|---|---|---|
| `wrappers.dfy` | `Wrappers` | `Option` |
| `transforms.dfy` | `Transforms` | positions, quaternions, matrices; the matrix library as the collaborator `MatrixMath` |
| `imported.dfy` | `Imported` | the parsed scene: `AiMesh`, `AiNode`, `AiScene` and their index well-formedness |
| `scenegraph.dfy` | `SceneGraph` | `SceneNode` (scene and mesh nodes), `RenderItem`, `Scene`, `IndexCounter`, and `Tree`, the value of a subtree |
| `meshimport.dfy` | `MeshImport` | `_buildScene` and `loadAsSceneFragment`, as value-level specifications (`BuildNode`, `BuildChildren`, `FragmentTree`) and as heap methods proved against them, plus the lemmas |
| `transformcommand.dfy` | `TransformCommands` | the transform command and the transform panel's refresh |
| `materialcommand.dfy` | `MaterialCommands` | properties, the custom material, and the material-property command |

How it is built:

- **Nodes on the heap.** Every node carries a ghost footprint `Repr` and a recursive `Valid()`. The ghost function `Shape()` gives the node's subtree as a `Tree` value.
- **Import is proved against a value.** `MeshImport.BuildScene` is the recursive `_buildScene`. Its postcondition says the heap tree it builds is exactly `BuildNode(...)`, and that the creation counter ends where `BuildNode` says.
- **An independent description of the result.** The predicate `Mirrors` describes, node by node, what the result must look like. The lemmas prove that `BuildNode` satisfies `Mirrors`, and that the creation indices come out as a pre-order run of consecutive numbers.
- **Commands are classes with constant fields.** Their `undo`/`redo` name in their `modifies` frame exactly the fields they may change. Their postconditions state the new values.

## Model

| member | source | states |
|---|---|---|
| `SceneGraph.IndexCounter.constructor` | src/irisgl/src/scenegraph/meshnode.cpp:37 | the class-wide creation counter starts at 0 |
| `SceneGraph.RenderItem.constructor` | src/irisgl/src/scenegraph/meshnode.cpp:59-60 | a new render item refers to no mesh and no material |
| `SceneGraph.SceneNode.CreateMesh` | src/irisgl/src/scenegraph/meshnode.cpp:39-61 | a new mesh node has creation index equal to the counter's old value; the counter rises by exactly one; the node has no mesh, no material, no children and a fresh render item |
| `SceneGraph.SceneNode.CreatePlain` | src/irisgl/src/scenegraph/meshnode.cpp:140 | `new SceneNode()` is a childless plain node with the default name and transform |
| `SceneGraph.CreationIndicesIncrease` | src/irisgl/src/scenegraph/meshnode.cpp:37-39 | two mesh nodes made in turn get indices n and n + 1, so indices are distinct and increasing in creation order |
| `SceneGraph.SceneNode.SetMeshFromFile` | src/irisgl/src/scenegraph/meshnode.cpp:64-72 | afterwards mesh and render-item mesh both equal the loaded mesh, meshPath is the source path and meshIndex is 0; the frame allows nothing else to change |
| `SceneGraph.SceneNode.SetMesh` | src/irisgl/src/scenegraph/meshnode.cpp:75-78 | only the node's mesh changes; render item, meshPath and meshIndex are outside the frame and so unchanged |
| `SceneGraph.SceneNode.SetMaterial` | src/irisgl/src/scenegraph/meshnode.cpp:85-90 | material and render-item material both become the argument; nothing else changes |
| `SceneGraph.SceneNode.SubmitRenderItems` | src/irisgl/src/scenegraph/meshnode.cpp:92-96 | each of the two render lists grows by exactly one element, and that element is this node's render item |
| `SceneGraph.SubmitTwiceAppendsTwice` | src/irisgl/src/scenegraph/meshnode.cpp:92-96 | submitting twice appends the same render item twice to each list |
| `SceneGraph.SceneNode.AddChild` | src/irisgl/src/scenegraph/meshnode.cpp:180-184 | the child is appended last, the tree stays well formed, and the subtree value gains the child's value at the end |
| `MeshImport.ConfigureImportedMesh` | src/irisgl/src/scenegraph/meshnode.cpp:144-163 | a mesh node made for imported mesh i gets the name, the file path, mesh index i and a mesh built from that mesh. Its material is the created one, or the default material when creation fails. The render item gets the material but no mesh |
| `MeshImport.NewSingleMeshNode` | src/irisgl/src/scenegraph/meshnode.cpp:110-136 | for a node with one mesh, the result is a mesh node. It is configured as above when the mesh has positions, and otherwise has no mesh and no material |
| `MeshImport.AddMeshLeaf` | src/irisgl/src/scenegraph/meshnode.cpp:144-164 | one round of the container loop: the counter rises by one and the container gains, as its last child, the mesh leaf for that source mesh with the counter's old value as index |
| `MeshImport.NewMeshContainer` | src/irisgl/src/scenegraph/meshnode.cpp:137-166 | for any other mesh count, the result is a plain node whose children are one configured mesh node per source mesh, in source order. Their indices are those the counter hands out |
| `MeshImport.AssignTransform` | src/irisgl/src/scenegraph/meshnode.cpp:168-178 | the node's position, scale and rotation become the decomposed transformation; the rest of the subtree is unchanged |
| `MeshImport.AddBuiltChild` | src/irisgl/src/scenegraph/meshnode.cpp:182-183 | one round of the children loop: the subtree `BuildNode` gives for the child is appended as the last child, and the counter ends where `BuildNode` says |
| `MeshImport.AddBuiltChildren` | src/irisgl/src/scenegraph/meshnode.cpp:180-184 | the subtrees built for the source children are appended after the existing children, in order, threading the counter |
| `MeshImport.BuildScene` | src/irisgl/src/scenegraph/meshnode.cpp:105-187 | the heap tree built is a well-formed tree of fresh objects whose value is `BuildNode`, and the counter ends at `BuildNode`'s count; only the counter is modified among existing objects |
| `MeshImport.BuildNodeMirrors` | src/irisgl/src/scenegraph/meshnode.cpp:105-187 | for every node the built tree satisfies `Mirrors`. One mesh: a mesh node with meshIndex = mMeshes[0], meshPath = file, and a created-or-default material when the mesh has positions; otherwise no mesh. Any other count k: a plain node with k + mNumChildren children, the first k childless mesh nodes with meshIndex = mMeshes[i] and a created-or-default material. Either way the source children's subtrees follow in order, every node has the decomposed transform, and the counter advances by the mesh-node count |
| `MeshImport.BuildChildrenMirror` | src/irisgl/src/scenegraph/meshnode.cpp:180-184 | the children loop yields exactly one subtree per remaining source child, the j-th mirroring source child j, and consumes their mesh-node count |
| `MeshImport.MeshLeavesIndices` | src/irisgl/src/scenegraph/meshnode.cpp:142-164 | the mesh children of a container carry consecutive creation indices starting at the counter's value |
| `MeshImport.BuildChildrenIndices` | src/irisgl/src/scenegraph/meshnode.cpp:180-184 | the creation indices in the children's subtrees, in pre-order, are exactly the consecutive counter values consumed |
| `MeshImport.BuildNodeIndices` | src/irisgl/src/scenegraph/meshnode.cpp:105-187 | the creation indices of a built tree in pre-order are exactly next, next + 1, … up to the final counter value |
| `MeshImport.BuildNodeIndicesDistinct` | src/irisgl/src/scenegraph/meshnode.cpp:37-39 | the creation indices in a built tree are strictly increasing in pre-order, hence pairwise distinct |
| `MeshImport.ExampleSingleMesh` | src/irisgl/src/scenegraph/meshnode.cpp:110-136 | a child holding mesh A alone becomes mesh node 0, named A, with no children, mesh 0 and A's created material; the counter ends at 1 |
| `MeshImport.ExampleContainer` | src/irisgl/src/scenegraph/meshnode.cpp:137-166 | a child holding meshes B, C and D becomes a container whose three mesh nodes have indices 1 to 3 and mesh indices 1 to 3 in source order. B and C get the created material; D, whose material cannot be created, gets the default material |
| `MeshImport.TwoChildrenExample` | src/irisgl/src/scenegraph/meshnode.cpp:180-184 | a root with those two children becomes a plain root whose children are exactly the two trees above, in order, and the counter ends at 4 |
| `MeshImport.LoadAsSceneFragment` | src/irisgl/src/scenegraph/meshnode.cpp:189-222 | null exactly when `FragmentTree` is none, with the counter untouched; otherwise a fresh well-formed tree whose value and counter effect are `FragmentTree`'s |
| `MeshImport.FragmentNullExactly` | src/irisgl/src/scenegraph/meshnode.cpp:194-198 | the fragment is null if and only if parsing failed or the scene has zero meshes |
| `MeshImport.SingleMeshFragment` | src/irisgl/src/scenegraph/meshnode.cpp:200-217 | with one mesh, the result is a childless, untransformed mesh node with mesh 0, meshIndex 0 and meshPath = file. Its material is exactly the creation result: none when creation fails, with no default fallback |
| `MeshImport.GeneralFragment` | src/irisgl/src/scenegraph/meshnode.cpp:219-221 | with several meshes, the fragment mirrors the root node and its creation indices are consecutive in pre-order |
| `MeshImport.ShortcutSkipsDefaultMaterial` | src/irisgl/src/scenegraph/meshnode.cpp:212-214 | a one-mesh scene whose material cannot be created gives a node with no material, where `_buildScene` would give the default material |
| `MeshImport.ShortcutDropsHierarchy` | src/irisgl/src/scenegraph/meshnode.cpp:200-217 | a one-mesh scene whose mesh sits in a child of the root gives a lone mesh node, where `_buildScene` would give a container with one child |
| `TransformCommands.PropertyWidget.RefreshTransform` | src/commands/transfrormscenenodecommand.cpp:30 | one refresh notification is counted |
| `TransformCommands.TransformSceneNodeCommand.FromMatrix` | src/commands/transfrormscenenodecommand.cpp:7-14 | the old side is the decomposition of the node's current local matrix; the new side is the decomposition of the given matrix; the node is not modified |
| `TransformCommands.TransformSceneNodeCommand.FromTrs` | src/commands/transfrormscenenodecommand.cpp:16-23 | the old side is the node's current position, rotation and scale; the new side is the arguments; the node is not modified |
| `TransformCommands.TransformSceneNodeCommand.Undo` | src/commands/transfrormscenenodecommand.cpp:25-31 | the node's position, rotation and scale equal the old side, exactly one refresh is emitted, and no other field changes |
| `TransformCommands.TransformSceneNodeCommand.Redo` | src/commands/transfrormscenenodecommand.cpp:33-39 | the node's position, rotation and scale equal the new side, exactly one refresh is emitted, and no other field changes |
| `TransformCommands.RedoThenUndoRestores` | src/commands/transfrormscenenodecommand.cpp:16-31 | with the position/rotation/scale constructor, redo then undo restores exactly the node's transform from before construction |
| `TransformCommands.RedoTwice` | src/commands/transfrormscenenodecommand.cpp:33-39 | two redos leave the node as one does (the new side) |
| `TransformCommands.UndoTwice` | src/commands/transfrormscenenodecommand.cpp:25-31 | two undos leave the node as one does (the old side) |
| `MaterialCommands.ChangeMaterialPropertyCommand.constructor` | src/commands/changematerialpropertycommand.cpp:6-12 | the material, name, old value and new value are stored; the material is not modified |
| `MaterialCommands.LastMatch` | src/commands/changematerialpropertycommand.cpp:26-30 | none exactly when no property has the name; otherwise the position of a property with that name after which no property has it (the last match wins) |
| `MaterialCommands.CustomMaterial.FindProperty` | src/commands/changematerialpropertycommand.cpp:26-30 | the forward scan returns null exactly when no property matches; otherwise it returns a property with the name at a position after which none matches |
| `MaterialCommands.Property.SetValue` | src/commands/changematerialpropertycommand.cpp:38 | the property's value becomes the argument; nothing else changes |
| `MaterialCommands.CustomMaterial.SetTextureWithUniform` | src/commands/changematerialpropertycommand.cpp:36 | the call (uniform, value) is recorded on the material |
| `MaterialCommands.ChangeMaterialPropertyCommand.SetMaterialProperty` | src/commands/changematerialpropertycommand.cpp:24-40 | requires that some property has the name (the assertion). The last match is selected. A texture property is routed to `setTextureWithUniform` and keeps its value. Any other property takes the value and no texture call is made. No other property can change |
| `MaterialCommands.ChangeMaterialPropertyCommand.Undo` | src/commands/changematerialpropertycommand.cpp:14-17 | the selected property is set to the old value, with the texture routing |
| `MaterialCommands.ChangeMaterialPropertyCommand.Redo` | src/commands/changematerialpropertycommand.cpp:19-22 | the selected property is set to the new value, with the texture routing |
| `MaterialCommands.RedoThenUndo` | src/commands/changematerialpropertycommand.cpp:14-22 | for a non-texture property, redo then undo leaves the old value and makes no texture call |
| `MaterialCommands.RedoTwice` | src/commands/changematerialpropertycommand.cpp:19-22 | for a non-texture property, two redos leave the new value, as one does |
| `MaterialCommands.RedoThenUndoTexture` | src/commands/changematerialpropertycommand.cpp:14-39 | for a texture property, redo then undo changes no value and records two texture calls, first with the new value, then with the old |

## Behaviour worth knowing

The model states these as the code behaves.

- **The one-mesh short cut.** `loadAsSceneFragment`'s short cut for a one-mesh scene does not give the same result as `_buildScene`. It has no default material, no transform, no name and no children, whatever the hierarchy. `ShortcutSkipsDefaultMaterial` and `ShortcutDropsHierarchy` show this.
- **Meshes without vertex positions.** Under `_buildScene`, a one-mesh node whose mesh has no vertex positions gets neither mesh nor material. In a multi-mesh container, every mesh gets a mesh and a material whether or not it has positions.
- **Duplicate property names.** When several properties share a name, the command acts on the last one.
- **Render items after import.** No node built by `_buildScene` has a mesh in its render item, because `setMesh(Mesh*)` never touches the render item (`ImportedMeshState` states this).

## Left out

- The particle fields and the default particle texture of the mesh-node constructor (meshnode.cpp:43-57): configuration defaults with no logic.
- `RenderItem::type`: it is always `Mesh` and is not read here.
- Assimp parsing: `LoadAsSceneFragment` takes the parser's result as a parameter, `None` for a failed parse.
- `new Mesh(aiMesh*)`: this becomes the value `ImportedMesh(i)`.
- `Mesh::loadMesh`: its result is a parameter of `SetMeshFromFile`.
- Matrix decomposition, quaternion normalisation and composing a node's local matrix: floating-point numerics, supplied by the collaborator `MatrixMath`. `getLocalTransform()` is modelled as composing the node's position, rotation and scale.
- `MaterialHelper::createMaterial`: a foreign call, modelled as a function of the material index and the file path that may fail. Two calls for the same material give equal values, so object identity of materials is not modelled.
- `DefaultMaterial::create()`: modelled as the value `DefaultMaterial`.
- `setTextureWithUniform`: modelled as a recorded call. `QVariant::toString` is Qt's conversion, so the recorded call keeps the value itself.
- MaterialCommands.CustomMaterial.SetTextureWithUniform: its frame is the material's record of texture calls alone. This is an assumption, because the body of `CustomMaterial::setTextureWithUniform` is not part of this model. It assumes the call does not write the property's stored value. The texture branch of `PropertySet`, and so the "keeps its value" of `SetMaterialProperty` and the "changes no value" of `RedoThenUndoTexture`, rest on it.
- MaterialCommands.Property.SetValue: assumed to store the value unchanged and to touch nothing else, because property.h is not part of this model. `RedoThenUndo` and `RedoTwice` rest on this.
- SceneGraph.SceneNode.SetLocalPos: assumed to write the position and nothing else, because scenenode.cpp is not part of this model. With the next two lines, this is where the "no other field changes" of the transform command's `Undo` and `Redo` comes from. Any dirty flag or cached world transform the setter may update is not modelled.
- SceneGraph.SceneNode.SetLocalRot: assumed to write the rotation and nothing else, for the same reason.
- SceneGraph.SceneNode.SetLocalScale: assumed to write the scale and nothing else, for the same reason.
- SceneGraph.CreationIndicesIncrease: the counter `MeshNode::index` is a C++ `int` (meshnode.cpp:37), modelled as an unbounded `nat`. Signed overflow after INT_MAX creations is not modelled. "Distinct and increasing" here and in `MeshImport.BuildNodeIndicesDistinct` holds only while fewer than INT_MAX mesh nodes have been created.
- MeshImport.BuildNodeIndicesDistinct: the same bound applies. Indices are strictly increasing only below INT_MAX creations.
- `refreshTransform()`: modelled as a counter on the panel object, which is passed to `undo`/`redo` in place of the global `UiManager::propertyWidget`.
- The default values of `SceneNode` and `RenderItem` fields: scenenode.cpp and the headers are not part of this model. The model takes the default name to be empty, the transform to be the identity, `meshIndex` to be 0 and the render item's pointers to be null.
- `SceneNode::addChild`: modelled only as appending the child. Setting the parent back-reference and the scene pointer is not modelled, because scenenode.cpp is not part of this model; `scene` is a field that something outside the model sets.
- `MeshImport.NewMeshContainer`: the source adds each child mesh node to the container before giving it its material. The model gives the material first and then adds the node. No observer sees the difference.
- `Property`: its name, type and uniform are constants. Nothing in the modelled code changes them, and property.h is not part of this model. `PropertyType` keeps only the texture/non-texture distinction.
- Shared-pointer ownership and lifetime: heap objects with footprints stand for them. `AddChild` requires the new child's subtree to be disjoint from the parent's, so every tree the model builds has disjoint sibling subtrees. A subtree shared through two parents is not modelled.
- Material lookup: the lookup `scene->mMaterials[mesh->mMaterialIndex]` (meshnode.cpp:125, 156, 209) is folded into material creation. The model's `createMaterial` takes the material index and the file path rather than the material and the file's directory.
- `SceneNode`: one class with a constant node type stands for both `SceneNode` and its subclass `MeshNode`, since class inheritance is not used here.
- `Q_ASSERT(prop)`: modelled as a precondition. A release build would dereference null instead, which is fatal too.
- src/widgets/projectmanager.cpp (dialogs, database, archives and the concurrent import batch) and src/constants.h: I/O, UI, concurrency and constants, with no logic of the core.
