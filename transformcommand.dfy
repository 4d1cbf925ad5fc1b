/** The undo/redo command for a scene node's local transform
    (TransformSceneNodeCommand). */
module TransformCommands {
  import opened Transforms
  import opened SceneGraph

  /** The transform panel of the properties widget; every call of
      refreshTransform() is counted. */
  class PropertyWidget {
    var refreshes: nat

    constructor ()
      ensures refreshes == 0
    {
      refreshes := 0;
    }

    method RefreshTransform()
      modifies this`refreshes
      ensures refreshes == old(refreshes) + 1
    {
      refreshes := refreshes + 1;
    }
  }

  /** A node's local position, rotation and scale. */
  function LocalTrs(node: SceneNode): Trs
    reads node
  {
    Trs(node.pos, node.rot, node.scale)
  }

  class TransformSceneNodeCommand {
    const sceneNode: SceneNode
    const oldPos: Vec3
    const oldRot: Quat
    const oldScale: Vec3
    const newPos: Vec3
    const newRot: Quat
    const newScale: Vec3

    /** The side undo() writes back, and the side redo() writes. */
    function OldTrs(): Trs { Trs(oldPos, oldRot, oldScale) }
    function NewTrs(): Trs { Trs(newPos, newRot, newScale) }

    /** The constructor taking a target local matrix: the old side is the
        decomposition of the node's current local matrix, the new side that of
        `localTransform`. Nothing is applied to the node. */
    constructor FromMatrix(node: SceneNode, localTransform: Matrix, math: MatrixMath)
      ensures sceneNode == node
      ensures OldTrs() == math.decompose(math.compose(LocalTrs(node)))
      ensures NewTrs() == math.decompose(localTransform)
    {
      sceneNode := node;
      var oldTransform := math.compose(LocalTrs(node));
      var newTransform := localTransform;
      var o := math.decompose(oldTransform);
      var n := math.decompose(newTransform);
      oldPos, oldRot, oldScale := o.pos, o.rot, o.scale;
      newPos, newRot, newScale := n.pos, n.rot, n.scale;
    }

    /** The constructor taking position, rotation and scale: the old side is the
        node's current local position, rotation and scale, the new side the
        arguments. Nothing is applied to the node. */
    constructor FromTrs(node: SceneNode, pos: Vec3, rot: Quat, scale: Vec3)
      ensures sceneNode == node
      ensures OldTrs() == LocalTrs(node)
      ensures NewTrs() == Trs(pos, rot, scale)
    {
      sceneNode := node;
      newPos, newRot, newScale := pos, rot, scale;
      oldPos := node.pos;
      oldRot := node.rot;
      oldScale := node.scale;
    }

    /** undo(): the node's position, rotation and scale become the old side and
        the transform panel is refreshed once; nothing else changes. */
    method Undo(ui: PropertyWidget)
      modifies sceneNode`pos, sceneNode`rot, sceneNode`scale, ui`refreshes
      ensures LocalTrs(sceneNode) == OldTrs()
      ensures ui.refreshes == old(ui.refreshes) + 1
    {
      sceneNode.SetLocalPos(oldPos);
      sceneNode.SetLocalRot(oldRot);
      sceneNode.SetLocalScale(oldScale);
      ui.RefreshTransform();
    }

    /** redo(): the node's position, rotation and scale become the new side and
        the transform panel is refreshed once; nothing else changes. */
    method Redo(ui: PropertyWidget)
      modifies sceneNode`pos, sceneNode`rot, sceneNode`scale, ui`refreshes
      ensures LocalTrs(sceneNode) == NewTrs()
      ensures ui.refreshes == old(ui.refreshes) + 1
    {
      sceneNode.SetLocalPos(newPos);
      sceneNode.SetLocalRot(newRot);
      sceneNode.SetLocalScale(newScale);
      ui.RefreshTransform();
    }
  }

  /** Doing an edit built from position, rotation and scale and undoing it gives
      the node back exactly the transform it had before the command was made. */
  method RedoThenUndoRestores(node: SceneNode, pos: Vec3, rot: Quat, scale: Vec3, ui: PropertyWidget)
      returns (cmd: TransformSceneNodeCommand)
    modifies node`pos, node`rot, node`scale, ui`refreshes
    ensures cmd.sceneNode == node
    ensures LocalTrs(node) == old(LocalTrs(node))
    ensures ui.refreshes == old(ui.refreshes) + 2
  {
    cmd := new TransformSceneNodeCommand.FromTrs(node, pos, rot, scale);
    cmd.Redo(ui);
    assert LocalTrs(node) == Trs(pos, rot, scale);
    cmd.Undo(ui);
  }

  /** Applying redo() twice leaves the node as applying it once does; only the
      refresh count differs. */
  method RedoTwice(cmd: TransformSceneNodeCommand, ui: PropertyWidget)
    modifies cmd.sceneNode`pos, cmd.sceneNode`rot, cmd.sceneNode`scale, ui`refreshes
    ensures LocalTrs(cmd.sceneNode) == cmd.NewTrs()
    ensures ui.refreshes == old(ui.refreshes) + 2
  {
    cmd.Redo(ui);
    cmd.Redo(ui);
  }

  /** Applying undo() twice leaves the node as applying it once does. */
  method UndoTwice(cmd: TransformSceneNodeCommand, ui: PropertyWidget)
    modifies cmd.sceneNode`pos, cmd.sceneNode`rot, cmd.sceneNode`scale, ui`refreshes
    ensures LocalTrs(cmd.sceneNode) == cmd.OldTrs()
    ensures ui.refreshes == old(ui.refreshes) + 2
  {
    cmd.Undo(ui);
    cmd.Undo(ui);
  }
}
