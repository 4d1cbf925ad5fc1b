/** Local transforms of scene nodes. Positions, rotations and scales are opaque
    values here: the model never computes with them, it only moves them between
    imported matrices, nodes and commands. The matrix arithmetic itself (composing
    a 4x4 matrix, decomposing it, normalising the quaternion) is floating-point
    code of the math library and enters the model as the collaborator MatrixMath. */
module Transforms {

  /** A QVector3D. */
  datatype Vec3 = Vec3(x: real, y: real, z: real)

  /** A QQuaternion, scalar part first. */
  datatype Quat = Quat(w: real, x: real, y: real, z: real)

  /** A 4x4 homogeneous matrix (aiMatrix4x4 or QMatrix4x4), entries row by row. */
  datatype Matrix = Matrix(entries: seq<real>)

  /** A local transform split into position, rotation and scale. */
  datatype Trs = Trs(pos: Vec3, rot: Quat, scale: Vec3)

  /** The math library as the editor uses it: `decompose` is aiMatrix4x4::Decompose
      followed by quaternion normalisation (or MathHelper::decomposeMatrix), and
      `compose` builds a node's local matrix from its position, rotation and scale. */
  datatype MatrixMath = MatrixMath(decompose: Matrix -> Trs, compose: Trs -> Matrix)

  /** The transform a freshly constructed scene node starts with. */
  const IdentityTrs: Trs := Trs(Vec3(0.0, 0.0, 0.0), Quat(1.0, 0.0, 0.0, 0.0), Vec3(1.0, 1.0, 1.0))
}
