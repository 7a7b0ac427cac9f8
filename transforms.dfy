/**
 * The value types shared by the baker, the bone hierarchy and the instance
 * pool: vectors, quaternions, 4x4 matrices and pixel colours.
 *
 * Float numerics are abstracted away. A matrix is an element of the free
 * monoid generated by the elementary transforms the bone code builds
 * (translate, rotate, scale, scale by the reciprocal), so `Mul` is sequence
 * concatenation and `Identity` the empty product: every equation proved about
 * these terms holds for any monoid the engine's matrices form. Spherical
 * interpolation and normalisation of quaternions are kept as uninterpreted
 * constructors.
 */
module Transforms {

  datatype Vector3 = Vector3(x: real, y: real, z: real)

  datatype Quaternion =
    | Quaternion(x: real, y: real, z: real, w: real)
      /** Spherical interpolation from `from` to `to` at weight `t` (uninterpreted). */
    | Slerp(from: Quaternion, to: Quaternion, t: real)
      /** The unit quaternion in the direction of `q` (uninterpreted). */
    | Normalized(q: Quaternion)

  /** Elementary affine transforms that generate the matrix monoid. */
  datatype Atom =
    | Translate(offset: Vector3)
    | Rotate(rotation: Quaternion)
    | Scale(factors: Vector3)
      /** Scaling by the component-wise reciprocal of `factors`. */
    | ScaleReciprocal(factors: Vector3)

  /** A 4x4 matrix, as the product of its factors from left to right. */
  type Matrix = seq<Atom>

  const Identity: Matrix := []

  function Mul(a: Matrix, b: Matrix): Matrix
  {
    a + b
  }

  /** Translation, then rotation, then scale: the engine's TRS matrix. */
  function TRS(position: Vector3, rotation: Quaternion, scale: Vector3): Matrix
  {
    [Translate(position), Rotate(rotation), Scale(scale)]
  }

  /** An RGBA pixel: either a literal colour or one row of a matrix. */
  datatype Color =
    | Color(r: real, g: real, b: real, a: real)
    | MatrixRow(m: Matrix, row: nat)

  /** Row `r` of the identity's upper 3x4 block: (1,0,0,0), (0,1,0,0), (0,0,1,0). */
  function Basis(r: nat): Color
    requires r < 3
  {
    if r == 0 then Color(1.0, 0.0, 0.0, 0.0)
    else if r == 1 then Color(0.0, 1.0, 0.0, 0.0)
    else Color(0.0, 0.0, 1.0, 0.0)
  }

  /** The C# `(int)` cast of a float: truncation toward zero. */
  function Truncate(v: real): int
  {
    if v >= 0.0 then v.Floor else -((-v).Floor)
  }

  /** The C# float remainder `a % b`: its sign follows the dividend. */
  function FloatRem(a: real, b: real): real
    requires b != 0.0
  {
    a - b * (Truncate(a / b) as real)
  }
}
