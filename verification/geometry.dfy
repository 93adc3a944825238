/** Unity's value types as the model uses them: components are `real`, and
    the float arithmetic itself (rounding) is not modelled. */
module Geometry {

  datatype Vec2 = Vec2(x: real, y: real)

  datatype Vec3 = Vec3(x: real, y: real, z: real)

  /** A quaternion, `w` last as in Unity. */
  datatype Quat = Quat(x: real, y: real, z: real, w: real)

  /** A position and a rotation. */
  datatype Pose = Pose(position: Vec3, rotation: Quat)

  /** NRSDK's `TrackingState` of anything tracked in the world. */
  datatype TrackingState = Tracking | Paused | Stopped

  const Zero2: Vec2 := Vec2(0.0, 0.0)
  const Zero3: Vec3 := Vec3(0.0, 0.0, 0.0)

  /** `Quaternion.identity`. */
  const IdentityQuat: Quat := Quat(0.0, 0.0, 0.0, 1.0)

  /** `Pose.identity`: zero position, identity rotation. */
  const IdentityPose: Pose := Pose(Zero3, IdentityQuat)

  /** `default(Pose)`: every component zero, so its rotation is not a unit
      quaternion and it differs from `IdentityPose`. */
  const DefaultPose: Pose := Pose(Zero3, Quat(0.0, 0.0, 0.0, 0.0))

  function Sub2(a: Vec2, b: Vec2): (r: Vec2)
    ensures r.x + b.x == a.x && r.y + b.y == a.y
  {
    Vec2(a.x - b.x, a.y - b.y)
  }

  /** Unity's `Quaternion * Quaternion`: the Hamilton product, `a` applied
      after `b`. */
  function QuatMul(a: Quat, b: Quat): Quat {
    Quat(a.w * b.x + a.x * b.w + a.y * b.z - a.z * b.y,
         a.w * b.y + a.y * b.w + a.z * b.x - a.x * b.z,
         a.w * b.z + a.z * b.w + a.x * b.y - a.y * b.x,
         a.w * b.w - a.x * b.x - a.y * b.y - a.z * b.z)
  }

  /** The conjugate, which is `Quaternion.Inverse` of a rotation. */
  function Conjugate(q: Quat): Quat {
    Quat(-q.x, -q.y, -q.z, q.w)
  }

  /** A rotation: a quaternion of length one. */
  predicate IsUnit(q: Quat) {
    q.x * q.x + q.y * q.y + q.z * q.z + q.w * q.w == 1.0
  }

  /** The identity is neutral for the product. */
  lemma MulIdentity(q: Quat)
    ensures QuatMul(IdentityQuat, q) == q && QuatMul(q, IdentityQuat) == q
  {
  }

  /** The conjugate of a rotation undoes it from either side. */
  lemma ConjugateIsInverse(q: Quat)
    requires IsUnit(q)
    ensures QuatMul(Conjugate(q), q) == IdentityQuat
    ensures QuatMul(q, Conjugate(q)) == IdentityQuat
  {
  }
}
