/** The small part of three.js's vector and scalar maths that the scene relies
    on (`Vector3`, `MathUtils.lerp`, `MathUtils.clamp`), over exact reals. */
module Vectors {

  /** A point or an offset in scene space. */
  datatype Vec3 = Vec3(x: real, y: real, z: real)

  const Origin: Vec3 := Vec3(0.0, 0.0, 0.0)

  function Add(a: Vec3, b: Vec3): Vec3 {
    Vec3(a.x + b.x, a.y + b.y, a.z + b.z)
  }

  function Scale(v: Vec3, k: real): Vec3 {
    Vec3(v.x * k, v.y * k, v.z * k)
  }

  function LengthSquared(v: Vec3): real {
    v.x * v.x + v.y * v.y + v.z * v.z
  }

  /** Component `k` of `v`, in the x, y, z order used by flat attribute buffers. */
  function Component(v: Vec3, k: nat): real
    requires k < 3
  {
    if k == 0 then v.x else if k == 1 then v.y else v.z
  }

  /** `MathUtils.clamp(v, lo, hi)`, which is `max(lo, min(hi, v))`. */
  function Clamp(v: real, lo: real, hi: real): (r: real)
    ensures lo <= hi ==> lo <= r <= hi
    ensures lo <= v <= hi ==> r == v
    ensures lo <= hi && v < lo ==> r == lo
    ensures lo <= hi && hi < v ==> r == hi
  {
    var m := if hi < v then hi else v;
    if m < lo then lo else m
  }

  /** Clamping preserves order. */
  lemma ClampMonotone(v: real, v': real, lo: real, hi: real)
    requires v <= v' && lo <= hi
    ensures Clamp(v, lo, hi) <= Clamp(v', lo, hi)
  {
  }

  /** `MathUtils.lerp(a, b, t)`, which is `(1 - t) * a + t * b`. */
  function Lerp(a: real, b: real, t: real): (r: real)
    ensures t == 0.0 ==> r == a
    ensures t == 1.0 ==> r == b
  {
    (1.0 - t) * a + t * b
  }

  /** `v` lies on the closed segment between `a` and `b`, whichever is smaller. */
  predicate Between(v: real, a: real, b: real) {
    (a <= v <= b) || (b <= v <= a)
  }

  /** Every blend factor in [0,1] keeps the blend on the segment between its ends. */
  lemma LerpBetween(a: real, b: real, t: real)
    ensures 0.0 <= t <= 1.0 ==> Between(Lerp(a, b, t), a, b)
  {
    if !(0.0 <= t <= 1.0) { return; }
    var r := Lerp(a, b, t);
    assert r - a == t * (b - a);
    assert b - r == (1.0 - t) * (b - a);
    if a <= b {
      MulNonNegative(t, b - a);
      MulNonNegative(1.0 - t, b - a);
    } else {
      MulNonNegative(t, a - b);
      MulNonNegative(1.0 - t, a - b);
    }
  }

  /** Helper: the product of two non-negative reals is non-negative. */
  lemma MulNonNegative(a: real, b: real)
    requires a >= 0.0 && b >= 0.0
    ensures a * b >= 0.0
  {
  }

  /** The host's transcendental functions (`Math.PI`, `Math.sqrt`, `Math.sin`,
      `Math.cos`), passed in rather than defined: the model fixes where they are
      used, not what they return. */
  datatype MathLib = MathLib(pi: real, sqrt: real -> real, sin: real -> real, cos: real -> real)
}
