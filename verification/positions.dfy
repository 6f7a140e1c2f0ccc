/** The layout and easing helpers (`utils/positions.ts`): the cubic ease, the
    component-wise blend, the cone-shaped spiral target and the table of paired
    chaos/tree positions built from it. */
module Positions {
  import opened Vectors
  import opened Types

  /** Vertical extent of the tree and the height of its base. */
  const TreeHeight: real := 10.0
  const TreeBaseY: real := -2.0

  /** Radius at the base, and the fraction of it lost by the top. */
  const MaxRadius: real := 3.5
  const Taper: real := 0.8

  /** The sinusoidal ripple added to the cone radius. */
  const RippleAmplitude: real := 0.3
  const RippleTurns: real := 8.0

  /** `smoothStep(t) = t²(3 − 2t)`, the cubic Hermite ease. */
  function SmoothStep(t: real): (r: real)
    ensures t == 0.0 ==> r == 0.0
    ensures t == 1.0 ==> r == 1.0
    ensures t == 0.5 ==> r == 0.5
    ensures 0.0 <= t <= 1.0 ==> 0.0 <= r <= 1.0
  {
    SmoothStepRange(t);
    t * t * (3.0 - 2.0 * t)
  }

  /** Helper for the range clause of SmoothStep: `t²(3 − 2t) ≥ 0` and
      `1 − t²(3 − 2t) = (1 − t)²(1 + 2t) ≥ 0` on [0,1]. */
  lemma SmoothStepRange(t: real)
    ensures 0.0 <= t <= 1.0 ==> 0.0 <= t * t * (3.0 - 2.0 * t) <= 1.0
  {
    if 0.0 <= t <= 1.0 {
      MulNonNegative(t * t, 3.0 - 2.0 * t);
      assert 1.0 - t * t * (3.0 - 2.0 * t) == (1.0 - t) * (1.0 - t) * (1.0 + 2.0 * t);
      MulNonNegative((1.0 - t) * (1.0 - t), 1.0 + 2.0 * t);
    }
  }

  /** The ease never runs backwards on [0,1]:
      `s(b) − s(a) = (b − a)(a(3 − 2a − b) + b(3 − 2b − a))`, a product of
      non-negative factors when `a ≤ b` both lie in [0,1]. */
  lemma SmoothStepMonotone(a: real, b: real)
    requires 0.0 <= a <= b <= 1.0
    ensures SmoothStep(a) <= SmoothStep(b)
  {
    var f := a * (3.0 - 2.0 * a - b) + b * (3.0 - 2.0 * b - a);
    SmoothStepDifference(a, b);
    assert f >= 0.0 by {
      MulNonNegative(a, 3.0 - 2.0 * a - b);
      MulNonNegative(b, 3.0 - 2.0 * b - a);
    }
    MulNonNegative(b - a, f);
  }

  /** Helper: the factorisation of the difference of two eased values. */
  lemma SmoothStepDifference(a: real, b: real)
    ensures SmoothStep(b) - SmoothStep(a) == (b - a) * (a * (3.0 - 2.0 * a - b) + b * (3.0 - 2.0 * b - a))
  {
  }

  /** Helper: multiplying both sides by a non-negative factor keeps the order. */
  lemma MulMono(a: real, b: real, c: real)
    requires a <= b && c >= 0.0
    ensures a * c <= b * c
  {
    MulNonNegative(b - a, c);
  }

  /** `lerpVector3(start, end, alpha)`: the component-wise blend. */
  function LerpVector3(start: Vec3, end: Vec3, alpha: real): (r: Vec3)
    ensures alpha == 0.0 ==> r == start
    ensures alpha == 1.0 ==> r == end
    ensures 0.0 <= alpha <= 1.0 ==>
              Between(r.x, start.x, end.x) && Between(r.y, start.y, end.y) && Between(r.z, start.z, end.z)
  {
    LerpBetween(start.x, end.x, alpha);
    LerpBetween(start.y, end.y, alpha);
    LerpBetween(start.z, end.z, alpha);
    Vec3(Lerp(start.x, end.x, alpha), Lerp(start.y, end.y, alpha), Lerp(start.z, end.z, alpha))
  }

  /** How far up the tree slot `index` of `total` sits. */
  function HeightRatio(index: nat, total: nat): (ratio: real)
    requires total > 0
    ensures 0.0 <= ratio
    ensures index < total ==> ratio < 1.0
    ensures index <= total ==> ratio <= 1.0
  {
    DivMono(index as real, total as real, total as real);
    index as real / total as real
  }

  /** The height of slot `index` of `total`. */
  function TreeY(index: nat, total: nat): real
    requires total > 0
  {
    HeightRatio(index, total) * TreeHeight + TreeBaseY
  }

  /** The first slot sits at the base, every slot up to `total` at most 10 units
      above it, and a higher slot is strictly higher. */
  lemma TreeYShape(i: nat, j: nat, total: nat)
    requires total > 0
    ensures TreeY(0, total) == -2.0
    ensures i <= total ==> -2.0 <= TreeY(i, total) <= 8.0
    ensures i < j ==> TreeY(i, total) < TreeY(j, total)
  {
    DivMono(i as real, j as real, total as real);
  }

  /** Helper: dividing by a positive number keeps (strict) order. */
  lemma DivMono(a: real, b: real, c: real)
    requires c > 0.0
    ensures a <= b ==> a / c <= b / c
    ensures a < b ==> a / c < b / c
  {
    if a <= b && a / c >= b / c {
      MulMono(b / c, a / c, c);
      assert (b / c) * c == b && (a / c) * c == a;
    }
  }

  /** The cone radius before the ripple: `3.5 · (1 − 0.8 · ratio)`. */
  function BaseRadius(ratio: real): real {
    MaxRadius * (1.0 - ratio * Taper)
  }

  /** On every slot from 0 to `total` the cone radius lies in [0.7, 3.5], and it
      narrows (never widens) going up. */
  lemma BaseRadiusShape(i: nat, j: nat, total: nat)
    requires total > 0
    requires i <= j <= total
    ensures 0.7 <= BaseRadius(HeightRatio(i, total)) <= 3.5
    ensures BaseRadius(HeightRatio(j, total)) <= BaseRadius(HeightRatio(i, total))
  {
    DivMono(i as real, j as real, total as real);
  }

  /** The golden angle `π(3 − √5)`. */
  function GoldenAngle(m: MathLib): real {
    m.pi * (3.0 - m.sqrt(5.0))
  }

  /** The horizontal radius of slot `index`: the cone radius plus the ripple. */
  function SpiralRadius(index: nat, total: nat, m: MathLib): real
    requires total > 0
  {
    var ratio := HeightRatio(index, total);
    BaseRadius(ratio) + m.sin(ratio * m.pi * RippleTurns) * RippleAmplitude
  }

  /** The point at angle `theta` and distance `radius` from the trunk, at height `y`. */
  function OnCircle(theta: real, radius: real, y: real, m: MathLib): Vec3 {
    Vec3(m.cos(theta) * radius, y, m.sin(theta) * radius)
  }

  /** `generateTreePosition(index, total)`: slot `index` on the cone spiral. */
  function TreePosition(index: nat, total: nat, m: MathLib): (p: Vec3)
    requires total > 0
    ensures p.y == TreeY(index, total)
  {
    OnCircle(index as real * GoldenAngle(m), SpiralRadius(index, total, m), TreeY(index, total), m)
  }

  /** `generateDualPositions(count)`: entry `i` pairs the `i`-th chaos sample
      (drawn at random by the source, supplied here) with tree slot `i` of
      `count`. */
  function GenerateDualPositions(count: nat, chaosSamples: seq<Vec3>, m: MathLib): (r: seq<DualPosition>)
    requires |chaosSamples| == count
    ensures |r| == count
    ensures forall i :: 0 <= i < count ==>
              r[i].chaosPosition == chaosSamples[i] && r[i].targetPosition == TreePosition(i, count, m)
  {
    seq(count, i requires 0 <= i < count => DualPosition(chaosSamples[i], TreePosition(i, count, m)))
  }

  /** The tree targets of a dual-position table rise strictly with the index,
      start at the base and stay below the top. */
  lemma DualTargetsRise(count: nat, chaosSamples: seq<Vec3>, m: MathLib, i: nat, j: nat)
    requires |chaosSamples| == count
    requires i < j < count
    ensures var r := GenerateDualPositions(count, chaosSamples, m);
            r[0].targetPosition.y == -2.0 &&
            r[i].targetPosition.y < r[j].targetPosition.y &&
            r[j].targetPosition.y < 8.0
  {
    TreeYShape(i, j, count);
    TreeYShape(j, count, count);
  }
}
