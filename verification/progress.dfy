/** The progress controller shared by every population: a scalar in [0,1]
    that each frame moves a fraction `speed · Δ` of the way toward its target
    (1 for the formed tree, 0 for the chaos cloud), clamped to [0,1], and is
    eased through `SmoothStep` before use. */
module Progress {
  import opened Vectors
  import opened Types
  import opened Positions

  /** Per-population convergence rates, per second. */
  const FoliageSpeed: real := 1.2
  const OrnamentSpeed: real := 0.8
  const PolaroidSpeed: real := 0.7

  /** The progress a population converges toward: 1 for the tree, 0 for chaos.
      It is also the value a population starts from when it is first mounted. */
  function Target(s: TreeState): (t: real)
    ensures t == 1.0 <==> s.Formed?
    ensures t == 0.0 <==> s.Chaos?
  {
    if s == Formed then 1.0 else 0.0
  }

  /** One frame: `p := clamp(p + (target − p) · speed · Δ, 0, 1)`. */
  function Step(p: real, s: TreeState, speed: real, delta: real): (r: real)
    ensures 0.0 <= r <= 1.0
    ensures p == Target(s) ==> r == p
  {
    Clamp(p + (Target(s) - p) * speed * delta, 0.0, 1.0)
  }

  /** How far progress `p` still has to go to reach the target of `s`. */
  function Gap(p: real, s: TreeState): real {
    if s == Formed then 1.0 - p else p
  }

  /** A frame never moves progress away from its target: toward the tree it
      never decreases, toward chaos it never increases. */
  lemma StepTowardTarget(p: real, s: TreeState, speed: real, delta: real)
    requires 0.0 <= p <= 1.0
    requires speed >= 0.0 && delta >= 0.0
    ensures s == Formed ==> Step(p, s, speed, delta) >= p
    ensures s == Chaos ==> Step(p, s, speed, delta) <= p
    ensures 0.0 <= Gap(Step(p, s, speed, delta), s) <= Gap(p, s)
  {
    var k := speed * delta;
    MulNonNegative(speed, delta);
    assert (Target(s) - p) * speed * delta == (Target(s) - p) * k;
    if s == Formed {
      MulNonNegative(1.0 - p, k);
    } else {
      MulNonNegative(p, k);
    }
  }

  /** With a positive speed and frame time, a frame that starts off target
      strictly closes the gap. */
  lemma StepStrictlyCloser(p: real, s: TreeState, speed: real, delta: real)
    requires 0.0 <= p <= 1.0 && p != Target(s)
    requires speed > 0.0 && delta > 0.0
    ensures Gap(Step(p, s, speed, delta), s) < Gap(p, s)
  {
    var k := speed * delta;
    MulPositive(speed, delta);
    assert (Target(s) - p) * speed * delta == (Target(s) - p) * k;
    if s == Formed {
      MulPositive(1.0 - p, k);
    } else {
      MulPositive(p, k);
    }
  }

  /** Helper: the product of two positive reals is positive. */
  lemma MulPositive(a: real, b: real)
    requires a > 0.0 && b > 0.0
    ensures a * b > 0.0
  {
  }

  /** When a frame moves at most the whole remaining distance
      (`speed · Δ ≤ 1`), the clamp never engages and the gap shrinks by the
      factor `1 − speed · Δ` exactly. */
  lemma StepGap(p: real, s: TreeState, speed: real, delta: real)
    requires 0.0 <= p <= 1.0
    requires 0.0 <= speed * delta <= 1.0
    ensures Gap(Step(p, s, speed, delta), s) == (1.0 - speed * delta) * Gap(p, s)
  {
    var k := speed * delta;
    assert (Target(s) - p) * speed * delta == (Target(s) - p) * k;
    if s == Formed {
      MulNonNegative(1.0 - p, k);
      MulNonNegative(1.0 - p, 1.0 - k);
      assert p + (1.0 - p) * k == 1.0 - (1.0 - p) * (1.0 - k);
    } else {
      MulNonNegative(p, k);
      MulNonNegative(p, 1.0 - k);
      assert p + (0.0 - p) * k == (1.0 - k) * p;
    }
  }

  /** A frame long enough to carry progress past its target
      (`speed · Δ ≥ 1`, a frame-time spike) is cut off by the clamp and lands
      exactly on the target. */
  lemma StepOvershoot(p: real, s: TreeState, speed: real, delta: real)
    requires 0.0 <= p <= 1.0
    requires speed * delta >= 1.0
    ensures Step(p, s, speed, delta) == Target(s)
    ensures Gap(Step(p, s, speed, delta), s) == 0.0
  {
    var k := speed * delta;
    assert (Target(s) - p) * speed * delta == (Target(s) - p) * k;
    if s == Formed {
      MulMono(1.0, k, 1.0 - p);
    } else {
      MulMono(1.0, k, p);
      assert p + (0.0 - p) * k == p - k * p;
    }
  }

  /** Runs `n` frames of equal length `delta` from progress `p0`. The gap to
      the target never grows, and shrinks at least by the factor
      `1 + n · speed · Δ` (Bernoulli's bound on the exact decay
      `(1 − speed · Δ)ⁿ`; a frame with `speed · Δ ≥ 1` closes it at once), so
      progress converges to the target. */
  method Settle(p0: real, s: TreeState, speed: real, delta: real, n: nat) returns (p: real)
    requires 0.0 <= p0 <= 1.0
    requires speed >= 0.0 && delta >= 0.0
    ensures 0.0 <= p <= 1.0
    ensures Gap(p, s) <= Gap(p0, s)
    ensures Gap(p, s) * (1.0 + n as real * (speed * delta)) <= Gap(p0, s)
  {
    var k := speed * delta;
    p := p0;
    var i := 0;
    while i < n
      invariant 0 <= i <= n
      invariant 0.0 <= p <= 1.0
      invariant Gap(p, s) <= Gap(p0, s)
      invariant Gap(p, s) * (1.0 + i as real * k) <= Gap(p0, s)
    {
      var q := Step(p, s, speed, delta);
      StepTowardTarget(p, s, speed, delta);
      if k <= 1.0 {
        StepGap(p, s, speed, delta);
        DecayBound(Gap(p, s), Gap(q, s), k, i as real);
      } else {
        StepOvershoot(p, s, speed, delta);
      }
      p := q;
      i := i + 1;
    }
  }

  /** Helper: one decay step of the Bernoulli bound,
      `(1 − k)(1 + (m + 1)k) = 1 + mk − (m + 1)k² ≤ 1 + mk`. */
  lemma DecayBound(g: real, g': real, k: real, m: real)
    requires g >= 0.0 && 0.0 <= k <= 1.0 && m >= 0.0
    requires g' == (1.0 - k) * g
    ensures g' * (1.0 + (m + 1.0) * k) <= g * (1.0 + m * k)
  {
    assert (1.0 - k) * (1.0 + (m + 1.0) * k) == (1.0 + m * k) - (m + 1.0) * (k * k);
    MulNonNegative(m + 1.0, k * k);
    MulMono((1.0 - k) * (1.0 + (m + 1.0) * k), 1.0 + m * k, g);
    assert g' * (1.0 + (m + 1.0) * k) == ((1.0 - k) * (1.0 + (m + 1.0) * k)) * g;
  }

  /** The controller converges: if after `n` frames the gap obeys the bound
      `Settle` guarantees, it is within `ε` of the target as soon as
      `n · speed · Δ · ε ≥ 1`. */
  lemma ConvergesWithin(gap: real, gap0: real, n: nat, k: real, eps: real)
    requires gap >= 0.0 && gap0 <= 1.0 && k >= 0.0 && eps > 0.0
    requires gap * (1.0 + n as real * k) <= gap0
    requires n as real * k * eps >= 1.0
    ensures gap <= eps
  {
    var x := n as real * k;
    MulNonNegative(n as real, k);
    if gap > eps {
      assert eps * (1.0 + x) == eps + x * eps;
      MulMono(eps, gap, 1.0 + x);
    }
  }

  /** The eased value moves the same way as the raw progress, so the blend the
      renderer sees never runs away from the requested shape either. */
  lemma EasedStepTowardTarget(p: real, s: TreeState, speed: real, delta: real)
    requires 0.0 <= p <= 1.0
    requires speed >= 0.0 && delta >= 0.0
    ensures s == Formed ==> SmoothStep(Step(p, s, speed, delta)) >= SmoothStep(p)
    ensures s == Chaos ==> SmoothStep(Step(p, s, speed, delta)) <= SmoothStep(p)
  {
    StepTowardTarget(p, s, speed, delta);
    var q := Step(p, s, speed, delta);
    if s == Formed {
      SmoothStepMonotone(p, q);
    } else {
      SmoothStepMonotone(q, p);
    }
  }
}
