/** The point-cloud population (`components/Foliage.tsx`): a table of paired
    chaos/tree positions flattened into three parallel attribute buffers, and
    one shared progress controller at rate 1.2 whose eased value and the
    elapsed time are handed to the shader as uniforms. */
module Foliage {
  import opened Vectors
  import opened Types
  import opened Positions
  import opened Progress

  /** The values the shader reads each frame. */
  datatype Uniforms = Uniforms(progress: real, time: real)

  /** The controller: the raw progress and the uniforms derived from it. */
  datatype FoliageState = FoliageState(progress: real, uniforms: Uniforms)

  /** The controller as mounted with state `s`: progress at the state's
      target, the progress uniform initialised from it, time at zero. */
  function Mount(s: TreeState): (f: FoliageState)
    ensures f.progress == f.uniforms.progress == Target(s)
    ensures f.uniforms.time == 0.0
  {
    var p := Target(s);
    FoliageState(p, Uniforms(p, 0.0))
  }

  /** One frame: step the progress at rate 1.2, publish its eased value and
      advance the time uniform by the frame length. A frame before the points
      object exists changes nothing. */
  function Tick(f: FoliageState, s: TreeState, delta: real, pointsReady: bool): FoliageState {
    if !pointsReady then f
    else
      var p := Step(f.progress, s, FoliageSpeed, delta);
      FoliageState(p, Uniforms(SmoothStep(p), f.uniforms.time + delta))
  }

  /** The uniforms agree with the controller: progress in [0,1] and the
      progress uniform equal to its eased value. */
  predicate Coherent(f: FoliageState) {
    0.0 <= f.progress <= 1.0 && f.uniforms.progress == SmoothStep(f.progress)
  }

  /** A freshly mounted controller is coherent (the raw initial value equals
      its eased value at 0 and at 1), every frame keeps it so, the progress
      uniform stays in [0,1], time never runs backwards, and progress moves
      toward the target and stays there once reached. */
  lemma TickInvariant(f: FoliageState, s: TreeState, delta: real, pointsReady: bool)
    requires Coherent(f) && delta >= 0.0
    ensures Coherent(Mount(s))
    ensures var f' := Tick(f, s, delta, pointsReady);
            Coherent(f') &&
            0.0 <= f'.uniforms.progress <= 1.0 &&
            f'.uniforms.time >= f.uniforms.time &&
            Gap(f'.progress, s) <= Gap(f.progress, s) &&
            (f.progress == Target(s) ==> f'.progress == f.progress)
  {
    StepTowardTarget(f.progress, s, FoliageSpeed, delta);
  }

  /** Flattens the dual-position table into the three attribute buffers, in
      the order `x, y, z` per entry; the initial position buffer is a copy of
      the chaos buffer. */
  method Buffers(dual: seq<DualPosition>) returns (positions: seq<real>, chaos: seq<real>, target: seq<real>)
    ensures |chaos| == |target| == |positions| == 3 * |dual|
    ensures forall j :: 0 <= j < 3 * |dual| ==> chaos[j] == Component(dual[j / 3].chaosPosition, j % 3)
    ensures forall j :: 0 <= j < 3 * |dual| ==> target[j] == Component(dual[j / 3].targetPosition, j % 3)
    ensures positions == chaos
  {
    var n := |dual|;
    chaos := seq(3 * n, _ => 0.0);
    target := seq(3 * n, _ => 0.0);
    positions := seq(3 * n, _ => 0.0);
    var i := 0;
    while i < n
      invariant 0 <= i <= n
      invariant |chaos| == |target| == |positions| == 3 * n
      invariant forall j :: 0 <= j < 3 * i ==> chaos[j] == Component(dual[j / 3].chaosPosition, j % 3)
      invariant forall j :: 0 <= j < 3 * i ==> target[j] == Component(dual[j / 3].targetPosition, j % 3)
      invariant forall j :: 0 <= j < 3 * i ==> positions[j] == chaos[j]
      invariant forall j :: 3 * i <= j < 3 * n ==> positions[j] == chaos[j] == 0.0
    {
      var c, t := dual[i].chaosPosition, dual[i].targetPosition;
      chaos := chaos[3 * i := c.x][3 * i + 1 := c.y][3 * i + 2 := c.z];
      target := target[3 * i := t.x][3 * i + 1 := t.y][3 * i + 2 := t.z];
      positions := positions[3 * i := chaos[3 * i]][3 * i + 1 := chaos[3 * i + 1]][3 * i + 2 := chaos[3 * i + 2]];
      i := i + 1;
    }
  }

  /** Entry `i`'s coordinates sit at offsets `3i`, `3i + 1`, `3i + 2`. */
  lemma BufferLayout(dual: seq<DualPosition>, chaos: seq<real>, i: nat, k: nat)
    requires |chaos| == 3 * |dual|
    requires forall j :: 0 <= j < 3 * |dual| ==> chaos[j] == Component(dual[j / 3].chaosPosition, j % 3)
    requires i < |dual| && k < 3
    ensures chaos[3 * i + k] == Component(dual[i].chaosPosition, k)
  {
    assert (3 * i + k) / 3 == i && (3 * i + k) % 3 == k;
  }

  /** The geometry a `count`-point cloud is built with: the dual-position table
      from the chaos samples, flattened. */
  method Geometry(count: nat, chaosSamples: seq<Vec3>, m: MathLib) returns (positions: seq<real>, chaos: seq<real>, target: seq<real>)
    requires |chaosSamples| == count
    ensures |chaos| == |target| == |positions| == 3 * count
    ensures forall j :: 0 <= j < 3 * count ==> chaos[j] == Component(chaosSamples[j / 3], j % 3)
    ensures forall j :: 0 <= j < 3 * count ==> target[j] == Component(TreePosition(j / 3, count, m), j % 3)
    ensures positions == chaos
  {
    var dual := GenerateDualPositions(count, chaosSamples, m);
    positions, chaos, target := Buffers(dual);
  }
}
