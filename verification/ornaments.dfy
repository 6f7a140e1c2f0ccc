/** The ornament population (`components/Ornaments.tsx`): 200 instances drawn
    from a ten-entry catalogue, placed on evenly spaced tree slots, split into
    gift, ball and light groups that each run their own progress controller,
    with heavier classes landing earlier through a weighted progress. */
module Ornaments {
  import opened Vectors
  import opened Types
  import opened Positions
  import opened Progress

  const TotalOrnaments: nat := 200

  /** The number of tree slots the ornaments are spread over. */
  const TreeSlots: nat := 15000

  /** How strongly a class's weight speeds up its landing. */
  const WeightFactor: real := 0.1

  /** The catalogue an instance's configuration is drawn from. */
  const Catalogue: seq<OrnamentConfig> := [
    OrnamentConfig(Gift, "#d4af37", 3.0, 0.3),
    OrnamentConfig(Gift, "#c0c0c0", 3.0, 0.28),
    OrnamentConfig(Gift, "#8b0000", 3.0, 0.32),
    OrnamentConfig(Ball, "#d4af37", 1.5, 0.25),
    OrnamentConfig(Ball, "#ff1744", 1.5, 0.22),
    OrnamentConfig(Ball, "#ffffff", 1.5, 0.24),
    OrnamentConfig(Ball, "#0f4c3a", 1.5, 0.26),
    OrnamentConfig(Light, "#fff9c4", 0.5, 0.15),
    OrnamentConfig(Light, "#d4af37", 0.5, 0.12),
    OrnamentConfig(Light, "#ffeb3b", 0.5, 0.13)
  ]

  /** The weight every catalogue entry of a class carries. */
  function KindWeight(kind: OrnamentKind): real {
    match kind
    case Gift => 3.0
    case Ball => 1.5
    case Light => 0.5
  }

  /** Weights depend on the class alone, and are non-negative. */
  lemma CatalogueWeights()
    ensures forall i :: 0 <= i < |Catalogue| ==>
              Catalogue[i].weight == KindWeight(Catalogue[i].kind) && Catalogue[i].weight >= 0.0
  {
  }

  /** `floor(u · 10)`: the catalogue entry picked by a uniform draw `u ∈ [0,1)`. */
  function CataloguePick(u: real): (k: nat)
    requires 0.0 <= u < 1.0
    ensures k < |Catalogue|
  {
    (u * |Catalogue| as real).Floor
  }

  /** `floor(i · (15000 / 200))`: the tree slot of instance `i`. */
  function TreeSlot(i: nat): (slot: nat)
    ensures slot == 75 * i
  {
    (i as real * (TreeSlots as real / TotalOrnaments as real)).Floor
  }

  /** Every instance's slot is a valid slot, and later instances sit higher. */
  lemma TreeSlotsInRange(i: nat, j: nat)
    requires i < j < TotalOrnaments
    ensures 0 <= TreeSlot(i) < TreeSlot(j) < TreeSlots
  {
  }

  /** The random offset `((u − 0.5)·0.5, (u − 0.5)·0.3, (u − 0.5)·0.5)` added to
      each tree slot, from three uniform draws. */
  function Jitter(u: Vec3): Vec3 {
    Vec3((u.x - 0.5) * 0.5, (u.y - 0.5) * 0.3, (u.z - 0.5) * 0.5)
  }

  predicate UnitDraw(u: Vec3) {
    0.0 <= u.x < 1.0 && 0.0 <= u.y < 1.0 && 0.0 <= u.z < 1.0
  }

  /** For uniform draws the offset stays within a quarter unit sideways and
      0.15 units vertically. */
  lemma JitterBounded(u: Vec3)
    requires UnitDraw(u)
    ensures -0.25 <= Jitter(u).x < 0.25 && -0.15 <= Jitter(u).y < 0.15 && -0.25 <= Jitter(u).z < 0.25
  {
  }

  /** The random inputs of one instance: the catalogue draw, its chaos-cloud
      sample and the three draws of its offset (rotation draws are not modelled). */
  datatype OrnamentDraw = OrnamentDraw(pick: real, chaosSample: Vec3, jitter: Vec3)

  predicate ValidDraw(d: OrnamentDraw) {
    0.0 <= d.pick < 1.0 && UnitDraw(d.jitter)
  }

  datatype OrnamentInstance = OrnamentInstance(config: OrnamentConfig, chaosPosition: Vec3, targetPosition: Vec3)

  /** The tree position of instance `i`: its slot on the spiral plus its offset. */
  function InstanceTarget(i: nat, jitter: Vec3, m: MathLib): Vec3 {
    Add(TreePosition(TreeSlot(i), TreeSlots, m), Jitter(jitter))
  }

  /** Builds the 200 instances from their random draws. */
  function BuildInstances(draws: seq<OrnamentDraw>, m: MathLib): (r: seq<OrnamentInstance>)
    requires |draws| == TotalOrnaments
    requires forall i :: 0 <= i < |draws| ==> ValidDraw(draws[i])
    ensures |r| == TotalOrnaments
    ensures forall i :: 0 <= i < |r| ==> ValidDraw(draws[i]) ==>
              r[i].config in Catalogue &&
              r[i].config == Catalogue[CataloguePick(draws[i].pick)] &&
              r[i].chaosPosition == draws[i].chaosSample &&
              r[i].targetPosition == InstanceTarget(i, draws[i].jitter, m)
  {
    seq(TotalOrnaments, i requires 0 <= i < TotalOrnaments && ValidDraw(draws[i]) =>
      OrnamentInstance(Catalogue[CataloguePick(draws[i].pick)], draws[i].chaosSample, InstanceTarget(i, draws[i].jitter, m)))
  }

  /** Every built instance sits within its jitter of its own tree slot, and
      the slots rise with the instance index. */
  lemma BuiltTargetsNearSlots(draws: seq<OrnamentDraw>, m: MathLib, i: nat)
    requires |draws| == TotalOrnaments
    requires forall j :: 0 <= j < |draws| ==> ValidDraw(draws[j])
    requires i < TotalOrnaments
    ensures var t := BuildInstances(draws, m)[i].targetPosition;
            var slot := TreePosition(75 * i, TreeSlots, m);
            slot.y - 0.15 <= t.y < slot.y + 0.15 &&
            slot.x - 0.25 <= t.x < slot.x + 0.25 &&
            slot.z - 0.25 <= t.z < slot.z + 0.25
  {
    JitterBounded(draws[i].jitter);
  }

  /** The instances of one class, in their original order (`filter` on the type). */
  function OfKind(instances: seq<OrnamentInstance>, kind: OrnamentKind): (g: seq<OrnamentInstance>)
    ensures |g| <= |instances|
    ensures forall x :: x in g ==> x in instances && x.config.kind == kind
    ensures forall x :: x in instances && x.config.kind == kind ==> x in g
  {
    if |instances| == 0 then []
    else
      var rest := OfKind(instances[1..], kind);
      if instances[0].config.kind == kind then [instances[0]] + rest else rest
  }

  /** The three groups partition the instances: together they hold every
      instance exactly as often as the population does. */
  lemma {:induction false} Partition(instances: seq<OrnamentInstance>)
    ensures multiset(instances) ==
            multiset(OfKind(instances, Gift)) + multiset(OfKind(instances, Ball)) + multiset(OfKind(instances, Light))
    ensures |OfKind(instances, Gift)| + |OfKind(instances, Ball)| + |OfKind(instances, Light)| == |instances|
  {
    if |instances| > 0 {
      Partition(instances[1..]);
      assert instances == [instances[0]] + instances[1..];
    }
  }

  /** Each instance belongs to the group of its own class and to no other. */
  lemma ExactlyOneGroup(instances: seq<OrnamentInstance>, x: OrnamentInstance, kind: OrnamentKind)
    requires x in instances
    ensures x in OfKind(instances, kind) <==> kind == x.config.kind
  {
  }

  /** The three groups built from the 200 instances hold 200 instances in all. */
  lemma GroupsCoverPopulation(draws: seq<OrnamentDraw>, m: MathLib)
    requires |draws| == TotalOrnaments
    requires forall i :: 0 <= i < |draws| ==> ValidDraw(draws[i])
    ensures var all := BuildInstances(draws, m);
            |OfKind(all, Gift)| + |OfKind(all, Ball)| + |OfKind(all, Light)| == TotalOrnaments
  {
    Partition(BuildInstances(draws, m));
  }

  /** `clamp(s · (1 + w · 0.1), 0, 1)`: a class's progress, from the eased group
      progress `s` and the class weight `w`. */
  function WeightedProgress(s: real, w: real): (r: real)
    ensures 0.0 <= r <= 1.0
  {
    Clamp(s * (1.0 + w * WeightFactor), 0.0, 1.0)
  }

  /** A class with a non-negative weight is never behind the group, a heavier
      class is never behind a lighter one, and a class never runs backwards
      while the group advances. */
  lemma WeightedProgressOrder(s: real, s': real, w: real, w': real)
    requires 0.0 <= s <= s' <= 1.0
    requires 0.0 <= w <= w'
    ensures s <= WeightedProgress(s, w)
    ensures WeightedProgress(s, w) <= WeightedProgress(s, w')
    ensures WeightedProgress(s, w) <= WeightedProgress(s', w)
  {
    WeightedAhead(s, w);
    WeightedMonoInWeight(s, w, w');
    WeightedMonoInProgress(s, s', w);
  }

  lemma WeightedAhead(s: real, w: real)
    requires 0.0 <= s <= 1.0 && 0.0 <= w
    ensures s <= WeightedProgress(s, w)
  {
    var k := w * WeightFactor;
    MulNonNegative(s, k);
    assert s * (1.0 + k) == s + s * k;
    ClampMonotone(s, s * (1.0 + k), 0.0, 1.0);
  }

  lemma WeightedMonoInWeight(s: real, w: real, w': real)
    requires 0.0 <= s && w <= w'
    ensures WeightedProgress(s, w) <= WeightedProgress(s, w')
  {
    var a, a' := 1.0 + w * WeightFactor, 1.0 + w' * WeightFactor;
    assert a <= a';
    MulMono(a, a', s);
    assert s * a == a * s && s * a' == a' * s;
    ClampMonotone(s * a, s * a', 0.0, 1.0);
  }

  lemma WeightedMonoInProgress(s: real, s': real, w: real)
    requires s <= s' && 0.0 <= w
    ensures WeightedProgress(s, w) <= WeightedProgress(s', w)
  {
    var a := 1.0 + w * WeightFactor;
    assert a >= 1.0;
    MulMono(s, s', a);
    ClampMonotone(s * a, s' * a, 0.0, 1.0);
  }

  /** Gifts are never behind balls, nor balls behind lights. */
  lemma ClassOrder(s: real)
    requires 0.0 <= s <= 1.0
    ensures WeightedProgress(s, KindWeight(Gift)) >= WeightedProgress(s, KindWeight(Ball))
    ensures WeightedProgress(s, KindWeight(Ball)) >= WeightedProgress(s, KindWeight(Light))
    ensures WeightedProgress(s, KindWeight(Light)) >= s
  {
    WeightedProgressOrder(s, s, KindWeight(Ball), KindWeight(Gift));
    WeightedProgressOrder(s, s, KindWeight(Light), KindWeight(Ball));
    WeightedProgressOrder(s, s, 0.0, KindWeight(Light));
  }

  /** Gifts land first: once the eased group progress reaches 10/13 gifts are
      fully formed, while lights are not until it reaches 20/21. */
  lemma GiftsLandFirst(s: real)
    requires 10.0 / 13.0 <= s < 20.0 / 21.0
    ensures WeightedProgress(s, KindWeight(Gift)) == 1.0
    ensures WeightedProgress(s, KindWeight(Light)) < 1.0
  {
  }

  /** Where instance `x` is drawn when its group's eased progress is `s`:
      since the weighted factor is clamped, always somewhere on the segment
      from its chaos position to its target, component by component. */
  function InstancePosition(x: OrnamentInstance, s: real): (p: Vec3)
    ensures s == 0.0 ==> p == x.chaosPosition
    ensures 0.0 <= x.config.weight && s == 1.0 ==> p == x.targetPosition
    ensures Between(p.x, x.chaosPosition.x, x.targetPosition.x) &&
            Between(p.y, x.chaosPosition.y, x.targetPosition.y) &&
            Between(p.z, x.chaosPosition.z, x.targetPosition.z)
  {
    LerpVector3(x.chaosPosition, x.targetPosition, WeightedProgress(s, x.config.weight))
  }

  /** One group's controller: the progress a group starts from when mounted
      with state `s`. */
  function MountGroup(s: TreeState): real {
    Target(s)
  }

  /** One frame of a group's controller at rate 0.8; a frame before the mesh
      exists leaves the progress alone. */
  function GroupTick(p: real, s: TreeState, delta: real, meshReady: bool): (p': real)
    ensures meshReady ==> 0.0 <= p' <= 1.0
    ensures !meshReady ==> p' == p
  {
    if meshReady then Step(p, s, OrnamentSpeed, delta) else p
  }

  /** The positions a group's frame writes into its instance matrices: one
      per instance, each between that instance's chaos and target positions;
      at group progress 0 every instance is at its chaos position. */
  function GroupFrame(group: seq<OrnamentInstance>, p: real): (frame: seq<Vec3>)
    ensures |frame| == |group|
    ensures forall i :: 0 <= i < |group| ==>
              Between(frame[i].x, group[i].chaosPosition.x, group[i].targetPosition.x) &&
              Between(frame[i].y, group[i].chaosPosition.y, group[i].targetPosition.y) &&
              Between(frame[i].z, group[i].chaosPosition.z, group[i].targetPosition.z)
    ensures p == 0.0 ==> forall i :: 0 <= i < |group| ==> frame[i] == group[i].chaosPosition
  {
    seq(|group|, i requires 0 <= i < |group| => InstancePosition(group[i], SmoothStep(p)))
  }

  /** A group at rest draws every instance exactly at its chaos or tree
      position: a group mounted in a state is already at that state's shape,
      and stays there frame after frame. */
  lemma GroupAtRest(group: seq<OrnamentInstance>, s: TreeState, delta: real, meshReady: bool)
    requires forall i :: 0 <= i < |group| ==> group[i].config in Catalogue
    ensures GroupTick(MountGroup(s), s, delta, meshReady) == MountGroup(s)
    ensures forall i :: 0 <= i < |group| ==>
              GroupFrame(group, MountGroup(s))[i] ==
              (if s == Formed then group[i].targetPosition else group[i].chaosPosition)
  {
    CatalogueWeights();
  }

  /** No instance runs against its group: while the group forms, each
      instance's blend factor never decreases frame to frame, and while it
      scatters, never increases. */
  lemma InstancesFollowGroup(x: OrnamentInstance, p: real, delta: real)
    requires x.config in Catalogue
    requires 0.0 <= p <= 1.0 && delta >= 0.0
    ensures WeightedProgress(SmoothStep(p), x.config.weight) <=
            WeightedProgress(SmoothStep(GroupTick(p, Formed, delta, true)), x.config.weight)
    ensures WeightedProgress(SmoothStep(GroupTick(p, Chaos, delta, true)), x.config.weight) <=
            WeightedProgress(SmoothStep(p), x.config.weight)
  {
    CatalogueWeights();
    var w := x.config.weight;
    var up := GroupTick(p, Formed, delta, true);
    StepTowardTarget(p, Formed, OrnamentSpeed, delta);
    SmoothStepMonotone(p, up);
    WeightedMonoInProgress(SmoothStep(p), SmoothStep(up), w);
    var down := GroupTick(p, Chaos, delta, true);
    StepTowardTarget(p, Chaos, OrnamentSpeed, delta);
    SmoothStepMonotone(down, p);
    WeightedMonoInProgress(SmoothStep(down), SmoothStep(p), w);
  }
}
