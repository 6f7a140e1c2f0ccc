/** The photo population (`components/Polaroids.tsx`): up to 30 framed
    photos, three per image, spread over the tree slots with a random jitter,
    pushed outward from the trunk, each running its own progress controller. */
module Polaroids {
  import opened Vectors
  import opened Types
  import opened Positions
  import opened Progress

  const MaxPolaroids: nat := 30
  const CopiesPerImage: nat := 3
  const TreeSlots: nat := 15000

  /** Width of the random slot jitter: `floor(r · 500)` for `r ∈ [0,1)`. */
  const SlotJitterWidth: real := 500.0

  /** How far a photo is pushed out from the trunk. */
  const RadialPush: real := 0.8

  /** `min(3 · images, 30)`: how many photos are built. */
  function InstanceCount(images: nat): (count: nat)
    ensures count <= MaxPolaroids && count <= CopiesPerImage * images
    ensures count == MaxPolaroids || count == CopiesPerImage * images
    ensures images > 0 ==> count >= 1
  {
    if images * CopiesPerImage < MaxPolaroids then images * CopiesPerImage else MaxPolaroids
  }

  /** `i mod images`: which loaded texture photo `i` shows. */
  function ImageIndex(i: nat, images: nat): (k: nat)
    requires images > 0
    ensures k < images
    ensures i < images ==> k == i
  {
    i % images
  }

  /** Some photo among the first `InstanceCount(images)` shows image `j`. */
  predicate Shown(images: nat, j: nat)
    requires images > 0
  {
    exists i :: 0 <= i < InstanceCount(images) && ImageIndex(i, images) == j
  }

  /** Every image is shown on some photo exactly when there are at most 30
      images: beyond that the cap leaves the later images unused. */
  lemma EveryImageShown(images: nat)
    requires images > 0
    ensures (forall j :: 0 <= j < images ==> Shown(images, j)) <==> images <= MaxPolaroids
  {
    if images <= MaxPolaroids {
      forall j | 0 <= j < images
        ensures Shown(images, j)
      {
        assert ImageIndex(j, images) == j;
      }
    } else {
      forall i | 0 <= i < InstanceCount(images)
        ensures ImageIndex(i, images) != MaxPolaroids
      {
        assert ImageIndex(i, images) == i;
      }
      assert !Shown(images, MaxPolaroids);
    }
  }

  /** `floor(i · (15000 / count)) + floor(r · 500)`: the tree slot of photo `i`
      of `count`, jittered by a uniform draw `r`. */
  function TreeSlot(i: nat, count: nat, r: real): (slot: int)
    requires count > 0
  {
    (i as real * (TreeSlots as real / count as real)).Floor + (r * SlotJitterWidth).Floor
  }

  /** With at most 30 photos the evenly spaced slots are at least 500 apart,
      so the jitter never pushes a photo past the top slot. */
  lemma TreeSlotInRange(i: nat, count: nat, r: real)
    requires 1 <= count <= MaxPolaroids && i < count
    requires 0.0 <= r < 1.0
    ensures 0 <= TreeSlot(i, count, r) < TreeSlots
  {
    SlotBaseInRange(i, count);
    SlotJitterInRange(r);
  }

  /** Helper: the evenly spaced part of the slot lies in [0, 14500]. */
  lemma SlotBaseInRange(i: nat, count: nat)
    requires 1 <= count <= MaxPolaroids && i < count
    ensures 0 <= (i as real * (TreeSlots as real / count as real)).Floor <= 14500
  {
    var q := TreeSlots as real / count as real;
    assert q * count as real == 15000.0;
    assert q >= 500.0 by {
      if q < 500.0 {
        MulMono(q, 500.0, count as real);
      }
    }
    SpacedBelow(i as real, count as real, q);
    var x := i as real * q;
    assert x.Floor as real <= x;
  }

  /** Helper: `i` steps of a spacing `q ≥ 500` that fits `n` times in 15000
      stay within [0, 14500] while `i ≤ n − 1`. */
  lemma SpacedBelow(i: real, n: real, q: real)
    requires 0.0 <= i <= n - 1.0 && q >= 500.0 && q * n == 15000.0
    ensures 0.0 <= i * q <= 14500.0
  {
    MulMono(i, n - 1.0, q);
    MulNonNegative(i, q);
    assert (n - 1.0) * q == q * n - q;
  }

  /** Helper: the jitter part of the slot lies in [0, 499]. */
  lemma SlotJitterInRange(r: real)
    requires 0.0 <= r < 1.0
    ensures 0 <= (r * SlotJitterWidth).Floor <= 499
  {
    var y := r * SlotJitterWidth;
    assert 0.0 <= y < 500.0;
    assert y.Floor as real <= y;
  }

  /** The cap of 30 is what keeps the slot in range: with 31 photos the last
      one can land past the top of the tree. */
  lemma TreeSlotNeedsCap()
    ensures TreeSlot(30, 31, 0.999) >= TreeSlots
  {
    assert (30 as real * (15000.0 / 31.0)).Floor >= 14516;
    assert (0.999 * 500.0).Floor == 499;
  }

  /** `v / (|v| || 1)`: three.js's `normalize`, with the square root supplied. */
  function Normalize(v: Vec3, m: MathLib): Vec3 {
    var len := m.sqrt(LengthSquared(v));
    if len == 0.0 then v else Scale(v, 1.0 / len)
  }

  /** The random offset `((u − 0.5)·1.5, (u − 0.5)·0.8, (u − 0.5)·1.5)`. */
  function Offset(u: Vec3): Vec3 {
    Vec3((u.x - 0.5) * 1.5, (u.y - 0.5) * 0.8, (u.z - 0.5) * 1.5)
  }

  /** The random inputs of one photo: its slot jitter draw, its chaos-cloud
      sample and the three draws of its offset (rotation draws are not modelled). */
  datatype PolaroidDraw = PolaroidDraw(slotJitter: real, chaosSample: Vec3, offset: Vec3)

  datatype PolaroidInstance = PolaroidInstance(chaosPosition: Vec3, targetPosition: Vec3, imageIndex: nat)

  /** The tree position of a photo: its slot, plus its offset, plus a push of
      0.8 along the direction from the origin to the un-offset slot. */
  function PhotoTarget(slot: nat, offset: Vec3, m: MathLib): Vec3 {
    var treePos := TreePosition(slot, TreeSlots, m);
    Add(Add(treePos, Offset(offset)), Scale(Normalize(treePos, m), RadialPush))
  }

  /** Builds the photos for `images` loaded textures from their random draws.
      Photo `i` shows texture `i mod images`, which exists; its target is
      built from a jittered slot that lies on the tree. */
  function BuildInstances(images: nat, draws: seq<PolaroidDraw>, m: MathLib): (r: seq<PolaroidInstance>)
    requires |draws| == InstanceCount(images)
    requires forall i :: 0 <= i < |draws| ==> 0.0 <= draws[i].slotJitter < 1.0
    ensures |r| == InstanceCount(images)
    ensures forall i :: 0 <= i < |r| ==> r[i].imageIndex < images
    ensures forall i :: 0 <= i < |r| ==> images > 0 && r[i].imageIndex == ImageIndex(i, images)
    ensures forall i :: 0 <= i < |r| ==> r[i].chaosPosition == draws[i].chaosSample
    ensures forall i :: 0 <= i < |r| ==>
              var slot := TreeSlot(i, |r|, draws[i].slotJitter);
              0 <= slot < TreeSlots && r[i].targetPosition == PhotoTarget(slot, draws[i].offset, m)
  {
    var count := InstanceCount(images);
    SlotsInRange(count, draws);
    seq(count, i requires 0 <= i < count =>
      TreeSlotInRange(i, count, draws[i].slotJitter);
      PolaroidInstance(draws[i].chaosSample,
                       PhotoTarget(TreeSlot(i, count, draws[i].slotJitter), draws[i].offset, m),
                       ImageIndex(i, images)))
  }

  /** Helper: every photo's jittered slot lies on the tree. */
  lemma SlotsInRange(count: nat, draws: seq<PolaroidDraw>)
    requires count <= MaxPolaroids && |draws| == count
    requires forall i :: 0 <= i < |draws| ==> 0.0 <= draws[i].slotJitter < 1.0
    ensures forall i :: 0 <= i < count ==> 0 <= TreeSlot(i, count, draws[i].slotJitter) < TreeSlots
  {
    forall i | 0 <= i < count
      ensures 0 <= TreeSlot(i, count, draws[i].slotJitter) < TreeSlots
    {
      TreeSlotInRange(i, count, draws[i].slotJitter);
    }
  }

  /** With at most 30 images every image appears on some built photo, the
      first round of photos showing them in order. */
  lemma BuiltPhotosShowEveryImage(images: nat, draws: seq<PolaroidDraw>, m: MathLib, j: nat)
    requires 0 < images <= MaxPolaroids && j < images
    requires |draws| == InstanceCount(images)
    requires forall i :: 0 <= i < |draws| ==> 0.0 <= draws[i].slotJitter < 1.0
    ensures var r := BuildInstances(images, draws, m);
            exists i :: 0 <= i < |r| && r[i].imageIndex == j
  {
    var r := BuildInstances(images, draws, m);
    assert j < |r|;
    assert r[j].imageIndex == ImageIndex(j, images) == j;
  }

  /** The progress a photo starts from when mounted with state `s`. */
  function Mount(s: TreeState): real {
    Target(s)
  }

  /** One frame of a photo's controller at rate 0.7; a frame before the mesh
      exists leaves the progress alone. */
  function Tick(p: real, s: TreeState, delta: real, meshReady: bool): (p': real)
    ensures meshReady ==> 0.0 <= p' <= 1.0
    ensures !meshReady ==> p' == p
  {
    if meshReady then Step(p, s, PolaroidSpeed, delta) else p
  }

  /** Where a photo is drawn at progress `p`: the eased progress itself is the
      blend factor, with no per-photo weight. The photo is at its chaos sample
      at 0, at its tree position at 1, and between the two in every coordinate
      in between. */
  function PhotoPosition(x: PolaroidInstance, p: real): (pos: Vec3)
    ensures p == 0.0 ==> pos == x.chaosPosition
    ensures p == 1.0 ==> pos == x.targetPosition
    ensures 0.0 <= p <= 1.0 ==>
              Between(pos.x, x.chaosPosition.x, x.targetPosition.x) &&
              Between(pos.y, x.chaosPosition.y, x.targetPosition.y) &&
              Between(pos.z, x.chaosPosition.z, x.targetPosition.z)
  {
    LerpVector3(x.chaosPosition, x.targetPosition, SmoothStep(p))
  }

  /** A photo mounted in a state is at rest there, frame after frame. */
  lemma MountedAtRest(s: TreeState, delta: real, meshReady: bool, x: PolaroidInstance)
    ensures Tick(Mount(s), s, delta, meshReady) == Mount(s)
    ensures PhotoPosition(x, Mount(s)) == (if s == Formed then x.targetPosition else x.chaosPosition)
  {
  }

  /** A photo's controller moves monotonically toward the state's target:
      up while forming, down while scattering, and the eased blend factor
      follows in the same direction. */
  lemma TickTowardTarget(p: real, s: TreeState, delta: real)
    requires 0.0 <= p <= 1.0 && delta >= 0.0
    ensures s == Formed ==> p <= Tick(p, s, delta, true) && SmoothStep(p) <= SmoothStep(Tick(p, s, delta, true))
    ensures s == Chaos ==> Tick(p, s, delta, true) <= p && SmoothStep(Tick(p, s, delta, true)) <= SmoothStep(p)
  {
    StepTowardTarget(p, s, PolaroidSpeed, delta);
    EasedStepTowardTarget(p, s, PolaroidSpeed, delta);
  }
}
