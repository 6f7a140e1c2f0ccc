/** The shared vocabulary of the scene: which shape is requested, the paired
    positions every entity moves between, the ornament catalogue entries and
    the classified hand. */
module Types {
  import opened Vectors

  /** The authoritative configuration every population converges toward. */
  datatype TreeState = Chaos | Formed

  /** One entity's position in the scattered cloud and in the tree. */
  datatype DualPosition = DualPosition(chaosPosition: Vec3, targetPosition: Vec3)

  datatype OrnamentKind = Gift | Ball | Light

  /** A catalogue entry; the colour is kept as the hex string it is written with. */
  datatype OrnamentConfig = OrnamentConfig(kind: OrnamentKind, color: string, weight: real, scale: real)

  /** The classified hand: open or closed, and its centre in scene-like units. */
  datatype HandGesture = HandGesture(isOpen: bool, position: Vec3)

  /** A value that may be absent (`null` in the source). */
  datatype Option<T> = None | Some(value: T)
}
