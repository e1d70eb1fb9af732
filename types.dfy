/** Value types shared by the level builder, the gesture engine and the game session. */
module GameTypes {

  datatype Option<T> = None | Some(value: T)

  /** The gesture a target asks for: "short" (a tap) or "long" (a hold). */
  datatype Action = Short | Long

  /** One draw of the random source while a level is built: the two
      `randint` calls for the centre and the `choice` of gesture, which the
      builder uses only if it accepts the centre. */
  datatype Candidate = Candidate(x: int, y: int, action: Action)

  /** A target of the current level, as kept in the circle list.
      `id` and `textId` are the canvas items of its ring and of its label. */
  datatype Circle = Circle(
    id: int, textId: int,
    x: int, y: int,
    action: Action,
    pressedTime: Option<real>,
    done: bool)

  /** A primary-button event with the clock reading (in seconds) taken for it. */
  datatype Event = Press(time: real) | Release(time: real)

  /** The ring colour a classified target is repainted with. */
  datatype Outline = Green | Red

  /** Squared distance between the points (x1, y1) and (x2, y2). */
  function SqDist(x1: int, y1: int, x2: int, y2: int): int {
    var dx, dy := x1 - x2, y1 - y2;
    dx * dx + dy * dy
  }

  /** Hit radius of a target, in canvas units. */
  const Radius: int := 40

  /** Inclusive ranges of a target centre (the two `randint` calls). */
  const MinX: int := 100
  const MaxX: int := 700
  const MinY: int := 100
  const MaxY: int := 500
}
