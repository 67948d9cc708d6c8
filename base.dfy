/** Small value types shared by the whiteboard and the task grid. */
module Base {

  /** A JavaScript value that may be absent (`null` / `undefined`). */
  datatype Option<+T> = None | Some(value: T)

  /** A point in some 2D coordinate space (viewport, container or canvas). */
  datatype Point = Point(x: real, y: real)

  /** The part of a DOM bounding rectangle the component reads. */
  datatype Rect = Rect(left: real, top: real)

  const Origin: Point := Point(0.0, 0.0)

  /** Translates a viewport point into the space whose origin is `rect`'s top-left corner. */
  function Local(client: Point, rect: Rect): (p: Point)
    ensures p.x + rect.left == client.x && p.y + rect.top == client.y
  {
    Point(client.x - rect.left, client.y - rect.top)
  }
}
