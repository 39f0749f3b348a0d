/** The drawing contract the auto-number labels follow: image-space points,
    the hit-test result codes, and the numbered label element itself. */
module Drawings {

  /** A point in original-image coordinates. */
  datatype Point = Point(x: int, y: int)
  {
    /** This point moved by (dx, dy). */
    function Translated(dx: int, dy: int): (p: Point)
      ensures p.x - x == dx && p.y - y == dy
    {
      Point(x + dx, y + dy)
    }
  }

  /** Result of a drawing's hit test: -1 is a miss, 0 hits the drawing as a
      whole, n > 0 is the id of the manipulation handle that was hit. */
  type HitResult = r: int | r >= -1 witness -1

  /** The hit test of one label at a point and a time position. Its geometry
      belongs to the label and is not modelled; only its result codes are. */
  type HitProbe = (AutoNumber, Point, int) -> HitResult

  /** One numbered label: its value, where it was placed in the video, and
      its anchor in the image. Only the anchor changes after creation. */
  class AutoNumber {
    const value: int
    const placedAt: int
    const averageTimeStampsPerFrame: int
    var position: Point

    constructor (placedAt: int, averageTimeStampsPerFrame: int, position: Point, value: int)
      ensures this.value == value && this.position == position
      ensures this.placedAt == placedAt && this.averageTimeStampsPerFrame == averageTimeStampsPerFrame
    {
      this.value := value;
      this.placedAt := placedAt;
      this.averageTimeStampsPerFrame := averageTimeStampsPerFrame;
      this.position := position;
    }

    /** Moves the label as a whole by (dx, dy). */
    method MouseMove(dx: int, dy: int)
      modifies this
      ensures position == old(position).Translated(dx, dy)
    {
      position := position.Translated(dx, dy);
    }

    /** Moves the label's single handle, its anchor, to the given point. */
    method MoveHandleTo(point: Point)
      modifies this
      ensures position == point
    {
      position := point;
    }
  }
}
