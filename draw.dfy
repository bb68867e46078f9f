/** The drawing surface, seen as the list of commands a render planner emits.
    `cv2.line` becomes a `Line`, `put_text` (PIL text on the canvas) a `Text`;
    colours are the BGR triples the source passes. */
module Draw {

  datatype Point = Point(x: int, y: int)

  /** A colour as a (blue, green, red) triple, the order OpenCV uses. */
  datatype Color = Bgr(b: int, g: int, r: int)

  datatype DrawCmd =
    | Line(from: Point, to: Point, color: Color, thickness: int)
    | Text(text: string, at: Point, fontSize: int, color: Color)

  /** What a planner hands to the display: either the commands drawn on a
      black canvas, or, when the planner raised, the unmodified camera frame. */
  datatype Canvas = Drawn(cmds: seq<DrawCmd>) | RawFrame

  const White := Bgr(255, 255, 255)
  const Green := Bgr(0, 255, 0)
  /** (0, 255, 255) in BGR order: the colour of hint text. */
  const HintColor := Bgr(0, 255, 255)
  const DividerGrey := Bgr(64, 64, 64)
  const BorderGrey := Bgr(128, 128, 128)

  /** A full-height vertical line at column x of a frame h pixels high. */
  function VerticalLine(x: int, h: int, color: Color, thickness: int): DrawCmd
  {
    Line(Point(x, 0), Point(x, h), color, thickness)
  }
}
