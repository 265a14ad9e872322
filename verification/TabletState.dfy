/** The state of a tablet that the drivers keep and report: wacom/wactablet.h. */
module TabletState {
  const TOOL_NONE := 0
  const TOOL_PEN := 1
  const TOOL_PENCIL := 2
  const TOOL_BRUSH := 3
  const TOOL_ERASER := 4
  const TOOL_AIRBRUSH := 5
  const TOOL_MOUSE := 6
  const TOOL_LENS := 7
  const TOOL_PAD := 8
  const TOOL_TOUCH := 9
  const TOOL_MAX := 10

  /** BIT of the button numbers. */
  const LEFT: bv32 := 0x01
  const MIDDLE: bv32 := 0x02
  const RIGHT: bv32 := 0x04
  const EXTRA: bv32 := 0x08
  const SIDE: bv32 := 0x10
  const TOUCH: bv32 := 0x20
  const STYLUS: bv32 := 0x40
  const STYLUS2: bv32 := 0x80

  // ----- The state of a tablet

  datatype Range = Range(min: int, max: int)

  /** The nMin and nMax of the fields that have them. */
  datatype Ranges = Ranges(x: Range, y: Range, rotation: Range, pressure: Range, tiltX: Range, tiltY: Range,
                           absWheel: Range, throttle: Range, distance: Range, relWheel: Range)

  const ZERO_RANGE := Range(0, 0)
  const NO_RANGES := Ranges(ZERO_RANGE, ZERO_RANGE, ZERO_RANGE, ZERO_RANGE, ZERO_RANGE, ZERO_RANGE, ZERO_RANGE, ZERO_RANGE,
                            ZERO_RANGE, ZERO_RANGE)

  /** The nValue of every field, and the ranges. */
  datatype State = State(toolType: int, serial: int, proximity: int, buttons: bv32, x: int, y: int, rotation: int,
                         distance: int, pressure: int, tiltX: int, tiltY: int, absWheel: int, relWheel: int,
                         throttle: int, ranges: Ranges)

  const ZERO_STATE := State(0, 0, 0, 0, 0, 0, 0, 0, 0, 0, 0, 0, 0, 0, NO_RANGES)
}
