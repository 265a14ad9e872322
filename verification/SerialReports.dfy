/** What the reports of the serial tablets mean by the numbers of wacom/wactablet.h and the bits of the packets: heads,
    tool ids, and the packets that SerialPackets does not treat as a whole. */
module SerialReports {
  import opened SerialFraming
  import opened SerialPackets
  import opened TabletState

  // ----- Protocol V

  /** The kinds of packets by their first byte. Bit 6 of a pen or mouse packet does not matter. */
  lemma HeadsByNumber(head: bv8)
    ensures KindOf(head) == ToolIn <==> 0xC0 <= head <= 0xC3
    ensures KindOf(head) == ToolOut <==> head == 0x80 || head == 0x81
    ensures KindOf(head) == PenData <==> 0xA0 <= head <= 0xA7 || 0xE0 <= head <= 0xE7
    ensures KindOf(head) == SecondAirbrush <==> head in {0xB4, 0xB5, 0xF4, 0xF5}
    ensures KindOf(head) == MouseData <==> head in {0xA8, 0xA9, 0xE8, 0xE9, 0xB0, 0xB1, 0xF0, 0xF1}
    ensures KindOf(head) == SecondMouse <==> head in {0xAA, 0xAB, 0xEA, 0xEB}
  {
  }

  /** The tools by their ids: 2 an inking pen, 3 a stroke pen, 4 an eraser, 5 an airbrush, 6 a mouse, 7 a lens cursor,
      and 1 a pen for every other id. */
  lemma ToolsById(id: int)
    ensures ToolOf(id) == 2 <==> id == 0x812 || id == 0x012
    ensures ToolOf(id) == 3 <==> id == 0x832 || id == 0x032
    ensures ToolOf(id) == 4 <==> id == 0x82a || id == 0x85a || id == 0x91a || id == 0x0fa
    ensures ToolOf(id) == 5 <==> id == 0x112
    ensures ToolOf(id) == 6 <==> id == 0x007 || id == 0x09c || id == 0x094
    ensures ToolOf(id) == 7 <==> id == 0x096
    ensures 1 <= ToolOf(id) <= 7
  {
  }

  /** The serial number is the 32-bit word as a signed int. */
  lemma SerialIsSigned(n: nat)
    requires n < 0x1_0000_0000
    ensures -0x8000_0000 <= Signed(n) < 0x8000_0000 && (Signed(n) - n) % 0x1_0000_0000 == 0
  {
  }

  /** A tool announced with its id and serial number. */
  lemma {:induction false} AnnouncedAs(toolId: int, s: State, head: bv8, id: nat, serial: nat)
    requires id < 0x1000 && serial < 0x1_0000_0000 && 0xC0 <= head <= 0xC3
    ensures
      var r := ParseV(toolId, s, EncodeTool(head, id, serial));
      && r.ok && r.toolId == id && r.s == s.(proximity := 1, serial := r.s.serial, toolType := r.s.toolType)
      && (r.s.serial - serial) % 0x1_0000_0000 == 0 && -0x8000_0000 <= r.s.serial < 0x8000_0000
      && (r.s.toolType == 4 <==> id in {0x82a, 0x85a, 0x91a, 0x0fa}) && (r.s.toolType == 6 <==> id in {0x007, 0x09c, 0x094})
      && (r.s.toolType == 7 <==> id == 0x096) && (r.s.toolType == 5 <==> id == 0x112)
      && (r.s.toolType == 2 <==> id in {0x812, 0x012}) && (r.s.toolType == 3 <==> id in {0x832, 0x032})
      && 1 <= r.s.toolType <= 7
  {
    HeadsByNumber(head);
    ToolsById(id);
    SerialIsSigned(serial);
    hide KindOf, EncodeTool, ToolOf, Signed, ParseV;
    ToolReported(toolId, s, head, id, serial);
  }

  /** A tool that leaves takes everything with it. */
  lemma LeftBehind(toolId: int, s: State, p: octets)
    requires |p| == 9 && (p[0] == 0x80 || p[0] == 0x81)
    ensures ParseV(toolId, s, p) == Parsed(true, 0, ZERO_STATE)
  {
    HeadsByNumber(p[0]);
    hide KindOf;
  }

  /** The second packet of an airbrush: the wheel for the pressure, and no button. */
  lemma {:induction false} AirbrushReported(toolId: int, s: State, head: bv8, x: nat, y: nat, wheel: nat, tiltX: int, tiltY: int)
    requires x < 0x1_0000 && y < 0x1_0000 && wheel < 1024 && -64 <= tiltX <= 63 && -64 <= tiltY <= 63
    requires head in {0xB4, 0xB5, 0xF4, 0xF5}
    ensures
      var p := EncodePen(head, x, y, wheel, tiltX, tiltY);
      && InSync(p)
      && ParseV(toolId, s, p) == Parsed(true, toolId, s.(x := x, y := y, absWheel := wheel, tiltX := tiltX, tiltY := tiltY,
                                                         pressure := 0, buttons := 0))
  {
    HeadsByNumber(head);
    assert High(head);
    hide Seven, High, Octet, XOf, YOf, TenOf, TiltOf, KindOf;
    PenIsUnderstood(head, x, y, wheel, tiltX, tiltY);
  }

  /** The second packet of a 4D mouse: position as in the first, then 11 bits of an angle in tenths of a degree. */
  function EncodeTurn(head: bv8, x: nat, y: nat, low: nat, angle: nat, last: bv8): (p: octets)
    requires x < 0x1_0000 && y < 0x1_0000 && low < 8 && angle < 2048 && !High(last)
    ensures |p| == 9
  {
    [head, Octet(x / 512), Octet(x / 4 % 128), Octet(x % 4 * 32 + y / 2048), Octet(y / 16 % 128),
     Octet(y % 16 * 8 + low), Octet(angle / 128), Octet(angle % 128), last]
  }

  /** The angle runs clockwise: up to a half turn it is reported negative, beyond that counted back from 1799. */
  lemma {:induction false} TurnReported(toolId: int, s: State, head: bv8, x: nat, y: nat, low: nat, angle: nat, last: bv8)
    requires x < 0x1_0000 && y < 0x1_0000 && low < 8 && angle < 2048 && !High(last)
    requires head in {0xAA, 0xAB, 0xEA, 0xEB}
    ensures
      var p := EncodeTurn(head, x, y, low, angle, last);
      && InSync(p)
      && ParseV(toolId, s, p) == Parsed(true, toolId, s.(x := x, y := y, rotation := if angle < 900 then -(angle as int) else 1799 - angle))
  {
    HeadsByNumber(head);
    assert High(head);
    hide Seven, High, Octet, KindOf, XOf, YOf, RotationOf;
    TurnFields(head, x, y, low, angle, last);
  }

  lemma {:induction false} TurnFields(head: bv8, x: nat, y: nat, low: nat, angle: nat, last: bv8)
    requires x < 0x1_0000 && y < 0x1_0000 && low < 8 && angle < 2048 && !High(last)
    ensures
      var p := EncodeTurn(head, x, y, low, angle, last);
      && XOf(p) == x && YOf(p) == y && RotationOf(p) == if angle < 900 then -(angle as int) else 1799 - angle
  {
    var p, q := EncodeTurn(head, x, y, low, angle, last), EncodePen(head, x, y, low * 128, 0, 0);
    hide Seven, High, Octet, XOf, YOf, RotationOf, EncodePen, EncodeTurn;
    LikePen(head, x, y, low, angle, last);
    SamePosition(p, q);
    PenIsUnderstood(head, x, y, low * 128, 0, 0);
    TurnAngle(head, x, y, low, angle, last);
  }

  lemma {:induction false} LikePen(head: bv8, x: nat, y: nat, low: nat, angle: nat, last: bv8)
    requires x < 0x1_0000 && y < 0x1_0000 && low < 8 && angle < 2048 && !High(last)
    ensures EncodeTurn(head, x, y, low, angle, last)[1..6] == EncodePen(head, x, y, low * 128, 0, 0)[1..6]
  {
    assert low * 128 / 128 == low;
    hide Octet, High;
  }

  lemma {:induction false} TurnAngle(head: bv8, x: nat, y: nat, low: nat, angle: nat, last: bv8)
    requires x < 0x1_0000 && y < 0x1_0000 && low < 8 && angle < 2048 && !High(last)
    ensures RotationOf(EncodeTurn(head, x, y, low, angle, last)) == if angle < 900 then -(angle as int) else 1799 - angle
  {
    hide Octet, High, Seven;
    var p := EncodeTurn(head, x, y, low, angle, last);
    Angle(angle, Seven(p[6]), Seven(p[7]));
  }

  lemma {:induction false} SamePosition(p: octets, q: octets)
    requires |p| == |q| == 9 && p[1..6] == q[1..6]
    ensures XOf(p) == XOf(q) && YOf(p) == YOf(q)
  {
    assert forall i | 1 <= i < 6 :: p[i] == p[1..6][i - 1] && q[i] == q[1..6][i - 1];
    hide Seven;
  }

  lemma Angle(angle: nat, a: nat, b: nat)
    requires angle < 2048 && a == angle / 128 && b == angle % 128
    ensures a % 16 * 128 + b == angle
  {
  }

  // ----- Protocol IV

  /** A packet of protocol IV, seven bytes of it at first: out of proximity it takes away what a tool reports. Of a mouse,
      6 among the tools, the lower four bits of the buttons are bits 3 to 6 of byte 3. Of a pen or an eraser bit 5 of the
      buttons is the tip, pressed above 10, and of a pen, 1 among the tools, bits 6 and 7 are bits 4 and 5 of byte 3. */
  lemma {:induction false} IVReported(s: State, flags: nat, x: nat, switches: nat, y: nat, press: nat)
    requires flags < 32 && x < 0x1_0000 && switches < 16 && y < 0x1_0000 && press < 256
    ensures
      var p := EncodeIV(flags, x, switches, y, press);
      var r := ParseIV13(s, p);
      && r.ok
      && if p[0] & 0x40 == 0 then r.s == s.(proximity := 0, toolType := 0, x := 0, y := 0, pressure := 0, buttons := 0)
         else
           && r.s == s.(proximity := 1, toolType := r.s.toolType, x := x, y := y, pressure := press, buttons := r.s.buttons)
           && r.s.toolType == (if p[0] & 0x20 == 0 then 6 else if s.proximity != 0 then s.toolType
                               else if p[3] & 0x20 != 0 then 4 else 1)
           && if p[0] & 0x20 == 0 then FourButtons(r.s.buttons, p[3])
              else ThreeButtons(r.s.buttons, press > 10, r.s.toolType == 1 && p[3] & 0x10 != 0, r.s.toolType == 1 && p[3] & 0x20 != 0)
  {
    var p := EncodeIV(flags, x, switches, y, press);
    IVIsUnderstood(flags, x, switches, y, press);
    MouseBits(p[3]);
    StylusBits(if s.proximity != 0 then s.toolType else if EraserBit(p) then TOOL_ERASER else TOOL_PEN, p);
    hide EncodeIV, XOfIV, YOfIV, PressOfIV, FourButtons, ThreeButtons, StylusButtons;
  }

  /** The four switches of byte 3 in their order, and no other bit. */
  predicate FourButtons(buttons: bv32, switches: bv8) {
    (buttons & 1 != 0 <==> switches & 0x08 != 0) && (buttons & 2 != 0 <==> switches & 0x10 != 0)
    && (buttons & 4 != 0 <==> switches & 0x20 != 0) && (buttons & 8 != 0 <==> switches & 0x40 != 0)
    && buttons & 0xFFFF_FFF0 == 0
  }

  lemma MouseBits(b: bv8)
    ensures FourButtons(((b & 0x78) >> 3) as bv32, b)
  {
  }

  lemma {:induction false} StylusBits(tool: int, p: octets)
    requires |p| >= 7
    ensures ThreeButtons(StylusButtons(tool, p), PressOfIV(p) > 10, tool == 1 && p[3] & 0x10 != 0, tool == 1 && p[3] & 0x20 != 0)
  {
    ThreeFlags(PressOfIV(p) > 10, tool == TOOL_PEN && p[3] & 0x10 != 0, tool == TOOL_PEN && EraserBit(p));
    hide PressOfIV, ThreeButtons;
  }

  lemma ThreeFlags(touch: bool, stylus: bool, stylus2: bool)
    ensures ThreeButtons((if touch then TOUCH else 0) | (if stylus then STYLUS else 0) | (if stylus2 then STYLUS2 else 0),
                         touch, stylus, stylus2)
  {
  }

  /** With nine bytes two tilts follow; with seven the tilts stay. */
  lemma {:induction false} TiltReported(s: State, p: octets, tiltX: int, tiltY: int)
    requires |p| == 7 && -64 <= tiltX <= 63 && -64 <= tiltY <= 63
    ensures ParseIV14(s, p) == ParseIV13(s, p)
    ensures
      var q := p + [Octet(TiltBits(tiltX)), Octet(TiltBits(tiltY))];
      ParseIV14(s, q) == ParsedIV(ParseIV13(s, p).ok, ParseIV13(s, p).s.(tiltX := tiltX, tiltY := tiltY))
  {
    var q := p + [Octet(TiltBits(tiltX)), Octet(TiltBits(tiltY))];
    assert q[..7] == p && p[..7] == p;
    hide Octet, Seven, ParseIV13;
  }
}
