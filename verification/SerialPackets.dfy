/** The packets of the serial tablets: what SerialParseWacomV, SerialParseWacomIV_1_3 and
    SerialParseWacomIV_1_4 of wacom/wacserial.c make of them, and the ranges that SerialInitWacom
    declares. */
module SerialPackets {
  import opened SerialFraming
  import opened TabletState

  const MOUSE_4D: int := 0x094
  const LENS_CURSOR: int := 0x096

  // ----- Ranges declared

  /** What SerialInitWacom declares for a protocol V tablet of the given size. */
  function DeclaredV(maxX: int, maxY: int): Ranges {
    NO_RANGES.(x := Range(0, maxX), y := Range(0, maxY), pressure := Range(0, 1023), absWheel := Range(0, 1023),
               rotation := Range(-900, 899), throttle := Range(-1023, 1023),
               tiltX := Range(-64, 63), tiltY := Range(-64, 63))
  }

  /** The same for protocol IV from ROM version 1.4 on, and for ROM version 1.3, which has no tilt. */
  function DeclaredIV14(maxX: int, maxY: int): Ranges {
    DeclaredIV13(maxX, maxY).(tiltX := Range(-64, 63), tiltY := Range(-64, 63))
  }

  function DeclaredIV13(maxX: int, maxY: int): Ranges {
    NO_RANGES.(x := Range(0, maxX), y := Range(0, maxY), pressure := Range(0, 255))
  }

  predicate Fits(v: int, r: Range) {
    r.min <= v <= r.max
  }

  /** Every value but the position lies in its range. */
  predicate Within(s: State, r: Ranges) {
    && Fits(s.rotation, r.rotation) && Fits(s.pressure, r.pressure) && Fits(s.tiltX, r.tiltX) && Fits(s.tiltY, r.tiltY)
    && Fits(s.absWheel, r.absWheel) && Fits(s.throttle, r.throttle)
  }

  // ----- The fields of a packet, in arithmetic

  /** The payload of a byte of a packet. */
  function Seven(b: bv8): (n: nat)
    ensures n < 128
  {
    (b & 0x7f) as int
  }

  /** 16 bits: bytes 1, 2 and the upper two of byte 3. */
  function XOf(p: octets): (x: nat)
    requires |p| == 9
    ensures x < 0x1_0000
  {
    Seven(p[1]) * 512 + Seven(p[2]) * 4 + Seven(p[3]) / 32
  }

  /** 16 bits: the lower five of byte 3, byte 4 and the upper four of byte 5. */
  function YOf(p: octets): (y: nat)
    requires |p| == 9
    ensures y < 0x1_0000
  {
    Seven(p[3]) % 32 * 2048 + Seven(p[4]) * 16 + Seven(p[5]) / 8
  }

  /** 10 bits: the lower three of byte 5 and byte 6. It is a pressure, a wheel or a throttle. */
  function TenOf(p: octets): (n: nat)
    requires |p| == 9
    ensures n < 1024
  {
    Seven(p[5]) % 8 * 128 + Seven(p[6])
  }

  /** A seven-bit two's complement number. */
  function TiltOf(b: bv8): (t: int)
    ensures -64 <= t <= 63
  {
    if Seven(b) < 64 then Seven(b) else Seven(b) - 128
  }

  /** 12 bits: byte 1 and the upper five of byte 2. */
  function ToolIdOf(p: octets): (n: nat)
    requires |p| == 9
    ensures n < 0x1000
  {
    Seven(p[1]) * 32 + Seven(p[2]) / 4
  }

  /** The 32 bits behind the tool id. */
  function SerialBits(p: octets): (n: nat)
    requires |p| == 9
    ensures n < 0x1_0000_0000
  {
    Seven(p[2]) % 4 * 0x4000_0000 + Seven(p[3]) * 0x80_0000 + Seven(p[4]) * 0x1_0000 + Seven(p[5]) * 512
    + Seven(p[6]) * 4 + Seven(p[7]) / 32
  }

  /** A word as an int. */
  function Signed(n: nat): int {
    if n < 0x8000_0000 then n else n - 0x1_0000_0000
  }

  /** 11 bits: the lower four of byte 6 and byte 7. */
  function RawRotation(p: octets): nat
    requires |p| == 9
  {
    Seven(p[6]) % 16 * 128 + Seven(p[7])
  }

  /** Tenths of a degree, clockwise, to a signed angle. */
  function RotationOf(p: octets): (r: int)
    requires |p| == 9
    ensures -899 <= r <= 899
  {
    if RawRotation(p) < 900 then 0 - RawRotation(p) else 1799 - RawRotation(p)
  }

  // ----- Protocol V

  datatype Kind = ToolIn | ToolOut | PenData | SecondAirbrush | MouseData | SecondMouse | Unknown

  function KindOf(head: bv8): Kind {
    if head & 0xFC == 0xC0 then ToolIn
    else if head & 0xFE == 0x80 then ToolOut
    else if head & 0xB8 == 0xA0 then PenData
    else if head & 0xBE == 0xB4 then SecondAirbrush
    else if head & 0xBE == 0xA8 || head & 0xBE == 0xB0 then MouseData
    else if head & 0xBE == 0xAA then SecondMouse
    else Unknown
  }

  /** The tool that a tool id names. */
  function ToolOf(id: int): (tool: int)
    ensures TOOL_PEN <= tool <= TOOL_LENS
  {
    if id in {0x812, 0x012} then TOOL_PENCIL
    else if id in {0x832, 0x032} then TOOL_BRUSH
    else if id in {0x007, 0x09C, 0x094} then TOOL_MOUSE
    else if id == 0x096 then TOOL_LENS
    else if id in {0x82a, 0x85a, 0x91a, 0x0fa} then TOOL_ERASER
    else if id == 0x112 then TOOL_AIRBRUSH
    else TOOL_PEN
  }

  /** The buttons of a pen packet: the tip is pressed above 10, the side switches are in the head. */
  function PenButtons(head: bv8, press: int): bv32 {
    (if press > 10 then TOUCH else 0) | (if head & 2 != 0 then STYLUS else 0) | (if head & 4 != 0 then STYLUS2 else 0)
  }

  /** The five mouse buttons, in the order of their numbers. */
  function MouseButtons(toolId: int, last: bv8): bv32 {
    if toolId == MOUSE_4D then (((last & 0x30) >> 1) | (last & 0x07)) as bv32
    else if toolId == LENS_CURSOR then (last & 0x1F) as bv32
    else ((last & 0x1C) >> 2) as bv32
  }

  /** All but the five mouse buttons. */
  function Others(buttons: bv32): bv32 {
    buttons & 0xFFFF_FFE0
  }

  function MouseValue(previous: bv32, toolId: int, last: bv8): bv32 {
    Joined(previous, MouseButtons(toolId, last))
  }

  function Joined(previous: bv32, five: bv32): bv32 {
    Others(previous) | five
  }

  function MouseWheel(toolId: int, last: bv8): (w: int)
    ensures -1 <= w <= 1
  {
    if toolId == MOUSE_4D || toolId == LENS_CURSOR then 0
    else (if last & 2 != 0 then 1 else 0) - (if last & 1 != 0 then 1 else 0)
  }

  datatype Parsed = Parsed(ok: bool, toolId: int, s: State)

  /** What a packet of protocol V makes of tool id and state. */
  function ParseV(toolId: int, s: State, p: octets): Parsed {
    if |p| != 9 then Parsed(false, toolId, s)
    else
      match KindOf(p[0])
      case ToolIn =>
        Parsed(true, ToolIdOf(p), s.(proximity := 1, serial := Signed(SerialBits(p)), toolType := ToolOf(ToolIdOf(p))))
      case ToolOut => Parsed(true, 0, ZERO_STATE)
      case PenData =>
        Parsed(true, toolId, s.(x := XOf(p), y := YOf(p), tiltX := TiltOf(p[7]), tiltY := TiltOf(p[8]),
                                pressure := TenOf(p), buttons := PenButtons(p[0], TenOf(p)), absWheel := 0))
      case SecondAirbrush =>
        Parsed(true, toolId, s.(x := XOf(p), y := YOf(p), tiltX := TiltOf(p[7]), tiltY := TiltOf(p[8]),
                                pressure := 0, buttons := 0, absWheel := TenOf(p)))
      case MouseData =>
        Parsed(true, toolId, s.(x := XOf(p), y := YOf(p), relWheel := MouseWheel(toolId, p[8]),
                                throttle := if p[8] & 8 != 0 then 0 - TenOf(p) else TenOf(p),
                                buttons := MouseValue(s.buttons, toolId, p[8])))
      case SecondMouse => Parsed(true, toolId, s.(x := XOf(p), y := YOf(p), rotation := RotationOf(p)))
      case Unknown => Parsed(false, toolId, s)
  }

  // ----- The encoder of a pen, and the round trips

  /** Seven bits as the byte that carries them. */
  function Octet(n: nat): (b: bv8)
    requires n < 128
    ensures Seven(b) == n && !High(b)
  {
    SevenOf(n);
    n as bv8
  }

  lemma {:induction false} SevenOf(n: nat)
    requires n < 128
    ensures Seven(n as bv8) == n && !High(n as bv8)
  {
    ByteOf(n);
    SmallByte(n as bv8);
  }

  lemma NextByte(b: bv8)
    requires b < 0x7f
    ensures (b + 1) as int == b as int + 1 && b + 1 < 0x80
  {
  }

  lemma {:induction false} HasByte(n: nat) returns (b: bv8)
    requires n < 128
    ensures b as int == n && b < 0x80
  {
    if n == 0 {
      b := 0;
    } else {
      b := HasByte(n - 1);
      if b < 0x7f {
        NextByte(b);
        b := b + 1;
      }
    }
  }

  lemma ByteAgain(b: bv8)
    ensures (b as int) as bv8 == b
  {
  }

  lemma {:induction false} ByteOf(n: nat)
    requires n < 128
    ensures (n as bv8) as int == n
  {
    var b := HasByte(n);
    ByteAgain(b);
  }

  lemma {:induction false} SmallByte(b: bv8)
    requires b as int < 128
    ensures b & 0x7f == b && !High(b)
  {
    assert b < 0x80;
  }

  lemma {:induction false} OctetOf(b: bv8)
    requires !High(b)
    ensures Octet(Seven(b)) == b
  {
    assert b & 0x7f == b;
  }

  function TiltBits(t: int): nat
    requires -64 <= t <= 63
    ensures TiltBits(t) < 128
  {
    if t < 0 then t + 128 else t
  }

  /** The packet of a pen or airbrush: 16 bits of x, 16 of y, 10 of pressure or wheel, 7 for each tilt. */
  function EncodePen(head: bv8, x: nat, y: nat, ten: nat, tiltX: int, tiltY: int): (p: octets)
    requires x < 0x1_0000 && y < 0x1_0000 && ten < 1024 && -64 <= tiltX <= 63 && -64 <= tiltY <= 63
    ensures |p| == 9
  {
    [head, Octet(x / 512), Octet(x / 4 % 128), Octet(x % 4 * 32 + y / 2048), Octet(y / 16 % 128),
     Octet(y % 16 * 8 + ten / 128), Octet(ten % 128), Octet(TiltBits(tiltX)), Octet(TiltBits(tiltY))]
  }

  /** The announcement of a tool. */
  function EncodeTool(head: bv8, id: nat, serial: nat): (p: octets)
    requires id < 0x1000 && serial < 0x1_0000_0000
    ensures |p| == 9
  {
    [head, Octet(id / 32), Octet(id % 32 * 4 + serial / 0x4000_0000), Octet(serial / 0x80_0000 % 128),
     Octet(serial / 0x1_0000 % 128), Octet(serial / 512 % 128), Octet(serial / 4 % 128), Octet(serial % 4 * 32), Octet(0)]
  }

  lemma {:induction false} Spread16(x: nat)
    requires x < 0x1_0000
    ensures x / 512 * 512 + x / 4 % 128 * 4 + x % 4 == x && x / 512 < 128
    ensures x / 2048 * 2048 + x / 16 % 128 * 16 + x % 16 == x && x / 2048 < 32
  {
    assert x / 4 / 128 == x / 512;
    assert x / 16 / 128 == x / 2048;
  }

  lemma {:induction false} SplitX(a: nat, b: nat, c: nat)
    requires a < 128 && b < 128 && c < 4
    ensures var x := a * 512 + b * 4 + c; x / 512 == a && x / 4 % 128 == b && x % 4 == c
  {
    var x := a * 512 + b * 4 + c;
    assert x / 4 == a * 128 + b;
  }

  lemma {:induction false} SplitY(a: nat, b: nat, c: nat)
    requires a < 32 && b < 128 && c < 16
    ensures var y := a * 2048 + b * 16 + c; y / 2048 == a && y / 16 % 128 == b && y % 16 == c
  {
    var y := a * 2048 + b * 16 + c;
    assert y / 16 == a * 128 + b;
  }

  /** Two numbers that share a byte. */
  lemma Shared(a: nat, b: nat)
    ensures b < 32 ==> (a * 32 + b) / 32 == a && (a * 32 + b) % 32 == b
    ensures b < 8 ==> (a * 8 + b) / 8 == a && (a * 8 + b) % 8 == b
  {
  }

  lemma {:induction false} Reassembled(x: nat, y: nat, ten: nat, a: nat, b: nat, c: nat, d: nat, e: nat, f: nat)
    requires x < 0x1_0000 && y < 0x1_0000 && ten < 1024
    requires a == x / 512 && b == x / 4 % 128 && c == x % 4 * 32 + y / 2048 && d == y / 16 % 128
    requires e == y % 16 * 8 + ten / 128 && f == ten % 128
    ensures a * 512 + b * 4 + c / 32 == x && c % 32 * 2048 + d * 16 + e / 8 == y && e % 8 * 128 + f == ten
  {
    Spread16(x);
    Spread16(y);
    Shared(x % 4, y / 2048);
    Shared(y % 16, ten / 128);
  }

  /** Whatever a pen reports, the parser reads back. */
  lemma {:induction false} PenIsUnderstood(head: bv8, x: nat, y: nat, ten: nat, tiltX: int, tiltY: int)
    requires x < 0x1_0000 && y < 0x1_0000 && ten < 1024 && -64 <= tiltX <= 63 && -64 <= tiltY <= 63
    ensures
      var p := EncodePen(head, x, y, ten, tiltX, tiltY);
      && XOf(p) == x && YOf(p) == y && TenOf(p) == ten && TiltOf(p[7]) == tiltX && TiltOf(p[8]) == tiltY
      && (High(head) ==> InSync(p))
  {
    hide Seven, High, Octet;
    var p := EncodePen(head, x, y, ten, tiltX, tiltY);
    Reassembled(x, y, ten, Seven(p[1]), Seven(p[2]), Seven(p[3]), Seven(p[4]), Seven(p[5]), Seven(p[6]));
  }

  /** Every packet in step is the encoding of what the parser reads from it: with the lemma above, the
      fields and the 56 payload bits determine each other. */
  lemma {:induction false} PenPacketIsEncoded(p: octets)
    requires |p| == 9 && InSync(p)
    ensures p == EncodePen(p[0], XOf(p), YOf(p), TenOf(p), TiltOf(p[7]), TiltOf(p[8]))
  {
    hide High, XOf, YOf, TenOf, TiltOf, TiltBits, Seven, Octet, EncodePen;
    assert !High(p[1]) && !High(p[2]) && !High(p[3]) && !High(p[4]) && !High(p[5]) && !High(p[6]) && !High(p[7]) && !High(p[8]);
    Disassembled(p);
    EncodedBytes(p, XOf(p), YOf(p), TenOf(p), TiltOf(p[7]), TiltOf(p[8]));
  }

  lemma {:induction false} EncodedBytes(p: octets, x: nat, y: nat, ten: nat, tiltX: int, tiltY: int)
    requires x < 0x1_0000 && y < 0x1_0000 && ten < 1024 && -64 <= tiltX <= 63 && -64 <= tiltY <= 63
    requires |p| == 9
    requires !High(p[1]) && !High(p[2]) && !High(p[3]) && !High(p[4]) && !High(p[5]) && !High(p[6]) && !High(p[7]) && !High(p[8])
    requires Seven(p[1]) == x / 512 && Seven(p[2]) == x / 4 % 128 && Seven(p[3]) == x % 4 * 32 + y / 2048
    requires Seven(p[4]) == y / 16 % 128 && Seven(p[5]) == y % 16 * 8 + ten / 128 && Seven(p[6]) == ten % 128
    requires Seven(p[7]) == TiltBits(tiltX) && Seven(p[8]) == TiltBits(tiltY)
    ensures p == EncodePen(p[0], x, y, ten, tiltX, tiltY)
  {
    hide High, Seven, Octet, TiltBits;
    OctetOf(p[1]);
    OctetOf(p[2]);
    OctetOf(p[3]);
    OctetOf(p[4]);
    OctetOf(p[5]);
    OctetOf(p[6]);
    OctetOf(p[7]);
    OctetOf(p[8]);
  }

  lemma {:induction false} Disassembled(p: octets)
    requires |p| == 9
    ensures XOf(p) / 512 == Seven(p[1]) && XOf(p) / 4 % 128 == Seven(p[2])
    ensures XOf(p) % 4 * 32 + YOf(p) / 2048 == Seven(p[3]) && YOf(p) / 16 % 128 == Seven(p[4])
    ensures YOf(p) % 16 * 8 + TenOf(p) / 128 == Seven(p[5]) && TenOf(p) % 128 == Seven(p[6])
    ensures TiltBits(TiltOf(p[7])) == Seven(p[7]) && TiltBits(TiltOf(p[8])) == Seven(p[8])
  {
    hide Seven;
    SplitX(Seven(p[1]), Seven(p[2]), Seven(p[3]) / 32);
    SplitY(Seven(p[3]) % 32, Seven(p[4]), Seven(p[5]) / 8);
  }

  /** A tool's id and serial number are read back. */
  lemma {:induction false} ToolIsUnderstood(head: bv8, id: nat, serial: nat)
    requires id < 0x1000 && serial < 0x1_0000_0000
    ensures
      var p := EncodeTool(head, id, serial);
      ToolIdOf(p) == id && SerialBits(p) == serial && (High(head) ==> InSync(p))
  {
    hide Seven, High, Octet;
    Spread32(serial);
  }

  lemma {:induction false} Spread32(n: nat)
    requires n < 0x1_0000_0000
    ensures n / 0x4000_0000 < 4
    ensures n / 0x4000_0000 * 0x4000_0000 + n / 0x80_0000 % 128 * 0x80_0000 + n / 0x1_0000 % 128 * 0x1_0000
            + n / 512 % 128 * 512 + n / 4 % 128 * 4 + n % 4 == n
  {
    assert n / 4 / 128 == n / 512;
    assert n / 512 / 128 == n / 0x1_0000;
    assert n / 0x1_0000 / 128 == n / 0x80_0000;
    assert n / 0x80_0000 / 128 == n / 0x4000_0000;
  }

  // ----- Ranges

  /** The state after a run of packets. */
  function FeedV(toolId: int, s: State, packets: seq<octets>): Parsed
    decreases |packets|
  {
    if packets == [] then Parsed(true, toolId, s)
    else
      var r := ParseV(toolId, s, packets[0]);
      FeedV(r.toolId, r.s, packets[1..])
  }

  /** Through any run of packets every value stays within the range that was declared for it, and the
      position within 16 bits. */
  lemma {:induction false} ValuesStayInRange(toolId: int, s: State, packets: seq<octets>, maxX: int, maxY: int)
    requires Within(s, DeclaredV(maxX, maxY)) && 0 <= s.x < 0x1_0000 && 0 <= s.y < 0x1_0000
    ensures
      var r := FeedV(toolId, s, packets).s;
      Within(r, DeclaredV(maxX, maxY)) && 0 <= r.x < 0x1_0000 && 0 <= r.y < 0x1_0000
    decreases |packets|
  {
    hide XOf, YOf, TenOf, TiltOf, RotationOf, SerialBits, ToolIdOf, KindOf;
    if packets == [] {
    } else {
      var r := ParseV(toolId, s, packets[0]);
      ValuesStayInRange(r.toolId, r.s, packets[1..], maxX, maxY);
    }
  }

  predicate IsOut(p: octets) {
    |p| == 9 && KindOf(p[0]) == ToolOut
  }

  ghost predicate Left(packets: seq<octets>) {
    exists k | 0 <= k < |packets| :: IsOut(packets[k])
  }

  lemma {:induction false} LeftCons(packets: seq<octets>)
    requires packets != []
    ensures Left(packets) <==> IsOut(packets[0]) || Left(packets[1..])
  {
    hide IsOut;
    var rest := packets[1..];
    assert forall k | 0 <= k < |rest| :: packets[k + 1] == rest[k];
    assert forall k | 1 <= k < |packets| :: packets[k] == rest[k - 1];
  }

  /** The ranges in the state hold until a tool leaves proximity; from then on they are all zero, and a
      value lies in its range only if it is zero. */
  lemma {:induction false} LeavingLosesRanges(toolId: int, s: State, packets: seq<octets>)
    ensures FeedV(toolId, s, packets).s.ranges == if Left(packets) then NO_RANGES else s.ranges
    decreases |packets|
  {
    hide KindOf, XOf, YOf, TenOf, TiltOf, RotationOf, SerialBits, ToolIdOf;
    if packets == [] {
    } else {
      var r := ParseV(toolId, s, packets[0]);
      LeavingLosesRanges(r.toolId, r.s, packets[1..]);
      LeftCons(packets);
    }
  }

  /** The report of a pen as a whole: encoded, checked and parsed it is the report again, and nothing
      but the seven fields it carries changes. The button bits are those of the state by number: 5 for the tip,
      pressed above 10, and 6 and 7 for the side switches, which are bits 1 and 2 of the head. */
  lemma {:induction false} PenReported(toolId: int, s: State, head: bv8, x: nat, y: nat, press: nat, tiltX: int, tiltY: int)
    requires x < 0x1_0000 && y < 0x1_0000 && press < 1024 && -64 <= tiltX <= 63 && -64 <= tiltY <= 63
    requires KindOf(head) == PenData
    ensures
      var p := EncodePen(head, x, y, press, tiltX, tiltY);
      var r := ParseV(toolId, s, p);
      && InSync(p)
      && r == Parsed(true, toolId, s.(x := x, y := y, pressure := press, tiltX := tiltX, tiltY := tiltY, absWheel := 0,
                                      buttons := r.s.buttons))
      && ThreeButtons(r.s.buttons, press > 10, head & 0x02 != 0, head & 0x04 != 0)
  {
    assert High(head) by { HeadIsHigh(head); }
    PenBits(head, press);
    hide Seven, High, Octet, XOf, YOf, TenOf, TiltOf, KindOf, PenButtons, ThreeButtons;
    PenIsUnderstood(head, x, y, press, tiltX, tiltY);
  }

  /** Bits 5, 6 and 7 are set just as said, and no other is. */
  predicate ThreeButtons(buttons: bv32, tip: bool, lower: bool, upper: bool) {
    (buttons & 0x20 != 0 <==> tip) && (buttons & 0x40 != 0 <==> lower) && (buttons & 0x80 != 0 <==> upper)
    && buttons & 0xFFFF_FF1F == 0
  }

  lemma PenBits(head: bv8, press: int)
    ensures ThreeButtons(PenButtons(head, press), press > 10, head & 0x02 != 0, head & 0x04 != 0)
  {
  }

  lemma HeadIsHigh(head: bv8)
    requires KindOf(head) != Unknown
    ensures High(head)
  {
  }

  /** A tool that is announced is in proximity with its id, its serial number as a signed word and its
      kind, and nothing else changes. */
  lemma {:induction false} ToolReported(toolId: int, s: State, head: bv8, id: nat, serial: nat)
    requires id < 0x1000 && serial < 0x1_0000_0000 && KindOf(head) == ToolIn
    ensures
      var p := EncodeTool(head, id, serial);
      && InSync(p)
      && ParseV(toolId, s, p) == Parsed(true, id, s.(proximity := 1, serial := Signed(serial), toolType := ToolOf(id)))
  {
    assert High(head) by { HeadIsHigh(head); }
    hide Seven, High, Octet, ToolIdOf, SerialBits, KindOf;
    ToolIsUnderstood(head, id, serial);
  }

  /** A mouse packet has the layout of a pen packet, with the throttle for the pressure and switches in
      the last byte: the buttons of a 4D mouse are its bits 0, 1, 2, 4 and 5, of a lens cursor 0 to 4, of
      a 2D mouse 2, 3 and 4. The pen's buttons stay as they were. */
  lemma {:induction false} MouseReported(toolId: int, s: State, head: bv8, x: nat, y: nat, throttle: nat, tilt: int, last: bv8)
    requires x < 0x1_0000 && y < 0x1_0000 && throttle < 1024 && -64 <= tilt <= 63
    requires KindOf(head) == MouseData && !High(last)
    ensures
      var p := EncodePen(head, x, y, throttle, tilt, TiltOf(last));
      var r := ParseV(toolId, s, p);
      && InSync(p) && r.ok && r.toolId == toolId
      && r.s == s.(x := x, y := y, throttle := if last & 8 != 0 then -(throttle as int) else throttle,
                   buttons := r.s.buttons, relWheel := r.s.relWheel)
      && r.s.relWheel == (if toolId == 0x094 || toolId == 0x096 || (last & 1 != 0 <==> last & 2 != 0) then 0
                          else if last & 2 != 0 then 1 else -1)
      && Others(r.s.buttons) == Others(s.buttons)
      && (toolId == 0x094 ==> FiveButtons(r.s.buttons, last, 0x01, 0x02, 0x04, 0x10, 0x20))
      && (toolId == 0x096 ==> FiveButtons(r.s.buttons, last, 0x01, 0x02, 0x04, 0x08, 0x10))
      && (toolId != 0x094 && toolId != 0x096 ==> FiveButtons(r.s.buttons, last, 0x04, 0x08, 0x10, 0, 0))
  {
    assert High(head) by { HeadIsHigh(head); }
    var p := EncodePen(head, x, y, throttle, tilt, TiltOf(last));
    assert p[8] == last by { OctetOf(last); TiltAgain(last); }
    PenIsUnderstood(head, x, y, throttle, tilt, TiltOf(last));
    hide Seven, High, Octet, XOf, YOf, TenOf, TiltOf, KindOf, EncodePen, MouseValue, Others, FiveButtons;
    ButtonsReplaced(s.buttons, toolId, last);
  }

  lemma TiltAgain(b: bv8)
    ensures TiltBits(TiltOf(b)) == Seven(b)
  {
  }

  /** Each of the five buttons is reported exactly if its bit is set. */
  predicate FiveButtons(buttons: bv32, last: bv8, left: bv8, middle: bv8, right: bv8, extra: bv8, side: bv8) {
    && (buttons & 0x01 != 0 <==> last & left != 0) && (buttons & 0x02 != 0 <==> last & middle != 0)
    && (buttons & 0x04 != 0 <==> last & right != 0) && (buttons & 0x08 != 0 <==> last & extra != 0)
    && (buttons & 0x10 != 0 <==> last & side != 0)
  }

  lemma {:induction false} ButtonsReplaced(previous: bv32, toolId: int, last: bv8)
    ensures
      var r := MouseValue(previous, toolId, last);
      && Others(r) == Others(previous)
      && (toolId == MOUSE_4D ==> FiveButtons(r, last, 0x01, 0x02, 0x04, 0x10, 0x20))
      && (toolId == LENS_CURSOR ==> FiveButtons(r, last, 0x01, 0x02, 0x04, 0x08, 0x10))
      && (toolId != MOUSE_4D && toolId != LENS_CURSOR ==> FiveButtons(r, last, 0x04, 0x08, 0x10, 0, 0))
  {
    hide Joined, Others, FiveButtons;
    if toolId == MOUSE_4D {
      Buttons4D(previous, last);
    } else if toolId == LENS_CURSOR {
      ButtonsLens(previous, last);
    } else {
      Buttons2D(previous, last);
    }
  }

  lemma Buttons4D(previous: bv32, last: bv8)
    ensures
      var r := Joined(previous, (((last & 0x30) >> 1) | (last & 0x07)) as bv32);
      Others(r) == Others(previous) && FiveButtons(r, last, 0x01, 0x02, 0x04, 0x10, 0x20)
  {
  }

  lemma ButtonsLens(previous: bv32, last: bv8)
    ensures
      var r := Joined(previous, (last & 0x1F) as bv32);
      Others(r) == Others(previous) && FiveButtons(r, last, 0x01, 0x02, 0x04, 0x08, 0x10)
  {
  }

  lemma Buttons2D(previous: bv32, last: bv8)
    ensures
      var r := Joined(previous, ((last & 0x1C) >> 2) as bv32);
      Others(r) == Others(previous) && FiveButtons(r, last, 0x04, 0x08, 0x10, 0, 0)
  {
  }

  /** Two raw angles of a 4D mouse, in tenths of a degree below a full turn, give the same rotation only
      if they are the same, or are the two at the seam, 0 and 1799. */
  lemma {:induction false} RotationsDiffer(p: octets, q: octets)
    requires |p| == |q| == 9
    requires RawRotation(p) < 1800 && RawRotation(q) < 1800
    ensures RotationOf(p) == RotationOf(q)
       <==> RawRotation(p) == RawRotation(q) || {RawRotation(p), RawRotation(q)} == {0, 1799}
  {
    hide Seven;
    if {RawRotation(p), RawRotation(q)} == {0, 1799} {
      assert RawRotation(p) in {0, 1799} && RawRotation(q) in {0, 1799};
    }
  }

  /** From the announcement of a tool until a tool is announced or leaves, whatever else arrives, the
      tool, its id, its serial number and proximity stay. */
  lemma {:induction false} VisitKeepsTool(toolId: int, s: State, packets: seq<octets>)
    requires forall p | p in packets :: |p| == 9 ==> KindOf(p[0]) != ToolIn && KindOf(p[0]) != ToolOut
    ensures
      var r := FeedV(toolId, s, packets);
      && r.toolId == toolId && r.s.toolType == s.toolType && r.s.serial == s.serial && r.s.proximity == s.proximity
      && r.s.ranges == s.ranges
    decreases |packets|
  {
    hide KindOf, XOf, YOf, TenOf, TiltOf, RotationOf, SerialBits, ToolIdOf;
    if packets == [] {
    } else {
      var r := ParseV(toolId, s, packets[0]);
      assert packets[0] in packets && forall p | p in packets[1..] :: p in packets;
      VisitKeepsTool(r.toolId, r.s, packets[1..]);
    }
  }

  // ----- Protocol IV

  predicate InProximity(p: octets)
    requires |p| > 0
  {
    p[0] & 0x40 != 0
  }

  predicate IsStylus(p: octets)
    requires |p| > 0
  {
    p[0] & 0x20 != 0
  }

  /** The eraser, or the second side switch of a pen. */
  predicate EraserBit(p: octets)
    requires |p| > 3
  {
    p[3] & 0x20 != 0
  }

  /** 16 bits: the lower two of byte 0 and bytes 1 and 2. */
  function XOfIV(p: octets): (x: nat)
    requires |p| >= 7
    ensures x < 0x1_0000
  {
    Seven(p[0]) % 4 * 16384 + Seven(p[1]) * 128 + Seven(p[2])
  }

  /** 16 bits: the lower two of byte 3 and bytes 4 and 5. */
  function YOfIV(p: octets): (y: nat)
    requires |p| >= 7
    ensures y < 0x1_0000
  {
    Seven(p[3]) % 4 * 16384 + Seven(p[4]) * 128 + Seven(p[5])
  }

  /** 8 bits: the complement of the sign of byte 6, its lower six and the third of byte 3. */
  function PressOfIV(p: octets): (n: nat)
    requires |p| >= 7
    ensures n < 256
  {
    (if Seven(p[6]) < 64 then 128 else 0) + Seven(p[6]) % 64 * 2 + Seven(p[3]) / 4 % 2
  }

  /** The packet of protocol IV: above the position 5 flags in byte 0 and 4 in byte 3, and the pressure
      split over bytes 3 and 6. */
  function EncodeIV(flags: nat, x: nat, switches: nat, y: nat, press: nat): (p: octets)
    requires flags < 32 && x < 0x1_0000 && switches < 16 && y < 0x1_0000 && press < 256
    ensures |p| == 7
  {
    [Octet(flags * 4 + x / 16384) | 0x80, Octet(x / 128 % 128), Octet(x % 128),
     Octet(switches * 8 + press % 2 * 4 + y / 16384), Octet(y / 128 % 128), Octet(y % 128),
     Octet((if press < 128 then 64 else 0) + press / 2 % 64)]
  }

  lemma {:induction false} HighSet(b: bv8)
    ensures High(b | 0x80) && Seven(b | 0x80) == Seven(b)
  {
    assert (b | 0x80) & 0x7f == b & 0x7f;
  }

  lemma {:induction false} IVBytes(flags: nat, x: nat, switches: nat, y: nat, press: nat)
    requires flags < 32 && x < 0x1_0000 && switches < 16 && y < 0x1_0000 && press < 256
    ensures
      var p := EncodeIV(flags, x, switches, y, press);
      && InSync(p)
      && Seven(p[0]) == flags * 4 + x / 16384 && Seven(p[1]) == x / 128 % 128 && Seven(p[2]) == x % 128
      && Seven(p[3]) == switches * 8 + press % 2 * 4 + y / 16384
      && Seven(p[4]) == y / 128 % 128 && Seven(p[5]) == y % 128
      && Seven(p[6]) == (if press < 128 then 64 else 0) + press / 2 % 64
  {
    hide Seven, High, Octet;
    HighSet(Octet(flags * 4 + x / 16384));
  }

  /** Every position and pressure is read back, whatever the flags and switches. */
  lemma {:induction false} IVIsUnderstood(flags: nat, x: nat, switches: nat, y: nat, press: nat)
    requires flags < 32 && x < 0x1_0000 && switches < 16 && y < 0x1_0000 && press < 256
    ensures
      var p := EncodeIV(flags, x, switches, y, press);
      InSync(p) && XOfIV(p) == x && YOfIV(p) == y && PressOfIV(p) == press
  {
    hide Seven, High, Octet, EncodeIV;
    IVBytes(flags, x, switches, y, press);
    Top(flags, x / 16384);
    Spread14(x);
    Spread14(y);
    Switches(switches, press, y / 16384);
    PressSplit(press, Seven(EncodeIV(flags, x, switches, y, press)[6]));
  }

  lemma Top(flags: nat, top: nat)
    requires top < 4
    ensures (flags * 4 + top) % 4 == top
  {
  }

  lemma {:induction false} Switches(switches: nat, press: nat, top: nat)
    requires top < 4
    ensures (switches * 8 + press % 2 * 4 + top) % 4 == top
    ensures (switches * 8 + press % 2 * 4 + top) / 4 % 2 == press % 2
  {
    assert switches * 8 + press % 2 * 4 + top == 4 * (2 * switches + press % 2) + top;
    assert (switches * 8 + press % 2 * 4 + top) / 4 == 2 * switches + press % 2;
  }

  lemma {:induction false} PressSplit(press: nat, b: nat)
    requires press < 256 && b == (if press < 128 then 64 else 0) + press / 2 % 64
    ensures (if b < 64 then 128 else 0) + b % 64 * 2 + press % 2 == press
  {
    assert press / 2 % 64 == if press < 128 then press / 2 else press / 2 - 64;
  }

  lemma {:induction false} Spread14(x: nat)
    requires x < 0x1_0000
    ensures x / 16384 < 4 && x / 16384 * 16384 + x / 128 % 128 * 128 + x % 128 == x
  {
    assert x / 128 / 128 == x / 16384;
  }

  /** Entering proximity the eraser bit chooses the tool; after that the tool stays. */
  function StylusTool(s: State, p: octets): int
    requires |p| > 3
  {
    if s.proximity != 0 then s.toolType else if EraserBit(p) then TOOL_ERASER else TOOL_PEN
  }

  /** A pen has two side switches, an eraser none. */
  function StylusButtons(tool: int, p: octets): bv32
    requires |p| >= 7
  {
    (if PressOfIV(p) > 10 then TOUCH else 0)
    | (if tool == TOOL_PEN && p[3] & 0x10 != 0 then STYLUS else 0)
    | (if tool == TOOL_PEN && EraserBit(p) then STYLUS2 else 0)
  }

  datatype ParsedIV = ParsedIV(ok: bool, s: State)

  function ParseIV13(s: State, p: octets): ParsedIV {
    if |p| != 7 then ParsedIV(false, s)
    else if !InProximity(p) then
      ParsedIV(true, s.(proximity := 0, toolType := TOOL_NONE, x := 0, y := 0, pressure := 0, buttons := 0))
    else
      var tool := if IsStylus(p) then StylusTool(s, p) else TOOL_MOUSE;
      ParsedIV(true, s.(proximity := 1, toolType := tool, x := XOfIV(p), y := YOfIV(p), pressure := PressOfIV(p),
                        buttons := if IsStylus(p) then StylusButtons(tool, p) else ((p[3] & 0x78) >> 3) as bv32))
  }

  function ParseIV14(s: State, p: octets): ParsedIV {
    if |p| != 7 && |p| != 9 then ParsedIV(false, s)
    else
      var r := ParseIV13(s, p[..7]);
      if |p| == 9 then ParsedIV(r.ok, r.s.(tiltX := TiltOf(p[7]), tiltY := TiltOf(p[8]))) else r
  }

  /** One packet under ROM version 1.3, or from 1.4 on. */
  function ParseIV(s: State, p: octets, tilt: bool): ParsedIV {
    if tilt then ParseIV14(s, p) else ParseIV13(s, p)
  }

  /** The state after a run of packets. */
  function FeedIV(s: State, packets: seq<octets>, tilt: bool): State
    decreases |packets|
  {
    if packets == [] then s
    else ParseIV(FeedIV(s, packets[..|packets| - 1], tilt), packets[|packets| - 1], tilt).s
  }

  predicate Acceptable(p: octets, tilt: bool) {
    |p| == 7 || (tilt && |p| == 9)
  }

  /** All packets can be parsed and have the tool in proximity. */
  predicate Visit(packets: seq<octets>, tilt: bool) {
    forall k | 0 <= k < |packets| :: Acceptable(packets[k], tilt) && InProximity(packets[k])
  }

  predicate AllStylus(packets: seq<octets>)
    requires forall k | 0 <= k < |packets| :: |packets[k]| > 0
  {
    forall k | 0 <= k < |packets| :: IsStylus(packets[k])
  }

  /** What one packet in proximity does to the tool and the buttons. */
  lemma {:induction false} ToolStep(s: State, p: octets, tilt: bool)
    requires Acceptable(p, tilt) && InProximity(p)
    ensures
      var r := ParseIV(s, p, tilt).s;
      && r.proximity == 1
      && r.toolType == (if !IsStylus(p) then TOOL_MOUSE else StylusTool(s, p))
      && (IsStylus(p) ==> (r.buttons & STYLUS2 != 0 <==> r.toolType == TOOL_PEN && EraserBit(p)))
      && (IsStylus(p) ==> (r.buttons & STYLUS != 0 <==> r.toolType == TOOL_PEN && p[3] & 0x10 != 0))
  {
    hide Seven, XOfIV, YOfIV, PressOfIV, TiltOf;
    var tool := StylusTool(s, p);
    ButtonBits(PressOfIV(p[..7]) > 10, tool == TOOL_PEN && p[3] & 0x10 != 0, tool == TOOL_PEN && EraserBit(p));
    assert |p| == 7 ==> p[..7] == p;
  }

  lemma ButtonBits(touch: bool, stylus: bool, stylus2: bool)
    ensures
      var b := (if touch then TOUCH else 0) | (if stylus then STYLUS else 0) | (if stylus2 then STYLUS2 else 0);
      (b & STYLUS2 != 0 <==> stylus2) && (b & STYLUS != 0 <==> stylus) && (b & TOUCH != 0 <==> touch)
  {
  }

  /** Through a whole visit that begins out of proximity the tool is latched: a mouse once a mouse has
      been seen, and until then what the eraser bit of the first packet says. The second side switch
      is reported for a pen only, never while the tool is the eraser. */
  lemma {:induction false} ToolIsLatched(s: State, packets: seq<octets>, tilt: bool)
    requires s.proximity == 0 && packets != [] && Visit(packets, tilt)
    ensures
      var r, last := FeedIV(s, packets, tilt), packets[|packets| - 1];
      && r.proximity == 1
      && r.toolType == (if !AllStylus(packets) then TOOL_MOUSE
                        else if EraserBit(packets[0]) then TOOL_ERASER else TOOL_PEN)
      && (IsStylus(last) ==> (r.buttons & STYLUS2 != 0 <==> r.toolType == TOOL_PEN && EraserBit(last)))
      && (IsStylus(last) ==> (r.buttons & STYLUS != 0 <==> r.toolType == TOOL_PEN && last[3] & 0x10 != 0))
    decreases |packets|
  {
    hide ParseIV, IsStylus, EraserBit;
    var before, last := packets[..|packets| - 1], packets[|packets| - 1];
    ToolStep(FeedIV(s, before, tilt), last, tilt);
    if before == [] {
    } else {
      ToolIsLatched(s, before, tilt);
      AllStylusSnoc(packets);
    }
  }

  lemma {:induction false} AllStylusSnoc(packets: seq<octets>)
    requires packets != [] && forall k | 0 <= k < |packets| :: |packets[k]| > 0
    ensures AllStylus(packets) <==> AllStylus(packets[..|packets| - 1]) && IsStylus(packets[|packets| - 1])
  {
    hide IsStylus;
    var before := packets[..|packets| - 1];
    assert forall k | 0 <= k < |before| :: before[k] == packets[k];
  }

  /** Through any run of packets pressure and tilt stay within the declared ranges, and the position
      within 16 bits. */
  lemma {:induction false} ValuesStayInRangeIV(s: State, packets: seq<octets>, tilt: bool, maxX: int, maxY: int)
    requires Within(s, if tilt then DeclaredIV14(maxX, maxY) else DeclaredIV13(maxX, maxY))
    requires 0 <= s.x < 0x1_0000 && 0 <= s.y < 0x1_0000
    ensures
      var r := FeedIV(s, packets, tilt);
      Within(r, if tilt then DeclaredIV14(maxX, maxY) else DeclaredIV13(maxX, maxY))
      && 0 <= r.x < 0x1_0000 && 0 <= r.y < 0x1_0000
    decreases |packets|
  {
    hide Seven, XOfIV, YOfIV, PressOfIV, TiltOf, InProximity, IsStylus, StylusTool, StylusButtons;
    if packets == [] {
    } else {
      ValuesStayInRangeIV(s, packets[..|packets| - 1], tilt, maxX, maxY);
    }
  }

  // ----- The parsers

  class SerialParser {
    var nToolID: int
    var state: State

    constructor (ranges: Ranges)
      ensures nToolID == 0 && state == ZERO_STATE.(ranges := ranges)
    {
      nToolID, state := 0, ZERO_STATE.(ranges := ranges);
    }

    /** 0 when the packet was understood. */
    method ParseWacomV(puchData: octets) returns (status: int)
      modifies this
      ensures status == if ParseV(old(nToolID), old(state), puchData).ok then 0 else 1
      ensures ParseV(old(nToolID), old(state), puchData) == Parsed(status == 0, nToolID, state)
    {
      if |puchData| != 9 {
        return 1;
      }
      var head := puchData[0];
      if head & 0xFC == 0xC0 {
        ParseToolIn(puchData);
        return 0;
      }
      if head & 0xFE == 0x80 {
        nToolID := 0;
        state := ZERO_STATE;
        return 0;
      }
      if head & 0xB8 == 0xA0 || head & 0xBE == 0xB4 {
        ParsePen(puchData);
        return 0;
      }
      if head & 0xBE == 0xA8 || head & 0xBE == 0xB0 {
        ParseMouse(puchData);
        return 0;
      }
      if head & 0xBE == 0xAA {
        ParseSecondMouse(puchData);
        return 0;
      }
      return 1;
    }

    method ParseToolIn(puchData: octets)
      requires |puchData| == 9
      modifies this
      ensures nToolID == ToolIdOf(puchData)
      ensures state == old(state).(proximity := 1, serial := Signed(SerialBits(puchData)), toolType := ToolOf(nToolID))
    {
      hide ToolIdOf, SerialBits;
      var toolid := ToolId(puchData);
      var serial := SerialNumber(puchData);
      var tool := ToolOf(toolid);
      nToolID := toolid;
      state := state.(proximity := 1);
      state := state.(serial := Signed(serial));
      state := state.(toolType := tool);
    }

    method ToolId(puchData: octets) returns (id: int)
      requires |puchData| == 9
      ensures id == ToolIdOf(puchData)
    {
      id := (((puchData[1] as bv32 & 0x7F) << 5) | ((puchData[2] as bv32 & 0x7C) >> 2)) as int;
      ToolIdBits(puchData[1], puchData[2]);
    }

    method SerialNumber(puchData: octets) returns (serial: nat)
      requires |puchData| == 9
      ensures serial == SerialBits(puchData)
    {
      serial := (((puchData[2] as bv32 & 0x03) << 30) | ((puchData[3] as bv32 & 0x7f) << 23)
                 | ((puchData[4] as bv32 & 0x7f) << 16) | ((puchData[5] as bv32 & 0x7f) << 9)
                 | ((puchData[6] as bv32 & 0x7f) << 2) | ((puchData[7] as bv32 & 0x60) >> 5)) as int;
      SerialNumberBits(puchData[2], puchData[3], puchData[4], puchData[5], puchData[6], puchData[7]);
    }

    method Ten(puchData: octets) returns (ten: int)
      requires |puchData| == 9
      ensures ten == TenOf(puchData)
    {
      ten := (((puchData[5] as bv32 & 0x07) << 7) | (puchData[6] as bv32 & 0x7f)) as int;
      TenBits(puchData[5], puchData[6]);
    }

    method Rotation(puchData: octets) returns (rot: int)
      requires |puchData| == 9
      ensures rot == RotationOf(puchData)
    {
      rot := (((puchData[6] as bv32 & 0x0f) << 7) | (puchData[7] as bv32 & 0x7f)) as int;
      RotationBits(puchData[6], puchData[7]);
      if rot < 900 {
        rot := -rot;
      } else {
        rot := 1799 - rot;
      }
    }

    method Position(puchData: octets) returns (x: int, y: int)
      requires |puchData| == 9
      ensures x == XOf(puchData) && y == YOf(puchData)
    {
      x := (((puchData[1] as bv32 & 0x7f) << 9) | ((puchData[2] as bv32 & 0x7f) << 2)
            | ((puchData[3] as bv32 & 0x60) >> 5)) as int;
      y := (((puchData[3] as bv32 & 0x1f) << 11) | ((puchData[4] as bv32 & 0x7f) << 4)
            | ((puchData[5] as bv32 & 0x78) >> 3)) as int;
      XBits(puchData[1], puchData[2], puchData[3]);
      YBits(puchData[3], puchData[4], puchData[5]);
    }

    method Tilt(b: bv8) returns (tilt: int)
      ensures tilt == TiltOf(b)
    {
      tilt := (b & 0x3F) as int;
      if b & 0x40 != 0 {
        tilt := tilt - 0x40;
      }
      TiltBit(b);
    }

    method ParsePen(puchData: octets)
      requires |puchData| == 9 && KindOf(puchData[0]) in {PenData, SecondAirbrush}
      modifies this`state
      ensures ParseV(nToolID, old(state), puchData) == Parsed(true, nToolID, state)
    {
      hide XOf, YOf, TenOf, TiltOf;
      var press, wheel, button := 0, 0, 0 as bv32;
      var x, y := Position(puchData);
      var tiltx := Tilt(puchData[7]);
      var tilty := Tilt(puchData[8]);
      var ten := Ten(puchData);
      if puchData[0] & 0xB8 == 0xA0 {
        press := ten;
        button := if press > 10 then TOUCH else 0;
        button := button | if puchData[0] & 0x02 != 0 then STYLUS else 0;
        button := button | if puchData[0] & 0x04 != 0 then STYLUS2 else 0;
      } else {
        wheel := ten;
      }
      state := state.(x := x);
      state := state.(y := y);
      state := state.(tiltX := tiltx);
      state := state.(tiltY := tilty);
      state := state.(pressure := press);
      state := state.(buttons := button);
      state := state.(absWheel := wheel);
    }

    method ParseMouse(puchData: octets)
      requires |puchData| == 9 && KindOf(puchData[0]) == MouseData
      modifies this`state
      ensures ParseV(nToolID, old(state), puchData) == Parsed(true, nToolID, state)
    {
      hide XOf, YOf, TenOf, MouseButtons, MouseWheel;
      var x, y := Position(puchData);
      var throttle := Ten(puchData);
      if puchData[8] & 0x08 != 0 {
        throttle := -throttle;
      }
      var button, wheel := ButtonsAndWheel(puchData[8]);
      state := state.(x := x);
      state := state.(y := y);
      state := state.(relWheel := wheel);
      state := state.(throttle := throttle);
      var nButtonValue := ButtonValue(state.buttons, button);
      state := state.(buttons := nButtonValue);
    }

    method ButtonsAndWheel(last: bv8) returns (button: bv32, wheel: int)
      ensures button & 0x1F == MouseButtons(nToolID, last) && wheel == MouseWheel(nToolID, last)
    {
      wheel := 0;
      if nToolID == MOUSE_4D {
        button := (((last & 0x70) >> 1) | (last & 0x07)) as bv32;
      } else if nToolID == LENS_CURSOR {
        button := (last & 0x1F) as bv32;
      } else {
        button := ((last & 0x1C) >> 2) as bv32;
        wheel := -((last & 1) as int) + ((last & 2) >> 1) as int;
        WheelBits(last);
      }
      MouseButtonBits(last);
    }

    /** The five mouse buttons replaced, the others as they were. */
    static method ButtonValue(previous: bv32, button: bv32) returns (nButtonValue: bv32)
      ensures nButtonValue == (previous & 0xFFFF_FFE0) | (button & 0x1F)
    {
      var left := if button & 1 != 0 then LEFT else 0;
      var middle := if button & 2 != 0 then MIDDLE else 0;
      var right := if button & 4 != 0 then RIGHT else 0;
      var extra := if button & 8 != 0 then EXTRA else 0;
      var side := if button & 16 != 0 then SIDE else 0;
      nButtonValue := Replaced(previous, button, left, middle, right, extra, side);
    }

    static method Replaced(previous: bv32, ghost button: bv32, left: bv32, middle: bv32, right: bv32, extra: bv32, side: bv32)
      returns (nButtonValue: bv32)
      requires left == (if button & 1 != 0 then 0x01 else 0) && middle == (if button & 2 != 0 then 0x02 else 0)
      requires right == (if button & 4 != 0 then 0x04 else 0) && extra == (if button & 8 != 0 then 0x08 else 0)
      requires side == (if button & 16 != 0 then 0x10 else 0)
      ensures nButtonValue == (previous & 0xFFFF_FFE0) | (button & 0x1F)
    {
      nButtonValue := previous & !(0x01 | 0x04 | 0x02 | 0x08 | 0x10);
      nButtonValue := nButtonValue | left;
      nButtonValue := nButtonValue | middle;
      nButtonValue := nButtonValue | right;
      nButtonValue := nButtonValue | extra;
      nButtonValue := nButtonValue | side;
      FiveReplaced(previous, button, left, middle, right, extra, side);
    }

    method ParseSecondMouse(puchData: octets)
      requires |puchData| == 9 && KindOf(puchData[0]) == SecondMouse
      modifies this`state
      ensures ParseV(nToolID, old(state), puchData) == Parsed(true, nToolID, state)
    {
      hide XOf, YOf, RotationOf;
      var x, y := Position(puchData);
      var rot := Rotation(puchData);
      state := state.(x := x);
      state := state.(y := y);
      state := state.(rotation := rot);
    }

    method ParseWacomIV13(puchData: octets) returns (status: int)
      requires |puchData| == 7 ==> InSync(puchData)
      modifies this`state
      ensures status == if ParseIV13(old(state), puchData).ok then 0 else 1
      ensures ParseIV13(old(state), puchData) == ParsedIV(status == 0, state)
    {
      hide XOfIV, YOfIV, PressOfIV;
      if |puchData| != 7 {
        return 1;
      }
      var x, y, press, tool := 0, 0, 0, TOOL_NONE;
      var button: bv32 := 0;
      var prox := if puchData[0] & 0x40 != 0 then 1 else 0;
      if prox != 0 {
        var stylus := puchData[0] & 0x20 != 0;
        press := PressureIV(puchData);
        var eraser := puchData[3] & 0x20 != 0;
        if stylus {
          if state.proximity == 0 {
            if eraser {
              tool := TOOL_ERASER;
            } else {
              tool := TOOL_PEN;
            }
          } else {
            tool := state.toolType;
          }
          button := if press > 10 then TOUCH else 0;
          if tool == TOOL_PEN {
            button := button | if puchData[3] & 0x10 != 0 then STYLUS else 0;
            button := button | if eraser then STYLUS2 else 0;
          }
        } else {
          tool := TOOL_MOUSE;
          button := ((puchData[3] & 0x78) >> 3) as bv32;
        }
        x, y := PositionIV(puchData);
      }
      state := state.(proximity := prox);
      state := state.(toolType := tool);
      state := state.(x := x);
      state := state.(y := y);
      state := state.(pressure := press);
      state := state.(buttons := button);
      return 0;
    }

    method PressureIV(puchData: octets) returns (press: int)
      requires |puchData| == 7
      ensures press == PressOfIV(puchData)
    {
      var bits := ((puchData[6] & 0x3F) << 1) | ((puchData[3] & 0x4) >> 2);
      bits := bits | if puchData[6] & 0x40 != 0 then 0 else 0x80;
      PressBits(puchData[6], puchData[3], bits);
      press := bits as int;
    }

    method PositionIV(puchData: octets) returns (x: int, y: int)
      requires |puchData| == 7 && InSync(puchData)
      ensures x == XOfIV(puchData) && y == YOfIV(puchData)
    {
      x := Sixteen(puchData[0], puchData[1], puchData[2]);
      y := Sixteen(puchData[3], puchData[4], puchData[5]);
    }

    method Sixteen(a: bv8, b: bv8, c: bv8) returns (n: int)
      requires !High(b) && !High(c)
      ensures n == Seven(a) % 4 * 16384 + Seven(b) * 128 + Seven(c)
    {
      n := (c as bv32 | (b as bv32 << 7) | ((a as bv32 & 0x3) << 14)) as int;
      PositionBits(a, b, c);
    }

    method ParseWacomIV14(puchData: octets) returns (status: int)
      requires |puchData| == 7 || |puchData| == 9 ==> InSync(puchData)
      modifies this`state
      ensures status == if ParseIV14(old(state), puchData).ok then 0 else 1
      ensures ParseIV14(old(state), puchData) == ParsedIV(status == 0, state)
    {
      hide InProximity, IsStylus, StylusTool, StylusButtons, XOfIV, YOfIV, PressOfIV, TiltOf;
      if |puchData| != 7 && |puchData| != 9 {
        return 1;
      }
      status := ParseWacomIV13(puchData[..7]);
      if status != 0 {
        return 1;
      }
      if |puchData| == 9 {
        var tiltx := Tilt(puchData[7]);
        var tilty := Tilt(puchData[8]);
        state := state.(tiltX := tiltx);
        state := state.(tiltY := tilty);
      }
      return 0;
    }
  }

  // ----- From bits to numbers

  lemma Fields(b: bv8)
    ensures ((b & 0x60) >> 5) as int == Seven(b) / 32 && (b & 0x1f) as int == Seven(b) % 32
    ensures ((b & 0x78) >> 3) as int == Seven(b) / 8 && (b & 0x07) as int == Seven(b) % 8
    ensures ((b & 0x7c) >> 2) as int == Seven(b) / 4 && (b & 0x03) as int == Seven(b) % 4
    ensures (b & 0x0f) as int == Seven(b) % 16
  {
  }

  lemma {:induction false} XBits(a: bv8, b: bv8, c: bv8)
    ensures (((a as bv32 & 0x7f) << 9) | ((b as bv32 & 0x7f) << 2) | ((c as bv32 & 0x60) >> 5)) as int
         == Seven(a) * 512 + Seven(b) * 4 + Seven(c) / 32
  {
    Fields(c);
    assert (((a as bv32 & 0x7f) << 9) | ((b as bv32 & 0x7f) << 2) | ((c as bv32 & 0x60) >> 5)) as int
        == (a & 0x7f) as int * 512 + (b & 0x7f) as int * 4 + ((c & 0x60) >> 5) as int;
  }

  lemma {:induction false} YBits(a: bv8, b: bv8, c: bv8)
    ensures (((a as bv32 & 0x1f) << 11) | ((b as bv32 & 0x7f) << 4) | ((c as bv32 & 0x78) >> 3)) as int
         == Seven(a) % 32 * 2048 + Seven(b) * 16 + Seven(c) / 8
  {
    Fields(a);
    Fields(c);
    assert (((a as bv32 & 0x1f) << 11) | ((b as bv32 & 0x7f) << 4) | ((c as bv32 & 0x78) >> 3)) as int
        == (a & 0x1f) as int * 2048 + (b & 0x7f) as int * 16 + ((c & 0x78) >> 3) as int;
  }

  lemma {:induction false} TenBits(a: bv8, b: bv8)
    ensures (((a as bv32 & 0x07) << 7) | (b as bv32 & 0x7f)) as int == Seven(a) % 8 * 128 + Seven(b)
  {
    Fields(a);
    assert (((a as bv32 & 0x07) << 7) | (b as bv32 & 0x7f)) as int == (a & 0x07) as int * 128 + (b & 0x7f) as int;
  }

  lemma {:induction false} RotationBits(a: bv8, b: bv8)
    ensures (((a as bv32 & 0x0f) << 7) | (b as bv32 & 0x7f)) as int == Seven(a) % 16 * 128 + Seven(b)
  {
    Fields(a);
    assert (((a as bv32 & 0x0f) << 7) | (b as bv32 & 0x7f)) as int == (a & 0x0f) as int * 128 + (b & 0x7f) as int;
  }

  lemma {:induction false} ToolIdBits(a: bv8, b: bv8)
    ensures (((a as bv32 & 0x7F) << 5) | ((b as bv32 & 0x7C) >> 2)) as int == Seven(a) * 32 + Seven(b) / 4
  {
    Fields(b);
    assert (((a as bv32 & 0x7F) << 5) | ((b as bv32 & 0x7C) >> 2)) as int == (a & 0x7f) as int * 32 + ((b & 0x7c) >> 2) as int;
  }

  lemma {:induction false} SerialNumberBits(a: bv8, b: bv8, c: bv8, d: bv8, e: bv8, f: bv8)
    ensures (((a as bv32 & 0x03) << 30) | ((b as bv32 & 0x7f) << 23) | ((c as bv32 & 0x7f) << 16)
             | ((d as bv32 & 0x7f) << 9) | ((e as bv32 & 0x7f) << 2) | ((f as bv32 & 0x60) >> 5)) as int
         == Seven(a) % 4 * 0x4000_0000 + Seven(b) * 0x80_0000 + Seven(c) * 0x1_0000 + Seven(d) * 512
            + Seven(e) * 4 + Seven(f) / 32
  {
    Fields(a);
    Fields(f);
    assert (((a as bv32 & 0x03) << 30) | ((b as bv32 & 0x7f) << 23) | ((c as bv32 & 0x7f) << 16)
            | ((d as bv32 & 0x7f) << 9) | ((e as bv32 & 0x7f) << 2) | ((f as bv32 & 0x60) >> 5)) as int
        == (a & 0x03) as int * 0x4000_0000 + (b & 0x7f) as int * 0x80_0000 + (c & 0x7f) as int * 0x1_0000
           + (d & 0x7f) as int * 512 + (e & 0x7f) as int * 4 + ((f & 0x60) >> 5) as int;
  }

  lemma TiltBit(b: bv8)
    ensures (b & 0x3F) as int == Seven(b) % 64 && (b & 0x40 != 0 <==> Seven(b) >= 64)
  {
  }

  lemma {:induction false} PressBits(a: bv8, b: bv8, bits: bv8)
    requires bits == ((a & 0x3F) << 1) | ((b & 0x4) >> 2) | (if a & 0x40 != 0 then 0 else 0x80)
    ensures bits as int == (if Seven(a) < 64 then 128 else 0) + Seven(a) % 64 * 2 + Seven(b) / 4 % 2
  {
    TiltBit(a);
    assert bits as int == (if a & 0x40 != 0 then 0 else 128) + (a & 0x3f) as int * 2 + ((b & 0x4) >> 2) as int;
    Fields(b);
    LowBit((b & 0x7c) >> 2);
    assert (b & 0x4) >> 2 == ((b & 0x7c) >> 2) & 1;
  }

  lemma LowBit(b: bv8)
    ensures (b & 1) as int == b as int % 2
  {
  }

  lemma {:induction false} PositionBits(a: bv8, b: bv8, c: bv8)
    requires !High(b) && !High(c)
    ensures (c as bv32 | (b as bv32 << 7) | ((a as bv32 & 0x3) << 14)) as int == Seven(a) % 4 * 16384 + Seven(b) * 128 + Seven(c)
  {
    Fields(a);
    assert b & 0x7f == b && c & 0x7f == c;
    assert (c as bv32 | (b as bv32 << 7) | ((a as bv32 & 0x3) << 14)) as int == (a & 0x03) as int * 16384 + b as int * 128 + c as int;
  }

  lemma WheelBits(last: bv8)
    ensures (last & 1) as int == (if last & 1 != 0 then 1 else 0) && ((last & 2) >> 1) as int == (if last & 2 != 0 then 1 else 0)
  {
  }

  lemma MouseButtonBits(last: bv8)
    ensures (((last & 0x70) >> 1) | (last & 0x07)) as bv32 & 0x1F == (((last & 0x30) >> 1) | (last & 0x07)) as bv32
    ensures (last & 0x1F) as bv32 & 0x1F == (last & 0x1F) as bv32
    ensures ((last & 0x1C) >> 2) as bv32 & 0x1F == ((last & 0x1C) >> 2) as bv32
  {
  }

  lemma FiveBits(previous: bv32, button: bv32)
    ensures (previous & !(0x01 | 0x04 | 0x02 | 0x08 | 0x10))
            | (button & 1) | (button & 2) | (button & 4) | (button & 8) | (button & 16)
         == (previous & 0xFFFF_FFE0) | (button & 0x1F)
  {
  }

  lemma OneBit(button: bv32)
    ensures button & 1 == (if button & 1 != 0 then 0x01 else 0)
    ensures button & 2 == (if button & 2 != 0 then 0x02 else 0)
    ensures button & 4 == (if button & 4 != 0 then 0x04 else 0)
    ensures button & 8 == (if button & 8 != 0 then 0x08 else 0)
    ensures button & 16 == (if button & 16 != 0 then 0x10 else 0)
  {
  }

  lemma {:induction false} FiveReplaced(previous: bv32, button: bv32, l: bv32, m: bv32, r: bv32, e: bv32, s: bv32)
    requires l == (if button & 1 != 0 then 0x01 else 0) && m == (if button & 2 != 0 then 0x02 else 0)
    requires r == (if button & 4 != 0 then 0x04 else 0) && e == (if button & 8 != 0 then 0x08 else 0)
    requires s == (if button & 16 != 0 then 0x10 else 0)
    ensures (previous & !(0x01 | 0x04 | 0x02 | 0x08 | 0x10)) | l | m | r | e | s == (previous & 0xFFFF_FFE0) | (button & 0x1F)
  {
    FiveBits(previous, button);
    OneBit(button);
  }
}
