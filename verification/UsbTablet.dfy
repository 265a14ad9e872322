/** The USB tablet driver, wacom/wacusb.c, for kernels that end a report with SYN_REPORT: events are
    buffered until the report is complete and then replayed into the channel of the tool that they
    belong to. */
module UsbTablet {
  import opened Bytes
  import opened TabletState

  const MAX_CHANNELS: nat := 2
  const MAX_USB_EVENTS: nat := 32

  const EV_SYN := 0
  const EV_KEY := 1
  const EV_REL := 2
  const EV_ABS := 3
  const EV_MSC := 4
  const SYN_REPORT := 0
  const MSC_SERIAL := 0

  const BTN_LEFT := 0x110
  const BTN_RIGHT := 0x111
  const BTN_MIDDLE := 0x112
  const BTN_SIDE := 0x113
  const BTN_EXTRA := 0x114
  const BTN_TOOL_PEN := 0x140
  const BTN_TOOL_RUBBER := 0x141
  const BTN_TOOL_BRUSH := 0x142
  const BTN_TOOL_PENCIL := 0x143
  const BTN_TOOL_AIRBRUSH := 0x144
  const BTN_TOOL_FINGER := 0x145
  const BTN_TOOL_MOUSE := 0x146
  const BTN_TOOL_LENS := 0x147
  const BTN_TOUCH := 0x14a
  const BTN_STYLUS := 0x14b
  const BTN_STYLUS2 := 0x14c
  const BTN_TOOL_DOUBLETAP := 0x14d

  const ABS_X := 0x00
  const ABS_Y := 0x01
  const ABS_RZ := 0x05
  const ABS_THROTTLE := 0x06
  const ABS_WHEEL := 0x08
  const ABS_PRESSURE := 0x18
  const ABS_DISTANCE := 0x19
  const ABS_TILT_X := 0x1a
  const ABS_TILT_Y := 0x1b
  const REL_WHEEL := 0x08

  /** A struct input_event without its time. */
  datatype Event = Event(kind: int, code: int, value: int)

  /** What is fixed for a tablet: its channels, whether it reports serial numbers, its pad keys. */
  datatype Config = Config(channelCnt: nat, hasSerial: bool, padKeys: seq<int>)

  predicate Supported(k: Config) {
    1 <= k.channelCnt <= MAX_CHANNELS && |k.padKeys| <= 24
  }

  type config = k: Config | Supported(k) witness Config(1, false, [])

  // ----- One channel

  function Bit(k: nat): bv32
    requires k < 32
  {
    1 << k
  }

  function Both(x: bv32, y: bv32): bv32 {
    x & y
  }

  predicate Meets(x: bv32, y: bv32) {
    Both(x, y) != 0
  }

  function Join(x: bv32, y: bv32): bv32 {
    x | y
  }

  function Mask(x: bv32, y: bv32): bv32 {
    x & !y
  }

  predicate Has(bits: bv32, k: nat)
    requires k < 32
  {
    Meets(bits, Bit(k))
  }

  function With(bits: bv32, k: nat): bv32
    requires k < 32
  {
    Join(bits, Bit(k))
  }

  function Without(bits: bv32, k: nat): bv32
    requires k < 32
  {
    Mask(bits, Bit(k))
  }

  lemma {:induction false} JoinMeets(x: bv32, y: bv32, z: bv32)
    ensures Meets(Join(x, y), z) <==> Meets(x, z) || Meets(y, z)
  {
    assert (x | y) & z == (x & z) | (y & z);
  }

  lemma MaskMisses(x: bv32, y: bv32)
    ensures !Meets(Mask(x, y), y)
  {
  }

  lemma {:induction false} MaskMeets(x: bv32, y: bv32, z: bv32)
    requires !Meets(y, z)
    ensures Meets(Mask(x, y), z) <==> Meets(x, z)
  {
    MaskedBoth(x, y, z);
    hide Both, Mask;
  }

  lemma {:induction false} MaskedBoth(x: bv32, y: bv32, z: bv32)
    requires Both(y, z) == 0
    ensures Both(Mask(x, y), z) == Both(x, z)
  {
    Regrouped(x, y, z);
    Outside(y, z);
  }

  lemma Regrouped(x: bv32, y: bv32, z: bv32)
    ensures z == (y & z) | (z & !y) && (x & !y) & z == x & (z & !y)
  {
  }

  lemma {:induction false} Outside(y: bv32, z: bv32)
    requires y & z == 0
    ensures z & !y == z
  {
    Regrouped(0, y, z);
    Zero(z & !y);
  }

  lemma Zero(z: bv32)
    ensures 0 | z == z
  {
  }

  lemma {:induction false} Bits(k: nat, j: nat)
    requires k < 32 && j < 32
    ensures Meets(Bit(k), Bit(j)) <==> k == j
  {
    if k == j {
      OneBit(k);
    } else {
      Disjoint(k, j);
    }
    hide Bit;
  }

  lemma OneBit(k: nat)
    requires k < 32
    ensures Both(Bit(k), Bit(k)) != 0
  {
  }

  lemma Disjoint(k: nat, j: nat)
    requires k < 32 && j < 32 && k != j
    ensures Both(Bit(k), Bit(j)) == 0
  {
  }

  /** Setting or clearing a bit changes no other. */
  lemma {:induction false} SetAndClear(bits: bv32, k: nat, j: nat)
    requires k < 32 && j < 32
    ensures Has(With(bits, k), j) <==> j == k || Has(bits, j)
    ensures Has(Without(bits, k), j) <==> j != k && Has(bits, j)
  {
    hide Meets, Join, Mask, Bit;
    Bits(k, j);
    JoinMeets(bits, Bit(k), Bit(j));
    if j == k {
      MaskMisses(bits, Bit(k));
    } else {
      MaskMeets(bits, Bit(k), Bit(j));
    }
  }

  /** The state of a channel and the set of tools in proximity, a bit for each. */
  datatype Channel = Channel(s: State, tools: bv32)

  /** USBParseMSC, which also handles EV_SYN events: SYN_REPORT and MSC_SERIAL are the same number. */
  function OnMsc(c: Channel, e: Event): Channel {
    var serial := if e.code == MSC_SERIAL && e.value != 0 then e.value else c.s.serial;
    c.(s := c.s.(serial := if c.s.proximity == 0 then 0 else serial))
  }

  /** The place of the first pad key with the code, or -1. */
  function PadKey(code: int, padKeys: seq<int>): (i: int)
    ensures -1 <= i < |padKeys|
  {
    if padKeys == [] then -1
    else if padKeys[0] == code then 0
    else if PadKey(code, padKeys[1..]) == -1 then -1
    else 1 + PadKey(code, padKeys[1..])
  }

  function ToolOf(code: int): (tool: nat)
    ensures tool < TOOL_MAX
  {
    if code == BTN_TOOL_PEN then TOOL_PEN
    else if code == BTN_TOOL_PENCIL then TOOL_PENCIL
    else if code == BTN_TOOL_BRUSH then TOOL_BRUSH
    else if code == BTN_TOOL_RUBBER then TOOL_ERASER
    else if code == BTN_TOOL_AIRBRUSH then TOOL_AIRBRUSH
    else if code == BTN_TOOL_MOUSE then TOOL_MOUSE
    else if code == BTN_TOOL_FINGER then TOOL_PAD
    else if code == BTN_TOOL_LENS then TOOL_LENS
    else if code == BTN_TOOL_DOUBLETAP then TOOL_TOUCH
    else TOOL_NONE
  }

  /** The number of the button, or -1. */
  function ButtonOf(code: int, padKeys: seq<int>): (button: int)
    requires |padKeys| <= 24
    ensures -1 <= button < 32
  {
    if code == BTN_LEFT then 0
    else if code == BTN_MIDDLE then 1
    else if code == BTN_RIGHT then 2
    else if code == BTN_EXTRA then 3
    else if code == BTN_SIDE then 4
    else if code == BTN_TOUCH then 5
    else if code == BTN_STYLUS then 6
    else if code == BTN_STYLUS2 then 7
    else if ToolOf(code) != TOOL_NONE || PadKey(code, padKeys) == -1 then -1
    else 8 + PadKey(code, padKeys)
  }

  function WithButton(c: Channel, button: nat, down: bool): Channel
    requires button < 32
  {
    c.(s := c.s.(buttons := if down then With(c.s.buttons, button) else Without(c.s.buttons, button)))
  }

  function Enters(c: Channel, tool: nat): Channel
    requires tool < TOOL_MAX
  {
    Channel(c.s.(toolType := tool, proximity := if Has(c.tools, tool) then c.s.proximity else 1), With(c.tools, tool))
  }

  /** The highest tool of the set below `n`, or none. */
  function Highest(tools: bv32, n: nat): (tool: nat)
    requires n <= TOOL_MAX
    ensures tool == 0 || (tool < n && Has(tools, tool))
    ensures forall j | 1 <= j < n && Has(tools, j) :: j <= tool
    decreases n
  {
    if n <= 1 then 0 else if Has(tools, n - 1) then n - 1 else Highest(tools, n - 1)
  }

  /** Without serial numbers there is only one tool. When nobody is left everything is zeroed, the
      ranges too. */
  function Leaves(c: Channel, tool: nat, hasSerial: bool): Channel
    requires tool < TOOL_MAX
  {
    var tools := if hasSerial then Without(c.tools, tool) else 0;
    if tools == 0 then Channel(ZERO_STATE, 0)
    else Channel(c.s.(proximity := 0, toolType := Highest(tools, TOOL_MAX)), tools)
  }

  function OnKey(c: Channel, e: Event, k: config): Channel {
    var button := ButtonOf(e.code, k.padKeys);
    var tool := ToolOf(e.code);
    if button != -1 then WithButton(c, button, e.value != 0)
    else if tool == TOOL_NONE then c
    else if e.value != 0 then Enters(c, tool)
    else Leaves(c, tool, k.hasSerial)
  }

  function OnAbs(c: Channel, e: Event): Channel {
    if e.code == ABS_X then c.(s := c.s.(x := e.value))
    else if e.code == ABS_Y then c.(s := c.s.(y := e.value))
    else if e.code == ABS_RZ then c.(s := c.s.(rotation := e.value))
    else if e.code == ABS_DISTANCE then c.(s := c.s.(distance := e.value))
    else if e.code == ABS_PRESSURE then c.(s := c.s.(pressure := e.value))
    else if e.code == ABS_TILT_X then c.(s := c.s.(tiltX := e.value))
    else if e.code == ABS_TILT_Y then c.(s := c.s.(tiltY := e.value))
    else if e.code == ABS_WHEEL then c.(s := c.s.(absWheel := e.value))
    else if e.code == ABS_THROTTLE then c.(s := c.s.(throttle := e.value))
    else c
  }

  function OnRel(c: Channel, e: Event): Channel {
    if e.code == REL_WHEEL then c.(s := c.s.(relWheel := e.value)) else c
  }

  predicate Known(e: Event) {
    e.kind == EV_SYN || e.kind == EV_KEY || e.kind == EV_REL || e.kind == EV_ABS || e.kind == EV_MSC
  }

  function Dispatch(c: Channel, e: Event, k: config): Channel
    requires Known(e)
  {
    if e.kind == EV_SYN || e.kind == EV_MSC then OnMsc(c, e)
    else if e.kind == EV_KEY then OnKey(c, e, k)
    else if e.kind == EV_ABS then OnAbs(c, e)
    else OnRel(c, e)
  }

  /** The channel after the first `n` events. */
  function Replay(c: Channel, events: seq<Event>, n: nat, k: config): Channel
    requires n <= |events| && AllKnown(events[..n])
    decreases n
  {
    if n == 0 then c
    else
      Earlier(events, n);
      Dispatch(Replay(c, events, n - 1, k), events[n - 1], k)
  }

  lemma {:induction false} Earlier(events: seq<Event>, n: nat)
    requires 0 < n <= |events| && AllKnown(events[..n])
    ensures AllKnown(events[..n - 1]) && Known(events[n - 1])
  {
    assert events[..n][n - 1] == events[n - 1];
    assert forall i | 0 <= i < n - 1 :: events[..n - 1][i] == events[..n][i];
  }

  predicate AllKnown(events: seq<Event>) {
    forall i | 0 <= i < |events| :: Known(events[i])
  }

  // ----- What every event keeps in a channel

  /** The tool type is none exactly when no tool is in proximity, and one of those that are otherwise;
      the set holds nothing but tools; and proximity is reported only while the set is not empty. */
  predicate ToolsOk(c: Channel) {
    && c.tools & 0xFFFF_FC01 == 0
    && (c.s.toolType == TOOL_NONE <==> c.tools == 0)
    && (c.tools != 0 ==> TOOL_PEN <= c.s.toolType < TOOL_MAX && Has(c.tools, c.s.toolType))
    && (c.s.proximity == 0 || c.s.proximity == 1)
    && (c.s.proximity == 1 ==> c.tools != 0)
  }

  lemma ToolBits(tools: bv32, tool: nat)
    requires 1 <= tool < TOOL_MAX && tools & 0xFFFF_FC01 == 0
    ensures With(tools, tool) & 0xFFFF_FC01 == 0 && With(tools, tool) != 0 && Has(With(tools, tool), tool)
    ensures Without(tools, tool) & 0xFFFF_FC01 == 0
  {
  }

  lemma {:induction false} SomeTool(tools: bv32) returns (j: nat)
    requires tools & 0xFFFF_FC01 == 0 && tools != 0
    ensures 1 <= j < TOOL_MAX && Has(tools, j)
  {
    assert tools & 0x002 != 0 || tools & 0x004 != 0 || tools & 0x008 != 0 || tools & 0x010 != 0 || tools & 0x020 != 0
        || tools & 0x040 != 0 || tools & 0x080 != 0 || tools & 0x100 != 0 || tools & 0x200 != 0;
    j := if Has(tools, 1) then 1 else if Has(tools, 2) then 2 else if Has(tools, 3) then 3
         else if Has(tools, 4) then 4 else if Has(tools, 5) then 5 else if Has(tools, 6) then 6
         else if Has(tools, 7) then 7 else if Has(tools, 8) then 8 else 9;
  }

  lemma {:induction false} LeavesOk(c: Channel, tool: nat, hasSerial: bool)
    requires ToolsOk(c) && 1 <= tool < TOOL_MAX
    ensures ToolsOk(Leaves(c, tool, hasSerial))
  {
    hide Bit, Has, With, Without;
    ToolBits(c.tools, tool);
    var tools := if hasSerial then Without(c.tools, tool) else 0;
    if tools != 0 {
      var j := SomeTool(tools);
    }
  }

  lemma {:induction false} EntersOk(c: Channel, tool: nat)
    requires ToolsOk(c) && 1 <= tool < TOOL_MAX
    ensures ToolsOk(Enters(c, tool))
  {
    hide Bit, Has, With, Without;
    ToolBits(c.tools, tool);
  }

  /** Every event keeps the tools of its channel consistent. */
  lemma {:induction false} EventKeepsTools(c: Channel, e: Event, k: config)
    requires ToolsOk(c) && Known(e)
    ensures ToolsOk(Dispatch(c, e, k))
  {
    hide Bit, Has, ButtonOf, Enters, Leaves;
    if e.kind == EV_KEY && ButtonOf(e.code, k.padKeys) == -1 && ToolOf(e.code) != TOOL_NONE {
      if e.value != 0 {
        EntersOk(c, ToolOf(e.code));
      } else {
        LeavesOk(c, ToolOf(e.code), k.hasSerial);
      }
    }
  }

  lemma {:induction false} ReplayKeepsTools(c: Channel, events: seq<Event>, n: nat, k: config)
    requires ToolsOk(c) && n <= |events| && AllKnown(events[..n])
    ensures ToolsOk(Replay(c, events, n, k))
    decreases n
  {
    hide ToolsOk, Dispatch;
    if n == 0 {
    } else {
      Earlier(events, n);
      ReplayKeepsTools(c, events, n - 1, k);
      EventKeepsTools(Replay(c, events, n - 1, k), events[n - 1], k);
    }
  }

  /** When one tool of several leaves, the tool type becomes the highest of those left. Proximity is
      zero from then on, though tools are left. */
  lemma {:induction false} DepartureLeavesHighest(c: Channel, e: Event, k: config, other: nat)
    requires e.kind == EV_KEY && e.value == 0 && ToolOf(e.code) != TOOL_NONE && k.hasSerial
    requires 1 <= other < TOOL_MAX && other != ToolOf(e.code) && Has(c.tools, other)
    ensures
      var r := Dispatch(c, e, k);
      && r.s.proximity == 0 && Has(r.tools, other) && !Has(r.tools, ToolOf(e.code))
      && other <= r.s.toolType < TOOL_MAX && Has(c.tools, r.s.toolType) && r.s.toolType != ToolOf(e.code)
      && (forall j | r.s.toolType < j < TOOL_MAX && j != ToolOf(e.code) :: !Has(c.tools, j))
      && r == Channel(c.s.(proximity := 0, toolType := r.s.toolType), r.tools)
  {
    var tool := ToolOf(e.code);
    var tools := Without(c.tools, tool);
    ToolIsNoButton(e.code, k.padKeys);
    forall j | 1 <= j < TOOL_MAX
      ensures Has(tools, j) <==> j != tool && Has(c.tools, j)
    {
      SetAndClear(c.tools, tool, j);
    }
    NotEmpty(tools, other);
    hide Bit, Has, With, Without;
    assert Has(tools, Highest(tools, TOOL_MAX));
  }

  /** Proximity is reported exactly while tools are there. */
  predicate ProximityOk(c: Channel) {
    c.s.proximity == 1 <==> c.tools != 0
  }

  /** A tool leaves and others are left. */
  predicate LeavesOthers(c: Channel, e: Event, k: config) {
    && e.kind == EV_KEY && e.value == 0 && ToolOf(e.code) != TOOL_NONE
    && k.hasSerial && Without(c.tools, ToolOf(e.code)) != 0
  }

  /** Where proximity was reported exactly while tools were there, it is after an event just when that
      is not a departure that leaves others. */
  lemma {:induction false} ProximityStaysIff(c: Channel, e: Event, k: config)
    requires ToolsOk(c) && ProximityOk(c) && Known(e)
    ensures ProximityOk(Dispatch(c, e, k)) <==> !LeavesOthers(c, e, k)
  {
    if ToolOf(e.code) != TOOL_NONE {
      ToolIsNoButton(e.code, k.padKeys);
      ToolBits(c.tools, ToolOf(e.code));
      MemberOnly(c, ToolOf(e.code));
    }
    hide With, Without, Has, ButtonOf, ToolOf, Highest;
  }

  /** A set that already has the tool is not empty. */
  lemma {:induction false} MemberOnly(c: Channel, tool: nat)
    requires tool < 32
    ensures Has(c.tools, tool) ==> c.tools != 0
  {
    hide Bit;
  }

  lemma {:induction false} NotEmpty(bits: bv32, j: nat)
    requires j < 32 && Has(bits, j)
    ensures bits != 0
  {
    hide Bit;
  }

  lemma ToolIsNoButton(code: int, padKeys: seq<int>)
    requires |padKeys| <= 24 && ToolOf(code) != TOOL_NONE
    ensures ButtonOf(code, padKeys) == -1
  {
  }

  /** When the last tool leaves, or any tool of a tablet without serial numbers, the whole channel is
      zeroed, ranges included. */
  lemma {:induction false} LastDepartureZeroes(c: Channel, e: Event, k: config)
    requires e.kind == EV_KEY && e.value == 0 && ToolOf(e.code) != TOOL_NONE
    requires !k.hasSerial || forall j | 0 <= j < 32 && j != ToolOf(e.code) :: !Has(c.tools, j)
    ensures Dispatch(c, e, k) == Channel(ZERO_STATE, 0)
  {
    var tool := ToolOf(e.code);
    ToolIsNoButton(e.code, k.padKeys);
    if k.hasSerial {
      var tools := Without(c.tools, tool);
      forall j | 0 <= j < 32
        ensures !Has(tools, j)
      {
        SetAndClear(c.tools, tool, j);
      }
      NoBits(tools);
    }
  }

  lemma {:induction false} NoBits(bits: bv32)
    requires forall j | 0 <= j < 32 :: !Has(bits, j)
    ensures bits == 0
  {
    hide Has;
    NoLowBits(bits);
    NoHighBits(bits);
  }

  lemma {:induction false} NoLowBits(bits: bv32)
    requires forall j | 0 <= j < 16 :: !Has(bits, j)
    ensures bits & 0x0000_FFFF == 0
  {
    assert !Has(bits, 0) && !Has(bits, 1) && !Has(bits, 2) && !Has(bits, 3) && !Has(bits, 4) && !Has(bits, 5)
        && !Has(bits, 6) && !Has(bits, 7) && !Has(bits, 8) && !Has(bits, 9) && !Has(bits, 10) && !Has(bits, 11)
        && !Has(bits, 12) && !Has(bits, 13) && !Has(bits, 14) && !Has(bits, 15);
  }

  lemma {:induction false} NoHighBits(bits: bv32)
    requires forall j | 16 <= j < 32 :: !Has(bits, j)
    ensures bits & 0xFFFF_0000 == 0
  {
    assert !Has(bits, 16) && !Has(bits, 17) && !Has(bits, 18) && !Has(bits, 19) && !Has(bits, 20) && !Has(bits, 21)
        && !Has(bits, 22) && !Has(bits, 23) && !Has(bits, 24) && !Has(bits, 25) && !Has(bits, 26) && !Has(bits, 27)
        && !Has(bits, 28) && !Has(bits, 29) && !Has(bits, 30) && !Has(bits, 31);
  }

  /** A button event changes that button only, and nothing else in the channel. */
  lemma {:induction false} ButtonEvent(c: Channel, e: Event, k: config, j: nat)
    requires e.kind == EV_KEY && ButtonOf(e.code, k.padKeys) != -1 && j < 32
    ensures
      var r := Dispatch(c, e, k);
      && (Has(r.s.buttons, j) <==> if j == ButtonOf(e.code, k.padKeys) then e.value != 0 else Has(c.s.buttons, j))
      && r == c.(s := c.s.(buttons := r.s.buttons))
  {
    hide Bit, Has, ButtonOf, With, Without;
    SetAndClear(c.s.buttons, ButtonOf(e.code, k.padKeys), j);
  }

  // ----- The tablet: buffering and routing

  datatype TabletRecord = TabletRecord(channels: seq<Channel>, nChannel: nat, lastSerial: int, buffered: seq<Event>)

  type Tablet = t: TabletRecord | |t.channels| == MAX_CHANNELS && t.nChannel < MAX_CHANNELS
    witness TabletRecord([Channel(ZERO_STATE, 0), Channel(ZERO_STATE, 0)], 0, 0, [])

  predicate IsSerial(e: Event) {
    e.kind == EV_MSC && e.code == MSC_SERIAL
  }

  predicate IsReport(e: Event) {
    e.kind == EV_SYN && e.code == SYN_REPORT
  }

  /** The first channel from `i` on that holds the serial number. */
  function WithSerial(channels: seq<Channel>, serial: int, i: nat): (r: Option<nat>)
    ensures r.Some? ==> i <= r.value < |channels| && channels[r.value].s.serial == serial
    ensures forall j | i <= j < (if r.Some? then r.value else |channels|) :: channels[j].s.serial != serial
    decreases |channels| - i
  {
    if i >= |channels| then None
    else if channels[i].s.serial == serial then Some(i)
    else WithSerial(channels, serial, i + 1)
  }

  /** The first channel from `i` on without a tool. */
  function Vacant(channels: seq<Channel>, i: nat): (r: Option<nat>)
    ensures r.Some? ==> i <= r.value < |channels| && channels[r.value].tools == 0
    ensures forall j | i <= j < (if r.Some? then r.value else |channels|) :: channels[j].tools != 0
    decreases |channels| - i
  {
    if i >= |channels| then None
    else if channels[i].tools == 0 then Some(i)
    else Vacant(channels, i + 1)
  }

  /** The channel of the buffered report. A tablet with one channel always uses that. */
  function Route(t: Tablet, k: config): (r: Option<nat>)
    ensures r.Some? ==> r.value < MAX_CHANNELS
  {
    if k.channelCnt <= 1 then Some(t.nChannel)
    else
      match WithSerial(t.channels[..k.channelCnt], t.lastSerial, 0)
      case Some(i) => Some(i)
      case None => Vacant(t.channels[..k.channelCnt], 0)
  }

  /** The index of the first event of an unknown kind. */
  function Stop(events: seq<Event>, i: nat): (n: nat)
    requires i <= |events| && AllKnown(events[..i])
    ensures i <= n <= |events| && AllKnown(events[..n]) && (n < |events| ==> !Known(events[n]))
    decreases |events| - i
  {
    if i == |events| || !Known(events[i]) then i
    else
      assert events[..i + 1] == events[..i] + [events[i]];
      Stop(events, i + 1)
  }

  datatype Fed = Fed(result: int, t: Tablet)

  /** A complete report is replayed into its channel. An event of an unknown kind ends the replay and
      leaves the buffer as it is. */
  function Report(t: Tablet, k: config): Fed {
    match Route(t, k)
    case None => Fed(-1, t.(nChannel := 0, buffered := [], lastSerial := 0))
    case Some(ch) =>
      var c := t.channels[ch];
      var n := Stop(t.buffered, 0);
      var t' := t.(nChannel := ch, channels := t.channels[ch := Replay(c.(s := c.s.(relWheel := 0)), t.buffered, n, k)]);
      if n < |t.buffered| then Fed(t.buffered[n].kind, t') else Fed(0, t'.(buffered := [], lastSerial := 0))
  }

  /** USBParseData. */
  function Feed(t: Tablet, e: Event, k: config): Fed {
    if |t.buffered| >= MAX_USB_EVENTS then Fed(-1, t.(buffered := [], lastSerial := 0))
    else
      var t' := t.(buffered := t.buffered + [e]);
      if IsSerial(e) then Fed(0, t'.(lastSerial := e.value))
      else if IsReport(e) then Report(t', k)
      else Fed(0, t')
  }

  function Run(t: Tablet, events: seq<Event>, k: config): Tablet
    decreases |events|
  {
    if events == [] then t else Run(Feed(t, events[0], k).t, events[1..], k)
  }

  /** The tablet as it is initialized: both channels the same, nothing in proximity. */
  function Start(ranges: Ranges): Tablet {
    var c := Channel(ZERO_STATE.(ranges := ranges), 0);
    TabletRecord([c, c], 0, 0, [])
  }

  // ----- The buffer

  /** The value of the last MSC_SERIAL event, or 0. */
  function LastSerial(events: seq<Event>): int {
    if events == [] then 0
    else if IsSerial(events[|events| - 1]) then events[|events| - 1].value
    else LastSerial(events[..|events| - 1])
  }

  predicate Bookkept(t: Tablet) {
    |t.buffered| <= MAX_USB_EVENTS && t.lastSerial == LastSerial(t.buffered)
  }

  /** On every path, the error paths included, the buffer stays within its bounds, the serial number
      kept is that of the last buffered MSC_SERIAL event, and the buffer either grows by one event or
      is emptied; a full buffer is emptied. */
  lemma {:induction false} FeedKeepsBooks(t: Tablet, e: Event, k: config)
    requires Bookkept(t)
    ensures
      var t' := Feed(t, e, k).t;
      && Bookkept(t')
      && (t'.buffered == [] || t'.buffered == t.buffered + [e])
      && (|t.buffered| == MAX_USB_EVENTS ==> t'.buffered == [])
  {
    hide Route, Replay, Stop;
    var b := t.buffered + [e];
    assert b[..|b| - 1] == t.buffered;
  }

  /** At most 32 calls pass before one empties the buffer. */
  lemma {:induction false} EmptiedWithin(t: Tablet, events: seq<Event>, k: config) returns (n: nat)
    requires Bookkept(t) && |events| + |t.buffered| == MAX_USB_EVENTS + 1
    ensures n <= |events| && n > 0 && Run(t, events[..n], k).buffered == []
    decreases |events|
  {
    hide Feed;
    var t' := Feed(t, events[0], k).t;
    FeedKeepsBooks(t, events[0], k);
    if t'.buffered == [] {
      n := 1;
      assert events[..1][1..] == [];
    } else {
      n := EmptiedWithin(t', events[1..], k);
      assert events[..n + 1][1..] == events[1..][..n];
      n := n + 1;
    }
  }

  // ----- Serial numbers and channels

  /** The serial number that replaying the first `n` events stores last, or 0. */
  function Stored(events: seq<Event>, n: nat): int
    requires n <= |events|
    decreases n
  {
    if n == 0 then 0
    else
      var e := events[n - 1];
      if (e.kind == EV_SYN || e.kind == EV_MSC) && e.code == MSC_SERIAL && e.value != 0 then e.value
      else Stored(events, n - 1)
  }

  /** A report whose events are all known and that stores no other serial number than that which it is
      routed by. */
  predicate Coherent(events: seq<Event>) {
    AllKnown(events) && Stored(events, |events|) == LastSerial(events)
  }

  /** Reports with at most one distinct serial number, whose SYN events carry the value 0, are coherent. */
  lemma {:induction false} OneSerialIsCoherent(events: seq<Event>, serial: int)
    requires AllKnown(events)
    requires forall e | e in events && IsSerial(e) :: e.value == serial
    requires forall e | e in events && e.kind == EV_SYN && e.code == SYN_REPORT :: e.value == 0
    ensures Coherent(events)
  {
    StoredIsLast(events, |events|, serial);
    assert events[..|events|] == events;
  }

  lemma {:induction false} StoredIsLast(events: seq<Event>, n: nat, serial: int)
    requires n <= |events|
    requires forall e | e in events && IsSerial(e) :: e.value == serial
    requires forall e | e in events && e.kind == EV_SYN && e.code == SYN_REPORT :: e.value == 0
    ensures Stored(events, n) == LastSerial(events[..n])
    ensures Stored(events, n) in {0, serial}
    decreases n
  {
    if n == 0 {
    } else {
      StoredIsLast(events, n - 1, serial);
      assert events[n - 1] in events;
      assert events[..n][..n - 1] == events[..n - 1];
    }
  }

  /** What one event does to the serial number. */
  lemma {:induction false} SerialStep(c: Channel, e: Event, k: config)
    requires Known(e)
    ensures
      var r := Dispatch(c, e, k).s.serial;
      r == 0 || r == if (e.kind == EV_SYN || e.kind == EV_MSC) && e.code == MSC_SERIAL && e.value != 0 then e.value
                     else c.s.serial
  {
    hide With, Without, Has, ButtonOf, ToolOf, Highest;
  }

  /** After a replay the channel holds no serial number, or the one stored last, or its own if none was
      stored. */
  lemma {:induction false} SerialAfter(c: Channel, events: seq<Event>, n: nat, k: config)
    requires n <= |events| && AllKnown(events[..n])
    ensures
      var r := Replay(c, events, n, k).s.serial;
      r == 0 || r == if Stored(events, n) != 0 then Stored(events, n) else c.s.serial
    decreases n
  {
    hide Dispatch;
    if n == 0 {
    } else {
      Earlier(events, n);
      SerialAfter(c, events, n - 1, k);
      SerialStep(Replay(c, events, n - 1, k), events[n - 1], k);
    }
  }

  /** A channel out of proximity holds no serial number, and no two channels hold the same. */
  predicate SerialsOk(t: Tablet, k: config) {
    && t.nChannel < k.channelCnt
    && (forall i | 0 <= i < k.channelCnt :: t.channels[i].s.proximity == 0 ==> t.channels[i].s.serial == 0)
    && (forall i, j | 0 <= i < j < k.channelCnt ::
          t.channels[i].s.serial == t.channels[j].s.serial ==> t.channels[i].s.serial == 0)
  }

  predicate AllToolsOk(t: Tablet) {
    forall i | 0 <= i < MAX_CHANNELS :: ToolsOk(t.channels[i])
  }

  /** A report is routed to the channel that holds its serial number; a fresh serial number goes to a
      channel without a tool, which holds none. */
  lemma {:induction false} RouteIs(t: Tablet, k: config)
    requires SerialsOk(t, k) && AllToolsOk(t) && k.channelCnt > 1
    ensures
      match Route(t, k)
      case Some(ch) =>
        && ch < k.channelCnt
        && (t.channels[ch].s.serial == t.lastSerial
            || (t.channels[ch].s.serial == 0 && forall i | 0 <= i < k.channelCnt :: t.channels[i].s.serial != t.lastSerial))
      case None => forall i | 0 <= i < k.channelCnt :: t.channels[i].s.serial != t.lastSerial && t.channels[i].tools != 0
  {
    var channels := t.channels[..k.channelCnt];
    assert forall i | 0 <= i < k.channelCnt :: channels[i] == t.channels[i];
    hide WithSerial, Vacant;
  }

  lemma {:induction false} AllKnownStops(events: seq<Event>)
    requires AllKnown(events)
    ensures Stop(events, 0) == |events| && AllKnown(events[..|events|])
  {
    assert events[..|events|] == events;
    hide Stop;
  }

  /** After a coherent report the channel holds no serial number, or that by which the report was
      routed, or, if it was routed by none, its own; out of proximity it holds none. */
  lemma {:induction false} ReportSerial(c: Channel, events: seq<Event>, k: config)
    requires Coherent(events) && events != [] && IsReport(events[|events| - 1])
    ensures AllKnown(events[..|events|])
    ensures
      var s, r := LastSerial(events), Replay(c, events, |events|, k).s;
      && (r.serial == 0 || r.serial == if s != 0 then s else c.s.serial)
      && (r.proximity == 0 ==> r.serial == 0)
  {
    hide OnKey, OnAbs, OnRel;
    AllKnownStops(events);
    SerialAfter(c, events, |events|, k);
    Earlier(events, |events|);
  }

  /** When a coherent report is complete serial numbers stay unique, and no channel but that of the
      report changes. */
  lemma {:induction false} ReportKeepsSerials(t: Tablet, k: config)
    requires SerialsOk(t, k) && AllToolsOk(t) && t.lastSerial == LastSerial(t.buffered)
    requires Coherent(t.buffered) && t.buffered != [] && IsReport(t.buffered[|t.buffered| - 1])
    ensures
      var t' := Report(t, k).t;
      && SerialsOk(t', k) && AllToolsOk(t')
      && forall i | 0 <= i < MAX_CHANNELS && i != t'.nChannel :: t'.channels[i] == t.channels[i]
  {
    hide ToolsOk, Replay, Route, Stop, AllKnown, Known, LastSerial, Stored;
    assert k.channelCnt > 1 || Route(t, k) == Some(t.nChannel) by { OneChannel(t, k); }
    if k.channelCnt > 1 {
      RouteIs(t, k);
    }
    match Route(t, k)
    case None =>
    case Some(ch) =>
      var c := t.channels[ch];
      var c' := c.(s := c.s.(relWheel := 0));
      AllKnownStops(t.buffered);
      ReportSerial(c', t.buffered, k);
      assert ToolsOk(c') by { SameTools(c, c'); }
      ReplayKeepsTools(c', t.buffered, |t.buffered|, k);
  }

  lemma OneChannel(t: Tablet, k: config)
    ensures k.channelCnt > 1 || Route(t, k) == Some(t.nChannel)
  {
  }

  lemma SameTools(c: Channel, c': Channel)
    requires ToolsOk(c) && c'.tools == c.tools && c'.s.toolType == c.s.toolType && c'.s.proximity == c.s.proximity
    ensures ToolsOk(c')
  {
  }

  /** Every report that is completed on the way is coherent. */
  predicate CoherentRun(t: Tablet, events: seq<Event>, k: config)
    decreases |events|
  {
    events == []
    || ((|t.buffered| < MAX_USB_EVENTS && IsReport(events[0]) ==> Coherent(t.buffered + [events[0]]))
        && CoherentRun(Feed(t, events[0], k).t, events[1..], k))
  }

  /** Every call keeps that, when a report that it completes is coherent. That covers a full buffer and a
      report for which there is no channel; a report with an event of an unknown kind is not coherent. */
  lemma {:induction false} FeedKeepsSerials(t: Tablet, e: Event, k: config)
    requires SerialsOk(t, k) && AllToolsOk(t) && Bookkept(t)
    requires |t.buffered| < MAX_USB_EVENTS && IsReport(e) ==> Coherent(t.buffered + [e])
    ensures
      var t' := Feed(t, e, k).t;
      && SerialsOk(t', k) && AllToolsOk(t') && Bookkept(t')
      && forall i | 0 <= i < MAX_CHANNELS && i != t'.nChannel :: t'.channels[i] == t.channels[i]
  {
    hide Report, Coherent, ToolsOk;
    FeedKeepsBooks(t, e, k);
    if |t.buffered| < MAX_USB_EVENTS && IsReport(e) {
      var b := t.buffered + [e];
      assert b[..|b| - 1] == t.buffered;
      ReportKeepsSerials(t.(buffered := b), k);
    }
  }

  /** Over every run of coherent reports, full buffers and reports without a channel included, no two
      channels ever hold the same serial number, a channel out of proximity holds none, and the tools of
      every channel are consistent. */
  lemma {:induction false} SerialsStayUnique(t: Tablet, events: seq<Event>, k: config)
    requires SerialsOk(t, k) && AllToolsOk(t) && Bookkept(t) && CoherentRun(t, events, k)
    ensures
      var r := Run(t, events, k);
      SerialsOk(r, k) && AllToolsOk(r) && Bookkept(r)
    decreases |events|
  {
    hide SerialsOk, AllToolsOk, Bookkept, Feed, Coherent;
    if events == [] {
    } else {
      FeedKeepsSerials(t, events[0], k);
      SerialsStayUnique(Feed(t, events[0], k).t, events[1..], k);
    }
  }

  // ----- Exactly when they do

  /** The tools that are there and whether proximity is reported. */
  datatype Presence = Presence(tools: bv32, proximity: int)

  function PresenceOf(c: Channel): Presence {
    Presence(c.tools, c.s.proximity)
  }

  /** Tools come and go; nothing else matters. */
  function ComeOrGo(p: Presence, e: Event, k: config): Presence {
    var tool := ToolOf(e.code);
    if e.kind != EV_KEY || tool == TOOL_NONE then p
    else if e.value != 0 then Presence(With(p.tools, tool), if Has(p.tools, tool) then p.proximity else 1)
    else Presence(if k.hasSerial then Without(p.tools, tool) else 0, 0)
  }

  function PresenceAfter(p: Presence, events: seq<Event>, n: nat, k: config): Presence
    requires n <= |events|
    decreases n
  {
    if n == 0 then p else ComeOrGo(PresenceAfter(p, events, n - 1, k), events[n - 1], k)
  }

  lemma {:induction false} PresenceStep(c: Channel, e: Event, k: config)
    requires Known(e)
    ensures PresenceOf(Dispatch(c, e, k)) == ComeOrGo(PresenceOf(c), e, k)
  {
    if e.kind == EV_KEY && ToolOf(e.code) != TOOL_NONE {
      ToolIsNoButton(e.code, k.padKeys);
    }
    hide With, Without, Has, ButtonOf, ToolOf, Highest;
  }

  lemma {:induction false} ReplayPresence(c: Channel, events: seq<Event>, n: nat, k: config)
    requires n <= |events| && AllKnown(events[..n])
    ensures PresenceOf(Replay(c, events, n, k)) == PresenceAfter(PresenceOf(c), events, n, k)
    decreases n
  {
    hide Dispatch, ComeOrGo;
    if n == 0 {
    } else {
      Earlier(events, n);
      ReplayPresence(c, events, n - 1, k);
      PresenceStep(Replay(c, events, n - 1, k), events[n - 1], k);
    }
  }

  /** The event takes the serial number from the channel: a MSC or SYN event out of proximity, or the
      departure of the last tool. */
  predicate Clears(p: Presence, e: Event, k: config) {
    || ((e.kind == EV_SYN || e.kind == EV_MSC) && p.proximity == 0)
    || (e.kind == EV_KEY && e.value == 0 && ToolOf(e.code) != TOOL_NONE && ComeOrGo(p, e, k).tools == 0)
  }

  /** The number of the first `n` events up to the last that clears, or 0. */
  function Cleared(p: Presence, events: seq<Event>, n: nat, k: config): (r: nat)
    requires n <= |events|
    ensures r <= n
    decreases n
  {
    if n == 0 then 0
    else if Clears(PresenceAfter(p, events, n - 1, k), events[n - 1], k) then n
    else Cleared(p, events, n - 1, k)
  }

  /** The serial number stored last by the events from `from` to `n`, or 0. */
  function StoredSince(events: seq<Event>, from: nat, n: nat): int
    requires n <= |events|
    decreases n
  {
    if n <= from then 0
    else
      var e := events[n - 1];
      if (e.kind == EV_SYN || e.kind == EV_MSC) && e.code == MSC_SERIAL && e.value != 0 then e.value
      else StoredSince(events, from, n - 1)
  }

  /** The serial number that the first `n` events leave in the channel: the one stored last since it was
      last cleared, or its own if it was not cleared and none was stored. */
  function Held(c: Channel, events: seq<Event>, n: nat, k: config): int
    requires n <= |events|
  {
    var from := Cleared(PresenceOf(c), events, n, k);
    var stored := StoredSince(events, from, n);
    if stored != 0 then stored else if from == 0 then c.s.serial else 0
  }

  lemma {:induction false} HeldStep(c: Channel, e: Event, k: config)
    requires Known(e)
    ensures
      var r := Dispatch(c, e, k).s.serial;
      if Clears(PresenceOf(c), e, k) then r == 0
      else if (e.kind == EV_SYN || e.kind == EV_MSC) && e.code == MSC_SERIAL && e.value != 0 then r == e.value
      else r == c.s.serial
  {
    if e.kind == EV_KEY && ToolOf(e.code) != TOOL_NONE {
      ToolIsNoButton(e.code, k.padKeys);
    }
    hide With, Without, Has, ButtonOf, ToolOf, Highest;
  }

  /** That is what the replay leaves. */
  lemma {:induction false} ReplayHolds(c: Channel, events: seq<Event>, n: nat, k: config)
    requires n <= |events| && AllKnown(events[..n])
    ensures Replay(c, events, n, k).s.serial == Held(c, events, n, k)
    decreases n
  {
    hide Dispatch, Clears, ComeOrGo;
    if n == 0 {
    } else {
      Earlier(events, n);
      ReplayHolds(c, events, n - 1, k);
      ReplayPresence(c, events, n - 1, k);
      HeldStep(Replay(c, events, n - 1, k), events[n - 1], k);
    }
  }

  /** A report that is replayed to its end. */
  predicate Whole(events: seq<Event>) {
    AllKnown(events) && events != [] && IsReport(events[|events| - 1])
  }

  /** The buffered report leaves no serial number in its channel, or one that no other channel holds. If it
      is cut short the channel must be in proximity then; if not it is. */
  predicate ReportSafe(t: Tablet, k: config) {
    match Route(t, k)
    case None => true
    case Some(ch) =>
      var c, n := t.channels[ch], Stop(t.buffered, 0);
      var held := Held(c, t.buffered, n, k);
      held == 0 || ((Whole(t.buffered) || PresenceAfter(PresenceOf(c), t.buffered, n, k).proximity != 0)
                    && forall j | 0 <= j < k.channelCnt && j != ch :: t.channels[j].s.serial != held)
  }

  lemma {:induction false} WholeEnds(c: Channel, events: seq<Event>, k: config)
    requires Whole(events)
    ensures Stop(events, 0) == |events| && AllKnown(events[..|events|])
    ensures
      var s := Replay(c, events, |events|, k).s;
      s.proximity == 0 ==> s.serial == 0
  {
    var n := |events|;
    AllKnownStops(events);
    Earlier(events, n);
    ReportEnds(Replay(c, events, n - 1, k), events[n - 1], k);
    hide Stop, Dispatch;
  }

  /** For every report, also one that meets an event of an unknown kind: serial numbers stay unique and
      absent out of proximity exactly if it is safe. */
  lemma {:induction false} ReportSafeIff(t: Tablet, k: config)
    requires SerialsOk(t, k)
    ensures SerialsOk(Report(t, k).t, k) <==> ReportSafe(t, k)
  {
    match Route(t, k)
    case None =>
      NoRoute(t, k);
      hide Route;
    case Some(ch) =>
      RouteInRange(t, k);
      ReportIs(t, ch, k);
      var c, n := t.channels[ch].(s := t.channels[ch].s.(relWheel := 0)), Stop(t.buffered, 0);
      ReplayHolds(c, t.buffered, n, k);
      ReplayPresence(c, t.buffered, n, k);
      if Whole(t.buffered) {
        WholeEnds(c, t.buffered, k);
      }
      assert PresenceOf(c) == PresenceOf(t.channels[ch]);
      assert Held(c, t.buffered, n, k) == Held(t.channels[ch], t.buffered, n, k);
      hide Route, Replay, Stop, Held, Report, Whole, PresenceAfter;
      OneChanged(t, Report(t, k).t, ch, k);
  }

  lemma {:induction false} RouteInRange(t: Tablet, k: config)
    requires t.nChannel < k.channelCnt && Route(t, k).Some?
    ensures Route(t, k).value < k.channelCnt
  {
    hide WithSerial, Vacant;
  }

  lemma {:induction false} OneChanged(t: Tablet, t': Tablet, ch: nat, k: config)
    requires SerialsOk(t, k) && ch < k.channelCnt && t'.nChannel == ch && t'.channels == t.channels[ch := t'.channels[ch]]
    ensures
      var s := t'.channels[ch].s;
      SerialsOk(t', k) <==> s.serial == 0 || (s.proximity != 0
                             && forall j | 0 <= j < k.channelCnt && j != ch :: t.channels[j].s.serial != s.serial)
  {
    assert forall j | 0 <= j < MAX_CHANNELS && j != ch :: t'.channels[j] == t.channels[j];
  }

  lemma {:induction false} StoredSinceStart(events: seq<Event>, n: nat)
    requires n <= |events|
    ensures StoredSince(events, 0, n) == Stored(events, n)
    decreases n
  {
    if n == 0 {
    } else {
      StoredSinceStart(events, n - 1);
    }
  }

  /** A complete report of known events is safe if no other channel holds what it stores last. */
  lemma {:induction false} StoredSuffices(t: Tablet, k: config, ch: nat)
    requires SerialsOk(t, k) && Route(t, k) == Some(ch)
    requires Whole(t.buffered)
    requires
      var stored := Stored(t.buffered, |t.buffered|);
      stored == 0 || forall j | 0 <= j < k.channelCnt && j != ch :: t.channels[j].s.serial != stored
    ensures SerialsOk(Report(t, k).t, k)
  {
    var b, n := t.buffered, |t.buffered|;
    var c := t.channels[ch];
    AllKnownStops(b);
    RouteInRange(t, k);
    SerialAfter(c, b, n, k);
    ReplayHolds(c, b, n, k);
    hide Route, Replay, Stop, Held, Report, Stored, Whole, PresenceAfter;
    ReportSafeIff(t, k);
  }

  lemma ReportEnds(c: Channel, e: Event, k: config)
    requires IsReport(e)
    ensures Dispatch(c, e, k).s.proximity == 0 ==> Dispatch(c, e, k).s.serial == 0
  {
  }

  predicate NoDepartures(events: seq<Event>) {
    forall e | e in events :: e.kind == EV_KEY && ToolOf(e.code) != TOOL_NONE ==> e.value != 0
  }

  /** In proximity events without departures clear nothing. */
  lemma {:induction false} NothingCleared(p: Presence, events: seq<Event>, n: nat, k: config)
    requires n <= |events| && NoDepartures(events) && p.proximity == 1
    ensures Cleared(p, events, n, k) == 0 && PresenceAfter(p, events, n, k).proximity == 1
    decreases n
  {
    hide ToolOf, With, Has;
    if n == 0 {
    } else {
      NothingCleared(p, events, n - 1, k);
      assert events[n - 1] in events;
    }
  }

  /** For a report without departures whose channel is in proximity the condition is exact: serial
      numbers stay unique if and only if no other channel holds what the report stores last. */
  lemma {:induction false} StoredDecides(t: Tablet, k: config, ch: nat)
    requires SerialsOk(t, k) && Route(t, k) == Some(ch) && t.channels[ch].s.proximity == 1
    requires AllKnown(t.buffered) && NoDepartures(t.buffered)
    ensures
      var stored := Stored(t.buffered, |t.buffered|);
      SerialsOk(Report(t, k).t, k)
      <==> stored == 0 || forall j | 0 <= j < k.channelCnt && j != ch :: t.channels[j].s.serial != stored
  {
    var c := t.channels[ch];
    AllKnownStops(t.buffered);
    RouteInRange(t, k);
    NothingCleared(PresenceOf(c), t.buffered, |t.buffered|, k);
    StoredSinceStart(t.buffered, |t.buffered|);
    assert Held(c, t.buffered, |t.buffered|, k)
        == if Stored(t.buffered, |t.buffered|) != 0 then Stored(t.buffered, |t.buffered|) else t.channels[ch].s.serial;
    hide Route, Replay, Stop, Held, Report, Stored, PresenceAfter;
    ReportSafeIff(t, k);
  }

  /** Every report that is completed on the way is safe. */
  predicate SafeRun(t: Tablet, events: seq<Event>, k: config)
    decreases |events|
  {
    events == []
    || ((|t.buffered| < MAX_USB_EVENTS && IsReport(events[0]) ==> ReportSafe(t.(buffered := t.buffered + [events[0]]), k))
        && SafeRun(Feed(t, events[0], k).t, events[1..], k))
  }

  lemma {:induction false} FeedSafeIff(t: Tablet, e: Event, k: config)
    requires SerialsOk(t, k)
    ensures SerialsOk(Feed(t, e, k).t, k)
       <==> (|t.buffered| < MAX_USB_EVENTS && IsReport(e) ==> ReportSafe(t.(buffered := t.buffered + [e]), k))
  {
    hide Report, ReportSafe;
    ReportSafeIff(t.(buffered := t.buffered + [e]), k);
  }

  /** Exactly over the runs of safe reports serial numbers are unique, and absent out of proximity, after
      every call. */
  lemma {:induction false} UniqueIff(t: Tablet, events: seq<Event>, k: config)
    requires SerialsOk(t, k)
    ensures SafeRun(t, events, k) <==> forall n | 0 <= n <= |events| :: SerialsOk(Run(t, events[..n], k), k)
    decreases |events|
  {
    hide SerialsOk, Feed, ReportSafe;
    if events == [] {
      assert forall n | 0 <= n <= |events| :: events[..n] == [];
    } else {
      var t', rest := Feed(t, events[0], k).t, events[1..];
      FeedSafeIff(t, events[0], k);
      assert events[..0] == [];
      forall n | 1 <= n <= |events|
        ensures Run(t, events[..n], k) == Run(t', rest[..n - 1], k)
      {
        assert events[..n][0] == events[0] && events[..n][1..] == rest[..n - 1];
      }
      assert rest[..0] == [] && Run(t, events[..1], k) == Run(t', rest[..0], k) == t';
      if SerialsOk(t', k) {
        UniqueIff(t', rest, k);
        if SafeRun(t, events, k) {
          forall n | 0 <= n <= |events|
            ensures SerialsOk(Run(t, events[..n], k), k)
          {
            if n == 0 {
            } else {
              assert Run(t, events[..n], k) == Run(t', rest[..n - 1], k);
            }
          }
        } else {
          var m :| 0 <= m <= |rest| && !SerialsOk(Run(t', rest[..m], k), k);
          assert Run(t, events[..m + 1], k) == Run(t', rest[..m], k);
        }
      }
    }
  }

  /** Coherent reports are safe. */
  lemma {:induction false} CoherentRunIsSafe(t: Tablet, events: seq<Event>, k: config)
    requires SerialsOk(t, k) && AllToolsOk(t) && Bookkept(t) && CoherentRun(t, events, k)
    ensures SafeRun(t, events, k)
    decreases |events|
  {
    hide SerialsOk, AllToolsOk, Bookkept, Feed, Coherent, ReportSafe;
    if events == [] {
    } else {
      FeedKeepsSerials(t, events[0], k);
      FeedSafeIff(t, events[0], k);
      CoherentRunIsSafe(Feed(t, events[0], k).t, events[1..], k);
    }
  }

  /** From the start: exactly the runs of safe reports keep serial numbers unique, and those of coherent
      reports are among them. */
  lemma {:induction false} FromTheStart(ranges: Ranges, events: seq<Event>, k: config)
    ensures SafeRun(Start(ranges), events, k) <==> forall n | 0 <= n <= |events| :: SerialsOk(Run(Start(ranges), events[..n], k), k)
    ensures CoherentRun(Start(ranges), events, k) ==> SafeRun(Start(ranges), events, k)
  {
    StartIsOk(ranges, k);
    hide SerialsOk, AllToolsOk, Bookkept, Run, SafeRun, CoherentRun, Start;
    UniqueIff(Start(ranges), events, k);
    if CoherentRun(Start(ranges), events, k) {
      CoherentRunIsSafe(Start(ranges), events, k);
    }
  }

  lemma StartIsOk(ranges: Ranges, k: config)
    ensures SerialsOk(Start(ranges), k) && AllToolsOk(Start(ranges)) && Bookkept(Start(ranges))
  {
  }

  /** A tool whose serial number a channel holds is routed back to that channel. */
  lemma {:induction false} RoutedBack(t: Tablet, e: Event, k: config, i: nat)
    requires SerialsOk(t, k) && AllToolsOk(t) && i < k.channelCnt && |t.buffered| < MAX_USB_EVENTS && IsReport(e)
    requires t.channels[i].s.serial == t.lastSerial != 0
    ensures Feed(t, e, k).t.nChannel == i
    ensures forall j | 0 <= j < MAX_CHANNELS && j != i :: Feed(t, e, k).t.channels[j] == t.channels[j]
  {
    hide ToolsOk, Replay, Route, Stop;
    var t' := t.(buffered := t.buffered + [e]);
    OneChannel(t', k);
    if k.channelCnt > 1 {
      RouteIs(t', k);
    }
  }

  /** Whatever the events, the tools of every channel stay consistent. */
  lemma {:induction false} RunKeepsTools(t: Tablet, events: seq<Event>, k: config)
    requires AllToolsOk(t)
    ensures AllToolsOk(Run(t, events, k))
    decreases |events|
  {
    hide AllToolsOk, Feed;
    if events == [] {
    } else {
      FeedKeepsTools(t, events[0], k);
      RunKeepsTools(Feed(t, events[0], k).t, events[1..], k);
    }
  }

  lemma {:induction false} FeedKeepsTools(t: Tablet, e: Event, k: config)
    requires AllToolsOk(t)
    ensures AllToolsOk(Feed(t, e, k).t)
  {
    hide ToolsOk, Replay, Route, Stop;
    var t' := t.(buffered := t.buffered + [e]);
    if |t.buffered| < MAX_USB_EVENTS && IsReport(e) && Route(t', k).Some? {
      var c := t.channels[Route(t', k).value];
      var c' := c.(s := c.s.(relWheel := 0));
      assert ToolsOk(c') by { SameTools(c, c'); }
      ReplayKeepsTools(c', t'.buffered, Stop(t'.buffered, 0), k);
    }
  }

  // ----- What incoherent reports can do

  const TWO_CHANNELS: config := Config(2, true, [])

  /** A tool with a serial number enters. */
  function Arrival(code: int, serial: int): seq<Event> {
    [Event(EV_KEY, code, 1), Event(EV_MSC, MSC_SERIAL, serial), Event(EV_SYN, SYN_REPORT, 0)]
  }

  /** A report that names two serial numbers, the last of them 0. */
  function Muddled(code: int, serial: int): seq<Event> {
    [Event(EV_KEY, code, 1), Event(EV_MSC, MSC_SERIAL, serial), Event(EV_MSC, MSC_SERIAL, 0), Event(EV_SYN, SYN_REPORT, 0)]
  }

  lemma {:induction false} ReplayArrival(c: Channel, code: int, serial: int)
    requires ToolOf(code) != TOOL_NONE && !Has(c.tools, ToolOf(code)) && serial != 0
    ensures
      var b := Arrival(code, serial);
      && AllKnown(b[..3])
      && Replay(c, b, 3, TWO_CHANNELS)
         == Channel(c.s.(toolType := ToolOf(code), proximity := 1, serial := serial), With(c.tools, ToolOf(code)))
  {
    hide ToolOf, With, Has;
    var b := Arrival(code, serial);
    ToolIsNoButton(code, []);
    assert b[..3] == b && AllKnown(b) && AllKnown(b[..2]) && AllKnown(b[..1]) && AllKnown(b[..0]);
    assert Replay(c, b, 0, TWO_CHANNELS) == c;
    assert Replay(c, b, 1, TWO_CHANNELS) == Enters(c, ToolOf(code));
  }

  lemma {:induction false} ReplayMuddled(c: Channel, code: int, serial: int)
    requires ToolOf(code) != TOOL_NONE && !Has(c.tools, ToolOf(code)) && serial != 0
    ensures
      var b := Muddled(code, serial);
      && AllKnown(b[..4])
      && Replay(c, b, 4, TWO_CHANNELS)
         == Channel(c.s.(toolType := ToolOf(code), proximity := 1, serial := serial), With(c.tools, ToolOf(code)))
  {
    hide ToolOf, With, Has;
    var b := Muddled(code, serial);
    ToolIsNoButton(code, []);
    assert b[..4] == b && AllKnown(b) && AllKnown(b[..3]) && AllKnown(b[..2]) && AllKnown(b[..1]) && AllKnown(b[..0]);
    assert Replay(c, b, 0, TWO_CHANNELS) == c;
    assert Replay(c, b, 1, TWO_CHANNELS) == Enters(c, ToolOf(code));
    assert Replay(c, b, 2, TWO_CHANNELS).s.serial == serial;
  }

  lemma {:induction false} BufferOne(t: Tablet, e: Event, k: config)
    requires |t.buffered| < MAX_USB_EVENTS && t.lastSerial == LastSerial(t.buffered) && !IsReport(e)
    ensures Feed(t, e, k).t == t.(buffered := t.buffered + [e], lastSerial := LastSerial(t.buffered + [e]))
  {
    hide Report;
    var b := t.buffered + [e];
    assert b[..|b| - 1] == t.buffered;
  }

  /** Feeding a report event by event: all but the last are buffered. */
  lemma {:induction false} Buffering(t: Tablet, events: seq<Event>, k: config)
    requires |t.buffered| + |events| <= MAX_USB_EVENTS && t.lastSerial == LastSerial(t.buffered)
    requires forall e | e in events :: !IsReport(e)
    ensures Run(t, events, k) == t.(buffered := t.buffered + events, lastSerial := LastSerial(t.buffered + events))
    decreases |events|
  {
    hide Feed, LastSerial, IsReport;
    if events == [] {
      assert t.buffered + [] == t.buffered;
    } else {
      assert events[0] in events && forall e | e in events[1..] :: e in events;
      BufferOne(t, events[0], k);
      Buffering(Feed(t, events[0], k).t, events[1..], k);
      assert t.buffered + [events[0]] + events[1..] == t.buffered + events;
    }
  }

  lemma {:induction false} RunSnoc(t: Tablet, events: seq<Event>, e: Event, k: config)
    ensures Run(t, events + [e], k) == Feed(Run(t, events, k), e, k).t
    decreases |events|
  {
    hide Feed;
    if events == [] {
      assert [] + [e] == [e] && [e][1..] == [];
    } else {
      assert (events + [e])[1..] == events[1..] + [e];
      RunSnoc(Feed(t, events[0], k).t, events[1..], e, k);
    }
  }

  lemma {:induction false} RunReport(t: Tablet, b: seq<Event>, k: config)
    requires t.buffered == [] && t.lastSerial == 0 && 0 < |b| <= MAX_USB_EVENTS && AllKnown(b)
    requires IsReport(b[|b| - 1]) && forall e | e in b[..|b| - 1] :: !IsReport(e)
    ensures Run(t, b, k) == Report(t.(buffered := b, lastSerial := LastSerial(b)), k).t
  {
    hide Report;
    var last := |b| - 1;
    assert [] + b[..last] == b[..last] && b == b[..last] + [b[last]];
    Buffering(t, b[..last], k);
    RunSnoc(t, b[..last], b[last], k);
    assert LastSerial(b) == LastSerial(b[..last]);
  }

  lemma {:induction false} RunConcat(t: Tablet, a: seq<Event>, b: seq<Event>, k: config)
    ensures Run(t, a + b, k) == Run(Run(t, a, k), b, k)
    decreases |a|
  {
    hide Feed;
    if a == [] {
      assert a + b == b;
    } else {
      assert (a + b)[1..] == a[1..] + b;
      RunConcat(Feed(t, a[0], k).t, a[1..], b, k);
    }
  }

  /** Without coherence serial numbers need not stay unique: when a pen is there, a report that names its
      serial number and then 0 is routed to the other channel and leaves the number in both. */
  lemma {:induction false} TwoChannelsOneSerial()
    ensures
      var r := Run(Start(NO_RANGES), Arrival(BTN_TOOL_PEN, 5) + Muddled(BTN_TOOL_RUBBER, 5), TWO_CHANNELS);
      && r.channels[0].s.serial == r.channels[1].s.serial == 5
      && r.channels[0].s.proximity == r.channels[1].s.proximity == 1
    ensures !Coherent(Muddled(BTN_TOOL_RUBBER, 5))
  {
    var a, b := Arrival(BTN_TOOL_PEN, 5), Muddled(BTN_TOOL_RUBBER, 5);
    var t := Start(NO_RANGES);
    MuddledIsIncoherent(b);
    FirstReport(t, a);
    assert t.buffered == [] && t.lastSerial == 0 && t.channels[1].s.serial == 0 && t.channels[1].tools == 0;
    RunArrival(t, BTN_TOOL_PEN);
    hide Run, Report, Arrival, With, LastSerial, Start, Coherent;
    RunConcat(t, a, b, TWO_CHANNELS);
    SecondReport(Run(t, a, TWO_CHANNELS), b);
    RunMuddled(Run(t, a, TWO_CHANNELS), BTN_TOOL_RUBBER);
  }

  lemma {:induction false} RunMuddled(t: Tablet, code: int)
    requires t.buffered == [] && t.lastSerial == 0
    ensures
      var b := Muddled(code, 5);
      Run(t, b, TWO_CHANNELS) == Report(t.(buffered := b, lastSerial := LastSerial(b)), TWO_CHANNELS).t
  {
    var b := Muddled(code, 5);
    assert b[..3] == [b[0], b[1], b[2]];
    RunReport(t, b, TWO_CHANNELS);
  }

  lemma {:induction false} MuddledIsIncoherent(b: seq<Event>)
    requires b == Muddled(BTN_TOOL_RUBBER, 5)
    ensures !Coherent(b)
  {
    assert b[..3] == [b[0], b[1], b[2]];
    assert Stored(b, 3) == 5 && Stored(b, 4) == 5 && LastSerial(b[..3]) == 0;
  }

  /** An event of an unknown kind ends the replay, and then a channel can be left out of proximity with its
      serial number: a report of a tool with number 5 that takes its eraser away and is cut short. */
  lemma {:induction false} CutShortKeepsSerial(t: Tablet)
    requires t.channels[0].s.serial == 5 && t.channels[0].s.proximity != 0 && Has(t.channels[0].tools, TOOL_PEN) && t.lastSerial == 5
    requires t.buffered == [Event(EV_MSC, MSC_SERIAL, 5), Event(EV_KEY, BTN_TOOL_RUBBER, 0), Event(17, 0, 0)]
    ensures
      var r := Feed(t, Event(EV_SYN, SYN_REPORT, 0), TWO_CHANNELS);
      && r.result == 17 && r.t.channels[0].s.serial == 5 && r.t.channels[0].s.proximity == 0
      && !SerialsOk(r.t, TWO_CHANNELS)
  {
    var e, b := Event(EV_SYN, SYN_REPORT, 0), t.buffered + [Event(EV_SYN, SYN_REPORT, 0)];
    var c := t.channels[0].(s := t.channels[0].s.(relWheel := 0));
    assert t.channels[..2] == t.channels;
    assert Route(t.(buffered := b), TWO_CHANNELS) == Some(0);
    StopStep(b, 0);
    StopStep(b, 1);
    StopStep(b, 2);
    assert Replay(c, b, 0, TWO_CHANNELS) == c;
    EraserLeaves(c, b[1]);
    assert Replay(c, b, 2, TWO_CHANNELS).s.serial == 5 && Replay(c, b, 2, TWO_CHANNELS).s.proximity == 0;
    hide Route, Replay, Stop, Has, Report;
    ReportIs(t.(buffered := b), 0, TWO_CHANNELS);
  }

  /** The report that is cut short. */
  const CUT_SHORT: seq<Event> := [Event(EV_MSC, MSC_SERIAL, 5), Event(EV_KEY, BTN_TOOL_RUBBER, 0), Event(17, 0, 0)]

  /** Such a run from the start: a pen with number 5 comes, its eraser comes, and a report that takes the
      eraser away is cut short. */
  lemma {:induction false} CutShortFromStart()
    ensures
      var events := Arrival(BTN_TOOL_PEN, 5) + Arrival(BTN_TOOL_RUBBER, 5) + (CUT_SHORT + [Event(EV_SYN, SYN_REPORT, 0)]);
      var r := Run(Start(NO_RANGES), events, TWO_CHANNELS);
      r.channels[0].s.serial == 5 && r.channels[0].s.proximity == 0 && !SerialsOk(r, TWO_CHANNELS)
  {
    var a, b, c := Arrival(BTN_TOOL_PEN, 5), Arrival(BTN_TOOL_RUBBER, 5), CUT_SHORT + [Event(EV_SYN, SYN_REPORT, 0)];
    EraserThere();
    hide Run, Arrival, CUT_SHORT, Start, SerialsOk, Has;
    RunConcat(Start(NO_RANGES), a, b, TWO_CHANNELS);
    RunConcat(Start(NO_RANGES), a + b, c, TWO_CHANNELS);
    CutShortRun(Run(Run(Start(NO_RANGES), a, TWO_CHANNELS), b, TWO_CHANNELS));
  }

  lemma {:induction false} EraserThere()
    ensures
      var v := Run(Run(Start(NO_RANGES), Arrival(BTN_TOOL_PEN, 5), TWO_CHANNELS), Arrival(BTN_TOOL_RUBBER, 5), TWO_CHANNELS);
      && v.buffered == [] && v.lastSerial == 0
      && v.channels[0].s.serial == 5 && v.channels[0].s.proximity != 0 && Has(v.channels[0].tools, TOOL_PEN)
  {
    var a, b := Arrival(BTN_TOOL_PEN, 5), Arrival(BTN_TOOL_RUBBER, 5);
    var t := Start(NO_RANGES);
    assert t.buffered == [] && t.lastSerial == 0;
    hide Run, Report, With, Has, LastSerial, Start;
    FirstReport(t, a);
    RunArrival(t, BTN_TOOL_PEN);
    var u := Run(t, a, TWO_CHANNELS);
    EraserReport(u, b);
    RunArrival(u, BTN_TOOL_RUBBER);
  }

  lemma {:induction false} CutShortRun(v: Tablet)
    requires v.buffered == [] && v.lastSerial == 0
    requires v.channels[0].s.serial == 5 && v.channels[0].s.proximity != 0 && Has(v.channels[0].tools, TOOL_PEN)
    ensures
      var r := Run(v, CUT_SHORT + [Event(EV_SYN, SYN_REPORT, 0)], TWO_CHANNELS);
      r.channels[0].s.serial == 5 && r.channels[0].s.proximity == 0 && !SerialsOk(r, TWO_CHANNELS)
  {
    var e := Event(EV_SYN, SYN_REPORT, 0);
    CutShortSerial();
    assert [] + CUT_SHORT == CUT_SHORT && |CUT_SHORT| == 3;
    hide Run, Feed, With, Has, LastSerial, SerialsOk;
    Buffering(v, CUT_SHORT, TWO_CHANNELS);
    CutShortKeepsSerial(Run(v, CUT_SHORT, TWO_CHANNELS));
    RunSnoc(v, CUT_SHORT, e, TWO_CHANNELS);
  }

  lemma {:induction false} CutShortSerial()
    ensures LastSerial(CUT_SHORT) == 5 && LastSerial([]) == 0 && forall e | e in CUT_SHORT :: !IsReport(e)
  {
    var b := CUT_SHORT;
    assert b[..2] == [b[0], b[1]] && [b[0], b[1]][..1] == [b[0]];
    assert LastSerial([b[0]]) == 5;
  }

  lemma {:induction false} RunArrival(t: Tablet, code: int)
    requires t.buffered == [] && t.lastSerial == 0
    ensures
      var b := Arrival(code, 5);
      Run(t, b, TWO_CHANNELS) == Report(t.(buffered := b, lastSerial := LastSerial(b)), TWO_CHANNELS).t
  {
    var b := Arrival(code, 5);
    assert b[..2] == [b[0], b[1]];
    RunReport(t, b, TWO_CHANNELS);
  }

  lemma {:induction false} EraserReport(t: Tablet, b: seq<Event>)
    requires b == Arrival(BTN_TOOL_RUBBER, 5) && t.channels[0].s.serial == 5 && t.channels[0].s.proximity == 1
    requires t.channels[0].tools == With(0, TOOL_PEN)
    ensures
      var r := Report(t.(buffered := b, lastSerial := LastSerial(b)), TWO_CHANNELS).t;
      && r.buffered == [] && r.lastSerial == 0 && r.nChannel == 0 && r.channels[1] == t.channels[1]
      && r.channels[0].s.serial == 5 && r.channels[0].s.proximity == 1 && Has(r.channels[0].tools, TOOL_PEN)
  {
    assert b[..2][1] == b[1] && LastSerial(b[..2]) == 5 && LastSerial(b) == 5;
    assert AllKnown(b);
    AllKnownStops(b);
    var c := t.channels[0].(s := t.channels[0].s.(relWheel := 0));
    SetAndClear(0, TOOL_PEN, TOOL_ERASER);
    SetAndClear(0, TOOL_PEN, TOOL_PEN);
    SetAndClear(c.tools, TOOL_ERASER, TOOL_PEN);
    ReplayArrival(c, BTN_TOOL_RUBBER, 5);
    assert t.channels[..2] == t.channels;
    hide Replay, Stop, With, Has;
  }

  lemma {:induction false} EraserLeaves(c: Channel, e: Event)
    requires e == Event(EV_KEY, BTN_TOOL_RUBBER, 0) && Has(c.tools, TOOL_PEN)
    ensures Dispatch(c, e, TWO_CHANNELS).s.proximity == 0 && Dispatch(c, e, TWO_CHANNELS).s.serial == c.s.serial
  {
    SetAndClear(c.tools, TOOL_ERASER, TOOL_PEN);
    NotEmpty(Without(c.tools, TOOL_ERASER), TOOL_PEN);
    hide With, Without, Has, Highest;
  }

  lemma {:induction false} FirstReport(t: Tablet, b: seq<Event>)
    requires t == Start(NO_RANGES) && b == Arrival(BTN_TOOL_PEN, 5)
    ensures
      var r := Report(t.(buffered := b, lastSerial := LastSerial(b)), TWO_CHANNELS).t;
      && r.buffered == [] && r.lastSerial == 0
      && r.channels[0].s.serial == 5 && r.channels[0].s.proximity == 1 && r.channels[0].tools == With(0, TOOL_PEN) != 0
      && r.channels[1] == t.channels[1] && r.nChannel == 0
  {
    assert b[..2][1] == b[1] && LastSerial(b[..2]) == 5 && LastSerial(b) == 5;
    assert AllKnown(b);
    AllKnownStops(b);
    var c := t.channels[0];
    ReplayArrival(c, BTN_TOOL_PEN, 5);
    ToolBits(0, TOOL_PEN);
    assert t.channels[..2] == t.channels;
    assert WithSerial(t.channels, 5, 2) == None && WithSerial(t.channels, 5, 1) == None;
    hide Replay, Stop, With;
  }

  lemma {:induction false} SecondReport(t: Tablet, b: seq<Event>)
    requires b == Muddled(BTN_TOOL_RUBBER, 5) && t.channels[0].s.serial == 5 && t.channels[0].s.proximity == 1
    requires t.channels[1] == Channel(ZERO_STATE, 0)
    ensures
      var r := Report(t.(buffered := b, lastSerial := LastSerial(b)), TWO_CHANNELS).t;
      && r.channels[1].s.serial == 5 && r.channels[1].s.proximity == 1 && r.channels[0] == t.channels[0]
  {
    assert b[..3][2] == b[2] && LastSerial(b[..3]) == 0 && LastSerial(b) == 0;
    assert AllKnown(b);
    AllKnownStops(b);
    ReplayMuddled(t.channels[1], BTN_TOOL_RUBBER, 5);
    assert t.channels[..2] == t.channels;
    hide Replay, Stop, With;
  }

  // ----- The driver

  class UsbDriver {
    const k: config
    const state: array<State>
    const nToolProx: array<bv32>
    var nChannel: int
    var nLastToolSerial: int
    var nEventCnt: nat
    const events: array<Event>

    ghost predicate Valid()
      reads this
    {
      && state.Length == nToolProx.Length == MAX_CHANNELS && events.Length == MAX_USB_EVENTS
      && nEventCnt <= MAX_USB_EVENTS && 0 <= nChannel < MAX_CHANNELS
      && state as object != nToolProx as object && events as object != nToolProx as object
    }

    ghost function ChannelAt(i: nat): Channel
      requires i < state.Length == nToolProx.Length
      reads state, nToolProx
    {
      Channel(state[i], nToolProx[i])
    }

    ghost function Abs(): Tablet
      requires Valid()
      reads this, state, nToolProx, events
    {
      TabletRecord([ChannelAt(0), ChannelAt(1)], nChannel, nLastToolSerial, events[..nEventCnt])
    }

    constructor (k: config, ranges: Ranges)
      ensures Valid() && fresh(state) && fresh(nToolProx) && fresh(events)
      ensures this.k == k && Abs() == Start(ranges)
    {
      this.k := k;
      state := new State[MAX_CHANNELS](_ => ZERO_STATE.(ranges := ranges));
      nToolProx := new bv32[MAX_CHANNELS](_ => 0);
      events := new Event[MAX_USB_EVENTS](_ => Event(0, 0, 0));
      nChannel, nLastToolSerial, nEventCnt := 0, 0, 0;
    }

    /** Only the current channel may change, and it becomes `c`. */
    twostate predicate Becomes(c: Channel)
      requires old(Valid()) && Valid() && nChannel == old(nChannel)
      reads this, state, nToolProx
    {
      && ChannelAt(nChannel) == c
      && ChannelAt(1 - nChannel) == old(ChannelAt(1 - nChannel))
    }

    method ParseMSC(e: Event)
      requires Valid()
      modifies state
      ensures Becomes(OnMsc(old(ChannelAt(nChannel)), e))
    {
      if e.code == MSC_SERIAL && e.value != 0 {
        state[nChannel] := state[nChannel].(serial := e.value);
      }
      if state[nChannel].proximity == 0 {
        state[nChannel] := state[nChannel].(serial := 0);
      }
    }

    method ParseABS(e: Event)
      requires Valid()
      modifies state
      ensures Becomes(OnAbs(old(ChannelAt(nChannel)), e))
    {
      var s := state[nChannel];
      if e.code == ABS_X {
        state[nChannel] := s.(x := e.value);
      } else if e.code == ABS_Y {
        state[nChannel] := s.(y := e.value);
      } else if e.code == ABS_RZ {
        state[nChannel] := s.(rotation := e.value);
      } else if e.code == ABS_DISTANCE {
        state[nChannel] := s.(distance := e.value);
      } else if e.code == ABS_PRESSURE {
        state[nChannel] := s.(pressure := e.value);
      } else if e.code == ABS_TILT_X {
        state[nChannel] := s.(tiltX := e.value);
      } else if e.code == ABS_TILT_Y {
        state[nChannel] := s.(tiltY := e.value);
      } else if e.code == ABS_WHEEL {
        state[nChannel] := s.(absWheel := e.value);
      } else if e.code == ABS_THROTTLE {
        state[nChannel] := s.(throttle := e.value);
      }
    }

    method ParseREL(e: Event)
      requires Valid()
      modifies state
      ensures Becomes(OnRel(old(ChannelAt(nChannel)), e))
    {
      if e.code == REL_WHEEL {
        state[nChannel] := state[nChannel].(relWheel := e.value);
      }
    }

    /** The loop over the pad keys. */
    method FindPadKey(code: int) returns (r: int)
      ensures r == PadKey(code, k.padKeys)
    {
      assert k.padKeys[0..] == k.padKeys;
      for i := 0 to |k.padKeys|
        invariant PadKey(code, k.padKeys)
               == if PadKey(code, k.padKeys[i..]) == -1 then -1 else i + PadKey(code, k.padKeys[i..])
      {
        assert k.padKeys[i..][1..] == k.padKeys[i + 1..];
        if code == k.padKeys[i] {
          return i;
        }
      }
      return -1;
    }

    method ParseKEY(e: Event)
      requires Valid()
      modifies state, nToolProx
      ensures Becomes(OnKey(old(ChannelAt(nChannel)), e, k))
    {
      hide With, Without, Has;
      var tool := ToolOf(e.code);
      var button := FindButton(e.code);
      if button != -1 {
        ButtonIsNoTool(e.code, k.padKeys);
        var buttons := state[nChannel].buttons;
        state[nChannel] := state[nChannel].(buttons := if e.value != 0 then With(buttons, button) else Without(buttons, button));
      }
      if tool != TOOL_NONE {
        ToolIsNoButton(e.code, k.padKeys);
        if e.value != 0 {
          EnterProximity(tool);
        } else {
          LeaveProximity(tool);
        }
      }
    }

    method FindButton(code: int) returns (button: int)
      ensures button == ButtonOf(code, k.padKeys)
    {
      if ToolOf(code) != TOOL_NONE {
        ToolIsNoButton(code, k.padKeys);
        return -1;
      }
      if code == BTN_LEFT || code == BTN_RIGHT || code == BTN_MIDDLE || code == BTN_SIDE || code == BTN_EXTRA
         || code == BTN_TOUCH || code == BTN_STYLUS || code == BTN_STYLUS2 {
        return ButtonOf(code, []);
      }
      var i := FindPadKey(code);
      return if i == -1 then -1 else 8 + i;
    }

    method EnterProximity(tool: nat)
      requires Valid() && tool < TOOL_MAX
      modifies state, nToolProx
      ensures Becomes(Enters(old(ChannelAt(nChannel)), tool))
    {
      hide With, Has;
      if !Has(nToolProx[nChannel], tool) {
        state[nChannel] := state[nChannel].(proximity := 1);
      }
      nToolProx[nChannel] := With(nToolProx[nChannel], tool);
      state[nChannel] := state[nChannel].(toolType := tool);
    }

    method LeaveProximity(tool: nat)
      requires Valid() && tool < TOOL_MAX
      modifies state, nToolProx
      ensures Becomes(Leaves(old(ChannelAt(nChannel)), tool, k.hasSerial))
    {
      hide Bit, Meets, Mask, Highest;
      if Has(nToolProx[nChannel], tool) {
        nToolProx[nChannel] := Without(nToolProx[nChannel], tool);
      } else {
        Absent(nToolProx[nChannel], tool);
      }
      if !k.hasSerial {
        nToolProx[nChannel] := 0;
      }
      state[nChannel] := state[nChannel].(proximity := 0);
      state[nChannel] := state[nChannel].(toolType := TOOL_NONE);
      if nToolProx[nChannel] == 0 {
        state[nChannel] := ZERO_STATE;
      } else {
        NextTool();
      }
    }

    /** The loop that switches to the next tool. */
    method NextTool()
      requires Valid() && state[nChannel].toolType == TOOL_NONE
      modifies state
      ensures Becomes(old(ChannelAt(nChannel)).(s := old(state[nChannel]).(toolType := Highest(nToolProx[nChannel], TOOL_MAX))))
    {
      hide Has, Highest;
      HighestStep(nToolProx[nChannel], 0);
      for i := TOOL_PEN to TOOL_MAX
        invariant state[nChannel] == old(state[nChannel]).(toolType := Highest(nToolProx[nChannel], i))
        invariant state[1 - nChannel] == old(state[1 - nChannel])
      {
        HighestStep(nToolProx[nChannel], i);
        if Has(nToolProx[nChannel], i) {
          state[nChannel] := state[nChannel].(toolType := i);
        }
      }
    }

    /** The switch over the event types. */
    method ParseEvent(e: Event)
      requires Valid() && Known(e)
      modifies state, nToolProx
      ensures Becomes(Dispatch(old(ChannelAt(nChannel)), e, k))
    {
      hide OnMsc, OnKey, OnAbs, OnRel;
      match e.kind
      case 0 => ParseMSC(e);
      case 4 => ParseMSC(e);
      case 1 => ParseKEY(e);
      case 3 => ParseABS(e);
      case _ => ParseREL(e);
    }

    /** Replay the buffered events into the current channel: 0, or the kind of the first unknown event. */
    method ReplayEvents() returns (result: int)
      requires Valid()
      modifies state, nToolProx
      ensures
        var b := events[..nEventCnt];
        var n := Stop(b, 0);
        && Becomes(Replay(old(ChannelAt(nChannel)), b, n, k))
        && result == if n < |b| then b[n].kind else 0
    {
      hide Dispatch, Stop, Known;
      ghost var b, c, other := events[..nEventCnt], ChannelAt(nChannel), ChannelAt(1 - nChannel);
      for evcnt := 0 to nEventCnt
        invariant b == events[..nEventCnt] && AllKnown(b[..evcnt]) && Stop(b, 0) == Stop(b, evcnt)
        invariant ChannelAt(nChannel) == Replay(c, b, evcnt, k) && ChannelAt(1 - nChannel) == other
      {
        StopStep(b, evcnt);
        var e := events[evcnt];
        if !Known(e) {
          return e.kind;
        }
        Earlier(b, evcnt + 1);
        ParseEvent(e);
      }
      StopEnd(b);
      result := 0;
    }

    /** The searches for the channel of the report; -1 when there is none. */
    method SelectChannel() returns (ch: int)
      requires Valid()
      ensures Route(Abs(), k) == if ch == -1 then None else Some(ch)
      ensures -1 <= ch < MAX_CHANNELS
    {
      hide WithSerial, Vacant;
      if k.channelCnt <= 1 {
        return nChannel;
      }
      ghost var channels := Abs().channels[..k.channelCnt];
      for chcnt := 0 to k.channelCnt
        invariant WithSerial(channels, nLastToolSerial, 0) == WithSerial(channels, nLastToolSerial, chcnt)
      {
        SearchStep(channels, nLastToolSerial, chcnt);
        assert channels[chcnt] == ChannelAt(chcnt);
        if state[chcnt].serial == nLastToolSerial {
          return chcnt;
        }
      }
      SearchEnd(channels, nLastToolSerial);
      for chcnt := 0 to k.channelCnt
        invariant Vacant(channels, 0) == Vacant(channels, chcnt)
      {
        SearchStep(channels, nLastToolSerial, chcnt);
        assert channels[chcnt] == ChannelAt(chcnt);
        if nToolProx[chcnt] == 0 {
          return chcnt;
        }
      }
      return -1;
    }

    method ProcessReport() returns (result: int)
      requires Valid()
      modifies this, state, nToolProx
      ensures Valid() && Report(old(Abs()), k) == Fed(result, Abs())
    {
      hide Route, Replay, Stop, Report, Known;
      ghost var t := Abs();
      var ch := SelectChannel();
      if ch == -1 {
        NoRoute(t, k);
        nChannel := 0;
        nEventCnt := 0;
        nLastToolSerial := 0;
        return -1;
      }
      nChannel := ch;
      state[nChannel] := state[nChannel].(relWheel := 0);
      result := ReplayEvents();
      ghost var c := Replayed(t.channels[ch], t.buffered, k);
      ReportIs(t, ch, k);
      assert Abs().channels == t.channels[ch := c];
      if result != 0 {
        return;
      }
      nEventCnt := 0;
      nLastToolSerial := 0;
      assert Abs().channels == t.channels[ch := c] && Abs().buffered == [];
    }

    /** Take one event; 0, or an error. */
    method ParseData(e: Event) returns (result: int)
      requires Valid()
      modifies this, state, nToolProx, events
      ensures Valid() && Feed(old(Abs()), e, k) == Fed(result, Abs())
    {
      hide Report;
      if nEventCnt >= MAX_USB_EVENTS {
        nEventCnt := 0;
        nLastToolSerial := 0;
        return -1;
      }
      events[nEventCnt] := e;
      nEventCnt := nEventCnt + 1;
      assert events[..nEventCnt] == old(events[..nEventCnt]) + [e];
      if IsSerial(e) {
        nLastToolSerial := e.value;
        return 0;
      }
      if !IsReport(e) {
        return 0;
      }
      result := ProcessReport();
    }
  }

  /** The channel of a report after it. */
  function Replayed(c: Channel, b: seq<Event>, k: config): Channel {
    Replay(c.(s := c.s.(relWheel := 0)), b, Stop(b, 0), k)
  }

  lemma {:induction false} ReportIs(t: Tablet, ch: nat, k: config)
    requires Route(t, k) == Some(ch)
    ensures
      var n, t' := Stop(t.buffered, 0), t.(nChannel := ch, channels := t.channels[ch := Replayed(t.channels[ch], t.buffered, k)]);
      && (n < |t.buffered| ==> t.buffered[n].kind != 0 && Report(t, k) == Fed(t.buffered[n].kind, t'))
      && (n == |t.buffered| ==> Report(t, k) == Fed(0, t'.(buffered := [], lastSerial := 0)))
  {
    hide Route, Replay;
  }

  lemma {:induction false} NoRoute(t: Tablet, k: config)
    requires Route(t, k) == None
    ensures Report(t, k) == Fed(-1, t.(nChannel := 0, buffered := [], lastSerial := 0))
  {
    hide Route;
  }

  lemma {:induction false} StopStep(b: seq<Event>, i: nat)
    requires i < |b| && AllKnown(b[..i])
    ensures Known(b[i]) ==> AllKnown(b[..i + 1]) && Stop(b, i) == Stop(b, i + 1)
    ensures !Known(b[i]) ==> Stop(b, i) == i
  {
    assert b[..i + 1] == b[..i] + [b[i]];
  }

  lemma StopEnd(b: seq<Event>)
    requires AllKnown(b[..|b|])
    ensures Stop(b, |b|) == |b|
  {
  }

  lemma SearchStep(channels: seq<Channel>, serial: int, i: nat)
    requires i < |channels|
    ensures WithSerial(channels, serial, i) == if channels[i].s.serial == serial then Some(i) else WithSerial(channels, serial, i + 1)
    ensures Vacant(channels, i) == if channels[i].tools == 0 then Some(i) else Vacant(channels, i + 1)
  {
  }

  lemma SearchEnd(channels: seq<Channel>, serial: int)
    ensures WithSerial(channels, serial, |channels|) == None && Vacant(channels, |channels|) == None
  {
  }

  lemma HighestStep(tools: bv32, i: nat)
    requires i < TOOL_MAX
    ensures Highest(tools, i + 1) == if i > 0 && Has(tools, i) then i else Highest(tools, i)
  {
  }

  /** Clearing a bit that is not set changes nothing. */
  lemma {:induction false} Absent(bits: bv32, k: nat)
    requires k < 32 && !Has(bits, k)
    ensures Without(bits, k) == bits
  {
    MaskAbsent(bits, Bit(k));
    hide Bit;
  }

  lemma {:induction false} MaskAbsent(x: bv32, y: bv32)
    requires Both(x, y) == 0
    ensures Mask(x, y) == x
  {
    Outside(y, x);
  }

  lemma ButtonIsNoTool(code: int, padKeys: seq<int>)
    requires |padKeys| <= 24 && ButtonOf(code, padKeys) != -1
    ensures ToolOf(code) == TOOL_NONE
  {
  }
}
