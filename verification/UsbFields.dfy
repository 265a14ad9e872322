/** What the reports of the USB tablets mean by the numbers of linux/input.h and wacom/wactablet.h: which axis, button and
    tool an event is about, and what a replay leaves in every axis and button. */
module UsbFields {
  import opened Bytes
  import opened TabletState
  import opened UsbTablet

  // ----- Axes

  /** The nine absolute axes by their codes. */
  predicate IsAxis(code: int) {
    code in {0x00, 0x01, 0x05, 0x06, 0x08, 0x18, 0x19, 0x1a, 0x1b}
  }

  /** The field of an axis: x, y, rotation about z, throttle, wheel, pressure, distance, tilt. */
  function Axis(s: State, code: int): int
    requires IsAxis(code)
  {
    if code == 0x00 then s.x
    else if code == 0x01 then s.y
    else if code == 0x05 then s.rotation
    else if code == 0x06 then s.throttle
    else if code == 0x08 then s.absWheel
    else if code == 0x18 then s.pressure
    else if code == 0x19 then s.distance
    else if code == 0x1a then s.tiltX
    else s.tiltY
  }

  /** The event is the departure that leaves no tool. */
  predicate Empties(p: Presence, e: Event, k: config) {
    e.kind == 1 && e.value == 0 && ToolOf(e.code) != 0 && ComeOrGo(p, e, k).tools == 0
  }

  /** The number of the first `n` events up to the last that leaves no tool, or 0. */
  function Emptied(p: Presence, events: seq<Event>, n: nat, k: config): (r: nat)
    requires n <= |events|
    ensures r <= n
    decreases n
  {
    if n == 0 then 0
    else if Empties(PresenceAfter(p, events, n - 1, k), events[n - 1], k) then n
    else Emptied(p, events, n - 1, k)
  }

  /** The value of the last event of the kind with the code from the `from`-th to the `n`-th, or `otherwise`. */
  function LastValue(events: seq<Event>, from: nat, n: nat, kind: int, code: int, otherwise: int): int
    requires n <= |events|
    decreases n
  {
    if n <= from then otherwise
    else if events[n - 1].kind == kind && events[n - 1].code == code then events[n - 1].value
    else LastValue(events, from, n - 1, kind, code, otherwise)
  }

  lemma {:induction false} AxisStep(c: Channel, e: Event, k: config, code: int)
    requires Known(e) && IsAxis(code)
    ensures
      Axis(Dispatch(c, e, k).s, code)
      == if Empties(PresenceOf(c), e, k) then 0 else if e.kind == 3 && e.code == code then e.value else Axis(c.s, code)
  {
    if e.kind == EV_KEY && ToolOf(e.code) != TOOL_NONE {
      ToolIsNoButton(e.code, k.padKeys);
    }
    hide With, Without, Has, ButtonOf, ToolOf, Highest;
  }

  lemma {:induction false} WheelStep(c: Channel, e: Event, k: config)
    requires Known(e)
    ensures
      Dispatch(c, e, k).s.relWheel
      == if Empties(PresenceOf(c), e, k) then 0 else if e.kind == 2 && e.code == 0x08 then e.value else c.s.relWheel
  {
    if e.kind == EV_KEY && ToolOf(e.code) != TOOL_NONE {
      ToolIsNoButton(e.code, k.padKeys);
    }
    hide With, Without, Has, ButtonOf, ToolOf, Highest;
  }

  /** A replay leaves in every axis the value of the last event with its code since all tools last left, or, if there is
      none, what was there before, or zero if they left. */
  lemma {:induction false} ReplayAxes(c: Channel, events: seq<Event>, n: nat, k: config, code: int)
    requires n <= |events| && AllKnown(events[..n]) && IsAxis(code)
    ensures
      var from := Emptied(PresenceOf(c), events, n, k);
      Axis(Replay(c, events, n, k).s, code) == LastValue(events, from, n, 3, code, if from == 0 then Axis(c.s, code) else 0)
    decreases n
  {
    hide Dispatch, Empties, IsAxis, Axis;
    if n == 0 {
    } else {
      Earlier(events, n);
      ReplayAxes(c, events, n - 1, k, code);
      ReplayPresence(c, events, n - 1, k);
      AxisStep(Replay(c, events, n - 1, k), events[n - 1], k, code);
    }
  }

  lemma {:induction false} ReplayWheel(c: Channel, events: seq<Event>, n: nat, k: config)
    requires n <= |events| && AllKnown(events[..n])
    ensures
      var from := Emptied(PresenceOf(c), events, n, k);
      Replay(c, events, n, k).s.relWheel == LastValue(events, from, n, 2, 0x08, if from == 0 then c.s.relWheel else 0)
    decreases n
  {
    hide Dispatch, Empties;
    if n == 0 {
    } else {
      Earlier(events, n);
      ReplayWheel(c, events, n - 1, k);
      ReplayPresence(c, events, n - 1, k);
      WheelStep(Replay(c, events, n - 1, k), events[n - 1], k);
    }
  }

  /** What a report leaves in the axes of its channel. The relative wheel is that of this report alone. */
  lemma {:induction false} ReportAxes(t: Tablet, k: config, ch: nat, code: int)
    requires Route(t, k) == Some(ch) && IsAxis(code)
    ensures
      var n := Stop(t.buffered, 0);
      var from := Emptied(PresenceOf(t.channels[ch]), t.buffered, n, k);
      var s := Report(t, k).t.channels[ch].s;
      && Axis(s, code) == LastValue(t.buffered, from, n, 3, code, if from == 0 then Axis(t.channels[ch].s, code) else 0)
      && s.relWheel == LastValue(t.buffered, from, n, 2, 0x08, 0)
  {
    var c, n := t.channels[ch].(s := t.channels[ch].s.(relWheel := 0)), Stop(t.buffered, 0);
    ReplayAxes(c, t.buffered, n, k, code);
    ReplayWheel(c, t.buffered, n, k);
    assert PresenceOf(c) == PresenceOf(t.channels[ch]) && Axis(c.s, code) == Axis(t.channels[ch].s, code);
    hide Route, Replay, Stop, LastValue, Emptied, Axis, IsAxis, PresenceOf;
  }

  // ----- Buttons

  /** The buttons by their codes: left, middle, right, extra and side of a mouse, tip and side switches of a pen. */
  lemma ButtonsByCode(code: int, padKeys: seq<int>)
    requires |padKeys| <= 24
    ensures ButtonOf(code, padKeys) == 0 <==> code == 0x110
    ensures ButtonOf(code, padKeys) == 1 <==> code == 0x112
    ensures ButtonOf(code, padKeys) == 2 <==> code == 0x111
    ensures ButtonOf(code, padKeys) == 3 <==> code == 0x114
    ensures ButtonOf(code, padKeys) == 4 <==> code == 0x113
    ensures ButtonOf(code, padKeys) == 5 <==> code == 0x14a
    ensures ButtonOf(code, padKeys) == 6 <==> code == 0x14b
    ensures ButtonOf(code, padKeys) == 7 <==> code == 0x14c
  {
    hide ToolOf, PadKey;
  }

  /** Codes that are neither one of those nor a tool's are buttons from 8 on by their first place in the table. */
  lemma {:induction false} PadButtons(code: int, padKeys: seq<int>, i: nat)
    requires |padKeys| <= 24 && code !in {0x110, 0x111, 0x112, 0x113, 0x114, 0x14a, 0x14b, 0x14c} && ToolOf(code) == 0
    ensures ButtonOf(code, padKeys) == 8 + i <==> i < |padKeys| && padKeys[i] == code && forall j | 0 <= j < i :: padKeys[j] != code
    ensures ButtonOf(code, padKeys) == -1 <==> code !in padKeys
  {
    PadKeyIs(code, padKeys);
    hide PadKey, ToolOf;
  }

  lemma {:induction false} PadKeyIs(code: int, padKeys: seq<int>)
    ensures
      var i := PadKey(code, padKeys);
      if i == -1 then code !in padKeys else padKeys[i] == code && forall j | 0 <= j < i :: padKeys[j] != code
    decreases |padKeys|
  {
    if padKeys == [] || padKeys[0] == code {
    } else {
      PadKeyIs(code, padKeys[1..]);
      assert padKeys == [padKeys[0]] + padKeys[1..];
    }
  }

  /** Whether the last event for the button from the `from`-th to the `n`-th pressed it, or `otherwise`. */
  function Pressed(events: seq<Event>, from: nat, n: nat, button: nat, k: config, otherwise: bool): bool
    requires n <= |events|
    decreases n
  {
    if n <= from then otherwise
    else if events[n - 1].kind == 1 && ButtonOf(events[n - 1].code, k.padKeys) == button then events[n - 1].value != 0
    else Pressed(events, from, n - 1, button, k, otherwise)
  }

  lemma {:induction false} PressStep(c: Channel, e: Event, k: config, button: nat)
    requires Known(e) && button < 32
    ensures
      Has(Dispatch(c, e, k).s.buttons, button)
      <==> if Empties(PresenceOf(c), e, k) then false
           else if e.kind == 1 && ButtonOf(e.code, k.padKeys) == button then e.value != 0 else Has(c.s.buttons, button)
  {
    if e.kind == EV_KEY && ToolOf(e.code) != TOOL_NONE {
      ToolIsNoButton(e.code, k.padKeys);
    }
    if e.kind == EV_KEY && ButtonOf(e.code, k.padKeys) != -1 {
      ButtonEvent(c, e, k, button);
    }
    NoneOfZero(button);
    hide With, Without, Has, ButtonOf, ToolOf, Highest;
  }

  lemma NoneOfZero(button: nat)
    requires button < 32
    ensures !Has(0, button)
  {
  }

  /** A replay leaves a button down exactly if the last event for it since all tools last left pressed it, or, without
      such an event, if it was down before and they have not left. */
  lemma {:induction false} ReplayButtons(c: Channel, events: seq<Event>, n: nat, k: config, button: nat)
    requires n <= |events| && AllKnown(events[..n]) && button < 32
    ensures
      var from := Emptied(PresenceOf(c), events, n, k);
      Has(Replay(c, events, n, k).s.buttons, button)
      <==> Pressed(events, from, n, button, k, from == 0 && Has(c.s.buttons, button))
    decreases n
  {
    hide Dispatch, Empties, Has, ButtonOf;
    if n == 0 {
    } else {
      Earlier(events, n);
      ReplayButtons(c, events, n - 1, k, button);
      ReplayPresence(c, events, n - 1, k);
      PressStep(Replay(c, events, n - 1, k), events[n - 1], k, button);
    }
  }

  // ----- Tools

  /** The tools by their codes: 1 pen, 2 pencil, 3 brush, 4 eraser, 5 airbrush, 6 mouse, 7 lens, 8 pad, 9 touch. */
  lemma ToolsByCode(code: int)
    ensures ToolOf(code) == 1 <==> code == 0x140
    ensures ToolOf(code) == 2 <==> code == 0x143
    ensures ToolOf(code) == 3 <==> code == 0x142
    ensures ToolOf(code) == 4 <==> code == 0x141
    ensures ToolOf(code) == 5 <==> code == 0x144
    ensures ToolOf(code) == 6 <==> code == 0x146
    ensures ToolOf(code) == 7 <==> code == 0x147
    ensures ToolOf(code) == 8 <==> code == 0x145
    ensures ToolOf(code) == 9 <==> code == 0x14d
    ensures 0 <= ToolOf(code) <= 9
  {
  }

  /** A tool that arrives becomes the tool type, joins the tools that are there, and puts the channel in proximity unless
      it was there already. Nothing else changes. */
  lemma {:induction false} ArrivalStep(c: Channel, e: Event, k: config, j: nat)
    requires e.kind == 1 && e.value != 0 && ToolOf(e.code) != 0 && j < 32
    ensures
      var r, tool := Dispatch(c, e, k), ToolOf(e.code);
      && r.s == c.s.(toolType := tool, proximity := if Has(c.tools, tool) then c.s.proximity else 1)
      && (Has(r.tools, j) <==> j == tool || Has(c.tools, j))
  {
    ToolIsNoButton(e.code, k.padKeys);
    SetAndClear(c.tools, ToolOf(e.code), j);
    hide With, Has, ButtonOf, ToolOf;
  }

  /** Only the arrival and the departure of a tool change the tool type and the set of tools. */
  lemma {:induction false} TypeStays(c: Channel, e: Event, k: config)
    requires Known(e) && (e.kind != 1 || ToolOf(e.code) == 0)
    ensures
      var r := Dispatch(c, e, k);
      && r.tools == c.tools && r.s.toolType == c.s.toolType && r.s.proximity == c.s.proximity && r.s.ranges == c.s.ranges
  {
    hide ButtonOf, ToolOf, With, Without;
  }

  // ----- Results

  /** What a call returns: -1 for a full buffer or a report for which there is no channel, the kind of the first event of
      an unknown kind in a report, and 0 otherwise. A tablet with one channel always has one. */
  lemma {:induction false} ResultsByCase(t: Tablet, e: Event, k: config)
    ensures
      var r, b := Feed(t, e, k).result, t.buffered + [e];
      var taken := k.channelCnt == 1 || exists i | 0 <= i < k.channelCnt :: t.channels[i].s.serial == t.lastSerial || t.channels[i].tools == 0;
      if |t.buffered| >= 32 then r == -1
      else if e.kind != 0 || e.code != 0 then r == 0
      else if !taken then r == -1
      else if forall i | 0 <= i < |b| :: 0 <= b[i].kind <= 4 then r == 0
      else exists i | 0 <= i < |b| :: (r == b[i].kind && (r < 0 || r > 4) && forall j | 0 <= j < i :: 0 <= b[j].kind <= 4)
  {
    var b := t.buffered + [e];
    if |t.buffered| < 32 && IsReport(e) {
      TakenIff(t.(buffered := b), k);
      var n := Stop(b, 0);
      assert forall i | 0 <= i < n :: b[..n][i] == b[i];
      hide Route, Replay, Stop;
    }
  }

  lemma {:induction false} TakenIff(t: Tablet, k: config)
    ensures Route(t, k).Some?
       <==> k.channelCnt == 1 || exists i | 0 <= i < k.channelCnt :: t.channels[i].s.serial == t.lastSerial || t.channels[i].tools == 0
  {
    var channels := t.channels[..k.channelCnt];
    assert forall i | 0 <= i < k.channelCnt :: channels[i] == t.channels[i];
    hide WithSerial, Vacant;
  }

  /** A report for which there is no channel, and an event that finds the buffer full, drop what was buffered and change no
      channel; then the first channel is the current one, or the current one stays. */
  lemma {:induction false} DroppedOnFailure(t: Tablet, e: Event, k: config)
    requires |t.buffered| >= 32 || (IsReport(e) && Route(t.(buffered := t.buffered + [e]), k) == None)
    ensures
      var r := Feed(t, e, k);
      r == Fed(-1, t.(buffered := [], lastSerial := 0, nChannel := if |t.buffered| >= 32 then t.nChannel else 0))
  {
    hide Route, Replay, Stop;
  }
}
