/** How often USBParseData of wacom/wacusb.c replays a buffered event. A report that an event of an unknown kind
    cuts short stays in the buffer, and the next end of a report replays it from its first event. */
module UsbReplays {
  import opened Bytes
  import opened TabletState
  import opened UsbTablet

  /** A stretch of the stream of events, by position. */
  datatype Stretch = Stretch(from: nat, to: nat)

  /** What the call replays; the event is number `at` of the stream and the buffered ones precede it. */
  function Replayed(t: Tablet, e: Event, k: config, at: nat): Option<Stretch>
    requires |t.buffered| <= at
  {
    var b := t.buffered + [e];
    if |t.buffered| >= MAX_USB_EVENTS || !IsReport(e) || Route(t.(buffered := b), k) == None then None
    else Some(Stretch(at - |t.buffered|, at - |t.buffered| + Stop(b, 0)))
  }

  /** Whether the call replays event number `i`. */
  predicate Replays(t: Tablet, e: Event, k: config, at: nat, i: nat)
    requires |t.buffered| <= at
  {
    match Replayed(t, e, k, at)
    case Some(r) => r.from <= i < r.to
    case None => false
  }

  /** How often a run replays event number `i`. */
  function Times(t: Tablet, events: seq<Event>, k: config, at: nat, i: nat): nat
    requires |t.buffered| <= at
    decreases |events|
  {
    if events == [] then 0
    else
      BufferBehind(t, events[0], k, at);
      (if Replays(t, events[0], k, at, i) then 1 else 0) + Times(Feed(t, events[0], k).t, events[1..], k, at + 1, i)
  }

  lemma BufferBehind(t: Tablet, e: Event, k: config, at: nat)
    requires |t.buffered| <= at
    ensures |Feed(t, e, k).t.buffered| <= at + 1
  {
  }

  /** What a call leaves in the buffer: all or nothing, and after a report all exactly if it was replayed in
      part only. */
  lemma {:induction false} Leftover(t: Tablet, e: Event, k: config)
    ensures
      var b, r := t.buffered + [e], Feed(t, e, k).t.buffered;
      && (r == [] || r == b)
      && (|t.buffered| < MAX_USB_EVENTS && IsReport(e) ==>
            (r == b <==> Route(t.(buffered := b), k).Some? && Stop(b, 0) < |b|))
  {
    hide Route, Replay, Stop;
  }

  /** Only what is in the buffer, or comes later, is replayed. */
  lemma {:induction false} NotBehind(t: Tablet, events: seq<Event>, k: config, at: nat, i: nat)
    requires |t.buffered| <= at && i < at - |t.buffered|
    ensures Times(t, events, k, at, i) == 0
    decreases |events|
  {
    hide Feed;
    if events == [] {
    } else {
      BufferBehind(t, events[0], k, at);
      Leftover(t, events[0], k);
      NotBehind(Feed(t, events[0], k).t, events[1..], k, at + 1, i);
    }
  }

  /** Of a stream of known events each is replayed at most once. */
  lemma {:induction false} OnceIfKnown(t: Tablet, events: seq<Event>, k: config, at: nat, i: nat)
    requires |t.buffered| <= at && AllKnown(t.buffered) && AllKnown(events)
    ensures Times(t, events, k, at, i) <= 1
    decreases |events|
  {
    hide Feed, Route, Stop;
    if events == [] {
    } else {
      var e, t' := events[0], Feed(t, events[0], k).t;
      BufferBehind(t, e, k, at);
      Leftover(t, e, k);
      assert AllKnown(t.buffered + [e]);
      AllKnownStops(t.buffered + [e]);
      if Replays(t, e, k, at, i) {
        NotBehind(t', events[1..], k, at + 1, i);
      } else {
        OnceIfKnown(t', events[1..], k, at + 1, i);
      }
    }
  }

  lemma {:induction false} StopStays(b: seq<Event>, more: seq<Event>, i: nat)
    requires i <= |b| && AllKnown(b[..i]) && Stop(b, i) < |b|
    ensures AllKnown((b + more)[..i]) && Stop(b + more, i) == Stop(b, i)
    decreases |b| - i
  {
    assert (b + more)[..i] == b[..i] && (b + more)[i] == b[i];
    if !Known(b[i]) {
    } else {
      assert b[..i + 1] == b[..i] + [b[i]];
      StopStays(b, more, i + 1);
    }
  }

  /** An end of a report that directly follows another replays an event of that report again exactly when the
      first was cut short behind it. Both find a channel and room in the buffer. */
  lemma {:induction false} AgainIff(t: Tablet, first: Event, second: Event, k: config, at: nat, i: nat)
    requires |t.buffered| <= at && at - |t.buffered| <= i <= at && |t.buffered| + 1 < MAX_USB_EVENTS
    requires IsReport(first) && IsReport(second) && Route(t.(buffered := t.buffered + [first]), k).Some?
    requires
      var t' := Feed(t, first, k).t;
      Route(t'.(buffered := t'.buffered + [second]), k).Some?
    ensures
      var b := t.buffered + [first];
      Times(t, [first, second], k, at, i) == 2 <==> Stop(b, 0) < |b| && i < at - |t.buffered| + Stop(b, 0)
  {
    var b, t' := t.buffered + [first], Feed(t, first, k).t;
    BufferBehind(t, first, k, at);
    Leftover(t, first, k);
    if Stop(b, 0) < |b| {
      StopStays(b, [second], 0);
    }
    TwoCalls(t, first, second, k, at, i);
    hide Feed, Route, Stop, Times;
  }

  lemma {:induction false} TwoCalls(t: Tablet, first: Event, second: Event, k: config, at: nat, i: nat)
    requires |t.buffered| <= at
    ensures |Feed(t, first, k).t.buffered| <= at + 1
    ensures Times(t, [first, second], k, at, i)
         == (if Replays(t, first, k, at, i) then 1 else 0) + (if Replays(Feed(t, first, k).t, second, k, at + 1, i) then 1 else 0)
  {
    hide Feed, Replays;
    BufferBehind(t, first, k, at);
    assert [first, second][1..] == [second];
    OneCall(Feed(t, first, k).t, second, k, at + 1, i);
  }

  lemma OneCall(t: Tablet, e: Event, k: config, at: nat, i: nat)
    requires |t.buffered| <= at
    ensures Times(t, [e], k, at, i) == if Replays(t, e, k, at, i) then 1 else 0
  {
    hide Feed, Replays;
    BufferBehind(t, e, k, at);
    assert [e][1..] == [];
  }

  /** From the start: a pen comes, an event of an unknown kind follows, and two ends of a report each replay the
      pen's coming. */
  lemma {:induction false} PenComesTwice(ranges: Ranges)
    ensures
      var events := [Event(EV_KEY, BTN_TOOL_PEN, 1), Event(17, 0, 0), Event(EV_SYN, SYN_REPORT, 0), Event(EV_SYN, SYN_REPORT, 0)];
      Times(Start(ranges), events, Config(1, true, []), 0, 0) == 2
  {
    var pen, other, end := Event(EV_KEY, BTN_TOOL_PEN, 1), Event(17, 0, 0), Event(EV_SYN, SYN_REPORT, 0);
    var t, k := Start(ranges), Config(1, true, []);
    var t2 := t.(buffered := [pen, other]);
    assert [pen, other, end, end][1..] == [other, end, end] && [other, end, end][1..] == [end, end];
    assert [] + [pen] == [pen] && [pen] + [other] == [pen, other];
    StopsAtSecond([pen, other, end]);
    assert [pen, other] + [end] == [pen, other, end];
    AgainIff(t2, end, end, k, 2, 0);
    hide Stop, Start;
    assert Times(t, [pen, other, end, end], k, 0, 0) == Times(t.(buffered := [pen]), [other, end, end], k, 1, 0);
    assert Times(t.(buffered := [pen]), [other, end, end], k, 1, 0) == Times(t2, [end, end], k, 2, 0);
  }

  lemma StopsAtSecond(b: seq<Event>)
    requires |b| >= 2 && Known(b[0]) && !Known(b[1])
    ensures Stop(b, 0) == 1
  {
    assert Stop(b, 1) == 1;
  }
}
