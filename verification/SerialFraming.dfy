/** The framing of the serial tablet driver, wacom/wacserial.c: SerialReadRaw gathers a packet from
    whatever pieces the line delivers, and SerialParseData checks that it is one. The first byte of a
    packet is the only one with its high bit set. */
module SerialFraming {
  type octets = seq<bv8>

  predicate High(b: bv8) {
    b & 0x80 != 0
  }

  /** One packet: SerialParseData's synchronization check. */
  predicate InSync(packet: octets) {
    packet != [] && High(packet[0]) && forall i | 1 <= i < |packet| :: !High(packet[i])
  }

  /** How many bytes precede the first one with a high bit. */
  function Low(s: octets): (k: nat)
    ensures k <= |s| && (forall i | 0 <= i < k :: !High(s[i])) && (k < |s| ==> High(s[k]))
  {
    if s == [] || High(s[0]) then 0 else 1 + Low(s[1..])
  }

  // ----- The environment

  /** How the line behaves when it is next asked. */
  datatype Mood = Quiet | Broken(code: int) | Ready(count: nat)

  /** The bytes that the tablet sends and the moods of the line; when none is left it stays quiet. */
  datatype Line = Line(input: octets, moods: seq<Mood>)

  /** What select and read bring: nothing, a result that is not positive, or at most `max` bytes. */
  datatype Delivery = Nothing(line: Line) | Failure(line: Line, code: int) | Data(line: Line, data: octets)

  function Deliver(line: Line, max: nat): (d: Delivery)
    ensures d.Failure? ==> d.code <= 0
    ensures d.Data? ==> 0 < |d.data| <= max && line.input == d.data + d.line.input && |d.line.moods| < |line.moods|
  {
    if line.moods == [] then Nothing(line)
    else
      var rest := line.moods[1..];
      match line.moods[0]
      case Quiet => Nothing(Line(line.input, rest))
      case Broken(code) => Failure(Line(line.input, rest), if code > 0 then 0 else code)
      case Ready(count) =>
        var n := Least(count, Least(max, |line.input|));
        if n == 0 then Nothing(Line(line.input, rest))
        else Data(Line(line.input[n..], rest), line.input[..n])
  }

  function Least(a: nat, b: nat): nat {
    if a < b then a else b
  }

  // ----- Reading one packet

  datatype Result = Complete(packet: octets) | TimedOut | Failed(code: int)

  datatype Reading = Reading(result: Result, line: Line, errors: nat)

  /** The loop of SerialReadRaw with `done` in the buffer. */
  function Gather(line: Line, done: octets, errors: nat, length: nat): Reading
    requires |done| <= length
    decreases |line.moods|
  {
    if |done| == length then Reading(Complete(done), line, errors)
    else
      match Deliver(line, length - |done|)
      case Nothing(rest) => Reading(TimedOut, rest, errors)
      case Failure(rest, code) => Reading(Failed(code), rest, errors)
      case Data(rest, data) =>
        if done != [] || High(data[0]) then Gather(rest, done + data, errors, length)
        else Gather(rest, data[Low(data)..], errors + 1, length)
  }

  /** The byte that stands first in the buffer when the loop ends, with `head` there before. */
  function HeadAfter(line: Line, done: octets, head: bv8, length: nat): bv8
    requires |done| <= length
    decreases |line.moods|
  {
    if |done| == length then head
    else
      match Deliver(line, length - |done|)
      case Nothing(_) => head
      case Failure(_, _) => head
      case Data(rest, data) =>
        if done != [] then HeadAfter(rest, done + data, head, length)
        else HeadAfter(rest, data[Low(data)..], if Low(data) < |data| then data[Low(data)] else data[0], length)
  }

  lemma {:induction false} HeadStep(line: Line, done: octets, head: bv8, length: nat)
    requires |done| < length
    ensures HeadAfter(line, done, head, length)
         == match Deliver(line, length - |done|)
            case Nothing(_) => head
            case Failure(_, _) => head
            case Data(rest, data) =>
              if done != [] || High(data[0]) then HeadAfter(rest, done + data, if done != [] then head else data[0], length)
              else HeadAfter(rest, data[Low(data)..], if Low(data) < |data| then data[Low(data)] else data[0], length)
  {
    var d := Deliver(line, length - |done|);
    if d.Data? && done == [] && High(d.data[0]) {
      assert Low(d.data) == 0 && d.data[0..] == [] + d.data == d.data;
    }
    hide Deliver, Low, High;
  }

  lemma HeadEnds(line: Line, done: octets, head: bv8, length: nat)
    requires |done| == length
    ensures HeadAfter(line, done, head, length) == head
  {
  }

  /** A read that has begun leaves the first byte of its packet in front; so a completed one does too. */
  lemma {:induction false} HeadOfRest(line: Line, done: octets, errors: nat, length: nat)
    requires 0 < |done| <= length
    ensures HeadAfter(line, done, done[0], length) == done[0]
    ensures
      var r := Gather(line, done, errors, length).result;
      r.Complete? ==> |r.packet| == length && r.packet[0] == done[0]
    decreases |line.moods|
  {
    if |done| == length {
    } else {
      var d := Deliver(line, length - |done|);
      hide Deliver;
      if d.Data? {
        HeadOfRest(d.line, done + d.data, errors, length);
      }
    }
  }

  /** A completed read leaves its packet's first byte in front of the buffer, and a read that got no byte leaves there what
      was there. */
  lemma {:induction false} HeadOfPacket(line: Line, head: bv8, errors: nat, length: nat)
    requires length > 0
    ensures
      var r := Gather(line, [], errors, length);
      && (r.result.Complete? ==> r.result.packet != [] && HeadAfter(line, [], head, length) == r.result.packet[0])
      && (!Deliver(line, length).Data? ==> HeadAfter(line, [], head, length) == head)
    decreases |line.moods|
  {
    var d := Deliver(line, length);
    HeadStep(line, [], head, length);
    GatherStep(line, [], errors, length);
    hide Deliver, High;
    if d.Data? {
      if High(d.data[0]) {
        assert [] + d.data == d.data;
        HeadOfRest(d.line, d.data, errors, length);
      } else if Low(d.data) < |d.data| {
        HeadOfRest(d.line, d.data[Low(d.data)..], errors + 1, length);
      } else {
        assert d.data[Low(d.data)..] == [];
        HeadOfPacket(d.line, d.data[0], errors + 1, length);
      }
    }
  }

  /** What is read and left does not depend on the errors counted. */
  lemma {:induction false} ErrorsDoNotMatter(line: Line, done: octets, errors: nat, errors': nat, length: nat)
    requires |done| <= length
    ensures Gather(line, done, errors, length).result == Gather(line, done, errors', length).result
    ensures Gather(line, done, errors, length).line == Gather(line, done, errors', length).line
    decreases |line.moods|
  {
    if |done| == length {
    } else {
      var d := Deliver(line, length - |done|);
      hide Deliver, Low, High;
      if d.Data? {
        if done != [] || High(d.data[0]) {
          ErrorsDoNotMatter(d.line, done + d.data, errors, errors', length);
        } else {
          ErrorsDoNotMatter(d.line, d.data[Low(d.data)..], errors + 1, errors' + 1, length);
        }
      }
    }
  }

  /** One round of the loop. */
  lemma GatherStep(line: Line, done: octets, errors: nat, length: nat)
    requires |done| <= length
    ensures
      Gather(line, done, errors, length)
      == if |done| == length then Reading(Complete(done), line, errors)
         else match Deliver(line, length - |done|)
              case Nothing(rest) => Reading(TimedOut, rest, errors)
              case Failure(rest, code) => Reading(Failed(code), rest, errors)
              case Data(rest, data) =>
                if done != [] || High(data[0]) then Gather(rest, done + data, errors, length)
                else Gather(rest, data[Low(data)..], errors + 1, length)
  {
  }

  /** Once a first byte has been found, the bytes that follow are taken as they come. */
  lemma {:induction false} GatherRest(line: Line, done: octets, errors: nat, length: nat)
    requires 0 < |done| <= length && Gather(line, done, errors, length).result.Complete?
    ensures
      var r, n := Gather(line, done, errors, length), length - |done|;
      n <= |line.input| && r == Reading(Complete(done + line.input[..n]), r.line, errors) && r.line.input == line.input[n..]
    decreases |line.moods|
  {
    if |done| < length {
      var d := Deliver(line, length - |done|);
      GatherRest(d.line, done + d.data, errors, length);
      Split(done, d.data, d.line.input, length - |done|);
    } else {
      assert done + line.input[..0] == done;
    }
  }

  lemma Split(done: octets, data: octets, rest: octets, n: nat)
    requires |data| <= n <= |data| + |rest|
    ensures done + (data + rest)[..n] == done + data + rest[..n - |data|]
    ensures (data + rest)[n..] == rest[n - |data|..]
  {
  }

  /** What a completed read from `input` must come to. */
  predicate NextFrame(r: Reading, input: octets, errors: nat, length: nat) {
    var k := Low(input);
    && k + length <= |input|
    && r.result == Complete(input[k..k + length]) && r.line.input == input[k + length..]
    && errors <= r.errors <= errors + k && (r.errors == errors <==> k == 0)
  }

  lemma {:induction false} FirstRound(line: Line, errors: nat, length: nat)
    requires length > 0 && Gather(line, [], errors, length).result.Complete?
    ensures
      var d := Deliver(line, length);
      && d.Data?
      && var k := Low(d.data);
      Gather(line, [], errors, length) == Gather(d.line, d.data[k..], if k == 0 then errors else errors + 1, length)
  {
    hide Deliver, Low;
    var d := Deliver(line, length);
    var k := Low(d.data);
    assert High(d.data[0]) <==> k == 0;
    assert [] + d.data == d.data && (k == 0 ==> d.data[k..] == d.data);
  }

  /** However the line splits its bytes, a read that completes returns exactly the first `length` bytes
      from the first high bit on and consumes nothing behind them. It counts an error just when it had
      to discard something, and never more than one per byte. */
  lemma {:induction false} ReadIsNextFrame(line: Line, errors: nat, length: nat)
    requires length > 0 && Gather(line, [], errors, length).result.Complete?
    ensures NextFrame(Gather(line, [], errors, length), line.input, errors, length)
    decreases |line.moods|
  {
    hide Low, NextFrame;
    var d := Deliver(line, length);
    hide Deliver, High;
    FirstRound(line, errors, length);
    var k := Low(d.data);
    if k == |d.data| {
      ReadIsNextFrame(d.line, errors + 1, length);
      FrameBehind(Gather(d.line, [], errors + 1, length), d.data, d.line.input, errors, length);
    } else {
      var errors' := if k == 0 then errors else errors + 1;
      GatherRest(d.line, d.data[k..], errors', length);
      FrameHere(Gather(d.line, d.data[k..], errors', length), d.data, d.line.input, errors, length);
    }
  }

  lemma {:induction false} ErrorsAdd(line: Line, done: octets, errors: nat, length: nat)
    requires |done| <= length
    ensures Gather(line, done, errors + 1, length).errors == Gather(line, done, errors, length).errors + 1
    decreases |line.moods|
  {
    GatherStep(line, done, errors, length);
    GatherStep(line, done, errors + 1, length);
    if |done| == length {
    } else {
      var d := Deliver(line, length - |done|);
      hide Deliver, Gather, Low, High;
      if d.Data? {
        if done != [] || High(d.data[0]) {
          ErrorsAdd(d.line, done + d.data, errors, length);
        } else {
          ErrorsAdd(d.line, d.data[Low(d.data)..], errors + 1, length);
        }
      }
    }
  }

  /** What is thrown away of one delivery counts as one error, however many bytes it is, and every delivery counts for
      itself. */
  lemma {:induction false} OneErrorPerDelivery(line: Line, errors: nat, length: nat)
    requires length > 0 && Gather(line, [], errors, length).result.Complete?
    ensures
      var d, r := Deliver(line, length), Gather(line, [], errors, length);
      && d.Data?
      && (High(d.data[0]) ==> r.errors == errors)
      && (!High(d.data[0]) && !NoHigh(d.data) ==> r.errors == errors + 1)
      && (NoHigh(d.data) ==> r.errors == Gather(d.line, [], errors, length).errors + 1)
  {
    FirstRound(line, errors, length);
    var d := Deliver(line, length);
    var k := Low(d.data);
    assert k < |d.data| ==> High(d.data[k]);
    hide Deliver, High;
    if k < |d.data| {
      GatherRest(d.line, d.data[k..], if k == 0 then errors else errors + 1, length);
    } else {
      assert d.data[k..] == [];
      ErrorsAdd(d.line, [], errors, length);
    }
  }

  lemma {:induction false} FrameBehind(r: Reading, data: octets, rest: octets, errors: nat, length: nat)
    requires data != [] && Low(data) == |data| && NextFrame(r, rest, errors + 1, length)
    ensures NextFrame(r, data + rest, errors, length)
  {
    hide Low;
    LowOf(data, rest);
    var k := Low(rest);
    assert (data + rest)[|data| + k..|data| + k + length] == rest[k..k + length];
    assert (data + rest)[|data| + k + length..] == rest[k + length..];
  }

  lemma {:induction false} FrameHere(r: Reading, data: octets, rest: octets, errors: nat, length: nat)
    requires var k := Low(data);
             var n := length - (|data| - k);
             && k < |data| <= k + length && n <= |rest| && r.result == Complete(data[k..] + rest[..n])
             && r.line.input == rest[n..] && r.errors == if k == 0 then errors else errors + 1
    ensures NextFrame(r, data + rest, errors, length)
  {
    hide Low;
    LowOf(data, rest);
    var k := Low(data);
    var n := length - (|data| - k);
    assert (data + rest)[k..k + length] == data[k..] + rest[..n];
    assert (data + rest)[k + length..] == rest[n..];
  }

  /** The count of low bytes is the index of the first high one. */
  lemma {:induction false} LowIs(s: octets, k: nat)
    requires k <= |s| && (forall i | 0 <= i < k :: !High(s[i])) && (k < |s| ==> High(s[k]))
    ensures Low(s) == k
  {
    hide High;
    if k == 0 {
    } else {
      LowIs(s[1..], k - 1);
    }
  }

  lemma {:induction false} LowOf(data: octets, rest: octets)
    ensures Low(data + rest) == if Low(data) < |data| then Low(data) else |data| + Low(rest)
  {
    LowIs(data + rest, if Low(data) < |data| then Low(data) else |data| + Low(rest));
  }

  /** Framing does not depend on how the reads are split: two lines with the same bytes give the same
      packet and leave the same bytes. */
  lemma {:induction false} SplittingDoesNotMatter(a: Line, b: Line, errors: nat, errors': nat, length: nat)
    requires a.input == b.input && length > 0
    requires Gather(a, [], errors, length).result.Complete? && Gather(b, [], errors', length).result.Complete?
    ensures Gather(a, [], errors, length).result == Gather(b, [], errors', length).result
    ensures Gather(a, [], errors, length).line.input == Gather(b, [], errors', length).line.input
  {
    ReadIsNextFrame(a, errors, length);
    ReadIsNextFrame(b, errors', length);
  }

  /** A read takes bytes from the front of the line only. */
  lemma {:induction false} GatherConsumes(line: Line, done: octets, errors: nat, length: nat) returns (c: nat)
    requires |done| <= length
    ensures c <= |line.input| && Gather(line, done, errors, length).line.input == line.input[c..]
    decreases |line.moods|
  {
    GatherStep(line, done, errors, length);
    if |done| == length {
      c := 0;
    } else {
      var d := Deliver(line, length - |done|);
      if d.Data? {
        hide Deliver, Gather, High;
        var keeps := done != [] || High(d.data[0]);
        c := GatherConsumes(d.line, if keeps then done + d.data else d.data[Low(d.data)..],
                            if keeps then errors else errors + 1, length);
        Behind(d.data, d.line.input, c);
        c := |d.data| + c;
      } else {
        c := 0;
      }
    }
  }

  lemma Behind(data: octets, rest: octets, c: nat)
    requires c <= |rest|
    ensures (data + rest)[|data| + c..] == rest[c..]
  {
  }

  // ----- Streams of packets

  predicate NoHigh(s: octets) {
    forall i | 0 <= i < |s| :: !High(s[i])
  }

  predicate Packets(packets: seq<octets>, length: nat) {
    forall i | 0 <= i < |packets| :: |packets[i]| == length && InSync(packets[i])
  }

  function Concat(packets: seq<octets>): octets {
    if packets == [] then [] else packets[0] + Concat(packets[1..])
  }

  /** What is left of a stream of packets when it is entered at any place: the rest of a packet, whole
      packets, and the beginning of one. */
  ghost predicate Cut(input: octets, tail: octets, packets: seq<octets>, part: octets, length: nat) {
    && input == tail + Concat(packets) + part
    && NoHigh(tail) && Packets(packets, length) && |part| < length && (part == [] || InSync(part))
  }

  lemma DropFrom(a: octets, b: octets, c: octets, n: nat)
    requires n <= |a| + |b| + |c|
    ensures n <= |a| ==> (a + b + c)[n..] == a[n..] + b + c
    ensures n >= |a| ==> (a + b + c)[n..] == (b + c)[n - |a|..]
    ensures a + (b + c) == a + b + c
  {
  }

  /** Wherever a stream of packets is entered, what is left has that form. */
  lemma {:induction false} CutAnywhere(input: octets, tail: octets, packets: seq<octets>, part: octets, length: nat, c: nat)
    returns (tail': octets, m: nat, part': octets)
    requires Cut(input, tail, packets, part, length) && c <= |input|
    ensures m <= |packets| && Cut(input[c..], tail', packets[m..], part', length)
    decreases |packets|
  {
    hide High, InSync;
    DropFrom(tail, Concat(packets), part, c);
    if c <= |tail| {
      tail', m, part' := tail[c..], 0, part;
    } else if packets == [] {
      tail', m, part' := EnterPart(part, length, c - |tail|);
    } else {
      var first, c' := packets[0], c - |tail|;
      DropFrom(first, Concat(packets[1..]), part, c');
      PacketsRest(packets, length);
      if c' <= length {
        tail', m, part' := first[c'..], 1, part;
      } else {
        var behind := Concat(packets[1..]) + part;
        assert [] + Concat(packets[1..]) + part == behind;
        tail', m, part' := CutAnywhere(behind, [], packets[1..], part, length, c' - length);
        assert packets[1..][m..] == packets[1 + m..];
        m := 1 + m;
      }
    }
  }

  lemma {:induction false} EnterPart(part: octets, length: nat, c: nat) returns (tail': octets, m: nat, part': octets)
    requires 0 < c <= |part| < length && InSync(part)
    ensures m == 0 && Cut((Concat([]) + part)[c..], tail', [], part', length)
  {
    tail', m, part' := part[c..], 0, [];
    assert Concat([]) + part == part;
    assert part[c..] == tail' + [] + [];
  }

  lemma PacketsRest(packets: seq<octets>, length: nat)
    requires packets != [] && Packets(packets, length)
    ensures Packets(packets[1..], length) && |packets[0]| == length && InSync(packets[0]) && NoHigh(packets[0][1..])
    ensures forall c: nat | 0 < c <= length :: NoHigh(packets[0][c..])
  {
  }

  /** A completed read returns the next whole packet, whatever the place at which the stream was
      entered, and ends on a packet boundary. */
  lemma {:induction false} ReadSynchronises(line: Line, errors: nat, tail: octets, packets: seq<octets>, part: octets, length: nat)
    requires Cut(line.input, tail, packets, part, length) && length > 0
    requires Gather(line, [], errors, length).result.Complete?
    ensures
      var r := Gather(line, [], errors, length);
      && packets != [] && r.result == Complete(packets[0]) && Cut(r.line.input, [], packets[1..], part, length)
      && (r.errors == errors <==> tail == [])
  {
    ReadIsNextFrame(line, errors, length);
    NextOfCut(line.input, tail, packets, part, length);
  }

  lemma {:induction false} NextOfCut(input: octets, tail: octets, packets: seq<octets>, part: octets, length: nat)
    requires Cut(input, tail, packets, part, length) && Low(input) + length <= |input|
    ensures Low(input) == |tail| && packets != [] && input[|tail|..|tail| + length] == packets[0]
    ensures Cut(input[|tail| + length..], [], packets[1..], part, length)
  {
    hide Low, High;
    LowOfCut(input, tail, packets, part, length);
    PacketsRest(packets, length);
    var behind := Concat(packets[1..]) + part;
    assert input == tail + (packets[0] + behind);
    assert input[|tail| + length..] == behind == [] + Concat(packets[1..]) + part;
  }

  lemma {:induction false} LowOfCut(input: octets, tail: octets, packets: seq<octets>, part: octets, length: nat)
    requires Cut(input, tail, packets, part, length)
    ensures Low(input) == |tail|
  {
    hide Low, High;
    if packets != [] {
      assert input[|tail|] == packets[0][0];
    }
    LowIs(input, |tail|);
  }

  // ----- Sessions: read, check, read, check

  /** The line and the driver's count of bit errors; `resets` counts how often the tablet was reset. */
  datatype Tablet = Tablet(line: Line, errors: nat, resets: nat)

  datatype Step = Step(result: Result, t: Tablet)

  /** SerialReadRaw: more than three errors reset the tablet first. */
  function ReadPacket(t: Tablet, length: nat): Step {
    var again := t.errors > 3;
    var r := Gather(t.line, [], if again then 0 else t.errors, length);
    Step(r.result, Tablet(r.line, r.errors, if again then t.resets + 1 else t.resets))
  }

  /** What SerialParseData makes of the count. */
  function Checked(t: Tablet, packet: octets): Tablet {
    t.(errors := if InSync(packet) then 0 else t.errors + 1)
  }

  function Cycle(t: Tablet, length: nat): Step {
    var s := ReadPacket(t, length);
    if s.result.Complete? then Step(s.result, Checked(s.t, s.result.packet)) else s
  }

  datatype History = History(results: seq<Result>, t: Tablet)

  /** `n` reads, each packet checked as it comes. */
  function Session(t: Tablet, n: nat, length: nat): History
    decreases n
  {
    if n == 0 then History([], t)
    else
      var s := Cycle(t, length);
      var rest := Session(s.t, n - 1, length);
      History([s.result] + rest.results, rest.t)
  }

  /** The packets read are packets of the stream, in their order, and each at most once. */
  ghost predicate InOrder(results: seq<Result>, packets: seq<octets>)
    decreases |results|
  {
    results == [] ||
    if results[0].Complete? then
      exists j | 0 <= j < |packets| :: packets[j] == results[0].packet && InOrder(results[1..], packets[j + 1..])
    else InOrder(results[1..], packets)
  }

  lemma {:induction false} InOrderLater(results: seq<Result>, packets: seq<octets>, m: nat)
    requires m <= |packets| && InOrder(results, packets[m..])
    ensures InOrder(results, packets)
    decreases |results|
  {
    if results == [] {
    } else {
      if results[0].Complete? {
        var later := packets[m..];
        var j :| 0 <= j < |later| && later[j] == results[0].packet && InOrder(results[1..], later[j + 1..]);
        assert packets[m + j] == later[j] && packets[m + j + 1..] == later[j + 1..];
      } else {
        InOrderLater(results[1..], packets, m);
      }
    }
  }

  /** Whatever the line does, with quiet spells and failures in the middle of packets: every read that
      completes returns a whole packet of the stream, later than the one before, and no packet that
      is returned fails the synchronization check. */
  lemma {:induction false} OnlyWholePackets(t: Tablet, n: nat, tail: octets, packets: seq<octets>, part: octets, length: nat)
    requires Cut(t.line.input, tail, packets, part, length) && length > 0
    ensures InOrder(Session(t, n, length).results, packets)
    ensures forall r | r in Session(t, n, length).results :: r.Complete? ==> InSync(r.packet)
    decreases n
  {
    hide Gather, Cut;
    if n == 0 {
    } else {
      var errors := if t.errors > 3 then 0 else t.errors;
      var s, rest := Cycle(t, length), Session(Cycle(t, length).t, n - 1, length).results;
      assert ([s.result] + rest)[1..] == rest;
      if s.result.Complete? {
        ReadSynchronises(t.line, errors, tail, packets, part, length);
        OnlyWholePackets(s.t, n - 1, [], packets[1..], part, length);
        FirstInSync(t.line.input, tail, packets, part, length);
        assert packets[0 + 1..] == packets[1..];
      } else {
        var c := GatherConsumes(t.line, [], errors, length);
        var tail', m, part' := CutAnywhere(t.line.input, tail, packets, part, length, c);
        OnlyWholePackets(s.t, n - 1, tail', packets[m..], part', length);
        InOrderLater(rest, packets, m);
      }
    }
  }

  lemma FirstInSync(input: octets, tail: octets, packets: seq<octets>, part: octets, length: nat)
    requires Cut(input, tail, packets, part, length) && packets != []
    ensures InSync(packets[0])
  {
  }

  /** When every read completes nothing is lost: from any place in the stream the reads return its
      packets one by one, no error stays counted, and the tablet is reset at most once, for the errors
      of before. */
  lemma {:induction false} NothingIsLost(t: Tablet, n: nat, tail: octets, packets: seq<octets>, part: octets, length: nat)
    requires Cut(t.line.input, tail, packets, part, length) && length > 0 && n > 0
    requires forall r | r in Session(t, n, length).results :: r.Complete?
    ensures
      var h := Session(t, n, length);
      && n <= |packets| && |h.results| == n && (forall i | 0 <= i < n :: h.results[i] == Complete(packets[i]))
      && h.t.errors == 0 && h.t.resets == t.resets + (if t.errors > 3 then 1 else 0)
      && Cut(h.t.line.input, [], packets[n..], part, length)
    decreases n
  {
    hide Gather, Cut;
    var errors := if t.errors > 3 then 0 else t.errors;
    var s := Cycle(t, length);
    var rest := Session(s.t, n - 1, length);
    var results := [s.result] + rest.results;
    assert results[0] in Session(t, n, length).results;
    ReadSynchronises(t.line, errors, tail, packets, part, length);
    FirstInSync(t.line.input, tail, packets, part, length);
    if n > 1 {
      assert forall r | r in rest.results :: r in results;
      NothingIsLost(s.t, n - 1, [], packets[1..], part, length);
      assert packets[1..][n - 1..] == packets[n..];
      assert forall i | 1 <= i < n :: results[i] == rest.results[i - 1] && packets[i] == packets[1..][i - 1];
    }
  }

  // ----- Packets out of step

  lemma {:induction false} GatherCounts(line: Line, done: octets, errors: nat, length: nat)
    requires |done| <= length
    ensures Gather(line, done, errors, length).errors >= errors
    decreases |line.moods|
  {
    if |done| == length {
    } else {
      GatherStep(line, done, errors, length);
      var d := Deliver(line, length - |done|);
      hide Deliver, Low, High;
      if d.Data? {
        if done != [] || High(d.data[0]) {
          GatherCounts(d.line, done + d.data, errors, length);
        } else {
          GatherCounts(d.line, d.data[Low(d.data)..], errors + 1, length);
        }
      }
    }
  }

  /** A packet whose first byte is low, or another byte high, adds an error to those of its read; a packet in step takes
      them all away; and the read after more than three of them resets the tablet, once. */
  lemma {:induction false} CycleCounts(t: Tablet, length: nat)
    ensures
      var s := Cycle(t, length);
      && s.t.resets == (if t.errors >= 4 then t.resets + 1 else t.resets)
      && (s.result.Complete? && InSync(s.result.packet) ==> s.t.errors == 0)
      && (s.result.Complete? && !InSync(s.result.packet) ==> s.t.errors > if t.errors >= 4 then 0 else t.errors)
      && s.t.errors >= if s.result.Complete? || t.errors >= 4 then 0 else t.errors
  {
    GatherCounts(t.line, [], if t.errors > 3 then 0 else t.errors, length);
    hide Gather, InSync;
  }

  lemma {:induction false} ResetsGrow(t: Tablet, n: nat, length: nat)
    ensures Session(t, n, length).t.resets >= t.resets
    decreases n
  {
    if n == 0 {
    } else {
      CycleCounts(t, length);
      hide Cycle;
      ResetsGrow(Cycle(t, length).t, n - 1, length);
    }
  }

  /** Five packets in a row out of step reset the tablet. */
  lemma {:induction false} OutOfStepResets(t: Tablet, n: nat, length: nat)
    requires forall r | r in Session(t, n, length).results :: r.Complete? && !InSync(r.packet)
    ensures
      var h := Session(t, n, length);
      && (h.t.resets == t.resets ==> h.t.errors >= t.errors + n && (n == 0 || t.errors + n <= 4))
      && (n >= 5 ==> h.t.resets > t.resets)
    decreases n
  {
    if n == 0 {
    } else {
      var s := Cycle(t, length);
      CycleCounts(t, length);
      SessionStep(t, n, length);
      assert s.result in Session(t, n, length).results;
      assert forall r | r in Session(s.t, n - 1, length).results :: r in Session(t, n, length).results;
      ResetsGrow(s.t, n - 1, length);
      hide Cycle;
      OutOfStepResets(s.t, n - 1, length);
    }
  }

  // ----- When reads complete

  /** From now on the line has something whenever it is asked, as long as the tablet has sent it. */
  predicate Patient(line: Line) {
    forall i | 0 <= i < |line.moods| :: line.moods[i].Ready? && line.moods[i].count > 0
  }

  lemma {:induction false} PatientDelivers(line: Line, max: nat)
    requires Patient(line) && line.moods != [] && max > 0
    ensures
      var d := Deliver(line, max);
      if line.input == [] then d.Nothing?
      else d.Data? && Patient(d.line) && |d.line.moods| == |line.moods| - 1
  {
  }

  /** On a patient line a read that has begun completes exactly if the bytes for the rest are there. */
  lemma {:induction false} RestCompletesIff(line: Line, done: octets, errors: nat, length: nat)
    requires 0 < |done| <= length && Patient(line) && |line.moods| >= length - |done|
    ensures
      var r := Gather(line, done, errors, length);
      && (r.result.Complete? <==> |line.input| >= length - |done|)
      && (r.result.Complete? ==> Patient(r.line) && |r.line.moods| >= |line.moods| - (length - |done|))
    decreases |line.moods|
  {
    if |done| == length {
    } else {
      PatientDelivers(line, length - |done|);
      var d := Deliver(line, length - |done|);
      hide Deliver, Patient;
      if d.Data? {
        RestCompletesIff(d.line, done + d.data, errors, length);
      }
    }
  }

  /** On a patient line that answers often enough a read completes exactly if a whole packet length is there from
      the first high bit on; and it asks no more often than it takes bytes. */
  lemma {:induction false} CompletesIff(line: Line, errors: nat, length: nat)
    requires length > 0 && Patient(line) && |line.moods| >= Low(line.input) + length
    ensures
      var r := Gather(line, [], errors, length);
      && (r.result.Complete? <==> |line.input| >= Low(line.input) + length)
      && (r.result.Complete? ==> Patient(r.line) && |r.line.moods| >= |line.moods| - (Low(line.input) + length))
    decreases |line.moods|
  {
    PatientDelivers(line, length);
    var d := Deliver(line, length);
    if d.Data? {
      var k := Low(d.data);
      LowOf(d.data, d.line.input);
      assert [] + d.data == d.data && (k == 0 ==> d.data[k..] == d.data);
      hide Deliver, Patient, Low, High;
      FirstData(line, errors, length);
      if k == |d.data| {
        CompletesIff(d.line, errors + 1, length);
      } else {
        RestCompletesIff(d.line, d.data[k..], if k == 0 then errors else errors + 1, length);
      }
    }
  }

  lemma {:induction false} FirstData(line: Line, errors: nat, length: nat)
    requires length > 0 && Deliver(line, length).Data?
    ensures
      var d := Deliver(line, length);
      var k := Low(d.data);
      Gather(line, [], errors, length)
      == if k == |d.data| then Gather(d.line, [], errors + 1, length)
         else Gather(d.line, d.data[k..], if k == 0 then errors else errors + 1, length)
  {
    hide Deliver, Low;
    var d := Deliver(line, length);
    var k := Low(d.data);
    assert High(d.data[0]) <==> k == 0;
    assert [] + d.data == d.data && (k == 0 ==> d.data[k..] == d.data) && d.data[|d.data|..] == [];
  }

  /** From any place in a stream of packets, on a patient line, as many reads complete as packets begin behind
      that place; then they have returned them all. */
  lemma {:induction false} PatientSession(t: Tablet, n: nat, tail: octets, packets: seq<octets>, part: octets, length: nat)
    requires Cut(t.line.input, tail, packets, part, length) && length > 0 && 0 < n <= |packets|
    requires Patient(t.line) && |t.line.moods| >= |tail| + n * length
    ensures
      var h := Session(t, n, length);
      && |h.results| == n && (forall i | 0 <= i < n :: h.results[i] == Complete(packets[i])) && h.t.errors == 0
      && Cut(h.t.line.input, [], packets[n..], part, length)
  {
    AllComplete(t, n, tail, packets, part, length);
    hide Session, Cut, Patient;
    NothingIsLost(t, n, tail, packets, part, length);
  }

  lemma {:induction false} OneCompletes(t: Tablet, tail: octets, packets: seq<octets>, part: octets, length: nat)
    requires Cut(t.line.input, tail, packets, part, length) && length > 0 && packets != []
    requires Patient(t.line) && |t.line.moods| >= |tail| + length
    ensures
      var s := Cycle(t, length);
      && s.result.Complete? && Cut(s.t.line.input, [], packets[1..], part, length)
      && Patient(s.t.line) && |s.t.line.moods| >= |t.line.moods| - |tail| - length
  {
    var errors := if t.errors > 3 then 0 else t.errors;
    LowOfCut(t.line.input, tail, packets, part, length);
    CutIsLong(t.line.input, tail, packets, part, length);
    hide Gather, Cut, Low, Patient, InSync;
    CompletesIff(t.line, errors, length);
    ReadSynchronises(t.line, errors, tail, packets, part, length);
  }

  lemma {:induction false} AllComplete(t: Tablet, n: nat, tail: octets, packets: seq<octets>, part: octets, length: nat)
    requires Cut(t.line.input, tail, packets, part, length) && length > 0 && n <= |packets|
    requires Patient(t.line) && |t.line.moods| >= |tail| + n * length
    ensures forall r | r in Session(t, n, length).results :: r.Complete?
    decreases n
  {
    hide Cut, Patient, Cycle;
    if n == 0 {
    } else {
      OneLess(n, length);
      hide Session;
      OneCompletes(t, tail, packets, part, length);
      SessionStep(t, n, length);
      AllComplete(Cycle(t, length).t, n - 1, [], packets[1..], part, length);
    }
  }

  lemma SessionStep(t: Tablet, n: nat, length: nat)
    requires n > 0
    ensures Session(t, n, length).results == [Cycle(t, length).result] + Session(Cycle(t, length).t, n - 1, length).results
  {
    hide Cycle;
  }

  lemma OneLess(n: nat, length: nat)
    requires n > 0
    ensures n * length == (n - 1) * length + length && (n - 1) * length >= 0
  {
  }

  lemma CutIsLong(input: octets, tail: octets, packets: seq<octets>, part: octets, length: nat)
    requires Cut(input, tail, packets, part, length) && packets != []
    ensures |input| >= |tail| + length
  {
  }

  // ----- The driver

  class SerialTablet {
    const uPacketLength: nat
    var nBitErrors: nat
    var line: Line
    /** How often the tablet has been reset. */
    ghost var resets: nat

    ghost function Abs(): Tablet
      reads this
    {
      Tablet(line, nBitErrors, resets)
    }

    constructor (packetLength: nat, line: Line)
      ensures uPacketLength == packetLength && Abs() == Tablet(line, 0, 0)
    {
      uPacketLength, nBitErrors, this.line, resets := packetLength, 0, line, 0;
    }

    /** Read one packet into the buffer; `result` is what the caller is told. */
    method ReadRaw(puchData: array<bv8>) returns (r: int, ghost result: Result)
      modifies this, puchData
      ensures puchData.Length < uPacketLength ==> r == 0 && Abs() == old(Abs()) && puchData[..] == old(puchData[..])
      ensures puchData.Length >= uPacketLength ==> ReadPacket(old(Abs()), uPacketLength) == Step(result, Abs())
      ensures puchData.Length >= uPacketLength ==>
                match result
                case Complete(packet) => r == uPacketLength && puchData[..r] == packet
                case TimedOut => r == -1
                case Failed(code) => r == code <= 0
      ensures puchData.Length >= uPacketLength && puchData.Length > 0 ==>
                puchData[0] == HeadAfter(old(line), [], old(puchData[0]), uPacketLength)
    {
      if puchData.Length < uPacketLength {
        return 0, TimedOut;
      }
      if nBitErrors > 3 {
        nBitErrors := 0;
        resets := resets + 1;
      }
      r, result := Fill(puchData);
    }

    /** The loop of SerialReadRaw. */
    method Fill(puchData: array<bv8>) returns (r: int, ghost result: Result)
      requires uPacketLength <= puchData.Length
      modifies this`line, this`nBitErrors, puchData
      ensures Gather(old(line), [], old(nBitErrors), uPacketLength) == Reading(result, line, nBitErrors)
      ensures match result
              case Complete(packet) => r == uPacketLength && puchData[..r] == packet
              case TimedOut => r == -1
              case Failed(code) => r == code <= 0
      ensures puchData.Length > 0 ==> puchData[0] == HeadAfter(old(line), [], old(puchData[0]), uPacketLength)
    {
      hide Gather, HeadAfter, Deliver, Low, High;
      ghost var all := Gather(line, [], nBitErrors, uPacketLength);
      ghost var head := if puchData.Length > 0 then HeadAfter(line, [], puchData[0], uPacketLength) else 0;
      var uCnt: nat := 0;
      ghost var done: octets := [];
      while uCnt < uPacketLength
        invariant uCnt <= uPacketLength && puchData[..uCnt] == done && (uCnt > 0 ==> High(puchData[0]))
        invariant Gather(line, done, nBitErrors, uPacketLength) == all
        invariant puchData.Length > 0 ==> HeadAfter(line, done, puchData[0], uPacketLength) == head
        decreases |line.moods|
      {
        GatherStep(line, done, nBitErrors, uPacketLength);
        HeadStep(line, done, puchData[0], uPacketLength);
        var d := Deliver(line, uPacketLength - uCnt);
        line := d.line;
        if d.Nothing? {
          return -1, TimedOut;
        }
        if d.Failure? {
          return d.code, Failed(d.code);
        }
        var nXfer := Take(puchData, uCnt, d.data);
        uCnt := uCnt + nXfer;
        done := puchData[..uCnt];
      }
      GatherStep(line, done, nBitErrors, uPacketLength);
      HeadEnds(line, done, if puchData.Length > 0 then puchData[0] else 0, uPacketLength);
      return uCnt, Complete(done);
    }

    /** Put what was read behind the first `uCnt` bytes of the buffer, look for the high bit from the
        start of the buffer, and move what follows it down; `nXfer` bytes stay. */
    method Take(puchData: array<bv8>, uCnt: nat, data: octets) returns (nXfer: nat)
      requires data != [] && uCnt + |data| <= puchData.Length && (uCnt > 0 ==> High(puchData[0]))
      modifies this`nBitErrors, puchData
      ensures nXfer <= |data| && (uCnt + nXfer > 0 ==> High(puchData[0]))
      ensures puchData[..uCnt + nXfer]
           == if uCnt > 0 || High(data[0]) then old(puchData[..uCnt]) + data else data[Low(data)..]
      ensures nBitErrors == if uCnt > 0 || High(data[0]) then old(nBitErrors) else old(nBitErrors) + 1
      ensures puchData[0] == if uCnt > 0 then old(puchData[0]) else if Low(data) < |data| then data[Low(data)] else data[0]
    {
      hide Low, High;
      Store(puchData, uCnt, data);
      nXfer := |data|;
      var pos := 0;
      while pos < nXfer && !High(puchData[pos])
        invariant pos <= nXfer && forall i | 0 <= i < pos :: !High(puchData[i])
      {
        pos := pos + 1;
      }
      if pos != 0 {
        assert uCnt == 0;
        assert puchData[..nXfer] == data;
        LowIs(data, pos);
        nBitErrors := nBitErrors + 1;
        MoveDown(puchData, pos, nXfer - pos);
        nXfer := nXfer - pos;
      }
    }

    /** read, at `at`. */
    method Store(puchData: array<bv8>, at: nat, data: octets)
      requires at + |data| <= puchData.Length
      modifies puchData
      ensures puchData[..at + |data|] == old(puchData[..at]) + data
      ensures at > 0 ==> puchData[0] == old(puchData[0])
    {
      forall i | 0 <= i < |data| {
        puchData[at + i] := data[i];
      }
    }

    /** memmove to the start of the buffer. */
    method MoveDown(puchData: array<bv8>, from: nat, count: nat)
      requires from + count <= puchData.Length
      modifies puchData
      ensures puchData[..count] == old(puchData[from..from + count])
      ensures count == 0 ==> puchData[..] == old(puchData[..])
    {
      forall i | 0 <= i < count {
        puchData[i] := puchData[from + i];
      }
    }

    /** The synchronization check of SerialParseData; only a packet in step is given to a parser. Of a packet
        without bytes the first byte of the buffer is looked at. */
    method CheckSync(puchData: array<bv8>, uLength: nat) returns (ok: bool)
      requires uLength <= puchData.Length && puchData.Length > 0
      modifies this`nBitErrors
      ensures uLength > 0 ==> ok == InSync(puchData[..uLength]) && Abs() == Checked(old(Abs()), puchData[..uLength])
      ensures uLength == 0 ==> ok == High(puchData[0]) && Abs() == old(Abs()).(errors := if ok then 0 else old(nBitErrors) + 1)
    {
      ghost var packet := puchData[..uLength];
      if !High(puchData[0]) {
        nBitErrors := nBitErrors + 1;
        return false;
      }
      var i := 1;
      while i < uLength
        invariant uLength > 0 ==> i <= uLength && High(packet[0]) && forall k | 1 <= k < i :: !High(packet[k])
        invariant nBitErrors == old(nBitErrors)
      {
        if High(puchData[i]) {
          assert High(packet[i]);
          nBitErrors := nBitErrors + 1;
          return false;
        }
        i := i + 1;
      }
      nBitErrors := 0;
      return true;
    }
  }
}
