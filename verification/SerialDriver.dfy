/** The serial driver as a whole: SerialReadRaw frames a packet, SerialParseData of wacom/wacserial.c checks
    it and gives it to the parser of the tablet's protocol. */
module SerialDriver {
  import opened TabletState
  import opened SerialFraming
  import opened SerialPackets

  /** The parser that was chosen, if any. */
  datatype Protocol = V | IV13 | IV14 | NoParser

  /** The framing, the parser, and the byte that stands first in the buffer. */
  datatype Driver = Driver(t: Tablet, toolId: int, s: State, head: bv8)

  /** What the parser of the protocol makes of a packet. */
  function Parse(d: Driver, packet: octets, protocol: Protocol): Parsed {
    match protocol
    case V => ParseV(d.toolId, d.s, packet)
    case IV13 => var r := ParseIV13(d.s, packet); Parsed(r.ok, d.toolId, r.s)
    case IV14 => var r := ParseIV14(d.s, packet); Parsed(r.ok, d.toolId, r.s)
    case NoParser => Parsed(false, d.toolId, d.s)
  }

  datatype Handled = Handled(status: int, d: Driver)

  /** SerialParseData: a packet out of step is counted and goes no further. */
  function ParsePacket(d: Driver, packet: octets, protocol: Protocol): Handled {
    var checked := d.(t := Checked(d.t, packet));
    if !InSync(packet) then Handled(1, checked)
    else
      var r := Parse(checked, packet, protocol);
      Handled(if r.ok then 0 else 1, checked.(toolId := r.toolId, s := r.s))
  }

  /** The same of a packet without bytes, which a read that returns 0 is taken for: the check looks at what
      stands first in the buffer, and every parser refuses it. */
  function ParseNothing(d: Driver): Handled {
    Handled(1, d.(t := d.t.(errors := if High(d.head) then 0 else d.t.errors + 1)))
  }

  datatype Turn = Turn(result: Result, d: Driver)

  /** Read a packet and parse what was read; a negative result is passed over. */
  function ReadAndParse(d: Driver, length: nat, protocol: Protocol): Turn {
    var s := ReadPacket(d.t, length);
    var d' := d.(t := s.t, head := HeadAfter(d.t.line, [], d.head, length));
    match s.result
    case Complete(packet) => Turn(s.result, ParsePacket(d', packet, protocol).d)
    case Failed(code) => Turn(s.result, if code == 0 then ParseNothing(d').d else d')
    case TimedOut => Turn(s.result, d')
  }

  datatype Drive = Drive(results: seq<Result>, d: Driver)

  /** `n` turns. */
  function DriveOn(d: Driver, n: nat, length: nat, protocol: Protocol): Drive
    decreases n
  {
    if n == 0 then Drive([], d)
    else
      var s := ReadAndParse(d, length, protocol);
      var rest := DriveOn(s.d, n - 1, length, protocol);
      Drive([s.result] + rest.results, rest.d)
  }

  /** The packets that were read. */
  function Completed(results: seq<Result>): seq<octets> {
    if results == [] then []
    else (if results[0].Complete? then [results[0].packet] else []) + Completed(results[1..])
  }

  /** The parser's state after a run of packets. */
  function Feed(d: Driver, packets: seq<octets>, protocol: Protocol): Driver
    decreases |packets|
  {
    if packets == [] then d
    else
      var r := Parse(d, packets[0], protocol);
      Feed(d.(toolId := r.toolId, s := r.s), packets[1..], protocol)
  }

  /** A packet is answered by 0 exactly if it is in step and the protocol knows it: nine bytes of a known kind, seven
      bytes, or seven or nine. A packet out of step only counts an error; one in step takes the errors away, and leaves
      the parser as it was if it is not known. */
  lemma {:induction false} StatusIff(d: Driver, packet: octets, protocol: Protocol)
    ensures
      var h := ParsePacket(d, packet, protocol);
      && (h.status == 0 || h.status == 1)
      && (h.status == 0 <==> InSync(packet)
                             && match protocol
                                case V => |packet| == 9 && KindOf(packet[0]) != Unknown
                                case IV13 => |packet| == 7
                                case IV14 => |packet| == 7 || |packet| == 9
                                case NoParser => false)
      && (!InSync(packet) ==> h.d == d.(t := d.t.(errors := d.t.errors + 1)))
      && (InSync(packet) ==> h.d.t == d.t.(errors := 0) && (h.status == 1 ==> h.d == d.(t := h.d.t)))
  {
    hide InSync, XOf, YOf, TenOf, TiltOf, RotationOf, SerialBits, ToolIdOf, KindOf, XOfIV, YOfIV, PressOfIV, StylusButtons, StylusTool;
  }

  /** After a read that returned 0 the parser stays as it was and is refused; an error is counted exactly if the byte
      that stands first in the buffer is low, and all errors are taken away if it is high. */
  lemma NothingIsRefused(d: Driver)
    ensures
      var h := ParseNothing(d);
      && h.status == 1 && h.d == d.(t := d.t.(errors := h.d.t.errors))
      && h.d.t.errors == if d.head & 0x80 == 0 then d.t.errors + 1 else 0
  {
  }

  /** The parser does not disturb the framing: what is read is what a session reads, and if no read returns 0
      the errors are counted alike. */
  lemma {:induction false} DriveIsSession(d: Driver, t: Tablet, n: nat, length: nat, protocol: Protocol)
    requires d.t.line == t.line
    ensures
      var h, s := DriveOn(d, n, length, protocol), Session(t, n, length);
      h.results == s.results && h.d.t.line == s.t.line
    ensures
      var h, s := DriveOn(d, n, length, protocol), Session(t, n, length);
      d.t == t && Failed(0) !in s.results ==> h.d.t == s.t
    decreases n
  {
    if n == 0 {
    } else {
      var s, c := ReadAndParse(d, length, protocol), Cycle(t, length);
      TurnIsCycle(d, t, length, protocol);
      hide ReadAndParse, Cycle;
      DriveIsSession(s.d, c.t, n - 1, length, protocol);
      assert Failed(0) in Session(c.t, n - 1, length).results ==> Failed(0) in [c.result] + Session(c.t, n - 1, length).results;
      assert c.result in [c.result] + Session(c.t, n - 1, length).results;
    }
  }

  lemma {:induction false} TurnIsCycle(d: Driver, t: Tablet, length: nat, protocol: Protocol)
    requires d.t.line == t.line
    ensures
      var s, c := ReadAndParse(d, length, protocol), Cycle(t, length);
      && s.result == c.result && s.d.t.line == c.t.line
      && (d.t == t && c.result != Failed(0) ==> s.d.t == c.t)
  {
    hide Gather, Parse, InSync, HeadAfter;
    ErrorsDoNotMatter(t.line, [], if d.t.errors > 3 then 0 else d.t.errors, if t.errors > 3 then 0 else t.errors, length);
  }

  /** When all packets read are in step the parser has seen exactly them. */
  lemma {:induction false} ParserSeesAll(d: Driver, n: nat, length: nat, protocol: Protocol)
    requires forall r | r in DriveOn(d, n, length, protocol).results :: r.Complete? ==> InSync(r.packet)
    ensures
      var h := DriveOn(d, n, length, protocol);
      var f := Feed(d, Completed(h.results), protocol);
      h.d.toolId == f.toolId && h.d.s == f.s
    decreases n
  {
    hide ReadPacket, Parse, InSync, HeadAfter;
    if n == 0 {
    } else {
      var s := ReadAndParse(d, length, protocol);
      var next := s.d;
      var rest := DriveOn(next, n - 1, length, protocol).results;
      assert ([s.result] + rest)[0] == s.result && ([s.result] + rest)[1..] == rest;
      assert forall r | r in rest :: r in [s.result] + rest;
      ParserSeesAll(next, n - 1, length, protocol);
      FedFirst(d, s.result, rest, protocol);
      FedAlike(next, d.(toolId := next.toolId, s := next.s), Completed(rest), protocol);
      assert s.result in [s.result] + rest;
      TurnParses(d, length, protocol);
    }
  }

  /** A turn takes the parser where the packet read takes it. */
  lemma {:induction false} TurnParses(d: Driver, length: nat, protocol: Protocol)
    ensures
      var s := ReadAndParse(d, length, protocol);
      if s.result.Complete? && InSync(s.result.packet) then
        var r := Parse(d, s.result.packet, protocol);
        s.d.toolId == r.toolId && s.d.s == r.s
      else s.d.toolId == d.toolId && s.d.s == d.s
  {
    hide ReadPacket, Parse, InSync, HeadAfter;
    var s := ReadPacket(d.t, length);
    if s.result.Complete? {
      ParseIgnoresLine(d, d.(t := s.t, head := HeadAfter(d.t.line, [], d.head, length)), s.result.packet, protocol);
    }
  }

  lemma {:induction false} FedFirst(d: Driver, first: Result, rest: seq<Result>, protocol: Protocol)
    ensures Feed(d, Completed([first] + rest), protocol)
         == if first.Complete? then
              var r := Parse(d, first.packet, protocol); Feed(d.(toolId := r.toolId, s := r.s), Completed(rest), protocol)
            else Feed(d, Completed(rest), protocol)
  {
    hide Parse;
    assert ([first] + rest)[1..] == rest;
    if first.Complete? {
      assert ([first.packet] + Completed(rest))[1..] == Completed(rest);
    } else {
      assert [] + Completed(rest) == Completed(rest);
    }
  }

  /** Parsing does not look at the line. */
  lemma {:induction false} ParseIgnoresLine(d: Driver, d': Driver, packet: octets, protocol: Protocol)
    requires d.toolId == d'.toolId && d.s == d'.s
    ensures Parse(d, packet, protocol) == Parse(d', packet, protocol)
    ensures Parse(d.(t := Checked(d.t, packet)), packet, protocol) == Parse(d, packet, protocol)
    ensures Parse(d'.(t := Checked(d'.t, packet)), packet, protocol) == Parse(d, packet, protocol)
  {
    hide ParseV, ParseIV13, ParseIV14;
  }

  lemma {:induction false} FedAlike(d: Driver, d': Driver, packets: seq<octets>, protocol: Protocol)
    requires d.toolId == d'.toolId && d.s == d'.s
    ensures Feed(d, packets, protocol).toolId == Feed(d', packets, protocol).toolId
    ensures Feed(d, packets, protocol).s == Feed(d', packets, protocol).s
    decreases |packets|
  {
    hide Parse;
    if packets == [] {
    } else {
      ParseIgnoresLine(d, d', packets[0], protocol);
      var r := Parse(d, packets[0], protocol);
      FedAlike(d.(toolId := r.toolId, s := r.s), d'.(toolId := r.toolId, s := r.s), packets[1..], protocol);
    }
  }

  /** Feeding is that of the protocol. */
  lemma {:induction false} FeedIsFeedV(d: Driver, packets: seq<octets>)
    ensures Feed(d, packets, V).toolId == FeedV(d.toolId, d.s, packets).toolId && Feed(d, packets, V).s == FeedV(d.toolId, d.s, packets).s
    decreases |packets|
  {
    hide ParseV;
    if packets == [] {
    } else {
      var r := ParseV(d.toolId, d.s, packets[0]);
      FeedIsFeedV(d.(toolId := r.toolId, s := r.s), packets[1..]);
    }
  }

  lemma {:induction false} FeedIVCons(s: State, p: octets, packets: seq<octets>, tilt: bool)
    ensures FeedIV(s, [p] + packets, tilt) == FeedIV(ParseIV(s, p, tilt).s, packets, tilt)
    decreases |packets|
  {
    hide ParseIV;
    var all := [p] + packets;
    if packets == [] {
      assert all[..0] == [] && all == [p];
    } else {
      assert all[..|all| - 1] == [p] + packets[..|packets| - 1];
      FeedIVCons(s, p, packets[..|packets| - 1], tilt);
    }
  }

  lemma {:induction false} FeedIsFeedIV(d: Driver, packets: seq<octets>, tilt: bool)
    ensures
      var f := Feed(d, packets, if tilt then IV14 else IV13);
      f.toolId == d.toolId && f.s == FeedIV(d.s, packets, tilt)
    decreases |packets|
  {
    hide ParseIV13, ParseIV14;
    if packets == [] {
    } else {
      FeedIsFeedIV(d.(s := ParseIV(d.s, packets[0], tilt).s), packets[1..], tilt);
      FeedIVCons(d.s, packets[0], packets[1..], tilt);
      assert packets == [packets[0]] + packets[1..];
    }
  }

  /** From any place in a stream of packets, whatever the line does: the parser has been fed exactly the
      packets read, which are packets of the stream in their order. */
  lemma {:induction false} DriverFollowsStream(d: Driver, n: nat, tail: octets, packets: seq<octets>, part: octets, length: nat,
                                               tilt: bool)
    requires Cut(d.t.line.input, tail, packets, part, length) && length > 0
    ensures
      var h := DriveOn(d, n, length, V);
      var f := FeedV(d.toolId, d.s, Completed(h.results));
      InOrder(h.results, packets) && h.d.toolId == f.toolId && h.d.s == f.s
    ensures
      var h := DriveOn(d, n, length, if tilt then IV14 else IV13);
      InOrder(h.results, packets) && h.d.s == FeedIV(d.s, Completed(h.results), tilt)
  {
    hide Cut, InOrder, DriveOn, FeedV, FeedIV, Completed, Session;
    OnlyWholePackets(d.t, n, tail, packets, part, length);
    DriveIsSession(d, d.t, n, length, V);
    ParserSeesAll(d, n, length, V);
    FeedIsFeedV(d, Completed(DriveOn(d, n, length, V).results));
    var protocol := if tilt then IV14 else IV13;
    DriveIsSession(d, d.t, n, length, protocol);
    ParserSeesAll(d, n, length, protocol);
    FeedIsFeedIV(d, Completed(DriveOn(d, n, length, protocol).results), tilt);
  }

  /** When all reads complete, the parser has been fed the next `n` packets of the stream. */
  lemma {:induction false} DriverReadsOn(d: Driver, n: nat, tail: octets, packets: seq<octets>, part: octets, length: nat,
                                         protocol: Protocol)
    requires Cut(d.t.line.input, tail, packets, part, length) && length > 0 && n > 0
    requires forall r | r in DriveOn(d, n, length, protocol).results :: r.Complete?
    ensures
      var r := DriveOn(d, n, length, protocol).d;
      && n <= |packets| && r.t.errors == 0
      && match protocol
         case V => (var f := FeedV(d.toolId, d.s, packets[..n]); r.toolId == f.toolId && r.s == f.s)
         case NoParser => r.toolId == d.toolId && r.s == d.s
         case _ => r.toolId == d.toolId && r.s == FeedIV(d.s, packets[..n], protocol == IV14)
  {
    hide Cut, InOrder, DriveOn, FeedV, FeedIV, Completed, Session;
    DriveIsSession(d, d.t, n, length, protocol);
    NothingIsLost(d.t, n, tail, packets, part, length);
    OnlyWholePackets(d.t, n, tail, packets, part, length);
    ParserSeesAll(d, n, length, protocol);
    var results := DriveOn(d, n, length, protocol).results;
    assert forall i | 0 <= i < n :: results[i] == Complete(packets[..n][i]);
    CompletedAre(results, packets[..n]);
    FeedIs(d, packets[..n], protocol);
  }

  lemma {:induction false} FeedIs(d: Driver, packets: seq<octets>, protocol: Protocol)
    ensures
      var r := Feed(d, packets, protocol);
      match protocol
      case V => (var f := FeedV(d.toolId, d.s, packets); r.toolId == f.toolId && r.s == f.s)
      case NoParser => r.toolId == d.toolId && r.s == d.s
      case _ => r.toolId == d.toolId && r.s == FeedIV(d.s, packets, protocol == IV14)
  {
    match protocol
    case V => FeedIsFeedV(d, packets);
    case IV13 => FeedIsFeedIV(d, packets, false);
    case IV14 => FeedIsFeedIV(d, packets, true);
    case NoParser => FeedIsNothing(d, packets);
  }

  lemma {:induction false} FeedIsNothing(d: Driver, packets: seq<octets>)
    ensures Feed(d, packets, NoParser) == d
    decreases |packets|
  {
    if packets == [] {
    } else {
      FeedIsNothing(d, packets[1..]);
    }
  }

  /** On a patient line the driver is there after as many turns as there are packets. */
  lemma {:induction false} DriverReadsAll(d: Driver, n: nat, tail: octets, packets: seq<octets>, part: octets, length: nat,
                                          protocol: Protocol)
    requires Cut(d.t.line.input, tail, packets, part, length) && length > 0 && 0 < n <= |packets|
    requires Patient(d.t.line) && |d.t.line.moods| >= |tail| + n * length
    ensures
      var r := DriveOn(d, n, length, protocol).d;
      && r.t.errors == 0
      && match protocol
         case V => (var f := FeedV(d.toolId, d.s, packets[..n]); r.toolId == f.toolId && r.s == f.s)
         case NoParser => r.toolId == d.toolId && r.s == d.s
         case _ => r.toolId == d.toolId && r.s == FeedIV(d.s, packets[..n], protocol == IV14)
  {
    hide Cut, DriveOn, FeedV, FeedIV, Session, Patient;
    AllComplete(d.t, n, tail, packets, part, length);
    DriveIsSession(d, d.t, n, length, protocol);
    DriverReadsOn(d, n, tail, packets, part, length, protocol);
  }

  lemma {:induction false} CompletedAre(results: seq<Result>, packets: seq<octets>)
    requires |results| == |packets| && forall i | 0 <= i < |results| :: results[i] == Complete(packets[i])
    ensures Completed(results) == packets
    decreases |results|
  {
    if results == [] {
    } else {
      CompletedAre(results[1..], packets[1..]);
      assert packets == [packets[0]] + packets[1..];
    }
  }

  // ----- The driver

  class SerialDriver {
    const tablet: SerialTablet
    const parser: SerialParser
    const protocol: Protocol

    /** The driver with `head` first in the buffer. */
    ghost function Abs(head: bv8): Driver
      reads tablet, parser
    {
      Driver(tablet.Abs(), parser.nToolID, parser.state, head)
    }

    constructor (tablet: SerialTablet, parser: SerialParser, protocol: Protocol)
      ensures this.tablet == tablet && this.parser == parser && this.protocol == protocol
    {
      this.tablet, this.parser, this.protocol := tablet, parser, protocol;
    }

    /** Check a packet and give it to the parser; 0 when it was understood. */
    method ParseData(puchData: array<bv8>, uLength: nat) returns (status: int)
      requires uLength <= puchData.Length && puchData.Length > 0
      modifies tablet`nBitErrors, parser
      ensures uLength > 0 ==> ParsePacket(old(Abs(puchData[0])), puchData[..uLength], protocol) == Handled(status, Abs(puchData[0]))
      ensures uLength == 0 ==> ParseNothing(old(Abs(puchData[0]))) == Handled(status, Abs(puchData[0]))
    {
      hide ParseIV13, ParseIV14, InSync;
      assert ParseV(parser.nToolID, parser.state, []) == Parsed(false, parser.nToolID, parser.state);
      RefusesNothing(parser.state);
      hide ParseV;
      var ok := tablet.CheckSync(puchData, uLength);
      if !ok {
        return 1;
      }
      assert uLength == 0 ==> puchData[..uLength] == [];
      match protocol
      case V => status := parser.ParseWacomV(puchData[..uLength]);
      case IV13 => status := parser.ParseWacomIV13(puchData[..uLength]);
      case IV14 => status := parser.ParseWacomIV14(puchData[..uLength]);
      case NoParser => status := 1;
    }

    /** Read into the buffer and parse what was read, `n` times. */
    method Loop(puchData: array<bv8>, n: nat) returns (ghost results: seq<Result>)
      requires 0 < tablet.uPacketLength <= puchData.Length
      modifies tablet, parser, puchData
      ensures DriveOn(old(Abs(puchData[0])), n, tablet.uPacketLength, protocol) == Drive(results, Abs(puchData[0]))
    {
      hide ParsePacket, ParseNothing, ReadPacket, HeadAfter;
      ghost var d := Abs(puchData[0]);
      ghost var all := DriveOn(d, n, tablet.uPacketLength, protocol);
      results := [];
      for i := 0 to n
        invariant d == Abs(puchData[0])
        invariant var rest := DriveOn(d, n - i, tablet.uPacketLength, protocol); all == Drive(results + rest.results, rest.d)
      {
        var nLength, result := tablet.ReadRaw(puchData);
        if nLength >= 0 {
          var status := ParseData(puchData, nLength);
        }
        results := results + [result];
        d := Abs(puchData[0]);
      }
    }
  }

  lemma RefusesNothing(s: State)
    ensures ParseIV13(s, []) == ParsedIV(false, s) && ParseIV14(s, []) == ParsedIV(false, s)
  {
  }
}
