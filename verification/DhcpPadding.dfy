/** Padding. RFC 2132 section 3.1 makes Pad an option of one byte; getOption of
    dhcp_recovery/common/message.cpp and configureDhcp of dhcp_recovery/client/dhcpclient.cpp read it as a
    code with a length. Here the two walks are compared with readers that follow the RFC. */
module DhcpPadding {
  import opened Bytes
  import opened DhcpMessage
  import opened DhcpLease
  import opened DhcpBounds
  import opened DhcpProtocol

  const OPT_PAD: byte := 0

  /** The reader of one option that skips a Pad as a single byte. */
  function RfcFind(m: Msg, i: nat, code: byte): (r: Option<Place>)
    ensures r.Some? ==> i + 2 <= r.value.at < OptionsSize(m)
    decreases OptionsSize(m) - i
  {
    if i + 2 >= OptionsSize(m) then None
    else if m.mem[OPTIONS + i] == OPT_END then None
    else if m.mem[OPTIONS + i] == code then Some(Place(i + 2, m.mem[OPTIONS + i + 1]))
    else if m.mem[OPTIONS + i] == OPT_PAD then RfcFind(m, i + 1, code)
    else RfcFind(m, i + 2 + m.mem[OPTIONS + i + 1], code)
  }

  /** The reader of a lease that skips a Pad as a single byte. */
  function RfcWalk(m: Msg, i: nat, info: Info): (r: Walked)
    requires HasDns(info)
    ensures HasDns(r.info)
    decreases OptionsSize(m) - i
  {
    if i + 1 >= OptionsSize(m) || m.mem[OPTIONS + i] == OPT_END then Walked(true, info)
    else if m.mem[OPTIONS + i] == OPT_PAD then RfcWalk(m, i + 1, info)
    else
      var length := m.mem[OPTIONS + i + 1];
      if i + length >= OptionsSize(m) then Walked(false, info)
      else RfcWalk(m, i + 2 + length, Take(info, m.mem[OPTIONS + i], OptionBytes(m, i + 2, length)))
  }

  /** From `i` on the option area holds exactly `opts`, with any number of Pads before and between them,
      closed by End. */
  ghost predicate LaidPadded(m: Msg, i: nat, opts: seq<Opt>)
    decreases OptionsSize(m) - i
  {
    && i < OptionsSize(m)
    && if m.mem[OPTIONS + i] == OPT_PAD then LaidPadded(m, i + 1, opts)
       else if opts == [] then m.mem[OPTIONS + i] == OPT_END
       else
         var o := opts[0];
         && Encodable(o) && o.code != OPT_PAD && i + 2 + |o.data| < OptionsSize(m)
         && m.mem[OPTIONS + i] == o.code && m.mem[OPTIONS + i + 1] == |o.data|
         && OptionBytes(m, i + 2, |o.data|) == o.data
         && LaidPadded(m, i + 2 + |o.data|, opts[1..])
  }

  /** On such an area the RFC readers find the first option with the code and collect all options. */
  lemma {:induction false} RfcReadsPadded(m: Msg, i: nat, opts: seq<Opt>, code: byte, info: Info)
    requires LaidPadded(m, i, opts) && code != OPT_END && code != OPT_PAD && HasDns(info)
    ensures match (RfcFind(m, i, code), First(opts, code))
            case (None, None) => true
            case (Some(p), Some(d)) => p.length == |d| && OPTIONS + p.at + |d| <= m.size && OptionBytes(m, p.at, |d|) == d
            case _ => false
    ensures RfcWalk(m, i, info) == Walked(true, Collected(opts, info))
    decreases OptionsSize(m) - i
  {
    hide Take, OptionBytes;
    if m.mem[OPTIONS + i] == OPT_PAD {
      PadNotLast(m, i, opts);
      RfcReadsPadded(m, i + 1, opts, code, info);
    } else if opts == [] {
    } else {
      var o := opts[0];
      RfcReadsPadded(m, i + 2 + |o.data|, opts[1..], code, Take(info, o.code, o.data));
    }
  }

  /** Behind a Pad of such an area there is more. */
  lemma PadNotLast(m: Msg, i: nat, opts: seq<Opt>)
    requires LaidPadded(m, i, opts) && m.mem[OPTIONS + i] == OPT_PAD
    ensures i + 1 < OptionsSize(m) && LaidPadded(m, i + 1, opts)
  {
  }

  // ----- Finding an option

  /** Where the search for `code` first meets a Pad that no second Pad follows, with room for an option
      behind it. Pads that come in pairs read as an empty option and do no harm. */
  function OddPad(m: Msg, i: nat, code: byte): (r: Option<nat>)
    ensures r.Some? ==> i <= r.value && r.value + 3 < OptionsSize(m) && m.mem[OPTIONS + r.value] == OPT_PAD
    decreases OptionsSize(m) - i
  {
    if i + 3 >= OptionsSize(m) || m.mem[OPTIONS + i] == OPT_END || m.mem[OPTIONS + i] == code then None
    else if m.mem[OPTIONS + i] == OPT_PAD then
      if m.mem[OPTIONS + i + 1] == OPT_PAD then OddPad(m, i + 2, code) else Some(i)
    else OddPad(m, i + 2 + m.mem[OPTIONS + i + 1], code)
  }

  /** getOption finds what the RFC finds as long as it meets no odd Pad. */
  lemma {:induction false} FindsAsRfc(m: Msg, i: nat, code: byte)
    requires code != OPT_END && code != OPT_PAD && OddPad(m, i, code) == None
    ensures FindOption(m, i, code) == RfcFind(m, i, code)
    decreases OptionsSize(m) - i
  {
    if i + 3 >= OptionsSize(m) || m.mem[OPTIONS + i] == OPT_END || m.mem[OPTIONS + i] == code {
    } else if m.mem[OPTIONS + i] == OPT_PAD {
      FindsAsRfc(m, i + 2, code);
    } else {
      FindsAsRfc(m, i + 2 + m.mem[OPTIONS + i + 1], code);
    }
  }

  /** An option that stands right behind an odd Pad is where the RFC finds it, and getOption misses it. */
  lemma {:induction false} MissedBehindPad(m: Msg, i: nat, code: byte)
    requires code != OPT_END && code != OPT_PAD
    requires OddPad(m, i, code).Some? && m.mem[OPTIONS + OddPad(m, i, code).value + 1] == code
    ensures RfcFind(m, i, code).Some? && RfcFind(m, i, code).value.at == OddPad(m, i, code).value + 3
    ensures FindOption(m, i, code) != RfcFind(m, i, code)
    decreases OptionsSize(m) - i
  {
    var j := OddPad(m, i, code).value;
    if i == j {
      FoundFurther(m, j + 2 + m.mem[OPTIONS + j + 1], code);
    } else if m.mem[OPTIONS + i] == OPT_PAD {
      MissedBehindPad(m, i + 2, code);
    } else {
      MissedBehindPad(m, i + 2 + m.mem[OPTIONS + i + 1], code);
    }
  }

  /** What is found from `i` on lies behind `i`. */
  lemma {:induction false} FoundFurther(m: Msg, i: nat, code: byte)
    ensures FindOption(m, i, code).Some? ==> FindOption(m, i, code).value.at >= i + 2
    decreases OptionsSize(m) - i
  {
    if i + 2 >= OptionsSize(m) || m.mem[OPTIONS + i] == OPT_END || m.mem[OPTIONS + i] == code {
    } else {
      FoundFurther(m, i + 2 + m.mem[OPTIONS + i + 1], code);
    }
  }

  /** The two messages have one size and agree up to index `j` of the option area, or all through. */
  predicate AgreeUpTo(m: Msg, m': Msg, j: Option<nat>) {
    && m'.size == m.size
    && forall x | 0 <= x < m.size && (j.Some? ==> x <= OPTIONS + j.value) :: m'.mem[x] == m.mem[x]
  }

  lemma AgreesAt(m: Msg, m': Msg, j: nat, i: nat)
    requires AgreeUpTo(m, m', Some(j)) && i <= j && j + 1 < OptionsSize(m)
    ensures m'.size == m.size && m'.mem[OPTIONS + i] == m.mem[OPTIONS + i]
    ensures i < j ==> m'.mem[OPTIONS + i + 1] == m.mem[OPTIONS + i + 1]
  {
  }

  /** Putting the option sought behind the odd Pad leaves that Pad the first odd one. */
  lemma {:induction false} PadStaysOdd(m: Msg, m': Msg, i: nat, code: byte)
    requires OddPad(m, i, code).Some? && AgreeUpTo(m, m', OddPad(m, i, code))
    requires m'.mem[OPTIONS + OddPad(m, i, code).value + 1] == code != OPT_PAD
    ensures OddPad(m', i, code) == OddPad(m, i, code)
    decreases OptionsSize(m) - i
  {
    var j := OddPad(m, i, code).value;
    AgreesAt(m, m', j, i);
    hide AgreeUpTo;
    if i == j {
    } else if m.mem[OPTIONS + i] == OPT_PAD {
      PadStaysOdd(m, m', i + 2, code);
    } else {
      PadStaysOdd(m, m', i + 2 + m.mem[OPTIONS + i + 1], code);
    }
  }

  lemma {:induction false} NoOddPad(m: Msg, m': Msg, i: nat, code: byte)
    requires OddPad(m, i, code) == None && AgreeUpTo(m, m', None)
    ensures OddPad(m', i, code) == None
    decreases OptionsSize(m) - i
  {
    if i + 3 >= OptionsSize(m) || m.mem[OPTIONS + i] == OPT_END || m.mem[OPTIONS + i] == code {
    } else if m.mem[OPTIONS + i] == OPT_PAD {
      NoOddPad(m, m', i + 2, code);
    } else {
      NoOddPad(m, m', i + 2 + m.mem[OPTIONS + i + 1], code);
    }
  }

  /** What the search has seen when it meets its first odd Pad decides: getOption agrees with the RFC on
      every message that goes on from there exactly when there is no odd Pad. */
  lemma {:induction false} FindsAsRfcIff(m: Msg, code: byte)
    requires code != OPT_END && code != OPT_PAD
    ensures (forall m': Msg | AgreeUpTo(m, m', OddPad(m, 4, code)) :: FindOption(m', 4, code) == RfcFind(m', 4, code))
       <==> OddPad(m, 4, code) == None
  {
    match OddPad(m, 4, code)
    case None =>
      forall m': Msg | AgreeUpTo(m, m', None)
        ensures FindOption(m', 4, code) == RfcFind(m', 4, code)
      {
        NoOddPad(m, m', 4, code);
        FindsAsRfc(m', 4, code);
      }
    case Some(j) =>
      var m' := Changed(m, OPTIONS + j + 1, [code]);
      PadStaysOdd(m, m', 4, code);
      MissedBehindPad(m', 4, code);
  }

  /** The message with other bytes at `at`. */
  function Changed(m: Msg, at: nat, b: bytes): (m': Msg)
    requires at + |b| <= MEMORY
    ensures m'.size == m.size && |m'.mem| == MEMORY
    ensures forall i | 0 <= i < MEMORY :: m'.mem[i] == if at <= i < at + |b| then b[i - at] else m.mem[i]
  {
    m.(mem := m.mem[..at] + b + m.mem[at + |b|..])
  }

  // ----- The lease

  /** Where the walk of configureDhcp first meets a Pad that no second Pad follows. */
  function OddPadOfLease(m: Msg, i: nat): (r: Option<nat>)
    ensures r.Some? ==> i <= r.value && r.value + 1 < OptionsSize(m) && m.mem[OPTIONS + r.value] == OPT_PAD
    decreases OptionsSize(m) - i
  {
    if i + 1 >= OptionsSize(m) || m.mem[OPTIONS + i] == OPT_END then None
    else if m.mem[OPTIONS + i] == OPT_PAD then
      if m.mem[OPTIONS + i + 1] == OPT_PAD then OddPadOfLease(m, i + 2) else Some(i)
    else if i + m.mem[OPTIONS + i + 1] >= OptionsSize(m) then None
    else OddPadOfLease(m, i + 2 + m.mem[OPTIONS + i + 1])
  }

  /** The client reads the lease that the RFC reads as long as it meets no odd Pad. */
  lemma {:induction false} LeaseAsRfc(m: Msg, i: nat, info: Info)
    requires HasDns(info) && OddPadOfLease(m, i) == None
    ensures Walk(m, i, info) == RfcWalk(m, i, info)
    decreases OptionsSize(m) - i
  {
    hide Take, OptionBytes;
    if i + 1 >= OptionsSize(m) || m.mem[OPTIONS + i] == OPT_END {
    } else if m.mem[OPTIONS + i] == OPT_PAD {
      PadTaken(info, OptionBytes(m, i + 2, m.mem[OPTIONS + i + 1]));
      LeaseAsRfc(m, i + 2, info);
    } else if i + m.mem[OPTIONS + i + 1] >= OptionsSize(m) {
    } else {
      var length := m.mem[OPTIONS + i + 1];
      LeaseAsRfc(m, i + 2 + length, Take(info, m.mem[OPTIONS + i], OptionBytes(m, i + 2, length)));
    }
  }

  /** A Pad read as an option changes nothing. */
  lemma PadTaken(info: Info, data: bytes)
    requires HasDns(info)
    ensures Take(info, OPT_PAD, data) == info
  {
  }

  /** Both readers step over a pair of Pads, and over an option. */
  lemma {:induction false} PairStep(m: Msg, i: nat, info: Info)
    requires HasDns(info) && i + 2 < OptionsSize(m) && m.mem[OPTIONS + i] == m.mem[OPTIONS + i + 1] == OPT_PAD
    ensures Walk(m, i, info) == Walk(m, i + 2, info) && RfcWalk(m, i, info) == RfcWalk(m, i + 2, info)
  {
    hide Take, OptionBytes;
    PadTaken(info, OptionBytes(m, i + 2, 0));
    assert RfcWalk(m, i, info) == RfcWalk(m, i + 1, info);
  }

  lemma {:induction false} OptionStep(m: Msg, i: nat, info: Info, data: bytes)
    requires HasDns(info) && i + 1 < OptionsSize(m) && m.mem[OPTIONS + i] != OPT_PAD && m.mem[OPTIONS + i] != OPT_END
    requires i + m.mem[OPTIONS + i + 1] < OptionsSize(m) && data == OptionBytes(m, i + 2, m.mem[OPTIONS + i + 1])
    ensures
      var next, taken := i + 2 + m.mem[OPTIONS + i + 1], Take(info, m.mem[OPTIONS + i], data);
      Walk(m, i, info) == Walk(m, next, taken) && RfcWalk(m, i, info) == RfcWalk(m, next, taken)
  {
    hide Take, OptionBytes;
  }

  /** Up to the first odd Pad the two readers collect the same, from every message that begins alike. */
  lemma {:induction false} UntilPad(m: Msg, m': Msg, i: nat, info: Info) returns (before: Info)
    requires HasDns(info) && OddPadOfLease(m, i).Some? && AgreeUpTo(m, m', OddPadOfLease(m, i))
    ensures HasDns(before) && before == BeforePad(m, i, info)
    ensures Walk(m', i, info) == Walk(m', OddPadOfLease(m, i).value, before)
    ensures RfcWalk(m', i, info) == RfcWalk(m', OddPadOfLease(m, i).value, before)
    decreases OptionsSize(m) - i
  {
    hide Take, OptionBytes, Walk, RfcWalk;
    var j := OddPadOfLease(m, i).value;
    AgreesAt(m, m', j, i);
    hide AgreeUpTo;
    if i == j {
      before := info;
    } else if m.mem[OPTIONS + i] == OPT_PAD {
      PairStep(m', i, info);
      before := UntilPad(m, m', i + 2, info);
    } else {
      var length := m.mem[OPTIONS + i + 1];
      DataBefore(m, m', i + 2, length, j);
      OptionStep(m', i, info, OptionBytes(m, i + 2, length));
      before := UntilPad(m, m', i + 2 + length, Take(info, m.mem[OPTIONS + i], OptionBytes(m, i + 2, length)));
    }
  }

  /** What both readers have collected when they meet the first odd Pad. */
  function BeforePad(m: Msg, i: nat, info: Info): (r: Info)
    requires HasDns(info)
    ensures HasDns(r)
    decreases OptionsSize(m) - i
  {
    if OddPadOfLease(m, i) == None || OddPadOfLease(m, i).value == i then info
    else if m.mem[OPTIONS + i] == OPT_PAD then BeforePad(m, i + 2, info)
    else
      var length := m.mem[OPTIONS + i + 1];
      BeforePad(m, i + 2 + length, Take(info, m.mem[OPTIONS + i], OptionBytes(m, i + 2, length)))
  }

  lemma DataBefore(m: Msg, m': Msg, at: nat, length: nat, j: nat)
    requires AgreeUpTo(m, m', Some(j)) && at + length <= j < OptionsSize(m)
    ensures OptionBytes(m', at, length) == OptionBytes(m, at, length)
  {
  }

  /** However little room is left, an odd Pad can be followed so that the two readers differ. */
  lemma {:induction false} PadDiffers(m: Msg, j: nat, info: Info) returns (m': Msg)
    requires HasDns(info) && j + 1 < OptionsSize(m) && m.mem[OPTIONS + j] == OPT_PAD
    ensures AgreeUpTo(m, m', Some(j)) && Walk(m', j, info) != RfcWalk(m', j, info)
  {
    if j + 255 >= OptionsSize(m) {
      m' := Changed(m, OPTIONS + j + 1, [OPT_END]);
      assert RfcWalk(m', j, info) == RfcWalk(m', j + 1, info) == Walked(true, info);
    } else {
      var mask: address := [255, if info.subnetMask == [255, 1, 0, 0] then 2 else 1, 0, 0];
      m' := Changed(m, OPTIONS + j + 1, [OPT_SUBNET_MASK, 4] + mask + [OPT_END]);
      MaskBehindPad(m', j, info, mask);
    }
  }

  lemma {:induction false} MaskBehindPad(m: Msg, j: nat, info: Info, mask: address)
    requires HasDns(info) && j + 255 < OptionsSize(m) && m.mem[OPTIONS + j] == OPT_PAD && mask[0] == OPT_END
    requires m.mem[OPTIONS + j + 1] == OPT_SUBNET_MASK && m.mem[OPTIONS + j + 2] == 4 && m.mem[OPTIONS + j + 7] == OPT_END
    requires forall i | 0 <= i < 4 :: m.mem[OPTIONS + j + 3 + i] == mask[i]
    ensures Walk(m, j, info) == Walked(true, info)
    ensures RfcWalk(m, j, info) == Walked(true, info.(subnetMask := mask))
  {
    PadTaken(info, OptionBytes(m, j + 2, 1));
    assert OptionBytes(m, j + 3, 4) == mask;
    assert m.mem[OPTIONS + j + 3 + 0] == OPT_END;
    assert RfcWalk(m, j + 1, info) == RfcWalk(m, j + 7, Take(info, OPT_SUBNET_MASK, mask));
  }

  lemma {:induction false} NoOddPadOfLease(m: Msg, m': Msg, i: nat)
    requires OddPadOfLease(m, i) == None && AgreeUpTo(m, m', None)
    ensures OddPadOfLease(m', i) == None
    decreases OptionsSize(m) - i
  {
    if i + 1 >= OptionsSize(m) || m.mem[OPTIONS + i] == OPT_END {
    } else if m.mem[OPTIONS + i] == OPT_PAD {
      NoOddPadOfLease(m, m', i + 2);
    } else if i + m.mem[OPTIONS + i + 1] >= OptionsSize(m) {
    } else {
      NoOddPadOfLease(m, m', i + 2 + m.mem[OPTIONS + i + 1]);
    }
  }

  /** The client agrees with the RFC on every message that goes on from its first odd Pad exactly when
      there is none. */
  lemma {:induction false} LeaseAsRfcIff(m: Msg)
    ensures (forall m': Msg | AgreeUpTo(m, m', OddPadOfLease(m, 4)) :: Walk(m', 4, ZERO_INFO) == RfcWalk(m', 4, ZERO_INFO))
       <==> OddPadOfLease(m, 4) == None
  {
    match OddPadOfLease(m, 4)
    case None =>
      forall m': Msg | AgreeUpTo(m, m', None)
        ensures Walk(m', 4, ZERO_INFO) == RfcWalk(m', 4, ZERO_INFO)
      {
        NoOddPadOfLease(m, m', 4);
        LeaseAsRfc(m', 4, ZERO_INFO);
      }
    case Some(j) =>
      var m' := PadDiffers(m, j, BeforePad(m, 4, ZERO_INFO));
      var before := UntilPad(m, m', 4, ZERO_INFO);
  }

  /** A well-formed option area without Pads has no odd one, for either walk. */
  lemma {:induction false} NoPadsNoneOdd(m: Msg, i: nat, opts: seq<Opt>, code: byte)
    requires Laid(m, i, opts) && forall o | o in opts :: o.code != OPT_PAD
    ensures OddPad(m, i, code) == None && OddPadOfLease(m, i) == None
    decreases |opts|
  {
    if opts == [] {
    } else {
      assert opts[0] in opts && forall o | o in opts[1..] :: o in opts;
      NoPadsNoneOdd(m, i + 2 + |opts[0].data|, opts[1..], code);
    }
  }

  /** An ack that begins with a Pad: the RFC reads its type, the client does not and lets it go by. */
  lemma {:induction false} PaddedAck(c: Client, poll: Poll, noGateway: bool)
    requires |c.lastXid| == 4 && poll.Received? && poll.headersOk
    requires poll.msg == Reply(c.lastXid, [OPT_PAD, OPT_MESSAGE_TYPE, 1, DHCPACK, OPT_END], 0)
    ensures Relevant(c, poll) && poll.msg.mem[OPTIONS..poll.msg.size] == COOKIE + [0, 53, 1, 5, 255]
    ensures RfcFind(poll.msg, 4, OPT_MESSAGE_TYPE) == Some(Place(7, 1)) && poll.msg.mem[OPTIONS + 7] == DHCPACK
    ensures FindOption(poll.msg, 4, OPT_MESSAGE_TYPE) == None && TypeOf(poll.msg) == 0
    ensures Handle(c, poll, noGateway) == Handled(false, c, [])
  {
    var options: bytes := [OPT_PAD, OPT_MESSAGE_TYPE, 1, DHCPACK, OPT_END];
    var m := poll.msg;
    ReplyIsValid(c.lastXid, options, 0);
    forall i: nat | i < 5
      ensures m.mem[OPTIONS + 4 + i] == options[i]
    {
      ReplyAt(c.lastXid, options, 0, i);
    }
    PaddedType(m);
    hide IsValid, TypeOf, Reply, XidOf, RfcFind, FindOption;
  }

  lemma {:induction false} PaddedType(m: Msg)
    requires m.size == OPTIONS + 9 && m.mem[OPTIONS + 4] == OPT_PAD && m.mem[OPTIONS + 5] == OPT_MESSAGE_TYPE
    requires m.mem[OPTIONS + 6] == 1 && m.mem[OPTIONS + 7] == DHCPACK && m.mem[OPTIONS + 8] == OPT_END
    ensures RfcFind(m, 4, OPT_MESSAGE_TYPE) == Some(Place(7, 1))
    ensures FindOption(m, 4, OPT_MESSAGE_TYPE) == None && TypeOf(m) == 0
  {
    assert RfcFind(m, 5, OPT_MESSAGE_TYPE) == Some(Place(7, 1));
    assert FindOption(m, 59, OPT_MESSAGE_TYPE) == None;
  }
}
