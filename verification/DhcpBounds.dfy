/** What the option walks read, and when that lies inside the message: the walk of configureDhcp in
    dhcp_recovery/client/dhcpclient.cpp, and getOption and its callers in
    dhcp_recovery/common/message.cpp. A read outside shows in the result for some memory behind the
    message, so the two are told apart by whether that memory matters. */
module DhcpBounds {
  import opened Bytes
  import opened DhcpMessage
  import opened DhcpLease
  import opened DhcpProtocol

  /** The same message, with anything behind it in memory. The client receives into a record that was zeroed,
      so what it meets behind a message that does not fill the record is zero; what follows a full record is
      whatever it is. */
  predicate SameMessage(m: Msg, m': Msg) {
    m'.size == m.size && forall i | 0 <= i < m.size :: m'.mem[i] == m.mem[i]
  }

  // ----- The walk of configureDhcp

  /** Whether the client uses the last byte of an option of that code and length. */
  predicate UsesLast(code: byte, length: byte) {
    || (length == 4 && code in {OPT_LEASE_TIME, OPT_T1, OPT_T2, OPT_SUBNET_MASK, OPT_SERVER_ID, OPT_GATEWAY})
    || (length == 2 && code == OPT_MTU)
    || (length in {4, 8, 12, 16} && code == OPT_DNS)
  }

  /** The walk from `i` on meets an option that just passes the length check, so that its last byte lies
      behind the message, and uses that byte. */
  predicate Overhangs(m: Msg, i: nat)
    decreases OptionsSize(m) - i
  {
    if i + 1 >= OptionsSize(m) || m.mem[OPTIONS + i] == OPT_END then false
    else
      var code, length := m.mem[OPTIONS + i], m.mem[OPTIONS + i + 1];
      if i + length >= OptionsSize(m) then false
      else if i + length == OptionsSize(m) - 1 then UsesLast(code, length)
      else Overhangs(m, i + 2 + length)
  }

  /** Two data that agree but for the last byte are taken the same way if that byte is not used. */
  lemma {:induction false} LastUnused(info: Info, code: byte, data: bytes, data': bytes)
    requires HasDns(info) && 0 < |data| == |data'| < 0x100 && data[..|data| - 1] == data'[..|data| - 1]
    requires !UsesLast(code, |data|)
    ensures Take(info, code, data) == Take(info, code, data')
  {
    var n := |data| - 1;
    assert forall i | 0 <= i < n :: data[i] == data[..n][i] == data'[..n][i] == data'[i];
    if code == OPT_DNS {
      assert n >= 4 ==> data[0..4] == data'[0..4];
      assert n >= 8 ==> data[4..8] == data'[4..8];
      assert n >= 12 ==> data[8..12] == data'[8..12];
      assert n >= 16 ==> data[12..16] == data'[12..16];
    } else if code == OPT_GATEWAY {
      assert n >= 4 ==> data[0..4] == data'[0..4];
    }
  }

  /** Two data that differ in the last byte are taken differently if that byte is used. */
  lemma {:induction false} LastUsed(info: Info, code: byte, data: bytes, data': bytes)
    requires HasDns(info) && 0 < |data| == |data'| < 0x100 && data[|data| - 1] != data'[|data| - 1]
    requires UsesLast(code, |data|)
    ensures Take(info, code, data) != Take(info, code, data')
  {
    if code == OPT_DNS {
      LastAddressUsed(info, data, data');
    } else if code in {OPT_LEASE_TIME, OPT_T1, OPT_T2} {
      LastOfNumber(data, data');
    } else if code == OPT_GATEWAY {
      assert data[0..4] == data && data'[0..4] == data';
    }
    hide FromBe32;
  }

  lemma LastOfNumber(data: bytes, data': bytes)
    requires |data| == |data'| == 4 && data[3] != data'[3]
    ensures FromBe32(data) != FromBe32(data')
  {
    assert FromBe32(data) % 0x100 == data[3] && FromBe32(data') % 0x100 == data'[3];
  }

  lemma {:induction false} LastAddressUsed(info: Info, data: bytes, data': bytes)
    requires HasDns(info) && |data| == |data'| && |data| in {4, 8, 12, 16} && data[|data| - 1] != data'[|data| - 1]
    ensures Take(info, OPT_DNS, data) != Take(info, OPT_DNS, data')
  {
    var k := |data| / 4 - 1;
    var r, r' := Take(info, OPT_DNS, data).dns, Take(info, OPT_DNS, data').dns;
    assert r[k] == data[4 * k..4 * k + 4] && r'[k] == data'[4 * k..4 * k + 4];
    assert r[k][3] == data[4 * k + 3] && r'[k][3] == data'[4 * k + 3];
  }

  lemma SameData(m: Msg, m': Msg, at: nat, length: nat)
    requires SameMessage(m, m') && OPTIONS + at + length <= m.size
    ensures OptionBytes(m, at, length) == OptionBytes(m', at, length)
  {
  }

  /** The data of an option that overhangs: all but the last byte lie in the message. */
  lemma OverhangingData(m: Msg, m': Msg, at: nat, length: nat)
    requires SameMessage(m, m') && length > 0 && OPTIONS + at + length == m.size + 1
    ensures
      var d, d' := OptionBytes(m, at, length), OptionBytes(m', at, length);
      |d| == |d'| == length && d[..length - 1] == d'[..length - 1] && d[length - 1] == m.mem[m.size] && d'[length - 1] == m'.mem[m.size]
  {
  }

  /** Behind the message the walk ends. */
  lemma WalkEnds(m: Msg, i: nat, info: Info)
    requires HasDns(info) && i + 1 >= OptionsSize(m)
    ensures Walk(m, i, info) == Walked(true, info)
  {
  }

  lemma {:induction false} WalkStays(m: Msg, m': Msg, i: nat, info: Info)
    requires SameMessage(m, m') && HasDns(info) && !Overhangs(m, i)
    ensures Walk(m', i, info) == Walk(m, i, info)
    decreases OptionsSize(m) - i
  {
    hide Take, UsesLast, OptionBytes;
    if i + 1 >= OptionsSize(m) || m.mem[OPTIONS + i] == OPT_END {
    } else {
      var code, length := m.mem[OPTIONS + i], m.mem[OPTIONS + i + 1];
      if i + length >= OptionsSize(m) {
      } else {
        var d, d' := OptionBytes(m, i + 2, length), OptionBytes(m', i + 2, length);
        if i + length == OptionsSize(m) - 1 {
          OverhangingData(m, m', i + 2, length);
          DataLength(m, i + 2, length);
          LastUnused(info, code, d, d');
          WalkEnds(m, i + 2 + length, Take(info, code, d));
          WalkEnds(m', i + 2 + length, Take(info, code, d'));
        } else {
          SameData(m, m', i + 2, length);
          WalkStays(m, m', i + 2 + length, Take(info, code, d));
        }
      }
    }
  }

  lemma DataLength(m: Msg, at: nat, length: nat)
    requires OPTIONS + at + length <= MEMORY
    ensures |OptionBytes(m, at, length)| == length
  {
  }

  lemma {:induction false} OverhangShows(m: Msg, m': Msg, i: nat, info: Info)
    requires SameMessage(m, m') && m'.mem[m.size] != m.mem[m.size] && HasDns(info) && Overhangs(m, i)
    ensures Walk(m', i, info) != Walk(m, i, info)
    decreases OptionsSize(m) - i
  {
    hide Take, UsesLast, OptionBytes;
    var code, length := m.mem[OPTIONS + i], m.mem[OPTIONS + i + 1];
    var d, d' := OptionBytes(m, i + 2, length), OptionBytes(m', i + 2, length);
    if i + length == OptionsSize(m) - 1 {
      OverhangingData(m, m', i + 2, length);
      LastUsed(info, code, d, d');
      WalkEnds(m, i + 2 + length, Take(info, code, d));
      WalkEnds(m', i + 2 + length, Take(info, code, d'));
    } else {
      SameData(m, m', i + 2, length);
      OverhangShows(m, m', i + 2 + length, Take(info, code, d));
    }
  }

  /** The message with another byte behind it. */
  function OtherBehind(m: Msg): (m': Msg)
    ensures SameMessage(m, m') && m'.mem[m.size] != m.mem[m.size]
  {
    m.(mem := m.mem[m.size := if m.mem[m.size] == 0 then 1 else 0])
  }

  /** The lease that the client reads depends on nothing behind the message exactly when no option that
      it uses to the last byte overhangs the message. */
  lemma {:induction false} LeaseReadInsideIff(m: Msg)
    ensures (forall m': Msg | SameMessage(m, m') :: Walk(m', 4, ZERO_INFO) == Walk(m, 4, ZERO_INFO)) <==> !Overhangs(m, 4)
  {
    if Overhangs(m, 4) {
      OverhangShows(m, OtherBehind(m), 4, ZERO_INFO);
    } else {
      forall m': Msg | SameMessage(m, m')
        ensures Walk(m', 4, ZERO_INFO) == Walk(m, 4, ZERO_INFO)
      {
        WalkStays(m, m', 4, ZERO_INFO);
      }
    }
  }

  /** A well-formed option area never overhangs. */
  lemma {:induction false} WellFormedStaysInside(m: Msg, i: nat, opts: seq<Opt>)
    requires Laid(m, i, opts)
    ensures !Overhangs(m, i)
    decreases |opts|
  {
    if opts == [] {
    } else {
      WellFormedStaysInside(m, i + 2 + |opts[0].data|, opts[1..]);
    }
  }

  // ----- getOption and its callers

  /** getOption itself reads nothing behind the message, on any message. */
  lemma {:induction false} FindReadsInside(m: Msg, m': Msg, i: nat, code: byte)
    requires SameMessage(m, m')
    ensures FindOption(m', i, code) == FindOption(m, i, code)
    decreases OptionsSize(m) - i
  {
    if i + 2 >= OptionsSize(m) || m.mem[OPTIONS + i] == OPT_END || m.mem[OPTIONS + i] == code {
    } else {
      FindReadsInside(m, m', i + 2 + m.mem[OPTIONS + i + 1], code);
    }
  }

  /** Nor does type. */
  lemma {:induction false} TypeReadsInside(m: Msg, m': Msg)
    requires SameMessage(m, m')
    ensures TypeOf(m') == TypeOf(m)
  {
    FindReadsInside(m, m', 4, OPT_MESSAGE_TYPE);
  }

  /** The option found has four bytes of which some lie behind the message. */
  predicate AddressOverhangs(m: Msg, code: byte) {
    match FindOption(m, 4, code)
    case Some(p) => p.length == 4 && p.at + 4 > OptionsSize(m)
    case None => false
  }

  /** The address that serverId or requestedIp reads depends on nothing behind the message exactly when
      its option does not overhang, which it can by up to three bytes. */
  lemma {:induction false} AddressReadInsideIff(m: Msg, code: byte)
    ensures (forall m': Msg | SameMessage(m, m') :: AddressOption(m', code) == AddressOption(m, code)) <==> !AddressOverhangs(m, code)
    ensures AddressOverhangs(m, code) ==> OptionsSize(m) < FindOption(m, 4, code).value.at + 4 <= OptionsSize(m) + 3
  {
    var found := FindOption(m, 4, code);
    if AddressOverhangs(m, code) {
      var m', at := OtherBehind(m), found.value.at;
      FindReadsInside(m, m', 4, code);
      var k := m.size - (OPTIONS + at);
      assert AddressOption(m, code)[k] == m.mem[m.size] && AddressOption(m', code)[k] == m'.mem[m.size];
    } else {
      forall m': Msg | SameMessage(m, m')
        ensures AddressOption(m', code) == AddressOption(m, code)
      {
        FindReadsInside(m, m', 4, code);
        if found.Some? && found.value.length == 4 {
          SameData(m, m', found.value.at, 4);
        }
      }
    }
  }

  // ----- A reply for each

  /** A reply of the server for transaction `xid`: header, cookie, then `options` up to the end of the message, and
      one byte behind it. */
  function Reply(xid: address, options: bytes, behind: byte): Msg
    requires |options| <= 20
  {
    Record([OP_BOOTREPLY, HTYPE_ETHER, ETH_ALEN, 0] + xid + Zeros(OPTIONS - 8) + COOKIE + options + [behind]
           + Zeros(MEMORY - OPTIONS - 5 - |options|), OPTIONS + 4 + |options|)
  }

  lemma ReplyAt(xid: address, options: bytes, behind: byte, i: nat)
    requires |options| <= 20 && i <= |options|
    ensures Reply(xid, options, behind).mem[OPTIONS + 4 + i] == if i < |options| then options[i] else behind
  {
  }

  /** The client takes it for a reply to its message. */
  lemma ReplyIsValid(xid: address, options: bytes, behind: byte)
    requires |options| <= 20
    ensures
      var m := Reply(xid, options, behind);
      IsValid(m, OP_BOOTREPLY) && XidOf(m) == xid && m.size == OPTIONS + 4 + |options|
  {
  }

  /** An ack that ends in a lease time of which the last byte is missing: the client accepts it and takes the
      byte from behind the message. */
  lemma {:induction false} LeaseTimeFromBehind(xid: address, behind: byte)
    ensures
      var m := Reply(xid, [OPT_MESSAGE_TYPE, 1, DHCPACK, OPT_LEASE_TIME, 4, 0, 0, 14], behind);
      && IsValid(m, OP_BOOTREPLY) && XidOf(m) == xid && TypeOf(m) == DHCPACK && Overhangs(m, 4)
      && Walk(m, 4, ZERO_INFO) == Walked(true, ZERO_INFO.(leaseTime := 14 * 0x100 + behind))
  {
    var options: bytes := [OPT_MESSAGE_TYPE, 1, DHCPACK, OPT_LEASE_TIME, 4, 0, 0, 14];
    var m := Reply(xid, options, behind);
    ReplyIsValid(xid, options, behind);
    forall i: nat | i <= 8
      ensures m.mem[OPTIONS + 4 + i] == if i < 8 then options[i] else behind
    {
      ReplyAt(xid, options, behind, i);
    }
    AckWithLease(m, behind);
  }

  lemma {:induction false} AckWithLease(m: Msg, behind: byte)
    requires m.size == OPTIONS + 12
    requires m.mem[OPTIONS + 4] == OPT_MESSAGE_TYPE && m.mem[OPTIONS + 5] == 1 && m.mem[OPTIONS + 6] == DHCPACK
    requires m.mem[OPTIONS + 7] == OPT_LEASE_TIME && m.mem[OPTIONS + 8] == 4 && m.mem[OPTIONS + 9] == 0
    requires m.mem[OPTIONS + 10] == 0 && m.mem[OPTIONS + 11] == 14 && m.mem[OPTIONS + 12] == behind
    ensures TypeOf(m) == DHCPACK && Overhangs(m, 4)
    ensures Walk(m, 4, ZERO_INFO) == Walked(true, ZERO_INFO.(leaseTime := 14 * 0x100 + behind))
  {
    var data := OptionBytes(m, 9, 4);
    assert data == [0, 0, 14, behind];
    LeaseTimeTaken(behind);
    WalkEnds(m, 13, Take(ZERO_INFO, OPT_LEASE_TIME, data));
    assert Walk(m, 7, ZERO_INFO) == Walk(m, 13, Take(ZERO_INFO, OPT_LEASE_TIME, data));
    assert Take(ZERO_INFO, OPT_MESSAGE_TYPE, OptionBytes(m, 6, 1)) == ZERO_INFO;
    assert Overhangs(m, 7);
  }

  lemma {:induction false} LeaseTimeTaken(behind: byte)
    ensures FromBe32([0, 0, 14, behind]) == 14 * 0x100 + behind
  {
    var b: bytes := [0, 0, 14, behind];
    assert b[..2] == [0, 0] && b[2..] == [14, behind];
  }

  /** A client that waits for an ack takes its lease, and its timers, from that byte. */
  lemma {:induction false} LeaseTimeReachesClient(c: Client, poll: Poll, behind: byte, noGateway: bool)
    requires AwaitsAck(c.state) && |c.lastXid| == 4 && poll.Received? && poll.headersOk
    requires poll.msg == Reply(c.lastXid, [OPT_MESSAGE_TYPE, 1, DHCPACK, OPT_LEASE_TIME, 4, 0, 0, 14], behind)
    ensures
      var h := Handle(c, poll, noGateway);
      && h.c.info.leaseTime == 14 * 0x100 + behind
      && h.log != [] && h.log[0] == TimersSet(h.c.t1, h.c.t2) && h.c.t1 == Expiry(poll.t1SetAt, (14 * 0x100 + behind as int) / 2)
  {
    LeaseTimeFromBehind(c.lastXid, behind);
    hide Walk, IsValid, TypeOf, Reply, XidOf, Overhangs;
    assert OptionsSize(poll.msg) == 12;
  }

  /** An offer that ends in a server id of which three bytes are missing: serverId takes them from behind the
      message. */
  lemma {:induction false} ServerIdFromBehind(xid: address, behind: byte)
    ensures
      var m := Reply(xid, [OPT_MESSAGE_TYPE, 1, DHCPOFFER, OPT_SERVER_ID, 4, 10], behind);
      && IsValid(m, OP_BOOTREPLY) && XidOf(m) == xid && TypeOf(m) == DHCPOFFER
      && AddressOverhangs(m, OPT_SERVER_ID) && AddressOption(m, OPT_SERVER_ID) == [10, behind, 0, 0]
  {
    var options: bytes := [OPT_MESSAGE_TYPE, 1, DHCPOFFER, OPT_SERVER_ID, 4, 10];
    var m := Reply(xid, options, behind);
    ReplyIsValid(xid, options, behind);
    forall i: nat | i <= 6
      ensures m.mem[OPTIONS + 4 + i] == if i < 6 then options[i] else behind
    {
      ReplyAt(xid, options, behind, i);
    }
    assert m.mem[OPTIONS + 11] == m.mem[OPTIONS + 12] == 0;
    OfferWithServer(m, behind);
  }

  lemma {:induction false} OfferWithServer(m: Msg, behind: byte)
    requires m.size == OPTIONS + 10
    requires m.mem[OPTIONS + 4] == OPT_MESSAGE_TYPE && m.mem[OPTIONS + 5] == 1 && m.mem[OPTIONS + 6] == DHCPOFFER
    requires m.mem[OPTIONS + 7] == OPT_SERVER_ID && m.mem[OPTIONS + 8] == 4 && m.mem[OPTIONS + 9] == 10
    requires m.mem[OPTIONS + 10] == behind && m.mem[OPTIONS + 11] == m.mem[OPTIONS + 12] == 0
    ensures TypeOf(m) == DHCPOFFER && AddressOverhangs(m, OPT_SERVER_ID) && AddressOption(m, OPT_SERVER_ID) == [10, behind, 0, 0]
  {
    assert FindOption(m, 7, OPT_SERVER_ID) == Some(Place(9, 4));
    assert FindOption(m, 4, OPT_SERVER_ID) == FindOption(m, 7, OPT_SERVER_ID);
  }

  /** A client that looks for offers asks the server of that address. */
  lemma {:induction false} ServerIdReachesClient(c: Client, poll: Poll, behind: byte, noGateway: bool)
    requires c.state == Selecting && |c.lastXid| == 4 && poll.Received? && poll.headersOk
    requires poll.msg == Reply(c.lastXid, [OPT_MESSAGE_TYPE, 1, DHCPOFFER, OPT_SERVER_ID, 4, 10], behind)
    ensures
      var h := Handle(c, poll, noGateway);
      h.done && h.c.state == Requesting && h.c.serverAddress == [10, behind, 0, 0]
  {
    ServerIdFromBehind(c.lastXid, behind);
    hide IsValid, TypeOf, Reply, XidOf, AddressOption, AddressOverhangs;
  }
}
