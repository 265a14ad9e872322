/** The lease that the client reads out of an ACK: the option walk of configureDhcp in
    dhcp_recovery/client/dhcpclient.cpp, and the timers of dhcp_recovery/client/timer.cpp. */
module DhcpLease {
  import opened Bytes
  import opened DhcpMessage

  datatype Info = Info(t1: uint32, t2: uint32, leaseTime: uint32, mtu: uint16, dns: seq<address>,
                       gateway: address, subnetMask: address, serverId: address, offeredAddress: address)

  const NO_ADDRESS: address := [0, 0, 0, 0]
  const ZERO_INFO: Info :=
    Info(0, 0, 0, 0, [NO_ADDRESS, NO_ADDRESS, NO_ADDRESS, NO_ADDRESS], NO_ADDRESS, NO_ADDRESS, NO_ADDRESS, NO_ADDRESS)

  predicate HasDns(info: Info) {
    |info.dns| == 4
  }

  /** What one option of the walk changes. */
  function Take(info: Info, code: byte, data: bytes): (r: Info)
    requires HasDns(info)
    ensures HasDns(r)
  {
    if code == OPT_LEASE_TIME && |data| == 4 then info.(leaseTime := FromBe32(data))
    else if code == OPT_T1 && |data| == 4 then info.(t1 := FromBe32(data))
    else if code == OPT_T2 && |data| == 4 then info.(t2 := FromBe32(data))
    else if code == OPT_SUBNET_MASK && |data| == 4 then info.(subnetMask := data)
    else if code == OPT_GATEWAY && |data| >= 4 then info.(gateway := data[0..4])
    else if code == OPT_MTU && |data| == 2 then info.(mtu := FromBe16(data))
    else if code == OPT_DNS then
      info.(dns := [if |data| >= 4 then data[0..4] else info.dns[0],
                    if |data| >= 8 then data[4..8] else info.dns[1],
                    if |data| >= 12 then data[8..12] else info.dns[2],
                    if |data| >= 16 then data[12..16] else info.dns[3]])
    else if code == OPT_SERVER_ID && |data| == 4 then info.(serverId := data)
    else info
  }

  /** The outcome of the walk: whether it met no overlong option, and the fields as it left them. */
  datatype Walked = Walked(ok: bool, info: Info)

  function Walk(m: Msg, i: nat, info: Info): (r: Walked)
    requires HasDns(info)
    ensures HasDns(r.info)
    decreases OptionsSize(m) - i
  {
    if i + 1 >= OptionsSize(m) || m.mem[OPTIONS + i] == OPT_END then Walked(true, info)
    else
      var length := m.mem[OPTIONS + i + 1];
      if i + length >= OptionsSize(m) then Walked(false, info)
      else Walk(m, i + 2 + length, Take(info, m.mem[OPTIONS + i], OptionBytes(m, i + 2, length)))
  }

  // ----- The walk over a well-formed option area

  function Collected(opts: seq<Opt>, info: Info): (r: Info)
    requires HasDns(info)
    ensures HasDns(r)
    decreases |opts|
  {
    if opts == [] then info else Collected(opts[1..], Take(info, opts[0].code, opts[0].data))
  }

  /** On a well-formed option area configureDhcp steps through exactly the options that getOption
      steps through, rejects nothing, and looks at nothing outside the message. */
  lemma {:induction false} WalkCollects(m: Msg, i: nat, opts: seq<Opt>, info: Info)
    requires HasDns(info) && Laid(m, i, opts)
    ensures Walk(m, i, info) == Walked(true, Collected(opts, info))
    decreases |opts|
  {
    if opts == [] {
    } else {
      var o := opts[0];
      WalkCollects(m, i + 2 + |o.data|, opts[1..], Take(info, o.code, o.data));
    }
  }

  /** The data of the last option with the code and a length between `low` and `high`. */
  function Last(opts: seq<Opt>, code: byte, low: nat, high: nat): (r: Option<bytes>)
    ensures r.Some? ==> low <= |r.value| <= high
    decreases |opts|
  {
    if opts == [] then None
    else match Last(opts[1..], code, low, high)
      case Some(d) => Some(d)
      case None =>
        if opts[0].code == code && low <= |opts[0].data| <= high then Some(opts[0].data) else None
  }

  /** What Last means, by positions. */
  lemma {:induction false} LastIsLast(opts: seq<Opt>, code: byte, low: nat, high: nat)
    ensures match Last(opts, code, low, high)
            case None => forall k | 0 <= k < |opts| :: !(opts[k].code == code && low <= |opts[k].data| <= high)
            case Some(d) => exists k | 0 <= k < |opts| ::
                              (opts[k] == Opt(code, d)
                               && forall j | k < j < |opts| :: !(opts[j].code == code && low <= |opts[j].data| <= high))
    decreases |opts|
  {
    if opts == [] {
    } else {
      var rest := opts[1..];
      LastIsLast(rest, code, low, high);
      assert forall k | 1 <= k < |opts| :: opts[k] == rest[k - 1];
      if Last(rest, code, low, high).Some? {
        var d := Last(rest, code, low, high).value;
        var k :| 0 <= k < |rest| && rest[k] == Opt(code, d)
          && forall j | k < j < |rest| :: !(rest[j].code == code && low <= |rest[j].data| <= high);
        assert opts[k + 1] == Opt(code, d);
        assert forall j | k + 1 < j < |opts| :: opts[j] == rest[j - 1];
      } else if Last(opts, code, low, high).Some? {
        assert opts[0] == Opt(code, opts[0].data);
      }
    }
  }

  function Or<T>(o: Option<T>, otherwise: T): T {
    match o
    case Some(x) => x
    case None => otherwise
  }

  function Number(o: Option<bytes>, otherwise: uint32): uint32
    requires o.Some? ==> |o.value| == 4
  {
    match o
    case Some(d) => FromBe32(d)
    case None => otherwise
  }

  /** Bytes `at` to `at + 4` of the last option that has them. */
  function AddressAt(opts: seq<Opt>, code: byte, at: nat, otherwise: address): address {
    match Last(opts, code, at + 4, 255)
    case Some(d) => d[at..at + 4]
    case None => otherwise
  }

  lemma {:induction false} LastNumberWins(opts: seq<Opt>, info: Info)
    requires HasDns(info)
    ensures
      var r := Collected(opts, info);
      && r.leaseTime == Number(Last(opts, OPT_LEASE_TIME, 4, 4), info.leaseTime)
      && r.t1 == Number(Last(opts, OPT_T1, 4, 4), info.t1)
      && r.t2 == Number(Last(opts, OPT_T2, 4, 4), info.t2)
      && r.mtu == (match Last(opts, OPT_MTU, 2, 2) case Some(d) => FromBe16(d) case None => info.mtu)
    decreases |opts|
  {
    if opts == [] {
    } else {
      LastNumberWins(opts[1..], Take(info, opts[0].code, opts[0].data));
    }
  }

  lemma {:induction false} LastAddressWins(opts: seq<Opt>, info: Info)
    requires HasDns(info) && forall o | o in opts :: Encodable(o)
    ensures
      var r := Collected(opts, info);
      && r.subnetMask == Or(Last(opts, OPT_SUBNET_MASK, 4, 4), info.subnetMask)
      && r.serverId == Or(Last(opts, OPT_SERVER_ID, 4, 4), info.serverId)
      && r.gateway == AddressAt(opts, OPT_GATEWAY, 0, info.gateway)
      && r.offeredAddress == info.offeredAddress
    decreases |opts|
  {
    if opts == [] {
    } else {
      var o := opts[0];
      assert forall x | x in opts[1..] :: x in opts;
      assert o in opts;
      LastAddressWins(opts[1..], Take(info, o.code, o.data));
    }
  }

  lemma DnsStep(info: Info, code: byte, data: bytes, j: nat)
    requires HasDns(info) && j < 4
    ensures Take(info, code, data).dns[j]
         == if code == OPT_DNS && 4 * j + 4 <= |data| then data[4 * j..4 * j + 4] else info.dns[j]
  {
  }

  lemma {:induction false} LastDnsWins(opts: seq<Opt>, info: Info, j: nat)
    requires HasDns(info) && j < 4 && forall o | o in opts :: Encodable(o)
    ensures Collected(opts, info).dns[j] == AddressAt(opts, OPT_DNS, 4 * j, info.dns[j])
    decreases |opts|
  {
    if opts == [] {
    } else {
      var o := opts[0];
      assert forall x | x in opts[1..] :: x in opts;
      assert o in opts;
      DnsStep(info, o.code, o.data, j);
      hide Take, Encodable;
      LastDnsWins(opts[1..], Take(info, o.code, o.data), j);
    }
  }

  /** Every field of the collected lease is that of the last option of acceptable length, or what it
      was before. */
  lemma {:induction false} LastOptionWins(opts: seq<Opt>, info: Info)
    requires HasDns(info) && forall o | o in opts :: Encodable(o)
    ensures
      var r := Collected(opts, info);
      && r.leaseTime == Number(Last(opts, OPT_LEASE_TIME, 4, 4), info.leaseTime)
      && r.t1 == Number(Last(opts, OPT_T1, 4, 4), info.t1)
      && r.t2 == Number(Last(opts, OPT_T2, 4, 4), info.t2)
      && r.mtu == (match Last(opts, OPT_MTU, 2, 2) case Some(d) => FromBe16(d) case None => info.mtu)
      && r.subnetMask == Or(Last(opts, OPT_SUBNET_MASK, 4, 4), info.subnetMask)
      && r.serverId == Or(Last(opts, OPT_SERVER_ID, 4, 4), info.serverId)
      && r.gateway == AddressAt(opts, OPT_GATEWAY, 0, info.gateway)
      && (forall j | 0 <= j < 4 :: r.dns[j] == AddressAt(opts, OPT_DNS, 4 * j, info.dns[j]))
  {
    LastNumberWins(opts, info);
    LastAddressWins(opts, info);
    forall j | 0 <= j < 4
      ensures Collected(opts, info).dns[j] == AddressAt(opts, OPT_DNS, 4 * j, info.dns[j])
    {
      LastDnsWins(opts, info, j);
    }
  }

  /** What lies behind the message in memory does not matter: the well-formedness of its option area,
      and with it everything the two walks find, depends on its own bytes only. */
  lemma {:induction false} OnlyTheMessageIsRead(m: Msg, m': Msg, i: nat, opts: seq<Opt>)
    requires m'.size == m.size && m'.mem[..m.size] == m.mem[..m.size] && Laid(m, i, opts)
    ensures Laid(m', i, opts)
    ensures forall code: byte | code != OPT_END :: FindOption(m', i, code) == FindOption(m, i, code)
    ensures Walk(m', i, ZERO_INFO) == Walk(m, i, ZERO_INFO)
    decreases |opts|
  {
    assert forall k | 0 <= k < m.size :: m'.mem[k] == m'.mem[..m.size][k] == m.mem[..m.size][k] == m.mem[k];
    SameLaid(m, m', i, opts);
    forall code: byte | code != OPT_END
      ensures FindOption(m', i, code) == FindOption(m, i, code)
    {
      SameFound(m, m', i, opts, code);
    }
    WalkCollects(m, i, opts, ZERO_INFO);
    WalkCollects(m', i, opts, ZERO_INFO);
  }

  lemma {:induction false} SameLaid(m: Msg, m': Msg, i: nat, opts: seq<Opt>)
    requires m'.size == m.size && (forall k | 0 <= k < m.size :: m'.mem[k] == m.mem[k]) && Laid(m, i, opts)
    ensures Laid(m', i, opts)
    decreases |opts|
  {
    if opts == [] {
    } else {
      SameLaid(m, m', i + 2 + |opts[0].data|, opts[1..]);
      assert OptionBytes(m', i + 2, |opts[0].data|) == OptionBytes(m, i + 2, |opts[0].data|);
    }
  }

  lemma {:induction false} SameFound(m: Msg, m': Msg, i: nat, opts: seq<Opt>, code: byte)
    requires m'.size == m.size && (forall k | 0 <= k < m.size :: m'.mem[k] == m.mem[k])
    requires Laid(m, i, opts) && code != OPT_END
    ensures FindOption(m', i, code) == FindOption(m, i, code)
    decreases |opts|
  {
    if opts == [] {
    } else {
      SameFound(m, m', i + 2 + |opts[0].data|, opts[1..], code);
    }
  }

  /** The two walks agree on an option that occurs once with an acceptable length. */
  lemma {:induction false} WalksAgree(m: Msg, opts: seq<Opt>)
    requires Laid(m, 4, opts) && First(opts, OPT_SERVER_ID) == Last(opts, OPT_SERVER_ID, 4, 4)
    ensures Walk(m, 4, ZERO_INFO).ok && Walk(m, 4, ZERO_INFO).info.serverId == AddressOption(m, OPT_SERVER_ID)
  {
    LaidEncodable(m, 4, opts);
    WalkCollects(m, 4, opts, ZERO_INFO);
    LastAddressWins(opts, ZERO_INFO);
    FindsFirst(m, 4, opts, OPT_SERVER_ID);
  }

  lemma {:induction false} LaidEncodable(m: Msg, i: nat, opts: seq<Opt>)
    requires Laid(m, i, opts)
    ensures forall o | o in opts :: Encodable(o)
    decreases |opts|
  {
    if opts == [] {
    } else {
      LaidEncodable(m, i + 2 + |opts[0].data|, opts[1..]);
      assert forall o | o in opts :: o == opts[0] || o in opts[1..];
    }
  }

  // ----- A lease as it was granted and as it is read

  lemma {:induction false} CollectCons(o: Opt, rest: seq<Opt>, info: Info)
    requires HasDns(info)
    ensures Collected([o] + rest, info) == Collected(rest, Take(info, o.code, o.data))
  {
    assert ([o] + rest)[1..] == rest;
  }

  lemma {:induction false} AddressesAt(list: seq<address>, j: nat)
    requires j < |list|
    ensures Addresses(list)[4 * j..4 * j + 4] == list[j]
    decreases j
  {
    if j == 0 {
    } else {
      AddressesAt(list[1..], j - 1);
      assert Addresses(list)[4 * j..4 * j + 4] == Addresses(list[1..])[4 * (j - 1)..4 * (j - 1) + 4];
    }
  }

  /** The name servers that a reader takes from a list of them. */
  function DnsRead(dnsServers: seq<address>): seq<address> {
    seq(4, j requires 0 <= j < 4 => if j < |dnsServers| % 64 then dnsServers[j] else NO_ADDRESS)
  }

  lemma {:induction false} DnsTaken(dnsServers: seq<address>, info: Info)
    requires info.dns == [NO_ADDRESS, NO_ADDRESS, NO_ADDRESS, NO_ADDRESS]
    ensures Take(info, OPT_DNS, Addresses(dnsServers)[..4 * |dnsServers| % 0x100]) == info.(dns := DnsRead(dnsServers))
  {
    var n := |dnsServers| % 64;
    assert 4 * |dnsServers| % 0x100 == 4 * n;
    var data := Addresses(dnsServers)[..4 * n];
    DnsOnly(info, data);
    hide Addresses, Take;
    forall j | 0 <= j < 4
      ensures Take(info, OPT_DNS, data).dns[j] == if j < n then dnsServers[j] else NO_ADDRESS
    {
      DnsStep(info, OPT_DNS, data, j);
      if j < n {
        AddressesAt(dnsServers, j);
        PrefixSlice(Addresses(dnsServers), 4 * n, 4 * j, 4 * j + 4);
      }
    }
    assert Take(info, OPT_DNS, data).dns == DnsRead(dnsServers);
  }

  lemma DnsOnly(info: Info, data: bytes)
    requires HasDns(info)
    ensures Take(info, OPT_DNS, data) == info.(dns := Take(info, OPT_DNS, data).dns)
  {
  }

  lemma PrefixSlice(b: bytes, n: nat, from: nat, to: nat)
    requires from <= to <= n <= |b|
    ensures b[..n][from..to] == b[from..to]
  {
  }

  /** The client accepts every ack for its transaction and reads back all that the server put into
      it, but for the lease time: that is stored in host order and read in network order, so 600
      seconds become 1476526080. */
  lemma {:induction false} AckIsUnderstood(m: Msg, source: Msg, server: address, offered: address, netmask: address,
                                           gateway: address, dnsServers: seq<address>)
    requires Built(m, LeaseHeader(source, offered), LeaseOptions(DHCPACK, server, netmask, gateway, dnsServers))
    ensures IsValid(m, OP_BOOTREPLY) && XidOf(m) == XidOf(source) && YiaddrOf(m) == offered
    ensures TypeOf(m) == DHCPACK && AddressOption(m, OPT_SERVER_ID) == server
    ensures Walk(m, 4, ZERO_INFO)
         == Walked(true, Info(0, 0, 1476526080, 0, DnsRead(dnsServers), gateway, netmask, server, NO_ADDRESS))
    ensures FromBe32(Le32(DEFAULT_LEASE_TIME)) == 1476526080 != DEFAULT_LEASE_TIME
  {
    LeaseHeaderRead(m, source, offered, LeaseOptions(DHCPACK, server, netmask, gateway, dnsServers));
    FirstsOfLease(DHCPACK, server, netmask, gateway, dnsServers);
    LeaseCollected(server, netmask, gateway, dnsServers);
    LeaseTimeSwapped();
  }

  /** The same for offers, of which the client looks at the header and the server id only. */
  lemma {:induction false} OfferIsUnderstood(m: Msg, source: Msg, server: address, offered: address, netmask: address,
                                             gateway: address, dnsServers: seq<address>)
    requires Built(m, LeaseHeader(source, offered), LeaseOptions(DHCPOFFER, server, netmask, gateway, dnsServers))
    ensures IsValid(m, OP_BOOTREPLY) && XidOf(m) == XidOf(source) && YiaddrOf(m) == offered
    ensures TypeOf(m) == DHCPOFFER && AddressOption(m, OPT_SERVER_ID) == server
  {
    LeaseHeaderRead(m, source, offered, LeaseOptions(DHCPOFFER, server, netmask, gateway, dnsServers));
    FirstsOfLease(DHCPOFFER, server, netmask, gateway, dnsServers);
  }

  lemma {:induction false} LeaseHeaderRead(m: Msg, source: Msg, offered: address, opts: seq<Opt>)
    requires Built(m, LeaseHeader(source, offered), opts)
    ensures IsValid(m, OP_BOOTREPLY) && XidOf(m) == XidOf(source) && YiaddrOf(m) == offered
    ensures TypeOf(m) == match First(opts, OPT_MESSAGE_TYPE) case Some(d) => if |d| == 1 then d[0] else 0 case None => 0
    ensures AddressOption(m, OPT_SERVER_ID)
         == match First(opts, OPT_SERVER_ID) case Some(d) => if |d| == 4 then d else NO_ADDRESS case None => NO_ADDRESS
    ensures Walk(m, 4, ZERO_INFO) == Walked(true, Collected(opts, ZERO_INFO))
  {
    BuiltIsWellFormed(m, LeaseHeader(source, offered), opts);
    ReadersOfBuilt(m, LeaseHeader(source, offered), opts);
    WalkCollects(m, 4, opts, ZERO_INFO);
  }

  lemma LeaseTimeSwapped()
    ensures Le32(DEFAULT_LEASE_TIME) == [88, 2, 0, 0] && FromBe32([88, 2, 0, 0]) == 1476526080
  {
  }

  lemma {:induction false} FirstsOfLease(messageType: byte, server: address, netmask: address, gateway: address,
                                         dnsServers: seq<address>)
    ensures First(LeaseOptions(messageType, server, netmask, gateway, dnsServers), OPT_MESSAGE_TYPE) == Some([messageType])
    ensures First(LeaseOptions(messageType, server, netmask, gateway, dnsServers), OPT_SERVER_ID) == Some(server)
  {
    var opts := LeaseOptions(messageType, server, netmask, gateway, dnsServers);
    FirstAt(opts, 0);
    FirstAt(opts, 1);
  }

  lemma {:induction false} LeaseCollected(server: address, netmask: address, gateway: address, dnsServers: seq<address>)
    ensures Collected(LeaseOptions(DHCPACK, server, netmask, gateway, dnsServers), ZERO_INFO)
         == Info(0, 0, 1476526080, 0, DnsRead(dnsServers), gateway, netmask, server, NO_ADDRESS)
  {
    var dns := Opt(OPT_DNS, Addresses(dnsServers)[..4 * |dnsServers| % 0x100]);
    var fields := LeaseFields(server, netmask, gateway);
    var i0 := ZERO_INFO;
    var i1 := i0.(serverId := server);
    var i2 := i1.(leaseTime := 1476526080);
    var i3 := i2.(subnetMask := netmask);
    var i4 := i3.(gateway := gateway);
    var o4 := [dns] + [];
    var o3 := [fields[3]] + o4;
    var o2 := [fields[2]] + o3;
    var o1 := [fields[1]] + o2;
    var o0 := [fields[0]] + o1;
    assert LeaseOptions(DHCPACK, server, netmask, gateway, dnsServers) == [Opt(OPT_MESSAGE_TYPE, [DHCPACK])] + o0;
    CollectCons(Opt(OPT_MESSAGE_TYPE, [DHCPACK]), o0, i0);
    CollectCons(fields[0], o1, i0);
    CollectCons(fields[1], o2, i1);
    CollectCons(fields[2], o3, i2);
    assert gateway[0..4] == gateway;
    CollectCons(fields[3], o4, i3);
    CollectCons(dns, [], i4);
    DnsTaken(dnsServers, i4);
  }

  // ----- Timers

  /** A reading of the monotonic clock in milliseconds; it stays far below the range of uint64_t. */
  type clock = t: nat | t < 0x4000_0000_0000_0000

  function Expiry(now: clock, seconds: uint32): nat {
    now + 1000 * seconds as nat
  }

  class Timer {
    var mExpires: nat

    constructor ()
      ensures mExpires == 0
    {
      mExpires := 0;
    }

    /** The sum stays below the range of uint64_t. */
    method ExpireSeconds(now: clock, seconds: uint32)
      modifies this
      ensures mExpires == Expiry(now, seconds) < 0x1_0000_0000_0000_0000
    {
      mExpires := now + 1000 * seconds as nat;
    }

    predicate Expired(now: clock)
      reads this
    {
      now >= mExpires
    }

    function RemainingMillis(now: clock): nat
      reads this
    {
      if now > mExpires then 0 else mExpires - now
    }
  }

  /** The seconds to T1: the server's value or half the lease. */
  function T1Seconds(info: Info): uint32 {
    if info.t1 > 0 then info.t1 else info.leaseTime / 2
  }

  /** The seconds to T2: the server's value or seven eighths of the lease, computed in 32 bits. */
  function T2Seconds(info: Info): uint32 {
    if info.t2 > 0 then info.t2 else (7 * info.leaseTime as nat) % 0x1_0000_0000 / 8
  }

  /** The default T2 is that of RFC 2131 section 4.4.5 exactly for leases of up to 613566756 seconds,
      and not before T1 exactly for these. */
  lemma DefaultTimers(info: Info)
    requires info.t1 == 0 && info.t2 == 0
    ensures T2Seconds(info) == 7 * info.leaseTime as nat / 8 <==> info.leaseTime <= 613566756
    ensures T1Seconds(info) <= T2Seconds(info) <==> info.leaseTime <= 613566756
  {
  }

  /** For the lease time that the client reads out of this server's acks they are not in order: T2
      comes before T1. */
  lemma OwnLeaseTimers(info: Info)
    requires info.t1 == 0 && info.t2 == 0 && info.leaseTime == 1476526080
    ensures T1Seconds(info) == 738263040 && T2Seconds(info) == 218218496
  {
  }
}
