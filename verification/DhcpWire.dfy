/** The messages of the DHCP client and the server byte by byte, by the tables of RFC 2131 section 2 and RFC 2132. */
module DhcpWire {
  import opened Bytes
  import opened DhcpMessage

  /** The fixed part as RFC 2131 lays it out: hops, seconds, client and next server are zero, as are server name and
      boot file. */
  predicate FixedPart(m: Msg, op: byte, xid: bytes, flags: bytes, yiaddr: bytes, giaddr: bytes, chaddr: bytes) {
    && m.size >= 240 && m.mem[0] == op && m.mem[1] == 1 && m.mem[2] == 6 && m.mem[3] == 0
    && m.mem[4..8] == xid && m.mem[8] == 0 && m.mem[9] == 0 && m.mem[10..12] == flags
    && m.mem[12..16] == [0, 0, 0, 0] && m.mem[16..20] == yiaddr && m.mem[20..24] == [0, 0, 0, 0] && m.mem[24..28] == giaddr
    && m.mem[28..34] == chaddr && (forall i | 34 <= i < 236 :: m.mem[i] == 0)
    && m.mem[236] == 99 && m.mem[237] == 130 && m.mem[238] == 83 && m.mem[239] == 99
  }

  lemma {:induction false} HeaderIsFixedPart(m: Msg, h: Header, opts: seq<Opt>)
    requires Built(m, h, opts)
    ensures FixedPart(m, h.op, h.xid, h.flags, h.yiaddr, h.giaddr, h.chaddr)
    ensures m.mem[240..m.size] == Encode(opts) + [255]
  {
    var first, zeros, cookie := m.mem[..4], m.mem[34..236], m.mem[236..240];
    assert first[0] == m.mem[0] && first[1] == m.mem[1] && first[2] == m.mem[2] && first[3] == m.mem[3];
    assert m.mem[8..10][0] == m.mem[8] && m.mem[8..10][1] == m.mem[9];
    forall i | 34 <= i < 236
      ensures m.mem[i] == 0
    {
      assert m.mem[i] == zeros[i - 34];
    }
    assert cookie[0] == m.mem[236] && cookie[1] == m.mem[237] && cookie[2] == m.mem[238] && cookie[3] == m.mem[239];
    hide Encode;
  }

  /** A number in four bytes, the highest first. */
  predicate InNetworkOrder(b: bytes, n: nat) {
    |b| == 4 && n == b[0] as int * 0x100_0000 + b[1] as int * 0x1_0000 + b[2] as int * 0x100 + b[3] as int
  }

  lemma {:induction false} IdInNetworkOrder(n: uint32)
    ensures InNetworkOrder(Be32(n), n)
  {
    var b := Be32(n);
    assert FromBe32(b) == n;
    assert b[..2][0] == b[0] && b[..2][1] == b[1] && b[2..][0] == b[2] && b[2..][1] == b[3];
  }

  lemma EncodeNext(o: Opt, rest: seq<Opt>)
    requires Encodable(o) && forall p | p in rest :: Encodable(p)
    ensures Encode([o] + rest) == [o.code, |o.data|] + o.data + Encode(rest)
  {
    assert ([o] + rest)[1..] == rest;
  }

  lemma {:induction false} EncodeTwo(o: Opt, p: Opt)
    requires Encodable(o) && Encodable(p)
    ensures Encode([o, p]) == [o.code, |o.data|] + o.data + ([p.code, |p.data|] + p.data)
  {
    EncodeNext(o, [p]);
    EncodeNext(p, []);
    assert [o] + [p] == [o, p] && [p] + [] == [p] && Encode([]) == [];
    assert [p.code, |p.data|] + p.data + [] == [p.code, |p.data|] + p.data;
  }

  /** A discover: the client's hardware address, broadcast, a fresh id; the type and the list of what is asked for. */
  lemma {:induction false} DiscoverOnTheWire(m: Msg, id: uint32, mac: hardwareAddress)
    requires Built(m, RequestHeader(id, mac), DiscoverOptions())
    ensures FixedPart(m, 1, m.mem[4..8], [128, 0], [0, 0, 0, 0], [0, 0, 0, 0], mac) && InNetworkOrder(m.mem[4..8], id)
    ensures m.mem[240..m.size] == [53, 1, 1] + [55, 8, 1, 3, 6, 28, 51, 58, 59, 26] + [255]
  {
    var opts := DiscoverOptions();
    IdInNetworkOrder(id);
    EncodeTwo(opts[0], opts[1]);
    assert Be16(FLAGS_BROADCAST) == [128, 0];
    DiscoverBytes();
    hide Built, FixedPart, Encode;
    HeaderIsFixedPart(m, RequestHeader(id, mac), opts);
    FixedXid(m, RequestHeader(id, mac));
  }

  lemma FixedXid(m: Msg, h: Header)
    requires FixedPart(m, h.op, h.xid, h.flags, h.yiaddr, h.giaddr, h.chaddr)
    ensures m.mem[4..8] == h.xid
  {
  }

  lemma DiscoverBytes()
    ensures
      var opts := DiscoverOptions();
      |opts| == 2 && opts == [opts[0], opts[1]]
      && [opts[0].code, |opts[0].data|] + opts[0].data + ([opts[1].code, |opts[1].data|] + opts[1].data)
         == [53, 1, 1] + [55, 8, 1, 3, 6, 28, 51, 58, 59, 26]
  {
  }

  /** A request: the same, and behind the list the address and the server asked for. */
  lemma {:induction false} RequestOnTheWire(m: Msg, id: uint32, mac: hardwareAddress, requested: address, server: address)
    requires Built(m, RequestHeader(id, mac), RequestOptions(requested, server))
    ensures FixedPart(m, 1, m.mem[4..8], [128, 0], [0, 0, 0, 0], [0, 0, 0, 0], mac) && InNetworkOrder(m.mem[4..8], id)
    ensures m.mem[240..m.size]
         == [53, 1, 3] + [55, 8, 1, 3, 6, 28, 51, 58, 59, 26] + ([50, 4] + requested) + ([54, 4] + server) + [255]
  {
    var opts := RequestOptions(requested, server);
    IdInNetworkOrder(id);
    assert Be16(FLAGS_BROADCAST) == [128, 0];
    RequestBytes(requested, server);
    hide Built, FixedPart, Encode;
    HeaderIsFixedPart(m, RequestHeader(id, mac), opts);
    FixedXid(m, RequestHeader(id, mac));
  }

  lemma {:induction false} RequestBytes(requested: address, server: address)
    ensures Encode(RequestOptions(requested, server))
         == [53, 1, 3] + [55, 8, 1, 3, 6, 28, 51, 58, 59, 26] + ([50, 4] + requested) + ([54, 4] + server)
  {
    var opts := RequestOptions(requested, server);
    assert opts == [opts[0]] + ([opts[1]] + [opts[2], opts[3]]);
    EncodeNext(opts[0], [opts[1]] + [opts[2], opts[3]]);
    EncodeNext(opts[1], [opts[2], opts[3]]);
    EncodeTwo(opts[2], opts[3]);
    assert [opts[0].code, |opts[0].data|] + opts[0].data == [53, 1, 3];
    assert [opts[1].code, |opts[1].data|] + opts[1].data == [55, 8, 1, 3, 6, 28, 51, 58, 59, 26];
    hide Encode;
  }

  /** An offer or an ack: transaction id, flags, relay and hardware address are those of the message answered. The
      lease time of 600 seconds is stored lowest byte first. */
  lemma {:induction false} LeaseOnTheWire(m: Msg, source: Msg, offered: address, messageType: byte, server: address,
                                          netmask: address, gateway: address, dnsServers: seq<address>)
    requires Built(m, LeaseHeader(source, offered), LeaseOptions(messageType, server, netmask, gateway, dnsServers))
    ensures FixedPart(m, 2, source.mem[4..8], source.mem[10..12], offered, source.mem[24..28], source.mem[28..34])
    ensures
      var n := 4 * |dnsServers| % 256;
      m.mem[240..m.size]
      == [53, 1, messageType] + ([54, 4] + server) + [51, 4, 88, 2, 0, 0] + ([1, 4] + netmask) + ([3, 4] + gateway)
         + ([6, n] + Addresses(dnsServers)[..n]) + [255]
  {
    var opts := LeaseOptions(messageType, server, netmask, gateway, dnsServers);
    LeaseBytes(messageType, server, netmask, gateway, dnsServers);
    hide Built, FixedPart, Encode, Addresses, LeaseOptions;
    HeaderIsFixedPart(m, LeaseHeader(source, offered), opts);
  }

  lemma {:induction false} LeaseBytes(messageType: byte, server: address, netmask: address, gateway: address, dnsServers: seq<address>)
    ensures
      var n := 4 * |dnsServers| % 256;
      Encode(LeaseOptions(messageType, server, netmask, gateway, dnsServers))
      == [53, 1, messageType] + ([54, 4] + server) + [51, 4, 88, 2, 0, 0] + ([1, 4] + netmask) + ([3, 4] + gateway)
         + ([6, n] + Addresses(dnsServers)[..n])
  {
    hide Addresses;
    var n := 4 * |dnsServers| % 256;
    var list := Addresses(dnsServers)[..n];
    LeaseTimeBytes();
    var a, b, c := Opt(53, [messageType]), Opt(54, server), Opt(51, [88, 2, 0, 0]);
    var d, e, f := Opt(1, netmask), Opt(3, gateway), Opt(6, list);
    assert LeaseOptions(messageType, server, netmask, gateway, dnsServers) == [a, b, c, d, e, f];
    hide LeaseOptions, Encode;
    SixEncoded(a, b, c, d, e, f);
    assert [a.code, |a.data|] + a.data == [53, 1, messageType] && [c.code, |c.data|] + c.data == [51, 4, 88, 2, 0, 0];
  }

  lemma {:induction false} SixEncoded(a: Opt, b: Opt, c: Opt, d: Opt, e: Opt, f: Opt)
    requires Encodable(a) && Encodable(b) && Encodable(c) && Encodable(d) && Encodable(e) && Encodable(f)
    ensures Encode([a, b, c, d, e, f])
         == ([a.code, |a.data|] + a.data) + ([b.code, |b.data|] + b.data) + ([c.code, |c.data|] + c.data)
            + ([d.code, |d.data|] + d.data) + ([e.code, |e.data|] + e.data) + ([f.code, |f.data|] + f.data)
  {
    assert [a] + [b, c, d, e, f] == [a, b, c, d, e, f] && [b] + [c, d, e, f] == [b, c, d, e, f];
    assert [c] + [d, e, f] == [c, d, e, f] && [d] + [e, f] == [d, e, f];
    hide Encode;
    EncodeNext(a, [b, c, d, e, f]);
    EncodeNext(b, [c, d, e, f]);
    EncodeNext(c, [d, e, f]);
    EncodeNext(d, [e, f]);
    EncodeTwo(e, f);
    FromTheRight([a.code, |a.data|] + a.data, [b.code, |b.data|] + b.data, [c.code, |c.data|] + c.data,
                 [d.code, |d.data|] + d.data, [e.code, |e.data|] + e.data, [f.code, |f.data|] + f.data);
  }

  lemma FromTheRight(a: bytes, b: bytes, c: bytes, d: bytes, e: bytes, f: bytes)
    ensures a + (b + (c + (d + (e + f)))) == a + b + c + d + e + f
  {
  }

  lemma LeaseTimeBytes()
    ensures Le32(DEFAULT_LEASE_TIME) == [88, 2, 0, 0]
  {
  }

  /** A nak: the same without an address, and the server alone. */
  lemma {:induction false} NackOnTheWire(m: Msg, source: Msg, server: address)
    requires Built(m, LeaseHeader(source, [0, 0, 0, 0]), NackOptions(server))
    ensures FixedPart(m, 2, source.mem[4..8], source.mem[10..12], [0, 0, 0, 0], source.mem[24..28], source.mem[28..34])
    ensures m.mem[240..m.size] == [53, 1, 6] + ([54, 4] + server) + [255]
  {
    var opts := NackOptions(server);
    EncodeTwo(opts[0], opts[1]);
    assert [opts[0].code, |opts[0].data|] + opts[0].data == [53, 1, 6];
    hide Built, FixedPart, Encode;
    HeaderIsFixedPart(m, LeaseHeader(source, [0, 0, 0, 0]), opts);
  }
}
