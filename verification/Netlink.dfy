/** The attribute writer of dhcp_recovery/client/netlink.h and the two requests that interface.cpp and
    router.cpp fill with it. A request is one stretch of memory: a header of 16 bytes that begins with
    the length of the message, a fixed part, and 256 bytes for attributes. */
module Netlink {
  import opened Bytes

  const HEADER: nat := 16
  const BUFFER: nat := 256

  const AF_INET: byte := 2
  const RTM_NEWADDR: uint16 := 20
  const RTM_NEWROUTE: uint16 := 24
  const NLM_F_REQUEST: uint16 := 0x1
  const NLM_F_ACK: uint16 := 0x4
  const NLM_F_REPLACE: uint16 := 0x100
  const NLM_F_CREATE: uint16 := 0x400
  const IFA_ADDRESS := 1
  const IFA_LOCAL := 2
  const IFA_BROADCAST := 4
  const RTA_OIF := 4
  const RTA_GATEWAY := 5
  const RT_TABLE_MAIN: byte := 254
  const RTPROT_BOOT: byte := 3
  const RT_SCOPE_UNIVERSE: byte := 0
  const RTN_UNICAST: byte := 1

  /** NLMSG_ALIGN and RTA_ALIGN: up to the next multiple of four. */
  function Align(n: nat): (r: nat)
    ensures r % 4 == 0 && n <= r < n + 4
  {
    (n + 3) / 4 * 4
  }

  // ----- Attribute lists

  datatype Attr = Attr(kind: uint16, value: bytes)

  /** RTA_LENGTH. */
  function Length(a: Attr): nat {
    4 + |a.value|
  }

  /** The sum of the aligned lengths. */
  function Size(attrs: seq<Attr>): (r: nat)
    ensures r % 4 == 0
  {
    if attrs == [] then 0 else Align(Length(attrs[0])) + Size(attrs[1..])
  }

  lemma {:induction false} SizeSnoc(attrs: seq<Attr>, a: Attr)
    ensures Size(attrs + [a]) == Size(attrs) + Align(Length(a))
  {
    if attrs == [] {
      assert attrs + [a] == [a] && [a][1..] == [];
    } else {
      assert (attrs + [a])[1..] == attrs[1..] + [a];
      SizeSnoc(attrs[1..], a);
    }
  }

  /** The attribute lies at `at`: length, type, value. */
  predicate AttrAt(mem: bytes, at: nat, a: Attr) {
    && at + Length(a) <= |mem| && Length(a) < 0x1_0000
    && mem[at..at + 2] == Le16(Length(a))
    && mem[at + 2..at + 4] == Le16(a.kind)
    && mem[at + 4..at + Length(a)] == a.value
  }

  /** The attributes lie one behind the other from `at` on, each at a multiple of four. */
  predicate Holds(mem: bytes, at: nat, attrs: seq<Attr>)
    decreases |attrs|
  {
    attrs == [] || (AttrAt(mem, at, attrs[0]) && Holds(mem, at + Align(Length(attrs[0])), attrs[1..]))
  }

  lemma {:induction false} HoldsSnoc(mem: bytes, at: nat, attrs: seq<Attr>, a: Attr)
    requires Holds(mem, at, attrs) && AttrAt(mem, at + Size(attrs), a)
    ensures Holds(mem, at, attrs + [a])
    decreases |attrs|
  {
    hide AttrAt, Align;
    if attrs == [] {
      assert attrs + [a] == [a] && [a][1..] == [];
    } else {
      assert (attrs + [a])[1..] == attrs[1..] + [a];
      HoldsSnoc(mem, at + Align(Length(attrs[0])), attrs[1..], a);
    }
  }

  /** The two memories agree from `low` to `high`. */
  predicate Same(mem: bytes, mem': bytes, low: nat, high: nat) {
    |mem| == |mem'| && high <= |mem| && forall k | low <= k < high :: mem'[k] == mem[k]
  }

  lemma SameBehind(mem: bytes, written: bytes, mem': bytes, low: nat, high: nat)
    requires Same(mem, written, 0, low) && Same(mem, written, high, |mem|) && Same(written, mem', 4, |mem|)
    requires 4 <= low <= high
    ensures Same(mem, mem', 4, low) && Same(mem, mem', high, |mem|)
  {
  }

  /** What lies before `end` stays where it is when only bytes outside `at..end` change. */
  lemma {:induction false} HoldsKept(mem: bytes, mem': bytes, at: nat, attrs: seq<Attr>, end: nat)
    requires at + Size(attrs) <= end && Same(mem, mem', at, end) && Holds(mem, at, attrs)
    ensures Holds(mem', at, attrs)
    decreases |attrs|
  {
    if attrs == [] {
    } else {
      var next := at + Align(Length(attrs[0]));
      HoldsKept(mem, mem', next, attrs[1..], end);
    }
  }

  /** Putting an attribute behind the others and then changing only what lies before them. */
  lemma {:induction false} Appended(mem: bytes, written: bytes, mem': bytes, at: nat, attrs: seq<Attr>, a: Attr, end: nat)
    requires end == at + Size(attrs) && end + Align(Length(a)) <= |mem| && 4 <= at
    requires Holds(mem, at, attrs) && AttrAt(written, end, a)
    requires Same(mem, written, 0, end) && Same(written, mem', 4, |mem|)
    ensures Holds(mem', at, attrs + [a]) && Size(attrs + [a]) == Size(attrs) + Align(Length(a))
  {
    hide Holds, AttrAt, Size;
    HoldsKept(mem, written, at, attrs, end);
    HoldsSnoc(written, at, attrs, a);
    SizeSnoc(attrs, a);
    HoldsKept(written, mem', at, attrs + [a], |mem|);
  }

  // ----- The reader

  /** How a receiver walks the attributes between `at` and `end`: by the aligned length that each
      carries, for as long as one is whole. */
  function Read(mem: bytes, at: nat, end: nat): (attrs: seq<Attr>)
    requires end <= |mem|
    decreases end - at
  {
    if at + 4 > end then []
    else
      var length := FromLe16(mem[at..at + 2]);
      if length < 4 || at + length > end then []
      else [Attr(FromLe16(mem[at + 2..at + 4]), mem[at + 4..at + length])] + Read(mem, at + Align(length), end)
  }

  /** Walking a written list by its aligned lengths gives back exactly that list. */
  lemma {:induction false} ReadRecovers(mem: bytes, at: nat, attrs: seq<Attr>)
    requires at + Size(attrs) <= |mem| && Holds(mem, at, attrs)
    ensures Read(mem, at, at + Size(attrs)) == attrs
    decreases |attrs|
  {
    if attrs == [] {
    } else {
      ReadRecovers(mem, at + Align(Length(attrs[0])), attrs[1..]);
      assert attrs == [attrs[0]] + attrs[1..];
    }
  }

  // ----- The writer

  lemma {:induction false} HeaderKept(mem: bytes, mem': bytes, length: uint32, kind: uint16, flags: uint16)
    requires |mem| == |mem'| >= HEADER && mem'[..8] == mem[..8]
    requires mem[..4] == Le32(length) && mem[4..6] == Le16(kind) && mem[6..8] == Le16(flags)
    ensures FromLe32(mem'[..4]) == length && mem'[4..6] == Le16(kind) && mem'[6..8] == Le16(flags)
  {
    Le32RoundTrip(length);
    assert mem'[..4] == mem'[..8][..4] && mem'[4..6] == mem'[..8][4..6] && mem'[6..8] == mem'[..8][6..8];
    assert mem[..4] == mem[..8][..4] && mem[4..6] == mem[..8][4..6] && mem[6..8] == mem[..8][6..8];
    hide Le32, FromLe32, Le16;
  }

  class Request {
    /** The whole request in memory. */
    const data: array<byte>
    /** The offset of the attribute buffer. */
    const base: nat
    /** The attributes written so far. */
    ghost var attrs: seq<Attr>

    ghost predicate Valid()
      reads this, data
    {
      && HEADER <= base && base % 4 == 0 && data.Length == base + BUFFER < 0x1_0000
      && MessageLength() == base + Size(attrs) <= data.Length
      && Holds(data[..], base, attrs)
    }

    /** hdr.nlmsg_len. */
    function MessageLength(): uint32
      requires 4 <= data.Length
      reads data
    {
      FromLe32(data[..4])
    }

    /** The request zeroed, with the length of its fixed part, its type and its flags. */
    constructor (fixed: bytes, kind: uint16, flags: uint16)
      requires |fixed| % 4 == 0 && |fixed| < 0x1000
      ensures Valid() && fresh(data) && base == HEADER + |fixed| && attrs == []
      ensures data[4..6] == Le16(kind) && data[6..8] == Le16(flags) && data[HEADER..base] == fixed
      ensures forall i | 8 <= i < HEADER || base <= i < data.Length :: data[i] == 0
    {
      base := HEADER + |fixed|;
      data := new byte[HEADER + |fixed| + BUFFER](_ => 0);
      attrs := [];
      new;
      FillHeader(base, kind, flags);
      ghost var mem := data[..];
      Store(HEADER, fixed);
      assert data[..8] == mem[..8] && data[HEADER..base] == fixed;
      HeaderKept(mem, data[..], base, kind, flags);
    }

    /** The length of the message, its type and its flags. */
    method FillHeader(length: uint32, kind: uint16, flags: uint16)
      requires data.Length >= HEADER && forall i | 0 <= i < data.Length :: data[i] == 0
      modifies data
      ensures data[..4] == Le32(length) && data[4..6] == Le16(kind) && data[6..8] == Le16(flags)
      ensures forall i | 8 <= i < data.Length :: data[i] == 0
    {
      Store(0, Le32(length));
      Store(4, Le16(kind));
      Store(6, Le16(flags));
    }

    /** memcpy into the request. */
    method Store(at: nat, b: bytes)
      requires at + |b| <= data.Length
      modifies data
      ensures forall i | 0 <= i < data.Length :: data[i] == if at <= i < at + |b| then b[i - at] else old(data[i])
    {
      forall i | at <= i < at + |b| {
        data[i] := b[i - at];
      }
    }

    /** The attribute itself. */
    method StoreAttribute(at: nat, kind: uint16, value: bytes)
      requires 4 <= at && at + Length(Attr(kind, value)) <= data.Length < 0x1_0000
      modifies data
      ensures AttrAt(data[..], at, Attr(kind, value)) && data[at..at + 2] == Le16(4 + |value|)
      ensures Same(old(data[..]), data[..], 0, at) && Same(old(data[..]), data[..], at + 4 + |value|, data.Length)
      ensures MessageLength() == old(MessageLength())
    {
      ghost var mem := data[..];
      Store(at + 2, Le16(kind));
      Store(at, Le16(4 + |value|));
      Store(at + 4, value);
      assert data[..4] == mem[..4];
    }

    method StoreLength(length: uint32)
      requires 4 <= data.Length
      modifies data
      ensures MessageLength() == length && Same(old(data[..]), data[..], 4, data.Length)
    {
      Store(0, Le32(length));
      assert data[..4] == Le32(length);
      Le32RoundTrip(length);
    }

    /** addRouterAttribute. Of the type 16 bits are kept. Nothing but the length of the message and the
        place of the new attribute is written. */
    method AddRouterAttribute(kind: int, value: bytes)
      requires Valid() && MessageLength() as int + Align(4 + |value|) <= data.Length
      modifies this`attrs, data
      ensures Valid() && attrs == old(attrs) + [Attr(kind % 0x1_0000, value)]
      ensures MessageLength() == old(MessageLength()) as int + Align(4 + |value|)
      ensures Same(old(data[..]), data[..], 4, old(MessageLength()))
      ensures Same(old(data[..]), data[..], old(MessageLength()) as int + 4 + |value|, data.Length)
    {
      hide Holds, Size, AttrAt, Same, MessageLength, Le16, FromLe16, Align, Le32, FromLe32;
      ghost var a, mem := Attr(kind % 0x1_0000, value), data[..];
      var offset := Align(MessageLength()) - base;
      var at := base + offset;
      StoreAttribute(at, kind % 0x1_0000, value);
      ghost var written := data[..];
      StoreLength(Align(MessageLength()) + Align(FromLe16(data[at..at + 2])));
      Appended(mem, written, data[..], base, attrs, a, at);
      SameBehind(mem, written, data[..], at, at + 4 + |value|);
      attrs := attrs + [a];
    }

    /** What a receiver reads out of the request. */
    lemma {:induction false} ReadBack()
      requires Valid()
      ensures Read(data[..], base, MessageLength()) == attrs && MessageLength() % 4 == 0
    {
      hide Holds, Size, Read;
      ReadRecovers(data[..], base, attrs);
    }
  }

  // ----- The two requests

  /** A byte of `address | ~netmask`. */
  function OrNot(a: byte, m: byte): byte {
    ((a as bv8) | !(m as bv8)) as int
  }

  /** broadcastFromNetmask. */
  function BroadcastOf(local: address, netmask: address): address {
    [OrNot(local[0], netmask[0]), OrNot(local[1], netmask[1]), OrNot(local[2], netmask[2]), OrNot(local[3], netmask[3])]
  }

  /** The one bits of a byte. */
  function OneBits(b: nat): (n: nat)
    requires b < 0x100
  {
    if b == 0 then 0 else b % 2 + OneBits(b / 2)
  }

  /** The one bits of the mask. */
  function PrefixLength(netmask: address): nat {
    OneBits(netmask[0]) + OneBits(netmask[1]) + OneBits(netmask[2]) + OneBits(netmask[3])
  }

  lemma {:induction false} OneBitsBound(b: nat, width: nat)
    requires b < 0x100 && b < Power(width)
    ensures OneBits(b) <= width
    decreases width
  {
    if width == 0 {
    } else {
      OneBitsBound(b / 2, width - 1);
    }
  }

  function Power(width: nat): (p: nat)
    ensures p > 0
  {
    if width == 0 then 1 else 2 * Power(width - 1)
  }

  lemma {:induction false} PrefixLengthBound(netmask: address)
    ensures PrefixLength(netmask) <= 32
  {
    assert Power(4) == 16 && Power(8) == 0x100;
    OneBitsBound(netmask[0], 8);
    OneBitsBound(netmask[1], 8);
    OneBitsBound(netmask[2], 8);
    OneBitsBound(netmask[3], 8);
  }

  /** The first `n` bits of a byte. */
  function Leading(n: int): byte {
    if n <= 0 then 0 else if n == 1 then 0x80 else if n == 2 then 0xC0 else if n == 3 then 0xE0 else if n == 4 then 0xF0
    else if n == 5 then 0xF8 else if n == 6 then 0xFC else if n == 7 then 0xFE else 0xFF
  }

  /** The netmask of a network of `n` bits. */
  function MaskOf(n: nat): address {
    [Leading(n), Leading(n - 8), Leading(n - 16), Leading(n - 24)]
  }

  /** `n` ones, and then zeros behind them. */
  lemma {:induction false} Ones(n: nat)
    requires Power(n) <= 0x100
    ensures OneBits(Power(n) - 1) == n
    decreases n
  {
    if n == 0 {
    } else {
      Ones(n - 1);
      assert (Power(n) - 1) / 2 == Power(n - 1) - 1 && (Power(n) - 1) % 2 == 1;
    }
  }

  lemma Doubled(b: nat)
    requires 2 * b < 0x100
    ensures OneBits(2 * b) == OneBits(b)
  {
  }

  lemma {:induction false} Shifted(b: nat, shifted: nat, k: nat)
    requires shifted < 0x100 && shifted == b * Power(k)
    ensures b < 0x100 && OneBits(shifted) == OneBits(b)
    decreases k
  {
    if k == 0 {
    } else {
      assert shifted == 2 * (b * Power(k - 1));
      Doubled(b * Power(k - 1));
      Shifted(b, b * Power(k - 1), k - 1);
    }
  }

  lemma {:induction false} LeadingBits(n: int)
    ensures OneBits(Leading(n)) == if n <= 0 then 0 else if n >= 8 then 8 else n
  {
    Powers();
    hide Power, OneBits;
    if n <= 0 {
      Ones(0);
    } else if n < 8 {
      Ones(n);
      Shifted(Power(n) - 1, Leading(n), 8 - n);
    } else {
      Ones(8);
    }
  }

  lemma {:induction false} Powers()
    ensures Power(0) == 1 && Power(1) == 2 && Power(2) == 4 && Power(3) == 8 && Power(4) == 16
    ensures Power(5) == 32 && Power(6) == 64 && Power(7) == 128 && Power(8) == 0x100
  {
    assert Power(3) == 8 && Power(6) == 64;
  }

  /** Counting the ones of a netmask gives the length of its network prefix. */
  lemma {:induction false} PrefixLengthOfMask(n: nat)
    requires n <= 32
    ensures PrefixLength(MaskOf(n)) == n
  {
    LeadingBits(n);
    LeadingBits(n - 8);
    LeadingBits(n - 16);
    LeadingBits(n - 24);
  }

  /** The broadcast address has the network bits of the address and ones for the others. */
  lemma {:induction false} BroadcastIsInNetwork(local: address, netmask: address, i: nat)
    requires i < 4
    ensures
      var b, a, m := BroadcastOf(local, netmask)[i] as bv8, local[i] as bv8, netmask[i] as bv8;
      b & m == a & m && b | m == 0xFF
  {
    OrNotByte(local[i], netmask[i]);
  }

  lemma {:induction false} OrNotByte(a: byte, m: byte)
    ensures OrNot(a, m) as bv8 == (a as bv8) | !(m as bv8)
    ensures (OrNot(a, m) as bv8) & (m as bv8) == (a as bv8) & (m as bv8) && (OrNot(a, m) as bv8) | (m as bv8) == 0xFF
  {
    ByteAgain((a as bv8) | !(m as bv8));
    Complement(a as bv8, m as bv8);
  }

  lemma ByteAgain(b: bv8)
    ensures (b as int) as bv8 == b
  {
  }

  lemma Complement(a: bv8, m: bv8)
    ensures (a | !m) & m == a & m && (a | !m) | m == 0xFF
  {
  }

  /** An attribute of four bytes as it lies in memory: eight bytes long, its type, its value. */
  lemma {:induction false} FourByteAttr(mem: bytes, at: nat, kind: byte, value: address, rest: seq<Attr>)
    requires Holds(mem, at, [Attr(kind, value)] + rest)
    ensures at + 8 <= |mem| && mem[at..at + 8] == [8, 0, kind, 0] + value && Holds(mem, at + 8, rest)
  {
    var attrs := [Attr(kind, value)] + rest;
    assert attrs[1..] == rest && AttrAt(mem, at, attrs[0]) && Align(8) == 8;
    assert mem[at..at + 8] == mem[at..at + 2] + mem[at + 2..at + 4] + mem[at + 4..at + 8];
    hide Holds;
  }

  /** The request of Interface::setAddress: an ifaddrmsg with the length of the network prefix, the address
      twice and the broadcast address. It takes 48 of the 280 bytes, and a receiver reads the three back. */
  method AddressRequest(interface: uint32, local: address, netmask: address) returns (request: Request)
    ensures fresh(request) && request.Valid() && request.MessageLength() == 48 < request.data.Length == 280
    ensures request.data[4..8] == Le16(RTM_NEWADDR) + Le16(NLM_F_REQUEST + NLM_F_ACK + NLM_F_CREATE + NLM_F_REPLACE)
    ensures PrefixLength(netmask) <= 32 && request.data[16..24] == [AF_INET, PrefixLength(netmask), 0, 0] + Le32(interface)
    ensures Read(request.data[..], 24, 48)
         == [Attr(IFA_ADDRESS, local), Attr(IFA_LOCAL, local), Attr(IFA_BROADCAST, BroadcastOf(local, netmask))]
    ensures request.data[4..16] == [20, 0, 5, 5, 0, 0, 0, 0, 0, 0, 0, 0]
    ensures request.data[16..24] == [2, PrefixLength(netmask), 0, 0] + Le32(interface)
    ensures request.data[24..32] == [8, 0, 1, 0] + local && request.data[32..40] == [8, 0, 2, 0] + local
    ensures request.data[40..48] == [8, 0, 4, 0] + BroadcastOf(local, netmask)
  {
    hide Read, Holds, OneBits, OrNot, BroadcastOf, PrefixLength, AttrAt, FromLe32;
    PrefixLengthBound(netmask);
    request := new Request([AF_INET, PrefixLength(netmask), 0, 0] + Le32(interface), RTM_NEWADDR,
                           NLM_F_REQUEST + NLM_F_ACK + NLM_F_CREATE + NLM_F_REPLACE);
    request.AddRouterAttribute(IFA_ADDRESS, local);
    request.AddRouterAttribute(IFA_LOCAL, local);
    ghost var broadcast := BroadcastOf(local, netmask);
    request.AddRouterAttribute(IFA_BROADCAST, BroadcastOf(local, netmask));
    request.ReadBack();
    assert request.attrs == [Attr(1, local), Attr(2, local), Attr(4, broadcast)];
    ThreeAttrs(request.data[..], local, broadcast);
  }

  lemma {:induction false} ThreeAttrs(mem: bytes, local: address, broadcast: address)
    requires Holds(mem, 24, [Attr(1, local), Attr(2, local), Attr(4, broadcast)])
    ensures |mem| >= 48 && mem[24..32] == [8, 0, 1, 0] + local && mem[32..40] == [8, 0, 2, 0] + local
    ensures mem[40..48] == [8, 0, 4, 0] + broadcast
  {
    assert [Attr(1, local), Attr(2, local), Attr(4, broadcast)] == [Attr(1, local)] + [Attr(2, local), Attr(4, broadcast)];
    assert [Attr(2, local), Attr(4, broadcast)] == [Attr(2, local)] + [Attr(4, broadcast)];
    assert [Attr(4, broadcast)] == [Attr(4, broadcast)] + [];
    hide Holds;
    FourByteAttr(mem, 24, 1, local, [Attr(2, local), Attr(4, broadcast)]);
    FourByteAttr(mem, 32, 2, local, [Attr(4, broadcast)]);
    FourByteAttr(mem, 40, 4, broadcast, []);
  }

  /** The request of Router::setDefaultGateway: an rtmsg, the gateway and the interface. It takes 44 of
      the 284 bytes, and a receiver reads both back. */
  method RouteRequest(gateway: address, interface: uint32) returns (request: Request)
    ensures fresh(request) && request.Valid() && request.MessageLength() == 44 < request.data.Length == 284
    ensures request.data[4..8] == Le16(RTM_NEWROUTE) + Le16(NLM_F_REQUEST + NLM_F_CREATE)
    ensures request.data[16..28]
         == [AF_INET, 0, 0, 0, RT_TABLE_MAIN, RTPROT_BOOT, RT_SCOPE_UNIVERSE, RTN_UNICAST, 0, 0, 0, 0]
    ensures Read(request.data[..], 28, 44) == [Attr(RTA_GATEWAY, gateway), Attr(RTA_OIF, Le32(interface))]
    ensures request.data[4..16] == [24, 0, 1, 4, 0, 0, 0, 0, 0, 0, 0, 0]
    ensures request.data[16..28] == [2, 0, 0, 0, 254, 3, 0, 1, 0, 0, 0, 0]
    ensures request.data[28..36] == [8, 0, 5, 0] + gateway && request.data[36..44] == [8, 0, 4, 0] + Le32(interface)
  {
    hide Read, Holds;
    request := new Request([AF_INET, 0, 0, 0, RT_TABLE_MAIN, RTPROT_BOOT, RT_SCOPE_UNIVERSE, RTN_UNICAST, 0, 0, 0, 0],
                           RTM_NEWROUTE, NLM_F_REQUEST + NLM_F_CREATE);
    request.AddRouterAttribute(RTA_GATEWAY, gateway);
    request.AddRouterAttribute(RTA_OIF, Le32(interface));
    request.ReadBack();
    assert request.attrs == [Attr(5, gateway)] + ([Attr(4, Le32(interface))] + []);
    FourByteAttr(request.data[..], 28, 5, gateway, [Attr(4, Le32(interface))] + []);
    FourByteAttr(request.data[..], 36, 4, Le32(interface), []);
  }
}
