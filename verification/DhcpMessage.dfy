/** DHCP messages: dhcp_recovery/common/message.cpp and common/include/message.h. The record is laid
    out as the compiler does it: 236 bytes of fixed fields, 1024 bytes of options, four bytes of
    padding, then the size. */
module DhcpMessage {
  import opened Bytes

  const OPTIONS: nat := 236
  const CAPACITY: nat := 1260
  const MEMORY: nat := 1264

  const OP_BOOTREQUEST: byte := 1
  const OP_BOOTREPLY: byte := 2
  const HTYPE_ETHER: byte := 1
  const ETH_ALEN: byte := 6
  const COOKIE: bytes := [0x63, 0x82, 0x53, 0x63]
  const FLAGS_BROADCAST: uint16 := 0x8000

  const OPT_SUBNET_MASK: byte := 1
  const OPT_GATEWAY: byte := 3
  const OPT_DNS: byte := 6
  const OPT_MTU: byte := 26
  const OPT_BROADCAST_ADDR: byte := 28
  const OPT_REQUESTED_IP: byte := 50
  const OPT_LEASE_TIME: byte := 51
  const OPT_MESSAGE_TYPE: byte := 53
  const OPT_SERVER_ID: byte := 54
  const OPT_PARAMETER_LIST: byte := 55
  const OPT_T1: byte := 58
  const OPT_T2: byte := 59
  const OPT_END: byte := 255

  const DHCPDISCOVER: byte := 1
  const DHCPOFFER: byte := 2
  const DHCPREQUEST: byte := 3
  const DHCPACK: byte := 5
  const DHCPNAK: byte := 6

  const REQUEST_PARAMETERS: bytes :=
    [OPT_SUBNET_MASK, OPT_GATEWAY, OPT_DNS, OPT_BROADCAST_ADDR, OPT_LEASE_TIME, OPT_T1, OPT_T2, OPT_MTU]

  /** The default lease time in seconds. */
  const DEFAULT_LEASE_TIME: uint32 := 10 * 60

  type hardwareAddress = b: bytes | |b| == 6 witness [0, 0, 0, 0, 0, 0]

  // ----- Message values

  /** The record in memory; `size` bytes of it are the message. */
  datatype Record = Record(mem: bytes, size: nat)

  type Msg = m: Record | |m.mem| == MEMORY && m.size <= CAPACITY witness Record(seq(MEMORY, _ => 0), 0)

  function OptionsSize(m: Msg): nat {
    if m.size <= OPTIONS then 0 else m.size - OPTIONS
  }

  /** `length` bytes of the option area from `at` on. */
  function OptionBytes(m: Msg, at: nat, length: nat): bytes
    requires OPTIONS + at + length <= MEMORY
  {
    m.mem[OPTIONS + at..OPTIONS + at + length]
  }

  /** Where the data of an option lies in the option area. */
  datatype Place = Place(at: nat, length: byte)

  /** The walk of getOption from `i` on. */
  function FindOption(m: Msg, i: nat, code: byte): (r: Option<Place>)
    ensures r.Some? ==> r.value.at < OptionsSize(m)
    decreases OptionsSize(m) - i
  {
    if i + 2 >= OptionsSize(m) then None
    else if m.mem[OPTIONS + i] == OPT_END then None
    else if m.mem[OPTIONS + i] == code then Some(Place(i + 2, m.mem[OPTIONS + i + 1]))
    else FindOption(m, i + 2 + m.mem[OPTIONS + i + 1], code)
  }

  function TypeOf(m: Msg): byte {
    match FindOption(m, 4, OPT_MESSAGE_TYPE)
    case Some(p) => if p.length == 1 then m.mem[OPTIONS + p.at] else 0
    case None => 0
  }

  /** The address that option `code` carries, or 0.0.0.0. */
  function AddressOption(m: Msg, code: byte): address {
    match FindOption(m, 4, code)
    case Some(p) => if p.length == 4 then OptionBytes(m, p.at, 4) else [0, 0, 0, 0]
    case None => [0, 0, 0, 0]
  }

  function XidOf(m: Msg): bytes {
    m.mem[4..8]
  }

  function YiaddrOf(m: Msg): address {
    m.mem[16..20]
  }

  predicate IsValid(m: Msg, expectedOp: byte) {
    && OPTIONS + 4 <= m.size
    && m.mem[0] == expectedOp && m.mem[1] == HTYPE_ETHER && m.mem[2] == ETH_ALEN
    && OptionBytes(m, 0, 4) == COOKIE
  }

  // ----- Option lists

  datatype Opt = Opt(code: byte, data: bytes)

  /** An option that the format can hold and that does not read as the end. */
  predicate Encodable(o: Opt) {
    o.code != OPT_END && |o.data| < 0x100
  }

  /** RFC 2132 section 2: code, length, data, one option after the other. */
  function Encode(opts: seq<Opt>): bytes
    requires forall o | o in opts :: Encodable(o)
  {
    if opts == [] then [] else EncodeOne(opts[0]) + Encode(opts[1..])
  }

  function EncodeOne(o: Opt): bytes
    requires Encodable(o)
  {
    [o.code, |o.data|] + o.data
  }

  /** From `i` on the option area of the message holds exactly `opts`, closed by End. */
  ghost predicate Laid(m: Msg, i: nat, opts: seq<Opt>)
    decreases |opts|
  {
    if opts == [] then
      i < OptionsSize(m) && m.mem[OPTIONS + i] == OPT_END
    else
      var o := opts[0];
      && Encodable(o) && i + 2 + |o.data| < OptionsSize(m)
      && m.mem[OPTIONS + i] == o.code && m.mem[OPTIONS + i + 1] == |o.data|
      && OptionBytes(m, i + 2, |o.data|) == o.data
      && Laid(m, i + 2 + |o.data|, opts[1..])
  }

  /** The data of the first option with the code. */
  function First(opts: seq<Opt>, code: byte): Option<bytes> {
    if opts == [] then None
    else if opts[0].code == code then Some(opts[0].data)
    else First(opts[1..], code)
  }

  /** What First means, by positions. */
  lemma {:induction false} FirstIsFirst(opts: seq<Opt>, code: byte)
    ensures match First(opts, code)
            case None => forall k | 0 <= k < |opts| :: opts[k].code != code
            case Some(d) => exists k | 0 <= k < |opts| :: opts[k] == Opt(code, d)
                                                       && forall j | 0 <= j < k :: opts[j].code != code
    decreases |opts|
  {
    if opts == [] {
    } else {
      var rest := opts[1..];
      assert forall k | 1 <= k < |opts| :: opts[k] == rest[k - 1];
      if opts[0].code == code {
        assert opts[0] == Opt(code, opts[0].data);
      } else {
        FirstIsFirst(rest, code);
        if First(rest, code).Some? {
          var d := First(rest, code).value;
          var k :| 0 <= k < |rest| && rest[k] == Opt(code, d) && forall j | 0 <= j < k :: rest[j].code != code;
          assert opts[k + 1] == Opt(code, d);
          assert forall j | 0 < j < k + 1 :: opts[j] == rest[j - 1];
        }
      }
    }
  }

  lemma {:induction false} FirstAt(opts: seq<Opt>, k: nat)
    requires k < |opts| && forall j | 0 <= j < k :: opts[j].code != opts[k].code
    ensures First(opts, opts[k].code) == Some(opts[k].data)
    decreases k
  {
    if k == 0 {
    } else {
      assert forall j | 1 <= j < |opts| :: opts[j] == opts[1..][j - 1];
      FirstAt(opts[1..], k - 1);
    }
  }

  /** On a well-formed option area the walk of getOption finds the first option with the code, its
      length and its data, or nothing if there is none. */
  lemma {:induction false} FindsFirst(m: Msg, i: nat, opts: seq<Opt>, code: byte)
    requires Laid(m, i, opts) && code != OPT_END
    ensures match (FindOption(m, i, code), First(opts, code))
            case (None, None) => true
            case (Some(p), Some(d)) => p.length == |d| && OPTIONS + p.at + |d| <= m.size && OptionBytes(m, p.at, |d|) == d
            case _ => false
    decreases |opts|
  {
    if opts == [] || opts[0].code == code {
    } else {
      FindsFirst(m, i + 2 + |opts[0].data|, opts[1..], code);
    }
  }

  /** An option area holds at most one list of options. */
  lemma {:induction false} LaidOnce(m: Msg, i: nat, opts: seq<Opt>, others: seq<Opt>)
    requires Laid(m, i, opts) && Laid(m, i, others)
    ensures opts == others
    decreases |opts|
  {
    if opts == [] || others == [] {
    } else {
      assert opts[0] == others[0];
      LaidOnce(m, i + 2 + |opts[0].data|, opts[1..], others[1..]);
      assert opts == [opts[0]] + opts[1..] && others == [others[0]] + others[1..];
    }
  }

  /** Encoding a list and closing it with End lays it out. */
  lemma {:induction false} EncodingIsLaid(m: Msg, i: nat, opts: seq<Opt>)
    requires forall o | o in opts :: Encodable(o)
    requires i + |Encode(opts)| < OptionsSize(m)
    requires OptionBytes(m, i, |Encode(opts)| + 1) == Encode(opts) + [OPT_END]
    ensures Laid(m, i, opts)
    decreases |opts|
  {
    if opts == [] {
      assert OptionBytes(m, i, 1)[0] == m.mem[OPTIONS + i];
    } else {
      var o, rest := opts[0], opts[1..];
      assert forall x | x in rest :: x in opts;
      assert Encode(opts) + [OPT_END] == EncodeOne(o) + (Encode(rest) + [OPT_END]);
      OptionSlices(m, i, o, Encode(rest) + [OPT_END]);
      EncodingIsLaid(m, i + 2 + |o.data|, rest);
    }
  }

  lemma {:induction false} OptionSlices(m: Msg, i: nat, o: Opt, rest: bytes)
    requires Encodable(o) && OPTIONS + i + 2 + |o.data| + |rest| <= MEMORY
    requires OptionBytes(m, i, 2 + |o.data| + |rest|) == EncodeOne(o) + rest
    ensures m.mem[OPTIONS + i] == o.code && m.mem[OPTIONS + i + 1] == |o.data|
    ensures OptionBytes(m, i + 2, |o.data|) == o.data
    ensures OptionBytes(m, i + 2 + |o.data|, |rest|) == rest
  {
    var area, n := OptionBytes(m, i, 2 + |o.data| + |rest|), 2 + |o.data|;
    assert area[0] == m.mem[OPTIONS + i] && area[1] == m.mem[OPTIONS + i + 1];
    SliceOfSlice(m.mem, OPTIONS + i, n + |rest|, 2, n);
    SliceOfSlice(m.mem, OPTIONS + i, n + |rest|, n, n + |rest|);
    assert area[2..n] == o.data && area[n..] == rest && area[n..n + |rest|] == area[n..];
  }

  lemma {:induction false} SliceOfSlice(b: bytes, base: nat, length: nat, from: nat, to: nat)
    requires from <= to <= length && base + length <= |b|
    ensures b[base..base + length][from..to] == b[base + from..base + to]
  {
    var inner, outer := b[base..base + length][from..to], b[base + from..base + to];
    assert |inner| == |outer| && forall k | 0 <= k < |inner| :: inner[k] == b[base + from + k] == outer[k];
  }

  lemma {:induction false} EncodeAppend(opts: seq<Opt>, o: Opt)
    requires Encodable(o) && forall x | x in opts :: Encodable(x)
    ensures Encode(opts + [o]) == Encode(opts) + EncodeOne(o)
    decreases |opts|
  {
    if opts == [] {
      assert [o][1..] == [];
    } else {
      EncodeAppend(opts[1..], o);
      assert (opts + [o])[1..] == opts[1..] + [o];
    }
  }

  // ----- Messages under construction

  /** The fixed fields that the builders set; the others are zero. */
  datatype Header = Header(op: byte, xid: bytes, flags: bytes, yiaddr: bytes, giaddr: bytes, chaddr: bytes)

  predicate HasHeader(m: Msg, h: Header) {
    && m.mem[..4] == [h.op, HTYPE_ETHER, ETH_ALEN, 0]
    && m.mem[4..8] == h.xid && m.mem[8..10] == [0, 0] && m.mem[10..12] == h.flags
    && m.mem[12..16] == [0, 0, 0, 0] && m.mem[16..20] == h.yiaddr
    && m.mem[20..24] == [0, 0, 0, 0] && m.mem[24..28] == h.giaddr
    && m.mem[28..34] == h.chaddr && m.mem[34..OPTIONS] == Zeros(OPTIONS - 34)
    && m.mem[OPTIONS..OPTIONS + 4] == COOKIE
  }

  ghost predicate AllEncodable(opts: seq<Opt>) {
    forall o | o in opts :: Encodable(o)
  }

  /** The header and the options so far. */
  ghost predicate Holding(m: Msg, h: Header, opts: seq<Opt>) {
    && HasHeader(m, h) && AllEncodable(opts)
    && m.size == OPTIONS + 4 + |Encode(opts)| && m.mem[OPTIONS + 4..m.size] == Encode(opts)
  }

  /** The header, the options and End. */
  ghost predicate Built(m: Msg, h: Header, opts: seq<Opt>) {
    && HasHeader(m, h) && AllEncodable(opts)
    && m.size == OPTIONS + 4 + |Encode(opts)| + 1 && m.mem[OPTIONS + 4..m.size] == Encode(opts) + [OPT_END]
  }

  /** The memory of `m'` continues the message `m` by `more`. */
  predicate Extends(m: Msg, m': Msg, more: bytes) {
    m'.size == m.size + |more| && m'.mem[..m'.size] == m.mem[..m.size] + more
  }

  lemma {:induction false} ExtendedSlices(m: Msg, m': Msg, more: bytes, from: nat, to: nat)
    requires Extends(m, m', more) && from <= to <= m.size
    ensures m'.mem[from..to] == m.mem[from..to]
    ensures m'.mem[from..m'.size] == m.mem[from..m.size] + more
  {
    var all := m.mem[..m.size] + more;
    forall i | 0 <= i < m'.size
      ensures m'.mem[i] == if i < m.size then m.mem[i] else more[i - m.size]
    {
      assert m'.mem[i] == m'.mem[..m'.size][i] == all[i];
    }
  }

  lemma {:induction false} HeaderExtended(m: Msg, m': Msg, more: bytes, h: Header)
    requires Extends(m, m', more) && HasHeader(m, h) && m.size >= OPTIONS + 4
    ensures HasHeader(m', h)
  {
    ExtendedSlices(m, m', more, 0, 4);
    ExtendedSlices(m, m', more, 4, 8);
    ExtendedSlices(m, m', more, 8, 10);
    ExtendedSlices(m, m', more, 10, 12);
    ExtendedSlices(m, m', more, 12, 16);
    ExtendedSlices(m, m', more, 16, 20);
    ExtendedSlices(m, m', more, 20, 24);
    ExtendedSlices(m, m', more, 24, 28);
    ExtendedSlices(m, m', more, 28, 34);
    ExtendedSlices(m, m', more, 34, OPTIONS);
    ExtendedSlices(m, m', more, OPTIONS, OPTIONS + 4);
    assert m.mem[..4] == m.mem[0..4] && m'.mem[..4] == m'.mem[0..4];
  }

  lemma {:induction false} ItemsWritten(m: Msg, m': Msg, o: Opt)
    requires Encodable(o) && m'.size == m.size + 2 + |o.data|
    requires forall i | 0 <= i < m.size :: m'.mem[i] == m.mem[i]
    requires m'.mem[m.size] == o.code && m'.mem[m.size + 1] == |o.data|
    requires forall i | 0 <= i < |o.data| :: m'.mem[m.size + 2 + i] == o.data[i]
    ensures Extends(m, m', EncodeOne(o))
  {
    assert m'.mem[..m.size] == m.mem[..m.size] && m'.mem[m.size + 2..m'.size] == o.data;
    assert m'.mem[..m'.size] == m'.mem[..m.size] + [m'.mem[m.size], m'.mem[m.size + 1]] + m'.mem[m.size + 2..m'.size];
  }

  /** Writing one more option behind the message. */
  lemma {:induction false} HoldsMore(m: Msg, m': Msg, h: Header, opts: seq<Opt>, o: Opt)
    requires Holding(m, h, opts) && Encodable(o) && Extends(m, m', EncodeOne(o))
    ensures Holding(m', h, opts + [o])
  {
    HeaderExtended(m, m', EncodeOne(o), h);
    ExtendedSlices(m, m', EncodeOne(o), OPTIONS + 4, OPTIONS + 4);
    EncodeAppend(opts, o);
  }

  lemma {:induction false} HoldsEnd(m: Msg, m': Msg, h: Header, opts: seq<Opt>)
    requires Holding(m, h, opts) && Extends(m, m', [OPT_END])
    ensures Built(m', h, opts)
  {
    HeaderExtended(m, m', [OPT_END], h);
    ExtendedSlices(m, m', [OPT_END], OPTIONS + 4, OPTIONS + 4);
  }

  /** What a reader makes of a built message: it is valid for its operation, carries its transaction
      id and address, and its option area is well formed and holds the options. */
  lemma {:induction false} BuiltIsWellFormed(m: Msg, h: Header, opts: seq<Opt>)
    requires Built(m, h, opts)
    ensures IsValid(m, h.op) && XidOf(m) == h.xid && YiaddrOf(m) == h.yiaddr
    ensures Laid(m, 4, opts)
  {
    assert m.mem[..4][0] == h.op && m.mem[..4][1] == HTYPE_ETHER && m.mem[..4][2] == ETH_ALEN;
    assert OptionBytes(m, 4, |Encode(opts)| + 1) == m.mem[OPTIONS + 4..m.size];
    EncodingIsLaid(m, 4, opts);
  }

  // ----- The record that the builders fill in place

  /** The static counter of message.cpp. */
  class TransactionIds {
    var next: uint32

    constructor ()
      ensures next == 1
    {
      next := 1;
    }
  }

  class Message {
    const dhcpData: array<byte>
    var mSize: nat

    ghost predicate Valid()
      reads this
    {
      dhcpData.Length == MEMORY && mSize <= CAPACITY
    }

    function Value(): Msg
      requires Valid()
      reads this, dhcpData
    {
      Record(dhcpData[..], mSize)
    }

    constructor Empty()
      ensures Valid() && fresh(dhcpData) && mSize == 0
      ensures forall i | 0 <= i < MEMORY :: dhcpData[i] == 0
    {
      dhcpData := new byte[MEMORY](_ => 0);
      mSize := 0;
    }

    /** A message of `data`; one that does not fit becomes the empty message. */
    constructor FromData(data: bytes)
      ensures Valid() && fresh(dhcpData)
      ensures mSize == if |data| <= CAPACITY then |data| else 0
      ensures dhcpData[..mSize] == data[..mSize]
      ensures |data| > CAPACITY ==> forall i | 0 <= i < MEMORY :: dhcpData[i] == 0
    {
      dhcpData := new byte[MEMORY](_ => 0);
      mSize := 0;
      new;
      if |data| <= CAPACITY {
        Store(0, data);
        mSize := |data|;
        assert dhcpData[..mSize] == data;
      }
    }

    /** A message as the socket filled it. */
    constructor Received(m: Msg)
      ensures Valid() && fresh(dhcpData) && Value() == m
    {
      dhcpData := new byte[MEMORY](i requires 0 <= i < MEMORY => m.mem[i]);
      mSize := m.size;
    }

    /** memcpy to offset `at` of the record. */
    method Store(at: nat, data: bytes)
      requires Valid() && at + |data| <= MEMORY
      modifies dhcpData
      ensures forall i | 0 <= i < MEMORY ::
                dhcpData[i] == if at <= i < at + |data| then data[i - at] else old(dhcpData[i])
    {
      forall i | at <= i < at + |data| {
        dhcpData[i] := data[i - at];
      }
    }

    /** The message every builder starts from. */
    constructor New(ids: TransactionIds, operation: byte, macAddress: hardwareAddress, messageType: byte)
      modifies ids
      ensures Valid() && fresh(dhcpData) && mSize == OPTIONS + 7
      ensures ids.next == (old(ids.next) + 1) % 0x1_0000_0000
      ensures Holding(Value(),
                Header(operation, Be32(old(ids.next)), Be16(FLAGS_BROADCAST), [0, 0, 0, 0], [0, 0, 0, 0], macAddress),
                [Opt(OPT_MESSAGE_TYPE, [messageType])])
    {
      dhcpData := new byte[MEMORY](_ => 0);
      mSize := 0;
      new;
      FillHeader(operation, Be32(ids.next), macAddress);
      ids.next := (ids.next + 1) % 0x1_0000_0000;
      ghost var m := Value();
      Store(OPTIONS + 4, [OPT_MESSAGE_TYPE, 1, messageType]);
      mSize := OPTIONS + 7;
      assert Value().mem[..mSize] == m.mem[..OPTIONS + 4] + EncodeOne(Opt(OPT_MESSAGE_TYPE, [messageType]));
      HoldsMore(m, Value(), Header(operation, Be32(old(ids.next)), Be16(FLAGS_BROADCAST), [0, 0, 0, 0],
                                   [0, 0, 0, 0], macAddress), [], Opt(OPT_MESSAGE_TYPE, [messageType]));
    }

    /** The fixed fields and the cookie of a zeroed record. */
    method FillHeader(operation: byte, xid: bytes, macAddress: hardwareAddress)
      requires Valid() && |xid| == 4
      requires forall i | 0 <= i < MEMORY :: dhcpData[i] == 0
      modifies this`mSize, dhcpData
      ensures Valid()
      ensures Holding(Value(), Header(operation, xid, Be16(FLAGS_BROADCAST), [0, 0, 0, 0], [0, 0, 0, 0], macAddress), [])
    {
      dhcpData[0], dhcpData[1], dhcpData[2] := operation, HTYPE_ETHER, ETH_ALEN;
      Store(4, xid);
      Store(10, Be16(FLAGS_BROADCAST));
      Store(28, macAddress);
      Store(OPTIONS, COOKIE);
      mSize := OPTIONS + 4;
      HeaderFilled(Value(), operation, xid, Be16(FLAGS_BROADCAST), macAddress);
    }

    /** Append an option of the first `size` bytes of `data`. */
    method AddOption(code: byte, data: bytes, size: byte, ghost h: Header, ghost opts: seq<Opt>)
      requires Valid() && size <= |data| && mSize + 2 + size <= CAPACITY
      requires code != OPT_END && Holding(Value(), h, opts)
      modifies this`mSize, dhcpData
      ensures Valid() && mSize == old(mSize) + 2 + size
      ensures Holding(Value(), h, opts + [Opt(code, data[..size])])
    {
      ghost var m, o := Value(), Opt(code, data[..size]);
      dhcpData[mSize] := code;
      dhcpData[mSize + 1] := size;
      Store(mSize + 2, data[..size]);
      mSize := mSize + 2 + size;
      assert Extends(m, Value(), EncodeOne(o));
      HoldsMore(m, Value(), h, opts, o);
    }

    /** The array template: the items are written one by one. */
    method AddItems(code: byte, items: bytes, ghost h: Header, ghost opts: seq<Opt>)
      requires Valid() && |items| < 0x100 && mSize + 2 + |items| <= CAPACITY
      requires code != OPT_END && Holding(Value(), h, opts)
      modifies this`mSize, dhcpData
      ensures Valid() && mSize == old(mSize) + 2 + |items|
      ensures Holding(Value(), h, opts + [Opt(code, items)])
    {
      hide Holding, EncodeOne;
      ghost var m, o := Value(), Opt(code, items);
      var end := mSize;
      dhcpData[end] := code;
      dhcpData[end + 1] := |items|;
      end := end + 2;
      for k := 0 to |items|
        invariant mSize == old(mSize) && end == mSize + 2 + k
        invariant forall i | 0 <= i < mSize :: dhcpData[i] == m.mem[i]
        invariant dhcpData[mSize] == code && dhcpData[mSize + 1] == |items|
        invariant forall i | 0 <= i < k :: dhcpData[mSize + 2 + i] == items[i]
      {
        dhcpData[end] := items[k];
        end := end + 1;
      }
      mSize := end;
      ItemsWritten(m, Value(), o);
      HoldsMore(m, Value(), h, opts, o);
    }

    method EndOptions(ghost h: Header, ghost opts: seq<Opt>)
      requires Valid() && mSize + 1 <= CAPACITY && Holding(Value(), h, opts)
      modifies this`mSize, dhcpData
      ensures Valid() && mSize == old(mSize) + 1 && Built(Value(), h, opts)
    {
      ghost var m := Value();
      dhcpData[mSize] := OPT_END;
      mSize := mSize + 1;
      assert Extends(m, Value(), [OPT_END]);
      HoldsEnd(m, Value(), h, opts);
    }

    /** What a reply takes over from the message it answers. */
    method CopyRequestFields(source: Msg, ghost h: Header, ghost opts: seq<Opt>)
      requires Valid() && mSize >= OPTIONS + 4 && Holding(Value(), h, opts)
      modifies dhcpData
      ensures Valid() && Holding(Value(), ReplyHeader(h, source), opts)
    {
      ghost var m := Value();
      Store(4, source.mem[4..8]);
      Store(10, source.mem[10..12]);
      Store(24, source.mem[24..28]);
      assert dhcpData[OPTIONS + 4..mSize] == m.mem[OPTIONS + 4..mSize];
      ghost var m' := Value();
      assert m'.mem[4..8] == source.mem[4..8] && m'.mem[10..12] == source.mem[10..12];
      assert m'.mem[..4] == m.mem[..4] && m'.mem[8..10] == m.mem[8..10] && m'.mem[12..16] == m.mem[12..16];
      assert m'.mem[20..24] == m.mem[20..24] && m'.mem[28..OPTIONS + 4] == m.mem[28..OPTIONS + 4];
      HeaderStored(m, m', h, ReplyHeader(h, source));
    }

    method SetYiaddr(offered: address, ghost h: Header, ghost opts: seq<Opt>)
      requires Valid() && mSize >= OPTIONS + 4 && Holding(Value(), h, opts)
      modifies dhcpData
      ensures Valid() && Holding(Value(), h.(yiaddr := offered), opts)
    {
      ghost var m := Value();
      Store(16, offered);
      assert dhcpData[OPTIONS + 4..mSize] == m.mem[OPTIONS + 4..mSize];
      HeaderStored(m, Value(), h, h.(yiaddr := offered));
    }

    static method Discover(ids: TransactionIds, sourceMac: hardwareAddress) returns (message: Message)
      modifies ids
      ensures fresh(message) && fresh(message.dhcpData) && message.Valid()
      ensures ids.next == (old(ids.next) + 1) % 0x1_0000_0000
      ensures Built(message.Value(), RequestHeader(old(ids.next), sourceMac), DiscoverOptions())
    {
      ghost var h, opts := RequestHeader(ids.next, sourceMac), [Opt(OPT_MESSAGE_TYPE, [DHCPDISCOVER])];
      message := new Message.New(ids, OP_BOOTREQUEST, sourceMac, DHCPDISCOVER);
      message.AddItems(OPT_PARAMETER_LIST, REQUEST_PARAMETERS, h, opts);
      opts := opts + [Opt(OPT_PARAMETER_LIST, REQUEST_PARAMETERS)];
      assert opts == DiscoverOptions();
      message.EndOptions(h, opts);
    }

    static method Request(ids: TransactionIds, sourceMac: hardwareAddress, requestAddress: address, serverAddress: address)
      returns (message: Message)
      modifies ids
      ensures fresh(message) && fresh(message.dhcpData) && message.Valid()
      ensures ids.next == (old(ids.next) + 1) % 0x1_0000_0000
      ensures Built(message.Value(), RequestHeader(old(ids.next), sourceMac), RequestOptions(requestAddress, serverAddress))
    {
      ghost var h, opts := RequestHeader(ids.next, sourceMac), [Opt(OPT_MESSAGE_TYPE, [DHCPREQUEST])];
      message := new Message.New(ids, OP_BOOTREQUEST, sourceMac, DHCPREQUEST);
      message.AddItems(OPT_PARAMETER_LIST, REQUEST_PARAMETERS, h, opts);
      opts := opts + [Opt(OPT_PARAMETER_LIST, REQUEST_PARAMETERS)];
      message.AddOption(OPT_REQUESTED_IP, requestAddress, 4, h, opts);
      opts := opts + [Opt(OPT_REQUESTED_IP, requestAddress[..4])];
      message.AddOption(OPT_SERVER_ID, serverAddress, 4, h, opts);
      opts := opts + [Opt(OPT_SERVER_ID, serverAddress[..4])];
      assert requestAddress[..4] == requestAddress && serverAddress[..4] == serverAddress;
      assert opts == RequestOptions(requestAddress, serverAddress);
      message.EndOptions(h, opts);
    }

    static method Offer(ids: TransactionIds, source: Msg, serverAddress: address, offered: address,
                        netmask: address, gateway: address, dnsServers: seq<address>)
      returns (message: Message)
      modifies ids
      ensures fresh(message) && fresh(message.dhcpData) && message.Valid()
      ensures ids.next == (old(ids.next) + 1) % 0x1_0000_0000
      ensures Built(message.Value(), LeaseHeader(source, offered),
                    LeaseOptions(DHCPOFFER, serverAddress, netmask, gateway, dnsServers))
    {
      message := LeaseReply(ids, source, DHCPOFFER, serverAddress, offered, netmask, gateway, dnsServers);
    }

    static method Ack(ids: TransactionIds, source: Msg, serverAddress: address, offered: address,
                      netmask: address, gateway: address, dnsServers: seq<address>)
      returns (message: Message)
      modifies ids
      ensures fresh(message) && fresh(message.dhcpData) && message.Valid()
      ensures ids.next == (old(ids.next) + 1) % 0x1_0000_0000
      ensures Built(message.Value(), LeaseHeader(source, offered),
                    LeaseOptions(DHCPACK, serverAddress, netmask, gateway, dnsServers))
    {
      message := LeaseReply(ids, source, DHCPACK, serverAddress, offered, netmask, gateway, dnsServers);
    }

    /** The body that offer and ack share. */
    static method LeaseReply(ids: TransactionIds, source: Msg, messageType: byte, serverAddress: address,
                             offered: address, netmask: address, gateway: address, dnsServers: seq<address>)
      returns (message: Message)
      modifies ids
      ensures fresh(message) && fresh(message.dhcpData) && message.Valid()
      ensures ids.next == (old(ids.next) + 1) % 0x1_0000_0000
      ensures Built(message.Value(), LeaseHeader(source, offered),
                    LeaseOptions(messageType, serverAddress, netmask, gateway, dnsServers))
    {
      message := StartReply(ids, source, messageType);
      ghost var h, opts := LeaseHeader(source, [0, 0, 0, 0]), [Opt(OPT_MESSAGE_TYPE, [messageType])];
      message.SetYiaddr(offered, h, opts);
      h := LeaseHeader(source, offered);
      message.AddFields(serverAddress, netmask, gateway, h, opts);
      opts := opts + LeaseFields(serverAddress, netmask, gateway);
      var size := 4 * |dnsServers| % 0x100;
      message.AddOption(OPT_DNS, Addresses(dnsServers), size, h, opts);
      opts := opts + [Opt(OPT_DNS, Addresses(dnsServers)[..size])];
      message.EndOptions(h, opts);
    }

    /** How every reply begins. */
    static method StartReply(ids: TransactionIds, source: Msg, messageType: byte) returns (message: Message)
      modifies ids
      ensures fresh(message) && fresh(message.dhcpData) && message.Valid() && message.mSize == OPTIONS + 7
      ensures ids.next == (old(ids.next) + 1) % 0x1_0000_0000
      ensures Holding(message.Value(), LeaseHeader(source, [0, 0, 0, 0]), [Opt(OPT_MESSAGE_TYPE, [messageType])])
    {
      var mac: hardwareAddress := source.mem[28..34];
      ghost var h := Header(OP_BOOTREPLY, Be32(ids.next), Be16(FLAGS_BROADCAST), [0, 0, 0, 0], [0, 0, 0, 0], mac);
      message := new Message.New(ids, OP_BOOTREPLY, mac, messageType);
      message.CopyRequestFields(source, h, [Opt(OPT_MESSAGE_TYPE, [messageType])]);
    }

    method AddFields(serverAddress: address, netmask: address, gateway: address, ghost h: Header, ghost opts: seq<Opt>)
      requires Valid() && mSize + 24 <= CAPACITY && Holding(Value(), h, opts)
      modifies this`mSize, dhcpData
      ensures Valid() && mSize == old(mSize) + 24
      ensures Holding(Value(), h, opts + LeaseFields(serverAddress, netmask, gateway))
    {
      hide Holding, Value;
      assert serverAddress[..4] == serverAddress && netmask[..4] == netmask && gateway[..4] == gateway;
      assert Le32(DEFAULT_LEASE_TIME)[..4] == Le32(DEFAULT_LEASE_TIME);
      AddOption(OPT_SERVER_ID, serverAddress, 4, h, opts);
      ghost var o1 := opts + [Opt(OPT_SERVER_ID, serverAddress)];
      AddOption(OPT_LEASE_TIME, Le32(DEFAULT_LEASE_TIME), 4, h, o1);
      ghost var o2 := o1 + [Opt(OPT_LEASE_TIME, Le32(DEFAULT_LEASE_TIME))];
      AddOption(OPT_SUBNET_MASK, netmask, 4, h, o2);
      ghost var o3 := o2 + [Opt(OPT_SUBNET_MASK, netmask)];
      AddOption(OPT_GATEWAY, gateway, 4, h, o3);
      FourAppended(opts, o1[|opts|], o2[|o1|], o3[|o2|], Opt(OPT_GATEWAY, gateway));
    }

    static method Nack(ids: TransactionIds, source: Msg, serverAddress: address) returns (message: Message)
      modifies ids
      ensures fresh(message) && fresh(message.dhcpData) && message.Valid()
      ensures ids.next == (old(ids.next) + 1) % 0x1_0000_0000
      ensures Built(message.Value(), LeaseHeader(source, [0, 0, 0, 0]), NackOptions(serverAddress))
    {
      message := StartReply(ids, source, DHCPNAK);
      ghost var h, opts := LeaseHeader(source, [0, 0, 0, 0]), [Opt(OPT_MESSAGE_TYPE, [DHCPNAK])];
      message.AddOption(OPT_SERVER_ID, serverAddress, 4, h, opts);
      assert serverAddress[..4] == serverAddress;
      opts := opts + [Opt(OPT_SERVER_ID, serverAddress)];
      assert opts == NackOptions(serverAddress);
      message.EndOptions(h, opts);
    }

    // ----- Reading

    method GetOption(code: byte) returns (r: Option<Place>)
      requires Valid()
      ensures r == FindOption(Value(), 4, code)
    {
      var optsSize := if mSize <= OPTIONS then 0 else mSize - OPTIONS;
      var i: nat := 4;
      while i + 2 < optsSize
        invariant FindOption(Value(), i, code) == FindOption(Value(), 4, code)
        decreases optsSize - i
      {
        var optCode, optLen := dhcpData[OPTIONS + i], dhcpData[OPTIONS + i + 1];
        if optCode == OPT_END {
          return None;
        }
        if optCode == code {
          return Some(Place(i + 2, optLen));
        }
        i := i + 2 + optLen;
      }
      return None;
    }

    method Type() returns (t: byte)
      requires Valid()
      ensures t == TypeOf(Value())
    {
      var opt := GetOption(OPT_MESSAGE_TYPE);
      if opt.Some? && opt.value.length == 1 {
        return dhcpData[OPTIONS + opt.value.at];
      }
      return 0;
    }

    method ServerId() returns (a: address)
      requires Valid()
      ensures a == AddressOption(Value(), OPT_SERVER_ID)
    {
      var opt := GetOption(OPT_SERVER_ID);
      if opt.Some? && opt.value.length == 4 {
        return dhcpData[OPTIONS + opt.value.at..OPTIONS + opt.value.at + 4];
      }
      return [0, 0, 0, 0];
    }

    method RequestedIp() returns (a: address)
      requires Valid()
      ensures a == AddressOption(Value(), OPT_REQUESTED_IP)
    {
      var opt := GetOption(OPT_REQUESTED_IP);
      if opt.Some? && opt.value.length == 4 {
        return dhcpData[OPTIONS + opt.value.at..OPTIONS + opt.value.at + 4];
      }
      return [0, 0, 0, 0];
    }

    method IsValidDhcpMessage(expectedOp: byte) returns (ok: bool)
      requires Valid()
      ensures ok == IsValid(Value(), expectedOp)
    {
      if OPTIONS + 4 > mSize {
        return false;
      }
      if dhcpData[0] != expectedOp {
        return false;
      }
      if dhcpData[1] != HTYPE_ETHER {
        return false;
      }
      if dhcpData[2] != ETH_ALEN {
        return false;
      }
      if dhcpData[OPTIONS] != COOKIE[0] || dhcpData[OPTIONS + 1] != COOKIE[1]
         || dhcpData[OPTIONS + 2] != COOKIE[2] || dhcpData[OPTIONS + 3] != COOKIE[3] {
        ghost var cookie := OptionBytes(Value(), 0, 4);
        assert cookie[0] == dhcpData[OPTIONS] && cookie[1] == dhcpData[OPTIONS + 1]
          && cookie[2] == dhcpData[OPTIONS + 2] && cookie[3] == dhcpData[OPTIONS + 3];
        return false;
      }
      return true;
    }
  }

  /** The header of a message that a client sends under the counter value `id`. */
  function RequestHeader(id: uint32, mac: hardwareAddress): Header {
    Header(OP_BOOTREQUEST, Be32(id), Be16(FLAGS_BROADCAST), [0, 0, 0, 0], [0, 0, 0, 0], mac)
  }

  /** The header of a reply that has taken over transaction id, flags and relay address. */
  function ReplyHeader(h: Header, source: Msg): Header {
    h.(xid := source.mem[4..8], flags := source.mem[10..12], giaddr := source.mem[24..28])
  }

  function DiscoverOptions(): seq<Opt> {
    [Opt(OPT_MESSAGE_TYPE, [DHCPDISCOVER]), Opt(OPT_PARAMETER_LIST, REQUEST_PARAMETERS)]
  }

  function RequestOptions(requestAddress: address, serverAddress: address): seq<Opt> {
    [Opt(OPT_MESSAGE_TYPE, [DHCPREQUEST]), Opt(OPT_PARAMETER_LIST, REQUEST_PARAMETERS),
     Opt(OPT_REQUESTED_IP, requestAddress), Opt(OPT_SERVER_ID, serverAddress)]
  }

  /** The header of offers, acks and, with the zero address, nacks. */
  function LeaseHeader(source: Msg, offered: address): Header {
    Header(OP_BOOTREPLY, source.mem[4..8], source.mem[10..12], offered, source.mem[24..28], source.mem[28..34])
  }

  lemma FourAppended(opts: seq<Opt>, a: Opt, b: Opt, c: Opt, d: Opt)
    ensures opts + [a] + [b] + [c] + [d] == opts + [a, b, c, d]
  {
  }

  function LeaseFields(serverAddress: address, netmask: address, gateway: address): seq<Opt> {
    [Opt(OPT_SERVER_ID, serverAddress), Opt(OPT_LEASE_TIME, Le32(DEFAULT_LEASE_TIME)),
     Opt(OPT_SUBNET_MASK, netmask), Opt(OPT_GATEWAY, gateway)]
  }

  /** The options of offers and acks. The length of the server list is a uint8_t: what exceeds a
      multiple of 64 servers is all that is sent of a longer list. The lease time is stored in host
      order. */
  function LeaseOptions(messageType: byte, serverAddress: address, netmask: address, gateway: address,
                        dnsServers: seq<address>): seq<Opt> {
    [Opt(OPT_MESSAGE_TYPE, [messageType])] + LeaseFields(serverAddress, netmask, gateway)
    + [Opt(OPT_DNS, Addresses(dnsServers)[..4 * |dnsServers| % 0x100])]
  }

  function NackOptions(serverAddress: address): seq<Opt> {
    [Opt(OPT_MESSAGE_TYPE, [DHCPNAK]), Opt(OPT_SERVER_ID, serverAddress)]
  }

  function Addresses(list: seq<address>): (b: bytes)
    ensures |b| == 4 * |list|
  {
    if list == [] then [] else list[0] + Addresses(list[1..])
  }

  /** Storing header fields: what lies behind the header is as before. */
  lemma HeaderFilled(m: Msg, op: byte, xid: bytes, flags: bytes, mac: hardwareAddress)
    requires |xid| == 4 && |flags| == 2 && m.size == OPTIONS + 4
    requires forall i | 0 <= i < OPTIONS + 4 ::
               m.mem[i] == if i == 0 then op else if i == 1 then HTYPE_ETHER else if i == 2 then ETH_ALEN
                           else if 4 <= i < 8 then xid[i - 4] else if 10 <= i < 12 then flags[i - 10]
                           else if 28 <= i < 34 then mac[i - 28] else if OPTIONS <= i then COOKIE[i - OPTIONS] else 0
    ensures Holding(m, Header(op, xid, flags, [0, 0, 0, 0], [0, 0, 0, 0], mac), [])
  {
  }

  lemma {:induction false} HeaderStored(m: Msg, m': Msg, h: Header, h': Header)
    requires HasHeader(m, h) && m'.size == m.size >= OPTIONS + 4
    requires h'.op == h.op && h'.chaddr == h.chaddr
    requires m'.mem[4..8] == h'.xid && m'.mem[10..12] == h'.flags && m'.mem[16..20] == h'.yiaddr && m'.mem[24..28] == h'.giaddr
    requires m'.mem[..4] == m.mem[..4] && m'.mem[8..10] == m.mem[8..10] && m'.mem[12..16] == m.mem[12..16]
    requires m'.mem[20..24] == m.mem[20..24] && m'.mem[28..OPTIONS + 4] == m.mem[28..OPTIONS + 4]
    ensures HasHeader(m', h')
  {
    var t, t' := m.mem[28..OPTIONS + 4], m'.mem[28..OPTIONS + 4];
    assert t[..6] == m.mem[28..34] && t[6..OPTIONS - 28] == m.mem[34..OPTIONS] && t[OPTIONS - 28..] == m.mem[OPTIONS..OPTIONS + 4];
    assert t'[..6] == m'.mem[28..34] && t'[6..OPTIONS - 28] == m'.mem[34..OPTIONS] && t'[OPTIONS - 28..] == m'.mem[OPTIONS..OPTIONS + 4];
  }

  // ----- Round trips

  /** Any list of options that was built and closed is read back: getOption finds exactly the data
      and length of the first option with the code, or nothing if there is none. */
  lemma {:induction false} OptionRoundTrip(m: Msg, h: Header, opts: seq<Opt>, code: byte)
    requires Built(m, h, opts) && code != OPT_END
    ensures match (FindOption(m, 4, code), First(opts, code))
            case (None, None) => true
            case (Some(p), Some(d)) => p.length == |d| && OPTIONS + p.at + |d| <= m.size && OptionBytes(m, p.at, |d|) == d
            case _ => false
  {
    BuiltIsWellFormed(m, h, opts);
    FindsFirst(m, 4, opts, code);
  }

  /** The readers of built messages. */
  lemma {:induction false} ReadersOfBuilt(m: Msg, h: Header, opts: seq<Opt>)
    requires Built(m, h, opts)
    ensures TypeOf(m) == match First(opts, OPT_MESSAGE_TYPE) case Some(d) => if |d| == 1 then d[0] else 0 case None => 0
    ensures AddressOption(m, OPT_SERVER_ID)
         == match First(opts, OPT_SERVER_ID) case Some(d) => if |d| == 4 then d else [0, 0, 0, 0] case None => [0, 0, 0, 0]
    ensures AddressOption(m, OPT_REQUESTED_IP)
         == match First(opts, OPT_REQUESTED_IP) case Some(d) => if |d| == 4 then d else [0, 0, 0, 0] case None => [0, 0, 0, 0]
  {
    OptionRoundTrip(m, h, opts, OPT_MESSAGE_TYPE);
    OptionRoundTrip(m, h, opts, OPT_SERVER_ID);
    OptionRoundTrip(m, h, opts, OPT_REQUESTED_IP);
    if First(opts, OPT_MESSAGE_TYPE).Some? && |First(opts, OPT_MESSAGE_TYPE).value| == 1 {
      var p := FindOption(m, 4, OPT_MESSAGE_TYPE).value;
      assert OptionBytes(m, p.at, 1)[0] == m.mem[OPTIONS + p.at];
    }
  }

  /** A server understands what a client requests. */
  lemma {:induction false} RequestIsUnderstood(m: Msg, id: uint32, mac: hardwareAddress, requested: address, server: address)
    requires Built(m, RequestHeader(id, mac), RequestOptions(requested, server))
    ensures IsValid(m, OP_BOOTREQUEST) && XidOf(m) == Be32(id) && TypeOf(m) == DHCPREQUEST
    ensures AddressOption(m, OPT_REQUESTED_IP) == requested && AddressOption(m, OPT_SERVER_ID) == server
  {
    var opts := RequestOptions(requested, server);
    BuiltIsWellFormed(m, RequestHeader(id, mac), opts);
    ReadersOfBuilt(m, RequestHeader(id, mac), opts);
    FirstAt(opts, 0);
    FirstAt(opts, 2);
    FirstAt(opts, 3);
  }

  /** The list of name servers goes out whole exactly when it has at most 63 of them. */
  lemma {:induction false} DnsListIsWhole(dnsServers: seq<address>)
    ensures Addresses(dnsServers)[..4 * |dnsServers| % 0x100] == Addresses(dnsServers) <==> |dnsServers| <= 63
  {
  }
}
