/** The Internet checksum of dhcp_recovery/common/socket.cpp, and what RFC 1071, RFC 768 and
    RFC 791 ask of it. */
module Checksum {
  import opened Bytes

  // ----- Reference: one's complement arithmetic as RFC 1071 defines it

  /** One's complement addition of 16-bit words: the carry is added back in at the other end. */
  function OnesAdd(x: uint16, y: uint16): uint16 {
    if x + y > 0xFFFF then x + y - 0xFFFF else x + y
  }

  /** The one's complement sum of the big-endian words of `b`, an odd last byte padded with zero. */
  function OnesSum(b: bytes): uint16
    decreases |b|
  {
    if |b| == 0 then 0
    else if |b| == 1 then 0x100 * b[0] as int
    else OnesAdd(0x100 * b[0] as int + b[1] as int, OnesSum(b[2..]))
  }

  /** The same sixteen bits with the two bytes exchanged. */
  function Swap(n: uint16): uint16 {
    FromBe16(Le16(n))
  }

  // ----- What the code computes

  /** The integer sum of the words of `b` as a little-endian host reads them. */
  function WordSum(b: bytes): nat
    decreases |b|
  {
    if |b| == 0 then 0
    else if |b| == 1 then b[0]
    else b[0] as int + 0x100 * b[1] as int + WordSum(b[2..])
  }

  /** The canonical residue modulo 0xFFFF: zero only for zero, otherwise in 1..0xFFFF. */
  function Residue(n: nat): (r: uint16)
    ensures r == 0 <==> n == 0
  {
    if n <= 0xFFFF then n else Residue(n - 0xFFFF)
  }

  /** The running checksum after adding `b` to `c` in 32-bit arithmetic. */
  function Added(b: bytes, c: uint32): uint16 {
    Residue((c + WordSum(b)) % 0x1_0000_0000)
  }

  /** The 32-bit accumulator can take `b` on top of `c`. */
  predicate Fits(b: bytes, c: uint32) {
    c + WordSum(b) < 0x1_0000_0000
  }

  method AddChecksum(buffer: bytes, initial: uint32) returns (checksum: uint32)
    ensures checksum == Added(buffer, initial)
  {
    checksum := initial;
    var data, size := 0, |buffer|;
    while size > 1
      invariant 0 <= size && data + size == |buffer|
      invariant (checksum + WordSum(buffer[data..])) % 0x1_0000_0000
             == (initial + WordSum(buffer)) % 0x1_0000_0000
    {
      var word: uint16 := buffer[data] as int + 0x100 * buffer[data + 1] as int;
      assert buffer[data..][2..] == buffer[data + 2..];
      WrapAround(checksum, word, WordSum(buffer[data + 2..]));
      checksum := (checksum + word) % 0x1_0000_0000;
      data, size := data + 2, size - 2;
    }
    if size > 0 {
      assert buffer[data..] == [buffer[data]];
      checksum := (checksum + buffer[data]) % 0x1_0000_0000;
    }
    assert checksum == (initial + WordSum(buffer)) % 0x1_0000_0000;
    ghost var total := checksum;
    var msw := checksum / 0x1_0000;
    while msw != 0
      invariant msw == checksum / 0x1_0000
      invariant 0 <= checksum < 0x1_0000_0000 && Residue(checksum) == Residue(total)
      decreases checksum
    {
      FoldKeepsResidue(checksum);
      checksum := checksum % 0x1_0000 + msw;
      msw := checksum / 0x1_0000;
    }
  }

  /** `~checksum & 0xFFFF`. */
  function FinishChecksum(checksum: uint32): uint16 {
    0xFFFF - checksum % 0x1_0000
  }

  lemma WrapAround(sum: nat, word: nat, rest: nat)
    ensures ((sum + word) % 0x1_0000_0000 + rest) % 0x1_0000_0000 == (sum + (word + rest)) % 0x1_0000_0000
  {
  }

  // ----- Residues

  lemma {:induction false} FoldKeepsResidue(n: nat)
    ensures Residue(n % 0x1_0000 + n / 0x1_0000) == Residue(n)
  {
    var high, low := n / 0x1_0000, n % 0x1_0000;
    assert n == low + high + 0xFFFF * high;
    if high + low > 0 {
      ResidueShift(low + high, high, n);
    }
  }

  lemma {:induction false} ResidueShift(n: nat, k: nat, m: nat)
    requires n > 0 && m == n + 0xFFFF * k
    ensures Residue(m) == Residue(n)
    decreases k
  {
    if k == 0 {
    } else {
      ResidueShift(n, k - 1, m - 0xFFFF);
    }
  }

  /** How far a number is above its residue. */
  lemma {:induction false} ResidueGap(n: nat) returns (k: nat)
    ensures n == Residue(n) + 0xFFFF * k
  {
    if n <= 0xFFFF {
      k := 0;
    } else {
      k := ResidueGap(n - 0xFFFF);
      k := k + 1;
    }
  }

  lemma {:induction false} ResidueOfSum(m: nat, n: nat)
    ensures Residue(Residue(m) + n) == Residue(m + n)
  {
    if m > 0 {
      var k := ResidueGap(m);
      ResidueShift(Residue(m) + n, k, m + n);
    }
  }

  lemma {:induction false} OnesAddIsResidue(x: uint16, y: nat)
    ensures OnesAdd(x, Residue(y)) == Residue(x + y)
  {
    ResidueOfSum(y, x);
  }

  /** Exchanging the bytes of a word is multiplying it by 0x100, modulo 0xFFFF. */
  lemma {:induction false} SwapIsShift(r: uint16)
    ensures Swap(r) == Residue(0x100 * r as nat)
  {
    if r > 0 {
      ResidueShift(Swap(r), r / 0x100, 0x100 * r as nat);
    }
  }

  lemma {:induction false} ShiftOfResidue(n: nat)
    ensures Residue(0x100 * Residue(n) as nat) == Residue(0x100 * n)
  {
    if n > 0 {
      var r: nat := Residue(n);
      var k := ResidueGap(n);
      ResidueShift(0x100 * r, 0x100 * k, 0x100 * n);
    }
  }

  // ----- Sums of byte strings

  lemma {:induction false} WordSumConcat(a: bytes, b: bytes)
    requires |a| % 2 == 0
    ensures WordSum(a + b) == WordSum(a) + WordSum(b)
    decreases |a|
  {
    if |a| == 0 {
      assert a + b == b;
    } else {
      assert (a + b)[2..] == a[2..] + b;
      WordSumConcat(a[2..], b);
    }
  }

  lemma {:induction false} WordSumBound(b: bytes)
    ensures WordSum(b) <= 0xFFFF * ((|b| + 1) / 2)
    ensures WordSum(b) == 0 <==> forall i | 0 <= i < |b| :: b[i] == 0
    decreases |b|
  {
    if |b| <= 1 {
    } else {
      WordSumBound(b[2..]);
      assert forall i | 2 <= i < |b| :: b[i] == b[2..][i - 2];
    }
  }

  /** RFC 1071 section 2(B): the little-endian integer sum, folded, is the one's complement sum
      of the big-endian words with its bytes exchanged, odd sizes included. */
  lemma {:induction false} ByteOrderIndependence(b: bytes)
    ensures Swap(Residue(WordSum(b))) == OnesSum(b)
  {
    SwapIsShift(Residue(WordSum(b)));
    ShiftOfResidue(WordSum(b));
    OnesSumIsShiftedSum(b);
  }

  lemma {:induction false} OnesSumIsShiftedSum(b: bytes)
    ensures OnesSum(b) == Residue(0x100 * WordSum(b))
    decreases |b|
  {
    if |b| <= 1 {
    } else {
      OnesSumIsShiftedSum(b[2..]);
      WordStep(b[0], b[1], WordSum(b[2..]));
    }
  }

  lemma {:induction false} WordStep(low: byte, high: byte, rest: nat)
    ensures OnesAdd(0x100 * low as int + high as int, Residue(0x100 * rest))
         == Residue(0x100 * (low as int + 0x100 * high as int + rest))
  {
    var big := 0x100 * low as int + high as int;
    OnesAddIsResidue(big, 0x100 * rest);
    if big + 0x100 * rest > 0 {
      ResidueShift(big + 0x100 * rest, high, 0x100 * (low as int + 0x100 * high as int + rest));
    }
  }

  // ----- Properties of AddChecksum

  /** The 32-bit accumulator holds the sums of up to `words` words on top of any folded checksum
      exactly when `words` is at most 0x10000. */
  lemma {:induction false} OverflowBound(words: nat)
    ensures (forall b: bytes, c: uint16 {:trigger Fits(b, c)} | |b| <= 2 * words :: Fits(b, c))
       <==> words <= 0x1_0000
  {
    if words <= 0x1_0000 {
      forall b: bytes, c: uint16 {:trigger Fits(b, c)} | |b| <= 2 * words
        ensures Fits(b, c)
      {
        WordSumBound(b);
      }
    } else {
      AllOnesSum(0x1_0001);
      var full: bytes, top: uint16 := seq(2 * 0x1_0001, _ => 0xFF), 0xFFFF;
      assert |full| <= 2 * words && !Fits(full, top);
    }
  }

  lemma {:induction false} AddedFits(b: bytes, c: uint16)
    requires |b| <= 0x2_0000
    ensures Fits(b, c) && Added(b, c) == Residue(c + WordSum(b))
  {
    WordSumBound(b);
  }

  lemma {:induction false} AllOnesSum(words: nat)
    ensures WordSum(seq(2 * words, _ => 0xFF)) == 0xFFFF * words
  {
    if words == 0 {
    } else {
      AllOnesSum(words - 1);
      var b: bytes := seq(2 * words, _ => 0xFF);
      assert b[2..] == seq(2 * (words - 1), _ => 0xFF);
    }
  }

  /** What AddChecksum means for buffers that cannot overflow it: in network byte order it adds
      the one's complement sum of the buffer to the running sum. */
  lemma {:induction false} AddedIsOnesSum(b: bytes, c: uint16)
    requires |b| <= 0x2_0000
    ensures Swap(Added(b, c)) == OnesAdd(Swap(c), OnesSum(b))
  {
    AddedFits(b, c);
    OnesSumIsShiftedSum(b);
    SwapOfSum(c, WordSum(b), Added(b, c), OnesSum(b));
  }

  lemma {:induction false} SwapOfSum(c: uint16, s: nat, total: uint16, shifted: uint16)
    requires total == Residue(c + s) && shifted == Residue(0x100 * s)
    ensures Swap(total) == OnesAdd(Swap(c), shifted)
  {
    SwapIsShift(Residue(c + s));
    ShiftOfResidue(c + s);
    SwapIsShift(c);
    OnesAddIsResidue(Swap(c), 0x100 * s);
    ResidueOfSum(0x100 * c as nat, 0x100 * s);
  }

  /** Chaining calls over even-sized pieces is one call over the concatenation. */
  lemma {:induction false} AddedComposes(a: bytes, b: bytes, c: uint16)
    requires |a| % 2 == 0 && |a| + |b| <= 0x2_0000
    ensures Added(b, Added(a, c)) == Added(a + b, c)
  {
    WordSumConcat(a, b);
    AddedFits(a + b, c);
    AddedFits(a, c);
    AddedFits(b, Added(a, c));
    ResidueOfSum(c + WordSum(a), WordSum(b));
  }

  /** A folded sum is zero only for all-zero input, so zero is never a spurious result. */
  lemma {:induction false} AddedZero(b: bytes)
    requires |b| <= 0x2_0000
    ensures Added(b, 0) == 0 <==> forall i | 0 <= i < |b| :: b[i] == 0
  {
    AddedFits(b, 0);
    WordSumBound(b);
  }

  /** The finished checksum as stored, read in network order, is the complement of the one's
      complement sum. */
  lemma {:induction false} FinishedChecksumIsComplement(b: bytes)
    requires |b| <= 0x2_0000
    ensures FromBe16(Le16(FinishChecksum(Added(b, 0)))) == 0xFFFF - OnesSum(b)
  {
    AddedIsSwappedSum(b);
    SwapOfComplement(Added(b, 0));
  }

  lemma {:induction false} AddedIsSwappedSum(b: bytes)
    requires |b| <= 0x2_0000
    ensures Swap(Added(b, 0)) == OnesSum(b)
  {
    AddedIsOnesSum(b, 0);
  }

  /** Writing the finished checksum over a zeroed word of non-zero data makes the one's complement
      sum of the whole 0xFFFF, which is how a receiver verifies it. */
  lemma {:induction false} FinishedChecksumVerifies(before: bytes, after: bytes, zeroed: bytes, filled: bytes, i: nat)
    requires |before| % 2 == 0 && |zeroed| <= 0x2_0000
    requires zeroed == before + [0, 0] + after
    requires filled == before + Le16(FinishChecksum(Added(zeroed, 0))) + after
    requires i < |before| && before[i] != 0
    ensures OnesSum(filled) == 0xFFFF
  {
    assert zeroed[i] == before[i];
    FilledSum(before, FinishChecksum(Added(zeroed, 0)), after);
    CompletedSum(zeroed, filled, i);
  }

  lemma {:induction false} CompletedSum(zeroed: bytes, filled: bytes, i: nat)
    requires |zeroed| <= 0x2_0000
    requires i < |zeroed| && zeroed[i] != 0
    requires WordSum(filled) == WordSum(zeroed) + FinishChecksum(Added(zeroed, 0))
    ensures OnesSum(filled) == 0xFFFF
  {
    AddedZero(zeroed);
    AddedFits(zeroed, 0);
    SumToAllOnes(WordSum(zeroed), Added(zeroed, 0));
    OnesSumIsShiftedSum(filled);
  }

  lemma {:induction false} SwapOfComplement(n: uint16)
    ensures FromBe16(Le16(FinishChecksum(n))) == 0xFFFF - Swap(n)
  {
    var low, high := n % 0x100, n / 0x100;
    assert FinishChecksum(n) == (0xFF - low) + 0x100 * (0xFF - high);
    assert Le16(FinishChecksum(n)) == [0xFF - low, 0xFF - high];
  }

  lemma {:induction false} FilledSum(before: bytes, word: uint16, after: bytes)
    requires |before| % 2 == 0
    ensures WordSum(before + Le16(word) + after) == WordSum(before + [0, 0] + after) + word
  {
    assert Le16(0) == [0, 0];
    WordSumWithWord(before, 0, after);
    WordSumWithWord(before, word, after);
  }

  lemma {:induction false} SumToAllOnes(n: nat, r: uint16)
    requires Residue(n) == r > 0
    ensures Residue(0x100 * (n + FinishChecksum(r))) == 0xFFFF
  {
    var k := ResidueGap(n);
    ResidueShift(0xFFFF, 0x100 * k + 0xFF, 0x100 * (n + FinishChecksum(r)));
  }

  lemma {:induction false} WordSumWithWord(before: bytes, word: uint16, after: bytes)
    requires |before| % 2 == 0
    ensures WordSum(before + Le16(word) + after) == WordSum(before) + word + WordSum(after)
  {
    var middle := Le16(word);
    WordSumConcat(before + middle, after);
    WordSumConcat(before, middle);
    assert middle[..2] == middle && WordSum(middle[2..]) == 0;
  }

  // ----- The datagram

  const IPPROTO_UDP: byte := 17
  const IPDEFTTL: byte := 64

  /** RFC 791 section 3.1 for a header without options. */
  function IpHeader(length: uint16, check: bytes, source: address, destination: address): (b: bytes)
    ensures |b| == 18 + |check|
  {
    [0x45, 0] + Be16(length) + [0, 0, 0, 0, IPDEFTTL, IPPROTO_UDP] + check + source + destination
  }

  function UdpHeader(sourcePort: uint16, destinationPort: uint16, length: uint16, check: bytes): (b: bytes)
    ensures |b| == 6 + |check|
  {
    Be16(sourcePort) + Be16(destinationPort) + Be16(length) + check
  }

  /** The pseudo-header of RFC 768. */
  function PseudoHeader(source: address, destination: address, length: uint16): (b: bytes)
    ensures |b| == 12 && b[9] == IPPROTO_UDP
  {
    source + destination + [0, IPPROTO_UDP] + Be16(length)
  }

  /** The one's complement sum RFC 768 defines over pseudo-header, header with a zero checksum and data. */
  function UdpSum(source: address, sourcePort: uint16, destination: address, destinationPort: uint16,
                  message: bytes): uint16
    requires 8 + |message| <= 0xFFFF
  {
    var length := 8 + |message|;
    OnesSum(PseudoHeader(source, destination, length)
            + UdpHeader(sourcePort, destinationPort, length, [0, 0]) + message)
  }

  /** The headers sendRawUdp puts before `message`: both checksums are those the RFCs define and
      both verify at a receiver. */
  method SendRawUdp(source: address, sourcePort: uint16, destination: address, destinationPort: uint16,
                    message: bytes)
    returns (ip: bytes, udp: bytes)
    requires 20 + 8 + |message| <= 0xFFFF
    ensures |ip| == 20 && ip == IpHeader(20 + 8 + |message|, ip[10..12], source, destination)
    ensures FromBe16(ip[10..12]) == 0xFFFF - OnesSum(IpHeader(20 + 8 + |message|, [0, 0], source, destination))
    ensures OnesSum(ip) == 0xFFFF
    ensures |udp| == 8 && udp == UdpHeader(sourcePort, destinationPort, 8 + |message|, udp[6..8])
    ensures FromBe16(udp[6..8]) == 0xFFFF - UdpSum(source, sourcePort, destination, destinationPort, message)
    ensures OnesSum(PseudoHeader(source, destination, 8 + |message|) + udp + message) == 0xFFFF
    ensures var sum := UdpSum(source, sourcePort, destination, destinationPort, message);
            FromBe16(udp[6..8]) == Rfc768Field(sum) <==> sum != 0xFFFF
    ensures IpFields(ip, 20 + 8 + |message|, source, destination)
    ensures UdpFields(udp, sourcePort, destinationPort, 8 + |message|)
    ensures forall port :: Accepted(ip + udp + message, port) <==> port == destinationPort
  {
    ip := IpHeader(20 + 8 + |message|, [0, 0], source, destination);
    var checksum := AddChecksum(ip, 0);
    ip := WithField(ip, 10, FinishChecksum(checksum));
    IpHeaderVerifies(20 + 8 + |message|, source, destination);
    IpCheckField(20 + 8 + |message|, source, destination, FinishChecksum(checksum));

    var length := Be16(8 + |message|);
    udp := UdpHeader(sourcePort, destinationPort, 8 + |message|, [0, 0]);
    checksum := AddChecksum(source, 0);
    checksum := AddChecksum(destination, checksum);
    checksum := AddChecksum([0, IPPROTO_UDP], checksum);
    checksum := AddChecksum(length, checksum);
    checksum := AddChecksum(udp, checksum);
    checksum := AddChecksum(message, checksum);
    UdpChainComposes(source, destination, length, udp, message);
    UdpHeaderVerifies(source, sourcePort, destination, destinationPort, message);
    udp := WithField(udp, 6, FinishChecksum(checksum));
    UdpCheckField(sourcePort, destinationPort, 8 + |message|, FinishChecksum(checksum));
    IpHeaderFields(20 + 8 + |message|, ip[10..12], source, destination);
    UdpHeaderFields(sourcePort, destinationPort, 8 + |message|, udp[6..8]);
    hide IpHeader, UdpHeader;
    forall port: uint16
      ensures Accepted(ip + udp + message, port) <==> port == destinationPort
    {
      SentIsAccepted(ip, udp, message, 20 + 8 + |message|, source, destination, sourcePort, destinationPort, port);
    }
  }

  /** The fields of an IPv4 header by their places in RFC 791 section 3.1: version 4 and five words, no service, length,
      no fragments, 64 hops, UDP, and the two addresses. */
  predicate IpFields(ip: bytes, length: nat, source: address, destination: address) {
    && |ip| == 20 && ip[0] == 0x45 && ip[1] == 0 && ip[2] as int * 256 + ip[3] as int == length
    && ip[4] == 0 && ip[5] == 0 && ip[6] == 0 && ip[7] == 0 && ip[8] == 64 && ip[9] == 17
    && ip[12..16] == source && ip[16..20] == destination
  }

  /** The fields of a UDP header by their places in RFC 768: source and destination port, and length. */
  predicate UdpFields(udp: bytes, sourcePort: nat, destinationPort: nat, length: nat) {
    && |udp| == 8 && udp[0] as int * 256 + udp[1] as int == sourcePort
    && udp[2] as int * 256 + udp[3] as int == destinationPort && udp[4] as int * 256 + udp[5] as int == length
  }

  /** receiveRawUdp takes the datagram: it has room for both headers, which name IPv4 without options, UDP and the
      expected port. */
  predicate Accepted(datagram: bytes, expectedPort: uint16) {
    && |datagram| >= 28 && datagram[0] / 16 == 4 && datagram[0] % 16 == 5 && datagram[9] == IPPROTO_UDP
    && FromBe16(datagram[22..24]) == expectedPort
  }

  lemma IpHeaderFields(length: uint16, check: bytes, source: address, destination: address)
    requires |check| == 2
    ensures IpFields(IpHeader(length, check, source, destination), length, source, destination)
  {
  }

  lemma UdpHeaderFields(sourcePort: uint16, destinationPort: uint16, length: uint16, check: bytes)
    requires |check| == 2
    ensures UdpFields(UdpHeader(sourcePort, destinationPort, length, check), sourcePort, destinationPort, length)
  {
  }

  lemma {:induction false} SentIsAccepted(ip: bytes, udp: bytes, message: bytes, length: nat, source: address, destination: address,
                                          sourcePort: uint16, destinationPort: uint16, port: uint16)
    requires IpFields(ip, length, source, destination) && UdpFields(udp, sourcePort, destinationPort, 8 + |message|)
    ensures Accepted(ip + udp + message, port) <==> port == destinationPort
  {
    var datagram := ip + udp + message;
    assert datagram[0] == ip[0] && datagram[9] == ip[9] && datagram[22] == udp[2] && datagram[23] == udp[3];
    assert datagram[22..24] == [udp[2], udp[3]];
  }

  /** Storing a 16-bit field at `offset` of a header. */
  function WithField(header: bytes, offset: nat, value: uint16): bytes
    requires offset + 2 <= |header|
  {
    header[offset := Le16(value)[0]][offset + 1 := Le16(value)[1]]
  }

  lemma IpCheckField(length: uint16, source: address, destination: address, check: uint16)
    ensures
      var ip := WithField(IpHeader(length, [0, 0], source, destination), 10, check);
      ip == IpHeader(length, Le16(check), source, destination) && ip[10..12] == Le16(check)
  {
  }

  lemma UdpCheckField(sourcePort: uint16, destinationPort: uint16, length: uint16, check: uint16)
    ensures
      var udp := WithField(UdpHeader(sourcePort, destinationPort, length, [0, 0]), 6, check);
      udp == UdpHeader(sourcePort, destinationPort, length, Le16(check)) && udp[6..8] == Le16(check)
  {
  }

  lemma {:induction false} IpHeaderVerifies(length: uint16, source: address, destination: address)
    ensures
      var zeroed := IpHeader(length, [0, 0], source, destination);
      var check := Le16(FinishChecksum(Added(zeroed, 0)));
      && FromBe16(check) == 0xFFFF - OnesSum(zeroed)
      && OnesSum(IpHeader(length, check, source, destination)) == 0xFFFF
  {
    var zeroed := IpHeader(length, [0, 0], source, destination);
    var before, after := zeroed[..10], source + destination;
    var check := Le16(FinishChecksum(Added(zeroed, 0)));
    assert before[0] == 0x45;
    assert zeroed == before + [0, 0] + after;
    assert IpHeader(length, check, source, destination) == before + check + after;
    FinishedChecksumIsComplement(zeroed);
    FinishedChecksumVerifies(before, after, zeroed, IpHeader(length, check, source, destination), 0);
  }

  lemma {:induction false} UdpHeaderVerifies(source: address, sourcePort: uint16, destination: address, destinationPort: uint16,
                          message: bytes)
    requires 8 + |message| <= 0xFFFF
    ensures
      var length := 8 + |message|;
      var pseudo := PseudoHeader(source, destination, length);
      var zeroed := pseudo + UdpHeader(sourcePort, destinationPort, length, [0, 0]) + message;
      var check := Le16(FinishChecksum(Added(zeroed, 0)));
      && FromBe16(check) == 0xFFFF - OnesSum(zeroed)
      && OnesSum(pseudo + UdpHeader(sourcePort, destinationPort, length, check) + message) == 0xFFFF
  {
    var length := 8 + |message|;
    var pseudo := PseudoHeader(source, destination, length);
    var ports := Be16(sourcePort) + Be16(destinationPort) + Be16(length);
    var zeroed := pseudo + UdpHeader(sourcePort, destinationPort, length, [0, 0]) + message;
    var check := Le16(FinishChecksum(Added(zeroed, 0)));
    FinishedChecksumIsComplement(zeroed);
    Regroup(pseudo, ports, [0, 0], message);
    Regroup(pseudo, ports, check, message);
    assert zeroed == pseudo + ports + [0, 0] + message;
    FinishedChecksumVerifies(pseudo + ports, message, zeroed, pseudo + ports + check + message, 9);
  }

  lemma Regroup(a: bytes, b: bytes, c: bytes, d: bytes)
    ensures a + (b + c) + d == a + b + c + d
  {
  }

  /** The six chained calls of sendRawUdp compute one sum over their concatenation. */
  lemma {:induction false} UdpChainComposes(source: address, destination: address, length: bytes, udp: bytes, message: bytes)
    requires |length| == 2 && |udp| == 8 && |message| <= 0xFFFF
    ensures Added(message, Added(udp, Added(length, Added([0, IPPROTO_UDP],
              Added(destination, Added(source, 0))))))
         == Added(source + destination + [0, IPPROTO_UDP] + length + udp + message, 0)
  {
    AddedComposes(source, destination, 0);
    AddedComposes(source + destination, [0, IPPROTO_UDP], 0);
    AddedComposes(source + destination + [0, IPPROTO_UDP], length, 0);
    AddedComposes(source + destination + [0, IPPROTO_UDP] + length, udp, 0);
    AddedComposes(source + destination + [0, IPPROTO_UDP] + length + udp, message, 0);
  }

  /** The field RFC 768 asks for: a computed zero is transmitted as all ones. */
  function Rfc768Field(sum: uint16): uint16 {
    if 0xFFFF - sum == 0 then 0xFFFF else 0xFFFF - sum
  }

  /** The checksum field that the chained calls of sendRawUdp leave in the header, as a receiver reads it. */
  function StoredUdpField(source: address, sourcePort: uint16, destination: address, destinationPort: uint16,
                          message: bytes): uint16
    requires 8 + |message| <= 0xFFFF
  {
    var length := Be16(8 + |message|);
    var udp := UdpHeader(sourcePort, destinationPort, 8 + |message|, [0, 0]);
    var sum := Added(message, Added(udp, Added(length, Added([0, IPPROTO_UDP], Added(destination, Added(source, 0))))));
    FromBe16(Le16(FinishChecksum(sum)))
  }

  /** The stored field is the one RFC 768 asks for exactly when the sum is not all ones. */
  lemma {:induction false} UdpFieldMeetsRfc768(source: address, sourcePort: uint16, destination: address,
                            destinationPort: uint16, message: bytes)
    requires 8 + |message| <= 0xFFFF
    ensures
      var sum := UdpSum(source, sourcePort, destination, destinationPort, message);
      StoredUdpField(source, sourcePort, destination, destinationPort, message) == Rfc768Field(sum) <==> sum != 0xFFFF
  {
    var udp := UdpHeader(sourcePort, destinationPort, 8 + |message|, [0, 0]);
    UdpChainComposes(source, destination, Be16(8 + |message|), udp, message);
    UdpHeaderVerifies(source, sourcePort, destination, destinationPort, message);
  }

  /** For every header there is a two-byte message for which it does not. */
  lemma {:induction false} ZeroUdpChecksumArises(source: address, sourcePort: uint16, destination: address, destinationPort: uint16)
    returns (message: bytes)
    ensures |message| == 2
    ensures UdpSum(source, sourcePort, destination, destinationPort, message) == 0xFFFF
  {
    var length := 8 + 2;
    var before := PseudoHeader(source, destination, length)
                  + UdpHeader(sourcePort, destinationPort, length, [0, 0]);
    message := Le16(FinishChecksum(Added(before + [0, 0], 0)));
    assert before + [0, 0] == before + [0, 0] + [];
    assert before + message == before + message + [];
    FinishedChecksumVerifies(before, [], before + [0, 0], before + message, 9);
  }
}
