/** The Internet checksum, and the headers of a UDP packet that carry it. */
module Checksum {
  import opened Words
  import opened LibcMemory

  const MAX_LENGTH: nat := 131074

  // ---------- the sum ----------

  function WordAt(data: seq<Byte>, i: nat): nat
    requires i < |data|
  {
    var high: nat, low: nat := data[i], if i + 1 < |data| then data[i + 1] else 0;
    high * 0x100 + low
  }

  /** The exact sum of the 16-bit words, an odd last byte padded with zero. */
  function Sum(data: seq<Byte>): nat {
    if data == [] then 0 else WordAt(data, 0) + (if |data| == 1 then 0 else Sum(data[2..]))
  }

  /** The end-around carries added back until the sum fits 16 bits. */
  function Fold(s: nat): (f: nat)
    ensures f < 0x1_0000
    decreases s
  {
    if s < 0x1_0000 then s else Fold(s % 0x1_0000 + s / 0x1_0000)
  }

  /** `checkSum`, whose accumulator has 32 bits. */
  function CheckSum(data: seq<Byte>): (c: nat)
    ensures c < 0x1_0000
  {
    0xFFFF - Fold(Wrap(Sum(data)))
  }

  method ComputeCheckSum(data: seq<Byte>) returns (c: nat)
    ensures c == CheckSum(data)
  {
    hide Wrap;
    var sum: nat := 0;
    var i := 0;
    WrapWord(0);
    while i < |data|
      invariant i <= |data| + 1
      invariant Wrap(sum + Sum(Rest(data, i))) == Wrap(Sum(data))
      invariant sum == Wrap(sum)
      decreases |data| + 1 - i
    {
      SumStep(data, i);
      WrapAdd(sum + WordAt(data, i), Sum(Rest(data, i + 2)));
      WrapWord(Wrap(sum + WordAt(data, i)));
      sum := Wrap(sum + WordAt(data, i));
      i := i + 2;
    }
    while sum / 0x1_0000 != 0
      invariant Fold(sum) == Fold(Wrap(Sum(data)))
      decreases sum
    {
      sum := sum % 0x1_0000 + sum / 0x1_0000;
    }
    c := 0xFFFF - sum;
  }

  function Rest(data: seq<Byte>, i: nat): seq<Byte> {
    if i <= |data| then data[i..] else []
  }

  lemma SumStep(data: seq<Byte>, i: nat)
    requires i < |data|
    ensures Sum(Rest(data, i)) == WordAt(data, i) + Sum(Rest(data, i + 2))
  {
    if i + 1 < |data| { assert data[i..][2..] == data[i + 2..]; }
  }

  /** No 32-bit overflow up to 131074 bytes. */
  lemma {:induction false} SumBound(data: seq<Byte>)
    ensures Sum(data) <= (|data| + 1) / 2 * 0xFFFF
    decreases |data|
  {
    if |data| > 1 {
      SumBound(data[2..]);
      assert (|data| + 1) / 2 == (|data| - 2 + 1) / 2 + 1;
    }
  }

  lemma NoOverflow(data: seq<Byte>)
    requires |data| <= MAX_LENGTH
    ensures Wrap(Sum(data)) == Sum(data)
  {
    SumBound(data);
    assert (|data| + 1) / 2 <= 65537;
  }

  /** Folding computes the sum modulo 65535, with 65535 standing for the other multiples. */
  lemma {:induction false} FoldIsModulo(s: nat)
    ensures Fold(s) == if s == 0 then 0 else (s - 1) % 0xFFFF + 1
    decreases s
  {
    if s >= 0x1_0000 {
      var q, r := s / 0x1_0000, s % 0x1_0000;
      FoldIsModulo(r + q);
      SameResidue(r + q - 1, q);
      assert s - 1 == (r + q - 1) + q * 0xFFFF;
    }
  }

  lemma SameResidue(x: nat, q: nat)
    ensures (x + q * 0xFFFF) % 0xFFFF == x % 0xFFFF
  {
    assert x + q * 0xFFFF == (x / 0xFFFF + q) * 0xFFFF + x % 0xFFFF;
    ResidueOf(x / 0xFFFF + q, x % 0xFFFF);
  }

  lemma {:induction false} ResidueOf(q: nat, r: nat)
    requires r < 0xFFFF
    ensures (q * 0xFFFF + r) % 0xFFFF == r
  {
  }

  // ---------- storing the checksum ----------

  function BigEndian(c: nat): (b: seq<Byte>)
    requires c < 0x1_0000
    ensures |b| == 2
  {
    [c / 0x100, c % 0x100]
  }

  lemma {:induction false} SumAppend(a: seq<Byte>, b: seq<Byte>)
    requires |a| % 2 == 0
    ensures Sum(a + b) == Sum(a) + Sum(b)
    decreases |a|
  {
    if a == [] {
      assert a + b == b;
    } else {
      assert (a + b)[2..] == a[2..] + b;
      SumAppend(a[2..], b);
    }
  }

  lemma SumWithField(a: seq<Byte>, c: nat, b: seq<Byte>)
    requires |a| % 2 == 0 && c < 0x1_0000
    ensures Sum(a + BigEndian(c) + b) == Sum(a) + c + Sum(b)
  {
    SumAppend(a + BigEndian(c), b);
    SumAppend(a, BigEndian(c));
    assert BigEndian(c)[2..] == [];
    assert Sum(BigEndian(c)) == c;
  }

  /** What UDP stores for a computed checksum: 0 is sent as 0xFFFF. */
  function Substituted(c: nat): nat {
    if c == 0 then 0xFFFF else c
  }

  /**
    * The checksum verifies itself: computed over data with a zero field at an even position and stored there, as
    * it is or with 0 replaced by 0xFFFF, it makes the checksum of the whole 0.
    */
  lemma ChecksumVerifies(a: seq<Byte>, b: seq<Byte>)
    requires |a| % 2 == 0 && |a| + 2 + |b| <= MAX_LENGTH
    ensures var c := CheckSum(a + BigEndian(0) + b);
            && CheckSum(a + BigEndian(c) + b) == 0
            && CheckSum(a + BigEndian(Substituted(c)) + b) == 0
  {
    hide Sum, Wrap;
    var s := Sum(a) + Sum(b);
    var c := CheckSum(a + BigEndian(0) + b);
    SumWithField(a, 0, b);
    NoOverflow(a + BigEndian(0) + b);
    FoldIsModulo(s);
    SumWithField(a, c, b);
    NoOverflow(a + BigEndian(c) + b);
    SumWithField(a, Substituted(c), b);
    NoOverflow(a + BigEndian(Substituted(c)) + b);
    Complete(s);
  }

  lemma Complete(s: nat)
    ensures var c := 0xFFFF - Fold(s); Fold(s + c) == 0xFFFF && Fold(s + Substituted(c)) == 0xFFFF
  {
    hide Fold;
    FoldIsModulo(s);
    var c := 0xFFFF - Fold(s);
    FoldIsModulo(s + c);
    FoldIsModulo(s + Substituted(c));
    if s == 0 {
      assert (0xFFFF - 1) % 0xFFFF == 0xFFFE;
    } else {
      var q, r := (s - 1) / 0xFFFF, (s - 1) % 0xFFFF;
      assert s - 1 == q * 0xFFFF + r;
      assert s + c - 1 == q * 0xFFFF + 0xFFFE;
      ResidueOf(q, 0xFFFE);
      ResidueOf(q + 1, 0xFFFE);
      assert c == 0 ==> s + 0xFFFF - 1 == (q + 1) * 0xFFFF + 0xFFFE;
    }
  }

  // ---------- the packet ----------

  /** The low half of `hostToNetworkLong` repeats the lowest byte instead of swapping the two lowest. */
  function AddressBytes(x: Word): (b: seq<Byte>)
    ensures |b| == 4
  {
    [x / 0x100_0000, x / 0x1_0000 % 0x100, x % 0x100, x % 0x100]
  }

  /** An address is stored in network order exactly when its two low bytes are equal. */
  lemma AddressOrderIff(x: Word)
    ensures AddressBytes(x) == [x / 0x100_0000, x / 0x1_0000 % 0x100, x / 0x100 % 0x100, x % 0x100]
       <==> x / 0x100 % 0x100 == x % 0x100
  {
    var right: seq<Byte> := [x / 0x100_0000, x / 0x1_0000 % 0x100, x / 0x100 % 0x100, x % 0x100];
    assert AddressBytes(x)[2] == x % 0x100 && right[2] == x / 0x100 % 0x100;
  }

  datatype Parameters = Parameters(source: Word, destination: Word, sourcePort: nat, destinationPort: nat,
    payload: seq<Byte>)

  predicate Sendable(n: Parameters) {
    n.sourcePort < 0x1_0000 && n.destinationPort < 0x1_0000 && 14 + 20 + 8 + |n.payload| + 1 <= 1514
  }

  function UdpLength(n: Parameters): nat { 8 + |n.payload| + 1 }

  const MIN_FRAME: nat := 60

  /** Shorter frames are sent with zeros behind them. */
  function FrameLength(n: Parameters): nat {
    var end := 34 + UdpLength(n);
    if end < MIN_FRAME then MIN_FRAME else end
  }

  function IpStart(n: Parameters): (h: seq<Byte>)
    requires Sendable(n)
    ensures |h| == 10
  {
    [0x45, 0] + BigEndian(20 + UdpLength(n)) + [0, 0, 0x40, 0, 0x40, 0x11]
  }

  function IpHeader(n: Parameters, checksum: nat): (h: seq<Byte>)
    requires Sendable(n) && checksum < 0x1_0000
    ensures |h| == 20
  {
    IpStart(n) + BigEndian(checksum) + (AddressBytes(n.source) + AddressBytes(n.destination))
  }

  function UdpStart(n: Parameters): (h: seq<Byte>)
    requires Sendable(n)
    ensures |h| == 6
  {
    BigEndian(n.sourcePort) + BigEndian(n.destinationPort) + BigEndian(UdpLength(n))
  }

  function Datagram(n: Parameters, checksum: nat): (d: seq<Byte>)
    requires Sendable(n) && checksum < 0x1_0000
    ensures |d| == UdpLength(n)
  {
    UdpStart(n) + BigEndian(checksum) + (n.payload + [0])
  }

  function PseudoHeader(n: Parameters): (h: seq<Byte>)
    requires Sendable(n)
    ensures |h| == 12
  {
    AddressBytes(n.source) + AddressBytes(n.destination) + [0, 0x11] + BigEndian(UdpLength(n))
  }

  function IpChecksum(n: Parameters): (c: nat)
    requires Sendable(n)
    ensures c < 0x1_0000
  {
    CheckSum(IpHeader(n, 0))
  }

  function UdpChecksum(n: Parameters): (c: nat)
    requires Sendable(n)
    ensures c < 0x1_0000
  {
    Substituted(CheckSum(PseudoHeader(n) + Datagram(n, 0)))
  }

  /** The IP header and the datagram with its pseudo header, as sent, verify at the receiver. */
  lemma PacketVerifies(n: Parameters)
    requires Sendable(n)
    ensures CheckSum(IpHeader(n, IpChecksum(n))) == 0
    ensures CheckSum(PseudoHeader(n) + Datagram(n, UdpChecksum(n))) == 0 && UdpChecksum(n) != 0
  {
    hide CheckSum, IpStart, UdpStart, AddressBytes, PseudoHeader;
    ChecksumVerifies(IpStart(n), AddressBytes(n.source) + AddressBytes(n.destination));
    ChecksumVerifies(PseudoHeader(n) + UdpStart(n), n.payload + [0]);
    Regroup(n, 0);
    Regroup(n, UdpChecksum(n));
  }

  lemma Regroup(n: Parameters, c: nat)
    requires Sendable(n) && c < 0x1_0000
    ensures PseudoHeader(n) + Datagram(n, c) == PseudoHeader(n) + UdpStart(n) + BigEndian(c) + (n.payload + [0])
  {
    hide PseudoHeader, UdpStart;
  }

  const ETHERNET: seq<Byte> := [0x02, 0, 0xA0, 0x04, 0, 0, 0x52, 0x54, 0, 0x12, 0x34, 0x56, 0x08, 0]

  /** Stores a 16-bit field in network order over a zero one. */
  method PutField(packet: array<Byte>, at: nat, c: nat, ghost a: seq<Byte>, ghost b: seq<Byte>)
    requires c < 0x1_0000 && at == |a| && at + 2 + |b| <= packet.Length
    requires packet[..at + 2 + |b|] == a + BigEndian(0) + b
    modifies packet
    ensures packet[..at + 2 + |b|] == a + BigEndian(c) + b
  {
    hide BigEndian;
    ghost var s := packet[..];
    var end := at + 2;
    assert s[..at] == s[..at + 2 + |b|][..at] == a;
    assert s[end..at + 2 + |b|] == s[..at + 2 + |b|][end..] == b;
    CopyBytes(packet, at, BigEndian(c));
    assert packet[..at + 2 + |b|] == s[..at] + BigEndian(c) + s[end..at + 2 + |b|];
  }

  function Packet(n: Parameters, ipChecksum: nat, udpChecksum: nat): (p: seq<Byte>)
    requires Sendable(n) && ipChecksum < 0x1_0000 && udpChecksum < 0x1_0000
    ensures |p| == 34 + UdpLength(n)
  {
    ETHERNET + IpHeader(n, ipChecksum) + Datagram(n, udpChecksum)
  }

  /** The bytes that are sent. */
  function Frame(n: Parameters, ipChecksum: nat, udpChecksum: nat): (f: seq<Byte>)
    requires Sendable(n) && ipChecksum < 0x1_0000 && udpChecksum < 0x1_0000
    ensures |f| == FrameLength(n)
  {
    Packet(n, ipChecksum, udpChecksum) + Zeros(FrameLength(n) - 34 - UdpLength(n))
  }

  lemma FrameParts(n: Parameters, ipChecksum: nat, udpChecksum: nat)
    requires Sendable(n) && ipChecksum < 0x1_0000 && udpChecksum < 0x1_0000
    ensures var f := Frame(n, ipChecksum, udpChecksum);
            f[14..34] == IpHeader(n, ipChecksum) && f[34..34 + UdpLength(n)] == Datagram(n, udpChecksum)
  {
    hide IpHeader, Datagram;
  }

  /** A 16-bit field in network order. */
  function Field(f: seq<Byte>, p: nat): nat
    requires p + 1 < |f|
  {
    var high: int := f[p];
    high * 0x100 + f[p + 1]
  }

  lemma FieldRead(x: nat)
    requires x < 0x1_0000
    ensures Field(BigEndian(x), 0) == x
  {
  }

  lemma IpFields(n: Parameters, checksum: nat)
    requires Sendable(n) && checksum < 0x1_0000
    ensures var h := IpHeader(n, checksum);
            && h[0] == 0x45 && h[1] == 0 && Field(h, 2) == 20 + UdpLength(n) && Field(h, 4) == 0
            && Field(h, 6) == 0x4000 && h[8] == 64 && h[9] == 17 && Field(h, 10) == checksum
            && h[12..16] == AddressBytes(n.source) && h[16..20] == AddressBytes(n.destination)
  {
    hide BigEndian, AddressBytes;
    FieldRead(20 + UdpLength(n));
    FieldRead(checksum);
    var h, start := IpHeader(n, checksum), IpStart(n);
    assert forall k :: 0 <= k < 10 ==> h[k] == start[k];
    assert start[2..4] == BigEndian(20 + UdpLength(n));
    assert h[10..12] == BigEndian(checksum);
  }

  lemma UdpFields(n: Parameters, checksum: nat)
    requires Sendable(n) && checksum < 0x1_0000
    ensures var d := Datagram(n, checksum);
            && Field(d, 0) == n.sourcePort && Field(d, 2) == n.destinationPort && Field(d, 4) == 8 + |n.payload| + 1
            && Field(d, 6) == checksum && d[8..8 + |n.payload|] == n.payload && d[8 + |n.payload|] == 0
  {
    hide BigEndian;
    FieldRead(n.sourcePort);
    FieldRead(n.destinationPort);
    FieldRead(UdpLength(n));
    FieldRead(checksum);
    var d := Datagram(n, checksum);
    assert d[0..2] == BigEndian(n.sourcePort) && d[2..4] == BigEndian(n.destinationPort);
    assert d[4..6] == BigEndian(UdpLength(n)) && d[6..8] == BigEndian(checksum);
  }

  /** Every field of the frame at its offset; the pseudo header repeats the addresses and the length as sent. */
  lemma FrameFields(n: Parameters, ipChecksum: nat, udpChecksum: nat)
    requires Sendable(n) && ipChecksum < 0x1_0000 && udpChecksum < 0x1_0000
    ensures var f, size := Frame(n, ipChecksum, udpChecksum), |n.payload|;
            && f[..6] == [0x02, 0, 0xA0, 0x04, 0, 0] && f[6..12] == [0x52, 0x54, 0, 0x12, 0x34, 0x56]
            && Field(f, 12) == 0x0800
            && f[14] == 0x45 && f[15] == 0 && Field(f, 16) == 29 + size && Field(f, 18) == 0 && Field(f, 20) == 0x4000
            && f[22] == 64 && f[23] == 17 && Field(f, 24) == ipChecksum
            && f[26..30] == AddressBytes(n.source) && f[30..34] == AddressBytes(n.destination)
            && Field(f, 34) == n.sourcePort && Field(f, 36) == n.destinationPort && Field(f, 38) == 9 + size
            && Field(f, 40) == udpChecksum && f[42..42 + size] == n.payload
            && (forall k :: 42 + size <= k < |f| ==> f[k] == 0)
            && PseudoHeader(n) == f[26..30] + f[30..34] + [0, 17] + f[38..40]
  {
    hide IpHeader, Datagram, AddressBytes, BigEndian, Frame, Field, UdpLength, PseudoHeader;
    var f := Frame(n, ipChecksum, udpChecksum);
    assert UdpLength(n) == 9 + |n.payload| && |f| >= 34 + UdpLength(n) by { LengthIs(n); }
    FrameParts(n, ipChecksum, udpChecksum);
    IpFields(n, ipChecksum);
    UdpFields(n, udpChecksum);
    IpMoved(f, IpHeader(n, ipChecksum));
    UdpMoved(f, Datagram(n, udpChecksum), |n.payload|);
    FrameEnds(n, ipChecksum, udpChecksum);
    LengthField(n, udpChecksum);
  }

  lemma LengthIs(n: Parameters)
    ensures UdpLength(n) == 9 + |n.payload| && FrameLength(n) >= 34 + UdpLength(n)
  {
  }

  lemma IpMoved(f: seq<Byte>, h: seq<Byte>)
    requires |f| >= 34 && |h| == 20 && f[14..34] == h
    ensures f[14] == h[0] && f[15] == h[1] && Field(f, 16) == Field(h, 2) && Field(f, 18) == Field(h, 4)
    ensures Field(f, 20) == Field(h, 6) && f[22] == h[8] && f[23] == h[9] && Field(f, 24) == Field(h, 10)
    ensures f[26..30] == h[12..16] && f[30..34] == h[16..20]
  {
    assert forall k :: 0 <= k < 20 ==> f[14..34][k] == f[14 + k];
    assert f[26..30] == f[14..34][12..16] && f[30..34] == f[14..34][16..20];
  }

  lemma UdpMoved(f: seq<Byte>, d: seq<Byte>, size: nat)
    requires |d| == 9 + size && |f| >= 34 + |d| && f[34..34 + |d|] == d
    ensures Field(f, 34) == Field(d, 0) && Field(f, 36) == Field(d, 2) && Field(f, 38) == Field(d, 4)
    ensures Field(f, 40) == Field(d, 6) && f[38..40] == d[4..6] && f[42..42 + size] == d[8..8 + size]
    ensures f[42 + size] == d[8 + size]
  {
    var part := f[34..34 + |d|];
    assert forall k :: 0 <= k < |d| ==> part[k] == f[34 + k];
    assert f[34] == part[0] && f[35] == part[1] && f[36] == part[2] && f[37] == part[3];
    assert f[38..40] == part[4..6] && f[40] == part[6] && f[41] == part[7];
    assert f[42..42 + size] == part[8..8 + size];
  }

  lemma LengthField(n: Parameters, checksum: nat)
    requires Sendable(n) && checksum < 0x1_0000
    ensures Datagram(n, checksum)[4..6] == BigEndian(UdpLength(n))
    ensures PseudoHeader(n) == AddressBytes(n.source) + AddressBytes(n.destination) + [0, 17] + BigEndian(UdpLength(n))
  {
    hide BigEndian, AddressBytes;
  }

  lemma FrameEnds(n: Parameters, ipChecksum: nat, udpChecksum: nat)
    requires Sendable(n) && ipChecksum < 0x1_0000 && udpChecksum < 0x1_0000
    ensures var f, end := Frame(n, ipChecksum, udpChecksum), 34 + UdpLength(n);
            && f[..6] == [0x02, 0, 0xA0, 0x04, 0, 0] && f[6..12] == [0x52, 0x54, 0, 0x12, 0x34, 0x56]
            && Field(f, 12) == 0x0800 && forall k :: end <= k < |f| ==> f[k] == 0
  {
    hide IpHeader, Datagram;
    var f := Frame(n, ipChecksum, udpChecksum);
    assert f[..14] == ETHERNET;
    assert f[..6] == f[..14][..6] && f[6..12] == f[..14][6..12] && f[12] == f[..14][12] && f[13] == f[..14][13];
    var p := Packet(n, ipChecksum, udpChecksum);
    assert forall k :: |p| <= k < |f| ==> f[k] == Zeros(|f| - |p|)[k - |p|];
  }

  function BeforeIp(n: Parameters): (b: seq<Byte>)
    requires Sendable(n)
    ensures |b| == 24
  {
    ETHERNET + IpStart(n)
  }

  function AfterIp(n: Parameters, udpChecksum: nat): (b: seq<Byte>)
    requires Sendable(n) && udpChecksum < 0x1_0000
    ensures |b| == FrameLength(n) - 26
  {
    AddressBytes(n.source) + AddressBytes(n.destination)
    + (Datagram(n, udpChecksum) + Zeros(FrameLength(n) - 34 - UdpLength(n)))
  }

  /** The frame around the IP header's checksum. */
  lemma IpAround(n: Parameters, ipChecksum: nat, udpChecksum: nat)
    requires Sendable(n) && ipChecksum < 0x1_0000 && udpChecksum < 0x1_0000
    ensures Frame(n, ipChecksum, udpChecksum) == BeforeIp(n) + BigEndian(ipChecksum) + AfterIp(n, udpChecksum)
  {
    hide IpStart, AddressBytes, BigEndian, Datagram, ETHERNET, Zeros;
    var addresses := AddressBytes(n.source) + AddressBytes(n.destination);
    var d, pad := Datagram(n, udpChecksum), Zeros(FrameLength(n) - 34 - UdpLength(n));
    assert ETHERNET + (IpStart(n) + BigEndian(ipChecksum) + addresses) + d + pad
           == (ETHERNET + IpStart(n)) + BigEndian(ipChecksum) + (addresses + (d + pad));
  }

  function BeforeUdp(n: Parameters, ipChecksum: nat): (b: seq<Byte>)
    requires Sendable(n) && ipChecksum < 0x1_0000
    ensures |b| == 40
  {
    ETHERNET + IpHeader(n, ipChecksum) + UdpStart(n)
  }

  function AfterUdp(n: Parameters): (b: seq<Byte>)
    requires Sendable(n)
    ensures |b| == FrameLength(n) - 42
  {
    n.payload + [0] + Zeros(FrameLength(n) - 34 - UdpLength(n))
  }

  /** The frame around the datagram's checksum. */
  lemma UdpAround(n: Parameters, ipChecksum: nat, udpChecksum: nat)
    requires Sendable(n) && ipChecksum < 0x1_0000 && udpChecksum < 0x1_0000
    ensures Frame(n, ipChecksum, udpChecksum) == BeforeUdp(n, ipChecksum) + BigEndian(udpChecksum) + AfterUdp(n)
  {
    hide UdpStart, BigEndian, IpHeader, ETHERNET, Zeros;
    var head, pad := ETHERNET + IpHeader(n, ipChecksum), Zeros(FrameLength(n) - 34 - UdpLength(n));
    assert head + (UdpStart(n) + BigEndian(udpChecksum) + (n.payload + [0]) + pad)
           == (head + UdpStart(n)) + BigEndian(udpChecksum) + (n.payload + [0] + pad);
  }

  /** What stands at the start of an array is replaced. */
  method Overwrite(packet: array<Byte>, text: seq<Byte>)
    requires |text| <= packet.Length
    modifies packet
    ensures packet[..] == text + old(packet[..])[|text|..]
  {
    ghost var before := packet[..];
    CopyBytes(packet, 0, text);
    assert before[..0] == [] && [] + text == text;
  }

  /** A text written over the start of cleared bytes stands before the rest of them. */
  lemma OverZeros(before: seq<Byte>, l: nat, text: seq<Byte>)
    requires |text| <= l <= |before|
    ensures var blank := Zeros(l) + before[l..]; (text + blank[|text|..])[..l] == text + Zeros(l - |text|)
  {
  }

  /** Header and datagram over a cleared array. */
  method LayOut(packet: array<Byte>, n: Parameters)
    requires Sendable(n) && packet.Length == 1514
    modifies packet
    ensures packet[..FrameLength(n)] == Frame(n, 0, 0)
  {
    hide Packet, Zeros;
    var l, text := FrameLength(n), Packet(n, 0, 0);
    ghost var before := packet[..];
    Overwrite(packet, Zeros(l));
    Overwrite(packet, text);
    OverZeros(before, l, text);
    assert packet[..l] == packet[..][..l];
  }

  /** The header-filling part of `netUDPSend`: both checksums are computed over the packet with their fields zero. */
  method FillPacket(packet: array<Byte>, n: Parameters)
    requires Sendable(n) && packet.Length == 1514
    modifies packet
    ensures packet[..FrameLength(n)] == Frame(n, IpChecksum(n), UdpChecksum(n))
  {
    hide CheckSum, IpHeader, Datagram, PseudoHeader, Substituted, BigEndian, Frame, BeforeIp, AfterIp, BeforeUdp,
      AfterUdp;
    var l, end := FrameLength(n), 34 + UdpLength(n);
    LayOut(packet, n);
    FrameParts(n, 0, 0);
    IpAround(n, 0, 0);
    assert packet[14..34] == packet[..l][14..34];
    var ipChecksum := ComputeCheckSum(packet[14..34]);
    PutField(packet, 24, ipChecksum, BeforeIp(n), AfterIp(n, 0));
    IpAround(n, ipChecksum, 0);
    FrameParts(n, ipChecksum, 0);
    assert packet[34..end] == packet[..l][34..end];
    var udpChecksum := ComputeCheckSum(PseudoHeader(n) + packet[34..end]);
    udpChecksum := Substituted(udpChecksum);
    SubstitutedFits(CheckSum(PseudoHeader(n) + Datagram(n, 0)));
    UdpAround(n, ipChecksum, 0);
    PutField(packet, 40, udpChecksum, BeforeUdp(n, ipChecksum), AfterUdp(n));
    UdpAround(n, ipChecksum, udpChecksum);
  }

  lemma SubstitutedFits(c: nat)
    requires c < 0x1_0000
    ensures Substituted(c) < 0x1_0000
  {
  }
}
