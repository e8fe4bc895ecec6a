/**
 * The Internet checksum of sw/apps/net/ip.c and sw/apps/net/tcp.c.
 *
 * The code adds 16-bit words into a 32-bit accumulator and folds the carries
 * once at the end.  RFC 1071, section 1 defines the checksum by one's
 * complement addition, where every carry is added back immediately.  The
 * module proves that the two agree, that the accumulator never overflows,
 * and that a receiver summing a packet with the stored checksum gets zero.
 */
module Checksum {
  import opened Words

  const MAX_WORD: int := 0xFFFF

  // ----- reference: one's complement arithmetic

  /** One's complement addition with its end-around carry (RFC 1071, section 1). */
  function OnesAdd(a: uint16, b: uint16): uint16 {
    var s := a + b;
    if s > MAX_WORD then s - MAX_WORD else s
  }

  /** The first 16-bit word of a buffer; a final odd byte is padded with zero. */
  function FirstWord(data: seq<Byte>): uint16
    requires data != []
  {
    data[0] as int * 256 + (if |data| == 1 then 0 else data[1])
  }

  function AfterFirstWord(data: seq<Byte>): seq<Byte>
    requires data != []
  {
    if |data| == 1 then [] else data[2..]
  }

  /** `init` plus every word of `data`, in one's complement arithmetic. */
  function OnesSum(init: uint16, data: seq<Byte>): uint16
    decreases |data|
  {
    if data == [] then init else OnesSum(OnesAdd(init, FirstWord(data)), AfterFirstWord(data))
  }

  function Complement(w: uint16): uint16 {
    MAX_WORD - w
  }

  // ----- plain integer sums

  function WordSum(data: seq<Byte>): nat
    decreases |data|
  {
    if data == [] then 0 else FirstWord(data) + WordSum(AfterFirstWord(data))
  }

  /** The canonical 16-bit representative of a plain sum: zero only for zero. */
  function Norm(sum: nat): uint16 {
    if sum == 0 then 0 else 1 + (sum - 1) % 0xFFFF
  }

  lemma NormAdd(a: nat, b: uint16)
    ensures OnesAdd(Norm(a), b) == Norm(a + b)
  {
  }

  /** One's complement summation is plain summation followed by one reduction. */
  lemma {:induction false} OnesSumIsNorm(init: nat, data: seq<Byte>)
    ensures OnesSum(Norm(init), data) == Norm(init + WordSum(data))
    decreases |data|
  {
    if data != [] {
      NormAdd(init, FirstWord(data));
      OnesSumIsNorm(init + FirstWord(data), AfterFirstWord(data));
    }
  }

  lemma {:induction false} WordSumBound(data: seq<Byte>)
    ensures WordSum(data) <= (|data| + 1) / 2 * MAX_WORD
    decreases |data|
  {
    if |data| > 1 {
      WordSumBound(data[2..]);
      assert (|data| + 1) / 2 == (|data[2..]| + 1) / 2 + 1;
    } else if |data| == 1 {
      assert WordSum(AfterFirstWord(data)) == 0;
    }
  }

  lemma {:induction false} WordSumSplit(data: seq<Byte>, k: nat)
    requires k <= |data| && k % 2 == 0
    ensures WordSum(data) == WordSum(data[..k]) + WordSum(data[k..])
    decreases k
  {
    if k == 0 {
      assert data[k..] == data;
    } else {
      assert AfterFirstWord(data)[..k - 2] == AfterFirstWord(data[..k]);
      assert AfterFirstWord(data)[k - 2..] == data[k..];
      WordSumSplit(AfterFirstWord(data), k - 2);
    }
  }

  // ----- the code

  /** The carry-folding loop (sw/apps/net/ip.c:108-111). */
  method FoldAndComplement(total: uint32) returns (r: uint16)
    ensures r == Complement(Norm(total))
  {
    var sum: uint32 := total;
    while sum / 0x1_0000 != 0
      decreases sum
      invariant Norm(sum) == Norm(total)
    {
      FoldKeepsNorm(sum);
      sum := sum % 0x1_0000 + sum / 0x1_0000;
    }
    assert Norm(sum) == sum;
    r := MAX_WORD - sum;
  }

  lemma FoldKeepsNorm(sum: uint32)
    requires sum >= TWO_16
    ensures Norm(sum % 0x1_0000 + sum / 0x1_0000) == Norm(sum)
    ensures sum % 0x1_0000 + sum / 0x1_0000 < sum
  {
  }

  /** ip_checksum: the checksum of a whole buffer. */
  method IpChecksum(data: seq<Byte>) returns (r: uint16)
    requires |data| < TWO_16
    ensures r == Complement(OnesSum(0, data))
  {
    var sum: uint32 := SumInto(0, data);
    r := FoldAndComplement(sum);
    OnesSumIsNorm(0, data);
  }

  lemma NextWord(data: seq<Byte>, i: nat)
    requires i + 1 < |data|
    ensures WordSum(data[i..]) == data[i] as int * 256 + data[i + 1] + WordSum(data[i + 2..])
  {
    assert AfterFirstWord(data[i..]) == data[i + 2..];
  }

  lemma LastByte(data: seq<Byte>, i: nat)
    requires i + 1 == |data|
    ensures WordSum(data[i..]) == data[i] as int * 256
  {
    assert AfterFirstWord(data[i..]) == [];
  }

  lemma SumFits(start: int, data: seq<Byte>)
    requires |data| < TWO_16 && 0 <= start <= 6 * MAX_WORD
    ensures start + WordSum(data) < TWO_32
  {
    WordSumBound(data);
  }

  /** The word loop both checksums share: it never leaves 32 bits. */
  method SumInto(start: uint32, data: seq<Byte>) returns (sum: uint32)
    requires |data| < TWO_16
    requires start <= 6 * MAX_WORD
    ensures sum == start + WordSum(data)
  {
    sum := start;
    SumFits(start, data);
    var i: uint16 := 0;
    ghost var k := 0;
    assert data[i..] == data;
    while i + 1 < |data|
      invariant i == 2 * k <= |data|
      invariant sum + WordSum(data[i..]) == start + WordSum(data)
    {
      NextWord(data, i);
      sum := sum + (data[i] as int * 256 + data[i + 1]);
      i := i + 2;
      k := k + 1;
    }
    OddEnd(|data|, k);
    if |data| % 2 == 1 {
      LastByte(data, i);
      sum := sum + data[|data| - 1] as int * 256;
    }
  }

  lemma OddEnd(len: nat, k: nat)
    requires 2 * k <= len <= 2 * k + 1
    ensures len % 2 == 1 <==> len == 2 * k + 1
  {
  }

  /** The pseudo-header words of section 3.1 of RFC 793, before the segment itself. */
  function PseudoHeader(srcIp: uint32, dstIp: uint32, segLen: uint16): uint32 {
    srcIp / 0x1_0000 + srcIp % 0x1_0000 + dstIp / 0x1_0000 + dstIp % 0x1_0000 + 6 + segLen
  }

  /** tcp_checksum: the checksum of a segment behind its pseudo-header. */
  method TcpChecksum(srcIp: uint32, dstIp: uint32, seg: seq<Byte>) returns (r: uint16)
    requires |seg| < TWO_16
    ensures r == Complement(OnesSum(Norm(PseudoHeader(srcIp, dstIp, |seg|)), seg))
  {
    var sum := SumInto(PseudoHeader(srcIp, dstIp, |seg|), seg);
    r := FoldAndComplement(sum);
    OnesSumIsNorm(PseudoHeader(srcIp, dstIp, |seg|), seg);
  }

  // ----- what the checksum is for

  /** `data` with the checksum `c` stored big-endian at `off`. */
  function Store(data: seq<Byte>, off: nat, c: uint16): seq<Byte>
    requires off + 1 < |data|
  {
    data[off := c / 256][off + 1 := c % 256]
  }

  /**
   * A packet whose zeroed field receives the computed checksum sums to all
   * ones, so the receiver's own checksum of it is zero.
   */
  lemma StoredChecksumVerifies(init: nat, data: seq<Byte>, off: nat)
    requires off % 2 == 0 && off + 1 < |data|
    requires data[off] == 0 && data[off + 1] == 0
    ensures var c := Complement(OnesSum(Norm(init), data));
            Complement(OnesSum(Norm(init), Store(data, off, c))) == 0
  {
    var c := Complement(OnesSum(Norm(init), data));
    StoreAdds(data, off, c);
    GrownSumVerifies(init, data, Store(data, off, c), c);
  }

  lemma GrownSumVerifies(init: nat, data: seq<Byte>, stored: seq<Byte>, c: uint16)
    requires c == Complement(OnesSum(Norm(init), data)) && WordSum(stored) == WordSum(data) + c
    ensures Complement(OnesSum(Norm(init), stored)) == 0
  {
    OnesSumIsNorm(init, data);
    OnesSumIsNorm(init, stored);
    SumsToZero(init + WordSum(data), init + WordSum(stored), c, OnesSum(Norm(init), stored));
  }

  /** A sum that grows by the complement of its own remainder. */
  lemma SumsToZero(before: nat, after: nat, c: uint16, sum: uint16)
    requires c == Complement(Norm(before)) && after == before + c && sum == Norm(after)
    ensures Complement(sum) == 0
  {
    NormComplement(before);
  }

  lemma NormComplement(s: nat)
    ensures Complement(Norm(s + Complement(Norm(s)))) == 0
  {
  }

  lemma StoreAdds(data: seq<Byte>, off: nat, c: uint16)
    requires off % 2 == 0 && off + 1 < |data|
    requires data[off] == 0 && data[off + 1] == 0
    ensures WordSum(Store(data, off, c)) == WordSum(data) + c
  {
    var d := Store(data, off, c);
    WordSumSplit(data, off);
    WordSumSplit(d, off);
    assert d[..off] == data[..off];
    assert AfterFirstWord(d[off..]) == AfterFirstWord(data[off..]) == data[off + 2..];
  }

  // ----- where the code stores it

  const IP_HDR_LEN: int := 20
  const IP_MAX_PAYLOAD: int := 1480

  function BigEndian16(w: uint16): seq<Byte> {
    [w / 256, w % 256]
  }

  function BigEndian32(w: uint32): seq<Byte> {
    BigEndian16(w / 0x1_0000) + BigEndian16(w % 0x1_0000)
  }

  /** The 20-byte header ip_send builds, its checksum field (offset 10) still zero. */
  function IpHeader(totalLen: uint16, id: uint16, protocol: Byte, src: uint32, dst: uint32): (h: seq<Byte>)
    ensures |h| == IP_HDR_LEN && h[10] == 0 && h[11] == 0
  {
    [0x45, 0] + BigEndian16(totalLen) + BigEndian16(id) + [0x40, 0, 64, protocol, 0, 0]
      + BigEndian32(src) + BigEndian32(dst)
  }

  /** A big-endian field of a packet. */
  function Field16(p: seq<Byte>, at: nat): uint16
    requires at + 1 < |p|
  {
    p[at] as int * 256 + p[at + 1]
  }

  function Field32(p: seq<Byte>, at: nat): uint32
    requires at + 3 < |p|
  {
    p[at] as int * 0x100_0000 + p[at + 1] as int * 0x1_0000 + p[at + 2] as int * 0x100 + p[at + 3]
  }

  /**
   * The fields of section 3.1 of RFC 791: version 4, a header of five words, no
   * fragment and not to be fragmented, 64 hops, and the rest as given.
   */
  predicate IsIpPacket(p: seq<Byte>, totalLen: uint16, id: uint16, protocol: Byte, src: uint32, dst: uint32) {
    && |p| >= 20 && p[0] as int / 16 == 4 && p[0] as int % 16 * 4 == 20 && p[1] == 0
    && Field16(p, 2) == totalLen && Field16(p, 4) == id && Field16(p, 6) == 0x4000 && p[8] == 64
    && p[9] == protocol && Field32(p, 12) == src && Field32(p, 16) == dst
  }

  lemma HeaderReadsBack(totalLen: uint16, id: uint16, protocol: Byte, src: uint32, dst: uint32)
    ensures IsIpPacket(IpHeader(totalLen, id, protocol, src, dst), totalLen, id, protocol, src, dst)
  {
  }

  /** tcp_checksum starts from the sum of the pseudo-header: source, destination, zero, protocol 6, length. */
  lemma PseudoHeaderIsItsWords(srcIp: uint32, dstIp: uint32, segLen: uint16)
    ensures PseudoHeader(srcIp, dstIp, segLen) ==
            WordSum(BigEndian32(srcIp) + BigEndian32(dstIp) + [0, 6] + BigEndian16(segLen))
  {
    var p := BigEndian32(srcIp) + BigEndian32(dstIp) + [0, 6] + BigEndian16(segLen);
    assert WordSum(p[12..]) == 0;
    assert WordSum(p[10..]) == segLen + WordSum(p[12..]);
    assert WordSum(p[8..]) == 6 + WordSum(p[10..]);
    assert WordSum(p[6..]) == dstIp % 0x1_0000 + WordSum(p[8..]);
    assert WordSum(p[4..]) == dstIp / 0x1_0000 + WordSum(p[6..]);
    assert WordSum(p[2..]) == srcIp % 0x1_0000 + WordSum(p[4..]);
    assert p[0..] == p;
  }

  /**
   * ip_send up to the hand-over to the link layer: refuses a payload that is
   * too long, otherwise fills the static packet buffer.  A receiver's checksum
   * of the header is zero and the payload follows unchanged.
   */
  method IpSend(pkt: array<Byte>, payload: seq<Byte>, id: uint16, protocol: Byte, src: uint32, dst: uint32)
      returns (ok: bool)
    requires pkt.Length == IP_HDR_LEN + IP_MAX_PAYLOAD
    requires |payload| < TWO_16
    modifies pkt
    ensures ok <==> |payload| <= IP_MAX_PAYLOAD
    ensures !ok ==> pkt[..] == old(pkt[..])
    ensures ok ==> IsIpPacket(pkt[..IP_HDR_LEN], IP_HDR_LEN + |payload|, id, protocol, src, dst)
    ensures ok ==> Complement(OnesSum(0, pkt[..IP_HDR_LEN])) == 0
    ensures ok ==> pkt[IP_HDR_LEN..IP_HDR_LEN + |payload|] == payload
  {
    if |payload| > IP_MAX_PAYLOAD {
      return false;
    }
    var header := IpHeader(IP_HDR_LEN + |payload|, id, protocol, src, dst);
    CopyInto(pkt, 0, header);
    var csum := IpChecksum(header);
    pkt[10], pkt[11] := csum / 256, csum % 256;
    ghost var stored := Store(header, 10, csum);
    assert pkt[..IP_HDR_LEN] == stored;
    StoredChecksumVerifies(0, header, 10);
    CopyInto(pkt, IP_HDR_LEN, payload);
    assert pkt[..IP_HDR_LEN] == stored;
    HeaderReadsBack(IP_HDR_LEN + |payload|, id, protocol, src, dst);
    StoredKeepsFields(header, csum, IP_HDR_LEN + |payload|, id, protocol, src, dst);
    ok := true;
  }

  lemma StoredKeepsFields(h: seq<Byte>, csum: uint16, totalLen: uint16, id: uint16, protocol: Byte, src: uint32,
      dst: uint32)
    requires |h| == IP_HDR_LEN && IsIpPacket(h, totalLen, id, protocol, src, dst)
    ensures IsIpPacket(Store(h, 10, csum), totalLen, id, protocol, src, dst)
  {
  }

  method CopyInto(dst: array<Byte>, at: nat, src: seq<Byte>)
    requires at + |src| <= dst.Length
    modifies dst
    ensures dst[..] == old(dst[..at]) + src + old(dst[at + |src|..])
  {
    for i := 0 to |src|
      invariant dst[..at] == old(dst[..at])
      invariant dst[at..at + i] == src[..i]
      invariant dst[at + |src|..] == old(dst[at + |src|..])
    {
      dst[at + i] := src[i];
    }
    assert dst[..] == dst[..at] + dst[at..at + |src|] + dst[at + |src|..];
  }

  /**
   * icmp_handle: answers an echo request (type 8) with the same message, type
   * and code zero, and a checksum the requester verifies as zero.
   */
  method IcmpEchoReply(p: seq<Byte>, reply: array<Byte>) returns (answered: bool)
    requires reply.Length == IP_MAX_PAYLOAD
    modifies reply
    ensures answered <==> 8 <= |p| <= IP_MAX_PAYLOAD && p[0] == 8
    ensures !answered ==> reply[..] == old(reply[..])
    ensures answered ==> reply[0] == 0 && reply[1] == 0 && reply[4..|p|] == p[4..]
    ensures answered ==> Complement(OnesSum(0, reply[..|p|])) == 0
  {
    if |p| < 8 || p[0] != 8 || |p| > IP_MAX_PAYLOAD {
      return false;
    }
    CopyInto(reply, 0, p);
    reply[0], reply[1], reply[2], reply[3] := 0, 0, 0, 0;
    ghost var zeroed := reply[..|p|];
    var csum := IpChecksum(reply[..|p|]);
    reply[2], reply[3] := csum / 256, csum % 256;
    assert reply[..|p|] == Store(zeroed, 2, csum);
    StoredChecksumVerifies(0, zeroed, 2);
    assert zeroed[4..] == p[4..];
    answered := true;
  }

  /** The checksum part of tcp_send_segment: the field at offset 16 starts as zero. */
  lemma TcpSegmentVerifies(srcIp: uint32, dstIp: uint32, seg: seq<Byte>)
    requires 20 <= |seg| < TWO_16 && seg[16] == 0 && seg[17] == 0
    ensures var init := Norm(PseudoHeader(srcIp, dstIp, |seg|));
            var c := Complement(OnesSum(init, seg));
            Complement(OnesSum(init, Store(seg, 16, c))) == 0
  {
    StoredChecksumVerifies(PseudoHeader(srcIp, dstIp, |seg|), seg, 16);
  }
}
