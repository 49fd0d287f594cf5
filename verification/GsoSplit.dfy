/**
 * Cutting one large packet into segments: `gsoSplit` of wireguard-go/tun/offload_linux.go, lines 388-398 and 890-975.
 */
module GsoSplit {
  import opened Checksum
  import opened Words

  datatype GsoType = TcpV4 | TcpV6 | UdpL4

  datatype VirtioHdr = VirtioHdr(gsoType: GsoType, hdrLen: uint16, gsoSize: uint16, csumStart: uint16,
    csumOffset: uint16)

  const TCP_FLAGS_OFFSET := 13
  const IPPROTO_TCP: byte := 6
  const IPPROTO_UDP: byte := 17

  predicate IsTcp(hdr: VirtioHdr) {
    hdr.gsoType.TcpV4? || hdr.gsoType.TcpV6?
  }

  function Protocol(hdr: VirtioHdr): byte {
    if IsTcp(hdr) then IPPROTO_TCP else IPPROTO_UDP
  }

  /**
   * What the caller has checked of the packet (tun_linux.go, lines 403-446) and the kernel says of its checksum field.
   */
  predicate Splittable(b: seq<byte>, hdr: VirtioHdr, isV6: bool) {
    && |b| <= 0xffff
    && (if isV6 then hdr.csumStart >= 40 else hdr.csumStart >= 20) && hdr.csumStart % 2 == 0
    && (if IsTcp(hdr) then hdr.csumOffset == 16 && hdr.hdrLen >= hdr.csumStart + 20
        else hdr.csumOffset == 6 && hdr.hdrLen == hdr.csumStart + 8)
    && hdr.hdrLen <= |b|
  }

  /** `b` with `src` written over it from `at` on. */
  function Over(b: seq<byte>, at: nat, src: seq<byte>): (r: seq<byte>)
    requires at + |src| <= |b|
    ensures |r| == |b|
    ensures forall k {:trigger r[k]} :: 0 <= k < |r| ==> r[k] == if at <= k < at + |src| then src[k - at] else b[k]
  {
    b[..at] + src + b[at + |src|..]
  }

  function Get16(b: seq<byte>, at: nat): uint16
    requires at + 2 <= |b|
  {
    256 * ByteAt(b, at) + ByteAt(b, at + 1)
  }

  function Get32(b: seq<byte>, at: nat): (x: nat)
    requires at + 4 <= |b|
    ensures x < TWO32
  {
    0x1_0000 * Get16(b, at) + Get16(b, at + 2)
  }

  predicate SameExcept(a: seq<byte>, b: seq<byte>, from: nat, to: nat, skip: set<nat>)
    requires to <= |a| && to <= |b|
  {
    forall k: nat :: from <= k < to && k !in skip ==> a[k] == b[k]
  }

  function SrcAt(isV6: bool): nat {
    if isV6 then 8 else 12
  }

  function AddrLen(isV6: bool): nat {
    if isV6 then 16 else 4
  }

  /** The pseudo header's part of the transport sum. */
  function PseudoPart(pkt: seq<byte>, iphLen: nat, proto: byte, isV6: bool): nat
    requires SrcAt(isV6) + 2 * AddrLen(isV6) <= iphLen <= |pkt| <= 0xffff
  {
    var at, n := SrcAt(isV6), AddrLen(isV6);
    PseudoSum(proto, pkt[at..at + n], pkt[at + n..at + 2 * n], |pkt| - iphLen)
  }

  /** The sum the transport checksum is taken over, its own field included. */
  function TransportSum(pkt: seq<byte>, iphLen: nat, proto: byte, isV6: bool): nat
    requires SrcAt(isV6) + 2 * AddrLen(isV6) <= iphLen <= |pkt| <= 0xffff
  {
    PseudoPart(pkt, iphLen, proto, isV6) + WordSum(pkt[iphLen..])
  }

  /** A receiver accepts the transport checksum. */
  predicate Checks(pkt: seq<byte>, iphLen: nat, proto: byte, isV6: bool)
    requires SrcAt(isV6) + 2 * AddrLen(isV6) <= iphLen <= |pkt| <= 0xffff
  {
    Ones(TransportSum(pkt, iphLen, proto, isV6)) == 0xffff
  }

  /** The bytes the transport checksum of RFC 9293 and RFC 768 covers: the pseudo header, then the transport part. */
  function Covered(pkt: seq<byte>, iphLen: nat, proto: byte, isV6: bool): seq<byte>
    requires (if isV6 then 40 else 20) <= iphLen <= |pkt| <= 0xffff
  {
    var len := |pkt| - iphLen;
    (if isV6 then pkt[8..24] + pkt[24..40] else pkt[12..16] + pkt[16..20]) + [0, proto] + [len / 256, len % 256]
      + pkt[iphLen..]
  }

  /** That is the one's-complement sum of those bytes being all ones. */
  lemma ChecksIs(pkt: seq<byte>, iphLen: nat, proto: byte, isV6: bool)
    requires (if isV6 then 40 else 20) <= iphLen <= |pkt| <= 0xffff
    ensures Checks(pkt, iphLen, proto, isV6) <==> OnesSum(Covered(pkt, iphLen, proto, isV6), 0) == 0xffff
  {
    hide WordSum, OnesSum, Ones, PseudoSum;
    var at, n, len := SrcAt(isV6), AddrLen(isV6), |pkt| - iphLen;
    var header := pkt[at..at + n] + pkt[at + n..at + 2 * n] + [0, proto] + [len / 256, len % 256];
    PseudoBytes(proto, pkt[at..at + n], pkt[at + n..at + 2 * n], len);
    WordSumConcat(header, pkt[iphLen..]);
    OnesSumIs(Covered(pkt, iphLen, proto, isV6), 0);
    ZeroOnes();
  }

  lemma ZeroOnes()
    ensures Ones(0) == 0
  {
  }

  /** Lines 388-398. */
  method ChecksumValid(little: bool, pkt: seq<byte>, iphLen: nat, proto: byte, isV6: bool) returns (valid: bool)
    requires SrcAt(isV6) + 2 * AddrLen(isV6) <= iphLen <= |pkt| <= 0xffff
    ensures valid <==> Checks(pkt, iphLen, proto, isV6)
    ensures valid <==> OnesSum(Covered(pkt, iphLen, proto, isV6), 0) == 0xffff
  {
    hide OnesSum, Covered;
    ChecksIs(pkt, iphLen, proto, isV6);
    var at, n := SrcAt(isV6), AddrLen(isV6);
    var sum := PseudoHeaderChecksumNoFold(little, proto, pkt[at..at + n], pkt[at + n..at + 2 * n], |pkt| - iphLen);
    var folded := InternetChecksum(little, pkt[iphLen..], sum);
    SameOnes(sum, PseudoSum(proto, pkt[at..at + n], pkt[at + n..at + 2 * n], |pkt| - iphLen), WordSum(pkt[iphLen..]));
    valid := 0xffff - folded == 0;
  }

  /** The payload of segment `i`. */
  function Chunk(data: seq<byte>, size: nat, i: nat): seq<byte>
    requires size * i <= |data|
  {
    if size * i + size <= |data| then data[size * i..size * i + size] else data[size * i..]
  }

  /** FIN and PSH, the bits of values 1 and 8, out of a flags byte. */
  function ClearFinPsh(flags: byte): (r: byte) {
    flags - flags % 2 - 8 * ((flags / 8) % 2)
  }

  /** The two bits are clear, and the others are as they were. */
  lemma ClearsFinPsh(flags: byte)
    ensures var r := ClearFinPsh(flags);
      r % 2 == 0 && (r / 8) % 2 == 0 && r / 16 == flags / 16 && (r / 2) % 4 == (flags / 2) % 4
  {
    var high, psh, mid, fin := flags / 16, (flags / 8) % 2, (flags / 2) % 4, flags % 2;
    assert flags == 16 * high + 8 * psh + 2 * mid + fin;
    assert ClearFinPsh(flags) == 16 * high + 2 * mid;
    BitsOf(high, mid);
  }

  lemma BitsOf(high: nat, mid: nat)
    requires mid < 4
    ensures var r := 16 * high + 2 * mid;
      r % 2 == 0 && r / 2 == 8 * high + mid && (r / 8) % 2 == 0 && r / 16 == high && (r / 2) % 4 == mid
  {
    assert 16 * high + 2 * mid == 8 * (2 * high) + 2 * mid;
    assert (16 * high + 2 * mid) / 8 == 2 * high;
  }

  /** The network header of segment `i` of `b`. */
  predicate NetworkOk(b: seq<byte>, hdr: VirtioHdr, isV6: bool, i: nat, seg: seq<byte>)
    requires Splittable(b, hdr, isV6) && hdr.hdrLen <= |seg| <= 0xffff
  {
    if isV6 then
      && Get16(seg, 4) == |seg| - hdr.csumStart
      && SameExcept(seg, b, 0, hdr.csumStart, {4, 5})
    else
      && Get16(seg, 2) == |seg|
      && Get16(seg, 4) == (Get16(b, 4) + i) % 0x1_0000
      && Ones(WordSum(seg[..hdr.csumStart])) == 0xffff
      && SameExcept(seg, b, 0, hdr.csumStart, {2, 3, 4, 5, 10, 11})
  }

  /** The payload of segment `i` reaches the end of the packet. */
  predicate LastOf(b: seq<byte>, hdr: VirtioHdr, i: nat) {
    hdr.hdrLen + hdr.gsoSize * i + hdr.gsoSize >= |b|
  }

  /** The first sequence number plus the bytes before the segment. */
  function SegmentSeq(b: seq<byte>, hdr: VirtioHdr, i: nat): (s: nat)
    requires hdr.csumStart + 8 <= |b|
    ensures s < TWO32
  {
    (Get32(b, hdr.csumStart + 4) + hdr.gsoSize * i) % TWO32
  }

  /** The transport header of segment `i` of `b`. */
  predicate TransportOk(b: seq<byte>, hdr: VirtioHdr, isV6: bool, i: nat, seg: seq<byte>)
    requires Splittable(b, hdr, isV6) && hdr.hdrLen <= |seg| <= 0xffff
  {
    var t := hdr.csumStart;
    if IsTcp(hdr) then
      && Get32(seg, t + 4) == SegmentSeq(b, hdr, i)
      && seg[t + TCP_FLAGS_OFFSET] == (if LastOf(b, hdr, i) then b[t + TCP_FLAGS_OFFSET]
        else ClearFinPsh(b[t + TCP_FLAGS_OFFSET]))
      && SameExcept(seg, b, t, hdr.hdrLen, {t + 4, t + 5, t + 6, t + 7, t + 13, t + 16, t + 17})
    else
      && Get16(seg, t + 4) == |seg| - t
      && SameExcept(seg, b, t, t + 4, {})
  }

  /** `seg` is segment `i` of `b`: its headers, its payload, and checksums a receiver accepts. */
  predicate SegmentOk(b: seq<byte>, hdr: VirtioHdr, isV6: bool, i: nat, seg: seq<byte>)
    requires Splittable(b, hdr, isV6) && hdr.gsoSize * i <= |b| - hdr.hdrLen
  {
    // Comparing with `true` makes this one fact to the verifier; else it proves conjunct by conjunct at every use.
    (hdr.hdrLen <= |seg| <= 0xffff
    && seg[hdr.hdrLen..] == Chunk(b[hdr.hdrLen..], hdr.gsoSize, i)
    && NetworkOk(b, hdr, isV6, i, seg)
    && TransportOk(b, hdr, isV6, i, seg)
    && Checks(seg, hdr.csumStart, Protocol(hdr), isV6)) == true
  }

  /** IPv4 segments of one packet have different identifications, as far as sixteen bits go. */
  lemma IdentificationsDiffer(b: seq<byte>, hdr: VirtioHdr, i: nat, j: nat, seg: seq<byte>, seg': seq<byte>)
    requires Splittable(b, hdr, false) && hdr.gsoSize * i <= |b| - hdr.hdrLen && hdr.gsoSize * j <= |b| - hdr.hdrLen
    requires SegmentOk(b, hdr, false, i, seg) && SegmentOk(b, hdr, false, j, seg') && i < j < i + 0x1_0000
    ensures 6 <= |seg| && 6 <= |seg'| && Get16(seg, 4) != Get16(seg', 4)
  {
    hide Chunk, Checks, TransportOk, Get16, WordSum, Ones;
    var id := Get16(b, 4);
    assert Get16(seg, 4) == (id + i) % 0x1_0000 && Get16(seg', 4) == (id + j) % 0x1_0000;
    if (id + i) % 0x1_0000 == (id + j) % 0x1_0000 {
      SameRemainder(id + i, id + j);
    }
  }

  lemma SameRemainder(x: nat, y: nat)
    requires x < y && x % 0x1_0000 == y % 0x1_0000
    ensures y >= x + 0x1_0000
  {
  }

  /** `copy` of `src` to `at` in the `n` bytes of `out` from `o` on. */
  method Put(out: array<byte>, o: nat, n: nat, at: nat, src: seq<byte>)
    requires at + |src| <= n && o + n <= out.Length
    modifies out
    ensures out[o..o + n] == Over(old(out[o..o + n]), at, src)
    ensures out[..o] == old(out[..o]) && out[o + n..] == old(out[o + n..])
  {
    for i := 0 to |src|
      invariant forall k ::
        0 <= k < out.Length ==> out[k] == if o + at <= k < o + at + i then src[k - o - at] else old(out[k])
    {
      out[o + at + i] := src[i];
    }
  }

  function BigBytes32(x: nat): (b: seq<byte>)
    requires x < TWO32
    ensures |b| == 4 && Get32(b, 0) == x
  {
    BigBytes(x / 0x1_0000) + BigBytes(x % 0x1_0000)
  }

  lemma OverGet16(b: seq<byte>, at: nat, x: uint16)
    requires at + 2 <= |b|
    ensures Get16(Over(b, at, BigBytes(x)), at) == x
  {
  }

  lemma OverGet32(b: seq<byte>, at: nat, x: nat)
    requires at + 4 <= |b| && x < TWO32
    ensures Get32(Over(b, at, BigBytes32(x)), at) == x
  {
    var r, s := Over(b, at, BigBytes32(x)), BigBytes32(x);
    assert r[at] == s[0] && r[at + 1] == s[1] && r[at + 2] == s[2] && r[at + 3] == s[3];
  }

  /** Completing the IPv4 header checksum over the first `n` bytes. */
  lemma HeaderSum(b: seq<byte>, n: nat)
    requires 12 <= n <= |b| && n % 2 == 0 && b[10] == 0 && b[11] == 0
    ensures Ones(WordSum(Over(b, 10, BigBytes(0xffff - Ones(WordSum(b[..n]))))[..n])) == 0xffff
  {
    var h := b[..n];
    assert Put16(h, 10, 0) == h;
    StoredChecksum(h, 10, 0);
    assert Over(b, 10, BigBytes(0xffff - Ones(WordSum(h))))[..n] == Put16(h, 10, 0xffff - Ones(WordSum(h)));
  }

  /** The IPv4 header of a segment, once its identification is set. */
  lemma NetworkV4(b: seq<byte>, hdr: VirtioHdr, i: nat, s2: seq<byte>, s: seq<byte>)
    requires Splittable(b, hdr, false) && hdr.hdrLen <= |s2| <= 0xffff && b[10] == 0 && b[11] == 0
    requires Get16(s2, 4) == (Get16(b, 4) + i) % 0x1_0000 && SameExcept(s2, b, 0, hdr.csumStart, {4, 5})
    requires var s3 := Over(s2, 2, BigBytes(|s2|));
      s == Over(s3, 10, BigBytes(0xffff - Ones(WordSum(s3[..hdr.csumStart]))))
    ensures NetworkOk(b, hdr, false, i, s)
  {
    var s3 := Over(s2, 2, BigBytes(|s2|));
    HeaderSum(s3, hdr.csumStart);
    OverGet16(s2, 2, |s2|);
    assert Get16(s3, 4) == Get16(s2, 4);
  }

  method PutId(seg0: seq<byte>, b: seq<byte>, iphLen: nat, i: nat) returns (seg: seq<byte>)
    requires 20 <= iphLen <= |b| && iphLen <= |seg0|
    ensures |seg| == |seg0| && Get16(seg, 4) == (Get16(b, 4) + i) % 0x1_0000 && SameExcept(seg, b, 0, iphLen, {4, 5})
  {
    seg := Over(seg0, 0, b[..iphLen]);
    if i > 0 {
      var id := (Get16(seg, 4) + i) % 0x1_0000;
      OverGet16(seg, 4, id);
      seg := Over(seg, 4, BigBytes(id));
    }
  }

  method WriteV4(little: bool, seg0: seq<byte>, b: seq<byte>, hdr: VirtioHdr, i: nat) returns (seg: seq<byte>)
    requires Splittable(b, hdr, false) && hdr.hdrLen <= |seg0| <= 0xffff && b[10] == 0 && b[11] == 0
    ensures |seg| == |seg0| && NetworkOk(b, hdr, false, i, seg)
  {
    var named := PutId(seg0, b, hdr.csumStart, i);
    seg := Over(named, 2, BigBytes(|named|));
    var sum := InternetChecksum(little, seg[..hdr.csumStart], 0);
    seg := Over(seg, 10, BigBytes(0xffff - sum));
    NetworkV4(b, hdr, i, named, seg);
  }

  lemma NetworkV6(b: seq<byte>, hdr: VirtioHdr, i: nat, s1: seq<byte>, s: seq<byte>)
    requires Splittable(b, hdr, true) && hdr.hdrLen <= |s1| <= 0xffff && SameExcept(s1, b, 0, hdr.csumStart, {})
    requires s == Over(s1, 4, BigBytes(|s1| - hdr.csumStart))
    ensures NetworkOk(b, hdr, true, i, s)
  {
    OverGet16(s1, 4, |s1| - hdr.csumStart);
  }

  /** Lines 927-943: the network header, in the first bytes of the segment. */
  method WriteNetwork(little: bool, seg0: seq<byte>, b: seq<byte>, hdr: VirtioHdr, isV6: bool, i: nat)
    returns (seg: seq<byte>)
    requires Splittable(b, hdr, isV6) && hdr.hdrLen <= |seg0| <= 0xffff && (!isV6 ==> b[10] == 0 && b[11] == 0)
    ensures |seg| == |seg0| && NetworkOk(b, hdr, isV6, i, seg)
  {
    if !isV6 {
      seg := WriteV4(little, seg0, b, hdr, i);
    } else {
      var copied := Over(seg0, 0, b[..hdr.csumStart]);
      seg := Over(copied, 4, BigBytes(|seg0| - hdr.csumStart));
      NetworkV6(b, hdr, i, copied, seg);
    }
  }

  /** Everything of the transport header but its checksum. */
  predicate TransportBare(b: seq<byte>, hdr: VirtioHdr, isV6: bool, i: nat, seg: seq<byte>)
    requires Splittable(b, hdr, isV6) && hdr.hdrLen <= |seg| <= 0xffff
  {
    var at := hdr.csumStart + hdr.csumOffset;
    TransportOk(b, hdr, isV6, i, seg) && seg[at] == 0 && seg[at + 1] == 0
  }

  lemma SeqBytes(s5: seq<byte>, at: nat, q: nat)
    requires at + 4 <= |s5| && q < TWO32
    ensures var s := Over(s5, at, BigBytes32(q));
            Get32(s, at) == q && SameExcept(s, s5, 0, |s|, {at, at + 1, at + 2, at + 3})
  {
    OverGet32(s5, at, q);
  }

  lemma FlagByte(s6: seq<byte>, t: nat, flags: byte)
    requires t + 14 <= |s6|
    ensures var s := Over(s6, t + 13, [flags]);
            s[t + 13] == flags && Get32(s, t + 4) == Get32(s6, t + 4) && SameExcept(s, s6, 0, |s|, {t + 13})
  {
  }

  /** Lines 951-956. */
  method PutTcp(seg0: seq<byte>, t: nat, q: nat, last: bool) returns (seg: seq<byte>)
    requires t + 20 <= |seg0| && q < TWO32
    ensures |seg| == |seg0| && Get32(seg, t + 4) == q
    ensures seg[t + 13] == if last then seg0[t + 13] else ClearFinPsh(seg0[t + 13])
    ensures SameExcept(seg, seg0, 0, |seg|, {t + 4, t + 5, t + 6, t + 7, t + 13})
  {
    SeqBytes(seg0, t + 4, q);
    seg := Over(seg0, t + 4, BigBytes32(q));
    if !last {
      var flags := ClearFinPsh(seg[t + TCP_FLAGS_OFFSET]);
      FlagByte(seg, t, flags);
      seg := Over(seg, t + TCP_FLAGS_OFFSET, [flags]);
    }
  }

  lemma TcpHeader(b: seq<byte>, hdr: VirtioHdr, isV6: bool, i: nat, s5: seq<byte>, s: seq<byte>)
    requires Splittable(b, hdr, isV6) && IsTcp(hdr) && hdr.hdrLen <= |s5| == |s| <= 0xffff
    requires b[hdr.csumStart + 16] == 0 && b[hdr.csumStart + 17] == 0
      && SameExcept(s5, b, hdr.csumStart, hdr.hdrLen, {})
    requires Get32(s, hdr.csumStart + 4) == SegmentSeq(b, hdr, i)
    requires s[hdr.csumStart + 13] == if LastOf(b, hdr, i) then b[hdr.csumStart + 13]
      else ClearFinPsh(b[hdr.csumStart + 13])
    requires var t := hdr.csumStart; SameExcept(s, s5, 0, |s|, {t + 4, t + 5, t + 6, t + 7, t + 13})
    ensures TransportBare(b, hdr, isV6, i, s)
  {
    hide SegmentSeq, LastOf, ClearFinPsh, Get32;
  }

  /** The payload of segment `i` ends here: `nextSegmentEnd`. */
  function SegmentEnd(b: seq<byte>, hdr: VirtioHdr, i: nat): nat {
    if LastOf(b, hdr, i) then |b| else hdr.hdrLen + hdr.gsoSize * i + hdr.gsoSize
  }

  lemma Fits16(x: nat)
    requires x < 0x1_0000
    ensures x % 0x1_0000 == x
  {
  }

  lemma Product16(g: nat, i: nat)
    requires g * i < 0x1_0000
    ensures (g * (i % 0x1_0000)) % 0x1_0000 == g * i
  {
    Fits16(g * i);
    if g > 0 {
      assert i <= g * i;
      Fits16(i);
    } else {
      assert g * (i % 0x1_0000) == 0;
    }
  }

  /** Line 950: the product is taken in 16 bits, which is enough for a packet. */
  method TcpSeq(b: seq<byte>, hdr: VirtioHdr, i: nat) returns (tcpSeq: nat)
    requires hdr.csumStart + 8 <= |b| && hdr.gsoSize * i < 0x1_0000
    ensures tcpSeq == SegmentSeq(b, hdr, i)
  {
    hide Get32;
    Product16(hdr.gsoSize, i);
    var product := (hdr.gsoSize * (i % 0x1_0000)) % 0x1_0000;
    tcpSeq := (Get32(b, hdr.csumStart + 4) + product) % TWO32;
  }

  method WriteTcp(seg0: seq<byte>, b: seq<byte>, hdr: VirtioHdr, ghost isV6: bool, i: nat, last: bool)
    returns (seg: seq<byte>)
    requires Splittable(b, hdr, isV6) && IsTcp(hdr) && hdr.hdrLen <= |seg0| <= 0xffff
    requires b[hdr.csumStart + 16] == 0 && b[hdr.csumStart + 17] == 0
    requires hdr.gsoSize * i < 0x1_0000 && (last <==> LastOf(b, hdr, i))
    requires SameExcept(seg0, b, hdr.csumStart, hdr.hdrLen, {})
    ensures |seg| == |seg0| && TransportBare(b, hdr, isV6, i, seg) && SameExcept(seg, seg0, 0, hdr.csumStart, {})
  {
    var tcpSeq := TcpSeq(b, hdr, i);
    seg := PutTcp(seg0, hdr.csumStart, tcpSeq, last);
    TcpHeader(b, hdr, isV6, i, seg0, seg);
  }

  lemma UdpHeader(b: seq<byte>, hdr: VirtioHdr, isV6: bool, i: nat, s5: seq<byte>, s: seq<byte>)
    requires Splittable(b, hdr, isV6) && !IsTcp(hdr) && hdr.hdrLen <= |s5| <= 0xffff
    requires b[hdr.csumStart + 6] == 0 && b[hdr.csumStart + 7] == 0 && SameExcept(s5, b, hdr.csumStart, hdr.hdrLen, {})
    requires s == Over(s5, hdr.csumStart + 4, BigBytes(|s5| - hdr.csumStart))
    ensures TransportBare(b, hdr, isV6, i, s) && SameExcept(s, s5, 0, hdr.csumStart, {})
  {
    OverGet16(s5, hdr.csumStart + 4, |s5| - hdr.csumStart);
  }

  /** Lines 945-960: the transport header. */
  method WriteTransport(seg0: seq<byte>, b: seq<byte>, hdr: VirtioHdr, ghost isV6: bool, i: nat, last: bool)
    returns (seg: seq<byte>)
    requires Splittable(b, hdr, isV6) && hdr.hdrLen <= |seg0| <= 0xffff
    requires var at := hdr.csumStart + hdr.csumOffset; b[at] == 0 && b[at + 1] == 0
    requires hdr.gsoSize * i < 0x1_0000 && (last <==> LastOf(b, hdr, i))
    ensures |seg| == |seg0| && TransportBare(b, hdr, isV6, i, seg) && SameExcept(seg, seg0, 0, hdr.csumStart, {})
  {
    var copied := Over(seg0, hdr.csumStart, b[hdr.csumStart..hdr.hdrLen]);
    if IsTcp(hdr) {
      seg := WriteTcp(copied, b, hdr, isV6, i, last);
    } else {
      var len := |seg0| - hdr.hdrLen + (hdr.hdrLen - hdr.csumStart);
      seg := Over(copied, hdr.csumStart + 4, BigBytes(len));
      UdpHeader(b, hdr, isV6, i, copied, seg);
    }
  }

  lemma PseudoKept(s: seq<byte>, s': seq<byte>, iphLen: nat, proto: byte, isV6: bool)
    requires SrcAt(isV6) + 2 * AddrLen(isV6) <= iphLen <= |s| == |s'| <= 0xffff && SameExcept(s', s, 0, iphLen, {})
    ensures PseudoPart(s', iphLen, proto, isV6) == PseudoPart(s, iphLen, proto, isV6)
  {
    var at, n := SrcAt(isV6), AddrLen(isV6);
    assert s'[at..at + n] == s[at..at + n] && s'[at + n..at + 2 * n] == s[at + n..at + 2 * n];
  }

  /** Completing the transport checksum. */
  lemma TransportSumStored(s: seq<byte>, iphLen: nat, proto: byte, isV6: bool, at: nat, s': seq<byte>)
    requires SrcAt(isV6) + 2 * AddrLen(isV6) <= iphLen && iphLen + at + 2 <= |s| <= 0xffff && at % 2 == 0
    requires s[iphLen + at] == 0 && s[iphLen + at + 1] == 0
    requires s' == Over(s, iphLen + at, BigBytes(0xffff - Ones(TransportSum(s, iphLen, proto, isV6))))
    ensures Checks(s', iphLen, proto, isV6)
  {
    hide WordSum, Ones, PseudoPart, Put16, BigBytes;
    TailPut(s, iphLen, at, 0xffff - Ones(TransportSum(s, iphLen, proto, isV6)));
    StoredChecksum(s[iphLen..], at, PseudoPart(s, iphLen, proto, isV6));
    PseudoKept(s, s', iphLen, proto, isV6);
  }

  lemma TailPut(s: seq<byte>, n: nat, at: nat, x: uint16)
    requires n + at + 2 <= |s| && s[n + at] == 0 && s[n + at + 1] == 0
    ensures Put16(s[n..], at, 0) == s[n..]
    ensures Over(s, n + at, BigBytes(x))[n..] == Put16(s[n..], at, x)
  {
  }

  lemma TransportKept(b: seq<byte>, hdr: VirtioHdr, isV6: bool, i: nat, s: seq<byte>, s': seq<byte>)
    requires Splittable(b, hdr, isV6) && hdr.hdrLen <= |s| == |s'| <= 0xffff && TransportOk(b, hdr, isV6, i, s)
    requires var at := hdr.csumStart + hdr.csumOffset; SameExcept(s', s, hdr.csumStart, hdr.hdrLen, {at, at + 1})
    ensures TransportOk(b, hdr, isV6, i, s')
  {
  }

  lemma NetworkKept(b: seq<byte>, hdr: VirtioHdr, isV6: bool, i: nat, s: seq<byte>, s': seq<byte>)
    requires Splittable(b, hdr, isV6) && hdr.hdrLen <= |s| == |s'| <= 0xffff && NetworkOk(b, hdr, isV6, i, s)
    requires SameExcept(s', s, 0, hdr.csumStart, {})
    ensures NetworkOk(b, hdr, isV6, i, s')
  {
    assert s'[..hdr.csumStart] == s[..hdr.csumStart];
  }

  /** Everything of the headers but the transport checksum, which is still zero. */
  predicate Headed(b: seq<byte>, hdr: VirtioHdr, isV6: bool, i: nat, seg: seq<byte>)
    requires Splittable(b, hdr, isV6) && hdr.hdrLen <= |seg| <= 0xffff
  {
    (NetworkOk(b, hdr, isV6, i, seg) && TransportBare(b, hdr, isV6, i, seg)) == true
  }

  lemma HeadedAfter(b: seq<byte>, hdr: VirtioHdr, isV6: bool, i: nat, s: seq<byte>, s': seq<byte>)
    requires Splittable(b, hdr, isV6) && hdr.hdrLen <= |s| == |s'| <= 0xffff
    requires NetworkOk(b, hdr, isV6, i, s) && TransportBare(b, hdr, isV6, i, s')
      && SameExcept(s', s, 0, hdr.csumStart, {})
    ensures Headed(b, hdr, isV6, i, s')
  {
    NetworkKept(b, hdr, isV6, i, s, s');
  }

  lemma HeadedKept(b: seq<byte>, hdr: VirtioHdr, isV6: bool, i: nat, s: seq<byte>, s': seq<byte>)
    requires Splittable(b, hdr, isV6) && hdr.hdrLen <= |s| == |s'| <= 0xffff && Headed(b, hdr, isV6, i, s)
    requires SameExcept(s', s, 0, hdr.hdrLen, {})
    ensures Headed(b, hdr, isV6, i, s')
  {
    NetworkKept(b, hdr, isV6, i, s, s');
    TransportKept(b, hdr, isV6, i, s, s');
    assert s'[hdr.csumStart + hdr.csumOffset] == s[hdr.csumStart + hdr.csumOffset];
    assert s'[hdr.csumStart + hdr.csumOffset + 1] == s[hdr.csumStart + hdr.csumOffset + 1];
  }

  lemma HeadedDone(b: seq<byte>, hdr: VirtioHdr, isV6: bool, i: nat, s: seq<byte>, s': seq<byte>)
    requires Splittable(b, hdr, isV6) && hdr.hdrLen <= |s| <= 0xffff && Headed(b, hdr, isV6, i, s)
    requires s' == Over(s, hdr.csumStart + hdr.csumOffset,
      BigBytes(0xffff - Ones(TransportSum(s, hdr.csumStart, Protocol(hdr), isV6))))
    ensures NetworkOk(b, hdr, isV6, i, s') && TransportOk(b, hdr, isV6, i, s')
    ensures Checks(s', hdr.csumStart, Protocol(hdr), isV6) && s'[hdr.hdrLen..] == s[hdr.hdrLen..]
  {
    hide NetworkOk, TransportOk, Checks, TransportSum;
    assert Checks(s', hdr.csumStart, Protocol(hdr), isV6) by {
      TransportSumStored(s, hdr.csumStart, Protocol(hdr), isV6, hdr.csumOffset, s');
    }
    assert TransportOk(b, hdr, isV6, i, s') by {
      TransportKept(b, hdr, isV6, i, s, s');
    }
    assert NetworkOk(b, hdr, isV6, i, s') by {
      NetworkKept(b, hdr, isV6, i, s, s');
    }
  }

  /** A segment's addresses are the packet's. */
  lemma AddressesKept(b: seq<byte>, hdr: VirtioHdr, isV6: bool, i: nat, seg: seq<byte>)
    requires Splittable(b, hdr, isV6) && hdr.hdrLen <= |seg| <= 0xffff && Headed(b, hdr, isV6, i, seg)
    ensures var at, n := SrcAt(isV6), AddrLen(isV6);
            PseudoPart(seg, hdr.csumStart, Protocol(hdr), isV6) ==
            PseudoSum(Protocol(hdr), b[at..at + n], b[at + n..at + 2 * n], |seg| - hdr.csumStart)
  {
    var at, n := SrcAt(isV6), AddrLen(isV6);
    assert seg[at..at + n] == b[at..at + n] && seg[at + n..at + 2 * n] == b[at + n..at + 2 * n];
  }

  /** Lines 965-969. */
  method SegmentChecksum(little: bool, seg: seq<byte>, b: seq<byte>, hdr: VirtioHdr, isV6: bool, ghost i: nat)
    returns (sum: uint16)
    requires Splittable(b, hdr, isV6) && hdr.hdrLen <= |seg| <= 0xffff && Headed(b, hdr, isV6, i, seg)
    ensures sum == Ones(TransportSum(seg, hdr.csumStart, Protocol(hdr), isV6))
  {
    var at, n, t := SrcAt(isV6), AddrLen(isV6), hdr.csumStart;
    AddressesKept(b, hdr, isV6, i, seg);
    var len := hdr.hdrLen - t + (|seg| - hdr.hdrLen);
    var pseudo := PseudoHeaderChecksumNoFold(little, Protocol(hdr), b[at..at + n], b[at + n..at + 2 * n], len);
    sum := InternetChecksum(little, seg[t..], pseudo);
    SameOnes(pseudo, PseudoPart(seg, t, Protocol(hdr), isV6), WordSum(seg[t..]));
  }

  /** Segment `i` takes its payload from these bytes of the packet. */
  predicate Window(b: seq<byte>, hdr: VirtioHdr, i: nat, from: nat, end: nat) {
    (from == hdr.hdrLen + hdr.gsoSize * i && from < |b| && end == SegmentEnd(b, hdr, i)) == true
  }

  lemma WindowIs(b: seq<byte>, hdr: VirtioHdr, isV6: bool, i: nat, from: nat, end: nat)
    requires Splittable(b, hdr, isV6) && Window(b, hdr, i, from, end)
    ensures hdr.hdrLen <= from <= end <= |b| && (end == |b| <==> LastOf(b, hdr, i)) && hdr.gsoSize * i < 0x1_0000
    ensures hdr.gsoSize * i <= |b| - hdr.hdrLen && Chunk(b[hdr.hdrLen..], hdr.gsoSize, i) == b[from..end]
  {
    WindowChunk(b, hdr.hdrLen, hdr.gsoSize, i, hdr.gsoSize * i, from, end);
  }

  lemma WindowChunk(b: seq<byte>, h: nat, g: nat, i: nat, p: nat, from: nat, end: nat)
    requires p == g * i && from == h + p && from < |b| && end == if from + g >= |b| then |b| else from + g
    ensures p <= |b| - h && Chunk(b[h..], g, i) == b[from..end]
  {
    SlicesOf(b, h, p, g);
    assert h + p + g == |b| ==> b[h..][p..p + g] == b[h..][p..];
  }

  lemma SlicesOf(b: seq<byte>, h: nat, p: nat, n: nat)
    requires h + p <= |b|
    ensures b[h..][p..] == b[h + p..] == b[h + p..|b|]
    ensures h + p + n <= |b| ==> b[h..][p..p + n] == b[h + p..h + p + n]
  {
  }

  /** The checksum fields of the packet are clear. */
  predicate Cleared(b: seq<byte>, hdr: VirtioHdr, isV6: bool) {
    var at := hdr.csumStart + hdr.csumOffset;
    |b| >= 20 && at + 2 <= |b| && b[at] == 0 && b[at + 1] == 0 && (!isV6 ==> b[10] == 0 && b[11] == 0)
  }

  /** Lines 927-960. */
  method WriteHeaders(little: bool, stale: seq<byte>, b: seq<byte>, hdr: VirtioHdr, isV6: bool, i: nat, from: nat,
                      end: nat) returns (seg: seq<byte>)
    requires Splittable(b, hdr, isV6) && hdr.hdrLen <= |stale| <= 0xffff && Cleared(b, hdr, isV6)
    requires Window(b, hdr, i, from, end)
    ensures |seg| == |stale| && Headed(b, hdr, isV6, i, seg)
  {
    WindowIs(b, hdr, isV6, i, from, end);
    var net := WriteNetwork(little, stale, b, hdr, isV6, i);
    seg := WriteTransport(net, b, hdr, isV6, i, end == |b|);
    HeadedAfter(b, hdr, isV6, i, net, seg);
  }

  /** Line 963. */
  method FillPayload(headed: seq<byte>, b: seq<byte>, hdr: VirtioHdr, ghost isV6: bool, ghost i: nat,
                     payload: seq<byte>) returns (seg: seq<byte>)
    requires Splittable(b, hdr, isV6) && hdr.hdrLen <= |headed| <= 0xffff && |headed| == hdr.hdrLen + |payload|
    requires Headed(b, hdr, isV6, i, headed)
    ensures |seg| == |headed| && Headed(b, hdr, isV6, i, seg) && seg[hdr.hdrLen..] == payload
  {
    seg := Over(headed, hdr.hdrLen, payload);
    HeadedKept(b, hdr, isV6, i, headed, seg);
  }

  /** Lines 965-970. */
  method WriteChecksum(little: bool, filled: seq<byte>, b: seq<byte>, hdr: VirtioHdr, isV6: bool, ghost i: nat)
    returns (seg: seq<byte>)
    requires Splittable(b, hdr, isV6) && hdr.hdrLen <= |filled| <= 0xffff && Headed(b, hdr, isV6, i, filled)
    requires hdr.gsoSize * i <= |b| - hdr.hdrLen && filled[hdr.hdrLen..] == Chunk(b[hdr.hdrLen..], hdr.gsoSize, i)
    ensures |seg| == |filled| && SegmentOk(b, hdr, isV6, i, seg)
  {
    var sum := SegmentChecksum(little, filled, b, hdr, isV6, i);
    seg := Over(filled, hdr.csumStart + hdr.csumOffset, BigBytes(0xffff - sum));
    HeadedDone(b, hdr, isV6, i, filled, seg);
  }

  /** Lines 918-970: one segment, on top of whatever its buffer held. */
  method WriteSegment(little: bool, stale: seq<byte>, b: seq<byte>, hdr: VirtioHdr, isV6: bool, i: nat, from: nat,
                      end: nat) returns (seg: seq<byte>)
    requires Splittable(b, hdr, isV6) && Cleared(b, hdr, isV6) && Window(b, hdr, i, from, end)
    requires from <= end && |stale| == hdr.hdrLen + (end - from)
    ensures |seg| == |stale| && hdr.gsoSize * i <= |b| - hdr.hdrLen && SegmentOk(b, hdr, isV6, i, seg)
  {
    WindowIs(b, hdr, isV6, i, from, end);
    var headed := WriteHeaders(little, stale, b, hdr, isV6, i, from, end);
    var filled := FillPayload(headed, b, hdr, isV6, i, b[from..end]);
    seg := WriteChecksum(little, filled, b, hdr, isV6, i);
  }

  /** The packet with its checksum fields cleared. */
  function ClearSums(b: seq<byte>, hdr: VirtioHdr, isV6: bool): (r: seq<byte>)
    requires Splittable(b, hdr, isV6)
    ensures Splittable(r, hdr, isV6) && Cleared(r, hdr, isV6) && r[hdr.hdrLen..] == b[hdr.hdrLen..]
  {
    var c := if isV6 then b else Over(b, 10, [0, 0]);
    var r := Over(c, hdr.csumStart + hdr.csumOffset, [0, 0]);
    assert forall k :: hdr.hdrLen <= k < |b| ==> r[k] == b[k];
    r
  }

  method ClearInput(inp: array<byte>, hdr: VirtioHdr, isV6: bool)
    requires Splittable(inp[..], hdr, isV6)
    modifies inp
    ensures inp[..] == ClearSums(old(inp[..]), hdr, isV6)
  {
    if !isV6 {
      inp[10], inp[11] := 0, 0;
    }
    assert inp[..] == if isV6 then old(inp[..]) else Over(old(inp[..]), 10, [0, 0]);
    var at := hdr.csumStart + hdr.csumOffset;
    inp[at], inp[at + 1] := 0, 0;
  }

  /** Where the payload of segment `i` starts. */
  function Start(hdr: VirtioHdr, i: nat): (s: nat)
    ensures s >= hdr.hdrLen
  {
    if i == 0 then hdr.hdrLen else Start(hdr, i - 1) + hdr.gsoSize
  }

  lemma {:induction false} StartIs(hdr: VirtioHdr, i: nat)
    ensures Start(hdr, i) == hdr.hdrLen + hdr.gsoSize * i
  {
    if i > 0 {
      StartIs(hdr, i - 1);
      assert hdr.gsoSize * i == hdr.gsoSize * (i - 1) + hdr.gsoSize;
    }
  }

  lemma {:induction false} StartGrows(hdr: VirtioHdr, i: nat, j: nat)
    requires i <= j
    ensures Start(hdr, i) <= Start(hdr, j)
  {
    if i < j {
      StartGrows(hdr, i, j - 1);
    }
  }

  /** `n` segments hold the payload, and no fewer. */
  predicate Enough(b: seq<byte>, hdr: VirtioHdr, n: nat) {
    Start(hdr, n) >= |b| && (n > 0 ==> Start(hdr, n - 1) < |b|)
  }

  /** The `n` bytes of the buffer from `o` on are segment `i`. */
  predicate Holds(out: array<byte>, o: nat, n: nat, b: seq<byte>, hdr: VirtioHdr, isV6: bool, i: nat)
    requires Splittable(b, hdr, isV6)
    reads out
  {
    (o + n <= out.Length && hdr.gsoSize * i <= |b| - hdr.hdrLen && SegmentOk(b, hdr, isV6, i, out[o..o + n])) == true
  }

  /** A buffer has room, behind its first `o` bytes, for any segment of a packet of length `n`. */
  predicate Room(length: nat, o: nat, n: nat, hdr: VirtioHdr) {
    length >= o + n || length >= o + hdr.hdrLen + hdr.gsoSize
  }

  /** Lines 918-970, into the buffer. */
  method Emit(little: bool, out: array<byte>, o: nat, b: seq<byte>, hdr: VirtioHdr, isV6: bool, i: nat, from: nat)
    returns (totalLen: nat)
    requires Splittable(b, hdr, isV6) && Cleared(b, hdr, isV6) && from == Start(hdr, i) < |b|
      && Room(out.Length, o, |b|, hdr)
    modifies out
    ensures Holds(out, o, totalLen, b, hdr, isV6, i)
    ensures out[..o] == old(out[..o]) && o + totalLen <= out.Length && out[o + totalLen..] == old(out[o + totalLen..])
  {
    var end := from + hdr.gsoSize;
    if end > |b| {
      end := |b|;
    }
    StartIs(hdr, i);
    assert Window(b, hdr, i, from, end);
    totalLen := hdr.hdrLen + (end - from);
    var seg := WriteSegment(little, out[o..o + totalLen], b, hdr, isV6, i, from, end);
    Put(out, o, totalLen, 0, seg);
    assert out[o..o + totalLen] == seg;
  }

  /** The buffers written so far hold the segments, in order. */
  predicate AllHold(outs: seq<array<byte>>, o: nat, sizes: seq<nat>, b: seq<byte>, hdr: VirtioHdr, isV6: bool)
    requires Splittable(b, hdr, isV6) && |sizes| <= |outs|
    reads outs
  {
    forall j {:trigger sizes[j]} :: 0 <= j < |sizes| ==> Holds(outs[j], o, sizes[j], b, hdr, isV6, j)
  }

  predicate Distinct(outs: seq<array<byte>>) {
    forall j, k :: 0 <= j < k < |outs| ==> outs[j] != outs[k]
  }

  method EmitNext(little: bool, outs: seq<array<byte>>, o: nat, sizes: seq<nat>, b: seq<byte>, hdr: VirtioHdr,
                  isV6: bool, from: nat)
    returns (more: seq<nat>)
    requires Splittable(b, hdr, isV6) && Cleared(b, hdr, isV6) && |sizes| < |outs| && Distinct(outs)
    requires from == Start(hdr, |sizes|) < |b| && Room(outs[|sizes|].Length, o, |b|, hdr)
      && AllHold(outs, o, sizes, b, hdr, isV6)
    modifies outs[|sizes|]
    ensures |more| == |sizes| + 1 && AllHold(outs, o, more, b, hdr, isV6)
  {
    var i := |sizes|;
    var totalLen := Emit(little, outs[i], o, b, hdr, isV6, i, from);
    more := sizes + [totalLen];
    forall j {:trigger more[j]} | 0 <= j < i + 1
      ensures Holds(outs[j], o, more[j], b, hdr, isV6, j)
    {
      assert j < i ==> more[j] == sizes[j] && outs[j] != outs[i] && old(Holds(outs[j], o, sizes[j], b, hdr, isV6, j));
    }
  }

  /** Lines 893-975: every segment of the packet, unless there are more than buffers for them. */
  method Split(little: bool, inp: array<byte>, hdr: VirtioHdr, outs: seq<array<byte>>, o: nat, isV6: bool)
    returns (n: int, tooMany: bool, sizes: seq<nat>)
    requires Splittable(inp[..], hdr, isV6)
    requires forall j :: 0 <= j < |outs| ==> Room(outs[j].Length, o, inp.Length, hdr) && outs[j] != inp
    requires Distinct(outs)
    modifies inp, outs
    ensures inp[..] == ClearSums(old(inp[..]), hdr, isV6)
    ensures tooMany <==> Start(hdr, |outs|) < inp.Length
    ensures if tooMany then n == |outs| - 1 && |sizes| == |outs| else n == |sizes| <= |outs| && Enough(inp[..], hdr, n)
    ensures AllHold(outs, o, sizes, inp[..], hdr, isV6)
  {
    hide Holds, Cleared, Splittable;
    ClearInput(inp, hdr, isV6);
    var b := inp[..];
    var nextSegmentDataAt: nat := hdr.hdrLen;
    var i := 0;
    sizes := [];
    while nextSegmentDataAt < |b|
      invariant 0 <= i == |sizes| <= |outs| && nextSegmentDataAt == Start(hdr, i) && inp[..] == b
      invariant i > 0 ==> Start(hdr, i - 1) < |b|
      invariant AllHold(outs, o, sizes, b, hdr, isV6)
      decreases |outs| - i
    {
      if i == |outs| {
        return i - 1, true, sizes;
      }
      sizes := EmitNext(little, outs, o, sizes, b, hdr, isV6, nextSegmentDataAt);
      nextSegmentDataAt := nextSegmentDataAt + hdr.gsoSize;
      i := i + 1;
    }
    StartGrows(hdr, i, |outs|);
    return i, false, sizes;
  }
}
