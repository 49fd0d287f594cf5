/** What receive offload hands to the device: wireguard-go/tun/offload_linux.go, lines 627-735 and 856-888. */
module GroOutput {
  import opened Checksum
  import opened Gro
  import opened GroTables
  import opened GsoSplit
  import opened Options
  import opened Runs
  import opened Words

  const VIRTIO_NET_HDR_LEN := 10

  /** The IP header says how long the packet is, and an IPv4 header checksum is right. */
  predicate IpHeaderOk(pkt: seq<byte>, isV6: bool, iphLen: nat)
    requires 20 <= iphLen <= |pkt| <= 0xffff
  {
    if isV6 then Get16(pkt, 4) == |pkt| - iphLen
    else Get16(pkt, 2) == |pkt| && Ones(WordSum(pkt[..iphLen])) == 0xffff
  }

  /** The lengths and checksums that are written into the headers of a packet to be segmented. */
  function Rewritten(isV6: bool, iphLen: nat, tcp: bool): set<nat> {
    (if isV6 then {4, 5} else {2, 3, 10, 11}) +
    (if tcp then {iphLen + 16, iphLen + 17} else {iphLen + 4, iphLen + 5, iphLen + 6, iphLen + 7})
  }

  /** The same for TCP, and the flags, which appending may change. */
  function TcpRewritten(isV6: bool, iphLen: nat): set<nat> {
    Rewritten(isV6, iphLen, true) + {iphLen + TCP_FLAGS_OFFSET}
  }

  /** The sum a device starts from when it completes the transport checksum: the pseudo header's. */
  predicate PartialSum(pkt: seq<byte>, at: nat, iphLen: nat, proto: byte, isV6: bool)
    requires SrcAt(isV6) + 2 * AddrLen(isV6) <= iphLen <= |pkt| <= 0xffff && at + 2 <= |pkt|
  {
    Get16(pkt, at) == Ones(PseudoPart(pkt, iphLen, proto, isV6))
  }

  /** Lines 644-653 and 698-706. */
  method WriteIpHeader(little: bool, pkt: seq<byte>, isV6: bool, iphLen: nat) returns (r: seq<byte>)
    requires iphLen == (if isV6 then 40 else 20) && iphLen <= |pkt| <= 0xffff
    ensures |r| == |pkt| && IpHeaderOk(r, isV6, iphLen)
    ensures SameExcept(r, pkt, 0, |pkt|, if isV6 then {4, 5} else {2, 3, 10, 11})
  {
    if isV6 {
      r := Over(pkt, 4, BigBytes(|pkt| - iphLen));
      OverGet16(pkt, 4, |pkt| - iphLen);
    } else {
      r := Over(pkt, 10, [0, 0]);
      OverGet16(r, 2, |pkt|);
      r := Over(r, 2, BigBytes(|pkt|));
      var sum := InternetChecksum(little, r[..iphLen], 0);
      HeaderSum(r, iphLen);
      ghost var zeroed := r;
      r := Over(r, 10, BigBytes(0xffff - sum));
      assert Get16(r, 2) == Get16(zeroed, 2);
    }
  }

  /** Lines 659-672 and 715-728. */
  method WritePartialSum(little: bool, pkt: seq<byte>, isV6: bool, iphLen: nat, proto: byte, at: nat)
    returns (r: seq<byte>)
    requires iphLen == (if isV6 then 40 else 20) && iphLen <= at && at + 2 <= |pkt| <= 0xffff
    ensures |r| == |pkt| && PartialSum(r, at, iphLen, proto, isV6)
    ensures SameExcept(r, pkt, 0, |pkt|, {at, at + 1})
  {
    var a, n := SrcAt(isV6), AddrLen(isV6);
    var psum := PseudoHeaderChecksumNoFold(little, proto, pkt[a..a + n], pkt[a + n..a + 2 * n], |pkt| - iphLen);
    var sum := InternetChecksum(little, [], psum);
    SameOnes(psum, PseudoPart(pkt, iphLen, proto, isV6), WordSum([]));
    r := Over(pkt, at, BigBytes(sum));
    OverGet16(pkt, at, sum);
    PseudoKept(pkt, r, iphLen, proto, isV6);
  }

  lemma IpHeaderKept(pkt: seq<byte>, pkt': seq<byte>, isV6: bool, iphLen: nat)
    requires 20 <= iphLen <= |pkt| == |pkt'| <= 0xffff && IpHeaderOk(pkt, isV6, iphLen)
      && SameExcept(pkt', pkt, 0, iphLen, {})
    ensures IpHeaderOk(pkt', isV6, iphLen)
  {
    assert pkt'[..iphLen] == pkt[..iphLen];
  }

  /** Lines 632-675, for an item packets were merged into. */
  method AccountTcp(little: bool, item: TcpItem, pkt: seq<byte>) returns (vnet: VNet, r: seq<byte>)
    requires item.iphLen == (if item.key.isV6 then 40 else 20) && 20 <= item.tcphLen <= 60
      && item.HeadersLen() <= |pkt| <= 0xffff
    ensures vnet == Offload(VirtioHdr(if item.key.isV6 then TcpV6
      else TcpV4, item.HeadersLen(), item.gsoSize, item.iphLen, 16))
    ensures |r| == |pkt| && IpHeaderOk(r, item.key.isV6, item.iphLen)
    ensures PartialSum(r, item.iphLen + 16, item.iphLen, IPPROTO_TCP, item.key.isV6)
    ensures SameExcept(r, pkt, 0, |pkt|, Rewritten(item.key.isV6, item.iphLen, true))
  {
    hide IpHeaderOk, PartialSum;
    vnet := Offload(VirtioHdr(if item.key.isV6 then TcpV6
      else TcpV4, item.HeadersLen(), item.gsoSize, item.iphLen, 16));
    var ip := WriteIpHeader(little, pkt, item.key.isV6, item.iphLen);
    r := WritePartialSum(little, ip, item.key.isV6, item.iphLen, IPPROTO_TCP, item.iphLen + 16);
    IpHeaderKept(ip, r, item.key.isV6, item.iphLen);
  }

  /** Lines 686-728, for an item packets were merged into. */
  method AccountUdp(little: bool, item: UdpItem, pkt: seq<byte>) returns (vnet: VNet, r: seq<byte>)
    requires item.iphLen == (if item.key.isV6 then 40 else 20) && item.HeadersLen() <= |pkt| <= 0xffff
    ensures vnet == Offload(VirtioHdr(UdpL4, item.HeadersLen(), item.gsoSize, item.iphLen, 6))
    ensures |r| == |pkt| && IpHeaderOk(r, item.key.isV6, item.iphLen)
      && Get16(r, item.iphLen + 4) == |pkt| - item.iphLen
    ensures PartialSum(r, item.iphLen + 6, item.iphLen, IPPROTO_UDP, item.key.isV6)
    ensures SameExcept(r, pkt, 0, |pkt|, Rewritten(item.key.isV6, item.iphLen, false))
  {
    hide IpHeaderOk, PartialSum;
    vnet := Offload(VirtioHdr(UdpL4, item.HeadersLen(), item.gsoSize, item.iphLen, 6));
    var ip := WriteIpHeader(little, pkt, item.key.isV6, item.iphLen);
    var len := Over(ip, item.iphLen + 4, BigBytes(|pkt| - item.iphLen));
    OverGet16(ip, item.iphLen + 4, |pkt| - item.iphLen);
    IpHeaderKept(ip, len, item.key.isV6, item.iphLen);
    r := WritePartialSum(little, len, item.key.isV6, item.iphLen, IPPROTO_UDP, item.iphLen + 6);
    IpHeaderKept(len, r, item.key.isV6, item.iphLen);
    assert Get16(r, item.iphLen + 4) == Get16(len, item.iphLen + 4);
  }

  /** The packets are of one TCP flow and follow one another from `first` on; the header says where theirs end. */
  ghost predicate TcpRun(pkts: Packets, ks: seq<nat>, first: nat, hdr: VirtioHdr) {
    && ks != [] && ks[0] < |pkts| && TcpOf(pkts[ks[0]]).Some?
    && forall t :: 0 <= t < |ks| ==>
         && ks[t] < |pkts| && TcpOf(pkts[ks[t]]).Some?
         && var s := TcpOf(pkts[ks[t]]).value;
            && s.key == TcpOf(pkts[ks[0]]).value.key && s.key.isV6 == hdr.gsoType.TcpV6?
            && s.iphLen == hdr.csumStart && s.HeadersLen() == hdr.hdrLen
            && s.seqNo == SeqAt(first, hdr.gsoSize, t)
  }

  /** The packets belong to one UDP flow, and came in this order; the header says where theirs end. */
  ghost predicate UdpRun(pkts: Packets, ks: seq<nat>, hdr: VirtioHdr) {
    && ks != [] && ks[0] < |pkts| && UdpOf(pkts[ks[0]]).Some?
    && (forall t :: 0 <= t < |ks| ==>
          && ks[t] < |pkts| && UdpOf(pkts[ks[t]]).Some?
          && var s := UdpOf(pkts[ks[t]]).value;
             s.key == UdpOf(pkts[ks[0]]).value.key && s.iphLen == hdr.csumStart && s.HeadersLen() == hdr.hdrLen)
    && forall t, u :: 0 <= t < u < |ks| ==> ks[t] < ks[u]
  }

  /** A packet to be segmented: what it was joined from, and what its headers have of the first packet's. */
  ghost predicate TcpJoined(pkts: Packets, ks: seq<nat>, pkt: seq<byte>, hdr: VirtioHdr, isV6: bool) {
    && ks != [] && IsTcp(hdr) && Splittable(pkt, hdr, isV6) && isV6 == hdr.gsoType.TcpV6?
    && Joined(pkts, ks, hdr.hdrLen, hdr.gsoSize, pkt) && TcpRun(pkts, ks, Get32(pkt, hdr.csumStart + 4), hdr)
    && AllAlike(pkts, ks, pkt, hdr.csumStart + 20, hdr.hdrLen)
    && PshOk(pkts, ks, LastPsh(pkts, ks), pkt[hdr.csumStart + TCP_FLAGS_OFFSET])
    && hdr.hdrLen <= |pkts[ks[0]]|
    && SameExcept(pkt, pkts[ks[0]], 0, hdr.hdrLen, TcpRewritten(isV6, hdr.csumStart))
  }

  /** A buffer written as one packet to be segmented. */
  ghost predicate TcpOut(pkts: Packets, ks: seq<nat>, buf: Buf) {
    && |ks| >= 2 && buf.vnet.Offload?
    && var hdr := buf.vnet.hdr; var isV6 := hdr.gsoType.TcpV6?;
       && TcpJoined(pkts, ks, buf.pkt, hdr, isV6)
       && AllCheck(pkts, ks, hdr.csumStart, IPPROTO_TCP, isV6)
       && HeadersWritten(buf.pkt, hdr, isV6)
  }

  /** The lengths and the checksums are those of the joined packet. */
  ghost predicate HeadersWritten(pkt: seq<byte>, hdr: VirtioHdr, isV6: bool) {
    && Splittable(pkt, hdr, isV6)
    && IpHeaderOk(pkt, isV6, hdr.csumStart)
    && (IsTcp(hdr) || Get16(pkt, hdr.csumStart + 4) == |pkt| - hdr.csumStart)
    && PartialSum(pkt, hdr.csumStart + hdr.csumOffset, hdr.csumStart, Protocol(hdr), isV6)
  }

  /** PSH is set in the last of the packets. */
  ghost predicate LastPsh(pkts: Packets, ks: seq<nat>)
    requires ks != []
  {
    ks[|ks| - 1] < |pkts| && TcpOf(pkts[ks[|ks| - 1]]).Some? && TcpOf(pkts[ks[|ks| - 1]]).value.pshSet
  }

  ghost predicate UdpJoined(pkts: Packets, ks: seq<nat>, pkt: seq<byte>, hdr: VirtioHdr, isV6: bool) {
    && ks != [] && hdr.gsoType.UdpL4? && Splittable(pkt, hdr, isV6) && UdpRun(pkts, ks, hdr)
    && UdpOf(pkts[ks[0]]).value.key.isV6 == isV6
    && Joined(pkts, ks, hdr.hdrLen, hdr.gsoSize, pkt) && AllAlike(pkts, ks, pkt, hdr.hdrLen, hdr.hdrLen)
    && hdr.hdrLen <= |pkts[ks[0]]|
    && SameExcept(pkt, pkts[ks[0]], 0, hdr.hdrLen, Rewritten(isV6, hdr.csumStart, false))
  }

  ghost predicate UdpOut(pkts: Packets, ks: seq<nat>, buf: Buf) {
    && |ks| >= 2 && buf.vnet.Offload? && ks[0] < |pkts| && UdpOf(pkts[ks[0]]).Some?
    && var hdr := buf.vnet.hdr; var isV6 := UdpOf(pkts[ks[0]]).value.key.isV6;
       && UdpJoined(pkts, ks, buf.pkt, hdr, isV6)
       && AllCheck(pkts, ks, hdr.csumStart, IPPROTO_UDP, isV6)
       && HeadersWritten(buf.pkt, hdr, isV6)
  }

  lemma {:induction false} SeqAtWraps(first: nat, g: nat, t: nat)
    ensures SeqAt(first % TWO32, g, t) == SeqAt(first, g, t)
  {
    if t > 0 {
      SeqAtWraps(first, g, t - 1);
    }
  }

  lemma TcpRunOf(pkts: Packets, ks: seq<nat>, item: TcpItem, hdr: VirtioHdr)
    requires InSequence(pkts, ks, item) && ks != []
    requires hdr.csumStart == item.iphLen && hdr.hdrLen == item.HeadersLen() && hdr.gsoSize == item.gsoSize
      && hdr.gsoType.TcpV6? == item.key.isV6
    ensures ks[0] < |pkts| && item.iphLen + 8 <= |pkts[ks[0]]|
    ensures TcpRun(pkts, ks, Get32(pkts[ks[0]], item.iphLen + 4), hdr)
  {
    hide CandidateOf;
    assert InFlow(pkts, ks[0], item);
    assert TcpOf(pkts[ks[0]]).value.seqNo == Get32(pkts[ks[0]], item.iphLen + 4);
    forall t | 0 <= t < |ks|
      ensures InFlow(pkts, ks[t], item)
        && TcpOf(pkts[ks[t]]).value.seqNo == SeqAt(item.sentSeq % TWO32, item.gsoSize, t)
    {
      SeqAtWraps(item.sentSeq, item.gsoSize, t);
    }
  }

  lemma LastPshIs(pkts: Packets, ks: seq<nat>, pshSet: bool, flags: byte)
    requires PshOk(pkts, ks, pshSet, flags)
    ensures PshOk(pkts, ks, LastPsh(pkts, ks), flags)
  {
    hide TcpOf;
  }

  /** Rewriting headers leaves the joined payload alone. */
  lemma JoinedKept(pkts: Packets, ks: seq<nat>, h: nat, g: nat, pkt: seq<byte>, pkt': seq<byte>, skip: set<nat>)
    requires Joined(pkts, ks, h, g, pkt) && |pkt'| == |pkt| && SameExcept(pkt', pkt, 0, |pkt|, skip)
      && forall k :: k in skip ==> k < h
    ensures Joined(pkts, ks, h, g, pkt')
  {
    assert pkt'[h..] == pkt[h..];
  }

  /** Rewriting neither the bytes that are compared of IP headers nor those from `from` to `to`. */
  ghost predicate Spares(skip: set<nat>, from: nat, to: nat) {
    forall k :: k in skip ==> k !in {0, 1, 6, 7, 8} && !(from <= k < to)
  }

  lemma AlikeRewritten(a: seq<byte>, b: seq<byte>, b': seq<byte>, from: nat, to: nat, skip: set<nat>)
    requires Alike(a, b, from, to) && to <= |b'| && SameExcept(b', b, 0, to, skip) && Spares(skip, from, to)
    ensures Alike(a, b', from, to)
  {
    assert b'[from..to] == b[from..to];
  }

  lemma AllAlikeRewritten(pkts: Packets, ks: seq<nat>, b: seq<byte>, b': seq<byte>, from: nat, to: nat, skip: set<nat>)
    requires AllAlike(pkts, ks, b, from, to) && to <= |b'| && to <= |b| && SameExcept(b', b, 0, to, skip)
      && Spares(skip, from, to)
    ensures AllAlike(pkts, ks, b', from, to)
  {
    hide Alike, Spares, SameExcept;
    forall t | 0 <= t < |ks|
      ensures ks[t] < |pkts| && Alike(pkts[ks[t]], b', from, to)
    {
      AlikeRewritten(pkts[ks[t]], b, b', from, to, skip);
    }
  }

  lemma HeadKept(a: seq<byte>, b: seq<byte>, c: seq<byte>, h: nat, skip: set<nat>, more: set<nat>, all: set<nat>)
    requires h <= |a| && h <= |b| && h <= |c| && SameExcept(a, b, 0, h, more) && SameExcept(b, c, 0, h, skip)
    requires skip <= all && more <= all
    ensures SameExcept(a, c, 0, h, all)
  {
  }

  /** The accounting makes of an item's buffer what the device expects. */
  lemma TcpAccounted(pkts: Packets, ks: seq<nat>, item: TcpItem, pkt: seq<byte>, buf: Buf)
    requires TcpGroup(pkts, ks, item, pkt) && item.numMerged > 0 && |pkt| <= 0xffff && item.gsoSize > 0
    requires item.iphLen == (if item.key.isV6 then 40 else 20) && 20 <= item.tcphLen <= 60
    requires buf.vnet == Offload(VirtioHdr(if item.key.isV6 then TcpV6
      else TcpV4, item.HeadersLen(), item.gsoSize, item.iphLen, 16))
    requires |buf.pkt| == |pkt| && IpHeaderOk(buf.pkt, item.key.isV6, item.iphLen)
    requires PartialSum(buf.pkt, item.iphLen + 16, item.iphLen, IPPROTO_TCP, item.key.isV6)
    requires SameExcept(buf.pkt, pkt, 0, |pkt|, Rewritten(item.key.isV6, item.iphLen, true))
    ensures TcpOut(pkts, ks, buf)
  {
    hide AllCheck, IpHeaderOk, PartialSum, TcpOf, InSequence, TcpRun, Joined, AllAlike, PshOk, LastPsh, Get32;
    var h, skip := item.HeadersLen(), Rewritten(item.key.isV6, item.iphLen, true);
    TcpRunOf(pkts, ks, item, buf.vnet.hdr);
    LastPshIs(pkts, ks, item.pshSet, pkt[item.iphLen + TCP_FLAGS_OFFSET]);
    JoinedKept(pkts, ks, h, item.gsoSize, pkt, buf.pkt, skip);
    AllAlikeRewritten(pkts, ks, pkt, buf.pkt, item.iphLen + 20, h, skip);
    HeadKept(buf.pkt, pkt, pkts[ks[0]], h, {item.iphLen + TCP_FLAGS_OFFSET}, skip,
      TcpRewritten(item.key.isV6, item.iphLen));
    Get32Kept(buf.pkt, pkts[ks[0]], h, TcpRewritten(item.key.isV6, item.iphLen), item.iphLen + 4);
  }

  lemma Get32Kept(a: seq<byte>, b: seq<byte>, h: nat, skip: set<nat>, at: nat)
    requires h <= |a| && h <= |b| && SameExcept(a, b, 0, h, skip) && at + 4 <= h
    requires forall k :: at <= k < at + 4 ==> k !in skip
    ensures Get32(a, at) == Get32(b, at)
  {
    assert forall k :: at <= k < at + 4 ==> a[k] == b[k];
  }

  lemma UdpRunOf(pkts: Packets, ks: seq<nat>, item: UdpItem, hdr: VirtioHdr)
    requires ks != [] && forall t :: 0 <= t < |ks| ==> InUdpFlow(pkts, ks[t], item)
    requires forall t, u :: 0 <= t < u < |ks| ==> ks[t] < ks[u]
    requires hdr.csumStart == item.iphLen && hdr.hdrLen == item.HeadersLen()
    ensures UdpRun(pkts, ks, hdr) && ks[0] < |pkts| && UdpOf(pkts[ks[0]]).Some?
      && UdpOf(pkts[ks[0]]).value.key == item.key
  {
    hide UdpOf;
    assert InUdpFlow(pkts, ks[0], item);
  }

  lemma UdpAccounted(pkts: Packets, ks: seq<nat>, item: UdpItem, pkt: seq<byte>, buf: Buf)
    requires UdpGroup(pkts, ks, item, pkt) && item.numMerged > 0 && |pkt| <= 0xffff && item.gsoSize > 0
    requires item.iphLen == if item.key.isV6 then 40 else 20
    requires buf.vnet == Offload(VirtioHdr(UdpL4, item.HeadersLen(), item.gsoSize, item.iphLen, 6))
    requires |buf.pkt| == |pkt| && IpHeaderOk(buf.pkt, item.key.isV6, item.iphLen)
      && Get16(buf.pkt, item.iphLen + 4) == |pkt| - item.iphLen
    requires PartialSum(buf.pkt, item.iphLen + 6, item.iphLen, IPPROTO_UDP, item.key.isV6)
    requires SameExcept(buf.pkt, pkt, 0, |pkt|, Rewritten(item.key.isV6, item.iphLen, false))
    ensures UdpOut(pkts, ks, buf)
  {
    hide AllCheck, IpHeaderOk, PartialSum, UdpOf, UdpRun, Joined, InUdpFlow, AllAlike;
    UdpRunOf(pkts, ks, item, buf.vnet.hdr);
    var h, skip := item.HeadersLen(), Rewritten(item.key.isV6, item.iphLen, false);
    JoinedKept(pkts, ks, h, item.gsoSize, pkt, buf.pkt, skip);
    AllAlikeRewritten(pkts, ks, pkt, buf.pkt, h, h, skip);
    HeadKept(buf.pkt, pkt, pkts[ks[0]], h, {}, skip, skip);
  }

  lemma SplitPayloads(pkts: Packets, ks: seq<nat>, hdr: VirtioHdr, pkt: seq<byte>, t: nat)
    requires Joined(pkts, ks, hdr.hdrLen, hdr.gsoSize, pkt) && t < |ks|
    ensures ks[t] < |pkts| && hdr.hdrLen <= |pkts[ks[t]]| && hdr.hdrLen <= |pkt|
      && hdr.gsoSize * t <= |pkt| - hdr.hdrLen
    ensures Chunk(pkt[hdr.hdrLen..], hdr.gsoSize, t) == pkts[ks[t]][hdr.hdrLen..]
  {
    hide Chunk;
    CutJoined(Pieces(pkts, ks, hdr.hdrLen), hdr.gsoSize, t);
  }

  lemma SplitCount(pkts: Packets, ks: seq<nat>, hdr: VirtioHdr, pkt: seq<byte>)
    requires Joined(pkts, ks, hdr.hdrLen, hdr.gsoSize, pkt) && ks != []
    ensures Enough(pkt, hdr, |ks|)
  {
    JoinedCount(Pieces(pkts, ks, hdr.hdrLen), hdr.gsoSize);
    StartIs(hdr, |ks|);
    StartIs(hdr, |ks| - 1);
  }

  lemma SplitSeq(pkts: Packets, ks: seq<nat>, hdr: VirtioHdr, pkt: seq<byte>, t: nat)
    requires hdr.csumStart + 8 <= |pkt| && TcpRun(pkts, ks, Get32(pkt, hdr.csumStart + 4), hdr) && t < |ks|
    ensures ks[t] < |pkts| && TcpOf(pkts[ks[t]]).Some? && SegmentSeq(pkt, hdr, t) == TcpOf(pkts[ks[t]]).value.seqNo
  {
    hide TcpOf, Get32;
    SeqAtIs(Get32(pkt, hdr.csumStart + 4), hdr.gsoSize, t);
  }

  /** Clearing the checksum fields leaves the sequence number alone. */
  lemma SeqNotCleared(b: seq<byte>, hdr: VirtioHdr, isV6: bool)
    requires Splittable(b, hdr, isV6) && IsTcp(hdr)
    ensures |ClearSums(b, hdr, isV6)| == |b|
      && Get32(ClearSums(b, hdr, isV6), hdr.csumStart + 4) == Get32(b, hdr.csumStart + 4)
  {
  }

  /** Only the last segment reaches the end. */
  lemma LastIs(b: seq<byte>, hdr: VirtioHdr, n: nat, t: nat)
    requires Enough(b, hdr, n) && t < n
    ensures LastOf(b, hdr, t) <==> t == n - 1
  {
    StartIs(hdr, t);
    StartIs(hdr, t + 1);
    if t < n - 1 {
      StartGrows(hdr, t + 1, n - 1);
    }
  }

  /** Where the headers of a segment may differ from those of the first packet that was joined. */
  function Resegmented(isV6: bool, iphLen: nat, tcp: bool): set<nat> {
    (if isV6 then {4, 5} else {2, 3, 4, 5, 10, 11}) +
    (if tcp then {iphLen + 4, iphLen + 5, iphLen + 6, iphLen + 7, iphLen + TCP_FLAGS_OFFSET, iphLen + 16, iphLen + 17}
      else {iphLen + 4, iphLen + 5, iphLen + 6, iphLen + 7})
  }

  /** What the splitter writes for segment `t` of `pkt`. */
  ghost predicate SegmentOf(pkt: seq<byte>, hdr: VirtioHdr, isV6: bool, t: nat, seg: seq<byte>) {
    && Splittable(pkt, hdr, isV6) && hdr.gsoSize * t <= |pkt| - hdr.hdrLen
    && SegmentOk(ClearSums(pkt, hdr, isV6), hdr, isV6, t, seg)
  }

  lemma RewrittenWithin(isV6: bool, iphLen: nat, tcp: bool)
    ensures Rewritten(isV6, iphLen, tcp) <= Resegmented(isV6, iphLen, tcp)
    ensures tcp ==> TcpRewritten(isV6, iphLen) <= Resegmented(isV6, iphLen, tcp)
  {
  }

  lemma ResegmentedSpares(isV6: bool, iphLen: nat, tcp: bool, to: nat)
    requires iphLen >= 20
    ensures Spares(Resegmented(isV6, iphLen, tcp), iphLen + (if tcp then 20 else 8), to)
  {
  }

  lemma ClearedHead(b: seq<byte>, hdr: VirtioHdr, isV6: bool)
    requires Splittable(b, hdr, isV6)
    ensures |ClearSums(b, hdr, isV6)| == |b|
      && SameExcept(ClearSums(b, hdr, isV6), b, 0, hdr.hdrLen, Rewritten(isV6, hdr.csumStart, IsTcp(hdr)))
    ensures IsTcp(hdr) ==>
      ClearSums(b, hdr, isV6)[hdr.csumStart + TCP_FLAGS_OFFSET] == b[hdr.csumStart + TCP_FLAGS_OFFSET]
  {
  }

  /** The headers of a segment, against the packet's. */
  lemma SegmentHead(pkt: seq<byte>, hdr: VirtioHdr, isV6: bool, t: nat, seg: seq<byte>)
    requires SegmentOf(pkt, hdr, isV6, t, seg)
    ensures hdr.csumStart + 8 <= hdr.hdrLen <= |seg| <= 0xffff && hdr.hdrLen <= |pkt|
      && SameExcept(seg, pkt, 0, hdr.hdrLen, Resegmented(isV6, hdr.csumStart, IsTcp(hdr)))
    ensures if isV6 then Get16(seg, 4) == |seg| - hdr.csumStart else Get16(seg, 2) == |seg|
    ensures seg[hdr.hdrLen..] == Chunk(pkt[hdr.hdrLen..], hdr.gsoSize, t)
    ensures SoundSegment(seg, hdr, isV6)
  {
    var b := ClearSums(pkt, hdr, isV6);
    ClearedHead(pkt, hdr, isV6);
    RewrittenWithin(isV6, hdr.csumStart, IsTcp(hdr));
    hide ClearSums, Checks, Chunk, Get32;
    SegmentKept(b, hdr, isV6, t, seg);
    HeadKept(seg, b, pkt, hdr.hdrLen, Rewritten(isV6, hdr.csumStart, IsTcp(hdr)),
      Resegmented(isV6, hdr.csumStart, IsTcp(hdr)), Resegmented(isV6, hdr.csumStart, IsTcp(hdr)));
  }

  lemma SegmentKept(b: seq<byte>, hdr: VirtioHdr, isV6: bool, t: nat, seg: seq<byte>)
    requires Splittable(b, hdr, isV6) && hdr.gsoSize * t <= |b| - hdr.hdrLen && SegmentOk(b, hdr, isV6, t, seg)
    ensures hdr.hdrLen <= |seg|
      && SameExcept(seg, b, 0, hdr.hdrLen, Resegmented(isV6, hdr.csumStart, IsTcp(hdr)))
  {
    hide Checks, Chunk, Get32, Get16;
  }

  /** The sequence number and the flags of a TCP segment. */
  lemma SegmentTcp(pkt: seq<byte>, hdr: VirtioHdr, t: nat, seg: seq<byte>)
    requires SegmentOf(pkt, hdr, hdr.gsoType.TcpV6?, t, seg) && IsTcp(hdr)
    ensures hdr.csumStart + 20 <= |seg| && hdr.csumStart + 20 <= |pkt|
    ensures Get32(seg, hdr.csumStart + 4) == SegmentSeq(pkt, hdr, t)
    ensures var at := hdr.csumStart + TCP_FLAGS_OFFSET;
      seg[at] == if LastOf(pkt, hdr, t) then pkt[at] else ClearFinPsh(pkt[at])
  {
    var isV6 := hdr.gsoType.TcpV6?;
    SeqNotCleared(pkt, hdr, isV6);
    ClearedHead(pkt, hdr, isV6);
    SegmentTcpKept(ClearSums(pkt, hdr, isV6), hdr, isV6, t, seg);
    hide *;
    SameLength(ClearSums(pkt, hdr, isV6), pkt, hdr, t);
  }

  lemma SameLength(b: seq<byte>, b': seq<byte>, hdr: VirtioHdr, t: nat)
    requires |b| == |b'| && hdr.csumStart + 8 <= |b|
    ensures LastOf(b, hdr, t) == LastOf(b', hdr, t)
    ensures Get32(b, hdr.csumStart + 4) == Get32(b', hdr.csumStart + 4) ==>
      SegmentSeq(b, hdr, t) == SegmentSeq(b', hdr, t)
  {
    hide Get32;
  }

  lemma SegmentTcpKept(b: seq<byte>, hdr: VirtioHdr, isV6: bool, t: nat, seg: seq<byte>)
    requires Splittable(b, hdr, isV6) && hdr.gsoSize * t <= |b| - hdr.hdrLen && SegmentOk(b, hdr, isV6, t, seg)
      && IsTcp(hdr)
    ensures hdr.csumStart + 20 <= |seg| && hdr.csumStart + 20 <= |b|
    ensures Get32(seg, hdr.csumStart + 4) == SegmentSeq(b, hdr, t)
    ensures var at := hdr.csumStart + TCP_FLAGS_OFFSET;
      seg[at] == if LastOf(b, hdr, t) then b[at] else ClearFinPsh(b[at])
  {
    hide NetworkOk, Checks, Chunk, Get32, ClearFinPsh, SameExcept, LastOf, SegmentSeq;
  }

  lemma ByteKept(a: seq<byte>, b: seq<byte>, h: nat, skip: set<nat>, k: nat)
    requires h <= |a| && h <= |b| && SameExcept(a, b, 0, h, skip) && k < h && k !in skip
    ensures a[k] == b[k]
  {
  }

  lemma RangeKept(a: seq<byte>, b: seq<byte>, h: nat, skip: set<nat>, from: nat, to: nat)
    requires h <= |a| && h <= |b| && SameExcept(a, b, 0, h, skip) && from <= to <= h
    requires forall k :: from <= k < to ==> k !in skip
    ensures a[from..to] == b[from..to]
  {
  }

  lemma Untouchable(isV6: bool, iphLen: nat, tcp: bool)
    requires iphLen == if isV6 then 40 else 20
    ensures forall k :: 0 <= k < iphLen + 4 && (SrcAt(isV6) <= k || k in {0, 6, 7, 9}) ==>
      k !in Resegmented(isV6, iphLen, tcp)
    ensures tcp ==> forall k :: iphLen + 8 <= k < iphLen + 13 ==> k !in Resegmented(isV6, iphLen, tcp)
  {
  }

  /** The splitter leaves alone what makes a flow's key. */
  lemma KeyKept(p: seq<byte>, seg: seq<byte>, isV6: bool, tcp: bool, h: nat)
    requires var iphLen := if isV6 then 40 else 20;
      && iphLen + (if tcp then 20 else 8) <= h <= |p| && h <= |seg|
      && SameExcept(seg, p, 0, h, Resegmented(isV6, iphLen, tcp))
    ensures var iphLen := if isV6 then 40 else 20; KeyOf(seg, isV6, iphLen, tcp) == KeyOf(p, isV6, iphLen, tcp)
  {
    hide Resegmented, SameExcept, Get16;
    var iphLen, at, n := if isV6 then 40 else 20, SrcAt(isV6), AddrLen(isV6);
    var skip := Resegmented(isV6, iphLen, tcp);
    Untouchable(isV6, iphLen, tcp);
    RangeKept(seg, p, h, skip, at, at + n);
    RangeKept(seg, p, h, skip, at + n, at + 2 * n);
    Get16Kept(seg, p, h, skip, iphLen);
    Get16Kept(seg, p, h, skip, iphLen + 2);
    if tcp {
      Get16Kept(seg, p, h, skip, iphLen + 8);
      Get16Kept(seg, p, h, skip, iphLen + 10);
    }
  }

  lemma Get16Kept(a: seq<byte>, b: seq<byte>, h: nat, skip: set<nat>, at: nat)
    requires h <= |a| && h <= |b| && SameExcept(a, b, 0, h, skip) && at + 2 <= h && at !in skip && at + 1 !in skip
    ensures Get16(a, at) == Get16(b, at)
  {
    assert a[at] == b[at] && a[at + 1] == b[at + 1];
  }

  /** The bytes a parse looks at besides, which the splitter leaves alone too. */
  lemma FixedKept(p: seq<byte>, seg: seq<byte>, isV6: bool, tcp: bool, h: nat)
    requires var iphLen := if isV6 then 40 else 20;
      && iphLen + (if tcp then 20 else 8) <= h <= |p| && h <= |seg|
      && SameExcept(seg, p, 0, h, Resegmented(isV6, iphLen, tcp))
    ensures seg[0] == p[0] && seg[6] == p[6] && seg[7] == p[7] && seg[9] == p[9]
    ensures var iphLen := if isV6 then 40 else 20; tcp ==> seg[iphLen + 12] == p[iphLen + 12]
  {
    hide Resegmented, SameExcept;
    var iphLen := if isV6 then 40 else 20;
    var skip := Resegmented(isV6, iphLen, tcp);
    Untouchable(isV6, iphLen, tcp);
    ByteKept(seg, p, h, skip, 0);
    ByteKept(seg, p, h, skip, 6);
    ByteKept(seg, p, h, skip, 7);
    ByteKept(seg, p, h, skip, 9);
    if tcp {
      ByteKept(seg, p, h, skip, iphLen + 12);
    }
  }

  /** A packet that parses does so in the family of its key. */
  lemma TcpOfIs(p: seq<byte>, s: TcpSeg)
    requires TcpOf(p) == Some(s)
    ensures CandidateOf(p, false) == (if s.key.isV6 then Tcp6 else Tcp4) && ParseTcp(p, s.key.isV6) == Some(s)
    ensures s.HeadersLen() < |p| && s.iphLen == (if s.key.isV6 then 40 else 20) && s.iphLen + 20 <= s.HeadersLen()
  {
  }

  lemma CandidateAgain(p: seq<byte>, seg: seq<byte>, canUdp: bool)
    requires !CandidateOf(p, canUdp).NotCandidate? && |p| >= 28
    requires |seg| >= 10 && seg[0] == p[0] && seg[6] == p[6] && seg[9] == p[9]
    requires |seg| >= match CandidateOf(p, canUdp) case Tcp4 => 40 case Tcp6 => 60 case Udp4 => 28 case Udp6 => 48
    ensures CandidateOf(seg, canUdp) == CandidateOf(p, canUdp)
  {
  }

  /** What is read off a segment with the headers of `p`. */
  lemma TcpReparsed(p: seq<byte>, s: TcpSeg, seg: seq<byte>, psh: bool)
    requires TcpOf(p) == Some(s) && s.HeadersLen() < |seg| <= 0xffff && s.HeadersLen() <= |p|
    requires SameExcept(seg, p, 0, s.HeadersLen(), Resegmented(s.key.isV6, s.iphLen, true))
    requires if s.key.isV6 then Get16(seg, 4) == |seg| - s.iphLen else Get16(seg, 2) == |seg|
    requires s.iphLen + TCP_FLAGS_OFFSET < |seg| && seg[s.iphLen + TCP_FLAGS_OFFSET] == FlagsFor(psh)
    ensures s.iphLen + 8 <= |seg|
    ensures TcpOf(seg) == Some(s.(seqNo := Get32(seg, s.iphLen + 4), pshSet := psh, gsoSize := |seg| - s.HeadersLen()))
  {
    TcpOfIs(p, s);
    hide ParseTcp, CandidateOf, KeyOf, Get16, Get32, FlagsFor, SameExcept, Resegmented;
    KeyKept(p, seg, s.key.isV6, true, s.HeadersLen());
    FixedKept(p, seg, s.key.isV6, true, s.HeadersLen());
    CandidateAgain(p, seg, false);
    ParsedAgain(p, seg, s, psh);
  }

  lemma ParsedAgain(p: seq<byte>, seg: seq<byte>, s: TcpSeg, psh: bool)
    requires CandidateOf(p, false) == CandidateOf(seg, false) == (if s.key.isV6 then Tcp6 else Tcp4)
    requires ParseTcp(p, s.key.isV6) == Some(s) && s.HeadersLen() < |seg| <= 0xffff
    requires KeyOf(seg, s.key.isV6, s.iphLen, true) == s.key && seg[s.iphLen + TCP_FLAGS_OFFSET] == FlagsFor(psh)
    requires if s.key.isV6 then Get16(seg, 4) == |seg| - s.iphLen else Get16(seg, 2) == |seg|
    requires seg[0] == p[0] && seg[6] == p[6] && seg[7] == p[7] && seg[s.iphLen + 12] == p[s.iphLen + 12]
    ensures ParseTcp(seg, s.key.isV6)
      == Some(s.(seqNo := Get32(seg, s.iphLen + 4), pshSet := psh, gsoSize := |seg| - s.HeadersLen()))
  {
    hide CandidateOf, KeyOf, Get16, Get32;
  }

  lemma UdpOfIs(p: seq<byte>, s: UdpSeg)
    requires UdpOf(p) == Some(s)
    ensures CandidateOf(p, true) == (if s.key.isV6 then Udp6 else Udp4) && ParseUdp(p, s.key.isV6) == Some(s)
    ensures s.HeadersLen() < |p| && s.iphLen == (if s.key.isV6 then 40 else 20)
  {
  }

  lemma UdpReparsed(p: seq<byte>, s: UdpSeg, seg: seq<byte>)
    requires UdpOf(p) == Some(s) && s.HeadersLen() < |seg| <= 0xffff && s.HeadersLen() <= |p|
    requires SameExcept(seg, p, 0, s.HeadersLen(), Resegmented(s.key.isV6, s.iphLen, false))
    requires if s.key.isV6 then Get16(seg, 4) == |seg| - s.iphLen else Get16(seg, 2) == |seg|
    ensures UdpOf(seg) == Some(s.(gsoSize := |seg| - s.HeadersLen()))
  {
    UdpOfIs(p, s);
    hide CandidateOf, KeyOf, Get16, SameExcept, Resegmented;
    KeyKept(p, seg, s.key.isV6, false, s.HeadersLen());
    FixedKept(p, seg, s.key.isV6, false, s.HeadersLen());
    CandidateAgain(p, seg, true);
  }

  lemma SameUdpRead(p: seq<byte>, q: seq<byte>, s0: UdpSeg, s: UdpSeg, seg: seq<byte>)
    requires UdpOf(p) == Some(s0) && s.HeadersLen() + s.gsoSize == |q| && s0.iphLen == s.iphLen && s0.key == s.key
      && s.HeadersLen() <= |p| && s.HeadersLen() < |q| && s.HeadersLen() <= |seg| <= 0xffff
    requires seg[s.HeadersLen()..] == q[s.HeadersLen()..]
    requires if s.key.isV6 then Get16(seg, 4) == |seg| - s.iphLen else Get16(seg, 2) == |seg|
    requires SameExcept(seg, p, 0, s.HeadersLen(), Resegmented(s.key.isV6, s.iphLen, false))
    ensures UdpOf(seg) == Some(s)
  {
    hide UdpOf, Get16, SameExcept, Resegmented;
    var h := s.HeadersLen();
    assert |seg| == h + |seg[h..]| && |q| == h + |q[h..]|;
    UdpReparsed(p, s0, seg);
  }

  /** A receiver accepts the segment. */
  predicate SoundSegment(seg: seq<byte>, hdr: VirtioHdr, isV6: bool) {
    SrcAt(isV6) + 2 * AddrLen(isV6) <= hdr.csumStart <= |seg| <= 0xffff
      && Checks(seg, hdr.csumStart, Protocol(hdr), isV6)
  }

  /**
   * The segment is read as packet `k` is, flow and sequence number included, but for PSH unless `psh`; it has the
   * packet's payload and options, and the IP header fields that coalescing compares.
   */
  ghost predicate CarriesTcp(pkts: Packets, k: nat, hdr: VirtioHdr, psh: bool, seg: seq<byte>) {
    && k < |pkts| && TcpOf(pkts[k]).Some? && hdr.hdrLen <= |pkts[k]| && hdr.hdrLen <= |seg|
    && seg[hdr.hdrLen..] == pkts[k][hdr.hdrLen..]
    && TcpOf(seg) == Some(TcpOf(pkts[k]).value.(pshSet := psh && TcpOf(pkts[k]).value.pshSet))
    && Alike(pkts[k], seg, hdr.csumStart + 20, hdr.hdrLen)
  }

  /** The segment is read as packet `k` is, flow included, and has its payload and what coalescing compares. */
  ghost predicate CarriesUdp(pkts: Packets, k: nat, hdr: VirtioHdr, seg: seq<byte>) {
    && k < |pkts| && UdpOf(pkts[k]).Some? && hdr.hdrLen <= |pkts[k]| && hdr.hdrLen <= |seg|
    && seg[hdr.hdrLen..] == pkts[k][hdr.hdrLen..]
    && UdpOf(seg) == UdpOf(pkts[k])
    && Alike(pkts[k], seg, hdr.hdrLen, hdr.hdrLen)
  }

  lemma EnoughSame(b: seq<byte>, b': seq<byte>, hdr: VirtioHdr, n: nat)
    requires |b| == |b'| && Enough(b, hdr, n)
    ensures Enough(b', hdr, n)
  {
  }

  /** The headers of segment `t` are those of the first packet, but for what the splitter sets. */
  lemma TcpHead(pkts: Packets, ks: seq<nat>, pkt: seq<byte>, hdr: VirtioHdr, isV6: bool, t: nat, seg: seq<byte>)
    requires TcpJoined(pkts, ks, pkt, hdr, isV6) && t < |ks|
    requires SegmentOf(pkt, hdr, isV6, t, seg)
    ensures hdr.hdrLen <= |seg| <= 0xffff && hdr.hdrLen <= |pkts[ks[0]]|
      && SameExcept(seg, pkts[ks[0]], 0, hdr.hdrLen, Resegmented(isV6, hdr.csumStart, true))
    ensures ks[t] < |pkts| && Alike(pkts[ks[t]], seg, hdr.csumStart + 20, hdr.hdrLen)
  {
    hide Joined, TcpRun, PshOk, SegmentOf, Get32, Get16, Chunk, Checks, TcpOf, LastPsh;
    var h, skip := hdr.hdrLen, Resegmented(isV6, hdr.csumStart, true);
    RewrittenWithin(isV6, hdr.csumStart, true);
    ResegmentedSpares(isV6, hdr.csumStart, true, h);
    SegmentHead(pkt, hdr, isV6, t, seg);
    hide Rewritten, TcpRewritten, Resegmented, SameExcept;
    HeadKept(seg, pkt, pkts[ks[0]], h, TcpRewritten(isV6, hdr.csumStart), skip, skip);
    AlikeRewritten(pkts[ks[t]], pkt, seg, hdr.csumStart + 20, hdr.hdrLen, skip);
  }

  lemma PshAt(pkts: Packets, ks: seq<nat>, flags: byte, t: nat)
    requires t < |ks| && PshOk(pkts, ks, LastPsh(pkts, ks), flags)
    ensures ks[t] < |pkts| && TcpOf(pkts[ks[t]]).Some?
    ensures (if t == |ks| - 1 then flags else ClearFinPsh(flags))
      == FlagsFor(LastNewest(ks) && TcpOf(pkts[ks[t]]).value.pshSet)
  {
    hide TcpOf;
    assert ClearFinPsh(FlagsFor(true)) == FlagsFor(false);
    assert ClearFinPsh(FlagsFor(false)) == FlagsFor(false);
  }

  /** PSH is in the last segment, if the joined packet has it. */
  lemma TcpPsh(pkts: Packets, ks: seq<nat>, pkt: seq<byte>, hdr: VirtioHdr, isV6: bool, t: nat, seg: seq<byte>)
    requires TcpJoined(pkts, ks, pkt, hdr, isV6) && t < |ks|
    requires SegmentOf(pkt, hdr, isV6, t, seg) && Enough(pkt, hdr, |ks|)
    ensures hdr.csumStart + 20 <= |seg| && ks[t] < |pkts| && TcpOf(pkts[ks[t]]).Some?
    ensures seg[hdr.csumStart + TCP_FLAGS_OFFSET] == FlagsFor(LastNewest(ks) && TcpOf(pkts[ks[t]]).value.pshSet)
  {
    hide Joined, TcpRun, AllAlike, SegmentOf, Get32, TcpOf, PshOk, LastPsh, FlagsFor, ClearFinPsh, Enough, SameExcept;
    SegmentTcp(pkt, hdr, t, seg);
    LastIs(pkt, hdr, |ks|, t);
    PshAt(pkts, ks, pkt[hdr.csumStart + TCP_FLAGS_OFFSET], t);
  }

  lemma TcpPayload(pkts: Packets, ks: seq<nat>, pkt: seq<byte>, hdr: VirtioHdr, isV6: bool, t: nat, seg: seq<byte>)
    requires TcpJoined(pkts, ks, pkt, hdr, isV6) && t < |ks|
    requires SegmentOf(pkt, hdr, isV6, t, seg)
    ensures ks[t] < |pkts| && hdr.hdrLen <= |pkts[ks[t]]| && hdr.hdrLen <= |seg| <= 0xffff
      && seg[hdr.hdrLen..] == pkts[ks[t]][hdr.hdrLen..]
    ensures TcpOf(pkts[ks[t]]).Some? && Get32(seg, hdr.csumStart + 4) == TcpOf(pkts[ks[t]]).value.seqNo
    ensures if isV6 then Get16(seg, 4) == |seg| - hdr.csumStart else Get16(seg, 2) == |seg|
    ensures SoundSegment(seg, hdr, isV6)
  {
    hide AllAlike, PshOk, TcpRun, Joined, SegmentOf, Get32, Get16, Chunk, SoundSegment, TcpOf, SameExcept,
      LastPsh;
    SplitPayloads(pkts, ks, hdr, pkt, t);
    SplitSeq(pkts, ks, hdr, pkt, t);
    SegmentTcp(pkt, hdr, t, seg);
    SegmentHead(pkt, hdr, isV6, t, seg);
  }

  /** The first packet of the run and packet `t` are of one flow. */
  lemma TcpRunAt(pkts: Packets, ks: seq<nat>, first: nat, hdr: VirtioHdr, t: nat)
    requires TcpRun(pkts, ks, first, hdr) && t < |ks|
    ensures ks[0] < |pkts| && ks[t] < |pkts| && TcpOf(pkts[ks[0]]).Some? && TcpOf(pkts[ks[t]]).Some?
    ensures var s0, s := TcpOf(pkts[ks[0]]).value, TcpOf(pkts[ks[t]]).value;
      && s0.key == s.key && s0.iphLen == s.iphLen == hdr.csumStart && s0.HeadersLen() == s.HeadersLen() == hdr.hdrLen
      && |pkts[ks[t]]| == s.HeadersLen() + s.gsoSize > hdr.hdrLen && |pkts[ks[0]]| > hdr.hdrLen
      && s0.key.isV6 == hdr.gsoType.TcpV6?
  {
    hide TcpOf;
  }

  lemma SameRead(p: seq<byte>, q: seq<byte>, s0: TcpSeg, s: TcpSeg, seg: seq<byte>, psh: bool)
    requires TcpOf(p) == Some(s0) && s.HeadersLen() + s.gsoSize == |q| && s0.HeadersLen() == s.HeadersLen() <= |p|
      && s0.iphLen == s.iphLen && s0.key == s.key && s.iphLen + 14 <= s.HeadersLen() < |q| && s.HeadersLen() <= |seg|
    requires |seg| <= 0xffff && seg[s.HeadersLen()..] == q[s.HeadersLen()..] && Get32(seg, s.iphLen + 4) == s.seqNo
    requires if s.key.isV6 then Get16(seg, 4) == |seg| - s.iphLen else Get16(seg, 2) == |seg|
    requires SameExcept(seg, p, 0, s.HeadersLen(), Resegmented(s.key.isV6, s.iphLen, true))
    requires seg[s.iphLen + TCP_FLAGS_OFFSET] == FlagsFor(psh)
    ensures TcpOf(seg) == Some(s.(pshSet := psh))
  {
    hide TcpOf, Get16, Get32, SameExcept, Resegmented, FlagsFor;
    var h := s.HeadersLen();
    assert |seg| == h + |seg[h..]| && |q| == h + |q[h..]|;
    TcpReparsed(p, s0, seg, psh);
  }

  lemma TcpJoinedAt(pkts: Packets, ks: seq<nat>, pkt: seq<byte>, hdr: VirtioHdr, isV6: bool, t: nat)
    requires TcpJoined(pkts, ks, pkt, hdr, isV6) && t < |ks|
    ensures ks[0] < |pkts| && ks[t] < |pkts| && TcpOf(pkts[ks[0]]).Some? && TcpOf(pkts[ks[t]]).Some?
    ensures var s0, s := TcpOf(pkts[ks[0]]).value, TcpOf(pkts[ks[t]]).value;
      && s0.key == s.key && s0.iphLen == s.iphLen == hdr.csumStart && s0.HeadersLen() == s.HeadersLen() == hdr.hdrLen
      && |pkts[ks[t]]| == s.HeadersLen() + s.gsoSize > hdr.hdrLen && |pkts[ks[0]]| > hdr.hdrLen
      && s.key.isV6 == isV6 && hdr.csumStart + 20 <= hdr.hdrLen
  {
    hide TcpOf, AllAlike, PshOk, TcpRun, Joined, LastPsh;
    TcpRunAt(pkts, ks, Get32(pkt, hdr.csumStart + 4), hdr, t);
  }

  lemma TcpSegment(pkts: Packets, ks: seq<nat>, pkt: seq<byte>, hdr: VirtioHdr, isV6: bool, t: nat, seg: seq<byte>)
    requires TcpJoined(pkts, ks, pkt, hdr, isV6) && t < |ks|
    requires SegmentOf(pkt, hdr, isV6, t, seg) && Enough(pkt, hdr, |ks|)
    ensures CarriesTcp(pkts, ks[t], hdr, LastNewest(ks), seg) && SoundSegment(seg, hdr, isV6)
  {
    hide TcpJoined, TcpOf, SegmentOf, Get32, Get16, Chunk, SoundSegment, SameExcept, Alike, Enough, FlagsFor,
      Resegmented, LastNewest;
    TcpJoinedAt(pkts, ks, pkt, hdr, isV6, t);
    TcpPayload(pkts, ks, pkt, hdr, isV6, t, seg);
    TcpHead(pkts, ks, pkt, hdr, isV6, t, seg);
    TcpPsh(pkts, ks, pkt, hdr, isV6, t, seg);
    var s0, s := TcpOf(pkts[ks[0]]).value, TcpOf(pkts[ks[t]]).value;
    SameRead(pkts[ks[0]], pkts[ks[t]], s0, s, seg, LastNewest(ks) && s.pshSet);
  }

  /**
   * Splitting undoes coalescing: what is written for an item is split into as many segments as packets were
   * joined, and each is its packet again.
   */
  lemma SplitUndoesGro(pkts: Packets, ks: seq<nat>, buf: Buf, t: nat, seg: seq<byte>)
    requires TcpOut(pkts, ks, buf) && t < |ks|
    ensures var hdr := buf.vnet.hdr; var isV6 := hdr.gsoType.TcpV6?; var b := ClearSums(buf.pkt, hdr, isV6);
      && Enough(b, hdr, |ks|) && hdr.gsoSize * t <= |b| - hdr.hdrLen
      && (SegmentOk(b, hdr, isV6, t, seg)
        ==> CarriesTcp(pkts, ks[t], hdr, LastNewest(ks), seg) && SoundSegment(seg, hdr, isV6))
  {
    hide TcpJoined, AllCheck, HeadersWritten, Enough, ClearSums, SegmentOk, CarriesTcp, SoundSegment;
    TcpSegmentOf(pkts, ks, buf.pkt, buf.vnet.hdr, buf.vnet.hdr.gsoType.TcpV6?, t, seg);
  }

  lemma TcpSegmentOf(pkts: Packets, ks: seq<nat>, pkt: seq<byte>, hdr: VirtioHdr, isV6: bool, t: nat, seg: seq<byte>)
    requires TcpJoined(pkts, ks, pkt, hdr, isV6) && t < |ks|
    ensures var b := ClearSums(pkt, hdr, isV6);
      && Enough(b, hdr, |ks|) && hdr.gsoSize * t <= |b| - hdr.hdrLen
      && (SegmentOk(b, hdr, isV6, t, seg)
        ==> CarriesTcp(pkts, ks[t], hdr, LastNewest(ks), seg) && SoundSegment(seg, hdr, isV6))
  {
    var b := ClearSums(pkt, hdr, isV6);
    ClearedHead(pkt, hdr, isV6);
    SplitPayloads(pkts, ks, hdr, pkt, t);
    SplitCount(pkts, ks, hdr, pkt);
    EnoughSame(pkt, b, hdr, |ks|);
    if SegmentOk(b, hdr, isV6, t, seg) {
      assert SegmentOf(pkt, hdr, isV6, t, seg);
      hide *;
      TcpSegment(pkts, ks, pkt, hdr, isV6, t, seg);
    }
  }

  lemma UdpHead(pkts: Packets, ks: seq<nat>, pkt: seq<byte>, hdr: VirtioHdr, isV6: bool, t: nat, seg: seq<byte>)
    requires UdpJoined(pkts, ks, pkt, hdr, isV6) && t < |ks|
    requires SegmentOf(pkt, hdr, isV6, t, seg)
    ensures hdr.hdrLen <= |seg| <= 0xffff && hdr.hdrLen <= |pkts[ks[0]]|
      && SameExcept(seg, pkts[ks[0]], 0, hdr.hdrLen, Resegmented(isV6, hdr.csumStart, false))
    ensures ks[t] < |pkts| && Alike(pkts[ks[t]], seg, hdr.hdrLen, hdr.hdrLen)
  {
    hide Joined, UdpRun, SegmentOf, Get16, Chunk, Checks, UdpOf;
    var h, skip := hdr.hdrLen, Resegmented(isV6, hdr.csumStart, false);
    RewrittenWithin(isV6, hdr.csumStart, false);
    ResegmentedSpares(isV6, hdr.csumStart, false, h);
    SegmentHead(pkt, hdr, isV6, t, seg);
    hide Rewritten, Resegmented, SameExcept;
    HeadKept(seg, pkt, pkts[ks[0]], h, Rewritten(isV6, hdr.csumStart, false), skip, skip);
    AlikeRewritten(pkts[ks[t]], pkt, seg, hdr.hdrLen, hdr.hdrLen, skip);
  }

  lemma UdpRunAt(pkts: Packets, ks: seq<nat>, hdr: VirtioHdr, t: nat)
    requires UdpRun(pkts, ks, hdr) && t < |ks|
    ensures ks[0] < |pkts| && ks[t] < |pkts| && UdpOf(pkts[ks[0]]).Some? && UdpOf(pkts[ks[t]]).Some?
    ensures var s0, s := UdpOf(pkts[ks[0]]).value, UdpOf(pkts[ks[t]]).value;
      && s0.key == s.key && s0.iphLen == s.iphLen == hdr.csumStart && s0.HeadersLen() == s.HeadersLen() == hdr.hdrLen
      && |pkts[ks[t]]| == s.HeadersLen() + s.gsoSize > hdr.hdrLen && |pkts[ks[0]]| > hdr.hdrLen
  {
    hide UdpOf;
  }

  lemma UdpSegment(pkts: Packets, ks: seq<nat>, pkt: seq<byte>, hdr: VirtioHdr, isV6: bool, t: nat, seg: seq<byte>)
    requires UdpJoined(pkts, ks, pkt, hdr, isV6) && t < |ks|
    requires SegmentOf(pkt, hdr, isV6, t, seg)
    ensures CarriesUdp(pkts, ks[t], hdr, seg) && SoundSegment(seg, hdr, isV6)
  {
    UdpRunAt(pkts, ks, hdr, t);
    hide UdpOf, AllAlike, UdpRun, Joined, SegmentOf, Get16, Chunk, SoundSegment, SameExcept, Alike, Resegmented,
      Rewritten;
    SplitPayloads(pkts, ks, hdr, pkt, t);
    SegmentHead(pkt, hdr, isV6, t, seg);
    UdpHead(pkts, ks, pkt, hdr, isV6, t, seg);
    SameUdpRead(pkts[ks[0]], pkts[ks[t]], UdpOf(pkts[ks[0]]).value, UdpOf(pkts[ks[t]]).value, seg);
  }

  /** The same for UDP, in the order the packets came in. */
  lemma SplitUndoesUdpGro(pkts: Packets, ks: seq<nat>, buf: Buf, t: nat, seg: seq<byte>)
    requires UdpOut(pkts, ks, buf) && t < |ks|
    ensures var hdr := buf.vnet.hdr; var isV6 := UdpOf(pkts[ks[0]]).value.key.isV6;
      var b := ClearSums(buf.pkt, hdr, isV6);
      && Enough(b, hdr, |ks|) && hdr.gsoSize * t <= |b| - hdr.hdrLen
      && (SegmentOk(b, hdr, isV6, t, seg)
        ==> CarriesUdp(pkts, ks[t], hdr, seg) && SoundSegment(seg, hdr, isV6))
  {
    hide UdpJoined, AllCheck, HeadersWritten, Enough, ClearSums, SegmentOk, CarriesUdp, SoundSegment, UdpOf;
    UdpSegmentOf(pkts, ks, buf.pkt, buf.vnet.hdr, UdpOf(pkts[ks[0]]).value.key.isV6, t, seg);
  }

  lemma UdpSegmentOf(pkts: Packets, ks: seq<nat>, pkt: seq<byte>, hdr: VirtioHdr, isV6: bool, t: nat, seg: seq<byte>)
    requires UdpJoined(pkts, ks, pkt, hdr, isV6) && t < |ks|
    ensures var b := ClearSums(pkt, hdr, isV6);
      && Enough(b, hdr, |ks|) && hdr.gsoSize * t <= |b| - hdr.hdrLen
      && (SegmentOk(b, hdr, isV6, t, seg)
        ==> CarriesUdp(pkts, ks[t], hdr, seg) && SoundSegment(seg, hdr, isV6))
  {
    var b := ClearSums(pkt, hdr, isV6);
    ClearedHead(pkt, hdr, isV6);
    SplitPayloads(pkts, ks, hdr, pkt, t);
    SplitCount(pkts, ks, hdr, pkt);
    EnoughSame(pkt, b, hdr, |ks|);
    if SegmentOk(b, hdr, isV6, t, seg) {
      assert SegmentOf(pkt, hdr, isV6, t, seg);
      hide *;
      UdpSegment(pkts, ks, pkt, hdr, isV6, t, seg);
    }
  }

  /** What is written for buffer `j`: one packet as it came, or several joined into one to be segmented. */
  ghost predicate Out(pkts: Packets, parts: Parts, bufs: seq<Buf>, j: nat) {
    && j in parts && j < |bufs|
    && (Alone(pkts, parts, bufs, j) || TcpOut(pkts, parts[j], bufs[j]) || UdpOut(pkts, parts[j], bufs[j]))
  }

  ghost predicate Small(bufs: seq<Buf>) {
    forall l :: 0 <= l < |bufs| ==> |bufs[l].pkt| <= 0xffff
  }

  lemma TcpLengths(pkts: Packets, parts: Parts, bufs: seq<Buf>, item: TcpItem)
    requires TcpItemOk(pkts, parts, bufs, item)
    ensures item.iphLen == (if item.key.isV6 then 40 else 20) && 20 <= item.tcphLen <= 60
      && item.HeadersLen() <= |bufs[item.bufsIndex].pkt|
  {
    hide TcpOf, AllCheck, Joined;
    assert InFlow(pkts, parts[item.bufsIndex][0], item);
    FlowLengths(pkts, parts[item.bufsIndex][0], item);
  }

  /** Lines 632-675, for one item. */
  method WriteTcpItem(little: bool, buf: Buf, item: TcpItem, ghost pkts: Packets, ghost parts: Parts,
                      ghost bufs: seq<Buf>)
    returns (r: Buf)
    requires TcpItemOk(pkts, parts, bufs, item) && bufs[item.bufsIndex] == buf && |buf.pkt| <= 0xffff
    ensures |r.pkt| == |buf.pkt|
    ensures if item.numMerged > 0 then TcpOut(pkts, parts[item.bufsIndex], r) else r == buf.(vnet := Clear)
  {
    hide TcpGroup, IpHeaderOk, PartialSum, TcpOut, Rewritten;
    TcpLengths(pkts, parts, bufs, item);
    if item.numMerged > 0 {
      var vnet, pkt := AccountTcp(little, item, buf.pkt);
      r := buf.(vnet := vnet, pkt := pkt);
      TcpAccounted(pkts, parts[item.bufsIndex], item, buf.pkt, r);
    } else {
      r := buf.(vnet := Clear);
    }
  }

  lemma TcpItemOut(pkts: Packets, parts: Parts, bufs: seq<Buf>, item: TcpItem, bufs': seq<Buf>)
    requires TcpItemOk(pkts, parts, bufs, item) && item.bufsIndex < |bufs'|
    requires if item.numMerged > 0 then TcpOut(pkts, parts[item.bufsIndex], bufs'[item.bufsIndex])
             else bufs'[item.bufsIndex] == bufs[item.bufsIndex].(vnet := Clear)
    ensures Out(pkts, parts, bufs', item.bufsIndex)
  {
    hide TcpOf, AllCheck, Joined, TcpOut, UdpOut;
    TcpItemFlow(pkts, parts, bufs, item);
  }

  ghost predicate Named(items: seq<TcpItem>, n: nat, l: nat)
    requires n <= |items|
  {
    exists a :: 0 <= a < n && items[a].bufsIndex == l
  }

  /** Lines 631-676: the items of one flow. */
  method WriteTcpFlow(little: bool, bufs: seq<Buf>, items: seq<TcpItem>, ghost pkts: Packets, ghost parts: Parts,
                      ghost was: seq<Buf>)
    returns (bufs': seq<Buf>)
    requires Small(was) && Small(bufs) && |was| == |bufs|
    requires forall a ::
      0 <= a < |items| ==> TcpItemOk(pkts, parts, was, items[a]) && bufs[items[a].bufsIndex] == was[items[a].bufsIndex]
    requires forall a, b :: 0 <= a < b < |items| ==> items[a].bufsIndex != items[b].bufsIndex
    ensures |bufs'| == |bufs| && Small(bufs')
    ensures forall a :: 0 <= a < |items| ==> Out(pkts, parts, bufs', items[a].bufsIndex)
    ensures forall l :: 0 <= l < |bufs| && !Named(items, |items|, l) ==> bufs'[l] == bufs[l]
  {
    hide TcpGroup, TcpOut, Out;
    bufs' := bufs;
    for i := 0 to |items|
      invariant |bufs'| == |bufs| && Small(bufs')
      invariant forall a :: 0 <= a < i ==> Out(pkts, parts, bufs', items[a].bufsIndex)
      invariant forall l :: 0 <= l < |bufs| && !Named(items, i, l) ==> bufs'[l] == bufs[l]
    {
      var item := items[i];
      assert bufs'[item.bufsIndex] == was[item.bufsIndex];
      var r := WriteTcpItem(little, bufs'[item.bufsIndex], item, pkts, parts, was);
      ghost var before := bufs';
      bufs' := bufs'[item.bufsIndex := r];
      TcpItemOut(pkts, parts, was, item, bufs');
      forall a | 0 <= a < i
        ensures Out(pkts, parts, bufs', items[a].bufsIndex)
      {
        OutKept(pkts, parts, before, bufs', items[a].bufsIndex);
      }
      assert Named(items, i + 1, item.bufsIndex);
      assert forall l :: Named(items, i, l) ==> Named(items, i + 1, l);
    }
  }

  lemma OutKept(pkts: Packets, parts: Parts, bufs: seq<Buf>, bufs': seq<Buf>, j: nat)
    requires Out(pkts, parts, bufs, j) && j < |bufs'| && bufs'[j] == bufs[j]
    ensures Out(pkts, parts, bufs', j)
  {
    hide TcpOut, UdpOut;
  }

  /** Buffer `l` belongs to an item of one of the flows `done`. */
  ghost predicate TrackedIn(m: TcpFlows, done: set<FlowKey>, l: nat) {
    exists key, a {:trigger m[key][a]} :: key in done && key in m && 0 <= a < |m[key]| && m[key][a].bufsIndex == l
  }

  /** Lines 629-679: the flows in whatever order. */
  method ApplyTcp(little: bool, bufs: seq<Buf>, m: TcpFlows, ghost pkts: Packets, ghost parts: Parts)
    returns (bufs': seq<Buf>)
    requires Small(bufs) && TcpTableOk(pkts, parts, bufs, m)
    ensures |bufs'| == |bufs| && Small(bufs')
    ensures forall l :: TcpTracked(m, l) ==> Out(pkts, parts, bufs', l)
    ensures forall l :: 0 <= l < |bufs| && !TcpTracked(m, l) ==> bufs'[l] == bufs[l]
  {
    hide TcpGroup, TcpOut, Out;
    bufs' := bufs;
    var keys := m.Keys;
    while keys != {}
      invariant keys <= m.Keys && |bufs'| == |bufs| && Small(bufs')
      invariant forall key, a {:trigger m[key][a]} ::
        key in m.Keys - keys && 0 <= a < |m[key]| ==> Out(pkts, parts, bufs', m[key][a].bufsIndex)
      invariant forall l :: 0 <= l < |bufs| && !TrackedIn(m, m.Keys - keys, l) ==> bufs'[l] == bufs[l]
      decreases |keys|
    {
      var key :| key in keys;
      bufs' := ApplyFlow(little, bufs', m, key, pkts, parts, bufs, m.Keys - keys);
      assert m.Keys - keys + {key} == m.Keys - (keys - {key});
      keys := keys - {key};
    }
    assert m.Keys - keys == m.Keys;
  }

  method ApplyFlow(little: bool, bufs: seq<Buf>, m: TcpFlows, key: FlowKey, ghost pkts: Packets,
                   ghost parts: Parts, ghost was: seq<Buf>, ghost done: set<FlowKey>)
    returns (bufs': seq<Buf>)
    requires Small(was) && Small(bufs) && TcpTableOk(pkts, parts, was, m) && |bufs| == |was| && done <= m.Keys
      && key in m && key !in done
    requires forall k, a {:trigger m[k][a]} ::
      k in done && 0 <= a < |m[k]| ==> Out(pkts, parts, bufs, m[k][a].bufsIndex)
    requires forall l :: 0 <= l < |was| && !TrackedIn(m, done, l) ==> bufs[l] == was[l]
    ensures |bufs'| == |was| && Small(bufs')
    ensures forall k, a {:trigger m[k][a]} ::
      k in done + {key} && 0 <= a < |m[k]| ==> Out(pkts, parts, bufs', m[k][a].bufsIndex)
    ensures forall l :: 0 <= l < |was| && !TrackedIn(m, done + {key}, l) ==> bufs'[l] == was[l]
  {
    hide TcpGroup, TcpOut, UdpOut, Alone;
    var items := m[key];
    FlowFresh(pkts, parts, was, m, key, done);
    bufs' := WriteTcpFlow(little, bufs, items, pkts, parts, was);
    forall k: FlowKey, a: nat {:trigger m[k][a]} | k in done + {key} && a < |m[k]|
      ensures Out(pkts, parts, bufs', m[k][a].bufsIndex)
    {
      if k != key {
        assert !Named(items, |items|, m[k][a].bufsIndex);
        OutKept(pkts, parts, bufs, bufs', m[k][a].bufsIndex);
      }
    }
    forall l | 0 <= l < |was| && !TrackedIn(m, done + {key}, l)
      ensures bufs'[l] == was[l]
    {
      assert !Named(items, |items|, l) && !TrackedIn(m, done, l);
    }
  }

  /** A flow's items are in buffers of their own. */
  lemma FlowFresh(pkts: Packets, parts: Parts, bufs: seq<Buf>, m: TcpFlows, key: FlowKey, done: set<FlowKey>)
    requires TcpTableOk(pkts, parts, bufs, m) && key in m && key !in done
    ensures forall a ::
      0 <= a < |m[key]| ==> TcpItemOk(pkts, parts, bufs, m[key][a]) && !TrackedIn(m, done, m[key][a].bufsIndex)
    ensures forall k: FlowKey, a: nat {:trigger m[k][a]} ::
      k in m && k != key && a < |m[k]| ==> !Named(m[key], |m[key]|, m[k][a].bufsIndex)
  {
    hide TcpGroup;
    forall a: nat | a < |m[key]|
      ensures TcpItemOk(pkts, parts, bufs, m[key][a]) && !TrackedIn(m, done, m[key][a].bufsIndex)
    {
      if TrackedIn(m, done, m[key][a].bufsIndex) {
        var k: FlowKey, b: nat :| k in done && k in m && b < |m[k]| && m[k][b].bufsIndex == m[key][a].bufsIndex;
        TcpItemsApart(pkts, parts, bufs, m, key, a, k, b);
      }
    }
    forall k: FlowKey, a: nat {:trigger m[k][a]} | k in m && k != key && a < |m[k]|
      ensures !Named(m[key], |m[key]|, m[k][a].bufsIndex)
    {
      if Named(m[key], |m[key]|, m[k][a].bufsIndex) {
        var b: nat :| b < |m[key]| && m[key][b].bufsIndex == m[k][a].bufsIndex;
        TcpItemsApart(pkts, parts, bufs, m, key, b, k, a);
      }
    }
  }

  lemma UdpLengths(pkts: Packets, parts: Parts, bufs: seq<Buf>, item: UdpItem)
    requires UdpItemOk(pkts, parts, bufs, item)
    ensures item.iphLen == (if item.key.isV6 then 40 else 20) && item.HeadersLen() <= |bufs[item.bufsIndex].pkt|
  {
    hide AllCheck, Joined;
    assert InUdpFlow(pkts, parts[item.bufsIndex][0], item);
  }

  /** Lines 686-731, for one item. */
  method WriteUdpItem(little: bool, buf: Buf, item: UdpItem, ghost pkts: Packets, ghost parts: Parts,
                      ghost bufs: seq<Buf>)
    returns (r: Buf)
    requires UdpItemOk(pkts, parts, bufs, item) && bufs[item.bufsIndex] == buf && |buf.pkt| <= 0xffff
    ensures |r.pkt| == |buf.pkt|
    ensures if item.numMerged > 0 then UdpOut(pkts, parts[item.bufsIndex], r) else r == buf.(vnet := Clear)
  {
    hide UdpGroup, IpHeaderOk, PartialSum, UdpOut, Rewritten;
    UdpLengths(pkts, parts, bufs, item);
    if item.numMerged > 0 {
      var vnet, pkt := AccountUdp(little, item, buf.pkt);
      r := buf.(vnet := vnet, pkt := pkt);
      UdpAccounted(pkts, parts[item.bufsIndex], item, buf.pkt, r);
    } else {
      r := buf.(vnet := Clear);
    }
  }

  lemma UdpItemOut(pkts: Packets, parts: Parts, bufs: seq<Buf>, item: UdpItem, bufs': seq<Buf>)
    requires UdpItemOk(pkts, parts, bufs, item) && item.bufsIndex < |bufs'|
    requires if item.numMerged > 0 then UdpOut(pkts, parts[item.bufsIndex], bufs'[item.bufsIndex])
             else bufs'[item.bufsIndex] == bufs[item.bufsIndex].(vnet := Clear)
    ensures Out(pkts, parts, bufs', item.bufsIndex)
  {
    hide UdpOf, AllCheck, Joined, TcpOut, UdpOut;
    UdpItemFlow(pkts, parts, bufs, item);
  }

  ghost predicate UdpNamed(items: seq<UdpItem>, n: nat, l: nat)
    requires n <= |items|
  {
    exists a :: 0 <= a < n && items[a].bufsIndex == l
  }

  /** Lines 685-732: the items of one flow. */
  method WriteUdpFlow(little: bool, bufs: seq<Buf>, items: seq<UdpItem>, ghost pkts: Packets, ghost parts: Parts,
                      ghost was: seq<Buf>)
    returns (bufs': seq<Buf>)
    requires Small(was) && Small(bufs) && |was| == |bufs|
    requires forall a ::
      0 <= a < |items| ==> UdpItemOk(pkts, parts, was, items[a]) && bufs[items[a].bufsIndex] == was[items[a].bufsIndex]
    requires forall a, b :: 0 <= a < b < |items| ==> items[a].bufsIndex != items[b].bufsIndex
    ensures |bufs'| == |bufs| && Small(bufs')
    ensures forall a :: 0 <= a < |items| ==> Out(pkts, parts, bufs', items[a].bufsIndex)
    ensures forall l :: 0 <= l < |bufs| && !UdpNamed(items, |items|, l) ==> bufs'[l] == bufs[l]
  {
    hide UdpGroup, UdpOut, Out;
    bufs' := bufs;
    for i := 0 to |items|
      invariant |bufs'| == |bufs| && Small(bufs')
      invariant forall a :: 0 <= a < i ==> Out(pkts, parts, bufs', items[a].bufsIndex)
      invariant forall l :: 0 <= l < |bufs| && !UdpNamed(items, i, l) ==> bufs'[l] == bufs[l]
    {
      var item := items[i];
      assert bufs'[item.bufsIndex] == was[item.bufsIndex];
      var r := WriteUdpItem(little, bufs'[item.bufsIndex], item, pkts, parts, was);
      ghost var before := bufs';
      bufs' := bufs'[item.bufsIndex := r];
      UdpItemOut(pkts, parts, was, item, bufs');
      forall a | 0 <= a < i
        ensures Out(pkts, parts, bufs', items[a].bufsIndex)
      {
        OutKept(pkts, parts, before, bufs', items[a].bufsIndex);
      }
      assert UdpNamed(items, i + 1, item.bufsIndex);
      assert forall l :: UdpNamed(items, i, l) ==> UdpNamed(items, i + 1, l);
    }
  }

  /** Buffer `l` belongs to an item of one of the flows `done`. */
  ghost predicate UdpTrackedIn(m: UdpFlows, done: set<FlowKey>, l: nat) {
    exists key, a {:trigger m[key][a]} :: key in done && key in m && 0 <= a < |m[key]| && m[key][a].bufsIndex == l
  }

  /** Lines 683-735: the flows in whatever order. */
  method ApplyUdp(little: bool, bufs: seq<Buf>, m: UdpFlows, ghost pkts: Packets, ghost parts: Parts)
    returns (bufs': seq<Buf>)
    requires Small(bufs) && UdpTableOk(pkts, parts, bufs, m)
    ensures |bufs'| == |bufs| && Small(bufs')
    ensures forall l :: UdpTracked(m, l) ==> Out(pkts, parts, bufs', l)
    ensures forall l :: 0 <= l < |bufs| && !UdpTracked(m, l) ==> bufs'[l] == bufs[l]
  {
    hide UdpGroup, UdpOut, Out;
    bufs' := bufs;
    var keys := m.Keys;
    while keys != {}
      invariant keys <= m.Keys && |bufs'| == |bufs| && Small(bufs')
      invariant forall key, a {:trigger m[key][a]} ::
        key in m.Keys - keys && 0 <= a < |m[key]| ==> Out(pkts, parts, bufs', m[key][a].bufsIndex)
      invariant forall l :: 0 <= l < |bufs| && !UdpTrackedIn(m, m.Keys - keys, l) ==> bufs'[l] == bufs[l]
      decreases |keys|
    {
      var key :| key in keys;
      bufs' := ApplyUdpFlow(little, bufs', m, key, pkts, parts, bufs, m.Keys - keys);
      assert m.Keys - keys + {key} == m.Keys - (keys - {key});
      keys := keys - {key};
    }
    assert m.Keys - keys == m.Keys;
  }

  method ApplyUdpFlow(little: bool, bufs: seq<Buf>, m: UdpFlows, key: FlowKey, ghost pkts: Packets,
                   ghost parts: Parts, ghost was: seq<Buf>, ghost done: set<FlowKey>)
    returns (bufs': seq<Buf>)
    requires Small(was) && Small(bufs) && UdpTableOk(pkts, parts, was, m) && |bufs| == |was| && done <= m.Keys
      && key in m && key !in done
    requires forall k, a {:trigger m[k][a]} ::
      k in done && 0 <= a < |m[k]| ==> Out(pkts, parts, bufs, m[k][a].bufsIndex)
    requires forall l :: 0 <= l < |was| && !UdpTrackedIn(m, done, l) ==> bufs[l] == was[l]
    ensures |bufs'| == |was| && Small(bufs')
    ensures forall k, a {:trigger m[k][a]} ::
      k in done + {key} && 0 <= a < |m[k]| ==> Out(pkts, parts, bufs', m[k][a].bufsIndex)
    ensures forall l :: 0 <= l < |was| && !UdpTrackedIn(m, done + {key}, l) ==> bufs'[l] == was[l]
  {
    hide UdpGroup, TcpOut, UdpOut, Alone;
    var items := m[key];
    UdpFlowFresh(pkts, parts, was, m, key, done);
    bufs' := WriteUdpFlow(little, bufs, items, pkts, parts, was);
    forall k: FlowKey, a: nat {:trigger m[k][a]} | k in done + {key} && a < |m[k]|
      ensures Out(pkts, parts, bufs', m[k][a].bufsIndex)
    {
      if k != key {
        assert !UdpNamed(items, |items|, m[k][a].bufsIndex);
        OutKept(pkts, parts, bufs, bufs', m[k][a].bufsIndex);
      }
    }
    forall l | 0 <= l < |was| && !UdpTrackedIn(m, done + {key}, l)
      ensures bufs'[l] == was[l]
    {
      assert !UdpNamed(items, |items|, l) && !UdpTrackedIn(m, done, l);
    }
  }

  /** A flow's items are in buffers of their own. */
  lemma UdpFlowFresh(pkts: Packets, parts: Parts, bufs: seq<Buf>, m: UdpFlows, key: FlowKey, done: set<FlowKey>)
    requires UdpTableOk(pkts, parts, bufs, m) && key in m && key !in done
    ensures forall a ::
      0 <= a < |m[key]| ==> UdpItemOk(pkts, parts, bufs, m[key][a]) && !UdpTrackedIn(m, done, m[key][a].bufsIndex)
    ensures forall k: FlowKey, a: nat {:trigger m[k][a]} ::
      k in m && k != key && a < |m[k]| ==> !UdpNamed(m[key], |m[key]|, m[k][a].bufsIndex)
  {
    hide UdpGroup;
    forall a: nat | a < |m[key]|
      ensures UdpItemOk(pkts, parts, bufs, m[key][a]) && !UdpTrackedIn(m, done, m[key][a].bufsIndex)
    {
      if UdpTrackedIn(m, done, m[key][a].bufsIndex) {
        var k: FlowKey, b: nat :| k in done && k in m && b < |m[k]| && m[k][b].bufsIndex == m[key][a].bufsIndex;
        UdpItemsApart(pkts, parts, bufs, m, key, a, k, b);
      }
    }
    forall k: FlowKey, a: nat {:trigger m[k][a]} | k in m && k != key && a < |m[k]|
      ensures !UdpNamed(m[key], |m[key]|, m[k][a].bufsIndex)
    {
      if UdpNamed(m[key], |m[key]|, m[k][a].bufsIndex) {
        var b: nat :| b < |m[key]| && m[key][b].bufsIndex == m[k][a].bufsIndex;
        UdpItemsApart(pkts, parts, bufs, m, key, b, k, a);
      }
    }
  }
}
