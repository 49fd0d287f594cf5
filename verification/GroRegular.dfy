/**
 * Which packets receive offload does coalesce, said of the packets alone: wireguard-go/tun/offload_linux.go, lines
 * 279-386 and 861-888.
 */
module GroRegular {
  import opened Checksum
  import opened Gro
  import opened GroTables
  import opened GsoSplit
  import opened HandleGro
  import opened Options
  import opened Runs
  import opened Words

  /** The IP headers agree on version, type of service, hop limit and fragmentation flags. */
  predicate SameIp(p: seq<byte>, q: seq<byte>, isV6: bool)
    requires |p| >= 20 && |q| >= 20
  {
    if isV6 then p[0] == q[0] && p[1] / 16 == q[1] / 16 && p[7] == q[7]
    else p[1] == q[1] && p[6] / 32 == q[6] / 32 && p[8] == q[8]
  }

  /** Two TCP packets of one flow with headers of one length, which agree on all that is not of one packet alone. */
  predicate TcpMatch(p: seq<byte>, q: seq<byte>) {
    && TcpOf(p).Some? && TcpOf(q).Some?
    && var s, r := TcpOf(p).value, TcpOf(q).value;
       && s.key == r.key && s.tcphLen == r.tcphLen && SameIp(p, q, s.key.isV6)
       && p[s.iphLen + 20..s.HeadersLen()] == q[s.iphLen + 20..s.HeadersLen()]
  }

  function SeqNo(p: seq<byte>): nat
    requires TcpOf(p).Some?
  {
    TcpOf(p).value.seqNo
  }

  function PayloadLen(p: seq<byte>): nat
    requires TcpOf(p).Some?
  {
    TcpOf(p).value.gsoSize
  }

  /** The packet starts where the last of the others ends, which are all of one size, and is no larger. */
  ghost predicate Continues(pkts: Packets, ks: seq<nat>, k: nat)
    requires ks != [] && k < |pkts| && TcpOf(pkts[k]).Some?
    requires forall t :: 0 <= t < |ks| ==> ks[t] < |pkts| && TcpOf(pkts[ks[t]]).Some?
  {
    var first, last, p := pkts[ks[0]], pkts[ks[|ks| - 1]], pkts[k];
    && TcpMatch(first, p) && SeqNo(p) == (SeqNo(last) + PayloadLen(last)) % TWO32
    && PayloadLen(last) == PayloadLen(first) >= PayloadLen(p) && !TcpOf(last).value.pshSet
  }

  /** The packet ends where the first of the others starts; it is of their size, or larger than a single one. */
  ghost predicate Precedes(pkts: Packets, ks: seq<nat>, k: nat)
    requires ks != [] && k < |pkts| && TcpOf(pkts[k]).Some?
    requires forall t :: 0 <= t < |ks| ==> ks[t] < |pkts| && TcpOf(pkts[ks[t]]).Some?
  {
    var first, p := pkts[ks[0]], pkts[k];
    && TcpMatch(first, p) && SeqNo(first) == (SeqNo(p) + PayloadLen(p)) % TWO32
    && PayloadLen(p) >= PayloadLen(first) && (PayloadLen(p) > PayloadLen(first) ==> |ks| == 1)
    && !TcpOf(p).value.pshSet
  }

  /** What a description of a buffer says of the packets in it. */
  lemma GroupKnown(pkts: Packets, ks: seq<nat>, item: TcpItem, pkt: seq<byte>, t: nat)
    requires TcpGroup(pkts, ks, item, pkt) && t < |ks|
    ensures ks[t] < |pkts| && TcpOf(pkts[ks[t]]).Some?
    ensures var s := TcpOf(pkts[ks[t]]).value;
      && s.key == item.key && s.iphLen == item.iphLen && s.tcphLen == item.tcphLen
      && s.seqNo == (item.sentSeq + item.gsoSize * t) % TWO32
      && (t < |ks| - 1 ==> s.gsoSize == item.gsoSize) && s.gsoSize <= item.gsoSize
      && s.pshSet == (item.pshSet && t == |ks| - 1)
    ensures t == 0 ==> SeqNo(pkts[ks[0]]) == item.sentSeq && PayloadLen(pkts[ks[0]]) == item.gsoSize
  {
    hide TcpOf, AllCheck, AllAlike;
    assert AtPlace(pkts, ks[t], item, t);
    SeqAtIs(item.sentSeq, item.gsoSize, t);
    assert Pieces(pkts, ks, item.HeadersLen())[t] == pkts[ks[t]][item.HeadersLen()..];
    Lengths(pkts[ks[t]]);
    if t == 0 {
      ModSmall(item.sentSeq, TWO32);
    }
  }

  lemma Lengths(p: seq<byte>)
    requires TcpOf(p).Some?
    ensures var s := TcpOf(p).value;
      && s.HeadersLen() + s.gsoSize == |p| && s.gsoSize > 0 && s.iphLen == (if s.key.isV6 then 40 else 20)
      && 20 <= s.tcphLen && s.seqNo < TWO32
    ensures if TcpOf(p).value.key.isV6 then p[0] / 16 == 6 else p[0] == 0x45
  {
    TcpBytes(p);
  }

  /** How long the joined packet is. */
  lemma JoinedLength(pkts: Packets, ks: seq<nat>, item: TcpItem, pkt: seq<byte>)
    requires TcpGroup(pkts, ks, item, pkt)
    ensures ks != [] && ks[|ks| - 1] < |pkts| && TcpOf(pkts[ks[|ks| - 1]]).Some?
    ensures |pkt| == item.HeadersLen() + item.gsoSize * (|ks| - 1) + PayloadLen(pkts[ks[|ks| - 1]])
  {
    hide TcpOf, AllCheck, AllAlike, PshOk;
    GroupKnown(pkts, ks, item, pkt, |ks| - 1);
    Lengths(pkts[ks[|ks| - 1]]);
    FlatLength(Pieces(pkts, ks, item.HeadersLen()), item.gsoSize);
  }

  /** Matching the first packet is matching the headers of the joined one. */
  lemma MatchIs(pkts: Packets, ks: seq<nat>, item: TcpItem, pkt: seq<byte>, k: nat)
    requires TcpGroup(pkts, ks, item, pkt) && k < |pkts| && TcpOf(pkts[k]).Some?
      && TcpOf(pkts[k]).value.key == item.key && TcpOf(pkts[k]).value.tcphLen == item.tcphLen
    ensures ks != [] && ks[0] < |pkts| && item.iphLen + 20 <= item.HeadersLen() <= |pkts[k]| && |pkt| >= 20
    ensures TcpMatch(pkts[ks[0]], pkts[k]) <==>
      IpHeadersCanCoalesce(pkts[k], pkt)
        && pkts[k][item.iphLen + 20..item.HeadersLen()] == pkt[item.iphLen + 20..item.HeadersLen()]
  {
    hide TcpOf, AllCheck, Joined, PshOk, InSequence;
    GroupKnown(pkts, ks, item, pkt, 0);
    Lengths(pkts[ks[0]]);
    Lengths(pkts[k]);
    assert Alike(pkts[ks[0]], pkt, item.iphLen + 20, item.HeadersLen());
  }

  /** Whether the joined payload is a multiple of the size says whether the last piece is full. */
  lemma FullLast(g: nat, m: nat, last: nat)
    requires 0 < last <= g
    ensures (g * m + last) % g == 0 <==> last == g
  {
    if last < g {
      ModIs(g * m + last, g, m, last);
    } else {
      assert g * m + g == g * (m + 1);
      ModIs(g * m + last, g, m + 1, 0);
    }
  }

  /** The numbers of a buffer, and of a packet of its flow. */
  ghost predicate Facts(pkts: Packets, ks: seq<nat>, item: TcpItem, pkt: seq<byte>, k: nat) {
    && ks != [] && |ks| == item.numMerged + 1 && k < |pkts| && TcpOf(pkts[k]).Some?
    && (forall t :: 0 <= t < |ks| ==> ks[t] < |pkts| && TcpOf(pkts[ks[t]]).Some?)
    && var first, last, s := TcpOf(pkts[ks[0]]).value, TcpOf(pkts[ks[|ks| - 1]]).value, TcpOf(pkts[k]).value;
    && first.seqNo == item.sentSeq < TWO32 && first.gsoSize == item.gsoSize > 0
    && first.key == item.key == s.key && first.tcphLen == item.tcphLen && first.iphLen == item.iphLen == s.iphLen
    && last.seqNo == (item.sentSeq + item.gsoSize * (|ks| - 1)) % TWO32 && 0 < last.gsoSize <= item.gsoSize
    && last.pshSet == item.pshSet
    && |pkt| == item.HeadersLen() + item.gsoSize * (|ks| - 1) + last.gsoSize <= 0xffff
    && s.HeadersLen() + s.gsoSize == |pkts[k]| <= 0xffff && s.tcphLen >= 20 && s.gsoSize > 0 && s.seqNo < TWO32
  }

  lemma GroupCount(pkts: Packets, ks: seq<nat>, item: TcpItem, pkt: seq<byte>)
    requires TcpGroup(pkts, ks, item, pkt)
    ensures |ks| == item.numMerged + 1 && item.sentSeq < TWO32
  {
    hide TcpOf, AllCheck, AllAlike, PshOk, Joined, InSequence;
  }

  lemma FactsOf(pkts: Packets, ks: seq<nat>, item: TcpItem, pkt: seq<byte>, k: nat)
    requires TcpGroup(pkts, ks, item, pkt) && item.gsoSize > 0 && |pkt| <= 0xffff
    requires k < |pkts| && TcpOf(pkts[k]).Some? && TcpOf(pkts[k]).value.key == item.key
    ensures Facts(pkts, ks, item, pkt, k)
  {
    hide TcpOf, TcpGroup;
    GroupCount(pkts, ks, item, pkt);
    JoinedLength(pkts, ks, item, pkt);
    forall t | 0 <= t < |ks|
      ensures ks[t] < |pkts| && TcpOf(pkts[ks[t]]).Some?
    {
      GroupKnown(pkts, ks, item, pkt, t);
    }
    GroupKnown(pkts, ks, item, pkt, 0);
    GroupKnown(pkts, ks, item, pkt, |ks| - 1);
    Lengths(pkts[ks[0]]);
    Lengths(pkts[ks[|ks| - 1]]);
    Lengths(pkts[k]);
  }

  /** What the code asks of a packet before it appends it. */
  lemma ModeIsAppend(pkt: seq<byte>, s: TcpSeg, item: TcpItem, target: seq<byte>)
    requires s.HeadersLen() <= |pkt| && item.HeadersLen() <= |target| && s.iphLen == item.iphLen && item.gsoSize > 0
      && s.tcphLen >= 20
    ensures TcpMode(pkt, s, item, target) == Append <==>
      && s.tcphLen == item.tcphLen
      && pkt[s.iphLen + 20..s.HeadersLen()] == target[item.iphLen + 20..s.HeadersLen()]
      && IpHeadersCanCoalesce(pkt, target) && s.seqNo == (item.sentSeq + LhsLen(item)) % TWO32
      && !item.pshSet && |target[s.HeadersLen()..]| % item.gsoSize == 0 && s.gsoSize <= item.gsoSize
  {
    hide IpHeadersCanCoalesce, LhsLen;
  }

  /** Where the packet has to start: the code's 16-bit sum is right when the last piece is full. */
  lemma WhereNext(item: TcpItem, m: nat, last: nat, lastSeq: nat)
    requires m == item.numMerged && last == item.gsoSize && item.gsoSize * m + last <= 0xffff
    requires lastSeq == (item.sentSeq + item.gsoSize * m) % TWO32
    ensures (lastSeq + last) % TWO32 == (item.sentSeq + LhsLen(item)) % TWO32
  {
    assert item.gsoSize * (m + 1) == item.gsoSize * m + item.gsoSize;
    NextSeq(item, m + 1);
    ModAdd(item.sentSeq + item.gsoSize * m, last);
  }

  /** A packet is appended if and only if it continues the packets of the buffer. */
  lemma AppendsExactly(pkts: Packets, ks: seq<nat>, item: TcpItem, pkt: seq<byte>, k: nat, s: TcpSeg)
    requires TcpGroup(pkts, ks, item, pkt) && item.gsoSize > 0 && |pkt| <= 0xffff
    requires k < |pkts| && TcpOf(pkts[k]) == Some(s) && s.key == item.key
    ensures Facts(pkts, ks, item, pkt, k)
    ensures TcpMode(pkts[k], s, item, pkt) == Append <==> Continues(pkts, ks, k)
  {
    hide TcpOf, TcpGroup, TcpMatch, IpHeadersCanCoalesce, TcpMode, LhsLen;
    FactsOf(pkts, ks, item, pkt, k);
    var m := |ks| - 1;
    var last := TcpOf(pkts[ks[m]]).value;
    FullLast(item.gsoSize, m, last.gsoSize);
    ModeIsAppend(pkts[k], s, item, pkt);
    if s.tcphLen == item.tcphLen {
      MatchIs(pkts, ks, item, pkt, k);
    } else {
      NoMatch(pkts[ks[0]], pkts[k]);
    }
    if last.gsoSize == item.gsoSize {
      WhereNext(item, m, last.gsoSize, last.seqNo);
    }
  }

  lemma NoMatch(p: seq<byte>, q: seq<byte>)
    requires TcpOf(p).Some? && TcpOf(q).Some? && TcpOf(p).value.tcphLen != TcpOf(q).value.tcphLen
    ensures !TcpMatch(p, q)
  {
    hide TcpOf;
  }

  lemma ModeIsPrepend(pkt: seq<byte>, s: TcpSeg, item: TcpItem, target: seq<byte>)
    requires s.HeadersLen() <= |pkt| && item.HeadersLen() <= |target| && s.iphLen == item.iphLen && item.gsoSize > 0
      && s.tcphLen >= 20
    ensures TcpMode(pkt, s, item, target) == Prepend <==>
      && s.tcphLen == item.tcphLen
      && pkt[s.iphLen + 20..s.HeadersLen()] == target[item.iphLen + 20..s.HeadersLen()]
      && IpHeadersCanCoalesce(pkt, target) && s.seqNo != (item.sentSeq + LhsLen(item)) % TWO32
      && (s.seqNo + s.gsoSize) % TWO32 == item.sentSeq && !s.pshSet && s.gsoSize >= item.gsoSize
      && (s.gsoSize > item.gsoSize ==> item.numMerged == 0)
  {
    hide IpHeadersCanCoalesce, LhsLen;
  }

  /** A packet does not both end where the others start and start where they end. */
  lemma NotBoth(seqNo: nat, size: nat, sentSeq: nat, lhs: nat)
    requires seqNo < TWO32 && sentSeq < TWO32 && 0 < size <= 0xffff && lhs <= 0xffff
    requires (seqNo + size) % TWO32 == sentSeq
    ensures seqNo != (sentSeq + lhs) % TWO32
  {
    assert sentSeq == seqNo + size || sentSeq == seqNo + size - TWO32;
  }

  /** A packet is prepended if and only if it precedes the packets of the buffer. */
  lemma PrependsExactly(pkts: Packets, ks: seq<nat>, item: TcpItem, pkt: seq<byte>, k: nat, s: TcpSeg)
    requires TcpGroup(pkts, ks, item, pkt) && item.gsoSize > 0 && |pkt| <= 0xffff
    requires k < |pkts| && TcpOf(pkts[k]) == Some(s) && s.key == item.key
    ensures Facts(pkts, ks, item, pkt, k)
    ensures TcpMode(pkts[k], s, item, pkt) == Prepend <==> Precedes(pkts, ks, k)
  {
    hide TcpOf, TcpGroup, TcpMatch, IpHeadersCanCoalesce, TcpMode, LhsLen;
    FactsOf(pkts, ks, item, pkt, k);
    ModeIsPrepend(pkts[k], s, item, pkt);
    if s.tcphLen == item.tcphLen {
      MatchIs(pkts, ks, item, pkt, k);
    } else {
      NoMatch(pkts[ks[0]], pkts[k]);
    }
    if (s.seqNo + s.gsoSize) % TWO32 == item.sentSeq {
      NotBoth(s.seqNo, s.gsoSize, item.sentSeq, LhsLen(item));
    }
  }

  /** The packets of buffer `j` are TCP, and so is packet `n`. */
  ghost predicate TcpBuffer(pkts: Packets, x: Snapshot, j: nat, n: nat) {
    && j in x.tr.parts && j < |x.bufs| && n < |x.bufs| && n < |pkts| && x.tr.parts[j] != [] && TcpOf(pkts[n]).Some?
    && (forall t :: 0 <= t < |x.tr.parts[j]| ==>
          x.tr.parts[j][t] < |pkts| && TcpOf(pkts[x.tr.parts[j][t]]).Some?)
  }

  /** Packet `n` goes with the packets of buffer `j`: there is room, and checksums are right. */
  ghost predicate TcpTakes(pkts: Packets, x: Snapshot, j: nat, n: nat, offset: nat) {
    && TcpBuffer(pkts, x, j, n) && GoodTcp(pkts[n]) && GoodTcp(pkts[x.tr.parts[j][0]])
    && var length := |x.bufs[j].pkt| + PayloadLen(pkts[n]);
       || (Continues(pkts, x.tr.parts[j], n) && offset + length <= x.bufs[j].cap)
       || (Precedes(pkts, x.tr.parts[j], n) && offset + length <= x.bufs[n].cap)
  }

  /** The checksum of the first packet of an item is right exactly if what the code looks at says so. */
  lemma FirstGood(pkts: Packets, ks: seq<nat>, item: TcpItem, pkt: seq<byte>)
    requires TcpGroup(pkts, ks, item, pkt) && |pkt| <= 0xffff
    ensures ks != [] && ks[0] < |pkts| && item.iphLen == (if item.key.isV6 then 40 else 20) <= |pkt|
    ensures GoodTcp(pkts[ks[0]]) <==> item.numMerged == 0 ==> Checks(pkt, item.iphLen, IPPROTO_TCP, item.key.isV6)
  {
    hide TcpOf, Checks, AllAlike, PshOk, Joined, InSequence;
    GroupKnown(pkts, ks, item, pkt, 0);
    Lengths(pkts[ks[0]]);
  }

  /** What the code asks besides the mode. */
  lemma AcceptsMeans(bufs: seq<Buf>, n: nat, s: TcpSeg, item: TcpItem, offset: nat)
    requires n < |bufs| && item.bufsIndex < |bufs| && item.gsoSize > 0 && item.iphLen == s.iphLen
      && s.iphLen == (if s.key.isV6 then 40 else 20) && 20 <= s.tcphLen <= 60
    requires s.HeadersLen() + s.gsoSize == |bufs[n].pkt| <= 0xffff
      && item.HeadersLen() <= |bufs[item.bufsIndex].pkt| <= 0xffff
    ensures TcpAccepts(bufs, n, s, item, offset) <==>
      var mode, target := TcpMode(bufs[n].pkt, s, item, bufs[item.bufsIndex].pkt), bufs[item.bufsIndex];
      && ((mode == Append && offset + |target.pkt| + s.gsoSize <= target.cap)
        || (mode == Prepend && !s.pshSet && offset + |target.pkt| + s.gsoSize <= bufs[n].cap))
      && Checks(bufs[n].pkt, item.iphLen, IPPROTO_TCP, s.key.isV6)
      && (item.numMerged == 0 ==> Checks(target.pkt, item.iphLen, IPPROTO_TCP, s.key.isV6))
  {
    hide Checks, TcpMode;
    if TcpMode(bufs[n].pkt, s, item, bufs[item.bufsIndex].pkt) != Unavailable {
      ModeMeans(bufs[n].pkt, s, item, bufs[item.bufsIndex].pkt);
    }
  }

  /** One item takes the packet if and only if the packet goes with those of its buffer. */
  lemma AcceptsExactly(pkts: Packets, x: Snapshot, item: TcpItem, n: nat, s: TcpSeg, offset: nat)
    requires TcpItemOk(pkts, x.tr.parts, x.bufs, item) && |x.bufs[item.bufsIndex].pkt| <= 0xffff
    requires n < |x.bufs| == |pkts| && x.bufs[n].pkt == pkts[n] && TcpOf(pkts[n]) == Some(s) && s.key == item.key
    ensures TcpAccepts(x.bufs, n, s, item, offset) <==> TcpTakes(pkts, x, item.bufsIndex, n, offset)
  {
    hide TcpOf, TcpGroup, TcpMode, Checks, Continues, Precedes, TcpAccepts;
    var j, ks := item.bufsIndex, x.tr.parts[item.bufsIndex];
    AppendsExactly(pkts, ks, item, x.bufs[j].pkt, n, s);
    PrependsExactly(pkts, ks, item, x.bufs[j].pkt, n, s);
    FirstGood(pkts, ks, item, x.bufs[j].pkt);
    Lengths(pkts[n]);
    TcpSize(pkts[n]);
    LengthsKnown(pkts, ks, n);
    AcceptsMeans(x.bufs, n, s, item, offset);
    BufferOf(pkts, x, item, n);
    hide Facts, TcpBuffer, TcpItemOk;
  }

  lemma BufferOf(pkts: Packets, x: Snapshot, item: TcpItem, n: nat)
    requires item.bufsIndex in x.tr.parts && item.bufsIndex < |x.bufs| && n < |x.bufs|
    requires Facts(pkts, x.tr.parts[item.bufsIndex], item, x.bufs[item.bufsIndex].pkt, n)
    ensures TcpBuffer(pkts, x, item.bufsIndex, n)
  {
    hide TcpOf;
  }

  lemma TcpSize(p: seq<byte>)
    requires TcpOf(p).Some?
    ensures TcpOf(p).value.tcphLen <= 60
  {
  }

  lemma LengthsKnown(pkts: Packets, ks: seq<nat>, n: nat)
    requires ks != [] && n < |pkts| && TcpOf(pkts[n]).Some?
    requires forall t :: 0 <= t < |ks| ==> ks[t] < |pkts| && TcpOf(pkts[ks[t]]).Some?
    ensures Continues(pkts, ks, n) || Precedes(pkts, ks, n) ==>
      TcpOf(pkts[ks[0]]).value.tcphLen == TcpOf(pkts[n]).value.tcphLen
      && TcpOf(pkts[ks[0]]).value.key == TcpOf(pkts[n]).value.key
    ensures Precedes(pkts, ks, n) ==> !TcpOf(pkts[n]).value.pshSet
  {
    hide TcpOf;
  }

  /** The flow of the packet has the item of the buffer that takes it. */
  lemma TakerTracked(pkts: Packets, x: Snapshot, j: nat, n: nat, offset: nat, canUdp: bool)
    requires Held(pkts, x, n, canUdp) && n < |pkts| && TcpTakes(pkts, x, j, n, offset)
    ensures var key := TcpOf(pkts[n]).value.key;
      key in x.tcp && exists a :: 0 <= a < |x.tcp[key]| && x.tcp[key][a].bufsIndex == j
  {
    hide TcpOf, TcpGroup, UdpTableOk, Accounted, Untouched, InOrder, Continues, Precedes;
    var ks := x.tr.parts[j];
    assert x.tr.OwnPart(j) && ks[0] in ks;
    LengthsKnown(pkts, ks, n);
    assert x.tr.home[ks[0]] == j && TcpTracked(x.tcp, j);
    var key, a :| key in x.tcp && 0 <= a < |x.tcp[key]| && x.tcp[key][a].bufsIndex == j;
    assert TcpItemOk(pkts, x.tr.parts, x.bufs, x.tcp[key][a]);
    TcpItemFlow(pkts, x.tr.parts, x.bufs, x.tcp[key][a]);
  }

  lemma ItemHeld(pkts: Packets, x: Snapshot, n: nat, canUdp: bool, key: FlowKey, a: nat)
    requires Held(pkts, x, n, canUdp) && n < |pkts| && key in x.tcp && a < |x.tcp[key]|
    ensures var item := x.tcp[key][a];
      TcpItemOk(pkts, x.tr.parts, x.bufs, item) && item.key == key && |x.bufs[item.bufsIndex].pkt| <= 0xffff
    ensures n < |x.bufs| == |pkts| && x.bufs[n].pkt == pkts[n]
  {
    hide TcpItemOk, UdpTableOk, Accounted, InOrder, TcpKept;
    assert TcpItemOk(pkts, x.tr.parts, x.bufs, x.tcp[key][a]);
    ItemInRange(pkts, x.tr.parts, x.bufs, x.tcp[key][a]);
  }

  lemma ItemInRange(pkts: Packets, parts: Parts, bufs: seq<Buf>, item: TcpItem)
    requires TcpItemOk(pkts, parts, bufs, item)
    ensures item.bufsIndex < |bufs|
  {
    hide TcpGroup;
  }

  /** A TCP packet is merged if and only if it goes with the packets of some buffer. */
  lemma TcpMergesExactly(pkts: Packets, x: Snapshot, n: nat, offset: nat, canUdp: bool)
    requires Held(pkts, x, n, canUdp) && n < |pkts| && n < |x.bufs|
    ensures TcpJoins(x.bufs, n, x.tcp, offset) <==> exists j :: TcpTakes(pkts, x, j, n, offset)
  {
    hide TcpOf, Held, TcpAccepts, TcpTakes, TcpItemOk;
    BufferIs(pkts, x, n, canUdp);
    if TcpJoins(x.bufs, n, x.tcp, offset) {
      var s := TcpOf(pkts[n]).value;
      var a :| 0 <= a < |x.tcp[s.key]| && TcpAccepts(x.bufs, n, s, x.tcp[s.key][a], offset);
      ItemHeld(pkts, x, n, canUdp, s.key, a);
      AcceptsExactly(pkts, x, x.tcp[s.key][a], n, s, offset);
    }
    if exists j :: TcpTakes(pkts, x, j, n, offset) {
      var j :| TcpTakes(pkts, x, j, n, offset);
      TakenIsTcp(pkts, x, j, n, offset);
      TakerTracked(pkts, x, j, n, offset, canUdp);
      var s := TcpOf(pkts[n]).value;
      var a :| 0 <= a < |x.tcp[s.key]| && x.tcp[s.key][a].bufsIndex == j;
      ItemHeld(pkts, x, n, canUdp, s.key, a);
      AcceptsExactly(pkts, x, x.tcp[s.key][a], n, s, offset);
    }
  }

  lemma BufferIs(pkts: Packets, x: Snapshot, n: nat, canUdp: bool)
    requires Held(pkts, x, n, canUdp) && n < |pkts|
    ensures n < |x.bufs| == |pkts| && x.bufs[n].pkt == pkts[n]
  {
    hide TcpTableOk, UdpTableOk, Accounted, InOrder, TcpKept;
  }

  lemma TakenIsTcp(pkts: Packets, x: Snapshot, j: nat, n: nat, offset: nat)
    requires TcpTakes(pkts, x, j, n, offset)
    ensures n < |pkts| && TcpOf(pkts[n]).Some?
  {
    hide TcpOf, Checks;
  }

  /** Two datagrams of one flow whose IP headers agree on all that is not of one packet alone. */
  predicate UdpMatch(p: seq<byte>, q: seq<byte>) {
    && UdpOf(p).Some? && UdpOf(q).Some?
    && UdpOf(p).value.key == UdpOf(q).value.key && |p| >= 20 && |q| >= 20 && SameIp(p, q, UdpOf(p).value.key.isV6)
  }

  /** The datagram goes with the others, which are all of one size, and is no larger. */
  ghost predicate UdpContinues(pkts: Packets, ks: seq<nat>, k: nat)
    requires ks != [] && k < |pkts| && UdpOf(pkts[k]).Some?
    requires forall t :: 0 <= t < |ks| ==> ks[t] < |pkts| && UdpOf(pkts[ks[t]]).Some?
  {
    var first, last, p := UdpOf(pkts[ks[0]]).value, UdpOf(pkts[ks[|ks| - 1]]).value, UdpOf(pkts[k]).value;
    UdpMatch(pkts[ks[0]], pkts[k]) && last.gsoSize == first.gsoSize >= p.gsoSize
  }

  lemma UdpLengths(p: seq<byte>)
    requires UdpOf(p).Some?
    ensures var s := UdpOf(p).value;
      s.HeadersLen() + s.gsoSize == |p| <= 0xffff && s.gsoSize > 0 && s.iphLen == if s.key.isV6 then 40 else 20
    ensures if UdpOf(p).value.key.isV6 then p[0] / 16 == 6 else p[0] == 0x45
  {
    UdpBytes(p);
  }

  /** The numbers of a buffer, and of a datagram of its flow. */
  ghost predicate UdpFacts(pkts: Packets, ks: seq<nat>, item: UdpItem, pkt: seq<byte>, k: nat) {
    && ks != [] && |ks| == item.numMerged + 1 && k < |pkts| && UdpOf(pkts[k]).Some?
    && (forall t :: 0 <= t < |ks| ==> ks[t] < |pkts| && UdpOf(pkts[ks[t]]).Some?)
    && var first, last, s := UdpOf(pkts[ks[0]]).value, UdpOf(pkts[ks[|ks| - 1]]).value, UdpOf(pkts[k]).value;
    && first.gsoSize == item.gsoSize > 0 && first.key == item.key == s.key && first.iphLen == item.iphLen == s.iphLen
    && 0 < last.gsoSize <= item.gsoSize && item.iphLen == (if item.key.isV6 then 40 else 20)
    && |pkt| == item.HeadersLen() + item.gsoSize * (|ks| - 1) + last.gsoSize <= 0xffff
    && s.HeadersLen() + s.gsoSize == |pkts[k]| <= 0xffff && s.gsoSize > 0
  }

  lemma UdpFactsOf(pkts: Packets, ks: seq<nat>, item: UdpItem, pkt: seq<byte>, k: nat)
    requires UdpGroup(pkts, ks, item, pkt) && item.gsoSize > 0 && |pkt| <= 0xffff
    requires k < |pkts| && UdpOf(pkts[k]).Some? && UdpOf(pkts[k]).value.key == item.key
    ensures UdpFacts(pkts, ks, item, pkt, k)
  {
    hide UdpOf, AllCheck, AllAlike, GoodUdp;
    var m, h := |ks| - 1, item.HeadersLen();
    assert InUdpFlow(pkts, ks[0], item) && InUdpFlow(pkts, ks[m], item);
    UdpLengths(pkts[ks[0]]);
    UdpLengths(pkts[ks[m]]);
    UdpLengths(pkts[k]);
    assert Pieces(pkts, ks, h)[m] == pkts[ks[m]][h..];
    FlatLength(Pieces(pkts, ks, h), item.gsoSize);
  }

  lemma UdpMatchIs(pkts: Packets, ks: seq<nat>, item: UdpItem, pkt: seq<byte>, k: nat)
    requires UdpGroup(pkts, ks, item, pkt) && k < |pkts| && UdpOf(pkts[k]).Some?
      && UdpOf(pkts[k]).value.key == item.key
    ensures ks != [] && ks[0] < |pkts|
    ensures UdpMatch(pkts[ks[0]], pkts[k]) <==> IpHeadersCanCoalesce(pkts[k], pkt)
  {
    hide UdpOf, AllCheck, Joined, GoodUdp;
    assert InUdpFlow(pkts, ks[0], item);
    UdpLengths(pkts[ks[0]]);
    UdpLengths(pkts[k]);
    assert Alike(pkts[ks[0]], pkt, item.HeadersLen(), item.HeadersLen());
  }

  lemma UdpModeIs(pkt: seq<byte>, s: UdpSeg, item: UdpItem, target: seq<byte>)
    requires item.HeadersLen() <= |target| && s.iphLen == item.iphLen && item.gsoSize > 0
    ensures UdpMode(pkt, s, item, target) == Append <==>
      && IpHeadersCanCoalesce(pkt, target) && |target[item.HeadersLen()..]| % item.gsoSize == 0
      && s.gsoSize <= item.gsoSize
  {
    hide IpHeadersCanCoalesce;
  }

  /** A datagram is appended if and only if it goes with those of the buffer. */
  lemma UdpAppendsExactly(pkts: Packets, ks: seq<nat>, item: UdpItem, pkt: seq<byte>, k: nat, s: UdpSeg)
    requires UdpGroup(pkts, ks, item, pkt) && item.gsoSize > 0 && |pkt| <= 0xffff
    requires k < |pkts| && UdpOf(pkts[k]) == Some(s) && s.key == item.key
    ensures UdpFacts(pkts, ks, item, pkt, k)
    ensures UdpMode(pkts[k], s, item, pkt) == Append <==> UdpContinues(pkts, ks, k)
  {
    hide UdpOf, UdpGroup, UdpMatch, IpHeadersCanCoalesce, UdpMode;
    UdpFactsOf(pkts, ks, item, pkt, k);
    var m, last := |ks| - 1, UdpOf(pkts[ks[|ks| - 1]]).value.gsoSize;
    assert |pkt[item.HeadersLen()..]| == item.gsoSize * m + last;
    FullLast(item.gsoSize, m, last);
    UdpMatchIs(pkts, ks, item, pkt, k);
    UdpModeIs(pkts[k], s, item, pkt);
    hide UdpFacts;
  }

  /** No packet of the datagram's flow is in a later buffer. */
  ghost predicate Newest(pkts: Packets, home: seq<nat>, j: nat, n: nat)
    requires n < |pkts| && n <= |home|
  {
    forall y: nat {:trigger SameUdpFlow(pkts, y, n)} :: y < n && SameUdpFlow(pkts, y, n) ==> home[y] <= j
  }

  /** The packets of buffer `j` are UDP, and so is packet `n`, whose flow has no later buffer. */
  ghost predicate UdpBuffer(pkts: Packets, x: Snapshot, j: nat, n: nat) {
    && j in x.tr.parts && j < |x.bufs| && n < |x.bufs| && n < |pkts| && x.tr.parts[j] != [] && n <= |x.tr.home|
    && UdpOf(pkts[n]).Some? && Newest(pkts, x.tr.home, j, n)
    && (forall t :: 0 <= t < |x.tr.parts[j]| ==>
          x.tr.parts[j][t] < |pkts| && UdpOf(pkts[x.tr.parts[j][t]]).Some?)
  }

  /** Buffer `j` is the newest of the datagram's flow, and the datagram goes with those in it. */
  ghost predicate UdpTakes(pkts: Packets, x: Snapshot, j: nat, n: nat, offset: nat) {
    && UdpBuffer(pkts, x, j, n) && GoodUdp(pkts[n]) && GoodUdp(pkts[x.tr.parts[j][0]])
    && UdpContinues(pkts, x.tr.parts[j], n)
    && offset + |x.bufs[j].pkt| + UdpOf(pkts[n]).value.gsoSize <= x.bufs[j].cap
  }

  lemma UdpBufferOf(pkts: Packets, x: Snapshot, item: UdpItem, n: nat)
    requires item.bufsIndex in x.tr.parts && item.bufsIndex < |x.bufs| && n < |x.bufs| && n < |pkts| && n <= |x.tr.home|
    requires UdpFacts(pkts, x.tr.parts[item.bufsIndex], item, x.bufs[item.bufsIndex].pkt, n)
    requires Newest(pkts, x.tr.home, item.bufsIndex, n)
    ensures UdpBuffer(pkts, x, item.bufsIndex, n)
  {
    hide UdpOf, Newest;
  }

  lemma UdpFirstGood(pkts: Packets, ks: seq<nat>, item: UdpItem, pkt: seq<byte>)
    requires UdpGroup(pkts, ks, item, pkt) && |pkt| <= 0xffff
    ensures ks != [] && ks[0] < |pkts| && item.iphLen == (if item.key.isV6 then 40 else 20) <= |pkt|
    ensures GoodUdp(pkts[ks[0]]) <==> item.numMerged == 0 ==>
      !item.cSumKnownInvalid && Checks(pkt, item.iphLen, IPPROTO_UDP, item.key.isV6)
  {
    hide UdpOf, Checks, AllAlike, Joined;
    assert InUdpFlow(pkts, ks[0], item);
    UdpLengths(pkts[ks[0]]);
  }

  /** What the code asks besides the mode. */
  lemma UdpAcceptsMeans(bufs: seq<Buf>, n: nat, s: UdpSeg, item: UdpItem, offset: nat)
    requires n < |bufs| && item.bufsIndex < |bufs| && item.gsoSize > 0 && item.iphLen == s.iphLen
      && s.iphLen == (if s.key.isV6 then 40 else 20)
    requires s.HeadersLen() + s.gsoSize == |bufs[n].pkt| <= 0xffff
      && item.HeadersLen() <= |bufs[item.bufsIndex].pkt| <= 0xffff
    ensures UdpAccepts(bufs, n, s, item, offset) <==>
      var target := bufs[item.bufsIndex];
      && UdpMode(bufs[n].pkt, s, item, target.pkt) == Append && offset + |target.pkt| + s.gsoSize <= target.cap
      && Checks(bufs[n].pkt, item.iphLen, IPPROTO_UDP, s.key.isV6)
      && (item.numMerged == 0 ==> !item.cSumKnownInvalid && Checks(target.pkt, item.iphLen, IPPROTO_UDP, s.key.isV6))
  {
    hide Checks, UdpMode;
  }

  lemma GoodUdpIs(p: seq<byte>, s: UdpSeg)
    requires UdpOf(p) == Some(s)
    ensures s.iphLen == (if s.key.isV6 then 40 else 20) <= |p| <= 0xffff
    ensures GoodUdp(p) <==> Checks(p, s.iphLen, IPPROTO_UDP, s.key.isV6)
  {
    hide ParseUdp, CandidateOf, Checks;
  }

  lemma UdpAcceptsExactly(pkts: Packets, x: Snapshot, item: UdpItem, n: nat, s: UdpSeg, offset: nat)
    requires UdpItemOk(pkts, x.tr.parts, x.bufs, item) && |x.bufs[item.bufsIndex].pkt| <= 0xffff
    requires n < |x.bufs| == |pkts| && x.bufs[n].pkt == pkts[n] && n <= |x.tr.home|
    requires UdpOf(pkts[n]) == Some(s) && s.key == item.key
    requires Newest(pkts, x.tr.home, item.bufsIndex, n)
    ensures UdpAccepts(x.bufs, n, s, item, offset) <==> UdpTakes(pkts, x, item.bufsIndex, n, offset)
  {
    hide UdpOf, UdpGroup, UdpMode, Checks, UdpContinues, UdpAccepts, Newest, GoodUdp;
    GoodUdpIs(pkts[n], s);
    var j, ks := item.bufsIndex, x.tr.parts[item.bufsIndex];
    UdpAppendsExactly(pkts, ks, item, x.bufs[j].pkt, n, s);
    UdpFirstGood(pkts, ks, item, x.bufs[j].pkt);
    UdpLengths(pkts[n]);
    UdpAcceptsMeans(x.bufs, n, s, item, offset);
    UdpBufferOf(pkts, x, item, n);
    hide UdpFacts, UdpBuffer, UdpItemOk;
  }

  /** The last item of a flow, if any packet of it was there before. */
  lemma LastHeld(pkts: Packets, x: Snapshot, n: nat, key: FlowKey)
    requires Held(pkts, x, n, true) && n < |pkts| && UdpOf(pkts[n]).Some? && UdpOf(pkts[n]).value.key == key
      && key in x.udp && x.udp[key] != []
    ensures var item := x.udp[key][|x.udp[key]| - 1];
      && UdpItemOk(pkts, x.tr.parts, x.bufs, item) && item.key == key && |x.bufs[item.bufsIndex].pkt| <= 0xffff
      && n <= |x.tr.home| && Newest(pkts, x.tr.home, item.bufsIndex, n)
  {
    hide UdpGroup, UdpOf, TcpTableOk, Accounted, TcpKept;
    var item := x.udp[key][|x.udp[key]| - 1];
    assert UdpItemOk(pkts, x.tr.parts, x.bufs, item);
    forall y: nat | y < n && SameUdpFlow(pkts, y, n)
      ensures x.tr.home[y] <= item.bufsIndex
    {
      assert NotPastLast(pkts, x.udp, x.tr.home, y);
    }
  }

  /** The buffer that takes a datagram is the last item's. */
  lemma TakerLast(pkts: Packets, x: Snapshot, j: nat, n: nat, offset: nat)
    requires Held(pkts, x, n, true) && n < |pkts| && UdpTakes(pkts, x, j, n, offset)
    ensures UdpOf(pkts[n]).Some?
    ensures var key := UdpOf(pkts[n]).value.key;
      key in x.udp && x.udp[key] != [] && x.udp[key][|x.udp[key]| - 1].bufsIndex == j
  {
    hide UdpGroup, UdpOf, TcpTableOk, Accounted, TcpKept, Checks, Untouched;
    var key, ks := UdpOf(pkts[n]).value.key, x.tr.parts[j];
    assert x.tr.OwnPart(j) && ks[0] in ks;
    assert SameUdpFlow(pkts, ks[0], n);
    assert NotPastLast(pkts, x.udp, x.tr.home, ks[0]);
    var item := x.udp[key][|x.udp[key]| - 1];
    assert UdpItemOk(pkts, x.tr.parts, x.bufs, item);
    UdpItemFlow(pkts, x.tr.parts, x.bufs, item);
    var first := x.tr.parts[item.bufsIndex][0];
    assert x.tr.OwnPart(item.bufsIndex) && first in x.tr.parts[item.bufsIndex];
    assert SameUdpFlow(pkts, first, n);
  }

  /** A datagram is merged if and only if it goes with those of the newest buffer of its flow. */
  lemma UdpMergesExactly(pkts: Packets, x: Snapshot, n: nat, offset: nat)
    requires Held(pkts, x, n, true) && n < |pkts| && n < |x.bufs|
    ensures UdpJoins(x.bufs, n, x.udp, offset) <==> exists j :: UdpTakes(pkts, x, j, n, offset)
  {
    hide UdpOf, Held, UdpAccepts, UdpTakes, UdpItemOk, Newest;
    BufferIs(pkts, x, n, true);
    HomeLength(pkts, x, n);
    if UdpJoins(x.bufs, n, x.udp, offset) {
      var key := UdpOf(pkts[n]).value.key;
      LastHeld(pkts, x, n, key);
      UdpAcceptsExactly(pkts, x, x.udp[key][|x.udp[key]| - 1], n, UdpOf(pkts[n]).value, offset);
    }
    if exists j :: UdpTakes(pkts, x, j, n, offset) {
      var j :| UdpTakes(pkts, x, j, n, offset);
      TakerLast(pkts, x, j, n, offset);
      var key := UdpOf(pkts[n]).value.key;
      LastHeld(pkts, x, n, key);
      UdpAcceptsExactly(pkts, x, x.udp[key][|x.udp[key]| - 1], n, UdpOf(pkts[n]).value, offset);
    }
  }

  lemma HomeLength(pkts: Packets, x: Snapshot, n: nat)
    requires Held(pkts, x, n, true)
    ensures |x.tr.home| == n
  {
    hide State, InOrder, TcpKept;
  }
}
