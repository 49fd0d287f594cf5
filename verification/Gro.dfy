/**
 * Which packets may be joined, and what a joined packet is: wireguard-go/tun/offload_linux.go, lines 60-506 and
 * 737-775.
 */
module Gro {
  import opened Checksum
  import opened GsoSplit
  import opened Options
  import opened Runs
  import opened Sequences
  import opened Words

  /** The packets of a batch, as they came. */
  type Packets = seq<seq<byte>>

  datatype Kind = NotCandidate | Tcp4 | Tcp6 | Udp4 | Udp6

  /** Lines 747-771. */
  function CandidateOf(b: seq<byte>, canUdp: bool): (kind: Kind)
    ensures kind.Tcp4? ==> |b| >= 40 && b[0] % 16 == 5
    ensures kind.Tcp6? ==> |b| >= 60
    ensures kind.Udp4? ==> |b| >= 28 && b[0] % 16 == 5
    ensures kind.Udp6? ==> |b| >= 48
  {
    if |b| < 28 then NotCandidate
    else if b[0] / 16 == 4 then
      if b[0] % 16 != 5 then NotCandidate
      else if b[9] == IPPROTO_TCP && |b| >= 40 then Tcp4
      else if b[9] == IPPROTO_UDP && canUdp then Udp4
      else NotCandidate
    else if b[0] / 16 == 6 then
      if b[6] == IPPROTO_TCP && |b| >= 60 then Tcp6
      else if b[6] == IPPROTO_UDP && |b| >= 48 && canUdp then Udp6
      else NotCandidate
    else NotCandidate
  }

  datatype FlowKey = FlowKey(src: seq<byte>, dst: seq<byte>, srcPort: uint16, dstPort: uint16, rxAck: Option<nat>,
    isV6: bool)

  /** Lines 85-95 and 193-202. */
  function KeyOf(pkt: seq<byte>, isV6: bool, iphLen: nat, tcp: bool): FlowKey
    requires SrcAt(isV6) + 2 * AddrLen(isV6) <= iphLen && iphLen + (if tcp then 12 else 8) <= |pkt|
  {
    var at, n := SrcAt(isV6), AddrLen(isV6);
    FlowKey(pkt[at..at + n], pkt[at + n..at + 2 * n], Get16(pkt, iphLen), Get16(pkt, iphLen + 2),
            if tcp then Some(Get32(pkt, iphLen + 8)) else None, isV6)
  }

  function IphLen(pkt: seq<byte>, isV6: bool): nat
    requires |pkt| > 0
  {
    if isV6 then 40 else 4 * (pkt[0] % 16)
  }

  /** Lines 533-549 and 784-800: the length field of the IP header is right. */
  predicate LengthOk(pkt: seq<byte>, isV6: bool)
    requires |pkt| >= 28
  {
    && |pkt| <= 0xffff
    && if isV6 then Get16(pkt, 4) == |pkt| - 40 else Get16(pkt, 2) == |pkt|
  }

  /** Lines 560-565 and 807-812. */
  predicate Fragmented(pkt: seq<byte>, isV6: bool)
    requires |pkt| >= 28
  {
    !isV6 && ((pkt[6] / 32) % 2 != 0 || pkt[6] % 32 != 0 || pkt[7] != 0)
  }

  const TCP_FLAG_ACK: byte := 0x10
  const TCP_FLAG_PSH: byte := 0x08

  /** What `tcpGRO` reads off a packet before it looks for a flow. */
  datatype TcpSeg = TcpSeg(key: FlowKey, iphLen: nat, tcphLen: nat, seqNo: nat, pshSet: bool, gsoSize: uint16) {
    function HeadersLen(): nat {
      iphLen + tcphLen
    }
  }

  /** Lines 531-586. */
  function ParseTcp(pkt: seq<byte>, isV6: bool): (s: Option<TcpSeg>)
    requires CandidateOf(pkt, false) == if isV6 then Tcp6 else Tcp4
    ensures s.Some? ==> s.value.gsoSize > 0 && s.value.HeadersLen() + s.value.gsoSize == |pkt| <= 0xffff
    ensures s.Some? ==>
      s.value.iphLen == (if isV6 then 40 else 20) && 20 <= s.value.tcphLen <= 60 && s.value.seqNo < TWO32
    ensures s.Some? ==> s.value.key.isV6 == isV6 && s.value.seqNo == Get32(pkt, s.value.iphLen + 4)
  {
    var iphLen := IphLen(pkt, isV6);
    var tcphLen := 4 * (pkt[iphLen + 12] / 16);
    if LengthOk(pkt, isV6) && 20 <= tcphLen <= 60 && |pkt| >= iphLen + tcphLen && !Fragmented(pkt, isV6) then
      var flags := pkt[iphLen + TCP_FLAGS_OFFSET];
      if (flags != TCP_FLAG_ACK && flags != TCP_FLAG_ACK + TCP_FLAG_PSH) || |pkt| == iphLen + tcphLen then None
      else Some(TcpSeg(KeyOf(pkt, isV6, iphLen, true), iphLen, tcphLen, Get32(pkt, iphLen + 4), flags != TCP_FLAG_ACK,
                       |pkt| - tcphLen - iphLen))
    else None
  }

  function TcpOf(pkt: seq<byte>): (s: Option<TcpSeg>)
    ensures s.Some? ==> s.value.gsoSize > 0 && s.value.HeadersLen() + s.value.gsoSize == |pkt| <= 0xffff
    ensures s.Some? ==>
      s.value.iphLen == (if s.value.key.isV6 then 40 else 20) && 20 <= s.value.tcphLen <= 60 && s.value.seqNo < TWO32
  {
    match CandidateOf(pkt, false)
    case Tcp4 => ParseTcp(pkt, false)
    case Tcp6 => ParseTcp(pkt, true)
    case _ => None
  }

  const UDPH_LEN := 8

  datatype UdpSeg = UdpSeg(key: FlowKey, iphLen: nat, gsoSize: uint16) {
    function HeadersLen(): nat {
      iphLen + UDPH_LEN
    }
  }

  /** Lines 782-823. */
  function ParseUdp(pkt: seq<byte>, isV6: bool): (s: Option<UdpSeg>)
    requires CandidateOf(pkt, true) == if isV6 then Udp6 else Udp4
    ensures s.Some? ==> s.value.gsoSize > 0 && s.value.HeadersLen() + s.value.gsoSize == |pkt| <= 0xffff
    ensures s.Some? ==> s.value.iphLen == (if isV6 then 40 else 20) && s.value.key.isV6 == isV6
  {
    var iphLen := IphLen(pkt, isV6);
    if LengthOk(pkt, isV6) && |pkt| >= iphLen + UDPH_LEN && !Fragmented(pkt, isV6) && |pkt| > UDPH_LEN + iphLen then
      Some(UdpSeg(KeyOf(pkt, isV6, iphLen, false), iphLen, |pkt| - UDPH_LEN - iphLen))
    else None
  }

  function UdpOf(pkt: seq<byte>): (s: Option<UdpSeg>)
    ensures s.Some? ==> s.value.gsoSize > 0 && s.value.HeadersLen() + s.value.gsoSize == |pkt| <= 0xffff
    ensures s.Some? ==> s.value.iphLen == if s.value.key.isV6 then 40 else 20
  {
    match CandidateOf(pkt, true)
    case Udp4 => ParseUdp(pkt, false)
    case Udp6 => ParseUdp(pkt, true)
    case _ => None
  }

  /** Lines 279-308. */
  predicate IpHeadersCanCoalesce(a: seq<byte>, b: seq<byte>) {
    && |a| >= 9 && |b| >= 9
    && if a[0] / 16 == 6 then
         a[0] == b[0] && a[1] / 16 == b[1] / 16 && a[7] == b[7]
       else
         a[1] == b[1] && a[6] / 32 == b[6] / 32 && a[8] == b[8]
  }

  datatype TcpItem = TcpItem(key: FlowKey, sentSeq: nat, bufsIndex: nat, numMerged: nat, gsoSize: uint16, iphLen: nat,
    tcphLen: nat, pshSet: bool) {
    function HeadersLen(): nat {
      iphLen + tcphLen
    }
  }

  datatype UdpItem = UdpItem(key: FlowKey, bufsIndex: nat, numMerged: nat, gsoSize: uint16, iphLen: nat,
    cSumKnownInvalid: bool) {
    function HeadersLen(): nat {
      iphLen + UDPH_LEN
    }
  }

  datatype Mode = Prepend | Unavailable | Append

  /** Lines 350-351, in 16-bit arithmetic. */
  function LhsLen(item: TcpItem): uint16 {
    (item.gsoSize + (item.numMerged * item.gsoSize) % 0x1_0000) % 0x1_0000
  }

  /** Lines 334-386. */
  function TcpMode(pkt: seq<byte>, s: TcpSeg, item: TcpItem, target: seq<byte>): Mode
    requires s.HeadersLen() <= |pkt| && item.HeadersLen() <= |target| && s.iphLen == item.iphLen && item.gsoSize > 0
      && s.tcphLen >= 20
  {
    if s.tcphLen != item.tcphLen then Unavailable
    else if s.tcphLen > 20
      && pkt[s.iphLen + 20..s.HeadersLen()] != target[item.iphLen + 20..s.HeadersLen()] then Unavailable
    else if !IpHeadersCanCoalesce(pkt, target) then Unavailable
    else if s.seqNo == (item.sentSeq + LhsLen(item)) % TWO32 then
      if item.pshSet then Unavailable
      else if |target[s.HeadersLen()..]| % item.gsoSize != 0 then Unavailable
      else if s.gsoSize > item.gsoSize then Unavailable
      else Append
    else if (s.seqNo + s.gsoSize) % TWO32 == item.sentSeq then
      if s.pshSet then Unavailable
      else if s.gsoSize < item.gsoSize then Unavailable
      else if s.gsoSize > item.gsoSize && item.numMerged > 0 then Unavailable
      else Prepend
    else Unavailable
  }

  /** Lines 314-329. */
  function UdpMode(pkt: seq<byte>, s: UdpSeg, item: UdpItem, target: seq<byte>): Mode
    requires item.HeadersLen() <= |target| && s.iphLen == item.iphLen && item.gsoSize > 0
  {
    if !IpHeadersCanCoalesce(pkt, target) then Unavailable
    else if |target[s.HeadersLen()..]| % item.gsoSize != 0 then Unavailable
    else if s.gsoSize > item.gsoSize then Unavailable
    else Append
  }

  /** The payloads of some of the packets, in a given order. */
  ghost function Pieces(pkts: Packets, ks: seq<nat>, h: nat): (ps: seq<seq<byte>>)
    requires forall t :: 0 <= t < |ks| ==> ks[t] < |pkts| && h <= |pkts[ks[t]]|
    ensures |ps| == |ks| && forall t :: 0 <= t < |ks| ==> ps[t] == pkts[ks[t]][h..]
  {
    seq(|ks|, t requires 0 <= t < |ks| => pkts[ks[t]][h..])
  }

  /** The payload of `pkt` is the payloads of the packets `ks`, joined. */
  ghost predicate Joined(pkts: Packets, ks: seq<nat>, h: nat, g: nat, pkt: seq<byte>) {
    // Comparing with `true` makes this one fact to the verifier; else it proves conjunct by conjunct at every use.
    ((forall t :: 0 <= t < |ks| ==> ks[t] < |pkts| && h <= |pkts[ks[t]]|)
    && Regular(Pieces(pkts, ks, h), g)
    && h <= |pkt| && pkt[h..] == Flat(Pieces(pkts, ks, h))) == true
  }

  lemma JoinedAppend(pkts: Packets, ks: seq<nat>, h: nat, g: nat, pkt: seq<byte>, k: nat, pkt': seq<byte>)
    requires Joined(pkts, ks, h, g, pkt) && |pkt[h..]| % g == 0
    requires k < |pkts| && h < |pkts[k]| <= h + g && |pkt'| >= h && pkt'[h..] == pkt[h..] + pkts[k][h..]
    ensures Joined(pkts, ks + [k], h, g, pkt') && |pkt[h..]| == g * |ks|
  {
    hide Flat, Regular;
    var ps := Pieces(pkts, ks, h);
    AppendPiece(ps, g, pkts[k][h..]);
    assert Pieces(pkts, ks + [k], h) == ps + [pkts[k][h..]];
  }

  lemma JoinedPrepend(pkts: Packets, ks: seq<nat>, h: nat, g: nat, pkt: seq<byte>, k: nat, pkt': seq<byte>)
    requires Joined(pkts, ks, h, g, pkt)
    requires k < |pkts| && h + g <= |pkts[k]| && (h + g < |pkts[k]| ==> |ks| == 1)
    requires |pkt'| >= h && pkt'[h..] == pkts[k][h..] + pkt[h..]
    ensures Joined(pkts, [k] + ks, h, |pkts[k]| - h, pkt')
  {
    hide Flat, Regular;
    var ps := Pieces(pkts, ks, h);
    PrependPiece(ps, g, pkts[k][h..]);
    assert Pieces(pkts, [k] + ks, h) == [pkts[k][h..]] + ps;
  }

  lemma JoinedOne(pkts: Packets, k: nat, h: nat)
    requires k < |pkts| && h < |pkts[k]|
    ensures Joined(pkts, [k], h, |pkts[k]| - h, pkts[k])
  {
    var ps := Pieces(pkts, [k], h);
    assert Flat(ps) == ps[0] + Flat(ps[1..]);
  }

  /** The packet belongs to the item's flow, and its headers have the same lengths. */
  ghost predicate InFlow(pkts: Packets, k: nat, item: TcpItem) {
    && k < |pkts| && TcpOf(pkts[k]).Some?
    && var s := TcpOf(pkts[k]).value;
       s.key == item.key && s.iphLen == item.iphLen && s.tcphLen == item.tcphLen
  }

  /** The sequence number after `t` pieces of size `g`. */
  function SeqAt(first: nat, g: nat, t: nat): nat {
    if t == 0 then first % TWO32 else (SeqAt(first, g, t - 1) + g) % TWO32
  }

  lemma {:induction false} SeqAtIs(first: nat, g: nat, t: nat)
    ensures SeqAt(first, g, t) == (first + g * t) % TWO32
  {
    if t > 0 {
      var p := g * (t - 1);
      SeqAtIs(first, g, t - 1);
      ModAdd(first + p, g);
      assert g * t == p + g;
      assert first + g * t == first + p + g;
    }
  }

  lemma ModAdd(x: nat, y: nat)
    ensures (x % TWO32 + y) % TWO32 == (x + y) % TWO32
  {
    var q := x / TWO32;
    assert x % TWO32 + y == x + y - TWO32 * q;
  }

  lemma {:induction false} SeqShift(first: nat, g: nat, t: nat)
    requires t > 0
    ensures SeqAt((first + g) % TWO32, g, t - 1) == SeqAt(first, g, t)
  {
    if t == 1 {
      ModAdd(first, g);
    } else {
      SeqShift(first, g, t - 1);
    }
  }

  /** Packet `k` is of the item's flow, and starts where `t` packets of the item's size end. */
  ghost predicate AtPlace(pkts: Packets, k: nat, item: TcpItem, t: nat) {
    InFlow(pkts, k, item) && TcpOf(pkts[k]).value.seqNo == SeqAt(item.sentSeq, item.gsoSize, t)
  }

  /** Packet `t` of an item starts where the ones before it end. */
  ghost predicate InSequence(pkts: Packets, ks: seq<nat>, item: TcpItem) {
    (forall t :: 0 <= t < |ks| ==> AtPlace(pkts, ks[t], item, t)) == true
  }

  /** A receiver would accept every one of these packets. */
  ghost predicate AllCheck(pkts: Packets, ks: seq<nat>, iphLen: nat, proto: byte, isV6: bool) {
    (forall t :: 0 <= t < |ks| ==>
      ks[t] < |pkts| && SrcAt(isV6) + 2 * AddrLen(isV6) <= iphLen <= |pkts[ks[t]]| <= 0xffff
        && Checks(pkts[ks[t]], iphLen, proto, isV6)) == true
  }

  /** The headers have in common all that packets must have to be joined, and the bytes from `from` to `to`. */
  predicate Alike(a: seq<byte>, b: seq<byte>, from: nat, to: nat) {
    && 9 <= from <= to <= |a| && to <= |b|
    && a[0] == b[0] && IpHeadersCanCoalesce(a, b) && a[from..to] == b[from..to]
  }

  ghost predicate AllAlike(pkts: Packets, ks: seq<nat>, pkt: seq<byte>, from: nat, to: nat) {
    (forall t :: 0 <= t < |ks| ==> ks[t] < |pkts| && Alike(pkts[ks[t]], pkt, from, to)) == true
  }

  lemma AlikeAppend(pkts: Packets, ks: seq<nat>, pkt: seq<byte>, k: nat, pkt': seq<byte>, from: nat, to: nat, at: nat)
    requires AllAlike(pkts, ks, pkt, from, to) && k < |pkts| && Alike(pkts[k], pkt, from, to)
    requires 9 <= at && (at < from || to <= at) && to <= |pkt'| && SameExcept(pkt', pkt, 0, to, {at})
    ensures AllAlike(pkts, ks + [k], pkt', from, to)
  {
    assert pkt'[from..to] == pkt[from..to];
  }

  lemma AlikePrepend(pkts: Packets, ks: seq<nat>, pkt: seq<byte>, k: nat, pkt': seq<byte>, from: nat, to: nat)
    requires AllAlike(pkts, ks, pkt, from, to) && k < |pkts| && Alike(pkts[k], pkt, from, to)
    requires to <= |pkt'| && pkt'[..to] == pkts[k][..to]
    ensures AllAlike(pkts, [k] + ks, pkt', from, to)
  {
    assert forall i :: 0 <= i < to ==> pkt'[i] == pkt'[..to][i] == pkts[k][i];
    assert pkt'[from..to] == pkts[k][from..to];
    assert Alike(pkt', pkt, from, to);
  }

  /** The last of the packets is the newest. */
  ghost predicate LastNewest(ks: seq<nat>)
    requires ks != []
  {
    forall t :: 0 <= t < |ks| ==> ks[t] <= ks[|ks| - 1]
  }

  /** `|= tcpFlagPSH` on a flags byte. */
  function SetPsh(flags: byte): byte {
    if (flags / 8) % 2 == 1 then flags else flags + TCP_FLAG_PSH
  }

  function FlagsFor(psh: bool): byte {
    if psh then TCP_FLAG_ACK + TCP_FLAG_PSH else TCP_FLAG_ACK
  }

  /** Only the last packet may have PSH set, and the joined packet has it set unless something was prepended since. */
  ghost predicate PshOk(pkts: Packets, ks: seq<nat>, pshSet: bool, flags: byte) {
    (ks != [] && flags == FlagsFor(pshSet && LastNewest(ks))
    && forall t :: 0 <= t < |ks| ==>
      ks[t] < |pkts| && TcpOf(pkts[ks[t]]).Some? && TcpOf(pkts[ks[t]]).value.pshSet == (pshSet && t == |ks| - 1))
      == true
  }

  lemma PshAppend(pkts: Packets, ks: seq<nat>, flags: byte, k: nat, flags': byte)
    requires PshOk(pkts, ks, false, flags) && k < |pkts| && TcpOf(pkts[k]).Some?
    requires flags' == if TcpOf(pkts[k]).value.pshSet then SetPsh(flags) else flags
    requires forall t :: 0 <= t < |ks| ==> ks[t] < k
    ensures PshOk(pkts, ks + [k], TcpOf(pkts[k]).value.pshSet, flags')
  {
    hide TcpOf;
  }

  lemma PshPrepend(pkts: Packets, ks: seq<nat>, pshSet: bool, flags: byte, k: nat, flags': byte)
    requires PshOk(pkts, ks, pshSet, flags) && k < |pkts| && TcpOf(pkts[k]).Some? && !TcpOf(pkts[k]).value.pshSet
    requires flags' == FlagsFor(false) && forall t :: 0 <= t < |ks| ==> ks[t] < k
    ensures PshOk(pkts, [k] + ks, pshSet, flags')
  {
    hide TcpOf;
    var ks' := [k] + ks;
    assert ks'[0] == k && ks'[|ks'| - 1] == ks[|ks| - 1] < k;
  }

  /** `pkt` is what the packets `ks` have been joined to, and `item` describes it. */
  ghost predicate TcpGroup(pkts: Packets, ks: seq<nat>, item: TcpItem, pkt: seq<byte>) {
    && |ks| == item.numMerged + 1
    && InSequence(pkts, ks, item)
    && Joined(pkts, ks, item.HeadersLen(), item.gsoSize, pkt)
    && item.HeadersLen() <= |pkt| && item.HeadersLen() <= |pkts[ks[0]]|
      && SameExcept(pkt, pkts[ks[0]], 0, item.HeadersLen(), {item.iphLen + TCP_FLAGS_OFFSET})
    && AllAlike(pkts, ks, pkt, item.iphLen + 20, item.HeadersLen())
    && |pkts[ks[0]]| == item.HeadersLen() + item.gsoSize && item.sentSeq < TWO32
    && 20 <= item.tcphLen && PshOk(pkts, ks, item.pshSet, pkt[item.iphLen + TCP_FLAGS_OFFSET])
    && (item.numMerged == 0 ==> pkt == pkts[ks[0]])
    && (item.numMerged > 0 ==> AllCheck(pkts, ks, item.iphLen, IPPROTO_TCP, item.key.isV6))
  }

  ghost predicate InUdpFlow(pkts: Packets, k: nat, item: UdpItem) {
    && k < |pkts| && UdpOf(pkts[k]).Some?
    && var s := UdpOf(pkts[k]).value;
       s.key == item.key && s.iphLen == item.iphLen
  }

  /** A UDP packet that may be coalesced and whose checksum is right. */
  ghost predicate GoodUdp(pkt: seq<byte>) {
    UdpOf(pkt).Some? && var s := UdpOf(pkt).value; Checks(pkt, s.iphLen, IPPROTO_UDP, s.key.isV6)
  }

  ghost predicate UdpGroup(pkts: Packets, ks: seq<nat>, item: UdpItem, pkt: seq<byte>) {
    && |ks| == item.numMerged + 1
    && (forall t :: 0 <= t < |ks| ==> InUdpFlow(pkts, ks[t], item))
    && (forall t, u :: 0 <= t < u < |ks| ==> ks[t] < ks[u])
    && Joined(pkts, ks, item.HeadersLen(), item.gsoSize, pkt)
    && item.HeadersLen() <= |pkt| && item.HeadersLen() <= |pkts[ks[0]]|
      && SameExcept(pkt, pkts[ks[0]], 0, item.HeadersLen(), {})
    && AllAlike(pkts, ks, pkt, item.HeadersLen(), item.HeadersLen())
    && |pkts[ks[0]]| == item.HeadersLen() + item.gsoSize
    && (item.cSumKnownInvalid && item.numMerged == 0 ==> !GoodUdp(pkts[ks[0]]))
    && (item.numMerged == 0 ==> pkt == pkts[ks[0]])
    && (item.numMerged > 0 ==> AllCheck(pkts, ks, item.iphLen, IPPROTO_UDP, item.key.isV6))
  }

  lemma FlowLengths(pkts: Packets, k: nat, item: TcpItem)
    requires InFlow(pkts, k, item)
    ensures item.iphLen == (if item.key.isV6 then 40 else 20) && 20 <= item.tcphLen <= 60
    ensures item.HeadersLen() < |pkts[k]| <= 0xffff
  {
  }

  /** The next sequence number expected after `n` full pieces, with the 16-bit product the code takes. */
  lemma NextSeq(item: TcpItem, n: nat)
    requires n == item.numMerged + 1 && item.gsoSize * n <= 0xffff
    ensures LhsLen(item) == item.gsoSize * n
  {
    assert item.gsoSize * n == item.gsoSize + item.numMerged * item.gsoSize;
  }

  lemma SequenceAppend(pkts: Packets, ks: seq<nat>, item: TcpItem, k: nat, item': TcpItem)
    requires InSequence(pkts, ks, item) && AtPlace(pkts, k, item, |ks|)
    requires item' == item.(pshSet := item'.pshSet, numMerged := item'.numMerged)
    ensures InSequence(pkts, ks + [k], item')
  {
    SamePlaces(pkts, item, item');
    hide AtPlace;
    var ks' := ks + [k];
    forall t | 0 <= t < |ks'|
      ensures AtPlace(pkts, ks'[t], item', t)
    {
      assert t < |ks| ==> ks'[t] == ks[t];
    }
  }

  lemma SamePlaces(pkts: Packets, item: TcpItem, item': TcpItem)
    requires item' == item.(pshSet := item'.pshSet, numMerged := item'.numMerged)
    ensures forall k: nat, t: nat :: AtPlace(pkts, k, item, t) <==> AtPlace(pkts, k, item', t)
  {
    hide TcpOf, SeqAt;
  }

  lemma SequencePrepend(pkts: Packets, ks: seq<nat>, item: TcpItem, k: nat, item': TcpItem)
    requires InSequence(pkts, ks, item) && InFlow(pkts, k, item) && TcpOf(pkts[k]).value.seqNo == item'.sentSeq
    requires (item'.sentSeq + item'.gsoSize) % TWO32 == item.sentSeq && (item'.gsoSize > item.gsoSize ==> |ks| == 1)
      && item'.gsoSize >= item.gsoSize
    requires item' == item.(sentSeq := item'.sentSeq, gsoSize := item'.gsoSize, numMerged := item'.numMerged)
    ensures InSequence(pkts, [k] + ks, item')
  {
    hide TcpOf;
    var ks' := [k] + ks;
    forall t | 0 <= t < |ks'|
      ensures AtPlace(pkts, ks'[t], item', t)
    {
      if t > 0 {
        assert ks'[t] == ks[t - 1] && AtPlace(pkts, ks[t - 1], item, t - 1);
        SeqShift(item'.sentSeq, item'.gsoSize, t);
      }
    }
  }

  lemma ChecksAdd(pkts: Packets, ks: seq<nat>, k: nat, iphLen: nat, proto: byte, isV6: bool)
    requires AllCheck(pkts, ks, iphLen, proto, isV6) && AllCheck(pkts, [k], iphLen, proto, isV6)
    ensures AllCheck(pkts, ks + [k], iphLen, proto, isV6) && AllCheck(pkts, [k] + ks, iphLen, proto, isV6)
  {
    assert [k][0] == k;
  }

  /** Both the packets in the item and the new one have valid checksums. */
  ghost predicate Vouched(pkts: Packets, ks: seq<nat>, k: nat, iphLen: nat, proto: byte, isV6: bool) {
    AllCheck(pkts, ks, iphLen, proto, isV6) && AllCheck(pkts, [k], iphLen, proto, isV6)
  }

  lemma AppendMeans(pkt: seq<byte>, s: TcpSeg, item: TcpItem, target: seq<byte>)
    requires s.HeadersLen() <= |pkt| && item.HeadersLen() <= |target| && s.iphLen == item.iphLen && item.gsoSize > 0
      && s.tcphLen >= 20
    requires TcpMode(pkt, s, item, target) == Append
    ensures |target[item.HeadersLen()..]| % item.gsoSize == 0 && s.gsoSize <= item.gsoSize && !item.pshSet
      && s.tcphLen == item.tcphLen
    ensures IpHeadersCanCoalesce(pkt, target)
      && pkt[item.iphLen + 20..item.HeadersLen()] == target[item.iphLen + 20..item.HeadersLen()]
  {
  }

  lemma AppendSeq(pkt: seq<byte>, s: TcpSeg, item: TcpItem, target: seq<byte>, n: nat)
    requires s.HeadersLen() <= |pkt| && item.HeadersLen() <= |target| && s.iphLen == item.iphLen && item.gsoSize > 0
      && s.tcphLen >= 20
    requires TcpMode(pkt, s, item, target) == Append && n == item.numMerged + 1 && item.gsoSize * n <= 0xffff
    ensures s.seqNo == SeqAt(item.sentSeq, item.gsoSize, n)
  {
    NextSeq(item, n);
    SeqAtIs(item.sentSeq, item.gsoSize, n);
  }

  lemma PrependMeans(pkt: seq<byte>, s: TcpSeg, item: TcpItem, target: seq<byte>)
    requires s.HeadersLen() <= |pkt| && item.HeadersLen() <= |target| && s.iphLen == item.iphLen && item.gsoSize > 0
      && s.tcphLen >= 20
    requires TcpMode(pkt, s, item, target) == Prepend
    ensures (s.seqNo + s.gsoSize) % TWO32 == item.sentSeq && s.gsoSize >= item.gsoSize
      && (s.gsoSize > item.gsoSize ==> item.numMerged == 0)
    ensures !s.pshSet && s.tcphLen == item.tcphLen
    ensures IpHeadersCanCoalesce(pkt, target)
      && pkt[item.iphLen + 20..item.HeadersLen()] == target[item.iphLen + 20..item.HeadersLen()]
  {
  }

  /** What the parse says of the bytes. */
  lemma TcpBytes(pkt: seq<byte>)
    requires TcpOf(pkt).Some?
    ensures var s := TcpOf(pkt).value;
      && pkt[s.iphLen + TCP_FLAGS_OFFSET] == FlagsFor(s.pshSet)
      && if s.key.isV6 then pkt[0] / 16 == 6 else pkt[0] == 0x45
  {
  }

  lemma UdpBytes(pkt: seq<byte>)
    requires UdpOf(pkt).Some?
    ensures if UdpOf(pkt).value.key.isV6 then pkt[0] / 16 == 6 else pkt[0] == 0x45
  {
  }

  /** The first byte says the version, and for IPv4 the header length. */
  lemma HeadByte(pkts: Packets, ks: seq<nat>, item: TcpItem, pkt: seq<byte>, k: nat)
    requires TcpGroup(pkts, ks, item, pkt) && InFlow(pkts, k, item) && |pkts[k]| >= 9 && |pkt| >= 9
      && IpHeadersCanCoalesce(pkts[k], pkt)
    ensures pkts[k][0] == pkt[0]
  {
    hide TcpOf, Joined, AllCheck, AllAlike, PshOk;
    assert InFlow(pkts, ks[0], item);
    TcpBytes(pkts[ks[0]]);
    TcpBytes(pkts[k]);
  }

  /** An append the code allows keeps the item's description true. */
  lemma TcpAppended(pkts: Packets, ks: seq<nat>, item: TcpItem, pkt: seq<byte>, k: nat, item': TcpItem, pkt': seq<byte>)
    requires TcpGroup(pkts, ks, item, pkt) && InFlow(pkts, k, item) && item.gsoSize > 0 && |pkt| <= 0xffff
    requires TcpMode(pkts[k], TcpOf(pkts[k]).value, item, pkt) == Append
    requires Vouched(pkts, ks, k, item.iphLen, IPPROTO_TCP, item.key.isV6)
    requires item' == item.(pshSet := item.pshSet || TcpOf(pkts[k]).value.pshSet, numMerged := item.numMerged + 1)
      && forall t :: 0 <= t < |ks| ==> ks[t] < k
    requires |pkt'| >= item.HeadersLen()
      && pkt'[item.HeadersLen()..] == pkt[item.HeadersLen()..] + pkts[k][item.HeadersLen()..]
    requires SameExcept(pkt', pkt, 0, item.HeadersLen(), {item.iphLen + TCP_FLAGS_OFFSET})
    requires var at := item.iphLen + TCP_FLAGS_OFFSET;
      pkt'[at] == if TcpOf(pkts[k]).value.pshSet then SetPsh(pkt[at]) else pkt[at]
    ensures TcpGroup(pkts, ks + [k], item', pkt')
  {
    hide TcpMode, TcpOf, Joined, AllCheck, InSequence, SeqAt, AllAlike, PshOk, SetPsh, IpHeadersCanCoalesce;
    var h, ks' := item.HeadersLen(), ks + [k];
    AppendMeans(pkts[k], TcpOf(pkts[k]).value, item, pkt);
    assert AllAlike(pkts, ks', pkt', item.iphLen + 20, h) by {
      HeadByte(pkts, ks, item, pkt, k);
      AlikeAppend(pkts, ks, pkt, k, pkt', item.iphLen + 20, h, item.iphLen + TCP_FLAGS_OFFSET);
    }
    assert PshOk(pkts, ks', item'.pshSet, pkt'[item.iphLen + TCP_FLAGS_OFFSET]) by {
      PshAppend(pkts, ks, pkt[item.iphLen + TCP_FLAGS_OFFSET], k, pkt'[item.iphLen + TCP_FLAGS_OFFSET]);
    }
    assert Joined(pkts, ks', h, item.gsoSize, pkt') && |pkt[h..]| == item.gsoSize * |ks| by {
      JoinedAppend(pkts, ks, h, item.gsoSize, pkt, k, pkt');
    }
    assert InSequence(pkts, ks', item') by {
      AppendSeq(pkts[k], TcpOf(pkts[k]).value, item, pkt, |ks|);
      SequenceAppend(pkts, ks, item, k, item');
    }
    assert AllCheck(pkts, ks', item.iphLen, IPPROTO_TCP, item.key.isV6) by {
      ChecksAdd(pkts, ks, k, item.iphLen, IPPROTO_TCP, item.key.isV6);
    }
    assert ks'[0] == ks[0];
  }

  /** So does a prepend. */
  lemma TcpPrepended(pkts: Packets, ks: seq<nat>, item: TcpItem, pkt: seq<byte>, k: nat, item': TcpItem,
                     pkt': seq<byte>)
    requires TcpGroup(pkts, ks, item, pkt) && InFlow(pkts, k, item) && item.gsoSize > 0
    requires TcpMode(pkts[k], TcpOf(pkts[k]).value, item, pkt) == Prepend
    requires item' == item.(sentSeq := item'.sentSeq, gsoSize := item'.gsoSize, numMerged := item.numMerged + 1)
    requires var s := TcpOf(pkts[k]).value; item'.sentSeq == s.seqNo && item'.gsoSize == s.gsoSize
    requires Vouched(pkts, ks, k, item.iphLen, IPPROTO_TCP, item.key.isV6)
    requires pkt' == pkts[k] + pkt[item.HeadersLen()..] && forall t :: 0 <= t < |ks| ==> ks[t] < k
    ensures TcpGroup(pkts, [k] + ks, item', pkt')
  {
    hide TcpMode, TcpOf, Joined, AllCheck, InSequence, SeqAt, AllAlike, PshOk, IpHeadersCanCoalesce;
    var h, ks' := item.HeadersLen(), [k] + ks;
    PrependMeans(pkts[k], TcpOf(pkts[k]).value, item, pkt);
    assert AllAlike(pkts, ks', pkt', item.iphLen + 20, h) by {
      HeadByte(pkts, ks, item, pkt, k);
      AlikePrepend(pkts, ks, pkt, k, pkt', item.iphLen + 20, h);
    }
    assert PshOk(pkts, ks', item.pshSet, pkt'[item.iphLen + TCP_FLAGS_OFFSET]) by {
      TcpBytes(pkts[k]);
      PshPrepend(pkts, ks, item.pshSet, pkt[item.iphLen + TCP_FLAGS_OFFSET], k,
        pkt'[item.iphLen + TCP_FLAGS_OFFSET]);
    }
    assert Joined(pkts, ks', h, item'.gsoSize, pkt') by {
      assert pkt'[h..] == pkts[k][h..] + pkt[h..];
      JoinedPrepend(pkts, ks, h, item.gsoSize, pkt, k, pkt');
    }
    assert InSequence(pkts, ks', item') by {
      SequencePrepend(pkts, ks, item, k, item');
    }
    assert AllCheck(pkts, ks', item.iphLen, IPPROTO_TCP, item.key.isV6) by {
      ChecksAdd(pkts, ks, k, item.iphLen, IPPROTO_TCP, item.key.isV6);
    }
    assert ks'[0] == k;
  }

  lemma UdpAppended(pkts: Packets, ks: seq<nat>, item: UdpItem, pkt: seq<byte>, k: nat, item': UdpItem, pkt': seq<byte>)
    requires UdpGroup(pkts, ks, item, pkt) && InUdpFlow(pkts, k, item) && item.gsoSize > 0
    requires UdpMode(pkts[k], UdpOf(pkts[k]).value, item, pkt) == Append
    requires Vouched(pkts, ks, k, item.iphLen, IPPROTO_UDP, item.key.isV6)
    requires item' == item.(numMerged := item.numMerged + 1) && forall t :: 0 <= t < |ks| ==> ks[t] < k
    requires pkt' == pkt + pkts[k][item.HeadersLen()..]
    ensures UdpGroup(pkts, ks + [k], item', pkt')
  {
    hide UdpOf, Joined, AllCheck, AllAlike;
    var h, ks' := item.HeadersLen(), ks + [k];
    assert AllAlike(pkts, ks', pkt', h, h) by {
      assert InUdpFlow(pkts, ks[0], item);
      UdpBytes(pkts[ks[0]]);
      UdpBytes(pkts[k]);
      AlikeAppend(pkts, ks, pkt, k, pkt', h, h, h);
    }
    hide IpHeadersCanCoalesce;
    assert pkt'[h..] == pkt[h..] + pkts[k][h..];
    JoinedAppend(pkts, ks, h, item.gsoSize, pkt, k, pkt');
    ChecksAdd(pkts, ks, k, item.iphLen, IPPROTO_UDP, item.key.isV6);
    forall t | 0 <= t < |ks'|
      ensures InUdpFlow(pkts, ks'[t], item')
    {
      assert t < |ks| ==> ks'[t] == ks[t];
    }
    assert ks'[0] == ks[0];
  }

  /** A packet alone. */
  lemma TcpAlone(pkts: Packets, k: nat, item: TcpItem)
    requires k < |pkts| && TcpOf(pkts[k]).Some? && item.numMerged == 0
    requires var s := TcpOf(pkts[k]).value;
             item.key == s.key && item.iphLen == s.iphLen && item.tcphLen == s.tcphLen && item.gsoSize == s.gsoSize
               && item.sentSeq == s.seqNo && item.pshSet == s.pshSet
    ensures TcpGroup(pkts, [k], item, pkts[k])
  {
    hide TcpOf, Joined, AllCheck;
    JoinedOne(pkts, k, item.HeadersLen());
    TcpBytes(pkts[k]);
    assert [k][0] == k;
  }

  lemma UdpAlone(pkts: Packets, k: nat, item: UdpItem)
    requires k < |pkts| && UdpOf(pkts[k]).Some? && item.numMerged == 0
    requires var s := UdpOf(pkts[k]).value; item.key == s.key && item.iphLen == s.iphLen && item.gsoSize == s.gsoSize
    requires item.cSumKnownInvalid ==> !GoodUdp(pkts[k])
    ensures UdpGroup(pkts, [k], item, pkts[k])
  {
    hide UdpOf, Joined, AllCheck;
    JoinedOne(pkts, k, item.HeadersLen());
    UdpBytes(pkts[k]);
    assert [k][0] == k;
  }
}
