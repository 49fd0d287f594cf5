/** `handleGRO` of wireguard-go/tun/offload_linux.go, lines 856-888: every packet of a batch is written once. */
module HandleGro {
  import opened Checksum
  import opened Gro
  import opened GroOutput
  import opened GroTables
  import opened Sequences

  ghost function PktsOf(bufs: seq<Buf>): (r: seq<seq<byte>>)
    ensures |r| == |bufs| && forall i :: 0 <= i < |bufs| ==> r[i] == bufs[i].pkt
  {
    seq(|bufs|, i requires 0 <= i < |bufs| => bufs[i].pkt)
  }

  /** The buffers to be written are the ones packets have gone to. */
  ghost predicate Listed(toWrite: seq<nat>, tr: Trace) {
    && Increasing(toWrite) && (forall j :: j in toWrite ==> j < |tr.home|)
    && forall j :: j in toWrite <==> j in tr.parts
  }

  lemma ListedNew(toWrite: seq<nat>, tr: Trace, n: nat)
    requires Listed(toWrite, tr) && |tr.home| == n
    ensures Listed(toWrite + [n], tr.Place(n, [n]))
  {
    assert forall i :: 0 <= i < |toWrite| ==> toWrite[i] in toWrite;
  }

  lemma ListedParts(toWrite: seq<nat>, tr: Trace)
    ensures Listed(toWrite, tr) ==> forall j :: j in toWrite ==> j in tr.parts
  {
  }

  lemma ListedMerged(toWrite: seq<nat>, tr: Trace, tr': Trace)
    requires Listed(toWrite, tr) && Merged(tr, tr')
    ensures Listed(toWrite, tr')
  {
  }

  /** The state of the whole batch after `n` packets. */
  ghost predicate Batch(pkts: Packets, bufs: seq<Buf>, tcp: TcpFlows, udp: UdpFlows, tr: Trace,
                        n: nat, canUdp: bool, toWrite: seq<nat>) {
    && State(pkts, bufs, tcp, udp, tr, n)
    && |bufs| == |pkts| && |tr.home| == n <= |pkts|
    && (canUdp ==> InOrder(pkts, udp, tr.home))
    && TcpKept(pkts, tcp, tr.home)
    && Listed(toWrite, tr)
  }

  lemma BatchIs(pkts: Packets, bufs: seq<Buf>, tcp: TcpFlows, udp: UdpFlows, tr: Trace, n: nat, canUdp: bool,
                toWrite: seq<nat>)
    requires Batch(pkts, bufs, tcp, udp, tr, n, canUdp, toWrite)
    ensures State(pkts, bufs, tcp, udp, tr, n) && |bufs| == |pkts| && |tr.home| == n <= |pkts|
    ensures Listed(toWrite, tr) && TcpKept(pkts, tcp, tr.home) && (canUdp ==> InOrder(pkts, udp, tr.home))
    ensures Held(pkts, Snapshot(bufs, tcp, udp, tr), n, canUdp)
  {
    hide State, Listed, TcpKept, InOrder;
  }

  /** What the batch looks like before one of its packets. */
  datatype Snapshot = Snapshot(bufs: seq<Buf>, tcp: TcpFlows, udp: UdpFlows, tr: Trace)

  ghost predicate Held(pkts: Packets, x: Snapshot, i: nat, canUdp: bool) {
    && State(pkts, x.bufs, x.tcp, x.udp, x.tr, i) && TcpKept(pkts, x.tcp, x.tr.home)
    && |x.tr.home| == i <= |pkts| == |x.bufs| && (canUdp ==> InOrder(pkts, x.udp, x.tr.home))
  }

  /** An item of its flow takes packet `i`. */
  ghost predicate Joins(x: Snapshot, i: nat, offset: nat, canUdp: bool)
    requires i < |x.bufs|
  {
    TcpJoins(x.bufs, i, x.tcp, offset) || (canUdp && UdpJoins(x.bufs, i, x.udp, offset))
  }

  /** Packet `i` is the next one, and is merged exactly when it can be. */
  ghost predicate Goes(tr: Trace, tr': Trace, i: nat, joins: bool) {
    && |tr.home| == i && |tr'.home| == i + 1 && tr'.home[..i] == tr.home && tr'.floor == tr.floor
    && (tr'.home[i] != i <==> joins) && (joins ==> tr'.home[i] in tr.parts)
  }

  ghost predicate Follows(hist: seq<Snapshot>, i: nat, offset: nat, canUdp: bool)
    requires i + 1 < |hist|
  {
    i < |hist[i].bufs| && Goes(hist[i].tr, hist[i + 1].tr, i, Joins(hist[i], i, offset, canUdp))
  }

  /** The batch from the start: every packet that an item of its flow can take is merged, and no other. */
  ghost predicate Run(pkts: Packets, hist: seq<Snapshot>, offset: nat, canUdp: bool) {
    && (forall i: nat {:trigger hist[i]} :: i < |hist| ==> Held(pkts, hist[i], i, canUdp))
    && (forall i: nat {:trigger Follows(hist, i, offset, canUdp)} ::
          i < |hist| - 1 ==> Follows(hist, i, offset, canUdp))
  }

  lemma RunGrows(pkts: Packets, hist: seq<Snapshot>, offset: nat, canUdp: bool, x: Snapshot)
    requires hist != [] && Run(pkts, hist, offset, canUdp) && Held(pkts, x, |hist|, canUdp)
      && |hist| <= |hist[|hist| - 1].bufs|
    requires Goes(hist[|hist| - 1].tr, x.tr, |hist| - 1, Joins(hist[|hist| - 1], |hist| - 1, offset, canUdp))
    ensures Run(pkts, hist + [x], offset, canUdp)
  {
    hide Held, Goes, Joins;
    var more := hist + [x];
    forall i: nat | i < |more| - 1
      ensures Follows(more, i, offset, canUdp)
    {
      assert i < |hist| - 1 ==> Follows(hist, i, offset, canUdp);
    }
  }

  lemma RunStarts(pkts: Packets, x: Snapshot, offset: nat, canUdp: bool)
    requires Held(pkts, x, 0, canUdp)
    ensures Run(pkts, [x], offset, canUdp)
  {
    hide Held;
  }

  lemma OutcomeGoes(result: GroResult, tr: Trace, tr': Trace, i: nat)
    requires Outcome(result, tr, tr', i) && tr.Partition() && |tr.home| == i && result != Noop
    ensures Goes(tr, tr', i, result == Coalesced)
  {
    assert forall l :: l in tr.parts ==> tr.OwnPart(l);
  }

  lemma CandidatesApart(pkt: seq<byte>, canUdp: bool)
    ensures CandidateOf(pkt, canUdp).Tcp4? ==> CandidateOf(pkt, false).Tcp4? && UdpOf(pkt).None?
    ensures CandidateOf(pkt, canUdp).Tcp6? ==> CandidateOf(pkt, false).Tcp6? && UdpOf(pkt).None?
    ensures CandidateOf(pkt, canUdp).Udp4? ==> CandidateOf(pkt, true).Udp4? && canUdp
    ensures CandidateOf(pkt, canUdp).Udp6? ==> CandidateOf(pkt, true).Udp6? && canUdp
    ensures canUdp && CandidateOf(pkt, canUdp).NotCandidate? ==> UdpOf(pkt).None?
    ensures !CandidateOf(pkt, canUdp).Tcp4? && !CandidateOf(pkt, canUdp).Tcp6? ==> TcpOf(pkt).None?
  {
    hide ParseUdp, ParseTcp;
  }

  /** Lines 866-876: the packet is offered to the table of its kind. */
  method Offload(little: bool, bufs: seq<Buf>, offset: nat, i: nat, tcpTable: TcpTable, udpTable: UdpTable,
                 canUdp: bool, ghost pkts: Packets, ghost tr: Trace)
    returns (result: GroResult, bufs': seq<Buf>, ghost tr': Trace)
    requires State(pkts, bufs, tcpTable.itemsByFlow, udpTable.itemsByFlow, tr, i) && |bufs| == |pkts|
    requires |tr.home| == i < |bufs| && TcpKept(pkts, tcpTable.itemsByFlow, tr.home)
      && (canUdp ==> InOrder(pkts, udpTable.itemsByFlow, tr.home))
    requires tcpTable.itemsPool > 0 && udpTable.itemsPool > 0
    modifies tcpTable, udpTable
    ensures State(pkts, bufs', tcpTable.itemsByFlow, udpTable.itemsByFlow, tr', After(result, i))
      && Outcome(result, tr, tr', i) && |tr'.home| <= |pkts| == |bufs'|
    ensures TcpKept(pkts, tcpTable.itemsByFlow, if result == Noop then tr'.home + [i] else tr'.home)
    ensures canUdp ==> InOrder(pkts, udpTable.itemsByFlow, tr'.home) && (result == Noop ==> UdpOf(pkts[i]).None?)
    ensures result == Coalesced <==>
      Joins(Snapshot(bufs, old(tcpTable.itemsByFlow), old(udpTable.itemsByFlow), tr), i, offset, canUdp)
    ensures tcpTable.itemsPool >= old(tcpTable.itemsPool) - 1 && udpTable.itemsPool >= old(udpTable.itemsPool) - 1
    ensures tcpTable.itemsPool + |tcpTable.itemsByFlow| == old(tcpTable.itemsPool + |tcpTable.itemsByFlow|)
    ensures udpTable.itemsPool + |udpTable.itemsByFlow| == old(udpTable.itemsPool + |udpTable.itemsByFlow|)
  {
    hide State, CandidateOf, InOrder, UdpOf, TcpOf, TcpKept, GoodTcp, TcpAccepts, UdpAccepts;
    PacketKnown(pkts, bufs, tcpTable.itemsByFlow, udpTable.itemsByFlow, tr, i);
    CandidatesApart(pkts[i], canUdp);
    result, bufs', tr' := Noop, bufs, tr;
    var kind := CandidateOf(bufs[i].pkt, canUdp);
    if kind == Tcp4 || kind == Tcp6 {
      result, bufs', tr' := TcpGro(little, bufs, offset, i, tcpTable, kind == Tcp6, pkts, udpTable.itemsByFlow, tr);
    } else if kind == Udp4 || kind == Udp6 {
      result, bufs', tr' := UdpGro(little, bufs, offset, i, udpTable, kind == Udp6, pkts, tcpTable.itemsByFlow, tr);
    }
    HomeKnown(pkts, bufs', tcpTable.itemsByFlow, udpTable.itemsByFlow, tr', After(result, i));
    if !(kind == Tcp4 || kind == Tcp6) {
      NotGood(pkts[i]);
      KeptSkips(pkts, tcpTable.itemsByFlow, tr.home, if result == Noop then i else tr'.home[i]);
      assert result != Noop ==> tr'.home == tr.home + [tr'.home[i]];
    }
    if canUdp && !(kind == Udp4 || kind == Udp6) {
      OrderAfter(pkts, udpTable.itemsByFlow, tr, tr', i, result);
    }
  }

  /** Lines 866-883. */
  method Step(little: bool, bufs: seq<Buf>, offset: nat, i: nat, tcpTable: TcpTable, udpTable: UdpTable, canUdp: bool,
              toWrite: seq<nat>, ghost pkts: Packets, ghost tr: Trace)
    returns (bufs': seq<Buf>, toWrite': seq<nat>, ghost tr': Trace)
    requires Batch(pkts, bufs, tcpTable.itemsByFlow, udpTable.itemsByFlow, tr, i, canUdp, toWrite) && i < |bufs|
    requires tcpTable.itemsPool > 0 && udpTable.itemsPool > 0
    modifies tcpTable, udpTable
    ensures Batch(pkts, bufs', tcpTable.itemsByFlow, udpTable.itemsByFlow, tr', i + 1, canUdp, toWrite')
    ensures Goes(tr, tr', i, Joins(Snapshot(bufs, old(tcpTable.itemsByFlow), old(udpTable.itemsByFlow), tr), i, offset,
      canUdp))
    ensures tcpTable.itemsPool >= old(tcpTable.itemsPool) - 1 && udpTable.itemsPool >= old(udpTable.itemsPool) - 1
    ensures tcpTable.itemsPool + |tcpTable.itemsByFlow| == old(tcpTable.itemsPool + |tcpTable.itemsByFlow|)
    ensures udpTable.itemsPool + |udpTable.itemsByFlow| == old(udpTable.itemsPool + |udpTable.itemsByFlow|)
  {
    hide Batch, State, InOrder, Listed, TcpKept, Joins, UdpOf;
    BatchIs(pkts, bufs, tcpTable.itemsByFlow, udpTable.itemsByFlow, tr, i, canUdp, toWrite);
    HomeKnown(pkts, bufs, tcpTable.itemsByFlow, udpTable.itemsByFlow, tr, i);
    var result;
    result, bufs', tr' := Offload(little, bufs, offset, i, tcpTable, udpTable, canUdp, pkts, tr);
    if result != Noop {
      OutcomeGoes(result, tr, tr', i);
    }
    bufs', toWrite', tr' := Record(bufs', toWrite, i, result, pkts, tcpTable.itemsByFlow, udpTable.itemsByFlow, tr,
      tr', canUdp);
  }

  lemma HomeKnown(pkts: Packets, bufs: seq<Buf>, tcp: TcpFlows, udp: UdpFlows, tr: Trace, n: nat)
    requires State(pkts, bufs, tcp, udp, tr, n)
    ensures tr.Partition() && |tr.home| == n <= |pkts| == |bufs|
  {
    hide TcpTableOk, UdpTableOk, Accounted;
  }

  lemma OrderAfter(pkts: Packets, udp: UdpFlows, tr: Trace, tr': Trace, n: nat, result: GroResult)
    requires |tr.home| == n < |pkts| && InOrder(pkts, udp, tr.home) && UdpOf(pkts[n]).None?
      && Outcome(result, tr, tr', n)
    ensures |tr'.home| <= |pkts| && InOrder(pkts, udp, tr'.home)
  {
    hide InOrder, UdpOf;
    if result != Noop {
      assert tr'.home == tr.home + [tr'.home[n]];
      OrderSkips(pkts, udp, tr.home, tr'.home[n]);
    }
  }

  /** Lines 877-883. */
  method Record(bufs: seq<Buf>, toWrite: seq<nat>, i: nat, result: GroResult, ghost pkts: Packets, ghost tcp: TcpFlows,
                ghost udp: UdpFlows, ghost tr: Trace, ghost tr1: Trace, ghost canUdp: bool)
    returns (bufs': seq<Buf>, toWrite': seq<nat>, ghost tr': Trace)
    requires State(pkts, bufs, tcp, udp, tr1, After(result, i)) && i < |pkts| == |bufs| && |tr.home| == i
      && Listed(toWrite, tr)
    requires Outcome(result, tr, tr1, i) && |tr1.home| <= |pkts| && (canUdp ==> InOrder(pkts, udp, tr1.home))
    requires canUdp && result == Noop ==> UdpOf(pkts[i]).None?
    requires TcpKept(pkts, tcp, if result == Noop then tr1.home + [i] else tr1.home)
    ensures tr' == if result == Noop then tr1.Place(i, [i]) else tr1
    ensures Batch(pkts, bufs', tcp, udp, tr', i + 1, canUdp, toWrite')
  {
    hide State, InOrder, UdpOf, Listed, TcpKept;
    bufs', toWrite', tr' := bufs, toWrite, tr1;
    if result == Noop {
      LeftAlone(pkts, bufs, tcp, udp, tr1, i);
      bufs' := bufs[i := bufs[i].(vnet := Clear)];
      tr' := tr1.Place(i, [i]);
      if canUdp {
        OrderSkips(pkts, udp, tr1.home, i);
      }
    }
    if result != Coalesced {
      ListedNew(toWrite, tr, i);
      toWrite' := toWrite + [i];
    } else {
      ListedMerged(toWrite, tr, tr1);
    }
  }

  lemma StateStart(pkts: Packets, bufs: seq<Buf>, canUdp: bool)
    requires pkts == PktsOf(bufs) && forall k :: 0 <= k < |bufs| ==> |bufs[k].pkt| <= bufs[k].cap <= 0xffff
    ensures Batch(pkts, bufs, map[], map[], Trace(map[], [], LeastCap(bufs)), 0, canUdp, [])
  {
  }

  /** The room that every buffer has. */
  ghost function LeastCap(bufs: seq<Buf>): (c: nat)
    ensures forall k :: 0 <= k < |bufs| ==> c <= bufs[k].cap
    ensures bufs != [] ==> exists k :: 0 <= k < |bufs| && c == bufs[k].cap
  {
    if bufs == [] then 0
    else if |bufs| == 1 then bufs[0].cap
    else
      var n := |bufs| - 1; var c := LeastCap(bufs[..n]);
      assert forall k :: 0 <= k < n ==> bufs[..n][k] == bufs[k];
      if bufs[n].cap < c then bufs[n].cap else c
  }

  lemma UdpUntouched(pkts: Packets, parts: Parts, bufs: seq<Buf>, mid: seq<Buf>, tcp: TcpFlows,
                     udp: UdpFlows)
    requires TcpTableOk(pkts, parts, bufs, tcp) && UdpTableOk(pkts, parts, bufs, udp) && |mid| == |bufs|
    requires forall l :: 0 <= l < |bufs| && !TcpTracked(tcp, l) ==> mid[l] == bufs[l]
    ensures UdpTableOk(pkts, parts, mid, udp)
  {
    hide UdpGroup, TcpItemOk;
    forall key: FlowKey, a: nat {:trigger udp[key][a]} | key in udp && a < |udp[key]|
      ensures UdpItemOk(pkts, parts, mid, udp[key][a])
    {
      var it := udp[key][a];
      assert UdpItemOk(pkts, parts, bufs, it);
      UdpIs(udp, key, a);
      TcpNotUdp(pkts, parts, bufs, tcp, udp, it.bufsIndex);
    }
  }

  /** Lines 885-886: after the tables have been applied, every buffer to be written is an output. */
  method Apply(little: bool, bufs: seq<Buf>, tcp: TcpFlows, udp: UdpFlows, ghost pkts: Packets, ghost tr: Trace)
    returns (bufs': seq<Buf>)
    requires State(pkts, bufs, tcp, udp, tr, |pkts|) && |bufs| == |pkts|
    ensures |bufs'| == |bufs| && forall j :: j in tr.parts ==> Out(pkts, tr.parts, bufs', j)
  {
    hide TcpItemOk, UdpItemOk, TcpTableOk, UdpTableOk, Out, TcpTracked, UdpTracked, Alone;
    var mid := ApplyTcp(little, bufs, tcp, pkts, tr.parts);
    UdpUntouched(pkts, tr.parts, bufs, mid, tcp, udp);
    bufs' := ApplyUdp(little, mid, udp, pkts, tr.parts);
    forall j | j in tr.parts
      ensures Out(pkts, tr.parts, bufs', j)
    {
      assert tr.OwnPart(j) && Accounted(pkts, tr.parts, bufs, tcp, udp, j);
      TcpNotUdp(pkts, tr.parts, bufs, tcp, udp, j);
      if TcpTracked(tcp, j) {
        OutKept(pkts, tr.parts, mid, bufs', j);
      } else if !UdpTracked(udp, j) {
        AloneOut(pkts, tr.parts, bufs, bufs', j);
      }
    }
  }

  lemma AloneOut(pkts: Packets, parts: Parts, bufs: seq<Buf>, bufs': seq<Buf>, j: nat)
    requires j in parts && Alone(pkts, parts, bufs, j) && j < |bufs'| && bufs'[j] == bufs[j]
    ensures Out(pkts, parts, bufs', j)
  {
  }

  /** The batch is refused: no room for a virtio header, or an empty packet. */
  predicate BadOffset(bufs: seq<Buf>, offset: nat) {
    (bufs != [] && offset < VIRTIO_NET_HDR_LEN) || exists i :: 0 <= i < |bufs| && |bufs[i].pkt| == 0
  }

  lemma IsBad(bufs: seq<Buf>, offset: nat, i: nat)
    requires i < |bufs| && (offset < VIRTIO_NET_HDR_LEN || |bufs[i].pkt| == 0)
    ensures BadOffset(bufs, offset)
  {
  }

  lemma NoneBad(bufs: seq<Buf>, offset: nat)
    requires (bufs != [] ==> offset >= VIRTIO_NET_HDR_LEN) && forall k :: 0 <= k < |bufs| ==> |bufs[k].pkt| > 0
    ensures !BadOffset(bufs, offset)
  {
  }

  lemma OrderDone(pkts: Packets, udp: UdpFlows, home: seq<nat>)
    requires |home| == |pkts| && InOrder(pkts, udp, home)
    ensures forall x: nat, y: nat {:trigger SameUdpFlow(pkts, x, y)} ::
      x < y < |pkts| && SameUdpFlow(pkts, x, y) ==> home[x] <= home[y]
  {
  }

  /** Lines 861-888. */
  method Handle(little: bool, bufs: seq<Buf>, offset: nat, tcpTable: TcpTable, udpTable: UdpTable, canUdp: bool)
    returns (err: bool, toWrite: seq<nat>, bufs': seq<Buf>, ghost tr: Trace, ghost hist: seq<Snapshot>)
    requires tcpTable.itemsByFlow == map[] && udpTable.itemsByFlow == map[]
    requires |bufs| <= tcpTable.itemsPool && |bufs| <= udpTable.itemsPool
    requires forall k :: 0 <= k < |bufs| ==> |bufs[k].pkt| <= bufs[k].cap <= 0xffff
    modifies tcpTable, udpTable
    ensures tcpTable.itemsPool + |tcpTable.itemsByFlow| == old(tcpTable.itemsPool)
    ensures udpTable.itemsPool + |udpTable.itemsByFlow| == old(udpTable.itemsPool)
    ensures err <==> BadOffset(bufs, offset)
    ensures !err ==> tr.Partition() && |tr.home| == |bufs| && Listed(toWrite, tr)
    ensures !err ==> |hist| == |bufs| + 1 && Run(PktsOf(bufs), hist, offset, canUdp) && hist[|bufs|].tr == tr
    ensures !err ==> hist[0] == Snapshot(bufs, map[], map[], Trace(map[], [], LeastCap(bufs)))
    ensures !err ==> forall j :: j in toWrite ==> Out(PktsOf(bufs), tr.parts, bufs', j)
    ensures !err && canUdp ==>
      forall x: nat, y: nat {:trigger SameUdpFlow(PktsOf(bufs), x, y)} ::
        x < y < |bufs| && SameUdpFlow(PktsOf(bufs), x, y) ==> tr.home[x] <= tr.home[y]
  {
    hide State, Out, InOrder, BadOffset, TcpKept, Joins, Goes, Run, Batch, Held, Listed, LeastCap;
    ghost var pkts := PktsOf(bufs);
    StateStart(pkts, bufs, canUdp);
    err, bufs', toWrite, tr := false, bufs, [], Trace(map[], [], LeastCap(bufs));
    BatchIs(pkts, bufs', tcpTable.itemsByFlow, udpTable.itemsByFlow, tr, 0, canUdp, toWrite);
    hist := [Snapshot(bufs', tcpTable.itemsByFlow, udpTable.itemsByFlow, tr)];
    RunStarts(pkts, hist[0], offset, canUdp);
    for i := 0 to |bufs|
      invariant Batch(pkts, bufs', tcpTable.itemsByFlow, udpTable.itemsByFlow, tr, i, canUdp, toWrite)
      invariant |hist| == i + 1 && Run(pkts, hist, offset, canUdp)
        && hist[i] == Snapshot(bufs', tcpTable.itemsByFlow, udpTable.itemsByFlow, tr)
        && hist[0] == Snapshot(bufs, map[], map[], Trace(map[], [], LeastCap(bufs)))
      invariant tcpTable.itemsPool >= old(tcpTable.itemsPool) - i && udpTable.itemsPool >= old(udpTable.itemsPool) - i
      invariant tcpTable.itemsPool + |tcpTable.itemsByFlow| == old(tcpTable.itemsPool)
      invariant udpTable.itemsPool + |udpTable.itemsByFlow| == old(udpTable.itemsPool)
      invariant !err && (i > 0 ==> offset >= VIRTIO_NET_HDR_LEN) && forall k :: 0 <= k < i ==> |bufs[k].pkt| > 0
    {
      BatchIs(pkts, bufs', tcpTable.itemsByFlow, udpTable.itemsByFlow, tr, i, canUdp, toWrite);
      PacketKnown(pkts, bufs', tcpTable.itemsByFlow, udpTable.itemsByFlow, tr, i);
      assert bufs'[i].pkt == bufs[i].pkt;
      if offset < VIRTIO_NET_HDR_LEN || |bufs'[i].pkt| == 0 {
        IsBad(bufs, offset, i);
        err := true;
        return;
      }
      bufs', toWrite, tr := Step(little, bufs', offset, i, tcpTable, udpTable, canUdp, toWrite, pkts, tr);
      BatchIs(pkts, bufs', tcpTable.itemsByFlow, udpTable.itemsByFlow, tr, i + 1, canUdp, toWrite);
      RunGrows(pkts, hist, offset, canUdp, Snapshot(bufs', tcpTable.itemsByFlow, udpTable.itemsByFlow, tr));
      hist := hist + [Snapshot(bufs', tcpTable.itemsByFlow, udpTable.itemsByFlow, tr)];
    }
    NoneBad(bufs, offset);
    ListedParts(toWrite, tr);
    BatchIs(pkts, bufs', tcpTable.itemsByFlow, udpTable.itemsByFlow, tr, |bufs|, canUdp, toWrite);
    HomeKnown(pkts, bufs', tcpTable.itemsByFlow, udpTable.itemsByFlow, tr, |bufs|);
    bufs' := Apply(little, bufs', tcpTable.itemsByFlow, udpTable.itemsByFlow, pkts, tr);
    if canUdp {
      OrderDone(pkts, udpTable.itemsByFlow, tr.home);
    }
  }
}
