/**
 * Receive offload over a batch of packets: wireguard-go/tun/offload_linux.go, lines 68-264, 412-506, 531-625 and
 * 782-884.
 */
module GroTables {
  import opened Checksum
  import opened Gro
  import opened GsoSplit
  import opened Options
  import opened Sequences

  /** The items of each flow. */
  type TcpFlows = map<FlowKey, seq<TcpItem>>
  type UdpFlows = map<FlowKey, seq<UdpItem>>

  /** Which packets went into which buffer. */
  type Parts = map<nat, seq<nat>>

  /** The virtio header in front of a packet: whatever was there, all zero, or a request to segment. */
  datatype VNet = Stale | Clear | Offload(hdr: VirtioHdr)

  /** A buffer from `offset` on: its packet, the virtio header in front, and how much room the packet has. */
  datatype Buf = Buf(vnet: VNet, pkt: seq<byte>, cap: nat)

  class TcpTable {
    var itemsByFlow: TcpFlows
    var itemsPool: nat

    constructor (size: nat)
      ensures itemsByFlow == map[] && itemsPool == size
    {
      itemsByFlow := map[];
      itemsPool := size;
    }

    /** Lines 112-129: the free lists and the flows together stay as many. */
    method Insert(item: TcpItem)
      requires item.key !in itemsByFlow ==> itemsPool > 0
      modifies this
      ensures itemsByFlow == WithItem(old(itemsByFlow), item)
      ensures itemsPool + |itemsByFlow| == old(itemsPool + |itemsByFlow|)
    {
      var items := [];
      if item.key in itemsByFlow {
        items := itemsByFlow[item.key];
      } else {
        itemsPool := itemsPool - 1;
      }
      MapGrows(itemsByFlow, item.key, items + [item]);
      itemsByFlow := itemsByFlow[item.key := items + [item]];
    }

    /** Lines 131-134. */
    method UpdateAt(item: TcpItem, i: nat)
      requires item.key in itemsByFlow && i < |itemsByFlow[item.key]|
      modifies this`itemsByFlow
      ensures itemsByFlow == old(itemsByFlow)[item.key := old(itemsByFlow)[item.key][i := item]]
      ensures |itemsByFlow| == old(|itemsByFlow|)
    {
      MapGrows(itemsByFlow, item.key, itemsByFlow[item.key][i := item]);
      itemsByFlow := itemsByFlow[item.key := itemsByFlow[item.key][i := item]];
    }

    /** Lines 136-140: the flow keeps its list, even when it has become empty. */
    method DeleteAt(key: FlowKey, i: nat)
      requires key in itemsByFlow && i < |itemsByFlow[key]|
      modifies this`itemsByFlow
      ensures itemsByFlow == old(itemsByFlow)[key := WithoutAt(old(itemsByFlow)[key], i)]
      ensures |itemsByFlow| == old(|itemsByFlow|)
    {
      var items := itemsByFlow[key];
      MapGrows(itemsByFlow, key, items[..i] + items[i + 1..]);
      itemsByFlow := itemsByFlow[key := items[..i] + items[i + 1..]];
    }

    /** Lines 161-167: every list goes back to the pool, so that the next batch finds as many as the first. */
    method Reset()
      modifies this
      ensures itemsByFlow == map[] && itemsPool == old(itemsPool + |itemsByFlow|)
    {
      while itemsByFlow != map[]
        invariant itemsPool + |itemsByFlow| == old(itemsPool + |itemsByFlow|)
        decreases |itemsByFlow|
      {
        var key :| key in itemsByFlow.Keys;
        MapShrinks(itemsByFlow, key);
        itemsByFlow := itemsByFlow - {key};
        itemsPool := itemsPool + 1;
      }
    }
  }

  class UdpTable {
    var itemsByFlow: UdpFlows
    var itemsPool: nat

    constructor (size: nat)
      ensures itemsByFlow == map[] && itemsPool == size
    {
      itemsByFlow := map[];
      itemsPool := size;
    }

    /** Lines 219-234. */
    method Insert(item: UdpItem)
      requires item.key !in itemsByFlow ==> itemsPool > 0
      modifies this
      ensures itemsByFlow == WithUdpItem(old(itemsByFlow), item)
      ensures itemsPool + |itemsByFlow| == old(itemsPool + |itemsByFlow|)
    {
      var items := [];
      if item.key in itemsByFlow {
        items := itemsByFlow[item.key];
      } else {
        itemsPool := itemsPool - 1;
      }
      MapGrows(itemsByFlow, item.key, items + [item]);
      itemsByFlow := itemsByFlow[item.key := items + [item]];
    }

    /** Lines 236-239. */
    method UpdateAt(item: UdpItem, i: nat)
      requires item.key in itemsByFlow && i < |itemsByFlow[item.key]|
      modifies this`itemsByFlow
      ensures itemsByFlow == old(itemsByFlow)[item.key := old(itemsByFlow)[item.key][i := item]]
      ensures |itemsByFlow| == old(|itemsByFlow|)
    {
      MapGrows(itemsByFlow, item.key, itemsByFlow[item.key][i := item]);
      itemsByFlow := itemsByFlow[item.key := itemsByFlow[item.key][i := item]];
    }

    /** Lines 258-264: every list goes back to the pool, so that the next batch finds as many as the first. */
    method Reset()
      modifies this
      ensures itemsByFlow == map[] && itemsPool == old(itemsPool + |itemsByFlow|)
    {
      while itemsByFlow != map[]
        invariant itemsPool + |itemsByFlow| == old(itemsPool + |itemsByFlow|)
        decreases |itemsByFlow|
      {
        var key :| key in itemsByFlow.Keys;
        MapShrinks(itemsByFlow, key);
        itemsByFlow := itemsByFlow - {key};
        itemsPool := itemsPool + 1;
      }
    }
  }

  function WithoutAt<T>(s: seq<T>, i: nat): seq<T>
    requires i < |s|
  {
    s[..i] + s[i + 1..]
  }

  function WithItem(m: TcpFlows, item: TcpItem): TcpFlows {
    m[item.key := (if item.key in m then m[item.key] else []) + [item]]
  }

  function WithUdpItem(m: UdpFlows, item: UdpItem): UdpFlows {
    m[item.key := (if item.key in m then m[item.key] else []) + [item]]
  }

  lemma MapShrinks<V>(m: map<FlowKey, V>, key: FlowKey)
    requires key in m
    ensures |m - {key}| == |m| - 1
  {
    assert (m - {key}).Keys == m.Keys - {key};
    assert |m.Keys| == |m| && |(m - {key}).Keys| == |m - {key}|;
  }

  lemma MapGrows<V>(m: map<FlowKey, V>, key: FlowKey, v: V)
    ensures |m[key := v]| == if key in m then |m| else |m| + 1
  {
    assert m[key := v].Keys == m.Keys + {key};
    assert |m.Keys| == |m| && |m[key := v].Keys| == |m[key := v]|;
  }

  /** Which packets went into which buffer, and in which order; and how much room every buffer has at least. */
  datatype Trace = Trace(parts: Parts, home: seq<nat>, floor: nat) {
    /** The next packet goes into buffer `j`, which then holds `ks`. */
    ghost function Place(j: nat, ks: seq<nat>): Trace {
      Trace(parts[j := ks], home + [j], floor)
    }

    ghost predicate HasHome(k: nat)
      requires k < |home|
    {
      home[k] in parts && k in parts[home[k]]
    }

    ghost predicate OwnPart(j: nat)
      requires j in parts
    {
      && j < |home| && parts[j] != [] && NoDup(parts[j])
      && forall k :: k in parts[j] ==> k < |home| && home[k] == j
    }

    /** Every packet so far is in one buffer, at one place in it. */
    ghost predicate Partition() {
      && (forall k {:trigger home[k]} :: 0 <= k < |home| ==> HasHome(k))
      && (forall j {:trigger parts[j]} :: j in parts ==> OwnPart(j))
    }

    lemma PlaceKeeps(j: nat, ks: seq<nat>)
      requires Partition() && j <= |home| && (j == |home| || j in parts) && NoDup(ks)
      requires forall k :: k in ks <==> k == |home| || (j in parts && k in parts[j])
      ensures Place(j, ks).Partition()
    {
      var r := Place(j, ks);
      assert |home| in ks;
      assert j in parts ==> OwnPart(j);
      forall k | 0 <= k < |r.home|
        ensures r.HasHome(k)
      {
        if k < |home| {
          assert HasHome(k) && r.home[k] == home[k];
        }
      }
      forall l | l in r.parts
        ensures r.OwnPart(l)
      {
        if l in parts {
          assert OwnPart(l);
        }
        if l != j {
          assert l in parts && r.parts[l] == parts[l];
        }
      }
    }
  }

  lemma AppendNoDup(s: seq<nat>, k: nat)
    requires NoDup(s) && k !in s
    ensures NoDup(s + [k]) && NoDup([k] + s)
    ensures forall x :: x in s + [k] <==> x == k || x in s
    ensures forall x :: x in [k] + s <==> x == k || x in s
  {
  }

  ghost predicate TcpItemOk(pkts: Packets, parts: Parts, bufs: seq<Buf>, it: TcpItem) {
    && it.gsoSize > 0 && it.bufsIndex in parts && it.bufsIndex < |bufs|
    && TcpGroup(pkts, parts[it.bufsIndex], it, bufs[it.bufsIndex].pkt)
  }

  /** Every item describes its buffer, in a list of its flow ordered by buffer. */
  ghost predicate TcpTableOk(pkts: Packets, parts: Parts, bufs: seq<Buf>, m: TcpFlows) {
    && (forall key, a {:trigger m[key][a]} ::
          key in m && 0 <= a < |m[key]| ==> m[key][a].key == key && TcpItemOk(pkts, parts, bufs, m[key][a]))
    && (forall key, a, b {:trigger m[key][a], m[key][b]} ::
          key in m && 0 <= a < b < |m[key]| ==> m[key][a].bufsIndex < m[key][b].bufsIndex)
  }

  ghost predicate UdpItemOk(pkts: Packets, parts: Parts, bufs: seq<Buf>, it: UdpItem) {
    && it.gsoSize > 0 && it.bufsIndex in parts && it.bufsIndex < |bufs|
    && UdpGroup(pkts, parts[it.bufsIndex], it, bufs[it.bufsIndex].pkt)
  }

  ghost predicate UdpTableOk(pkts: Packets, parts: Parts, bufs: seq<Buf>, m: UdpFlows) {
    && (forall key, a {:trigger m[key][a]} ::
          key in m && 0 <= a < |m[key]| ==> m[key][a].key == key && UdpItemOk(pkts, parts, bufs, m[key][a]))
    && (forall key, a, b {:trigger m[key][a], m[key][b]} ::
          key in m && 0 <= a < b < |m[key]| ==> m[key][a].bufsIndex < m[key][b].bufsIndex)
    && (forall key :: key in m ==> m[key] != [])
  }

  ghost predicate TcpTracked(m: TcpFlows, j: nat) {
    exists key, a {:trigger m[key][a]} :: key in m && 0 <= a < |m[key]| && m[key][a].bufsIndex == j
  }

  ghost predicate UdpTracked(m: UdpFlows, j: nat) {
    exists key, a {:trigger m[key][a]} :: key in m && 0 <= a < |m[key]| && m[key][a].bufsIndex == j
  }

  /** A packet written as it came. */
  ghost predicate Alone(pkts: Packets, parts: Parts, bufs: seq<Buf>, j: nat)
    requires j in parts
  {
    && j < |bufs| && |parts[j]| == 1 && parts[j][0] < |pkts|
    && bufs[j].pkt == pkts[parts[j][0]] && bufs[j].vnet == Clear
  }

  ghost predicate Accounted(pkts: Packets, parts: Parts, bufs: seq<Buf>, tcp: TcpFlows,
                            udp: UdpFlows, j: nat)
    requires j in parts
  {
    TcpTracked(tcp, j) || UdpTracked(udp, j) || Alone(pkts, parts, bufs, j)
  }

  /** Packets not looked at yet are where they were, and no packet outgrows its buffer. */
  ghost predicate Untouched(pkts: Packets, bufs: seq<Buf>, n: nat, floor: nat) {
    && |bufs| == |pkts|
    && (forall k :: n <= k < |bufs| ==> bufs[k].pkt == pkts[k])
    && (forall k :: 0 <= k < |bufs| ==> |bufs[k].pkt| <= bufs[k].cap <= 0xffff)
    && (forall k :: 0 <= k < |bufs| ==> floor <= bufs[k].cap)
  }

  /** What holds after `n` packets. */
  ghost predicate State(pkts: Packets, bufs: seq<Buf>, tcp: TcpFlows, udp: UdpFlows, tr: Trace, n: nat) {
    && tr.Partition() && |tr.home| == n <= |pkts|
    && Untouched(pkts, bufs, n, tr.floor)
    && TcpTableOk(pkts, tr.parts, bufs, tcp)
    && UdpTableOk(pkts, tr.parts, bufs, udp)
    && forall j {:trigger tr.parts[j]} :: j in tr.parts ==> Accounted(pkts, tr.parts, bufs, tcp, udp, j)
  }

  lemma TcpItemFlow(pkts: Packets, parts: Parts, bufs: seq<Buf>, it: TcpItem)
    requires TcpItemOk(pkts, parts, bufs, it)
    ensures parts[it.bufsIndex] != [] && parts[it.bufsIndex][0] < |pkts|
    ensures TcpOf(pkts[parts[it.bufsIndex][0]]).Some? && TcpOf(pkts[parts[it.bufsIndex][0]]).value.key == it.key
  {
    hide ParseTcp, CandidateOf, Joined, AllCheck;
    assert InFlow(pkts, parts[it.bufsIndex][0], it);
  }

  lemma UdpItemFlow(pkts: Packets, parts: Parts, bufs: seq<Buf>, it: UdpItem)
    requires UdpItemOk(pkts, parts, bufs, it)
    ensures parts[it.bufsIndex] != [] && parts[it.bufsIndex][0] < |pkts|
    ensures UdpOf(pkts[parts[it.bufsIndex][0]]).Some? && UdpOf(pkts[parts[it.bufsIndex][0]]).value.key == it.key
    ensures TcpOf(pkts[parts[it.bufsIndex][0]]).None?
  {
    hide ParseUdp, Joined, AllCheck;
    assert InUdpFlow(pkts, parts[it.bufsIndex][0], it);
  }

  /** No two items of the table share a buffer. */
  lemma TcpItemsApart(pkts: Packets, parts: Parts, bufs: seq<Buf>, m: TcpFlows,
                      key: FlowKey, a: nat, key': FlowKey, b: nat)
    requires TcpTableOk(pkts, parts, bufs, m) && key in m && a < |m[key]| && key' in m && b < |m[key']|
    requires m[key][a].bufsIndex == m[key'][b].bufsIndex
    ensures key == key' && a == b
  {
    hide TcpItemOk;
    TcpItemFlow(pkts, parts, bufs, m[key][a]);
    TcpItemFlow(pkts, parts, bufs, m[key'][b]);
  }

  lemma UdpItemsApart(pkts: Packets, parts: Parts, bufs: seq<Buf>, m: UdpFlows,
                      key: FlowKey, a: nat, key': FlowKey, b: nat)
    requires UdpTableOk(pkts, parts, bufs, m) && key in m && a < |m[key]| && key' in m && b < |m[key']|
    requires m[key][a].bufsIndex == m[key'][b].bufsIndex
    ensures key == key' && a == b
  {
    hide UdpItemOk;
    UdpItemFlow(pkts, parts, bufs, m[key][a]);
    UdpItemFlow(pkts, parts, bufs, m[key'][b]);
  }

  /** Nothing about buffer `j` has changed. */
  ghost predicate Same(parts: Parts, bufs: seq<Buf>, parts': Parts, bufs': seq<Buf>, j: nat) {
    && j in parts && j in parts' && parts'[j] == parts[j]
    && j < |bufs| && j < |bufs'| && bufs'[j] == bufs[j]
  }

  lemma TcpItemKept(pkts: Packets, parts: Parts, bufs: seq<Buf>, parts': Parts, bufs': seq<Buf>, it: TcpItem)
    requires TcpItemOk(pkts, parts, bufs, it) && Same(parts, bufs, parts', bufs', it.bufsIndex)
    ensures TcpItemOk(pkts, parts', bufs', it)
  {
    hide TcpGroup;
  }

  lemma UdpItemKept(pkts: Packets, parts: Parts, bufs: seq<Buf>, parts': Parts, bufs': seq<Buf>, it: UdpItem)
    requires UdpItemOk(pkts, parts, bufs, it) && Same(parts, bufs, parts', bufs', it.bufsIndex)
    ensures UdpItemOk(pkts, parts', bufs', it)
  {
    hide UdpGroup;
  }

  /** All buffers but one are as they were. */
  ghost predicate SameBut(parts: Parts, bufs: seq<Buf>, parts': Parts, bufs': seq<Buf>, j: nat) {
    forall l {:trigger parts[l]} :: l in parts && l != j ==> Same(parts, bufs, parts', bufs', l)
  }

  lemma PartsKnown(pkts: Packets, bufs: seq<Buf>, tcp: TcpFlows, udp: UdpFlows, tr: Trace, n: nat,
                   bufs': seq<Buf>, j: nat, ks: seq<nat>)
    requires State(pkts, bufs, tcp, udp, tr, n) && |bufs'| == |bufs| && n <= |bufs|
    requires forall l :: 0 <= l < n && l != j ==> bufs'[l] == bufs[l]
    ensures SameBut(tr.parts, bufs, tr.Place(j, ks).parts, bufs', j)
  {
    hide TcpTableOk, UdpTableOk, Accounted;
    assert forall l :: l in tr.parts ==> tr.OwnPart(l);
  }

  /** A table whose items are not in buffer `j` does not mind what happens to `j`. */
  lemma TcpTableKept(pkts: Packets, parts: Parts, bufs: seq<Buf>, parts': Parts, bufs': seq<Buf>,
                     m: TcpFlows, j: nat)
    requires TcpTableOk(pkts, parts, bufs, m) && SameBut(parts, bufs, parts', bufs', j) && !TcpTracked(m, j)
    ensures TcpTableOk(pkts, parts', bufs', m)
  {
    hide TcpGroup;
    forall key, a | key in m && 0 <= a < |m[key]|
      ensures m[key][a].key == key && TcpItemOk(pkts, parts', bufs', m[key][a])
    {
      assert m[key][a].bufsIndex != j && TcpItemOk(pkts, parts, bufs, m[key][a]);
      TcpItemKept(pkts, parts, bufs, parts', bufs', m[key][a]);
    }
  }

  lemma UdpTableKept(pkts: Packets, parts: Parts, bufs: seq<Buf>, parts': Parts, bufs': seq<Buf>,
                     m: UdpFlows, j: nat)
    requires UdpTableOk(pkts, parts, bufs, m) && SameBut(parts, bufs, parts', bufs', j) && !UdpTracked(m, j)
    ensures UdpTableOk(pkts, parts', bufs', m)
  {
    hide UdpGroup;
    forall key, a | key in m && 0 <= a < |m[key]|
      ensures m[key][a].key == key && UdpItemOk(pkts, parts', bufs', m[key][a])
    {
      assert m[key][a].bufsIndex != j && UdpItemOk(pkts, parts, bufs, m[key][a]);
      UdpItemKept(pkts, parts, bufs, parts', bufs', m[key][a]);
    }
  }

  lemma OthersAccounted(pkts: Packets, parts: Parts, bufs: seq<Buf>, parts': Parts, bufs': seq<Buf>,
                        tcp: TcpFlows, udp: UdpFlows, tcp': TcpFlows,
                        udp': UdpFlows, j: nat, ks: seq<nat>)
    requires SameBut(parts, bufs, parts', bufs', j) && parts' == parts[j := ks]
    requires forall l {:trigger parts[l]} :: l in parts ==> Accounted(pkts, parts, bufs, tcp, udp, l)
    requires forall l :: TcpTracked(tcp, l) && l != j ==> TcpTracked(tcp', l)
    requires forall l :: UdpTracked(udp, l) && l != j ==> UdpTracked(udp', l)
    requires Accounted(pkts, parts', bufs', tcp', udp', j)
    ensures forall l {:trigger parts'[l]} :: l in parts' ==> Accounted(pkts, parts', bufs', tcp', udp', l)
  {
    hide TcpTracked, UdpTracked;
    forall l | l in parts'
      ensures Accounted(pkts, parts', bufs', tcp', udp', l)
    {
      if l != j {
        assert l in parts && Same(parts, bufs, parts', bufs', l) && Accounted(pkts, parts, bufs, tcp, udp, l);
      }
    }
  }

  lemma NotTracked(pkts: Packets, bufs: seq<Buf>, tcp: TcpFlows, udp: UdpFlows, tr: Trace, n: nat)
    requires State(pkts, bufs, tcp, udp, tr, n)
    ensures !TcpTracked(tcp, n) && !UdpTracked(udp, n)
  {
    hide TcpGroup, UdpGroup, Accounted;
    assert forall l :: l in tr.parts ==> tr.OwnPart(l);
  }

  /** A packet that is left alone. */
  lemma LeftAlone(pkts: Packets, bufs: seq<Buf>, tcp: TcpFlows, udp: UdpFlows, tr: Trace, n: nat)
    requires State(pkts, bufs, tcp, udp, tr, n) && n < |pkts|
    ensures State(pkts, bufs[n := bufs[n].(vnet := Clear)], tcp, udp, tr.Place(n, [n]), n + 1)
  {
    hide TcpGroup, UdpGroup, TcpTableOk, UdpTableOk, TcpTracked, UdpTracked;
    var bufs', r := bufs[n := bufs[n].(vnet := Clear)], tr.Place(n, [n]);
    PartsKnown(pkts, bufs, tcp, udp, tr, n, bufs', n, [n]);
    NotTracked(pkts, bufs, tcp, udp, tr, n);
    FreshPart(tr, n);
    TcpTableKept(pkts, tr.parts, bufs, r.parts, bufs', tcp, n);
    UdpTableKept(pkts, tr.parts, bufs, r.parts, bufs', udp, n);
    assert Alone(pkts, r.parts, bufs', n);
    OthersAccounted(pkts, tr.parts, bufs, r.parts, bufs', tcp, udp, tcp, udp, n, [n]);
  }

  lemma FreshPart(tr: Trace, n: nat)
    requires tr.Partition() && |tr.home| == n
    ensures n !in tr.parts && tr.Place(n, [n]).Partition()
  {
    assert forall l :: l in tr.parts ==> tr.OwnPart(l);
    tr.PlaceKeeps(n, [n]);
  }

  function ItemFor(s: TcpSeg, bufsIndex: nat): TcpItem {
    TcpItem(s.key, s.seqNo, bufsIndex, 0, s.gsoSize, s.iphLen, s.tcphLen, s.pshSet)
  }

  function UdpItemFor(s: UdpSeg, bufsIndex: nat, cSumKnownInvalid: bool): UdpItem {
    UdpItem(s.key, bufsIndex, 0, s.gsoSize, s.iphLen, cSumKnownInvalid)
  }

  lemma WithItemTracks(m: TcpFlows, item: TcpItem)
    ensures TcpTracked(WithItem(m, item), item.bufsIndex)
    ensures forall l :: TcpTracked(m, l) ==> TcpTracked(WithItem(m, item), l)
  {
    var r: TcpFlows := WithItem(m, item);
    assert r[item.key][|r[item.key]| - 1] == item;
    forall l | TcpTracked(m, l)
      ensures TcpTracked(r, l)
    {
      var key, a :| key in m && 0 <= a < |m[key]| && m[key][a].bufsIndex == l;
      assert r[key][a] == m[key][a];
    }
  }

  lemma WithUdpItemTracks(m: UdpFlows, item: UdpItem)
    ensures UdpTracked(WithUdpItem(m, item), item.bufsIndex)
    ensures forall l :: UdpTracked(m, l) ==> UdpTracked(WithUdpItem(m, item), l)
  {
    var r: UdpFlows := WithUdpItem(m, item);
    assert r[item.key][|r[item.key]| - 1] == item;
    forall l | UdpTracked(m, l)
      ensures UdpTracked(r, l)
    {
      var key, a :| key in m && 0 <= a < |m[key]| && m[key][a].bufsIndex == l;
      assert r[key][a] == m[key][a];
    }
  }

  /** A new item is the last of its flow and of all buffers. */
  lemma WithItemOk(pkts: Packets, parts: Parts, bufs: seq<Buf>, m: TcpFlows, item: TcpItem)
    requires TcpTableOk(pkts, parts, bufs, m) && TcpItemOk(pkts, parts, bufs, item)
    requires forall l :: l in parts ==> l <= item.bufsIndex
    requires !TcpTracked(m, item.bufsIndex)
    ensures TcpTableOk(pkts, parts, bufs, WithItem(m, item))
  {
    hide TcpGroup;
    var r: TcpFlows := WithItem(m, item);
    forall key: FlowKey, a: nat | key in r && a < |r[key]|
      ensures r[key][a].key == key && TcpItemOk(pkts, parts, bufs, r[key][a])
      ensures r[key][a] == item
        || (key in m && a < |m[key]| && r[key][a] == m[key][a] && r[key][a].bufsIndex < item.bufsIndex)
    {
    }
  }

  lemma WithUdpItemOk(pkts: Packets, parts: Parts, bufs: seq<Buf>, m: UdpFlows, item: UdpItem)
    requires UdpTableOk(pkts, parts, bufs, m) && UdpItemOk(pkts, parts, bufs, item)
    requires forall l :: l in parts ==> l <= item.bufsIndex
    requires !UdpTracked(m, item.bufsIndex)
    ensures UdpTableOk(pkts, parts, bufs, WithUdpItem(m, item))
  {
    hide UdpGroup;
    var r: UdpFlows := WithUdpItem(m, item);
    forall key: FlowKey, a: nat | key in r && a < |r[key]|
      ensures r[key][a].key == key && UdpItemOk(pkts, parts, bufs, r[key][a])
      ensures r[key][a] == item
        || (key in m && a < |m[key]| && r[key][a] == m[key][a] && r[key][a].bufsIndex < item.bufsIndex)
    {
    }
  }

  /** A TCP packet becomes an item of its own. */
  lemma TcpInserted(pkts: Packets, bufs: seq<Buf>, tcp: TcpFlows, udp: UdpFlows, tr: Trace, n: nat)
    requires State(pkts, bufs, tcp, udp, tr, n) && n < |pkts| && TcpOf(pkts[n]).Some?
    ensures State(pkts, bufs, WithItem(tcp, ItemFor(TcpOf(pkts[n]).value, n)), udp, tr.Place(n, [n]), n + 1)
  {
    hide TcpGroup, UdpGroup, TcpTableOk, UdpTableOk, TcpTracked, UdpTracked, ParseTcp, CandidateOf;
    var item, r := ItemFor(TcpOf(pkts[n]).value, n), tr.Place(n, [n]);
    PartsKnown(pkts, bufs, tcp, udp, tr, n, bufs, n, [n]);
    NotTracked(pkts, bufs, tcp, udp, tr, n);
    FreshPart(tr, n);
    TcpTableKept(pkts, tr.parts, bufs, r.parts, bufs, tcp, n);
    UdpTableKept(pkts, tr.parts, bufs, r.parts, bufs, udp, n);
    TcpAlone(pkts, n, item);
    assert forall l :: l in r.parts ==> r.OwnPart(l);
    WithItemOk(pkts, r.parts, bufs, tcp, item);
    WithItemTracks(tcp, item);
    OthersAccounted(pkts, tr.parts, bufs, r.parts, bufs, tcp, udp, WithItem(tcp, item), udp, n, [n]);
  }

  lemma UdpInserted(pkts: Packets, bufs: seq<Buf>, tcp: TcpFlows, udp: UdpFlows, tr: Trace, n: nat,
                    invalid: bool)
    requires State(pkts, bufs, tcp, udp, tr, n) && n < |pkts| && UdpOf(pkts[n]).Some?
      && (invalid ==> !GoodUdp(pkts[n]))
    ensures State(pkts, bufs, tcp, WithUdpItem(udp, UdpItemFor(UdpOf(pkts[n]).value, n, invalid)), tr.Place(n, [n]),
      n + 1)
  {
    hide TcpGroup, UdpGroup, TcpTableOk, UdpTableOk, TcpTracked, UdpTracked, ParseUdp, CandidateOf;
    var item, r := UdpItemFor(UdpOf(pkts[n]).value, n, invalid), tr.Place(n, [n]);
    PartsKnown(pkts, bufs, tcp, udp, tr, n, bufs, n, [n]);
    NotTracked(pkts, bufs, tcp, udp, tr, n);
    FreshPart(tr, n);
    TcpTableKept(pkts, tr.parts, bufs, r.parts, bufs, tcp, n);
    UdpTableKept(pkts, tr.parts, bufs, r.parts, bufs, udp, n);
    UdpAlone(pkts, n, item);
    assert forall l :: l in r.parts ==> r.OwnPart(l);
    WithUdpItemOk(pkts, r.parts, bufs, udp, item);
    WithUdpItemTracks(udp, item);
    OthersAccounted(pkts, tr.parts, bufs, r.parts, bufs, tcp, udp, tcp, WithUdpItem(udp, item), n, [n]);
  }

  /** Updating an item in place, together with its buffer. */
  lemma TcpUpdateOk(pkts: Packets, parts: Parts, bufs: seq<Buf>, parts': Parts, bufs': seq<Buf>,
                    m: TcpFlows, key: FlowKey, a: nat, item: TcpItem)
    requires TcpTableOk(pkts, parts, bufs, m) && key in m && a < |m[key]| && item.key == key
      && item.bufsIndex == m[key][a].bufsIndex
    requires SameBut(parts, bufs, parts', bufs', item.bufsIndex) && TcpItemOk(pkts, parts', bufs', item)
    ensures TcpTableOk(pkts, parts', bufs', m[key := m[key][a := item]])
    ensures forall l :: TcpTracked(m, l) ==> TcpTracked(m[key := m[key][a := item]], l)
  {
    hide TcpGroup;
    var r: TcpFlows := m[key := m[key][a := item]];
    forall k: FlowKey, b: nat | k in r && b < |r[k]|
      ensures r[k][b].key == k && TcpItemOk(pkts, parts', bufs', r[k][b]) && r[k][b].bufsIndex == m[k][b].bufsIndex
    {
      if k != key || b != a {
        assert TcpItemOk(pkts, parts, bufs, m[k][b]);
        if m[k][b].bufsIndex == item.bufsIndex {
          TcpItemsApart(pkts, parts, bufs, m, key, a, k, b);
        } else {
          TcpItemKept(pkts, parts, bufs, parts', bufs', m[k][b]);
        }
      }
    }
    forall l | TcpTracked(m, l)
      ensures TcpTracked(r, l)
    {
      var k, b :| k in m && 0 <= b < |m[k]| && m[k][b].bufsIndex == l;
      assert r[k][b].bufsIndex == l;
    }
  }

  lemma UdpUpdateOk(pkts: Packets, parts: Parts, bufs: seq<Buf>, parts': Parts, bufs': seq<Buf>,
                    m: UdpFlows, key: FlowKey, a: nat, item: UdpItem)
    requires UdpTableOk(pkts, parts, bufs, m) && key in m && a < |m[key]| && item.key == key
      && item.bufsIndex == m[key][a].bufsIndex
    requires SameBut(parts, bufs, parts', bufs', item.bufsIndex) && UdpItemOk(pkts, parts', bufs', item)
    ensures UdpTableOk(pkts, parts', bufs', m[key := m[key][a := item]])
    ensures forall l :: UdpTracked(m, l) ==> UdpTracked(m[key := m[key][a := item]], l)
  {
    hide UdpGroup;
    var r: UdpFlows := m[key := m[key][a := item]];
    forall k: FlowKey, b: nat | k in r && b < |r[k]|
      ensures r[k][b].key == k && UdpItemOk(pkts, parts', bufs', r[k][b]) && r[k][b].bufsIndex == m[k][b].bufsIndex
    {
      if k != key || b != a {
        assert UdpItemOk(pkts, parts, bufs, m[k][b]);
        if m[k][b].bufsIndex == item.bufsIndex {
          UdpItemsApart(pkts, parts, bufs, m, key, a, k, b);
        } else {
          UdpItemKept(pkts, parts, bufs, parts', bufs', m[k][b]);
        }
      }
    }
    forall l | UdpTracked(m, l)
      ensures UdpTracked(r, l)
    {
      var k, b :| k in m && 0 <= b < |m[k]| && m[k][b].bufsIndex == l;
      assert r[k][b].bufsIndex == l;
    }
  }

  lemma TcpNotUdp(pkts: Packets, parts: Parts, bufs: seq<Buf>, tcp: TcpFlows, udp: UdpFlows, j: nat)
    requires TcpTableOk(pkts, parts, bufs, tcp) && UdpTableOk(pkts, parts, bufs, udp)
    ensures !(TcpTracked(tcp, j) && UdpTracked(udp, j))
  {
    hide TcpItemOk, UdpItemOk;
    if TcpTracked(tcp, j) && UdpTracked(udp, j) {
      var k, a :| k in tcp && 0 <= a < |tcp[k]| && tcp[k][a].bufsIndex == j;
      var l, b :| l in udp && 0 <= b < |udp[l]| && udp[l][b].bufsIndex == j;
      TcpItemFlow(pkts, parts, bufs, tcp[k][a]);
      UdpItemFlow(pkts, parts, bufs, udp[l][b]);
    }
  }

  /** A packet joins the packets of a TCP item. */
  lemma TcpMerged(pkts: Packets, bufs: seq<Buf>, tcp: TcpFlows, udp: UdpFlows, tr: Trace, n: nat,
                  key: FlowKey, a: nat, item: TcpItem, bufs': seq<Buf>, ks: seq<nat>)
    requires State(pkts, bufs, tcp, udp, tr, n) && n < |pkts| && key in tcp && a < |tcp[key]|
    requires item.key == key && item.bufsIndex == tcp[key][a].bufsIndex < n && item.gsoSize > 0
      && item.bufsIndex in tr.parts
    requires ks == tr.parts[item.bufsIndex] + [n] || ks == [n] + tr.parts[item.bufsIndex]
    requires Untouched(pkts, bufs', n + 1, tr.floor)
      && forall l :: 0 <= l < n && l != item.bufsIndex ==> bufs'[l] == bufs[l]
    requires TcpGroup(pkts, ks, item, bufs'[item.bufsIndex].pkt)
    ensures State(pkts, bufs', tcp[key := tcp[key][a := item]], udp, tr.Place(item.bufsIndex, ks), n + 1)
  {
    hide TcpGroup, UdpGroup, TcpTracked, UdpTracked;
    var j, r, tcp' := item.bufsIndex, tr.Place(item.bufsIndex, ks), tcp[key := tcp[key][a := item]];
    JoinedPart(tr, n, j, ks);
    PartsKnown(pkts, bufs, tcp, udp, tr, n, bufs', j, ks);
    TcpIs(tcp, key, a);
    TcpNotUdp(pkts, tr.parts, bufs, tcp, udp, j);
    UdpTableKept(pkts, tr.parts, bufs, r.parts, bufs', udp, j);
    TcpUpdateOk(pkts, tr.parts, bufs, r.parts, bufs', tcp, key, a, item);
    OthersAccounted(pkts, tr.parts, bufs, r.parts, bufs', tcp, udp, tcp', udp, j, ks);
  }

  lemma TcpIs(m: TcpFlows, key: FlowKey, a: nat)
    requires key in m && a < |m[key]|
    ensures TcpTracked(m, m[key][a].bufsIndex)
  {
  }

  lemma UdpIs(m: UdpFlows, key: FlowKey, a: nat)
    requires key in m && a < |m[key]|
    ensures UdpTracked(m, m[key][a].bufsIndex)
  {
  }

  lemma JoinedPart(tr: Trace, n: nat, j: nat, ks: seq<nat>)
    requires tr.Partition() && |tr.home| == n && j in tr.parts && (ks == tr.parts[j] + [n] || ks == [n] + tr.parts[j])
    ensures tr.Place(j, ks).Partition()
  {
    assert tr.OwnPart(j);
    AppendNoDup(tr.parts[j], n);
    tr.PlaceKeeps(j, ks);
  }

  lemma UdpMerged(pkts: Packets, bufs: seq<Buf>, tcp: TcpFlows, udp: UdpFlows, tr: Trace, n: nat,
                  key: FlowKey, a: nat, item: UdpItem, bufs': seq<Buf>, ks: seq<nat>)
    requires State(pkts, bufs, tcp, udp, tr, n) && n < |pkts| && key in udp && a < |udp[key]|
    requires item.key == key && item.bufsIndex == udp[key][a].bufsIndex < n && item.gsoSize > 0
      && item.bufsIndex in tr.parts
    requires ks == tr.parts[item.bufsIndex] + [n]
    requires Untouched(pkts, bufs', n + 1, tr.floor)
      && forall l :: 0 <= l < n && l != item.bufsIndex ==> bufs'[l] == bufs[l]
    requires UdpGroup(pkts, ks, item, bufs'[item.bufsIndex].pkt)
    ensures State(pkts, bufs', tcp, udp[key := udp[key][a := item]], tr.Place(item.bufsIndex, ks), n + 1)
  {
    hide TcpGroup, UdpGroup, TcpTracked, UdpTracked;
    var j, r, udp' := item.bufsIndex, tr.Place(item.bufsIndex, ks), udp[key := udp[key][a := item]];
    JoinedPart(tr, n, j, ks);
    PartsKnown(pkts, bufs, tcp, udp, tr, n, bufs', j, ks);
    UdpIs(udp, key, a);
    TcpNotUdp(pkts, tr.parts, bufs, tcp, udp, j);
    TcpTableKept(pkts, tr.parts, bufs, r.parts, bufs', tcp, j);
    UdpUpdateOk(pkts, tr.parts, bufs, r.parts, bufs', udp, key, a, item);
    OthersAccounted(pkts, tr.parts, bufs, r.parts, bufs', tcp, udp, tcp, udp', j, ks);
  }

  lemma TcpDeleteOk(pkts: Packets, parts: Parts, bufs: seq<Buf>, bufs': seq<Buf>,
                    m: TcpFlows, key: FlowKey, a: nat)
    requires TcpTableOk(pkts, parts, bufs, m) && key in m && a < |m[key]|
    requires SameBut(parts, bufs, parts, bufs', m[key][a].bufsIndex)
    ensures TcpTableOk(pkts, parts, bufs', m[key := WithoutAt(m[key], a)])
    ensures forall l :: TcpTracked(m, l) && l != m[key][a].bufsIndex ==> TcpTracked(m[key := WithoutAt(m[key], a)], l)
  {
    hide TcpGroup;
    var j, r: TcpFlows := m[key][a].bufsIndex, m[key := WithoutAt(m[key], a)];
    forall k: FlowKey, b: nat | k in r && b < |r[k]|
      ensures r[k][b].key == k && TcpItemOk(pkts, parts, bufs', r[k][b])
      ensures r[k][b] == if k == key && b >= a then m[k][b + 1] else m[k][b]
    {
      var c := if k == key && b >= a then b + 1 else b;
      assert r[k][b] == m[k][c] && TcpItemOk(pkts, parts, bufs, m[k][c]);
      if m[k][c].bufsIndex == j {
        TcpItemsApart(pkts, parts, bufs, m, key, a, k, c);
      } else {
        TcpItemKept(pkts, parts, bufs, parts, bufs', m[k][c]);
      }
    }
    DropTracks(m, key, a);
  }

  /** An item whose own checksum is wrong is dropped from the table, its packet left alone. */
  lemma TcpDeleted(pkts: Packets, bufs: seq<Buf>, tcp: TcpFlows, udp: UdpFlows, tr: Trace, n: nat,
                   key: FlowKey, a: nat, j: nat)
    requires State(pkts, bufs, tcp, udp, tr, n) && key in tcp && a < |tcp[key]| && tcp[key][a].numMerged == 0
    requires j == tcp[key][a].bufsIndex < n
    ensures State(pkts, bufs[j := bufs[j].(vnet := Clear)], tcp[key := WithoutAt(tcp[key], a)], udp, tr, n)
  {
    hide UdpGroup, TcpTracked, UdpTracked, Joined, AllCheck, InSequence;
    var bufs', tcp' := bufs[j := bufs[j].(vnet := Clear)], tcp[key := WithoutAt(tcp[key], a)];
    assert TcpItemOk(pkts, tr.parts, bufs, tcp[key][a]);
    assert Alone(pkts, tr.parts, bufs', j) by {
      TcpItemFlow(pkts, tr.parts, bufs, tcp[key][a]);
    }
    assert SameBut(tr.parts, bufs, tr.parts, bufs', j) by {
      assert forall l :: l in tr.parts ==> tr.OwnPart(l);
    }
    TcpIs(tcp, key, a);
    TcpNotUdp(pkts, tr.parts, bufs, tcp, udp, j);
    UdpTableKept(pkts, tr.parts, bufs, tr.parts, bufs', udp, j);
    TcpDeleteOk(pkts, tr.parts, bufs, bufs', tcp, key, a);
    OthersAccounted(pkts, tr.parts, bufs, tr.parts, bufs', tcp, udp, tcp', udp, j, tr.parts[j]);
  }

  datatype CoalesceResult = InsufficientCap | PshEnding | ItemInvalidCSum | PktInvalidCSum | Success

  datatype GroResult = Noop | TableInsert | Coalesced

  /** The packet `pkt` can be joined to the item: same flow, same header lengths, both within a packet's size. */
  ghost predicate Joinable(pkt: seq<byte>, s: TcpSeg, item: TcpItem, target: seq<byte>, isV6: bool) {
    && item.iphLen == s.iphLen == (if isV6 then 40 else 20) && item.tcphLen == s.tcphLen && 20 <= s.tcphLen <= 60
    && item.HeadersLen() <= |target| <= 0xffff && s.HeadersLen() <= |pkt| <= 0xffff
  }

  /** What an append makes of the item's packet. */
  ghost predicate AppendedTo(target: seq<byte>, pkt: seq<byte>, h: nat, at: nat, pshSet: bool, joined: seq<byte>) {
    && at < h <= |target| && h <= |pkt| && |joined| == |target| + |pkt| - h
    && joined[h..] == target[h..] + pkt[h..]
    && SameExcept(joined, target, 0, h, {at})
    && joined[at] == if pshSet then SetPsh(target[at]) else target[at]
  }

  /** There is room for the joined packet, the checksums of both packets are right, and no PSH would end up inside. */
  ghost predicate RoomAndSums(mode: Mode, pkt: seq<byte>, s: TcpSeg, item: TcpItem, target: seq<byte>, room: nat,
                              offset: nat)
    requires Joinable(pkt, s, item, target, s.key.isV6)
  {
    && |target| + |pkt| - item.HeadersLen() + offset <= room && !(mode == Prepend && s.pshSet)
    && Checks(pkt, item.iphLen, IPPROTO_TCP, s.key.isV6)
    && (item.numMerged == 0 ==> Checks(target, item.iphLen, IPPROTO_TCP, s.key.isV6))
  }

  /** Lines 452-467 and 477-489: room, and both checksums. */
  method MayCoalesce(little: bool, mode: Mode, pkt: seq<byte>, s: TcpSeg, item: TcpItem, target: Buf, room: nat,
                     offset: nat, isV6: bool)
    returns (res: CoalesceResult)
    requires mode != Unavailable && Joinable(pkt, s, item, target.pkt, isV6) && s.key.isV6 == isV6
    ensures res == Success <==> RoomAndSums(mode, pkt, s, item, target.pkt, room, offset)
    ensures res == ItemInvalidCSum ==> item.numMerged == 0 && !Checks(target.pkt, item.iphLen, IPPROTO_TCP, isV6)
    ensures res == PktInvalidCSum ==> !Checks(pkt, item.iphLen, IPPROTO_TCP, isV6)
  {
    var coalescedLen := |target.pkt| + |pkt| - item.HeadersLen();
    if room < coalescedLen + offset {
      return InsufficientCap;
    }
    if mode == Prepend && s.pshSet {
      return PshEnding;
    }
    if item.numMerged == 0 {
      var valid := ChecksumValid(little, target.pkt, item.iphLen, IPPROTO_TCP, isV6);
      if !valid {
        return ItemInvalidCSum;
      }
    }
    var valid := ChecksumValid(little, pkt, item.iphLen, IPPROTO_TCP, isV6);
    return if valid then Success else PktInvalidCSum;
  }

  /** The new packet, followed by the item's payload, takes the item's place; the item's buffer takes the packet's. */
  ghost predicate Prepended(bufs: seq<Buf>, pktI: nat, s: TcpSeg, item: TcpItem, item': TcpItem, bufs': seq<Buf>) {
    && pktI < |bufs| && item.bufsIndex < |bufs| && pktI != item.bufsIndex
      && item.HeadersLen() <= |bufs[item.bufsIndex].pkt|
    && item' == item.(sentSeq := s.seqNo, gsoSize := if s.gsoSize > item.gsoSize then s.gsoSize
      else item.gsoSize, numMerged := item.numMerged + 1)
    && bufs' == bufs[pktI := bufs[item.bufsIndex]][item.bufsIndex :=
      bufs[pktI].(pkt := bufs[pktI].pkt + bufs[item.bufsIndex].pkt[item.HeadersLen()..])]
    && |bufs'[item.bufsIndex].pkt| <= bufs[pktI].cap
  }

  /** The item's packet is followed by the new packet's payload, and carries its PSH flag. */
  ghost predicate Appended(bufs: seq<Buf>, pktI: nat, s: TcpSeg, item: TcpItem, item': TcpItem, bufs': seq<Buf>) {
    && pktI < |bufs| == |bufs'| && item.bufsIndex < |bufs|
    && item' == item.(pshSet := item.pshSet || s.pshSet, gsoSize := if s.gsoSize > item.gsoSize then s.gsoSize
      else item.gsoSize, numMerged := item.numMerged + 1)
    && bufs' == bufs[item.bufsIndex := bufs[item.bufsIndex].(pkt := bufs'[item.bufsIndex].pkt)]
    && AppendedTo(bufs[item.bufsIndex].pkt, bufs[pktI].pkt, item.HeadersLen(), item.iphLen + TCP_FLAGS_OFFSET,
      s.pshSet, bufs'[item.bufsIndex].pkt)
    && |bufs'[item.bufsIndex].pkt| <= bufs[item.bufsIndex].cap
  }

  /** The buffer that is extended is the one of the packet in front. */
  function RoomFor(mode: Mode, bufs: seq<Buf>, pktI: nat, item: TcpItem): nat
    requires pktI < |bufs| && item.bufsIndex < |bufs|
  {
    if mode == Prepend then bufs[pktI].cap else bufs[item.bufsIndex].cap
  }

  /** Lines 444-506. */
  method CoalesceTcp(little: bool, mode: Mode, pktI: nat, s: TcpSeg, item: TcpItem, bufs: seq<Buf>, offset: nat,
                     isV6: bool)
    returns (res: CoalesceResult, item': TcpItem, bufs': seq<Buf>)
    requires mode != Unavailable && pktI < |bufs| && item.bufsIndex < |bufs| && pktI != item.bufsIndex
    requires Joinable(bufs[pktI].pkt, s, item, bufs[item.bufsIndex].pkt, isV6) && s.key.isV6 == isV6
    ensures res == Success <==>
      RoomAndSums(mode, bufs[pktI].pkt, s, item, bufs[item.bufsIndex].pkt, RoomFor(mode, bufs, pktI, item), offset)
    ensures res == ItemInvalidCSum ==>
      item.numMerged == 0 && !Checks(bufs[item.bufsIndex].pkt, item.iphLen, IPPROTO_TCP, isV6)
    ensures res == PktInvalidCSum ==> !Checks(bufs[pktI].pkt, item.iphLen, IPPROTO_TCP, isV6)
    ensures res != Success ==> item' == item && bufs' == bufs
    ensures res == Success && mode == Prepend ==> Prepended(bufs, pktI, s, item, item', bufs')
    ensures res == Success && mode == Append ==> Appended(bufs, pktI, s, item, item', bufs')
  {
    hide Checks;
    var j, h := item.bufsIndex, item.HeadersLen();
    item', bufs' := item, bufs;
    res := MayCoalesce(little, mode, bufs[pktI].pkt, s, item, bufs[j], RoomFor(mode, bufs, pktI, item), offset, isV6);
    if res != Success {
      return;
    }
    assert |bufs[j].pkt| + |bufs[pktI].pkt| - h <= RoomFor(mode, bufs, pktI, item);
    hide RoomAndSums;
    if mode == Prepend {
      item' := item'.(sentSeq := s.seqNo);
      var extended := bufs[pktI].(pkt := bufs[pktI].pkt + bufs[j].pkt[h..]);
      bufs' := bufs'[pktI := extended];
      bufs' := bufs'[j := bufs'[pktI]][pktI := bufs'[j]];
    } else {
      var head := bufs[j].pkt;
      if s.pshSet {
        item' := item'.(pshSet := true);
        head := Over(head, item.iphLen + TCP_FLAGS_OFFSET, [SetPsh(head[item.iphLen + TCP_FLAGS_OFFSET])]);
      }
      bufs' := bufs'[j := bufs[j].(pkt := head + bufs[pktI].pkt[h..])];
      assert head[h..] == bufs[j].pkt[h..];
    }
    if s.gsoSize > item'.gsoSize {
      item' := item'.(gsoSize := s.gsoSize);
    }
    item' := item'.(numMerged := item'.numMerged + 1);
  }

  /** The checksums `coalesceTCPPackets` looks at vouch for every packet of the item. */
  lemma TcpVouched(pkts: Packets, ks: seq<nat>, item: TcpItem, pkt: seq<byte>, k: nat)
    requires TcpGroup(pkts, ks, item, pkt) && InFlow(pkts, k, item) && |pkt| <= 0xffff
    requires Checks(pkts[k], item.iphLen, IPPROTO_TCP, item.key.isV6)
    requires item.numMerged == 0 ==> Checks(pkt, item.iphLen, IPPROTO_TCP, item.key.isV6)
    ensures Vouched(pkts, ks, k, item.iphLen, IPPROTO_TCP, item.key.isV6)
  {
    hide Checks, Joined, ParseTcp, CandidateOf;
    assert [k][0] == k;
    FlowLengths(pkts, k, item);
    assert AllCheck(pkts, [k], item.iphLen, IPPROTO_TCP, item.key.isV6);
    if item.numMerged == 0 {
      assert InFlow(pkts, ks[0], item) by {
        assert InSequence(pkts, ks, item);
      }
      assert AllCheck(pkts, ks, item.iphLen, IPPROTO_TCP, item.key.isV6);
    }
  }

  /** The item and the packet, as the two functions see them. */
  lemma TcpReady(pkts: Packets, parts: Parts, bufs: seq<Buf>, item: TcpItem, n: nat)
    requires TcpItemOk(pkts, parts, bufs, item) && n < |pkts| && TcpOf(pkts[n]).Some?
      && TcpOf(pkts[n]).value.key == item.key
    ensures item.HeadersLen() <= |bufs[item.bufsIndex].pkt| && 20 <= item.tcphLen <= 60
    ensures item.iphLen == TcpOf(pkts[n]).value.iphLen == if item.key.isV6 then 40 else 20
    ensures TcpOf(pkts[n]).value.tcphLen == item.tcphLen ==> InFlow(pkts, n, item)
  {
    hide ParseTcp, CandidateOf, Joined, AllCheck;
    assert InFlow(pkts, parts[item.bufsIndex][0], item);
    FlowLengths(pkts, parts[item.bufsIndex][0], item);
  }

  /** Packet `n` can be merged into the item in this mode. */
  ghost predicate CanTake(pkts: Packets, parts: Parts, bufs: seq<Buf>, item: TcpItem, n: nat, mode: Mode) {
    && TcpItemOk(pkts, parts, bufs, item) && item.bufsIndex < n < |pkts| == |bufs|
    && InFlow(pkts, n, item) && bufs[n].pkt == pkts[n]
    && var pkt := bufs[item.bufsIndex].pkt;
    && item.HeadersLen() <= |pkt| <= 0xffff && mode == TcpMode(pkts[n], TcpOf(pkts[n]).value, item, pkt)
    && Checks(pkts[n], item.iphLen, IPPROTO_TCP, item.key.isV6)
    && (item.numMerged == 0 ==> Checks(pkt, item.iphLen, IPPROTO_TCP, item.key.isV6))
  }

  lemma TakesWhen(pkts: Packets, parts: Parts, bufs: seq<Buf>, item: TcpItem, n: nat, s: TcpSeg, mode: Mode, room: nat,
                  offset: nat)
    requires TcpItemOk(pkts, parts, bufs, item) && item.bufsIndex < n < |pkts| == |bufs| && bufs[n].pkt == pkts[n]
      && |bufs[item.bufsIndex].pkt| <= 0xffff
    requires TcpOf(pkts[n]) == Some(s) && s.key == item.key
      && Joinable(bufs[n].pkt, s, item, bufs[item.bufsIndex].pkt, s.key.isV6)
    requires mode == TcpMode(bufs[n].pkt, s, item, bufs[item.bufsIndex].pkt)
    requires RoomAndSums(mode, bufs[n].pkt, s, item, bufs[item.bufsIndex].pkt, room, offset)
    ensures CanTake(pkts, parts, bufs, item, n, mode)
  {
    hide TcpItemOk, TcpMode, Checks, ParseTcp, CandidateOf;
    TcpReady(pkts, parts, bufs, item, n);
  }

  /** The packets in a buffer are older than the one that is looked at. */
  lemma PartOlder(pkts: Packets, bufs: seq<Buf>, tcp: TcpFlows, udp: UdpFlows, tr: Trace, n: nat, j: nat)
    requires State(pkts, bufs, tcp, udp, tr, n) && j in tr.parts
    ensures n <= |pkts| && Untouched(pkts, bufs, n, tr.floor)
      && forall t :: 0 <= t < |tr.parts[j]| ==> tr.parts[j][t] < n
  {
    hide TcpTableOk, UdpTableOk, Accounted, Untouched;
    assert tr.OwnPart(j);
    assert forall t :: 0 <= t < |tr.parts[j]| ==> tr.parts[j][t] in tr.parts[j];
  }

  lemma TcpPrependBufs(pkts: Packets, parts: Parts, bufs: seq<Buf>, item: TcpItem, n: nat, item': TcpItem,
                       bufs': seq<Buf>, floor: nat)
    requires CanTake(pkts, parts, bufs, item, n, Prepend)
      && Prepended(bufs, n, TcpOf(pkts[n]).value, item, item', bufs')
      && Untouched(pkts, bufs, n, floor)
    ensures item'.bufsIndex == item.bufsIndex < n < |pkts| && item.bufsIndex in parts
    ensures Untouched(pkts, bufs', n + 1, floor)
      && forall l :: 0 <= l < n && l != item.bufsIndex ==> bufs'[l] == bufs[l]
  {
    hide TcpMode, TcpGroup, Checks, TcpOf, AppendedTo;
  }

  lemma TcpPrependGroup(pkts: Packets, parts: Parts, bufs: seq<Buf>, item: TcpItem, n: nat, item': TcpItem,
                        bufs': seq<Buf>)
    requires CanTake(pkts, parts, bufs, item, n, Prepend)
      && Prepended(bufs, n, TcpOf(pkts[n]).value, item, item', bufs')
    requires forall t :: 0 <= t < |parts[item.bufsIndex]| ==> parts[item.bufsIndex][t] < n
    ensures var ks := parts[item.bufsIndex];
      TcpGroup(pkts, [n] + ks, item', bufs'[item.bufsIndex].pkt) && item'.gsoSize > 0 && item'.key == item.key
  {
    hide TcpMode, TcpGroup, Checks, TcpOf;
    var j, ks := item.bufsIndex, parts[item.bufsIndex];
    PrependMeans(pkts[n], TcpOf(pkts[n]).value, item, bufs[j].pkt);
    TcpVouched(pkts, ks, item, bufs[j].pkt, n);
    TcpPrepended(pkts, ks, item, bufs[j].pkt, n, item', bufs'[j].pkt);
  }

  /** A successful merge at the front. */
  lemma TcpPrependDone(pkts: Packets, bufs: seq<Buf>, tcp: TcpFlows, udp: UdpFlows, tr: Trace, n: nat,
                       key: FlowKey, a: nat, item': TcpItem, bufs': seq<Buf>)
    requires State(pkts, bufs, tcp, udp, tr, n) && key in tcp && a < |tcp[key]| && tcp[key][a].key == key
    requires CanTake(pkts, tr.parts, bufs, tcp[key][a], n, Prepend)
      && Prepended(bufs, n, TcpOf(pkts[n]).value, tcp[key][a], item', bufs')
    ensures State(pkts, bufs', tcp[key := tcp[key][a := item']], udp,
      tr.Place(item'.bufsIndex, [n] + tr.parts[item'.bufsIndex]), n + 1)
  {
    var item := tcp[key][a];
    var ks := tr.parts[item.bufsIndex];
    hide *;
    PartOlder(pkts, bufs, tcp, udp, tr, n, item.bufsIndex);
    TcpPrependGroup(pkts, tr.parts, bufs, item, n, item', bufs');
    TcpPrependBufs(pkts, tr.parts, bufs, item, n, item', bufs', tr.floor);
    TcpMerged(pkts, bufs, tcp, udp, tr, n, key, a, item', bufs', [n] + ks);
  }

  lemma TcpAppendBufs(pkts: Packets, parts: Parts, bufs: seq<Buf>, item: TcpItem, n: nat, item': TcpItem,
                      bufs': seq<Buf>, floor: nat)
    requires CanTake(pkts, parts, bufs, item, n, Append)
      && Appended(bufs, n, TcpOf(pkts[n]).value, item, item', bufs')
      && Untouched(pkts, bufs, n, floor)
    ensures item'.bufsIndex == item.bufsIndex < n < |pkts| && item.bufsIndex in parts
    ensures Untouched(pkts, bufs', n + 1, floor)
      && forall l :: 0 <= l < n && l != item.bufsIndex ==> bufs'[l] == bufs[l]
  {
    hide TcpMode, TcpGroup, Checks, TcpOf, AppendedTo;
  }

  lemma TcpAppendGroup(pkts: Packets, parts: Parts, bufs: seq<Buf>, item: TcpItem, n: nat, item': TcpItem,
                       bufs': seq<Buf>)
    requires CanTake(pkts, parts, bufs, item, n, Append)
      && Appended(bufs, n, TcpOf(pkts[n]).value, item, item', bufs')
    requires forall t :: 0 <= t < |parts[item.bufsIndex]| ==> parts[item.bufsIndex][t] < n
    ensures var ks := parts[item.bufsIndex];
      TcpGroup(pkts, ks + [n], item', bufs'[item.bufsIndex].pkt) && item'.gsoSize > 0 && item'.key == item.key
  {
    hide TcpMode, TcpGroup, Checks, TcpOf;
    var j, ks := item.bufsIndex, parts[item.bufsIndex];
    AppendMeans(pkts[n], TcpOf(pkts[n]).value, item, bufs[j].pkt);
    TcpVouched(pkts, ks, item, bufs[j].pkt, n);
    TcpAppended(pkts, ks, item, bufs[j].pkt, n, item', bufs'[j].pkt);
  }

  /** A successful merge at the back. */
  lemma TcpAppendDone(pkts: Packets, bufs: seq<Buf>, tcp: TcpFlows, udp: UdpFlows, tr: Trace, n: nat,
                      key: FlowKey, a: nat, item': TcpItem, bufs': seq<Buf>)
    requires State(pkts, bufs, tcp, udp, tr, n) && key in tcp && a < |tcp[key]| && tcp[key][a].key == key
    requires CanTake(pkts, tr.parts, bufs, tcp[key][a], n, Append)
      && Appended(bufs, n, TcpOf(pkts[n]).value, tcp[key][a], item', bufs')
    ensures State(pkts, bufs', tcp[key := tcp[key][a := item']], udp,
      tr.Place(item'.bufsIndex, tr.parts[item'.bufsIndex] + [n]), n + 1)
  {
    var item := tcp[key][a];
    var ks := tr.parts[item.bufsIndex];
    hide *;
    PartOlder(pkts, bufs, tcp, udp, tr, n, item.bufsIndex);
    TcpAppendGroup(pkts, tr.parts, bufs, item, n, item', bufs');
    TcpAppendBufs(pkts, tr.parts, bufs, item, n, item', bufs', tr.floor);
    TcpMerged(pkts, bufs, tcp, udp, tr, n, key, a, item', bufs', ks + [n]);
  }

  /** A successful merge, on either side. */
  lemma TcpJoinDone(mode: Mode, pkts: Packets, bufs: seq<Buf>, tcp: TcpFlows, udp: UdpFlows, tr: Trace, n: nat,
                    key: FlowKey, a: nat, item': TcpItem, bufs': seq<Buf>) returns (tr': Trace)
    requires State(pkts, bufs, tcp, udp, tr, n) && key in tcp && a < |tcp[key]| && tcp[key][a].key == key
      && TcpKept(pkts, tcp, tr.home)
    requires mode != Unavailable && CanTake(pkts, tr.parts, bufs, tcp[key][a], n, mode)
    requires mode == Prepend ==> Prepended(bufs, n, TcpOf(pkts[n]).value, tcp[key][a], item', bufs')
    requires mode == Append ==> Appended(bufs, n, TcpOf(pkts[n]).value, tcp[key][a], item', bufs')
    ensures State(pkts, bufs', tcp[key := tcp[key][a := item']], udp, tr', n + 1) && Merged(tr, tr')
    ensures TcpKept(pkts, tcp[key := tcp[key][a := item']], tr'.home) && item'.key == key
  {
    hide State, TcpMode, TcpGroup, Checks, ParseTcp, CandidateOf, TcpKept;
    var j := item'.bufsIndex;
    PacketKnown(pkts, bufs, tcp, udp, tr, n);
    KeptMerged(pkts, tcp, tr.home, key, a, item');
    if mode == Prepend {
      TcpPrependDone(pkts, bufs, tcp, udp, tr, n, key, a, item', bufs');
      tr' := tr.Place(j, [n] + tr.parts[j]);
    } else {
      TcpAppendDone(pkts, bufs, tcp, udp, tr, n, key, a, item', bufs');
      tr' := tr.Place(j, tr.parts[j] + [n]);
    }
  }

  /** An item dropped because its own checksum is wrong. */
  lemma TcpDropDone(pkts: Packets, bufs: seq<Buf>, tcp: TcpFlows, udp: UdpFlows, tr: Trace, n: nat,
                    key: FlowKey, a: nat)
    requires State(pkts, bufs, tcp, udp, tr, n) && TcpKept(pkts, tcp, tr.home) && key in tcp && a < |tcp[key]|
    requires tcp[key][a].numMerged == 0 && tcp[key][a].key == key && tcp[key][a].bufsIndex < n
      && tcp[key][a].bufsIndex < |bufs|
    requires var item := tcp[key][a]; var pkt := bufs[item.bufsIndex].pkt;
      item.iphLen == (if key.isV6 then 40 else 20) && item.iphLen <= |pkt| <= 0xffff
        && !Checks(pkt, item.iphLen, IPPROTO_TCP, key.isV6)
    ensures var j := tcp[key][a].bufsIndex;
      State(pkts, bufs[j := bufs[j].(vnet := Clear)], tcp[key := WithoutAt(tcp[key], a)], udp, tr, n)
    ensures TcpKept(pkts, tcp[key := WithoutAt(tcp[key], a)], tr.home)
  {
    hide State, Checks, TcpKept;
    TcpDeleted(pkts, bufs, tcp, udp, tr, n, key, a, tcp[key][a].bufsIndex);
    KeptDeleted(pkts, bufs, tcp, udp, tr, n, key, a);
  }

  lemma ItemKnown(pkts: Packets, bufs: seq<Buf>, tcp: TcpFlows, udp: UdpFlows, tr: Trace, n: nat,
                  key: FlowKey, a: nat)
    requires State(pkts, bufs, tcp, udp, tr, n) && key in tcp && a < |tcp[key]|
    ensures TcpItemOk(pkts, tr.parts, bufs, tcp[key][a]) && tcp[key][a].key == key && tcp[key][a].bufsIndex < n
      && tcp[key][a].gsoSize > 0
    ensures |bufs[tcp[key][a].bufsIndex].pkt| <= 0xffff
  {
    hide TcpGroup, UdpTableOk, Accounted;
    assert TcpItemOk(pkts, tr.parts, bufs, tcp[key][a]);
    assert forall l :: l in tr.parts ==> tr.OwnPart(l);
  }

  /** The item takes the packet: it follows or precedes what the item holds, fits, and both are sound. */
  ghost predicate TcpAccepts(bufs: seq<Buf>, pktI: nat, s: TcpSeg, item: TcpItem, offset: nat) {
    && pktI < |bufs| && item.bufsIndex < |bufs| && item.gsoSize > 0
    && Joinable(bufs[pktI].pkt, s, item, bufs[item.bufsIndex].pkt, s.key.isV6)
    && var mode := TcpMode(bufs[pktI].pkt, s, item, bufs[item.bufsIndex].pkt);
       mode != Unavailable
         && RoomAndSums(mode, bufs[pktI].pkt, s, item, bufs[item.bufsIndex].pkt, RoomFor(mode, bufs, pktI, item),
           offset)
  }

  /** Only virtio headers differ. */
  ghost predicate SamePackets(bufs: seq<Buf>, bufs': seq<Buf>) {
    |bufs'| == |bufs| && forall k :: 0 <= k < |bufs| ==> bufs'[k].pkt == bufs[k].pkt && bufs'[k].cap == bufs[k].cap
  }

  lemma SamePacketsSelf(a: seq<Buf>)
    ensures SamePackets(a, a)
  {
  }

  lemma SameChain(a: seq<Buf>, b: seq<Buf>, c: seq<Buf>)
    requires SamePackets(a, b) && SamePackets(b, c)
    ensures SamePackets(a, c) && |a| == |c|
  {
  }

  lemma AcceptsSame(bufs: seq<Buf>, bufs': seq<Buf>, pktI: nat, s: TcpSeg, item: TcpItem, offset: nat)
    requires SamePackets(bufs, bufs')
    ensures TcpAccepts(bufs, pktI, s, item, offset) == TcpAccepts(bufs', pktI, s, item, offset)
  {
    hide Checks, TcpMode;
  }

  /** A TCP packet that may be coalesced and whose checksum is right. */
  ghost predicate GoodTcp(pkt: seq<byte>) {
    TcpOf(pkt).Some? && var s := TcpOf(pkt).value; Checks(pkt, s.iphLen, IPPROTO_TCP, s.key.isV6)
  }

  /** Every good TCP packet so far is in a buffer that an item describes. */
  ghost predicate TcpKept(pkts: Packets, tcp: TcpFlows, home: seq<nat>) {
    |home| <= |pkts| && forall k: nat {:trigger home[k]} :: k < |home| && GoodTcp(pkts[k]) ==> TcpTracked(tcp, home[k])
  }

  lemma NotGood(pkt: seq<byte>)
    requires TcpOf(pkt) == None
    ensures !GoodTcp(pkt)
  {
  }

  /** No item takes a packet whose checksum is wrong. */
  lemma NoneAccept(bufs: seq<Buf>, pktI: nat, s: TcpSeg, items: seq<TcpItem>, offset: nat)
    requires pktI < |bufs| && TcpOf(bufs[pktI].pkt) == Some(s) && !GoodTcp(bufs[pktI].pkt)
    ensures forall a :: 0 <= a < |items| ==> !TcpAccepts(bufs, pktI, s, items[a], offset)
  {
    hide Checks, TcpMode, ParseTcp, CandidateOf;
  }

  lemma KeptSkips(pkts: Packets, tcp: TcpFlows, home: seq<nat>, j: nat)
    requires TcpKept(pkts, tcp, home) && |home| < |pkts| && !GoodTcp(pkts[|home|])
    ensures TcpKept(pkts, tcp, home + [j])
  {
    hide GoodTcp, TcpTracked;
  }

  lemma KeptInserted(pkts: Packets, tcp: TcpFlows, home: seq<nat>, item: TcpItem)
    requires TcpKept(pkts, tcp, home) && |home| < |pkts| && item.bufsIndex == |home|
    ensures TcpKept(pkts, WithItem(tcp, item), home + [|home|])
  {
    hide GoodTcp, TcpTracked;
    WithItemTracks(tcp, item);
  }

  lemma KeptMerged(pkts: Packets, tcp: TcpFlows, home: seq<nat>, key: FlowKey, a: nat, item: TcpItem)
    requires TcpKept(pkts, tcp, home) && |home| < |pkts| && key in tcp && a < |tcp[key]|
      && item.bufsIndex == tcp[key][a].bufsIndex
    ensures TcpKept(pkts, tcp[key := tcp[key][a := item]], home + [item.bufsIndex])
  {
    hide GoodTcp;
    var r: TcpFlows := tcp[key := tcp[key][a := item]];
    TcpIs(r, key, a);
    forall l | TcpTracked(tcp, l)
      ensures TcpTracked(r, l)
    {
      var k, b :| k in tcp && 0 <= b < |tcp[k]| && tcp[k][b].bufsIndex == l;
      assert r[k][b].bufsIndex == l;
    }
  }

  /** The one packet of an item that is dropped was not good. */
  lemma KeptDeleted(pkts: Packets, bufs: seq<Buf>, tcp: TcpFlows, udp: UdpFlows, tr: Trace, n: nat,
                    key: FlowKey, a: nat)
    requires State(pkts, bufs, tcp, udp, tr, n) && TcpKept(pkts, tcp, tr.home)
    requires key in tcp && a < |tcp[key]| && tcp[key][a].numMerged == 0 && tcp[key][a].key == key
      && tcp[key][a].bufsIndex < |bufs|
    requires var item := tcp[key][a]; var pkt := bufs[item.bufsIndex].pkt;
      item.iphLen == (if key.isV6 then 40 else 20) && item.iphLen <= |pkt| <= 0xffff
        && !Checks(pkt, item.iphLen, IPPROTO_TCP, key.isV6)
    ensures TcpKept(pkts, tcp[key := WithoutAt(tcp[key], a)], tr.home)
  {
    hide TcpTracked, UdpTableOk, Accounted, Checks, Joined, AllCheck, ParseTcp, CandidateOf;
    var item, j := tcp[key][a], tcp[key][a].bufsIndex;
    assert TcpItemOk(pkts, tr.parts, bufs, item);
    TcpItemFlow(pkts, tr.parts, bufs, item);
    DropTracks(tcp, key, a);
    forall k: nat | k < |tr.home| && GoodTcp(pkts[k])
      ensures tr.home[k] != j
    {
      assert tr.HasHome(k);
    }
  }

  lemma DropTracks(m: TcpFlows, key: FlowKey, a: nat)
    requires key in m && a < |m[key]|
    ensures forall l :: TcpTracked(m, l) && l != m[key][a].bufsIndex ==> TcpTracked(m[key := WithoutAt(m[key], a)], l)
  {
    var r: TcpFlows := m[key := WithoutAt(m[key], a)];
    forall l | TcpTracked(m, l) && l != m[key][a].bufsIndex
      ensures TcpTracked(r, l)
    {
      var k, b :| k in m && 0 <= b < |m[k]| && m[k][b].bufsIndex == l;
      assert r[k][if k == key && b > a then b - 1 else b] == m[k][b];
    }
  }

  /** Lines 600-620: one item of the flow is tried. */
  method TryItem(little: bool, bufs: seq<Buf>, offset: nat, pktI: nat, s: TcpSeg, table: TcpTable, i: nat, isV6: bool,
                 ghost pkts: Packets, ghost udp: UdpFlows, ghost tr: Trace)
    returns (done: Option<GroResult>, bufs': seq<Buf>, ghost tr': Trace)
    requires State(pkts, bufs, table.itemsByFlow, udp, tr, pktI) && pktI < |bufs| == |pkts|
      && TcpOf(pkts[pktI]) == Some(s) && s.key.isV6 == isV6
    requires s.key in table.itemsByFlow && i < |table.itemsByFlow[s.key]| && TcpKept(pkts, table.itemsByFlow, tr.home)
    modifies table`itemsByFlow
    ensures |table.itemsByFlow| == old(|table.itemsByFlow|)
    ensures done == None ==> s.key in table.itemsByFlow && i <= |table.itemsByFlow[s.key]|
    ensures done == None ==> table.itemsByFlow[s.key][..i] == old(table.itemsByFlow[s.key])[..i]
    ensures done in {None, Some(Noop), Some(Coalesced)} && TcpKept(pkts, table.itemsByFlow, tr'.home)
    ensures done == Some(Coalesced) <==> TcpAccepts(bufs, pktI, s, old(table.itemsByFlow[s.key][i]), offset)
    ensures done == Some(Noop) ==> !GoodTcp(pkts[pktI])
    ensures done != Some(Coalesced) ==>
      State(pkts, bufs', table.itemsByFlow, udp, tr', pktI) && tr' == tr && SamePackets(bufs, bufs')
    ensures done == Some(Coalesced) ==> State(pkts, bufs', table.itemsByFlow, udp, tr', pktI + 1) && Merged(tr, tr')
  {
    hide State, TcpMode, Checks, ParseTcp, CandidateOf, TcpKept, TcpItemOk, RoomAndSums, Prepended, Appended, CanTake,
      Merged;
    var item := table.itemsByFlow[s.key][i];
    done, bufs', tr' := None, bufs, tr;
    PacketKnown(pkts, bufs, table.itemsByFlow, udp, tr, pktI);
    ItemKnown(pkts, bufs, table.itemsByFlow, udp, tr, pktI, s.key, i);
    TcpReady(pkts, tr.parts, bufs, item, pktI);
    var mode := TcpMode(bufs[pktI].pkt, s, item, bufs[item.bufsIndex].pkt);
    if mode == Unavailable {
      return;
    }
    ModeMeans(bufs[pktI].pkt, s, item, bufs[item.bufsIndex].pkt);
    var res, item';
    res, item', bufs' := CoalesceTcp(little, mode, pktI, s, item, bufs, offset, isV6);
    if res == Success {
      TakesWhen(pkts, tr.parts, bufs, item, pktI, s, mode, RoomFor(mode, bufs, pktI, item), offset);
      tr' := TcpJoinDone(mode, pkts, bufs, table.itemsByFlow, udp, tr, pktI, s.key, i, item', bufs');
      table.UpdateAt(item', i);
      done := Some(Coalesced);
    } else if res == ItemInvalidCSum {
      TcpDropDone(pkts, bufs, table.itemsByFlow, udp, tr, pktI, s.key, i);
      table.DeleteAt(s.key, i);
      bufs' := bufs'[item.bufsIndex := bufs'[item.bufsIndex].(vnet := Clear)];
    } else if res == PktInvalidCSum {
      done := Some(Noop);
    }
  }

  /** The next packet has gone into a buffer that was there before. */
  ghost predicate Merged(tr: Trace, tr': Trace) {
    exists j, ks :: j in tr.parts && tr' == tr.Place(j, ks)
  }

  lemma ModeMeans(pkt: seq<byte>, s: TcpSeg, item: TcpItem, target: seq<byte>)
    requires s.HeadersLen() <= |pkt| && item.HeadersLen() <= |target| && s.iphLen == item.iphLen && item.gsoSize > 0
      && s.tcphLen >= 20
    requires TcpMode(pkt, s, item, target) != Unavailable
    ensures s.tcphLen == item.tcphLen
  {
  }

  /** Where packet `n` went: into a buffer of its own, if it is to be written, or into one that already is. */
  ghost predicate Outcome(result: GroResult, tr: Trace, tr': Trace, n: nat) {
    match result
    case Noop => tr' == tr
    case TableInsert => tr' == tr.Place(n, [n])
    case Coalesced => Merged(tr, tr')
  }

  function After(result: GroResult, n: nat): nat {
    if result == Noop then n else n + 1
  }

  /** Some item of the packet's flow takes it. */
  ghost predicate TcpJoins(bufs: seq<Buf>, pktI: nat, tcp: TcpFlows, offset: nat)
    requires pktI < |bufs|
  {
    TcpOf(bufs[pktI].pkt).Some? && var s := TcpOf(bufs[pktI].pkt).value;
    s.key in tcp && exists a :: 0 <= a < |tcp[s.key]| && TcpAccepts(bufs, pktI, s, tcp[s.key][a], offset)
  }

  /** Lines 531-625. */
  method TcpGro(little: bool, bufs: seq<Buf>, offset: nat, pktI: nat, table: TcpTable, isV6: bool,
                ghost pkts: Packets, ghost udp: UdpFlows, ghost tr: Trace)
    returns (result: GroResult, bufs': seq<Buf>, ghost tr': Trace)
    requires State(pkts, bufs, table.itemsByFlow, udp, tr, pktI) && pktI < |bufs| == |pkts| && table.itemsPool > 0
    requires CandidateOf(bufs[pktI].pkt, false) == (if isV6 then Tcp6 else Tcp4)
      && TcpKept(pkts, table.itemsByFlow, tr.home)
    modifies table
    ensures TcpKept(pkts, table.itemsByFlow, if result == Noop then tr'.home + [pktI] else tr'.home)
    ensures result == Coalesced <==> TcpJoins(bufs, pktI, old(table.itemsByFlow), offset)
    ensures table.itemsPool >= old(table.itemsPool) - 1
      && table.itemsPool + |table.itemsByFlow| == old(table.itemsPool + |table.itemsByFlow|)
    ensures State(pkts, bufs', table.itemsByFlow, udp, tr', After(result, pktI)) && Outcome(result, tr, tr', pktI)
  {
    hide State, ParseTcp, CandidateOf, TcpKept, GoodTcp, TcpAccepts, Merged, SamePackets;
    var pkt := bufs[pktI].pkt;
    bufs', tr' := bufs, tr;
    PacketKnown(pkts, bufs, table.itemsByFlow, udp, tr, pktI);
    var parsed := ParseTcp(pkt, isV6);
    assert TcpOf(pkts[pktI]) == parsed;
    if parsed == None {
      NotGood(pkts[pktI]);
      KeptSkips(pkts, table.itemsByFlow, tr.home, pktI);
      return Noop, bufs', tr';
    }
    var s := parsed.value;
    if s.key !in table.itemsByFlow {
      TcpInserted(pkts, bufs, table.itemsByFlow, udp, tr, pktI);
      KeptInserted(pkts, table.itemsByFlow, tr.home, ItemFor(s, pktI));
      table.Insert(ItemFor(s, pktI));
      return TableInsert, bufs', tr.Place(pktI, [pktI]);
    }
    ghost var items := table.itemsByFlow[s.key];
    assert SamePackets(bufs, bufs) by { SamePacketsSelf(bufs); }
    var i := |table.itemsByFlow[s.key]|;
    while i > 0
      invariant State(pkts, bufs', table.itemsByFlow, udp, tr, pktI) && tr' == tr && SamePackets(bufs, bufs')
      invariant s.key in table.itemsByFlow && 0 <= i <= |table.itemsByFlow[s.key]| && i <= |items|
        && table.itemsByFlow[s.key][..i] == items[..i]
      invariant TcpKept(pkts, table.itemsByFlow, tr.home)
        && forall a :: i <= a < |items| ==> !TcpAccepts(bufs, pktI, s, items[a], offset)
      invariant table.itemsPool == old(table.itemsPool) && |table.itemsByFlow| == old(|table.itemsByFlow|)
    {
      i := i - 1;
      PacketKnown(pkts, bufs', table.itemsByFlow, udp, tr, pktI);
      assert table.itemsByFlow[s.key][i] == table.itemsByFlow[s.key][..i + 1][i] == items[i];
      AcceptsSame(bufs, bufs', pktI, s, items[i], offset);
      var done;
      ghost var before := bufs';
      done, bufs', tr' := TryItem(little, bufs', offset, pktI, s, table, i, isV6, pkts, udp, tr);
      if done != Some(Coalesced) {
        SameChain(bufs, before, bufs');
      }
      if done == Some(Noop) {
        NoneAccept(bufs, pktI, s, items, offset);
        KeptSkips(pkts, table.itemsByFlow, tr.home, pktI);
      }
      if done.Some? {
        return done.value, bufs', tr';
      }
    }
    TcpInserted(pkts, bufs', table.itemsByFlow, udp, tr, pktI);
    KeptInserted(pkts, table.itemsByFlow, tr.home, ItemFor(s, pktI));
    table.Insert(ItemFor(s, pktI));
    return TableInsert, bufs', tr.Place(pktI, [pktI]);
  }

  lemma PacketKnown(pkts: Packets, bufs: seq<Buf>, tcp: TcpFlows, udp: UdpFlows, tr: Trace, n: nat)
    requires State(pkts, bufs, tcp, udp, tr, n) && n < |pkts|
    ensures |bufs| == |pkts| && bufs[n].pkt == pkts[n] && |bufs[n].pkt| <= bufs[n].cap <= 0xffff && |tr.home| == n
  {
    hide TcpTableOk, UdpTableOk, Accounted;
  }

  lemma UdpItemKnown(pkts: Packets, bufs: seq<Buf>, tcp: TcpFlows, udp: UdpFlows, tr: Trace, n: nat,
                     key: FlowKey, a: nat)
    requires State(pkts, bufs, tcp, udp, tr, n) && key in udp && a < |udp[key]|
    ensures UdpItemOk(pkts, tr.parts, bufs, udp[key][a]) && udp[key][a].key == key && udp[key][a].bufsIndex < n
    ensures |bufs[udp[key][a].bufsIndex].pkt| <= 0xffff
    ensures forall k :: k in tr.parts[udp[key][a].bufsIndex] ==> k < n
  {
    hide UdpGroup, TcpTableOk, Accounted;
    assert UdpItemOk(pkts, tr.parts, bufs, udp[key][a]);
    assert forall l :: l in tr.parts ==> tr.OwnPart(l);
  }

  /** There is room for the joined packet, and the checksums of both packets are right. */
  ghost predicate UdpRoomAndSums(pkt: seq<byte>, item: UdpItem, target: Buf, offset: nat, isV6: bool)
    requires item.iphLen == (if isV6 then 40 else 20) && item.HeadersLen() <= |target.pkt| <= 0xffff
      && item.HeadersLen() <= |pkt| <= 0xffff
  {
    && |target.pkt| + |pkt| - item.HeadersLen() + offset <= target.cap
    && Checks(pkt, item.iphLen, IPPROTO_UDP, isV6)
    && (item.numMerged == 0 ==> !item.cSumKnownInvalid && Checks(target.pkt, item.iphLen, IPPROTO_UDP, isV6))
  }

  /** Lines 414-438. */
  method CoalesceUdp(little: bool, pkt: seq<byte>, item: UdpItem, target: Buf, offset: nat, isV6: bool)
    returns (res: CoalesceResult, target': Buf)
    requires item.iphLen == (if isV6 then 40 else 20) && item.HeadersLen() <= |target.pkt| <= 0xffff
      && item.HeadersLen() <= |pkt| <= 0xffff
    ensures res == Success <==> UdpRoomAndSums(pkt, item, target, offset, isV6)
    ensures res == PktInvalidCSum ==> !Checks(pkt, item.iphLen, IPPROTO_UDP, isV6)
    ensures target' == if res == Success then target.(pkt := target.pkt + pkt[item.HeadersLen()..]) else target
  {
    target' := target;
    var coalescedLen := |target.pkt| + |pkt| - item.HeadersLen();
    if target.cap < coalescedLen + offset {
      return InsufficientCap, target';
    }
    if item.numMerged == 0 {
      if item.cSumKnownInvalid {
        return ItemInvalidCSum, target';
      }
      var valid := ChecksumValid(little, target.pkt, item.iphLen, IPPROTO_UDP, isV6);
      if !valid {
        return ItemInvalidCSum, target';
      }
    }
    var valid := ChecksumValid(little, pkt, item.iphLen, IPPROTO_UDP, isV6);
    if !valid {
      return PktInvalidCSum, target';
    }
    target' := target.(pkt := target.pkt + pkt[item.HeadersLen()..]);
    return Success, target';
  }

  lemma UdpReady(pkts: Packets, parts: Parts, bufs: seq<Buf>, item: UdpItem, n: nat)
    requires UdpItemOk(pkts, parts, bufs, item) && n < |pkts| && UdpOf(pkts[n]).Some?
      && UdpOf(pkts[n]).value.key == item.key
    ensures item.HeadersLen() <= |bufs[item.bufsIndex].pkt|
    ensures item.iphLen == UdpOf(pkts[n]).value.iphLen == (if item.key.isV6 then 40 else 20) && InUdpFlow(pkts, n, item)
  {
    hide ParseUdp, CandidateOf, Joined, AllCheck;
    assert InUdpFlow(pkts, parts[item.bufsIndex][0], item);
  }

  lemma UdpVouched(pkts: Packets, ks: seq<nat>, item: UdpItem, pkt: seq<byte>, k: nat)
    requires UdpGroup(pkts, ks, item, pkt) && InUdpFlow(pkts, k, item) && |pkt| <= 0xffff
    requires Checks(pkts[k], item.iphLen, IPPROTO_UDP, item.key.isV6)
    requires item.numMerged == 0 ==> Checks(pkt, item.iphLen, IPPROTO_UDP, item.key.isV6)
    ensures Vouched(pkts, ks, k, item.iphLen, IPPROTO_UDP, item.key.isV6)
  {
    hide Checks, Joined, ParseUdp, CandidateOf;
    assert [k][0] == k;
    assert AllCheck(pkts, [k], item.iphLen, IPPROTO_UDP, item.key.isV6);
    if item.numMerged == 0 {
      assert InUdpFlow(pkts, ks[0], item);
      assert AllCheck(pkts, ks, item.iphLen, IPPROTO_UDP, item.key.isV6);
    }
  }

  lemma UdpAppendDone(pkts: Packets, bufs: seq<Buf>, tcp: TcpFlows, udp: UdpFlows, tr: Trace, n: nat,
                      key: FlowKey, a: nat, item': UdpItem, bufs': seq<Buf>)
    requires State(pkts, bufs, tcp, udp, tr, n) && n < |pkts| && key in udp && a < |udp[key]|
    requires UdpItemOk(pkts, tr.parts, bufs, udp[key][a]) && udp[key][a].key == key && udp[key][a].bufsIndex < n
    requires forall k :: k in tr.parts[udp[key][a].bufsIndex] ==> k < n
    requires InUdpFlow(pkts, n, udp[key][a]) && Checks(pkts[n], udp[key][a].iphLen, IPPROTO_UDP, key.isV6)
    requires |bufs[udp[key][a].bufsIndex].pkt| <= 0xffff
    requires var item := udp[key][a]; var j, h := item.bufsIndex, item.HeadersLen();
             && h <= |bufs[j].pkt| && h <= |pkts[n]|
             && (item.numMerged == 0 ==> Checks(bufs[j].pkt, item.iphLen, IPPROTO_UDP, key.isV6))
             && UdpMode(pkts[n], UdpOf(pkts[n]).value, item, bufs[j].pkt) == Append
             && item' == item.(numMerged := item.numMerged + 1)
             && bufs' == bufs[j := bufs[j].(pkt := bufs[j].pkt + pkts[n][h..])] && |bufs'[j].pkt| <= bufs[j].cap
    ensures State(pkts, bufs', tcp, udp[key := udp[key][a := item']],
      tr.Place(item'.bufsIndex, tr.parts[item'.bufsIndex] + [n]), n + 1)
  {
    hide UdpMode, UdpGroup, Checks, ParseUdp, CandidateOf, TcpTableOk, UdpTableOk, TcpTracked, UdpTracked;
    var item := udp[key][a];
    var j, ks := item.bufsIndex, tr.parts[item.bufsIndex];
    UdpVouched(pkts, ks, item, bufs[j].pkt, n);
    assert forall t :: 0 <= t < |ks| ==> ks[t] in ks;
    UdpAppended(pkts, ks, item, bufs[j].pkt, n, item', bufs'[j].pkt);
    UdpMerged(pkts, bufs, tcp, udp, tr, n, key, a, item', bufs', ks + [n]);
  }

  ghost predicate SameUdpFlow(pkts: Packets, x: nat, y: nat)
    requires x < |pkts| && y < |pkts|
  {
    UdpOf(pkts[x]).Some? && UdpOf(pkts[y]).Some? && UdpOf(pkts[x]).value.key == UdpOf(pkts[y]).value.key
  }

  /** No UDP packet is past the last item of its flow. */
  ghost predicate NotPastLast(pkts: Packets, udp: UdpFlows, home: seq<nat>, x: nat)
    requires x < |home| <= |pkts|
  {
    UdpOf(pkts[x]).Some? ==>
      var key := UdpOf(pkts[x]).value.key;
      key in udp && udp[key] != [] && home[x] <= udp[key][|udp[key]| - 1].bufsIndex
  }

  /** The UDP packets of a flow go into buffers in the order they came in. */
  ghost predicate InOrder(pkts: Packets, udp: UdpFlows, home: seq<nat>)
    requires |home| <= |pkts|
  {
    && (forall x: nat {:trigger NotPastLast(pkts, udp, home, x)} :: x < |home| ==> NotPastLast(pkts, udp, home, x))
    && (forall x: nat, y: nat {:trigger SameUdpFlow(pkts, x, y)} ::
          x < y < |home| && SameUdpFlow(pkts, x, y) ==> home[x] <= home[y])
  }

  /** A packet that is not UDP does not change the order. */
  lemma OrderSkips(pkts: Packets, udp: UdpFlows, home: seq<nat>, j: nat)
    requires |home| < |pkts| && InOrder(pkts, udp, home) && UdpOf(pkts[|home|]).None?
    ensures InOrder(pkts, udp, home + [j])
  {
    hide UdpOf;
    var home' := home + [j];
    forall x: nat | x < |home'|
      ensures NotPastLast(pkts, udp, home', x)
    {
      assert x < |home| ==> NotPastLast(pkts, udp, home, x);
    }
  }

  /** A UDP packet goes to the last item of its flow, which may be new. */
  lemma OrderGrows(pkts: Packets, udp: UdpFlows, home: seq<nat>, udp': UdpFlows, j: nat)
    requires |home| < |pkts| && InOrder(pkts, udp, home) && UdpOf(pkts[|home|]).Some?
    requires var key := UdpOf(pkts[|home|]).value.key;
             && key in udp' && udp'[key] != [] && udp'[key][|udp'[key]| - 1].bufsIndex == j
             && (key in udp && udp[key] != [] ==> udp[key][|udp[key]| - 1].bufsIndex <= j)
             && forall k :: k in udp && k != key ==> k in udp' && udp'[k] == udp[k]
    ensures InOrder(pkts, udp', home + [j])
  {
    hide UdpOf;
    var home' := home + [j];
    forall x: nat | x < |home'|
      ensures NotPastLast(pkts, udp', home', x)
    {
      assert x < |home| ==> NotPastLast(pkts, udp, home, x);
    }
    forall x: nat, y: nat | x < y < |home'| && SameUdpFlow(pkts, x, y)
      ensures home'[x] <= home'[y]
    {
      assert NotPastLast(pkts, udp, home, x);
      assert y < |home| ==> SameUdpFlow(pkts, x, y) && home[x] <= home[y];
    }
  }

  /** The item takes the packet. */
  ghost predicate UdpAccepts(bufs: seq<Buf>, pktI: nat, s: UdpSeg, item: UdpItem, offset: nat) {
    && pktI < |bufs| && item.bufsIndex < |bufs| && item.gsoSize > 0
      && item.iphLen == s.iphLen == (if s.key.isV6 then 40 else 20)
    && item.HeadersLen() <= |bufs[item.bufsIndex].pkt| <= 0xffff && item.HeadersLen() <= |bufs[pktI].pkt| <= 0xffff
    && UdpMode(bufs[pktI].pkt, s, item, bufs[item.bufsIndex].pkt) == Append
    && UdpRoomAndSums(bufs[pktI].pkt, item, bufs[item.bufsIndex], offset, s.key.isV6)
  }

  /** The last item of the packet's flow takes it. */
  ghost predicate UdpJoins(bufs: seq<Buf>, pktI: nat, udp: UdpFlows, offset: nat)
    requires pktI < |bufs|
  {
    UdpOf(bufs[pktI].pkt).Some? && var s := UdpOf(bufs[pktI].pkt).value;
    s.key in udp && udp[s.key] != [] && UdpAccepts(bufs, pktI, s, udp[s.key][|udp[s.key]| - 1], offset)
  }

  /** Lines 828-850: only the last item of the flow is tried. */
  method TryLast(little: bool, bufs: seq<Buf>, offset: nat, pktI: nat, s: UdpSeg, table: UdpTable, isV6: bool,
                 ghost pkts: Packets, ghost tcp: TcpFlows, ghost tr: Trace)
    returns (merged: bool, invalid: bool, bufs': seq<Buf>, ghost tr': Trace)
    requires State(pkts, bufs, tcp, table.itemsByFlow, tr, pktI) && pktI < |bufs| == |pkts|
    requires |tr.home| == pktI && InOrder(pkts, table.itemsByFlow, tr.home)
    requires UdpOf(pkts[pktI]) == Some(s) && s.key in table.itemsByFlow && s.key.isV6 == isV6
    modifies table`itemsByFlow
    ensures |table.itemsByFlow| == old(|table.itemsByFlow|)
    ensures merged <==> UdpJoins(bufs, pktI, old(table.itemsByFlow), offset)
    ensures !merged ==> bufs' == bufs && tr' == tr && table.itemsByFlow == old(table.itemsByFlow)
    ensures merged ==> State(pkts, bufs', tcp, table.itemsByFlow, tr', pktI + 1) && Merged(tr, tr')
    ensures merged ==> |tr'.home| <= |pkts| && InOrder(pkts, table.itemsByFlow, tr'.home)
    ensures invalid ==> !GoodUdp(pkts[pktI])
  {
    hide State, ParseUdp, CandidateOf, InOrder, Checks, UdpMode, UdpGroup;
    bufs', tr', merged, invalid := bufs, tr, false, false;
    ghost var udp := table.itemsByFlow;
    PacketKnown(pkts, bufs, tcp, udp, tr, pktI);
    UdpListed(pkts, bufs, tcp, udp, tr, pktI, s.key);
    var last := |table.itemsByFlow[s.key]| - 1;
    var item := table.itemsByFlow[s.key][last];
    var j := item.bufsIndex;
    UdpItemKnown(pkts, bufs, tcp, udp, tr, pktI, s.key, last);
    UdpReady(pkts, tr.parts, bufs, item, pktI);
    if UdpMode(bufs[pktI].pkt, s, item, bufs[j].pkt) == Append {
      var res, target := CoalesceUdp(little, bufs[pktI].pkt, item, bufs[j], offset, isV6);
      if res == Success {
        merged, item, bufs' := true, item.(numMerged := item.numMerged + 1), bufs[j := target];
        UdpAppendDone(pkts, bufs, tcp, udp, tr, pktI, s.key, last, item, bufs');
        table.UpdateAt(item, last);
        tr' := tr.Place(j, tr.parts[j] + [pktI]);
        OrderGrows(pkts, udp, tr.home, table.itemsByFlow, j);
      }
      invalid := res == PktInvalidCSum;
    }
  }

  /** Lines 782-854. */
  method UdpGro(little: bool, bufs: seq<Buf>, offset: nat, pktI: nat, table: UdpTable, isV6: bool,
                ghost pkts: Packets, ghost tcp: TcpFlows, ghost tr: Trace)
    returns (result: GroResult, bufs': seq<Buf>, ghost tr': Trace)
    requires State(pkts, bufs, tcp, table.itemsByFlow, tr, pktI) && pktI < |bufs| == |pkts| && table.itemsPool > 0
    requires |tr.home| == pktI && InOrder(pkts, table.itemsByFlow, tr.home)
    requires CandidateOf(bufs[pktI].pkt, true) == if isV6 then Udp6 else Udp4
    modifies table
    ensures table.itemsPool >= old(table.itemsPool) - 1
      && table.itemsPool + |table.itemsByFlow| == old(table.itemsPool + |table.itemsByFlow|)
    ensures State(pkts, bufs', tcp, table.itemsByFlow, tr', After(result, pktI)) && Outcome(result, tr, tr', pktI)
    ensures result == Coalesced <==> UdpJoins(bufs, pktI, old(table.itemsByFlow), offset)
    ensures result == Noop ==> UdpOf(pkts[pktI]).None?
    ensures |tr'.home| <= |pkts| && InOrder(pkts, table.itemsByFlow, tr'.home)
  {
    hide State, ParseUdp, CandidateOf, InOrder, UdpOf, UdpAccepts, Merged;
    bufs', tr' := bufs, tr;
    PacketKnown(pkts, bufs, tcp, table.itemsByFlow, tr, pktI);
    var parsed := ParseUdp(bufs[pktI].pkt, isV6);
    UdpParsed(pkts[pktI], isV6);
    if parsed == None {
      return Noop, bufs', tr';
    }
    var s, invalid := parsed.value, false;
    if s.key in table.itemsByFlow {
      var merged;
      merged, invalid, bufs', tr' := TryLast(little, bufs, offset, pktI, s, table, isV6, pkts, tcp, tr);
      if merged {
        return Coalesced, bufs', tr';
      }
    }
    ghost var udp := table.itemsByFlow;
    UdpInserted(pkts, bufs, tcp, udp, tr, pktI, invalid);
    LastIndex(pkts, bufs, tcp, udp, tr, pktI, s.key);
    table.Insert(UdpItemFor(s, pktI, invalid));
    tr' := tr.Place(pktI, [pktI]);
    OrderGrows(pkts, udp, tr.home, table.itemsByFlow, pktI);
    return TableInsert, bufs', tr';
  }

  lemma UdpParsed(pkt: seq<byte>, isV6: bool)
    requires CandidateOf(pkt, true) == if isV6 then Udp6 else Udp4
    ensures UdpOf(pkt) == ParseUdp(pkt, isV6) && (UdpOf(pkt).Some? ==> UdpOf(pkt).value.key.isV6 == isV6)
  {
    hide ParseUdp, CandidateOf;
  }

  lemma LastIndex(pkts: Packets, bufs: seq<Buf>, tcp: TcpFlows, udp: UdpFlows, tr: Trace, n: nat, key: FlowKey)
    requires State(pkts, bufs, tcp, udp, tr, n)
    ensures key in udp && udp[key] != [] ==> udp[key][|udp[key]| - 1].bufsIndex < n
  {
    hide State, UdpItemOk;
    if key in udp && udp[key] != [] {
      UdpItemKnown(pkts, bufs, tcp, udp, tr, n, key, |udp[key]| - 1);
    }
  }

  lemma UdpListed(pkts: Packets, bufs: seq<Buf>, tcp: TcpFlows, udp: UdpFlows, tr: Trace, n: nat, key: FlowKey)
    requires State(pkts, bufs, tcp, udp, tr, n) && key in udp
    ensures udp[key] != []
  {
    hide UdpItemOk, TcpTableOk, Accounted;
  }
}
