/** Whole batches of one flow are written as one packet: wireguard-go/tun/offload_linux.go, lines 861-888. */
module GroBatches {
  import opened Checksum
  import opened Gro
  import opened GroOutput
  import opened GroRegular
  import opened GroTables
  import opened HandleGro
  import opened Options
  import opened Sequences
  import opened Words

  /** Everything before packet `n` has gone into the first buffer. */
  ghost predicate OneBuffer(tr: Trace, n: nat) {
    |tr.home| == n && forall k :: 0 <= k < n ==> tr.home[k] == 0
  }

  /** Then there is no other buffer, and it holds all of them. */
  lemma OnlyBuffer(tr: Trace, n: nat)
    requires tr.Partition() && OneBuffer(tr, n) && n > 0
    ensures tr.parts.Keys == {0} && tr.parts[0] != []
    ensures forall k :: k in tr.parts[0] <==> 0 <= k < n
  {
    assert tr.HasHome(0) && tr.OwnPart(0);
    forall k | 0 <= k < n
      ensures k in tr.parts[0]
    {
      assert tr.HasHome(k);
    }
    forall j | j in tr.parts
      ensures j == 0
    {
      assert tr.OwnPart(j) && tr.parts[j][0] in tr.parts[j];
    }
  }

  /** While there is only the first buffer, it takes packet `i`. */
  ghost predicate Takes(hist: seq<Snapshot>, i: nat, offset: nat, canUdp: bool)
    requires i < |hist|
  {
    var x := hist[i];
    i < |x.bufs| && OneBuffer(x.tr, i) && x.tr.floor == hist[0].tr.floor ==> Joins(x, i, offset, canUdp)
  }

  lemma RunStep(pkts: Packets, hist: seq<Snapshot>, offset: nat, canUdp: bool, i: nat)
    requires Run(pkts, hist, offset, canUdp) && i + 1 < |hist|
    ensures Held(pkts, hist[i], i, canUdp) && i < |hist[i].bufs|
    ensures Goes(hist[i].tr, hist[i + 1].tr, i, Joins(hist[i], i, offset, canUdp))
  {
    hide Held, Goes, Joins;
    assert Follows(hist, i, offset, canUdp);
  }

  /** If the first buffer takes every packet after the first, it is the only one. */
  lemma {:induction false} AllInOne(pkts: Packets, hist: seq<Snapshot>, offset: nat, canUdp: bool, n: nat)
    requires Run(pkts, hist, offset, canUdp) && 0 < n < |hist| && hist[0].tr.parts == map[]
    requires forall i :: 0 < i < n ==> Takes(hist, i, offset, canUdp)
    ensures OneBuffer(hist[n].tr, n) && hist[n].tr.floor == hist[0].tr.floor
  {
    hide Joins, Run, Held;
    RunStep(pkts, hist, offset, canUdp, n - 1);
    if n > 1 {
      AllInOne(pkts, hist, offset, canUdp, n - 1);
      assert Takes(hist, n - 1, offset, canUdp);
      HeldPartition(pkts, hist[n - 1], n - 1, canUdp);
      OnlyBuffer(hist[n - 1].tr, n - 1);
    }
  }

  lemma HeldPartition(pkts: Packets, x: Snapshot, n: nat, canUdp: bool)
    requires Held(pkts, x, n, canUdp)
    ensures x.tr.Partition() && |x.tr.home| == n <= |pkts| == |x.bufs|
    ensures forall k :: 0 <= k < |x.bufs| ==> |x.bufs[k].pkt| <= x.bufs[k].cap <= 0xffff && x.tr.floor <= x.bufs[k].cap
  {
    hide TcpTableOk, UdpTableOk, Accounted, InOrder, TcpKept;
  }

  /** The one buffer is what is written. */
  lemma WrittenOnce(tr: Trace, toWrite: seq<nat>, n: nat)
    requires tr.Partition() && OneBuffer(tr, n) && n > 0 && Listed(toWrite, tr)
    ensures toWrite == [0]
  {
    OnlyBuffer(tr, n);
    assert 0 in toWrite;
    assert forall i :: 0 <= i < |toWrite| ==> toWrite[i] in toWrite;
    if |toWrite| > 1 {
      LaterPositive(toWrite);
    }
  }

  lemma LaterPositive(s: seq<nat>)
    requires Increasing(s) && |s| > 1
    ensures s[1] > 0
  {
    assert s[0] < s[1];
  }

  /** The segments follow one another, of one size but for a shorter last, with PSH at most in the last. */
  predicate InRow(segs: seq<TcpSeg>) {
    && segs != [] && (forall i :: 0 <= i < |segs| ==> segs[i].seqNo < TWO32 && segs[i].gsoSize > 0)
    && (forall i :: 0 < i < |segs| ==> segs[i].seqNo == (segs[i - 1].seqNo + segs[i - 1].gsoSize) % TWO32)
    && (forall i :: 0 <= i < |segs| - 1 ==> segs[i].gsoSize == segs[0].gsoSize && !segs[i].pshSet)
    && segs[|segs| - 1].gsoSize <= segs[0].gsoSize
  }

  /** How long the packet is that they make. */
  function Length(segs: seq<TcpSeg>): nat
    requires segs != []
  {
    segs[0].HeadersLen() + segs[0].gsoSize * (|segs| - 1) + segs[|segs| - 1].gsoSize
  }

  /** TCP packets of one flow, sound and alike, in a row. */
  ghost predicate RegularTcp(pkts: Packets, segs: seq<TcpSeg>) {
    && |segs| == |pkts| && InRow(segs)
    && forall i :: 0 <= i < |pkts| ==>
      TcpOf(pkts[i]) == Some(segs[i]) && GoodTcp(pkts[i]) && TcpMatch(pkts[0], pkts[i])
  }

  /** Where packet `i` starts. */
  lemma {:induction false} StartsAt(segs: seq<TcpSeg>, i: nat)
    requires InRow(segs) && i < |segs|
    ensures segs[i].seqNo == (segs[0].seqNo + segs[0].gsoSize * i) % TWO32
  {
    var s, g := segs[0].seqNo, segs[0].gsoSize;
    if i == 0 {
      ModSmall(s, TWO32);
    } else {
      StartsAt(segs, i - 1);
      ModAdd(s + g * (i - 1), g);
      assert s + g * (i - 1) + g == s + g * i;
    }
  }

  /** Small numbers do not meet modulo 2^32. */
  lemma Apart(s: nat, u: nat, v: nat)
    requires u < 0x10_0000 && v < 0x10_0000 && (s + u) % TWO32 == (s + v) % TWO32
    ensures u == v
  {
    var q := (s + u) / TWO32 - (s + v) / TWO32;
    assert u - v == TWO32 * q;
  }

  lemma Cancel(g: nat, x: nat, y: nat)
    requires g > 0 && g * x == g * y
    ensures x == y
  {
    assert g * (x - y) == 0;
  }

  /** The first buffer, when it holds all there was. */
  lemma InBuffer(pkts: Packets, x: Snapshot, n: nat, canUdp: bool) returns (item: TcpItem)
    requires Held(pkts, x, n, canUdp) && 0 < n < |pkts| && OneBuffer(x.tr, n) && GoodTcp(pkts[0])
    ensures 0 in x.tr.parts && |x.bufs| == |pkts| && TcpGroup(pkts, x.tr.parts[0], item, x.bufs[0].pkt)
    ensures item.gsoSize > 0 && |x.bufs[0].pkt| <= 0xffff
    ensures NoDup(x.tr.parts[0]) && forall k :: k in x.tr.parts[0] <==> 0 <= k < n
  {
    HeldPartition(pkts, x, n, canUdp);
    assert 0 in x.tr.parts && x.tr.OwnPart(0) by {
      OnlyBuffer(x.tr, n);
    }
    hide GoodTcp, TcpGroup, Accounted, UdpTableOk, InOrder;
    OnlyBuffer(x.tr, n);
    assert TcpTracked(x.tcp, x.tr.home[0]);
    var key, a :| key in x.tcp && 0 <= a < |x.tcp[key]| && x.tcp[key][a].bufsIndex == 0;
    item := x.tcp[key][a];
    assert TcpItemOk(pkts, x.tr.parts, x.bufs, item);
  }

  lemma Small(g: nat, x: nat, n: nat, bound: nat)
    requires x <= n && g * n <= bound
    ensures g * x <= bound
  {
    assert g * n == g * x + g * (n - x);
  }

  lemma Meet(s: nat, u: nat, v: nat, w: nat, x: nat, y: nat)
    requires x == (s + u) % TWO32 && y == (s + w) % TWO32 && y == (x + v) % TWO32
    requires u <= 0xffff && v <= 0xffff && w <= 0xffff
    ensures u + v == w
  {
    ModAdd(s + u, v);
    Apart(s, u + v, w);
  }

  /** What stands at place `t` of the buffer follows the first by `t`. */
  lemma PlaceOf(segs: seq<TcpSeg>, a: nat, b: nat, t: nat, m: nat)
    requires InRow(segs) && a < |segs| && b < |segs| && t <= m
    requires segs[0].gsoSize * m <= 0xffff && segs[0].gsoSize * (|segs| - 1) <= 0xffff
    requires segs[b].seqNo == (segs[a].seqNo + segs[0].gsoSize * t) % TWO32
    ensures b == a + t
  {
    hide InRow;
    StartsAt(segs, a);
    StartsAt(segs, b);
    var s, g := segs[0].seqNo, segs[0].gsoSize;
    Small(g, t, m, 0xffff);
    Small(g, a, |segs| - 1, 0xffff);
    Small(g, b, |segs| - 1, 0xffff);
    Meet(s, g * a, g * t, g * b, segs[a].seqNo, segs[b].seqNo);
    Sizes(segs);
    assert g * (a + t) == g * a + g * t;
    Cancel(g, a + t, b);
  }

  lemma Sizes(segs: seq<TcpSeg>)
    requires InRow(segs)
    ensures segs[0].gsoSize > 0
  {
  }

  lemma SegAt(pkts: Packets, segs: seq<TcpSeg>, i: nat)
    requires RegularTcp(pkts, segs) && i < |pkts|
    ensures TcpOf(pkts[i]) == Some(segs[i]) && GoodTcp(pkts[i]) && |segs| == |pkts|
    ensures i < |pkts| - 1 ==> segs[i].gsoSize == segs[0].gsoSize && !segs[i].pshSet
    ensures 0 < segs[i].gsoSize <= segs[0].gsoSize
    ensures TcpOf(pkts[0]).Some? && TcpMatch(pkts[0], pkts[i])
  {
    hide TcpOf, TcpMatch, GoodTcp;
  }

  /** Where a packet of the buffer stands. */
  lemma Stands(pkts: Packets, segs: seq<TcpSeg>, ks: seq<nat>, item: TcpItem, pkt: seq<byte>, n: nat, t: nat)
    requires RegularTcp(pkts, segs) && 0 < n < |pkts| && segs[0].gsoSize * (|segs| - 1) <= 0xffff
    requires TcpGroup(pkts, ks, item, pkt) && |pkt| <= 0xffff && (forall k :: k in ks <==> 0 <= k < n) && t < |ks|
    ensures ks[t] == ks[0] + t < n && item.gsoSize == segs[0].gsoSize
  {
    hide TcpOf, TcpGroup, RegularTcp, InRow;
    assert InRow(segs) && |segs| == |pkts| by {
      RowOf(pkts, segs);
    }
    JoinedLength(pkts, ks, item, pkt);
    GroupKnown(pkts, ks, item, pkt, t);
    GroupKnown(pkts, ks, item, pkt, 0);
    assert ks[0] in ks && ks[t] in ks;
    SegAt(pkts, segs, ks[0]);
    SegAt(pkts, segs, ks[t]);
    PlaceOf(segs, ks[0], ks[t], t, |ks| - 1);
  }

  lemma RowOf(pkts: Packets, segs: seq<TcpSeg>)
    requires RegularTcp(pkts, segs)
    ensures InRow(segs) && |segs| == |pkts| > 0
  {
    hide TcpOf, TcpMatch, GoodTcp;
  }

  lemma Ascending(ks: seq<nat>, n: nat)
    requires n > 0 && ks != [] && (forall k :: k in ks <==> 0 <= k < n)
    requires forall t :: 0 <= t < |ks| ==> ks[t] == ks[0] + t < n
    ensures |ks| == n && ks[0] == 0 && ks[n - 1] == n - 1
  {
    assert 0 in ks && n - 1 in ks;
    assert ks[|ks| - 1] == ks[0] + (|ks| - 1);
  }

  lemma Descending(ks: seq<nat>, n: nat)
    requires n > 0 && ks != [] && (forall k :: k in ks <==> 0 <= k < n)
    requires forall t :: 0 <= t < |ks| ==> ks[t] + t == ks[0] < n
    ensures |ks| == n && ks[0] == n - 1 && ks[n - 1] == 0
  {
    assert 0 in ks && n - 1 in ks;
    assert ks[|ks| - 1] + (|ks| - 1) == ks[0];
  }

  /** The buffer holds the packets as they came. */
  lemma Straight(pkts: Packets, segs: seq<TcpSeg>, ks: seq<nat>, item: TcpItem, pkt: seq<byte>, n: nat)
    requires RegularTcp(pkts, segs) && 0 < n < |pkts| && segs[0].gsoSize * (|segs| - 1) <= 0xffff
    requires TcpGroup(pkts, ks, item, pkt) && |pkt| <= 0xffff && forall k :: k in ks <==> 0 <= k < n
    ensures |ks| == n && ks[0] == 0 && ks[n - 1] == n - 1
    ensures |pkt| == segs[0].HeadersLen() + segs[0].gsoSize * n
  {
    hide TcpOf, TcpGroup, RegularTcp, InRow;
    RowOf(pkts, segs);
    JoinedLength(pkts, ks, item, pkt);
    forall t | 0 <= t < |ks|
      ensures ks[t] == ks[0] + t < n && item.gsoSize == segs[0].gsoSize
    {
      Stands(pkts, segs, ks, item, pkt, n, t);
    }
    Ascending(ks, n);
    FullLength(pkts, segs, ks, item, pkt, n);
  }

  lemma FullLength(pkts: Packets, segs: seq<TcpSeg>, ks: seq<nat>, item: TcpItem, pkt: seq<byte>, n: nat)
    requires RegularTcp(pkts, segs) && 0 < n < |pkts| && TcpGroup(pkts, ks, item, pkt)
    requires |ks| == n && ks[0] == 0 && ks[n - 1] == n - 1
    ensures |pkt| == segs[0].HeadersLen() + segs[0].gsoSize * n
  {
    hide TcpOf, TcpGroup, RegularTcp, InRow;
    JoinedLength(pkts, ks, item, pkt);
    GroupKnown(pkts, ks, item, pkt, 0);
    SegAt(pkts, segs, 0);
    SegAt(pkts, segs, n - 1);
    assert item.gsoSize * (n - 1) + item.gsoSize == item.gsoSize * n;
  }

  /** The first buffer takes the next packet. */
  lemma TakesNext(pkts: Packets, segs: seq<TcpSeg>, x: Snapshot, n: nat, offset: nat, canUdp: bool)
    requires Held(pkts, x, n, canUdp) && RegularTcp(pkts, segs) && 0 < n < |pkts| && OneBuffer(x.tr, n)
    requires segs != [] && offset + Length(segs) <= x.tr.floor
    ensures TcpTakes(pkts, x, 0, n, offset)
  {
    hide TcpOf, TcpGroup, TcpMatch, RegularTcp, InRow, Held, GoodTcp;
    HeldPartition(pkts, x, n, canUdp);
    RowOf(pkts, segs);
    SegAt(pkts, segs, 0);
    SegAt(pkts, segs, n - 1);
    SegAt(pkts, segs, n);
    var item := InBuffer(pkts, x, n, canUdp);
    var ks := x.tr.parts[0];
    Straight(pkts, segs, ks, item, x.bufs[0].pkt, n);
    forall t | 0 <= t < |ks|
      ensures ks[t] < |pkts| && TcpOf(pkts[ks[t]]).Some?
    {
      assert ks[t] in ks;
      SegAt(pkts, segs, ks[t]);
    }
    assert segs[n].seqNo == (segs[n - 1].seqNo + segs[n - 1].gsoSize) % TWO32 by {
      NextInRow(segs, n);
    }
    LengthGrows(segs, n);
  }

  lemma NextInRow(segs: seq<TcpSeg>, n: nat)
    requires InRow(segs) && 0 < n < |segs|
    ensures segs[n].seqNo == (segs[n - 1].seqNo + segs[n - 1].gsoSize) % TWO32
  {
  }

  lemma LengthGrows(segs: seq<TcpSeg>, n: nat)
    requires InRow(segs) && 0 < n < |segs|
    ensures segs[0].HeadersLen() + segs[0].gsoSize * n + segs[n].gsoSize <= Length(segs)
    ensures segs[0].gsoSize * (|segs| - 1) <= Length(segs)
  {
    var g, m := segs[0].gsoSize, |segs| - 1;
    if n < m {
      Small(g, n + 1, m, g * m);
      assert g * (n + 1) == g * n + g;
    }
  }

  /** What `Handle` says of a batch that it did not refuse. */
  ghost predicate Handled(bufs: seq<Buf>, offset: nat, canUdp: bool, toWrite: seq<nat>, tr: Trace, hist: seq<Snapshot>)
  {
    && tr.Partition() && |tr.home| == |bufs| && Listed(toWrite, tr)
    && |hist| == |bufs| + 1 && Run(PktsOf(bufs), hist, offset, canUdp) && hist[|bufs|].tr == tr
    && hist[0] == Snapshot(bufs, map[], map[], Trace(map[], [], LeastCap(bufs)))
  }

  /** If the first buffer takes every packet, it is the only one that is written. */
  lemma WrittenAsOne(bufs: seq<Buf>, offset: nat, canUdp: bool, toWrite: seq<nat>, tr: Trace, hist: seq<Snapshot>)
    requires Handled(bufs, offset, canUdp, toWrite, tr, hist) && bufs != []
    requires forall i :: 0 < i < |bufs| ==> Takes(hist, i, offset, canUdp)
    ensures toWrite == [0]
  {
    hide Takes, Run, Listed;
    AllInOne(PktsOf(bufs), hist, offset, canUdp, |bufs|);
    WrittenOnce(tr, toWrite, |bufs|);
  }

  lemma HeldAt(pkts: Packets, hist: seq<Snapshot>, offset: nat, canUdp: bool, i: nat)
    requires Run(pkts, hist, offset, canUdp) && i < |hist|
    ensures Held(pkts, hist[i], i, canUdp)
  {
    hide Held, Follows;
  }

  /** TCP packets in a row that fit every buffer are written as one. */
  lemma TcpBatch(bufs: seq<Buf>, segs: seq<TcpSeg>, offset: nat, canUdp: bool, toWrite: seq<nat>, tr: Trace,
                 hist: seq<Snapshot>)
    requires Handled(bufs, offset, canUdp, toWrite, tr, hist) && RegularTcp(PktsOf(bufs), segs)
    requires segs != [] && forall k :: 0 <= k < |bufs| ==> offset + Length(segs) <= bufs[k].cap
    ensures toWrite == [0]
  {
    hide RegularTcp, Run, Held, TcpTakes, TcpJoins, UdpJoins, Listed, Length;
    RowOf(PktsOf(bufs), segs);
    forall i | 0 < i < |bufs|
      ensures Takes(hist, i, offset, canUdp)
    {
      var x := hist[i];
      HeldAt(PktsOf(bufs), hist, offset, canUdp, i);
      if i < |x.bufs| && OneBuffer(x.tr, i) && x.tr.floor == hist[0].tr.floor {
        TakesNext(PktsOf(bufs), segs, x, i, offset, canUdp);
        TcpMergesExactly(PktsOf(bufs), x, i, offset, canUdp);
      }
    }
    WrittenAsOne(bufs, offset, canUdp, toWrite, tr, hist);
  }

  function Reversed(segs: seq<TcpSeg>): (r: seq<TcpSeg>)
    ensures |r| == |segs| && forall i :: 0 <= i < |r| ==> r[i] == segs[|segs| - 1 - i]
  {
    seq(|segs|, i requires 0 <= i < |segs| => segs[|segs| - 1 - i])
  }

  /** TCP packets of one flow, sound and alike, in a row from the last to the first. */
  ghost predicate BackwardTcp(pkts: Packets, segs: seq<TcpSeg>) {
    && |segs| == |pkts| && InRow(Reversed(segs))
    && forall i :: 0 <= i < |pkts| ==>
      TcpOf(pkts[i]) == Some(segs[i]) && GoodTcp(pkts[i]) && TcpMatch(pkts[0], pkts[i])
  }

  lemma BackAt(pkts: Packets, segs: seq<TcpSeg>, i: nat)
    requires BackwardTcp(pkts, segs) && i < |pkts|
    ensures |segs| == |pkts| && TcpOf(pkts[i]) == Some(segs[i]) && GoodTcp(pkts[i])
    ensures TcpOf(pkts[0]).Some? && TcpMatch(pkts[0], pkts[i])
  {
    hide TcpOf, TcpMatch, GoodTcp;
  }

  lemma BackRow(pkts: Packets, segs: seq<TcpSeg>)
    requires BackwardTcp(pkts, segs)
    ensures InRow(Reversed(segs)) && |segs| == |pkts| > 0
  {
    hide TcpOf, TcpMatch, GoodTcp;
  }

  lemma RowSizes(r: seq<TcpSeg>, i: nat)
    requires InRow(r) && i < |r|
    ensures 0 < r[i].gsoSize <= r[0].gsoSize && (i < |r| - 1 ==> r[i].gsoSize == r[0].gsoSize && !r[i].pshSet)
  {
  }

  /** Nothing starts where the last of them ends. */
  lemma NothingAfter(r: seq<TcpSeg>, b: nat)
    requires InRow(r) && b < |r| && r[0].gsoSize * (|r| - 1) + r[|r| - 1].gsoSize <= 0xffff
    ensures r[b].seqNo != (r[|r| - 1].seqNo + r[|r| - 1].gsoSize) % TWO32
  {
    hide InRow;
    var m, g := |r| - 1, r[0].gsoSize;
    StartsAt(r, b);
    StartsAt(r, m);
    RowSizes(r, m);
    Small(g, b, m, g * m);
    NotAfter(r[0].seqNo, g * b, g * m, r[m].gsoSize, r[m].seqNo, r[b].seqNo);
  }

  lemma NotAfter(s: nat, u: nat, v: nat, l: nat, x: nat, y: nat)
    requires x == (s + v) % TWO32 && y == (s + u) % TWO32 && u <= v && v + l <= 0xffff && l > 0
    ensures y != (x + l) % TWO32
  {
    if y == (x + l) % TWO32 {
      Meet(s, v, l, u, x, y);
    }
  }

  lemma LengthParts(r: seq<TcpSeg>)
    requires r != []
    ensures r[0].gsoSize * (|r| - 1) + r[|r| - 1].gsoSize <= Length(r)
  {
  }

  /** Where a packet of the buffer stands, when they came from the last to the first. */
  lemma StandsBack(pkts: Packets, segs: seq<TcpSeg>, ks: seq<nat>, item: TcpItem, pkt: seq<byte>, n: nat, t: nat)
    requires BackwardTcp(pkts, segs) && 0 < n < |pkts| && Length(Reversed(segs)) <= 0xffff
    requires TcpGroup(pkts, ks, item, pkt) && |pkt| <= 0xffff && (forall k :: k in ks <==> 0 <= k < n) && t < |ks|
    requires ks[0] > 0
    ensures ks[t] + t == ks[0] < n && item.gsoSize == Reversed(segs)[0].gsoSize
  {
    hide TcpOf, TcpGroup, BackwardTcp, InRow;
    BackRow(pkts, segs);
    var r, m := Reversed(segs), |segs| - 1;
    JoinedLength(pkts, ks, item, pkt);
    GroupKnown(pkts, ks, item, pkt, t);
    GroupKnown(pkts, ks, item, pkt, 0);
    assert ks[0] in ks && ks[t] in ks;
    BackAt(pkts, segs, ks[0]);
    BackAt(pkts, segs, ks[t]);
    RowSizes(r, m - ks[0]);
    PlaceOf(r, m - ks[0], m - ks[t], t, |ks| - 1);
  }

  /** The packet that came first does not stand at the front of several. */
  lemma FirstNotFront(pkts: Packets, segs: seq<TcpSeg>, ks: seq<nat>, item: TcpItem, pkt: seq<byte>, n: nat)
    requires BackwardTcp(pkts, segs) && 1 < n < |pkts| && Length(Reversed(segs)) <= 0xffff
    requires TcpGroup(pkts, ks, item, pkt) && (forall k :: k in ks <==> 0 <= k < n) && |ks| > 1
    ensures ks[0] > 0
  {
    hide TcpOf, TcpGroup, BackwardTcp, InRow, Length, Reversed;
    BackRow(pkts, segs);
    LengthParts(Reversed(segs));
    GroupKnown(pkts, ks, item, pkt, 0);
    assert ks[0] in ks && ks[1] in ks;
    BackAt(pkts, segs, ks[0]);
    BackAt(pkts, segs, ks[1]);
    SecondStarts(pkts, ks, item, pkt);
    var r, m := Reversed(segs), |segs| - 1;
    assert segs[ks[1]].seqNo == (segs[ks[0]].seqNo + segs[ks[0]].gsoSize) % TWO32;
    assert r[m - ks[1]] == segs[ks[1]] && r[m] == segs[0];
    NothingAfter(r, m - ks[1]);
  }

  /** The second packet starts where the first one ends. */
  lemma SecondStarts(pkts: Packets, ks: seq<nat>, item: TcpItem, pkt: seq<byte>)
    requires TcpGroup(pkts, ks, item, pkt) && |ks| > 1
    ensures ks[0] < |pkts| && ks[1] < |pkts| && TcpOf(pkts[ks[0]]).Some? && TcpOf(pkts[ks[1]]).Some?
    ensures SeqNo(pkts[ks[1]]) == (SeqNo(pkts[ks[0]]) + PayloadLen(pkts[ks[0]])) % TWO32
  {
    hide TcpOf, TcpGroup;
    GroupKnown(pkts, ks, item, pkt, 1);
    GroupKnown(pkts, ks, item, pkt, 0);
  }

  lemma TwoDiffer(s: seq<nat>)
    requires NoDup(s) && |s| > 1
    ensures s[0] != s[1]
  {
  }

  /** The buffer holds the packets the other way round. */
  lemma Backward(pkts: Packets, segs: seq<TcpSeg>, ks: seq<nat>, item: TcpItem, pkt: seq<byte>, n: nat)
    requires BackwardTcp(pkts, segs) && 0 < n < |pkts| && Length(Reversed(segs)) <= 0xffff
    requires TcpGroup(pkts, ks, item, pkt) && |pkt| <= 0xffff && NoDup(ks) && forall k :: k in ks <==> 0 <= k < n
    ensures |ks| == n && ks[0] == n - 1 && ks[n - 1] == 0
    ensures n > 1 ==> item.gsoSize == Reversed(segs)[0].gsoSize
  {
    hide TcpOf, TcpGroup, BackwardTcp, InRow, Length;
    BackRow(pkts, segs);
    JoinedLength(pkts, ks, item, pkt);
    if n > 1 {
      TwoAtLeast(ks, n);
      FirstNotFront(pkts, segs, ks, item, pkt, n);
      forall t | 0 <= t < |ks|
        ensures ks[t] + t == ks[0] < n && item.gsoSize == Reversed(segs)[0].gsoSize
      {
        StandsBack(pkts, segs, ks, item, pkt, n, t);
      }
      Descending(ks, n);
    } else {
      assert forall t :: 0 <= t < |ks| ==> ks[t] in ks;
      if |ks| > 1 {
        TwoDiffer(ks);
      }
    }
  }

  lemma TwoAtLeast(ks: seq<nat>, n: nat)
    requires n > 1 && forall k :: k in ks <==> 0 <= k < n
    ensures |ks| > 1
  {
    assert 0 in ks && 1 in ks;
  }

  /** The packet goes in front of those in the buffer. */
  lemma PrecedesAll(pkts: Packets, segs: seq<TcpSeg>, ks: seq<nat>, n: nat)
    requires BackwardTcp(pkts, segs) && 0 < n < |pkts| && |ks| == n && ks[0] == n - 1
    requires forall t :: 0 <= t < |ks| ==> ks[t] < |pkts| && TcpOf(pkts[ks[t]]).Some?
    ensures |segs| == |pkts| && TcpOf(pkts[n]) == Some(segs[n]) && Precedes(pkts, ks, n)
  {
    hide TcpOf, TcpMatch, BackwardTcp, InRow;
    BackRow(pkts, segs);
    BackAt(pkts, segs, n - 1);
    BackAt(pkts, segs, n);
    var r, m := Reversed(segs), |segs| - 1;
    NextInRow(r, m - n + 1);
    RowSizes(r, m - n);
    RowSizes(r, m - n + 1);
    MatchTrans(pkts[0], pkts[n - 1], pkts[n]);
  }

  /** And there is room for it. */
  lemma RoomBefore(pkts: Packets, segs: seq<TcpSeg>, ks: seq<nat>, item: TcpItem, pkt: seq<byte>, n: nat)
    requires BackwardTcp(pkts, segs) && 0 < n < |pkts| && TcpGroup(pkts, ks, item, pkt)
    requires |ks| == n && ks[0] == n - 1 && ks[n - 1] == 0 && (n > 1 ==> item.gsoSize == Reversed(segs)[0].gsoSize)
    ensures |segs| == |pkts| && |pkt| + segs[n].gsoSize <= Length(Reversed(segs))
  {
    hide TcpOf, TcpGroup, TcpMatch, BackwardTcp, InRow, Length;
    BackRow(pkts, segs);
    BackAt(pkts, segs, 0);
    BackAt(pkts, segs, n - 1);
    BackAt(pkts, segs, |pkts| - 1);
    JoinedLength(pkts, ks, item, pkt);
    GroupKnown(pkts, ks, item, pkt, 0);
    MatchLengths(pkts[0], pkts[n - 1]);
    MatchLengths(pkts[0], pkts[|pkts| - 1]);
    RowSizes(Reversed(segs), |segs| - 1 - n);
    LengthBack(Reversed(segs), n, item.gsoSize);
  }

  /** The first buffer takes the next packet too when they come from the last to the first. */
  lemma TakesBefore(pkts: Packets, segs: seq<TcpSeg>, x: Snapshot, n: nat, offset: nat, canUdp: bool)
    requires Held(pkts, x, n, canUdp) && BackwardTcp(pkts, segs) && 0 < n < |pkts| && OneBuffer(x.tr, n)
    requires segs != [] && offset + Length(Reversed(segs)) <= x.tr.floor
    ensures TcpTakes(pkts, x, 0, n, offset)
  {
    hide TcpOf, TcpGroup, TcpMatch, BackwardTcp, InRow, Held, GoodTcp, Length, Precedes, Continues;
    HeldPartition(pkts, x, n, canUdp);
    BackAt(pkts, segs, 0);
    BackAt(pkts, segs, n - 1);
    BackAt(pkts, segs, n);
    var item := InBuffer(pkts, x, n, canUdp);
    var ks := x.tr.parts[0];
    Backward(pkts, segs, ks, item, x.bufs[0].pkt, n);
    forall t | 0 <= t < |ks|
      ensures ks[t] < |pkts| && TcpOf(pkts[ks[t]]).Some?
    {
      assert ks[t] in ks;
      BackAt(pkts, segs, ks[t]);
    }
    PrecedesAll(pkts, segs, ks, n);
    RoomBefore(pkts, segs, ks, item, x.bufs[0].pkt, n);
  }

  lemma MatchLengths(p: seq<byte>, q: seq<byte>)
    requires TcpMatch(p, q)
    ensures TcpOf(p).Some? && TcpOf(q).Some? && TcpOf(p).value.HeadersLen() == TcpOf(q).value.HeadersLen()
  {
    hide ParseTcp, CandidateOf;
  }

  lemma MatchTrans(p: seq<byte>, q: seq<byte>, r: seq<byte>)
    requires TcpMatch(p, q) && TcpMatch(p, r)
    ensures TcpMatch(q, r)
  {
    hide ParseTcp, CandidateOf;
  }

  lemma LengthBack(r: seq<TcpSeg>, n: nat, g: nat)
    requires InRow(r) && 0 < n < |r| && (n > 1 ==> g == r[0].gsoSize)
    ensures r[0].HeadersLen() + g * (n - 1) + r[|r| - 1].gsoSize + r[0].gsoSize <= Length(r)
  {
    Small(r[0].gsoSize, n, |r| - 1, r[0].gsoSize * (|r| - 1));
    if n > 1 {
      assert g * n == g * (n - 1) + g;
    } else {
      assert g * (n - 1) == 0;
    }
  }

  /** So are TCP packets that come from the last to the first. */
  lemma TcpBatchBackward(bufs: seq<Buf>, segs: seq<TcpSeg>, offset: nat, canUdp: bool, toWrite: seq<nat>, tr: Trace,
                         hist: seq<Snapshot>)
    requires Handled(bufs, offset, canUdp, toWrite, tr, hist) && BackwardTcp(PktsOf(bufs), segs)
    requires segs != [] && forall k :: 0 <= k < |bufs| ==> offset + Length(Reversed(segs)) <= bufs[k].cap
    ensures toWrite == [0]
  {
    hide BackwardTcp, Run, Held, TcpTakes, TcpJoins, UdpJoins, Listed, Length;
    BackRow(PktsOf(bufs), segs);
    forall i | 0 < i < |bufs|
      ensures Takes(hist, i, offset, canUdp)
    {
      var x := hist[i];
      HeldAt(PktsOf(bufs), hist, offset, canUdp, i);
      if i < |x.bufs| && OneBuffer(x.tr, i) && x.tr.floor == hist[0].tr.floor {
        TakesBefore(PktsOf(bufs), segs, x, i, offset, canUdp);
        TcpMergesExactly(PktsOf(bufs), x, i, offset, canUdp);
      }
    }
    WrittenAsOne(bufs, offset, canUdp, toWrite, tr, hist);
  }

  /** Datagrams of one size but for a shorter last. */
  predicate UdpInRow(segs: seq<UdpSeg>) {
    && segs != [] && (forall i :: 0 <= i < |segs| - 1 ==> segs[i].gsoSize == segs[0].gsoSize)
    && segs[|segs| - 1].gsoSize <= segs[0].gsoSize
  }

  /** Datagrams of one flow, sound and alike. */
  ghost predicate RegularUdp(pkts: Packets, segs: seq<UdpSeg>) {
    && |segs| == |pkts| && UdpInRow(segs)
    && forall i :: 0 <= i < |pkts| ==>
      UdpOf(pkts[i]) == Some(segs[i]) && GoodUdp(pkts[i]) && UdpMatch(pkts[0], pkts[i])
  }

  function UdpLength(segs: seq<UdpSeg>): nat
    requires segs != []
  {
    segs[0].HeadersLen() + segs[0].gsoSize * (|segs| - 1) + segs[|segs| - 1].gsoSize
  }

  lemma UdpSegAt(pkts: Packets, segs: seq<UdpSeg>, i: nat)
    requires RegularUdp(pkts, segs) && i < |pkts|
    ensures |segs| == |pkts| && UdpOf(pkts[i]) == Some(segs[i]) && GoodUdp(pkts[i])
    ensures UdpOf(pkts[0]).Some? && UdpMatch(pkts[0], pkts[i])
    ensures segs[i].gsoSize <= segs[0].gsoSize && (i < |pkts| - 1 ==> segs[i].gsoSize == segs[0].gsoSize)
  {
    hide UdpOf, UdpMatch, GoodUdp;
  }

  /** The first buffer, when it holds all there was. */
  lemma UdpInBuffer(pkts: Packets, x: Snapshot, n: nat) returns (item: UdpItem)
    requires Held(pkts, x, n, true) && 0 < n < |pkts| && OneBuffer(x.tr, n) && UdpOf(pkts[0]).Some?
    ensures 0 in x.tr.parts && |x.bufs| == |pkts| && UdpGroup(pkts, x.tr.parts[0], item, x.bufs[0].pkt)
    ensures item.gsoSize > 0 && |x.bufs[0].pkt| <= 0xffff
    ensures forall k :: k in x.tr.parts[0] <==> 0 <= k < n
  {
    HeldPartition(pkts, x, n, true);
    hide UdpOf, UdpGroup, Accounted, TcpTableOk, TcpKept;
    OnlyBuffer(x.tr, n);
    assert NotPastLast(pkts, x.udp, x.tr.home, 0);
    var key := UdpOf(pkts[0]).value.key;
    item := x.udp[key][|x.udp[key]| - 1];
    assert UdpItemOk(pkts, x.tr.parts, x.bufs, item);
  }

  /** The buffer holds the datagrams as they came. */
  lemma {:induction false} Sorted(ks: seq<nat>, t: nat)
    requires (forall u, v :: 0 <= u < v < |ks| ==> ks[u] < ks[v]) && t < |ks|
    ensures ks[t] >= t
  {
    if t > 0 {
      Sorted(ks, t - 1);
    }
  }

  lemma SortedEnds(ks: seq<nat>, n: nat)
    requires n > 0 && (forall u, v :: 0 <= u < v < |ks| ==> ks[u] < ks[v]) && forall k :: k in ks <==> 0 <= k < n
    ensures 0 < |ks| <= n && ks[0] == 0 && ks[|ks| - 1] == n - 1
  {
    assert 0 in ks && n - 1 in ks;
    Sorted(ks, |ks| - 1);
    assert ks[|ks| - 1] in ks;
  }

  lemma UdpHolds(pkts: Packets, segs: seq<UdpSeg>, ks: seq<nat>, item: UdpItem, pkt: seq<byte>, n: nat)
    requires RegularUdp(pkts, segs) && 0 < n < |pkts| && UdpGroup(pkts, ks, item, pkt) && item.gsoSize > 0
    requires |pkt| <= 0xffff && forall k :: k in ks <==> 0 <= k < n
    ensures 0 < |ks| <= n && ks[0] == 0 && ks[|ks| - 1] == n - 1
    ensures |segs| == |pkts| && |pkt| <= segs[0].HeadersLen() + segs[0].gsoSize * n
  {
    hide UdpOf, RegularUdp, Joined, AllCheck, AllAlike, GoodUdp, UdpFacts;
    SortedEnds(ks, n);
    UdpSegAt(pkts, segs, 0);
    UdpSegAt(pkts, segs, n - 1);
    assert InUdpFlow(pkts, ks[0], item);
    UdpFactsOf(pkts, ks, item, pkt, 0);
    UdpBound(pkts, segs, ks, item, pkt, n);
  }

  lemma UdpBound(pkts: Packets, segs: seq<UdpSeg>, ks: seq<nat>, item: UdpItem, pkt: seq<byte>, n: nat)
    requires UdpFacts(pkts, ks, item, pkt, 0) && 0 < |ks| <= n && ks[0] == 0
    requires segs != [] && UdpOf(pkts[0]) == Some(segs[0])
    ensures |pkt| <= segs[0].HeadersLen() + segs[0].gsoSize * n
  {
    hide UdpOf;
    var g, m := segs[0].gsoSize, |ks| - 1;
    assert g * m + g == g * (m + 1);
    Small(g, m + 1, n, g * n);
  }

  lemma UdpLengthGrows(segs: seq<UdpSeg>, n: nat)
    requires UdpInRow(segs) && 0 < n < |segs|
    ensures segs[0].HeadersLen() + segs[0].gsoSize * n + segs[n].gsoSize <= UdpLength(segs)
  {
    var g, m := segs[0].gsoSize, |segs| - 1;
    if n < m {
      Small(g, n + 1, m, g * m);
      assert g * (n + 1) == g * n + g;
    }
  }

  lemma UdpRowOf(pkts: Packets, segs: seq<UdpSeg>)
    requires RegularUdp(pkts, segs)
    ensures UdpInRow(segs) && |segs| == |pkts| > 0
  {
    hide UdpOf, UdpMatch, GoodUdp;
  }

  /** The first buffer takes the next datagram. */
  lemma UdpTakesNext(pkts: Packets, segs: seq<UdpSeg>, x: Snapshot, n: nat, offset: nat)
    requires Held(pkts, x, n, true) && RegularUdp(pkts, segs) && 0 < n < |pkts| && OneBuffer(x.tr, n)
    requires segs != [] && offset + UdpLength(segs) <= x.tr.floor
    ensures UdpTakes(pkts, x, 0, n, offset)
  {
    hide UdpOf, UdpGroup, UdpMatch, RegularUdp, UdpInRow, Held, GoodUdp, UdpLength;
    HeldPartition(pkts, x, n, true);
    UdpRowOf(pkts, segs);
    UdpSegAt(pkts, segs, 0);
    UdpSegAt(pkts, segs, n - 1);
    UdpSegAt(pkts, segs, n);
    var item := UdpInBuffer(pkts, x, n);
    var ks := x.tr.parts[0];
    UdpHolds(pkts, segs, ks, item, x.bufs[0].pkt, n);
    forall t | 0 <= t < |ks|
      ensures ks[t] < |pkts| && UdpOf(pkts[ks[t]]).Some?
    {
      assert ks[t] in ks;
      UdpSegAt(pkts, segs, ks[t]);
    }
    UdpLengthGrows(segs, n);
  }

  /** Datagrams of one flow are written as one. */
  lemma UdpBatch(bufs: seq<Buf>, segs: seq<UdpSeg>, offset: nat, toWrite: seq<nat>, tr: Trace, hist: seq<Snapshot>)
    requires Handled(bufs, offset, true, toWrite, tr, hist) && RegularUdp(PktsOf(bufs), segs)
    requires segs != [] && forall k :: 0 <= k < |bufs| ==> offset + UdpLength(segs) <= bufs[k].cap
    ensures toWrite == [0]
  {
    hide RegularUdp, Run, Held, UdpTakes, TcpJoins, UdpJoins, Listed, UdpLength;
    UdpRowOf(PktsOf(bufs), segs);
    forall i | 0 < i < |bufs|
      ensures Takes(hist, i, offset, true)
    {
      var x := hist[i];
      HeldAt(PktsOf(bufs), hist, offset, true, i);
      if i < |x.bufs| && OneBuffer(x.tr, i) && x.tr.floor == hist[0].tr.floor {
        UdpTakesNext(PktsOf(bufs), segs, x, i, offset);
        UdpMergesExactly(PktsOf(bufs), x, i, offset);
      }
    }
    WrittenAsOne(bufs, offset, true, toWrite, tr, hist);
  }

  /** Every buffer has room for a packet of this length. */
  predicate Fits(bufs: seq<Buf>, offset: nat, length: nat) {
    forall k :: 0 <= k < |bufs| ==> offset + length <= bufs[k].cap
  }

  /** The batch is one row of TCP packets, or of such packets from the last on, or of datagrams, and fits a buffer. */
  ghost predicate InOneRow(bufs: seq<Buf>, offset: nat, canUdp: bool) {
    || (exists segs :: segs != [] && RegularTcp(PktsOf(bufs), segs) && Fits(bufs, offset, Length(segs)))
    || (exists segs :: segs != [] && BackwardTcp(PktsOf(bufs), segs) && Fits(bufs, offset, Length(Reversed(segs))))
    || (canUdp && exists segs :: segs != [] && RegularUdp(PktsOf(bufs), segs) && Fits(bufs, offset, UdpLength(segs)))
  }

  /** A batch of one flow is written as one packet. */
  method HandleBatch(little: bool, bufs: seq<Buf>, offset: nat, tcpTable: TcpTable, udpTable: UdpTable, canUdp: bool)
    returns (err: bool, toWrite: seq<nat>, bufs': seq<Buf>)
    requires tcpTable.itemsByFlow == map[] && udpTable.itemsByFlow == map[]
    requires |bufs| <= tcpTable.itemsPool && |bufs| <= udpTable.itemsPool
    requires forall k :: 0 <= k < |bufs| ==> |bufs[k].pkt| <= bufs[k].cap <= 0xffff
    modifies tcpTable, udpTable
    ensures err <==> BadOffset(bufs, offset)
    ensures !err && InOneRow(bufs, offset, canUdp) ==> toWrite == [0]
  {
    hide InOneRow, Run, Listed, BadOffset;
    ghost var tr, hist;
    err, toWrite, bufs', tr, hist := Handle(little, bufs, offset, tcpTable, udpTable, canUdp);
    if !err && InOneRow(bufs, offset, canUdp) {
      RowWritten(bufs, offset, canUdp, toWrite, tr, hist);
    }
  }

  lemma RowWritten(bufs: seq<Buf>, offset: nat, canUdp: bool, toWrite: seq<nat>, tr: Trace, hist: seq<Snapshot>)
    requires Handled(bufs, offset, canUdp, toWrite, tr, hist) && InOneRow(bufs, offset, canUdp)
    ensures toWrite == [0]
  {
    hide RegularTcp, BackwardTcp, RegularUdp, Handled, Length, UdpLength;
    if segs :| segs != [] && RegularTcp(PktsOf(bufs), segs) && Fits(bufs, offset, Length(segs)) {
      TcpBatch(bufs, segs, offset, canUdp, toWrite, tr, hist);
    } else if segs :| segs != [] && BackwardTcp(PktsOf(bufs), segs) && Fits(bufs, offset, Length(Reversed(segs))) {
      TcpBatchBackward(bufs, segs, offset, canUdp, toWrite, tr, hist);
    } else {
      var segs :| segs != [] && RegularUdp(PktsOf(bufs), segs) && Fits(bufs, offset, UdpLength(segs));
      UdpBatch(bufs, segs, offset, toWrite, tr, hist);
    }
  }
}
