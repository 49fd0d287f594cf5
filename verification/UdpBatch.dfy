/** Batching of datagrams over UDP with segmentation offload: wireguard-go/conn/bind_std.go, lines 437-544. */
module UdpBatch {
  import opened Checksum
  import opened GsoSplit
  import opened Options
  import opened Runs
  import opened Sequences

  /** Datagrams, by the message that carries them. */
  type Groups = seq<seq<seq<byte>>>

  const MAX_IPV4_PAYLOAD_LEN := 0xffff - 20 - 8
  const MAX_IPV6_PAYLOAD_LEN := 0xffff - 8
  const IDEAL_BATCH_SIZE := 128
  const UDP_SEGMENT_MAX_DATAGRAMS := 64

  /** A datagram to send, and how long its buffer may grow. */
  datatype Datagram = Datagram(data: seq<byte>, cap: nat)

  /** A message to send; `gso` is the segment size its control data asks for, 0 if it asks for none. */
  datatype Message = Message(data: seq<byte>, cap: nat, gso: uint16)

  function MaxPayload(is6: bool): nat {
    if is6 then MAX_IPV6_PAYLOAD_LEN else MAX_IPV4_PAYLOAD_LEN
  }

  ghost function DataOf(bufs: seq<Datagram>): (r: seq<seq<byte>>)
    ensures |r| == |bufs| && forall i :: 0 <= i < |r| ==> r[i] == bufs[i].data
  {
    seq(|bufs|, i requires 0 <= i < |bufs| => bufs[i].data)
  }

  /** Datagrams of one size, except that the last may be shorter. */
  ghost predicate Even(group: seq<seq<byte>>) {
    && 0 < |group| <= UDP_SEGMENT_MAX_DATAGRAMS
    && (forall t :: 0 <= t < |group| - 1 ==> |group[t]| == |group[0]|)
    && |group[|group| - 1]| <= |group[0]|
  }

  /** The message carries these datagrams. */
  ghost predicate Carries(m: Message, group: seq<seq<byte>>, is6: bool, gso: nat) {
    && Even(group) && m.data == Flat(group) && m.gso == gso
    && (|group| > 1 ==> |m.data| <= MaxPayload(is6) && |m.data| <= m.cap)
  }

  ghost function GsoOf(group: seq<seq<byte>>): nat {
    if |group| > 1 then |group[0]| else 0
  }

  /** Joining the groups one after another. */
  ghost function Ungroup(groups: Groups): seq<seq<byte>> {
    if groups == [] then [] else Ungroup(groups[..|groups| - 1]) + groups[|groups| - 1]
  }

  lemma GroupAppend(groups: Groups, last: seq<seq<byte>>, d: seq<byte>)
    ensures Ungroup(groups + [last + [d]]) == Ungroup(groups + [last]) + [d]
    ensures Ungroup(groups + [last] + [[d]]) == Ungroup(groups + [last]) + [d]
  {
    assert (groups + [last + [d]])[..|groups|] == groups && (groups + [last])[..|groups|] == groups;
    assert (groups + [last] + [[d]])[..|groups| + 1] == groups + [last];
  }

  lemma UngroupOne(group: seq<seq<byte>>)
    ensures Ungroup([group]) == group
  {
    assert [group][..0] == [];
  }

  lemma EvenAppend(group: seq<seq<byte>>, d: seq<byte>)
    requires Even(group) && |group| < UDP_SEGMENT_MAX_DATAGRAMS && |d| <= |group[0]|
      && |group[|group| - 1]| == |group[0]|
    ensures Even(group + [d]) && Flat(group + [d]) == Flat(group) + d
  {
    FlatConcat(group, [d]);
    FlatOne(d);
  }

  /** A datagram that the message cannot take: too much, too large, after a smaller one, or one too many. */
  ghost predicate Refuses(m: Message, group: seq<seq<byte>>, d: seq<byte>, is6: bool)
    requires group != []
  {
    || |d| + |m.data| > MaxPayload(is6) || |d| > m.cap - |m.data|
    || |d| > |group[0]| || |group[|group| - 1]| < |group[0]| || |group| == UDP_SEGMENT_MAX_DATAGRAMS
  }

  /** Message `k` was left only when it could not take the next datagram. */
  ghost predicate LeftFull(msgs: seq<Message>, groups: Groups, is6: bool, k: nat)
    requires k + 1 < |msgs| == |groups|
  {
    groups[k] != [] && groups[k + 1] != [] && Refuses(msgs[k], groups[k], groups[k + 1][0], is6)
  }

  ghost predicate Greedy(msgs: seq<Message>, groups: Groups, is6: bool)
    requires |msgs| == |groups|
  {
    forall k: nat {:trigger LeftFull(msgs, groups, is6, k)} :: k < |msgs| - 1 ==> LeftFull(msgs, groups, is6, k)
  }

  /** The last message may grow, and any message may get its control data. */
  lemma GreedyExtend(msgs: seq<Message>, groups: Groups, is6: bool, data: seq<byte>, gso: uint16, d: seq<byte>)
    requires |msgs| == |groups| > 0 && groups[|groups| - 1] != [] && Greedy(msgs, groups, is6)
    ensures var base := |msgs| - 1;
      Greedy(msgs[base := Message(data, msgs[base].cap, gso)], groups[base := groups[base] + [d]], is6)
  {
    hide Refuses;
    var base := |msgs| - 1;
    var msgs', groups' := msgs[base := Message(data, msgs[base].cap, gso)], groups[base := groups[base] + [d]];
    forall k: nat | k < base
      ensures LeftFull(msgs', groups', is6, k)
    {
      assert LeftFull(msgs, groups, is6, k);
    }
  }

  lemma GreedyNext(msgs: seq<Message>, groups: Groups, is6: bool, gso: uint16, next: Message, d: seq<byte>)
    requires |msgs| == |groups| > 0 && groups[|groups| - 1] != [] && Greedy(msgs, groups, is6)
    requires Refuses(msgs[|msgs| - 1], groups[|groups| - 1], d, is6)
    ensures var base := |msgs| - 1;
      Greedy(msgs[base := msgs[base].(gso := gso)] + [next], groups + [[d]], is6)
  {
    var base := |msgs| - 1;
    var msgs', groups' := msgs[base := msgs[base].(gso := gso)] + [next], groups + [[d]];
    forall k: nat | k < base + 1
      ensures LeftFull(msgs', groups', is6, k)
    {
      assert k < base ==> LeftFull(msgs, groups, is6, k);
    }
  }

  /** All messages carry their groups; the last one has the control data it needs only if it is `closed`. */
  ghost predicate Coalesced(msgs: seq<Message>, groups: Groups, is6: bool, data: seq<seq<byte>>, closed: bool) {
    && |msgs| == |groups| && Ungroup(groups) == data
    && forall k ::
      0 <= k < |msgs| ==> Carries(msgs[k], groups[k], is6, if closed || k < |msgs| - 1 then GsoOf(groups[k]) else 0)
  }

  /** What the loop variables say of the last group. */
  ghost predicate Last(groups: Groups, gsoSize: nat, dgramCnt: nat, endBatch: bool) {
    && groups != [] && var group := groups[|groups| - 1];
    && dgramCnt == |group| > 0 && gsoSize == |group[0]| && |group[|group| - 1]| <= gsoSize
      && (endBatch <==> |group[|group| - 1]| < gsoSize)
  }

  /** A segment size is a 16-bit number when it matters. */
  lemma SizeFits(group: seq<seq<byte>>, data: seq<byte>, is6: bool)
    requires Even(group) && |data| <= MaxPayload(is6) && |Flat(group)| <= |data|
    ensures |group[0]| < 0x1_0000
  {
    assert group == [group[0]] + group[1..];
  }

  ghost predicate SameCaps(msgs0: seq<Message>, msgs: seq<Message>) {
    |msgs0| <= |msgs| && forall k :: 0 <= k < |msgs0| ==> msgs[k].cap == msgs0[k].cap
  }

  /** A message grows in the buffer of the first datagram it carries. */
  ghost predicate InOwnBuffer(msgs: seq<Message>, groups: Groups, bufs: seq<Datagram>) {
    |msgs| == |groups| && forall k :: 0 <= k < |msgs| ==>
      |Ungroup(groups[..k])| < |bufs| && msgs[k].cap == bufs[|Ungroup(groups[..k])|].cap
  }

  lemma BuffersKept(msgs0: seq<Message>, groups0: Groups, msgs: seq<Message>, groups: Groups, bufs: seq<Datagram>)
    requires InOwnBuffer(msgs0, groups0, bufs) && SameCaps(msgs0, msgs) && groups0 != []
    requires |groups| == |groups0| == |msgs| && groups[..|groups| - 1] == groups0[..|groups| - 1]
    ensures InOwnBuffer(msgs, groups, bufs)
  {
    forall k | 0 <= k < |msgs|
      ensures groups[..k] == groups0[..k]
    {
      assert groups[..k] == groups[..|groups| - 1][..k] && groups0[..k] == groups0[..|groups| - 1][..k];
    }
  }

  lemma BuffersNext(msgs0: seq<Message>, groups0: Groups, msgs: seq<Message>, groups: Groups, bufs: seq<Datagram>)
    requires InOwnBuffer(msgs0, groups0, bufs) && SameCaps(msgs0, msgs)
    requires |groups| == |groups0| + 1 == |msgs| && groups[..|groups| - 1] == groups0
    requires |Ungroup(groups0)| < |bufs| && msgs[|msgs| - 1].cap == bufs[|Ungroup(groups0)|].cap
    ensures InOwnBuffer(msgs, groups, bufs)
  {
    forall k | 0 <= k < |msgs| - 1
      ensures groups[..k] == groups0[..k]
    {
      assert groups[..k] == groups[..|groups| - 1][..k];
    }
  }

  /** Datagrams of one size but for the last, which fit the first buffer and what the kernel takes. */
  ghost predicate OneSize(bufs: seq<Datagram>, is6: bool) {
    && 0 < |bufs| <= 64
    && (forall i :: 0 <= i < |bufs| - 1 ==> |bufs[i].data| == |bufs[0].data|)
    && |bufs[|bufs| - 1].data| <= |bufs[0].data|
    && var total := |bufs[0].data| * (|bufs| - 1) + |bufs[|bufs| - 1].data|;
       total + (if is6 then 8 else 28) <= 0xffff && total <= bufs[0].cap
  }

  lemma {:induction false} UngroupStarts(groups: Groups)
    requires |groups| >= 2
    ensures groups[0] + groups[1] <= Ungroup(groups)
  {
    if |groups| == 2 {
      assert groups[..1] == [groups[0]];
      UngroupOne(groups[0]);
    } else {
      UngroupStarts(groups[..|groups| - 1]);
    }
  }

  lemma {:induction false} FlatOneSize(group: seq<seq<byte>>, size: nat)
    requires forall i :: 0 <= i < |group| ==> |group[i]| == size
    ensures |Flat(group)| == size * |group|
  {
    if group != [] {
      FlatOneSize(group[1..], size);
      assert size * |group| == size + size * (|group| - 1);
    }
  }

  /** The first message does not refuse the next of such datagrams. */
  lemma NotRefused(m: Message, group: seq<seq<byte>>, bufs: seq<Datagram>, is6: bool, gso: nat)
    requires OneSize(bufs, is6) && Carries(m, group, is6, gso) && |group| < |bufs| && m.cap == bufs[0].cap
    requires forall i :: 0 <= i < |group| ==> group[i] == bufs[i].data
    ensures !Refuses(m, group, bufs[|group|].data, is6)
  {
    hide Flat;
    var size, k, n := |bufs[0].data|, |group|, |bufs| - 1;
    FlatOneSize(group, size);
    OneMore(size, k, n, |bufs[n].data|);
  }

  lemma OneMore(size: nat, k: nat, n: nat, last: nat)
    requires k <= n && last <= size
    ensures size * k + (if k < n then size else last) <= size * n + last
  {
    if k < n {
      Product(size, k + 1, n);
      assert size * (k + 1) == size * k + size;
    }
  }

  /** So there is no second message. */
  lemma AllInFirst(msgs: seq<Message>, groups: Groups, bufs: seq<Datagram>, is6: bool)
    requires Coalesced(msgs, groups, is6, DataOf(bufs), true) && Greedy(msgs, groups, is6)
      && InOwnBuffer(msgs, groups, bufs) && OneSize(bufs, is6)
    ensures |msgs| == 1
  {
    hide OneSize, Refuses;
    SomeBufs(bufs, is6);
    assert Ungroup([]) == [];
    if |msgs| > 1 {
      assert LeftFull(msgs, groups, is6, 0);
      UngroupStarts(groups);
      var data := DataOf(bufs);
      assert forall i :: 0 <= i < |groups[0] + groups[1]| ==> data[i] == (groups[0] + groups[1])[i];
      assert groups[..0] == [] && Carries(msgs[0], groups[0], is6, GsoOf(groups[0]));
      assert (groups[0] + groups[1])[|groups[0]|] == groups[1][0];
      NotRefused(msgs[0], groups[0], bufs, is6, GsoOf(groups[0]));
    }
  }

  lemma SomeBufs(bufs: seq<Datagram>, is6: bool)
    ensures OneSize(bufs, is6) ==> bufs != []
  {
  }

  /** Lines 471-481: one more datagram for the last message. */
  method Extend(msgs0: seq<Message>, buf: Datagram, gsoSize: nat, dgramCnt: nat, last: bool, is6: bool,
                ghost groups0: Groups, ghost data: seq<seq<byte>>)
    returns (msgs: seq<Message>, endBatch: bool, ghost groups: Groups)
    requires Coalesced(msgs0, groups0, is6, data, false) && Greedy(msgs0, groups0, is6)
      && Last(groups0, gsoSize, dgramCnt, false) && msgs0 != []
    requires dgramCnt < UDP_SEGMENT_MAX_DATAGRAMS && |buf.data| <= gsoSize
    requires var base := msgs0[|msgs0| - 1];
      |buf.data| + |base.data| <= MaxPayload(is6) && |base.data| <= base.cap && |buf.data| <= base.cap - |base.data|
    ensures Coalesced(msgs, groups, is6, data + [buf.data], last) && Last(groups, gsoSize, dgramCnt + 1, endBatch)
      && Greedy(msgs, groups, is6)
    ensures |msgs| == |msgs0| && |msgs[|msgs| - 1].data| <= msgs[|msgs| - 1].cap
    ensures |groups| == |groups0| && groups[..|groups| - 1] == groups0[..|groups| - 1] && SameCaps(msgs0, msgs)
  {
    hide Ungroup, Flat, Greedy, Refuses;
    var base := |msgs0| - 1;
    ghost var group := groups0[base];
    EvenAppend(group, buf.data);
    groups := groups0[..base] + [group + [buf.data]];
    assert groups == groups0[base := group + [buf.data]];
    assert groups0 == groups0[..base] + [group];
    GroupAppend(groups0[..base], group, buf.data);
    msgs := msgs0[base := msgs0[base].(data := msgs0[base].data + buf.data)];
    SizeFits(group, msgs[base].data, is6);
    if last {
      msgs := msgs[base := msgs[base].(gso := gsoSize)];
    }
    endBatch := |buf.data| < gsoSize;
    GreedyExtend(msgs0, groups0, is6, msgs[base].data, msgs[base].gso, buf.data);
    assert msgs == msgs0[base := Message(msgs[base].data, msgs0[base].cap, msgs[base].gso)];
  }

  /** Lines 484-495: the datagram starts a message of its own. */
  method StartNext(msgs0: seq<Message>, buf: Datagram, gsoSize: nat, dgramCnt: nat, is6: bool, ghost groups0: Groups,
                   ghost endBatch: bool, ghost data: seq<seq<byte>>, ghost closed: bool)
    returns (msgs: seq<Message>, ghost groups: Groups)
    requires Coalesced(msgs0, groups0, is6, data, false) && Greedy(msgs0, groups0, is6)
      && Last(groups0, gsoSize, dgramCnt, endBatch)
    requires |buf.data| <= buf.cap && Refuses(msgs0[|msgs0| - 1], groups0[|msgs0| - 1], buf.data, is6)
    ensures Coalesced(msgs, groups, is6, data + [buf.data], closed) && Last(groups, |buf.data|, 1, false)
      && Greedy(msgs, groups, is6)
    ensures |msgs| == |msgs0| + 1 && msgs[|msgs| - 1] == Message(buf.data, buf.cap, 0)
    ensures |groups| == |groups0| + 1 && groups[..|groups| - 1] == groups0 && SameCaps(msgs0, msgs)
  {
    hide Ungroup, Flat, Greedy, Refuses;
    var base := |msgs0| - 1;
    msgs := msgs0;
    ghost var group := groups0[base];
    if dgramCnt > 1 {
      SizeFits(group, msgs[base].data, is6);
      msgs := msgs[base := msgs[base].(gso := gsoSize)];
    }
    GreedyNext(msgs0, groups0, is6, msgs[base].gso, Message(buf.data, buf.cap, 0), buf.data);
    assert msgs == msgs0[base := msgs0[base].(gso := msgs[base].gso)];
    msgs := msgs + [Message(buf.data, buf.cap, 0)];
    groups := groups0 + [[buf.data]];
    assert groups0 == groups0[..base] + [group];
    GroupAppend(groups0[..base], group, buf.data);
    FlatOne(buf.data);
  }

  /** The first datagram starts a message. */
  method StartFirst(buf: Datagram, is6: bool, ghost closed: bool) returns (msgs: seq<Message>, ghost groups: Groups)
    requires |buf.data| <= buf.cap
    ensures Coalesced(msgs, groups, is6, [buf.data], closed) && Last(groups, |buf.data|, 1, false)
    ensures |msgs| == 1 && msgs[0].data == buf.data && msgs[0].cap == buf.cap && |groups| == 1
      && Greedy(msgs, groups, is6)
  {
    msgs, groups := [Message(buf.data, buf.cap, 0)], [[buf.data]];
    FlatOne(buf.data);
    UngroupOne(groups[0]);
  }

  /**
   * Lines 450-498: every datagram goes into one message, in order, and every message is one the kernel takes. Datagrams
   * of one size that fit one message go into one.
   */
  method CoalesceMessages(bufs: seq<Datagram>, is6: bool) returns (msgs: seq<Message>)
    requires forall i :: 0 <= i < |bufs| ==> |bufs[i].data| <= bufs[i].cap
    ensures exists groups ::
      Coalesced(msgs, groups, is6, DataOf(bufs), true) && Greedy(msgs, groups, is6) && InOwnBuffer(msgs, groups, bufs)
    ensures OneSize(bufs, is6) ==> |msgs| == 1
  {
    hide OneSize;
    SomeBufs(bufs, is6);
    ghost var groups: Groups := [];
    msgs := [];
    if bufs == [] {
      assert Coalesced(msgs, groups, is6, DataOf(bufs), true) && Greedy(msgs, groups, is6)
        && InOwnBuffer(msgs, groups, bufs);
      return;
    }
    msgs, groups := CoalesceSome(bufs, is6);
    assert DataOf(bufs)[..|bufs|] == DataOf(bufs);
    if OneSize(bufs, is6) {
      AllInFirst(msgs, groups, bufs, is6);
    }
  }

  /** What holds of the messages after `i` datagrams. */
  ghost predicate SoFar(msgs: seq<Message>, groups: Groups, is6: bool, bufs: seq<Datagram>, i: nat)
    requires i <= |bufs|
  {
    && Coalesced(msgs, groups, is6, DataOf(bufs)[..i], i == |bufs|) && Greedy(msgs, groups, is6)
    && InOwnBuffer(msgs, groups, bufs)
    && msgs != [] && |msgs[|msgs| - 1].data| <= msgs[|msgs| - 1].cap
  }

  /** Lines 460-496: one datagram. */
  method AddOne(bufs: seq<Datagram>, i: nat, msgs0: seq<Message>, gsoSize0: nat, dgramCnt0: nat, endBatch0: bool,
                is6: bool, ghost groups0: Groups)
    returns (msgs: seq<Message>, gsoSize: nat, dgramCnt: nat, endBatch: bool, ghost groups: Groups)
    requires i < |bufs| && |bufs[i].data| <= bufs[i].cap
    requires SoFar(msgs0, groups0, is6, bufs, i) && Last(groups0, gsoSize0, dgramCnt0, endBatch0)
    ensures SoFar(msgs, groups, is6, bufs, i + 1) && Last(groups, gsoSize, dgramCnt, endBatch)
  {
    ghost var data := DataOf(bufs);
    Grouped(msgs0, groups0, is6, data[..i], i == |bufs|);
    hide Coalesced, Greedy, InOwnBuffer, SameCaps;
    gsoSize, dgramCnt, endBatch := gsoSize0, dgramCnt0, endBatch0;
    var buf, base := bufs[i], |msgs0| - 1;
    var msgLen, baseLenBefore := |buf.data|, |msgs0[base].data|;
    var freeBaseCap := msgs0[base].cap - baseLenBefore;
    assert data[..i + 1] == data[..i] + [buf.data];
    if msgLen + baseLenBefore <= MaxPayload(is6) && msgLen <= gsoSize && msgLen <= freeBaseCap
      && dgramCnt < UDP_SEGMENT_MAX_DATAGRAMS && !endBatch {
      msgs, endBatch, groups := Extend(msgs0, buf, gsoSize, dgramCnt, i == |bufs| - 1, is6, groups0, data[..i]);
      dgramCnt := dgramCnt + 1;
      BuffersKept(msgs0, groups0, msgs, groups, bufs);
    } else {
      msgs, groups := StartNext(msgs0, buf, gsoSize, dgramCnt, is6, groups0, endBatch, data[..i], i == |bufs| - 1);
      endBatch, gsoSize, dgramCnt := false, msgLen, 1;
      BuffersNext(msgs0, groups0, msgs, groups, bufs);
    }
  }

  method CoalesceSome(bufs: seq<Datagram>, is6: bool) returns (msgs: seq<Message>, ghost groups: Groups)
    requires bufs != [] && forall i :: 0 <= i < |bufs| ==> |bufs[i].data| <= bufs[i].cap
    ensures SoFar(msgs, groups, is6, bufs, |bufs|)
  {
    var gsoSize: nat, dgramCnt: nat, endBatch := |bufs[0].data|, 1, false;
    msgs, groups := StartFirst(bufs[0], is6, |bufs| == 1);
    assert DataOf(bufs)[..1] == [bufs[0].data] && Ungroup(groups[..0]) == [];
    hide SoFar, Coalesced, Greedy, InOwnBuffer;
    for i := 1 to |bufs|
      invariant SoFar(msgs, groups, is6, bufs, i) && Last(groups, gsoSize, dgramCnt, endBatch)
    {
      msgs, gsoSize, dgramCnt, endBatch, groups := AddOne(bufs, i, msgs, gsoSize, dgramCnt, endBatch, is6, groups);
    }
  }

  lemma Grouped(msgs: seq<Message>, groups: Groups, is6: bool, data: seq<seq<byte>>, closed: bool)
    requires Coalesced(msgs, groups, is6, data, closed)
    ensures Ungroup(groups) == data
  {
  }

  /**
   * A received message: its buffer, how much of it was filled, the segment size in its control data, which may not
   * parse, and the sender.
   */
  datatype Received = Received(buf: seq<byte>, n: nat, gso: Option<uint16>, addr: nat)

  /** A message whose control data parses, and whose sizes are within its buffer. */
  predicate Sound(m: Received) {
    m.n <= |m.buf| && m.gso.Some? && m.gso.value <= |m.buf|
  }

  /** Lines 512-521. */
  function NumToSplit(m: Received): nat
    requires Sound(m)
  {
    if m.gso.value == 0 then 1 else (m.n + m.gso.value - 1) / m.gso.value
  }

  /** Where piece `j` ends: the first is taken whole, even if the message is shorter. */
  function PieceEnd(m: Received, j: nat): nat
    requires Sound(m)
  {
    if m.gso.value == 0 then m.n
    else if j == 0 then m.gso.value
    else if m.gso.value * j + m.gso.value > m.n then m.n
    else m.gso.value * j + m.gso.value
  }

  lemma PieceFits(m: Received, j: nat)
    requires Sound(m) && j < NumToSplit(m)
    ensures m.gso.value * j <= PieceEnd(m, j) <= |m.buf|
    ensures j > 0 ==> m.gso.value * j < m.n && PieceEnd(m, j - 1) == m.gso.value * j
  {
    var g := m.gso.value;
    if g > 0 && j > 0 {
      BeforeEnd(m.n, g, j);
      assert g * (j - 1) + g == g * j;
    }
  }

  /** A piece that is not the first starts before the end of the message. */
  lemma BeforeEnd(n: nat, g: nat, j: nat)
    requires g > 0 && j < (n + g - 1) / g
    ensures g * j < n
  {
    var q := (n + g - 1) / g;
    assert g * q <= n + g - 1;
    Product(g, j + 1, q);
    assert g * (j + 1) == g * j + g;
  }

  lemma Product(g: nat, a: nat, b: nat)
    requires a <= b
    ensures g * a <= g * b
  {
  }

  /** One datagram of a received message, and who sent it. */
  function Piece(m: Received, j: nat): (seq<byte>, nat)
    requires Sound(m) && j < NumToSplit(m)
  {
    PieceFits(m, j);
    (m.buf[m.gso.value * j..PieceEnd(m, j)], m.addr)
  }

  ghost function Pieces(m: Received, k: nat): (r: seq<(seq<byte>, nat)>)
    requires Sound(m) && k <= NumToSplit(m)
    ensures |r| == k && forall j :: 0 <= j < k ==> r[j] == Piece(m, j)
  {
    seq(k, j requires 0 <= j < k => Piece(m, j))
  }

  ghost function PieceData(m: Received, k: nat): (r: seq<seq<byte>>)
    requires Sound(m) && k <= NumToSplit(m)
    ensures |r| == k && forall j :: 0 <= j < k ==> r[j] == Piece(m, j).0
  {
    seq(k, j requires 0 <= j < k => Piece(m, j).0)
  }

  lemma {:induction false} PiecesJoin(m: Received, k: nat)
    requires Sound(m) && 0 < k <= NumToSplit(m)
    ensures PieceEnd(m, k - 1) <= |m.buf| && Flat(PieceData(m, k)) == m.buf[..PieceEnd(m, k - 1)]
  {
    PieceFits(m, k - 1);
    hide NumToSplit;
    var last := Piece(m, k - 1).0;
    assert PieceData(m, k) == PieceData(m, k - 1) + [last];
    FlatConcat(PieceData(m, k - 1), [last]);
    FlatOne(last);
    if k > 1 {
      PiecesJoin(m, k - 1);
      assert m.buf[..m.gso.value * (k - 1)] + last == m.buf[..PieceEnd(m, k - 1)];
    } else {
      assert PieceData(m, 0) == [];
    }
  }

  /** The pieces are what was received exactly if the segment size is no larger; else they are bytes that were not. */
  lemma ReceivedExactly(m: Received)
    requires Sound(m) && m.n > 0
    ensures Flat(PieceData(m, NumToSplit(m))) == m.buf[..m.n] <==> m.gso.value <= m.n
  {
    var g, k := m.gso.value, NumToSplit(m);
    if g > m.n {
      CeilDiv(m.n, g, 1);
    } else if g > 0 {
      LastReaches(m.n, g, k);
    }
    PiecesJoin(m, k);
  }

  lemma LastReaches(n: nat, g: nat, k: nat)
    requires 0 < g <= n && k == (n + g - 1) / g
    ensures k > 0 && g * (k - 1) + g >= n && (k == 1 ==> g == n)
  {
    assert g * k > n - 1;
    assert g * (k - 1) + g == g * k;
  }

  /** The datagrams of messages `first` to `i`. */
  ghost function Total(ms: seq<Received>, first: nat, i: nat): seq<(seq<byte>, nat)>
    requires first <= i <= |ms| && forall k :: first <= k < i ==> Sound(ms[k])
  {
    if i == first then [] else Total(ms, first, i - 1) + Pieces(ms[i - 1], NumToSplit(ms[i - 1]))
  }

  /** Where the datagrams of message `k` are among all, and from whom. */
  lemma {:induction false} TotalAt(ms: seq<Received>, first: nat, stop: nat, k: nat, j: nat)
    requires first <= k < stop <= |ms| && (forall i :: first <= i < stop ==> Sound(ms[i])) && j < NumToSplit(ms[k])
    ensures var p := |Total(ms, first, k)| + j;
      p < |Total(ms, first, stop)| && Total(ms, first, stop)[p] == (Piece(ms[k], j).0, ms[k].addr)
  {
    hide NumToSplit;
    if k < stop - 1 {
      TotalAt(ms, first, stop - 1, k, j);
    }
  }

  /** Datagram `j` of message `k` has that message's sender. */
  ghost predicate SenderKept(msgs: seq<Received>, was: seq<Received>, first: nat, k: nat, j: nat)
    requires first <= k < |was| && forall i :: first <= i < k ==> Sound(was[i])
  {
    |Total(was, first, k)| + j < |msgs| && msgs[|Total(was, first, k)| + j].addr == was[k].addr
  }

  ghost predicate SendersKept(msgs: seq<Received>, was: seq<Received>, first: nat, stop: nat)
    requires first <= stop <= |was| && forall k :: first <= k < stop ==> Sound(was[k])
  {
    forall k: nat, j: nat {:trigger SenderKept(msgs, was, first, k, j)} ::
      first <= k < stop && j < NumToSplit(was[k]) ==> SenderKept(msgs, was, first, k, j)
  }

  lemma PlacedSenders(msgs: seq<Received>, was: seq<Received>, first: nat, stop: nat)
    requires first <= stop <= |was| && (forall k :: first <= k < stop ==> Sound(was[k]))
      && Placed(msgs, Total(was, first, stop))
    ensures SendersKept(msgs, was, first, stop)
  {
    hide NumToSplit;
    forall k: nat, j: nat | first <= k < stop && j < NumToSplit(was[k])
      ensures SenderKept(msgs, was, first, k, j)
    {
      TotalAt(was, first, stop, k, j);
    }
  }

  datatype SplitError = NoError | Overflow | BadControl

  /** The first messages are the datagrams, each in its own buffer. */
  ghost predicate Placed(msgs: seq<Received>, all: seq<(seq<byte>, nat)>) {
    && |all| <= |msgs|
    && forall k ::
      0 <= k < |all| ==> msgs[k].n <= |msgs[k].buf| && msgs[k].buf[..msgs[k].n] == all[k].0 && msgs[k].addr == all[k].1
  }

  /** Nothing that is still to be read has changed. */
  ghost predicate Unread(msgs: seq<Received>, was: seq<Received>, i: nat) {
    |msgs| == |was| && forall k :: i <= k < |was| ==> msgs[k] == was[k]
  }

  ghost predicate Roomy(msgs: seq<Received>, size: nat) {
    forall k :: 0 <= k < |msgs| ==> |msgs[k].buf| == size
  }

  /**
   * Lines 522-535: the datagrams of one message move to the next free messages, which may be the message itself only
   * for the last.
   */
  method SplitOne(msgs: array<Received>, i: nat, n0: nat, size: nat, ghost was: seq<Received>,
                  ghost all: seq<(seq<byte>, nat)>)
    returns (n: nat, overflow: bool)
    requires i < msgs.Length && n0 <= i && |was| == msgs.Length && Sound(was[i]) && Roomy(msgs[..], size)
    requires Unread(msgs[..], was, i) && n0 == |all| && Placed(msgs[..], all)
    modifies msgs
    ensures Roomy(msgs[..], size) && (overflow <==> n0 + NumToSplit(was[i]) > i + 1)
    ensures !overflow ==> n == n0 + NumToSplit(was[i]) <= i + 1 && Unread(msgs[..], was, i + 1)
    ensures !overflow ==> Placed(msgs[..], all + Pieces(was[i], NumToSplit(was[i])))
  {
    var gsoSize, start, end, numToSplit := msgs[i].gso.value, 0, msgs[i].n, 1;
    var msgN := msgs[i].n;
    if gsoSize > 0 {
      numToSplit := (msgN + gsoSize - 1) / gsoSize;
      end := gsoSize;
    }
    n := n0;
    for j := 0 to numToSplit
      invariant n == n0 + j <= i + 1 && Roomy(msgs[..], size) && Unread(msgs[..], was, i + 1)
      invariant n <= i ==> msgs[i] == was[i]
      invariant j < numToSplit ==> start == gsoSize * j && end == PieceEnd(was[i], j)
      invariant Placed(msgs[..], all + Pieces(was[i], j))
    {
      if n > i {
        return n, true;
      }
      MoveOne(msgs, i, n, start, end, size, was, all, j);
      start := end;
      end := end + gsoSize;
      if end > msgN {
        end := msgN;
      }
      n := n + 1;
      if j + 1 < numToSplit {
        PieceFits(was[i], j + 1);
      }
    }
    overflow := false;
  }

  /** Lines 526-528. */
  method MoveOne(msgs: array<Received>, i: nat, n: nat, start: nat, end: nat, size: nat, ghost was: seq<Received>,
                 ghost all: seq<(seq<byte>, nat)>, ghost j: nat)
    requires n <= i < msgs.Length == |was| && Sound(was[i]) && j < NumToSplit(was[i]) && msgs[i] == was[i]
      && Roomy(msgs[..], size)
    requires start == was[i].gso.value * j && end == PieceEnd(was[i], j) && n == |all| + j
    requires Unread(msgs[..], was, i + 1) && Placed(msgs[..], all + Pieces(was[i], j))
    modifies msgs
    ensures Roomy(msgs[..], size) && Unread(msgs[..], was, i + 1) && (n < i ==> msgs[i] == was[i])
    ensures Placed(msgs[..], all + Pieces(was[i], j + 1))
  {
    PieceFits(was[i], j);
    var piece := msgs[i].buf[start..end];
    assert all + Pieces(was[i], j + 1) == all + Pieces(was[i], j) + [Piece(was[i], j)];
    ghost var before := msgs[..];
    msgs[n] := msgs[n].(buf := Over(msgs[n].buf, 0, piece), n := |piece|, addr := msgs[i].addr);
    assert msgs[n].buf[..msgs[n].n] == piece;
    assert forall k :: 0 <= k < msgs.Length && k != n ==> msgs[..][k] == before[k];
  }

  /** Where the messages end: at the first empty one. */
  function Stop(ms: seq<Received>, first: nat): (stop: nat)
    requires first <= |ms|
    ensures first <= stop <= |ms| && (stop < |ms| ==> ms[stop].n == 0) && forall k :: first <= k < stop ==> ms[k].n != 0
    decreases |ms| - first
  {
    if first == |ms| || ms[first].n == 0 then first else Stop(ms, first + 1)
  }

  /** Line 540. */
  method ClearOne(msgs: array<Received>, i: nat, size: nat, ghost was: seq<Received>, ghost all: seq<(seq<byte>, nat)>)
    requires |all| <= i < msgs.Length && Roomy(msgs[..], size) && Unread(msgs[..], was, i + 1) && Placed(msgs[..], all)
    modifies msgs
    ensures Roomy(msgs[..], size) && Unread(msgs[..], was, i + 1) && Placed(msgs[..], all)
  {
    ghost var before := msgs[..];
    msgs[i] := msgs[i].(n := 0);
    assert forall k :: 0 <= k < msgs.Length && k != i ==> msgs[..][k] == before[k];
  }

  /** The datagrams of the messages before `i` fit before `i`. */
  ghost predicate Fits(ms: seq<Received>, first: nat, i: nat)
    requires first <= i <= |ms| && forall k :: first <= k < i ==> Sound(ms[k])
  {
    |Total(ms, first, i)| <= i
  }

  ghost predicate AllSound(ms: seq<Received>, first: nat, i: nat) {
    i <= |ms| && forall k :: first <= k < i ==> Sound(ms[k])
  }

  ghost predicate AllFit(ms: seq<Received>, first: nat, stop: nat)
    requires first <= stop <= |ms| && AllSound(ms, first, stop)
  {
    forall i {:trigger Fits(ms, first, i)} :: first <= i <= stop ==> Fits(ms, first, i)
  }

  lemma NextFits(ms: seq<Received>, first: nat, i: nat, n: nat)
    requires first <= i < |ms| && AllSound(ms, first, i + 1) && AllFit(ms, first, i) && n == |Total(ms, first, i)|
    ensures Fits(ms, first, i + 1) <==> n + NumToSplit(ms[i]) <= i + 1
    ensures AllFit(ms, first, i + 1) <==> n + NumToSplit(ms[i]) <= i + 1
    ensures Total(ms, first, i + 1) == Total(ms, first, i) + Pieces(ms[i], NumToSplit(ms[i]))
  {
    if n + NumToSplit(ms[i]) <= i + 1 {
      forall k | first <= k <= i + 1
        ensures Fits(ms, first, k)
      {
        assert k <= i ==> Fits(ms, first, k);
      }
    }
  }

  /**
   * Lines 502-544: the datagrams of all messages, one to a message and in order, unless they do not fit before what is
   * unread.
   */
  method SplitCoalescedMessages(msgs: array<Received>, firstMsgAt: nat, size: nat) returns (n: nat, err: SplitError)
    requires firstMsgAt <= msgs.Length && Roomy(msgs[..], size)
    requires forall k ::
      firstMsgAt <= k < msgs.Length ==> msgs[k].n <= size && (msgs[k].gso.Some? ==> msgs[k].gso.value <= size)
    modifies msgs
    ensures var was := old(msgs[..]); var stop := Stop(was, firstMsgAt);
            if AllSound(was, firstMsgAt, stop) then
              && (err == if AllFit(was, firstMsgAt, stop) then NoError else Overflow)
              && (err == NoError ==>
                    n == |Total(was, firstMsgAt, stop)| && Placed(msgs[..], Total(was, firstMsgAt, stop))
                      && SendersKept(msgs[..], was, firstMsgAt, stop))
            else err != NoError
  {
    hide NumToSplit, Pieces, Placed, Total, Stop;
    ghost var was, stop := msgs[..], Stop(msgs[..], firstMsgAt);
    n, err := 0, NoError;
    var i := firstMsgAt;
    NothingYet(was, firstMsgAt);
    while i < msgs.Length
      invariant firstMsgAt <= i <= stop && Roomy(msgs[..], size) && Unread(msgs[..], was, i)
      invariant AllSound(was, firstMsgAt, i) && AllFit(was, firstMsgAt, i)
      invariant n == |Total(was, firstMsgAt, i)| <= i && Placed(msgs[..], Total(was, firstMsgAt, i))
    {
      assert msgs[i] == was[i];
      if msgs[i].n == 0 {
        PlacedSenders(msgs[..], was, firstMsgAt, stop);
        return n, NoError;
      }
      assert i < stop;
      if msgs[i].gso == None {
        return n, BadControl;
      }
      assert Sound(was[i]);
      NextFits(was, firstMsgAt, i, n);
      var overflow;
      n, overflow := SplitOne(msgs, i, n, size, was, Total(was, firstMsgAt, i));
      if overflow {
        assert !Fits(was, firstMsgAt, i + 1);
        return n, Overflow;
      }
      if i != n - 1 {
        ClearOne(msgs, i, size, was, Total(was, firstMsgAt, i + 1));
      }
      i := i + 1;
    }
    PlacedSenders(msgs[..], was, firstMsgAt, stop);
  }

  /** One sender of all messages is the sender of all datagrams. */
  lemma {:induction false} OneSender(msgs: seq<Received>, was: seq<Received>, first: nat, stop: nat, a: nat, i: nat)
    requires first <= stop <= |was| && (forall k :: first <= k < stop ==> Sound(was[k]))
      && SendersKept(msgs, was, first, stop)
    requires (forall k :: first <= k < stop ==> was[k].addr == a) && i < |Total(was, first, stop)| <= |msgs|
    ensures msgs[i].addr == a
  {
    hide NumToSplit;
    var k, j := OwnerOf(was, first, stop, i);
    assert SenderKept(msgs, was, first, k, j);
  }

  /** Every datagram is one of some message's. */
  lemma {:induction false} OwnerOf(ms: seq<Received>, first: nat, stop: nat, i: nat) returns (k: nat, j: nat)
    requires first <= stop <= |ms| && (forall k :: first <= k < stop ==> Sound(ms[k])) && i < |Total(ms, first, stop)|
    ensures first <= k < stop && j < NumToSplit(ms[k]) && i == |Total(ms, first, k)| + j
  {
    hide NumToSplit;
    var before := |Total(ms, first, stop - 1)|;
    if i < before {
      k, j := OwnerOf(ms, first, stop - 1, i);
    } else {
      k, j := stop - 1, i - before;
    }
  }

  lemma NothingYet(was: seq<Received>, first: nat)
    requires first <= |was|
    ensures AllSound(was, first, first) && AllFit(was, first, first) && Total(was, first, first) == []
      && Placed(was, [])
  {
  }

  lemma {:induction false} PiecesBounded(ms: seq<Received>, first: nat, i: nat, per: nat)
    requires first <= i && AllSound(ms, first, i) && forall k :: first <= k < i ==> NumToSplit(ms[k]) <= per
    ensures |Total(ms, first, i)| <= per * (i - first)
    ensures (forall k :: first <= k < i ==> NumToSplit(ms[k]) == per) ==> |Total(ms, first, i)| == per * (i - first)
  {
    hide NumToSplit;
    if i > first {
      PiecesBounded(ms, first, i - 1, per);
      assert per * (i - first) == per * (i - 1 - first) + per;
    }
  }

  /** Messages of at most `per` datagrams fit, if they were read far enough back. */
  lemma LayoutFits(ms: seq<Received>, first: nat, stop: nat, per: nat)
    requires per > 0 && first <= stop && AllSound(ms, first, stop) && (per - 1) * (stop - first) <= first
    requires forall k :: first <= k < stop ==> NumToSplit(ms[k]) <= per
    ensures AllFit(ms, first, stop)
  {
    hide NumToSplit, Total;
    forall i | first <= i <= stop
      ensures Fits(ms, first, i)
    {
      PiecesBounded(ms, first, i, per);
      Product(per - 1, i - first, stop - first);
      assert per * (i - first) == (per - 1) * (i - first) + (i - first);
    }
  }

  /** And no nearer to the front would do, if they are full. */
  lemma LayoutTight(ms: seq<Received>, first: nat, stop: nat, per: nat)
    requires per > 0 && first <= stop && AllSound(ms, first, stop)
    requires forall k :: first <= k < stop ==> NumToSplit(ms[k]) == per
    ensures AllFit(ms, first, stop) <==> (per - 1) * (stop - first) <= first
  {
    hide NumToSplit, Total;
    PiecesBounded(ms, first, stop, per);
    assert per * (stop - first) == (per - 1) * (stop - first) + (stop - first);
    if (per - 1) * (stop - first) <= first {
      LayoutFits(ms, first, stop, per);
    } else {
      assert !Fits(ms, first, stop);
    }
  }

  /** Line 243: where the receiver reads to, so that full messages can be split. */
  function ReadAt(n: nat): nat
    requires n >= IDEAL_BATCH_SIZE / UDP_SEGMENT_MAX_DATAGRAMS
  {
    n - IDEAL_BATCH_SIZE / UDP_SEGMENT_MAX_DATAGRAMS
  }

  /** The receiver's own layout never overflows. */
  lemma NeverOverflows(ms: seq<Received>, stop: nat)
    requires |ms| == IDEAL_BATCH_SIZE && ReadAt(|ms|) <= stop && AllSound(ms, ReadAt(|ms|), stop)
    requires forall k :: ReadAt(|ms|) <= k < stop ==> NumToSplit(ms[k]) <= UDP_SEGMENT_MAX_DATAGRAMS
    ensures AllFit(ms, ReadAt(|ms|), stop)
  {
    LayoutFits(ms, ReadAt(|ms|), stop, UDP_SEGMENT_MAX_DATAGRAMS);
  }

  /** The network has brought a message over whole, with its control data. */
  ghost predicate Delivered(m: Message, r: Received) {
    Sound(r) && r.n == |m.data| && r.buf[..r.n] == m.data && r.gso == Some(m.gso)
  }

  ghost predicate NoneEmpty(s: seq<seq<byte>>) {
    forall i :: 0 <= i < |s| ==> s[i] != []
  }

  lemma GroupRegular(group: seq<seq<byte>>)
    requires Even(group) && NoneEmpty(group)
    ensures Regular(group, |group[0]|)
  {
  }

  lemma CeilDiv(n: nat, g: nat, k: nat)
    requires k > 0 && g > 0 && g * (k - 1) < n <= g * k
    ensures (n + g - 1) / g == k
  {
    var q: int := (n + g - 1) / g;
    assert g * (k - 1) + g == g * k;
    assert g * q <= n + g - 1 < g * q + g;
    assert g * (q - k) == g * q - g * k;
    SmallMultiple(g, q - k);
  }

  lemma SmallMultiple(g: int, d: int)
    requires g > 0 && -g < g * d < g
    ensures d == 0
  {
    assert d >= 1 ==> g * d >= g;
    assert d <= -1 ==> g * d <= -g;
  }

  /** Piece `j` of a delivered message is datagram `j` of its group. */
  lemma PieceDelivered(m: Message, group: seq<seq<byte>>, r: Received, is6: bool, j: nat)
    requires Carries(m, group, is6, GsoOf(group)) && NoneEmpty(group) && Delivered(m, r) && j < |group|
    ensures NumToSplit(r) == |group| && Piece(r, j).0 == group[j]
  {
    GroupRegular(group);
    var g := |group[0]|;
    JoinedCount(group, g);
    if |group| == 1 {
      FlatOne(group[0]);
      assert group == [group[0]];
    } else {
      CeilDiv(|m.data|, g, |group|);
      CutJoined(group, g, j);
      PieceFits(r, j);
      assert j == 0 ==> g * 1 <= g * (|group| - 1);
      PieceIsChunk(r, m.data, g, j);
    }
  }

  lemma PieceIsChunk(r: Received, data: seq<byte>, g: nat, j: nat)
    requires Sound(r) && r.gso == Some(g) && g > 0 && r.n == |data| && r.buf[..r.n] == data && j < NumToSplit(r)
    requires g * j < |data| && (j == 0 ==> g <= |data|)
    ensures Piece(r, j).0 == Chunk(data, g, j)
  {
    PieceFits(r, j);
    var p := g * j;
    assert PieceEnd(r, j) == if p + g > |data| then |data| else p + g;
    assert forall k :: 0 <= k < |data| ==> r.buf[k] == data[k];
  }

  ghost predicate AllDelivered(msgs: seq<Message>, rs: seq<Received>, first: nat) {
    first + |msgs| <= |rs| && forall k :: 0 <= k < |msgs| ==> Delivered(msgs[k], rs[first + k])
  }

  lemma {:induction false} TotalDelivered(msgs: seq<Message>, groups: Groups, is6: bool, rs: seq<Received>, first: nat)
    requires |msgs| == |groups| && AllDelivered(msgs, rs, first)
    requires forall k :: 0 <= k < |msgs| ==> Carries(msgs[k], groups[k], is6, GsoOf(groups[k])) && NoneEmpty(groups[k])
    ensures AllSound(rs, first, first + |msgs|)
    ensures var total := Total(rs, first, first + |msgs|);
            |total| == |Ungroup(groups)| && forall i :: 0 <= i < |total| ==> total[i].0 == Ungroup(groups)[i]
  {
    hide Carries, NumToSplit, Piece;
    if msgs != [] {
      var n := |msgs| - 1;
      TotalDelivered(msgs[..n], groups[..n], is6, rs, first);
      var r, group := rs[first + n], groups[n];
      assert Delivered(msgs[n], r) && Carries(msgs[n], group, is6, GsoOf(group));
      GroupSize(msgs[n], group, is6);
      forall j: nat | j < |group|
        ensures NumToSplit(r) == |group| && Piece(r, j).0 == group[j]
      {
        PieceDelivered(msgs[n], group, r, is6, j);
      }
      PieceDelivered(msgs[n], group, r, is6, 0);
    }
  }

  lemma GroupSize(m: Message, group: seq<seq<byte>>, is6: bool)
    requires Carries(m, group, is6, GsoOf(group))
    ensures |group| > 0
  {
  }

  lemma {:induction false} GroupsNonEmpty(groups: Groups)
    requires NoneEmpty(Ungroup(groups))
    ensures forall k :: 0 <= k < |groups| ==> NoneEmpty(groups[k])
  {
    if groups != [] {
      var n := |groups| - 1;
      var front, all := Ungroup(groups[..n]), Ungroup(groups);
      assert all == front + groups[n];
      assert forall i :: 0 <= i < |front| ==> front[i] == all[i];
      assert forall i :: 0 <= i < |groups[n]| ==> groups[n][i] == all[|front| + i];
      GroupsNonEmpty(groups[..n]);
      assert forall k :: 0 <= k < n ==> groups[k] == groups[..n][k];
    }
  }

  /** The round trip: what was coalesced and delivered is split into the original datagrams, in order. */
  lemma RoundTrip(bufs: seq<Datagram>, msgs: seq<Message>, groups: Groups, is6: bool, rs: seq<Received>, first: nat)
    requires Coalesced(msgs, groups, is6, DataOf(bufs), true) && NoneEmpty(DataOf(bufs))
      && AllDelivered(msgs, rs, first)
    ensures AllSound(rs, first, first + |msgs|)
    ensures var total := Total(rs, first, first + |msgs|);
            |total| == |bufs| && forall i :: 0 <= i < |bufs| ==> total[i].0 == bufs[i].data
  {
    GroupsNonEmpty(groups);
    TotalDelivered(msgs, groups, is6, rs, first);
  }

  /** A message that carries datagrams, none of them empty, is not empty. */
  lemma NonEmptyMessage(m: Message, group: seq<seq<byte>>, is6: bool, gso: nat)
    requires Carries(m, group, is6, gso) && NoneEmpty(group)
    ensures m.data != []
  {
    assert group == [group[0]] + group[1..];
  }

  lemma StopIs(ms: seq<Received>, first: nat, end: nat)
    requires first <= end <= |ms| && (end < |ms| ==> ms[end].n == 0) && forall k :: first <= k < end ==> ms[k].n != 0
    ensures Stop(ms, first) == end
  {
  }

  /** What was coalesced and delivered ends where the messages do. */
  lemma DeliveredStop(sent: seq<Message>, groups: Groups, is6: bool, data: seq<seq<byte>>, rs: seq<Received>,
                      first: nat)
    requires Coalesced(sent, groups, is6, data, true) && NoneEmpty(data) && AllDelivered(sent, rs, first)
    requires first + |sent| < |rs| ==> rs[first + |sent|].n == 0
    ensures Stop(rs, first) == first + |sent|
  {
    hide Carries;
    GroupsNonEmpty(groups);
    forall k | first <= k < first + |sent|
      ensures rs[k].n != 0
    {
      assert Delivered(sent[k - first], rs[k]);
      NonEmptyMessage(sent[k - first], groups[k - first], is6, GsoOf(groups[k - first]));
    }
    StopIs(rs, first, first + |sent|);
  }

  /** A delivered message is split into the datagrams of its group, which are no more than the kernel takes. */
  lemma SplitsAgain(sent: seq<Message>, groups: Groups, is6: bool, data: seq<seq<byte>>, rs: seq<Received>, first: nat)
    requires Coalesced(sent, groups, is6, data, true) && NoneEmpty(data) && AllDelivered(sent, rs, first)
    ensures AllSound(rs, first, first + |sent|)
    ensures forall k :: first <= k < first + |sent| ==> NumToSplit(rs[k]) <= UDP_SEGMENT_MAX_DATAGRAMS
  {
    hide NumToSplit;
    GroupsNonEmpty(groups);
    forall k | first <= k < first + |sent|
      ensures Sound(rs[k]) && NumToSplit(rs[k]) <= UDP_SEGMENT_MAX_DATAGRAMS
    {
      assert Delivered(sent[k - first], rs[k]);
      PieceDelivered(sent[k - first], groups[k - first], rs[k], is6, 0);
    }
  }

  /**
   * Coalesced, delivered and split: the original datagrams, in order, each in a buffer of its own, unless they do not
   * fit, which does not happen in the receiver's own layout.
   */
  method SplitDelivered(msgs: array<Received>, firstMsgAt: nat, size: nat, ghost bufs: seq<Datagram>,
                        ghost sent: seq<Message>, ghost is6: bool)
    returns (n: nat, err: SplitError)
    requires exists groups :: Coalesced(sent, groups, is6, DataOf(bufs), true)
    requires NoneEmpty(DataOf(bufs)) && AllDelivered(sent, msgs[..], firstMsgAt)
    requires firstMsgAt + |sent| < msgs.Length ==> msgs[firstMsgAt + |sent|].n == 0
    requires Roomy(msgs[..], size)
    requires forall k ::
      firstMsgAt <= k < msgs.Length ==> msgs[k].n <= size && (msgs[k].gso.Some? ==> msgs[k].gso.value <= size)
    modifies msgs
    ensures AllSound(old(msgs[..]), firstMsgAt, firstMsgAt + |sent|)
    ensures err == if AllFit(old(msgs[..]), firstMsgAt, firstMsgAt + |sent|) then NoError else Overflow
    ensures msgs.Length == IDEAL_BATCH_SIZE && firstMsgAt == ReadAt(msgs.Length) ==> err == NoError
    ensures err == NoError ==> n == |bufs| <= msgs.Length
    ensures err == NoError ==>
      forall i :: 0 <= i < n ==> msgs[i].n <= |msgs[i].buf| && msgs[i].buf[..msgs[i].n] == bufs[i].data
    ensures err == NoError ==> SendersKept(msgs[..], old(msgs[..]), firstMsgAt, firstMsgAt + |sent|)
  {
    hide Coalesced, Stop, Total;
    ghost var was := msgs[..];
    ghost var groups :| Coalesced(sent, groups, is6, DataOf(bufs), true);
    DeliveredStop(sent, groups, is6, DataOf(bufs), was, firstMsgAt);
    RoundTrip(bufs, sent, groups, is6, was, firstMsgAt);
    SplitsAgain(sent, groups, is6, DataOf(bufs), was, firstMsgAt);
    if msgs.Length == IDEAL_BATCH_SIZE && firstMsgAt == ReadAt(msgs.Length) {
      NeverOverflows(was, firstMsgAt + |sent|);
    }
    n, err := SplitCoalescedMessages(msgs, firstMsgAt, size);
    assert err == NoError ==> forall i :: 0 <= i < n ==> msgs[..][i] == msgs[i];
  }
}
