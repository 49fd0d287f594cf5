/** Length-prefixed packets over TCP: wireguard-go/conn/bind_tcp.go, lines 50-61, 128-152 and 343-368. */
module TcpFraming {
  import opened Checksum
  import opened Options

  const MAX_SEGMENT_SIZE := 65535

  /** Lines 52-54. */
  function Len(l: seq<byte>): nat
    requires |l| == 4
  {
    0x100_0000 * ByteAt(l, 3) + 0x1_0000 * ByteAt(l, 2) + 0x100 * ByteAt(l, 1) + ByteAt(l, 0)
  }

  /** Lines 56-61. */
  function FromLen(n: nat): (l: seq<byte>)
    ensures |l| == 4
  {
    [n % 0x100, (n / 0x100) % 0x100, (n / 0x1_0000) % 0x100, (n / 0x100_0000) % 0x100]
  }

  lemma ShiftTwice(n: nat, k: nat)
    requires k in {0x100, 0x1_0000}
    ensures (n / k) / 0x100 == n / (k * 0x100)
  {
    var q, r := n / k, n % k;
    assert n == k * q + r && q == 0x100 * (q / 0x100) + q % 0x100;
    if k == 0x100 {
      assert n == 0x1_0000 * (q / 0x100) + (0x100 * (q % 0x100) + r);
    } else {
      assert n == 0x100_0000 * (q / 0x100) + (0x1_0000 * (q % 0x100) + r);
    }
  }

  lemma FourDigits(n: nat, a: nat, b: nat, c: nat, d: nat, r0: nat, r1: nat, r2: nat, r3: nat)
    requires n == 0x100 * a + r0 && a == 0x100 * b + r1 && b == 0x100 * c + r2 && c == 0x100 * d + r3
    requires r0 < 0x100 && r1 < 0x100 && r2 < 0x100 && r3 < 0x100
    ensures n % 0x1_0000_0000 == 0x100_0000 * r3 + 0x1_0000 * r2 + 0x100 * r1 + r0
  {
    LowWord(n, d, 0x100_0000 * r3 + 0x1_0000 * r2 + 0x100 * r1 + r0);
  }

  lemma LowWord(n: nat, d: nat, s: nat)
    requires n == 0x1_0000_0000 * d + s && s < 0x1_0000_0000
    ensures n % 0x1_0000_0000 == s
  {
  }

  /** The header holds a length exactly when it is a 32-bit number. */
  lemma LenFromLen(n: nat)
    ensures Len(FromLen(n)) == n % 0x1_0000_0000
  {
    var a, b, c := n / 0x100, n / 0x1_0000, n / 0x100_0000;
    ShiftTwice(n, 0x100);
    ShiftTwice(n, 0x1_0000);
    FourDigits(n, a, b, c, c / 0x100, n % 0x100, a % 0x100, b % 0x100, c % 0x100);
  }

  /** What `Send` puts on the wire for some packets. */
  function Encode(packets: seq<seq<byte>>): (r: seq<byte>) {
    if packets == [] then [] else FromLen(|packets[0]|) + packets[0] + Encode(packets[1..])
  }

  /** What the reader makes of the bytes of a connection: packets, until the stream ends or breaks. */
  function Decode(wire: seq<byte>): (packets: seq<seq<byte>>)
    decreases |wire|
  {
    if |wire| < 4 then [] else
      var size := Len(wire[..4]);
      if size > MAX_SEGMENT_SIZE || |wire| - 4 < size then [] else [wire[4..4 + size]] + Decode(wire[4 + size..])
  }

  predicate Sendable(packets: seq<seq<byte>>) {
    forall i :: 0 <= i < |packets| ==> |packets[i]| <= MAX_SEGMENT_SIZE
  }

  lemma ShortLen(n: nat)
    requires n < 0x1_0000_0000
    ensures Len(FromLen(n)) == n
  {
    hide Len, FromLen;
    LenFromLen(n);
    LowWord(n, 0, n);
  }

  lemma EncodeHead(packets: seq<seq<byte>>)
    requires packets != []
    ensures Encode(packets) == FromLen(|packets[0]|) + packets[0] + Encode(packets[1..])
  {
    hide FromLen;
  }

  lemma FrameParts(wire: seq<byte>, header: seq<byte>, body: seq<byte>, rest: seq<byte>)
    requires wire == header + body + rest && |header| == 4
    ensures wire[..4] == header && wire[4..4 + |body|] == body && wire[4 + |body|..] == rest
  {
  }

  /** The first frame of an encoding. */
  lemma FirstFrame(packets: seq<seq<byte>>, tail: seq<byte>)
    requires packets != [] && Sendable(packets)
    ensures var wire := Encode(packets) + tail;
            && |wire| >= 4 + |packets[0]| && Len(wire[..4]) == |packets[0]|
            && wire[4..4 + |packets[0]|] == packets[0] && wire[4 + |packets[0]|..] == Encode(packets[1..]) + tail
  {
    hide Len, FromLen, Encode;
    var header, rest := FromLen(|packets[0]|), Encode(packets[1..]);
    ShortLen(|packets[0]|);
    EncodeHead(packets);
    assert header + packets[0] + rest + tail == header + packets[0] + (rest + tail);
    FrameParts(Encode(packets) + tail, header, packets[0], rest + tail);
  }

  /**
   * The round trip: packets of at most 65535 bytes come out of the stream as they went in, before whatever follows
   * them.
   */
  lemma {:induction false} DecodeEncode(packets: seq<seq<byte>>, tail: seq<byte>)
    requires Sendable(packets)
    ensures Decode(Encode(packets) + tail) == packets + Decode(tail)
    decreases |packets|
  {
    if packets == [] {
      assert Encode(packets) + tail == tail;
    } else {
      hide Len, FromLen, Encode;
      FirstFrame(packets, tail);
      DecodeEncode(packets[1..], tail);
      assert packets == [packets[0]] + packets[1..];
    }
  }

  /** A longer packet breaks the stream: nothing from it on is delivered. */
  lemma OversizedBreaks(packets: seq<seq<byte>>, big: seq<byte>, tail: seq<byte>)
    requires Sendable(packets) && MAX_SEGMENT_SIZE < |big| < 0x1_0000_0000
    ensures Decode(Encode(packets) + (FromLen(|big|) + big + tail)) == packets
  {
    hide Len, FromLen;
    DecodeEncode(packets, FromLen(|big|) + big + tail);
    ShortLen(|big|);
    FrameParts(FromLen(|big|) + big + tail, FromLen(|big|), big, tail);
  }

  /** A connection: the bytes that have been sent and not yet read, and whether its sender has closed it. */
  class Conn {
    var wire: seq<byte>
    var closed: bool

    constructor (wire: seq<byte>)
      ensures this.wire == wire && !closed
    {
      this.wire, closed := wire, false;
    }

    /** One read: some of the bytes asked for, as many as have arrived, or none at the end of the stream. */
    method Read(want: nat) returns (got: seq<byte>)
      requires want > 0
      modifies this
      ensures old(wire) == got + wire && |got| <= want && (old(wire) != [] ==> got != [])
    {
      if wire == [] {
        return [];
      }
      var n: nat :| 0 < n <= want && n <= |wire|;
      got, wire := wire[..n], wire[n..];
    }

    /** `io.ReadFull`: however the bytes arrive, either all that were asked for, or everything there was. */
    method ReadFull(size: nat) returns (got: seq<byte>, err: bool)
      modifies this
      ensures old(wire) == got + wire
      ensures if err then |got| < size && wire == [] else |got| == size
    {
      got, err := [], false;
      while |got| < size
        invariant old(wire) == got + wire && |got| <= size
        decreases size - |got|
      {
        var some := Read(size - |got|);
        if some == [] {
          return got, true;
        }
        got := got + some;
      }
    }

    /** Lines 128-152: the next packet, or the end of the connection. */
    method ReadPacket() returns (packet: Option<seq<byte>>)
      modifies this
      ensures packet.Some? ==> Decode(old(wire)) == [packet.value] + Decode(wire) && |wire| < |old(wire)|
      ensures packet == None ==> Decode(old(wire)) == []
    {
      var header, err := ReadFull(4);
      if err {
        return None;
      }
      var size := Len(header);
      if size > MAX_SEGMENT_SIZE {
        assert old(wire)[..4] == header;
        return None;
      }
      var body;
      body, err := ReadFull(size);
      assert old(wire)[..4] == header;
      if err {
        return None;
      }
      assert old(wire)[4..4 + size] == body && old(wire)[4 + size..] == wire;
      return Some(body);
    }

    /** Lines 118-160, one connection alone: every packet, in order, whatever the chunks. */
    method ReadAll() returns (packets: seq<seq<byte>>)
      modifies this
      ensures packets == Decode(old(wire))
    {
      packets := [];
      while true
        invariant Decode(old(wire)) == packets + Decode(wire)
        decreases |wire|
      {
        var packet := ReadPacket();
        if packet == None {
          return;
        }
        packets := packets + [packet.value];
      }
    }
  }

  /** What the network makes of one write: the bytes that went out, and whether it reports an error. */
  datatype Write = Write(n: nat, failed: bool)

  function Frame(packet: seq<byte>): (f: seq<byte>)
    ensures |f| == 4 + |packet|
  {
    FromLen(|packet|) + packet
  }

  /** A packet behind its length, the least significant of four bytes first. */
  predicate FrameAt(wire: seq<byte>, at: nat, packet: seq<byte>) {
    && at + 4 + |packet| <= |wire|
    && wire[at] == |packet| % 0x100 && wire[at + 1] == |packet| / 0x100 % 0x100
    && wire[at + 2] == |packet| / 0x1_0000 % 0x100 && wire[at + 3] == |packet| / 0x100_0000 % 0x100
    && wire[at + 4..at + 4 + |packet|] == packet
  }

  /** Where the frame of packet `i` is. */
  lemma {:induction false} FramesAt(packets: seq<seq<byte>>, i: nat, head: seq<byte>, tail: seq<byte>)
    requires i < |packets|
    ensures FrameAt(head + Encode(packets) + tail, |head| + |Encode(packets[..i])|, packets[i])
  {
    var f := FromLen(|packets[0]|) + packets[0];
    EncodeHead(packets);
    if i == 0 {
      assert head + Encode(packets) + tail == head + f + (Encode(packets[1..]) + tail);
      assert packets[..0] == [];
      FirstAt(head, packets[0], Encode(packets[1..]) + tail);
    } else {
      hide FromLen, Encode, FrameAt;
      FramesAt(packets[1..], i - 1, head + f, tail);
      assert packets[1..][..i - 1] == packets[..i][1..] && packets[..i][0] == packets[0];
      EncodeHead(packets[..i]);
      assert head + Encode(packets) + tail == head + f + Encode(packets[1..]) + tail;
    }
  }

  lemma FirstAt(head: seq<byte>, packet: seq<byte>, rest: seq<byte>)
    ensures FrameAt(head + (FromLen(|packet|) + packet) + rest, |head|, packet)
  {
  }

  predicate Whole(w: Write, packet: seq<byte>) {
    !w.failed && w.n == 4 + |packet|
  }

  /**
   * Lines 343-368: what a connection carries after some packets have been sent on it. The first write that fails or is
   * short closes the connection, whatever has gone out of its frame.
   */
  method Send(conn: Conn, bufs: seq<seq<byte>>, writes: seq<Write>) returns (err: bool, ghost sent: nat)
    requires |writes| == |bufs| && forall i :: 0 <= i < |bufs| ==> writes[i].n <= 4 + |bufs[i]|
    requires !conn.closed
    modifies conn
    ensures sent <= |bufs| && forall i :: 0 <= i < sent ==> Whole(writes[i], bufs[i])
    ensures err <==> sent < |bufs|
    ensures err ==> !Whole(writes[sent], bufs[sent])
    ensures conn.closed == err
    ensures forall i :: 0 <= i < sent ==>
      FrameAt(conn.wire, |old(conn.wire)| + |Encode(bufs[..i])|, bufs[i])
    ensures conn.wire == old(conn.wire) + Encode(bufs[..sent]) + if err then Frame(bufs[sent])[..writes[sent].n] else []
  {
    hide Encode, FromLen, FrameAt;
    sent := 0;
    assert Encode(bufs[..0]) == [] by {
      EncodeNone();
    }
    for i := 0 to |bufs|
      invariant sent == i && !conn.closed && forall k :: 0 <= k < i ==> Whole(writes[k], bufs[k])
      invariant conn.wire == old(conn.wire) + Encode(bufs[..i])
    {
      var l := FromLen(|bufs[i]|);
      conn.wire := conn.wire + (l + bufs[i])[..writes[i].n];
      if writes[i].failed || writes[i].n != 4 + |bufs[i]| {
        conn.closed := true;
        AllAt(old(conn.wire), bufs, i, (l + bufs[i])[..writes[i].n]);
        return true, i;
      }
      EncodeAppend(bufs[..i], bufs[i]);
      assert bufs[..i + 1] == bufs[..i] + [bufs[i]];
      assert (l + bufs[i])[..writes[i].n] == l + bufs[i];
      sent := i + 1;
    }
    AllAt(old(conn.wire), bufs, |bufs|, []);
    return false, |bufs|;
  }

  lemma AllAt(head: seq<byte>, bufs: seq<seq<byte>>, n: nat, tail: seq<byte>)
    requires n <= |bufs|
    ensures forall i :: 0 <= i < n ==>
      FrameAt(head + Encode(bufs[..n]) + tail, |head| + |Encode(bufs[..i])|, bufs[i])
  {
    hide Encode, FrameAt;
    forall i | 0 <= i < n
      ensures FrameAt(head + Encode(bufs[..n]) + tail, |head| + |Encode(bufs[..i])|, bufs[i])
    {
      FramesAt(bufs[..n], i, head, tail);
      assert bufs[..n][..i] == bufs[..i];
    }
  }

  lemma EncodeNone()
    ensures Encode([]) == []
  {
  }

  /** A frame that was cut short delivers nothing of its packet, and everything before it is delivered. */
  lemma CutFrame(packets: seq<seq<byte>>, p: seq<byte>, n: nat)
    requires Sendable(packets) && |p| <= MAX_SEGMENT_SIZE && n <= 4 + |p|
    ensures Decode(Encode(packets) + Frame(p)[..n]) == packets + if n == 4 + |p| then [p] else []
  {
    DecodeEncode(packets, Frame(p)[..n]);
    hide *;
    DecodeCut(p, n);
  }

  lemma DecodeCut(p: seq<byte>, n: nat)
    requires |p| <= MAX_SEGMENT_SIZE && n <= 4 + |p|
    ensures Decode(Frame(p)[..n]) == if n == 4 + |p| then [p] else []
  {
    var cut := Frame(p)[..n];
    hide Len, FromLen;
    ShortLen(|p|);
    if n >= 4 {
      assert cut[..4] == FromLen(|p|);
    }
    if n == 4 + |p| {
      assert cut[4..4 + |p|] == p && cut[4 + |p|..] == [];
      assert Decode([]) == [];
    }
  }

  /** What arrives of a `Send` on a fresh connection: the packets whose frames went out whole, and no other. */
  lemma SentArrives(bufs: seq<seq<byte>>, sent: nat, n: nat)
    requires Sendable(bufs) && sent < |bufs| && n <= 4 + |bufs[sent]|
    ensures Decode(Encode(bufs[..sent]) + Frame(bufs[sent])[..n])
      == if n == 4 + |bufs[sent]| then bufs[..sent + 1] else bufs[..sent]
  {
    CutFrame(bufs[..sent], bufs[sent], n);
  }

  lemma {:induction false} EncodeAppend(packets: seq<seq<byte>>, p: seq<byte>)
    ensures Encode(packets + [p]) == Encode(packets) + (FromLen(|p|) + p)
  {
    if packets == [] {
      assert Encode([p]) == FromLen(|p|) + p + Encode([]);
    } else {
      assert (packets + [p])[1..] == packets[1..] + [p];
      EncodeAppend(packets[1..], p);
    }
  }
}
