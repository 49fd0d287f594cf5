/** The packets that may be coalesced, byte by byte: wireguard-go/tun/offload_linux.go, lines 531-586 and 737-823. */
module GroPackets {
  import opened Checksum
  import opened Gro
  import opened GsoSplit
  import opened Options
  import opened Words

  /** What an IP header says besides its length; the checksum of an IPv4 header may be any. */
  datatype Ip =
    | Ip4(tos: byte, id: seq<byte>, keep: byte, ttl: byte, sum: seq<byte>, src: seq<byte>, dst: seq<byte>)
    | Ip6(traffic: byte, flow: seq<byte>, hops: byte, src: seq<byte>, dst: seq<byte>)
  {
    /** Fields of the right size; of the fragmentation field only the reserved and the don't-fragment bit are set. */
    predicate Sized() {
      match this
      case Ip4(_, id, keep, _, sum, src, dst) =>
        |id| == 2 && keep in {0, 0x40, 0x80, 0xc0} && |sum| == 2 && |src| == |dst| == 4
      case Ip6(traffic, flow, _, src, dst) => traffic < 16 && |flow| == 3 && |src| == |dst| == 16
    }

    function Size(): nat {
      if Ip4? then 20 else 40
    }

    /** The header in front of `size` bytes. */
    function Bytes(proto: byte, size: nat): (r: seq<byte>)
      requires Sized() && Size() + size <= 0xffff
      ensures |r| == Size()
    {
      match this
      case Ip4(tos, id, keep, ttl, sum, src, dst) =>
        [0x45, tos] + BigBytes(20 + size) + id + [keep, 0, ttl, proto] + sum + src + dst
      case Ip6(traffic, flow, hops, src, dst) =>
        [0x60 + traffic] + flow + BigBytes(size) + [proto, hops] + src + dst
    }
  }

  /** What a TCP header says; `rest` is the window, the checksum and the urgent pointer. */
  datatype Tcp = Tcp(srcPort: uint16, dstPort: uint16, seqNo: nat, ack: nat, reserved: byte, psh: bool,
    rest: seq<byte>, options: seq<byte>)
  {
    predicate Sized() {
      && seqNo < TWO32 && ack < TWO32 && reserved < 16 && |rest| == 6 && |options| % 4 == 0 && |options| <= 40
    }

    function Bytes(): (r: seq<byte>)
      requires Sized()
      ensures |r| == 20 + |options|
    {
      BigBytes(srcPort) + BigBytes(dstPort) + BigBytes32(seqNo) + BigBytes32(ack)
        + [16 * ((20 + |options|) / 4) + reserved, if psh then 0x18 else 0x10] + rest + options
    }
  }

  /** A TCP packet with a payload, that acknowledges and does nothing else. */
  function TcpPacket(ip: Ip, tcp: Tcp, payload: seq<byte>): (r: seq<byte>)
    requires ip.Sized() && tcp.Sized() && ip.Size() + 20 + |tcp.options| + |payload| <= 0xffff
  {
    ip.Bytes(6, 20 + |tcp.options| + |payload|) + tcp.Bytes() + payload
  }

  lemma IpBytes(ip: Ip, proto: byte, size: nat)
    requires ip.Sized() && ip.Size() + size <= 0xffff
    ensures SaysIp(ip.Bytes(proto, size), ip, proto, size)
  {
  }

  lemma TcpHeader(tcp: Tcp)
    requires tcp.Sized()
    ensures SaysTcp(tcp.Bytes(), tcp)
  {
  }

  /** Reading in the second of three parts. */
  lemma Inside(h: seq<byte>, b: seq<byte>, p: seq<byte>, at: nat)
    requires at + 2 <= |b|
    ensures Get16(h + b + p, |h| + at) == Get16(b, at)
  {
  }

  lemma InsideTcp(h: seq<byte>, b: seq<byte>, p: seq<byte>)
    requires |b| >= 20
    ensures var r := h + b + p; var n := |h|;
      && Get16(r, n) == Get16(b, 0) && Get16(r, n + 2) == Get16(b, 2) && Get32(r, n + 4) == Get32(b, 4)
      && Get32(r, n + 8) == Get32(b, 8) && r[n + 12] == b[12] && r[n + 13] == b[13]
  {
    Inside(h, b, p, 0);
    Inside(h, b, p, 2);
    Inside(h, b, p, 4);
    Inside(h, b, p, 6);
    Inside(h, b, p, 8);
    Inside(h, b, p, 10);
  }

  /** And in the first. */
  lemma InsideIp(h: seq<byte>, b: seq<byte>, p: seq<byte>, isV6: bool)
    requires |h| == if isV6 then 40 else 20
    ensures var r := h + b + p;
      && r[0] == h[0] && r[6] == h[6] && r[7] == h[7] && r[9] == h[9]
      && Get16(r, 2) == Get16(h, 2) && Get16(r, 4) == Get16(h, 4)
      && (if isV6 then r[8..24] == h[8..24] && r[24..40] == h[24..40]
        else r[12..16] == h[12..16] && r[16..20] == h[16..20])
  {
    var r := h + b + p;
    assert forall i :: 0 <= i < |h| ==> r[i] == h[i];
  }

  /** What is read off such a packet. */
  function SegOf(ip: Ip, tcp: Tcp, payload: seq<byte>): TcpSeg
    requires |payload| < 0x1_0000
  {
    TcpSeg(FlowKey(ip.src, ip.dst, tcp.srcPort, tcp.dstPort, Some(tcp.ack), ip.Ip6?), ip.Size(), 20 + |tcp.options|,
      tcp.seqNo, tcp.psh, |payload|)
  }

  /** The bytes of an IP header, as they are read. */
  predicate SaysIp(h: seq<byte>, ip: Ip, proto: byte, size: nat) {
    && |h| == ip.Size()
    && if ip.Ip4? then
         && h[0] == 0x45 && Get16(h, 2) == 20 + size && h[6] == ip.keep && h[7] == 0 && h[9] == proto
         && h[12..16] == ip.src && h[16..20] == ip.dst
       else
         && h[0] / 16 == 6 && Get16(h, 4) == size && h[6] == proto
         && h[8..24] == ip.src && h[24..40] == ip.dst
  }

  predicate SaysTcp(m: seq<byte>, tcp: Tcp) {
    && |m| == 20 + |tcp.options|
    && Get16(m, 0) == tcp.srcPort && Get16(m, 2) == tcp.dstPort && Get32(m, 4) == tcp.seqNo && Get32(m, 8) == tcp.ack
    && 4 * (m[12] / 16) == 20 + |tcp.options| && m[13] == FlagsFor(tcp.psh)
  }

  lemma PartsRead(h: seq<byte>, m: seq<byte>, payload: seq<byte>, ip: Ip, tcp: Tcp)
    requires ip.Sized() && tcp.Sized() && ip.Size() + 20 + |tcp.options| + |payload| <= 0xffff && payload != []
    requires SaysIp(h, ip, 6, 20 + |tcp.options| + |payload|) && SaysTcp(m, tcp)
    ensures TcpOf(h + m + payload) == Some(SegOf(ip, tcp, payload))
  {
    hide Get16, Get32, TcpOf, FlagsFor;
    InsideIp(h, m, payload, ip.Ip6?);
    InsideTcp(h, m, payload);
    Reads(h + m + payload, ip.Ip6?, tcp, SegOf(ip, tcp, payload));
  }

  /** A packet of this form is read as what it was made of. */
  lemma TcpRead(ip: Ip, tcp: Tcp, payload: seq<byte>)
    requires ip.Sized() && tcp.Sized() && ip.Size() + 20 + |tcp.options| + |payload| <= 0xffff && payload != []
    ensures TcpOf(TcpPacket(ip, tcp, payload)) == Some(SegOf(ip, tcp, payload))
  {
    hide TcpOf, SaysIp, SaysTcp, Ip.Bytes, Tcp.Bytes;
    var size := 20 + |tcp.options| + |payload|;
    IpBytes(ip, 6, size);
    TcpHeader(tcp);
    PartsRead(ip.Bytes(6, size), tcp.Bytes(), payload, ip, tcp);
  }

  lemma Reads(b: seq<byte>, isV6: bool, tcp: Tcp, s: TcpSeg)
    requires s.iphLen == (if isV6 then 40 else 20) && tcp.Sized() && s.tcphLen == 20 + |tcp.options| && s.gsoSize > 0
    requires |b| == s.HeadersLen() + s.gsoSize <= 0xffff
    requires s.key.src == (if isV6 then b[8..24] else b[12..16]) && s.key.dst == (if isV6 then b[24..40] else b[16..20])
    requires s.key.srcPort == Get16(b, s.iphLen) && s.key.dstPort == Get16(b, s.iphLen + 2) && s.key.isV6 == isV6
    requires s.key.rxAck == Some(Get32(b, s.iphLen + 8))
    requires Get32(b, s.iphLen + 4) == s.seqNo && s.pshSet == tcp.psh
    requires 4 * (b[s.iphLen + 12] / 16) == s.tcphLen && b[s.iphLen + 13] == FlagsFor(tcp.psh)
    requires if isV6 then b[0] / 16 == 6 && b[6] == 6 && Get16(b, 4) == |b| - 40
      else b[0] == 0x45 && b[9] == 6 && Get16(b, 2) == |b| && b[6] % 0x40 == 0 && b[7] == 0
    ensures TcpOf(b) == Some(s)
  {
    hide Get16, Get32;
  }

  /** The IP header a packet has. */
  function IpOf(b: seq<byte>, isV6: bool): (ip: Ip)
    requires |b| >= if isV6 then 40 else 20
  {
    if isV6 then Ip6(b[0] % 16, b[1..4], b[7], b[8..24], b[24..40])
    else Ip4(b[1], b[4..6], b[6], b[8], b[10..12], b[12..16], b[16..20])
  }

  lemma BigGet16(b: seq<byte>, at: nat)
    requires at + 2 <= |b|
    ensures BigBytes(Get16(b, at)) == b[at..at + 2]
  {
  }

  lemma BigGet32(b: seq<byte>, at: nat)
    requires at + 4 <= |b|
    ensures BigBytes32(Get32(b, at)) == b[at..at + 4]
  {
    BigGet16(b, at);
    BigGet16(b, at + 2);
    HalvesOf(Get16(b, at), Get16(b, at + 2));
    assert b[at..at + 4] == b[at..at + 2] + b[at + 2..at + 4];
  }

  lemma HalvesOf(x: uint16, y: uint16)
    ensures (0x1_0000 * x + y) / 0x1_0000 == x && (0x1_0000 * x + y) % 0x1_0000 == y
  {
  }

  lemma IpMade(b: seq<byte>, isV6: bool, proto: byte)
    requires (if isV6 then 40 else 20) <= |b| <= 0xffff
    requires if isV6 then b[0] / 16 == 6 && b[6] == proto && Get16(b, 4) == |b| - 40
      else b[0] == 0x45 && b[9] == proto && Get16(b, 2) == |b| && b[6] % 0x40 == 0 && b[7] == 0
    ensures var ip := IpOf(b, isV6);
      && ip.Sized() && ip.Ip6? == isV6 && ip.Bytes(proto, |b| - ip.Size()) == b[..ip.Size()]
  {
    if isV6 {
      BigGet16(b, 4);
      assert b[..40] == [b[0]] + b[1..4] + b[4..6] + [b[6], b[7]] + b[8..24] + b[24..40];
    } else {
      BigGet16(b, 2);
      assert b[..20] == [b[0], b[1]] + b[2..4] + b[4..6] + [b[6], b[7], b[8], b[9]] + b[10..12] + b[12..16] + b[16..20];
    }
  }

  function TcpHeaderOf(b: seq<byte>, at: nat, size: nat): (tcp: Tcp)
    requires at + size <= |b| && size >= 20
  {
    Tcp(Get16(b, at), Get16(b, at + 2), Get32(b, at + 4), Get32(b, at + 8), b[at + 12] % 16, b[at + 13] == 0x18,
      b[at + 14..at + 20], b[at + 20..at + size])
  }

  lemma TcpMade(b: seq<byte>, at: nat, size: nat)
    requires at + size <= |b| && 20 <= size <= 60 && size == 4 * (b[at + 12] / 16) && b[at + 13] in {0x10, 0x18}
    ensures var tcp := TcpHeaderOf(b, at, size);
      tcp.Sized() && tcp.Bytes() == b[at..at + size]
  {
    BigGet16(b, at);
    BigGet16(b, at + 2);
    BigGet32(b, at + 4);
    BigGet32(b, at + 8);
    hide Get16, Get32;
    assert b[at + 12] == 16 * (b[at + 12] / 16) + b[at + 12] % 16;
    assert b[at..at + size] == b[at..at + 2] + b[at + 2..at + 4] + b[at + 4..at + 8] + b[at + 8..at + 12]
      + [b[at + 12], b[at + 13]] + b[at + 14..at + 20] + b[at + 20..at + size];
  }

  /** The bytes that a TCP parse asks for. */
  lemma TcpAsked(b: seq<byte>)
    requires TcpOf(b).Some?
    ensures var s := TcpOf(b).value;
      && 40 <= |b| <= 0xffff && s.iphLen == (if s.key.isV6 then 40 else 20) && s.HeadersLen() < |b|
      && 20 <= s.tcphLen <= 60 && s.tcphLen == 4 * (b[s.iphLen + 12] / 16) && b[s.iphLen + 13] in {0x10, 0x18}
      && if s.key.isV6 then b[0] / 16 == 6 && b[6] == 6 && Get16(b, 4) == |b| - 40
        else b[0] == 0x45 && b[9] == 6 && Get16(b, 2) == |b| && b[6] % 0x40 == 0 && b[7] == 0
  {
    hide Get16, Get32, KeyOf;
  }

  /** And nothing else is read as TCP. */
  lemma TcpReadOnly(b: seq<byte>)
    requires TcpOf(b).Some?
    ensures exists ip: Ip, tcp: Tcp, payload: seq<byte> ::
      && ip.Sized() && tcp.Sized() && ip.Size() + 20 + |tcp.options| + |payload| <= 0xffff && payload != []
      && b == TcpPacket(ip, tcp, payload)
  {
    hide TcpOf, Ip.Bytes, Tcp.Bytes;
    TcpAsked(b);
    var s := TcpOf(b).value;
    var ip, tcp, payload := IpOf(b, s.key.isV6), TcpHeaderOf(b, s.iphLen, s.tcphLen), b[s.HeadersLen()..];
    IpMade(b, s.key.isV6, 6);
    TcpMade(b, s.iphLen, s.tcphLen);
    assert b == b[..s.iphLen] + b[s.iphLen..s.HeadersLen()] + b[s.HeadersLen()..];
    assert b == TcpPacket(ip, tcp, payload);
  }

  /** A UDP packet with a payload; its own length and checksum may be any. */
  function UdpPacket(ip: Ip, srcPort: uint16, dstPort: uint16, rest: seq<byte>, payload: seq<byte>): (r: seq<byte>)
    requires ip.Sized() && |rest| == 4 && ip.Size() + 8 + |payload| <= 0xffff
  {
    ip.Bytes(17, 8 + |payload|) + (BigBytes(srcPort) + BigBytes(dstPort) + rest) + payload
  }

  lemma UdpReads(b: seq<byte>, isV6: bool, s: UdpSeg)
    requires s.iphLen == (if isV6 then 40 else 20) && s.gsoSize > 0 && |b| == s.HeadersLen() + s.gsoSize <= 0xffff
    requires s.key.src == (if isV6 then b[8..24] else b[12..16]) && s.key.dst == (if isV6 then b[24..40] else b[16..20])
    requires s.key.srcPort == Get16(b, s.iphLen) && s.key.dstPort == Get16(b, s.iphLen + 2) && s.key.isV6 == isV6
    requires s.key.rxAck == None
    requires if isV6 then b[0] / 16 == 6 && b[6] == 17 && Get16(b, 4) == |b| - 40
      else b[0] == 0x45 && b[9] == 17 && Get16(b, 2) == |b| && b[6] % 0x40 == 0 && b[7] == 0
    ensures UdpOf(b) == Some(s)
  {
    hide Get16, Get32;
  }

  lemma PortsOf(srcPort: uint16, dstPort: uint16, rest: seq<byte>)
    ensures var m := BigBytes(srcPort) + BigBytes(dstPort) + rest;
      Get16(m, 0) == srcPort && Get16(m, 2) == dstPort
  {
  }

  /** A datagram of this form is read as what it was made of. */
  lemma UdpRead(ip: Ip, srcPort: uint16, dstPort: uint16, rest: seq<byte>, payload: seq<byte>)
    requires ip.Sized() && |rest| == 4 && ip.Size() + 8 + |payload| <= 0xffff && payload != []
    ensures UdpOf(UdpPacket(ip, srcPort, dstPort, rest, payload))
      == Some(UdpSeg(FlowKey(ip.src, ip.dst, srcPort, dstPort, None, ip.Ip6?), ip.Size(), |payload|))
  {
    var h, m := ip.Bytes(17, 8 + |payload|), BigBytes(srcPort) + BigBytes(dstPort) + rest;
    IpBytes(ip, 17, 8 + |payload|);
    PortsOf(srcPort, dstPort, rest);
    hide Ip.Bytes, Get16, UdpOf, BigBytes;
    InsideIp(h, m, payload, ip.Ip6?);
    Inside(h, m, payload, 0);
    Inside(h, m, payload, 2);
    UdpReads(UdpPacket(ip, srcPort, dstPort, rest, payload), ip.Ip6?,
      UdpSeg(FlowKey(ip.src, ip.dst, srcPort, dstPort, None, ip.Ip6?), ip.Size(), |payload|));
  }

  lemma UdpAsked(b: seq<byte>)
    requires UdpOf(b).Some?
    ensures var s := UdpOf(b).value;
      && |b| <= 0xffff && s.iphLen == (if s.key.isV6 then 40 else 20) && s.HeadersLen() < |b|
      && if s.key.isV6 then b[0] / 16 == 6 && b[6] == 17 && Get16(b, 4) == |b| - 40
        else b[0] == 0x45 && b[9] == 17 && Get16(b, 2) == |b| && b[6] % 0x40 == 0 && b[7] == 0
  {
    hide Get16, KeyOf;
  }

  /** And nothing else is read as UDP. */
  lemma UdpReadOnly(b: seq<byte>)
    requires UdpOf(b).Some?
    ensures exists ip: Ip, srcPort: uint16, dstPort: uint16, rest: seq<byte>, payload: seq<byte> ::
      && ip.Sized() && |rest| == 4 && ip.Size() + 8 + |payload| <= 0xffff && payload != []
      && b == UdpPacket(ip, srcPort, dstPort, rest, payload)
  {
    hide UdpOf, Ip.Bytes, Get16, BigBytes;
    UdpAsked(b);
    var s := UdpOf(b).value;
    var at := s.iphLen;
    var ip, srcPort, dstPort := IpOf(b, s.key.isV6), Get16(b, at), Get16(b, at + 2);
    IpMade(b, s.key.isV6, 17);
    BigGet16(b, at);
    BigGet16(b, at + 2);
    assert b == b[..at] + (b[at..at + 2] + b[at + 2..at + 4] + b[at + 4..at + 8]) + b[at + 8..];
    assert b == UdpPacket(ip, srcPort, dstPort, b[at + 4..at + 8], b[at + 8..]);
  }
}
