/** Splitting what receive offload wrote: `gsoSplit` after `handleGRO`, of wireguard-go/tun/offload_linux.go. */
module GroRoundTrip {
  import opened Checksum
  import opened Gro
  import opened GroOutput
  import opened GroTables
  import opened GsoSplit

  /** Only one number of segments is enough. */
  lemma EnoughIsOne(b: seq<byte>, hdr: VirtioHdr, n: nat, m: nat)
    requires Enough(b, hdr, n) && Enough(b, hdr, m)
    ensures n == m
  {
    if n < m {
      StartGrows(hdr, n, m - 1);
    } else if m < n {
      StartGrows(hdr, m, n - 1);
    }
  }

  /** The segments are as many as the packets that were joined. */
  lemma CountIs(b: seq<byte>, hdr: VirtioHdr, n: nat, tooMany: bool, buffers: nat, k: nat)
    requires Enough(b, hdr, k) && k <= buffers && (tooMany <==> Start(hdr, buffers) < |b|)
      && (!tooMany ==> Enough(b, hdr, n))
    ensures !tooMany && n == k
  {
    StartGrows(hdr, k, buffers);
    EnoughIsOne(b, hdr, n, k);
  }

  /** What the splitter left in a buffer is the segment it says. */
  lemma HeldSegment(out: array<byte>, o: nat, size: nat, b: seq<byte>, hdr: VirtioHdr, isV6: bool, t: nat)
    requires Splittable(b, hdr, isV6) && Holds(out, o, size, b, hdr, isV6, t)
    ensures o + size <= out.Length && hdr.gsoSize * t <= |b| - hdr.hdrLen
      && SegmentOk(b, hdr, isV6, t, out[o..o + size])
  {
    hide SegmentOk;
  }

  lemma AllHeld(outs: seq<array<byte>>, o: nat, sizes: seq<nat>, b: seq<byte>, hdr: VirtioHdr, isV6: bool, t: nat)
    requires Splittable(b, hdr, isV6) && |sizes| <= |outs| && AllHold(outs, o, sizes, b, hdr, isV6) && t < |sizes|
    ensures Holds(outs[t], o, sizes[t], b, hdr, isV6, t)
  {
    hide Holds;
  }

  /** Packet `k` is in the buffer, as a receiver would accept it. */
  ghost predicate TcpBack(pkts: Packets, k: nat, hdr: VirtioHdr, psh: bool, out: array<byte>, o: nat, size: nat)
    reads out
  {
    && o + size <= out.Length && CarriesTcp(pkts, k, hdr, psh, out[o..o + size])
    && SoundSegment(out[o..o + size], hdr, hdr.gsoType.TcpV6?)
  }

  lemma TcpHeld(pkts: Packets, ks: seq<nat>, buf: Buf, t: nat, out: array<byte>, o: nat, size: nat)
    requires TcpOut(pkts, ks, buf) && t < |ks| && Splittable(buf.pkt, buf.vnet.hdr, buf.vnet.hdr.gsoType.TcpV6?)
    requires var hdr := buf.vnet.hdr; var isV6 := hdr.gsoType.TcpV6?;
      Holds(out, o, size, ClearSums(buf.pkt, hdr, isV6), hdr, isV6, t)
    ensures TcpBack(pkts, ks[t], buf.vnet.hdr, LastNewest(ks), out, o, size)
  {
    var hdr := buf.vnet.hdr;
    hide TcpOut, Splittable, Holds, CarriesTcp, SoundSegment, SegmentOk, ClearSums, Enough, LastNewest;
    HeldSegment(out, o, size, ClearSums(buf.pkt, hdr, hdr.gsoType.TcpV6?), hdr, hdr.gsoType.TcpV6?, t);
    SplitUndoesGro(pkts, ks, buf, t, out[o..o + size]);
  }

  /**
   * Every packet that was joined comes out again, in its place: the segment is read as the packet is, flow key and
   * sequence number included, and has its payload, its options and a checksum that is right. PSH comes back exactly if
   * the packet that had it came last.
   */
  method SplitTcp(little: bool, inp: array<byte>, outs: seq<array<byte>>, o: nat, ghost pkts: Packets,
                  ghost ks: seq<nat>, buf: Buf)
    returns (sizes: seq<nat>)
    requires TcpOut(pkts, ks, buf) && inp[..] == buf.pkt && |ks| <= |outs|
    requires forall j :: 0 <= j < |outs| ==> Room(outs[j].Length, o, inp.Length, buf.vnet.hdr) && outs[j] != inp
    requires Distinct(outs)
    modifies inp, outs
    ensures |sizes| == |ks|
    ensures forall t :: 0 <= t < |ks| ==>
      TcpBack(pkts, ks[t], buf.vnet.hdr, LastNewest(ks), outs[t], o, sizes[t])
  {
    assert TcpJoined(pkts, ks, buf.pkt, buf.vnet.hdr, buf.vnet.hdr.gsoType.TcpV6?);
    hide TcpOut, Joined, TcpRun, AllAlike, PshOk, LastPsh, SameExcept, Splittable, AllHold, Holds, CarriesTcp;
    hide SegmentOk, ClearSums, Enough, Room, TcpOf, TcpBack, LastNewest;
    var hdr := buf.vnet.hdr;
    var isV6 := hdr.gsoType.TcpV6?;
    ghost var b := ClearSums(buf.pkt, hdr, isV6);
    var n, tooMany;
    n, tooMany, sizes := Split(little, inp, hdr, outs, o, isV6);
    SplitUndoesGro(pkts, ks, buf, 0, []);
    CountIs(b, hdr, |sizes|, tooMany, |outs|, |ks|);
    forall t | 0 <= t < |ks|
      ensures TcpBack(pkts, ks[t], hdr, LastNewest(ks), outs[t], o, sizes[t])
    {
      AllHeld(outs, o, sizes, b, hdr, isV6, t);
      TcpHeld(pkts, ks, buf, t, outs[t], o, sizes[t]);
    }
  }

  ghost predicate UdpBack(pkts: Packets, k: nat, hdr: VirtioHdr, isV6: bool, out: array<byte>, o: nat, size: nat)
    reads out
  {
    && o + size <= out.Length && CarriesUdp(pkts, k, hdr, out[o..o + size])
    && SoundSegment(out[o..o + size], hdr, isV6)
  }

  lemma UdpHeld(pkts: Packets, ks: seq<nat>, buf: Buf, isV6: bool, t: nat, out: array<byte>, o: nat, size: nat)
    requires UdpOut(pkts, ks, buf) && t < |ks| && UdpOf(pkts[ks[0]]).value.key.isV6 == isV6
    requires Splittable(buf.pkt, buf.vnet.hdr, isV6)
    requires Holds(out, o, size, ClearSums(buf.pkt, buf.vnet.hdr, isV6), buf.vnet.hdr, isV6, t)
    ensures UdpBack(pkts, ks[t], buf.vnet.hdr, isV6, out, o, size)
  {
    var hdr := buf.vnet.hdr;
    hide UdpOut, Splittable, Holds, CarriesUdp, SoundSegment, SegmentOk, ClearSums, Enough, UdpOf;
    HeldSegment(out, o, size, ClearSums(buf.pkt, hdr, isV6), hdr, isV6, t);
    SplitUndoesUdpGro(pkts, ks, buf, t, out[o..o + size]);
  }

  /** The same for UDP, in the order the packets came in. */
  method SplitUdp(little: bool, inp: array<byte>, outs: seq<array<byte>>, o: nat, ghost pkts: Packets,
                  ghost ks: seq<nat>, buf: Buf, isV6: bool)
    returns (sizes: seq<nat>)
    requires UdpOut(pkts, ks, buf) && isV6 == UdpOf(pkts[ks[0]]).value.key.isV6 && inp[..] == buf.pkt && |ks| <= |outs|
    requires forall j :: 0 <= j < |outs| ==> Room(outs[j].Length, o, inp.Length, buf.vnet.hdr) && outs[j] != inp
    requires Distinct(outs)
    modifies inp, outs
    ensures |sizes| == |ks|
    ensures forall t :: 0 <= t < |ks| ==> UdpBack(pkts, ks[t], buf.vnet.hdr, isV6, outs[t], o, sizes[t])
  {
    assert UdpJoined(pkts, ks, buf.pkt, buf.vnet.hdr, isV6);
    assert buf.vnet.Offload? && Splittable(buf.pkt, buf.vnet.hdr, isV6);
    hide UdpOut, UdpJoined, Splittable, AllHold, Holds, SegmentOk, ClearSums, Enough, Room, UdpOf, UdpBack, CarriesUdp;
    var hdr := buf.vnet.hdr;
    ghost var b := ClearSums(buf.pkt, hdr, isV6);
    var n, tooMany;
    n, tooMany, sizes := Split(little, inp, hdr, outs, o, isV6);
    SplitUndoesUdpGro(pkts, ks, buf, 0, []);
    CountIs(b, hdr, |sizes|, tooMany, |outs|, |ks|);
    forall t | 0 <= t < |ks|
      ensures UdpBack(pkts, ks[t], hdr, isV6, outs[t], o, sizes[t])
    {
      AllHeld(outs, o, sizes, b, hdr, isV6, t);
      UdpHeld(pkts, ks, buf, isV6, t, outs[t], o, sizes[t]);
    }
  }
}
