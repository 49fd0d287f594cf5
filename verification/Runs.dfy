/** Equal pieces joined into one payload, and the payload cut into equal pieces. */
module Runs {
  import opened Checksum
  import opened GsoSplit
  import opened Sequences

  /** Pieces of size `g`, except that the last may be shorter but not empty. */
  predicate Regular(ps: seq<seq<byte>>, g: nat) {
    && ps != []
    && (forall t :: 0 <= t < |ps| - 1 ==> |ps[t]| == g)
    && 1 <= |ps[|ps| - 1]| <= g
  }

  lemma {:induction false} FlatLength(ps: seq<seq<byte>>, g: nat)
    requires Regular(ps, g)
    ensures |Flat(ps)| == g * (|ps| - 1) + |ps[|ps| - 1]|
  {
    if |ps| == 1 {
      assert Flat(ps) == ps[0] + Flat([]);
    } else {
      FlatLength(ps[1..], g);
      assert ps[1..][|ps| - 2] == ps[|ps| - 1];
      assert g * (|ps| - 1) == g + g * (|ps| - 2);
    }
  }

  /** A whole number of pieces leaves no short one at the end. */
  lemma WholePieces(ps: seq<seq<byte>>, g: nat)
    requires Regular(ps, g) && |Flat(ps)| % g == 0
    ensures |ps[|ps| - 1]| == g && |Flat(ps)| == g * |ps|
  {
    hide Flat, Regular;
    FlatLength(ps, g);
    LastSize(ps, g);
    Multiple(g, |ps| - 1, |ps[|ps| - 1]|);
    assert g * |ps| == g * (|ps| - 1) + g;
  }

  lemma LastSize(ps: seq<seq<byte>>, g: nat)
    requires Regular(ps, g)
    ensures ps != [] && 1 <= |ps[|ps| - 1]| <= g
  {
  }

  lemma Multiple(g: nat, n: nat, r: nat)
    requires 1 <= r <= g && (g * n + r) % g == 0
    ensures r == g
  {
    var q := (g * n + r) / g;
    assert g * n + r == g * q;
    Factor(g, q - n, r);
  }

  lemma Factor(g: nat, k: int, r: nat)
    requires r == g * k && 1 <= r <= g
    ensures r == g
  {
    assert k <= 0 ==> g * k <= 0;
    assert k >= 2 ==> g * k >= g * 2;
  }

  lemma AppendPiece(ps: seq<seq<byte>>, g: nat, p: seq<byte>)
    requires Regular(ps, g) && |Flat(ps)| % g == 0 && 1 <= |p| <= g
    ensures Regular(ps + [p], g) && Flat(ps + [p]) == Flat(ps) + p && |Flat(ps)| == g * |ps|
  {
    WholePieces(ps, g);
    FlatConcat(ps, [p]);
    assert Flat([p]) == p + Flat([]);
  }

  lemma PrependPiece(ps: seq<seq<byte>>, g: nat, p: seq<byte>)
    requires Regular(ps, g) && |p| >= g && (|p| > g ==> |ps| == 1)
    ensures Regular([p] + ps, |p|) && Flat([p] + ps) == p + Flat(ps)
  {
    RegularPrepend(ps, g, p);
    assert ([p] + ps)[1..] == ps;
  }

  lemma RegularPrepend(ps: seq<seq<byte>>, g: nat, p: seq<byte>)
    requires Regular(ps, g) && |p| >= g && (|p| > g ==> |ps| == 1)
    ensures Regular([p] + ps, |p|)
  {
    var qs := [p] + ps;
    forall t | 0 <= t < |qs| - 1
      ensures |qs[t]| == |p|
    {
      assert t > 0 ==> qs[t] == ps[t - 1];
    }
    assert qs[|qs| - 1] == ps[|ps| - 1];
  }

  /** Cutting undoes joining: piece `t` is cut back out of the joined payload. */
  lemma {:induction false} CutJoined(ps: seq<seq<byte>>, g: nat, t: nat)
    requires Regular(ps, g) && t < |ps|
    ensures g * t < |Flat(ps)| && Chunk(Flat(ps), g, t) == ps[t]
  {
    if t == 0 {
      assert ps[0] <= Flat(ps);
      assert |ps| == 1 ==> Flat(ps) == ps[0] + Flat([]);
    } else {
      CutJoined(ps[1..], g, t - 1);
      var rest := Flat(ps[1..]);
      assert g * t == g + g * (t - 1);
      assert Flat(ps)[g..] == rest;
      ChunkShift(Flat(ps), g, t, rest);
    }
  }

  lemma ChunkShift(whole: seq<byte>, g: nat, t: nat, rest: seq<byte>)
    requires 0 < t && g <= |whole| && whole[g..] == rest && g * (t - 1) <= |rest| && g * t == g + g * (t - 1)
    ensures Chunk(whole, g, t) == Chunk(rest, g, t - 1)
  {
    var p := g * (t - 1);
    assert whole[g + p..] == rest[p..];
    if p + g <= |rest| {
      assert whole[g + p..g + p + g] == rest[p..p + g];
    }
  }

  /** No fewer and no more pieces than were joined. */
  lemma JoinedCount(ps: seq<seq<byte>>, g: nat)
    requires Regular(ps, g)
    ensures g * (|ps| - 1) < |Flat(ps)| <= g * |ps|
  {
    FlatLength(ps, g);
    assert g * |ps| == g * (|ps| - 1) + g;
  }

  /** The pieces a payload is cut into. */
  function Chunks(data: seq<byte>, g: nat, n: nat): (cs: seq<seq<byte>>)
    requires g * n <= |data| + g
    ensures |cs| == n
  {
    if n == 0 then [] else
      CountDown(g, n);
      Chunks(data, g, n - 1) + [Chunk(data, g, n - 1)]
  }

  lemma CountDown(g: nat, n: nat)
    requires n > 0
    ensures g * n == g * (n - 1) + g
  {
  }

  /** How much of the payload `n` pieces take. */
  function Taken(data: seq<byte>, g: nat, n: nat): (k: nat)
    ensures k <= |data|
  {
    if g * n <= |data| then g * n else |data|
  }

  /** Joining undoes cutting: the pieces make up the payload again. */
  lemma {:induction false} JoinChunks(data: seq<byte>, g: nat, n: nat)
    requires g * n <= |data| + g
    ensures Flat(Chunks(data, g, n)) == data[..Taken(data, g, n)]
  {
    if n > 0 {
      CountDown(g, n);
      JoinChunks(data, g, n - 1);
      JoinNext(data, g, n, Chunks(data, g, n - 1));
    }
  }

  lemma JoinNext(data: seq<byte>, g: nat, n: nat, cs: seq<seq<byte>>)
    requires n > 0 && g * n == g * (n - 1) + g && g * (n - 1) <= |data| && Flat(cs) == data[..g * (n - 1)]
    ensures Flat(cs + [Chunk(data, g, n - 1)]) == data[..Taken(data, g, n)]
  {
    hide Flat, Chunk;
    var c := Chunk(data, g, n - 1);
    ChunkOf(data, g, n - 1, g * (n - 1));
    FlatConcat(cs, [c]);
    FlatOne(c);
    JoinSlices(data, g * (n - 1), g, c);
  }

  lemma ChunkOf(data: seq<byte>, g: nat, i: nat, p: nat)
    requires p == g * i <= |data|
    ensures Chunk(data, g, i) == if p + g <= |data| then data[p..p + g] else data[p..]
  {
  }

  lemma JoinSlices(data: seq<byte>, p: nat, g: nat, c: seq<byte>)
    requires p <= |data| && c == if p + g <= |data| then data[p..p + g] else data[p..]
    ensures data[..p] + c == data[..if p + g <= |data| then p + g else |data|]
  {
  }

  /** The payloads of the segments a packet was split into make up its payload. */
  lemma SegmentsJoin(b: seq<byte>, hdr: VirtioHdr, isV6: bool, segs: seq<seq<byte>>, payloads: seq<seq<byte>>)
    requires Splittable(b, hdr, isV6) && Enough(b, hdr, |segs|) && |payloads| == |segs|
    requires forall j :: 0 <= j < |segs| ==>
      hdr.gsoSize * j <= |b| - hdr.hdrLen && SegmentOk(b, hdr, isV6, j, segs[j]) && payloads[j] == segs[j][hdr.hdrLen..]
    ensures Flat(payloads) == b[hdr.hdrLen..]
  {
    var data, g, n := b[hdr.hdrLen..], hdr.gsoSize, |segs|;
    TakesAll(b, hdr, n);
    hide Enough, SegmentOk, Chunk, Taken, Splittable;
    JoinChunks(data, g, n);
    ChunksAre(data, g, n);
    forall j | 0 <= j < n
      ensures payloads[j] == Chunks(data, g, n)[j]
    {
      PayloadIs(b, hdr, isV6, j, segs[j]);
    }
    assert payloads == Chunks(data, g, n);
    assert data[..Taken(data, g, n)] == data;
  }

  lemma TakesAll(b: seq<byte>, hdr: VirtioHdr, n: nat)
    requires hdr.hdrLen <= |b| && Enough(b, hdr, n)
    ensures var data := b[hdr.hdrLen..];
      hdr.gsoSize * n <= |data| + hdr.gsoSize && Taken(data, hdr.gsoSize, n) == |data|
  {
    StartIs(hdr, n);
    if n > 0 {
      StartIs(hdr, n - 1);
      CountDown(hdr.gsoSize, n);
    }
  }

  lemma PayloadIs(b: seq<byte>, hdr: VirtioHdr, isV6: bool, i: nat, seg: seq<byte>)
    requires Splittable(b, hdr, isV6) && hdr.gsoSize * i <= |b| - hdr.hdrLen && SegmentOk(b, hdr, isV6, i, seg)
    ensures hdr.hdrLen <= |seg| && seg[hdr.hdrLen..] == Chunk(b[hdr.hdrLen..], hdr.gsoSize, i)
  {
    hide Chunk, NetworkOk, TransportOk, Checks;
  }

  lemma {:induction false} ChunksAre(data: seq<byte>, g: nat, n: nat)
    requires g * n <= |data| + g
    ensures forall j :: 0 <= j < n ==> g * j <= |data| && Chunks(data, g, n)[j] == Chunk(data, g, j)
  {
    hide Chunk;
    if n > 0 {
      CountDown(g, n);
      ChunksAre(data, g, n - 1);
    }
  }
}
