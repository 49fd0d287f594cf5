/**
 * The routes that pull traffic into the tunnel: internal/vpn/manager.go (lines 542-587) and
 * captureCIDRs of internal/router/router.go (lines 129-141).
 */
module CaptureRoutes {
  import opened Ipv4
  import opened Options
  import opened RouteTable
  import opened Words

  /** The destinations that are split: not host routes, loopback, multicast or reserved. */
  predicate Splittable(p: Prefix) {
    p.ones < 32 && p.ip / 0x100_0000 != 127 && p.ip / 0x100_0000 < 224
  }

  /** manager.go, lines 568-587: two prefixes one bit longer. The second address is not masked. */
  function SplitMoreSpecific(p: Prefix): seq<Prefix>
    requires Wellformed(p)
  {
    if !Splittable(p) then
      []
    else
      var step := Span(p.ones + 1);
      [Prefix(Masked(p.ip, step), p.ones + 1), Prefix((p.ip + step) % TWO32, p.ones + 1)]
  }

  function Masked(ip: nat, m: nat): nat
    requires m > 0
  {
    Floor(ip, m);
    ip - ip % m
  }

  lemma Floor(ip: nat, m: nat)
    requires m > 0
    ensures ip % m <= ip && BlockOf(ip - ip % m, m) == BlockOf(ip, m)
  {
    assert ip == m * (ip / m) + ip % m;
    BlockIs(ip - ip % m, m, ip / m, 0);
  }

  /** The bit just below the mask is clear, as it is whenever the destination was stored masked. */
  predicate NextBitClear(p: Prefix)
    requires Wellformed(p) && p.ones < 32
  {
    Block(p.ip, p.ones + 1) % 2 == 0
  }

  /** Every address of `p` lies in exactly one of the two halves, and the halves reach no further. */
  ghost predicate Halves(parts: seq<Prefix>, p: Prefix)
    requires Wellformed(p)
  {
    && |parts| == 2 && Wellformed(parts[0]) && Wellformed(parts[1])
    && forall a: nat :: a < TWO32 ==>
      && (Covers(p, a) <==> Covers(parts[0], a) || Covers(parts[1], a))
      && !(Covers(parts[0], a) && Covers(parts[1], a))
  }

  /** How the blocks of the two halves, the parent and any address are related. */
  lemma SplitBlocks(p: Prefix)
    requires Wellformed(p) && Splittable(p)
    ensures var parts, k, n := SplitMoreSpecific(p), Block(p.ip, p.ones + 1), Pow2(p.ones + 1);
      && k < n && n == 2 * Pow2(p.ones)
      && |parts| == 2 && Wellformed(parts[0]) && Wellformed(parts[1]) && parts[0].ones == parts[1].ones == p.ones + 1
      && Block(parts[0].ip, p.ones + 1) == k && Block(parts[1].ip, p.ones + 1) == (k + 1) % n
  {
    var m, n := Span(p.ones + 1), Pow2(p.ones + 1);
    assert m * n == TWO32 by {
      PowAdd(32 - (p.ones + 1), p.ones + 1);
      Pow32();
    }
    hide Pow2;
    NextBlock(p.ip, m, n, TWO32);
    Floor(p.ip, m);
  }

  lemma ParentBlock(a: nat, ones: nat)
    requires ones < 32
    ensures Block(a, ones) == Block(a, ones + 1) / 2
  {
    assert Span(ones) == 2 * Span(ones + 1);
    BlockPairs(a, Span(ones + 1));
  }

  /** The address where a block starts. */
  lemma BlockStart(ones: nat, j: nat) returns (a: nat)
    requires ones <= 32 && j < Pow2(ones)
    ensures a < TWO32 && Block(a, ones) == j
  {
    var m := Span(ones);
    PowAdd(32 - ones, ones);
    Pow32();
    hide Pow2;
    a := m * j;
    BlockIs(a, m, j, 0);
    StartsBelow(m, j, Pow2(ones));
  }

  lemma StartsBelow(m: nat, j: nat, n: nat)
    requires j < n && m > 0
    ensures m * j < m * n
  {
    assert j + 1 <= n ==> m * (j + 1) <= m * n;
    assert m * (j + 1) == m * j + m;
  }

  /** The halves partition the prefix exactly when the bit they divide on is clear, or there is no other bit. */
  lemma SplitPartitions(p: Prefix)
    requires Wellformed(p) && Splittable(p)
    ensures Halves(SplitMoreSpecific(p), p) <==> p.ones == 0 || NextBitClear(p)
  {
    var parts, k, n := SplitMoreSpecific(p), Block(p.ip, p.ones + 1), Pow2(p.ones + 1);
    SplitBlocks(p);
    ParentBlock(p.ip, p.ones);
    assert p.ones == 0 ==> n == 2;
    hide Block, SplitMoreSpecific, Splittable;
    if p.ones == 0 || NextBitClear(p) {
      forall a: nat | a < TWO32
        ensures Covers(p, a) <==> Covers(parts[0], a) || Covers(parts[1], a)
        ensures !(Covers(parts[0], a) && Covers(parts[1], a))
      {
        ParentBlock(a, p.ones);
        BlockBound(a, p.ones + 1);
        NextAround(k, n);
        if p.ones != 0 {
          NextInPair(k, n, Pow2(p.ones));
        }
      }
    } else {
      PowGrows(1, p.ones);
      assert Pow2(1) == 2;
      var a := BlockStart(p.ones + 1, k - 1);
      ParentBlock(a, p.ones);
      NextAround(k, n);
      assert Covers(p, a) && !Covers(parts[0], a) && !Covers(parts[1], a);
    }
  }

  /** 10.0.0.128/24, stored unmasked, is split into 10.0.0.128/25 and 10.0.1.0/25: the lower half is lost. */
  lemma UnmaskedLosesHalf()
    ensures var p := Prefix(0x0A00_0080, 24); Splittable(p) && !Halves(SplitMoreSpecific(p), p)
  {
    var p := Prefix(0x0A00_0080, 24);
    assert Span(25) == 128 by { assert Pow2(3) == 8 && Pow2(5) == 32; }
    BlockIs(p.ip, 128, 0x0014_0001, 0);
    assert p.ip / 0x100_0000 == 10;
    hide Pow2, Span, BlockOf, SplitMoreSpecific, Halves;
    SplitPartitions(p);
  }

  lemma NextInPair(k: nat, n: nat, half: nat)
    requires k < n && k % 2 == 0 && n == 2 * half
    ensures k + 1 < n
  {
  }

  lemma NextAround(k: nat, n: nat)
    requires k < n
    ensures (k + 1) % n == if k + 1 == n then 0 else k + 1
  {
    if k + 1 < n {
      ModSmall(k + 1, n);
    } else {
      ModWrap(0, n);
    }
  }

  lemma BlockBound(a: nat, ones: nat)
    requires a < TWO32 && ones <= 32
    ensures Block(a, ones) < Pow2(ones)
  {
    PowAdd(32 - ones, ones);
    Pow32();
    hide Pow2;
    NextBlock(a, Span(ones), Pow2(ones), TWO32);
  }

  /** A destination stored masked, as every fetcher stores it, has the bit clear. */
  predicate StoredMasked(p: Prefix)
    requires Wellformed(p)
  {
    p.ip % Span(p.ones) == 0
  }

  lemma MaskedIsClear(p: Prefix)
    requires Wellformed(p) && p.ones < 32 && StoredMasked(p)
    ensures NextBitClear(p)
  {
    assert Span(p.ones) == 2 * Span(p.ones + 1);
    EvenBlock(p.ip, Span(p.ones + 1));
  }

  lemma EvenBlock(a: nat, m: nat)
    requires m > 0 && a % (2 * m) == 0
    ensures BlockOf(a, m) % 2 == 0
  {
    BlockPairs(a, m);
    var q := BlockOf(a, 2 * m);
    assert a == 2 * m * q;
    assert 2 * m * q == m * (2 * q);
    BlockIs(a, m, 2 * q, 0);
  }

  /** `s` without the elements that repeat an earlier one. */
  function Firsts(s: seq<Prefix>): (r: seq<Prefix>)
    ensures forall x :: x in r <==> x in s
  {
    if s == [] then
      []
    else
      var r, last := Firsts(s[..|s| - 1]), s[|s| - 1];
      assert s == s[..|s| - 1] + [last];
      if last in r then r else r + [last]
  }

  /** Each element is kept once, where it first stood, and the order stays. */
  lemma {:induction false} FirstsInOrder(s: seq<Prefix>) returns (places: seq<nat>)
    ensures |places| == |Firsts(s)| && forall i :: 0 <= i < |places| ==> places[i] < |s| && Firsts(s)[i] == s[places[i]]
    ensures forall i :: 0 <= i < |places| ==> Firsts(s)[i] !in s[..places[i]]
    ensures forall i, j :: 0 <= i < j < |places| ==> places[i] < places[j] && Firsts(s)[i] != Firsts(s)[j]
  {
    if s == [] {
      places := [];
    } else {
      var before, last := s[..|s| - 1], s[|s| - 1];
      places := FirstsInOrder(before);
      assert forall i :: 0 <= i < |places| ==> s[..places[i]] == before[..places[i]];
      if last !in before {
        places := places + [|s| - 1];
      }
    }
  }

  lemma FirstsOfMore(s: seq<Prefix>, x: Prefix)
    ensures Firsts(s + [x]) == if x in s then Firsts(s) else Firsts(s) + [x]
  {
    assert (s + [x])[..|s|] == s;
  }

  /** What is kept of `before` and the first `k` of `s`. */
  ghost function KeptOf(before: seq<Prefix>, s: seq<Prefix>, k: nat): seq<Prefix>
    requires k <= |s|
  {
    Firsts(before + s[..k])
  }

  lemma KeptOfNext(before: seq<Prefix>, s: seq<Prefix>, k: nat)
    requires k <= |s|
    ensures KeptOf(before, s, 0) == Firsts(before) && KeptOf(before, s, |s|) == Firsts(before + s)
    ensures k < |s| ==>
      KeptOf(before, s, k + 1) == if s[k] in KeptOf(before, s, k) then KeptOf(before, s, k)
        else KeptOf(before, s, k) + [s[k]]
  {
    hide Firsts;
    assert before + s[..0] == before && s[..|s|] == s;
    if k < |s| {
      FirstsOfMore(before + s[..k], s[k]);
      assert before + s[..k + 1] == before + s[..k] + [s[k]];
    }
  }

  predicate IsTunnelIface(name: string) {
    "utun" <= name || "tun" <= name || "tap" <= name
  }

  /** A route whose destination another tunnel has taken. */
  predicate OfOtherTunnel(e: Entry, tunName: string) {
    e.dest.V4? && e.iface != tunName && IsTunnelIface(e.iface)
  }

  function Contribution(e: Entry, tunName: string): seq<Prefix>
    requires e.dest.V4? ==> Wellformed(e.dest.prefix)
  {
    if OfOtherTunnel(e, tunName) then SplitMoreSpecific(e.dest.prefix) else []
  }

  /** What the first `n` routes contribute, in order. */
  function Wanted(entries: seq<Entry>, tunName: string, n: nat): seq<Prefix>
    requires AllWellformed(entries) && n <= |entries|
  {
    if n == 0 then [] else Wanted(entries, tunName, n - 1) + Contribution(entries[n - 1], tunName)
  }

  lemma WantedOfMore(entries: seq<Entry>, tunName: string, n: nat)
    requires AllWellformed(entries) && n < |entries|
    ensures var c := Contribution(entries[n], tunName);
      Wanted(entries, tunName, n + 1) == if c == [] then Wanted(entries, tunName, n)
        else Wanted(entries, tunName, n) + c
  {
    hide Contribution;
    assert Wanted(entries, tunName, n) + [] == Wanted(entries, tunName, n);
  }

  lemma {:induction false} WantedIs(entries: seq<Entry>, tunName: string, n: nat)
    requires AllWellformed(entries) && n <= |entries|
    ensures forall c ::
      c in Wanted(entries, tunName, n) <==> exists e :: e in entries[..n] && c in Contribution(e, tunName)
  {
    hide Contribution;
    if n > 0 {
      WantedIs(entries, tunName, n - 1);
      assert entries[..n] == entries[..n - 1] + [entries[n - 1]];
    }
  }

  /**
   * The prefix halves the destination of an IPv4 route that goes out by a tunnel interface other than `tunName`. The
   * destination is not a host, and not in 127.0.0.0/8 or from 224.0.0.0 on.
   */
  ghost predicate HalvesRoute(e: Entry, tunName: string, c: Prefix) {
    && e.dest.V4? && e.iface != tunName && ("utun" <= e.iface || "tun" <= e.iface || "tap" <= e.iface)
    && var p := e.dest.prefix;
       && p.ones < 32 && !(0x7F00_0000 <= p.ip < 0x8000_0000) && p.ip < 0xE000_0000
       && var size := Span(p.ones + 1);
          c.ones == p.ones + 1 && (c.ip == p.ip - p.ip % size || c.ip == (p.ip + size) % TWO32)
  }

  lemma OctetIs(ip: nat)
    ensures ip / 0x100_0000 == 127 <==> 0x7F00_0000 <= ip < 0x8000_0000
    ensures ip / 0x100_0000 < 224 <==> ip < 0xE000_0000
  {
  }

  lemma ContributionIs(e: Entry, tunName: string, c: Prefix)
    requires e.dest.V4? ==> Wellformed(e.dest.prefix)
    ensures c in Contribution(e, tunName) <==> HalvesRoute(e, tunName, c)
  {
    if e.dest.V4? {
      OctetIs(e.dest.prefix.ip);
    }
    hide Span;
  }

  /** The routes of the tunnel itself make no difference. */
  lemma {:induction false} OwnRoutesIgnored(entries: seq<Entry>, tunName: string)
    requires AllWellformed(entries)
    ensures AllWellformed(Foreign(entries, tunName))
    ensures Wanted(Foreign(entries, tunName), tunName, |Foreign(entries, tunName)|)
      == Wanted(entries, tunName, |entries|)
  {
    hide SplitMoreSpecific;
    if entries != [] {
      var front, last := entries[..|entries| - 1], entries[|entries| - 1];
      OwnRoutesIgnored(front, tunName);
      WantedFront(entries, tunName, |front|);
      var f := Foreign(entries, tunName);
      if last.iface != tunName {
        assert f[..|f| - 1] == Foreign(front, tunName);
        WantedFront(f, tunName, |f| - 1);
      }
    }
  }

  lemma {:induction false} WantedFront(entries: seq<Entry>, tunName: string, n: nat)
    requires AllWellformed(entries) && n <= |entries|
    ensures AllWellformed(entries[..n]) && Wanted(entries[..n], tunName, n) == Wanted(entries, tunName, n)
    decreases n
  {
    hide Contribution;
    if n > 0 {
      WantedFront(entries, tunName, n - 1);
      WantedFront(entries[..n], tunName, n - 1);
      assert entries[..n][..n - 1] == entries[..n - 1];
    }
  }

  /** The routes that are not of the interface. */
  function Foreign(entries: seq<Entry>, tunName: string): (r: seq<Entry>)
    ensures forall e :: e in r <==> e in entries && e.iface != tunName
  {
    if entries == [] then []
    else
      var front, last := Foreign(entries[..|entries| - 1], tunName), entries[|entries| - 1];
      assert entries == entries[..|entries| - 1] + [last];
      if last.iface != tunName then front + [last] else front
  }

  /** manager.go, lines 551-556: the prefixes not seen before. */
  method AddNew(kept: seq<Prefix>, seen0: set<Prefix>, cidrs: seq<Prefix>, ghost before: seq<Prefix>)
    returns (out: seq<Prefix>, seen: set<Prefix>)
    requires kept == Firsts(before) && forall c :: c in seen0 <==> c in kept
    ensures out == Firsts(before + cidrs) && forall c :: c in seen <==> c in out
  {
    hide Firsts, KeptOf;
    KeptOfNext(before, cidrs, 0);
    out, seen := kept, seen0;
    for k := 0 to |cidrs|
      invariant out == KeptOf(before, cidrs, k)
      invariant forall c :: c in seen <==> c in out
    {
      KeptOfNext(before, cidrs, k);
      if cidrs[k] !in seen {
        seen := seen + {cidrs[k]};
        out := out + [cidrs[k]];
      }
    }
  }

  /** manager.go, lines 542-559. A prefix stands for its text, which determines it. */
  method RefinedCaptureCidrs(entries: seq<Entry>, tunName: string) returns (out: seq<Prefix>)
    requires AllWellformed(entries)
    ensures out == Firsts(Wanted(entries, tunName, |entries|))
    ensures forall c :: c in out <==> exists e :: e in entries && HalvesRoute(e, tunName, c)
  {
    assert Firsts([]) == [] && Wanted(entries, tunName, 0) == [];
    hide Firsts, Wanted, SplitMoreSpecific, IsTunnelIface, Wellformed;
    out := [];
    var seen: set<Prefix> := {};
    for i := 0 to |entries|
      invariant out == Firsts(Wanted(entries, tunName, i))
      invariant forall c :: c in seen <==> c in out
    {
      var e := entries[i];
      WantedOfMore(entries, tunName, i);
      if !e.dest.V4? {
        continue;
      }
      if e.iface == tunName || !IsTunnelIface(e.iface) {
        continue;
      }
      out, seen := AddNew(out, seen, SplitMoreSpecific(e.dest.prefix), Wanted(entries, tunName, i));
    }
    RefinedFrom(entries, tunName);
  }

  lemma RefinedFrom(entries: seq<Entry>, tunName: string)
    requires AllWellformed(entries)
    ensures forall c ::
      c in Firsts(Wanted(entries, tunName, |entries|)) <==> exists e :: e in entries && HalvesRoute(e, tunName, c)
  {
    hide Contribution, HalvesRoute, Wanted, Firsts;
    WantedIs(entries, tunName, |entries|);
    assert entries[..|entries|] == entries;
    forall c, e | e in entries
      ensures c in Contribution(e, tunName) <==> HalvesRoute(e, tunName, c)
    {
      ContributionIs(e, tunName, c);
    }
  }

  /** A CIDR text: none for the empty one. */
  type Cidr = Option<Prefix>

  const LOWER_HALF := Prefix(0, 1)
  const UPPER_HALF := Prefix(0x8000_0000, 1)

  lemma PresentOfMore(s: seq<Cidr>, i: nat)
    requires i <= |s|
    ensures Present([]) == []
    ensures i < |s| ==> Present(s[..i + 1]) == if s[i].Some? then Present(s[..i]) + [s[i].value] else Present(s[..i])
  {
    assert i < |s| ==> s[..i + 1][..i] == s[..i];
  }

  /** router.go, lines 129-141. */
  method CaptureCidrs(fakeIpPool: Cidr, extra: seq<Cidr>) returns (cidrs: seq<Prefix>)
    ensures cidrs == Firsts(Present([fakeIpPool, Some(LOWER_HALF), Some(UPPER_HALF)] + extra))
  {
    assert Firsts([]) == [];
    hide Firsts, Present;
    var base := [fakeIpPool, Some(LOWER_HALF), Some(UPPER_HALF)];
    var all := base + extra;
    var seen: set<Prefix> := {};
    cidrs := [];
    PresentOfMore(all, 0);
    for i := 0 to |all|
      invariant cidrs == Firsts(Present(all[..i]))
      invariant forall c :: c in seen <==> c in cidrs
    {
      PresentOfMore(all, i);
      if all[i] == None || all[i].value in seen {
        if all[i].Some? {
          FirstsOfMore(Present(all[..i]), all[i].value);
        }
        continue;
      }
      FirstsOfMore(Present(all[..i]), all[i].value);
      seen := seen + {all[i].value};
      cidrs := cidrs + [all[i].value];
    }
    assert all[..|all|] == all;
  }

  /** The texts that are not empty. */
  function Present(s: seq<Cidr>): (r: seq<Prefix>)
    ensures forall c :: c in r <==> Some(c) in s
  {
    if s == [] then
      []
    else
      var last := s[|s| - 1];
      assert s == s[..|s| - 1] + [last];
      Present(s[..|s| - 1]) + if last.Some? then [last.value] else []
  }

  /** Every route of the snapshot has a prefix, and prefixes are stored masked. */
  predicate Fetched(entries: seq<Entry>) {
    AllWellformed(entries) && forall e :: e in entries && e.dest.V4? ==> StoredMasked(e.dest.prefix)
  }

  /** The routes that AddRoutes asks for, given the snapshot. */
  function Captures(fakeIpPool: Cidr, entries: seq<Entry>, tunName: string): seq<Prefix>
    requires AllWellformed(entries)
  {
    var refined := Firsts(Wanted(entries, tunName, |entries|));
    Firsts(Present([fakeIpPool, Some(LOWER_HALF), Some(UPPER_HALF)] + Texts(refined)))
  }

  function Texts(s: seq<Prefix>): seq<Cidr> {
    seq(|s|, i requires 0 <= i < |s| => Some(s[i]))
  }

  lemma CapturesAre(fakeIpPool: Cidr, entries: seq<Entry>, tunName: string, c: Prefix)
    requires AllWellformed(entries)
    ensures c in Captures(fakeIpPool, entries, tunName) <==>
      || Some(c) == fakeIpPool || c == LOWER_HALF || c == UPPER_HALF
      || exists e :: e in entries && c in Contribution(e, tunName)
  {
    hide Contribution, Firsts, Present, Wanted;
    WantedIs(entries, tunName, |entries|);
    assert entries[..|entries|] == entries;
    var refined := Firsts(Wanted(entries, tunName, |entries|));
    InTexts(refined, c);
  }

  lemma InTexts(s: seq<Prefix>, c: Prefix)
    ensures c in s <==> Some(c) in Texts(s)
  {
    if c in s {
      var i :| 0 <= i < |s| && s[i] == c;
      assert Texts(s)[i] == Some(c);
    }
  }

  /** A route of length `n` would be preferred to every route of the snapshot. */
  ghost predicate Beats(n: nat, entries: seq<Entry>, a: nat)
    requires AllWellformed(entries)
  {
    forall f :: f in entries && Matches(f, a) ==> Length(f) < n
  }

  /**
   * Another tunnel's route contributes one covering prefix, a bit longer, to each address it covers, and none to
   * others.
   */
  lemma ContributionCovers(e: Entry, tunName: string, a: nat)
    requires e.dest.V4? && Wellformed(e.dest.prefix) && StoredMasked(e.dest.prefix) && a < TWO32
    ensures forall c :: c in Contribution(e, tunName) ==> Wellformed(c) && c.ones == Length(e) + 1
    ensures OfOtherTunnel(e, tunName) && Splittable(e.dest.prefix) ==>
      (Covers(e.dest.prefix, a) <==> exists c :: c in Contribution(e, tunName) && Covers(c, a))
  {
    if OfOtherTunnel(e, tunName) && Splittable(e.dest.prefix) {
      var parts := SplitMoreSpecific(e.dest.prefix);
      SplitPartitions(e.dest.prefix);
      MaskedIsClear(e.dest.prefix);
      hide Covers, Splittable, StoredMasked, NextBitClear, IsTunnelIface;
      assert Halves(parts, e.dest.prefix);
      assert forall c :: c in parts <==> c == parts[0] || c == parts[1];
    }
  }

  lemma HalvesCoverAll(a: nat)
    requires a < TWO32
    ensures Wellformed(LOWER_HALF) && Wellformed(UPPER_HALF) && (Covers(LOWER_HALF, a) || Covers(UPPER_HALF, a))
  {
    Pow32();
    var m := Span(1);
    assert m == 0x8000_0000;
    hide Pow2;
    BlockIs(0, m, 0, 0);
    BlockIs(m, m, 1, 0);
    if a < m {
      BlockIs(a, m, 0, a);
    } else {
      BlockIs(a, m, 1, a - m);
    }
  }

  /** Some captured route would be preferred to every route of the snapshot for `a`. */
  ghost predicate Captured(captures: seq<Prefix>, entries: seq<Entry>, a: nat)
    requires AllWellformed(entries)
  {
    exists c :: c in captures && Wellformed(c) && Covers(c, a) && Beats(c.ones, entries, a)
  }

  /** The best route for `a` is another tunnel's, and its destination is one that gets split. */
  ghost predicate TakenByOther(entries: seq<Entry>, tunName: string, a: nat)
    requires AllWellformed(entries)
  {
    exists e, c :: e in entries && HalvesRoute(e, tunName, c) && BestFor(entries, a, e)
  }

  lemma HalvesOther(e: Entry, tunName: string)
    requires e.dest.V4? ==> Wellformed(e.dest.prefix)
    ensures OfOtherTunnel(e, tunName) && Splittable(e.dest.prefix) <==> exists c :: HalvesRoute(e, tunName, c)
  {
    hide HalvesRoute, IsTunnelIface;
    if OfOtherTunnel(e, tunName) && Splittable(e.dest.prefix) {
      ContributionIs(e, tunName, Contribution(e, tunName)[0]);
    }
    if c :| HalvesRoute(e, tunName, c) {
      ContributionIs(e, tunName, c);
    }
  }

  /**
   * An address is captured exactly when the fake pool's route for it is the longest, or only default routes
   * cover it, or its best route belongs to another tunnel.
   */
  lemma CapturedExactly(fakeIpPool: Cidr, entries: seq<Entry>, tunName: string, a: nat)
    requires Fetched(entries) && a < TWO32 && (fakeIpPool.Some? ==> Wellformed(fakeIpPool.value))
    ensures Captured(Captures(fakeIpPool, entries, tunName), entries, a) <==>
      || (fakeIpPool.Some? && Covers(fakeIpPool.value, a) && Beats(fakeIpPool.value.ones, entries, a))
      || Beats(1, entries, a)
      || TakenByOther(entries, tunName, a)
  {
    hide Captures, Covers, Contribution, Splittable, StoredMasked, IsTunnelIface;
    var captures := Captures(fakeIpPool, entries, tunName);
    HalvesCoverAll(a);
    if Captured(captures, entries, a) {
      var c :| c in captures && Wellformed(c) && Covers(c, a) && Beats(c.ones, entries, a);
      CapturesAre(fakeIpPool, entries, tunName, c);
      if e :| e in entries && c in Contribution(e, tunName) {
        RefinesBest(entries, tunName, a, e, c);
      }
    }
    if fakeIpPool.Some? {
      CapturesAre(fakeIpPool, entries, tunName, fakeIpPool.value);
    }
    CapturesAre(fakeIpPool, entries, tunName, LOWER_HALF);
    CapturesAre(fakeIpPool, entries, tunName, UPPER_HALF);
    if TakenByOther(entries, tunName, a) {
      var e, c0 :| e in entries && HalvesRoute(e, tunName, c0) && BestFor(entries, a, e);
      HalvesOther(e, tunName);
      ContributionCovers(e, tunName, a);
      var c :| c in Contribution(e, tunName) && Covers(c, a);
      CapturesAre(fakeIpPool, entries, tunName, c);
      assert Beats(c.ones, entries, a);
    }
  }

  lemma RefinesBest(entries: seq<Entry>, tunName: string, a: nat, e: Entry, c: Prefix)
    requires Fetched(entries) && a < TWO32 && e in entries && c in Contribution(e, tunName)
    requires Wellformed(c) && Covers(c, a) && Beats(c.ones, entries, a)
    ensures TakenByOther(entries, tunName, a)
  {
    assert OfOtherTunnel(e, tunName) && Splittable(e.dest.prefix);
    hide Covers, Contribution, Splittable, StoredMasked, IsTunnelIface;
    ContributionCovers(e, tunName, a);
    assert Matches(e, a);
    assert BestFor(entries, a, e);
    HalvesOther(e, tunName);
  }

  /** A physical route more specific than every tunnel's route for an address is never outdone by a refined one. */
  lemma RefinedNeverLonger(entries: seq<Entry>, tunName: string, a: nat, p: Entry, c: Prefix)
    requires Fetched(entries) && a < TWO32 && p in entries
    requires forall e :: e in entries && OfOtherTunnel(e, tunName) && Matches(e, a) ==> Length(e) < Length(p)
    requires c in Wanted(entries, tunName, |entries|) && Wellformed(c) && Covers(c, a)
    ensures c.ones <= Length(p)
  {
    WantedIs(entries, tunName, |entries|);
    var e :| e in entries[..|entries|] && c in Contribution(e, tunName);
    assert OfOtherTunnel(e, tunName) && Splittable(e.dest.prefix);
    hide Covers, Contribution, Splittable, StoredMasked, IsTunnelIface;
    ContributionCovers(e, tunName, a);
    assert Matches(e, a);
  }
}
