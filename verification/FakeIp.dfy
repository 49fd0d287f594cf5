/** The fake-address pool of internal/fakeip/pool.go. Addresses are 32-bit numbers. */
module FakeIp {
  import opened Ipv4
  import opened Options
  import opened Words

  /** Line 67, in 32-bit arithmetic: shifting a one out leaves zero, and zero minus two wraps. */
  function SizeOf(ones: nat): nat
    requires ones <= 32
  {
    (Span(ones) % TWO32 + TWO32 - 2) % TWO32
  }

  /** A network address, with all of its span within 32 bits. */
  predicate Aligned(network: nat, ones: nat)
    requires ones <= 32
  {
    network % Span(ones) == 0 && network + Span(ones) <= TWO32
  }

  lemma Wrapped(n: nat)
    requires 2 <= n <= TWO32
    ensures (n % TWO32 + TWO32 - 2) % TWO32 == n - 2
  {
  }

  /** The wrap is harmless: even for the whole address space the size is two less than the span. */
  lemma SizeIs(ones: nat)
    requires ones < 32
    ensures 2 <= Span(ones) <= TWO32 && SizeOf(ones) == Span(ones) - 2
    ensures SizeOf(ones) == 0 <==> ones == 31
  {
    assert Pow2(1) == 2 && Pow2(2) == 4;
    hide Pow2;
    PowGrows(1, 32 - ones);
    PowGrows(32 - ones, 32);
    Pow32();
    if ones < 31 {
      PowGrows(2, 32 - ones);
    }
    Wrapped(Span(ones));
  }

  /** The offset the `i`th fresh allocation takes in a pool of `m`. */
  function Slot(i: nat, m: nat): (s: nat)
    requires m > 0
    ensures s < m
  {
    i % m
  }

  /** Two numbers less than `m` apart are not the same modulo `m`. */
  lemma ModApart(a: nat, b: nat, m: nat)
    requires b < a < b + m
    ensures Slot(a, m) != Slot(b, m)
  {
    var d := a / m - b / m;
    assert a == m * (a / m) + a % m && b == m * (b / m) + b % m;
    assert a - b == m * d + (a % m - b % m);
    assert d >= 1 ==> m * d >= m;
    assert d <= 0 ==> m * d <= 0;
  }

  lemma SlotSmall(a: nat, m: nat)
    requires a < m
    ensures a % m == a == Slot(a, m)
  {
  }

  lemma ModStep(a: nat, m: nat)
    requires m > 0
    ensures (Slot(a, m) + 1) % m == Slot(a + 1, m)
  {
    var q, r := a / m, a % m;
    assert a == m * q + r;
    if r + 1 == m {
      assert a + 1 == m * (q + 1);
      ModIs(a + 1, m, q + 1, 0);
      ModIs(m, m, 1, 0);
    } else {
      ModIs(a + 1, m, q, r + 1);
      SlotSmall(r + 1, m);
    }
  }

  /** Two maps between domains and offsets that undo each other, over offsets below `size`. */
  ghost predicate Inverses(offsetOf: map<string, nat>, domainAt: map<nat, string>, size: nat) {
    && (forall d :: d in offsetOf ==> offsetOf[d] < size && offsetOf[d] in domainAt && domainAt[offsetOf[d]] == d)
    && (forall o :: o in domainAt ==> o < size && domainAt[o] in offsetOf && offsetOf[domainAt[o]] == o)
  }

  /** Lines 103-108: the two maps once `d` has taken offset `o` from whoever had it. */
  function Evict(offsetOf: map<string, nat>, domainAt: map<nat, string>, o: nat): map<string, nat> {
    if o in domainAt then offsetOf - {domainAt[o]} else offsetOf
  }

  /** Taking over an offset keeps the maps inverse, and touches no domain at another offset. */
  lemma TakeOver(offsetOf: map<string, nat>, domainAt: map<nat, string>, size: nat, d: string, o: nat)
    requires Inverses(offsetOf, domainAt, size) && o < size && d !in offsetOf
    ensures Inverses(Evict(offsetOf, domainAt, o)[d := o], domainAt[o := d], size)
    ensures forall e ::
      e in offsetOf && offsetOf[e] != o ==>
        e in Evict(offsetOf, domainAt, o) && Evict(offsetOf, domainAt, o)[e] == offsetOf[e]
  {
  }

  /** The oldest of `n` allocations that a pool of `size` has not taken back. */
  function Oldest(n: nat, size: nat): nat {
    if n <= size then 0 else n - size
  }

  /** Allocation `i` still holds, at the offset it was given. */
  ghost predicate Holds(order: seq<string>, offsetOf: map<string, nat>, domainAt: map<nat, string>, size: nat, i: nat)
    requires i < |order| && size > 0
  {
    && order[i] in offsetOf && offsetOf[order[i]] == Slot(i, size)
    && Slot(i, size) in domainAt && domainAt[Slot(i, size)] == order[i]
  }

  /** The maps hold the last `size` of the allocations made, at the offsets they were given. */
  ghost predicate Recent(order: seq<string>, offsetOf: map<string, nat>, domainAt: map<nat, string>, size: nat)
    requires size > 0
  {
    && (forall i: nat :: Oldest(|order|, size) <= i < |order| ==> Holds(order, offsetOf, domainAt, size, i))
    && (|order| < size ==> forall o :: o in domainAt ==> o < |order|)
  }

  /** The next allocation takes the offset of the oldest one, and of no other. */
  lemma NextKeepsRecent(order: seq<string>, offsetOf: map<string, nat>, domainAt: map<nat, string>, size: nat,
                        d: string)
    requires size > 0 && Inverses(offsetOf, domainAt, size) && d !in offsetOf && Recent(order, offsetOf, domainAt, size)
    ensures var o := Slot(|order|, size);
      Recent(order + [d], Evict(offsetOf, domainAt, o)[d := o], domainAt[o := d], size)
  {
    var n, o := |order|, Slot(|order|, size);
    TakeOver(offsetOf, domainAt, size, d, o);
    hide Slot, Inverses, Evict;
    if n < size {
      SlotSmall(n, size);
    }
    var offsetOf', domainAt' := Evict(offsetOf, domainAt, o)[d := o], domainAt[o := d];
    forall i: nat | Oldest(n + 1, size) <= i < n + 1
      ensures Holds(order + [d], offsetOf', domainAt', size, i)
    {
      if i < n {
        assert Holds(order, offsetOf, domainAt, size, i);
        ModApart(n, i, size);
        assert (order + [d])[i] == order[i];
      }
    }
  }

  class Pool {
    const network: nat
    const ones: nat
    const base: nat
    const size: nat
    var next: nat
    var domainToOffset: map<string, nat>
    var offsetToDomain: map<nat, string>
    /** Every fresh allocation so far, oldest first. */
    ghost var order: seq<string>

    /** The prefix is an IPv4 network with host addresses. */
    ghost predicate Shaped() {
      && ones < 31 && size == Span(ones) - 2 && size > 0
      && Aligned(network, ones) && base == network + 1
    }

    /** The two maps are inverse to each other, and hold the last `size` fresh allocations. */
    ghost predicate Valid()
      reads this
    {
      && Shaped() && next == Slot(|order|, size)
      && Inverses(domainToOffset, offsetToDomain, size)
      && Recent(order, domainToOffset, offsetToDomain, size)
    }

    /** A host address of the prefix: neither the network's own nor the broadcast address. */
    ghost predicate HostAddress(ip: nat)
      requires ones <= 32
    {
      network < ip < network + Span(ones) - 1
    }

    constructor Of(network: nat, ones: nat)
      requires ones < 31 && Aligned(network, ones)
      ensures Valid() && this.network == network && this.ones == ones && order == []
    {
      SizeIs(ones);
      this.network, this.ones := network, ones;
      base := network + 1;
      size := SizeOf(ones);
      next := 0;
      domainToOffset, offsetToDomain := map[], map[];
      order := [];
    }

    /** Lines 48-81, once the text has parsed: a prefix of 31 bits or more has no host addresses. */
    static method New(ip: nat, ones: nat) returns (p: Pool?)
      requires ip < TWO32 && ones <= 32
      ensures p == null <==> ones >= 31
      ensures p != null ==>
        fresh(p) && p.Valid() && p.ones == ones && p.order == [] && p.network <= ip < p.network + Span(ones)
    {
      hide Slot, Aligned;
      if ones >= 32 {
        return null;
      }
      SizeIs(ones);
      Masked(ip, ones);
      var network := ip - ip % Span(ones);
      var size := SizeOf(ones);
      if size == 0 {
        return null;
      }
      p := new Pool.Of(network, ones);
    }

    /** Lines 86-114: the address of a domain. A new domain takes the next offset, from whoever had it. */
    method Assign(domain: string) returns (ip: nat)
      requires Valid()
      modifies this
      ensures Valid() && HostAddress(ip) && domain in domainToOffset && ip == base + domainToOffset[domain]
      ensures domain in old(domainToOffset) ==>
        order == old(order) && domainToOffset == old(domainToOffset) && offsetToDomain == old(offsetToDomain)
      ensures domain !in old(domainToOffset) ==> order == old(order) + [domain]
    {
      assert domain in domainToOffset ==> domainToOffset[domain] < size;
      hide Slot, Aligned, Span, Inverses, Recent;
      if domain in domainToOffset {
        return base + domainToOffset[domain];
      }
      ModStep(|order|, size);
      NextKeepsRecent(order, domainToOffset, offsetToDomain, size, domain);
      var offset := next;
      TakeOver(domainToOffset, offsetToDomain, size, domain, offset);
      next := (next + 1) % size;
      if offset in offsetToDomain {
        domainToOffset := domainToOffset - {offsetToDomain[offset]};
      }
      domainToOffset := domainToOffset[domain := offset];
      offsetToDomain := offsetToDomain[offset := domain];
      order := order + [domain];
      ip := base + offset;
    }

    /** Lines 117-132: the domain an address stands for. */
    method Lookup(ip: nat) returns (domain: Option<string>)
      requires Valid()
      ensures domain.Some? ==>
        domain.value in domainToOffset && base + domainToOffset[domain.value] == ip && HostAddress(ip)
      ensures forall d :: d in domainToOffset && base + domainToOffset[d] == ip ==> domain == Some(d)
    {
      if ip < base || ip >= base + size {
        return None;
      }
      var offset := ip - base;
      return if offset in offsetToDomain then Some(offsetToDomain[offset]) else None;
    }

    /** A domain keeps its address exactly until `size` fresh allocations have been made after its own. */
    lemma LiveExactly(d: string)
      requires Valid()
      ensures d in domainToOffset <==>
        exists i: nat {:trigger order[i]} :: Oldest(|order|, size) <= i < |order| && order[i] == d
    {
      hide Slot, Aligned, Span;
      if d in domainToOffset {
        var o := domainToOffset[d];
        var i := Latest(o);
        assert Holds(order, domainToOffset, offsetToDomain, size, i);
      }
      if exists i: nat {:trigger order[i]} :: Oldest(|order|, size) <= i < |order| && order[i] == d {
        var i: nat :| Oldest(|order|, size) <= i < |order| && order[i] == d;
        assert Holds(order, domainToOffset, offsetToDomain, size, i);
      }
    }

    /** The allocation that holds an offset in use. */
    lemma Latest(o: nat) returns (i: nat)
      requires Valid() && o in offsetToDomain
      ensures Oldest(|order|, size) <= i < |order| && Slot(i, size) == o
    {
      hide Slot, Aligned, Span;
      var n := |order|;
      if n < size {
        i := o;
        SlotSmall(o, size);
      } else {
        i := Congruent(n - size, o, size);
      }
    }

    /** No two live domains share an address, and no domain has two. */
    lemma LiveDistinct(i: nat, j: nat)
      requires Valid() && Oldest(|order|, size) <= i < j < |order|
      ensures order[i] != order[j] && order[i] in domainToOffset && order[j] in domainToOffset
      ensures domainToOffset[order[i]] != domainToOffset[order[j]]
    {
      hide Slot, Aligned, Span;
      assert Holds(order, domainToOffset, offsetToDomain, size, i)
        && Holds(order, domainToOffset, offsetToDomain, size, j);
      ModApart(j, i, size);
    }
  }

  lemma Masked(ip: nat, ones: nat)
    requires ip < TWO32 && ones < 32
    ensures ip % Span(ones) <= ip && Aligned(ip - ip % Span(ones), ones)
  {
    hide Pow2;
    PowAdd(32 - ones, ones);
    Pow32();
    MaskedFits(Span(ones), ip, Pow2(ones));
  }

  lemma MaskedFits(m: nat, ip: nat, k: nat)
    requires m > 0 && ip < m * k
    ensures ip % m <= ip && (ip - ip % m) % m == 0 && ip - ip % m + m <= m * k
  {
    var q, r := ip / m, ip % m;
    assert ip == m * q + r && m * q == ip - r;
    ModIs(m * q, m, q, 0);
    BlockFits(m, q, r, k);
  }

  /** Among `m` consecutive numbers one has a given remainder. */
  lemma Congruent(from: nat, o: nat, m: nat) returns (i: nat)
    requires o < m
    ensures from <= i < from + m && Slot(i, m) == o
  {
    var r := from % m;
    var base := from - r;
    assert from == m * (from / m) + r;
    if o >= r {
      i := base + o;
      ModIs(i, m, from / m, o);
    } else {
      i := base + m + o;
      assert m * (from / m + 1) == m * (from / m) + m;
      ModIs(i, m, from / m + 1, o);
    }
  }
}
