/** The routing-table snapshot of internal/routetable/table.go. */
module RouteTable {
  import opened Ipv4
  import opened Options
  import opened Words

  datatype Prefix = Prefix(ip: nat, ones: nat)

  /** A 32-bit address under a mask of at most 32 bits; the address may have bits below the mask. */
  predicate Wellformed(p: Prefix) {
    p.ip < TWO32 && p.ones <= 32
  }

  /** What a route's destination may be: absent, something that no IPv4 address matches, or an IPv4 prefix. */
  datatype Dest = NoDest | Other(bits: nat) | V4(prefix: Prefix)

  datatype Entry = Entry(dest: Dest, gateway: string, iface: string)

  /** Every route has a destination: the sort and the search read it without asking. */
  predicate HaveDest(entries: seq<Entry>) {
    forall e :: e in entries ==> !e.dest.NoDest?
  }

  predicate AllWellformed(entries: seq<Entry>) {
    forall e :: e in entries && e.dest.V4? ==> Wellformed(e.dest.prefix)
  }

  /** Which of the blocks of its size an address lies in: what is left of it under the mask. */
  function Block(a: nat, ones: nat): nat
    requires ones <= 32
  {
    BlockOf(a, Span(ones))
  }

  /** Containment masks the address and the network alike. */
  predicate Covers(p: Prefix, a: nat)
    requires Wellformed(p)
  {
    Block(a, p.ones) == Block(p.ip, p.ones)
  }

  predicate Matches(e: Entry, a: nat)
    requires e.dest.V4? ==> Wellformed(e.dest.prefix)
  {
    e.dest.V4? && Covers(e.dest.prefix, a)
  }

  function Length(e: Entry): nat {
    match e.dest
    case NoDest => 0
    case Other(bits) => bits
    case V4(p) => p.ones
  }

  /** Longest prefix first. */
  predicate Descending(entries: seq<Entry>) {
    forall i, j :: 0 <= i < j < |entries| ==> Length(entries[i]) >= Length(entries[j])
  }

  /** `e` is the most specific route of `entries` for `a`. */
  predicate BestFor(entries: seq<Entry>, a: nat, e: Entry)
    requires AllWellformed(entries)
  {
    && e in entries && Matches(e, a)
    && forall f :: f in entries && Matches(f, a) ==> Length(f) <= Length(e)
  }

  class Table {
    var entries: seq<Entry>

    ghost predicate Valid()
      reads this
    {
      Descending(entries) && AllWellformed(entries) && HaveDest(entries)
    }

    constructor ()
      ensures Valid() && entries == []
    {
      entries := [];
    }

    /** Lines 24-33. The sort is the library's and not stable: `sorted` is whichever order it left. */
    method Replace(fetched: seq<Entry>, sorted: seq<Entry>)
      requires AllWellformed(fetched) && HaveDest(fetched) && Descending(sorted)
        && multiset(sorted) == multiset(fetched)
      modifies this
      ensures Valid() && entries == sorted
      ensures forall e :: e in entries <==> e in fetched
    {
      SameMembers(sorted, fetched);
      entries := sorted;
    }

    /** Lines 36-45: the first match is the longest, and there is an error exactly when nothing matches. */
    method Lookup(a: nat) returns (r: Option<Entry>)
      requires Valid()
      ensures r.Some? ==> BestFor(entries, a, r.value)
      ensures r == None <==> forall e :: e in entries ==> !Matches(e, a)
    {
      for i := 0 to |entries|
        invariant forall j :: 0 <= j < i ==> !Matches(entries[j], a)
      {
        if Matches(entries[i], a) {
          return Some(entries[i]);
        }
      }
      r := None;
    }
  }

  lemma SameMembers(s: seq<Entry>, t: seq<Entry>)
    requires multiset(s) == multiset(t)
    ensures forall e :: e in s <==> e in t
  {
    forall e
      ensures e in s <==> e in t
    {
      assert e in s <==> e in multiset(s);
      assert e in t <==> e in multiset(t);
    }
  }

  /** Two best routes for an address have the same network: only a doubled route leaves a choice to the sort. */
  lemma BestIsOneNetwork(entries: seq<Entry>, a: nat, e: Entry, f: Entry)
    requires AllWellformed(entries) && BestFor(entries, a, e) && BestFor(entries, a, f)
    ensures e.dest.prefix.ones == f.dest.prefix.ones
    ensures forall b: nat :: Matches(e, b) <==> Matches(f, b)
  {
    assert Length(e) <= Length(f) && Length(f) <= Length(e);
  }
}
