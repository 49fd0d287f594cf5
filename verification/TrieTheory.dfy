/** What the invariant of the trie pins down: the whole structure is a function of its entries. */
module TrieTheory {
  import opened Options
  import opened Prefixes
  import opened TrieShape

  ghost predicate WellFormed(s: Shape, entries: set<Bits>) {
    s.Linked() && s.Compressed(entries)
  }

  /** The entries part at `p`: some lie on each side of it. */
  ghost predicate PartAt(entries: set<Bits>, p: Bits) {
    exists a, b :: a in entries && b in entries && Below(p, false, a) && Below(p, true, b)
  }

  /** The node that hangs at `t`, with what lies below it. */
  ghost function SubTrie(m: set<Bits>, p: Bits): set<Bits> {
    set q | q in m && p <= q
  }

  ghost function Beyond(m: set<Bits>, p: Bits, b: bool): set<Bits> {
    set q | q in m && Below(p, b, q)
  }

  lemma SubTrieParts(m: set<Bits>, p: Bits)
    ensures SubTrie(m, p) == (m * {p}) + Beyond(m, p, false) + Beyond(m, p, true)
    ensures |SubTrie(m, p)| == |m * {p}| + |Beyond(m, p, false)| + |Beyond(m, p, true)|
  {
    forall q | q in m && p <= q && q != p
      ensures Below(p, q[|p|], q)
    {
    }
    assert SubTrie(m, p) == (m * {p}) + Beyond(m, p, false) + Beyond(m, p, true);
    assert (m * {p}) !! Beyond(m, p, false) && (m * {p} + Beyond(m, p, false)) !! Beyond(m, p, true);
  }

  /** What lies beyond a side of a node is what lies under the child there. */
  lemma BeyondIsChild(s: Shape, m: set<Bits>, p: Bits, b: bool)
    requires s.Linked() && p in s.cells && m <= s.cells.Keys
    ensures var c := s.cells[p].Child(b);
            Beyond(m, p, b) == if c.None? then {} else SubTrie(m, c.value)
    ensures var c := s.cells[p].Child(b); c.Some? ==> c.value in s.cells && Below(p, b, c.value)
  {
    assert s.PlaceOk(AtChild(p, b));
  }

  /** A node stands for at least one entry, and for at least half of the nodes below it. */
  lemma {:induction false} EntriesBelow(s: Shape, entries: set<Bits>, p: Bits)
    requires WellFormed(s, entries) && p in s.cells
    ensures |SubTrie(s.cells.Keys, p)| + 1 <= 2 * |SubTrie(entries, p)|
    decreases |SubTrie(s.cells.Keys, p)|
  {
    SubTrieParts(s.cells.Keys, p);
    SubTrieParts(entries, p);
    assert s.cells.Keys * {p} == {p} && entries * {p} == if p in entries then {p} else {};
    SideBelow(s, entries, p, false);
    SideBelow(s, entries, p, true);
  }

  lemma {:induction false} SideBelow(s: Shape, entries: set<Bits>, p: Bits, b: bool)
    requires WellFormed(s, entries) && p in s.cells
    ensures var n, e := |Beyond(s.cells.Keys, p, b)|, |Beyond(entries, p, b)|;
            if s.cells[p].Child(b).None? then n == 0 else n + 1 <= 2 * e
    decreases |SubTrie(s.cells.Keys, p)|, 0
  {
    BeyondIsChild(s, s.cells.Keys, p, b);
    BeyondIsChild(s, entries, p, b);
    var c := s.cells[p].Child(b);
    if c.Some? {
      SubTrieParts(s.cells.Keys, p);
      assert p in s.cells.Keys * {p};
      EntriesBelow(s, entries, c.value);
    }
  }

  /** The longest node that is a proper prefix of `k`, of length below `n`. */
  ghost function Above(s: Shape, k: Bits, n: nat): (o: Option<Bits>)
    requires n <= |k|
    ensures o.Some? ==> o.value in s.cells && o.value <= k && |o.value| < n
    ensures forall q :: q in s.cells && q <= k && |q| < n ==> o.Some? && |q| <= |o.value|
  {
    if n == 0 then None
    else if k[..n - 1] in s.cells then
      assert k[..n - 1] <= k;
      Some(k[..n - 1])
    else
      assert forall q :: q <= k && |q| == n - 1 ==> q == k[..n - 1];
      Above(s, k, n - 1)
  }

  /** Where the entries part there is a node. */
  lemma PartingHasNode(s: Shape, entries: set<Bits>, p: Bits)
    requires WellFormed(s, entries) && PartAt(entries, p)
    ensures p in s.cells
  {
    var a, b :| a in entries && b in entries && Below(p, false, a) && Below(p, true, b);
    var above := Above(s, p, |p|);
    var t := PlaceBelow(above, p);
    assert Under(t, a) && Under(t, b) && s.PlaceOk(t);
    var c := s.Get(t).value;
    MeetOfSides(p, a, b, c);
    assert c in s.cells && c <= p && (|c| < |p| || c == p);
  }

  lemma MeetOfSides(p: Bits, a: Bits, b: Bits, c: Bits)
    requires Below(p, false, a) && Below(p, true, b) && c <= a && c <= b
    ensures c <= p
  {
    assert forall i :: 0 <= i < |c| ==> c[i] == a[i] && c[i] == b[i];
    assert a[|p|] != b[|p|] && |c| <= |p|;
    assert c == a[..|c|] == p[..|c|];
  }

  lemma SideHasEntry(s: Shape, entries: set<Bits>, p: Bits, b: bool)
    requires WellFormed(s, entries) && p in s.cells && s.cells[p].Child(b).Some?
    ensures exists a :: a in entries && Below(p, b, a)
  {
    SideBelow(s, entries, p, b);
    var a :| a in Beyond(entries, p, b);
  }

  /** The nodes are the entries and the points where they part, and no others. */
  lemma NodesAre(s: Shape, entries: set<Bits>, p: Bits)
    requires WellFormed(s, entries)
    ensures p in s.cells <==> p in entries || PartAt(entries, p)
  {
    if p in s.cells && p !in entries {
      SideHasEntry(s, entries, p, false);
      SideHasEntry(s, entries, p, true);
    }
    if PartAt(entries, p) {
      PartingHasNode(s, entries, p);
    }
  }

  lemma SameGet(s: Shape, s': Shape, t: Place)
    requires s.Linked() && s'.Linked() && s.cells.Keys == s'.cells.Keys && s.Has(t)
    ensures s.Get(t) == s'.Get(t)
  {
    assert s.PlaceOk(t) && s'.PlaceOk(t);
    assert forall q :: q in s.cells <==> q in s'.cells;
    var c, c' := s.Get(t), s'.Get(t);
    assert c.Some? <==> c'.Some?;
    if c.Some? {
      assert c.value <= c'.value && c'.value <= c.value;
      assert c.value == c'.value[..|c.value|] == c'.value;
    }
  }

  /** The trie is canonical: its entries determine it, whatever was inserted and removed on the way. */
  lemma Canonical(s: Shape, s': Shape, entries: set<Bits>)
    requires WellFormed(s, entries) && WellFormed(s', entries)
    ensures s == s'
  {
    forall p
      ensures p in s.cells <==> p in s'.cells
    {
      NodesAre(s, entries, p);
      NodesAre(s', entries, p);
    }
    assert s.cells.Keys == s'.cells.Keys;
    SameGet(s, s', AtRoot);
    forall p | p in s.cells
      ensures s.cells[p] == s'.cells[p]
    {
      SameGet(s, s', AtChild(p, false));
      SameGet(s, s', AtChild(p, true));
    }
  }

  /** At most `2n - 1` nodes for `n` entries, and none at all for none. */
  lemma NodeCount(s: Shape, entries: set<Bits>)
    requires WellFormed(s, entries)
    ensures entries == {} ==> s == Shape(None, map[])
    ensures entries != {} ==> |s.cells| <= 2 * |entries| - 1
  {
    assert s.PlaceOk(AtRoot);
    if s.root.None? {
      forall q
        ensures q !in s.cells
      {
        assert Under(AtRoot, q);
      }
    } else {
      var r := s.root.value;
      EntriesBelow(s, entries, r);
      assert forall q {:trigger q in s.cells} :: q in s.cells ==> Under(AtRoot, q) && r <= q;
      assert SubTrie(s.cells.Keys, r) == s.cells.Keys && SubTrie(entries, r) == entries;
      assert |s.cells| == |s.cells.Keys|;
    }
  }
}
