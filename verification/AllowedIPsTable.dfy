/**
 * The table of wireguard-go/device/allowedips.go: a trie for each address family, and for every peer the list of its
 * nodes in both.
 */
module AllowedIPsTable {
  import opened Options
  import opened Prefixes
  import opened Sequences
  import opened TrieShape
  import opened AllowedIPs
  import opened TrieTheory

  lemma WithoutMembers(s: seq<TrieEntry>, n: TrieEntry)
    ensures forall m :: m in Without(s, n) <==> m in s && m != n
  {
    forall m
      ensures m in Without(s, n) <==> m in s && m != n
    {
      assert m in Without(s, n) <==> m in (set x | x in Without(s, n));
      assert m in s <==> m in (set x | x in s);
    }
  }

  lemma {:induction false} WithoutNoDup(s: seq<TrieEntry>, n: TrieEntry)
    requires NoDup(s)
    ensures NoDup(Without(s, n))
  {
    if s != [] {
      WithoutNoDup(s[1..], n);
      WithoutMembers(s[1..], n);
      var rest := Without(s[1..], n);
      assert s[0] !in s[1..];
      assert s[0] !in rest;
    }
  }

  /** `n` is the node through which the trie gives a prefix to `q`. */
  ghost predicate Owns(m: map<Bits, TrieEntry>, e: map<Bits, Peer>, n: TrieEntry, q: Peer) {
    Refers(m, n, Some(n.key)) && n.key in e && e[n.key] == q
  }

  /** Every prefix of the trie is on the list of the peer that has it. */
  ghost predicate AllOnLists(m: map<Bits, TrieEntry>, e: map<Bits, Peer>, lists: map<Peer, seq<TrieEntry>>) {
    forall k {:trigger e[k]} :: k in e ==> e[k] in lists && k in m && m[k] in lists[e[k]]
  }

  /** Every peer's list holds the nodes of its prefixes in the two tries, once each, and nothing else. */
  ghost predicate ListsOk(m: map<Bits, TrieEntry>, e: map<Bits, Peer>, mo: map<Bits, TrieEntry>, eo: map<Bits, Peer>,
                          lists: map<Peer, seq<TrieEntry>>) {
    && (forall q, n :: q in lists && n in lists[q] ==> Owns(m, e, n, q) || Owns(mo, eo, n, q))
    && AllOnLists(m, e, lists) && AllOnLists(mo, eo, lists)
    && (forall q :: q in lists ==> NoDup(lists[q]))
  }

  lemma ListsSwap(m: map<Bits, TrieEntry>, e: map<Bits, Peer>, mo: map<Bits, TrieEntry>, eo: map<Bits, Peer>,
                  lists: map<Peer, seq<TrieEntry>>)
    ensures ListsOk(m, e, mo, eo, lists) <==> ListsOk(mo, eo, m, e, lists)
  {
  }

  ghost function ListsOf(peers: set<Peer>): map<Peer, seq<TrieEntry>>
    reads peers`trieEntries
  {
    map q | q in peers :: q.trieEntries
  }

  lemma ListsAfterInsert(m: map<Bits, TrieEntry>, m': map<Bits, TrieEntry>, e: map<Bits, Peer>, n: TrieEntry,
                         peer: Peer, mo: map<Bits, TrieEntry>, eo: map<Bits, Peer>, lists: map<Peer, seq<TrieEntry>>,
                         lists': map<Peer, seq<TrieEntry>>)
    requires ListsOk(m, e, mo, eo, lists) && peer in lists && lists'.Keys == lists.Keys && Refers(m', n, Some(n.key))
    requires forall p :: p in m ==> p in m' && m'[p] == m[p] && m[p].key == p
    requires forall p :: p in mo ==> mo[p] != n
    requires forall q :: q in lists ==> lists'[q] == Relisted(lists[q], n, q == peer)
    ensures ListsOk(m', e[n.key := peer], mo, eo, lists')
  {
    forall q | q in lists
      ensures NoDup(lists'[q])
      ensures forall x :: x in lists'[q] ==> Owns(m', e[n.key := peer], x, q) || Owns(mo, eo, x, q)
      ensures forall x :: x in lists[q] && x != n ==> x in lists'[q]
    {
      hide AllOnLists, Relisted, NoDup, Owns;
      RelistedList(lists[q], n, q == peer);
      forall x | x in lists'[q]
        ensures Owns(m', e[n.key := peer], x, q) || Owns(mo, eo, x, q)
      {
        StillOwns(m, m', e, n, peer, x, q);
        assert x == n || Owns(m, e, x, q) || Owns(mo, eo, x, q);
      }
    }
  }

  lemma RelistedList(s: seq<TrieEntry>, n: TrieEntry, on: bool)
    requires NoDup(s)
    ensures NoDup(Relisted(s, n, on))
    ensures forall x :: x in Relisted(s, n, on) <==> (x in s && x != n) || (on && x == n)
  {
    WithoutNoDup(s, n);
    WithoutMembers(s, n);
  }

  lemma StillOwns(m: map<Bits, TrieEntry>, m': map<Bits, TrieEntry>, e: map<Bits, Peer>, n: TrieEntry, peer: Peer,
                  x: TrieEntry, q: Peer)
    requires Refers(m', n, Some(n.key)) && forall p :: p in m ==> p in m' && m'[p] == m[p] && m[p].key == p
    ensures x != n && Owns(m, e, x, q) ==> Owns(m', e[n.key := peer], x, q)
    ensures x == n && q == peer ==> Owns(m', e[n.key := peer], x, q)
  {
  }

  lemma ListsAfterRemove(m: map<Bits, TrieEntry>, m': map<Bits, TrieEntry>, e: map<Bits, Peer>, n: TrieEntry,
                         mo: map<Bits, TrieEntry>, eo: map<Bits, Peer>,
                         lists: map<Peer, seq<TrieEntry>>, lists': map<Peer, seq<TrieEntry>>)
    requires ListsOk(m, e, mo, eo, lists) && lists'.Keys == lists.Keys && Refers(m, n, Some(n.key))
    requires forall p :: p in m' ==> p in m && m'[p] == m[p] && m[p].key == p
    requires e.Keys - {n.key} <= m'.Keys
    requires forall p :: p in mo ==> mo[p] != n
    requires forall q :: q in lists ==> lists'[q] == Without(lists[q], n)
    ensures ListsOk(m', e - {n.key}, mo, eo, lists')
  {
    forall q | q in lists
      ensures NoDup(lists'[q])
      ensures forall x :: x in lists'[q] ==> Owns(m', e - {n.key}, x, q) || Owns(mo, eo, x, q)
      ensures forall x :: x in lists[q] && x != n ==> x in lists'[q]
    {
      WithoutNoDup(lists[q], n);
      WithoutMembers(lists[q], n);
      forall x | x in lists'[q]
        ensures Owns(m', e - {n.key}, x, q) || Owns(mo, eo, x, q)
      {
        assert Owns(m, e, x, q) || Owns(mo, eo, x, q);
      }
    }
  }

  /** The table without one peer's prefixes. */
  ghost function Strip(e: map<Bits, Peer>, q: Peer): map<Bits, Peer> {
    map k | k in e && e[k] != q :: e[k]
  }

  const IPV4_BITS := 32
  const IPV6_BITS := 128

  /** What the table says: which peer has which prefix, in each family. */
  datatype Routes = Routes(v4: map<Bits, Peer>, v6: map<Bits, Peer>) {
    ghost function Of(is6: bool): map<Bits, Peer> {
      if is6 then v6 else v4
    }

    ghost function Set(is6: bool, e: map<Bits, Peer>): Routes {
      if is6 then this.(v6 := e) else this.(v4 := e)
    }
  }

  ghost function StripAll(r: Routes, q: Peer): Routes {
    Routes(Strip(r.v4, q), Strip(r.v6, q))
  }

  lemma StripDrop(r: Routes, is6: bool, k: Bits, q: Peer)
    requires k in r.Of(is6) && r.Of(is6)[k] == q
    ensures StripAll(r.Set(is6, r.Of(is6) - {k}), q) == StripAll(r, q)
  {
    assert Strip(r.Of(is6) - {k}, q) == Strip(r.Of(is6), q);
  }

  datatype Op =
    | Insert(is6: bool, ip: Bits, cidr: nat, peer: Peer)
    | Remove(is6: bool, ip: Bits, cidr: nat, peer: Peer)
    | RemoveByPeer(peer: Peer)

  ghost function Taken(e: map<Bits, Peer>, k: Bits, peer: Peer): map<Bits, Peer> {
    if k in e && e[k] == peer then e - {k} else e
  }

  ghost function Apply(r: Routes, op: Op): Routes {
    match op
    case Insert(is6, ip, cidr, peer) => if cidr <= |ip| then r.Set(is6, r.Of(is6)[ip[..cidr] := peer]) else r
    case Remove(is6, ip, cidr, peer) => if cidr <= |ip| then r.Set(is6, Taken(r.Of(is6), ip[..cidr], peer)) else r
    case RemoveByPeer(peer) => StripAll(r, peer)
  }

  ghost function ApplyAll(r: Routes, ops: seq<Op>): Routes
    decreases |ops|
  {
    if ops == [] then r else ApplyAll(Apply(r, ops[0]), ops[1..])
  }

  /** Giving a free prefix to a peer and taking it back changes nothing. */
  lemma UndoneRoutes(r: Routes, is6: bool, ip: Bits, cidr: nat, peer: Peer)
    requires cidr <= |ip| && ip[..cidr] !in r.Of(is6)
    ensures ApplyAll(r, [Op.Insert(is6, ip, cidr, peer), Op.Remove(is6, ip, cidr, peer)]) == r
  {
    var ops := [Op.Insert(is6, ip, cidr, peer), Op.Remove(is6, ip, cidr, peer)];
    var r' := Apply(r, ops[0]);
    assert r'.Of(is6) - {ip[..cidr]} == r.Of(is6);
    assert Apply(r', ops[1]) == r;
    assert ApplyAll(r, ops) == ApplyAll(r', ops[1..]) && ApplyAll(r', ops[1..]) == ApplyAll(r, ops[1..][1..]);
  }

  /** Nodes have gone, and the others are where they were. */
  ghost predicate Within(m': map<Bits, TrieEntry>, m: map<Bits, TrieEntry>) {
    forall p :: p in m' ==> p in m && m'[p] == m[p]
  }

  lemma WithinChain(a: map<Bits, TrieEntry>, b: map<Bits, TrieEntry>, c: map<Bits, TrieEntry>)
    requires Within(a, b) && Within(b, c)
    ensures Within(a, c)
  {
  }

  lemma WithinSelf(a: map<Bits, TrieEntry>)
    ensures Within(a, a)
  {
  }

  /** The nodes that have stayed are where they were. */
  ghost predicate Agree(m': map<Bits, TrieEntry>, m: map<Bits, TrieEntry>) {
    forall p :: p in m' && p in m ==> m'[p] == m[p]
  }

  /** The two tries, and the peers whose lists hold nodes of both. */
  class Table {
    const trie4: Trie
    const trie6: Trie
    ghost var peers: set<Peer>

    constructor ()
      ensures Valid() && Entries() == Routes(map[], map[]) && fresh(trie4) && fresh(trie6) && peers == {}
    {
      hide Shape.Linked, Shape.Compressed, Owns, NoDup;
      trie4 := new Trie(IPV4_BITS);
      trie6 := new Trie(IPV6_BITS);
      peers := {};
    }

    function Family(is6: bool): Trie {
      if is6 then trie6 else trie4
    }

    ghost predicate Widths() {
      trie4.width == IPV4_BITS && trie6.width == IPV6_BITS
    }

    ghost predicate Valid()
      reads this`peers, peers`trieEntries
      reads trie4`at, trie4`shape, trie4`loose, trie4`entries, trie4.Cells()`p
      reads trie4.at.Values`parent, trie4.at.Values`peer, trie4.at.Values`perPeerElem
      reads trie6`at, trie6`shape, trie6`loose, trie6`entries, trie6.Cells()`p
      reads trie6.at.Values`parent, trie6.at.Values`peer, trie6.at.Values`perPeerElem
    {
      // Comparing with `true` makes this one fact to the verifier; else it proves conjunct by conjunct at every use.
      (Widths() && trie4.Valid() && trie6.Valid()
      && ListsOk(trie4.at, trie4.entries, trie6.at, trie6.entries, ListsOf(peers))) == true
    }

    /** `Valid`, as seen from one of the families. */
    ghost predicate Pair(t: Trie, o: Trie)
      reads this`peers, peers`trieEntries
      reads t`at, t`shape, t`loose, t`entries, t.Cells()`p
      reads t.at.Values`parent, t.at.Values`peer, t.at.Values`perPeerElem
      reads o`at, o`shape, o`loose, o`entries, o.Cells()`p
      reads o.at.Values`parent, o.at.Values`peer, o.at.Values`perPeerElem
    {
      (t.width != o.width && t.Valid() && o.Valid()
        && ListsOk(t.at, t.entries, o.at, o.entries, ListsOf(peers))) == true
    }

    lemma EitherFamily(is6: bool)
      ensures Valid() <==> Widths() && Pair(Family(is6), Family(!is6))
    {
      hide ListsOk;
      ListsSwap(trie4.at, trie4.entries, trie6.at, trie6.entries, ListsOf(peers));
    }

    /** The table as finite maps from prefixes to peers. */
    ghost function Entries(): Routes
      reads trie4`entries, trie6`entries
    {
      Routes(trie4.entries, trie6.entries)
    }

    /** The families share no node and no pointer variable. */
    lemma Apart(t: Trie, o: Trie)
      requires t.Valid() && o.Valid() && t.width != o.width
      ensures Disjoint(t, o)
    {
      WidthsOf(t);
      WidthsOf(o);
    }

    lemma WidthsOf(t: Trie)
      requires t.Valid()
      ensures forall n :: n in t.at.Values ==> |n.bits| == n.child0.width == n.child1.width == t.width
      ensures t.root.width == t.width && forall c :: c in t.Cells() ==> c.width == t.width
      ensures forall p :: p in t.at ==> t.at[p].key == p
    {
      assert t.Coupled();
      assert forall p :: p in t.at ==> t.at[p].Shaped(t.width);
    }

    lemma ListedKnown(t: Trie, o: Trie)
      requires Pair(t, o)
      ensures t.AllListed(peers)
    {
      Apart(t, o);
      assert t.Coupled();
      forall p | p in t.at
        ensures t.at[p].ListedIn(peers)
      {
        forall q | q in peers && t.at[p] in q.trieEntries
          ensures t.at[p].peer == q
        {
          assert q in ListsOf(peers) && ListsOf(peers)[q] == q.trieEntries;
          assert Owns(t.at, t.entries, t.at[p], q) || Owns(o.at, o.entries, t.at[p], q);
        }
      }
    }

    ghost method Admit(peer: Peer)
      requires Valid() && (peer in peers || peer.trieEntries == [])
      modifies this`peers
      ensures Valid() && peers == old(peers) + {peer}
    {
      ghost var lists := ListsOf(peers);
      peers := peers + {peer};
      assert ListsOf(peers) == lists[peer := peer.trieEntries];
    }

    /** What a step on one trie needs to know of the other. */
    lemma PairKnown(t: Trie, o: Trie)
      requires Pair(t, o)
      ensures Disjoint(t, o) && t.at.Values !! o.at.Values && t.AllListed(peers)
      ensures t.Valid() && o.Valid() && t.width != o.width && ListsOk(t.at, t.entries, o.at, o.entries, ListsOf(peers))
      ensures forall p :: p in t.at ==> t.at[p].key == p
    {
      Apart(t, o);
      ListedKnown(t, o);
      WidthsOf(t);
    }

    ghost predicate Disjoint(t: Trie, o: Trie)
      reads t`at, o`at
    {
      && t != o && t.width != o.width && o.root.width == o.width
      && (forall n :: n in t.at.Values ==> |n.bits| == t.width)
      && (forall c :: c in t.Cells() ==> c.width == t.width)
      && (forall n :: n in o.at.Values ==> |n.bits| == n.child0.width == n.child1.width == o.width)
    }

    /** A trie of which nothing has been touched is as it was. */
    twostate lemma Untouched(o: Trie)
      requires old(o.Valid()) && unchanged(o`at, o`shape, o`loose, o`entries) && unchanged(o.root`p)
      requires forall n :: n in o.at.Values ==> unchanged(n`parent, n`peer, n`perPeerElem)
      requires forall n :: n in o.at.Values ==> unchanged(n.child0`p) && unchanged(n.child1`p)
      ensures o.Valid()
    {
      assert o.Cells() == old(o.Cells());
    }

    /** A step on one trie leaves the other as it is. */
    method InsertInto(t: Trie, ghost o: Trie, ip: Bits, cidr: nat, peer: Peer) returns (ghost n: TrieEntry)
      requires t.Valid() && o.Valid() && Disjoint(t, o) && t.AllListed(peers) && |ip| == t.width && cidr <= t.width
        && peer in peers
      modifies t`at, t`shape, t`loose, t`entries, t.Cells()`p
      modifies t.at.Values`parent, t.at.Values`peer, t.at.Values`perPeerElem
      modifies peers`trieEntries
      ensures o.Valid() && o.at == old(o.at) && o.entries == old(o.entries)
      ensures t.Valid() && t.entries == old(t.entries)[ip[..cidr] := peer]
      ensures Refers(t.at, n, Some(ip[..cidr])) && (n.key in old(t.at) || fresh(n))
      ensures forall p :: p in old(t.at) ==> p in t.at && t.at[p] == old(t.at)[p]
      ensures forall p ::
        p in t.at && p !in old(t.at) ==> fresh(t.at[p]) && fresh(t.at[p].child0) && fresh(t.at[p].child1)
      ensures forall q :: q in peers ==> q.trieEntries == Relisted(old(q.trieEntries), n, q == peer)
    {
      hide Trie.Valid, Trie.CellsOf, Trie.Cells, TrieEntry.ListedIn, Trie.AllListed, Without, Relisted, Refers;
      n := t.Insert(ip, cidr, peer, peers);
      Untouched(o);
    }

    /** Removing is such a step too. */
    method RemoveFrom(t: Trie, ghost o: Trie, node: TrieEntry)
      requires t.Valid() && o.Valid() && Disjoint(t, o) && t.AllListed(peers) && Refers(t.at, node, Some(node.key))
      modifies t`at, t`shape, t`loose, t`entries, t.Cells()`p
      modifies t.at.Values`parent, t.at.Values`peer, t.at.Values`perPeerElem
      modifies peers`trieEntries
      ensures o.Valid() && o.at == old(o.at) && o.entries == old(o.entries)
      ensures t.Valid() && t.entries == old(t.entries) - {node.key} && Within(t.at, old(t.at))
      ensures forall q :: q in peers ==> q.trieEntries == Without(old(q.trieEntries), node)
    {
      hide Trie.Valid, Trie.CellsOf, Trie.Cells, TrieEntry.ListedIn, Without;
      assert node in t.at.Values;
      t.RemoveNode(node, peers);
      Untouched(o);
    }

    /** Lines 291-304, for a peer that is known. */
    method InsertFor(t: Trie, ghost o: Trie, ip: Bits, cidr: nat, peer: Peer)
      requires Pair(t, o) && |ip| == t.width && cidr <= |ip| && peer in peers
      modifies t`at, t`shape, t`loose, t`entries, t.Cells()`p
      modifies t.at.Values`parent, t.at.Values`peer, t.at.Values`perPeerElem
      modifies peers`trieEntries
      ensures Pair(t, o) && t.entries == old(t.entries)[ip[..cidr] := peer]
      ensures forall p ::
        p in t.at && p !in old(t.at) ==> fresh(t.at[p]) && fresh(t.at[p].child0) && fresh(t.at[p].child1)
      ensures Agree(t.at, old(t.at))
    {
      hide ListsOk, Pair, ListsOf, Trie.Valid, Disjoint, Trie.CellsOf, TrieEntry.ListedIn, Without, Relisted;
      PairKnown(t, o);
      ListsAre();
      ghost var m, e, mo, eo, lists := t.at, t.entries, o.at, o.entries, ListsOf(peers);
      ghost var n := InsertInto(t, o, ip, cidr, peer);
      assert n in m.Values || fresh(n);
      ListsAre();
      ListsAfterInsert(m, t.at, e, n, peer, mo, eo, lists, ListsOf(peers));
      PairNow(t, o);
    }

    lemma ListsAre()
      ensures ListsOf(peers).Keys == peers && forall q :: q in peers ==> ListsOf(peers)[q] == q.trieEntries
    {
    }

    lemma PairNow(t: Trie, o: Trie)
      requires t.width != o.width && t.Valid() && o.Valid() && ListsOk(t.at, t.entries, o.at, o.entries, ListsOf(peers))
      ensures Pair(t, o)
    {
    }

    /** Lines 291-304: a prefix is given to a peer, whoever had it before. */
    method Insert(is6: bool, ip: Bits, cidr: nat, peer: Peer)
      requires Valid() && |ip| == Family(is6).width && cidr <= |ip| && (peer in peers || peer.trieEntries == [])
      modifies Family(is6)`at, Family(is6)`shape, Family(is6)`loose, Family(is6)`entries, Family(is6).Cells()`p
      modifies Family(is6).at.Values`parent, Family(is6).at.Values`peer, Family(is6).at.Values`perPeerElem
      modifies this`peers, peers`trieEntries, peer`trieEntries
      ensures Valid() && peers == old(peers) + {peer}
      ensures Entries() == old(Entries()).Set(is6, old(Entries()).Of(is6)[ip[..cidr] := peer])
      ensures forall p ::
        p in Family(is6).at && p !in old(Family(is6).at) ==>
          fresh(Family(is6).at[p]) && fresh(Family(is6).at[p].child0) && fresh(Family(is6).at[p].child1)
      ensures Agree(Family(is6).at, old(Family(is6).at))
    {
      hide Valid, Pair, ListsOk;
      Admit(peer);
      EitherFamily(is6);
      InsertFor(Family(is6), Family(!is6), ip, cidr, peer);
      EitherFamily(is6);
    }

    /** The loop of `Remove` and `RemoveByPeer` around one node. */
    method DropFor(t: Trie, ghost o: Trie, node: TrieEntry)
      requires Pair(t, o) && Refers(t.at, node, Some(node.key))
      modifies t`at, t`shape, t`loose, t`entries, t.Cells()`p
      modifies t.at.Values`parent, t.at.Values`peer, t.at.Values`perPeerElem
      modifies peers`trieEntries
      ensures Pair(t, o) && t.entries == old(t.entries) - {node.key} && Within(t.at, old(t.at))
      ensures forall q :: q in peers ==> q.trieEntries == Without(old(q.trieEntries), node)
    {
      hide ListsOk, Pair, ListsOf, Trie.Valid, Disjoint, Trie.CellsOf, TrieEntry.ListedIn, Without, Relisted;
      PairKnown(t, o);
      ListsAre();
      ghost var m, e, mo, eo, lists := t.at, t.entries, o.at, o.entries, ListsOf(peers);
      assert node in t.at.Values;
      RemoveFrom(t, o, node);
      ListsAre();
      StillThere(t, e, node.key);
      ListsAfterRemove(m, t.at, e, node, mo, eo, lists, ListsOf(peers));
      PairNow(t, o);
    }

    lemma StillThere(t: Trie, e: map<Bits, Peer>, k: Bits)
      requires t.Valid() && t.entries == e - {k}
      ensures e.Keys - {k} <= t.at.Keys
    {
      assert t.Coupled();
    }

    /**
     * `remove` of one node. The node finds its neighbours by its own pointers; `is6` says whose ghost state goes with
     * it.
     */
    method Drop(is6: bool, node: TrieEntry)
      requires Valid() && Refers(Family(is6).at, node, Some(node.key))
      modifies Family(is6)`at, Family(is6)`shape, Family(is6)`loose, Family(is6)`entries, Family(is6).Cells()`p
      modifies Family(is6).at.Values`parent, Family(is6).at.Values`peer, Family(is6).at.Values`perPeerElem
      modifies peers`trieEntries
      ensures Valid() && Entries() == old(Entries()).Set(is6, old(Entries()).Of(is6) - {node.key})
      ensures forall q :: q in peers ==> q.trieEntries == Without(old(q.trieEntries), node)
      ensures Within(Family(is6).at, old(Family(is6).at))
    {
      hide Valid, Pair, ListsOk;
      EitherFamily(is6);
      DropFor(Family(is6), Family(!is6), node);
      EitherFamily(is6);
    }

    lemma FamilyKnown(is6: bool)
      requires Valid()
      ensures Family(is6).Valid() && Widths()
    {
      hide ListsOk;
    }

    lemma PeerOf(t: Trie, n: TrieEntry)
      requires t.Valid() && Refers(t.at, n, Some(n.key))
      ensures n.peer == if n.key in t.entries then t.entries[n.key] else null
    {
    }

    lemma EntriesAreNodes(t: Trie)
      requires t.Valid()
      ensures t.entries.Keys <= t.at.Keys
    {
      assert t.Coupled();
    }

    /** The same for the whole table. */
    twostate lemma NothingTouched()
      requires old(Valid()) && unchanged(this`peers) && forall q :: q in peers ==> unchanged(q`trieEntries)
      requires unchanged(trie4`at, trie4`shape, trie4`loose, trie4`entries) && unchanged(trie4.root`p)
      requires forall n :: n in trie4.at.Values ==>
        unchanged(n`parent, n`peer, n`perPeerElem) && unchanged(n.child0`p) && unchanged(n.child1`p)
      requires unchanged(trie6`at, trie6`shape, trie6`loose, trie6`entries) && unchanged(trie6.root`p)
      requires forall n :: n in trie6.at.Values ==>
        unchanged(n`parent, n`peer, n`perPeerElem) && unchanged(n.child0`p) && unchanged(n.child1`p)
      ensures Valid()
    {
      hide Trie.Valid, ListsOk;
      Untouched(trie4);
      Untouched(trie6);
      assert ListsOf(peers) == old(ListsOf(peers));
    }

    /** Lines 266-273: where the prefix is in its trie. */
    method NodeFor(is6: bool, ip: Bits, cidr: nat) returns (node: TrieEntry?, exact: bool)
      requires Valid() && |ip| == Family(is6).width && cidr <= |ip|
      ensures Valid() && Refers(Family(is6).at, node, KeyOf(node)) && (exact <==> ip[..cidr] in Family(is6).at)
      ensures exact ==> node == Family(is6).at[ip[..cidr]] && node != null && node.key == ip[..cidr]
    {
      FamilyKnown(is6);
      WidthsOf(Family(is6));
      hide Valid, Trie.Valid;
      node, exact := Family(is6).NodePlacement(ip, cidr);
      NothingTouched();
    }

    /** Lines 263-276: the node of the prefix, if it is this peer's. */
    method Owned(is6: bool, ip: Bits, cidr: nat, peer: Peer) returns (node: TrieEntry?)
      requires Valid() && |ip| == Family(is6).width && cidr <= |ip|
      ensures Valid()
      ensures node != null <==> ip[..cidr] in Entries().Of(is6) && Entries().Of(is6)[ip[..cidr]] == peer
      ensures node != null ==> node.key == ip[..cidr] && Refers(Family(is6).at, node, Some(node.key))
    {
      hide Valid, Trie.Valid;
      var exact;
      node, exact := NodeFor(is6, ip, cidr);
      FamilyKnown(is6);
      if exact {
        PeerOf(Family(is6), node);
      } else {
        EntriesAreNodes(Family(is6));
      }
      if !exact || node == null || peer != node.peer {
        node := null;
      }
    }

    /** Lines 259-278: the prefix goes if it is this peer's, and nothing happens otherwise. */
    method Remove(is6: bool, ip: Bits, cidr: nat, peer: Peer)
      requires Valid() && |ip| == Family(is6).width && cidr <= |ip|
      modifies Family(is6)`at, Family(is6)`shape, Family(is6)`loose, Family(is6)`entries, Family(is6).Cells()`p
      modifies Family(is6).at.Values`parent, Family(is6).at.Values`peer, Family(is6).at.Values`perPeerElem
      modifies peers`trieEntries
      ensures Valid() && Entries() == old(Entries()).Set(is6, Taken(old(Entries()).Of(is6), ip[..cidr], peer))
      ensures Within(Family(is6).at, old(Family(is6).at))
    {
      hide Valid, Within;
      var node := Owned(is6, ip, cidr, peer);
      WithinSelf(Family(is6).at);
      if node == null {
        return;
      }
      Drop(is6, node);
    }

    /** The first node on a peer's list, and its family. */
    lemma FirstListed(q: Peer)
      requires Valid() && q in peers && q.trieEntries != []
      ensures var n := q.trieEntries[0]; var t := Family(|n.bits| == IPV6_BITS);
        Owns(t.at, t.entries, n, q) && Without(q.trieEntries, n) == q.trieEntries[1..]
    {
      var s, n := q.trieEntries, q.trieEntries[0];
      WidthsOf(trie4);
      WidthsOf(trie6);
      assert q in ListsOf(peers) && ListsOf(peers)[q] == s && n in s;
      assert Owns(trie4.at, trie4.entries, n, q) || Owns(trie6.at, trie6.entries, n, q);
      assert n !in s[1..];
    }

    lemma NoneListed(q: Peer)
      requires Valid() && q in peers && q.trieEntries == []
      ensures StripAll(Entries(), q) == Entries()
    {
      NoneOf(trie4, q);
      NoneOf(trie6, q);
    }

    lemma NoneOf(t: Trie, q: Peer)
      requires AllOnLists(t.at, t.entries, ListsOf(peers)) && q in peers && q.trieEntries == []
      ensures Strip(t.entries, q) == t.entries
    {
      forall k | k in t.entries
        ensures t.entries[k] != q
      {
        assert ListsOf(peers)[q] == [];
        assert t.at[k] in ListsOf(peers)[t.entries[k]];
      }
    }

    lemma Shrunk(t: Trie, m: map<Bits, TrieEntry>, m': map<Bits, TrieEntry>)
      requires forall p :: p in m' ==> p in m && m'[p] == m[p]
      ensures m'.Values <= m.Values && t.CellsOf(m') <= t.CellsOf(m)
    {
    }

    method DropListed(is6: bool, peer: Peer)
      requires Valid() && peer in peers && peer.trieEntries != []
        && Without(peer.trieEntries, peer.trieEntries[0]) == peer.trieEntries[1..]
      requires Owns(Family(is6).at, Family(is6).entries, peer.trieEntries[0], peer)
      modifies Family(is6)`at, Family(is6)`shape, Family(is6)`loose, Family(is6)`entries, Family(is6).Cells()`p
      modifies Family(is6).at.Values`parent, Family(is6).at.Values`peer, Family(is6).at.Values`perPeerElem
      modifies peers`trieEntries
      ensures Valid() && peer.trieEntries == old(peer.trieEntries)[1..]
      ensures StripAll(Entries(), peer) == StripAll(old(Entries()), peer) && Within(Family(is6).at, old(Family(is6).at))
    {
      hide Valid, ListsOk, StripAll, Within, Without;
      var node := peer.trieEntries[0];
      StripDrop(Entries(), is6, node.key, peer);
      Drop(is6, node);
    }

    method DropFirst(peer: Peer)
      requires Valid() && peer in peers && peer.trieEntries != []
      modifies trie4`at, trie4`shape, trie4`loose, trie4`entries, trie4.Cells()`p
      modifies trie4.at.Values`parent, trie4.at.Values`peer, trie4.at.Values`perPeerElem
      modifies trie6`at, trie6`shape, trie6`loose, trie6`entries, trie6.Cells()`p
      modifies trie6.at.Values`parent, trie6.at.Values`peer, trie6.at.Values`perPeerElem
      modifies peers`trieEntries
      ensures Valid() && peer.trieEntries == old(peer.trieEntries)[1..]
      ensures StripAll(Entries(), peer) == StripAll(old(Entries()), peer)
      ensures Within(trie4.at, old(trie4.at)) && Within(trie6.at, old(trie6.at))
    {
      EitherFamily(false);
      FirstListed(peer);
      hide Valid, ListsOk, StripAll, Within, Without, Owns;
      WithinSelf(trie4.at);
      WithinSelf(trie6.at);
      if |peer.trieEntries[0].bits| == IPV6_BITS {
        DropListed(true, peer);
      } else {
        DropListed(false, peer);
      }
    }

    method RemoveAll(peer: Peer)
      requires Valid() && peer in peers
      modifies trie4`at, trie4`shape, trie4`loose, trie4`entries, trie4.Cells()`p
      modifies trie4.at.Values`parent, trie4.at.Values`peer, trie4.at.Values`perPeerElem
      modifies trie6`at, trie6`shape, trie6`loose, trie6`entries, trie6.Cells()`p
      modifies trie6.at.Values`parent, trie6.at.Values`peer, trie6.at.Values`perPeerElem
      modifies peers`trieEntries
      ensures Valid() && peer.trieEntries == []
      ensures Entries() == StripAll(old(Entries()), peer)
      ensures Within(trie4.at, old(trie4.at)) && Within(trie6.at, old(trie6.at))
    {
      hide Valid, ListsOk, StripAll;
      WithinSelf(trie4.at);
      WithinSelf(trie6.at);
      var elems := peer.trieEntries;
      while elems != []
        invariant Valid() && peer.trieEntries == elems
        invariant Within(trie4.at, old(trie4.at)) && Within(trie6.at, old(trie6.at))
        invariant StripAll(Entries(), peer) == StripAll(old(Entries()), peer)
        decreases |elems|
      {
        var next := elems[1..];
        Shrunk(trie4, old(trie4.at), trie4.at);
        Shrunk(trie6, old(trie6.at), trie6.at);
        ghost var m4, m6 := trie4.at, trie6.at;
        DropFirst(peer);
        WithinChain(trie4.at, m4, old(trie4.at));
        WithinChain(trie6.at, m6, old(trie6.at));
        elems := next;
      }
      NoneListed(peer);
    }

    /** Lines 280-289: every prefix of the peer goes, of either family, and no other. */
    method RemoveByPeer(peer: Peer)
      requires Valid() && (peer in peers || peer.trieEntries == [])
      modifies trie4`at, trie4`shape, trie4`loose, trie4`entries, trie4.Cells()`p
      modifies trie4.at.Values`parent, trie4.at.Values`peer, trie4.at.Values`perPeerElem
      modifies trie6`at, trie6`shape, trie6`loose, trie6`entries, trie6.Cells()`p
      modifies trie6.at.Values`parent, trie6.at.Values`peer, trie6.at.Values`perPeerElem
      modifies this`peers, peers`trieEntries, peer`trieEntries
      ensures Valid() && peer.trieEntries == [] && peers == old(peers) + {peer}
      ensures Entries() == StripAll(old(Entries()), peer)
      ensures Within(trie4.at, old(trie4.at)) && Within(trie6.at, old(trie6.at))
    {
      hide Valid, ListsOk, StripAll;
      Admit(peer);
      RemoveAll(peer);
    }

    ghost predicate Fit(op: Op)
      reads this`peers
    {
      op.peer in peers && (op.RemoveByPeer? || (|op.ip| == Family(op.is6).width && op.cidr <= |op.ip|))
    }

    method Do(op: Op)
      requires Valid() && Fit(op)
      modifies trie4`at, trie4`shape, trie4`loose, trie4`entries, trie4.Cells()`p
      modifies trie4.at.Values`parent, trie4.at.Values`peer, trie4.at.Values`perPeerElem
      modifies trie6`at, trie6`shape, trie6`loose, trie6`entries, trie6.Cells()`p
      modifies trie6.at.Values`parent, trie6.at.Values`peer, trie6.at.Values`perPeerElem
      modifies this`peers, peers`trieEntries
      ensures Valid() && peers == old(peers) && Entries() == Apply(old(Entries()), op)
      ensures forall p ::
        p in trie4.at && p !in old(trie4.at) ==>
          fresh(trie4.at[p]) && fresh(trie4.at[p].child0) && fresh(trie4.at[p].child1)
      ensures Agree(trie4.at, old(trie4.at))
      ensures forall p ::
        p in trie6.at && p !in old(trie6.at) ==>
          fresh(trie6.at[p]) && fresh(trie6.at[p].child0) && fresh(trie6.at[p].child1)
      ensures Agree(trie6.at, old(trie6.at))
    {
      EitherFamily(false);
      hide Valid, ListsOk, StripAll, Taken;
      match op
      case Insert(is6, ip, cidr, peer) => Insert(is6, ip, cidr, peer);
      case Remove(is6, ip, cidr, peer) => Remove(is6, ip, cidr, peer);
      case RemoveByPeer(peer) => RemoveByPeer(peer);
    }

    lemma ShapeKnown(is6: bool)
      requires Valid()
      ensures WellFormed(Family(is6).shape, Entries().Of(is6).Keys)
    {
      hide ListsOk;
    }

    method DoAll(ops: seq<Op>)
      requires Valid() && forall op :: op in ops ==> Fit(op)
      modifies trie4`at, trie4`shape, trie4`loose, trie4`entries, trie4.Cells()`p
      modifies trie4.at.Values`parent, trie4.at.Values`peer, trie4.at.Values`perPeerElem
      modifies trie6`at, trie6`shape, trie6`loose, trie6`entries, trie6.Cells()`p
      modifies trie6.at.Values`parent, trie6.at.Values`peer, trie6.at.Values`perPeerElem
      modifies this`peers, peers`trieEntries
      ensures Valid() && Entries() == ApplyAll(old(Entries()), ops)
      decreases |ops|
    {
      hide Valid, ListsOk, StripAll, Apply;
      if ops != [] {
        Do(ops[0]);
        DoAll(ops[1..]);
      }
    }

    /**
     * Any run of operations does to the maps what it says; a run that restores the prefixes of a family restores its
     * trie, and one that leaves a family without prefixes leaves its trie without nodes.
     */
    method Run(ops: seq<Op>)
      requires Valid() && forall op :: op in ops ==> Fit(op)
      modifies trie4`at, trie4`shape, trie4`loose, trie4`entries, trie4.Cells()`p
      modifies trie4.at.Values`parent, trie4.at.Values`peer, trie4.at.Values`perPeerElem
      modifies trie6`at, trie6`shape, trie6`loose, trie6`entries, trie6.Cells()`p
      modifies trie6.at.Values`parent, trie6.at.Values`peer, trie6.at.Values`perPeerElem
      modifies this`peers, peers`trieEntries
      ensures Valid() && Entries() == ApplyAll(old(Entries()), ops)
      ensures forall is6 ::
        Entries().Of(is6).Keys == old(Entries().Of(is6).Keys) ==> Family(is6).shape == old(Family(is6).shape)
      ensures forall is6 :: Entries().Of(is6) == map[] ==> Family(is6).at == map[] && Family(is6).root.p == null
    {
      hide Valid, ListsOk, StripAll, Apply, ApplyAll, WellFormed;
      ghost var s4, s6, before := trie4.shape, trie6.shape, Entries();
      ShapeKnown(false);
      ShapeKnown(true);
      DoAll(ops);
      Restored(false, s4, before.v4.Keys);
      Restored(true, s6, before.v6.Keys);
    }

    /** What the trie of a family looks like after a run, given what it looked like before. */
    lemma Restored(is6: bool, s: Shape, keys: set<Bits>)
      requires Valid() && WellFormed(s, keys)
      ensures Entries().Of(is6).Keys == keys ==> Family(is6).shape == s
      ensures Entries().Of(is6) == map[] ==> Family(is6).at == map[] && Family(is6).root.p == null
    {
      ShapeKnown(is6);
      TrieSize(is6);
      hide Valid, WellFormed;
      if Entries().Of(is6).Keys == keys {
        Canonical(s, Family(is6).shape, keys);
      }
    }

    /** Inserting a fresh prefix and then removing it restores the same tries, node for node. */
    method InsertThenRemove(is6: bool, ip: Bits, cidr: nat, peer: Peer)
      requires Valid() && |ip| == Family(is6).width && cidr <= |ip| && peer in peers && ip[..cidr] !in Entries().Of(is6)
      modifies trie4`at, trie4`shape, trie4`loose, trie4`entries, trie4.Cells()`p
      modifies trie4.at.Values`parent, trie4.at.Values`peer, trie4.at.Values`perPeerElem
      modifies trie6`at, trie6`shape, trie6`loose, trie6`entries, trie6.Cells()`p
      modifies trie6.at.Values`parent, trie6.at.Values`peer, trie6.at.Values`perPeerElem
      modifies this`peers, peers`trieEntries
      ensures Valid() && Entries() == old(Entries())
      ensures trie4.shape == old(trie4.shape) && trie6.shape == old(trie6.shape)
    {
      hide Valid, ApplyAll;
      UndoneRoutes(Entries(), is6, ip, cidr, peer);
      Run([Op.Insert(is6, ip, cidr, peer), Op.Remove(is6, ip, cidr, peer)]);
      assert Family(false).shape == trie4.shape && Family(true).shape == trie6.shape;
      assert Entries().Of(false) == trie4.entries && Entries().Of(true) == trie6.entries;
    }

    /** Two tables with the same prefixes in a family have the same nodes there, linked the same way. */
    lemma SameTrie(other: Table, is6: bool)
      requires Valid() && other.Valid() && Entries().Of(is6).Keys == other.Entries().Of(is6).Keys
      ensures Family(is6).shape == other.Family(is6).shape
    {
      ShapeKnown(is6);
      other.ShapeKnown(is6);
      Canonical(Family(is6).shape, other.Family(is6).shape, Entries().Of(is6).Keys);
    }

    /** No node is left over: none without entries, fewer than two per entry otherwise. */
    lemma TrieSize(is6: bool)
      requires Valid()
      ensures Entries().Of(is6) == map[] ==> Family(is6).at == map[] && Family(is6).root.p == null
      ensures Entries().Of(is6) != map[] ==> |Family(is6).at| <= 2 * |Entries().Of(is6)| - 1
    {
      hide ListsOk;
      var t, e := Family(is6), Entries().Of(is6);
      NodeCount(t.shape, e.Keys);
      assert t.Coupled() && t.LinkOk(t.at, t.shape, AtRoot);
      assert |t.at.Keys| == |t.at| && |e.Keys| == |e| && |t.shape.cells.Keys| == |t.shape.cells|;
      assert e != map[] ==> e.Keys != {};
    }

    /** Lines 306-317: the peer of the longest prefix of `ip` in the table. */
    method Lookup(ip: Bits) returns (found: Peer?)
      requires Valid() && |ip| in {IPV4_BITS, IPV6_BITS}
      ensures match LongestMatch(Entries().Of(|ip| == IPV6_BITS),
        ip) case None => found == null case Some(p) => found == p
      ensures Longest(Entries().Of(|ip| == IPV6_BITS), ip, found)
    {
      hide ListsOk;
      LongestUpTo(Entries().Of(|ip| == IPV6_BITS), ip, |ip|);
      found := Family(|ip| == IPV6_BITS).Lookup(ip);
    }

    /** The peer of the longest prefix of the address in the map, or null for none. */
    ghost predicate Longest(e: map<Bits, Peer>, ip: Bits, found: Peer?) {
      if found == null then forall k :: k in e ==> !(k <= ip)
      else exists k :: k in e && IsLongest(e, ip, k) && e[k] == found
    }

    ghost predicate IsLongest(e: map<Bits, Peer>, ip: Bits, k: Bits) {
      k <= ip && forall q :: q in e && q <= ip ==> |q| <= |k|
    }

    /** `k` is the prefix `x` of a family. */
    ghost predicate Names(x: (Bits, nat), is6: bool, k: Bits) {
      |x.0| == Family(is6).width && x.1 <= |x.0| && k == x.0[..x.1]
    }

    /**
     * Lines 213-224: the callback sees the peer's prefixes, of both families, each once, until its call numbered
     * `stopAt`, which it answers with false.
     */
    method EntriesForPeer(peer: Peer, stopAt: nat) returns (prefixes: seq<(Bits, nat)>)
      requires Valid() && peer in peers
      ensures |prefixes| <= stopAt + 1
      ensures forall i ::
        0 <= i < |prefixes| ==> prefixes[i].1 <= |prefixes[i].0| && |prefixes[i].0| in {IPV4_BITS, IPV6_BITS}
      ensures forall i, j :: 0 <= i < |prefixes| && prefixes[i].1 <= j < |prefixes[i].0| ==> !prefixes[i].0[j]
      ensures forall i, j, is6, k ::
        0 <= i < j < |prefixes| && Names(prefixes[i], is6, k) ==> !Names(prefixes[j], is6, k)
      ensures forall i, is6, k ::
        0 <= i < |prefixes| && Names(prefixes[i], is6, k) ==> k in Entries().Of(is6) && Entries().Of(is6)[k] == peer
      ensures |prefixes| <= stopAt ==>
        forall is6, k :: (k in Entries().Of(is6) && Entries().Of(is6)[k] == peer) <==>
          exists i :: 0 <= i < |prefixes| && Names(prefixes[i], is6, k)
    {
      prefixes := Visit(peer, stopAt);
      Visited(peer, prefixes, stopAt);
    }

    lemma Visited(peer: Peer, prefixes: seq<(Bits, nat)>, stopAt: nat)
      requires Valid() && peer in peers
      requires |prefixes| == if stopAt < |peer.trieEntries| then stopAt + 1 else |peer.trieEntries|
      requires forall j ::
        0 <= j < |prefixes| ==> prefixes[j] == (peer.trieEntries[j].bits, peer.trieEntries[j].cidr)
      ensures |prefixes| <= stopAt + 1
      ensures forall i ::
        0 <= i < |prefixes| ==> prefixes[i].1 <= |prefixes[i].0| && |prefixes[i].0| in {IPV4_BITS, IPV6_BITS}
      ensures forall i, j :: 0 <= i < |prefixes| && prefixes[i].1 <= j < |prefixes[i].0| ==> !prefixes[i].0[j]
      ensures forall i, j, is6, k ::
        0 <= i < j < |prefixes| && Names(prefixes[i], is6, k) ==> !Names(prefixes[j], is6, k)
      ensures forall i, is6, k ::
        0 <= i < |prefixes| && Names(prefixes[i], is6, k) ==> k in Entries().Of(is6) && Entries().Of(is6)[k] == peer
      ensures |prefixes| <= stopAt ==>
        forall is6, k :: (k in Entries().Of(is6) && Entries().Of(is6)[k] == peer) <==>
          exists i :: 0 <= i < |prefixes| && Names(prefixes[i], is6, k)
    {
      var s := peer.trieEntries;
      ListShape(peer);
      hide Valid, ListsOk;
      forall i, is6, k | 0 <= i < |prefixes| && Names(prefixes[i], is6, k)
        ensures k in Entries().Of(is6) && Entries().Of(is6)[k] == peer
      {
        assert Listed(s[i], is6, k);
      }
      forall is6, k | |prefixes| <= stopAt
        ensures (k in Entries().Of(is6) && Entries().Of(is6)[k] == peer) <==>
          exists i :: 0 <= i < |prefixes| && Names(prefixes[i], is6, k)
      {
        if k in Entries().Of(is6) && Entries().Of(is6)[k] == peer {
          var i :| 0 <= i < |s| && Listed(s[i], is6, k);
          assert Names(prefixes[i], is6, k);
        }
        if exists i :: 0 <= i < |prefixes| && Names(prefixes[i], is6, k) {
          var i :| 0 <= i < |prefixes| && Names(prefixes[i], is6, k);
          assert Listed(s[i], is6, k);
        }
      }
      forall i, j, is6, k | 0 <= i < j < |prefixes| && Names(prefixes[i], is6, k)
        ensures !Names(prefixes[j], is6, k)
      {
        assert Listed(s[i], is6, k) && (Names(prefixes[j], is6, k) ==> Listed(s[j], is6, k));
      }
    }

    /** The walk itself. */
    method Visit(peer: Peer, stopAt: nat) returns (prefixes: seq<(Bits, nat)>)
      ensures |prefixes| == if stopAt < |peer.trieEntries| then stopAt + 1 else |peer.trieEntries|
      ensures forall j ::
        0 <= j < |prefixes| ==> prefixes[j] == (peer.trieEntries[j].bits, peer.trieEntries[j].cidr)
    {
      prefixes := [];
      for i := 0 to |peer.trieEntries|
        invariant |prefixes| == i <= stopAt
        invariant forall j :: 0 <= j < i ==> prefixes[j] == (peer.trieEntries[j].bits, peer.trieEntries[j].cidr)
      {
        var node := peer.trieEntries[i];
        prefixes := prefixes + [(node.bits, node.cidr)];
        if i == stopAt {
          return;
        }
      }
    }

    /** The node stands for the prefix `k` of a family. */
    ghost predicate Listed(n: TrieEntry, is6: bool, k: Bits) {
      n.cidr <= |n.bits| == Family(is6).width && k == n.bits[..n.cidr]
    }

    /** The nodes on a peer's list are its own, each in the family its length says. */
    lemma ListOwned(q: Peer)
      requires Valid() && q in peers
      ensures Widths() && NoDup(q.trieEntries)
      ensures forall i :: 0 <= i < |q.trieEntries| ==>
        var x := q.trieEntries[i];
        && x.cidr <= |x.bits| && x.key == x.bits[..x.cidr] && |x.bits| in {IPV4_BITS, IPV6_BITS}
        && TailClear(x.bits, x.cidr)
        && var t := Family(|x.bits| == IPV6_BITS); Owns(t.at, t.entries, x, q)
    {
      hide Trie.Valid, AllOnLists;
      var s := q.trieEntries;
      assert ListsOf(peers)[q] == s;
      NodesShaped(trie4);
      NodesShaped(trie6);
      forall i | 0 <= i < |s|
        ensures s[i].cidr <= |s[i].bits| && s[i].key == s[i].bits[..s[i].cidr] && TailClear(s[i].bits, s[i].cidr)
        ensures |s[i].bits| in {IPV4_BITS, IPV6_BITS}
          && var t := Family(|s[i].bits| == IPV6_BITS); Owns(t.at, t.entries, s[i], q)
      {
        assert s[i] in s;
        assert Owns(trie4.at, trie4.entries, s[i], q) || Owns(trie6.at, trie6.entries, s[i], q);
      }
    }

    /** A peer's prefixes have their nodes on its list. */
    lemma ListHas(q: Peer, is6: bool, k: Bits)
      requires Valid() && q in peers && k in Entries().Of(is6) && Entries().Of(is6)[k] == q
      ensures exists i :: 0 <= i < |q.trieEntries| && Listed(q.trieEntries[i], is6, k)
    {
      hide Trie.Valid, Owns, NoDup;
      NodesShaped(trie4);
      NodesShaped(trie6);
      var s, t := q.trieEntries, Family(is6);
      assert ListsOf(peers)[q] == s;
      assert t.at[k] in s;
      var i :| 0 <= i < |s| && s[i] == t.at[k];
      assert Listed(s[i], is6, k);
    }

    lemma ListShape(q: Peer)
      requires Valid() && q in peers
      ensures Widths()
      ensures forall i ::
        0 <= i < |q.trieEntries| ==>
          && q.trieEntries[i].cidr <= |q.trieEntries[i].bits| && |q.trieEntries[i].bits| in {IPV4_BITS, IPV6_BITS}
          && TailClear(q.trieEntries[i].bits, q.trieEntries[i].cidr)
      ensures forall i, is6, k ::
        0 <= i < |q.trieEntries| && Listed(q.trieEntries[i], is6, k) ==>
          k in Entries().Of(is6) && Entries().Of(is6)[k] == q
      ensures forall i, j, is6, k ::
        0 <= i < j < |q.trieEntries| && Listed(q.trieEntries[i], is6, k) ==> !Listed(q.trieEntries[j], is6, k)
      ensures forall is6, k ::
        k in Entries().Of(is6) && Entries().Of(is6)[k] == q ==>
          exists i :: 0 <= i < |q.trieEntries| && Listed(q.trieEntries[i], is6, k)
    {
      hide Valid;
      ListOwned(q);
      forall is6, k | k in Entries().Of(is6) && Entries().Of(is6)[k] == q
        ensures exists i :: 0 <= i < |q.trieEntries| && Listed(q.trieEntries[i], is6, k)
      {
        ListHas(q, is6, k);
      }
    }

    lemma NodesShaped(t: Trie)
      requires t.Valid()
      ensures forall p :: p in t.at ==> t.at[p].Shaped(t.width) && t.at[p].key == p
    {
      assert t.Coupled();
    }
  }
}
