/** The allowed-IPs tries of wireguard-go/device/allowedips.go, pointers and all. */
module AllowedIPs {
  import opened Options
  import opened Prefixes
  import opened TrieShape

  /** A pointer variable that a `parentBit` can point to. */
  class Link {
    ghost const place: Place
    /** The address length of the trie it belongs to. */
    ghost const width: nat
    var p: TrieEntry?

    constructor (ghost place: Place, ghost width: nat)
      ensures this.place == place && this.width == width && p == null
    {
      this.place, this.width := place, width;
      p := null;
    }
  }

  /** `parentBit` and `parentBitType`: the root pointer of a trie, or one child pointer of a node. */
  datatype Slot = RootSlot(trie: Trie) | ChildSlot(node: TrieEntry, bit: bool) {
    function Deref(): Link {
      if RootSlot? then trie.root else node.Child(bit)
    }

    ghost function Place(): Place {
      if RootSlot? then AtRoot else AtChild(node.key, bit)
    }
  }

  class TrieEntry {
    const cidr: nat
    const bits: Bits
    const child0: Link
    const child1: Link
    ghost const key: Bits
    var peer: Peer?
    var parent: Slot
    var perPeerElem: bool

    constructor (ip: Bits, cidr: nat, peer: Peer?, parent: Slot)
      requires cidr <= |ip|
      ensures key == ip[..cidr] && this.cidr == cidr && Shaped(|ip|) && fresh(child0) && fresh(child1)
      ensures this.peer == peer && child0.p == null && child1.p == null && this.parent == parent && !perPeerElem
    {
      this.cidr := cidr;
      this.bits := Mask(ip, cidr);
      this.key := ip[..cidr];
      this.child0 := new Link(AtChild(ip[..cidr], false), |ip|);
      this.child1 := new Link(AtChild(ip[..cidr], true), |ip|);
      this.peer := peer;
      this.parent := parent;
      this.perPeerElem := false;
    }

    function Child(b: bool): Link {
      if b then child1 else child0
    }

    ghost predicate Shaped(width: nat) {
      && cidr <= width && |bits| == width && key == bits[..cidr] && TailClear(bits, cidr)
      && child0.place == AtChild(key, false) && child1.place == AtChild(key, true)
      && child0.width == child1.width == width
    }

    function Choose(ip: Bits): bool
      requires cidr < |ip|
    {
      ip[cidr]
    }

    ghost predicate Plain()
      reads this`peer, this`perPeerElem
    {
      peer == null && !perPeerElem
    }

    ghost predicate New(k: Bits)
      reads this`peer, this`perPeerElem
    {
      key == k && Plain()
    }

    /** The node is in its peer's list, and in no other. */
    ghost predicate ListedIn(peers: set<Peer>)
      reads this`peer, this`perPeerElem, peers`trieEntries
    {
      && perPeerElem == (peer != null)
      && (peer != null ==> peer in peers)
      && forall q :: q in peers && this in q.trieEntries ==> peer == q
    }

    method AddToPeerEntries()
      requires peer != null
      modifies this`perPeerElem, peer`trieEntries
      ensures perPeerElem && peer.trieEntries == old(peer.trieEntries) + [this]
    {
      peer.trieEntries := peer.trieEntries + [this];
      perPeerElem := true;
    }

    method RemoveFromPeerEntries()
      requires perPeerElem ==> peer != null
      modifies this`perPeerElem, (if peer == null then {} else {peer})`trieEntries
      ensures !perPeerElem
      ensures peer != null ==>
        peer.trieEntries == if old(perPeerElem) then Without(old(peer.trieEntries), this) else old(peer.trieEntries)
    {
      if perPeerElem {
        peer.trieEntries := Without(peer.trieEntries, this);
        perPeerElem := false;
      }
    }

    /** Lines 118-120: the node changes hands. */
    method Reassign(peer: Peer, ghost peers: set<Peer>)
      requires ListedIn(peers) && peer in peers
      modifies this`peer, this`perPeerElem, peers`trieEntries
      ensures this.peer == peer && perPeerElem
      ensures forall q :: q in peers ==> q.trieEntries == Relisted(old(q.trieEntries), this, q == peer)
    {
      RemoveFromPeerEntries();
      this.peer := peer;
      AddToPeerEntries();
    }

    /** Lines 227-228. */
    method Disown(ghost peers: set<Peer>)
      requires ListedIn(peers)
      modifies this`peer, this`perPeerElem, peers`trieEntries
      ensures Plain()
      ensures forall q :: q in peers ==> q.trieEntries == Without(old(q.trieEntries), this)
    {
      RemoveFromPeerEntries();
      peer := null;
    }
  }

  /** A peer's list without one node. */
  function Without(s: seq<TrieEntry>, n: TrieEntry): (r: seq<TrieEntry>)
    ensures (set m | m in r) == (set m | m in s) - {n}
    ensures n !in s ==> r == s
  {
    if s == [] then [] else
      assert s == [s[0]] + s[1..];
      assert (set m | m in s) == {s[0]} + (set m | m in s[1..]);
      if s[0] == n then Without(s[1..], n) else
        assert (set m | m in [s[0]] + Without(s[1..], n)) == {s[0]} + (set m | m in Without(s[1..], n));
        [s[0]] + Without(s[1..], n)
  }

  /** A list a node was taken off, and put at the end of if it is to be on it. */
  ghost function Relisted(s: seq<TrieEntry>, n: TrieEntry, on: bool): seq<TrieEntry> {
    Without(s, n) + if on then [n] else []
  }

  class Peer {
    var trieEntries: seq<TrieEntry>

    constructor ()
      ensures trieEntries == []
    {
      trieEntries := [];
    }
  }

  ghost predicate Refers(m: map<Bits, TrieEntry>, n: TrieEntry?, o: Option<Bits>) {
    if n == null then o == None else o == Some(n.key) && n.key in m && m[n.key] == n
  }

  ghost function KeyOf(n: TrieEntry?): Option<Bits> {
    if n == null then None else Some(n.key)
  }

  class Trie {
    const width: nat
    const root: Link
    ghost var at: map<Bits, TrieEntry>
    ghost var shape: Shape
    ghost var loose: set<Bits>
    ghost var entries: map<Bits, Peer>

    constructor (width: nat)
      ensures this.width == width && at == map[] && entries == map[] && Valid() && fresh(root)
    {
      this.width := width;
      root := new Link(AtRoot, width);
      at := map[];
      shape := Shape(None, map[]);
      loose := {};
      entries := map[];
    }

    ghost function LinkAt(m: map<Bits, TrieEntry>, t: Place): Link
      requires t.AtChild? ==> t.p in m
    {
      if t.AtRoot? then root else m[t.p].Child(t.b)
    }

    ghost predicate SlotOk(m: map<Bits, TrieEntry>, slot: Slot) {
      if slot.RootSlot? then slot.trie == this else Refers(m, slot.node, Some(slot.node.key))
    }

    /** The pointer variable at `t` points to the node `s` has there. */
    ghost predicate LinkOk(m: map<Bits, TrieEntry>, s: Shape, t: Place)
      requires s.Has(t) && (t.AtChild? ==> t.p in m)
      reads LinkAt(m, t)`p
    {
      LinkAt(m, t).place == t && Refers(m, LinkAt(m, t).p, s.Get(t))
    }

    /** The node's `parent` is the pointer variable that points to it. */
    ghost predicate Hangs(m: map<Bits, TrieEntry>, s: Shape, slot: Slot, p: Bits) {
      SlotOk(m, slot) && s.Has(slot.Place()) && s.Get(slot.Place()) == Some(p)
    }

    ghost predicate ParentOk(m: map<Bits, TrieEntry>, s: Shape, p: Bits)
      requires p in m
      reads {m[p]}`parent
    {
      Hangs(m, s, m[p].parent, p)
    }

    /** The pointer variables of a trie with nodes `m`. */
    ghost function CellsOf(m: map<Bits, TrieEntry>): set<Link> {
      {root} + (set n | n in m.Values :: n.child0) + (set n | n in m.Values :: n.child1)
    }

    ghost function Cells(): set<Link>
      reads this`at
    {
      CellsOf(at)
    }

    /** The nodes `m` and their pointers are an exact picture of `s`, apart from nodes that hang nowhere yet. */
    ghost predicate Pictures(m: map<Bits, TrieEntry>, s: Shape, loose: set<Bits>)
      reads m.Values`parent, CellsOf(m)`p
    {
      && root.width == width && m.Keys == s.cells.Keys
      && (forall p {:trigger m[p]} :: p in m ==> m[p].key == p)
      && (forall p {:trigger m[p].Shaped(width)} :: p in m ==> m[p].Shaped(width))
      && (forall t {:trigger LinkOk(m, s, t)} :: s.Has(t) ==> LinkOk(m, s, t))
      && (forall p {:trigger ParentOk(m, s, p)} :: p in m && p !in loose ==> ParentOk(m, s, p))
    }

    ghost predicate Coupled()
      reads this`at, this`shape, this`loose, at.Values`parent, Cells()`p
    {
      // Comparing with `true` makes this one fact to the verifier; else it proves conjunct by conjunct at every use.
      Pictures(at, shape, loose) == true
    }

    /** `e` is the table the nodes' peers spell out. */
    ghost predicate PeersMatch(m: map<Bits, TrieEntry>, e: map<Bits, Peer>)
      reads m.Values`peer, m.Values`perPeerElem
    {
      forall p {:trigger m[p]} :: p in m ==>
        m[p].peer == (if p in e then e[p] else null) && m[p].perPeerElem == (p in e)
    }

    ghost predicate Valid()
      reads this`at, this`shape, this`loose, this`entries, at.Values`parent, at.Values`peer, at.Values`perPeerElem,
        Cells()`p
    {
      (Coupled() && loose == {} && shape.Linked() && shape.Compressed(entries.Keys) && PeersMatch(at, entries)) == true
    }

    ghost method Commit(m: map<Bits, TrieEntry>, s: Shape, l: set<Bits>)
      requires Pictures(m, s, l)
      modifies this`at, this`shape, this`loose
      ensures at == m && shape == s && loose == l && Coupled()
    {
      at, shape, loose := m, s, l;
    }

    /** A new node, hanging nowhere yet. */
    ghost method Add(n: TrieEntry)
      requires Coupled() && n.key !in at && n.Shaped(width) && n.child0.p == null && n.child1.p == null
      modifies this`at, this`shape, this`loose
      ensures Coupled() && at == old(at)[n.key := n] && loose == old(loose) + {n.key}
      ensures shape == WithNode(old(shape), n.key)
    {
      ghost var m, s := at[n.key := n], WithNode(shape, n.key);
      forall t | s.Has(t)
        ensures LinkOk(m, s, t)
      {
        assert shape.Has(t) ==> LinkOk(at, shape, t);
      }
      forall p | p in m && p !in loose + {n.key}
        ensures ParentOk(m, s, p)
      {
        assert ParentOk(at, shape, p);
      }
      Commit(m, s, loose + {n.key});
    }

    /** Whether the node at a place, if any, is known to hang elsewhere. */
    ghost predicate Vacant(t: Place)
      requires shape.Has(t)
      reads this`at, this`shape, this`loose, at.Values`parent
    {
      shape.Get(t).Some? ==>
        shape.Get(t).value in loose || (shape.Get(t).value in at && at[shape.Get(t).value].parent.Place() != t)
    }

    /** `c.parent = slot; *slot = c` */
    method Point(slot: Slot, c: TrieEntry)
      requires Coupled() && SlotOk(at, slot) && shape.Has(slot.Place()) && Refers(at, c, Some(c.key))
        && Vacant(slot.Place())
      modifies this`at, this`shape, this`loose, slot.Deref()`p, c`parent
      ensures Coupled() && at == old(at) && loose == old(loose) - {c.key} && c.parent == slot
      ensures shape == old(shape).Set(slot.Place(), Some(c.key))
    {
      ghost var s := shape.Set(slot.Place(), Some(c.key));
      assert LinkOk(at, shape, slot.Place());
      c.parent := slot;
      slot.Deref().p := c;
      forall t | s.Has(t)
        ensures LinkOk(at, s, t)
      {
        assert old(LinkOk(at, shape, t));
      }
      forall p | p in at && p !in loose - {c.key}
        ensures ParentOk(at, s, p)
      {
        assert p != c.key ==> old(ParentOk(at, shape, p));
      }
      Commit(at, s, loose - {c.key});
    }

    /** `*slot = nil` */
    method Clear(slot: Slot)
      requires Coupled() && SlotOk(at, slot) && shape.Has(slot.Place()) && Vacant(slot.Place())
      modifies this`at, this`shape, this`loose, slot.Deref()`p
      ensures Coupled() && at == old(at) && loose == old(loose)
      ensures shape == old(shape).Set(slot.Place(), None)
    {
      ghost var s := shape.Set(slot.Place(), None);
      assert LinkOk(at, shape, slot.Place());
      slot.Deref().p := null;
      forall t | s.Has(t)
        ensures LinkOk(at, s, t)
      {
        assert old(LinkOk(at, shape, t));
      }
      forall p | p in at && p !in loose
        ensures ParentOk(at, s, p)
      {
        assert old(ParentOk(at, shape, p));
      }
      Commit(at, s, loose);
    }

    /** Forget that a node hangs where its `parent` says. */
    ghost method Loosen(k: Bits)
      requires Coupled()
      modifies this`at, this`shape, this`loose
      ensures Coupled() && at == old(at) && shape == old(shape) && loose == old(loose) + {k}
    {
      Commit(at, shape, loose + {k});
    }

    /** Forget a node nothing points to and nothing hangs from. */
    ghost method Drop(k: Bits)
      requires Coupled() && k in loose && k in at
      requires forall t :: shape.Has(t) ==> shape.Get(t) != Some(k)
      requires Vacant(AtChild(k, false)) && Vacant(AtChild(k, true))
      modifies this`at, this`shape, this`loose
      ensures Coupled() && at == old(at) - {k} && loose == old(loose) - {k}
      ensures shape == Shape(old(shape).root, old(shape).cells - {k})
    {
      ghost var m, s := at - {k}, Shape(shape.root, shape.cells - {k});
      forall t | s.Has(t)
        ensures LinkOk(m, s, t)
      {
        assert LinkOk(at, shape, t) && shape.Get(t) != Some(k);
      }
      forall p | p in m && p !in loose - {k}
        ensures ParentOk(m, s, p)
      {
        assert ParentOk(at, shape, p);
      }
      Commit(m, s, loose - {k});
    }

    /** Lines 141-142: a new node goes into an empty slot. */
    method AttachNode(slot: Slot, n: TrieEntry)
      requires Coupled() && loose == {} && SlotOk(at, slot) && shape.Has(slot.Place())
        && shape.Get(slot.Place()) == None
      requires n.key !in at && n.Shaped(width) && n.child0.p == null && n.child1.p == null
      modifies this`at, this`shape, this`loose, slot.Deref()`p, n`parent
      ensures Coupled() && at == old(at)[n.key := n] && loose == {}
      ensures shape == Attach(old(shape), slot.Place(), n.key)
    {
      AttachSteps(shape, slot.Place(), n.key);
      Add(n);
      Point(slot, n);
    }

    /** Lines 153-163: a new node goes between a slot and the node it points to. */
    method SpliceNode(slot: Slot, n: TrieEntry, down: TrieEntry)
      requires Coupled() && loose == {} && SlotOk(at, slot) && shape.Has(slot.Place())
        && shape.Get(slot.Place()) == Some(down.key)
      requires Refers(at, down, Some(down.key)) && |n.key| < |down.key|
      requires n.key !in at && n.Shaped(width) && n.child0.p == null && n.child1.p == null
      modifies this`at, this`shape, this`loose, slot.Deref()`p, down`parent, n`parent, n.child0`p, n.child1`p
      ensures Coupled() && at == old(at)[n.key := n] && loose == {}
      ensures shape == Splice(old(shape), slot.Place(), n.key)
    {
      assert down.Shaped(width);
      var bit := n.Choose(down.bits);
      assert bit == down.key[|n.key|];
      SpliceSteps(shape, slot.Place(), n.key, down.key);
      Add(n);
      Point(ChildSlot(n, bit), down);
      Point(slot, n);
    }

    /** Lines 175-180: two nodes become the children of a new fork, which hangs nowhere yet. */
    method HangUnder(fork: TrieEntry, down: TrieEntry, n: TrieEntry)
      requires Coupled() && loose == {fork.key, n.key} && Refers(at, fork, Some(fork.key))
      requires Refers(at, down, Some(down.key)) && Refers(at, n, Some(n.key)) && down != n
      requires |fork.key| < |down.key| && |fork.key| < |n.key| && n.key[|fork.key|] != down.key[|fork.key|]
      requires shape.cells[fork.key] == NO_LINKS
      modifies this`at, this`shape, this`loose, down`parent, n`parent, fork.child0`p, fork.child1`p
      ensures Coupled() && at == old(at) && loose == {fork.key}
      ensures down.parent == ChildSlot(fork, down.key[|fork.key|])
      ensures shape == old(shape).Set(AtChild(fork.key, down.key[|fork.key|]), Some(down.key))
                         .Set(AtChild(fork.key, n.key[|fork.key|]), Some(n.key))
    {
      assert down.Shaped(width) && n.Shaped(width) && fork.Shaped(width);
      var bit, other := fork.Choose(down.bits), fork.Choose(n.bits);
      assert bit == down.key[|fork.key|] && other == n.key[|fork.key|];
      SetGet(shape, AtChild(fork.key, bit), Some(down.key), AtChild(fork.key, other));
      Point(ChildSlot(fork, bit), down);
      Point(ChildSlot(fork, other), n);
    }

    lemma SameKeys()
      requires Coupled()
      ensures at.Keys == shape.cells.Keys
    {
    }

    /** Lines 167-188: a new node and the node a slot points to go under a new fork, which takes the slot. */
    method ForkNodes(slot: Slot, fork: TrieEntry, n: TrieEntry, down: TrieEntry)
      requires Coupled() && loose == {} && SlotOk(at, slot) && shape.Has(slot.Place())
        && shape.Get(slot.Place()) == Some(down.key)
      requires Refers(at, down, Some(down.key)) && |fork.key| < |down.key| && |fork.key| < |n.key|
      requires n.key[|fork.key|] != down.key[|fork.key|]
      requires n.key !in at && n.Shaped(width) && n.child0.p == null && n.child1.p == null
      requires fork.key !in at && fork.Shaped(width) && fork.child0.p == null && fork.child1.p == null
      modifies this`at, this`shape, this`loose, slot.Deref()`p, down`parent, n`parent, fork`parent, fork.child0`p,
        fork.child1`p
      ensures Coupled() && at == old(at)[fork.key := fork][n.key := n] && loose == {}
      ensures shape == Attach(Splice(old(shape), slot.Place(), fork.key), AtChild(fork.key, n.key[|fork.key|]), n.key)
    {
      hide Coupled, Attach, Splice;
      ghost var t := slot.Place();
      SameKeys();
      ForkSteps(shape, t, fork.key, n.key, down.key);
      Add(fork);
      Add(n);
      HangUnder(fork, down, n);
      assert shape.Has(t) && shape.Get(t) == Some(down.key);
      Point(slot, fork);
    }

    lemma NodeKnown(n: TrieEntry, b: bool)
      requires Coupled() && Refers(at, n, Some(n.key))
      ensures n.Shaped(width) && n.key in shape.cells
      ensures Refers(at, n.Child(b).p, shape.cells[n.key].Child(b))
    {
      assert n.Shaped(width) && LinkOk(at, shape, AtChild(n.key, b));
    }

    lemma PlaceKnown(n: TrieEntry)
      requires Coupled() && loose == {} && Refers(at, n, Some(n.key))
      ensures Hangs(at, shape, n.parent, n.key)
    {
      assert ParentOk(at, shape, n.key);
    }

    /** Lines 232-240: a node with at most one child leaves, and the child takes its slot. */
    method UnlinkNode(n: TrieEntry)
      requires Coupled() && loose == {} && Refers(at, n, Some(n.key)) && n.key in shape.cells
      requires shape.cells[n.key].lo.None? || shape.cells[n.key].hi.None?
      requires Hangs(at, shape, n.parent, n.key) && (n.parent.ChildSlot? ==> n.parent.node.key != n.key)
      requires forall u :: shape.Has(u) && shape.Get(u) == Some(n.key) ==> u == n.parent.Place()
      modifies this`at, this`shape, this`loose, n.parent.Deref()`p, at.Values`parent
      ensures Coupled() && at == old(at) - {n.key} && loose == {} && n.parent == old(n.parent)
      ensures shape == Unlink(old(shape), n.parent.Place())
    {
      hide Unlink;
      NodeKnown(n, false);
      NodeKnown(n, true);
      ghost var t := n.parent.Place();
      UnlinkSteps(shape, t, n.key);
      var bit := n.child0.p == null;
      var child := n.Child(bit).p;
      assert shape.Has(AtChild(n.key, bit)) && AtChild(n.key, bit) != t;
      Loosen(n.key);
      if child != null {
        assert child.key != n.key;
        Point(n.parent, child);
      } else {
        Clear(n.parent);
      }
      forall u | shape.Has(u)
        ensures shape.Get(u) != Some(n.key)
      {
        SetGet(old(shape), t, KeyOf(child), u);
      }
      assert child != null ==> Refers(at, child, Some(child.key)) && child.parent.Place() == t;
      assert t != AtChild(n.key, false) && t != AtChild(n.key, true);
      Drop(n.key);
    }

    method NodePlacement(ip: Bits, cidr: nat) returns (parent: TrieEntry?, exact: bool)
      requires Valid() && |ip| == width && cidr <= width
      ensures Refers(at, parent, KeyOf(parent)) && (exact <==> ip[..cidr] in at)
      ensures if exact then parent == at[ip[..cidr]] else Descending(shape, ip[..cidr], KeyOf(parent), None)
    {
      hide Descending, Mask, CommonBits;
      ghost var k, left := ip[..cidr], width + 1;
      var node := root.p;
      parent, exact := null, false;
      DescentStart(shape, k);
      assert LinkOk(at, shape, AtRoot);
      CoverSeen(node, ip, cidr);
      while node != null && node.cidr <= cidr && CommonBits(node.bits, ip) >= node.cidr
        invariant Refers(at, node, KeyOf(node)) && Refers(at, parent, KeyOf(parent))
        invariant node != null ==> |node.key| == node.cidr <= width < left + |node.key|
        invariant node != null ==> ((node.cidr <= cidr && CommonBits(node.bits, ip) >= node.cidr) <==> node.key <= k)
        invariant Descending(shape, k, KeyOf(parent), KeyOf(node))
        decreases left
      {
        ghost var above := KeyOf(parent);
        parent := node;
        if parent.cidr == cidr {
          assert parent.key == k;
          exact := true;
          return;
        }
        DescentStep(shape, k, above, node.key);
        var bit := node.Choose(ip);
        NodeKnown(node, bit);
        left := width - |node.key|;
        node := node.Child(bit).p;
        CoverSeen(node, ip, cidr);
      }
      DescentStop(shape, k, KeyOf(parent), KeyOf(node));
    }

    lemma CoverSeen(n: TrieEntry?, ip: Bits, cidr: nat)
      requires Coupled() && Refers(at, n, KeyOf(n)) && |ip| == width && cidr <= width
      ensures n != null ==> |n.key| == n.cidr <= width
      ensures n != null ==> ((n.cidr <= cidr && CommonBits(n.bits, ip) >= n.cidr) <==> n.key <= ip[..cidr])
    {
      if n != null {
        NodeKnown(n, false);
        CommonBitsDecideCover(n.bits, ip, n.cidr);
      }
    }

    /** The peer of the longest prefix of `ip` in the table, or nil. */
    method Lookup(ip: Bits) returns (found: Peer?)
      requires Valid() && |ip| == width && width % 8 == 0
      ensures match LongestMatch(entries, ip) case None => found == null case Some(p) => found == p
    {
      hide Seeking, Mask, CommonBits, LongestMatch;
      var node := root.p;
      found := null;
      ghost var above: Option<Bits>, best: Option<Bits> := None, None;
      SeekStart(shape, entries.Keys, ip);
      assert LinkOk(at, shape, AtRoot);
      NodeSeen(node, ip);
      ghost var left := width + 1;
      while node != null && CommonBits(node.bits, ip) >= node.cidr
        invariant Refers(at, node, KeyOf(node))
        invariant node != null ==> (CommonBits(node.bits, ip) >= node.cidr <==> node.key <= ip)
        invariant node != null ==> |node.key| == node.cidr <= width < left + |node.key|
        invariant Seeking(shape, entries.Keys, ip, above, best, KeyOf(node)) && (best.Some? ==> best.value in entries)
        invariant found == if best.Some? then entries[best.value] else null
        decreases left
      {
        SeekStep(shape, entries.Keys, ip, above, best, node.key);
        above := Some(node.key);
        if node.peer != null {
          found := node.peer;
          best := Some(node.key);
        }
        if node.cidr / 8 == |ip| / 8 {
          assert node.key == ip;
          SeekDone(shape, entries, ip, above, best, None);
          break;
        }
        var bit := node.Choose(ip);
        NodeKnown(node, bit);
        left := width - |node.key|;
        node := node.Child(bit).p;
        NodeSeen(node, ip);
      }
      if node == null || !(node.key <= ip) {
        SeekDone(shape, entries, ip, above, best, KeyOf(node));
      }
    }

    lemma NodeSeen(n: TrieEntry?, ip: Bits)
      requires Valid() && Refers(at, n, KeyOf(n)) && |ip| == width
      ensures n != null ==> |n.key| == n.cidr <= width && (CommonBits(n.bits, ip) >= n.cidr <==> n.key <= ip)
      ensures n != null ==> n.peer == if n.key in entries then entries[n.key] else null
    {
      if n != null {
        NodeKnown(n, false);
        CommonBitsDecideCover(n.bits, ip, n.cidr);
      }
    }

    lemma PartingKnown(n: TrieEntry, down: TrieEntry, cidr: nat)
      requires n.Shaped(width) && down.Shaped(width) && !(down.key <= n.key)
      requires var c := CommonBits(down.bits, n.bits); cidr == if c < n.cidr then c else n.cidr
      ensures Parting(n.key, down.key, n.key[..cidr]) && |n.key| == n.cidr
    {
      ForkPoint(down.bits, down.cidr, n.bits, n.cidr);
      assert n.key[..cidr] <= n.key;
      assert cidr == n.cidr ==> n.key[..cidr] == n.key && n.key != down.key;
    }

    method NewFork(slot: Slot, n: TrieEntry, down: TrieEntry, cidr: nat) returns (fork: TrieEntry)
      requires Coupled() && loose == {} && SlotOk(at, slot) && shape.Has(slot.Place())
        && shape.Get(slot.Place()) == Some(down.key)
      requires n.key !in at && n.Shaped(width) && n.child0.p == null && n.child1.p == null
      requires Refers(at, down, Some(down.key)) && cidr < |down.key| && cidr < n.cidr && n.key[cidr] != down.key[cidr]
      requires n.key[..cidr] !in at
      modifies this`at, this`shape, this`loose, slot.Deref()`p, down`parent, n`parent
      ensures Coupled() && loose == {} && at == old(at)[n.key[..cidr] := fork][n.key := n]
      ensures shape == Attach(Splice(old(shape), slot.Place(), n.key[..cidr]), AtChild(n.key[..cidr], n.key[cidr]),
        n.key)
      ensures fork.New(n.key[..cidr]) && fresh(fork) && fresh(fork.child0) && fresh(fork.child1)
    {
      fork := new TrieEntry(n.bits, cidr, null, slot);
      assert fork.key == n.key[..cidr];
      ForkNodes(slot, fork, n, down);
    }

    /** Lines 146-188: the new node goes above the node its slot points to, or beside it under a fork. */
    method HangBeside(slot: Slot, n: TrieEntry, down: TrieEntry) returns (fork: TrieEntry?, ghost m: Bits)
      requires Coupled() && loose == {} && SlotOk(at, slot) && shape.Has(slot.Place())
        && shape.Get(slot.Place()) == Some(down.key)
      requires n.key !in at && Refers(at, down, Some(down.key)) && !(down.key <= n.key)
      requires n.Shaped(width) && n.child0.p == null && n.child1.p == null
      requires forall m :: Parting(n.key, down.key, m) && m != n.key ==> m !in at
      modifies this`at, this`shape, this`loose, slot.Deref()`p, down`parent, n`parent, n.child0`p, n.child1`p
      ensures Coupled() && loose == {}
      ensures Parting(n.key, down.key, m) && shape == HangOver(old(shape), slot.Place(), n.key, m)
      ensures if m == n.key then at == old(at)[n.key := n] else fork != null && at == old(at)[m := fork][n.key := n]
      ensures m != n.key ==> fork.New(m) && fresh(fork) && fresh(fork.child0) && fresh(fork.child1)
    {
      NodeKnown(down, false);
      var common := CommonBits(down.bits, n.bits);
      var cidr := if common < n.cidr then common else n.cidr;
      PartingKnown(n, down, cidr);
      m := n.key[..cidr];
      if n.cidr == cidr {
        SpliceNode(slot, n, down);
        fork := null;
      } else {
        fork := NewFork(slot, n, down, cidr);
      }
    }

    method HangNode(slot: Slot, n: TrieEntry) returns (fork: TrieEntry?, ghost m: Bits)
      requires Coupled() && loose == {} && SlotOk(at, slot) && shape.Has(slot.Place()) && n.key !in at
      requires n.Shaped(width) && n.child0.p == null && n.child1.p == null
      requires shape.Get(slot.Place()).Some? ==> !(shape.Get(slot.Place()).value <= n.key)
      requires forall m :: CanPlace(shape, slot.Place(), n.key, m) && m != n.key ==> m !in at
      modifies this`at, this`shape, this`loose, slot.Deref()`p, at.Values`parent, n`parent, n.child0`p, n.child1`p
      ensures Coupled() && loose == {}
      ensures CanPlace(old(shape), slot.Place(), n.key, m) && shape == Placed(old(shape), slot.Place(), n.key, m)
      ensures if m == n.key then at == old(at)[n.key := n] else fork != null && at == old(at)[m := fork][n.key := n]
      ensures m != n.key ==> fork.New(m) && fresh(fork) && fresh(fork.child0) && fresh(fork.child1)
    {
      assert LinkOk(at, shape, slot.Place());
      var down := slot.Deref().p;
      if down == null {
        AttachNode(slot, n);
        fork, m := null, n.key;
      } else {
        fork, m := HangBeside(slot, n, down);
      }
    }

    method HangEntry(slot: Slot, n: TrieEntry) returns (fork: TrieEntry?, ghost m: Bits)
      requires Coupled() && loose == {} && SlotOk(at, slot) && shape.Has(slot.Place()) && n.key !in at
      requires n.Shaped(width) && n.child0.p == null && n.child1.p == null
      requires shape.Get(slot.Place()).Some? ==> !(shape.Get(slot.Place()).value <= n.key)
      requires n.peer != null && n.perPeerElem && PeersMatch(at, entries) && entries.Keys <= at.Keys
      requires forall m :: CanPlace(shape, slot.Place(), n.key, m) && m != n.key ==> m !in at
      modifies this`at, this`shape, this`loose, slot.Deref()`p, at.Values`parent, n`parent, n.child0`p, n.child1`p
      ensures Coupled() && loose == {}
      ensures CanPlace(old(shape), slot.Place(), n.key, m) && shape == Placed(old(shape), slot.Place(), n.key, m)
      ensures if m == n.key then at == old(at)[n.key := n] else fork != null && at == old(at)[m := fork][n.key := n]
      ensures m != n.key ==> fork.New(m) && fresh(fork) && fresh(fork.child0) && fresh(fork.child1)
      ensures PeersMatch(at, entries[n.key := n.peer])
      ensures forall p :: p in old(at) ==> p in at && at[p] == old(at)[p]
    {
      hide Attach, Splice, Placed, TrieEntry.Shaped, Coupled, CanPlace;
      fork, m := HangNode(slot, n);
      forall p | p in at
        ensures at[p].peer == (if p in entries[n.key := n.peer] then entries[n.key := n.peer][p] else null)
        ensures at[p].perPeerElem == (p in entries[n.key := n.peer])
      {
        assert p == n.key || (p == m && fork.Plain()) || (p in old(at) && at[p] == old(at)[p]);
      }
    }

    lemma PeersShrink(m: map<Bits, TrieEntry>, m': map<Bits, TrieEntry>, e: map<Bits, Peer>)
      requires PeersMatch(m, e) && forall p :: p in m' ==> p in m && m'[p] == m[p]
      ensures PeersMatch(m', e)
    {
    }

    ghost method CommitEntries(e: map<Bits, Peer>)
      requires Coupled() && loose == {} && shape.Linked() && shape.Compressed(e.Keys) && PeersMatch(at, e)
      modifies this`entries
      ensures Valid() && entries == e
    {
      entries := e;
    }

    /** What hanging a new node needs: its place is free, and so is that of any fork. */
    lemma MayHang(t: Place, k: Bits)
      requires Valid() && shape.Fits(t, k)
      ensures Coupled() && loose == {} && PeersMatch(at, entries) && entries.Keys <= at.Keys && k !in at
      ensures shape.Has(t) && shape.Linked() && shape.Compressed(entries.Keys)
      ensures shape.Get(t).Some? ==> !(shape.Get(t).value <= k)
      ensures forall m :: CanPlace(shape, t, k, m) && m != k ==> m !in at
    {
      if shape.Get(t).Some? {
        NotCovered(shape, t, k);
      }
      forall m | CanPlace(shape, t, k, m) && m != k
        ensures m !in at
      {
        PlacedOk(shape, t, k, m, entries.Keys);
      }
    }

    /** Lines 130-188: a prefix without a node gets one. */
    method InsertNew(n: TrieEntry, slot: Slot)
      requires Valid() && SlotOk(at, slot) && shape.Fits(slot.Place(), n.key)
      requires n.Shaped(width) && n.child0.p == null && n.child1.p == null && n.peer != null && n.perPeerElem
      modifies this`at, this`shape, this`loose, this`entries, slot.Deref()`p, at.Values`parent, n`parent, n.child0`p,
        n.child1`p
      ensures Valid() && entries == old(entries)[n.key := n.peer]
      ensures Refers(at, n, Some(n.key))
      ensures forall p :: p in old(at) ==> p in at && at[p] == old(at)[p]
      ensures forall p ::
        p in at && p !in old(at) && at[p] != n ==> fresh(at[p]) && fresh(at[p].child0) && fresh(at[p].child1)
    {
      ghost var s, k, t, e := shape, n.key, slot.Place(), entries;
      MayHang(t, k);
      hide Valid, Coupled, CanPlace, PeersMatch, Shape.Linked, Shape.Compressed, Attach, Splice, Placed;
      var fork, m := HangEntry(slot, n);
      PlacedOk(s, t, k, m, e.Keys);
      assert e.Keys + {k} == e[k := n.peer].Keys;
      CommitEntries(e[k := n.peer]);
    }

    ghost predicate AllListed(peers: set<Peer>)
      reads this`at, at.Values`peer, at.Values`perPeerElem, peers`trieEntries
    {
      forall p {:trigger at[p]} :: p in at ==> at[p].ListedIn(peers)
    }

    lemma CellOf(slot: Slot)
      requires SlotOk(at, slot)
      ensures slot.Deref() in Cells()
    {
    }

    /** Lines 134-139: the slot a new prefix goes to, given where its search stopped. */
    method FindSlot(ip: Bits, cidr: nat, node: TrieEntry?) returns (slot: Slot)
      requires Valid() && |ip| == width && cidr <= width && ip[..cidr] !in at
      requires Refers(at, node, KeyOf(node)) && Descending(shape, ip[..cidr], KeyOf(node), None)
      ensures SlotOk(at, slot) && shape.Fits(slot.Place(), ip[..cidr]) && slot.Deref() in Cells()
    {
      ghost var k := ip[..cidr];
      slot := RootSlot(this);
      if node != null {
        NodeKnown(node, false);
        slot := ChildSlot(node, node.Choose(ip));
      }
      PlacementFits(shape, KeyOf(node), k);
      assert slot.Place() == PlaceBelow(KeyOf(node), k);
      CellOf(slot);
    }

    /** Lines 124-132. */
    method NewEntry(ip: Bits, cidr: nat, peer: Peer, slot: Slot) returns (n: TrieEntry)
      requires |ip| == width && cidr <= width
      modifies peer`trieEntries
      ensures fresh(n) && fresh(n.child0) && fresh(n.child1) && n.key == ip[..cidr] && n.Shaped(width)
      ensures n.child0.p == null && n.child1.p == null && n.peer == peer && n.perPeerElem
      ensures peer.trieEntries == old(peer.trieEntries) + [n]
    {
      n := new TrieEntry(ip, cidr, peer, slot);
      n.AddToPeerEntries();
    }

    /** Lines 124-188: a prefix without a node gets one. */
    method InsertFresh(ip: Bits, cidr: nat, peer: Peer, slot: Slot) returns (n: TrieEntry)
      requires Valid() && |ip| == width && cidr <= width
      requires SlotOk(at, slot) && shape.Fits(slot.Place(), ip[..cidr]) && slot.Deref() in Cells()
      modifies this`at, this`shape, this`loose, this`entries, Cells()`p, at.Values`parent, peer`trieEntries
      ensures Valid() && entries == old(entries)[ip[..cidr] := peer]
      ensures fresh(n) && Refers(at, n, Some(ip[..cidr]))
      ensures forall p :: p in old(at) ==> p in at && at[p] == old(at)[p]
      ensures forall p :: p in at && p !in old(at) ==> fresh(at[p]) && fresh(at[p].child0) && fresh(at[p].child1)
      ensures peer.trieEntries == old(peer.trieEntries) + [n]
    {
      hide Attach, Splice, Placed, LongestMatch, TrieEntry.Shaped, Shape.Linked, Shape.Compressed;
      n := NewEntry(ip, cidr, peer, slot);
      InsertNew(n, slot);
    }

    method InsertAbsent(ip: Bits, cidr: nat, peer: Peer, node: TrieEntry?) returns (n: TrieEntry)
      requires Valid() && |ip| == width && cidr <= width && ip[..cidr] !in at
      requires Refers(at, node, KeyOf(node)) && Descending(shape, ip[..cidr], KeyOf(node), None)
      modifies this`at, this`shape, this`loose, this`entries, Cells()`p, at.Values`parent, peer`trieEntries
      ensures Valid() && entries == old(entries)[ip[..cidr] := peer]
      ensures fresh(n) && Refers(at, n, Some(ip[..cidr]))
      ensures forall p :: p in old(at) ==> p in at && at[p] == old(at)[p]
      ensures forall p :: p in at && p !in old(at) ==> fresh(at[p]) && fresh(at[p].child0) && fresh(at[p].child1)
      ensures peer.trieEntries == old(peer.trieEntries) + [n]
    {
      var slot := FindSlot(ip, cidr, node);
      n := InsertFresh(ip, cidr, peer, slot);
    }

    /** Lines 117-122: a prefix with a node changes hands. */
    method Transfer(node: TrieEntry, peer: Peer, ghost peers: set<Peer>)
      requires Valid() && Refers(at, node, Some(node.key)) && node.ListedIn(peers) && peer in peers
      modifies this`entries, node`peer, node`perPeerElem, peers`trieEntries
      ensures Valid() && entries == old(entries)[node.key := peer]
      ensures forall q :: q in peers ==> q.trieEntries == Relisted(old(q.trieEntries), node, q == peer)
    {
      assert forall p :: p in at && p != node.key ==> at[p] != node;
      hide Pictures, Without, Relisted;
      assert shape.Compressed(entries[node.key := peer].Keys);
      node.Reassign(peer, peers);
      CommitEntries(entries[node.key := peer]);
    }

    /** The prefix of length `cidr` of `ip` now belongs to `peer`. */
    method Insert(ip: Bits, cidr: nat, peer: Peer, ghost peers: set<Peer>) returns (ghost n: TrieEntry)
      requires Valid() && AllListed(peers) && |ip| == width && cidr <= width && peer in peers
      modifies this`at, this`shape, this`loose, this`entries, Cells()`p
      modifies at.Values`parent, at.Values`peer, at.Values`perPeerElem, peers`trieEntries
      ensures Valid() && entries == old(entries)[ip[..cidr] := peer]
      ensures Refers(at, n, Some(ip[..cidr])) && (n.key in old(at) || fresh(n))
      ensures forall p :: p in old(at) ==> p in at && at[p] == old(at)[p]
      ensures forall p :: p in at && p !in old(at) ==> fresh(at[p]) && fresh(at[p].child0) && fresh(at[p].child1)
      ensures forall q :: q in peers ==> q.trieEntries == Relisted(old(q.trieEntries), n, q == peer)
    {
      var node, exact := NodePlacement(ip, cidr);
      if exact {
        Transfer(node, peer, peers);
        n := node;
      } else {
        n := InsertAbsent(ip, cidr, peer, node);
      }
    }

    /** `UnlinkNode` for a node of a linked trie. */
    method UnlinkHung(node: TrieEntry)
      requires Coupled() && loose == {} && shape.Linked() && Refers(at, node, Some(node.key))
      requires node.child0.p == null || node.child1.p == null
      modifies this`at, this`shape, this`loose, node.parent.Deref()`p, at.Values`parent
      ensures Hangs(old(at), old(shape), node.parent, node.key) && node.parent == old(node.parent)
        && node.key in old(shape.cells)
      ensures Coupled() && loose == {} && at == old(at) - {node.key}
      ensures shape == Unlink(old(shape), node.parent.Place()) && shape.Linked()
    {
      PlaceKnown(node);
      HangsOnce(shape, node.parent.Place(), node.key);
      NodeKnown(node, false);
      NodeKnown(node, true);
      UnlinkLinked(shape, node.parent.Place());
      UnlinkNode(node);
    }

    /** Lines 245-254: a fork that has lost a side goes too. */
    method Collapse(parent: TrieEntry, ghost s: Shape, ghost t: Place, ghost e: set<Bits>)
      requires Coupled() && loose == {} && Refers(at, parent, Some(parent.key))
      requires s.Linked() && s.Compressed(e) && s.Has(t) && t.AtChild? && t.p == parent.key && t.p !in e
      requires s.Get(t).Some? && s.Get(t).value in s.cells && s.cells[s.Get(t).value] == NO_LINKS
      requires shape == Unlink(s, t) && shape.Linked()
      modifies this`at, this`shape, this`loose, parent.parent.Deref()`p, at.Values`parent
      ensures Coupled() && loose == {} && at == old(at) - {parent.key}
      ensures shape.Linked() && shape.Compressed(e - {s.Get(t).value})
    {
      PlaceKnown(parent);
      NodeKnown(parent, t.b);
      UnlinkForkOk(s, t, parent.parent.Place(), e);
      UnlinkHung(parent);
    }

    /** Lines 226-257, once the entry has given up its peer. */
    method Take(node: TrieEntry, ghost e: map<Bits, Peer>)
      requires Coupled() && loose == {} && shape.Linked() && shape.Compressed(e.Keys)
        && Refers(at, node, Some(node.key))
      requires PeersMatch(at, e - {node.key})
      modifies this`at, this`shape, this`loose, Cells()`p, at.Values`parent
      ensures Coupled() && loose == {} && shape.Linked() && shape.Compressed(e.Keys - {node.key})
      ensures forall p :: p in at ==> p in old(at) && at[p] == old(at)[p]
    {
      hide Coupled, Unlink;
      ghost var s, k := shape, node.key;
      NodeKnown(node, false);
      NodeKnown(node, true);
      if node.child0.p != null && node.child1.p != null {
        return;
      }
      var leaf := node.child0.p == null && node.child1.p == null;
      var slot := node.parent;
      PlaceKnown(node);
      HangsOnce(s, slot.Place(), k);
      CellOf(slot);
      UnlinkHung(node);
      if !leaf || slot.RootSlot? {
        UnlinkCompressed(s, slot.Place(), e.Keys);
        return;
      }
      var parent := slot.node;
      if parent.peer != null {
        UnlinkCompressed(s, slot.Place(), e.Keys);
        return;
      }
      PlaceKnown(parent);
      CellOf(parent.parent);
      Collapse(parent, s, slot.Place(), e.Keys);
    }

    /** Lines 227-228: a node gives up its peer. */
    method Release(node: TrieEntry, ghost peers: set<Peer>)
      requires Coupled() && PeersMatch(at, entries) && node.ListedIn(peers) && Refers(at, node, Some(node.key))
      modifies node`peer, node`perPeerElem, peers`trieEntries
      ensures Coupled() && PeersMatch(at, entries - {node.key})
      ensures forall q :: q in peers ==> q.trieEntries == Without(old(q.trieEntries), node)
    {
      assert forall p :: p in at && p != node.key ==> at[p] != node;
      node.Disown(peers);
    }

    /** Lines 226-257: a node gives up its prefix. */
    method RemoveNode(node: TrieEntry, ghost peers: set<Peer>)
      requires Valid() && node.ListedIn(peers) && Refers(at, node, Some(node.key))
      modifies this`at, this`shape, this`loose, this`entries, Cells()`p, at.Values`parent
      modifies node`peer, node`perPeerElem, peers`trieEntries
      ensures Valid() && entries == old(entries) - {node.key}
      ensures forall p :: p in at ==> p in old(at) && at[p] == old(at)[p]
      ensures forall q :: q in peers ==> q.trieEntries == Without(old(q.trieEntries), node)
    {
      hide Coupled, Pictures;
      ghost var m, e := at, entries - {node.key};
      assert e.Keys == entries.Keys - {node.key};
      Release(node, peers);
      Take(node, entries);
      PeersShrink(m, at, e);
      CommitEntries(e);
    }
  }
}
