/** The trie as a value: which prefixes have a node, and which node hangs in which slot. */
module TrieShape {
  import opened Options
  import opened Prefixes

  datatype Links = Links(lo: Option<Bits>, hi: Option<Bits>) {
    function Child(b: bool): Option<Bits> {
      if b then hi else lo
    }

    function SetChild(b: bool, c: Option<Bits>): Links {
      if b then this.(hi := c) else this.(lo := c)
    }
  }

  const NO_LINKS := Links(None, None)

  /** Where a node can hang: the root of the trie, or one side of another node. */
  datatype Place = AtRoot | AtChild(p: Bits, b: bool)

  datatype Shape = Shape(root: Option<Bits>, cells: map<Bits, Links>) {

    ghost predicate Has(t: Place) {
      t.AtChild? ==> t.p in cells
    }

    ghost function Get(t: Place): Option<Bits>
      requires Has(t)
    {
      if t.AtRoot? then root else cells[t.p].Child(t.b)
    }

    ghost function Set(t: Place, c: Option<Bits>): Shape
      requires Has(t)
    {
      if t.AtRoot? then Shape(c, cells) else Shape(root, cells[t.p := cells[t.p].SetChild(t.b, c)])
    }

    /** The slot holds the shortest prefix that lies under it, and is empty when there is none. */
    ghost predicate PlaceOk(t: Place)
      requires Has(t)
    {
      match Get(t)
      case None => forall q :: q in cells ==> !Under(t, q)
      case Some(c) => c in cells && Under(t, c) && forall q :: q in cells && Under(t, q) ==> c <= q
    }

    ghost predicate Linked() {
      forall t {:trigger PlaceOk(t)} :: Has(t) ==> PlaceOk(t)
    }

    /** A node that is not one of the entries exists only to branch. */
    ghost predicate Compressed(entries: set<Bits>) {
      && entries <= cells.Keys
      && forall p :: p in cells && p !in entries ==> cells[p].lo.Some? && cells[p].hi.Some?
    }

    /** `t` is where `k` belongs: under `t` nothing is a prefix of `k`, and everything else that is lies above `t`. */
    ghost predicate Fits(t: Place, k: Bits) {
      && k !in cells
      && Has(t) && Under(t, k)
      && forall q :: q in cells && Under(t, q) ==> !(q <= k)
    }
  }

  ghost predicate Under(t: Place, q: Bits) {
    t.AtRoot? || Below(t.p, t.b, q)
  }

  lemma FitsAbove(s: Shape, t: Place, k: Bits, p: Bits)
    requires s.Fits(t, k) && p in s.cells && p <= k
    ensures !Under(t, p)
  {
  }

  /** A slot above the one a key belongs to already holds a prefix of that key. */
  lemma PlacesAbove(s: Shape, t: Place, k: Bits, u: Place)
    requires s.Linked() && s.Fits(t, k) && s.Has(u) && u != t && Under(u, k)
    ensures s.Get(u).Some? && s.Get(u).value <= k
  {
    assert s.PlaceOk(u);
    if u.AtRoot? {
      assert Under(u, t.p);
    } else {
      FitsAbove(s, t, k, u.p);
      StepDown(t.p, u.p, k);
      StepDown(u.p, t.p, k);
      assert Under(u, t.p);
    }
  }

  /** Hanging a new leaf in an empty slot. */
  ghost function Attach(s: Shape, t: Place, k: Bits): Shape
    requires s.Has(t)
  {
    var u := s.Set(t, Some(k));
    u.(cells := u.cells[k := NO_LINKS])
  }

  /** Putting a new node between a slot and the node it holds. */
  ghost function Splice(s: Shape, t: Place, k: Bits): Shape
    requires s.Has(t) && s.Get(t).Some? && |k| < |s.Get(t).value|
  {
    var d := s.Get(t).value;
    var u := s.Set(t, Some(k));
    u.(cells := u.cells[k := NO_LINKS.SetChild(d[|k|], Some(d))])
  }

  /** Taking out a node that has at most one child: the child takes its slot. */
  ghost function Unlink(s: Shape, t: Place): Shape
    requires s.Has(t) && s.Get(t).Some? && s.Get(t).value in s.cells
  {
    var k := s.Get(t).value;
    var c := s.cells[k];
    var u := s.Set(t, if c.lo.Some? then c.lo else c.hi);
    u.(cells := u.cells - {k})
  }

  ghost function WithNode(s: Shape, k: Bits): Shape {
    Shape(s.root, s.cells[k := NO_LINKS])
  }

  lemma SetGet(s: Shape, t: Place, c: Option<Bits>, u: Place)
    requires s.Has(t) && s.Has(u)
    ensures s.Set(t, c).Has(u) && s.Set(t, c).Get(u) == if u == t then c else s.Get(u)
  {
  }

  lemma AttachSteps(s: Shape, t: Place, k: Bits)
    requires s.Has(t) && k !in s.cells
    ensures WithNode(s, k).Set(t, Some(k)) == Attach(s, t, k)
  {
  }

  lemma SpliceSteps(s: Shape, t: Place, k: Bits, d: Bits)
    requires s.Has(t) && k !in s.cells && s.Get(t) == Some(d) && |k| < |d|
    ensures WithNode(s, k).Set(AtChild(k, d[|k|]), Some(d)).Set(t, Some(k)) == Splice(s, t, k)
  {
  }

  lemma ForkSteps(s: Shape, t: Place, m: Bits, k: Bits, d: Bits)
    requires s.Has(t) && k !in s.cells && m !in s.cells && s.Get(t) == Some(d) && |m| < |d| && |m| < |k|
      && k[|m|] != d[|m|]
    ensures Splice(s, t, m).Has(AtChild(m, k[|m|]))
    ensures var r := WithNode(WithNode(s, m), k).Set(AtChild(m, d[|m|]), Some(d)).Set(AtChild(m, k[|m|]), Some(k));
            r.Has(t) && r.Get(t) == Some(d)
    ensures WithNode(WithNode(s, m), k).Set(AtChild(m, d[|m|]), Some(d)).Set(AtChild(m, k[|m|]), Some(k)).Set(t,
      Some(m))
            == Attach(Splice(s, t, m), AtChild(m, k[|m|]), k)
  {
  }

  lemma UnlinkSteps(s: Shape, t: Place, k: Bits)
    requires s.Has(t) && s.Get(t) == Some(k) && k in s.cells && (t.AtChild? ==> t.p != k)
    ensures var c := s.cells[k]; var u := s.Set(t, if c.lo.Some? then c.lo else c.hi);
            Shape(u.root, u.cells - {k}) == Unlink(s, t)
  {
  }

  lemma AttachPlaceOk(s: Shape, t: Place, k: Bits, u: Place)
    requires s.Linked() && s.Fits(t, k) && s.Get(t).None?
    requires Attach(s, t, k).Has(u)
    ensures Attach(s, t, k).PlaceOk(u)
  {
    assert s.PlaceOk(t);
    if u.AtChild? && u.p == k {
      assert forall q :: q in s.cells && Below(k, u.b, q) ==> Under(t, q);
    } else if u != t {
      assert s.PlaceOk(u);
      if Under(u, k) {
        PlacesAbove(s, t, k, u);
      }
    }
  }

  lemma AttachLinked(s: Shape, t: Place, k: Bits)
    requires s.Linked() && s.Fits(t, k) && s.Get(t).None?
    ensures Attach(s, t, k).Linked()
  {
    forall u: Place | Attach(s, t, k).Has(u) {
      AttachPlaceOk(s, t, k, u);
    }
  }

  lemma SplicePlaceOk(s: Shape, t: Place, k: Bits, u: Place)
    requires s.Linked() && s.Fits(t, k) && s.Get(t).Some? && k <= s.Get(t).value && |k| < |s.Get(t).value|
    requires Splice(s, t, k).Has(u)
    ensures Splice(s, t, k).PlaceOk(u)
  {
    var d := s.Get(t).value;
    assert s.PlaceOk(t);
    if u.AtChild? && u.p == k {
      assert forall q :: q in s.cells && Below(k, u.b, q) ==> Under(t, q) && d <= q;
    } else if u == t {
      assert forall q :: q in s.cells && Under(t, q) ==> d <= q;
    } else {
      assert s.PlaceOk(u);
      if Under(u, k) {
        PlacesAbove(s, t, k, u);
      }
    }
  }

  lemma SpliceLinked(s: Shape, t: Place, k: Bits)
    requires s.Linked() && s.Fits(t, k) && s.Get(t).Some? && k <= s.Get(t).value && |k| < |s.Get(t).value|
    ensures Splice(s, t, k).Linked()
  {
    forall u: Place | Splice(s, t, k).Has(u) {
      SplicePlaceOk(s, t, k, u);
    }
  }

  /** A node hangs in one slot only. */
  lemma PlaceUnique(s: Shape, t: Place, u: Place)
    requires s.Linked() && s.Has(t) && s.Has(u) && s.Get(t).Some? && s.Get(u) == s.Get(t)
    ensures t == u
  {
    assert s.PlaceOk(t) && s.PlaceOk(u);
    var k := s.Get(t).value;
    if t.AtChild? && u.AtChild? {
      StepDown(t.p, u.p, k);
      StepDown(u.p, t.p, k);
    }
  }

  lemma UnlinkPlaceOk(s: Shape, t: Place, u: Place)
    requires s.Linked() && s.Has(t) && s.Get(t).Some? && s.Get(t).value in s.cells
    requires var c := s.cells[s.Get(t).value]; c.lo.None? || c.hi.None?
    requires Unlink(s, t).Has(u)
    ensures Unlink(s, t).PlaceOk(u)
  {
    var k := s.Get(t).value;
    assert s.PlaceOk(u);
    if u == t {
      assert s.PlaceOk(AtChild(k, false)) && s.PlaceOk(AtChild(k, true));
      forall q | q in s.cells && Under(t, q) && q != k
        ensures Under(AtChild(k, q[|k|]), q)
      {
      }
    } else if s.Get(u) == Some(k) {
      PlaceUnique(s, t, u);
    }
  }

  lemma UnlinkLinked(s: Shape, t: Place)
    requires s.Linked() && s.Has(t) && s.Get(t).Some? && s.Get(t).value in s.cells
    requires var c := s.cells[s.Get(t).value]; c.lo.None? || c.hi.None?
    ensures Unlink(s, t).Linked()
  {
    forall u: Place | Unlink(s, t).Has(u) {
      UnlinkPlaceOk(s, t, u);
    }
  }

  /** Where the search for `k` stopped is where `k` belongs. */
  ghost function PlaceBelow(parent: Option<Bits>, k: Bits): Place
    requires parent.Some? ==> |parent.value| < |k|
  {
    if parent.None? then AtRoot else AtChild(parent.value, k[|parent.value|])
  }

  lemma PlacementFits(s: Shape, parent: Option<Bits>, k: Bits)
    requires k !in s.cells
    requires parent.Some? ==> parent.value in s.cells && parent.value <= k && |parent.value| < |k|
    requires forall q :: q in s.cells && q <= k ==> parent.Some? && q <= parent.value
    ensures s.Fits(PlaceBelow(parent, k), k)
  {
  }

  /** The fork of `k` and the node `d` its place holds belongs at that place, and `k` then under the fork. */
  lemma ForkFits(s: Shape, t: Place, k: Bits, d: Bits, m: Bits)
    requires s.Linked() && s.Fits(t, k) && s.Get(t) == Some(d)
    requires m <= k && m <= d && |m| < |k| && |m| < |d| && k[|m|] != d[|m|]
    ensures s.Fits(t, m)
    ensures var r := Splice(s, t, m); var u := AtChild(m, k[|m|]); r.Has(u) && r.Fits(u, k) && r.Get(u) == None
  {
    assert s.PlaceOk(t);
    if t.AtChild? {
      StepDown(t.p, m, k);
      assert t.p <= m && |t.p| < |m| by {
        StepDown(m, t.p, k);
      }
    }
  }

  lemma AttachCompressed(s: Shape, t: Place, k: Bits, entries: set<Bits>)
    requires s.Compressed(entries) && s.Has(t) && k !in s.cells
    ensures Attach(s, t, k).Compressed(entries + {k})
  {
  }

  lemma SpliceCompressed(s: Shape, t: Place, k: Bits, entries: set<Bits>)
    requires s.Compressed(entries) && s.Has(t) && k !in s.cells && s.Get(t).Some? && |k| < |s.Get(t).value|
    ensures Splice(s, t, k).Compressed(entries + {k})
  {
  }

  lemma ForkCompressed(s: Shape, t: Place, k: Bits, m: Bits, entries: set<Bits>)
    requires s.Compressed(entries) && s.Has(t) && m !in s.cells && k !in s.cells && s.Get(t).Some?
    requires |m| < |k| && |m| < |s.Get(t).value| && k[|m|] != s.Get(t).value[|m|]
    ensures Attach(Splice(s, t, m), AtChild(m, k[|m|]), k).Compressed(entries + {k})
  {
  }

  lemma ForkOk(s: Shape, t: Place, k: Bits, d: Bits, m: Bits, entries: set<Bits>)
    requires s.Linked() && s.Compressed(entries) && s.Fits(t, k) && s.Get(t) == Some(d)
    requires m <= k && m <= d && |m| < |k| && |m| < |d| && k[|m|] != d[|m|]
    ensures m !in s.cells && var u := Splice(s, t, m); u.Has(AtChild(m, k[|m|])) && u.Get(AtChild(m, k[|m|])) == None
    ensures var r := Attach(Splice(s, t, m), AtChild(m, k[|m|]), k); r.Linked() && r.Compressed(entries + {k})
  {
    ForkFits(s, t, k, d, m);
    SpliceLinked(s, t, m);
    AttachLinked(Splice(s, t, m), AtChild(m, k[|m|]), k);
    ForkCompressed(s, t, k, m, entries);
  }

  /** Where `k` and the node `d` in its place part: `k` itself when it covers `d`. */
  ghost predicate Parting(k: Bits, d: Bits, m: Bits) {
    && m <= k && m <= d && |m| < |d|
    && (|m| < |k| ==> k[|m|] != d[|m|])
  }

  ghost function HangOver(s: Shape, t: Place, k: Bits, m: Bits): Shape
    requires s.Has(t) && s.Get(t).Some? && Parting(k, s.Get(t).value, m)
  {
    if m == k then Splice(s, t, k) else
      assert |m| < |k|;
      Attach(Splice(s, t, m), AtChild(m, k[|m|]), k)
  }

  lemma HangOverOk(s: Shape, t: Place, k: Bits, m: Bits, entries: set<Bits>)
    requires s.Linked() && s.Compressed(entries) && s.Fits(t, k)
    requires s.Get(t).Some? && Parting(k, s.Get(t).value, m)
    ensures m != k ==> m !in s.cells
    ensures HangOver(s, t, k, m).Linked() && HangOver(s, t, k, m).Compressed(entries + {k})
  {
    if m == k {
      SpliceLinked(s, t, k);
      SpliceCompressed(s, t, k, entries);
    } else {
      ForkOk(s, t, k, s.Get(t).value, m, entries);
    }
  }

  /** Putting `k` in the place where it fits, given where it parts from the node there, if any. */
  ghost predicate CanPlace(s: Shape, t: Place, k: Bits, m: Bits) {
    s.Has(t) && if s.Get(t).None? then m == k else Parting(k, s.Get(t).value, m)
  }

  ghost function Placed(s: Shape, t: Place, k: Bits, m: Bits): Shape
    requires CanPlace(s, t, k, m)
  {
    if s.Get(t).None? then Attach(s, t, k) else HangOver(s, t, k, m)
  }

  lemma PlacedOk(s: Shape, t: Place, k: Bits, m: Bits, entries: set<Bits>)
    requires s.Linked() && s.Compressed(entries) && s.Fits(t, k) && CanPlace(s, t, k, m)
    ensures m != k ==> m !in s.cells
    ensures Placed(s, t, k, m).Linked() && Placed(s, t, k, m).Compressed(entries + {k})
  {
    if s.Get(t).None? {
      AttachLinked(s, t, k);
      AttachCompressed(s, t, k, entries);
    } else {
      HangOverOk(s, t, k, m, entries);
    }
  }

  lemma NotCovered(s: Shape, t: Place, k: Bits)
    requires s.Linked() && s.Fits(t, k) && s.Get(t).Some?
    ensures !(s.Get(t).value <= k)
  {
    assert s.PlaceOk(t);
  }

  /** What unlinking a node needs to know of where it hangs. */
  lemma HangsOnce(s: Shape, t: Place, k: Bits)
    requires s.Linked() && s.Has(t) && s.Get(t) == Some(k)
    ensures forall u :: s.Has(u) && s.Get(u) == Some(k) ==> u == t
    ensures k in s.cells && (t.AtChild? ==> t.p != k)
  {
    assert s.PlaceOk(t);
    forall u | s.Has(u) && s.Get(u) == Some(k)
      ensures u == t
    {
      PlaceUnique(s, t, u);
    }
  }

  /** Unlinking an entry leaves the trie compressed unless its parent only forked and has lost a side. */
  lemma UnlinkCompressed(s: Shape, t: Place, entries: set<Bits>)
    requires s.Linked() && s.Compressed(entries) && s.Has(t) && s.Get(t).Some? && s.Get(t).value in s.cells
    requires var c := s.cells[s.Get(t).value]; c.lo.None? || c.hi.None?
    requires var c := s.cells[s.Get(t).value]; c.lo.Some? || c.hi.Some? || t.AtRoot? || t.p in entries
    requires t.AtChild? ==> t.p != s.Get(t).value
    ensures Unlink(s, t).Compressed(entries - {s.Get(t).value})
  {
  }

  /** Unlinking a leaf and then the fork above it. */
  lemma UnlinkForkOk(s: Shape, t: Place, u: Place, entries: set<Bits>)
    requires s.Linked() && s.Compressed(entries) && s.Has(t) && t.AtChild? && t.p !in entries
    requires s.Get(t).Some? && s.Get(t).value in s.cells && s.cells[s.Get(t).value] == NO_LINKS
    requires Unlink(s, t).Has(u) && Unlink(s, t).Get(u) == Some(t.p)
    ensures t.p in Unlink(s, t).cells && Unlink(s, t).cells[t.p].Child(t.b) == None
    ensures Unlink(s, t).Linked() && Unlink(Unlink(s, t), u).Linked()
    ensures Unlink(Unlink(s, t), u).Compressed(entries - {s.Get(t).value})
  {
    var k := s.Get(t).value;
    assert s.PlaceOk(t);
    UnlinkLinked(s, t);
    UnlinkLinked(Unlink(s, t), u);
    assert Unlink(s, t).PlaceOk(u);
  }

  /** Every node that is a prefix of `k` is within `parent` or at or below `node`. */
  ghost predicate Reach(s: Shape, k: Bits, parent: Option<Bits>, node: Option<Bits>) {
    forall q :: q in s.cells && q <= k ==> (parent.Some? && q <= parent.value) || (node.Some? && node.value <= q)
  }

  lemma ReachStart(s: Shape, k: Bits)
    requires s.Linked()
    ensures Reach(s, k, None, s.root)
  {
    assert s.PlaceOk(AtRoot);
    forall q | q in s.cells
      ensures Under(AtRoot, q)
    {
    }
  }

  lemma ReachStep(s: Shape, k: Bits, parent: Option<Bits>, n: Bits)
    requires s.Linked() && Reach(s, k, parent, Some(n)) && n in s.cells && n <= k && |n| < |k|
    requires parent.Some? ==> parent.value <= n
    ensures Reach(s, k, Some(n), s.cells[n].Child(k[|n|]))
    ensures var c := s.cells[n].Child(k[|n|]); c.Some? ==> c.value in s.cells && n <= c.value && |n| < |c.value|
  {
    var t := AtChild(n, k[|n|]);
    assert s.PlaceOk(t);
    forall q | q in s.cells && q <= k
      ensures q <= n || Under(t, q)
    {
      StepDown(n, q, k);
    }
  }

  /** A descent towards `k` that has passed `parent` and stands before `node`. */
  ghost predicate Descending(s: Shape, k: Bits, parent: Option<Bits>, node: Option<Bits>) {
    && (parent.Some? ==> parent.value <= k && |parent.value| < |k|)
    && (parent.Some? && node.Some? ==> parent.value <= node.value && |parent.value| < |node.value|)
    && Reach(s, k, parent, node)
  }

  lemma DescentStart(s: Shape, k: Bits)
    requires s.Linked()
    ensures Descending(s, k, None, s.root)
  {
    ReachStart(s, k);
  }

  lemma DescentStep(s: Shape, k: Bits, parent: Option<Bits>, n: Bits)
    requires s.Linked() && Descending(s, k, parent, Some(n)) && n in s.cells && n <= k && |n| < |k|
    ensures Descending(s, k, Some(n), s.cells[n].Child(k[|n|]))
  {
    ReachStep(s, k, parent, n);
  }

  lemma DescentStop(s: Shape, k: Bits, parent: Option<Bits>, node: Option<Bits>)
    requires Descending(s, k, parent, node) && (node.Some? ==> !(node.value <= k))
    ensures Descending(s, k, parent, None) && k !in s.cells
  {
    assert k <= k;
  }

  /** The value of the longest prefix of `ip` in `m`: what the trie is a fast form of. */
  ghost function LongestMatch<P>(m: map<Bits, P>, ip: Bits, n: nat := |ip|): Option<P>
    requires n <= |ip|
  {
    if ip[..n] in m then Some(m[ip[..n]]) else if n == 0 then None else LongestMatch(m, ip, n - 1)
  }

  /** It is the value of the longest key among the prefixes of the address, if there is one. */
  lemma {:induction false} LongestUpTo<P>(m: map<Bits, P>, ip: Bits, n: nat)
    requires n <= |ip|
    ensures LongestMatch(m, ip, n) == None ==> forall k :: k in m && |k| <= n ==> !(k <= ip)
    ensures LongestMatch(m, ip, n).Some? ==>
      exists k :: k in m && k <= ip && |k| <= n && m[k] == LongestMatch(m, ip, n).value
        && forall q :: q in m && q <= ip && |q| <= n ==> |q| <= |k|
  {
    assert forall k :: k <= ip && |k| == n ==> k == ip[..n];
    if ip[..n] !in m && n > 0 {
      LongestUpTo(m, ip, n - 1);
    } else if ip[..n] in m {
      assert ip[..n] <= ip;
    }
  }

  /** `best` is the longest entry that is a prefix of `above`. */
  ghost predicate BestUpTo(entries: set<Bits>, above: Option<Bits>, best: Option<Bits>) {
    && (best.Some? ==> above.Some? && best.value in entries && best.value <= above.value)
    && forall q :: q in entries && above.Some? && q <= above.value ==> best.Some? && q <= best.value
  }

  lemma BestStep(s: Shape, entries: set<Bits>, above: Option<Bits>, best: Option<Bits>, n: Bits)
    requires BestUpTo(entries, above, best) && Reach(s, n, above, Some(n)) && entries <= s.cells.Keys
    requires above.Some? ==> above.value <= n
    ensures BestUpTo(entries, Some(n), if n in entries then Some(n) else best)
  {
    forall q | q in entries && q <= n
      ensures q == n || (above.Some? && q <= above.value)
    {
      assert n <= q ==> q == n;
    }
  }

  lemma ReachShorter(s: Shape, k: Bits, k': Bits, parent: Option<Bits>, node: Option<Bits>)
    requires Reach(s, k, parent, node) && k' <= k
    ensures Reach(s, k', parent, node)
  {
  }

  lemma LongestMatchIs<P>(m: map<Bits, P>, ip: Bits, best: Option<Bits>, n: nat)
    requires n <= |ip|
    requires best.Some? ==> best.value in m && best.value <= ip && |best.value| <= n
    requires forall q :: q in m && q <= ip && |q| <= n ==> best.Some? && q <= best.value
    ensures LongestMatch(m, ip, n) == if best.Some? then Some(m[best.value]) else None
  {
    assert best.Some? ==> best.value == ip[..|best.value|];
    if ip[..n] in m {
      assert ip[..n] <= ip;
      assert best.value == ip[..n];
    } else if n > 0 {
      LongestMatchIs(m, ip, best, n - 1);
    }
  }

  /** A search for `ip` that has passed `above` and `best` and stands before `node`. */
  ghost predicate Seeking(s: Shape, entries: set<Bits>, ip: Bits, above: Option<Bits>, best: Option<Bits>,
                          node: Option<Bits>) {
    && entries <= s.cells.Keys
    && (above.Some? ==> above.value <= ip && (node.Some? ==> above.value <= node.value && |above.value| < |node.value|))
    && Reach(s, ip, above, node) && BestUpTo(entries, above, best)
  }

  lemma SeekStart(s: Shape, entries: set<Bits>, ip: Bits)
    requires s.Linked() && entries <= s.cells.Keys
    ensures Seeking(s, entries, ip, None, None, s.root)
  {
    ReachStart(s, ip);
  }

  lemma SeekStep(s: Shape, entries: set<Bits>, ip: Bits, above: Option<Bits>, best: Option<Bits>, n: Bits)
    requires s.Linked() && Seeking(s, entries, ip, above, best, Some(n)) && n in s.cells && n <= ip
    ensures var better := if n in entries then Some(n) else best;
            Seeking(s, entries, ip, Some(n), better, if n == ip then None else s.cells[n].Child(ip[|n|]))
  {
    ReachShorter(s, ip, n, above, Some(n));
    BestStep(s, entries, above, best, n);
    if n != ip {
      ReachStep(s, ip, above, n);
    }
  }

  lemma SeekDone<P>(s: Shape, m: map<Bits, P>, ip: Bits, above: Option<Bits>, best: Option<Bits>, node: Option<Bits>)
    requires Seeking(s, m.Keys, ip, above, best, node) && (node.Some? ==> !(node.value <= ip))
    ensures LongestMatch(m, ip) == if best.Some? then Some(m[best.value]) else None
  {
    LongestMatchIs(m, ip, best, |ip|);
  }
}
