/** The objects of the session layer and what ties a device's index table to its peers:
    wireguard-go/device/{noise-protocol,indextable,keypair,peer}.go. */
module SessionIndex {
  import opened Noise
  import opened Options

  datatype HandshakeState = Zeroed | InitiationCreated | InitiationConsumed | ResponseCreated | ResponseConsumed

  class Keypair {
    const send: Term
    const receive: Term
    const isInitiator: bool
    const localIndex: nat
    const remoteIndex: nat
    var sendNonce: nat

    constructor (keys: SessionKeys, isInitiator: bool, localIndex: nat, remoteIndex: nat)
      ensures send == keys.send && receive == keys.receive && this.isInitiator == isInitiator
      ensures this.localIndex == localIndex && this.remoteIndex == remoteIndex && sendNonce == 0
    {
      send, receive, this.isInitiator := keys.send, keys.receive, isInitiator;
      this.localIndex, this.remoteIndex, sendNonce := localIndex, remoteIndex, 0;
    }
  }

  /** A peer, with its handshake and its keypairs. */
  class Peer {
    const remoteStatic: PublicKey
    const presharedKey: Term
    const precomputedStaticStatic: Option<Term>
    var isRunning: bool
    var state: HandshakeState
    var transcript: Transcript
    var localEphemeral: Option<nat>
    var localIndex: nat
    var remoteIndex: nat
    var remoteEphemeral: PublicKey
    var lastTimestamp: nat
    var lastInitiationConsumption: int
    var current: Keypair?
    var previous: Keypair?
    var next: Keypair?

    /** A peer as it starts out; `timestamp` and `consumption` are the zero values of the two times. */
    constructor (remoteStatic: PublicKey, presharedKey: Term, precomputedStaticStatic: Option<Term>, timestamp: nat,
                 consumption: int)
      ensures this.remoteStatic == remoteStatic && this.presharedKey == presharedKey
        && this.precomputedStaticStatic == precomputedStaticStatic
      ensures View() == PeerView(Zeroed, 0, null, null, null) && !isRunning
      ensures lastTimestamp == timestamp && lastInitiationConsumption == consumption
    {
      this.remoteStatic, this.presharedKey := remoteStatic, presharedKey;
      this.precomputedStaticStatic := precomputedStaticStatic;
      isRunning, state, transcript := false, Zeroed, Transcript(Nothing, Nothing);
      localEphemeral, localIndex, remoteIndex, remoteEphemeral := None, 0, 0, LowOrder;
      lastTimestamp, lastInitiationConsumption := timestamp, consumption;
      current, previous, next := null, null, null;
    }

    ghost function View(): PeerView
      reads this`state, this`localIndex, this`previous, this`current, this`next
    {
      PeerView(state, localIndex, previous, current, next)
    }
  }

  datatype Entry = Entry(peer: Peer, keypair: Keypair?)

  ghost function IndexSet(k: Keypair?): (s: set<nat>)
    ensures |s| <= 1
  {
    if k == null then {} else {k.localIndex}
  }

  /** What the index table has to do with a peer. */
  datatype PeerView = PeerView(state: HandshakeState, localIndex: nat, previous: Keypair?, current: Keypair?,
    next: Keypair?) {
    /** The distinct keypairs in the three slots. */
    ghost function Slots(): (s: set<Keypair>) {
      (if previous == null then {} else {previous}) + (if current == null then {} else {current}) + (if next == null
        then {} else {next})
    }

    ghost function Indices(): set<nat> {
      (if localIndex == 0 then {} else {localIndex}) + IndexSet(previous) + IndexSet(current) + IndexSet(next)
    }

    /** No keypair sits in two slots; a handshake under way has an index; the next keypair is a responder's; and the
        current one, when it is a responder's, has received a packet. */
    ghost predicate Good(confirmed: set<Keypair>) {
      && (previous != null ==> previous != current && previous != next)
      && (current != null ==> current != next)
      && (state in {InitiationCreated, ResponseCreated, ResponseConsumed} ==> localIndex != 0)
      && (next != null ==> !next.isInitiator)
      && (current != null && !current.isInitiator ==> current in confirmed)
    }
  }

  /** Every index a peer holds is in the table, under that peer and for that use. */
  ghost predicate Indexed(table: map<nat, Entry>, q: Peer, v: PeerView) {
    && (v.localIndex != 0 ==> v.localIndex in table && table[v.localIndex] == Entry(q, null))
    && forall k :: k in v.Slots() ==> k.localIndex in table && table[k.localIndex] == Entry(q, k)
  }

  ghost predicate Mentions(v: PeerView, i: nat, k: Keypair?) {
    if k == null then v.localIndex == i else k in v.Slots() && k.localIndex == i
  }

  /** Every entry of the table is the index of something a peer holds. */
  ghost predicate Justified(table: map<nat, Entry>, views: map<Peer, PeerView>) {
    forall i {:trigger table[i]} ::
      i in table ==> i != 0 && table[i].peer in views && Mentions(views[table[i].peer], i, table[i].keypair)
  }

  ghost predicate Consistent(table: map<nat, Entry>, views: map<Peer, PeerView>, confirmed: set<Keypair>) {
    && Justified(table, views)
    && (forall q {:trigger views[q]} :: q in views ==> Indexed(table, q, views[q]) && views[q].Good(confirmed))
  }

  lemma EntryOfPeer(table: map<nat, Entry>, v: PeerView, q: Peer, i: nat)
    requires Indexed(table, q, v)
    requires i in table && table[i].peer == q ==> i != 0 && Mentions(v, i, table[i].keypair)
    ensures i in table && table[i].peer == q <==> i in v.Indices()
  {
    hide Indexed;
    SlotEntry(table, v, q, i, v.previous);
    SlotEntry(table, v, q, i, v.current);
    SlotEntry(table, v, q, i, v.next);
    assert v.localIndex != 0 ==> v.localIndex in table && table[v.localIndex] == Entry(q, null) by {
      HandshakeIndexed(table, v, q);
    }
    if i in table && table[i].peer == q && table[i].keypair != null {
      SlotIs(v, table[i].keypair);
    }
  }

  lemma HandshakeIndexed(table: map<nat, Entry>, v: PeerView, q: Peer)
    requires Indexed(table, q, v)
    ensures v.localIndex != 0 ==> v.localIndex in table && table[v.localIndex] == Entry(q, null)
  {
  }

  lemma SlotIs(v: PeerView, k: Keypair)
    requires k in v.Slots()
    ensures k == v.previous || k == v.current || k == v.next
  {
  }

  lemma SlotEntry(table: map<nat, Entry>, v: PeerView, q: Peer, i: nat, k: Keypair?)
    requires Indexed(table, q, v) && (k == null || k in v.Slots())
    ensures i in IndexSet(k) ==> i in table && table[i] == Entry(q, k)
    ensures k != null ==> k.localIndex in IndexSet(k)
  {
  }

  /**
   * The entries of a peer are exactly the indices it holds: its handshake's and one for each of at most three keypairs.
   */
  lemma EntriesOfPeer(table: map<nat, Entry>, views: map<Peer, PeerView>, confirmed: set<Keypair>, q: Peer)
    requires Consistent(table, views, confirmed) && q in views
    ensures (set i | i in table && table[i].peer == q) == views[q].Indices()
    ensures |views[q].Indices()| <= 4
  {
    hide Indexed, Mentions, IndexSet;
    var v := views[q];
    assert Indexed(table, q, v);
    forall i: nat
      ensures i in table && table[i].peer == q <==> i in v.Indices()
    {
      EntryOfPeer(table, v, q, i);
    }
    UnionSizes(if v.localIndex == 0 then {}
      else {v.localIndex}, IndexSet(v.previous), IndexSet(v.current), IndexSet(v.next));
  }

  lemma UnionSizes(a: set<nat>, b: set<nat>, c: set<nat>, d: set<nat>)
    ensures |a + b + c + d| <= |a| + |b| + |c| + |d|
  {
  }

  /** The table is determined by what the peers hold. */
  lemma TableDetermined(table: map<nat, Entry>, table': map<nat, Entry>, views: map<Peer, PeerView>,
                        confirmed: set<Keypair>)
    requires Consistent(table, views, confirmed) && Consistent(table', views, confirmed)
    ensures table == table'
  {
    forall i | i in table
      ensures i in table' && table'[i] == table[i]
    {
      assert Indexed(table', table[i].peer, views[table[i].peer]);
    }
    forall i | i in table'
      ensures i in table
    {
      assert Indexed(table, table'[i].peer, views[table'[i].peer]);
    }
  }

  /** A step of one peer that leaves the entries of the others alone. */
  lemma PeerSteps(table: map<nat, Entry>, views: map<Peer, PeerView>, confirmed: set<Keypair>, q: Peer,
                  table': map<nat, Entry>, v: PeerView, confirmed': set<Keypair>)
    requires Consistent(table, views, confirmed) && q in views && confirmed <= confirmed'
    requires forall i :: i in table && table[i].peer != q ==> i in table' && table'[i] == table[i]
    requires forall i :: i in table' && table'[i].peer != q ==> i in table && table'[i] == table[i]
    requires forall i :: i in table' && table'[i].peer == q ==> i != 0 && Mentions(v, i, table'[i].keypair)
    requires Indexed(table', q, v) && v.Good(confirmed')
    ensures Consistent(table', views[q := v], confirmed')
  {
    hide Indexed, PeerView.Good, Mentions;
    forall r | r in views && r != q
      ensures Indexed(table', r, views[r]) && views[r].Good(confirmed')
    {
      assert Indexed(table, r, views[r]) && views[r].Good(confirmed);
      StillIndexed(table, table', r, views[r]);
      StillGood(views[r], confirmed, confirmed');
    }
  }

  lemma StillIndexed(table: map<nat, Entry>, table': map<nat, Entry>, r: Peer, v: PeerView)
    requires Indexed(table, r, v)
    requires forall i :: i in table && table[i].peer == r ==> i in table' && table'[i] == table[i]
    ensures Indexed(table', r, v)
  {
    hide PeerView.Slots;
  }

  lemma StillGood(v: PeerView, confirmed: set<Keypair>, confirmed': set<Keypair>)
    requires v.Good(confirmed) && confirmed <= confirmed'
    ensures v.Good(confirmed')
  {
  }

  ghost function ViewsOf(peers: set<Peer>): map<Peer, PeerView>
    reads peers`state, peers`localIndex, peers`previous, peers`current, peers`next
  {
    map p | p in peers :: p.View()
  }

  /** A peer that is consistent owns the entry of its handshake index, and no other entry without a keypair. */
  lemma HandshakeEntry(table: map<nat, Entry>, views: map<Peer, PeerView>, confirmed: set<Keypair>, q: Peer)
    requires Consistent(table, views, confirmed) && q in views
    ensures var l := views[q].localIndex;
            && (l in table <==> l != 0) && (l in table ==> table[l] == Entry(q, null))
            && forall i :: i in table && table[i] == Entry(q, null) ==> i == l
    ensures Indexed(table, q, views[q]) && views[q].Good(confirmed)
    ensures forall k ::
      k in views[q].Slots() ==> k.localIndex in table && k.localIndex != 0 && k.localIndex != views[q].localIndex
    ensures forall i :: i in table && table[i].peer == q ==> i != 0 && Mentions(views[q], i, table[i].keypair)
  {
    assert Indexed(table, q, views[q]);
  }

  /** A handshake takes a new index: fine if and only if that is not the sentinel. */
  lemma Reindexed(table: map<nat, Entry>, views: map<Peer, PeerView>, confirmed: set<Keypair>, q: Peer, i: nat,
                  v: PeerView)
    requires Consistent(table, views, confirmed) && q in views && i !in table - {views[q].localIndex}
    requires v == views[q].(localIndex := i, state := v.state)
    ensures Consistent((table - {views[q].localIndex})[i := Entry(q, null)], views[q := v], confirmed) <==> i != 0
  {
    if i != 0 {
      NewlyIndexed(table, views, confirmed, q, i, v);
    } else {
      hide Indexed, PeerView.Good;
      assert (table - {views[q].localIndex})[i := Entry(q, null)][0] == Entry(q, null);
    }
  }

  lemma NewlyIndexed(table: map<nat, Entry>, views: map<Peer, PeerView>, confirmed: set<Keypair>, q: Peer, i: nat,
                     v: PeerView)
    requires Consistent(table, views, confirmed) && q in views && i != 0 && i !in table - {views[q].localIndex}
    requires v == views[q].(localIndex := i, state := v.state)
    ensures Consistent((table - {views[q].localIndex})[i := Entry(q, null)], views[q := v], confirmed)
  {
    hide Consistent, Indexed;
    HandshakeEntry(table, views, confirmed, q);
    assert v.Slots() == views[q].Slots() && v.Good(confirmed);
    hide PeerView.Slots, PeerView.Good;
    SlotEntries(table, views, confirmed, q);
    var table' := (table - {views[q].localIndex})[i := Entry(q, null)];
    assert Indexed(table', q, v) by {
      IsIndexed(table', q, v);
    }
    PeerSteps(table, views, confirmed, q, table', v, confirmed);
  }

  lemma IsIndexed(table: map<nat, Entry>, q: Peer, v: PeerView)
    requires v.localIndex != 0 ==> v.localIndex in table && table[v.localIndex] == Entry(q, null)
    requires forall k :: k in v.Slots() ==> k.localIndex in table && table[k.localIndex] == Entry(q, k)
    ensures Indexed(table, q, v)
  {
  }

  /** A handshake loses its index, and is left with `i`: fine if and only if that is the sentinel. */
  lemma Unindexed(table: map<nat, Entry>, views: map<Peer, PeerView>, confirmed: set<Keypair>, q: Peer, i: nat,
                  v: PeerView)
    requires Consistent(table, views, confirmed) && q in views && v == views[q].(localIndex := i)
    requires v.state == InitiationConsumed || i == views[q].localIndex
    ensures Consistent(table - {views[q].localIndex}, views[q := v], confirmed) <==> i == 0
  {
    hide Consistent;
    var table' := table - {views[q].localIndex};
    HandshakeEntry(table, views, confirmed, q);
    if i == 0 {
      assert v.Slots() == views[q].Slots() && v.Good(confirmed);
      PeerSteps(table, views, confirmed, q, table', v, confirmed);
    } else if Consistent(table', views[q := v], confirmed) {
      HandshakeEntry(table', views[q := v], confirmed, q);
    }
  }

  ghost function Drop(table: map<nat, Entry>, k: Keypair?): map<nat, Entry> {
    if k == null then table else table - {k.localIndex}
  }

  /** The initiator's rotation: an unconfirmed next keypair becomes the previous one in place of the current one. */
  ghost function RotatedByInitiator(v: PeerView, kp: Keypair): PeerView {
    PeerView(Zeroed, 0, if v.next != null then v.next else v.current, kp, null)
  }

  /** The responder's rotation: the new keypair waits to be confirmed. */
  ghost function RotatedByResponder(v: PeerView, kp: Keypair): PeerView {
    PeerView(Zeroed, 0, null, v.current, kp)
  }

  /** A keypair that has received a packet takes over. */
  ghost function Confirmed(v: PeerView): PeerView {
    PeerView(v.state, v.localIndex, v.current, v.next, null)
  }

  /** What the table has for a peer, slot by slot. */
  lemma SlotEntries(table: map<nat, Entry>, views: map<Peer, PeerView>, confirmed: set<Keypair>, q: Peer)
    requires Consistent(table, views, confirmed) && q in views
    ensures forall k :: k in views[q].Slots() ==> k.localIndex in table && table[k.localIndex] == Entry(q, k)
    ensures forall i :: i in table && table[i].peer == q ==>
      i != 0 && if table[i].keypair == null then i == views[q].localIndex
                else table[i].keypair in views[q].Slots() && table[i].keypair.localIndex == i
  {
    assert Indexed(table, q, views[q]);
  }

  /** The handshake's index passes to a new keypair, and the keypairs `gone` leave the slots and the table. */
  lemma SlotsRotate(table: map<nat, Entry>, views: map<Peer, PeerView>, confirmed: set<Keypair>, q: Peer, kp: Keypair,
                    gone: set<Keypair>, table': map<nat, Entry>, v': PeerView)
    requires Consistent(table, views, confirmed) && q in views && kp !in views[q].Slots() && gone <= views[q].Slots()
    requires kp.localIndex == views[q].localIndex != 0
    requires table' == table[kp.localIndex := Entry(q, kp)] - (set k | k in gone :: k.localIndex)
    requires v'.localIndex == 0 && v'.Slots() == views[q].Slots() - gone + {kp} && v'.Good(confirmed)
    ensures Consistent(table', views[q := v'], confirmed)
  {
    hide Consistent, PeerView.Slots, PeerView.Good;
    HandshakeEntry(table, views, confirmed, q);
    SlotEntries(table, views, confirmed, q);
    PeerSteps(table, views, confirmed, q, table', v', confirmed);
  }

  lemma GoodOf(table: map<nat, Entry>, views: map<Peer, PeerView>, confirmed: set<Keypair>, q: Peer)
    requires Consistent(table, views, confirmed) && q in views
    ensures views[q].Good(confirmed)
  {
    hide PeerView.Good, Justified, Indexed;
  }

  lemma InitiatorRotates(table: map<nat, Entry>, views: map<Peer, PeerView>, confirmed: set<Keypair>, q: Peer,
                         kp: Keypair)
    requires Consistent(table, views, confirmed) && q in views && views[q].state == ResponseConsumed
    requires kp.isInitiator && kp.localIndex == views[q].localIndex && kp !in views[q].Slots()
    ensures var v := views[q];
            var swapped := table[v.localIndex := Entry(q, kp)];
            Consistent(Drop(Drop(swapped, if v.next != null then v.current else null), v.previous),
              views[q := RotatedByInitiator(v, kp)], confirmed)
  {
    hide Consistent;
    var v := views[q];
    var dropped := if v.next != null then v.current else null;
    GoodOf(table, views, confirmed, q);
    SlotsRotate(table, views, confirmed, q, kp, IfAny(dropped) + IfAny(v.previous),
      Drop(Drop(table[v.localIndex := Entry(q, kp)], dropped), v.previous), RotatedByInitiator(v, kp));
  }

  ghost function IfAny(k: Keypair?): set<Keypair> {
    if k == null then {} else {k}
  }

  lemma ResponderRotates(table: map<nat, Entry>, views: map<Peer, PeerView>, confirmed: set<Keypair>, q: Peer,
                         kp: Keypair)
    requires Consistent(table, views, confirmed) && q in views && views[q].state == ResponseCreated
    requires !kp.isInitiator && kp.localIndex == views[q].localIndex && kp !in views[q].Slots()
    ensures var v := views[q];
            var swapped := table[v.localIndex := Entry(q, kp)];
            Consistent(Drop(Drop(swapped, v.next), v.previous), views[q := RotatedByResponder(v, kp)], confirmed)
  {
    hide Consistent;
    var v := views[q];
    GoodOf(table, views, confirmed, q);
    SlotsRotate(table, views, confirmed, q, kp, IfAny(v.next) + IfAny(v.previous),
      Drop(Drop(table[v.localIndex := Entry(q, kp)], v.next), v.previous), RotatedByResponder(v, kp));
  }

  lemma ConfirmationRotates(table: map<nat, Entry>, views: map<Peer, PeerView>, confirmed: set<Keypair>, q: Peer,
                            kp: Keypair)
    requires Consistent(table, views, confirmed) && q in views && views[q].next == kp
    ensures Consistent(Drop(table, views[q].previous), views[q := Confirmed(views[q])], confirmed + {kp})
  {
    hide Consistent;
    var v, v' := views[q], Confirmed(views[q]);
    HandshakeEntry(table, views, confirmed, q);
    assert forall k :: k in v'.Slots() ==> k in v.Slots();
    PeerSteps(table, views, confirmed, q, Drop(table, v.previous), v', confirmed + {kp});
  }

  lemma HandshakeCleared(table: map<nat, Entry>, views: map<Peer, PeerView>, confirmed: set<Keypair>, q: Peer)
    requires Consistent(table, views, confirmed) && q in views
    ensures Consistent(table - {views[q].localIndex}, views[q := views[q].(state := Zeroed, localIndex := 0)],
      confirmed)
  {
    hide Consistent;
    var v := views[q].(state := Zeroed, localIndex := 0);
    HandshakeEntry(table, views, confirmed, q);
    assert v.Slots() == views[q].Slots();
    PeerSteps(table, views, confirmed, q, table - {views[q].localIndex}, v, confirmed);
  }

  lemma KeypairsCleared(table: map<nat, Entry>, views: map<Peer, PeerView>, confirmed: set<Keypair>, q: Peer)
    requires Consistent(table, views, confirmed) && q in views
    ensures var v := views[q];
            Consistent(Drop(Drop(Drop(table, v.previous), v.current), v.next),
              views[q := v.(previous := null, current := null, next := null)], confirmed)
  {
    hide Consistent;
    var v, v' := views[q], views[q].(previous := null, current := null, next := null);
    HandshakeEntry(table, views, confirmed, q);
    assert v'.Slots() == {};
    PeerSteps(table, views, confirmed, q, Drop(Drop(Drop(table, v.previous), v.current), v.next), v', confirmed);
  }

  /** A handshake moves on under the index it has. */
  /** A handshake changes its state: fine if and only if it has the index that state needs. */
  lemma StateMoved(table: map<nat, Entry>, views: map<Peer, PeerView>, confirmed: set<Keypair>, q: Peer, v: PeerView)
    requires Consistent(table, views, confirmed) && q in views && v == views[q].(state := v.state)
    ensures Consistent(table, views[q := v], confirmed) <==>
      v.state in {InitiationCreated, ResponseCreated, ResponseConsumed} ==> v.localIndex != 0
  {
    hide Consistent;
    HandshakeEntry(table, views, confirmed, q);
    assert v.Slots() == views[q].Slots();
    if v.state in {InitiationCreated, ResponseCreated, ResponseConsumed} ==> v.localIndex != 0 {
      PeerSteps(table, views, confirmed, q, table, v, confirmed);
    } else if Consistent(table, views[q := v], confirmed) {
      HandshakeEntry(table, views[q := v], confirmed, q);
    }
  }

  lemma PeerJoins(table: map<nat, Entry>, views: map<Peer, PeerView>, confirmed: set<Keypair>, q: Peer, v: PeerView)
    requires Consistent(table, views, confirmed) && q !in views && v == PeerView(Zeroed, 0, null, null, null)
    ensures Consistent(table, views[q := v], confirmed)
  {
  }
}
