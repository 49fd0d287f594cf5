/**
 * The steps of the session layer, one lock region each: wireguard-go/device/noise-protocol.go, indextable.go,
 * keypair.go and peer.go.
 */
module Session {
  import opened Limits
  import opened Noise
  import opened Options
  import opened SessionIndex

  /** What `randUint32` hands back: an index, also when the source of randomness failed. */
  datatype Draw = Drawn(index: nat) | Failed(index: nat)

  datatype MessageInitiation = MessageInitiation(sender: nat, body: InitiationBody)

  datatype MessageResponse = MessageResponse(sender: nat, receiver: nat, ephemeral: PublicKey, empty: Term)

  datatype InitiationResult = InitiationSent(msg: MessageInitiation) | NoEphemeral | BadKey | NoIndex

  datatype ResponseResult =
    | ResponseSent(msg: MessageResponse)
    | NotConsumed
    | NoResponseIndex
    | NoResponseEphemeral
    | BadRemoteKey

  const HANDSHAKE_INITIATION_RATE := 20_000_000

  predicate Usable(d: Draw, used: set<nat>) {
    d.Failed? || d.index !in used
  }

  /** Some draw gives an index not in use, or fails. */
  ghost predicate Decides(draws: seq<Draw>, used: set<nat>) {
    draws != [] && (Usable(draws[0], used) || Decides(draws[1..], used))
  }

  /** The draw that settles which index is taken, if any. */
  ghost function FirstUsable(draws: seq<Draw>, used: set<nat>): (d: Draw)
    requires Decides(draws, used)
    ensures Usable(d, used)
  {
    if Usable(draws[0], used) then draws[0] else FirstUsable(draws[1..], used)
  }

  class Device {
    const secret: nat
    var table: map<nat, Entry>
    var peersByKey: map<PublicKey, Peer>
    ghost var peers: set<Peer>
    ghost var confirmed: set<Keypair>

    ghost function Views(): map<Peer, PeerView>
      reads this`peers, peers`state, peers`localIndex, peers`previous, peers`current, peers`next
    {
      ViewsOf(peers)
    }

    ghost predicate Registered()
      reads this`peersByKey, this`peers
    {
      peersByKey.Values <= peers
    }

    ghost predicate Valid()
      reads this`table, this`peersByKey, this`peers, this`confirmed
      reads peers`state, peers`localIndex, peers`previous, peers`current, peers`next
    {
      Registered() && Consistent(table, Views(), confirmed)
    }

    constructor (secret: nat)
      ensures this.secret == secret && Valid() && peers == {} && table == map[] && peersByKey == map[]
    {
      this.secret := secret;
      table, peersByKey := map[], map[];
      peers, confirmed := {}, {};
    }

    /** A peer that has done nothing yet joins. */
    method AddPeer(peer: Peer)
      requires Valid() && peer !in peers && peer.View() == PeerView(Zeroed, 0, null, null, null)
      modifies this`peersByKey, this`peers
      ensures Valid() && peers == old(peers) + {peer} && peersByKey == old(peersByKey)[peer.remoteStatic := peer]
    {
      ghost var views := Views();
      peersByKey := peersByKey[peer.remoteStatic := peer];
      peers := peers + {peer};
      PeerJoins(table, views, confirmed, peer, peer.View());
      assert Views() == views[peer := peer.View()];
    }

    /** Lines 38-42 of indextable.go. */
    method Delete(index: nat)
      modifies this`table
      ensures table == old(table) - {index}
    {
      table := table - {index};
    }

    /** Lines 44-56 of indextable.go. */
    method SwapIndexForKeypair(index: nat, keypair: Keypair)
      modifies this`table
      ensures table == if index in old(table) then old(table)[index := Entry(old(table)[index].peer, keypair)]
        else old(table)
    {
      if index !in table {
        return;
      }
      table := table[index := Entry(table[index].peer, keypair)];
    }

    /** Lines 58-92 of indextable.go: indices are drawn until one is not in use. */
    method NewIndexForHandshake(peer: Peer, draws: seq<Draw>) returns (index: nat, err: bool)
      requires Decides(draws, table.Keys)
      modifies this`table
      ensures (if err then Failed(index) else Drawn(index)) == FirstUsable(draws, old(table.Keys))
      ensures table == if err then old(table) else old(table)[index := Entry(peer, null)]
    {
      var j := 0;
      while true
        invariant 0 <= j < |draws| && table == old(table) && Decides(draws[j..], table.Keys)
        invariant FirstUsable(draws[j..], table.Keys) == FirstUsable(draws, table.Keys)
        decreases |draws| - j
      {
        assert draws[j..][1..] == draws[j + 1..];
        index := draws[j].index;
        if draws[j].Failed? {
          return index, true;
        }
        if index !in table {
          table := table[index := Entry(peer, null)];
          return index, false;
        }
        j := j + 1;
      }
    }

    /** Lines 48-52 of keypair.go. */
    method DeleteKeypair(key: Keypair?)
      modifies this`table
      ensures table == Drop(old(table), key)
    {
      if key != null {
        Delete(key.localIndex);
      }
    }

    /** The peers after a step of one of them. */
    lemma OneMoved(views: map<Peer, PeerView>, q: Peer)
      requires q in peers && views.Keys == peers && forall p :: p in peers && p != q ==> p.View() == views[p]
      ensures Views() == views[q := q.View()]
    {
      assert Views().Keys == views[q := q.View()].Keys;
    }

    lemma NowValid(views: map<Peer, PeerView>, q: Peer)
      requires Registered() && q in peers && views.Keys == peers
        && forall p :: p in peers && p != q ==> p.View() == views[p]
      requires Consistent(table, views[q := q.View()], confirmed)
      ensures Valid()
    {
      hide Consistent;
      OneMoved(views, q);
    }

    /** Lines 287-325: the transcript of an initiation, short of its last step, and what is to be sent. */
    method ComposeInitiation(peer: Peer, ephemeral: Option<nat>, now: nat)
      returns (r: InitiationResult, body: InitiationBody)
      modifies peer`transcript, peer`localEphemeral
      ensures r in {NoEphemeral, BadKey, NoIndex} && peer.localEphemeral == ephemeral
      ensures r == NoEphemeral <==> ephemeral == None
      ensures r == NoIndex <==>
        ephemeral.Some? && SharedSecret(ephemeral.value, peer.remoteStatic).Some? && peer.precomputedStaticStatic.Some?
      ensures r == NoIndex ==>
        var es, ss := SharedSecret(ephemeral.value, peer.remoteStatic).value, peer.precomputedStaticStatic.value;
        (body, peer.transcript.MixHash(body.timestamp)) == Initiate(Point(secret), peer.remoteStatic, ephemeral.value,
          es, ss, now)
    {
      body := InitiationBody(LowOrder, Nothing, Nothing);
      peer.transcript := Transcript(InitialHash, InitialChainKey);
      peer.localEphemeral := ephemeral;
      if ephemeral == None {
        return NoEphemeral, body;
      }
      peer.transcript := peer.transcript.MixHash(Key(peer.remoteStatic));
      var public := Point(ephemeral.value);
      peer.transcript := peer.transcript.MixKey(Key(public));
      peer.transcript := peer.transcript.MixHash(Key(public));
      var es := SharedSecret(ephemeral.value, peer.remoteStatic);
      if es == None {
        return BadKey, body;
      }
      var sealedStatic := Seal(peer.transcript.CipherKey(es.value), peer.transcript.hash, Key(Point(secret)));
      peer.transcript := peer.transcript.MixKey(es.value);
      peer.transcript := peer.transcript.MixHash(sealedStatic);
      if peer.precomputedStaticStatic == None {
        return BadKey, body;
      }
      var ss := peer.precomputedStaticStatic.value;
      var sealedTime := Seal(peer.transcript.CipherKey(ss), peer.transcript.hash, Time(now));
      peer.transcript := peer.transcript.MixKey(ss);
      return NoIndex, InitiationBody(public, sealedStatic, sealedTime);
    }

    /** The draw a handshake gets once it has given up the index it had. */
    ghost function DrawFor(peer: Peer, draws: seq<Draw>): Draw
      requires Decides(draws, table.Keys - {peer.localIndex})
      reads this`table, peer`localIndex
    {
      FirstUsable(draws, table.Keys - {peer.localIndex})
    }

    /** Lines 325-335: the initiation gets its index, and the transcript its last step. */
    method StartUnder(peer: Peer, timestamp: Term, draws: seq<Draw>) returns (err: bool)
      requires Valid() && peer in peers && Decides(draws, table.Keys - {peer.localIndex})
      modifies this`table, peer`transcript, peer`localIndex, peer`state
      ensures err <==> old(DrawFor(peer, draws)).Failed?
      ensures err ==> peer.View() == old(peer.View()) && peer.transcript == old(peer.transcript)
      ensures !err ==>
        && peer.localIndex == old(DrawFor(peer, draws)).index && peer.state == InitiationCreated
        && peer.transcript == old(peer.transcript).MixHash(timestamp)
        && peer.localIndex in table && table[peer.localIndex] == Entry(peer, null)
      ensures Valid() <==> if err then peer.localIndex == 0 else peer.localIndex != 0
    {
      hide Consistent;
      ghost var was, views := table, Views();
      Delete(peer.localIndex);
      var index;
      index, err := NewIndexForHandshake(peer, draws);
      if err {
        Unindexed(was, views, confirmed, peer, peer.localIndex, peer.View());
      } else {
        peer.localIndex := index;
        peer.transcript := peer.transcript.MixHash(timestamp);
        peer.state := InitiationCreated;
        Reindexed(was, views, confirmed, peer, index, peer.View());
      }
      OneMoved(views, peer);
    }

    /**
     * Lines 270-338: a new initiation, under a new index. The table stays consistent unless the sentinel was drawn, or
     * no index at all while the handshake had one.
     */
    method CreateMessageInitiation(peer: Peer, ephemeral: Option<nat>, now: nat, draws: seq<Draw>)
      returns (r: InitiationResult)
      requires Valid() && peer in peers && Decides(draws, table.Keys - {peer.localIndex})
      modifies this`table, peer`transcript, peer`localEphemeral, peer`localIndex, peer`state
      ensures r == NoEphemeral <==> ephemeral == None
      ensures r == BadKey <==>
        ephemeral.Some?
          && !(SharedSecret(ephemeral.value, peer.remoteStatic).Some? && peer.precomputedStaticStatic.Some?)
      ensures r.InitiationSent? ==> old(DrawFor(peer, draws)) == Drawn(peer.localIndex)
      ensures r.NoIndex? ==> old(DrawFor(peer, draws)).Failed?
      ensures r.InitiationSent? ==>
        && ephemeral.Some? && SharedSecret(ephemeral.value, peer.remoteStatic).Some?
          && peer.precomputedStaticStatic.Some?
        && var es, ss := SharedSecret(ephemeral.value, peer.remoteStatic).value, peer.precomputedStaticStatic.value;
           (r.msg.body, peer.transcript) == Initiate(Point(secret), peer.remoteStatic, ephemeral.value, es, ss, now)
           && r.msg.sender == peer.localIndex && peer.state == InitiationCreated && peer.localEphemeral == ephemeral
           && peer.localIndex in table && table[peer.localIndex] == Entry(peer, null)
      ensures !r.InitiationSent? ==> peer.View() == old(peer.View())
      ensures Valid() <==>
        (r.InitiationSent? || r.NoIndex? ==>
          if old(DrawFor(peer, draws)).Drawn? then old(DrawFor(peer, draws)).index != 0 else old(peer.localIndex) == 0)
    {
      hide Consistent, Initiate, SharedSecret;
      ghost var views := Views();
      var body;
      r, body := ComposeInitiation(peer, ephemeral, now);
      assert Views() == views;
      if r != NoIndex {
        return;
      }
      var err := StartUnder(peer, body.timestamp, draws);
      if !err {
        r := InitiationSent(MessageInitiation(peer.localIndex, body));
      }
    }

    /** The initiation opens as one that `peer` made at time `at`, and leaves the transcript `t`. */
    ghost predicate MadeBy(msg: MessageInitiation, peer: Peer, at: nat, t: Transcript)
      reads this`peersByKey, peer`isRunning
    {
      && SharedSecret(secret, msg.body.ephemeral).Some? && peer.precomputedStaticStatic.Some? && peer.isRunning
      && var who := Identify(Point(secret), msg.body, SharedSecret(secret, msg.body.ephemeral).value);
         who.Some? && who.value.0 in peersByKey && peersByKey[who.value.0] == peer
         && Accept(who.value.1, msg.body, peer.precomputedStaticStatic.value) == Some((at, t))
    }

    /** Lines 353-403: who sent an initiation, and the transcript it leaves; nothing changes yet. */
    method OpenInitiation(msg: MessageInitiation) returns (r: Option<(Peer, nat, Transcript)>)
      ensures r.Some? ==> MadeBy(msg, r.value.0, r.value.1, r.value.2) && r.value.0 in peersByKey.Values
      ensures r == None ==> forall p, at, t :: p in peersByKey.Values ==> !MadeBy(msg, p, at, t)
    {
      var es := SharedSecret(secret, msg.body.ephemeral);
      if es == None {
        return None;
      }
      var who := Identify(Point(secret), msg.body, es.value);
      if who == None || who.value.0 !in peersByKey {
        return None;
      }
      var peer := peersByKey[who.value.0];
      if !peer.isRunning || peer.precomputedStaticStatic == None {
        return None;
      }
      var accepted := Accept(who.value.1, msg.body, peer.precomputedStaticStatic.value);
      if accepted == None {
        return None;
      }
      return Some((peer, accepted.value.0, accepted.value.1));
    }

    /** Lines 423-434. */
    method RecordInitiation(peer: Peer, msg: MessageInitiation, timestamp: nat, t: Transcript, now: int)
      requires Valid() && peer in peers
      modifies peer`transcript, peer`remoteIndex, peer`remoteEphemeral, peer`lastTimestamp,
        peer`lastInitiationConsumption, peer`state
      ensures Valid() && peer.transcript == t && peer.remoteIndex == msg.sender
        && peer.remoteEphemeral == msg.body.ephemeral
      ensures peer.lastTimestamp == (if timestamp > old(peer.lastTimestamp) then timestamp else old(peer.lastTimestamp))
      ensures peer.lastInitiationConsumption == if now > old(peer.lastInitiationConsumption) then now
        else old(peer.lastInitiationConsumption)
      ensures peer.state == InitiationConsumed
    {
      hide Consistent;
      ghost var views := Views();
      peer.transcript := t;
      peer.remoteIndex := msg.sender;
      peer.remoteEphemeral := msg.body.ephemeral;
      if timestamp > peer.lastTimestamp {
        peer.lastTimestamp := timestamp;
      }
      if now > peer.lastInitiationConsumption {
        peer.lastInitiationConsumption := now;
      }
      peer.state := InitiationConsumed;
      OneMoved(views, peer);
      StateMoved(table, views, confirmed, peer, peer.View());
    }

    /** The initiation is neither a replay nor part of a flood. */
    predicate Timely(peer: Peer, at: nat, now: int)
      reads peer`lastTimestamp, peer`lastInitiationConsumption
    {
      at > peer.lastTimestamp && now - peer.lastInitiationConsumption > HANDSHAKE_INITIATION_RATE
    }

    /**
     * Lines 340-442. No index changes hands, and a timestamp is taken only once: the peer's last one strictly grows.
     */
    method ConsumeMessageInitiation(msg: MessageInitiation, now: int) returns (peer: Peer?)
      requires Valid()
      modifies peers`transcript, peers`remoteIndex, peers`remoteEphemeral, peers`lastTimestamp,
        peers`lastInitiationConsumption, peers`state
      ensures Valid() && (peer != null ==> peer in peers)
      ensures peer == null ==>
        forall p, at: nat, t :: p in peersByKey.Values && MadeBy(msg, p, at, t) ==>
          at <= old(p.lastTimestamp) || now - old(p.lastInitiationConsumption) <= HANDSHAKE_INITIATION_RATE
      ensures peer == null ==> forall q :: q in peers ==> unchanged(q)
      ensures peer != null ==>
        && MadeBy(msg, peer, peer.lastTimestamp, peer.transcript)
          && now - old(peer.lastInitiationConsumption) > HANDSHAKE_INITIATION_RATE
        && peer.lastTimestamp > old(peer.lastTimestamp) && peer.lastInitiationConsumption == now
        && peer.state == InitiationConsumed && peer.remoteIndex == msg.sender
          && peer.remoteEphemeral == msg.body.ephemeral
      ensures forall q :: q in peers && q != peer ==> unchanged(q)
    {
      hide MadeBy, Consistent;
      var accepted := OpenInitiation(msg);
      if accepted == None {
        return null;
      }
      peer := accepted.value.0;
      var timestamp := accepted.value.1;
      if !Timely(peer, timestamp, now) {
        OneMaker(msg, peer, timestamp, accepted.value.2);
        return null;
      }
      RecordInitiation(peer, msg, timestamp, accepted.value.2, now);
    }

    /** An initiation has one maker. */
    lemma OneMaker(msg: MessageInitiation, peer: Peer, at: nat, t: Transcript)
      requires MadeBy(msg, peer, at, t)
      ensures forall p, at', t' ::
        p in peersByKey.Values && MadeBy(msg, p, at', t') ==> p == peer && at' == at && t' == t
    {
      hide Identify, Accept;
    }

    /** Lines 467-505, short of the index. */
    method ComposeResponse(peer: Peer, ephemeral: Option<nat>) returns (r: ResponseResult, empty: Term)
      modifies peer`transcript, peer`localEphemeral
      ensures r in {NoResponseEphemeral, BadRemoteKey, NotConsumed} && peer.localEphemeral == ephemeral
      ensures r == NoResponseEphemeral <==> ephemeral == None
      ensures r == NotConsumed <==>
        ephemeral.Some? && SharedSecret(ephemeral.value, peer.remoteEphemeral).Some?
          && SharedSecret(ephemeral.value, peer.remoteStatic).Some?
      ensures r == NotConsumed ==>
        (empty, peer.transcript) == Respond(old(peer.transcript), Point(ephemeral.value),
          SharedSecret(ephemeral.value, peer.remoteEphemeral).value,
          SharedSecret(ephemeral.value, peer.remoteStatic).value, peer.presharedKey)
    {
      peer.localEphemeral := ephemeral;
      empty := Nothing;
      if ephemeral == None {
        return NoResponseEphemeral, empty;
      }
      var public := Point(ephemeral.value);
      peer.transcript := peer.transcript.MixHash(Key(public)).MixKey(Key(public));
      var ee := SharedSecret(ephemeral.value, peer.remoteEphemeral);
      if ee == None {
        return BadRemoteKey, empty;
      }
      peer.transcript := peer.transcript.MixKey(ee.value);
      var se := SharedSecret(ephemeral.value, peer.remoteStatic);
      if se == None {
        return BadRemoteKey, empty;
      }
      peer.transcript := peer.transcript.MixKey(se.value);
      var tau, key := Kdf(2, peer.transcript.chainKey, peer.presharedKey),
        Kdf(3, peer.transcript.chainKey, peer.presharedKey);
      peer.transcript := peer.transcript.MixKey(peer.presharedKey);
      peer.transcript := peer.transcript.MixHash(tau);
      empty := Seal(key, peer.transcript.hash, Nothing);
      peer.transcript := peer.transcript.MixHash(empty);
      return NotConsumed, empty;
    }

    /** Lines 456-460. */
    method NewIndex(peer: Peer, draws: seq<Draw>) returns (err: bool)
      requires Valid() && peer in peers && Decides(draws, table.Keys - {peer.localIndex})
        && peer.state == InitiationConsumed
      modifies this`table, peer`localIndex
      ensures (if err then Failed(peer.localIndex) else Drawn(peer.localIndex)) == old(DrawFor(peer, draws))
      ensures Valid() <==> if err then peer.localIndex == 0 else peer.localIndex != 0
      ensures !err ==> peer.localIndex in table && table[peer.localIndex] == Entry(peer, null)
    {
      hide Consistent;
      ghost var was, views := table, Views();
      Delete(peer.localIndex);
      peer.localIndex, err := NewIndexForHandshake(peer, draws);
      OneMoved(views, peer);
      if err {
        Unindexed(was, views, confirmed, peer, peer.localIndex, peer.View());
      } else {
        Reindexed(was, views, confirmed, peer, peer.localIndex, peer.View());
      }
    }

    /** Line 507. */
    method Answered(peer: Peer)
      requires (Valid() <==> peer.localIndex != 0) && peer in peers && peer.localIndex in table && Registered()
      modifies peer`state
      ensures (Valid() <==> peer.localIndex != 0) && peer.state == ResponseCreated
    {
      hide Consistent;
      ghost var views := Views();
      peer.state := ResponseCreated;
      OneMoved(views, peer);
      if peer.localIndex != 0 {
        StateMoved(table, views, confirmed, peer, peer.View());
      } else {
        NoSentinel();
      }
    }

    lemma Unused()
      requires Valid()
      ensures 0 !in table
    {
      assert forall i :: i in table ==> table[i].peer in Views() && i != 0;
    }

    lemma NoSentinel()
      requires 0 in table
      ensures !Valid()
    {
      assert table[0] == table[0];
    }

    /**
     * Lines 444-510: the answer to the initiation last consumed. Here too consistency is lost only if the sentinel is
     * drawn, or the source of randomness fails and hands back something else.
     */
    method CreateMessageResponse(peer: Peer, ephemeral: Option<nat>, draws: seq<Draw>) returns (r: ResponseResult)
      requires Valid() && peer in peers && Decides(draws, table.Keys - {peer.localIndex})
      modifies this`table, peer`transcript, peer`localEphemeral, peer`localIndex, peer`state
      ensures r == NotConsumed <==> old(peer.state) != InitiationConsumed
      ensures r == NotConsumed ==> table == old(table) && peer.View() == old(peer.View())
      ensures r != NotConsumed ==>
        old(DrawFor(peer, draws)).index == peer.localIndex
          && (r == NoResponseIndex <==> old(DrawFor(peer, draws)).Failed?)
      ensures r == NoResponseEphemeral ==> ephemeral == None
      ensures r == BadRemoteKey ==>
        ephemeral.Some?
          && !(SharedSecret(ephemeral.value, peer.remoteEphemeral).Some?
            && SharedSecret(ephemeral.value, peer.remoteStatic).Some?)
      ensures r.ResponseSent? ==>
        && ephemeral.Some? && SharedSecret(ephemeral.value, peer.remoteEphemeral).Some?
          && SharedSecret(ephemeral.value, peer.remoteStatic).Some?
        && (r.msg.empty, peer.transcript) == Respond(old(peer.transcript), Point(ephemeral.value),
          SharedSecret(ephemeral.value, peer.remoteEphemeral).value,
          SharedSecret(ephemeral.value, peer.remoteStatic).value, peer.presharedKey)
        && r.msg.sender == peer.localIndex && r.msg.receiver == peer.remoteIndex
          && r.msg.ephemeral == Point(ephemeral.value)
        && peer.state == ResponseCreated && peer.localIndex in table && table[peer.localIndex] == Entry(peer, null)
      ensures Valid() <==>
        (old(peer.state) == InitiationConsumed ==>
          (old(DrawFor(peer, draws)).Drawn? <==> old(DrawFor(peer, draws)).index != 0))
    {
      hide Consistent, Respond;
      if peer.state != InitiationConsumed {
        return NotConsumed;
      }
      var err := NewIndex(peer, draws);
      if err {
        return NoResponseIndex;
      }
      var empty;
      r, empty := ComposeResponse(peer, ephemeral);
      if r != NotConsumed {
        return;
      }
      Answered(peer);
      return ResponseSent(MessageResponse(peer.localIndex, peer.remoteIndex, Point(ephemeral.value), empty));
    }

    /** The response answers the initiation the peer's handshake stands at, and leaves the transcript `t`. */
    ghost predicate Answers(msg: MessageResponse, peer: Peer, t: Transcript)
      reads peer`state, peer`transcript, peer`localEphemeral
    {
      && peer.state == InitiationCreated && peer.localEphemeral.Some?
      && SharedSecret(peer.localEphemeral.value, msg.ephemeral).Some? && SharedSecret(secret, msg.ephemeral).Some?
      && Conclude(peer.transcript, msg.ephemeral, SharedSecret(peer.localEphemeral.value, msg.ephemeral).value,
                  SharedSecret(secret, msg.ephemeral).value, peer.presharedKey, msg.empty) == Some(t)
    }

    /** Lines 530-586. */
    method OpenResponse(msg: MessageResponse, peer: Peer) returns (r: Option<Transcript>)
      ensures r.Some? ==> Answers(msg, peer, r.value)
      ensures r == None ==> forall t :: !Answers(msg, peer, t)
    {
      if peer.state != InitiationCreated || peer.localEphemeral == None {
        return None;
      }
      var t := peer.transcript.MixHash(Key(msg.ephemeral)).MixKey(Key(msg.ephemeral));
      var ee := SharedSecret(peer.localEphemeral.value, msg.ephemeral);
      if ee == None {
        return None;
      }
      t := t.MixKey(ee.value);
      var se := SharedSecret(secret, msg.ephemeral);
      if se == None {
        return None;
      }
      t := t.MixKey(se.value);
      var tau, key := Kdf(2, t.chainKey, peer.presharedKey), Kdf(3, t.chainKey, peer.presharedKey);
      t := t.MixKey(peer.presharedKey).MixHash(tau);
      if Open(key, t.hash, msg.empty) == None {
        return None;
      }
      return Some(t.MixHash(msg.empty));
    }

    lemma EntryKnown(i: nat)
      requires Valid() && i in table && table[i].keypair == null
      ensures i != 0 && table[i].peer in peers && table[i].peer.localIndex == i
    {
      assert table[i].peer in Views() && Mentions(Views()[table[i].peer], i, null);
    }

    /** Lines 512-588: the response is for the peer whose handshake holds the index it names; nothing changes yet. */
    method CheckResponse(msg: MessageResponse) returns (r: Option<(Peer, Transcript)>)
      requires Valid()
      ensures r.Some? ==> var (peer, t) := r.value;
        && peer in peers && msg.receiver in table && table[msg.receiver] == Entry(peer, null)
        && peer.localIndex == msg.receiver != 0 && Answers(msg, peer, t)
      ensures r == None && msg.receiver in table && table[msg.receiver].keypair == null ==>
        forall t :: !Answers(msg, table[msg.receiver].peer, t)
    {
      hide Conclude, Mentions, Consistent;
      if msg.receiver !in table || table[msg.receiver].keypair != null {
        return None;
      }
      EntryKnown(msg.receiver);
      var peer := table[msg.receiver].peer;
      var done := OpenResponse(msg, peer);
      if done == None {
        return None;
      }
      return Some((peer, done.value));
    }

    /**
     * Lines 590-602: the handshake takes the response. The code has let go of the handshake's lock since it checked the
     * response, so it may by now stand anywhere: the table stays consistent exactly if it still has an index.
     */
    method TakeResponse(peer: Peer, t: Transcript, sender: nat)
      requires Valid() && peer in peers
      modifies peer`transcript, peer`remoteIndex, peer`state
      ensures Valid() <==> peer.localIndex != 0
      ensures peer.transcript == t && peer.remoteIndex == sender && peer.state == ResponseConsumed
    {
      hide Consistent;
      ghost var views := Views();
      peer.transcript := t;
      peer.remoteIndex := sender;
      peer.state := ResponseConsumed;
      OneMoved(views, peer);
      StateMoved(table, views, confirmed, peer, peer.View());
    }

    /** Lines 512-607, if nothing comes in between. */
    method ConsumeMessageResponse(msg: MessageResponse) returns (peer: Peer?)
      requires Valid()
      modifies peers`transcript, peers`remoteIndex, peers`state
      ensures Valid() && (peer != null ==> peer in peers)
      ensures peer != null ==>
        && msg.receiver in table && table[msg.receiver] == Entry(peer, null) && peer.localIndex == msg.receiver != 0
        && (var t := peer.transcript; old(Answers(msg, peer, t)))
        && peer.state == ResponseConsumed && peer.remoteIndex == msg.sender
      ensures peer == null && msg.receiver in table && table[msg.receiver].keypair == null ==>
        forall t :: !old(Answers(msg, table[msg.receiver].peer, t))
      ensures forall q :: q in peers && q != peer ==> unchanged(q)
    {
      hide Answers, Consistent;
      var checked := CheckResponse(msg);
      if checked == None {
        forall t | msg.receiver in table && table[msg.receiver].keypair == null
          ensures !old(Answers(msg, table[msg.receiver].peer, t))
        {
          assert !Answers(msg, table[msg.receiver].peer, t);
        }
        return null;
      }
      peer := checked.value.0;
      TakeResponse(peer, checked.value.1, msg.sender);
    }

    /** Lines 673-696. */
    method Rotate(peer: Peer, keypair: Keypair, ghost was: map<nat, Entry>, ghost views: map<Peer, PeerView>,
                  ghost v: PeerView)
      requires Registered() && Consistent(was, views, confirmed)
      requires peer in peers && views.Keys == peers && views[peer] == v && keypair !in v.Slots()
      requires v.state == (if keypair.isInitiator then ResponseConsumed else ResponseCreated)
        && keypair.localIndex == v.localIndex
      requires table == was[v.localIndex := Entry(peer, keypair)] && peer.View() == v.(state := Zeroed, localIndex := 0)
      requires forall p :: p in peers && p != peer ==> p.View() == views[p]
      modifies this`table, peer`previous, peer`current, peer`next
      ensures Valid()
      ensures peer.View() == if keypair.isInitiator then RotatedByInitiator(v, keypair)
        else RotatedByResponder(v, keypair)
      ensures if keypair.isInitiator then peer.current == keypair else peer.next == keypair
    {
      hide Consistent;
      var previous, next, current := peer.previous, peer.next, peer.current;
      if keypair.isInitiator {
        InitiatorRotates(was, views, confirmed, peer, keypair);
        if next != null {
          peer.next := null;
          peer.previous := next;
          DeleteKeypair(current);
        } else {
          peer.previous := current;
        }
        DeleteKeypair(previous);
        peer.current := keypair;
      } else {
        ResponderRotates(was, views, confirmed, peer, keypair);
        peer.next := keypair;
        DeleteKeypair(next);
        peer.previous := null;
        DeleteKeypair(previous);
      }
      OneMoved(views, peer);
    }

    lemma Swapped(was: map<nat, Entry>, views: map<Peer, PeerView>, q: Peer)
      requires Consistent(was, views, confirmed) && q in views && views[q].state in {ResponseConsumed, ResponseCreated}
      ensures views[q].localIndex in was && was[views[q].localIndex].peer == q
    {
      HandshakeEntry(was, views, confirmed, q);
    }

    /** Lines 620-668: the handshake's keys, for the role its state says; the handshake is cleared. */
    method DeriveKeypair(peer: Peer) returns (keypair: Keypair)
      modifies peer`transcript, peer`localEphemeral, peer`state
      ensures fresh(keypair) && keypair.isInitiator == (old(peer.state) == ResponseConsumed)
      ensures keypair.localIndex == peer.localIndex && keypair.remoteIndex == peer.remoteIndex
      ensures SessionKeys(keypair.send, keypair.receive) == Derive(old(peer.transcript).chainKey, keypair.isInitiator)
      ensures keypair.send == Kdf(if keypair.isInitiator then 1 else 2, old(peer.transcript).chainKey, Nothing)
      ensures keypair.receive == Kdf(if keypair.isInitiator then 2 else 1, old(peer.transcript).chainKey, Nothing)
      ensures peer.transcript == Transcript(Nothing, Nothing) && peer.localEphemeral == None && peer.state == Zeroed
    {
      var isInitiator := peer.state == ResponseConsumed;
      var keys := Derive(peer.transcript.chainKey, isInitiator);
      peer.transcript := Transcript(Nothing, Nothing);
      peer.localEphemeral := None;
      peer.state := Zeroed;
      keypair := new Keypair(keys, isInitiator, peer.localIndex, peer.remoteIndex);
    }

    /** Lines 612-699: the handshake gives way to a keypair, which takes over its index, and the slots rotate. */
    method BeginSymmetricSession(peer: Peer) returns (err: bool)
      requires Valid() && peer in peers
      modifies this`table, peer`transcript, peer`localEphemeral, peer`state, peer`localIndex, peer`previous,
        peer`current, peer`next
      ensures Valid()
      ensures err <==> old(peer.state) !in {ResponseConsumed, ResponseCreated}
      ensures err ==> table == old(table) && peer.View() == old(peer.View())
      ensures !err ==> peer.transcript == Transcript(Nothing, Nothing) && peer.localEphemeral == None
      ensures old(peer.state) == ResponseConsumed ==>
        && peer.current != null && fresh(peer.current) && peer.current.isInitiator
          && peer.View() == RotatedByInitiator(old(peer.View()), peer.current)
        && peer.current.localIndex == old(peer.localIndex) && peer.current.remoteIndex == peer.remoteIndex
        && SessionKeys(peer.current.send, peer.current.receive) == Derive(old(peer.transcript).chainKey, true)
        && peer.current.send == Kdf(1, old(peer.transcript).chainKey, Nothing)
        && peer.current.receive == Kdf(2, old(peer.transcript).chainKey, Nothing)
      ensures old(peer.state) == ResponseCreated ==>
        && peer.next != null && fresh(peer.next) && !peer.next.isInitiator
          && peer.View() == RotatedByResponder(old(peer.View()), peer.next)
        && peer.next.localIndex == old(peer.localIndex) && peer.next.remoteIndex == peer.remoteIndex
        && SessionKeys(peer.next.send, peer.next.receive) == Derive(old(peer.transcript).chainKey, false)
        && peer.next.send == Kdf(2, old(peer.transcript).chainKey, Nothing)
        && peer.next.receive == Kdf(1, old(peer.transcript).chainKey, Nothing)
    {
      hide Consistent, Derive, RotatedByInitiator, RotatedByResponder;
      ghost var was, views, v := table, Views(), peer.View();
      if peer.state != ResponseConsumed && peer.state != ResponseCreated {
        return true;
      }
      var keypair := DeriveKeypair(peer);
      Swapped(was, views, peer);
      SwapIndexForKeypair(peer.localIndex, keypair);
      peer.localIndex := 0;
      Rotate(peer, keypair, was, views, v);
      return false;
    }

    /** Lines 701-718: only the keypair waiting in `next` takes over, and only when a packet came in under it. */
    method ReceivedWithKeypair(peer: Peer, receivedKeypair: Keypair) returns (rotated: bool)
      requires Valid() && peer in peers
      modifies this`table, this`confirmed, peer`previous, peer`current, peer`next
      ensures Valid() && (rotated <==> old(peer.next) == receivedKeypair)
      ensures !rotated ==> table == old(table) && peer.View() == old(peer.View()) && confirmed == old(confirmed)
      ensures rotated ==> peer.View() == Confirmed(old(peer.View())) && confirmed == old(confirmed) + {receivedKeypair}
    {
      hide Consistent, Drop;
      ghost var was, views := table, Views();
      if peer.next != receivedKeypair {
        return false;
      }
      ConfirmationRotates(was, views, confirmed, peer, receivedKeypair);
      var last := peer.previous;
      peer.previous := peer.current;
      DeleteKeypair(last);
      peer.current := peer.next;
      peer.next := null;
      confirmed := confirmed + {receivedKeypair};
      OneMoved(views, peer);
      return true;
    }

    /** Lines 246-253: `Handshake.Clear`. */
    method Clear(peer: Peer)
      modifies peer`localEphemeral, peer`remoteEphemeral, peer`transcript, peer`localIndex, peer`state
      ensures peer.localIndex == 0 && peer.state == Zeroed && peer.localEphemeral == None
        && peer.transcript == Transcript(Nothing, Nothing)
    {
      peer.localEphemeral := None;
      peer.remoteEphemeral := LowOrder;
      peer.transcript := Transcript(Nothing, Nothing);
      peer.localIndex := 0;
      peer.state := Zeroed;
    }

    /** Lines 242-244 of peer.go. */
    method ClearHandshake(peer: Peer)
      requires Valid() && peer in peers
      modifies this`table, peer`localEphemeral, peer`remoteEphemeral, peer`transcript, peer`localIndex, peer`state
      ensures Valid() && peer.View() == old(peer.View()).(state := Zeroed, localIndex := 0)
      ensures table == old(table) - {old(peer.localIndex)}
    {
      hide Consistent;
      ghost var was, views := table, Views();
      HandshakeCleared(was, views, confirmed, peer);
      Delete(peer.localIndex);
      Clear(peer);
      OneMoved(views, peer);
    }

    lemma NoEntries(q: Peer)
      requires Valid() && q in peers && q.View() == PeerView(Zeroed, 0, null, null, null)
      ensures forall i :: i in table ==> table[i].peer != q
    {
      assert Views()[q] == q.View();
    }

    /** Lines 219-227 of peer.go. */
    method ClearKeypairs(peer: Peer)
      requires Valid() && peer in peers
      modifies this`table, peer`previous, peer`current, peer`next
      ensures Valid() && peer.View() == old(peer.View()).(previous := null, current := null, next := null)
    {
      hide Consistent, Drop;
      ghost var was, views := table, Views();
      KeypairsCleared(was, views, confirmed, peer);
      DeleteKeypair(peer.previous);
      DeleteKeypair(peer.current);
      DeleteKeypair(peer.next);
      peer.previous := null;
      peer.current := null;
      peer.next := null;
      NowValid(views, peer);
    }

    /** Lines 214-237 of peer.go: a peer that is stopped leaves nothing in the table. */
    method ZeroAndFlushAll(peer: Peer)
      requires Valid() && peer in peers
      modifies this`table, peer`localEphemeral, peer`remoteEphemeral, peer`transcript, peer`localIndex, peer`state
      modifies peer`previous, peer`current, peer`next
      ensures Valid() && peer.View() == PeerView(Zeroed, 0, null, null, null)
      ensures forall i :: i in table ==> table[i].peer != peer
    {
      hide Consistent;
      ClearKeypairs(peer);
      ClearHandshake(peer);
      NoEntries(peer);
    }

    /** Lines 240-257 of peer.go: the handshake is dropped, and the two newest keypairs may not send any more. */
    method ExpireCurrentKeypairs(peer: Peer)
      requires Valid() && peer in peers
      modifies this`table, peer`localEphemeral, peer`remoteEphemeral, peer`transcript, peer`localIndex, peer`state
      modifies (if peer.current == null then {} else {peer.current})`sendNonce,
        (if peer.next == null then {} else {peer.next})`sendNonce
      ensures Valid() && peer.View() == old(peer.View()).(state := Zeroed, localIndex := 0)
      ensures peer.current != null ==> peer.current.sendNonce == REJECT_AFTER_MESSAGES
      ensures peer.next != null ==> peer.next.sendNonce == REJECT_AFTER_MESSAGES
    {
      hide Consistent;
      ClearHandshake(peer);
      if peer.current != null {
        peer.current.sendNonce := REJECT_AFTER_MESSAGES;
      }
      if peer.next != null {
        peer.next.sendNonce := REJECT_AFTER_MESSAGES;
      }
    }
  }

  /**
   * A witness: whichever valid device it is, an initiation under the index 0 leaves an index in the table that no peer
   * holds.
   */
  method DrawsSentinel(d: Device, peer: Peer, ephemeral: nat, now: nat)
    requires d.Valid() && peer in d.peers
    requires SharedSecret(ephemeral, peer.remoteStatic).Some? && peer.precomputedStaticStatic.Some?
    modifies d`table, peer`transcript, peer`localEphemeral, peer`localIndex, peer`state
    ensures !d.Valid() && 0 in d.table && peer.localIndex == 0
  {
    hide Consistent, Initiate;
    var draws := [Drawn(0)];
    d.Unused();
    var r := d.CreateMessageInitiation(peer, Some(ephemeral), now, draws);
  }
}
