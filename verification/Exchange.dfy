/** A whole exchange between two devices, step by step over the methods of wireguard-go/device/noise-protocol.go. */
module Exchange {
  import opened Noise
  import opened Options
  import opened Session
  import opened SessionIndex

  /** The devices know each other: each has the other's key, and they hold the same preshared key. */
  ghost predicate Acquainted(a: Device, b: Device, pb: Peer, pa: Peer)
    reads a`peers, b`peers, b`peersByKey
  {
    && pb in a.peers && pa in b.peers && a.peers !! b.peers
    && pb.remoteStatic == Point(b.secret) && pa.remoteStatic == Point(a.secret)
    && pb.presharedKey == pa.presharedKey
    && pb.precomputedStaticStatic == SharedSecret(a.secret, Point(b.secret))
    && pa.precomputedStaticStatic == SharedSecret(b.secret, Point(a.secret))
    && Point(a.secret) in b.peersByKey && b.peersByKey[Point(a.secret)] == pa
  }

  /** A device can draw an index that is not the sentinel. */
  ghost predicate Draws(d: Device, p: Peer, draws: seq<Draw>)
    reads d`table, p`localIndex
  {
    Decides(draws, d.table.Keys - {p.localIndex}) && d.DrawFor(p, draws).Drawn? && d.DrawFor(p, draws).index != 0
  }

  /** Each side sends under the key the other receives under. */
  ghost predicate KeysMirror(x: Keypair?, y: Keypair?) {
    x != null && y != null && x.send == y.receive && x.receive == y.send && x.isInitiator != y.isInitiator
  }

  /** What one side has of a session the other side has too. */
  ghost predicate Mirror(x: Keypair?, y: Keypair?) {
    KeysMirror(x, y) && x.localIndex == y.remoteIndex && x.remoteIndex == y.localIndex
  }

  /** The peers are of different devices, which share none. */
  ghost predicate Apart(a: Device, b: Device, pb: Peer, pa: Peer)
    reads a`peers, b`peers
  {
    pb in a.peers && pa in b.peers && a.peers !! b.peers
  }

  /** A handshake that waits for a response stands where an initiation to this peer left it. */
  ghost predicate Began(d: Device, p: Peer)
    reads p`state, p`localEphemeral, p`transcript
  {
    p.state == InitiationCreated && p.localEphemeral.Some? ==>
      Initiated(p.transcript, Point(d.secret), p.remoteStatic, p.localEphemeral.value)
  }

  /** A handshake stands where an initiation left it that opened for this device. */
  ghost predicate Took(d: Device, p: Peer)
    reads p`transcript
  {
    exists identity :: Taken(p.transcript, Point(d.secret), identity)
  }

  /** An initiation that was taken left such a handshake. */
  lemma TookMade(d: Device, p: Peer, msg: MessageInitiation, at: nat)
    requires d.MadeBy(msg, p, at, p.transcript)
    ensures Took(d, p)
  {
    hide Identify, Accept;
    var es := SharedSecret(d.secret, msg.body.ephemeral).value;
    assert Taken(p.transcript, Point(d.secret), Identify(Point(d.secret), msg.body, es).value.0);
  }

  /** The initiation is sent and consumed: both sides stand at the same transcript. */
  method Call(a: Device, b: Device, pb: Peer, pa: Peer, ea: nat, at: nat, now: int, draws: seq<Draw>)
    returns (msg: MessageInitiation)
    requires a.Valid() && b.Valid() && Acquainted(a, b, pb, pa) && pa.isRunning
    requires Draws(a, pb, draws) && b.Timely(pa, at, now)
    modifies a`table, pb`transcript, pb`localEphemeral, pb`localIndex, pb`state
    modifies b.peers`transcript, b.peers`remoteIndex, b.peers`remoteEphemeral, b.peers`lastTimestamp,
      b.peers`lastInitiationConsumption, b.peers`state
    ensures a.Valid() && b.Valid() && pb.state == InitiationCreated && pa.state == InitiationConsumed
    ensures pa.transcript == pb.transcript && pa.remoteEphemeral == Point(ea) && pb.localEphemeral == Some(ea)
    ensures Began(a, pb) && Took(b, pa)
    ensures pa.remoteIndex == pb.localIndex != 0 && pb.localIndex in a.table
      && a.table[pb.localIndex] == Entry(pb, null)
  {
    hide Consistent, Initiate, Identify, Accept;
    var es, ss := SharedSecret(ea, Point(b.secret)).value, SharedSecret(a.secret, Point(b.secret)).value;
    var sent := a.CreateMessageInitiation(pb, Some(ea), at, draws);
    msg := sent.msg;
    ghost var t := pb.transcript;
    assert Initiated(t, Point(a.secret), pb.remoteStatic, ea);
    DhCommutes(ea, b.secret);
    DhCommutes(a.secret, b.secret);
    InitiationAgrees(Point(a.secret), Point(b.secret), ea, es, ss, at, Point(b.secret), es, ss);
    assert msg.body.ephemeral == Point(ea) by { Ephemeral(Point(a.secret), Point(b.secret), ea, es, ss, at); }
    assert b.MadeBy(msg, pa, at, t);
    var consumed := b.ConsumeMessageInitiation(msg, now);
    assert consumed != null && consumed == pa by {
      b.OneMaker(msg, pa, at, t);
    }
    TookMade(b, pa, msg, pa.lastTimestamp);
  }

  lemma Ephemeral(identity: PublicKey, responder: PublicKey, ephemeral: nat, es: Term, ss: Term, now: nat)
    ensures Initiate(identity, responder, ephemeral, es, ss, now).0.ephemeral == Point(ephemeral)
  {
  }

  /** The response is sent and consumed: both sides stand at the same transcript again. */
  method Answer(a: Device, b: Device, pb: Peer, pa: Peer, ea: nat, eb: nat, draws: seq<Draw>)
    requires a.Valid() && b.Valid() && Acquainted(a, b, pb, pa) && Draws(b, pa, draws)
    requires pb.state == InitiationCreated && pa.state == InitiationConsumed && pa.transcript == pb.transcript
    requires pa.remoteEphemeral == Point(ea) && pb.localEphemeral == Some(ea)
    requires pa.remoteIndex == pb.localIndex != 0 && pb.localIndex in a.table
      && a.table[pb.localIndex] == Entry(pb, null)
    modifies b`table, pa`transcript, pa`localEphemeral, pa`localIndex, pa`state
    modifies a.peers`transcript, a.peers`remoteIndex, a.peers`state
    ensures a.Valid() && b.Valid() && pb.state == ResponseConsumed && pa.state == ResponseCreated
    ensures pa.transcript == pb.transcript && pb.remoteIndex == pa.localIndex && pa.remoteIndex == pb.localIndex
  {
    hide Consistent, Respond, Conclude;
    ghost var t := pb.transcript;
    var sent := b.CreateMessageResponse(pa, Some(eb), draws);
    ghost var done := pa.transcript;
    DhCommutes(ea, eb);
    DhCommutes(a.secret, eb);
    ResponseAuthenticates(t, t, Point(eb), SharedSecret(ea, Point(eb)).value, SharedSecret(a.secret, Point(eb)).value,
      pb.presharedKey, Point(eb), SharedSecret(eb, Point(ea)).value, SharedSecret(eb, Point(a.secret)).value,
      pa.presharedKey);
    assert a.Answers(sent.msg, pb, done);
    var consumed := a.ConsumeMessageResponse(sent.msg);
    assert consumed == pb;
  }

  /** Both sides derive their keypairs; the responder's has to wait. */
  method Derived(a: Device, b: Device, pb: Peer, pa: Peer)
    requires a.Valid() && b.Valid() && Apart(a, b, pb, pa)
    requires pb.state == ResponseConsumed && pa.state == ResponseCreated && pa.transcript == pb.transcript
    modifies a`table, pb`transcript, pb`localEphemeral, pb`state, pb`localIndex, pb`previous, pb`current, pb`next
    modifies b`table, pa`transcript, pa`localEphemeral, pa`state, pa`localIndex, pa`previous, pa`current, pa`next
    ensures a.Valid() && b.Valid() && pb.state == pa.state == Zeroed && pb.localIndex == pa.localIndex == 0
    ensures KeysMirror(pb.current, pa.next)
    ensures pb.current.localIndex == old(pb.localIndex) && pb.current.remoteIndex == old(pb.remoteIndex)
    ensures pa.next.localIndex == old(pa.localIndex) && pa.next.remoteIndex == old(pa.remoteIndex)
  {
    hide Consistent, Derive;
    KeysCross(pb.transcript.chainKey, pb.transcript.chainKey);
    var err := a.BeginSymmetricSession(pb);
    err := b.BeginSymmetricSession(pa);
  }

  /** The first packet confirms the responder's keypair. */
  method Settle(a: Device, b: Device, pb: Peer, pa: Peer)
    requires a.Valid() && b.Valid() && Apart(a, b, pb, pa)
    requires pb.state == ResponseConsumed && pa.state == ResponseCreated && pa.transcript == pb.transcript
    modifies a`table, pb`transcript, pb`localEphemeral, pb`state, pb`localIndex, pb`previous, pb`current, pb`next
    modifies b`table, b`confirmed, pa`transcript, pa`localEphemeral, pa`state, pa`localIndex, pa`previous, pa`current,
      pa`next
    ensures a.Valid() && b.Valid() && pb.state == pa.state == Zeroed && pb.localIndex == pa.localIndex == 0
    ensures KeysMirror(pb.current, pa.current)
    ensures pb.current.localIndex == old(pb.localIndex) && pb.current.remoteIndex == old(pb.remoteIndex)
    ensures pa.current.localIndex == old(pa.localIndex) && pa.current.remoteIndex == old(pa.remoteIndex)
  {
    hide Consistent;
    Derived(a, b, pb, pa);
    var rotated := b.ReceivedWithKeypair(pa, pa.next);
  }

  /**
   * An undisturbed exchange leaves both sides with the same session, each sending under the key the other receives
   * under.
   */
  method Handshake(a: Device, b: Device, pb: Peer, pa: Peer, ea: nat, eb: nat, at: nat, now: int, drawsA: seq<Draw>,
                   drawsB: seq<Draw>)
    requires a != b && a.Valid() && b.Valid() && Acquainted(a, b, pb, pa) && pa.isRunning
    requires Draws(a, pb, drawsA) && Draws(b, pa, drawsB) && b.Timely(pa, at, now)
    modifies a`table, b`table, b`confirmed
    modifies a.peers`transcript, a.peers`localEphemeral, a.peers`localIndex, a.peers`remoteIndex, a.peers`state
    modifies a.peers`previous, a.peers`current, a.peers`next
    modifies b.peers`transcript, b.peers`localEphemeral, b.peers`localIndex, b.peers`remoteIndex,
      b.peers`remoteEphemeral, b.peers`state
    modifies b.peers`lastTimestamp, b.peers`lastInitiationConsumption, b.peers`previous, b.peers`current, b.peers`next
    ensures a.Valid() && b.Valid() && Mirror(pb.current, pa.current)
    ensures pb.state == pa.state == Zeroed && pb.localIndex == pa.localIndex == 0
  {
    hide Consistent;
    var msg := Call(a, b, pb, pa, ea, at, now, drawsA);
    Answer(a, b, pb, pa, ea, eb, drawsB);
    Settle(a, b, pb, pa);
  }

  /** The responder's answer to whatever it took for an initiation. */
  method MakeResponse(b: Device, pa: Peer, eb: nat, draws: seq<Draw>) returns (msg: MessageResponse)
    requires b.Valid() && pa in b.peers && Draws(b, pa, draws) && pa.state == InitiationConsumed
    requires SharedSecret(eb, pa.remoteEphemeral).Some? && SharedSecret(eb, pa.remoteStatic).Some?
    modifies b`table, pa`transcript, pa`localEphemeral, pa`localIndex, pa`state
    ensures b.Valid() && pa.state == ResponseCreated && pa.localIndex == old(b.DrawFor(pa, draws)).index == msg.sender
    ensures (msg.empty, pa.transcript) == Respond(old(pa.transcript), Point(eb),
      SharedSecret(eb, pa.remoteEphemeral).value, SharedSecret(eb, pa.remoteStatic).value, pa.presharedKey)
  {
    hide Consistent, Respond;
    var sent := b.CreateMessageResponse(pa, Some(eb), draws);
    msg := sent.msg;
  }

  /**
   * Agreement under tampering: the initiation the responder consumed may have been anyone's, and every field of its
   * response but the authenticator may be replaced on the way. If the initiator accepts, the ephemeral key was not
   * replaced, each side has the other's static key, and their sessions mirror each other: the keys in any case, and
   * the indices exactly when those two were left alone, for they are not part of the transcript. What is asked of the
   * handshakes is what the methods that create and consume initiations leave, as `Call` shows.
   */
  method Tampered(a: Device, b: Device, pa: Peer, eb: nat, draws: seq<Draw>, sender: nat, receiver: nat,
                  ephemeral: PublicKey)
    returns (p: Peer?)
    requires a.Valid() && b.Valid() && pa in b.peers && a.peers !! b.peers && a != b
    requires Draws(b, pa, draws) && pa.state == InitiationConsumed && Took(b, pa)
    requires forall p :: p in a.peers ==> Began(a, p)
    requires SharedSecret(eb, pa.remoteEphemeral).Some? && SharedSecret(eb, pa.remoteStatic).Some?
    modifies a`table, a.peers`transcript, a.peers`localEphemeral, a.peers`localIndex, a.peers`remoteIndex, a.peers`state
    modifies a.peers`previous, a.peers`current, a.peers`next
    modifies b`table, b`confirmed, pa`transcript, pa`localEphemeral, pa`localIndex, pa`state, pa`previous, pa`current,
      pa`next
    ensures a.Valid() && b.Valid()
    ensures p != null ==>
      && p in a.peers && p.remoteStatic == Point(b.secret) && pa.remoteStatic == Point(a.secret)
      && ephemeral == Point(eb) && p.presharedKey == pa.presharedKey
      && old(p.localEphemeral).Some? && pa.remoteEphemeral == Point(old(p.localEphemeral).value)
      && old(p.transcript) == old(pa.transcript)
      && KeysMirror(p.current, pa.current)
      && (Mirror(p.current, pa.current) <==> sender == old(b.DrawFor(pa, draws)).index && receiver == pa.remoteIndex)
  {
    hide Consistent, Conclude, Respond, Initiated, Taken;
    ghost var t := pa.transcript;
    ghost var identity :| Taken(t, Point(b.secret), identity);
    var made := MakeResponse(b, pa, eb, draws);
    label Sent:
    p := a.ConsumeMessageResponse(MessageResponse(sender, receiver, ephemeral, made.empty));
    if p == null {
      return;
    }
    assert old@Sent(Began(a, p));
    Agreement(a.secret, old@Sent(p.localEphemeral).value, p.remoteStatic, old@Sent(p.transcript), p.presharedKey,
      ephemeral, b.secret, eb, identity, t, pa.remoteEphemeral, pa.remoteStatic, pa.presharedKey, p.transcript);
    Settle(a, b, p, pa);
  }
}
