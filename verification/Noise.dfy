/** The Noise IKpsk2 transcript of wireguard-go/device/noise-protocol.go, over symbolic cryptography. */
module Noise {
  import opened Options

  /** A Curve25519 point: the public key of a secret, or a low-order point, which `sharedSecret` refuses. */
  datatype PublicKey = Point(secret: nat) | LowOrder

  /** Byte strings, by the way they were made. Distinct terms are distinct strings. */
  datatype Term =
    | InitialHash
    | InitialChainKey
    | Nothing
    | Key(pk: PublicKey)
    | Time(t: nat)
    | Psk(id: nat)
    | Dh(low: nat, high: nat)
    | Mix(hash: Term, data: Term)
    | Kdf(i: nat, chain: Term, input: Term)
    | Seal(key: Term, ad: Term, plain: Term)
    | Junk(id: nat)

  /** Diffie-Hellman, which both sides compute alike. */
  function SharedSecret(secret: nat, pk: PublicKey): Option<Term> {
    match pk
    case LowOrder => None
    case Point(other) => Some(if secret <= other then Dh(secret, other) else Dh(other, secret))
  }

  /** Opening needs the very key and associated data of the seal. */
  function Open(key: Term, ad: Term, cipher: Term): Option<Term> {
    if cipher.Seal? && cipher.key == key && cipher.ad == ad then Some(cipher.plain) else None
  }

  /** The two running values of a handshake. */
  datatype Transcript = Transcript(hash: Term, chainKey: Term) {
    function MixHash(data: Term): Transcript {
      this.(hash := Mix(hash, data))
    }

    /** `mixKey`, and the first output of KDF2 and KDF3. */
    function MixKey(data: Term): Transcript {
      this.(chainKey := Kdf(1, chainKey, data))
    }

    /** The second output of KDF2. */
    function CipherKey(data: Term): Term {
      Kdf(2, chainKey, data)
    }
  }

  /** Lines 287-295 and 353-355: up to the initiator's ephemeral key. */
  function Opening(responder: PublicKey, ephemeral: PublicKey): Transcript {
    Transcript(InitialHash, InitialChainKey).MixHash(Key(responder)).MixKey(Key(ephemeral)).MixHash(Key(ephemeral))
  }

  datatype InitiationBody = InitiationBody(ephemeral: PublicKey, identity: Term, timestamp: Term)

  /** Lines 287-335: what the initiator sends and where its transcript stands. */
  function Initiate(identity: PublicKey, responder: PublicKey, ephemeral: nat, es: Term, ss: Term,
      now: nat): (InitiationBody, Transcript) {
    var t1 := Opening(responder, Point(ephemeral));
    var sealedStatic := Seal(t1.CipherKey(es), t1.hash, Key(identity));
    var t2 := t1.MixKey(es).MixHash(sealedStatic);
    var sealedTime := Seal(t2.CipherKey(ss), t2.hash, Time(now));
    (InitiationBody(Point(ephemeral), sealedStatic, sealedTime), t2.MixKey(ss).MixHash(sealedTime))
  }

  /** Lines 353-370: the responder learns who is calling. */
  function Identify(own: PublicKey, body: InitiationBody, es: Term): Option<(PublicKey, Transcript)> {
    var t1 := Opening(own, body.ephemeral);
    match Open(t1.CipherKey(es), t1.hash, body.identity)
    case Some(Key(pk)) => Some((pk, t1.MixKey(es).MixHash(body.identity)))
    case _ => None
  }

  /** Lines 391-403: and when the call was made. */
  function Accept(t: Transcript, body: InitiationBody, ss: Term): Option<(nat, Transcript)> {
    match Open(t.CipherKey(ss), t.hash, body.timestamp)
    case Some(Time(at)) => Some((at, t.MixKey(ss).MixHash(body.timestamp)))
    case _ => None
  }

  /** Lines 474-501 and 547-575: everything of the response before its authenticator. */
  function Answering(t: Transcript, ephemeral: PublicKey, ee: Term, se: Term, psk: Term): (Transcript, Term) {
    var t1 := t.MixHash(Key(ephemeral)).MixKey(Key(ephemeral)).MixKey(ee).MixKey(se);
    (t1.MixKey(psk).MixHash(Kdf(2, t1.chainKey, psk)), Kdf(3, t1.chainKey, psk))
  }

  /** Lines 474-505: the responder's authenticator and final transcript. */
  function Respond(t: Transcript, ephemeral: PublicKey, ee: Term, se: Term, psk: Term): (Term, Transcript) {
    var (t1, key) := Answering(t, ephemeral, ee, se, psk);
    (Seal(key, t1.hash, Nothing), t1.MixHash(Seal(key, t1.hash, Nothing)))
  }

  /** Lines 547-584: the initiator's final transcript, if the authenticator opens. */
  function Conclude(t: Transcript, ephemeral: PublicKey, ee: Term, se: Term, psk: Term,
      empty: Term): Option<Transcript> {
    var (t1, key) := Answering(t, ephemeral, ee, se, psk);
    if Open(key, t1.hash, empty).Some? then Some(t1.MixHash(empty)) else None
  }

  datatype SessionKeys = SessionKeys(send: Term, receive: Term)

  /** Lines 624-642. */
  function Derive(chainKey: Term, isInitiator: bool): SessionKeys {
    if isInitiator then SessionKeys(Kdf(1, chainKey, Nothing), Kdf(2, chainKey, Nothing))
    else SessionKeys(Kdf(2, chainKey, Nothing), Kdf(1, chainKey, Nothing))
  }

  lemma DhCommutes(a: nat, b: nat)
    ensures SharedSecret(a, Point(b)) == SharedSecret(b, Point(a))
  {
  }

  /**
   * An initiation opens only for the responder it names, and then names its sender and leaves both transcripts equal.
   */
  lemma InitiationAgrees(identity: PublicKey, responder: PublicKey, ephemeral: nat, es: Term, ss: Term, now: nat,
                         own: PublicKey, es': Term, ss': Term)
    ensures var (body, t) := Initiate(identity, responder, ephemeral, es, ss, now);
            var who := Identify(own, body, es');
            && (who.Some? <==> own == responder && es' == es)
            && (who.Some? ==> who.value.0 == identity)
            && (who.Some? ==> Accept(who.value.1, body, ss') == if ss' == ss then Some((now, t)) else None)
  {
  }

  /**
   * An accepted response was sealed under the very transcript the initiator holds, with the same secrets on both sides.
   */
  lemma ResponseAuthenticates(ti: Transcript, tr: Transcript, e: PublicKey, ee: Term, se: Term, psk: Term,
                              e': PublicKey, ee': Term, se': Term, psk': Term)
    ensures var (empty, done) := Respond(tr, e', ee', se', psk');
            Conclude(ti, e, ee, se, psk, empty) == if ti == tr && e == e' && ee == ee' && se == se'
              && psk == psk' then Some(done) else None
  {
  }

  /** What one side sends under, the other receives under, and no two sessions share a key. */
  lemma KeysCross(chainKey: Term, other: Term)
    ensures Derive(chainKey, true).send == Derive(chainKey, false).receive
    ensures Derive(chainKey, true).receive == Derive(chainKey, false).send
    ensures Derive(chainKey, true).send != Derive(other, true).receive
    ensures Derive(chainKey, true).send == Derive(other, true).send ==> chainKey == other
  {
  }

  /** The transcript is that of an initiation to `responder` from `identity`, with this ephemeral key. */
  ghost predicate Initiated(t: Transcript, identity: PublicKey, responder: PublicKey, ephemeral: nat) {
    exists es, ss, now :: t == Initiate(identity, responder, ephemeral, es, ss, now).1
  }

  /** The transcript is what some initiation left that opened for `own` and named `identity`. */
  ghost predicate Taken(t: Transcript, own: PublicKey, identity: PublicKey) {
    exists body, es, ss, at ::
      && Identify(own, body, es).Some? && Identify(own, body, es).value.0 == identity
      && Accept(Identify(own, body, es).value.1, body, ss) == Some((at, t))
  }

  /** One transcript on both sides means that each has the other's static key. */
  lemma TranscriptNames(t: Transcript, identity: PublicKey, responder: PublicKey, ephemeral: nat, own: PublicKey,
                        identity': PublicKey)
    requires Initiated(t, identity, responder, ephemeral) && Taken(t, own, identity')
    ensures responder == own && identity' == identity
  {
  }

  /**
   * Agreement: if the initiator accepts a response a responder made, whatever was done to it on the way, then each side
   * was talking to the other, and both hold the same transcript.
   */
  lemma Agreement(a: nat, ea: nat, responder: PublicKey, ti: Transcript, psk: Term, e: PublicKey, b: nat, eb: nat,
                  identity: PublicKey, tr: Transcript, remoteEphemeral: PublicKey, remoteStatic: PublicKey, psk': Term,
                  done: Transcript)
    requires Initiated(ti, Point(a), responder, ea) && Taken(tr, Point(b), identity)
    requires SharedSecret(ea, e).Some? && SharedSecret(a, e).Some?
    requires SharedSecret(eb, remoteEphemeral).Some? && SharedSecret(eb, remoteStatic).Some?
    requires var (empty, _) := Respond(tr, Point(eb), SharedSecret(eb, remoteEphemeral).value,
      SharedSecret(eb, remoteStatic).value, psk');
             Conclude(ti, e, SharedSecret(ea, e).value, SharedSecret(a, e).value, psk, empty) == Some(done)
    ensures responder == Point(b) && identity == remoteStatic == Point(a)
    ensures e == Point(eb) && remoteEphemeral == Point(ea) && psk == psk' && ti == tr
    ensures done == Respond(tr, Point(eb), SharedSecret(eb, remoteEphemeral).value,
      SharedSecret(eb, remoteStatic).value, psk').1
  {
    hide Initiated, Taken;
    ResponseAuthenticates(ti, tr, e, SharedSecret(ea, e).value, SharedSecret(a, e).value, psk, Point(eb),
      SharedSecret(eb, remoteEphemeral).value, SharedSecret(eb, remoteStatic).value, psk');
    TranscriptNames(ti, Point(a), responder, ea, Point(b), identity);
  }

  /** Completeness: an undisturbed exchange is accepted at every step, and the two sides' keys cross. */
  lemma HonestExchange(a: nat, b: nat, ea: nat, eb: nat, psk: Term, now: nat)
    ensures var es, ss := SharedSecret(ea, Point(b)).value, SharedSecret(a, Point(b)).value;
            var (body, t) := Initiate(Point(a), Point(b), ea, es, ss, now);
            var who := Identify(Point(b), body, SharedSecret(b, body.ephemeral).value);
            && who.Some? && who.value.0 == Point(a)
            && Accept(who.value.1, body, SharedSecret(b, Point(a)).value) == Some((now, t))
            && var (empty, done) := Respond(t, Point(eb), SharedSecret(eb, body.ephemeral).value,
              SharedSecret(eb, Point(a)).value, psk);
               Conclude(t, Point(eb), SharedSecret(ea, Point(eb)).value, SharedSecret(a, Point(eb)).value, psk,
                 empty) == Some(done)
  {
    DhCommutes(ea, b);
    DhCommutes(a, b);
    DhCommutes(ea, eb);
    DhCommutes(a, eb);
    var es, ss := SharedSecret(ea, Point(b)).value, SharedSecret(a, Point(b)).value;
    InitiationAgrees(Point(a), Point(b), ea, es, ss, now, Point(b), es, ss);
  }
}
