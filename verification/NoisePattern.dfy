/**
 * The handshake as section 5 of the Noise Protocol Framework has it, with the pattern IKpsk2, and that the code of
 * wireguard-go/device/noise-protocol.go, lines 270-642, follows it.
 */
module NoisePattern {
  import opened Noise
  import opened Options

  datatype Token = E | S | EE | ES | SE | SS | PreShared

  /** The SymmetricState of section 5.2: its hash, its chaining key, and the key of its CipherState. */
  datatype Symmetric = Symmetric(h: Term, ck: Term, k: Term) {
    function MixHash(data: Term): Symmetric {
      this.(h := Mix(h, data))
    }

    function MixKey(input: Term): Symmetric {
      this.(ck := Kdf(1, ck, input), k := Kdf(2, ck, input))
    }

    function MixKeyAndHash(input: Term): Symmetric {
      Symmetric(Mix(h, Kdf(2, ck, input)), Kdf(1, ck, input), Kdf(3, ck, input))
    }

    function Encrypted(plain: Term): Term {
      Seal(k, h, plain)
    }

    function Values(): Transcript {
      Transcript(h, ck)
    }
  }

  /** What one side knows: its static and its ephemeral secret, the other's public keys, and the preshared key. */
  datatype Keys = Keys(s: nat, e: nat, rs: PublicKey, re: PublicKey, psk: Term, initiator: bool)

  /** The Diffie-Hellman tokens of section 5.3, as each side computes them. */
  function DhOf(token: Token, keys: Keys): Option<Term> {
    match token
    case EE => SharedSecret(keys.e, keys.re)
    case ES => if keys.initiator then SharedSecret(keys.e, keys.rs) else SharedSecret(keys.s, keys.re)
    case SE => if keys.initiator then SharedSecret(keys.s, keys.re) else SharedSecret(keys.e, keys.rs)
    case SS => SharedSecret(keys.s, keys.rs)
    case _ => None
  }

  /** One token of WriteMessage: what is written, and the state after it. */
  function WriteToken(token: Token, keys: Keys, y: Symmetric): Option<(seq<Term>, Symmetric)> {
    match token
    case E => var public := Key(Point(keys.e)); Some(([public], y.MixHash(public).MixKey(public)))
    case S =>
      var cipher := y.Encrypted(Key(Point(keys.s)));
      Some(([cipher], y.MixHash(cipher)))
    case PreShared => Some(([], y.MixKeyAndHash(keys.psk)))
    case _ =>
      var dh := DhOf(token, keys);
      if dh == None then None else Some(([], y.MixKey(dh.value)))
  }

  function WriteTokens(tokens: seq<Token>, keys: Keys, y: Symmetric): Option<(seq<Term>, Symmetric)> {
    if tokens == [] then Some(([], y))
    else
      var first := WriteToken(tokens[0], keys, y);
      if first == None then None
      else
        var rest := WriteTokens(tokens[1..], keys, first.value.1);
        if rest == None then None else Some((first.value.0 + rest.value.0, rest.value.1))
  }

  /** WriteMessage: the tokens, then the payload. */
  function WriteMessage(tokens: seq<Token>, payload: Term, keys: Keys, y: Symmetric): Option<(seq<Term>, Symmetric)> {
    var r := WriteTokens(tokens, keys, y);
    if r == None then None
    else
      var cipher := r.value.1.Encrypted(payload);
      Some((r.value.0 + [cipher], r.value.1.MixHash(cipher)))
  }

  /** IKpsk2: the responder's static key is known before; `-> e, es, s, ss`; `<- e, ee, se, psk`. */
  const FIRST := [E, ES, S, SS]
  const SECOND := [E, EE, SE, PreShared]

  function Initialized(rs: PublicKey): Symmetric {
    Symmetric(InitialHash, InitialChainKey, Nothing).MixHash(Key(rs))
  }

  lemma NextToken(a: Token, rest: seq<Token>, keys: Keys, y: Symmetric)
    ensures WriteTokens([a] + rest, keys, y) ==
      var first := WriteToken(a, keys, y);
      if first == None then None
      else
        var after := WriteTokens(rest, keys, first.value.1);
        if after == None then None else Some((first.value.0 + after.value.0, after.value.1))
  {
    assert ([a] + rest)[1..] == rest;
  }

  lemma OneToken(a: Token, keys: Keys, y: Symmetric)
    ensures WriteTokens([a], keys, y) == WriteToken(a, keys, y)
  {
    hide WriteToken;
    var r := WriteToken(a, keys, y);
    assert [a][1..] == [];
    if r.Some? {
      assert WriteTokens([], keys, r.value.1) == Some(([], r.value.1));
      assert r.value.0 + [] == r.value.0;
      assert (r.value.0, r.value.1) == r.value;
    }
  }

  lemma FourTokens(a: Token, b: Token, c: Token, d: Token, keys: Keys, y: Symmetric)
    ensures WriteTokens([a, b, c, d], keys, y) ==
      var r1 := WriteToken(a, keys, y);
      if r1 == None then None else
      var r2 := WriteToken(b, keys, r1.value.1);
      if r2 == None then None else
      var r3 := WriteToken(c, keys, r2.value.1);
      if r3 == None then None else
      var r4 := WriteToken(d, keys, r3.value.1);
      if r4 == None then None else
        Some((r1.value.0 + (r2.value.0 + (r3.value.0 + r4.value.0)), r4.value.1))
  {
    hide WriteToken, WriteTokens;
    assert [a, b, c, d] == [a] + [b, c, d] && [b, c, d] == [b] + [c, d] && [c, d] == [c] + [d];
    NextToken(a, [b, c, d], keys, y);
    var r1 := WriteToken(a, keys, y);
    if r1.Some? {
      NextToken(b, [c, d], keys, r1.value.1);
      var r2 := WriteToken(b, keys, r1.value.1);
      if r2.Some? {
        NextToken(c, [d], keys, r2.value.1);
        var r3 := WriteToken(c, keys, r2.value.1);
        if r3.Some? {
          OneToken(d, keys, r3.value.1);
        }
      }
    }
  }

  /** The initiation is the first message of the pattern. */
  lemma InitiationIsFirst(keys: Keys, now: nat)
    requires keys.initiator
    ensures var es, ss := SharedSecret(keys.e, keys.rs), SharedSecret(keys.s, keys.rs);
      WriteMessage(FIRST, Time(now), keys, Initialized(keys.rs)) == None <==> es == None || ss == None
    ensures var es, ss := SharedSecret(keys.e, keys.rs), SharedSecret(keys.s, keys.rs);
      es.Some? && ss.Some? ==>
        var r := WriteMessage(FIRST, Time(now), keys, Initialized(keys.rs));
        var (body, t) := Initiate(Point(keys.s), keys.rs, keys.e, es.value, ss.value, now);
        && r.Some? && r.value.0 == [Key(body.ephemeral), body.identity, body.timestamp]
        && r.value.1.Values() == t
  {
    FourTokens(E, ES, S, SS, keys, Initialized(keys.rs));
  }

  /** The response is the second message, whatever the cipher's key was before. */
  lemma ResponseIsSecond(keys: Keys, t: Transcript, k: Term)
    requires !keys.initiator
    ensures var ee, se := SharedSecret(keys.e, keys.re), SharedSecret(keys.e, keys.rs);
      WriteMessage(SECOND, Nothing, keys, Symmetric(t.hash, t.chainKey, k)) == None <==> ee == None || se == None
    ensures var ee, se := SharedSecret(keys.e, keys.re), SharedSecret(keys.e, keys.rs);
      ee.Some? && se.Some? ==>
        var r := WriteMessage(SECOND, Nothing, keys, Symmetric(t.hash, t.chainKey, k));
        var (empty, done) := Respond(t, Point(keys.e), ee.value, se.value, keys.psk);
        r.Some? && r.value.0 == [Key(Point(keys.e)), empty] && r.value.1.Values() == done
  {
    FourTokens(E, EE, SE, PreShared, keys, Symmetric(t.hash, t.chainKey, k));
  }

  /** Split: the initiator sends under the first of the two keys and receives under the second. */
  lemma SplitIs(ck: Term)
    ensures Derive(ck, true) == SessionKeys(Kdf(1, ck, Nothing), Kdf(2, ck, Nothing))
    ensures Derive(ck, false) == SessionKeys(Kdf(2, ck, Nothing), Kdf(1, ck, Nothing))
  {
  }
}
