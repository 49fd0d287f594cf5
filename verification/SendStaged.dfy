/** Draining the staged queue of a peer: wireguard-go/device/send.go, lines 318-417. */
module SendStaged {
  import opened Limits
  import opened Sequences

  const QUEUE_STAGED_SIZE := 128

  type Elem = nat

  /** An element with the nonce it is to be encrypted under. */
  datatype Numbered = Numbered(elem: Elem, nonce: nat)

  /** Elements numbered from `first` on. */
  function NumberFrom(s: seq<Elem>, first: nat): (r: seq<Numbered>)
    ensures |r| == |s| && forall i :: 0 <= i < |r| ==> r[i] == Numbered(s[i], first + i)
  {
    seq(|s|, i requires 0 <= i < |s| => Numbered(s[i], first + i))
  }

  lemma NumberConcat(a: seq<Elem>, b: seq<Elem>, first: nat)
    ensures NumberFrom(a + b, first) == NumberFrom(a, first) + NumberFrom(b, first + |a|)
  {
  }

  /** What has gone to the two queues so far, and what was freed. */
  datatype Sent = Sent(outbound: seq<seq<Numbered>>, encryption: seq<seq<Numbered>>, freed: seq<Elem>) {
    /** After one container more, for a peer that is running or not. */
    function After(kept: seq<Numbered>, isRunning: bool): Sent {
      if isRunning then Sent(outbound + [kept], encryption + [kept], freed)
      else Sent(outbound, encryption, freed + Elems(kept))
    }
  }

  function Elems(s: seq<Numbered>): (r: seq<Elem>)
    ensures |r| == |s| && forall i :: 0 <= i < |r| ==> r[i] == s[i].elem
  {
    seq(|s|, i requires 0 <= i < |s| => s[i].elem)
  }

  /** Of the containers that were numbered, those with something in them that found the peer running, or not. */
  ghost function Chosen(took: seq<seq<Numbered>>, stopped: set<nat>, runs: bool): seq<seq<Numbered>> {
    if took == [] then []
    else
      var n, before := |took| - 1, Chosen(took[..|took| - 1], stopped, runs);
      if took[n] != [] && (n !in stopped) == runs then before + [took[n]] else before
  }

  lemma ChosenAdd(took: seq<seq<Numbered>>, c: seq<Numbered>, stopped: set<nat>, runs: bool)
    ensures var before := Chosen(took, stopped, runs);
      Chosen(took + [c], stopped, runs) == if c != [] && (|took| !in stopped) == runs then before + [c] else before
  {
    assert (took + [c])[..|took|] == took;
  }

  /** One of two parts grows as the whole does. */
  lemma Shuffle<T>(whole: seq<T>, a: seq<T>, b: seq<T>, more: seq<T>)
    requires multiset(whole) == multiset(a) + multiset(b)
    ensures multiset(whole + more) == multiset(a + more) + multiset(b)
    ensures multiset(whole + more) == multiset(a) + multiset(b + more)
  {
  }

  /** Everything that was numbered was sent or freed, and only once. */
  lemma {:induction false} SentOrFreed(took: seq<seq<Numbered>>, stopped: set<nat>)
    ensures multiset(Flat(took))
      == multiset(Flat(Chosen(took, stopped, true))) + multiset(Flat(Chosen(took, stopped, false)))
  {
    if took != [] {
      var n := |took| - 1;
      var init := took[..n];
      SentOrFreed(init, stopped);
      assert took == init + [took[n]];
      hide Flat, Chosen;
      ChosenAdd(init, took[n], stopped, true);
      ChosenAdd(init, took[n], stopped, false);
      FlatAdd(init, took[n]);
      FlatAdd(Chosen(init, stopped, true), took[n]);
      FlatAdd(Chosen(init, stopped, false), took[n]);
      Shuffle(Flat(init), Flat(Chosen(init, stopped, true)), Flat(Chosen(init, stopped, false)), took[n]);
      assert took[n] == [] ==> Flat(init) + took[n] == Flat(init);
    }
  }

  lemma FlatAdd(s: seq<seq<Numbered>>, c: seq<Numbered>)
    ensures Flat(s + [c]) == Flat(s) + c
  {
    FlatConcat(s, [c]);
    FlatOne(c);
  }

  /** Element by element. */
  lemma {:induction false} ElemsSentOrFreed(took: seq<seq<Numbered>>, stopped: set<nat>)
    ensures multiset(Elems(Flat(took))) == multiset(Elems(Flat(Chosen(took, stopped, true))))
      + multiset(Elems(Flat(Chosen(took, stopped, false))))
  {
    if took != [] {
      var n := |took| - 1;
      var init := took[..n];
      ElemsSentOrFreed(init, stopped);
      assert took == init + [took[n]];
      hide Flat, Elems, Chosen;
      ChosenAdd(init, took[n], stopped, true);
      ChosenAdd(init, took[n], stopped, false);
      ElemsAdd(init, took[n]);
      ElemsAdd(Chosen(init, stopped, true), took[n]);
      ElemsAdd(Chosen(init, stopped, false), took[n]);
      Shuffle(Elems(Flat(init)), Elems(Flat(Chosen(init, stopped, true))), Elems(Flat(Chosen(init, stopped, false))),
        Elems(took[n]));
      ElemsNone();
      assert took[n] == [] ==> Elems(Flat(init)) + Elems(took[n]) == Elems(Flat(init));
    }
  }

  lemma ElemsAdd(s: seq<seq<Numbered>>, c: seq<Numbered>)
    ensures Elems(Flat(s + [c])) == Elems(Flat(s)) + Elems(c)
  {
    FlatAdd(s, c);
    ElemsConcat(Flat(s), c);
  }

  lemma ElemsNone()
    ensures Elems([]) == []
  {
  }

  lemma NumberedElems(s: seq<Elem>, first: nat)
    ensures Elems(NumberFrom(s, first)) == s
  {
  }

  /** A peer that is running all the while sends everything. */
  lemma {:induction false} NoneFreed(took: seq<seq<Numbered>>)
    ensures Chosen(took, {}, false) == [] && Flat(Chosen(took, {}, true)) == Flat(took)
  {
    if took != [] {
      var n := |took| - 1;
      NoneFreed(took[..n]);
      assert took == took[..n] + [took[n]];
      hide Flat;
      FlatAdd(took[..n], took[n]);
      FlatAdd(Chosen(took[..n], {}, true), took[n]);
    }
  }

  lemma ElemsConcat(a: seq<Numbered>, b: seq<Numbered>)
    ensures Elems(a + b) == Elems(a) + Elems(b)
  {
  }

  /** What has left the queue, against what was in the two queues and freed before. */
  ghost predicate SentTo(now: Sent, nonce: nat, sent: seq<Elem>, first: nat, took: seq<seq<Numbered>>,
                         stopped: set<nat>, was: Sent) {
    && nonce == first + |sent| && Flat(took) == NumberFrom(sent, first)
    && now.outbound == was.outbound + Chosen(took, stopped, true)
    && now.encryption == was.encryption + Chosen(took, stopped, true)
    && now.freed == was.freed + Elems(Flat(Chosen(took, stopped, false)))
  }

  /** A container more, which went to both queues or was freed. */
  lemma SentGrows(now: Sent, sent: seq<Elem>, more: seq<Elem>, first: nat, took: seq<seq<Numbered>>,
                  kept: seq<Numbered>, stopped: set<nat>, was: Sent)
    requires SentTo(now, first + |sent|, sent, first, took, stopped, was) && kept == NumberFrom(more, first + |sent|)
    ensures SentTo(if kept == [] then now else now.After(kept, |took| !in stopped), first + |sent| + |more|,
      sent + more, first, took + [kept], stopped, was)
  {
    hide Flat, Chosen, Elems, NumberFrom;
    NumberConcat(sent, more, first);
    TookMore(took, kept, stopped);
  }

  lemma TookMore(took: seq<seq<Numbered>>, kept: seq<Numbered>, stopped: set<nat>)
    ensures Flat(took + [kept]) == Flat(took) + kept
    ensures Chosen(took + [kept], stopped, true)
      == Chosen(took, stopped, true) + if kept != [] && |took| !in stopped then [kept] else []
    ensures Elems(Flat(Chosen(took + [kept], stopped, false)))
      == Elems(Flat(Chosen(took, stopped, false))) + if kept != [] && |took| in stopped then Elems(kept) else []
  {
    hide Flat, Chosen;
    FlatAdd(took, kept);
    ChosenAdd(took, kept, stopped, true);
    ChosenAdd(took, kept, stopped, false);
    assert kept == [] ==> Elems(kept) == [];
    FlatAdd(Chosen(took, stopped, false), kept);
    ElemsConcat(Flat(Chosen(took, stopped, false)), kept);
  }

  class Peer {
    /** The staged containers, oldest first; a bounded channel. */
    var staged: seq<seq<Elem>>
    /** Whether there is a current keypair, and its counter. */
    const hasKeypair: bool
    var sendNonce: nat
    /** What has gone to the sequential sender and to the encryption workers, and what was freed instead. */
    var outbound: seq<seq<Numbered>>
    var encryption: seq<seq<Numbered>>
    var freed: seq<Elem>
    var handshakes: nat

    constructor (hasKeypair: bool, sendNonce: nat)
      ensures this.hasKeypair == hasKeypair && this.sendNonce == sendNonce && handshakes == 0
      ensures staged == [] && outbound == [] && encryption == [] && freed == []
    {
      this.hasKeypair, this.sendNonce, handshakes := hasKeypair, sendNonce, 0;
      staged, outbound, encryption, freed := [], [], [], [];
    }

    /** Lines 318-335: the oldest container makes room for a new one. */
    method StagePackets(elems: seq<Elem>)
      requires |staged| <= QUEUE_STAGED_SIZE
      modifies this`staged, this`freed
      ensures if old(|staged|) < QUEUE_STAGED_SIZE then staged == old(staged) + [elems] && freed == old(freed)
              else staged == old(staged)[1..] + [elems] && freed == old(freed) + old(staged)[0]
    {
      while |staged| >= QUEUE_STAGED_SIZE
        invariant |staged| <= QUEUE_STAGED_SIZE
        invariant |staged| == old(|staged|) ==> staged == old(staged) && freed == old(freed)
        invariant |staged| != old(|staged|) ==>
          old(|staged|) == QUEUE_STAGED_SIZE && staged == old(staged)[1..] && freed == old(freed) + old(staged)[0]
      {
        freed := freed + staged[0];
        staged := staged[1..];
      }
      staged := staged + [elems];
    }

    /** Lines 404-417: everything staged is freed, in order. */
    method FlushStagedPackets()
      modifies this`staged, this`freed
      ensures staged == [] && freed == old(freed) + Flat(old(staged))
    {
      while staged != []
        invariant freed + Flat(staged) == old(freed) + Flat(old(staged))
      {
        freed := freed + staged[0];
        staged := staged[1..];
      }
    }

    /** Lines 353-372: the elements of a container are numbered, and those over the limit are set aside. */
    method NumberElems(elems: seq<Elem>) returns (kept: seq<Numbered>, outOfOrder: seq<Elem>)
      requires sendNonce <= REJECT_AFTER_MESSAGES
      modifies this`sendNonce
      ensures |kept| <= |elems| && elems == elems[..|kept|] + outOfOrder
        && kept == NumberFrom(elems[..|kept|], old(sendNonce))
      ensures sendNonce == old(sendNonce) + |kept| <= REJECT_AFTER_MESSAGES
      ensures outOfOrder != [] ==> sendNonce == REJECT_AFTER_MESSAGES
    {
      var i := 0;
      var compacted := elems;
      ghost var first := sendNonce;
      kept, outOfOrder := [], [];
      for j := 0 to |elems|
        invariant |compacted| == |elems| && i == |kept| <= j && compacted[..i] == elems[..i]
        invariant sendNonce == first + i <= REJECT_AFTER_MESSAGES && kept == NumberFrom(elems[..i], first)
        invariant elems[..j] == elems[..i] + outOfOrder && (outOfOrder != [] ==> sendNonce == REJECT_AFTER_MESSAGES)
      {
        var elem := elems[j];
        var nonce := sendNonce;
        sendNonce := sendNonce + 1;
        if nonce >= REJECT_AFTER_MESSAGES {
          sendNonce := REJECT_AFTER_MESSAGES;
          outOfOrder := outOfOrder + [elem];
        } else {
          assert outOfOrder == [] && i == j;
          compacted := compacted[i := elem];
          kept := kept + [Numbered(elem, nonce)];
          i := i + 1;
        }
      }
    }

    /**
     * The queue after some of the containers `cs` have been taken off: `sent` has left it, in order and whole, except
     * that what was over the limit of the last container is now at the back.
     */
    ghost predicate Drained(cs: seq<seq<Elem>>, j: nat, sent: seq<Elem>, rest: seq<Elem>)
      reads this`staged, this`sendNonce
    {
      && j <= |cs|
      && if rest == [] then
           staged == cs[j..] && sent == Flat(cs[..j])
         else
           && j > 0 && staged == cs[j..] + [rest] && sendNonce == REJECT_AFTER_MESSAGES
           && |rest| <= |cs[j - 1]| && var whole := |cs[j - 1]| - |rest|;
           cs[j - 1][whole..] == rest && sent == Flat(cs[..j - 1]) + cs[j - 1][..whole]
    }

    /**
     * What has left the queue is numbered in order from `first` on, as the containers `took`; those that found the peer
     * running are in both queues, and the elements of the others were freed.
     */
    ghost predicate SentAs(sent: seq<Elem>, first: nat, took: seq<seq<Numbered>>, stopped: set<nat>, was: Sent)
      reads this`outbound, this`encryption, this`freed, this`sendNonce
    {
      SentTo(Before(), sendNonce, sent, first, took, stopped, was)
    }

    ghost function Before(): Sent
      reads this`outbound, this`encryption, this`freed
    {
      Sent(outbound, encryption, freed)
    }

    /** Lines 380-391: the container goes to both queues, or a peer that is being stopped frees it. */
    method Dispatch(kept: seq<Numbered>, isRunning: bool)
      modifies this`outbound, this`encryption, this`freed
      ensures Before() == old(Before()).After(kept, isRunning)
    {
      if isRunning {
        outbound := outbound + [kept];
        encryption := encryption + [kept];
      } else {
        for i := 0 to |kept|
          invariant outbound == old(outbound) && encryption == old(encryption)
          invariant freed == old(freed) + Elems(kept[..i])
        {
          assert kept[..i + 1] == kept[..i] + [kept[i]];
          ElemsConcat(kept[..i], [kept[i]]);
          freed := freed + [kept[i].elem];
        }
        assert kept[..|kept|] == kept;
      }
    }

    /** Lines 352-397: one container is taken off the queue. */
    method SendOne(isRunning: bool, ghost cs: seq<seq<Elem>>, ghost sent: seq<Elem>, ghost first: nat,
                   ghost took: seq<seq<Numbered>>, ghost stopped: set<nat>, ghost was: Sent)
      returns (again: bool, ghost sent': seq<Elem>, ghost rest: seq<Elem>, ghost took': seq<seq<Numbered>>)
      requires staged != [] && |staged| <= QUEUE_STAGED_SIZE && sendNonce <= REJECT_AFTER_MESSAGES
      requires Drained(cs, |took|, sent, []) && SentAs(sent, first, took, stopped, was)
      requires isRunning <==> |took| !in stopped
      modifies this`staged, this`sendNonce, this`outbound, this`encryption, this`freed
      ensures |took| < |cs| && |took'| == |took| + 1 && Drained(cs, |took'|, sent', rest)
        && SentAs(sent', first, took', stopped, was)
      ensures sendNonce <= REJECT_AFTER_MESSAGES && |staged| <= old(|staged|) && (rest != [] ==> again)
      ensures rest == [] ==> |staged| < old(|staged|)
    {
      hide Flat, Chosen, Elems, NumberFrom, SentTo;
      NonceIs(sent, first, took, stopped, was);
      ghost var before := Before();
      var elems := staged[0];
      staged := staged[1..];
      var kept, outOfOrder := NumberElems(elems);
      if outOfOrder != [] {
        StagePackets(outOfOrder);
      }
      rest := outOfOrder;
      sent' := sent + elems[..|kept|];
      took' := took + [kept];
      SentMore(cs, |took|, sent, |kept|);
      SentGrows(before, sent, elems[..|kept|], first, took, kept, stopped, was);
      if |kept| == 0 {
        again := true;
      } else {
        Dispatch(kept, isRunning);
        again := outOfOrder != [];
      }
    }

    lemma NonceIs(sent: seq<Elem>, first: nat, took: seq<seq<Numbered>>, stopped: set<nat>, was: Sent)
      requires SentAs(sent, first, took, stopped, was)
      ensures sendNonce == first + |sent|
    {
    }

    lemma SentMore(cs: seq<seq<Elem>>, j: nat, sent: seq<Elem>, n: nat)
      requires j < |cs| && sent == Flat(cs[..j]) && n <= |cs[j]|
      ensures n == |cs[j]| ==> sent + cs[j][..n] == Flat(cs[..j + 1])
    {
      assert cs[..j + 1] == cs[..j] + [cs[j]];
      FlatConcat(cs[..j], [cs[j]]);
      FlatOne(cs[j]);
      assert cs[j][..|cs[j]|] == cs[j];
    }

    /** What was staged is what was sent and what is still staged. */
    lemma NothingLost(cs: seq<seq<Elem>>, j: nat, sent: seq<Elem>, rest: seq<Elem>)
      requires Drained(cs, j, sent, rest)
      ensures multiset(Flat(cs)) == multiset(sent) + multiset(Flat(staged))
    {
      hide Flat;
      assert cs == cs[..j] + cs[j..];
      FlatConcat(cs[..j], cs[j..]);
      if rest != [] {
        var last := cs[j - 1];
        var whole := |last| - |rest|;
        assert cs[..j] == cs[..j - 1] + [last] && last == last[..whole] + rest;
        FlatConcat(cs[..j - 1], [last]);
        FlatOne(last);
        FlatConcat(cs[j..], [rest]);
        FlatOne(rest);
      }
    }

    /** What was given a nonce was sent or freed: every element once. */
    lemma AllAccounted(sent: seq<Elem>, first: nat, took: seq<seq<Numbered>>, stopped: set<nat>, was: Sent)
      requires SentAs(sent, first, took, stopped, was)
      ensures |was.outbound| <= |outbound| && |was.freed| <= |freed|
      ensures multiset(sent)
        == multiset(Elems(Flat(outbound[|was.outbound|..]))) + multiset(freed[|was.freed|..])
    {
      ElemsSentOrFreed(took, stopped);
      NumberedElems(sent, first);
      assert outbound[|was.outbound|..] == Chosen(took, stopped, true);
      assert freed[|was.freed|..] == Elems(Flat(Chosen(took, stopped, false)));
    }

    /**
     * Lines 337-402, run to the end: it comes to one. Every element that leaves the queue gets the next nonce, in the
     * order staged, and is sent, once, unless its container finds the peer being stopped, as the containers numbered
     * in `stopped` do; the others are still staged, and none is lost. Something stays behind only when the device is
     * down or a new handshake is called for, because there is no keypair, or it is used up, or it is too old, as the
     * clock says from the test numbered `young` on.
     */
    method SendStagedPackets(isUp: bool, young: nat, stopped: set<nat>)
      returns (ghost took: seq<seq<Numbered>>, ghost sent: seq<Elem>, ghost rest: seq<Elem>)
      requires |staged| <= QUEUE_STAGED_SIZE
      modifies this`staged, this`sendNonce, this`outbound, this`encryption, this`freed, this`handshakes
      ensures Drained(old(staged), |took|, sent, rest)
      ensures SentAs(sent, old(sendNonce), took, stopped, old(Before()))
      ensures |old(outbound)| <= |outbound| && |old(freed)| <= |freed|
      ensures multiset(sent)
        == multiset(Elems(Flat(outbound[|old(outbound)|..]))) + multiset(freed[|old(freed)|..])
      ensures !isUp || !hasKeypair || young == 0 || old(sendNonce) >= REJECT_AFTER_MESSAGES ==>
        sent == [] && staged == old(staged)
      ensures handshakes == old(handshakes) + if isUp && staged != [] then 1 else 0
      ensures isUp && staged != [] ==> !hasKeypair || sendNonce >= REJECT_AFTER_MESSAGES || young <= |took|
    {
      ghost var cs, first, was := staged, sendNonce, Before();
      var tests, taken := 0, 0;
      took, sent, rest := [], [], [];
      while true
        invariant |staged| <= QUEUE_STAGED_SIZE && handshakes == old(handshakes) && tests <= taken == |took|
        invariant Drained(cs, |took|, sent, rest) && SentAs(sent, first, took, stopped, was)
        invariant !isUp || !hasKeypair || young == 0 || first >= REJECT_AFTER_MESSAGES ==>
          took == [] && sent == [] && rest == []
        decreases if sendNonce < REJECT_AFTER_MESSAGES then 1 else 0, |staged|
      {
        if |staged| == 0 || !isUp {
          AllAccounted(sent, first, took, stopped, was);
          return;
        }
        if !hasKeypair || sendNonce >= REJECT_AFTER_MESSAGES || tests >= young {
          handshakes := handshakes + 1;
          AllAccounted(sent, first, took, stopped, was);
          return;
        }
        tests := tests + 1;
        var again := false;
        ghost var size := |staged|;
        while !again
          invariant |staged| <= QUEUE_STAGED_SIZE && handshakes == old(handshakes) && sendNonce <= REJECT_AFTER_MESSAGES
          invariant Drained(cs, |took|, sent, rest) && SentAs(sent, first, took, stopped, was) && (rest != [] ==> again)
          invariant taken == |took| && tests <= taken + 1 && (again ==> tests <= taken)
          invariant rest == [] ==> |staged| + (if again then 1 else 0) <= size
          decreases |staged| + if again then 0 else 1
        {
          if |staged| == 0 {
            AllAccounted(sent, first, took, stopped, was);
            return;
          }
          again, sent, rest, took := SendOne(taken !in stopped, cs, sent, first, took, stopped, was);
          taken := taken + 1;
        }
      }
    }
  }
}
