/**
 * Nonces under interleaving: wireguard-go/device/send.go, lines 343-370, with the expiry of
 * wireguard-go/device/peer.go, lines 248-256.
 */
module Nonce {
  import opened Limits
  import opened Sequences
  import opened Words

  /** How many senders the slack above the limit has room for. */
  const SLACK: nat := 0x2000

  /** The counter of one keypair, the senders that have gone over the limit and not yet put the counter back,
      and the nonces given out, in order. */
  datatype State = State(counter: nat, over: set<nat>, issued: seq<nat>)

  /**
   * The atomic operations on the counter: a sender's Add, its Store when the nonce was over the limit, and key expiry.
   */
  datatype Step = Add(sender: nat) | Store(sender: nat) | Expire

  const START := State(0, {}, [])

  predicate Enabled(s: State, step: Step, senders: nat) {
    match step
    case Add(t) => t < senders && t !in s.over
    case Store(t) => t in s.over
    case Expire => true
  }

  function Do(s: State, step: Step): State {
    match step
    case Add(t) =>
      var nonce, counter := s.counter, (s.counter + 1) % TWO64;
      if nonce >= REJECT_AFTER_MESSAGES then State(counter, s.over + {t}, s.issued)
      else State(counter, s.over, s.issued + [nonce])
    case Store(t) => State(REJECT_AFTER_MESSAGES, s.over - {t}, s.issued)
    case Expire => State(REJECT_AFTER_MESSAGES, s.over, s.issued)
  }

  function Run(s: State, steps: seq<Step>): State
    decreases |steps|
  {
    if steps == [] then s else Run(Do(s, steps[0]), steps[1..])
  }

  /** The senders can take these steps in this order. */
  predicate Runs(s: State, steps: seq<Step>, senders: nat)
    decreases |steps|
  {
    steps != [] ==> Enabled(s, steps[0], senders) && Runs(Do(s, steps[0]), steps[1..], senders)
  }

  ghost predicate Senders(over: set<nat>, senders: nat) {
    forall t :: t in over ==> t < senders
  }

  /** The counter is past the limit by at most the senders that have yet to put it back. */
  ghost predicate Inv(s: State, senders: nat) {
    && Senders(s.over, senders)
    && s.counter <= REJECT_AFTER_MESSAGES + |s.over| && s.counter < TWO64
    && (s.over != {} ==> s.counter >= REJECT_AFTER_MESSAGES)
    && Increasing(s.issued)
      && forall k :: 0 <= k < |s.issued| ==> s.issued[k] < s.counter && s.issued[k] < REJECT_AFTER_MESSAGES
  }

  /** With one sender more than the slack the counter may wrap, but only while no sender is left to use it. */
  ghost predicate Wrapped(s: State, senders: nat) {
    && Senders(s.over, senders) && |s.over| == senders == SLACK + 1 && s.counter == 0
    && Increasing(s.issued) && forall k :: 0 <= k < |s.issued| ==> s.issued[k] < REJECT_AFTER_MESSAGES
  }

  lemma {:induction false} SendersBound(over: set<nat>, senders: nat)
    requires Senders(over, senders)
    ensures |over| <= senders
  {
    if senders == 0 {
      assert over == {};
    } else {
      var rest := over - {senders - 1};
      SendersBound(rest, senders - 1);
      assert over == rest || over == rest + {senders - 1};
    }
  }

  lemma {:induction false} Full(over: set<nat>, senders: nat)
    requires Senders(over, senders) && |over| == senders
    ensures forall t: nat :: t < senders ==> t in over
  {
    if senders > 0 {
      var rest := over - {senders - 1};
      SendersBound(rest, senders - 1);
      assert over == rest || over == rest + {senders - 1};
      assert senders - 1 in over;
      Full(rest, senders - 1);
    }
  }

  lemma StepKeeps(s: State, step: Step, senders: nat)
    requires Inv(s, senders) && Enabled(s, step, senders) && senders <= SLACK + 1
    ensures Inv(Do(s, step), senders) || Wrapped(Do(s, step), senders)
    ensures senders <= SLACK ==> Inv(Do(s, step), senders) && (step.Add? ==> Do(s, step).counter == s.counter + 1)
  {
    if step.Add? {
      SendersBound(s.over + {step.sender}, senders);
      assert |s.over + {step.sender}| == |s.over| + 1;
      assert senders <= SLACK ==> s.counter + 1 < TWO64;
    } else if step.Store? {
      assert |s.over - {step.sender}| == |s.over| - 1;
    }
  }

  lemma WrappedSteps(s: State, step: Step, senders: nat)
    requires Wrapped(s, senders) && Enabled(s, step, senders)
    ensures Inv(Do(s, step), senders)
  {
    Full(s.over, senders);
  }

  /** In every interleaving of at most one sender more than the slack, with expiry at any time, no nonce below the limit
      is given out twice: they come out in increasing order. */
  lemma {:induction false} NoReuse(s: State, steps: seq<Step>, senders: nat)
    requires (Inv(s, senders) || Wrapped(s, senders)) && Runs(s, steps, senders) && senders <= SLACK + 1
    ensures Inv(Run(s, steps), senders) || Wrapped(Run(s, steps), senders)
    ensures Increasing(Run(s, steps).issued)
      && forall k :: 0 <= k < |Run(s, steps).issued| ==> Run(s, steps).issued[k] < REJECT_AFTER_MESSAGES
    decreases |steps|
  {
    if steps != [] {
      if Inv(s, senders) {
        StepKeeps(s, steps[0], senders);
      } else {
        WrappedSteps(s, steps[0], senders);
      }
      NoReuse(Do(s, steps[0]), steps[1..], senders);
    }
  }

  /** With no more senders than the slack the counter never wraps either. */
  lemma {:induction false} NoWrap(s: State, steps: seq<Step>, senders: nat)
    requires Inv(s, senders) && Runs(s, steps, senders) && senders <= SLACK
    ensures Inv(Run(s, steps), senders) && Run(s, steps).counter <= REJECT_AFTER_MESSAGES + |Run(s, steps).over| < TWO64
    decreases |steps|
  {
    SendersBound(s.over, senders);
    if steps != [] {
      StepKeeps(s, steps[0], senders);
      NoWrap(Do(s, steps[0]), steps[1..], senders);
    }
  }

  /** The Adds of senders `from` up to `end`. */
  function Adds(from: nat, end: nat): (r: seq<Step>)
    requires from <= end
    ensures |r| == end - from && forall i: nat :: i < |r| ==> r[i] == Add(from + i)
  {
    seq(end - from, i requires 0 <= i => Add(from + i))
  }

  lemma {:induction false} AddsRun(s: State, from: nat, end: nat, senders: nat)
    requires from <= end <= senders && (forall t :: t in s.over ==> t < from)
    requires s.counter < TWO64
      && (from < end ==> REJECT_AFTER_MESSAGES <= s.counter && s.counter + (end - from) <= TWO64)
    ensures Runs(s, Adds(from, end), senders)
    ensures var r := Run(s, Adds(from, end));
            && r.counter == (s.counter + (end - from)) % TWO64 && r.issued == s.issued
            && forall t :: t in r.over ==> t < end
    decreases end - from
  {
    if from < end {
      assert Adds(from, end)[1..] == Adds(from + 1, end);
      AddsRun(Do(s, Add(from)), from + 1, end, senders);
    }
  }

  lemma {:induction false} RunConcat(s: State, a: seq<Step>, b: seq<Step>, senders: nat)
    ensures Run(s, a + b) == Run(Run(s, a), b)
    ensures Runs(s, a + b, senders) <==> Runs(s, a, senders) && Runs(Run(s, a), b, senders)
    decreases |a|
  {
    if a == [] {
      assert a + b == b;
    } else {
      assert (a + b)[1..] == a[1..] + b;
      RunConcat(Do(s, a[0]), a[1..], b, senders);
    }
  }

  /** Two senders more than the slack are enough to use a nonce twice. */
  function Reuse(): seq<Step> {
    [Add(0), Expire] + (Adds(0, SLACK + 1) + [Add(SLACK + 1)])
  }

  lemma ReuseRuns(senders: nat)
    requires senders >= SLACK + 2
    ensures Runs(START, Reuse(), senders) && Run(START, Reuse()).issued == [0, 0]
  {
    var s := Do(Do(START, Add(0)), Expire);
    var first, adds, last := [Add(0), Expire], Adds(0, SLACK + 1), [Add(SLACK + 1)];
    assert first[1..] == [Expire] && first[1..][1..] == [];
    assert Run(START, first) == s && Runs(START, first, senders);
    AddsRun(s, 0, SLACK + 1, senders);
    var w := Run(s, adds);
    assert last[1..] == [];
    assert w.counter == 0 && Runs(w, last, senders) && Run(w, last).issued == [0, 0];
    RunConcat(s, adds, last, senders);
    RunConcat(START, first, adds + last, senders);
  }

  /**
   * The limit's slack is exactly right: nonces are unique in every run if and only if there are at most 8193 senders.
   */
  lemma UniqueExactly(senders: nat)
    ensures (forall steps :: Runs(START, steps, senders) ==> Increasing(Run(START, steps).issued)) <==>
      senders <= SLACK + 1
  {
    hide Reuse, Run, Runs;
    if senders <= SLACK + 1 {
      forall steps | Runs(START, steps, senders)
        ensures Increasing(Run(START, steps).issued)
      {
        NoReuse(START, steps, senders);
      }
    } else {
      ReuseRuns(senders);
      var twice := Run(START, Reuse()).issued;
      assert twice[0] == twice[1] && !Increasing(twice);
    }
  }
}
