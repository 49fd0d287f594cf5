/**
 * The token-bucket limiter of wireguard-go/ratelimiter/ratelimiter.go, with its garbage collection. Times are in
 * nanoseconds.
 */
module RateLimiter {
  import opened Options

  const PACKET_COST := 50_000_000
  const MAX_TOKENS := 5 * PACKET_COST
  const GARBAGE_COLLECT_TIME := 1_000_000_000

  type Addr = nat

  datatype Entry = Entry(lastTime: int, tokens: int)

  /** Lines 107-136 for one address: the answer, and the entry left behind. */
  function Decide(e: Option<Entry>, now: int): (bool, Entry) {
    match e
    case None => (true, Entry(now, MAX_TOKENS - PACKET_COST))
    case Some(Entry(last, tokens)) =>
      var refilled := tokens + (now - last);
      var capped := if refilled > MAX_TOKENS then MAX_TOKENS else refilled;
      if capped > PACKET_COST then (true, Entry(now, capped - PACKET_COST)) else (false, Entry(now, capped))
  }

  function Get(m: map<Addr, Entry>, ip: Addr): Option<Entry> {
    if ip in m then Some(m[ip]) else None
  }

  /** A bucket is never overdrawn nor over-full. */
  predicate InRange(e: Entry) {
    0 <= e.tokens <= MAX_TOKENS
  }

  /** A bucket that has not been used for the collection time is as good as a new one. */
  lemma IdleIsNew(e: Entry, now: int)
    requires InRange(e) && now - e.lastTime > GARBAGE_COLLECT_TIME
    ensures Decide(Some(e), now) == Decide(None, now)
  {
  }

  class Limiter {
    var table: map<Addr, Entry>
    /** The table of a limiter that never forgets, and the last time read from the clock. */
    ghost var ideal: map<Addr, Entry>
    ghost var clock: int

    constructor (now: int)
      ensures Valid() && ideal == map[] && clock == now
    {
      table, ideal, clock := map[], map[], now;
    }

    ghost predicate Valid()
      reads this
    {
      && (forall ip :: ip in table ==> ip in ideal && table[ip] == ideal[ip])
      && (forall ip :: ip in ideal ==> InRange(ideal[ip]) && ideal[ip].lastTime <= clock)
      && (forall ip :: ip in ideal && ip !in table ==> clock - ideal[ip].lastTime > GARBAGE_COLLECT_TIME)
    }

    /** Lines 99-137: the answer is that of a limiter that never forgets. */
    method Allow(ip: Addr, now: int) returns (ok: bool)
      requires Valid() && now >= clock
      modifies this
      ensures Valid() && clock == now && (ip !in old(ideal) ==> ok)
      ensures (ok, ideal) == (Decide(Get(old(ideal), ip), now).0, old(ideal)[ip := Decide(Get(old(ideal), ip), now).1])
    {
      ghost var step := Decide(Get(ideal, ip), now);
      if ip in ideal && ip !in table {
        IdleIsNew(ideal[ip], now);
      }
      ideal, clock := ideal[ip := step.1], now;
      if ip !in table {
        table := table[ip := Entry(now, MAX_TOKENS - PACKET_COST)];
        return true;
      }
      var entry := table[ip];
      entry := entry.(tokens := entry.tokens + (now - entry.lastTime));
      entry := entry.(lastTime := now);
      if entry.tokens > MAX_TOKENS {
        entry := entry.(tokens := MAX_TOKENS);
      }
      if entry.tokens > PACKET_COST {
        entry := entry.(tokens := entry.tokens - PACKET_COST);
        ok := true;
      } else {
        ok := false;
      }
      table := table[ip := entry];
    }

    /** Lines 84-97: collecting garbage cannot be observed. */
    method Cleanup(now: int) returns (empty: bool)
      requires Valid() && now >= clock
      modifies this
      ensures Valid() && clock == now && ideal == old(ideal) && (empty <==> table == map[])
      ensures forall ip :: ip in table <==> ip in old(table) && now - old(table)[ip].lastTime <= GARBAGE_COLLECT_TIME
    {
      clock := now;
      var keys := table.Keys;
      ghost var was := table;
      while keys != {}
        invariant keys <= table.Keys <= was.Keys && ideal == old(ideal) && clock == now
        invariant forall ip :: ip in table ==> table[ip] == was[ip]
        invariant forall ip ::
          ip in was && ip !in keys ==> (ip in table <==> now - was[ip].lastTime <= GARBAGE_COLLECT_TIME)
        decreases |keys|
      {
        var key :| key in keys;
        keys := keys - {key};
        if now - table[key].lastTime > GARBAGE_COLLECT_TIME {
          table := table - {key};
        }
      }
      empty := |table| == 0;
    }
  }

  /** What happens to a limiter: a packet from an address, or a round of collecting garbage. */
  datatype Event = Packet(ip: Addr, now: int) | Collect(now: int)

  predicate Ordered(start: int, events: seq<Event>) {
    && (forall i :: 0 <= i < |events| ==> start <= events[i].now)
    && forall i, j :: 0 <= i < j < |events| ==> events[i].now <= events[j].now
  }

  /** What an event makes of the limiter that never forgets. */
  function StepOf(m: map<Addr, Entry>, event: Event): (bool, map<Addr, Entry>) {
    match event
    case Packet(ip, now) => (Decide(Get(m, ip), now).0, m[ip := Decide(Get(m, ip), now).1])
    case Collect(_) => (false, m)
  }

  predicate Sane(m: map<Addr, Entry>, now: int) {
    forall ip :: ip in m ==> InRange(m[ip]) && m[ip].lastTime <= now
  }

  ghost predicate Traced(ms: seq<map<Addr, Entry>>, events: seq<Event>, answers: seq<bool>) {
    && |ms| == |events| + 1 && |answers| == |events|
    && forall k :: 0 <= k < |events| ==>
      Sane(ms[k], events[k].now) && (answers[k], ms[k + 1]) == StepOf(ms[k], events[k])
  }

  /** How many of the packets from `ip` among events `i` to `j` were allowed. */
  function Allowed(events: seq<Event>, answers: seq<bool>, ip: Addr, i: nat, j: nat): nat
    requires i <= j <= |events| == |answers|
  {
    if i == j then 0 else
      var before := Allowed(events, answers, ip, i, j - 1);
      if events[j - 1].Packet? && events[j - 1].ip == ip && answers[j - 1] then before + 1 else before
  }

  /** What an address could spend now. */
  function Credit(m: map<Addr, Entry>, ip: Addr, now: int): int {
    if ip !in m then MAX_TOKENS
    else if m[ip].tokens + (now - m[ip].lastTime) > MAX_TOKENS then MAX_TOKENS
    else m[ip].tokens + (now - m[ip].lastTime)
  }

  /** One event spends at most what there was. */
  lemma CreditStep(m: map<Addr, Entry>, ip: Addr, event: Event)
    requires Sane(m, event.now)
    ensures var (ok, m') := StepOf(m, event);
            Credit(m', ip, event.now)
              == Credit(m, ip, event.now) - if event.Packet? && event.ip == ip && ok then PACKET_COST else 0
  {
  }

  /** What is spent was there at the start or has been earned since. */
  lemma {:induction false} Spent(ms: seq<map<Addr, Entry>>, events: seq<Event>, answers: seq<bool>, ip: Addr,
                                 start: int, i: nat, j: nat)
    requires Traced(ms, events, answers) && Ordered(start, events) && i < j <= |events|
    ensures Allowed(events, answers, ip, i, j) * PACKET_COST + Credit(ms[j], ip, events[j - 1].now)
      <= MAX_TOKENS + (events[j - 1].now - events[i].now)
    ensures Credit(ms[j], ip, events[j - 1].now) >= 0
  {
    CreditStep(ms[j - 1], ip, events[j - 1]);
    if j - 1 > i {
      Spent(ms, events, answers, ip, start, i, j - 1);
    } else {
      assert Allowed(events, answers, ip, i, i) == 0;
    }
  }

  /** No stretch that ends with event `j` leaves too little for one more packet. */
  ghost predicate Affordable(events: seq<Event>, answers: seq<bool>, ip: Addr, j: nat)
    requires j < |events| == |answers|
  {
    forall i {:trigger Allowed(events, answers, ip, i, j)} :: 0 <= i <= j ==>
      Allowed(events, answers, ip, i, j) * PACKET_COST < MAX_TOKENS - PACKET_COST + (events[j].now - events[i].now)
  }

  /** What an address can spend at event `j`, after any stretch before it. */
  lemma CreditBound(ms: seq<map<Addr, Entry>>, events: seq<Event>, answers: seq<bool>, ip: Addr, start: int, i: nat,
                    j: nat)
    requires Traced(ms, events, answers) && Ordered(start, events) && i <= j < |events|
    ensures Allowed(events, answers, ip, i, j) * PACKET_COST + Credit(ms[j], ip, events[j].now)
      <= MAX_TOKENS + (events[j].now - events[i].now)
  {
    if i < j {
      Spent(ms, events, answers, ip, start, i, j);
    }
  }

  /** Some stretch accounts for all that was spent, from a full bucket on. */
  lemma {:induction false} CreditExact(ms: seq<map<Addr, Entry>>, events: seq<Event>, answers: seq<bool>, ip: Addr,
                                       start: int, j: nat) returns (i: nat)
    requires Traced(ms, events, answers) && Ordered(start, events) && j < |events| && ip !in ms[0]
    ensures i <= j
    ensures Allowed(events, answers, ip, i, j) * PACKET_COST + Credit(ms[j], ip, events[j].now)
      == MAX_TOKENS + (events[j].now - events[i].now)
  {
    if Credit(ms[j], ip, events[j].now) == MAX_TOKENS {
      i := j;
    } else {
      i := CreditExact(ms, events, answers, ip, start, j - 1);
      CreditStep(ms[j - 1], ip, events[j - 1]);
    }
  }

  lemma EnoughCredit(m: map<Addr, Entry>, ip: Addr, now: int)
    ensures StepOf(m, Packet(ip, now)).0 <==> Credit(m, ip, now) > PACKET_COST
  {
  }

  /** A packet is allowed if and only if every stretch before it leaves enough. */
  lemma AllowedExactly(ms: seq<map<Addr, Entry>>, events: seq<Event>, answers: seq<bool>, ip: Addr, start: int, j: nat)
    requires Traced(ms, events, answers) && Ordered(start, events) && j < |events|
    requires events[j].Packet? && events[j].ip == ip && ip !in ms[0]
    ensures answers[j] <==> Affordable(events, answers, ip, j)
  {
    assert (answers[j], ms[j + 1]) == StepOf(ms[j], events[j]);
    EnoughCredit(ms[j], ip, events[j].now);
    hide Traced, Credit, StepOf;
    if answers[j] {
      forall i | 0 <= i <= j
        ensures Allowed(events, answers, ip, i, j) * PACKET_COST
          < MAX_TOKENS - PACKET_COST + (events[j].now - events[i].now)
      {
        CreditBound(ms, events, answers, ip, start, i, j);
      }
    } else {
      var i := CreditExact(ms, events, answers, ip, start, j);
    }
  }

  /** So the first packet of an address is allowed. */
  lemma FirstAllowed(ms: seq<map<Addr, Entry>>, events: seq<Event>, answers: seq<bool>, ip: Addr, start: int, j: nat)
    requires Traced(ms, events, answers) && Ordered(start, events) && j < |events|
    requires events[j].Packet? && events[j].ip == ip && ip !in ms[0]
    requires forall i :: 0 <= i < j ==> !(events[i].Packet? && events[i].ip == ip)
    ensures answers[j]
  {
    AllowedExactly(ms, events, answers, ip, start, j);
    forall i | 0 <= i <= j
      ensures Allowed(events, answers, ip, i, j) == 0
    {
      NoneBefore(events, answers, ip, i, j);
    }
  }

  lemma {:induction false} NoneBefore(events: seq<Event>, answers: seq<bool>, ip: Addr, i: nat, j: nat)
    requires i <= j <= |events| == |answers|
    requires forall k :: i <= k < j ==> !(events[k].Packet? && events[k].ip == ip)
    ensures Allowed(events, answers, ip, i, j) == 0
  {
    if i < j {
      NoneBefore(events, answers, ip, i, j - 1);
    }
  }

  /**
   * The limiter's promise, with garbage collected at any time and packets from any addresses in between: over any
   * stretch of a run, what an address is allowed costs at most a full bucket and the time that passed; and a packet
   * from an address that is new is refused only if that would not hold with it.
   */
  method Serve(limiter: Limiter, events: seq<Event>) returns (answers: seq<bool>, ghost ms: seq<map<Addr, Entry>>)
    requires limiter.Valid() && Ordered(limiter.clock, events)
    modifies limiter
    ensures limiter.Valid() && Traced(ms, events, answers) && ms[0] == old(limiter.ideal)
    ensures forall j :: 0 <= j < |events| && events[j].Packet? && events[j].ip !in old(limiter.ideal) ==>
      (answers[j] <==> Affordable(events, answers, events[j].ip, j))
    ensures forall ip, i, j :: 0 <= i < j <= |events| ==>
      Allowed(events, answers, ip, i, j) * PACKET_COST <= MAX_TOKENS + (events[j - 1].now - events[i].now)
  {
    hide StepOf, Affordable;
    answers := [];
    ms := [limiter.ideal];
    ghost var start := limiter.clock;
    for k := 0 to |events|
      invariant limiter.Valid() && forall l :: k <= l < |events| ==> limiter.clock <= events[l].now
      invariant Traced(ms, events[..k], answers) && ms[0] == old(limiter.ideal) && ms[k] == limiter.ideal
    {
      assert Sane(limiter.ideal, events[k].now);
      var ok := Handle(limiter, events[k]);
      answers, ms := answers + [ok], ms + [limiter.ideal];
      assert events[..k + 1] == events[..k] + [events[k]];
    }
    assert events[..|events|] == events;
    forall j | 0 <= j < |events| && events[j].Packet? && events[j].ip !in old(limiter.ideal)
      ensures answers[j] <==> Affordable(events, answers, events[j].ip, j)
    {
      AllowedExactly(ms, events, answers, events[j].ip, start, j);
    }
    forall ip, i, j | 0 <= i < j <= |events|
      ensures Allowed(events, answers, ip, i, j) * PACKET_COST <= MAX_TOKENS + (events[j - 1].now - events[i].now)
    {
      Spent(ms, events, answers, ip, start, i, j);
    }
  }

  method Handle(limiter: Limiter, event: Event) returns (ok: bool)
    requires limiter.Valid() && event.now >= limiter.clock
    modifies limiter
    ensures limiter.Valid() && limiter.clock == event.now
    ensures (ok, limiter.ideal) == StepOf(old(limiter.ideal), event)
  {
    match event
    case Packet(ip, now) =>
      ok := limiter.Allow(ip, now);
    case Collect(now) =>
      var empty := limiter.Cleanup(now);
      ok := false;
  }
}
