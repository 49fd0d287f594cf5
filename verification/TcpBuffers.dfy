/**
 * Pooled receive buffers between readers, channel and consumer, in every interleaving: wireguard-go/conn/bind_tcp.go,
 * lines 70-162.
 */
module TcpBuffers {
  import opened Checksum
  import opened Options
  import opened TcpFraming

  const CHANNEL_SIZE := 1024

  /** A `recvData`: the connection it was last filled from, how much of the buffer counts, and the buffer. */
  datatype Data = Data(conn: nat, size: nat, buff: seq<byte>)

  /**
   * Where a reader stands: at the top of its loop, holding an empty buffer, having read a header, holding a packet, or
   * gone.
   */
  datatype Reader = AtTop | Fresh(b: nat) | Sized(b: nat, size: nat) | Full(b: nat) | Gone {
    predicate Busy() {
      Fresh? || Sized? || Full?
    }

    predicate Holds(x: nat) {
      Busy() && b == x
    }
  }

  /**
   * Readers, buffers by number, the pool, the channel, and the buffer the consumer is copying from; what is still on
   * each connection; and what has been delivered.
   */
  datatype State = State(readers: map<nat, Reader>, data: map<nat, Data>, pool: set<nat>, channel: seq<nat>,
    consumer: Option<nat>, wire: map<nat, seq<byte>>, delivered: seq<(nat, seq<byte>)>)

  /** The atomic steps. `Get` takes a buffer from the pool, or a new one; `Put` gives one back and ends the reader. */
  datatype Step =
    | Get(c: nat, b: nat)
    | ReadHeader(c: nat)
    | ReadBody(c: nat)
    | Enqueue(c: nat)
    | Put(c: nat)
    | Take
    | CopyOut

  predicate Enabled(s: State, step: Step) {
    match step
    case Get(c, b) => c in s.readers && s.readers[c].AtTop? && (b in s.pool || b !in s.data)
    case ReadHeader(c) => c in s.readers && c in s.wire && s.readers[c].Fresh? && s.readers[c].b in s.data
      && |s.wire[c]| >= 4
    case ReadBody(c) =>
      && c in s.readers && c in s.wire && s.readers[c].Sized? && s.readers[c].b in s.data
      && s.readers[c].size <= |s.wire[c]| && s.readers[c].size <= |s.data[s.readers[c].b].buff|
    case Enqueue(c) => c in s.readers && s.readers[c].Full? && |s.channel| < CHANNEL_SIZE
    case Put(c) => c in s.readers && !s.readers[c].AtTop? && !s.readers[c].Gone?
    case Take => s.consumer.None? && s.channel != []
    case CopyOut =>
      && s.consumer.Some? && s.consumer.value in s.data
      && s.data[s.consumer.value].size <= |s.data[s.consumer.value].buff|
  }

  /** A buffer the pool has just made. */
  function NewData(): (d: Data)
    ensures |d.buff| == MAX_SEGMENT_SIZE && d.size <= MAX_SEGMENT_SIZE
  {
    Data(0, 0, seq(MAX_SEGMENT_SIZE, _ => 0))
  }

  /** Reading a body overwrites the buffer from its start, and leaves the rest. */
  function Fill(d: Data, c: nat, body: seq<byte>): (r: Data)
    requires |body| <= |d.buff|
    ensures |r.buff| == |d.buff| && r.size <= |r.buff|
  {
    Data(c, |body|, body + d.buff[|body|..])
  }

  /** What the consumer copies out of a buffer. */
  function Content(d: Data): (nat, seq<byte>) {
    (d.conn, if d.size <= |d.buff| then d.buff[..d.size] else [])
  }

  /** Line 126. */
  function DoGet(s: State, c: nat, b: nat): State {
    s.(readers := s.readers[c := Fresh(b)], pool := s.pool - {b}, data := if b in s.data then s.data
      else s.data[b := NewData()])
  }

  /** Lines 128-141. */
  function DoReadHeader(s: State, c: nat): State
    requires Enabled(s, ReadHeader(c))
  {
    var size := Len(s.wire[c][..4]);
    var wire := s.wire[c := s.wire[c][4..]];
    if size > |s.data[s.readers[c].b].buff| then
      s.(readers := s.readers[c := Gone], wire := wire, pool := s.pool + {s.readers[c].b})
    else
      s.(readers := s.readers[c := Sized(s.readers[c].b, size)], wire := wire)
  }

  /** Lines 143-153. */
  function DoReadBody(s: State, c: nat): State
    requires Enabled(s, ReadBody(c))
  {
    var b, size := s.readers[c].b, s.readers[c].size;
    s.(readers := s.readers[c := Full(b)], wire := s.wire[c := s.wire[c][size..]], data :=
      s.data[b := Fill(s.data[b], c, s.wire[c][..size])])
  }

  function Do(s: State, step: Step): State
    requires Enabled(s, step)
  {
    match step
    case Get(c, b) => DoGet(s, c, b)
    case ReadHeader(c) => DoReadHeader(s, c)
    case ReadBody(c) => DoReadBody(s, c)
    case Enqueue(c) => s.(readers := s.readers[c := AtTop], channel := s.channel + [s.readers[c].b])
    case Put(c) => s.(readers := s.readers[c := Gone], pool := s.pool + {s.readers[c].b})
    case Take => s.(consumer := Some(s.channel[0]), channel := s.channel[1..])
    case CopyOut => s.(consumer := None, pool := s.pool + {s.consumer.value}, delivered :=
      s.delivered + [Content(s.data[s.consumer.value])])
  }

  /** Each buffer is in exactly one place: the pool, a reader's hands, the channel, or the consumer's. */
  ghost predicate Owned(s: State) {
    && Sorted(s.pool, s.channel, s.consumer, s.data.Keys)
    && (forall c {:trigger HeldApart(s, c)} :: c in s.readers ==> HeldApart(s, c))
    && forall b {:trigger Somewhere(s, b)} :: b in s.data ==> Somewhere(s, b)
  }

  ghost predicate Sorted(pool: set<nat>, channel: seq<nat>, consumer: Option<nat>, all: set<nat>) {
    && pool <= all
    && (forall i :: 0 <= i < |channel| ==> channel[i] in all && channel[i] !in pool && consumer != Some(channel[i]))
    && (forall i, j :: 0 <= i < j < |channel| ==> channel[i] != channel[j])
    && (consumer.Some? ==> consumer.value in all && consumer.value !in pool)
  }

  /** A buffer in a reader's hands is nowhere else. */
  ghost predicate HeldApart(s: State, c: nat)
    requires c in s.readers
  {
    var r := s.readers[c];
    r.Busy() ==>
      && r.b in s.data && r.b !in s.pool && r.b !in s.channel && s.consumer != Some(r.b)
      && forall d :: d in s.readers && d != c ==> !s.readers[d].Holds(r.b)
  }

  ghost predicate Held(readers: map<nat, Reader>, b: nat) {
    exists c :: c in readers && readers[c].Holds(b)
  }

  ghost predicate Somewhere(s: State, b: nat) {
    b in s.pool || b in s.channel || s.consumer == Some(b) || Held(s.readers, b)
  }

  /** A reader that keeps its buffer keeps it held. */
  lemma HeldKept(readers: map<nat, Reader>, c: nat, r: Reader)
    requires c in readers
    ensures forall b :: Held(readers, b) && (readers[c].Holds(b) ==> r.Holds(b)) ==> Held(readers[c := r], b)
    ensures forall b :: r.Holds(b) ==> Held(readers[c := r], b)
  {
    var readers' := readers[c := r];
    forall b | Held(readers, b) && (readers[c].Holds(b) ==> r.Holds(b))
      ensures Held(readers', b)
    {
      var d :| d in readers && readers[d].Holds(b);
      assert d in readers' && readers'[d].Holds(b);
    }
    forall b | r.Holds(b)
      ensures Held(readers', b)
    {
      assert c in readers' && readers'[c].Holds(b);
    }
  }

  lemma ReaderKept(s: State, c: nat, s': State, r: Reader)
    requires Owned(s) && c in s.readers && s'.readers == s.readers[c := r] && s'.data.Keys == s.data.Keys
    requires s'.pool == s.pool && s'.channel == s.channel && s'.consumer == s.consumer
    requires s.readers[c].Busy() && r.Busy() && r.b == s.readers[c].b
    ensures Owned(s')
  {
    HeldKept(s.readers, c, r);
    forall d | d in s'.readers
      ensures HeldApart(s', d)
    {
      assert HeldApart(s, d) && HeldApart(s, c);
    }
    forall b | b in s'.data
      ensures Somewhere(s', b)
    {
      assert Somewhere(s, b);
    }
  }

  lemma GetOwned(s: State, c: nat, b: nat)
    requires Owned(s) && Enabled(s, Get(c, b))
    ensures Owned(Do(s, Get(c, b)))
  {
    var s' := Do(s, Get(c, b));
    HeldKept(s.readers, c, Fresh(b));
    assert Fresh(b).Holds(b);
    assert forall d :: d in s.readers ==> HeldApart(s, d);
    forall d | d in s'.readers
      ensures HeldApart(s', d)
    {
      assert HeldApart(s, d);
    }
    forall x | x in s'.data
      ensures Somewhere(s', x)
    {
      assert x != b ==> Somewhere(s, x);
    }
  }

  /** A reader lets its buffer go, to the pool or into the channel. */
  lemma ReleaseOwned(s: State, c: nat, s': State, b: nat)
    requires Owned(s) && c in s.readers && s.readers[c].Holds(b)
      && (s'.readers == s.readers[c := Gone] || s'.readers == s.readers[c := AtTop])
    requires s'.data == s.data && s'.consumer == s.consumer
    requires (s'.pool == s.pool + {b} && s'.channel == s.channel)
      || (s'.pool == s.pool && s'.channel == s.channel + [b])
    ensures Owned(s')
  {
    assert HeldApart(s, c);
    HeldKept(s.readers, c, s'.readers[c]);
    assert forall x :: x in s'.channel <==> x in s.channel || (x == b && s'.channel != s.channel);
    forall d | d in s'.readers
      ensures HeldApart(s', d)
    {
      assert HeldApart(s, d);
    }
    forall x | x in s'.data
      ensures Somewhere(s', x)
    {
      assert Somewhere(s, x);
      assert s.readers[c].Holds(x) ==> x == b;
    }
  }

  lemma TakeOwned(s: State)
    requires Owned(s) && Enabled(s, Take)
    ensures Owned(Do(s, Take))
  {
    var s' := Do(s, Take);
    assert s.channel == [s.channel[0]] + s'.channel;
    assert s.channel[0] in s.channel;
    assert forall x :: x in s'.channel ==> x in s.channel;
    forall d | d in s'.readers
      ensures HeldApart(s', d)
    {
      assert HeldApart(s, d);
    }
    forall x | x in s'.data
      ensures Somewhere(s', x)
    {
      assert Somewhere(s, x);
    }
  }

  lemma CopyOutOwned(s: State)
    requires Owned(s) && Enabled(s, CopyOut)
    ensures Owned(Do(s, CopyOut))
  {
    var s' := Do(s, CopyOut);
    forall d | d in s'.readers
      ensures HeldApart(s', d)
    {
      assert HeldApart(s, d);
    }
    forall x | x in s'.data
      ensures Somewhere(s', x)
    {
      assert Somewhere(s, x);
    }
  }

  /** No buffer is lost and none is in two hands, whatever step comes next. */
  lemma OwnedKept(s: State, step: Step)
    requires Owned(s) && Enabled(s, step)
    ensures Owned(Do(s, step))
  {
    hide Owned;
    match step
    case Get(c, b) => GetOwned(s, c, b);
    case ReadHeader(c) =>
      var s' := Do(s, step);
      if s'.readers[c].Gone? {
        ReleaseOwned(s, c, s', s.readers[c].b);
      } else {
        ReaderKept(s, c, s', s'.readers[c]);
      }
    case ReadBody(c) => ReaderKept(s, c, Do(s, step), Full(s.readers[c].b));
    case Enqueue(c) => ReleaseOwned(s, c, Do(s, step), s.readers[c].b);
    case Put(c) => ReleaseOwned(s, c, Do(s, step), s.readers[c].b);
    case Take => TakeOwned(s);
    case CopyOut => CopyOutOwned(s);
  }

  /** The packets in some buffers, in order. */
  ghost function Contents(data: map<nat, Data>, bs: seq<nat>): (r: seq<(nat, seq<byte>)>)
    requires forall i :: 0 <= i < |bs| ==> bs[i] in data
    ensures |r| == |bs| && forall i :: 0 <= i < |r| ==> r[i] == Content(data[bs[i]])
  {
    seq(|bs|, i requires 0 <= i < |bs| => Content(data[bs[i]]))
  }

  ghost function InHand(data: map<nat, Data>, consumer: Option<nat>): seq<(nat, seq<byte>)>
    requires consumer.Some? ==> consumer.value in data
  {
    if consumer.None? then [] else [Content(data[consumer.value])]
  }

  /** Everything delivered and everything on its way, in order. */
  ghost function Flight(s: State): seq<(nat, seq<byte>)>
    requires Owned(s)
  {
    s.delivered + (InHand(s.data, s.consumer) + Contents(s.data, s.channel))
  }

  /** The packets of one connection. */
  ghost function Of(ps: seq<(nat, seq<byte>)>, c: nat): seq<seq<byte>> {
    if ps == [] then [] else
      Of(ps[..|ps| - 1], c) + if ps[|ps| - 1].0 == c then [ps[|ps| - 1].1] else []
  }

  /**
   * Connection `c` has got so far: the packets that are out are the first that were sent, and the wire holds the rest.
   */
  ghost predicate Progress(s: State, sent: map<nat, seq<seq<byte>>>, out: seq<seq<byte>>, c: nat)
    requires c in sent && c in s.readers && c in s.wire
  {
    var k := |out|;
    && k <= |sent[c]| && out == sent[c][..k]
    && match s.readers[c]
       case Gone => true
       case AtTop => s.wire[c] == Encode(sent[c][k..])
       case Fresh(_) => s.wire[c] == Encode(sent[c][k..])
       case Sized(_, size) => k < |sent[c]| && size == |sent[c][k]|
         && s.wire[c] == sent[c][k] + Encode(sent[c][k + 1..])
       case Full(b) =>
         && b in s.data && k < |sent[c]| && Content(s.data[b]) == (c, sent[c][k])
         && s.wire[c] == Encode(sent[c][k + 1..])
  }

  /** What a run keeps: ownership, and the progress of every connection. */
  ghost predicate Inv(s: State, sent: map<nat, seq<seq<byte>>>) {
    && Owned(s)
    && s.readers.Keys == sent.Keys && s.wire.Keys == sent.Keys && (forall c :: c in sent ==> Sendable(sent[c]))
    && (forall b :: b in s.data ==> |s.data[b].buff| == MAX_SEGMENT_SIZE && s.data[b].size <= MAX_SEGMENT_SIZE)
    && forall c {:trigger Progress(s, sent, Of(Flight(s), c), c)} ::
      c in sent ==> Progress(s, sent, Of(Flight(s), c), c)
  }

  /** What is on its way does not change while buffers that are not on their way do. */
  lemma FlightKept(s: State, s': State)
    requires Owned(s) && Owned(s') && s'.delivered == s.delivered && s'.channel == s.channel
      && s'.consumer == s.consumer
    requires forall i :: 0 <= i < |s.channel| ==> s'.data[s.channel[i]] == s.data[s.channel[i]]
    requires s.consumer.Some? ==> s'.data[s.consumer.value] == s.data[s.consumer.value]
    ensures Flight(s') == Flight(s)
  {
    assert Contents(s'.data, s'.channel) == Contents(s.data, s.channel);
  }

  /** Taking a buffer off the channel only moves the boundary. */
  lemma FlightTaken(s: State)
    requires Owned(s) && Enabled(s, Take) && Owned(Do(s, Take))
    ensures Flight(Do(s, Take)) == Flight(s)
  {
    hide HeldApart, Somewhere, Content, Contents;
    ContentsHead(s.data, s.channel);
  }

  lemma ContentsHead(data: map<nat, Data>, bs: seq<nat>)
    requires bs != [] && forall i :: 0 <= i < |bs| ==> bs[i] in data
    ensures Contents(data, bs) == [Content(data[bs[0]])] + Contents(data, bs[1..])
  {
    hide Content;
    assert forall i :: 0 <= i < |bs| - 1 ==> bs[1..][i] == bs[i + 1];
  }

  /** So does copying it out. */
  lemma FlightCopied(s: State)
    requires Owned(s) && Enabled(s, CopyOut) && Owned(Do(s, CopyOut))
    ensures Flight(Do(s, CopyOut)) == Flight(s)
  {
    var s', one := Do(s, CopyOut), [Content(s.data[s.consumer.value])];
    assert Contents(s'.data, s'.channel) == Contents(s.data, s.channel);
    assert s.delivered + (one + Contents(s.data, s.channel)) == s.delivered + one + Contents(s.data, s.channel);
  }

  lemma HeldKnown(s: State)
    requires Owned(s)
    ensures forall c :: c in s.readers && s.readers[c].Busy() ==> s.readers[c].b in s.data
  {
    forall c | c in s.readers && s.readers[c].Busy()
      ensures s.readers[c].b in s.data
    {
      assert HeldApart(s, c);
    }
  }

  lemma FlightGrows(s: State, c: nat)
    requires Owned(s) && Enabled(s, Enqueue(c)) && Owned(Do(s, Enqueue(c))) && s.readers[c].b in s.data
    ensures Flight(Do(s, Enqueue(c))) == Flight(s) + [Content(s.data[s.readers[c].b])]
  {
    var s', b := Do(s, Enqueue(c)), s.readers[c].b;
    assert Contents(s'.data, s'.channel) == Contents(s.data, s.channel) + [Content(s.data[b])];
  }

  /** A reader that moves on within its own connection, its buffer being nowhere else. */
  lemma OneReader(s: State, sent: map<nat, seq<seq<byte>>>, c: nat, s': State)
    requires Inv(s, sent) && Owned(s') && c in sent && Flight(s') == Flight(s)
    requires s'.readers.Keys == s.readers.Keys && s'.wire.Keys == s.wire.Keys
    requires forall d :: d in sent && d != c ==> s'.readers[d] == s.readers[d] && s'.wire[d] == s.wire[d]
    requires forall d :: d in sent && d != c && s.readers[d].Full? ==>
               s.readers[d].b in s.data && s.readers[d].b in s'.data
                 && s'.data[s.readers[d].b] == s.data[s.readers[d].b]
    requires forall b :: b in s'.data ==> |s'.data[b].buff| == MAX_SEGMENT_SIZE && s'.data[b].size <= MAX_SEGMENT_SIZE
    requires Progress(s', sent, Of(Flight(s), c), c)
    ensures Inv(s', sent)
  {
    hide Owned, Of, Flight;
    forall d | d in sent
      ensures Progress(s', sent, Of(Flight(s'), d), d)
    {
      assert d != c ==> Progress(s, sent, Of(Flight(s), d), d);
    }
  }

  lemma ReadsHeader(s: State, sent: map<nat, seq<seq<byte>>>, c: nat)
    requires Inv(s, sent) && Enabled(s, ReadHeader(c)) && c in sent
    ensures Inv(Do(s, ReadHeader(c)), sent)
  {
    hide Of, Contents, InHand, Encode, Len;
    var s', out := Do(s, ReadHeader(c)), Of(Flight(s), c);
    OwnedKept(s, ReadHeader(c));
    HeldKnown(s);
    FlightKept(s, s');
    assert Progress(s, sent, out, c);
    var rest := sent[c][|out|..];
    EncodeEmpty(rest);
    FirstFrame(rest, []);
    assert Encode(rest) + [] == Encode(rest);
    assert rest[1..] == sent[c][|out| + 1..] && Encode(rest[1..]) + [] == Encode(rest[1..]);
    assert s.wire[c][4..] == s.wire[c][4..4 + |rest[0]|] + s.wire[c][4 + |rest[0]|..];
    OneReader(s, sent, c, s');
  }

  lemma EncodeEmpty(packets: seq<seq<byte>>)
    ensures |Encode(packets)| >= 4 ==> packets != []
  {
  }

  lemma ReadsBody(s: State, sent: map<nat, seq<seq<byte>>>, c: nat)
    requires Inv(s, sent) && Enabled(s, ReadBody(c)) && c in sent
    ensures Inv(Do(s, ReadBody(c)), sent)
  {
    hide Of, Contents, InHand, Encode;
    var s', out, b := Do(s, ReadBody(c)), Of(Flight(s), c), s.readers[c].b;
    OwnedKept(s, ReadBody(c));
    assert HeldApart(s, c);
    FlightKept(s, s');
    assert Progress(s, sent, out, c);
    var p := sent[c][|out|];
    assert s.wire[c][..|p|] == p && s.wire[c][|p|..] == Encode(sent[c][|out| + 1..]);
    assert Fill(s.data[b], c, p).buff[..|p|] == p;
    forall d | d in sent && d != c && s.readers[d].Full?
      ensures s.readers[d].b in s.data && s.readers[d].b in s'.data && s'.data[s.readers[d].b] == s.data[s.readers[d].b]
    {
      assert HeldApart(s, d) && s.readers[d].Holds(s.readers[d].b);
    }
    OneReader(s, sent, c, s');
  }

  /** A packet is handed on: one more of the connection's is on its way. */
  lemma HandsOn(s: State, sent: map<nat, seq<seq<byte>>>, c: nat)
    requires Inv(s, sent) && Enabled(s, Enqueue(c)) && c in sent
    ensures Inv(Do(s, Enqueue(c)), sent)
  {
    hide Owned, Flight, Of, Encode;
    var s', b, flight := Do(s, Enqueue(c)), s.readers[c].b, Flight(s);
    OwnedKept(s, Enqueue(c));
    HeldKnown(s);
    FlightGrows(s, c);
    assert Progress(s, sent, Of(flight, c), c);
    forall d | d in sent
      ensures Progress(s', sent, Of(Flight(s'), d), d)
    {
      assert Progress(s, sent, Of(flight, d), d);
      OfAppend(flight, Content(s.data[b]), d);
    }
  }

  lemma OfAppend(flight: seq<(nat, seq<byte>)>, p: (nat, seq<byte>), d: nat)
    ensures Of(flight + [p], d) == if p.0 == d then Of(flight, d) + [p.1] else Of(flight, d)
  {
    assert (flight + [p])[..|flight|] == flight;
  }

  lemma StepKeeps(s: State, sent: map<nat, seq<seq<byte>>>, step: Step)
    requires Inv(s, sent) && Enabled(s, step)
    ensures Inv(Do(s, step), sent)
  {
    hide Owned, Of, Contents, InHand, Encode, Len;
    var s' := Do(s, step);
    OwnedKept(s, step);
    HeldKnown(s);
    match step
    case Get(c, b) =>
      GetKeepsFlight(s, c, b);
      assert Progress(s, sent, Of(Flight(s), c), c);
      OneReader(s, sent, c, s');
    case ReadHeader(c) => ReadsHeader(s, sent, c);
    case ReadBody(c) => ReadsBody(s, sent, c);
    case Enqueue(c) => HandsOn(s, sent, c);
    case Put(c) =>
      FlightKept(s, s');
      assert Progress(s, sent, Of(Flight(s), c), c);
      OneReader(s, sent, c, s');
    case Take =>
      FlightTaken(s);
      SameReaders(s, sent, s');
    case CopyOut =>
      FlightCopied(s);
      SameReaders(s, sent, s');
  }

  lemma GetKeepsFlight(s: State, c: nat, b: nat)
    requires Owned(s) && Enabled(s, Get(c, b)) && Owned(Do(s, Get(c, b)))
    ensures Flight(Do(s, Get(c, b))) == Flight(s)
  {
    FlightKept(s, Do(s, Get(c, b)));
  }

  lemma SameReaders(s: State, sent: map<nat, seq<seq<byte>>>, s': State)
    requires Inv(s, sent) && Owned(s') && Flight(s') == Flight(s) && s'.readers == s.readers && s'.wire == s.wire
      && s'.data == s.data
    ensures Inv(s', sent)
  {
    hide Owned, Of, Flight;
    forall d | d in sent
      ensures Progress(s', sent, Of(Flight(s'), d), d)
    {
      assert Progress(s, sent, Of(Flight(s), d), d);
    }
  }

  function Run(s: State, steps: seq<Step>): State
    requires Runs(s, steps)
    decreases |steps|
  {
    if steps == [] then s else Run(Do(s, steps[0]), steps[1..])
  }

  predicate Runs(s: State, steps: seq<Step>)
    decreases |steps|
  {
    steps != [] ==> Enabled(s, steps[0]) && Runs(Do(s, steps[0]), steps[1..])
  }

  /**
   * In every interleaving each buffer stays in one place, and what a connection has had delivered is the first of what
   * was sent on it, in order and unchanged.
   */
  lemma {:induction false} Delivery(s: State, sent: map<nat, seq<seq<byte>>>, steps: seq<Step>)
    requires Inv(s, sent) && Runs(s, steps)
    ensures Inv(Run(s, steps), sent)
    ensures forall c :: c in sent ==> Of(Run(s, steps).delivered, c) <= sent[c]
    decreases |steps|
  {
    hide Inv, Owned;
    if steps == [] {
      DeliveredSoFar(s, sent);
    } else {
      StepKeeps(s, sent, steps[0]);
      Delivery(Do(s, steps[0]), sent, steps[1..]);
    }
  }

  lemma {:induction false} OfPrefix(a: seq<(nat, seq<byte>)>, b: seq<(nat, seq<byte>)>, c: nat)
    ensures Of(a, c) <= Of(a + b, c)
  {
    if b == [] {
      assert a + b == a;
    } else {
      assert (a + b)[..|a + b| - 1] == a + b[..|b| - 1];
      OfPrefix(a, b[..|b| - 1], c);
    }
  }

  lemma DeliveredSoFar(s: State, sent: map<nat, seq<seq<byte>>>)
    requires Inv(s, sent)
    ensures forall c :: c in sent ==> Of(s.delivered, c) <= sent[c]
  {
    hide Of, Contents, InHand;
    forall c | c in sent
      ensures Of(s.delivered, c) <= sent[c]
    {
      OfPrefix(s.delivered, InHand(s.data, s.consumer) + Contents(s.data, s.channel), c);
      assert Progress(s, sent, Of(Flight(s), c), c);
    }
  }

  /**
   * Once a connection has been read to its end, and nothing is on its way any more, all that was sent on it has been
   * delivered.
   */
  lemma AllDelivered(s: State, sent: map<nat, seq<seq<byte>>>, c: nat)
    requires Inv(s, sent) && c in sent && s.readers[c].AtTop? && s.wire[c] == [] && s.channel == []
      && s.consumer == None
    ensures Of(s.delivered, c) == sent[c]
  {
    hide Of;
    assert Flight(s) == s.delivered;
    assert Progress(s, sent, Of(Flight(s), c), c);
    var rest := sent[c][|Of(s.delivered, c)|..];
    assert rest != [] ==> |Encode(rest)| >= 4;
  }

  lemma {:induction false} Unused(bs: set<nat>) returns (b: nat)
    ensures forall x :: x in bs ==> x < b
  {
    b := 0;
    if bs != {} {
      var x :| x in bs;
      b := Unused(bs - {x});
      assert forall y :: y in bs ==> y == x || y in bs - {x};
      if x >= b {
        b := x + 1;
      }
    }
  }

  /** As long as a connection that is still read has not had everything delivered, something can go on. */
  lemma NeverStuck(s: State, sent: map<nat, seq<seq<byte>>>, c: nat) returns (step: Step)
    requires Inv(s, sent) && c in sent && Of(s.delivered, c) != sent[c] && !s.readers[c].Gone?
    ensures Enabled(s, step) && !step.Put?
  {
    hide Of, Contents;
    if s.consumer.Some? {
      return CopyOut;
    }
    if s.channel != [] {
      return Take;
    }
    EmptyFlight(s);
    assert Progress(s, sent, Of(Flight(s), c), c) && HeldApart(s, c);
    var rest := sent[c][|Of(s.delivered, c)|..];
    match s.readers[c]
    case AtTop =>
      var b := Unused(s.data.Keys);
      return Get(c, b);
    case Fresh(_) =>
      LongEnough(rest);
      return ReadHeader(c);
    case Sized(_, _) =>
      return ReadBody(c);
    case Full(_) =>
      return Enqueue(c);
  }

  lemma EmptyFlight(s: State)
    requires Owned(s) && s.channel == [] && s.consumer == None
    ensures Flight(s) == s.delivered
  {
  }

  lemma LongEnough(packets: seq<seq<byte>>)
    requires packets != []
    ensures |Encode(packets)| >= 4
  {
  }

  /** Where every run starts: readers at the top of their loops, no buffers, everything sent still on the wire. */
  ghost predicate Starts(s: State, sent: map<nat, seq<seq<byte>>>) {
    && s.data == map[] && s.pool == {} && s.channel == [] && s.consumer == None && s.delivered == []
    && s.readers.Keys == sent.Keys && s.wire.Keys == sent.Keys
    && forall c :: c in sent ==> Sendable(sent[c]) && s.readers[c].AtTop? && s.wire[c] == Encode(sent[c])
  }

  lemma Start(s: State, sent: map<nat, seq<seq<byte>>>)
    requires Starts(s, sent)
    ensures Inv(s, sent)
  {
    NothingYet(s, sent);
    hide Owned, Flight, Encode, Sendable;
    forall c | c in sent
      ensures Progress(s, sent, Of(Flight(s), c), c)
    {
      assert sent[c][0..] == sent[c];
    }
  }

  lemma NothingYet(s: State, sent: map<nat, seq<seq<byte>>>)
    requires Starts(s, sent)
    ensures Owned(s) && Flight(s) == []
  {
    hide Encode, Sendable;
  }
}
