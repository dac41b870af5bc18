/** A producer thread, a queue of one block and a reader that may read less than asked, as a
    system of interleaved steps. */
module Prefetch {
  import opened Bytes

  /** The most bytes one read may ask for. */
  const MAX_READ := 0x4_0000

  datatype Item = Block(bytes: seq<byte>) | End | Fault

  /** Where the producer is: about to read the source, about to look at the stop flag or to put
      what it holds, or gone. */
  datatype Producer = Reading | Checking(item: Item) | Putting(item: Item) | Gone

  datatype Reader = Reader(block: seq<byte>, position: nat, finished: bool, raised: bool)

  datatype State = State(chunk: nat, unread: seq<byte>, producer: Producer, queue: Option<Item>, stopped: bool, reader: Reader,
                         delivered: seq<byte>, dropped: seq<byte>)

  /** One step of one thread. */
  datatype Action =
    | Fetch(count: nat)       // the source returns this many bytes, none at its end
    | Fail                    // the source raises
    | Check                   // the producer looks at the stop flag
    | Put                     // the queue takes the item, or the wait times out
    | Read(count: nat)        // the reader asks for this many bytes
    | Stop                    // the consumer leaves

  function Start(content: seq<byte>, chunk: nat): State {
    State(chunk, content, Reading, None, false, Reader([], 0, false, false), [], [])
  }

  predicate Enabled(s: State, a: Action) {
    match a
    case Fetch(count) => s.producer == Reading && count <= |s.unread| && count <= s.chunk && (count == 0 <==> s.unread == [])
    case Fail => s.producer == Reading
    case Check => s.producer.Checking?
    case Put => s.producer.Putting?
    case Read(count) =>
      && !s.stopped && !s.reader.raised && 0 < count <= MAX_READ && s.reader.position <= |s.reader.block|
      && (s.reader.position < |s.reader.block| || s.reader.finished || s.queue.Some?)
    case Stop => !s.stopped
  }

  /** What the reader hands over from its block. */
  function Deliver(s: State, count: nat): State {
    var r := s.reader;
    var end := if r.position + count < |r.block| then r.position + count else |r.block|;
    if r.position > end then s
    else s.(reader := r.(position := end), delivered := s.delivered + r.block[r.position..end])
  }

  function AfterRead(s: State, count: nat): State {
    if s.reader.position != |s.reader.block| then Deliver(s, count)
    else if s.reader.finished then s
    else
      match s.queue
      case None => s
      case Some(Fault) => s.(queue := None, reader := s.reader.(raised := true))
      case Some(End) => s.(queue := None, reader := s.reader.(finished := true))
      case Some(Block(bytes)) => Deliver(s.(queue := None, reader := s.reader.(block := bytes, position := 0)), count)
  }

  function HeldBytes(item: Item): seq<byte> {
    match item
    case Block(bytes) => bytes
    case _ => []
  }

  function Step(s: State, a: Action): State
    requires Enabled(s, a)
  {
    match a
    case Fetch(count) =>
      s.(unread := s.unread[count..], producer := Checking(if count == 0 then End else Block(s.unread[..count])))
    case Fail => s.(producer := Checking(Fault))
    case Check =>
      if s.stopped then s.(producer := Gone, dropped := HeldBytes(s.producer.item))
      else s.(producer := Putting(s.producer.item))
    case Put =>
      if s.queue.Some? then s.(producer := Checking(s.producer.item))
      else s.(queue := Some(s.producer.item), producer := if s.producer.item.Block? then Reading else Gone)
    case Read(count) => AfterRead(s, count)
    case Stop => s.(stopped := true)
  }

  // ---------------------------------------------------------------------------------------
  // What every step keeps
  // ---------------------------------------------------------------------------------------

  function Held(s: State): seq<byte> {
    match s.producer
    case Checking(item) => HeldBytes(item)
    case Putting(item) => HeldBytes(item)
    case _ => []
  }

  function Queued(s: State): seq<byte> {
    match s.queue
    case Some(item) => HeldBytes(item)
    case None => []
  }

  function Buffered(s: State): seq<byte> {
    if s.reader.position <= |s.reader.block| then s.reader.block[s.reader.position..] else []
  }

  /** Every byte is somewhere, and in order. */
  ghost predicate Conserved(s: State, content: seq<byte>) {
    content == s.delivered + (Buffered(s) + (Queued(s) + (Held(s) + (s.dropped + s.unread))))
  }

  ghost predicate Fair(item: Item, chunk: nat) {
    item.Block? ==> 0 < |item.bytes| <= chunk
  }

  /** The end is only sent behind all bytes, by a producer that then leaves; a producer that is
      gone has sent an end or a fault, unless it was told to stop. */
  ghost predicate Ordered(s: State) {
    && s.reader.position <= |s.reader.block| <= s.chunk
    && (s.queue.Some? ==> Fair(s.queue.value, s.chunk))
    && (s.producer.Checking? || s.producer.Putting? ==> Fair(s.producer.item, s.chunk))
    && ((s.producer.Checking? || s.producer.Putting?) && s.producer.item == End ==> s.unread == [])
    && (s.queue == Some(End) || s.reader.finished ==> s.producer == Gone && s.unread == [] && s.dropped == [])
    && (s.queue == Some(Fault) || s.reader.raised ==> s.producer == Gone)
    && (s.reader.finished || s.reader.raised ==> s.queue == None && s.reader.position == |s.reader.block|)
    && !(s.reader.finished && s.reader.raised)
    && (s.dropped != [] ==> s.producer == Gone && s.stopped)
    && (s.producer == Gone && !s.stopped ==>
          s.queue == Some(End) || s.queue == Some(Fault) || s.reader.finished || s.reader.raised)
  }

  lemma DeliverKeeps(s: State, count: nat)
    requires s.reader.position <= |s.reader.block|
    ensures var after := Deliver(s, count);
            && after.delivered + Buffered(after) == s.delivered + Buffered(s)
            && after.reader.position <= |after.reader.block|
            && after == s.(reader := s.reader.(position := after.reader.position), delivered := after.delivered)
            && |after.delivered| <= |s.delivered| + count
            && (count > 0 && s.reader.position < |s.reader.block| ==> |after.delivered| > |s.delivered|)
  {
    var r := s.reader;
    var end := if r.position + count < |r.block| then r.position + count else |r.block|;
    assert r.block[r.position..] == r.block[r.position..end] + r.block[end..];
  }

  lemma Rejoin(a: seq<byte>, b: seq<byte>, c: seq<byte>, d: seq<byte>, rest: seq<byte>)
    requires a + b == c + d
    ensures a + (b + rest) == c + (d + rest)
  {
    assert a + (b + rest) == (a + b) + rest && c + (d + rest) == (c + d) + rest;
  }

  /** The reader handed over part of its block, or took a block from the queue. */
  lemma ReadConserves(s: State, after: State, content: seq<byte>)
    requires Conserved(s, content)
    requires after.producer == s.producer && after.dropped == s.dropped && after.unread == s.unread
    requires || (after.delivered + Buffered(after) == s.delivered + Buffered(s) && Queued(after) == Queued(s))
             || (Buffered(s) == [] && Queued(after) == []
                 && after.delivered + Buffered(after) == s.delivered + Queued(s))
    ensures Conserved(after, content)
  {
    hide Buffered, Queued;
    var rest := Held(s) + (s.dropped + s.unread);
    assert Held(after) == Held(s);
    hide Held;
    if Queued(after) == Queued(s) && after.delivered + Buffered(after) == s.delivered + Buffered(s) {
      Rejoin(after.delivered, Buffered(after), s.delivered, Buffered(s), Queued(s) + rest);
    } else {
      assert [] + rest == rest && [] + (Queued(s) + rest) == Queued(s) + rest;
      Rejoin(after.delivered, Buffered(after), s.delivered, Queued(s), rest);
    }
  }

  lemma ReadKeeps(s: State, content: seq<byte>, count: nat)
    requires Conserved(s, content) && Ordered(s) && Enabled(s, Read(count))
    ensures Conserved(AfterRead(s, count), content) && Ordered(AfterRead(s, count))
  {
    hide Conserved;
    if s.reader.position != |s.reader.block| {
      DeliverKeeps(s, count);
      ReadConserves(s, Deliver(s, count), content);
      hide Deliver;
    } else if !s.reader.finished {
      TakeKeeps(s, content, count);
    }
  }

  lemma TakeKeeps(s: State, content: seq<byte>, count: nat)
    requires Conserved(s, content) && Ordered(s) && Enabled(s, Read(count))
    requires s.reader.position == |s.reader.block| && !s.reader.finished
    ensures Conserved(AfterRead(s, count), content) && Ordered(AfterRead(s, count))
  {
    hide Conserved;
    var item := s.queue.value;
    if item.Block? {
      var next := s.(queue := None, reader := s.reader.(block := item.bytes, position := 0));
      assert Buffered(next) == item.bytes;
      DeliverKeeps(next, count);
      hide Deliver;
      ReadConserves(s, Deliver(next, count), content);
    } else {
      ReadConserves(s, AfterRead(s, count), content);
    }
  }

  /** A step that moves bytes only between the producer, the queue and the source. */
  lemma TailConserves(s: State, after: State, content: seq<byte>)
    requires Conserved(s, content) && after.delivered == s.delivered && after.reader == s.reader
    requires Queued(after) + (Held(after) + (after.dropped + after.unread)) == Queued(s) + (Held(s) + (s.dropped + s.unread))
    ensures Conserved(after, content)
  {
    assert Buffered(after) == Buffered(s);
    hide Buffered, Queued, Held;
  }

  lemma FetchKeeps(s: State, content: seq<byte>, count: nat)
    requires Conserved(s, content) && Ordered(s) && Enabled(s, Fetch(count))
    ensures Conserved(Step(s, Fetch(count)), content) && Ordered(Step(s, Fetch(count)))
  {
    var after := Step(s, Fetch(count));
    hide Conserved;
    assert s.unread == s.unread[..count] + s.unread[count..];
    assert s.dropped == [] && Held(s) == [] && Held(after) == s.unread[..count] && after.unread == s.unread[count..];
    assert Held(after) + ([] + after.unread) == [] + ([] + s.unread);
    TailConserves(s, after, content);
  }

  lemma CheckKeeps(s: State, content: seq<byte>)
    requires Conserved(s, content) && Ordered(s) && Enabled(s, Check)
    ensures Conserved(Step(s, Check), content) && Ordered(Step(s, Check))
  {
    var after := Step(s, Check);
    hide Conserved;
    assert s.dropped == [];
    assert Held(after) + (after.dropped + s.unread) == Held(s) + (s.dropped + s.unread);
    TailConserves(s, after, content);
  }

  lemma PutKeeps(s: State, content: seq<byte>)
    requires Conserved(s, content) && Ordered(s) && Enabled(s, Put)
    ensures Conserved(Step(s, Put), content) && Ordered(Step(s, Put))
  {
    var after := Step(s, Put);
    hide Conserved;
    var rest := s.dropped + s.unread;
    assert Queued(after) + (Held(after) + rest) == Queued(s) + (Held(s) + rest) by {
      if s.queue == None {
        assert Queued(s) == [] && Held(after) == [] && Queued(after) == Held(s);
        assert [] + rest == rest && [] + (Held(s) + rest) == Held(s) + rest;
      }
    }
    TailConserves(s, after, content);
  }

  lemma ProducerKeeps(s: State, content: seq<byte>, a: Action)
    requires Conserved(s, content) && Ordered(s) && Enabled(s, a) && !a.Read?
    ensures Conserved(Step(s, a), content) && Ordered(Step(s, a))
  {
    match a
    case Fetch(count) => FetchKeeps(s, content, count);
    case Check => CheckKeeps(s, content);
    case Put => PutKeeps(s, content);
    case Fail => TailConserves(s, Step(s, a), content);
    case Stop => TailConserves(s, Step(s, a), content);
  }

  // ---------------------------------------------------------------------------------------
  // Runs
  // ---------------------------------------------------------------------------------------

  /** The state after some interleaving, if every step in it was possible. */
  function Run(s: State, actions: seq<Action>): Option<State>
    decreases |actions|
  {
    if actions == [] then Some(s)
    else if Enabled(s, actions[0]) then Run(Step(s, actions[0]), actions[1..]) else None
  }

  lemma {:induction false} RunFrom(s: State, content: seq<byte>, actions: seq<Action>)
    requires Conserved(s, content) && Ordered(s) && Run(s, actions).Some?
    ensures var end := Run(s, actions).value; Conserved(end, content) && Ordered(end)
    decreases |actions|
  {
    hide Conserved, Ordered, Step, Enabled;
    if actions != [] {
      var a := actions[0];
      if a.Read? {
        ReadKeeps(s, content, a.count);
        ReadStep(s, a.count);
      } else {
        ProducerKeeps(s, content, a);
      }
      RunFrom(Step(s, a), content, actions[1..]);
    }
  }

  lemma ReadStep(s: State, count: nat)
    requires Enabled(s, Read(count))
    ensures Step(s, Read(count)) == AfterRead(s, count)
  {
  }

  ghost predicate Reached(content: seq<byte>, chunk: nat, s: State) {
    exists actions :: Run(Start(content, chunk), actions) == Some(s)
  }

  /** In every interleaving no byte is lost, doubled or moved, and what the reader has is a prefix. */
  lemma EveryRunConserves(content: seq<byte>, chunk: nat, s: State)
    requires Reached(content, chunk, s)
    ensures Conserved(s, content) && Ordered(s) && s.delivered <= content
  {
    var actions :| Run(Start(content, chunk), actions) == Some(s);
    assert Conserved(Start(content, chunk), content) && Ordered(Start(content, chunk)) by {
      assert [] + ([] + ([] + ([] + ([] + content)))) == content;
    }
    hide Ordered, Step, Enabled;
    RunFrom(Start(content, chunk), content, actions);
  }

  /** A read answers with at most what was asked, with something unless it raises, and with
      nothing only once everything has been delivered. */
  lemma EmptyOnlyAtTheEnd(content: seq<byte>, chunk: nat, s: State, count: nat)
    requires Reached(content, chunk, s) && Enabled(s, Read(count))
    ensures var after := Step(s, Read(count));
            && |s.delivered| <= |after.delivered| <= |s.delivered| + count
            && (after.delivered == s.delivered && !after.reader.raised ==> s.delivered == content)
  {
    EveryRunConserves(content, chunk, s);
    hide Reached;
    if s.reader.position != |s.reader.block| {
      DeliverKeeps(s, count);
    } else if !s.reader.finished && s.queue.value.Block? {
      DeliverKeeps(s.(queue := None, reader := s.reader.(block := s.queue.value.bytes, position := 0)), count);
    }
    hide Deliver;
  }

  /** Never more than three blocks are held at once. */
  lemma FewBytesInFlight(content: seq<byte>, chunk: nat, s: State)
    requires Reached(content, chunk, s)
    ensures |Buffered(s)| + |Queued(s)| + |Held(s)| <= 3 * s.chunk
  {
    EveryRunConserves(content, chunk, s);
    hide Reached, Conserved;
  }

  // ---------------------------------------------------------------------------------------
  // Progress
  // ---------------------------------------------------------------------------------------

  predicate ByProducer(a: Action) {
    a.Fetch? || a.Fail? || a.Check? || a.Put?
  }

  function Left(s: State): nat {
    match s.producer
    case Gone => 0
    case Checking(_) => 1
    case Reading => 2
    case Putting(_) => 3
  }

  /** Once told to stop, the producer leaves within three of its own steps, whatever it holds and
      whether or not the queue has room. */
  lemma StoppedProducerLeaves(s: State, a: Action)
    requires s.stopped && Enabled(s, a) && ByProducer(a)
    ensures Left(Step(s, a)) < Left(s) <= 3
  {
  }

  lemma ProducerCanStep(s: State)
    requires s.producer != Gone && s.chunk > 0
    ensures exists a :: ByProducer(a) && Enabled(s, a)
  {
    match s.producer
    case Reading =>
      if s.unread == [] {
        assert Enabled(s, Fetch(0));
      } else {
        assert Enabled(s, Fetch(1));
      }
    case Checking(_) => assert Enabled(s, Check);
    case Putting(_) => assert Enabled(s, Put);
  }

  /** Steps to the next item in an empty queue. */
  function Wait(s: State): nat {
    match s.producer
    case Reading => 3
    case Checking(_) => 2
    case Putting(_) => 1
    case Gone => 0
  }

  /** No deadlock: while the reader waits, the producer is not gone, and each of its steps comes
      closer to filling the queue, which at most three of them do. */
  lemma WaitingReaderIsServed(content: seq<byte>, chunk: nat, s: State, a: Action)
    requires Reached(content, chunk, s) && !s.stopped && !s.reader.raised && !s.reader.finished && s.queue == None
    requires Enabled(s, a) && ByProducer(a)
    ensures s.producer != Gone && Wait(s) <= 3
    ensures var after := Step(s, a); after.queue.Some? || (after.queue == None && Wait(after) < Wait(s))
  {
    EveryRunConserves(content, chunk, s);
    hide Reached, Conserved;
  }

  lemma WaitingReaderHasProducer(content: seq<byte>, chunk: nat, s: State)
    requires Reached(content, chunk, s) && !s.stopped && !s.reader.raised && !s.reader.finished && s.queue == None
    ensures s.producer != Gone
  {
    EveryRunConserves(content, chunk, s);
    hide Reached, Conserved;
  }
}
