/**
 The lock-free queue as a step system. Every load, buffer access and store of push and pop is
 one atomic step of the producer or of the consumer, so all interleavings are covered. The
 counters wrap at 2^64; pushed and popped record, for the proof, what went in and out so far.
 */
module SpscRing {
  import opened BitMask

  /** Where the producer is inside push; head is its own counter as it loaded it. */
  datatype ProducerPc<T> =
    | PIdle
    | PLoadedHead(item: T, head: nat)
    | PReady(item: T, head: nat)    // not full when tail was loaded; about to write the cell
    | PWritten(item: T, head: nat)  // about to publish the new head

  /** Where the consumer is inside pop; tail is its own counter as it loaded it. */
  datatype ConsumerPc<T> =
    | CIdle
    | CLoadedTail(tail: nat)
    | CReady(tail: nat)          // not empty when head was loaded; about to read the cell
    | CRead(item: T, tail: nat)  // about to publish the new tail

  datatype Ring<T> = Ring(buffer: seq<T>, head: nat, tail: nat,
                          producer: ProducerPc<T>, consumer: ConsumerPc<T>,
                          pushed: seq<T>, popped: seq<T>)

  /** What a step looks like from outside. */
  datatype Event<T> = Silent | Pushed(item: T) | Full | Popped(item: T) | Empty

  function Mask<T>(r: Ring<T>): nat
    requires |r.buffer| > 0
  {
    |r.buffer| - 1
  }

  function Init<T>(capacity: nat, blank: T): Ring<T>
  {
    Ring(seq(capacity, _ => blank), 0, 0, PIdle, CIdle, [], [])
  }

  /** push: load head, load tail and test for full, write the cell, store head. */
  function BeginPush<T>(r: Ring<T>, item: T): Ring<T>
  {
    r.(producer := PLoadedHead(item, r.head))
  }

  function LoadTail<T>(r: Ring<T>): (Ring<T>, Event<T>)
    requires r.producer.PLoadedHead? && r.producer.head < WORD && r.tail < WORD
  {
    if Minus(r.producer.head, r.tail) == |r.buffer| then (r.(producer := PIdle), Full)
    else (r.(producer := PReady(r.producer.item, r.producer.head)), Silent)
  }

  function WriteCell<T>(r: Ring<T>): Ring<T>
    requires r.producer.PReady? && |r.buffer| > 0 && And(r.producer.head, Mask(r)) < |r.buffer|
  {
    r.(buffer := r.buffer[And(r.producer.head, Mask(r)) := r.producer.item],
       producer := PWritten(r.producer.item, r.producer.head))
  }

  function StoreHead<T>(r: Ring<T>): (Ring<T>, Event<T>)
    requires r.producer.PWritten?
  {
    (r.(head := (r.producer.head + 1) % WORD, producer := PIdle, pushed := r.pushed + [r.producer.item]),
     Pushed(r.producer.item))
  }

  /** pop: load tail, load head and test for empty, read the cell, store tail. */
  function BeginPop<T>(r: Ring<T>): Ring<T>
  {
    r.(consumer := CLoadedTail(r.tail))
  }

  function LoadHead<T>(r: Ring<T>): (Ring<T>, Event<T>)
    requires r.consumer.CLoadedTail?
  {
    if r.head == r.consumer.tail then (r.(consumer := CIdle), Empty)
    else (r.(consumer := CReady(r.consumer.tail)), Silent)
  }

  function ReadCell<T>(r: Ring<T>): Ring<T>
    requires r.consumer.CReady? && |r.buffer| > 0 && And(r.consumer.tail, Mask(r)) < |r.buffer|
  {
    r.(consumer := CRead(r.buffer[And(r.consumer.tail, Mask(r))], r.consumer.tail))
  }

  function StoreTail<T>(r: Ring<T>): (Ring<T>, Event<T>)
    requires r.consumer.CRead?
  {
    (r.(tail := (r.consumer.tail + 1) % WORD, consumer := CIdle, popped := r.popped + [r.consumer.item]),
     Popped(r.consumer.item))
  }

  // ----- Invariant

  ghost predicate Occupancy<T>(r: Ring<T>)
  {
    && 2 <= |r.buffer| < WORD && IsPowerOfTwo(|r.buffer|)
    && r.popped <= r.pushed && |r.pushed| - |r.popped| <= |r.buffer|
    && r.head == |r.pushed| % WORD && r.tail == |r.popped| % WORD
  }

  /** The cells between tail and head hold what was pushed and not yet popped. */
  ghost predicate Cells<T>(r: Ring<T>)
    requires |r.buffer| > 0
  {
    forall k {:trigger r.pushed[k]} :: |r.popped| <= k < |r.pushed| ==> r.buffer[k % |r.buffer|] == r.pushed[k]
  }

  ghost predicate ProducerOk<T>(r: Ring<T>)
    requires |r.buffer| > 0
  {
    match r.producer
    case PIdle => true
    case PLoadedHead(_, h) => h == r.head
    case PReady(_, h) => h == r.head && |r.pushed| - |r.popped| < |r.buffer|
    case PWritten(item, h) =>
      && h == r.head && |r.pushed| - |r.popped| < |r.buffer|
      && r.buffer[|r.pushed| % |r.buffer|] == item
  }

  ghost predicate ConsumerOk<T>(r: Ring<T>)
  {
    match r.consumer
    case CIdle => true
    case CLoadedTail(t) => t == r.tail
    case CReady(t) => t == r.tail && |r.popped| < |r.pushed|
    case CRead(item, t) => t == r.tail && |r.popped| < |r.pushed| && item == r.pushed[|r.popped|]
  }

  ghost predicate Inv<T>(r: Ring<T>)
  {
    Occupancy(r) && Cells(r) && ProducerOk(r) && ConsumerOk(r)
  }

  /** The abstract bounded FIFO: what is pushed and not yet popped. */
  ghost function Contents<T>(r: Ring<T>): seq<T>
    requires |r.popped| <= |r.pushed|
  {
    r.pushed[|r.popped|..]
  }

  /** What a bounded FIFO of this capacity may do. */
  ghost predicate FifoStep<T>(capacity: nat, q: seq<T>, event: Event<T>, q': seq<T>)
  {
    match event
    case Silent => q' == q
    case Pushed(item) => |q| < capacity && q' == q + [item]
    case Full => |q| == capacity && q' == q
    case Popped(item) => |q| > 0 && item == q[0] && q' == q[1..]
    case Empty => q == [] && q' == q
  }

  /** Invariant kept, abstract FIFO step made, nothing but one end touched. */
  ghost predicate Simulates<T>(r: Ring<T>, event: Event<T>, r': Ring<T>)
    requires Occupancy(r)
  {
    && Inv(r') && |r'.buffer| == |r.buffer|
    && FifoStep(|r.buffer|, Contents(r), event, Contents(r'))
    && r'.pushed == (if event.Pushed? then r.pushed + [event.item] else r.pushed)
    && r'.popped == (if event.Popped? then r.popped + [event.item] else r.popped)
  }

  lemma InitInv<T>(capacity: nat, blank: T)
    requires 2 <= capacity < WORD && IsPowerOfTwo(capacity)
    ensures Inv(Init(capacity, blank)) && Contents(Init(capacity, blank)) == []
  {
  }

  lemma CounterFacts(h: nat, t: nat, c: nat)
    requires 0 < c < WORD && IsPowerOfTwo(c) && t <= h <= t + c
    ensures And(h % WORD, c - 1) == h % c < c && And(t % WORD, c - 1) == t % c < c
    ensures Minus(h % WORD, t % WORD) == h - t
    ensures h % WORD == t % WORD <==> h == t
  {
    WrappedIndex(h, c);
    WrappedIndex(t, c);
    WrappedDistance(h, t);
    WrappedEqual(h, t);
    DivMod(h, c);
    DivMod(t, c);
  }

  lemma HeadCell<T>(r: Ring<T>)
    requires Occupancy(r)
    ensures And(r.head, Mask(r)) == |r.pushed| % |r.buffer| < |r.buffer|
    ensures And(r.tail, Mask(r)) == |r.popped| % |r.buffer| < |r.buffer|
    ensures Minus(r.head, r.tail) == |r.pushed| - |r.popped|
    ensures r.head == r.tail <==> |r.pushed| == |r.popped|
  {
    CounterFacts(|r.pushed|, |r.popped|, |r.buffer|);
  }

  /** Producer and consumer never access the same cell at the same time. */
  lemma NoSharedCell<T>(r: Ring<T>)
    requires Inv(r) && r.producer.PReady? && r.consumer.CReady?
    ensures And(r.producer.head, Mask(r)) != And(r.consumer.tail, Mask(r))
  {
    HeadCell(r);
    CellsDiffer(|r.popped|, |r.pushed|, |r.buffer|);
  }

  lemma BeginPushStep<T>(r: Ring<T>, item: T)
    requires Inv(r) && r.producer.PIdle?
    ensures Simulates(r, Silent, BeginPush(r, item))
  {
  }

  lemma LoadTailStep<T>(r: Ring<T>)
    requires Inv(r) && r.producer.PLoadedHead?
    ensures Simulates(r, LoadTail(r).1, LoadTail(r).0)
  {
    HeadCell(r);
  }

  lemma WriteCellStep<T>(r: Ring<T>)
    requires Inv(r) && r.producer.PReady?
    ensures And(r.producer.head, Mask(r)) < |r.buffer|
    ensures Simulates(r, Silent, WriteCell(r))
  {
    HeadCell(r);
    var r', c := WriteCell(r), |r.buffer|;
    forall k {:trigger r'.pushed[k]} | |r'.popped| <= k < |r'.pushed|
      ensures r'.buffer[k % c] == r'.pushed[k]
    {
      CellsDiffer(k, |r.pushed|, c);
      assert r.buffer[k % c] == r.pushed[k];
    }
  }

  lemma StoreHeadStep<T>(r: Ring<T>)
    requires Inv(r) && r.producer.PWritten?
    ensures Simulates(r, StoreHead(r).1, StoreHead(r).0)
  {
    WrappedIncrement(|r.pushed|);
    var r' := StoreHead(r).0;
    forall k {:trigger r'.pushed[k]} | |r'.popped| <= k < |r'.pushed|
      ensures r'.buffer[k % |r.buffer|] == r'.pushed[k]
    {
      assert k < |r.pushed| ==> r.buffer[k % |r.buffer|] == r.pushed[k];
    }
  }

  lemma BeginPopStep<T>(r: Ring<T>)
    requires Inv(r) && r.consumer.CIdle?
    ensures Simulates(r, Silent, BeginPop(r))
  {
  }

  lemma LoadHeadStep<T>(r: Ring<T>)
    requires Inv(r) && r.consumer.CLoadedTail?
    ensures Simulates(r, LoadHead(r).1, LoadHead(r).0)
  {
    HeadCell(r);
  }

  lemma ReadCellStep<T>(r: Ring<T>)
    requires Inv(r) && r.consumer.CReady?
    ensures And(r.consumer.tail, Mask(r)) < |r.buffer|
    ensures Simulates(r, Silent, ReadCell(r))
  {
    HeadCell(r);
    assert r.pushed[|r.popped|] == r.buffer[|r.popped| % |r.buffer|];
  }

  lemma StoreTailStep<T>(r: Ring<T>)
    requires Inv(r) && r.consumer.CRead?
    ensures Simulates(r, StoreTail(r).1, StoreTail(r).0)
  {
    WrappedIncrement(|r.popped|);
    var r' := StoreTail(r).0;
    assert forall k {:trigger r'.pushed[k]} :: |r'.popped| <= k < |r'.pushed| ==> r'.pushed[k] == r.pushed[k];
    assert Contents(r') == Contents(r)[1..];
  }

  // ----- Whole runs

  /** Which thread moves; a producer outside push starts pushing the given item. */
  datatype Turn<T> = Producer(next: T) | Consumer

  function Move<T>(r: Ring<T>, turn: Turn<T>): (s: (Ring<T>, Event<T>))
    requires Inv(r)
    ensures Simulates(r, s.1, s.0)
  {
    match turn
    case Producer(item) => (
      match r.producer
      case PIdle => BeginPushStep(r, item); (BeginPush(r, item), Silent)
      case PLoadedHead(_, _) => LoadTailStep(r); LoadTail(r)
      case PReady(_, _) => WriteCellStep(r); (WriteCell(r), Silent)
      case PWritten(_, _) => StoreHeadStep(r); StoreHead(r))
    case Consumer => (
      match r.consumer
      case CIdle => BeginPopStep(r); (BeginPop(r), Silent)
      case CLoadedTail(_) => LoadHeadStep(r); LoadHead(r)
      case CReady(_) => ReadCellStep(r); (ReadCell(r), Silent)
      case CRead(_, _) => StoreTailStep(r); StoreTail(r))
  }

  /** A producer's turn: how push proceeds, and that the consumer's end is left alone. */
  lemma ProducerMove<T>(r: Ring<T>, item: T)
    requires Inv(r) && (r.producer.PIdle? || r.producer.item == item)
    ensures var (r', e) := Move(r, Producer(item));
            && r'.consumer == r.consumer && r'.tail == r.tail && r'.popped == r.popped
            && (e.Silent? || e.Full? || e == Pushed(item))
            && (e.Silent? ==> && !r'.producer.PIdle? && r'.producer.item == item
                              && r'.pushed == r.pushed && r'.head == r.head)
            && (e.Full? ==> r'.producer.PIdle? && r'.pushed == r.pushed && r'.head == r.head)
            && (e.Pushed? ==> r'.producer.PIdle? && !r.producer.PIdle? && r'.pushed == r.pushed + [item])
            && (r.producer.PIdle? ==> e.Silent?)
  {
  }

  /** A consumer's turn: how pop proceeds, and that the producer's end is left alone. */
  lemma ConsumerMove<T>(r: Ring<T>)
    requires Inv(r)
    ensures var (r', e) := Move(r, Consumer);
            && r'.producer == r.producer && r'.head == r.head && r'.pushed == r.pushed
            && (e.Silent? || e.Empty? || e.Popped?)
            && (e.Silent? ==> !r'.consumer.CIdle? && r'.popped == r.popped)
            && (r.consumer.CIdle? ==> e.Silent? && r'.consumer.CLoadedTail?)
            && (r.consumer.CLoadedTail? && |r.popped| == |r.pushed| ==> e.Empty?)
            && (e.Empty? ==> r'.consumer.CIdle? && r'.popped == r.popped && |r.popped| == |r.pushed|)
            && (e.Popped? ==> && r'.consumer.CIdle? && |r.popped| < |r.pushed|
                              && e.item == r.pushed[|r.popped|] && r'.popped == r.popped + [e.item])
  {
    HeadCell(r);
  }

  /** How many more steps a push can take. */
  function PushStepsLeft<T>(p: ProducerPc<T>): nat
  {
    match p
    case PIdle => 4
    case PLoadedHead(_, _) => 3
    case PReady(_, _) => 2
    case PWritten(_, _) => 1
  }

  lemma {:induction false} PushProgress<T>(r: Ring<T>, item: T)
    requires Inv(r)
    ensures var (r', e) := Move(r, Producer(item));
            e.Silent? ==> PushStepsLeft(r'.producer) < PushStepsLeft(r.producer)
  {
  }

  /** How many more steps a pop can take. */
  function PopStepsLeft<T>(c: ConsumerPc<T>): nat
  {
    match c
    case CIdle => 4
    case CLoadedTail(_) => 3
    case CReady(_) => 2
    case CRead(_, _) => 1
  }

  lemma {:induction false} PopProgress<T>(r: Ring<T>)
    requires Inv(r)
    ensures var (r', e) := Move(r, Consumer); e.Silent? ==> PopStepsLeft(r'.consumer) < PopStepsLeft(r.consumer)
  {
  }

  function Run<T>(r: Ring<T>, turns: seq<Turn<T>>): (s: (Ring<T>, seq<Event<T>>))
    requires Inv(r)
    ensures Inv(s.0)
    decreases |turns|
  {
    if turns == [] then (r, [])
    else
      var (r1, e) := Move(r, turns[0]);
      var (r2, es) := Run(r1, turns[1..]);
      (r2, [e] + es)
  }

  /** The events are a behaviour of the abstract bounded FIFO from q to q'. */
  ghost predicate FifoRun<T>(capacity: nat, q: seq<T>, events: seq<Event<T>>, q': seq<T>)
    decreases |events|
  {
    if events == [] then q == q'
    else
      var q1 := match events[0]
        case Pushed(item) => q + [item]
        case Popped(_) => if q == [] then q else q[1..]
        case Silent => q
        case Full => q
        case Empty => q;
      FifoStep(capacity, q, events[0], q1) && FifoRun(capacity, q1, events[1..], q')
  }

  lemma {:induction false} RunRefinesFifo<T>(r: Ring<T>, turns: seq<Turn<T>>)
    requires Inv(r)
    ensures FifoRun(|r.buffer|, Contents(r), Run(r, turns).1, Contents(Run(r, turns).0))
    ensures |Run(r, turns).0.buffer| == |r.buffer|
    decreases |turns|
  {
    if turns != [] {
      RunRefinesFifo(Move(r, turns[0]).0, turns[1..]);
    }
  }

  /**
   Every interleaving of push and pop steps, from an empty queue, over any number of counter
   wrap-arounds: the results of the calls are those of a bounded FIFO, what was popped is a
   prefix of what was pushed, and the occupancy stays within the capacity.
   */
  lemma RefinesBoundedFifo<T>(capacity: nat, blank: T, turns: seq<Turn<T>>)
    requires 2 <= capacity < WORD && IsPowerOfTwo(capacity)
    ensures Inv(Init(capacity, blank))
    ensures var (r, events) := Run(Init(capacity, blank), turns);
            && r.popped <= r.pushed && |r.pushed| - |r.popped| <= capacity
            && FifoRun(capacity, [], events, Contents(r))
  {
    InitInv(capacity, blank);
    RunRefinesFifo(Init(capacity, blank), turns);
  }
}
