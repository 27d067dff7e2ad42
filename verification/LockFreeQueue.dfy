/** The queue class itself: push and pop run alone are the four ring steps in a row. */
module LockFreeQueues {
  import opened BitMask
  import opened SpscRing

  /** An undisturbed push: load head, load tail, write the cell, store head. */
  ghost function PushAlone<T>(r: Ring<T>, item: T): (s: (Ring<T>, bool))
    requires Inv(r) && r.producer.PIdle?
    ensures Inv(s.0) && |s.0.buffer| == |r.buffer| && s.0.popped == r.popped
    ensures s.1 <==> |Contents(r)| < |r.buffer|
    ensures s.0.pushed == if s.1 then r.pushed + [item] else r.pushed
  {
    BeginPushStep(r, item);
    LoadTailStep(BeginPush(r, item));
    var r1 := LoadTail(BeginPush(r, item)).0;
    if r1.producer.PIdle? then (r1, false)
    else
      WriteCellStep(r1);
      StoreHeadStep(WriteCell(r1));
      (StoreHead(WriteCell(r1)).0, true)
  }

  /** An undisturbed pop: load tail, load head, read the cell, store tail. */
  ghost function PopAlone<T>(r: Ring<T>): (s: (Ring<T>, bool))
    requires Inv(r) && r.consumer.CIdle?
    ensures Inv(s.0) && |s.0.buffer| == |r.buffer| && s.0.pushed == r.pushed
    ensures s.1 <==> Contents(r) != []
    ensures s.0.popped == if s.1 then r.popped + [Contents(r)[0]] else r.popped
  {
    BeginPopStep(r);
    LoadHeadStep(BeginPop(r));
    var r1 := LoadHead(BeginPop(r)).0;
    if r1.consumer.CIdle? then (r1, false)
    else
      ReadCellStep(r1);
      StoreTailStep(ReadCell(r1));
      (StoreTail(ReadCell(r1)).0, true)
  }

  lemma PushAloneResult<T>(r: Ring<T>, item: T)
    requires Inv(r) && r.producer.PIdle?
    ensures And(r.head, Mask(r)) < |r.buffer|
    ensures PushAlone(r, item) ==
              if Minus(r.head, r.tail) == |r.buffer| then (r, false)
              else (r.(buffer := r.buffer[And(r.head, Mask(r)) := item], head := (r.head + 1) % WORD,
                       pushed := r.pushed + [item]), true)
    ensures Contents(PushAlone(r, item).0) == if PushAlone(r, item).1 then Contents(r) + [item] else Contents(r)
  {
    HeadCell(r);
  }

  lemma PopAloneResult<T>(r: Ring<T>)
    requires Inv(r) && r.consumer.CIdle?
    ensures And(r.tail, Mask(r)) < |r.buffer|
    ensures var item := r.buffer[And(r.tail, Mask(r))];
            && PopAlone(r) == (if r.head == r.tail then (r, false)
                               else (r.(tail := (r.tail + 1) % WORD, popped := r.popped + [item]), true))
            && (PopAlone(r).1 ==> Contents(r) == [item] + Contents(PopAlone(r).0))
  {
    HeadCell(r);
    ReadCellFront(r);
  }

  /** The cell at tail holds the front of a nonempty queue. */
  lemma ReadCellFront<T>(r: Ring<T>)
    requires Inv(r)
    ensures And(r.tail, Mask(r)) < |r.buffer|
    ensures |r.popped| < |r.pushed| ==> r.buffer[And(r.tail, Mask(r))] == r.pushed[|r.popped|]
  {
    HeadCell(r);
    assert |r.popped| < |r.pushed| ==> r.pushed[|r.popped|] == r.buffer[|r.popped| % |r.buffer|];
  }

  class LockFreeQueue<T> {
    const buffer: array<T>
    const capacity: nat
    const mask: nat
    var head: nat
    var tail: nat
    ghost var pushed: seq<T>
    ghost var popped: seq<T>

    ghost function Snapshot(): Ring<T>
      reads this, buffer
    {
      Ring(buffer[..], head, tail, PIdle, CIdle, pushed, popped)
    }

    ghost predicate Valid()
      reads this, buffer
    {
      Inv(Snapshot()) && capacity == buffer.Length && mask == capacity - 1
    }

    constructor (capacity: nat, blank: T)
      requires 2 <= capacity < WORD && IsPowerOfTwo(capacity)
      ensures Valid() && fresh(buffer) && this.capacity == capacity && Snapshot() == Init(capacity, blank)
    {
      buffer := new T[capacity](_ => blank);
      this.capacity := capacity;
      mask := capacity - 1;
      head, tail := 0, 0;
      pushed, popped := [], [];
      new;
      assert buffer[..] == seq(capacity, _ => blank);
      InitInv(capacity, blank);
    }

    method Push(item: T) returns (ok: bool)
      requires Valid()
      modifies this, buffer
      ensures Valid()
      ensures (Snapshot(), ok) == PushAlone(old(Snapshot()), item)
      ensures ok <==> |old(Contents(Snapshot()))| < capacity
      ensures Contents(Snapshot()) == if ok then old(Contents(Snapshot())) + [item] else old(Contents(Snapshot()))
    {
      PushAloneResult(Snapshot(), item);
      ghost var cells := buffer[..];
      var currentHead := head;
      var currentTail := tail;
      if Minus(currentHead, currentTail) == capacity {
        return false;
      }
      buffer[And(currentHead, mask)] := item;
      assert buffer[..] == cells[And(currentHead, mask) := item];
      head := (currentHead + 1) % WORD;
      pushed := pushed + [item];
      return true;
    }

    /** previous is what the caller's variable held; it is left alone when the queue is empty. */
    method Pop(previous: T) returns (ok: bool, item: T)
      requires Valid()
      modifies this
      ensures Valid()
      ensures (Snapshot(), ok) == PopAlone(old(Snapshot()))
      ensures ok <==> old(Contents(Snapshot())) != []
      ensures ok ==> old(Contents(Snapshot())) == [item] + Contents(Snapshot())
      ensures !ok ==> item == previous && Contents(Snapshot()) == []
    {
      ghost var r := Snapshot();
      PopAloneResult(r);
      item := previous;
      var currentTail := tail;
      var currentHead := head;
      if currentHead == currentTail {
        return false, item;
      }
      item := buffer[And(currentTail, mask)];
      tail := (currentTail + 1) % WORD;
      popped := popped + [item];
      assert Snapshot() == r.(tail := (r.tail + 1) % WORD, popped := r.popped + [item]);
      return true, item;
    }

    method IsEmpty() returns (empty: bool)
      requires Valid()
      ensures empty <==> Contents(Snapshot()) == []
    {
      HeadCell(Snapshot());
      empty := head == tail;
    }
  }

  /** The constructor's argument check. */
  predicate Rejected(capacity: nat)
    ensures Rejected(capacity) <==> capacity < 2 || !IsPowerOfTwo(capacity)
  {
    if capacity < 2 then true
    else
      PowerOfTwoTest(capacity);
      And(capacity, capacity - 1) != 0
  }

  /** Construction with that check; null stands for the exception. */
  method Create<T>(capacity: nat, blank: T) returns (q: LockFreeQueue?<T>)
    requires capacity < WORD
    ensures q != null <==> capacity >= 2 && IsPowerOfTwo(capacity)
    ensures q != null ==>
              fresh(q) && fresh(q.buffer) && q.Valid() && q.capacity == capacity && Contents(q.Snapshot()) == []
  {
    if Rejected(capacity) {
      return null;
    }
    q := new LockFreeQueue<T>(capacity, blank);
  }
}
