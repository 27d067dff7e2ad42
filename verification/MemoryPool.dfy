/** The pool of payload slots: a queue of free slot numbers and a double-free guard. */
module MemoryPool {
  import opened Bytes

  datatype Slots = Slots(free: seq<nat>, isFree: seq<bool>)

  ghost predicate SlotsOk(p: Slots)
  {
    && (forall i, j :: 0 <= i < j < |p.free| ==> p.free[i] != p.free[j])
    && (forall i :: 0 <= i < |p.free| ==> p.free[i] < |p.isFree|)
    && (forall s :: 0 <= s < |p.isFree| ==> (p.isFree[s] <==> s in p.free))
  }

  function AllFree(capacity: nat): Slots
  {
    Slots(seq(capacity, i => i), seq(capacity, _ => true))
  }

  /** Takes the slot that has been free longest; the pool must not be exhausted. */
  function Acquire(p: Slots): Slots
    requires p.free != [] && p.free[0] < |p.isFree|
  {
    Slots(p.free[1..], p.isFree[p.free[0] := false])
  }

  /** Gives a slot back; releasing a free slot is ignored. */
  function Release(p: Slots, slot: nat): Slots
    requires slot < |p.isFree|
  {
    if p.isFree[slot] then p else Slots(p.free + [slot], p.isFree[slot := true])
  }

  lemma AcquireOk(p: Slots)
    requires SlotsOk(p) && p.free != []
    ensures SlotsOk(Acquire(p)) && p.isFree[p.free[0]] && !Acquire(p).isFree[p.free[0]]
    ensures forall s :: s in Acquire(p).free <==> s in p.free && s != p.free[0]
  {
    var q := Acquire(p);
    assert p.free == [p.free[0]] + q.free;
    forall s ensures s in q.free <==> s in p.free && s != p.free[0] {
      if s in q.free {
        var i :| 0 <= i < |q.free| && q.free[i] == s;
        assert p.free[i + 1] == s;
      }
    }
  }

  lemma ReleaseOk(p: Slots, slot: nat)
    requires SlotsOk(p) && slot < |p.isFree|
    ensures SlotsOk(Release(p, slot)) && Release(p, slot).isFree[slot]
    ensures forall s :: s in Release(p, slot).free <==> s in p.free || s == slot
  {
    var q := Release(p, slot);
    if !p.isFree[slot] {
      assert forall s :: s in q.free <==> s in p.free || s == slot;
    }
  }

  /** The class: the byte buffers themselves, and the bookkeeping above. */
  class PacketMemoryPool {
    const pool: seq<array<Byte>>
    var freeSlots: seq<nat>
    var isFree: seq<bool>

    ghost function State(): Slots
      reads this
    {
      Slots(freeSlots, isFree)
    }

    ghost predicate Valid()
      reads this
    {
      && SlotsOk(State()) && |isFree| == |pool|
      && forall i, j :: 0 <= i < j < |pool| ==> pool[i] != pool[j]
    }

    constructor (capacity: nat, payloadSize: nat)
      ensures Valid() && State() == AllFree(capacity)
      ensures |pool| == capacity && forall i :: 0 <= i < capacity ==> fresh(pool[i]) && pool[i].Length == payloadSize
    {
      var buffers: seq<array<Byte>> := [];
      for i := 0 to capacity
        invariant |buffers| == i
        invariant forall k :: 0 <= k < i ==> fresh(buffers[k]) && buffers[k].Length == payloadSize
        invariant forall j, k :: 0 <= j < k < i ==> buffers[j] != buffers[k]
      {
        var buffer := new Byte[payloadSize](_ => 0);
        buffers := buffers + [buffer];
      }
      var slots: seq<nat> := [];
      for i := 0 to capacity
        invariant slots == seq(i, k => k)
      {
        slots := slots + [i];
      }
      pool := buffers;
      freeSlots := slots;
      isFree := seq(capacity, _ => true);
      new;
      forall s | 0 <= s < capacity ensures s in freeSlots {
        assert freeSlots[s] == s;
      }
    }

    method AcquireSlot() returns (ok: bool, slot: nat, buffer: array?<Byte>)
      requires Valid()
      modifies this
      ensures Valid()
      ensures ok <==> old(freeSlots) != []
      ensures ok ==> old(State()).free[0] == slot < |pool| && State() == Acquire(old(State())) && buffer == pool[slot]
      ensures !ok ==> State() == old(State()) && buffer == null
    {
      if freeSlots != [] {
        AcquireOk(State());
        slot := freeSlots[0];
        freeSlots := freeSlots[1..];
        isFree := isFree[slot := false];
        return true, slot, pool[slot];
      }
      return false, 0, null;
    }

    method ReleaseSlot(slot: nat)
      requires Valid() && slot < |pool|
      modifies this
      ensures Valid() && State() == Release(old(State()), slot)
    {
      ReleaseOk(State(), slot);
      if !isFree[slot] {
        freeSlots := freeSlots + [slot];
        isFree := isFree[slot := true];
      }
    }
  }
}
