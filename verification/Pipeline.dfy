/**
 The engine as a step system: one ingestion thread, N workers, a ring per worker, one slot pool
 and the shared flag. Each turn lets one thread make one atomic step; any sequence of turns is
 an interleaving. A turn may also clear the flag, at any moment.
 */
module Pipeline {
  import opened Bytes
  import opened BitMask
  import opened Options
  import opened FlowKey
  import opened MemoryPool
  import Spsc = SpscRing

  const SLOT_BYTES := 2048

  /** A captured packet after header parsing: its endpoints and its application payload. */
  datatype Packet = Packet(tuple: FiveTuple, payload: Word)

  datatype Config = Config(packets: seq<Packet>, workers: nat, queueCapacity: nat, slots: nat, hash: FiveTuple -> nat)

  ghost predicate ConfigOk(cfg: Config)
  {
    cfg.workers > 0 && 2 <= cfg.queueCapacity < WORD && IsPowerOfTwo(cfg.queueCapacity)
  }

  /** What fits into a slot. */
  function Clip(payload: Word): (p: Word)
    ensures |p| <= SLOT_BYTES && p <= payload && (p == [] <==> payload == [])
  {
    if |payload| > SLOT_BYTES then payload[..SLOT_BYTES] else payload
  }

  /** The worker that packet i is dispatched to. */
  function Route(cfg: Config, i: nat): (w: nat)
    requires cfg.workers > 0 && i < |cfg.packets|
    ensures w < cfg.workers
  {
    cfg.hash(Canonical(cfg.packets[i].tuple)) % cfg.workers
  }

  /** What travels through a queue; index says which captured packet it is. */
  datatype Envelope = Envelope(index: nat, slot: Option<nat>, length: nat)

  datatype Ingest =
    | Reading                          // at the loop head
    | AcquireGuard                     // about to test the flag in the slot-waiting loop
    | Acquiring                        // about to ask the pool
    | Copying(slot: nat)
    | DispatchGuard(envelope: Envelope) // about to test the flag in the dispatch loop
    | Pushing(envelope: Envelope)      // inside push
    | RollingBack(slot: nat)           // dispatch given up, slot to be returned
    | Finished

  datatype WorkerPc =
    | Guard                       // about to test the flag in the loop condition
    | EmptyHead                   // flag was clear; about to load head for the empty test
    | EmptyTail(head: nat)        // about to load tail for the empty test
    | Popping                     // inside pop
    | AfterMiss                   // pop failed; about to test the flag
    | Handling(envelope: Envelope)
    | Releasing(slot: nat)
    | Exited

  /** What a worker sees of a packet when it handles it. */
  datatype View = View(index: nat, bytes: Word)

  /** Who is responsible for a slot; kept for the proof only. */
  datatype Owner = Free | Held | Queued(worker: nat, position: nat) | Working(worker: nat)

  datatype State = State(
    running: bool,      // keep_running
    interrupted: bool,  // the flag was cleared before ingestion had finished
    next: nat,          // the packet being ingested
    committed: nat,     // packets dispatched so far
    ingest: Ingest,
    pool: Slots,
    memory: seq<Word>,
    rings: seq<Spsc.Ring<Envelope>>,
    workers: seq<WorkerPc>,
    views: seq<seq<View>>,
    owner: seq<Owner>)

  datatype Turn = Main | Worker(w: nat) | Clear

  const BLANK := Envelope(0, None, 0)

  function Start(cfg: Config): State
  {
    State(true, false, 0, 0, Reading, AllFree(cfg.slots),
          seq(cfg.slots, _ => seq(SLOT_BYTES, _ => 0)),
          seq(cfg.workers, _ => Spsc.Init(cfg.queueCapacity, BLANK)),
          seq(cfg.workers, _ => Guard),
          seq(cfg.workers, _ => []),
          seq(cfg.slots, _ => Free))
  }

  // ----- Invariant

  function HeldSlot(i: Ingest): Option<nat>
  {
    match i
    case Copying(s) => Some(s)
    case RollingBack(s) => Some(s)
    case DispatchGuard(e) => e.slot
    case Pushing(e) => e.slot
    case _ => None
  }

  function WorkingSlot(pc: WorkerPc): Option<nat>
  {
    match pc
    case Handling(e) => e.slot
    case Releasing(s) => Some(s)
    case _ => None
  }

  ghost predicate Live(r: Spsc.Ring<Envelope>, k: int)
  {
    |r.popped| <= k < |r.pushed|
  }

  ghost predicate Sizes(cfg: Config, s: State)
  {
    && |s.memory| == |s.owner| == |s.pool.isFree| == cfg.slots
    && |s.rings| == |s.workers| == |s.views| == cfg.workers
    && (forall m :: 0 <= m < |s.memory| ==> |s.memory[m]| == SLOT_BYTES)
  }

  ghost predicate RingOk(cfg: Config, r: Spsc.Ring<Envelope>)
  {
    Spsc.Inv(r) && |r.buffer| == cfg.queueCapacity
  }

  /** A ring's push is under way exactly when the ingestion thread is inside push for its worker. */
  ghost predicate PushSide(cfg: Config, ingest: Ingest, r: Spsc.Ring<Envelope>, w: nat)
    requires cfg.workers > 0
  {
    if ingest.Pushing? && ingest.envelope.index < |cfg.packets| && w == Route(cfg, ingest.envelope.index)
    then !r.producer.PIdle? && r.producer.item == ingest.envelope
    else r.producer.PIdle?
  }

  /** A ring's pop is under way only when its worker is inside pop. */
  ghost predicate PopSide(r: Spsc.Ring<Envelope>, pc: WorkerPc)
  {
    r.consumer.CIdle? || pc.Popping?
  }

  ghost predicate Protocol(cfg: Config, ingest: Ingest, rings: seq<Spsc.Ring<Envelope>>, workers: seq<WorkerPc>)
    requires cfg.workers > 0 && |rings| == |workers|
  {
    forall w :: 0 <= w < |rings| ==>
      RingOk(cfg, rings[w]) && PushSide(cfg, ingest, rings[w], w) && PopSide(rings[w], workers[w])
  }

  ghost predicate FreeOwners(pool: Slots, owner: seq<Owner>)
  {
    && SlotsOk(pool) && |owner| == |pool.isFree|
    && forall m :: 0 <= m < |owner| ==> (owner[m].Free? <==> pool.isFree[m])
  }

  ghost predicate HeldOwner(held: Option<nat>, owner: seq<Owner>)
  {
    && (held.Some? ==> held.value < |owner|)
    && forall m :: 0 <= m < |owner| ==> (owner[m].Held? <==> held == Some(m))
  }

  ghost predicate QueuedOwners(rings: seq<Spsc.Ring<Envelope>>, owner: seq<Owner>)
  {
    && (forall w, k {:trigger rings[w].pushed[k]} :: 0 <= w < |rings| && Live(rings[w], k) ==>
          rings[w].pushed[k].slot.Some? ==>
            && rings[w].pushed[k].slot.value < |owner|
            && owner[rings[w].pushed[k].slot.value] == Queued(w, k))
    && forall m :: 0 <= m < |owner| && owner[m].Queued? ==>
         && owner[m].worker < |rings| && Live(rings[owner[m].worker], owner[m].position)
         && rings[owner[m].worker].pushed[owner[m].position].slot == Some(m)
  }

  ghost predicate WorkingOwners(workers: seq<WorkerPc>, owner: seq<Owner>)
  {
    && (forall w :: 0 <= w < |workers| && WorkingSlot(workers[w]).Some? ==>
          WorkingSlot(workers[w]).value < |owner| && owner[WorkingSlot(workers[w]).value] == Working(w))
    && forall m :: 0 <= m < |owner| && owner[m].Working? ==>
         owner[m].worker < |workers| && WorkingSlot(workers[owner[m].worker]) == Some(m)
  }

  /** Every slot has one owner, and the owner's state agrees. */
  ghost predicate Ownership(s: State)
  {
    && FreeOwners(s.pool, s.owner) && HeldOwner(HeldSlot(s.ingest), s.owner)
    && QueuedOwners(s.rings, s.owner) && WorkingOwners(s.workers, s.owner)
  }

  /** The envelope describes its packet and its slot holds the packet's clipped payload. */
  ghost predicate Intact(cfg: Config, memory: seq<Word>, e: Envelope)
  {
    && e.index < |cfg.packets|
    && var p := Clip(cfg.packets[e.index].payload);
       && e.length == |p|
       && if p == [] then e.slot == None
          else e.slot.Some? && e.slot.value < |memory|
               && |p| <= |memory[e.slot.value]| && memory[e.slot.value][..|p|] == p
  }

  ghost predicate IngestPayload(cfg: Config, running: bool, ingest: Ingest, memory: seq<Word>)
  {
    && (ingest.Pushing? ==> Intact(cfg, memory, ingest.envelope))
    && (ingest.DispatchGuard? ==>
          Intact(cfg, memory, ingest.envelope) || (!running && ingest.envelope.slot == None))
  }

  ghost predicate RingPayloads(cfg: Config, rings: seq<Spsc.Ring<Envelope>>, memory: seq<Word>)
  {
    forall w, k {:trigger rings[w].pushed[k]} ::
      0 <= w < |rings| && Live(rings[w], k) ==> Intact(cfg, memory, rings[w].pushed[k])
  }

  ghost predicate WorkerPayloads(cfg: Config, workers: seq<WorkerPc>, memory: seq<Word>)
  {
    forall w :: 0 <= w < |workers| && workers[w].Handling? ==> Intact(cfg, memory, workers[w].envelope)
  }

  ghost predicate Payloads(cfg: Config, s: State)
  {
    && IngestPayload(cfg, s.running, s.ingest, s.memory)
    && RingPayloads(cfg, s.rings, s.memory) && WorkerPayloads(cfg, s.workers, s.memory)
  }

  function Indices(es: seq<Envelope>): (ix: seq<nat>)
    ensures |ix| == |es| && forall k :: 0 <= k < |es| ==> ix[k] == es[k].index
  {
    if es == [] then [] else Indices(es[..|es| - 1]) + [es[|es| - 1].index]
  }

  /** The packets among the first n that go to worker w, in ingestion order. */
  function Routed(cfg: Config, w: nat, n: nat): (ix: seq<nat>)
    requires cfg.workers > 0 && n <= |cfg.packets|
    ensures forall k :: 0 <= k < |ix| ==> ix[k] < n
  {
    if n == 0 then [] else Routed(cfg, w, n - 1) + (if Route(cfg, n - 1) == w then [n - 1] else [])
  }

  /** The views a worker should get of these packets: the first 2048 payload bytes of each. */
  function Faithful(cfg: Config, ix: seq<nat>): (vs: seq<View>)
    requires forall k :: 0 <= k < |ix| ==> ix[k] < |cfg.packets|
    ensures |vs| == |ix|
  {
    if ix == [] then []
    else
      var n := |ix| - 1;
      Faithful(cfg, ix[..n]) + [View(ix[n], Clip(cfg.packets[ix[n]].payload))]
  }

  /** How many packets a worker has handled: those popped, less the one in its hand. */
  function HandledCount(r: Spsc.Ring<Envelope>, pc: WorkerPc): int
  {
    |r.popped| - (if pc.Handling? then 1 else 0)
  }

  /** One worker's history: what was pushed, what is in hand, what has been handled. */
  ghost predicate History(cfg: Config, committed: nat, r: Spsc.Ring<Envelope>, pc: WorkerPc, views: seq<View>, w: nat)
    requires cfg.workers > 0 && committed <= |cfg.packets|
  {
    && Indices(r.pushed) == Routed(cfg, w, committed)
    && (pc.Handling? ==> |r.popped| > 0 && pc.envelope == r.popped[|r.popped| - 1])
    && |r.popped| <= |r.pushed| && 0 <= HandledCount(r, pc)
    && views == Faithful(cfg, Routed(cfg, w, committed)[..HandledCount(r, pc)])
  }

  ghost predicate Order(cfg: Config, s: State)
    requires cfg.workers > 0 && Sizes(cfg, s)
  {
    && s.committed <= |cfg.packets|
    && forall w :: 0 <= w < cfg.workers ==> History(cfg, s.committed, s.rings[w], s.workers[w], s.views[w], w)
  }

  /** What the ingestion thread's program point says about the flag and about progress. */
  ghost predicate IngestFlags(cfg: Config, running: bool, interrupted: bool, next: nat, committed: nat, ingest: Ingest)
  {
    && (match ingest
        case Reading => next <= |cfg.packets| && (next == committed || (!running && interrupted))
        case Finished => interrupted || committed == |cfg.packets|
        case DispatchGuard(e) => next == committed < |cfg.packets| && e.index == next
        case Pushing(e) => next == committed < |cfg.packets| && e.index == next
        case RollingBack(_) => next == committed < |cfg.packets| && !running
        case _ => next == committed < |cfg.packets| && cfg.packets[next].payload != [])
    && (!running && !interrupted ==> ingest.Finished?)
  }

  /** What a worker's program point says about the flag. */
  ghost predicate WorkerFlags(running: bool, interrupted: bool, pc: WorkerPc, head: nat)
  {
    match pc
    case EmptyHead => !running
    case EmptyTail(h) => !running && (!interrupted ==> h == head)
    case Exited => !running
    case _ => true
  }

  ghost predicate Flags(cfg: Config, s: State)
    requires Sizes(cfg, s)
  {
    && IngestFlags(cfg, s.running, s.interrupted, s.next, s.committed, s.ingest)
    && forall w :: 0 <= w < cfg.workers ==> WorkerFlags(s.running, s.interrupted, s.workers[w], s.rings[w].head)
  }

  ghost predicate Inv(cfg: Config, s: State)
  {
    && ConfigOk(cfg) && Sizes(cfg, s)
    && Protocol(cfg, s.ingest, s.rings, s.workers)
    && Ownership(s) && Payloads(cfg, s) && Order(cfg, s) && Flags(cfg, s)
  }
}
