/** The steps of the engine, each with the proof that it keeps the invariant. */
module PipelineSteps {
  import opened Bytes
  import opened SeqFacts
  import opened Options
  import opened MemoryPool
  import opened Pipeline
  import Spsc = SpscRing

  // ----- Steps that move only a program counter

  lemma IngestControl(cfg: Config, s: State, i: Ingest, next: nat)
    requires Inv(cfg, s) && !s.ingest.Pushing? && !i.Pushing? && HeldSlot(i) == HeldSlot(s.ingest)
    requires IngestFlags(cfg, s.running, s.interrupted, next, s.committed, i)
    requires IngestPayload(cfg, s.running, i, s.memory)
    ensures Inv(cfg, s.(ingest := i, next := next))
  {
    forall w | 0 <= w < cfg.workers ensures PushSide(cfg, i, s.rings[w], w) {
      assert PushSide(cfg, s.ingest, s.rings[w], w);
    }
  }

  // ----- Steps of one worker on its own ring, program counter and log

  ghost predicate LocalOk(cfg: Config, s: State, w: nat, r: Spsc.Ring<Envelope>, pc: WorkerPc, vs: seq<View>)
    requires cfg.workers > 0 && s.committed <= |cfg.packets|
  {
    && RingOk(cfg, r) && PushSide(cfg, s.ingest, r, w) && PopSide(r, pc)
    && History(cfg, s.committed, r, pc, vs, w) && WorkerFlags(s.running, s.interrupted, pc, r.head)
  }

  function SetLocal(s: State, w: nat, r: Spsc.Ring<Envelope>, pc: WorkerPc, vs: seq<View>): State
    requires w < |s.rings| == |s.workers| == |s.views|
  {
    s.(rings := s.rings[w := r], workers := s.workers[w := pc], views := s.views[w := vs])
  }

  lemma LocalHolds(cfg: Config, s: State, w: nat)
    requires Inv(cfg, s) && w < cfg.workers
    ensures LocalOk(cfg, s, w, s.rings[w], s.workers[w], s.views[w])
  {
  }

  ghost predicate AllLocal(cfg: Config, s: State)
    requires cfg.workers > 0 && Sizes(cfg, s)
  {
    && s.committed <= |cfg.packets|
    && forall v :: 0 <= v < cfg.workers ==> LocalOk(cfg, s, v, s.rings[v], s.workers[v], s.views[v])
  }

  lemma Assemble(cfg: Config, s: State)
    requires ConfigOk(cfg) && Sizes(cfg, s) && AllLocal(cfg, s) && Ownership(s) && Payloads(cfg, s)
    requires IngestFlags(cfg, s.running, s.interrupted, s.next, s.committed, s.ingest)
    ensures Inv(cfg, s)
  {
    assert forall v :: 0 <= v < cfg.workers ==> LocalOk(cfg, s, v, s.rings[v], s.workers[v], s.views[v]);
  }

  lemma LocalUpdate(cfg: Config, s: State, w: nat, r: Spsc.Ring<Envelope>, pc: WorkerPc, vs: seq<View>)
    requires Inv(cfg, s) && w < cfg.workers && LocalOk(cfg, s, w, r, pc, vs)
    requires Ownership(SetLocal(s, w, r, pc, vs)) && Payloads(cfg, SetLocal(s, w, r, pc, vs))
    ensures Inv(cfg, SetLocal(s, w, r, pc, vs))
  {
    var s' := SetLocal(s, w, r, pc, vs);
    forall v | 0 <= v < cfg.workers ensures LocalOk(cfg, s', v, s'.rings[v], s'.workers[v], s'.views[v]) {
      if v != w {
        LocalHolds(cfg, s, v);
      }
    }
  }

  lemma SameWorkingSlots(workers: seq<WorkerPc>, owner: seq<Owner>, w: nat, pc: WorkerPc)
    requires WorkingOwners(workers, owner) && w < |workers| && WorkingSlot(pc) == WorkingSlot(workers[w])
    ensures WorkingOwners(workers[w := pc], owner)
  {
    var workers' := workers[w := pc];
    assert forall v :: 0 <= v < |workers| ==> WorkingSlot(workers'[v]) == WorkingSlot(workers[v]);
  }

  /** A ring whose queue is unchanged keeps the ownership and the payloads of its cells. */
  lemma SameQueue(cfg: Config, rings: seq<Spsc.Ring<Envelope>>, owner: seq<Owner>, memory: seq<Word>, w: nat,
                  r: Spsc.Ring<Envelope>)
    requires QueuedOwners(rings, owner) && RingPayloads(cfg, rings, memory)
    requires w < |rings| && r.pushed == rings[w].pushed && r.popped == rings[w].popped
    ensures QueuedOwners(rings[w := r], owner) && RingPayloads(cfg, rings[w := r], memory)
  {
    var rings' := rings[w := r];
    assert forall v :: 0 <= v < |rings| ==> rings'[v].pushed == rings[v].pushed && rings'[v].popped == rings[v].popped;
  }

  /** Only the program counter and ring registers move; nothing is pushed, popped or handled. */
  lemma {:induction false} QuietOwnership(cfg: Config, s: State, w: nat, r: Spsc.Ring<Envelope>, pc: WorkerPc)
    requires Inv(cfg, s) && w < cfg.workers
    requires r.pushed == s.rings[w].pushed && r.popped == s.rings[w].popped
    requires WorkingSlot(pc) == WorkingSlot(s.workers[w]) && !pc.Handling? && !s.workers[w].Handling?
    ensures var s' := SetLocal(s, w, r, pc, s.views[w]); Ownership(s') && Payloads(cfg, s')
  {
    SameWorkingSlots(s.workers, s.owner, w, pc);
    SameQueue(cfg, s.rings, s.owner, s.memory, w, r);
  }

  lemma {:induction false} QuietStep(cfg: Config, s: State, w: nat, r: Spsc.Ring<Envelope>, pc: WorkerPc)
    requires Inv(cfg, s) && w < cfg.workers
    requires r.pushed == s.rings[w].pushed && r.popped == s.rings[w].popped
    requires WorkingSlot(pc) == WorkingSlot(s.workers[w]) && !pc.Handling? && !s.workers[w].Handling?
    requires RingOk(cfg, r) && PushSide(cfg, s.ingest, r, w) && PopSide(r, pc)
    requires WorkerFlags(s.running, s.interrupted, pc, r.head)
    ensures Inv(cfg, SetLocal(s, w, r, pc, s.views[w]))
  {
    LocalHolds(cfg, s, w);
    QuietOwnership(cfg, s, w, r, pc);
    LocalUpdate(cfg, s, w, r, pc, s.views[w]);
  }

  // ----- Push

  lemma PushUnderWay(cfg: Config, s: State, r: Spsc.Ring<Envelope>, i: Ingest)
    requires Inv(cfg, s) && (s.ingest.DispatchGuard? || s.ingest.Pushing?) && (i.DispatchGuard? || i.Pushing?)
    requires i.envelope == s.ingest.envelope && i.envelope.index < |cfg.packets|
    requires var w := Route(cfg, i.envelope.index);
             && RingOk(cfg, r) && PushSide(cfg, i, r, w) && PopSide(r, s.workers[w])
             && r.pushed == s.rings[w].pushed && r.popped == s.rings[w].popped && r.head == s.rings[w].head
    requires IngestPayload(cfg, s.running, i, s.memory)
    requires IngestFlags(cfg, s.running, s.interrupted, s.next, s.committed, i)
    ensures Inv(cfg, s.(ingest := i, rings := s.rings[Route(cfg, i.envelope.index) := r]))
  {
    var w := Route(cfg, i.envelope.index);
    var s' := s.(ingest := i, rings := s.rings[w := r]);
    SameQueue(cfg, s.rings, s.owner, s.memory, w, r);
    forall v | 0 <= v < cfg.workers ensures LocalOk(cfg, s', v, s'.rings[v], s'.workers[v], s'.views[v]) {
      PushLocal(cfg, s, r, i, v);
    }
    Assemble(cfg, s');
  }

  lemma PushLocal(cfg: Config, s: State, r: Spsc.Ring<Envelope>, i: Ingest, v: nat)
    requires Inv(cfg, s) && (s.ingest.DispatchGuard? || s.ingest.Pushing?) && (i.DispatchGuard? || i.Pushing?)
    requires i.envelope == s.ingest.envelope && i.envelope.index < |cfg.packets| && v < cfg.workers
    requires var w := Route(cfg, i.envelope.index);
             && RingOk(cfg, r) && PushSide(cfg, i, r, w) && PopSide(r, s.workers[w])
             && r.pushed == s.rings[w].pushed && r.popped == s.rings[w].popped && r.head == s.rings[w].head
    ensures var s' := s.(ingest := i, rings := s.rings[Route(cfg, i.envelope.index) := r]);
            LocalOk(cfg, s', v, s'.rings[v], s'.workers[v], s'.views[v])
  {
    LocalHolds(cfg, s, v);
  }

  lemma IndicesSnoc(es: seq<Envelope>, e: Envelope)
    ensures Indices(es + [e]) == Indices(es) + [e.index]
  {
    assert (es + [e])[..|es|] == es;
  }

  lemma {:induction false} RoutedLonger(cfg: Config, v: nat, n: nat, k: nat)
    requires cfg.workers > 0 && n < |cfg.packets| && k <= |Routed(cfg, v, n)|
    ensures Routed(cfg, v, n + 1) == Routed(cfg, v, n) + (if Route(cfg, n) == v then [n] else [])
    ensures k <= |Routed(cfg, v, n + 1)| && Routed(cfg, v, n + 1)[..k] == Routed(cfg, v, n)[..k]
  {
    var ix := Routed(cfg, v, n);
    assert (ix + [n])[..k] == ix[..k] && ix + [] == ix;
  }

  /** Dispatching one more packet extends one worker's queue and leaves all logs as they are. */
  lemma {:induction false} HistoryCommit(cfg: Config, committed: nat, r: Spsc.Ring<Envelope>, r': Spsc.Ring<Envelope>,
                                         pc: WorkerPc, views: seq<View>, v: nat, e: Envelope)
    requires cfg.workers > 0 && committed < |cfg.packets| && e.index == committed
    requires History(cfg, committed, r, pc, views, v)
    requires r'.popped == r.popped
    requires r'.pushed == if v == Route(cfg, committed) then r.pushed + [e] else r.pushed
    ensures History(cfg, committed + 1, r', pc, views, v)
  {
    IndicesSnoc(r.pushed, e);
    RoutedLonger(cfg, v, committed, HandledCount(r, pc));
  }

  /** The new cell is owned by its position; every other owner stays. */
  lemma QueuedCommit(rings: seq<Spsc.Ring<Envelope>>, r: Spsc.Ring<Envelope>, w: nat, e: Envelope,
                     owner: seq<Owner>)
    requires QueuedOwners(rings, owner) && HeldOwner(e.slot, owner) && w < |rings|
    requires |rings[w].popped| <= |rings[w].pushed|
    requires r.popped == rings[w].popped && r.pushed == rings[w].pushed + [e]
    ensures QueuedOwners(rings[w := r], SetOwner(owner, e.slot, Queued(w, |rings[w].pushed|)))
  {
    var rings', owner' := rings[w := r], SetOwner(owner, e.slot, Queued(w, |rings[w].pushed|));
    forall v, k {:trigger rings'[v].pushed[k]} |
      0 <= v < |rings'| && Live(rings'[v], k) && rings'[v].pushed[k].slot.Some?
      ensures rings'[v].pushed[k].slot.value < |owner'| && owner'[rings'[v].pushed[k].slot.value] == Queued(v, k)
    {
      if !(v == w && k == |rings[w].pushed|) {
        assert rings[v].pushed[k] == rings'[v].pushed[k] && Live(rings[v], k);
      }
    }
  }

  function SetOwner(owner: seq<Owner>, slot: Option<nat>, o: Owner): (owner': seq<Owner>)
    requires slot.Some? ==> slot.value < |owner|
    ensures |owner'| == |owner|
  {
    if slot.Some? then owner[slot.value := o] else owner
  }

  /** Owners change only at a slot that neither the pool nor a worker has. */
  lemma OtherOwners(s: State, slot: Option<nat>, o: Owner)
    requires FreeOwners(s.pool, s.owner) && WorkingOwners(s.workers, s.owner)
    requires slot.Some? ==> slot.value < |s.owner| && !s.owner[slot.value].Free? && !s.owner[slot.value].Working?
    requires !o.Free? && !o.Working?
    ensures FreeOwners(s.pool, SetOwner(s.owner, slot, o)) && WorkingOwners(s.workers, SetOwner(s.owner, slot, o))
  {
  }

  function Commit(cfg: Config, s: State, r: Spsc.Ring<Envelope>): State
    requires Inv(cfg, s) && s.ingest.Pushing?
  {
    var e := s.ingest.envelope;
    var w := Route(cfg, e.index);
    s.(ingest := Reading, next := s.next + 1, committed := s.committed + 1, rings := s.rings[w := r],
       owner := SetOwner(s.owner, e.slot, Queued(w, |s.rings[w].pushed|)))
  }

  lemma {:induction false} CommitInv(cfg: Config, s: State, r: Spsc.Ring<Envelope>)
    requires Inv(cfg, s) && s.ingest.Pushing?
    requires var e := s.ingest.envelope; var w := Route(cfg, e.index);
             && RingOk(cfg, r) && r.producer.PIdle? && PopSide(r, s.workers[w])
             && r.popped == s.rings[w].popped && r.pushed == s.rings[w].pushed + [e]
    ensures Inv(cfg, Commit(cfg, s, r))
  {
    var e := s.ingest.envelope;
    var w := Route(cfg, e.index);
    var s' := Commit(cfg, s, r);
    QueuedCommit(s.rings, r, w, e, s.owner);
    OtherOwners(s, e.slot, Queued(w, |s.rings[w].pushed|));
    PayloadsCommit(cfg, s.rings, r, w, e, s.memory);
    forall v | 0 <= v < cfg.workers ensures LocalOk(cfg, s', v, s'.rings[v], s'.workers[v], s'.views[v]) {
      CommitLocal(cfg, s, r, v);
    }
    Assemble(cfg, s');
  }

  lemma PayloadsCommit(cfg: Config, rings: seq<Spsc.Ring<Envelope>>, r: Spsc.Ring<Envelope>, w: nat, e: Envelope,
                       memory: seq<Word>)
    requires RingPayloads(cfg, rings, memory) && Intact(cfg, memory, e) && w < |rings|
    requires r.popped == rings[w].popped && r.pushed == rings[w].pushed + [e]
    ensures RingPayloads(cfg, rings[w := r], memory)
  {
    var rings' := rings[w := r];
    forall v, k {:trigger rings'[v].pushed[k]} | 0 <= v < |rings'| && Live(rings'[v], k)
      ensures Intact(cfg, memory, rings'[v].pushed[k])
    {
      if !(v == w && k == |rings[w].pushed|) {
        assert Live(rings[v], k) && rings[v].pushed[k] == rings'[v].pushed[k];
      }
    }
  }

  lemma CommitLocal(cfg: Config, s: State, r: Spsc.Ring<Envelope>, v: nat)
    requires Inv(cfg, s) && s.ingest.Pushing? && v < cfg.workers
    requires var e := s.ingest.envelope; var w := Route(cfg, e.index);
             && RingOk(cfg, r) && r.producer.PIdle? && PopSide(r, s.workers[w])
             && r.popped == s.rings[w].popped && r.pushed == s.rings[w].pushed + [e]
    ensures var s' := Commit(cfg, s, r);
            && s'.committed <= |cfg.packets|
            && LocalOk(cfg, s', v, s'.rings[v], s'.workers[v], s'.views[v])
  {
    var s' := Commit(cfg, s, r);
    LocalHolds(cfg, s, v);
    HistoryCommit(cfg, s.committed, s.rings[v], s'.rings[v], s.workers[v], s.views[v], v, s.ingest.envelope);
  }

  // ----- Pop

  /** The front cell's slot passes to the worker. */
  lemma QueuedTake(rings: seq<Spsc.Ring<Envelope>>, r: Spsc.Ring<Envelope>, w: nat, owner: seq<Owner>)
    requires QueuedOwners(rings, owner) && w < |rings| && |rings[w].popped| < |rings[w].pushed|
    requires r.pushed == rings[w].pushed && |r.popped| == |rings[w].popped| + 1
    ensures rings[w].pushed[|rings[w].popped|].slot.Some? ==>
              rings[w].pushed[|rings[w].popped|].slot.value < |owner|
              && owner[rings[w].pushed[|rings[w].popped|].slot.value].Queued?
    ensures QueuedOwners(rings[w := r], SetOwner(owner, rings[w].pushed[|rings[w].popped|].slot, Working(w)))
  {
    var front := |rings[w].popped|;
    var e := rings[w].pushed[front];
    assert Live(rings[w], front);
    var rings', owner' := rings[w := r], SetOwner(owner, e.slot, Working(w));
    forall v, k {:trigger rings'[v].pushed[k]} |
      0 <= v < |rings'| && Live(rings'[v], k) && rings'[v].pushed[k].slot.Some?
      ensures rings'[v].pushed[k].slot.value < |owner'| && owner'[rings'[v].pushed[k].slot.value] == Queued(v, k)
    {
      assert Live(rings[v], k) && rings[v].pushed[k] == rings'[v].pushed[k];
    }
    forall m | 0 <= m < |owner'| && owner'[m].Queued?
      ensures && owner'[m].worker < |rings'| && Live(rings'[owner'[m].worker], owner'[m].position)
              && rings'[owner'[m].worker].pushed[owner'[m].position].slot == Some(m)
    {
      assert owner[m] == owner'[m];
    }
  }

  lemma WorkingTake(workers: seq<WorkerPc>, owner: seq<Owner>, w: nat, e: Envelope)
    requires WorkingOwners(workers, owner) && w < |workers| && WorkingSlot(workers[w]) == None
    requires e.slot.Some? ==> e.slot.value < |owner| && !owner[e.slot.value].Working?
    ensures WorkingOwners(workers[w := Handling(e)], SetOwner(owner, e.slot, Working(w)))
  {
    var workers', owner' := workers[w := Handling(e)], SetOwner(owner, e.slot, Working(w));
    forall v | 0 <= v < |workers'| && WorkingSlot(workers'[v]).Some?
      ensures WorkingSlot(workers'[v]).value < |owner'| && owner'[WorkingSlot(workers'[v]).value] == Working(v)
    {
      if v != w {
        assert owner[WorkingSlot(workers[v]).value] == Working(v);
      }
    }
  }

  function Take(s: State, w: nat, r: Spsc.Ring<Envelope>, e: Envelope): State
    requires w < |s.rings| == |s.workers| && (e.slot.Some? ==> e.slot.value < |s.owner|)
  {
    s.(rings := s.rings[w := r], workers := s.workers[w := Handling(e)],
       owner := SetOwner(s.owner, e.slot, Working(w)))
  }

  lemma {:induction false} TakeInv(cfg: Config, s: State, w: nat, r: Spsc.Ring<Envelope>, e: Envelope)
    requires Inv(cfg, s) && w < cfg.workers && s.workers[w].Popping?
    requires |s.rings[w].popped| < |s.rings[w].pushed| && e == s.rings[w].pushed[|s.rings[w].popped|]
    requires RingOk(cfg, r) && PushSide(cfg, s.ingest, r, w) && r.consumer.CIdle?
    requires r.pushed == s.rings[w].pushed && r.popped == s.rings[w].popped + [e]
    ensures e.slot.Some? ==> e.slot.value < |s.owner|
    ensures Inv(cfg, Take(s, w, r, e))
  {
    assert Live(s.rings[w], |s.rings[w].popped|);
    QueuedTake(s.rings, r, w, s.owner);
    WorkingTake(s.workers, s.owner, w, e);
    var s' := Take(s, w, r, e);
    PayloadsTake(cfg, s.rings, r, w, s.memory);
    forall v | 0 <= v < cfg.workers ensures LocalOk(cfg, s', v, s'.rings[v], s'.workers[v], s'.views[v]) {
      TakeLocal(cfg, s, w, r, e, v);
    }
    TakeOthers(cfg, s, w, e);
    Assemble(cfg, s');
  }

  lemma PayloadsTake(cfg: Config, rings: seq<Spsc.Ring<Envelope>>, r: Spsc.Ring<Envelope>, w: nat, memory: seq<Word>)
    requires RingPayloads(cfg, rings, memory) && w < |rings|
    requires r.pushed == rings[w].pushed && |r.popped| == |rings[w].popped| + 1
    ensures RingPayloads(cfg, rings[w := r], memory)
  {
    var rings' := rings[w := r];
    forall v, k {:trigger rings'[v].pushed[k]} | 0 <= v < |rings'| && Live(rings'[v], k)
      ensures Intact(cfg, memory, rings'[v].pushed[k])
    {
      assert Live(rings[v], k) && rings[v].pushed[k] == rings'[v].pushed[k];
    }
  }

  /** The pool and the ingestion thread are not concerned; the envelope stays intact. */
  lemma TakeOthers(cfg: Config, s: State, w: nat, e: Envelope)
    requires Inv(cfg, s) && w < cfg.workers && s.workers[w].Popping?
    requires |s.rings[w].popped| < |s.rings[w].pushed| && e == s.rings[w].pushed[|s.rings[w].popped|]
    ensures e.slot.Some? ==> e.slot.value < |s.owner|
    ensures FreeOwners(s.pool, SetOwner(s.owner, e.slot, Working(w)))
    ensures HeldOwner(HeldSlot(s.ingest), SetOwner(s.owner, e.slot, Working(w)))
    ensures WorkerPayloads(cfg, s.workers[w := Handling(e)], s.memory)
  {
    assert Live(s.rings[w], |s.rings[w].popped|);
  }

  lemma TakeLocal(cfg: Config, s: State, w: nat, r: Spsc.Ring<Envelope>, e: Envelope, v: nat)
    requires Inv(cfg, s) && w < cfg.workers && s.workers[w].Popping? && v < cfg.workers
    requires e.slot.Some? ==> e.slot.value < |s.owner|
    requires |s.rings[w].popped| < |s.rings[w].pushed|
    requires RingOk(cfg, r) && PushSide(cfg, s.ingest, r, w) && r.consumer.CIdle?
    requires r.pushed == s.rings[w].pushed && r.popped == s.rings[w].popped + [e]
    ensures var s' := Take(s, w, r, e); LocalOk(cfg, s', v, s'.rings[v], s'.workers[v], s'.views[v])
  {
    LocalHolds(cfg, s, v);
  }

  // ----- Handling a packet

  function Handle(s: State, w: nat): State
    requires w < |s.rings| == |s.workers| == |s.views| && s.workers[w].Handling?
    requires var e := s.workers[w].envelope;
             e.slot.Some? ==> e.slot.value < |s.memory| && e.length <= |s.memory[e.slot.value]|
  {
    var e := s.workers[w].envelope;
    var bytes := if e.slot.Some? then s.memory[e.slot.value][..e.length] else [];
    SetLocal(s, w, s.rings[w], if e.slot.Some? then Releasing(e.slot.value) else Guard,
             s.views[w] + [View(e.index, bytes)])
  }

  lemma FaithfulSnoc(cfg: Config, ix: seq<nat>, i: nat)
    requires i < |cfg.packets| && forall k :: 0 <= k < |ix| ==> ix[k] < |cfg.packets|
    ensures Faithful(cfg, ix + [i]) == Faithful(cfg, ix) + [View(i, Clip(cfg.packets[i].payload))]
  {
    assert (ix + [i])[..|ix|] == ix;
  }

  /** The worker reads exactly the clipped payload of the next packet routed to it. */
  lemma HandleHistory(cfg: Config, s: State, w: nat)
    requires Inv(cfg, s) && w < cfg.workers && s.workers[w].Handling?
    ensures var e := s.workers[w].envelope;
            && e.index < |cfg.packets|
            && (e.slot.Some? ==> e.slot.value < |s.memory| && e.length <= |s.memory[e.slot.value]|)
            && (if e.slot.Some? then s.memory[e.slot.value][..e.length] else []) == Clip(cfg.packets[e.index].payload)
    ensures History(cfg, s.committed, s.rings[w], Guard,
                    s.views[w] + [View(s.workers[w].envelope.index,
                                       Clip(cfg.packets[s.workers[w].envelope.index].payload))], w)
  {
    LocalHolds(cfg, s, w);
    var e, r := s.workers[w].envelope, s.rings[w];
    assert Intact(cfg, s.memory, e);
    var ix := Routed(cfg, w, s.committed);
    var n := |r.popped| - 1;
    assert r.popped[n] == r.pushed[n];
    assert ix[n] == e.index;
    TakeSnoc(ix, n);
    FaithfulSnoc(cfg, ix[..n], ix[n]);
  }

  lemma HandleLocal(cfg: Config, s: State, w: nat, pc: WorkerPc)
    requires Inv(cfg, s) && w < cfg.workers && s.workers[w].Handling? && (pc.Guard? || pc.Releasing?)
    ensures var e := s.workers[w].envelope;
            && e.index < |cfg.packets|
            && LocalOk(cfg, s, w, s.rings[w], pc, s.views[w] + [View(e.index, Clip(cfg.packets[e.index].payload))])
  {
    HandleHistory(cfg, s, w);
    LocalHolds(cfg, s, w);
  }

  lemma HandleRest(cfg: Config, s: State, w: nat, pc: WorkerPc, vs: seq<View>)
    requires Inv(cfg, s) && w < cfg.workers && !pc.Handling? && WorkingSlot(pc) == WorkingSlot(s.workers[w])
    ensures Ownership(SetLocal(s, w, s.rings[w], pc, vs)) && Payloads(cfg, SetLocal(s, w, s.rings[w], pc, vs))
  {
    SameWorkingSlots(s.workers, s.owner, w, pc);
    assert s.rings[w := s.rings[w]] == s.rings;
  }

  lemma {:induction false} HandleInv(cfg: Config, s: State, w: nat)
    requires Inv(cfg, s) && w < cfg.workers && s.workers[w].Handling?
    ensures var e := s.workers[w].envelope;
            e.slot.Some? ==> e.slot.value < |s.memory| && e.length <= |s.memory[e.slot.value]|
    ensures Inv(cfg, Handle(s, w))
  {
    HandleHistory(cfg, s, w);
    var e := s.workers[w].envelope;
    var pc := if e.slot.Some? then Releasing(e.slot.value) else Guard;
    var vs := s.views[w] + [View(e.index, Clip(cfg.packets[e.index].payload))];
    HandleLocal(cfg, s, w, pc);
    HandleRest(cfg, s, w, pc, vs);
    LocalUpdate(cfg, s, w, s.rings[w], pc, vs);
  }

  // ----- Slots taken from and returned to the pool

  function GiveBack(s: State, slot: nat): State
    requires slot < |s.owner| == |s.pool.isFree|
  {
    s.(pool := Release(s.pool, slot), owner := s.owner[slot := Free])
  }

  /** Returning an owned slot: the guard against double frees does not fire. */
  lemma FreeAgain(pool: Slots, owner: seq<Owner>, slot: nat)
    requires FreeOwners(pool, owner) && slot < |owner| && !owner[slot].Free?
    ensures !pool.isFree[slot] && FreeOwners(Release(pool, slot), owner[slot := Free])
    ensures |Release(pool, slot).isFree| == |pool.isFree|
  {
    ReleaseOk(pool, slot);
  }

  lemma QueuedKeeps(rings: seq<Spsc.Ring<Envelope>>, owner: seq<Owner>, slot: nat, o: Owner)
    requires QueuedOwners(rings, owner) && slot < |owner| && !owner[slot].Queued? && !o.Queued?
    ensures QueuedOwners(rings, owner[slot := o])
  {
  }

  lemma WorkingKeeps(workers: seq<WorkerPc>, owner: seq<Owner>, slot: nat, o: Owner)
    requires WorkingOwners(workers, owner) && slot < |owner| && !owner[slot].Working? && !o.Working?
    ensures WorkingOwners(workers, owner[slot := o])
  {
  }

  function WorkerRelease(s: State, w: nat, slot: nat): State
    requires w < |s.rings| == |s.workers| == |s.views| && slot < |s.owner| == |s.pool.isFree|
  {
    GiveBack(SetLocal(s, w, s.rings[w], Guard, s.views[w]), slot)
  }

  lemma WorkingReturn(workers: seq<WorkerPc>, owner: seq<Owner>, w: nat, slot: nat)
    requires WorkingOwners(workers, owner) && w < |workers| && WorkingSlot(workers[w]) == Some(slot)
    ensures slot < |owner| && owner[slot] == Working(w) && WorkingOwners(workers[w := Guard], owner[slot := Free])
  {
    var workers', owner' := workers[w := Guard], owner[slot := Free];
    forall v | 0 <= v < |workers'| && WorkingSlot(workers'[v]).Some?
      ensures WorkingSlot(workers'[v]).value < |owner'| && owner'[WorkingSlot(workers'[v]).value] == Working(v)
    {
      assert owner[WorkingSlot(workers[v]).value] == Working(v);
    }
  }

  lemma ReleaseLocal(cfg: Config, s: State, w: nat, v: nat)
    requires Inv(cfg, s) && w < cfg.workers && v < cfg.workers && s.workers[w].Releasing?
    ensures LocalOk(cfg, s, v, s.rings[v], s.workers[w := Guard][v], s.views[v])
  {
    LocalHolds(cfg, s, v);
  }

  lemma {:induction false} ReleaseOwnership(cfg: Config, s: State, w: nat)
    requires Inv(cfg, s) && w < cfg.workers && s.workers[w].Releasing?
    ensures s.workers[w].slot < |s.owner| && !s.pool.isFree[s.workers[w].slot]
    ensures var s' := WorkerRelease(s, w, s.workers[w].slot); Sizes(cfg, s') && Ownership(s')
  {
    var slot := s.workers[w].slot;
    LocalHolds(cfg, s, w);
    WorkingReturn(s.workers, s.owner, w, slot);
    FreeAgain(s.pool, s.owner, slot);
    QueuedKeeps(s.rings, s.owner, slot, Free);
  }

  lemma {:induction false} ReleaseLocals(cfg: Config, s: State, w: nat, slot: nat)
    requires Inv(cfg, s) && w < cfg.workers && s.workers[w].Releasing? && slot < |s.owner|
    requires Sizes(cfg, WorkerRelease(s, w, slot))
    ensures AllLocal(cfg, WorkerRelease(s, w, slot))
  {
    var s' := WorkerRelease(s, w, slot);
    forall v | 0 <= v < cfg.workers ensures LocalOk(cfg, s', v, s'.rings[v], s'.workers[v], s'.views[v]) {
      ReleaseLocal(cfg, s, w, v);
    }
  }

  lemma {:induction false} WorkerReleaseInv(cfg: Config, s: State, w: nat)
    requires Inv(cfg, s) && w < cfg.workers && s.workers[w].Releasing?
    ensures s.workers[w].slot < |s.owner| && !s.pool.isFree[s.workers[w].slot]
    ensures Inv(cfg, WorkerRelease(s, w, s.workers[w].slot))
  {
    ReleaseOwnership(cfg, s, w);
    ReleaseLocals(cfg, s, w, s.workers[w].slot);
    Assemble(cfg, WorkerRelease(s, w, s.workers[w].slot));
  }

  /** The pool and the owners change, everything a worker or a ring sees stays. */
  lemma IngestSlots(cfg: Config, s: State, i: Ingest, next: nat, pool: Slots, owner: seq<Owner>)
    requires Inv(cfg, s) && !s.ingest.Pushing? && !i.Pushing?
    requires |owner| == |s.owner| && |pool.isFree| == |s.pool.isFree|
    requires FreeOwners(pool, owner) && HeldOwner(HeldSlot(i), owner)
    requires QueuedOwners(s.rings, owner) && WorkingOwners(s.workers, owner)
    requires IngestFlags(cfg, s.running, s.interrupted, next, s.committed, i)
    requires IngestPayload(cfg, s.running, i, s.memory)
    ensures Inv(cfg, s.(ingest := i, next := next, pool := pool, owner := owner))
  {
    forall w | 0 <= w < cfg.workers ensures PushSide(cfg, i, s.rings[w], w) {
      assert PushSide(cfg, s.ingest, s.rings[w], w);
    }
  }

  function RollBack(s: State, slot: nat): State
    requires slot < |s.owner| == |s.pool.isFree|
  {
    GiveBack(s, slot).(ingest := Reading, next := s.next + 1)
  }

  lemma RollBackInv(cfg: Config, s: State)
    requires Inv(cfg, s) && s.ingest.RollingBack?
    ensures s.ingest.slot < |s.owner| && !s.pool.isFree[s.ingest.slot]
    ensures Inv(cfg, RollBack(s, s.ingest.slot))
  {
    var slot := s.ingest.slot;
    assert HeldSlot(s.ingest) == Some(slot) && s.owner[slot].Held?;
    FreeAgain(s.pool, s.owner, slot);
    QueuedKeeps(s.rings, s.owner, slot, Free);
    WorkingKeeps(s.workers, s.owner, slot, Free);
    IngestSlots(cfg, s, Reading, s.next + 1, Release(s.pool, slot), s.owner[slot := Free]);
  }

  function TakeSlot(s: State): State
    requires s.pool.free != [] && s.pool.free[0] < |s.owner| == |s.pool.isFree|
  {
    var slot := s.pool.free[0];
    s.(ingest := Copying(slot), pool := Acquire(s.pool), owner := s.owner[slot := Held])
  }

  lemma TakeSlotInv(cfg: Config, s: State)
    requires Inv(cfg, s) && s.ingest.Acquiring? && s.pool.free != []
    ensures s.pool.free[0] < |s.owner| && Inv(cfg, TakeSlot(s))
  {
    AcquireOk(s.pool);
    var slot := s.pool.free[0];
    assert s.owner[slot].Free?;
    QueuedKeeps(s.rings, s.owner, slot, Held);
    WorkingKeeps(s.workers, s.owner, slot, Held);
    IngestSlots(cfg, s, Copying(slot), s.next, Acquire(s.pool), s.owner[slot := Held]);
  }

  // ----- Copying the payload

  function Copy(cfg: Config, s: State, slot: nat): State
    requires s.next < |cfg.packets| && slot < |s.memory| && |s.memory[slot]| == SLOT_BYTES
  {
    var p := Clip(cfg.packets[s.next].payload);
    s.(ingest := DispatchGuard(Envelope(s.next, Some(slot), |p|)),
       memory := s.memory[slot := p + s.memory[slot][|p|..]])
  }

  /** Copying into a slot nobody else owns leaves every other envelope intact. */
  lemma CopyKeeps(cfg: Config, memory: seq<Word>, slot: nat, bytes: Word, e: Envelope)
    requires Intact(cfg, memory, e) && slot < |memory| && e.slot != Some(slot)
    ensures Intact(cfg, memory[slot := bytes], e)
  {
  }

  lemma CopyPayloads(cfg: Config, s: State, slot: nat, bytes: Word)
    requires Inv(cfg, s) && slot < |s.owner| && s.owner[slot].Held?
    ensures RingPayloads(cfg, s.rings, s.memory[slot := bytes])
    ensures WorkerPayloads(cfg, s.workers, s.memory[slot := bytes])
  {
    forall w, k {:trigger s.rings[w].pushed[k]} | 0 <= w < |s.rings| && Live(s.rings[w], k)
      ensures Intact(cfg, s.memory[slot := bytes], s.rings[w].pushed[k])
    {
      CopyKeeps(cfg, s.memory, slot, bytes, s.rings[w].pushed[k]);
    }
    forall w | 0 <= w < |s.workers| && s.workers[w].Handling?
      ensures Intact(cfg, s.memory[slot := bytes], s.workers[w].envelope)
    {
      assert WorkingSlot(s.workers[w]) == s.workers[w].envelope.slot;
      CopyKeeps(cfg, s.memory, slot, bytes, s.workers[w].envelope);
    }
  }

  lemma CopyInv(cfg: Config, s: State)
    requires Inv(cfg, s) && s.ingest.Copying?
    ensures s.next < |cfg.packets| && s.ingest.slot < |s.memory|
    ensures Inv(cfg, Copy(cfg, s, s.ingest.slot))
  {
    var slot := s.ingest.slot;
    assert HeldSlot(s.ingest) == Some(slot) && s.owner[slot].Held?;
    var s' := Copy(cfg, s, slot);
    CopyPayloads(cfg, s, slot, s'.memory[slot]);
    var p := Clip(cfg.packets[s.next].payload);
    assert s'.memory[slot][..|p|] == p;
    forall w | 0 <= w < cfg.workers ensures PushSide(cfg, s'.ingest, s.rings[w], w) {
      assert PushSide(cfg, s.ingest, s.rings[w], w);
    }
  }

  // ----- Clearing the flag

  function ClearFlag(s: State): State
  {
    s.(running := false, interrupted := s.interrupted || (s.running && !s.ingest.Finished?))
  }

  lemma ClearInv(cfg: Config, s: State)
    requires Inv(cfg, s)
    ensures Inv(cfg, ClearFlag(s))
  {
    forall w | 0 <= w < cfg.workers
      ensures WorkerFlags(false, ClearFlag(s).interrupted, s.workers[w], s.rings[w].head)
    {
      assert WorkerFlags(s.running, s.interrupted, s.workers[w], s.rings[w].head);
    }
  }
}
