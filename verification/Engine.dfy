/** Whole runs of the engine: slot ownership, payload integrity, flow order, and the drain. */
module Engine {
  import opened Options
  import opened MemoryPool
  import opened Pipeline
  import opened PipelineSteps
  import Spsc = SpscRing

  /** One step of the ingestion thread. */
  function MainStep(cfg: Config, s: State): (s': State)
    requires Inv(cfg, s)
    ensures Inv(cfg, s')
  {
    match s.ingest
    case Reading =>
      var i := if !(s.running && s.next < |cfg.packets|) then Finished
               else if cfg.packets[s.next].payload == [] then DispatchGuard(Envelope(s.next, None, 0))
               else AcquireGuard;
      IngestControl(cfg, s, i, s.next);
      s.(ingest := i)
    case AcquireGuard =>
      var i := if s.running then Acquiring else DispatchGuard(Envelope(s.next, None, 0));
      IngestControl(cfg, s, i, s.next);
      s.(ingest := i)
    case Acquiring =>
      if s.pool.free == [] then
        IngestControl(cfg, s, AcquireGuard, s.next);
        s.(ingest := AcquireGuard)
      else
        TakeSlotInv(cfg, s);
        TakeSlot(s)
    case Copying(slot) => CopyInv(cfg, s); Copy(cfg, s, slot)
    case DispatchGuard(e) =>
      if s.running then PushStep(cfg, s)
      else if e.slot.Some? then
        IngestControl(cfg, s, RollingBack(e.slot.value), s.next);
        s.(ingest := RollingBack(e.slot.value))
      else
        IngestControl(cfg, s, Reading, s.next + 1);
        s.(ingest := Reading, next := s.next + 1)
    case Pushing(_) => PushStep(cfg, s)
    case RollingBack(slot) => RollBackInv(cfg, s); RollBack(s, slot)
    case Finished => s
  }

  /** A step inside push: a full queue sends the thread back to the flag test. */
  function PushStep(cfg: Config, s: State): (s': State)
    requires Inv(cfg, s) && (s.ingest.Pushing? || (s.ingest.DispatchGuard? && s.running))
    ensures Inv(cfg, s')
  {
    var e := s.ingest.envelope;
    var w := Route(cfg, e.index);
    LocalHolds(cfg, s, w);
    Spsc.ProducerMove(s.rings[w], e);
    var (r, event) := Spsc.Move(s.rings[w], Spsc.Producer(e));
    if event.Pushed? then
      CommitInv(cfg, s, r);
      Commit(cfg, s, r)
    else
      var i := if event.Full? then DispatchGuard(e) else Pushing(e);
      PushUnderWay(cfg, s, r, i);
      s.(ingest := i, rings := s.rings[w := r])
  }

  /** Worker w's steps touch its own ring's pop side, its own log, and returned slots; nothing else. */
  ghost predicate OnlyWorker(s: State, w: nat, s': State)
  {
    && s'.running == s.running && s'.interrupted == s.interrupted
    && s'.next == s.next && s'.committed == s.committed && s'.ingest == s.ingest && s'.memory == s.memory
    && w < |s.rings| == |s.workers| == |s.views|
    && |s'.rings| == |s.rings| && |s'.workers| == |s.workers| && |s'.views| == |s.views|
    && s'.rings[w].pushed == s.rings[w].pushed && s'.rings[w].head == s.rings[w].head
    && forall v :: 0 <= v < |s.rings| && v != w ==>
         s'.rings[v] == s.rings[v] && s'.workers[v] == s.workers[v] && s'.views[v] == s.views[v]
  }

  /** Where worker w goes next. */
  ghost predicate NextPc(s: State, w: nat, s': State)
    requires OnlyWorker(s, w, s')
  {
    var r, r', pc' := s.rings[w], s'.rings[w], s'.workers[w];
    match s.workers[w]
    case Guard => pc' == (if s.running then Popping else EmptyHead) && r' == r
    case EmptyHead => pc' == EmptyTail(r.head) && r' == r
    case EmptyTail(h) => pc' == (if h == r.tail then Exited else Popping) && r' == r
    case Popping =>
      && (pc'.Popping? || pc'.Handling? || (pc'.AfterMiss? && r'.popped == r.popped && |r.popped| == |r.pushed|))
      && (r.consumer.CIdle? ==> pc'.Popping? && r'.consumer.CLoadedTail? && r'.popped == r.popped)
      && (r.consumer.CLoadedTail? && |r.popped| == |r.pushed| ==> pc'.AfterMiss?)
    case AfterMiss => pc' == (if s.running then Guard else Exited) && r' == r
    case Handling(e) => (pc'.Guard? || pc'.Releasing?) && r' == r
    case Releasing(_) => pc'.Guard? && r' == r
    case Exited => pc'.Exited? && r' == r
  }

  lemma HandleFrame(s: State, w: nat)
    requires w < |s.rings| == |s.workers| == |s.views| && s.workers[w].Handling?
    requires var e := s.workers[w].envelope;
             e.slot.Some? ==> e.slot.value < |s.memory| && e.length <= |s.memory[e.slot.value]|
    ensures OnlyWorker(s, w, Handle(s, w)) && NextPc(s, w, Handle(s, w))
  {
  }

  lemma ReleaseFrame(s: State, w: nat, slot: nat)
    requires w < |s.rings| == |s.workers| == |s.views| && slot < |s.owner| == |s.pool.isFree|
    requires s.workers[w].Releasing?
    ensures OnlyWorker(s, w, WorkerRelease(s, w, slot)) && NextPc(s, w, WorkerRelease(s, w, slot))
  {
  }

  /** One step of worker w. */
  function WorkerStep(cfg: Config, s: State, w: nat): (s': State)
    requires Inv(cfg, s) && w < cfg.workers
    ensures Inv(cfg, s') && OnlyWorker(s, w, s') && NextPc(s, w, s')
  {
    LocalHolds(cfg, s, w);
    match s.workers[w]
    case Guard => Goto(cfg, s, w, if s.running then Popping else EmptyHead)
    case EmptyHead => Goto(cfg, s, w, EmptyTail(s.rings[w].head))
    case EmptyTail(head) => Goto(cfg, s, w, if head == s.rings[w].tail then Exited else Popping)
    case Popping => PopStep(cfg, s, w)
    case AfterMiss => Goto(cfg, s, w, if s.running then Guard else Exited)
    case Handling(_) => HandleInv(cfg, s, w); HandleFrame(s, w); Handle(s, w)
    case Releasing(slot) => WorkerReleaseInv(cfg, s, w); ReleaseFrame(s, w, slot); WorkerRelease(s, w, slot)
    case Exited => s
  }

  function Goto(cfg: Config, s: State, w: nat, pc: WorkerPc): (s': State)
    requires Inv(cfg, s) && w < cfg.workers && s.rings[w].consumer.CIdle?
    requires WorkingSlot(pc) == WorkingSlot(s.workers[w]) == None && !pc.Handling? && !s.workers[w].Handling?
    requires WorkerFlags(s.running, s.interrupted, pc, s.rings[w].head)
    ensures Inv(cfg, s') && OnlyWorker(s, w, s') && s'.workers[w] == pc && s'.rings[w] == s.rings[w]
  {
    LocalHolds(cfg, s, w);
    QuietStep(cfg, s, w, s.rings[w], pc);
    SetLocal(s, w, s.rings[w], pc, s.views[w])
  }

  lemma TakeFrame(s: State, w: nat, r: Spsc.Ring<Envelope>, e: Envelope)
    requires w < |s.rings| == |s.workers| == |s.views| && s.workers[w].Popping?
    requires e.slot.Some? ==> e.slot.value < |s.owner|
    requires r.pushed == s.rings[w].pushed && r.head == s.rings[w].head
    requires !s.rings[w].consumer.CIdle? && |s.rings[w].popped| < |s.rings[w].pushed|
    ensures OnlyWorker(s, w, Take(s, w, r, e)) && NextPc(s, w, Take(s, w, r, e))
  {
  }

  lemma MissFrame(s: State, w: nat, r: Spsc.Ring<Envelope>, pc: WorkerPc)
    requires w < |s.rings| == |s.workers| == |s.views| && s.workers[w].Popping?
    requires r.pushed == s.rings[w].pushed && r.head == s.rings[w].head && r.popped == s.rings[w].popped
    requires pc.Popping? || (pc.AfterMiss? && |r.popped| == |r.pushed|)
    requires s.rings[w].consumer.CIdle? ==> pc.Popping? && r.consumer.CLoadedTail?
    requires s.rings[w].consumer.CLoadedTail? && |r.popped| == |r.pushed| ==> pc.AfterMiss?
    ensures OnlyWorker(s, w, SetLocal(s, w, r, pc, s.views[w])) && NextPc(s, w, SetLocal(s, w, r, pc, s.views[w]))
  {
  }

  /** A step inside pop: an empty queue sends the worker to the flag test. */
  function PopStep(cfg: Config, s: State, w: nat): (s': State)
    requires Inv(cfg, s) && w < cfg.workers && s.workers[w].Popping?
    ensures Inv(cfg, s') && OnlyWorker(s, w, s') && NextPc(s, w, s')
  {
    LocalHolds(cfg, s, w);
    Spsc.ConsumerMove(s.rings[w]);
    var (r, event) := Spsc.Move(s.rings[w], Spsc.Consumer);
    if event.Popped? then
      TakeInv(cfg, s, w, r, event.item);
      TakeFrame(s, w, r, event.item);
      Take(s, w, r, event.item)
    else
      var pc := if event.Empty? then AfterMiss else Popping;
      QuietStep(cfg, s, w, r, pc);
      MissFrame(s, w, r, pc);
      SetLocal(s, w, r, pc, s.views[w])
  }

  function Step(cfg: Config, s: State, turn: Turn): (s': State)
    requires Inv(cfg, s)
    ensures Inv(cfg, s')
  {
    match turn
    case Main => MainStep(cfg, s)
    case Worker(w) => if w < cfg.workers then WorkerStep(cfg, s, w) else s
    case Clear => ClearInv(cfg, s); ClearFlag(s)
  }

  function Run(cfg: Config, s: State, turns: seq<Turn>): (s': State)
    requires Inv(cfg, s)
    ensures Inv(cfg, s')
    decreases |turns|
  {
    if turns == [] then s else Run(cfg, Step(cfg, s, turns[0]), turns[1..])
  }

  lemma StartInv(cfg: Config)
    requires ConfigOk(cfg)
    ensures Inv(cfg, Start(cfg))
  {
    var s := Start(cfg);
    Spsc.InitInv(cfg.queueCapacity, BLANK);
    forall m | 0 <= m < cfg.slots ensures m in s.pool.free {
      assert s.pool.free[m] == m;
    }
    assert SlotsOk(s.pool);
    forall v | 0 <= v < cfg.workers ensures LocalOk(cfg, s, v, s.rings[v], s.workers[v], s.views[v]) {
      assert s.rings[v] == Spsc.Init(cfg.queueCapacity, BLANK);
    }
    Assemble(cfg, s);
  }
}
