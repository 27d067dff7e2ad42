/**
 Ingestion makes progress: its two waiting loops, for a slot and for room in a queue, end once the
 workers have had their turns, so pool and queues cannot block each other.
 */
module Progress {
  import opened Pipeline
  import opened PipelineSteps
  import opened Engine
  import opened EngineTheorems
  import opened Shutdown
  import Spsc = SpscRing

  // ----- The workers come to rest

  /** How many more steps a worker has work for: until its queue is empty and it holds no slot. */
  function WorkLeft(pc: WorkerPc, r: Spsc.Ring<Envelope>): nat
    requires |r.popped| <= |r.pushed|
  {
    var waiting := |r.pushed| - |r.popped|;
    match pc
    case Releasing(_) => 16 * waiting + 9
    case Handling(_) => 16 * waiting + 10
    case AfterMiss => if waiting == 0 then 0 else 16 * waiting + 7
    case Guard => if waiting == 0 then 0 else 16 * waiting + 6
    case Popping => if waiting == 0 then 0 else 16 * waiting + 1 + Spsc.PopStepsLeft(r.consumer)
    case _ => if waiting == 0 then 0 else 16 * waiting + 8
  }

  ghost predicate WorkWithin(s: State, w: nat, n: int)
  {
    && w < |s.workers| == |s.rings| && |s.rings[w].popped| <= |s.rings[w].pushed|
    && WorkLeft(s.workers[w], s.rings[w]) <= n
  }

  lemma {:induction false} WorkBound(cfg: Config, s: State, w: nat)
    requires Inv(cfg, s) && w < cfg.workers
    ensures WorkWithin(s, w, 16 * cfg.queueCapacity + 10)
  {
    LocalHolds(cfg, s, w);
  }

  lemma {:induction false} PopWork(r: Spsc.Ring<Envelope>, n: nat)
    requires Spsc.Inv(r) && |r.popped| <= |r.pushed| && WorkLeft(Popping, r) <= n + 1
    ensures var (r', e) := Spsc.Move(r, Spsc.Consumer);
            var pc := if e.Popped? then Handling(e.item) else if e.Empty? then AfterMiss else Popping;
            |r'.popped| <= |r'.pushed| && WorkLeft(pc, r') <= n
  {
    Spsc.ConsumerMove(r);
    Spsc.PopProgress(r);
  }

  lemma {:induction false} OtherWork(s: State, w: nat, s': State, n: nat)
    requires OnlyWorker(s, w, s') && NextPc(s, w, s') && s.running && !s.workers[w].Popping?
    requires s.workers[w].Guard? ==> s.rings[w].consumer.CIdle?
    requires WorkerFlags(s.running, s.interrupted, s.workers[w], s.rings[w].head)
    requires WorkWithin(s, w, n + 1)
    ensures WorkWithin(s', w, n)
  {
  }

  lemma {:induction false} OwnStepWorks(cfg: Config, s: State, w: nat, n: nat)
    requires Inv(cfg, s) && s.running && w < cfg.workers && WorkWithin(s, w, n + 1)
    ensures WorkWithin(WorkerStep(cfg, s, w), w, n)
  {
    LocalHolds(cfg, s, w);
    if s.workers[w].Popping? {
      PopOutcome(cfg, s, w);
      PopWork(s.rings[w], n);
    } else {
      OtherWork(s, w, WorkerStep(cfg, s, w), n);
    }
  }

  lemma {:induction false} OthersStepWorks(s: State, v: nat, s': State, w: nat, n: nat)
    requires OnlyWorker(s, v, s') && v != w && WorkWithin(s, w, n)
    ensures WorkWithin(s', w, n)
  {
  }

  /** Only the workers' turns. */
  predicate WorkersOnly(cfg: Config, turns: seq<Turn>)
  {
    forall i :: 0 <= i < |turns| ==> turns[i].Worker? && turns[i].w < cfg.workers
  }

  /** The ingestion thread has not moved, and the flag is set. */
  ghost predicate Paused(s: State, s': State)
  {
    && s'.running && !s'.interrupted
    && s'.ingest == s.ingest && s'.next == s.next && s'.committed == s.committed
  }

  lemma {:induction false} WorkerPaused(cfg: Config, s: State, v: nat)
    requires Inv(cfg, s) && s.running && !s.interrupted && v < cfg.workers
    ensures var s' := WorkerStep(cfg, s, v); Inv(cfg, s') && Paused(s, s') && OnlyWorker(s, v, s')
  {
  }

  lemma {:induction false} WorkerTurnWorks(cfg: Config, s: State, v: nat, w: nat, n: nat)
    requires Inv(cfg, s) && s.running && v < cfg.workers && w < cfg.workers
    requires WorkWithin(s, w, if v == w then n + 1 else n)
    ensures WorkWithin(WorkerStep(cfg, s, v), w, n)
  {
    if v == w {
      OwnStepWorks(cfg, s, w, n);
    } else {
      OthersStepWorks(s, v, WorkerStep(cfg, s, v), w, n);
    }
  }

  lemma {:induction false} RunPauses(cfg: Config, s: State, turns: seq<Turn>)
    requires Inv(cfg, s) && s.running && !s.interrupted && WorkersOnly(cfg, turns)
    ensures Inv(cfg, Run(cfg, s, turns)) && Paused(s, Run(cfg, s, turns))
    decreases |turns|
  {
    if turns != [] {
      assert turns[0] in turns;
      WorkerPaused(cfg, s, turns[0].w);
      RunPauses(cfg, WorkerStep(cfg, s, turns[0].w), turns[1..]);
    }
  }

  lemma {:induction false} RunWorks(cfg: Config, s: State, turns: seq<Turn>, w: nat, n: nat)
    requires Inv(cfg, s) && s.running && !s.interrupted && WorkersOnly(cfg, turns)
    requires w < cfg.workers && WorkWithin(s, w, OwnTurns(turns, w) + n)
    ensures WorkWithin(Run(cfg, s, turns), w, n)
    decreases |turns|
  {
    if turns != [] {
      assert turns[0] in turns;
      WorkerPaused(cfg, s, turns[0].w);
      WorkerTurnWorks(cfg, s, turns[0].w, w, OwnTurns(turns[1..], w) + n);
      RunWorks(cfg, WorkerStep(cfg, s, turns[0].w), turns[1..], w, n);
    }
  }

  /** Every queue is empty and no worker holds a slot. */
  ghost predicate AtRest(s: State)
  {
    forall w {:trigger WorkWithin(s, w, 0)} :: 0 <= w < |s.workers| ==> WorkWithin(s, w, 0)
  }

  /** Each worker has had its turns. */
  predicate EnoughTurns(cfg: Config, turns: seq<Turn>)
  {
    forall w :: 0 <= w < cfg.workers ==> OwnTurns(turns, w) >= 16 * cfg.queueCapacity + 10
  }

  lemma {:induction false} WorkersRest(cfg: Config, s: State, turns: seq<Turn>)
    requires Inv(cfg, s) && s.running && !s.interrupted && WorkersOnly(cfg, turns) && EnoughTurns(cfg, turns)
    ensures Inv(cfg, Run(cfg, s, turns)) && Paused(s, Run(cfg, s, turns)) && AtRest(Run(cfg, s, turns))
  {
    RunPauses(cfg, s, turns);
    forall w | 0 <= w < cfg.workers ensures WorkWithin(Run(cfg, s, turns), w, 0) {
      WorkBound(cfg, s, w);
      RunWorks(cfg, s, turns, w, 0);
    }
  }

  // ----- The ingestion thread moves on

  /** How many more steps the ingestion thread needs for its packet when nothing makes it wait. */
  function IngestLeft(i: Ingest, producer: Spsc.ProducerPc<Envelope>): (n: nat)
    ensures n <= 8
  {
    match i
    case Reading => 8
    case AcquireGuard => 7
    case Acquiring => 6
    case Copying(_) => 5
    case DispatchGuard(_) => 4
    case Pushing(_) => Spsc.PushStepsLeft(producer)
    case _ => 0
  }

  ghost predicate Ready(cfg: Config, s: State)
  {
    && Inv(cfg, s) && s.running && !s.interrupted && cfg.slots > 0 && s.committed < |cfg.packets| && AtRest(s)
  }

  function StepsToCommit(cfg: Config, s: State): (n: nat)
    requires Ready(cfg, s)
    ensures n <= 8
  {
    IngestLeft(s.ingest, s.rings[Route(cfg, s.committed)].producer)
  }

  lemma {:induction false} RestMeans(s: State, w: nat)
    requires AtRest(s) && w < |s.workers|
    ensures w < |s.rings| && |s.rings[w].popped| == |s.rings[w].pushed| && WorkingSlot(s.workers[w]).None?
  {
    assert WorkWithin(s, w, 0);
  }

  /** With all workers at rest the pool has a slot for an ingestion thread that holds none. */
  lemma {:induction false} SlotAvailable(cfg: Config, s: State)
    requires Ready(cfg, s) && HeldSlot(s.ingest).None?
    ensures s.pool.free != []
  {
    forall w | 0 <= w < |s.workers|
      ensures w < |s.rings| && |s.rings[w].popped| == |s.rings[w].pushed| && WorkingSlot(s.workers[w]).None?
    {
      RestMeans(s, w);
    }
    var p := PlaceOf(cfg, s, 0);
    assert p.InPool?;
  }

  lemma {:induction false} RestKept(s: State, s': State)
    requires AtRest(s) && s'.workers == s.workers && |s'.rings| == |s.rings|
    requires forall w :: 0 <= w < |s.rings| ==>
               s'.rings[w].pushed == s.rings[w].pushed && s'.rings[w].popped == s.rings[w].popped
    ensures AtRest(s')
  {
    forall w | 0 <= w < |s'.workers| ensures WorkWithin(s', w, 0) {
      assert WorkWithin(s, w, 0);
    }
  }

  /** One packet nearer: committed, or on the way there. */
  ghost predicate Nearer(cfg: Config, s: State, s': State)
    requires Ready(cfg, s)
  {
    && Inv(cfg, s') && s'.running && !s'.interrupted
    && (|| (s'.committed == s.committed + 1 && s'.ingest.Reading?)
        || (s'.committed == s.committed && Ready(cfg, s') && StepsToCommit(cfg, s') < StepsToCommit(cfg, s)))
  }

  /** The steps up to the dispatch. */
  lemma {:induction false} FetchAdvances(cfg: Config, s: State)
    requires Ready(cfg, s) && !s.ingest.DispatchGuard? && !s.ingest.Pushing?
    ensures Nearer(cfg, s, MainStep(cfg, s))
  {
    if s.ingest.Acquiring? {
      SlotAvailable(cfg, s);
    }
    RestKept(s, MainStep(cfg, s));
  }

  /** A step of push into an empty queue. */
  lemma {:induction false} PushIntoEmpty(r: Spsc.Ring<Envelope>, e: Envelope)
    requires Spsc.Inv(r) && |r.popped| == |r.pushed| && (r.producer.PIdle? || r.producer.item == e)
    ensures var (r', event) := Spsc.Move(r, Spsc.Producer(e));
            && !event.Full? && r'.popped == r.popped
            && (event.Pushed? || (event.Silent? && r'.pushed == r.pushed && !r'.producer.PIdle?
                                  && Spsc.PushStepsLeft(r'.producer) < Spsc.PushStepsLeft(r.producer)))
  {
    Spsc.ProducerMove(r, e);
    Spsc.PushProgress(r, e);
    assert Spsc.Contents(r) == [];
  }

  lemma {:induction false} DispatchOutcome(cfg: Config, s: State)
    requires Ready(cfg, s) && (s.ingest.DispatchGuard? || s.ingest.Pushing?)
    ensures var e, s' := s.ingest.envelope, MainStep(cfg, s);
            var w := Route(cfg, s.committed);
            && e.index == s.committed && Spsc.Inv(s.rings[w]) && |s.rings[w].popped| == |s.rings[w].pushed|
            && (if s.ingest.DispatchGuard? then s.rings[w].producer.PIdle? else s.rings[w].producer.item == e)
            && var (r, event) := Spsc.Move(s.rings[w], Spsc.Producer(e));
            && (event.Silent? ==> s' == s.(ingest := Pushing(e), rings := s.rings[w := r]))
            && (event.Pushed? ==> && s'.running && !s'.interrupted
                                  && s'.committed == s.committed + 1 && s'.ingest.Reading?)
  {
    var w := Route(cfg, s.committed);
    LocalHolds(cfg, s, w);
    RestMeans(s, w);
  }

  /** The steps of the dispatch. */
  lemma {:induction false} DispatchAdvances(cfg: Config, s: State)
    requires Ready(cfg, s) && (s.ingest.DispatchGuard? || s.ingest.Pushing?)
    ensures Nearer(cfg, s, MainStep(cfg, s))
  {
    var e, w := s.ingest.envelope, Route(cfg, s.committed);
    DispatchOutcome(cfg, s);
    PushIntoEmpty(s.rings[w], e);
    var (r, event) := Spsc.Move(s.rings[w], Spsc.Producer(e));
    if event.Silent? {
      RestKept(s, s.(ingest := Pushing(e), rings := s.rings[w := r]));
    }
  }

  lemma {:induction false} MainAdvances(cfg: Config, s: State)
    requires Ready(cfg, s)
    ensures Nearer(cfg, s, MainStep(cfg, s))
  {
    if s.ingest.DispatchGuard? || s.ingest.Pushing? {
      DispatchAdvances(cfg, s);
    } else {
      FetchAdvances(cfg, s);
    }
  }

  // ----- No deadlock

  lemma {:induction false} FirstTurn(cfg: Config, s: State, turn: Turn, rest: seq<Turn>)
    requires Inv(cfg, s)
    ensures Run(cfg, s, [turn] + rest) == Run(cfg, Step(cfg, s, turn), rest)
  {
    assert ([turn] + rest)[1..] == rest;
  }

  /** A number of turns of the ingestion thread. */
  function Mains(n: nat): (turns: seq<Turn>)
    ensures |turns| == n && forall i :: 0 <= i < n ==> turns[i] == Main
  {
    if n == 0 then [] else [Main] + Mains(n - 1)
  }

  /** One more packet has been dispatched, and the thread is back at its loop head. */
  ghost predicate Committed(s: State, s': State)
  {
    s'.running && !s'.interrupted && s'.ingest.Reading? && s'.committed == s.committed + 1
  }

  /** One turn of the ingestion thread, and what any more of them come to. */
  lemma {:induction false} MainTurn(cfg: Config, s: State) returns (s': State)
    requires Ready(cfg, s)
    ensures Nearer(cfg, s, s')
    ensures forall n: nat {:trigger Mains(n + 1)} :: Run(cfg, s, Mains(n + 1)) == Run(cfg, s', Mains(n))
  {
    MainAdvances(cfg, s);
    s' := MainStep(cfg, s);
    forall n: nat ensures Run(cfg, s, Mains(n + 1)) == Run(cfg, s', Mains(n)) {
      FirstTurn(cfg, s, Main, Mains(n));
    }
  }

  lemma {:induction false} OneMain(cfg: Config, s: State, s': State)
    requires Inv(cfg, s) && Inv(cfg, s') && Run(cfg, s, Mains(0 + 1)) == Run(cfg, s', Mains(0))
    ensures Run(cfg, s, Mains(1)) == s'
  {
  }

  /** With the workers at rest, a bounded number of its own steps commits the packet. */
  lemma {:induction false} CommitsAlone(cfg: Config, s: State) returns (n: nat)
    requires Ready(cfg, s)
    ensures n <= StepsToCommit(cfg, s) + 1 && Committed(s, Run(cfg, s, Mains(n)))
    decreases StepsToCommit(cfg, s)
  {
    var s' := MainTurn(cfg, s);
    if s'.committed == s.committed {
      var m := CommitsAlone(cfg, s');
      n := m + 1;
      assert Run(cfg, s, Mains(m + 1)) == Run(cfg, s', Mains(m));
    } else {
      n := 1;
      OneMain(cfg, s, s');
    }
  }

  lemma {:induction false} RestIsReady(cfg: Config, s: State, s': State)
    requires Inv(cfg, s') && Paused(s, s') && AtRest(s') && cfg.slots > 0 && s.committed < |cfg.packets|
    ensures Ready(cfg, s')
  {
  }

  /**
   Once every worker has had its turns, the ingestion thread commits its packet within nine steps: neither
   the wait for a slot nor the wait for room in the queue can go on for ever.
   */
  lemma {:induction false} NextPacketCommits(cfg: Config, s: State, workers: seq<Turn>) returns (n: nat)
    requires Inv(cfg, s) && s.running && !s.interrupted && cfg.slots > 0 && s.committed < |cfg.packets|
    requires WorkersOnly(cfg, workers) && EnoughTurns(cfg, workers)
    ensures n <= 9 && Committed(s, Run(cfg, s, workers + Mains(n)))
  {
    WorkersRest(cfg, s, workers);
    RestIsReady(cfg, s, Run(cfg, s, workers));
    n := CommitsAlone(cfg, Run(cfg, s, workers));
    RunConcat(cfg, s, workers, Mains(n));
  }

  // ----- Ingestion can always finish

  function Repeat(w: nat, n: nat): (turns: seq<Turn>)
    ensures |turns| == n && forall i :: 0 <= i < n ==> turns[i] == Worker(w)
  {
    if n == 0 then [] else [Worker(w)] + Repeat(w, n - 1)
  }

  /** A schedule that gives each of the first m workers n turns. */
  function Rounds(m: nat, n: nat): (turns: seq<Turn>)
    ensures forall i :: 0 <= i < |turns| ==> turns[i].Worker? && turns[i].w < m
  {
    if m == 0 then [] else Rounds(m - 1, n) + Repeat(m - 1, n)
  }

  lemma {:induction false} TurnsConcat(a: seq<Turn>, b: seq<Turn>, w: nat)
    ensures OwnTurns(a + b, w) == OwnTurns(a, w) + OwnTurns(b, w)
  {
    if a == [] {
      assert a + b == b;
    } else {
      assert (a + b)[1..] == a[1..] + b;
      TurnsConcat(a[1..], b, w);
    }
  }

  lemma {:induction false} RepeatTurns(w: nat, n: nat)
    ensures OwnTurns(Repeat(w, n), w) == n
  {
    if n > 0 {
      RepeatTurns(w, n - 1);
      assert Repeat(w, n)[1..] == Repeat(w, n - 1);
    }
  }

  lemma {:induction false} RoundsTurns(m: nat, n: nat, w: nat)
    requires w < m
    ensures OwnTurns(Rounds(m, n), w) >= n
  {
    TurnsConcat(Rounds(m - 1, n), Repeat(m - 1, n), w);
    if w == m - 1 {
      RepeatTurns(w, n);
    } else {
      RoundsTurns(m - 1, n, w);
    }
  }

  /** Rounds that are enough for every worker. */
  lemma {:induction false} FullRounds(cfg: Config) returns (turns: seq<Turn>)
    ensures WorkersOnly(cfg, turns) && EnoughTurns(cfg, turns)
  {
    var n := 16 * cfg.queueCapacity + 10;
    turns := Rounds(cfg.workers, n);
    forall w | 0 <= w < cfg.workers ensures OwnTurns(turns, w) >= n {
      RoundsTurns(cfg.workers, n, w);
    }
  }

  /** From every state with the flag set some schedule brings ingestion to its end: the engine cannot deadlock. */
  lemma {:induction false} IngestionCanFinish(cfg: Config, s: State) returns (turns: seq<Turn>)
    requires Inv(cfg, s) && s.running && !s.interrupted && cfg.slots > 0 && s.committed <= |cfg.packets|
    ensures Clear !in turns
    ensures var s' := Run(cfg, s, turns); Inv(cfg, s') && s'.running && !s'.interrupted && s'.ingest.Finished?
    decreases |cfg.packets| - s.committed
  {
    if s.committed == |cfg.packets| {
      turns := [Main];
      FirstTurn(cfg, s, Main, []);
      assert [Main] + [] == [Main];
    } else {
      var workers := FullRounds(cfg);
      var n := NextPacketCommits(cfg, s, workers);
      var mains := Mains(n);
      var rest := IngestionCanFinish(cfg, Run(cfg, s, workers + mains));
      RunConcat(cfg, s, workers + mains, rest);
      turns := workers + mains + rest;
    }
  }

  // ----- The engine can always be brought to a clean end

  /** One turn for every worker. */
  lemma {:induction false} OneTurnEach(cfg: Config) returns (turns: seq<Turn>)
    ensures WorkersOnly(cfg, turns) && forall w :: 0 <= w < cfg.workers ==> Worker(w) in turns
  {
    turns := Rounds(cfg.workers, 1);
    forall w | 0 <= w < cfg.workers ensures Worker(w) in turns {
      RoundsTurns(cfg.workers, 1, w);
      CountedIn(turns, w);
    }
  }

  lemma {:induction false} CountedIn(turns: seq<Turn>, w: nat)
    requires OwnTurns(turns, w) > 0
    ensures Worker(w) in turns
  {
    if turns[0] != Worker(w) {
      CountedIn(turns[1..], w);
    }
  }

  /** A pause in which every worker steps once leaves none of them caught. */
  lemma {:induction false} PauseHelps(cfg: Config, s: State, turns: seq<Turn>)
    requires Inv(cfg, s) && s.running && s.ingest.Finished? && !s.interrupted
    requires WorkersOnly(cfg, turns) && forall w :: 0 <= w < cfg.workers ==> Worker(w) in turns
    ensures var s' := Run(cfg, s, turns);
            && Inv(cfg, s') && s'.running && s'.ingest.Finished? && !s'.interrupted
            && forall w :: 0 <= w < cfg.workers ==> !Missed(s', w)
  {
    RunPauses(cfg, s, turns);
    assert Clear !in turns;
    forall w | 0 <= w < cfg.workers ensures !Missed(Run(cfg, s, turns), w) {
      OneStepSuffices(cfg, s, turns, w);
    }
  }

  /**
   From every state with the flag set some schedule ingests the whole capture, pauses, clears the flag and
   ends with every packet handled once, every worker exited and every slot free.
   */
  lemma {:induction false} CleanEndReachable(cfg: Config, s: State)
    returns (ingest: seq<Turn>, pause: seq<Turn>, drain: seq<Turn>)
    requires Inv(cfg, s) && s.running && !s.interrupted && cfg.slots > 0 && s.committed <= |cfg.packets|
    ensures Clear !in ingest && WorkersOnly(cfg, pause) && WorkersOnly(cfg, drain)
    ensures var s' := Run(cfg, s, ingest + pause);
            && Inv(cfg, s') && s'.ingest.Finished? && Inv(cfg, ClearFlag(s'))
            && CleanEnd(cfg, Run(cfg, ClearFlag(s'), drain))
  {
    ingest := IngestionCanFinish(cfg, s);
    pause := OneTurnEach(cfg);
    drain := FullRounds(cfg);
    PauseHelps(cfg, Run(cfg, s, ingest), pause);
    RunConcat(cfg, s, ingest, pause);
    ShutdownCompletes(cfg, Run(cfg, s, ingest + pause), drain);
  }

  ghost predicate CleanEnd(cfg: Config, s: State)
    requires Inv(cfg, s)
  {
    && (forall w :: 0 <= w < cfg.workers ==>
          s.workers[w].Exited? && s.views[w] == Faithful(cfg, Routed(cfg, w, |cfg.packets|)))
    && (forall m :: 0 <= m < cfg.slots ==> s.pool.isFree[m])
  }
}
