/** Termination of the workers: how many steps of its own a worker needs to exit once the flag is clear. */
module Shutdown {
  import opened Pipeline
  import opened PipelineSteps
  import opened Engine
  import opened EngineTheorems
  import Spsc = SpscRing

  /** How many more steps of its own a worker can make: the rounds still to go, and the rest of this one. */
  function StepsLeft(pc: WorkerPc, r: Spsc.Ring<Envelope>): nat
    requires |r.popped| <= |r.pushed|
  {
    var waiting := |r.pushed| - |r.popped|;
    match pc
    case Exited => 0
    case AfterMiss => 16 * waiting + 1
    case Popping => 16 * waiting + 1 + Spsc.PopStepsLeft(r.consumer)
    case EmptyTail(_) => 16 * waiting + 6
    case EmptyHead => 16 * waiting + 7
    case Guard => 16 * waiting + 8
    case Releasing(_) => 16 * waiting + 9
    case Handling(_) => 16 * waiting + 10
  }

  /** Worker w has at most n steps to go. */
  ghost predicate Within(s: State, w: nat, n: int)
  {
    && w < |s.workers| == |s.rings| && |s.rings[w].popped| <= |s.rings[w].pushed|
    && StepsLeft(s.workers[w], s.rings[w]) <= n
  }

  /** Ingestion is over and the flag is clear. */
  ghost predicate Ending(cfg: Config, s: State)
  {
    Inv(cfg, s) && !s.running && s.ingest.Finished?
  }

  lemma {:induction false} AtMostARoundEach(cfg: Config, s: State, w: nat)
    requires Inv(cfg, s) && w < cfg.workers
    ensures Within(s, w, 16 * cfg.queueCapacity + 10)
  {
    LocalHolds(cfg, s, w);
  }

  /** A step inside pop, on the ring alone. */
  lemma {:induction false} PopNearer(r: Spsc.Ring<Envelope>)
    requires Spsc.Inv(r)
    ensures var (r', e) := Spsc.Move(r, Spsc.Consumer);
            var pc := if e.Popped? then Handling(e.item) else if e.Empty? then AfterMiss else Popping;
            && |r.popped| <= |r.pushed| && |r'.popped| <= |r'.pushed|
            && StepsLeft(pc, r') < StepsLeft(Popping, r)
  {
    Spsc.ConsumerMove(r);
    Spsc.PopProgress(r);
  }

  lemma {:induction false} PopOutcome(cfg: Config, s: State, w: nat)
    requires Inv(cfg, s) && w < cfg.workers && s.workers[w].Popping?
    ensures Spsc.Inv(s.rings[w])
    ensures var (r', e) := Spsc.Move(s.rings[w], Spsc.Consumer);
            var s' := PopStep(cfg, s, w);
            && w < |s'.workers| == |s'.rings| && s'.rings[w] == r'
            && s'.workers[w] == if e.Popped? then Handling(e.item) else if e.Empty? then AfterMiss else Popping
  {
    LocalHolds(cfg, s, w);
  }

  lemma {:induction false} OtherwiseNearer(s: State, w: nat, s': State, n: nat)
    requires OnlyWorker(s, w, s') && NextPc(s, w, s') && !s.running && !s.workers[w].Popping?
    requires Within(s, w, n + 1)
    ensures Within(s', w, n)
  {
  }

  /** Every step of the worker's own brings it nearer to its exit. */
  lemma {:induction false} OwnStepNearer(cfg: Config, s: State, w: nat, n: nat)
    requires Ending(cfg, s) && w < cfg.workers && Within(s, w, n + 1)
    ensures Within(WorkerStep(cfg, s, w), w, n)
  {
    if s.workers[w].Popping? {
      PopOutcome(cfg, s, w);
      PopNearer(s.rings[w]);
    } else {
      OtherwiseNearer(s, w, WorkerStep(cfg, s, w), n);
    }
  }

  lemma {:induction false} OthersStep(s: State, v: nat, s': State, w: nat, n: nat)
    requires OnlyWorker(s, v, s') && v != w && Within(s, w, n)
    ensures Within(s', w, n)
  {
  }

  lemma {:induction false} WorkerEnding(cfg: Config, s: State, v: nat)
    requires Ending(cfg, s) && v < cfg.workers
    ensures Ending(cfg, WorkerStep(cfg, s, v)) && OnlyWorker(s, v, WorkerStep(cfg, s, v))
  {
  }

  /** No other thread's step sets it back. */
  lemma {:induction false} StepNearer(cfg: Config, s: State, turn: Turn, w: nat, n: nat)
    requires Ending(cfg, s) && w < cfg.workers && Within(s, w, if turn == Worker(w) then n + 1 else n)
    ensures Ending(cfg, Step(cfg, s, turn)) && Within(Step(cfg, s, turn), w, n)
  {
    match turn
    case Main =>
    case Clear => ClearInv(cfg, s);
    case Worker(v) =>
      if v < cfg.workers {
        WorkerEnding(cfg, s, v);
        if v == w {
          OwnStepNearer(cfg, s, w, n);
        } else {
          OthersStep(s, v, WorkerStep(cfg, s, v), w, n);
        }
      }
  }

  function OwnTurns(turns: seq<Turn>, w: nat): nat
  {
    if turns == [] then 0 else (if turns[0] == Worker(w) then 1 else 0) + OwnTurns(turns[1..], w)
  }

  lemma {:induction false} RunNearer(cfg: Config, s: State, turns: seq<Turn>, w: nat, n: nat)
    requires Ending(cfg, s) && w < cfg.workers && Within(s, w, OwnTurns(turns, w) + n)
    ensures Ending(cfg, Run(cfg, s, turns)) && Within(Run(cfg, s, turns), w, n)
    decreases |turns|
  {
    if turns != [] {
      StepNearer(cfg, s, turns[0], w, OwnTurns(turns[1..], w) + n);
      RunNearer(cfg, Step(cfg, s, turns[0]), turns[1..], w, n);
    }
  }

  /** A worker exits within a bounded number of its own steps, whatever the others do: the joins return. */
  lemma {:induction false} WorkerExits(cfg: Config, s: State, turns: seq<Turn>, w: nat)
    requires Ending(cfg, s) && w < cfg.workers && OwnTurns(turns, w) >= 16 * cfg.queueCapacity + 10
    ensures w < |Run(cfg, s, turns).workers| && Run(cfg, s, turns).workers[w].Exited?
  {
    AtMostARoundEach(cfg, s, w);
    RunNearer(cfg, s, turns, w, 0);
    NoneLeft(Run(cfg, s, turns), w);
  }

  lemma {:induction false} NoneLeft(s: State, w: nat)
    requires Within(s, w, 0)
    ensures s.workers[w].Exited?
  {
  }

  /**
   Shutdown completes: the flag is cleared after the end of ingestion with no worker caught between a
   failed pop and the flag test, every worker gets its steps, and then every packet has been handled
   once, every worker has exited and every slot is free.
   */
  lemma {:induction false} ShutdownCompletes(cfg: Config, s: State, turns: seq<Turn>)
    requires Inv(cfg, s) && s.running && s.ingest.Finished? && !s.interrupted
    requires forall w :: 0 <= w < cfg.workers ==> !Missed(s, w)
    requires forall w :: 0 <= w < cfg.workers ==> OwnTurns(turns, w) >= 16 * cfg.queueCapacity + 10
    ensures Inv(cfg, ClearFlag(s))
    ensures var end := Run(cfg, ClearFlag(s), turns);
            && (forall w :: 0 <= w < cfg.workers ==>
                  end.workers[w].Exited? && end.views[w] == Faithful(cfg, Routed(cfg, w, |cfg.packets|)))
            && (forall m :: 0 <= m < cfg.slots ==> end.pool.isFree[m])
  {
    ClearInv(cfg, s);
    forall w | 0 <= w < cfg.workers ensures Run(cfg, ClearFlag(s), turns).workers[w].Exited? {
      WorkerExits(cfg, ClearFlag(s), turns, w);
    }
    CleanShutdown(cfg, s, turns);
  }
}
