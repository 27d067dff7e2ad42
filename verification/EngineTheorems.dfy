/** What holds in every run of the engine, and exactly when its shutdown drains the queues. */
module EngineTheorems {
  import opened Options
  import opened FlowKey
  import opened Pipeline
  import opened PipelineSteps
  import opened Engine
  import Spsc = SpscRing

  /** The state after any sequence of turns from the start. */
  function Reach(cfg: Config, turns: seq<Turn>): (s: State)
    requires ConfigOk(cfg)
    ensures Inv(cfg, s)
  {
    StartInv(cfg);
    Run(cfg, Start(cfg), turns)
  }

  // ----- Slots

  /** The places a slot number can be in. */
  datatype Place = InPool(position: nat) | InHand | InQueue(worker: nat, position: nat) | AtWorker(worker: nat)

  ghost predicate At(s: State, slot: nat, p: Place)
  {
    match p
    case InPool(i) => i < |s.pool.free| && s.pool.free[i] == slot
    case InHand => HeldSlot(s.ingest) == Some(slot)
    case InQueue(w, k) => w < |s.rings| && Live(s.rings[w], k) && s.rings[w].pushed[k].slot == Some(slot)
    case AtWorker(w) => w < |s.workers| && WorkingSlot(s.workers[w]) == Some(slot)
  }

  ghost function PlaceOf(cfg: Config, s: State, slot: nat): (p: Place)
    requires Inv(cfg, s) && slot < cfg.slots
    ensures At(s, slot, p)
  {
    match s.owner[slot]
    case Free => assert slot in s.pool.free; var i :| 0 <= i < |s.pool.free| && s.pool.free[i] == slot; InPool(i)
    case Held => InHand
    case Queued(w, k) => InQueue(w, k)
    case Working(w) => AtWorker(w)
  }

  lemma PlaceIsUnique(s: State, slot: nat, p: Place, q: Place)
    requires Ownership(s) && slot < |s.owner| && At(s, slot, p) && At(s, slot, q)
    ensures p == q
  {
    assert forall i :: 0 <= i < |s.pool.free| ==> s.pool.free[i] in s.pool.free;
  }

  /** In every reachable state each slot is in exactly one place. */
  lemma SlotInOnePlace(cfg: Config, turns: seq<Turn>, slot: nat)
    requires ConfigOk(cfg) && slot < cfg.slots
    ensures exists p :: At(Reach(cfg, turns), slot, p) && forall q :: At(Reach(cfg, turns), slot, q) ==> q == p
  {
    var s := Reach(cfg, turns);
    var p := PlaceOf(cfg, s, slot);
    forall q | At(s, slot, q) ensures q == p {
      PlaceIsUnique(s, slot, p, q);
    }
  }

  /** Every release is of a slot in use: the double-free guard never fires. */
  lemma NoDoubleFree(cfg: Config, turns: seq<Turn>)
    requires ConfigOk(cfg)
    ensures var s := Reach(cfg, turns);
            && (s.ingest.RollingBack? ==> s.ingest.slot < |s.pool.isFree| && !s.pool.isFree[s.ingest.slot])
            && forall w :: 0 <= w < |s.workers| && s.workers[w].Releasing? ==>
                 s.workers[w].slot < |s.pool.isFree| && !s.pool.isFree[s.workers[w].slot]
  {
    var s := Reach(cfg, turns);
    if s.ingest.RollingBack? {
      RollBackInv(cfg, s);
    }
    forall w | 0 <= w < |s.workers| && s.workers[w].Releasing?
      ensures s.workers[w].slot < |s.pool.isFree| && !s.pool.isFree[s.workers[w].slot]
    {
      WorkerReleaseInv(cfg, s, w);
    }
  }

  // ----- Payloads and order

  lemma {:induction false} RoutedSound(cfg: Config, w: nat, n: nat)
    requires cfg.workers > 0 && n <= |cfg.packets|
    ensures forall i :: i in Routed(cfg, w, n) <==> 0 <= i < n && Route(cfg, i) == w
    ensures forall a, b :: 0 <= a < b < |Routed(cfg, w, n)| ==> Routed(cfg, w, n)[a] < Routed(cfg, w, n)[b]
  {
    if n > 0 {
      RoutedSound(cfg, w, n - 1);
    }
  }

  lemma {:induction false} FaithfulAt(cfg: Config, ix: seq<nat>, k: nat)
    requires k < |ix| && forall j :: 0 <= j < |ix| ==> ix[j] < |cfg.packets|
    ensures Faithful(cfg, ix)[k] == View(ix[k], Clip(cfg.packets[ix[k]].payload))
  {
    var n := |ix| - 1;
    if k < n {
      FaithfulAt(cfg, ix[..n], k);
    }
  }

  /**
   In every run, what worker w has handled is a prefix of what was routed to it, in ingestion
   order, and of each packet it saw exactly the first 2048 payload bytes.
   */
  lemma WorkersSeeWhatWasSent(cfg: Config, turns: seq<Turn>, w: nat)
    requires ConfigOk(cfg) && w < cfg.workers
    ensures var s := Reach(cfg, turns);
            && s.committed <= |cfg.packets|
            && |s.views[w]| <= |Routed(cfg, w, s.committed)|
            && s.views[w] == Faithful(cfg, Routed(cfg, w, s.committed)[..|s.views[w]|])
            && forall b {:trigger s.views[w][b]} :: 0 <= b < |s.views[w]| ==>
                 && s.views[w][b].index == Routed(cfg, w, s.committed)[b]
                 && var sent := cfg.packets[s.views[w][b].index].payload;
                    s.views[w][b].bytes == if |sent| > 2048 then sent[..2048] else sent
  {
    var s := Reach(cfg, turns);
    LocalHolds(cfg, s, w);
    forall b | 0 <= b < |s.views[w]|
      ensures s.views[w][b] == View(Routed(cfg, w, s.committed)[b],
                                    Clip(cfg.packets[Routed(cfg, w, s.committed)[b]].payload))
    {
      FaithfulAt(cfg, Routed(cfg, w, s.committed)[..|s.views[w]|], b);
    }
  }

  /** Both directions of a flow go to one worker ... */
  lemma FlowStaysOnWorker(cfg: Config, i: nat, j: nat)
    requires ConfigOk(cfg) && i < |cfg.packets| && j < |cfg.packets|
    requires cfg.packets[j].tuple == cfg.packets[i].tuple || cfg.packets[j].tuple == Reverse(cfg.packets[i].tuple)
    ensures Route(cfg, i) == Route(cfg, j)
  {
    SameKeyIff(cfg.packets[i].tuple, cfg.packets[j].tuple);
  }

  /** A routed packet's earlier companions on the same worker stand before it. */
  lemma RoutedBefore(cfg: Config, w: nat, n: nat, i: nat, b: nat) returns (a: nat)
    requires cfg.workers > 0 && n <= |cfg.packets| && b < |Routed(cfg, w, n)|
    requires i < Routed(cfg, w, n)[b] && Route(cfg, i) == w
    ensures a < b && Routed(cfg, w, n)[a] == i
  {
    RoutedSound(cfg, w, n);
    var ix := Routed(cfg, w, n);
    assert i in ix;
    a :| 0 <= a < |ix| && ix[a] == i;
  }

  /** ... which handles the flow's packets in ingestion order, skipping none. */
  lemma FlowInOrder(cfg: Config, turns: seq<Turn>, i: nat, j: nat, b: nat)
    requires ConfigOk(cfg) && i < j < |cfg.packets|
    requires cfg.packets[j].tuple == cfg.packets[i].tuple || cfg.packets[j].tuple == Reverse(cfg.packets[i].tuple)
    requires b < |Reach(cfg, turns).views[Route(cfg, j)]|
    requires Reach(cfg, turns).views[Route(cfg, j)][b].index == j
    ensures exists a :: 0 <= a < b && Reach(cfg, turns).views[Route(cfg, j)][a].index == i
  {
    var w := Route(cfg, j);
    FlowStaysOnWorker(cfg, i, j);
    WorkersSeeWhatWasSent(cfg, turns, w);
    var views, n := Reach(cfg, turns).views[w], Reach(cfg, turns).committed;
    InOrder(cfg, w, n, views, i, b);
  }

  lemma InOrder(cfg: Config, w: nat, n: nat, views: seq<View>, i: nat, b: nat)
    requires cfg.workers > 0 && n <= |cfg.packets| && |views| <= |Routed(cfg, w, n)| && b < |views|
    requires views == Faithful(cfg, Routed(cfg, w, n)[..|views|])
    requires i < views[b].index && i < |cfg.packets| && Route(cfg, i) == w
    ensures exists a :: 0 <= a < b && views[a].index == i
  {
    var ix := Routed(cfg, w, n);
    FaithfulAt(cfg, ix[..|views|], b);
    var a := RoutedBefore(cfg, w, n, i, b);
    FaithfulAt(cfg, ix[..|views|], a);
    assert views[a].index == i;
  }

  // ----- Shutdown at the end of the file

  /** w's last pop found nothing, a packet has arrived since, and w has not looked at the flag yet. */
  ghost predicate Missed(s: State, w: nat)
    requires w < |s.workers| == |s.rings|
  {
    s.workers[w].AfterMiss? && |s.rings[w].popped| < |s.rings[w].pushed|
  }

  ghost predicate Lost(s: State, w: nat)
    requires w < |s.workers| == |s.rings|
  {
    (s.workers[w].AfterMiss? || s.workers[w].Exited?) && |s.rings[w].popped| < |s.rings[w].pushed|
  }

  /** The empty test of the loop condition is exact once no more packets can arrive. */
  lemma EmptyTestExact(cfg: Config, s: State, w: nat)
    requires Inv(cfg, s) && w < cfg.workers && !s.running && !s.interrupted && s.workers[w].EmptyTail?
    ensures s.workers[w].head == s.rings[w].tail <==> |s.rings[w].popped| == |s.rings[w].pushed|
    ensures |s.rings[w].popped| <= |s.rings[w].pushed|
  {
    LocalHolds(cfg, s, w);
    Spsc.HeadCell(s.rings[w]);
  }

  /** Once ingestion is over and the flag is clear, whether w loses packets is settled. */
  lemma OwnStepSettled(s: State, w: nat, s': State)
    requires OnlyWorker(s, w, s') && NextPc(s, w, s') && !s.running
    requires |s.rings[w].popped| <= |s.rings[w].pushed|
    requires s.workers[w].EmptyTail? ==>
               (s.workers[w].head == s.rings[w].tail <==> |s.rings[w].popped| == |s.rings[w].pushed|)
    ensures Lost(s', w) <==> Lost(s, w)
  {
  }

  lemma OthersStepSettled(s: State, v: nat, s': State, w: nat)
    requires OnlyWorker(s, v, s') && v != w && w < |s.rings|
    ensures s'.rings[w].pushed == s.rings[w].pushed && (Lost(s', w) <==> Lost(s, w))
  {
  }

  lemma {:induction false} OwnSettled(cfg: Config, s: State, w: nat)
    requires Inv(cfg, s) && w < cfg.workers && !s.running && !s.interrupted
    ensures w < |s.workers| == |s.rings| && OnlyWorker(s, w, WorkerStep(cfg, s, w))
    ensures Lost(WorkerStep(cfg, s, w), w) <==> Lost(s, w)
  {
    LocalHolds(cfg, s, w);
    if s.workers[w].EmptyTail? {
      EmptyTestExact(cfg, s, w);
    }
    OwnStepSettled(s, w, WorkerStep(cfg, s, w));
  }

  lemma {:induction false} StepSettled(cfg: Config, s: State, turn: Turn, w: nat)
    requires Inv(cfg, s) && w < cfg.workers && !s.running && !s.interrupted
    ensures var s' := Step(cfg, s, turn);
            && !s'.running && !s'.interrupted && s'.rings[w].pushed == s.rings[w].pushed
            && (Lost(s', w) <==> Lost(s, w))
  {
    match turn
    case Main =>
    case Clear => ClearInv(cfg, s);
    case Worker(v) =>
      if v < cfg.workers {
        if v == w {
          OwnSettled(cfg, s, w);
        } else {
          OthersStepSettled(s, v, WorkerStep(cfg, s, v), w);
        }
      }
  }

  lemma {:induction false} RunSettled(cfg: Config, s: State, turns: seq<Turn>, w: nat)
    requires Inv(cfg, s) && w < cfg.workers && !s.running && !s.interrupted
    ensures var s' := Run(cfg, s, turns);
            && !s'.running && !s'.interrupted && s'.rings[w].pushed == s.rings[w].pushed
            && (Lost(s', w) <==> Lost(s, w))
    decreases |turns|
  {
    if turns != [] {
      StepSettled(cfg, s, turns[0], w);
      RunSettled(cfg, Step(cfg, s, turns[0]), turns[1..], w);
    }
  }

  /**
   The flag is cleared at s, after ingestion has finished, and some time later w has exited.
   Its queue was drained if and only if w was not, at that moment, between a failed pop and
   the flag test with a packet already waiting.
   */
  lemma DrainedIff(cfg: Config, s: State, turns: seq<Turn>, w: nat)
    requires Inv(cfg, s) && w < cfg.workers && s.running && s.ingest.Finished? && !s.interrupted
    ensures Inv(cfg, ClearFlag(s))
    ensures var end := Run(cfg, ClearFlag(s), turns);
            end.workers[w].Exited? ==> (end.rings[w].popped == end.rings[w].pushed <==> !Missed(s, w))
  {
    ClearInv(cfg, s);
    LocalHolds(cfg, s, w);
    RunSettled(cfg, ClearFlag(s), turns, w);
    LocalHolds(cfg, Run(cfg, ClearFlag(s), turns), w);
  }

  lemma WorkerComplete(cfg: Config, s: State, turns: seq<Turn>, w: nat)
    requires Inv(cfg, s) && s.running && s.ingest.Finished? && !s.interrupted && w < cfg.workers && !Missed(s, w)
    ensures Inv(cfg, ClearFlag(s))
    ensures var end := Run(cfg, ClearFlag(s), turns);
            && !end.running && !end.interrupted && end.ingest.Finished?
            && (end.workers[w].Exited? ==>
                  && end.rings[w].popped == end.rings[w].pushed
                  && end.views[w] == Faithful(cfg, Routed(cfg, w, |cfg.packets|)))
  {
    DrainedIff(cfg, s, turns, w);
    RunSettled(cfg, ClearFlag(s), turns, w);
    var end := Run(cfg, ClearFlag(s), turns);
    SettledFacts(cfg, end);
    if end.workers[w].Exited? {
      DrainedViews(cfg, end, w);
    }
  }

  lemma SettledFacts(cfg: Config, s: State)
    requires Inv(cfg, s) && !s.running && !s.interrupted
    ensures s.ingest.Finished? && s.committed == |cfg.packets|
  {
  }

  lemma DrainedViews(cfg: Config, s: State, w: nat)
    requires Inv(cfg, s) && w < cfg.workers && !s.workers[w].Handling? && s.rings[w].popped == s.rings[w].pushed
    ensures s.committed <= |cfg.packets| && s.views[w] == Faithful(cfg, Routed(cfg, w, s.committed))
  {
    LocalHolds(cfg, s, w);
    var ix := Routed(cfg, w, s.committed);
    assert ix[..|ix|] == ix;
  }

  lemma AllSlotsFree(cfg: Config, s: State)
    requires Inv(cfg, s) && s.ingest.Finished?
    requires forall w :: 0 <= w < cfg.workers ==> s.workers[w].Exited? && s.rings[w].popped == s.rings[w].pushed
    ensures forall m :: 0 <= m < cfg.slots ==> s.pool.isFree[m]
  {
    forall m | 0 <= m < cfg.slots ensures s.pool.isFree[m] {
      var p := PlaceOf(cfg, s, m);
      assert p.InPool?;
      assert s.pool.free[p.position] in s.pool.free;
    }
  }

  /** If no worker is caught so, every packet is handled once and every slot is free again. */
  lemma CleanShutdown(cfg: Config, s: State, turns: seq<Turn>)
    requires Inv(cfg, s) && s.running && s.ingest.Finished? && !s.interrupted
    requires forall w :: 0 <= w < cfg.workers ==> !Missed(s, w)
    ensures Inv(cfg, ClearFlag(s))
    ensures var end := Run(cfg, ClearFlag(s), turns);
            (forall w :: 0 <= w < cfg.workers ==> end.workers[w].Exited?) ==>
              && (forall w :: 0 <= w < cfg.workers ==>
                    end.views[w] == Faithful(cfg, Routed(cfg, w, |cfg.packets|)))
              && (forall m :: 0 <= m < cfg.slots ==> end.pool.isFree[m])
  {
    WorkerComplete(cfg, s, turns, 0);
    var end := Run(cfg, ClearFlag(s), turns);
    if forall w :: 0 <= w < cfg.workers ==> end.workers[w].Exited? {
      forall w | 0 <= w < cfg.workers
        ensures end.rings[w].popped == end.rings[w].pushed
        ensures end.views[w] == Faithful(cfg, Routed(cfg, w, |cfg.packets|))
      {
        WorkerComplete(cfg, s, turns, w);
      }
      AllSlotsFree(cfg, end);
    }
  }

  // ----- What the pause before clearing the flag is for

  lemma MissedFrame(s: State, v: nat, s': State, w: nat)
    requires OnlyWorker(s, v, s') && NextPc(s, v, s') && s.running && w < |s.workers| == |s.rings|
    ensures w < |s'.workers| == |s'.rings| && (Missed(s', w) ==> Missed(s, w) && v != w)
  {
  }

  lemma StepAfterFinish(cfg: Config, s: State, turn: Turn, w: nat)
    requires Inv(cfg, s) && w < cfg.workers && s.running && s.ingest.Finished? && !s.interrupted && !turn.Clear?
    ensures var s' := Step(cfg, s, turn);
            && s'.running && s'.ingest.Finished? && !s'.interrupted
            && (Missed(s', w) ==> Missed(s, w) && turn != Worker(w))
  {
    if turn.Worker? && turn.w < cfg.workers {
      MissedFrame(s, turn.w, WorkerStep(cfg, s, turn.w), w);
    }
  }

  /** A worker that makes at least one step between the end of ingestion and the clearing is safe. */
  lemma {:induction false} OneStepSuffices(cfg: Config, s: State, turns: seq<Turn>, w: nat)
    requires Inv(cfg, s) && w < cfg.workers && s.running && s.ingest.Finished? && !s.interrupted
    requires Clear !in turns
    ensures var s' := Run(cfg, s, turns);
            && s'.running && s'.ingest.Finished? && !s'.interrupted
            && (Missed(s', w) ==> Missed(s, w) && Worker(w) !in turns)
    decreases |turns|
  {
    if turns != [] {
      assert turns[0] in turns;
      StepAfterFinish(cfg, s, turns[0], w);
      OneStepSuffices(cfg, Step(cfg, s, turns[0]), turns[1..], w);
    }
  }

  // ----- A run that loses a packet

  lemma {:induction false} RunThree(cfg: Config, s: State, s1: State, s2: State, s3: State, turn: Turn)
    requires Inv(cfg, s) && s1 == Step(cfg, s, turn) && s2 == Step(cfg, s1, turn) && s3 == Step(cfg, s2, turn)
    ensures Run(cfg, s, [turn, turn, turn]) == s3
  {
    assert Run(cfg, s2, [turn]) == s3;
    assert Run(cfg, s1, [turn, turn]) == s3;
  }

  lemma {:induction false} PopMisses(cfg: Config, s: State)
    requires Inv(cfg, s) && cfg.workers == 1 && s.running && s.workers[0].Guard? && s.rings[0].consumer.CIdle?
    requires s.rings[0].pushed == s.rings[0].popped
    ensures var s' := Run(cfg, s, [Worker(0), Worker(0), Worker(0)]);
            && s'.workers[0] == AfterMiss && OnlyWorker(s, 0, s') && s'.rings[0].popped == s.rings[0].popped
  {
    var s1 := WorkerStep(cfg, s, 0);
    var s2 := WorkerStep(cfg, s1, 0);
    var s3 := WorkerStep(cfg, s2, 0);
    MissPath(s, s1, s2, s3);
    RunThree(cfg, s, s1, s2, s3, Worker(0));
  }

  lemma MissPath(s: State, s1: State, s2: State, s3: State)
    requires OnlyWorker(s, 0, s1) && NextPc(s, 0, s1) && OnlyWorker(s1, 0, s2) && NextPc(s1, 0, s2)
    requires OnlyWorker(s2, 0, s3) && NextPc(s2, 0, s3)
    requires s.running && s.workers[0].Guard? && s.rings[0].consumer.CIdle? && s.rings[0].pushed == s.rings[0].popped
    ensures OnlyWorker(s, 0, s3) && s3.workers[0] == AfterMiss && s3.rings[0].popped == s.rings[0].popped
  {
  }

  /** How far a push to an empty queue has got. */
  ghost predicate PushAt(s: State, pc: int)
  {
    && s.running && !s.interrupted && s.next == 0 && s.committed == 0
    && |s.rings| == |s.workers| == 1 && s.workers[0] == AfterMiss
    && s.rings[0].pushed == [] && s.rings[0].popped == []
    && (if pc == 0 then s.ingest.Reading? && s.rings[0].producer.PIdle?
        else if pc == 1 then s.ingest.DispatchGuard? && s.rings[0].producer.PIdle?
        else s.ingest.Pushing? && (if pc == 2 then s.rings[0].producer.PLoadedHead?
                                   else if pc == 3 then s.rings[0].producer.PReady?
                                   else s.rings[0].producer.PWritten?))
  }

  lemma PushAdvances(cfg: Config, s: State, pc: int)
    requires Inv(cfg, s) && cfg.workers == 1 && |cfg.packets| == 1 && cfg.packets[0].payload == []
    requires 0 <= pc < 4 && PushAt(s, pc)
    ensures PushAt(MainStep(cfg, s), pc + 1)
  {
    LocalHolds(cfg, s, 0);
    Spsc.HeadCell(s.rings[0]);
  }

  lemma PushEnds(cfg: Config, s: State)
    requires Inv(cfg, s) && cfg.workers == 1 && |cfg.packets| == 1 && PushAt(s, 4)
    ensures var s' := MainStep(cfg, MainStep(cfg, s));
            && s'.ingest.Finished? && s'.running && !s'.interrupted && s'.workers[0] == AfterMiss
            && |s'.rings[0].pushed| == 1 && s'.rings[0].popped == []
  {
    LocalHolds(cfg, s, 0);
    Spsc.ProducerMove(s.rings[0], s.ingest.envelope);
  }

  lemma {:induction false} RunConcat(cfg: Config, s: State, a: seq<Turn>, b: seq<Turn>)
    requires Inv(cfg, s)
    ensures Run(cfg, s, a + b) == Run(cfg, Run(cfg, s, a), b)
    decreases |a|
  {
    if a == [] {
      assert a + b == b;
    } else {
      assert (a + b)[0] == a[0] && (a + b)[1..] == a[1..] + b;
      RunConcat(cfg, Step(cfg, s, a[0]), a[1..], b);
    }
  }

  lemma {:induction false} FourPushes(cfg: Config, s: State) returns (s1: State, s2: State, s3: State, s4: State)
    requires Inv(cfg, s) && cfg.workers == 1 && |cfg.packets| == 1 && cfg.packets[0].payload == [] && PushAt(s, 0)
    ensures Inv(cfg, s1) && Inv(cfg, s2) && Inv(cfg, s3) && Inv(cfg, s4) && PushAt(s4, 4)
    ensures s1 == Step(cfg, s, Main) && s2 == Step(cfg, s1, Main)
    ensures s3 == Step(cfg, s2, Main) && s4 == Step(cfg, s3, Main)
  {
    PushAdvances(cfg, s, 0);
    s1 := MainStep(cfg, s);
    PushAdvances(cfg, s1, 1);
    s2 := MainStep(cfg, s1);
    PushAdvances(cfg, s2, 2);
    s3 := MainStep(cfg, s2);
    PushAdvances(cfg, s3, 3);
    s4 := MainStep(cfg, s3);
  }

  lemma {:induction false} RunSix(cfg: Config, s: State, s1: State, s2: State, s3: State, s4: State, turn: Turn)
    requires Inv(cfg, s) && s1 == Step(cfg, s, turn) && s2 == Step(cfg, s1, turn)
    requires s3 == Step(cfg, s2, turn) && s4 == Step(cfg, s3, turn)
    ensures Run(cfg, s, [turn, turn, turn, turn, turn, turn]) == Step(cfg, Step(cfg, s4, turn), turn)
  {
    RunTwo(cfg, s4, turn, turn);
    assert Run(cfg, s3, [turn, turn, turn]) == Run(cfg, s4, [turn, turn]);
    assert Run(cfg, s2, [turn, turn, turn, turn]) == Run(cfg, s4, [turn, turn]);
    assert Run(cfg, s1, [turn, turn, turn, turn, turn]) == Run(cfg, s4, [turn, turn]);
  }

  lemma {:induction false} SixSteps(cfg: Config, s: State)
    requires Inv(cfg, s) && cfg.workers == 1 && |cfg.packets| == 1 && cfg.packets[0].payload == [] && PushAt(s, 0)
    ensures var s' := Run(cfg, s, [Main, Main, Main, Main, Main, Main]);
            && s'.ingest.Finished? && s'.running && !s'.interrupted && s'.workers[0] == AfterMiss
            && |s'.rings[0].pushed| == 1 && s'.rings[0].popped == []
  {
    var s1, s2, s3, s4 := FourPushes(cfg, s);
    RunSix(cfg, s, s1, s2, s3, s4, Main);
    PushEnds(cfg, s4);
  }

  /** One worker, one packet without payload, any queue: cleared at the wrong moment, the packet is never popped. */
  lemma LostPacket(cfg: Config) returns (turns: seq<Turn>)
    requires ConfigOk(cfg) && cfg.workers == 1 && |cfg.packets| == 1 && cfg.packets[0].payload == []
    ensures var s := Reach(cfg, turns);
            && s.ingest.Finished? && !s.interrupted && s.workers[0].Exited?
            && |s.rings[0].pushed| == 1 && s.rings[0].popped == []
  {
    StartInv(cfg);
    var a, b, c := [Worker(0), Worker(0), Worker(0)], [Main, Main, Main, Main, Main, Main], [Clear, Worker(0)];
    var s0 := Start(cfg);
    MissFirst(cfg);
    SixSteps(cfg, Run(cfg, s0, a));
    ExitAfterMiss(cfg, Run(cfg, Run(cfg, s0, a), b));
    turns := a + b + c;
    RunConcat(cfg, s0, a, b);
    RunConcat(cfg, s0, a + b, c);
  }

  lemma MissFirst(cfg: Config)
    requires ConfigOk(cfg) && cfg.workers == 1
    ensures Inv(cfg, Start(cfg)) && PushAt(Run(cfg, Start(cfg), [Worker(0), Worker(0), Worker(0)]), 0)
  {
    StartInv(cfg);
    PopMisses(cfg, Start(cfg));
    LocalHolds(cfg, Run(cfg, Start(cfg), [Worker(0), Worker(0), Worker(0)]), 0);
  }

  lemma {:induction false} ExitAfterMiss(cfg: Config, s: State)
    requires Inv(cfg, s) && cfg.workers == 1 && s.running && s.ingest.Finished? && !s.interrupted
    requires s.workers[0].AfterMiss?
    ensures var s' := Run(cfg, s, [Clear, Worker(0)]);
            && s'.ingest.Finished? && !s'.interrupted && s'.workers[0].Exited? && s'.rings[0] == s.rings[0]
  {
    var s1, s2 := ClearThenWorker(cfg, s, 0);
    assert NextPc(s1, 0, s2);
  }

  lemma {:induction false} RunTwo(cfg: Config, s: State, a: Turn, b: Turn)
    requires Inv(cfg, s)
    ensures Run(cfg, s, [a, b]) == Step(cfg, Step(cfg, s, a), b)
  {
    var s1 := Step(cfg, s, a);
    assert Run(cfg, s1, [b]) == Step(cfg, s1, b);
  }

  lemma {:induction false} ClearThenWorker(cfg: Config, s: State, w: nat) returns (s1: State, s2: State)
    requires Inv(cfg, s) && w < cfg.workers
    ensures s1 == ClearFlag(s) && OnlyWorker(s1, w, s2) && NextPc(s1, w, s2)
    ensures s2 == Run(cfg, s, [Clear, Worker(w)])
  {
    ClearInv(cfg, s);
    s1 := ClearFlag(s);
    s2 := WorkerStep(cfg, s1, w);
    RunTwo(cfg, s, Clear, Worker(w));
  }
}
