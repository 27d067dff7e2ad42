/**
 The engine and its workers' tables together: what the table of a worker says about a flow, in
 terms of the capture alone, whatever the interleaving, the number of workers and the hash.
 */
module EndToEnd {
  import opened Bytes
  import opened PatternSpec
  import opened FlowKey
  import opened FlowTable
  import opened Time
  import opened FlowVerdict
  import opened Pipeline
  import opened EngineTheorems
  import Runs = WorkerRuns

  /** A packet of a flow, as far as the flow table is concerned. */
  datatype Sent = Sent(flags: nat, payload: Word)

  /** Only such a packet creates a table entry. */
  predicate Opens(p: Sent)
  {
    Syn(p.flags) && !Ack(p.flags)
  }

  lemma OpensMeaning(p: Sent)
    ensures Opens(p) <==> p.flags / 2 % 2 == 1 && p.flags / 16 % 2 == 0
  {
  }

  /** The packets of flow k among the first n captured, in order, each cut to what a slot holds. */
  function Captured(packets: seq<Packet>, flags: seq<nat>, k: FiveTuple, n: nat): seq<Sent>
    requires n <= |packets| == |flags|
  {
    if n == 0 then []
    else
      var p := packets[n - 1];
      Captured(packets, flags, k, n - 1)
      + if Canonical(p.tuple) == k then [Sent(flags[n - 1], Clip(p.payload))] else []
  }

  /** The packets of flow k among those with the given numbers. */
  function Among(cfg: Config, flags: seq<nat>, k: FiveTuple, ix: seq<nat>): seq<Sent>
    requires |cfg.packets| == |flags| && forall j :: 0 <= j < |ix| ==> ix[j] < |flags|
  {
    if ix == [] then []
    else
      var n := |ix| - 1;
      var p := cfg.packets[ix[n]];
      Among(cfg, flags, k, ix[..n]) + if Canonical(p.tuple) == k then [Sent(flags[ix[n]], Clip(p.payload))] else []
  }

  /** The packets of flow k in a worker's life. */
  function InLife(ops: seq<Runs.Op>, k: FiveTuple): seq<Sent>
  {
    if ops == [] then []
    else
      var n := |ops| - 1;
      InLife(ops[..n], k)
      + if ops[n].Packet? && ops[n].key == k then [Sent(ops[n].arrival.flags, ops[n].arrival.payload)] else []
  }

  function Bodies(s: seq<Sent>): seq<Word>
  {
    if s == [] then [] else Bodies(s[..|s| - 1]) + [s[|s| - 1].payload]
  }

  /** ops is the life of a worker that sees these packets: the TCP ones in turn, collections anywhere. */
  ghost predicate Lives(cfg: Config, flags: seq<nat>, views: seq<View>, ops: seq<Runs.Op>)
    decreases |views| + |ops|
  {
    || (views == [] && ops == [])
    || (ops != [] && ops[|ops| - 1].Collect? && Lives(cfg, flags, views, ops[..|ops| - 1]))
    || (views != [] && !IsTcp(cfg, views[|views| - 1]) && Lives(cfg, flags, views[..|views| - 1], ops))
    || (views != [] && ops != [] && Does(cfg, flags, views[|views| - 1], ops[|ops| - 1])
        && Lives(cfg, flags, views[..|views| - 1], ops[..|ops| - 1]))
  }

  predicate IsTcp(cfg: Config, v: View)
  {
    v.index < |cfg.packets| && cfg.packets[v.index].tuple.protocol == TCP
  }

  /** The worker tracks and inspects what it sees. */
  predicate Does(cfg: Config, flags: seq<nat>, v: View, op: Runs.Op)
  {
    && IsTcp(cfg, v) && v.index < |flags| && op.Packet?
    && op.key == Canonical(cfg.packets[v.index].tuple)
    && op.arrival.flags == flags[v.index] && op.arrival.payload == v.bytes
  }

  // ----- From the capture to the worker's life

  lemma {:induction false} LifeIsAmong(cfg: Config, flags: seq<nat>, ix: seq<nat>, ops: seq<Runs.Op>, k: FiveTuple)
    requires |cfg.packets| == |flags| && forall j :: 0 <= j < |ix| ==> ix[j] < |flags|
    requires Lives(cfg, flags, Faithful(cfg, ix), ops) && k.protocol == TCP
    ensures InLife(ops, k) == Among(cfg, flags, k, ix)
    decreases |ix| + |ops|
  {
    var views := Faithful(cfg, ix);
    if ops != [] && ops[|ops| - 1].Collect? && Lives(cfg, flags, views, ops[..|ops| - 1]) {
      LifeIsAmong(cfg, flags, ix, ops[..|ops| - 1], k);
    } else if ix != [] {
      assert views[..|views| - 1] == Faithful(cfg, ix[..|ix| - 1]);
      if !IsTcp(cfg, views[|views| - 1]) && Lives(cfg, flags, views[..|views| - 1], ops) {
        LifeIsAmong(cfg, flags, ix[..|ix| - 1], ops, k);
      } else {
        LifeIsAmong(cfg, flags, ix[..|ix| - 1], ops[..|ops| - 1], k);
      }
    }
  }

  lemma {:induction false} LivesOn(cfg: Config, flags: seq<nat>, views: seq<View>, ops: seq<Runs.Op>,
                                   v: View, op: Runs.Op)
    requires Lives(cfg, flags, views, ops) && Does(cfg, flags, v, op)
    ensures Lives(cfg, flags, views + [v], ops + [op])
  {
    assert (views + [v])[..|views|] == views && (ops + [op])[..|ops|] == ops;
  }

  lemma {:induction false} LivesPast(cfg: Config, flags: seq<nat>, views: seq<View>, ops: seq<Runs.Op>, v: View)
    requires Lives(cfg, flags, views, ops) && !IsTcp(cfg, v)
    ensures Lives(cfg, flags, views + [v], ops)
  {
    assert (views + [v])[..|views|] == views;
  }

  /** Whatever a worker sees, there is a life of it: the theorems below are about every run. */
  lemma {:induction false} LifeExists(cfg: Config, flags: seq<nat>, ix: seq<nat>, now: nat) returns (ops: seq<Runs.Op>)
    requires |cfg.packets| == |flags| && forall j :: 0 <= j < |ix| ==> ix[j] < |flags|
    ensures Lives(cfg, flags, Faithful(cfg, ix), ops)
    ensures forall j :: 0 <= j < |ops| ==> Runs.TimeOf(ops[j]) == now
  {
    ops := [];
    if ix != [] {
      var n := |ix| - 1;
      var before := LifeExists(cfg, flags, ix[..n], now);
      var v := View(ix[n], Clip(cfg.packets[ix[n]].payload));
      if IsTcp(cfg, v) {
        var op := Runs.Packet(Canonical(cfg.packets[ix[n]].tuple), Runs.Arrival(flags[ix[n]], v.bytes, now));
        LivesOn(cfg, flags, Faithful(cfg, ix[..n]), before, v, op);
        ops := before + [op];
      } else {
        LivesPast(cfg, flags, Faithful(cfg, ix[..n]), before, v);
        ops := before;
      }
    }
  }

  /** A flow's packets all go to one worker, so what is routed there holds them all. */
  lemma {:induction false} RoutedHasFlow(cfg: Config, flags: seq<nat>, k: FiveTuple, w: nat, n: nat)
    requires cfg.workers > 0 && n <= |cfg.packets| == |flags| && w == cfg.hash(k) % cfg.workers
    ensures Among(cfg, flags, k, Routed(cfg, w, n)) == Captured(cfg.packets, flags, k, n)
  {
    if n > 0 {
      RoutedHasFlow(cfg, flags, k, w, n - 1);
      var before := Routed(cfg, w, n - 1);
      assert (before + [n - 1])[..|before|] == before && before + [] == before;
    }
  }

  lemma {:induction false} AmongPrefix(cfg: Config, flags: seq<nat>, k: FiveTuple, ix: seq<nat>, m: nat)
    requires |cfg.packets| == |flags| && (forall j :: 0 <= j < |ix| ==> ix[j] < |flags|) && m <= |ix|
    ensures Among(cfg, flags, k, ix[..m]) <= Among(cfg, flags, k, ix)
  {
    if m == |ix| {
      assert ix[..m] == ix;
    } else {
      AmongPrefix(cfg, flags, k, ix[..|ix| - 1], m);
      assert ix[..|ix| - 1][..m] == ix[..m];
    }
  }

  lemma {:induction false} CapturedPrefix(packets: seq<Packet>, flags: seq<nat>, k: FiveTuple, n: nat, m: nat)
    requires n <= m <= |packets| == |flags|
    ensures Captured(packets, flags, k, n) <= Captured(packets, flags, k, m)
  {
    if n < m {
      CapturedPrefix(packets, flags, k, n, m - 1);
    }
  }

  // ----- From the worker's life to the table

  function SentOf(h: seq<Runs.Arrival>): (s: seq<Sent>)
    ensures |s| == |h|
  {
    if h == [] then [] else SentOf(h[..|h| - 1]) + [Sent(h[|h| - 1].flags, h[|h| - 1].payload)]
  }

  lemma {:induction false} BodiesOfHistory(h: seq<Runs.Arrival>)
    ensures Bodies(SentOf(h)) == Runs.Payloads(h)
  {
    if h != [] {
      BodiesOfHistory(h[..|h| - 1]);
      assert SentOf(h)[..|h| - 1] == SentOf(h[..|h| - 1]);
    }
  }

  /** The last operation, a collection, removes k's entry. */
  ghost predicate Drops(pats: seq<Word>, ops: seq<Runs.Op>, k: FiveTuple)
    requires ops != []
  {
    k in Runs.RunOps(pats, ops[..|ops| - 1]).1 && k !in Runs.RunOps(pats, ops).1
  }

  /** How many of k's packets had been handled when its entry was last removed; none if it never was. */
  ghost function DroppedAt(pats: seq<Word>, ops: seq<Runs.Op>, k: FiveTuple): nat
  {
    if ops == [] then 0
    else if Drops(pats, ops, k) then |InLife(ops, k)|
    else DroppedAt(pats, ops[..|ops| - 1], k)
  }

  /** No packet of the flow opens it from place lo up to place hi. */
  predicate NoneOpens(flow: seq<Sent>, lo: nat, hi: nat)
    requires hi <= |flow|
  {
    forall i :: lo <= i < hi ==> !Opens(flow[i])
  }

  /** h is what has come since place start of the flow, the first opening packet at or after place from. */
  ghost predicate Since(flow: seq<Sent>, h: seq<Runs.Arrival>, start: nat, from: nat)
  {
    from <= start < |flow| && Opens(flow[start]) && NoneOpens(flow, from, start) && SentOf(h) == flow[start..]
  }

  lemma SinceNext(flow: seq<Sent>, h: seq<Runs.Arrival>, start: nat, from: nat, a: Runs.Arrival)
    requires Since(flow, h, start, from)
    ensures Since(flow + [Sent(a.flags, a.payload)], h + [a], start, from)
  {
    assert (h + [a])[..|h|] == h;
  }

  lemma SinceFirst(flow: seq<Sent>, from: nat, a: Runs.Arrival)
    requires Opens(Sent(a.flags, a.payload)) && from <= |flow| && NoneOpens(flow, from, |flow|)
    ensures Since(flow + [Sent(a.flags, a.payload)], [a], |flow|, from)
  {
    assert [a][..0] == [];
    assert SentOf([a]) == [Sent(a.flags, a.payload)];
  }

  /** A tracked flow's history begins at its first opening packet at or after place from; an untracked flow has none. */
  ghost predicate HistoryOk(flow: seq<Sent>, log: map<FiveTuple, seq<Runs.Arrival>>, k: FiveTuple,
                            start: nat, from: nat)
  {
    from <= |flow| && if k in log then Since(flow, log[k], start, from) else NoneOpens(flow, from, |flow|)
  }

  lemma {:induction false} HistoryStep(t: Table, log: map<FiveTuple, seq<Runs.Arrival>>, op: Runs.Op, flow: seq<Sent>,
                                       k: FiveTuple, start: nat, from: nat) returns (start': nat)
    requires HistoryOk(flow, log, k, start, from)
    ensures var own := op.Packet? && op.key == k;
            var flow' := flow + (if own then [Sent(op.arrival.flags, op.arrival.payload)] else []);
            var log' := Runs.Record(t, log, op);
            HistoryOk(flow', log', k, start', if k in log && k !in log' then |flow'| else from)
  {
    start' := start;
    if op.Packet? && op.key == k {
      if k in log {
        SinceNext(flow, log[k], start, from, op.arrival);
      } else if Opens(Sent(op.arrival.flags, op.arrival.payload)) {
        SinceFirst(flow, from, op.arrival);
        start' := |flow|;
      }
    } else {
      assert flow + [] == flow;
    }
  }

  lemma {:induction false} HistoryIsSuffix(pats: seq<Word>, ops: seq<Runs.Op>, k: FiveTuple) returns (start: nat)
    ensures HistoryOk(InLife(ops, k), Runs.RunOps(pats, ops).1, k, start, DroppedAt(pats, ops, k))
  {
    if ops == [] {
      start := 0;
    } else {
      var n := |ops| - 1;
      var before := ops[..n];
      var start0 := HistoryIsSuffix(pats, before, k);
      var (t, log) := Runs.RunOps(pats, before);
      start := HistoryStep(t, log, ops[n], InLife(before, k), k, start0, DroppedAt(pats, before, k));
    }
  }

  /** A tracked flow's verdict is that of its packets from an opening one on. */
  lemma {:induction false} VerdictOfLife(pats: seq<Word>, ops: seq<Runs.Op>, k: FiveTuple) returns (start: nat)
    requires NonemptyPatterns(pats) && Runs.Monotone(ops) && k in Runs.RunOps(pats, ops).0.flows
    ensures var flow := InLife(ops, k);
            && DroppedAt(pats, ops, k) <= start < |flow|
            && Opens(flow[start]) && NoneOpens(flow, DroppedAt(pats, ops, k), start)
            && Judged(pats, Bodies(flow[start..]), Runs.RunOps(pats, ops).0.flows[k].verdict)
  {
    Runs.FlowVerdictInRun(pats, ops, k);
    start := HistoryIsSuffix(pats, ops, k);
    BodiesOfHistory(Runs.RunOps(pats, ops).1[k]);
  }

  /** The verdict on a flow with these payloads. */
  ghost predicate Judged(pats: seq<Word>, payloads: seq<Word>, v: Verdict)
  {
    && (v.malicious <==> Occurs(pats, [], Flatten(if |payloads| > 10 then payloads[..10] else payloads)))
    && (v.bypassed <==> |payloads| > 10 && !v.malicious)
  }

  // ----- The whole

  /** The worker that flow k is dispatched to. */
  function WorkerOf(cfg: Config, k: FiveTuple): (w: nat)
    requires cfg.workers > 0
    ensures w < cfg.workers
  {
    cfg.hash(k) % cfg.workers
  }

  /** Worker w has handled everything that was captured for it. */
  predicate CaughtUp(cfg: Config, s: State, w: nat)
    requires cfg.workers > 0 && w < |s.views|
  {
    s.views[w] == Faithful(cfg, Routed(cfg, w, |cfg.packets|))
  }

  /** What worker w does in a run. */
  ghost predicate Life(cfg: Config, flags: seq<nat>, turns: seq<Turn>, w: nat, ops: seq<Runs.Op>)
    requires ConfigOk(cfg) && w < cfg.workers
  {
    |flags| == |cfg.packets| && Lives(cfg, flags, Reach(cfg, turns).views[w], ops)
  }

  lemma {:induction false} LifeOfFlow(cfg: Config, flags: seq<nat>, turns: seq<Turn>, ops: seq<Runs.Op>, k: FiveTuple)
    requires ConfigOk(cfg) && k.protocol == TCP && Life(cfg, flags, turns, WorkerOf(cfg, k), ops)
    ensures InLife(ops, k) <= Captured(cfg.packets, flags, k, |cfg.packets|)
    ensures CaughtUp(cfg, Reach(cfg, turns), WorkerOf(cfg, k)) ==>
              InLife(ops, k) == Captured(cfg.packets, flags, k, |cfg.packets|)
  {
    var w, all := WorkerOf(cfg, k), |cfg.packets|;
    var s := Reach(cfg, turns);
    WorkersSeeWhatWasSent(cfg, turns, w);
    var ix, m := Routed(cfg, w, s.committed), |s.views[w]|;
    LifeIsAmong(cfg, flags, ix[..m], ops, k);
    AmongPrefix(cfg, flags, k, ix, m);
    RoutedHasFlow(cfg, flags, k, w, s.committed);
    CapturedPrefix(cfg.packets, flags, k, s.committed, all);
    if CaughtUp(cfg, s, w) {
      LifeIsAmong(cfg, flags, Routed(cfg, w, all), ops, k);
      RoutedHasFlow(cfg, flags, k, w, all);
    }
  }

  /**
   For every interleaving of the threads, every number of workers and every hash: if a worker's table has
   an entry for flow k, its verdict is that of k's captured packets as far as they have been handled, from
   the first opening one on that came since the entry was last dropped, or at all if it never was.
   */
  lemma {:induction false} VerdictOfCapture(cfg: Config, flags: seq<nat>, turns: seq<Turn>, pats: seq<Word>,
                                            ops: seq<Runs.Op>, k: FiveTuple) returns (start: nat, seen: nat)
    requires ConfigOk(cfg) && k.protocol == TCP && Life(cfg, flags, turns, WorkerOf(cfg, k), ops)
    requires NonemptyPatterns(pats) && Runs.Monotone(ops) && k in Runs.RunOps(pats, ops).0.flows
    ensures var flow := Captured(cfg.packets, flags, k, |cfg.packets|);
            && DroppedAt(pats, ops, k) <= start < seen == |InLife(ops, k)| <= |flow|
            && Opens(flow[start]) && NoneOpens(flow, DroppedAt(pats, ops, k), start)
            && Judged(pats, Bodies(flow[start..seen]), Runs.RunOps(pats, ops).0.flows[k].verdict)
            && (CaughtUp(cfg, Reach(cfg, turns), WorkerOf(cfg, k)) ==> seen == |flow|)
  {
    LifeOfFlow(cfg, flags, turns, ops, k);
    start := VerdictOfLife(pats, ops, k);
    seen := PrefixEnd(InLife(ops, k), Captured(cfg.packets, flags, k, |cfg.packets|), start);
  }

  lemma {:induction false} PrefixEnd(life: seq<Sent>, flow: seq<Sent>, start: nat) returns (seen: nat)
    requires life <= flow && start < |life|
    ensures seen == |life| && life[start..] == flow[start..seen]
    ensures forall i :: 0 <= i < |life| ==> life[i] == flow[i]
  {
    seen := |life|;
  }

  // ----- Two runs over one capture

  function FlagsOfSent(s: seq<Sent>): seq<nat>
  {
    if s == [] then [] else FlagsOfSent(s[..|s| - 1]) + [s[|s| - 1].flags]
  }

  function BytesOfSent(s: seq<Sent>): nat
  {
    if s == [] then 0 else BytesOfSent(s[..|s| - 1]) + |s[|s| - 1].payload|
  }

  lemma {:induction false} SentDetermines(h: seq<Runs.Arrival>)
    ensures Runs.Flags(h) == FlagsOfSent(SentOf(h)) && Runs.TotalBytes(h) == BytesOfSent(SentOf(h))
  {
    if h != [] {
      SentDetermines(h[..|h| - 1]);
      assert SentOf(h)[..|h| - 1] == SentOf(h[..|h| - 1]);
    }
  }

  /** What an entry says is determined by the packets sent: everything but the time of the last one. */
  lemma {:induction false} EntryDetermined(pats: seq<Word>, g: seq<Runs.Arrival>, e: Flow,
                                           h: seq<Runs.Arrival>, f: Flow)
    requires Runs.Explains(pats, g, e) && Runs.Explains(pats, h, f) && SentOf(g) == SentOf(h)
    ensures e.verdict == f.verdict
    ensures e.track.(lastSeen := 0) == f.track.(lastSeen := 0)
  {
    SentDetermines(g);
    SentDetermines(h);
    BodiesOfHistory(g);
    BodiesOfHistory(h);
  }

  /** A flow is tracked exactly when it has been opened since place from, and its history is then settled. */
  ghost predicate Settled(pats: seq<Word>, t: Table, log: map<FiveTuple, seq<Runs.Arrival>>, flow: seq<Sent>,
                          k: FiveTuple, start: nat, from: nat)
  {
    && from <= |flow|
    && (k in t.flows <==> !NoneOpens(flow, from, |flow|))
    && (k in t.flows ==> k in log && Runs.Explains(pats, log[k], t.flows[k]) && Since(flow, log[k], start, from))
  }

  lemma {:induction false} HistorySettles(pats: seq<Word>, t: Table, log: map<FiveTuple, seq<Runs.Arrival>>, clock: nat,
                                          flow: seq<Sent>, k: FiveTuple, start: nat, from: nat)
    requires Runs.Consistent(pats, t, log, clock) && HistoryOk(flow, log, k, start, from)
    ensures Settled(pats, t, log, flow, k, start, from)
  {
    assert k in t.flows <==> k in log;
  }

  lemma {:induction false} TrackedIff(pats: seq<Word>, ops: seq<Runs.Op>, k: FiveTuple) returns (start: nat)
    requires Runs.Monotone(ops)
    ensures Settled(pats, Runs.RunOps(pats, ops).0, Runs.RunOps(pats, ops).1, InLife(ops, k), k, start,
                    DroppedAt(pats, ops, k))
  {
    Runs.EveryRunConsistent(pats, ops);
    start := HistoryIsSuffix(pats, ops, k);
    HistorySettles(pats, Runs.RunOps(pats, ops).0, Runs.RunOps(pats, ops).1, Runs.Clock(ops),
                   InLife(ops, k), k, start, DroppedAt(pats, ops, k));
  }

  lemma {:induction false} SameLifeSameEntry(pats: seq<Word>, ops: seq<Runs.Op>, ops': seq<Runs.Op>, k: FiveTuple)
    requires Runs.Monotone(ops) && Runs.Monotone(ops') && DroppedAt(pats, ops, k) == DroppedAt(pats, ops', k)
    requires InLife(ops, k) == InLife(ops', k)
    ensures SameEntry(Runs.RunOps(pats, ops).0, Runs.RunOps(pats, ops').0, k)
    ensures DroppedAt(pats, ops, k) <= |InLife(ops, k)|
    ensures k in Runs.RunOps(pats, ops).0.flows <==>
            !NoneOpens(InLife(ops, k), DroppedAt(pats, ops, k), |InLife(ops, k)|)
  {
    var start := TrackedIff(pats, ops, k);
    var start' := TrackedIff(pats, ops', k);
    var (t, log) := Runs.RunOps(pats, ops);
    var (t', log') := Runs.RunOps(pats, ops');
    if k in t.flows {
      SinceUnique(InLife(ops, k), log[k], start, log'[k], start', DroppedAt(pats, ops, k));
      EntryDetermined(pats, log[k], t.flows[k], log'[k], t'.flows[k]);
    }
  }

  lemma {:induction false} SinceUnique(flow: seq<Sent>, g: seq<Runs.Arrival>, i: nat, h: seq<Runs.Arrival>, j: nat,
                                       from: nat)
    requires Since(flow, g, i, from) && Since(flow, h, j, from)
    ensures SentOf(g) == SentOf(h)
  {
    assert i == j;
  }

  /** Tracked in both tables or in neither, with the same verdict, state and counters. */
  ghost predicate SameEntry(t: Table, t': Table, k: FiveTuple)
  {
    && (k in t.flows <==> k in t'.flows)
    && (k in t.flows ==> t.flows[k].verdict == t'.flows[k].verdict
                         && t.flows[k].track.(lastSeen := 0) == t'.flows[k].track.(lastSeen := 0))
  }

  /**
   Two runs over one capture, with different interleavings, numbers of workers, queues, pools, hashes and
   collections: once both have caught up, and if k's entry was last dropped after the same number of its
   packets, they say the same of k, and k is tracked exactly when a packet since then opens it.
   */
  lemma {:induction false} CaptureDecides(cfg: Config, turns: seq<Turn>, ops: seq<Runs.Op>,
                                          cfg': Config, turns': seq<Turn>, ops': seq<Runs.Op>,
                                          flags: seq<nat>, pats: seq<Word>, k: FiveTuple)
    requires ConfigOk(cfg) && ConfigOk(cfg') && cfg.packets == cfg'.packets && k.protocol == TCP
    requires Life(cfg, flags, turns, WorkerOf(cfg, k), ops) && CaughtUp(cfg, Reach(cfg, turns), WorkerOf(cfg, k))
    requires Life(cfg', flags, turns', WorkerOf(cfg', k), ops')
    requires CaughtUp(cfg', Reach(cfg', turns'), WorkerOf(cfg', k))
    requires Runs.Monotone(ops) && Runs.Monotone(ops') && DroppedAt(pats, ops, k) == DroppedAt(pats, ops', k)
    ensures SameEntry(Runs.RunOps(pats, ops).0, Runs.RunOps(pats, ops').0, k)
    ensures var flow := Captured(cfg.packets, flags, k, |cfg.packets|);
            && DroppedAt(pats, ops, k) <= |flow|
            && (k in Runs.RunOps(pats, ops).0.flows <==> !NoneOpens(flow, DroppedAt(pats, ops, k), |flow|))
  {
    LifeOfFlow(cfg, flags, turns, ops, k);
    LifeOfFlow(cfg', flags, turns', ops', k);
    SameLifeSameEntry(pats, ops, ops', k);
  }

  // ----- When an entry is never dropped

  predicate Own(op: Runs.Op, k: FiveTuple)
  {
    op.Packet? && op.key == k
  }

  /** At operation n, the latest packet of k was operation j. */
  predicate Latest(ops: seq<Runs.Op>, k: FiveTuple, j: nat, n: nat)
    requires n <= |ops|
  {
    j < n && Own(ops[j], k) && forall i :: j < i < n ==> !Own(ops[i], k)
  }

  /** Whenever a collection comes, k's latest packet is at most five whole seconds old. */
  ghost predicate KeptAlive(ops: seq<Runs.Op>, k: FiveTuple)
  {
    forall n, j {:trigger Latest(ops, k, j, n)} ::
      0 <= j < n < |ops| && ops[n].Collect? && Latest(ops, k, j, n) ==>
        WholeSeconds(Runs.TimeOf(ops[j]), Runs.TimeOf(ops[n])) <= 5
  }

  /** A flow's history ends with the packet of operation j, its latest. */
  ghost predicate EndsWith(ops: seq<Runs.Op>, log: map<FiveTuple, seq<Runs.Arrival>>, k: FiveTuple, j: nat)
  {
    k in log ==> log[k] != [] && Latest(ops, k, j, |ops|) && log[k][|log[k]| - 1].now == Runs.TimeOf(ops[j])
  }

  lemma {:induction false} LatestNext(t: Table, log: map<FiveTuple, seq<Runs.Arrival>>, before: seq<Runs.Op>,
                                      op: Runs.Op, k: FiveTuple, j: nat)
    requires EndsWith(before, log, k, j)
    ensures EndsWith(before + [op], Runs.Record(t, log, op), k, if Own(op, k) then |before| else j)
  {
  }

  /** The last packet of a flow's history is its latest one. */
  lemma {:induction false} HistoryEndsAtLatest(pats: seq<Word>, ops: seq<Runs.Op>, k: FiveTuple) returns (j: nat)
    ensures EndsWith(ops, Runs.RunOps(pats, ops).1, k, j)
  {
    j := 0;
    if ops != [] {
      var n := |ops| - 1;
      var before := ops[..n];
      assert before + [ops[n]] == ops;
      j := HistoryEndsAtLatest(pats, before, k);
      LatestNext(Runs.RunOps(pats, before).0, Runs.RunOps(pats, before).1, before, ops[n], k, j);
      j := if Own(ops[n], k) then n else j;
    }
  }

  lemma {:induction false} YoungEntryStays(pats: seq<Word>, ops: seq<Runs.Op>, now: nat, k: FiveTuple)
    requires Runs.Monotone(ops) && Runs.Clock(ops) <= now
    requires k in Runs.RunOps(pats, ops).0.flows
    requires WholeSeconds(Runs.RunOps(pats, ops).0.flows[k].track.lastSeen, now) <= 5
    ensures k in Evict(Runs.RunOps(pats, ops).0, now).flows
  {
    Runs.EveryRunConsistent(pats, ops);
    EvictionBounds(Runs.RunOps(pats, ops).0, Runs.Clock(ops), now);
  }

  lemma {:induction false} CollectKeeps(pats: seq<Word>, before: seq<Runs.Op>, op: Runs.Op, k: FiveTuple)
    requires Runs.Monotone(before) && op.Collect? && Runs.Clock(before) <= op.now
    requires KeptAlive(before + [op], k)
    ensures !Drops(pats, before + [op], k)
  {
    var ops, n := before + [op], |before|;
    assert ops[..n] == before;
    var (t, log) := Runs.RunOps(pats, before);
    if k in log {
      var j := HistoryEndsAtLatest(pats, before, k);
      Runs.EveryRunConsistent(pats, before);
      assert Runs.Explains(pats, log[k], t.flows[k]);
      assert Latest(ops, k, j, n);
      YoungEntryStays(pats, before, op.now, k);
    }
  }

  /** An entry is never dropped if every collection finds a packet of the flow at most five whole seconds old. */
  lemma {:induction false} NeverDropped(pats: seq<Word>, ops: seq<Runs.Op>, k: FiveTuple)
    requires Runs.Monotone(ops) && KeptAlive(ops, k)
    ensures DroppedAt(pats, ops, k) == 0
  {
    if ops != [] {
      var n := |ops| - 1;
      var before := ops[..n];
      assert before + [ops[n]] == ops;
      forall i, j | 0 <= j < i < n && before[i].Collect? && Latest(before, k, j, i)
        ensures WholeSeconds(Runs.TimeOf(before[j]), Runs.TimeOf(before[i])) <= 5
      {
        assert Latest(ops, k, j, i);
      }
      NeverDropped(pats, before, k);
      if ops[n].Collect? {
        assert n > 0 ==> Runs.TimeOf(ops[n - 1]) <= Runs.TimeOf(ops[n]);
        CollectKeeps(pats, before, ops[n], k);
      }
    }
  }

  /** In particular, none is in a life that lasts at most five whole seconds. */
  lemma {:induction false} ShortLifeKeeps(pats: seq<Word>, ops: seq<Runs.Op>, k: FiveTuple)
    requires Runs.Monotone(ops)
    requires ops != [] ==> WholeSeconds(Runs.TimeOf(ops[0]), Runs.TimeOf(ops[|ops| - 1])) <= 5
    ensures DroppedAt(pats, ops, k) == 0
  {
    forall n, j | 0 <= j < n < |ops| && ops[n].Collect? && Latest(ops, k, j, n)
      ensures WholeSeconds(Runs.TimeOf(ops[j]), Runs.TimeOf(ops[n])) <= 5
    {
      assert j > 0 ==> Runs.TimeOf(ops[0]) <= Runs.TimeOf(ops[j]);
      assert n < |ops| - 1 ==> Runs.TimeOf(ops[n]) <= Runs.TimeOf(ops[|ops| - 1]);
    }
    NeverDropped(pats, ops, k);
  }

  /**
   The verdict as a function of the capture: two runs that have caught up, whose collections always found
   k's latest packet fresh, say the same of k, and track it exactly when some captured packet opens it.
   */
  lemma {:induction false} CaptureAloneDecides(cfg: Config, turns: seq<Turn>, ops: seq<Runs.Op>,
                                               cfg': Config, turns': seq<Turn>, ops': seq<Runs.Op>,
                                               flags: seq<nat>, pats: seq<Word>, k: FiveTuple)
    requires ConfigOk(cfg) && ConfigOk(cfg') && cfg.packets == cfg'.packets && k.protocol == TCP
    requires Life(cfg, flags, turns, WorkerOf(cfg, k), ops) && CaughtUp(cfg, Reach(cfg, turns), WorkerOf(cfg, k))
    requires Life(cfg', flags, turns', WorkerOf(cfg', k), ops')
    requires CaughtUp(cfg', Reach(cfg', turns'), WorkerOf(cfg', k))
    requires Runs.Monotone(ops) && Runs.Monotone(ops') && KeptAlive(ops, k) && KeptAlive(ops', k)
    ensures SameEntry(Runs.RunOps(pats, ops).0, Runs.RunOps(pats, ops').0, k)
    ensures var flow := Captured(cfg.packets, flags, k, |cfg.packets|);
            k in Runs.RunOps(pats, ops).0.flows <==> exists i :: 0 <= i < |flow| && Opens(flow[i])
  {
    NeverDropped(pats, ops, k);
    NeverDropped(pats, ops', k);
    CaptureDecides(cfg, turns, ops, cfg', turns', ops', flags, pats, k);
  }
}
