/**
 One worker's life on values: packets of tracked flows and garbage collections in any order,
 and what every entry of its table then says about the packets since the entry was created.
 */
module WorkerRuns {
  import opened Bytes
  import opened SeqFacts
  import opened Time
  import opened BitMask
  import opened PatternSpec
  import opened TrieLayout
  import opened FlowKey
  import opened FlowTable
  import opened FlowVerdict

  datatype Arrival = Arrival(flags: nat, payload: Word, now: nat)

  datatype Op = Packet(key: FiveTuple, arrival: Arrival) | Collect(now: nat)

  function TimeOf(op: Op): nat
  {
    match op
    case Packet(_, a) => a.now
    case Collect(now) => now
  }

  ghost predicate StatesOk(pats: seq<Word>, t: Table)
  {
    forall k :: k in t.flows ==> t.flows[k].verdict.acState < |TriePaths(pats)|
  }

  /** Tracking, fast path and inspection of one TCP packet. */
  ghost function HandleTcp(pats: seq<Word>, t: Table, key: FiveTuple, a: Arrival): (t': Table)
    requires StatesOk(pats, t)
    ensures StatesOk(pats, t')
  {
    TriePathsShape(pats);
    var t1 := AfterPacket(t, key, a.flags, |a.payload|, a.now);
    if key in t1.flows then
      t1.(flows := t1.flows[key := t1.flows[key].(verdict := VerdictStep(pats, t1.flows[key].verdict, a.payload))])
    else t1
  }

  /** Whether the worker raises an alert for a TCP packet; an untracked one is scanned by itself, from the root. */
  ghost predicate TcpAlert(pats: seq<Word>, t: Table, key: FiveTuple, a: Arrival)
    requires StatesOk(pats, t)
  {
    TriePathsShape(pats);
    var t1 := AfterPacket(t, key, a.flags, |a.payload|, a.now);
    if key in t1.flows then Alerting(pats, t1.flows[key].verdict, a.payload) else Alerts(pats, [], a.payload) != []
  }

  ghost function Apply(pats: seq<Word>, t: Table, op: Op): (t': Table)
    requires StatesOk(pats, t)
    ensures StatesOk(pats, t')
  {
    match op
    case Packet(key, a) => HandleTcp(pats, t, key, a)
    case Collect(now) => Evict(t, now)
  }

  // ----- The packets of each entry's lifetime

  /** Records, for each tracked flow, the packets since its entry was created. */
  ghost function Record(t: Table, log: map<FiveTuple, seq<Arrival>>, op: Op): map<FiveTuple, seq<Arrival>>
  {
    match op
    case Packet(key, a) =>
      if key in log then log[key := log[key] + [a]]
      else if Syn(a.flags) && !Ack(a.flags) then log[key := [a]]
      else log
    case Collect(now) => map k | k in log && k in Evict(t, now).flows :: log[k]
  }

  function Flags(h: seq<Arrival>): (fs: seq<nat>)
    ensures |fs| == |h|
  {
    if h == [] then [] else Flags(h[..|h| - 1]) + [h[|h| - 1].flags]
  }

  function Payloads(h: seq<Arrival>): (ps: seq<Word>)
    ensures |ps| == |h|
  {
    if h == [] then [] else Payloads(h[..|h| - 1]) + [h[|h| - 1].payload]
  }

  function TotalBytes(h: seq<Arrival>): nat
  {
    if h == [] then 0 else TotalBytes(h[..|h| - 1]) + |h[|h| - 1].payload|
  }

  /** What an entry must look like after the packets h: every field as a function of the history. */
  ghost predicate Explains(pats: seq<Word>, h: seq<Arrival>, f: Flow)
  {
    && h != []
    && f.track.state == StateAfter(Flags(h))
    && f.track.totalBytes == TotalBytes(h) % WORD
    && f.track.totalPackets == |h| % WORD
    && f.track.lastSeen == h[|h| - 1].now
    && f.verdict == VerdictAfter(pats, Payloads(h))
  }

  ghost predicate Consistent(pats: seq<Word>, t: Table, log: map<FiveTuple, seq<Arrival>>, clock: nat)
  {
    && TableOk(t, clock) && StatesOk(pats, t)
    && t.flows.Keys == log.Keys
    && forall k {:trigger Explains(pats, log[k], t.flows[k])} ::
         k in t.flows && k in log ==> Explains(pats, log[k], t.flows[k])
  }

  lemma HistorySnoc(h: seq<Arrival>, a: Arrival)
    ensures Flags(h + [a]) == Flags(h) + [a.flags]
    ensures Payloads(h + [a]) == Payloads(h) + [a.payload]
    ensures TotalBytes(h + [a]) == TotalBytes(h) + |a.payload|
  {
    assert (h + [a])[..|h|] == h;
  }

  lemma ExplainsFirst(pats: seq<Word>, a: Arrival, v: Verdict)
    requires v == VerdictStep(pats, VerdictAfter(pats, []), a.payload)
    ensures Explains(pats, [a], Flow(NewTrack(|a.payload|, a.now), v))
  {
    HistorySnoc([], a);
    assert [] + [a] == [a] && Flags([a]) == [a.flags] && Payloads([a]) == [a.payload];
  }

  lemma ExplainsNext(pats: seq<Word>, h: seq<Arrival>, f: Flow, a: Arrival)
    requires Explains(pats, h, f)
    ensures Explains(pats, h + [a],
                     Flow(Touch(f.track, a.flags, |a.payload|, a.now), VerdictStep(pats, f.verdict, a.payload)))
  {
    HistorySnoc(h, a);
    WrappedAdd(TotalBytes(h), |a.payload|);
    WrappedAdd(|h|, 1);
    assert (Flags(h) + [a.flags])[..|h|] == Flags(h);
    assert (Payloads(h) + [a.payload])[..|h|] == Payloads(h);
  }

  /** Changing only the verdict of one flow does not concern the table invariant. */
  lemma VerdictKeepsTable(t: Table, key: FiveTuple, v: Verdict, clock: nat)
    requires TableOk(t, clock) && key in t.flows
    ensures TableOk(t.(flows := t.flows[key := t.flows[key].(verdict := v)]), clock)
  {
    var t' := t.(flows := t.flows[key := t.flows[key].(verdict := v)]);
    forall i, j | 0 <= i < j < |t'.lru| ensures Placed(t', i, j) {
      assert Placed(t, i, j);
    }
  }

  /** The flow the packet belongs to, if it is tracked afterwards. */
  lemma {:induction false} OwnEntryExplained(pats: seq<Word>, t: Table, log: map<FiveTuple, seq<Arrival>>, clock: nat,
                                             key: FiveTuple, a: Arrival)
    requires Consistent(pats, t, log, clock)
    ensures var t', log' := HandleTcp(pats, t, key, a), Record(t, log, Packet(key, a));
            && (key in t'.flows <==> key in log')
            && (key in t'.flows ==> Explains(pats, log'[key], t'.flows[key]))
  {
    if key in t.flows {
      assert Explains(pats, log[key], t.flows[key]);
      ExplainsNext(pats, log[key], t.flows[key], a);
    } else if Syn(a.flags) && !Ack(a.flags) {
      ExplainsFirst(pats, a, HandleTcp(pats, t, key, a).flows[key].verdict);
    }
  }

  lemma PacketKeepsTable(pats: seq<Word>, t: Table, clock: nat, key: FiveTuple, a: Arrival)
    requires TableOk(t, clock) && StatesOk(pats, t) && clock <= a.now
    ensures TableOk(HandleTcp(pats, t, key, a), a.now)
  {
    var t1 := AfterPacket(t, key, a.flags, |a.payload|, a.now);
    TrackKeepsTable(t, key, a.flags, |a.payload|, clock, a.now);
    if key in t1.flows {
      VerdictKeepsTable(t1, key, HandleTcp(pats, t, key, a).flows[key].verdict, a.now);
    }
  }

  /** Other flows' entries and histories stay as they are. */
  lemma OthersKept(pats: seq<Word>, t: Table, log: map<FiveTuple, seq<Arrival>>, key: FiveTuple, a: Arrival,
                   k: FiveTuple)
    requires StatesOk(pats, t) && k != key
    ensures var t', log' := HandleTcp(pats, t, key, a), Record(t, log, Packet(key, a));
            && (k in t'.flows <==> k in t.flows) && (k in log' <==> k in log)
            && (k in t.flows ==> t'.flows[k] == t.flows[k]) && (k in log ==> log'[k] == log[k])
  {
  }

  lemma {:induction false} PacketConsistent(pats: seq<Word>, t: Table, log: map<FiveTuple, seq<Arrival>>, clock: nat,
                                            key: FiveTuple, a: Arrival)
    requires Consistent(pats, t, log, clock) && clock <= a.now
    ensures Consistent(pats, HandleTcp(pats, t, key, a), Record(t, log, Packet(key, a)), a.now)
  {
    var t', log' := HandleTcp(pats, t, key, a), Record(t, log, Packet(key, a));
    PacketKeepsTable(pats, t, clock, key, a);
    OwnEntryExplained(pats, t, log, clock, key, a);
    forall k ensures (k in t'.flows <==> k in log')
                     && (k in t'.flows && k in log' ==> Explains(pats, log'[k], t'.flows[k]))
    {
      if k != key {
        OthersKept(pats, t, log, key, a, k);
        assert k in t.flows && k in log ==> Explains(pats, log[k], t.flows[k]);
      }
    }
  }

  lemma CollectConsistent(pats: seq<Word>, t: Table, log: map<FiveTuple, seq<Arrival>>, clock: nat, now: nat)
    requires Consistent(pats, t, log, clock) && clock <= now
    ensures Consistent(pats, Evict(t, now), Record(t, log, Collect(now)), now)
  {
    EvictKeepsTable(t, clock, now);
    var t', log' := Evict(t, now), Record(t, log, Collect(now));
    forall k | k in t'.flows && k in log' ensures Explains(pats, log'[k], t'.flows[k]) {
      assert Explains(pats, log[k], t.flows[k]);
    }
  }

  // ----- Whole runs

  ghost function RunOps(pats: seq<Word>, ops: seq<Op>): (s: (Table, map<FiveTuple, seq<Arrival>>))
    ensures StatesOk(pats, s.0)
  {
    if ops == [] then (Table(map[], []), map[])
    else
      var (t, log) := RunOps(pats, ops[..|ops| - 1]);
      var op := ops[|ops| - 1];
      (Apply(pats, t, op), Record(t, log, op))
  }

  function Clock(ops: seq<Op>): nat
  {
    if ops == [] then 0 else TimeOf(ops[|ops| - 1])
  }

  ghost predicate Monotone(ops: seq<Op>)
  {
    forall i, j :: 0 <= i < j < |ops| ==> TimeOf(ops[i]) <= TimeOf(ops[j])
  }

  /**
   In every run with a clock that does not go back: keys and LRU order agree, the order is by
   last packet seen, and every entry's state, counters, timestamp and verdict are exactly what the
   packets since its creation determine.
   */
  lemma {:induction false} EveryRunConsistent(pats: seq<Word>, ops: seq<Op>)
    requires Monotone(ops)
    ensures Consistent(pats, RunOps(pats, ops).0, RunOps(pats, ops).1, Clock(ops))
  {
    if ops != [] {
      var n := |ops| - 1;
      var before := ops[..n];
      assert before != [] ==> TimeOf(before[n - 1]) <= TimeOf(ops[n]);
      EveryRunConsistent(pats, before);
      var (t, log) := RunOps(pats, before);
      match ops[n] {
        case Packet(key, a) => PacketConsistent(pats, t, log, Clock(before), key, a);
        case Collect(now) => CollectConsistent(pats, t, log, Clock(before), now);
      }
    }
  }

  /** The verdict on a tracked flow, read off the packets of its entry's lifetime. */
  lemma FlowVerdictInRun(pats: seq<Word>, ops: seq<Op>, k: FiveTuple)
    requires NonemptyPatterns(pats) && Monotone(ops) && k in RunOps(pats, ops).0.flows
    ensures k in RunOps(pats, ops).1
    ensures var v, ps := RunOps(pats, ops).0.flows[k].verdict, Payloads(RunOps(pats, ops).1[k]);
            var found := Occurs(pats, [], Flatten(if |ps| > 10 then ps[..10] else ps));
            && (v.malicious <==> found)
            && (v.bypassed <==> |ps| > 10 && !found)
            && v.acState == NodeAfter(pats, Scanned(pats, ps))
  {
    EveryRunConsistent(pats, ops);
    var (t, log) := RunOps(pats, ops);
    assert Explains(pats, log[k], t.flows[k]);
    VerdictMeaning(pats, Payloads(log[k]));
  }

  /**
   The alert on a TCP packet in a run. A packet of no tracked flow is scanned by itself; one of a tracked
   flow with what came before it, unless ten packets came and no pattern was in them.
   */
  lemma {:induction false} AlertInRun(pats: seq<Word>, ops: seq<Op>, key: FiveTuple, a: Arrival)
    requires NonemptyPatterns(pats) && Monotone(ops)
    ensures var (t, log) := RunOps(pats, ops);
            var ps := if key in log then Payloads(log[key]) else [];
            TcpAlert(pats, t, key, a) <==>
              && (|ps| < 10 || Occurs(pats, [], Flatten(ps[..10])))
              && Occurs(pats, Flatten(ps), a.payload)
  {
    EveryRunConsistent(pats, ops);
    var (t, log) := RunOps(pats, ops);
    if key in log {
      assert Explains(pats, log[key], t.flows[key]);
      NextAlert(pats, Payloads(log[key]), a.payload);
    } else {
      NextAlert(pats, [], a.payload);
      AlertsEmptyIff(pats, [], a.payload);
    }
  }

  /** The byte counter counts the bytes of all payloads. */
  lemma {:induction false} TotalBytesMeaning(h: seq<Arrival>)
    ensures TotalBytes(h) == |Flatten(Payloads(h))|
  {
    if h != [] {
      TotalBytesMeaning(h[..|h| - 1]);
      assert Payloads(h)[..|h| - 1] == Payloads(h[..|h| - 1]);
    }
  }

  lemma {:induction false} HistoryAt(h: seq<Arrival>, i: nat)
    requires i < |h|
    ensures Flags(h)[i] == h[i].flags && Payloads(h)[i] == h[i].payload
  {
    if i < |h| - 1 {
      HistoryAt(h[..|h| - 1], i);
    }
  }

  /** The state of every tracked flow, read off the flags of its entry's lifetime. */
  lemma StatesInRun(pats: seq<Word>, ops: seq<Op>, k: FiveTuple)
    requires Monotone(ops) && k in RunOps(pats, ops).0.flows
    ensures k in RunOps(pats, ops).1
    ensures var s, fs := RunOps(pats, ops).0.flows[k].track.state, Flags(RunOps(pats, ops).1[k]);
            && s != UNKNOWN && s != FIN_WAIT
            && (s == SYN_SENT <==> AwaitingReply(fs, 1, |fs|))
            && (s == SYN_RCVD <==> exists i :: HalfOpen(fs, i))
            && (s == ESTABLISHED <==> HandshakeDone(fs))
            && (s == CLOSED <==> exists i :: Closes(fs, i))
  {
    EveryRunConsistent(pats, ops);
    var (t, log) := RunOps(pats, ops);
    assert Explains(pats, log[k], t.flows[k]);
    StateMeaning(Flags(log[k]));
    ClosedIff(Flags(log[k]));
  }

  // ----- Stale flows can outlive a collection

  lemma {:induction false} OneMoreOp(pats: seq<Word>, ops: seq<Op>, op: Op)
    ensures RunOps(pats, ops + [op])
            == (Apply(pats, RunOps(pats, ops).0, op), Record(RunOps(pats, ops).0, RunOps(pats, ops).1, op))
  {
    assert (ops + [op])[..|ops|] == ops;
  }

  /** One more packet of a recorded flow. */
  lemma {:induction false} OneMorePacket(pats: seq<Word>, ops: seq<Op>, key: FiveTuple, a: Arrival)
    requires key in RunOps(pats, ops).1
    ensures RunOps(pats, ops + [Packet(key, a)]).1 == RunOps(pats, ops).1[key := RunOps(pats, ops).1[key] + [a]]
  {
    OneMoreOp(pats, ops, Packet(key, a));
  }

  lemma {:induction false} OpeningPacket(pats: seq<Word>, ops: seq<Op>, key: FiveTuple, a: Arrival)
    requires key !in RunOps(pats, ops).1 && Syn(a.flags) && !Ack(a.flags)
    ensures RunOps(pats, ops + [Packet(key, a)]).1 == RunOps(pats, ops).1[key := [a]]
  {
    OneMoreOp(pats, ops, Packet(key, a));
  }

  const SYN := Arrival(2, [], 0)
  const SYN_ACK := Arrival(18, [], 0)
  const ACK := Arrival(16, [], 0)
  const LATER_SYN := Arrival(2, [], TICKS_PER_SECOND)

  /** Two flows: a is established by its third packet, b is opened a second later. */
  function TwoFlows(a: FiveTuple, b: FiveTuple): seq<Op>
  {
    [] + [Packet(a, SYN)] + [Packet(a, SYN_ACK)] + [Packet(a, ACK)] + [Packet(b, LATER_SYN)]
  }

  lemma {:induction false} TwoFlowsLog(pats: seq<Word>, a: FiveTuple, b: FiveTuple)
    requires a != b
    ensures RunOps(pats, TwoFlows(a, b)).1 == map[a := [SYN] + [SYN_ACK] + [ACK], b := [LATER_SYN]]
  {
    var one := [] + [Packet(a, SYN)];
    OpeningPacket(pats, [], a, SYN);
    OneMorePacket(pats, one, a, SYN_ACK);
    OneMorePacket(pats, one + [Packet(a, SYN_ACK)], a, ACK);
    OpeningPacket(pats, one + [Packet(a, SYN_ACK)] + [Packet(a, ACK)], b, LATER_SYN);
  }

  lemma {:induction false} FlagsOfThree(x: Arrival, y: Arrival, z: Arrival)
    ensures Flags([x] + [y] + [z]) == [x.flags, y.flags, z.flags]
  {
    HistorySnoc([], x);
    HistorySnoc([x], y);
    HistorySnoc([x] + [y], z);
    assert [] + [x] == [x];
  }

  lemma {:induction false} TwoFlowsTracks(pats: seq<Word>, a: FiveTuple, b: FiveTuple)
    requires a != b
    ensures Monotone(TwoFlows(a, b))
    ensures TwoTracks(RunOps(pats, TwoFlows(a, b)).0, a, b)
  {
    var ops := TwoFlows(a, b);
    assert ops == [Packet(a, SYN), Packet(a, SYN_ACK), Packet(a, ACK), Packet(b, LATER_SYN)];
    EveryRunConsistent(pats, ops);
    TwoFlowsLog(pats, a, b);
    var (t, log) := RunOps(pats, ops);
    EstablishedTrack(pats, t.flows[a]);
    OpenedTrack(pats, t.flows[b]);
  }

  lemma {:induction false} EstablishedTrack(pats: seq<Word>, f: Flow)
    ensures Explains(pats, [SYN] + [SYN_ACK] + [ACK], f) ==> f.track.state == ESTABLISHED && f.track.lastSeen == 0
  {
    FlagsOfThree(SYN, SYN_ACK, ACK);
    ThreeStates(2, 18, 16);
  }

  lemma {:induction false} OpenedTrack(pats: seq<Word>, f: Flow)
    ensures Explains(pats, [LATER_SYN], f) ==> f.track.state == SYN_SENT && f.track.lastSeen == TICKS_PER_SECOND
  {
    HistorySnoc([], LATER_SYN);
    assert [] + [LATER_SYN] == [LATER_SYN];
  }

  ghost predicate TwoTracks(t: Table, a: FiveTuple, b: FiveTuple)
  {
    && TableOk(t, TICKS_PER_SECOND) && t.flows.Keys == {a, b}
    && t.flows[a].track.state == ESTABLISHED && t.flows[a].track.lastSeen == 0
    && t.flows[b].track.state == SYN_SENT && t.flows[b].track.lastSeen == TICKS_PER_SECOND
  }

  lemma {:induction false} NewerSurvives(t: Table, a: FiveTuple, b: FiveTuple, now: nat)
    requires a != b && TwoTracks(t, a, b) && now == 20 * TICKS_PER_SECOND
    ensures t.lru != [] && t.lru[|t.lru| - 1] == a && !StaleKey(t.flows, a, now)
    ensures StaleKey(t.flows, b, now) && b in Evict(t, now).flows
  {
    var i, j, last := IndexOf(t.lru, b), IndexOf(t.lru, a), |t.lru| - 1;
    assert j < i ==> Placed(t, j, i);
    assert j < last ==> Placed(t, j, last);
    SurvivesIff(t, TICKS_PER_SECOND, now, i);
  }

  /**
   The remark that nothing is stale once the oldest flow is not fails, because time limits differ by
   state: in this run the oldest flow, a, has time left, b is stale, and b survives the collection.
   */
  lemma {:induction false} StaleBehindLongerLimit(pats: seq<Word>, a: FiveTuple, b: FiveTuple)
    returns (before: seq<Op>, now: nat)
    requires a != b
    ensures Monotone(before + [Collect(now)])
    ensures var t := RunOps(pats, before).0;
            && t.lru != [] && t.lru[|t.lru| - 1] == a && !StaleKey(t.flows, a, now)
            && StaleKey(t.flows, b, now) && b in RunOps(pats, before + [Collect(now)]).0.flows
  {
    before, now := TwoFlows(a, b), 20 * TICKS_PER_SECOND;
    TwoFlowsTracks(pats, a, b);
    NewerSurvives(RunOps(pats, before).0, a, b, now);
    OneMoreOp(pats, before, Collect(now));
  }
}
