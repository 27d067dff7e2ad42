/** The worker's own objects: rule loading, the inspection engine, the fast path, and one packet. */
module WorkerNodes {
  import opened Bytes
  import opened SeqFacts
  import opened PatternSpec
  import opened TrieLayout
  import opened PatternMatching
  import opened FlowKey
  import opened FlowTable
  import opened FlowVerdict
  import opened WorkerRuns
  import opened ConnectionTracking

  /** The signatures that are not empty, in order. */
  function Usable(signatures: seq<Word>): (pats: seq<Word>)
    ensures NonemptyPatterns(pats)
  {
    if signatures == [] then []
    else
      var n := |signatures| - 1;
      Usable(signatures[..n]) + (if signatures[n] == [] then [] else [signatures[n]])
  }

  /** Exactly the empty signatures are left out; the others keep their number ... */
  lemma {:induction false} UsableCount(signatures: seq<Word>, u: Word)
    ensures multiset(Usable(signatures))[u] == if u == [] then 0 else multiset(signatures)[u]
  {
    if signatures != [] {
      var n := |signatures| - 1;
      UsableCount(signatures[..n], u);
      assert signatures == signatures[..n] + [signatures[n]];
    }
  }

  lemma {:induction false} UsableSnoc(a: seq<Word>, u: Word)
    ensures Usable(a + [u]) == Usable(a) + if u == [] then [] else [u]
  {
    assert (a + [u])[..|a|] == a;
  }

  /** ... and their order. */
  lemma {:induction false} UsableOrder(a: seq<Word>, b: seq<Word>)
    ensures Usable(a + b) == Usable(a) + Usable(b)
  {
    if b == [] {
      assert a + b == a;
    } else {
      var n := |b| - 1;
      UsableOrder(a, b[..n]);
      UsableSnoc(a + b[..n], b[n]);
      assert a + b == a + b[..n] + [b[n]];
      Assoc(Usable(a), Usable(b[..n]), if b[n] == [] then [] else [b[n]]);
    }
  }

  lemma {:induction false} UsableAlone(u: Word)
    ensures Usable([u]) == if u == [] then [] else [u]
  {
    assert [u][..0] == [];
  }

  class DpiEngine {
    const scanner: PatternMatcher

    ghost predicate Valid()
      reads scanner
    {
      scanner.Compiled()
    }

    /** Loads the rules, skipping empty signatures, and compiles the automaton. */
    constructor (signatures: seq<Word>)
      ensures Valid() && fresh(scanner) && scanner.patterns == Usable(signatures)
      ensures forall u :: multiset(scanner.patterns)[u] == if u == [] then 0 else multiset(signatures)[u]
    {
      var s := new PatternMatcher();
      for i := 0 to |signatures|
        invariant fresh(s) && s.Open() && s.patterns == Usable(signatures[..i])
      {
        TakeSnoc(signatures, i);
        assert signatures[..i + 1][..i] == signatures[..i];
        if signatures[i] != [] {
          s.AddPattern(signatures[i]);
        }
      }
      assert signatures[..|signatures|] == signatures;
      ghost var order, hops := s.BuildMachine();
      forall u ensures multiset(s.patterns)[u] == if u == [] then 0 else multiset(signatures)[u] {
        UsableCount(signatures, u);
      }
      scanner := s;
    }

    /** Malicious exactly when the scan, continued from acState, raises an alert. */
    method InspectPayload(payload: Word, acState: nat) returns (malicious: bool, newState: nat)
      requires Valid() && acState < |TriePaths(scanner.patterns)|
      ensures newState < |TriePaths(scanner.patterns)|
      ensures malicious <==> Alerts(scanner.patterns, TriePaths(scanner.patterns)[acState], payload) != []
      ensures newState == if payload == [] then acState
                          else NodeAfter(scanner.patterns, TriePaths(scanner.patterns)[acState] + payload)
    {
      if payload == [] {
        return false, acState;
      }
      var alerts, state;
      ghost var hops;
      alerts, state, hops := scanner.Search(payload, acState);
      return alerts != [], state;
    }
  }

  /** The fast-path decision, made on the connection object. */
  method ShouldBypass(conn: Connection) returns (bypass: bool)
    modifies conn
    ensures (conn.Snapshot().verdict, bypass) == Bypass(old(conn.Snapshot()).verdict)
    ensures conn.Snapshot().track == old(conn.Snapshot()).track
  {
    if conn.isBypassed {
      return true;
    }
    if conn.isMalicious {
      return false;
    }
    conn.packetCount := conn.packetCount + 1;
    if conn.packetCount > BYPASS_THRESHOLD {
      conn.isBypassed := true;
      return true;
    }
    return false;
  }

  lemma AfterPacketStates(pats: seq<Word>, t: Table, key: FiveTuple, flags: nat, size: nat, now: nat)
    requires StatesOk(pats, t)
    ensures StatesOk(pats, AfterPacket(t, key, flags, size, now))
  {
    TriePathsShape(pats);
  }

  class WorkerNode {
    const tracker: ConnectionTracker
    const dpiEngine: DpiEngine

    ghost function Patterns(): seq<Word>
      reads dpiEngine.scanner
    {
      dpiEngine.scanner.patterns
    }

    ghost predicate Valid()
      reads dpiEngine.scanner, tracker, tracker.Conns()
    {
      dpiEngine.Valid() && tracker.Valid() && StatesOk(Patterns(), tracker.Abs())
    }

    constructor (signatures: seq<Word>)
      ensures Valid() && fresh(tracker) && fresh(dpiEngine) && fresh(dpiEngine.scanner)
      ensures Patterns() == Usable(signatures) && tracker.Abs() == Table(map[], [])
    {
      tracker := new ConnectionTracker();
      dpiEngine := new DpiEngine(signatures);
    }

    /** Fast path, inspection and malicious mark for one packet of a tracked flow. */
    method InspectFlow(conn: Connection, payload: Word) returns (alert: bool)
      requires dpiEngine.Valid() && conn.acState < |TriePaths(Patterns())|
      modifies conn
      ensures conn.Snapshot().track == old(conn.Snapshot()).track
      ensures conn.Snapshot().verdict == VerdictStep(Patterns(), old(conn.Snapshot()).verdict, payload)
      ensures alert <==> Alerting(Patterns(), old(conn.Snapshot()).verdict, payload)
    {
      var bypass := ShouldBypass(conn);
      if bypass {
        return false;
      }
      var newState;
      alert, newState := dpiEngine.InspectPayload(payload, conn.acState);
      conn.acState := newState;
      if alert {
        conn.isMalicious := true;
      }
    }

    /** The same on the flow table: one entry's verdict moves on, nothing else changes. */
    method InspectTracked(tuple: FiveTuple, payload: Word) returns (alert: bool)
      requires Valid() && tuple in tracker.flowTable
      modifies tracker.flowTable[tuple].conn
      ensures Valid()
      ensures var t := old(tracker.Abs());
              tracker.Abs() == t.(flows := t.flows[tuple := t.flows[tuple].(verdict :=
                                    VerdictStep(Patterns(), t.flows[tuple].verdict, payload))])
              && (alert <==> Alerting(Patterns(), t.flows[tuple].verdict, payload))
    {
      ghost var flows, table := FlowsOf(tracker.flowTable), tracker.flowTable;
      var conn := tracker.flowTable[tuple].conn;
      assert flows[tuple] == conn.Snapshot();
      alert := InspectFlow(conn, payload);
      forall k | k in table && k != tuple ensures table[k].conn.Snapshot() == flows[k] {
        assert DifferentConns(table, k, tuple);
      }
      OneFlowChanged(table, flows, tuple);
    }

    method TrackPacket(tuple: FiveTuple, tcpFlags: nat, payloadSize: nat, now: nat) returns (conn: Connection?)
      requires Valid()
      modifies tracker, tracker.Conns()
      ensures Valid() && fresh(tracker.Conns() - old(tracker.Conns())) && Patterns() == old(Patterns())
      ensures tracker.Abs() == AfterPacket(old(tracker.Abs()), tuple, tcpFlags, payloadSize, now)
      ensures conn == null <==> tuple !in tracker.flowTable
    {
      AfterPacketStates(Patterns(), tracker.Abs(), tuple, tcpFlags, payloadSize, now);
      conn := tracker.ProcessTcpPacket(tuple, tcpFlags, payloadSize, now);
    }

    /** A TCP packet: tracked, then inspected with its flow, or by itself if it belongs to none. */
    method HandleTcpPacket(tuple: FiveTuple, tcpFlags: nat, payload: Word, now: nat) returns (alert: bool)
      requires Valid()
      modifies tracker, tracker.Conns()
      ensures Valid() && fresh(tracker.Conns() - old(tracker.Conns())) && Patterns() == old(Patterns())
      ensures tracker.Abs() == HandleTcp(Patterns(), old(tracker.Abs()), tuple, Arrival(tcpFlags, payload, now))
      ensures alert <==> TcpAlert(Patterns(), old(tracker.Abs()), tuple, Arrival(tcpFlags, payload, now))
      ensures tuple !in tracker.flowTable ==> (alert <==> Occurs(Patterns(), [], payload))
    {
      TriePathsShape(Patterns());
      AlertsEmptyIff(Patterns(), [], payload);
      var conn := TrackPacket(tuple, tcpFlags, |payload|, now);
      if conn != null {
        alert := InspectTracked(tuple, payload);
      } else {
        var state;
        alert, state := dpiEngine.InspectPayload(payload, 0);
      }
    }

    /** One packet popped from the queue: tracked if TCP, inspected on its own otherwise. */
    method HandlePacket(packet: FiveTuple, tcpFlags: nat, payload: Word, now: nat) returns (alert: bool)
      requires Valid()
      modifies tracker, tracker.Conns()
      ensures Valid() && fresh(tracker.Conns() - old(tracker.Conns())) && Patterns() == old(Patterns())
      ensures var t, key, a := old(tracker.Abs()), Canonical(packet), Arrival(tcpFlags, payload, now);
              if packet.protocol == 6
              then tracker.Abs() == HandleTcp(Patterns(), t, key, a) && (alert <==> TcpAlert(Patterns(), t, key, a))
              else tracker.Abs() == t && (alert <==> Occurs(Patterns(), [], payload))
    {
      var tuple := CreateBidirectionalTuple(packet.srcIp, packet.destIp, packet.srcPort, packet.destPort,
                                            packet.protocol);
      if packet.protocol == TCP {
        alert := HandleTcpPacket(tuple, tcpFlags, payload, now);
      } else {
        TriePathsShape(Patterns());
        AlertsEmptyIff(Patterns(), [], payload);
        var state;
        alert, state := dpiEngine.InspectPayload(payload, 0);
      }
    }

    /** The periodic garbage collection. */
    method CollectGarbage(now: nat)
      requires Valid()
      modifies tracker
      ensures Valid() && tracker.Conns() <= old(tracker.Conns())
      ensures tracker.Abs() == Evict(old(tracker.Abs()), now)
    {
      tracker.EvictStaleSessions(now);
    }
  }
}
