/**
 The flow table as the worker keeps it: connection objects reached through a hash map, and an
 LRU list whose nodes the map entries point at. Each method is proved against FlowTable.
 */
module ConnectionTracking {
  import opened SeqFacts
  import opened BitMask
  import opened Time
  import opened FlowKey
  import opened FlowTable

  class Connection {
    var state: TcpState
    var totalBytes: nat
    var totalPackets: nat
    var lastSeen: nat
    var packetCount: nat
    var isBypassed: bool
    var isMalicious: bool
    var acState: nat

    constructor (now: nat)
      ensures Snapshot() == Flow(Track(UNKNOWN, 0, 0, now), FRESH_VERDICT)
    {
      state, totalBytes, totalPackets, lastSeen := UNKNOWN, 0, 0, now;
      packetCount, isBypassed, isMalicious, acState := 0, false, false, 0;
    }

    function Snapshot(): Flow
      reads this
    {
      Flow(Track(state, totalBytes, totalPackets, lastSeen), Verdict(packetCount, isBypassed, isMalicious, acState))
    }
  }

  /** A list node; its id is what an iterator to it denotes. */
  datatype LruNode = LruNode(id: nat, tuple: FiveTuple)

  datatype TrackedFlow = TrackedFlow(conn: Connection, lruIt: nat)

  function Keys(list: seq<LruNode>): (ks: seq<FiveTuple>)
    ensures |ks| == |list| && forall i :: 0 <= i < |list| ==> ks[i] == list[i].tuple
  {
    seq(|list|, i requires 0 <= i < |list| => list[i].tuple)
  }

  /** Where the node with this id stands. */
  function Position(list: seq<LruNode>, id: nat): (p: nat)
    requires exists i :: 0 <= i < |list| && list[i].id == id
    ensures p < |list| && list[p].id == id
  {
    if list[0].id == id then 0
    else
      assert exists i :: 0 <= i < |list[1..]| && list[1..][i].id == id by {
        var i :| 0 <= i < |list| && list[i].id == id;
        assert list[1..][i - 1].id == id;
      }
      1 + Position(list[1..], id)
  }

  /** Unlinks the node an iterator points at and links it in at the front. */
  function Splice(list: seq<LruNode>, id: nat): seq<LruNode>
    requires exists i :: 0 <= i < |list| && list[i].id == id
  {
    var p := Position(list, id);
    [list[p]] + list[..p] + list[p + 1..]
  }

  ghost function ConnsOf(m: map<FiveTuple, TrackedFlow>): set<Connection>
  {
    set k | k in m :: m[k].conn
  }

  ghost function FlowsOf(m: map<FiveTuple, TrackedFlow>): map<FiveTuple, Flow>
    reads ConnsOf(m)
  {
    map k | k in m :: m[k].conn.Snapshot()
  }

  /** When only one connection object has changed, only its entry of the abstract table has. */
  lemma OneFlowChanged(m: map<FiveTuple, TrackedFlow>, before: map<FiveTuple, Flow>, tuple: FiveTuple)
    requires tuple in m && before.Keys == m.Keys
    requires forall k :: k in m && k != tuple ==> m[k].conn.Snapshot() == before[k]
    ensures FlowsOf(m) == before[tuple := m[tuple].conn.Snapshot()]
  {
  }

  lemma FlowAdded(m: map<FiveTuple, TrackedFlow>, before: map<FiveTuple, Flow>, tuple: FiveTuple, flow: TrackedFlow)
    requires tuple !in m && before.Keys == m.Keys
    requires forall k :: k in m ==> m[k].conn.Snapshot() == before[k]
    ensures FlowsOf(m[tuple := flow]) == before[tuple := flow.conn.Snapshot()]
  {
  }

  ghost predicate DifferentIds(list: seq<LruNode>, i: int, j: int)
    requires 0 <= i < j < |list|
  {
    list[i].id != list[j].id
  }

  ghost predicate DifferentConns(m: map<FiveTuple, TrackedFlow>, j: FiveTuple, k: FiveTuple)
    requires j in m && k in m
  {
    m[j].conn != m[k].conn
  }

  /** Map and list agree, iterators point at their own keys, and no two keys share an object. */
  ghost predicate Wired(m: map<FiveTuple, TrackedFlow>, list: seq<LruNode>, nextId: nat)
  {
    && (forall i {:trigger list[i]} :: 0 <= i < |list| ==>
          list[i].id < nextId && list[i].tuple in m && m[list[i].tuple].lruIt == list[i].id)
    && (forall i, j {:trigger DifferentIds(list, i, j)} :: 0 <= i < j < |list| ==> DifferentIds(list, i, j))
    && (forall k {:trigger k in m} :: k in m ==> k in Keys(list))
    && (forall j, k {:trigger DifferentConns(m, j, k)} :: j in m && k in m && j != k ==> DifferentConns(m, j, k))
  }

  lemma KeysDistinct(m: map<FiveTuple, TrackedFlow>, list: seq<LruNode>, nextId: nat)
    requires Wired(m, list, nextId)
    ensures Distinct(Keys(list))
  {
    forall i, j | 0 <= i < j < |list| ensures Keys(list)[i] != Keys(list)[j] {
      assert DifferentIds(list, i, j);
    }
  }

  lemma EntryPlace(m: map<FiveTuple, TrackedFlow>, list: seq<LruNode>, nextId: nat, tuple: FiveTuple)
    requires Wired(m, list, nextId) && tuple in m
    ensures exists i :: 0 <= i < |list| && list[i].id == m[tuple].lruIt
    ensures IndexOf(Keys(list), tuple) == Position(list, m[tuple].lruIt)
  {
    var i := IndexOf(Keys(list), tuple);
    assert list[i].tuple == tuple;
    var p := Position(list, m[tuple].lruIt);
    assert i < p ==> DifferentIds(list, i, p);
    assert p < i ==> DifferentIds(list, p, i);
  }

  /** Splicing a flow's node to the front moves its key there and breaks no link. */
  lemma SpliceKeys(m: map<FiveTuple, TrackedFlow>, list: seq<LruNode>, nextId: nat, tuple: FiveTuple)
    requires Wired(m, list, nextId) && tuple in m
    ensures exists i :: 0 <= i < |list| && list[i].id == m[tuple].lruIt
    ensures Keys(Splice(list, m[tuple].lruIt)) == [tuple] + Without(Keys(list), tuple)
    ensures list[0].id == m[tuple].lruIt ==> Splice(list, m[tuple].lruIt) == list
  {
    EntryPlace(m, list, nextId, tuple);
  }

  lemma SpliceAt(list: seq<LruNode>, id: nat, i: nat)
    requires (exists k :: 0 <= k < |list| && list[k].id == id) && i < |list|
    ensures |Splice(list, id)| == |list|
    ensures var p := Position(list, id);
            Splice(list, id)[i] == list[if i == 0 then p else if i <= p then i - 1 else i]
  {
  }

  lemma SpliceLinks(m: map<FiveTuple, TrackedFlow>, list: seq<LruNode>, nextId: nat, id: nat)
    requires Wired(m, list, nextId) && exists k :: 0 <= k < |list| && list[k].id == id
    ensures var list' := Splice(list, id);
            && (forall i :: 0 <= i < |list'| ==>
                  list'[i].id < nextId && list'[i].tuple in m && m[list'[i].tuple].lruIt == list'[i].id)
            && (forall i, j {:trigger DifferentIds(list', i, j)} :: 0 <= i < j < |list'| ==> DifferentIds(list', i, j))
  {
    var list' := Splice(list, id);
    forall i | 0 <= i < |list'|
      ensures list'[i].id < nextId && list'[i].tuple in m && m[list'[i].tuple].lruIt == list'[i].id
    {
      SpliceAt(list, id, i);
    }
    var p := Position(list, id);
    forall i, j | 0 <= i < j < |list'| ensures DifferentIds(list', i, j) {
      SpliceAt(list, id, i);
      SpliceAt(list, id, j);
      var a := if i == 0 then p else if i <= p then i - 1 else i;
      var b := if j <= p then j - 1 else j;
      assert if a < b then DifferentIds(list, a, b) else DifferentIds(list, b, a);
    }
  }

  lemma SpliceWired(m: map<FiveTuple, TrackedFlow>, list: seq<LruNode>, nextId: nat, tuple: FiveTuple)
    requires Wired(m, list, nextId) && tuple in m
    ensures exists i :: 0 <= i < |list| && list[i].id == m[tuple].lruIt
    ensures Wired(m, Splice(list, m[tuple].lruIt), nextId)
  {
    SpliceKeys(m, list, nextId, tuple);
    SpliceLinks(m, list, nextId, m[tuple].lruIt);
    forall k | k in m ensures k in Keys(Splice(list, m[tuple].lruIt)) {
      SameMembers(Keys(list), tuple, k);
    }
  }

  /** The flow's node goes to the front unless it is there already. */
  lemma {:induction false} FrontMost(m: map<FiveTuple, TrackedFlow>, list: seq<LruNode>, nextId: nat, tuple: FiveTuple)
    returns (front: seq<LruNode>)
    requires Wired(m, list, nextId) && tuple in m
    ensures list != [] && tuple in Keys(list) && exists i :: 0 <= i < |list| && list[i].id == m[tuple].lruIt
    ensures front == Splice(list, m[tuple].lruIt) && (m[tuple].lruIt == list[0].id ==> front == list)
    ensures Wired(m, front, nextId) && Keys(front) == [tuple] + Without(Keys(list), tuple)
  {
    SpliceKeys(m, list, nextId, tuple);
    SpliceWired(m, list, nextId, tuple);
    front := Splice(list, m[tuple].lruIt);
  }

  lemma AddConn(m: map<FiveTuple, TrackedFlow>, tuple: FiveTuple, flow: TrackedFlow)
    requires tuple !in m
    ensures ConnsOf(m[tuple := flow]) == ConnsOf(m) + {flow.conn}
  {
    var m' := m[tuple := flow];
    assert m'[tuple].conn in ConnsOf(m');
    forall k | k in m ensures m[k].conn in ConnsOf(m') {
      assert m'[k] == m[k];
    }
  }

  lemma FrontWired(m: map<FiveTuple, TrackedFlow>, list: seq<LruNode>, nextId: nat, tuple: FiveTuple, flow: TrackedFlow)
    requires Wired(m, list, nextId) && tuple !in m && flow.lruIt == nextId && flow.conn !in ConnsOf(m)
    ensures Wired(m[tuple := flow], [LruNode(nextId, tuple)] + list, nextId + 1)
    ensures Keys([LruNode(nextId, tuple)] + list) == [tuple] + Keys(list)
  {
    var list' := [LruNode(nextId, tuple)] + list;
    assert Keys(list') == [tuple] + Keys(list);
    forall i, j | 0 <= i < j < |list'| ensures DifferentIds(list', i, j) {
      assert list'[j] == list[j - 1];
      if i > 0 {
        assert DifferentIds(list, i - 1, j - 1);
      }
    }
    var m' := m[tuple := flow];
    forall j, k | j in m' && k in m' && j != k ensures DifferentConns(m', j, k) {
      if j in m && k in m {
        assert DifferentConns(m, j, k);
      }
      assert j in m ==> m[j].conn in ConnsOf(m);
      assert k in m ==> m[k].conn in ConnsOf(m);
    }
  }

  /** The entries of the flows in list. */
  ghost function Left(m: map<FiveTuple, TrackedFlow>, list: seq<LruNode>): map<FiveTuple, TrackedFlow>
  {
    map k | k in m && k in Keys(list) :: m[k]
  }

  /** What eviction leaves, wherever it stops, is wired. */
  lemma {:induction false} LeftWired(m: map<FiveTuple, TrackedFlow>, list: seq<LruNode>, nextId: nat, n: nat)
    requires Wired(m, list, nextId) && n <= |list|
    ensures Wired(Left(m, list[..n]), list[..n], nextId) && ConnsOf(Left(m, list[..n])) <= ConnsOf(m)
  {
    var m', list' := Left(m, list[..n]), list[..n];
    forall i | 0 <= i < n ensures list'[i].tuple in m' {
      assert list'[i] == list[i] && Keys(list')[i] in Keys(list');
    }
    forall i, j | 0 <= i < j < n ensures DifferentIds(list', i, j) {
      assert DifferentIds(list, i, j);
    }
    forall j, k | j in m' && k in m' && j != k ensures DifferentConns(m', j, k) {
      assert DifferentConns(m, j, k);
    }
  }

  /** The flow at the back of what is left: if it is stale it goes, and the question is the same for the rest. */
  ghost predicate BackGoes(flows: map<FiveTuple, Flow>, m: map<FiveTuple, TrackedFlow>, list: seq<LruNode>, now: nat)
    requires list != [] && flows.Keys == m.Keys
  {
    var last, rest := list[|list| - 1].tuple, list[..|list| - 1];
    && last in m && last in Left(m, list)
    && Kept(flows, Keys(list), now) == (if Stale(flows[last].track, now) then Kept(flows, Keys(rest), now) else |list|)
    && Left(m, list) - {last} == Left(m, rest)
  }

  /** Eviction can go down the whole list this way. */
  ghost predicate Sweepable(flows: map<FiveTuple, Flow>, m: map<FiveTuple, TrackedFlow>, list0: seq<LruNode>, now: nat)
    requires flows.Keys == m.Keys
  {
    && m == Left(m, list0)
    && forall list {:trigger BackGoes(flows, m, list, now)} :: [] != list <= list0 ==> BackGoes(flows, m, list, now)
  }

  lemma {:induction false} AllSweepable(flows: map<FiveTuple, Flow>, m: map<FiveTuple, TrackedFlow>,
                                        list0: seq<LruNode>, nextId: nat, now: nat)
    requires Wired(m, list0, nextId) && flows.Keys == m.Keys
    ensures Sweepable(flows, m, list0, now)
  {
    KeysDistinct(m, list0, nextId);
    forall list | [] != list <= list0 ensures BackGoes(flows, m, list, now) {
      assert list[|list| - 1] == list0[|list| - 1];
      assert Keys(list) == Keys(list0)[..|list|];
      BackOfList(flows, m, list, now);
    }
  }

  lemma {:induction false} BackOfList(flows: map<FiveTuple, Flow>, m: map<FiveTuple, TrackedFlow>,
                                      list: seq<LruNode>, now: nat)
    requires list != [] && Distinct(Keys(list)) && list[|list| - 1].tuple in m && flows.Keys == m.Keys
    ensures BackGoes(flows, m, list, now)
  {
    var n := |list| - 1;
    var ks := Keys(list);
    assert Keys(list[..n]) == ks[..n];
    TakeSnoc(ks, n);
    assert ks[..n + 1] == ks;
    assert Left(m, list) - {ks[n]} == Left(m, list[..n]);
  }

  lemma {:induction false} EvictedTable(flows: map<FiveTuple, Flow>, m: map<FiveTuple, TrackedFlow>, list: seq<LruNode>,
                                        now: nat)
    requires flows.Keys == m.Keys
    requires forall k :: k in m ==> m[k].conn.Snapshot() == flows[k]
    ensures var rest := list[..Kept(flows, Keys(list), now)];
            Table(FlowsOf(Left(m, rest)), Keys(rest)) == Evict(Table(flows, Keys(list)), now)
  {
    var rest := list[..Kept(flows, Keys(list), now)];
    assert Keys(rest) == Keys(list)[..|rest|];
    assert FlowsOf(Left(m, rest)) == Evict(Table(flows, Keys(list)), now).flows;
  }

  lemma {:induction false} TouchedTable(t: Table, tuple: FiveTuple, flags: nat, size: nat, now: nat)
    requires tuple in t.flows
    ensures tuple in t.lru ==>
              AfterPacket(t, tuple, flags, size, now)
              == t.(flows := t.flows[tuple := t.flows[tuple].(track := Touch(t.flows[tuple].track, flags, size, now))],
                    lru := [tuple] + Without(t.lru, tuple))
  {
  }

  class ConnectionTracker {
    var flowTable: map<FiveTuple, TrackedFlow>
    var lruList: seq<LruNode>
    var nextId: nat

    ghost function Conns(): set<Connection>
      reads this`flowTable
    {
      ConnsOf(flowTable)
    }

    ghost predicate Valid()
      reads this
    {
      Wired(flowTable, lruList, nextId)
    }

    ghost function Flows(): map<FiveTuple, Flow>
      reads this`flowTable, Conns()
    {
      FlowsOf(flowTable)
    }

    ghost function Abs(): Table
      reads this, Conns()
    {
      Table(Flows(), Keys(lruList))
    }

    constructor ()
      ensures Valid() && Conns() == {} && Abs() == Table(map[], [])
    {
      flowTable, lruList, nextId := map[], [], 0;
    }

    method ProcessTcpPacket(tuple: FiveTuple, tcpFlags: nat, payloadSize: nat, now: nat) returns (conn: Connection?)
      requires Valid()
      modifies this, Conns()
      ensures Valid() && fresh(Conns() - old(Conns()))
      ensures Abs() == AfterPacket(old(Abs()), tuple, tcpFlags, payloadSize, now)
      ensures conn == if tuple in flowTable then flowTable[tuple].conn else null
    {
      var isSyn, isAck := Syn(tcpFlags), Ack(tcpFlags);
      if tuple !in flowTable {
        if isSyn && !isAck {
          conn := CreateFlow(tuple, payloadSize, now);
        } else {
          conn := null;
        }
      } else {
        conn := flowTable[tuple].conn;
        TouchFlow(tuple, tcpFlags, payloadSize, now);
      }
    }

    method CreateFlow(tuple: FiveTuple, payloadSize: nat, now: nat) returns (conn: Connection)
      requires Valid() && tuple !in flowTable
      modifies this
      ensures Valid() && fresh(conn) && Conns() == old(Conns()) + {conn}
      ensures tuple in flowTable && flowTable[tuple].conn == conn
      ensures Abs() == Table(old(Abs()).flows[tuple := Flow(NewTrack(payloadSize, now), FRESH_VERDICT)],
                             [tuple] + old(Abs()).lru)
    {
      ghost var table, flows := flowTable, FlowsOf(flowTable);
      conn := NewConnection(payloadSize, now);
      var flow := TrackedFlow(conn, nextId);
      AddConn(flowTable, tuple, flow);
      FrontWired(flowTable, lruList, nextId, tuple, flow);
      lruList := [LruNode(nextId, tuple)] + lruList;
      flowTable := flowTable[tuple := flow];
      nextId := nextId + 1;
      FlowAdded(table, flows, tuple, flow);
    }

    method TouchFlow(tuple: FiveTuple, tcpFlags: nat, payloadSize: nat, now: nat)
      requires Valid() && tuple in flowTable
      modifies this`lruList, flowTable[tuple].conn
      ensures Valid()
      ensures Abs() == AfterPacket(old(Abs()), tuple, tcpFlags, payloadSize, now)
    {
      ghost var before := Abs();
      TouchedTable(before, tuple, tcpFlags, payloadSize, now);
      UpdateFlow(tuple, tcpFlags, payloadSize, now);
      MoveToFront(tuple);
    }

    /** Updates the flow's own object; every other entry stays as it is. */
    method UpdateFlow(tuple: FiveTuple, tcpFlags: nat, payloadSize: nat, now: nat)
      requires Valid() && tuple in flowTable
      modifies flowTable[tuple].conn
      ensures Valid()
      ensures tuple in old(Flows())
      ensures var flows := old(Flows());
              Flows() == flows[tuple := flows[tuple].(track := Touch(flows[tuple].track, tcpFlags, payloadSize, now))]
    {
      ghost var flows, table := FlowsOf(flowTable), flowTable;
      UpdateConnection(flowTable[tuple].conn, tcpFlags, payloadSize, now);
      forall k | k in table && k != tuple ensures table[k].conn.Snapshot() == flows[k] {
        assert DifferentConns(table, k, tuple);
      }
      OneFlowChanged(table, flows, tuple);
    }

    /** Makes the flow the most recently used. */
    method MoveToFront(tuple: FiveTuple)
      requires Valid() && tuple in flowTable
      modifies this`lruList
      ensures Valid() && tuple in old(Keys(lruList))
      ensures Flows() == old(Flows()) && Keys(lruList) == [tuple] + Without(old(Keys(lruList)), tuple)
    {
      var lruIt := flowTable[tuple].lruIt;
      ghost var front := FrontMost(flowTable, lruList, nextId, tuple);
      if lruIt != lruList[0].id {
        lruList := Splice(lruList, lruIt);
      }
      assert lruList == front;
    }

    /** Removes stale flows from the back of the LRU list until one is not stale. */
    method EvictStaleSessions(now: nat)
      requires Valid()
      modifies this`flowTable, this`lruList
      ensures Valid() && Conns() <= old(Conns())
      ensures Abs() == Evict(old(Abs()), now)
    {
      ghost var flows, list0, table0 := FlowsOf(flowTable), lruList, flowTable;
      AllSweepable(flows, flowTable, lruList, nextId, now);
      DropStale(flows, now);
      assert lruList == list0[..|lruList|];
      LeftWired(table0, list0, nextId, |lruList|);
      EvictedTable(flows, table0, list0, now);
    }

    /** The garbage collector's loop. */
    method DropStale(ghost flows: map<FiveTuple, Flow>, now: nat)
      requires flows == FlowsOf(flowTable) && Sweepable(flows, flowTable, lruList, now)
      modifies this`flowTable, this`lruList
      ensures |lruList| == Kept(flows, Keys(old(lruList)), now) && lruList <= old(lruList)
      ensures flowTable == Left(old(flowTable), lruList)
    {
      ghost var list0, table0 := lruList, flowTable;
      while |lruList| > 0
        invariant lruList <= list0 && flowTable == Left(table0, lruList)
        invariant Kept(flows, Keys(lruList), now) == Kept(flows, Keys(list0), now)
        decreases |lruList|
      {
        var oldestTuple := lruList[|lruList| - 1].tuple;
        assert BackGoes(flows, table0, lruList, now);
        if oldestTuple !in flowTable {
          assert false;  // a list node without a map entry does not occur
        }
        var conn := flowTable[oldestTuple].conn;
        assert conn.Snapshot() == flows[oldestTuple];
        var shouldEvict := ShouldEvict(conn, now);
        if !shouldEvict {
          return;
        }
        flowTable, lruList := flowTable - {oldestTuple}, lruList[..|lruList| - 1];
      }
    }
  }

  /** The eviction rules, one per state, and the catch-all. */
  method ShouldEvict(conn: Connection, now: nat) returns (shouldEvict: bool)
    ensures shouldEvict == Stale(conn.Snapshot().track, now)
    ensures shouldEvict <==> conn.lastSeen <= now && (now - conn.lastSeen) / 1_000_000_000 >
                               match conn.state
                               case CLOSED => 5
                               case SYN_SENT => 10
                               case SYN_RCVD => 10
                               case _ => 300
  {
    var durationSeconds := WholeSeconds(conn.lastSeen, now);
    shouldEvict := false;
    if conn.state == CLOSED && durationSeconds > 5 {
      shouldEvict := true;
    } else if conn.state == SYN_SENT && durationSeconds > 10 {
      shouldEvict := true;
    } else if conn.state == SYN_RCVD && durationSeconds > 10 {
      shouldEvict := true;
    } else if conn.state == ESTABLISHED && durationSeconds > 300 {
      shouldEvict := true;
    } else if durationSeconds > 300 {
      shouldEvict := true;
    }
  }

  /** The object for a flow whose first SYN has just been seen. */
  method NewConnection(payloadSize: nat, now: nat) returns (conn: Connection)
    ensures fresh(conn) && conn.Snapshot() == Flow(NewTrack(payloadSize, now), FRESH_VERDICT)
  {
    conn := new Connection(now);
    conn.state := SYN_SENT;
    conn.totalBytes := payloadSize % WORD;
    conn.totalPackets := 1;
    conn.lastSeen := now;
  }

  /** Counters, timestamp and TCP state of an existing flow. */
  method UpdateConnection(conn: Connection, tcpFlags: nat, payloadSize: nat, now: nat)
    modifies conn
    ensures var before := old(conn.Snapshot());
            conn.Snapshot() == before.(track := Touch(before.track, tcpFlags, payloadSize, now))
  {
    var isSyn, isAck, isFin, isRst := Syn(tcpFlags), Ack(tcpFlags), Fin(tcpFlags), Rst(tcpFlags);
    conn.totalBytes := (conn.totalBytes + payloadSize) % WORD;
    conn.totalPackets := (conn.totalPackets + 1) % WORD;
    conn.lastSeen := now;
    if conn.state == SYN_SENT && isSyn && isAck {
      conn.state := SYN_RCVD;
    } else if conn.state == SYN_RCVD && isAck {
      conn.state := ESTABLISHED;
    } else if isFin || isRst {
      conn.state := CLOSED;
    }
  }
}
