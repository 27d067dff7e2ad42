/**
 The flow table on values: what one packet and one garbage collection do to it, the TCP state
 machine, and what holds over whole runs with a clock that does not go back.
 */
module FlowTable {
  import opened FlowKey
  import opened SeqFacts
  import opened BitMask
  import opened Time

  datatype TcpState = UNKNOWN | SYN_SENT | SYN_RCVD | ESTABLISHED | FIN_WAIT | CLOSED

  /** The tracker's part of a connection. */
  datatype Track = Track(state: TcpState, totalBytes: nat, totalPackets: nat, lastSeen: nat)

  /** The inspection part of a connection. */
  datatype Verdict = Verdict(packetCount: nat, bypassed: bool, malicious: bool, acState: nat)

  datatype Flow = Flow(track: Track, verdict: Verdict)

  /** Keys in lru run from the most to the least recently used. */
  datatype Table = Table(flows: map<FiveTuple, Flow>, lru: seq<FiveTuple>)

  const FRESH_VERDICT := Verdict(0, false, false, 0)

  // ----- TCP flags and states

  predicate Fin(flags: nat) { flags % 2 == 1 }
  predicate Syn(flags: nat) { flags / 2 % 2 == 1 }
  predicate Rst(flags: nat) { flags / 4 % 2 == 1 }
  predicate Ack(flags: nat) { flags / 16 % 2 == 1 }

  function NextState(s: TcpState, flags: nat): TcpState
  {
    if s == SYN_SENT && Syn(flags) && Ack(flags) then SYN_RCVD
    else if s == SYN_RCVD && Ack(flags) then ESTABLISHED
    else if Fin(flags) || Rst(flags) then CLOSED
    else s
  }

  // ----- One packet

  /** The order with one key taken out. */
  function Without(lru: seq<FiveTuple>, key: FiveTuple): seq<FiveTuple>
    requires key in lru
  {
    var i := IndexOf(lru, key);
    lru[..i] + lru[i + 1..]
  }

  function NewTrack(size: nat, now: nat): Track
  {
    Track(SYN_SENT, size % WORD, 1, now)
  }

  function Touch(t: Track, flags: nat, size: nat, now: nat): Track
  {
    Track(NextState(t.state, flags), (t.totalBytes + size) % WORD, (t.totalPackets + 1) % WORD, now)
  }

  function AfterPacket(t: Table, key: FiveTuple, flags: nat, size: nat, now: nat): Table
  {
    if key in t.flows then
      Table(t.flows[key := t.flows[key].(track := Touch(t.flows[key].track, flags, size, now))],
            [key] + if key in t.lru then Without(t.lru, key) else t.lru)
    else if Syn(flags) && !Ack(flags) then
      Table(t.flows[key := Flow(NewTrack(size, now), FRESH_VERDICT)], [key] + t.lru)
    else t
  }

  // ----- Garbage collection

  function IdleSeconds(t: Track, now: nat): nat
  {
    WholeSeconds(t.lastSeen, now)
  }

  /** The seconds of idleness a state allows. */
  function Limit(s: TcpState): (seconds: nat)
    ensures 5 <= seconds <= 300
  {
    match s
    case CLOSED => 5
    case SYN_SENT => 10
    case SYN_RCVD => 10
    case _ => 300
  }

  predicate Stale(t: Track, now: nat)
  {
    IdleSeconds(t, now) > Limit(t.state)
  }

  ghost predicate StaleKey(flows: map<FiveTuple, Flow>, key: FiveTuple, now: nat)
  {
    key in flows && Stale(flows[key].track, now)
  }

  /** How much of the LRU order survives: everything up to the last flow that is not stale. */
  ghost function Kept(flows: map<FiveTuple, Flow>, lru: seq<FiveTuple>, now: nat): (n: nat)
    ensures n <= |lru|
  {
    if lru == [] then 0
    else if StaleKey(flows, lru[|lru| - 1], now) then Kept(flows, lru[..|lru| - 1], now)
    else |lru|
  }

  ghost function Evict(t: Table, now: nat): Table
  {
    var lru' := t.lru[..Kept(t.flows, t.lru, now)];
    Table(map k | k in t.flows && k in lru' :: t.flows[k], lru')
  }

  // ----- The table invariant

  /** Two places of the LRU order: different keys, the earlier seen no earlier. */
  ghost predicate Placed(t: Table, i: int, j: int)
    requires 0 <= i < j < |t.lru|
  {
    && t.lru[i] != t.lru[j] && t.lru[i] in t.flows && t.lru[j] in t.flows
    && t.flows[t.lru[j]].track.lastSeen <= t.flows[t.lru[i]].track.lastSeen
  }

  /** Keys and LRU order agree, newest first, and no timestamp lies in the future. */
  ghost predicate TableOk(t: Table, clock: nat)
  {
    && (forall k {:trigger k in t.flows} :: k in t.flows ==> k in t.lru && t.flows[k].track.lastSeen <= clock)
    && (forall i {:trigger t.lru[i]} :: 0 <= i < |t.lru| ==> t.lru[i] in t.flows)
    && (forall i, j {:trigger Placed(t, i, j)} :: 0 <= i < j < |t.lru| ==> Placed(t, i, j))
  }

  lemma SameMembers(lru: seq<FiveTuple>, key: FiveTuple, k: FiveTuple)
    requires key in lru
    ensures k in [key] + Without(lru, key) <==> k in lru
  {
    var p := IndexOf(lru, key);
    assert lru == lru[..p] + [key] + lru[p + 1..];
  }

  /** Moving a key to the front: what stands where afterwards. */
  lemma ToFront(lru: seq<FiveTuple>, key: FiveTuple)
    requires key in lru && Distinct(lru)
    ensures var n := [key] + Without(lru, key);
            && |n| == |lru| && n[0] == key
            && forall i :: 1 <= i < |n| ==> n[i] == lru[if i <= IndexOf(lru, key) then i - 1 else i] && n[i] != key
    ensures forall k :: k in [key] + Without(lru, key) <==> k in lru
  {
    forall k ensures k in [key] + Without(lru, key) <==> k in lru {
      SameMembers(lru, key, k);
    }
  }

  lemma TableDistinct(t: Table, clock: nat)
    requires TableOk(t, clock)
    ensures Distinct(t.lru)
  {
    forall i, j | 0 <= i < j < |t.lru| ensures t.lru[i] != t.lru[j] {
      assert Placed(t, i, j);
    }
  }

  lemma TouchPlaced(t: Table, key: FiveTuple, flags: nat, size: nat, clock: nat, now: nat, i: nat, j: nat)
    requires TableOk(t, clock) && clock <= now && key in t.flows
    requires i < j < |t.lru| == |AfterPacket(t, key, flags, size, now).lru|
    ensures Placed(AfterPacket(t, key, flags, size, now), i, j)
  {
    TableDistinct(t, clock);
    ToFront(t.lru, key);
    var p := IndexOf(t.lru, key);
    var b := if j <= p then j - 1 else j;
    if i > 0 {
      assert Placed(t, if i <= p then i - 1 else i, b);
    }
  }

  lemma TouchKeepsTable(t: Table, key: FiveTuple, flags: nat, size: nat, clock: nat, now: nat)
    requires TableOk(t, clock) && clock <= now && key in t.flows
    ensures TableOk(AfterPacket(t, key, flags, size, now), now)
  {
    TableDistinct(t, clock);
    ToFront(t.lru, key);
    var t' := AfterPacket(t, key, flags, size, now);
    forall i, j | 0 <= i < j < |t'.lru| ensures Placed(t', i, j) {
      TouchPlaced(t, key, flags, size, clock, now, i, j);
    }
  }

  lemma TrackKeepsTable(t: Table, key: FiveTuple, flags: nat, size: nat, clock: nat, now: nat)
    requires TableOk(t, clock) && clock <= now
    ensures TableOk(AfterPacket(t, key, flags, size, now), now)
  {
    if key in t.flows {
      TouchKeepsTable(t, key, flags, size, clock, now);
    } else {
      var t' := AfterPacket(t, key, flags, size, now);
      if t' != t {
        assert t'.lru == [key] + t.lru;
        forall i, j | 0 <= i < j < |t'.lru| ensures Placed(t', i, j) {
          assert t'.lru[j] == t.lru[j - 1];
          if i > 0 {
            assert Placed(t, i - 1, j - 1);
          }
        }
      }
    }
  }

  lemma {:induction false} KeptProperties(flows: map<FiveTuple, Flow>, lru: seq<FiveTuple>, now: nat)
    ensures forall i :: Kept(flows, lru, now) <= i < |lru| ==> StaleKey(flows, lru[i], now)
    ensures Kept(flows, lru, now) > 0 ==> !StaleKey(flows, lru[Kept(flows, lru, now) - 1], now)
  {
    if lru != [] && StaleKey(flows, lru[|lru| - 1], now) {
      KeptProperties(flows, lru[..|lru| - 1], now);
    }
  }

  lemma EvictKeepsTable(t: Table, clock: nat, now: nat)
    requires TableOk(t, clock) && clock <= now
    ensures TableOk(Evict(t, now), now)
  {
    var t' := Evict(t, now);
    forall i, j | 0 <= i < j < |t'.lru| ensures Placed(t', i, j) {
      assert Placed(t, i, j);
    }
  }

  /**
   Eviction removes exactly the longest stale suffix of the LRU order: everything removed is
   stale, and the first flow kept is not. The flows kept are unchanged.
   */
  lemma EvictsLongestStaleSuffix(t: Table, clock: nat, now: nat)
    requires TableOk(t, clock) && clock <= now
    ensures var n := |Evict(t, now).lru|;
            && n <= |t.lru| && Evict(t, now).lru == t.lru[..n]
            && (forall i :: n <= i < |t.lru| ==> StaleKey(t.flows, t.lru[i], now) && t.lru[i] !in Evict(t, now).flows)
            && (n > 0 ==> t.lru[n - 1] in t.flows && !Stale(t.flows[t.lru[n - 1]].track, now))
            && (forall i :: 0 <= i < n ==>
                  t.lru[i] in t.flows && t.lru[i] in Evict(t, now).flows
                  && Evict(t, now).flows[t.lru[i]] == t.flows[t.lru[i]])
  {
    KeptProperties(t.flows, t.lru, now);
    var t' := Evict(t, now);
    var n := |t'.lru|;
    forall i | n <= i < |t.lru| ensures t.lru[i] !in t'.flows {
      forall j | 0 <= j < n ensures t'.lru[j] != t.lru[i] {
        assert Placed(t, j, i);
      }
    }
    forall i | 0 <= i < n ensures t.lru[i] in t.flows && t.lru[i] in t'.flows {
      assert t'.lru[i] == t.lru[i] && t.lru[i] in t.lru;
    }
  }

  lemma IdleMonotone(a: Track, b: Track, now: nat)
    requires a.lastSeen <= b.lastSeen
    ensures IdleSeconds(b, now) <= IdleSeconds(a, now)
  {
  }

  /** Afterwards no flow idle for more than 300 seconds is left, and none idle at most 5 was removed. */
  lemma EvictionBounds(t: Table, clock: nat, now: nat)
    requires TableOk(t, clock) && clock <= now
    ensures forall k :: k in Evict(t, now).flows ==> IdleSeconds(Evict(t, now).flows[k].track, now) <= 300
    ensures forall k :: k in t.flows && k !in Evict(t, now).flows ==> IdleSeconds(t.flows[k].track, now) > 5
  {
    EvictsLongestStaleSuffix(t, clock, now);
    var t' := Evict(t, now);
    var n := |t'.lru|;
    forall k | k in t'.flows ensures IdleSeconds(t'.flows[k].track, now) <= 300 {
      var i := IndexOf(t'.lru, k);
      assert t.lru[i] == k;
      if i < n - 1 {
        assert Placed(t, i, n - 1);
        IdleMonotone(t.flows[t.lru[n - 1]].track, t.flows[t.lru[i]].track, now);
      }
    }
    forall k | k in t.flows && k !in t'.flows ensures IdleSeconds(t.flows[k].track, now) > 5 {
      var i := IndexOf(t.lru, k);
      assert n <= i && StaleKey(t.flows, t.lru[i], now);
    }
  }

  /** Whether the oldest flow goes, in nanoseconds and plain limits for each state. */
  lemma {:induction false} OldestEvictedIff(t: Table, clock: nat, now: nat)
    requires TableOk(t, clock) && clock <= now && t.lru != []
    ensures var oldest := t.lru[|t.lru| - 1];
            && oldest in t.flows
            && (oldest !in Evict(t, now).flows <==>
                  (now - t.flows[oldest].track.lastSeen) / 1_000_000_000 >
                    match t.flows[oldest].track.state
                    case CLOSED => 5
                    case SYN_SENT => 10
                    case SYN_RCVD => 10
                    case ESTABLISHED => 300
                    case UNKNOWN => 300
                    case FIN_WAIT => 300)
  {
    EvictsLongestStaleSuffix(t, clock, now);
  }

  /** A stale flow survives exactly when some flow at least as old still has time left. */
  lemma SurvivesIff(t: Table, clock: nat, now: nat, i: nat)
    requires TableOk(t, clock) && clock <= now && i < |t.lru|
    ensures t.lru[i] in Evict(t, now).flows <==>
            exists j :: i <= j < |t.lru| && t.lru[j] in t.flows
                        && IdleSeconds(t.flows[t.lru[j]].track, now) <=
                             match t.flows[t.lru[j]].track.state
                             case CLOSED => 5
                             case SYN_SENT => 10
                             case SYN_RCVD => 10
                             case _ => 300
  {
    EvictsLongestStaleSuffix(t, clock, now);
    var n := |Evict(t, now).lru|;
    if i < n {
      var j := n - 1;
      assert !Stale(t.flows[t.lru[j]].track, now);
    }
    if j :| i <= j < |t.lru| && t.lru[j] in t.flows
            && IdleSeconds(t.flows[t.lru[j]].track, now) <= Limit(t.flows[t.lru[j]].track.state) {
      assert !StaleKey(t.flows, t.lru[j], now);
    }
  }

  // ----- The TCP state machine over a flow's lifetime

  /** The state after a flow's packets, the first of which created it. */
  function StateAfter(flags: seq<nat>): TcpState
    requires flags != []
  {
    if |flags| == 1 then SYN_SENT
    else NextState(StateAfter(flags[..|flags| - 1]), flags[|flags| - 1])
  }

  predicate SynAck(f: nat) { Syn(f) && Ack(f) }
  predicate Teardown(f: nat) { Fin(f) || Rst(f) }

  /** Nothing but waiting between first and last: neither the reply nor a teardown. */
  ghost predicate AwaitingReply(flags: seq<nat>, lo: nat, hi: nat)
    requires hi <= |flags|
  {
    forall k :: lo <= k < hi ==> !SynAck(flags[k]) && !Teardown(flags[k])
  }

  ghost predicate AwaitingAck(flags: seq<nat>, lo: nat, hi: nat)
    requires hi <= |flags|
  {
    forall k :: lo <= k < hi ==> !Ack(flags[k]) && !Teardown(flags[k])
  }

  ghost predicate NoTeardown(flags: seq<nat>, lo: nat, hi: nat)
    requires hi <= |flags|
  {
    forall k :: lo <= k < hi ==> !Teardown(flags[k])
  }

  /** The reply at i, the acknowledgement at j, and no teardown outside them. */
  ghost predicate Handshake(flags: seq<nat>, i: nat, j: nat)
  {
    && 0 < i < j < |flags|
    && AwaitingReply(flags, 1, i) && SynAck(flags[i])
    && AwaitingAck(flags, i + 1, j) && Ack(flags[j])
    && NoTeardown(flags, j + 1, |flags|)
  }

  ghost predicate HalfOpen(flags: seq<nat>, i: nat)
  {
    0 < i < |flags| && AwaitingReply(flags, 1, i) && SynAck(flags[i]) && AwaitingAck(flags, i + 1, |flags|)
  }

  /** The flags split into SYN, waiting, reply, waiting, acknowledgement, and no teardown since. */
  ghost predicate HandshakeDone(flags: seq<nat>)
  {
    exists i, j :: Handshake(flags, i, j)
  }

  lemma {:induction false} StateMeaning(flags: seq<nat>)
    requires flags != []
    ensures StateAfter(flags) == SYN_SENT <==> AwaitingReply(flags, 1, |flags|)
    ensures StateAfter(flags) == SYN_RCVD <==> exists i :: HalfOpen(flags, i)
    ensures StateAfter(flags) == ESTABLISHED <==> HandshakeDone(flags)
    ensures StateAfter(flags) != UNKNOWN && StateAfter(flags) != FIN_WAIT
  {
    var n := |flags| - 1;
    if n > 0 {
      var p := flags[..n];
      StateMeaning(p);
      if i :| HalfOpen(flags, i) {
        HalfOpenBack(flags, i);
      }
      if i, j :| Handshake(flags, i, j) {
        HandshakeBack(flags, i, j);
      }
      if i :| HalfOpen(p, i) {
        HalfOpenOn(flags, i);
      }
      if i, j :| Handshake(p, i, j) {
        assert !Teardown(flags[n]) ==> Handshake(flags, i, j);
      }
      if StateAfter(p) == SYN_SENT && SynAck(flags[n]) {
        assert HalfOpen(flags, n);
      }
    }
  }

  /** The bit of this weight is set in a packet's flags byte: FIN 1, SYN 2, RST 4, ACK 16. */
  predicate Has(flags: nat, weight: nat)
    requires weight > 0
  {
    flags / weight % 2 == 1
  }

  /** Neither FIN nor RST from place lo on to place hi. */
  predicate Open(flags: seq<nat>, lo: nat, hi: nat)
    requires hi <= |flags|
  {
    forall k :: lo <= k < hi ==> !Has(flags[k], 1) && !Has(flags[k], 4)
  }

  /** Place i has the first packet with SYN and ACK, and there was no FIN or RST before it. */
  predicate Answered(flags: seq<nat>, i: nat)
  {
    && 0 < i < |flags| && Open(flags, 1, i)
    && Has(flags[i], 2) && Has(flags[i], 16)
    && forall k :: 1 <= k < i ==> !(Has(flags[k], 2) && Has(flags[k], 16))
  }

  /** The states in terms of the bits of the flags bytes; a flow in none of these three is CLOSED. */
  lemma {:induction false} StatesInBits(flags: seq<nat>)
    requires flags != []
    ensures StateAfter(flags) == SYN_SENT <==>
            Open(flags, 1, |flags|) && forall k :: 1 <= k < |flags| ==> !(Has(flags[k], 2) && Has(flags[k], 16))
    ensures StateAfter(flags) == SYN_RCVD <==>
            exists i: nat :: Answered(flags, i) && Open(flags, i + 1, |flags|)
                        && forall k :: i < k < |flags| ==> !Has(flags[k], 16)
    ensures StateAfter(flags) == ESTABLISHED <==>
            exists i: nat, j: nat :: Answered(flags, i) && i < j < |flags| && Open(flags, i + 1, j) && Has(flags[j], 16)
                           && (forall k :: i < k < j ==> !Has(flags[k], 16)) && Open(flags, j + 1, |flags|)
    ensures StateAfter(flags) in {SYN_SENT, SYN_RCVD, ESTABLISHED, CLOSED}
  {
    StateMeaning(flags);
    forall i: nat ensures HalfOpen(flags, i) <==>
      Answered(flags, i) && Open(flags, i + 1, |flags|) && forall k :: i < k < |flags| ==> !Has(flags[k], 16)
    {
    }
    forall i: nat, j: nat ensures Handshake(flags, i, j) <==>
      Answered(flags, i) && i < j < |flags| && Open(flags, i + 1, j) && Has(flags[j], 16)
      && (forall k :: i < k < j ==> !Has(flags[k], 16)) && Open(flags, j + 1, |flags|)
    {
    }
  }

  /** An entry is made exactly by a packet with SYN and without ACK. */
  lemma CreatedIff(t: Table, key: FiveTuple, flags: nat, size: nat, now: nat)
    requires key !in t.flows
    ensures key in AfterPacket(t, key, flags, size, now).flows <==> Has(flags, 2) && !Has(flags, 16)
  {
  }

  /**
   The packet at k closes the flow: it has FIN or RST, and neither of the two rules tested before
   teardown claims it, the reply to a SYN or the acknowledgement of that reply.
   */
  ghost predicate Closes(flags: seq<nat>, k: nat)
  {
    && 0 < k < |flags| && Teardown(flags[k])
    && !(SynAck(flags[k]) && AwaitingReply(flags, 1, k))
    && !(Ack(flags[k]) && exists i :: HalfOpen(flags[..k], i))
  }

  /** Exactly when a flow is closed. */
  lemma {:induction false} ClosedIff(flags: seq<nat>)
    requires flags != []
    ensures StateAfter(flags) == CLOSED <==> exists k :: Closes(flags, k)
  {
    var n := |flags| - 1;
    if n > 0 {
      var p := flags[..n];
      ClosedIff(p);
      StateMeaning(p);
      assert AwaitingReply(p, 1, n) <==> AwaitingReply(flags, 1, n);
      assert StateAfter(p) != CLOSED ==> (StateAfter(flags) == CLOSED <==> Closes(flags, n));
      forall k | 0 < k < n ensures Closes(p, k) <==> Closes(flags, k) {
        assert p[..k] == flags[..k];
      }
      if k: nat :| Closes(flags, k) {
        assert k < n ==> Closes(p, k);
      }
      if k: nat :| Closes(p, k) {
        assert Closes(flags, k);
      }
    }
  }

  /** What the documentation means by closed: a reset, or two FINs. */
  ghost predicate DocumentedClosed(flags: seq<nat>)
  {
    || (exists k :: 0 <= k < |flags| && Rst(flags[k]))
    || (exists j, k :: 0 <= j < k < |flags| && Fin(flags[j]) && Fin(flags[k]))
  }

  /** One FIN closes, with or without an acknowledgement, unless it comes as the acknowledgement of a reply. */
  lemma {:induction false} OneFinCloses()
    ensures !DocumentedClosed([2, 18, 16, 1]) && StateAfter([2, 18, 16, 1]) == CLOSED
    ensures !DocumentedClosed([2, 18, 16, 17]) && StateAfter([2, 18, 16, 17]) == CLOSED
    ensures StateAfter([2, 18, 17]) == ESTABLISHED
  {
    ThreeStates(2, 18, 16);
    ThreeStates(2, 18, 17);
    assert [2, 18, 16, 1][..3] == [2, 18, 16] && [2, 18, 16, 17][..3] == [2, 18, 16];
  }

  /** A reset that acknowledges a reply establishes, and one that comes with a reply leaves the flow half open. */
  lemma {:induction false} ResetDoesNotClose()
    ensures DocumentedClosed([2, 18, 20]) && StateAfter([2, 18, 20]) == ESTABLISHED
    ensures DocumentedClosed([2, 22]) && StateAfter([2, 22]) == SYN_RCVD
  {
    ThreeStates(2, 18, 20);
    assert [2, 22][..1] == [2];
    assert Rst([2, 18, 20][2]) && Rst([2, 22][1]);
  }

  lemma {:induction false} ThreeStates(a: nat, b: nat, c: nat)
    ensures StateAfter([a, b, c]) == NextState(NextState(SYN_SENT, b), c)
  {
    assert [a, b, c][..2] == [a, b] && [a, b][..1] == [a];
    assert StateAfter([a, b]) == NextState(SYN_SENT, b);
  }

  lemma HalfOpenBack(flags: seq<nat>, i: nat)
    requires HalfOpen(flags, i)
    ensures var n := |flags| - 1;
            if i == n then AwaitingReply(flags[..n], 1, n) && SynAck(flags[n])
            else HalfOpen(flags[..n], i) && !Ack(flags[n]) && !Teardown(flags[n])
  {
  }

  lemma HalfOpenOn(flags: seq<nat>, i: nat)
    requires flags != [] && HalfOpen(flags[..|flags| - 1], i)
    ensures var n := |flags| - 1;
            && (!Ack(flags[n]) && !Teardown(flags[n]) ==> HalfOpen(flags, i))
            && (Ack(flags[n]) ==> Handshake(flags, i, n))
  {
  }

  lemma HandshakeBack(flags: seq<nat>, i: nat, j: nat)
    requires Handshake(flags, i, j)
    ensures var n := |flags| - 1;
            if j == n then HalfOpen(flags[..n], i) && Ack(flags[n])
            else Handshake(flags[..n], i, j) && !Teardown(flags[n])
  {
  }

  /** A closed flow stays closed for as long as its entry lives. */
  lemma {:induction false} ClosedAbsorbs(flags: seq<nat>, more: seq<nat>)
    requires flags != [] && StateAfter(flags) == CLOSED
    ensures StateAfter(flags + more) == CLOSED
    decreases |more|
  {
    if more == [] {
      assert flags + more == flags;
    } else {
      var n := |more| - 1;
      ClosedAbsorbs(flags, more[..n]);
      assert (flags + more)[..|flags + more| - 1] == flags + more[..n];
    }
  }
}
