/** The five-tuple that identifies a flow, made the same for both directions. */
module FlowKey {
  /** Protocol numbers. */
  const TCP := 6
  const UDP := 17

  datatype FiveTuple = FiveTuple(srcIp: nat, destIp: nat, srcPort: nat, destPort: nat, protocol: nat)

  /** The endpoints in sorted order: by address, then (equal addresses) by port. */
  function Canonical(t: FiveTuple): (c: FiveTuple)
  {
    if t.srcIp < t.destIp then t
    else if t.srcIp > t.destIp then Reverse(t)
    else if t.srcPort < t.destPort then t
    else Reverse(t)
  }

  /** The tuple of a packet going the other way. */
  function Reverse(t: FiveTuple): FiveTuple
  {
    FiveTuple(t.destIp, t.srcIp, t.destPort, t.srcPort, t.protocol)
  }

  /** Two packets get the same key exactly when they belong to one conversation. */
  lemma SameKeyIff(a: FiveTuple, b: FiveTuple)
    ensures Canonical(a) == Canonical(b) <==> a == b || a == Reverse(b)
  {
  }

  /** The key names the smaller endpoint first, and is the packet's own tuple or that of the way back. */
  lemma CanonicalSorted(t: FiveTuple)
    ensures var c := Canonical(t);
            && (c.srcIp < c.destIp || (c.srcIp == c.destIp && c.srcPort <= c.destPort))
            && (c == t || c == FiveTuple(t.destIp, t.srcIp, t.destPort, t.srcPort, t.protocol))
  {
  }

  /** Builds the key field by field, as the ingestion thread and the workers do. */
  method CreateBidirectionalTuple(srcIp: nat, destIp: nat, srcPort: nat, destPort: nat, protocol: nat)
    returns (tuple: FiveTuple)
    ensures tuple == Canonical(FiveTuple(srcIp, destIp, srcPort, destPort, protocol))
    ensures tuple == Canonical(FiveTuple(destIp, srcIp, destPort, srcPort, protocol))
  {
    var sIp, dIp, sPort, dPort := 0, 0, 0, 0;
    if srcIp < destIp {
      sIp, dIp, sPort, dPort := srcIp, destIp, srcPort, destPort;
    } else if srcIp > destIp {
      sIp, dIp, sPort, dPort := destIp, srcIp, destPort, srcPort;
    } else {
      sIp, dIp := srcIp, destIp;
      if srcPort < destPort {
        sPort, dPort := srcPort, destPort;
      } else {
        sPort, dPort := destPort, srcPort;
      }
    }
    tuple := FiveTuple(sIp, dIp, sPort, dPort, protocol);
  }
}
