/**
 Fragmented datagrams from the wire to the transport header: the Ethernet and IPv4 parsers feed the
 reassembly, and the transport parser reads what comes out of it.
 */
module Reassembly {
  import opened Bytes
  import opened Options
  import opened Layout
  import opened Frames
  import opened PacketParsing
  import opened Fragments

  /** What the parsers report of a frame that carries a fragment: whose it is, and the fragment. */
  function FragmentOf(raw: Word): Option<(FragmentKey, Fragment)>
  {
    if ETHERNET_HEADER > |raw| then None
    else
      match TagsAt(raw, 12)
      case None => None
      case Some((tags, etherType)) =>
        var off := ETHERNET_HEADER + 4 * |tags|;
        if etherType != IPV4 || !DatagramFits(raw, off) then None
        else
          var n := NetworkAt(raw, off);
          var bytes := raw[off + HeaderBytes(raw[off])..DatagramEnd(raw, off)];
          Some((FragmentKey(n.src, n.dst, n.ident, n.protocol), Fragment(n.units * 8, bytes, n.more)))
  }

  method ParseFragment(raw: Word) returns (r: Option<(FragmentKey, Fragment)>)
    ensures r == FragmentOf(raw)
  {
    var ok, offset, etherType := ParseEthernet(raw, 0);
    if !ok || etherType != IPV4 {
      return None;
    }
    var length, src, dst, protocol, ident, units, more;
    ok, length, offset, src, dst, protocol, ident, units, more := ParseIpv4(raw, offset);
    if !ok {
      return None;
    }
    return Some((FragmentKey(src, dst, ident, protocol), Fragment(units as int * 8, raw[offset..length], more)));
  }

  /** A frame around one fragment: its header tells the fragment's exact length, and padding may follow. */
  datatype Carrier = Carrier(addresses: TwelveBytes, tags: seq<Tag>, ip: Ipv4, bytes: Word, padding: Word)

  predicate CarrierOk(c: Carrier)
  {
    c.ip.total == Ipv4Size(c.ip) + |c.bytes|
  }

  function Carried(c: Carrier): Word
  {
    EncodeLink(c.addresses, c.tags) + EncodeIpv4(c.ip) + c.bytes + c.padding
  }

  function KeyOf(h: Ipv4): FragmentKey
  {
    FragmentKey(h.src, h.dst, h.ident, h.protocol)
  }

  function PieceOf(c: Carrier): Fragment
  {
    Fragment(c.ip.fragment.units * 8, c.bytes, c.ip.fragment.more)
  }

  /** The payload of an IPv4 header that stands in raw, up to the end its length gives. */
  lemma {:induction false} PayloadRead(raw: Word, off: nat, h: Ipv4, n: nat)
    requires Holds(raw, off, EncodeIpv4(h)) && h.total == Ipv4Size(h) + n && off + h.total <= |raw|
    ensures DatagramFits(raw, off) && NetworkAt(raw, off) == Reported(h)
    ensures HeaderBytes(raw[off]) == Ipv4Size(h) && DatagramEnd(raw, off) == off + Ipv4Size(h) + n
  {
    HeaderWritten(raw, off, h);
  }

  lemma {:induction false} MiddleOf(a: Word, b: Word, c: Word, d: Word)
    ensures a + b + c + d == a + (b + c + d) && Holds(a + b + c + d, |a|, b)
    ensures (a + b + c + d)[|a| + |b|..|a| + |b| + |c|] == c
  {
    HoldsWithin(a, b, c + d, 0, b);
    assert a + b + (c + d) == a + b + c + d;
  }

  lemma {:induction false} ReportedAt(raw: Word, tags: seq<Tag>, h: Ipv4, bytes: Word)
    requires ETHERNET_HEADER <= |raw| && TagsAt(raw, 12) == Some((tags, IPV4))
    requires var off := ETHERNET_HEADER + 4 * |tags|;
             && DatagramFits(raw, off) && NetworkAt(raw, off) == Reported(h)
             && raw[off + HeaderBytes(raw[off])..DatagramEnd(raw, off)] == bytes
    ensures FragmentOf(raw) == Some((KeyOf(h), Fragment(h.fragment.units * 8, bytes, h.fragment.more)))
  {
  }

  /** The parsers recover the fragment, whatever tags, options and padding its frame has. */
  lemma {:induction false} CarrierRead(c: Carrier)
    requires CarrierOk(c)
    ensures FragmentOf(Carried(c)) == Some((KeyOf(c.ip), PieceOf(c)))
    ensures FragmentOf(Carried(c)) ==
              Some((FragmentKey(c.ip.src, c.ip.dst, c.ip.ident, c.ip.protocol),
                    Fragment(8 * c.ip.fragment.units, c.bytes, c.ip.fragment.more)))
  {
    var link, ip := EncodeLink(c.addresses, c.tags), EncodeIpv4(c.ip);
    MiddleOf(link, ip, c.bytes, c.padding);
    LinkWritten(Carried(c), c.addresses, c.tags, ip + c.bytes + c.padding);
    PayloadRead(Carried(c), |link|, c.ip, |c.bytes|);
    ReportedAt(Carried(c), c.tags, c.ip, c.bytes);
  }

  // ----- Reassembly from the wire

  /** The calls that the frames amount to; frames that carry no fragment make none. */
  function CallsOf(raws: seq<Word>, nows: seq<nat>): seq<Call>
    requires |raws| == |nows|
  {
    if raws == [] then []
    else
      (match FragmentOf(raws[0])
       case None => []
       case Some((key, f)) => [Arrive(key, f, nows[0])]) + CallsOf(raws[1..], nows[1..])
  }

  function Raws(cs: seq<Carrier>): (raws: seq<Word>)
    ensures |raws| == |cs|
  {
    if cs == [] then [] else [Carried(cs[0])] + Raws(cs[1..])
  }

  /** Every frame of the key's carries a piece of d; the others carry whatever they do. */
  ghost predicate CutsOf(d: Word, key: FragmentKey, cs: seq<Carrier>)
  {
    forall i :: 0 <= i < |cs| ==> CarrierOk(cs[i]) && (KeyOf(cs[i].ip) == key ==> Piece(d, PieceOf(cs[i])))
  }

  lemma {:induction false} CallsAreCuts(d: Word, key: FragmentKey, cs: seq<Carrier>, nows: seq<nat>)
    requires |cs| == |nows| && CutsOf(d, key, cs)
    ensures Pieces(d, key, CallsOf(Raws(cs), nows))
  {
    if cs != [] {
      assert Raws(cs)[1..] == Raws(cs[1..]);
      CarrierRead(cs[0]);
      CallsAreCuts(d, key, cs[1..], nows[1..]);
      var first, rest := Arrive(KeyOf(cs[0].ip), PieceOf(cs[0]), nows[0]), CallsOf(Raws(cs[1..]), nows[1..]);
      assert CallsOf(Raws(cs), nows) == [first] + rest;
      PiecesCons(d, key, first, rest);
    }
  }

  lemma {:induction false} PiecesCons(d: Word, key: FragmentKey, c: Call, rest: seq<Call>)
    requires Pieces(d, key, rest) && (c.Arrive? && c.key == key ==> Piece(d, c.fragment))
    ensures Pieces(d, key, [c] + rest)
  {
    forall i | 0 <= i < |[c] + rest| && ([c] + rest)[i].Arrive? && ([c] + rest)[i].key == key
      ensures Piece(d, ([c] + rest)[i].fragment)
    {
      assert i > 0 ==> ([c] + rest)[i] == rest[i - 1];
    }
  }

  /** The transport parser on a reassembled datagram reports what it does on the unfragmented frame. */
  lemma {:induction false} WholeReport(f: Frame)
    requires Valid(f)
    ensures ParseTransport(Reported(f.ip), EncodeTransport(f.transport) + f.payload, 0) == Some(Meaning(f))
    ensures Parse(Wire(f)) == Some(Meaning(f))
  {
    var d := EncodeTransport(f.transport) + f.payload;
    HoldsFront(EncodeTransport(f.transport), f.payload);
    TransportWritten(d, 0, f.transport, Reported(f.ip));
    assert d[TransportSize(f.transport)..] == f.payload;
    ParserInvertsWriter(f);
  }

  /**
   A frame's datagram, cut into fragments and carried by frames of their own in any order, with
   duplicates, overlaps and other traffic between, comes out of the reassembly exactly when it is
   covered; it is the original, and the transport parser reports of it what it reports of the frame.
   */
  lemma {:induction false} FragmentsReadAsWhole(f: Frame, cs: seq<Carrier>, nows: seq<nat>)
    requires Valid(f) && |cs| == |nows|
    requires var d := EncodeTransport(f.transport) + f.payload; |d| <= MAX_DATAGRAM_SIZE && CutsOf(d, KeyOf(f.ip), cs)
    requires Undisturbed(map[], KeyOf(f.ip), CallsOf(Raws(cs), nows))
    ensures var d, calls := EncodeTransport(f.transport) + f.payload, CallsOf(Raws(cs), nows);
            && FirstOutput(map[], KeyOf(f.ip), calls)
               == (match FirstCover([], KeyOf(f.ip), calls, |d|)
                   case None => None
                   case Some(i) => Some((i, d)))
            && ParseTransport(Reported(f.ip), d, 0) == Parse(Wire(f)) == Some(Meaning(f))
  {
    var d := EncodeTransport(f.transport) + f.payload;
    CallsAreCuts(d, KeyOf(f.ip), cs, nows);
    NothingCovered(d);
    Reassembles(map[], KeyOf(f.ip), d, CallsOf(Raws(cs), nows));
    WholeReport(f);
  }

  lemma {:induction false} NothingCovered(d: Word)
    requires d != []
    ensures !Covered([], |d|)
  {
    assert ByteAt([], 0) == None;
  }
}
