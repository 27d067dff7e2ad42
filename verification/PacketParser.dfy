/**
 The layer 2 to 4 parser: Ethernet with VLAN tags, IPv4, and TCP or UDP, one after the other on the
 same buffer, each from the offset the one before reached.
 */
module PacketParsing {
  import opened Bytes
  import opened Options
  import opened Layout
  import opened FlowKey
  import opened Frames

  const ETHERNET_HEADER := 14
  const IPV4_HEADER := 20
  const TCP_HEADER := 20
  const UDP_HEADER := 8

  /** What is known of a packet once its headers are read. */
  datatype Packet = Packet(src: Full, dst: Full, srcPort: Half, dstPort: Half, protocol: Byte, flags: Byte,
                           ident: Half, units: Units, more: bool, payload: Word)

  // ----- The parsers

  /** The tags that stand before the first EtherType that is not a tag's, from the type field at off on. */
  function TagsAt(w: Word, off: nat): Option<(seq<Tag>, Half)>
    requires off + 2 <= |w|
    decreases |w| - off
  {
    var kind := Read16(w, off);
    if !IsTag(kind) then Some(([], kind))
    else if off + 6 > |w| then None
    else
      match TagsAt(w, off + 4)
      case None => None
      case Some((tags, etherType)) => Some(([Tag(kind, w[off + 2..off + 4])] + tags, etherType))
  }

  method ParseEthernet(data: Word, offset: nat) returns (ok: bool, newOffset: nat, nextProtocol: Half)
    ensures ok <==> offset + ETHERNET_HEADER <= |data| && TagsAt(data, offset + 12).Some?
    ensures ok ==> var (tags, etherType) := TagsAt(data, offset + 12).value;
                   newOffset == offset + ETHERNET_HEADER + 4 * |tags| <= |data| && nextProtocol == etherType
  {
    if |data| < offset + ETHERNET_HEADER {
      return false, offset, 0;
    }
    ghost var start := offset + 12;
    ghost var seen: seq<Tag> := [];
    nextProtocol := Read16(data, offset + 12);
    newOffset := offset + ETHERNET_HEADER;
    while IsTag(nextProtocol)
      invariant start + 2 <= newOffset <= |data| && newOffset == start + 2 + 4 * |seen|
      invariant nextProtocol == Read16(data, newOffset - 2)
      invariant TagsAt(data, newOffset - 2).Some? <==> TagsAt(data, start).Some?
      invariant TagsAt(data, start).Some? ==>
                  && TagsAt(data, start).value.0 == seen + TagsAt(data, newOffset - 2).value.0
                  && TagsAt(data, start).value.1 == TagsAt(data, newOffset - 2).value.1
      decreases |data| - newOffset
    {
      if |data| < newOffset + 4 {
        return false, newOffset, nextProtocol;
      }
      seen := seen + [Tag(nextProtocol, data[newOffset..newOffset + 2])];
      nextProtocol := Read16(data, newOffset + 2);
      newOffset := newOffset + 4;
    }
    ok := true;
  }

  /** What the IPv4 parser reports. */
  datatype Network = Network(src: Full, dst: Full, protocol: Byte, ident: Half, units: Units, more: bool)

  function NetworkAt(w: Word, off: nat): Network
    requires Ipv4Fits(w, off)
  {
    var f := ReadFragment(Read16(w, off + 6));
    Network(Read32(w, off + 12), Read32(w, off + 16), w[off + 9], Read16(w, off + 4), f.units, f.more)
  }

  /** An IPv4 header starts at off, and its total length is no less than its own. */
  predicate DatagramFits(w: Word, off: nat)
  {
    Ipv4Fits(w, off) && Read16(w, off + 2) >= HeaderBytes(w[off])
  }

  /** Where the datagram at off ends: where its total length says, or with the capture. */
  function DatagramEnd(w: Word, off: nat): (end: nat)
    requires DatagramFits(w, off)
    ensures off + HeaderBytes(w[off]) <= end <= |w|
  {
    var end := off + Read16(w, off + 2);
    if end < |w| then end else |w|
  }

  /** Reads an IPv4 header, and cuts the length down to where the datagram ends. */
  method ParseIpv4(data: Word, offset: nat)
    returns (ok: bool, newLength: nat, newOffset: nat, src: Full, dst: Full, nextProtocol: Byte,
             identification: Half, units: Units, more: bool)
    ensures ok <==> DatagramFits(data, offset)
    ensures ok ==> NetworkAt(data, offset) == Network(src, dst, nextProtocol, identification, units, more)
                   && newOffset == offset + HeaderBytes(data[offset]) <= newLength == DatagramEnd(data, offset)
  {
    newLength, newOffset, src, dst, nextProtocol, identification, units, more := |data|, offset, 0, 0, 0, 0, 0, false;
    if |data| < offset + IPV4_HEADER {
      return false, newLength, newOffset, src, dst, nextProtocol, identification, units, more;
    }
    src := Read32(data, offset + 12);
    dst := Read32(data, offset + 16);
    nextProtocol := data[offset + 9];
    identification := Read16(data, offset + 4);
    var flags := Read16(data, offset + 6);
    more := flags / 0x2000 % 2 != 0;
    units := flags % 0x2000;
    var ihl := data[offset] % 16;
    if ihl < 5 {
      return false, newLength, newOffset, src, dst, nextProtocol, identification, units, more;
    }
    var headerBytes := ihl * 4;
    if |data| < offset + headerBytes {
      return false, newLength, newOffset, src, dst, nextProtocol, identification, units, more;
    }
    newOffset := offset + headerBytes;
    var total := Read16(data, offset + 2);
    if total < headerBytes {
      return false, newLength, newOffset, src, dst, nextProtocol, identification, units, more;
    }
    var trueLength := offset + total;
    if trueLength < |data| {
      newLength := trueLength;
    }
    ok := true;
  }

  method ParseTcp(data: Word, offset: nat)
    returns (ok: bool, newOffset: nat, srcPort: Half, dstPort: Half, flags: Byte)
    ensures ok <==> TcpFits(data, offset)
    ensures ok ==> srcPort == Read16(data, offset) && dstPort == Read16(data, offset + 2) && flags == data[offset + 13]
                   && newOffset == offset + TcpBytes(data[offset + 12]) <= |data|
  {
    newOffset, srcPort, dstPort, flags := offset, 0, 0, 0;
    if |data| < offset + TCP_HEADER {
      return false, newOffset, srcPort, dstPort, flags;
    }
    srcPort := Read16(data, offset);
    dstPort := Read16(data, offset + 2);
    var offsetAndFlags := Read16(data, offset + 12);
    flags := offsetAndFlags % 0x100;
    var dataOffset := offsetAndFlags / 0x1000 % 16;
    if dataOffset < 5 {
      return false, newOffset, srcPort, dstPort, flags;
    }
    var headerBytes := dataOffset * 4;
    if |data| < offset + headerBytes {
      return false, newOffset, srcPort, dstPort, flags;
    }
    newOffset := offset + headerBytes;
    ok := true;
  }

  method ParseUdp(data: Word, offset: nat) returns (ok: bool, newOffset: nat, srcPort: Half, dstPort: Half)
    ensures ok <==> offset + UDP_HEADER <= |data|
    ensures ok ==> srcPort == Read16(data, offset) && dstPort == Read16(data, offset + 2)
                   && newOffset == offset + UDP_HEADER
  {
    newOffset, srcPort, dstPort := offset, 0, 0;
    if |data| < offset + UDP_HEADER {
      return false, newOffset, srcPort, dstPort;
    }
    srcPort := Read16(data, offset);
    dstPort := Read16(data, offset + 2);
    newOffset := offset + UDP_HEADER;
    ok := true;
  }

  // ----- The chain

  /** What the parsers make of a captured frame. */
  function Parse(raw: Word): Option<Packet>
  {
    if ETHERNET_HEADER > |raw| then None
    else
      match TagsAt(raw, 12)
      case None => None
      case Some((tags, etherType)) => if etherType != IPV4 then None else ParseAt(raw, ETHERNET_HEADER + 4 * |tags|)
  }

  /** The IPv4 header at off, and what follows it. */
  function ParseAt(raw: Word, off: nat): Option<Packet>
  {
    if !DatagramFits(raw, off) then None
    else ParseTransport(NetworkAt(raw, off), raw[..DatagramEnd(raw, off)], off + HeaderBytes(raw[off]))
  }

  /** The TCP or UDP header at off in w, which ends where the datagram does. */
  function ParseTransport(n: Network, w: Word, off: nat): Option<Packet>
  {
    if n.protocol == TCP then
      if TcpFits(w, off) then Some(PacketOf(n, w, off, w[off + 13], off + TcpBytes(w[off + 12]))) else None
    else if n.protocol == UDP then
      if off + UDP_HEADER <= |w| then Some(PacketOf(n, w, off, 0, off + UDP_HEADER)) else None
    else None
  }

  function PacketOf(n: Network, w: Word, ports: nat, flags: Byte, start: nat): Packet
    requires ports + 4 <= start <= |w|
  {
    Packet(n.src, n.dst, Read16(w, ports), Read16(w, ports + 2), n.protocol, flags,
           n.ident, n.units, n.more, w[start..])
  }

  /** The ingestion loop's chain of parsers. */
  method ParsePacket(raw: Word) returns (r: Option<Packet>)
    ensures r == Parse(raw)
  {
    var ok, offset, etherType := ParseEthernet(raw, 0);
    if !ok || etherType != IPV4 {
      return None;
    }
    var length, src, dst, protocol, ident, units, more;
    ok, length, offset, src, dst, protocol, ident, units, more := ParseIpv4(raw, offset);
    if !ok {
      return None;
    }
    var srcPort, dstPort, flags := 0, 0, 0;
    if protocol == TCP {
      ok, offset, srcPort, dstPort, flags := ParseTcp(raw[..length], offset);
      if !ok {
        return None;
      }
    } else if protocol == UDP {
      ok, offset, srcPort, dstPort := ParseUdp(raw[..length], offset);
      if !ok {
        return None;
      }
    } else {
      return None;
    }
    return Some(Packet(src, dst, srcPort, dstPort, protocol, flags, ident, units, more, raw[..length][offset..]));
  }

  // ----- Round trips

  lemma {:induction false} TagsWritten(w: Word, off: nat, tags: seq<Tag>)
    requires Holds(w, off, EncodeTags(tags) + Write16(IPV4))
    ensures |EncodeTags(tags)| == 4 * |tags|
    ensures TagsAt(w, off) == Some((tags, IPV4))
    decreases |tags|
  {
    if tags == [] {
      assert EncodeTags(tags) + Write16(IPV4) == Write16(IPV4);
      FieldRead(w, off, Write16(IPV4));
    } else {
      var kind, rest := Write16(tags[0].kind), EncodeTags(tags[1..]) + Write16(IPV4);
      assert tags == [tags[0]] + tags[1..];
      TagFirst(tags[0], tags[1..], IPV4);
      HoldsThree(w, off, kind, tags[0].control, rest);
      FieldRead(w, off, kind);
      HoldsSlice(w, off + 2, tags[0].control);
      TagsWritten(w, off + 4, tags[1..]);
    }
  }

  lemma {:induction false} TagFirst(tag: Tag, more: seq<Tag>, etherType: Half)
    ensures EncodeTags([tag] + more) + Write16(etherType)
            == Write16(tag.kind) + tag.control + (EncodeTags(more) + Write16(etherType))
    ensures |EncodeTags([tag] + more)| == 4 + |EncodeTags(more)|
  {
    assert ([tag] + more)[1..] == more;
  }

  /** A piece and what follows it stand together. */
  lemma {:induction false} HoldsFirst(w: Word, off: nat, a: Word, b: Word)
    requires off + |a| <= |w| && w[off..off + |a|] == a && Holds(w, off + |a|, b)
    ensures Holds(w, off, a + b)
  {
    HoldsSlice(w, off, a);
    forall k {:trigger (a + b)[k]} | 0 <= k < |a + b| ensures w[off + k] == (a + b)[k] {
      assert k < |a| ==> w[off + k] == a[k];
      assert k >= |a| ==> w[off + |a| + (k - |a|)] == b[k - |a|];
    }
  }

  lemma {:induction false} TagsRead(w: Word, off: nat)
    requires off + 2 <= |w|
    ensures TagsAt(w, off).Some? ==>
              var (tags, etherType) := TagsAt(w, off).value;
              && Holds(w, off, EncodeTags(tags) + Write16(etherType))
              && |EncodeTags(tags)| == 4 * |tags| && !IsTag(etherType)
    decreases |w| - off
  {
    var kind := Read16(w, off);
    WriteRead16(w, off);
    if !IsTag(kind) {
      assert EncodeTags([]) + Write16(kind) == Write16(kind);
      HoldsSlice(w, off, Write16(kind));
    } else if off + 6 <= |w| && TagsAt(w, off + 4).Some? {
      TagsRead(w, off + 4);
      var (more, etherType) := TagsAt(w, off + 4).value;
      var tag := Tag(kind, w[off + 2..off + 4]);
      TagFirst(tag, more, etherType);
      HoldsFirst(w, off, Write16(kind) + tag.control, EncodeTags(more) + Write16(etherType));
    }
  }

  /** What the frame says. */
  function Meaning(f: Frame): Packet
  {
    Packet(f.ip.src, f.ip.dst, f.transport.srcPort, f.transport.dstPort, f.ip.protocol,
           if f.transport.Tcp? then f.transport.flags else 0,
           f.ip.ident, f.ip.fragment.units, f.ip.fragment.more, f.payload)
  }

  lemma {:induction false} LinkWritten(raw: Word, addresses: TwelveBytes, tags: seq<Tag>, rest: Word)
    requires raw == EncodeLink(addresses, tags) + rest
    ensures |EncodeLink(addresses, tags)| == ETHERNET_HEADER + 4 * |tags| <= |raw|
    ensures TagsAt(raw, 12) == Some((tags, IPV4))
  {
    var written := EncodeTags(tags) + Write16(IPV4);
    HoldsWithin(addresses, written, rest, 0, written);
    assert addresses + written + rest == raw;
    TagsWritten(raw, 12, tags);
  }

  function Reported(h: Ipv4): Network
  {
    Network(h.src, h.dst, h.protocol, h.ident, h.fragment.units, h.fragment.more)
  }

  lemma {:induction false} HeaderWritten(w: Word, off: nat, h: Ipv4)
    requires Holds(w, off, EncodeIpv4(h))
    ensures Ipv4Fits(w, off) && NetworkAt(w, off) == Reported(h)
    ensures HeaderBytes(w[off]) == Ipv4Size(h) && Read16(w, off + 2) == h.total
  {
    Ipv4Fields(w, off, h);
    Ipv4Rewritten(w, off);
  }

  /** The padding is left out of the datagram. */
  lemma {:induction false} DatagramWritten(raw: Word, off: nat, h: Ipv4, rest: nat, padding: nat)
    requires Holds(raw, off, EncodeIpv4(h)) && |raw| == off + Ipv4Size(h) + rest + padding
    requires h.total >= Ipv4Size(h) + rest && (padding > 0 ==> h.total == Ipv4Size(h) + rest)
    ensures ParseAt(raw, off)
            == ParseTransport(Reported(h), raw[..off + Ipv4Size(h) + rest], off + Ipv4Size(h))
  {
    HeaderWritten(raw, off, h);
  }

  lemma {:induction false} TransportWritten(w: Word, off: nat, t: Transport, n: Network)
    requires Holds(w, off, EncodeTransport(t)) && n.protocol == if t.Tcp? then TCP else UDP
    ensures ParseTransport(n, w, off)
            == Some(Packet(n.src, n.dst, t.srcPort, t.dstPort, n.protocol, if t.Tcp? then t.flags else 0,
                           n.ident, n.units, n.more, w[off + TransportSize(t)..]))
  {
    if t.Tcp? {
      TcpFields(w, off, t);
      TcpRewritten(w, off);
    } else {
      UdpFields(w, off, t);
    }
  }

  /** The frame's datagram stands at off, up to end, and the padding after it. */
  lemma {:induction false} NetworkWritten(raw: Word, off: nat, end: nat, f: Frame)
    requires Valid(f) && |raw| == end + |f.padding|
    requires end == off + Ipv4Size(f.ip) + TransportSize(f.transport) + |f.payload|
    requires Holds(raw, off, EncodeIpv4(f.ip)) && Holds(raw[..end], off + Ipv4Size(f.ip), EncodeTransport(f.transport))
    requires raw[..end][end - |f.payload|..] == f.payload
    ensures ParseAt(raw, off) == Some(Meaning(f))
  {
    DatagramWritten(raw, off, f.ip, TransportSize(f.transport) + |f.payload|, |f.padding|);
    TransportWritten(raw[..end], off + Ipv4Size(f.ip), f.transport, Reported(f.ip));
  }

  lemma {:induction false} FramePieces(a: Word, b: Word, c: Word, d: Word, e: Word)
    ensures var w, end := a + b + c + d + e, |a| + |b| + |c| + |d|;
            && w == a + (b + (c + d) + e) && |w| == end + |e|
            && Holds(w, |a|, b) && Holds(w[..end], |a| + |b|, c) && w[..end][end - |d|..] == d
  {
    var w, end := a + b + c + d + e, |a| + |b| + |c| + |d|;
    Regroup(a, b, c, d, e);
    HoldsWithin(a, b, c + d + e, 0, b);
    assert w[..end] == a + b + c + d;
    HoldsWithin(a + b, c, d, 0, c);
  }

  /** The parser recovers what was written, whatever tags, options and padding surround it. */
  lemma {:induction false} ParserInvertsWriter(f: Frame)
    requires Valid(f)
    ensures Parse(Wire(f)) == Some(Meaning(f))
  {
    var link, ip, transport := EncodeLink(f.addresses, f.tags), EncodeIpv4(f.ip), EncodeTransport(f.transport);
    FramePieces(link, ip, transport, f.payload, f.padding);
    LinkWritten(Wire(f), f.addresses, f.tags, ip + (transport + f.payload) + f.padding);
    assert Parse(Wire(f)) == ParseAt(Wire(f), |link|);
    NetworkWritten(Wire(f), |link|, |link| + |ip| + |transport| + |f.payload|, f);
  }

  lemma {:induction false} Regroup(a: Word, b: Word, c: Word, d: Word, e: Word)
    ensures a + b + c + d + e == a + b + (c + d) + e
    ensures a + b + c + d + e == a + (b + (c + d) + e)
    ensures a + b + c + d + e == a + b + (c + d + e)
    ensures a + b + (c + d) == a + b + c + d
  {
  }

  // ----- Only frames are accepted

  /** The transport header and payload that ParseTransport saw. */
  lemma {:induction false} TransportRead(n: Network, w: Word, off: nat) returns (t: Transport, payload: Word)
    requires ParseTransport(n, w, off).Some?
    ensures off <= |w| && w[off..] == EncodeTransport(t) + payload
    ensures n.protocol == if t.Tcp? then TCP else UDP
  {
    t := if n.protocol == TCP then ReadTcp(w, off) else ReadUdp(w, off);
    if n.protocol == TCP {
      TcpRewritten(w, off);
    } else {
      UdpRewritten(w, off);
    }
    HoldsSlice(w, off, EncodeTransport(t));
    payload := w[off + TransportSize(t)..];
  }

  /** The link header that Parse saw. */
  lemma {:induction false} LinkRead(raw: Word) returns (addresses: TwelveBytes, tags: seq<Tag>, off: nat)
    requires Parse(raw).Some?
    ensures off <= |raw| && raw[..off] == addresses + EncodeTags(tags) + Write16(IPV4)
    ensures ParseAt(raw, off).Some?
  {
    tags := TagsAt(raw, 12).value.0;
    off := ETHERNET_HEADER + 4 * |tags|;
    addresses := raw[..12];
    TagsRead(raw, 12);
    var rest := EncodeTags(tags) + Write16(IPV4);
    HoldsSlice(raw, 12, rest);
    assert raw[..off] == addresses + rest;
    assert addresses + rest == addresses + EncodeTags(tags) + Write16(IPV4);
  }

  /** The IPv4 header that ParseAt saw. */
  lemma {:induction false} HeaderRead(raw: Word, off: nat) returns (h: Ipv4)
    requires Ipv4Fits(raw, off)
    ensures off + Ipv4Size(h) <= |raw| && raw[off..off + Ipv4Size(h)] == EncodeIpv4(h)
    ensures NetworkAt(raw, off) == Reported(h)
    ensures HeaderBytes(raw[off]) == Ipv4Size(h) && Read16(raw, off + 2) == h.total
  {
    h := ReadIpv4(raw, off);
    Ipv4Rewritten(raw, off);
    HoldsSlice(raw, off, EncodeIpv4(h));
  }

  lemma {:induction false} DatagramRead(raw: Word, off: nat)
    returns (h: Ipv4, t: Transport, payload: Word, padding: Word)
    requires ParseAt(raw, off).Some?
    ensures off <= |raw| && raw[off..] == EncodeIpv4(h) + (EncodeTransport(t) + payload) + padding
    ensures h.protocol == (if t.Tcp? then TCP else UDP)
    ensures var size := Ipv4Size(h) + TransportSize(t) + |payload|;
            h.total >= size && (padding != [] ==> h.total == size)
  {
    h := HeaderRead(raw, off);
    var end := DatagramEnd(raw, off);
    t, payload := TransportRead(Reported(h), raw[..end], off + Ipv4Size(h));
    padding := raw[end..];
    ThreePieces(raw, off, off + Ipv4Size(h), end);
  }

  lemma {:induction false} ThreePieces(raw: Word, i: nat, j: nat, k: nat)
    requires i <= j <= k <= |raw|
    ensures raw[i..] == raw[i..j] + raw[..k][j..] + raw[k..]
  {
  }

  /** What the parser accepts is a frame as the writer writes it, and it reports what that frame says. */
  lemma {:induction false} OnlyFramesAccepted(raw: Word)
    requires Parse(raw).Some?
    ensures exists f :: Valid(f) && Wire(f) == raw && Parse(raw) == Some(Meaning(f))
  {
    var addresses, tags, off := LinkRead(raw);
    var h, t, payload, padding := DatagramRead(raw, off);
    var f := Frame(addresses, tags, h, t, payload, padding);
    assert raw == raw[..off] + raw[off..];
    Regroup(EncodeLink(addresses, tags), EncodeIpv4(h), EncodeTransport(t), payload, padding);
    assert Wire(f) == raw;
    ParserInvertsWriter(f);
  }

  /** A byte string is accepted exactly when it is a frame. */
  lemma AcceptedIff(raw: Word)
    ensures Parse(raw).Some? <==> exists f :: Valid(f) && Wire(f) == raw
  {
    forall f | Valid(f) && Wire(f) == raw ensures Parse(raw).Some? {
      ParserInvertsWriter(f);
    }
    if Parse(raw).Some? {
      OnlyFramesAccepted(raw);
    }
  }
}
