/**
 Frames on the wire: an Ethernet header with any number of VLAN tags, an IPv4 header (section 3.1 of
 RFC 791), a TCP header (section 3.1 of RFC 9293) or a UDP header, a payload, and padding. Fields the
 parser does not look at are kept as they stand, so every byte string has at most one reading.
 */
module Frames {
  import opened Bytes
  import opened Layout
  import opened FlowKey

  const IPV4 := 0x0800

  type Nibble = n: nat | n < 16

  predicate IsTag(etherType: nat)
  {
    etherType == 0x8100 || etherType == 0x88A8
  }

  type TagType = t: Half | IsTag(t) witness 0x8100

  /** At most ten 32-bit words of options. */
  type Padded = w: Word | |w| % 4 == 0 && |w| <= 40

  datatype Tag = Tag(kind: TagType, control: TwoBytes)

  datatype Ipv4 = Ipv4(version: Nibble, tos: Byte, total: Half, ident: Half, fragment: FragmentField,
                       ttl: Byte, protocol: Byte, checksum: TwoBytes, src: Full, dst: Full, options: Padded)

  /** The two high flag bits, the more-fragments bit, and the offset in units of eight bytes. */
  datatype FragmentField = FragmentField(high: HighBits, more: bool, units: Units)
  type HighBits = n: nat | n < 4
  type Units = n: nat | n < 0x2000

  type EightBytes = w: Word | |w| == 8 witness [0, 0, 0, 0, 0, 0, 0, 0]
  type SixBytes = w: Word | |w| == 6 witness [0, 0, 0, 0, 0, 0]
  type TwelveBytes = w: Word | |w| == 12 witness [0, 0, 0, 0, 0, 0, 0, 0, 0, 0, 0, 0]

  datatype Transport =
    | Tcp(srcPort: Half, dstPort: Half, numbers: EightBytes, reserved: Nibble, flags: Byte, others: SixBytes,
          options: Padded)
    | Udp(srcPort: Half, dstPort: Half, lengthAndChecksum: FourBytes)

  datatype Frame = Frame(addresses: TwelveBytes, tags: seq<Tag>, ip: Ipv4, transport: Transport, payload: Word,
                         padding: Word)

  // ----- Writing

  function EncodeTags(tags: seq<Tag>): Word
  {
    if tags == [] then [] else Write16(tags[0].kind) + tags[0].control + EncodeTags(tags[1..])
  }

  function EncodeFragment(f: FragmentField): (v: Half)
  {
    f.high * 0x4000 + (if f.more then 0x2000 else 0) + f.units
  }

  function EncodeIpv4(h: Ipv4): (w: Word)
    ensures |w| == Ipv4Size(h)
  {
    [h.version * 16 + Ipv4Size(h) / 4, h.tos] + Write16(h.total) + Write16(h.ident)
    + Write16(EncodeFragment(h.fragment)) + [h.ttl, h.protocol] + h.checksum
    + Write32(h.src) + Write32(h.dst) + h.options
  }

  function Ipv4Size(h: Ipv4): nat
  {
    20 + |h.options|
  }

  function EncodeTransport(t: Transport): (w: Word)
    ensures |w| == TransportSize(t)
  {
    match t
    case Tcp(s, d, numbers, reserved, flags, others, options) =>
      Write16(s) + Write16(d) + numbers + [TransportSize(t) / 4 * 16 + reserved, flags] + others + options
    case Udp(s, d, rest) => Write16(s) + Write16(d) + rest
  }

  function TransportSize(t: Transport): nat
  {
    match t
    case Tcp(_, _, _, _, _, _, options) => 20 + |options|
    case Udp(_, _, _) => 8
  }

  function EncodeLink(addresses: TwelveBytes, tags: seq<Tag>): Word
  {
    addresses + EncodeTags(tags) + Write16(IPV4)
  }

  function Wire(f: Frame): Word
  {
    EncodeLink(f.addresses, f.tags) + EncodeIpv4(f.ip) + EncodeTransport(f.transport) + f.payload + f.padding
  }

  /**
   The protocol number names the transport, and the total length covers headers and payload: exactly
   when padding follows, at least when the capture ends with the payload.
   */
  predicate Valid(f: Frame)
  {
    var size := Ipv4Size(f.ip) + TransportSize(f.transport) + |f.payload|;
    && f.ip.protocol == (if f.transport.Tcp? then TCP else UDP)
    && f.ip.total >= size
    && (f.padding != [] ==> f.ip.total == size)
  }

  // ----- Reading

  function ReadFragment(v: Half): FragmentField
  {
    FragmentField(v / 0x4000, v / 0x2000 % 2 == 1, v % 0x2000)
  }

  lemma FragmentFields(f: FragmentField)
    ensures ReadFragment(EncodeFragment(f)) == f
  {
  }

  lemma FragmentWord(v: Half)
    ensures EncodeFragment(ReadFragment(v)) == v
  {
  }

  /** The header length the first byte announces. */
  function HeaderBytes(versionIhl: Byte): nat
  {
    versionIhl % 16 * 4
  }

  /** An IPv4 header starts at off and ends within w. */
  predicate Ipv4Fits(w: Word, off: nat)
  {
    off + 20 <= |w| && HeaderBytes(w[off]) >= 20 && off + HeaderBytes(w[off]) <= |w|
  }

  function ReadIpv4(w: Word, off: nat): (h: Ipv4)
    requires Ipv4Fits(w, off)
  {
    Ipv4(w[off] / 16, w[off + 1], Read16(w, off + 2), Read16(w, off + 4), ReadFragment(Read16(w, off + 6)),
         w[off + 8], w[off + 9], w[off + 10..off + 12], Read32(w, off + 12), Read32(w, off + 16),
         w[off + 20..off + HeaderBytes(w[off])])
  }

  /** The header length the data offset announces. */
  function TcpBytes(offsetReserved: Byte): nat
  {
    offsetReserved / 16 * 4
  }

  /** A TCP header starts at off and ends within w. */
  predicate TcpFits(w: Word, off: nat)
  {
    off + 20 <= |w| && TcpBytes(w[off + 12]) >= 20 && off + TcpBytes(w[off + 12]) <= |w|
  }

  function ReadTcp(w: Word, off: nat): (t: Transport)
    requires TcpFits(w, off)
    ensures t.Tcp?
  {
    Tcp(Read16(w, off), Read16(w, off + 2), w[off + 4..off + 12], w[off + 12] % 16, w[off + 13], w[off + 14..off + 20],
        w[off + 20..off + TcpBytes(w[off + 12])])
  }

  function ReadUdp(w: Word, off: nat): (t: Transport)
    requires off + 8 <= |w|
    ensures t.Udp?
  {
    Udp(Read16(w, off), Read16(w, off + 2), w[off + 4..off + 8])
  }

  /** Reading a header and writing it again gives the bytes back. */
  lemma {:induction false} Ipv4Rewritten(w: Word, off: nat)
    requires Ipv4Fits(w, off)
    ensures Holds(w, off, EncodeIpv4(ReadIpv4(w, off)))
    ensures Ipv4Size(ReadIpv4(w, off)) == HeaderBytes(w[off])
  {
    var h := ReadIpv4(w, off);
    FragmentWord(Read16(w, off + 6));
    WriteRead16(w, off + 2);
    WriteRead16(w, off + 4);
    WriteRead16(w, off + 6);
    WriteRead32(w, off + 12);
    WriteRead32(w, off + 16);
    HoldsSlice(w, off, EncodeIpv4(h));
  }

  lemma {:induction false} TcpRewritten(w: Word, off: nat)
    requires TcpFits(w, off)
    ensures Holds(w, off, EncodeTransport(ReadTcp(w, off)))
    ensures TransportSize(ReadTcp(w, off)) == TcpBytes(w[off + 12])
  {
    WriteRead16(w, off);
    WriteRead16(w, off + 2);
    HoldsSlice(w, off, EncodeTransport(ReadTcp(w, off)));
  }

  lemma {:induction false} UdpRewritten(w: Word, off: nat)
    requires off + 8 <= |w|
    ensures Holds(w, off, EncodeTransport(ReadUdp(w, off)))
  {
    WriteRead16(w, off);
    WriteRead16(w, off + 2);
    HoldsSlice(w, off, EncodeTransport(ReadUdp(w, off)));
  }

  /** Writing a header and reading it again gives the fields back. */
  lemma {:induction false} Ipv4Fields(w: Word, off: nat, h: Ipv4)
    requires Holds(w, off, EncodeIpv4(h))
    ensures Ipv4Fits(w, off) && ReadIpv4(w, off) == h
  {
    HoldsSlice(w, off, EncodeIpv4(h));
    Ipv4Alone(h);
    Ipv4Shift(w, off, EncodeIpv4(h));
  }

  lemma {:induction false} Ipv4Alone(h: Ipv4)
    ensures Ipv4Fits(EncodeIpv4(h), 0) && ReadIpv4(EncodeIpv4(h), 0) == h
  {
    var e := EncodeIpv4(h);
    FragmentFields(h.fragment);
    assert e[10..12] == h.checksum && e[20..] == h.options;
    assert e[0] as int == h.version * 16 + Ipv4Size(h) / 4;
  }

  lemma {:induction false} Ipv4Shift(w: Word, off: nat, e: Word)
    requires off + |e| <= |w| && w[off..off + |e|] == e
    requires Ipv4Fits(e, 0)
    ensures Ipv4Fits(w, off) && ReadIpv4(w, off) == ReadIpv4(e, 0)
  {
    assert w[off] == e[0];
    InnerSlice(w, off, e, 10, 12);
    InnerSlice(w, off, e, 20, HeaderBytes(e[0]));
  }

  lemma {:induction false} TcpFields(w: Word, off: nat, t: Transport)
    requires t.Tcp? && Holds(w, off, EncodeTransport(t))
    ensures TcpFits(w, off) && ReadTcp(w, off) == t
  {
    HoldsSlice(w, off, EncodeTransport(t));
    TcpAlone(t);
    TcpShift(w, off, EncodeTransport(t));
  }

  lemma {:induction false} TcpAlone(t: Transport)
    requires t.Tcp?
    ensures TcpFits(EncodeTransport(t), 0) && ReadTcp(EncodeTransport(t), 0) == t
  {
    var e := EncodeTransport(t);
    assert e[4..12] == t.numbers && e[14..20] == t.others && e[20..] == t.options;
    assert e[12] as int == TransportSize(t) / 4 * 16 + t.reserved;
  }

  lemma {:induction false} TcpShift(w: Word, off: nat, e: Word)
    requires off + |e| <= |w| && w[off..off + |e|] == e
    requires TcpFits(e, 0)
    ensures TcpFits(w, off) && ReadTcp(w, off) == ReadTcp(e, 0)
  {
    assert w[off + 12] == e[12];
    InnerSlice(w, off, e, 4, 12);
    InnerSlice(w, off, e, 14, 20);
    InnerSlice(w, off, e, 20, TcpBytes(e[12]));
  }

  lemma {:induction false} UdpFields(w: Word, off: nat, t: Transport)
    requires t.Udp? && Holds(w, off, EncodeTransport(t))
    ensures off + 8 <= |w| && ReadUdp(w, off) == t
  {
    HoldsSlice(w, off, EncodeTransport(t));
  }
}
