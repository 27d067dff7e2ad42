/** Literal messages, byte by byte, and what is reported of them. */
module Samples {
  import opened Bytes
  import opened Options
  import Wire = Frames
  import Parser = PacketParsing
  import Dns = DnsNames
  import Sni = SniExtraction

  // ----- Frames

  const TCP_LINK: Word := [1, 2, 3, 4, 5, 6, 7, 8, 9, 10, 11, 12, 0x88, 0xA8, 0, 5, 0x81, 0x00, 0, 7, 0x08, 0x00]
  const TCP_IP: Word := [0x46, 3, 0, 51, 1, 2, 0x40, 0, 64, 6, 7, 8, 10, 0, 0, 1, 192, 168, 1, 2, 1, 1, 1, 0]
  const TCP_PORTS: Word :=
    [0x12, 0x34, 0x01, 0xBB, 1, 2, 3, 4, 5, 6, 7, 8, 0x6F, 24, 1, 0, 2, 0, 3, 0, 1, 1, 1, 1]

  /** From 10.0.0.1:4660 to 192.168.1.2:443, with two VLAN tags, both kinds of options, and padding. */
  const TCP_FRAME := TCP_LINK + TCP_IP + TCP_PORTS + [71, 69, 84] + [0, 0]

  const TCP_HEADERS := Wire.Frame(
    [1, 2, 3, 4, 5, 6, 7, 8, 9, 10, 11, 12], [Wire.Tag(0x88A8, [0, 5]), Wire.Tag(0x8100, [0, 7])],
    Wire.Ipv4(4, 3, 51, 0x0102, Wire.FragmentField(1, false, 0), 64, 6, [7, 8], 0x0A00_0001, 0xC0A8_0102, [1, 1, 1, 0]),
    Wire.Tcp(0x1234, 443, [1, 2, 3, 4, 5, 6, 7, 8], 15, 24, [1, 0, 2, 0, 3, 0], [1, 1, 1, 1]),
    [71, 69, 84], [0, 0])

  lemma {:induction false} TcpLink()
    ensures Wire.EncodeLink(TCP_HEADERS.addresses, TCP_HEADERS.tags) == TCP_LINK
  {
    TwoTags(Wire.Tag(0x88A8, [0, 5]), Wire.Tag(0x8100, [0, 7]));
  }

  lemma {:induction false} TcpIp()
    ensures Wire.EncodeIpv4(TCP_HEADERS.ip) == TCP_IP
  {
  }

  lemma {:induction false} TcpPorts()
    ensures Wire.EncodeTransport(TCP_HEADERS.transport) == TCP_PORTS
  {
  }

  lemma {:induction false} TcpFrame()
    ensures Parser.Parse(TCP_FRAME) ==
              Some(Parser.Packet(0x0A00_0001, 0xC0A8_0102, 0x1234, 443, 6, 24, 0x0102, 0, false, [71, 69, 84]))
  {
    TcpLink();
    TcpIp();
    TcpPorts();
    Written(TCP_HEADERS, TCP_FRAME);
  }

  /** The report of a frame that is what the writer makes of f. */
  lemma {:induction false} Written(f: Wire.Frame, raw: Word)
    requires Wire.Valid(f) && Wire.Wire(f) == raw
    ensures Parser.Parse(raw) == Some(Parser.Meaning(f))
  {
    Parser.ParserInvertsWriter(f);
  }

  lemma {:induction false} TwoTags(a: Wire.Tag, b: Wire.Tag)
    ensures Wire.EncodeTags([a, b]) == Write16(a.kind) + a.control + (Write16(b.kind) + b.control)
  {
    assert [a, b][1..] == [b] && [b][1..] == [];
    assert Wire.EncodeTags([b]) == Write16(b.kind) + b.control;
  }

  const UDP_LINK: Word := [1, 2, 3, 4, 5, 6, 7, 8, 9, 10, 11, 12, 0x08, 0x00]
  const UDP_IP: Word := [0x95, 0, 0x13, 0x88, 0, 9, 0x21, 5, 0, 17, 7, 8, 1, 2, 3, 4, 5, 6, 7, 8]
  const UDP_PORTS: Word := [0, 53, 0x12, 0x34, 9, 9, 0, 0]

  /**
   A UDP datagram from port 53, a fragment by its header: more to come, at eight times 261. Its version is
   9, its total length goes beyond the capture, and its UDP length is wrong; none of that is looked at.
   */
  const UDP_FRAME := UDP_LINK + UDP_IP + UDP_PORTS + [5, 6]

  const UDP_HEADERS := Wire.Frame(
    [1, 2, 3, 4, 5, 6, 7, 8, 9, 10, 11, 12], [],
    Wire.Ipv4(9, 0, 5000, 9, Wire.FragmentField(0, true, 261), 0, 17, [7, 8], 0x0102_0304, 0x0506_0708, []),
    Wire.Udp(53, 0x1234, [9, 9, 0, 0]), [5, 6], [])

  lemma {:induction false} UdpHeaders()
    ensures Wire.EncodeLink(UDP_HEADERS.addresses, UDP_HEADERS.tags) == UDP_LINK
    ensures Wire.EncodeTransport(UDP_HEADERS.transport) == UDP_PORTS
  {
  }

  lemma {:induction false} UdpIp()
    ensures Wire.EncodeIpv4(UDP_HEADERS.ip) == UDP_IP
  {
  }

  lemma {:induction false} UdpFrame()
    ensures Parser.Parse(UDP_FRAME) ==
              Some(Parser.Packet(0x0102_0304, 0x0506_0708, 53, 0x1234, 17, 0, 9, 261, true, [5, 6]))
  {
    UdpHeaders();
    UdpIp();
    assert UDP_FRAME + [] == UDP_FRAME;
    Written(UDP_HEADERS, UDP_FRAME);
  }

  // ----- Names

  /** Two questions, www.ab and m.ab, the second by a pointer into the first. */
  const DNS_MESSAGE: Word :=
    [0, 1, 0x81, 0x80, 0, 2, 0, 3, 0, 0, 0, 0,
     3, 119, 119, 119, 2, 97, 98, 0, 0, 1, 0, 1,
     1, 109, 192, 16, 0, 28, 0, 9]

  lemma {:induction false} FirstName()
    ensures Dns.Decode(DNS_MESSAGE, 12, 16) == Some(Dns.Label([119, 119, 119], Dns.Label([97, 98], Dns.Root)))
    ensures Dns.Encoded(DNS_MESSAGE, 16, Dns.Label([97, 98], Dns.Root))
  {
    var msg, ab := DNS_MESSAGE, Dns.Label([97, 98], Dns.Root);
    assert msg[13] == 119 && msg[14] == 119 && msg[15] == 119 && msg[17] == 97 && msg[18] == 98;
    assert msg[13..16] == [119, 119, 119];
    assert msg[17..19] == [97, 98];
    assert Dns.Encoded(msg, 19, Dns.Root);
    assert Dns.Encoded(msg, 16, ab);
    Dns.DecodeComplete(msg, 12, 16, Dns.Label([119, 119, 119], ab));
  }

  lemma {:induction false} PointerRead(msg: Word, n: Dns.Name)
    requires |msg| == 32 && msg[24] == 1 && msg[25] == 109 && msg[26] == 192 && msg[27] == 16
    requires Dns.Encoded(msg, 16, n) && Dns.Jumps(n) == 0
    ensures Dns.Decode(msg, 24, 16) == Some(Dns.Label([109], Dns.Jump(16, n)))
  {
    assert msg[25..26] == [109];
    assert Dns.Encoded(msg, 26, Dns.Jump(16, n));
    Dns.DecodeComplete(msg, 24, 16, Dns.Label([109], Dns.Jump(16, n)));
  }

  lemma {:induction false} SecondName()
    ensures Dns.Decode(DNS_MESSAGE, 24, 16) == Some(Dns.Label([109], Dns.Jump(16, Dns.Label([97, 98], Dns.Root))))
  {
    FirstName();
    PointerRead(DNS_MESSAGE, Dns.Label([97, 98], Dns.Root));
  }

  const FIRST_NAME := Dns.Label([119, 119, 119], Dns.Label([97, 98], Dns.Root))
  const SECOND_NAME := Dns.Label([109], Dns.Jump(16, Dns.Label([97, 98], Dns.Root)))

  lemma {:induction false} Texts()
    ensures Dns.Text(Dns.Labels(FIRST_NAME)) == [119, 119, 119, 46, 97, 98] && Dns.EndOf(12, FIRST_NAME) == 20
    ensures Dns.Text(Dns.Labels(SECOND_NAME)) == [109, 46, 97, 98] && Dns.EndOf(24, SECOND_NAME) == 28
  {
    TwoLabels([119, 119, 119], [97, 98]);
    TwoLabels([109], [97, 98]);
  }

  lemma {:induction false} Fields()
    ensures |DNS_MESSAGE| == 32 && Read16(DNS_MESSAGE, 4) == 2
    ensures Read16(DNS_MESSAGE, 20) == 1 && Read16(DNS_MESSAGE, 28) == 28
  {
  }

  lemma {:induction false} TwoQuestions(msg: Word)
    requires |msg| == 32 && Read16(msg, 4) == 2 && Read16(msg, 20) == 1 && Read16(msg, 28) == 28
    requires Dns.Decode(msg, 12, 16) == Some(FIRST_NAME) && Dns.Decode(msg, 24, 16) == Some(SECOND_NAME)
    ensures Dns.Queries(msg) == [Dns.Query([119, 119, 119, 46, 97, 98], 1), Dns.Query([109, 46, 97, 98], 28)]
  {
    Texts();
    assert Dns.Questions(msg, 32, 0) == [];
    assert Dns.Questions(msg, 24, 1) == [Dns.Query([109, 46, 97, 98], 28)] + Dns.Questions(msg, 32, 0);
    assert Dns.Questions(msg, 12, 2) == [Dns.Query([119, 119, 119, 46, 97, 98], 1)] + Dns.Questions(msg, 24, 1);
  }

  lemma {:induction false} DnsMessage()
    ensures Dns.Queries(DNS_MESSAGE) ==
              [Dns.Query([119, 119, 119, 46, 97, 98], 1), Dns.Query([109, 46, 97, 98], 28)]
  {
    FirstName();
    SecondName();
    Fields();
    TwoQuestions(DNS_MESSAGE);
  }

  lemma {:induction false} TwoLabels(a: Word, b: Word)
    ensures Dns.Text([a, b]) == a + [46] + b
    ensures Dns.Labels(Dns.Label(a, Dns.Label(b, Dns.Root))) == [a, b]
    ensures forall t :: Dns.Labels(Dns.Label(a, Dns.Jump(t, Dns.Label(b, Dns.Root)))) == [a, b]
  {
    assert Dns.Labels(Dns.Label(b, Dns.Root)) == [b];
  }

  // ----- Server names

  /**
   A ClientHello with one other extension and the server name a.io. The lengths of the record, of all
   extensions, of the server name extension and of its list are wrong, as is the name's type.
   */
  function ClientHello(): Word
  {
    [0x16, 9, 9, 9, 9, 0x01] + seq(37, _ => 0) + [1, 9, 0, 2, 0x13, 0x01, 1, 0, 0xEA, 0x60]
    + [0, 10, 0, 2, 1, 1] + [0, 0, 8, 8, 7, 7, 7, 0, 4, 97, 46, 105, 111]
  }

  lemma {:induction false} HelloNamed()
    ensures Sni.ServerName(ClientHello()) == [97, 46, 105, 111]
  {
    var other := Sni.Extension(10, [1, 1]);
    var m := Sni.Hello([9, 9, 9, 9], seq(37, _ => 0), [9], [0x13, 0x01], [0], 60000, [other],
                       [8, 8], [7, 7, 7], [97, 46, 105, 111], []);
    assert [other][1..] == [];
    assert Sni.EncodeExtensions([other]) == [0, 10, 0, 2, 1, 1];
    assert Sni.EncodeName(m) == [0, 0, 8, 8, 7, 7, 7, 0, 4, 97, 46, 105, 111];
    assert Sni.EncodeHead(m) == [0x16, 9, 9, 9, 9, 0x01] + seq(37, _ => 0);
    assert Sni.EncodeParts(m) + Write16(m.total) == [1, 9, 0, 2, 0x13, 0x01, 1, 0, 0xEA, 0x60];
    assert Sni.EncodeHello(m) == ClientHello();
    Sni.ExtractorInvertsWriter(m);
  }
}
