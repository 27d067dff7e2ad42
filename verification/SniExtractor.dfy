/**
 The server name of a TLS ClientHello (section 3 of RFC 6066): the walk through its length-prefixed
 parts, and the messages in which a name is found.
 */
module SniExtraction {
  import opened Bytes
  import opened Layout
  import opened Options

  const HANDSHAKE: Byte := 22
  const CLIENT_HELLO: Byte := 1
  const SERVER_NAME := 0
  const SESSION_ID := 43

  // ----- Messages

  datatype Extension = Extension(kind: OtherKind, body: ShortBytes)
  type OtherKind = n: nat | n < 0x1_0000 && n != SERVER_NAME witness 1
  type ShortBytes = w: Word | |w| < 0x1_0000
  type TinyBytes = w: Word | |w| < 256
  type ThreeBytes = w: Word | |w| == 3 witness [0, 0, 0]
  type Filler = w: Word | |w| == 37 witness seq(37, _ => 0)

  /**
   A ClientHello up to its server name, and whatever comes after. The extractor looks neither at the
   record and handshake headers beyond their types, nor at the version and random, nor at the lengths
   of the server name extension and of its list, nor at the name's type.
   */
  datatype Hello = Hello(
    record: FourBytes, handshake: Filler, session: TinyBytes, ciphers: ShortBytes, compression: TinyBytes,
    total: Half, before: seq<Extension>, extensionLength: TwoBytes, list: ThreeBytes, host: ShortBytes, after: Word)

  function EncodeExtensions(es: seq<Extension>): Word
  {
    if es == [] then []
    else Write16(es[0].kind) + Write16(|es[0].body|) + es[0].body + EncodeExtensions(es[1..])
  }

  /** The server name extension, as far as its first name. */
  function EncodeName(m: Hello): Word
  {
    NameBytes(m.extensionLength, m.list, m.host)
  }

  function NameBytes(extensionLength: TwoBytes, list: ThreeBytes, host: ShortBytes): Word
  {
    Write16(SERVER_NAME) + extensionLength + list + Write16(|host|) + host
  }

  function EncodeHead(m: Hello): (w: Word)
    ensures |w| == SESSION_ID
  {
    [HANDSHAKE] + m.record + [CLIENT_HELLO] + m.handshake
  }

  /** The three parts that give their own lengths. */
  function EncodeParts(m: Hello): Word
  {
    [|m.session|] + m.session + (Write16(|m.ciphers|) + m.ciphers) + ([|m.compression|] + m.compression)
  }

  function EncodeHello(m: Hello): Word
  {
    EncodeHead(m) + EncodeParts(m) + Write16(m.total) + EncodeExtensions(m.before) + EncodeName(m) + m.after
  }

  /** The extensions block reaches at least to the end of the name. */
  predicate NameInside(m: Hello)
  {
    |EncodeExtensions(m.before)| + |EncodeName(m)| <= m.total
  }

  // ----- The walk

  /** The name found in the extensions between off and end; empty when there is none. */
  function FindName(w: Word, off: nat, end: nat): Word
    requires end <= |w|
    decreases end - off
  {
    if off + 4 > end then []
    else if Read16(w, off) == SERVER_NAME then
      if off + 9 > end || off + 9 + Read16(w, off + 7) > end then [] else w[off + 9..off + 9 + Read16(w, off + 7)]
    else FindName(w, off + 4 + Read16(w, off + 2), end)
  }

  /** Past a part with a one-byte length in front. */
  function PastTiny(w: Word, off: nat): (past: nat)
    requires off < |w|
    ensures past > off
  {
    off + 1 + w[off] as int
  }

  /** Past a part with a two-byte length in front. */
  function PastShort(w: Word, off: nat): (past: nat)
    requires off + 2 <= |w|
    ensures past >= off + 2
  {
    off + 2 + Read16(w, off)
  }

  /** Where the extensions' total length stands, if the parts before it can be stepped over. */
  function BlockAt(w: Word): Option<nat>
    requires |w| > SESSION_ID
  {
    var ciphers := PastTiny(w, SESSION_ID);
    if ciphers + 2 > |w| then None
    else
      var compression := PastShort(w, ciphers);
      if compression >= |w| then None else Some(PastTiny(w, compression))
  }

  function BlockEnd(w: Word, off: nat): (end: nat)
    requires off + 2 <= |w|
    ensures end <= |w|
  {
    var end := PastShort(w, off);
    if end > |w| then |w| else end
  }

  function ServerName(w: Word): Word
  {
    if |w| <= SESSION_ID || w[0] != HANDSHAKE || w[5] != CLIENT_HELLO then []
    else
      match BlockAt(w)
      case None => []
      case Some(off) => if off + 2 > |w| then [] else FindName(w, off + 2, BlockEnd(w, off))
  }

  method ExtractSni(payload: Word) returns (name: Word)
    ensures name == ServerName(payload)
  {
    if |payload| < 5 || payload[0] != HANDSHAKE {
      return [];
    }
    if |payload| < 9 || payload[5] != CLIENT_HELLO {
      return [];
    }
    var offset := SESSION_ID;
    if offset >= |payload| {
      return [];
    }
    offset := PastTiny(payload, offset);
    if offset + 2 > |payload| {
      return [];
    }
    offset := PastShort(payload, offset);
    if offset >= |payload| {
      return [];
    }
    offset := PastTiny(payload, offset);
    if offset + 2 > |payload| {
      return [];
    }
    var end := PastShort(payload, offset);
    offset := offset + 2;
    if end > |payload| {
      end := |payload|;
    }
    name := SearchExtensions(payload, offset, end);
  }

  /** The extractor's loop over the extensions. */
  method SearchExtensions(payload: Word, start: nat, end: nat) returns (name: Word)
    requires end <= |payload|
    ensures name == FindName(payload, start, end)
  {
    var offset := start;
    while offset + 4 <= end
      invariant 0 <= offset
      invariant FindName(payload, offset, end) == FindName(payload, start, end)
      decreases end - offset
    {
      var kind, length := Read16(payload, offset), Read16(payload, offset + 2);
      offset := offset + 4;
      if kind == SERVER_NAME {
        if offset + 5 > end {
          return [];
        }
        var nameLength := Read16(payload, offset + 3);
        offset := offset + 5;
        if offset + nameLength <= end {
          return payload[offset..offset + nameLength];
        }
        return [];
      }
      offset := offset + length;
    }
    return [];
  }

  // ----- What the walk finds

  lemma {:induction false} NameFound(w: Word, off: nat, end: nat, m: Hello)
    requires end <= |w| && off + |EncodeName(m)| <= end && Holds(w, off, EncodeName(m))
    ensures FindName(w, off, end) == m.host
  {
    var kind, length := Write16(SERVER_NAME), Write16(|m.host|);
    HoldsParts(w, off, kind + m.extensionLength + m.list + length, m.host);
    HoldsParts(w, off, kind + m.extensionLength + m.list, length);
    HoldsThree(w, off, kind, m.extensionLength, m.list);
    FieldRead(w, off, kind);
    FieldRead(w, off + 7, length);
    HoldsSlice(w, off + 9, m.host);
  }

  /** Other extensions in front are stepped over. */
  lemma {:induction false} OthersSkipped(w: Word, off: nat, end: nat, es: seq<Extension>)
    requires end <= |w| && off + |EncodeExtensions(es)| <= end && Holds(w, off, EncodeExtensions(es))
    ensures FindName(w, off, end) == FindName(w, off + |EncodeExtensions(es)|, end)
    decreases |es|
  {
    if es != [] {
      var kind, length, rest := Write16(es[0].kind), Write16(|es[0].body|), EncodeExtensions(es[1..]);
      HoldsParts(w, off, kind + length + es[0].body, rest);
      HoldsThree(w, off, kind, length, es[0].body);
      FieldRead(w, off, kind);
      FieldRead(w, off + 2, length);
      OthersSkipped(w, off + 4 + |es[0].body|, end, es[1..]);
    }
  }

  lemma {:induction false} HeadWritten(w: Word, m: Hello)
    requires Holds(w, 0, EncodeHead(m))
    ensures |w| >= SESSION_ID && w[0] == HANDSHAKE && w[5] == CLIENT_HELLO
  {
    var head := EncodeHead(m);
    assert head[0] == HANDSHAKE && head[5] == CLIENT_HELLO;
    assert w[0 + 0] == head[0] && w[0 + 5] == head[5];
  }

  lemma {:induction false} PartsWritten(w: Word, m: Hello)
    requires Holds(w, SESSION_ID, EncodeParts(m)) && SESSION_ID + |EncodeParts(m)| < |w|
    ensures BlockAt(w) == Some(SESSION_ID + |EncodeParts(m)|)
  {
    var session, ciphers, compression :=
      [|m.session|] + m.session, Write16(|m.ciphers|) + m.ciphers, [|m.compression|] + m.compression;
    HoldsThree(w, SESSION_ID, session, ciphers, compression);
    assert w[SESSION_ID + 0] == session[0];
    HoldsParts(w, SESSION_ID + |session|, Write16(|m.ciphers|), m.ciphers);
    FieldRead(w, SESSION_ID + |session|, Write16(|m.ciphers|));
    assert w[SESSION_ID + |session| + |ciphers| + 0] == compression[0];
  }

  lemma {:induction false} ExtensionsWritten(w: Word, off: nat, m: Hello)
    requires NameInside(m) && Holds(w, off, Write16(m.total)) && Holds(w, off + 2, EncodeExtensions(m.before))
    requires Holds(w, off + 2 + |EncodeExtensions(m.before)|, EncodeName(m))
    ensures FindName(w, off + 2, BlockEnd(w, off)) == m.host
  {
    FieldRead(w, off, Write16(m.total));
    OthersSkipped(w, off + 2, BlockEnd(w, off), m.before);
    NameFound(w, off + 2 + |EncodeExtensions(m.before)|, BlockEnd(w, off), m);
  }

  /** A message that starts as m does, up to the end of its name. */
  lemma {:induction false} HelloWritten(w: Word, m: Hello)
    requires NameInside(m)
    requires Holds(w, 0, EncodeHead(m) + EncodeParts(m) + Write16(m.total) + EncodeExtensions(m.before) + EncodeName(m))
    ensures ServerName(w) == m.host
  {
    var front := EncodeHead(m) + EncodeParts(m) + Write16(m.total);
    HoldsThree(w, 0, front, EncodeExtensions(m.before), EncodeName(m));
    HoldsThree(w, 0, EncodeHead(m), EncodeParts(m), Write16(m.total));
    HeadWritten(w, m);
    PartsWritten(w, m);
    ExtensionsWritten(w, SESSION_ID + |EncodeParts(m)|, m);
  }

  /** The extractor returns the host that was written, whatever extensions precede it. */
  lemma {:induction false} ExtractorInvertsWriter(m: Hello)
    requires NameInside(m)
    ensures ServerName(EncodeHello(m)) == m.host
  {
    HoldsFront(EncodeHead(m) + EncodeParts(m) + Write16(m.total) + EncodeExtensions(m.before) + EncodeName(m), m.after);
    HelloWritten(EncodeHello(m), m);
  }

  // ----- A name is found only there

  /** The walk has reached a server name extension. */
  lemma {:induction false} NameHere(w: Word, off: nat, end: nat)
    returns (extensionLength: TwoBytes, list: ThreeBytes, host: ShortBytes, rest: Word)
    requires end <= |w| && FindName(w, off, end) != [] && Read16(w, off) == SERVER_NAME
    ensures host == FindName(w, off, end) && off + |NameBytes(extensionLength, list, host)| <= end
    ensures w[off..] == EncodeExtensions([]) + (NameBytes(extensionLength, list, host) + rest)
  {
    extensionLength, list, host := w[off + 2..off + 4], w[off + 4..off + 7], FindName(w, off, end);
    rest := w[off + 9 + |host|..];
    WriteRead16(w, off);
    WriteRead16(w, off + 7);
    FourPieces(w, off, off + 2, off + 4, off + 7);
    FourPieces(w, off + 7, off + 9, off + 9 + |host|, off + 9 + |host|);
  }

  /** The walk has reached another extension, and goes on behind it. */
  lemma {:induction false} WalkOn(w: Word, off: nat, end: nat)
    requires end <= |w| && FindName(w, off, end) != [] && Read16(w, off) != SERVER_NAME
    ensures off + 4 + Read16(w, off + 2) <= end
    ensures FindName(w, off, end) == FindName(w, off + 4 + Read16(w, off + 2), end)
  {
  }

  lemma {:induction false} ExtensionRead(w: Word, off: nat, more: seq<Extension>, rest: Word)
    returns (all: seq<Extension>)
    requires off + 4 <= |w| && Read16(w, off) != SERVER_NAME && off + 4 + Read16(w, off + 2) <= |w|
    requires w[off + 4 + Read16(w, off + 2)..] == EncodeExtensions(more) + rest
    ensures w[off..] == EncodeExtensions(all) + rest
    ensures |EncodeExtensions(all)| == 4 + Read16(w, off + 2) + |EncodeExtensions(more)|
  {
    var next := off + 4 + Read16(w, off + 2);
    var e := Extension(Read16(w, off), w[off + 4..next]);
    all := [e] + more;
    WriteRead16(w, off);
    WriteRead16(w, off + 2);
    ExtensionFirst(e, more, rest);
    FourPieces(w, off, off + 2, off + 4, next);
  }

  lemma {:induction false} NameRead(w: Word, off: nat, end: nat)
    returns (before: seq<Extension>, extensionLength: TwoBytes, list: ThreeBytes, host: ShortBytes, rest: Word)
    requires end <= |w| && FindName(w, off, end) != []
    ensures host == FindName(w, off, end)
    ensures w[off..] == EncodeExtensions(before) + (NameBytes(extensionLength, list, host) + rest)
    ensures off + |EncodeExtensions(before)| + |NameBytes(extensionLength, list, host)| <= end
    decreases end - off
  {
    if Read16(w, off) == SERVER_NAME {
      before := [];
      extensionLength, list, host, rest := NameHere(w, off, end);
    } else {
      WalkOn(w, off, end);
      before, extensionLength, list, host, rest := NameRead(w, off + 4 + Read16(w, off + 2), end);
      before := ExtensionRead(w, off, before, NameBytes(extensionLength, list, host) + rest);
    }
  }

  lemma {:induction false} ExtensionFirst(e: Extension, more: seq<Extension>, rest: Word)
    ensures EncodeExtensions([e] + more) + rest
            == Write16(e.kind) + Write16(|e.body|) + e.body + (EncodeExtensions(more) + rest)
    ensures |EncodeExtensions([e] + more)| == 4 + |e.body| + |EncodeExtensions(more)|
  {
    assert ([e] + more)[1..] == more;
  }

  /** A slice in four pieces. */
  lemma {:induction false} FourPieces(w: Word, i: nat, j: nat, k: nat, l: nat)
    requires i <= j <= k <= l <= |w|
    ensures w[i..] == w[i..j] + w[j..k] + w[k..l] + w[l..]
  {
  }

  lemma {:induction false} PartsRead(w: Word)
    returns (session: TinyBytes, ciphers: ShortBytes, compression: TinyBytes)
    requires |w| > SESSION_ID && BlockAt(w).Some? && BlockAt(w).value <= |w|
    ensures w[SESSION_ID..BlockAt(w).value]
            == [|session|] + session + (Write16(|ciphers|) + ciphers) + ([|compression|] + compression)
  {
    var i := SESSION_ID + 1 + w[SESSION_ID] as int;
    var j := i + 2 + Read16(w, i);
    var k := j + 1 + w[j] as int;
    session, ciphers, compression := w[SESSION_ID + 1..i], w[i + 2..j], w[j + 1..k];
    WriteRead16(w, i);
    Between(w, SESSION_ID, SESSION_ID + 1, i);
    Between(w, i, i + 2, j);
    Between(w, j, j + 1, k);
    Between(w, SESSION_ID, i, j);
    Between(w, SESSION_ID, j, k);
  }

  lemma {:induction false} Between(w: Word, i: nat, j: nat, k: nat)
    requires i <= j <= k <= |w|
    ensures w[i..k] == w[i..j] + w[j..k]
  {
  }

  lemma {:induction false} HeadRead(w: Word)
    requires |w| > SESSION_ID && w[0] == HANDSHAKE && w[5] == CLIENT_HELLO
    ensures w[..SESSION_ID] == [HANDSHAKE] + w[1..5] + [CLIENT_HELLO] + w[6..SESSION_ID]
  {
  }

  /** A name that is reported stands in a ClientHello as the first name of its server name extension. */
  lemma {:induction false} OnlyHellosReported(w: Word)
    requires ServerName(w) != []
    ensures exists m :: NameInside(m) && EncodeHello(m) == w && m.host == ServerName(w)
  {
    var off := BlockAt(w).value;
    HeadRead(w);
    var session, ciphers, compression := PartsRead(w);
    WriteRead16(w, off);
    var before, extensionLength, list, host, rest := NameRead(w, off + 2, BlockEnd(w, off));
    var m := Hello(w[1..5], w[6..SESSION_ID], session, ciphers, compression, Read16(w, off), before,
                   extensionLength, list, host, rest);
    FourPieces(w, 0, SESSION_ID, off, off + 2);
    Grouping(EncodeHead(m), EncodeParts(m), Write16(m.total), EncodeExtensions(before), EncodeName(m), rest);
    assert EncodeHello(m) == w;
  }

  lemma {:induction false} Grouping(a: Word, b: Word, c: Word, d: Word, e: Word, f: Word)
    ensures a + b + c + d + e + f == a + b + c + (d + (e + f))
  {
  }

  /** A name is reported exactly for the messages that hold a non-empty one. */
  lemma ReportedIff(w: Word, host: Word)
    requires host != []
    ensures ServerName(w) == host <==> exists m :: NameInside(m) && EncodeHello(m) == w && m.host == host
  {
    forall m | NameInside(m) && EncodeHello(m) == w && m.host == host ensures ServerName(w) == host {
      ExtractorInvertsWriter(m);
    }
    if ServerName(w) == host {
      OnlyHellosReported(w);
    }
  }
}
