/**
 Names in a DNS message: what it means for a name to be written at an offset, with compression
 pointers (sections 3.1 and 4.1.4 of RFC 1035), and when such a name can be read.
 */
module DnsNames {
  import opened Bytes
  import opened Options

  const MAX_COMPRESSION_JUMPS := 16
  const MAX_QUESTIONS := 64
  const HEADER_SIZE := 12
  const DOT: Byte := 46

  /** A name as it is laid out: its labels, and the pointers followed between them. */
  datatype Name = Root | Label(bytes: Word, rest: Name) | Jump(target: nat, rest: Name)

  /** The name n is written in msg at off. */
  ghost predicate Encoded(msg: Word, off: nat, n: Name)
    decreases n
  {
    match n
    case Root => off < |msg| && msg[off] == 0
    case Label(b, rest) =>
      && off + 1 + |b| <= |msg| && 1 <= |b| <= 63
      && msg[off] as int == |b| && msg[off + 1..off + 1 + |b|] == b
      && Encoded(msg, off + 1 + |b|, rest)
    case Jump(target, rest) =>
      && off + 1 < |msg| && msg[off] >= 192
      && target == Pointer(msg, off) < |msg|
      && Encoded(msg, target, rest)
  }

  /** The fourteen low bits of the two bytes at off. */
  function Pointer(msg: Word, off: nat): nat
    requires off + 1 < |msg| && msg[off] >= 192
  {
    (msg[off] as int - 192) * 256 + msg[off + 1]
  }

  function Jumps(n: Name): nat
  {
    match n
    case Root => 0
    case Label(_, rest) => Jumps(rest)
    case Jump(_, rest) => 1 + Jumps(rest)
  }

  function Labels(n: Name): seq<Word>
  {
    match n
    case Root => []
    case Label(b, rest) => [b] + Labels(rest)
    case Jump(_, rest) => Labels(rest)
  }

  /** The offset just past the name as encoded: past the first pointer, if there is one. */
  function EndOf(off: nat, n: Name): nat
    decreases n
  {
    match n
    case Root => off + 1
    case Label(b, rest) => EndOf(off + 1 + |b|, rest)
    case Jump(_, _) => off + 2
  }

  /** The labels joined by dots. */
  function Text(labels: seq<Word>): Word
  {
    if labels == [] then []
    else if |labels| == 1 then labels[0]
    else labels[0] + [DOT] + Text(labels[1..])
  }

  /** What appending the labels one by one makes of a text already begun. */
  function Append(text: Word, labels: seq<Word>): Word
    decreases |labels|
  {
    if labels == [] then text
    else Append((if text != [] then text + [DOT] else text) + labels[0], labels[1..])
  }

  lemma {:induction false} AppendIsText(text: Word, labels: seq<Word>)
    requires forall i :: 0 <= i < |labels| ==> labels[i] != []
    ensures Append(text, labels) ==
              if labels == [] then text else if text == [] then Text(labels) else text + [DOT] + Text(labels)
    decreases |labels|
  {
    if labels != [] {
      var begun := if text != [] then text + [DOT] else text;
      var next := begun + labels[0];
      assert next != [];
      AppendIsText(next, labels[1..]);
      if |labels| > 1 {
        assert next + [DOT] + Text(labels[1..]) == begun + (labels[0] + [DOT] + Text(labels[1..]));
      }
    }
  }

  // ----- Reading

  /** Reads the name at off, following at most jumps pointers. */
  function Decode(msg: Word, off: nat, jumps: nat): Option<Name>
    decreases jumps, if off < |msg| then |msg| - off else 0
  {
    if off >= |msg| then None
    else if msg[off] >= 192 then
      if off + 1 >= |msg| || jumps == 0 || Pointer(msg, off) >= |msg| then None
      else
        match Decode(msg, Pointer(msg, off), jumps - 1)
        case None => None
        case Some(n) => Some(Jump(Pointer(msg, off), n))
    else if msg[off] == 0 then Some(Root)
    else if msg[off] > 63 || off + 1 + msg[off] as int > |msg| then None
    else
      var len := msg[off] as int;
      match Decode(msg, off + 1 + len, jumps)
      case None => None
      case Some(n) => Some(Label(msg[off + 1..off + 1 + len], n))
  }

  /** Reading succeeds with n exactly when n is written there and needs no more pointers than allowed. */
  lemma {:induction false} DecodeSound(msg: Word, off: nat, jumps: nat)
    ensures Decode(msg, off, jumps).Some? ==>
              Encoded(msg, off, Decode(msg, off, jumps).value) && Jumps(Decode(msg, off, jumps).value) <= jumps
    decreases jumps, if off < |msg| then |msg| - off else 0
  {
    if off < |msg| {
      if msg[off] >= 192 {
        if off + 1 < |msg| && jumps > 0 && Pointer(msg, off) < |msg| {
          DecodeSound(msg, Pointer(msg, off), jumps - 1);
        }
      } else if 0 < msg[off] <= 63 && off + 1 + msg[off] as int <= |msg| {
        DecodeSound(msg, off + 1 + msg[off] as int, jumps);
      }
    }
  }

  lemma {:induction false} DecodeComplete(msg: Word, off: nat, jumps: nat, n: Name)
    requires Encoded(msg, off, n) && Jumps(n) <= jumps
    ensures Decode(msg, off, jumps) == Some(n)
    decreases n
  {
    match n
    case Root =>
    case Label(b, rest) => DecodeComplete(msg, off + 1 + |b|, jumps, rest);
    case Jump(target, rest) => DecodeComplete(msg, target, jumps - 1, rest);
  }

  /** A name can be read exactly when one is written at off that needs at most sixteen pointers. */
  lemma ReadableIff(msg: Word, off: nat)
    ensures Decode(msg, off, MAX_COMPRESSION_JUMPS).Some? <==> exists n :: Encoded(msg, off, n) && Jumps(n) <= 16
    ensures forall n :: Encoded(msg, off, n) && Jumps(n) <= 16 ==>
              Decode(msg, off, MAX_COMPRESSION_JUMPS) == Some(n)
  {
    DecodeSound(msg, off, MAX_COMPRESSION_JUMPS);
    forall n | Encoded(msg, off, n) && Jumps(n) <= MAX_COMPRESSION_JUMPS
      ensures Decode(msg, off, MAX_COMPRESSION_JUMPS) == Some(n)
    {
      DecodeComplete(msg, off, MAX_COMPRESSION_JUMPS, n);
    }
  }

  /** A message holds at most one name at an offset. */
  lemma EncodedUnique(msg: Word, off: nat, m: Name, n: Name)
    requires Encoded(msg, off, m) && Encoded(msg, off, n)
    ensures m == n
  {
    var jumps := if Jumps(m) < Jumps(n) then Jumps(n) else Jumps(m);
    DecodeComplete(msg, off, jumps, m);
    DecodeComplete(msg, off, jumps, n);
  }

  lemma {:induction false} LabelsNonempty(msg: Word, off: nat, n: Name)
    requires Encoded(msg, off, n)
    ensures forall i :: 0 <= i < |Labels(n)| ==> Labels(n)[i] != []
    decreases n
  {
    match n
    case Root =>
    case Label(b, rest) => LabelsNonempty(msg, off + 1 + |b|, rest);
    case Jump(target, rest) => LabelsNonempty(msg, target, rest);
  }

  // ----- The question section

  datatype Query = Query(domain: Word, qtype: nat)

  /** The questions from off on, as far as they can be read. */
  function Questions(msg: Word, off: nat, count: nat): seq<Query>
    decreases count
  {
    if count == 0 then []
    else
      match Decode(msg, off, MAX_COMPRESSION_JUMPS)
      case None => []
      case Some(n) =>
        var end := EndOf(off, n);
        if end + 4 > |msg| then []
        else [Query(Text(Labels(n)), Read16(msg, end))] + Questions(msg, end + 4, count - 1)
  }

  function Queries(msg: Word): seq<Query>
  {
    if |msg| < HEADER_SIZE then []
    else
      var count := Read16(msg, 4);
      if count == 0 || count > MAX_QUESTIONS then [] else Questions(msg, HEADER_SIZE, count)
  }

  /** The question at off can be read in full. */
  predicate QuestionReadable(msg: Word, off: nat)
  {
    var d := Decode(msg, off, MAX_COMPRESSION_JUMPS);
    d.Some? && EndOf(off, d.value) + 4 <= |msg|
  }

  /** Where the question after the one at off starts. */
  function NextQuestion(msg: Word, off: nat): nat
    requires QuestionReadable(msg, off)
  {
    EndOf(off, Decode(msg, off, MAX_COMPRESSION_JUMPS).value) + 4
  }

  /** The n questions from off on can all be read. */
  predicate ReadableRun(msg: Word, off: nat, n: nat)
    decreases n
  {
    n == 0 || (QuestionReadable(msg, off) && ReadableRun(msg, NextQuestion(msg, off), n - 1))
  }

  lemma {:induction false} LongestRun(msg: Word, off: nat, count: nat)
    ensures var n := |Questions(msg, off, count)|;
            n <= count && ReadableRun(msg, off, n) && (n < count ==> !ReadableRun(msg, off, n + 1))
    decreases count
  {
    if count > 0 && QuestionReadable(msg, off) {
      LongestRun(msg, NextQuestion(msg, off), count - 1);
    }
  }

  lemma {:induction false} ShorterRun(msg: Word, off: nat, m: nat, n: nat)
    requires m <= n && ReadableRun(msg, off, n)
    ensures ReadableRun(msg, off, m)
    decreases m
  {
    if m > 0 {
      ShorterRun(msg, NextQuestion(msg, off), m - 1, n - 1);
    }
  }

  /** The header is whole and announces a number of questions that the parser takes on. */
  predicate Announces(msg: Word)
  {
    |msg| >= HEADER_SIZE && 1 <= Read16(msg, 4) <= MAX_QUESTIONS
  }

  /** Some announced question cannot be read. */
  predicate Malformed(msg: Word)
  {
    Announces(msg) && !ReadableRun(msg, HEADER_SIZE, Read16(msg, 4))
  }

  /** As many questions are reported as can be read in a row: all those announced unless the message is malformed. */
  lemma {:induction false} ReportedCount(msg: Word)
    requires Announces(msg)
    ensures var n := |Queries(msg)|;
            && (forall m :: 0 <= m <= Read16(msg, 4) ==> (ReadableRun(msg, HEADER_SIZE, m) <==> m <= n))
            && (n < Read16(msg, 4) <==> Malformed(msg))
  {
    var n := |Queries(msg)|;
    LongestRun(msg, HEADER_SIZE, Read16(msg, 4));
    forall m | 0 <= m <= Read16(msg, 4) ensures ReadableRun(msg, HEADER_SIZE, m) <==> m <= n {
      if m <= n {
        ShorterRun(msg, HEADER_SIZE, m, n);
      } else if ReadableRun(msg, HEADER_SIZE, m) {
        ShorterRun(msg, HEADER_SIZE, n + 1, m);
      }
    }
  }

  /**
   The promise that a malformed message gives an empty result is kept exactly by those malformed
   messages whose first question is among the unreadable ones.
   */
  lemma {:induction false} PromiseKeptIff(msg: Word)
    requires Malformed(msg)
    ensures Queries(msg) == [] <==> !QuestionReadable(msg, HEADER_SIZE)
  {
    ReportedCount(msg);
    assert ReadableRun(msg, HEADER_SIZE, 1) <==> QuestionReadable(msg, HEADER_SIZE);
  }

  /** Nothing is reported exactly when the header rules it out or the first question is unreadable. */
  lemma {:induction false} NothingReportedIff(msg: Word)
    ensures Queries(msg) == [] <==>
              |msg| < 12 || Read16(msg, 4) == 0 || Read16(msg, 4) > 64 || !QuestionReadable(msg, 12)
  {
  }

  /** A message that announces two questions and breaks off after the first still reports the first. */
  lemma MalformedYetReported()
    ensures exists msg: Word :: |msg| == 17 && Malformed(msg) && Queries(msg) == [Query([], 1)]
  {
    var msg: Word := [0, 0, 0, 0, 0, 2, 0, 0, 0, 0, 0, 0, 0, 0, 1, 0, 1];
    assert Decode(msg, 12, 16) == Some(Root);
    assert Questions(msg, 17, 1) == [];
    assert QuestionReadable(msg, 12) && NextQuestion(msg, 12) == 17 && !ReadableRun(msg, 17, 1);
    assert Questions(msg, 12, 2) == [Query(Text(Labels(Root)), Read16(msg, 13))] + Questions(msg, 17, 1);
  }
}
