/**
 A writer of question sections, and the proof that the parser inverts it. A name is some labels of
 its own, followed either by the root or by a pointer to an earlier question's name, past any number
 of that name's own labels (section 4.1.4 of RFC 1035).
 */
module DnsEncoding {
  import opened Bytes
  import opened Options
  import opened Layout
  import opened DnsNames

  /** A label of legal length. */
  type DnsLabel = w: Word | 1 <= |w| <= 63 witness [0]

  /** The rest of an earlier question's name, past the first skip of its own labels. */
  datatype Suffix = Suffix(question: nat, skip: nat)

  datatype Question = Question(own: seq<DnsLabel>, tail: Option<Suffix>, qtype: TwoBytes, qclass: TwoBytes)

  function EncodeLabels(labels: seq<DnsLabel>): Word
  {
    if labels == [] then [] else [|labels[0]|] + labels[0] + EncodeLabels(labels[1..])
  }

  function NameSize(q: Question): nat
  {
    |EncodeLabels(q.own)| + (if q.tail.Some? then 2 else 1)
  }

  /** Where question i starts. */
  function Offset(qs: seq<Question>, i: nat): (off: nat)
    requires i <= |qs|
    ensures off >= HEADER_SIZE
  {
    if i == 0 then HEADER_SIZE else Offset(qs, i - 1) + NameSize(qs[i - 1]) + 4
  }

  /** Where question i's name stands without the first skip of its own labels. */
  function Target(qs: seq<Question>, i: nat, skip: nat): nat
    requires i < |qs| && skip <= |qs[i].own|
  {
    Offset(qs, i) + |EncodeLabels(qs[i].own[..skip])|
  }

  /** Pointers lead only into earlier questions; they have fourteen bits, so their targets lie below 2^14. */
  predicate PointerOk(qs: seq<Question>, i: nat)
    requires i < |qs|
  {
    match qs[i].tail
    case None => true
    case Some(t) => t.question < i && t.skip <= |qs[t.question].own| && Target(qs, t.question, t.skip) < 0x4000
  }

  predicate WellFormed(qs: seq<Question>)
  {
    forall i {:trigger PointerOk(qs, i)} :: 0 <= i < |qs| ==> PointerOk(qs, i)
  }

  function EncodeName(qs: seq<Question>, i: nat): (w: Word)
    requires WellFormed(qs) && i < |qs|
    ensures |w| == NameSize(qs[i])
  {
    var q := qs[i];
    assert PointerOk(qs, i);
    EncodeLabels(q.own) +
    if q.tail.Some? then
      var t := Target(qs, q.tail.value.question, q.tail.value.skip);
      [192 + t / 256, t % 256]
    else [0]
  }

  function EncodeQuestion(qs: seq<Question>, i: nat): (w: Word)
    requires WellFormed(qs) && i < |qs|
    ensures |w| == NameSize(qs[i]) + 4
  {
    EncodeName(qs, i) + qs[i].qtype + qs[i].qclass
  }

  function EncodeBody(qs: seq<Question>, k: nat): (w: Word)
    requires WellFormed(qs) && k <= |qs|
    ensures HEADER_SIZE + |w| == Offset(qs, k)
  {
    if k == 0 then [] else EncodeBody(qs, k - 1) + EncodeQuestion(qs, k - 1)
  }

  /** A whole message: any identifier and flags, the question count, any other counts and sections. */
  function EncodeMessage(before: Word, after: Word, qs: seq<Question>, rest: Word): Word
    requires |before| == 4 && |after| == 6 && |qs| <= MAX_QUESTIONS && WellFormed(qs)
  {
    before + Write16(|qs|) + after + EncodeBody(qs, |qs|) + rest
  }

  /** The layout of question i's name, past the first skip of its own labels. */
  function NameFrom(qs: seq<Question>, i: nat, skip: nat): Name
    requires WellFormed(qs) && i < |qs| && skip <= |qs[i].own|
    decreases i
  {
    assert PointerOk(qs, i);
    Prepend(qs[i].own[skip..],
            match qs[i].tail
            case None => Root
            case Some(t) => Jump(Target(qs, t.question, t.skip), NameFrom(qs, t.question, t.skip)))
  }

  function Prepend(labels: seq<DnsLabel>, rest: Name): Name
  {
    if labels == [] then rest else Label(labels[0], Prepend(labels[1..], rest))
  }

  /** The labels of question i's name: its own, less the first skip, and then those pointed at. */
  function Asked(qs: seq<Question>, i: nat, skip: nat): seq<Word>
    requires WellFormed(qs) && i < |qs| && skip <= |qs[i].own|
    decreases i
  {
    assert PointerOk(qs, i);
    qs[i].own[skip..] +
    match qs[i].tail
    case None => []
    case Some(t) => Asked(qs, t.question, t.skip)
  }

  /** How many pointers a reader of question i follows. */
  function Depth(qs: seq<Question>, i: nat): nat
    requires WellFormed(qs) && i < |qs|
    decreases i
  {
    assert PointerOk(qs, i);
    if qs[i].tail.Some? then 1 + Depth(qs, qs[i].tail.value.question) else 0
  }

  lemma {:induction false} PrependMeaning(labels: seq<DnsLabel>, rest: Name)
    ensures Labels(Prepend(labels, rest)) == labels + Labels(rest)
    ensures Jumps(Prepend(labels, rest)) == Jumps(rest)
  {
    if labels != [] {
      PrependMeaning(labels[1..], rest);
      assert labels + Labels(rest) == [labels[0]] + (labels[1..] + Labels(rest));
    }
  }

  lemma {:induction false} NameMeaning(qs: seq<Question>, i: nat, skip: nat)
    requires WellFormed(qs) && i < |qs| && skip <= |qs[i].own|
    ensures Labels(NameFrom(qs, i, skip)) == Asked(qs, i, skip) && Jumps(NameFrom(qs, i, skip)) == Depth(qs, i)
    decreases i
  {
    assert PointerOk(qs, i);
    match qs[i].tail
    case None => PrependMeaning(qs[i].own[skip..], Root);
    case Some(t) =>
      NameMeaning(qs, t.question, t.skip);
      PrependMeaning(qs[i].own[skip..], Jump(Target(qs, t.question, t.skip), NameFrom(qs, t.question, t.skip)));
  }

  lemma {:induction false} LabelsSplit(labels: seq<DnsLabel>, k: nat)
    requires k <= |labels|
    ensures EncodeLabels(labels) == EncodeLabels(labels[..k]) + EncodeLabels(labels[k..])
  {
    if k > 0 {
      var rest := labels[1..];
      LabelsSplit(rest, k - 1);
      assert labels[..k][1..] == rest[..k - 1] && labels[k..] == rest[k - 1..];
    }
  }

  lemma {:induction false} LabelsEncoded(msg: Word, off: nat, labels: seq<DnsLabel>, rest: Name)
    requires Holds(msg, off, EncodeLabels(labels))
    requires Encoded(msg, off + |EncodeLabels(labels)|, rest)
    ensures Encoded(msg, off, Prepend(labels, rest))
    ensures EndOf(off, Prepend(labels, rest)) == EndOf(off + |EncodeLabels(labels)|, rest)
    decreases |labels|
  {
    if labels != [] {
      var l, tail := labels[0], EncodeLabels(labels[1..]);
      HoldsParts(msg, off, [|l|] + l, tail);
      HoldsParts(msg, off, [|l|], l);
      assert msg[off + 0] == [|l|][0];
      assert msg[off + 1..off + 1 + |l|] == l;
      LabelsEncoded(msg, off + 1 + |l|, labels[1..], rest);
    }
  }

  /** Every question of the section stands at its offset. */
  ghost predicate Section(msg: Word, qs: seq<Question>)
    requires WellFormed(qs)
  {
    forall i {:trigger QuestionHeld(msg, qs, i)} :: 0 <= i < |qs| ==> QuestionHeld(msg, qs, i)
  }

  ghost predicate QuestionHeld(msg: Word, qs: seq<Question>, i: nat)
    requires WellFormed(qs) && i < |qs|
  {
    Holds(msg, Offset(qs, i), EncodeQuestion(qs, i))
  }

  /** The three parts of a question. */
  lemma {:induction false} QuestionParts(msg: Word, qs: seq<Question>, i: nat)
    requires WellFormed(qs) && i < |qs| && QuestionHeld(msg, qs, i)
    ensures Holds(msg, Offset(qs, i), EncodeName(qs, i))
    ensures Holds(msg, Offset(qs, i) + NameSize(qs[i]), qs[i].qtype)
    ensures Offset(qs, i) + NameSize(qs[i]) + 4 <= |msg|
  {
    HoldsThree(msg, Offset(qs, i), EncodeName(qs, i), qs[i].qtype, qs[i].qclass);
  }

  /** Labels that end in a pointer. */
  lemma {:induction false} PointedEncoded(msg: Word, off: nat, own: seq<DnsLabel>, t: nat, n: Name)
    requires t < 0x4000 && Holds(msg, off, EncodeLabels(own) + [192 + t / 256, t % 256]) && Encoded(msg, t, n)
    ensures Encoded(msg, off, Prepend(own, Jump(t, n)))
    ensures EndOf(off, Prepend(own, Jump(t, n))) == off + |EncodeLabels(own)| + 2
  {
    var pointer: Word := [192 + t / 256, t % 256];
    var at := off + |EncodeLabels(own)|;
    HoldsParts(msg, off, EncodeLabels(own), pointer);
    assert msg[at + 0] == pointer[0] && msg[at + 1] == pointer[1];
    LabelsEncoded(msg, off, own, Jump(t, n));
  }

  /** Labels that end at the root. */
  lemma {:induction false} PlainEncoded(msg: Word, off: nat, own: seq<DnsLabel>)
    requires Holds(msg, off, EncodeLabels(own) + [0])
    ensures Encoded(msg, off, Prepend(own, Root))
    ensures EndOf(off, Prepend(own, Root)) == off + |EncodeLabels(own)| + 1
  {
    var root: Word := [0];
    HoldsParts(msg, off, EncodeLabels(own), root);
    assert msg[off + |EncodeLabels(own)| + 0] == root[0];
    LabelsEncoded(msg, off, own, Root);
  }

  /** The part of a held name that follows its first skip labels. */
  lemma {:induction false} SuffixHeld(msg: Word, off: nat, own: seq<DnsLabel>, skip: nat, ending: Word)
    requires skip <= |own| && Holds(msg, off, EncodeLabels(own) + ending)
    ensures Holds(msg, off + |EncodeLabels(own[..skip])|, EncodeLabels(own[skip..]) + ending)
    ensures |EncodeLabels(own)| == |EncodeLabels(own[..skip])| + |EncodeLabels(own[skip..])|
  {
    LabelsSplit(own, skip);
    var front, back := EncodeLabels(own[..skip]), EncodeLabels(own[skip..]);
    assert front + back + ending == front + (back + ending);
    HoldsParts(msg, off, front, back + ending);
  }

  lemma {:induction false} NameEncoded(msg: Word, qs: seq<Question>, i: nat, skip: nat)
    requires WellFormed(qs) && Section(msg, qs) && i < |qs| && skip <= |qs[i].own|
    ensures Encoded(msg, Target(qs, i, skip), NameFrom(qs, i, skip))
    ensures EndOf(Target(qs, i, skip), NameFrom(qs, i, skip)) == Offset(qs, i) + NameSize(qs[i])
    decreases i
  {
    var own, at := qs[i].own, Target(qs, i, skip);
    assert QuestionHeld(msg, qs, i);
    QuestionParts(msg, qs, i);
    assert PointerOk(qs, i);
    match qs[i].tail
    case None =>
      SuffixHeld(msg, Offset(qs, i), own, skip, [0]);
      PlainEncoded(msg, at, own[skip..]);
    case Some(t) =>
      var target := Target(qs, t.question, t.skip);
      NameEncoded(msg, qs, t.question, t.skip);
      SuffixHeld(msg, Offset(qs, i), own, skip, [192 + target / 256, target % 256]);
      PointedEncoded(msg, at, own[skip..], target, NameFrom(qs, t.question, t.skip));
  }

  lemma WholeName(qs: seq<Question>, i: nat)
    requires i < |qs|
    ensures Target(qs, i, 0) == Offset(qs, i)
  {
    assert qs[i].own[..0] == [];
  }

  lemma {:induction false} TypeEncoded(msg: Word, qs: seq<Question>, i: nat)
    requires WellFormed(qs) && i < |qs| && QuestionHeld(msg, qs, i)
    ensures var end := Offset(qs, i) + NameSize(qs[i]);
            end + 4 <= |msg| && Read16(msg, end) == Read16(qs[i].qtype, 0)
  {
    QuestionParts(msg, qs, i);
    FieldRead(msg, Offset(qs, i) + NameSize(qs[i]), qs[i].qtype);
  }

  /** What the parser should report of the questions from i on. */
  function Reported(qs: seq<Question>, i: nat): seq<Query>
    requires WellFormed(qs) && i <= |qs|
    decreases |qs| - i
  {
    if i == |qs| then [] else [Query(Text(Asked(qs, i, 0)), Read16(qs[i].qtype, 0))] + Reported(qs, i + 1)
  }

  /** Question i is read back: its name, its type, and where the next one starts. */
  lemma {:induction false} OneQuestion(msg: Word, qs: seq<Question>, i: nat)
    requires WellFormed(qs) && Section(msg, qs) && i < |qs|
    requires Depth(qs, i) <= MAX_COMPRESSION_JUMPS
    ensures Decode(msg, Offset(qs, i), MAX_COMPRESSION_JUMPS) == Some(NameFrom(qs, i, 0))
    ensures Labels(NameFrom(qs, i, 0)) == Asked(qs, i, 0)
    ensures var end := EndOf(Offset(qs, i), NameFrom(qs, i, 0));
            end + 4 == Offset(qs, i + 1) <= |msg| && Read16(msg, end) == Read16(qs[i].qtype, 0)
  {
    WholeName(qs, i);
    NameEncoded(msg, qs, i, 0);
    NameMeaning(qs, i, 0);
    DecodeComplete(msg, Offset(qs, i), MAX_COMPRESSION_JUMPS, NameFrom(qs, i, 0));
    assert QuestionHeld(msg, qs, i);
    TypeEncoded(msg, qs, i);
  }

  /** Reading count questions from question i on reads that question first. */
  lemma {:induction false} OneMore(msg: Word, qs: seq<Question>, i: nat, count: nat)
    requires WellFormed(qs) && Section(msg, qs) && i < |qs| && count > 0
    requires Depth(qs, i) <= MAX_COMPRESSION_JUMPS
    ensures Questions(msg, Offset(qs, i), count) ==
              [Query(Text(Asked(qs, i, 0)), Read16(qs[i].qtype, 0))] + Questions(msg, Offset(qs, i + 1), count - 1)
  {
    OneQuestion(msg, qs, i);
  }

  predicate Shallow(qs: seq<Question>)
    requires WellFormed(qs)
  {
    forall k {:trigger Depth(qs, k)} :: 0 <= k < |qs| ==> Depth(qs, k) <= MAX_COMPRESSION_JUMPS
  }

  lemma {:induction false} QuestionsInvert(msg: Word, qs: seq<Question>, i: nat)
    requires WellFormed(qs) && Section(msg, qs) && i <= |qs| && Shallow(qs)
    ensures Questions(msg, Offset(qs, i), |qs| - i) == Reported(qs, i)
    decreases |qs| - i
  {
    if i < |qs| {
      var left := |qs| - i;
      OneMore(msg, qs, i, left);
      QuestionsInvert(msg, qs, i + 1);
      assert left - 1 == |qs| - (i + 1);
    }
  }

  lemma {:induction false} BodyHolds(qs: seq<Question>, k: nat, i: nat)
    requires WellFormed(qs) && i < k <= |qs|
    ensures Holds(EncodeBody(qs, k), Offset(qs, i) - HEADER_SIZE, EncodeQuestion(qs, i))
  {
    if i < k - 1 {
      BodyHolds(qs, k - 1, i);
      HoldsLonger(EncodeBody(qs, k - 1), EncodeQuestion(qs, k - 1), Offset(qs, i) - HEADER_SIZE, EncodeQuestion(qs, i));
    } else {
      HoldsAfter(EncodeBody(qs, i), EncodeQuestion(qs, i));
    }
  }

  /** The parser reports exactly the questions that were written, plain or compressed. */
  lemma {:induction false} ParserInvertsWriter(before: Word, after: Word, qs: seq<Question>, rest: Word)
    requires |before| == 4 && |after| == 6 && 1 <= |qs| <= MAX_QUESTIONS && WellFormed(qs) && Shallow(qs)
    ensures Queries(EncodeMessage(before, after, qs, rest)) == Reported(qs, 0)
  {
    var msg := EncodeMessage(before, after, qs, rest);
    var count, body := Write16(|qs|), EncodeBody(qs, |qs|);
    HoldsWithin(before, count, after + body + rest, 0, count);
    assert before + count + (after + body + rest) == msg;
    FieldRead(msg, 4, count);
    forall i | 0 <= i < |qs| ensures QuestionHeld(msg, qs, i) {
      MessageHolds(before, after, qs, rest, i);
    }
    QuestionsInvert(msg, qs, 0);
  }

  lemma {:induction false} MessageHolds(before: Word, after: Word, qs: seq<Question>, rest: Word, i: nat)
    requires |before| == 4 && |after| == 6 && |qs| <= MAX_QUESTIONS && WellFormed(qs) && i < |qs|
    ensures QuestionHeld(EncodeMessage(before, after, qs, rest), qs, i)
  {
    BodyHolds(qs, |qs|, i);
    HoldsWithin(before + Write16(|qs|) + after, EncodeBody(qs, |qs|), rest,
                Offset(qs, i) - HEADER_SIZE, EncodeQuestion(qs, i));
  }
}
