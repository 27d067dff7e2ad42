/** The DNS parser's loops, proved against DnsNames. */
module DnsParsing {
  import opened Bytes
  import opened SeqFacts
  import opened DnsNames

  /** How the loop stands: the rest at cursor, appended to the text, completes the whole. */
  ghost predicate Remains(msg: Word, offset: nat, cursor: nat, jumps: nat, text: Word, jumped: bool, post: nat)
    requires jumps <= MAX_COMPRESSION_JUMPS
  {
    match (Decode(msg, offset, MAX_COMPRESSION_JUMPS), Decode(msg, cursor, MAX_COMPRESSION_JUMPS - jumps))
    case (None, None) => true
    case (Some(whole), Some(rest)) =>
      && Append([], Labels(whole)) == Append(text, Labels(rest))
      && EndOf(offset, whole) == if jumped then post else EndOf(cursor, rest)
    case _ => false
  }

  /** Reads a possibly compressed name: its labels joined by dots, and the offset past its encoding. */
  method DecodeName(payload: Word, offset: nat) returns (ok: bool, newOffset: nat, name: Word)
    ensures ok <==> Decode(payload, offset, MAX_COMPRESSION_JUMPS).Some?
    ensures ok ==> var n := Decode(payload, offset, MAX_COMPRESSION_JUMPS).value;
                   name == Text(Labels(n)) && newOffset == EndOf(offset, n)
    ensures !ok ==> newOffset == offset
  {
    DecodedText(payload, offset);
    var cursor, jumped, postNameOffset, jumps := offset, false, 0, 0;
    name := [];
    while true
      invariant 0 <= cursor && 0 <= jumps <= MAX_COMPRESSION_JUMPS && 0 <= postNameOffset
      invariant Remains(payload, offset, cursor, jumps, name, jumped, postNameOffset)
      decreases MAX_COMPRESSION_JUMPS - jumps, if cursor < |payload| then |payload| - cursor else 0
    {
      if cursor >= |payload| {
        return false, offset, name;
      }
      var labelLen := payload[cursor];
      if labelLen >= 192 {
        if cursor + 1 >= |payload| {
          return false, offset, name;
        }
        if jumps + 1 > MAX_COMPRESSION_JUMPS {
          return false, offset, name;
        }
        jumps := jumps + 1;
        var pointer := Pointer(payload, cursor);
        if !jumped {
          postNameOffset := cursor + 2;
          jumped := true;
        }
        if pointer >= |payload| {
          return false, offset, name;
        }
        cursor := pointer;
        continue;
      }
      if labelLen == 0 {
        cursor := cursor + 1;
        if !jumped {
          postNameOffset := cursor;
        }
        break;
      }
      if labelLen > 63 {
        return false, offset, name;
      }
      var labelStart := cursor + 1;
      var labelEnd := labelStart + labelLen as int;
      if labelEnd > |payload| {
        return false, offset, name;
      }
      if name != [] {
        name := name + [DOT];
      }
      name := name + payload[labelStart..labelEnd];
      cursor := labelEnd;
    }
    return true, postNameOffset, name;
  }

  lemma DecodedText(msg: Word, off: nat)
    ensures var d := Decode(msg, off, MAX_COMPRESSION_JUMPS);
            d.Some? ==> Append([], Labels(d.value)) == Text(Labels(d.value))
  {
    var d := Decode(msg, off, MAX_COMPRESSION_JUMPS);
    if d.Some? {
      DecodeSound(msg, off, MAX_COMPRESSION_JUMPS);
      LabelsNonempty(msg, off, d.value);
      AppendIsText([], Labels(d.value));
    }
  }

  /** What is read at offset goes to the end of what has been read. */
  lemma {:induction false} ReadOn(results: seq<Query>, msg: Word, offset: nat, count: nat)
    requires count > 0
    ensures results + Questions(msg, offset, count) ==
              if QuestionReadable(msg, offset) then
                var n := Decode(msg, offset, MAX_COMPRESSION_JUMPS).value;
                results + [Query(Text(Labels(n)), Read16(msg, EndOf(offset, n)))]
                + Questions(msg, NextQuestion(msg, offset), count - 1)
              else results
  {
    if QuestionReadable(msg, offset) {
      var n := Decode(msg, offset, MAX_COMPRESSION_JUMPS).value;
      Assoc(results, [Query(Text(Labels(n)), Read16(msg, EndOf(offset, n)))],
            Questions(msg, NextQuestion(msg, offset), count - 1));
    }
  }

  /** Reads the question section, stopping at the first question that cannot be read. */
  method ExtractQueries(payload: Word) returns (results: seq<Query>)
    ensures results == Queries(payload)
  {
    results := [];
    if |payload| < HEADER_SIZE {
      return;
    }
    var qdCount := Read16(payload, 4);
    if qdCount == 0 || qdCount > MAX_QUESTIONS {
      return;
    }
    var offset := HEADER_SIZE;
    assert results + Questions(payload, offset, qdCount) == Questions(payload, offset, qdCount);
    for i := 0 to qdCount
      invariant 0 <= offset
      invariant results + Questions(payload, offset, qdCount - i) == Queries(payload)
    {
      ReadOn(results, payload, offset, qdCount - i);
      var ok, newOffset, domain := DecodeName(payload, offset);
      if !ok {
        break;
      }
      if newOffset + 4 > |payload| {
        break;
      }
      assert newOffset + 4 == NextQuestion(payload, offset);
      var qtype := Read16(payload, newOffset);
      offset := newOffset + 4;
      results := results + [Query(domain, qtype)];
    }
  }
}
