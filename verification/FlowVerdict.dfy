/**
 The verdict on a flow: the matcher's carried state, the malicious flag and the fast-path
 bypass, as the worker updates them packet by packet; and what they mean for the payloads.
 */
module FlowVerdict {
  import opened Bytes
  import opened PatternSpec
  import opened TrieLayout
  import opened FlowTable

  const BYPASS_THRESHOLD := 10

  /** What scanning a payload from the carried state does to the verdict. */
  ghost function Inspect(pats: seq<Word>, v: Verdict, payload: Word): Verdict
    requires v.acState < |TriePaths(pats)|
  {
    if payload == [] then v
    else
      var history := TriePaths(pats)[v.acState];
      v.(acState := NodeAfter(pats, history + payload),
         malicious := v.malicious || Alerts(pats, history, payload) != [])
  }

  /** The fast-path test; true means inspection is skipped. */
  function Bypass(v: Verdict): (Verdict, bool)
  {
    if v.bypassed then (v, true)
    else if v.malicious then (v, false)
    else
      var v' := v.(packetCount := v.packetCount + 1);
      if v'.packetCount > BYPASS_THRESHOLD then (v'.(bypassed := true), true) else (v', false)
  }

  /** One packet of a tracked flow. */
  ghost function VerdictStep(pats: seq<Word>, v: Verdict, payload: Word): (v': Verdict)
    requires v.acState < |TriePaths(pats)|
    ensures v'.acState < |TriePaths(pats)|
  {
    var (v', skip) := Bypass(v);
    if skip then v' else Inspect(pats, v', payload)
  }

  /** Whether one packet of a tracked flow raises an alert. */
  ghost predicate Alerting(pats: seq<Word>, v: Verdict, payload: Word)
    requires v.acState < |TriePaths(pats)|
  {
    !Bypass(v).1 && Alerts(pats, TriePaths(pats)[v.acState], payload) != []
  }

  /** The verdict after all packets of an entry's lifetime, in arrival order. */
  ghost function VerdictAfter(pats: seq<Word>, payloads: seq<Word>): (v: Verdict)
    ensures v.acState < |TriePaths(pats)|
  {
    if payloads == [] then
      TriePathsShape(pats);
      FRESH_VERDICT
    else
      var n := |payloads| - 1;
      VerdictStep(pats, VerdictAfter(pats, payloads[..n]), payloads[n])
  }

  /** The packets the verdict rests on. */
  function FirstTen(payloads: seq<Word>): seq<Word>
  {
    if |payloads| > 10 then payloads[..10] else payloads
  }

  /** The bytes that have been scanned: all of them once a pattern was found, else those of the first ten. */
  ghost function Scanned(pats: seq<Word>, payloads: seq<Word>): Word
  {
    if Occurs(pats, [], Flatten(FirstTen(payloads))) then Flatten(payloads) else Flatten(FirstTen(payloads))
  }

  lemma OccursSplit(pats: seq<Word>, a: Word, b: Word)
    requires NonemptyPatterns(pats)
    ensures Occurs(pats, [], a + b) <==> Occurs(pats, [], a) || Alerts(pats, Lps(pats, a), b) != []
  {
    AlertsSplit(pats, [], a, b);
    assert [] + a == a;
    AlertsEmptyIff(pats, [], a + b);
    AlertsEmptyIff(pats, [], a);
    AlertsLps(pats, a, b);
  }

  lemma SamePathSameNode(pats: seq<Word>, t: Word, u: Word)
    requires Lps(pats, t) == Lps(pats, u)
    ensures NodeAfter(pats, t) == NodeAfter(pats, u)
  {
  }

  /** Scanning one more payload from the state of the bytes scanned so far. */
  lemma InspectMeaning(pats: seq<Word>, v: Verdict, scanned: Word, payload: Word)
    requires NonemptyPatterns(pats) && v.acState == NodeAfter(pats, scanned)
    requires v.malicious <==> Occurs(pats, [], scanned)
    ensures var v' := Inspect(pats, v, payload);
            && v'.acState == NodeAfter(pats, scanned + payload)
            && (v'.malicious <==> Occurs(pats, [], scanned + payload))
            && v'.packetCount == v.packetCount && v'.bypassed == v.bypassed
  {
    if payload == [] {
      assert scanned + payload == scanned;
    } else {
      LpsSplit(pats, scanned, payload);
      SamePathSameNode(pats, Lps(pats, scanned) + payload, scanned + payload);
      OccursSplit(pats, scanned, payload);
    }
  }

  lemma FirstTenStep(payloads: seq<Word>)
    requires payloads != []
    ensures var n := |payloads| - 1;
            if n < BYPASS_THRESHOLD
            then FirstTen(payloads) == payloads && FirstTen(payloads[..n]) == payloads[..n]
            else FirstTen(payloads) == FirstTen(payloads[..n])
  {
    var n := |payloads| - 1;
    if n >= BYPASS_THRESHOLD {
      assert payloads[..n][..BYPASS_THRESHOLD] == payloads[..BYPASS_THRESHOLD];
    }
  }

  /**
   The meaning of the verdict, for every sequence of payloads: malicious exactly when some pattern
   occurs in the first ten payloads joined together, bypassed exactly when an eleventh packet came
   and none does, and the carried state is that of all the bytes scanned.
   */
  lemma {:induction false} VerdictMeaning(pats: seq<Word>, payloads: seq<Word>)
    requires NonemptyPatterns(pats)
    ensures var v := VerdictAfter(pats, payloads);
            var found := Occurs(pats, [], Flatten(FirstTen(payloads)));
            && (v.malicious <==> found)
            && (v.bypassed <==> |payloads| > BYPASS_THRESHOLD && !found)
            && v.acState == NodeAfter(pats, Scanned(pats, payloads))
            && (!found ==> v.packetCount == if |payloads| > BYPASS_THRESHOLD then BYPASS_THRESHOLD + 1 else |payloads|)
  {
    if payloads == [] {
      assert !Occurs(pats, [], []);
      assert IsPath(pats, []);
      RootNode(pats);
    } else {
      var n := |payloads| - 1;
      var before := payloads[..n];
      VerdictMeaning(pats, before);
      FirstTenStep(payloads);
      var v := VerdictAfter(pats, before);
      if !v.bypassed {
        OccursMonotone(pats, Flatten(FirstTen(before)), payloads[n]);
        assert Flatten(payloads) == Flatten(before) + payloads[n];
        if n < BYPASS_THRESHOLD || v.malicious {
          ScannedSoFar(pats, before);
          InspectMeaning(pats, Bypass(v).0, Scanned(pats, before), payloads[n]);
        }
      }
    }
  }

  lemma RootNode(pats: seq<Word>)
    ensures NodeAfter(pats, []) == 0
  {
    TriePathsShape(pats);
    assert Lps(pats, []) == [];
  }

  lemma OccursMonotone(pats: seq<Word>, a: Word, b: Word)
    ensures Occurs(pats, [], a) ==> Occurs(pats, [], a + b)
  {
    if e :| 1 <= e <= |a| && EndsPattern(pats, [] + a[..e]) {
      assert (a + b)[..e] == a[..e];
    }
  }

  lemma ScannedSoFar(pats: seq<Word>, payloads: seq<Word>)
    ensures Occurs(pats, [], Flatten(FirstTen(payloads))) ==> Occurs(pats, [], Flatten(payloads))
    ensures Occurs(pats, [], Scanned(pats, payloads)) <==> Occurs(pats, [], Flatten(FirstTen(payloads)))
  {
    if |payloads| > BYPASS_THRESHOLD {
      FlattenPrefix(payloads, BYPASS_THRESHOLD);
      OccursMonotone(pats, Flatten(FirstTen(payloads)), Flatten(payloads)[|Flatten(FirstTen(payloads))|..]);
      assert Flatten(payloads) == Flatten(FirstTen(payloads)) + Flatten(payloads)[|Flatten(FirstTen(payloads))|..];
    }
  }

  lemma {:induction false} FlattenPrefix(segments: seq<Word>, k: nat)
    requires k <= |segments|
    ensures Flatten(segments[..k]) <= Flatten(segments)
  {
    if k == |segments| {
      assert segments[..k] == segments;
    } else {
      var n := |segments| - 1;
      assert segments[..n][..k] == segments[..k];
      FlattenPrefix(segments[..n], k);
    }
  }

  /** An alert is raised exactly for an inspected packet in which a pattern ends, one begun earlier included. */
  lemma {:induction false} AlertMeaning(pats: seq<Word>, payloads: seq<Word>, payload: Word)
    requires NonemptyPatterns(pats)
    ensures var v, found := VerdictAfter(pats, payloads), Occurs(pats, [], Flatten(FirstTen(payloads)));
            Alerting(pats, v, payload) <==>
              (found || |payloads| < BYPASS_THRESHOLD) && Occurs(pats, Scanned(pats, payloads), payload)
  {
    VerdictMeaning(pats, payloads);
    AlertsLps(pats, Scanned(pats, payloads), payload);
    AlertsEmptyIff(pats, Scanned(pats, payloads), payload);
  }

  /**
   The same in plain numbers. Up to ten packets everything is inspected; from the eleventh on the flow
   is malicious exactly when a pattern occurs in the first ten payloads, and bypassed otherwise.
   */
  lemma {:induction false} TenPackets(pats: seq<Word>, payloads: seq<Word>)
    requires NonemptyPatterns(pats)
    ensures var v := VerdictAfter(pats, payloads);
            if |payloads| <= 10 then
              (v.malicious <==> Occurs(pats, [], Flatten(payloads))) && !v.bypassed
            else
              (v.malicious <==> Occurs(pats, [], Flatten(payloads[..10]))) && (v.bypassed <==> !v.malicious)
  {
    VerdictMeaning(pats, payloads);
  }

  /**
   The alert on the next packet: while fewer than ten packets have come, or if a pattern occurred in the
   first ten, exactly when a pattern ends in it, one begun in an earlier packet included; otherwise never.
   */
  lemma {:induction false} NextAlert(pats: seq<Word>, payloads: seq<Word>, payload: Word)
    requires NonemptyPatterns(pats)
    ensures Alerting(pats, VerdictAfter(pats, payloads), payload) <==>
            && (|payloads| < 10 || Occurs(pats, [], Flatten(payloads[..10])))
            && Occurs(pats, Flatten(payloads), payload)
  {
    AlertMeaning(pats, payloads, payload);
    if |payloads| < 10 {
      ScannedSoFar(pats, payloads);
    } else {
      assert FirstTen(payloads) == payloads[..10];
    }
  }

  /** A flow is never both malicious and bypassed. */
  lemma NeverBoth(pats: seq<Word>, payloads: seq<Word>)
    requires NonemptyPatterns(pats)
    ensures !(VerdictAfter(pats, payloads).malicious && VerdictAfter(pats, payloads).bypassed)
  {
    VerdictMeaning(pats, payloads);
  }
}
