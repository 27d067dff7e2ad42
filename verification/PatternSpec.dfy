/**
 What multi-pattern matching means, independently of any automaton: at every end position of
 the text, every pattern that is a suffix of what was read so far, longest first. The second
 half is the theory of "longest suffix that is a trie path", which the automaton relies on.
 */
module PatternSpec {
  import opened Bytes

  ghost predicate NonemptyPatterns(pats: seq<Word>)
  {
    forall k :: 0 <= k < |pats| ==> pats[k] != []
  }

  /** The occurrences of w in the pattern list, in the order they were added. */
  function Copies(pats: seq<Word>, w: Word): seq<Word>
  {
    if pats == [] then []
    else
      var n := |pats| - 1;
      Copies(pats[..n], w) + (if pats[n] == w then [w] else [])
  }

  /** Every pattern that is a suffix of t, longest first, as often as it was added. */
  function HitsAt(pats: seq<Word>, t: Word): seq<Word>
  {
    if t == [] then [] else Copies(pats, t) + HitsAt(pats, t[1..])
  }

  /** The alerts for reading text after history, one end position at a time. */
  function Alerts(pats: seq<Word>, history: Word, text: Word): seq<Word>
  {
    if text == [] then []
    else Alerts(pats, history, text[..|text| - 1]) + HitsAt(pats, history + text)
  }

  ghost predicate IsSuffix(u: Word, t: Word)
  {
    |u| <= |t| && t[|t| - |u|..] == u
  }

  /** Some pattern ends where t ends. */
  ghost predicate EndsPattern(pats: seq<Word>, t: Word)
  {
    exists k :: 0 <= k < |pats| && IsSuffix(pats[k], t)
  }

  /** Some pattern ends within text, possibly having begun in history. */
  ghost predicate Occurs(pats: seq<Word>, history: Word, text: Word)
  {
    exists e :: 1 <= e <= |text| && EndsPattern(pats, history + text[..e])
  }

  lemma {:induction false} CopiesCount(pats: seq<Word>, w: Word, u: Word)
    ensures multiset(Copies(pats, w))[u] == if u == w then multiset(pats)[u] else 0
  {
    if pats != [] {
      var n := |pats| - 1;
      CopiesCount(pats[..n], w, u);
      assert pats == pats[..n] + [pats[n]];
    }
  }

  /** The hit list is right: exactly the patterns that are suffixes, with their multiplicity ... */
  lemma {:induction false} HitsAtCount(pats: seq<Word>, t: Word, u: Word)
    requires NonemptyPatterns(pats)
    ensures multiset(HitsAt(pats, t))[u] == if IsSuffix(u, t) then multiset(pats)[u] else 0
  {
    if t == [] {
      if u == [] {
        assert u !in pats;
      }
    } else {
      CopiesCount(pats, t, u);
      HitsAtCount(pats, t[1..], u);
      if |u| < |t| {
        assert t[1..][|t[1..]| - |u|..] == t[|t| - |u|..];
      }
    }
  }

  lemma {:induction false} CopiesAreCopies(pats: seq<Word>, w: Word)
    ensures forall i :: 0 <= i < |Copies(pats, w)| ==> Copies(pats, w)[i] == w
  {
    if pats != [] {
      CopiesAreCopies(pats[..|pats| - 1], w);
    }
  }

  /** ... and listed longest first; with HitsAtCount this fixes the list completely. */
  lemma {:induction false} HitsAtLongestFirst(pats: seq<Word>, t: Word)
    ensures forall i :: 0 <= i < |HitsAt(pats, t)| ==> |HitsAt(pats, t)[i]| <= |t|
    ensures forall i, j :: 0 <= i < j < |HitsAt(pats, t)| ==> |HitsAt(pats, t)[j]| <= |HitsAt(pats, t)[i]|
  {
    if t != [] {
      CopiesAreCopies(pats, t);
      HitsAtLongestFirst(pats, t[1..]);
    }
  }

  lemma {:induction false} HitsAtEmptyIff(pats: seq<Word>, t: Word)
    requires NonemptyPatterns(pats)
    ensures HitsAt(pats, t) != [] <==> EndsPattern(pats, t)
  {
    var hits := HitsAt(pats, t);
    if hits != [] {
      HitsAtCount(pats, t, hits[0]);
      assert hits[0] in multiset(hits);
      assert hits[0] in pats;
    }
    if k :| 0 <= k < |pats| && IsSuffix(pats[k], t) {
      HitsAtCount(pats, t, pats[k]);
      assert pats[k] in multiset(pats);
      assert multiset(hits)[pats[k]] > 0;
    }
  }

  lemma OccursUnfold(pats: seq<Word>, history: Word, text: Word)
    requires text != []
    ensures Occurs(pats, history, text) <==>
            Occurs(pats, history, text[..|text| - 1]) || EndsPattern(pats, history + text)
  {
    var n := |text| - 1;
    assert text[..|text|] == text;
    assert forall e :: 0 <= e <= n ==> text[..n][..e] == text[..e];
    if e :| 1 <= e <= |text| && EndsPattern(pats, history + text[..e]) {
      assert e <= n ==> EndsPattern(pats, history + text[..n][..e]);
    }
    if e :| 1 <= e <= n && EndsPattern(pats, history + text[..n][..e]) {
      assert EndsPattern(pats, history + text[..e]);
    }
    if EndsPattern(pats, history + text) {
      assert EndsPattern(pats, history + text[..|text|]);
    }
  }

  /** Some alert is raised exactly when some pattern ends inside the text just read. */
  lemma {:induction false} AlertsEmptyIff(pats: seq<Word>, history: Word, text: Word)
    requires NonemptyPatterns(pats)
    ensures Alerts(pats, history, text) != [] <==> Occurs(pats, history, text)
  {
    if text != [] {
      AlertsEmptyIff(pats, history, text[..|text| - 1]);
      HitsAtEmptyIff(pats, history + text);
      OccursUnfold(pats, history, text);
    }
  }

  lemma AlertsSnoc(pats: seq<Word>, history: Word, text: Word, c: Byte)
    ensures Alerts(pats, history, text + [c]) == Alerts(pats, history, text) + HitsAt(pats, history + text + [c])
  {
    assert history + (text + [c]) == history + text + [c];
  }

  /** Cutting the text anywhere, and carrying the history over, changes nothing. */
  lemma {:induction false} AlertsSplit(pats: seq<Word>, history: Word, a: Word, b: Word)
    ensures Alerts(pats, history, a + b) == Alerts(pats, history, a) + Alerts(pats, history + a, b)
  {
    if b == [] {
      assert a + b == a;
    } else {
      var n := |b| - 1;
      AlertsSplit(pats, history, a, b[..n]);
      assert (a + b)[..|a + b| - 1] == a + b[..n];
      assert history + (a + b) == (history + a) + b;
    }
  }

  // ----- Trie paths and the longest suffix that is one

  /** w labels a node of the trie that holds pats: it is a prefix of some pattern. */
  ghost predicate IsPath(pats: seq<Word>, w: Word)
  {
    w == [] || exists k :: 0 <= k < |pats| && w <= pats[k]
  }

  /** The longest suffix of t that is a trie path. */
  ghost function Lps(pats: seq<Word>, t: Word): (u: Word)
    ensures IsPath(pats, u) && |u| <= |t|
  {
    if IsPath(pats, t) then t else Lps(pats, t[1..])
  }

  lemma {:induction false} LpsIsSuffix(pats: seq<Word>, t: Word)
    ensures IsSuffix(Lps(pats, t), t)
  {
    if !IsPath(pats, t) {
      var u := Lps(pats, t[1..]);
      LpsIsSuffix(pats, t[1..]);
      assert t[|t| - |u|..] == t[1..][|t[1..]| - |u|..];
    }
  }

  lemma {:induction false} LpsIsLongest(pats: seq<Word>, t: Word, u: Word)
    requires IsPath(pats, u) && IsSuffix(u, t)
    ensures IsSuffix(u, Lps(pats, t))
  {
    if !IsPath(pats, t) {
      assert u != t;
      assert t[|t| - |u|..] == t[1..][|t[1..]| - |u|..];
      LpsIsLongest(pats, t[1..], u);
    }
  }

  /** Dropping the first byte and taking the longest path suffix gives the longest proper one. */
  lemma LongestProperSuffix(pats: seq<Word>, w: Word)
    requires w != []
    ensures var f := Lps(pats, w[1..]);
            && |f| < |w| && IsSuffix(f, w)
            && forall u :: IsPath(pats, u) && IsSuffix(u, w) && |u| < |w| ==> |u| <= |f|
  {
    LpsIsSuffix(pats, w[1..]);
    var f := Lps(pats, w[1..]);
    assert w[1..][|w[1..]| - |f|..] == w[|w| - |f|..];
    forall u | IsPath(pats, u) && IsSuffix(u, w) && |u| < |w| ensures |u| <= |f| {
      assert w[1..][|w[1..]| - |u|..] == w[|w| - |u|..];
      LpsIsLongest(pats, w[1..], u);
    }
  }

  lemma PathPrefixClosed(pats: seq<Word>, w: Word, c: Byte)
    requires IsPath(pats, w + [c])
    ensures IsPath(pats, w)
  {
    var k :| 0 <= k < |pats| && w + [c] <= pats[k];
    assert w <= pats[k];
  }

  /** Reading one byte: only the longest path suffix of the history matters. */
  lemma {:induction false} LpsStep(pats: seq<Word>, t: Word, c: Byte)
    ensures Lps(pats, t + [c]) == Lps(pats, Lps(pats, t) + [c])
  {
    if !IsPath(pats, t) {
      if IsPath(pats, t + [c]) {
        PathPrefixClosed(pats, t, c);
      }
      assert (t + [c])[1..] == t[1..] + [c];
      LpsStep(pats, t[1..], c);
    }
  }

  /** Following a failure link keeps the target of the transition. */
  lemma FailStep(pats: seq<Word>, w: Word, c: Byte)
    requires w != [] && !IsPath(pats, w + [c])
    ensures Lps(pats, w + [c]) == Lps(pats, Lps(pats, w[1..]) + [c])
  {
    assert (w + [c])[1..] == w[1..] + [c];
    LpsStep(pats, w[1..], c);
  }

  lemma {:induction false} LpsSplit(pats: seq<Word>, a: Word, b: Word)
    ensures Lps(pats, a + b) == Lps(pats, Lps(pats, a) + b)
    decreases |b|
  {
    if b == [] {
      assert a + b == a;
      assert Lps(pats, a) + b == Lps(pats, a);
    } else {
      var c, rest := b[0], b[1..];
      var l := Lps(pats, a);
      assert a + b == (a + [c]) + rest;
      assert l + b == (l + [c]) + rest;
      LpsSplit(pats, a + [c], rest);
      LpsSplit(pats, l + [c], rest);
      LpsStep(pats, a, c);
    }
  }

  lemma {:induction false} CopiesAbsent(pats: seq<Word>, w: Word)
    requires w !in pats
    ensures Copies(pats, w) == []
  {
    if pats != [] {
      CopiesAbsent(pats[..|pats| - 1], w);
    }
  }

  /** Suffixes too long to be paths cannot be patterns either. */
  lemma {:induction false} HitsAtLps(pats: seq<Word>, t: Word)
    ensures HitsAt(pats, t) == HitsAt(pats, Lps(pats, t))
  {
    if !IsPath(pats, t) {
      assert t !in pats;
      CopiesAbsent(pats, t);
      HitsAtLps(pats, t[1..]);
    }
  }

  lemma {:induction false} AlertsLps(pats: seq<Word>, history: Word, text: Word)
    ensures Alerts(pats, history, text) == Alerts(pats, Lps(pats, history), text)
  {
    if text != [] {
      var l := Lps(pats, history);
      AlertsLps(pats, history, text[..|text| - 1]);
      LpsSplit(pats, history, text);
      HitsAtLps(pats, history + text);
      HitsAtLps(pats, l + text);
    }
  }

  // ----- Scanning a stream that arrives in segments

  /** The alerts of scanning the segments one after the other, the automaton remembering only Lps. */
  ghost function SegmentAlerts(pats: seq<Word>, history: Word, segments: seq<Word>): seq<Word>
  {
    if segments == [] then []
    else
      var n := |segments| - 1;
      SegmentAlerts(pats, history, segments[..n])
      + Alerts(pats, Lps(pats, history + Flatten(segments[..n])), segments[n])
  }

  /** Any segmentation of a stream raises the alerts of the unsegmented stream. */
  lemma {:induction false} SegmentationIrrelevant(pats: seq<Word>, history: Word, segments: seq<Word>)
    ensures SegmentAlerts(pats, history, segments) == Alerts(pats, history, Flatten(segments))
  {
    if segments != [] {
      var n := |segments| - 1;
      var before := Flatten(segments[..n]);
      SegmentationIrrelevant(pats, history, segments[..n]);
      AlertsLps(pats, history + before, segments[n]);
      AlertsSplit(pats, history, before, segments[n]);
    }
  }
}
