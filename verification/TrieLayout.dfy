/**
 The shape of the trie: which node holds which path, in the order the nodes are created,
 and the bound on the work of computing failure links.
 */
module TrieLayout {
  import opened Bytes
  import opened SeqFacts
  import opened PatternSpec

  /** Paths after walking p from its first k bytes on, appending each prefix not yet present. */
  function Insert(paths: seq<Word>, p: Word, k: nat): seq<Word>
    requires k <= |p|
    decreases |p| - k
  {
    if k == |p| then paths
    else Insert(if p[..k + 1] in paths then paths else paths + [p[..k + 1]], p, k + 1)
  }

  /** The path of every node of the trie for pats; the index of a path is the index of its node. */
  function TriePaths(pats: seq<Word>): seq<Word>
  {
    if pats == [] then [[]]
    else Insert(TriePaths(pats[..|pats| - 1]), pats[|pats| - 1], 0)
  }

  ghost predicate HasParent(paths: seq<Word>, n: nat)
    requires 0 < n < |paths|
  {
    paths[n] != [] && paths[n][..|paths[n]| - 1] in paths
  }

  /** A node table: the root first, no path twice, and the parent of every node present. */
  ghost predicate Shape(paths: seq<Word>)
  {
    && 0 < |paths| && paths[0] == []
    && Distinct(paths)
    && (forall n :: 0 < n < |paths| ==> paths[n] != [])
    && forall n {:trigger HasParent(paths, n)} :: 0 < n < |paths| ==> HasParent(paths, n)
  }

  lemma AppendShape(paths: seq<Word>, w: Word)
    requires Shape(paths) && w !in paths && w != [] && w[..|w| - 1] in paths
    ensures Shape(paths + [w])
  {
    forall n | 0 < n < |paths + [w]| ensures HasParent(paths + [w], n) {
      if n < |paths| {
        assert HasParent(paths, n);
      }
    }
  }

  lemma {:induction false} InsertShape(paths: seq<Word>, p: Word, k: nat)
    requires Shape(paths) && k <= |p| && p[..k] in paths
    ensures Shape(Insert(paths, p, k)) && paths <= Insert(paths, p, k)
    decreases |p| - k
  {
    if k < |p| {
      var w := p[..k + 1];
      assert w[..k] == p[..k];
      if w !in paths {
        AppendShape(paths, w);
      }
      InsertShape(if w in paths then paths else paths + [w], p, k + 1);
    }
  }

  lemma {:induction false} InsertMember(paths: seq<Word>, p: Word, k: nat, w: Word)
    requires k <= |p|
    ensures w in Insert(paths, p, k) <==> w in paths || (k < |w| && w <= p)
    decreases |p| - k
  {
    if k < |p| {
      var u := p[..k + 1];
      InsertMember(if u in paths then paths else paths + [u], p, k + 1, w);
      assert |w| == k + 1 && w <= p ==> w == u;
    }
  }

  lemma PathsOfOneMore(pats: seq<Word>, p: Word, w: Word)
    ensures IsPath(pats + [p], w) <==> IsPath(pats, w) || w <= p
  {
    var all := pats + [p];
    if w <= p {
      assert all[|pats|] == p;
    }
    if k :| 0 <= k < |pats| && w <= pats[k] {
      assert w <= all[k];
    }
  }

  lemma {:induction false} TriePathsShape(pats: seq<Word>)
    ensures Shape(TriePaths(pats))
  {
    if pats != [] {
      var n := |pats| - 1;
      TriePathsShape(pats[..n]);
      assert pats[n][..0] == [];
      InsertShape(TriePaths(pats[..n]), pats[n], 0);
    }
  }

  /** The nodes are exactly the prefixes of the patterns. */
  lemma {:induction false} TriePathsMember(pats: seq<Word>, w: Word)
    ensures w in TriePaths(pats) <==> IsPath(pats, w)
  {
    if pats != [] {
      var n := |pats| - 1;
      TriePathsMember(pats[..n], w);
      InsertMember(TriePaths(pats[..n]), pats[n], 0, w);
      assert pats == pats[..n] + [pats[n]];
      PathsOfOneMore(pats[..n], pats[n], w);
    }
  }

  /** The node reached from the root by reading text. */
  ghost function NodeAfter(pats: seq<Word>, text: Word): (n: nat)
    ensures n < |TriePaths(pats)| && TriePaths(pats)[n] == Lps(pats, text)
  {
    TriePathsMember(pats, Lps(pats, text));
    IndexOf(TriePaths(pats), Lps(pats, text))
  }

  // ----- Work bound

  function TotalLength(pats: seq<Word>): nat
  {
    if pats == [] then 0 else TotalLength(pats[..|pats| - 1]) + |pats[|pats| - 1]|
  }

  function Sum(s: seq<nat>): nat
  {
    if s == [] then 0 else Sum(s[..|s| - 1]) + s[|s| - 1]
  }

  lemma {:induction false} SumOfZeros(s: seq<nat>)
    requires forall i :: 0 <= i < |s| ==> s[i] == 0
    ensures Sum(s) == 0
  {
    if s != [] {
      SumOfZeros(s[..|s| - 1]);
    }
  }

  lemma {:induction false} SumUpdate(s: seq<nat>, i: nat, v: nat)
    requires i < |s|
    ensures Sum(s[i := v]) == Sum(s) - s[i] + v
  {
    var n := |s| - 1;
    if i < n {
      assert s[i := v][..n] == s[..n][i := v];
      SumUpdate(s[..n], i, v);
    } else {
      assert s[i := v][..n] == s[..n];
    }
  }

  /** Length of the path of the failure node of w. */
  ghost function FailDepth(pats: seq<Word>, w: Word): nat
  {
    if w == [] then 0 else |Lps(pats, w[1..])|
  }

  lemma FailDepthStep(pats: seq<Word>, w: Word)
    requires |w| >= 2
    ensures FailDepth(pats, w) <= FailDepth(pats, w[..|w| - 1]) + 1
  {
    var u, c := w[..|w| - 1], w[|w| - 1];
    assert w[1..] == u[1..] + [c];
    LpsStep(pats, u[1..], c);
  }

  /** Failure hops allowed while linking the node of w: how far the failure depth may drop. */
  ghost function Allowance(pats: seq<Word>, w: Word): nat
  {
    if |w| < 2 then 0
    else
      FailDepthStep(pats, w);
      FailDepth(pats, w[..|w| - 1]) + 1 - FailDepth(pats, w)
  }

  ghost function TotalAllowance(pats: seq<Word>, paths: seq<Word>): nat
  {
    if paths == [] then 0
    else TotalAllowance(pats, paths[..|paths| - 1]) + Allowance(pats, paths[|paths| - 1])
  }

  lemma {:induction false} AllowanceSnoc(pats: seq<Word>, paths: seq<Word>, w: Word)
    ensures TotalAllowance(pats, paths + [w]) == TotalAllowance(pats, paths) + Allowance(pats, w)
  {
    assert (paths + [w])[..|paths|] == paths;
  }

  /** One more byte of a path: its allowance and its failure depth against those of the byte before. */
  lemma {:induction false} AllowanceStep(pats: seq<Word>, p: Word, k: nat)
    requires k < |p|
    ensures Allowance(pats, p[..k + 1]) + FailDepth(pats, p[..k + 1]) <= FailDepth(pats, p[..k]) + 1
    ensures FailDepth(pats, p[..k + 1]) <= FailDepth(pats, p[..k]) + 1
  {
    var w := p[..k + 1];
    assert w[..k] == p[..k];
    if k == 0 {
      assert w[1..] == [];
      assert Lps(pats, w[1..]) == [];
    } else {
      FailDepthStep(pats, w);
    }
  }

  /** Along one pattern the allowances telescope. */
  lemma {:induction false} InsertAllowance(pats: seq<Word>, paths: seq<Word>, p: Word, k: nat)
    requires k <= |p|
    ensures TotalAllowance(pats, Insert(paths, p, k))
         <= TotalAllowance(pats, paths) + (|p| - k) + FailDepth(pats, p[..k])
    decreases |p| - k
  {
    if k < |p| {
      var w := p[..k + 1];
      AllowanceSnoc(pats, paths, w);
      AllowanceStep(pats, p, k);
      InsertAllowance(pats, if w in paths then paths else paths + [w], p, k + 1);
    }
  }

  lemma {:induction false} TriePathsAllowance(pats: seq<Word>, q: seq<Word>)
    ensures TotalAllowance(pats, TriePaths(q)) <= TotalLength(q)
  {
    if q != [] {
      var n := |q| - 1;
      TriePathsAllowance(pats, q[..n]);
      assert q[n][..0] == [];
      InsertAllowance(pats, TriePaths(q[..n]), q[n], 0);
    } else {
      assert TotalAllowance(pats, [[]]) == 0;
    }
  }

  lemma {:induction false} SumWithinAllowance(pats: seq<Word>, paths: seq<Word>, hops: seq<nat>)
    requires |hops| == |paths|
    requires forall n :: 0 <= n < |paths| ==> hops[n] <= Allowance(pats, paths[n])
    ensures Sum(hops) <= TotalAllowance(pats, paths)
  {
    if paths != [] {
      var n := |paths| - 1;
      SumWithinAllowance(pats, paths[..n], hops[..n]);
    }
  }
}
