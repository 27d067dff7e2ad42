/** The Aho-Corasick matcher: a trie in an index array, failure links by BFS, a streaming scan. */
module PatternMatching {
  import opened Bytes
  import opened SeqFacts
  import opened PatternSpec
  import opened TrieLayout

  const NO_EDGE := -1

  datatype TrieNode = TrieNode(children: seq<int>, failLink: int, matchedPatterns: seq<Word>)

  const EMPTY_NODE := TrieNode(seq(256, _ => NO_EDGE), 0, [])

  /** The edge out of node n by byte b; root edges for bytes below closed loop back to the root. */
  ghost predicate EdgeOk(paths: seq<Word>, closed: int, n: nat, b: Byte, target: int)
    requires n < |paths|
  {
    if paths[n] + [b] in paths then 0 < target < |paths| && paths[target] == paths[n] + [b]
    else target == if n == 0 && b < closed then 0 else NO_EDGE
  }

  ghost predicate Edges(paths: seq<Word>, trie: seq<TrieNode>, closed: int)
  {
    && |trie| == |paths|
    && (forall n :: 0 <= n < |trie| ==> |trie[n].children| == 256)
    && forall n, b: Byte {:trigger EdgeOk(paths, closed, n, b, trie[n].children[b])} ::
         0 <= n < |trie| ==> EdgeOk(paths, closed, n, b, trie[n].children[b])
  }

  /** Before compilation: no failure links, and each node lists the patterns that end there. */
  ghost predicate Unlinked(pats: seq<Word>, paths: seq<Word>, node: TrieNode, n: nat)
    requires n < |paths|
  {
    node.failLink == 0 && node.matchedPatterns == Copies(pats, paths[n])
  }

  /** After compilation: the failure link is the longest proper suffix that is a path. */
  ghost predicate Linked(pats: seq<Word>, paths: seq<Word>, node: TrieNode, n: nat)
    requires 0 < n < |paths| && paths[n] != []
  {
    && 0 <= node.failLink < |paths|
    && paths[node.failLink] == Lps(pats, paths[n][1..])
    && node.matchedPatterns == HitsAt(pats, paths[n])
  }

  ghost predicate NodeOk(pats: seq<Word>, paths: seq<Word>, node: TrieNode, n: nat, order: seq<nat>)
    requires 0 < n < |paths| && paths[n] != []
  {
    if n in order then Linked(pats, paths, node, n) else Unlinked(pats, paths, node, n)
  }

  ghost predicate OpenTrie(pats: seq<Word>, trie: seq<TrieNode>)
  {
    && Edges(TriePaths(pats), trie, 0)
    && forall n {:trigger Unlinked(pats, TriePaths(pats), trie[n], n)} ::
         0 <= n < |trie| ==> Unlinked(pats, TriePaths(pats), trie[n], n)
  }

  ghost predicate CompiledTrie(pats: seq<Word>, trie: seq<TrieNode>)
  {
    var paths := TriePaths(pats);
    && NonemptyPatterns(pats)
    && Shape(paths)
    && Edges(paths, trie, 256)
    && trie[0].failLink == 0 && trie[0].matchedPatterns == []
    && forall n {:trigger Linked(pats, paths, trie[n], n)} :: 0 < n < |trie| ==> Linked(pats, paths, trie[n], n)
  }

  // ----- Adding one pattern

  /** The trie while a pattern is being added: pats are in, and some prefixes of the new one. */
  ghost predicate Growing(pats: seq<Word>, paths: seq<Word>, trie: seq<TrieNode>)
  {
    && Shape(paths) && TriePaths(pats) <= paths
    && Edges(paths, trie, 0)
    && forall n {:trigger Unlinked(pats, paths, trie[n], n)} :: 0 <= n < |trie| ==> Unlinked(pats, paths, trie[n], n)
  }

  function SetEdge(trie: seq<TrieNode>, n: nat, b: Byte, target: int): (t: seq<TrieNode>)
    requires n < |trie| && |trie[n].children| == 256
    ensures |t| == |trie|
  {
    trie[n := trie[n].(children := trie[n].children[b := target])]
  }

  lemma NoGrandchild(paths: seq<Word>, w: Word, c: Byte)
    requires Shape(paths) && w !in paths
    ensures w + [c] !in paths
  {
    SnocSlices(w, c);
    forall i | 0 <= i < |paths| ensures paths[i] != w + [c] {
      assert i > 0 ==> HasParent(paths, i);
    }
  }

  /** Appending a node for paths[n] + [b] and pointing the edge at it keeps every edge right. */
  lemma GrowEdges(paths: seq<Word>, trie: seq<TrieNode>, n: nat, b: Byte)
    requires Shape(paths) && Edges(paths, trie, 0) && n < |paths| && paths[n] + [b] !in paths
    ensures Edges(paths + [paths[n] + [b]], SetEdge(trie, n, b, |trie|) + [EMPTY_NODE], 0)
  {
    var w := paths[n] + [b];
    var paths', trie' := paths + [w], SetEdge(trie, n, b, |trie|) + [EMPTY_NODE];
    forall m, c: Byte | 0 <= m < |trie'| ensures EdgeOk(paths', 0, m, c, trie'[m].children[c]) {
      var u := paths'[m] + [c];
      assert u[..|u| - 1] == paths'[m] && w[..|w| - 1] == paths[n];
      if m < |trie| {
        assert EdgeOk(paths, 0, m, c, trie[m].children[c]);
        assert u == w ==> m == n && c == b;
      } else {
        NoGrandchild(paths, w, c);
      }
    }
  }

  lemma NewPathIsNoPattern(pats: seq<Word>, paths: seq<Word>, w: Word)
    requires TriePaths(pats) <= paths && w !in paths
    ensures Copies(pats, w) == []
  {
    TriePathsMember(pats, w);
    assert TriePaths(pats) == paths[..|TriePaths(pats)|];
    assert w !in pats;
    CopiesAbsent(pats, w);
  }

  lemma Grow(pats: seq<Word>, paths: seq<Word>, trie: seq<TrieNode>, n: nat, b: Byte)
    requires Growing(pats, paths, trie) && n < |paths| && paths[n] + [b] !in paths
    ensures Growing(pats, paths + [paths[n] + [b]], SetEdge(trie, n, b, |trie|) + [EMPTY_NODE])
  {
    var w := paths[n] + [b];
    var paths', trie' := paths + [w], SetEdge(trie, n, b, |trie|) + [EMPTY_NODE];
    GrowEdges(paths, trie, n, b);
    AppendShape(paths, w);
    NewPathIsNoPattern(pats, paths, w);
    assert w[..|w| - 1] == paths[n];
    forall m | 0 <= m < |trie'| ensures Unlinked(pats, paths', trie'[m], m) {
      assert m < |trie| ==> Unlinked(pats, paths, trie[m], m);
    }
  }

  /** Recording the pattern at the node of its full path completes the addition. */
  lemma Mark(pats: seq<Word>, pattern: Word, trie: seq<TrieNode>, n: nat)
    requires Growing(pats, TriePaths(pats + [pattern]), trie)
    requires n < |trie| && TriePaths(pats + [pattern])[n] == pattern
    ensures OpenTrie(pats + [pattern],
                     trie[n := trie[n].(matchedPatterns := trie[n].matchedPatterns + [pattern])])
  {
    var pats', paths := pats + [pattern], TriePaths(pats + [pattern]);
    var trie' := trie[n := trie[n].(matchedPatterns := trie[n].matchedPatterns + [pattern])];
    assert pats'[..|pats|] == pats;
    forall m, b: Byte | 0 <= m < |trie'| ensures EdgeOk(paths, 0, m, b, trie'[m].children[b]) {
      assert EdgeOk(paths, 0, m, b, trie[m].children[b]);
    }
    forall m | 0 <= m < |trie'| ensures Unlinked(pats', paths, trie'[m], m) {
      assert Unlinked(pats, paths, trie[m], m);
      assert m != n ==> paths[m] != paths[n];
    }
  }

  // ----- Breadth-first linking

  function Parent(w: Word): Word
    requires w != []
  {
    w[..|w| - 1]
  }

  /** w's node has been taken from the queue and all its children linked. */
  ghost predicate Expanded(paths: seq<Word>, order: seq<nat>, head: nat, w: Word)
    requires head <= |order| && forall k :: 0 <= k < |order| ==> order[k] < |paths|
  {
    exists k :: 0 <= k < head && paths[order[k]] == w
  }

  /** The nodes enqueued so far, when order[..head] are expanded and order[head] up to byte. */
  ghost predicate Enqueued(paths: seq<Word>, order: seq<nat>, head: nat, byte: int, w: Word)
    requires head <= |order| && w != [] && forall k :: 0 <= k < |order| ==> order[k] < |paths|
  {
    || |w| == 1
    || Expanded(paths, order, head, Parent(w))
    || (head < |order| && Parent(w) == paths[order[head]] && w[|w| - 1] < byte)
  }

  /** Nodes enter the queue once each, in depth order, and never more than one level ahead. */
  ghost predicate Sorted(paths: seq<Word>, order: seq<nat>, head: nat)
  {
    && head <= |order|
    && Distinct(order)
    && (forall k :: 0 <= k < |order| ==> 0 < order[k] < |paths|)
    && (forall j, k :: 0 <= j < k < |order| ==> |paths[order[j]]| <= |paths[order[k]]|)
    && (head < |order| ==> forall k :: 0 <= k < |order| ==> |paths[order[k]]| <= |paths[order[head]]| + 1)
  }

  /** What has been enqueued so far; whatever has not lies deeper than the current node. */
  ghost predicate Members(paths: seq<Word>, order: seq<nat>, head: nat, byte: int)
    requires Shape(paths) && Sorted(paths, order, head)
  {
    && (forall n {:trigger n in order} ::
          0 < n < |paths| ==> (n in order <==> Enqueued(paths, order, head, byte, paths[n])))
    && (forall n {:trigger n in order} ::
          0 < n < |paths| && n !in order ==> head < |order| && |paths[order[head]]| < |paths[n]|)
  }

  ghost predicate Order(paths: seq<Word>, order: seq<nat>, head: nat, byte: int)
    requires Shape(paths)
  {
    Sorted(paths, order, head) && Members(paths, order, head, byte)
  }

  /** Enqueued nodes are linked, the others still as the trie left them. */
  ghost predicate Progress(pats: seq<Word>, trie: seq<TrieNode>, order: seq<nat>, closed: int)
  {
    var paths := TriePaths(pats);
    && NonemptyPatterns(pats) && Shape(paths)
    && Edges(paths, trie, closed)
    && trie[0].failLink == 0 && trie[0].matchedPatterns == []
    && forall n {:trigger NodeOk(pats, paths, trie[n], n, order)} ::
         0 < n < |trie| ==> NodeOk(pats, paths, trie[n], n, order)
  }

  /** When the queue has run dry, every node has been through it. */
  lemma {:induction false} AllExpanded(paths: seq<Word>, order: seq<nat>, n: nat)
    requires Shape(paths) && 0 < n < |paths|
    requires forall k :: 0 <= k < |order| ==> 0 < order[k] < |paths|
    requires forall m {:trigger m in order} ::
               0 < m < |paths| ==> (m in order <==> Enqueued(paths, order, |order|, 0, paths[m]))
    ensures n in order
    decreases |paths[n]|
  {
    var w := paths[n];
    if |w| > 1 {
      assert HasParent(paths, n) && |Parent(w)| == |w| - 1;
      var m :| 0 <= m < |paths| && paths[m] == Parent(w);
      AllExpanded(paths, order, m);
      var k :| 0 <= k < |order| && order[k] == m;
      assert Expanded(paths, order, |order|, Parent(w));
    }
  }

  /** Shallower than the next node in the queue means already expanded. */
  lemma LevelDone(paths: seq<Word>, order: seq<nat>, head: nat, m: nat)
    requires Shape(paths) && Order(paths, order, head, 256) && head + 1 < |order|
    requires m in order && |paths[m]| < |paths[order[head + 1]]|
    ensures Expanded(paths, order, head + 1, paths[m])
  {
    var k :| 0 <= k < |order| && order[k] == m;
    assert k < head + 1;
  }

  lemma Deeper(paths: seq<Word>, order: seq<nat>, head: nat, n: nat)
    requires Shape(paths) && Order(paths, order, head, 256) && head + 1 < |order|
    requires 0 < n < |paths| && n !in order && !Expanded(paths, order, head + 1, Parent(paths[n]))
    ensures |paths[order[head + 1]]| < |paths[n]|
  {
    assert HasParent(paths, n);
    var m :| 0 <= m < |paths| && paths[m] == Parent(paths[n]);
    if m in order && |paths[m]| < |paths[order[head + 1]]| {
      LevelDone(paths, order, head, m);
    }
  }

  lemma ExpandedNext(paths: seq<Word>, order: seq<nat>, head: nat, w: Word)
    requires head < |order| && forall k :: 0 <= k < |order| ==> order[k] < |paths|
    ensures Expanded(paths, order, head + 1, w) <==> Expanded(paths, order, head, w) || w == paths[order[head]]
  {
    if k :| 0 <= k < head && paths[order[k]] == w {
      assert Expanded(paths, order, head + 1, w);
    }
    if w == paths[order[head]] {
      assert Expanded(paths, order, head + 1, w);
    }
  }

  /** Done with order[head]: the next node in the queue becomes the current one. */
  lemma Advance(paths: seq<Word>, order: seq<nat>, head: nat)
    requires Shape(paths) && Order(paths, order, head, 256) && head < |order|
    ensures Order(paths, order, head + 1, 0)
  {
    forall n | 0 < n < |paths| ensures n in order <==> Enqueued(paths, order, head + 1, 0, paths[n]) {
      ExpandedNext(paths, order, head, Parent(paths[n]));
    }
    forall n | 0 < n < |paths| && n !in order
      ensures head + 1 < |order| && |paths[order[head + 1]]| < |paths[n]|
    {
      if head + 1 == |order| {
        AllExpanded(paths, order, n);
      } else {
        Deeper(paths, order, head, n);
      }
    }
  }

  lemma EnqueuedStep(paths: seq<Word>, order: seq<nat>, order': seq<nat>, head: nat, b: Byte, w: Word)
    requires head < |order| && order <= order' && w != []
    requires forall k :: 0 <= k < |order'| ==> order'[k] < |paths|
    ensures Enqueued(paths, order', head, b + 1, w) <==>
            Enqueued(paths, order, head, b, w) || w == paths[order[head]] + [b]
  {
    assert w == Parent(w) + [w[|w| - 1]];
    assert (paths[order[head]] + [b])[..|paths[order[head]]|] == paths[order[head]];
    if k :| 0 <= k < head && paths[order[k]] == Parent(w) {
      assert paths[order'[k]] == Parent(w);
    }
    if k :| 0 <= k < head && paths[order'[k]] == Parent(w) {
      assert paths[order[k]] == Parent(w);
    }
  }

  lemma ChildNotEnqueued(paths: seq<Word>, order: seq<nat>, head: nat, b: Byte, child: nat)
    requires Shape(paths) && Order(paths, order, head, b) && head < |order|
    requires 0 < child < |paths| && paths[child] == paths[order[head]] + [b]
    ensures child !in order
  {
    var w := paths[child];
    assert Parent(w) == paths[order[head]] && |w| > 1;
    assert forall k :: 0 <= k < head ==> order[k] != order[head];
    assert !Expanded(paths, order, head, Parent(w));
  }

  lemma SortedSnoc(paths: seq<Word>, order: seq<nat>, head: nat, child: nat)
    requires Sorted(paths, order, head) && head < |order|
    requires 0 < child < |paths| && child !in order && |paths[child]| == |paths[order[head]]| + 1
    ensures Sorted(paths, order + [child], head)
  {
    var order' := order + [child];
    forall j, k | 0 <= j < k < |order'|
      ensures order'[j] != order'[k] && |paths[order'[j]]| <= |paths[order'[k]]|
    {
      assert order'[j] in order;
    }
  }

  /** Linking the child of order[head] by byte b keeps the order invariant. */
  lemma Enqueue(paths: seq<Word>, order: seq<nat>, head: nat, b: Byte, child: nat)
    requires Shape(paths) && Order(paths, order, head, b) && head < |order|
    requires 0 < child < |paths| && paths[child] == paths[order[head]] + [b]
    ensures child !in order && Order(paths, order + [child], head, b + 1)
  {
    ChildNotEnqueued(paths, order, head, b, child);
    SortedSnoc(paths, order, head, child);
    var order' := order + [child];
    forall n | 0 < n < |paths|
      ensures n in order' <==> Enqueued(paths, order', head, b + 1, paths[n])
      ensures n in order' <==> n in order || n == child
    {
      EnqueuedStep(paths, order, order', head, b, paths[n]);
      assert n == child <==> paths[n] == paths[child];
    }
  }

  /** No child of order[head] by byte b: nothing to enqueue. */
  lemma SkipByte(paths: seq<Word>, order: seq<nat>, head: nat, b: Byte)
    requires Shape(paths) && Order(paths, order, head, b) && head < |order|
    requires paths[order[head]] + [b] !in paths
    ensures Order(paths, order, head, b + 1)
  {
    forall n | 0 < n < |paths| ensures n in order <==> Enqueued(paths, order, head, b + 1, paths[n]) {
      EnqueuedStep(paths, order, order, head, b, paths[n]);
    }
  }

  /** During the pass over the root: its children by bytes below byte are in the queue. */
  ghost predicate RootOrder(paths: seq<Word>, order: seq<nat>, byte: int)
    requires Shape(paths)
  {
    && Distinct(order)
    && (forall k :: 0 <= k < |order| ==> 0 < order[k] < |paths|)
    && forall n {:trigger n in order} :: 0 < n < |paths| ==> (n in order <==> |paths[n]| == 1 && paths[n][0] < byte)
  }

  lemma RootDone(paths: seq<Word>, order: seq<nat>)
    requires Shape(paths) && RootOrder(paths, order, 256)
    ensures Order(paths, order, 0, 0)
  {
    assert forall k :: 0 <= k < |order| ==> order[k] in order;
    forall n | 0 < n < |paths| && n !in order ensures |order| > 0 && |paths[order[0]]| < |paths[n]| {
      if order == [] {
        AllExpanded(paths, order, n);
      }
    }
  }

  lemma RootEnqueue(paths: seq<Word>, order: seq<nat>, b: Byte, child: nat)
    requires Shape(paths) && RootOrder(paths, order, b)
    requires 0 < child < |paths| && paths[child] == [b]
    ensures child !in order && RootOrder(paths, order + [child], b + 1)
  {
    forall n | 0 < n < |paths|
      ensures n in order + [child] <==> |paths[n]| == 1 && paths[n][0] < b + 1
    {
      assert n == child <==> paths[n] == paths[child];
      assert |paths[n]| == 1 ==> paths[n] == [paths[n][0]];
    }
  }

  lemma RootSkip(paths: seq<Word>, order: seq<nat>, b: Byte)
    requires Shape(paths) && RootOrder(paths, order, b) && [b] !in paths
    ensures RootOrder(paths, order, b + 1)
  {
    forall n | 0 < n < |paths|
      ensures n in order <==> |paths[n]| == 1 && paths[n][0] < b + 1
    {
      assert |paths[n]| == 1 ==> paths[n] == [paths[n][0]];
    }
  }

  lemma KeepEdges(paths: seq<Word>, trie: seq<TrieNode>, closed: int, k: nat, node: TrieNode)
    requires Edges(paths, trie, closed) && k < |trie| && node.children == trie[k].children
    ensures Edges(paths, trie[k := node], closed)
  {
    var trie' := trie[k := node];
    forall n, c: Byte | 0 <= n < |trie'| ensures EdgeOk(paths, closed, n, c, trie'[n].children[c]) {
      assert EdgeOk(paths, closed, n, c, trie[n].children[c]);
    }
  }

  /** Installing a correct failure link and match list at one more node. */
  lemma LinkNode(pats: seq<Word>, trie: seq<TrieNode>, order: seq<nat>, closed: int, child: nat, node: TrieNode)
    requires Progress(pats, trie, order, closed) && 0 < child < |trie|
    requires node.children == trie[child].children && Linked(pats, TriePaths(pats), node, child)
    ensures Progress(pats, trie[child := node], order + [child], closed)
  {
    KeepEdges(TriePaths(pats), trie, closed, child, node);
    var trie', order' := trie[child := node], order + [child];
    forall n | 0 < n < |trie'|
      ensures NodeOk(pats, TriePaths(pats), trie'[n], n, order')
    {
      assert NodeOk(pats, TriePaths(pats), trie[n], n, order);
    }
  }

  /** A child of the root fails to the root and matches only the patterns that end there. */
  lemma RootChild(pats: seq<Word>, node: TrieNode, child: nat, b: Byte)
    requires Shape(TriePaths(pats)) && 0 < child < |TriePaths(pats)| && TriePaths(pats)[child] == [b]
    requires Unlinked(pats, TriePaths(pats), node, child)
    ensures Linked(pats, TriePaths(pats), node, child)
  {
    assert [b][1..] == [];
    assert HitsAt(pats, [b]) == Copies(pats, [b]) + HitsAt(pats, [b][1..]);
  }

  lemma RootEdge(paths: seq<Word>, trie: seq<TrieNode>, b: Byte)
    requires Shape(paths) && Edges(paths, trie, b)
    ensures trie[0].children[b] == NO_EDGE <==> [b] !in paths
    ensures trie[0].children[b] != NO_EDGE ==>
              0 < trie[0].children[b] < |trie| && paths[trie[0].children[b]] == [b]
  {
    assert EdgeOk(paths, b, 0, b, trie[0].children[b]);
    assert paths[0] + [b] == [b];
  }

  lemma CloseRootEdge(paths: seq<Word>, trie: seq<TrieNode>, b: Byte)
    requires Shape(paths) && Edges(paths, trie, b)
    ensures Edges(paths, if [b] in paths then trie else SetEdge(trie, 0, b, 0), b + 1)
  {
    assert paths[0] + [b] == [b];
    var trie' := if [b] in paths then trie else SetEdge(trie, 0, b, 0);
    forall n, c: Byte | 0 <= n < |trie'| ensures EdgeOk(paths, b + 1, n, c, trie'[n].children[c]) {
      assert EdgeOk(paths, b, n, c, trie[n].children[c]);
    }
  }

  /** The pass over the root at byte b, where the root has a child ... */
  lemma RootHit(pats: seq<Word>, trie: seq<TrieNode>, order: seq<nat>, b: Byte, child: nat)
    requires Progress(pats, trie, order, b) && RootOrder(TriePaths(pats), order, b)
    requires 0 < child < |trie| && TriePaths(pats)[child] == [b]
    ensures RootOrder(TriePaths(pats), order + [child], b + 1)
    ensures Progress(pats, trie[child := trie[child].(failLink := 0)], order + [child], b + 1)
  {
    RootEnqueue(TriePaths(pats), order, b, child);
    assert NodeOk(pats, TriePaths(pats), trie[child], child, order);
    RootChild(pats, trie[child], child, b);
    CloseRootEdge(TriePaths(pats), trie, b);
    LinkNode(pats, trie, order, b + 1, child, trie[child].(failLink := 0));
  }

  /** ... and where it has none. */
  lemma RootMiss(pats: seq<Word>, trie: seq<TrieNode>, order: seq<nat>, b: Byte)
    requires Progress(pats, trie, order, b) && RootOrder(TriePaths(pats), order, b) && [b] !in TriePaths(pats)
    ensures RootOrder(TriePaths(pats), order, b + 1)
    ensures Progress(pats, SetEdge(trie, 0, b, 0), order, b + 1)
  {
    RootSkip(TriePaths(pats), order, b);
    CloseRootEdge(TriePaths(pats), trie, b);
    var trie' := SetEdge(trie, 0, b, 0);
    forall n | 0 < n < |trie'|
      ensures NodeOk(pats, TriePaths(pats), trie'[n], n, order)
    {
      assert NodeOk(pats, TriePaths(pats), trie[n], n, order);
    }
  }

  /** One transition of the finished automaton, or of its finished upper levels. */
  lemma Transition(pats: seq<Word>, trie: seq<TrieNode>, n: nat, b: Byte)
    requires Shape(TriePaths(pats)) && Edges(TriePaths(pats), trie, 256) && n < |trie|
    ensures trie[n].children[b] == NO_EDGE ==> n != 0 && !IsPath(pats, TriePaths(pats)[n] + [b])
    ensures trie[n].children[b] != NO_EDGE ==>
              && 0 <= trie[n].children[b] < |trie|
              && TriePaths(pats)[trie[n].children[b]] == Lps(pats, TriePaths(pats)[n] + [b])
  {
    var paths := TriePaths(pats);
    assert EdgeOk(paths, 256, n, b, trie[n].children[b]);
    TriePathsMember(pats, paths[n] + [b]);
    if n == 0 {
      assert paths[0] + [b] == [b] && [b][1..] == [];
    }
  }

  /** Copies one list of patterns behind another, element by element. */
  method AppendAll(results: seq<Word>, matches: seq<Word>) returns (merged: seq<Word>)
    ensures merged == results + matches
  {
    merged := results;
    for j := 0 to |matches|
      invariant merged == results + matches[..j]
    {
      merged := merged + [matches[j]];
    }
    assert matches[..|matches|] == matches;
  }

  lemma ChildEdge(paths: seq<Word>, trie: seq<TrieNode>, current: nat, b: Byte)
    requires Edges(paths, trie, 256) && 0 < current < |paths|
    ensures trie[current].children[b] == NO_EDGE <==> paths[current] + [b] !in paths
    ensures trie[current].children[b] != NO_EDGE ==>
              0 < trie[current].children[b] < |trie| && paths[trie[current].children[b]] == paths[current] + [b]
  {
    assert EdgeOk(paths, 256, current, b, trie[current].children[b]);
  }

  /** The order in which nodes went through the queue: each non-root node once, by depth. */
  ghost predicate BreadthFirst(pats: seq<Word>, order: seq<nat>)
  {
    var paths := TriePaths(pats);
    && Distinct(order)
    && (forall n :: n in order <==> 0 < n < |paths|)
    && (forall k :: 0 <= k < |order| ==> order[k] < |paths|)
    && forall j, k :: 0 <= j < k < |order| ==> |paths[order[j]]| <= |paths[order[k]]|
  }

  ghost predicate LinkedDownTo(pats: seq<Word>, order: seq<nat>, depth: nat)
  {
    forall n :: 0 < n < |TriePaths(pats)| && |TriePaths(pats)[n]| <= depth ==> n in order
  }

  ghost predicate HopsWithin(pats: seq<Word>, order: seq<nat>, hopsOf: seq<nat>)
  {
    && |hopsOf| == |TriePaths(pats)|
    && forall n :: 0 <= n < |hopsOf| ==>
         hopsOf[n] <= if n in order then Allowance(pats, TriePaths(pats)[n]) else 0
  }

  lemma RecordHops(pats: seq<Word>, order: seq<nat>, hopsOf: seq<nat>, child: nat, h: nat)
    requires HopsWithin(pats, order, hopsOf) && child < |hopsOf| && child !in order
    requires h <= Allowance(pats, TriePaths(pats)[child])
    ensures HopsWithin(pats, order + [child], hopsOf[child := h])
    ensures Sum(hopsOf[child := h]) == Sum(hopsOf) + h
  {
    SumUpdate(hopsOf, child, h);
  }

  ghost function AllNodes(n: nat): (s: set<nat>)
    ensures forall i :: i in s <==> 0 <= i < n
  {
    if n == 0 then {} else AllNodes(n - 1) + {n - 1}
  }

  /** The match list at a finished failure node is the hit list of the child without its first byte. */
  lemma FailNodeMatches(pats: seq<Word>, trie: seq<TrieNode>, order: seq<nat>, child: nat, failNode: nat)
    requires Progress(pats, trie, order, 256) && 0 < child < |trie| && child !in order
    requires failNode < |trie| && (failNode == 0 || failNode in order)
    requires TriePaths(pats)[failNode] == Lps(pats, TriePaths(pats)[child][1..])
    ensures trie[failNode].matchedPatterns == HitsAt(pats, TriePaths(pats)[child][1..])
    ensures trie[child].matchedPatterns + trie[failNode].matchedPatterns == HitsAt(pats, TriePaths(pats)[child])
  {
    HitsAtLps(pats, TriePaths(pats)[child][1..]);
    assert NodeOk(pats, TriePaths(pats), trie[child], child, order);
    assert Unlinked(pats, TriePaths(pats), trie[child], child);
    if failNode != 0 {
      assert NodeOk(pats, TriePaths(pats), trie[failNode], failNode, order);
      assert Linked(pats, TriePaths(pats), trie[failNode], failNode);
    }
  }

  /** With the queue empty, every node has been linked. */
  lemma Finished(pats: seq<Word>, trie: seq<TrieNode>, order: seq<nat>)
    requires Progress(pats, trie, order, 256) && Order(TriePaths(pats), order, |order|, 0)
    ensures CompiledTrie(pats, trie) && BreadthFirst(pats, order)
  {
    var paths := TriePaths(pats);
    forall n ensures n in order <==> 0 < n < |paths| {
      if n in order {
        var k :| 0 <= k < |order| && order[k] == n;
      }
    }
    forall n | 0 < n < |trie| ensures Linked(pats, paths, trie[n], n) {
      assert n in order && NodeOk(pats, paths, trie[n], n, order);
    }
  }

  lemma HopsBound(pats: seq<Word>, order: seq<nat>, hopsOf: seq<nat>)
    requires HopsWithin(pats, order, hopsOf)
    ensures Sum(hopsOf) <= TotalLength(pats)
  {
    SumWithinAllowance(pats, TriePaths(pats), hopsOf);
    TriePathsAllowance(pats, pats);
  }

  /**
   What BuildMachine leaves at a non-root node: the failure link is the longest proper suffix
   of the node's path that is itself a path, and the match list is the node's own patterns
   followed by everything listed there.
   */
  lemma FailureLinks(pats: seq<Word>, trie: seq<TrieNode>, n: nat)
    requires CompiledTrie(pats, trie) && 0 < n < |trie|
    ensures 0 <= trie[n].failLink < |trie|
    ensures var w, f := TriePaths(pats)[n], TriePaths(pats)[trie[n].failLink];
            && |f| < |w| && IsSuffix(f, w)
            && forall u :: IsPath(pats, u) && IsSuffix(u, w) && |u| < |w| ==> |u| <= |f|
    ensures trie[n].matchedPatterns == Copies(pats, TriePaths(pats)[n]) + trie[trie[n].failLink].matchedPatterns
  {
    var w := TriePaths(pats)[n];
    assert Linked(pats, TriePaths(pats), trie[n], n);
    LongestProperSuffix(pats, w);
    Arrive(pats, trie, trie[n].failLink, w[1..]);
  }

  /** A hop over a failure link keeps the transition's target and shortens the path. */
  lemma FailHop(pats: seq<Word>, trie: seq<TrieNode>, n: nat, b: Byte)
    requires CompiledTrie(pats, trie) && 0 < n < |trie| && trie[n].children[b] == NO_EDGE
    ensures 0 <= trie[n].failLink < |trie|
    ensures |TriePaths(pats)[trie[n].failLink]| < |TriePaths(pats)[n]|
    ensures Lps(pats, TriePaths(pats)[trie[n].failLink] + [b]) == Lps(pats, TriePaths(pats)[n] + [b])
  {
    Transition(pats, trie, n, b);
    FailStep(pats, TriePaths(pats)[n], b);
    assert Linked(pats, TriePaths(pats), trie[n], n);
  }

  /** The match list of the node that stands for a history is the hit list of that history. */
  lemma Arrive(pats: seq<Word>, trie: seq<TrieNode>, n: nat, history: Word)
    requires CompiledTrie(pats, trie) && n < |trie| && TriePaths(pats)[n] == Lps(pats, history)
    ensures trie[n].matchedPatterns == HitsAt(pats, history)
  {
    HitsAtLps(pats, history);
    assert n != 0 ==> Linked(pats, TriePaths(pats), trie[n], n);
  }

  class PatternMatcher {
    var trie: seq<TrieNode>
    ghost var patterns: seq<Word>

    /** Patterns may still be added. */
    ghost predicate Open()
      reads this
    {
      OpenTrie(patterns, trie)
    }

    /** The machine is built and may be used for searching. */
    ghost predicate Compiled()
      reads this
    {
      CompiledTrie(patterns, trie)
    }

    constructor ()
      ensures Open() && patterns == []
    {
      trie := [EMPTY_NODE];
      patterns := [];
    }

    method AddPattern(pattern: Word)
      requires Open()
      modifies this
      ensures Open() && patterns == old(patterns) + [pattern]
    {
      ghost var pats := patterns;
      ghost var paths := TriePaths(pats);
      TriePathsShape(pats);
      var currentNode := 0;
      for k := 0 to |pattern|
        invariant patterns == pats && Growing(pats, paths, trie)
        invariant 0 <= currentNode < |trie| && paths[currentNode] == pattern[..k]
        invariant Insert(paths, pattern, k) == Insert(TriePaths(pats), pattern, 0)
      {
        var byteVal := pattern[k];
        ghost var w := paths[currentNode] + [byteVal];
        assert w == pattern[..k + 1];
        assert EdgeOk(paths, 0, currentNode, byteVal, trie[currentNode].children[byteVal]);
        if trie[currentNode].children[byteVal] == NO_EDGE {
          Grow(pats, paths, trie, currentNode, byteVal);
          trie := SetEdge(trie, currentNode, byteVal, |trie|);
          trie := trie + [EMPTY_NODE];
          paths := paths + [w];
        }
        currentNode := trie[currentNode].children[byteVal];
      }
      assert pattern[..|pattern|] == pattern;
      assert (pats + [pattern])[..|pats|] == pats;
      assert paths == TriePaths(pats + [pattern]);
      Mark(pats, pattern, trie, currentNode);
      trie := trie[currentNode := trie[currentNode].(matchedPatterns := trie[currentNode].matchedPatterns + [pattern])];
      patterns := patterns + [pattern];
    }

    /** Compiles the automaton. Every non-root node enters the queue once, in depth order. */
    method BuildMachine() returns (ghost order: seq<nat>, ghost hops: nat)
      requires Open() && NonemptyPatterns(patterns)
      modifies this
      ensures Compiled() && patterns == old(patterns)
      ensures BreadthFirst(patterns, order)
      ensures hops <= TotalLength(patterns)
    {
      ghost var pats, paths := patterns, TriePaths(patterns);
      var q := CloseRoot();
      order := q;
      RootDone(paths, order);
      ghost var hopsOf := seq(|paths|, _ => 0);
      SumOfZeros(hopsOf);
      hops := 0;
      ghost var head := 0;
      ghost var pending := AllNodes(|paths|);
      while |q| > 0
        invariant patterns == pats
        invariant Progress(pats, trie, order, 256) && Order(paths, order, head, 0) && q == order[head..]
        invariant HopsWithin(pats, order, hopsOf) && hops == Sum(hopsOf)
        invariant forall n :: n in pending <==> 0 <= n < |paths| && n !in order[..head]
        decreases pending
      {
        pending := pending - {q[0]};
        ghost var h;
        q, order, hopsOf, h := LinkFront(q, order, head, hopsOf);
        hops := hops + h;
        head := head + 1;
      }
      HopsBound(pats, order, hopsOf);
      assert head == |order|;
      Finished(pats, trie, order);
    }

    /** Takes the front node from the queue, links its children, and enqueues them. */
    method LinkFront(q: seq<nat>, ghost order: seq<nat>, ghost head: nat, ghost hopsBefore: seq<nat>)
      returns (rest: seq<nat>, ghost longer: seq<nat>, ghost hopsOf: seq<nat>, ghost hops: nat)
      requires Progress(patterns, trie, order, 256) && Order(TriePaths(patterns), order, head, 0)
      requires head < |order| && q == order[head..] && HopsWithin(patterns, order, hopsBefore)
      modifies this
      ensures patterns == old(patterns)
      ensures Progress(patterns, trie, longer, 256) && Order(TriePaths(patterns), longer, head + 1, 0)
      ensures head + 1 <= |longer| && rest == longer[head + 1..] && longer[..head + 1] == order[..head] + [q[0]]
      ensures q[0] < |TriePaths(patterns)| && q[0] !in order[..head]
      ensures HopsWithin(patterns, longer, hopsOf) && Sum(hopsOf) == Sum(hopsBefore) + hops
    {
      var current := q[0];
      rest := q[1..];
      var children;
      children, hopsOf, hops := LinkChildren(current, order, head, hopsBefore);
      rest := rest + children;
      QueueStep(order, head, children);
      longer := order + children;
      Advance(TriePaths(patterns), longer, head);
    }

    /** The pass over the root: its children fail to it, its missing edges loop back to it. */
    method CloseRoot() returns (q: seq<nat>)
      requires Open() && NonemptyPatterns(patterns)
      modifies this
      ensures patterns == old(patterns)
      ensures Progress(patterns, trie, q, 256) && RootOrder(TriePaths(patterns), q, 256)
    {
      ghost var pats, paths := patterns, TriePaths(patterns);
      TriePathsShape(pats);
      CopiesAbsent(pats, []);
      assert Unlinked(pats, paths, trie[0], 0);
      q := [];
      for i := 0 to 256
        invariant patterns == pats
        invariant Progress(pats, trie, q, i) && RootOrder(paths, q, i)
      {
        var child := trie[0].children[i];
        RootEdge(paths, trie, i);
        if child != NO_EDGE {
          RootHit(pats, trie, q, i, child);
          trie := trie[child := trie[child].(failLink := 0)];
          q := q + [child];
        } else {
          RootMiss(pats, trie, q, i);
          trie := SetEdge(trie, 0, i, 0);
        }
      }
    }

    /** Links and enqueues the children of the node just taken from the queue. */
    method LinkChildren(current: nat, ghost order: seq<nat>, ghost head: nat, ghost hopsBefore: seq<nat>)
      returns (children: seq<nat>, ghost hopsOf: seq<nat>, ghost hops: nat)
      requires Progress(patterns, trie, order, 256) && Order(TriePaths(patterns), order, head, 0)
      requires head < |order| && order[head] == current
      requires HopsWithin(patterns, order, hopsBefore)
      modifies this
      ensures patterns == old(patterns)
      ensures Progress(patterns, trie, order + children, 256)
      ensures Order(TriePaths(patterns), order + children, head, 256)
      ensures HopsWithin(patterns, order + children, hopsOf) && Sum(hopsOf) == Sum(hopsBefore) + hops
    {
      ghost var pats, paths := patterns, TriePaths(patterns);
      children, hopsOf, hops := [], hopsBefore, 0;
      assert order + children == order;
      for i := 0 to 256
        invariant patterns == pats
        invariant Progress(pats, trie, order + children, 256) && Order(paths, order + children, head, i)
        invariant HopsWithin(pats, order + children, hopsOf) && Sum(hopsOf) == Sum(hopsBefore) + hops
      {
        var child := trie[current].children[i];
        assert (order + children)[head] == current;
        ChildEdge(paths, trie, current, i);
        if child != NO_EDGE {
          Enqueue(paths, order + children, head, i, child);
          ghost var h := LinkChild(current, i, child, order + children);
          RecordHops(pats, order + children, hopsOf, child, h);
          hopsOf := hopsOf[child := h];
          hops := hops + h;
          var enqueued: nat := child;
          Assoc(order, children, [enqueued]);
          children := children + [enqueued];
        } else {
          SkipByte(paths, order + children, head, i);
        }
      }
    }

    /** Finds the failure link of one child of current and merges the match list found there. */
    method LinkChild(current: nat, i: Byte, child: nat, ghost order: seq<nat>) returns (ghost hops: nat)
      requires Progress(patterns, trie, order, 256)
      requires 0 < current < |trie| && 0 < child < |trie| && child !in order
      requires TriePaths(patterns)[child] == TriePaths(patterns)[current] + [i]
      requires LinkedDownTo(patterns, order, |TriePaths(patterns)[current]|)
      modifies this
      ensures patterns == old(patterns)
      ensures Progress(patterns, trie, order + [child], 256)
      ensures hops <= Allowance(patterns, TriePaths(patterns)[child])
    {
      ghost var pats, paths := patterns, TriePaths(patterns);
      ghost var w := paths[current];
      var failState;
      failState, hops := FindFail(current, i, order);
      var actualFailNode := trie[failState].children[i];
      SnocSlices(w, i);
      var matches := trie[actualFailNode].matchedPatterns;
      FailNodeMatches(pats, trie, order, child, actualFailNode);
      var merged := AppendAll(trie[child].matchedPatterns, matches);
      ghost var node := TrieNode(trie[child].children, actualFailNode, merged);
      LinkNode(pats, trie, order, 256, child, node);
      UpdateTwice(trie, child, trie[child].(failLink := actualFailNode), node);
      trie := trie[child := trie[child].(failLink := actualFailNode)];
      trie := trie[child := trie[child].(matchedPatterns := merged)];
    }

    /** Follows failure links from current's until the byte has an edge. */
    method FindFail(current: nat, i: Byte, ghost order: seq<nat>) returns (failState: nat, ghost hops: nat)
      requires Progress(patterns, trie, order, 256)
      requires 0 < current < |trie|
      requires LinkedDownTo(patterns, order, |TriePaths(patterns)[current]|)
      ensures failState < |trie| && 0 <= trie[failState].children[i] < |trie|
      ensures TriePaths(patterns)[trie[failState].children[i]] == Lps(patterns, TriePaths(patterns)[current][1..] + [i])
      ensures |TriePaths(patterns)[trie[failState].children[i]]| <= |TriePaths(patterns)[current]|
      ensures hops + |TriePaths(patterns)[trie[failState].children[i]]|
              <= FailDepth(patterns, TriePaths(patterns)[current]) + 1
    {
      ghost var pats, paths := patterns, TriePaths(patterns);
      ghost var w := paths[current];
      assert current in order && NodeOk(pats, paths, trie[current], current, order);
      LpsStep(pats, w[1..], i);
      failState := trie[current].failLink;
      hops := 0;
      while trie[failState].children[i] == NO_EDGE
        invariant 0 <= failState < |trie| && |paths[failState]| < |w|
        invariant Lps(pats, paths[failState] + [i]) == Lps(pats, w[1..] + [i])
        invariant hops + |paths[failState]| <= FailDepth(pats, w)
        decreases |paths[failState]|
      {
        Transition(pats, trie, failState, i);
        assert failState in order && NodeOk(pats, paths, trie[failState], failState, order);
        FailStep(pats, paths[failState], i);
        failState := trie[failState].failLink;
        hops := hops + 1;
      }
      Transition(pats, trie, failState, i);
    }

    /** One byte of the scan: failure links until the byte has an edge, then that edge. */
    method NextState(state: nat, byteVal: Byte, ghost history: Word) returns (next: nat, ghost hops: nat)
      requires Compiled() && state < |trie| && TriePaths(patterns)[state] == Lps(patterns, history)
      ensures next < |trie| && TriePaths(patterns)[next] == Lps(patterns, history + [byteVal])
      ensures trie[next].matchedPatterns == HitsAt(patterns, history + [byteVal])
      ensures hops + |TriePaths(patterns)[next]| <= |TriePaths(patterns)[state]| + 1
    {
      ghost var pats, paths := patterns, TriePaths(patterns);
      LpsStep(pats, history, byteVal);
      next, hops := state, 0;
      while next != 0 && trie[next].children[byteVal] == NO_EDGE
        invariant 0 <= next < |trie|
        invariant Lps(pats, paths[next] + [byteVal]) == Lps(pats, history + [byteVal])
        invariant hops + |paths[next]| <= |paths[state]|
        decreases |paths[next]|
      {
        FailHop(pats, trie, next, byteVal);
        next := trie[next].failLink;
        hops := hops + 1;
      }
      Transition(pats, trie, next, byteVal);
      next := trie[next].children[byteVal];
      Arrive(pats, trie, next, history + [byteVal]);
    }

    /**
     Scans one segment from currentState. The alerts are those of the naive definition for any
     history that leads to currentState, and the state returned is that of the longer history.
     */
    method Search(payload: Word, currentState: nat) returns (results: seq<Word>, finalState: nat, ghost hops: nat)
      requires Compiled() && currentState < |trie|
      ensures finalState < |trie|
      ensures results == Alerts(patterns, TriePaths(patterns)[currentState], payload)
      ensures finalState == NodeAfter(patterns, TriePaths(patterns)[currentState] + payload)
      ensures hops + |TriePaths(patterns)[finalState]| <= |payload| + |TriePaths(patterns)[currentState]|
    {
      ghost var pats, paths := patterns, TriePaths(patterns);
      ghost var start := paths[currentState];
      TriePathsMember(pats, start);
      results, finalState, hops := [], currentState, 0;
      for i := 0 to |payload|
        invariant 0 <= finalState < |trie|
        invariant paths[finalState] == Lps(pats, start + payload[..i])
        invariant results == Alerts(pats, start, payload[..i])
        invariant hops + |paths[finalState]| <= i + |start|
      {
        ghost var h;
        finalState, h := NextState(finalState, payload[i], start + payload[..i]);
        hops := hops + h;
        AlertsSnoc(pats, start, payload[..i], payload[i]);
        TakeSnoc(payload, i);
        assert start + payload[..i + 1] == start + payload[..i] + [payload[i]];
        var matches := trie[finalState].matchedPatterns;
        if matches != [] {
          results := AppendAll(results, matches);
        }
      }
      assert payload[..|payload|] == payload;
    }

    /**
     Scans a stream that arrives in segments, empty ones included, carrying the state from call to
     call: the alerts and the final state are those of one scan of the whole stream.
     */
    method SearchSegments(segments: seq<Word>, currentState: nat)
      returns (results: seq<Word>, finalState: nat, ghost hops: nat)
      requires Compiled() && currentState < |trie|
      ensures finalState < |trie|
      ensures results == Alerts(patterns, TriePaths(patterns)[currentState], Flatten(segments))
      ensures finalState == NodeAfter(patterns, TriePaths(patterns)[currentState] + Flatten(segments))
      ensures hops + |TriePaths(patterns)[finalState]| <= |Flatten(segments)| + |TriePaths(patterns)[currentState]|
    {
      ghost var pats, paths := patterns, TriePaths(patterns);
      ghost var start := paths[currentState];
      TriePathsMember(pats, start);
      results, finalState, hops := [], currentState, 0;
      for i := 0 to |segments|
        invariant 0 <= finalState < |trie|
        invariant paths[finalState] == Lps(pats, start + Flatten(segments[..i]))
        invariant results == SegmentAlerts(pats, start, segments[..i])
        invariant hops + |paths[finalState]| <= |Flatten(segments[..i])| + |start|
      {
        var alerts;
        ghost var h;
        ghost var history := start + Flatten(segments[..i]);
        alerts, finalState, h := Search(segments[i], finalState);
        LpsSplit(pats, history, segments[i]);
        TakeSnoc(segments, i);
        SnocSlices(segments[..i], segments[i]);
        Assoc(start, Flatten(segments[..i]), segments[i]);
        hops := hops + h;
        results := results + alerts;
      }
      assert segments[..|segments|] == segments;
      SegmentationIrrelevant(pats, start, segments);
    }
  }
}
