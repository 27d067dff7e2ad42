/** Sequence facts that the solver does not find on its own in larger proofs. */
module SeqFacts {
  ghost predicate Distinct<T(!new)>(s: seq<T>)
  {
    forall i, j :: 0 <= i < j < |s| ==> s[i] != s[j]
  }

  function IndexOf<T(==)>(s: seq<T>, x: T): (i: nat)
    requires x in s
    ensures i < |s| && s[i] == x
  {
    if s[0] == x then 0 else 1 + IndexOf(s[1..], x)
  }

  lemma TakeSnoc<T>(s: seq<T>, i: nat)
    requires i < |s|
    ensures s[..i + 1] == s[..i] + [s[i]]
  {
  }

  lemma Assoc<T>(a: seq<T>, b: seq<T>, c: seq<T>)
    ensures a + b + c == a + (b + c)
  {
  }

  lemma SnocSlices<T>(w: seq<T>, c: T)
    ensures (w + [c])[..|w|] == w
    ensures w != [] ==> (w + [c])[1..] == w[1..] + [c]
  {
  }

  lemma UpdateTwice<T>(s: seq<T>, i: nat, a: T, b: T)
    requires i < |s|
    ensures s[i := a][i := b] == s[i := b]
  {
  }

  /** Taking the front of a queue that is the rest of a longer list, and adding at the back. */
  lemma QueueStep<T>(all: seq<T>, head: nat, more: seq<T>)
    requires head < |all|
    ensures all[head..][1..] + more == (all + more)[head + 1..]
    ensures (all + more)[..head + 1] == all[..head] + [all[head]]
  {
  }
}
