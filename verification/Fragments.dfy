/**
 IPv4 reassembly on values: a key's fragments in order of acceptance, what they amount to, and
 what one call or one eviction does to the table. Section 3.2 of RFC 791.
 */
module Fragments {
  import opened Bytes
  import opened Time
  import opened Options

  const MAX_DATAGRAM_SIZE := 65535
  const FRAGMENT_TIMEOUT_SECONDS := 30
  const MAX_CONCURRENT_DATAGRAMS := 4096

  datatype FragmentKey = FragmentKey(srcIp: nat, destIp: nat, identification: nat, protocol: nat)

  /** offset is in bytes; more is the MF bit. */
  datatype Fragment = Fragment(offset: nat, bytes: Word, more: bool)

  function End(f: Fragment): nat
  {
    f.offset + |f.bytes|
  }

  predicate Covers(f: Fragment, j: nat)
  {
    f.offset <= j < End(f)
  }

  /** The byte at j: that of the last accepted fragment covering it. */
  function ByteAt(h: seq<Fragment>, j: nat): Option<Byte>
  {
    if h == [] then None
    else
      var f := h[|h| - 1];
      if Covers(f, j) then Some(f.bytes[j - f.offset]) else ByteAt(h[..|h| - 1], j)
  }

  /** The length announced by the latest MF=0 fragment. */
  function TotalLength(h: seq<Fragment>): Option<nat>
  {
    if h == [] then None
    else if !h[|h| - 1].more then Some(End(h[|h| - 1]))
    else TotalLength(h[..|h| - 1])
  }

  function Extent(h: seq<Fragment>): nat
  {
    if h == [] then 0
    else
      var before := Extent(h[..|h| - 1]);
      if End(h[|h| - 1]) > before then End(h[|h| - 1]) else before
  }

  ghost predicate Covered(h: seq<Fragment>, n: nat)
  {
    forall j :: 0 <= j < n ==> ByteAt(h, j).Some?
  }

  /** Some MF=0 fragment is in, and everything below the end of the latest one is covered. */
  ghost predicate Complete(h: seq<Fragment>)
  {
    TotalLength(h).Some? && Covered(h, TotalLength(h).value)
  }

  ghost function Assembled(h: seq<Fragment>, n: nat): (d: Word)
    requires Covered(h, n)
    ensures |d| == n && forall j :: 0 <= j < n ==> Some(d[j]) == ByteAt(h, j)
  {
    seq(n, j requires 0 <= j < n => assert ByteAt(h, j).Some?; ByteAt(h, j).value)
  }

  /** The last fragment covering j decides, whatever earlier ones said. */
  lemma {:induction false} ByteAtMeaning(h: seq<Fragment>, j: nat, i: nat)
    requires i < |h| && Covers(h[i], j)
    requires forall k :: i < k < |h| ==> !Covers(h[k], j)
    ensures ByteAt(h, j) == Some(h[i].bytes[j - h[i].offset])
  {
    if i < |h| - 1 {
      ByteAtMeaning(h[..|h| - 1], j, i);
    }
  }

  lemma {:induction false} ByteAtSome(h: seq<Fragment>, j: nat)
    ensures ByteAt(h, j).Some? <==> exists i :: 0 <= i < |h| && Covers(h[i], j)
  {
    if h != [] {
      var n := |h| - 1;
      ByteAtSome(h[..n], j);
      if i :| 0 <= i < n && Covers(h[..n][i], j) {
        assert Covers(h[i], j);
      }
      if i :| 0 <= i < |h| && Covers(h[i], j) {
        assert i < n ==> Covers(h[..n][i], j);
      }
    }
  }

  /** Fragment i is the latest one with MF=0. */
  predicate LatestEnd(h: seq<Fragment>, i: nat)
  {
    i < |h| && !h[i].more && forall k :: i < k < |h| ==> h[k].more
  }

  /** The latest fragment with MF=0 tells the length, whatever earlier ones said. */
  lemma {:induction false} TotalLengthMeaning(h: seq<Fragment>)
    ensures TotalLength(h).Some? <==> exists i: nat :: LatestEnd(h, i)
    ensures forall i: nat :: LatestEnd(h, i) ==> TotalLength(h) == Some(h[i].offset + |h[i].bytes|)
  {
    if h != [] {
      var n := |h| - 1;
      TotalLengthMeaning(h[..n]);
      if h[n].more {
        forall i: nat ensures LatestEnd(h, i) <==> LatestEnd(h[..n], i) {
          assert LatestEnd(h[..n], i) ==> h[..n][i] == h[i];
        }
        assert forall i: nat :: LatestEnd(h, i) ==> TotalLength(h) == Some(h[i].offset + |h[i].bytes|);
        if i: nat :| LatestEnd(h[..n], i) {
          assert LatestEnd(h, i);
        }
        if i: nat :| LatestEnd(h, i) {
          assert LatestEnd(h[..n], i);
        }
      } else {
        assert LatestEnd(h, n);
      }
    }
  }

  // ----- The table of datagrams in flight

  datatype Pending = Pending(fragments: seq<Fragment>, firstSeen: nat)

  predicate Acceptable(f: Fragment)
  {
    f.bytes != [] && End(f) <= MAX_DATAGRAM_SIZE
  }

  ghost function History(p: map<FragmentKey, Pending>, key: FragmentKey): seq<Fragment>
  {
    if key in p then p[key].fragments else []
  }

  /** One call: the new table, and the datagram if this fragment completed it. */
  ghost function Deliver(p: map<FragmentKey, Pending>, key: FragmentKey, f: Fragment, now: nat)
    : (map<FragmentKey, Pending>, Option<Word>)
  {
    if !Acceptable(f) || (key !in p && |p| >= MAX_CONCURRENT_DATAGRAMS) then (p, None)
    else
      var h := History(p, key) + [f];
      if Complete(h) then (p - {key}, Some(Assembled(h, TotalLength(h).value)))
      else (p[key := Pending(h, if key in p then p[key].firstSeen else now)], None)
  }

  /** Byte j is in some fragment. */
  ghost predicate InSome(h: seq<Fragment>, j: nat)
  {
    exists m :: 0 <= m < |h| && Covers(h[m], j)
  }

  /** Every byte below n is. */
  ghost predicate Filled(h: seq<Fragment>, n: nat)
  {
    forall j :: 0 <= j < n ==> InSome(h, j)
  }

  lemma {:induction false} CoveredIsFilled(h: seq<Fragment>, n: nat)
    ensures Covered(h, n) <==> Filled(h, n)
  {
    forall j | 0 <= j < n ensures ByteAt(h, j).Some? <==> InSome(h, j) {
      ByteAtSome(h, j);
    }
  }

  /** Fragments that are refused: empty ones, those beyond 65535 bytes, and new keys when 4096 are in flight. */
  lemma DeliverRefuses(p: map<FragmentKey, Pending>, key: FragmentKey, f: Fragment, now: nat)
    requires f.bytes == [] || f.offset + |f.bytes| > 65535 || (key !in p && |p| >= 4096)
    ensures Deliver(p, key, f, now) == (p, None)
  {
  }

  /**
   All others join their key's history h. The datagram comes out exactly when a fragment with MF=0 is in and
   everything below the end of the latest one is filled; then the key is gone. Other keys are untouched.
   */
  lemma {:induction false} DeliverMeaning(p: map<FragmentKey, Pending>, key: FragmentKey, f: Fragment, now: nat)
    requires f.bytes != [] && f.offset + |f.bytes| <= 65535 && (key in p || |p| < 4096)
    ensures var h := (if key in p then p[key].fragments else []) + [f];
            var (p', out) := Deliver(p, key, f, now);
            && (out.Some? <==> exists i: nat :: LatestEnd(h, i) && Filled(h, h[i].offset + |h[i].bytes|))
            && (out.None? ==> p' == p[key := Pending(h, if key in p then p[key].firstSeen else now)])
            && (out.Some? ==> p' == p - {key}
                              && forall i: nat :: LatestEnd(h, i) ==> |out.value| == h[i].offset + |h[i].bytes|)
  {
    var h := (if key in p then p[key].fragments else []) + [f];
    TotalLengthMeaning(h);
    if TotalLength(h).Some? {
      CoveredIsFilled(h, TotalLength(h).value);
    }
  }

  /** Each byte that comes out is that of the last accepted fragment covering its place. */
  lemma {:induction false} DeliveredBytes(p: map<FragmentKey, Pending>, key: FragmentKey, f: Fragment, now: nat,
                                          j: nat, m: nat)
    requires Deliver(p, key, f, now).1.Some? && j < |Deliver(p, key, f, now).1.value|
    requires var h := (if key in p then p[key].fragments else []) + [f];
             m < |h| && Covers(h[m], j) && forall k :: m < k < |h| ==> !Covers(h[k], j)
    ensures var h := (if key in p then p[key].fragments else []) + [f];
            Deliver(p, key, f, now).1.value[j] == h[m].bytes[j - h[m].offset]
  {
    ByteAtMeaning((if key in p then p[key].fragments else []) + [f], j, m);
  }

  /** Eviction drops exactly the keys that have waited more than thirty whole seconds. */
  lemma EvictMeaning(p: map<FragmentKey, Pending>, now: nat)
    ensures forall k :: k in EvictExpired(p, now) <==>
              k in p && (p[k].firstSeen <= now ==> (now - p[k].firstSeen) / 1_000_000_000 <= 30)
    ensures forall k :: k in EvictExpired(p, now) ==> EvictExpired(p, now)[k] == p[k]
  {
  }

  predicate Expired(firstSeen: nat, now: nat)
  {
    WholeSeconds(firstSeen, now) > FRAGMENT_TIMEOUT_SECONDS
  }

  ghost function EvictExpired(p: map<FragmentKey, Pending>, now: nat): map<FragmentKey, Pending>
  {
    map k | k in p && !Expired(p[k].firstSeen, now) :: p[k]
  }

  // ----- Any delivery of one datagram's fragments puts it back together

  datatype Call = Arrive(key: FragmentKey, fragment: Fragment, now: nat) | Collect(now: nat)

  ghost function Step(p: map<FragmentKey, Pending>, c: Call): map<FragmentKey, Pending>
  {
    match c
    case Arrive(key, f, now) => Deliver(p, key, f, now).0
    case Collect(now) => EvictExpired(p, now)
  }

  /** A fragment of datagram d: 8-byte aligned, with d's bytes, MF clear only at d's end. */
  ghost predicate Piece(d: Word, f: Fragment)
  {
    && f.bytes != [] && f.offset % 8 == 0 && End(f) <= |d|
    && f.bytes == d[f.offset..End(f)]
    && (f.more <==> End(f) < |d|)
  }

  ghost predicate Pieces(d: Word, key: FragmentKey, calls: seq<Call>)
  {
    forall i :: 0 <= i < |calls| && calls[i].Arrive? && calls[i].key == key ==> Piece(d, calls[i].fragment)
  }

  /** The table has room when the key first turns up, and no collection takes the key away. */
  ghost predicate Undisturbed(p: map<FragmentKey, Pending>, key: FragmentKey, calls: seq<Call>)
    decreases |calls|
  {
    calls == [] ||
    (&& (match calls[0]
         case Arrive(k, _, _) => k == key ==> key in p || |p| < MAX_CONCURRENT_DATAGRAMS
         case Collect(now) => key in p ==> !Expired(p[key].firstSeen, now))
     && Undisturbed(Step(p, calls[0]), key, calls[1..]))
  }

  /** The first call that completes the key's datagram, and what it returns. */
  ghost function FirstOutput(p: map<FragmentKey, Pending>, key: FragmentKey, calls: seq<Call>): Option<(nat, Word)>
    decreases |calls|
  {
    if calls == [] then None
    else
      var c := calls[0];
      if c.Arrive? && c.key == key && Deliver(p, key, c.fragment, c.now).1.Some?
      then Some((0, Deliver(p, key, c.fragment, c.now).1.value))
      else
        match FirstOutput(Step(p, c), key, calls[1..])
        case None => None
        case Some(r) => Some((r.0 + 1, r.1))
  }

  /** The first call after which the key's fragments, h and then those delivered, cover n bytes. */
  ghost function FirstCover(h: seq<Fragment>, key: FragmentKey, calls: seq<Call>, n: nat): Option<nat>
    decreases |calls|
  {
    if calls == [] then None
    else
      var c := calls[0];
      var h' := if c.Arrive? && c.key == key then h + [c.fragment] else h;
      if Covered(h', n) then Some(0)
      else
        match FirstCover(h', key, calls[1..], n)
        case None => None
        case Some(i) => Some(i + 1)
  }

  lemma {:induction false} PiecesAgree(d: Word, h: seq<Fragment>, j: nat)
    requires forall i :: 0 <= i < |h| ==> Piece(d, h[i])
    ensures ByteAt(h, j).Some? ==> j < |d| && ByteAt(h, j) == Some(d[j])
  {
    if h != [] {
      PiecesAgree(d, h[..|h| - 1], j);
    }
  }

  lemma {:induction false} PiecesLength(d: Word, h: seq<Fragment>)
    requires forall i :: 0 <= i < |h| ==> Piece(d, h[i])
    ensures TotalLength(h).Some? ==> TotalLength(h) == Some(|d|)
    ensures |d| > 0 && ByteAt(h, |d| - 1).Some? ==> TotalLength(h).Some?
  {
    if h != [] {
      PiecesLength(d, h[..|h| - 1]);
    }
  }

  /** For pieces of one datagram, complete means covered, and the bytes are the datagram's. */
  lemma PiecesComplete(d: Word, h: seq<Fragment>)
    requires d != [] && forall i :: 0 <= i < |h| ==> Piece(d, h[i])
    ensures Complete(h) <==> Covered(h, |d|)
    ensures Complete(h) ==> Assembled(h, TotalLength(h).value) == d
  {
    PiecesLength(d, h);
    if Complete(h) {
      forall j | 0 <= j < |d| ensures ByteAt(h, j) == Some(d[j]) {
        PiecesAgree(d, h, j);
      }
    }
  }

  lemma OtherKeys(p: map<FragmentKey, Pending>, key: FragmentKey, c: Call)
    requires c.Arrive? ==> c.key != key
    requires c.Collect? && key in p ==> !Expired(p[key].firstSeen, c.now)
    ensures key in Step(p, c) <==> key in p
    ensures key in p ==> Step(p, c)[key] == p[key]
  {
  }

  /** One more piece of d for the key: accepted, and the datagram is out exactly when it is covered. */
  lemma OwnCall(p: map<FragmentKey, Pending>, key: FragmentKey, d: Word, f: Fragment, now: nat)
    requires 1 <= |d| <= MAX_DATAGRAM_SIZE && Piece(d, f)
    requires forall i :: 0 <= i < |History(p, key)| ==> Piece(d, History(p, key)[i])
    requires key in p || |p| < MAX_CONCURRENT_DATAGRAMS
    ensures var h := History(p, key) + [f];
            && Deliver(p, key, f, now).1 == (if Covered(h, |d|) then Some(d) else None)
            && (!Covered(h, |d|) ==> History(Deliver(p, key, f, now).0, key) == h)
  {
    PiecesComplete(d, History(p, key) + [f]);
  }

  /**
   Any order, with duplicates, overlaps and other keys in between: the key's datagram comes back at
   exactly the first call after which its fragments cover it, and it is the original one.
   */
  lemma {:induction false} Reassembles(p: map<FragmentKey, Pending>, key: FragmentKey, d: Word, calls: seq<Call>)
    requires 1 <= |d| <= MAX_DATAGRAM_SIZE
    requires forall i :: 0 <= i < |History(p, key)| ==> Piece(d, History(p, key)[i])
    requires !Covered(History(p, key), |d|)
    requires Pieces(d, key, calls) && Undisturbed(p, key, calls)
    ensures FirstOutput(p, key, calls) ==
              match FirstCover(History(p, key), key, calls, |d|)
              case None => None
              case Some(i) => Some((i, d))
    decreases |calls|
  {
    if calls != [] {
      var c, rest := calls[0], calls[1..];
      assert Pieces(d, key, rest) by {
        assert forall i :: 0 <= i < |rest| ==> rest[i] == calls[i + 1];
      }
      var h, p' := History(p, key), Step(p, c);
      if c.Arrive? && c.key == key {
        assert Piece(d, c.fragment);
        OwnCall(p, key, d, c.fragment, c.now);
        if !Covered(h + [c.fragment], |d|) {
          Reassembles(p', key, d, rest);
        }
      } else {
        OtherKeys(p, key, c);
        assert History(p', key) == h;
        Reassembles(p', key, d, rest);
      }
    }
  }
}
