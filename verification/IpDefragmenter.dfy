/** The defragmenter: per key a byte buffer and a coverage bitmap, proved against Fragments. */
module IpDefragmentation {
  import opened Bytes
  import opened Options
  import opened Fragments

  /** What a buffer holds. */
  datatype Coverage = Coverage(data: Word, received: seq<bool>, totalLength: nat, gotLastFragment: bool, firstSeen: nat)

  /** The buffer holds what the accepted fragments amount to, and nothing else. */
  ghost predicate Represents(b: Coverage, h: seq<Fragment>)
  {
    && |b.data| == |b.received| == Extent(h)
    && (forall j :: 0 <= j < |b.data| ==> (b.received[j] <==> ByteAt(h, j).Some?))
    && (forall j :: 0 <= j < |b.data| && b.received[j] ==> ByteAt(h, j) == Some(b.data[j]))
    && (b.gotLastFragment <==> TotalLength(h).Some?)
    && (b.gotLastFragment ==> TotalLength(h) == Some(b.totalLength))
  }

  /** vector::resize. */
  function Resize<T>(s: seq<T>, n: nat, fill: T): (r: seq<T>)
    requires |s| <= n
    ensures |r| == n
  {
    s + seq(n - |s|, _ => fill)
  }

  /** memcpy into the middle of a buffer. */
  function Overlay<T>(s: seq<T>, at: nat, bytes: seq<T>): (r: seq<T>)
    requires at + |bytes| <= |s|
    ensures |r| == |s|
    ensures forall j :: 0 <= j < |s| ==> r[j] == if at <= j < at + |bytes| then bytes[j - at] else s[j]
  {
    s[..at] + bytes + s[at + |bytes|..]
  }

  /** Growing, copying and marking for one fragment. */
  function Store(b: Coverage, f: Fragment): Coverage
    requires |b.data| == |b.received|
  {
    var n := if End(f) > |b.data| then End(f) else |b.data|;
    var b1 := b.(data := Overlay(Resize(b.data, n, 0), f.offset, f.bytes),
                 received := Overlay(Resize(b.received, n, false), f.offset, seq(|f.bytes|, _ => true)));
    if f.more then b1 else b1.(gotLastFragment := true, totalLength := End(f))
  }

  lemma {:induction false} NothingBeyondExtent(h: seq<Fragment>, j: nat)
    requires j >= Extent(h)
    ensures ByteAt(h, j) == None
  {
    if h != [] {
      NothingBeyondExtent(h[..|h| - 1], j);
    }
  }

  lemma {:induction false} TotalWithinExtent(h: seq<Fragment>)
    ensures TotalLength(h).Some? ==> TotalLength(h).value <= Extent(h)
  {
    if h != [] {
      TotalWithinExtent(h[..|h| - 1]);
    }
  }

  /** The buffer's view of one position after one more fragment. */
  lemma StoreAt(b: Coverage, h: seq<Fragment>, f: Fragment, j: nat)
    requires Represents(b, h) && j < |Store(b, f).data|
    ensures |Store(b, f).received| == |Store(b, f).data|
    ensures Store(b, f).received[j] <==> ByteAt(h + [f], j).Some?
    ensures Store(b, f).received[j] ==> ByteAt(h + [f], j) == Some(Store(b, f).data[j])
  {
    assert (h + [f])[..|h|] == h;
    if !Covers(f, j) && j >= |b.data| {
      NothingBeyondExtent(h, j);
    }
  }

  lemma StoreRepresents(b: Coverage, h: seq<Fragment>, f: Fragment)
    requires Represents(b, h)
    ensures Represents(Store(b, f), h + [f])
  {
    assert (h + [f])[..|h|] == h;
    forall j | 0 <= j < |Store(b, f).data|
      ensures Store(b, f).received[j] <==> ByteAt(h + [f], j).Some?
      ensures Store(b, f).received[j] ==> ByteAt(h + [f], j) == Some(Store(b, f).data[j])
    {
      StoreAt(b, h, f, j);
    }
  }

  /** Every byte below length is marked. */
  predicate Marked(received: seq<bool>, length: nat)
  {
    length <= |received| && forall i :: 0 <= i < length ==> received[i]
  }

  method IsFullyCovered(received: seq<bool>, length: nat) returns (full: bool)
    ensures full <==> Marked(received, length)
  {
    if |received| < length {
      return false;
    }
    for i := 0 to length
      invariant forall k :: 0 <= k < i ==> received[k]
    {
      if !received[i] {
        return false;
      }
    }
    return true;
  }

  /** The bitmap test decides completeness, and the trimmed buffer is the datagram. */
  lemma CompleteByBitmap(b: Coverage, h: seq<Fragment>)
    requires Represents(b, h)
    ensures b.gotLastFragment ==> b.totalLength <= |b.data|
    ensures Complete(h) <==> b.gotLastFragment && Marked(b.received, b.totalLength)
    ensures Complete(h) ==> b.data[..b.totalLength] == Assembled(h, b.totalLength)
  {
    TotalWithinExtent(h);
    if b.gotLastFragment && Marked(b.received, b.totalLength) {
      assert Covered(h, b.totalLength);
    }
    if Complete(h) {
      forall i | 0 <= i < b.totalLength ensures b.received[i] {
        assert ByteAt(h, i).Some?;
      }
    }
  }

  /** A buffer stands for a history, is as old, and is no larger than a datagram can be. */
  ghost predicate Matches(b: Coverage, p: Pending)
  {
    Represents(b, p.fragments) && b.firstSeen == p.firstSeen && |b.data| <= MAX_DATAGRAM_SIZE
  }

  ghost predicate TablesMatch(buffers: map<FragmentKey, Coverage>, pending: map<FragmentKey, Pending>)
  {
    && (forall k {:trigger k in pending} :: k in buffers <==> k in pending) && |buffers| <= MAX_CONCURRENT_DATAGRAMS
    && forall k {:trigger Matches(buffers[k], pending[k])} ::
         k in buffers && k in pending ==> Matches(buffers[k], pending[k])
  }

  /** What all buffers hold, beside the fragments accepted for each key; the two always agree. */
  datatype Books = Books(values: map<FragmentKey, Coverage>, pending: map<FragmentKey, Pending>)
  type Ledger = b: Books | TablesMatch(b.values, b.pending) witness Books(map[], map[])

  lemma MatchWithout(buffers: map<FragmentKey, Coverage>, pending: map<FragmentKey, Pending>, key: FragmentKey)
    requires TablesMatch(buffers, pending)
    ensures TablesMatch(buffers - {key}, pending - {key})
  {
    RemoveKey(buffers, key);
    var buffers', pending' := buffers - {key}, pending - {key};
    assert buffers'.Keys == pending'.Keys;
    forall k | k in buffers' && k in pending' ensures Matches(buffers'[k], pending'[k]) {
      assert Matches(buffers[k], pending[k]);
    }
  }

  lemma MatchWith(buffers: map<FragmentKey, Coverage>, pending: map<FragmentKey, Pending>,
                  key: FragmentKey, b: Coverage, p: Pending)
    requires TablesMatch(buffers, pending) && Matches(b, p)
    requires key in buffers || |buffers| < MAX_CONCURRENT_DATAGRAMS
    ensures TablesMatch(buffers[key := b], pending[key := p])
  {
    AddKey(buffers, key, b);
    var buffers', pending' := buffers[key := b], pending[key := p];
    forall k | k in buffers' && k in pending' ensures Matches(buffers'[k], pending'[k]) {
      if k != key {
        assert Matches(buffers[k], pending[k]);
      }
    }
  }

  /** The buffer a fragment goes into: the key's, or a new empty one. */
  function BufferFor(buffers: map<FragmentKey, Coverage>, key: FragmentKey, now: nat): Coverage
  {
    if key in buffers then buffers[key] else Coverage([], [], 0, false, now)
  }

  lemma BufferForMatches(buffers: map<FragmentKey, Coverage>, pending: map<FragmentKey, Pending>,
                         key: FragmentKey, now: nat)
    requires TablesMatch(buffers, pending)
    ensures Matches(BufferFor(buffers, key, now),
                    Pending(History(pending, key), if key in pending then pending[key].firstSeen else now))
  {
    if key in buffers {
      assert Matches(buffers[key], pending[key]);
    }
  }

  /** The last fragment is in and nothing below its end is missing. */
  predicate Whole(b: Coverage)
  {
    b.gotLastFragment && Marked(b.received, b.totalLength)
  }

  /**
   What storing a fragment comes to: the key's new coverage b, all coverages with it, and the books
   when the datagram has been taken out if it is whole.
   */
  lemma {:induction false} StoreSettles(books: Ledger, key: FragmentKey, f: Fragment, now: nat)
    returns (b: Coverage, after: map<FragmentKey, Coverage>, next: Ledger)
    requires Acceptable(f) && (key in books.values || |books.values| < MAX_CONCURRENT_DATAGRAMS)
    ensures |BufferFor(books.values, key, now).data| == |BufferFor(books.values, key, now).received|
    ensures b == Store(BufferFor(books.values, key, now), f) && after == books.values[key := b]
    ensures b.gotLastFragment ==> b.totalLength <= |b.data|
    ensures next.values == if Whole(b) then after - {key} else after
    ensures (next.pending, if Whole(b) then Some(b.data[..b.totalLength]) else None)
            == Deliver(books.pending, key, f, now)
  {
    var values, pending := books.values, books.pending;
    BufferForMatches(values, pending, key, now);
    b := Store(BufferFor(values, key, now), f);
    after := values[key := b];
    var h := History(pending, key) + [f];
    StoreRepresents(BufferFor(values, key, now), History(pending, key), f);
    CompleteByBitmap(b, h);
    SameSize(values, pending);
    if Complete(h) {
      MatchWithout(values, pending, key);
      assert after - {key} == values - {key};
      next := Books(after - {key}, pending - {key});
    } else {
      MatchWith(values, pending, key, b, Pending(h, b.firstSeen));
      next := Books(after, pending[key := Pending(h, b.firstSeen)]);
    }
  }

  /** The buffer of one key, filled in place. */
  class FragmentBuffer {
    var data: Word
    var received: seq<bool>
    var totalLength: nat
    var gotLastFragment: bool
    const firstSeen: nat

    function Value(): Coverage
      reads this
    {
      Coverage(data, received, totalLength, gotLastFragment, firstSeen)
    }

    constructor (now: nat)
      ensures Value() == Coverage([], [], 0, false, now)
    {
      data, received, totalLength, gotLastFragment, firstSeen := [], [], 0, false, now;
    }

    /** Grows the buffer if the fragment reaches beyond it, copies the bytes in, and marks them. */
    method Put(f: Fragment)
      requires |data| == |received|
      modifies this
      ensures Value() == Store(old(Value()), f)
    {
      ghost var n := if End(f) > |data| then End(f) else |data|;
      ghost var data1, received1 := Resize(data, n, 0), Resize(received, n, false);
      if End(f) > |data| {
        data := Resize(data, End(f), 0);
        received := Resize(received, End(f), false);
      }
      assert data == data1 && received == received1;
      data := Overlay(data, f.offset, f.bytes);
      received := Overlay(received, f.offset, seq(|f.bytes|, _ => true));
      if !f.more {
        gotLastFragment := true;
        totalLength := End(f);
      }
    }
  }

  /** Whether the last fragment is in and nothing below its end is missing. */
  method IsWhole(buf: FragmentBuffer) returns (whole: bool)
    ensures whole <==> Whole(buf.Value())
  {
    whole := false;
    if buf.gotLastFragment {
      whole := IsFullyCovered(buf.received, buf.totalLength);
    }
  }

  ghost function BuffersOf(m: map<FragmentKey, FragmentBuffer>): set<FragmentBuffer>
  {
    set k | k in m :: m[k]
  }

  ghost predicate Same(m: map<FragmentKey, FragmentBuffer>, values: map<FragmentKey, Coverage>, k: FragmentKey)
    requires k in m && k in values
    reads m[k]
  {
    m[k].Value() == values[k]
  }

  /** The buffers hold these values. */
  ghost predicate Backs(m: map<FragmentKey, FragmentBuffer>, values: map<FragmentKey, Coverage>)
    reads BuffersOf(m)
  {
    && (forall k {:trigger k in values} :: k in m <==> k in values)
    && forall k {:trigger Same(m, values, k)} :: k in m && k in values ==> Same(m, values, k)
  }

  ghost predicate DifferentBuffers(m: map<FragmentKey, FragmentBuffer>, j: FragmentKey, k: FragmentKey)
    requires j in m && k in m
  {
    m[j] != m[k]
  }

  /** No two keys share a buffer. */
  ghost predicate Separate(m: map<FragmentKey, FragmentBuffer>)
  {
    forall j, k {:trigger DifferentBuffers(m, j, k)} :: j in m && k in m && j != k ==> DifferentBuffers(m, j, k)
  }

  lemma SeparateAdded(m: map<FragmentKey, FragmentBuffer>, key: FragmentKey, b: FragmentBuffer)
    requires Separate(m) && key !in m && b !in BuffersOf(m)
    ensures Separate(m[key := b])
    ensures BuffersOf(m[key := b]) == BuffersOf(m) + {b}
  {
    var m' := m[key := b];
    forall k | k in m ensures m[k] in BuffersOf(m) && m'[k] in BuffersOf(m') {
    }
    assert m'[key] in BuffersOf(m');
    forall j, k | j in m' && k in m' && j != k ensures DifferentBuffers(m', j, k) {
      assert j in m && k in m ==> DifferentBuffers(m, j, k);
    }
  }

  lemma SeparateWithout(m: map<FragmentKey, FragmentBuffer>, values: map<FragmentKey, Coverage>, key: FragmentKey)
    requires Separate(m) && Backs(m, values)
    ensures Separate(m - {key}) && Backs(m - {key}, values - {key}) && BuffersOf(m - {key}) <= BuffersOf(m)
  {
    var m', values' := m - {key}, values - {key};
    forall j, k | j in m' && k in m' && j != k ensures DifferentBuffers(m', j, k) {
      assert DifferentBuffers(m, j, k);
    }
    forall k | k in m' && k in values' ensures Same(m', values', k) {
      assert Same(m, values, k);
    }
  }

  class IpDefragmenter {
    var buffers: map<FragmentKey, FragmentBuffer>
    var completedDatagram: Word
    ghost var ledger: Ledger

    ghost function Buffers(): set<FragmentBuffer>
      reads this
    {
      BuffersOf(buffers)
    }

    /** The buffers hold what the ledger says, which agrees with each key's fragments and keeps to the size limits. */
    ghost predicate Valid()
      reads this, Buffers()
    {
      Separate(buffers) && Backs(buffers, ledger.values)
    }

    constructor ()
      ensures Valid() && ledger.pending == map[] && Buffers() == {}
    {
      buffers, completedDatagram, ledger := map[], [], Books(map[], map[]);
    }

    method ProcessFragment(srcIp: nat, destIp: nat, protocol: nat, identification: nat,
                           fragmentOffsetUnits: nat, moreFragments: bool, payload: Word, now: nat)
      returns (done: bool, output: Word)
      requires Valid()
      modifies this, Buffers()
      ensures Valid() && fresh(Buffers() - old(Buffers()))
      ensures var key := FragmentKey(srcIp, destIp, identification, protocol);
              var f := Fragment(fragmentOffsetUnits * 8, payload, moreFragments);
              (ledger.pending, if done then Some(output) else None) == Deliver(old(ledger.pending), key, f, now)
      ensures !done ==> output == []
    {
      output := [];
      var key := FragmentKey(srcIp, destIp, identification, protocol);
      var f := Fragment(fragmentOffsetUnits * 8, payload, moreFragments);
      if payload == [] {
        return false, [];
      }
      if End(f) > MAX_DATAGRAM_SIZE {
        return false, [];
      }
      SameSize(buffers, ledger.pending);
      if key !in buffers && |buffers| >= MAX_CONCURRENT_DATAGRAMS {
        return false, [];
      }
      done, output := StoreFragment(key, f, now);
    }

    /** The part below the checks: store, then see whether the datagram is whole. */
    method StoreFragment(key: FragmentKey, f: Fragment, now: nat) returns (done: bool, output: Word)
      requires Valid() && Acceptable(f) && (key in buffers || |buffers| < MAX_CONCURRENT_DATAGRAMS)
      modifies this, Buffers()
      ensures Valid() && fresh(Buffers() - old(Buffers()))
      ensures (ledger.pending, if done then Some(output) else None) == Deliver(old(ledger.pending), key, f, now)
      ensures !done ==> output == []
    {
      SameSize(buffers, ledger.values);
      ghost var b, after, next := StoreSettles(ledger, key, f, now);
      var buf := PutInTable(key, f, now, b, after);
      done, output := TakeIfWhole(key, buf, after, next);
    }

    /** Takes the key's datagram out if it is whole. */
    method TakeIfWhole(key: FragmentKey, buf: FragmentBuffer,
                       ghost after: map<FragmentKey, Coverage>, ghost next: Ledger)
      returns (done: bool, output: Word)
      requires Separate(buffers) && Backs(buffers, after)
      requires next.values == if Whole(buf.Value()) then after - {key} else after
      requires Whole(buf.Value()) ==> buf.totalLength <= |buf.data|
      modifies this
      ensures Valid() && Buffers() <= old(Buffers()) && ledger == next
      ensures done <==> Whole(buf.Value())
      ensures output == if done then buf.data[..buf.totalLength] else []
    {
      done := IsWhole(buf);
      output := [];
      if done {
        output := TakeOut(key, buf, after, next);
      } else {
        ledger := next;
      }
    }

    /** Takes a whole datagram out of the table. */
    method TakeOut(key: FragmentKey, buf: FragmentBuffer, ghost after: map<FragmentKey, Coverage>, ghost next: Ledger)
      returns (output: Word)
      requires Separate(buffers) && Backs(buffers, after) && next.values == after - {key}
      requires buf.totalLength <= |buf.data|
      modifies this
      ensures Valid() && Buffers() <= old(Buffers()) && ledger == next
      ensures output == buf.data[..buf.totalLength]
    {
      output := buf.data[..buf.totalLength];
      SeparateWithout(buffers, after, key);
      completedDatagram, buffers, ledger := output, buffers - {key}, next;
    }

    /** Finds or makes the key's buffer and stores the fragment there; no other buffer changes. */
    method PutInTable(key: FragmentKey, f: Fragment, now: nat,
                      ghost b: Coverage, ghost after: map<FragmentKey, Coverage>)
      returns (buf: FragmentBuffer)
      requires Valid() && |BufferFor(ledger.values, key, now).data| == |BufferFor(ledger.values, key, now).received|
      requires b == Store(BufferFor(ledger.values, key, now), f) && after == ledger.values[key := b]
      modifies this`buffers, Buffers()
      ensures Separate(buffers) && Backs(buffers, after) && fresh(Buffers() - old(Buffers()))
      ensures key in buffers && buffers[key] == buf && buf.Value() == b
    {
      ghost var before := ledger.values[key := BufferFor(ledger.values, key, now)];
      buf := BufferOf(key, now);
      PutBacked(buf, buffers, before, after, key, f);
    }

    /** The key's buffer, made on the spot if there is none. */
    method BufferOf(key: FragmentKey, now: nat) returns (buf: FragmentBuffer)
      requires Valid()
      modifies this`buffers
      ensures Separate(buffers) && fresh(Buffers() - old(Buffers()))
      ensures key in buffers && buffers[key] == buf
      ensures Backs(buffers, ledger.values[key := BufferFor(ledger.values, key, now)])
    {
      ghost var table, values := buffers, ledger.values;
      ghost var values' := values[key := BufferFor(values, key, now)];
      if key !in buffers {
        buf := new FragmentBuffer(now);
        SeparateAdded(buffers, key, buf);
        buffers := buffers[key := buf];
      } else {
        buf := buffers[key];
        assert Same(buffers, values, key);
      }
      forall k | k in buffers && k in values' ensures Same(buffers, values', k) {
        assert k in table ==> Same(table, values, k);
      }
    }

    /** Drops the datagrams that have waited too long. */
    method EvictStaleFragments(now: nat)
      requires Valid()
      modifies this
      ensures Valid() && Buffers() <= old(Buffers())
      ensures ledger.pending == EvictExpired(old(ledger.pending), now)
      ensures var before := old(ledger.pending);
              forall k :: k in ledger.pending <==>
                k in before && (before[k].firstSeen <= now ==> (now - before[k].firstSeen) / 1_000_000_000 <= 30)
    {
      EvictMeaning(ledger.pending, now);
      ghost var values := EvictionKeepsTables(buffers, ledger.values, ledger.pending, now);
      DropExpired(now);
      ledger := Books(values, EvictExpired(ledger.pending, now));
    }

    /** The eviction loop. */
    method DropExpired(now: nat)
      modifies this`buffers
      ensures buffers == Unexpired(old(buffers), now)
    {
      ghost var all := buffers;
      var todo := buffers.Keys;
      while todo != {}
        invariant todo <= all.Keys
        invariant buffers == map k | k in all && (k in todo || !Expired(all[k].firstSeen, now)) :: all[k]
        decreases todo
      {
        var k :| k in todo;
        if Expired(buffers[k].firstSeen, now) {
          buffers := buffers - {k};
        }
        todo := todo - {k};
      }
    }
  }

  /** Stores into one of the buffers. */
  method PutBacked(buf: FragmentBuffer, ghost m: map<FragmentKey, FragmentBuffer>,
                   ghost before: map<FragmentKey, Coverage>, ghost after: map<FragmentKey, Coverage>,
                   ghost key: FragmentKey, f: Fragment)
    requires Separate(m) && key in m && m[key] == buf && Backs(m, before)
    requires |before[key].data| == |before[key].received|
    requires after.Keys == before.Keys && after[key] == Store(before[key], f)
    requires forall k :: k in before && k != key ==> after[k] == before[k]
    modifies buf
    ensures Backs(m, after) && buf.Value() == after[key]
  {
    assert Same(m, before, key);
    forall k | k in m && k != key ensures m[k].Value() == before[k] && m[k] != buf {
      assert Same(m, before, k) && DifferentBuffers(m, k, key);
    }
    buf.Put(f);
    forall k | k in m && k in after ensures Same(m, after, k) {
    }
  }

  ghost function Unexpired(m: map<FragmentKey, FragmentBuffer>, now: nat): map<FragmentKey, FragmentBuffer>
  {
    map k | k in m && !Expired(m[k].firstSeen, now) :: m[k]
  }

  lemma {:induction false} SameAges(m: map<FragmentKey, FragmentBuffer>, values: map<FragmentKey, Coverage>,
                                    pending: map<FragmentKey, Pending>)
    requires Backs(m, values) && TablesMatch(values, pending)
    ensures m.Keys == values.Keys == pending.Keys
    ensures forall k :: k in m ==> m[k].firstSeen == pending[k].firstSeen
  {
    forall k | k in m ensures m[k].firstSeen == pending[k].firstSeen {
      assert Same(m, values, k) && Matches(values[k], pending[k]);
    }
  }

  /** What is left after eviction is still in order. */
  lemma {:induction false} EvictionKeepsTables(m: map<FragmentKey, FragmentBuffer>, values: map<FragmentKey, Coverage>,
                                               pending: map<FragmentKey, Pending>, now: nat)
    returns (left: map<FragmentKey, Coverage>)
    requires Separate(m) && Backs(m, values) && TablesMatch(values, pending)
    ensures var m' := Unexpired(m, now);
            && Separate(m') && BuffersOf(m') <= BuffersOf(m)
            && Backs(m', left) && TablesMatch(left, EvictExpired(pending, now))
  {
    SameAges(m, values, pending);
    var m', pending' := Unexpired(m, now), EvictExpired(pending, now);
    left := map k | k in values && k in m' :: values[k];
    forall j, k | j in m' && k in m' && j != k ensures DifferentBuffers(m', j, k) {
      assert DifferentBuffers(m, j, k);
    }
    forall k | k in m' && k in left ensures Same(m', left, k) {
      assert Same(m, values, k);
    }
    forall k | k in left && k in pending' ensures Matches(left[k], pending'[k]) {
      assert Matches(values[k], pending[k]);
    }
    SubmapSize(left, values);
  }

  lemma {:induction false} SubmapSize<K, V>(n: map<K, V>, m: map<K, V>)
    requires n.Keys <= m.Keys
    ensures |n| <= |m|
  {
    SubsetSize(n.Keys, m.Keys);
    assert |n| == |n.Keys| && |m| == |m.Keys|;
  }

  lemma {:induction false} SubsetSize<K>(a: set<K>, b: set<K>)
    requires a <= b
    ensures |a| <= |b|
  {
    assert b == a + (b - a);
  }

  lemma SameSize<K, V, W>(m: map<K, V>, n: map<K, W>)
    requires forall k {:trigger k in n} :: k in m <==> k in n
    ensures |m| == |n|
  {
    assert m.Keys == n.Keys;
    assert |m| == |m.Keys| && |n| == |n.Keys|;
  }

  lemma RemoveKey<K, V>(m: map<K, V>, k: K)
    ensures |m - {k}| <= |m|
    ensures k in m ==> |m - {k}| == |m| - 1
  {
    assert (m - {k}).Keys == m.Keys - {k};
    assert |m - {k}| == |(m - {k}).Keys| && |m| == |m.Keys|;
  }

  lemma AddKey<K, V>(m: map<K, V>, k: K, v: V)
    ensures |m[k := v]| == if k in m then |m| else |m| + 1
  {
    assert m[k := v].Keys == m.Keys + {k};
    assert |m[k := v]| == |m[k := v].Keys| && |m| == |m.Keys|;
  }
}
