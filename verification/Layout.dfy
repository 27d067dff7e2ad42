/** What it means for a piece of bytes to stand inside a message, and how fields are read back from there. */
module Layout {
  import opened Bytes

  /** A 16-bit field in network byte order. */
  type TwoBytes = w: Word | |w| == 2 witness [0, 0]

  type FourBytes = w: Word | |w| == 4 witness [0, 0, 0, 0]

  /** bytes stand in msg at off. */
  predicate Holds(msg: Word, off: nat, bytes: Word)
  {
    off + |bytes| <= |msg| && forall k {:trigger bytes[k]} :: 0 <= k < |bytes| ==> msg[off + k] == bytes[k]
  }

  lemma {:induction false} HoldsSlice(msg: Word, off: nat, bytes: Word)
    ensures Holds(msg, off, bytes) <==> off + |bytes| <= |msg| && msg[off..off + |bytes|] == bytes
  {
    if off + |bytes| <= |msg| && msg[off..off + |bytes|] == bytes {
      forall k {:trigger bytes[k]} | 0 <= k < |bytes| ensures msg[off + k] == bytes[k] {
        assert msg[off..off + |bytes|][k] == bytes[k];
      }
    }
  }

  /** Part of a slice is a slice. */
  lemma InnerSlice(msg: Word, off: nat, bytes: Word, i: nat, j: nat)
    requires off + |bytes| <= |msg| && msg[off..off + |bytes|] == bytes && i <= j <= |bytes|
    ensures msg[off + i..off + j] == bytes[i..j]
  {
    forall k | 0 <= k < j - i ensures msg[off + i..off + j][k] == bytes[i..j][k] {
      assert msg[off..off + |bytes|][i + k] == bytes[i + k];
    }
  }

  lemma {:induction false} HoldsParts(msg: Word, off: nat, a: Word, b: Word)
    requires Holds(msg, off, a + b)
    ensures Holds(msg, off, a) && Holds(msg, off + |a|, b)
  {
    forall k {:trigger a[k]} | 0 <= k < |a| ensures msg[off + k] == a[k] {
      assert (a + b)[k] == a[k];
    }
    forall k {:trigger b[k]} | 0 <= k < |b| ensures msg[off + |a| + k] == b[k] {
      assert (a + b)[|a| + k] == b[k];
    }
  }

  lemma {:induction false} HoldsThree(msg: Word, off: nat, a: Word, b: Word, c: Word)
    requires Holds(msg, off, a + b + c)
    ensures Holds(msg, off, a) && Holds(msg, off + |a|, b) && Holds(msg, off + |a| + |b|, c)
  {
    HoldsParts(msg, off, a + b, c);
    HoldsParts(msg, off, a, b);
  }

  lemma {:induction false} HoldsWithin(a: Word, b: Word, c: Word, off: nat, bytes: Word)
    requires Holds(b, off, bytes)
    ensures Holds(a + b + c, |a| + off, bytes)
  {
    forall k {:trigger bytes[k]} | 0 <= k < |bytes| ensures (a + b + c)[|a| + off + k] == bytes[k] {
      assert b[off + k] == bytes[k];
    }
  }

  lemma {:induction false} HoldsLonger(a: Word, b: Word, off: nat, bytes: Word)
    requires Holds(a, off, bytes)
    ensures Holds(a + b, off, bytes)
  {
  }

  lemma {:induction false} HoldsFront(a: Word, b: Word)
    ensures Holds(a + b, 0, a)
  {
  }

  lemma {:induction false} HoldsAfter(a: Word, b: Word)
    ensures Holds(a + b, |a|, b)
  {
  }

  lemma FieldRead(msg: Word, off: nat, field: TwoBytes)
    requires Holds(msg, off, field)
    ensures Read16(msg, off) == Read16(field, 0)
  {
    assert msg[off + 0] == field[0] && msg[off + 1] == field[1];
  }
}
