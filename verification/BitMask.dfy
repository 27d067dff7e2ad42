/** The 64-bit index arithmetic of the ring buffer, related to unbounded counters. */
module BitMask {
  /** 2^64: the values of a size_t counter are taken modulo this. */
  const WORD := 0x1_0000_0000_0000_0000

  /** Bitwise and of two unsigned integers. */
  function And(a: nat, b: nat): nat
  {
    if a == 0 || b == 0 then 0
    else 2 * And(a / 2, b / 2) + (if a % 2 == 1 && b % 2 == 1 then 1 else 0)
  }

  predicate IsPowerOfTwo(n: nat)
  {
    n == 1 || (n > 0 && n % 2 == 0 && IsPowerOfTwo(n / 2))
  }

  function Pow2(k: nat): (p: nat)
    ensures p > 0
  {
    if k == 0 then 1 else 2 * Pow2(k - 1)
  }

  function Minus(a: nat, b: nat): nat
    requires a < WORD && b < WORD
  {
    (a - b) % WORD
  }

  lemma AndSelfPositive(a: nat)
    requires a > 0
    ensures And(a, a) > 0
  {
  }

  /** The constructor's test: c & (c - 1) vanishes exactly for the powers of two. */
  lemma {:induction false} PowerOfTwoTest(c: nat)
    requires c > 0
    ensures And(c, c - 1) == 0 <==> IsPowerOfTwo(c)
  {
    if c % 2 == 0 {
      assert (c - 1) / 2 == c / 2 - 1;
      PowerOfTwoTest(c / 2);
    } else if c > 1 {
      assert (c - 1) / 2 == c / 2;
      AndSelfPositive(c / 2);
    }
  }

  lemma Product(k: nat, m: nat)
    ensures 0 <= k * m
    ensures (k + 1) * m == k * m + m
  {
  }

  lemma LargeMultiple(k: int, m: nat)
    requires k != 0
    ensures k * m >= m || k * m + m <= 0
  {
    if k > 0 {
      Product(k - 1, m);
    } else {
      Product(-k - 1, m);
      assert (-k) * m == -(k * m);
    }
  }

  lemma DivMod(x: int, m: nat)
    requires m > 0
    ensures x == (x / m) * m + x % m && 0 <= x % m < m
  {
  }

  /** Quotient and remainder are unique. */
  lemma ModUnique(x: int, m: nat, q: int, r: nat)
    requires r < m && x == q * m + r
    ensures x % m == r
  {
    DivMod(x, m);
    var q' := x / m;
    assert (q' - q) * m == r - x % m by {
      Distribute(q', q, m);
    }
    if q' != q {
      LargeMultiple(q' - q, m);
    }
  }

  lemma Distribute(a: int, b: int, m: int)
    ensures (a - b) * m == a * m - b * m
  {
  }

  lemma TwiceProduct(q: int, d: int)
    ensures 2 * (q * d) == q * (2 * d)
  {
  }

  /** Masking with c - 1 is the remainder modulo c. */
  lemma {:induction false} MaskIsRemainder(x: nat, c: nat)
    requires IsPowerOfTwo(c)
    ensures And(x, c - 1) == x % c
  {
    if c > 1 {
      var d := c / 2;
      assert (c - 1) / 2 == d - 1 && (c - 1) % 2 == 1;
      MaskIsRemainder(x / 2, d);
      var q, r := (x / 2) / d, (x / 2) % d;
      DivMod(x / 2, d);
      TwiceProduct(q, d);
      ModUnique(x, c, q, 2 * r + x % 2);
    }
  }

  lemma {:induction false} DividesPow2(c: nat, k: nat)
    requires IsPowerOfTwo(c) && c <= Pow2(k)
    ensures Pow2(k) % c == 0
  {
    if c > 1 {
      DividesPow2(c / 2, k - 1);
      var q := Pow2(k - 1) / (c / 2);
      assert Pow2(k) == q * c + 0 by {
        assert Pow2(k - 1) == q * (c / 2);
        assert 2 * (q * (c / 2)) == q * c;
      }
      ModUnique(Pow2(k), c, q, 0);
    }
  }

  lemma {:induction false} WordIsPow2()
    ensures Pow2(64) == WORD
  {
    assert Pow2(8) == 0x100;
    Pow2Sum(8, 8);
    Pow2Sum(16, 16);
    Pow2Sum(32, 32);
  }

  lemma {:induction false} Pow2Sum(j: nat, k: nat)
    ensures Pow2(j + k) == Pow2(j) * Pow2(k)
  {
    if k > 0 {
      Pow2Sum(j, k - 1);
      assert Pow2(j + k) == 2 * Pow2(j + (k - 1));
    }
  }

  /** The cell of a wrapped counter is the cell of the unbounded one. */
  lemma WrappedIndex(h: nat, c: nat)
    requires IsPowerOfTwo(c) && c < WORD
    ensures And(h % WORD, c - 1) == h % c
  {
    MaskIsRemainder(h % WORD, c);
    WordIsPow2();
    DividesPow2(c, 64);
    var w := h % WORD;
    var m, q, a, r := WORD / c, h / WORD, w / c, w % c;
    DivMod(WORD, c);
    DivMod(h, WORD);
    DivMod(w, c);
    Regroup(q, m, a, c);
    ModUnique(h, c, q * m + a, r);
  }

  lemma Regroup(q: int, m: int, a: int, c: int)
    ensures (q * m + a) * c == q * (m * c) + a * c
  {
  }

  /** Wrapped subtraction gives the true distance, whatever multiple of 2^64 has gone by. */
  lemma WrappedDistance(h: nat, t: nat)
    requires t <= h && h - t < WORD
    ensures Minus(h % WORD, t % WORD) == h - t
  {
    var q := t / WORD - h / WORD;
    assert h % WORD - t % WORD == q * WORD + (h - t) by {
      assert h == (h / WORD) * WORD + h % WORD;
      assert t == (t / WORD) * WORD + t % WORD;
    }
    ModUnique(h % WORD - t % WORD, WORD, q, h - t);
  }

  lemma WrappedEqual(h: nat, t: nat)
    requires t <= h && h - t < WORD
    ensures h % WORD == t % WORD <==> h == t
  {
    WrappedDistance(h, t);
    var d := h % WORD - t % WORD;
    assert d == 0 ==> Minus(h % WORD, t % WORD) == 0;
  }

  lemma WrappedIncrement(h: nat)
    ensures (h % WORD + 1) % WORD == (h + 1) % WORD
  {
    var q := h / WORD;
    assert h + 1 == q * WORD + (h % WORD + 1);
    if h % WORD + 1 < WORD {
      ModUnique(h + 1, WORD, q, h % WORD + 1);
    } else {
      ModUnique(h + 1, WORD, q + 1, 0);
    }
  }

  lemma WrappedAdd(x: nat, y: nat)
    ensures (x % WORD + y) % WORD == (x + y) % WORD
  {
    DivMod(x, WORD);
    DivMod(x % WORD + y, WORD);
    ModUnique(x + y, WORD, x / WORD + (x % WORD + y) / WORD, (x % WORD + y) % WORD);
  }

  /** Counters less than a capacity apart never share a cell. */
  lemma CellsDiffer(a: nat, b: nat, c: nat)
    requires a < b < a + c
    ensures a % c != b % c
  {
    var r, d := a % c, b - a;
    DivMod(a, c);
    if r + d < c {
      ModUnique(b, c, a / c, r + d);
    } else {
      assert (a / c + 1) * c == (a / c) * c + c;
      ModUnique(b, c, a / c + 1, r + d - c);
    }
  }
}
