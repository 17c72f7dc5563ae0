/** 64-bit machine words as bounded naturals: shifts, `|` and `&` with their bit-level laws. */
module Words {
  import opened Prelude

  function Pow2(n: nat): (p: nat)
    ensures p >= 1
  {
    if n == 0 then 1 else 2 * Pow2(n - 1)
  }

  /** `w << s`: the bits pushed past position 63 are lost. */
  function Shl(w: U64, s: nat): U64
    decreases s
  {
    if s == 0 then w else Shl((2 * w) % U64_LIMIT, s - 1)
  }

  /** `w >> s`. */
  function Shr(w: nat, s: nat): (r: nat)
    ensures r <= w
  {
    if s == 0 then w else Shr(w / 2, s - 1)
  }

  /** Bit `k` of `w`. */
  predicate Bit(w: nat, k: nat) {
    Shr(w, k) % 2 == 1
  }

  function Or(a: nat, b: nat): nat {
    if a == 0 && b == 0 then 0
    else (if a % 2 == 1 || b % 2 == 1 then 1 else 0) + 2 * Or(a / 2, b / 2)
  }

  function And(a: nat, b: nat): nat {
    if a == 0 || b == 0 then 0
    else (if a % 2 == 1 && b % 2 == 1 then 1 else 0) + 2 * And(a / 2, b / 2)
  }

  // ---- bits of each operation ----

  lemma ZeroHasNoBits(k: nat)
    ensures !Bit(0, k)
  {
  }

  lemma {:induction false} BitOfShr(w: nat, s: nat, k: nat)
    ensures Bit(Shr(w, s), k) == Bit(w, s + k)
  {
    if s == 0 {
    } else {
      BitOfShr(w / 2, s - 1, k);
    }
  }

  lemma {:induction false} BitOfOr(a: nat, b: nat, k: nat)
    ensures Bit(Or(a, b), k) == (Bit(a, k) || Bit(b, k))
  {
    if k == 0 {
    } else {
      BitOfOr(a / 2, b / 2, k - 1);
      assert Or(a, b) / 2 == Or(a / 2, b / 2);
    }
  }

  lemma {:induction false} OrBound(a: nat, b: nat, n: nat)
    requires a < Pow2(n) && b < Pow2(n)
    ensures Or(a, b) < Pow2(n)
  {
    if n == 0 {
    } else {
      OrBound(a / 2, b / 2, n - 1);
    }
  }

  lemma {:induction false} HighPowerKeepsLowBits(w: nat, n: nat, k: nat)
    requires k < n
    ensures Bit(w + Pow2(n), k) == Bit(w, k)
  {
    if k == 0 {
    } else {
      HighPowerKeepsLowBits(w / 2, n - 1, k - 1);
      assert (w + Pow2(n)) / 2 == w / 2 + Pow2(n - 1);
    }
  }

  lemma {:induction false} NoBitsAbove(w: nat, n: nat, k: nat)
    requires w < Pow2(n) && n <= k
    ensures !Bit(w, k)
  {
    if n == 0 {
      ZeroHasNoBits(k);
    } else {
      NoBitsAbove(w / 2, n - 1, k - 1);
    }
  }

  lemma {:induction false} PowerSplit(m: nat, n: nat)
    ensures Pow2(m + n) == Pow2(m) * Pow2(n)
  {
    if m == 0 {
    } else {
      PowerSplit(m - 1, n);
      assert 2 * Pow2(m - 1) * Pow2(n) == 2 * (Pow2(m - 1) * Pow2(n));
    }
  }

  lemma WordIsPow2()
    ensures Pow2(64) == U64_LIMIT
  {
    assert Pow2(8) == 256;
    PowerSplit(8, 8);
    assert Pow2(16) == 0x1_0000;
    PowerSplit(16, 16);
    assert Pow2(32) == U32_LIMIT;
    PowerSplit(32, 32);
  }

  lemma BitOfDouble(w: U64, k: nat)
    requires k < 64
    ensures Bit((2 * w) % U64_LIMIT, k) == (k > 0 && Bit(w, k - 1))
  {
    WordIsPow2();
    BitOfDoubleBelow(w, Pow2(63), 63, k);
  }

  lemma BitOfDoubleBelow(w: U64, half: nat, n: nat, k: nat)
    requires k <= n && half == Pow2(n) && 2 * half == U64_LIMIT
    ensures Bit((2 * w) % U64_LIMIT, k) == (k > 0 && Bit(w, k - 1))
  {
    var r := (2 * w) % U64_LIMIT;
    if w < half {
      assert r == 2 * w;
    } else {
      assert r == 2 * (w - half);
      if k > 0 {
        HighPowerKeepsLowBits(w - half, n, k - 1);
      }
    }
  }

  lemma {:induction false} BitOfShl(w: U64, s: nat, k: nat)
    requires k < 64
    ensures Bit(Shl(w, s), k) == (k >= s && Bit(w, k - s))
    decreases s
  {
    if s == 0 {
    } else {
      BitOfShl((2 * w) % U64_LIMIT, s - 1, k);
      if k >= s - 1 {
        BitOfDouble(w, k - (s - 1));
      }
    }
  }

  /** `<<` is multiplication by a power of two, modulo the word size. */
  lemma {:induction false} ShlIsMultiplication(w: U64, s: nat)
    ensures Shl(w, s) == (w * Pow2(s)) % U64_LIMIT
    decreases s
  {
    if s == 0 {
    } else {
      ShlIsMultiplication((2 * w) % U64_LIMIT, s - 1);
      ReduceFactor(2 * w, Pow2(s - 1));
      assert w * Pow2(s) == 2 * w * Pow2(s - 1) by { MulSwap(w, Pow2(s - 1)); }
    }
  }

  lemma MulSwap(w: nat, p: nat)
    ensures w * (2 * p) == 2 * w * p
  {
  }

  /** A factor may be reduced modulo the word size before multiplying. */
  lemma ReduceFactor(x: nat, p: nat)
    ensures ((x % U64_LIMIT) * p) % U64_LIMIT == (x * p) % U64_LIMIT
  {
    var q, r := x / U64_LIMIT, x % U64_LIMIT;
    Distribute(U64_LIMIT * q, r, p);
    assert U64_LIMIT * q * p == U64_LIMIT * (q * p) by { Associate(U64_LIMIT, q, p); }
    ModOfMultiple(r * p, q * p);
  }

  lemma Distribute(a: nat, b: nat, c: nat)
    ensures (a + b) * c == a * c + b * c
  {
  }

  lemma Associate(a: nat, b: nat, c: nat)
    ensures a * b * c == a * (b * c)
  {
  }

  lemma ModOfMultiple(x: nat, q: nat)
    ensures (x + U64_LIMIT * q) % U64_LIMIT == x % U64_LIMIT
  {
    var y := x / U64_LIMIT;
    var r := x % U64_LIMIT;
    assert x + U64_LIMIT * q == r + U64_LIMIT * (y + q);
  }

  /** The mask `1 << b`. */
  lemma {:induction false} MaskIsPow2(w: U64, s: nat, b: nat)
    requires w == Pow2(b) && b + s < 64
    ensures Shl(w, s) == Pow2(b + s)
    decreases s
  {
    if s == 0 {
    } else {
      WordIsPow2();
      assert 2 * w == Pow2(b + 1);
      PowerMonotone(b + 2, 64);
      assert 2 * Pow2(b + 1) == Pow2(b + 2);
      MaskIsPow2(2 * w, s - 1, b + 1);
    }
  }

  lemma {:induction false} PowerMonotone(m: nat, n: nat)
    requires m <= n
    ensures Pow2(m) <= Pow2(n)
  {
    if m == n {
    } else {
      PowerMonotone(m, n - 1);
    }
  }

  lemma {:induction false} AndWithPower(w: nat, b: nat)
    ensures And(w, Pow2(b)) != 0 <==> Bit(w, b)
  {
    if b == 0 {
      assert And(w / 2, 0) == 0;
    } else if w == 0 {
      ZeroHasNoBits(b);
    } else {
      AndWithPower(w / 2, b - 1);
      assert Pow2(b) / 2 == Pow2(b - 1);
    }
  }

  /** `w & (1 << b) != 0` tests bit `b`. */
  lemma MaskTestsBit(w: U64, b: nat)
    requires b < 64
    ensures And(w, Shl(1, b)) != 0 <==> Bit(w, b)
  {
    MaskIsPow2(1, b, 0);
    AndWithPower(w, b);
  }

  /** `w | (1 << b)` is a word and sets exactly bit `b`. */
  lemma MaskSetsBit(w: U64, b: nat, k: nat)
    requires b < 64 && k < 64
    ensures Or(w, Shl(1, b)) < U64_LIMIT
    ensures Bit(Or(w, Shl(1, b)), k) == (k == b || Bit(w, k))
  {
    WordIsPow2();
    OrBound(w, Shl(1, b), 64);
    BitOfOr(w, Shl(1, b), k);
    BitOfShl(1, b, k);
    if k > b {
      NoBitsAbove(1, 1, k - b);
    }
  }

  lemma MaskSetsBits(w: U64, b: nat)
    requires b < 64
    ensures Or(w, Shl(1, b)) < U64_LIMIT
    ensures forall k: nat :: k < 64 ==> Bit(Or(w, Shl(1, b)), k) == (k == b || Bit(w, k))
  {
    MaskSetsBit(w, b, 0);
    forall k: nat | k < 64
      ensures Bit(Or(w, Shl(1, b)), k) == (k == b || Bit(w, k))
    {
      MaskSetsBit(w, b, k);
    }
  }
}
