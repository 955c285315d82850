/** Powers of two, shifts and masks on natural numbers, defined bit by bit so that no proof multiplies. */
module Powers {

  /** `1 << n`. */
  function Pow2(n: nat): (p: nat)
    ensures p >= 1
  {
    if n == 0 then 1 else 2 * Pow2(n - 1)
  }

  /** `n << k`. */
  function Shl(n: nat, k: nat): (r: nat)
    ensures r >= n
  {
    if k == 0 then n else 2 * Shl(n, k - 1)
  }

  /** `n >> k`. */
  function Shr(n: nat, k: nat): nat
    decreases k
  {
    if k == 0 then n else Shr(n / 2, k - 1)
  }

  /** `n & ((1 << k) - 1)`. */
  function Low(n: nat, k: nat): (r: nat)
    ensures r < Pow2(k)
    decreases k
  {
    if k == 0 then 0 else n % 2 + 2 * Low(n / 2, k - 1)
  }

  lemma {:induction false} ShlSum(a: nat, b: nat, k: nat)
    ensures Shl(a + b, k) == Shl(a, k) + Shl(b, k)
  {
    if k > 0 {
      ShlSum(a, b, k - 1);
    }
  }

  lemma {:induction false} ShlOne(n: nat)
    ensures Shl(n, 1) == 2 * n
  {
    assert Shl(n, 0) == n;
  }

  lemma {:induction false} ShlShl(n: nat, a: nat, b: nat)
    ensures Shl(Shl(n, a), b) == Shl(n, a + b)
  {
    if b > 0 {
      ShlShl(n, a, b - 1);
    }
  }

  lemma {:induction false} ShlPow2(a: nat, b: nat)
    ensures Shl(Pow2(a), b) == Pow2(a + b)
  {
    if b > 0 {
      ShlPow2(a, b - 1);
    }
  }

  lemma {:induction false} ShlMono(a: nat, b: nat, k: nat)
    requires a <= b
    ensures Shl(a, k) <= Shl(b, k)
  {
    if k > 0 {
      ShlMono(a, b, k - 1);
    }
  }

  lemma {:induction false} Pow2Mono(a: nat, b: nat)
    requires a <= b
    ensures Pow2(a) <= Pow2(b)
    decreases b
  {
    if a < b {
      Pow2Mono(a, b - 1);
    }
  }

  /** A number is its low bits and its high bits. */
  lemma {:induction false} LowShr(n: nat, k: nat)
    ensures n == Low(n, k) + Shl(Shr(n, k), k)
    decreases k
  {
    if k > 0 {
      LowShr(n / 2, k - 1);
    }
  }

  /** Bits put side by side are found again by mask and shift. */
  lemma {:induction false} Join(r: nat, q: nat, k: nat)
    requires r < Pow2(k)
    ensures Low(r + Shl(q, k), k) == r && Shr(r + Shl(q, k), k) == q
    decreases k
  {
    if k > 0 {
      var n := r + Shl(q, k);
      assert n / 2 == r / 2 + Shl(q, k - 1) && n % 2 == r % 2;
      Join(r / 2, q, k - 1);
    }
  }

  lemma {:induction false} SmallLow(r: nat, k: nat)
    requires r < Pow2(k)
    ensures Low(r, k) == r && Shr(r, k) == 0
    decreases k
  {
    if k > 0 {
      SmallLow(r / 2, k - 1);
    }
  }

  lemma {:induction false} ShrShr(n: nat, a: nat, b: nat)
    ensures Shr(Shr(n, a), b) == Shr(n, a + b)
    decreases a
  {
    if a > 0 {
      ShrShr(n / 2, a - 1, b);
    }
  }

  /** The low `a + b` bits are the low `a` bits and the low `b` bits of the rest. */
  lemma {:induction false} LowAdd(n: nat, a: nat, b: nat)
    ensures Low(n, a + b) == Low(n, a) + Shl(Low(Shr(n, a), b), a)
    decreases a
  {
    if a > 0 {
      LowAdd(n / 2, a - 1, b);
      assert Low(n, a + b) == n % 2 + 2 * Low(n / 2, a - 1 + b);
    }
  }

  /** A number below a power of two has that power's bits only. */
  lemma {:induction false} ShrBound(n: nat, a: nat, b: nat)
    requires n < Pow2(a + b)
    ensures Shr(n, a) < Pow2(b)
  {
    SmallLow(n, a + b);
    ShrShr(n, a, b);
    LowShr(Shr(n, a), b);
    ShlZero(b);
  }

  lemma {:induction false} ShlZero(k: nat)
    ensures Shl(0, k) == 0
  {
    if k > 0 {
      ShlZero(k - 1);
    }
  }

  /** Different multiples of a power of two are at least that power apart. */
  lemma {:induction false} MultiplesApart(c: nat, d: nat, k: nat)
    requires Low(c, k) == 0 && Low(d, k) == 0 && c < d
    ensures c + Pow2(k) <= d
  {
    LowShr(c, k);
    LowShr(d, k);
    var a, b := Shr(c, k), Shr(d, k);
    if b <= a {
      ShlMono(b, a, k);
      assert false;
    }
    ShlMono(a + 1, b, k);
    ShlSum(a, 1, k);
    ShlPow2(0, k);
  }

  /** A multiple of a power of two is a multiple of every smaller one. */
  lemma {:induction false} LowSmaller(c: nat, a: nat, b: nat)
    requires a <= b && Low(c, b) == 0
    ensures Low(c, a) == 0
  {
    LowAdd(c, a, b - a);
  }

  /** Adding a multiple of `2^k` does not touch the low `k` bits. */
  lemma {:induction false} LowPlusMultiple(c: nat, d: nat, k: nat)
    requires Low(d, k) == 0
    ensures Low(c + d, k) == Low(c, k)
  {
    LowShr(c, k);
    LowShr(d, k);
    ShlSum(Shr(c, k), Shr(d, k), k);
    Join(Low(c, k), Shr(c, k) + Shr(d, k), k);
  }

  lemma {:induction false} LowOfPow2(j: nat, k: nat)
    requires k <= j
    ensures Low(Pow2(j), k) == 0
  {
    ShlPow2(j - k, k);
    Join(0, Pow2(j - k), k);
  }
}
