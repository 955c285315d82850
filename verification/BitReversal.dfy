/** The 32-bit bit reversal of the codebook code: reference definition and the five-stage swap network. */
module BitReversal {
  import opened Powers

  /** The low `k` bits of `n`, read in the opposite order. */
  function RevBits(n: nat, k: nat): (r: nat)
    ensures r < Pow2(k)
    decreases k, n
  {
    if k == 0 then 0 else (if n % 2 == 1 then Pow2(k - 1) else 0) + RevBits(n / 2, k - 1)
  }

  lemma {:induction false} RevStep(n: nat, k: nat)
    ensures RevBits(n, k) == if k == 0 then 0 else (if n % 2 == 1 then Pow2(k - 1) else 0) + RevBits(n / 2, k - 1)
  {
    hide Pow2;
  }

  lemma {:induction false} ShrStep(n: nat, k: nat)
    ensures Shr(n, k) == if k == 0 then n else Shr(n / 2, k - 1)
  {
  }

  /** Reversing `a + b` bits reverses the two parts and exchanges them. */
  lemma {:induction false} RevSplit(n: nat, a: nat, b: nat)
    ensures RevBits(n, a + b) == Above(RevBits(Shr(n, a), b), b, RevBits(n, a))
    decreases a
  {
    hide RevBits, Pow2, Shl, Shr;
    RevStep(n, a);
    RevStep(n, a + b);
    ShrStep(n, a);
    if a == 0 {
      ShlZero(b);
    } else {
      RevSplit(n / 2, a - 1, b);
      ShlPow2(a - 1, b);
      ShlSum(Pow2(a - 1), RevBits(n / 2, a - 1), b);
    }
  }

  /** Only the low `k` bits matter. */
  lemma {:induction false} RevLow(n: nat, k: nat)
    ensures RevBits(Low(n, k), k) == RevBits(n, k)
    decreases k
  {
    if k > 0 {
      RevLow(n / 2, k - 1);
    }
  }

  lemma {:induction false} RevJoin(r: nat, b: nat, k: nat)
    requires r < Pow2(k) && b < 2
    ensures RevBits(r + Shl(b, k), k + 1) == b + 2 * RevBits(r, k)
  {
    var m := r + Shl(b, k);
    Join(r, b, k);
    RevSplit(m, k, 1);
    RevLow(m, k);
    RevOne(b);
    ShlOne(RevBits(r, k));
  }

  lemma {:induction false} LowStep(n: nat, k: nat)
    ensures Low(n, k) == if k == 0 then 0 else n % 2 + 2 * Low(n / 2, k - 1)
  {
    hide Pow2;
  }

  lemma {:induction false} BitUp(b: nat, k: nat)
    requires b < 2
    ensures Shl(b, k) == if b == 1 then Pow2(k) else 0
  {
    hide Shl;
    ShlPow2(0, k);
    ShlZero(k);
    assert Pow2(0) == 1;
  }

  /** Reversing twice gives the low `k` bits back. */
  lemma {:induction false} RevTwice(n: nat, k: nat)
    ensures RevBits(RevBits(n, k), k) == Low(n, k)
    decreases k
  {
    hide RevBits, Pow2, Shl, Low;
    RevStep(n, k);
    LowStep(n, k);
    if k > 0 {
      var r, b := RevBits(n / 2, k - 1), n % 2;
      BitUp(b, k - 1);
      RevTwice(n / 2, k - 1);
      RevJoin(r, b, k - 1);
    } else {
      RevStep(RevBits(n, k), k);
    }
  }

  lemma {:induction false} RevOne(n: nat)
    ensures RevBits(n, 1) == n % 2
  {
    assert RevBits(n / 2, 0) == 0;
    assert Pow2(0) == 1;
  }

  /** `rest` shifted left by `w` bits, with `low` below it. */
  function Above(low: nat, w: nat, rest: nat): nat
  {
    low + Shl(rest, w)
  }

  /** One stage of the network: in each of `count` blocks of `2 * w` bits the two halves change places. */
  function SwapHalves(n: nat, w: nat, count: nat): nat
    decreases count, n
  {
    if count == 0 then 0
    else
      var lo, hi := Low(n, w), Low(Shr(n, w), w);
      Above(Above(hi, w, lo), 2 * w, SwapHalves(Shr(n, 2 * w), w, count - 1))
  }

  /** `count` blocks of `w` bits, each reversed where it stands. */
  function RevBlocks(n: nat, w: nat, count: nat): nat
    decreases count, n
  {
    if count == 0 then 0 else Above(RevBits(n, w), w, RevBlocks(Shr(n, w), w, count - 1))
  }

  /** A stage doubles the size of the blocks that stand reversed. */
  lemma {:induction false} StageDoubles(n: nat, w: nat, count: nat)
    ensures SwapHalves(RevBlocks(n, w, 2 * count), w, count) == RevBlocks(n, 2 * w, count)
    decreases count
  {
    if count > 0 {
      var n1, n2 := Shr(n, w), Shr(n, 2 * w);
      var a, b, rest := RevBits(n, w), RevBits(n1, w), RevBlocks(n2, w, 2 * (count - 1));
      var m := RevBlocks(n, w, 2 * count);
      assert m == Above(a, w, Above(b, w, rest)) by {
        ShrShr(n, w, w);
        assert RevBlocks(n1, w, 2 * count - 1) == Above(b, w, rest);
      }
      FirstBlocks(a, b, w, rest);
      assert RevBits(n, 2 * w) == Above(b, w, a) by { RevSplit(n, w, w); }
      StageDoubles(n2, w, count - 1);
    }
  }

  lemma {:induction false} FirstBlocks(a: nat, b: nat, w: nat, rest: nat)
    requires a < Pow2(w) && b < Pow2(w)
    ensures var m := Above(a, w, Above(b, w, rest));
            Low(m, w) == a && Low(Shr(m, w), w) == b && Shr(m, 2 * w) == rest
  {
    var m := Above(a, w, Above(b, w, rest));
    Join(a, Above(b, w, rest), w);
    Join(b, rest, w);
    ShrShr(m, w, w);
  }

  /** The swap network of the source: adjacent bits, pairs, nibbles, bytes and half-words change places in turn. */
  function BitReverse(n: nat): nat
  {
    SwapHalves(SwapHalves(SwapHalves(SwapHalves(SwapHalves(n, 1, 16), 2, 8), 4, 4), 8, 2), 16, 1)
  }

  lemma {:induction false} BlocksOfOne(n: nat, count: nat)
    requires n < Pow2(count)
    ensures RevBlocks(n, 1, count) == n
    decreases count
  {
    if count > 0 {
      RevOne(n);
      assert Shr(n, 1) == n / 2 by { assert Shr(n / 2, 0) == n / 2; }
      BlocksOfOne(n / 2, count - 1);
      assert Shl(n / 2, 1) == 2 * (n / 2) by { assert Shl(n / 2, 0) == n / 2; }
    }
  }

  lemma {:induction false} OneBlock(n: nat, w: nat)
    ensures RevBlocks(n, w, 1) == RevBits(n, w)
  {
    assert RevBlocks(Shr(n, w), w, 0) == 0;
    ShlZero(w);
  }

  /** Four more stages after the first, for any word made of `16 * c` blocks of `2 * w` bits. */
  lemma {:induction false} FiveStages(n: nat, w: nat, c: nat)
    ensures SwapHalves(SwapHalves(SwapHalves(SwapHalves(SwapHalves(RevBlocks(n, w, 32 * c), w, 16 * c),
              2 * w, 8 * c), 4 * w, 4 * c), 8 * w, 2 * c), 16 * w, c) == RevBlocks(n, 32 * w, c)
  {
    StageDoubles(n, w, 16 * c);
    StageDoubles(n, 2 * w, 8 * c);
    StageDoubles(n, 4 * w, 4 * c);
    StageDoubles(n, 8 * w, 2 * c);
    StageDoubles(n, 16 * w, c);
  }

  /** The network reverses the whole word. */
  lemma {:induction false} NetworkReverses(n: nat)
    requires n < Pow2(32)
    ensures BitReverse(n) == RevBits(n, 32)
  {
    hide SwapHalves, RevBlocks, RevBits;
    BlocksOfOne(n, 32);
    FiveStages(n, 1, 1);
    OneBlock(n, 32);
  }
}
