/**
 Assignment of Huffman codewords to code lengths with a table of free leaves.

 A code of length `l` is kept left-aligned: it is a number `c` below 2^32 whose low `32 - l` bits are zero, and it
 stands for the interval of the `2^(32-l)` words that begin with it.
 */
module HuffmanCodes {
  import opened Powers
  import opened BitReversal

  const NO_CODE: nat := 255

  /** What the setup reader leaves in a length table: 1..31, or "no code". */
  predicate IsLength(l: nat) { 1 <= l <= 31 || l == NO_CODE }

  predicate AreLengths(len: seq<nat>) { forall i :: 0 <= i < |len| ==> IsLength(len[i]) }

  predicate Used(len: seq<nat>, i: nat) { i < |len| && len[i] != NO_CODE }

  lemma {:induction false} UsedLength(len: seq<nat>, i: nat)
    requires AreLengths(len) && i < |len| && len[i] != NO_CODE
    ensures Used(len, i) && 1 <= len[i] <= 31
  {
  }

  /** The number of 32-bit words that begin with a given codeword of length `l`. */
  function Span(l: nat): (s: nat)
    requires l <= 32
    ensures s >= 1
  {
    Pow2(32 - l)
  }

  /** The Kraft sum of the used lengths, scaled by 2^32. */
  function KraftSum(len: seq<nat>): nat
    requires AreLengths(len)
  {
    if len == [] then 0
    else
      var l := len[|len| - 1];
      KraftSum(len[..|len| - 1]) + if l == NO_CODE then 0 else Span(l)
  }

  predicate Disjoint(c: nat, l: nat, d: nat, m: nat)
    requires l <= 32 && m <= 32
  {
    c + Span(l) <= d || d + Span(m) <= c
  }

  /** `c` is a word of length `l` that collides with no code given to a symbol below `i`. */
  ghost predicate Fits(len: seq<nat>, code: seq<nat>, i: nat, c: nat, l: nat)
    requires AreLengths(len) && i <= |len| && |code| == |len| && 1 <= l <= 31
  {
    && Low(c, 32 - l) == 0
    && c + Span(l) <= Pow2(32)
    && forall j :: 0 <= j < i && Used(len, j) ==> Disjoint(c, l, code[j], len[j])
  }

  /** The codes the Vorbis I specification asks for: each used symbol in turn gets the lowest word that fits. */
  ghost predicate FirstFit(len: seq<nat>, code: seq<nat>, n: nat)
    requires AreLengths(len) && n <= |len| && |code| == |len|
  {
    forall i :: 0 <= i < n && Used(len, i) ==>
      && Fits(len, code, i, code[i], len[i])
      && forall c: nat :: c < code[i] ==> !Fits(len, code, i, c, len[i])
  }

  /** There is only one first-fit assignment. */
  lemma {:induction false} FirstFitUnique(len: seq<nat>, code: seq<nat>, code': seq<nat>, n: nat)
    requires AreLengths(len) && n <= |len| && |code| == |code'| == |len|
    requires FirstFit(len, code, n) && FirstFit(len, code', n)
    ensures forall i :: 0 <= i < n && Used(len, i) ==> code[i] == code'[i]
    decreases n
  {
    if n > 0 {
      FirstFitUnique(len, code, code', n - 1);
      if Used(len, n - 1) {
        var l := len[n - 1];
        assert Fits(len, code, n - 1, code'[n - 1], l);
        assert Fits(len, code', n - 1, code[n - 1], l);
      }
    }
  }

  // ---------------------------------------------------------------- the table of free leaves

  /** Entry `z` of the table is 0 or the code of the one free leaf at depth `z`. */
  type Leaves = seq<nat>

  predicate Free(av: Leaves, z: int) { |av| == 32 && 1 <= z <= 31 && av[z] != 0 }

  /** Free leaves are aligned words, and their codes strictly decrease with depth without overlap. */
  ghost predicate LeavesOk(av: Leaves)
  {
    && |av| == 32
    && (forall z :: Free(av, z) ==> Low(av[z], 32 - z) == 0 && av[z] + Span(z) <= Pow2(32))
    && (forall y, z :: Free(av, y) && Free(av, z) && y < z ==> av[z] + Span(z) <= av[y])
  }

  ghost predicate FreeAt(av: Leaves, p: nat)
  {
    exists z :: Free(av, z) && av[z] <= p < av[z] + Span(z)
  }

  ghost predicate UsedAt(len: seq<nat>, code: seq<nat>, n: nat, p: nat)
    requires AreLengths(len) && n <= |len| && |code| == |len|
  {
    exists j :: 0 <= j < n && Used(len, j) && code[j] <= p < code[j] + Span(len[j])
  }

  /** Every word below 2^32 begins with an assigned code or lies under a free leaf, and never both. */
  ghost predicate Tiled(av: Leaves, len: seq<nat>, code: seq<nat>, n: nat)
    requires AreLengths(len) && n <= |len| && |code| == |len|
  {
    forall p: nat {:trigger FreeAt(av, p)} {:trigger UsedAt(len, code, n, p)} ::
      p < Pow2(32) ==> (FreeAt(av, p) <==> !UsedAt(len, code, n, p))
  }

  /** Words under the free leaves of depth at least `d`. */
  function FreeSum(av: Leaves, d: nat): nat
    requires |av| == 32 && 1 <= d <= 32
    decreases 32 - d
  {
    if d == 32 then 0 else (if av[d] != 0 then Span(d) else 0) + FreeSum(av, d + 1)
  }

  /** Leaves deeper than `d` together cover less than one word of length `d`. */
  lemma {:induction false} DeepLeavesAreSmall(av: Leaves, d: nat)
    requires |av| == 32 && 1 <= d <= 31
    ensures FreeSum(av, d + 1) < Span(d)
    decreases 32 - d
  {
    if d < 31 {
      DeepLeavesAreSmall(av, d + 1);
      assert Span(d) == 2 * Span(d + 1);
    } else {
      assert FreeSum(av, 32) == 0;
    }
  }

  lemma {:induction false} FreeSumSame(av: Leaves, av': Leaves, d: nat)
    requires |av| == |av'| == 32 && 1 <= d <= 32
    requires forall z :: d <= z < 32 ==> av[z] == av'[z]
    ensures FreeSum(av, d) == FreeSum(av', d)
    decreases 32 - d
  {
    if d < 32 {
      FreeSumSame(av, av', d + 1);
    }
  }

  // ---------------------------------------------------------------- one allocation

  /** What splitting a leaf `res` of depth `z` for a code of length `l` adds to the table: one leaf a level. */
  function Split(av: Leaves, res: nat, z: nat, l: nat): (av': Leaves)
    requires |av| == 32 && z <= l <= 31
    ensures |av'| == 32
  {
    seq(32, y requires 0 <= y < 32 => if z < y <= l then res + Span(y) else av[y])
  }

  /** The leaf `res` of depth `z` lies between the leaves of `av` below depth `l` and those above depth `z`. */
  ghost predicate RoomFor(av: Leaves, res: nat, z: nat, l: nat)
  {
    && LeavesOk(av) && z <= l && 1 <= l <= 31
    && Low(res, 32 - z) == 0 && res + Span(z) <= Pow2(32)
    && (forall y :: Free(av, y) ==> y < z || l < y)
    && (forall y :: Free(av, y) && y < z ==> res + Span(z) <= av[y])
    && (forall y :: Free(av, y) && l < y ==> av[y] + Span(y) <= res)
  }

  /** A word of the split leaf beyond the new code lies under exactly one of the new leaves. */
  lemma {:induction false} NewLeafAt(q: nat, z: nat, l: nat) returns (y: nat)
    requires z <= l <= 31 && Span(l) <= q < Span(z)
    ensures z < y <= l && Span(y) <= q < 2 * Span(y)
    decreases l - z
  {
    assert z < l;
    assert Span(z) == 2 * Span(z + 1);
    if Span(z + 1) <= q {
      y := z + 1;
    } else {
      y := NewLeafAt(q, z + 1, l);
    }
  }

  lemma {:induction false} SpanIs(l: nat)
    requires l <= 32
    ensures Span(l) == Pow2(32 - l)
  {
  }

  lemma {:induction false} SpanMono(a: nat, b: nat)
    requires a <= b <= 32
    ensures Span(b) <= Span(a) && (a < b ==> 2 * Span(b) <= Span(a))
  {
    Pow2Mono(32 - b, 32 - a);
    if a < b {
      Pow2Mono(33 - b, 32 - a);
    }
  }

  lemma {:induction false} SplitAligned(av: Leaves, res: nat, z: nat, l: nat, y: nat)
    requires RoomFor(av, res, z, l) && z < y <= l
    ensures Low(res + Span(y), 32 - y) == 0 && res + 2 * Span(y) <= Pow2(32)
  {
    SpanMono(z, y);
    LowSmaller(res, 32 - y, 32 - z);
    LowOfPow2(32 - y, 32 - y);
    LowPlusMultiple(Span(y), res, 32 - y);
  }

  lemma {:induction false} SplitOrdered(av: Leaves, res: nat, z: nat, l: nat, x: nat, y: nat)
    requires RoomFor(av, res, z, l)
    requires Free(Split(av, res, z, l), x) && Free(Split(av, res, z, l), y) && x < y
    ensures Split(av, res, z, l)[y] + Span(y) <= Split(av, res, z, l)[x]
  {
    SpanMono(x, y);
    hide Low, Pow2, Span;
    if z < x <= l {
      if l < y {
        assert Free(av, y);
      }
    } else {
      assert Free(av, x);
      if z < y <= l {
        SpanMono(z, y);
      } else {
        assert Free(av, y);
      }
    }
  }

  lemma {:induction false} SplitOk(av: Leaves, res: nat, z: nat, l: nat)
    requires RoomFor(av, res, z, l)
    ensures LeavesOk(Split(av, res, z, l))
  {
    hide Low, Pow2, Span;
    var av' := Split(av, res, z, l);
    forall y | Free(av', y)
      ensures Low(av'[y], 32 - y) == 0 && av'[y] + Span(y) <= Pow2(32)
    {
      if z < y <= l {
        SplitAligned(av, res, z, l, y);
      } else {
        assert Free(av, y);
      }
    }
    forall x, y | Free(av', x) && Free(av', y) && x < y
      ensures av'[y] + Span(y) <= av'[x]
    {
      SplitOrdered(av, res, z, l, x, y);
    }
  }

  lemma {:induction false} SplitCoversOnly(av: Leaves, res: nat, z: nat, l: nat, p: nat)
    requires RoomFor(av, res, z, l) && FreeAt(Split(av, res, z, l), p)
    ensures FreeAt(av, p) || res + Span(l) <= p < res + Span(z)
  {
    hide Low, Pow2, Span;
    var av' := Split(av, res, z, l);
    var y :| Free(av', y) && av'[y] <= p < av'[y] + Span(y);
    if z < y <= l {
      SpanMono(y, l);
      SpanMono(z, y);
    } else {
      assert Free(av, y);
    }
  }

  /** After a split the free words are those that were free before and the split leaf minus the new code. */
  lemma {:induction false} SplitCovers(av: Leaves, res: nat, z: nat, l: nat, p: nat)
    requires RoomFor(av, res, z, l)
    ensures FreeAt(Split(av, res, z, l), p) <==> FreeAt(av, p) || res + Span(l) <= p < res + Span(z)
  {
    hide Low, Pow2, Span;
    var av' := Split(av, res, z, l);
    if FreeAt(av', p) {
      SplitCoversOnly(av, res, z, l, p);
    }
    if FreeAt(av, p) {
      var y :| Free(av, y) && av[y] <= p < av[y] + Span(y);
      assert Free(av', y);
    }
    if res + Span(l) <= p < res + Span(z) {
      var y := NewLeafAt(p - res, z, l);
      assert Free(av', y) && av'[y] == res + Span(y);
    }
  }

  lemma {:induction false} SplitSum(av: Leaves, res: nat, z: nat, l: nat, d: nat)
    requires RoomFor(av, res, z, l) && z < d <= l + 1
    requires forall y :: z < y <= l ==> av[y] == 0
    ensures FreeSum(Split(av, res, z, l), d) == FreeSum(av, d) + Span(d - 1) - Span(l)
    decreases 32 - d
  {
    var av' := Split(av, res, z, l);
    if d == l + 1 {
      FreeSumSame(av, av', d);
    } else {
      SplitSum(av, res, z, l, d + 1);
      assert Span(d - 1) == 2 * Span(d);
    }
  }

  // ---------------------------------------------------------------- why the leaf taken is the lowest word that fits

  /** One of the two halves of a word of length `e - 1` has no leaf of depth `e` in it. */
  lemma {:induction false} ClearHalf(av: Leaves, e: nat, c: nat) returns (half: nat)
    requires LeavesOk(av) && 1 <= e <= 31 && Low(c, 33 - e) == 0
    ensures Low(half, 32 - e) == 0 && c <= half <= c + Span(e)
    ensures Free(av, e) ==> Disjoint(half, e, av[e], e)
  {
    hide Low, Pow2;
    LowSmaller(c, 32 - e, 33 - e);
    LowOfPow2(32 - e, 32 - e);
    LowPlusMultiple(Span(e), c, 32 - e);
    half := if av[e] == c then c + Span(e) else c;
    if Free(av, e) {
      if av[e] < half {
        MultiplesApart(av[e], half, 32 - e);
      } else {
        MultiplesApart(half, av[e], 32 - e);
      }
    }
  }

  /** A word of length `d` is never filled by leaves deeper than `d`, because there is one leaf a level. */
  lemma {:induction false} NoCover(av: Leaves, d: nat, c: nat) returns (p: nat)
    requires LeavesOk(av) && 1 <= d <= 31 && Low(c, 32 - d) == 0
    ensures c <= p < c + Span(d)
    ensures forall y :: Free(av, y) && d < y ==> !(av[y] <= p < av[y] + Span(y))
    decreases 32 - d
  {
    if d == 31 {
      p := c;
    } else {
      var e := d + 1;
      assert Span(d) == 2 * Span(e);
      hide Low, Pow2, Span;
      var half := ClearHalf(av, e, c);
      p := NoCover(av, e, half);
    }
  }

  /** The free leaves and the leaf in hand are exactly what no earlier code has taken. */
  ghost predicate Ready(av: Leaves, res: nat, z: nat, len: seq<nat>, code: seq<nat>, n: nat)
    requires AreLengths(len) && n <= |len| && |code| == |len| && z <= 32
  {
    forall p: nat {:trigger FreeAt(av, p)} {:trigger UsedAt(len, code, n, p)} :: p < Pow2(32) ==>
      ((FreeAt(av, p) || res <= p < res + Span(z)) <==> !UsedAt(len, code, n, p))
  }

  ghost predicate CanAllocate(av: Leaves, res: nat, z: nat, len: seq<nat>, code: seq<nat>, n: nat)
  {
    && AreLengths(len) && |code| == |len| && Used(len, n)
    && RoomFor(av, res, z, len[n])
    && Ready(av, res, z, len, code, n)
  }

  lemma {:induction false} AllocatedFits(av: Leaves, res: nat, z: nat, len: seq<nat>, code: seq<nat>, n: nat)
    requires CanAllocate(av, res, z, len, code, n)
    ensures Fits(len, code, n, res, len[n])
  {
    var l := len[n];
    SpanMono(z, l);
    LowSmaller(res, 32 - l, 32 - z);
    hide Low, Pow2, Span;
    forall j | 0 <= j < n && Used(len, j)
      ensures Disjoint(res, l, code[j], len[j])
    {
      var p := if res <= code[j] then code[j] else res;
      assert code[j] <= p < code[j] + Span(len[j]) ==> UsedAt(len, code, n, p);
    }
  }

  lemma {:induction false} AllocatedLowest(av: Leaves, res: nat, z: nat, len: seq<nat>, code: seq<nat>, n: nat, c: nat)
    requires CanAllocate(av, res, z, len, code, n) && c < res
    ensures !Fits(len, code, n, c, len[n])
  {
    var l := len[n];
    if Fits(len, code, n, c, l) {
      LowSmaller(res, 32 - l, 32 - z);
      MultiplesApart(c, res, 32 - l);
      var p := NoCover(av, l, c);
      FitsUnused(len, code, n, c, l, p);
      NotFree(av, res, z, l, p);
    }
  }

  lemma {:induction false} FitsUnused(len: seq<nat>, code: seq<nat>, n: nat, c: nat, l: nat, p: nat)
    requires AreLengths(len) && n <= |len| && |code| == |len| && 1 <= l <= 31
    requires Fits(len, code, n, c, l) && c <= p < c + Span(l)
    ensures !UsedAt(len, code, n, p)
  {
  }

  lemma {:induction false} NotFree(av: Leaves, res: nat, z: nat, l: nat, p: nat)
    requires RoomFor(av, res, z, l) && p < res
    requires forall y :: Free(av, y) && l < y ==> !(av[y] <= p < av[y] + Span(y))
    ensures !FreeAt(av, p)
  {
  }

  lemma {:induction false} FitsSame(len: seq<nat>, code: seq<nat>, code': seq<nat>, i: nat, c: nat, l: nat)
    requires AreLengths(len) && i <= |len| && |code| == |code'| == |len| && 1 <= l <= 31
    requires forall j :: 0 <= j < i ==> code[j] == code'[j]
    ensures Fits(len, code, i, c, l) == Fits(len, code', i, c, l)
  {
  }

  lemma {:induction false} AllocatedTiles(av: Leaves, res: nat, z: nat, len: seq<nat>, code: seq<nat>, n: nat)
    requires CanAllocate(av, res, z, len, code, n)
    ensures Tiled(Split(av, res, z, len[n]), len, code[n := res], n + 1)
  {
    var l, code' := len[n], code[n := res];
    var av' := Split(av, res, z, l);
    SpanMono(z, l);
    hide Low, Pow2, Span;
    forall p: nat | p < Pow2(32)
      ensures FreeAt(av', p) <==> !UsedAt(len, code', n + 1, p)
    {
      SplitCovers(av, res, z, l, p);
      UsedAtStep(len, code, n, res, p);
      assert res <= p < res + Span(z) ==> !FreeAt(av, p);
      assert (FreeAt(av, p) || res <= p < res + Span(z)) <==> !UsedAt(len, code, n, p);
    }
  }

  lemma {:induction false} UsedAtStep(len: seq<nat>, code: seq<nat>, n: nat, res: nat, p: nat)
    requires AreLengths(len) && |code| == |len| && Used(len, n)
    ensures UsedAt(len, code[n := res], n + 1, p) <==> UsedAt(len, code, n, p) || res <= p < res + Span(len[n])
  {
    var code' := code[n := res];
    hide Pow2, Span;
    if UsedAt(len, code, n, p) {
      var j :| 0 <= j < n && Used(len, j) && code[j] <= p < code[j] + Span(len[j]);
      assert code'[j] == code[j];
    }
    assert code'[n] == res;
  }

  /** Everything the table maintains after symbols below `n` have been served. */
  ghost predicate Table(av: Leaves, len: seq<nat>, code: seq<nat>, n: nat)
  {
    && AreLengths(len) && |code| == |len| && n <= |len|
    && LeavesOk(av)
    && Tiled(av, len, code, n)
    && FirstFit(len, code, n)
    && KraftSum(len[..n]) + FreeSum(av, 1) == Pow2(32)
  }

  /** Serving one symbol from a leaf at or above its length. */
  lemma {:induction false} Allocate(av: Leaves, res: nat, z: nat, len: seq<nat>, code: seq<nat>, n: nat)
    requires CanAllocate(av, res, z, len, code, n)
    requires FirstFit(len, code, n)
    requires KraftSum(len[..n]) + FreeSum(av, 1) + Span(z) == Pow2(32)
    requires forall y :: z <= y <= len[n] && 0 < y ==> av[y] == 0
    ensures Table(Split(av, res, z, len[n]), len, code[n := res], n + 1)
  {
    hide Low, Pow2, Span, FreeSum, LeavesOk, Tiled, FirstFit, Ready, Split;
    SplitOk(av, res, z, len[n]);
    AllocatedTiles(av, res, z, len, code, n);
    AllocatedFirstFit(av, res, z, len, code, n);
    AllocatedSum(av, res, z, len[n]);
    assert len[..n + 1][..n] == len[..n];
  }

  lemma {:induction false} AllocatedFirstFit(av: Leaves, res: nat, z: nat, len: seq<nat>, code: seq<nat>, n: nat)
    requires CanAllocate(av, res, z, len, code, n)
    requires FirstFit(len, code, n)
    ensures FirstFit(len, code[n := res], n + 1)
  {
    var code' := code[n := res];
    hide Low, Pow2, Span;
    forall i | 0 <= i < n + 1 && Used(len, i)
      ensures Fits(len, code', i, code'[i], len[i])
      ensures forall c: nat :: c < code'[i] ==> !Fits(len, code', i, c, len[i])
    {
      if i == n {
        AllocatedFits(av, res, z, len, code, n);
      }
      FitsSame(len, code, code', i, code'[i], len[i]);
      forall c: nat | c < code'[i]
        ensures !Fits(len, code', i, c, len[i])
      {
        if i == n {
          AllocatedLowest(av, res, z, len, code, n, c);
        }
        FitsSame(len, code, code', i, c, len[i]);
      }
    }
  }

  lemma {:induction false} AllocatedSum(av: Leaves, res: nat, z: nat, l: nat)
    requires RoomFor(av, res, z, l)
    requires forall y :: z <= y <= l && 0 < y ==> av[y] == 0
    ensures FreeSum(Split(av, res, z, l), 1) + Span(l) == FreeSum(av, 1) + Span(z)
  {
    SplitSum(av, res, z, l, z + 1);
    FreeSumAbove(av, Split(av, res, z, l), 1, z + 1);
  }

  /** Tables that agree above depth `d` differ in their sums by what they differ from `d` down. */
  lemma {:induction false} FreeSumAbove(av: Leaves, av': Leaves, a: nat, d: nat)
    requires |av| == |av'| == 32 && 1 <= a <= d <= 32
    requires forall z :: a <= z < d ==> av[z] == av'[z]
    ensures FreeSum(av', a) - FreeSum(av, a) == FreeSum(av', d) - FreeSum(av, d)
    decreases d - a
  {
    hide FreeSum, Span;
    if a < d {
      FreeSumStep(av, a);
      FreeSumStep(av', a);
      FreeSumAbove(av, av', a + 1, d);
    }
  }

  lemma {:induction false} FreeSumStep(av: Leaves, d: nat)
    requires |av| == 32 && 1 <= d < 32
    ensures FreeSum(av, d) == (if av[d] != 0 then Span(d) else 0) + FreeSum(av, d + 1)
  {
    hide Span;
  }

  lemma {:induction false} KraftPrefix(len: seq<nat>, n: nat)
    requires AreLengths(len) && n <= |len|
    ensures KraftSum(len[..n]) <= KraftSum(len)
    decreases |len|
  {
    if n < |len| {
      KraftPrefix(len[..|len| - 1], n);
      assert len[..|len| - 1][..n] == len[..n];
    } else {
      assert len[..n] == len;
    }
  }

  /** With no free leaf at depth `len[n]` or above, the lengths so far already break the Kraft inequality. */
  lemma {:induction false} NoLeafNoCode(av: Leaves, len: seq<nat>, code: seq<nat>, n: nat)
    requires Table(av, len, code, n) && Used(len, n)
    requires forall y :: 1 <= y <= len[n] ==> av[y] == 0
    ensures KraftSum(len) > Pow2(32)
  {
    hide Low, Pow2, Span, FreeSum, Tiled, FirstFit;
    var l := len[n];
    DeepLeavesAreSmall(av, l);
    EmptyAbove(av, 1, l + 1);
    KraftPrefix(len, n + 1);
    assert len[..n + 1][..n] == len[..n];
  }

  lemma {:induction false} EmptyAbove(av: Leaves, a: nat, d: nat)
    requires |av| == 32 && 1 <= a <= d <= 32 && forall y :: a <= y < d ==> av[y] == 0
    ensures FreeSum(av, a) == FreeSum(av, d)
    decreases d - a
  {
    if a < d {
      EmptyAbove(av, a + 1, d);
    }
  }

  lemma {:induction false} NothingFree(d: nat)
    requires 1 <= d <= 32
    ensures FreeSum(seq(32, i => 0), d) == 0
    decreases 32 - d
  {
    if d < 32 {
      NothingFree(d + 1);
    }
  }

  /** The first used symbol takes the all-zero word from the root, which the table cannot hold as a leaf. */
  lemma {:induction false} FirstAllocation(len: seq<nat>, code: seq<nat>, k: nat)
    requires AreLengths(len) && |code| == |len| && Used(len, k)
    requires forall j :: 0 <= j < k ==> len[j] == NO_CODE
    ensures Table(Split(seq(32, i => 0), 0, 0, len[k]), len, code[k := 0], k + 1)
  {
    var none := seq(32, i => 0);
    assert Low(0, 32) == 0 by { SmallLow(0, 32); }
    assert Span(0) == Pow2(32);
    assert CanAllocate(none, 0, 0, len, code, k) by {
      hide Low, Pow2, Span;
      assert RoomFor(none, 0, 0, len[k]);
      assert Ready(none, 0, 0, len, code, k);
    }
    NothingFree(1);
    NothingUsed(len, k);
    hide Low, Pow2, Span, FreeSum;
    Allocate(none, 0, 0, len, code, k);
  }

  lemma {:induction false} ReverseZero()
    ensures BitReverse(0) == 0
  {
    hide BitReverse, RevBits, Pow2;
    NetworkReverses(0);
    RevZeros(32);
  }

  lemma {:induction false} RevZeros(k: nat)
    ensures RevBits(0, k) == 0
    decreases k
  {
    if k > 0 {
      RevZeros(k - 1);
    }
  }

  /** A symbol without a code changes nothing. */
  lemma {:induction false} SkipSymbol(av: Leaves, len: seq<nat>, code: seq<nat>, n: nat)
    requires Table(av, len, code, n) && n < |len| && len[n] == NO_CODE
    ensures Table(av, len, code, n + 1)
  {
    hide Low, Pow2, Span, FreeSum, LeavesOk, Fits;
    assert len[..n + 1][..n] == len[..n];
    assert forall p: nat :: UsedAt(len, code, n + 1, p) <==> UsedAt(len, code, n, p);
  }

  lemma {:induction false} NothingUsed(len: seq<nat>, k: nat)
    requires AreLengths(len) && k <= |len| && forall j :: 0 <= j < k ==> len[j] == NO_CODE
    ensures KraftSum(len[..k]) == 0 && Symbols(len[..k]) == []
    decreases k
  {
    if k > 0 {
      NothingUsed(len, k - 1);
      assert len[..k][..k - 1] == len[..k - 1];
    }
  }

  /** Taking the deepest leaf that is not deeper than the length asked for. */
  lemma {:induction false} NextAllocation(av: Leaves, z: nat, len: seq<nat>, code: seq<nat>, n: nat)
    requires Table(av, len, code, n) && Used(len, n)
    requires Free(av, z) && z <= len[n] && forall y :: z < y <= len[n] ==> av[y] == 0
    ensures av[z] < Pow2(32)
    ensures Table(Split(av[z := 0], av[z], z, len[n]), len, code[n := av[z]], n + 1)
  {
    hide Low, Pow2, Span, FreeSum, KraftSum, FirstFit;
    var res, av0 := av[z], av[z := 0];
    assert RoomFor(av0, res, z, len[n]) by {
      assert forall y :: Free(av0, y) ==> Free(av, y);
    }
    assert Ready(av0, res, z, len, code, n) by {
      forall p: nat | p < Pow2(32)
        ensures (FreeAt(av0, p) || res <= p < res + Span(z)) <==> !UsedAt(len, code, n, p)
      {
        LeafRemoved(av, z, p);
        assert FreeAt(av, p) <==> !UsedAt(len, code, n, p);
      }
    }
    SumWithout(av, z, 1);
    Allocate(av0, res, z, len, code, n);
  }

  lemma {:induction false} LeafRemoved(av: Leaves, z: nat, p: nat)
    requires Free(av, z)
    ensures FreeAt(av, p) <==> FreeAt(av[z := 0], p) || av[z] <= p < av[z] + Span(z)
  {
    hide Pow2, Span;
    if FreeAt(av, p) {
      var y :| Free(av, y) && av[y] <= p < av[y] + Span(y);
      assert y != z ==> Free(av[z := 0], y);
    }
    if FreeAt(av[z := 0], p) {
      var y :| Free(av[z := 0], y) && av[z := 0][y] <= p < av[z := 0][y] + Span(y);
      assert Free(av, y);
    }
  }

  lemma {:induction false} SumWithout(av: Leaves, z: nat, d: nat)
    requires Free(av, z) && 1 <= d <= z
    ensures FreeSum(av[z := 0], d) + Span(z) == FreeSum(av, d)
    decreases z - d
  {
    if d == z {
      FreeSumSame(av, av[z := 0], z + 1);
    } else {
      SumWithout(av, z, d + 1);
    }
  }

  // ---------------------------------------------------------------- the codebook

  /** The used symbols in order. */
  function Symbols(len: seq<nat>): (s: seq<nat>)
    ensures forall k :: 0 <= k < |s| ==> Used(len, s[k])
    ensures |s| <= |len|
  {
    if len == [] then []
    else
      var s := Symbols(len[..|len| - 1]);
      assert forall k :: 0 <= k < |s| ==> Used(len[..|len| - 1], s[k]);
      if len[|len| - 1] == NO_CODE then s else s + [|len| - 1]
  }

  lemma {:induction false} SymbolsPrefix(len: seq<nat>, n: nat)
    requires n <= |len|
    ensures Symbols(len[..n]) <= Symbols(len)
    decreases |len|
  {
    if n < |len| {
      SymbolsPrefix(len[..|len| - 1], n);
      assert len[..|len| - 1][..n] == len[..n];
    } else {
      assert len[..n] == len;
    }
  }

  lemma {:induction false} SymbolsStep(len: seq<nat>, n: nat)
    requires n < |len|
    ensures Symbols(len[..n + 1]) == Symbols(len[..n]) + if len[n] == NO_CODE then [] else [n]
  {
    assert len[..n + 1][..n] == len[..n];
  }

  class Codebook {
    const sparse: bool
    var codewords: array<nat>
    var codewordLengths: array<nat>

    constructor (sparse: bool, size: nat)
      ensures this.sparse == sparse && fresh(codewords) && fresh(codewordLengths) && codewords != codewordLengths
      ensures codewords.Length == codewordLengths.Length == size
    {
      this.sparse := sparse;
      codewords := new nat[size];
      codewordLengths := new nat[size];
    }

    /** What has been stored for the symbols below `n`: by symbol, or packed in order of appearance. */
    ghost predicate Stored(len: seq<nat>, code: seq<nat>, n: nat, values: array<nat>)
      requires n <= |len| == |code|
      reads this, codewords, codewordLengths, values
    {
      if !sparse then
        codewords.Length >= |len| && forall j :: 0 <= j < n && Used(len, j) ==> codewords[j] == BitReverse(code[j])
      else
        var s := Symbols(len[..n]);
        && |s| <= codewords.Length && |s| <= codewordLengths.Length && |s| <= values.Length
        && forall k :: 0 <= k < |s| ==>
             && Used(len[..n], s[k])
             && values[k] == s[k] && codewordLengths[k] == len[s[k]] && codewords[k] == BitReverse(code[s[k]])
    }

    ghost predicate HasRoom(len: seq<nat>, values: array<nat>)
      reads this
    {
      && codewords != codewordLengths && codewords != values && codewordLengths != values
      && if sparse then
           var m := |Symbols(len)|;
           m <= codewords.Length && m <= codewordLengths.Length && m <= values.Length
         else |len| <= codewords.Length
    }

    method AddEntry(huffCode: nat, symbol: nat, count: nat, length: nat, values: array<nat>)
      requires if sparse then count < codewords.Length && count < codewordLengths.Length && count < values.Length
               else symbol < codewords.Length
      requires codewords != codewordLengths && codewords != values && codewordLengths != values
      modifies codewords, codewordLengths, values
      ensures !sparse ==> codewords[..] == old(codewords[..])[symbol := huffCode]
      ensures sparse ==>
        && codewords[..] == old(codewords[..])[count := huffCode]
        && codewordLengths[..] == old(codewordLengths[..])[count := length]
        && values[..] == old(values[..])[count := symbol]
      ensures !sparse ==> codewordLengths[..] == old(codewordLengths[..]) && values[..] == old(values[..])
    {
      if !sparse {
        codewords[symbol] := huffCode;
      } else {
        codewords[count] := huffCode;
        codewordLengths[count] := length;
        values[count] := symbol;
      }
    }

    /** One more entry, by symbol or packed. */
    method StoreNext(len: seq<nat>, ghost code: seq<nat>, n: nat, count: nat, values: array<nat>,
                     ghost res: nat, huffCode: nat)
      requires huffCode == BitReverse(res)
      requires HasRoom(len, values) && Used(len, n) && |code| == |len|
      requires Stored(len, code, n, values) && count == |Symbols(len[..n])|
      modifies codewords, codewordLengths, values
      ensures Stored(len, code[n := res], n + 1, values) && count + 1 == |Symbols(len[..n + 1])|
    {
      hide BitReverse, Symbols;
      SymbolsStep(len, n);
      SymbolsPrefix(len, n + 1);
      ghost var s := Symbols(len[..n]);
      assert Symbols(len[..n + 1]) == s + [n];
      assert forall k :: 0 <= k < |s| && Used(len[..n], s[k]) ==> Used(len[..n + 1], s[k]);
      AddEntry(huffCode, n, count, len[n], values);
    }

    lemma {:induction false} StoredNothing(len: seq<nat>, code: seq<nat>, k: nat, values: array<nat>)
      requires AreLengths(len) && HasRoom(len, values) && k <= |len| == |code|
      requires forall j :: 0 <= j < k ==> len[j] == NO_CODE
      ensures Stored(len, code, k, values) && |Symbols(len[..k])| == 0
    {
      NothingUsed(len, k);
    }

    lemma {:induction false} StoredSkip(len: seq<nat>, code: seq<nat>, n: nat, values: array<nat>)
      requires n < |len| == |code| && len[n] == NO_CODE && Stored(len, code, n, values)
      ensures Stored(len, code, n + 1, values) && |Symbols(len[..n + 1])| == |Symbols(len[..n])|
    {
      SymbolsStep(len, n);
    }

    method ComputeCodewords(len: seq<nat>, values: array<nat>) returns (ok: bool, ghost code: seq<nat>)
      requires AreLengths(len) && HasRoom(len, values)
      modifies codewords, codewordLengths, values
      ensures ok <==> KraftSum(len) <= Pow2(32)
      ensures |code| == |len|
      ensures ok ==> FirstFit(len, code, |len|) && Stored(len, code, |len|, values)
    {
      hide *;
      code := seq(|len|, i => 0);
      var available := new nat[32](i => 0);
      var k := 0;
      while k < |len| && len[k] == NO_CODE
        invariant k <= |len| && forall j :: 0 <= j < k ==> len[j] == NO_CODE
      {
        k := k + 1;
      }
      StoredNothing(len, code, k, values);
      if k == |len| {
        NoSymbols(len, code);
        return true, code;
      }
      var m := 0;
      UsedLength(len, k);
      ReverseZero();
      StoreNext(len, code, k, m, values, 0, 0);
      m := m + 1;
      OpenRoot(available, len[k]);
      FirstAllocation(len, code, k);
      code := code[k := 0];
      for i := k + 1 to |len|
        invariant |code| == |len| && Table(available[..], len, code, i)
        invariant Stored(len, code, i, values) && m == |Symbols(len[..i])|
      {
        if len[i] == NO_CODE {
          SkipSymbol(available[..], len, code, i);
          StoredSkip(len, code, i, values);
        } else {
          UsedLength(len, i);
          var z := FindLeaf(available, len[i]);
          if z == 0 {
            NoLeafNoCode(available[..], len, code, i);
            return false, code;
          }
          var res := available[z];
          NextAllocation(available[..], z, len, code, i);
          available[z] := 0;
          StoreNext(len, code, i, m, values, res, BitReverse(res));
          m := m + 1;
          code := code[i := res];
          Propagate(available, res, z, len[i]);
        }
      }
      Finished(available[..], len, code);
      return true, code;
    }
  }

  lemma {:induction false} NoSymbols(len: seq<nat>, code: seq<nat>)
    requires AreLengths(len) && |code| == |len| && forall j :: 0 <= j < |len| ==> len[j] == NO_CODE
    ensures FirstFit(len, code, |len|) && KraftSum(len) <= Pow2(32)
  {
    NothingUsed(len, |len|);
    assert len[..|len|] == len;
  }

  lemma {:induction false} Finished(av: Leaves, len: seq<nat>, code: seq<nat>)
    requires Table(av, len, code, |len|)
    ensures FirstFit(len, code, |len|) && KraftSum(len) <= Pow2(32)
  {
    assert len[..|len|] == len;
  }

  /** One leaf at every depth from 1 to `l`, below the root. */
  method OpenRoot(available: array<nat>, l: nat)
    requires available.Length == 32 && l < 32
    requires available[..] == seq(32, j => 0)
    modifies available
    ensures available[..] == Split(seq(32, j => 0), 0, 0, l)
  {
    for i := 1 to l + 1
      invariant available[..] == Split(seq(32, j => 0), 0, 0, i - 1)
    {
      available[i] := Pow2(32 - i);
    }
  }

  /** The deepest free leaf at depth `l` or above, or 0. */
  method FindLeaf(available: array<nat>, l: nat) returns (z: nat)
    requires available.Length == 32 && l < 32
    ensures z <= l && (z > 0 ==> Free(available[..], z))
    ensures forall y :: z < y <= l ==> available[..][y] == 0
  {
    z := l;
    while z > 0 && available[z] == 0
      invariant 0 <= z <= l && forall y :: z < y <= l ==> available[..][y] == 0
    {
      z := z - 1;
    }
  }

  /** The part of a leaf of depth `z` that a code of length `l` leaves over goes back into the table. */
  method Propagate(available: array<nat>, res: nat, z: nat, l: nat)
    requires available.Length == 32 && z <= l < 32
    modifies available
    ensures available[..] == Split(old(available[..]), res, z, l)
  {
    var y := l;
    while y > z
      invariant z <= y <= l
      invariant available[..] ==
        seq(32, j requires 0 <= j < 32 => if y < j <= l then res + Span(j) else old(available[..])[j])
    {
      available[y] := res + Pow2(32 - y);
      y := y - 1;
    }
  }
}
