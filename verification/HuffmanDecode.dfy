/**
 The three ways of finding a codeword at the front of the bit stream: the direct table for short codes, the binary
 search over bit-reversed codes and the linear search. All three find the same symbol.
 */
module HuffmanDecode {
  import opened Powers
  import opened BitReversal
  import opened HuffmanCodes
  import opened PacketBits

  const FAST_BITS: nat := 10
  const FAST_SIZE: nat := 1024
  /** The direct table holds 16-bit indices, so it ignores entries from here on. */
  const FAST_LIMIT: nat := 32767

  /** The stream value `v` begins with the codeword of symbol `i`. */
  ghost predicate Begins(len: seq<nat>, code: seq<nat>, i: nat, v: nat)
    requires |code| == |len|
  {
    Used(len, i) && Low(v, len[i]) == BitReverse(code[i])
  }

  // ---------------------------------------------------------------- codewords and intervals

  /** The reversed code holds the code's leading `l` bits, first bit lowest. */
  lemma {:induction false} ReversedCode(c: nat, l: nat)
    requires 1 <= l <= 31 && Low(c, 32 - l) == 0 && c + Span(l) <= Pow2(32)
    ensures Shr(c, 32 - l) < Pow2(l) && RevBits(c, 32) == RevBits(Shr(c, 32 - l), l)
  {
    hide RevBits, Low, Shl, Shr, Pow2;
    var k := 32 - l;
    RevSplit(c, k, l);
    RevLow(c, k);
    RevZeros(k);
    ShlZero(l);
    assert c < Pow2(k + l) by { SpanIs(l); PositiveSpan(l); }
    ShrBound(c, k, l);
  }

  lemma {:induction false} PositiveSpan(l: nat)
    requires l <= 32
    ensures Span(l) >= 1
  {
  }

  /** A word begins with a codeword exactly when its reversal lies in the code's interval. */
  lemma {:induction false} CodeMatches(v: nat, c: nat, l: nat)
    requires 1 <= l <= 31 && Low(c, 32 - l) == 0 && c + Span(l) <= Pow2(32)
    ensures Low(v, l) == RevBits(c, 32) <==> c <= RevBits(v, 32) < c + Span(l)
  {
    hide RevBits, Low, Shl, Shr, Pow2;
    var k := 32 - l;
    var q, w := Shr(c, k), RevBits(v, l);
    ReversedCode(c, l);
    RevSplit(v, l, k);
    LowShr(c, k);
    SpanIs(l);
    assert Low(v, l) == RevBits(q, l) <==> w == q by {
      RevTwice(v, l);
      RevLow(v, l);
      RevTwice(q, l);
      SmallLow(q, l);
    }
    InInterval(RevBits(Shr(v, l), k), w, q, k);
  }

  lemma {:induction false} InInterval(low: nat, w: nat, q: nat, k: nat)
    requires low < Pow2(k)
    ensures w == q <==> Shl(q, k) <= low + Shl(w, k) < Shl(q, k) + Pow2(k)
  {
    if w < q {
      ShlMono(w + 1, q, k);
      ShlSum(w, 1, k);
      ShlPow2(0, k);
    } else if q < w {
      ShlMono(q + 1, w, k);
      ShlSum(q, 1, k);
      ShlPow2(0, k);
    }
  }

  ghost predicate CodesOk(len: seq<nat>, code: seq<nat>)
  {
    AreLengths(len) && |code| == |len| && FirstFit(len, code, |len|)
  }

  lemma {:induction false} CodeShape(len: seq<nat>, code: seq<nat>, i: nat)
    requires CodesOk(len, code) && Used(len, i)
    ensures 1 <= len[i] <= 31 && Low(code[i], 32 - len[i]) == 0 && code[i] + Span(len[i]) <= Pow2(32)
    ensures code[i] < Pow2(32) && BitReverse(code[i]) == RevBits(code[i], 32)
  {
    hide Low, BitReverse, RevBits, Pow2;
    UsedLength(len, i);
    assert Fits(len, code, i, code[i], len[i]);
    PositiveSpan(len[i]);
    NetworkReverses(code[i]);
  }

  lemma {:induction false} CodesDisjoint(len: seq<nat>, code: seq<nat>, i: nat, j: nat)
    requires CodesOk(len, code) && Used(len, i) && Used(len, j) && i != j
    ensures len[i] <= 31 && len[j] <= 31 && Disjoint(code[i], len[i], code[j], len[j])
  {
    hide Low, BitReverse, RevBits, Pow2, Span;
    UsedLength(len, i);
    UsedLength(len, j);
    var m := if i < j then j else i;
    assert Fits(len, code, m, code[m], len[m]);
  }

  /** No stream begins with the codewords of two symbols: no codeword is a prefix of another. */
  lemma {:induction false} PrefixFree(len: seq<nat>, code: seq<nat>, i: nat, j: nat, v: nat)
    requires CodesOk(len, code) && Begins(len, code, i, v) && Begins(len, code, j, v)
    ensures i == j
  {
    hide Low, BitReverse, RevBits, Pow2, Span;
    if i != j {
      CodeShape(len, code, i);
      CodeShape(len, code, j);
      CodeMatches(v, code[i], len[i]);
      CodeMatches(v, code[j], len[j]);
      CodesDisjoint(len, code, i, j);
    }
  }

  /** Among more than `l` leading bits only the first `l` decide. */
  lemma {:induction false} BeginsLow(len: seq<nat>, code: seq<nat>, i: nat, v: nat, w: nat, k: nat)
    requires |code| == |len| && Used(len, i) && len[i] <= k && Low(v, k) == Low(w, k)
    ensures Begins(len, code, i, v) == Begins(len, code, i, w)
  {
    LowOfLow(v, len[i], k);
    LowOfLow(w, len[i], k);
  }

  lemma {:induction false} LowOfLow(v: nat, a: nat, k: nat)
    requires a <= k
    ensures Low(Low(v, k), a) == Low(v, a)
  {
    hide Low, Shr, Shl, Pow2;
    LowAdd(v, a, k - a);
    Join(Low(v, a), Low(Shr(v, a), k - a), a);
  }

  // ---------------------------------------------------------------- the finished tables

  /** `codewords` is empty for a sparse book: its array is freed once the sorted tables exist. */
  datatype Book = Book(
    sparse: bool, entries: nat, codewords: seq<nat>, codewordLengths: seq<nat>,
    sortedEntries: nat, sortedCodewords: seq<nat>, sortedValues: seq<nat>, fast: seq<int>)
  {
    /** Entries of the per-entry arrays: used symbols for a sparse book, all symbols otherwise. */
    function Count(): nat { if sparse then sortedEntries else entries }

    /** The symbol an entry stands for. */
    function Symbol(e: nat): nat
      requires sparse ==> e < |sortedValues|
    {
      if sparse then sortedValues[e] else e
    }

    /** A sparse book without a used symbol has no search tables at all. */
    predicate NoEntries() { sparse && sortedEntries == 0 }

    predicate UsesBinarySearch() { if entries > 8 then sortedEntries > 0 else sparse }
  }

  /** A symbol takes part in the sorted tables. */
  predicate Sorts(sparse: bool, len: seq<nat>, i: nat)
  {
    Used(len, i) && (sparse || len[i] > FAST_BITS)
  }

  /** In a book that is not sparse every used symbol is for one of the two tables, and none is for both. */
  lemma {:induction false} OneTableEach(len: seq<nat>, i: nat)
    requires Used(len, i)
    ensures Sorts(false, len, i) <==> Pow2(len[i]) > FAST_SIZE
  {
    hide Pow2;
    assert Pow2(FAST_BITS) == FAST_SIZE by { TableSize(); }
    if len[i] <= FAST_BITS {
      Pow2Mono(len[i], FAST_BITS);
    } else {
      Pow2Mono(FAST_BITS + 1, len[i]);
      TwiceAsLarge(FAST_BITS);
    }
  }

  lemma {:induction false} TableSize()
    ensures Pow2(10) == 1024
  {
  }

  lemma {:induction false} TwiceAsLarge(n: nat)
    ensures Pow2(n + 1) == 2 * Pow2(n)
  {
  }

  predicate Increasing(s: seq<nat>)
  {
    forall x, y :: 0 <= x < y < |s| ==> s[x] < s[y]
  }

  /** The first `n` places list the codes of the sorting symbols in increasing order, with their symbols. */
  ghost predicate SortedOk(sparse: bool, len: seq<nat>, code: seq<nat>, n: nat, sc: seq<nat>, sv: seq<nat>)
    requires |code| == |len|
  {
    && n <= |sc| && n <= |sv|
    && Increasing(sc[..n])
    && (forall x :: 0 <= x < n ==> Sorts(sparse, len, sv[x]) && sc[x] == code[sv[x]])
    && (forall i: nat :: Sorts(sparse, len, i) ==> exists x :: 0 <= x < n && sv[x] == i)
  }

  ghost predicate EntryMatches(len: seq<nat>, code: seq<nat>, b: Book, e: nat, z: nat)
    requires |code| == |len| && (b.sparse ==> e < |b.sortedValues|)
  {
    Begins(len, code, b.Symbol(e), z) && len[b.Symbol(e)] <= FAST_BITS
  }

  /** The direct table answers every 10-bit word that begins with a short codeword of an entry below the limit. */
  ghost predicate FastOk(len: seq<nat>, code: seq<nat>, b: Book)
    requires |code| == |len| && (b.sparse ==> b.Count() <= |b.sortedValues|)
  {
    && |b.fast| == FAST_SIZE
    && (forall z :: 0 <= z < FAST_SIZE && b.fast[z] >= 0 ==>
          b.fast[z] < b.Count() && b.fast[z] < FAST_LIMIT && EntryMatches(len, code, b, b.fast[z], z))
    && (forall z, e ::
          0 <= z < FAST_SIZE && 0 <= e < b.Count() && e < FAST_LIMIT && EntryMatches(len, code, b, e, z) ==>
          b.fast[z] == e)
  }

  /** The per-entry and the sorted tables describe the first-fit code of `len`. */
  ghost predicate TablesOk(len: seq<nat>, code: seq<nat>, b: Book)
  {
    && CodesOk(len, code)
    && b.entries == |len|
    && SortedOk(b.sparse, len, code, b.sortedEntries, b.sortedCodewords, b.sortedValues)
    && (if b.sparse then
          && |b.codewordLengths| >= b.sortedEntries
          && forall x :: 0 <= x < b.sortedEntries ==> b.codewordLengths[x] == len[b.sortedValues[x]]
        else
          && b.codewordLengths == len && |b.codewords| == |len|
          && forall i: nat :: Used(len, i) ==> b.codewords[i] == BitReverse(code[i]))
  }

  ghost predicate BookOk(len: seq<nat>, code: seq<nat>, b: Book)
  {
    TablesOk(len, code, b) && FastOk(len, code, b)
  }

  // ---------------------------------------------------------------- searching

  /** Binary search in the first `n > 0` sorted codes: the last one not above `code`, or the first of all. */
  method BinarySearch(sc: seq<nat>, n: nat, code: nat) returns (x: nat)
    requires 0 < n <= |sc| && Increasing(sc[..n])
    ensures x < n
    ensures x == 0 || sc[x] <= code
    ensures x + 1 < n ==> code < sc[x + 1]
  {
    x := 0;
    var m := n;
    while m > 1
      invariant 1 <= m && x + m <= n
      invariant x == 0 || sc[x] <= code
      invariant x + m < n ==> code < sc[x + m]
      decreases m
    {
      var mid := x + m / 2;
      if sc[mid] <= code {
        x := mid;
        m := m - m / 2;
      } else {
        m := m / 2;
      }
    }
  }

  /** Binary search lands on the one sorted code whose interval holds the reversed word. */
  lemma {:induction false} SearchFinds(sparse: bool, len: seq<nat>, code: seq<nat>, n: nat, sc: seq<nat>, sv: seq<nat>,
                                       v: nat, i: nat, x: nat)
    requires CodesOk(len, code) && SortedOk(sparse, len, code, n, sc, sv)
    requires Sorts(sparse, len, i) && Begins(len, code, i, v)
    requires x < n && (x == 0 || sc[x] <= RevBits(v, 32)) && (x + 1 < n ==> RevBits(v, 32) < sc[x + 1])
    ensures sv[x] == i
  {
    hide Low, BitReverse, RevBits, Pow2, Span;
    CodeShape(len, code, i);
    CodeMatches(v, code[i], len[i]);
    var y :| 0 <= y < n && sv[y] == i;
    if x != y {
      CodesDisjoint(len, code, sv[x], i);
    }
  }

  /** Linear search over a book that is not sparse: the first used codeword that the word begins with. */
  method LinearSearch(b: Book, v: nat, ghost len: seq<nat>, ghost code: seq<nat>) returns (r: int)
    requires BookOk(len, code, b) && !b.sparse
    ensures r == -1 || (0 <= r < |len| && Begins(len, code, r, v))
    ensures r == -1 ==> forall i: nat :: !Begins(len, code, i, v)
  {
    hide Low, BitReverse, FirstFit, FastOk, SortedOk;
    for i := 0 to b.entries
      invariant forall j: nat :: j < i ==> !Begins(len, code, j, v)
    {
      if b.codewordLengths[i] != NO_CODE && b.codewords[i] == Low(v, b.codewordLengths[i]) {
        return i;
      }
    }
    return -1;
  }

  /** The search without the direct table cannot see a short codeword when the sorted tables are used. */
  predicate SearchSees(b: Book, len: seq<nat>, i: nat)
  {
    Sorts(b.sparse, len, i) || !b.UsesBinarySearch()
  }

  /** The entry found and its codeword taken off the stream, or -1. */
  ghost predicate Finds(b: Book, r: int, i: nat)
  {
    r >= 0 && (b.sparse ==> r < |b.sortedValues|) && b.Symbol(r) == i
  }

  /** Where the search over the accumulator `v` ends: an entry, or -1. */
  method Search(b: Book, v: nat, ghost len: seq<nat>, ghost code: seq<nat>) returns (r: int)
    requires BookOk(len, code, b) && v < Pow2(32) && !b.NoEntries()
    ensures r == -1 || (0 <= r < b.Count() && r < |b.codewordLengths| && Used(len, b.Symbol(r))
                        && b.codewordLengths[r] == len[b.Symbol(r)] && (b.sparse ==> r < |b.sortedValues|))
    ensures forall i: nat :: Begins(len, code, i, v) && SearchSees(b, len, i) ==> Finds(b, r, i)
    ensures forall i: nat :: Begins(len, code, i, v) && !SearchSees(b, len, i) ==> !Finds(b, r, i)
  {
    hide Low, BitReverse, RevBits, Pow2, FastOk, FirstFit;
    if b.UsesBinarySearch() {
      NetworkReverses(v);
      var x := BinarySearch(b.sortedCodewords, b.sortedEntries, BitReverse(v));
      r := if b.sparse then x else b.sortedValues[x];
      forall i: nat | Begins(len, code, i, v) && Sorts(b.sparse, len, i)
        ensures b.sortedValues[x] == i
      {
        SearchFinds(b.sparse, len, code, b.sortedEntries, b.sortedCodewords, b.sortedValues, v, i, x);
      }
    } else {
      r := LinearSearch(b, v, len, code);
      forall i: nat | Begins(len, code, i, v)
        ensures r == i
      {
        PrefixFree(len, code, i, r, v);
      }
    }
  }

  // ---------------------------------------------------------------- decoding from the stream

  /** The direct table misses a short codeword of a late entry, and the sorted tables leave it out. */
  predicate Blind(b: Book, len: seq<nat>, i: nat)
  {
    !SearchSees(b, len, i) && i >= FAST_LIMIT
  }

  /** The direct table lists the symbol. */
  ghost predicate Fast(b: Book, len: seq<nat>, i: nat)
    requires Used(len, i)
  {
    len[i] <= FAST_BITS && exists e: nat :: e < FAST_LIMIT && e < b.Count() && Finds(b, e, i)
  }

  /** Symbol `i` is next in the stream. */
  ghost predicate IsNext(len: seq<nat>, code: seq<nat>, i: nat, value: nat, length: nat)
    requires |code| == |len|
  {
    Begins(len, code, i, value) && len[i] <= length
  }

  /** Bits that are held are the first bits of the stream. */
  lemma {:induction false} HeldBits(f: BitReader, k: nat)
    requires f.Valid() && f.validBits >= 0 && (f.validBits == 0 ==> f.acc == 0)
    ensures k <= f.validBits ==> Low(f.acc, k) == Low(f.Value(), k)
    ensures f.acc < Pow2(32)
  {
    hide Low, Pow2, Shl, Bits, PacketReader.Valid, PacketReader.Remaining;
    f.AccumulatorBound();
    Pow2Mono(f.validBits, 32);
    if k <= f.validBits { TakeBits(f.acc, f.validBits, f.packet.Remaining(), k); }
  }

  /** The stream starts with these bits. */
  ghost predicate Leads(f: BitReader, value: nat, length: nat)
    requires f.Valid()
    reads f, f.packet
  {
    f.Length() >= length && Low(f.Value(), length) == Low(value, length)
  }

  /** Bits put behind a stream do not change its front. */
  lemma {:induction false} StreamFront(v: nat, n: nat, s: seq<Byte>)
    ensures Low(Stream(v, n, s), n) == Low(v, n)
  {
    hide Low, Shl, Pow2, Bits;
    ShlZero(n);
    Join(0, Bits(s), n);
    LowPlusMultiple(v, Shl(Bits(s), n), n);
  }

  /** Streams that agree go on agreeing behind what is taken from both. */
  lemma {:induction false} StillAgree(v: nat, w: nat, l: nat, n: nat)
    requires l <= n && Low(v, n) == Low(w, n)
    ensures Low(Shr(v, l), n - l) == Low(Shr(w, l), n - l)
  {
    hide Low, Shr, Shl, Pow2;
    var x, y := Low(Shr(v, l), n - l), Low(Shr(w, l), n - l);
    LowAdd(v, l, n - l);
    LowAdd(w, l, n - l);
    Join(Low(v, l), x, l);
    Join(Low(w, l), y, l);
  }

  /** The end of a packet that nothing follows, or that the next refill does not reach. */
  ghost predicate Undisturbed(f: BitReader)
    requires f.Valid() && f.validBits >= 0
    reads f, f.packet
  {
    f.packet.Beyond() == [] || Refilled(f.validBits, f.Length()) > 24
  }

  /**
   The search path: refill, search, take the codeword off if all of it is held. `i` is the symbol to expect, if any.
   */
  method DecodeScalarRaw(f: BitReader, b: Book, ghost len: seq<nat>, ghost code: seq<nat>, ghost i: nat)
    returns (r: int)
    requires f.Valid() && f.validBits >= 0 && BookOk(len, code, b)
    modifies f`acc, f`validBits, f.packet
    ensures f.Valid() && f.validBits >= 0
    ensures r == -1 || (0 <= r < b.Count() && (b.sparse ==> r < |b.sortedValues|) && Used(len, b.Symbol(r)))
    ensures r == -1 ==> f.validBits == 0 || b.NoEntries()
    ensures old(IsNext(len, code, i, f.Value(), f.Length())) ==>
      (Finds(b, r, i) <==> SearchSees(b, len, i) && len[i] <= Refilled(old(f.validBits), old(f.Length())))
    ensures old(IsNext(len, code, i, f.Value(), f.Length())) && Finds(b, r, i) ==>
      && f.validBits == Refilled(old(f.validBits), old(f.Length())) - len[i]
      && old(f.Length()) >= len[i] && Leads(f, Shr(old(f.Value()), len[i]), old(f.Length()) - len[i])
      && (f.Length() == old(f.Length()) - len[i] || f.validBits == old(f.Length()) - len[i])
      && (old(Undisturbed(f)) ==>
            && f.Value() == Shr(old(f.Value()), len[i]) && f.Length() == old(f.Length()) - len[i]
            && f.packet.Beyond() == old(f.packet.Beyond()))
  {
    hide Low, Pow2, Shl, Shr, Bits, BitReverse, RevBits, Stream, FirstFit, FastOk, SortedOk, PacketReader.Valid,
      PacketReader.Remaining, SearchSees, PastEnd;
    ghost var v, length, next := f.Value(), f.Length(), IsNext(len, code, i, f.Value(), f.Length());
    StreamFront(v, length, f.packet.Beyond());
    f.PrepHuffman();
    f.NoMore(v, f.validBits);
    HeldBits(f, 0);
    if next && len[i] <= f.validBits {
      HeldBits(f, len[i]);
      StillAgree(f.Value(), v, len[i], length);
    }
    if b.NoEntries() {
      NoneUsed(len, code, b);
      return -1;
    }
    var x := Search(b, f.acc, len, code);
    if x >= 0 {
      var n := b.codewordLengths[x];
      if f.validBits >= n {
        var _ := f.TakeHeld(n);
        return x;
      }
    }
    f.validBits := 0;
    return -1;
  }

  lemma {:induction false} NoneUsed(len: seq<nat>, code: seq<nat>, b: Book)
    requires BookOk(len, code, b) && b.NoEntries()
    ensures forall i: nat :: !Used(len, i)
  {
    hide Used;
    assert forall i: nat :: Used(len, i) ==> Sorts(b.sparse, len, i);
  }

  lemma {:induction false} TableIndex(v: nat)
    ensures Low(v, FAST_BITS) < FAST_SIZE
  {
    assert Pow2(10) == FAST_SIZE;
  }

  /** A hit in the direct table is the symbol the stream begins with. */
  lemma {:induction false} FastHit(len: seq<nat>, code: seq<nat>, b: Book, v: nat, i: nat, z: nat)
    requires BookOk(len, code, b) && Begins(len, code, i, v)
    requires z == Low(v, FAST_BITS) && z < FAST_SIZE && b.fast[z] >= 0
    ensures var e := b.fast[z];
      && Finds(b, e, i) && e < FAST_LIMIT && e < |b.codewordLengths| && b.codewordLengths[e] == len[i]
      && len[i] <= FAST_BITS && Fast(b, len, i)
  {
    hide Low, Pow2, BitReverse, FirstFit, RevBits, FastOk;
    FastSize(len, code, b);
    var e := b.fast[z];
    FastEntry(len, code, b, z);
    LowOfLow(v, FAST_BITS, FAST_BITS);
    BeginsLow(len, code, b.Symbol(e), z, v, FAST_BITS);
    PrefixFree(len, code, i, b.Symbol(e), v);
  }

  lemma {:induction false} FastEntry(len: seq<nat>, code: seq<nat>, b: Book, z: nat)
    requires BookOk(len, code, b) && z < FAST_SIZE && b.fast[z] >= 0
    ensures b.fast[z] < b.Count() && b.fast[z] < FAST_LIMIT && (b.sparse ==> b.fast[z] < |b.sortedValues|)
    ensures EntryMatches(len, code, b, b.fast[z], z)
  {
    hide Low, Pow2, BitReverse, FirstFit, RevBits, EntryMatches;
  }

  lemma {:induction false} ShortEntry(len: seq<nat>, code: seq<nat>, b: Book, e: nat, i: nat, z: nat)
    requires BookOk(len, code, b) && e < FAST_LIMIT && e < b.Count() && Finds(b, e, i) && z < FAST_SIZE
    requires Begins(len, code, i, z) && len[i] <= FAST_BITS
    ensures b.fast[z] == e
  {
    hide Low, Pow2, BitReverse, FirstFit, RevBits;
    assert EntryMatches(len, code, b, e, z);
  }

  /** A miss means a long codeword or a late entry of a book that is not sparse. */
  lemma {:induction false} FastMiss(len: seq<nat>, code: seq<nat>, b: Book, v: nat, i: nat, z: nat)
    requires BookOk(len, code, b) && Begins(len, code, i, v)
    requires z == Low(v, FAST_BITS) && z < FAST_SIZE && b.fast[z] < 0
    ensures !Fast(b, len, i) && (Sorts(b.sparse, len, i) || i >= FAST_LIMIT)
  {
    hide Low, Pow2, BitReverse, FirstFit, RevBits;
    if len[i] <= FAST_BITS {
      LowOfLow(v, FAST_BITS, FAST_BITS);
      BeginsLow(len, code, i, z, v, FAST_BITS);
      forall e: nat | e < FAST_LIMIT && e < b.Count() && Finds(b, e, i)
        ensures false
      {
        ShortEntry(len, code, b, e, i, z);
      }
      if !b.sparse { DenseEntry(b, len, i); }
    }
  }

  lemma {:induction false} DenseEntry(b: Book, len: seq<nat>, i: nat)
    requires !b.sparse && Used(len, i) && b.entries == |len|
    ensures i < b.Count() && Finds(b, i, i)
  {
  }

  /** The next bits of the stream as an index into the direct table, after a refill when fewer are held. */
  method PeekTable(f: BitReader) returns (z: nat)
    requires f.Valid() && f.validBits >= 0
    modifies f`acc, f`validBits, f.packet
    ensures f.Valid() && z < FAST_SIZE && z == Low(old(f.Value()), FAST_BITS)
    ensures f.validBits ==
      if old(f.validBits) < FAST_BITS then Refilled(old(f.validBits), old(f.Length())) else old(f.validBits)
    ensures f.validBits <= Refilled(old(f.validBits), old(f.Length()))
    ensures f.validBits <= Refilled(f.validBits, f.Length())
    ensures f.validBits == 0 ==> f.acc == 0
    ensures f.validBits <= f.Length() && Leads(f, old(f.Value()), old(f.Length()))
    ensures
      if old(f.validBits) >= FAST_BITS || f.validBits > 24 then
        f.Value() == old(f.Value()) && f.Length() == old(f.Length())
      else f.validBits == old(f.Length())
    ensures Refilled(old(f.validBits), old(f.Length())) ==
      if f.Length() == old(f.Length()) then Refilled(f.validBits, f.Length()) else f.validBits
    ensures old(Undisturbed(f)) ==>
      && f.Value() == old(f.Value()) && f.Length() == old(f.Length()) && f.packet.Beyond() == old(f.packet.Beyond())
      && Undisturbed(f)
  {
    hide Low, Pow2, Shl, Shr, Bits, Stream, PacketReader.Valid, PacketReader.Remaining, PastEnd, Refilled,
      BitReader.Value;
    ghost var v := f.Value();
    RefilledEnough(f.validBits, f.Length());
    if f.validBits < FAST_BITS {
      StreamFront(v, f.Length(), f.packet.Beyond());
      f.PrepHuffman();
      f.NoMore(v, f.validBits);
    }
    RefilledEnough(f.validBits, f.Length());
    HeldBits(f, FAST_BITS);
    TableIndex(f.acc);
    z := Low(f.acc, FAST_BITS);
  }

  /**
   Decoding one symbol: the direct table first, then the search path.
   The symbol at the front of the stream is found exactly when a refilled accumulator can hold its codeword
   and it is not one of the late short codewords; then its codeword and nothing more is consumed.
   */
  method Decode(f: BitReader, b: Book, ghost len: seq<nat>, ghost code: seq<nat>, ghost i: nat) returns (r: int)
    requires f.Valid() && f.validBits >= 0 && BookOk(len, code, b)
    modifies f`acc, f`validBits, f.packet
    ensures f.Valid() && f.validBits >= 0
    ensures r == -1 || (0 <= r < |len| && Used(len, r))
    ensures r == -1 ==> f.validBits == 0 || b.NoEntries()
    ensures old(IsNext(len, code, i, f.Value(), f.Length())) ==>
      (r == i <==> !Blind(b, len, i) && len[i] <= Refilled(old(f.validBits), old(f.Length())))
    ensures old(IsNext(len, code, i, f.Value(), f.Length())) && r == i ==>
      && old(f.Length()) >= len[i] && Leads(f, Shr(old(f.Value()), len[i]), old(f.Length()) - len[i])
      && var held := Held(old(f.validBits), old(f.Length()), len[i], Fast(b, len, i));
      && ((f.validBits == held && f.Length() == old(f.Length()) - len[i])
          || f.validBits >= old(f.Length()) - len[i] == held)
    ensures old(IsNext(len, code, i, f.Value(), f.Length())) && old(Undisturbed(f)) && r == i ==>
      && f.Value() == Shr(old(f.Value()), len[i]) && f.Length() == old(f.Length()) - len[i]
      && f.packet.Beyond() == old(f.packet.Beyond())
  {
    hide Low, Pow2, Shl, Shr, Bits, BitReverse, RevBits, Stream, FirstFit, FastOk, SortedOk, PacketReader.Valid,
      PacketReader.Remaining, PastEnd, Fast, BitReader.Value, BitReader.Length, Refilled;
    ghost var v, length, next := f.Value(), f.Length(), IsNext(len, code, i, f.Value(), f.Length());
    FastSize(len, code, b);
    var z := PeekTable(f);
    ghost var w, total := f.Value(), f.Length();
    if next {
      BeginsLow(len, code, i, v, w, length);
      StillAgree(w, v, len[i], length);
    }
    var e := b.fast[z];
    if e >= 0 {
      FastEntry(len, code, b, z);
      if next {
        FastHit(len, code, b, v, i, z);
      }
      var n := b.codewordLengths[e];
      if f.validBits < n {
        f.validBits := 0;
        return -1;
      }
      var _ := f.TakeHeld(n);
    } else {
      if next {
        FastMiss(len, code, b, v, i, z);
      }
      e := DecodeScalarRaw(f, b, len, code, i);
      if next && Finds(b, e, i) {
        LowOfLow(f.Value(), length - len[i], total - len[i]);
        LowOfLow(Shr(w, len[i]), length - len[i], total - len[i]);
      }
    }
    r := if b.sparse then (if e < 0 then -1 else b.sortedValues[e]) else e;
  }

  /** The bits left in the accumulator when a codeword of length `l` has been taken, after one refill or none. */
  function Held(held: nat, total: nat, l: nat, fast: bool): int
  {
    (if fast && held >= FAST_BITS then held else Refilled(held, total)) - l
  }

  lemma {:induction false} FastSize(len: seq<nat>, code: seq<nat>, b: Book)
    requires BookOk(len, code, b)
    ensures |b.fast| == FAST_SIZE
  {
  }

  /** A refill holds at least 25 bits or everything, and refilling again adds nothing. */
  lemma {:induction false} RefilledEnough(v: nat, total: nat)
    requires v <= total && (total - v) % 8 == 0
    ensures Refilled(v, total) >= 25 || Refilled(v, total) == total
    ensures Refilled(Refilled(v, total), total) == Refilled(v, total)
    ensures v <= Refilled(v, total) <= total
    decreases total - v
  {
    if v <= 24 && v + 8 <= total {
      RefilledEnough(v + 8, total);
    }
  }

  // ---------------------------------------------------------------- runs of symbols

  predicate AllUsed(len: seq<nat>, syms: seq<nat>)
  {
    forall k :: 0 <= k < |syms| ==> syms[k] < |len| && len[syms[k]] != NO_CODE
  }

  /** The codewords of a symbol sequence, one after the other from the low end. */
  function Encode(len: seq<nat>, code: seq<nat>, syms: seq<nat>): nat
    requires |code| == |len| && AllUsed(len, syms)
  {
    if syms == [] then 0
    else BitReverse(code[syms[0]]) + Shl(Encode(len, code, syms[1..]), len[syms[0]])
  }

  function EncodedLength(len: seq<nat>, syms: seq<nat>): nat
    requires AllUsed(len, syms)
  {
    if syms == [] then 0 else len[syms[0]] + EncodedLength(len, syms[1..])
  }

  /** The stream is the coded sequence with something after it. */
  ghost predicate Carries(len: seq<nat>, code: seq<nat>, syms: seq<nat>, value: nat, length: nat)
    requires |code| == |len| && AllUsed(len, syms)
  {
    && EncodedLength(len, syms) <= length
    && exists rest: nat :: value == Encode(len, code, syms) + Shl(rest, EncodedLength(len, syms))
  }

  /** A stream that carries a sequence begins with its first codeword and then carries the rest. */
  lemma {:induction false} CarriesFirst(len: seq<nat>, code: seq<nat>, syms: seq<nat>, value: nat, length: nat)
    requires CodesOk(len, code) && syms != [] && AllUsed(len, syms)
    requires Carries(len, code, syms, value, length)
    ensures IsNext(len, code, syms[0], value, length) && EncodedLength(len, syms) <= length
    ensures Carries(len, code, syms[1..], Shr(value, len[syms[0]]), length - len[syms[0]])
  {
    hide Low, Shl, Shr, BitReverse, RevBits, Pow2;
    var s, tail := syms[0], syms[1..];
    var l, m := len[s], EncodedLength(len, tail);
    var rest: nat :| value == Encode(len, code, syms) + Shl(rest, EncodedLength(len, syms));
    var after := Encode(len, code, tail) + Shl(rest, m);
    ShlShl(rest, m, l);
    ShlSum(Encode(len, code, tail), Shl(rest, m), l);
    assert value == BitReverse(code[s]) + Shl(after, l);
    CodeShape(len, code, s);
    ReversedCode(code[s], l);
    Join(BitReverse(code[s]), after, l);
  }

  /** The coded sequence has no bits above its length. */
  lemma {:induction false} EncodeBound(len: seq<nat>, code: seq<nat>, syms: seq<nat>)
    requires CodesOk(len, code) && AllUsed(len, syms)
    ensures Encode(len, code, syms) < Pow2(EncodedLength(len, syms))
    decreases |syms|
  {
    hide Low, Shl, Shr, BitReverse, RevBits, Pow2, FirstFit;
    if syms == [] {
      assert Encode(len, code, syms) == 0;
    } else {
      var l, tail := len[syms[0]], syms[1..];
      var m := EncodedLength(len, tail);
      EncodeBound(len, code, tail);
      CodeShape(len, code, syms[0]);
      ReversedCode(code[syms[0]], l);
      ShlMono(Encode(len, code, tail) + 1, Pow2(m), l);
      ShlSum(Encode(len, code, tail), 1, l);
      ShlPow2(0, l);
      ShlPow2(m, l);
      assert Pow2(0) == 1 by { PowZero(); }
    }
  }

  lemma {:induction false} PowZero()
    ensures Pow2(0) == 1
  {
  }

  /** What a stream carries depends on its front only. */
  lemma {:induction false} CarriesFront(len: seq<nat>, code: seq<nat>, syms: seq<nat>, v: nat, n: nat, w: nat, m: nat)
    requires CodesOk(len, code) && AllUsed(len, syms) && Carries(len, code, syms, v, n)
    requires n <= m && Low(v, n) == Low(w, n)
    ensures Carries(len, code, syms, w, m)
  {
    hide Low, Shl, Shr, BitReverse, RevBits, Pow2, FirstFit, Encode;
    var k := EncodedLength(len, syms);
    var rest: nat :| v == Encode(len, code, syms) + Shl(rest, k);
    EncodeBound(len, code, syms);
    Join(Encode(len, code, syms), rest, k);
    LowOfLow(v, k, n);
    LowOfLow(w, k, n);
    LowShr(w, k);
  }

  /** Each codeword in turn fits the accumulator when its turn comes, and none is a late short one. */
  ghost predicate Reaches(b: Book, len: seq<nat>, syms: seq<nat>, held: int, total: int)
    requires AllUsed(len, syms)
    decreases |syms|
  {
    syms == [] ||
    var i := syms[0];
    && held >= 0 && total >= 0 && !Blind(b, len, i) && len[i] <= Refilled(held, total)
    && Reaches(b, len, syms[1..], Held(held, total, len[i], Fast(b, len, i)), total - len[i])
  }

  /** What the reader has left after one symbol of a run: the rest of the run, in reach if it was. */
  lemma {:induction false} StepReaches(b: Book, len: seq<nat>, syms: seq<nat>, held: nat, total: nat,
                                       held': nat, total': nat)
    requires AllUsed(len, syms) && syms != []
    requires EncodedLength(len, syms) <= total && !Blind(b, len, syms[0]) && len[syms[0]] <= Refilled(held, total)
    requires held <= total && (total - held) % 8 == 0 && held' <= total' && (total' - held') % 8 == 0
    requires var l := len[syms[0]];
      var next := Held(held, total, l, Fast(b, len, syms[0]));
      (held' == next && total' == total - l) || held' >= total - l == next
    ensures Reaches(b, len, syms, held, total) == Reaches(b, len, syms[1..], held', total')
  {
    hide Blind, Fast, Refilled, Held;
    ReachesFirst(b, len, syms, held, total);
    var left := total - len[syms[0]];
    if held' != Held(held, total, len[syms[0]], Fast(b, len, syms[0])) || total' != left {
      HeldReach(b, len, syms[1..], left, left);
      HeldReach(b, len, syms[1..], held', total');
    }
  }

  /** The accumulator and the whole bytes of the packet. */
  lemma {:induction false} WholeBytes(f: BitReader)
    requires f.Valid() && f.validBits >= 0
    ensures f.validBits <= f.Length() && (f.Length() - f.validBits) % 8 == 0
  {
  }

  /** Decoding a run of symbols gives back the sequence that was coded in exactly these cases. */
  method DecodeRun(f: BitReader, b: Book, n: nat, ghost len: seq<nat>, ghost code: seq<nat>, ghost syms: seq<nat>)
    returns (out: seq<int>)
    requires f.Valid() && f.validBits >= 0 && BookOk(len, code, b)
    requires n == |syms| && AllUsed(len, syms)
    requires Carries(len, code, syms, f.Value(), f.Length())
    modifies f`acc, f`validBits, f.packet
    ensures f.Valid()
    ensures out == syms <==> Reaches(b, len, syms, old(f.validBits), old(f.Length()))
    ensures out == syms && old(f.packet.Beyond()) == [] ==> f.Length() == old(f.Length()) - EncodedLength(len, syms)
  {
    hide Low, Shl, Shr, BitReverse, RevBits, Pow2, BookOk, Carries, IsNext, Encode, Blind, PacketReader.Valid,
      BitReader.Value, BitReader.Length, Held, Fast, Refilled, PacketReader.Beyond, Reaches;
    out := [];
    ghost var start := Reaches(b, len, syms, f.validBits, f.Length());
    assert syms[0..] == syms;
    BookCodes(len, code, b);
    for k := 0 to n
      invariant f.Valid() && f.validBits >= 0 && |out| == k
      invariant out != syms[..k] ==> !start
      invariant out == syms[..k] ==>
        && Carries(len, code, syms[k..], f.Value(), f.Length())
        && start == Reaches(b, len, syms[k..], f.validBits, f.Length())
      invariant out == syms[..k] && old(f.packet.Beyond()) == [] ==>
        && f.Length() + EncodedLength(len, syms) == old(f.Length()) + EncodedLength(len, syms[k..])
        && f.packet.Beyond() == []
    {
      ghost var s, good := syms[k], out == syms[..k];
      ghost var value, total, held := f.Value(), f.Length(), f.validBits;
      assert syms[k..][1..] == syms[k + 1..] && syms[k..][0] == s;
      if good {
        CarriesFirst(len, code, syms[k..], value, total);
        ReachesFirst(b, len, syms[k..], held, total);
      }
      WholeBytes(f);
      var r := Decode(f, b, len, code, s);
      ghost var before := out;
      out := out + [r];
      assert out[..k] == before && (out == syms[..k + 1] <==> good && r == s);
      if good && r == s {
        WholeBytes(f);
        StepReaches(b, len, syms[k..], held, total, f.validBits, f.Length());
        CarriesFront(len, code, syms[k + 1..], Shr(value, len[s]), total - len[s], f.Value(), f.Length());
      }
    }
    assert syms[n..] == [] && syms[..n] == syms;
    NothingToReach(b, len, f.validBits, f.Length());
  }

  lemma {:induction false} ReachesFirst(b: Book, len: seq<nat>, syms: seq<nat>, held: nat, total: nat)
    requires AllUsed(len, syms) && syms != []
    ensures var i := syms[0];
      Reaches(b, len, syms, held, total) <==>
        && !Blind(b, len, i) && len[i] <= Refilled(held, total)
        && Reaches(b, len, syms[1..], Held(held, total, len[i], Fast(b, len, i)), total - len[i])
  {
    hide Blind, Refilled, Held, Fast;
  }

  /** When all codewords are held, only the late short ones are out of reach. */
  lemma {:induction false} HeldReach(b: Book, len: seq<nat>, syms: seq<nat>, held: nat, total: nat)
    requires AllUsed(len, syms) && EncodedLength(len, syms) <= held <= total && (total - held) % 8 == 0
    ensures Reaches(b, len, syms, held, total) <==> forall k :: 0 <= k < |syms| ==> !Blind(b, len, syms[k])
    decreases |syms|
  {
    hide Blind, Fast, Refilled;
    if syms == [] {
      NothingToReach(b, len, held, total);
    } else {
      var i := syms[0];
      RefilledEnough(held, total);
      RefilledWhole(held, total);
      ReachesFirst(b, len, syms, held, total);
      HeldReach(b, len, syms[1..], Held(held, total, len[i], Fast(b, len, i)), total - len[i]);
      assert forall k :: 0 < k < |syms| ==> syms[k] == syms[1..][k - 1];
    }
  }

  lemma {:induction false} NothingToReach(b: Book, len: seq<nat>, held: int, total: int)
    ensures AllUsed(len, []) && Reaches(b, len, [], held, total)
  {
  }

  /** Every codeword fits a refilled accumulator, and no short codeword comes too late for the direct table. */
  ghost predicate Decodable(b: Book, len: seq<nat>)
  {
    forall i: nat :: Used(len, i) ==> len[i] <= 25 && !Blind(b, len, i)
  }

  /** Any run of codewords can be decoded when all lengths of the book are at most 25. */
  lemma {:induction false} ShortReach(b: Book, len: seq<nat>, syms: seq<nat>, held: nat, total: nat)
    requires Decodable(b, len) && AllUsed(len, syms) && (forall i: nat :: Used(len, i) ==> len[i] > 0)
    requires EncodedLength(len, syms) <= total && held <= total && (total - held) % 8 == 0
    ensures Reaches(b, len, syms, held, total)
    decreases |syms|
  {
    hide Blind, Fast, Refilled;
    if syms == [] {
      NothingToReach(b, len, held, total);
    } else {
      var i := syms[0];
      assert Used(len, i);
      RefilledEnough(held, total);
      RefilledWhole(held, total);
      assert Fast(b, len, i) ==> len[i] <= FAST_BITS by { FastIsShort(b, len, i); }
      ShortReach(b, len, syms[1..], Held(held, total, len[i], Fast(b, len, i)), total - len[i]);
    }
  }

  lemma {:induction false} FastIsShort(b: Book, len: seq<nat>, i: nat)
    requires Used(len, i)
    ensures Fast(b, len, i) ==> len[i] <= FAST_BITS
  {
  }

  /** A refill takes whole bytes. */
  lemma {:induction false} RefilledWhole(v: nat, total: nat)
    requires v <= total && (total - v) % 8 == 0
    ensures (total - Refilled(v, total)) % 8 == 0
    decreases total - v
  {
    if v <= 24 && v + 8 <= total { RefilledWhole(v + 8, total); }
  }

  lemma {:induction false} BookCodes(len: seq<nat>, code: seq<nat>, b: Book)
    requires BookOk(len, code, b)
    ensures CodesOk(len, code)
  {
  }
}
