/** Setting up a codebook: sorted codes for the binary search, the direct table, and the whole construction. */
module HuffmanTables {
  import opened Powers
  import opened BitReversal
  import opened HuffmanCodes
  import opened HuffmanDecode
  import opened PacketBits

  // ---------------------------------------------------------------- sorting

  predicate Distinct(s: seq<nat>)
  {
    forall x, y :: 0 <= x < y < |s| ==> s[x] != s[y]
  }

  /** Stands for qsort on distinct keys: the same elements in increasing order. */
  function Sort(s: seq<nat>): (r: seq<nat>)
    requires Distinct(s)
    ensures |r| == |s| && Increasing(r)
    ensures forall y :: y in r <==> y in s
  {
    if s == [] then []
    else
      var t := Sort(s[1..]);
      assert s[0] !in s[1..];
      Insert(s[0], t)
  }

  function Insert(x: nat, s: seq<nat>): (r: seq<nat>)
    requires Increasing(s) && x !in s
    ensures |r| == |s| + 1 && Increasing(r)
    ensures forall y :: y in r <==> y == x || y in s
  {
    if s == [] then [x]
    else if x < s[0] then [x] + s
    else
      var t := Insert(x, s[1..]);
      assert forall y :: y in t ==> s[0] < y;
      assert forall k :: 0 <= k < |t| ==> t[k] in t;
      [s[0]] + t
  }

  /** The symbols that take part in the sorted tables, in order. */
  function SortingSymbols(sparse: bool, len: seq<nat>): (s: seq<nat>)
    ensures forall k :: 0 <= k < |s| ==> Sorts(sparse, len, s[k])
    ensures forall i: nat :: Sorts(sparse, len, i) ==> i in s
    ensures Increasing(s)
  {
    if len == [] then []
    else
      var n := |len| - 1;
      var s := SortingSymbols(sparse, len[..n]);
      assert forall i: nat :: i < n ==> Sorts(sparse, len[..n], i) == Sorts(sparse, len, i);
      if Sorts(sparse, len, n) then s + [n] else s
  }

  lemma {:induction false} SortingStep(sparse: bool, len: seq<nat>, n: nat)
    requires n < |len|
    ensures SortingSymbols(sparse, len[..n + 1])
         == SortingSymbols(sparse, len[..n]) + if Sorts(sparse, len, n) then [n] else []
  {
    assert len[..n + 1][..n] == len[..n];
  }

  lemma {:induction false} SparseSortsAll(len: seq<nat>)
    ensures SortingSymbols(true, len) == Symbols(len)
    decreases |len|
  {
    if len != [] {
      SparseSortsAll(len[..|len| - 1]);
    }
  }

  function Codes(code: seq<nat>, syms: seq<nat>): (s: seq<nat>)
    requires forall k :: 0 <= k < |syms| ==> syms[k] < |code|
    ensures |s| == |syms| && forall k :: 0 <= k < |s| ==> s[k] == code[syms[k]]
  {
    seq(|syms|, k requires 0 <= k < |syms| => code[syms[k]])
  }

  lemma {:induction false} CodesDistinct(len: seq<nat>, code: seq<nat>, syms: seq<nat>)
    requires CodesOk(len, code) && Increasing(syms) && AllUsed(len, syms)
    ensures Distinct(Codes(code, syms))
  {
    hide FirstFit, Span, Pow2;
    forall x, y | 0 <= x < y < |syms|
      ensures code[syms[x]] != code[syms[y]]
    {
      CodesDisjoint(len, code, syms[x], syms[y]);
      PositiveSpan(len[syms[x]]);
      PositiveSpan(len[syms[y]]);
    }
  }

  lemma {:induction false} ReversedBack(len: seq<nat>, code: seq<nat>, i: nat)
    requires CodesOk(len, code) && Used(len, i)
    ensures BitReverse(BitReverse(code[i])) == code[i]
  {
    hide BitReverse, RevBits, Low, Pow2, FirstFit;
    CodeShape(len, code, i);
    NetworkReverses(BitReverse(code[i]));
    RevTwice(code[i], 32);
    SmallLow(code[i], 32);
  }

  // ---------------------------------------------------------------- the sorted tables

  /** What compute_codewords has left behind, read back: words by symbol, or packed beside their symbols. */
  ghost predicate Words(sparse: bool, len: seq<nat>, code: seq<nat>, words: seq<nat>, values: seq<nat>)
    requires |code| == |len|
  {
    if sparse then
      && values == Symbols(len) && |words| == |values|
      && forall k :: 0 <= k < |words| ==> values[k] < |len| && words[k] == BitReverse(code[values[k]])
    else
      |words| == |len| && forall i: nat :: Used(len, i) ==> words[i] == BitReverse(code[i])
  }

  /** The codes to be sorted, bit-reversed back. */
  method CollectCodes(sparse: bool, len: seq<nat>, words: seq<nat>, values: seq<nat>, ghost code: seq<nat>)
    returns (sc: seq<nat>)
    requires CodesOk(len, code) && Words(sparse, len, code, words, values)
    ensures sc == Codes(code, SortingSymbols(sparse, len))
  {
    hide FirstFit, BitReverse;
    sc := [];
    if !sparse {
      for i := 0 to |len|
        invariant sc == Codes(code, SortingSymbols(false, len[..i]))
      {
        SortingStep(false, len, i);
        if Sorts(false, len, i) {
          ReversedBack(len, code, i);
          sc := sc + [BitReverse(words[i])];
        }
      }
      assert len[..|len|] == len;
    } else {
      SparseSortsAll(len);
      for k := 0 to |words|
        invariant |sc| == k && forall j :: 0 <= j < k ==> sc[j] == code[values[j]]
      {
        ReversedBack(len, code, values[k]);
        sc := sc + [BitReverse(words[k])];
      }
    }
  }

  /** The sorted tables while they are being filled; lengths are rearranged for a sparse book only. */
  datatype Filling = Filling(sparse: bool, sc: seq<nat>, sv: seq<nat>, cl: seq<nat>)
  {
    predicate Sized() { Increasing(sc) && |sv| == |sc| && (sparse ==> |cl| == |sc|) }

    /** Place `x` belongs to symbol `i`. */
    predicate Placed(len: seq<nat>, code: seq<nat>, i: nat, x: nat)
      requires Sized()
    {
      i < |len| && i < |code| && x < |sc| && sc[x] == code[i] && sv[x] == i && (sparse ==> cl[x] == len[i])
    }
  }

  ghost predicate HasPlace(t: Filling, len: seq<nat>, code: seq<nat>, i: nat)
    requires t.Sized()
  {
    exists x: nat :: t.Placed(len, code, i, x)
  }

  /** Finds the place of one symbol's code and writes the symbol and its length there. */
  method Place(t: Filling, i: nat, word: nat, l: nat, ghost len: seq<nat>, ghost code: seq<nat>) returns (t': Filling)
    requires t.Sized() && i < |len| == |code| && l == len[i]
    requires BitReverse(word) == code[i] && code[i] in t.sc
    ensures t'.Sized() && t'.sc == t.sc && t'.sparse == t.sparse
    ensures HasPlace(t', len, code, i)
    ensures forall j: nat :: j < |code| && HasPlace(t, len, code, j) && code[j] != code[i] ==>
      HasPlace(t', len, code, j)
  {
    hide BitReverse;
    assert t.sc[..|t.sc|] == t.sc;
    var x := BinarySearch(t.sc, |t.sc|, BitReverse(word));
    assert t.sc[x] == code[i] by {
      var y :| 0 <= y < |t.sc| && t.sc[y] == code[i];
    }
    t' := t.(sv := t.sv[x := i], cl := if t.sparse then t.cl[x := l] else t.cl);
    assert t'.Placed(len, code, i, x);
    forall j: nat | j < |code| && HasPlace(t, len, code, j) && code[j] != code[i]
      ensures HasPlace(t', len, code, j)
    {
      var y: nat :| t.Placed(len, code, j, y);
      assert t'.Placed(len, code, j, y);
    }
  }

  /** All symbols of a list have their places. */
  ghost predicate AllPlaced(t: Filling, len: seq<nat>, code: seq<nat>, syms: seq<nat>)
    requires t.Sized()
  {
    forall i: nat :: i in syms ==> HasPlace(t, len, code, i)
  }

  /** Placing one more symbol does not disturb the others, whose codes differ. */
  method PlaceNext(t: Filling, i: nat, word: nat, l: nat, ghost len: seq<nat>, ghost code: seq<nat>,
                   ghost syms: seq<nat>)
    returns (t': Filling)
    requires CodesOk(len, code) && t.Sized() && Sorts(t.sparse, len, i) && l == len[i]
    requires word == BitReverse(code[i]) && code[i] in t.sc
    requires AllUsed(len, syms) && i !in syms && AllPlaced(t, len, code, syms)
    ensures t'.Sized() && t'.sc == t.sc && t'.sparse == t.sparse
    ensures AllPlaced(t', len, code, syms + [i])
  {
    hide BitReverse, FirstFit, Span, Pow2, HasPlace;
    ReversedBack(len, code, i);
    t' := Place(t, i, word, l, len, code);
    forall j: nat | j in syms
      ensures HasPlace(t', len, code, j)
    {
      CodesDisjoint(len, code, j, i);
      PositiveSpan(len[j]);
      PositiveSpan(len[i]);
    }
  }

  /** Every sorting symbol's code is in the sorted list. */
  ghost predicate ListsAll(sc: seq<nat>, len: seq<nat>, code: seq<nat>, sparse: bool)
    requires |code| == |len|
  {
    forall i: nat :: Sorts(sparse, len, i) ==> code[i] in sc
  }

  method PlaceDense(t0: Filling, len: seq<nat>, words: seq<nat>, ghost code: seq<nat>) returns (t: Filling)
    requires CodesOk(len, code) && Words(false, len, code, words, []) && !t0.sparse
    requires t0.Sized() && ListsAll(t0.sc, len, code, false)
    ensures t.Sized() && t.sc == t0.sc && !t.sparse
    ensures AllPlaced(t, len, code, SortingSymbols(false, len))
  {
    hide BitReverse, FirstFit, HasPlace;
    t := t0;
    for i := 0 to |len|
      invariant t.Sized() && t.sc == t0.sc && !t.sparse
      invariant AllPlaced(t, len, code, SortingSymbols(false, len[..i]))
    {
      SortingStep(false, len, i);
      ghost var done := SortingSymbols(false, len[..i]);
      assert forall k :: 0 <= k < |done| ==> Sorts(false, len[..i], done[k]);
      hide SortingSymbols;
      if Sorts(false, len, i) {
        t := PlaceNext(t, i, words[i], len[i], len, code, done);
      }
    }
    assert len[..|len|] == len;
  }

  method PlaceSparse(t0: Filling, len: seq<nat>, words: seq<nat>, values: seq<nat>, ghost code: seq<nat>)
    returns (t: Filling)
    requires CodesOk(len, code) && Words(true, len, code, words, values) && t0.sparse
    requires t0.Sized() && ListsAll(t0.sc, len, code, true)
    ensures t.Sized() && t.sc == t0.sc && t.sparse
    ensures AllPlaced(t, len, code, SortingSymbols(true, len))
  {
    hide BitReverse, FirstFit, HasPlace;
    SparseSortsAll(len);
    assert Increasing(values) && AllUsed(len, values);
    t := t0;
    for k := 0 to |words|
      invariant t.Sized() && t.sc == t0.sc && t.sparse
      invariant AllPlaced(t, len, code, values[..k])
    {
      assert values[..k + 1] == values[..k] + [values[k]];
      t := PlaceNext(t, values[k], words[k], len[values[k]], len, code, values[..k]);
    }
    assert values[..|words|] == SortingSymbols(true, len);
  }

  method ComputeSortedHuffman(sparse: bool, len: seq<nat>, words: seq<nat>, values: seq<nat>, ghost code: seq<nat>)
    returns (t: Filling)
    requires CodesOk(len, code) && Words(sparse, len, code, words, values)
    ensures t.sparse == sparse && t.Sized() && |t.sc| == |SortingSymbols(sparse, len)|
    ensures SortedOk(sparse, len, code, |t.sc|, t.sc, t.sv)
    ensures sparse ==> forall x :: 0 <= x < |t.sc| ==> t.cl[x] == len[t.sv[x]]
  {
    hide BitReverse, FirstFit, HasPlace;
    ghost var all := SortingSymbols(sparse, len);
    var list := CollectCodes(sparse, len, words, values, code);
    CodesDistinct(len, code, all);
    var sc := Sort(list);
    assert forall k :: 0 <= k < |all| ==> Codes(code, all)[k] in list;
    hide Sort, SortingSymbols;
    t := Filling(sparse, sc, seq(|sc|, i => 0), if sparse then seq(|sc|, i => 0) else []);
    if !sparse {
      t := PlaceDense(t, len, words, code);
    } else {
      t := PlaceSparse(t, len, words, values, code);
    }
    FilledOk(t, len, code);
  }

  /** A sorted code belongs to the symbol whose place it is. */
  lemma {:induction false} PlaceFilled(t: Filling, len: seq<nat>, code: seq<nat>, x: nat)
    requires CodesOk(len, code) && t.Sized() && x < |t.sc|
    requires AllPlaced(t, len, code, SortingSymbols(t.sparse, len))
    requires t.sc[x] in Codes(code, SortingSymbols(t.sparse, len))
    ensures Sorts(t.sparse, len, t.sv[x]) && t.Placed(len, code, t.sv[x], x)
  {
    hide FirstFit;
    var all := SortingSymbols(t.sparse, len);
    var k :| 0 <= k < |all| && Codes(code, all)[k] == t.sc[x];
    assert HasPlace(t, len, code, all[k]);
    var y: nat :| t.Placed(len, code, all[k], y);
    assert x == y;
  }

  /** Once every sorting symbol has a place, every place has its symbol. */
  lemma {:induction false} FilledOk(t: Filling, len: seq<nat>, code: seq<nat>)
    requires CodesOk(len, code) && t.Sized()
    requires AllPlaced(t, len, code, SortingSymbols(t.sparse, len))
    requires forall y :: y in t.sc <==> y in Codes(code, SortingSymbols(t.sparse, len))
    ensures SortedOk(t.sparse, len, code, |t.sc|, t.sc, t.sv)
    ensures t.sparse ==> forall x :: 0 <= x < |t.sc| ==> t.cl[x] == len[t.sv[x]]
  {
    hide FirstFit;
    assert t.sc[..|t.sc|] == t.sc;
    forall x | 0 <= x < |t.sc|
      ensures Sorts(t.sparse, len, t.sv[x]) && t.sc[x] == code[t.sv[x]] && (t.sparse ==> t.cl[x] == len[t.sv[x]])
    {
      assert t.sc[x] in t.sc;
      PlaceFilled(t, len, code, x);
    }
    forall i: nat | Sorts(t.sparse, len, i)
      ensures exists x :: 0 <= x < |t.sc| && t.sv[x] == i
    {
      assert HasPlace(t, len, code, i);
      var y: nat :| t.Placed(len, code, i, y);
      assert t.sv[y] == i;
    }
  }

  // ---------------------------------------------------------------- the direct table

  lemma {:induction false} SameLowApart(y: nat, z: nat, l: nat)
    requires z < y && Low(y, l) == Low(z, l)
    ensures z + Pow2(l) <= y
  {
    LowShr(y, l);
    LowShr(z, l);
    var a, b := Shr(y, l), Shr(z, l);
    if a <= b {
      ShlMono(a, b, l);
    } else {
      ShlMono(b + 1, a, l);
      ShlSum(b, 1, l);
      ShlPow2(0, l);
    }
  }

  /** One codeword `w` of length `l` fills every slot that begins with it. */
  method FillSlots(table: array<int>, i: nat, w: nat, l: nat)
    requires table.Length == FAST_SIZE && w < Pow2(l)
    modifies table
    ensures forall y: nat :: y < FAST_SIZE ==> table[y] == if Low(y, l) == w then i else old(table[y])
  {
    hide Pow2, Low;
    var z := w;
    SmallLow(w, l);
    LowOfPow2(l, l);
    while z < FAST_SIZE
      invariant Low(z, l) == w && w <= z
      invariant forall y: nat :: y < FAST_SIZE ==>
        table[y] == if y < z && Low(y, l) == w && w <= y then i else old(table[y])
      decreases FAST_SIZE - z
    {
      forall y: nat | y < z + Pow2(l) && Low(y, l) == w
        ensures y <= z
      {
        if z < y { SameLowApart(y, z, l); }
      }
      table[z] := i;
      LowPlusMultiple(z, Pow2(l), l);
      z := z + Pow2(l);
    }
    forall y: nat | y < w
      ensures Low(y, l) != w
    {
      SmallLow(y, l);
    }
  }

  /** The direct table answers for the entries below `n`. */
  ghost predicate Answers(len: seq<nat>, code: seq<nat>, b: Book, fast: seq<int>, n: nat)
    requires |code| == |len| && (b.sparse ==> b.Count() <= |b.sortedValues|) && n <= b.Count()
  {
    && |fast| == FAST_SIZE
    && (forall z :: 0 <= z < FAST_SIZE && fast[z] >= 0 ==> fast[z] < n && EntryMatches(len, code, b, fast[z], z))
    && (forall z, e :: 0 <= z < FAST_SIZE && 0 <= e < n && EntryMatches(len, code, b, e, z) ==> fast[z] == e)
  }

  /** The word and the length stored for an entry. */
  lemma {:induction false} EntryWord(len: seq<nat>, code: seq<nat>, b: Book, e: nat)
    requires TablesOk(len, code, b) && e < b.Count() && b.codewordLengths[e] <= FAST_BITS
    ensures Used(len, b.Symbol(e)) && b.codewordLengths[e] == len[b.Symbol(e)]
    ensures (if b.sparse then BitReverse(b.sortedCodewords[e]) else b.codewords[e]) == BitReverse(code[b.Symbol(e)])
    ensures BitReverse(code[b.Symbol(e)]) < Pow2(len[b.Symbol(e)])
  {
    hide BitReverse, FirstFit, Low, Pow2, RevBits, Shr, Increasing;
    CodeShape(len, code, b.Symbol(e));
    ReversedCode(code[b.Symbol(e)], len[b.Symbol(e)]);
  }

  lemma {:induction false} EntriesDiffer(len: seq<nat>, code: seq<nat>, b: Book, d: nat, e: nat, z: nat)
    requires TablesOk(len, code, b) && d < b.Count() && e < b.Count()
    requires EntryMatches(len, code, b, d, z) && EntryMatches(len, code, b, e, z)
    ensures d == e
  {
    hide BitReverse, FirstFit, Low, Pow2;
    var sc := b.sortedCodewords[..b.sortedEntries];
    if b.sparse {
      assert sc[d] == code[b.Symbol(d)] && sc[e] == code[b.Symbol(e)];
    }
    PrefixFree(len, code, b.Symbol(d), b.Symbol(e), z);
  }

  method ComputeAcceleratedHuffman(b: Book, ghost len: seq<nat>, ghost code: seq<nat>) returns (fast: seq<int>)
    requires TablesOk(len, code, b)
    ensures FastOk(len, code, b.(fast := fast))
  {
    hide BitReverse, FirstFit, Low, Pow2, SortedOk, EntryMatches;
    SizesOk(len, code, b);
    var table := new int[FAST_SIZE](i => -1);
    var n := if b.Count() > FAST_LIMIT then FAST_LIMIT else b.Count();
    for i := 0 to n
      invariant Answers(len, code, b, table[..], i)
    {
      ghost var before := table[..];
      if b.codewordLengths[i] <= FAST_BITS {
        EntryWord(len, code, b, i);
        var w := if b.sparse then BitReverse(b.sortedCodewords[i]) else b.codewords[i];
        FillSlots(table, i, w, b.codewordLengths[i]);
        ShortStep(len, code, b, before, table[..], i);
      } else {
        LongStep(len, code, b, before, i);
      }
    }
    fast := table[..];
    SameEntries(len, code, b, fast);
  }

  lemma {:induction false} SizesOk(len: seq<nat>, code: seq<nat>, b: Book)
    requires TablesOk(len, code, b)
    ensures b.Count() <= |b.codewordLengths| && (b.sparse ==> b.Count() <= |b.sortedValues|)
    ensures if b.sparse then b.Count() <= |b.sortedCodewords| else b.Count() <= |b.codewords|
  {
  }

  lemma {:induction false} LongStep(len: seq<nat>, code: seq<nat>, b: Book, fast: seq<int>, i: nat)
    requires TablesOk(len, code, b) && i < b.Count()
    requires b.Count() <= |b.codewordLengths| && (b.sparse ==> b.Count() <= |b.sortedValues|)
    requires b.codewordLengths[i] > FAST_BITS && Answers(len, code, b, fast, i)
    ensures Answers(len, code, b, fast, i + 1)
  {
    hide BitReverse, FirstFit, Low, Pow2, Increasing;
  }

  lemma {:induction false} ShortStep(len: seq<nat>, code: seq<nat>, b: Book, before: seq<int>, after: seq<int>, i: nat)
    requires TablesOk(len, code, b) && i < b.Count()
    requires b.Count() <= |b.codewordLengths| && (b.sparse ==> b.Count() <= |b.sortedValues|)
    requires Answers(len, code, b, before, i) && |after| == FAST_SIZE
    requires Used(len, b.Symbol(i)) && len[b.Symbol(i)] <= FAST_BITS
    requires forall y: nat :: y < FAST_SIZE ==>
      after[y] == if Low(y, len[b.Symbol(i)]) == BitReverse(code[b.Symbol(i)]) then i else before[y]
    ensures Answers(len, code, b, after, i + 1)
  {
    hide BitReverse, FirstFit, Low, Pow2, SortedOk;
    forall z, e | 0 <= z < FAST_SIZE && 0 <= e < i + 1 && EntryMatches(len, code, b, e, z)
      ensures after[z] == e
    {
      if EntryMatches(len, code, b, i, z) {
        EntriesDiffer(len, code, b, e, i, z);
      }
    }
  }

  lemma {:induction false} SameEntries(len: seq<nat>, code: seq<nat>, b: Book, fast: seq<int>)
    requires TablesOk(len, code, b) && (b.sparse ==> b.Count() <= |b.sortedValues|)
    requires Answers(len, code, b, fast, if b.Count() > FAST_LIMIT then FAST_LIMIT else b.Count())
    ensures FastOk(len, code, b.(fast := fast))
  {
    hide BitReverse, FirstFit, Low, Pow2, SortedOk;
    var b' := b.(fast := fast);
    assert forall e: nat, z: nat :: e < b.Count() ==>
      EntryMatches(len, code, b', e, z) == EntryMatches(len, code, b, e, z);
  }

  // ---------------------------------------------------------------- the whole construction

  lemma {:induction false} StoredWords(c: Codebook, len: seq<nat>, code: seq<nat>, values: array<nat>)
    requires |code| == |len| && c.Stored(len, code, |len|, values)
    requires if c.sparse then c.codewords.Length == values.Length == |Symbols(len)| else c.codewords.Length == |len|
    ensures Words(c.sparse, len, code, c.codewords[..], values[..])
  {
    hide BitReverse;
    assert len[..|len|] == len;
    if c.sparse {
      assert values[..] == Symbols(len);
    }
  }

  /** The book before its direct table is filled. */
  function Assemble(sparse: bool, len: seq<nat>, words: seq<nat>, t: Filling): Book
  {
    Book(sparse, |len|, if sparse then [] else words, if sparse then t.cl else len,
         |t.sc|, t.sc + [0xffff_ffff], t.sv, [])
  }

  lemma {:induction false} AssembledOk(sparse: bool, len: seq<nat>, code: seq<nat>, words: seq<nat>, values: seq<nat>,
                                       t: Filling)
    requires CodesOk(len, code) && Words(sparse, len, code, words, values)
    requires t.sparse == sparse && t.Sized() && SortedOk(sparse, len, code, |t.sc|, t.sc, t.sv)
    requires sparse ==> forall x :: 0 <= x < |t.sc| ==> t.cl[x] == len[t.sv[x]]
    ensures TablesOk(len, code, Assemble(sparse, len, words, t))
  {
    hide BitReverse, FirstFit;
    var b := Assemble(sparse, len, words, t);
    assert b.sortedCodewords[..|t.sc|] == t.sc[..|t.sc|];
  }

  /** Builds a codebook from code lengths, or refuses lengths that break the Kraft inequality. */
  method Build(sparse: bool, len: seq<nat>) returns (ok: bool, b: Book, ghost code: seq<nat>)
    requires AreLengths(len)
    ensures ok <==> KraftSum(len) <= Pow2(32)
    ensures ok ==> BookOk(len, code, b) && b.sparse == sparse
  {
    hide BitReverse, FirstFit, Low, Pow2, KraftSum, FastOk, Codebook.Stored, SortedOk, TablesOk, Words, Symbols;
    var m := if sparse then |Symbols(len)| else |len|;
    var c := new Codebook(sparse, m);
    var values := new nat[m];
    b := Book(sparse, |len|, [], [], 0, [], [], []);
    ok, code := c.ComputeCodewords(len, values);
    if ok {
      StoredWords(c, len, code, values);
      var words := c.codewords[..];
      var t := ComputeSortedHuffman(sparse, len, words, values[..], code);
      AssembledOk(sparse, len, code, words, values[..], t);
      b := Assemble(sparse, len, words, t);
      var fast := ComputeAcceleratedHuffman(b, len, code);
      FastTableKeeps(len, code, b, fast);
      b := b.(fast := fast);
    }
  }

  lemma {:induction false} FastTableKeeps(len: seq<nat>, code: seq<nat>, b: Book, fast: seq<int>)
    requires TablesOk(len, code, b)
    ensures TablesOk(len, code, b.(fast := fast))
  {
    hide BitReverse, FirstFit, SortedOk;
  }

  // ---------------------------------------------------------------- what the decoder cannot do

  /** 25 bits is the longest codeword that every refill makes room for, whatever the accumulator held before. */
  lemma {:induction false} LongestReach(l: nat)
    requires 1 <= l <= 31
    ensures l <= 25 <==>
      forall v: nat, total: nat :: v <= 32 && v <= total && l <= total && (total - v) % 8 == 0 ==>
        l <= Refilled(v, total)
  {
    if l <= 25 {
      forall v: nat, total: nat | v <= 32 && v <= total && l <= total && (total - v) % 8 == 0
        ensures l <= Refilled(v, total)
      {
        RefilledEnough(v, total);
      }
    } else {
      assert Refilled(25, 33) == 25;
    }
  }

  /** `n` codewords of 20 bits, then one of a single bit. */
  function LateShort(n: nat): (len: seq<nat>)
    ensures |len| == n + 1 && AreLengths(len)
  {
    seq(n, i => 20) + [1]
  }

  lemma {:induction false} KraftOfTwenties(n: nat)
    ensures KraftSum(seq(n, i => 20)) == 4096 * n
    decreases n
  {
    if n > 0 {
      assert seq(n, i => 20)[..n - 1] == seq(n - 1, i => 20);
      KraftOfTwenties(n - 1);
      assert Span(20) == 4096 by { assert Pow2(12) == 4096; }
    }
  }

  /**
   Lengths the construction accepts and for which decoding nevertheless loses a symbol: the last symbol's one-bit
   codeword is too late for the direct table and too short for the sorted tables.
   */
  lemma {:induction false} LateShortCodewordIsLost(code: seq<nat>, b: Book)
    requires |code| == FAST_LIMIT + 1 && BookOk(LateShort(FAST_LIMIT), code, b) && !b.sparse
    ensures KraftSum(LateShort(FAST_LIMIT)) <= Pow2(32)
    ensures Used(LateShort(FAST_LIMIT), FAST_LIMIT) && Blind(b, LateShort(FAST_LIMIT), FAST_LIMIT)
  {
    hide FirstFit, BitReverse, FastOk;
    var len := LateShort(FAST_LIMIT);
    LateShortFits(FAST_LIMIT);
    assert Sorts(false, len, 0);
    assert b.sortedEntries > 0;
  }

  lemma {:induction false} LateShortFits(n: nat)
    requires n <= FAST_LIMIT
    ensures KraftSum(LateShort(n)) <= Pow2(32)
  {
    var len := LateShort(n);
    assert len[..|len| - 1] == seq(n, i => 20);
    KraftOfTwenties(n);
    assert Span(1) == 0x8000_0000 by { BigPowers(); }
    BigPowers();
  }

  lemma {:induction false} FourMore(k: nat)
    ensures Pow2(k + 4) == 16 * Pow2(k)
  {
    assert Pow2(k + 4) == 2 * Pow2(k + 3) && Pow2(k + 3) == 2 * Pow2(k + 2) && Pow2(k + 2) == 2 * Pow2(k + 1);
  }

  lemma {:induction false} BigPowers()
    ensures Pow2(31) == 0x8000_0000 && Pow2(32) == 0x1_0000_0000
  {
    assert Pow2(32) == 2 * Pow2(31);
    assert Pow2(0) == 1;
    hide Pow2;
    FourMore(0);
    FourMore(4);
    FourMore(8);
    FourMore(12);
    FourMore(16);
    FourMore(20);
    FourMore(24);
    FourMore(28);
  }
}