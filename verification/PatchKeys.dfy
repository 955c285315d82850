/** The in-place unescaping that patch application uses on the last token of a path, and which keys survive it. */
module PatchKeys {
  import opened CStrings
  import opened JsonPointer

  /** The loop state is the buffer, the write position `d` and the read position `p`. */
  function DecodeFrom(buf: string, d: nat, p: nat): string
    requires d <= p <= |buf|
    decreases |buf| - p
  {
    if p == |buf| then buf[..d]
    else if buf[p] == '~' then
      if At(buf, p + 1) == '0' && p + 1 < |buf| then DecodeFrom(buf[d := '~'], d + 1, p + 2)
      else if At(buf, p + 1) == '1' && p + 1 < |buf| then DecodeFrom(buf[d + 1 := '/'], d + 1, p + 2)
      else buf
    else DecodeFrom(buf, d + 1, p + 1)
  }

  function DecodeInPlace(s: string): string
  {
    DecodeFrom(s, 0, 0)
  }

  /** Ordinary characters are skipped but never moved, which only goes unnoticed for some keys. */
  predicate Recoverable(k: string)
  {
    |Encode(k)| >= |k| && '/' !in k && forall j :: 0 <= j < |k| && k[j] != '~' ==> Encode(k)[j] == k[j]
  }

  /** What position `j` of the buffer holds in the end. */
  function Final(k: string, e: string, j: nat): char
    requires j < |k| <= |e|
  {
    if k[j] == '~' then '~' else if j > 0 && k[j - 1] == '/' then '/' else e[j]
  }

  /** The buffer after `n` characters of the key `k` have been consumed. */
  ghost predicate Consumed(k: string, buf: string, n: nat)
  {
    var e := Encode(k);
    && n <= |k| <= |e| == |buf|
    && (forall j :: 0 <= j < n ==> buf[j] == Final(k, e, j))
    && (n < |e| ==> buf[n] == if n > 0 && k[n - 1] == '/' then '/' else e[n])
    && (forall j :: n < j < |e| ==> buf[j] == e[j])
  }

  lemma {:induction false} EncodeSplit(k: string, n: nat)
    requires n <= |k|
    ensures Encode(k) == Encode(k[..n]) + Encode(k[n..])
    ensures n <= |Encode(k[..n])| <= |Encode(k)|
    ensures '/' in k[..n] ==> n < |Encode(k[..n])|
  {
    EncodeConcat(k[..n], k[n..]);
    assert k == k[..n] + k[n..];
    EncodeNoSlash(k[..n]);
    SlashLonger(k[..n]);
  }

  lemma {:induction false} SlashLonger(k: string)
    ensures |Encode(k)| >= |k| && ('/' in k ==> |Encode(k)| > |k|)
    decreases |k|
  {
    if k != "" {
      SlashLonger(k[1..]);
    }
  }

  /** One character of the key. */
  lemma {:induction false} EncodeStep(k: string, n: nat)
    requires n < |k|
    ensures Encode(k[..n + 1]) == Encode(k[..n]) + Encode([k[n]])
    ensures |Encode([k[n]])| == if k[n] == '/' || k[n] == '~' then 2 else 1
    ensures |Encode(k[..n])| + |Encode([k[n]])| <= |Encode(k)|
    ensures Encode(k)[|Encode(k[..n])|..|Encode(k[..n])| + |Encode([k[n]])|] == Encode([k[n]])
  {
    EncodeConcat(k[..n], [k[n]]);
    assert k[..n + 1] == k[..n] + [k[n]];
    assert Encode([k[n]][1..]) == "";
    EncodeSplit(k, n + 1);
  }

  /** One round of the loop at read position `p`, where the escape `w` of the character `c` stands. */
  lemma {:induction false} DecodeStep(buf: string, n: nat, p: nat, c: char, w: string)
    requires w == Encode([c]) && n <= p && p + |w| <= |buf| && buf[p..p + |w|] == w
    ensures |w| >= 1 && DecodeFrom(buf, n, p) ==
      DecodeFrom(if c == '~' then buf[n := '~'] else if c == '/' then buf[n + 1 := '/'] else buf, n + 1, p + |w|)
  {
    assert Encode([c][1..]) == "";
    assert buf[p] == w[0] by { assert buf[p..p + |w|][0] == w[0]; }
    if |w| == 2 {
      assert buf[p + 1] == w[1] by { assert buf[p..p + |w|][1] == w[1]; }
    }
  }

  lemma {:induction false} DecodeRuns(k: string, buf: string, n: nat)
    requires Consumed(k, buf, n) && n <= |Encode(k[..n])| <= |buf|
    ensures var r := DecodeFrom(buf, n, |Encode(k[..n])|);
      |r| == |k| && forall j :: 0 <= j < |k| ==> r[j] == Final(k, Encode(k), j)
    decreases |k| - n
  {
    hide Encode;
    var e, p := Encode(k), |Encode(k[..n])|;
    if n == |k| {
      assert k[..n] == k;
    } else {
      EncodeStep(k, n);
      EncodeSplit(k, n + 1);
      ReadIntact(k, buf, n);
      var w := Encode([k[n]]);
      assert buf[p..p + |w|] == e[p..p + |w|];
      DecodeStep(buf, n, p, k[n], w);
      var buf' := if k[n] == '~' then buf[n := '~'] else if k[n] == '/' then buf[n + 1 := '/'] else buf;
      ConsumedStep(k, buf, buf', n);
      hide DecodeFrom, Consumed;
      DecodeRuns(k, buf', n + 1);
    }
  }

  /** What is still to be read has not been overwritten. */
  lemma {:induction false} ReadIntact(k: string, buf: string, n: nat)
    requires Consumed(k, buf, n) && n < |k|
    requires n <= |Encode(k[..n])| <= |buf|
    ensures forall j :: |Encode(k[..n])| <= j < |buf| ==> buf[j] == Encode(k)[j]
  {
    EncodeSplit(k, n);
    if n > 0 && k[n - 1] == '/' {
      assert k[..n][n - 1] == '/';
    }
  }

  lemma {:induction false} ConsumedStep(k: string, buf: string, buf': string, n: nat)
    requires Consumed(k, buf, n) && n < |k| && n + 1 <= |buf|
    requires k[n] == '/' ==> n + 1 < |buf|
    requires buf' == if k[n] == '~' then buf[n := '~'] else if k[n] == '/' then buf[n + 1 := '/'] else buf
    ensures Consumed(k, buf', n + 1)
  {
  }

  /** Exactly which keys come back from being escaped and unescaped in place. */
  lemma {:induction false} DecodesBack(k: string)
    ensures DecodeInPlace(Encode(k)) == k <==> Recoverable(k)
  {
    var e := Encode(k);
    EncodeNoSlash(k);
    assert k[..0] == "";
    DecodeRuns(k, e, 0);
    var r := DecodeInPlace(e);
    if '/' in k {
      var j := FirstSlash(k);
      assert r[j] == e[j];
      assert e[j] in e;
    }
  }

  function FirstSlash(k: string): (j: nat)
    requires '/' in k
    ensures j < |k| && k[j] == '/' && '/' !in k[..j]
  {
    if k[0] == '/' then 0
    else
      var j := FirstSlash(k[1..]);
      assert k[..j + 1] == [k[0]] + k[1..][..j];
      j + 1
  }

  /** Keys without the two escaped characters are among them. */
  lemma {:induction false} PlainRecoverable(k: string)
    requires '~' !in k && '/' !in k
    ensures Recoverable(k) && Encode(k) == k
    decreases |k|
  {
    if k != "" {
      PlainRecoverable(k[1..]);
      assert k == [k[0]] + k[1..];
    }
  }

  /** The loop of the source over a character buffer; the result is the text before the terminator it writes. */
  method DecodePointerInPlace(text: array<char>) returns (length: nat)
    modifies text
    ensures length <= text.Length && text[..length] == DecodeInPlace(old(text[..]))
  {
    var d, p := 0, 0;
    assert text[..] == old(text[..]);
    while p < text.Length
      invariant d <= p <= text.Length
      invariant DecodeFrom(text[..], d, p) == DecodeInPlace(old(text[..]))
    {
      ghost var buf := text[..];
      if text[p] == '~' {
        if p + 1 < text.Length && text[p + 1] == '0' {
          text[d] := '~';
          assert text[..] == buf[d := '~'];
        } else if p + 1 < text.Length && text[p + 1] == '1' {
          text[d + 1] := '/';
          assert text[..] == buf[d + 1 := '/'];
        } else {
          assert text[..text.Length] == buf;
          return text.Length;
        }
        p := p + 1;
      }
      d, p := d + 1, p + 1;
    }
    return d;
  }
}
