/** Vorbis floor type 1 (Vorbis I specification, section 7.2.4): amplitude unwrapping and the rendered curve. */
module Floor1 {

  // ---------------------------------------------------------------- the predicted point

  /** C's division truncates, but both operands are non-negative here. */
  function PredictPoint(x: int, x0: int, x1: int, y0: int, y1: int): int
    requires x0 <= x && x0 < x1
  {
    var dy := y1 - y0;
    var adx := x1 - x0;
    var off := (Abs(dy) * (x - x0)) / adx;
    if dy < 0 then y0 - off else y0 + off
  }

  function Abs(n: int): nat { if n < 0 then -n else n }

  lemma {:induction false} DivUnique(n: int, d: int, q: int, r: int)
    requires 0 <= r < d && n == q * d + r
    ensures n / d == q && n % d == r
  {
    var q', r' := n / d, n % d;
    Times(q - q', d);
    assert (q - q') * d == q * d - q' * d;
  }

  lemma {:induction false} Times(a: int, d: int)
    requires d > 0
    ensures a >= 1 ==> a * d >= d
    ensures a <= -1 ==> a * d <= -d
  {
    if a >= 1 {
      assert a * d == (a - 1) * d + d;
      assert (a - 1) * d >= 0;
    } else if a <= -1 {
      assert a * d == (a + 1) * d - d;
      assert (a + 1) * d <= 0;
    }
  }

  lemma {:induction false} Monotone(a: nat, k: int, m: int)
    requires k <= m
    ensures a * k <= a * m
  {
    assert a * m == a * k + a * (m - k);
    assert a * (m - k) >= 0;
  }

  lemma {:induction false} QuotientBound(a: nat, k: nat, d: int)
    requires 0 <= k <= d && d > 0
    ensures 0 <= a * k / d <= a
  {
    Monotone(a, k, d);
    assert a * k >= 0;
    var q := a * k / d;
    Times(q - a, d);
    assert (q - a) * d == q * d - a * d;
  }

  /** Between the two ends the predicted point lies between the two end values. */
  lemma {:induction false} PredictBetween(x: int, x0: int, x1: int, y0: int, y1: int)
    requires x0 <= x <= x1 && x0 < x1
    ensures y0 <= y1 ==> y0 <= PredictPoint(x, x0, x1, y0, y1) <= y1
    ensures y1 <= y0 ==> y1 <= PredictPoint(x, x0, x1, y0, y1) <= y0
  {
    QuotientBound(Abs(y1 - y0), x - x0, x1 - x0);
  }

  // ---------------------------------------------------------------- the line

  /** What the error accumulator means after `k` steps: `off` whole steps have been made and `err` is left over. */
  ghost predicate OnLine(ady: nat, adx: int, k: int, off: int, err: int)
  {
    0 <= err < adx && ady * k == off * adx + err
  }

  lemma {:induction false} LineStep(ady: nat, adx: int, k: int, off: int, err: int)
    requires adx > 0 && OnLine(ady, adx, k, off, err)
    ensures var r := err + ady % adx;
      if r >= adx then OnLine(ady, adx, k + 1, off + ady / adx + 1, r - adx)
      else OnLine(ady, adx, k + 1, off + ady / adx, r)
  {
    var b := ady / adx;
    assert ady == b * adx + ady % adx;
    assert ady * (k + 1) == ady * k + ady;
    assert (off + b) * adx == off * adx + b * adx;
    assert (off + b + 1) * adx == off * adx + b * adx + adx;
  }

  lemma {:induction false} OnLinePredicts(x: int, x0: int, x1: int, y0: int, y1: int, off: int, err: int)
    requires x0 <= x && x0 < x1 && OnLine(Abs(y1 - y0), x1 - x0, x - x0, off, err)
    ensures PredictPoint(x, x0, x1, y0, y1) == if y1 < y0 then y0 - off else y0 + off
  {
    DivUnique(Abs(y1 - y0) * (x - x0), x1 - x0, off, err);
  }

  /**
   Integer line drawing without a division per point. The model keeps, for every x, the index into the amplitude
   table that the source multiplies with.
   */
  method DrawLine(curve: array<int>, x0: nat, y0: int, x1: nat, y1: int, limit: nat)
    requires x0 < x1 && limit <= curve.Length
    modifies curve
    ensures forall x :: x0 <= x < x1 && x < limit ==> curve[x] == PredictPoint(x, x0, x1, y0, y1) % 256
    ensures forall x :: 0 <= x < curve.Length && !(x0 <= x < x1 && x < limit) ==> curve[x] == old(curve[x])
  {
    hide PredictPoint, OnLine;
    var dy := y1 - y0;
    var adx := x1 - x0;
    var ady := Abs(dy);
    var b := ady / adx;
    var base := if dy < 0 then -b else b;
    var sy := if dy < 0 then base - 1 else base + 1;
    Remainder(ady, adx);
    var rest := ady - Abs(base) * adx;
    var end := if x1 > limit then limit else x1;
    if x0 < end {
      var x, y, err := x0, y0, 0;
      ghost var off := 0;
      StartOfLine(ady, adx);
      OnLinePredicts(x, x0, x1, y0, y1, off, err);
      curve[x] := y % 256;
      x := x + 1;
      while x < end
        invariant x0 < x <= end
        invariant OnLine(ady, adx, x - 1 - x0, off, err)
        invariant y == if dy < 0 then y0 - off else y0 + off
        invariant forall i :: x0 <= i < x ==> curve[i] == PredictPoint(i, x0, x1, y0, y1) % 256
        invariant forall i :: 0 <= i < curve.Length && !(x0 <= i < x) ==> curve[i] == old(curve[i])
      {
        LineStep(ady, adx, x - 1 - x0, off, err);
        err := err + rest;
        if err >= adx {
          err := err - adx;
          y := y + sy;
          off := off + b + 1;
        } else {
          y := y + base;
          off := off + b;
        }
        OnLinePredicts(x, x0, x1, y0, y1, off, err);
        curve[x] := y % 256;
        x := x + 1;
      }
    }
  }

  lemma {:induction false} Remainder(ady: nat, adx: int)
    requires adx > 0
    ensures ady - (ady / adx) * adx == ady % adx
    ensures ady / adx >= 0
  {
  }

  lemma {:induction false} StartOfLine(ady: nat, adx: int)
    requires adx > 0
    ensures OnLine(ady, adx, 0, 0, 0)
  {
  }

  // ---------------------------------------------------------------- amplitude unwrapping

  /** The amplitude a decoded value stands for, given the predicted one: small values alternate around it. */
  function Unwrap(range: int, pred: int, val: int): int
  {
    var highroom := range - pred;
    var lowroom := pred;
    var room := if highroom < lowroom then highroom * 2 else lowroom * 2;
    if val == 0 then pred
    else if val >= room then
      if highroom > lowroom then val - lowroom + pred else pred - val + highroom - 1
    else if val % 2 == 1 then pred - (val + 1) / 2
    else pred + val / 2
  }

  /** The value an encoder has to send for amplitude `y`. */
  function Wrap(range: int, pred: int, y: int): int
  {
    var room := if range - pred < pred then (range - pred) * 2 else pred * 2;
    if y >= pred then if 2 * (y - pred) < room || y == pred then 2 * (y - pred) else y
    else if 2 * (pred - y) - 1 < room then 2 * (pred - y) - 1 else range - 1 - y
  }

  /** Unwrapping is a bijection of `[0, range)` for every prediction in it: `Wrap` undoes it on both sides. */
  lemma {:induction false} UnwrapBijective(range: int, pred: int, v: int)
    requires 0 <= pred < range && 0 <= v < range
    ensures 0 <= Unwrap(range, pred, v) < range && Wrap(range, pred, Unwrap(range, pred, v)) == v
    ensures 0 <= Wrap(range, pred, v) < range && Unwrap(range, pred, Wrap(range, pred, v)) == v
  {
  }

  function Distance(a: int, b: int): int { if a < b then b - a else a - b }

  /**
   Amplitudes are numbered by their distance from the prediction, and of two at the same distance the one below comes
   first. With the bijection this leaves only one way of unwrapping.
   */
  lemma {:induction false} NearestFirst(range: int, pred: int, v: int, w: int)
    requires 0 <= pred < range && 0 <= v < w < range
    ensures var a, b := Unwrap(range, pred, v), Unwrap(range, pred, w);
      Distance(a, pred) < Distance(b, pred) || (Distance(a, pred) == Distance(b, pred) && a < pred < b)
  {
  }

  /** While both sides have room they alternate; after that the amplitudes run on at the roomier side. */
  lemma {:induction false} UnwrapSides(range: int, pred: int, v: int)
    requires 0 <= pred < range && 0 <= v
    ensures var y := Unwrap(range, pred, v);
      var low, high := pred, range - pred;
      var alternating := v < 2 * low && v < 2 * high;
      && (v == 0 ==> y == pred)
      && (alternating ==> Distance(y, pred) == (v + 1) / 2 && (y < pred <==> v % 2 == 1))
      && (!alternating && v > 0 ==> y == if low < high then v else range - 1 - v)
  {
  }

  // ---------------------------------------------------------------- neighbours

  /** Point positions of a floor: the ends come first, everything else lies strictly between, no two coincide. */
  predicate ValidPoints(xs: seq<nat>)
  {
    && |xs| >= 2 && xs[0] == 0 && xs[1] <= 65535
    && (forall i :: 2 <= i < |xs| ==> xs[i] < xs[1])
    && (forall i, j :: 0 <= i < j < |xs| ==> xs[i] != xs[j])
  }

  /** `low` is the position below `n` with the greatest value under `xs[n]`; `high` the one with the least above. */
  predicate AreNeighbors(xs: seq<nat>, n: nat, low: nat, high: nat)
    requires n < |xs|
  {
    && low < n && high < n && xs[low] < xs[n] < xs[high]
    && (forall i :: 0 <= i < n && xs[i] < xs[n] ==> xs[i] <= xs[low])
    && (forall i :: 0 <= i < n && xs[n] < xs[i] ==> xs[high] <= xs[i])
  }

  method Neighbors(xs: seq<nat>, n: nat) returns (plow: nat, phigh: nat)
    requires ValidPoints(xs) && 2 <= n < |xs|
    ensures AreNeighbors(xs, n, plow, phigh)
  {
    plow, phigh := 0, 0;
    var low, high := -1, 65536;
    assert forall j :: 0 <= j < |xs| ==> xs[j] <= 65535;
    for i := 0 to n
      invariant low == -1 || (plow < i && low == xs[plow] && xs[plow] < xs[n])
      invariant high == 65536 || (phigh < i && high == xs[phigh] && xs[n] < xs[phigh])
      invariant forall j :: 0 <= j < i && xs[j] < xs[n] ==> xs[j] <= low
      invariant forall j :: 0 <= j < i && xs[n] < xs[j] ==> high <= xs[j]
    {
      if low < xs[i] && xs[i] < xs[n] {
        plow, low := i, xs[i];
      }
      if xs[i] < high && xs[n] < xs[i] {
        phigh, high := i, xs[i];
      }
    }
    assert xs[0] < xs[n] < xs[1];
  }

  /** A floor configuration as the setup leaves it. */
  datatype Config = Config(xs: seq<nat>, low: seq<nat>, high: seq<nat>, multiplier: int)
  {
    predicate Valid()
    {
      && ValidPoints(xs) && |low| == |high| == |xs| && 1 <= multiplier <= 4
      && forall j :: 2 <= j < |xs| ==> AreNeighbors(xs, j, low[j], high[j])
    }

    function Range(): int
    {
      if multiplier == 1 then 256 else if multiplier == 2 then 128 else if multiplier == 3 then 86 else 64
    }

    /** The amplitude of point `j` predicted from its neighbours. */
    function Predicted(ys: seq<int>, j: nat): int
      requires Valid() && 2 <= j < |xs| && j <= |ys|
    {
      PredictPoint(xs[j], xs[low[j]], xs[high[j]], ys[low[j]], ys[high[j]])
    }
  }

  predicate InRange(ys: seq<int>, range: int)
  {
    forall j :: 0 <= j < |ys| ==> 0 <= ys[j] < range
  }

  /** The amplitudes that the first `n` decoded values stand for. */
  function Amplitudes(c: Config, vals: seq<int>, n: nat): (ys: seq<int>)
    requires c.Valid() && n <= |vals| == |c.xs|
    ensures |ys| == n
    decreases n
  {
    if n == 0 then []
    else
      var ys := Amplitudes(c, vals, n - 1);
      ys + [if n <= 2 then vals[n - 1] else Unwrap(c.Range(), c.Predicted(ys, n - 1), vals[n - 1])]
  }

  /** The values an encoder sends for given amplitudes. */
  function Values(c: Config, ys: seq<int>, n: nat): (vals: seq<int>)
    requires c.Valid() && n <= |ys| == |c.xs|
    ensures |vals| == n
    decreases n
  {
    if n == 0 then []
    else
      Values(c, ys, n - 1) +
      [if n <= 2 then ys[n - 1] else Wrap(c.Range(), c.Predicted(ys[..n - 1], n - 1), ys[n - 1])]
  }

  lemma {:induction false} PredictedInRange(c: Config, ys: seq<int>, j: nat)
    requires c.Valid() && 2 <= j < |c.xs| && j <= |ys| && InRange(ys[..j], c.Range())
    ensures 0 <= c.Predicted(ys, j) < c.Range()
  {
    hide PredictPoint;
    assert AreNeighbors(c.xs, j, c.low[j], c.high[j]);
    var l, h := c.low[j], c.high[j];
    assert ys[..j][l] == ys[l] && ys[..j][h] == ys[h];
    PredictBetween(c.xs[j], c.xs[l], c.xs[h], ys[l], ys[h]);
  }

  lemma {:induction false} AmplitudesInRange(c: Config, vals: seq<int>, n: nat)
    requires c.Valid() && n <= |vals| == |c.xs| && InRange(vals, c.Range())
    ensures InRange(Amplitudes(c, vals, n), c.Range())
    decreases n
  {
    hide PredictPoint, Unwrap, Wrap, AreNeighbors, ValidPoints, Config.Range;
    if n > 0 {
      AmplitudesInRange(c, vals, n - 1);
      var ys := Amplitudes(c, vals, n - 1);
      if n > 2 {
        assert ys[..n - 1] == ys;
        PredictedInRange(c, ys, n - 1);
        UnwrapBijective(c.Range(), c.Predicted(ys, n - 1), vals[n - 1]);
      }
    }
  }

  lemma {:induction false} AmplitudesPrefix(c: Config, vals: seq<int>, m: nat, n: nat)
    requires c.Valid() && m <= n <= |vals| == |c.xs|
    ensures Amplitudes(c, vals, n)[..m] == Amplitudes(c, vals, m)
    decreases n
  {
    hide PredictPoint, Unwrap, Wrap, AreNeighbors, ValidPoints, Config.Range;
    if m < n {
      AmplitudesPrefix(c, vals, m, n - 1);
    }
  }

  lemma {:induction false} ValuesPrefix(c: Config, ys: seq<int>, m: nat, n: nat)
    requires c.Valid() && m <= n <= |ys| == |c.xs|
    ensures Values(c, ys, n)[..m] == Values(c, ys, m)
    decreases n
  {
    hide PredictPoint, Unwrap, Wrap, AreNeighbors, ValidPoints, Config.Range;
    if m < n {
      ValuesPrefix(c, ys, m, n - 1);
    }
  }

  /** Every curve in range can be sent, and decoding what was sent gives it back. */
  lemma {:induction false} DecodeWhatWasSent(c: Config, ys: seq<int>, vals: seq<int>, n: nat)
    requires c.Valid() && n <= |ys| == |c.xs| && InRange(ys, c.Range())
    requires |vals| == |c.xs| && vals[..n] == Values(c, ys, n)
    ensures Amplitudes(c, vals, n) == ys[..n] && InRange(vals[..n], c.Range())
    decreases n
  {
    hide PredictPoint, Unwrap, Wrap, AreNeighbors, ValidPoints, Config.Range;
    if n > 0 {
      ValuesPrefix(c, ys, n - 1, n);
      assert vals[..n - 1] == vals[..n][..n - 1];
      DecodeWhatWasSent(c, ys, vals, n - 1);
      assert vals[n - 1] == vals[..n][n - 1];
      assert ys[..n] == ys[..n - 1] + [ys[n - 1]];
      if n > 2 {
        assert ys[..n - 1][..n - 1] == ys[..n - 1];
        PredictedInRange(c, ys[..n - 1], n - 1);
        UnwrapBijective(c.Range(), c.Predicted(ys[..n - 1], n - 1), ys[n - 1]);
      }
    }
  }

  /** And nothing else decodes to it: re-encoding decoded amplitudes gives the decoded values. */
  lemma {:induction false} SendWhatWasDecoded(c: Config, vals: seq<int>, ys: seq<int>, n: nat)
    requires c.Valid() && n <= |vals| == |c.xs| && InRange(vals, c.Range())
    requires |ys| == |c.xs| && ys[..n] == Amplitudes(c, vals, n)
    ensures Values(c, ys, n) == vals[..n]
    decreases n
  {
    hide PredictPoint, Unwrap, Wrap, AreNeighbors, ValidPoints, Config.Range;
    if n > 0 {
      AmplitudesPrefix(c, vals, n - 1, n);
      assert ys[..n - 1] == ys[..n][..n - 1];
      SendWhatWasDecoded(c, vals, ys, n - 1);
      assert ys[n - 1] == ys[..n][n - 1];
      assert vals[..n] == vals[..n - 1] + [vals[n - 1]];
      if n > 2 {
        AmplitudesInRange(c, vals, n - 1);
        assert ys[..n - 1][..n - 1] == ys[..n - 1];
        PredictedInRange(c, ys[..n - 1], n - 1);
        UnwrapBijective(c.Range(), c.Predicted(ys[..n - 1], n - 1), vals[n - 1]);
      }
    }
  }

  // ---------------------------------------------------------------- the unwrapping loop

  /** The value of point `k` is sent and concerns point `j`. */
  predicate Concerns(c: Config, vals: seq<int>, k: nat, j: nat)
    requires c.Valid() && k < |vals| == |c.xs|
  {
    vals[k] != 0 && (k == j || c.low[k] == j || c.high[k] == j)
  }

  /** A point is drawn when its own value or that of a point predicted from it is not zero. */
  ghost predicate Drawn(c: Config, vals: seq<int>, n: nat, j: nat)
    requires c.Valid() && n <= |vals| == |c.xs|
  {
    j < 2 || exists k :: 2 <= k < n && Concerns(c, vals, k, j)
  }

  /** The unwrapping loop: amplitudes in place, and a flag for every point that is drawn. */
  method UnwrapPoints(c: Config, finalY: array<int>, step2: array<bool>)
    requires c.Valid() && finalY.Length == step2.Length == |c.xs|
    requires forall k :: 0 <= k < step2.Length ==> step2[k] == false
    modifies finalY, step2
    ensures finalY[..] == Amplitudes(c, old(finalY[..]), |c.xs|)
    ensures forall k: nat :: k < step2.Length ==> step2[k] == Drawn(c, old(finalY[..]), |c.xs|, k)
  {
    hide PredictPoint, Unwrap, AreNeighbors, ValidPoints, Concerns;
    assert |c.xs| >= 2 by { EndsExist(c); }
    ghost var vals := finalY[..];
    var n := finalY.Length;
    step2[0], step2[1] := true, true;
    assert Amplitudes(c, vals, 2) == vals[..2] by { FirstTwo(c, vals); }
    for j := 2 to n
      invariant finalY[..] == Amplitudes(c, vals, j) + vals[j..]
      invariant forall k: nat :: k < n ==> step2[k] == Drawn(c, vals, j, k)
    {
      UnwrapOne(c, finalY, step2, j, vals);
    }
  }

  /** One round of the loop. */
  method UnwrapOne(c: Config, finalY: array<int>, step2: array<bool>, j: nat, ghost vals: seq<int>)
    requires c.Valid() && 2 <= j < finalY.Length == step2.Length == |c.xs| == |vals|
    requires finalY[..] == Amplitudes(c, vals, j) + vals[j..]
    requires forall k: nat :: k < step2.Length ==> step2[k] == Drawn(c, vals, j, k)
    modifies finalY, step2
    ensures finalY[..] == Amplitudes(c, vals, j + 1) + vals[j + 1..]
    ensures forall k: nat :: k < step2.Length ==> step2[k] == Drawn(c, vals, j + 1, k)
  {
    hide PredictPoint, Unwrap, AreNeighbors, ValidPoints, Drawn, Config.Range;
    NeighborsBelow(c, j);
    ghost var ys := Amplitudes(c, vals, j);
    var low, high := c.low[j], c.high[j];
    assert finalY[low] == ys[low] && finalY[high] == ys[high];
    var pred := PredictPoint(c.xs[j], c.xs[low], c.xs[high], finalY[low], finalY[high]);
    assert Amplitudes(c, vals, j + 1) == ys + [Unwrap(c.Range(), pred, vals[j])];
    hide Amplitudes;
    var val := finalY[j];
    assert val == finalY[..][j] == vals[j];
    ConcernsWhom(c, vals, j);
    finalY[j] := Unwrap(c.Range(), pred, val);
    if val != 0 {
      step2[low], step2[high] := true, true;
      step2[j] := true;
    }
    forall k: nat | k < step2.Length
      ensures step2[k] == Drawn(c, vals, j + 1, k)
    {
      assert Drawn(c, vals, j + 1, k) <==> Drawn(c, vals, j, k) || Concerns(c, vals, j, k);
      assert step2[k] == (old(step2[k]) || Concerns(c, vals, j, k));
    }
  }

  lemma {:induction false} FirstTwo(c: Config, vals: seq<int>)
    requires c.Valid() && |vals| == |c.xs|
    ensures Amplitudes(c, vals, 2) == vals[..2]
  {
    assert Amplitudes(c, vals, 1) == Amplitudes(c, vals, 0) + [vals[0]];
  }

  lemma {:induction false} ConcernsWhom(c: Config, vals: seq<int>, j: nat)
    requires c.Valid() && 2 <= j < |vals| == |c.xs|
    ensures forall k: nat :: k < |c.xs| ==>
      (Drawn(c, vals, j + 1, k) <==>
        Drawn(c, vals, j, k) || Concerns(c, vals, j, k))
  {
  }

  /** Turns decoded values into amplitudes in place; points that are not drawn become -1. */
  method UnwrapFloor(c: Config, finalY: array<int>)
    requires c.Valid() && finalY.Length == |c.xs|
    modifies finalY
    ensures forall j :: 0 <= j < finalY.Length ==>
      finalY[j] == if Drawn(c, old(finalY[..]), |c.xs|, j) then Amplitudes(c, old(finalY[..]), |c.xs|)[j] else -1
  {
    hide Amplitudes, Drawn, ValidPoints, AreNeighbors;
    var step2 := new bool[finalY.Length](i => false);
    UnwrapPoints(c, finalY, step2);
    ghost var amp := finalY[..];
    for j := 0 to finalY.Length
      modifies finalY
      invariant forall k :: 0 <= k < finalY.Length ==> finalY[k] == if k < j && !step2[k] then -1 else amp[k]
    {
      if !step2[j] {
        finalY[j] := -1;
      }
    }
  }

  lemma {:induction false} EndsExist(c: Config)
    requires c.Valid()
    ensures |c.xs| >= 2
  {
  }

  lemma {:induction false} NeighborsBelow(c: Config, j: nat)
    requires c.Valid() && 2 <= j < |c.xs|
    ensures c.low[j] < j && c.high[j] < j && c.xs[c.low[j]] < c.xs[j] < c.xs[c.high[j]]
  {
    assert AreNeighbors(c.xs, j, c.low[j], c.high[j]);
  }

  // ---------------------------------------------------------------- the curve

  /** The point order the setup computed: positions by increasing x. */
  predicate ValidOrder(c: Config, order: seq<nat>)
  {
    && |order| == |c.xs| > 0 && order[0] == 0
    && (forall q :: 0 <= q < |order| ==> order[q] < |c.xs|)
    && (forall p, q :: 0 <= p < q < |order| ==> c.xs[order[p]] < c.xs[order[q]])
  }

  /** The corners of the curve among the first `q` points of the order. */
  function Corners(c: Config, order: seq<nat>, ys: seq<int>, q: nat): (p: seq<(nat, int)>)
    requires ValidOrder(c, order) && |ys| == |c.xs| && 1 <= q <= |order|
    ensures |p| >= 1
    decreases q
  {
    if q == 1 then [(0, ys[0] * c.multiplier)]
    else
      var j := order[q - 1];
      Corners(c, order, ys, q - 1) + if ys[j] >= 0 then [(c.xs[j], ys[j] * c.multiplier)] else []
  }

  lemma {:induction false} CornersAscend(c: Config, order: seq<nat>, ys: seq<int>, q: nat)
    requires ValidOrder(c, order) && |ys| == |c.xs| && 1 <= q <= |order| && c.xs[0] == 0
    ensures var p := Corners(c, order, ys, q);
      && (forall i, j :: 0 <= i < j < |p| ==> p[i].0 < p[j].0)
      && (forall i :: 0 <= i < |p| ==> p[i].0 <= c.xs[order[q - 1]])
      && p[0] == (0, ys[0] * c.multiplier)
    decreases q
  {
    if q > 1 {
      CornersAscend(c, order, ys, q - 1);
      assert c.xs[order[q - 2]] < c.xs[order[q - 1]];
    }
  }

  /** Every drawn position below `upto` carries the table index of the segment it lies on. */
  ghost predicate Follows(curve: seq<int>, p: seq<(nat, int)>, upto: nat)
  {
    forall i, x :: 0 <= i < |p| - 1 && p[i].0 <= x < p[i + 1].0 && x < upto && x < |curve| ==>
      curve[x] == PredictPoint(x, p[i].0, p[i + 1].0, p[i].1, p[i + 1].1) % 256
  }

  /** Renders the floor: straight lines between consecutive corners, and the last amplitude to the end. */
  method DoFloor(c: Config, order: seq<nat>, ys: seq<int>, curve: array<int>)
    requires c.Valid() && ValidOrder(c, order) && |ys| == |c.xs|
    modifies curve
    ensures var p := Corners(c, order, ys, |order|);
      && Follows(curve[..], p, curve.Length)
      && forall x :: p[|p| - 1].0 <= x < curve.Length ==> curve[x] == p[|p| - 1].1
  {
    hide PredictPoint, AreNeighbors, Corners;
    assert c.xs[0] == 0;
    var n2 := curve.Length;
    var lx, ly := 0, ys[0] * c.multiplier;
    FirstCorner(c, order, ys);
    for q := 1 to |order|
      invariant var p := Corners(c, order, ys, q); (lx, ly) == p[|p| - 1] && Follows(curve[..], p, n2)
    {
      CornersAscend(c, order, ys, q);
      CornersAscend(c, order, ys, q + 1);
      NextCorner(c, order, ys, q);
      ghost var p := Corners(c, order, ys, q);
      var j := order[q];
      if ys[j] >= 0 {
        var hy := ys[j] * c.multiplier;
        var hx := c.xs[j];
        ghost var before := curve[..];
        if lx != hx {
          DrawLine(curve, lx, ly, hx, hy, n2);
        }
        OneMoreSegment(before, curve[..], p, (hx, hy), n2);
        lx, ly := hx, hy;
      }
    }
    CornersAscend(c, order, ys, |order|);
    FillRest(curve, lx, ly, Corners(c, order, ys, |order|));
  }

  /** The last amplitude goes on to the end of the curve. */
  method FillRest(curve: array<int>, lx: nat, ly: int, ghost p: seq<(nat, int)>)
    requires p != [] && (forall i, j :: 0 <= i < j < |p| ==> p[i].0 < p[j].0) && (lx, ly) == p[|p| - 1]
    requires Follows(curve[..], p, curve.Length)
    modifies curve
    ensures Follows(curve[..], p, curve.Length) && forall x :: lx <= x < curve.Length ==> curve[x] == ly
  {
    hide PredictPoint, Follows;
    var n2 := curve.Length;
    if lx < n2 {
      for x := lx to n2
        invariant Follows(curve[..], p, n2)
        invariant forall k :: lx <= k < x ==> curve[k] == ly
      {
        ghost var before := curve[..];
        curve[x] := ly;
        FlatEnd(before, curve[..], p, n2, x);
      }
    }
  }

  lemma {:induction false} FirstCorner(c: Config, order: seq<nat>, ys: seq<int>)
    requires ValidOrder(c, order) && |ys| == |c.xs|
    ensures Corners(c, order, ys, 1) == [(0, ys[0] * c.multiplier)]
  {
  }

  lemma {:induction false} NextCorner(c: Config, order: seq<nat>, ys: seq<int>, q: nat)
    requires ValidOrder(c, order) && |ys| == |c.xs| && 1 <= q < |order|
    ensures Corners(c, order, ys, q + 1) == Corners(c, order, ys, q)
      + if ys[order[q]] >= 0 then [(c.xs[order[q]], ys[order[q]] * c.multiplier)] else []
  {
  }

  lemma {:induction false} OneMoreSegment(before: seq<int>, after: seq<int>, p: seq<(nat, int)>, h: (nat, int), n2: nat)
    requires |p| >= 1 && |before| == |after| == n2 && Follows(before, p, n2)
    requires forall i, j :: 0 <= i < j < |p| ==> p[i].0 < p[j].0
    requires p[|p| - 1].0 < h.0
    requires var l := p[|p| - 1];
      && (forall x :: l.0 <= x < h.0 && x < n2 ==> after[x] == PredictPoint(x, l.0, h.0, l.1, h.1) % 256)
      && (forall x :: 0 <= x < n2 && !(l.0 <= x < h.0) ==> after[x] == before[x])
    ensures Follows(after, p + [h], n2)
  {
    hide PredictPoint;
    var p' := p + [h];
    forall i, x | 0 <= i < |p'| - 1 && p'[i].0 <= x < p'[i + 1].0 && x < n2
      ensures after[x] == PredictPoint(x, p'[i].0, p'[i + 1].0, p'[i].1, p'[i + 1].1) % 256
    {
      if i < |p| - 1 {
        assert p[i + 1].0 <= p[|p| - 1].0;
      }
    }
  }

  lemma {:induction false} FlatEnd(before: seq<int>, after: seq<int>, p: seq<(nat, int)>, n2: nat, at: nat)
    requires |p| >= 1 && |before| == |after| == n2 && at < n2 && Follows(before, p, n2)
    requires forall i, j :: 0 <= i < j < |p| ==> p[i].0 < p[j].0
    requires p[|p| - 1].0 <= at && forall x :: 0 <= x < n2 && x != at ==> after[x] == before[x]
    ensures Follows(after, p, n2)
  {
    hide PredictPoint;
    forall i, x | 0 <= i < |p| - 1 && p[i].0 <= x < p[i + 1].0 && x < n2
      ensures after[x] == PredictPoint(x, p[i].0, p[i + 1].0, p[i].1, p[i + 1].1) % 256
    {
      assert i + 1 == |p| - 1 || p[i + 1].0 < p[|p| - 1].0;
    }
  }

  /** The range is the greatest number of amplitudes that the multiplier can scale into the 256-entry table. */
  lemma {:induction false} RangeIsGreatest(c: Config)
    requires c.Valid()
    ensures (c.Range() - 1) * c.multiplier <= 255 < c.Range() * c.multiplier
  {
  }

  /** An amplitude in range scales to an index of the 256-entry table, and so does everything on a line between two. */
  lemma {:induction false} CurveIndexInTable(c: Config, a: int, b: int, x: int, x0: int, x1: int)
    requires c.Valid() && 0 <= a < c.Range() && 0 <= b < c.Range() && x0 <= x <= x1 && x0 < x1
    ensures 0 <= a * c.multiplier <= 255
    ensures var y := PredictPoint(x, x0, x1, a * c.multiplier, b * c.multiplier); 0 <= y <= 255 && y % 256 == y
  {
    hide PredictPoint;
    PredictBetween(x, x0, x1, a * c.multiplier, b * c.multiplier);
  }
}
