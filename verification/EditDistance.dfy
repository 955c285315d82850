/** String similarity: the two-column edit distance, and that it is the least cost of any edit script. */
module EditDistance {
  import opened Options

  // ---------------------------------------------------------------- edit scripts

  datatype Edit = Keep(c: char) | Change(a: char, b: char) | Delete(a: char) | Insert(b: char)

  /** What a script reads. */
  function Source(es: seq<Edit>): string
  {
    if es == [] then ""
    else
      var (init, e) := (es[..|es| - 1], es[|es| - 1]);
      Source(init) + (if e.Keep? then [e.c] else if e.Insert? then "" else [e.a])
  }

  /** What a script writes. */
  function Target(es: seq<Edit>): string
  {
    if es == [] then ""
    else
      var (init, e) := (es[..|es| - 1], es[|es| - 1]);
      Target(init) + (if e.Keep? then [e.c] else if e.Delete? then "" else [e.b])
  }

  function Cost(es: seq<Edit>): nat
  {
    if es == [] then 0 else Cost(es[..|es| - 1]) + if es[|es| - 1].Keep? then 0 else 1
  }

  // ---------------------------------------------------------------- the distance

  function Min(a: int, b: int): int
  {
    if a < b then a else b
  }

  function Front(s: string): string
    requires s != ""
  {
    s[..|s| - 1]
  }

  function Last(s: string): char
    requires s != ""
  {
    s[|s| - 1]
  }

  function Differs(a: char, b: char): nat
  {
    if a == b then 0 else 1
  }

  /** One cell of the table from its three neighbours. */
  function Distance(s: string, t: string): (d: nat)
    decreases |s| + |t|
  {
    if s == "" then |t|
    else if t == "" then |s|
    else Min(Min(1 + Distance(s, Front(t)), 1 + Distance(Front(s), t)),
             Distance(Front(s), Front(t)) + Differs(Last(s), Last(t)))
  }

  /** Each neighbour bounds the cell. */
  lemma {:induction false} Neighbours(s: string, t: string)
    ensures t != "" ==> Distance(s, t) <= 1 + Distance(s, Front(t))
    ensures s != "" ==> Distance(s, t) <= 1 + Distance(Front(s), t)
    ensures s != "" && t != "" ==> Distance(s, t) <= Distance(Front(s), Front(t)) + Differs(Last(s), Last(t))
  {
  }

  lemma {:induction false} FrontOfOne(s: string, c: char)
    ensures s + [c] != "" && Front(s + [c]) == s && Last(s + [c]) == c
  {
  }

  /** No script is cheaper. */
  lemma {:induction false} DistanceIsLeast(es: seq<Edit>)
    ensures Distance(Source(es), Target(es)) <= Cost(es)
    decreases |es|
  {
    hide Distance, Front, Last;
    if es == [] {
      BothEmpty();
    } else {
      var init, e := es[..|es| - 1], es[|es| - 1];
      DistanceIsLeast(init);
      var s, t := Source(init), Target(init);
      if e.Keep? {
        FrontOfOne(s, e.c);
        FrontOfOne(t, e.c);
        Neighbours(s + [e.c], t + [e.c]);
      } else if e.Change? {
        FrontOfOne(s, e.a);
        FrontOfOne(t, e.b);
        Neighbours(s + [e.a], t + [e.b]);
      } else if e.Delete? {
        FrontOfOne(s, e.a);
        assert t + "" == t;
        Neighbours(s + [e.a], t);
      } else {
        FrontOfOne(t, e.b);
        assert s + "" == s;
        Neighbours(s, t + [e.b]);
      }
    }
  }

  lemma {:induction false} BothEmpty()
    ensures Distance("", "") == 0
  {
  }

  /** A script that costs exactly the distance. */
  function Best(s: string, t: string): seq<Edit>
    decreases |s| + |t|
  {
    if s == "" && t == "" then []
    else if s == "" then Best(s, Front(t)) + [Insert(Last(t))]
    else if t == "" then Best(Front(s), t) + [Delete(Last(s))]
    else if Distance(s, t) == 1 + Distance(s, Front(t)) then Best(s, Front(t)) + [Insert(Last(t))]
    else if Distance(s, t) == 1 + Distance(Front(s), t) then Best(Front(s), t) + [Delete(Last(s))]
    else Best(Front(s), Front(t)) + [if Last(s) == Last(t) then Keep(Last(s)) else Change(Last(s), Last(t))]
  }

  lemma {:induction false} ScriptMore(es: seq<Edit>, e: Edit)
    ensures Source(es + [e]) == Source(es) + (if e.Keep? then [e.c] else if e.Insert? then "" else [e.a])
    ensures Target(es + [e]) == Target(es) + (if e.Keep? then [e.c] else if e.Delete? then "" else [e.b])
    ensures Cost(es + [e]) == Cost(es) + if e.Keep? then 0 else 1
  {
    assert (es + [e])[..|es|] == es;
  }

  lemma {:induction false} Whole(s: string)
    requires s != ""
    ensures Front(s) + [Last(s)] == s
  {
  }

  /** The distance is reached. */
  lemma {:induction false} BestReaches(s: string, t: string)
    ensures Source(Best(s, t)) == s && Target(Best(s, t)) == t && Cost(Best(s, t)) == Distance(s, t)
    decreases |s| + |t|
  {
    hide Source, Target, Cost, Front, Last, Distance;
    if s != "" { Whole(s); }
    if t != "" { Whole(t); }
    DistanceCell(s, t);
    if s == "" && t == "" {
      NoScript();
    } else if s == "" || (t != "" && Distance(s, t) == 1 + Distance(s, Front(t))) {
      BestReaches(s, Front(t));
      ScriptMore(Best(s, Front(t)), Insert(Last(t)));
      assert s + "" == s;
    } else if t == "" || Distance(s, t) == 1 + Distance(Front(s), t) {
      BestReaches(Front(s), t);
      ScriptMore(Best(Front(s), t), Delete(Last(s)));
      assert t + "" == t;
    } else {
      BestReaches(Front(s), Front(t));
      ScriptMore(Best(Front(s), Front(t)), if Last(s) == Last(t) then Keep(Last(s)) else Change(Last(s), Last(t)));
    }
  }

  lemma {:induction false} NoScript()
    ensures Source([]) == "" && Target([]) == "" && Cost([]) == 0
  {
  }

  lemma {:induction false} DistanceCell(s: string, t: string)
    ensures s == "" && t == "" ==> Distance(s, t) == 0
    ensures s == "" && t != "" ==> Distance(s, t) == 1 + Distance(s, Front(t)) && |Front(t)| < |t|
    ensures s != "" && t == "" ==> Distance(s, t) == 1 + Distance(Front(s), t) && |Front(s)| < |s|
    ensures s != "" && t != "" ==> |Front(s)| < |s| && |Front(t)| < |t|
    ensures s != "" && t != "" ==> Distance(s, t) == FromNeighbours(s, t)
  {
    if s != "" && t != "" {
    } else if s != "" || t != "" {
      hide Distance;
      var other := if s == "" then Front(t) else Front(s);
      EmptySides(s, t, t);
      if s == "" { EmptySides(s, other, other); } else { EmptySides(other, t, t); }
    } else {
      BothEmpty();
    }
  }

  /** What the three neighbours give. */
  function FromNeighbours(s: string, t: string): int
    requires s != "" && t != ""
  {
    Min(Min(1 + Distance(s, Front(t)), 1 + Distance(Front(s), t)),
        Distance(Front(s), Front(t)) + Differs(Last(s), Last(t)))
  }

  // ---------------------------------------------------------------- a metric

  lemma {:induction false} DistanceZero(s: string, t: string)
    ensures Distance(s, t) == 0 <==> s == t
    decreases |s| + |t|
  {
    hide Distance, Front, Last;
    DistanceCell(s, t);
    if s != "" { Whole(s); }
    if t != "" { Whole(t); }
    if s != "" && t != "" {
      DistanceZero(Front(s), Front(t));
    }
  }

  lemma {:induction false} Symmetric(s: string, t: string)
    ensures Distance(s, t) == Distance(t, s)
    decreases |s| + |t|
  {
    hide Distance, Front, Last;
    DistanceCell(s, t);
    DistanceCell(t, s);
    if s != "" { Symmetric(Front(s), t); }
    if t != "" { Symmetric(s, Front(t)); }
    if s != "" && t != "" { Symmetric(Front(s), Front(t)); }
  }

  /** The lengths bound the distance from both sides. */
  lemma {:induction false} LengthBounds(s: string, t: string)
    ensures |s| <= |t| + Distance(s, t) && |t| <= |s| + Distance(s, t)
    ensures Distance(s, t) <= if |s| < |t| then |t| else |s|
    decreases |s| + |t|
  {
    hide Distance, Last;
    DistanceCell(s, t);
    if s != "" { LengthBounds(Front(s), t); }
    if t != "" { LengthBounds(s, Front(t)); }
    if s != "" && t != "" { LengthBounds(Front(s), Front(t)); }
  }

  lemma {:induction false} Triangle(s: string, t: string, u: string)
    ensures Distance(s, u) <= Distance(s, t) + Distance(t, u)
    decreases |s| + |t| + |u|
  {
    hide Distance, Last, Front;
    DistanceCell(s, t);
    DistanceCell(t, u);
    if s == "" || t == "" || u == "" {
      LengthBounds(s, t);
      LengthBounds(t, u);
      LengthBounds(s, u);
      SumBound(s, u);
      EmptySides(s, t, u);
    } else {
      Neighbours(s, u);
      if Distance(s, t) == 1 + Distance(Front(s), t) {
        Triangle(Front(s), t, u);
      } else if Distance(t, u) == 1 + Distance(t, Front(u)) {
        Triangle(s, t, Front(u));
      } else if Distance(s, t) == 1 + Distance(s, Front(t)) {
        Triangle(s, Front(t), if Distance(t, u) == 1 + Distance(Front(t), u) then u else Front(u));
      } else {
        Triangle(Front(s), Front(t), if Distance(t, u) == 1 + Distance(Front(t), u) then u else Front(u));
      }
    }
  }

  lemma {:induction false} SumBound(s: string, t: string)
    ensures Distance(s, t) <= |s| + |t|
  {
    hide Distance;
    LengthBounds(s, t);
  }

  lemma {:induction false} EmptySides(s: string, t: string, u: string)
    ensures s == "" ==> Distance(s, t) == |t| && Distance(s, u) == |u|
    ensures t == "" ==> Distance(s, t) == |s| && Distance(t, u) == |u|
    ensures u == "" ==> Distance(s, u) == |s| && Distance(t, u) == |t|
  {
  }

  // ---------------------------------------------------------------- the program

  lemma {:induction false} Cell(s: string, t: string, i: nat, j: nat)
    requires 0 < j <= |t| && i <= |s|
    ensures Distance(s[..i], t[..j]) ==
      if i == 0 then j
      else Min(Min(1 + Distance(s[..i], t[..j - 1]), 1 + Distance(s[..i - 1], t[..j])),
               Distance(s[..i - 1], t[..j - 1]) + Differs(s[i - 1], t[j - 1]))
  {
    hide Distance;
    DistanceCell(s[..i], t[..j]);
    EmptySides(s[..i], t[..j], t[..j]);
    if i > 0 {
      assert Front(s[..i]) == s[..i - 1] && Last(s[..i]) == s[i - 1];
      assert Front(t[..j]) == t[..j - 1] && Last(t[..j]) == t[j - 1];
    }
  }

  /** The column of the first `i` characters; the column before the first round is that of the empty prefix as well. */
  ghost predicate Column(s: string, t: string, i: nat, col: seq<int>)
    requires i <= |s|
  {
    |col| == |t| + 1 && forall j: nat :: j <= |t| ==> col[j] == Distance(s[..i], t[..j])
  }

  /** One column from the one before it; in the first round from itself. */
  method FillColumn(s: string, t: string, i: nat, col: array<int>, prevCol: array<int>)
    requires i <= |s| && col.Length == prevCol.Length == |t| + 1 && col != prevCol
    requires Column(s, t, if i == 0 then 0 else i - 1, prevCol[..])
    modifies col
    ensures Column(s, t, i, col[..])
  {
    hide Distance;
    col[0] := i;
    EmptySides(s[..i], t[..0], t[..0]);
    ghost var p := if i == 0 then 0 else i - 1;
    assert forall j: nat :: j <= |t| ==> prevCol[j] == prevCol[..][j];
    for j := 1 to |t| + 1
      invariant forall k: nat :: k < j ==> col[k] == Distance(s[..i], t[..k])
      invariant forall k: nat :: k <= |t| ==> prevCol[k] == Distance(s[..p], t[..k])
      modifies col
    {
      Cell(s, t, i, j);
      EmptySides(s[..0], t[..j], t[..j - 1]);
      assert col[j - 1] == Distance(s[..i], t[..j - 1]) && prevCol[j] == Distance(s[..p], t[..j])
        && prevCol[j - 1] == Distance(s[..p], t[..j - 1]);
      col[j] := Min(Min(1 + col[j - 1], 1 + prevCol[j]),
                    prevCol[j - 1] + if i > 0 && s[i - 1] == t[j - 1] then 0 else 1);
    }
  }

  /** The distance by two columns that change roles. */
  method TwoColumns(s: string, t: string) returns (dist: int)
    ensures dist == Distance(s, t)
  {
    hide Distance;
    var col := new int[|t| + 1](i => 0);
    var prevCol := new int[|t| + 1](i => i);
    forall j: nat | j <= |t|
      ensures j == Distance(s[..0], t[..j])
    {
      EmptySides(s[..0], t[..j], t[..j]);
    }
    for i := 0 to |s| + 1
      invariant fresh(col) && fresh(prevCol) && col != prevCol && col.Length == prevCol.Length == |t| + 1
      invariant Column(s, t, if i == 0 then 0 else i - 1, prevCol[..])
    {
      FillColumn(s, t, i, col, prevCol);
      col, prevCol := prevCol, col;
    }
    assert s[..|s|] == s && t[..|t|] == t;
    dist := prevCol[|t|];
    assert dist == prevCol[..][|t|];
  }

  /**
   One minus the distance over the greater length; two empty strings have no similarity, since the quotient is none.
   */
  method Similarity(s0: string, s1: string) returns (r: Option<real>)
    ensures r == None <==> s0 == "" && s1 == ""
    ensures r.Some? ==> 0.0 <= r.value <= 1.0 && (r.value == 1.0 <==> s0 == s1)
    ensures r.Some? ==> (1.0 - r.value) * (if |s0| < |s1| then |s1| else |s0|) as real == Distance(s0, s1) as real
  {
    hide Distance;
    var dist := TwoColumns(s0, s1);
    var longest := if |s0| < |s1| then |s1| else |s0|;
    if longest == 0 { return None; }
    LengthBounds(s0, s1);
    DistanceZero(s0, s1);
    Quotient(dist, longest);
    r := Some(1.0 - dist as real / longest as real);
  }

  lemma {:induction false} Quotient(d: int, n: int)
    requires 0 <= d <= n && n > 0
    ensures 0.0 <= d as real / n as real <= 1.0 && (d as real / n as real) * n as real == d as real
    ensures d as real / n as real == 0.0 <==> d == 0
  {
    var q := d as real / n as real;
    assert q * n as real == d as real;
  }
}
