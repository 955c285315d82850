/** Whatever text the reader takes for a list of rules is one of the ways of writing them. */
module EbnfWriting {
  import opened CStrings
  import opened Options
  import opened EbnfSyntax
  import opened EbnfNotation
  import opened HexDigits
  import opened EbnfReading

  lemma {:induction false} Joined(s: string, p: nat, a: string, b: string)
    requires Stands(s, p, a) && Stands(s, p + |a|, b)
    ensures Stands(s, p, a + b)
  {
  }

  lemma {:induction false} OneChar(s: string, p: nat)
    requires p < |s|
    ensures Stands(s, p, [s[p]])
  {
  }

  // ---------------------------------------------------------------- characters

  lemma {:induction false} DigitRead(c: char) returns (d: Digit)
    requires HexDigit(c).Some?
    ensures d.Text() == c && HexDigit(c) == Some(d.value)
  {
    d := Digit(HexDigit(c).value, 'A' <= c <= 'F');
    if 'a' <= c <= 'f' {
      assert c in {'a', 'b', 'c', 'd', 'e', 'f'};
    } else if 'A' <= c <= 'F' {
      assert c in {'A', 'B', 'C', 'D', 'E', 'F'};
    } else {
      assert c in {'0', '1', '2', '3', '4', '5', '6', '7', '8', '9'};
    }
  }

  lemma {:induction false} MoreDigits(ds: seq<Digit>, d: Digit)
    ensures DigitsText(ds + [d]) == DigitsText(ds) + [d.Text()] && HexNumber(ds + [d]) == 16 * HexNumber(ds) + d.value
  {
    assert (ds + [d])[..|ds|] == ds;
  }

  /** The digits before `p` and those that are read from there on. */
  lemma {:induction false} HexRead(s: string, p: nat, size: nat, before: seq<Digit>) returns (ds: seq<Digit>)
    requires |before| <= p <= |s| && Stands(s, p - |before|, DigitsText(before))
    requires ParseHex(s, p, size, HexNumber(before)).Some?
    ensures |ds| == |before| + size && p + size <= |s| && Stands(s, p - |before|, DigitsText(ds))
    ensures ParseHex(s, p, size, HexNumber(before)) == Some((HexNumber(ds), p + size))
    decreases size
  {
    hide HexDigit, Stands, DigitsText, HexNumber;
    if size == 0 {
      ds := before;
    } else {
      var d := DigitRead(At(s, p));
      MoreDigits(before, d);
      OneChar(s, p);
      Joined(s, p - |before|, DigitsText(before), [s[p]]);
      ds := HexRead(s, p + 1, size - 1, before + [d]);
    }
  }

  lemma {:induction false} GlyphRead(s: string, p: nat, closing: char) returns (g: Glyph)
    requires p <= |s| && ParseChar(s, p).Some? && At(s, p) != closing
    ensures GlyphOk(g, closing) && Stands(s, p, GlyphText(g))
    ensures ParseChar(s, p) == Some((GlyphValue(g), p + |GlyphText(g)|)) && GlyphText(g) != ""
    ensures At(s, p) == '-' ==> GlyphText(g) == "-"
  {
    hide ParseHex, HexNumber, HexDigit;
    if At(s, p) == '\\' {
      var c := At(s, p + 1);
      assert s[p..p + 2] == "\\" + [c];
      if c == 'x' || c == 'u' || c == 'U' {
        var size := if c == 'x' then 2 else if c == 'u' then 4 else 8;
        NoNumber();
        var ds := HexRead(s, p + 2, size, []);
        g := Hex(ds);
        Joined(s, p, s[p..p + 2], DigitsText(ds));
      } else {
        g := Escape(if c == 'n' then Newline else if c == 'r' then Return else if c == 't' then Tab
          else if c == '\\' then Backslash else if c == '"' then Quote else if c == '[' then Open else Close);
      }
    } else {
      g := Plain(s[p]);
    }
  }

  lemma {:induction false} LitRead(s: string, p: nat) returns (gs: seq<Glyph>)
    requires p <= |s| && ReadLit(s, p).Some?
    ensures GlyphsOk(gs) && Stands(s, p, GlyphsText(gs) + "\"")
    ensures ReadLit(s, p) == Some((GlyphValues(gs), p + |GlyphsText(gs)|))
    decreases |s| - p
  {
    hide ParseChar, GlyphOk, GlyphText, GlyphValue, Stands;
    if At(s, p) == '"' {
      gs := [];
      OneChar(s, p);
      assert GlyphsText(gs) + "\"" == [s[p]];
    } else {
      var g := GlyphRead(s, p, '"');
      var q := p + |GlyphText(g)|;
      var more := LitRead(s, q);
      gs := [g] + more;
      assert gs[1..] == more;
      Joined(s, p, GlyphText(g), GlyphsText(more) + "\"");
      assert GlyphText(g) + (GlyphsText(more) + "\"") == GlyphsText(gs) + "\"";
    }
  }

  lemma {:induction false} RangeRead(s: string, p: nat) returns (r: WRange)
    requires p <= |s| && ReadRange(s, p).Some? && At(s, p) != ']'
    ensures RangeOk(r) && Stands(s, p, RangeText(r)) && RangeText(r) != ""
    ensures ReadRange(s, p) == Some((RangeTree(r), p + |RangeText(r)|))
    ensures var e := p + |RangeText(r)|; r.Lone? ==> At(s, e) != '-' || At(s, e + 1) == ']'
    ensures At(s, p) == '-' && At(s, p + 1) == ']' ==> RangeText(r) == "-"
  {
    hide ParseChar, GlyphOk, GlyphText, GlyphValue, Stands;
    var lo := GlyphRead(s, p, ']');
    var q := p + |GlyphText(lo)|;
    if At(s, q) == '-' && At(s, q + 1) != ']' {
      var hi := GlyphRead(s, q + 1, ']');
      r := Dash(lo, hi);
      OneChar(s, q);
      Joined(s, q, "-", GlyphText(hi));
      Joined(s, p, GlyphText(lo), "-" + GlyphText(hi));
      assert GlyphText(lo) + ("-" + GlyphText(hi)) == RangeText(r);
    } else {
      r := Lone(lo);
    }
  }

  lemma {:induction false} RangesRead(s: string, p: nat) returns (rs: seq<WRange>)
    requires p <= |s| && ReadRanges(s, p).Some?
    ensures RangesOk(rs) && Stands(s, p, RangesText(rs) + "]")
    ensures ReadRanges(s, p) == Some((RangesTree(rs), p + |RangesText(rs)|))
    ensures At(s, p) == '-' && At(s, p + 1) == ']' ==> RangesText(rs) == "-"
    ensures At(s, p) == ']' ==> rs == []
    decreases |s| - p
  {
    hide ReadRange, RangeOk, RangeText, RangeTree, Stands;
    if At(s, p) == ']' {
      rs := [];
      OneChar(s, p);
      assert RangesText(rs) + "]" == [s[p]];
    } else {
      var r := RangeRead(s, p);
      var q := p + |RangeText(r)|;
      var more := RangesRead(s, q);
      rs := [r] + more;
      assert rs[1..] == more;
      FirstAt(s, q, RangesText(more) + "]");
      Joined(s, p, RangeText(r), RangesText(more) + "]");
      assert RangeText(r) + (RangesText(more) + "]") == RangesText(rs) + "]";
    }
  }

  // ---------------------------------------------------------------- blanks and names

  lemma {:induction false} CommentRead(s: string, p: nat)
    requires p <= |s|
    ensures LineStop(At(s, LineEnd(s, p))) && forall i :: p <= i < LineEnd(s, p) ==> !LineStop(s[i])
    decreases |s| - p
  {
    if p < |s| && !LineStop(s[p]) { CommentRead(s, p + 1); }
  }

  lemma {:induction false} GapMore(s: string, p: nat, piece: Piece, more: Gap, newlines: bool)
    requires Stands(s, p, PieceText(piece)) && Stands(s, p + |PieceText(piece)|, GapText(more))
    requires var e := p + |PieceText(piece)|; GapOk(more, newlines, At(s, e + |GapText(more)|))
    requires piece.Blank? ==> BlankChar(piece.c, newlines)
    requires piece.Comment? ==> LineStop(At(s, p + |PieceText(piece)|))
    requires piece.Comment? ==> forall i :: 0 <= i < |piece.body| ==> !LineStop(piece.body[i])
    ensures var gap := [piece] + more;
      && GapText(gap) == PieceText(piece) + GapText(more) && Stands(s, p, GapText(gap))
      && GapOk(gap, newlines, At(s, p + |GapText(gap)|))
  {
    hide Stands, LineStop, BlankChar, PieceText;
    var gap := [piece] + more;
    assert gap[1..] == more;
    Joined(s, p, PieceText(piece), GapText(more));
    FirstAt(s, p + |PieceText(piece)|, GapText(more));
  }

  lemma {:induction false} BlankInText(s: string, p: nat, newlines: bool)
    requires p <= |s|
    ensures BlankChar(At(s, p), newlines) || At(s, p) == '#' ==> p < |s| && At(s, p) == s[p]
  {
  }

  /** One blank or one comment. */
  lemma {:induction false} PieceRead(s: string, p: nat, newlines: bool) returns (piece: Piece)
    requires p <= |s| && (BlankChar(At(s, p), newlines) || At(s, p) == '#')
    ensures Stands(s, p, PieceText(piece)) && p < p + |PieceText(piece)| <= |s|
    ensures piece.Blank? ==> BlankChar(piece.c, newlines)
    ensures piece.Comment? ==> LineStop(At(s, p + |PieceText(piece)|))
    ensures piece.Comment? ==> forall i :: 0 <= i < |piece.body| ==> !LineStop(piece.body[i])
    ensures Space(s, p, newlines) == Space(s, p + |PieceText(piece)|, newlines)
  {
    hide LineEnd, Space, LineStop, BlankChar;
    SpaceStep(s, p, newlines);
    BlankInText(s, p, newlines);
    if At(s, p) == '#' {
      var e := LineEnd(s, p);
      CommentRead(s, p);
      piece := Comment(s[p + 1..e]);
      assert s[p..e] == "#" + s[p + 1..e];
    } else {
      piece := Blank(s[p]);
    }
  }

  lemma {:induction false} GapRead(s: string, p: nat, newlines: bool) returns (gap: Gap)
    requires p <= |s|
    ensures Stands(s, p, GapText(gap)) && Space(s, p, newlines) == p + |GapText(gap)|
    ensures GapOk(gap, newlines, At(s, p + |GapText(gap)|))
    decreases |s| - p
  {
    hide LineEnd, Space, GapOk, GapText, LineStop, BlankChar, At, Stands, PieceText;
    SpaceStep(s, p, newlines);
    if BlankChar(At(s, p), newlines) || At(s, p) == '#' {
      var piece := PieceRead(s, p, newlines);
      var more := GapRead(s, p + |PieceText(piece)|, newlines);
      GapMore(s, p, piece, more, newlines);
      gap := [piece] + more;
    } else {
      gap := [];
      NoGap(newlines, At(s, p));
      Nothing(s, p);
    }
  }

  lemma {:induction false} Nothing(s: string, p: nat)
    requires p <= |s|
    ensures Stands(s, p, "")
  {
  }

  lemma {:induction false} NameRead(s: string, p: nat)
    requires p <= |s| && NameEnd(s, p) != p
    ensures var e := NameEnd(s, p); NameOk(s[p..e]) && Stands(s, p, s[p..e]) && !NameChar(At(s, e))
  {
    hide NameChar, IsWordChar;
    var e := NameEnd(s, p);
    NameStops(s, p);
    NameChars(At(s, e));
    forall i | p <= i < e
      ensures NameChar(s[i])
    {
      NameChars(s[i]);
    }
  }

  lemma {:induction false} NameStops(s: string, p: nat)
    requires p <= |s|
    ensures !IsWordChar(At(s, NameEnd(s, p)))
    decreases |s| - p
  {
    if p < |s| && IsWordChar(s[p]) { NameStops(s, p + 1); }
  }

  // ---------------------------------------------------------------- items

  /** An opening mark, something inside with its closing mark, and a gap. */
  lemma {:induction false} Enclosed(s: string, p: nat, open: string, inner: string, mark: string, newlines: bool)
    returns (gap: Gap)
    requires open != "" && |mark| == 1 && Stands(s, p, open) && Stands(s, p + |open|, inner + mark)
    ensures Stands(s, p, open + (inner + (mark + GapText(gap))))
    ensures var q := p + |open| + |inner| + 1;
      q <= |s| && Space(s, q, newlines) == q + |GapText(gap)| && GapOk(gap, newlines, At(s, q + |GapText(gap)|))
  {
    hide Stands, GapOk, GapText, Space;
    var q := p + |open| + |inner| + 1;
    Parts(s, p + |open|, inner, mark);
    StandsWithin(s, p + |open|, inner + mark);
    gap := GapRead(s, q, newlines);
    Joined(s, p + |open| + |inner|, mark, GapText(gap));
    Joined(s, p + |open|, inner, mark + GapText(gap));
    Joined(s, p, open, inner + (mark + GapText(gap)));
  }

  lemma {:induction false} LitItemRead(s: string, p: nat, nested: bool) returns (w: WItem)
    requires p <= |s| && At(s, p) == '"' && ReadLit(s, p + 1).Some?
    ensures ItemShape(w) && Stands(s, p, ItemText(w)) && ItemFits(w, nested, At(s, p + |ItemText(w)|))
    ensures var (cs, q) := ReadLit(s, p + 1).value;
      ItemTree(w) == Lit(cs) && p < p + |ItemText(w)| == Space(s, q + 1, nested) <= |s|
  {
    hide GapOk, GapText, GlyphsText, GlyphValues, Space, ReadLit, Stands, GlyphOk;
    OneChar(s, p);
    var gs := LitRead(s, p + 1);
    var gap := Enclosed(s, p, "\"", GlyphsText(gs), "\"", nested);
    w := WLit(gs, gap);
  }

  lemma {:induction false} ClassItemRead(s: string, p: nat, nested: bool) returns (w: WItem)
    requires p <= |s| && At(s, p) == '['
    requires ReadRanges(s, if At(s, p + 1) == '^' then p + 2 else p + 1).Some?
    ensures ItemShape(w) && Stands(s, p, ItemText(w)) && ItemFits(w, nested, At(s, p + |ItemText(w)|))
    ensures var neg := At(s, p + 1) == '^';
      var (rs, q) := ReadRanges(s, if neg then p + 2 else p + 1).value;
      ItemTree(w) == Class(neg, rs) && p < p + |ItemText(w)| == Space(s, q + 1, nested) <= |s|
  {
    hide GapOk, GapText, RangesText, RangesTree, RangesOk, Space, ReadRanges, Stands;
    var neg := At(s, p + 1) == '^';
    var open := if neg then "[^" else "[";
    OneChar(s, p);
    if neg {
      OneChar(s, p + 1);
      Joined(s, p, "[", "^");
      assert "[" + "^" == open;
    }
    var rs := RangesRead(s, p + |open|);
    FirstAt(s, p + |open|, RangesText(rs) + "]");
    var gap := Enclosed(s, p, open, RangesText(rs), "]", nested);
    w := WClass(neg, rs, gap);
  }

  lemma {:induction false} RefItemRead(s: string, p: nat, nested: bool) returns (w: WItem)
    requires p <= |s| && IsWordChar(At(s, p))
    ensures ItemShape(w) && Stands(s, p, ItemText(w)) && ItemFits(w, nested, At(s, p + |ItemText(w)|))
    ensures var e := NameEnd(s, p);
      ItemTree(w) == Ref(s[p..e]) && p < p + |ItemText(w)| == Space(s, e, nested) <= |s|
  {
    hide GapOk, GapText, Space, Stands, NameOk, NameChar;
    var e := NameEnd(s, p);
    NameRead(s, p);
    var gap := GapRead(s, e, nested);
    FirstAt(s, e, GapText(gap));
    Joined(s, p, s[p..e], GapText(gap));
    StandsWithin(s, e, GapText(gap));
    w := WRef(s[p..e], gap);
  }

  lemma {:induction false} GroupItemRead(s: string, p: nat, nested: bool, alts: seq<WSequence>, q: nat)
    returns (w: WItem)
    requires alts != [] && AltsShape(alts)
    requires p <= |s| && At(s, p) == '(' && q == p + 1 + |AltsText(alts)| && At(s, q) == ')'
    requires Stands(s, p + 1, AltsText(alts)) && AltsFit(alts, true, ')')
    ensures ItemShape(w) && Stands(s, p, ItemText(w)) && ItemFits(w, nested, At(s, p + |ItemText(w)|))
    ensures ItemTree(w) == Group(AltsTree(alts)) && p < p + |ItemText(w)| == Space(s, q + 1, nested) <= |s|
  {
    hide GapOk, GapText, Space, Stands, AltsShape, AltsText, AltsFit, AltsTree;
    OneChar(s, p);
    OneChar(s, q);
    Joined(s, p + 1, AltsText(alts), ")");
    var gap := Enclosed(s, p, "(", AltsText(alts), ")", nested);
    w := WGroup(alts, gap);
  }

  /** A repetition sign behind an item, which becomes a part of the repetition. */
  lemma {:induction false} SignRead(s: string, p: nat, it: WItem, op: Op, nested: bool) returns (w: WItem)
    requires ItemShape(it) && Stands(s, p, ItemText(it)) && ItemFits(it, nested, Sign(op))
    requires At(s, p + |ItemText(it)|) == Sign(op) && !IsEmptyItem(ItemTree(it))
    ensures w.WRep? && w.item == it && w.op == op && ItemShape(w) && Stands(s, p, ItemText(w))
    ensures ItemFits(w, nested, At(s, p + |ItemText(w)|))
    ensures var q := p + |ItemText(it)|;
      q < |s| && p + |ItemText(w)| == Space(s, q + 1, nested) <= |s| && q < p + |ItemText(w)|
  {
    hide GapOk, GapText, Space, Stands, ItemFits, ItemText, ItemShape, ItemTree, IsEmptyItem;
    var q := p + |ItemText(it)|;
    OneChar(s, q);
    var gap := GapRead(s, q + 1, nested);
    StandsWithin(s, q + 1, GapText(gap));
    Joined(s, q, [Sign(op)], GapText(gap));
    Joined(s, p, ItemText(it), [Sign(op)] + GapText(gap));
    w := WRep(it, op, gap);
    NotEmptyItem(it);
    StandsWithin(s, q, [Sign(op)] + GapText(gap));
    RepFits(it, op, gap, nested, At(s, q + 1 + |GapText(gap)|));
  }

  lemma {:induction false} NotEmptyItem(it: WItem)
    requires !IsEmptyItem(ItemTree(it))
    ensures !(it.WLit? && it.gs == []) && !(it.WClass? && it.ranges == [])
  {
  }

  lemma {:induction false} RepFits(it: WItem, op: Op, gap: Gap, nested: bool, follow: char)
    requires ItemShape(it) && !(it.WLit? && it.gs == []) && !(it.WClass? && it.ranges == [])
    ensures var w := WRep(it, op, gap);
      && ItemShape(w) && ItemText(w) == ItemText(it) + ([Sign(op)] + GapText(gap))
      && (ItemFits(it, nested, Sign(op)) && GapOk(gap, nested, follow) ==> ItemFits(w, nested, follow))
  {
    hide GapText, GapOk;
  }

  // ---------------------------------------------------------------- sequences and alternates

  lemma {:induction false} OneMore(ws: seq<WItem>, w: WItem, nested: bool, follow: char)
    requires ItemsShape(ws) && ItemShape(w)
    ensures ItemsShape(ws + [w]) && ItemsText(ws + [w]) == ItemsText(ws) + ItemText(w)
    ensures ItemsTree(ws + [w]) == ItemsTree(ws) + [ItemTree(w)]
    ensures ItemsFit(ws + [w], nested, follow) <==>
      ItemsFit(ws, nested, First(ItemText(w), follow)) && ItemFits(w, nested, follow)
    decreases |ws|
  {
    hide ItemShape, ItemText, ItemTree, ItemFits;
    var all := ws + [w];
    if ws == [] {
      assert all[1..] == [];
    } else {
      assert all[1..] == ws[1..] + [w];
      OneMore(ws[1..], w, nested, follow);
    }
  }

  /** The items that have been read from `start` up to `p`. */
  ghost predicate SoFar(s: string, start: nat, p: nat, ws: seq<WItem>, nested: bool)
  {
    && p <= |s| && ItemsShape(ws) && Stands(s, start, ItemsText(ws)) && p == start + |ItemsText(ws)|
    && ItemsFit(ws, nested, At(s, p))
  }

  lemma {:induction false} Push(s: string, start: nat, p: nat, ws: seq<WItem>, w: WItem, nested: bool)
    requires SoFar(s, start, p, ws, nested) && ItemShape(w) && Stands(s, p, ItemText(w))
    requires ItemFits(w, nested, At(s, p + |ItemText(w)|))
    ensures SoFar(s, start, p + |ItemText(w)|, ws + [w], nested)
    ensures ItemsTree(ws + [w]) == ItemsTree(ws) + [ItemTree(w)]
  {
    hide Stands, ItemsShape, ItemShape, ItemsText, ItemText, ItemsFit, ItemFits, ItemsTree, ItemTree;
    var follow := At(s, p + |ItemText(w)|);
    FirstAt(s, p, ItemText(w));
    StandsWithin(s, p, ItemText(w));
    OneMore(ws, w, nested, follow);
    Joined(s, start, ItemsText(ws), ItemText(w));
  }

  /** The items without the last one, which stands in front of `p`. */
  lemma {:induction false} Pop(s: string, start: nat, p: nat, ws: seq<WItem>, last: WItem, nested: bool)
    requires SoFar(s, start, p, ws + [last], nested)
    ensures ItemsShape(ws) && ItemShape(last) && p == start + |ItemsText(ws)| + |ItemText(last)|
    ensures Stands(s, start, ItemsText(ws)) && Stands(s, p - |ItemText(last)|, ItemText(last))
    ensures ItemsFit(ws, nested, First(ItemText(last), At(s, p))) && ItemFits(last, nested, At(s, p))
    ensures ItemsTree(ws + [last]) == ItemsTree(ws) + [ItemTree(last)]
  {
    hide Stands, ItemsText, ItemText, ItemsFit, ItemFits, ItemsTree, ItemTree, ItemsShape, ItemShape, First, SoFar, At;
    SoFarMeans(s, start, p, ws + [last], nested);
    ShapeParts(ws + [last], |ws|);
    assert (ws + [last])[..|ws|] == ws;
    OneMore(ws, last, nested, At(s, p));
    Parts(s, start, ItemsText(ws), ItemText(last));
  }

  lemma {:induction false} ShapeParts(ws: seq<WItem>, n: nat)
    requires ItemsShape(ws) && n < |ws|
    ensures ItemsShape(ws[..n]) && ItemShape(ws[n])
    decreases n
  {
    hide ItemShape;
    if n > 0 {
      ShapeParts(ws[1..], n - 1);
      assert ws[..n][1..] == ws[1..][..n - 1];
    }
  }

  /** A repetition sign behind the items read so far. */
  lemma {:induction false} Repeat(s: string, start: nat, p: nat, ws: seq<WItem>, nested: bool, op: Op)
    returns (ws': seq<WItem>, q: nat)
    requires SoFar(s, start, p, ws, nested) && At(s, p) == Sign(op) && CanRepeat(ItemsTree(ws))
    ensures p < |s| && p < q == Space(s, p + 1, nested) && SoFar(s, start, q, ws', nested)
    ensures var t := ItemsTree(ws); ItemsTree(ws') == t[..|t| - 1] + [Rep(t[|t| - 1], op)]
  {
    hide Stands, ItemsText, ItemText, ItemsFit, ItemFits, ItemsTree, ItemsShape, ItemShape, Space, IsEmptyItem, First,
      Sign, SoFar;
    var n := |ws| - 1;
    assert ws == ws[..n] + [ws[n]];
    Pop(s, start, p, ws[..n], ws[n], nested);
    var p1 := p - |ItemText(ws[n])|;
    var w := SignRead(s, p1, ws[n], op, nested);
    RepStart(ws[n], w, At(s, p), At(s, p1 + |ItemText(w)|));
    RepTree(w);
    q := p1 + |ItemText(w)|;
    ws' := ws[..n] + [w];
    FirstAt(s, p1, ItemText(w));
    IsSoFar(s, start, p1, ws[..n], nested);
    Push(s, start, p1, ws[..n], w, nested);
  }

  lemma {:induction false} IsSoFar(s: string, start: nat, p: nat, ws: seq<WItem>, nested: bool)
    requires ItemsShape(ws) && Stands(s, start, ItemsText(ws)) && p == start + |ItemsText(ws)|
    requires ItemsFit(ws, nested, At(s, p))
    ensures SoFar(s, start, p, ws, nested)
  {
  }

  lemma {:induction false} RepStart(it: WItem, w: WItem, sign: char, follow: char)
    requires ItemShape(w) && w.WRep? && w.item == it && Sign(w.op) == sign
    ensures ItemShape(it) && First(ItemText(it), sign) == First(ItemText(w), follow)
  {
  }

  lemma {:induction false} RepTree(w: WItem)
    requires w.WRep?
    ensures ItemTree(w) == Rep(ItemTree(w.item), w.op)
  {
  }

  lemma {:induction false} SequenceRead(s: string, start: nat, p: nat, nested: bool, ws: seq<WItem>)
    returns (all: seq<WItem>)
    requires SoFar(s, start, p, ws, nested) && ReadSequence(s, p, nested, ItemsTree(ws)).Some?
    ensures var (items, q) := ReadSequence(s, p, nested, ItemsTree(ws)).value;
      SoFar(s, start, q, all, nested) && ItemsTree(all) == items
    decreases |s| - p, 0
  {
    hide *;
    Within(s, start, p, ws, nested);
    var c := At(s, p);
    var items := ItemsTree(ws);
    if c == '"' {
      ReadOneLit(s, p, nested, items);
      var w := LitItemRead(s, p, nested);
      Push(s, start, p, ws, w, nested);
      all := SequenceRead(s, start, p + |ItemText(w)|, nested, ws + [w]);
    } else if c == '[' {
      ReadOneClass(s, p, nested, items);
      var w := ClassItemRead(s, p, nested);
      Push(s, start, p, ws, w, nested);
      all := SequenceRead(s, start, p + |ItemText(w)|, nested, ws + [w]);
    } else if IsWordChar(c) {
      ReadOneRef(s, p, nested, items);
      var w := RefItemRead(s, p, nested);
      Push(s, start, p, ws, w, nested);
      all := SequenceRead(s, start, p + |ItemText(w)|, nested, ws + [w]);
    } else if c == '(' {
      ReadOneGroup(s, p, nested, items);
      InText(s, p);
      var alts := AlternatesRead(s, p + 1, true, []);
      var w := GroupItemRead(s, p, nested, alts, p + 1 + |AltsText(alts)|);
      Push(s, start, p, ws, w, nested);
      assert [] + AltsTree(alts) == AltsTree(alts);
      all := SequenceRead(s, start, p + |ItemText(w)|, nested, ws + [w]);
    } else if c == '*' || c == '+' || c == '?' {
      ReadOneRep(s, p, nested, items);
      OpSign(c);
      var ws', q := Repeat(s, start, p, ws, nested, OpOf(c));
      all := SequenceRead(s, start, q, nested, ws');
    } else {
      ReadEnding(s, p, nested, items);
      all := ws;
    }
  }

  lemma {:induction false} Within(s: string, start: nat, p: nat, ws: seq<WItem>, nested: bool)
    requires SoFar(s, start, p, ws, nested)
    ensures p <= |s|
  {
  }

  lemma {:induction false} InText(s: string, p: nat)
    requires p <= |s| && At(s, p) != '\0'
    ensures p < |s| && At(s, p) == s[p]
  {
  }

  lemma {:induction false} OpSign(c: char)
    requires c == '*' || c == '+' || c == '?'
    ensures Sign(OpOf(c)) == c
  {
  }

  lemma {:induction false} AlternatesRead(s: string, p: nat, nested: bool, before: seq<Sequence>)
    returns (alts: seq<WSequence>)
    requires p <= |s| && ReadAlternates(s, Space(s, p, true), nested, before).Some?
    ensures alts != [] && AltsShape(alts) && Stands(s, p, AltsText(alts))
    ensures ReadAlternates(s, Space(s, p, true), nested, before) ==
      Some((before + AltsTree(alts), p + |AltsText(alts)|))
    ensures AltsFit(alts, nested, At(s, p + |AltsText(alts)|))
    decreases |s| - p, 1
  {
    hide *;
    var lead := GapRead(s, p, true);
    var q := p + |GapText(lead)|;
    StandsWithin(s, p, GapText(lead));
    NothingRead(s, q, nested);
    ReadAlternatesBy(s, q, nested, before);
    var items := SequenceRead(s, q, q, nested, []);
    var e := ReadSequence(s, q, nested, []).value.1;
    SoFarMeans(s, q, e, items, nested);
    FirstAt(s, q, ItemsText(items));
    Joined(s, p, GapText(lead), ItemsText(items));
    var one := WSequence(lead, items);
    if At(s, e) == '|' {
      InText(s, e);
      OneChar(s, e);
      var more := AlternatesRead(s, e + 1, nested, before + [Sequence(ItemsTree(items))]);
      assert "|" == [s[e]];
      Joined(s, e, "|", AltsText(more));
      Joined(s, p, GapText(lead) + ItemsText(items), "|" + AltsText(more));
      MoreAlts(one, more, nested, At(s, e + 1 + |AltsText(more)|));
      alts := [one] + more;
      assert before + AltsTree(alts) == before + [Sequence(ItemsTree(items))] + AltsTree(more);
    } else {
      alts := [one];
      OnlyAlt(one, nested, At(s, e));
    }
  }

  lemma {:induction false} NothingRead(s: string, p: nat, nested: bool)
    requires p <= |s|
    ensures SoFar(s, p, p, [], nested) && ItemsTree([]) == []
  {
  }

  lemma {:induction false} SoFarMeans(s: string, start: nat, p: nat, ws: seq<WItem>, nested: bool)
    requires SoFar(s, start, p, ws, nested)
    ensures ItemsShape(ws) && Stands(s, start, ItemsText(ws)) && start + |ItemsText(ws)| == p <= |s|
    ensures ItemsFit(ws, nested, At(s, p))
  {
  }

  lemma {:induction false} MoreAlts(one: WSequence, more: seq<WSequence>, nested: bool, stop: char)
    requires ItemsShape(one.items) && AltsShape(more) && more != [] && AltsFit(more, nested, stop)
    requires GapOk(one.lead, true, First(ItemsText(one.items), '|')) && ItemsFit(one.items, nested, '|')
    ensures var alts := [one] + more;
      && AltsShape(alts) && AltsFit(alts, nested, stop)
      && AltsText(alts) == GapText(one.lead) + ItemsText(one.items) + ("|" + AltsText(more))
      && AltsTree(alts) == [Sequence(ItemsTree(one.items))] + AltsTree(more)
  {
    hide ItemsShape, ItemsText, ItemsFit, ItemsTree, GapText, GapOk;
    var alts := [one] + more;
    assert alts[1..] == more && alts[0] == one;
  }

  lemma {:induction false} OnlyAlt(one: WSequence, nested: bool, stop: char)
    requires ItemsShape(one.items)
    requires GapOk(one.lead, true, First(ItemsText(one.items), stop)) && ItemsFit(one.items, nested, stop)
    ensures AltsShape([one]) && AltsFit([one], nested, stop)
    ensures AltsText([one]) == GapText(one.lead) + ItemsText(one.items)
    ensures AltsTree([one]) == [Sequence(ItemsTree(one.items))]
  {
    hide ItemsShape, ItemsText, ItemsFit, ItemsTree, GapText, GapOk;
    assert [one][1..] == [];
  }

  // ---------------------------------------------------------------- rules

  /** A C string ends at its first terminator. */
  predicate NulFree(s: string)
  {
    forall i :: 0 <= i < |s| ==> s[i] != '\0'
  }

  lemma {:induction false} SignOfRuleRead(s: string, p: nat)
    requires At(s, p) == ':' && At(s, p + 1) == ':' && At(s, p + 2) == '='
    ensures Stands(s, p, "::=")
  {
  }

  /** The end of a line and the gap behind it. */
  lemma {:induction false} EndingRead(s: string, q: nat) returns (ending: string, after: Gap)
    requires q <= |s| && NulFree(s) && LineStop(At(s, q))
    ensures ending in {"", "\n", "\r", "\r\n"} && First(ending, '\0') == At(s, q)
    ensures Stands(s, q, ending + GapText(after))
    ensures var follow := At(s, q + |ending| + |GapText(after)|);
      && GapOk(after, true, follow)
      && (ending == "" ==> after == [] && follow == '\0')
      && (ending == "\r" ==> First(GapText(after), follow) != '\n')
    ensures q + |ending| + |GapText(after)| ==
      if At(s, q) == '\r' then Space(s, q + if At(s, q + 1) == '\n' then 2 else 1, true)
      else if At(s, q) == '\n' then Space(s, q + 1, true)
      else Space(s, q, true)
  {
    hide Stands, GapText, GapOk, Space;
    if At(s, q) == '\0' {
      ending, after := "", [];
      EndOfText(s, q);
    } else {
      OneChar(s, q);
      if At(s, q) == '\r' && At(s, q + 1) == '\n' {
        ending := "\r\n";
        OneChar(s, q + 1);
        Joined(s, q, "\r", "\n");
        assert ending == "\r" + "\n";
      } else {
        ending := [s[q]];
      }
      var e := q + |ending|;
      after := GapRead(s, e, true);
      FirstAt(s, e, GapText(after));
      Joined(s, q, ending, GapText(after));
    }
  }

  lemma {:induction false} EndOfText(s: string, q: nat)
    requires q <= |s| && NulFree(s) && At(s, q) == '\0'
    ensures q == |s| && Space(s, q, true) == q && Stands(s, q, "" + GapText([])) && GapText([]) == ""
    ensures GapOk([], true, '\0')
  {
  }

  lemma {:induction false} RuleRead(s: string, p: nat) returns (r: WRule)
    requires p <= |s| && NulFree(s) && ReadRule(s, p).Some?
    ensures RuleShape(r) && Stands(s, p, RuleText(r)) && RuleFits(r, At(s, p + |RuleText(r)|))
    ensures ReadRule(s, p) == Some((Rule(r.name, AltsTree(r.alts)), p + |RuleText(r)|))
    ensures IsWordChar(At(s, p))
  {
    hide Stands, GapText, GapOk, Space, AltsFit, AltsText, AltsTree, AltsShape, NameOk, NameChar, IsWordChar, NameEnd,
      ReadAlternates, ReadRule, LineStop, At, NulFree;
    ReadRuleBy(s, p);
    var p1 := NameEnd(s, p);
    NameRead(s, p);
    NameStarts(s, p);
    var gap := GapRead(s, p1, false);
    var p2 := p1 + |GapText(gap)|;
    SignOfRuleRead(s, p2);
    var p3 := p2 + 3;
    StandsWithin(s, p2, "::=");
    var alts := AlternatesRead(s, p3, false, []);
    assert [] + AltsTree(alts) == AltsTree(alts);
    var q := p3 + |AltsText(alts)|;
    IsLineStop(At(s, q));
    var ending, after := EndingRead(s, q);
    r := WRule(s[p..p1], gap, alts, ending, after);
    RuleJoined(s, p, r.name, GapText(gap), AltsText(alts), ending + GapText(after));
  }

  lemma {:induction false} RuleJoined(s: string, p: nat, name: string, gap: string, alts: string, tail: string)
    requires Stands(s, p, name) && Stands(s, p + |name|, gap) && Stands(s, p + |name| + |gap|, "::=")
    requires Stands(s, p + |name| + |gap| + 3, alts) && Stands(s, p + |name| + |gap| + 3 + |alts|, tail)
    ensures Stands(s, p, name + (gap + ("::=" + (alts + tail))))
  {
    hide Stands;
    Joined(s, p + |name| + |gap| + 3, alts, tail);
    Joined(s, p + |name| + |gap|, "::=", alts + tail);
    Joined(s, p + |name|, gap, "::=" + (alts + tail));
    Joined(s, p, name, gap + ("::=" + (alts + tail)));
  }

  lemma {:induction false} IsLineStop(c: char)
    ensures c == '\r' || c == '\n' || c == '\0' <==> LineStop(c)
  {
  }

  lemma {:induction false} NameStarts(s: string, p: nat)
    requires p <= |s| && NameEnd(s, p) != p
    ensures IsWordChar(At(s, p)) && p < NameEnd(s, p)
  {
  }

  lemma {:induction false} RulesRead(s: string, p: nat, before: seq<Rule>) returns (rs: seq<WRule>)
    requires p <= |s| && NulFree(s) && ReadRules(s, p, before).Some?
    ensures RulesOk(rs) && Stands(s, p, RulesText(rs)) && p + |RulesText(rs)| == |s|
    ensures ReadRules(s, p, before) == Some(before + RulesTree(rs))
    decreases |s| - p
  {
    hide Stands, RuleShape, RuleFits, RuleText, ReadRule, ReadRules, IsWordChar, AltsTree, NulFree, Space;
    ReadRulesBy(s, p, before);
    if At(s, p) == '\0' {
      rs := [];
      EndOfText(s, p);
      GapTextNone();
      assert before + RulesTree(rs) == before;
    } else {
      var r := RuleRead(s, p);
      var q := p + |RuleText(r)|;
      var one := Rule(r.name, AltsTree(r.alts));
      var more := RulesRead(s, q, before + [one]);
      rs := [r] + more;
      assert rs[1..] == more;
      FirstAt(s, q, RulesText(more));
      EndOfRules(s);
      Joined(s, p, RuleText(r), RulesText(more));
      assert before + RulesTree(rs) == before + [one] + RulesTree(more);
    }
  }

  lemma {:induction false} EndOfRules(s: string)
    ensures At(s, |s|) == '\0'
  {
  }

  /** What is written reads back, and so a text is written for one list of rules at most. */
  lemma {:induction false} WrittenReads(s: string)
    ensures forall rules :: Written(s, rules) ==> ReadGrammar(s) == Some(rules)
  {
    hide ReadGrammar, GrammarOk, GrammarText, RulesTree;
    forall rules | Written(s, rules)
      ensures ReadGrammar(s) == Some(rules)
    {
      var lead: Gap, rs: seq<WRule> :| GrammarOk(lead, rs) && s == GrammarText(lead, rs) && rules == RulesTree(rs);
      GrammarBack(lead, rs);
    }
  }

  /** The reader takes exactly the ways of writing these rules, and every other text for an error or for other rules. */
  lemma {:induction false} ReadExactly(s: string, rules: seq<Rule>)
    requires NulFree(s)
    ensures ReadGrammar(s) == Some(rules) <==> Written(s, rules)
  {
    hide RulesOk, RulesText, GapText, GapOk, ReadRules, RulesTree, Space, NulFree;
    WrittenReads(s);
    if ReadGrammar(s) == Some(rules) {
      var lead := GapRead(s, 0, true);
      var p := |GapText(lead)|;
      StandsWithin(s, 0, GapText(lead));
      var rs := RulesRead(s, p, []);
      assert [] + RulesTree(rs) == RulesTree(rs);
      EndOfRules(s);
      FirstAt(s, p, RulesText(rs));
      Joined(s, 0, GapText(lead), RulesText(rs));
      assert s[0..0 + |s|] == s;
      assert GrammarOk(lead, rs) && s == GrammarText(lead, rs);
    }
  }
}
