/** The reader takes every way of writing a grammar for the rules that are written, and no other text for any rules. */
module EbnfReading {
  import opened CStrings
  import opened Options
  import opened EbnfSyntax
  import opened EbnfNotation
  import opened HexDigits

  // ---------------------------------------------------------------- texts at their places

  ghost predicate Stands(s: string, p: nat, t: string)
  {
    p + |t| <= |s| && s[p..p + |t|] == t
  }

  lemma {:induction false} Parts(s: string, p: nat, a: string, b: string)
    requires Stands(s, p, a + b)
    ensures Stands(s, p, a) && Stands(s, p + |a|, b) && p + |a + b| == p + |a| + |b|
  {
    var t := a + b;
    assert s[p..p + |a|] == t[..|a|] && s[p + |a|..p + |a| + |b|] == t[|a|..];
  }

  lemma {:induction false} FirstAt(s: string, p: nat, t: string)
    requires Stands(s, p, t)
    ensures At(s, p) == First(t, At(s, p + |t|)) && (t != "" ==> p < |s| && s[p] == t[0])
  {
    if t != "" { assert s[p..p + |t|][0] == t[0]; }
  }

  // ---------------------------------------------------------------- characters

  lemma {:induction false} DigitBack(d: Digit)
    ensures HexDigit(d.Text()) == Some(d.value)
  {
    var v := d.value;
    if v < 8 {
      if v < 4 { assert v == 0 || v == 1 || v == 2 || v == 3; } else { assert v == 4 || v == 5 || v == 6 || v == 7; }
    } else if v < 12 {
      assert v == 8 || v == 9 || v == 10 || v == 11;
    } else {
      assert v == 12 || v == 13 || v == 14 || v == 15;
    }
  }

  lemma {:induction false} HexBack(s: string, p: nat, ds: seq<Digit>, k: nat)
    requires k <= |ds| && Stands(s, p, DigitsText(ds))
    ensures ParseHex(s, p + k, |ds| - k, HexNumber(ds[..k])) == Some((HexNumber(ds), p + |ds|))
    decreases |ds| - k
  {
    hide HexDigit;
    if k == |ds| {
      assert ds[..k] == ds;
    } else {
      assert s[p + k] == s[p..p + |ds|][k] == DigitsText(ds)[k] == ds[k].Text();
      DigitBack(ds[k]);
      assert ds[..k + 1][..k] == ds[..k];
      HexBack(s, p, ds, k + 1);
    }
  }

  lemma {:induction false} GlyphBack(s: string, p: nat, g: Glyph, closing: char)
    requires GlyphOk(g, closing) && Stands(s, p, GlyphText(g)) && closing in "\"]"
    ensures ParseChar(s, p) == Some((GlyphValue(g), p + |GlyphText(g)|))
    ensures GlyphText(g) != "" && At(s, p) != closing && At(s, p) != '\0'
  {
    hide ParseHex, HexNumber, HexDigit;
    FirstAt(s, p, GlyphText(g));
    if g.Hex? {
      var ds := g.digits;
      var e := if |ds| == 2 then "\\x" else if |ds| == 4 then "\\u" else "\\U";
      Parts(s, p, e, DigitsText(ds));
      HexBack(s, p + 2, ds, 0);
      NoNumber();
      assert ds[..0] == [];
      assert s[p + 1] == s[p..p + 2][1] == e[1];
    } else if g.Escape? {
      assert s[p + 1] == s[p..p + 2][1] == GlyphText(g)[1];
    }
  }

  lemma {:induction false} NoNumber()
    ensures HexNumber([]) == 0
  {
  }

  lemma {:induction false} LitBack(s: string, p: nat, gs: seq<Glyph>)
    requires GlyphsOk(gs) && Stands(s, p, GlyphsText(gs) + "\"")
    ensures ReadLit(s, p) == Some((GlyphValues(gs), p + |GlyphsText(gs)|))
    decreases |gs|
  {
    hide ParseChar, GlyphOk, GlyphText, GlyphValue;
    FirstAt(s, p, GlyphsText(gs) + "\"");
    if gs != [] {
      var rest := GlyphsText(gs[1..]) + "\"";
      assert GlyphsText(gs) + "\"" == GlyphText(gs[0]) + rest;
      Parts(s, p, GlyphText(gs[0]), rest);
      GlyphBack(s, p, gs[0], '"');
      LitBack(s, p + |GlyphText(gs[0])|, gs[1..]);
    }
  }

  /** One member of a class; what comes behind a lone character is not the dash of a range. */
  lemma {:induction false} RangeBack(s: string, p: nat, r: WRange)
    requires RangeOk(r) && Stands(s, p, RangeText(r))
    requires var e := p + |RangeText(r)|; r.Lone? ==> At(s, e) != '-' || At(s, e + 1) == ']'
    ensures ReadRange(s, p) == Some((RangeTree(r), p + |RangeText(r)|))
    ensures RangeText(r) != "" && At(s, p) != ']'
  {
    hide ParseChar, GlyphOk, GlyphText, GlyphValue, Stands, At;
    match r
    case Lone(g) => GlyphBack(s, p, g, ']');
    case Dash(lo, hi) =>
      assert RangeText(r) == GlyphText(lo) + ("-" + GlyphText(hi));
      Parts(s, p, GlyphText(lo), "-" + GlyphText(hi));
      var q := p + |GlyphText(lo)|;
      Parts(s, q, "-", GlyphText(hi));
      FirstAt(s, q, "-");
      GlyphBack(s, p, lo, ']');
      GlyphBack(s, q + 1, hi, ']');
  }

  lemma {:induction false} RangesBack(s: string, p: nat, rs: seq<WRange>)
    requires RangesOk(rs) && Stands(s, p, RangesText(rs) + "]")
    ensures ReadRanges(s, p) == Some((RangesTree(rs), p + |RangesText(rs)|))
    decreases |rs|
  {
    hide ReadRange, RangeOk, RangeText, RangeTree, Stands;
    FirstAt(s, p, RangesText(rs) + "]");
    if rs != [] {
      var rest := RangesText(rs[1..]);
      assert RangesText(rs) + "]" == RangeText(rs[0]) + (rest + "]");
      Parts(s, p, RangeText(rs[0]), rest + "]");
      var q := p + |RangeText(rs[0])|;
      FirstAt(s, q, rest + "]");
      Parts(s, q, rest, "]");
      FirstAt(s, q + |rest|, "]");
      RangeBack(s, p, rs[0]);
      RangesBack(s, q, rs[1..]);
    }
  }

  // ---------------------------------------------------------------- blanks

  lemma {:induction false} LineEndIs(s: string, p: nat, e: nat)
    requires p <= e <= |s| && (forall i :: p <= i < e ==> !LineStop(s[i])) && LineStop(At(s, e))
    ensures LineEnd(s, p) == e
    decreases e - p
  {
    if p < e {
      assert !LineStop(s[p]);
      LineEndIs(s, p + 1, e);
    }
  }

  lemma {:induction false} CommentBack(s: string, p: nat, body: string)
    requires Stands(s, p, "#" + body) && LineStop(At(s, p + 1 + |body|))
    requires forall i :: 0 <= i < |body| ==> !LineStop(body[i])
    ensures LineEnd(s, p) == p + 1 + |body|
  {
    var t := "#" + body;
    forall i | p <= i < p + |t|
      ensures !LineStop(s[i])
    {
      assert s[i] == s[p..p + |t|][i - p] == t[i - p];
    }
    LineEndIs(s, p, p + |t|);
  }

  lemma {:induction false} SpaceStep(s: string, p: nat, newlines: bool)
    requires p <= |s|
    ensures !BlankChar(At(s, p), newlines) && At(s, p) != '#' ==> Space(s, p, newlines) == p
    ensures p < |s| && BlankChar(s[p], newlines) ==> Space(s, p, newlines) == Space(s, p + 1, newlines)
    ensures p < |s| && s[p] == '#' ==> LineEnd(s, p) > p && Space(s, p, newlines) == Space(s, LineEnd(s, p), newlines)
  {
  }

  lemma {:induction false} GapFirst(gap: Gap, newlines: bool, follow: char)
    requires gap != [] && GapOk(gap, newlines, follow)
    ensures GapText(gap) == PieceText(gap[0]) + GapText(gap[1..]) && GapOk(gap[1..], newlines, follow)
    ensures gap[0].Blank? ==> BlankChar(gap[0].c, newlines)
    ensures gap[0].Comment? ==> LineStop(First(GapText(gap[1..]), follow))
    ensures gap[0].Comment? ==> forall i :: 0 <= i < |gap[0].body| ==> !LineStop(gap[0].body[i])
  {
    hide LineStop, BlankChar;
  }

  /** One blank or comment is skipped. */
  lemma {:induction false} PieceBack(s: string, p: nat, piece: Piece, newlines: bool)
    requires Stands(s, p, PieceText(piece))
    requires piece.Blank? ==> BlankChar(piece.c, newlines)
    requires piece.Comment? ==> LineStop(At(s, p + |PieceText(piece)|))
    requires piece.Comment? ==> forall i :: 0 <= i < |piece.body| ==> !LineStop(piece.body[i])
    ensures p + |PieceText(piece)| <= |s| && Space(s, p, newlines) == Space(s, p + |PieceText(piece)|, newlines)
  {
    hide LineEnd, Space, Stands, BlankChar, LineStop;
    StandsWithin(s, p, PieceText(piece));
    FirstAt(s, p, PieceText(piece));
    SpaceStep(s, p, newlines);
    if piece.Comment? { CommentBack(s, p, piece.body); }
  }

  lemma {:induction false} GapBack(s: string, p: nat, gap: Gap, newlines: bool)
    requires Stands(s, p, GapText(gap)) && GapOk(gap, newlines, At(s, p + |GapText(gap)|))
    ensures p + |GapText(gap)| <= |s| && Space(s, p, newlines) == p + |GapText(gap)|
    decreases |gap|
  {
    hide LineEnd, Space, Stands, BlankChar, GapOk, GapText, PieceText, LineStop, At, First;
    var follow := At(s, p + |GapText(gap)|);
    StandsWithin(s, p, GapText(gap));
    if gap == [] {
      NoGap(newlines, follow);
      SpaceStep(s, p, newlines);
    } else {
      GapFirst(gap, newlines, follow);
      var t, rest := PieceText(gap[0]), GapText(gap[1..]);
      Parts(s, p, t, rest);
      FirstAt(s, p + |t|, rest);
      PieceBack(s, p, gap[0], newlines);
      GapBack(s, p + |t|, gap[1..], newlines);
    }
  }

  lemma {:induction false} NoGap(newlines: bool, follow: char)
    ensures GapText([]) == "" && (GapOk([], newlines, follow) <==> !BlankChar(follow, newlines) && follow != '#')
  {
  }

  lemma {:induction false} StandsWithin(s: string, p: nat, t: string)
    requires Stands(s, p, t)
    ensures p + |t| <= |s|
  {
  }

  // ---------------------------------------------------------------- names

  lemma {:induction false} NameChars(c: char)
    ensures NameChar(c) <==> IsWordChar(c)
  {
  }

  // ---------------------------------------------------------------- steps of the reader

  lemma {:induction false} ReadOneLit(src: string, pos: nat, nested: bool, items: seq<Item>)
    requires pos <= |src| && At(src, pos) == '"'
    ensures ReadSequence(src, pos, nested, items) == 
      match ReadLit(src, pos + 1) case None => None
      case Some((cs, q)) => ReadSequence(src, Space(src, q + 1, nested), nested, items + [Lit(cs)])
  {
    hide ReadLit, ReadRanges, ReadAlternates, NameEnd, Space, CanRepeat;
  }

  lemma {:induction false} ReadOneClass(src: string, pos: nat, nested: bool, items: seq<Item>)
    requires pos <= |src| && At(src, pos) == '['
    ensures var neg := At(src, pos + 1) == '^';
      ReadSequence(src, pos, nested, items) == 
      match ReadRanges(src, if neg then pos + 2 else pos + 1) case None => None
      case Some((rs, q)) => ReadSequence(src, Space(src, q + 1, nested), nested, items + [Class(neg, rs)])
  {
    hide ReadLit, ReadRanges, ReadAlternates, NameEnd, Space, CanRepeat;
  }

  lemma {:induction false} ReadOneRef(src: string, pos: nat, nested: bool, items: seq<Item>)
    requires pos <= |src| && IsWordChar(At(src, pos))
    ensures var e := NameEnd(src, pos);
      ReadSequence(src, pos, nested, items) ==
        ReadSequence(src, Space(src, e, nested), nested, items + [Ref(src[pos..e])])
  {
    hide ReadLit, ReadRanges, ReadAlternates, NameEnd, Space, CanRepeat;
  }

  lemma {:induction false} ReadOneGroup(src: string, pos: nat, nested: bool, items: seq<Item>)
    requires pos <= |src| && At(src, pos) == '('
    ensures ReadSequence(src, pos, nested, items) == 
      match ReadAlternates(src, Space(src, pos + 1, true), true, []) case None => None
      case Some((alts, q)) =>
        if At(src, q) != ')' then None else ReadSequence(src, Space(src, q + 1, nested), nested, items + [Group(alts)])
  {
    hide ReadLit, ReadRanges, ReadAlternates, NameEnd, Space, CanRepeat;
  }

  lemma {:induction false} ReadOneRep(src: string, pos: nat, nested: bool, items: seq<Item>)
    requires pos <= |src| && (At(src, pos) == '*' || At(src, pos) == '+' || At(src, pos) == '?')
    ensures ReadSequence(src, pos, nested, items) == 
      if !CanRepeat(items) then None
      else var n := |items| - 1;
        ReadSequence(src, Space(src, pos + 1, nested), nested, items[..n] + [Rep(items[n], OpOf(At(src, pos)))])
  {
    hide ReadLit, ReadRanges, ReadAlternates, NameEnd, Space, CanRepeat;
  }

  lemma {:induction false} ReadEnding(src: string, pos: nat, nested: bool, items: seq<Item>)
    requires pos <= |src| && !IsWordChar(At(src, pos)) && At(src, pos) !in "\"[(*+?"
    ensures ReadSequence(src, pos, nested, items) == Some((items, pos))
  {
    hide ReadLit, ReadRanges, ReadAlternates, NameEnd, Space, CanRepeat;
  }

  lemma {:induction false} ReadRuleBy(src: string, start: nat)
    requires start <= |src|
    ensures ReadRule(src, start) ==
      var e := NameEnd(src, start); var p := Space(src, e, false);
      if e == start || !(At(src, p) == ':' && At(src, p + 1) == ':' && At(src, p + 2) == '=') then None
      else
        match ReadAlternates(src, Space(src, p + 3, true), false, [])
        case None => None
        case Some((alts, q)) =>
          if At(src, q) == '\r' then
            Some((Rule(src[start..e], alts), Space(src, q + if At(src, q + 1) == '\n' then 2 else 1, true)))
          else if At(src, q) == '\n' then Some((Rule(src[start..e], alts), Space(src, q + 1, true)))
          else if At(src, q) != '\0' then None
          else Some((Rule(src[start..e], alts), Space(src, q, true)))
  {
    hide NameEnd, Space, ReadAlternates;
  }

  // ---------------------------------------------------------------- items, sequences, alternates

  lemma {:induction false} NameEndIs(s: string, p: nat, e: nat)
    requires p <= e <= |s| && (forall i :: p <= i < e ==> IsWordChar(s[i])) && !IsWordChar(At(s, e))
    ensures NameEnd(s, p) == e
    decreases e - p
  {
    hide IsWordChar;
    if p < e { NameEndIs(s, p + 1, e); }
  }

  /** A name that stands in front of something else than a name character. */
  lemma {:induction false} NameBack(s: string, p: nat, name: string)
    requires NameOk(name) && Stands(s, p, name) && !NameChar(At(s, p + |name|))
    ensures NameEnd(s, p) == p + |name| && s[p..p + |name|] == name && IsWordChar(At(s, p)) && p < p + |name| <= |s|
  {
    hide IsWordChar, NameChar;
    var e := p + |name|;
    forall i | p <= i < e
      ensures IsWordChar(s[i])
    {
      assert s[i] == s[p..e][i - p] == name[i - p];
      NameChars(s[i]);
    }
    NameChars(At(s, e));
    NameEndIs(s, p, e);
  }

  lemma {:induction false} TreeNotEmpty(w: WItem)
    requires !(w.WLit? && w.gs == []) && !(w.WClass? && w.ranges == [])
    ensures !IsEmptyItem(ItemTree(w))
  {
  }

  /** An opening mark, something inside, a closing mark and a gap. */
  lemma {:induction false} Bracketed(s: string, p: nat, open: string, inner: string, mark: string, gap: Gap,
                                     newlines: bool)
    requires open != "" && |mark| == 1 && Stands(s, p, open + (inner + (mark + GapText(gap))))
    requires GapOk(gap, newlines, At(s, p + |open| + |inner| + 1 + |GapText(gap)|))
    ensures Stands(s, p, open) && Stands(s, p + |open|, inner + mark) && At(s, p) == open[0]
    ensures var q := p + |open| + |inner|;
      q + 1 <= |s| && At(s, q) == mark[0] && Space(s, q + 1, newlines) == q + 1 + |GapText(gap)|
  {
    hide GapOk, GapText, Space, Stands, At;
    var tail := mark + GapText(gap);
    Parts(s, p, open, inner + tail);
    FirstAt(s, p, open);
    assert inner + tail == inner + mark + GapText(gap);
    Parts(s, p + |open|, inner + mark, GapText(gap));
    Parts(s, p + |open|, inner, tail);
    var q := p + |open| + |inner|;
    Parts(s, q, mark, GapText(gap));
    FirstAt(s, q, mark);
    GapBack(s, q + 1, gap, newlines);
    StandsWithin(s, q, mark);
  }

  lemma {:induction false} LitItemBack(s: string, p: nat, gs: seq<Glyph>, gap: Gap, nested: bool, items: seq<Item>)
    requires var w := WLit(gs, gap);
      GlyphsOk(gs) && Stands(s, p, ItemText(w)) && GapOk(gap, nested, At(s, p + |ItemText(w)|))
    ensures var w := WLit(gs, gap);
      ReadSequence(s, p, nested, items) == ReadSequence(s, p + |ItemText(w)|, nested, items + [ItemTree(w)])
  {
    hide GapOk, GapText, GlyphsText, GlyphValues, Space, ReadSequence, ReadLit, Stands, GlyphOk, At;
    StandsWithin(s, p, ItemText(WLit(gs, gap)));
    Bracketed(s, p, "\"", GlyphsText(gs), "\"", gap, nested);
    LitBack(s, p + 1, gs);
    ReadOneLit(s, p, nested, items);
  }

  lemma {:induction false} ClassItemBack(s: string, p: nat, neg: bool, rs: seq<WRange>, gap: Gap, nested: bool,
                                         items: seq<Item>)
    requires var w := WClass(neg, rs, gap);
      ItemShape(w) && Stands(s, p, ItemText(w)) && GapOk(gap, nested, At(s, p + |ItemText(w)|))
    ensures var w := WClass(neg, rs, gap);
      ReadSequence(s, p, nested, items) == ReadSequence(s, p + |ItemText(w)|, nested, items + [ItemTree(w)])
  {
    hide GapOk, GapText, RangesText, RangesTree, RangesOk, Space, ReadSequence, ReadRanges, Stands, At;
    var open := if neg then "[^" else "[";
    StandsWithin(s, p, ItemText(WClass(neg, rs, gap)));
    Bracketed(s, p, open, RangesText(rs), "]", gap, nested);
    FirstAt(s, p + |open|, RangesText(rs) + "]");
    RangesBack(s, p + |open|, rs);
    if neg {
      assert open == "[" + "^";
      Parts(s, p, "[", "^");
      FirstAt(s, p + 1, "^");
    }
    ReadOneClass(s, p, nested, items);
  }

  lemma {:induction false} RefItemBack(s: string, p: nat, name: string, gap: Gap, nested: bool, items: seq<Item>)
    requires var w := WRef(name, gap);
      ItemShape(w) && Stands(s, p, ItemText(w)) && ItemFits(w, nested, At(s, p + |ItemText(w)|))
    ensures var w := WRef(name, gap);
      ReadSequence(s, p, nested, items) == ReadSequence(s, p + |ItemText(w)|, nested, items + [ItemTree(w)])
  {
    hide GapOk, GapText, Space, ReadSequence, Stands, NameOk, NameChar, IsWordChar, NameEnd, At;
    StandsWithin(s, p, ItemText(WRef(name, gap)));
    Parts(s, p, name, GapText(gap));
    FirstAt(s, p + |name|, GapText(gap));
    NameBack(s, p, name);
    GapBack(s, p + |name|, gap, nested);
    ReadOneRef(s, p, nested, items);
  }

  /** A repetition sign and its gap, when the item before it has been read. */
  lemma {:induction false} SignBack(s: string, p: nat, op: Op, gap: Gap, nested: bool, items: seq<Item>, item: Item)
    requires !IsEmptyItem(item) && Stands(s, p, [Sign(op)] + GapText(gap))
    requires GapOk(gap, nested, At(s, p + 1 + |GapText(gap)|))
    ensures p <= |s| && p + 1 + |GapText(gap)| <= |s|
    ensures ReadSequence(s, p, nested, items + [item]) ==
      ReadSequence(s, p + 1 + |GapText(gap)|, nested, items + [Rep(item, op)])
  {
    hide GapOk, GapText, Space, ReadSequence, Stands, IsEmptyItem;
    StandsWithin(s, p, [Sign(op)] + GapText(gap));
    Parts(s, p, [Sign(op)], GapText(gap));
    FirstAt(s, p, [Sign(op)]);
    GapBack(s, p + 1, gap, nested);
    assert (items + [item])[..|items|] == items;
    ReadOneRep(s, p, nested, items + [item]);
  }

  lemma {:induction false} ItemBack(s: string, p: nat, w: WItem, nested: bool, items: seq<Item>)
    requires ItemShape(w) && Stands(s, p, ItemText(w)) && ItemFits(w, nested, At(s, p + |ItemText(w)|))
    ensures p + |ItemText(w)| <= |s|
    ensures ReadSequence(s, p, nested, items) == ReadSequence(s, p + |ItemText(w)|, nested, items + [ItemTree(w)])
    decreases w, 0
  {
    hide GapOk, GapText, Space, ReadSequence, Stands, At, AltsText, AltsShape, AltsFit, AltsTree, GlyphsOk, GlyphValues,
      GlyphsText, RangesOk, RangesText, RangesTree, IsEmptyItem, NameOk, NameChar, ReadAlternates;
    StandsWithin(s, p, ItemText(w));
    match w
    case WLit(gs, gap) => LitItemBack(s, p, gs, gap, nested, items);
    case WClass(neg, rs, gap) => ClassItemBack(s, p, neg, rs, gap, nested, items);
    case WRef(name, gap) => RefItemBack(s, p, name, gap, nested, items);
    case WGroup(alts, gap) =>
      Bracketed(s, p, "(", AltsText(alts), ")", gap, nested);
      Parts(s, p + 1, AltsText(alts), ")");
      AltsBack(s, p + 1, alts, true, []);
      assert [] + AltsTree(alts) == AltsTree(alts);
      ReadOneGroup(s, p, nested, items);
    case WRep(it, op, gap) =>
      var tail := [Sign(op)] + GapText(gap);
      Parts(s, p, ItemText(it), tail);
      FirstAt(s, p + |ItemText(it)|, tail);
      ItemBack(s, p, it, nested, items);
      TreeNotEmpty(it);
      SignBack(s, p + |ItemText(it)|, op, gap, nested, items, ItemTree(it));
  }

  lemma {:induction false} ItemsBack(s: string, p: nat, ws: seq<WItem>, nested: bool, items: seq<Item>)
    requires ItemsShape(ws) && Stands(s, p, ItemsText(ws)) && ItemsFit(ws, nested, At(s, p + |ItemsText(ws)|))
    ensures p + |ItemsText(ws)| <= |s|
    ensures ReadSequence(s, p, nested, items) == ReadSequence(s, p + |ItemsText(ws)|, nested, items + ItemsTree(ws))
    decreases ws, 0
  {
    hide ReadSequence, Stands, At, ItemShape, ItemText, ItemFits, ItemTree;
    StandsWithin(s, p, ItemsText(ws));
    if ws == [] {
      assert items + ItemsTree(ws) == items;
    } else {
      var t, rest := ItemText(ws[0]), ItemsText(ws[1..]);
      Parts(s, p, t, rest);
      FirstAt(s, p + |t|, rest);
      ItemBack(s, p, ws[0], nested, items);
      ItemsBack(s, p + |t|, ws[1..], nested, items + [ItemTree(ws[0])]);
      assert items + ItemsTree(ws) == items + [ItemTree(ws[0])] + ItemsTree(ws[1..]);
    }
  }

  /** The characters that end a list of alternates. */
  predicate Stop(c: char) { c == ')' || LineStop(c) }

  lemma {:induction false} NoItemStarts(s: string, p: nat, nested: bool, items: seq<Item>)
    requires p <= |s| && (Stop(At(s, p)) || At(s, p) == '|')
    ensures ReadSequence(s, p, nested, items) == Some((items, p))
  {
    hide ReadSequence;
    ReadEnding(s, p, nested, items);
  }

  lemma {:induction false} ReadAlternatesBy(s: string, p: nat, nested: bool, before: seq<Sequence>)
    requires p <= |s|
    ensures ReadAlternates(s, p, nested, before) ==
      match ReadSequence(s, p, nested, [])
      case None => None
      case Some((items, q)) =>
        if At(s, q) == '|' then ReadAlternates(s, Space(s, q + 1, true), nested, before + [Sequence(items)])
        else Some((before + [Sequence(items)], q))
  {
    hide ReadSequence, Space;
  }

  /** The text after the first alternate. */
  function Further(alts: seq<WSequence>): string
    requires AltsShape(alts) && alts != []
  {
    if |alts| == 1 then "" else "|" + AltsText(alts[1..])
  }

  lemma {:induction false} AltsFirst(alts: seq<WSequence>, nested: bool, stop: char)
    requires alts != [] && AltsShape(alts) && AltsFit(alts, nested, stop)
    ensures ItemsShape(alts[0].items) && AltsShape(alts[1..]) && AltsFit(alts[1..], nested, stop)
    ensures AltsText(alts) == GapText(alts[0].lead) + (ItemsText(alts[0].items) + Further(alts))
    ensures var follow := First(Further(alts), stop);
      && GapOk(alts[0].lead, true, First(ItemsText(alts[0].items), follow))
      && ItemsFit(alts[0].items, nested, follow)
    ensures AltsTree(alts) == [Sequence(ItemsTree(alts[0].items))] + AltsTree(alts[1..])
  {
    hide ItemsShape, ItemsText, ItemsFit, ItemsTree, GapText, GapOk;
  }

  /** The first of several alternates and the bar behind it, or the only one. */
  lemma {:induction false} AltBack(s: string, p: nat, alts: seq<WSequence>, nested: bool, before: seq<Sequence>)
    requires alts != [] && AltsShape(alts) && Stands(s, p, AltsText(alts))
    requires var stop := At(s, p + |AltsText(alts)|); AltsFit(alts, nested, stop) && Stop(stop)
    ensures var e := p + |GapText(alts[0].lead)| + |ItemsText(alts[0].items)|;
      var here := before + [Sequence(ItemsTree(alts[0].items))];
      && p <= e <= |s| && Stands(s, e, Further(alts)) && e + |Further(alts)| == p + |AltsText(alts)|
      && ReadAlternates(s, Space(s, p, true), nested, before) ==
           if At(s, e) == '|' then ReadAlternates(s, Space(s, e + 1, true), nested, here) else Some((here, e))
    decreases alts, 0
  {
    hide ReadSequence, Stands, ItemsShape, ItemsText, ItemsFit, ItemsTree, GapText, GapOk, Space, ReadAlternates,
      LineStop, AltsShape, AltsText, AltsFit, AltsTree, Further, Stop;
    AltsFirst(alts, nested, At(s, p + |AltsText(alts)|));
    var lead, items, more := GapText(alts[0].lead), ItemsText(alts[0].items), Further(alts);
    var q := p + |lead|;
    StandsWithin(s, p, AltsText(alts));
    Parts(s, p, lead, items + more);
    Parts(s, q, items, more);
    FirstAt(s, q, items);
    FirstAt(s, q + |items|, more);
    FurtherIs(alts);
    GapBack(s, p, alts[0].lead, true);
    ItemsBack(s, q, alts[0].items, nested, []);
    NoItemStarts(s, q + |items|, nested, ItemsTree(alts[0].items));
    ReadAlternatesBy(s, q, nested, before);
    assert [] + ItemsTree(alts[0].items) == ItemsTree(alts[0].items);
  }

  lemma {:induction false} FurtherIs(alts: seq<WSequence>)
    requires AltsShape(alts) && alts != []
    ensures Further(alts) == if |alts| == 1 then "" else "|" + AltsText(alts[1..])
  {
  }

  lemma {:induction false} AltsBack(s: string, p: nat, alts: seq<WSequence>, nested: bool, before: seq<Sequence>)
    requires alts != [] && AltsShape(alts) && Stands(s, p, AltsText(alts))
    requires var stop := At(s, p + |AltsText(alts)|); AltsFit(alts, nested, stop) && Stop(stop)
    ensures p <= p + |AltsText(alts)| <= |s|
    ensures ReadAlternates(s, Space(s, p, true), nested, before) ==
      Some((before + AltsTree(alts), p + |AltsText(alts)|))
    decreases alts, 1
  {
    hide ReadSequence, Stands, ItemsShape, ItemsText, ItemsFit, ItemsTree, GapText, GapOk, Space, ReadAlternates,
      LineStop, AltsShape, AltsText, AltsFit, AltsTree, Further, Stop;
    var stop := At(s, p + |AltsText(alts)|);
    StandsWithin(s, p, AltsText(alts));
    AltsFirst(alts, nested, stop);
    AltBack(s, p, alts, nested, before);
    FurtherIs(alts);
    var e := p + |GapText(alts[0].lead)| + |ItemsText(alts[0].items)|;
    var here := before + [Sequence(ItemsTree(alts[0].items))];
    FirstAt(s, e, Further(alts));
    if |alts| > 1 {
      Parts(s, e, "|", AltsText(alts[1..]));
      AltsBack(s, e + 1, alts[1..], nested, here);
      assert before + AltsTree(alts) == here + AltsTree(alts[1..]);
    } else {
      NoAlts();
      StopIsNoBar(stop);
      assert alts[1..] == [] && before + AltsTree(alts) == here;
    }
  }

  lemma {:induction false} NoAlts()
    ensures AltsTree([]) == []
  {
  }

  lemma {:induction false} StopIsNoBar(c: char)
    requires Stop(c)
    ensures c != '|'
  {
  }

  // ---------------------------------------------------------------- rules

  lemma {:induction false} GapIsNoName(gap: Gap)
    requires GapOk(gap, false, ':')
    ensures !NameChar(First(GapText(gap), ':'))
  {
    if gap != [] { GapFirst(gap, false, ':'); }
  }

  lemma {:induction false} SignOfRule(s: string, p: nat)
    requires Stands(s, p, "::=")
    ensures p + 3 <= |s| && At(s, p) == ':' && At(s, p + 1) == ':' && At(s, p + 2) == '='
  {
    var t := s[p..p + 3];
    assert t[0] == s[p] && t[1] == s[p + 1] && t[2] == s[p + 2];
  }

  /** The end of a rule: a line break of one or two characters, or the end of the text. */
  lemma {:induction false} EndingBack(s: string, q: nat, r: WRule)
    requires RuleShape(r) && Stands(s, q, r.ending + GapText(r.after))
    requires RuleFits(r, At(s, q + |r.ending| + |GapText(r.after)|))
    ensures q <= q + |r.ending| + |GapText(r.after)| <= |s|
    ensures var c := At(s, q); var e := q + |r.ending| + |GapText(r.after)|;
      && c == First(r.ending, '\0') && LineStop(c) && (c == '\r' || c == '\n' || c == '\0')
      && (c == '\r' ==>
            && q < |s| && (At(s, q + 1) == '\n' ==> q + 1 < |s|)
            && Space(s, q + if At(s, q + 1) == '\n' then 2 else 1, true) == e)
      && (c == '\n' ==> q < |s| && Space(s, q + 1, true) == e)
      && (c == '\0' ==> Space(s, q, true) == e)
  {
    hide Stands, GapText, GapOk, Space, AltsFit;
    var gap := GapText(r.after);
    StandsWithin(s, q, r.ending + gap);
    Parts(s, q, r.ending, gap);
    FirstAt(s, q, r.ending);
    FirstAt(s, q + |r.ending|, gap);
    GapBack(s, q + |r.ending|, r.after, true);
    if r.ending == "" {
      GapTextNone();
    } else if r.ending == "\r\n" {
      assert r.ending == "\r" + "\n";
      Parts(s, q, "\r", "\n");
      FirstAt(s, q + 1, "\n");
    }
  }

  lemma {:induction false} GapTextNone()
    ensures GapText([]) == ""
  {
  }

  /** The parts of a rule and where they stand. */
  lemma {:induction false} RuleParts(s: string, p: nat, r: WRule)
    requires RuleShape(r) && Stands(s, p, RuleText(r))
    ensures var p1 := p + |r.name|; var p2 := p1 + |GapText(r.gap)|; var q := p2 + 3 + |AltsText(r.alts)|;
      && Stands(s, p, r.name) && Stands(s, p1, GapText(r.gap)) && Stands(s, p2, "::=")
      && Stands(s, p2 + 3, AltsText(r.alts)) && Stands(s, q, r.ending + GapText(r.after))
      && q + |r.ending| + |GapText(r.after)| == p + |RuleText(r)| <= |s|
  {
    hide Stands, GapText, AltsText, AltsShape, NameOk;
    var gap, alts, tail := GapText(r.gap), AltsText(r.alts), r.ending + GapText(r.after);
    StandsWithin(s, p, RuleText(r));
    Parts(s, p, r.name, gap + ("::=" + (alts + tail)));
    Parts(s, p + |r.name|, gap, "::=" + (alts + tail));
    var p2 := p + |r.name| + |gap|;
    Parts(s, p2, "::=", alts + tail);
    Parts(s, p2 + 3, alts, tail);
  }

  lemma {:induction false} RuleFitsIs(r: WRule, follow: char)
    requires RuleShape(r) && RuleFits(r, follow)
    ensures NameOk(r.name) && r.alts != [] && AltsShape(r.alts)
    ensures GapOk(r.gap, false, ':') && AltsFit(r.alts, false, First(r.ending, '\0'))
  {
  }

  lemma {:induction false} RuleBack(s: string, p: nat, r: WRule)
    requires RuleShape(r) && Stands(s, p, RuleText(r)) && RuleFits(r, At(s, p + |RuleText(r)|))
    ensures p <= p + |RuleText(r)| <= |s|
    ensures ReadRule(s, p) == Some((Rule(r.name, AltsTree(r.alts)), p + |RuleText(r)|))
    ensures IsWordChar(At(s, p))
  {
    hide Stands, GapText, GapOk, Space, AltsFit, AltsText, AltsTree, AltsShape, NameOk, NameChar, IsWordChar, NameEnd,
      ReadAlternates, ReadRule, LineStop, At, RuleText, RuleShape, RuleFits;
    RuleFitsIs(r, At(s, p + |RuleText(r)|));
    RuleParts(s, p, r);
    var p1 := p + |r.name|;
    var p2 := p1 + |GapText(r.gap)|;
    SignOfRule(s, p2);
    FirstAt(s, p1, GapText(r.gap));
    GapIsNoName(r.gap);
    NameBack(s, p, r.name);
    GapBack(s, p1, r.gap, false);
    EndingBack(s, p2 + 3 + |AltsText(r.alts)|, r);
    AltsBack(s, p2 + 3, r.alts, false, []);
    assert [] + AltsTree(r.alts) == AltsTree(r.alts);
    ReadRuleBy(s, p);
  }

  lemma {:induction false} ReadRulesBy(s: string, p: nat, before: seq<Rule>)
    requires p <= |s|
    ensures ReadRules(s, p, before) ==
      if At(s, p) == '\0' then Some(before)
      else
        match ReadRule(s, p)
        case None => None
        case Some((r, q)) => ReadRules(s, q, before + [r])
  {
    hide ReadRule;
  }

  lemma {:induction false} WordIsNotEnd(c: char)
    requires IsWordChar(c)
    ensures c != '\0'
  {
  }

  lemma {:induction false} RulesBack(s: string, p: nat, rs: seq<WRule>, before: seq<Rule>)
    requires RulesOk(rs) && Stands(s, p, RulesText(rs)) && p + |RulesText(rs)| == |s|
    ensures ReadRules(s, p, before) == Some(before + RulesTree(rs))
    decreases |rs|
  {
    hide Stands, RuleShape, RuleFits, RuleText, ReadRule, ReadRules, IsWordChar, AltsTree;
    StandsWithin(s, p, RulesText(rs));
    ReadRulesBy(s, p, before);
    if rs == [] {
      assert before + RulesTree(rs) == before;
    } else {
      var t, rest := RuleText(rs[0]), RulesText(rs[1..]);
      Parts(s, p, t, rest);
      FirstAt(s, p + |t|, rest);
      RuleBack(s, p, rs[0]);
      WordIsNotEnd(At(s, p));
      var r := Rule(rs[0].name, AltsTree(rs[0].alts));
      RulesBack(s, p + |t|, rs[1..], before + [r]);
      assert before + RulesTree(rs) == before + [r] + RulesTree(rs[1..]);
    }
  }

  /** Every way of writing a grammar reads as the rules that are written. */
  lemma {:induction false} GrammarBack(lead: Gap, rs: seq<WRule>)
    requires GrammarOk(lead, rs)
    ensures ReadGrammar(GrammarText(lead, rs)) == Some(RulesTree(rs))
  {
    hide RulesOk, RulesText, GapText, GapOk, ReadRules, RulesTree, Space;
    var s := GrammarText(lead, rs);
    assert s[0..0 + |s|] == s;
    Parts(s, 0, GapText(lead), RulesText(rs));
    FirstAt(s, |GapText(lead)|, RulesText(rs));
    GapBack(s, 0, lead, true);
    RulesBack(s, |GapText(lead)|, rs, []);
    assert [] + RulesTree(rs) == RulesTree(rs);
  }
}
