/** Which lists of rules can be written at all: each has a plain way of writing, with every character as a number. */
module EbnfPlain {
  import opened EbnfSyntax
  import opened EbnfNotation
  import opened HexDigits

  const SPACE: Gap := [Blank(' ')]
  const CODES: nat := 0x1_0000_0000

  // ---------------------------------------------------------------- what can be written

  predicate RangeWritable(r: Range)
  {
    match r
    case One(c) => c < CODES
    case Upto(lo, hi) => lo < CODES && hi < CODES
  }

  /** Characters have 32 bits, names are names, groups are not empty and nothing empty is repeated. */
  predicate ItemWritable(i: Item)
    decreases i, 0
  {
    match i
    case Lit(cs) => forall k :: 0 <= k < |cs| ==> cs[k] < CODES
    case Class(_, rs) => forall k :: 0 <= k < |rs| ==> RangeWritable(rs[k])
    case Ref(name) => NameOk(name)
    case Group(alts) => alts != [] && AltsWritable(alts)
    case Rep(it, _) => ItemWritable(it) && it != Lit([]) && !(it.Class? && it.ranges == [])
  }

  predicate ItemsWritable(items: seq<Item>)
    decreases items, 0
  {
    items == [] || (ItemWritable(items[0]) && ItemsWritable(items[1..]))
  }

  predicate AltsWritable(alts: seq<Sequence>)
    decreases alts, 0
  {
    alts == [] || (ItemsWritable(alts[0].items) && AltsWritable(alts[1..]))
  }

  /** An empty last alternate takes the end of the line for a blank, so only the last rule can end with one. */
  predicate RulesWritable(rules: seq<Rule>)
  {
    rules == [] ||
    var r := rules[0];
    && NameOk(r.name) && r.alts != [] && AltsWritable(r.alts)
    && (|rules| > 1 ==> r.alts[|r.alts| - 1].items != [])
    && RulesWritable(rules[1..])
  }

  // ---------------------------------------------------------------- plain writing

  function Digits(v: nat, n: nat): (ds: seq<Digit>)
    ensures |ds| == n
  {
    if n == 0 then [] else Digits(v / 16, n - 1) + [Digit(v % 16, false)]
  }

  function Sixteens(n: nat): nat { if n == 0 then 1 else 16 * Sixteens(n - 1) }

  lemma {:induction false} DigitsNumber(v: nat, n: nat)
    requires v < Sixteens(n)
    ensures HexNumber(Digits(v, n)) == v
  {
    if n > 0 {
      DigitsNumber(v / 16, n - 1);
      assert Digits(v, n)[..n - 1] == Digits(v / 16, n - 1);
    }
  }

  function PlainGlyph(c: nat): Glyph { Hex(Digits(c, 8)) }

  lemma {:induction false} GlyphPlain(c: nat, closing: char)
    requires c < CODES
    ensures GlyphOk(PlainGlyph(c), closing) && GlyphValue(PlainGlyph(c)) == c
    ensures |GlyphText(PlainGlyph(c))| == 10 && GlyphText(PlainGlyph(c))[0] == '\\'
  {
    assert Sixteens(8) == CODES;
    DigitsNumber(c, 8);
  }

  function PlainGlyphs(cs: Word): (gs: seq<Glyph>)
    ensures |gs| == |cs|
  {
    seq(|cs|, i requires 0 <= i < |cs| => PlainGlyph(cs[i]))
  }

  lemma {:induction false} GlyphsPlain(cs: Word)
    requires forall k :: 0 <= k < |cs| ==> cs[k] < CODES
    ensures GlyphsOk(PlainGlyphs(cs)) && GlyphValues(PlainGlyphs(cs)) == cs
    decreases |cs|
  {
    hide PlainGlyph, GlyphOk, GlyphValue;
    forall k | 0 <= k < |cs|
      ensures GlyphOk(PlainGlyphs(cs)[k], '"')
    {
      GlyphPlain(cs[k], '"');
    }
    if cs != [] {
      GlyphsPlain(cs[1..]);
      GlyphPlain(cs[0], '"');
      assert PlainGlyphs(cs)[1..] == PlainGlyphs(cs[1..]);
    }
  }

  function PlainRange(r: Range): WRange
  {
    match r
    case One(c) => Lone(PlainGlyph(c))
    case Upto(lo, hi) => Dash(PlainGlyph(lo), PlainGlyph(hi))
  }

  function PlainRanges(rs: seq<Range>): (r: seq<WRange>)
    ensures |r| == |rs|
  {
    if rs == [] then [] else [PlainRange(rs[0])] + PlainRanges(rs[1..])
  }

  lemma {:induction false} RangePlain(r: Range)
    requires RangeWritable(r)
    ensures RangeOk(PlainRange(r)) && RangeTree(PlainRange(r)) == r
    ensures RangeText(PlainRange(r)) != "" && RangeText(PlainRange(r))[0] == '\\'
  {
    hide PlainGlyph, GlyphOk, GlyphValue, GlyphText;
    match r
    case One(c) => GlyphPlain(c, ']');
    case Upto(lo, hi) =>
      GlyphPlain(lo, ']');
      GlyphPlain(hi, ']');
  }

  lemma {:induction false} RangesPlain(rs: seq<Range>)
    requires forall k :: 0 <= k < |rs| ==> RangeWritable(rs[k])
    ensures RangesOk(PlainRanges(rs)) && RangesTree(PlainRanges(rs)) == rs
    ensures First(RangesText(PlainRanges(rs)), ']') in {'\\', ']'}
    decreases |rs|
  {
    hide PlainRange, RangeOk, RangeText, RangeTree;
    if rs != [] {
      RangePlain(rs[0]);
      RangesPlain(rs[1..]);
      assert PlainRanges(rs)[1..] == PlainRanges(rs[1..]);
    }
  }

  function PlainItem(i: Item): WItem
    decreases i, 0
  {
    match i
    case Lit(cs) => WLit(PlainGlyphs(cs), SPACE)
    case Class(neg, rs) => WClass(neg, PlainRanges(rs), SPACE)
    case Ref(name) => WRef(name, SPACE)
    case Group(alts) => WGroup(PlainAlts(alts), SPACE)
    case Rep(it, op) => WRep(PlainItem(it), op, SPACE)
  }

  function PlainItems(items: seq<Item>): (r: seq<WItem>)
    ensures |r| == |items|
    decreases items, 0
  {
    if items == [] then [] else [PlainItem(items[0])] + PlainItems(items[1..])
  }

  function PlainAlts(alts: seq<Sequence>): (r: seq<WSequence>)
    ensures |r| == |alts|
    decreases alts, 0
  {
    if alts == [] then [] else [WSequence(SPACE, PlainItems(alts[0].items))] + PlainAlts(alts[1..])
  }

  /** What may stand behind a gap of one space. */
  predicate Behind(c: char, newlines: bool) { c !in {' ', '\t', '#'} && (newlines ==> c !in {'\r', '\n'}) }

  lemma {:induction false} SpaceFits(newlines: bool, follow: char)
    requires Behind(follow, newlines)
    ensures GapOk(SPACE, newlines, follow) && GapText(SPACE) == " "
  {
    assert SPACE[1..] == [];
  }

  lemma {:induction false} ItemPlain(i: Item, nested: bool, follow: char)
    requires ItemWritable(i) && Behind(follow, nested)
    ensures ItemShape(PlainItem(i)) && ItemFits(PlainItem(i), nested, follow) && ItemTree(PlainItem(i)) == i
    ensures ItemText(PlainItem(i)) != "" && Behind(ItemText(PlainItem(i))[0], true)
    decreases i, 0
  {
    hide GapText, GapOk, PlainRanges, RangesOk, RangesTree, RangesText, PlainGlyphs, GlyphsOk, GlyphValues, GlyphsText,
      AltsShape, AltsText, AltsFit, AltsTree, PlainAlts, AltsWritable, NameChar;
    SpaceFits(nested, follow);
    match i
    case Lit(cs) => GlyphsPlain(cs);
    case Class(_, rs) => RangesPlain(rs);
    case Ref(name) => NameBegins(name);
    case Group(alts) => AltsPlain(alts, true, ')');
    case Rep(it, op) => ItemPlain(it, nested, Sign(op));
  }

  lemma {:induction false} NameBegins(name: string)
    requires NameOk(name)
    ensures Behind(name[0], true) && !NameChar(' ')
  {
  }

  lemma {:induction false} ItemsPlain(items: seq<Item>, nested: bool, follow: char)
    requires ItemsWritable(items) && Behind(follow, nested)
    ensures var ws := PlainItems(items);
      ItemsShape(ws) && ItemsFit(ws, nested, follow) && ItemsTree(ws) == items
      && (items != [] ==> ItemsText(ws) != "" && Behind(ItemsText(ws)[0], true))
    decreases items, 0
  {
    hide ItemShape, ItemText, ItemFits, ItemTree, ItemWritable, PlainItem;
    if items != [] {
      var ws := PlainItems(items);
      assert ws[1..] == PlainItems(items[1..]);
      ItemsPlain(items[1..], nested, follow);
      ItemPlain(items[0], nested, First(ItemsText(ws[1..]), follow));
    }
  }

  /** The end of a line may follow only where the last alternate is not empty. */
  lemma {:induction false} AltsPlain(alts: seq<Sequence>, nested: bool, stop: char)
    requires AltsWritable(alts) && Behind(stop, nested)
    requires alts != [] && (Behind(stop, true) || alts[|alts| - 1].items != [])
    ensures var ws := PlainAlts(alts); AltsShape(ws) && AltsFit(ws, nested, stop) && AltsTree(ws) == alts
    decreases alts, 0
  {
    hide ItemsShape, ItemsText, ItemsFit, ItemsTree, ItemsWritable, PlainItems, GapText, GapOk;
    var ws := PlainAlts(alts);
    var follow := if |alts| == 1 then stop else '|';
    assert ws[1..] == PlainAlts(alts[1..]);
    ItemsPlain(alts[0].items, nested, follow);
    NoItems();
    SpaceFits(true, First(ItemsText(ws[0].items), follow));
    if |alts| > 1 { AltsPlain(alts[1..], nested, stop); } else { assert alts[1..] == []; }
  }

  lemma {:induction false} NoItems()
    ensures PlainItems([]) == [] && ItemsText([]) == ""
  {
  }

  function PlainRule(r: Rule, last: bool): WRule
  {
    WRule(r.name, SPACE, PlainAlts(r.alts), if last then "" else "\n", [])
  }

  function PlainRules(rules: seq<Rule>): (rs: seq<WRule>)
    ensures |rs| == |rules|
  {
    if rules == [] then [] else [PlainRule(rules[0], |rules| == 1)] + PlainRules(rules[1..])
  }

  lemma {:induction false} RulesPlain(rules: seq<Rule>)
    requires RulesWritable(rules)
    ensures var rs := PlainRules(rules);
      RulesOk(rs) && RulesTree(rs) == rules && Behind(First(RulesText(rs), '\0'), true)
    decreases |rules|
  {
    hide GapText, PlainAlts, AltsShape, AltsText, AltsFit, AltsTree, AltsWritable, NameChar;
    if rules != [] {
      var r, rs := rules[0], PlainRules(rules);
      assert rs[1..] == PlainRules(rules[1..]);
      RulesPlain(rules[1..]);
      SpaceFits(false, ':');
      NameBegins(r.name);
      AltsPlain(r.alts, false, if |rules| == 1 then '\0' else '\n');
      NoGapText();
    }
  }

  lemma {:induction false} NoGapText()
    ensures GapText([]) == ""
  {
  }

  /** Every list of writable rules is written by some text. */
  lemma {:induction false} EveryGrammarIsWritten(rules: seq<Rule>) returns (s: string)
    requires RulesWritable(rules)
    ensures Written(s, rules)
  {
    hide PlainRules, RulesOk, RulesText, RulesTree;
    RulesPlain(rules);
    var rs := PlainRules(rules);
    assert GrammarOk([], rs);
    s := GrammarText([], rs);
  }

  // ---------------------------------------------------------------- nothing else can be written

  lemma {:induction false} NumberBound(ds: seq<Digit>)
    ensures HexNumber(ds) < Sixteens(|ds|)
    decreases |ds|
  {
    if ds != [] { NumberBound(ds[..|ds| - 1]); }
  }

  lemma {:induction false} GlyphBound(g: Glyph, closing: char)
    requires GlyphOk(g, closing)
    ensures GlyphValue(g) < CODES
  {
    hide HexNumber;
    assert Sixteens(8) == CODES;
    if g.Hex? { NumberBound(g.digits); }
  }

  lemma {:induction false} GlyphsBound(gs: seq<Glyph>)
    requires GlyphsOk(gs)
    ensures |GlyphValues(gs)| == |gs| && forall k :: 0 <= k < |gs| ==> GlyphValues(gs)[k] < CODES
    decreases |gs|
  {
    hide GlyphOk, GlyphValue;
    if gs != [] {
      GlyphBound(gs[0], '"');
      GlyphsBound(gs[1..]);
    }
  }

  lemma {:induction false} RangesBound(rs: seq<WRange>)
    requires RangesOk(rs)
    ensures |RangesTree(rs)| == |rs| && forall k :: 0 <= k < |rs| ==> RangeWritable(RangesTree(rs)[k])
    decreases |rs|
  {
    hide GlyphOk, GlyphValue, GlyphText;
    if rs != [] {
      match rs[0] {
        case Lone(g) => GlyphBound(g, ']');
        case Dash(lo, hi) =>
          GlyphBound(lo, ']');
          GlyphBound(hi, ']');
      }
      RangesBound(rs[1..]);
    }
  }

  lemma {:induction false} ItemBound(w: WItem)
    requires ItemShape(w)
    ensures ItemWritable(ItemTree(w))
    decreases w, 0
  {
    hide RangesOk, RangesTree, RangesText, GlyphsOk, AltsShape, AltsTree, AltsWritable, NameOk, RangeWritable;
    match w
    case WLit(gs, _) => GlyphsBound(gs);
    case WClass(_, rs, _) => RangesBound(rs);
    case WRef(_, _) =>
    case WGroup(alts, _) => AltsBound(alts);
    case WRep(it, _, _) =>
      ItemBound(it);
      TreeNotEmpty(it);
  }

  lemma {:induction false} TreeNotEmpty(w: WItem)
    requires !(w.WLit? && w.gs == []) && !(w.WClass? && w.ranges == [])
    ensures ItemTree(w) != Lit([]) && !(ItemTree(w).Class? && ItemTree(w).ranges == [])
  {
  }

  lemma {:induction false} ItemsBound(ws: seq<WItem>)
    requires ItemsShape(ws)
    ensures ItemsWritable(ItemsTree(ws))
    decreases ws, 0
  {
    hide ItemShape, ItemTree, ItemWritable;
    if ws != [] {
      ItemBound(ws[0]);
      ItemsBound(ws[1..]);
      assert ItemsTree(ws)[1..] == ItemsTree(ws[1..]);
    }
  }

  lemma {:induction false} AltsBound(alts: seq<WSequence>)
    requires AltsShape(alts)
    ensures AltsWritable(AltsTree(alts))
    decreases alts, 0
  {
    hide ItemsShape, ItemsTree, ItemsWritable;
    if alts != [] {
      ItemsBound(alts[0].items);
      AltsBound(alts[1..]);
      assert AltsTree(alts)[1..] == AltsTree(alts[1..]);
    }
  }

  lemma {:induction false} NoBlankBehind(gap: Gap, newlines: bool, follow: char)
    requires GapOk(gap, newlines, follow)
    ensures !BlankChar(follow, newlines)
    decreases |gap|
  {
    hide LineStop, BlankChar, GapText;
    if gap != [] { NoBlankBehind(gap[1..], newlines, follow); }
  }

  lemma {:induction false} LastNotEmpty(alts: seq<WSequence>, nested: bool, stop: char)
    requires AltsShape(alts) && alts != [] && AltsFit(alts, nested, stop) && LineBreak(stop)
    ensures AltsTree(alts)[|alts| - 1].items != []
    decreases |alts|
  {
    hide ItemsShape, ItemsFit, GapOk;
    if |alts| > 1 {
      LastNotEmpty(alts[1..], nested, stop);
      assert AltsTree(alts)[|alts| - 1] == AltsTree(alts[1..])[|alts| - 2];
    } else if alts[0].items == [] {
      NoItemText();
      NoBlankBehind(alts[0].lead, true, stop);
    }
  }

  lemma {:induction false} NoItemText()
    ensures ItemsText([]) == ""
  {
  }

  lemma {:induction false} RulesBound(rs: seq<WRule>)
    requires RulesOk(rs)
    ensures RulesWritable(RulesTree(rs)) && |RulesTree(rs)| == |rs|
    ensures rs != [] ==> RulesText(rs) != "" && RulesText(rs)[0] != '\0'
    decreases |rs|
  {
    hide GapText, GapOk, AltsShape, AltsText, AltsFit, AltsTree, AltsWritable, NameChar;
    if rs != [] {
      var r := rs[0];
      NameNotNul(r.name);
      AltsBound(r.alts);
      RulesBound(rs[1..]);
      assert RulesTree(rs)[1..] == RulesTree(rs[1..]);
      if |rs| > 1 { LastNotEmpty(r.alts, false, First(r.ending, '\0')); }
    }
  }

  lemma {:induction false} NameNotNul(name: string)
    requires NameOk(name)
    ensures name[0] != '\0'
  {
  }

  /** A list of rules can be written if and only if it is writable in this sense. */
  lemma {:induction false} WritableExactly(rules: seq<Rule>)
    ensures RulesWritable(rules) <==> exists s :: Written(s, rules)
  {
    hide RulesWritable, RulesOk, RulesText, RulesTree, GapOk;
    if RulesWritable(rules) {
      var s := EveryGrammarIsWritten(rules);
    }
    if s :| Written(s, rules) {
      var lead: Gap, rs: seq<WRule> :| GrammarOk(lead, rs) && s == GrammarText(lead, rs) && rules == RulesTree(rs);
      RulesBound(rs);
    }
  }
}
