/**
 The grammar notation as it is written: every choice of escapes, blanks and comments that stands for a list of rules.
 Nothing here refers to the reader; `EbnfReading` proves that the reader takes exactly these texts.
 */
module EbnfNotation {
  import opened EbnfSyntax
  import opened HexDigits

  /** The first character of a text, or what follows an empty one. */
  function First(t: string, follow: char): char
  {
    if t == "" then follow else t[0]
  }

  // ---------------------------------------------------------------- characters

  /** What names are made of. */
  predicate NameChar(c: char)
  {
    c in {'a', 'b', 'c', 'd', 'e', 'f', 'g', 'h', 'i', 'j', 'k', 'l', 'm'}
    || c in {'n', 'o', 'p', 'q', 'r', 's', 't', 'u', 'v', 'w', 'x', 'y', 'z'}
    || c in {'A', 'B', 'C', 'D', 'E', 'F', 'G', 'H', 'I', 'J', 'K', 'L', 'M'}
    || c in {'N', 'O', 'P', 'Q', 'R', 'S', 'T', 'U', 'V', 'W', 'X', 'Y', 'Z'}
    || c in {'0', '1', '2', '3', '4', '5', '6', '7', '8', '9', '-'}
  }

  datatype Short = Newline | Return | Tab | Backslash | Quote | Open | Close

  /** One way of writing a character: as itself, by a short escape, or by its number in two, four or eight digits. */
  datatype Glyph = Plain(c: char) | Escape(short: Short) | Hex(digits: seq<Digit>)

  predicate GlyphOk(g: Glyph, closing: char)
  {
    match g
    case Plain(c) => c != '\\' && c != '\0' && c != closing
    case Escape(_) => true
    case Hex(ds) => |ds| in {2, 4, 8}
  }

  function GlyphText(g: Glyph): string
  {
    match g
    case Plain(c) => [c]
    case Escape(Newline) => "\\n"
    case Escape(Return) => "\\r"
    case Escape(Tab) => "\\t"
    case Escape(Backslash) => "\\\\"
    case Escape(Quote) => "\\\""
    case Escape(Open) => "\\["
    case Escape(Close) => "\\]"
    case Hex(ds) => (if |ds| == 2 then "\\x" else if |ds| == 4 then "\\u" else "\\U") + DigitsText(ds)
  }

  function GlyphValue(g: Glyph): nat
  {
    match g
    case Plain(c) => c as nat
    case Escape(Newline) => 10
    case Escape(Return) => 13
    case Escape(Tab) => 9
    case Escape(Backslash) => '\\' as nat
    case Escape(Quote) => '"' as nat
    case Escape(Open) => '[' as nat
    case Escape(Close) => ']' as nat
    case Hex(ds) => HexNumber(ds)
  }

  predicate GlyphsOk(gs: seq<Glyph>)
  {
    forall i :: 0 <= i < |gs| ==> GlyphOk(gs[i], '"')
  }

  function GlyphsText(gs: seq<Glyph>): string
  {
    if gs == [] then "" else GlyphText(gs[0]) + GlyphsText(gs[1..])
  }

  function GlyphValues(gs: seq<Glyph>): Word
  {
    if gs == [] then [] else [GlyphValue(gs[0])] + GlyphValues(gs[1..])
  }

  /** A member of a class: a character, or two with a dash between them. */
  datatype WRange = Lone(g: Glyph) | Dash(lo: Glyph, hi: Glyph)

  predicate RangeOk(r: WRange)
  {
    match r
    case Lone(g) => GlyphOk(g, ']')
    case Dash(lo, hi) => GlyphOk(lo, ']') && GlyphOk(hi, ']')
  }

  function RangeText(r: WRange): string
  {
    match r
    case Lone(g) => GlyphText(g)
    case Dash(lo, hi) => GlyphText(lo) + "-" + GlyphText(hi)
  }

  function RangeTree(r: WRange): Range
  {
    match r
    case Lone(g) => One(GlyphValue(g))
    case Dash(lo, hi) => Upto(GlyphValue(lo), GlyphValue(hi))
  }

  /** After a lone character a dash may be written as itself only at the end of the class. */
  predicate RangesOk(rs: seq<WRange>)
  {
    rs == [] ||
    (&& RangeOk(rs[0]) && RangesOk(rs[1..])
     && (rs[0].Lone? && First(RangesText(rs[1..]), ']') == '-' ==> RangesText(rs[1..]) == "-"))
  }

  function RangesText(rs: seq<WRange>): string
  {
    if rs == [] then "" else RangeText(rs[0]) + RangesText(rs[1..])
  }

  function RangesTree(rs: seq<WRange>): seq<Range>
  {
    if rs == [] then [] else [RangeTree(rs[0])] + RangesTree(rs[1..])
  }

  // ---------------------------------------------------------------- blanks and comments

  datatype Piece = Blank(c: char) | Comment(body: string)

  type Gap = seq<Piece>

  function PieceText(p: Piece): string
  {
    match p
    case Blank(c) => [c]
    case Comment(body) => "#" + body
  }

  function GapText(gap: Gap): string
  {
    if gap == [] then "" else PieceText(gap[0]) + GapText(gap[1..])
  }

  predicate LineBreak(c: char) { c in {'\r', '\n'} }

  predicate BlankChar(c: char, newlines: bool) { c in {' ', '\t'} || (newlines && LineBreak(c)) }

  /** Where a comment ends: at a line break or at the end of the text. */
  predicate LineStop(c: char) { LineBreak(c) || c == '\0' }

  /** A comment goes to the end of its line, and what follows the gap is neither a blank nor a comment. */
  predicate GapOk(gap: Gap, newlines: bool, follow: char)
  {
    if gap == [] then !BlankChar(follow, newlines) && follow != '#'
    else
      && GapOk(gap[1..], newlines, follow)
      && match gap[0]
         case Blank(c) => BlankChar(c, newlines)
         case Comment(body) =>
           && (forall i :: 0 <= i < |body| ==> !LineStop(body[i]))
           && LineStop(First(GapText(gap[1..]), follow))
  }

  // ---------------------------------------------------------------- items, sequences, alternates

  /** Every item ends with a gap; every sequence begins with the one behind `(`, `|` or `::=`. */
  datatype WItem =
    | WLit(gs: seq<Glyph>, gap: Gap)
    | WClass(neg: bool, ranges: seq<WRange>, gap: Gap)
    | WRef(name: string, gap: Gap)
    | WGroup(alts: seq<WSequence>, gap: Gap)
    | WRep(item: WItem, op: Op, gap: Gap)

  datatype WSequence = WSequence(lead: Gap, items: seq<WItem>)

  function Sign(op: Op): char
  {
    match op
    case Star => '*'
    case Plus => '+'
    case Opt => '?'
  }

  predicate NameOk(name: string)
  {
    name != "" && forall i :: 0 <= i < |name| ==> NameChar(name[i])
  }

  /** Characters and names are ones that can be written. */
  predicate ItemShape(w: WItem)
    decreases w, 0
  {
    match w
    case WLit(gs, _) => GlyphsOk(gs)
    case WClass(neg, rs, _) => RangesOk(rs) && (!neg ==> First(RangesText(rs), ']') != '^')
    case WRef(name, _) => NameOk(name)
    case WGroup(alts, _) => alts != [] && AltsShape(alts)
    case WRep(it, _, _) => ItemShape(it) && !(it.WLit? && it.gs == []) && !(it.WClass? && it.ranges == [])
  }

  predicate ItemsShape(ws: seq<WItem>)
    decreases ws, 0
  {
    ws == [] || (ItemShape(ws[0]) && ItemsShape(ws[1..]))
  }

  predicate AltsShape(alts: seq<WSequence>)
    decreases alts, 0
  {
    alts == [] || (ItemsShape(alts[0].items) && AltsShape(alts[1..]))
  }

  function ItemText(w: WItem): string
    requires ItemShape(w)
    decreases w, 0
  {
    match w
    case WLit(gs, gap) => "\"" + (GlyphsText(gs) + ("\"" + GapText(gap)))
    case WClass(neg, rs, gap) => (if neg then "[^" else "[") + (RangesText(rs) + ("]" + GapText(gap)))
    case WRef(name, gap) => name + GapText(gap)
    case WGroup(alts, gap) => "(" + (AltsText(alts) + (")" + GapText(gap)))
    case WRep(it, op, gap) => ItemText(it) + ([Sign(op)] + GapText(gap))
  }

  function ItemsText(ws: seq<WItem>): string
    requires ItemsShape(ws)
    decreases ws, 0
  {
    if ws == [] then "" else ItemText(ws[0]) + ItemsText(ws[1..])
  }

  function AltsText(alts: seq<WSequence>): string
    requires AltsShape(alts)
    decreases alts, 0
  {
    if alts == [] then ""
    else
      GapText(alts[0].lead) + (ItemsText(alts[0].items) + if |alts| == 1 then "" else "|" + AltsText(alts[1..]))
  }

  function ItemTree(w: WItem): Item
    decreases w, 0
  {
    match w
    case WLit(gs, _) => Lit(GlyphValues(gs))
    case WClass(neg, rs, _) => Class(neg, RangesTree(rs))
    case WRef(name, _) => Ref(name)
    case WGroup(alts, _) => Group(AltsTree(alts))
    case WRep(it, op, _) => Rep(ItemTree(it), op)
  }

  function ItemsTree(ws: seq<WItem>): (r: seq<Item>)
    ensures |r| == |ws|
    decreases ws, 0
  {
    if ws == [] then [] else [ItemTree(ws[0])] + ItemsTree(ws[1..])
  }

  function AltsTree(alts: seq<WSequence>): (r: seq<Sequence>)
    ensures |r| == |alts|
    decreases alts, 0
  {
    if alts == [] then [] else [Sequence(ItemsTree(alts[0].items))] + AltsTree(alts[1..])
  }

  /** The gaps fit what comes after them; line breaks are blanks inside brackets and where a sequence begins. */
  predicate ItemFits(w: WItem, nested: bool, follow: char)
    requires ItemShape(w)
    decreases w, 0
  {
    match w
    case WLit(_, gap) => GapOk(gap, nested, follow)
    case WClass(_, _, gap) => GapOk(gap, nested, follow)
    case WRef(_, gap) => GapOk(gap, nested, follow) && !NameChar(First(GapText(gap), follow))
    case WGroup(alts, gap) => AltsFit(alts, true, ')') && GapOk(gap, nested, follow)
    case WRep(it, op, gap) => ItemFits(it, nested, Sign(op)) && GapOk(gap, nested, follow)
  }

  predicate ItemsFit(ws: seq<WItem>, nested: bool, follow: char)
    requires ItemsShape(ws)
    decreases ws, 0
  {
    ws == [] || (ItemFits(ws[0], nested, First(ItemsText(ws[1..]), follow)) && ItemsFit(ws[1..], nested, follow))
  }

  predicate AltsFit(alts: seq<WSequence>, nested: bool, stop: char)
    requires AltsShape(alts)
    decreases alts, 0
  {
    alts == [] ||
    var follow := if |alts| == 1 then stop else '|';
    && GapOk(alts[0].lead, true, First(ItemsText(alts[0].items), follow))
    && ItemsFit(alts[0].items, nested, follow)
    && AltsFit(alts[1..], nested, stop)
  }

  // ---------------------------------------------------------------- rules

  /** A name, a gap, `::=`, the alternates, the end of the line and the gap behind it. */
  datatype WRule = WRule(name: string, gap: Gap, alts: seq<WSequence>, ending: string, after: Gap)

  predicate RuleShape(r: WRule)
  {
    NameOk(r.name) && r.alts != [] && AltsShape(r.alts) && r.ending in {"", "\n", "\r", "\r\n"}
  }

  function RuleText(r: WRule): string
    requires RuleShape(r)
  {
    r.name + (GapText(r.gap) + ("::=" + (AltsText(r.alts) + (r.ending + GapText(r.after)))))
  }

  /** Only the end of the text stands for a missing end of line. */
  predicate RuleFits(r: WRule, follow: char)
    requires RuleShape(r)
  {
    && GapOk(r.gap, false, ':')
    && AltsFit(r.alts, false, First(r.ending, '\0'))
    && GapOk(r.after, true, follow)
    && (r.ending == "" ==> r.after == [] && follow == '\0')
    && (r.ending == "\r" ==> First(GapText(r.after), follow) != '\n')
  }

  predicate RulesOk(rs: seq<WRule>)
    decreases |rs|, 0
  {
    rs == [] || (RuleShape(rs[0]) && RulesOk(rs[1..]) && RuleFits(rs[0], First(RulesText(rs[1..]), '\0')))
  }

  function RulesText(rs: seq<WRule>): string
    requires RulesOk(rs)
    decreases |rs|, 1
  {
    if rs == [] then "" else RuleText(rs[0]) + RulesText(rs[1..])
  }

  function RulesTree(rs: seq<WRule>): seq<Rule>
  {
    if rs == [] then [] else [Rule(rs[0].name, AltsTree(rs[0].alts))] + RulesTree(rs[1..])
  }

  predicate GrammarOk(lead: Gap, rs: seq<WRule>)
  {
    RulesOk(rs) && GapOk(lead, true, First(RulesText(rs), '\0'))
  }

  function GrammarText(lead: Gap, rs: seq<WRule>): string
    requires GrammarOk(lead, rs)
  {
    GapText(lead) + RulesText(rs)
  }

  /** The text is one of the ways of writing these rules. */
  ghost predicate Written(s: string, rules: seq<Rule>)
  {
    exists lead: Gap, rs: seq<WRule> :: GrammarOk(lead, rs) && s == GrammarText(lead, rs) && rules == RulesTree(rs)
  }
}
