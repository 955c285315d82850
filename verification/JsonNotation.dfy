/**
 JSON texts as they may be written (RFC 8259): every choice of blanks, escapes and digits that stands for a value.
 Nothing here refers to the reader.
 */
module JsonNotation {
  import opened Options
  import opened HexDigits
  import opened JsonTree
  import opened Utf8Definition

  // ---------------------------------------------------------------- strings

  datatype Short = Quote | Backslash | Slash | Backspace | FormFeed | LineFeed | Return | Tab

  function ShortText(e: Short): char
  {
    match e
    case Quote => '"'
    case Backslash => '\\'
    case Slash => '/'
    case Backspace => 'b'
    case FormFeed => 'f'
    case LineFeed => 'n'
    case Return => 'r'
    case Tab => 't'
  }

  function ShortByte(e: Short): char
  {
    match e
    case Quote => '"'
    case Backslash => '\\'
    case Slash => '/'
    case Backspace => 8 as char
    case FormFeed => 12 as char
    case LineFeed => 10 as char
    case Return => 13 as char
    case Tab => 9 as char
  }

  /** A byte as itself, a short escape, a code unit, or two that make a pair; these with the bytes they stand for. */
  datatype Glyph =
    | Plain(c: char)
    | Escaped(e: Short)
    | Unit(ds: seq<Digit>, bytes: string)
    | Pair(high: seq<Digit>, low: seq<Digit>, bytes: string)

  predicate GlyphOk(g: Glyph)
  {
    match g
    case Plain(c) => c != '"' && c != '\\'
    case Escaped(_) => true
    case Unit(ds, bytes) => |ds| == 4 && CodePoint(bytes) == Some(HexNumber(ds))
    case Pair(high, low, bytes) =>
      && |high| == 4 && |low| == 4 && CodePoint(bytes).Some? && 0x10000 <= CodePoint(bytes).value < 0x110000
      && HexNumber(high) == HighSurrogate(CodePoint(bytes).value)
      && HexNumber(low) == LowSurrogate(CodePoint(bytes).value)
  }

  function GlyphText(g: Glyph): string
  {
    match g
    case Plain(c) => [c]
    case Escaped(e) => ['\\', ShortText(e)]
    case Unit(ds, _) => "\\u" + DigitsText(ds)
    case Pair(high, low, _) => "\\u" + (DigitsText(high) + ("\\u" + DigitsText(low)))
  }

  function GlyphBytes(g: Glyph): string
  {
    match g
    case Plain(c) => [c]
    case Escaped(e) => [ShortByte(e)]
    case Unit(_, bytes) => bytes
    case Pair(_, _, bytes) => bytes
  }

  predicate GlyphsOk(gs: seq<Glyph>)
  {
    forall i :: 0 <= i < |gs| ==> GlyphOk(gs[i])
  }

  function GlyphsText(gs: seq<Glyph>): string
  {
    if gs == [] then "" else GlyphText(gs[0]) + GlyphsText(gs[1..])
  }

  function GlyphsBytes(gs: seq<Glyph>): string
  {
    if gs == [] then "" else GlyphBytes(gs[0]) + GlyphsBytes(gs[1..])
  }

  // ---------------------------------------------------------------- values

  /** Blanks may stand before and after every value, key and mark; `lead` before the first. */
  datatype WJson =
    | WNull
    | WFalse
    | WTrue
    | WNumber(text: string, n: int)
    | WString(gs: seq<Glyph>)
    | WArray(lead: string, items: seq<WItem>)
    | WObject(lead: string, members: seq<WMember>)

  datatype WItem = WItem(value: WJson, after: string, lead: string)

  datatype WMember = WMember(key: seq<Glyph>, behind: string, before: string, value: WJson, after: string, lead: string)

  predicate BlankText(t: string)
  {
    forall i :: 0 <= i < |t| ==> t[i] <= 32 as char
  }

  /** The characters of numbers. */
  predicate NumberOk(t: string)
  {
    && 0 < |t| <= 63 && t[0] in "-0123456789"
    && forall i :: 0 <= i < |t| ==> t[i] in "+-.0123456789eE"
  }

  /** `numbers` says which number texts stand for which integers. */
  ghost predicate ValueOk(numbers: string -> Option<int>, w: WJson)
    decreases w, 0
  {
    match w
    case WNumber(text, n) => NumberOk(text) && numbers(text) == Some(n)
    case WString(gs) => GlyphsOk(gs)
    case WArray(lead, items) => BlankText(lead) && ItemsOk(numbers, items)
    case WObject(lead, ms) => BlankText(lead) && MembersOk(numbers, ms)
    case _ => true
  }

  ghost predicate ItemsOk(numbers: string -> Option<int>, items: seq<WItem>)
    decreases items, 0
  {
    items == [] ||
    (&& ValueOk(numbers, items[0].value) && BlankText(items[0].after) && BlankText(items[0].lead)
     && ItemsOk(numbers, items[1..]))
  }

  ghost predicate MembersOk(numbers: string -> Option<int>, ms: seq<WMember>)
    decreases ms, 0
  {
    ms == [] ||
    (&& GlyphsOk(ms[0].key) && BlankText(ms[0].behind) && BlankText(ms[0].before) && ValueOk(numbers, ms[0].value)
     && BlankText(ms[0].after) && BlankText(ms[0].lead) && MembersOk(numbers, ms[1..]))
  }

  function ValueText(w: WJson): string
    decreases w, 0
  {
    match w
    case WNull => "null"
    case WFalse => "false"
    case WTrue => "true"
    case WNumber(text, _) => text
    case WString(gs) => "\"" + (GlyphsText(gs) + "\"")
    case WArray(lead, items) => "[" + (lead + (ItemsText(items) + "]"))
    case WObject(lead, ms) => "{" + (lead + (MembersText(ms) + "}"))
  }

  /** Between two items stand the blanks behind the first, a comma, and its `lead` before the next. */
  function ItemsText(items: seq<WItem>): string
    decreases items, 0
  {
    if items == [] then ""
    else
      ValueText(items[0].value) + (items[0].after +
        if |items| == 1 then "" else "," + (items[0].lead + ItemsText(items[1..])))
  }

  function MembersText(ms: seq<WMember>): string
    decreases ms, 0
  {
    if ms == [] then ""
    else
      var m := ms[0];
      var value := ValueText(m.value) + (m.after +
        if |ms| == 1 then "" else "," + (m.lead + MembersText(ms[1..])));
      "\"" + (GlyphsText(m.key) + ("\"" + (m.behind + (":" + (m.before + value)))))
  }

  function ValueTree(w: WJson): Json
    decreases w, 0
  {
    match w
    case WNull => Null
    case WFalse => False
    case WTrue => True
    case WNumber(_, n) => Number(n)
    case WString(gs) => String(GlyphsBytes(gs))
    case WArray(_, items) => Array(ItemsTree(items))
    case WObject(_, ms) => Object(MembersTree(ms))
  }

  function ItemsTree(items: seq<WItem>): seq<Json>
    decreases items, 0
  {
    if items == [] then [] else [ValueTree(items[0].value)] + ItemsTree(items[1..])
  }

  function MembersTree(ms: seq<WMember>): seq<Member>
    decreases ms, 0
  {
    if ms == [] then []
    else [Member(GlyphsBytes(ms[0].key), ValueTree(ms[0].value))] + MembersTree(ms[1..])
  }
}
