/** The reader takes every way of writing a value for that value, exactly up to the nesting limit. */
module JsonReading {
  import opened Options
  import opened HexDigits
  import opened JsonTree
  import opened JsonText
  import opened Utf8Definition
  import opened JsonNotation
  import RoundTrip = JsonTextRoundTrip

  // ---------------------------------------------------------------- UTF-8

  /** The bytes written for a code point are its one encoding. */
  lemma {:induction false} Utf8Exactly(b: string, cp: nat)
    ensures CodePoint(b) == Some(cp) <==> IsScalar(cp) && b == Utf8(cp)
  {
    if CodePoint(b) == Some(cp) {
      Utf8Decoded(b, cp);
    }
    if IsScalar(cp) && b == Utf8(cp) {
      Utf8Encoded(cp);
    }
  }

  lemma {:induction false} Utf8Encoded(cp: nat)
    requires IsScalar(cp)
    ensures CodePoint(Utf8(cp)) == Some(cp)
  {
    hide CodePoint, Utf8;
    if cp < 0x800 {
      TwoEncoded(cp);
    } else if cp < 0x10000 {
      ThreeEncoded(cp);
    } else {
      FourEncoded(cp);
    }
  }

  lemma {:induction false} TwoEncoded(cp: nat)
    requires cp < 0x800
    ensures CodePoint(Utf8(cp)) == Some(cp)
  {
  }

  lemma {:induction false} ThreeEncoded(cp: nat)
    requires 0x800 <= cp < 0x10000 && IsScalar(cp)
    ensures CodePoint(Utf8(cp)) == Some(cp)
  {
    var b := Utf8(cp);
    Sixes(cp / 64);
    assert cp / 64 / 64 == cp / 4096;
    assert |b| == 3 && WellFormed(b);
  }

  lemma {:induction false} FourEncoded(cp: nat)
    requires 0x10000 <= cp < 0x110000
    ensures CodePoint(Utf8(cp)) == Some(cp)
  {
    var b := Utf8(cp);
    Sixes(cp / 64);
    assert cp / 64 / 64 == cp / 4096 && cp / 4096 / 64 == cp / 262144;
    assert |b| == 4 && WellFormed(b);
  }

  lemma {:induction false} Sixes(n: nat)
    ensures n == 64 * (n / 64) + n % 64
  {
  }

  lemma {:induction false} Utf8Decoded(b: string, cp: nat)
    requires CodePoint(b) == Some(cp)
    ensures IsScalar(cp) && b == Utf8(cp)
  {
    if |b| == 3 {
      var (x, y, z) := (Payload(b[0], 0xE0), Payload(b[1], 0x80), Payload(b[2], 0x80));
      assert cp / 64 == 64 * x + y && cp % 64 == z;
      assert cp / 64 / 64 == x && cp / 64 % 64 == y;
      assert cp / 4096 == x;
    } else if |b| == 4 {
      var (w, x, y, z) :=
        (Payload(b[0], 0xF0), Payload(b[1], 0x80), Payload(b[2], 0x80), Payload(b[3], 0x80));
      assert cp / 64 == 64 * (64 * w + x) + y && cp % 64 == z;
      assert cp / 64 / 64 == 64 * w + x && cp / 64 % 64 == y;
      assert cp / 4096 == 64 * w + x;
      assert cp / 4096 / 64 == w && cp / 4096 % 64 == x;
      assert cp / 262144 == w;
    }
  }

  // ---------------------------------------------------------------- characters

  lemma {:induction false} DigitBack(d: Digit)
    ensures HexValue(d.Text()) == Some(d.value) && d.Text() != '"' && d.Text() != '\\'
  {
    var v := d.value;
    if v < 8 {
      if v < 4 { assert v == 0 || v == 1 || v == 2 || v == 3; } else { assert v == 4 || v == 5 || v == 6 || v == 7; }
    } else if v < 12 {
      assert v == 8 || v == 9 || v == 10 || v == 11;
    } else {
      assert v == 12 || v == 13 || v == 14 || v == 15;
    }
  }

  lemma {:induction false} FourDigits(ds: seq<Digit>)
    requires |ds| == 4
    ensures HexNumber(ds) == 4096 * ds[0].value + 256 * ds[1].value + 16 * ds[2].value + ds[3].value
  {
    assert ds[..3][..2] == ds[..2] && ds[..2][..1] == ds[..1] && ds[..1][..0] == [];
    assert HexNumber(ds[..1]) == ds[0].value;
    assert HexNumber(ds[..2]) == 16 * ds[0].value + ds[1].value;
  }

  /** Four digits in place: their number, and no quote and no backslash among them. */
  lemma {:induction false} UnitBack(buf: string, p: nat, ds: seq<Digit>)
    requires |ds| == 4 && Holds(buf, p, "\\u" + DigitsText(ds))
    ensures p + 6 <= |buf| && buf[p] == '\\' && buf[p + 1] == 'u' && Hex4(buf, p + 2) == HexNumber(ds)
    ensures ClosingQuote(buf, p) == ClosingQuote(buf, p + 6)
  {
    hide Holds, HexValue, HexNumber;
    var t := "\\u" + DigitsText(ds);
    RoundTrip.HoldsAt(buf, p, t, 0);
    RoundTrip.HoldsAt(buf, p, t, 1);
    FourDigits(ds);
    forall i | 0 <= i < 4
      ensures p + 2 + i < |buf| && buf[p + 2 + i] == ds[i].Text()
      ensures HexValue(ds[i].Text()) == Some(ds[i].value) && buf[p + 2 + i] != '"' && buf[p + 2 + i] != '\\'
    {
      RoundTrip.HoldsAt(buf, p, t, 2 + i);
      DigitBack(ds[i]);
    }
    assert buf[p + 2] == ds[0].Text() && buf[p + 3] == ds[1].Text();
    assert buf[p + 4] == ds[2].Text() && buf[p + 5] == ds[3].Text();
    hide ClosingQuote;
    RoundTrip.QuoteStep(buf, p);
    RoundTrip.QuoteStep(buf, p + 2);
    RoundTrip.QuoteStep(buf, p + 3);
    RoundTrip.QuoteStep(buf, p + 4);
    RoundTrip.QuoteStep(buf, p + 5);
  }

  /** What one written character does to the search for the end of the string and to the characters read. */
  ghost predicate Reads(buf: string, p: nat, q: nat, end: nat, bytes: string)
    requires p <= |buf| && q <= |buf| && end < |buf|
  {
    && ClosingQuote(buf, p) == ClosingQuote(buf, q)
    && Unescape(buf, p, end) == match Unescape(buf, q, end) case None => None case Some(s) => Some(bytes + s)
  }

  lemma {:induction false} UnescapeUnicode(buf: string, p: nat, end: nat)
    requires p + 6 <= end < |buf| && buf[p] == '\\' && buf[p + 1] == 'u'
    ensures Unescape(buf, p, end) ==
      match Utf16(buf, p, end)
      case None => None
      case Some((bytes, n)) => match Unescape(buf, p + n, end) case None => None case Some(s) => Some(bytes + s)
  {
    hide Utf16;
  }

  lemma {:induction false} UnitReads(buf: string, p: nat, end: nat, ds: seq<Digit>, bytes: string)
    requires GlyphOk(Unit(ds, bytes)) && Holds(buf, p, "\\u" + DigitsText(ds)) && p + 6 <= end < |buf|
    ensures Reads(buf, p, p + 6, end, bytes)
  {
    hide Holds, Hex4, CodePoint, Unescape, ClosingQuote, Utf8;
    UnitBack(buf, p, ds);
    Utf8Exactly(bytes, HexNumber(ds));
    UnescapeUnicode(buf, p, end);
  }

  lemma {:induction false} PairReads(buf: string, p: nat, end: nat, high: seq<Digit>, low: seq<Digit>, bytes: string)
    requires GlyphOk(Pair(high, low, bytes)) && p + 12 <= end < |buf|
    requires Holds(buf, p, "\\u" + (DigitsText(high) + ("\\u" + DigitsText(low))))
    ensures Reads(buf, p, p + 12, end, bytes)
  {
    hide Holds, Hex4, CodePoint, Unescape, ClosingQuote, Utf8;
    var first, second := "\\u" + DigitsText(high), "\\u" + DigitsText(low);
    assert "\\u" + (DigitsText(high) + ("\\u" + DigitsText(low))) == first + second;
    RoundTrip.HoldsJoin(buf, p, first, second);
    UnitBack(buf, p, high);
    UnitBack(buf, p + 6, low);
    var cp := CodePoint(bytes).value;
    Utf8Exactly(bytes, cp);
    assert 0x10000 + 0x400 * (HexNumber(high) - 0xD800) + (HexNumber(low) - 0xDC00) == cp;
    UnescapeUnicode(buf, p, end);
  }

  lemma {:induction false} GlyphReads(buf: string, p: nat, end: nat, g: Glyph)
    requires GlyphOk(g) && Holds(buf, p, GlyphText(g)) && p + |GlyphText(g)| <= end < |buf|
    ensures Reads(buf, p, p + |GlyphText(g)|, end, GlyphBytes(g))
  {
    hide Utf16, CodePoint;
    RoundTrip.HoldsAt(buf, p, GlyphText(g), 0);
    match g
    case Plain(_) =>
    case Escaped(e) =>
      RoundTrip.HoldsAt(buf, p, GlyphText(g), 1);
      assert Escape(ShortText(e)) == Some(ShortByte(e)) && ShortText(e) != 'u';
    case Unit(ds, bytes) => UnitReads(buf, p, end, ds, bytes);
    case Pair(high, low, bytes) => PairReads(buf, p, end, high, low, bytes);
  }

  lemma {:induction false} GlyphsRead(buf: string, p: nat, gs: seq<Glyph>)
    requires GlyphsOk(gs) && Holds(buf, p, GlyphsText(gs) + "\"")
    ensures var end := p + |GlyphsText(gs)|;
      end < |buf| && ClosingQuote(buf, p) == Some(end) && Unescape(buf, p, end) == Some(GlyphsBytes(gs))
    decreases |gs|
  {
    hide GlyphText, GlyphBytes, GlyphOk, Holds, ClosingQuote, Unescape;
    var text := GlyphsText(gs);
    RoundTrip.HoldsJoin(buf, p, text, "\"");
    RoundTrip.HoldsAt(buf, p + |text|, "\"", 0);
    if gs == [] {
      RoundTrip.AtQuote(buf, p);
    } else {
      var t, rest := GlyphText(gs[0]), GlyphsText(gs[1..]);
      assert text + "\"" == t + (rest + "\"");
      RoundTrip.HoldsJoin(buf, p, t, rest + "\"");
      GlyphsRead(buf, p + |t|, gs[1..]);
      GlyphReads(buf, p, p + |text|, gs[0]);
    }
  }

  /** A string reads as the bytes its characters stand for, and the reader stops behind the closing quote. */
  lemma {:induction false} StringReads(buf: string, off: nat, gs: seq<Glyph>)
    requires GlyphsOk(gs) && Holds(buf, off, "\"" + (GlyphsText(gs) + "\""))
    ensures off + 2 + |GlyphsText(gs)| <= |buf| && buf[off] == '"'
    ensures ReadString(buf, off) == Some((GlyphsBytes(gs), off + 2 + |GlyphsText(gs)|))
  {
    hide GlyphsText, GlyphsBytes, ClosingQuote, Unescape, Holds;
    RoundTrip.HoldsJoin(buf, off, "\"", GlyphsText(gs) + "\"");
    RoundTrip.HoldsAt(buf, off, "\"", 0);
    GlyphsRead(buf, off + 1, gs);
  }

  // ---------------------------------------------------------------- what is refused

  /** The four digits of a low surrogate stand there. */
  ghost predicate LowFollows(buf: string, p: nat)
  {
    exists ds: seq<Digit> :: |ds| == 4 && 0xDC00 <= HexNumber(ds) <= 0xDFFF && Holds(buf, p, "\\u" + DigitsText(ds))
  }

  lemma {:induction false} DigitRead(c: char) returns (d: Digit)
    requires HexValue(c).Some?
    ensures d.Text() == c && HexValue(c) == Some(d.value)
  {
    d := Digit(HexValue(c).value, 'A' <= c <= 'F');
    if 'a' <= c <= 'f' {
      assert c in {'a', 'b', 'c', 'd', 'e', 'f'};
    } else if 'A' <= c <= 'F' {
      assert c in {'A', 'B', 'C', 'D', 'E', 'F'};
    } else {
      assert c in {'0', '1', '2', '3', '4', '5', '6', '7', '8', '9'};
    }
  }

  /** A code unit with a character that is no digit reads as the character U+0000. */
  lemma {:induction false} BadDigitsRead(buf: string, p: nat, end: nat, i: nat)
    requires p + 6 <= end < |buf| && buf[p] == '\\' && buf[p + 1] == 'u'
    requires i < 4 && forall d: Digit :: d.Text() != buf[p + 2 + i]
    ensures Unescape(buf, p, end) ==
      match Unescape(buf, p + 6, end) case None => None case Some(s) => Some([0 as char] + s)
  {
    hide Unescape, HexValue;
    if HexValue(buf[p + 2 + i]).Some? {
      var d := DigitRead(buf[p + 2 + i]);
    }
    assert Hex4(buf, p + 2) == 0;
    UnescapeUnicode(buf, p, end);
  }

  lemma {:induction false} LowRead(buf: string, p: nat)
    requires p + 6 <= |buf| && buf[p] == '\\' && buf[p + 1] == 'u' && 0xDC00 <= Hex4(buf, p + 2) <= 0xDFFF
    ensures LowFollows(buf, p)
  {
    hide HexNumber;
    var a := DigitRead(buf[p + 2]);
    var b := DigitRead(buf[p + 3]);
    var c := DigitRead(buf[p + 4]);
    var d := DigitRead(buf[p + 5]);
    var ds := [a, b, c, d];
    FourDigits(ds);
    assert buf[p..p + 6] == "\\u" + DigitsText(ds);
  }

  /** The digits are those that can be written, with their values. */
  lemma {:induction false} HexExactly(c: char, v: nat)
    ensures HexValue(c) == Some(v) <==> exists d: Digit :: d.Text() == c && d.value == v
  {
    if HexValue(c) == Some(v) {
      var d := DigitRead(c);
    }
    if d: Digit :| d.Text() == c && d.value == v { DigitBack(d); }
  }

  /** The characters behind a backslash, apart from `u`, are those of the short escapes, with their bytes. */
  lemma {:induction false} EscapeExactly(c: char, b: char)
    ensures Escape(c) == Some(b) <==> exists e :: ShortText(e) == c && ShortByte(e) == b
  {
    if Escape(c) == Some(b) {
      var e := if c == 'b' then Backspace else if c == 'f' then FormFeed else if c == 'n' then LineFeed
        else if c == 'r' then Return else if c == 't' then Tab else if c == '"' then Quote
        else if c == '\\' then Backslash else Slash;
      assert ShortText(e) == c && ShortByte(e) == b;
    }
  }

  lemma {:induction false} StrayUnit(buf: string, p: nat, end: nat, ds: seq<Digit>)
    requires |ds| == 4 && Holds(buf, p, "\\u" + DigitsText(ds)) && p + 6 <= end < |buf|
    requires 0xD800 <= HexNumber(ds) <= 0xDFFF && (HexNumber(ds) < 0xDC00 ==> !LowFollows(buf, p + 6))
    ensures Unescape(buf, p, end) == None
  {
    hide Holds, Hex4, Unescape, ClosingQuote, Utf8, LowFollows;
    UnitBack(buf, p, ds);
    UnescapeUnicode(buf, p, end);
    if p + 12 <= end && buf[p + 6] == '\\' && buf[p + 7] == 'u' && 0xDC00 <= Hex4(buf, p + 8) <= 0xDFFF {
      LowRead(buf, p + 6);
    }
  }

  /** A surrogate that is not part of a pair makes the string unreadable, whatever stands before and after it. */
  lemma {:induction false} StraySurrogate(buf: string, off: nat, gs: seq<Glyph>, ds: seq<Digit>)
    requires GlyphsOk(gs) && |ds| == 4
    requires Holds(buf, off, "\"" + (GlyphsText(gs) + ("\\u" + DigitsText(ds))))
    requires var p := off + 1 + |GlyphsText(gs)|;
      0xD800 <= HexNumber(ds) <= 0xDFFF && (HexNumber(ds) < 0xDC00 ==> !LowFollows(buf, p + 6))
    ensures off < |buf| && ReadString(buf, off) == None
  {
    hide GlyphsText, GlyphsBytes, GlyphsOk, ClosingQuote, Unescape, Holds, LowFollows, HexNumber, ReadString, Hex4;
    var text, unit := GlyphsText(gs), "\\u" + DigitsText(ds);
    var p := off + 1 + |text|;
    RoundTrip.HoldsJoin(buf, off, "\"", text + unit);
    RoundTrip.HoldsAt(buf, off, "\"", 0);
    RoundTrip.HoldsJoin(buf, off + 1, text, unit);
    UnitBack(buf, p, ds);
    GlyphsPass(buf, off + 1, gs);
    ReadStringBy(buf, off);
    if ClosingQuote(buf, off + 1).Some? {
      var end := ClosingQuote(buf, off + 1).value;
      GlyphsReadOn(buf, off + 1, end, gs);
      StrayUnit(buf, p, end, ds);
    }
  }

  lemma {:induction false} ReadStringBy(buf: string, off: nat)
    requires off < |buf| && buf[off] == '"'
    ensures ReadString(buf, off) ==
      match ClosingQuote(buf, off + 1)
      case None => None
      case Some(end) => match Unescape(buf, off + 1, end) case None => None case Some(s) => Some((s, end + 1))
  {
    hide ClosingQuote, Unescape;
  }

  /** A backslash in front of anything else makes the string unreadable, whatever stands before and after it. */
  lemma {:induction false} BadEscape(buf: string, off: nat, gs: seq<Glyph>, c: char)
    requires GlyphsOk(gs) && c != 'u' && forall e :: ShortText(e) != c
    requires Holds(buf, off, "\"" + (GlyphsText(gs) + ['\\', c]))
    ensures off < |buf| && ReadString(buf, off) == None
  {
    hide GlyphsText, GlyphsBytes, GlyphsOk, ClosingQuote, Unescape, Holds, ReadString, Escape;
    var text, bad := GlyphsText(gs), ['\\', c];
    var p := off + 1 + |text|;
    RoundTrip.HoldsJoin(buf, off, "\"", text + bad);
    RoundTrip.HoldsAt(buf, off, "\"", 0);
    RoundTrip.HoldsJoin(buf, off + 1, text, bad);
    RoundTrip.HoldsAt(buf, p, bad, 0);
    RoundTrip.HoldsAt(buf, p, bad, 1);
    GlyphsPass(buf, off + 1, gs);
    ReadStringBy(buf, off);
    RoundTrip.QuoteStep(buf, p);
    if ClosingQuote(buf, off + 1).Some? {
      var end := ClosingQuote(buf, off + 1).value;
      GlyphsReadOn(buf, off + 1, end, gs);
      if Escape(c).Some? { EscapeExactly(c, Escape(c).value); }
      BadUnescape(buf, p, end);
    }
  }

  lemma {:induction false} BadUnescape(buf: string, p: nat, end: nat)
    requires p < end < |buf| && buf[p] == '\\' && buf[p + 1] != 'u' && Escape(buf[p + 1]) == None
    ensures Unescape(buf, p, end) == None
  {
  }

  /** Written characters do not end a string. */
  lemma {:induction false} GlyphsPass(buf: string, p: nat, gs: seq<Glyph>)
    requires GlyphsOk(gs) && Holds(buf, p, GlyphsText(gs)) && p + |GlyphsText(gs)| < |buf|
    ensures ClosingQuote(buf, p) == ClosingQuote(buf, p + |GlyphsText(gs)|)
    decreases |gs|
  {
    hide GlyphText, GlyphOk, Holds, ClosingQuote;
    if gs != [] {
      RoundTrip.HoldsJoin(buf, p, GlyphText(gs[0]), GlyphsText(gs[1..]));
      GlyphReads(buf, p, p + |GlyphsText(gs)|, gs[0]);
      GlyphsPass(buf, p + |GlyphText(gs[0])|, gs[1..]);
    }
  }

  lemma {:induction false} GlyphsReadOn(buf: string, p: nat, end: nat, gs: seq<Glyph>)
    requires GlyphsOk(gs) && Holds(buf, p, GlyphsText(gs)) && p + |GlyphsText(gs)| <= end < |buf|
    ensures Unescape(buf, p, end) ==
      match Unescape(buf, p + |GlyphsText(gs)|, end) case None => None case Some(s) => Some(GlyphsBytes(gs) + s)
    decreases |gs|
  {
    hide GlyphText, GlyphBytes, GlyphOk, Holds, Unescape, ClosingQuote;
    if gs == [] {
      var r := Unescape(buf, p, end);
      if r.Some? { assert "" + r.value == r.value; }
    } else {
      var t := GlyphText(gs[0]);
      RoundTrip.HoldsJoin(buf, p, t, GlyphsText(gs[1..]));
      GlyphReads(buf, p, end, gs[0]);
      GlyphsReadOn(buf, p + |t|, end, gs[1..]);
      var r := Unescape(buf, p + |GlyphsText(gs)|, end);
      if r.Some? {
        assert GlyphBytes(gs[0]) + (GlyphsBytes(gs[1..]) + r.value) == GlyphsBytes(gs) + r.value;
      }
    }
  }

  // ---------------------------------------------------------------- values

  /** The texts that the library reads as a number to their end. */
  function Numbers(lib: Library): string -> Option<int>
  {
    t => match lib.strtod(t) case None => None case Some((n, used)) => if used == |t| then Some(n) else None
  }

  lemma {:induction false} ValueStart(numbers: string -> Option<int>, w: WJson)
    requires ValueOk(numbers, w)
    ensures ValueText(w) != "" && RoundTrip.StartChar(ValueText(w)[0])
  {
    hide ItemsText, MembersText, GlyphsText, ItemsOk, MembersOk, GlyphsOk, BlankText;
  }

  lemma {:induction false} NumberReads(lib: Library, buf: string, off: nat, text: string, n: int)
    requires NumberOk(text) && Numbers(lib)(text) == Some(n) && Holds(buf, off, text)
    requires RoundTrip.Ends(buf, off + |text|)
    ensures ReadNumber(lib, buf, off) == Some((JsonTree.Number(n), off + |text|))
  {
    hide Holds, NumberText;
    assert forall i :: 0 <= i < |text| ==> NumberChar(text[i]);
    RoundTrip.NumberTextIs(buf, off, text, 63);
  }

  lemma {:induction false} ScalarReads(lib: Library, buf: string, off: nat, w: WJson, depth: nat)
    requires ValueOk(Numbers(lib), w) && !w.WArray? && !w.WObject?
    requires Holds(buf, off, ValueText(w)) && RoundTrip.Ends(buf, off + |ValueText(w)|)
    ensures ReadValue(lib, buf, off, depth) == Some((ValueTree(w), off + |ValueText(w)|))
  {
    hide ReadString, ReadNumber, ReadItems, ReadMembers, Skip, Numbers, GlyphsText, GlyphsBytes, GlyphsOk, NumberOk;
    ValueStart(Numbers(lib), w);
    RoundTrip.HoldsAt(buf, off, ValueText(w), 0);
    match w
    case WNumber(text, n) =>
      NumberStart(text);
      RoundTrip.NoWords(buf, off);
      NumberReads(lib, buf, off, text, n);
    case WString(gs) =>
      RoundTrip.NoWords(buf, off);
      StringReads(buf, off, gs);
    case WNull =>
    case WFalse => RoundTrip.NotHeld(buf, off, "null");
    case _ =>
      RoundTrip.NotHeld(buf, off, "null");
      RoundTrip.NotHeld(buf, off, "false");
  }

  lemma {:induction false} NumberCharExactly(c: char)
    ensures NumberChar(c) <==> c in "+-.0123456789eE"
  {
    assert |"+-.0123456789eE"| == 15;
    if '0' <= c <= '9' {
      assert c in {'0', '1', '2', '3', '4', '5', '6', '7', '8', '9'};
    }
  }

  lemma {:induction false} NumberStart(text: string)
    requires NumberOk(text)
    ensures text[0] == '-' || '0' <= text[0] <= '9'
  {
  }

  /** Blanks and then something else. */
  lemma {:induction false} BlanksSkipped(buf: string, p: nat, blank: string, text: string)
    requires Holds(buf, p, blank + text) && BlankText(blank) && text != "" && text[0] > 32 as char
    ensures var s := p + |blank|; s < |buf| && Skip(buf, p) == s && Skip(buf, s) == s && Holds(buf, s, text)
    ensures buf[p + |blank|] == text[0]
    ensures p < |buf| && (!NumberChar(text[0]) ==> RoundTrip.Ends(buf, p))
  {
    hide Skip, Holds;
    assert blank + ("" + text) == blank + text && "" + text == text;
    RoundTrip.BlankRun(buf, p, blank, "", text);
    RoundTrip.HoldsAt(buf, p, blank + text, 0);
    if blank != "" {
      assert buf[p] == blank[0];
      BlankIsNoNumber(buf[p]);
    }
  }

  lemma {:induction false} BlankIsNoNumber(c: char)
    requires c <= 32 as char
    ensures !NumberChar(c)
  {
  }

  /** Blanks, a comma, blanks, and what comes next. */
  lemma {:induction false} CommaSkipped(buf: string, q: nat, after: string, lead: string, text: string)
    requires Holds(buf, q, after + ("," + (lead + text))) && BlankText(after) && BlankText(lead)
    requires text != "" && text[0] > 32 as char
    ensures var e := q + |after|; var s := e + 1 + |lead|;
      && RoundTrip.Ends(buf, q) && Skip(buf, q) == e && e < |buf| && buf[e] == ','
      && s < |buf| && Skip(buf, e + 1) == s && Skip(buf, s) == s && Holds(buf, s, text)
  {
    hide Holds, Skip, RoundTrip.Ends, BlankText;
    var more := lead + text;
    BlanksSkipped(buf, q, after, "," + more);
    RoundTrip.HoldsJoin(buf, q + |after|, ",", more);
    BlanksSkipped(buf, q + |after| + 1, lead, text);
  }

  /** The text behind the value of the first item, with the closing bracket. */
  function AfterItem(items: seq<WItem>): string
    requires items != []
  {
    items[0].after + if |items| == 1 then "]" else "," + (items[0].lead + (ItemsText(items[1..]) + "]"))
  }

  lemma {:induction false} ItemsFirst(numbers: string -> Option<int>, items: seq<WItem>)
    requires items != [] && ItemsOk(numbers, items)
    ensures ItemsText(items) + "]" == ValueText(items[0].value) + AfterItem(items)
    ensures |ItemsText(items)| + 1 == |ValueText(items[0].value)| + |AfterItem(items)|
    ensures ValueOk(numbers, items[0].value) && ItemsOk(numbers, items[1..])
    ensures BlankText(items[0].after) && BlankText(items[0].lead)
    ensures ItemsTree(items) == [ValueTree(items[0].value)] + ItemsTree(items[1..])
    ensures RoundTrip.ItemsDepth(ItemsTree(items)) ==
      RoundTrip.Max(RoundTrip.Depth(ValueTree(items[0].value)), RoundTrip.ItemsDepth(ItemsTree(items[1..])))
  {
    hide ValueText, ValueTree, RoundTrip.Depth, ValueOk, BlankText;
    var t := ItemsTree(items);
    assert t[1..] == ItemsTree(items[1..]);
    var v, after, lead, more := ValueText(items[0].value), items[0].after, items[0].lead, ItemsText(items[1..]);
    if |items| == 1 {
      assert v + (after + "") + "]" == v + (after + "]");
    } else {
      assert v + (after + ("," + (lead + more))) + "]" == v + (after + ("," + (lead + (more + "]"))));
    }
  }

  lemma {:induction false} ItemsBegin(numbers: string -> Option<int>, items: seq<WItem>)
    requires items != [] && ItemsOk(numbers, items)
    ensures ItemsText(items) != "" && RoundTrip.StartChar(ItemsText(items)[0]) && ItemsText(items)[0] > 32 as char
  {
    hide ValueText;
    ValueStart(numbers, items[0].value);
  }

  lemma {:induction false} AfterItemIs(items: seq<WItem>)
    requires items != []
    ensures AfterItem(items) == items[0].after +
      if items[1..] == [] then "]" else "," + (items[0].lead + (ItemsText(items[1..]) + "]"))
  {
  }

  /** What follows an item: the closing bracket, or a comma and the next item. */
  lemma {:induction false} BehindItem(numbers: string -> Option<int>, buf: string, q: nat, items: seq<WItem>)
    requires items != [] && ItemsOk(numbers, items) && Holds(buf, q, AfterItem(items))
    ensures var e := Skip(buf, q); var rest := items[1..];
      && RoundTrip.Ends(buf, q) && e < |buf| && buf[e] == (if rest == [] then ']' else ',')
      && (rest == [] ==> e + 1 == q + |AfterItem(items)|)
      && (rest != [] ==>
            var s := Skip(buf, e + 1);
            && s < |buf| && Skip(buf, s) == s && Holds(buf, s, ItemsText(rest) + "]")
            && s + |ItemsText(rest)| + 1 == q + |AfterItem(items)|)
  {
    hide Holds, Skip, ItemsText, RoundTrip.Ends, ItemsOk, BlankText, AfterItem;
    ItemsFirst(numbers, items);
    AfterItemIs(items);
    var rest := items[1..];
    if rest == [] {
      BlanksSkipped(buf, q, items[0].after, "]");
    } else {
      ItemsBegin(numbers, rest);
      CommaSkipped(buf, q, items[0].after, items[0].lead, ItemsText(rest) + "]");
    }
  }

  lemma {:induction false} ItemsRead(lib: Library, buf: string, p: nat, items: seq<WItem>, depth: nat)
    requires items != [] && ItemsOk(Numbers(lib), items) && depth <= NESTING_LIMIT
    requires p <= |buf| && Skip(buf, p) < |buf| && Holds(buf, Skip(buf, p), ItemsText(items) + "]")
    ensures ReadItems(lib, buf, p, depth) ==
      RoundTrip.Expected(depth + RoundTrip.ItemsDepth(ItemsTree(items)) <= NESTING_LIMIT, ItemsTree(items),
                         Skip(buf, p) + |ItemsText(items)| + 1)
    decreases items, 1
  {
    hide Numbers, Holds, Skip, ItemsText, ItemsTree, AfterItem, ValueText, ValueTree, ItemsOk, ValueOk, ReadItems,
      ReadValue, RoundTrip.Max, RoundTrip.Depth, RoundTrip.ItemsDepth, RoundTrip.Ends;
    var start, rest := Skip(buf, p), items[1..];
    var v := ValueText(items[0].value);
    ItemsFirst(Numbers(lib), items);
    RoundTrip.HoldsJoin(buf, start, v, AfterItem(items));
    BehindItem(Numbers(lib), buf, start + |v|, items);
    ValueReads(lib, buf, start, items[0].value, depth);
    RoundTrip.ItemsStep(lib, buf, p, depth);
    RoundTrip.Larger(RoundTrip.Depth(ValueTree(items[0].value)), RoundTrip.ItemsDepth(ItemsTree(rest)));
    if rest == [] {
      NoItems();
      assert [ValueTree(items[0].value)] + [] == [ValueTree(items[0].value)];
    } else {
      ItemsRead(lib, buf, Skip(buf, start + |v|) + 1, rest, depth);
    }
  }

  lemma {:induction false} NoItems()
    ensures ItemsTree([]) == [] && RoundTrip.ItemsDepth([]) == 0 && ItemsText([]) == ""
  {
  }

  lemma {:induction false} ArrayReads(lib: Library, buf: string, off: nat, lead: string, items: seq<WItem>, depth: nat)
    requires var w := WArray(lead, items);
      ValueOk(Numbers(lib), w) && Holds(buf, off, ValueText(w)) && depth <= NESTING_LIMIT
    ensures var w := WArray(lead, items);
      ReadValue(lib, buf, off, depth) ==
        RoundTrip.Expected(depth + RoundTrip.Depth(ValueTree(w)) <= NESTING_LIMIT, ValueTree(w), off + |ValueText(w)|)
    decreases items, 2
  {
    hide Numbers, Holds, Skip, ItemsText, ItemsTree, ItemsOk, ReadItems, ReadValue, RoundTrip.ItemsDepth, BlankText;
    var inner := ItemsText(items) + "]";
    RoundTrip.HoldsJoin(buf, off, "[", lead + inner);
    RoundTrip.HoldsAt(buf, off, "[", 0);
    NoItems();
    if items != [] { ItemsBegin(Numbers(lib), items); } else { assert inner == "]"; }
    BlanksSkipped(buf, off + 1, lead, inner);
    RoundTrip.ReadArray(lib, buf, off, depth);
    if items != [] && depth < NESTING_LIMIT { ItemsRead(lib, buf, Skip(buf, off + 1), items, depth + 1); }
  }

  lemma {:induction false} ValueReads(lib: Library, buf: string, off: nat, w: WJson, depth: nat)
    requires ValueOk(Numbers(lib), w) && Holds(buf, off, ValueText(w)) && RoundTrip.Ends(buf, off + |ValueText(w)|)
    requires depth <= NESTING_LIMIT
    ensures ReadValue(lib, buf, off, depth) ==
      RoundTrip.Expected(depth + RoundTrip.Depth(ValueTree(w)) <= NESTING_LIMIT, ValueTree(w), off + |ValueText(w)|)
    decreases w, 3
  {
    hide Numbers, Holds, ValueText, ReadValue, ItemsTree, MembersTree, ValueOk, RoundTrip.Ends;
    match w
    case WArray(lead, items) => ArrayReads(lib, buf, off, lead, items, depth);
    case WObject(lead, ms) => ObjectReads(lib, buf, off, lead, ms, depth);
    case _ => ScalarReads(lib, buf, off, w, depth);
  }

  lemma {:induction false} ObjectReads(lib: Library, buf: string, off: nat, lead: string, ms: seq<WMember>, depth: nat)
    requires var w := WObject(lead, ms);
      ValueOk(Numbers(lib), w) && Holds(buf, off, ValueText(w)) && depth <= NESTING_LIMIT
    ensures var w := WObject(lead, ms);
      ReadValue(lib, buf, off, depth) ==
        RoundTrip.Expected(depth + RoundTrip.Depth(ValueTree(w)) <= NESTING_LIMIT, ValueTree(w), off + |ValueText(w)|)
    decreases ms, 2
  {
    hide Numbers, Holds, Skip, MembersText, MembersTree, MembersOk, ReadMembers, ReadValue, RoundTrip.MembersDepth,
      BlankText;
    var inner := MembersText(ms) + "}";
    RoundTrip.HoldsJoin(buf, off, "{", lead + inner);
    RoundTrip.HoldsAt(buf, off, "{", 0);
    NoMembers();
    if ms != [] { MembersBegin(ms); } else { assert inner == "}"; }
    BlanksSkipped(buf, off + 1, lead, inner);
    RoundTrip.ReadObject(lib, buf, off, depth);
    if ms != [] && depth < NESTING_LIMIT { MembersRead(lib, buf, Skip(buf, off + 1), ms, depth + 1); }
  }

  lemma {:induction false} NoMembers()
    ensures MembersTree([]) == [] && RoundTrip.MembersDepth([]) == 0 && MembersText([]) == ""
  {
  }

  lemma {:induction false} MembersBegin(ms: seq<WMember>)
    requires ms != []
    ensures MembersText(ms) != "" && MembersText(ms)[0] == '"'
  {
    hide ValueText, GlyphsText;
  }

  /** The text behind the value of the first member, with the closing brace. */
  function AfterMember(ms: seq<WMember>): string
    requires ms != []
  {
    ms[0].after + if |ms| == 1 then "}" else "," + (ms[0].lead + (MembersText(ms[1..]) + "}"))
  }

  function KeyText(m: WMember): string { "\"" + (GlyphsText(m.key) + "\"") }

  lemma {:induction false} MembersFirst(numbers: string -> Option<int>, ms: seq<WMember>)
    requires ms != [] && MembersOk(numbers, ms)
    ensures var m := ms[0]; var v := ValueText(m.value);
      && MembersText(ms) + "}" == KeyText(m) + (m.behind + (":" + (m.before + (v + AfterMember(ms)))))
      && |MembersText(ms)| + 1 ==
           |KeyText(m)| + |m.behind| + 1 + |m.before| + |v| + |AfterMember(ms)|
    ensures ValueOk(numbers, ms[0].value) && MembersOk(numbers, ms[1..]) && GlyphsOk(ms[0].key)
    ensures BlankText(ms[0].behind) && BlankText(ms[0].before) && BlankText(ms[0].after) && BlankText(ms[0].lead)
    ensures MembersTree(ms) == [Member(GlyphsBytes(ms[0].key), ValueTree(ms[0].value))] + MembersTree(ms[1..])
    ensures RoundTrip.MembersDepth(MembersTree(ms)) ==
      RoundTrip.Max(RoundTrip.Depth(ValueTree(ms[0].value)), RoundTrip.MembersDepth(MembersTree(ms[1..])))
  {
    hide ValueText, ValueTree, RoundTrip.Depth, ValueOk, BlankText, GlyphsText, GlyphsBytes, GlyphsOk;
    var t, m := MembersTree(ms), ms[0];
    assert t[1..] == MembersTree(ms[1..]);
    var v, more := ValueText(m.value), MembersText(ms[1..]);
    var tail := m.after + if |ms| == 1 then "" else "," + (m.lead + more);
    assert tail + "}" == AfterMember(ms) by {
      if |ms| == 1 {
        assert m.after + "" + "}" == m.after + "}";
      } else {
        assert m.after + ("," + (m.lead + more)) + "}" == m.after + ("," + (m.lead + (more + "}")));
      }
    }
    Regroup(GlyphsText(m.key), m.behind, m.before, v, tail);
  }

  lemma {:induction false} Regroup(key: string, behind: string, before: string, v: string, tail: string)
    ensures "\"" + (key + ("\"" + (behind + (":" + (before + (v + tail)))))) + "}" ==
      "\"" + (key + "\"") + (behind + (":" + (before + (v + (tail + "}")))))
  {
  }

  /** The key, the colon and the place of the value. */
  lemma {:induction false} KeyReads(numbers: string -> Option<int>, buf: string, start: nat, ms: seq<WMember>)
    requires ms != [] && MembersOk(numbers, ms) && Holds(buf, start, MembersText(ms) + "}")
    ensures var m := ms[0]; var q := start + |KeyText(m)|; var c := q + |m.behind|; var s := c + 1 + |m.before|;
      && start < |buf| && ReadString(buf, start) == Some((GlyphsBytes(m.key), q)) && q <= |buf| && Skip(buf, q) == c
      && c < |buf| && buf[c] == ':' && Skip(buf, c + 1) == s && s <= |buf|
      && Holds(buf, s, ValueText(m.value) + AfterMember(ms))
      && s + |ValueText(m.value)| + |AfterMember(ms)| == start + |MembersText(ms)| + 1
  {
    hide Holds, Skip, MembersText, MembersOk, GlyphsText, GlyphsBytes, GlyphsOk, ValueText, ValueOk, BlankText,
      ReadString, AfterMember;
    MembersFirst(numbers, ms);
    var m := ms[0];
    var text := ValueText(m.value) + AfterMember(ms);
    var q := start + |KeyText(m)|;
    var c := q + |m.behind|;
    RoundTrip.HoldsJoin(buf, start, KeyText(m), m.behind + (":" + (m.before + text)));
    StringReads(buf, start, m.key);
    BlanksSkipped(buf, q, m.behind, ":" + (m.before + text));
    RoundTrip.HoldsJoin(buf, c, ":", m.before + text);
    ValueStart(numbers, m.value);
    BlanksSkipped(buf, c + 1, m.before, text);
  }

  lemma {:induction false} AfterMemberIs(ms: seq<WMember>)
    requires ms != []
    ensures AfterMember(ms) == ms[0].after +
      if ms[1..] == [] then "}" else "," + (ms[0].lead + (MembersText(ms[1..]) + "}"))
  {
  }

  /** What follows a member: the closing brace, or a comma and the next member. */
  lemma {:induction false} BehindMember(numbers: string -> Option<int>, buf: string, q: nat, ms: seq<WMember>)
    requires ms != [] && MembersOk(numbers, ms) && Holds(buf, q, AfterMember(ms))
    ensures var e := Skip(buf, q); var rest := ms[1..];
      && RoundTrip.Ends(buf, q) && e < |buf| && buf[e] == (if rest == [] then '}' else ',')
      && (rest == [] ==> e + 1 == q + |AfterMember(ms)|)
      && (rest != [] ==>
            var s := Skip(buf, e + 1);
            && s < |buf| && Skip(buf, s) == s && Holds(buf, s, MembersText(rest) + "}")
            && s + |MembersText(rest)| + 1 == q + |AfterMember(ms)|)
  {
    hide Holds, Skip, MembersText, RoundTrip.Ends, MembersOk, BlankText, AfterMember;
    MembersFirst(numbers, ms);
    AfterMemberIs(ms);
    var rest := ms[1..];
    if rest == [] {
      BlanksSkipped(buf, q, ms[0].after, "}");
    } else {
      MembersBegin(rest);
      CommaSkipped(buf, q, ms[0].after, ms[0].lead, MembersText(rest) + "}");
    }
  }

  lemma {:induction false} MembersRead(lib: Library, buf: string, p: nat, ms: seq<WMember>, depth: nat)
    requires ms != [] && MembersOk(Numbers(lib), ms) && depth <= NESTING_LIMIT
    requires p < |buf| && Skip(buf, p) < |buf| && Holds(buf, Skip(buf, p), MembersText(ms) + "}")
    ensures ReadMembers(lib, buf, p, depth) ==
      RoundTrip.Expected(depth + RoundTrip.MembersDepth(MembersTree(ms)) <= NESTING_LIMIT, MembersTree(ms),
                         Skip(buf, p) + |MembersText(ms)| + 1)
    decreases ms, 1
  {
    hide Numbers, Holds, Skip, MembersText, MembersTree, AfterMember, KeyText, ValueText, ValueTree, MembersOk, ValueOk,
      ReadMembers, ReadValue, ReadString, RoundTrip.Max, RoundTrip.Depth, RoundTrip.MembersDepth, RoundTrip.Ends;
    var start, m, rest := Skip(buf, p), ms[0], ms[1..];
    var v := ValueText(m.value);
    MembersFirst(Numbers(lib), ms);
    KeyReads(Numbers(lib), buf, start, ms);
    var s := start + |KeyText(m)| + |m.behind| + 1 + |m.before|;
    RoundTrip.HoldsJoin(buf, s, v, AfterMember(ms));
    BehindMember(Numbers(lib), buf, s + |v|, ms);
    ValueReads(lib, buf, s, m.value, depth);
    RoundTrip.MembersStep(lib, buf, p, depth);
    RoundTrip.Larger(RoundTrip.Depth(ValueTree(m.value)), RoundTrip.MembersDepth(MembersTree(rest)));
    if rest == [] {
      NoMembers();
      var only := Member(GlyphsBytes(m.key), ValueTree(m.value));
      assert [only] + [] == [only];
    } else {
      MembersRead(lib, buf, Skip(buf, s + |v|) + 1, rest, depth);
    }
  }

  // ---------------------------------------------------------------- whole texts

  const MARK := [0xEF as char, 0xBB as char, 0xBF as char]

  function Text(mark: bool, lead: string, v: string, tail: string): string
  {
    (if mark then MARK else "") + (lead + (v + tail))
  }

  /** Where the parts of a text stand in a buffer. */
  lemma {:induction false} Places(buf: string, mark: bool, lead: string, v: string, tail: string)
    requires var front := if mark then MARK else "";
      buf == front + (lead + (v + (tail + [0 as char])))
    requires BlankText(lead) && BlankText(tail) && v != "" && RoundTrip.StartChar(v[0])
    ensures var start := Skip(buf, MarkEnd(buf));
      && start < |buf| && Holds(buf, start, v) && start + |v| < |buf| && RoundTrip.Ends(buf, start + |v|)
      && Skip(buf, start + |v|) < |buf| && buf[Skip(buf, start + |v|)] == 0 as char
  {
    hide Holds, Skip, MarkEnd, BlankText, RoundTrip.Ends, RoundTrip.StartChar;
    var front, t := if mark then MARK else "", tail + [0 as char];
    StartPlace(buf, mark, lead, v + t);
    RoundTrip.HoldsJoin(buf, |front| + |lead|, v, t);
    TailEnds(buf, |front| + |lead| + |v|, tail);
  }

  lemma {:induction false} StartPlace(buf: string, mark: bool, lead: string, rest: string)
    requires var front := if mark then MARK else ""; buf == front + (lead + rest)
    requires BlankText(lead) && |rest| >= 2 && RoundTrip.StartChar(rest[0])
    ensures var start := (if mark then 3 else 0) + |lead|;
      Skip(buf, MarkEnd(buf)) == start && Holds(buf, start, rest)
  {
    hide Holds, Skip, MarkEnd, BlankText, RoundTrip.StartChar;
    var front := if mark then MARK else "";
    InPlace(buf);
    RoundTrip.HoldsJoin(buf, 0, front, lead + rest);
    MarkFound(mark, lead, rest);
    StartIsNoBlank(rest);
    BlanksSkipped(buf, |front|, lead, rest);
  }

  /** A text, with or without a byte order mark, that has blanks around a value; deeper nesting is refused. */
  lemma {:induction false} TextReads(lib: Library, mark: bool, lead: string, w: WJson, tail: string, strict: bool)
    requires ValueOk(Numbers(lib), w) && BlankText(lead) && BlankText(tail)
    ensures Read(lib, Text(mark, lead, ValueText(w), tail), strict) ==
      if RoundTrip.Depth(ValueTree(w)) <= NESTING_LIMIT then Some(ValueTree(w)) else None
  {
    hide Numbers, ValueText, ValueTree, ValueOk, ReadValue, RoundTrip.Depth, Holds, Skip, MarkEnd, BlankText,
      RoundTrip.Ends, RoundTrip.StartChar, Text;
    ValueStart(Numbers(lib), w);
    var buf := Text(mark, lead, ValueText(w), tail) + [0 as char];
    TextIs(mark, lead, ValueText(w), tail);
    Places(buf, mark, lead, ValueText(w), tail);
    ValueReads(lib, buf, Skip(buf, MarkEnd(buf)), w, 0);
  }

  lemma {:induction false} TextIs(mark: bool, lead: string, v: string, tail: string)
    ensures Text(mark, lead, v, tail) + [0 as char] ==
      (if mark then MARK else "") + (lead + (v + (tail + [0 as char])))
  {
  }

  lemma {:induction false} InPlace(buf: string)
    ensures Holds(buf, 0, buf)
  {
    assert buf[0..|buf|] == buf;
  }

  lemma {:induction false} StartIsNoBlank(t: string)
    requires t != "" && RoundTrip.StartChar(t[0])
    ensures t[0] > 32 as char
  {
  }

  lemma {:induction false} MarkFound(mark: bool, lead: string, text: string)
    requires BlankText(lead) && |text| >= 2 && RoundTrip.StartChar(text[0])
    ensures MarkEnd((if mark then MARK else "") + (lead + text)) == if mark then 3 else 0
  {
    assert (lead + text)[0] == if lead == "" then text[0] else lead[0];
  }

  lemma {:induction false} TailEnds(buf: string, q: nat, tail: string)
    requires Holds(buf, q, tail + [0 as char]) && BlankText(tail) && q + |tail| + 1 == |buf|
    ensures q < |buf| && RoundTrip.Ends(buf, q) && Skip(buf, q) < |buf| && buf[Skip(buf, q)] == 0 as char
  {
    hide Skip;
    var t := tail + [0 as char];
    forall i | q <= i < |buf|
      ensures buf[i] <= 32 as char
    {
      RoundTrip.HoldsAt(buf, q, t, i - q);
    }
    RoundTrip.HoldsAt(buf, q, t, |tail|);
    AllBlank(buf, q);
  }

  lemma {:induction false} AllBlank(buf: string, p: nat)
    requires p < |buf| && forall i :: p <= i < |buf| ==> buf[i] <= 32 as char
    ensures Skip(buf, p) == |buf| - 1
  {
    BlankToEnd(buf, p);
  }

  lemma {:induction false} BlankToEnd(buf: string, p: nat)
    requires p <= |buf| && forall i :: p <= i < |buf| ==> buf[i] <= 32 as char
    ensures BlankEnd(buf, p) == |buf|
    decreases |buf| - p
  {
    if p < |buf| { BlankToEnd(buf, p + 1); }
  }

  /** The text is one of the ways of writing the value. */
  ghost predicate Written(lib: Library, text: string, j: Json)
  {
    exists mark, lead, w, tail :: ValueOk(Numbers(lib), w) && BlankText(lead) && BlankText(tail)
                                  && text == Text(mark, lead, ValueText(w), tail) && j == ValueTree(w)
  }

  lemma {:induction false} WrittenReads(lib: Library, text: string, strict: bool)
    ensures forall j :: Written(lib, text, j) ==>
      Read(lib, text, strict) == if RoundTrip.Depth(j) <= NESTING_LIMIT then Some(j) else None
  {
    hide Numbers, ValueText, ValueTree, ValueOk, RoundTrip.Depth, BlankText, Text, Read;
    forall j | Written(lib, text, j)
      ensures Read(lib, text, strict) == if RoundTrip.Depth(j) <= NESTING_LIMIT then Some(j) else None
    {
      var mark, lead, w, tail :| ValueOk(Numbers(lib), w) && BlankText(lead) && BlankText(tail)
        && text == Text(mark, lead, ValueText(w), tail) && j == ValueTree(w);
      TextReads(lib, mark, lead, w, tail, strict);
    }
  }
}
