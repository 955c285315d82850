/** Reading what was printed gives the value back, formatted or not, exactly up to the nesting limit. */
module JsonTextRoundTrip {
  import opened Options
  import opened Decimals
  import opened JsonTree
  import opened JsonNotation
  import opened JsonText

  // ---------------------------------------------------------------- texts in place

  lemma {:induction false} HoldsJoin(buf: string, off: nat, a: string, b: string)
    requires Holds(buf, off, a + b)
    ensures Holds(buf, off, a) && Holds(buf, off + |a|, b)
  {
    assert a == (a + b)[..|a|] == buf[off..off + |a|];
    assert b == (a + b)[|a|..] == buf[off + |a|..off + |a + b|];
  }

  lemma {:induction false} HoldsAt(buf: string, off: nat, a: string, i: nat)
    requires Holds(buf, off, a) && i < |a|
    ensures off + i < |buf| && buf[off + i] == a[i]
  {
    assert buf[off..off + |a|][i] == a[i];
  }

  /** Blanks from one position to another, where something else stands. */
  ghost predicate Blanks(buf: string, p: nat, t: nat)
  {
    p <= t < |buf| && buf[t] > 32 as char && forall i :: p <= i < t ==> buf[i] <= 32 as char
  }

  lemma {:induction false} BlankEndIs(buf: string, p: nat, t: nat)
    requires Blanks(buf, p, t)
    ensures BlankEnd(buf, p) == t
    decreases t - p
  {
    if p < t { BlankEndIs(buf, p + 1, t); }
  }

  lemma {:induction false} SkipBlanks(buf: string, p: nat, t: nat)
    requires Blanks(buf, p, t)
    ensures Skip(buf, p) == t
  {
    hide BlankEnd;
    BlankEndIs(buf, p, t);
  }

  // ---------------------------------------------------------------- strings

  lemma {:induction false} PlainHex(n: nat)
    requires n < 16
    ensures HexValue(HexDigit(n)) == Some(n) && HexDigit(n) != '"' && HexDigit(n) != '\\'
  {
  }

  /** A control character as four hexadecimal digits. */
  lemma {:induction false} ControlBack(buf: string, p: nat, c: char)
    requires c < 32 as char
    requires Holds(buf, p, ['\\', 'u', '0', '0', HexDigit((c as int) / 16), HexDigit((c as int) % 16)])
    ensures Hex4(buf, p + 2) == c as int
  {
    hide HexDigit;
    var t := ['\\', 'u', '0', '0', HexDigit((c as int) / 16), HexDigit((c as int) % 16)];
    HoldsAt(buf, p, t, 2);
    HoldsAt(buf, p, t, 3);
    HoldsAt(buf, p, t, 4);
    HoldsAt(buf, p, t, 5);
    PlainHex((c as int) / 16);
    PlainHex((c as int) % 16);
  }

  lemma {:induction false} Utf16Back(buf: string, p: nat, end: nat, c: char)
    requires c < 32 as char && p + 6 <= end <= |buf| && Hex4(buf, p + 2) == c as int
    ensures Utf16(buf, p, end) == Some(([c], 6))
  {
    hide Hex4;
  }

  predicate ShortEscape(c: char)
  {
    c == '\\' || c == '"' || c == 8 as char || c == 12 as char || c == '\n' || c == '\r' || c == '\t'
  }

  /** One printed character, read back; the quote that closes the string is not inside it. */
  lemma {:induction false} CharBack(buf: string, p: nat, end: nat, c: char)
    requires var t := PrintedChar(c); Holds(buf, p, t) && p + |t| <= end < |buf|
    ensures var q := p + |PrintedChar(c)|;
      && ClosingQuote(buf, p) == ClosingQuote(buf, q)
      && Unescape(buf, p, end) == match Unescape(buf, q, end) case None => None case Some(s) => Some([c] + s)
  {
    hide Utf16, HexDigit;
    var t := PrintedChar(c);
    HoldsAt(buf, p, t, 0);
    if c > 31 as char && !ShortEscape(c) {
    } else if ShortEscape(c) {
      HoldsAt(buf, p, t, 1);
      assert Escape(t[1]) == Some(c) && t[1] != 'u';
    } else {
      ControlChar(buf, p, end, c);
    }
  }

  lemma {:induction false} ControlChar(buf: string, p: nat, end: nat, c: char)
    requires c <= 31 as char && !ShortEscape(c)
    requires Holds(buf, p, PrintedChar(c)) && p + |PrintedChar(c)| <= end < |buf|
    ensures var q := p + |PrintedChar(c)|;
      && ClosingQuote(buf, p) == ClosingQuote(buf, q)
      && Unescape(buf, p, end) == match Unescape(buf, q, end) case None => None case Some(s) => Some([c] + s)
  {
    var t := PrintedChar(c);
    ControlBack(buf, p, c);
    Utf16Back(buf, p, end, c);
    HoldsAt(buf, p, t, 0);
    HoldsAt(buf, p, t, 1);
    HoldsAt(buf, p, t, 2);
    HoldsAt(buf, p, t, 3);
    HoldsAt(buf, p, t, 4);
    HoldsAt(buf, p, t, 5);
    PlainHex((c as int) / 16);
    PlainHex((c as int) % 16);
    hide Utf16, HexDigit, PrintedChar, Holds;
    QuoteStep(buf, p);
    QuoteStep(buf, p + 2);
    QuoteStep(buf, p + 3);
    QuoteStep(buf, p + 4);
    QuoteStep(buf, p + 5);
  }

  lemma {:induction false} QuoteStep(buf: string, p: nat)
    requires p < |buf|
    ensures buf[p] == '\\' && p + 1 < |buf| ==> ClosingQuote(buf, p) == ClosingQuote(buf, p + 2)
    ensures buf[p] != '\\' && buf[p] != '"' ==> ClosingQuote(buf, p) == ClosingQuote(buf, p + 1)
  {
  }

  lemma {:induction false} CharsBack(buf: string, p: nat, s: string)
    requires Holds(buf, p, PrintedChars(s) + "\"")
    ensures var end := p + |PrintedChars(s)|;
      end < |buf| && ClosingQuote(buf, p) == Some(end) && Unescape(buf, p, end) == Some(s)
    decreases |s|
  {
    hide PrintedChar, Holds, ClosingQuote, Unescape;
    var text := PrintedChars(s);
    HoldsJoin(buf, p, text, "\"");
    HoldsAt(buf, p + |text|, "\"", 0);
    if s == "" {
      AtQuote(buf, p);
    } else {
      var c, rest := s[0], PrintedChars(s[1..]);
      assert text + "\"" == PrintedChar(c) + (rest + "\"");
      HoldsJoin(buf, p, PrintedChar(c), rest + "\"");
      CharsBack(buf, p + |PrintedChar(c)|, s[1..]);
      CharBack(buf, p, p + |text|, c);
      assert [c] + s[1..] == s;
    }
  }

  lemma {:induction false} AtQuote(buf: string, p: nat)
    requires p < |buf| && buf[p] == '"'
    ensures ClosingQuote(buf, p) == Some(p) && Unescape(buf, p, p) == Some("")
  {
  }

  /** A printed string reads back, whatever characters it has. */
  lemma {:induction false} StringBack(buf: string, off: nat, s: string)
    requires Holds(buf, off, Quoted(s))
    ensures off < |buf| && buf[off] == '"' && ReadString(buf, off) == Some((s, off + |Quoted(s)|))
  {
    hide PrintedChars, ClosingQuote, Unescape, Holds;
    assert Quoted(s) == "\"" + (PrintedChars(s) + "\"");
    HoldsJoin(buf, off, "\"", PrintedChars(s) + "\"");
    HoldsAt(buf, off, Quoted(s), 0);
    CharsBack(buf, off + 1, s);
  }

  // ---------------------------------------------------------------- numbers

  function Pow10(k: nat): nat
  {
    if k == 0 then 1 else 10 * Pow10(k - 1)
  }

  lemma {:induction false} DecimalLength(n: nat, k: nat)
    requires k > 0 && n < Pow10(k)
    ensures |Decimal(n)| <= k
    decreases k
  {
    if n >= 10 {
      assert Pow10(1) == 10;
      DecimalLength(n / 10, k - 1);
    }
  }

  predicate Int32(n: int)
  {
    -0x8000_0000 <= n <= 0x7FFF_FFFF
  }

  /** The C library reads the decimal text of a 32-bit integer as that integer. */
  ghost predicate ReadsIntegers(lib: Library)
  {
    forall n: int :: Int32(n) ==> lib.strtod(Signed(n)) == Some((n, |Signed(n)|))
  }

  lemma {:induction false} SignedText(n: int)
    requires Int32(n)
    ensures var t := Signed(n);
      0 < |t| <= 11 && (forall i :: 0 <= i < |t| ==> NumberChar(t[i])) && (t[0] == '-' || '0' <= t[0] <= '9')
  {
    hide Decimal, Pow10;
    var m := if n < 0 then -n else n;
    DecimalDigits(m);
    TenDigits();
    DecimalLength(m, 10);
    assert forall i :: 0 <= i < |Decimal(m)| ==> NumberChar(Decimal(m)[i]);
  }

  /**
   A printed integer has a minus sign exactly if it is negative, and then its decimal digits without a leading zero.
   */
  lemma {:induction false} SignedExactly(n: int)
    ensures var t := Signed(n); var d := if n < 0 then t[1..] else t;
      && t != "" && (t[0] == '-' <==> n < 0)
      && d != "" && Digits(d) && (|d| > 1 ==> d[0] != '0') && Value(d) == if n < 0 then -n else n
  {
    var m := if n < 0 then -n else n;
    DecimalDigits(m);
    ValueOfDecimal(m);
    hide Decimal;
    assert Decimal(m)[0] != '-';
    if n < 0 { assert Signed(n)[1..] == Decimal(m); }
  }

  lemma {:induction false} TenDigits()
    ensures Pow10(10) == 10_000_000_000
  {
    assert Pow10(2) == 100 && Pow10(4) == 10_000 && Pow10(6) == 1_000_000 && Pow10(8) == 100_000_000;
  }

  lemma {:induction false} NumberTextIs(buf: string, off: nat, t: string, room: nat)
    requires Holds(buf, off, t) && |t| <= room && forall i :: 0 <= i < |t| ==> NumberChar(t[i])
    requires off + |t| < |buf| && !NumberChar(buf[off + |t|])
    ensures NumberText(buf, off, room) == t
    decreases |t|
  {
    hide NumberChar;
    if t != "" {
      HoldsAt(buf, off, t, 0);
      assert t == t[..1] + t[1..];
      HoldsJoin(buf, off, t[..1], t[1..]);
      NumberTextIs(buf, off + 1, t[1..], room - 1);
      assert [t[0]] + t[1..] == t;
    }
  }

  lemma {:induction false} NumberBack(lib: Library, buf: string, off: nat, n: int)
    requires ReadsIntegers(lib) && Int32(n) && Holds(buf, off, Signed(n))
    requires off + |Signed(n)| < |buf| && !NumberChar(buf[off + |Signed(n)|])
    ensures ReadNumber(lib, buf, off) == Some((Number(n), off + |Signed(n)|))
  {
    hide Signed, NumberText, Holds;
    SignedText(n);
    NumberTextIs(buf, off, Signed(n), 63);
  }

  // ---------------------------------------------------------------- values that print and read back

  /** What can be printed: no invalid nodes, and integers of 32 bits. */
  ghost predicate Printable(j: Json)
    decreases j, 0
  {
    match j
    case Invalid => false
    case Number(n) => Int32(n)
    case Array(items) => forall i :: 0 <= i < |items| ==> Printable(items[i])
    case Object(ms) => forall i :: 0 <= i < |ms| ==> Printable(ms[i].value)
    case _ => true
  }

  function Max(a: nat, b: nat): nat
  {
    if a < b then b else a
  }

  /** How deeply arrays and objects are nested. */
  function Depth(j: Json): nat
    decreases j, 1
  {
    match j
    case Array(items) => 1 + ItemsDepth(items)
    case Object(ms) => 1 + MembersDepth(ms)
    case _ => 0
  }

  function ItemsDepth(items: seq<Json>): nat
    decreases items, 0
  {
    if items == [] then 0 else Max(Depth(items[0]), ItemsDepth(items[1..]))
  }

  function MembersDepth(ms: seq<Member>): nat
    decreases ms, 0
  {
    if ms == [] then 0 else Max(Depth(ms[0].value), MembersDepth(ms[1..]))
  }

  predicate StartChar(c: char)
  {
    c == 'n' || c == 'f' || c == 't' || c == '"' || c == '-' || '0' <= c <= '9' || c == '[' || c == '{'
  }

  lemma {:induction false} PrintedStart(j: Json, format: bool, depth: nat)
    requires Printable(j)
    ensures Printed(j, format, depth) != "" && StartChar(Printed(j, format, depth)[0])
  {
    hide PrintedItems, PrintedMembers, PrintedChars, Signed, Tabs;
    if j.Number? { SignedText(j.n); }
  }

  /** A word does not stand where another character does. */
  lemma {:induction false} NotHeld(buf: string, off: nat, word: string)
    requires off <= |buf| && word != "" && (off == |buf| || buf[off] != word[0])
    ensures !Holds(buf, off, word)
  {
    if off + |word| <= |buf| { assert buf[off..off + |word|][0] == buf[off]; }
  }

  lemma {:induction false} NoWords(buf: string, off: nat)
    requires off < |buf| && buf[off] != 'n' && buf[off] != 'f' && buf[off] != 't'
    ensures !Holds(buf, off, "null") && !Holds(buf, off, "false") && !Holds(buf, off, "true")
  {
    NotHeld(buf, off, "null");
    NotHeld(buf, off, "false");
    NotHeld(buf, off, "true");
  }

  /** The text goes on with something that ends a number. */
  predicate Ends(buf: string, p: nat)
  {
    p < |buf| && !NumberChar(buf[p])
  }

  lemma {:induction false} ScalarBack(lib: Library, buf: string, off: nat, j: Json, format: bool, d: nat, depth: nat)
    requires ReadsIntegers(lib) && Printable(j) && !j.Array? && !j.Object?
    requires Holds(buf, off, Printed(j, format, d)) && Ends(buf, off + |Printed(j, format, d)|)
    ensures ReadValue(lib, buf, off, depth) == Some((j, off + |Printed(j, format, d)|))
  {
    hide ReadString, ReadNumber, ReadItems, ReadMembers, Quoted, Signed, Skip;
    var t := Printed(j, format, d);
    PrintedStart(j, format, d);
    HoldsAt(buf, off, t, 0);
    if j.Number? {
      SignedText(j.n);
      NoWords(buf, off);
      NumberBack(lib, buf, off, j.n);
    } else if j.String? {
      StringBack(buf, off, j.s);
      NoWords(buf, off);
    } else if !j.Null? {
      NotHeld(buf, off, "null");
      if j.True? { NotHeld(buf, off, "false"); }
    }
  }

  // ---------------------------------------------------------------- arrays and objects

  lemma {:induction false} ReadArray(lib: Library, buf: string, off: nat, depth: nat)
    requires off < |buf| && buf[off] == '['
    ensures ReadValue(lib, buf, off, depth) ==
      if depth >= NESTING_LIMIT || Skip(buf, off + 1) == |buf| then None
      else if buf[Skip(buf, off + 1)] == ']' then Some((Array([]), Skip(buf, off + 1) + 1))
      else match ReadItems(lib, buf, Skip(buf, off + 1), depth + 1)
        case None => None
        case Some((items, q)) => Some((Array(items), q))
  {
    hide ReadString, ReadNumber, ReadItems, ReadMembers, Skip, Holds;
    NoWords(buf, off);
  }

  lemma {:induction false} ReadObject(lib: Library, buf: string, off: nat, depth: nat)
    requires off < |buf| && buf[off] == '{'
    ensures ReadValue(lib, buf, off, depth) ==
      if depth >= NESTING_LIMIT || Skip(buf, off + 1) == |buf| then None
      else if buf[Skip(buf, off + 1)] == '}' then Some((Object([]), Skip(buf, off + 1) + 1))
      else match ReadMembers(lib, buf, Skip(buf, off + 1), depth + 1)
        case None => None
        case Some((ms, q)) => Some((Object(ms), q))
  {
    hide ReadString, ReadNumber, ReadItems, ReadMembers, Skip, Holds;
    NoWords(buf, off);
  }

  /** What reading gives at a depth: nothing when the value is nested too deeply. */
  function Expected<T>(fits: bool, v: T, end: nat): Option<(T, nat)>
  {
    if fits then Some((v, end)) else None
  }

  /** A printed value reads back wherever it stands, exactly when it does not exceed the nesting limit there. */
  lemma {:induction false} ValueBack(lib: Library, buf: string, off: nat, j: Json, format: bool, d: nat, depth: nat)
    requires ReadsIntegers(lib) && Printable(j) && Holds(buf, off, Printed(j, format, d))
    requires Ends(buf, off + |Printed(j, format, d)|)
    requires depth <= NESTING_LIMIT
    ensures ReadValue(lib, buf, off, depth) ==
      Expected(depth + Depth(j) <= NESTING_LIMIT, j, off + |Printed(j, format, d)|)
    decreases j, 3
  {
    hide ReadValue, Printed, Holds, Printable;
    if j.Array? {
      ArrayBack(lib, buf, off, j.items, format, d, depth);
    } else if j.Object? {
      ObjectBack(lib, buf, off, j.members, format, d, depth);
    } else {
      ScalarBack(lib, buf, off, j, format, d, depth);
    }
  }

  ghost predicate AllPrintable(items: seq<Json>)
  {
    forall i :: 0 <= i < |items| ==> Printable(items[i])
  }

  lemma {:induction false} ArrayText(items: seq<Json>, format: bool, d: nat)
    ensures Printed(Array(items), format, d) == "[" + (PrintedItems(items, format, d + 1) + "]")
    ensures Depth(Array(items)) == 1 + ItemsDepth(items)
    ensures Printable(Array(items)) <==> AllPrintable(items)
  {
    hide PrintedItems, ItemsDepth;
  }

  lemma {:induction false} BlankHere(buf: string, p: nat)
    requires p < |buf| && buf[p] > 32 as char
    ensures Blanks(buf, p, p)
  {
  }

  lemma {:induction false} NoItems(format: bool, d: nat)
    ensures PrintedItems([], format, d) == "" && ItemsDepth([]) == 0
  {
  }

  lemma {:induction false} ArrayBack(lib: Library, buf: string, off: nat, items: seq<Json>, format: bool, d: nat,
                                     depth: nat)
    requires ReadsIntegers(lib) && Printable(Array(items)) && depth <= NESTING_LIMIT
    requires Holds(buf, off, Printed(Array(items), format, d)) && Ends(buf, off + |Printed(Array(items), format, d)|)
    ensures ReadValue(lib, buf, off, depth)
      == Expected(depth + Depth(Array(items)) <= NESTING_LIMIT, Array(items), off + |Printed(Array(items), format, d)|)
    decreases items, 2
  {
    hide Printed, PrintedItems, PrintedMore, Skip, Holds, ReadItems, ReadValue, Depth, ItemsDepth, Printable,
      AllPrintable, Blanks, Ends, Max, ReadsIntegers;
    ArrayText(items, format, d);
    var inner := PrintedItems(items, format, d + 1);
    HoldsJoin(buf, off, "[", inner + "]");
    HoldsAt(buf, off, "[", 0);
    ReadArray(lib, buf, off, depth);
    if items == [] {
      NoItems(format, d + 1);
      HoldsAt(buf, off + 1, inner + "]", 0);
      BlankHere(buf, off + 1);
      SkipBlanks(buf, off + 1, off + 1);
    } else {
      ItemsStart(items, format, d + 1);
      HoldsAt(buf, off + 1, inner + "]", 0);
      BlankHere(buf, off + 1);
      SkipBlanks(buf, off + 1, off + 1);
      if depth < NESTING_LIMIT { ItemsBack(lib, buf, off + 1, off + 1, items, format, d + 1, depth + 1); }
    }
  }

  lemma {:induction false} ItemsStart(items: seq<Json>, format: bool, d: nat)
    requires items != [] && AllPrintable(items)
    ensures PrintedItems(items, format, d) != "" && StartChar(PrintedItems(items, format, d)[0])
  {
    hide PrintedMore, Printed;
    PrintedStart(items[0], format, d);
  }

  lemma {:induction false} ItemsStep(lib: Library, buf: string, p: nat, depth: nat)
    requires p <= |buf|
    ensures ReadItems(lib, buf, p, depth) ==
      match ReadValue(lib, buf, Skip(buf, p), depth)
      case None => None
      case Some((v, q)) =>
        var e := Skip(buf, q);
        if e == |buf| then None
        else if buf[e] == ',' then
          match ReadItems(lib, buf, e + 1, depth) case None => None case Some((more, r)) => Some(([v] + more, r))
        else if buf[e] == ']' then Some(([v], e + 1))
        else None
  {
    hide ReadValue, Skip;
  }

  function Gap(format: bool): string
  {
    if format then " " else ""
  }

  lemma {:induction false} ItemsText(items: seq<Json>, format: bool, d: nat)
    requires items != []
    ensures PrintedItems(items, format, d) + "]" ==
      Printed(items[0], format, d) + (PrintedMore(items[1..], format, d) + "]")
    ensures |PrintedItems(items, format, d)| == |Printed(items[0], format, d)| + |PrintedMore(items[1..], format, d)|
    ensures ItemsDepth(items) == Max(Depth(items[0]), ItemsDepth(items[1..]))
    ensures AllPrintable(items) ==> Printable(items[0]) && AllPrintable(items[1..])
  {
    hide Printed, Depth, Printable;
    var v, more := Printed(items[0], format, d), PrintedMore(items[1..], format, d);
    assert v + more + "]" == v + (more + "]");
  }

  /** What stands after an element: the closing bracket, or a comma, a gap and the next elements. */
  lemma {:induction false} MoreStart(buf: string, q: nat, rest: seq<Json>, format: bool, d: nat)
    requires AllPrintable(rest) && Holds(buf, q, PrintedMore(rest, format, d) + "]")
    ensures q < |buf| && Ends(buf, q) && Skip(buf, q) == q && buf[q] == if rest == [] then ']' else ','
    ensures rest == [] ==> PrintedMore(rest, format, d) == ""
    ensures rest != [] ==> var s := q + 1 + |Gap(format)|;
      q + 1 <= s < |buf| && Skip(buf, q + 1) == s && Holds(buf, s, PrintedItems(rest, format, d) + "]")
      && q + |PrintedMore(rest, format, d)| == s + |PrintedItems(rest, format, d)|
  {
    hide Printed, PrintedItems, Skip, Holds, Printable, Blanks, Ends;
    var more := PrintedMore(rest, format, d);
    HoldsAt(buf, q, more + "]", 0);
    EndMark(buf, q);
    SkipBlanks(buf, q, q);
    if rest != [] {
      var gap, text := Gap(format), PrintedItems(rest, format, d) + "]";
      assert more + "]" == "," + (gap + text);
      HoldsJoin(buf, q, ",", gap + text);
      HoldsJoin(buf, q + 1, gap, text);
      ItemsStart(rest, format, d);
      HoldsAt(buf, q + 1 + |gap|, text, 0);
      GapIsBlank(buf, q + 1, gap);
      SkipBlanks(buf, q + 1, q + 1 + |gap|);
    }
  }

  /** The elements from `start` on, after blanks from `p` on, up to and including the closing bracket. */
  lemma {:induction false} ItemsBack(lib: Library, buf: string, p: nat, start: nat, items: seq<Json>, format: bool,
                                     d: nat, depth: nat)
    requires ReadsIntegers(lib) && items != [] && AllPrintable(items) && depth <= NESTING_LIMIT
    requires p <= start < |buf| && Skip(buf, p) == start && Holds(buf, start, PrintedItems(items, format, d) + "]")
    ensures ReadItems(lib, buf, p, depth)
      == Expected(depth + ItemsDepth(items) <= NESTING_LIMIT, items, start + |PrintedItems(items, format, d)| + 1)
    decreases items, 1
  {
    hide Printed, PrintedItems, PrintedMore, Skip, Holds, ReadItems, ReadValue, Depth, ItemsDepth, Printable,
      AllPrintable, Ends, Max, ReadsIntegers, Gap;
    var v, rest := Printed(items[0], format, d), items[1..];
    var q := start + |v|;
    ItemsText(items, format, d);
    HoldsJoin(buf, start, v, PrintedMore(rest, format, d) + "]");
    MoreStart(buf, q, rest, format, d);
    ValueBack(lib, buf, start, items[0], format, d, depth);
    ItemsStep(lib, buf, p, depth);
    Larger(Depth(items[0]), ItemsDepth(rest));
    if rest == [] {
      NoItems(format, d);
      assert [items[0]] == items;
    } else {
      ItemsBack(lib, buf, q + 1, q + 1 + |Gap(format)|, rest, format, d, depth);
      assert [items[0]] + rest == items;
    }
  }

  lemma {:induction false} Larger(a: nat, b: nat)
    ensures Max(a, b) >= a && Max(a, b) >= b && (Max(a, b) == a || Max(a, b) == b)
  {
  }

  lemma {:induction false} EndMark(buf: string, p: nat)
    requires p < |buf| && (buf[p] == ',' || buf[p] == ']' || buf[p] == '}')
    ensures Ends(buf, p) && Blanks(buf, p, p)
  {
  }

  lemma {:induction false} GapIsBlank(buf: string, p: nat, gap: string)
    requires Holds(buf, p, gap) && BlankText(gap) && p + |gap| < |buf| && buf[p + |gap|] > 32 as char
    ensures Blanks(buf, p, p + |gap|)
  {
    forall i | p <= i < p + |gap|
      ensures buf[i] <= 32 as char
    {
      HoldsAt(buf, p, gap, i - p);
    }
  }

  // objects

  function LineEnd(format: bool): string
  {
    if format then "\n" else ""
  }

  function Indent(format: bool, d: nat): string
  {
    if format then Tabs(d) else ""
  }

  lemma {:induction false} IndentBlank(format: bool, d: nat)
    ensures BlankText(Indent(format, d)) && BlankText(LineEnd(format)) && BlankText(Tabs(d))
    decreases d
  {
    if d > 0 { IndentBlank(format, d - 1); }
  }

  /** The text of an object from its first key on; `close` is what stands after the last line. */
  function FromKey(ms: seq<Member>, format: bool, d: nat, close: string): string
    requires ms != []
    decreases |ms|, 0
  {
    PrintedMember(ms[0], format, d) + AfterMember(ms[1..], format, d, close)
  }

  function AfterMember(rest: seq<Member>, format: bool, d: nat, close: string): string
    decreases |rest|, 1
  {
    if rest == [] then LineEnd(format) + close
    else "," + (LineEnd(format) + (Indent(format, d) + FromKey(rest, format, d, close)))
  }

  lemma {:induction false} MembersText(ms: seq<Member>, format: bool, d: nat, close: string)
    requires ms != []
    ensures PrintedMembers(ms, format, d) + close == Indent(format, d) + FromKey(ms, format, d, close)
    decreases |ms|
  {
    hide PrintedMember, Tabs;
    var i, m, e, rest :=
      Indent(format, d), PrintedMember(ms[0], format, d), LineEnd(format), PrintedMembers(ms[1..], format, d);
    var c := if |ms| == 1 then "" else ",";
    assert i + (m + (c + (e + rest))) + close == i + (m + (c + (e + (rest + close))));
    if |ms| == 1 {
      assert ms[1..] == [];
      assert rest + close == close && c + (e + close) == e + close;
    } else {
      MembersText(ms[1..], format, d, close);
    }
  }

  ghost predicate AllMembersPrintable(ms: seq<Member>)
  {
    forall i :: 0 <= i < |ms| ==> Printable(ms[i].value)
  }

  lemma {:induction false} ObjectText(ms: seq<Member>, format: bool, d: nat)
    ensures Printed(Object(ms), format, d) ==
      "{" + (LineEnd(format) + (PrintedMembers(ms, format, d + 1) + (Indent(format, d) + "}")))
    ensures Depth(Object(ms)) == 1 + MembersDepth(ms)
    ensures Printable(Object(ms)) <==> AllMembersPrintable(ms)
    ensures PrintedMembers([], format, d + 1) == "" && MembersDepth([]) == 0
  {
    hide PrintedMembers, MembersDepth, Tabs;
    var rest := PrintedMembers(ms, format, d + 1) + (Indent(format, d) + "}");
    assert "" + "}" == "}";
    if format { assert "{\n" + rest == "{" + ("\n" + rest); } else { assert "{" + rest == "{" + ("" + rest); }
    assert PrintedMembers([], format, d + 1) == "" && MembersDepth([]) == 0 by { NoMembers(format, d + 1); }
  }

  lemma {:induction false} NoMembers(format: bool, d: nat)
    ensures PrintedMembers([], format, d) == "" && MembersDepth([]) == 0
  {
  }

  /** Two stretches of blanks make one. */
  lemma {:induction false} BlanksJoin(buf: string, p: nat, a: string, b: string)
    requires Holds(buf, p, a + b) && BlankText(a) && BlankText(b)
    requires p + |a| + |b| < |buf| && buf[p + |a| + |b|] > 32 as char
    ensures Blanks(buf, p, p + |a| + |b|)
  {
    hide Holds, Blanks;
    assert BlankText(a + b);
    GapIsBlank(buf, p, a + b);
  }

  /** Blanks and then a text that starts with something else. */
  lemma {:induction false} BlankRun(buf: string, p: nat, a: string, b: string, text: string)
    requires Holds(buf, p, a + (b + text)) && BlankText(a) && BlankText(b) && text != "" && text[0] > 32 as char
    ensures var s := p + |a| + |b|;
      && s < |buf| && Skip(buf, p) == s && Skip(buf, s) == s && buf[s] == text[0]
      && Holds(buf, s, text) && Blanks(buf, p, s)
  {
    hide Holds, Blanks, BlankText, Skip;
    assert a + (b + text) == (a + b) + text;
    HoldsJoin(buf, p, a + b, text);
    HoldsAt(buf, p + |a| + |b|, text, 0);
    BlanksJoin(buf, p, a, b);
    SkipBlanks(buf, p, p + |a| + |b|);
    BlankHere(buf, p + |a| + |b|);
    SkipBlanks(buf, p + |a| + |b|, p + |a| + |b|);
  }

  lemma {:induction false} MembersStep(lib: Library, buf: string, p: nat, depth: nat)
    requires p < |buf|
    ensures ReadMembers(lib, buf, p, depth) ==
      match ReadString(buf, Skip(buf, p))
      case None => None
      case Some((key, q)) =>
        var c := Skip(buf, q);
        if c == |buf| || buf[c] != ':' then None
        else
          match ReadValue(lib, buf, Skip(buf, c + 1), depth)
          case None => None
          case Some((v, r)) =>
            var e := Skip(buf, r);
            if e == |buf| then None
            else if buf[e] == ',' then
              match ReadMembers(lib, buf, e + 1, depth)
              case None => None
              case Some((more, x)) => Some(([Member(key, v)] + more, x))
            else if buf[e] == '}' then Some(([Member(key, v)], e + 1))
            else None
  {
    hide ReadValue, Skip, ReadString;
  }

  /** The key of a member, the colon and the start of its value. */
  lemma {:induction false} KeyBack(buf: string, start: nat, m: Member, format: bool, d: nat)
    requires Printable(m.value) && Holds(buf, start, PrintedMember(m, format, d))
    requires start + |PrintedMember(m, format, d)| <= |buf|
    ensures var c := start + |Quoted(m.key)|; var s := c + (if format then 2 else 1);
      && start < |buf| && buf[start] == '"' && ReadString(buf, start) == Some((m.key, c))
      && c < |buf| && buf[c] == ':' && Skip(buf, c) == c
      && s <= |buf| && Skip(buf, c + 1) == s && Holds(buf, s, Printed(m.value, format, d))
      && start + |PrintedMember(m, format, d)| == s + |Printed(m.value, format, d)|
  {
    hide Holds, Skip, Printed, ReadString, Quoted, Printable, Blanks;
    var colon, v := if format then ":\t" else ":", Printed(m.value, format, d);
    var c := start + |Quoted(m.key)|;
    HoldsJoin(buf, start, Quoted(m.key), colon + v);
    StringBack(buf, start, m.key);
    HoldsJoin(buf, c, colon, v);
    HoldsAt(buf, c, colon, 0);
    BlankHere(buf, c);
    SkipBlanks(buf, c, c);
    PrintedStart(m.value, format, d);
    HoldsAt(buf, c + |colon|, v, 0);
    if format { HoldsAt(buf, c, colon, 1); }
    OneBlank(buf, c + 1, c + |colon|);
    SkipBlanks(buf, c + 1, c + |colon|);
  }

  lemma {:induction false} OneBlank(buf: string, p: nat, t: nat)
    requires p <= t <= p + 1 && t < |buf| && buf[t] > 32 as char && (p < t ==> buf[p] <= 32 as char)
    ensures Blanks(buf, p, t)
  {
  }

  lemma {:induction false} FromKeyStart(ms: seq<Member>, format: bool, d: nat, close: string)
    requires ms != []
    ensures FromKey(ms, format, d, close) != "" && FromKey(ms, format, d, close)[0] == '"'
  {
    hide PrintedChars, Printed, AfterMember;
  }

  /** What stands after a member: the end of the object, or a comma and the next key. */
  lemma {:induction false} AfterStart(buf: string, q: nat, rest: seq<Member>, format: bool, d: nat, outer: nat)
    requires var close := Indent(format, outer) + "}"; Holds(buf, q, AfterMember(rest, format, d, close))
    ensures var close := Indent(format, outer) + "}"; var text := AfterMember(rest, format, d, close);
      && q < |buf| && Ends(buf, q) && Skip(buf, q) < |buf|
      && (rest == [] ==> buf[Skip(buf, q)] == '}' && Skip(buf, q) + 1 == q + |text|)
      && (rest != [] ==>
            && buf[Skip(buf, q)] == ',' && Skip(buf, q) == q
            && var s := q + 1 + |LineEnd(format)| + |Indent(format, d)|;
            && s < |buf| && Skip(buf, q + 1) == s && Holds(buf, s, FromKey(rest, format, d, close))
            && q + |text| == s + |FromKey(rest, format, d, close)|)
  {
    hide Holds, Skip, FromKey, Indent, Blanks, BlankText, Ends, LineEnd;
    var close := Indent(format, outer) + "}";
    var text, line := AfterMember(rest, format, d, close), LineEnd(format);
    IndentBlank(format, outer);
    IndentBlank(format, d);
    if rest == [] {
      BlankRun(buf, q, line, Indent(format, outer), "}");
      BlankEnds(buf, q, q + |line| + |Indent(format, outer)|);
    } else {
      var indent, more := Indent(format, d), FromKey(rest, format, d, close);
      HoldsJoin(buf, q, ",", line + (indent + more));
      HoldsAt(buf, q, ",", 0);
      EndMark(buf, q);
      SkipBlanks(buf, q, q);
      FromKeyStart(rest, format, d, close);
      BlankRun(buf, q + 1, line, indent, more);
    }
  }

  lemma {:induction false} BlankEnds(buf: string, p: nat, t: nat)
    requires Blanks(buf, p, t) && buf[t] == '}'
    ensures Ends(buf, p)
  {
    if p < t { assert buf[p] <= 32 as char; }
  }

  lemma {:induction false} MembersAre(ms: seq<Member>)
    requires ms != [] && AllMembersPrintable(ms)
    ensures Printable(ms[0].value) && AllMembersPrintable(ms[1..])
    ensures MembersDepth(ms) == Max(Depth(ms[0].value), MembersDepth(ms[1..]))
  {
    hide Depth, Printable;
  }

  /** The members from the key at `start` on, after blanks from `p` on, up to and including the closing brace. */
  lemma {:induction false} MembersBack(lib: Library, buf: string, p: nat, start: nat, ms: seq<Member>, format: bool,
                                       d: nat, outer: nat, depth: nat)
    requires ReadsIntegers(lib) && ms != [] && AllMembersPrintable(ms) && depth <= NESTING_LIMIT
    requires p <= start < |buf| && Skip(buf, p) == start
    requires Holds(buf, start, FromKey(ms, format, d, Indent(format, outer) + "}"))
    ensures ReadMembers(lib, buf, p, depth)
      == Expected(depth + MembersDepth(ms) <= NESTING_LIMIT, ms,
           start + |FromKey(ms, format, d, Indent(format, outer) + "}")|)
    decreases ms, 1
  {
    hide *;
    var close := Indent(format, outer) + "}";
    var m, rest := ms[0], ms[1..];
    var q := start + |PrintedMember(m, format, d)|;
    FromKeyIs(ms, format, d, close);
    HoldsJoin(buf, start, PrintedMember(m, format, d), AfterMember(rest, format, d, close));
    MembersAre(ms);
    AfterStart(buf, q, rest, format, d, outer);
    KeyBack(buf, start, m, format, d);
    ValueBack(lib, buf, start + |Quoted(m.key)| + (if format then 2 else 1), m.value, format, d, depth);
    MembersStep(lib, buf, p, depth);
    Larger(Depth(m.value), MembersDepth(rest));
    ExpectedIs(depth + Depth(m.value) <= NESTING_LIMIT, m.value, q);
    ExpectedIs(depth + MembersDepth(ms) <= NESTING_LIMIT, ms, start + |FromKey(ms, format, d, close)|);
    assert Member(m.key, m.value) == m;
    if rest == [] {
      NoMembers(format, d);
      assert [m] == ms;
    } else {
      var s := q + 1 + |LineEnd(format)| + |Indent(format, d)|;
      MembersBack(lib, buf, q + 1, s, rest, format, d, outer, depth);
      ExpectedIs(depth + MembersDepth(rest) <= NESTING_LIMIT, rest, s + |FromKey(rest, format, d, close)|);
      assert [m] + rest == ms;
    }
  }

  lemma {:induction false} FromKeyIs(ms: seq<Member>, format: bool, d: nat, close: string)
    requires ms != []
    ensures FromKey(ms, format, d, close) == PrintedMember(ms[0], format, d) + AfterMember(ms[1..], format, d, close)
    ensures |FromKey(ms, format, d, close)| ==
      |PrintedMember(ms[0], format, d)| + |AfterMember(ms[1..], format, d, close)|
  {
    hide PrintedMember, AfterMember;
  }

  lemma {:induction false} ExpectedIs<T>(fits: bool, v: T, end: nat)
    ensures Expected(fits, v, end) == if fits then Some((v, end)) else None
  {
  }

  /** What stands after an opening brace: the closing one, or the first key. */
  lemma {:induction false} ObjectStart(buf: string, off: nat, ms: seq<Member>, format: bool, d: nat)
    requires Holds(buf, off, Printed(Object(ms), format, d))
    ensures var close := Indent(format, d) + "}"; var p := off + 1; var end := off + |Printed(Object(ms), format, d)|;
      && p < |buf| && buf[off] == '{' && Skip(buf, p) < |buf|
      && (ms == [] ==> buf[Skip(buf, p)] == '}' && Skip(buf, p) + 1 == end)
      && (ms != [] ==> var s := Skip(buf, p);
           && buf[s] == '"' && Skip(buf, s) == s && Holds(buf, s, FromKey(ms, format, d + 1, close))
           && s + |FromKey(ms, format, d + 1, close)| == end)
  {
    hide Printed, PrintedMembers, FromKey, Skip, Holds, Indent, LineEnd, Blanks, BlankText, Depth, Printable,
      MembersDepth;
    var close, line := Indent(format, d) + "}", LineEnd(format);
    ObjectText(ms, format, d);
    var inner := PrintedMembers(ms, format, d + 1) + close;
    HoldsJoin(buf, off, "{", line + inner);
    HoldsAt(buf, off, "{", 0);
    IndentBlank(format, d);
    IndentBlank(format, d + 1);
    if ms == [] {
      assert "" + close == close;
      BlankRun(buf, off + 1, line, Indent(format, d), "}");
    } else {
      MembersText(ms, format, d + 1, close);
      FromKeyStart(ms, format, d + 1, close);
      BlankRun(buf, off + 1, line, Indent(format, d + 1), FromKey(ms, format, d + 1, close));
    }
  }

  lemma {:induction false} ObjectBack(lib: Library, buf: string, off: nat, ms: seq<Member>, format: bool, d: nat,
                                      depth: nat)
    requires ReadsIntegers(lib) && Printable(Object(ms)) && depth <= NESTING_LIMIT
    requires Holds(buf, off, Printed(Object(ms), format, d))
    ensures ReadValue(lib, buf, off, depth)
      == Expected(depth + Depth(Object(ms)) <= NESTING_LIMIT, Object(ms), off + |Printed(Object(ms), format, d)|)
    decreases ms, 2
  {
    hide Printed, PrintedMembers, FromKey, Skip, Holds, ReadMembers, ReadValue, Depth, MembersDepth, Printable,
      AllMembersPrintable, Ends, ReadsIntegers, Indent;
    ObjectText(ms, format, d);
    ObjectStart(buf, off, ms, format, d);
    ReadObject(lib, buf, off, depth);
    if ms != [] && depth < NESTING_LIMIT {
      MembersBack(lib, buf, Skip(buf, off + 1), Skip(buf, off + 1), ms, format, d + 1, d, depth + 1);
    }
  }

  // ---------------------------------------------------------------- whole texts

  /**
    * Printing a value and reading the text gives the value back exactly when it is nested no deeper than the limit;
    * a deeper one is refused.
    */
  lemma {:induction false} PrintThenRead(lib: Library, j: Json, format: bool, strict: bool)
    requires ReadsIntegers(lib) && Printable(j)
    ensures Read(lib, Printed(j, format, 0), strict) == if Depth(j) <= NESTING_LIMIT then Some(j) else None
  {
    hide Printed, ReadValue, Depth, Printable, Holds, ReadsIntegers, Skip, MarkEnd;
    var t := Printed(j, format, 0);
    var buf := t + [0 as char];
    PrintedStart(j, format, 0);
    NoMark(buf);
    BlankHere(buf, 0);
    SkipBlanks(buf, 0, 0);
    InFront(t);
    ValueBack(lib, buf, 0, j, format, 0, 0);
    AtTerminator(buf);
  }

  lemma {:induction false} NoMark(buf: string)
    requires buf != "" && StartChar(buf[0])
    ensures MarkEnd(buf) == 0
  {
  }

  lemma {:induction false} InFront(t: string)
    ensures Holds(t + [0 as char], 0, t) && Ends(t + [0 as char], |t|)
  {
    assert (t + [0 as char])[0..|t|] == t;
  }

  lemma {:induction false} AtTerminator(buf: string)
    requires buf != "" && buf[|buf| - 1] == 0 as char
    ensures Skip(buf, |buf| - 1) == |buf| - 1
  {
    assert BlankEnd(buf, |buf|) == |buf|;
  }
}
