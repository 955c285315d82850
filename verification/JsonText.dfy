/** JSON text: how values are printed and how text is read, as cJSON does both. Characters are bytes. */
module JsonText {
  import opened Options
  import opened Decimals
  import opened JsonTree

  // ---------------------------------------------------------------- printing

  function Tabs(n: nat): string
  {
    if n == 0 then "" else "\t" + Tabs(n - 1)
  }

  /** A number that fits 32 bits, as "%d" prints it. */
  function Signed(n: int): string
  {
    if n < 0 then "-" + Decimal(-n) else Decimal(n)
  }

  function HexDigit(n: nat): char
    requires n < 16
  {
    "0123456789abcdef"[n]
  }

  /** One character inside quotes. */
  function PrintedChar(c: char): string
  {
    if c > 31 as char && c != '"' && c != '\\' then [c]
    else if c == '\\' then "\\\\"
    else if c == '"' then "\\\""
    else if c == 8 as char then "\\b"
    else if c == 12 as char then "\\f"
    else if c == '\n' then "\\n"
    else if c == '\r' then "\\r"
    else if c == '\t' then "\\t"
    else ['\\', 'u', '0', '0', HexDigit((c as int) / 16), HexDigit((c as int) % 16)]
  }

  function PrintedChars(s: string): string
  {
    if s == "" then "" else PrintedChar(s[0]) + PrintedChars(s[1..])
  }

  function Quoted(s: string): string
  {
    "\"" + PrintedChars(s) + "\""
  }

  /** The text of a value `depth` levels deep. */
  function Printed(j: Json, format: bool, depth: nat): string
    decreases j, 1
  {
    match j
    case Invalid => ""
    case Null => "null"
    case False => "false"
    case True => "true"
    case Number(n) => Signed(n)
    case String(s) => Quoted(s)
    case Array(items) => "[" + (PrintedItems(items, format, depth + 1) + "]")
    case Object(ms) =>
      var close := if format then Tabs(depth) + "}" else "}";
      (if format then "{\n" else "{") + (PrintedMembers(ms, format, depth + 1) + close)
  }

  function PrintedItems(items: seq<Json>, format: bool, depth: nat): string
    decreases items, 0
  {
    if items == [] then ""
    else Printed(items[0], format, depth) + PrintedMore(items[1..], format, depth)
  }

  /** The elements after the first. */
  function PrintedMore(items: seq<Json>, format: bool, depth: nat): string
    decreases items, 1
  {
    if items == [] then "" else (if format then ", " else ",") + PrintedItems(items, format, depth)
  }

  function PrintedMembers(ms: seq<Member>, format: bool, depth: nat): string
    decreases ms, 0
  {
    if ms == [] then ""
    else
      var indent := if format then Tabs(depth) else "";
      var comma := if |ms| == 1 then "" else ",";
      var end := if format then "\n" else "";
      indent + (PrintedMember(ms[0], format, depth) + (comma + (end + PrintedMembers(ms[1..], format, depth))))
  }

  function PrintedMember(m: Member, format: bool, depth: nat): string
    decreases m, 0
  {
    Quoted(m.key) + ((if format then ":\t" else ":") + Printed(m.value, format, depth))
  }

  // ---------------------------------------------------------------- reading: blanks and strings

  const NESTING_LIMIT := 1000

  /** The first position from `off` on that is not blank, or the end. */
  function BlankEnd(buf: string, off: nat): (r: nat)
    requires off <= |buf|
    ensures off <= r <= |buf| && (r < |buf| ==> buf[r] > 32 as char)
    decreases |buf| - off
  {
    if off < |buf| && buf[off] <= 32 as char then BlankEnd(buf, off + 1) else off
  }

  /** Skips blanks, but never past the last character. */
  function Skip(buf: string, off: nat): (r: nat)
    requires off <= |buf|
    ensures off <= r <= |buf| && (off < |buf| ==> r < |buf|)
  {
    if off == |buf| then off
    else if BlankEnd(buf, off) == |buf| then |buf| - 1 else BlankEnd(buf, off)
  }

  /** The position of the closing quote: the first that no backslash precedes. */
  function ClosingQuote(buf: string, p: nat): (r: Option<nat>)
    requires p <= |buf|
    ensures r.Some? ==> p <= r.value < |buf| && buf[r.value] == '"'
    decreases |buf| - p
  {
    if p == |buf| then None
    else if buf[p] == '"' then Some(p)
    else if buf[p] == '\\' then if p + 1 < |buf| then ClosingQuote(buf, p + 2) else None
    else ClosingQuote(buf, p + 1)
  }

  function HexValue(c: char): Option<nat>
  {
    if '0' <= c <= '9' then Some((c - '0') as int)
    else if 'A' <= c <= 'F' then Some((c - 'A') as int + 10)
    else if 'a' <= c <= 'f' then Some((c - 'a') as int + 10)
    else None
  }

  /** Four hexadecimal digits; zero when one of them is not. */
  function Hex4(buf: string, p: nat): (r: nat)
    requires p + 4 <= |buf|
    ensures r < 0x10000
  {
    var (a, b, c, d) := (HexValue(buf[p]), HexValue(buf[p + 1]), HexValue(buf[p + 2]), HexValue(buf[p + 3]));
    if a.None? || b.None? || c.None? || d.None? then 0
    else
      assert a.value < 16 && b.value < 16 && c.value < 16 && d.value < 16;
      4096 * a.value + 256 * b.value + 16 * c.value + d.value
  }

  function Utf8(cp: nat): string
    requires cp < 0x110000
  {
    if cp < 0x80 then [cp as char]
    else if cp < 0x800 then [(0xC0 + cp / 64) as char, (0x80 + cp % 64) as char]
    else if cp < 0x10000 then [(0xE0 + cp / 4096) as char, (0x80 + cp / 64 % 64) as char, (0x80 + cp % 64) as char]
    else [(0xF0 + cp / 262144) as char, (0x80 + cp / 4096 % 64) as char, (0x80 + cp / 64 % 64) as char,
      (0x80 + cp % 64) as char]
  }

  /** A `\u` sequence, or two that make a surrogate pair; the bytes and how much of the text they take. */
  function Utf16(buf: string, p: nat, end: nat): (r: Option<(string, nat)>)
    requires p <= end <= |buf|
    ensures r.Some? ==> 0 < r.value.1 <= end - p
  {
    if end - p < 6 then None
    else
      var first := Hex4(buf, p + 2);
      if 0xDC00 <= first <= 0xDFFF then None
      else if 0xD800 <= first <= 0xDBFF then
        if end - (p + 6) < 6 || buf[p + 6] != '\\' || buf[p + 7] != 'u' then None
        else
          var second := Hex4(buf, p + 8);
          if second < 0xDC00 || second > 0xDFFF then None
          else Some((Utf8(0x10000 + 0x400 * (first - 0xD800) + (second - 0xDC00)), 12))
      else Some((Utf8(first), 6))
  }

  /** What an escape of one character stands for. */
  function Escape(c: char): Option<char>
  {
    if c == 'b' then Some(8 as char)
    else if c == 'f' then Some(12 as char)
    else if c == 'n' then Some('\n')
    else if c == 'r' then Some('\r')
    else if c == 't' then Some('\t')
    else if c == '"' || c == '\\' || c == '/' then Some(c)
    else None
  }

  /** The characters between the quotes, escapes undone. */
  function Unescape(buf: string, p: nat, end: nat): Option<string>
    requires end < |buf|
    decreases if p < end then end - p else 0
  {
    if p >= end then Some("")
    else if buf[p] != '\\' then
      match Unescape(buf, p + 1, end) case None => None case Some(s) => Some([buf[p]] + s)
    else if buf[p + 1] == 'u' then
      match Utf16(buf, p, end)
      case None => None
      case Some((bytes, n)) => match Unescape(buf, p + n, end) case None => None case Some(s) => Some(bytes + s)
    else
      match Escape(buf[p + 1])
      case None => None
      case Some(c) => match Unescape(buf, p + 2, end) case None => None case Some(s) => Some([c] + s)
  }

  function ReadString(buf: string, off: nat): (r: Option<(string, nat)>)
    requires off < |buf|
    ensures r.Some? ==> off + 1 < r.value.1 <= |buf|
  {
    if buf[off] != '"' then None
    else
      match ClosingQuote(buf, off + 1)
      case None => None
      case Some(end) => match Unescape(buf, off + 1, end) case None => None case Some(s) => Some((s, end + 1))
  }

  // ---------------------------------------------------------------- reading: numbers

  /** The C library's strtod on a text: the number at its start, here an integer, and how many characters it has. */
  datatype Library = Library(strtod: string -> Option<(int, nat)>)

  predicate NumberChar(c: char)
  {
    '0' <= c <= '9' || c == '+' || c == '-' || c == 'e' || c == 'E' || c == '.'
  }

  /** At most `room` characters that may occur in numbers. */
  function NumberText(buf: string, off: nat, room: nat): (r: string)
    requires off <= |buf|
    ensures |r| <= room && off + |r| <= |buf| && r == buf[off..off + |r|]
    decreases room
  {
    if room > 0 && off < |buf| && NumberChar(buf[off]) then [buf[off]] + NumberText(buf, off + 1, room - 1) else ""
  }

  function ReadNumber(lib: Library, buf: string, off: nat): (r: Option<(Json, nat)>)
    requires off <= |buf|
    ensures r.Some? ==> off < r.value.1 <= |buf|
  {
    var text := NumberText(buf, off, 63);
    match lib.strtod(text)
    case None => None
    case Some((n, used)) => if 0 < used <= |text| then Some((Number(n), off + used)) else None
  }

  // ---------------------------------------------------------------- reading: values

  /** The text has a word at a position. */
  predicate Holds(buf: string, off: nat, word: string)
  {
    off + |word| <= |buf| && buf[off..off + |word|] == word
  }

  function ReadValue(lib: Library, buf: string, off: nat, depth: nat): (r: Option<(Json, nat)>)
    requires off <= |buf|
    ensures r.Some? ==> off < r.value.1 <= |buf|
    decreases |buf| - off, 1
  {
    if Holds(buf, off, "null") then Some((Null, off + 4))
    else if Holds(buf, off, "false") then Some((False, off + 5))
    else if Holds(buf, off, "true") then Some((True, off + 4))
    else if off == |buf| then None
    else if buf[off] == '"' then
      match ReadString(buf, off) case None => None case Some((s, q)) => Some((String(s), q))
    else if buf[off] == '-' || '0' <= buf[off] <= '9' then ReadNumber(lib, buf, off)
    else if buf[off] == '[' then
      if depth >= NESTING_LIMIT then None
      else
        var p := Skip(buf, off + 1);
        if p == |buf| then None
        else if buf[p] == ']' then Some((Array([]), p + 1))
        else match ReadItems(lib, buf, p, depth + 1) case None => None case Some((items, q)) => Some((Array(items), q))
    else if buf[off] == '{' then
      if depth >= NESTING_LIMIT then None
      else
        var p := Skip(buf, off + 1);
        if p == |buf| then None
        else if buf[p] == '}' then Some((Object([]), p + 1))
        else match ReadMembers(lib, buf, p, depth + 1) case None => None case Some((ms, q)) => Some((Object(ms), q))
    else None
  }

  /** Values separated by commas, and the closing bracket. */
  function ReadItems(lib: Library, buf: string, p: nat, depth: nat): (r: Option<(seq<Json>, nat)>)
    requires p <= |buf|
    ensures r.Some? ==> p < r.value.1 <= |buf|
    decreases |buf| - p, 2
  {
    match ReadValue(lib, buf, Skip(buf, p), depth)
    case None => None
    case Some((v, q)) =>
      var e := Skip(buf, q);
      if e == |buf| then None
      else if buf[e] == ',' then
        match ReadItems(lib, buf, e + 1, depth) case None => None case Some((more, r)) => Some(([v] + more, r))
      else if buf[e] == ']' then Some(([v], e + 1))
      else None
  }

  function ReadMembers(lib: Library, buf: string, p: nat, depth: nat): (r: Option<(seq<Member>, nat)>)
    requires p <= |buf|
    ensures r.Some? ==> p < r.value.1 <= |buf|
    decreases |buf| - p, 2
  {
    if p == |buf| then None
    else
      match ReadString(buf, Skip(buf, p))
      case None => None
      case Some((key, q)) =>
        var c := Skip(buf, q);
        if c == |buf| || buf[c] != ':' then None
        else
          match ReadValue(lib, buf, Skip(buf, c + 1), depth)
          case None => None
          case Some((v, r)) =>
            var e := Skip(buf, r);
            if e == |buf| then None
            else if buf[e] == ',' then
              match ReadMembers(lib, buf, e + 1, depth)
              case None => None
              case Some((more, x)) => Some(([Member(key, v)] + more, x))
            else if buf[e] == '}' then Some(([Member(key, v)], e + 1))
            else None
  }

  /** The byte order mark that may stand before a text of at least five bytes. */
  function MarkEnd(buf: string): (r: nat)
    ensures r <= |buf|
  {
    if |buf| > 4 && buf[0] == 0xEF as char && buf[1] == 0xBB as char && buf[2] == 0xBF as char then 3 else 0
  }

  /** A zero-terminated text; a strict reader wants nothing but blanks after the value. */
  function Read(lib: Library, text: string, strict: bool): Option<Json>
  {
    var buf := text + [0 as char];
    match ReadValue(lib, buf, Skip(buf, MarkEnd(buf)), 0)
    case None => None
    case Some((v, q)) =>
      if !strict then Some(v)
      else var e := Skip(buf, q); if e < |buf| && buf[e] == 0 as char then Some(v) else None
  }
}
