/** The printer as the program runs it: a buffer that grows, and text that is written into it in place. */
module JsonPrinter {
  import opened Options
  import opened Decimals
  import opened JsonTree
  import opened JsonText
  import opened JsonTextRoundTrip

  const INT_MAX := 0x7FFF_FFFF

  class PrintBuffer {
    var buffer: array<char>
    var offset: nat
    var depth: nat
    const noalloc: bool
    const format: bool

    ghost predicate Valid()
      reads this`buffer, this`offset
    {
      buffer.Length <= INT_MAX && (offset < buffer.Length || (buffer.Length == 0 && offset == 0))
    }

    /** What was written so far. */
    ghost function Text(): string
      reads this`buffer, this`offset, buffer
      requires Valid()
    {
      buffer[..offset]
    }

    /** How large the buffer can become. */
    ghost function Limit(): nat
      reads this`buffer
    {
      if noalloc then buffer.Length else INT_MAX
    }

    /** The buffer starts with the text and its terminator. */
    ghost predicate Written(t: string)
      reads this`buffer, this`offset, buffer
    {
      offset <= |t| < buffer.Length && buffer[..|t|] == t && buffer[|t|] == 0 as char
    }

    constructor (buffer: array<char>, noalloc: bool, format: bool)
      requires buffer.Length <= INT_MAX
      ensures Valid() && Text() == "" && depth == 0 && this.buffer == buffer && this.noalloc == noalloc
      ensures this.format == format
      ensures offset == 0
    {
      this.buffer, this.noalloc, this.format := buffer, noalloc, format;
      offset, depth := 0, 0;
    }

    /** Makes room for more bytes and one beyond them, if need be in a buffer of twice the size. */
    method Ensure(needed: nat) returns (ok: bool)
      requires Valid()
      modifies this`buffer
      ensures Valid() && Limit() == old(Limit()) && (buffer == old(buffer) || (!noalloc && fresh(buffer)))
      ensures ok <==> offset + needed + 1 <= Limit()
      ensures ok ==> offset + needed + 1 <= buffer.Length
      ensures Text() == old(Text())
    {
      if buffer.Length > 0 && offset >= buffer.Length { return false; }
      if needed > INT_MAX { return false; }
      var total := needed + offset + 1;
      if total <= buffer.Length { return true; }
      if noalloc { return false; }
      var newSize;
      if total > INT_MAX / 2 {
        if total > INT_MAX { return false; }
        newSize := INT_MAX;
      } else {
        newSize := total * 2;
      }
      var grown := new char[newSize];
      for i := 0 to buffer.Length
        invariant fresh(grown) && buffer == old(buffer)
        invariant grown[..i] == buffer[..i]
        modifies grown
      {
        grown[i] := buffer[i];
      }
      buffer := grown;
      ok := true;
    }

    /** Writes a string at a position. */
    method PlaceAt(at: nat, s: string)
      requires at + |s| <= buffer.Length
      modifies buffer
      ensures buffer[..at + |s|] == old(buffer[..at]) + s
    {
      ghost var before := buffer[..at];
      for i := 0 to |s|
        invariant buffer[..at + i] == before + s[..i]
        modifies buffer
      {
        buffer[at + i] := s[i];
      }
      assert s[..|s|] == s;
    }

    /** Writes a string at the offset, with a terminator if wanted. */
    method Place(s: string, terminate: bool)
      requires Valid() && offset + |s| + 1 <= buffer.Length
      modifies buffer
      ensures buffer[..offset + |s|] == old(Text()) + s
      ensures terminate ==> buffer[offset + |s|] == 0 as char
    {
      PlaceAt(offset, s);
      if terminate { buffer[offset + |s|] := 0 as char; }
    }

    /** Room for a string and the rest of `needed`, the string in it, and the offset behind it. */
    method Emit(s: string, needed: nat, terminate: bool) returns (ok: bool)
      requires Valid() && |s| <= needed
      modifies this`buffer, this`offset, buffer
      ensures Valid() && Limit() == old(Limit()) && (buffer == old(buffer) || (!noalloc && fresh(buffer)))
      ensures ok <==> old(offset) + needed + 1 <= Limit()
      ensures offset == if ok then old(offset) + |s| else old(offset)
      ensures Text() == if ok then old(Text()) + s else old(Text())
      ensures ok ==> offset < buffer.Length && (terminate ==> buffer[offset] == 0 as char)
    {
      ok := Ensure(needed);
      if ok {
        Place(s, terminate);
        offset := offset + |s|;
      }
    }

    /** The same, but the offset stays where it is. */
    method Lay(s: string, needed: nat) returns (ok: bool)
      requires Valid() && |s| <= needed
      modifies this`buffer, buffer
      ensures Valid() && Limit() == old(Limit()) && (buffer == old(buffer) || (!noalloc && fresh(buffer)))
      ensures ok <==> offset + needed + 1 <= Limit()
      ensures ok ==> Written(old(Text()) + s)
    {
      ok := Ensure(needed);
      if ok { Place(s, true); }
    }

    /** Moves the offset to the terminator. */
    method UpdateOffset(ghost t: string)
      requires Valid() && Written(t) && NulFree(t[offset..])
      modifies this`offset
      ensures Valid() && offset == |t| && Text() == t
    {
      assert forall i :: 0 <= i < |t| ==> buffer[i] == buffer[..|t|][i];
      assert forall i :: offset <= i < |t| ==> t[i] == t[offset..][i - offset];
      var p := offset;
      while buffer[p] != 0 as char
        invariant offset <= p <= |t|
        decreases |t| - p
      {
        p := p + 1;
      }
      offset := p;
    }

    // ---------------------------------------------------------------- values

    /** A string in quotes. The room is counted first; a string without escapes is copied at once. */
    method PrintStringPtr(s: string) returns (ok: bool)
      requires Valid()
      modifies this`buffer, buffer
      ensures Valid() && Limit() == old(Limit()) && (buffer == old(buffer) || (!noalloc && fresh(buffer)))
      ensures ok <==> offset + |Quoted(s)| + 2 <= Limit()
      ensures ok ==> Written(old(Text()) + Quoted(s))
    {
      hide PrintedChars, PrintedChar;
      var escapes := CountEscapes(s);
      ok := Ensure(|s| + escapes + 3);
      if !ok { return; }
      if escapes == 0 {
        NoEscapes(s);
        Place("\"" + s + "\"", true);
      } else {
        WriteEscaped(s);
      }
    }

    /** The slow path: character by character. */
    method WriteEscaped(s: string)
      requires Valid() && offset + |Quoted(s)| + 1 <= buffer.Length
      modifies buffer
      ensures Written(old(Text()) + Quoted(s))
    {
      hide PrintedChars, PrintedChar;
      ghost var before := Text();
      PlaceAt(offset, "\"");
      var at := offset + 1;
      NoChars();
      for i := 0 to |s|
        invariant at == offset + 1 + |PrintedChars(s[..i])| && at <= buffer.Length
        invariant buffer[..at] == before + "\"" + PrintedChars(s[..i])
        modifies buffer
      {
        CharsMore(s, i);
        CharsWithin(s, i + 1);
        PlaceAt(at, PrintedChar(s[i]));
        at := at + |PrintedChar(s[i])|;
      }
      assert s[..|s|] == s;
      PlaceAt(at, "\"");
      buffer[at + 1] := 0 as char;
    }

    /** A 32-bit integer; the offset moves behind it. */
    method PrintNumber(n: int) returns (ok: bool)
      requires Valid() && Int32(n)
      modifies this`buffer, this`offset, buffer
      ensures Valid() && Limit() == old(Limit()) && (buffer == old(buffer) || (!noalloc && fresh(buffer)))
      ensures ok <==> old(offset) + |Signed(n)| + 2 <= Limit()
      ensures ok ==> Written(old(Text()) + Signed(n)) && old(offset) <= offset
    {
      var text := Signed(n);
      ok := Emit(text, |text| + 1, true);
      if ok { WholeText(buffer[..], offset, old(Text()) + text); }
    }

    /** A value, laid out from the offset on; the caller moves the offset. */
    method PrintValue(j: Json) returns (ok: bool)
      requires Valid() && Printable(j)
      modifies this`buffer, this`offset, this`depth, buffer
      ensures Valid() && Limit() == old(Limit()) && (buffer == old(buffer) || (!noalloc && fresh(buffer)))
      ensures ok <==> old(offset) + |Printed(j, format, old(depth))| + 2 <= Limit()
      ensures ok ==>
        Written(old(Text()) + Printed(j, format, old(depth))) && depth == old(depth) && old(offset) <= offset
      decreases j, 3
    {
      hide PrintedItems, PrintedMembers, Signed, Quoted, Tabs, Text, Written;
      match j
      case Null => ok := Lay("null", 5);
      case False => ok := Lay("false", 6);
      case True => ok := Lay("true", 5);
      case Number(n) => ok := PrintNumber(n);
      case String(t) => ok := PrintStringPtr(t);
      case Array(items) => ok := PrintArray(items);
      case Object(ms) => ok := PrintObject(ms);
      case Invalid => ok := false;
    }

    method PrintArray(items: seq<Json>) returns (ok: bool)
      requires Valid() && AllPrintable(items)
      modifies this`buffer, this`offset, this`depth, buffer
      ensures Valid() && Limit() == old(Limit()) && (buffer == old(buffer) || (!noalloc && fresh(buffer)))
      ensures ok <==> old(offset) + |Printed(Array(items), format, old(depth))| + 2 <= Limit()
      ensures ok ==>
        Written(old(Text()) + Printed(Array(items), format, old(depth))) && depth == old(depth) && old(offset) <= offset
      decreases items, 2
    {
      hide Printed, PrintedItems, PrintedMore, Printable, Written, Text, Valid;
      ghost var start := Text();
      ghost var goal := start + "[" + PrintedItems(items, format, depth + 1);
      ArrayGoal(start, items, format, depth);
      TextLength();
      ok := Emit("[", 1, false);
      if !ok { return; }
      depth := depth + 1;
      var i := 0;
      assert items[0..] == items;
      while i < |items|
        invariant i <= |items| && Valid() && depth == old(depth) + 1 && Limit() == old(Limit())
        invariant buffer == old(buffer) || (!noalloc && fresh(buffer))
        invariant Text() + PrintedItems(items[i..], format, depth) == goal
        decreases |items| - i
      {
        TextLength();
        ok := PrintItem(items, i);
        if !ok { return; }
        i := i + 1;
      }
      NoItems(format, depth);
      assert items[i..] == [] && Text() + "" == Text();
      TextLength();
      ok := Lay("]", 2);
      depth := depth - 1;
    }

    /** An element, and a comma if it is not the last. */
    method PrintItem(items: seq<Json>, i: nat) returns (ok: bool)
      requires Valid() && AllPrintable(items) && i < |items|
      modifies this`buffer, this`offset, this`depth, buffer
      ensures Valid() && Limit() == old(Limit()) && (buffer == old(buffer) || (!noalloc && fresh(buffer)))
      ensures ok ==> depth == old(depth)
      ensures ok ==>
        Text() + PrintedItems(items[i + 1..], format, depth) == old(Text()) + PrintedItems(items[i..], format, depth)
      ensures !ok ==> Limit() < old(offset) + |PrintedItems(items[i..], format, old(depth))| + 3
      decreases items, 1
    {
      hide Printed, PrintedItems, PrintedMore, Printable, Written, Text, Valid, NulFree;
      ghost var before, piece := Text(), Printed(items[i], format, depth);
      ItemPiece(before, items, i, format, depth);
      TextLength();
      ok := PrintWhole(items[i]);
      if !ok { return; }
      if i + 1 < |items| {
        TextLength();
        var sep := if format then ", " else ",";
        ok := Emit(sep, |sep| + 1, true);
        if !ok { return; }
      } else {
        NoItems(format, depth);
        assert items[i + 1..] == [];
      }
    }

    /** Tabs in front of a line, when formatting. */
    method PrintIndent() returns (ok: bool)
      requires Valid()
      modifies this`buffer, this`offset, buffer
      ensures Valid() && Limit() == old(Limit()) && (buffer == old(buffer) || (!noalloc && fresh(buffer)))
      ensures Text() == if ok then old(Text()) + Indent(format, depth) else old(Text())
      ensures !ok ==> Limit() < old(offset) + |Indent(format, depth)| + 1
    {
      ok := true;
      if format {
        TabsNulFree(depth);
        ok := Emit(Tabs(depth), depth, false);
      } else {
        assert Text() + "" == Text();
      }
    }

    /** A string laid out and passed. */
    method PrintKey(s: string) returns (ok: bool)
      requires Valid()
      modifies this`buffer, this`offset, buffer
      ensures Valid() && Limit() == old(Limit()) && (buffer == old(buffer) || (!noalloc && fresh(buffer)))
      ensures ok <==> old(offset) + |Quoted(s)| + 2 <= Limit()
      ensures ok ==> Text() == old(Text()) + Quoted(s)
    {
      hide Quoted, Written, Text, Valid, NulFree;
      ghost var before := Text();
      TextLength();
      ok := PrintStringPtr(s);
      if !ok { return; }
      QuotedNulFree(s);
      MoveOn(before, Quoted(s));
    }

    /** A value laid out and passed. */
    method PrintWhole(j: Json) returns (ok: bool)
      requires Valid() && Printable(j)
      modifies this`buffer, this`offset, this`depth, buffer
      ensures Valid() && Limit() == old(Limit()) && (buffer == old(buffer) || (!noalloc && fresh(buffer)))
      ensures ok <==> old(offset) + |Printed(j, format, old(depth))| + 2 <= Limit()
      ensures ok ==> Text() == old(Text()) + Printed(j, format, old(depth)) && depth == old(depth)
      decreases j, 4
    {
      hide Printed, Printable, Written, Text, Valid, NulFree;
      ghost var before, piece := Text(), Printed(j, format, depth);
      TextLength();
      ok := PrintValue(j);
      if !ok { return; }
      PrintedNulFree(j, format, depth);
      MoveOn(before, piece);
    }

    /** A member on a line of its own, and a comma if it is not the last. */
    method PrintMember(ms: seq<Member>, i: nat) returns (ok: bool)
      requires Valid() && AllMembersPrintable(ms) && i < |ms|
      modifies this`buffer, this`offset, this`depth, buffer
      ensures Valid() && Limit() == old(Limit()) && (buffer == old(buffer) || (!noalloc && fresh(buffer)))
      ensures ok ==> depth == old(depth)
      ensures ok ==>
        Text() + PrintedMembers(ms[i + 1..], format, depth) == old(Text()) + PrintedMembers(ms[i..], format, depth)
      ensures !ok ==> Limit() < old(offset) + |PrintedMembers(ms[i..], format, old(depth))| + 3
      decreases ms, 1
    {
      hide Printed, PrintedMembers, Printable, AllMembersPrintable, Written, Text, Valid, Quoted, Indent;
      var m := ms[i];
      var comma, line, colon := i + 1 < |ms|, if format then "\n" else "", if format then ":\t" else ":";
      ghost var before := Text();
      MemberPiece(before, ms, i, format, depth);
      TextLength();
      ok := PrintIndent();
      if !ok { return; }
      TextLength();
      ok := PrintKey(m.key);
      if !ok { return; }
      TextLength();
      ok := Emit(colon, |colon|, false);
      if !ok { return; }
      TextLength();
      ok := PrintWhole(m.value);
      if !ok { return; }
      TextLength();
      var end := (if comma then "," else "") + line;
      ok := Emit(end, |end| + 1, true);
      if !ok { return; }
      MemberJoined(before, Indent(format, depth), Quoted(m.key), colon, Printed(m.value, format, depth),
        if comma then "," else "", line,
        PrintedMembers(ms[i + 1..], format, depth));
    }

    method PrintObject(ms: seq<Member>) returns (ok: bool)
      requires Valid() && AllMembersPrintable(ms)
      modifies this`buffer, this`offset, this`depth, buffer
      ensures Valid() && Limit() == old(Limit()) && (buffer == old(buffer) || (!noalloc && fresh(buffer)))
      ensures ok <==> old(offset) + |Printed(Object(ms), format, old(depth))| + 2 <= Limit()
      ensures ok ==>
        Written(old(Text()) + Printed(Object(ms), format, old(depth))) && depth == old(depth) && old(offset) <= offset
      decreases ms, 2
    {
      hide Printed, PrintedMembers, Printable, Written, Text, Valid, Indent;
      var open := if format then "{\n" else "{";
      ghost var start := Text();
      ghost var goal := start + open + PrintedMembers(ms, format, depth + 1);
      ObjectGoal(start, ms, format, depth);
      TextLength();
      ok := Emit(open, |open| + 1, false);
      if !ok { return; }
      depth := depth + 1;
      var i := 0;
      assert ms[0..] == ms;
      while i < |ms|
        invariant i <= |ms| && Valid() && depth == old(depth) + 1 && Limit() == old(Limit())
        invariant buffer == old(buffer) || (!noalloc && fresh(buffer))
        invariant Text() + PrintedMembers(ms[i..], format, depth) == goal
        decreases |ms| - i
      {
        TextLength();
        ok := PrintMember(ms, i);
        if !ok { return; }
        i := i + 1;
      }
      NoMembers(format, depth);
      assert ms[i..] == [] && Text() + "" == Text();
      TextLength();
      CloseLength(format, depth - 1);
      ok := Lay(if format then Tabs(depth - 1) + "}" else "}", if format then depth + 1 else 2);
      depth := depth - 1;
    }

    lemma TextLength()
      requires Valid()
      ensures |Text()| == offset
    {
    }

    /** The offset behind a text that was laid out; what was written before it stays. */
    method MoveOn(ghost before: string, ghost piece: string)
      requires Valid() && Written(before + piece) && NulFree(piece) && |before| <= offset
      modifies this`offset
      ensures Valid() && Text() == before + piece && offset == |before| + |piece| && offset < buffer.Length
    {
      assert (before + piece)[offset..] == piece[offset - |before|..];
      UpdateOffset(before + piece);
    }
  }

  lemma {:induction false} ArrayGoal(start: string, items: seq<Json>, format: bool, depth: nat)
    ensures var inner := PrintedItems(items, format, depth + 1);
      && start + Printed(Array(items), format, depth) == start + "[" + inner + "]"
      && |Printed(Array(items), format, depth)| == |inner| + 2
  {
    hide PrintedItems;
    var inner := PrintedItems(items, format, depth + 1);
    assert start + ("[" + (inner + "]")) == start + "[" + inner + "]";
  }

  /** The next element, what stands before it and what comes after. */
  lemma {:induction false} ItemPiece(text: string, items: seq<Json>, i: nat, format: bool, depth: nat)
    requires i < |items| && AllPrintable(items)
    ensures Printable(items[i])
    ensures var more :=
      if i + 1 == |items| then "" else (if format then ", " else ",") + PrintedItems(items[i + 1..], format, depth);
      && PrintedItems(items[i..], format, depth) == Printed(items[i], format, depth) + more
      && text + PrintedItems(items[i..], format, depth) == text + Printed(items[i], format, depth) + more
      && |PrintedItems(items[i..], format, depth)| == |Printed(items[i], format, depth)| + |more|
  {
    hide Printed, Printable;
    assert items[i..][0] == items[i] && items[i..][1..] == items[i + 1..];
    var more := PrintedMore(items[i + 1..], format, depth);
    assert text + (Printed(items[i], format, depth) + more) == text + Printed(items[i], format, depth) + more;
  }

  lemma {:induction false} ObjectGoal(start: string, ms: seq<Member>, format: bool, depth: nat)
    ensures var open, inner := if format then "{\n" else "{", PrintedMembers(ms, format, depth + 1);
      var close := if format then Tabs(depth) + "}" else "}";
      && start + Printed(Object(ms), format, depth) == start + open + inner + close
      && |Printed(Object(ms), format, depth)| == |open| + |inner| + |close|
  {
    hide PrintedMembers, Tabs;
    var open, inner := if format then "{\n" else "{", PrintedMembers(ms, format, depth + 1);
    var close := if format then Tabs(depth) + "}" else "}";
    assert start + (open + (inner + close)) == start + open + inner + close;
  }

  lemma {:induction false} CloseLength(format: bool, depth: nat)
    ensures |if format then Tabs(depth) + "}" else "}"| == if format then depth + 1 else 1
  {
    TabsNulFree(depth);
  }

  lemma {:induction false} MemberPiece(text: string, ms: seq<Member>, i: nat, format: bool, depth: nat)
    requires i < |ms| && AllMembersPrintable(ms)
    ensures Printable(ms[i].value)
    ensures var colon, comma, line :=
      if format then ":\t" else ":", if i + 1 < |ms| then "," else "", if format then "\n" else "";
      var rest := PrintedMembers(ms[i + 1..], format, depth);
      && PrintedMembers(ms[i..], format, depth) ==
        Indent(format, depth)
          + (Quoted(ms[i].key) + (colon + Printed(ms[i].value, format, depth)) + (comma + (line + rest)))
      && |PrintedMembers(ms[i..], format, depth)| ==
        |Indent(format, depth)| + |Quoted(ms[i].key)| + |colon| + |Printed(ms[i].value, format, depth)| + |comma|
          + |line| + |rest|
  {
    hide Printed, Printable, Quoted, Tabs;
    assert ms[i..][0] == ms[i] && ms[i..][1..] == ms[i + 1..];
  }

  lemma {:induction false} MemberJoined(t: string, a: string, b: string, c: string, d: string, e: string, f: string,
                                        g: string)
    ensures t + (a + (b + (c + d) + (e + (f + g)))) == t + a + b + c + d + (e + f) + g
  {
    assert b + (c + d) + (e + (f + g)) == b + c + d + (e + f) + g;
    var x := b + c + d + (e + f) + g;
    assert t + (a + x) == t + a + x;
    assert t + a + x == t + a + b + c + d + (e + f) + g;
  }

  lemma {:induction false} NulJoin(a: string, b: string)
    requires NulFree(a) && NulFree(b)
    ensures NulFree(a + b)
  {
  }

  lemma {:induction false} CharsNulFree(s: string)
    ensures NulFree(PrintedChars(s))
    decreases |s|
  {
    hide PrintedChar;
    if s != "" {
      CharNulFree(s[0]);
      CharsNulFree(s[1..]);
      NulJoin(PrintedChar(s[0]), PrintedChars(s[1..]));
    }
  }

  lemma {:induction false} CharNulFree(c: char)
    ensures NulFree(PrintedChar(c))
  {
    hide HexDigit;
    DigitNotNul((c as int) % 16);
    if (c as int) / 16 < 16 { DigitNotNul((c as int) / 16); }
  }

  lemma {:induction false} DigitNotNul(n: nat)
    requires n < 16
    ensures HexDigit(n) != 0 as char
  {
  }

  lemma {:induction false} QuotedNulFree(s: string)
    ensures NulFree(Quoted(s))
  {
    hide PrintedChars;
    CharsNulFree(s);
  }

  lemma {:induction false} TabsNulFree(n: nat)
    ensures NulFree(Tabs(n)) && |Tabs(n)| == n
    decreases n
  {
    if n > 0 { TabsNulFree(n - 1); }
  }

  lemma {:induction false} SignedNulFree(n: int)
    requires Int32(n)
    ensures NulFree(Signed(n))
  {
    hide Signed;
    SignedText(n);
  }

  /** Printed text has no terminator inside. */
  lemma {:induction false} PrintedNulFree(j: Json, format: bool, depth: nat)
    requires Printable(j)
    ensures NulFree(Printed(j, format, depth))
    decreases j, 3
  {
    hide PrintedItems, PrintedMembers, Signed, Quoted, Tabs, Printable, NulFree;
    NulWords();
    if j.Number? {
      IsNumber(j);
      SignedNulFree(j.n);
    } else if j.String? {
      QuotedNulFree(j.s);
    } else if j.Array? {
      ArrayText(j.items, format, depth);
      ItemsNulFree(j.items, format, depth + 1);
      NulJoin(PrintedItems(j.items, format, depth + 1), "]");
      NulJoin("[", PrintedItems(j.items, format, depth + 1) + "]");
    } else if j.Object? {
      ObjectText(j.members, format, depth);
      MembersNulFree(j.members, format, depth + 1);
      TabsNulFree(depth);
      var close := if format then Tabs(depth) + "}" else "}";
      NulJoin(Tabs(depth), "}");
      NulJoin(PrintedMembers(j.members, format, depth + 1), close);
      NulJoin(if format then "{\n" else "{", PrintedMembers(j.members, format, depth + 1) + close);
    }
  }

  lemma {:induction false} IsNumber(j: Json)
    requires Printable(j) && j.Number?
    ensures Int32(j.n)
  {
  }

  lemma {:induction false} NulWords()
    ensures NulFree("") && NulFree("null") && NulFree("false") && NulFree("true") && NulFree("[") && NulFree("]")
    ensures NulFree("{") && NulFree("}")
    ensures NulFree("{\n") && NulFree(", ") && NulFree(",") && NulFree("\n") && NulFree(":") && NulFree(":\t")
  {
  }

  lemma {:induction false} ItemsNulFree(items: seq<Json>, format: bool, depth: nat)
    requires AllPrintable(items)
    ensures NulFree(PrintedItems(items, format, depth))
    decreases items, 1
  {
    hide Printed, Printable, NulFree;
    NulWords();
    if items != [] {
      PrintedNulFree(items[0], format, depth);
      ItemsNulFree(items[1..], format, depth);
      NulJoin(if format then ", " else ",", PrintedItems(items[1..], format, depth));
      NulJoin(Printed(items[0], format, depth), PrintedMore(items[1..], format, depth));
    }
  }

  lemma {:induction false} MembersNulFree(ms: seq<Member>, format: bool, depth: nat)
    requires AllMembersPrintable(ms)
    ensures NulFree(PrintedMembers(ms, format, depth))
    decreases ms, 1
  {
    hide Printed, Printable, NulFree, Quoted, Tabs;
    NulWords();
    if ms != [] {
      var indent, comma, end :=
        if format then Tabs(depth) else "", if |ms| == 1 then "" else ",", if format then "\n" else "";
      var colon, v, rest :=
        if format then ":\t" else ":", Printed(ms[0].value, format, depth), PrintedMembers(ms[1..], format, depth);
      PrintedNulFree(ms[0].value, format, depth);
      QuotedNulFree(ms[0].key);
      TabsNulFree(depth);
      MembersNulFree(ms[1..], format, depth);
      NulJoin(colon, v);
      NulJoin(Quoted(ms[0].key), colon + v);
      NulJoin(end, rest);
      NulJoin(comma, end + rest);
      NulJoin(PrintedMember(ms[0], format, depth), comma + (end + rest));
      NulJoin(indent, PrintedMember(ms[0], format, depth) + (comma + (end + rest)));
    }
  }

  /** How many characters escaping adds. */
  method CountEscapes(s: string) returns (escapes: nat)
    ensures escapes == |PrintedChars(s)| - |s|
  {
    hide PrintedChars, PrintedChar;
    escapes := 0;
    NoChars();
    for i := 0 to |s|
      invariant escapes == |PrintedChars(s[..i])| - i
    {
      CharsMore(s, i);
      escapes := escapes + |PrintedChar(s[i])| - 1;
    }
    assert s[..|s|] == s;
  }

  lemma {:induction false} WholeText(b: string, n: nat, t: string)
    requires n <= |b| && b[..n] == t
    ensures |t| == n
  {
  }

  lemma {:induction false} NoChars()
    ensures PrintedChars("") == ""
  {
  }

  lemma {:induction false} CharsJoin(a: string, b: string)
    ensures PrintedChars(a + b) == PrintedChars(a) + PrintedChars(b)
    decreases |a|
  {
    hide PrintedChar;
    if a == "" {
      assert a + b == b && "" + PrintedChars(b) == PrintedChars(b);
    } else {
      CharsJoin(a[1..], b);
      assert (a + b)[1..] == a[1..] + b;
      assert PrintedChar(a[0]) + (PrintedChars(a[1..]) + PrintedChars(b)) ==
        PrintedChar(a[0]) + PrintedChars(a[1..]) + PrintedChars(b);
    }
  }

  lemma {:induction false} OneChar(c: char)
    ensures PrintedChars([c]) == PrintedChar(c) && |PrintedChar(c)| >= 1
  {
    assert [c][1..] == "" && PrintedChars("") == "" && PrintedChar(c) + "" == PrintedChar(c);
  }

  lemma {:induction false} CharsMore(s: string, i: nat)
    requires i < |s|
    ensures PrintedChars(s[..i + 1]) == PrintedChars(s[..i]) + PrintedChar(s[i]) && |PrintedChar(s[i])| >= 1
  {
    hide PrintedChars, PrintedChar;
    assert s[..i + 1] == s[..i] + [s[i]];
    CharsJoin(s[..i], [s[i]]);
    OneChar(s[i]);
  }

  lemma {:induction false} CharsWithin(s: string, i: nat)
    requires i <= |s|
    ensures |PrintedChars(s[..i])| <= |PrintedChars(s)|
  {
    hide PrintedChars;
    assert s == s[..i] + s[i..];
    CharsJoin(s[..i], s[i..]);
  }

  /** When no character needs an escape, each is printed as it is. */
  lemma {:induction false} NoEscapes(s: string)
    requires |PrintedChars(s)| == |s|
    ensures PrintedChars(s) == s
    decreases |s|
  {
    hide PrintedChar;
    if s != "" {
      AtLeast(s[1..]);
      ShortChar(s[0]);
      NoEscapes(s[1..]);
      assert [s[0]] + s[1..] == s;
    }
  }

  lemma {:induction false} AtLeast(s: string)
    ensures |PrintedChars(s)| >= |s|
    decreases |s|
  {
    hide PrintedChar;
    if s != "" {
      OneChar(s[0]);
      AtLeast(s[1..]);
    }
  }

  lemma {:induction false} ShortChar(c: char)
    ensures |PrintedChar(c)| >= 1 && (|PrintedChar(c)| == 1 ==> PrintedChar(c) == [c])
  {
  }

  /** Prints into a buffer that grows from 256 bytes; what is printed is the value's text, cut to its length. */
  method Print(item: Json, format: bool) returns (r: Option<string>)
    requires Printable(item)
    ensures r == if |Printed(item, format, 0)| + 2 <= INT_MAX then Some(Printed(item, format, 0)) else None
  {
    hide Printed, Printable;
    var bytes := new char[256];
    var p := new PrintBuffer(bytes, false, format);
    var ok := p.PrintValue(item);
    if !ok { return None; }
    PrintedNulFree(item, format, 0);
    assert "" + Printed(item, format, 0) == Printed(item, format, 0);
    p.MoveOn("", Printed(item, format, 0));
    r := Some(p.buffer[..p.offset]);
  }

  /** Prints into a buffer of the caller's: it must have two bytes more than the text. */
  method PrintPreallocated(item: Json, bytes: array<char>, format: bool) returns (ok: bool)
    requires Printable(item) && bytes.Length <= INT_MAX
    modifies bytes
    ensures ok <==> |Printed(item, format, 0)| + 2 <= bytes.Length
    ensures ok ==> var n := |Printed(item, format, 0)|; bytes[..n] == Printed(item, format, 0) && bytes[n] == 0 as char
  {
    hide Printed, Printable;
    var p := new PrintBuffer(bytes, true, format);
    ok := p.PrintValue(item);
    assert "" + Printed(item, format, 0) == Printed(item, format, 0);
  }

  predicate NulFree(t: string)
  {
    forall i :: 0 <= i < |t| ==> t[i] != 0 as char
  }
}
