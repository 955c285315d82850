/** The parser as the program runs it: an offset and a depth that move through the text. */
module JsonParser {
  import opened Options
  import opened JsonTree
  import opened JsonText
  import opened JsonTextRoundTrip
  import JsonReading

  lemma {:induction false} BlankStep(buf: string, p: nat)
    requires p < |buf|
    ensures BlankEnd(buf, p) == if buf[p] <= 32 as char then BlankEnd(buf, p + 1) else p
    ensures BlankEnd(buf, |buf|) == |buf|
  {
  }

  lemma {:induction false} UnescapeStep(buf: string, p: nat, end: nat)
    requires end < |buf|
    ensures Unescape(buf, p, end) ==
      if p >= end then Some("")
      else
        var n := if buf[p] != '\\' then 1
          else if buf[p + 1] == 'u' then (if Utf16(buf, p, end).Some? then Utf16(buf, p, end).value.1 else 0) else 2;
        var bytes := if buf[p] != '\\' then Some([buf[p]])
          else if buf[p + 1] == 'u' then (if Utf16(buf, p, end).Some? then Some(Utf16(buf, p, end).value.0) else None)
          else if Escape(buf[p + 1]).Some? then Some([Escape(buf[p + 1]).value]) else None;
        if bytes.None? || Unescape(buf, p + n, end).None? then None
        else Some(bytes.value + Unescape(buf, p + n, end).value)
  {
    hide Utf16, Escape;
  }

  lemma {:induction false} Cat(a: string, b: string, c: string)
    ensures a + (b + c) == a + b + c && a + "" == a && "" + a == a
  {
  }

  class ParseBuffer {
    const content: string
    var offset: nat
    var depth: nat

    constructor (content: string)
      ensures this.content == content && offset == 0 && depth == 0
    {
      this.content, this.offset, this.depth := content, 0, 0;
    }

    method SkipWhitespace()
      requires offset <= |content|
      modifies this`offset
      ensures offset == Skip(content, old(offset))
    {
      hide BlankEnd;
      if offset == |content| { return; }
      BlankStep(content, offset);
      while offset < |content| && content[offset] <= 32 as char
        invariant old(offset) <= offset <= |content| && BlankEnd(content, old(offset)) == BlankEnd(content, offset)
      {
        BlankStep(content, offset);
        offset := offset + 1;
      }
      if offset < |content| { BlankStep(content, offset); }
      if offset == |content| { offset := offset - 1; }
    }

    /** The place of the closing quote. */
    method FindQuote(start: nat) returns (ok: bool, end: nat)
      requires start <= |content|
      ensures ok ==> end < |content|
      ensures ClosingQuote(content, start) == if ok then Some(end) else None
    {
      end := start;
      while end < |content| && content[end] != '"'
        invariant start <= end <= |content| && ClosingQuote(content, start) == ClosingQuote(content, end)
      {
        if content[end] == '\\' {
          if end + 1 >= |content| { return false, end; }
          end := end + 1;
        }
        end := end + 1;
      }
      ok := end < |content|;
    }

    /** Copies the characters up to the quote and undoes escapes. */
    method CopyOut(start: nat, end: nat) returns (ok: bool, output: string)
      requires end < |content|
      ensures Unescape(content, start, end) == if ok then Some(output) else None
    {
      hide Utf16, Escape, Unescape;
      var p := start;
      output, ok := "", false;
      ghost var all := Unescape(content, start, end);
      if all.Some? { Cat(all.value, "", ""); }
      while p < end
        invariant all ==
          (if Unescape(content, p, end).None? then None else Some(output + Unescape(content, p, end).value)) && !ok
        decreases end - p
      {
        UnescapeStep(content, p, end);
        var n := 2;
        var bytes;
        if content[p] != '\\' {
          n := 1;
          bytes := [content[p]];
        } else if content[p + 1] == 'u' {
          var r := Utf16(content, p, end);
          if r.None? { return; }
          bytes, n := r.value.0, r.value.1;
        } else {
          var r := Escape(content[p + 1]);
          if r.None? { return; }
          bytes := [r.value];
        }
        if Unescape(content, p + n, end).Some? { Cat(output, bytes, Unescape(content, p + n, end).value); }
        output := output + bytes;
        p := p + n;
      }
      UnescapeStep(content, p, end);
      Cat(output, "", "");
      ok := true;
    }

    method ParseString() returns (ok: bool, s: string)
      requires offset < |content|
      modifies this`offset
      ensures ReadString(content, old(offset)) == if ok then Some((s, offset)) else None
      ensures offset <= |content|
    {
      hide ClosingQuote, Unescape;
      ok, s := false, "";
      if content[offset] != '"' { return; }
      var end;
      ok, end := FindQuote(offset + 1);
      if !ok { return; }
      ok, s := CopyOut(offset + 1, end);
      if !ok { return; }
      offset := end + 1;
    }

    /** The first characters that may belong to a number, no more than there is room for. */
    method CollectNumber(room: nat) returns (text: string)
      requires offset <= |content|
      ensures text == NumberText(content, offset, room)
    {
      hide NumberText, NumberChar;
      text := "";
      var i := 0;
      Cat(NumberText(content, offset, room), "", "");
      while i < room && offset + i < |content| && NumberChar(content[offset + i])
        invariant i <= room && offset + i <= |content| && |text| == i
        invariant NumberText(content, offset, room) == text + NumberText(content, offset + i, room - i)
      {
        NumberStep(content, offset + i, room - i);
        Cat(text, [content[offset + i]], NumberText(content, offset + i + 1, room - i - 1));
        text := text + [content[offset + i]];
        i := i + 1;
      }
      NumberStop(content, offset + i, room - i);
      Cat(text, "", "");
    }

    method ParseNumber(lib: Library) returns (ok: bool, item: Json)
      requires offset <= |content|
      modifies this`offset
      ensures ReadNumber(lib, content, old(offset)) == if ok then Some((item, offset)) else None
      ensures offset <= |content|
    {
      hide NumberText;
      ok, item := false, Invalid;
      var text := CollectNumber(63);
      var r := lib.strtod(text);
      if r.None? || !(0 < r.value.1 <= |text|) { return; }
      ok, item := true, Number(r.value.0);
      offset := offset + r.value.1;
    }

    /** A value at the offset; its elements and members are one level deeper. */
    method ParseValue(lib: Library) returns (ok: bool, item: Json)
      requires offset <= |content|
      modifies this`offset, this`depth
      ensures ReadValue(lib, content, old(offset), old(depth)) == if ok then Some((item, offset)) else None
      ensures offset <= |content| && (ok ==> depth == old(depth))
      decreases |content| - offset, 2
    {
      hide ReadItems, ReadMembers, ReadString, ReadNumber, Skip;
      ok, item := true, Null;
      if Holds(content, offset, "null") {
        offset := offset + 4;
      } else if Holds(content, offset, "false") {
        offset, item := offset + 5, False;
      } else if Holds(content, offset, "true") {
        offset, item := offset + 4, True;
      } else if offset == |content| {
        ok := false;
      } else if content[offset] == '"' {
        var s;
        ok, s := ParseString();
        item := String(s);
      } else if content[offset] == '-' || '0' <= content[offset] <= '9' {
        ok, item := ParseNumber(lib);
      } else if content[offset] == '[' {
        NoWords(content, offset);
        ReadArray(lib, content, offset, depth);
        ok, item := ParseArray(lib);
      } else if content[offset] == '{' {
        NoWords(content, offset);
        ReadObject(lib, content, offset, depth);
        ok, item := ParseObject(lib);
      } else {
        ok := false;
      }
    }

    method ParseArray(lib: Library) returns (ok: bool, item: Json)
      requires offset < |content| && content[offset] == '['
      modifies this`offset, this`depth
      ensures ReadValue(lib, content, old(offset), old(depth)) == if ok then Some((item, offset)) else None
      ensures offset <= |content| && (ok ==> depth == old(depth))
      decreases |content| - offset, 1
    {
      hide ReadValue, ReadItems, Skip, Holds;
      ok, item := false, Invalid;
      ReadArray(lib, content, offset, depth);
      if depth >= NESTING_LIMIT { return; }
      depth := depth + 1;
      offset := offset + 1;
      SkipWhitespace();
      if offset < |content| && content[offset] == ']' {
        depth := depth - 1;
        offset := offset + 1;
        return true, Array([]);
      }
      if offset >= |content| {
        offset := offset - 1;
        return;
      }
      offset := offset - 1;
      var items;
      ok, items := ParseItems(lib);
      if !ok { return; }
      depth := depth - 1;
      item := Array(items);
    }

    /** Values after the offset, separated by commas, and the closing bracket. */
    method ParseItems(lib: Library) returns (ok: bool, items: seq<Json>)
      requires offset < |content|
      modifies this`offset, this`depth
      ensures ReadItems(lib, content, old(offset) + 1, old(depth)) == if ok then Some((items, offset)) else None
      ensures offset <= |content| && (ok ==> depth == old(depth))
      decreases |content| - offset, 0
    {
      hide ReadValue, ReadItems, Skip;
      ok, items := false, [];
      ghost var all := ReadItems(lib, content, offset + 1, depth);
      OntoNothing(all);
      var comma := true;
      while comma
        invariant offset < |content| && depth == old(depth) && old(offset) <= offset && !ok
        invariant comma ==> all == Onto(items, ReadItems(lib, content, offset + 1, depth))
        invariant !comma ==> all == if content[offset] == ']' then Some((items, offset + 1)) else None
        decreases comma, |content| - offset
      {
        ItemsStep(lib, content, offset + 1, depth);
        offset := offset + 1;
        SkipWhitespace();
        var fine, v := ParseValue(lib);
        if !fine { return; }
        SkipWhitespace();
        if offset == |content| { return; }
        comma := content[offset] == ',';
        if comma { OntoMore(items, v, ReadItems(lib, content, offset + 1, depth)); }
        items := items + [v];
      }
      ok := content[offset] == ']';
      offset := offset + 1;
    }

    /** A key, a colon and a value. */
    method ParseMember(lib: Library) returns (ok: bool, m: Member)
      requires offset < |content|
      modifies this`offset, this`depth
      ensures ReadMember(lib, content, old(offset), old(depth)) == if ok then Some((m, offset)) else None
      ensures offset <= |content| && (ok ==> depth == old(depth) && offset > old(offset))
      decreases |content| - offset, 3
    {
      hide ReadValue, ReadString, Skip;
      ok, m := false, Member("", Null);
      SkipWhitespace();
      var fine, key := ParseString();
      if !fine { return; }
      SkipWhitespace();
      if offset == |content| || content[offset] != ':' { return; }
      offset := offset + 1;
      SkipWhitespace();
      var v;
      ok, v := ParseValue(lib);
      m := Member(key, v);
    }

    method ParseObject(lib: Library) returns (ok: bool, item: Json)
      requires offset < |content| && content[offset] == '{'
      modifies this`offset, this`depth
      ensures ReadValue(lib, content, old(offset), old(depth)) == if ok then Some((item, offset)) else None
      ensures offset <= |content| && (ok ==> depth == old(depth))
      decreases |content| - offset, 1
    {
      hide ReadValue, ReadMembers, ReadMember, Skip, Holds;
      ok, item := false, Invalid;
      ReadObject(lib, content, offset, depth);
      if depth >= NESTING_LIMIT { return; }
      depth := depth + 1;
      offset := offset + 1;
      SkipWhitespace();
      if offset < |content| && content[offset] == '}' {
        depth := depth - 1;
        offset := offset + 1;
        return true, Object([]);
      }
      if offset >= |content| {
        offset := offset - 1;
        return;
      }
      offset := offset - 1;
      var members;
      ok, members := ParseMembers(lib);
      if !ok { return; }
      depth := depth - 1;
      item := Object(members);
    }

    /** Members after the offset, separated by commas, and the closing brace. */
    method ParseMembers(lib: Library) returns (ok: bool, members: seq<Member>)
      requires offset < |content|
      modifies this`offset, this`depth
      ensures ReadMembers(lib, content, old(offset) + 1, old(depth)) == if ok then Some((members, offset)) else None
      ensures offset <= |content| && (ok ==> depth == old(depth))
      decreases |content| - offset, 0
    {
      hide ReadValue, ReadMembers, ReadMember, Skip;
      ok, members := false, [];
      ghost var all := ReadMembers(lib, content, offset + 1, depth);
      OntoNothing(all);
      var comma := true;
      while comma
        invariant offset < |content| && depth == old(depth) && old(offset) <= offset && !ok
        invariant comma ==> all == Onto(members, ReadMembers(lib, content, offset + 1, depth))
        invariant !comma ==> all == if content[offset] == '}' then Some((members, offset + 1)) else None
        decreases comma, |content| - offset
      {
        if offset + 1 >= |content| {
          NothingLeft(lib, content, depth);
          return;
        }
        MembersByOne(lib, content, offset + 1, depth);
        offset := offset + 1;
        var fine, m := ParseMember(lib);
        if !fine { return; }
        SkipWhitespace();
        if offset == |content| { return; }
        comma := content[offset] == ',';
        if comma { OntoMore(members, m, ReadMembers(lib, content, offset + 1, depth)); }
        members := members + [m];
      }
      ok := content[offset] == '}';
      offset := offset + 1;
    }
  }

  function ReadMember(lib: Library, buf: string, p: nat, depth: nat): (r: Option<(Member, nat)>)
    requires p < |buf|
    ensures r.Some? ==> p < r.value.1 <= |buf|
  {
    match ReadString(buf, Skip(buf, p))
    case None => None
    case Some((key, q)) =>
      var c := Skip(buf, q);
      if c == |buf| || buf[c] != ':' then None
      else match ReadValue(lib, buf, Skip(buf, c + 1), depth)
        case None => None
        case Some((v, r)) => Some((Member(key, v), r))
  }

  lemma {:induction false} MembersByOne(lib: Library, buf: string, p: nat, depth: nat)
    requires p < |buf|
    ensures ReadMembers(lib, buf, p, depth) ==
      match ReadMember(lib, buf, p, depth)
      case None => None
      case Some((m, r)) =>
        var e := Skip(buf, r);
        if e == |buf| then None
        else if buf[e] == ',' then
          match ReadMembers(lib, buf, e + 1, depth) case None => None case Some((more, x)) => Some(([m] + more, x))
        else if buf[e] == '}' then Some(([m], e + 1))
        else None
  {
    hide ReadValue, ReadString, Skip, ReadMembers;
    MembersStep(lib, buf, p, depth);
  }

  /** What was read before, and what reading on gives. */
  function Onto<T>(before: seq<T>, r: Option<(seq<T>, nat)>): Option<(seq<T>, nat)>
  {
    match r case None => None case Some((more, end)) => Some((before + more, end))
  }

  lemma {:induction false} OntoNothing<T>(r: Option<(seq<T>, nat)>)
    ensures Onto([], r) == r
  {
    if r.Some? { assert [] + r.value.0 == r.value.0; }
  }

  lemma {:induction false} OntoMore<T>(before: seq<T>, v: T, r: Option<(seq<T>, nat)>)
    ensures Onto(before + [v], r) ==
      Onto(before, match r case None => None case Some((more, end)) => Some(([v] + more, end)))
  {
    if r.Some? { assert before + [v] + r.value.0 == before + ([v] + r.value.0); }
  }

  lemma {:induction false} NothingLeft(lib: Library, buf: string, depth: nat)
    ensures ReadMembers(lib, buf, |buf|, depth) == None
  {
  }

  /** Reads a text up to its terminator; a strict reader wants nothing but blanks after the value. */
  method Parse(lib: Library, text: string, strict: bool) returns (ok: bool, item: Json)
    ensures Read(lib, text, strict) == if ok then Some(item) else None
    ensures forall j :: JsonReading.Written(lib, text, j) ==>
      (ok <==> Depth(j) <= NESTING_LIMIT) && (ok ==> item == j)
  {
    hide ReadValue, Skip, JsonReading.Written, Depth;
    JsonReading.WrittenReads(lib, text, strict);
    var content := text + [0 as char];
    var buffer := new ParseBuffer(content);
    buffer.offset := MarkEnd(content);
    buffer.SkipWhitespace();
    ok, item := buffer.ParseValue(lib);
    if ok && strict {
      buffer.SkipWhitespace();
      ok := buffer.offset < |content| && content[buffer.offset] == 0 as char;
    }
  }

  lemma {:induction false} NumberStep(buf: string, off: nat, room: nat)
    requires room > 0 && off < |buf| && NumberChar(buf[off])
    ensures NumberText(buf, off, room) == [buf[off]] + NumberText(buf, off + 1, room - 1)
  {
    hide NumberChar;
  }

  lemma {:induction false} NumberStop(buf: string, off: nat, room: nat)
    requires off <= |buf| && (room == 0 || off == |buf| || !NumberChar(buf[off]))
    ensures NumberText(buf, off, room) == ""
  {
    hide NumberChar;
  }
}
