/** Where a text stands in the buffer does not matter to the reader, so a byte order mark in front changes nothing. */
module JsonMark {
  import opened Options
  import opened JsonTree
  import opened JsonText
  import opened JsonReading
  import RoundTrip = JsonTextRoundTrip

  /** A result whose position has moved. */
  function Moved<T>(r: Option<(T, nat)>, shift: nat): Option<(T, nat)>
  {
    match r case None => None case Some((v, q)) => Some((v, q + shift))
  }

  lemma {:induction false} BlankEndMoves(f: string, b: string, p: nat)
    requires p <= |b|
    ensures BlankEnd(f + b, |f| + p) == |f| + BlankEnd(b, p)
    decreases |b| - p
  {
    if p < |b| && b[p] <= 32 as char { BlankEndMoves(f, b, p + 1); }
  }

  lemma {:induction false} SkipMoves(f: string, b: string, p: nat)
    requires p <= |b|
    ensures Skip(f + b, |f| + p) == |f| + Skip(b, p)
  {
    hide BlankEnd;
    BlankEndMoves(f, b, p);
  }

  lemma {:induction false} QuoteMoves(f: string, b: string, p: nat)
    requires p <= |b|
    ensures ClosingQuote(f + b, |f| + p) ==
      match ClosingQuote(b, p) case None => None case Some(e) => Some(|f| + e)
    decreases |b| - p
  {
    if p < |b| && b[p] != '"' {
      if b[p] != '\\' {
        QuoteMoves(f, b, p + 1);
      } else if p + 1 < |b| {
        QuoteMoves(f, b, p + 2);
      }
    }
  }

  lemma {:induction false} Utf16Moves(f: string, b: string, p: nat, end: nat)
    requires p <= end <= |b|
    ensures Utf16(f + b, |f| + p, |f| + end) == Utf16(b, p, end)
  {
    hide HexValue, Utf8;
    if end - p >= 6 {
      assert Hex4(f + b, |f| + p + 2) == Hex4(b, p + 2);
      if end - p >= 12 { assert Hex4(f + b, |f| + p + 8) == Hex4(b, p + 8); }
    }
  }

  lemma {:induction false} UnescapeMoves(f: string, b: string, p: nat, end: nat)
    requires end < |b|
    ensures Unescape(f + b, |f| + p, |f| + end) == Unescape(b, p, end)
    decreases if p < end then end - p else 0
  {
    hide Utf16, Escape;
    if p < end {
      assert (f + b)[|f| + p] == b[p] && (f + b)[|f| + p + 1] == b[p + 1];
      if b[p] != '\\' {
        UnescapeMoves(f, b, p + 1, end);
      } else if b[p + 1] == 'u' {
        Utf16Moves(f, b, p, end);
        match Utf16(b, p, end)
        case Some((_, n)) =>
          assert |f| + p + n == |f| + (p + n);
          UnescapeMoves(f, b, p + n, end);
        case None =>
      } else {
        UnescapeMoves(f, b, p + 2, end);
      }
    }
  }

  lemma {:induction false} StringMoves(f: string, b: string, p: nat)
    requires p < |b|
    ensures ReadString(f + b, |f| + p) == Moved(ReadString(b, p), |f|)
  {
    hide ClosingQuote, Unescape;
    QuoteMoves(f, b, p + 1);
    match ClosingQuote(b, p + 1)
    case Some(end) => UnescapeMoves(f, b, p + 1, end);
    case None =>
  }

  lemma {:induction false} NumberTextMoves(f: string, b: string, p: nat, room: nat)
    requires p <= |b|
    ensures NumberText(f + b, |f| + p, room) == NumberText(b, p, room)
    decreases room
  {
    hide NumberChar;
    if room > 0 && p < |b| { NumberTextMoves(f, b, p + 1, room - 1); }
  }

  lemma {:induction false} NumberMoves(lib: Library, f: string, b: string, p: nat)
    requires p <= |b|
    ensures ReadNumber(lib, f + b, |f| + p) == Moved(ReadNumber(lib, b, p), |f|)
  {
    hide NumberText;
    NumberTextMoves(f, b, p, 63);
  }

  lemma {:induction false} HoldsMoves(f: string, b: string, p: nat, word: string)
    ensures Holds(f + b, |f| + p, word) == Holds(b, p, word)
  {
    if p + |word| <= |b| { assert (f + b)[|f| + p..|f| + p + |word|] == b[p..p + |word|]; }
  }

  lemma {:induction false} ScalarMoves(lib: Library, f: string, b: string, p: nat, depth: nat)
    requires p <= |b| && (p < |b| ==> b[p] != '[' && b[p] != '{')
    ensures ReadValue(lib, f + b, |f| + p, depth) == Moved(ReadValue(lib, b, p, depth), |f|)
  {
    hide ReadString, ReadNumber, ReadItems, ReadMembers, Skip, Holds;
    HoldsMoves(f, b, p, "null");
    HoldsMoves(f, b, p, "false");
    HoldsMoves(f, b, p, "true");
    if p < |b| {
      assert (f + b)[|f| + p] == b[p];
      StringMoves(f, b, p);
      NumberMoves(lib, f, b, p);
    }
  }

  lemma {:induction false} ValueMoves(lib: Library, f: string, b: string, p: nat, depth: nat)
    requires p <= |b|
    ensures ReadValue(lib, f + b, |f| + p, depth) == Moved(ReadValue(lib, b, p, depth), |f|)
    decreases |b| - p, 1
  {
    hide ReadValue, ReadItems, ReadMembers, Skip;
    if p == |b| || (b[p] != '[' && b[p] != '{') {
      ScalarMoves(lib, f, b, p, depth);
    } else {
      assert (f + b)[|f| + p] == b[p];
      SkipMoves(f, b, p + 1);
      var q := Skip(b, p + 1);
      if q < |b| { assert (f + b)[|f| + q] == b[q]; }
      if b[p] == '[' {
        RoundTrip.ReadArray(lib, b, p, depth);
        RoundTrip.ReadArray(lib, f + b, |f| + p, depth);
        ItemsMove(lib, f, b, q, depth + 1);
      } else {
        RoundTrip.ReadObject(lib, b, p, depth);
        RoundTrip.ReadObject(lib, f + b, |f| + p, depth);
        MembersMove(lib, f, b, q, depth + 1);
      }
    }
  }

  lemma {:induction false} ItemsMove(lib: Library, f: string, b: string, p: nat, depth: nat)
    requires p <= |b|
    ensures ReadItems(lib, f + b, |f| + p, depth) == Moved(ReadItems(lib, b, p, depth), |f|)
    decreases |b| - p, 2
  {
    hide ReadValue, ReadItems, Skip;
    RoundTrip.ItemsStep(lib, b, p, depth);
    RoundTrip.ItemsStep(lib, f + b, |f| + p, depth);
    SkipMoves(f, b, p);
    ValueMoves(lib, f, b, Skip(b, p), depth);
    match ReadValue(lib, b, Skip(b, p), depth)
    case None =>
    case Some((_, q)) =>
      SkipMoves(f, b, q);
      var e := Skip(b, q);
      if e < |b| {
        assert (f + b)[|f| + e] == b[e];
        ItemsMove(lib, f, b, e + 1, depth);
      }
  }

  lemma {:induction false} MembersAtEnd(lib: Library, b: string, depth: nat)
    ensures ReadMembers(lib, b, |b|, depth) == None
  {
  }

  lemma {:induction false} MembersMove(lib: Library, f: string, b: string, p: nat, depth: nat)
    requires p <= |b|
    ensures ReadMembers(lib, f + b, |f| + p, depth) == Moved(ReadMembers(lib, b, p, depth), |f|)
    decreases |b| - p, 2
  {
    hide ReadValue, ReadMembers, Skip, ReadString;
    if p == |b| {
      MembersAtEnd(lib, b, depth);
      MembersAtEnd(lib, f + b, depth);
    } else {
      SkipMoves(f, b, p);
      StringMoves(f, b, Skip(b, p));
      RoundTrip.MembersStep(lib, b, p, depth);
      RoundTrip.MembersStep(lib, f + b, |f| + p, depth);
      match ReadString(b, Skip(b, p))
      case None =>
      case Some((_, q)) =>
        SkipMoves(f, b, q);
        var c := Skip(b, q);
        if c < |b| {
          assert (f + b)[|f| + c] == b[c];
          SkipMoves(f, b, c + 1);
          ValueMoves(lib, f, b, Skip(b, c + 1), depth);
          match ReadValue(lib, b, Skip(b, c + 1), depth)
          case None =>
          case Some((_, r)) =>
            SkipMoves(f, b, r);
            var e := Skip(b, r);
            if e < |b| {
              assert (f + b)[|f| + e] == b[e];
              MembersMove(lib, f, b, e + 1, depth);
            }
        }
    }
  }

  lemma {:induction false} MarkIsFront(text: string)
    ensures MarkEnd(text + [0 as char]) != 0 ==> MARK <= text
  {
    if MarkEnd(text + [0 as char]) != 0 { assert MARK == text[..3]; }
  }

  /** Any text but an empty one reads behind a byte order mark as it reads without it. */
  lemma {:induction false} MarkChangesNothing(lib: Library, text: string, strict: bool)
    requires text != "" && !(MARK <= text)
    ensures Read(lib, MARK + text, strict) == Read(lib, text, strict)
  {
    hide ReadValue, Skip;
    var b := text + [0 as char];
    assert MARK + text + [0 as char] == MARK + b;
    assert MarkEnd(MARK + b) == 3;
    MarkIsFront(text);
    SkipMoves(MARK, b, 0);
    ValueMoves(lib, MARK, b, Skip(b, 0), 0);
    match ReadValue(lib, b, Skip(b, 0), 0)
    case None =>
    case Some((_, q)) => SkipMoves(MARK, b, q);
  }
}
