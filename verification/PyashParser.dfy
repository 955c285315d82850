/** The tokenizer and the parser as the program runs them, against the specification of reading. */
module PyashParser {
  import opened Options
  import opened PyashIr
  import opened PyashRead
  import opened PyashRoundTrip
  import PyashNotation
  import PyashReading

  // ---------------------------------------------------------------- tokens

  lemma {:induction false} QuotedAt(input: string, p: nat)
    requires p < |input| && input[p] != '"'
    ensures var q := if input[p] == '\\' && p + 1 < |input| then p + 1 else p;
      var (w, n) := QuotedWord(input[q + 1..]);
      QuotedWord(input[p..]) == ([input[q]] + w, n + (q + 1 - p))
  {
    hide QuotedWord;
    var q := if input[p] == '\\' && p + 1 < |input| then p + 1 else p;
    var s := input[p..];
    QuotedStep(s);
    assert s[q + 1 - p..] == input[q + 1..] && s[q - p..q + 1 - p] == [input[q]];
  }

  lemma {:induction false} Append(a: string, c: char, b: string)
    ensures a + ([c] + b) == a + [c] + b
  {
  }

  /** From an opening quote's successor to the character after its closing quote. */
  method TakeQuoted(input: string, start: nat) returns (word: string, pos: nat)
    requires start <= |input|
    ensures start <= pos <= |input|
    ensures QuotedWord(input[start..]) == (word, pos - start)
  {
    hide QuotedWord;
    word, pos := "", start;
    assert "" + QuotedWord(input[start..]).0 == QuotedWord(input[start..]).0;
    while pos < |input| && input[pos] != '"'
      invariant start <= pos <= |input|
      invariant QuotedWord(input[start..]) ==
        (word + QuotedWord(input[pos..]).0, pos - start + QuotedWord(input[pos..]).1)
    {
      QuotedAt(input, pos);
      if input[pos] == '\\' && pos + 1 < |input| { pos := pos + 1; }
      Append(word, input[pos], QuotedWord(input[pos + 1..]).0);
      word := word + [input[pos]];
      pos := pos + 1;
    }
    assert word + "" == word;
    QuotedEnd(input[pos..]);
    if pos < |input| && input[pos] == '"' { pos := pos + 1; }
  }

  lemma {:induction false} QuotedEnd(s: string)
    requires s == "" || s[0] == '"'
    ensures QuotedWord(s) == ("", if s == "" then 0 else 1)
  {
  }

  method TakePlain(input: string, start: nat) returns (word: string, pos: nat)
    requires start <= |input|
    ensures start <= pos <= |input| && word == input[start..pos]
    ensures pos == start + PlainLength(input[start..])
  {
    hide PlainLength, IsSpace;
    word, pos := "", start;
    while pos < |input| && !IsSpace(input[pos])
      invariant start <= pos <= |input| && word == input[start..pos]
      invariant start + PlainLength(input[start..]) == pos + PlainLength(input[pos..])
    {
      assert input[pos..][1..] == input[pos + 1..];
      word := word + [input[pos]];
      pos := pos + 1;
    }
    if pos == |input| { assert PlainLength(input[pos..]) <= 0; } else { PlainStop(input[pos..]); }
  }

  lemma {:induction false} PlainStop(s: string)
    requires s != "" && IsSpace(s[0])
    ensures PlainLength(s) == 0
  {
  }

  /** Splits the text at its blanks, quotes taken off. */
  method Tokenize(input: string) returns (items: seq<string>)
    ensures items == Words(input)
  {
    hide PlainLength, IsSpace, QuotedWord;
    items := [];
    var pos := 0;
    assert input[0..] == input && [] + Words(input) == Words(input);
    while pos < |input|
      invariant pos <= |input| && items + Words(input[pos..]) == Words(input)
      decreases |input| - pos
    {
      var rest := input[pos..];
      assert rest[1..] == input[pos + 1..];
      if IsSpace(input[pos]) {
        pos := pos + 1;
      } else {
        ghost var before := items;
        if input[pos] == '"' {
          var word, next := TakeQuoted(input, pos + 1);
          assert rest[1 + (next - pos - 1)..] == input[next..];
          items := items + [word];
          pos := next;
          assert before + ([word] + Words(input[next..])) == items + Words(input[next..]);
        } else {
          var word, next := TakePlain(input, pos);
          assert rest[..next - pos] == word && rest[next - pos..] == input[next..];
          items := items + [word];
          pos := next;
          assert before + ([word] + Words(input[next..])) == items + Words(input[next..]);
        }
      }
    }
    assert Words("") == [] && input[pos..] == "" && items + [] == items;
  }

  // ---------------------------------------------------------------- values and sentences

  lemma {:induction false} CloseStep(ts: seq<string>, depth: nat)
    requires ts != [] && depth > 0
    ensures Close(ts, depth) ==
      if ts[0] == "la" then Later(Close(ts[1..], depth + 1))
      else if ts[0] == "ko" then if depth == 1 then Some(0) else Later(Close(ts[1..], depth - 1))
      else Later(Close(ts[1..], depth))
  {
  }

  /** The index of the closing bracket, or of the end when there is none. */
  method FindClose(tokens: seq<string>, start: nat, count: nat) returns (end: nat, depth: nat)
    requires start <= count <= |tokens|
    ensures start <= end <= count
    ensures Close(tokens[start..count], 1) == if end < count && depth == 0 then Some(end - start) else None
    ensures end < count <==> depth == 0
  {
    hide Close;
    end, depth := start, 1;
    while end < count
      invariant start <= end <= count && depth > 0
      invariant Close(tokens[start..count], 1) == Shifted(end - start, Close(tokens[end..count], depth))
      decreases count - end
    {
      var rest := tokens[end..count];
      CloseStep(rest, depth);
      assert rest[0] == tokens[end] && rest[1..] == tokens[end + 1..count];
      if tokens[end] == "la" {
        depth := depth + 1;
      } else if tokens[end] == "ko" {
        depth := depth - 1;
        if depth == 0 { return; }
      }
      end := end + 1;
    }
  }

  method ParseSteps(tokens: seq<string>, start: nat, count: nat) returns (steps: seq<string>, idx: nat)
    requires start <= count <= |tokens|
    ensures start <= idx <= count && ReadSteps(tokens[start..count]) == (steps, idx - start)
  {
    hide ReadSteps;
    steps, idx := [], start;
    assert [] + ReadSteps(tokens[start..count]).0 == ReadSteps(tokens[start..count]).0;
    while idx + 1 < count && tokens[idx] == "ti"
      invariant start <= idx <= count
      invariant var (more, n) := ReadSteps(tokens[idx..count]);
        ReadSteps(tokens[start..count]) == (steps + more, idx - start + n)
      decreases count - idx
    {
      var rest := tokens[idx..count];
      StepsStep(rest);
      assert rest[1] == tokens[idx + 1] && rest[2..] == tokens[idx + 2..count];
      ghost var more := ReadSteps(rest[2..]).0;
      assert steps + ([tokens[idx + 1]] + more) == steps + [tokens[idx + 1]] + more;
      steps := steps + [tokens[idx + 1]];
      idx := idx + 2;
    }
    StepsStep(tokens[idx..count]);
    assert steps + [] == steps;
  }

  lemma {:induction false} ElementsStep(lib: Numerals, elem: string, ts: seq<string>)
    ensures ReadElements(lib, elem, ts) ==
      if ts == [] || Stops(ts[0]) then Some(([], 0))
      else
        var v := ReadElement(lib, elem, ts[0]);
        var more := ReadElements(lib, elem, ts[1..]);
        if v.None? || more.None? then None else Some(([v.value] + more.value.0, more.value.1 + 1))
  {
    hide ReadElement, Stops;
  }

  method ParseElements(lib: Numerals, elem: string, tokens: seq<string>, start: nat, count: nat)
    returns (ok: bool, values: seq<Value>, idx: nat)
    requires start <= count <= |tokens|
    ensures start <= idx <= count
    ensures ReadElements(lib, elem, tokens[start..count]) == if ok then Some((values, idx - start)) else None
  {
    hide ReadElements, ReadElement, Stops;
    values, idx := [], start;
    var all := ReadElements(lib, elem, tokens[start..count]);
    assert all.Some? ==> [] + all.value.0 == all.value.0;
    while idx < count && !Stops(tokens[idx])
      invariant start <= idx <= count
      invariant var more := ReadElements(lib, elem, tokens[idx..count]);
        all == if more.None? then None else Some((values + more.value.0, idx - start + more.value.1))
      decreases count - idx
    {
      var rest := tokens[idx..count];
      ElementsStep(lib, elem, rest);
      assert rest[0] == tokens[idx] && rest[1..] == tokens[idx + 1..count];
      var v := ReadElement(lib, elem, tokens[idx]);
      if v.None? { return false, values, idx; }
      var more := ReadElements(lib, elem, rest[1..]);
      assert more.Some? ==> values + ([v.value] + more.value.0) == values + [v.value] + more.value.0;
      values := values + [v.value];
      idx := idx + 1;
    }
    ElementsStep(lib, elem, tokens[idx..count]);
    assert values + [] == values;
    ok := true;
  }

  method ParseVector(lib: Numerals, tokens: seq<string>, start: nat, count: nat) returns (ok: bool, v: Value, idx: nat)
    requires start <= count <= |tokens|
    ensures start <= idx <= count
    ensures ReadVector(lib, tokens[start..count]) == if ok then Some((v, idx - start)) else None
  {
    hide ReadElements, IsTypeWord;
    var elem := "num";
    idx, v, ok := start, Unspec, false;
    ghost var ts := tokens[start..count];
    if idx < count && IsTypeWord(tokens[idx]) {
      assert ts[0] == tokens[start];
      elem := tokens[idx];
      idx := idx + 1;
    }
    assert idx < count && idx == start ==> ts[0] == tokens[idx];
    assert ts[idx - start..] == tokens[idx..count];
    if elem == "hollow" { return true, Vector(Some(elem), []), idx; }
    if !(elem == "num" || elem == "text" || elem == "bool" || elem == "name") { return; }
    var from, values := idx, [];
    ok, values, idx := ParseElements(lib, elem, tokens, from, count);
    v := Vector(Some(elem), values);
  }

  method ParseBase(tokens: seq<string>, start: nat, count: nat) returns (ok: bool, base: Option<Name>, idx: nat)
    requires start < count <= |tokens|
    ensures start <= idx <= count
    ensures ReadBase(tokens[start..count]) == if ok then Some((base, idx - start)) else None
  {
    hide IsTypeWord;
    ghost var ts := tokens[start..count];
    assert ts[0] == tokens[start];
    ok, base, idx := false, None, start;
    if tokens[start] == "this" { return true, None, start + 1; }
    if tokens[start] == "name" {
      if start + 1 >= count { return; }
      var next := tokens[start + 1];
      assert ts[1] == next;
      if IsTypeWord(next) && start + 2 < count {
        assert ts[2] == tokens[start + 2];
        return true, Some(Name(Some(next), Some(tokens[start + 2]))), start + 3;
      }
      return true, Some(Name(None, Some(next))), start + 2;
    }
  }

  /** One value; `idx` moves past it. */
  method ParseValue(lib: Numerals, tokens: seq<string>, count: nat, start: nat) returns (ok: bool, v: Value, idx: nat)
    requires start <= count <= |tokens|
    ensures ok ==> start < idx <= count
    ensures ReadValue(lib, tokens[start..count]) == if ok then Some((v, idx - start)) else None
    decreases count - start, 2
  {
    hide ReadValue, Close, ReadVector, ReadBase, ReadSteps, ReadSentence, MoodOf;
    ghost var ts := tokens[start..count];
    ok, v, idx := false, Unspec, start;
    if start >= count { return; }
    var token := tokens[start];
    assert ts[0] == token && ts[1..] == tokens[start + 1..count];
    assert start + 1 < count ==> ts[1] == tokens[start + 1];
    if token == "la" {
      ok, v, idx := ParseEmbedded(lib, tokens, count, start);
    } else if token == "num" || token == "text" || token == "bool" {
      ReadLiteral(lib, ts);
      if start + 1 >= count { return; }
      var lit := tokens[start + 1];
      if token == "num" {
        var n := lib.scan(lit);
        if n.None? { return; }
        return true, Num(n.value), start + 2;
      }
      if token == "text" { return true, Text(lit), start + 2; }
      return true, Bool(lit == "truth"), start + 2;
    } else if token == "hollow" {
      ReadPlain(lib, ts);
      return true, Hollow, start + 1;
    } else if token == "unspecified" {
      ReadPlain(lib, ts);
      return true, Unspec, start + 1;
    } else if token == "ve" || token == "vec" {
      ReadAnyVector(lib, ts);
      ok, v, idx := ParseVector(lib, tokens, start + 1, count);
    } else {
      ReadOther(lib, ts);
      var base;
      ok, base, idx := ParseBase(tokens, start, count);
      if !ok { return; }
      assert ts[idx - start..] == tokens[idx..count];
      var steps;
      var from := idx;
      steps, idx := ParseSteps(tokens, from, count);
      v := if |steps| > 0 then Path(base, steps) else if base.None? then This else Named(base.value);
      StepsCount(tokens[from..count]);
    }
  }

  /** A sentence in brackets, from its opening bracket. */
  method ParseEmbedded(lib: Numerals, tokens: seq<string>, count: nat, start: nat)
    returns (ok: bool, v: Value, idx: nat)
    requires start < count <= |tokens| && tokens[start] == "la"
    ensures ok ==> start < idx <= count
    ensures ReadValue(lib, tokens[start..count]) == if ok then Some((v, idx - start)) else None
    decreases count - start, 1
  {
    hide ReadValue, Close, ReadSentence, MoodOf;
    ghost var ts := tokens[start..count];
    ok, v, idx := false, Unspec, start;
    assert ts[1..] == tokens[start + 1..count];
    ReadEmbedded(lib, ts);
    var end, depth := FindClose(tokens, start + 1, count);
    if end >= count || depth != 0 { return; }
    if end <= start + 1 { return; }
    var mood, sentenceEnd := Ya, end;
    var last := MoodOf(tokens[end - 1]);
    assert ts[end - start - 1] == tokens[end - 1];
    if last.Some? {
      mood := last.value;
      sentenceEnd := end - 1;
    }
    Slice(tokens, start, count, sentenceEnd);
    var child;
    ok, child := ParseSentenceTokens(lib, tokens, start + 1, sentenceEnd, mood);
    if !ok { return; }
    v, idx := Embedded(child.(mood := mood)), end + 1;
  }

  /** The parts of a sentence, from its first token to before its mood. */
  method ParseSentenceTokens(lib: Numerals, tokens: seq<string>, start: nat, end: nat, mood: Mood)
    returns (ok: bool, out: Sentence)
    requires start <= end <= |tokens|
    ensures ReadSentence(lib, tokens[start..end], Blank(mood)) == if ok then Some(out) else None
    decreases end - start, 1
  {
    hide ReadValue, ReadSentence, With;
    out := Blank(mood);
    ok := false;
    var idx := start;
    ghost var result := ReadSentence(lib, tokens[start..end], Blank(mood));
    while idx < end
      invariant start <= idx <= end && out.mood == mood && !ok
      invariant result == ReadSentence(lib, tokens[idx..end], out)
      decreases end - idx
    {
      var token := tokens[idx];
      ghost var ts := tokens[idx..end];
      assert ts[0] == token && ts[1..] == tokens[idx + 1..end];
      ReadPart(lib, ts, out);
      if token == "exists" {
        out := out.(exists_ := true);
        idx := idx + 1;
      } else if token == "be" {
        if idx + 1 >= end { return; }
        assert ts[1] == tokens[idx + 1] && ts[2..] == tokens[idx + 2..end];
        if idx + 2 < end && (tokens[idx + 1] == "json" || tokens[idx + 1] == "csv") && tokens[idx + 2] == "map" {
          assert ts[2] == tokens[idx + 2] && ts[3..] == tokens[idx + 3..end];
          out := out.(be := Some(tokens[idx + 1] + " map"));
          idx := idx + 3;
        } else {
          assert idx + 2 < end ==> ts[2] == tokens[idx + 2];
          out := out.(be := Some(tokens[idx + 1]));
          idx := idx + 2;
        }
      } else if token == "then" {
        if idx + 1 >= end { return; }
        var fine, child := ParseSentenceTokens(lib, tokens, idx + 1, end, out.mood);
        if fine {
          out := out.(next := Some(child.(mood := out.mood)));
          ok := true;
        }
        return;
      } else {
        var c := CaseOf(token);
        if c.None? { return; }
        var fine, v, after := ParseValue(lib, tokens, end, idx + 1);
        if !fine { return; }
        assert ts[1 + (after - idx - 1)..] == tokens[after..end];
        out := With(out, c.value, v);
        idx := after;
      }
    }
    ReadEnd(lib, tokens[idx..end], out);
    ok := true;
  }

  /** A whole text. */
  method ParseSentence(lib: Numerals, input: string) returns (ok: bool, out: Sentence)
    ensures Read(lib, input) == if ok then Some(out) else None
    ensures forall s :: PyashNotation.Says(lib, input, s) ==> ok && out == s
  {
    hide Words, MoodOf, ReadSentence, PyashNotation.Says;
    PyashReading.SaysRead(lib, input);
    ok, out := false, Blank(Ya);
    var tokens := Tokenize(input);
    if tokens == [] { return; }
    var last := MoodOf(tokens[|tokens| - 1]);
    if last.None? { return; }
    assert tokens[0..|tokens| - 1] == tokens[..|tokens| - 1];
    ok, out := ParseSentenceTokens(lib, tokens, 0, |tokens| - 1, last.value);
    out := out.(mood := last.value);
  }

  // ---------------------------------------------------------------- single steps of the specification

  lemma {:induction false} Slice(ts: seq<string>, start: nat, count: nat, end: nat)
    requires start < end <= count <= |ts|
    ensures ts[start..count][1..end - start] == ts[start + 1..end]
  {
    var a, b := ts[start..count][1..end - start], ts[start + 1..end];
    assert |a| == |b|;
    assert forall i :: 0 <= i < |b| ==> a[i] == ts[start..count][i + 1] == b[i];
  }

  lemma {:induction false} ReadLiteral(lib: Numerals, ts: seq<string>)
    requires ts != [] && (ts[0] == "num" || ts[0] == "text" || ts[0] == "bool")
    ensures ReadValue(lib, ts) ==
      if |ts| < 2 then None
      else if ts[0] == "num" then (match lib.scan(ts[1]) case None => None case Some(n) => Some((Num(n), 2)))
      else if ts[0] == "text" then Some((Text(ts[1]), 2))
      else Some((Bool(ts[1] == "truth"), 2))
  {
    hide ReadSentence, Close, ReadBase, ReadSteps, ReadVector;
    assert "num"[0] != "la"[0];
  }

  lemma {:induction false} ReadAnyVector(lib: Numerals, ts: seq<string>)
    requires ts != [] && (ts[0] == "ve" || ts[0] == "vec")
    ensures ReadValue(lib, ts) == match ReadVector(lib, ts[1..]) case None => None case Some((v, n)) => Some((v, n + 1))
  {
    hide ReadSentence, Close, ReadBase, ReadSteps, ReadVector;
    assert "ve"[0] != "la"[0] && "vec"[0] != "num"[0];
  }

  lemma {:induction false} ReadOther(lib: Numerals, ts: seq<string>)
    requires ts != [] && ts[0] != "la" && ts[0] != "num" && ts[0] != "text" && ts[0] != "bool" && ts[0] != "hollow"
    requires ts[0] != "unspecified" && ts[0] != "ve" && ts[0] != "vec"
    ensures ReadValue(lib, ts) ==
      match ReadBase(ts) case None => None
      case Some((base, n)) => var (steps, m) := ReadSteps(ts[n..]);
        Some((if m > 0 then Path(base, steps) else if base.None? then This else Named(base.value), n + m))
  {
    hide ReadSentence, Close, ReadBase, ReadSteps, ReadVector;
  }

  lemma {:induction false} ReadEmbedded(lib: Numerals, ts: seq<string>)
    requires ts != [] && ts[0] == "la"
    ensures ReadValue(lib, ts) ==
      var k := Close(ts[1..], 1);
      if k.None? || k.value == 0 then None
      else
        var last := MoodOf(ts[k.value]);
        var mood := if last.Some? then last.value else Ya;
        match ReadSentence(lib, ts[1..if last.Some? then k.value else k.value + 1], Blank(mood))
        case None => None
        case Some(child) => Some((Embedded(child.(mood := mood)), k.value + 2))
  {
    hide ReadSentence, Close, ReadBase, ReadSteps, ReadVector, MoodOf;
  }

  lemma {:induction false} ReadPart(lib: Numerals, ts: seq<string>, s: Sentence)
    requires ts != []
    ensures ReadSentence(lib, ts, s) ==
      if ts[0] == "exists" then ReadSentence(lib, ts[1..], s.(exists_ := true))
      else if ts[0] == "be" then
        if |ts| < 2 then None
        else if |ts| > 2 && (ts[1] == "json" || ts[1] == "csv") && ts[2] == "map" then
          ReadSentence(lib, ts[3..], s.(be := Some(ts[1] + " map")))
        else ReadSentence(lib, ts[2..], s.(be := Some(ts[1])))
      else if ts[0] == "then" then
        if |ts| < 2 then None
        else
          match ReadSentence(lib, ts[1..], Blank(s.mood))
          case None => None
          case Some(child) => Some(s.(next := Some(child.(mood := s.mood))))
      else if CaseOf(ts[0]).None? then None
      else
        match ReadValue(lib, ts[1..])
        case None => None
        case Some((v, n)) => ReadSentence(lib, ts[1 + n..], With(s, CaseOf(ts[0]).value, v))
  {
    hide ReadValue, CaseOf, With;
  }

  lemma {:induction false} ReadEnd(lib: Numerals, ts: seq<string>, s: Sentence)
    requires ts == []
    ensures ReadSentence(lib, ts, s) == Some(s)
  {
  }

  lemma {:induction false} StepsCount(ts: seq<string>)
    ensures ReadSteps(ts).1 == 2 * |ReadSteps(ts).0|
    decreases |ts|
  {
    if |ts| >= 2 && ts[0] == "ti" { StepsCount(ts[2..]); }
  }
}
