/** The emitter as the program runs it: it writes the tokens of a sentence with single spaces between them. */
module PyashEmitter {
  import opened Options
  import opened PyashIr
  import opened PyashRead
  import opened PyashRoundTrip

  // ---------------------------------------------------------------- writing

  lemma {:induction false} JoinedJoin(a: seq<Token>, b: seq<Token>)
    requires a != [] && b != []
    ensures Joined(a + b) == Joined(a) + " " + Joined(b)
    decreases |a|
  {
    hide Spelled;
    if |a| == 1 {
      assert (a + b)[1..] == b;
    } else {
      JoinedJoin(a[1..], b);
      assert (a + b)[1..] == a[1..] + b;
    }
  }

  lemma {:induction false} JoinedNone()
    ensures Joined([]) == ""
  {
  }

  lemma {:induction false} JoinedOne(t: Token)
    ensures Joined([t]) == Spelled(t)
  {
  }

  /** Tokens added to others: with a space before them unless they come first. */
  function Piece(first: bool, ts: seq<Token>): string
  {
    if ts == [] then "" else (if first then "" else " ") + Joined(ts)
  }

  lemma {:induction false} JoinedMore(a: seq<Token>, b: seq<Token>)
    ensures Joined(a + b) == Joined(a) + Piece(a == [], b)
  {
    hide Spelled;
    if b == [] {
      assert a + b == a && Joined(a) + "" == Joined(a);
    } else if a == [] {
      assert a + b == b && Joined([]) == "" && "" + ("" + Joined(b)) == Joined(b);
    } else {
      JoinedJoin(a, b);
      assert Joined(a) + " " + Joined(b) == Joined(a) + (" " + Joined(b));
    }
  }

  lemma {:induction false} Cat(a: string, b: string, c: string)
    ensures a + b + c == a + (b + c)
  {
  }

  lemma {:induction false} Cat5(a: string, b: string, c: string, d: string, e: string, f: string)
    ensures a + b + c + d + e + f == a + (b + (c + d + e + f))
  {
    Cat(a, b, c);
    Cat(a, b + c, d);
    Cat(a, b + c + d, e);
    Cat(a, b + c + d + e, f);
    Cat(b, c, d);
    Cat(b, c + d, e);
    Cat(b, c + d + e, f);
  }

  /** A keyword before tokens. */
  lemma {:induction false} JoinedWord(w: string, b: seq<Token>)
    requires b != []
    ensures Joined([Plain(w)] + b) == w + " " + Joined(b)
  {
    JoinedJoin([Plain(w)], b);
    JoinedOne(Plain(w));
  }

  lemma {:induction false} EscapedMore(s: string, c: char)
    ensures Escaped(s + [c]) == Escaped(s) + Mark(c) + [c]
    decreases |s|
  {
    var t := s + [c];
    EscapedCons(t);
    if s == "" {
      assert t[1..] == "" && t[..1] == [c];
      assert Escaped("") == "";
    } else {
      hide Escaped, Mark;
      EscapedCons(s);
      EscapedMore(s[1..], c);
      assert t[1..] == s[1..] + [c] && t[..1] == s[..1];
    }
  }

  /** The fields before the `i`th. */
  function FieldsUpto(lib: Numerals, s: Sentence, i: nat): seq<Token>
    requires i <= 8
  {
    if i == 0 then [] else FieldsUpto(lib, s, i - 1) + FieldTokens(lib, s, i - 1)
  }

  lemma {:induction false} FieldsMeet(lib: Numerals, s: Sentence, i: nat)
    requires i <= 8
    ensures FieldsUpto(lib, s, i) + FieldsFrom(lib, s, i) == FieldsFrom(lib, s, 0)
    decreases i
  {
    hide FieldTokens;
    if i > 0 {
      FieldsMeet(lib, s, i - 1);
      assert FieldsUpto(lib, s, i) + FieldsFrom(lib, s, i) ==
        FieldsUpto(lib, s, i - 1) + (FieldTokens(lib, s, i - 1) + FieldsFrom(lib, s, i));
    } else {
      assert [] + FieldsFrom(lib, s, 0) == FieldsFrom(lib, s, 0);
    }
  }

  lemma {:induction false} BeJoined(be: Option<string>)
    requires be.Some? && be.value != ""
    ensures BeTokens(be) != [] && Joined(BeTokens(be)) == "be " + be.value
  {
    var b := be.value;
    if b == "json map" {
      JoinedWord("json", [Plain("map")]);
      JoinedWord("be", [Plain("json"), Plain("map")]);
      JoinedOne(Plain("map"));
      assert [Plain("be")] + [Plain("json"), Plain("map")] == BeTokens(be);
      assert [Plain("json")] + [Plain("map")] == [Plain("json"), Plain("map")];
      assert "json" + " " + "map" == b;
    } else if b == "csv map" {
      JoinedWord("csv", [Plain("map")]);
      JoinedWord("be", [Plain("csv"), Plain("map")]);
      JoinedOne(Plain("map"));
      assert [Plain("be")] + [Plain("csv"), Plain("map")] == BeTokens(be);
      assert [Plain("csv")] + [Plain("map")] == [Plain("csv"), Plain("map")];
      assert "csv" + " " + "map" == b;
    } else {
      JoinedWord("be", [Plain(b)]);
      JoinedOne(Plain(b));
      assert [Plain("be")] + [Plain(b)] == BeTokens(be);
    }
  }

  function ShownText(s: Option<string>): string
  {
    if s.Some? && s.value != "" then " " + s.value else ""
  }

  lemma {:induction false} ShownJoined(before: seq<Token>, s: Option<string>)
    requires before != []
    ensures Joined(before + Shown(s)) == Joined(before) + ShownText(s)
  {
    hide Joined;
    JoinedMore(before, Shown(s));
    if s.Some? && s.value != "" { JoinedOne(Plain(s.value)); }
  }

  lemma {:induction false} NoEscape()
    ensures Escaped("") == ""
  {
  }

  lemma {:induction false} TextJoined(before: string, t: string)
    ensures before + "text \"" + Escaped(t) + "\"" == before + Joined([Plain("text"), Quoted(t)])
  {
    hide Escaped, Joined;
    JoinedWord("text", [Quoted(t)]);
    JoinedOne(Quoted(t));
    assert [Plain("text")] + [Quoted(t)] == [Plain("text"), Quoted(t)];
    var q := "text \"" + Escaped(t) + "\"";
    assert "text" + " " + ("\"" + Escaped(t) + "\"") == q;
    assert before + "text \"" + Escaped(t) + "\"" == before + q;
  }

  /** An output stream. */
  class Output {
    var text: string

    constructor ()
      ensures text == ""
    {
      text := "";
    }

    method Put(s: string)
      modifies this
      ensures text == old(text) + s
    {
      text := text + s;
    }

    method EmitText(t: string)
      modifies this
      ensures text == old(text) + Joined([Plain("text"), Quoted(t)])
    {
      hide Escaped, Joined, Mark;
      ghost var before := text + "text \"";
      Put("text \"");
      var p := 0;
      NoEscape();
      assert before + "" == before && t[..0] == "";
      while p < |t|
        invariant p <= |t| && text == before + Escaped(t[..p])
      {
        EscapedMore(t[..p], t[p]);
        assert t[..p + 1] == t[..p] + [t[p]];
        Put(Mark(t[p]));
        Put([t[p]]);
        Cat(before, Escaped(t[..p]), Mark(t[p]));
        Cat(before, Escaped(t[..p]) + Mark(t[p]), [t[p]]);
        p := p + 1;
      }
      Put("\"");
      assert t[..p] == t;
      TextJoined(old(text), t);
    }

    /** A space and the string, when there is one. */
    method PutShown(s: Option<string>)
      modifies this
      ensures text == old(text) + ShownText(s)
    {
      if s.Some? && s.value != "" {
        Put(" ");
        Put(s.value);
        Cat(old(text), " ", s.value);
      } else {
        assert text + "" == text;
      }
    }

    method EmitName(n: Name)
      modifies this
      ensures text == old(text) + Joined(NameTokens(n))
    {
      hide Joined, Shown, ShownText;
      Put("name");
      PutShown(n.kind);
      PutShown(n.literal);
      JoinedOne(Plain("name"));
      ShownJoined([Plain("name")], n.kind);
      ShownJoined([Plain("name")] + Shown(n.kind), n.literal);
      Cat(old(text), "name", ShownText(n.kind));
      Cat(old(text), "name" + ShownText(n.kind), ShownText(n.literal));
    }

    method EmitGenitive(base: Option<Name>, steps: seq<string>)
      modifies this
      ensures text == old(text) + Joined(BaseTokens(base) + StepTokens(steps))
    {
      hide Joined, StepTokens, NameTokens;
      if base.None? {
        Put("this");
        JoinedOne(Plain("this"));
      } else {
        EmitName(base.value);
      }
      hide BaseTokens;
      var i := 0;
      NoSteps(base, steps);
      while i < |steps|
        invariant i <= |steps| && text == old(text) + Joined(BaseTokens(base) + StepTokens(steps[..i]))
      {
        ghost var written := Joined(BaseTokens(base) + StepTokens(steps[..i]));
        Put(" ti ");
        Put(steps[i]);
        StepAdded(base, steps, i);
        Cat(old(text), written, " ti ");
        Cat(old(text), written + " ti ", steps[i]);
        i := i + 1;
      }
      assert steps[..i] == steps;
    }

    method EmitVector(lib: Numerals, elem: Option<string>, values: seq<Value>)
      modifies this
      ensures text == old(text) + Joined([Plain("ve")] + Shown(elem) + AllTokens(lib, values))
      decreases values, 0
    {
      hide ValueTokens, Shown, Joined, ShownText, AllTokens;
      ghost var head := [Plain("ve")] + Shown(elem);
      Put("ve");
      PutShown(elem);
      JoinedOne(Plain("ve"));
      ShownJoined([Plain("ve")], elem);
      Cat(old(text), "ve", ShownText(elem));
      var i := 0;
      NoTokens(lib);
      assert values[..0] == [];
      assert head + [] == head;
      while i < |values|
        invariant i <= |values| && text == old(text) + Joined(head + AllTokens(lib, values[..i]))
      {
        ghost var written := Joined(head + AllTokens(lib, values[..i]));
        Put(" ");
        EmitValue(lib, values[i]);
        ElementAdded(lib, head, values, i);
        Cat(old(text), written, " ");
        Cat(old(text), written + " ", Joined(ValueTokens(lib, values[i])));
        i := i + 1;
      }
      assert values[..i] == values;
    }

    method EmitValue(lib: Numerals, v: Value)
      modifies this
      ensures text == old(text) + Joined(ValueTokens(lib, v))
      decreases v, 1
    {
      hide Joined, SentenceTokens, NameTokens, StepTokens, AllTokens, Shown;
      match v
      case Num(n) =>
        Put("num ");
        Put(lib.print_(n));
        TwoWords("num", Plain(lib.print_(n)));
      case Text(t) => EmitText(t);
      case Bool(b) =>
        Put("bool ");
        Put(if b then "truth" else "lie");
        TwoWords("bool", Plain(if b then "truth" else "lie"));
      case Hollow => Put("hollow"); JoinedOne(Plain("hollow"));
      case Unspec => Put("unspecified"); JoinedOne(Plain("unspecified"));
      case Named(n) => EmitName(n);
      case This => Put("this"); JoinedOne(Plain("this"));
      case Path(base, steps) => EmitGenitive(base, steps);
      case Vector(elem, values) => EmitVector(lib, elem, values);
      case Mapping => Put("map"); JoinedOne(Plain("map"));
      case Embedded(s) =>
        Put("la ");
        EmitSentenceBody(lib, s, true);
        Put(" ko");
        Bracketed(SentenceTokens(lib, s));
    }

    method EmitField(lib: Numerals, s: Sentence, i: nat, first: bool)
      requires i < 8 && Field(s, CaseAt(i)).Some?
      modifies this
      ensures text == old(text) + Piece(first, FieldTokens(lib, s, i))
      decreases s, 0
    {
      hide ValueTokens, Joined, CaseWord, Field, CaseAt;
      var w, v := CaseWord(CaseAt(i)), Field(s, CaseAt(i)).value;
      var sep := if first then "" else " ";
      ghost var value := Joined(ValueTokens(lib, v));
      Put(sep);
      Put(w);
      Put(" ");
      EmitValue(lib, v);
      JoinedWord(w, ValueTokens(lib, v));
      Cat(old(text) + sep, w, " ");
      Cat(old(text) + sep, w + " ", value);
      Cat(old(text), sep, w + " " + value);
    }

    method EmitFields(lib: Numerals, s: Sentence) returns (first: bool)
      modifies this
      ensures text == old(text) + Joined(FieldsFrom(lib, s, 0)) && (first <==> FieldsFrom(lib, s, 0) == [])
      decreases s, 1
    {
      hide FieldTokens, FieldsFrom, Joined, Field, Piece, CaseAt;
      first := true;
      var i := 0;
      JoinedNone();
      while i < 8
        invariant i <= 8 && text == old(text) + Joined(FieldsUpto(lib, s, i))
        invariant first <==> FieldsUpto(lib, s, i) == []
      {
        ghost var before := FieldsUpto(lib, s, i);
        JoinedMore(before, FieldTokens(lib, s, i));
        FieldWritten(lib, s, i, first);
        Cat(old(text), Joined(before), Piece(first, FieldTokens(lib, s, i)));
        if Field(s, CaseAt(i)).Some? {
          EmitField(lib, s, i, first);
          first := false;
        }
        i := i + 1;
      }
      FieldsMeet(lib, s, 8);
      NoMoreFields(lib, s);
    }

    method EmitBe(be: Option<string>, first: bool) returns (still: bool)
      modifies this
      ensures text == old(text) + Piece(first, BeTokens(be)) && (still <==> first && BeTokens(be) == [])
    {
      hide BeTokens, Joined;
      still := first;
      if be.Some? && be.value != "" {
        var sep := if first then "" else " ";
        still := false;
        Put(sep);
        Put("be ");
        Put(be.value);
        BeJoined(be);
        Cat(old(text) + sep, "be ", be.value);
        Cat(old(text), sep, "be " + be.value);
      } else {
        NoBe(be);
        assert text + "" == text;
      }
    }

    method EmitNext(lib: Numerals, s: Sentence, first: bool) returns (still: bool)
      modifies this
      ensures text == old(text) + Piece(first, NextTokens(lib, s)) && (still <==> first && NextTokens(lib, s) == [])
      decreases s, 0
    {
      hide Joined, SentenceTokens;
      still := first;
      if s.next.Some? {
        var sep := if first then "" else " ";
        ghost var more := Joined(SentenceTokens(lib, s.next.value));
        still := false;
        Put(sep);
        Put("then ");
        EmitSentenceBody(lib, s.next.value, true);
        JoinedWord("then", SentenceTokens(lib, s.next.value));
        Cat(old(text) + sep, "then ", more);
        Cat(old(text), sep, "then " + more);
        assert "then" + " " + more == "then " + more;
      } else {
        assert text + "" == text;
      }
    }

    /** A sentence; on a line of its own unless it stands inside another. */
    method EmitSentenceBody(lib: Numerals, s: Sentence, inline: bool)
      modifies this
      ensures text == old(text) + Joined(SentenceTokens(lib, s)) + if inline then "" else "\n"
      decreases s, 2
    {
      hide FieldsFrom, Joined, MoodWord, BeTokens, NextTokens, Piece;
      var e := if s.exists_ && s.mood == Ya then "exists " else "";
      Put(e);
      var first := EmitFields(lib, s);
      var first1 := EmitBe(s.be, first);
      var first2 := EmitNext(lib, s, first1);
      if !first2 { Put(" "); } else { assert text + "" == text; }
      Put(MoodWord(s.mood));
      SentencePieces(lib, s, first, first1, first2);
      var sep := if first2 then "" else " ";
      Cat(old(text) + e + Joined(FieldsFrom(lib, s, 0)) + Piece(first, BeTokens(s.be))
        + Piece(first1, NextTokens(lib, s)),
          sep, MoodWord(s.mood));
      Cat5(old(text), e, Joined(FieldsFrom(lib, s, 0)), Piece(first, BeTokens(s.be)), Piece(first1, NextTokens(lib, s)),
           sep + MoodWord(s.mood));
      if !inline { Put("\n"); } else { assert text + "" == text; }
    }

    method EmitSentence(lib: Numerals, s: Sentence)
      modifies this
      ensures text == old(text) + Written(lib, s)
    {
      hide SentenceTokens, Joined;
      EmitSentenceBody(lib, s, false);
      assert old(text) + Joined(SentenceTokens(lib, s)) + "\n" == old(text) + (Joined(SentenceTokens(lib, s)) + "\n");
    }
  }

  lemma {:induction false} NoBe(be: Option<string>)
    requires be.None? || be.value == ""
    ensures BeTokens(be) == []
  {
  }

  lemma {:induction false} TwoWords(w: string, t: Token)
    ensures Joined([Plain(w), t]) == w + " " + Spelled(t)
  {
    JoinedWord(w, [t]);
    JoinedOne(t);
    assert [Plain(w)] + [t] == [Plain(w), t];
  }

  lemma {:induction false} Bracketed(ts: seq<Token>)
    requires ts != []
    ensures Joined([Plain("la")] + ts + [Plain("ko")]) == "la " + Joined(ts) + " ko"
  {
    hide Joined;
    JoinedWord("la", ts);
    JoinedJoin([Plain("la")] + ts, [Plain("ko")]);
    JoinedOne(Plain("ko"));
    assert "la" + " " + Joined(ts) + " " + "ko" == "la " + Joined(ts) + " ko";
  }

  /** A field is written exactly when it is present. */
  lemma {:induction false} FieldWritten(lib: Numerals, s: Sentence, i: nat, first: bool)
    requires i < 8
    ensures Field(s, CaseAt(i)).Some? <==> FieldTokens(lib, s, i) != []
    ensures Field(s, CaseAt(i)).None? ==> Piece(first, FieldTokens(lib, s, i)) == ""
  {
    hide ValueTokens, Field, CaseAt;
  }

  lemma {:induction false} NoMoreFields(lib: Numerals, s: Sentence)
    ensures FieldsUpto(lib, s, 8) + FieldsFrom(lib, s, 8) == FieldsUpto(lib, s, 8)
  {
    hide FieldsUpto;
  }

  lemma {:induction false} SentencePieces(lib: Numerals, s: Sentence, first: bool, first1: bool, first2: bool)
    requires first <==> FieldsFrom(lib, s, 0) == []
    requires first1 <==> first && BeTokens(s.be) == []
    requires first2 <==> first1 && NextTokens(lib, s) == []
    ensures Joined(SentenceTokens(lib, s)) == (if s.exists_ && s.mood == Ya then "exists " else "")
      + (Joined(FieldsFrom(lib, s, 0)) + Piece(first, BeTokens(s.be)) + Piece(first1, NextTokens(lib, s))
         + ((if first2 then "" else " ") + MoodWord(s.mood)))
  {
    hide FieldsFrom, Joined, MoodWord, BeTokens, NextTokens;
    var f, b, n, m := FieldsFrom(lib, s, 0), BeTokens(s.be), NextTokens(lib, s), [Plain(MoodWord(s.mood))];
    JoinedMore(f, b);
    JoinedMore(f + b, n);
    JoinedMore(f + b + n, m);
    JoinedOne(Plain(MoodWord(s.mood)));
    SentenceJoined(lib, s);
  }

  lemma {:induction false} SentenceJoined(lib: Numerals, s: Sentence)
    ensures Joined(SentenceTokens(lib, s)) == (if s.exists_ && s.mood == Ya then "exists " else "")
      + Joined(FieldsFrom(lib, s, 0) + BeTokens(s.be) + NextTokens(lib, s) + [Plain(MoodWord(s.mood))])
  {
    hide FieldsFrom, Joined, MoodWord, BeTokens, NextTokens;
    var rest := FieldsFrom(lib, s, 0) + BeTokens(s.be) + NextTokens(lib, s) + [Plain(MoodWord(s.mood))];
    assert SentenceTokens(lib, s) == ExistsTokens(s) + rest;
    if s.exists_ && s.mood == Ya {
      JoinedWord("exists", rest);
      assert "exists" + " " + Joined(rest) == "exists " + Joined(rest);
    } else {
      assert [] + rest == rest;
      assert "" + Joined(rest) == Joined(rest);
    }
  }

  lemma {:induction false} AllTokensMore(lib: Numerals, vs: seq<Value>, v: Value)
    ensures AllTokens(lib, vs + [v]) == AllTokens(lib, vs) + ValueTokens(lib, v)
    decreases |vs|
  {
    hide ValueTokens;
    if vs == [] {
      assert ([] + [v])[1..] == [];
      assert ValueTokens(lib, v) + [] == ValueTokens(lib, v);
    } else {
      AllTokensMore(lib, vs[1..], v);
      assert (vs + [v])[1..] == vs[1..] + [v];
    }
  }

  lemma {:induction false} ElementAdded(lib: Numerals, head: seq<Token>, values: seq<Value>, i: nat)
    requires i < |values| && head != []
    ensures Joined(head + AllTokens(lib, values[..i + 1])) ==
      Joined(head + AllTokens(lib, values[..i])) + " " + Joined(ValueTokens(lib, values[i]))
  {
    hide AllTokens, ValueTokens, Joined;
    assert values[..i + 1] == values[..i] + [values[i]];
    AllTokensMore(lib, values[..i], values[i]);
    JoinedJoin(head + AllTokens(lib, values[..i]), ValueTokens(lib, values[i]));
    assert head + AllTokens(lib, values[..i + 1]) == head + AllTokens(lib, values[..i]) + ValueTokens(lib, values[i]);
  }

  lemma {:induction false} StepTokensMore(steps: seq<string>, w: string)
    ensures StepTokens(steps + [w]) == StepTokens(steps) + [Plain("ti"), Plain(w)]
    decreases |steps|
  {
    if steps == [] {
      assert ([] + [w])[1..] == [];
    } else {
      StepTokensMore(steps[1..], w);
      assert (steps + [w])[1..] == steps[1..] + [w];
    }
  }

  lemma {:induction false} NoSteps(base: Option<Name>, steps: seq<string>)
    ensures BaseTokens(base) + StepTokens(steps[..0]) == BaseTokens(base)
  {
    hide BaseTokens;
  }

  lemma {:induction false} StepAdded(base: Option<Name>, steps: seq<string>, i: nat)
    requires i < |steps|
    ensures Joined(BaseTokens(base) + StepTokens(steps[..i + 1])) ==
      Joined(BaseTokens(base) + StepTokens(steps[..i])) + " ti " + steps[i]
  {
    hide *;
    var b, w := BaseTokens(base) + StepTokens(steps[..i]), steps[i];
    assert steps[..i + 1] == steps[..i] + [w];
    StepTokensMore(steps[..i], w);
    assert BaseTokens(base) + StepTokens(steps[..i + 1]) == b + [Plain("ti"), Plain(w)];
    JoinedJoin(b, [Plain("ti"), Plain(w)]);
    StepJoined(w);
    Cat(Joined(b), " ", "ti " + w);
    Cat(Joined(b), " ti ", w);
    assert " " + ("ti " + w) == " ti " + w;
  }

  lemma {:induction false} StepJoined(w: string)
    ensures Joined([Plain("ti"), Plain(w)]) == "ti " + w
  {
    hide Joined;
    JoinedWord("ti", [Plain(w)]);
    JoinedOne(Plain(w));
    assert [Plain("ti")] + [Plain(w)] == [Plain("ti"), Plain(w)];
    assert "ti" + " " + w == "ti " + w;
  }
}
