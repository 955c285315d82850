/** Writing a sentence and reading it gives the sentence back, at any nesting depth. */
module PyashRoundTrip {
  import opened Options
  import opened PyashIr
  import opened PyashRead

  // ---------------------------------------------------------------- brackets

  /** Words that open and close brackets evenly. */
  ghost predicate Balanced(ts: seq<string>)
  {
    forall rest: seq<string>, depth: nat :: depth > 0 ==> Close(ts + rest, depth) == Shifted(|ts|, Close(rest, depth))
  }

  function Shifted(n: nat, k: Option<nat>): Option<nat>
  {
    match k case None => None case Some(m) => Some(n + m)
  }

  lemma {:induction false} BalancedNone()
    ensures Balanced([])
  {
    forall rest: seq<string>, depth: nat | depth > 0
      ensures Close([] + rest, depth) == Shifted(0, Close(rest, depth))
    {
      assert [] + rest == rest;
    }
  }

  lemma {:induction false} BalancedWord(w: string)
    requires w != "la" && w != "ko"
    ensures Balanced([w])
  {
    forall rest: seq<string>, depth: nat | depth > 0
      ensures Close([w] + rest, depth) == Shifted(1, Close(rest, depth))
    {
      assert ([w] + rest)[1..] == rest;
    }
  }

  lemma {:induction false} BalancedJoin(a: seq<string>, b: seq<string>)
    requires Balanced(a) && Balanced(b)
    ensures Balanced(a + b)
  {
    hide Close;
    forall rest: seq<string>, depth: nat | depth > 0
      ensures Close(a + b + rest, depth) == Shifted(|a + b|, Close(rest, depth))
    {
      assert a + b + rest == a + (b + rest);
    }
  }

  lemma {:induction false} OpenAndClose(ts: seq<string>, rest: seq<string>, depth: nat)
    requires Balanced(ts) && depth > 0
    ensures Close(["la"] + ts + ["ko"] + rest, depth) == Shifted(|ts| + 2, Close(rest, depth))
  {
    var all := ["la"] + ts + ["ko"] + rest;
    var inner := ["ko"] + rest;
    assert all[1..] == ts + inner;
    assert inner[1..] == rest && "la"[0] != "ko"[0];
    CloseAtKo(inner, depth + 1);
    hide Close;
    assert Close(ts + inner, depth + 1) == Shifted(|ts|, Close(inner, depth + 1));
  }

  lemma {:induction false} CloseAtKo(ts: seq<string>, depth: nat)
    requires ts != [] && ts[0] == "ko" && depth > 0
    ensures Close(ts, depth) == if depth == 1 then Some(0) else Later(Close(ts[1..], depth - 1))
  {
    assert "la"[0] != "ko"[0];
  }

  lemma {:induction false} BalancedBrackets(ts: seq<string>)
    requires Balanced(ts)
    ensures Balanced(["la"] + ts + ["ko"])
  {
    hide Close;
    forall rest: seq<string>, depth: nat | depth > 0
      ensures Close(["la"] + ts + ["ko"] + rest, depth) == Shifted(|ts| + 2, Close(rest, depth))
    {
      OpenAndClose(ts, rest, depth);
    }
  }

  /** The closing bracket found is the one that belongs to the opening one. */
  lemma {:induction false} CloseFound(ts: seq<string>, rest: seq<string>)
    requires Balanced(ts)
    ensures Close(ts + ["ko"] + rest, 1) == Some(|ts|)
  {
    assert ts + ["ko"] + rest == ts + (["ko"] + rest);
    CloseAtKo(["ko"] + rest, 1);
    hide Close;
  }

  // ---------------------------------------------------------------- tokens of canonical sentences

  /** Good tokens: clean ones, none a bracket when nested. */
  predicate AllGood(ts: seq<Token>, nested: bool)
  {
    forall i :: 0 <= i < |ts| ==> IsClean(ts[i]) && Free(ts[i].word, nested)
  }

  lemma {:induction false} GoodBalanced(ts: seq<Token>)
    requires AllGood(ts, true)
    ensures Balanced(WordsOf(ts))
    decreases |ts|
  {
    hide Balanced, IsClean;
    if ts == [] {
      BalancedNone();
    } else {
      GoodBalanced(ts[1..]);
      BalancedWord(ts[0].word);
      BalancedJoin([ts[0].word], WordsOf(ts[1..]));
      assert WordsOf(ts) == [ts[0].word] + WordsOf(ts[1..]);
    }
  }

  /** The first two letters tell the words apart. */
  predicate StopStart(a: char, b: char)
  {
    (a == 's' && b == 'u') || (a == 'o' && b == 'b') || (a == 't' && (b == 'o' || b == 'h')) || (a == 'f' && b == 'r')
    || (a == 'b' && (b == 'y' || b == 'e')) || (a == 'a' && b == 't') || (a == 'y' && b == 'a')
    || (a == 'd' && (b == 'o' || b == 'e')) || (a == 'p' && b == 'r')
  }

  lemma {:induction false} StopsStart(w: string)
    requires Stops(w)
    ensures |w| >= 2 && StopStart(w[0], w[1])
  {
  }

  predicate TypeStart(a: char, b: char)
  {
    (a == 'n' && (b == 'u' || b == 'a')) || (a == 't' && b == 'e') || (a == 'b' && b == 'o') || (a == 'h' && b == 'o')
    || (a == 'v' && b == 'e') || (a == 'm' && b == 'a') || (a == 'j' && (b == 's' || b == 'a'))
    || (a == 'c' && b == 's')
    || (a == 'f' && b == 'i') || (a == 'p' && b == 'y') || (a == 'e' && b == 'n')
  }

  lemma {:induction false} TypeWordStart(w: string)
    requires IsTypeWord(w)
    ensures |w| >= 2 && TypeStart(w[0], w[1]) && IsWord(w)
  {
  }

  lemma {:induction false} TypeWordIs(w: string)
    requires IsTypeWord(w)
    ensures IsWord(w) && w != "la" && w != "ko" && !Stops(w) && w != "ti"
  {
    hide IsTypeWord, Stops;
    TypeWordStart(w);
    if Stops(w) { StopsStart(w); }
  }

  lemma {:induction false} NameGood(n: Name, nested: bool)
    requires GoodName(n, nested)
    ensures AllGood(NameTokens(n), nested)
  {
    if n.kind.Some? { TypeWordIs(n.kind.value); }
    assert IsWord("name");
  }

  lemma {:induction false} StepsGood(steps: seq<string>, nested: bool)
    requires forall i :: 0 <= i < |steps| ==> GoodWord(steps[i], nested)
    ensures AllGood(StepTokens(steps), nested)
    decreases |steps|
  {
    if steps != [] {
      StepsGood(steps[1..], nested);
      assert IsWord("ti") && "ti"[0] != "la"[0] && "ti"[0] != "ko"[0];
    }
  }

  /** Tokens of simple values: all but an embedded sentence. */
  lemma {:induction false} SimpleGood(lib: Numerals, v: Value, nested: bool)
    requires Canonical(lib, v, nested) && !v.Embedded?
    ensures AllGood(ValueTokens(lib, v), nested)
  {
    hide IsTypeWord, StepTokens, NameTokens, GoodName, IsWord, Free;
    KindWords(nested);
    match v
    case Named(n) => NameGood(n, nested);
    case Path(base, steps) =>
      StepsGood(steps, nested);
      if base.Some? { NameGood(base.value, nested); }
    case Vector(elem, _) => ElementGood(elem.value, nested);
    case _ =>
  }

  lemma {:induction false} KindWords(nested: bool)
    ensures GoodWord("num", nested) && GoodWord("text", nested) && GoodWord("bool", nested) && GoodWord("truth", nested)
    ensures GoodWord("lie", nested)
    ensures GoodWord("hollow", nested) && GoodWord("unspecified", nested) && GoodWord("this", nested)
    ensures GoodWord("ve", nested)
  {
    assert "ve"[0] != "la"[0] && "ve"[0] != "ko"[0];
  }

  lemma {:induction false} ElementGood(w: string, nested: bool)
    requires IsElementType(w)
    ensures GoodWord(w, nested) && w != ""
  {
  }

  /** Clean tokens; inside brackets their words are balanced too. */
  ghost predicate Sound(ts: seq<Token>, nested: bool)
  {
    AllClean(ts) && (nested ==> Balanced(WordsOf(ts)))
  }

  lemma {:induction false} GoodSound(ts: seq<Token>, nested: bool)
    requires AllGood(ts, nested)
    ensures Sound(ts, nested)
  {
    hide Balanced, IsClean;
    if nested { GoodBalanced(ts); }
  }

  lemma {:induction false} SoundJoin(a: seq<Token>, b: seq<Token>, nested: bool)
    requires Sound(a, nested) && Sound(b, nested)
    ensures Sound(a + b, nested)
  {
    hide Balanced, IsClean;
    if nested {
      BalancedJoin(WordsOf(a), WordsOf(b));
      WordsOfJoin(a, b);
    }
  }

  lemma {:induction false} SoundWord(w: string, nested: bool)
    requires GoodWord(w, nested)
    ensures Sound([Plain(w)], nested)
  {
    GoodSound([Plain(w)], nested);
  }

  /** A sentence in brackets is sound wherever it stands. */
  lemma {:induction false} SoundBrackets(ts: seq<Token>, nested: bool)
    requires Sound(ts, true)
    ensures Sound([Plain("la")] + ts + [Plain("ko")], nested)
  {
    hide Balanced;
    BalancedBrackets(WordsOf(ts));
    assert WordsOf([Plain("la")] + ts + [Plain("ko")]) == ["la"] + WordsOf(ts) + ["ko"];
    assert IsWord("la") && IsWord("ko");
  }

  lemma {:induction false} BeSound(be: Option<string>, nested: bool)
    requires GoodBe(be, nested)
    ensures Sound(BeTokens(be), nested)
  {
    hide Sound;
    assert IsWord("be") && "be"[0] != "la"[0] && "be"[0] != "ko"[0] && IsWord("json") && IsWord("csv") && IsWord("map");
    assert AllGood(BeTokens(be), nested);
    GoodSound(BeTokens(be), nested);
  }

  lemma {:induction false} ValueSound(lib: Numerals, v: Value, nested: bool)
    requires Canonical(lib, v, nested)
    ensures Sound(ValueTokens(lib, v), nested)
    decreases v, 0
  {
    hide Sound;
    if v.Embedded? {
      SentenceSound(lib, v.sentence, true);
      SoundBrackets(SentenceTokens(lib, v.sentence), nested);
    } else {
      SimpleGood(lib, v, nested);
      GoodSound(ValueTokens(lib, v), nested);
    }
  }

  lemma {:induction false} CaseWordGood(c: Case, nested: bool)
    ensures GoodWord(CaseWord(c), nested)
  {
    hide CaseWord;
    CaseWordIs(c);
  }

  lemma {:induction false} FieldsSound(lib: Numerals, s: Sentence, i: nat, nested: bool)
    requires CanonicalParts(lib, s, nested) && i <= 8
    ensures Sound(FieldsFrom(lib, s, i), nested)
    decreases s, 0, 8 - i
  {
    hide Sound, ValueTokens, Canonical, Field, CaseWord, Free;
    if i == 8 {
      NoneSound(nested);
    } else {
      var f := Field(s, CaseAt(i));
      FieldsSound(lib, s, i + 1, nested);
      if f.Some? {
        CaseWordGood(CaseAt(i), nested);
        ValueSound(lib, f.value, nested);
        SoundWord(CaseWord(CaseAt(i)), nested);
        SoundJoin([Plain(CaseWord(CaseAt(i)))], ValueTokens(lib, f.value), nested);
      } else {
        NoneSound(nested);
      }
      SoundJoin(FieldTokens(lib, s, i), FieldsFrom(lib, s, i + 1), nested);
    }
  }

  lemma {:induction false} NoneSound(nested: bool)
    ensures Sound([], nested)
  {
    GoodSound([], nested);
  }

  lemma {:induction false} PartsBe(lib: Numerals, s: Sentence, nested: bool)
    requires CanonicalParts(lib, s, nested)
    ensures GoodBe(s.be, nested)
  {
  }

  lemma {:induction false} HeadSound(lib: Numerals, s: Sentence, nested: bool)
    requires CanonicalParts(lib, s, nested)
    ensures Sound(HeadTokens(lib, s), nested)
    decreases s, 1
  {
    hide Sound, CanonicalParts, FieldsFrom, BeTokens;
    FieldsSound(lib, s, 0, nested);
    NoneSound(nested);
    assert GoodWord("exists", nested) by { assert IsWord("exists"); }
    SoundWord("exists", nested);
    SoundJoin(ExistsTokens(s), FieldsFrom(lib, s, 0), nested);
    PartsBe(lib, s, nested);
    BeSound(s.be, nested);
    SoundJoin(ExistsTokens(s) + FieldsFrom(lib, s, 0), BeTokens(s.be), nested);
  }

  lemma {:induction false} SentenceSound(lib: Numerals, s: Sentence, nested: bool)
    requires CanonicalSentence(lib, s, nested)
    ensures Sound(SentenceTokens(lib, s), nested)
    decreases s, 2
  {
    hide Sound, HeadTokens, CanonicalParts;
    HeadSound(lib, s, nested);
    MoodWordIs(s.mood);
    SoundWord(MoodWord(s.mood), nested);
    SoundJoin(HeadTokens(lib, s), [Plain(MoodWord(s.mood))], nested);
    assert HeadTokens(lib, s) + [] == HeadTokens(lib, s);
  }

  // ---------------------------------------------------------------- values read back

  lemma {:induction false} BoundaryStops(rest: seq<string>)
    requires Boundary(rest)
    ensures rest != [] ==> rest[0] != "ti" && rest[0] != "map"
  {
    if rest != [] { StopsIs(rest[0]); }
  }

  lemma {:induction false} StepsStep(ts: seq<string>)
    ensures ReadSteps(ts) == if |ts| < 2 || ts[0] != "ti" then ([], 0)
      else ([ts[1]] + ReadSteps(ts[2..]).0, ReadSteps(ts[2..]).1 + 2)
  {
  }

  lemma {:induction false} StepWords(steps: seq<string>, rest: seq<string>)
    requires steps != []
    ensures WordsOf(StepTokens(steps)) + rest == ["ti", steps[0]] + (WordsOf(StepTokens(steps[1..])) + rest)
    ensures |StepTokens(steps)| == 2 + |StepTokens(steps[1..])|
  {
    var more := StepTokens(steps[1..]);
    assert StepTokens(steps) == [Plain("ti"), Plain(steps[0])] + more;
    assert WordsOf([Plain("ti"), Plain(steps[0])]) == ["ti", steps[0]];
    WordsOfJoin([Plain("ti"), Plain(steps[0])], more);
  }

  lemma {:induction false} NoWords()
    ensures WordsOf([]) == []
  {
  }

  lemma {:induction false} StepsBack(steps: seq<string>, rest: seq<string>)
    requires rest != [] ==> rest[0] != "ti"
    ensures ReadSteps(WordsOf(StepTokens(steps)) + rest) == (steps, 2 * |steps|) && |StepTokens(steps)| == 2 * |steps|
    decreases |steps|
  {
    hide ReadSteps, WordsOf;
    var ts := WordsOf(StepTokens(steps)) + rest;
    StepsStep(ts);
    if steps == [] {
      NoWords();
      assert ts == rest;
    } else {
      hide StepTokens;
      var more := WordsOf(StepTokens(steps[1..])) + rest;
      StepWords(steps, rest);
      StepsBack(steps[1..], rest);
      assert ts[2..] == more && ts[0] == "ti" && ts[1] == steps[0];
      assert [steps[0]] + steps[1..] == steps;
    }
  }

  lemma {:induction false} NameExact(n: Name, rest: seq<string>)
    ensures var ts := WordsOf(NameTokens(n)) + rest;
      && (ReadBase(ts) == Some((Some(n), |NameTokens(n)|)) <==> ReturnsName(n, rest == []))
      && (rest != [] && rest[0] != "" && ReadBase(ts).Some? && ReadBase(ts).value.0 == Some(n) ==>
        ReturnsName(n, false))
  {
    hide IsTypeWord;
    var ts := WordsOf(NameTokens(n)) + rest;
    assert ts[0] == "name" && "name"[0] != "this"[0];
    if n.kind.Some? && IsTypeWord(n.kind.value) { TypeWordIs(n.kind.value); }
    var shown := Shown(n.kind) + Shown(n.literal);
    assert NameTokens(n) == [Plain("name")] + shown;
    if |shown| == 2 {
      assert ts[1] == n.kind.value && ts[2] == n.literal.value;
    } else if |shown| == 1 {
      assert ts[1] == shown[0].word;
      if rest != [] { assert ts[2] == rest[0]; }
    } else if rest != [] {
      assert ts[1] == rest[0];
      assert |""| == 0;
    }
  }

  function BaseTokens(base: Option<Name>): (r: seq<Token>)
    ensures r != [] && (r[0].word == "this" || r[0].word == "name")
  {
    if base.None? then [Plain("this")] else NameTokens(base.value)
  }

  lemma {:induction false} BaseExact(base: Option<Name>, rest: seq<string>)
    ensures var ts := WordsOf(BaseTokens(base)) + rest;
      && (ReadBase(ts) == Some((base, |BaseTokens(base)|)) <==> (base.Some? ==> ReturnsName(base.value, rest == [])))
      && (rest != [] && rest[0] != "" && ReadBase(ts).Some? && ReadBase(ts).value.0 == base ==>
            base.Some? ==> ReturnsName(base.value, false))
  {
    hide NameTokens, ReturnsName;
    if base.Some? { NameExact(base.value, rest); }
  }

  /** What the reader does at the base of a genitive. */
  lemma {:induction false} ReadGenitive(lib: Numerals, ts: seq<string>)
    requires ts != [] && (ts[0] == "this" || ts[0] == "name")
    ensures ReadValue(lib, ts) ==
      match ReadBase(ts) case None => None
      case Some((base, n)) => var (steps, m) := ReadSteps(ts[n..]);
        Some((if m > 0 then Path(base, steps) else if base.None? then This else Named(base.value), n + m))
  {
    hide ReadSentence, Close, ReadBase, ReadSteps, ReadVector;
    assert "la"[0] != ts[0][0] && "num"[1] != "name"[1] && "text"[1] != "this"[1] && "bool"[0] != ts[0][0];
  }

  lemma {:induction false} LoneBaseExact(lib: Numerals, base: Option<Name>, rest: seq<string>)
    requires Boundary(rest)
    ensures ReadValue(lib, WordsOf(BaseTokens(base)) + rest)
        == Some((if base.None? then This else Named(base.value), |BaseTokens(base)|))
      <==> (base.Some? ==> ReturnsName(base.value, rest == []))
  {
    hide ReadBase, ReadValue, Boundary, BaseTokens, ReturnsName;
    var ts := WordsOf(BaseTokens(base)) + rest;
    BoundaryStops(rest);
    BaseExact(base, rest);
    ReadGenitive(lib, ts);
    assert ts[|BaseTokens(base)|..] == rest;
  }

  lemma {:induction false} PathExact(lib: Numerals, base: Option<Name>, steps: seq<string>, rest: seq<string>)
    requires Boundary(rest)
    ensures var b := BaseTokens(base) + StepTokens(steps);
      ReadValue(lib, WordsOf(b) + rest) == Some((Path(base, steps), |b|))
      <==> steps != [] && (base.Some? ==> ReturnsName(base.value, false))
  {
    hide ReadBase, ReadValue, Boundary, BaseTokens, ReturnsName, StepTokens, ReadSteps;
    var b := BaseTokens(base) + StepTokens(steps);
    var more := WordsOf(StepTokens(steps)) + rest;
    var ts := WordsOf(BaseTokens(base)) + more;
    assert WordsOf(b) + rest == ts;
    if steps == [] {
      NoStepTokens();
      assert b == BaseTokens(base);
      LoneBaseNoPath(lib, base, rest);
    } else {
      BoundaryStops(rest);
      StepsBack(steps, rest);
      BaseExact(base, more);
      ReadGenitive(lib, ts);
      assert ts[|BaseTokens(base)|..] == more;
      StepsStart(steps, rest);
    }
  }

  lemma {:induction false} NoStepTokens()
    ensures StepTokens([]) == []
  {
  }

  lemma {:induction false} StepsStart(steps: seq<string>, rest: seq<string>)
    requires steps != []
    ensures var more := WordsOf(StepTokens(steps)) + rest; more != [] && more[0] == "ti"
  {
  }

  /** Words without a step do not read as a path of no more words. */
  lemma {:induction false} LoneBaseNoPath(lib: Numerals, base: Option<Name>, rest: seq<string>)
    requires Boundary(rest)
    ensures var r := ReadValue(lib, WordsOf(BaseTokens(base)) + rest); r.Some? && r.value.0.Path? ==>
      r.value.0.steps != []
  {
    hide ReadBase, ReadValue, Boundary, BaseTokens;
    ReadGenitive(lib, WordsOf(BaseTokens(base)) + rest);
  }

  /** No bare element reads as the value that wrote its only word. */
  lemma {:induction false} NoElementBack(lib: Numerals, elem: string, v: Value)
    requires |ValueTokens(lib, v)| == 1
    ensures ReadElement(lib, elem, ValueTokens(lib, v)[0].word) != Some(v)
  {
    hide HeadTokens, AllTokens, IsTypeWord;
  }

  lemma {:induction false} AllTokensCount(lib: Numerals, vs: seq<Value>)
    ensures |AllTokens(lib, vs)| >= |vs|
    ensures vs != [] && |AllTokens(lib, vs)| == |vs| ==>
      |ValueTokens(lib, vs[0])| == 1 && AllTokens(lib, vs)[0] == ValueTokens(lib, vs[0])[0]
    decreases |vs|
  {
    hide ValueTokens;
    if vs != [] { AllTokensCount(lib, vs[1..]); }
  }

  /** Written elements never read back as elements. */
  lemma {:induction false} ElementsExact(lib: Numerals, elem: string, vs: seq<Value>, rest: seq<string>)
    requires Boundary(rest)
    ensures ReadElements(lib, elem, WordsOf(AllTokens(lib, vs)) + rest) == Some((vs, |AllTokens(lib, vs)|)) <==>
      vs == []
  {
    hide ValueTokens, Stops, ReadElement;
    var ts := WordsOf(AllTokens(lib, vs)) + rest;
    if vs == [] {
      assert ts == rest;
    } else {
      AllTokensCount(lib, vs);
      if |AllTokens(lib, vs)| == |vs| {
        NoElementBack(lib, elem, vs[0]);
        assert ts[0] == ValueTokens(lib, vs[0])[0].word;
      }
    }
  }

  lemma {:induction false} NoTokens(lib: Numerals)
    ensures AllTokens(lib, []) == []
  {
  }

  lemma {:induction false} VectorExact(lib: Numerals, elem: Option<string>, vs: seq<Value>, rest: seq<string>)
    requires Boundary(rest)
    ensures var b := Shown(elem) + AllTokens(lib, vs);
      ReadVector(lib, WordsOf(b) + rest) == Some((Vector(elem, vs), |b|)) <==>
        elem.Some? && IsElementType(elem.value) && vs == []
  {
    hide AllTokens, ReadElements, Boundary, IsTypeWord;
    var b := Shown(elem) + AllTokens(lib, vs);
    var more := WordsOf(AllTokens(lib, vs)) + rest;
    var ts := WordsOf(b) + rest;
    assert Shown(elem) == [] ==> ts == more;
    assert elem.Some? && elem.value != "" ==> ts == [elem.value] + more && ts[1..] == more;
    NoTokens(lib);
    AllTokensCount(lib, vs);
    ElementTypes();
    if elem.Some? { ElementsExact(lib, elem.value, vs, rest); }
  }

  lemma {:induction false} ElementTypes()
    ensures IsTypeWord("num") && IsTypeWord("text") && IsTypeWord("bool") && IsTypeWord("name") && IsTypeWord("hollow")
    ensures !IsTypeWord("")
    ensures "hollow" != "num" && "hollow" != ""
  {
    assert "hollow"[0] != "num"[0];
  }

  /** What the reader does at each of the other first words. */
  lemma {:induction false} ReadPlain(lib: Numerals, ts: seq<string>)
    requires ts != []
    ensures ts[0] == "num" && |ts| > 1 ==>
      ReadValue(lib, ts) == match lib.scan(ts[1]) case None => None case Some(n) => Some((Num(n), 2))
    ensures ts[0] == "text" && |ts| > 1 ==> ReadValue(lib, ts) == Some((Text(ts[1]), 2))
    ensures ts[0] == "bool" && |ts| > 1 ==> ReadValue(lib, ts) == Some((Bool(ts[1] == "truth"), 2))
    ensures ts[0] == "hollow" ==> ReadValue(lib, ts) == Some((Hollow, 1))
    ensures ts[0] == "unspecified" ==> ReadValue(lib, ts) == Some((Unspec, 1))
    ensures ts[0] == "map" ==> ReadValue(lib, ts) == None
  {
    hide ReadSentence, Close, ReadSteps, ReadVector;
    assert "num"[0] != "la"[0] && "text"[0] != "bool"[0] && "hollow"[0] != "num"[0] && "map"[0] != "num"[0]
      && "map"[0] != "vec"[0];
  }

  lemma {:induction false} ReadTheVector(lib: Numerals, ts: seq<string>)
    requires ts != [] && ts[0] == "ve"
    ensures ReadValue(lib, ts) == match ReadVector(lib, ts[1..]) case None => None case Some((v, n)) => Some((v, n + 1))
  {
    hide ReadSentence, Close, ReadBase, ReadSteps, ReadVector;
    assert "ve"[0] != "la"[0];
  }

  /** Before anything that may follow a value, exactly these values read back from their words. */
  lemma {:induction false} ValueExact(lib: Numerals, v: Value, rest: seq<string>)
    requires !v.Embedded? && Boundary(rest)
    ensures ReadValue(lib, WordsOf(ValueTokens(lib, v)) + rest) == Some((v, |ValueTokens(lib, v)|)) <==>
      Returns(lib, v, rest == [])
  {
    hide ReadValue, ReadVector, Boundary, NameTokens, StepTokens, ReturnsName, IsElementType, AllTokens, Shown;
    var ts := WordsOf(ValueTokens(lib, v)) + rest;
    if v.Path? {
      PathExact(lib, v.base, v.steps, rest);
    } else if v.This? || v.Named? {
      LoneBaseExact(lib, if v.This? then None else Some(v.name), rest);
    } else if v.Vector? {
      VectorExact(lib, v.elem, v.values, rest);
      assert ts[1..] == WordsOf(Shown(v.elem) + AllTokens(lib, v.values)) + rest;
      ReadTheVector(lib, ts);
    } else {
      ReadPlain(lib, ts);
      assert "truth"[0] != "lie"[0];
    }
  }

  lemma {:induction false} CanonicalReturns(lib: Numerals, v: Value, nested: bool, last: bool)
    requires Canonical(lib, v, nested) && !v.Embedded?
    ensures Returns(lib, v, last)
  {
  }

  // ---------------------------------------------------------------- sentences read back

  lemma {:induction false} ReadCase(lib: Numerals, ts: seq<string>, s: Sentence, c: Case)
    requires ts != [] && ts[0] == CaseWord(c) && ReadValue(lib, ts[1..]).Some?
    ensures var (v, n) := ReadValue(lib, ts[1..]).value;
      ReadSentence(lib, ts, s) == ReadSentence(lib, ts[1 + n..], With(s, c, v))
  {
    hide ReadValue, CaseOf, CaseWord, With;
    CaseWordIs(c);
  }

  /** The fields from the `i`th on, added to what is already read. */
  function Filled(acc: Sentence, s: Sentence, i: nat): Sentence
    requires i <= 8
    decreases 8 - i
  {
    if i == 8 then acc
    else
      var f := Field(s, CaseAt(i));
      Filled(if f.Some? then With(acc, CaseAt(i), f.value) else acc, s, i + 1)
  }

  lemma {:induction false} FieldsBoundary(lib: Numerals, s: Sentence, i: nat, rest: seq<string>)
    requires i <= 8 && Boundary(rest)
    ensures Boundary(WordsOf(FieldsFrom(lib, s, i)) + rest)
    decreases 8 - i
  {
    hide Stops, ValueTokens, Field, CaseWord, CaseAt;
    if i == 8 {
      assert WordsOf([]) + rest == rest;
    } else {
      var f := Field(s, CaseAt(i));
      if f.Some? {
        CaseWordIs(CaseAt(i));
        assert (WordsOf(FieldsFrom(lib, s, i)) + rest)[0] == CaseWord(CaseAt(i));
      } else {
        FieldsBoundary(lib, s, i + 1, rest);
        assert FieldsFrom(lib, s, i) == FieldsFrom(lib, s, i + 1);
      }
    }
  }

  lemma {:induction false} FieldWords(lib: Numerals, s: Sentence, i: nat, rest: seq<string>)
    requires i < 8 && Field(s, CaseAt(i)).Some?
    ensures var c := CaseAt(i); var w := WordsOf(ValueTokens(lib, Field(s, c).value));
      var ts, more := WordsOf(FieldsFrom(lib, s, i)) + rest, WordsOf(FieldsFrom(lib, s, i + 1)) + rest;
      ts == [CaseWord(c)] + w + more && ts[0] == CaseWord(c) && ts[1..] == w + more && ts[1 + |w|..] == more
  {
    hide ValueTokens, Field, CaseWord, CaseAt;
    var c := CaseAt(i);
    var v, next := ValueTokens(lib, Field(s, c).value), FieldsFrom(lib, s, i + 1);
    assert FieldsFrom(lib, s, i) == [Plain(CaseWord(c))] + v + next;
    WordsOfJoin([Plain(CaseWord(c))] + v, next);
    WordsOfJoin([Plain(CaseWord(c))], v);
    assert WordsOf([Plain(CaseWord(c))]) == [CaseWord(c)];
  }

  lemma {:induction false} FieldsBack(lib: Numerals, s: Sentence, i: nat, rest: seq<string>, acc: Sentence,
                                      nested: bool)
    requires CanonicalParts(lib, s, nested) && i <= 8 && Boundary(rest)
    ensures ReadSentence(lib, WordsOf(FieldsFrom(lib, s, i)) + rest, acc) == ReadSentence(lib, rest, Filled(acc, s, i))
    decreases s, 0, 8 - i
  {
    hide ReadSentence, ReadValue, Boundary, ValueTokens, Canonical, Field, CaseWord, CaseAt, With, GoodBe, WordsOf;
    if i == 8 {
      NoWords();
      assert WordsOf(FieldsFrom(lib, s, i)) + rest == rest;
    } else {
      var c := CaseAt(i);
      var f := Field(s, c);
      var more := WordsOf(FieldsFrom(lib, s, i + 1)) + rest;
      var ts := WordsOf(FieldsFrom(lib, s, i)) + rest;
      if f.Some? {
        FieldsBoundary(lib, s, i + 1, rest);
        ValueBack(lib, f.value, more, nested);
        var w := WordsOf(ValueTokens(lib, f.value));
        FieldWords(lib, s, i, rest);
        ReadCase(lib, ts, acc, c);
        FieldsBack(lib, s, i + 1, rest, With(acc, c, f.value), nested);
      } else {
        assert FieldsFrom(lib, s, i) == FieldsFrom(lib, s, i + 1);
        FieldsBack(lib, s, i + 1, rest, acc, nested);
      }
    }
  }

  lemma {:induction false} BeNotEmpty(be: Option<string>, nested: bool)
    requires GoodBe(be, nested) && be.Some?
    ensures be.value != ""
  {
  }

  lemma {:induction false} BeBack(lib: Numerals, be: Option<string>, rest: seq<string>, acc: Sentence, nested: bool)
    requires GoodBe(be, nested) && Boundary(rest) && acc.be.None?
    ensures ReadSentence(lib, WordsOf(BeTokens(be)) + rest, acc) == ReadSentence(lib, rest, acc.(be := be))
  {
    hide Boundary, Stops;
    var ts := WordsOf(BeTokens(be)) + rest;
    BoundaryStops(rest);
    if be.None? {
      assert ts == rest;
    } else if IsMapName(be.value) {
      var k := if be.value == "json map" then "json" else "csv";
      assert k + " map" == be.value;
      assert ts == ["be", k, "map"] + rest;
      ReadBeMap(lib, k, rest, acc);
    } else {
      hide GoodBe;
      BeNotEmpty(be, nested);
      assert ts == ["be", be.value] + rest;
      ReadBe(lib, be.value, rest, acc);
    }
  }

  lemma {:induction false} ReadBe(lib: Numerals, w: string, rest: seq<string>, acc: Sentence)
    requires rest != [] ==> rest[0] != "map"
    ensures ReadSentence(lib, ["be", w] + rest, acc) == ReadSentence(lib, rest, acc.(be := Some(w)))
  {
    hide ReadValue, CaseOf;
    var ts := ["be", w] + rest;
    assert ts[2..] == rest && ts[0] == "be" && ts[1] == w;
  }

  lemma {:induction false} ReadBeMap(lib: Numerals, k: string, rest: seq<string>, acc: Sentence)
    requires k == "json" || k == "csv"
    ensures ReadSentence(lib, ["be", k, "map"] + rest, acc) == ReadSentence(lib, rest, acc.(be := Some(k + " map")))
  {
    hide ReadValue, CaseOf;
    var ts := ["be", k, "map"] + rest;
    assert ts[3..] == rest && ts[0] == "be" && ts[1] == k && ts[2] == "map";
  }

  /** What is left of a sentence when its head is written and read: it only exists in the mood of statements. */
  function HeadOf(s: Sentence): Sentence
  {
    s.(next := None, exists_ := s.exists_ && s.mood == Ya)
  }

  lemma {:induction false} FilledIs(acc: Sentence, s: Sentence, i: nat)
    requires i <= 8
    ensures var r := Filled(acc, s, i);
      && r.be == acc.be && r.mood == acc.mood && r.exists_ == acc.exists_ && r.next == acc.next
      && forall j: nat :: j < 8 ==>
        Field(r, CaseAt(j)) ==
          if j >= i && Field(s, CaseAt(j)).Some? then Field(s, CaseAt(j)) else Field(acc, CaseAt(j))
    decreases 8 - i
  {
    hide Field, With;
    if i < 8 {
      var f := Field(s, CaseAt(i));
      FilledIs(if f.Some? then With(acc, CaseAt(i), f.value) else acc, s, i + 1);
    }
  }

  lemma {:induction false} SameFields(a: Sentence, b: Sentence)
    requires a.be == b.be && a.mood == b.mood && a.exists_ == b.exists_ && a.next == b.next
    requires forall j: nat :: j < 8 ==> Field(a, CaseAt(j)) == Field(b, CaseAt(j))
    ensures a == b
  {
    assert CaseAt(0) == AtIndex && CaseAt(1) == By && CaseAt(2) == From && CaseAt(3) == FromIndex;
    assert CaseAt(4) == Ob && CaseAt(5) == Su && CaseAt(6) == To && CaseAt(7) == ToIndex;
  }

  lemma {:induction false} OtherPartsKeepFields(s: Sentence, t: Sentence, c: Case)
    requires t == s.(be := t.be, mood := t.mood, exists_ := t.exists_, next := t.next)
    ensures Field(t, c) == Field(s, c)
  {
  }

  lemma {:induction false} BlankFields(mood: Mood, c: Case)
    ensures Field(Blank(mood), c) == None
  {
  }

  lemma {:induction false} FilledBlank(acc: Sentence, s: Sentence)
    requires acc == Blank(acc.mood).(exists_ := acc.exists_)
    ensures Filled(acc, s, 0).(be := s.be) == s.(mood := acc.mood, exists_ := acc.exists_, next := None)
  {
    hide Filled, Field, CaseAt;
    FilledIs(acc, s, 0);
    var f := Filled(acc, s, 0);
    var r, t := f.(be := s.be), s.(mood := acc.mood, exists_ := acc.exists_, next := None);
    forall j: nat | j < 8
      ensures Field(r, CaseAt(j)) == Field(t, CaseAt(j))
    {
      OtherPartsKeepFields(f, r, CaseAt(j));
      OtherPartsKeepFields(s, t, CaseAt(j));
      OtherPartsKeepFields(Blank(acc.mood), acc, CaseAt(j));
      BlankFields(acc.mood, CaseAt(j));
    }
    SameFields(r, t);
  }

  lemma {:induction false} ExistsBack(lib: Numerals, s: Sentence, rest: seq<string>, mood: Mood)
    ensures ReadSentence(lib, WordsOf(ExistsTokens(s)) + rest, Blank(mood))
      == ReadSentence(lib, rest, Blank(mood).(exists_ := s.exists_ && s.mood == Ya))
  {
    hide ReadValue, CaseOf;
    var ts := WordsOf(ExistsTokens(s)) + rest;
    if s.exists_ && s.mood == Ya {
      assert ts[0] == "exists" && ts[1..] == rest;
    } else {
      assert ts == rest;
    }
  }

  lemma {:induction false} BeBoundary(be: Option<string>, rest: seq<string>)
    requires Boundary(rest)
    ensures Boundary(WordsOf(BeTokens(be)) + rest)
  {
    if be.None? || be.value == "" {
      assert WordsOf(BeTokens(be)) + rest == rest;
    } else {
      assert (WordsOf(BeTokens(be)) + rest)[0] == "be";
    }
  }

  /** The head of a sentence reads back, whatever follows it. */
  lemma {:induction false} HeadBack(lib: Numerals, s: Sentence, rest: seq<string>, mood: Mood, nested: bool)
    requires CanonicalParts(lib, s, nested) && Boundary(rest)
    ensures ReadSentence(lib, WordsOf(HeadTokens(lib, s)) + rest, Blank(mood))
      == ReadSentence(lib, rest, HeadOf(s).(mood := mood))
    decreases s, 1
  {
    hide ReadSentence, FieldsFrom, BeTokens, ExistsTokens, Boundary, Filled;
    var be := WordsOf(BeTokens(s.be)) + rest;
    var fields := WordsOf(FieldsFrom(lib, s, 0)) + be;
    var acc := Blank(mood).(exists_ := s.exists_ && s.mood == Ya);
    BeBoundary(s.be, rest);
    ExistsBack(lib, s, fields, mood);
    FieldsBack(lib, s, 0, be, acc, nested);
    FilledIs(acc, s, 0);
    BeBack(lib, s.be, rest, Filled(acc, s, 0), nested);
    FilledBlank(acc, s);
    assert WordsOf(HeadTokens(lib, s)) + rest == WordsOf(ExistsTokens(s)) + fields;
  }

  /** What the reader does at an opening bracket. */
  lemma {:induction false} ReadLa(lib: Numerals, ts: seq<string>, k: nat, mood: Mood)
    requires ts != [] && ts[0] == "la" && Close(ts[1..], 1) == Some(k) && k > 0 && MoodOf(ts[k]) == Some(mood)
    ensures ReadValue(lib, ts) ==
      match ReadSentence(lib, ts[1..k], Blank(mood)) case None => None
      case Some(child) => Some((Embedded(child.(mood := mood)), k + 2))
  {
    hide ReadSentence, Close, ReadBase, ReadSteps, ReadVector, MoodOf;
  }

  /** Values read back before anything that may follow a value. */
  lemma {:induction false} ValueBack(lib: Numerals, v: Value, rest: seq<string>, nested: bool)
    requires Canonical(lib, v, nested) && Boundary(rest)
    ensures ReadValue(lib, WordsOf(ValueTokens(lib, v)) + rest) == Some((v, |ValueTokens(lib, v)|))
    decreases v, 0
  {
    if v.Embedded? {
      EmbeddedBack(lib, v.sentence, rest);
    } else {
      CanonicalReturns(lib, v, nested, rest == []);
      ValueExact(lib, v, rest);
    }
  }

  lemma {:induction false} EmbeddedBack(lib: Numerals, s: Sentence, rest: seq<string>)
    requires CanonicalSentence(lib, s, true)
    ensures ReadValue(lib, WordsOf(ValueTokens(lib, Embedded(s))) + rest) ==
      Some((Embedded(s), |ValueTokens(lib, Embedded(s))|))
    decreases s, 2
  {
    hide HeadTokens, ReadValue, Close, Balanced, CanonicalParts, MoodOf, MoodWord;
    var ws, head := WordsOf(SentenceTokens(lib, s)), WordsOf(HeadTokens(lib, s));
    var k := |ws|;
    var ts := WordsOf(ValueTokens(lib, Embedded(s))) + rest;
    SentenceSound(lib, s, true);
    MoodWordIs(s.mood);
    CloseFound(ws, rest);
    assert ts == ["la"] + ws + ["ko"] + rest;
    assert ts[1..] == ws + ["ko"] + rest;
    assert HeadTokens(lib, s) + [] == HeadTokens(lib, s);
    assert ws == head + [MoodWord(s.mood)];
    assert ts[k] == MoodWord(s.mood) && ts[1..k] == head;
    ReadLa(lib, ts, k, s.mood);
    HeadBack(lib, s, [], s.mood, true);
    assert head + [] == head;
  }

  // ---------------------------------------------------------------- whole texts

  lemma {:induction false} WordsWritten(lib: Numerals, s: Sentence)
    requires AllClean(SentenceTokens(lib, s))
    ensures Words(Written(lib, s)) == WordsOf(SentenceTokens(lib, s))
  {
    hide SentenceTokens, IsClean, Joined;
    JoinedBack(SentenceTokens(lib, s), "\n");
    assert "\n"[1..] == "";
    assert Words("\n") == [];
    assert WordsOf(SentenceTokens(lib, s)) + [] == WordsOf(SentenceTokens(lib, s));
  }

  predicate AllMoods(ws: seq<string>)
  {
    forall i :: 0 <= i < |ws| ==> MoodOf(ws[i]).Some?
  }

  lemma {:induction false} MoodsMore(m: Mood, ws: seq<string>)
    requires AllMoods(ws)
    ensures AllMoods([MoodWord(m)] + ws) && [MoodWord(m)] + ws != []
  {
    hide MoodOf, MoodWord;
    MoodWordIs(m);
  }

  /** Mood words inside a sentence are refused. */
  lemma {:induction false} MoodsRefused(lib: Numerals, ms: seq<string>, s: Sentence)
    requires ms != [] && AllMoods(ms)
    ensures ReadSentence(lib, ms, s) == None
    decreases |ms|
  {
    MoodOnly(ms[0]);
    hide ReadValue, CaseOf, MoodOf;
    if ms[0] == "then" && |ms| > 1 { MoodsRefused(lib, ms[1..], Blank(s.mood)); }
  }

  lemma {:induction false} MoodOnly(w: string)
    requires MoodOf(w).Some?
    ensures CaseOf(w) == None && w != "exists" && w != "be"
  {
  }

  /** A sentence is not read together with moods behind its own, whatever follows it. */
  lemma {:induction false} ChainRefused(lib: Numerals, c: Sentence, moods: seq<string>, mood: Mood)
    requires CanonicalChain(lib, c) && AllMoods(moods)
    ensures ReadSentence(lib, WordsOf(SentenceTokens(lib, c)) + moods, Blank(mood)) == None
    decreases c
  {
    hide *;
    ChainIs(lib, c);
    var more := [MoodWord(c.mood)] + moods;
    var rest := WordsOf(NextTokens(lib, c)) + more;
    MoodsMore(c.mood, moods);
    SentenceWords(lib, c);
    assert WordsOf(SentenceTokens(lib, c)) + moods == WordsOf(HeadTokens(lib, c)) + rest;
    NextBoundary(lib, c, more);
    HeadBack(lib, c, rest, mood, false);
    if c.next.Some? {
      ChainRefused(lib, c.next.value, more, mood);
      var words := WordsOf(SentenceTokens(lib, c.next.value)) + more;
      assert rest == ["then"] + words;
      ReadThen(lib, words, HeadOf(c).(mood := mood));
    } else {
      assert rest == more;
      MoodsRefused(lib, more, HeadOf(c).(mood := mood));
    }
  }

  lemma {:induction false} ChainIs(lib: Numerals, c: Sentence)
    requires CanonicalChain(lib, c)
    ensures CanonicalParts(lib, c, false) && (c.next.Some? ==> CanonicalChain(lib, c.next.value))
  {
    hide CanonicalParts;
  }

  lemma {:induction false} NextBoundary(lib: Numerals, c: Sentence, more: seq<string>)
    requires more != [] && AllMoods(more)
    ensures Boundary(WordsOf(NextTokens(lib, c)) + more)
  {
    hide SentenceTokens;
    var ts := WordsOf(NextTokens(lib, c)) + more;
    if c.next.Some? { assert ts[0] == "then"; } else { assert ts == more; }
  }

  lemma {:induction false} ReadThen(lib: Numerals, words: seq<string>, s: Sentence)
    requires words != []
    ensures ReadSentence(lib, ["then"] + words, s) ==
      match ReadSentence(lib, words, Blank(s.mood))
      case None => None
      case Some(c) => Some(s.(next := Some(c.(mood := s.mood))))
  {
    hide ReadValue, CaseOf;
    var ts := ["then"] + words;
    assert ts[1..] == words && ts[0] == "then" && "then"[0] != "exists"[0] && "then"[0] != "be"[0];
  }

  /** A following sentence with canonical parts is never read, however many sentences follow it in turn. */
  lemma {:induction false} NextRefused(lib: Numerals, c: Sentence, s: Sentence)
    requires CanonicalChain(lib, c)
    ensures ReadSentence(lib, ["then"] + WordsOf(SentenceTokens(lib, c)), s) == None
  {
    hide ReadSentence, SentenceTokens;
    var ts := WordsOf(SentenceTokens(lib, c));
    assert ts + [] == ts && AllMoods([]);
    ChainRefused(lib, c, [], s.mood);
    ReadThen(lib, ts, s);
  }

  /** With one field alone, its tokens are those of all fields. */
  lemma {:induction false} LoneField(lib: Numerals, s: Sentence, i: nat, j: nat)
    requires i <= 8 && j < 8 && forall h: nat :: h < 8 && h != j ==> Field(s, CaseAt(h)) == None
    ensures FieldsFrom(lib, s, i) == if i <= j then FieldTokens(lib, s, j) else []
    decreases 8 - i
  {
    hide Field, CaseAt, CaseWord, ValueTokens;
    if i < 8 { LoneField(lib, s, i + 1, j); }
  }

  lemma {:induction false} NamelessTokens(lib: Numerals, c: Sentence)
    requires c == Blank(Ya).(su := Some(Named(Name(None, None))))
    ensures WordsOf(SentenceTokens(lib, c)) == ["su", "name", "ya"]
  {
    var f := [Plain("su"), Plain("name")];
    assert CaseAt(5) == Su && CaseWord(Su) == "su";
    assert FieldTokens(lib, c, 5) == f;
    LoneField(lib, c, 0, 5);
    assert HeadTokens(lib, c) == f by { hide FieldsFrom, FieldTokens; }
    hide FieldsFrom, HeadTokens;
    assert SentenceTokens(lib, c) == f + [Plain("ya")];
    hide SentenceTokens;
    assert f + [Plain("ya")] == [Plain("su"), Plain("name"), Plain("ya")];
  }

  /** A following sentence that ends in a name without words is read: its mood is taken for the name. */
  lemma {:induction false} NamelessNextIsRead(lib: Numerals)
    ensures var c := Blank(Ya).(su := Some(Named(Name(None, None))));
      ReadSentence(lib, ["then"] + WordsOf(SentenceTokens(lib, c)), Blank(Ya))
        == Some(Blank(Ya).(next := Some(c.(su := Some(Named(Name(None, Some("ya"))))))))
  {
    var c := Blank(Ya).(su := Some(Named(Name(None, None))));
    NamelessTokens(lib, c);
    var ts := ["su", "name", "ya"];
    var v := Named(Name(None, Some("ya")));
    assert ts[1..] == ["name", "ya"] && ts[3..] == [];
    assert ReadValue(lib, ts[1..]) == Some((v, 2)) by { NameRead(lib, ts[1..], "ya"); }
    assert CaseOf("su") == Some(Su) && ts[0] == "su";
    assert ReadSentence(lib, [], With(Blank(Ya), Su, v)) == Some(With(Blank(Ya), Su, v));
    hide SentenceTokens, ReadValue, CaseOf, WordsOf;
    ReadCase(lib, ts, Blank(Ya), Su);
    ReadThen(lib, ts, Blank(Ya));
  }

  lemma {:induction false} NameRead(lib: Numerals, ts: seq<string>, w: string)
    requires ts == ["name", w] && !IsTypeWord(w)
    ensures ReadValue(lib, ts) == Some((Named(Name(None, Some(w))), 2))
  {
    hide ReadSentence, Close, ReadVector, IsTypeWord, MoodOf;
    assert ts[2..] == [];
  }

  /**
    * What comes back of a written sentence whose parts are canonical: nothing when another sentence follows it,
    * and otherwise the sentence, without an `exists` in any mood but `ya`.
    */
  lemma {:induction false} WrittenReads(lib: Numerals, s: Sentence)
    requires CanonicalChain(lib, s)
    ensures Read(lib, Written(lib, s)) == if s.next.Some? then None else Some(HeadOf(s))
  {
    hide HeadTokens, CanonicalParts, Words, Written, MoodWord, MoodOf, WordsOf;
    AllSound(lib, s);
    WordsWritten(lib, s);
    var ts := WordsOf(SentenceTokens(lib, s));
    var head, next := WordsOf(HeadTokens(lib, s)), WordsOf(NextTokens(lib, s));
    SentenceWords(lib, s);
    MoodWordIs(s.mood);
    assert ts[|ts| - 1] == MoodWord(s.mood) && ts[..|ts| - 1] == head + next;
    if s.next.Some? {
      HeadBack(lib, s, next, s.mood, false);
      NextRefused(lib, s.next.value, HeadOf(s));
    } else {
      HeadBack(lib, s, [], s.mood, false);
    }
  }

  lemma {:induction false} SentenceWords(lib: Numerals, s: Sentence)
    ensures WordsOf(SentenceTokens(lib, s)) ==
      WordsOf(HeadTokens(lib, s)) + WordsOf(NextTokens(lib, s)) + [MoodWord(s.mood)]
    ensures WordsOf(NextTokens(lib, s)) ==
      if s.next.None? then [] else ["then"] + WordsOf(SentenceTokens(lib, s.next.value))
    ensures Boundary(WordsOf(NextTokens(lib, s)))
  {
    hide HeadTokens;
    if s.next.Some? { assert WordsOf(NextTokens(lib, s))[0] == "then"; }
  }

  lemma {:induction false} AllSound(lib: Numerals, s: Sentence)
    requires CanonicalChain(lib, s)
    ensures AllClean(SentenceTokens(lib, s))
  {
    hide HeadTokens, CanonicalParts, IsClean, Balanced;
    HeadSound(lib, s, false);
    MoodWordIs(s.mood);
    SoundWord(MoodWord(s.mood), false);
    if s.next.Some? {
      AllSound(lib, s.next.value);
      assert IsWord("then");
      SoundWord("then", false);
    }
  }

  /** With canonical parts, exactly the canonical sentences come back as they were. */
  lemma {:induction false} RoundTrip(lib: Numerals, s: Sentence)
    requires CanonicalChain(lib, s)
    ensures Read(lib, Written(lib, s)) == Some(s) <==> CanonicalSentence(lib, s, false)
  {
    hide CanonicalParts, Read, Written;
    WrittenReads(lib, s);
  }
}
