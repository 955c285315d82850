/** The reader takes a sentence for what its parts say. */
module PyashReading {
  import opened Options
  import opened PyashIr
  import opened PyashRead
  import opened PyashNotation
  import RoundTrip = PyashRoundTrip

  // ---------------------------------------------------------------- words

  lemma {:induction false} StarterStops(w: string)
    ensures Starter(w) <==> Stops(w)
  {
    hide MoodOf, CaseOf;
    if c :| w == CaseWord(c) { CaseWordIs(c); }
    if m :| w == MoodWord(m) { MoodWordIs(m); }
    CaseOfIs(w);
    MoodOfIs(w);
  }

  lemma {:induction false} CaseOfIs(w: string)
    ensures CaseOf(w).Some? ==> w == CaseWord(CaseOf(w).value)
  {
  }

  lemma {:induction false} MoodOfIs(w: string)
    ensures MoodOf(w).Some? ==> w == MoodWord(MoodOf(w).value)
  {
  }

  lemma {:induction false} TypeWords(w: string)
    ensures IsTypeWord(w) <==> w in TYPE_WORDS
  {
  }

  // ---------------------------------------------------------------- vectors with bare elements

  /** A bare word reads as exactly the element it stands for. */
  lemma {:induction false} ElementExactly(lib: Numerals, kind: string, w: string, v: Value)
    requires kind in ELEMENT_TYPES
    ensures ReadElement(lib, kind, w) == Some(v) <==> Spells(lib, kind, w, v)
  {
    KindsDiffer();
  }

  lemma {:induction false} KindsDiffer()
    ensures "num" != "text" && "num" != "bool" && "num" != "name" && "text" != "bool" && "text" != "name"
    ensures "bool" != "name" && "hollow" !in ELEMENT_TYPES
  {
    assert "num"[1] == 'u' && "text"[0] == 't' && "bool"[0] == 'b' && "name"[1] == 'a' && "hollow"[0] == 'h';
  }

  lemma {:induction false} ElementsRead(lib: Numerals, kind: string, words: seq<string>, values: seq<Value>,
                                        rest: seq<string>)
    requires kind in ELEMENT_TYPES && |words| == |values| && (rest != [] ==> Starter(rest[0]))
    requires forall i :: 0 <= i < |words| ==> !Starter(words[i]) && Spells(lib, kind, words[i], values[i])
    ensures ReadElements(lib, kind, words + rest) == Some((values, |values|))
    decreases |words|
  {
    hide Starter, Stops, Spells, ReadElement;
    if words == [] {
      assert words + rest == rest;
      if rest != [] { StarterStops(rest[0]); }
    } else {
      StarterStops(words[0]);
      ElementExactly(lib, kind, words[0], values[0]);
      assert (words + rest)[1..] == words[1..] + rest;
      ElementsRead(lib, kind, words[1..], values[1..], rest);
      assert [values[0]] + values[1..] == values;
    }
  }

  /** Bare elements read as exactly that vector, in order, whatever part follows. */
  lemma {:induction false} VectorRead(lib: Numerals, kind: Option<string>, words: seq<string>, values: seq<Value>,
                                      rest: seq<string>)
    requires SpokenOk(lib, Bare("ve", kind, words, values)) && (rest != [] ==> Starter(rest[0]))
    ensures var ts := (if kind.Some? then [kind.value] else []) + words;
      ReadVector(lib, ts + rest) == Some((Vector(Some(KindOf(kind)), values), |ts|))
  {
    hide Starter, Spells, ReadElements, IsTypeWord;
    var ts := (if kind.Some? then [kind.value] else []) + words;
    ElementsRead(lib, KindOf(kind), words, values, rest);
    if kind.Some? {
      assert (ts + rest)[1..] == words + rest;
      TypeWords(kind.value);
    } else {
      assert ts == words && (ts + rest)[0..] == words + rest;
      if words != [] {
        TypeWords(words[0]);
      } else if rest != [] {
        assert ts + rest == rest;
        TypeWords(rest[0]);
        StarterIsNoType(rest[0]);
      }
    }
    KindsDiffer();
  }

  lemma {:induction false} StarterIsNoType(w: string)
    requires Starter(w)
    ensures w !in TYPE_WORDS
  {
    hide IsTypeWord;
    TypeWords(w);
    if IsTypeWord(w) {
      RoundTrip.TypeWordIs(w);
      StarterStops(w);
    }
  }

  lemma {:induction false} SpokenRead(lib: Numerals, v: Spoken, rest: seq<string>)
    requires SpokenOk(lib, v) && (rest != [] ==> Starter(rest[0]))
    ensures ReadValue(lib, SpokenWords(lib, v) + rest) == Some((SpokenValue(v), |SpokenWords(lib, v)|))
  {
    hide Starter, ReadValue, ReadVector, Canonical, ValueTokens, Stops, Spells;
    match v
    case Formal(value) =>
      if rest != [] { StarterStops(rest[0]); }
      RoundTrip.ValueBack(lib, value, rest, false);
    case Bare(intro, kind, words, values) =>
      var inner := (if kind.Some? then [kind.value] else []) + words;
      var ts := SpokenWords(lib, v) + rest;
      assert ts[0] == intro && ts[1..] == inner + rest;
      VectorRead(lib, kind, words, values, rest);
      ReadBare(lib, ts);
  }

  lemma {:induction false} ReadBare(lib: Numerals, ts: seq<string>)
    requires ts != [] && ts[0] in {"ve", "vec"}
    ensures ReadValue(lib, ts) ==
      match ReadVector(lib, ts[1..]) case None => None case Some((v, n)) => Some((v, n + 1))
  {
    hide ReadVector;
    assert "ve"[0] == 'v' && "la"[0] == 'l' && "num"[0] == 'n' && "text"[0] == 't' && "bool"[0] == 'b';
    assert "hollow"[0] == 'h' && "unspecified"[0] == 'u';
  }

  // ---------------------------------------------------------------- sentences

  lemma {:induction false} PartRead(lib: Numerals, p: Part, rest: seq<string>, s: Sentence)
    requires PartOk(lib, p, rest)
    ensures ReadSentence(lib, PartWords(lib, p) + rest, s) == ReadSentence(lib, rest, Said(s, p))
  {
    hide Starter, ReadValue, SpokenOk, SpokenWords, SpokenValue, ReadSentence;
    var ts := PartWords(lib, p) + rest;
    match p
    case Exists =>
      assert ts[1..] == rest;
      ReadExists(lib, ts, s);
    case Be(w) =>
      assert ts[2..] == rest;
      ReadBeWord(lib, ts, s);
    case BeMap(f) =>
      assert ts[3..] == rest;
      ReadBeWord(lib, ts, s);
    case Given(c, v) =>
      var words := SpokenWords(lib, v);
      assert ts[1..] == words + rest;
      assert ts[1 + |words|..] == rest;
      SpokenRead(lib, v, rest);
      RoundTrip.ReadCase(lib, ts, s, c);
  }

  lemma {:induction false} ReadExists(lib: Numerals, ts: seq<string>, s: Sentence)
    requires ts != [] && ts[0] == "exists"
    ensures ReadSentence(lib, ts, s) == ReadSentence(lib, ts[1..], s.(exists_ := true))
  {
    hide ReadValue;
  }

  lemma {:induction false} ReadBeWord(lib: Numerals, ts: seq<string>, s: Sentence)
    requires |ts| >= 2 && ts[0] == "be"
    ensures ReadSentence(lib, ts, s) ==
      if |ts| > 2 && ts[1] in {"json", "csv"} && ts[2] == "map" then
        ReadSentence(lib, ts[3..], s.(be := Some(ts[1] + " map")))
      else ReadSentence(lib, ts[2..], s.(be := Some(ts[1])))
  {
    hide ReadValue;
    assert "be"[0] != "exists"[0];
  }

  lemma {:induction false} PartsRead(lib: Numerals, ps: seq<Part>, s: Sentence)
    requires PartsOk(lib, ps)
    ensures ReadSentence(lib, PartsWords(lib, ps), s) == Some(AllSaid(s, ps))
    decreases |ps|
  {
    hide PartOk, PartWords, Said, ReadSentence;
    if ps == [] {
      NothingRead(lib, s);
    } else {
      PartRead(lib, ps[0], PartsWords(lib, ps[1..]), s);
      PartsRead(lib, ps[1..], Said(s, ps[0]));
    }
  }

  lemma {:induction false} NothingRead(lib: Numerals, s: Sentence)
    ensures ReadSentence(lib, [], s) == Some(s)
  {
  }

  lemma {:induction false} MoodStays(s: Sentence, ps: seq<Part>)
    ensures AllSaid(s, ps).mood == s.mood
    decreases |ps|
  {
    if ps != [] { MoodStays(Said(s, ps[0]), ps[1..]); }
  }

  // ---------------------------------------------------------------- texts

  lemma {:induction false} BlankExactly(t: string)
    ensures BlankText(t) <==> forall i :: 0 <= i < |t| ==> IsSpace(t[i])
  {
  }

  lemma {:induction false} GapSkipped(gap: string, rest: string)
    requires BlankText(gap)
    ensures Words(gap + rest) == Words(rest)
    decreases |gap|
  {
    hide Words, IsSpace;
    BlankExactly(gap);
    if gap == "" {
      assert gap + rest == rest;
    } else {
      WordsStep(gap + rest);
      assert (gap + rest)[1..] == gap[1..] + rest;
      GapSkipped(gap[1..], rest);
    }
  }

  lemma {:induction false} LayoutStart(ws: seq<Placed>, tail: string)
    requires (forall i :: 0 <= i < |ws| ==> BlankText(ws[i].gap) && ws[i].gap != "") && BlankText(tail)
    ensures var t := LayoutText(ws, tail); t == "" || IsSpace(t[0])
  {
    hide IsSpace, Spelled;
    BlankExactly(tail);
    if ws != [] {
      BlankExactly(ws[0].gap);
      assert LayoutText(ws, tail)[0] == ws[0].gap[0];
    }
  }

  /** Words with any blanks between them. */
  lemma {:induction false} LayoutRead(ws: seq<Placed>, tail: string)
    requires LayoutOk(ws) && BlankText(tail)
    ensures Words(LayoutText(ws, tail)) == LayoutWords(ws)
    decreases |ws|
  {
    hide Words, IsSpace, Spelled, BlankText, IsClean;
    if ws == [] {
      assert tail == tail + "";
      GapSkipped(tail, "");
      NoText();
    } else {
      var rest := LayoutText(ws[1..], tail);
      GapSkipped(ws[0].gap, Spelled(ws[0].token) + rest);
      LayoutStart(ws[1..], tail);
      TokenBack(ws[0].token, rest);
      LayoutRead(ws[1..], tail);
    }
  }

  lemma {:induction false} NoText()
    ensures Words("") == []
  {
  }

  /** A text that says a sentence reads as that sentence. */
  lemma {:induction false} SaysRead(lib: Numerals, text: string)
    ensures forall s :: Says(lib, text, s) ==> Read(lib, text) == Some(s)
  {
    hide PartsOk, LayoutOk, LayoutText, LayoutWords, PartsWords, AllSaid, BlankText, MoodOf, MoodWord, ReadSentence;
    forall s | Says(lib, text, s)
      ensures Read(lib, text) == Some(s)
    {
      var ps: seq<Part>, mood: Mood, ws: seq<Placed>, tail: string :|
        && PartsOk(lib, ps) && LayoutOk(ws) && BlankText(tail) && text == LayoutText(ws, tail)
        && LayoutWords(ws) == PartsWords(lib, ps) + [MoodWord(mood)] && s == AllSaid(Blank(mood), ps);
      LayoutRead(ws, tail);
      var ts := Words(text);
      assert ts[..|ts| - 1] == PartsWords(lib, ps) && ts[|ts| - 1] == MoodWord(mood);
      MoodWordIs(mood);
      PartsRead(lib, ps, Blank(mood));
      MoodStays(Blank(mood), ps);
    }
  }
}
