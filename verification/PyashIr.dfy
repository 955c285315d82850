/** Pyash sentences, the words they are written with, and the words of a text. */
module PyashIr {
  import opened Options

  datatype Mood = Ya | Do | Def | Prah | Then

  datatype Case = AtIndex | By | From | FromIndex | Ob | Su | To | ToIndex

  datatype Name = Name(kind: Option<string>, literal: Option<string>)

  datatype Value =
    | Num(num: real)
    | Text(text: string)
    | Bool(boolean: bool)
    | Hollow
    | Unspec
    | Named(name: Name)
    | This
    | Path(base: Option<Name>, steps: seq<string>)
    | Vector(elem: Option<string>, values: seq<Value>)
    | Mapping
    | Embedded(sentence: Sentence)

  datatype Sentence = Sentence(
    be: Option<string>, mood: Mood, exists_: bool,
    atIndex: Option<Value>, by_: Option<Value>, from: Option<Value>, fromIndex: Option<Value>,
    ob: Option<Value>, su: Option<Value>, to: Option<Value>, toIndex: Option<Value>,
    next: Option<Sentence>)

  /** The C library's conversions between numbers and text, which the program calls. */
  datatype Numerals = Numerals(print_: real -> string, scan: string -> Option<real>)

  function Field(s: Sentence, c: Case): (r: Option<Value>)
    ensures r.Some? ==> r.value < s
  {
    match c
    case AtIndex => s.atIndex
    case By => s.by_
    case From => s.from
    case FromIndex => s.fromIndex
    case Ob => s.ob
    case Su => s.su
    case To => s.to
    case ToIndex => s.toIndex
  }

  function With(s: Sentence, c: Case, v: Value): (r: Sentence)
    ensures Field(r, c) == Some(v) && forall d :: d != c ==> Field(r, d) == Field(s, d)
    ensures r.be == s.be && r.mood == s.mood && r.exists_ == s.exists_ && r.next == s.next
  {
    match c
    case AtIndex => s.(atIndex := Some(v))
    case By => s.(by_ := Some(v))
    case From => s.(from := Some(v))
    case FromIndex => s.(fromIndex := Some(v))
    case Ob => s.(ob := Some(v))
    case Su => s.(su := Some(v))
    case To => s.(to := Some(v))
    case ToIndex => s.(toIndex := Some(v))
  }

  function Blank(mood: Mood): Sentence
  {
    Sentence(None, mood, false, None, None, None, None, None, None, None, None, None)
  }

  // ---------------------------------------------------------------- words

  function MoodWord(m: Mood): string
  {
    match m case Ya => "ya" case Do => "do" case Def => "def" case Prah => "prah" case Then => "then"
  }

  function MoodOf(w: string): Option<Mood>
  {
    if w == "ya" then Some(Ya)
    else if w == "do" then Some(Do)
    else if w == "def" then Some(Def)
    else if w == "prah" then Some(Prah)
    else if w == "then" then Some(Then)
    else None
  }

  /** The cases in the order they are written. */
  function CaseAt(i: nat): Case
    requires i < 8
  {
    if i == 0 then AtIndex else if i == 1 then By else if i == 2 then From else if i == 3 then FromIndex
    else if i == 4 then Ob else if i == 5 then Su else if i == 6 then To else ToIndex
  }

  function CaseWord(c: Case): string
  {
    match c
    case AtIndex => "atindex"
    case By => "by"
    case From => "from"
    case FromIndex => "fromindex"
    case Ob => "ob"
    case Su => "su"
    case To => "to"
    case ToIndex => "toindex"
  }

  function CaseOf(w: string): Option<Case>
  {
    if w == "su" then Some(Su)
    else if w == "ob" then Some(Ob)
    else if w == "to" then Some(To)
    else if w == "from" then Some(From)
    else if w == "by" then Some(By)
    else if w == "fromindex" then Some(FromIndex)
    else if w == "toindex" then Some(ToIndex)
    else if w == "atindex" then Some(AtIndex)
    else None
  }

  predicate IsTypeWord(w: string)
  {
    w == "num" || w == "text" || w == "bool" || w == "name" || w == "hollow" || w == "ve" || w == "vec" || w == "map"
    || w == "json" || w == "csv" || w == "filename" || w == "pyash" || w == "english" || w == "javascript"
  }

  predicate IsCaseWord(w: string)
  {
    CaseOf(w).Some? || w == "be" || w == "then"
  }

  // ---------------------------------------------------------------- how sentences are written

  /** A written word: as it stands, or between quotes. */
  datatype Token = Plain(word: string) | Quoted(word: string)

  function Escaped(s: string): string
  {
    if s == "" then ""
    else (if s[0] == '"' || s[0] == '\\' then "\\" + s[..1] else s[..1]) + Escaped(s[1..])
  }

  function Spelled(t: Token): string
  {
    match t
    case Plain(w) => w
    case Quoted(w) => "\"" + Escaped(w) + "\""
  }

  /** The tokens with single spaces between them. */
  function Joined(ts: seq<Token>): string
  {
    if ts == [] then "" else if |ts| == 1 then Spelled(ts[0]) else Spelled(ts[0]) + " " + Joined(ts[1..])
  }

  /** A string that is present and not empty is written. */
  function Shown(s: Option<string>): seq<Token>
  {
    if s.Some? && s.value != "" then [Plain(s.value)] else []
  }

  function NameTokens(n: Name): seq<Token>
  {
    [Plain("name")] + Shown(n.kind) + Shown(n.literal)
  }

  function StepTokens(steps: seq<string>): seq<Token>
  {
    if steps == [] then [] else [Plain("ti"), Plain(steps[0])] + StepTokens(steps[1..])
  }

  predicate IsMapName(w: string)
  {
    w == "json map" || w == "csv map"
  }

  function BeTokens(be: Option<string>): seq<Token>
  {
    if be.None? || be.value == "" then []
    else if be.value == "json map" then [Plain("be"), Plain("json"), Plain("map")]
    else if be.value == "csv map" then [Plain("be"), Plain("csv"), Plain("map")]
    else [Plain("be"), Plain(be.value)]
  }

  function ValueTokens(lib: Numerals, v: Value): (r: seq<Token>)
    ensures r != []
    decreases v, 0
  {
    match v
    case Num(n) => [Plain("num"), Plain(lib.print_(n))]
    case Text(t) => [Plain("text"), Quoted(t)]
    case Bool(b) => [Plain("bool"), Plain(if b then "truth" else "lie")]
    case Hollow => [Plain("hollow")]
    case Unspec => [Plain("unspecified")]
    case Named(n) => NameTokens(n)
    case This => [Plain("this")]
    case Path(base, steps) => (if base.None? then [Plain("this")] else NameTokens(base.value)) + StepTokens(steps)
    case Vector(elem, values) => [Plain("ve")] + Shown(elem) + AllTokens(lib, values)
    case Mapping => [Plain("map")]
    case Embedded(s) => [Plain("la")] + SentenceTokens(lib, s) + [Plain("ko")]
  }

  function AllTokens(lib: Numerals, vs: seq<Value>): seq<Token>
    decreases vs, 0
  {
    if vs == [] then [] else ValueTokens(lib, vs[0]) + AllTokens(lib, vs[1..])
  }

  function FieldTokens(lib: Numerals, s: Sentence, i: nat): seq<Token>
    requires i < 8
    decreases s, 0
  {
    var f := Field(s, CaseAt(i));
    if f.None? then [] else [Plain(CaseWord(CaseAt(i)))] + ValueTokens(lib, f.value)
  }

  /** The fields from the `i`th on. */
  function FieldsFrom(lib: Numerals, s: Sentence, i: nat): seq<Token>
    requires i <= 8
    decreases s, 1, 8 - i
  {
    if i == 8 then [] else FieldTokens(lib, s, i) + FieldsFrom(lib, s, i + 1)
  }

  function ExistsTokens(s: Sentence): seq<Token>
  {
    if s.exists_ && s.mood == Ya then [Plain("exists")] else []
  }

  function NextTokens(lib: Numerals, s: Sentence): seq<Token>
    decreases s, 0
  {
    if s.next.None? then [] else [Plain("then")] + SentenceTokens(lib, s.next.value)
  }

  /** A sentence up to the sentence that follows it. */
  function HeadTokens(lib: Numerals, s: Sentence): seq<Token>
    decreases s, 2
  {
    ExistsTokens(s) + FieldsFrom(lib, s, 0) + BeTokens(s.be)
  }

  function SentenceTokens(lib: Numerals, s: Sentence): (r: seq<Token>)
    ensures r != []
    decreases s, 3
  {
    HeadTokens(lib, s) + NextTokens(lib, s) + [Plain(MoodWord(s.mood))]
  }

  /** A whole written sentence. */
  function Written(lib: Numerals, s: Sentence): string
  {
    Joined(SentenceTokens(lib, s)) + "\n"
  }

  // ---------------------------------------------------------------- the words of a text

  predicate IsSpace(c: char)
  {
    c == ' ' || c == '\t' || c == '\n' || c == '\r' || c == 11 as char || c == 12 as char
  }

  /** The length of the run of characters that are not blank. */
  function PlainLength(s: string): (r: nat)
    ensures r <= |s| && forall i :: 0 <= i < r ==> !IsSpace(s[i])
    ensures r < |s| ==> IsSpace(s[r])
  {
    if s == "" || IsSpace(s[0]) then 0 else 1 + PlainLength(s[1..])
  }

  /** A quoted word after its opening quote: the word, and how much of the text it takes with its closing quote. */
  function QuotedWord(s: string): (r: (string, nat))
    ensures r.1 <= |s|
  {
    if s == "" then ("", 0)
    else if s[0] == '"' then ("", 1)
    else if s[0] == '\\' && |s| > 1 then var (w, n) := QuotedWord(s[2..]); (s[1..2] + w, n + 2)
    else var (w, n) := QuotedWord(s[1..]); (s[..1] + w, n + 1)
  }

  function Words(s: string): seq<string>
    decreases |s|
  {
    if s == "" then []
    else if IsSpace(s[0]) then Words(s[1..])
    else if s[0] == '"' then var (w, n) := QuotedWord(s[1..]); [w] + Words(s[1 + n..])
    else [s[..PlainLength(s)]] + Words(s[PlainLength(s)..])
  }

  // ---------------------------------------------------------------- writing and splitting undo each other

  /** A word that splitting leaves whole. */
  predicate IsWord(w: string)
  {
    w != "" && w[0] != '"' && forall i :: 0 <= i < |w| ==> !IsSpace(w[i])
  }

  predicate IsClean(t: Token)
  {
    t.Plain? ==> IsWord(t.word)
  }

  predicate AllClean(ts: seq<Token>)
  {
    forall i :: 0 <= i < |ts| ==> IsClean(ts[i])
  }

  function WordsOf(ts: seq<Token>): (r: seq<string>)
    ensures |r| == |ts|
  {
    seq(|ts|, i requires 0 <= i < |ts| => ts[i].word)
  }

  lemma {:induction false} WordsOfJoin(a: seq<Token>, b: seq<Token>)
    ensures WordsOf(a + b) == WordsOf(a) + WordsOf(b)
  {
  }

  function Mark(c: char): string
  {
    if c == '"' || c == '\\' then "\\" else ""
  }

  lemma {:induction false} EscapedCons(s: string)
    requires s != ""
    ensures Escaped(s) == Mark(s[0]) + s[..1] + Escaped(s[1..])
  {
    assert "" + s[..1] == s[..1];
  }

  lemma {:induction false} QuotedStep(s: string)
    requires s != "" && s[0] != '"'
    ensures var n := if s[0] == '\\' && |s| > 1 then 2 else 1;
      QuotedWord(s) == (s[n - 1..n] + QuotedWord(s[n..]).0, QuotedWord(s[n..]).1 + n)
  {
    assert s[..1] == s[0..1];
  }

  lemma {:induction false} EscapedStep(w: string, rest: string)
    requires w != ""
    ensures Escaped(w) + "\"" + rest == Mark(w[0]) + w[..1] + (Escaped(w[1..]) + "\"" + rest)
  {
    hide Escaped, Mark;
    EscapedCons(w);
    var c := Mark(w[0]) + w[..1];
    assert (c + Escaped(w[1..])) + "\"" + rest == c + (Escaped(w[1..]) + "\"" + rest);
  }

  lemma {:induction false} EscapeRead(c: string, s: string)
    requires |c| == 1
    ensures QuotedWord("\\" + c + s) == (c + QuotedWord(s).0, QuotedWord(s).1 + 2)
  {
    hide QuotedWord;
    var t := "\\" + c + s;
    assert t[2..] == s && t[1..2] == c && t[0] == '\\';
    QuotedStep(t);
  }

  lemma {:induction false} PlainRead(c: string, s: string)
    requires |c| == 1 && c[0] != '"' && c[0] != '\\'
    ensures QuotedWord("" + c + s) == (c + QuotedWord(s).0, QuotedWord(s).1 + 1)
  {
    hide QuotedWord;
    var t := "" + c + s;
    assert t[1..] == s && t[0..1] == c && t[0] == c[0];
    QuotedStep(t);
  }

  lemma {:induction false} QuotedBack(w: string, rest: string)
    ensures QuotedWord(Escaped(w) + "\"" + rest) == (w, |Escaped(w)| + 1)
    decreases |w|
  {
    if w == "" {
      assert "" + "\"" + rest == "\"" + rest;
    } else {
      hide QuotedWord;
      QuotedBack(w[1..], rest);
      EscapedStep(w, rest);
      var e := Escaped(w[1..]) + "\"" + rest;
      assert w == w[..1] + w[1..];
      if w[0] == '"' || w[0] == '\\' {
        EscapeRead(w[..1], e);
      } else {
        PlainRead(w[..1], e);
      }
    }
  }

  lemma {:induction false} PlainBack(w: string, rest: string)
    requires forall i :: 0 <= i < |w| ==> !IsSpace(w[i])
    requires rest == "" || IsSpace(rest[0])
    ensures PlainLength(w + rest) == |w|
  {
    var n := PlainLength(w + rest);
    assert forall i :: 0 <= i < |w| ==> (w + rest)[i] == w[i];
    assert rest != "" ==> (w + rest)[|w|] == rest[0];
  }

  lemma {:induction false} TokenBack(t: Token, rest: string)
    requires IsClean(t) && (rest == "" || IsSpace(rest[0]))
    ensures Words(Spelled(t) + rest) == [t.word] + Words(rest)
  {
    hide Escaped, Words, IsSpace;
    if t.Plain? { PlainTokenBack(t.word, rest); } else { QuotedTokenBack(t.word, rest); }
  }

  lemma {:induction false} PlainTokenBack(w: string, rest: string)
    requires IsClean(Plain(w)) && (rest == "" || IsSpace(rest[0]))
    ensures Words(w + rest) == [w] + Words(rest)
  {
    hide Words, IsSpace, QuotedWord, PlainLength;
    var s := w + rest;
    WordsStep(s);
    PlainBack(w, rest);
    assert s[0] == w[0] && !IsSpace(w[0]);
    assert s[..|w|] == w && s[|w|..] == rest;
  }

  lemma {:induction false} QuotedTokenBack(w: string, rest: string)
    ensures Words("\"" + Escaped(w) + "\"" + rest) == [w] + Words(rest)
  {
    hide Escaped, Words, IsSpace, QuotedWord, PlainLength;
    var s := "\"" + Escaped(w) + "\"" + rest;
    WordsStep(s);
    QuotedBack(w, rest);
    QuoteIsNoSpace();
    assert s[1..] == Escaped(w) + "\"" + rest;
    assert s[1 + (|Escaped(w)| + 1)..] == rest;
  }

  lemma {:induction false} QuoteIsNoSpace()
    ensures !IsSpace('"')
  {
  }

  lemma {:induction false} WordsStep(s: string)
    requires s != ""
    ensures Words(s) == if IsSpace(s[0]) then Words(s[1..])
      else if s[0] == '"' then [QuotedWord(s[1..]).0] + Words(s[1 + QuotedWord(s[1..]).1..])
      else [s[..PlainLength(s)]] + Words(s[PlainLength(s)..])
  {
    hide IsSpace, QuotedWord, PlainLength;
  }

  /** The words of tokens written with single spaces are the tokens' words. */
  lemma {:induction false} JoinedBack(ts: seq<Token>, rest: string)
    requires ts != [] && AllClean(ts) && (rest == "" || IsSpace(rest[0]))
    ensures Words(Joined(ts) + rest) == WordsOf(ts) + Words(rest)
    decreases |ts|
  {
    hide Spelled, IsClean, Words, WordsOf, Joined, IsSpace;
    WordsOfCons(ts[0], ts[1..]);
    JoinedCons(ts);
    if |ts| == 1 {
      TokenBack(ts[0], rest);
      assert [ts[0].word] + [] == [ts[0].word];
    } else {
      var more := " " + (Joined(ts[1..]) + rest);
      SpaceFirst(Joined(ts[1..]) + rest);
      TokenBack(ts[0], more);
      JoinedBack(ts[1..], rest);
      assert Joined(ts) + rest == Spelled(ts[0]) + more;
      assert [ts[0].word] + (WordsOf(ts[1..]) + Words(rest)) == [ts[0].word] + WordsOf(ts[1..]) + Words(rest);
    }
  }

  lemma {:induction false} WordsOfCons(t: Token, ts: seq<Token>)
    ensures WordsOf([t] + ts) == [t.word] + WordsOf(ts) && WordsOf([]) == []
  {
  }

  lemma {:induction false} JoinedCons(ts: seq<Token>)
    requires ts != []
    ensures ts == [ts[0]] + ts[1..]
    ensures Joined(ts) == if |ts| == 1 then Spelled(ts[0]) else Spelled(ts[0]) + " " + Joined(ts[1..])
  {
    hide Spelled;
  }

  lemma {:induction false} SpaceFirst(s: string)
    ensures IsSpace((" " + s)[0]) && Words(" " + s) == Words(s)
  {
    assert (" " + s)[1..] == s;
  }
}
