/**
 Pyash sentences as people write them: parts in any order, vectors with bare elements, any blanks between the words.
 Apart from which values are canonical, nothing here refers to the reader.
 */
module PyashNotation {
  import opened Options
  import opened PyashIr
  import opened PyashRead

  // ---------------------------------------------------------------- words

  /** The words that begin the next part of a sentence or end it. */
  ghost predicate Starter(w: string)
  {
    (exists c :: w == CaseWord(c)) || (exists m :: w == MoodWord(m)) || w in {"be", "then"}
  }

  const TYPE_WORDS := {
    "num", "text", "bool", "name", "hollow", "ve", "vec", "map", "json", "csv", "filename", "pyash", "english",
    "javascript"}

  const ELEMENT_TYPES := {"num", "text", "bool", "name"}

  /** A bare word stands for an element of a vector; every truth value but `truth` is a lie. */
  predicate Spells(lib: Numerals, kind: string, w: string, v: Value)
  {
    match v
    case Num(n) => kind == "num" && lib.scan(w) == Some(n)
    case Text(t) => kind == "text" && w == t
    case Bool(b) => kind == "bool" && b == (w == "truth")
    case Named(Name(None, Some(l))) => kind == "name" && w == l
    case _ => false
  }

  // ---------------------------------------------------------------- parts of a sentence

  /** A value in its full form, or a vector with bare elements; without an element type they are numbers. */
  datatype Spoken =
    | Formal(value: Value)
    | Bare(intro: string, kind: Option<string>, words: seq<string>, values: seq<Value>)

  function KindOf(kind: Option<string>): string { if kind.Some? then kind.value else "num" }

  ghost predicate SpokenOk(lib: Numerals, v: Spoken)
  {
    match v
    case Formal(value) => Canonical(lib, value, false)
    case Bare(intro, kind, words, values) =>
      && intro in {"ve", "vec"} && KindOf(kind) in ELEMENT_TYPES && |words| == |values|
      && (kind.None? && words != [] ==> words[0] !in TYPE_WORDS)
      && forall i :: 0 <= i < |words| ==> !Starter(words[i]) && Spells(lib, KindOf(kind), words[i], values[i])
  }

  function SpokenWords(lib: Numerals, v: Spoken): seq<string>
  {
    match v
    case Formal(value) => WordsOf(ValueTokens(lib, value))
    case Bare(intro, kind, words, _) => [intro] + ((if kind.Some? then [kind.value] else []) + words)
  }

  function SpokenValue(v: Spoken): Value
  {
    match v
    case Formal(value) => value
    case Bare(_, kind, _, values) => Vector(Some(KindOf(kind)), values)
  }

  datatype Part = Exists | Be(word: string) | BeMap(format: string) | Given(c: Case, value: Spoken)

  function PartWords(lib: Numerals, p: Part): seq<string>
  {
    match p
    case Exists => ["exists"]
    case Be(w) => ["be", w]
    case BeMap(f) => ["be", f, "map"]
    case Given(c, v) => [CaseWord(c)] + SpokenWords(lib, v)
  }

  function PartsWords(lib: Numerals, ps: seq<Part>): seq<string>
  {
    if ps == [] then [] else PartWords(lib, ps[0]) + PartsWords(lib, ps[1..])
  }

  /** After a value comes a word that begins a part, or nothing. */
  ghost predicate PartOk(lib: Numerals, p: Part, next: seq<string>)
  {
    match p
    case Exists => true
    case Be(w) => w in {"json", "csv"} && next != [] ==> next[0] != "map"
    case BeMap(f) => f in {"json", "csv"}
    case Given(_, v) => SpokenOk(lib, v) && (next != [] ==> Starter(next[0]))
  }

  ghost predicate PartsOk(lib: Numerals, ps: seq<Part>)
  {
    ps == [] || (PartOk(lib, ps[0], PartsWords(lib, ps[1..])) && PartsOk(lib, ps[1..]))
  }

  /** What a part says, on top of what was said before it. */
  function Said(s: Sentence, p: Part): Sentence
  {
    match p
    case Exists => s.(exists_ := true)
    case Be(w) => s.(be := Some(w))
    case BeMap(f) => s.(be := Some(f + " map"))
    case Given(c, v) => With(s, c, SpokenValue(v))
  }

  function AllSaid(s: Sentence, ps: seq<Part>): Sentence
    decreases |ps|
  {
    if ps == [] then s else AllSaid(Said(s, ps[0]), ps[1..])
  }

  // ---------------------------------------------------------------- texts

  predicate BlankText(t: string)
  {
    forall i :: 0 <= i < |t| ==> t[i] in {' ', '\t', '\n', '\r', 11 as char, 12 as char}
  }

  /** A word with the blanks in front of it. */
  datatype Placed = Placed(gap: string, token: Token)

  predicate LayoutOk(ws: seq<Placed>)
  {
    forall i :: 0 <= i < |ws| ==> BlankText(ws[i].gap) && IsClean(ws[i].token) && (i > 0 ==> ws[i].gap != "")
  }

  function LayoutText(ws: seq<Placed>, tail: string): string
  {
    if ws == [] then tail else ws[0].gap + (Spelled(ws[0].token) + LayoutText(ws[1..], tail))
  }

  function LayoutWords(ws: seq<Placed>): seq<string>
  {
    if ws == [] then [] else [ws[0].token.word] + LayoutWords(ws[1..])
  }

  /** The text says the sentence. */
  ghost predicate Says(lib: Numerals, text: string, s: Sentence)
  {
    exists ps: seq<Part>, mood: Mood, ws: seq<Placed>, tail: string ::
      && PartsOk(lib, ps) && LayoutOk(ws) && BlankText(tail) && text == LayoutText(ws, tail)
      && LayoutWords(ws) == PartsWords(lib, ps) + [MoodWord(mood)] && s == AllSaid(Blank(mood), ps)
  }
}
