/** How words read as sentences, and that what is written reads back. */
module PyashRead {
  import opened Options
  import opened PyashIr

  // ---------------------------------------------------------------- reading

  function Later(k: Option<nat>): Option<nat>
  {
    match k case None => None case Some(n) => Some(n + 1)
  }

  /** The index of the `ko` that closes the `depth` open sentences. */
  function Close(ts: seq<string>, depth: nat): (r: Option<nat>)
    requires depth > 0
    ensures r.Some? ==> r.value < |ts| && ts[r.value] == "ko"
  {
    if ts == [] then None
    else if ts[0] == "la" then Later(Close(ts[1..], depth + 1))
    else if ts[0] == "ko" then if depth == 1 then Some(0) else Later(Close(ts[1..], depth - 1))
    else Later(Close(ts[1..], depth))
  }

  function ReadSteps(ts: seq<string>): (r: (seq<string>, nat))
    ensures r.1 <= |ts|
  {
    if |ts| < 2 || ts[0] != "ti" then ([], 0)
    else var (more, n) := ReadSteps(ts[2..]); ([ts[1]] + more, n + 2)
  }

  predicate Stops(w: string)
  {
    IsCaseWord(w) || MoodOf(w).Some?
  }

  function ReadElement(lib: Numerals, elem: string, w: string): Option<Value>
  {
    if elem == "num" then
      match lib.scan(w) case None => None case Some(n) => Some(Num(n))
    else if elem == "text" then Some(Text(w))
    else if elem == "bool" then Some(Bool(w == "truth"))
    else Some(Named(Name(None, Some(w))))
  }

  /** Bare elements up to a word that starts the next part of the sentence. */
  function ReadElements(lib: Numerals, elem: string, ts: seq<string>): (r: Option<(seq<Value>, nat)>)
    ensures r.Some? ==> r.value.1 == |r.value.0| && r.value.1 <= |ts|
  {
    if ts == [] || Stops(ts[0]) then Some(([], 0))
    else
      match ReadElement(lib, elem, ts[0])
      case None => None
      case Some(v) =>
        match ReadElements(lib, elem, ts[1..])
        case None => None
        case Some((vs, n)) => Some(([v] + vs, n + 1))
  }

  function ReadVector(lib: Numerals, ts: seq<string>): (r: Option<(Value, nat)>)
    ensures r.Some? ==> r.value.1 <= |ts|
  {
    var typed := ts != [] && IsTypeWord(ts[0]);
    var elem := if typed then ts[0] else "num";
    var skip := if typed then 1 else 0;
    if elem == "hollow" then Some((Vector(Some(elem), []), skip))
    else if !(elem == "num" || elem == "text" || elem == "bool" || elem == "name") then None
    else
      match ReadElements(lib, elem, ts[skip..])
      case None => None
      case Some((vs, n)) => Some((Vector(Some(elem), vs), skip + n))
  }

  /** The base of a genitive: `this` or a name. */
  function ReadBase(ts: seq<string>): (r: Option<(Option<Name>, nat)>)
    requires ts != []
    ensures r.Some? ==> 0 < r.value.1 <= |ts|
  {
    if ts[0] == "this" then Some((None, 1))
    else if ts[0] == "name" && |ts| > 1 then
      if IsTypeWord(ts[1]) && |ts| > 2 then Some((Some(Name(Some(ts[1]), Some(ts[2]))), 3))
      else Some((Some(Name(None, Some(ts[1]))), 2))
    else None
  }

  /** The value at the start of the words, and how many words it takes. */
  function ReadValue(lib: Numerals, ts: seq<string>): (r: Option<(Value, nat)>)
    ensures r.Some? ==> 0 < r.value.1 <= |ts|
    decreases |ts|, 0
  {
    if ts == [] then None
    else if ts[0] == "la" then
      match Close(ts[1..], 1)
      case None => None
      case Some(k) =>
        if k == 0 then None
        else
          var last := MoodOf(ts[k]);
          var mood := if last.Some? then last.value else Ya;
          match ReadSentence(lib, ts[1..if last.Some? then k else k + 1], Blank(mood))
          case None => None
          case Some(child) => Some((Embedded(child.(mood := mood)), k + 2))
    else if ts[0] == "num" then
      if |ts| < 2 then None
      else match lib.scan(ts[1]) case None => None case Some(n) => Some((Num(n), 2))
    else if ts[0] == "text" then if |ts| < 2 then None else Some((Text(ts[1]), 2))
    else if ts[0] == "bool" then if |ts| < 2 then None else Some((Bool(ts[1] == "truth"), 2))
    else if ts[0] == "hollow" then Some((Hollow, 1))
    else if ts[0] == "unspecified" then Some((Unspec, 1))
    else if ts[0] == "ve" || ts[0] == "vec" then
      match ReadVector(lib, ts[1..])
      case None => None
      case Some((v, n)) => Some((v, n + 1))
    else
      match ReadBase(ts)
      case None => None
      case Some((base, n)) =>
        var (steps, m) := ReadSteps(ts[n..]);
        Some((if m > 0 then Path(base, steps) else if base.None? then This else Named(base.value), n + m))
  }

  /** Words without their mood, on top of what was already read. */
  function ReadSentence(lib: Numerals, ts: seq<string>, s: Sentence): Option<Sentence>
    decreases |ts|, 1
  {
    if ts == [] then Some(s)
    else if ts[0] == "exists" then ReadSentence(lib, ts[1..], s.(exists_ := true))
    else if ts[0] == "be" then
      if |ts| < 2 then None
      else if |ts| > 2 && (ts[1] == "json" || ts[1] == "csv") && ts[2] == "map" then
        ReadSentence(lib, ts[3..], s.(be := Some(ts[1] + " map")))
      else ReadSentence(lib, ts[2..], s.(be := Some(ts[1])))
    else if ts[0] == "then" then
      if |ts| < 2 then None
      else
        match ReadSentence(lib, ts[1..], Blank(s.mood))
        case None => None
        case Some(child) => Some(s.(next := Some(child.(mood := s.mood))))
    else
      match CaseOf(ts[0])
      case None => None
      case Some(c) =>
        match ReadValue(lib, ts[1..])
        case None => None
        case Some((v, n)) => ReadSentence(lib, ts[1 + n..], With(s, c, v))
  }

  /** A whole text: its last word must be a mood. */
  function Read(lib: Numerals, text: string): Option<Sentence>
  {
    var ts := Words(text);
    if ts == [] then None
    else
      match MoodOf(ts[|ts| - 1])
      case None => None
      case Some(mood) =>
        match ReadSentence(lib, ts[..|ts| - 1], Blank(mood))
        case None => None
        case Some(s) => Some(s.(mood := mood))
  }

  // ---------------------------------------------------------------- sentences that read back

  /** Inside another sentence no word may look like its brackets. */
  predicate Free(w: string, nested: bool)
  {
    nested ==> w != "la" && w != "ko"
  }

  predicate GoodWord(w: string, nested: bool)
  {
    IsWord(w) && Free(w, nested)
  }

  predicate GoodName(n: Name, nested: bool)
  {
    && n.literal.Some? && GoodWord(n.literal.value, nested)
    && (if n.kind.Some? then IsTypeWord(n.kind.value) else !IsTypeWord(n.literal.value))
  }

  predicate GoodBe(be: Option<string>, nested: bool)
  {
    be.Some? ==> GoodWord(be.value, nested) || IsMapName(be.value)
  }

  predicate IsElementType(w: string)
  {
    w == "num" || w == "text" || w == "bool" || w == "name" || w == "hollow"
  }

  predicate Canonical(lib: Numerals, v: Value, nested: bool)
    decreases v, 0
  {
    match v
    case Num(n) => GoodWord(lib.print_(n), nested) && lib.scan(lib.print_(n)) == Some(n)
    case Text(t) => Free(t, nested)
    case Bool(_) => true
    case Hollow => true
    case Unspec => true
    case Named(n) => GoodName(n, nested)
    case This => true
    case Path(base, steps) =>
      && (base.Some? ==> GoodName(base.value, nested))
      && steps != [] && forall i :: 0 <= i < |steps| ==> GoodWord(steps[i], nested)
    case Vector(elem, values) => elem.Some? && IsElementType(elem.value) && values == []
    case Mapping => false
    case Embedded(s) => CanonicalSentence(lib, s, true)
  }

  /** Everything but the sentence that follows. */
  predicate CanonicalParts(lib: Numerals, s: Sentence, nested: bool)
    decreases s, 1
  {
    && GoodBe(s.be, nested)
    && forall c :: Field(s, c).Some? ==> Canonical(lib, Field(s, c).value, nested)
  }

  predicate CanonicalSentence(lib: Numerals, s: Sentence, nested: bool)
    decreases s, 2
  {
    CanonicalParts(lib, s, nested) && (s.exists_ ==> s.mood == Ya) && s.next.None?
  }

  /** A sentence with all that follow it. */
  predicate CanonicalChain(lib: Numerals, s: Sentence)
    decreases s
  {
    CanonicalParts(lib, s, false) && (s.next.Some? ==> CanonicalChain(lib, s.next.value))
  }

  /** The names that come back; the last word of a sentence may be a type word without a type before it. */
  predicate ReturnsName(n: Name, last: bool)
  {
    && n.literal.Some? && n.literal.value != ""
    && (if n.kind.Some? then IsTypeWord(n.kind.value) else last || !IsTypeWord(n.literal.value))
  }

  /** The values that come back from their own words, embedded sentences aside. */
  predicate Returns(lib: Numerals, v: Value, last: bool)
    requires !v.Embedded?
  {
    match v
    case Num(n) => lib.scan(lib.print_(n)) == Some(n)
    case Named(n) => ReturnsName(n, last)
    case Path(base, steps) => steps != [] && (base.Some? ==> ReturnsName(base.value, false))
    case Vector(elem, values) => elem.Some? && IsElementType(elem.value) && values == []
    case Mapping => false
    case _ => true
  }

  /** What may follow a value. */
  predicate Boundary(ts: seq<string>)
  {
    ts == [] || Stops(ts[0])
  }

  // ---------------------------------------------------------------- words that differ

  lemma {:induction false} CaseWordIs(c: Case)
    ensures var w := CaseWord(c);
      CaseOf(w) == Some(c) && IsWord(w) && w != "exists" && w != "be" && w != "then" && w != "la" && w != "ko"
        && Stops(w)
  {
    var w := CaseWord(c);
    assert |w| == 2 ==> "be"[1] != w[1] && "la"[1] != w[1] && "ko"[0] != w[0];
    assert |w| == 4 ==> "then"[0] != w[0];
    assert "su"[0] != "ob"[0] && "su"[0] != "to"[0] && "su"[0] != "by"[0] && "ob"[0] != "to"[0] && "ob"[0] != "by"[0]
      && "to"[0] != "by"[0];
    assert "toindex"[0] != "atindex"[0];
  }

  lemma {:induction false} MoodWordIs(m: Mood)
    ensures var w := MoodWord(m);
      MoodOf(w) == Some(m) && IsWord(w) && w != "la" && w != "ko" && w != "exists" && w != "be" && CaseOf(w).None?
  {
    var w := MoodWord(m);
    assert "ya"[0] != "do"[0] && "prah"[0] != "then"[0];
    assert |w| == 2 ==> w[0] == 'y' || w[0] == 'd';
    assert |w| == 4 ==> "from"[0] != w[0];
    assert "la"[0] == 'l' && "ko"[0] == 'k' && "be"[0] == 'b' && "su"[0] == 's' && "ob"[0] == 'o' && "to"[0] == 't'
      && "by"[0] == 'b';
  }

  lemma {:induction false} StopsIs(w: string)
    requires Stops(w)
    ensures w != "ti" && w != "map" && w != "exists"
  {
    assert "ti"[1] == 'i' && "map"[0] == 'm' && "to"[1] == 'o' && "ti"[0] == 't';
    assert "su"[0] == 's' && "ob"[0] == 'o' && "by"[0] == 'b' && "be"[0] == 'b' && "ya"[0] == 'y' && "do"[0] == 'd'
      && "def"[0] == 'd';
  }
}
