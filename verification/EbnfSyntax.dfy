/** The grammar notation: its syntax trees, how text reads as trees, and the language a tree stands for. */
module EbnfSyntax {
  import opened CStrings
  import opened Options

  type Word = seq<nat>

  datatype Range = One(c: nat) | Upto(lo: nat, hi: nat)

  datatype Op = Star | Plus | Opt

  datatype Item =
    | Lit(cs: Word)
    | Class(neg: bool, ranges: seq<Range>)
    | Ref(name: string)
    | Group(alts: seq<Sequence>)
    | Rep(item: Item, op: Op)

  datatype Sequence = Sequence(items: seq<Item>)

  // ---------------------------------------------------------------- lexical parts

  predicate IsWordChar(c: char)
  {
    'a' <= c <= 'z' || 'A' <= c <= 'Z' || c == '-' || '0' <= c <= '9'
  }

  function HexDigit(c: char): Option<nat>
  {
    if 'a' <= c <= 'f' then Some((c - 'a') as int + 10)
    else if 'A' <= c <= 'F' then Some((c - 'A') as int + 10)
    else if '0' <= c <= '9' then Some((c - '0') as int)
    else None
  }

  /** Exactly `size` hexadecimal digits. */
  function ParseHex(s: string, pos: nat, size: nat, value: nat): (r: Option<(nat, nat)>)
    ensures r.Some? ==> r.value.1 == pos + size && (pos <= |s| ==> r.value.1 <= |s|)
    decreases size
  {
    if size == 0 then Some((value, pos))
    else
      match HexDigit(At(s, pos))
      case None => None
      case Some(d) => if pos < |s| then ParseHex(s, pos + 1, size - 1, 16 * value + d) else None
  }

  /** To the end of the line. */
  function LineEnd(s: string, pos: nat): (r: nat)
    requires pos <= |s|
    ensures pos <= r <= |s|
    decreases |s| - pos
  {
    if pos < |s| && s[pos] != '\0' && s[pos] != '\r' && s[pos] != '\n' then LineEnd(s, pos + 1) else pos
  }

  predicate IsSpace(c: char, newlineOk: bool)
  {
    c == ' ' || c == '\t' || c == '#' || (newlineOk && (c == '\r' || c == '\n'))
  }

  /** Blanks and comments; line ends only where allowed. */
  function Space(s: string, pos: nat, newlineOk: bool): (r: nat)
    requires pos <= |s|
    ensures pos <= r <= |s|
    decreases |s| - pos
  {
    if pos < |s| && IsSpace(s[pos], newlineOk) then
      if s[pos] == '#' then
        assert LineEnd(s, pos) > pos;
        Space(s, LineEnd(s, pos), newlineOk)
      else Space(s, pos + 1, newlineOk)
    else pos
  }

  function NameEnd(s: string, pos: nat): (r: nat)
    requires pos <= |s|
    ensures pos <= r <= |s| && forall i :: pos <= i < r ==> IsWordChar(s[i])
    decreases |s| - pos
  {
    if pos < |s| && IsWordChar(s[pos]) then NameEnd(s, pos + 1) else pos
  }

  /** One character of a literal or a class, escapes undone. */
  function ParseChar(s: string, pos: nat): (r: Option<(nat, nat)>)
    requires pos <= |s|
    ensures r.Some? ==> pos < r.value.1 <= |s|
  {
    if At(s, pos) == '\\' then
      var c := At(s, pos + 1);
      if c == 'x' then ParseHex(s, pos + 2, 2, 0)
      else if c == 'u' then ParseHex(s, pos + 2, 4, 0)
      else if c == 'U' then ParseHex(s, pos + 2, 8, 0)
      else if c == 't' then Some((9, pos + 2))
      else if c == 'r' then Some((13, pos + 2))
      else if c == 'n' then Some((10, pos + 2))
      else if c == '\\' || c == '"' || c == '[' || c == ']' then Some((c as int, pos + 2))
      else None
    else if At(s, pos) != '\0' then Some((s[pos] as int, pos + 1))
    else None
  }

  /** The characters up to the closing quote, and the position of that quote. */
  function ReadLit(s: string, pos: nat): (r: Option<(Word, nat)>)
    requires pos <= |s|
    ensures r.Some? ==> pos <= r.value.1 < |s|
    decreases |s| - pos
  {
    if At(s, pos) == '"' then Some(([], pos))
    else
      match ParseChar(s, pos)
      case None => None
      case Some((c, p)) =>
        match ReadLit(s, p)
        case None => None
        case Some((cs, q)) => Some(([c] + cs, q))
  }

  /** One member of a class: a character, or a range when a dash and anything but the closing bracket follow. */
  function ReadRange(s: string, pos: nat): (r: Option<(Range, nat)>)
    requires pos <= |s|
    ensures r.Some? ==> pos < r.value.1 <= |s|
  {
    match ParseChar(s, pos)
    case None => None
    case Some((c, p)) =>
      if At(s, p) == '-' && At(s, p + 1) != ']' then
        match ParseChar(s, p + 1)
        case None => None
        case Some((d, q)) => Some((Upto(c, d), q))
      else Some((One(c), p))
  }

  function ReadRanges(s: string, pos: nat): (r: Option<(seq<Range>, nat)>)
    requires pos <= |s|
    ensures r.Some? ==> pos <= r.value.1 < |s|
    decreases |s| - pos
  {
    if At(s, pos) == ']' then Some(([], pos))
    else
      match ReadRange(s, pos)
      case None => None
      case Some((g, p)) =>
        match ReadRanges(s, p)
        case None => None
        case Some((rs, q)) => Some(([g] + rs, q))
  }

  // ---------------------------------------------------------------- sequences, alternates, rules

  predicate IsEmptyItem(i: Item)
  {
    (i.Lit? && i.cs == []) || (i.Class? && i.ranges == [])
  }

  /** A repetition sign needs something before it in the same sequence. */
  predicate CanRepeat(items: seq<Item>)
  {
    items != [] && !IsEmptyItem(items[|items| - 1])
  }

  function OpOf(c: char): Op
  {
    if c == '*' then Star else if c == '+' then Plus else Opt
  }

  /** The items from `pos` on, after those already read. */
  function ReadSequence(s: string, pos: nat, nested: bool, items: seq<Item>): (r: Option<(seq<Item>, nat)>)
    requires pos <= |s|
    ensures r.Some? ==> pos <= r.value.1 <= |s|
    decreases |s| - pos, 0
  {
    var c := At(s, pos);
    if c == '"' then
      match ReadLit(s, pos + 1)
      case None => None
      case Some((cs, q)) => ReadSequence(s, Space(s, q + 1, nested), nested, items + [Lit(cs)])
    else if c == '[' then
      var neg := At(s, pos + 1) == '^';
      match ReadRanges(s, if neg then pos + 2 else pos + 1)
      case None => None
      case Some((rs, q)) => ReadSequence(s, Space(s, q + 1, nested), nested, items + [Class(neg, rs)])
    else if IsWordChar(c) then
      var e := NameEnd(s, pos);
      assert e > pos;
      ReadSequence(s, Space(s, e, nested), nested, items + [Ref(s[pos..e])])
    else if c == '(' then
      match ReadAlternates(s, Space(s, pos + 1, true), true, [])
      case None => None
      case Some((alts, q)) =>
        if At(s, q) != ')' then None
        else ReadSequence(s, Space(s, q + 1, nested), nested, items + [Group(alts)])
    else if c == '*' || c == '+' || c == '?' then
      if !CanRepeat(items) then None
      else
        var n := |items| - 1;
        ReadSequence(s, Space(s, pos + 1, nested), nested, items[..n] + [Rep(items[n], OpOf(c))])
    else Some((items, pos))
  }

  /** Sequences separated by bars, after those already read. */
  function ReadAlternates(s: string, pos: nat, nested: bool, alts: seq<Sequence>): (r: Option<(seq<Sequence>, nat)>)
    requires pos <= |s|
    ensures r.Some? ==> pos <= r.value.1 <= |s| && |r.value.0| > |alts|
    decreases |s| - pos, 1
  {
    match ReadSequence(s, pos, nested, [])
    case None => None
    case Some((items, q)) =>
      if At(s, q) == '|' then ReadAlternates(s, Space(s, q + 1, true), nested, alts + [Sequence(items)])
      else Some((alts + [Sequence(items)], q))
  }

  datatype Rule = Rule(name: string, alts: seq<Sequence>)

  function ReadRule(s: string, pos: nat): (r: Option<(Rule, nat)>)
    requires pos <= |s|
    ensures r.Some? ==> pos < r.value.1 <= |s|
  {
    var e := NameEnd(s, pos);
    if e == pos then None
    else
      var p := Space(s, e, false);
      if !(At(s, p) == ':' && At(s, p + 1) == ':' && At(s, p + 2) == '=') then None
      else
        match ReadAlternates(s, Space(s, p + 3, true), false, [])
        case None => None
        case Some((alts, q)) =>
          if At(s, q) == '\r' then
            Some((Rule(s[pos..e], alts), Space(s, q + if At(s, q + 1) == '\n' then 2 else 1, true)))
          else if At(s, q) == '\n' then Some((Rule(s[pos..e], alts), Space(s, q + 1, true)))
          else if At(s, q) != '\0' then None
          else Some((Rule(s[pos..e], alts), Space(s, q, true)))
  }

  /** All rules of a text, in order, after those already read. */
  function ReadRules(s: string, pos: nat, rules: seq<Rule>): Option<seq<Rule>>
    requires pos <= |s|
    decreases |s| - pos
  {
    if At(s, pos) == '\0' then Some(rules)
    else
      match ReadRule(s, pos)
      case None => None
      case Some((r, q)) => ReadRules(s, q, rules + [r])
  }

  function ReadGrammar(s: string): Option<seq<Rule>>
  {
    ReadRules(s, Space(s, 0, true), [])
  }

  /** The last rule of a name counts. */
  function Definitions(rules: seq<Rule>): map<string, seq<Sequence>>
  {
    if rules == [] then map[]
    else Definitions(rules[..|rules| - 1])[rules[|rules| - 1].name := rules[|rules| - 1].alts]
  }

  // ---------------------------------------------------------------- languages

  predicate InRange(r: Range, c: nat)
  {
    match r
    case One(d) => c == d
    case Upto(lo, hi) => lo <= c <= hi
  }

  predicate InRanges(rs: seq<Range>, c: nat)
  {
    exists i :: 0 <= i < |rs| && InRange(rs[i], c)
  }

  function Flatten(ps: seq<Word>): Word
  {
    if ps == [] then [] else ps[0] + Flatten(ps[1..])
  }

  type Grammar = map<string, seq<Sequence>>

  /** `w` belongs to the item, following rule references at most `n` deep. */
  ghost predicate ItemHas(g: Grammar, item: Item, w: Word, n: nat)
    decreases n, item, 0
  {
    match item
    case Lit(cs) => w == cs
    case Class(neg, rs) => if rs == [] then w == [] else |w| == 1 && (InRanges(rs, w[0]) != neg)
    case Ref(name) => n > 0 && name in g && AltsHave(g, g[name], w, n - 1)
    case Group(alts) => AltsHave(g, alts, w, n)
    case Rep(it, Opt) => w == [] || ItemHas(g, it, w, n)
    case Rep(it, Star) =>
      exists ps: seq<Word> :: Flatten(ps) == w && forall i :: 0 <= i < |ps| ==> ItemHas(g, it, ps[i], n)
    case Rep(it, Plus) =>
      exists ps: seq<Word> :: ps != [] && Flatten(ps) == w && forall i :: 0 <= i < |ps| ==> ItemHas(g, it, ps[i], n)
  }

  /** The items one after the other. */
  ghost predicate ItemsHave(g: Grammar, items: seq<Item>, w: Word, n: nat)
    decreases n, items, 0
  {
    if items == [] then w == []
    else exists k :: 0 <= k <= |w| && ItemHas(g, items[0], w[..k], n) && ItemsHave(g, items[1..], w[k..], n)
  }

  ghost predicate AltsHave(g: Grammar, alts: seq<Sequence>, w: Word, n: nat)
    decreases n, alts, 0
  {
    exists i :: 0 <= i < |alts| && ItemsHave(g, alts[i].items, w, n)
  }

  /** The language of a rule. */
  ghost predicate RuleHas(g: Grammar, name: string, w: Word)
  {
    name in g && exists n: nat :: AltsHave(g, g[name], w, n)
  }
}
