/** The flat rule encoding: elements, the code of a syntax tree, and the language of a set of flat rules. */
module EbnfCode {
  import opened EbnfSyntax

  /** Grammar elements; a range or an alternate character modifies the element before it. */
  datatype Elem =
    | End
    | Alt
    | RuleRef(id: nat)
    | Char(c: nat)
    | CharNot(c: nat)
    | RngUpper(c: nat)
    | CharAlt(c: nat)

  predicate IsChar(e: Elem) { e.Char? || e.CharNot? || e.RngUpper? || e.CharAlt? }

  // ---------------------------------------------------------------- syntax trees with their rule numbers

  /** An item together with the numbers the compiler chose for it. */
  datatype CItem =
    | CLit(cs: Word)
    | CClass(neg: bool, ranges: seq<Range>)
    | CRef(name: string, id: nat)
    | CGroup(alts: seq<CSequence>, id: nat)
    | CRep(item: CItem, op: Op, id: nat)

  datatype CSequence = CSequence(items: seq<CItem>)

  function Erase(i: CItem): Item
    decreases i, 0
  {
    match i
    case CLit(cs) => Lit(cs)
    case CClass(neg, rs) => Class(neg, rs)
    case CRef(name, _) => Ref(name)
    case CGroup(alts, _) => Group(EraseAlts(alts))
    case CRep(it, op, _) => Rep(Erase(it), op)
  }

  function EraseAll(items: seq<CItem>): (r: seq<Item>)
    ensures |r| == |items| && forall i :: 0 <= i < |r| ==> r[i] == Erase(items[i])
    decreases items, 0
  {
    if items == [] then [] else [Erase(items[0])] + EraseAll(items[1..])
  }

  function EraseAlts(alts: seq<CSequence>): (r: seq<Sequence>)
    ensures |r| == |alts| && forall i :: 0 <= i < |r| ==> r[i].items == EraseAll(alts[i].items)
    decreases alts, 0
  {
    if alts == [] then [] else [Sequence(EraseAll(alts[0].items))] + EraseAlts(alts[1..])
  }

  // ---------------------------------------------------------------- encoding

  function RangeCode(first: Elem, r: Range): seq<Elem>
  {
    match r
    case One(_) => [first]
    case Upto(_, hi) => [first, RngUpper(hi)]
  }

  function Lower(r: Range): nat { match r case One(c) => c case Upto(lo, _) => lo }

  /** The members of a class after the first. */
  function MoreRanges(rs: seq<Range>): seq<Elem>
  {
    if rs == [] then [] else RangeCode(CharAlt(Lower(rs[0])), rs[0]) + MoreRanges(rs[1..])
  }

  function ClassCode(neg: bool, rs: seq<Range>): seq<Elem>
  {
    if rs == [] then []
    else RangeCode(if neg then CharNot(Lower(rs[0])) else Char(Lower(rs[0])), rs[0]) + MoreRanges(rs[1..])
  }

  function LitCode(cs: Word): (r: seq<Elem>)
    ensures |r| == |cs|
  {
    if cs == [] then [] else [Char(cs[0])] + LitCode(cs[1..])
  }

  function Code(i: CItem): seq<Elem>
  {
    match i
    case CLit(cs) => LitCode(cs)
    case CClass(neg, rs) => ClassCode(neg, rs)
    case CRef(_, id) => [RuleRef(id)]
    case CGroup(_, id) => [RuleRef(id)]
    case CRep(_, _, id) => [RuleRef(id)]
  }

  function CodeAll(items: seq<CItem>): seq<Elem>
  {
    if items == [] then [] else Code(items[0]) + CodeAll(items[1..])
  }

  lemma {:induction false} CodeAllSplit(a: seq<CItem>, b: seq<CItem>)
    ensures CodeAll(a + b) == CodeAll(a) + CodeAll(b)
    decreases |a|
  {
    hide Code;
    if a == [] {
      assert a + b == b;
    } else {
      CodeAllSplit(a[1..], b);
      assert (a + b)[1..] == a[1..] + b;
    }
  }

  lemma {:induction false} CodeAllOne(i: CItem)
    ensures CodeAll([i]) == Code(i)
  {
    hide Code;
    assert [i][1..] == [];
  }

  /** Alternates joined by `Alt`. */
  function Body(alts: seq<CSequence>): seq<Elem>
  {
    if alts == [] then []
    else if |alts| == 1 then CodeAll(alts[0].items)
    else Body(alts[..|alts| - 1]) + [Alt] + CodeAll(alts[|alts| - 1].items)
  }

  function RuleCode(alts: seq<CSequence>): seq<Elem>
  {
    Body(alts) + [End]
  }

  /** The rule synthesised for a repetition of the symbol encoded as `c`. */
  function RepCode(c: seq<Elem>, id: nat, op: Op): seq<Elem>
  {
    match op
    case Star => c + [RuleRef(id)] + [Alt] + [End]
    case Plus => c + [RuleRef(id)] + [Alt] + c + [End]
    case Opt => c + [Alt] + [End]
  }

  // ---------------------------------------------------------------- the numbers are the compiler's

  predicate IsName(s: string)
  {
    s != "" && forall i :: 0 <= i < |s| ==> IsWordChar(s[i])
  }

  type Ids = map<string, nat>
  type Synth = map<nat, seq<Elem>>

  /** References carry the number of their name; groups and repetitions the number of their synthesised rule. */
  ghost predicate Known(ids: Ids, syn: Synth, i: CItem)
    decreases i, 0
  {
    match i
    case CLit(_) => true
    case CClass(_, _) => true
    case CRef(name, id) => IsName(name) && name in ids && ids[name] == id
    case CGroup(alts, id) => alts != [] && id in syn && syn[id] == RuleCode(alts) && KnownAlts(ids, syn, alts)
    case CRep(it, op, id) => id in syn && syn[id] == RepCode(Code(it), id, op) && Known(ids, syn, it)
  }

  ghost predicate KnownAll(ids: Ids, syn: Synth, items: seq<CItem>)
    decreases items, 0
  {
    items == [] || (Known(ids, syn, items[0]) && KnownAll(ids, syn, items[1..]))
  }

  ghost predicate KnownAlts(ids: Ids, syn: Synth, alts: seq<CSequence>)
    decreases alts, 0
  {
    alts == [] || (KnownAll(ids, syn, alts[0].items) && KnownAlts(ids, syn, alts[1..]))
  }

  ghost predicate Extends(ids: Ids, syn: Synth, ids': Ids, syn': Synth)
  {
    && (forall n :: n in ids ==> n in ids' && ids'[n] == ids[n])
    && (forall i :: i in syn ==> i in syn' && syn'[i] == syn[i])
  }

  lemma {:induction false} KnownGrows(ids: Ids, syn: Synth, ids': Ids, syn': Synth, i: CItem)
    requires Known(ids, syn, i) && Extends(ids, syn, ids', syn')
    ensures Known(ids', syn', i)
    decreases i, 0
  {
    hide RuleCode, RepCode, Code;
    match i
    case CGroup(alts, _) => KnownAltsGrow(ids, syn, ids', syn', alts);
    case CRep(it, _, _) => KnownGrows(ids, syn, ids', syn', it);
    case _ =>
  }

  lemma {:induction false} KnownAllGrow(ids: Ids, syn: Synth, ids': Ids, syn': Synth, items: seq<CItem>)
    requires KnownAll(ids, syn, items) && Extends(ids, syn, ids', syn')
    ensures KnownAll(ids', syn', items)
    decreases items, 0
  {
    hide Known;
    if items != [] {
      KnownGrows(ids, syn, ids', syn', items[0]);
      KnownAllGrow(ids, syn, ids', syn', items[1..]);
    }
  }

  lemma {:induction false} KnownAltsGrow(ids: Ids, syn: Synth, ids': Ids, syn': Synth, alts: seq<CSequence>)
    requires KnownAlts(ids, syn, alts) && Extends(ids, syn, ids', syn')
    ensures KnownAlts(ids', syn', alts)
    decreases alts, 0
  {
    if alts != [] {
      KnownAllGrow(ids, syn, ids', syn', alts[0].items);
      KnownAltsGrow(ids, syn, ids', syn', alts[1..]);
    }
  }

  lemma {:induction false} KnownAt(ids: Ids, syn: Synth, items: seq<CItem>, k: nat)
    requires KnownAll(ids, syn, items) && k < |items|
    ensures Known(ids, syn, items[k])
    decreases |items|
  {
    hide Known;
    if k > 0 { KnownAt(ids, syn, items[1..], k - 1); }
  }

  lemma {:induction false} KnownAllIs(ids: Ids, syn: Synth, items: seq<CItem>)
    requires forall k :: 0 <= k < |items| ==> Known(ids, syn, items[k])
    ensures KnownAll(ids, syn, items)
    decreases |items|
  {
    hide Known;
    if items != [] { KnownAllIs(ids, syn, items[1..]); }
  }

  lemma {:induction false} KnownAltAt(ids: Ids, syn: Synth, alts: seq<CSequence>, k: nat)
    requires KnownAlts(ids, syn, alts) && k < |alts|
    ensures KnownAll(ids, syn, alts[k].items)
    decreases |alts|
  {
    hide KnownAll;
    if k > 0 { KnownAltAt(ids, syn, alts[1..], k - 1); }
  }

  lemma {:induction false} KnownAltsIs(ids: Ids, syn: Synth, alts: seq<CSequence>)
    requires forall k :: 0 <= k < |alts| ==> KnownAll(ids, syn, alts[k].items)
    ensures KnownAlts(ids, syn, alts)
    decreases |alts|
  {
    hide KnownAll;
    if alts != [] { KnownAltsIs(ids, syn, alts[1..]); }
  }

  // ---------------------------------------------------------------- the language of flat rules

  /** Whether a character satisfies the class that starts at `e[0]`, apart from negation, and what follows the class. */
  function ScanClass(e: seq<Elem>, x: nat): (r: (bool, seq<Elem>))
    requires e != [] && (e[0].Char? || e[0].CharNot? || e[0].CharAlt?)
    ensures |r.1| < |e|
  {
    var ranged := |e| > 1 && e[1].RngUpper?;
    var hit := if ranged then e[0].c <= x <= e[1].c else x == e[0].c;
    var rest := if ranged then e[2..] else e[1..];
    if rest != [] && rest[0].CharAlt? then
      var (more, after) := ScanClass(rest, x);
      (hit || more, after)
    else (hit, rest)
  }

  type Rules = seq<seq<Elem>>

  /** The alternates of a stored rule, up to its end mark. */
  function AltsOf(e: seq<Elem>): (r: seq<seq<Elem>>)
    ensures |r| >= 1
  {
    if e == [] || e[0].End? then [[]]
    else
      var r := AltsOf(e[1..]);
      if e[0].Alt? then [[]] + r else [[e[0]] + r[0]] + r[1..]
  }

  /** `w` can be derived from the elements, expanding rules at most `n` deep. */
  ghost predicate ElemsHave(rules: Rules, e: seq<Elem>, w: Word, n: nat)
    decreases n, |e|, 0
  {
    if e == [] then w == []
    else
      match e[0]
      case RuleRef(id) =>
        exists k :: 0 <= k <= |w| && DerivesIn(rules, id, w[..k], n) && ElemsHave(rules, e[1..], w[k..], n)
      case Char(_) => w != [] && var (hit, rest) := ScanClass(e, w[0]); hit && ElemsHave(rules, rest, w[1..], n)
      case CharNot(_) => w != [] && var (hit, rest) := ScanClass(e, w[0]); !hit && ElemsHave(rules, rest, w[1..], n)
      case _ => false
  }

  /** `w` can be derived from a rule; a rule never stored derives nothing. */
  ghost predicate DerivesIn(rules: Rules, id: nat, w: Word, n: nat)
    decreases n, 0, 0
  {
    n > 0 && id < |rules| && rules[id] != [] &&
    exists i :: 0 <= i < |AltsOf(rules[id])| && ElemsHave(rules, AltsOf(rules[id])[i], w, n - 1)
  }

  ghost predicate Derives(rules: Rules, id: nat, w: Word)
  {
    exists n: nat :: DerivesIn(rules, id, w, n)
  }
}
