/** The compiler's tables: symbol numbers and stored rules, and what every step keeps. */
module EbnfState {
  import opened Decimals
  import opened EbnfSyntax
  import opened EbnfCode
  import opened EbnfLanguage

  /** A name made for a synthesised rule carries that rule's number. */
  ghost predicate IsSynthName(n: string, id: nat)
  {
    exists base :: IsName(base) && n == base + "_" + Decimal(id)
  }

  /** Names and the numbers below their count correspond one to one. */
  ghost predicate IdsOk(ids: Ids)
  {
    && (forall n :: n in ids ==> ids[n] < |ids| && (IsName(n) || IsSynthName(n, ids[n])))
    && (forall m, n :: m in ids && n in ids && ids[m] == ids[n] ==> m == n)
    && (forall i :: 0 <= i < |ids| ==> HasName(ids, i))
  }

  /** Some name has this number. */
  ghost predicate HasName(ids: Ids, i: int)
  {
    exists n :: n in ids && ids[n] == i
  }

  /** Where a synthesised rule comes from. */
  ghost predicate HasSource(ids: Ids, syn: Synth, id: nat)
    requires id in syn
  {
    || (exists alts :: alts != [] && syn[id] == RuleCode(alts) && KnownAlts(ids, syn, alts))
    || (exists it, op :: syn[id] == RepCode(Code(it), id, op) && Known(ids, syn, it))
  }

  ghost predicate RulesOk(ids: Ids, rules: Rules, syn: Synth, defs: Defs)
  {
    && |rules| <= |ids|
    && (forall i :: i in syn ==> i < |rules| && rules[i] == syn[i] && HasSource(ids, syn, i))
    && (forall n :: n in ids && IsName(n) ==> ids[n] !in syn)
    && (forall n :: n in defs ==>
          IsName(n) && n in ids && ids[n] < |rules| && defs[n] != [] && rules[ids[n]] == RuleCode(defs[n])
          && KnownAlts(ids, syn, defs[n]))
    && (forall i :: 0 <= i < |rules| && rules[i] != [] ==> i in syn || exists n :: n in defs && ids[n] == i)
  }

  lemma {:induction false} OkIsWorld(ids: Ids, rules: Rules, syn: Synth, defs: Defs)
    requires IdsOk(ids) && RulesOk(ids, rules, syn, defs)
    ensures World(rules, ids, syn, defs)
  {
    hide Known, KnownAlts, RuleCode, RepCode, IsName, IsSynthName;
  }

  /** Old names, numbers and synthesised rules stay; what is new is numbered from the old count on. */
  ghost predicate Grew(ids: Ids, syn: Synth, ids': Ids, syn': Synth)
  {
    && Extends(ids, syn, ids', syn')
    && |ids| <= |ids'|
    && (forall n :: n in ids' && n !in ids ==> ids'[n] >= |ids|)
    && (forall i :: i in syn' && i !in syn ==> i >= |ids|)
  }

  lemma {:induction false} GrewTwice(ids: Ids, syn: Synth, ids': Ids, syn': Synth, ids'': Ids, syn'': Synth)
    requires Grew(ids, syn, ids', syn') && Grew(ids', syn', ids'', syn'')
    ensures Grew(ids, syn, ids'', syn'')
  {
  }

  lemma {:induction false} SourcesGrow(ids: Ids, syn: Synth, ids': Ids, syn': Synth, id: nat)
    requires id in syn && HasSource(ids, syn, id) && Extends(ids, syn, ids', syn')
    ensures HasSource(ids', syn', id)
  {
    hide Known, KnownAlts, RuleCode, RepCode, Code;
    if alts: seq<CSequence> :| alts != [] && syn[id] == RuleCode(alts) && KnownAlts(ids, syn, alts) {
      KnownAltsGrow(ids, syn, ids', syn', alts);
    } else {
      var it, op :| syn[id] == RepCode(Code(it), id, op) && Known(ids, syn, it);
      KnownGrows(ids, syn, ids', syn', it);
    }
  }

  // ---------------------------------------------------------------- numbering names

  lemma {:induction false} NumberingGrows(ids: Ids, name: string)
    requires IdsOk(ids) && name !in ids && (IsName(name) || IsSynthName(name, |ids|))
    ensures |ids[name := |ids|]| == |ids| + 1 && IdsOk(ids[name := |ids|])
  {
    hide IsName, IsSynthName;
    var ids' := ids[name := |ids|];
    assert ids'.Keys == ids.Keys + {name};
    assert |ids'| == |ids'.Keys| && |ids| == |ids.Keys|;
    forall i | 0 <= i < |ids'|
      ensures HasName(ids', i)
    {
      if i < |ids| {
        assert HasName(ids, i);
        var n :| n in ids && ids[n] == i;
        assert n in ids' && ids'[n] == i;
      } else {
        assert ids'[name] == i;
      }
    }
  }

  lemma {:induction false} RulesStay(ids: Ids, rules: Rules, syn: Synth, defs: Defs, ids': Ids)
    requires RulesOk(ids, rules, syn, defs) && Grew(ids, syn, ids', syn)
    ensures RulesOk(ids', rules, syn, defs)
  {
    hide Known, KnownAlts, RuleCode, RepCode, IsName, HasSource;
    forall i | i in syn
      ensures HasSource(ids', syn, i)
    {
      SourcesGrow(ids, syn, ids', syn, i);
    }
    forall n | n in defs
      ensures KnownAlts(ids', syn, defs[n])
    {
      KnownAltsGrow(ids, syn, ids', syn, defs[n]);
    }
  }

  /** One more name, with the next number. */
  lemma {:induction false} NameAdded(ids: Ids, rules: Rules, syn: Synth, defs: Defs, name: string)
    requires IdsOk(ids) && RulesOk(ids, rules, syn, defs) && name !in ids
    requires IsName(name) || IsSynthName(name, |ids|)
    ensures var ids' := ids[name := |ids|];
      |ids'| == |ids| + 1 && IdsOk(ids') && RulesOk(ids', rules, syn, defs) && Grew(ids, syn, ids', syn)
  {
    NumberingGrows(ids, name);
    hide IdsOk, RulesOk;
    RulesStay(ids, rules, syn, defs, ids[name := |ids|]);
  }

  /** The underscore cannot occur in the base, so the number can be read off. */
  lemma {:induction false} SynthNameDecides(b: string, c: string, x: string, y: string)
    requires IsName(b) && IsName(c) && b + "_" + x == c + "_" + y
    ensures b == c && x == y
  {
    var s := b + "_" + x;
    assert s[|b|] == '_' && s[|c|] == '_';
    assert forall i :: 0 <= i < |b| ==> s[i] == b[i];
    assert forall i :: 0 <= i < |c| ==> s[i] == c[i];
    assert |b| == |c|;
    assert b == s[..|b|] == c;
    assert x == s[|b| + 1..] == y;
  }

  lemma {:induction false} SynthNotName(b: string, x: string)
    ensures !IsName(b + "_" + x)
  {
    assert (b + "_" + x)[|b|] == '_';
  }

  /** A name made from the next number is new. */
  lemma {:induction false} MadeNameIsNew(ids: Ids, base: string)
    requires IdsOk(ids) && IsName(base)
    ensures var n := base + "_" + Decimal(|ids|); n !in ids && !IsName(n) && IsSynthName(n, |ids|)
  {
    var n := base + "_" + Decimal(|ids|);
    SynthNotName(base, Decimal(|ids|));
    if n in ids {
      var b :| IsName(b) && n == b + "_" + Decimal(ids[n]);
      SynthNameDecides(b, base, Decimal(ids[n]), Decimal(|ids|));
      DecimalInjective(ids[n], |ids|);
    }
  }

  // ---------------------------------------------------------------- storing rules

  function Resized(rules: Rules, id: nat): (r: Rules)
    ensures id < |r| && |r| >= |rules|
  {
    if |rules| <= id then rules + seq(id + 1 - |rules|, i => []) else rules
  }

  function Store(rules: Rules, id: nat, rule: seq<Elem>): (r: Rules)
    ensures id < |r| && r[id] == rule
    ensures |rules| <= |r| && (|r| == |rules| || |r| == id + 1)
    ensures forall i :: 0 <= i < |r| && i != id ==> r[i] == if i < |rules| then rules[i] else []
  {
    Resized(rules, id)[id := rule]
  }

  /** A number that belongs to no rule yet and to no name a user can write. */
  ghost predicate FreshSub(ids: Ids, syn: Synth, id: nat)
  {
    id < |ids| && id !in syn && forall n :: n in ids && IsName(n) ==> ids[n] != id
  }

  lemma {:induction false} FreshStays(ids: Ids, syn: Synth, ids': Ids, syn': Synth, id: nat)
    requires FreshSub(ids, syn, id) && Grew(ids, syn, ids', syn')
    ensures FreshSub(ids', syn', id)
  {
  }

  lemma {:induction false} IdsBelow(ids: Ids)
    requires IdsOk(ids)
    ensures forall n :: n in ids ==> ids[n] < |ids|
  {
    hide IsName, IsSynthName, HasName;
  }

  lemma {:induction false} SynthStored(ids: Ids, rules: Rules, syn: Synth, defs: Defs, id: nat, rule: seq<Elem>)
    requires IdsOk(ids) && RulesOk(ids, rules, syn, defs) && FreshSub(ids, syn, id)
    requires HasSource(ids, syn[id := rule], id)
    ensures RulesOk(ids, Store(rules, id, rule), syn[id := rule], defs)
    ensures Extends(ids, syn, ids, syn[id := rule])
  {
    hide Known, KnownAlts, RuleCode, RepCode, IsName, HasSource, Store, IdsOk;
    IdsBelow(ids);
    var syn' := syn[id := rule];
    forall i | i in syn'
      ensures HasSource(ids, syn', i)
    {
      if i != id { SourcesGrow(ids, syn, ids, syn', i); }
    }
    forall n | n in defs
      ensures KnownAlts(ids, syn', defs[n])
    {
      KnownAltsGrow(ids, syn, ids, syn', defs[n]);
    }
  }

  /** Definitions other than the stored one keep their rules. */
  lemma {:induction false} OtherDefinitionsStay(ids: Ids, rules: Rules, syn: Synth, defs: Defs, name: string,
                                                alts: seq<CSequence>)
    requires IdsOk(ids) && RulesOk(ids, rules, syn, defs) && IsName(name) && name in ids
    requires alts != [] && KnownAlts(ids, syn, alts)
    ensures var rules', defs' := Store(rules, ids[name], RuleCode(alts)), defs[name := alts];
      && (forall n :: n in defs' ==>
          IsName(n) && n in ids && ids[n] < |rules'| && defs'[n] != [] && rules'[ids[n]] == RuleCode(defs'[n])
          && KnownAlts(ids, syn, defs'[n]))
      && (forall i :: i in syn ==> i < |rules'| && rules'[i] == syn[i])
  {
    hide Known, KnownAlts, RuleCode, RepCode, IsName, HasSource, Store, HasName, IsSynthName;
  }

  lemma {:induction false} DefsWiden(ids: Ids, defs: Defs, name: string, alts: seq<CSequence>, i: nat)
    requires exists n :: n in defs && n in ids && ids[n] == i
    ensures exists n :: n in defs[name := alts] && n in ids && ids[n] == i
  {
    var n :| n in defs && n in ids && ids[n] == i;
    assert n in defs[name := alts];
  }

  lemma {:induction false} UserStored(ids: Ids, rules: Rules, syn: Synth, defs: Defs, name: string,
                                      alts: seq<CSequence>)
    requires IdsOk(ids) && RulesOk(ids, rules, syn, defs) && IsName(name) && name in ids
    requires alts != [] && KnownAlts(ids, syn, alts)
    ensures RulesOk(ids, Store(rules, ids[name], RuleCode(alts)), syn, defs[name := alts])
  {
    hide KnownAlts, RuleCode, IsName, HasSource, Store, IdsOk;
    var id := ids[name];
    var rules', defs' := Store(rules, id, RuleCode(alts)), defs[name := alts];
    OtherDefinitionsStay(ids, rules, syn, defs, name, alts);
    IdBelow(ids, name);
    forall i: nat | i < |rules'| && rules'[i] != [] && i !in syn
      ensures exists n :: n in defs' && ids[n] == i
    {
      if i == id {
        assert name in defs';
      } else {
        DefsWiden(ids, defs, name, alts, i);
      }
    }
  }

  lemma {:induction false} IdBelow(ids: Ids, name: string)
    requires IdsOk(ids) && name in ids
    ensures ids[name] < |ids|
  {
    hide IsName, IsSynthName, HasName;
  }
}
