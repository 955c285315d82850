/**
 JSON Merge Patch on trees (RFC 7396, section 2): what applying means, what a difference is, and when they undo each
 other.
 */
module MergeTree {
  import opened Options
  import opened JsonTree
  import opened JsonPointer

  type Members = map<string, Tree>

  function Base(target: Option<Tree>): Members
  {
    if target.Some? && target.value.TObject? then target.value.members else map[]
  }

  function Lookup(m: Members, k: string): Option<Tree>
  {
    if k in m then Some(m[k]) else None
  }

  /** The target with a patch applied: null members take away, others are merged in. */
  function Merged(target: Option<Tree>, patch: Tree): Tree
    decreases patch
  {
    if !patch.TObject? then patch
    else
      var base, p := Base(target), patch.members;
      TObject(map k | k in base.Keys + p.Keys && !(k in p && p[k].TNull?) ::
        if k in p then Merged(Lookup(base, k), p[k]) else base[k])
  }

  /** The patch from one tree to another; none when two objects are equal. */
  function Diff(from: Tree, to: Tree): Option<Tree>
    decreases to, 0
  {
    if !from.TObject? || !to.TObject? then Some(to)
    else
      var f, t := from.members, to.members;
      var p := map k | k in f.Keys + t.Keys && Lookup(f, k) != Lookup(t, k) ::
        if k !in t then TNull else if k !in f then t[k] else Changed(f[k], t[k]);
      if p == map[] then None else Some(TObject(p))
  }

  /** The patch for a member that both objects have, with different values. */
  function Changed(f: Tree, t: Tree): Tree
    decreases t, 1
  {
    match Diff(f, t) case None => TNull case Some(p) => p
  }

  // ---------------------------------------------------------------- when a difference leads back

  /** No null members, looking through objects only. */
  predicate Plain(t: Tree)
    decreases t
  {
    t.TObject? ==> forall k :: k in t.members ==> !t.members[k].TNull? && Plain(t.members[k])
  }

  /** Null members of the new tree are ones the old tree has as well, at the same place. */
  predicate Expressible(f: Tree, t: Tree)
    decreases t
  {
    if !f.TObject? || !t.TObject? then Plain(t)
    else
      forall k :: k in t.members && Lookup(f.members, k) != Some(t.members[k]) ==>
        !t.members[k].TNull?
          && (if k in f.members then Expressible(f.members[k], t.members[k]) else Plain(t.members[k]))
  }

  lemma {:induction false} MergedAt(target: Option<Tree>, patch: Tree, k: string)
    requires patch.TObject?
    ensures var base, p := Base(target), patch.members; var r := Merged(target, patch);
      && r.TObject?
      && (k in r.members <==> k in base.Keys + p.Keys && !(k in p && p[k].TNull?))
      && (k in r.members ==> r.members[k] == if k in p then Merged(Lookup(base, k), p[k]) else base[k])
  {
  }

  /** Merging an object into nothing keeps all but its null members. */
  lemma {:induction false} PlainExact(target: Option<Tree>, t: Tree)
    requires Base(target) == map[]
    ensures Merged(target, t) == t <==> Plain(t)
    decreases t
  {
    hide Merged, Plain;
    PlainCell(t);
    MergedScalar(target, t);
    if t.TObject? {
      var r := Merged(target, t);
      forall k | k in t.members
        ensures (k in r.members && r.members[k] == t.members[k]) <==> (!t.members[k].TNull? && Plain(t.members[k]))
      {
        MergedAt(target, t, k);
        PlainExact(Lookup(map[], k), t.members[k]);
      }
      SameObject(r, t, target);
    }
  }

  lemma {:induction false} PlainCell(t: Tree)
    ensures Plain(t) <==> (t.TObject? ==> forall k :: k in t.members ==> !t.members[k].TNull? && Plain(t.members[k]))
  {
  }

  lemma {:induction false} MergedScalar(target: Option<Tree>, t: Tree)
    ensures !t.TObject? ==> Merged(target, t) == t
    ensures t.TObject? ==> Merged(target, t).TObject?
  {
  }

  /** What is merged into nothing has no key the patch has not. */
  lemma {:induction false} SameObject(r: Tree, t: Tree, target: Option<Tree>)
    requires t.TObject? && Base(target) == map[] && r == Merged(target, t)
    ensures r == t <==> r.TObject? && forall k :: k in t.members ==> k in r.members && r.members[k] == t.members[k]
  {
    hide Merged, Base;
    forall k
      ensures r.TObject? && (k in r.members ==> k in t.members)
    {
      MergedAt(target, t, k);
    }
    if r.TObject? && forall k :: k in t.members ==> k in r.members && r.members[k] == t.members[k] {
      assert r.members == t.members;
    }
  }

  lemma {:induction false} DiffAt(f: Tree, t: Tree, k: string)
    requires f.TObject? && t.TObject?
    ensures Diff(f, t).Some? ==> Diff(f, t).value.TObject?
    ensures Diff(f, t).Some? ==> (k in Diff(f, t).value.members <==> Lookup(f.members, k) != Lookup(t.members, k))
    ensures Diff(f, t).Some? && k in Diff(f, t).value.members ==>
      Diff(f, t).value.members[k] ==
        if k !in t.members then TNull else if k !in f.members then t.members[k] else Changed(f.members[k], t.members[k])
  {
    hide Changed;
  }

  lemma {:induction false} DiffNone(f: Tree, t: Tree)
    ensures Diff(f, t) == None <==> f == t && f.TObject?
  {
    hide Changed;
    if f.TObject? && t.TObject? {
      if Diff(f, t) == None {
        var p := map k | k in f.members.Keys + t.members.Keys && Lookup(f.members, k) != Lookup(t.members, k) ::
          if k !in t.members then TNull
          else if k !in f.members then t.members[k]
          else Changed(f.members[k], t.members[k]);
        assert p == map[];
        forall k
          ensures Lookup(f.members, k) == Lookup(t.members, k)
        {
          assert k !in p;
        }
        LookupsDecide(f.members, t.members);
      }
    }
  }

  lemma {:induction false} LookupsDecide(a: Members, b: Members)
    requires forall k :: Lookup(a, k) == Lookup(b, k)
    ensures a == b
  {
    forall k
      ensures k in a <==> k in b
      ensures k in a && k in b ==> a[k] == b[k]
    {
      assert Lookup(a, k) == Lookup(b, k);
    }
  }

  /** Applying the difference gives the new tree in exactly these cases. */
  lemma {:induction false} DiffExact(f: Tree, t: Tree)
    requires Diff(f, t).Some?
    ensures Merged(Some(f), Diff(f, t).value) == t <==> Expressible(f, t)
    decreases t
  {
    hide Merged, Diff, Expressible, Plain;
    ExpressibleCell(f, t);
    DiffScalar(f, t);
    if !f.TObject? {
      PlainExact(Some(f), t);
    } else if !t.TObject? {
      MergedScalar(Some(f), t);
      PlainCell(t);
    } else {
      var p := Diff(f, t).value;
      var r := Merged(Some(f), p);
      DiffAt(f, t, "");
      MergedAt(Some(f), p, "");
      forall k
        ensures Lookup(r.members, k) == Lookup(t.members, k) <==> MemberExpressible(f, t, k)
      {
        MemberExact(f, t, k);
      }
      MembersExact(f, t, r);
    }
  }

  predicate MemberExpressible(f: Tree, t: Tree, k: string)
    requires f.TObject? && t.TObject?
  {
    k in t.members && Lookup(f.members, k) != Some(t.members[k]) ==>
      !t.members[k].TNull? && (if k in f.members then Expressible(f.members[k], t.members[k]) else Plain(t.members[k]))
  }

  lemma {:induction false} MembersExact(f: Tree, t: Tree, r: Tree)
    requires f.TObject? && t.TObject? && r.TObject?
    requires forall k :: Lookup(r.members, k) == Lookup(t.members, k) <==> MemberExpressible(f, t, k)
    ensures r == t <==> Expressible(f, t)
  {
    hide Expressible, MemberExpressible, Lookup;
    ExpressibleMembers(f, t);
    if Expressible(f, t) { LookupsDecide(r.members, t.members); }
  }

  lemma {:induction false} ExpressibleMembers(f: Tree, t: Tree)
    requires f.TObject? && t.TObject?
    ensures Expressible(f, t) <==> forall k :: MemberExpressible(f, t, k)
  {
    hide Plain;
    if Expressible(f, t) {
      forall k
        ensures MemberExpressible(f, t, k)
      {
      }
    }
    if forall k :: MemberExpressible(f, t, k) {
      forall k | k in t.members && Lookup(f.members, k) != Some(t.members[k])
        ensures !t.members[k].TNull?
          && (if k in f.members then Expressible(f.members[k], t.members[k]) else Plain(t.members[k]))
      {
        assert MemberExpressible(f, t, k);
      }
    }
  }

  lemma {:induction false} ExpressibleCell(f: Tree, t: Tree)
    ensures !f.TObject? || !t.TObject? ==> (Expressible(f, t) <==> Plain(t))
  {
    hide Plain;
  }

  lemma {:induction false} DiffScalar(f: Tree, t: Tree)
    ensures !f.TObject? || !t.TObject? ==> Diff(f, t) == Some(t)
  {
    hide Changed;
  }

  /** One member of the result, by what the difference says about it. */
  lemma {:induction false} MemberExact(f: Tree, t: Tree, k: string)
    requires f.TObject? && t.TObject? && Diff(f, t).Some? && Diff(f, t).value.TObject?
    requires Merged(Some(f), Diff(f, t).value).TObject?
    ensures Lookup(Merged(Some(f), Diff(f, t).value).members, k) == Lookup(t.members, k) <==> MemberExpressible(f, t, k)
    decreases t, 0
  {
    hide Merged, Diff, Expressible, Plain, Changed;
    DiffAt(f, t, k);
    MergedAt(Some(f), Diff(f, t).value, k);
    if k in t.members && k in f.members && f.members[k] != t.members[k] {
      ChangedIs(f.members[k], t.members[k]);
      DiffExact(f.members[k], t.members[k]);
      ExpressibleNull(f.members[k], t.members[k]);
    } else if k in t.members && k !in f.members {
      PlainExact(None, t.members[k]);
    }
  }

  lemma {:induction false} ChangedIs(f: Tree, t: Tree)
    requires f != t
    ensures Diff(f, t).Some? && Changed(f, t) == Diff(f, t).value
    ensures Changed(f, t).TNull? <==> t.TNull?
  {
    DiffNone(f, t);
    DiffScalar(f, t);
    hide Diff;
    if f.TObject? && t.TObject? { DiffAt(f, t, ""); }
  }

  lemma {:induction false} ExpressibleNull(f: Tree, t: Tree)
    ensures t.TNull? ==> Expressible(f, t)
  {
  }

  // ---------------------------------------------------------------- twice is once

  lemma {:induction false} Idempotent(target: Option<Tree>, p: Tree)
    ensures Merged(Some(Merged(target, p)), p) == Merged(target, p)
    decreases p
  {
    hide Merged;
    MergedScalar(target, p);
    var once := Merged(target, p);
    MergedScalar(Some(once), p);
    if p.TObject? {
      var twice := Merged(Some(once), p);
      forall k
        ensures Lookup(twice.members, k) == Lookup(once.members, k)
      {
        MergedAt(target, p, k);
        MergedAt(Some(once), p, k);
        if k in p.members && !p.members[k].TNull? {
          Idempotent(Lookup(Base(target), k), p.members[k]);
        }
      }
      LookupsDecide(twice.members, once.members);
    }
  }
}
