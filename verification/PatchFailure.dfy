/** What a patch that fails does to the document: nothing, except for one kind of replacement. */
module PatchFailure {
  import opened CStrings
  import opened Options
  import opened JsonTree
  import opened MemberSort
  import opened JsonPointer
  import opened PatchKeys
  import opened JsonPatch

  // ---------------------------------------------------------------- one patch

  /** A replacement without a value: what is at the path is taken out before the value is missed. */
  predicate ReplacesByNothing(doc: Json, patch: Json)
  {
    && DecodeOperation(patch) == Replace && GetMember(patch, "value") == None
    && match GetMember(patch, "path")
       case Some(String(path)) => path != "" && DetachPath(doc, path).Done?
       case _ => false
  }

  /** A move to no place: what is at `from` is taken out before the place is looked for. */
  predicate MovesToNowhere(doc: Json, patch: Json)
  {
    && DecodeOperation(patch) == Move
    && match (GetMember(patch, "path"), GetMember(patch, "from"))
       case (Some(String(path)), Some(String(from))) =>
         DetachPath(doc, from).Done? && AttachPath(DetachPath(doc, from).doc, path, Null).Failed?
       case _ => false
  }

  predicate TakesOut(doc: Json, patch: Json)
  {
    ReplacesByNothing(doc, patch) || MovesToNowhere(doc, patch)
  }

  /** The document without what the patch takes out. */
  function TakenOut(doc: Json, patch: Json): Json
    requires TakesOut(doc, patch)
  {
    DetachPath(doc, GetMember(patch, if DecodeOperation(patch) == Replace then "path" else "from").value.s).doc
  }

  lemma {:induction false} FirstMatchKept(ms: seq<Member>, i: nat, c: Json, p: string)
    requires i < |ms|
    ensures FirstMatch(ms[i := Member(ms[i].key, c)], p) == FirstMatch(ms, p)
    decreases |ms|
  {
    hide ComparePointers;
    if i == 0 {
      assert ms[0 := Member(ms[0].key, c)][1..] == ms[1..];
    } else {
      FirstMatchKept(ms[1..], i - 1, c, p);
      assert ms[i := Member(ms[i].key, c)][1..] == ms[1..][i - 1 := Member(ms[i].key, c)];
    }
  }

  /** Changing a child does not change which child a token selects. */
  lemma {:induction false} ChildKept(j: Json, i: nat, c: Json, p: string)
    requires (j.Array? && i < |j.items|) || (j.Object? && i < |j.members|)
    ensures Child(SetChild(j, i, c), p) == Child(j, p)
    ensures var k := SetChild(j, i, c); (k.Array? && i < |k.items|) || (k.Object? && i < |k.members|)
    ensures ChildAt(SetChild(j, i, c), i) == c
    ensures c != ChildAt(j, i) ==> SetChild(j, i, c) != j
    ensures forall d :: SetChild(SetChild(j, i, c), i, d) == SetChild(j, i, d)
  {
    hide DecodeIndex, FirstMatch;
    if j.Object? { FirstMatchKept(j.members, i, c, p); }
  }

  /** What has been detached from a container can be put back there, and is missed until then. */
  lemma {:induction false} DetachedHere(j: Json, child: string, v: Json)
    requires EditHere(j, Detach(child)).Done?
    ensures EditHere(j, Detach(child)).doc != j
    ensures EditHere(EditHere(j, Detach(child)).doc, Attach(child, v)).Done?
  {
    hide DecodeIndex, FoldIndex;
  }

  lemma {:induction false} DetachedAt(j: Json, p: string, child: string, v: Json)
    requires EditAt(j, p, Detach(child)).Done?
    ensures EditAt(j, p, Detach(child)).doc != j
    ensures EditAt(EditAt(j, p, Detach(child)).doc, p, Attach(child, v)).Done?
    decreases j
  {
    hide EditHere, Child, Skip, SetChild;
    if At(p, 0) != '/' {
      DetachedHere(j, child, v);
    } else {
      var i := Child(j, p[1..]).value;
      var c := EditAt(ChildAt(j, i), Skip(p[1..]), Detach(child)).doc;
      DetachedAt(ChildAt(j, i), Skip(p[1..]), child, v);
      ChildKept(j, i, c, p[1..]);
    }
  }

  /** A replacement that has found the old value never fails to put the new one in. */
  lemma {:induction false} DetachedPath(doc: Json, path: string, v: Json)
    requires DetachPath(doc, path).Done?
    ensures DetachPath(doc, path).doc != doc
    ensures AttachPath(DetachPath(doc, path).doc, path, v).Done?
  {
    hide EditAt, DecodeInPlace;
    var i := LastSlash(path);
    DetachedAt(doc, path[..i], DecodeInPlace(path[i + 1..]), v);
  }

  /** Whether a place can be found does not depend on the value that is put there. */
  lemma {:induction false} AnyValue(j: Json, p: string, child: string, v: Json, w: Json)
    ensures EditAt(j, p, Attach(child, v)).Done? == EditAt(j, p, Attach(child, w)).Done?
    decreases j
  {
    hide Child, ChildAt, SetChild, Skip, DecodeIndex;
    if At(p, 0) == '/' && Child(j, p[1..]).Some? {
      AnyValue(ChildAt(j, Child(j, p[1..]).value), Skip(p[1..]), child, v, w);
    }
  }

  lemma {:induction false} AnyValuePath(doc: Json, path: string, v: Json, w: Json)
    ensures AttachPath(doc, path, v).Done? == AttachPath(doc, path, w).Done?
  {
    hide EditAt, DecodeInPlace;
    var i := LastSlash(path);
    if i < |path| { AnyValue(doc, path[..i], DecodeInPlace(path[i + 1..]), v, w); }
  }

  /** Detaching succeeds exactly when there is an item to take. */
  lemma {:induction false} TakenIfDetached(doc: Json, path: string)
    ensures TakenPath(doc, path).Some? <==> DetachPath(doc, path).Done?
  {
    hide EditAt, DecodeInPlace, GetItem, TakenHere;
    var i := LastSlash(path);
    if i < |path| { TakenAt(doc, path[..i], DecodeInPlace(path[i + 1..])); }
  }

  lemma {:induction false} TakenAt(j: Json, p: string, child: string)
    ensures EditAt(j, p, Detach(child)).Done? <==>
      GetItem(j, p).Some? && TakenHere(GetItem(j, p).value, child).Some?
    decreases j
  {
    hide Child, ChildAt, SetChild, Skip, DecodeIndex, FoldIndex;
    if At(p, 0) == '/' && Child(j, p[1..]).Some? {
      TakenAt(ChildAt(j, Child(j, p[1..]).value), Skip(p[1..]), child);
    }
  }

  /**
   A failing patch leaves the document alone, if and only if it is neither a replacement without a value that finds its
   target nor a move that finds its source and no place.
   */
  lemma {:induction false} FailingPatch(doc: Json, patch: Json)
    requires Defined(patch) && ApplyPatch(doc, patch).0 != 0
    ensures ApplyPatch(doc, patch).1 == doc <==> !TakesOut(doc, patch)
    ensures TakesOut(doc, patch) ==> ApplyPatch(doc, patch).1 == TakenOut(doc, patch)
    ensures ReplacesByNothing(doc, patch) ==> ApplyPatch(doc, patch).0 == 7
  {
    hide DetachPath, AttachPath, TakenPath, GetMember, DecodeOperation, ApplyReplacement, ApplyMove, ApplyPatch;
    var op := DecodeOperation(patch);
    match GetMember(patch, "path")
    case Some(String(path)) =>
      UnfoldPatch(doc, patch, path);
      if op == Replace && path != "" {
        FailingReplacement(doc, path, patch);
      } else if op == Move {
        FailingMove(doc, path, patch);
      } else {
        PlainFailure(doc, patch, path);
      }
    case _ => NoPath(doc, patch);
  }

  lemma {:induction false} UnfoldPatch(doc: Json, patch: Json, path: string)
    requires Defined(patch) && GetMember(patch, "path") == Some(String(path))
    ensures DecodeOperation(patch) == Replace && path != "" ==>
      ApplyPatch(doc, patch) == ApplyReplacement(doc, path, patch)
    ensures DecodeOperation(patch) == Move ==> ApplyPatch(doc, patch) == ApplyMove(doc, path, patch)
  {
    hide DetachPath, AttachPath, TakenPath, GetMember, DecodeOperation, ApplyReplacement, ApplyMove;
  }

  lemma {:induction false} NoPath(doc: Json, patch: Json)
    requires Defined(patch) && forall path :: GetMember(patch, "path") != Some(String(path))
    ensures ApplyPatch(doc, patch) == (2, doc)
  {
    hide GetMember, DecodeOperation;
  }

  lemma {:induction false} PlainFailure(doc: Json, patch: Json, path: string)
    requires Defined(patch) && GetMember(patch, "path") == Some(String(path)) && ApplyPatch(doc, patch).0 != 0
    requires DecodeOperation(patch) != Move && (DecodeOperation(patch) == Replace ==> path == "")
    ensures ApplyPatch(doc, patch).1 == doc
  {
    hide DetachPath, AttachPath, TakenPath, GetMember, DecodeOperation, Passes;
  }

  lemma {:induction false} FailingReplacement(doc: Json, path: string, patch: Json)
    requires ApplyReplacement(doc, path, patch).0 != 0
    ensures DetachPath(doc, path).Failed? ==> ApplyReplacement(doc, path, patch).1 == doc
    ensures DetachPath(doc, path).Done? ==>
      && GetMember(patch, "value") == None && DetachPath(doc, path).doc != doc
      && ApplyReplacement(doc, path, patch) == (7, DetachPath(doc, path).doc)
  {
    hide DetachPath, AttachPath, GetMember;
    if DetachPath(doc, path).Done? {
      match GetMember(patch, "value")
      case Some(v) => DetachedPath(doc, path, v);
      case None => DetachedPath(doc, path, Null);
    }
  }

  lemma {:induction false} FailingMove(doc: Json, path: string, patch: Json)
    requires ApplyMove(doc, path, patch).0 != 0
    ensures match GetMember(patch, "from")
      case Some(String(from)) =>
        if DetachPath(doc, from).Done? then
          var d := DetachPath(doc, from).doc;
          ApplyMove(doc, path, patch).1 == d && d != doc && AttachPath(d, path, Null).Failed?
        else ApplyMove(doc, path, patch).1 == doc
      case _ => ApplyMove(doc, path, patch).1 == doc
  {
    hide DetachPath, AttachPath, TakenPath, GetMember;
    match GetMember(patch, "from")
    case Some(String(from)) =>
      TakenIfDetached(doc, from);
      if DetachPath(doc, from).Done? {
        DetachedPath(doc, from, Null);
        AnyValuePath(DetachPath(doc, from).doc, path, TakenPath(doc, from).value, Null);
      }
    case _ =>
  }

  // ---------------------------------------------------------------- patch lists

  /** Patch `n` is the first that fails; `before` is the document that the patches before it have made. */
  ghost predicate StopsAt(doc: Json, patches: seq<Json>, n: nat, before: Json, status: int)
    requires AllDefined(patches)
  {
    && n < |patches| && ApplyPatches(doc, patches[..n]) == (0, before)
    && ApplyPatch(before, patches[n]).0 == status && status != 0
  }

  /** What a failed run leaves. */
  function Left(before: Json, patch: Json): Json
  {
    if TakesOut(before, patch) then TakenOut(before, patch) else before
  }

  /** A list that stops leaves what the patches before the failing one have made, less what that one takes out. */
  lemma {:induction false} StoppedList(doc: Json, patches: seq<Json>, n: nat, before: Json, status: int)
    requires AllDefined(patches) && StopsAt(doc, patches, n, before, status)
    ensures ApplyPatches(doc, patches) == (status, Left(before, patches[n]))
    decreases n
  {
    hide ApplyPatch, DecodeOperation, TakesOut, TakenOut;
    if n == 0 {
      assert patches[..0] == [];
      FailingPatch(doc, patches[0]);
    } else {
      assert patches[..n][1..] == patches[1..][..n - 1] && patches[..n][0] == patches[0];
      StoppedList(ApplyPatch(doc, patches[0]).1, patches[1..], n - 1, before, status);
    }
  }

  /** Every run that fails stops at some patch, and only there. */
  lemma {:induction false} FailingList(doc: Json, patches: seq<Json>) returns (n: nat, before: Json)
    requires AllDefined(patches) && ApplyPatches(doc, patches).0 != 0
    ensures StopsAt(doc, patches, n, before, ApplyPatches(doc, patches).0)
    ensures ApplyPatches(doc, patches).1 == Left(before, patches[n])
    decreases |patches|
  {
    hide ApplyPatch, DecodeOperation, TakesOut, TakenOut, Left;
    var (s, d) := ApplyPatch(doc, patches[0]);
    if s != 0 {
      n, before := 0, doc;
      assert patches[..0] == [];
    } else {
      var m;
      m, before := FailingList(d, patches[1..]);
      n := m + 1;
      assert patches[..n][1..] == patches[1..][..m] && patches[..n][0] == patches[0];
    }
    StoppedList(doc, patches, n, before, ApplyPatches(doc, patches).0);
  }

  // ---------------------------------------------------------------- a document that is left half-way

  lemma {:induction false} FieldsRead(patch: Json)
    requires patch == Object([Member("op", String("replace")), Member("path", String("/a"))])
    ensures GetMember(patch, "op") == Some(String("replace")) && GetMember(patch, "path") == Some(String("/a"))
    ensures GetMember(patch, "value") == None
  {
    var ms := patch.members;
    assert "op" != "path" && "op" != "value" && "path" != "value" by {
      assert "op"[0] != "path"[0] && "op"[0] != "value"[0] && "path"[0] != "value"[0];
    }
    assert ms[1..] == [Member("path", String("/a"))] && ms[1..][1..] == [];
    assert IndexOf([], "value") == 0;
    assert IndexOf(ms[1..], "path") == 0 && IndexOf(ms[1..], "value") == 1;
  }

  lemma {:induction false} OperationRead(patch: Json)
    requires GetMember(patch, "op") == Some(String("replace"))
    ensures DecodeOperation(patch) == Replace
  {
    hide GetMember;
    assert "add" != "replace" && "remove" != "replace" by {
      assert "add"[0] != "replace"[0] && "remove"[2] != "replace"[2];
    }
  }

  lemma {:induction false} MemberTaken(m: Member)
    requires m.key == "a"
    ensures DetachPath(Object([m]), "/a") == Done(Object([]))
  {
    var path := "/a";
    assert path[..1] == "/" && path[1] == 'a' && path[1..] == "a" && path[..0] == "";
    assert LastSlash("/") == 0;
    assert LastSlash(path) == 0;
    PlainRecoverable("a");
    DecodesBack("a");
    hide LastSlash, DecodeInPlace, Recoverable, Encode;
    assert FoldIndex([m], "a") == 0;
    assert Without([m], 0) == [];
    assert EditHere(Object([m]), Detach("a")) == Done(Object([]));
    hide EditHere;
    assert EditAt(Object([m]), "", Detach("a")) == Done(Object([]));
  }

  /** Replacing a member and giving no value takes the member out and reports status 7. */
  lemma {:induction false} HalfReplaced()
    ensures var doc := Object([Member("a", Number(1))]);
      var patch := Object([Member("op", String("replace")), Member("path", String("/a"))]);
      && DecodeOperation(patch) == Replace && TakesOut(doc, patch)
      && ApplyPatches(doc, [patch]) == (7, Object([]))
  {
    var doc := Object([Member("a", Number(1))]);
    var patch := Object([Member("op", String("replace")), Member("path", String("/a"))]);
    FieldsRead(patch);
    OperationRead(patch);
    MemberTaken(doc.members[0]);
    hide GetMember, DetachPath, AttachPath, DecodeOperation;
    assert TakesOut(doc, patch) && ApplyPatch(doc, patch) == (7, Object([]));
    hide ApplyPatch, TakesOut;
    assert [patch][0] == patch;
  }
}
