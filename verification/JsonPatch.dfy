/** JSON Patch (RFC 6902, section 4): applying operations, and the generator of patches. */
module JsonPatch {
  import opened CStrings
  import opened Options
  import opened Decimals
  import opened JsonTree
  import opened MemberSort
  import opened JsonCompare
  import opened JsonPointer
  import opened PatchKeys

  // ---------------------------------------------------------------- splitting a path

  /** The position of the last slash, or the length. */
  function LastSlash(p: string): (i: nat)
    ensures i <= |p|
    ensures i < |p| ==> p[i] == '/' && '/' !in p[i + 1..]
    ensures i == |p| ==> '/' !in p
  {
    if p == "" then 0
    else
      var n := |p| - 1;
      if p[n] == '/' then n
      else
        var i := LastSlash(p[..n]);
        if i == n then
          assert p == p[..n] + [p[n]];
          |p|
        else
          assert p[i + 1..] == p[..n][i + 1..] + [p[n]];
          i
  }

  // ---------------------------------------------------------------- editing one container

  /** The first member whose key is equal up to case, as cJSON_DetachItemFromObject looks it up. */
  function FoldIndex(ms: seq<Member>, k: string): (i: nat)
    ensures i <= |ms|
    ensures i < |ms| ==> Fold(ms[i].key) == Fold(k)
    ensures forall j :: 0 <= j < i ==> Fold(ms[j].key) != Fold(k)
  {
    if ms == [] then 0 else if Fold(ms[0].key) == Fold(k) then 0 else 1 + FoldIndex(ms[1..], k)
  }

  /** What is done to the container a path leads to; `child` is the unescaped last token. */
  datatype Edit = Detach(child: string) | Attach(child: string, value: Json)

  type FailureStatus = s: int | s != 0 witness 1

  /** A changed value, or the status code of the source. */
  datatype Outcome = Done(doc: Json) | Failed(status: FailureStatus)

  /** The edit at the container itself; what it removes is `TakenHere`. */
  function EditHere(j: Json, e: Edit): Outcome
  {
    match e
    case Detach(child) =>
      (match j
       case Array(items) =>
         (match DecodeIndex(child)
          case None => Failed(13)
          case Some(n) => if n < |items| then Done(Array(items[..n] + items[n + 1..])) else Failed(13))
       case Object(ms) =>
         var i := FoldIndex(ms, child);
         if i < |ms| then Done(Object(Without(ms, i))) else Failed(13)
       case _ => Failed(13))
    case Attach(child, value) =>
      match j
      case Array(items) =>
        if child == "-" then Done(Array(items + [value]))
        else
          (match DecodeIndex(child)
           case None => Failed(11)
           case Some(n) => if n <= |items| then Done(Array(items[..n] + [value] + items[n..])) else Failed(10))
      case Object(ms) =>
        var i := IndexOf(ms, child);
        Done(Object((if i < |ms| then Without(ms, i) else ms) + [Member(child, value)]))
      case _ => Failed(9)
  }

  /** The edit at the container a pointer leads to. */
  function EditAt(j: Json, p: string, e: Edit): Outcome
    decreases j
  {
    if At(p, 0) != '/' then EditHere(j, e)
    else
      match Child(j, p[1..])
      case None => Failed(if e.Detach? then 13 else 9)
      case Some(i) =>
        match EditAt(ChildAt(j, i), Skip(p[1..]), e)
        case Failed(s) => Failed(s)
        case Done(c) => Done(SetChild(j, i, c))
  }

  function SetChild(j: Json, i: nat, c: Json): Json
    requires (j.Array? && i < |j.items|) || (j.Object? && i < |j.members|)
  {
    if j.Array? then Array(j.items[i := c]) else Object(j.members[i := Member(j.members[i].key, c)])
  }

  function DetachPath(j: Json, path: string): Outcome
  {
    var i := LastSlash(path);
    if i == |path| then Failed(13) else EditAt(j, path[..i], Detach(DecodeInPlace(path[i + 1..])))
  }

  /** The item that detaching takes out, if there is one. */
  function TakenHere(parent: Json, child: string): Option<Json>
  {
    match parent
    case Array(items) =>
      (match DecodeIndex(child)
       case None => None
       case Some(n) => if n < |items| then Some(items[n]) else None)
    case Object(ms) =>
      var i := FoldIndex(ms, child);
      if i < |ms| then Some(ms[i].value) else None
    case _ => None
  }

  function TakenPath(j: Json, path: string): Option<Json>
  {
    var i := LastSlash(path);
    if i == |path| then None
    else
      match GetItem(j, path[..i]) case None => None case Some(parent) => TakenHere(parent, DecodeInPlace(path[i + 1..]))
  }

  function AttachPath(j: Json, path: string, value: Json): Outcome
  {
    var i := LastSlash(path);
    if i == |path| then Failed(9) else EditAt(j, path[..i], Attach(DecodeInPlace(path[i + 1..]), value))
  }

  // ---------------------------------------------------------------- applying

  datatype Operation = BadOperation | Add | Remove | Replace | Move | Copy | Test

  function GetMember(j: Json, k: string): Option<Json>
  {
    if j.Object? then ValueAt(j.members, k) else None
  }

  function DecodeOperation(patch: Json): Operation
  {
    match GetMember(patch, "op")
    case Some(String(s)) =>
      if s == "add" then Add
      else if s == "remove" then Remove
      else if s == "replace" then Replace
      else if s == "move" then Move
      else if s == "copy" then Copy
      else if s == "test" then Test
      else BadOperation
    case _ => BadOperation
  }

  /** The source looks into the text of a move's `from`, so that one has to be text when it is there. */
  predicate Defined(patch: Json)
  {
    DecodeOperation(patch) == Move ==>
      match GetMember(patch, "from") case Some(from) => from.String? case None => true
  }

  /** The status and the document after one patch; a failing patch may leave a changed document. */
  function ApplyPatch(doc: Json, patch: Json): (int, Json)
    requires Defined(patch)
  {
    match GetMember(patch, "path")
    case Some(String(path)) =>
      (match DecodeOperation(patch)
       case BadOperation => (3, doc)
       case Test => (if Passes(doc, path, patch) then 0 else 1, doc)
       case Remove => if path == "" then (0, Invalid) else ApplyRemoval(doc, path)
       case Add => if path == "" then ApplyRoot(doc, patch) else ApplyValue(doc, path, patch)
       case Replace => if path == "" then ApplyRoot(doc, patch) else ApplyReplacement(doc, path, patch)
       case Move => ApplyMove(doc, path, patch)
       case Copy => ApplyCopy(doc, path, patch))
    case _ => (2, doc)
  }

  /** There is a value at the path, and it is the one that the patch gives. */
  predicate Passes(doc: Json, path: string, patch: Json)
  {
    match (GetItem(doc, path), GetMember(patch, "value"))
    case (Some(found), Some(value)) => SameValue(found, value, true)
    case _ => false
  }

  function ApplyRoot(doc: Json, patch: Json): (int, Json)
  {
    match GetMember(patch, "value") case None => (7, doc) case Some(v) => (0, v)
  }

  function ApplyRemoval(doc: Json, path: string): (int, Json)
  {
    match DetachPath(doc, path) case Failed(s) => (s as int, doc) case Done(d) => (0, d)
  }

  /** A replacement takes the old value out before it looks for the new one. */
  function ApplyReplacement(doc: Json, path: string, patch: Json): (int, Json)
  {
    match DetachPath(doc, path) case Failed(s) => (s as int, doc) case Done(d) => ApplyValue(d, path, patch)
  }

  function ApplyValue(doc: Json, path: string, patch: Json): (int, Json)
  {
    match GetMember(patch, "value") case None => (7, doc) case Some(v) => Attached(doc, path, v)
  }

  /** A move takes the value out before it looks for the place to put it. */
  function ApplyMove(doc: Json, path: string, patch: Json): (int, Json)
  {
    match GetMember(patch, "from")
    case None => (4, doc)
    case Some(String(from)) =>
      (match (TakenPath(doc, from), DetachPath(doc, from))
       case (Some(v), Done(d)) => Attached(d, path, v)
       case _ => (5, doc))
    case _ => (5, doc)
  }

  function ApplyCopy(doc: Json, path: string, patch: Json): (int, Json)
  {
    match GetMember(patch, "from")
    case None => (4, doc)
    case Some(String(from)) =>
      (match GetItem(doc, from) case None => (5, doc) case Some(v) => Attached(doc, path, v))
    case _ => (5, doc)
  }

  function Attached(doc: Json, path: string, v: Json): (int, Json)
  {
    match AttachPath(doc, path, v) case Failed(s) => (s as int, doc) case Done(d) => (0, d)
  }

  ghost predicate AllDefined(patches: seq<Json>)
  {
    forall i :: 0 <= i < |patches| ==> Defined(patches[i])
  }

  /** Patches are applied in order until one fails. */
  function ApplyPatches(doc: Json, patches: seq<Json>): (int, Json)
    requires AllDefined(patches)
    decreases |patches|
  {
    if patches == [] then (0, doc)
    else
      var (s, d) := ApplyPatch(doc, patches[0]);
      if s != 0 then (s, d) else ApplyPatches(d, patches[1..])
  }

  // ---------------------------------------------------------------- generating

  /** What the generator puts into one patch. */
  datatype Patch = Patch(op: string, path: string, value: Option<Json>)
  {
    /** The patch as the JSON object that is appended to the list. */
    function ToJson(): Json
    {
      Object([Member("op", String(op)), Member("path", String(path))]
        + match value case None => [] case Some(v) => [Member("value", v)])
    }
  }

  function ToJsons(ps: seq<Patch>): (r: seq<Json>)
    ensures |r| == |ps| && forall i :: 0 <= i < |r| ==> r[i] == ps[i].ToJson()
  {
    seq(|ps|, i requires 0 <= i < |ps| => ps[i].ToJson())
  }

  /** With a suffix the path gets one more token, escaped. */
  function Suffixed(op: string, path: string, suffix: string, value: Option<Json>): Patch
  {
    Patch(op, path + ("/" + Encode(suffix)), value)
  }

  function Create(path: string, from: Json, to: Json): seq<Patch>
    decreases from, 1, 0
  {
    if !SameType(from, to) then [Patch("replace", path, Some(to))]
    else
      match from
      case Number(n) => if n != to.n then [Patch("replace", path, Some(to))] else []
      case String(s) => if s != to.s then [Patch("replace", path, Some(to))] else []
      case Array(items) => CreateItems(path, items, to.items, 0)
      case Object(ms) =>
        assert forall m :: m in SortList(ms, true) ==> m in ms by { SameElements(SortList(ms, true), ms); }
        CreateMembers(path, ms, SortList(ms, true), SortList(to.members, true))
      case _ => []
  }

  /** Element by element from `i` on, then the leftovers of one side. */
  function CreateItems(path: string, from: seq<Json>, to: seq<Json>, i: nat): seq<Patch>
    requires i <= |from| && i <= |to|
    decreases from, 0, |from| - i
  {
    if i < |from| && i < |to| then
      Create(path + ("/" + Decimal(i)), from[i], to[i]) + CreateItems(path, from, to, i + 1)
    else if i < |from| then Removals(path, i, |from| - i)
    else Additions(path, to[i..])
  }

  /** Every leftover element is removed at the same index. */
  function Removals(path: string, i: nat, count: nat): seq<Patch>
  {
    if count == 0 then [] else [Suffixed("remove", path, Decimal(i), None)] + Removals(path, i, count - 1)
  }

  function Additions(path: string, to: seq<Json>): seq<Patch>
  {
    if to == [] then [] else [Suffixed("add", path, "-", Some(to[0]))] + Additions(path, to[1..])
  }

  /** Walks two sorted member lists side by side; `all` holds the members of `fs`. */
  function CreateMembers(path: string, all: seq<Member>, fs: seq<Member>, ts: seq<Member>): seq<Patch>
    requires forall m :: m in fs ==> m in all
    decreases all, 0, |fs| + |ts|
  {
    if fs == [] && ts == [] then []
    else if fs != [] && ts != [] && fs[0].key == ts[0].key then
      assert fs[0] in all;
      Create(path + ("/" + Encode(fs[0].key)), fs[0].value, ts[0].value) + CreateMembers(path, all, fs[1..], ts[1..])
    else if ts == [] || (fs != [] && Less(fs[0].key, ts[0].key)) then
      [Suffixed("remove", path, fs[0].key, None)] + CreateMembers(path, all, fs[1..], ts)
    else
      [Suffixed("add", path, ts[0].key, Some(ts[0].value))] + CreateMembers(path, all, fs, ts[1..])
  }

  // ---------------------------------------------------------------- applying generated patches

  predicate Generated(p: Patch)
  {
    (p.op == "add" || p.op == "remove" || p.op == "replace") && (p.op != "remove" ==> p.value.Some?)
  }

  /** ApplyPatch on a generated patch. */
  function Apply(doc: Json, p: Patch): (int, Json)
    requires Generated(p)
  {
    if p.path == "" then (if p.op == "remove" then (0, Invalid) else (0, p.value.value))
    else if p.op == "add" then Attached(doc, p.path, p.value.value)
    else
      match DetachPath(doc, p.path)
      case Failed(s) => (s as int, doc)
      case Done(d) => if p.op == "remove" then (0, d) else Attached(d, p.path, p.value.value)
  }

  /** Reading a generated patch back finds what was put in. */
  lemma {:induction false} PatchReads(p: Patch)
    requires Generated(p)
    ensures GetMember(p.ToJson(), "op") == Some(String(p.op))
    ensures GetMember(p.ToJson(), "path") == Some(String(p.path))
    ensures GetMember(p.ToJson(), "value") == p.value
  {
    var ms := p.ToJson().members;
    var last := match p.value case None => [] case Some(v) => [Member("value", v)];
    assert ms[1..] == [Member("path", String(p.path))] + last;
    assert ms[1..][1..] == last;
    assert IndexOf(ms, "op") == 0;
    assert "op" != "path" && "op" != "value" && "path" != "value" by {
      assert "op"[0] != "path"[0] && "op"[0] != "value"[0] && "path"[0] != "value"[0];
    }
    assert IndexOf(ms[1..], "path") == 0;
    if last != [] {
      assert IndexOf(last, "value") == 0;
      assert IndexOf(ms[1..], "value") == 1;
    } else {
      assert IndexOf(last, "value") == 0;
      assert IndexOf(ms[1..], "value") == 1;
    }
  }

  lemma {:induction false} ApplyGenerated(doc: Json, p: Patch)
    requires Generated(p)
    ensures Defined(p.ToJson())
    ensures ApplyPatch(doc, p.ToJson()) == Apply(doc, p)
  {
    PatchReads(p);
    assert "add" != "remove" && "add" != "replace" && "remove" != "replace" by {
      assert "add"[0] != "remove"[0] && "add"[0] != "replace"[0] && "remove"[2] != "replace"[2];
    }
    hide DetachPath, AttachPath, GetMember;
  }

  predicate AllGenerated(ps: seq<Patch>)
  {
    forall i :: 0 <= i < |ps| ==> Generated(ps[i])
  }

  function ApplyAll(doc: Json, ps: seq<Patch>): (int, Json)
    requires AllGenerated(ps)
    decreases |ps|
  {
    if ps == [] then (0, doc)
    else
      var (s, d) := Apply(doc, ps[0]);
      if s != 0 then (s, d) else ApplyAll(d, ps[1..])
  }

  lemma {:induction false} ApplyAllGenerated(doc: Json, ps: seq<Patch>)
    requires AllGenerated(ps)
    ensures AllDefined(ToJsons(ps)) && ApplyPatches(doc, ToJsons(ps)) == ApplyAll(doc, ps)
    decreases |ps|
  {
    hide ApplyPatch, Apply, DecodeOperation;
    forall i | 0 <= i < |ps|
      ensures Defined(ToJsons(ps)[i])
    {
      ApplyGenerated(doc, ps[i]);
    }
    if ps != [] {
      ApplyGenerated(doc, ps[0]);
      assert ToJsons(ps)[1..] == ToJsons(ps[1..]);
      ApplyAllGenerated(Apply(doc, ps[0]).1, ps[1..]);
    }
  }
}
