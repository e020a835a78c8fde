/** JSON documents and the two patch formats the core emits: JSON Merge Patch
    (section 2 of RFC 7386), used to pause and unpause a machine config pool,
    and the "add" operation of JSON Patch (section 4.1 of RFC 6902), used by
    the policy defaulting webhook. */
module Json {

  import opened Base

  datatype Value =
    | Null
    | Bool(b: bool)
    | Number(n: int)
    | String(s: string)
    | Array(items: seq<Value>)
    | Object(members: map<string, Value>)

  /** The members of `v` when it is an object, and no members otherwise. */
  function MembersOf(v: Value): map<string, Value>
  {
    if v.Object? then v.members else map[]
  }

  /** The member `name` of an object, or null when it is absent. */
  function Member(m: map<string, Value>, name: string): Value
  {
    if name in m then m[name] else Null
  }

  /** MergePatch(Target, Patch) of section 2 of RFC 7386: an object patch is
      applied member by member (a null member removes the target's member, any
      other value is merged recursively into it, and a non-object target is
      first replaced by an empty object); any other patch replaces the target. */
  function MergePatch(target: Value, patch: Value): Value
    decreases patch
  {
    match patch
    case Object(pm) =>
      var tm := MembersOf(target);
      Object(map k | k in tm.Keys + pm.Keys && !(k in pm && pm[k].Null?) ::
        if k in pm then (assert pm[k] in pm.Values; MergePatch(Member(tm, k), pm[k])) else tm[k])
    case _ => patch
  }

  /** Applying the same merge patch a second time changes nothing. */
  lemma {:induction false} MergePatchIdempotent(target: Value, patch: Value)
    ensures MergePatch(MergePatch(target, patch), patch) == MergePatch(target, patch)
    decreases patch
  {
    match patch
    case Object(pm) =>
      var once := MergePatch(target, patch);
      var twice := MergePatch(once, patch);
      var tm := MembersOf(target);
      assert twice.members.Keys == once.members.Keys;
      forall k | k in once.members
        ensures twice.members[k] == once.members[k]
      {
        if k in pm {
          assert pm[k] in pm.Values;
          MergePatchIdempotent(Member(tm, k), pm[k]);
        }
      }
      assert twice.members == once.members;
    case _ =>
  }

  /** The patch `{"spec":{"paused":<paused>}}` sent to pause or unpause a
      machine config pool. */
  function PausePatch(paused: bool): Value
  {
    Object(map["spec" := Object(map["paused" := Bool(paused)])])
  }

  /** On any object document, the pause patch sets `spec.paused` and changes
      nothing else: every other member of the document and of its `spec` is
      kept, and a missing or non-object `spec` becomes `{"paused": ...}`. */
  lemma PausePatchEffect(doc: map<string, Value>, paused: bool)
    ensures MergePatch(Object(doc), PausePatch(paused))
         == Object(doc["spec" := Object(MembersOf(Member(doc, "spec"))["paused" := Bool(paused)])])
  {
    var spec := MembersOf(Member(doc, "spec"));
    var inner := Object(map["paused" := Bool(paused)]);
    var patchedSpec := MergePatch(Member(doc, "spec"), inner);
    assert patchedSpec.members.Keys == spec.Keys + {"paused"};
    assert patchedSpec.members["paused"] == MergePatch(Member(spec, "paused"), Bool(paused)) == Bool(paused);
    assert patchedSpec.members == spec["paused" := Bool(paused)];
    var r := MergePatch(Object(doc), PausePatch(paused));
    assert r.members == doc["spec" := patchedSpec];
  }

  /** The "add" operation of section 4.1 of RFC 6902, with the path given as
      its JSON Pointer reference tokens: an empty path replaces the document;
      otherwise the parent must exist and be an object, and the last token
      names the member that is added or replaced. Array targets are not
      modelled and yield no result. */
  function Add(doc: Value, path: seq<string>, value: Value): (r: Option<Value>)
    ensures path == [] ==> r == Some(value)
    ensures |path| == 1 && doc.Object? ==> r == Some(Object(doc.members[path[0] := value]))
    decreases |path|
  {
    if path == [] then Some(value)
    else if !doc.Object? then None
    else if |path| == 1 then Some(Object(doc.members[path[0] := value]))
    else if path[0] !in doc.members then None
    else
      match Add(doc.members[path[0]], path[1..], value)
      case None => None
      case Some(child) => Some(Object(doc.members[path[0] := child]))
  }

  /** Adding at `[parent, name]` below an existing object member `parent`
      sets that one member and leaves the rest of the document as it was. */
  lemma AddMember(doc: map<string, Value>, parent: string, name: string, value: Value)
    requires parent in doc && doc[parent].Object?
    ensures Add(Object(doc), [parent, name], value)
         == Some(Object(doc[parent := Object(doc[parent].members[name := value])]))
  {
    assert [parent, name][1..] == [name];
  }
}
