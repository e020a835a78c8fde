/** The defaulting webhook of pkg/webhook/mutate.go: an SR-IOV network
    node policy, as the JSON document the API server sends, is admitted
    with a JSON Patch (RFC 6902) of "add" operations that fill in the
    default `spec.priority` and `spec.isRdma`, and force `spec.isRdma` on
    for an InfiniBand link type. */
module Mutate {

  import opened Base
  import Json
  import Validate

  /** The link type of InfiniBand ports, compared case-insensitively. */
  const LinkTypeIB := "ib"

  /** One "add" operation of a JSON Patch: its path, as the reference
      tokens of a JSON Pointer (`/spec/priority` is `["spec", "priority"]`),
      and its value. */
  datatype PatchOp = AddOp(path: seq<string>, value: Json.Value)

  datatype PatchType = JSONPatch

  /** The admission response: always a verdict, and a JSON Patch with its
      patch type unless the request is answered without one. */
  datatype AdmissionResponse = AdmissionResponse(allowed: bool, patch: Option<seq<PatchOp>>, patchType: Option<PatchType>)

  const DefaultPriorityPatch := AddOp(["spec", "priority"], Json.Number(99))
  const DefaultIsRdmaPatch := AddOp(["spec", "isRdma"], Json.Bool(false))
  const InfiniBandIsRdmaPatch := AddOp(["spec", "isRdma"], Json.Bool(true))

  /** The policy's `metadata.name` is the string `default`. */
  predicate IsDefaultPolicy(cr: map<string, Json.Value>)
  {
    "metadata" in cr && Json.Member(Json.MembersOf(cr["metadata"]), "name") == Json.String(Validate.DefaultPolicyName)
  }

  /** What the webhook needs of the document to answer at all: `metadata`
      is an object and, unless the policy is the default one, so is `spec`
      (any other shape makes its type assertions panic). */
  predicate Mutatable(cr: map<string, Json.Value>)
  {
    && "metadata" in cr && cr["metadata"].Object?
    && (IsDefaultPolicy(cr) || ("spec" in cr && cr["spec"].Object?))
  }

  /** `spec.linkType` is a string equal to `ib` up to ASCII case. */
  predicate IsInfiniBand(spec: map<string, Json.Value>)
  {
    "linkType" in spec && spec["linkType"].String? && EqualFold(spec["linkType"].s, LinkTypeIB)
  }

  /** The place of an operation in the patch: the priority default, then
      the isRdma default, then the InfiniBand override. */
  function Rank(op: PatchOp): nat
  {
    if op == DefaultPriorityPatch then 0 else if op == DefaultIsRdmaPatch then 1 else 2
  }

  /** The operations for a policy spec, by which keys are present. */
  function PatchFor(spec: map<string, Json.Value>): (ops: seq<PatchOp>)
    ensures |ops| <= 3
    ensures forall i :: 0 <= i < |ops| ==>
              ops[i] == DefaultPriorityPatch || ops[i] == DefaultIsRdmaPatch || ops[i] == InfiniBandIsRdmaPatch
    ensures DefaultPriorityPatch in ops <==> "priority" !in spec
    ensures DefaultIsRdmaPatch in ops <==> "isRdma" !in spec
    ensures InfiniBandIsRdmaPatch in ops <==> IsInfiniBand(spec)
    ensures forall i, j :: 0 <= i < j < |ops| ==> Rank(ops[i]) < Rank(ops[j])
  {
    (if "priority" !in spec then [DefaultPriorityPatch] else [])
    + (if "isRdma" !in spec then [DefaultIsRdmaPatch] else [])
    + (if IsInfiniBand(spec) then [InfiniBandIsRdmaPatch] else [])
  }

  /** `mutateSriovNetworkNodePolicy`: every policy is allowed; the default
      policy gets no patch, any other the operations of `PatchFor`. */
  function MutateSriovNetworkNodePolicy(cr: map<string, Json.Value>): (r: AdmissionResponse)
    requires Mutatable(cr)
    ensures r.allowed
    ensures r.patch.None? <==> IsDefaultPolicy(cr)
    ensures r.patch.Some? ==> r.patch.value == PatchFor(cr["spec"].members)
    ensures r.patchType.Some? <==> r.patch.Some?
  {
    if IsDefaultPolicy(cr) then AdmissionResponse(true, None, None)
    else AdmissionResponse(true, Some(PatchFor(cr["spec"].members)), Some(JSONPatch))
  }

  /** Section 5 of RFC 6902: the operations applied in order, the patch
      failing as a whole when one of them fails. */
  function ApplyPatch(doc: Json.Value, ops: seq<PatchOp>): Option<Json.Value>
    decreases |ops|
  {
    if ops == [] then Some(doc)
    else
      match Json.Add(doc, ops[0].path, ops[0].value)
      case None => None
      case Some(next) => ApplyPatch(next, ops[1..])
  }

  /** The spec the webhook means the policy to end with: `priority` 99
      and `isRdma` false when absent, and `isRdma` true for an InfiniBand
      link type; every other member as it was. */
  function DefaultedSpec(spec: map<string, Json.Value>): map<string, Json.Value>
  {
    var withPriority := if "priority" in spec then spec else spec["priority" := Json.Number(99)];
    if IsInfiniBand(spec) then withPriority["isRdma" := Json.Bool(true)]
    else if "isRdma" in spec then withPriority
    else withPriority["isRdma" := Json.Bool(false)]
  }

  /** A spec after a run of adds to its members. */
  function SpecAfter(spec: map<string, Json.Value>, ops: seq<PatchOp>): map<string, Json.Value>
    requires forall i :: 0 <= i < |ops| ==> |ops[i].path| == 2
    decreases |ops|
  {
    if ops == [] then spec else SpecAfter(spec[ops[0].path[1] := ops[0].value], ops[1..])
  }

  /** Adds below `spec` change only `spec`, member by member. */
  lemma {:induction false} ApplyToSpec(cr: map<string, Json.Value>, ops: seq<PatchOp>)
    requires "spec" in cr && cr["spec"].Object?
    requires forall i :: 0 <= i < |ops| ==> |ops[i].path| == 2 && ops[i].path[0] == "spec"
    ensures ApplyPatch(Json.Object(cr), ops)
         == Some(Json.Object(cr["spec" := Json.Object(SpecAfter(cr["spec"].members, ops))]))
    decreases |ops|
  {
    if ops != [] {
      var op := ops[0];
      assert op.path == ["spec", op.path[1]];
      Json.AddMember(cr, "spec", op.path[1], op.value);
      var spec' := cr["spec"].members[op.path[1] := op.value];
      var cr' := cr["spec" := Json.Object(spec')];
      assert Json.Add(Json.Object(cr), op.path, op.value) == Some(Json.Object(cr'));
      assert forall i :: 0 <= i < |ops[1..]| ==> ops[1..][i] == ops[i + 1];
      ApplyToSpec(cr', ops[1..]);
      assert cr'["spec"].members == spec';
      assert ApplyPatch(Json.Object(cr), ops) == ApplyPatch(Json.Object(cr'), ops[1..]);
      assert SpecAfter(cr["spec"].members, ops) == SpecAfter(spec', ops[1..]);
      assert cr'["spec" := Json.Object(SpecAfter(spec', ops[1..]))]
          == cr["spec" := Json.Object(SpecAfter(spec', ops[1..]))];
    } else {
      assert cr["spec" := Json.Object(cr["spec"].members)] == cr;
    }
  }

  /** Adds in two runs: the first run, then the second. */
  lemma {:induction false} SpecAfterSplit(spec: map<string, Json.Value>, first: seq<PatchOp>, second: seq<PatchOp>)
    requires forall i :: 0 <= i < |first| ==> |first[i].path| == 2
    requires forall i :: 0 <= i < |second| ==> |second[i].path| == 2
    ensures SpecAfter(spec, first + second) == SpecAfter(SpecAfter(spec, first), second)
    decreases |first|
  {
    if first == [] {
      assert first + second == second;
    } else {
      assert (first + second)[1..] == first[1..] + second;
      assert forall i :: 0 <= i < |first[1..]| ==> first[1..][i] == first[i + 1];
      SpecAfterSplit(spec[first[0].path[1] := first[0].value], first[1..], second);
    }
  }

  /** The webhook's operations turn a spec into the defaulted spec. */
  lemma SpecAfterPatch(spec: map<string, Json.Value>)
    ensures SpecAfter(spec, PatchFor(spec)) == DefaultedSpec(spec)
  {
    var p := if "priority" !in spec then [DefaultPriorityPatch] else [];
    var d := if "isRdma" !in spec then [DefaultIsRdmaPatch] else [];
    var b := if IsInfiniBand(spec) then [InfiniBandIsRdmaPatch] else [];
    SpecAfterSplit(spec, p + d, b);
    SpecAfterSplit(spec, p, d);
    var s1 := SpecAfter(spec, p);
    var s2 := SpecAfter(s1, d);
    assert p != [] ==> p[1..] == [];
    assert d != [] ==> d[1..] == [];
    assert b != [] ==> b[1..] == [];
    assert s1 == if "priority" in spec then spec else spec["priority" := Json.Number(99)];
    assert s2 == if "isRdma" in spec then s1 else s1["isRdma" := Json.Bool(false)];
    assert SpecAfter(s2, b) == if IsInfiniBand(spec) then s2["isRdma" := Json.Bool(true)] else s2;
  }

  /** Applying the webhook's patch to the policy gives the defaulted spec
      and changes nothing outside `spec`. */
  lemma PatchGivesDefaultedSpec(cr: map<string, Json.Value>)
    requires "spec" in cr && cr["spec"].Object?
    ensures ApplyPatch(Json.Object(cr), PatchFor(cr["spec"].members))
         == Some(Json.Object(cr["spec" := Json.Object(DefaultedSpec(cr["spec"].members))]))
  {
    ApplyToSpec(cr, PatchFor(cr["spec"].members));
    SpecAfterPatch(cr["spec"].members);
  }

  /** The defaulted spec has both defaults filled in, keeps a priority
      and an isRdma that were set (unless InfiniBand forces isRdma on) and
      every other member. */
  lemma DefaultedSpecHolds(spec: map<string, Json.Value>)
    ensures var r := DefaultedSpec(spec);
            && r.Keys == spec.Keys + {"priority", "isRdma"}
            && r["priority"] == (if "priority" in spec then spec["priority"] else Json.Number(99))
            && r["isRdma"] == (if IsInfiniBand(spec) then Json.Bool(true)
                               else if "isRdma" in spec then spec["isRdma"] else Json.Bool(false))
            && forall k :: k in spec && k != "priority" && k != "isRdma" ==> r[k] == spec[k]
  {
  }

  /** Mutation settles: once its patch is applied, the webhook asks for
      nothing more than the InfiniBand override again, and that changes
      nothing. */
  lemma MutationSettles(cr: map<string, Json.Value>)
    requires Mutatable(cr) && !IsDefaultPolicy(cr)
    ensures var patched := cr["spec" := Json.Object(DefaultedSpec(cr["spec"].members))];
            && Mutatable(patched)
            && !IsDefaultPolicy(patched)
            && MutateSriovNetworkNodePolicy(patched).patch
               == Some(if IsInfiniBand(cr["spec"].members) then [InfiniBandIsRdmaPatch] else [])
            && ApplyPatch(Json.Object(patched), MutateSriovNetworkNodePolicy(patched).patch.value)
               == Some(Json.Object(patched))
  {
    var spec := cr["spec"].members;
    var patched := cr["spec" := Json.Object(DefaultedSpec(spec))];
    assert patched["metadata"] == cr["metadata"];
    var spec' := DefaultedSpec(spec);
    assert "linkType" != "priority" && "linkType" != "isRdma";
    assert IsInfiniBand(spec') == IsInfiniBand(spec);
    assert PatchFor(spec') == if IsInfiniBand(spec) then [InfiniBandIsRdmaPatch] else [];
    PatchGivesDefaultedSpec(patched);
    assert DefaultedSpec(spec') == spec';
    assert patched["spec" := Json.Object(spec')] == patched;
  }
}
