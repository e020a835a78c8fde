/** The merge engine of pkg/apply/merge.go: before an object is re-applied,
    the fields the cluster owns are carried over from the `current` object
    (as stored) into the `updated` one (as the operator computed it).

    An unstructured object is modelled by the fields the merge reads or
    writes. A nested field is seen the way the `unstructured` accessors see
    it: absent, present with a value, present with a value of the wrong
    type, or unreachable because a parent on its path is not an object. */
module Merge {

  import opened Base
  import Json

  /** A nested field as `NestedString` / `NestedSlice` see it. Reading a
      `Mistyped` or `Unreachable` field is an error; `SetNestedField`
      fails only on an `Unreachable` one. */
  datatype Field<T> = Absent | Present(value: T) | Mistyped | Unreachable

  predicate Unreadable<T>(f: Field<T>)
  {
    f.Mistyped? || f.Unreachable?
  }

  /** One entry of a webhook configuration's `webhooks` list: its `name`
      and its `clientConfig.caBundle`. */
  datatype Webhook = Webhook(name: Field<string>, caBundle: Field<string>)

  /** The fields of an object the merge reads or writes. Annotations and
      labels are what `GetAnnotations` / `GetLabels` return, with an absent
      map read as empty; `resourceVersion` is empty when absent. */
  datatype Obj = Obj(
    apiVersion: string,
    kind: string,
    resourceVersion: string,
    annotations: map<string, string>,
    labels: map<string, string>,
    clusterIP: Field<string>,
    secrets: Field<seq<Json.Value>>,
    imagePullSecrets: Field<seq<Json.Value>>,
    webhooks: Field<seq<Webhook>>)

  datatype MergeError =
    | FieldUnreadable(path: string)
    | FieldNotSettable(path: string)
    | WebhookNameMissing
    | ServiceAccountWithSecrets

  /** The object a merge step leaves behind, and the error it returns. */
  datatype Outcome = Outcome(obj: Obj, err: Option<MergeError>)

  const DeploymentRevisionAnnotation := "deployment.kubernetes.io/revision"
  const WebhookGroup := "admissionregistration.k8s.io"

  datatype Gvk = Gvk(group: string, kind: string)

  /** `GroupVersionKind()`: the group is the part of `apiVersion` before its
      one `/`, or empty without one; an `apiVersion` with two or more `/`
      does not parse and yields an empty group and kind. */
  function GroupVersionKind(o: Obj): Gvk
  {
    var parts := Split(o.apiVersion, '/');
    if |parts| == 1 then Gvk("", o.kind)
    else if |parts| == 2 then Gvk(parts[0], o.kind)
    else Gvk("", "")
  }

  predicate IsDeployment(o: Obj)
  {
    GroupVersionKind(o) == Gvk("apps", "Deployment")
  }

  predicate IsService(o: Obj)
  {
    GroupVersionKind(o) == Gvk("", "Service")
  }

  predicate IsServiceAccount(o: Obj)
  {
    GroupVersionKind(o) == Gvk("", "ServiceAccount")
  }

  predicate IsWebhookConfiguration(o: Obj)
  {
    GroupVersionKind(o) == Gvk(WebhookGroup, "ValidatingWebhookConfiguration")
    || GroupVersionKind(o) == Gvk(WebhookGroup, "MutatingWebhookConfiguration")
  }

  /** A bare version such as `v1` names the core group; `group/version`
      names `group`. */
  lemma GroupOfApiVersion(o: Obj, group: string, version: string)
    requires '/' !in group && '/' !in version
    ensures o.apiVersion == version ==> GroupVersionKind(o) == Gvk("", o.kind)
    ensures o.apiVersion == group + "/" + version ==> GroupVersionKind(o) == Gvk(group, o.kind)
  {
    if o.apiVersion == group + "/" + version {
      SplitAfterPrefix(group, '/', version);
      assert group + "/" + version == group + ['/'] + version;
    }
  }

  /** `MergeDeploymentForUpdate`: on an apps/Deployment, the revision
      annotation of `current`, when it has one, overrides `updated`'s. */
  function DeploymentMerged(current: Obj, updated: Obj): (r: Obj)
    ensures !IsDeployment(updated) ==> r == updated
    ensures r == updated.(annotations := r.annotations)
    ensures IsDeployment(updated) && DeploymentRevisionAnnotation in current.annotations ==>
              DeploymentRevisionAnnotation in r.annotations
              && r.annotations[DeploymentRevisionAnnotation] == current.annotations[DeploymentRevisionAnnotation]
    ensures forall k :: k != DeploymentRevisionAnnotation ==>
              (k in r.annotations <==> k in updated.annotations)
              && (k in r.annotations ==> r.annotations[k] == updated.annotations[k])
  {
    var rev := DeploymentRevisionAnnotation;
    if IsDeployment(updated) && rev in current.annotations then
      updated.(annotations := updated.annotations[rev := current.annotations[rev]])
    else updated
  }

  /** `MergeServiceForUpdate`: on a core-group Service, `current`'s
      `spec.clusterIP`, when it has one, overrides `updated`'s. */
  function ServiceMerged(current: Obj, updated: Obj): (r: Outcome)
    ensures r.obj == updated.(clusterIP := r.obj.clusterIP)
    ensures r.err.Some? <==>
              IsService(updated)
              && (Unreadable(current.clusterIP) || (current.clusterIP.Present? && updated.clusterIP.Unreachable?))
    ensures r.err.None? && IsService(updated) && current.clusterIP.Present? ==> r.obj.clusterIP == current.clusterIP
    ensures r.err.Some? || !IsService(updated) || !current.clusterIP.Present? ==> r.obj == updated
  {
    if !IsService(updated) then Outcome(updated, None)
    else
      match current.clusterIP
      case Mistyped => Outcome(updated, Some(FieldUnreadable("spec.clusterIP")))
      case Unreachable => Outcome(updated, Some(FieldUnreadable("spec.clusterIP")))
      case Absent => Outcome(updated, None)
      case Present(ip) =>
        if updated.clusterIP.Unreachable? then Outcome(updated, Some(FieldNotSettable("spec.clusterIP")))
        else Outcome(updated.(clusterIP := Present(ip)), None)
  }

  /** `MergeServiceAccountForUpdate`: on a core-group ServiceAccount,
      `secrets` and then `imagePullSecrets` are each replaced by
      `current`'s list when it has one. An unreadable `imagePullSecrets`
      is reported after `secrets` has already been copied. */
  function ServiceAccountMerged(current: Obj, updated: Obj): (r: Outcome)
    ensures r.obj == updated.(secrets := r.obj.secrets, imagePullSecrets := r.obj.imagePullSecrets)
    ensures r.err.Some? <==>
              IsServiceAccount(updated) && (Unreadable(current.secrets) || Unreadable(current.imagePullSecrets))
    ensures IsServiceAccount(updated) && current.secrets.Present? ==> r.obj.secrets == current.secrets
    ensures r.err.None? && IsServiceAccount(updated) && current.imagePullSecrets.Present? ==>
              r.obj.imagePullSecrets == current.imagePullSecrets
    ensures !IsServiceAccount(updated) ==> r.obj == updated
  {
    if !IsServiceAccount(updated) then Outcome(updated, None)
    else if Unreadable(current.secrets) then Outcome(updated, Some(FieldUnreadable("secrets")))
    else
      var withSecrets := if current.secrets.Present? then updated.(secrets := current.secrets) else updated;
      if Unreadable(current.imagePullSecrets) then Outcome(withSecrets, Some(FieldUnreadable("imagePullSecrets")))
      else if current.imagePullSecrets.Present? then
        Outcome(withSecrets.(imagePullSecrets := current.imagePullSecrets), None)
      else Outcome(withSecrets, None)
  }

  /** `findByName`: the index of the first entry whose name is the string
      `name`. */
  function FirstNamed(list: seq<Webhook>, name: string): (r: Option<nat>)
    ensures r.Some? ==> r.value < |list| && list[r.value].name == Present(name)
                        && forall j :: 0 <= j < r.value ==> list[j].name != Present(name)
    ensures r.None? ==> forall j :: 0 <= j < |list| ==> list[j].name != Present(name)
  {
    if list == [] then None
    else if list[0].name == Present(name) then Some(0)
    else
      match FirstNamed(list[1..], name)
      case None => None
      case Some(i) => Some(i + 1)
  }

  /** What happens to one entry of `updated`'s list. */
  datatype EntryOutcome =
    | Keep(entry: Webhook)       // the entry, possibly with a new caBundle
    | Abandon                    // the whole merge stops without an error
    | EntryFailed(err: MergeError)

  /** The loop body of `MergeWebhookForUpdate` on one entry of `updated`:
      a non-empty caBundle is kept; otherwise the entry takes the caBundle
      of the first same-named entry of `current`, whenever that entry has
      the key, even with an empty value. An entry whose caBundle cannot be
      read stops the whole merge without an error. */
  function MergeEntry(w: Webhook, current: seq<Webhook>): (r: EntryOutcome)
    ensures r.Keep? ==> r.entry.name == w.name
    ensures r.Keep? && w.caBundle.Present? && w.caBundle.value != "" ==> r.entry == w
    ensures r.Abandon? <==> Unreadable(w.caBundle)
    ensures r == EntryFailed(WebhookNameMissing) <==>
              !Unreadable(w.caBundle) && !(w.caBundle.Present? && w.caBundle.value != "") && w.name.Absent?
    ensures r.Keep? && !(w.caBundle.Present? && w.caBundle.value != "")
            && w.name.Present? && FirstNamed(current, w.name.value).Some?
              && current[FirstNamed(current, w.name.value).value].caBundle.Present? ==>
              r.entry.caBundle == current[FirstNamed(current, w.name.value).value].caBundle
  {
    if Unreadable(w.caBundle) then Abandon
    else if w.caBundle.Present? && w.caBundle.value != "" then Keep(w)
    else
      match w.name
      case Absent => EntryFailed(WebhookNameMissing)
      case Mistyped => EntryFailed(FieldUnreadable("name"))
      case Unreachable => EntryFailed(FieldUnreadable("name"))
      case Present(name) =>
        match FirstNamed(current, name)
        case None => Keep(w)
        case Some(i) =>
          match current[i].caBundle
          case Absent => Keep(w)
          case Present(b) => Keep(w.(caBundle := Present(b)))
          case Mistyped => EntryFailed(FieldUnreadable("clientConfig.caBundle"))
          case Unreachable => EntryFailed(FieldUnreadable("clientConfig.caBundle"))
  }

  datatype ListOutcome = Merged(entries: seq<Webhook>) | Abandoned | ListFailed(err: MergeError)

  /** The loop of `MergeWebhookForUpdate`: the entries one by one, the
      first that is not kept deciding the outcome. */
  function MergeEntries(updated: seq<Webhook>, current: seq<Webhook>): (r: ListOutcome)
    ensures r.Merged? <==> forall i :: 0 <= i < |updated| ==> MergeEntry(updated[i], current).Keep?
    ensures r.Merged? ==> |r.entries| == |updated|
                          && forall i :: 0 <= i < |updated| ==> r.entries[i] == MergeEntry(updated[i], current).entry
  {
    if updated == [] then Merged([])
    else
      var n := |updated| - 1;
      match MergeEntries(updated[..n], current)
      case Merged(ws) =>
        (match MergeEntry(updated[n], current)
         case Keep(w) => Merged(ws + [w])
         case Abandon => Abandoned
         case EntryFailed(e) => ListFailed(e))
      case other => other
  }

  /** The first entry that is not kept decides: an unreadable caBundle
      abandons the merge, a failure is returned. */
  lemma {:induction false} MergeEntriesFirstStop(updated: seq<Webhook>, current: seq<Webhook>, i: nat)
    requires i < |updated| && !MergeEntry(updated[i], current).Keep?
    requires forall j :: 0 <= j < i ==> MergeEntry(updated[j], current).Keep?
    ensures MergeEntries(updated, current)
         == if MergeEntry(updated[i], current).Abandon? then Abandoned
            else ListFailed(MergeEntry(updated[i], current).err)
    decreases |updated|
  {
    var n := |updated| - 1;
    var front := updated[..n];
    if i < n {
      assert forall j :: 0 <= j <= i ==> front[j] == updated[j];
      MergeEntriesFirstStop(front, current, i);
    } else {
      assert forall j :: 0 <= j < |front| ==> front[j] == updated[j];
    }
  }

  /** `MergeWebhookForUpdate`: on a Validating or Mutating webhook
      configuration whose `webhooks` list is present in both objects, the
      merged entries replace `updated`'s list; nothing changes when either
      list is absent or the merge is abandoned. */
  function WebhookMerged(current: Obj, updated: Obj): (r: Outcome)
    ensures r.obj == updated.(webhooks := r.obj.webhooks)
    ensures r.err.Some? ==> r.obj == updated
    ensures (!IsWebhookConfiguration(updated) || updated.webhooks.Absent?
             || (updated.webhooks.Present? && current.webhooks.Absent?)) ==> r == Outcome(updated, None)
  {
    if !IsWebhookConfiguration(updated) then Outcome(updated, None)
    else
      match updated.webhooks
      case Absent => Outcome(updated, None)
      case Present(uw) =>
        (match current.webhooks
         case Absent => Outcome(updated, None)
         case Present(cw) =>
           (match MergeEntries(uw, cw)
            case Merged(ws) => Outcome(updated.(webhooks := Present(ws)), None)
            case Abandoned => Outcome(updated, None)
            case ListFailed(e) => Outcome(updated, Some(e)))
         case _ => Outcome(updated, Some(FieldUnreadable("webhooks"))))
      case _ => Outcome(updated, Some(FieldUnreadable("webhooks")))
  }

  /** Webhook merge keeps the list's length, order and names; never changes
      a non-empty caBundle; and gives an empty or absent one the caBundle of
      the first same-named entry of `current` when that entry has one. */
  lemma WebhookMergePreserves(current: Obj, updated: Obj, i: nat)
    requires IsWebhookConfiguration(updated) && updated.webhooks.Present? && current.webhooks.Present?
    requires i < |updated.webhooks.value|
    ensures var r := WebhookMerged(current, updated);
            var w := updated.webhooks.value[i];
            r.err.None? && r.obj.webhooks != updated.webhooks ==>
              && |r.obj.webhooks.value| == |updated.webhooks.value|
              && r.obj.webhooks.value[i].name == w.name
              && (w.caBundle.Present? && w.caBundle.value != "" ==> r.obj.webhooks.value[i] == w)
              && (!(w.caBundle.Present? && w.caBundle.value != "") && w.name.Present? && FirstNamed(current.webhooks.value, w.name.value).Some?
                  && current.webhooks.value[FirstNamed(current.webhooks.value, w.name.value).value].caBundle.Present? ==>
                    r.obj.webhooks.value[i].caBundle
                    == current.webhooks.value[FirstNamed(current.webhooks.value, w.name.value).value].caBundle)
  {
    var m := MergeEntries(updated.webhooks.value, current.webhooks.value);
    if m.Merged? {
      assert MergeEntry(updated.webhooks.value[i], current.webhooks.value).Keep?;
    }
  }

  /** `MergeMetadataForUpdate`: annotations and labels become the union of
      both objects' maps with `updated` winning on a shared key, and the
      resource version becomes `current`'s. */
  function MetadataMerged(current: Obj, updated: Obj): (r: Obj)
    ensures r == updated.(annotations := r.annotations, labels := r.labels, resourceVersion := r.resourceVersion)
    ensures r.resourceVersion == current.resourceVersion
    ensures r.annotations.Keys == current.annotations.Keys + updated.annotations.Keys
    ensures forall k :: k in updated.annotations ==> r.annotations[k] == updated.annotations[k]
    ensures forall k :: k in current.annotations && k !in updated.annotations ==> r.annotations[k] == current.annotations[k]
    ensures r.labels.Keys == current.labels.Keys + updated.labels.Keys
    ensures forall k :: k in updated.labels ==> r.labels[k] == updated.labels[k]
    ensures forall k :: k in current.labels && k !in updated.labels ==> r.labels[k] == current.labels[k]
  {
    updated.(annotations := current.annotations + updated.annotations,
             labels := current.labels + updated.labels,
             resourceVersion := current.resourceVersion)
  }

  /** `MergeObjectForUpdate`: the Deployment, Service, ServiceAccount and
      webhook rules in that order, the first error stopping the merge, and
      the metadata merge last. */
  function ObjectMerged(current: Obj, updated: Obj): Outcome
  {
    var d := DeploymentMerged(current, updated);
    var s := ServiceMerged(current, d);
    if s.err.Some? then s
    else
      var a := ServiceAccountMerged(current, s.obj);
      if a.err.Some? then a
      else
        var w := WebhookMerged(current, a.obj);
        if w.err.Some? then w
        else Outcome(MetadataMerged(current, w.obj), None)
  }

  /** No rule changes an object's kind, so every step sees the same one. */
  lemma KindKept(current: Obj, updated: Obj)
    ensures var d := DeploymentMerged(current, updated);
            var s := ServiceMerged(current, d).obj;
            var a := ServiceAccountMerged(current, s).obj;
            var w := WebhookMerged(current, a).obj;
            && GroupVersionKind(d) == GroupVersionKind(updated)
            && GroupVersionKind(s) == GroupVersionKind(updated)
            && GroupVersionKind(a) == GroupVersionKind(updated)
            && GroupVersionKind(w) == GroupVersionKind(updated)
            && GroupVersionKind(MetadataMerged(current, w)) == GroupVersionKind(updated)
  {
  }

  /** A merge without error keeps what the cluster owns: `current`'s
      resource version, every annotation and label key of `current`, the
      Deployment revision, the Service cluster IP and the ServiceAccount
      secret lists, while the kind and `updated`'s own annotations other
      than the revision stay as they were. */
  lemma ObjectMergedKeeps(current: Obj, updated: Obj)
    requires ObjectMerged(current, updated).err.None?
    ensures var r := ObjectMerged(current, updated).obj;
            && r.apiVersion == updated.apiVersion && r.kind == updated.kind
            && r.resourceVersion == current.resourceVersion
            && current.annotations.Keys + updated.annotations.Keys == r.annotations.Keys
            && current.labels.Keys + updated.labels.Keys == r.labels.Keys
            && (forall k :: k in updated.annotations && k != DeploymentRevisionAnnotation ==>
                  r.annotations[k] == updated.annotations[k])
            && (IsDeployment(updated) && DeploymentRevisionAnnotation in current.annotations ==>
                  r.annotations[DeploymentRevisionAnnotation] == current.annotations[DeploymentRevisionAnnotation])
            && (IsService(updated) && current.clusterIP.Present? ==> r.clusterIP == current.clusterIP)
            && (IsServiceAccount(updated) && current.secrets.Present? ==> r.secrets == current.secrets)
            && (IsServiceAccount(updated) && current.imagePullSecrets.Present? ==>
                  r.imagePullSecrets == current.imagePullSecrets)
  {
    KindKept(current, updated);
  }

  /** Merging an entry list a second time against the same `current`
      changes nothing. */
  lemma {:induction false} MergeEntriesIdempotent(updated: seq<Webhook>, current: seq<Webhook>)
    requires MergeEntries(updated, current).Merged?
    ensures MergeEntries(MergeEntries(updated, current).entries, current) == MergeEntries(updated, current)
  {
    var ws := MergeEntries(updated, current).entries;
    forall i | 0 <= i < |ws|
      ensures MergeEntry(ws[i], current) == Keep(ws[i])
    {
      assert MergeEntry(updated[i], current).Keep?;
    }
    var again := MergeEntries(ws, current);
    assert again.Merged?;
    assert again.entries == ws;
  }

  /** An object whose kind and webhook list are those a webhook merge
      produced is left alone by a second webhook merge. */
  lemma WebhookMergedSettled(current: Obj, o: Obj, later: Obj)
    requires WebhookMerged(current, o).err.None?
    requires later.apiVersion == o.apiVersion && later.kind == o.kind
    requires later.webhooks == WebhookMerged(current, o).obj.webhooks
    ensures WebhookMerged(current, later) == Outcome(later, None)
  {
    assert GroupVersionKind(later) == GroupVersionKind(o);
    if IsWebhookConfiguration(o) && o.webhooks.Present? && current.webhooks.Present?
       && MergeEntries(o.webhooks.value, current.webhooks.value).Merged? {
      MergeEntriesIdempotent(o.webhooks.value, current.webhooks.value);
    }
  }

  /** Merging the metadata a second time against the same `current`
      changes nothing: `current`'s keys are already there, overridden by
      the same values. */
  lemma MetadataMergedTwice(current: Obj, o: Obj)
    ensures MetadataMerged(current, MetadataMerged(current, o)) == MetadataMerged(current, o)
  {
  }

  /** `MergeObjectForUpdate` is idempotent: merging its result again
      against the same `current` gives the same result. */
  lemma ObjectMergedIdempotent(current: Obj, updated: Obj)
    requires ObjectMerged(current, updated).err.None?
    ensures ObjectMerged(current, ObjectMerged(current, updated).obj) == ObjectMerged(current, updated)
  {
    var once := ObjectMerged(current, updated).obj;
    KindKept(current, updated);
    KindKept(current, once);
    var d := DeploymentMerged(current, updated);
    var s := ServiceMerged(current, d).obj;
    var a := ServiceAccountMerged(current, s).obj;
    var w := WebhookMerged(current, a).obj;
    assert once == MetadataMerged(current, w);
    var d2 := DeploymentMerged(current, once);
    assert d2 == once;
    var s2 := ServiceMerged(current, d2);
    assert s2 == Outcome(once, None);
    var a2 := ServiceAccountMerged(current, once);
    assert a2 == Outcome(once, None);
    WebhookMergedSettled(current, a, once);
    MetadataMergedTwice(current, w);
  }

  /** A Service's cluster IP is kept from `current` even where `updated`
      sets its own, here `10.0.0.5` over the empty string and over
      `10.0.0.9`. */
  lemma ServiceClusterIPExample(current: Obj, updated: Obj)
    requires updated.apiVersion == "v1" && updated.kind == "Service"
    requires current.clusterIP == Present("10.0.0.5")
    requires updated.clusterIP == Present("") || updated.clusterIP == Present("10.0.0.9")
    ensures ServiceMerged(current, updated) == Outcome(updated.(clusterIP := Present("10.0.0.5")), None)
  {
    GroupOfApiVersion(updated, "", "v1");
  }

  /** A same-named pair of entries: `updated`'s caBundle is kept when it is
      non-empty and replaced by `current`'s otherwise, even by an empty one
      (current `ABC` over empty gives `ABC`; `XYZ` stays `XYZ`). */
  lemma WebhookCaBundlePair(current: Obj, updated: Obj, name: string, mine: string, theirs: string)
    requires IsWebhookConfiguration(updated)
    requires current.webhooks == Present([Webhook(Present(name), Present(theirs))])
    requires updated.webhooks == Present([Webhook(Present(name), Present(mine))])
    ensures WebhookMerged(current, updated)
         == Outcome(updated.(webhooks := Present([Webhook(Present(name), Present(if mine == "" then theirs else mine))])), None)
  {
    var cw := current.webhooks.value;
    var uw := updated.webhooks.value;
    assert FirstNamed(cw, name) == Some(0);
    var merged := Webhook(Present(name), Present(if mine == "" then theirs else mine));
    assert MergeEntry(uw[0], cw) == Keep(merged);
    assert uw[..0] == [];
    assert MergeEntries(uw, cw) == Merged([merged]);
  }

  /** `IsObjectSupported`: only a core-group ServiceAccount declaring a
      non-empty `secrets` list is refused (or one whose `secrets` cannot be
      read). */
  function IsObjectSupported(o: Obj): (r: Option<MergeError>)
    ensures r.Some? <==> IsServiceAccount(o) && (Unreadable(o.secrets) || (o.secrets.Present? && |o.secrets.value| > 0))
    ensures r == Some(ServiceAccountWithSecrets) <==> IsServiceAccount(o) && o.secrets.Present? && |o.secrets.value| > 0
  {
    if IsServiceAccount(o) then
      match o.secrets
      case Present(list) => if |list| > 0 then Some(ServiceAccountWithSecrets) else None
      case Absent => None
      case _ => Some(FieldUnreadable("secrets"))
    else None
  }

  /** A ServiceAccount the guard accepts has no secrets of its own, so the
      merge leaves it with exactly `current`'s list when `current` has one,
      and with none otherwise. */
  lemma SupportedServiceAccountSecrets(current: Obj, updated: Obj)
    requires IsServiceAccount(updated) && IsObjectSupported(updated).None?
    ensures var r := ServiceAccountMerged(current, updated).obj.secrets;
            r == current.secrets || (r == updated.secrets && (r.Absent? || r == Present([])))
  {
  }

  /** An unstructured object, updated in place by the merge. */
  class Unstructured {
    var obj: Obj

    constructor(o: Obj)
      ensures obj == o
    {
      obj := o;
    }
  }

  /** `base` with every entry of `over` written into it, `over` winning on
      a shared key. */
  method Overlay(base: map<string, string>, over: map<string, string>) returns (r: map<string, string>)
    ensures r.Keys == base.Keys + over.Keys
    ensures forall k :: k in over ==> r[k] == over[k]
    ensures forall k :: k in base && k !in over ==> r[k] == base[k]
  {
    r := base;
    var pending := over.Keys;
    while pending != {}
      invariant pending <= over.Keys
      invariant r.Keys == base.Keys + (over.Keys - pending)
      invariant forall k :: k in over && k !in pending ==> r[k] == over[k]
      invariant forall k :: k in base && k !in over ==> r[k] == base[k]
      invariant forall k :: k in base && k in pending ==> r[k] == base[k]
      decreases pending
    {
      var k :| k in pending;
      r := r[k := over[k]];
      pending := pending - {k};
    }
  }

  /** The overlay is the union of the two maps with `over` winning. */
  lemma OverlayIsUnion(base: map<string, string>, over: map<string, string>, r: map<string, string>)
    requires r.Keys == base.Keys + over.Keys
    requires forall k :: k in over ==> r[k] == over[k]
    requires forall k :: k in base && k !in over ==> r[k] == base[k]
    ensures r == base + over
  {
  }

  /** `mergeAnnotations`. */
  method MergeAnnotations(current: Obj, updated: Unstructured)
    modifies updated
    ensures updated.obj == old(updated.obj).(annotations := current.annotations + old(updated.obj.annotations))
  {
    var merged := Overlay(current.annotations, updated.obj.annotations);
    OverlayIsUnion(current.annotations, updated.obj.annotations, merged);
    if |merged| > 0 {
      updated.obj := updated.obj.(annotations := merged);
    } else {
      assert updated.obj.annotations.Keys == {};
    }
  }

  /** `mergeLabels`. */
  method MergeLabels(current: Obj, updated: Unstructured)
    modifies updated
    ensures updated.obj == old(updated.obj).(labels := current.labels + old(updated.obj.labels))
  {
    var merged := Overlay(current.labels, updated.obj.labels);
    OverlayIsUnion(current.labels, updated.obj.labels, merged);
    if |merged| > 0 {
      updated.obj := updated.obj.(labels := merged);
    } else {
      assert updated.obj.labels.Keys == {};
    }
  }

  method MergeMetadataForUpdate(current: Obj, updated: Unstructured)
    modifies updated
    ensures updated.obj == MetadataMerged(current, old(updated.obj))
  {
    MergeAnnotations(current, updated);
    MergeLabels(current, updated);
    updated.obj := updated.obj.(resourceVersion := current.resourceVersion);
  }

  method MergeDeploymentForUpdate(current: Obj, updated: Unstructured)
    modifies updated
    ensures updated.obj == DeploymentMerged(current, old(updated.obj))
  {
    if IsDeployment(updated.obj) {
      var annotations := updated.obj.annotations;
      if DeploymentRevisionAnnotation in current.annotations {
        annotations := annotations[DeploymentRevisionAnnotation := current.annotations[DeploymentRevisionAnnotation]];
      }
      updated.obj := updated.obj.(annotations := annotations);
    }
  }

  method MergeServiceForUpdate(current: Obj, updated: Unstructured) returns (err: Option<MergeError>)
    modifies updated
    ensures Outcome(updated.obj, err) == ServiceMerged(current, old(updated.obj))
  {
    if IsService(updated.obj) {
      if Unreadable(current.clusterIP) {
        return Some(FieldUnreadable("spec.clusterIP"));
      }
      if current.clusterIP.Present? {
        if updated.obj.clusterIP.Unreachable? {
          return Some(FieldNotSettable("spec.clusterIP"));
        }
        updated.obj := updated.obj.(clusterIP := current.clusterIP);
      }
    }
    return None;
  }

  method MergeServiceAccountForUpdate(current: Obj, updated: Unstructured) returns (err: Option<MergeError>)
    modifies updated
    ensures Outcome(updated.obj, err) == ServiceAccountMerged(current, old(updated.obj))
  {
    if IsServiceAccount(updated.obj) {
      if Unreadable(current.secrets) {
        return Some(FieldUnreadable("secrets"));
      }
      if current.secrets.Present? {
        updated.obj := updated.obj.(secrets := current.secrets);
      }
      if Unreadable(current.imagePullSecrets) {
        return Some(FieldUnreadable("imagePullSecrets"));
      }
      if current.imagePullSecrets.Present? {
        updated.obj := updated.obj.(imagePullSecrets := current.imagePullSecrets);
      }
    }
    return None;
  }

  /** `findByName`: scans the list for the first entry named `name`. */
  method FindByName(list: seq<Webhook>, name: string) returns (r: Option<nat>)
    ensures r == FirstNamed(list, name)
  {
    var i := 0;
    while i < |list|
      invariant 0 <= i <= |list|
      invariant forall j :: 0 <= j < i ==> list[j].name != Present(name)
    {
      if list[i].name == Present(name) {
        FirstNamedAt(list, name, i);
        return Some(i);
      }
      i := i + 1;
    }
    FirstNamedNone(list, name);
    return None;
  }

  lemma {:induction false} FirstNamedAt(list: seq<Webhook>, name: string, i: nat)
    requires i < |list| && list[i].name == Present(name)
    requires forall j :: 0 <= j < i ==> list[j].name != Present(name)
    ensures FirstNamed(list, name) == Some(i)
  {
    if i > 0 {
      assert forall j :: 0 <= j < i - 1 ==> list[1..][j] == list[j + 1];
      FirstNamedAt(list[1..], name, i - 1);
    }
  }

  lemma FirstNamedNone(list: seq<Webhook>, name: string)
    requires forall j :: 0 <= j < |list| ==> list[j].name != Present(name)
    ensures FirstNamed(list, name) == None
  {
  }

  /** One pass of the webhook loop, with `findByName` as a scan. */
  method MergeOneEntry(w: Webhook, current: seq<Webhook>) returns (r: EntryOutcome)
    ensures r == MergeEntry(w, current)
  {
    if Unreadable(w.caBundle) {
      return Abandon;
    }
    if w.caBundle.Present? && w.caBundle.value != "" {
      return Keep(w);
    }
    if Unreadable(w.name) {
      return EntryFailed(FieldUnreadable("name"));
    }
    if w.name.Absent? {
      return EntryFailed(WebhookNameMissing);
    }
    var found := FindByName(current, w.name.value);
    if found.None? {
      return Keep(w);
    }
    var c := current[found.value].caBundle;
    if Unreadable(c) {
      return EntryFailed(FieldUnreadable("clientConfig.caBundle"));
    }
    if c.Absent? {
      return Keep(w);
    }
    return Keep(w.(caBundle := c));
  }

  lemma MergeEntriesSnoc(updated: seq<Webhook>, current: seq<Webhook>, i: nat, ws: seq<Webhook>, w: Webhook)
    requires i < |updated| && MergeEntries(updated[..i], current) == Merged(ws)
    requires MergeEntry(updated[i], current) == Keep(w)
    ensures MergeEntries(updated[..i + 1], current) == Merged(ws + [w])
  {
    assert updated[..i + 1][..i] == updated[..i];
  }

  method MergeWebhookForUpdate(current: Obj, updated: Unstructured) returns (err: Option<MergeError>)
    modifies updated
    ensures Outcome(updated.obj, err) == WebhookMerged(current, old(updated.obj))
  {
    if !IsWebhookConfiguration(updated.obj) {
      return None;
    }
    if Unreadable(updated.obj.webhooks) {
      return Some(FieldUnreadable("webhooks"));
    }
    if updated.obj.webhooks.Absent? {
      return None;
    }
    if Unreadable(current.webhooks) {
      return Some(FieldUnreadable("webhooks"));
    }
    if current.webhooks.Absent? {
      return None;
    }
    var res := MergeEntryList(updated.obj.webhooks.value, current.webhooks.value);
    match res
    case Merged(ws) =>
      updated.obj := updated.obj.(webhooks := Present(ws));
      return None;
    case Abandoned =>
      return None;
    case ListFailed(e) =>
      return Some(e);
  }

  /** The loop of `MergeWebhookForUpdate` over the updated entries, each
      merged against the cluster's list until one is not kept. */
  method MergeEntryList(entries: seq<Webhook>, cw: seq<Webhook>) returns (r: ListOutcome)
    ensures r == MergeEntries(entries, cw)
  {
    var merged: seq<Webhook> := [];
    var i := 0;
    assert entries[..0] == [];
    while i < |entries|
      invariant 0 <= i <= |entries|
      invariant MergeEntries(entries[..i], cw) == Merged(merged)
      invariant forall j :: 0 <= j < i ==> MergeEntry(entries[j], cw).Keep?
    {
      var step := MergeOneEntry(entries[i], cw);
      if !step.Keep? {
        MergeEntriesFirstStop(entries, cw, i);
        if step.Abandon? {
          return Abandoned;
        }
        return ListFailed(step.err);
      }
      MergeEntriesSnoc(entries, cw, i, merged, step.entry);
      assert entries[..i + 1][i] == entries[i];
      merged := merged + [step.entry];
      i := i + 1;
    }
    assert entries[..i] == entries;
    return Merged(merged);
  }

  method MergeObjectForUpdate(current: Obj, updated: Unstructured) returns (err: Option<MergeError>)
    modifies updated
    ensures Outcome(updated.obj, err) == ObjectMerged(current, old(updated.obj))
  {
    MergeDeploymentForUpdate(current, updated);
    err := MergeServiceForUpdate(current, updated);
    if err.Some? {
      return;
    }
    err := MergeServiceAccountForUpdate(current, updated);
    if err.Some? {
      return;
    }
    err := MergeWebhookForUpdate(current, updated);
    if err.Some? {
      return;
    }
    MergeMetadataForUpdate(current, updated);
  }
}
