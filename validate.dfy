/** Admission checks of the operator's webhook (pkg/webhook/validate.go): the
    static checks of an SR-IOV network node policy, its dynamic checks against
    the nodes, node states and other policies of the cluster, the pairwise
    conflict rules between policies, and the checks of the operator config and
    of a pool config.

    The cluster lists that the webhook fetches are inputs here, and the
    helpers of the API package that are not part of this model (supported
    hardware lists, node selection, maxUnavailable resolution) are
    parameters. The package-level flags `nodesSelected` and
    `interfaceSelected` are values threaded through the calls. */
module Validate {

  import opened Base

  const IntelID := "8086"
  const MellanoxID := "15b3"
  const MlxMaxVFs := 128

  // Values of the operator's constants package.
  const DefaultPolicyName := "default"
  const DefaultConfigName := "default"
  const DeviceTypeVfioPci := "vfio-pci"
  const DeviceTypeNetDevice := "netdevice"
  const LinkTypeETH := "eth"
  const ESwitchModeSwitchDev := "switchdev"
  const VdpaTypeVirtio := "virtio"
  const VdpaTypeVhost := "vhost"
  const SyncStatusInProgress := "InProgress"

  // ---------------------------------------------------------------- records

  datatype NicSelector = NicSelector(
    vendor: string,
    deviceID: string,
    rootDevices: seq<string>,
    pfNames: seq<string>,
    netFilter: string)

  /** The spec of a policy; `hasBridge` is `!Bridge.IsEmpty()`. */
  datatype PolicySpec = PolicySpec(
    resourceName: string,
    numVfs: int,
    mtu: int,
    nicSelector: NicSelector,
    deviceType: string,
    isRdma: bool,
    linkType: string,
    eswitchMode: string,
    excludeTopology: bool,
    externallyManaged: bool,
    vdpaType: string,
    hasBridge: bool)

  datatype Policy = Policy(name: string, namespace: string, spec: PolicySpec)

  /** An interface as a node state reports it. */
  datatype InterfaceExt = InterfaceExt(
    name: string,
    pciAddress: string,
    vendor: string,
    deviceID: string,
    totalVfs: int,
    numVfs: int,
    mtu: int,
    linkType: string,
    netFilter: string)

  datatype Node = Node(name: string, providerID: string)

  datatype NodeState = NodeState(name: string, interfaces: seq<InterfaceExt>, syncStatus: string)

  /** The supported-hardware tables of the API package. */
  datatype Catalog = Catalog(
    vendors: set<string>,
    devices: set<string>,
    models: set<(string, string)>,
    vfModels: set<(string, string)>)

  /** Ambient inputs: the operator namespace, `DEV_MODE=TRUE`, the keys of
      the platforms map and the hardware tables. */
  datatype Env = Env(namespace: string, devMode: bool, platforms: set<string>, catalog: Catalog)

  datatype Operation = Create | Update | Delete

  datatype PfSyntaxError = SeparatorCount | RangeSeparatorCount | BadRangeStart | BadRangeEnd

  /** Why a request is rejected; each constructor is one `fmt.Errorf` of the
      source. */
  datatype Rejection =
    | InvalidResourceName(resourceName: string)
    | EmptyNicSelector
    | UnsupportedVendor(vendor: string)
    | UnsupportedVendorDevice(vendor: string, deviceID: string)
    | UnsupportedDevice(deviceID: string)
    | PfNameSyntax(pf: string, problem: PfSyntaxError)
    | PfRangeReversed(pf: string)
    | PfRangeAboveNumVfs(pf: string)
    | VfioPciWithRdma
    | SwitchdevNeedsEthernet
    | VdpaNeedsNetdevice
    | VdpaNeedsSwitchdev
    | BridgeNeedsSwitchdev
    | BridgeExternallyManaged
    | ZeroNumVfs
    | NumVfsAboveTotalVfs(iface: string)
    | NumVfsAboveMlxMax(iface: string)
    | NumVfsAboveExternal
    | MtuAboveExternal
    | LinkTypeDiffersExternal
    | VdpaVendorUnsupported(iface: string)
    | NoMatchedNode
    | NoSupportedNic
    | InvalidPfName(pf: string)
    | VfRangeOverlap(pf: string, other: string)
    | ExternallyManagedInconsistent(other: string)
    | RootDeviceOverlap(device: string, other: string)
    | ExcludeTopologyConflict(other: string)
    | NotDefaultOperatorConfig
    | PreviousConfigUnreadable
    | DrainDisableWhileUpdating(node: string)
    | ParallelismWithOvsOffload
    | InvalidMaxUnavailable

  /** Rejections that one node or one pair of policies can cause, as opposed
      to the cluster-wide "no matched node" and "no supported NIC". */
  predicate NodeLevel(e: Rejection)
  {
    !e.NoMatchedNode? && !e.NoSupportedNic?
  }

  datatype Warning = PolicyNotInOperatorNamespace(policy: string, namespace: string) | DrainDisabled

  /** What a validation returns: admit, warnings, error. */
  datatype Verdict = Verdict(admit: bool, warnings: seq<Warning>, err: Option<Rejection>)

  // ------------------------------------------------- PF names and VF ranges

  /** A selector entry `pfName#start-end`. */
  datatype VfRange = VfRange(pfName: string, start: int, end: int)

  /** Parses an entry that holds a `#`: exactly one `#`, exactly one `-`
      after it, and two integers around the `-`. */
  function ParsePfRange(pf: string): Result<VfRange, PfSyntaxError>
  {
    var fields := Split(pf, '#');
    if |fields| != 2 then Err(SeparatorCount)
    else
      var rng := Split(fields[1], '-');
      if |rng| != 2 then Err(RangeSeparatorCount)
      else
        match Atoi(rng[0])
        case None => Err(BadRangeStart)
        case Some(st) =>
          match Atoi(rng[1])
          case None => Err(BadRangeEnd)
          case Some(en) => Ok(VfRange(fields[0], st, en))
  }

  /** Writes a range back in the `pfName#start-end` form. */
  function FormatPfRange(r: VfRange): string
    requires r.start >= 0 && r.end >= 0
  {
    r.pfName + "#" + NatToString(r.start) + "-" + NatToString(r.end)
  }

  lemma DigitsHoldNoSeparator(s: string, c: char)
    requires AllDigits(s) && !IsDigit(c)
    ensures c !in s
  {
  }

  /** Parsing inverts formatting for every PF name without `#` and every pair
      of non-negative 64-bit bounds. */
  lemma ParseFormatPfRange(r: VfRange)
    requires '#' !in r.pfName && 0 <= r.start <= MaxInt64 && 0 <= r.end <= MaxInt64
    ensures ParsePfRange(FormatPfRange(r)) == Ok(r)
  {
    var st, en := NatToString(r.start), NatToString(r.end);
    NatToStringDigits(r.start);
    NatToStringDigits(r.end);
    DigitsHoldNoSeparator(st, '#');
    DigitsHoldNoSeparator(en, '#');
    DigitsHoldNoSeparator(st, '-');
    DigitsHoldNoSeparator(en, '-');
    var rest := st + "-" + en;
    assert '#' !in rest;
    assert FormatPfRange(r) == r.pfName + ['#'] + rest;
    SplitAfterPrefix(r.pfName, '#', rest);
    assert Split(FormatPfRange(r), '#') == [r.pfName, rest];
    SplitAfterPrefix(st, '-', en);
    assert Split(rest, '-') == [st, en];
    AtoiNatToString(r.start);
    AtoiNatToString(r.end);
  }

  /** The static check of one selector entry (only entries holding a `#` are
      checked): syntax, then `end >= start`, then `end < numVfs`. */
  function PfEntryRejection(pf: string, numVfs: int): Option<Rejection>
  {
    if '#' !in pf then None
    else
      match ParsePfRange(pf)
      case Err(e) => Some(PfNameSyntax(pf, e))
      case Ok(r) =>
        if r.end < r.start then Some(PfRangeReversed(pf))
        else if !(r.end < numVfs) then Some(PfRangeAboveNumVfs(pf))
        else None
  }

  /** An entry the static check accepts: no range, or a well-formed range
      `start <= end < numVfs`; the bound is the policy's own numVfs. */
  predicate PfEntryValid(pf: string, numVfs: int)
  {
    '#' in pf ==> ParsePfRange(pf).Ok? && ParsePfRange(pf).value.start <= ParsePfRange(pf).value.end < numVfs
  }

  /** The first entry the static check rejects, in selector order. */
  function FirstPfRejection(pfs: seq<string>, numVfs: int): (r: Option<Rejection>)
    ensures r.None? <==> forall i :: 0 <= i < |pfs| ==> PfEntryValid(pfs[i], numVfs)
    ensures r.Some? ==> r.value.PfNameSyntax? || r.value.PfRangeReversed? || r.value.PfRangeAboveNumVfs?
  {
    if pfs == [] then None
    else
      match PfEntryRejection(pfs[0], numVfs)
      case Some(e) => Some(e)
      case None =>
        var rest := FirstPfRejection(pfs[1..], numVfs);
        assert forall i :: 1 <= i < |pfs| ==> pfs[i] == pfs[1..][i - 1];
        rest
  }

  /** The static check of an entry written as `pfName#start-end`. */
  lemma PfEntryRejectionOfRange(r: VfRange, numVfs: int)
    requires '#' !in r.pfName && 0 <= r.start <= MaxInt64 && 0 <= r.end <= MaxInt64
    ensures var pf := FormatPfRange(r);
            PfEntryRejection(pf, numVfs)
            == if r.end < r.start then Some(PfRangeReversed(pf))
               else if r.end >= numVfs then Some(PfRangeAboveNumVfs(pf))
               else None
  {
    ParseFormatPfRange(r);
    var pf := FormatPfRange(r);
    assert pf[|r.pfName|] == '#';
  }

  /** `eth0#0-3` is accepted when the policy asks for 4 VFs. */
  lemma PfRangeAcceptedExample()
    ensures PfEntryRejection("eth0#0-3", 4).None?
  {
    assert FormatPfRange(VfRange("eth0", 0, 3)) == "eth0#0-3";
    PfEntryRejectionOfRange(VfRange("eth0", 0, 3), 4);
  }

  /** `eth0#3-0` is rejected: its range is reversed. */
  lemma PfRangeReversedExample()
    ensures PfEntryRejection("eth0#3-0", 4) == Some(PfRangeReversed("eth0#3-0"))
  {
    assert FormatPfRange(VfRange("eth0", 3, 0)) == "eth0#3-0";
    PfEntryRejectionOfRange(VfRange("eth0", 3, 0), 4);
  }

  /** `eth0#0-4` is rejected when the policy asks for 4 VFs: VF 4 does not
      exist. */
  lemma PfRangeAboveNumVfsExample()
    ensures PfEntryRejection("eth0#0-4", 4) == Some(PfRangeAboveNumVfs("eth0#0-4"))
  {
    assert FormatPfRange(VfRange("eth0", 0, 4)) == "eth0#0-4";
    PfEntryRejectionOfRange(VfRange("eth0", 0, 4), 4);
  }

  // ------------------------------------------------------------ static check

  predicate ResourceNameChar(c: char)
  {
    'a' <= c <= 'z' || 'A' <= c <= 'Z' || '0' <= c <= '9' || c == '_'
  }

  /** `^[a-zA-Z0-9_]+$`: at least one character, all from the charset. */
  predicate ValidResourceName(s: string)
  {
    |s| > 0 && forall i :: 0 <= i < |s| ==> ResourceNameChar(s[i])
  }

  predicate SelectorEmpty(sel: NicSelector)
  {
    sel.vendor == "" && sel.deviceID == "" && |sel.pfNames| == 0 && |sel.rootDevices| == 0 && sel.netFilter == ""
  }

  /** The supported-hardware check, skipped in developer mode. */
  function CatalogRejection(sel: NicSelector, env: Env): Option<Rejection>
  {
    if env.devMode then None
    else if sel.vendor != "" then
      if sel.vendor !in env.catalog.vendors then Some(UnsupportedVendor(sel.vendor))
      else if sel.deviceID != "" && (sel.vendor, sel.deviceID) !in env.catalog.models then
        Some(UnsupportedVendorDevice(sel.vendor, sel.deviceID))
      else None
    else if sel.deviceID != "" && sel.deviceID !in env.catalog.devices then Some(UnsupportedDevice(sel.deviceID))
    else None
  }

  predicate IsVdpa(vdpaType: string)
  {
    vdpaType == VdpaTypeVirtio || vdpaType == VdpaTypeVhost
  }

  /** The mutually exclusive feature combinations, checked in source order. */
  function FeatureRejection(spec: PolicySpec): Option<Rejection>
  {
    if spec.deviceType == DeviceTypeVfioPci && spec.isRdma then Some(VfioPciWithRdma)
    else if spec.linkType != "" && !EqualFold(spec.linkType, LinkTypeETH) && spec.eswitchMode == ESwitchModeSwitchDev then
      Some(SwitchdevNeedsEthernet)
    else if spec.deviceType != DeviceTypeNetDevice && IsVdpa(spec.vdpaType) then Some(VdpaNeedsNetdevice)
    else if IsVdpa(spec.vdpaType) && spec.eswitchMode != ESwitchModeSwitchDev then Some(VdpaNeedsSwitchdev)
    else if spec.hasBridge && spec.eswitchMode != ESwitchModeSwitchDev then Some(BridgeNeedsSwitchdev)
    else if spec.hasBridge && spec.externallyManaged then Some(BridgeExternallyManaged)
    else None
  }

  /** The feature combinations a policy may ask for, stated as implications. */
  predicate FeaturesCompatible(spec: PolicySpec)
  {
    && !(spec.deviceType == DeviceTypeVfioPci && spec.isRdma)
    && (spec.eswitchMode == ESwitchModeSwitchDev ==> spec.linkType == "" || EqualFold(spec.linkType, LinkTypeETH))
    && (IsVdpa(spec.vdpaType) ==> spec.deviceType == DeviceTypeNetDevice && spec.eswitchMode == ESwitchModeSwitchDev)
    && (spec.hasBridge ==> spec.eswitchMode == ESwitchModeSwitchDev && !spec.externallyManaged)
  }

  /** Everything the static check asks of a policy, in no particular order. */
  predicate StaticallyAdmissible(spec: PolicySpec, env: Env)
  {
    && ValidResourceName(spec.resourceName)
    && !SelectorEmpty(spec.nicSelector)
    && CatalogRejection(spec.nicSelector, env).None?
    && (forall i :: 0 <= i < |spec.nicSelector.pfNames| ==> PfEntryValid(spec.nicSelector.pfNames[i], spec.numVfs))
    && FeaturesCompatible(spec)
  }

  /** `staticValidateSriovNetworkNodePolicy`: the first failing check, in
      source order. */
  function StaticValidate(spec: PolicySpec, env: Env): (r: Option<Rejection>)
    ensures r.None? <==> StaticallyAdmissible(spec, env)
    ensures !ValidResourceName(spec.resourceName) ==> r == Some(InvalidResourceName(spec.resourceName))
    ensures r == Some(EmptyNicSelector) <==> ValidResourceName(spec.resourceName) && SelectorEmpty(spec.nicSelector)
  {
    if !ValidResourceName(spec.resourceName) then Some(InvalidResourceName(spec.resourceName))
    else if SelectorEmpty(spec.nicSelector) then Some(EmptyNicSelector)
    else if CatalogRejection(spec.nicSelector, env).Some? then CatalogRejection(spec.nicSelector, env)
    else if FirstPfRejection(spec.nicSelector.pfNames, spec.numVfs).Some? then
      FirstPfRejection(spec.nicSelector.pfNames, spec.numVfs)
    else FeatureRejection(spec)
  }

  /** The empty resource name is never admitted, and each forbidden feature
      combination is rejected whatever else the policy says. */
  lemma StaticRejections(spec: PolicySpec, env: Env)
    ensures spec.resourceName == "" ==> StaticValidate(spec, env) == Some(InvalidResourceName(""))
    ensures spec.deviceType == DeviceTypeVfioPci && spec.isRdma ==> StaticValidate(spec, env).Some?
    ensures spec.eswitchMode == ESwitchModeSwitchDev && spec.linkType != "" && !EqualFold(spec.linkType, LinkTypeETH)
            ==> StaticValidate(spec, env).Some?
    ensures IsVdpa(spec.vdpaType) && (spec.deviceType != DeviceTypeNetDevice || spec.eswitchMode != ESwitchModeSwitchDev)
            ==> StaticValidate(spec, env).Some?
    ensures spec.hasBridge && (spec.eswitchMode != ESwitchModeSwitchDev || spec.externallyManaged)
            ==> StaticValidate(spec, env).Some?
  {
  }

  // ------------------------------------------------------- NIC model check

  datatype NicMismatch = VendorMismatch | DeviceIDMismatch | NotInRootDevices | NotInPfNames | UnsupportedNicModel

  /** The PF name of a selector entry: the text before its first `#`. */
  function PfBaseName(pf: string): string
  {
    Split(pf, '#')[0]
  }

  function PfBaseNames(pfs: seq<string>): (r: seq<string>)
    ensures |r| == |pfs| && forall i :: 0 <= i < |pfs| ==> r[i] == PfBaseName(pfs[i])
  {
    seq(|pfs|, i requires 0 <= i < |pfs| => PfBaseName(pfs[i]))
  }

  /** The node's provider ID names one of the virtualized platforms. */
  predicate OnVirtualPlatform(node: Node, env: Env)
  {
    exists key :: key in env.platforms && Contains(ToLower(node.providerID), ToLower(key))
  }

  predicate VendorAccepts(sel: NicSelector, iface: InterfaceExt)
  {
    sel.vendor == "" || sel.vendor == iface.vendor
  }

  predicate DeviceAccepts(sel: NicSelector, iface: InterfaceExt)
  {
    sel.deviceID == "" || sel.deviceID == iface.deviceID
  }

  predicate RootDeviceAccepts(sel: NicSelector, iface: InterfaceExt)
  {
    |sel.rootDevices| == 0 || exists i :: 0 <= i < |sel.rootDevices| && sel.rootDevices[i] == iface.pciAddress
  }

  predicate PfNameAccepts(sel: NicSelector, iface: InterfaceExt)
  {
    |sel.pfNames| == 0 || exists i :: 0 <= i < |sel.pfNames| && PfBaseName(sel.pfNames[i]) == iface.name
  }

  /** A supported model, or, on a virtualized platform, a VF model selected
      by an equal non-empty netFilter. */
  predicate ModelAccepts(sel: NicSelector, iface: InterfaceExt, node: Node, env: Env)
  {
    || (iface.vendor, iface.deviceID) in env.catalog.models
    || (OnVirtualPlatform(node, env) && sel.netFilter != "" && sel.netFilter == iface.netFilter
        && (iface.vendor, iface.deviceID) in env.catalog.vfModels)
  }

  predicate NicMatches(sel: NicSelector, iface: InterfaceExt, node: Node, env: Env)
  {
    VendorAccepts(sel, iface) && DeviceAccepts(sel, iface) && RootDeviceAccepts(sel, iface)
    && PfNameAccepts(sel, iface) && ModelAccepts(sel, iface, node, env)
  }

  /** `validateNicModel`: the first check the interface fails, in the order
      vendor, device ID, root devices, PF names, model. */
  function ValidateNicModel(sel: NicSelector, iface: InterfaceExt, node: Node, env: Env): (r: Option<NicMismatch>)
    ensures r.None? <==> NicMatches(sel, iface, node, env)
  {
    if sel.vendor != "" && sel.vendor != iface.vendor then Some(VendorMismatch)
    else if sel.deviceID != "" && sel.deviceID != iface.deviceID then Some(DeviceIDMismatch)
    else if |sel.rootDevices| > 0 && iface.pciAddress !in sel.rootDevices then Some(NotInRootDevices)
    else if |sel.pfNames| > 0 && iface.name !in PfBaseNames(sel.pfNames) then Some(NotInPfNames)
    else if (iface.vendor, iface.deviceID) in env.catalog.models then None
    else if OnVirtualPlatform(node, env) && sel.netFilter != "" && sel.netFilter == iface.netFilter
            && (iface.vendor, iface.deviceID) in env.catalog.vfModels then None
    else Some(UnsupportedNicModel)
  }

  /** The reported mismatch is the first failing check in the order vendor,
      device ID, root devices, PF names. */
  lemma NicModelCheckOrder(sel: NicSelector, iface: InterfaceExt, node: Node, env: Env)
    ensures var r := ValidateNicModel(sel, iface, node, env);
            && (r == Some(VendorMismatch) <==> !VendorAccepts(sel, iface))
            && (r == Some(DeviceIDMismatch) <==> VendorAccepts(sel, iface) && !DeviceAccepts(sel, iface))
            && (r == Some(NotInRootDevices)
                <==> VendorAccepts(sel, iface) && DeviceAccepts(sel, iface) && !RootDeviceAccepts(sel, iface))
            && (r == Some(NotInPfNames)
                <==> VendorAccepts(sel, iface) && DeviceAccepts(sel, iface) && RootDeviceAccepts(sel, iface)
                     && !PfNameAccepts(sel, iface))
  {
  }

  // ------------------------------------------- checks on a matched interface

  /** Everything a matched interface asks of the policy. */
  predicate InterfaceAccepts(p: Policy, iface: InterfaceExt)
  {
    && (p.name != DefaultPolicyName ==> p.spec.numVfs != 0)
    && (iface.vendor == IntelID ==> p.spec.numVfs <= iface.totalVfs)
    && (iface.vendor == MellanoxID ==> p.spec.numVfs <= MlxMaxVFs)
    && (p.spec.externallyManaged ==>
          && p.spec.numVfs <= iface.numVfs
          && (p.spec.mtu != 0 ==> p.spec.mtu <= iface.mtu)
          && (p.spec.linkType != "" ==> ToLower(p.spec.linkType) == ToLower(iface.linkType)))
    && (IsVdpa(p.spec.vdpaType) ==> iface.vendor == MellanoxID)
  }

  /** The checks run once an interface matched, in source order. */
  function InterfaceRejection(p: Policy, iface: InterfaceExt): (r: Option<Rejection>)
    ensures r.None? <==> InterfaceAccepts(p, iface)
    ensures r.Some? ==> NodeLevel(r.value)
  {
    if p.name != DefaultPolicyName && p.spec.numVfs == 0 then Some(ZeroNumVfs)
    else if p.spec.numVfs > iface.totalVfs && iface.vendor == IntelID then Some(NumVfsAboveTotalVfs(iface.name))
    else if p.spec.numVfs > MlxMaxVFs && iface.vendor == MellanoxID then Some(NumVfsAboveMlxMax(iface.name))
    else if p.spec.externallyManaged && p.spec.numVfs > iface.numVfs then Some(NumVfsAboveExternal)
    else if p.spec.externallyManaged && p.spec.mtu != 0 && p.spec.mtu > iface.mtu then Some(MtuAboveExternal)
    else if p.spec.externallyManaged && p.spec.linkType != "" && ToLower(p.spec.linkType) != ToLower(iface.linkType) then
      Some(LinkTypeDiffersExternal)
    else if IsVdpa(p.spec.vdpaType) && iface.vendor != MellanoxID then Some(VdpaVendorUnsupported(iface.name))
    else None
  }

  // ------------------------------------------------ one node, one node state

  /** A log line for an interface the selector did not match. */
  datatype NicLogEntry = NicLogEntry(iface: string, reason: NicMismatch)

  predicate Selects(sel: NicSelector, iface: InterfaceExt, node: Node, env: Env)
  {
    ValidateNicModel(sel, iface, node, env).None?
  }

  predicate AnySelected(sel: NicSelector, ifaces: seq<InterfaceExt>, node: Node, env: Env)
  {
    exists i :: 0 <= i < |ifaces| && Selects(sel, ifaces[i], node, env)
  }

  /** A matched interface whose checks reject the policy. */
  predicate RejectsAt(p: Policy, iface: InterfaceExt, node: Node, env: Env)
  {
    Selects(p.spec.nicSelector, iface, node, env) && InterfaceRejection(p, iface).Some?
  }

  /** The rejection of the first matched interface that rejects the policy. */
  function FirstInterfaceRejection(p: Policy, ifaces: seq<InterfaceExt>, node: Node, env: Env): (r: Option<Rejection>)
    ensures r.None? <==> forall i :: 0 <= i < |ifaces| ==> !RejectsAt(p, ifaces[i], node, env)
    ensures r.Some? ==> NodeLevel(r.value)
  {
    if ifaces == [] then None
    else if RejectsAt(p, ifaces[0], node, env) then InterfaceRejection(p, ifaces[0])
    else
      var r := FirstInterfaceRejection(p, ifaces[1..], node, env);
      assert forall i :: 1 <= i < |ifaces| ==> ifaces[i] == ifaces[1..][i - 1];
      r
  }

  /** A rejection comes from the first matched interface whose checks fail. */
  lemma {:induction false} FirstInterfaceRejectionIsFirst(p: Policy, ifaces: seq<InterfaceExt>, node: Node, env: Env)
    ensures var r := FirstInterfaceRejection(p, ifaces, node, env);
            r.Some? ==> exists k :: 0 <= k < |ifaces| && RejectsAt(p, ifaces[k], node, env)
                                   && r == InterfaceRejection(p, ifaces[k])
                                   && forall j :: 0 <= j < k ==> !RejectsAt(p, ifaces[j], node, env)
  {
    var r := FirstInterfaceRejection(p, ifaces, node, env);
    if ifaces != [] && !RejectsAt(p, ifaces[0], node, env) && r.Some? {
      var tail := ifaces[1..];
      FirstInterfaceRejectionIsFirst(p, tail, node, env);
      var k :| 0 <= k < |tail| && RejectsAt(p, tail[k], node, env)
               && r == InterfaceRejection(p, tail[k])
               && forall j :: 0 <= j < k ==> !RejectsAt(p, tail[j], node, env);
      assert RejectsAt(p, ifaces[k + 1], node, env);
      assert forall j :: 1 <= j < k + 1 ==> ifaces[j] == tail[j - 1];
    }
  }

  /** The log lines of the interfaces the selector did not match, in order. */
  function MismatchLog(sel: NicSelector, ifaces: seq<InterfaceExt>, node: Node, env: Env): (log: seq<NicLogEntry>)
    ensures |log| <= |ifaces|
  {
    if ifaces == [] then []
    else
      var last := ifaces[|ifaces| - 1];
      var before := MismatchLog(sel, ifaces[..|ifaces| - 1], node, env);
      match ValidateNicModel(sel, last, node, env)
      case Some(reason) => before + [NicLogEntry(last.name, reason)]
      case None => before
  }

  /** When no interface matched, the log has one line per interface, in
      order, each with the reason its match failed. */
  lemma {:induction false} MismatchLogComplete(sel: NicSelector, ifaces: seq<InterfaceExt>, node: Node, env: Env)
    requires !AnySelected(sel, ifaces, node, env)
    ensures var log := MismatchLog(sel, ifaces, node, env);
            |log| == |ifaces| &&
            forall i :: 0 <= i < |ifaces| ==>
              log[i] == NicLogEntry(ifaces[i].name, ValidateNicModel(sel, ifaces[i], node, env).value)
  {
    if ifaces != [] {
      var front := ifaces[..|ifaces| - 1];
      assert !AnySelected(sel, front, node, env);
      MismatchLogComplete(sel, front, node, env);
      assert !Selects(sel, ifaces[|ifaces| - 1], node, env);
    }
  }

  /** The scan's verdict from interface `i` on: the first matched interface
      from there that rejects the policy. */
  function RejectionFrom(p: Policy, ifaces: seq<InterfaceExt>, i: nat, node: Node, env: Env): Option<Rejection>
    requires i <= |ifaces|
    decreases |ifaces| - i
  {
    if i == |ifaces| then None
    else if RejectsAt(p, ifaces[i], node, env) then InterfaceRejection(p, ifaces[i])
    else RejectionFrom(p, ifaces, i + 1, node, env)
  }

  /** Whether one of the first `i` interfaces matched. */
  predicate SelectedBefore(sel: NicSelector, ifaces: seq<InterfaceExt>, i: nat, node: Node, env: Env)
    requires i <= |ifaces|
  {
    i > 0 && (SelectedBefore(sel, ifaces, i - 1, node, env) || Selects(sel, ifaces[i - 1], node, env))
  }

  /** The log lines of the first `i` interfaces. */
  function LogBefore(sel: NicSelector, ifaces: seq<InterfaceExt>, i: nat, node: Node, env: Env): seq<NicLogEntry>
    requires i <= |ifaces|
  {
    if i == 0 then []
    else
      LogBefore(sel, ifaces, i - 1, node, env)
      + if Selects(sel, ifaces[i - 1], node, env) then []
        else [NicLogEntry(ifaces[i - 1].name, ValidateNicModel(sel, ifaces[i - 1], node, env).value)]
  }

  lemma {:induction false} RejectionFromIsFirst(p: Policy, ifaces: seq<InterfaceExt>, i: nat, node: Node, env: Env)
    requires i <= |ifaces|
    ensures RejectionFrom(p, ifaces, i, node, env) == FirstInterfaceRejection(p, ifaces[i..], node, env)
    decreases |ifaces| - i
  {
    if i < |ifaces| {
      RejectionFromIsFirst(p, ifaces, i + 1, node, env);
      assert ifaces[i..][1..] == ifaces[i + 1..];
    }
  }

  lemma {:induction false} SelectedBeforeIsAny(sel: NicSelector, ifaces: seq<InterfaceExt>, i: nat, node: Node, env: Env)
    requires i <= |ifaces|
    ensures SelectedBefore(sel, ifaces, i, node, env) == AnySelected(sel, ifaces[..i], node, env)
  {
    if i > 0 {
      SelectedBeforeIsAny(sel, ifaces, i - 1, node, env);
      var pre, post := ifaces[..i - 1], ifaces[..i];
      if Selects(sel, ifaces[i - 1], node, env) {
        assert Selects(sel, post[i - 1], node, env);
      }
      if AnySelected(sel, pre, node, env) {
        var k :| 0 <= k < i - 1 && Selects(sel, pre[k], node, env);
        assert Selects(sel, post[k], node, env);
      }
      if AnySelected(sel, post, node, env) {
        var k :| 0 <= k < i && Selects(sel, post[k], node, env);
        if k < i - 1 { assert Selects(sel, pre[k], node, env); }
      }
    }
  }

  lemma {:induction false} LogBeforeIsMismatchLog(sel: NicSelector, ifaces: seq<InterfaceExt>, i: nat, node: Node, env: Env)
    requires i <= |ifaces|
    ensures LogBefore(sel, ifaces, i, node, env) == MismatchLog(sel, ifaces[..i], node, env)
  {
    if i > 0 {
      LogBeforeIsMismatchLog(sel, ifaces, i - 1, node, env);
      assert ifaces[..i][..i - 1] == ifaces[..i - 1];
    }
  }

  /** `validatePolicyForNodeState`: scans the node state's interfaces in
      order. A matched interface sets the interface-selected flag and is
      checked, the first failing check ending the scan; an unmatched one
      adds a log line. The log is returned only when nothing matched. */
  method ValidatePolicyForNodeState(policy: Policy, state: NodeState, node: Node, env: Env, interfaceSelected: bool)
    returns (mismatches: seq<NicLogEntry>, selected: bool, err: Option<Rejection>)
    ensures err == FirstInterfaceRejection(policy, state.interfaces, node, env)
    ensures selected == (interfaceSelected || AnySelected(policy.spec.nicSelector, state.interfaces, node, env))
    ensures err.None? ==>
              mismatches == if AnySelected(policy.spec.nicSelector, state.interfaces, node, env) then []
                            else MismatchLog(policy.spec.nicSelector, state.interfaces, node, env)
  {
    var ifaces := state.interfaces;
    var sel := policy.spec.nicSelector;
    selected := interfaceSelected;
    var selectedForNode := false;
    var log: seq<NicLogEntry> := [];
    var i := 0;
    while i < |ifaces|
      invariant 0 <= i <= |ifaces|
      invariant RejectionFrom(policy, ifaces, 0, node, env) == RejectionFrom(policy, ifaces, i, node, env)
      invariant selectedForNode == SelectedBefore(sel, ifaces, i, node, env)
      invariant selected == (interfaceSelected || selectedForNode)
      invariant log == LogBefore(sel, ifaces, i, node, env)
    {
      var iface := ifaces[i];
      var nicErr := ValidateNicModel(sel, iface, node, env);
      if nicErr.None? {
        selected := true;
        selectedForNode := true;
        err := InterfaceRejection(policy, iface);
        if err.Some? {
          RejectionFromIsFirst(policy, ifaces, 0, node, env);
          assert ifaces[0..] == ifaces;
          assert AnySelected(sel, ifaces, node, env) by {
            assert Selects(sel, ifaces[i], node, env);
          }
          return [], selected, err;
        }
      } else {
        log := log + [NicLogEntry(iface.name, nicErr.value)];
      }
      i := i + 1;
    }
    RejectionFromIsFirst(policy, ifaces, 0, node, env);
    SelectedBeforeIsAny(sel, ifaces, i, node, env);
    LogBeforeIsMismatchLog(sel, ifaces, i, node, env);
    assert ifaces[0..] == ifaces && ifaces[..i] == ifaces;
    err := None;
    mismatches := if selectedForNode then [] else log;
  }

  // ------------------------------------------------------ pairwise conflicts

  /** The PF name and bounds of a selector entry as the API package's
      `ParseVfRange` reports them: an entry without `#` is the whole PF with
      bounds -1, and an entry that does not parse keeps its base name. */
  function VfRangeOf(pf: string): VfRange
  {
    if '#' !in pf then VfRange(pf, -1, -1)
    else
      match ParsePfRange(pf)
      case Ok(r) => r
      case Err(_) => VfRange(PfBaseName(pf), -1, -1)
  }

  predicate VfRangeParses(pf: string)
  {
    '#' !in pf || ParsePfRange(pf).Ok?
  }

  /** Two ranges are disjoint when one ends strictly before the other starts. */
  predicate RangesDisjoint(a: VfRange, b: VfRange)
  {
    a.end < b.start || a.start > b.end
  }

  predicate SamePf(a: string, b: string)
  {
    VfRangeOf(a).pfName == VfRangeOf(b).pfName
  }

  /** `validateExternallyManage`. */
  function ValidateExternallyManage(current: Policy, previous: Policy): (r: Option<Rejection>)
    ensures r.Some? <==> current.spec.externallyManaged != previous.spec.externallyManaged
  {
    if current.spec.externallyManaged != previous.spec.externallyManaged then
      Some(ExternallyManagedInconsistent(previous.name))
    else None
  }

  /** The index of the first entry of `pres` on PF `name`. */
  function FirstOnPf(name: string, pres: seq<string>): (r: Option<nat>)
    ensures r.Some? ==> r.value < |pres| && VfRangeOf(pres[r.value]).pfName == name
                        && forall j :: 0 <= j < r.value ==> VfRangeOf(pres[j]).pfName != name
    ensures r.None? ==> forall j :: 0 <= j < |pres| ==> VfRangeOf(pres[j]).pfName != name
  {
    if pres == [] then None
    else if VfRangeOf(pres[0]).pfName == name then Some(0)
    else
      match FirstOnPf(name, pres[1..])
      case None => None
      case Some(k) => Some(k + 1)
  }

  /** The as-written check gets as far as the `k`-th current entry: every
      entry before it parses and shares its PF with no previous entry. */
  predicate ReachesEntry(curs: seq<string>, pres: seq<string>, k: int)
    requires 0 <= k <= |curs|
  {
    forall i :: 0 <= i < k ==> VfRangeParses(curs[i]) && FirstOnPf(VfRangeOf(curs[i]).pfName, pres).None?
  }

  /** A current entry passes the as-written check: it parses and, when some
      previous entry is on its PF, the first such entry agrees on
      `externallyManaged` and has a disjoint range. */
  predicate FirstPairPasses(pf: string, pres: seq<string>, current: Policy, previous: Policy)
  {
    && VfRangeParses(pf)
    && match FirstOnPf(VfRangeOf(pf).pfName, pres)
       case None => true
       case Some(j) =>
         current.spec.externallyManaged == previous.spec.externallyManaged
         && RangesDisjoint(VfRangeOf(pf), VfRangeOf(pres[j]))
  }

  /** `validatePfNames` as written: for the first current entry that shares
      its PF with some previous entry, only the first such previous entry is
      compared, and both outcomes end the check. */
  function ValidatePfNames(current: Policy, previous: Policy): (r: Option<Rejection>)
    ensures r.None? <==>
              forall k :: 0 <= k < |current.spec.nicSelector.pfNames|
                          && ReachesEntry(current.spec.nicSelector.pfNames, previous.spec.nicSelector.pfNames, k) ==>
                            FirstPairPasses(current.spec.nicSelector.pfNames[k], previous.spec.nicSelector.pfNames,
                                            current, previous)
    ensures r.Some? ==> NodeLevel(r.value)
  {
    PfNamesFrom(current.spec.nicSelector.pfNames, current, previous)
  }

  /** Reaching entry `k + 1` of a list is passing its head without a
      partner and reaching entry `k` of its tail. */
  lemma ReachesEntryTail(curs: seq<string>, pres: seq<string>, k: int)
    requires 0 <= k < |curs|
    ensures ReachesEntry(curs, pres, k + 1)
            <==> VfRangeParses(curs[0]) && FirstOnPf(VfRangeOf(curs[0]).pfName, pres).None?
                 && ReachesEntry(curs[1..], pres, k)
  {
    assert forall i :: 1 <= i < k + 1 ==> curs[i] == curs[1..][i - 1];
    if VfRangeParses(curs[0]) && FirstOnPf(VfRangeOf(curs[0]).pfName, pres).None? && ReachesEntry(curs[1..], pres, k) {
      forall i | 0 <= i < k + 1
        ensures VfRangeParses(curs[i]) && FirstOnPf(VfRangeOf(curs[i]).pfName, pres).None?
      {
        if i > 0 {
          assert curs[i] == curs[1..][i - 1];
        }
      }
    }
  }

  function PfNamesFrom(curs: seq<string>, current: Policy, previous: Policy): (r: Option<Rejection>)
    ensures r.None? <==>
              forall k :: 0 <= k < |curs| && ReachesEntry(curs, previous.spec.nicSelector.pfNames, k) ==>
                            FirstPairPasses(curs[k], previous.spec.nicSelector.pfNames, current, previous)
    ensures r.Some? ==> NodeLevel(r.value)
  {
    var pres := previous.spec.nicSelector.pfNames;
    if curs == [] then None
    else if !VfRangeParses(curs[0]) then
      assert ReachesEntry(curs, pres, 0) && !FirstPairPasses(curs[0], pres, current, previous);
      Some(InvalidPfName(curs[0]))
    else
      var cur := VfRangeOf(curs[0]);
      assert ReachesEntry(curs, pres, 0);
      match FirstOnPf(cur.pfName, pres)
      case None =>
        var r := PfNamesFrom(curs[1..], current, previous);
        assert forall k :: 0 <= k < |curs| - 1 ==> curs[k + 1] == curs[1..][k];
        assert forall k :: 0 <= k < |curs| - 1 ==>
                 (ReachesEntry(curs, pres, k + 1) <==> ReachesEntry(curs[1..], pres, k)) by {
          forall k | 0 <= k < |curs| - 1 {
            ReachesEntryTail(curs, pres, k);
          }
        }
        assert FirstPairPasses(curs[0], pres, current, previous);
        assert r.None? <==> forall k :: 1 <= k < |curs| && ReachesEntry(curs, pres, k) ==>
                              FirstPairPasses(curs[k], pres, current, previous) by {
          if r.None? {
            forall k | 1 <= k < |curs| && ReachesEntry(curs, pres, k)
              ensures FirstPairPasses(curs[k], pres, current, previous)
            {
              assert ReachesEntry(curs[1..], pres, k - 1);
            }
          } else {
            var k :| 0 <= k < |curs[1..]| && ReachesEntry(curs[1..], pres, k)
                     && !FirstPairPasses(curs[1..][k], pres, current, previous);
            assert ReachesEntry(curs, pres, k + 1);
          }
        }
        r
      case Some(j) =>
        assert forall k :: 1 <= k < |curs| ==> !ReachesEntry(curs, pres, k);
        if ValidateExternallyManage(current, previous).Some? then ValidateExternallyManage(current, previous)
        else if RangesDisjoint(cur, VfRangeOf(pres[j])) then None
        else Some(VfRangeOverlap(curs[0], previous.name))
  }

  /** Both policies leave every shared PF with disjoint ranges and the same
      `externallyManaged`, and every current entry parses. */
  predicate PfNamesCompatible(current: Policy, previous: Policy)
  {
    var curs := current.spec.nicSelector.pfNames;
    var pres := previous.spec.nicSelector.pfNames;
    && (forall i :: 0 <= i < |curs| ==> VfRangeParses(curs[i]))
    && (forall i, j :: 0 <= i < |curs| && 0 <= j < |pres| && SamePf(curs[i], pres[j]) ==>
          current.spec.externallyManaged == previous.spec.externallyManaged
          && RangesDisjoint(VfRangeOf(curs[i]), VfRangeOf(pres[j])))
  }

  /** What the conflict checks read from a formatted entry. */
  lemma VfRangeOfFormatted(pf: string, r: VfRange)
    requires '#' !in r.pfName && 0 <= r.start <= MaxInt64 && 0 <= r.end <= MaxInt64
    requires pf == FormatPfRange(r)
    ensures VfRangeParses(pf) && VfRangeOf(pf) == r
  {
    ParseFormatPfRange(r);
    assert pf[|r.pfName|] == '#';
  }

  /** The as-written check misses an overlap behind a disjoint pair on the
      same PF: `eth0#0-3` against `eth0#4-7, eth0#0-1` is admitted although
      `eth0#0-3` and `eth0#0-1` overlap. */
  lemma PfNamesFirstPairOnly(current: Policy, previous: Policy)
    requires current.name != previous.name
    requires current.spec.externallyManaged == previous.spec.externallyManaged
    requires current.spec.nicSelector.pfNames == ["eth0#0-3"]
    requires previous.spec.nicSelector.pfNames == ["eth0#4-7", "eth0#0-1"]
    ensures ValidatePfNames(current, previous).None?
    ensures !PfNamesCompatible(current, previous)
  {
    var a, b, c := "eth0#0-3", "eth0#4-7", "eth0#0-1";
    assert FormatPfRange(VfRange("eth0", 0, 3)) == a;
    assert FormatPfRange(VfRange("eth0", 4, 7)) == b;
    assert FormatPfRange(VfRange("eth0", 0, 1)) == c;
    VfRangeOfFormatted(a, VfRange("eth0", 0, 3));
    VfRangeOfFormatted(b, VfRange("eth0", 4, 7));
    VfRangeOfFormatted(c, VfRange("eth0", 0, 1));
    FirstPairOnly(current, previous, a, b, c);
  }

  /** The shape behind `PfNamesFirstPairOnly`: one current entry, and on the
      same PF a disjoint previous entry followed by an overlapping one. */
  lemma FirstPairOnly(current: Policy, previous: Policy, a: string, b: string, c: string)
    requires current.spec.externallyManaged == previous.spec.externallyManaged
    requires current.spec.nicSelector.pfNames == [a]
    requires previous.spec.nicSelector.pfNames == [b, c]
    requires VfRangeParses(a) && VfRangeOf(a) == VfRange("eth0", 0, 3)
    requires VfRangeOf(b) == VfRange("eth0", 4, 7)
    requires VfRangeOf(c) == VfRange("eth0", 0, 1)
    ensures ValidatePfNames(current, previous).None?
    ensures !PfNamesCompatible(current, previous)
  {
    assert FirstOnPf("eth0", [b, c]) == Some(0);
    assert SamePf(current.spec.nicSelector.pfNames[0], previous.spec.nicSelector.pfNames[1]);
  }

  /** The overlap check of one current entry against every previous entry. */
  function PfEntryConflict(pf: string, pres: seq<string>, current: Policy, previous: Policy): (r: Option<Rejection>)
    requires VfRangeParses(pf)
    ensures r.None? <==> forall j :: 0 <= j < |pres| && SamePf(pf, pres[j]) ==>
                           current.spec.externallyManaged == previous.spec.externallyManaged
                           && RangesDisjoint(VfRangeOf(pf), VfRangeOf(pres[j]))
    ensures r.Some? ==> NodeLevel(r.value)
  {
    if pres == [] then None
    else if SamePf(pf, pres[0]) && ValidateExternallyManage(current, previous).Some? then
      ValidateExternallyManage(current, previous)
    else if SamePf(pf, pres[0]) && !RangesDisjoint(VfRangeOf(pf), VfRangeOf(pres[0])) then
      Some(VfRangeOverlap(pf, previous.name))
    else
      var r := PfEntryConflict(pf, pres[1..], current, previous);
      assert forall j :: 1 <= j < |pres| ==> pres[j] == pres[1..][j - 1];
      r
  }

  function PfNamesConflictFrom(curs: seq<string>, current: Policy, previous: Policy): (r: Option<Rejection>)
    ensures r.None? <==>
              && (forall i :: 0 <= i < |curs| ==> VfRangeParses(curs[i]))
              && (forall i, j ::
                    (0 <= i < |curs| && 0 <= j < |previous.spec.nicSelector.pfNames|
                     && SamePf(curs[i], previous.spec.nicSelector.pfNames[j])) ==>
                    (current.spec.externallyManaged == previous.spec.externallyManaged
                     && RangesDisjoint(VfRangeOf(curs[i]), VfRangeOf(previous.spec.nicSelector.pfNames[j]))))
    ensures r.Some? ==> NodeLevel(r.value)
  {
    if curs == [] then None
    else if !VfRangeParses(curs[0]) then Some(InvalidPfName(curs[0]))
    else
      match PfEntryConflict(curs[0], previous.spec.nicSelector.pfNames, current, previous)
      case Some(e) => Some(e)
      case None =>
        var r := PfNamesConflictFrom(curs[1..], current, previous);
        assert forall i :: 1 <= i < |curs| ==> curs[i] == curs[1..][i - 1];
        r
  }

  /** `validatePfNames` as evidently intended: every pair of entries on a
      shared PF is compared, so a policy is admitted exactly when its entries
      parse and agree with the previous policy on every shared PF. */
  function ValidatePfNamesAllPairs(current: Policy, previous: Policy): (r: Option<Rejection>)
    ensures r.None? <==> PfNamesCompatible(current, previous)
    ensures r.Some? ==> NodeLevel(r.value)
  {
    PfNamesConflictFrom(current.spec.nicSelector.pfNames, current, previous)
  }

  /** On entries that parse, the corrected check is symmetric: `a` conflicts
      with `b` exactly when `b` conflicts with `a`. */
  lemma PfNamesCompatibleSymmetric(a: Policy, b: Policy)
    requires forall i :: 0 <= i < |a.spec.nicSelector.pfNames| ==> VfRangeParses(a.spec.nicSelector.pfNames[i])
    requires forall i :: 0 <= i < |b.spec.nicSelector.pfNames| ==> VfRangeParses(b.spec.nicSelector.pfNames[i])
    ensures ValidatePfNamesAllPairs(a, b).None? <==> ValidatePfNamesAllPairs(b, a).None?
  {
    assert PfNamesCompatible(a, b) ==> PfNamesCompatible(b, a);
    assert PfNamesCompatible(b, a) ==> PfNamesCompatible(a, b);
  }

  /** The first current root device that the previous policy also lists. */
  function FirstSharedRootDevice(curs: seq<string>, pres: seq<string>): (r: Option<string>)
    ensures r.Some? <==> exists i, j :: 0 <= i < |curs| && 0 <= j < |pres| && curs[i] == pres[j]
    ensures r.Some? ==> r.value in curs && r.value in pres
  {
    if curs == [] then None
    else if curs[0] in pres then Some(curs[0])
    else
      var r := FirstSharedRootDevice(curs[1..], pres);
      assert forall i :: 1 <= i < |curs| ==> curs[i] == curs[1..][i - 1];
      r
  }

  /** `validateRootDevices`: any equal root device is a conflict. */
  function ValidateRootDevices(current: Policy, previous: Policy): (r: Option<Rejection>)
    ensures r.Some? <==> exists i, j :: 0 <= i < |current.spec.nicSelector.rootDevices|
                                     && 0 <= j < |previous.spec.nicSelector.rootDevices|
                                     && current.spec.nicSelector.rootDevices[i] == previous.spec.nicSelector.rootDevices[j]
  {
    match FirstSharedRootDevice(current.spec.nicSelector.rootDevices, previous.spec.nicSelector.rootDevices)
    case None => None
    case Some(d) => Some(RootDeviceOverlap(d, previous.name))
  }

  /** `validateExludeTopologyField`. */
  function ValidateExcludeTopologyField(current: Policy, previous: Policy): (r: Option<Rejection>)
    ensures r.Some? <==> current.spec.resourceName == previous.spec.resourceName
                         && current.spec.excludeTopology != previous.spec.excludeTopology
  {
    if current.spec.resourceName != previous.spec.resourceName then None
    else if current.spec.excludeTopology == previous.spec.excludeTopology then None
    else Some(ExcludeTopologyConflict(previous.name))
  }

  /** `validatePolicyForNodePolicy`: a policy never conflicts with itself;
      against another one, the PF-name check as written comes first, then
      shared root devices, then `excludeTopology` on a shared resource. */
  function ValidatePolicyForNodePolicy(current: Policy, previous: Policy): (r: Option<Rejection>)
    ensures current.name == previous.name ==> r.None?
    ensures r.None? <==> current.name == previous.name ||
                         (&& ValidatePfNames(current, previous).None?
                          && (forall i, j :: 0 <= i < |current.spec.nicSelector.rootDevices|
                                             && 0 <= j < |previous.spec.nicSelector.rootDevices| ==>
                                               current.spec.nicSelector.rootDevices[i]
                                               != previous.spec.nicSelector.rootDevices[j])
                          && (current.spec.resourceName != previous.spec.resourceName
                              || current.spec.excludeTopology == previous.spec.excludeTopology))
    ensures current.name != previous.name && ValidatePfNames(current, previous).Some? ==>
              r == ValidatePfNames(current, previous)
    ensures r.Some? ==> NodeLevel(r.value)
  {
    if current.name == previous.name then None
    else if ValidatePfNames(current, previous).Some? then ValidatePfNames(current, previous)
    else if ValidateRootDevices(current, previous).Some? then ValidateRootDevices(current, previous)
    else ValidateExcludeTopologyField(current, previous)
  }

  /** `validatePolicyForNodePolicy` with the PF-name check as evidently
      intended (`ValidatePfNamesAllPairs`). */
  function ValidatePolicyForNodePolicyIntended(current: Policy, previous: Policy): (r: Option<Rejection>)
    ensures current.name == previous.name ==> r.None?
    ensures r.None? <==> current.name == previous.name ||
                         (PfNamesCompatible(current, previous)
                          && ValidateRootDevices(current, previous).None?
                          && ValidateExcludeTopologyField(current, previous).None?)
    ensures r.Some? ==> NodeLevel(r.value)
  {
    if current.name == previous.name then None
    else if ValidatePfNamesAllPairs(current, previous).Some? then ValidatePfNamesAllPairs(current, previous)
    else if ValidateRootDevices(current, previous).Some? then ValidateRootDevices(current, previous)
    else ValidateExcludeTopologyField(current, previous)
  }

  /** The corrected PF-name rule is stricter than the one as written: every
      pair of policies it lets through, the check as written lets through. */
  lemma CompatibleAdmittedAsWritten(current: Policy, previous: Policy)
    requires PfNamesCompatible(current, previous)
    ensures ValidatePfNames(current, previous).None?
  {
    var curs := current.spec.nicSelector.pfNames;
    var pres := previous.spec.nicSelector.pfNames;
    forall k | 0 <= k < |curs| && ReachesEntry(curs, pres, k)
      ensures FirstPairPasses(curs[k], pres, current, previous)
    {
      match FirstOnPf(VfRangeOf(curs[k]).pfName, pres)
      case None =>
      case Some(j) =>
        assert SamePf(curs[k], pres[j]);
    }
  }

  /** Hence the intended pairwise conflict check admits no pair of policies
      that the check as written rejects, and it rejects the pair of
      `PfNamesFirstPairOnly`, which the check as written admits. */
  lemma IntendedIsStricter(current: Policy, previous: Policy)
    ensures ValidatePolicyForNodePolicyIntended(current, previous).None? ==>
              ValidatePolicyForNodePolicy(current, previous).None?
    ensures current.name != previous.name
            && current.spec.externallyManaged == previous.spec.externallyManaged
            && current.spec.nicSelector.pfNames == ["eth0#0-3"]
            && previous.spec.nicSelector.pfNames == ["eth0#4-7", "eth0#0-1"] ==>
              ValidatePolicyForNodePolicy(current, previous)
              == (if ValidateRootDevices(current, previous).Some? then ValidateRootDevices(current, previous)
                  else ValidateExcludeTopologyField(current, previous))
              && ValidatePolicyForNodePolicyIntended(current, previous).Some?
  {
    if PfNamesCompatible(current, previous) {
      CompatibleAdmittedAsWritten(current, previous);
    }
    if current.name != previous.name
       && current.spec.externallyManaged == previous.spec.externallyManaged
       && current.spec.nicSelector.pfNames == ["eth0#0-3"]
       && previous.spec.nicSelector.pfNames == ["eth0#4-7", "eth0#0-1"] {
      PfNamesFirstPairOnly(current, previous);
    }
  }

  // -------------------------------------------------- dynamic validation

  /** The first node state named after the node. */
  function FindState(states: seq<NodeState>, name: string): (r: Option<NodeState>)
    ensures r.Some? ==> r.value in states && r.value.name == name
    ensures r.None? ==> forall i :: 0 <= i < |states| ==> states[i].name != name
  {
    if states == [] then None
    else if states[0].name == name then Some(states[0])
    else FindState(states[1..], name)
  }

  /** The first conflict with another policy that selects the node. */
  function FirstConflict(cr: Policy, policies: seq<Policy>, node: Node, selected: (Policy, Node) -> bool): (r: Option<Rejection>)
    ensures r.None? <==> forall i :: 0 <= i < |policies| && policies[i].name != cr.name && selected(policies[i], node)
                                    ==> ValidatePolicyForNodePolicy(cr, policies[i]).None?
    ensures r.Some? ==> NodeLevel(r.value)
  {
    if policies == [] then None
    else if policies[0].name != cr.name && selected(policies[0], node)
            && ValidatePolicyForNodePolicy(cr, policies[0]).Some? then
      ValidatePolicyForNodePolicy(cr, policies[0])
    else
      var r := FirstConflict(cr, policies[1..], node, selected);
      assert forall i :: 1 <= i < |policies| ==> policies[i] == policies[1..][i - 1];
      r
  }

  /** What one selected node says about the policy: its state's interface
      checks first, then the conflicts with other policies. */
  function NodeRejection(cr: Policy, node: Node, states: seq<NodeState>, policies: seq<Policy>, env: Env,
                         selected: (Policy, Node) -> bool): Option<Rejection>
  {
    match FindState(states, node.name)
    case Some(ns) =>
      if FirstInterfaceRejection(cr, ns.interfaces, node, env).Some? then
        FirstInterfaceRejection(cr, ns.interfaces, node, env)
      else FirstConflict(cr, policies, node, selected)
    case None => FirstConflict(cr, policies, node, selected)
  }

  /** Some interface of the node's state matches the selector. */
  predicate NodeHasMatch(cr: Policy, node: Node, states: seq<NodeState>, env: Env)
  {
    FindState(states, node.name).Some?
    && AnySelected(cr.spec.nicSelector, FindState(states, node.name).value.interfaces, node, env)
  }

  /** The log lines kept for a node: those of its state, when it has one in
      which nothing matched and which has interfaces. */
  function NodeLog(cr: Policy, node: Node, states: seq<NodeState>, env: Env): seq<NicLogEntry>
  {
    match FindState(states, node.name)
    case Some(ns) =>
      if AnySelected(cr.spec.nicSelector, ns.interfaces, node, env) then []
      else MismatchLog(cr.spec.nicSelector, ns.interfaces, node, env)
    case None => []
  }

  lemma FindStateStep(states: seq<NodeState>, i: int, name: string)
    requires 0 <= i < |states|
    ensures FindState(states[i..], name)
            == if states[i].name == name then Some(states[i]) else FindState(states[i + 1..], name)
  {
    assert states[i..][1..] == states[i + 1..];
  }

  lemma FirstConflictStep(cr: Policy, policies: seq<Policy>, k: int, node: Node, selected: (Policy, Node) -> bool)
    requires 0 <= k < |policies|
    ensures FirstConflict(cr, policies[k..], node, selected)
            == if policies[k].name != cr.name && selected(policies[k], node)
                  && ValidatePolicyForNodePolicy(cr, policies[k]).Some? then ValidatePolicyForNodePolicy(cr, policies[k])
               else FirstConflict(cr, policies[k + 1..], node, selected)
  {
    assert policies[k..][1..] == policies[k + 1..];
  }

  /** `validatePolicyForNodeStateAndPolicy`: checks the node's state (the
      first one bearing its name), records its log lines in `errors`, then
      checks the policy against every other policy selecting the node. */
  method ValidatePolicyForNodeStateAndPolicy(states: seq<NodeState>, policies: seq<Policy>, node: Node, cr: Policy,
                                             env: Env, selected: (Policy, Node) -> bool,
                                             errors: map<string, seq<NicLogEntry>>, interfaceSelected: bool)
    returns (errors': map<string, seq<NicLogEntry>>, interfaceSelected': bool, err: Option<Rejection>)
    ensures err == NodeRejection(cr, node, states, policies, env, selected)
    ensures interfaceSelected' == (interfaceSelected || NodeHasMatch(cr, node, states, env))
    ensures err.None? ==>
              errors' == if |NodeLog(cr, node, states, env)| > 0 then errors[node.name := NodeLog(cr, node, states, env)]
                         else errors
  {
    errors' := errors;
    interfaceSelected' := interfaceSelected;
    var i := 0;
    while i < |states|
      invariant 0 <= i <= |states|
      invariant FindState(states, node.name) == FindState(states[i..], node.name)
    {
      FindStateStep(states, i, node.name);
      var ns := states[i];
      if ns.name == node.name {
        var log;
        log, interfaceSelected', err := ValidatePolicyForNodeState(cr, ns, node, env, interfaceSelected);
        if err.Some? {
          return;
        }
        if |log| > 0 {
          errors' := errors'[ns.name := log];
        }
        break;
      }
      i := i + 1;
    }
    var k := 0;
    while k < |policies|
      invariant 0 <= k <= |policies|
      invariant FirstConflict(cr, policies, node, selected) == FirstConflict(cr, policies[k..], node, selected)
    {
      FirstConflictStep(cr, policies, k, node, selected);
      var np := policies[k];
      if np.name != cr.name && selected(np, node) {
        err := ValidatePolicyForNodePolicy(cr, np);
        if err.Some? {
          return;
        }
      }
      k := k + 1;
    }
    err := None;
  }

  /** The first selected node that rejects the policy. */
  function FirstNodeRejection(cr: Policy, nodes: seq<Node>, states: seq<NodeState>, policies: seq<Policy>, env: Env,
                              selected: (Policy, Node) -> bool): (r: Option<Rejection>)
    ensures r.None? <==> forall i :: 0 <= i < |nodes| && selected(cr, nodes[i]) ==>
                                     NodeRejection(cr, nodes[i], states, policies, env, selected).None?
    ensures r.Some? ==> NodeLevel(r.value)
  {
    if nodes == [] then None
    else if selected(cr, nodes[0]) && NodeRejection(cr, nodes[0], states, policies, env, selected).Some? then
      NodeRejection(cr, nodes[0], states, policies, env, selected)
    else
      var r := FirstNodeRejection(cr, nodes[1..], states, policies, env, selected);
      assert forall i :: 1 <= i < |nodes| ==> nodes[i] == nodes[1..][i - 1];
      r
  }

  predicate AnyNodeSelected(cr: Policy, nodes: seq<Node>, selected: (Policy, Node) -> bool)
  {
    exists i :: 0 <= i < |nodes| && selected(cr, nodes[i])
  }

  predicate AnyInterfaceSelected(cr: Policy, nodes: seq<Node>, states: seq<NodeState>, env: Env,
                                 selected: (Policy, Node) -> bool)
  {
    exists i :: 0 <= i < |nodes| && selected(cr, nodes[i]) && NodeHasMatch(cr, nodes[i], states, env)
  }

  /** The verdict of the dynamic checks: a rejection from a selected node,
      else "no matched node", else "no supported NIC". */
  function DynamicVerdict(cr: Policy, nodes: seq<Node>, states: seq<NodeState>, policies: seq<Policy>, env: Env,
                          selected: (Policy, Node) -> bool): Option<Rejection>
  {
    var first := FirstNodeRejection(cr, nodes, states, policies, env, selected);
    if first.Some? then first
    else if !AnyNodeSelected(cr, nodes, selected) then Some(NoMatchedNode)
    else if !AnyInterfaceSelected(cr, nodes, states, env, selected) then Some(NoSupportedNic)
    else None
  }

  /** "No matched node" is reported exactly when no node is selected, and
      it takes precedence over "no supported NIC"; "no supported NIC" means
      that no interface of any selected node matched; admission means some
      selected node has a matching interface and no selected node objects. */
  lemma DynamicVerdictMeaning(cr: Policy, nodes: seq<Node>, states: seq<NodeState>, policies: seq<Policy>, env: Env,
                              selected: (Policy, Node) -> bool)
    ensures DynamicVerdict(cr, nodes, states, policies, env, selected) == Some(NoMatchedNode)
            <==> !AnyNodeSelected(cr, nodes, selected)
    ensures DynamicVerdict(cr, nodes, states, policies, env, selected) == Some(NoSupportedNic) ==>
              AnyNodeSelected(cr, nodes, selected) && !AnyInterfaceSelected(cr, nodes, states, env, selected)
    ensures DynamicVerdict(cr, nodes, states, policies, env, selected).None? ==>
              AnyInterfaceSelected(cr, nodes, states, env, selected)
              && forall i :: 0 <= i < |nodes| && selected(cr, nodes[i]) ==>
                   NodeRejection(cr, nodes[i], states, policies, env, selected).None?
  {
    var first := FirstNodeRejection(cr, nodes, states, policies, env, selected);
    if !AnyNodeSelected(cr, nodes, selected) {
      assert first.None?;
    }
  }

  /** Log lines are kept only for a node none of whose interfaces matched. */
  lemma NodeLogOnlyWithoutMatch(cr: Policy, node: Node, states: seq<NodeState>, env: Env)
    ensures |NodeLog(cr, node, states, env)| > 0 ==> !NodeHasMatch(cr, node, states, env)
  {
  }

  lemma FirstNodeRejectionStep(cr: Policy, nodes: seq<Node>, i: int, states: seq<NodeState>, policies: seq<Policy>,
                               env: Env, selected: (Policy, Node) -> bool)
    requires 0 <= i < |nodes|
    ensures FirstNodeRejection(cr, nodes[i..], states, policies, env, selected)
            == if selected(cr, nodes[i]) && NodeRejection(cr, nodes[i], states, policies, env, selected).Some? then
                 NodeRejection(cr, nodes[i], states, policies, env, selected)
               else FirstNodeRejection(cr, nodes[i + 1..], states, policies, env, selected)
  {
    assert nodes[i..][1..] == nodes[i + 1..];
  }

  lemma AnyNodeSelectedSnoc(cr: Policy, nodes: seq<Node>, i: int, selected: (Policy, Node) -> bool)
    requires 0 <= i < |nodes|
    ensures AnyNodeSelected(cr, nodes[..i + 1], selected)
            == (AnyNodeSelected(cr, nodes[..i], selected) || selected(cr, nodes[i]))
  {
    var pre, post := nodes[..i], nodes[..i + 1];
    if AnyNodeSelected(cr, post, selected) {
      var j :| 0 <= j < i + 1 && selected(cr, post[j]);
      if j < i { assert selected(cr, pre[j]); }
    }
    if selected(cr, nodes[i]) { assert selected(cr, post[i]); }
    if AnyNodeSelected(cr, pre, selected) {
      var j :| 0 <= j < i && selected(cr, pre[j]);
      assert selected(cr, post[j]);
    }
  }

  lemma AnyInterfaceSelectedSnoc(cr: Policy, nodes: seq<Node>, i: int, states: seq<NodeState>, env: Env,
                                 selected: (Policy, Node) -> bool)
    requires 0 <= i < |nodes|
    ensures AnyInterfaceSelected(cr, nodes[..i + 1], states, env, selected)
            == (AnyInterfaceSelected(cr, nodes[..i], states, env, selected)
                || (selected(cr, nodes[i]) && NodeHasMatch(cr, nodes[i], states, env)))
  {
    var pre, post := nodes[..i], nodes[..i + 1];
    if AnyInterfaceSelected(cr, post, states, env, selected) {
      var j :| 0 <= j < i + 1 && selected(cr, post[j]) && NodeHasMatch(cr, post[j], states, env);
      if j < i { assert selected(cr, pre[j]) && NodeHasMatch(cr, pre[j], states, env); }
    }
    if selected(cr, nodes[i]) && NodeHasMatch(cr, nodes[i], states, env) {
      assert selected(cr, post[i]) && NodeHasMatch(cr, post[i], states, env);
    }
    if AnyInterfaceSelected(cr, pre, states, env, selected) {
      var j :| 0 <= j < i && selected(cr, pre[j]) && NodeHasMatch(cr, pre[j], states, env);
      assert selected(cr, post[j]) && NodeHasMatch(cr, post[j], states, env);
    }
  }

  /** `dynamicValidateSriovNetworkNodePolicy`: runs the node checks over the
      selected nodes, tracking the two flags, then reports "no matched node"
      before "no supported NIC". The log map holds lines only for selected
      nodes on which no interface matched. */
  method DynamicValidate(cr: Policy, nodes: seq<Node>, states: seq<NodeState>, policies: seq<Policy>, env: Env,
                         selected: (Policy, Node) -> bool)
    returns (admit: bool, err: Option<Rejection>, errors: map<string, seq<NicLogEntry>>)
    ensures admit <==> err.None?
    ensures err == DynamicVerdict(cr, nodes, states, policies, env, selected)
    ensures forall name :: name in errors ==>
              exists i :: 0 <= i < |nodes| && selected(cr, nodes[i]) && nodes[i].name == name
                          && !NodeHasMatch(cr, nodes[i], states, env)
  {
    var nodesSelected := false;
    var interfaceSelected := false;
    errors := map[];
    var i := 0;
    while i < |nodes|
      invariant 0 <= i <= |nodes|
      invariant FirstNodeRejection(cr, nodes, states, policies, env, selected)
                == FirstNodeRejection(cr, nodes[i..], states, policies, env, selected)
      invariant nodesSelected == AnyNodeSelected(cr, nodes[..i], selected)
      invariant interfaceSelected == AnyInterfaceSelected(cr, nodes[..i], states, env, selected)
      invariant forall name :: name in errors ==>
                  exists j :: 0 <= j < |nodes| && selected(cr, nodes[j]) && nodes[j].name == name
                              && !NodeHasMatch(cr, nodes[j], states, env)
    {
      var node := nodes[i];
      FirstNodeRejectionStep(cr, nodes, i, states, policies, env, selected);
      AnyNodeSelectedSnoc(cr, nodes, i, selected);
      AnyInterfaceSelectedSnoc(cr, nodes, i, states, env, selected);
      if selected(cr, node) {
        nodesSelected := true;
        var errors';
        errors', interfaceSelected, err := ValidatePolicyForNodeStateAndPolicy(states, policies, node, cr, env, selected,
                                                                               errors, interfaceSelected);
        if err.Some? {
          return false, err, errors;
        }
        NodeLogOnlyWithoutMatch(cr, node, states, env);
        errors := errors';
      }
      i := i + 1;
    }
    assert nodes[..i] == nodes;
    if !nodesSelected {
      return false, Some(NoMatchedNode), errors;
    }
    if !interfaceSelected {
      return false, Some(NoSupportedNic), errors;
    }
    return true, None, errors;
  }

  /** `validateSriovNetworkNodePolicy`: the default policy in the operator
      namespace is always admitted; a policy in another namespace draws a
      warning; a deletion is admitted; otherwise the static checks, then the
      dynamic ones, decide. */
  method ValidateSriovNetworkNodePolicy(cr: Policy, operation: Operation, env: Env, nodes: seq<Node>,
                                        states: seq<NodeState>, policies: seq<Policy>,
                                        selected: (Policy, Node) -> bool)
    returns (v: Verdict)
    ensures v.admit <==> v.err.None?
    ensures cr.name == DefaultPolicyName && cr.namespace == env.namespace ==> v == Verdict(true, [], None)
    ensures !(cr.name == DefaultPolicyName && cr.namespace == env.namespace) ==>
              && v.warnings == (if cr.namespace != env.namespace then [PolicyNotInOperatorNamespace(cr.name, env.namespace)] else [])
              && (operation == Delete ==> v.admit)
              && (operation != Delete ==>
                    v.err == if StaticValidate(cr.spec, env).Some? then StaticValidate(cr.spec, env)
                             else DynamicVerdict(cr, nodes, states, policies, env, selected))
  {
    if cr.name == DefaultPolicyName && cr.namespace == env.namespace {
      return Verdict(true, [], None);
    }
    var warnings: seq<Warning> := [];
    if cr.namespace != env.namespace {
      warnings := warnings + [PolicyNotInOperatorNamespace(cr.name, env.namespace)];
    }
    if operation == Delete {
      return Verdict(true, warnings, None);
    }
    var staticErr := StaticValidate(cr.spec, env);
    if staticErr.Some? {
      return Verdict(false, warnings, staticErr);
    }
    var admit, err, _ := DynamicValidate(cr, nodes, states, policies, env, selected);
    return Verdict(admit, warnings, err);
  }

  // ----------------------------------------- operator config, pool config

  datatype OperatorConfig = OperatorConfig(name: string, namespace: string, disableDrain: bool)

  /** The outcome of reading an object from the API server. */
  datatype Fetched<T> = Found(value: T) | NotFound | ReadFailed

  /** The first node state whose sync is in progress. */
  function FirstUpdatingNode(states: seq<NodeState>): (r: Option<string>)
    ensures r.Some? <==> exists i :: 0 <= i < |states| && states[i].syncStatus == SyncStatusInProgress
    ensures r.Some? ==> exists i :: 0 <= i < |states| && states[i].syncStatus == SyncStatusInProgress
                                    && states[i].name == r.value
  {
    if states == [] then None
    else if states[0].syncStatus == SyncStatusInProgress then Some(states[0].name)
    else
      var r := FirstUpdatingNode(states[1..]);
      assert forall i :: 1 <= i < |states| ==> states[i] == states[1..][i - 1];
      r
  }

  /** `validateSriovOperatorConfigDisableDrain`: turning drain off from on is
      refused while some node is updating. */
  function ValidateDisableDrain(cr: OperatorConfig, previous: Fetched<OperatorConfig>, states: seq<NodeState>): (r: Option<Rejection>)
    ensures !cr.disableDrain ==> r.None?
    ensures previous.NotFound? ==> r.None?
    ensures cr.disableDrain && previous.ReadFailed? ==> r == Some(PreviousConfigUnreadable)
    ensures previous.Found? && previous.value.disableDrain == cr.disableDrain ==> r.None?
    ensures cr.disableDrain && previous.Found? && !previous.value.disableDrain ==>
              (r.Some? <==> exists i :: 0 <= i < |states| && states[i].syncStatus == SyncStatusInProgress)
    ensures r.Some? && r.value.DrainDisableWhileUpdating? ==>
              exists i :: 0 <= i < |states| && states[i].syncStatus == SyncStatusInProgress
                          && states[i].name == r.value.node
  {
    if !cr.disableDrain then None
    else
      match previous
      case NotFound => None
      case ReadFailed => Some(PreviousConfigUnreadable)
      case Found(prev) =>
        if prev.disableDrain == cr.disableDrain then None
        else
          match FirstUpdatingNode(states)
          case Some(n) => Some(DrainDisableWhileUpdating(n))
          case None => None
  }

  /** `validateSriovOperatorConfig`: deletion is admitted; only the default
      config in the operator namespace is accepted; disabling drain draws a
      warning and must pass the drain-disable rule. */
  function ValidateSriovOperatorConfig(cr: OperatorConfig, operation: Operation, env: Env,
                                       previous: Fetched<OperatorConfig>, states: seq<NodeState>): (v: Verdict)
    ensures v.admit <==> v.err.None?
    ensures operation == Delete ==> v.admit && v.warnings == []
    ensures operation != Delete && (cr.name != DefaultConfigName || cr.namespace != env.namespace) ==>
              v.err == Some(NotDefaultOperatorConfig) && v.warnings == []
    ensures operation != Delete && cr.name == DefaultConfigName && cr.namespace == env.namespace ==>
              v.err == ValidateDisableDrain(cr, previous, states)
              && v.warnings == (if cr.disableDrain then [DrainDisabled] else [])
    ensures operation != Delete && v.admit ==>
              (|| !cr.disableDrain
               || previous.NotFound?
               || (previous.Found? && previous.value.disableDrain)
               || forall i :: 0 <= i < |states| ==> states[i].syncStatus != SyncStatusInProgress)
  {
    if operation == Delete then Verdict(true, [], None)
    else if cr.name != DefaultConfigName || cr.namespace != env.namespace then Verdict(false, [], Some(NotDefaultOperatorConfig))
    else
      var warnings := if cr.disableDrain then [DrainDisabled] else [];
      var err := ValidateDisableDrain(cr, previous, states);
      Verdict(err.None?, warnings, err)
  }

  datatype IntOrString = IntValue(i: int) | StringValue(s: string)

  datatype PoolConfig = PoolConfig(maxUnavailable: Option<IntOrString>, hasNodeSelector: bool,
                                   ovsHardwareOffloadConfigName: string)

  /** `validateSriovNetworkPoolConfig`: parallel-drain settings exclude an
      OVS hardware offload config, and maxUnavailable must resolve;
      `resolves` stands for `MaxUnavailable(0)` returning no error. */
  function ValidateSriovNetworkPoolConfig(cr: PoolConfig, operation: Operation, resolves: IntOrString -> bool): (v: Verdict)
    ensures v.admit <==> v.err.None?
    ensures v.admit <==>
              && !((cr.maxUnavailable.Some? || cr.hasNodeSelector) && cr.ovsHardwareOffloadConfigName != "")
              && (cr.maxUnavailable.Some? ==> resolves(cr.maxUnavailable.value))
  {
    if (cr.maxUnavailable.Some? || cr.hasNodeSelector) && cr.ovsHardwareOffloadConfigName != "" then
      Verdict(false, [], Some(ParallelismWithOvsOffload))
    else if cr.maxUnavailable.Some? && !resolves(cr.maxUnavailable.value) then
      Verdict(false, [], Some(InvalidMaxUnavailable))
    else Verdict(true, [], None)
  }
}
