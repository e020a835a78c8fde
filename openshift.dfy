/** The drain hooks of the OpenShift platform
    (pkg/platforms/openshift/openshift.go): before a node is drained, the
    machine config pool that owns it is marked and paused so that the machine
    config operator does not reboot nodes under the drain; after the last
    node of the pool finishes, the pool is unpaused and marked idle again.

    The API server is the `Coordinator`'s store: the pools, the machine
    configs and the nodes each pool selects. Every store call is one request,
    and request number `k` fails exactly when `k` is in `faults`, so every
    error path of the source is reachable. Writes to pools are recorded in an
    event log, and the pools are at all times the replay of that log. */
module OpenShift {

  import opened Base
  import Json

  /** The operator's pause annotation on a pool. */
  datatype PauseMark = MarkIdle | MarkPaused | MarkOther(value: string)

  /** A node's drain-state annotation. */
  datatype DrainMark = DrainIdle | DrainOther(value: string)

  datatype MachineConfigPool = MachineConfigPool(
    pauseMark: Option<PauseMark>,
    paused: bool,
    specConfig: string,
    statusConfig: string)

  datatype OwnerRef = OwnerRef(kind: string, name: string)

  /** A node: its desired machine config annotation and its drain mark. */
  datatype ClusterNode = ClusterNode(name: string, desiredConfig: Option<string>, drainMark: Option<DrainMark>)

  datatype Flavor = FlavorDefault | FlavorHypershift

  datatype DrainError =
    | NotOpenshift
    | HypershiftHasNoMachineConfig
    | NoDesiredConfig(node: string)
    | MachineConfigUnreadable(config: string)
    | NoOwningPool
    | PoolNotFound(pool: string)
    | RequestFailed

  /** A change of a pool in the store. `RolloutStarted` is not written by
      the hooks: it records the machine config operator moving the pool to a
      new desired config while a hook is running. */
  datatype Event =
    | SetPauseMark(pool: string, mark: PauseMark)
    | SetPaused(pool: string, paused: bool)
    | RolloutStarted(pool: string, config: string)

  const PoolOwnerKind := "MachineConfigPool"

  function ApplyToPool(p: MachineConfigPool, e: Event): MachineConfigPool
  {
    match e
    case SetPauseMark(_, mark) => p.(pauseMark := Some(mark))
    case SetPaused(_, paused) => p.(paused := paused)
    case RolloutStarted(_, config) => p.(specConfig := config)
  }

  function ApplyEvent(pools: map<string, MachineConfigPool>, e: Event): map<string, MachineConfigPool>
  {
    if e.pool in pools then pools[e.pool := ApplyToPool(pools[e.pool], e)] else pools
  }

  /** The store after a log of events. */
  function Replay(pools: map<string, MachineConfigPool>, events: seq<Event>): map<string, MachineConfigPool>
  {
    if events == [] then pools else ApplyEvent(Replay(pools, events[..|events| - 1]), events[|events| - 1])
  }

  /** One pool after a log of events that all concern it. */
  function RunPool(p: MachineConfigPool, events: seq<Event>): MachineConfigPool
  {
    if events == [] then p else ApplyToPool(RunPool(p, events[..|events| - 1]), events[|events| - 1])
  }

  /** Replaying events about one pool changes that pool as `RunPool` says
      and no other pool. */
  lemma {:induction false} ReplayOnePool(pools: map<string, MachineConfigPool>, name: string, events: seq<Event>)
    requires name in pools
    requires forall i :: 0 <= i < |events| ==> events[i].pool == name
    ensures Replay(pools, events) == pools[name := RunPool(pools[name], events)]
  {
    if events != [] {
      var front := events[..|events| - 1];
      assert forall i :: 0 <= i < |front| ==> front[i] == events[i];
      ReplayOnePool(pools, name, front);
    }
  }

  /** What a hook does when no request fails: its verdict and the events it
      causes, in order. */
  datatype Plan = Plan(ready: bool, events: seq<Event>)

  /** The decision table of `OpenshiftBeforeDrainNode` on the pool `pool`
      read from the store. `rollout` is the desired config the machine config
      operator moves the pool to between the pause and the re-read, if any. */
  function BeforeDrainPlan(name: string, pool: MachineConfigPool, rollout: Option<string>): Plan
  {
    if pool.pauseMark == Some(MarkPaused) then
      if pool.paused then Plan(true, [])
      else if pool.specConfig == "" || pool.statusConfig == "" || pool.specConfig != pool.statusConfig then Plan(false, [])
      else Plan(true, [SetPaused(name, true)])
    else if pool.specConfig != pool.statusConfig then Plan(false, [])
    else
      var pausing := [SetPauseMark(name, MarkPaused), SetPaused(name, true)]
                     + (if rollout.Some? then [RolloutStarted(name, rollout.value)] else []);
      if rollout.Some? && rollout.value != pool.statusConfig then
        Plan(false, pausing + [SetPaused(name, false), SetPauseMark(name, MarkIdle)])
      else Plan(true, pausing)
  }

  predicate Draining(n: ClusterNode)
  {
    n.drainMark.Some? && n.drainMark.value != DrainIdle
  }

  /** Some node of the pool other than `self` is still draining. */
  predicate SomePeerDraining(peers: seq<ClusterNode>, self: string)
  {
    exists i :: 0 <= i < |peers| && peers[i].name != self && Draining(peers[i])
  }

  /** The decision table of `OpenshiftAfterCompleteDrainNode`: only the last
      node of a paused pool to finish unpauses it, then marks it idle. */
  function AfterDrainPlan(name: string, pool: MachineConfigPool, peers: seq<ClusterNode>, self: string): Plan
  {
    if pool.pauseMark.None? || pool.pauseMark == Some(MarkIdle) then Plan(true, [])
    else if SomePeerDraining(peers, self) then Plan(true, [])
    else Plan(true, [SetPaused(name, false), SetPauseMark(name, MarkIdle)])
  }

  /** Every event of a plan concerns the pool it was made for. */
  lemma PlansTouchOnePool(name: string, pool: MachineConfigPool, rollout: Option<string>,
                          peers: seq<ClusterNode>, self: string)
    ensures var b := BeforeDrainPlan(name, pool, rollout).events;
            forall i :: 0 <= i < |b| ==> b[i].pool == name
    ensures var a := AfterDrainPlan(name, pool, peers, self).events;
            forall i :: 0 <= i < |a| ==> a[i].pool == name
  {
  }

  lemma RunPoolPrefix(p: MachineConfigPool, events: seq<Event>, k: int)
    requires 0 < k <= |events|
    ensures RunPool(p, events[..k]) == ApplyToPool(RunPool(p, events[..k - 1]), events[k - 1])
  {
    assert events[..k][..k - 1] == events[..k - 1];
  }

  /** When `BeforeDrain` reports the pool ready, the pool is paused and
      carries the operator's mark; when it backs out after pausing, the pause
      is undone and the mark is idle. */
  lemma BeforeDrainOutcome(name: string, pool: MachineConfigPool, rollout: Option<string>)
    ensures var plan := BeforeDrainPlan(name, pool, rollout);
            var after := RunPool(pool, plan.events);
            && (plan.ready ==> after.paused && after.pauseMark == Some(MarkPaused))
            && (!plan.ready && plan.events != [] ==> !after.paused && after.pauseMark == Some(MarkIdle))
            && (!plan.ready && plan.events == [] ==> after == pool)
  {
    var e := BeforeDrainPlan(name, pool, rollout).events;
    assert e[..0] == [];
    if |e| >= 1 { RunPoolPrefix(pool, e, 1); }
    if |e| >= 2 { RunPoolPrefix(pool, e, 2); }
    if |e| >= 3 { RunPoolPrefix(pool, e, 3); }
    if |e| >= 4 { RunPoolPrefix(pool, e, 4); }
    if |e| >= 5 { RunPoolPrefix(pool, e, 5); }
    assert e[..|e|] == e;
  }

  /** Calling `BeforeDrain` again on a pool it reported ready does nothing
      and reports ready again, whatever the machine config operator does. */
  lemma BeforeDrainIdempotent(name: string, pool: MachineConfigPool, rollout: Option<string>, rollout': Option<string>)
    requires BeforeDrainPlan(name, pool, rollout).ready
    ensures BeforeDrainPlan(name, RunPool(pool, BeforeDrainPlan(name, pool, rollout).events), rollout') == Plan(true, [])
  {
    BeforeDrainOutcome(name, pool, rollout);
  }

  /** The last node of a paused pool to finish its drain leaves the pool
      unpaused and marked idle, and a second call then does nothing. */
  lemma AfterDrainOutcome(name: string, pool: MachineConfigPool, peers: seq<ClusterNode>, self: string)
    requires pool.pauseMark.Some? && pool.pauseMark != Some(MarkIdle)
    requires !SomePeerDraining(peers, self)
    ensures var after := RunPool(pool, AfterDrainPlan(name, pool, peers, self).events);
            && !after.paused && after.pauseMark == Some(MarkIdle)
            && AfterDrainPlan(name, after, peers, self) == Plan(true, [])
  {
    var e := AfterDrainPlan(name, pool, peers, self).events;
    assert e[..1][..0] == [];
  }

  /** Two nodes A and B of a paused pool, both draining: A finishing first
      leaves the pool paused; once B's mark is idle, A finishing unpauses
      the pool and marks it idle. */
  lemma AfterDrainTwoNodes(name: string, pool: MachineConfigPool, a: ClusterNode, b: ClusterNode)
    requires pool.pauseMark == Some(MarkPaused) && pool.paused
    requires a.name != b.name && Draining(a) && Draining(b)
    ensures AfterDrainPlan(name, pool, [a, b], a.name) == Plan(true, [])
    ensures var b' := b.(drainMark := Some(DrainIdle));
            var plan := AfterDrainPlan(name, pool, [a, b'], a.name);
            plan.ready && !RunPool(pool, plan.events).paused && RunPool(pool, plan.events).pauseMark == Some(MarkIdle)
  {
    assert [a, b][1].name != a.name && Draining([a, b][1]);
    var b' := b.(drainMark := Some(DrainIdle));
    assert !SomePeerDraining([a, b'], a.name);
    AfterDrainOutcome(name, pool, [a, b'], a.name);
  }

  /** The pool as a JSON document: its spec and status configurations and
      `spec.paused`. */
  function PoolDocument(p: MachineConfigPool): map<string, Json.Value>
  {
    map["spec" := Json.Object(map["paused" := Json.Bool(p.paused),
                                  "configuration" := Json.Object(map["name" := Json.String(p.specConfig)])]),
        "status" := Json.Object(map["configuration" := Json.Object(map["name" := Json.String(p.statusConfig)])])]
  }

  /** `ChangeMachineConfigPoolPause` sends the merge patch
      `{"spec":{"paused":b}}`; on the pool's document its effect is exactly
      the `SetPaused` event. */
  lemma PausePatchIsSetPaused(p: MachineConfigPool, name: string, b: bool)
    ensures Json.MergePatch(Json.Object(PoolDocument(p)), Json.PausePatch(b))
         == Json.Object(PoolDocument(ApplyToPool(p, SetPaused(name, b))))
  {
    var doc := PoolDocument(p);
    Json.PausePatchEffect(doc, b);
    var spec := Json.MembersOf(Json.Member(doc, "spec"));
    var after := PoolDocument(p.(paused := b));
    assert spec["paused" := Json.Bool(b)] == Json.MembersOf(after["spec"]);
    assert doc["spec" := Json.Object(spec["paused" := Json.Bool(b)])] == after;
  }

  /** The first owner reference of kind MachineConfigPool. */
  function FirstPoolOwner(owners: seq<OwnerRef>): (r: Option<string>)
    ensures r.Some? <==> exists i :: 0 <= i < |owners| && owners[i].kind == PoolOwnerKind
    ensures r.Some? ==> exists i :: 0 <= i < |owners| && owners[i].kind == PoolOwnerKind && owners[i].name == r.value
                                    && forall j :: 0 <= j < i ==> owners[j].kind != PoolOwnerKind
  {
    if owners == [] then None
    else if owners[0].kind == PoolOwnerKind then Some(owners[0].name)
    else
      var r := FirstPoolOwner(owners[1..]);
      assert forall i :: 1 <= i < |owners| ==> owners[i] == owners[1..][i - 1];
      if r.Some? then
        var i :| 0 <= i < |owners[1..]| && owners[1..][i].kind == PoolOwnerKind && owners[1..][i].name == r.value
                 && forall j :: 0 <= j < i ==> owners[1..][j].kind != PoolOwnerKind;
        assert owners[i + 1].kind == PoolOwnerKind && forall j :: 0 <= j < i + 1 ==> owners[j].kind != PoolOwnerKind;
        r
      else r
  }

  /** No request numbered `from` .. `from + count - 1` fails. */
  predicate NoFaults(faults: set<nat>, from: nat, count: nat)
  {
    forall r: nat :: from <= r < from + count ==> r !in faults
  }

  /** The events a hook left behind: all those of its plan when it reports
      no error, a prefix of them when a request failed. */
  ghost predicate FollowsPlan(plan: Plan, before: seq<Event>, after: seq<Event>, ready: bool, err: Option<DrainError>)
  {
    if err.None? then ready == plan.ready && after == before + plan.events
    else !ready && exists k :: 0 <= k <= |plan.events| && after == before + plan.events[..k]
  }

  /** A hook that failed before any write has followed any plan. */
  lemma NothingDoneFollowsAnyPlan(events: seq<Event>, err: DrainError)
    ensures forall plan :: FollowsPlan(plan, events, events, false, Some(err))
  {
    forall plan: Plan
      ensures FollowsPlan(plan, events, events, false, Some(err))
    {
      assert events == events + plan.events[..0];
    }
  }

  /** A hook whose request failed after the first `k` events of its plan
      has followed that plan. */
  lemma FailedAfter(plan: Plan, before: seq<Event>, k: nat, err: DrainError)
    requires k <= |plan.events|
    ensures FollowsPlan(plan, before, before + plan.events[..k], false, Some(err))
  {
  }

  /** Replaying a log in two parts is replaying the second part on the
      store the first part left. */
  lemma {:induction false} ReplayAppend(pools: map<string, MachineConfigPool>, first: seq<Event>, second: seq<Event>)
    ensures Replay(pools, first + second) == Replay(Replay(pools, first), second)
  {
    if second == [] {
      assert first + second == first;
    } else {
      var front := second[..|second| - 1];
      ReplayAppend(pools, first, front);
      assert (first + second)[..|first + second| - 1] == first + front;
    }
  }

  lemma ReplayTwo(pools: map<string, MachineConfigPool>, a: Event, b: Event)
    ensures Replay(pools, [a, b]) == ApplyEvent(ApplyEvent(pools, a), b)
  {
    assert [a][..0] == [];
    assert Replay(pools, [a]) == ApplyEvent(pools, a);
    assert [a, b][..1] == [a];
  }

  /** A store reached in two steps from `p0` is the replay on `p0` of the
      events both steps logged. */
  lemma ReplayChain(p0: map<string, MachineConfigPool>, e0: seq<Event>, p1: map<string, MachineConfigPool>,
                    e1: seq<Event>, p2: map<string, MachineConfigPool>, e2: seq<Event>)
    requires e0 <= e1 <= e2
    requires p1 == Replay(p0, e1[|e0|..]) && p2 == Replay(p1, e2[|e1|..])
    ensures p2 == Replay(p0, e2[|e0|..])
  {
    ReplayAppend(p0, e1[|e0|..], e2[|e1|..]);
    assert e1[|e0|..] + e2[|e1|..] == e2[|e0|..];
  }

  class Coordinator {
    const isOpenshift: bool
    const flavor: Flavor
    const machineConfigs: map<string, seq<OwnerRef>>
    /** The nodes each pool's node selector selects. */
    const poolNodes: map<string, seq<ClusterNode>>
    const faults: set<nat>
    var pools: map<string, MachineConfigPool>
    var events: seq<Event>
    var requests: nat
    /** The store when the coordinator was created. */
    ghost const initial: map<string, MachineConfigPool>

    /** The store is the replay of the event log on the initial store. */
    ghost predicate Valid()
      reads this
    {
      pools == Replay(initial, events)
    }

    /** A step that only appends to the log, and leaves the store at the
        replay of the appended events on the store before it, keeps the
        store the replay of the whole log: every hook is such a step. */
    twostate lemma StepKeepsValid()
      requires old(Valid()) && old(events) <= events
      requires pools == Replay(old(pools), events[|old(events)|..])
      ensures Valid()
    {
      var k := |old(events)|;
      ReplayAppend(initial, old(events), events[k..]);
      assert old(events) + events[k..] == events;
    }

    constructor (isOpenshift: bool, flavor: Flavor, machineConfigs: map<string, seq<OwnerRef>>,
                 poolNodes: map<string, seq<ClusterNode>>, pools: map<string, MachineConfigPool>, faults: set<nat>)
      ensures Valid()
      ensures this.isOpenshift == isOpenshift && this.flavor == flavor && this.machineConfigs == machineConfigs
      ensures this.poolNodes == poolNodes && this.pools == pools && this.faults == faults
      ensures events == [] && requests == 0 && this.initial == pools
    {
      this.isOpenshift := isOpenshift;
      this.flavor := flavor;
      this.machineConfigs := machineConfigs;
      this.poolNodes := poolNodes;
      this.faults := faults;
      this.pools := pools;
      this.initial := pools;
      this.events := [];
      this.requests := 0;
    }

    predicate IsOpenshiftCluster()
    {
      isOpenshift
    }

    predicate IsHypershift()
    {
      flavor == FlavorHypershift
    }

    /** `GetNodeMachinePoolName` when no request fails. */
    function PoolNameOf(node: ClusterNode): Result<string, DrainError>
    {
      if !IsOpenshiftCluster() then Err(NotOpenshift)
      else if IsHypershift() then Err(HypershiftHasNoMachineConfig)
      else
        match node.desiredConfig
        case None => Err(NoDesiredConfig(node.name))
        case Some(mc) =>
          if mc !in machineConfigs then Err(MachineConfigUnreadable(mc))
          else
            match FirstPoolOwner(machineConfigs[mc])
            case Some(pool) => Ok(pool)
            case None => Err(NoOwningPool)
    }

    /** The pool a hook works on, when the node resolves to one in `pools`. */
    function ResolvePool(node: ClusterNode, pools: map<string, MachineConfigPool>): Option<string>
    {
      if PoolNameOf(node).Ok? && PoolNameOf(node).value in pools then Some(PoolNameOf(node).value) else None
    }

    /** One request to the store. */
    method Request() returns (ok: bool)
      modifies this`requests
      ensures requests == old(requests) + 1
      ensures ok <==> old(requests) !in faults
    {
      ok := requests !in faults;
      requests := requests + 1;
    }

    method GetPool(name: string) returns (r: Result<MachineConfigPool, DrainError>)
      modifies this`requests
      ensures requests == old(requests) + 1
      ensures r == if old(requests) in faults then Err(RequestFailed)
                   else if name in pools then Ok(pools[name])
                   else Err(PoolNotFound(name))
    {
      var ok := Request();
      if !ok {
        return Err(RequestFailed);
      }
      if name !in pools {
        return Err(PoolNotFound(name));
      }
      return Ok(pools[name]);
    }

    /** Writes one event to the store. */
    method Write(e: Event) returns (ok: bool)
      modifies this`requests, this`pools, this`events
      ensures requests == old(requests) + 1
      ensures ok <==> old(requests) !in faults
      ensures events == if ok then old(events) + [e] else old(events)
      ensures pools == if ok then ApplyEvent(old(pools), e) else old(pools)
    {
      ok := Request();
      if ok {
        events := events + [e];
        pools := ApplyEvent(pools, e);
      }
    }

    /** Records the machine config operator moving a pool to a new desired
        config; this is not a request of the hooks. */
    method RecordRollout(name: string, config: string)
      modifies this`pools, this`events
      ensures events == old(events) + [RolloutStarted(name, config)]
      ensures pools == ApplyEvent(old(pools), RolloutStarted(name, config))
    {
      events := events + [RolloutStarted(name, config)];
      pools := ApplyEvent(pools, RolloutStarted(name, config));
    }

    /** `ChangeMachineConfigPoolPause`: the merge patch that sets
        `spec.paused` (see `PausePatchIsSetPaused`). */
    method ChangeMachineConfigPoolPause(name: string, pause: bool) returns (ok: bool)
      modifies this`requests, this`pools, this`events
      ensures requests == old(requests) + 1
      ensures ok <==> old(requests) !in faults
      ensures events == if ok then old(events) + [SetPaused(name, pause)] else old(events)
      ensures pools == if ok then ApplyEvent(old(pools), SetPaused(name, pause)) else old(pools)
    {
      ok := Write(SetPaused(name, pause));
    }

    /** `GetNodeMachinePoolName`: reads the node's desired machine config
        (one request) and returns its first owner of kind MachineConfigPool. */
    method GetNodeMachinePoolName(node: ClusterNode) returns (r: Result<string, DrainError>)
      modifies this`requests
      ensures var reaches := IsOpenshiftCluster() && !IsHypershift() && node.desiredConfig.Some?;
              && requests == old(requests) + (if reaches then 1 else 0)
              && r == if reaches && old(requests) in faults then Err(MachineConfigUnreadable(node.desiredConfig.value))
                      else PoolNameOf(node)
    {
      if !IsOpenshiftCluster() {
        return Err(NotOpenshift);
      }
      if IsHypershift() {
        return Err(HypershiftHasNoMachineConfig);
      }
      if node.desiredConfig.None? {
        return Err(NoDesiredConfig(node.name));
      }
      var mc := node.desiredConfig.value;
      var ok := Request();
      if !ok || mc !in machineConfigs {
        return Err(MachineConfigUnreadable(mc));
      }
      var owners := machineConfigs[mc];
      var i := 0;
      while i < |owners|
        invariant 0 <= i <= |owners|
        invariant FirstPoolOwner(owners) == FirstPoolOwner(owners[i..])
      {
        assert owners[i..][1..] == owners[i + 1..];
        if owners[i].kind == PoolOwnerKind {
          return Ok(owners[i].name);
        }
        i := i + 1;
      }
      return Err(NoOwningPool);
    }

    /** `OpenshiftBeforeDrainNode`. On a cluster that is not OpenShift, or is
        Hypershift, it reports ready and touches nothing. Otherwise it follows
        `BeforeDrainPlan` on the node's pool: all of it when no request fails
        (one request each for the machine config, the pool, every write and
        the re-read), a prefix of it when one does. */
    method BeforeDrain(node: ClusterNode, rollout: Option<string>) returns (ready: bool, err: Option<DrainError>)
      modifies this`requests, this`pools, this`events
      ensures old(events) <= events
      ensures pools == Replay(old(pools), events[|old(events)|..])
      ensures err.Some? ==> !ready
      ensures !IsOpenshiftCluster() || IsHypershift() ==>
                ready && err.None? && events == old(events) && requests == old(requests)
      ensures IsOpenshiftCluster() && !IsHypershift() ==>
                match ResolvePool(node, old(pools))
                case None => err.Some? && events == old(events)
                case Some(name) => FollowsPlan(BeforeDrainPlan(name, old(pools)[name], rollout), old(events), events, ready, err)
      ensures IsOpenshiftCluster() && !IsHypershift() && NoFaults(faults, old(requests), 7) ==>
                (err.None? <==> ResolvePool(node, old(pools)).Some?)
    {
      if !IsOpenshiftCluster() || IsHypershift() {
        return true, None;
      }
      var name := GetNodeMachinePoolName(node);
      if name.Err? {
        NothingDoneFollowsAnyPlan(events, name.error);
        return false, Some(name.error);
      }
      var poolName := name.value;
      var got := GetPool(poolName);
      if got.Err? {
        NothingDoneFollowsAnyPlan(events, got.error);
        return false, Some(got.error);
      }
      assert ResolvePool(node, old(pools)) == Some(poolName);
      ready, err := BeforeDrainOnPool(poolName, got.value, rollout);
    }

    /** The part of `OpenshiftBeforeDrainNode` after the pool is read. */
    method BeforeDrainOnPool(poolName: string, mcp: MachineConfigPool, rollout: Option<string>)
      returns (ready: bool, err: Option<DrainError>)
      requires poolName in pools && pools[poolName] == mcp
      modifies this`requests, this`pools, this`events
      ensures old(events) <= events
      ensures pools == Replay(old(pools), events[|old(events)|..])
      ensures err.Some? ==> !ready
      ensures FollowsPlan(BeforeDrainPlan(poolName, mcp, rollout), old(events), events, ready, err)
      ensures NoFaults(faults, old(requests), 5) ==> err.None?
    {
      ghost var e0 := events;
      ghost var plan := BeforeDrainPlan(poolName, mcp, rollout);
      if mcp.pauseMark == Some(MarkPaused) {
        if !mcp.paused {
          if mcp.specConfig == "" || mcp.statusConfig == "" || mcp.specConfig != mcp.statusConfig {
            return false, None;
          }
          var ok := ChangeMachineConfigPoolPause(poolName, true);
          if !ok {
            assert events == e0 + plan.events[..0];
            FailedAfter(plan, e0, 0, RequestFailed);
            return false, Some(RequestFailed);
          }
        }
        return true, None;
      }
      if mcp.specConfig != mcp.statusConfig {
        return false, None;
      }
      ready, err := PauseAndRecheck(poolName, mcp, rollout);
    }

    /** Annotates the pool as paused and then pauses it, in that order, so
        that the pool is never paused without the annotation. */
    method MarkAndPause(poolName: string, mcp: MachineConfigPool) returns (ok: bool)
      requires poolName in pools && pools[poolName] == mcp
      modifies this`requests, this`pools, this`events
      ensures ok <==> old(requests) !in faults && old(requests) + 1 !in faults
      ensures !ok ==> events == old(events) + if old(requests) in faults then [] else [SetPauseMark(poolName, MarkPaused)]
      ensures ok ==> && requests == old(requests) + 2
                     && events == old(events) + [SetPauseMark(poolName, MarkPaused), SetPaused(poolName, true)]
                     && poolName in pools && pools[poolName] == mcp.(pauseMark := Some(MarkPaused), paused := true)
      ensures pools == Replay(old(pools), events[|old(events)|..])
    {
      ghost var e0, p0 := events, pools;
      ok := Write(SetPauseMark(poolName, MarkPaused));
      if ok {
        ok := ChangeMachineConfigPoolPause(poolName, true);
        if ok {
          ReplayTwo(p0, SetPauseMark(poolName, MarkPaused), SetPaused(poolName, true));
          assert events[|e0|..] == [SetPauseMark(poolName, MarkPaused), SetPaused(poolName, true)];
        } else {
          assert events[|e0|..] == [SetPauseMark(poolName, MarkPaused)];
        }
      }
    }

    /** Marks and pauses a pool that was neither, then re-reads it and backs
        out if the machine config operator started a rollout meanwhile. */
    method PauseAndRecheck(poolName: string, mcp: MachineConfigPool, rollout: Option<string>)
      returns (ready: bool, err: Option<DrainError>)
      requires poolName in pools && pools[poolName] == mcp
      requires mcp.pauseMark != Some(MarkPaused) && mcp.specConfig == mcp.statusConfig
      modifies this`requests, this`pools, this`events
      ensures old(events) <= events
      ensures pools == Replay(old(pools), events[|old(events)|..])
      ensures err.Some? ==> !ready
      ensures FollowsPlan(BeforeDrainPlan(poolName, mcp, rollout), old(events), events, ready, err)
      ensures NoFaults(faults, old(requests), 5) ==> err.None?
    {
      ghost var e0, r0, p0 := events, requests, pools;
      ghost var plan := BeforeDrainPlan(poolName, mcp, rollout);
      assert plan.events[..2] == [SetPauseMark(poolName, MarkPaused), SetPaused(poolName, true)];
      if NoFaults(faults, r0, 5) {
        assert r0 !in faults && r0 + 1 !in faults && NoFaults(faults, r0 + 2, 3);
      }
      var ok := MarkAndPause(poolName, mcp);
      if !ok {
        if r0 in faults {
          assert events == e0 + plan.events[..0];
          FailedAfter(plan, e0, 0, RequestFailed);
        } else {
          assert events == e0 + plan.events[..1];
          FailedAfter(plan, e0, 1, RequestFailed);
        }
        assert !NoFaults(faults, r0, 5);
        ready, err := false, Some(RequestFailed);
      } else {
        if rollout.Some? {
          // The machine config operator acts between the pause and the re-read.
          ghost var p1, e1 := pools, events;
          RecordRollout(poolName, rollout.value);
          assert events[|e1|..] == [RolloutStarted(poolName, rollout.value)];
          assert plan.events[..3] == plan.events[..2] + [RolloutStarted(poolName, rollout.value)];
          ReplayChain(p0, e0, p1, e1, pools, events);
        }
        ghost var pm, em := pools, events;
        ready, err := Recheck(poolName, mcp, rollout, e0);
        ReplayChain(p0, e0, pm, em, pools, events);
      }
    }

    /** The re-read after the pause: when the machine config operator has
        moved the pool to a new desired config, the pause is undone and the
        mark set back to idle. */
    method Recheck(poolName: string, mcp: MachineConfigPool, rollout: Option<string>, ghost e0: seq<Event>)
      returns (ready: bool, err: Option<DrainError>)
      requires poolName in pools
      requires mcp.pauseMark != Some(MarkPaused) && mcp.specConfig == mcp.statusConfig
      requires events == e0 + BeforeDrainPlan(poolName, mcp, rollout).events[..if rollout.Some? then 3 else 2]
      requires pools[poolName].statusConfig == mcp.statusConfig
      requires pools[poolName].specConfig == if rollout.Some? then rollout.value else mcp.specConfig
      modifies this`requests, this`pools, this`events
      ensures old(events) <= events
      ensures pools == Replay(old(pools), events[|old(events)|..])
      ensures err.Some? ==> !ready
      ensures FollowsPlan(BeforeDrainPlan(poolName, mcp, rollout), e0, events, ready, err)
      ensures NoFaults(faults, old(requests), 3) ==> err.None?
    {
      ghost var plan := BeforeDrainPlan(poolName, mcp, rollout);
      ghost var k := if rollout.Some? then 3 else 2;
      var got := GetPool(poolName);
      if got.Err? {
        FailedAfter(plan, e0, k, got.error);
        return false, Some(got.error);
      }
      var reread := got.value;
      if reread.specConfig != reread.statusConfig {
        assert rollout.Some? && k == 3;
        assert plan.events == plan.events[..3] + [SetPaused(poolName, false), SetPauseMark(poolName, MarkIdle)];
        ghost var r1 := requests;
        var ok := UnpauseAndMarkIdle(poolName);
        if !ok {
          if r1 in faults {
            FailedAfter(plan, e0, k, RequestFailed);
          } else {
            assert events == e0 + plan.events[..k + 1];
            FailedAfter(plan, e0, k + 1, RequestFailed);
          }
          return false, Some(RequestFailed);
        }
        assert events == e0 + plan.events;
        return false, None;
      }
      assert events == e0 + plan.events;
      return true, None;
    }

    /** Unpauses the pool and then sets its annotation back to idle, in
        that order, as both hooks do when they release a pool. */
    method UnpauseAndMarkIdle(poolName: string) returns (ok: bool)
      modifies this`requests, this`pools, this`events
      ensures ok <==> old(requests) !in faults && old(requests) + 1 !in faults
      ensures !ok ==> events == old(events) + if old(requests) in faults then [] else [SetPaused(poolName, false)]
      ensures ok ==> && requests == old(requests) + 2
                     && events == old(events) + [SetPaused(poolName, false), SetPauseMark(poolName, MarkIdle)]
      ensures pools == Replay(old(pools), events[|old(events)|..])
    {
      ghost var e0, p0 := events, pools;
      ok := ChangeMachineConfigPoolPause(poolName, false);
      if ok {
        ok := Write(SetPauseMark(poolName, MarkIdle));
        if ok {
          ReplayTwo(p0, SetPaused(poolName, false), SetPauseMark(poolName, MarkIdle));
          assert events[|e0|..] == [SetPaused(poolName, false), SetPauseMark(poolName, MarkIdle)];
        } else {
          assert events[|e0|..] == [SetPaused(poolName, false)];
        }
      }
    }

    /** Scans the pool's nodes, skipping `self`, for one still draining. */
    method FindDrainingPeer(peers: seq<ClusterNode>, self: string) returns (found: bool)
      ensures found <==> SomePeerDraining(peers, self)
    {
      var i := 0;
      while i < |peers|
        invariant 0 <= i <= |peers|
        invariant forall j :: 0 <= j < i ==> !(peers[j].name != self && Draining(peers[j]))
      {
        if peers[i].name == self {
          i := i + 1;
          continue;
        }
        if Draining(peers[i]) {
          return true;
        }
        i := i + 1;
      }
      return false;
    }

    function NodesOf(pool: string): seq<ClusterNode>
    {
      if pool in poolNodes then poolNodes[pool] else []
    }

    /** `OpenshiftAfterCompleteDrainNode`. On a cluster that is not
        OpenShift, or is Hypershift, it reports done and touches nothing.
        Otherwise it follows `AfterDrainPlan` on the node's pool: all of it
        when no request fails (one request each for the machine config, the
        pool, the node list and every write), a prefix of it when one does. */
    method AfterDrain(node: ClusterNode) returns (done: bool, err: Option<DrainError>)
      modifies this`requests, this`pools, this`events
      ensures old(events) <= events
      ensures pools == Replay(old(pools), events[|old(events)|..])
      ensures err.Some? ==> !done
      ensures !IsOpenshiftCluster() || IsHypershift() ==>
                done && err.None? && events == old(events) && requests == old(requests)
      ensures IsOpenshiftCluster() && !IsHypershift() ==>
                match ResolvePool(node, old(pools))
                case None => err.Some? && events == old(events)
                case Some(name) =>
                  FollowsPlan(AfterDrainPlan(name, old(pools)[name], NodesOf(name), node.name), old(events), events, done, err)
      ensures IsOpenshiftCluster() && !IsHypershift() && NoFaults(faults, old(requests), 5) ==>
                (err.None? <==> ResolvePool(node, old(pools)).Some?)
    {
      if !IsOpenshiftCluster() || IsHypershift() {
        return true, None;
      }
      var name := GetNodeMachinePoolName(node);
      if name.Err? {
        NothingDoneFollowsAnyPlan(events, name.error);
        return false, Some(name.error);
      }
      var poolName := name.value;
      var got := GetPool(poolName);
      if got.Err? {
        NothingDoneFollowsAnyPlan(events, got.error);
        return false, Some(got.error);
      }
      done, err := AfterDrainOnPool(poolName, got.value, node);
    }

    /** The part of `OpenshiftAfterCompleteDrainNode` after the pool is read. */
    method AfterDrainOnPool(poolName: string, mcp: MachineConfigPool, node: ClusterNode)
      returns (done: bool, err: Option<DrainError>)
      requires poolName in pools && pools[poolName] == mcp
      modifies this`requests, this`pools, this`events
      ensures old(events) <= events
      ensures pools == Replay(old(pools), events[|old(events)|..])
      ensures err.Some? ==> !done
      ensures FollowsPlan(AfterDrainPlan(poolName, mcp, NodesOf(poolName), node.name), old(events), events, done, err)
      ensures NoFaults(faults, old(requests), 3) ==> err.None?
    {
      ghost var e0 := events;
      ghost var plan := AfterDrainPlan(poolName, mcp, NodesOf(poolName), node.name);
      assert events == e0 + plan.events[..0];
      if mcp.pauseMark.None? || mcp.pauseMark == Some(MarkIdle) {
        return true, None;
      }
      var listed := Request();
      if !listed {
        return false, Some(RequestFailed);
      }
      var busy := FindDrainingPeer(NodesOf(poolName), node.name);
      if busy {
        return true, None;
      }
      ghost var r1 := requests;
      var ok := UnpauseAndMarkIdle(poolName);
      if !ok {
        if r1 in faults {
          assert events == e0 + plan.events[..0];
        } else {
          assert events == e0 + plan.events[..1];
        }
        return false, Some(RequestFailed);
      }
      assert events == e0 + plan.events;
      return true, None;
    }
  }
}
