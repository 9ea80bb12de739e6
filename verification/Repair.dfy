/** Automatic node repair: what is wrong with each node, what has been tried, and the one
    repair to perform now (internal/domain/repair.go). */
module Repair {
  import opened Wrappers
  import opened Roles

  // ---------------------------------------------------------------- data model

  /** Instants and spans are nanoseconds. */
  type Time = int

  /** A span that is multiplied, held to the 64 bits of `time.Duration`. */
  newtype Duration = d: int | -0x8000_0000_0000_0000 <= d < 0x8000_0000_0000_0000

  const HOUR: int := 3_600_000_000_000
  const DAY: int := 24 * HOUR

  datatype Fault = NotReady | Missing | VMDown

  datatype Action = PowerOn | Rejoin | RestartKubelet | Replace | Restore

  datatype NodeState = NodeState(
    fault: Option<Fault>,
    since: Option<Time>,
    attempts: int,
    lastAction: Option<Action>,
    lastActionAt: Option<Time>,
    repairedAt: Option<Time>,
    suspended: bool)

  const UNTOUCHED := NodeState(None, None, 0, None, None, None, false)

  datatype Policy = Policy(
    enabled: bool,
    replace: bool,
    restore: bool,
    healthMaxAge: int,
    notReadyGrace: int,
    nodeStartupGrace: int,
    replaceAfter: int,
    maxUnhealthyFraction: real,
    maxUnhealthyClusters: real,
    maxAttempts: int,
    backoff: Duration)

  datatype Node = Node(vmName: string, role: Role, ip: string)

  /** `etcdMembers` is None when the etcd store was never observed. */
  datatype Cluster = Cluster(nodes: seq<Node>, controlPlaneCount: int, etcdMembers: Option<int>) {
    predicate HA() {
      controlPlaneCount > 1
    }
  }

  datatype HealthStatus = Unknown | Healthy | Degraded | Unhealthy

  datatype HealthCheck = HealthCheck(id: string, status: HealthStatus)

  datatype NodeHealth = NodeHealth(nodeName: string, ready: bool)

  datatype Health = Health(collectedAt: Time, checks: seq<HealthCheck>, nodes: seq<NodeHealth>)

  datatype Observation = Observation(
    health: Option<Health>,
    powered: map<string, bool>,
    fleetUnhealthy: real,
    fleetUnhealthyN: int,
    now: Time)

  datatype Plan = NoPlan | Do(target: string, action: Action, fault: Fault) {
    predicate Act() {
      Do? && target != ""
    }
  }

  type Memory = map<string, NodeState>

  type Faults = map<string, Fault>

  // ---------------------------------------------------------------- reading an observation

  function LiveNames(c: Cluster): set<string> {
    set i | 0 <= i < |c.nodes| :: c.nodes[i].vmName
  }

  /** The verdict of the first API-server check; a snapshot without one counts as unreachable. */
  function ApiServerUnreachable(checks: seq<HealthCheck>): bool {
    if checks == [] then true
    else if checks[0].id == "api-server" then checks[0].status == Unhealthy
    else ApiServerUnreachable(checks[1..])
  }

  predicate Observable(obs: Observation, p: Policy) {
    obs.health.Some?
    && obs.now - obs.health.value.collectedAt <= p.healthMaxAge
    && !ApiServerUnreachable(obs.health.value.checks)
  }

  predicate PoweredOff(c: Cluster, obs: Observation, vm: string) {
    vm in LiveNames(c) && vm in obs.powered && !obs.powered[vm]
  }

  predicate ReportedNotReady(h: Health, vm: string) {
    exists i | 0 <= i < |h.nodes| :: h.nodes[i].nodeName == vm && !h.nodes[i].ready
  }

  predicate Reported(h: Health, vm: string) {
    exists i | 0 <= i < |h.nodes| :: h.nodes[i].nodeName == vm
  }

  predicate HasAddress(c: Cluster, vm: string) {
    exists i | 0 <= i < |c.nodes| :: c.nodes[i].vmName == vm && c.nodes[i].ip != ""
  }

  /** What an observation says about one node, in order of the layers it is read from. */
  function FaultOf(c: Cluster, obs: Observation, p: Policy, vm: string): Option<Fault> {
    if PoweredOff(c, obs, vm) then Some(VMDown)
    else if !Observable(obs, p) then None
    else if ReportedNotReady(obs.health.value, vm) then Some(NotReady)
    else if HasAddress(c, vm) && !Reported(obs.health.value, vm) then Some(Missing)
    else None
  }

  function HealthNames(obs: Observation): set<string> {
    if obs.health.None? then {}
    else set i | 0 <= i < |obs.health.value.nodes| :: obs.health.value.nodes[i].nodeName
  }

  function ObservedFaults(c: Cluster, obs: Observation, p: Policy): (faults: Faults)
    ensures forall vm :: Lookup(faults, vm) == FaultOf(c, obs, p, vm)
  {
    map vm | vm in LiveNames(c) + HealthNames(obs) && FaultOf(c, obs, p, vm).Some?
      :: FaultOf(c, obs, p, vm).value
  }

  // ---------------------------------------------------------------- folding faults into memory

  /** What 64-bit arithmetic leaves of a number. */
  function Wrapped(x: int): (d: int)
    ensures -0x8000_0000_0000_0000 <= d < 0x8000_0000_0000_0000
  {
    (x + 0x8000_0000_0000_0000) % 0x1_0000_0000_0000_0000 - 0x8000_0000_0000_0000
  }

  /** How soon after a recovery a new fault counts as the same episode. The product is not guarded
      against overflow, unlike the backoff's. */
  function FlapWindow(p: Policy): int {
    if p.backoff <= 0 then HOUR else Wrapped(4 * (p.backoff as int))
  }

  /** Up to 73 years of backoff the window is four times it; beyond, it can be anything, and is
      negative exactly in every other band of 2^61 nanoseconds. */
  lemma FlapWindowMeaning(p: Policy)
    ensures 0 < p.backoff as int < 0x2000_0000_0000_0000 ==> FlapWindow(p) == 4 * (p.backoff as int)
    ensures FlapWindow(p) < 0 <==> p.backoff > 0 && (p.backoff as int) / 0x2000_0000_0000_0000 % 2 == 1
  {
    var b := p.backoff as int;
    if b > 0 {
      assert b / 0x2000_0000_0000_0000 in {0, 1, 2, 3};
    }
  }

  /** What one merge does to one live node's memory; None drops the entry. */
  function MergeNode(prev: Option<NodeState>, fault: Option<Fault>, p: Policy, now: Time): Option<NodeState> {
    var st := if prev.Some? then prev.value else UNTOUCHED;
    if fault.None? && st.fault.None? then
      if st.repairedAt.Some? && now - st.repairedAt.value > FlapWindow(p) then None else Some(st)
    else if fault.None? then
      Some(UNTOUCHED.(repairedAt := Some(now), attempts := st.attempts))
    else if st.fault == fault && st.since.Some? then
      Some(st)
    else
      var flapping := st.repairedAt.Some? && now - st.repairedAt.value <= FlapWindow(p);
      Some(UNTOUCHED.(fault := fault, since := Some(now), attempts := if flapping then st.attempts else 0))
  }

  function MergedNodes(mem: Memory, c: Cluster, faults: Faults, p: Policy, now: Time): (merged: Memory)
    ensures forall vm ::
      Lookup(merged, vm)
      == if vm in LiveNames(c) then MergeNode(Lookup(mem, vm), Lookup(faults, vm), p, now) else None
  {
    map vm | vm in LiveNames(c) && MergeNode(Lookup(mem, vm), Lookup(faults, vm), p, now).Some?
      :: MergeNode(Lookup(mem, vm), Lookup(faults, vm), p, now).value
  }

  // ---------------------------------------------------------------- backoff

  function Pow2(n: nat): nat {
    if n == 0 then 1 else 2 * Pow2(n - 1)
  }

  /** The wait after the k-th attempt: the base doubled k-1 times, never past a day. */
  function Backoff(p: Policy, attempts: int): int {
    if p.backoff <= 0 || attempts <= 0 then 0
    else Min((p.backoff as int) * Pow2(attempts - 1), DAY)
  }

  lemma {:induction false} Pow2Monotone(m: nat, n: nat)
    requires m <= n
    ensures 1 <= Pow2(m) <= Pow2(n)
  {
    if m < n {
      Pow2Monotone(m, n - 1);
    } else if m > 0 {
      Pow2Monotone(m - 1, m - 1);
    }
  }

  /** The doubling loop. Every product stays inside 64 bits, whatever the configured base. */
  method BackoffFor(p: Policy, attempts: int) returns (d: Duration)
    ensures d as int == Backoff(p, attempts)
  {
    if p.backoff <= 0 || attempts <= 0 {
      return 0;
    }
    d := p.backoff;
    var i := 1;
    while i < attempts && (d as int) < DAY
      invariant 1 <= i <= attempts
      invariant 0 < d && d as int == (p.backoff as int) * Pow2(i - 1)
    {
      d := d * 2;
      i := i + 1;
    }
    Pow2Monotone(i - 1, attempts - 1);
    BackoffMonotone(p.backoff as int, Pow2(i - 1), Pow2(attempts - 1));
    if d as int > DAY {
      d := DAY as Duration;
    }
  }

  lemma BackoffMonotone(b: int, x: int, y: int)
    requires 0 <= b && x <= y
    ensures b * x <= b * y
  {
  }

  // ---------------------------------------------------------------- choosing a repair

  function ControlPlanes(nodes: seq<Node>): (cps: seq<Node>)
    ensures forall n :: n in cps <==> n in nodes && n.role == Role.ControlPlane
  {
    if nodes == [] then []
    else if nodes[0].role == Role.ControlPlane then [nodes[0]] + ControlPlanes(nodes[1..])
    else ControlPlanes(nodes[1..])
  }

  function Workers(nodes: seq<Node>): (ws: seq<Node>)
    ensures forall n :: n in ws <==> n in nodes && n.role != Role.ControlPlane
  {
    if nodes == [] then []
    else if nodes[0].role != Role.ControlPlane then [nodes[0]] + Workers(nodes[1..])
    else Workers(nodes[1..])
  }

  predicate RecordedFaulty(mem: Memory, vm: string) {
    vm in mem && mem[vm].fault.Some?
  }

  function FaultyCount(mem: Memory, nodes: seq<Node>): (k: nat)
    ensures k <= |nodes|
  {
    if nodes == [] then 0
    else (if RecordedFaulty(mem, nodes[0].vmName) then 1 else 0) + FaultyCount(mem, nodes[1..])
  }

  function DestructiveChoice(p: Policy, c: Cluster, mem: Memory, n: Node): Option<Action> {
    if !p.replace then None
    else if n.role != Role.ControlPlane then Some(Replace)
    else if !c.HA() then (if p.restore then Some(Restore) else None)
    else if c.etcdMembers.Some? && 0 < c.etcdMembers.value < c.controlPlaneCount then None
    else if FaultyCount(mem, ControlPlanes(c.nodes)) > 1 then None
    else Some(Replace)
  }

  /** The guards every rung shares: not given up, attempts left, backoff over, clock started. */
  predicate MayAct(p: Policy, st: NodeState, now: Time) {
    !st.suspended
    && st.attempts < p.maxAttempts
    && (st.lastActionAt.Some? ==> now - st.lastActionAt.value >= Backoff(p, st.attempts))
    && st.since.Some?
  }

  function NextChoice(p: Policy, c: Cluster, mem: Memory, n: Node, st: NodeState, fault: Fault, now: Time): Option<Action> {
    if !MayAct(p, st, now) then None
    else
      var elapsed := now - st.since.value;
      if st.attempts == 0 then
        match fault
        case VMDown => Some(PowerOn)
        case Missing => if elapsed < p.nodeStartupGrace then None else Some(Rejoin)
        case NotReady => if elapsed < p.notReadyGrace then None else Some(RestartKubelet)
      else if elapsed < p.replaceAfter then None
      else DestructiveChoice(p, c, mem, n)
  }

  function StateOf(mem: Memory, vm: string): NodeState {
    if vm in mem then mem[vm] else UNTOUCHED
  }

  /** What would be done for one node: None when it is not faulty or must be left alone. */
  function ChoiceFor(p: Policy, c: Cluster, mem: Memory, faults: Faults, n: Node, now: Time): Option<Action> {
    if n.vmName !in faults then None
    else NextChoice(p, c, mem, n, StateOf(mem, n.vmName), faults[n.vmName], now)
  }

  function FirstChoice(p: Policy, c: Cluster, mem: Memory, faults: Faults, order: seq<Node>, now: Time): Plan {
    if order == [] then NoPlan
    else
      var action := ChoiceFor(p, c, mem, faults, order[0], now);
      if action.Some? then Do(order[0].vmName, action.value, faults[order[0].vmName])
      else FirstChoice(p, c, mem, faults, order[1..], now)
  }

  predicate FleetBreaker(p: Policy, obs: Observation) {
    p.maxUnhealthyClusters > 0.0 && obs.fleetUnhealthyN >= 2 && obs.fleetUnhealthy > p.maxUnhealthyClusters
  }

  predicate BlastRadius(p: Policy, c: Cluster, faults: Faults) {
    |c.nodes| > 0 && p.maxUnhealthyFraction > 0.0 && |faults| > 1
    && (|faults| as real) / (|c.nodes| as real) > p.maxUnhealthyFraction
  }

  predicate StandsDown(p: Policy, c: Cluster, obs: Observation, faults: Faults) {
    !p.enabled || FleetBreaker(p, obs) || |faults| == 0 || BlastRadius(p, c, faults)
  }

  function PlanFor(p: Policy, c: Cluster, obs: Observation, faults: Faults, mem: Memory): Plan {
    if StandsDown(p, c, obs, faults) then NoPlan
    else FirstChoice(p, c, mem, faults, Workers(c.nodes) + ControlPlanes(c.nodes), obs.now)
  }

  function Recorded(st: NodeState, action: Action, p: Policy, now: Time): NodeState {
    st.(attempts := st.attempts + 1, lastAction := Some(action), lastActionAt := Some(now),
        suspended := st.suspended || st.attempts + 1 >= p.maxAttempts)
  }

  // ---------------------------------------------------------------- the operations

  /** The infrastructure layer: VMs the hypervisor reports off. */
  method ReadPower(c: Cluster, obs: Observation) returns (faults: Faults)
    ensures forall vm :: Lookup(faults, vm) == if PoweredOff(c, obs, vm) then Some(VMDown) else None
  {
    faults := map[];
    for i := 0 to |c.nodes|
      invariant forall vm :: vm in faults <==>
        (exists k | 0 <= k < i :: c.nodes[k].vmName == vm) && vm in obs.powered && !obs.powered[vm]
      invariant forall vm | vm in faults :: faults[vm] == VMDown
    {
      var vm := c.nodes[i].vmName;
      if vm in obs.powered && !obs.powered[vm] {
        faults := faults[vm := VMDown];
      }
    }
    assert forall vm :: vm in faults <==> PoweredOff(c, obs, vm);
  }

  /** The cluster layer: nodes it reports not ready, unless something is already wrong below. */
  method ReadReadiness(h: Health, down: Faults) returns (faults: Faults, reported: set<string>)
    ensures forall vm :: vm in reported <==> Reported(h, vm)
    ensures forall vm ::
      Lookup(faults, vm)
      == if vm in down then Some(down[vm]) else if ReportedNotReady(h, vm) then Some(NotReady) else None
  {
    faults := down;
    reported := {};
    for i := 0 to |h.nodes|
      invariant reported == set k | 0 <= k < i :: h.nodes[k].nodeName
      invariant forall vm ::
        Lookup(faults, vm)
        == if vm in down then Some(down[vm])
           else if exists k | 0 <= k < i :: h.nodes[k].nodeName == vm && !h.nodes[k].ready then Some(NotReady)
           else None
    {
      var nh := h.nodes[i];
      reported := reported + {nh.nodeName};
      if !nh.ready && nh.nodeName !in faults {
        faults := faults[nh.nodeName := NotReady];
      }
    }
  }

  /** VMs with an address that the cluster has never heard of. */
  method ReadMissing(c: Cluster, seen: Faults, reported: set<string>) returns (faults: Faults)
    ensures forall vm ::
      Lookup(faults, vm)
      == if vm in seen then Some(seen[vm])
         else if HasAddress(c, vm) && vm !in reported then Some(Missing)
         else None
  {
    faults := seen;
    for i := 0 to |c.nodes|
      invariant forall vm ::
        Lookup(faults, vm)
        == if vm in seen then Some(seen[vm])
           else if (exists k | 0 <= k < i :: c.nodes[k].vmName == vm && c.nodes[k].ip != "") && vm !in reported
           then Some(Missing)
           else None
    {
      var n := c.nodes[i];
      if n.ip != "" && n.vmName !in reported && n.vmName !in faults {
        faults := faults[n.vmName := Missing];
      }
    }
  }

  /** Fills the fault map layer by layer; the result is exactly FaultOf at every name. */
  method ObserveFaults(c: Cluster, obs: Observation, p: Policy) returns (faults: Faults, observable: bool)
    ensures observable == Observable(obs, p)
    ensures faults == ObservedFaults(c, obs, p)
  {
    faults := ReadPower(c, obs);
    observable := obs.health.Some?
      && obs.now - obs.health.value.collectedAt <= p.healthMaxAge
      && !ApiServerUnreachable(obs.health.value.checks);
    ghost var down := faults;
    assert forall vm :: vm in down <==> Lookup(down, vm).Some?;
    if observable {
      var reported;
      faults, reported := ReadReadiness(obs.health.value, faults);
      assert forall vm :: vm in faults <==> Lookup(faults, vm).Some?;
      faults := ReadMissing(c, faults, reported);
    }
    SameFaults(faults, ObservedFaults(c, obs, p));
  }

  lemma SameFaults(a: Faults, b: Faults)
    requires forall vm :: Lookup(a, vm) == Lookup(b, vm)
    ensures a == b
  {
    assert forall vm :: vm in a <==> Lookup(a, vm).Some?;
    assert forall vm :: vm in b <==> Lookup(b, vm).Some?;
    assert forall vm | vm in a :: Some(a[vm]) == Lookup(a, vm);
  }

  lemma OthersKept(a: Memory, b: Memory, vm: string)
    requires a - {vm} == b - {vm}
    ensures forall other | other != vm :: Lookup(b, other) == Lookup(a, other)
  {
    forall other | other != vm
      ensures Lookup(b, other) == Lookup(a, other)
    {
      assert other in a <==> other in a - {vm};
      assert other in b <==> other in b - {vm};
      assert other in a ==> (a - {vm})[other] == a[other];
      assert other in b ==> (b - {vm})[other] == b[other];
    }
  }

  lemma SameMemory(a: Memory, b: Memory)
    requires forall vm :: Lookup(a, vm) == Lookup(b, vm)
    ensures a == b
  {
    assert forall vm :: vm in a <==> Lookup(a, vm).Some?;
    assert forall vm :: vm in b <==> Lookup(b, vm).Some?;
    assert forall vm | vm in a :: Some(a[vm]) == Lookup(a, vm);
  }

  /** The counting loop of the quorum guard, and the choice made from its count. */
  method DestructiveAction(p: Policy, c: Cluster, mem: Memory, n: Node) returns (action: Option<Action>)
    ensures action == DestructiveChoice(p, c, mem, n)
  {
    if !p.replace {
      return None;
    }
    if n.role != Role.ControlPlane {
      return Some(Replace);
    }
    if !c.HA() {
      return if p.restore then Some(Restore) else None;
    }
    if c.etcdMembers.Some? && c.etcdMembers.value > 0 && c.etcdMembers.value < c.controlPlaneCount {
      return None;
    }
    var cps := ControlPlanes(c.nodes);
    var down := 0;
    for i := 0 to |cps|
      invariant down + FaultyCount(mem, cps[i..]) == FaultyCount(mem, cps)
    {
      assert cps[i..][0] == cps[i] && cps[i..][1..] == cps[i + 1..];
      if cps[i].vmName in mem && mem[cps[i].vmName].fault.Some? {
        down := down + 1;
      }
    }
    assert cps[|cps|..] == [];
    if down > 1 {
      return None;
    }
    return Some(Replace);
  }

  method NextAction(p: Policy, c: Cluster, mem: Memory, n: Node, st: NodeState, fault: Fault, now: Time)
    returns (action: Option<Action>)
    ensures action == NextChoice(p, c, mem, n, st, fault, now)
  {
    if st.suspended || st.attempts >= p.maxAttempts {
      return None;
    }
    if st.lastActionAt.Some? {
      var wait := BackoffFor(p, st.attempts);
      if now - st.lastActionAt.value < wait as int {
        return None;
      }
    }
    if st.since.None? {
      return None;
    }
    var elapsed := now - st.since.value;
    if st.attempts == 0 {
      match fault {
        case VMDown =>
          return Some(PowerOn);
        case Missing =>
          return if elapsed < p.nodeStartupGrace then None else Some(Rejoin);
        case NotReady =>
          return if elapsed < p.notReadyGrace then None else Some(RestartKubelet);
      }
    }
    if elapsed < p.replaceAfter {
      return None;
    }
    action := DestructiveAction(p, c, mem, n);
  }

  /** The durable repair memory of one cluster, with the repair in flight. */
  class ClusterRepair {
    var nodes: Memory
    var inFlight: Option<(string, Action)>
    var observedAt: Option<Time>

    constructor ()
      ensures nodes == map[] && inFlight == None && observedAt == None
    {
      nodes, inFlight, observedAt := map[], None, None;
    }

    /** The memory for vm, created when absent. */
    method State(vm: string) returns (st: NodeState)
      modifies this`nodes
      ensures st == StateOf(old(nodes), vm)
      ensures nodes == old(nodes)[vm := st]
    {
      if vm !in nodes {
        nodes := nodes[vm := UNTOUCHED];
      }
      st := nodes[vm];
    }

    /** Folds one live node's observation into its memory. */
    method MergeOne(vm: string, fault: Option<Fault>, p: Policy, now: Time)
      modifies this`nodes
      ensures Lookup(nodes, vm) == MergeNode(Lookup(old(nodes), vm), fault, p, now)
      ensures nodes - {vm} == old(nodes) - {vm}
    {
      var st := State(vm);
      if fault.None? && st.fault.None? {
        if st.repairedAt.Some? && now - st.repairedAt.value > FlapWindow(p) {
          nodes := nodes - {vm};
        }
      } else if fault.None? {
        nodes := nodes[vm := UNTOUCHED.(repairedAt := Some(now), attempts := st.attempts)];
      } else if st.fault == fault && st.since.Some? {
        // the same fault continues: the clock is left alone
      } else {
        var carried := 0;
        if st.repairedAt.Some? && now - st.repairedAt.value <= FlapWindow(p) {
          carried := st.attempts;
        }
        nodes := nodes[vm := UNTOUCHED.(fault := fault, since := Some(now), attempts := carried)];
      }
    }

    /** Forgets the nodes that are no longer part of the cluster. */
    method DropDeparted(live: set<string>)
      modifies this`nodes
      ensures nodes == map vm | vm in old(nodes) && vm in live :: old(nodes)[vm]
    {
      var todo := nodes.Keys;
      while todo != {}
        invariant todo <= nodes.Keys
        invariant nodes == map vm | vm in old(nodes) && (vm in todo || vm in live) :: old(nodes)[vm]
        decreases |todo|
      {
        var vm :| vm in todo;
        todo := todo - {vm};
        if vm !in live {
          nodes := nodes - {vm};
        }
      }
    }

    method MergeFaults(c: Cluster, faults: Faults, p: Policy, now: Time)
      modifies this`nodes
      ensures nodes == MergedNodes(old(nodes), c, faults, p, now)
    {
      var live: set<string> := {};
      for i := 0 to |c.nodes|
        invariant live == set k | 0 <= k < i :: c.nodes[k].vmName
        invariant nodes == old(nodes)
      {
        live := live + {c.nodes[i].vmName};
      }
      assert live == LiveNames(c);
      DropDeparted(live);
      var rest := live;
      while rest != {}
        invariant rest <= live
        invariant forall vm | vm !in live :: Lookup(nodes, vm) == None
        invariant forall vm | vm in rest :: Lookup(nodes, vm) == Lookup(old(nodes), vm)
        invariant forall vm | vm in live && vm !in rest ::
          Lookup(nodes, vm) == MergeNode(Lookup(old(nodes), vm), Lookup(faults, vm), p, now)
        decreases |rest|
      {
        var vm :| vm in rest;
        rest := rest - {vm};
        ghost var before := nodes;
        MergeOne(vm, Lookup(faults, vm), p, now);
        OthersKept(before, nodes, vm);
      }
      SameMemory(nodes, MergedNodes(old(nodes), c, faults, p, now));
    }

    /** Walks workers, then control planes, to the first node with an available action. The walk
        may create empty entries for faulty nodes the memory lacks; it changes nothing else. */
    method DecideRepair(c: Cluster, obs: Observation, faults: Faults, p: Policy) returns (plan: Plan)
      modifies this`nodes
      ensures plan == PlanFor(p, c, obs, faults, old(nodes))
      ensures forall vm | vm in old(nodes) :: vm in nodes && nodes[vm] == old(nodes)[vm]
      ensures forall vm | vm in nodes && vm !in old(nodes) ::
        nodes[vm] == UNTOUCHED && vm in faults && vm in LiveNames(c)
    {
      if !p.enabled || FleetBreaker(p, obs) || |faults| == 0 || BlastRadius(p, c, faults) {
        return NoPlan;
      }
      var order := Workers(c.nodes) + ControlPlanes(c.nodes);
      for i := 0 to |order|
        invariant FirstChoice(p, c, old(nodes), faults, order[i..], obs.now)
               == FirstChoice(p, c, old(nodes), faults, order, obs.now)
        invariant forall vm | vm in old(nodes) :: vm in nodes && nodes[vm] == old(nodes)[vm]
        invariant forall vm | vm in nodes && vm !in old(nodes) ::
          nodes[vm] == UNTOUCHED && vm in faults && vm in LiveNames(c)
      {
        assert order[i..][0] == order[i] && order[i..][1..] == order[i + 1..];
        assert order[i] in c.nodes;
        if order[i].vmName in faults {
          var st := State(order[i].vmName);
          var fault := faults[order[i].vmName];
          EmptyEntriesDoNotMatter(p, c, old(nodes), nodes, order[i], st, fault, obs.now);
          var action := NextAction(p, c, nodes, order[i], st, fault, obs.now);
          if action.Some? {
            return Do(order[i].vmName, action.value, fault);
          }
        }
      }
      assert order[|order|..] == [];
      return NoPlan;
    }

    method RecordAttempt(plan: Plan, p: Policy, now: Time)
      requires plan.Do?
      modifies this
      ensures nodes == old(nodes)[plan.target := Recorded(StateOf(old(nodes), plan.target), plan.action, p, now)]
      ensures inFlight == Some((plan.target, plan.action)) && observedAt == old(observedAt)
    {
      var st := State(plan.target);
      st := st.(attempts := st.attempts + 1, lastAction := Some(plan.action), lastActionAt := Some(now));
      if st.attempts >= p.maxAttempts {
        st := st.(suspended := true);
      }
      nodes := nodes[plan.target := st];
      inFlight := Some((plan.target, plan.action));
    }

    /** Clears the plan in flight and nothing else: only an observation decides what worked. */
    method CompleteAttempt()
      modifies this`inFlight
      ensures inFlight == None
    {
      inFlight := None;
    }
  }

  lemma {:induction false} EmptyEntriesKeepCount(mem: Memory, more: Memory, nodes: seq<Node>)
    requires forall vm | vm in mem :: vm in more && more[vm] == mem[vm]
    requires forall vm | vm in more && vm !in mem :: more[vm] == UNTOUCHED
    ensures FaultyCount(more, nodes) == FaultyCount(mem, nodes)
  {
    if nodes != [] {
      EmptyEntriesKeepCount(mem, more, nodes[1..]);
    }
  }

  lemma EmptyEntriesDoNotMatter(p: Policy, c: Cluster, mem: Memory, more: Memory, n: Node, st: NodeState, fault: Fault, now: Time)
    requires forall vm | vm in mem :: vm in more && more[vm] == mem[vm]
    requires forall vm | vm in more && vm !in mem :: more[vm] == UNTOUCHED
    ensures NextChoice(p, c, more, n, st, fault, now) == NextChoice(p, c, mem, n, st, fault, now)
  {
    EmptyEntriesKeepCount(mem, more, ControlPlanes(c.nodes));
  }
}
