/** Whole runs of the repair loop: every tick observes, merges, plans and records
    (internal/reconcile/repair.go). The incremental memory is related to the full history of
    what was seen and done, and the promises of the policy are read off that history. */
module RepairRuns {
  import opened Wrappers
  import opened Roles
  import opened Repair

  // ---------------------------------------------------------------- one tick

  datatype Tick = Tick(cluster: Cluster, obs: Observation)

  function TickFaults(p: Policy, t: Tick): Faults {
    ObservedFaults(t.cluster, t.obs, p)
  }

  function Merged(p: Policy, mem: Memory, t: Tick): Memory {
    MergedNodes(mem, t.cluster, TickFaults(p, t), p, t.obs.now)
  }

  function PlanAt(p: Policy, mem: Memory, t: Tick): Plan {
    PlanFor(p, t.cluster, t.obs, TickFaults(p, t), Merged(p, mem, t))
  }

  function AfterTick(p: Policy, mem: Memory, t: Tick): Memory {
    var m := Merged(p, mem, t);
    var plan := PlanAt(p, mem, t);
    if plan.Act()
    then m[plan.target := Recorded(StateOf(m, plan.target), plan.action, p, t.obs.now)]
    else m
  }

  /** The Ready tick: observe, merge, decide and, before any work starts, record. */
  method ReconcileRepair(r: ClusterRepair, c: Cluster, obs: Observation, p: Policy) returns (repairing: bool)
    modifies r
    ensures r.nodes == AfterTick(p, old(r.nodes), Tick(c, obs))
    ensures repairing == PlanAt(p, old(r.nodes), Tick(c, obs)).Act()
    ensures r.inFlight == if repairing
                          then Some((PlanAt(p, old(r.nodes), Tick(c, obs)).target,
                                     PlanAt(p, old(r.nodes), Tick(c, obs)).action))
                          else old(r.inFlight)
    ensures r.observedAt == Some(obs.now)
  {
    var faults := ObserveAndMerge(r, c, obs, p);
    ghost var merged := r.nodes;
    FaultyNodesAreRemembered(p, old(r.nodes), Tick(c, obs));
    var plan := r.DecideRepair(c, obs, faults, p);
    assert r.nodes == merged;
    repairing := plan.Act();
    if repairing {
      r.RecordAttempt(plan, p, obs.now);
    }
  }

  /** The first half of the tick: what is wrong, folded into what is remembered. */
  method ObserveAndMerge(r: ClusterRepair, c: Cluster, obs: Observation, p: Policy) returns (faults: Faults)
    modifies r
    ensures faults == TickFaults(p, Tick(c, obs)) && r.nodes == Merged(p, old(r.nodes), Tick(c, obs))
    ensures r.inFlight == old(r.inFlight) && r.observedAt == Some(obs.now)
  {
    var observable;
    faults, observable := ObserveFaults(c, obs, p);
    r.MergeFaults(c, faults, p, obs.now);
    r.observedAt := Some(obs.now);
  }

  /** After a merge every faulty node of the cluster has an entry, so planning creates none. */
  lemma FaultyNodesAreRemembered(p: Policy, mem: Memory, t: Tick)
    ensures forall vm | vm in LiveNames(t.cluster) && vm in TickFaults(p, t) :: vm in Merged(p, mem, t)
  {
    forall vm | vm in LiveNames(t.cluster) && vm in TickFaults(p, t)
      ensures vm in Merged(p, mem, t)
    {
      assert Lookup(TickFaults(p, t), vm).Some?;
      assert Lookup(Merged(p, mem, t), vm).Some?;
    }
  }

  // ---------------------------------------------------------------- what a plan means

  /** The chosen node is the first one, workers before control planes, that has an action. */
  lemma {:induction false} FirstChoiceMeaning(p: Policy, c: Cluster, mem: Memory, faults: Faults, order: seq<Node>, now: Time)
    returns (i: nat)
    ensures i <= |order|
    ensures forall k | 0 <= k < i :: ChoiceFor(p, c, mem, faults, order[k], now) == None
    ensures i == |order| <==> FirstChoice(p, c, mem, faults, order, now) == NoPlan
    ensures i < |order| ==>
      order[i].vmName in faults
      && ChoiceFor(p, c, mem, faults, order[i], now).Some?
      && FirstChoice(p, c, mem, faults, order, now)
         == Do(order[i].vmName, ChoiceFor(p, c, mem, faults, order[i], now).value, faults[order[i].vmName])
  {
    if order == [] || ChoiceFor(p, c, mem, faults, order[0], now).Some? {
      i := 0;
    } else {
      var j := FirstChoiceMeaning(p, c, mem, faults, order[1..], now);
      i := j + 1;
      assert forall k | 0 < k < i :: order[k] == order[1..][k - 1];
    }
  }

  /** A repair is planned exactly when no breaker holds and some faulty node has an action. */
  lemma PlansExactlyWhenPossible(p: Policy, c: Cluster, obs: Observation, faults: Faults, mem: Memory)
    ensures PlanFor(p, c, obs, faults, mem).Do?
       <==> !StandsDown(p, c, obs, faults)
            && exists n | n in c.nodes :: ChoiceFor(p, c, mem, faults, n, obs.now).Some?
  {
    var order := Workers(c.nodes) + ControlPlanes(c.nodes);
    var i := FirstChoiceMeaning(p, c, mem, faults, order, obs.now);
    forall n | n in c.nodes && ChoiceFor(p, c, mem, faults, n, obs.now).Some?
      ensures i < |order|
    {
      assert n in order;
      var k :| 0 <= k < |order| && order[k] == n;
    }
    if i < |order| {
      assert order[i] in order;
      assert order[i] in c.nodes;
    }
  }

  /** The node a plan acts on, and that every worker came first. */
  lemma PlannedNode(p: Policy, c: Cluster, obs: Observation, faults: Faults, mem: Memory) returns (n: Node)
    requires PlanFor(p, c, obs, faults, mem).Do?
    ensures n in c.nodes && n.vmName in faults
    ensures var plan := PlanFor(p, c, obs, faults, mem);
            plan.target == n.vmName && plan.fault == faults[n.vmName]
            && ChoiceFor(p, c, mem, faults, n, obs.now) == Some(plan.action)
    ensures n.role == Role.ControlPlane ==>
      forall w | w in c.nodes && w.role != Role.ControlPlane :: ChoiceFor(p, c, mem, faults, w, obs.now) == None
  {
    var ws := Workers(c.nodes);
    var order := ws + ControlPlanes(c.nodes);
    var i := FirstChoiceMeaning(p, c, mem, faults, order, obs.now);
    n := order[i];
    assert n in order;
    if n.role == Role.ControlPlane {
      assert forall k | 0 <= k < |ws| :: order[k] == ws[k] && ws[k] in ws;
      forall w | w in c.nodes && w.role != Role.ControlPlane
        ensures ChoiceFor(p, c, mem, faults, w, obs.now) == None
      {
        assert w in ws;
        var k :| 0 <= k < |ws| && ws[k] == w;
        assert order[k] == w;
      }
    }
  }

  // ---------------------------------------------------------------- safety of a single decision

  /** A blind platform touches only what the hypervisor itself reports off. */
  lemma BlindRepairsOnlyPoweredOff(p: Policy, mem: Memory, t: Tick)
    requires !Observable(t.obs, p)
    requires PlanAt(p, mem, t).Do?
    ensures PoweredOff(t.cluster, t.obs, PlanAt(p, mem, t).target)
    ensures PlanAt(p, mem, t).fault == VMDown
  {
    var n := PlannedNode(p, t.cluster, t.obs, TickFaults(p, t), Merged(p, mem, t));
    assert Lookup(TickFaults(p, t), n.vmName) == FaultOf(t.cluster, t.obs, p, n.vmName);
  }

  /** Power state is read below the cluster: whatever health says, VM-down is the same set. */
  lemma PowerFaultsIgnoreHealth(c: Cluster, p: Policy, obs: Observation, other: Observation, vm: string)
    requires obs.powered == other.powered
    ensures Lookup(ObservedFaults(c, obs, p), vm) == Some(VMDown)
       <==> Lookup(ObservedFaults(c, other, p), vm) == Some(VMDown)
    ensures PoweredOff(c, obs, vm) ==> Lookup(ObservedFaults(c, obs, p), vm) == Some(VMDown)
  {
    assert Lookup(ObservedFaults(c, obs, p), vm) == FaultOf(c, obs, p, vm);
    assert Lookup(ObservedFaults(c, other, p), vm) == FaultOf(c, other, p, vm);
  }

  /** After a merge, a live node's recorded fault is the one just observed. */
  lemma MergeRecordsObservation(p: Policy, mem: Memory, t: Tick, vm: string)
    requires vm in LiveNames(t.cluster)
    ensures RecordedFaulty(Merged(p, mem, t), vm) <==> vm in TickFaults(p, t)
    ensures vm in TickFaults(p, t) ==> StateOf(Merged(p, mem, t), vm).fault == Some(TickFaults(p, t)[vm])
  {
    assert Lookup(Merged(p, mem, t), vm) == MergeNode(Lookup(mem, vm), Lookup(TickFaults(p, t), vm), p, t.obs.now);
    assert vm in TickFaults(p, t) <==> Lookup(TickFaults(p, t), vm).Some?;
  }

  lemma {:induction false} FaultyAtMostOne(mem: Memory, nodes: seq<Node>, i: nat, j: nat)
    requires FaultyCount(mem, nodes) <= 1
    requires i < |nodes| && j < |nodes| && i != j
    requires RecordedFaulty(mem, nodes[i].vmName)
    ensures !RecordedFaulty(mem, nodes[j].vmName)
  {
    if i == 0 || j == 0 {
      var k := if i == 0 then j else i;
      if RecordedFaulty(mem, nodes[k].vmName) {
        FaultyCounted(mem, nodes[1..], k - 1);
      }
    } else {
      FaultyAtMostOne(mem, nodes[1..], i - 1, j - 1);
    }
  }

  lemma {:induction false} FaultyCounted(mem: Memory, nodes: seq<Node>, k: nat)
    requires k < |nodes| && RecordedFaulty(mem, nodes[k].vmName)
    ensures FaultyCount(mem, nodes) >= 1
  {
    if k > 0 {
      FaultyCounted(mem, nodes[1..], k - 1);
    }
  }

  /** What must hold before the choice for a control plane is a rebuild. */
  lemma ReplaceGuards(p: Policy, c: Cluster, mem: Memory, faults: Faults, n: Node, now: Time)
    requires ChoiceFor(p, c, mem, faults, n, now) == Some(Replace) && n.role == Role.ControlPlane
    ensures c.HA() && p.replace && FaultyCount(mem, ControlPlanes(c.nodes)) <= 1
    ensures c.etcdMembers.Some? && c.etcdMembers.value > 0 ==> c.etcdMembers.value >= c.controlPlaneCount
  {
  }

  lemma OthersAreFine(mem: Memory, cps: seq<Node>, i: nat, o: Node)
    requires FaultyCount(mem, cps) <= 1 && i < |cps| && RecordedFaulty(mem, cps[i].vmName)
    requires o in cps && o.vmName != cps[i].vmName
    ensures !RecordedFaulty(mem, o.vmName)
  {
    var j :| 0 <= j < |cps| && cps[j] == o;
    FaultyAtMostOne(mem, cps, i, j);
  }

  /** Replacing a control plane: HA only, no other control plane is faulty now or in memory, and
      no etcd reading is short of a member - so of three or more, a majority is untouched. */
  lemma ReplacementKeepsQuorum(p: Policy, mem: Memory, t: Tick, n: Node)
    requires PlanAt(p, mem, t).Do? && PlanAt(p, mem, t).action == Replace
    requires n in t.cluster.nodes && n.vmName == PlanAt(p, mem, t).target
    requires forall m | m in t.cluster.nodes && m.vmName == n.vmName :: m.role == Role.ControlPlane
    ensures t.cluster.HA() && p.replace
    ensures t.cluster.etcdMembers.Some? && t.cluster.etcdMembers.value > 0 ==>
      t.cluster.etcdMembers.value >= t.cluster.controlPlaneCount
    ensures forall m | m in t.cluster.nodes && m.role == Role.ControlPlane && m.vmName != n.vmName ::
      m.vmName !in TickFaults(p, t) && !RecordedFaulty(Merged(p, mem, t), m.vmName)
    ensures var cps := ControlPlanes(t.cluster.nodes);
            FaultyCount(Merged(p, mem, t), cps) == 1
            && (|cps| >= 3 ==> 2 * (|cps| - FaultyCount(Merged(p, mem, t), cps)) > |cps|)
  {
    var m := Merged(p, mem, t);
    var cps := ControlPlanes(t.cluster.nodes);
    var chosen := PlannedNode(p, t.cluster, t.obs, TickFaults(p, t), m);
    ReplaceGuards(p, t.cluster, m, TickFaults(p, t), chosen, t.obs.now);
    assert n in cps && n.vmName in LiveNames(t.cluster);
    MergeRecordsObservation(p, mem, t, n.vmName);
    var i :| 0 <= i < |cps| && cps[i] == n;
    FaultyCounted(m, cps, i);
    forall o | o in t.cluster.nodes && o.role == Role.ControlPlane && o.vmName != n.vmName
      ensures o.vmName !in TickFaults(p, t) && !RecordedFaulty(m, o.vmName)
    {
      assert o in cps && o.vmName in LiveNames(t.cluster);
      OthersAreFine(m, cps, i, o);
      MergeRecordsObservation(p, mem, t, o.vmName);
    }
  }

  /** The lossy rung: only a sole control plane, only with both switches on. */
  lemma RestoreOnlySoleControlPlane(p: Policy, mem: Memory, t: Tick) returns (n: Node)
    requires PlanAt(p, mem, t).Do? && PlanAt(p, mem, t).action == Restore
    ensures n in t.cluster.nodes && n.vmName == PlanAt(p, mem, t).target
    ensures n.role == Role.ControlPlane && !t.cluster.HA() && p.replace && p.restore
  {
    n := PlannedNode(p, t.cluster, t.obs, TickFaults(p, t), Merged(p, mem, t));
    RestoreGuards(p, t.cluster, Merged(p, mem, t), TickFaults(p, t), n, t.obs.now);
  }

  lemma RestoreGuards(p: Policy, c: Cluster, mem: Memory, faults: Faults, n: Node, now: Time)
    requires ChoiceFor(p, c, mem, faults, n, now) == Some(Restore)
    ensures n.role == Role.ControlPlane && !c.HA() && p.replace && p.restore
  {
  }

  // ---------------------------------------------------------------- runs and their history

  /** What one tick saw of one node, and did to it. `observed` says whether the cluster could be
      seen at all; when it could not, no fault means no news, unless the hypervisor had some. */
  datatype Sight = Sight(now: Time, live: bool, observed: bool, fault: Option<Fault>, acted: Option<Action>)

  function SightOf(p: Policy, mem: Memory, t: Tick, vm: string): Sight {
    var plan := PlanAt(p, mem, t);
    Sight(t.obs.now,
          vm in LiveNames(t.cluster),
          Observable(t.obs, p),
          if vm in LiveNames(t.cluster) then FaultOf(t.cluster, t.obs, p, vm) else None,
          if plan.Act() && plan.target == vm then Some(plan.action) else None)
  }

  function RunMemory(p: Policy, ticks: seq<Tick>): Memory {
    if ticks == [] then map[]
    else AfterTick(p, RunMemory(p, ticks[..|ticks| - 1]), ticks[|ticks| - 1])
  }

  function History(p: Policy, ticks: seq<Tick>, vm: string): (h: seq<Sight>)
    ensures |h| == |ticks|
  {
    if ticks == [] then []
    else
      var before := ticks[..|ticks| - 1];
      History(p, before, vm) + [SightOf(p, RunMemory(p, before), ticks[|ticks| - 1], vm)]
  }

  predicate Timely(ticks: seq<Tick>) {
    forall i, j | 0 <= i <= j < |ticks| :: ticks[i].obs.now <= ticks[j].obs.now
  }

  /** A node's history is a function of the ticks so far: earlier sights never change. */
  lemma {:induction false} HistoryPrefix(p: Policy, ticks: seq<Tick>, vm: string, k: nat)
    requires k <= |ticks|
    ensures History(p, ticks, vm)[..k] == History(p, ticks[..k], vm)
  {
    if k == |ticks| {
      assert ticks[..k] == ticks;
    } else {
      var before := ticks[..|ticks| - 1];
      HistoryPrefix(p, before, vm, k);
      assert before[..k] == ticks[..k];
      assert History(p, ticks, vm)[..k] == History(p, before, vm)[..k];
    }
  }

  lemma SightAt(p: Policy, ticks: seq<Tick>, vm: string, k: nat)
    requires k < |ticks|
    ensures History(p, ticks, vm)[k] == SightOf(p, RunMemory(p, ticks[..k]), ticks[k], vm)
  {
    HistoryPrefix(p, ticks, vm, k + 1);
    HistoryLast(p, ticks[..k], ticks[k], ticks[..k + 1], vm);
    assert History(p, ticks, vm)[k] == History(p, ticks, vm)[..k + 1][k];
  }

  lemma HistoryLast(p: Policy, front: seq<Tick>, t: Tick, ticks: seq<Tick>, vm: string)
    requires ticks == front + [t]
    ensures History(p, ticks, vm)[|front|] == SightOf(p, RunMemory(p, front), t, vm)
  {
    assert ticks[..|front|] == front;
  }

  // ---------------------------------------------------------------- reading a history

  predicate SameStretch(a: Sight, b: Sight) {
    a.live && b.live && a.fault.Some? && a.fault == b.fault
  }

  /** Where the unbroken run of sights reporting the current fault began. */
  function StretchStart(h: seq<Sight>): (i: nat)
    requires h != [] && h[|h| - 1].live && h[|h| - 1].fault.Some?
    ensures i < |h|
    ensures forall j | i <= j < |h| :: h[j].live && h[j].fault == h[|h| - 1].fault
    ensures i > 0 ==> !(h[i - 1].live && h[i - 1].fault == h[|h| - 1].fault)
  {
    if |h| >= 2 && SameStretch(h[|h| - 2], h[|h| - 1]) then StretchStart(h[..|h| - 1]) else |h| - 1
  }

  /** Nothing wrong was reported: the node was seen well, or not seen at all. A merge makes no
      difference between the two. */
  predicate Quiet(s: Sight) {
    s.live && s.fault.None?
  }

  /** Where the current unbroken run of quiet sights began. */
  function QuietStart(h: seq<Sight>): (k: nat)
    requires h != [] && Quiet(h[|h| - 1])
    ensures k < |h|
    ensures forall j | k <= j < |h| :: Quiet(h[j])
    ensures k > 0 ==> !Quiet(h[k - 1])
  {
    if |h| >= 2 && Quiet(h[|h| - 2]) then QuietStart(h[..|h| - 1]) else |h| - 1
  }

  /** When the node last came back: the first quiet sight after a faulty one, if quiet ever since. */
  function RecoveredAt(h: seq<Sight>): Option<Time> {
    if h == [] || !Quiet(h[|h| - 1]) then None
    else
      var k := QuietStart(h);
      if k > 0 && h[k - 1].live then Some(h[k].now) else None
  }

  /** The last sight gives the node a clean slate: it left, its fault changed class without a
      recovery in between, or more than the flap window has passed since it came back. */
  predicate ResetAtEnd(h: seq<Sight>, p: Policy)
    requires h != []
  {
    var last, before := h[|h| - 1], h[..|h| - 1];
    !last.live
    || (before != [] && before[|before| - 1].live && before[|before| - 1].fault.Some?
        && last.fault.Some? && last.fault != before[|before| - 1].fault)
    || (RecoveredAt(before).Some? && last.now - RecoveredAt(before).value > FlapWindow(p))
  }

  function AttemptsSinceReset(h: seq<Sight>, p: Policy): nat {
    if h == [] then 0
    else (if ResetAtEnd(h, p) then 0 else AttemptsSinceReset(h[..|h| - 1], p))
         + (if h[|h| - 1].acted.Some? then 1 else 0)
  }

  /** The latest repair of the current stretch. */
  function LastActInStretch(h: seq<Sight>): Option<(Time, Action)> {
    if h == [] then None
    else
      var last := h[|h| - 1];
      if last.acted.Some? then Some((last.now, last.acted.value))
      else if |h| >= 2 && SameStretch(h[|h| - 2], last) then LastActInStretch(h[..|h| - 1])
      else None
  }

  /** The recovery is still remembered: it has just happened, or is within the flap window. */
  predicate RecoveryKnown(h: seq<Sight>, p: Policy)
    requires h != [] && Quiet(h[|h| - 1])
  {
    RecoveredAt(h).Some? && (QuietStart(h) == |h| - 1 || h[|h| - 1].now - RecoveredAt(h).value <= FlapWindow(p))
  }

  /** The memory a node's history calls for. A node that is quiet and has nothing to be
      remembered may equally have an untouched entry or none. */
  ghost predicate Refines(st: Option<NodeState>, h: seq<Sight>, p: Policy) {
    && 0 <= AttemptsSinceReset(h, p) <= Max(0, p.maxAttempts)
    && if h == [] || !h[|h| - 1].live then
         st == None && AttemptsSinceReset(h, p) == 0
       else if h[|h| - 1].fault.Some? then
         var act := LastActInStretch(h);
         st == Some(NodeState(
                      h[|h| - 1].fault,
                      Some(h[StretchStart(h)].now),
                      AttemptsSinceReset(h, p),
                      if act.Some? then Some(act.value.1) else None,
                      if act.Some? then Some(act.value.0) else None,
                      None,
                      act.Some? && AttemptsSinceReset(h, p) >= p.maxAttempts))
       else if RecoveryKnown(h, p) then
         st == Some(UNTOUCHED.(attempts := AttemptsSinceReset(h, p), repairedAt := RecoveredAt(h)))
       else
         (st == None || st == Some(UNTOUCHED)) && AttemptsSinceReset(h, p) == 0
  }

  // ---------------------------------------------------------------- one node, one tick

  function NodeStep(st: Option<NodeState>, s: Sight, p: Policy): Option<NodeState> {
    if !s.live then None
    else
      var m := MergeNode(st, s.fault, p, s.now);
      if s.acted.Some?
      then Some(Recorded(if m.Some? then m.value else UNTOUCHED, s.acted.value, p, s.now))
      else m
  }

  /** What had to hold of the merged memory for the sight's repair to be allowed. */
  predicate Licensed(st: Option<NodeState>, s: Sight, p: Policy) {
    s.acted.Some? ==>
      var m := MergeNode(st, s.fault, p, s.now);
      p.enabled && s.live && s.fault.Some? && m.Some? && MayAct(p, m.value, s.now)
      && (m.value.attempts != 0 ==> p.replace && s.now - m.value.since.value >= p.replaceAfter)
      && (s.acted.value in {Replace, Restore} ==> m.value.attempts != 0)
  }

  lemma MergedAt(p: Policy, mem: Memory, t: Tick, vm: string)
    ensures Lookup(TickFaults(p, t), vm) == FaultOf(t.cluster, t.obs, p, vm)
    ensures Lookup(Merged(p, mem, t), vm) == if vm in LiveNames(t.cluster)
              then MergeNode(Lookup(mem, vm), FaultOf(t.cluster, t.obs, p, vm), p, t.obs.now) else None
  {
  }

  lemma TickMovesNode(p: Policy, mem: Memory, t: Tick, vm: string)
    ensures Lookup(AfterTick(p, mem, t), vm) == NodeStep(Lookup(mem, vm), SightOf(p, mem, t, vm), p)
  {
    MergedAt(p, mem, t, vm);
    if PlanAt(p, mem, t).Act() {
      var n := PlannedNode(p, t.cluster, t.obs, TickFaults(p, t), Merged(p, mem, t));
      assert n.vmName in LiveNames(t.cluster);
    }
  }

  /** What had to hold for a node's action to be available. */
  lemma ChoiceIsLicensed(p: Policy, c: Cluster, mem: Memory, faults: Faults, n: Node, now: Time)
    requires ChoiceFor(p, c, mem, faults, n, now).Some?
    ensures var st := StateOf(mem, n.vmName);
            && MayAct(p, st, now)
            && (st.attempts != 0 ==> p.replace && now - st.since.value >= p.replaceAfter)
            && (ChoiceFor(p, c, mem, faults, n, now).value in {Replace, Restore} ==> st.attempts != 0)
  {
  }

  lemma TickIsLicensed(p: Policy, mem: Memory, t: Tick, vm: string)
    ensures Licensed(Lookup(mem, vm), SightOf(p, mem, t, vm), p)
  {
    MergedAt(p, mem, t, vm);
    if PlanAt(p, mem, t).Act() {
      var m := Merged(p, mem, t);
      var n := PlannedNode(p, t.cluster, t.obs, TickFaults(p, t), m);
      assert n.vmName in LiveNames(t.cluster);
      ChoiceIsLicensed(p, t.cluster, m, TickFaults(p, t), n, t.obs.now);
      FaultyNodesAreRemembered(p, mem, t);
    }
  }

  lemma TickIsNodeStep(p: Policy, mem: Memory, t: Tick, vm: string)
    ensures Lookup(AfterTick(p, mem, t), vm) == NodeStep(Lookup(mem, vm), SightOf(p, mem, t, vm), p)
    ensures Licensed(Lookup(mem, vm), SightOf(p, mem, t, vm), p)
  {
    TickMovesNode(p, mem, t, vm);
    TickIsLicensed(p, mem, t, vm);
  }

  lemma AppendSight(h: seq<Sight>, s: Sight, p: Policy)
    ensures (h + [s])[..|h + [s]| - 1] == h && (h + [s])[|h|] == s
    ensures AttemptsSinceReset(h + [s], p)
         == (if ResetAtEnd(h + [s], p) then 0 else AttemptsSinceReset(h, p)) + (if s.acted.Some? then 1 else 0)
    ensures h != [] ==> (h + [s])[|h| - 1] == h[|h| - 1]
  {
    assert (h + [s])[..|h + [s]| - 1] == h;
  }

  /** The invariant of the whole machine: a tick keeps memory and history in step. */
  lemma StepRefines(st: Option<NodeState>, h: seq<Sight>, s: Sight, p: Policy)
    requires Refines(st, h, p) && Licensed(st, s, p)
    requires h != [] ==> h[|h| - 1].now <= s.now
    ensures Refines(NodeStep(st, s, p), h + [s], p)
  {
    AppendSight(h, s, p);
    if s.live {
      if s.fault.Some? {
        StepFaulty(st, h, s, p);
      } else {
        StepQuiet(st, h, s, p);
      }
    }
  }

  lemma StepFaulty(st: Option<NodeState>, h: seq<Sight>, s: Sight, p: Policy)
    requires Refines(st, h, p) && Licensed(st, s, p)
    requires s.live && s.fault.Some?
    requires h != [] ==> h[|h| - 1].now <= s.now
    ensures Refines(NodeStep(st, s, p), h + [s], p)
  {
    AppendSight(h, s, p);
    var g := h + [s];
    var m := MergeNode(st, s.fault, p, s.now);
    if h != [] && SameStretch(h[|h| - 1], s) {
      assert StretchStart(g) == StretchStart(h);
    } else {
      assert StretchStart(g) == |h|;
    }
  }

  lemma StepQuiet(st: Option<NodeState>, h: seq<Sight>, s: Sight, p: Policy)
    requires Refines(st, h, p) && Licensed(st, s, p)
    requires Quiet(s)
    requires h != [] ==> h[|h| - 1].now <= s.now
    ensures Refines(NodeStep(st, s, p), h + [s], p)
  {
    AppendSight(h, s, p);
    var g := h + [s];
    if h != [] && h[|h| - 1].live && h[|h| - 1].fault.Some? {
      assert RecoveredAt(g) == Some(s.now);
    } else if h != [] && Quiet(h[|h| - 1]) {
      assert RecoveredAt(g) == RecoveredAt(h);
    } else {
      assert RecoveredAt(g) == None;
    }
  }

  /** After any run, each node's memory is what its history of sights calls for. */
  lemma {:induction false} MemoryRefinesHistory(p: Policy, ticks: seq<Tick>, vm: string)
    requires Timely(ticks)
    ensures Refines(Lookup(RunMemory(p, ticks), vm), History(p, ticks, vm), p)
  {
    if ticks != [] {
      var before, t := ticks[..|ticks| - 1], ticks[|ticks| - 1];
      MemoryRefinesHistory(p, before, vm);
      if before != [] {
        SightAt(p, before, vm, |before| - 1);
      }
      var mem := RunMemory(p, before);
      TickIsNodeStep(p, mem, t, vm);
      StepRefines(Lookup(mem, vm), History(p, before, vm), SightOf(p, mem, t, vm), p);
    }
  }
}
