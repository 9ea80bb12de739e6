/** What the repair policy promises over whole runs, stated on the history of one node. */
module RepairGuarantees {
  import opened Wrappers
  import opened Repair
  import opened RepairRuns

  // ---------------------------------------------------------------- the promises

  predicate ResetAt(h: seq<Sight>, p: Policy, k: int)
    requires 0 <= k < |h|
  {
    ResetAtEnd(h[..k + 1], p)
  }

  /** No tick after i, up to and including j, gives the node a clean slate. */
  predicate NoResetIn(h: seq<Sight>, p: Policy, i: int, j: int)
    requires 0 <= i <= j < |h|
  {
    forall k | i < k <= j :: !ResetAt(h, p, k)
  }

  /** The repairs among the sights i..j. */
  function Acts(h: seq<Sight>, i: int, j: int): nat
    requires 0 <= i <= j < |h|
    decreases j
  {
    (if i < j then Acts(h, i, j - 1) else 0) + (if h[j].acted.Some? then 1 else 0)
  }

  /** However often the node recovers and fails again, a chain of ticks without a reset holds at
      most MaxAttempts repairs of it. */
  ghost predicate BoundedRepairs(h: seq<Sight>, p: Policy) {
    forall i, j | 0 <= i <= j < |h| && NoResetIn(h, p, i, j) :: Acts(h, i, j) <= Max(0, p.maxAttempts)
  }

  /** Once the attempts are used up, the node is left alone until a reset. */
  ghost predicate GivesUp(h: seq<Sight>, p: Policy) {
    forall i, j | 0 <= i < j < |h| && NoResetIn(h, p, i, j) ::
      AttemptsSinceReset(h[..i + 1], p) >= p.maxAttempts ==> h[j].acted == None
  }

  predicate Consecutive(h: seq<Sight>, p: Policy, i: int, j: int) {
    0 <= i < j < |h| && h[i].acted.Some? && h[j].acted.Some?
    && (forall k | i < k < j :: h[k].acted.None?)
    && NoResetIn(h, p, i, j)
  }

  predicate OneStretch(h: seq<Sight>, i: int, j: int)
    requires 0 <= i <= j < |h|
  {
    h[j].fault.Some? && forall k | i <= k <= j :: h[k].live && h[k].fault == h[j].fault
  }

  /** Consecutive repairs of a chain. Within one unbroken stretch they are at least the backoff of
      the earlier attempt apart; across a recovery the last-action stamp is gone, and what keeps
      them apart is ReplaceAfter, counted from the new failure. */
  ghost predicate SpacedRepairs(h: seq<Sight>, p: Policy) {
    forall i, j | Consecutive(h, p, i, j) ::
      h[j].now - h[i].now >=
        if OneStretch(h, i, j) then Backoff(p, AttemptsSinceReset(h[..i + 1], p)) else p.replaceAfter
  }

  /** The same fault at every tick of start..j, for at least ReplaceAfter, after a repair at i
      that no reset has wiped out. */
  predicate Earned(h: seq<Sight>, p: Policy, i: int, start: int, j: int) {
    0 <= i < j < |h| && 0 <= start <= j
    && h[i].acted.Some? && NoResetIn(h, p, i, j)
    && h[j].now - h[start].now >= p.replaceAfter
    && OneStretch(h, start, j)
  }

  /** Nothing is rebuilt or restored on a hunch. */
  ghost predicate DestructionIsEarned(h: seq<Sight>, p: Policy) {
    forall j | 0 <= j < |h| && h[j].acted in {Some(Replace), Some(Restore)} ::
      exists i, start :: Earned(h, p, i, start, j)
  }

  // ---------------------------------------------------------------- every run of one node

  predicate StepAt(h: seq<Sight>, states: seq<Option<NodeState>>, p: Policy, k: int)
    requires 0 <= k < |h| && |states| == |h| + 1
  {
    states[k + 1] == NodeStep(states[k], h[k], p) && Licensed(states[k], h[k], p)
  }

  /** A run of one node's machine: its memory after each sight, and every repair licensed. */
  ghost predicate NodeRun(h: seq<Sight>, states: seq<Option<NodeState>>, p: Policy) {
    && |states| == |h| + 1
    && states[0] == None
    && (forall k | 0 <= k < |h| :: StepAt(h, states, p, k))
    && (forall i, j | 0 <= i <= j < |h| :: h[i].now <= h[j].now)
  }

  lemma {:induction false} NodeRunRefines(h: seq<Sight>, states: seq<Option<NodeState>>, p: Policy, k: nat)
    requires NodeRun(h, states, p) && k <= |h|
    ensures Refines(states[k], h[..k], p)
  {
    if k == 0 {
      assert h[..0] == [];
    } else {
      NodeRunRefines(h, states, p, k - 1);
      assert h[..k] == h[..k - 1] + [h[k - 1]];
      assert StepAt(h, states, p, k - 1);
      StepRefines(states[k - 1], h[..k - 1], h[k - 1], p);
    }
  }

  lemma AttemptsAfter(h: seq<Sight>, p: Policy, k: nat)
    requires k < |h|
    ensures AttemptsSinceReset(h[..k + 1], p)
         == (if ResetAt(h, p, k) then 0 else AttemptsSinceReset(h[..k], p)) + (if h[k].acted.Some? then 1 else 0)
  {
    assert h[..k + 1][..k] == h[..k];
  }

  lemma {:induction false} ActsCounted(h: seq<Sight>, p: Policy, i: int, j: int)
    requires 0 <= i <= j < |h| && NoResetIn(h, p, i, j)
    ensures Acts(h, i, j) <= AttemptsSinceReset(h[..j + 1], p)
    ensures ResetAt(h, p, i) || i == 0 ==> Acts(h, i, j) == AttemptsSinceReset(h[..j + 1], p)
    decreases j
  {
    AttemptsAfter(h, p, j);
    if i < j {
      ActsCounted(h, p, i, j - 1);
      assert h[..j - 1 + 1] == h[..j];
    } else if i == 0 {
      assert h[..0] == [];
    }
  }

  lemma Bounded(h: seq<Sight>, states: seq<Option<NodeState>>, p: Policy)
    requires NodeRun(h, states, p)
    ensures BoundedRepairs(h, p)
  {
    forall i, j | 0 <= i <= j < |h| && NoResetIn(h, p, i, j)
      ensures Acts(h, i, j) <= Max(0, p.maxAttempts)
    {
      ActsCounted(h, p, i, j);
      NodeRunRefines(h, states, p, j + 1);
    }
  }

  /** What the machine knew when it acted at j, in terms of the history before j. */
  lemma ActedAt(h: seq<Sight>, states: seq<Option<NodeState>>, p: Policy, j: nat)
    requires NodeRun(h, states, p) && j < |h| && h[j].acted.Some?
    ensures p.enabled && h[j].live && h[j].fault.Some?
    ensures var known := if ResetAt(h, p, j) then 0 else AttemptsSinceReset(h[..j], p);
            known < p.maxAttempts
            && (known != 0 ==> p.replace && h[j].now - h[StretchStart(h[..j + 1])].now >= p.replaceAfter)
            && (h[j].acted in {Some(Replace), Some(Restore)} ==> known != 0)
    ensures j > 0 && SameStretch(h[j - 1], h[j]) && LastActInStretch(h[..j]).Some? ==>
      h[j].now - LastActInStretch(h[..j]).value.0 >= Backoff(p, AttemptsSinceReset(h[..j], p))
  {
    NodeRunRefines(h, states, p, j);
    NodeRunRefines(h, states, p, j + 1);
    AttemptsAfter(h, p, j);
    assert StepAt(h, states, p, j);
    assert h[..j + 1] == h[..j] + [h[j]];
    assert j > 0 ==> h[..j][j - 1] == h[j - 1];
    ActedOn(states[j], h[..j], h[j], p);
  }

  lemma ActedOn(st: Option<NodeState>, g: seq<Sight>, s: Sight, p: Policy)
    requires Refines(st, g, p) && Refines(NodeStep(st, s, p), g + [s], p) && Licensed(st, s, p) && s.acted.Some?
    ensures p.enabled && s.live && s.fault.Some?
    ensures var known := if ResetAtEnd(g + [s], p) then 0 else AttemptsSinceReset(g, p);
            known < p.maxAttempts
            && (known != 0 ==> p.replace && s.now - (g + [s])[StretchStart(g + [s])].now >= p.replaceAfter)
            && (s.acted in {Some(Replace), Some(Restore)} ==> known != 0)
    ensures g != [] && SameStretch(g[|g| - 1], s) && LastActInStretch(g).Some? ==>
      s.now - LastActInStretch(g).value.0 >= Backoff(p, AttemptsSinceReset(g, p))
  {
    AppendSight(g, s, p);
  }

  lemma StopsTrying(h: seq<Sight>, states: seq<Option<NodeState>>, p: Policy)
    requires NodeRun(h, states, p)
    ensures GivesUp(h, p)
  {
    forall i, j | 0 <= i < j < |h| && NoResetIn(h, p, i, j) && AttemptsSinceReset(h[..i + 1], p) >= p.maxAttempts
      ensures h[j].acted == None
    {
      AttemptsGrow(h, p, i, j - 1);
      assert h[..j - 1 + 1] == h[..j];
      if h[j].acted.Some? {
        ActedAt(h, states, p, j);
      }
    }
  }

  lemma {:induction false} AttemptsGrow(h: seq<Sight>, p: Policy, i: int, j: int)
    requires 0 <= i <= j < |h| && NoResetIn(h, p, i, j)
    ensures AttemptsSinceReset(h[..i + 1], p) <= AttemptsSinceReset(h[..j + 1], p)
    decreases j
  {
    if i < j {
      AttemptsGrow(h, p, i, j - 1);
      AttemptsAfter(h, p, j);
      assert h[..j - 1 + 1] == h[..j];
    }
  }

  lemma {:induction false} StretchRemembersAct(h: seq<Sight>, p: Policy, i: nat, j: nat)
    requires i <= j < |h| && OneStretch(h, i, j)
    requires h[i].acted.Some? && forall k | i < k <= j :: h[k].acted.None?
    ensures LastActInStretch(h[..j + 1]) == Some((h[i].now, h[i].acted.value))
    ensures AttemptsSinceReset(h[..j + 1], p) == AttemptsSinceReset(h[..i + 1], p)
  {
    if i < j {
      StretchRemembersAct(h, p, i, j - 1);
      assert SameStretch(h[j - 1], h[j]);
      assert h[..j + 1][..j] == h[..j] == h[..j - 1 + 1];
    }
  }

  lemma SpacedInStretch(h: seq<Sight>, states: seq<Option<NodeState>>, p: Policy, i: int, j: int)
    requires NodeRun(h, states, p) && Consecutive(h, p, i, j) && OneStretch(h, i, j)
    ensures h[j].now - h[i].now >= Backoff(p, AttemptsSinceReset(h[..i + 1], p))
  {
    ActedAt(h, states, p, j);
    assert SameStretch(h[j - 1], h[j]);
    assert OneStretch(h, i, j - 1);
    StretchRemembersAct(h, p, i, j - 1);
    assert h[..j - 1 + 1] == h[..j];
  }

  lemma ChainHasAttempts(h: seq<Sight>, p: Policy, i: nat, j: nat)
    requires i < j < |h| && h[i].acted.Some? && NoResetIn(h, p, i, j)
    ensures !ResetAt(h, p, j) && AttemptsSinceReset(h[..j], p) >= 1
  {
    AttemptsAfter(h, p, i);
    AttemptsGrow(h, p, i, j - 1);
    assert h[..j - 1 + 1] == h[..j];
  }

  lemma SpacedAcrossRecovery(h: seq<Sight>, states: seq<Option<NodeState>>, p: Policy, i: int, j: int)
    requires NodeRun(h, states, p) && Consecutive(h, p, i, j) && !OneStretch(h, i, j)
    ensures h[j].now - h[i].now >= p.replaceAfter
  {
    ChainHasAttempts(h, p, i, j);
    ActedAt(h, states, p, j);
    var start := StretchStart(h[..j + 1]);
    assert h[j].now - h[start].now >= p.replaceAfter;
    var brk :| i <= brk <= j && !(h[brk].live && h[brk].fault == h[j].fault);
    StretchStartsAfter(h, brk, j);
    assert h[i].now <= h[start].now;
  }

  lemma StretchStartsAfter(h: seq<Sight>, brk: nat, j: nat)
    requires brk <= j < |h| && !(h[brk].live && h[brk].fault == h[j].fault)
    requires h[j].live && h[j].fault.Some?
    ensures StretchStart(h[..j + 1]) > brk
  {
    var g := h[..j + 1];
    assert g[brk] == h[brk] && g[j] == h[j];
  }

  lemma Spaced(h: seq<Sight>, states: seq<Option<NodeState>>, p: Policy)
    requires NodeRun(h, states, p)
    ensures SpacedRepairs(h, p)
  {
    forall i, j | Consecutive(h, p, i, j)
      ensures h[j].now - h[i].now >=
                if OneStretch(h, i, j) then Backoff(p, AttemptsSinceReset(h[..i + 1], p)) else p.replaceAfter
    {
      if OneStretch(h, i, j) {
        SpacedInStretch(h, states, p, i, j);
      } else {
        SpacedAcrossRecovery(h, states, p, i, j);
      }
    }
  }

  lemma {:induction false} EarlierAttempt(h: seq<Sight>, p: Policy, j: nat) returns (i: nat)
    requires j < |h| && AttemptsSinceReset(h[..j + 1], p) > 0
    ensures i <= j && h[i].acted.Some? && NoResetIn(h, p, i, j)
  {
    AttemptsAfter(h, p, j);
    if h[j].acted.Some? {
      i := j;
    } else {
      assert h[..0] == [];
      assert j > 0 ==> h[..j - 1 + 1] == h[..j];
      i := EarlierAttempt(h, p, j - 1);
      assert forall k | i < k <= j - 1 :: !ResetAt(h, p, k);
    }
  }

  lemma EarnedAt(h: seq<Sight>, states: seq<Option<NodeState>>, p: Policy, j: nat) returns (i: nat, start: nat)
    requires NodeRun(h, states, p) && j < |h| && h[j].acted in {Some(Replace), Some(Restore)}
    ensures Earned(h, p, i, start, j)
  {
    ActedAt(h, states, p, j);
    start := StretchStart(h[..j + 1]);
    assert forall k | start <= k <= j :: h[..j + 1][k] == h[k];
    assert h[..0] == [];
    assert j > 0 ==> h[..j - 1 + 1] == h[..j];
    i := EarlierAttempt(h, p, j - 1);
    assert forall k | i < k <= j - 1 :: !ResetAt(h, p, k);
  }

  lemma Restrained(h: seq<Sight>, states: seq<Option<NodeState>>, p: Policy)
    requires NodeRun(h, states, p)
    ensures DestructionIsEarned(h, p)
  {
    forall j | 0 <= j < |h| && h[j].acted in {Some(Replace), Some(Restore)}
      ensures exists i, start :: Earned(h, p, i, start, j)
    {
      var i, start := EarnedAt(h, states, p, j);
    }
  }

  // ---------------------------------------------------------------- every run of the cluster

  function NodeTrace(p: Policy, ticks: seq<Tick>, vm: string): seq<Option<NodeState>> {
    seq(|ticks| + 1, k requires 0 <= k <= |ticks| => Lookup(RunMemory(p, ticks[..k]), vm))
  }

  /** Seen from one node, a run of the whole cluster is a run of that node's machine. */
  lemma RunsProject(p: Policy, ticks: seq<Tick>, vm: string)
    requires Timely(ticks)
    ensures NodeRun(History(p, ticks, vm), NodeTrace(p, ticks, vm), p)
  {
    var h, states := History(p, ticks, vm), NodeTrace(p, ticks, vm);
    forall k | 0 <= k < |h|
      ensures h[k].now == ticks[k].obs.now
      ensures StepAt(h, states, p, k)
    {
      StepProjects(p, ticks, vm, k);
    }
    assert ticks[..0] == [];
  }

  lemma MemoryOneMore(p: Policy, ticks: seq<Tick>, k: nat)
    requires k < |ticks|
    ensures RunMemory(p, ticks[..k + 1]) == AfterTick(p, RunMemory(p, ticks[..k]), ticks[k])
  {
    assert ticks[..k + 1][..k] == ticks[..k];
  }

  lemma StepProjects(p: Policy, ticks: seq<Tick>, vm: string, k: nat)
    requires k < |ticks|
    ensures History(p, ticks, vm)[k].now == ticks[k].obs.now
    ensures StepAt(History(p, ticks, vm), NodeTrace(p, ticks, vm), p, k)
  {
    SightAt(p, ticks, vm, k);
    MemoryOneMore(p, ticks, k);
    TickIsNodeStep(p, RunMemory(p, ticks[..k]), ticks[k], vm);
  }

  /** In every run, for every node, all four promises hold. */
  lemma RunsKeepThePromises(p: Policy, ticks: seq<Tick>, vm: string)
    requires Timely(ticks)
    ensures BoundedRepairs(History(p, ticks, vm), p)
    ensures GivesUp(History(p, ticks, vm), p)
    ensures SpacedRepairs(History(p, ticks, vm), p)
    ensures DestructionIsEarned(History(p, ticks, vm), p)
  {
    RunsProject(p, ticks, vm);
    var h, states := History(p, ticks, vm), NodeTrace(p, ticks, vm);
    Bounded(h, states, p);
    StopsTrying(h, states, p);
    Spaced(h, states, p);
    Restrained(h, states, p);
  }

  /** The counter in memory is the number of repairs since r, the last tick that reset the node
      (or the first tick of the run). */
  lemma CounterCountsRepairs(p: Policy, ticks: seq<Tick>, vm: string, r: int)
    requires Timely(ticks) && 0 <= r < |ticks|
    requires var h := History(p, ticks, vm); (r == 0 || ResetAt(h, p, r)) && NoResetIn(h, p, r, |h| - 1)
    requires vm in RunMemory(p, ticks)
    ensures RunMemory(p, ticks)[vm].attempts == Acts(History(p, ticks, vm), r, |ticks| - 1)
  {
    var h := History(p, ticks, vm);
    MemoryRefinesHistory(p, ticks, vm);
    assert Lookup(RunMemory(p, ticks), vm) == Some(RunMemory(p, ticks)[vm]);
    RemembersCounter(Lookup(RunMemory(p, ticks), vm), h, p);
    ActsCounted(h, p, r, |h| - 1);
    assert h[..|h| - 1 + 1] == h;
  }

  lemma RemembersCounter(st: Option<NodeState>, h: seq<Sight>, p: Policy)
    requires Refines(st, h, p) && st.Some?
    ensures st.value.attempts == AttemptsSinceReset(h, p)
    ensures h != [] && h[|h| - 1].live && st.value.fault == h[|h| - 1].fault
    ensures st.value.fault.Some? <==> st.value.since.Some?
    ensures st.value.fault.Some? ==> st.value.since == Some(h[StretchStart(h)].now)
  {
  }

  /** A live node shows a fault exactly when it has a clock, and the clock is the first sight of
      the unbroken stretch that reports this same fault, whatever was tried in between. */
  lemma ClockStartsTheStretch(p: Policy, ticks: seq<Tick>, vm: string)
    requires Timely(ticks) && vm in RunMemory(p, ticks)
    ensures ticks != [] && History(p, ticks, vm)[|ticks| - 1].live
    ensures var st, h := RunMemory(p, ticks)[vm], History(p, ticks, vm);
            (st.fault.Some? <==> st.since.Some?)
            && st.fault == h[|h| - 1].fault
            && (st.fault.Some? ==> st.since == Some(h[StretchStart(h)].now))
  {
    MemoryRefinesHistory(p, ticks, vm);
    assert Lookup(RunMemory(p, ticks), vm) == Some(RunMemory(p, ticks)[vm]);
    RemembersCounter(Lookup(RunMemory(p, ticks), vm), History(p, ticks, vm), p);
  }

  // ---------------------------------------------------------------- what is not promised

  /** A suspended node at the very next tick: it has an action exactly when the fault it now shows is
      another one whose grace period is zero or, for VM-down, absent. (What else ends a suspension over
      whole runs is in RepairSuspension.) */
  lemma SuspendedNodeActedOnAgain(p: Policy, c: Cluster, mem: Memory, faults: Faults, n: Node, now: Time)
    requires n in c.nodes
    requires n.vmName in mem && mem[n.vmName].suspended
    requires mem[n.vmName].fault.Some? && mem[n.vmName].since.Some? && mem[n.vmName].repairedAt.None?
    ensures ChoiceFor(p, c, MergedNodes(mem, c, faults, p, now), faults, n, now).Some?
       <==> n.vmName in faults
            && Some(faults[n.vmName]) != mem[n.vmName].fault
            && p.maxAttempts > 0
            && (match faults[n.vmName]
                case VMDown => true
                case Missing => p.nodeStartupGrace <= 0
                case NotReady => p.notReadyGrace <= 0)
  {
    assert n.vmName in LiveNames(c);
    var m := MergedNodes(mem, c, faults, p, now);
    assert Lookup(m, n.vmName) == MergeNode(Lookup(mem, n.vmName), Lookup(faults, n.vmName), p, now);
  }
}
