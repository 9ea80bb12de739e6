/** How far the backoff promise reaches. A recovery wipes the last-action stamp, so over a chain
    of recoveries only ReplaceAfter keeps attempts apart; this is tight for every policy. */
module RepairLimits {
  import opened Wrappers
  import opened Roles
  import opened Repair
  import opened RepairRuns
  import opened RepairGuarantees

  // ---------------------------------------------------------------- one worker, seen any way

  const VM := "w"
  const WORKER := Node(VM, Role.Worker, "10.0.0.1")
  const ONE_WORKER := Cluster([WORKER], 1, None)

  /** A fresh report of a reachable API server. */
  function Report(p: Policy, nodes: seq<NodeHealth>, now: Time): Option<Health> {
    Some(Health(now - p.healthMaxAge, [HealthCheck("api-server", Healthy)], nodes))
  }

  /** What a tick shows of the one worker: that it is ready, nothing at all, or a fault. */
  datatype View = Ready | Blind | Shows(what: Fault) {
    function Reading(): Option<Fault> {
      if Shows? then Some(what) else None
    }

    /** With a health report. The hypervisor needs none to report a VM off. */
    predicate Reports() {
      !Blind? && this != Shows(VMDown)
    }
  }

  /** A tick with that view of the worker. */
  function Poll(p: Policy, seen: View, now: Time): Tick {
    Tick(ONE_WORKER,
         match seen
         case Ready => Observation(Report(p, [NodeHealth(VM, true)], now), map[], 0.0, 0, now)
         case Blind => Observation(None, map[], 0.0, 0, now)
         case Shows(VMDown) => Observation(None, map[VM := false], 0.0, 0, now)
         case Shows(NotReady) => Observation(Report(p, [NodeHealth(VM, false)], now), map[], 0.0, 0, now)
         case Shows(Missing) => Observation(Report(p, [], now), map[], 0.0, 0, now))
  }

  lemma OneWorkerIsLive()
    ensures LiveNames(ONE_WORKER) == {VM}
  {
    assert ONE_WORKER.nodes[0].vmName == VM;
  }

  lemma PollFault(p: Policy, seen: View, now: Time, vm: string)
    ensures FaultOf(ONE_WORKER, Poll(p, seen, now).obs, p, vm) == if vm == VM then seen.Reading() else None
    ensures Observable(Poll(p, seen, now).obs, p) == seen.Reports()
  {
    OneWorkerIsLive();
    assert ONE_WORKER.nodes[0] == WORKER;
    if seen == Shows(NotReady) || seen == Ready {
      var h := Poll(p, seen, now).obs.health.value;
      assert h.nodes[0].nodeName == VM;
    }
  }

  lemma PollFaults(p: Policy, seen: View, now: Time)
    ensures TickFaults(p, Poll(p, seen, now)) == if seen.Shows? then map[VM := seen.what] else map[]
  {
    var faults := TickFaults(p, Poll(p, seen, now));
    forall vm
      ensures Lookup(faults, vm) == if vm == VM then seen.Reading() else None
    {
      PollFault(p, seen, now, vm);
      assert Lookup(faults, vm) == FaultOf(ONE_WORKER, Poll(p, seen, now).obs, p, vm);
    }
    SameFaults(faults, if seen.Shows? then map[VM := seen.what] else map[]);
  }

  lemma OneWorkerOrder()
    ensures Workers(ONE_WORKER.nodes) + ControlPlanes(ONE_WORKER.nodes) == [WORKER]
  {
    assert ONE_WORKER.nodes[1..] == [];
    assert Workers(ONE_WORKER.nodes) == [WORKER] + Workers([]) == [WORKER];
    assert ControlPlanes(ONE_WORKER.nodes) == ControlPlanes([]) == [];
  }

  lemma PollPlan(p: Policy, mem: Memory, seen: View, now: Time)
    requires p.enabled
    ensures PlanAt(p, mem, Poll(p, seen, now)) ==
            if !seen.Shows? then NoPlan
            else var m := Merged(p, mem, Poll(p, seen, now));
                 var a := NextChoice(p, ONE_WORKER, m, WORKER, StateOf(m, VM), seen.what, now);
                 if a.Some? then Do(VM, a.value, seen.what) else NoPlan
  {
    PollFaults(p, seen, now);
    OneWorkerOrder();
    var t := Poll(p, seen, now);
    var m, faults := Merged(p, mem, t), TickFaults(p, t);
    assert [WORKER][1..] == [];
    assert FirstChoice(p, ONE_WORKER, m, faults, [], now) == NoPlan;
    assert FirstChoice(p, ONE_WORKER, m, faults, [WORKER], now) ==
      var a := ChoiceFor(p, ONE_WORKER, m, faults, WORKER, now);
      if a.Some? then Do(VM, a.value, faults[VM]) else NoPlan;
  }

  // ---------------------------------------------------------------- the one worker's machine

  /** What a poll shows of the worker, computed from the worker's own memory alone. */
  function WorkerSight(p: Policy, st: Option<NodeState>, seen: View, now: Time): Sight {
    if !seen.Shows? then Sight(now, true, seen.Reports(), None, None)
    else
      var m := MergeNode(st, seen.Reading(), p, now);
      Sight(now, true, seen.Reports(), seen.Reading(), NextChoice(p, ONE_WORKER, map[], WORKER, m.value, seen.what, now))
  }

  lemma PollSight(p: Policy, mem: Memory, seen: View, now: Time)
    requires p.enabled
    ensures SightOf(p, mem, Poll(p, seen, now), VM) == WorkerSight(p, Lookup(mem, VM), seen, now)
  {
    OneWorkerIsLive();
    PollFault(p, seen, now, VM);
    MergedAt(p, mem, Poll(p, seen, now), VM);
    PollPlan(p, mem, seen, now);
  }

  datatype Beat = Beat(seen: View, now: Time)

  function Polls(p: Policy, beats: seq<Beat>): (ticks: seq<Tick>)
    ensures |ticks| == |beats|
  {
    seq(|beats|, i requires 0 <= i < |beats| => Poll(p, beats[i].seen, beats[i].now))
  }

  datatype Watched = Watched(st: Option<NodeState>, h: seq<Sight>)

  function Watch(p: Policy, w: Watched, b: Beat): Watched {
    var s := WorkerSight(p, w.st, b.seen, b.now);
    Watched(NodeStep(w.st, s, p), w.h + [s])
  }

  function WatchAll(p: Policy, beats: seq<Beat>): Watched {
    if beats == [] then Watched(None, [])
    else Watch(p, WatchAll(p, beats[..|beats| - 1]), beats[|beats| - 1])
  }

  /** Watching the worker alone is watching the cluster's run. */
  lemma {:induction false} WatchIsRun(p: Policy, beats: seq<Beat>)
    requires p.enabled
    ensures WatchAll(p, beats) == Watched(Lookup(RunMemory(p, Polls(p, beats)), VM), History(p, Polls(p, beats), VM))
  {
    if beats != [] {
      var before, b := beats[..|beats| - 1], beats[|beats| - 1];
      WatchIsRun(p, before);
      var mem := RunMemory(p, Polls(p, before));
      assert Polls(p, beats)[..|beats| - 1] == Polls(p, before);
      PollSight(p, mem, b.seen, b.now);
      TickIsNodeStep(p, mem, Poll(p, b.seen, b.now), VM);
    }
  }

  lemma WatchSnoc(p: Policy, beats: seq<Beat>, b: Beat)
    ensures WatchAll(p, beats + [b]) == Watch(p, WatchAll(p, beats), b)
  {
    assert (beats + [b])[..|beats + [b]| - 1] == beats;
  }

  lemma WatchTwo(p: Policy, beats: seq<Beat>, x: Beat, y: Beat)
    ensures WatchAll(p, beats + [x, y]) == Watch(p, Watch(p, WatchAll(p, beats), x), y)
  {
    WatchSnoc(p, beats, x);
    WatchSnoc(p, beats + [x], y);
    assert beats + [x] + [y] == beats + [x, y];
  }

  lemma WatchThree(p: Policy, beats: seq<Beat>, x: Beat, y: Beat, z: Beat)
    ensures WatchAll(p, beats + [x, y, z]) == Watch(p, Watch(p, Watch(p, WatchAll(p, beats), x), y), z)
  {
    WatchTwo(p, beats, x, y);
    WatchSnoc(p, beats + [x, y], z);
    assert beats + [x, y] + [z] == beats + [x, y, z];
  }

  // ---------------------------------------------------------------- a chain of recoveries

  /** How long a failure must last before the next attempt of a chain. */
  function Wait(p: Policy): nat {
    Max(0, p.replaceAfter)
  }

  /** When the k-th attempt of the chain is made. */
  function AttemptTime(p: Policy, k: int): Time {
    (k - 1) * Wait(p)
  }

  lemma NextAttempt(p: Policy, k: int)
    ensures AttemptTime(p, k + 1) == AttemptTime(p, k) + Wait(p)
  {
  }

  const DOWN := Some(VMDown)
  const OFF := Shows(VMDown)

  /** On and off again at once, then the wait; with no wait to observe, the attempt comes at once. */
  function FlapBack(p: Policy, k: int): seq<Beat> {
    var now := AttemptTime(p, k);
    if Wait(p) > 0 then [Beat(Ready, now), Beat(OFF, now), Beat(OFF, AttemptTime(p, k + 1))]
    else [Beat(Ready, now), Beat(OFF, now)]
  }

  /** Off, then k - 1 such flaps: k attempts. */
  function FlapBeats(p: Policy, k: nat): (beats: seq<Beat>)
    requires k >= 1
    ensures beats != []
  {
    if k == 1 then [Beat(OFF, 0)] else FlapBeats(p, k - 1) + FlapBack(p, k - 1)
  }

  function Tried(p: Policy, k: int): NodeState {
    NodeState(DOWN, Some(if k == 1 then 0 else AttemptTime(p, k - 1)), k,
              Some(if k == 1 then PowerOn else Replace), Some(AttemptTime(p, k)), None, k >= p.maxAttempts)
  }

  /** The sights that carry the chain from one attempt to the next. */
  function Flap(p: Policy, k: int): seq<Sight> {
    var now := AttemptTime(p, k);
    if Wait(p) > 0
    then [Sight(now, true, true, None, None), Sight(now, true, false, DOWN, None),
          Sight(AttemptTime(p, k + 1), true, false, DOWN, Some(Replace))]
    else [Sight(now, true, true, None, None), Sight(now, true, false, DOWN, Some(Replace))]
  }

  /** A policy under which the worker gets its k-th attempt. */
  predicate Tries(p: Policy, k: int) {
    p.enabled && 1 <= k <= p.maxAttempts && (k > 1 ==> p.replace)
  }

  /** And under which a recovery that does not last carries the attempts on. */
  predicate Flaps(p: Policy, k: int) {
    Tries(p, k) && FlapWindow(p) >= 0
  }

  lemma FlapWithWait(p: Policy, w: Watched, k: nat)
    requires Flaps(p, k + 1) && k >= 1 && w.st == Some(Tried(p, k)) && Wait(p) > 0
    ensures var now := AttemptTime(p, k);
            Watch(p, Watch(p, Watch(p, w, Beat(Ready, now)), Beat(OFF, now)), Beat(OFF, AttemptTime(p, k + 1)))
            == Watched(Some(Tried(p, k + 1)), w.h + Flap(p, k))
  {
    var now := AttemptTime(p, k);
    NextAttempt(p, k);
    var w1 := Watch(p, w, Beat(Ready, now));
    assert w1.st == Some(UNTOUCHED.(repairedAt := Some(now), attempts := k));
    var w2 := Watch(p, w1, Beat(OFF, now));
    assert w2.st == Some(UNTOUCHED.(fault := DOWN, since := Some(now), attempts := k));
    var w3 := Watch(p, w2, Beat(OFF, AttemptTime(p, k + 1)));
    assert w3.st == Some(Tried(p, k + 1));
  }

  lemma FlapAtOnce(p: Policy, w: Watched, k: nat)
    requires Flaps(p, k + 1) && k >= 1 && w.st == Some(Tried(p, k)) && Wait(p) == 0
    ensures var now := AttemptTime(p, k);
            Watch(p, Watch(p, w, Beat(Ready, now)), Beat(OFF, now)) == Watched(Some(Tried(p, k + 1)), w.h + Flap(p, k))
  {
    var now := AttemptTime(p, k);
    NextAttempt(p, k);
    var w1 := Watch(p, w, Beat(Ready, now));
    assert w1.st == Some(UNTOUCHED.(repairedAt := Some(now), attempts := k));
    var w2 := Watch(p, w1, Beat(OFF, now));
    assert w2.st == Some(Tried(p, k + 1));
  }

  lemma FlapMore(p: Policy, beats: seq<Beat>, k: nat, more: seq<Beat>)
    requires Flaps(p, k + 1) && k >= 1 && WatchAll(p, beats).st == Some(Tried(p, k))
    requires more == beats + FlapBack(p, k)
    ensures WatchAll(p, more) == Watched(Some(Tried(p, k + 1)), WatchAll(p, beats).h + Flap(p, k))
  {
    var now := AttemptTime(p, k);
    var w := WatchAll(p, beats);
    if Wait(p) > 0 {
      WatchThree(p, beats, Beat(Ready, now), Beat(OFF, now), Beat(OFF, AttemptTime(p, k + 1)));
      FlapWithWait(p, w, k);
    } else {
      WatchTwo(p, beats, Beat(Ready, now), Beat(OFF, now));
      FlapAtOnce(p, w, k);
    }
  }

  lemma FlapFirst(p: Policy)
    requires Tries(p, 1)
    ensures WatchAll(p, [Beat(OFF, 0)]) == Watched(Some(Tried(p, 1)), [Sight(0, true, false, DOWN, Some(PowerOn))])
  {
    WatchSnoc(p, [], Beat(OFF, 0));
    assert [] + [Beat(OFF, 0)] == [Beat(OFF, 0)];
  }

  predicate EndsWithAttempt(p: Policy, h: seq<Sight>, k: int) {
    h != [] && var last := h[|h| - 1];
    last.now == AttemptTime(p, k) && last.live && last.fault == DOWN && last.acted.Some?
  }

  predicate Reached(p: Policy, w: Watched, k: int) {
    w.st == Some(Tried(p, k)) && EndsWithAttempt(p, w.h, k)
  }

  lemma FlapStarts(p: Policy)
    requires Tries(p, 1)
    ensures Reached(p, WatchAll(p, FlapBeats(p, 1)), 1)
  {
    FlapFirst(p);
  }

  lemma {:induction false} FlapReaches(p: Policy, k: nat)
    requires Flaps(p, k)
    ensures Reached(p, WatchAll(p, FlapBeats(p, k)), k)
  {
    if k == 1 {
      FlapStarts(p);
    } else {
      FlapReaches(p, k - 1);
      FlapGrows(p, FlapBeats(p, k - 1), k - 1, FlapBeats(p, k));
    }
  }

  lemma FlapGrows(p: Policy, beats: seq<Beat>, k: nat, more: seq<Beat>)
    requires Flaps(p, k + 1) && k >= 1
    requires more == beats + FlapBack(p, k)
    requires Reached(p, WatchAll(p, beats), k)
    ensures Reached(p, WatchAll(p, more), k + 1)
  {
    FlapMore(p, beats, k, more);
    FlapEnds(p, WatchAll(p, beats).h, k);
  }

  lemma FlapEnds(p: Policy, g: seq<Sight>, k: int)
    ensures EndsWithAttempt(p, g + Flap(p, k), k + 1)
  {
    var h, f := g + Flap(p, k), Flap(p, k);
    NextAttempt(p, k);
    assert h[|h| - 1] == f[|f| - 1];
  }

  lemma RecoveryIsNoReset(h: seq<Sight>, p: Policy, n: nat)
    requires 0 < n < |h| && Quiet(h[n]) && h[n - 1].live && h[n - 1].fault.Some?
    ensures !ResetAt(h, p, n)
  {
    assert h[..n + 1][..n] == h[..n];
    assert h[..n][n - 1] == h[n - 1];
  }

  lemma QuickRefailureIsNoReset(h: seq<Sight>, p: Policy, n: nat)
    requires 2 <= n < |h| && h[n].live && Quiet(h[n - 1]) && h[n - 2].live && h[n - 2].fault.Some?
    requires h[n].now - h[n - 1].now <= FlapWindow(p)
    ensures !ResetAt(h, p, n)
  {
    var before := h[..n];
    assert h[..n + 1][..n] == before;
    assert before[n - 1] == h[n - 1] && before[n - 2] == h[n - 2];
    assert QuietStart(before) == n - 1;
  }

  lemma SameFaultIsNoReset(h: seq<Sight>, p: Policy, n: nat)
    requires 0 < n < |h| && SameStretch(h[n - 1], h[n])
    ensures !ResetAt(h, p, n)
  {
    assert h[..n + 1][..n] == h[..n];
    assert h[..n][n - 1] == h[n - 1];
  }

  lemma FlapWithoutReset(h: seq<Sight>, p: Policy, n: nat, idle: bool)
    requires 0 < n && |h| == n + (if idle then 3 else 2)
    requires h[n - 1].live && h[n - 1].fault.Some? && Quiet(h[n])
    requires h[n + 1].live && h[n + 1].fault.Some? && h[n + 1].now == h[n].now && FlapWindow(p) >= 0
    requires idle ==> SameStretch(h[n + 1], h[n + 2])
    ensures NoResetIn(h, p, n - 1, |h| - 1)
  {
    RecoveryIsNoReset(h, p, n);
    QuickRefailureIsNoReset(h, p, n + 1);
    if idle {
      SameFaultIsNoReset(h, p, n + 2);
    }
  }

  /** The flap is one chain: nothing in it resets the node. */
  lemma FlapIsOneChain(p: Policy, g: seq<Sight>, k: int)
    requires EndsWithAttempt(p, g, k) && FlapWindow(p) >= 0
    ensures var h := g + Flap(p, k);
            Consecutive(h, p, |g| - 1, |h| - 1)
            && h[|h| - 1].now - h[|g| - 1].now == Wait(p)
            && h[..|g|] == g
  {
    var n, f := |g|, Flap(p, k);
    var h := g + f;
    NextAttempt(p, k);
    assert h[n - 1] == g[n - 1] && h[n] == f[0] && h[n + 1] == f[1];
    assert Wait(p) > 0 ==> h[n + 2] == f[2];
    FlapWithoutReset(h, p, n, Wait(p) > 0);
    assert h[..n] == g;
  }

  predicate InOrder(beats: seq<Beat>) {
    forall i, j | 0 <= i <= j < |beats| :: beats[i].now <= beats[j].now
  }

  lemma {:induction false} FlapBeatsInOrder(p: Policy, k: nat)
    requires k >= 1
    ensures InOrder(FlapBeats(p, k)) && forall i | 0 <= i < |FlapBeats(p, k)| :: FlapBeats(p, k)[i].now <= AttemptTime(p, k)
  {
    if k > 1 {
      FlapBeatsInOrder(p, k - 1);
      NextAttempt(p, k - 1);
    }
  }

  lemma WatchedInRun(p: Policy, beats: seq<Beat>) returns (ticks: seq<Tick>)
    requires p.enabled && InOrder(beats)
    ensures ticks == Polls(p, beats) && Timely(ticks) && History(p, ticks, VM) == WatchAll(p, beats).h
    ensures Lookup(RunMemory(p, ticks), VM) == WatchAll(p, beats).st
  {
    WatchIsRun(p, beats);
    PollsInOrder(p, beats);
    ticks := Polls(p, beats);
  }

  lemma PollTime(p: Policy, seen: View, now: Time)
    ensures Poll(p, seen, now).obs.now == now
  {
  }

  lemma PollsInOrder(p: Policy, beats: seq<Beat>)
    requires InOrder(beats)
    ensures Timely(Polls(p, beats))
  {
    forall i | 0 <= i < |beats|
      ensures Polls(p, beats)[i].obs.now == beats[i].now
    {
      PollTime(p, beats[i].seen, beats[i].now);
    }
  }

  lemma FlapCounts(p: Policy, k: nat)
    requires Flaps(p, k)
    ensures AttemptsSinceReset(WatchAll(p, FlapBeats(p, k)).h, p) == k
  {
    FlapBeatsInOrder(p, k);
    FlapReaches(p, k);
    var ticks := WatchedInRun(p, FlapBeats(p, k));
    MemoryRefinesHistory(p, ticks, VM);
    RemembersCounter(Lookup(RunMemory(p, ticks), VM), History(p, ticks, VM), p);
  }

  lemma FlapHistories(p: Policy, k: nat) returns (beats: seq<Beat>, g: seq<Sight>)
    requires Flaps(p, k + 1) && k >= 1
    ensures InOrder(beats) && WatchAll(p, beats).h == g + Flap(p, k)
    ensures EndsWithAttempt(p, g, k) && AttemptsSinceReset(g, p) == k
  {
    FlapReaches(p, k);
    FlapCounts(p, k);
    FlapBeatsInOrder(p, k + 1);
    var before := FlapBeats(p, k);
    beats := FlapBeats(p, k + 1);
    FlapMore(p, before, k, beats);
    g := WatchAll(p, before).h;
  }

  /** Unless the flap window has wrapped below zero, for every k there is a run whose k-th and next
      attempts are only ReplaceAfter apart. */
  lemma RecoveryCutsBackoff(p: Policy, k: nat) returns (ticks: seq<Tick>, g: seq<Sight>)
    requires p.enabled && p.replace && 1 <= k < p.maxAttempts && FlapWindow(p) >= 0
    ensures Timely(ticks) && History(p, ticks, VM) == g + Flap(p, k)
    ensures EndsWithAttempt(p, g, k) && AttemptsSinceReset(g, p) == k
  {
    var beats;
    beats, g := FlapHistories(p, k);
    ticks := WatchedInRun(p, beats);
  }

  // ---------------------------------------------------------------- the exact condition

  lemma BackoffGrows(p: Policy, j: int, k: int)
    requires j <= k
    ensures 0 <= Backoff(p, j) <= Backoff(p, k)
  {
    if p.backoff > 0 && j >= 1 {
      Pow2Monotone(j - 1, k - 1);
      BackoffMonotone(p.backoff as int, Pow2(j - 1), Pow2(k - 1));
      BackoffMonotone(p.backoff as int, 0, Pow2(j - 1));
    } else if p.backoff > 0 && k >= 1 {
      BackoffMonotone(p.backoff as int, 0, Pow2(k - 1));
    }
  }

  /** In every run, consecutive attempts of a chain keep the backoff of the earlier one. */
  ghost predicate BackoffAlwaysKept(p: Policy) {
    forall ticks, vm, i, j | Timely(ticks) :: BackoffKept(p, History(p, ticks, vm), i, j)
  }

  predicate BackoffKept(p: Policy, h: seq<Sight>, i: int, j: int) {
    Consecutive(h, p, i, j) ==> h[j].now - h[i].now >= Backoff(p, AttemptsSinceReset(h[..i + 1], p))
  }

  /** A chain has a second attempt only under a policy that rebuilds and allows two. */
  lemma SecondAttemptRebuilds(h: seq<Sight>, states: seq<Option<NodeState>>, p: Policy, i: int, j: int)
    requires NodeRun(h, states, p) && Consecutive(h, p, i, j)
    ensures p.enabled && p.replace && p.maxAttempts >= 2
  {
    ChainHasAttempts(h, p, i, j);
    ActedAt(h, states, p, j);
  }

  lemma KeptInNodeRun(h: seq<Sight>, states: seq<Option<NodeState>>, p: Policy, i: int, j: int)
    requires Wait(p) >= Backoff(p, p.maxAttempts - 1)
    requires NodeRun(h, states, p) && Consecutive(h, p, i, j)
    ensures h[j].now - h[i].now >= Backoff(p, AttemptsSinceReset(h[..i + 1], p))
  {
    Spaced(h, states, p);
    StopsTrying(h, states, p);
    BackoffGrows(p, AttemptsSinceReset(h[..i + 1], p), p.maxAttempts - 1);
    assert h[i].now <= h[j].now;
  }

  /** Either no chain ever has a second attempt, or the wait covers every backoff that matters, or
      the flap window has wrapped below zero, so that no chain outlives a recovery. */
  predicate WaitCoversBackoff(p: Policy) {
    || !p.enabled || !p.replace || p.maxAttempts < 2
    || Max(0, p.replaceAfter) >= Backoff(p, p.maxAttempts - 1)
    || FlapWindow(p) < 0
  }

  /** With a negative window the tick after a recovery resets the node. */
  lemma RecoveryThenReset(h: seq<Sight>, p: Policy, n: nat)
    requires 0 < n && n + 1 < |h| && Quiet(h[n]) && h[n - 1].live && h[n - 1].fault.Some?
    requires FlapWindow(p) < 0 && h[n].now <= h[n + 1].now
    ensures ResetAt(h, p, n + 1)
  {
    var before := h[..n + 1];
    assert h[..n + 2][..n + 1] == before;
    assert before[n] == h[n] && before[n - 1] == h[n - 1];
    assert QuietStart(before) == n;
  }

  lemma FaultyOnWithoutReset(h: seq<Sight>, p: Policy, n: nat)
    requires 0 < n < |h| && h[n - 1].live && h[n - 1].fault.Some? && !ResetAt(h, p, n) && !Quiet(h[n])
    ensures SameStretch(h[n - 1], h[n])
  {
    assert h[..n + 1][..n] == h[..n];
    assert h[..n][n - 1] == h[n - 1];
  }

  /** So a chain is one stretch. */
  lemma {:induction false} ChainIsOneStretch(h: seq<Sight>, p: Policy, i: int, j: int, last: int)
    requires 0 <= i <= j <= last < |h| && h[i].live && h[i].fault.Some? && h[last].fault.Some?
    requires NoResetIn(h, p, i, last) && FlapWindow(p) < 0
    requires forall k | i < k <= last :: h[k - 1].now <= h[k].now
    ensures OneStretch(h, i, j)
    decreases j
  {
    if i < j {
      ChainIsOneStretch(h, p, i, j - 1, last);
      assert !ResetAt(h, p, j);
      if Quiet(h[j]) {
        RecoveryThenReset(h, p, j);
      }
      FaultyOnWithoutReset(h, p, j);
    }
  }

  lemma KeptWithoutFlaps(h: seq<Sight>, states: seq<Option<NodeState>>, p: Policy, i: int, j: int)
    requires FlapWindow(p) < 0 && NodeRun(h, states, p) && Consecutive(h, p, i, j)
    ensures h[j].now - h[i].now >= Backoff(p, AttemptsSinceReset(h[..i + 1], p))
  {
    ActedAt(h, states, p, i);
    ActedAt(h, states, p, j);
    ChainIsOneStretch(h, p, i, j, j);
    SpacedInStretch(h, states, p, i, j);
  }

  lemma KeptInOneRun(h: seq<Sight>, states: seq<Option<NodeState>>, p: Policy, i: int, j: int)
    requires WaitCoversBackoff(p) && NodeRun(h, states, p) && Consecutive(h, p, i, j)
    ensures h[j].now - h[i].now >= Backoff(p, AttemptsSinceReset(h[..i + 1], p))
  {
    SecondAttemptRebuilds(h, states, p, i, j);
    if FlapWindow(p) < 0 {
      KeptWithoutFlaps(h, states, p, i, j);
    } else {
      KeptInNodeRun(h, states, p, i, j);
    }
  }

  lemma KeptInAllRuns(p: Policy)
    requires WaitCoversBackoff(p)
    ensures BackoffAlwaysKept(p)
  {
    forall ticks, vm, i, j | Timely(ticks)
      ensures BackoffKept(p, History(p, ticks, vm), i, j)
    {
      RunsProject(p, ticks, vm);
      if Consecutive(History(p, ticks, vm), p, i, j) {
        KeptInOneRun(History(p, ticks, vm), NodeTrace(p, ticks, vm), p, i, j);
      }
    }
  }

  lemma BrokenInSomeRun(p: Policy)
    requires !WaitCoversBackoff(p)
    ensures !BackoffAlwaysKept(p)
  {
    var k := p.maxAttempts - 1;
    var ticks, g := RecoveryCutsBackoff(p, k);
    FlapIsOneChain(p, g, k);
    assert !BackoffKept(p, History(p, ticks, VM), |g| - 1, |History(p, ticks, VM)| - 1);
  }

  /** For every policy: the backoff holds over chains of recoveries exactly when nothing is ever
      tried twice in a chain, or ReplaceAfter is at least the longest backoff that can still be
      followed by an attempt, or the flap window has wrapped below zero. */
  lemma BackoffKeptExactlyWhen(p: Policy)
    ensures BackoffAlwaysKept(p) <==> WaitCoversBackoff(p)
  {
    if WaitCoversBackoff(p) {
      KeptInAllRuns(p);
    } else {
      BrokenInSomeRun(p);
    }
  }
}
