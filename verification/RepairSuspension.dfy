/** How far suspension reaches. The platform means to leave a node it has given up on alone until
    the node recovers. Two things end a suspension early: a direct change of fault class, and a
    stretch of ticks that cannot see the cluster, because a merge takes no news for good news. */
module RepairSuspension {
  import opened Wrappers
  import opened Repair
  import opened RepairRuns
  import opened RepairGuarantees
  import opened RepairLimits

  /** After tick i the node is suspended. */
  predicate SuspendedAt(p: Policy, ticks: seq<Tick>, vm: string, i: int) {
    0 <= i < |ticks| &&
    var st := Lookup(RunMemory(p, ticks[..i + 1]), vm);
    st.Some? && st.value.suspended
  }

  predicate Faulty(s: Sight) {
    s.live && s.fault.Some?
  }

  /** The cluster was seen, and nothing was wrong with the node. */
  predicate SeenWell(s: Sight) {
    Quiet(s) && s.observed
  }

  /** Nothing was reported because nothing could be seen. */
  predicate Unseen(s: Sight) {
    Quiet(s) && !s.observed
  }

  /** From i to j the node is never seen well, and does not leave. */
  predicate Unrecovered(h: seq<Sight>, i: int, j: int) {
    0 <= i < j < |h| && forall k | i < k <= j :: h[k].live && !SeenWell(h[k])
  }

  /** The fault seen at k is another one than the fault seen just before. */
  predicate ClassChange(h: seq<Sight>, k: int) {
    0 < k < |h| && Faulty(h[k - 1]) && Faulty(h[k]) && h[k - 1].fault != h[k].fault
  }

  /** Between two faulty sights the node goes unseen from a on, and by b, when it is seen again,
      more than the flap window has passed. */
  predicate BlindGap(h: seq<Sight>, p: Policy, a: int, b: int) {
    && 0 < a < b < |h| && Faulty(h[a - 1]) && Faulty(h[b])
    && (forall k | a <= k < b :: Unseen(h[k]))
    && h[b].now - h[a].now > FlapWindow(p)
  }

  // ---------------------------------------------------------------- what ends a suspension

  /** Suspension, read off the history: the attempts are used up and one was made in this stretch. */
  lemma SuspendedMeans(p: Policy, ticks: seq<Tick>, vm: string, i: nat)
    requires Timely(ticks) && SuspendedAt(p, ticks, vm, i)
    ensures var h := History(p, ticks, vm);
            && h[i].live && h[i].fault.Some?
            && LastActInStretch(h[..i + 1]).Some?
            && AttemptsSinceReset(h[..i + 1], p) >= p.maxAttempts
  {
    PrefixRefines(p, ticks, vm, i + 1);
    RemembersSuspension(Lookup(RunMemory(p, ticks[..i + 1]), vm), History(p, ticks, vm)[..i + 1], p);
  }

  lemma PrefixRefines(p: Policy, ticks: seq<Tick>, vm: string, n: nat)
    requires Timely(ticks) && n <= |ticks|
    ensures Refines(Lookup(RunMemory(p, ticks[..n]), vm), History(p, ticks, vm)[..n], p)
  {
    HistoryPrefix(p, ticks, vm, n);
    MemoryRefinesHistory(p, ticks[..n], vm);
  }

  lemma RemembersSuspension(st: Option<NodeState>, g: seq<Sight>, p: Policy)
    requires Refines(st, g, p) && st.Some? && st.value.suspended
    ensures g != [] && g[|g| - 1].live && g[|g| - 1].fault.Some?
    ensures LastActInStretch(g).Some? && AttemptsSinceReset(g, p) >= p.maxAttempts
  {
  }

  predicate BlindReset(h: seq<Sight>, p: Policy, a: int, k: int) {
    && 0 < a < k < |h| && Faulty(h[a - 1])
    && (forall m | a <= m < k :: Unseen(h[m]))
    && h[k].now - h[a].now > FlapWindow(p)
  }

  /** A reset of a node that is not seen well and stays: its fault changed class, or it has gone
      unseen for longer than the flap window. */
  lemma ResetWhileUnrecovered(h: seq<Sight>, p: Policy, i: int, k: int)
    requires 0 <= i < k < |h| && Faulty(h[i]) && Unrecovered(h, i, k) && ResetAt(h, p, k)
    ensures ClassChange(h, k) || exists a :: i < a && BlindReset(h, p, a, k)
  {
    var before := h[..k];
    assert h[..k + 1][..k] == before && before[k - 1] == h[k - 1];
    if !ClassChange(h, k) {
      var a := QuietStart(before);
      assert forall m | a <= m < k :: before[m] == h[m];
      assert before[i] == h[i];
      assert before[a - 1] == h[a - 1];
      assert BlindReset(h, p, a, k);
    }
  }

  /** The next faulty sight from k on. */
  lemma {:induction false} NextFaulty(h: seq<Sight>, k: int, j: int) returns (b: int)
    requires 0 <= k <= j < |h| && Faulty(h[j]) && forall m | k <= m <= j :: h[m].live && !SeenWell(h[m])
    ensures k <= b <= j && Faulty(h[b]) && forall m | k <= m < b :: Unseen(h[m])
    decreases j - k
  {
    if Faulty(h[k]) {
      b := k;
    } else {
      b := NextFaulty(h, k + 1, j);
    }
  }

  lemma ResetEndsInGap(h: seq<Sight>, p: Policy, a: int, k: int, j: int) returns (b: int)
    requires BlindReset(h, p, a, k) && k <= j < |h| && Faulty(h[j])
    requires forall m | k <= m <= j :: h[m].live && !SeenWell(h[m])
    requires forall m, n | 0 <= m <= n < |h| :: h[m].now <= h[n].now
    ensures b <= j && BlindGap(h, p, a, b)
  {
    b := NextFaulty(h, k, j);
    assert h[k].now <= h[b].now;
  }

  lemma EndsInNodeRun(h: seq<Sight>, states: seq<Option<NodeState>>, p: Policy, i: nat, j: nat)
    requires NodeRun(h, states, p) && i < |h| && Faulty(h[i]) && AttemptsSinceReset(h[..i + 1], p) >= p.maxAttempts
    requires Unrecovered(h, i, j) && h[j].acted.Some?
    ensures (exists k :: i < k <= j && ClassChange(h, k)) || exists a, b :: i < a && b <= j && BlindGap(h, p, a, b)
  {
    StopsTrying(h, states, p);
    ActedAt(h, states, p, j);
    assert !NoResetIn(h, p, i, j);
    var k :| i < k <= j && ResetAt(h, p, k);
    ResetWhileUnrecovered(h, p, i, k);
    if !ClassChange(h, k) {
      var a :| i < a && BlindReset(h, p, a, k);
      var b := ResetEndsInGap(h, p, a, k, j);
    }
  }

  /** There are two ways out of a suspension without being seen well and without leaving: a change of
      fault class, or going unseen between two faults for longer than the flap window. */
  lemma SuspensionEndsOnlyBy(p: Policy, ticks: seq<Tick>, vm: string, i: nat, j: nat)
    requires Timely(ticks) && SuspendedAt(p, ticks, vm, i)
    requires Unrecovered(History(p, ticks, vm), i, j) && History(p, ticks, vm)[j].acted.Some?
    ensures var h := History(p, ticks, vm);
            || (exists k :: i < k <= j && ClassChange(h, k))
            || exists a, b :: i < a && b <= j && BlindGap(h, p, a, b)
  {
    SuspendedMeans(p, ticks, vm, i);
    RunsProject(p, ticks, vm);
    EndsInNodeRun(History(p, ticks, vm), NodeTrace(p, ticks, vm), p, i, j);
  }

  /** A tick that cannot see the cluster leaves the memory of a faulty node alone exactly when the
      fault was VM-down and the hypervisor still reports the VM off. */
  lemma BlindTickKeepsMemory(p: Policy, mem: Memory, t: Tick, vm: string)
    requires !Observable(t.obs, p) && vm in LiveNames(t.cluster)
    requires vm in mem && mem[vm].fault.Some? && mem[vm].since.Some?
    ensures Lookup(Merged(p, mem, t), vm) == Some(mem[vm])
       <==> mem[vm].fault == DOWN && PoweredOff(t.cluster, t.obs, vm)
    ensures !PoweredOff(t.cluster, t.obs, vm) ==>
      Lookup(Merged(p, mem, t), vm) == Some(UNTOUCHED.(repairedAt := Some(t.obs.now), attempts := mem[vm].attempts))
  {
    MergedAt(p, mem, t, vm);
    assert Lookup(mem, vm) == Some(mem[vm]);
  }

  // ---------------------------------------------------------------- a suspended worker

  /** Long enough between two attempts on a VM that stays off. */
  function Span(p: Policy): nat {
    Max(DAY, Wait(p))
  }

  function OffBeats(p: Policy, k: nat): (beats: seq<Beat>)
    ensures |beats| == k
  {
    seq(k, i requires 0 <= i < k => Beat(OFF, i * Span(p)))
  }

  function OffState(p: Policy, k: nat): NodeState {
    NodeState(DOWN, Some(0), k, Some(if k == 1 then PowerOn else Replace), Some((k - 1) * Span(p)), None, k >= p.maxAttempts)
  }

  lemma LongEnough(p: Policy, k: nat)
    requires k >= 1
    ensures Backoff(p, k) <= Span(p) && p.replaceAfter <= Span(p) <= k * Span(p)
    ensures k * Span(p) - (k - 1) * Span(p) == Span(p)
  {
  }

  lemma OffOnceMore(p: Policy, w: Watched, k: nat)
    requires Tries(p, k + 1) && k >= 1 && GivenUp(p, w, k)
    ensures GivenUp(p, Watch(p, w, Beat(OFF, k * Span(p))), k + 1)
  {
    LongEnough(p, k);
    var now := k * Span(p);
    assert MergeNode(w.st, DOWN, p, now) == w.st;
    assert MayAct(p, w.st.value, now);
  }

  /** After k attempts, and off when last seen. */
  predicate GivenUp(p: Policy, w: Watched, k: nat) {
    && w.st == Some(OffState(p, k)) && |w.h| == k
    && (k > 0 ==> w.h[k - 1].live && w.h[k - 1].fault == DOWN)
  }

  lemma OffFirst(p: Policy)
    requires Tries(p, 1)
    ensures GivenUp(p, WatchAll(p, OffBeats(p, 1)), 1)
  {
    FlapFirst(p);
    assert OffBeats(p, 1) == [Beat(OFF, 0)];
  }

  lemma OffGrows(p: Policy, beats: seq<Beat>, k: nat, more: seq<Beat>)
    requires Tries(p, k + 1) && k >= 1 && GivenUp(p, WatchAll(p, beats), k)
    requires more == beats + [Beat(OFF, k * Span(p))]
    ensures GivenUp(p, WatchAll(p, more), k + 1)
  {
    WatchSnoc(p, beats, Beat(OFF, k * Span(p)));
    OffOnceMore(p, WatchAll(p, beats), k);
  }

  lemma {:induction false} OffReaches(p: Policy, k: nat)
    requires Tries(p, k)
    ensures GivenUp(p, WatchAll(p, OffBeats(p, k)), k)
  {
    if k == 1 {
      OffFirst(p);
    } else {
      OffReaches(p, k - 1);
      assert OffBeats(p, k) == OffBeats(p, k - 1) + [Beat(OFF, (k - 1) * Span(p))];
      OffGrows(p, OffBeats(p, k - 1), k - 1, OffBeats(p, k));
    }
  }

  lemma SpansInOrder(p: Policy, i: nat, j: nat)
    requires i <= j
    ensures i * Span(p) <= j * Span(p)
  {
  }

  /** Off until suspended, then two more beats. */
  lemma OffThenInOrder(p: Policy, k: nat, x: Beat, y: Beat)
    requires k >= 1 && (k - 1) * Span(p) <= x.now <= y.now
    ensures InOrder(OffBeats(p, k) + [x, y])
  {
    var beats := OffBeats(p, k) + [x, y];
    forall i, j | 0 <= i <= j < |beats|
      ensures beats[i].now <= beats[j].now
    {
      if j < k {
        SpansInOrder(p, i, j);
      } else if i < k {
        SpansInOrder(p, i, k - 1);
      }
    }
  }

  lemma SuspendedHere(p: Policy, beats: seq<Beat>, ticks: seq<Tick>, x: Beat, y: Beat)
    requires p.enabled && beats != [] && ticks == Polls(p, beats + [x, y])
    requires var st := WatchAll(p, beats).st; st.Some? && st.value.suspended
    ensures SuspendedAt(p, ticks, VM, |beats| - 1)
  {
    WatchIsRun(p, beats);
    assert ticks[..|beats|] == Polls(p, beats);
  }

  lemma RunShows(p: Policy, beats: seq<Beat>, x: Beat, y: Beat) returns (ticks: seq<Tick>)
    requires p.enabled && InOrder(beats + [x, y])
    ensures ticks == Polls(p, beats + [x, y]) && Timely(ticks)
    ensures History(p, ticks, VM) == Watch(p, Watch(p, WatchAll(p, beats), x), y).h
  {
    ticks := WatchedInRun(p, beats + [x, y]);
    WatchTwo(p, beats, x, y);
  }

  /** Whatever two beats follow, the run that shows them had the worker suspended before. */
  lemma SuspendedThen(p: Policy, x: Beat, y: Beat) returns (ticks: seq<Tick>, w: Watched)
    requires Tries(p, p.maxAttempts) && (p.maxAttempts - 1) * Span(p) <= x.now <= y.now
    ensures Timely(ticks) && SuspendedAt(p, ticks, VM, p.maxAttempts - 1)
    ensures GivenUp(p, w, p.maxAttempts)
    ensures History(p, ticks, VM) == Watch(p, Watch(p, w, x), y).h
  {
    var beats := OffBeats(p, p.maxAttempts);
    OffReaches(p, p.maxAttempts);
    OffThenInOrder(p, p.maxAttempts, x, y);
    ticks := RunShows(p, beats, x, y);
    w := WatchAll(p, beats);
    SuspendedHere(p, beats, ticks, x, y);
  }

  // ---------------------------------------------------------------- two runs that break it

  /** After i: another fault, then VM-down again and a repair. */
  predicate ActedAfterClassChange(h: seq<Sight>, i: int) {
    && 0 <= i && |h| == i + 3
    && h[i + 1].live && h[i + 1].fault == Some(NotReady)
    && h[i + 2].live && h[i + 2].fault == DOWN && h[i + 2].acted == Some(PowerOn)
  }

  lemma AnotherClassActs(p: Policy, w: Watched, now: Time)
    requires Tries(p, p.maxAttempts) && GivenUp(p, w, p.maxAttempts)
    ensures ActedAfterClassChange(Watch(p, Watch(p, w, Beat(Shows(NotReady), now)), Beat(OFF, now)).h, |w.h| - 1)
  {
    var w1 := Watch(p, w, Beat(Shows(NotReady), now));
    assert w1.st.Some? && w1.st.value.fault == Some(NotReady) && w1.st.value.repairedAt == None;
    var w2 := Watch(p, w1, Beat(OFF, now));
    assert w2.h == w.h + [w1.h[|w.h|], w2.h[|w.h| + 1]];
  }

  /** A node suspended on VM-down, seen not ready once and then down again, is powered on: it never
      recovered, and nobody intervened. */
  lemma SuspendedNodeActedOn(p: Policy) returns (ticks: seq<Tick>, i: nat)
    requires Tries(p, p.maxAttempts)
    ensures Timely(ticks) && SuspendedAt(p, ticks, VM, i)
    ensures ActedAfterClassChange(History(p, ticks, VM), i)
  {
    i := p.maxAttempts - 1;
    var now := i * Span(p);
    var w;
    ticks, w := SuspendedThen(p, Beat(Shows(NotReady), now), Beat(OFF, now));
    AnotherClassActs(p, w, now);
  }

  /** After i: nothing seen, then the same fault again and a repair. */
  predicate ActedAfterBlindness(h: seq<Sight>, p: Policy, i: int) {
    && 0 <= i && |h| == i + 3 && h[i].live && h[i].fault == DOWN
    && Unseen(h[i + 1])
    && h[i + 2].live && h[i + 2].fault == DOWN && h[i + 2].acted == Some(PowerOn)
  }

  /** Just past the flap window. */
  function Later(p: Policy, now: Time): Time {
    now + Max(0, FlapWindow(p)) + 1
  }

  lemma BlindnessActs(p: Policy, w: Watched, now: Time)
    requires Tries(p, p.maxAttempts) && GivenUp(p, w, p.maxAttempts)
    ensures ActedAfterBlindness(Watch(p, Watch(p, w, Beat(Blind, now)), Beat(OFF, Later(p, now))).h, p, |w.h| - 1)
  {
    var w1 := Watch(p, w, Beat(Blind, now));
    assert w1.st == Some(UNTOUCHED.(repairedAt := Some(now), attempts := p.maxAttempts));
    var w2 := Watch(p, w1, Beat(OFF, Later(p, now)));
    assert w2.h == w.h + [w1.h[|w.h|], w2.h[|w.h| + 1]];
  }

  /** A node suspended on VM-down, lost from sight and found off again once the flap window is over, is
      powered on: nobody ever saw it running. */
  lemma UnseenNodeActedOn(p: Policy) returns (ticks: seq<Tick>, i: nat)
    requires Tries(p, p.maxAttempts)
    ensures Timely(ticks) && SuspendedAt(p, ticks, VM, i)
    ensures ActedAfterBlindness(History(p, ticks, VM), p, i)
  {
    i := p.maxAttempts - 1;
    var now := i * Span(p);
    var w;
    ticks, w := SuspendedThen(p, Beat(Blind, now), Beat(OFF, Later(p, now)));
    BlindnessActs(p, w, now);
  }

  // ---------------------------------------------------------------- the exact condition

  /** Unless it is seen well or leaves after i, the node is left alone at j. */
  predicate LeftAlone(h: seq<Sight>, i: int, j: int) {
    Unrecovered(h, i, j) ==> h[j].acted == None
  }

  predicate SameClass(h: seq<Sight>, i: int, j: int) {
    forall k | i < k <= j :: !ClassChange(h, k)
  }

  /** In every run a suspended node is left alone until it is seen well or leaves. */
  ghost predicate SuspensionAlwaysKept(p: Policy) {
    forall ticks, vm, i, j | Timely(ticks) && SuspendedAt(p, ticks, vm, i) :: LeftAlone(History(p, ticks, vm), i, j)
  }

  predicate LeftAloneInClass(h: seq<Sight>, i: int, j: int) {
    SameClass(h, i, j) ==> LeftAlone(h, i, j)
  }

  /** The same, but only of nodes that never change their fault class directly. */
  ghost predicate SuspensionKeptInClass(p: Policy) {
    forall ticks, vm, i, j | Timely(ticks) && SuspendedAt(p, ticks, vm, i) :: LeftAloneInClass(History(p, ticks, vm), i, j)
  }

  lemma {:induction false} ActedInStretch(h: seq<Sight>) returns (j: nat)
    requires LastActInStretch(h).Some?
    ensures j < |h| && h[j].acted.Some?
  {
    if h[|h| - 1].acted.Some? {
      j := |h| - 1;
    } else {
      j := ActedInStretch(h[..|h| - 1]);
    }
  }

  /** A suspended node used up its attempts, so the policy let it. */
  lemma SuspendedWasTried(p: Policy, ticks: seq<Tick>, vm: string, i: nat)
    requires Timely(ticks) && SuspendedAt(p, ticks, vm, i)
    ensures Tries(p, p.maxAttempts)
  {
    var h, states := History(p, ticks, vm), NodeTrace(p, ticks, vm);
    SuspendedMeans(p, ticks, vm, i);
    RunsProject(p, ticks, vm);
    var j := ActedInStretch(h[..i + 1]);
    ActedAt(h, states, p, j);
    if p.maxAttempts > 1 {
      AttemptsTakeRebuilding(h, states, p, i);
    }
  }

  lemma {:induction false} AttemptsTakeRebuilding(h: seq<Sight>, states: seq<Option<NodeState>>, p: Policy, i: nat)
    requires NodeRun(h, states, p) && i < |h| && AttemptsSinceReset(h[..i + 1], p) > 1
    ensures p.replace
  {
    AttemptsAfter(h, p, i);
    if h[i].acted.Some? {
      ActedAt(h, states, p, i);
    } else {
      assert h[..0] == [];
      assert h[..i - 1 + 1] == h[..i];
      AttemptsTakeRebuilding(h, states, p, i - 1);
    }
  }

  lemma ClassChangeBreaksIt(p: Policy)
    requires Tries(p, p.maxAttempts)
    ensures !SuspensionAlwaysKept(p)
  {
    var ticks, i := SuspendedNodeActedOn(p);
    ActedMeansNotLeft(History(p, ticks, VM), i);
  }

  lemma ActedMeansNotLeft(h: seq<Sight>, i: nat)
    requires ActedAfterClassChange(h, i)
    ensures !LeftAlone(h, i, i + 2)
  {
    assert Unrecovered(h, i, i + 2);
  }

  lemma BlindnessBreaksIt(p: Policy)
    requires Tries(p, p.maxAttempts)
    ensures !SuspensionKeptInClass(p)
  {
    var ticks, i := UnseenNodeActedOn(p);
    UnseenMeansNotLeft(History(p, ticks, VM), p, i);
  }

  lemma UnseenMeansNotLeft(h: seq<Sight>, p: Policy, i: nat)
    requires ActedAfterBlindness(h, p, i)
    ensures !LeftAloneInClass(h, i, i + 2)
  {
    assert Unrecovered(h, i, i + 2);
    assert !ClassChange(h, i + 1) && !ClassChange(h, i + 2);
  }

  lemma NeverSuspended(p: Policy, ticks: seq<Tick>, vm: string, i: int)
    requires Timely(ticks) && !Tries(p, p.maxAttempts)
    ensures !SuspendedAt(p, ticks, vm, i)
  {
    if SuspendedAt(p, ticks, vm, i) {
      SuspendedWasTried(p, ticks, vm, i);
    }
  }

  lemma NothingToKeep(p: Policy)
    requires !Tries(p, p.maxAttempts)
    ensures SuspensionAlwaysKept(p) && SuspensionKeptInClass(p)
  {
    forall ticks, vm, i: int | Timely(ticks)
      ensures !SuspendedAt(p, ticks, vm, i)
    {
      NeverSuspended(p, ticks, vm, i);
    }
  }

  /** For every policy: suspension lasts until the node is seen well or leaves exactly when no node
      can ever be suspended, that is, when nothing is repaired at all, or more than one attempt is
      allowed and rebuilding is off. Ruling out changes of fault class does not help: blindness alone
      breaks it under the same policies. */
  lemma SuspensionKeptExactlyWhen(p: Policy)
    ensures SuspensionAlwaysKept(p) <==> !p.enabled || p.maxAttempts < 1 || (!p.replace && p.maxAttempts >= 2)
    ensures SuspensionKeptInClass(p) <==> !p.enabled || p.maxAttempts < 1 || (!p.replace && p.maxAttempts >= 2)
  {
    if Tries(p, p.maxAttempts) {
      ClassChangeBreaksIt(p);
      BlindnessBreaksIt(p);
    } else {
      NothingToKeep(p);
    }
  }
}
