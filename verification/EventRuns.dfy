/** What every subscriber sees over every run of the broker. */
module EventRuns {
  import opened Events

  ghost function Run(steps: seq<Step>): (h: Hub)
    ensures Valid(h)
  {
    if steps == [] then EMPTY
    else
      var before := Run(steps[..|steps| - 1]);
      StepKeepsValid(before, steps[|steps| - 1]);
      After(before, steps[|steps| - 1])
  }

  lemma RunSnoc(front: seq<Step>, s: Step)
    ensures Run(front + [s]) == After(Run(front), s)
  {
    assert (front + [s])[..|front|] == front;
  }

  /** Everything emitted for a cluster, in order. */
  function Log(steps: seq<Step>, cluster: string): seq<Event> {
    if steps == [] then []
    else
      var s := steps[|steps| - 1];
      Log(steps[..|steps| - 1], cluster) + (if s.Emit? && s.event.cluster == cluster then [s.event] else [])
  }

  /** The replay a subscriber is given is the whole log so far. */
  lemma {:induction false} HistoryIsTheLog(steps: seq<Step>, cluster: string)
    ensures LogOf(Run(steps), cluster) == Log(steps, cluster)
  {
    if steps != [] {
      var front, s := steps[..|steps| - 1], steps[|steps| - 1];
      HistoryIsTheLog(front, cluster);
      LogAfter(Run(front), s, cluster);
    }
  }

  // ---------------------------------------------------------------- one subscriber's stream

  /** What is in the subscriber's buffer. */
  ghost function Waiting(steps: seq<Step>, id: nat): seq<Event> {
    BufOf(Run(steps), id)
  }

  /** What the subscriber has taken off its channel. */
  ghost function Taken(steps: seq<Step>, id: nat): seq<Event> {
    if steps == [] then []
    else
      var front, s := steps[..|steps| - 1], steps[|steps| - 1];
      Taken(front, id) + (if s == Receive(id) && Waiting(front, id) != [] then [Waiting(front, id)[0]] else [])
  }

  /** Everything that has got through to the subscriber: taken, or in its buffer. */
  ghost function Stream(steps: seq<Step>, id: nat): seq<Event> {
    Taken(steps, id) + Waiting(steps, id)
  }

  ghost predicate Reaches(steps: seq<Step>, s: Step, id: nat) {
    s.Emit? && Listening(Run(steps), s.event.cluster, id)
  }

  /** The event reaches the subscriber and finds room. */
  ghost predicate Accepts(steps: seq<Step>, s: Step, id: nat) {
    Reaches(steps, s, id) && |Waiting(steps, id)| < BUFFER
  }

  /** The steps whose event was put in the subscriber's buffer. */
  ghost function Kept(steps: seq<Step>, id: nat): seq<nat> {
    if steps == [] then []
    else
      var front, s := steps[..|steps| - 1], steps[|steps| - 1];
      Kept(front, id) + (if Accepts(front, s, id) then [|front|] else [])
  }

  predicate IsEmits(steps: seq<Step>, at: seq<nat>) {
    forall j | 0 <= j < |at| :: at[j] < |steps| && steps[at[j]].Emit?
  }

  function EventsAt(steps: seq<Step>, at: seq<nat>): seq<Event>
    requires IsEmits(steps, at)
  {
    seq(|at|, j requires 0 <= j < |at| => steps[at[j]].event)
  }

  predicate Ascending(at: seq<nat>, bound: nat) {
    (forall j | 0 <= j < |at| :: at[j] < bound) && forall i, j | 0 <= i < j < |at| :: at[i] < at[j]
  }

  lemma {:induction false} KeptAscends(steps: seq<Step>, id: nat)
    ensures Ascending(Kept(steps, id), |steps|)
  {
    if steps != [] {
      KeptAscends(steps[..|steps| - 1], id);
    }
  }

  lemma EmitsMore(front: seq<Step>, s: Step, at: seq<nat>)
    requires IsEmits(front, at)
    ensures IsEmits(front + [s], at) && EventsAt(front + [s], at) == EventsAt(front, at)
    ensures s.Emit? ==>
              IsEmits(front + [s], at + [|front|]) && EventsAt(front + [s], at + [|front|]) == EventsAt(front, at) + [s.event]
  {
  }

  /** How one step moves one stream. */
  lemma TakenStep(front: seq<Step>, s: Step, id: nat)
    ensures Taken(front + [s], id)
         == Taken(front, id) + (if s == Receive(id) && Waiting(front, id) != [] then [Waiting(front, id)[0]] else [])
  {
    assert (front + [s])[..|front|] == front;
  }

  lemma Regroup(taken: seq<Event>, buf: seq<Event>, more: seq<Event>)
    ensures taken + [] == taken && buf + [] == buf
    ensures taken + (buf + more) == taken + buf + more
    ensures buf != [] ==> taken + [buf[0]] + buf[1..] == taken + buf
  {
  }

  lemma StreamStep(front: seq<Step>, s: Step, id: nat)
    ensures Stream(front + [s], id)
         == Stream(front, id) + (if Accepts(front, s, id) then [s.event] else [])
  {
    TakenStep(front, s, id);
    RunSnoc(front, s);
    BufAfter(Run(front), s, id);
    Regroup(Taken(front, id), Waiting(front, id), if Accepts(front, s, id) then [s.event] else []);
  }

  /** A subscriber's stream is a subsequence of what was emitted: no event twice, none out of
      order, none made up. */
  lemma {:induction false} StreamIsASubsequence(steps: seq<Step>, id: nat)
    ensures IsEmits(steps, Kept(steps, id)) && Stream(steps, id) == EventsAt(steps, Kept(steps, id))
    ensures Ascending(Kept(steps, id), |steps|)
  {
    KeptAscends(steps, id);
    if steps != [] {
      var front, s := steps[..|steps| - 1], steps[|steps| - 1];
      assert steps == front + [s];
      StreamIsASubsequence(front, id);
      StreamStep(front, s, id);
      EmitsMore(front, s, Kept(front, id));
    }
  }

  /** The stream holds exactly the events that were emitted for the subscriber's cluster while it
      was listening and found its buffer short of full: losing one takes a full buffer at that very
      moment, and a full buffer always loses it. */
  lemma {:induction false} LostOnlyWhenFull(steps: seq<Step>, id: nat, i: nat)
    requires i < |steps|
    ensures i in Kept(steps, id) <==> Reaches(steps[..i], steps[i], id) && |Waiting(steps[..i], id)| < BUFFER
  {
    var front := steps[..|steps| - 1];
    KeptAscends(front, id);
    if i == |front| {
      assert steps[..i] == front;
    } else {
      assert front[..i] == steps[..i] && front[i] == steps[i];
      LostOnlyWhenFull(front, id, i);
    }
  }

  // ---------------------------------------------------------------- being subscribed

  /** The k-th step is the subscription that made this channel. */
  ghost predicate MadeAt(steps: seq<Step>, k: nat, cluster: string, id: nat) {
    k < |steps| && steps[k] == Subscribe(cluster) && |Run(steps[..k]).chans| == id
  }

  predicate CancelledAfter(steps: seq<Step>, k: nat, id: nat) {
    exists i :: k < i < |steps| && steps[i] == Cancel(id)
  }

  lemma {:induction false} ChannelsOnlyGrow(steps: seq<Step>, k: nat)
    requires k <= |steps|
    ensures |Run(steps[..k]).chans| <= |Run(steps).chans|
  {
    if k == |steps| {
      assert steps[..k] == steps;
    } else {
      var front := steps[..|steps| - 1];
      assert front[..k] == steps[..k];
      ChannelsOnlyGrow(front, k);
    }
  }

  /** From its subscription until it is cancelled, and no longer, a channel is listening. */
  lemma {:induction false} ListensUntilCancelled(steps: seq<Step>, k: nat, cluster: string, id: nat)
    requires MadeAt(steps, k, cluster, id)
    ensures id < |Run(steps).chans| && Run(steps).chans[id].cluster == cluster
    ensures Listening(Run(steps), cluster, id) <==> !CancelledAfter(steps, k, id)
  {
    var front, s := steps[..|steps| - 1], steps[|steps| - 1];
    assert steps == front + [s];
    RunSnoc(front, s);
    if k == |front| {
      assert steps[..k] == front;
    } else {
      assert front[..k] == steps[..k] && MadeAt(front, k, cluster, id);
      ListensUntilCancelled(front, k, cluster, id);
      ListeningAfter(Run(front), s, cluster, id);
      CancelledOneMore(front, s, k, id);
    }
  }

  lemma CancelledOneMore(front: seq<Step>, s: Step, k: nat, id: nat)
    requires k < |front|
    ensures CancelledAfter(front + [s], k, id) <==> CancelledAfter(front, k, id) || s == Cancel(id)
  {
    var steps := front + [s];
    if s == Cancel(id) {
      assert steps[|front|] == Cancel(id);
    }
    if CancelledAfter(front, k, id) {
      var i :| k < i < |front| && front[i] == Cancel(id);
      assert steps[i] == Cancel(id);
    }
  }

  lemma {:induction false} NotMadeYet(steps: seq<Step>, k: nat, cluster: string, id: nat, i: nat)
    requires MadeAt(steps, k, cluster, id) && i <= k
    ensures |Run(steps[..i]).chans| <= id
  {
    assert steps[..k][..i] == steps[..i];
    ChannelsOnlyGrow(steps[..k], i);
  }

  lemma PrefixMadeAt(steps: seq<Step>, k: nat, cluster: string, id: nat, i: nat)
    requires MadeAt(steps, k, cluster, id) && k < i <= |steps|
    ensures MadeAt(steps[..i], k, cluster, id)
  {
    assert steps[..i][..k] == steps[..k];
  }

  /** No cancellation of this channel strictly between its subscription and step i. */
  predicate StillSubscribed(steps: seq<Step>, k: nat, id: nat, i: nat) {
    forall j | k < j < i && j < |steps| :: steps[j] != Cancel(id)
  }

  /** What a subscriber gets, said once: the event of step i is in the stream of a subscription made
      at k if and only if it comes later, is for the subscription's cluster, no cancellation came
      in between, and the buffer has room for it at that moment. */
  lemma SubscriberGets(steps: seq<Step>, k: nat, cluster: string, id: nat, i: nat)
    requires MadeAt(steps, k, cluster, id) && i < |steps|
    ensures i in Kept(steps, id)
       <==> k < i && steps[i].Emit? && steps[i].event.cluster == cluster
            && StillSubscribed(steps, k, id, i) && |Waiting(steps[..i], id)| < BUFFER
  {
    LostOnlyWhenFull(steps, id, i);
    if i <= k {
      NotMadeYet(steps, k, cluster, id, i);
    } else {
      PrefixMadeAt(steps, k, cluster, id, i);
      ListensUntilCancelled(steps[..i], k, cluster, id);
      assert CancelledAfter(steps[..i], k, id) <==> !StillSubscribed(steps, k, id, i) by {
        assert forall j | 0 <= j < i :: steps[..i][j] == steps[j];
      }
    }
  }

  // ---------------------------------------------------------------- replay and stream together

  ghost predicate HadRoom(steps: seq<Step>, k: nat, cluster: string, id: nat) {
    forall i | k < i < |steps| && steps[i].Emit? && steps[i].event.cluster == cluster :: |Waiting(steps[..i], id)| < BUFFER
  }

  lemma FreshChannelIsEmpty(steps: seq<Step>, k: nat, cluster: string, id: nat)
    requires MadeAt(steps, k, cluster, id) && k == |steps| - 1
    ensures Stream(steps, id) == []
  {
    var front := steps[..k];
    assert steps == front + [steps[k]];
    RunSnoc(front, steps[k]);
    NeverTakenBefore(front, id);
  }

  lemma {:induction false} NeverTakenBefore(steps: seq<Step>, id: nat)
    requires |Run(steps).chans| <= id
    ensures Taken(steps, id) == []
  {
    if steps != [] {
      var front := steps[..|steps| - 1];
      ChannelsOnlyGrow(steps, |front|);
      NeverTakenBefore(front, id);
    }
  }

  lemma LogSnoc(front: seq<Step>, s: Step, cluster: string)
    ensures Log(front + [s], cluster)
         == Log(front, cluster) + (if s.Emit? && s.event.cluster == cluster then [s.event] else [])
  {
    assert (front + [s])[..|front|] == front;
  }

  /** With room in the buffer, log and stream grow together. */
  lemma GrowTogether(front: seq<Step>, s: Step, k: nat, cluster: string, id: nat, replay: seq<Event>)
    requires MadeAt(front, k, cluster, id) && !CancelledAfter(front, k, id)
    requires s.Emit? && s.event.cluster == cluster ==> |Waiting(front, id)| < BUFFER
    requires replay + Stream(front, id) == Log(front, cluster)
    ensures replay + Stream(front + [s], id) == Log(front + [s], cluster)
  {
    ListensUntilCancelled(front, k, cluster, id);
    StreamStep(front, s, id);
    LogSnoc(front, s, cluster);
    assert Accepts(front, s, id) <==> s.Emit? && s.event.cluster == cluster;
  }

  lemma RoomBefore(front: seq<Step>, s: Step, k: nat, cluster: string, id: nat)
    requires HadRoom(front + [s], k, cluster, id)
    ensures HadRoom(front, k, cluster, id)
    ensures k < |front| && s.Emit? && s.event.cluster == cluster ==> |Waiting(front, id)| < BUFFER
  {
    var steps := front + [s];
    assert steps[..|front|] == front;
    forall i | k < i < |front| && front[i].Emit? && front[i].event.cluster == cluster
      ensures |Waiting(front[..i], id)| < BUFFER
    {
      assert front[..i] == steps[..i] && steps[i] == front[i];
    }
  }

  /** A subscriber that is not cancelled and never lets its buffer fill sees the whole log: the
      replay it was given, then every later event, with nothing missing in between and nothing
      twice. */
  lemma {:induction false} NothingFallsBetween(steps: seq<Step>, k: nat, cluster: string, id: nat)
    requires MadeAt(steps, k, cluster, id) && !CancelledAfter(steps, k, id) && HadRoom(steps, k, cluster, id)
    ensures LogOf(Run(steps[..k]), cluster) + Stream(steps, id) == Log(steps, cluster)
  {
    var front, s := steps[..|steps| - 1], steps[|steps| - 1];
    assert steps == front + [s];
    if k == |front| {
      HistoryIsTheLog(front, cluster);
      assert steps[..k] == front;
      FreshChannelIsEmpty(steps, k, cluster, id);
      LogSnoc(front, s, cluster);
    } else {
      assert front[..k] == steps[..k];
      CancelledOneMore(front, s, k, id);
      RoomBefore(front, s, k, cluster, id);
      NothingFallsBetween(front, k, cluster, id);
      GrowTogether(front, s, k, cluster, id, LogOf(Run(steps[..k]), cluster));
    }
  }
}
