/** The in-memory event broker: a log per cluster, fanned out to subscribers over bounded channels
    (internal/events/events.go). Channels are numbered in the order they are made; a goroutine's
    call into the broker is one step, as the mutex makes it. */
module Events {
  import opened Wrappers

  datatype Event = Event(cluster: string, message: string)

  const BUFFER := 64

  datatype Chan = Chan(cluster: string, buf: seq<Event>, closed: bool)

  datatype Hub = Hub(history: map<string, seq<Event>>, subs: map<string, set<nat>>, chans: seq<Chan>)

  const EMPTY := Hub(map[], map[], [])

  function LogOf(h: Hub, cluster: string): seq<Event> {
    if cluster in h.history then h.history[cluster] else []
  }

  function SubsOf(h: Hub, cluster: string): set<nat> {
    if cluster in h.subs then h.subs[cluster] else {}
  }

  // ---------------------------------------------------------------- steps

  /** A send that never blocks: a full buffer drops the event. Sending on a closed channel would
      be a crash. */
  function Offer(c: Chan, e: Event): Chan
    requires !c.closed
  {
    if |c.buf| < BUFFER then c.(buf := c.buf + [e]) else c
  }

  predicate Open(chans: seq<Chan>, ids: set<nat>) {
    forall id | id in ids :: id < |chans| && !chans[id].closed
  }

  function Fanned(chans: seq<Chan>, ids: set<nat>, e: Event): seq<Chan>
    requires Open(chans, ids)
  {
    seq(|chans|, id requires 0 <= id < |chans| => if id in ids then Offer(chans[id], e) else chans[id])
  }

  predicate Listening(h: Hub, cluster: string, id: nat) {
    id < |h.chans| && !h.chans[id].closed && h.chans[id].cluster == cluster
  }

  /** Subscribers are exactly the open channels, filed under their cluster. */
  ghost predicate Valid(h: Hub) {
    && (forall id | 0 <= id < |h.chans| :: |h.chans[id].buf| <= BUFFER)
    && (forall c, id :: id in SubsOf(h, c) <==> Listening(h, c, id))
  }

  datatype Step = Emit(event: Event) | Subscribe(cluster: string) | Cancel(id: nat) | Receive(id: nat)

  lemma SubscribersAreOpen(h: Hub, cluster: string)
    requires Valid(h)
    ensures Open(h.chans, SubsOf(h, cluster))
  {
    assert forall id | id in SubsOf(h, cluster) :: Listening(h, cluster, id);
  }

  ghost function Emitted(h: Hub, e: Event): Hub
    requires Valid(h)
  {
    SubscribersAreOpen(h, e.cluster);
    Hub(h.history[e.cluster := LogOf(h, e.cluster) + [e]], h.subs, Fanned(h.chans, SubsOf(h, e.cluster), e))
  }

  function Subscribed(h: Hub, cluster: string): Hub {
    Hub(h.history, h.subs[cluster := SubsOf(h, cluster) + {|h.chans|}], h.chans + [Chan(cluster, [], false)])
  }

  /** Cancelling a second time panics and changes nothing. */
  function Cancelled(h: Hub, id: nat): Hub {
    if id >= |h.chans| || h.chans[id].closed then h
    else
      var c := h.chans[id];
      Hub(h.history, h.subs[c.cluster := SubsOf(h, c.cluster) - {id}], h.chans[id := c.(closed := true)])
  }

  function Received(h: Hub, id: nat): Hub {
    if id >= |h.chans| || h.chans[id].buf == [] then h
    else h.(chans := h.chans[id := h.chans[id].(buf := h.chans[id].buf[1..])])
  }

  ghost function After(h: Hub, s: Step): Hub
    requires Valid(h)
  {
    match s
    case Emit(e) => Emitted(h, e)
    case Subscribe(c) => Subscribed(h, c)
    case Cancel(id) => Cancelled(h, id)
    case Receive(id) => Received(h, id)
  }

  lemma SubscribeKeepsValid(h: Hub, cluster: string)
    requires Valid(h)
    ensures Valid(Subscribed(h, cluster))
  {
    var now := Subscribed(h, cluster);
    forall c, id
      ensures id in SubsOf(now, c) <==> Listening(now, c, id)
    {
      assert id in SubsOf(h, c) <==> Listening(h, c, id);
    }
  }

  lemma CancelKeepsValid(h: Hub, id: nat)
    requires Valid(h)
    ensures Valid(Cancelled(h, id))
  {
    var now := Cancelled(h, id);
    forall c, i
      ensures i in SubsOf(now, c) <==> Listening(now, c, i)
    {
      assert i in SubsOf(h, c) <==> Listening(h, c, i);
    }
  }

  /** A change to buffers only, within bounds. */
  lemma BuffersKeepValid(h: Hub, now: Hub)
    requires Valid(h) && now.subs == h.subs && |now.chans| == |h.chans|
    requires forall id | 0 <= id < |h.chans| ::
      now.chans[id] == h.chans[id].(buf := now.chans[id].buf) && |now.chans[id].buf| <= BUFFER
    ensures Valid(now)
  {
    forall c, id
      ensures id in SubsOf(now, c) <==> Listening(now, c, id)
    {
      assert id in SubsOf(h, c) <==> Listening(h, c, id);
    }
  }

  lemma StepKeepsValid(h: Hub, s: Step)
    requires Valid(h)
    ensures Valid(After(h, s))
  {
    match s
    case Emit(e) => BuffersKeepValid(h, Emitted(h, e));
    case Subscribe(c) => SubscribeKeepsValid(h, c);
    case Cancel(id) => CancelKeepsValid(h, id);
    case Receive(id) => BuffersKeepValid(h, Received(h, id));
  }

  // ---------------------------------------------------------------- what a step does to one channel

  function BufOf(h: Hub, id: nat): seq<Event> {
    if id < |h.chans| then h.chans[id].buf else []
  }

  /** A step puts an event in, takes one out, or leaves the buffer alone. */
  lemma BufAfter(h: Hub, s: Step, id: nat)
    requires Valid(h)
    ensures BufOf(After(h, s), id) ==
      if s.Emit? && Listening(h, s.event.cluster, id) && |BufOf(h, id)| < BUFFER then BufOf(h, id) + [s.event]
      else if s == Receive(id) && BufOf(h, id) != [] then BufOf(h, id)[1..]
      else BufOf(h, id)
  {
    if s.Emit? {
      assert id in SubsOf(h, s.event.cluster) <==> Listening(h, s.event.cluster, id);
    }
  }

  lemma LogAfter(h: Hub, s: Step, cluster: string)
    requires Valid(h)
    ensures LogOf(After(h, s), cluster)
         == LogOf(h, cluster) + (if s.Emit? && s.event.cluster == cluster then [s.event] else [])
  {
  }

  lemma ListeningAfter(h: Hub, s: Step, cluster: string, id: nat)
    requires Valid(h) && id < |h.chans|
    ensures id < |After(h, s).chans| && After(h, s).chans[id].cluster == h.chans[id].cluster
    ensures Listening(After(h, s), cluster, id) <==> Listening(h, cluster, id) && s != Cancel(id)
  {
  }

  // ---------------------------------------------------------------- the broker

  /** Offers the event to every one of these channels, in whatever order the set is walked. */
  method Broadcast(chans: seq<Chan>, ids: set<nat>, e: Event) returns (now: seq<Chan>)
    requires Open(chans, ids)
    ensures now == Fanned(chans, ids, e)
  {
    now := chans;
    var left := ids;
    while left != {}
      invariant left <= ids && |now| == |chans|
      invariant forall id | 0 <= id < |chans| :: now[id] == if id in ids && id !in left then Offer(chans[id], e) else chans[id]
      decreases |left|
    {
      var id :| id in left;
      now := now[id := Offer(now[id], e)];
      left := left - {id};
    }
  }

  lemma NothingToUnregister(subs: map<string, set<nat>>, cluster: string, id: nat)
    requires cluster in subs
    ensures id !in subs[cluster] ==> subs[cluster := subs[cluster] - {id}] == subs
  {
    if id !in subs[cluster] {
      assert subs[cluster] - {id} == subs[cluster];
    }
  }

  class Broker {
    var history: map<string, seq<Event>>
    var subs: map<string, set<nat>>
    var chans: seq<Chan>

    function State(): Hub
      reads this
    {
      Hub(history, subs, chans)
    }

    constructor ()
      ensures State() == EMPTY && Valid(State())
    {
      history, subs, chans := map[], map[], [];
    }

    /** No send here can hit a closed channel: Broadcast demands open ones. */
    method Publish(e: Event)
      requires Valid(State())
      modifies this
      ensures Valid(State()) && State() == After(old(State()), Emit(e))
    {
      StepKeepsValid(State(), Emit(e));
      SubscribersAreOpen(State(), e.cluster);
      var log := if e.cluster in history then history[e.cluster] else [];
      history := history[e.cluster := log + [e]];
      chans := Broadcast(chans, if e.cluster in subs then subs[e.cluster] else {}, e);
    }

    /** The replay and the registration happen in one step, so nothing falls between them. */
    method Join(cluster: string) returns (replay: seq<Event>, id: nat)
      requires Valid(State())
      modifies this
      ensures Valid(State()) && State() == After(old(State()), Subscribe(cluster))
      ensures replay == LogOf(old(State()), cluster) && id == |old(chans)|
    {
      StepKeepsValid(State(), Subscribe(cluster));
      replay := if cluster in history then history[cluster] else [];
      id := |chans|;
      if cluster !in subs {
        subs := subs[cluster := {}];
      }
      subs := subs[cluster := subs[cluster] + {id}];
      chans := chans + [Chan(cluster, [], false)];
      assert subs == Subscribed(old(State()), cluster).subs;
    }

    /** Cancelling a second time finds nothing to unregister and panics on the closed channel. */
    method Leave(id: nat) returns (panics: bool)
      requires Valid(State()) && id < |chans|
      modifies this
      ensures Valid(State()) && State() == After(old(State()), Cancel(id))
      ensures panics <==> old(chans)[id].closed
    {
      StepKeepsValid(State(), Cancel(id));
      var c := chans[id];
      assert Listening(State(), c.cluster, id) <==> !c.closed;
      assert id in SubsOf(State(), c.cluster) <==> !c.closed;
      if c.cluster in subs {
        NothingToUnregister(subs, c.cluster, id);
        subs := subs[c.cluster := subs[c.cluster] - {id}];
      }
      if c.closed {
        return true;
      }
      chans := chans[id := c.(closed := true)];
      return false;
    }

    method Take(id: nat) returns (e: Option<Event>)
      requires Valid(State()) && id < |chans|
      modifies this
      ensures Valid(State()) && State() == After(old(State()), Receive(id))
      ensures e == if old(chans)[id].buf == [] then None else Some(old(chans)[id].buf[0])
    {
      StepKeepsValid(State(), Receive(id));
      var c := chans[id];
      if c.buf == [] {
        return None;
      }
      chans := chans[id := c.(buf := c.buf[1..])];
      return Some(c.buf[0]);
    }
  }
}
