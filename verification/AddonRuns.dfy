/** Runs of add-on edits: when the built-in and the custom half of a cluster's list may be edited in
    either order, and when no two add-ons end up under one release name. */
module AddonRuns {
  import opened Wrappers
  import opened Lists
  import opened Addons

  // ---------------------------------------------------------------- one edit after the other

  /** A refused edit changes nothing. */
  function BuiltInTried(addons: seq<Addon>, shop: Shop, requested: seq<string>): seq<Addon> {
    var r := BuiltInEdited(addons, shop, requested);
    if r.Ok? then r.value else addons
  }

  function CustomTried(addons: seq<Addon>, catalogs: Catalogs, refs: seq<AddonRef>): seq<Addon> {
    var r := CustomEdited(addons, catalogs, refs);
    if r.Ok? then r.value else addons
  }

  predicate SameHalves(a: seq<Addon>, b: seq<Addon>) {
    Select(BuiltIn(), a) == Select(BuiltIn(), b) && Select(Custom(), a) == Select(Custom(), b)
  }

  lemma {:induction false} SelectedNames(f: Partition, a: seq<Addon>)
    ensures forall x :: x in Select(f, a) <==> x in a && f(x)
  {
    if a != [] {
      var front := a[..|a| - 1];
      SelectedNames(f, front);
      assert a == front + [a[|a| - 1]];
    }
  }

  lemma OutsideIs()
    ensures forall s: seq<Addon> :: Select(Outside(BuiltIn()), s) == Select(Custom(), s)
    ensures forall s: seq<Addon> :: Select(Outside(Custom()), s) == Select(BuiltIn(), s)
  {
    forall s: seq<Addon>
      ensures Select(Outside(BuiltIn()), s) == Select(Custom(), s)
      ensures Select(Outside(Custom()), s) == Select(BuiltIn(), s)
    {
      SelectSame(Outside(BuiltIn()), Custom(), s);
      SelectSame(Outside(Custom()), BuiltIn(), s);
    }
  }

  /** Each edit leaves the other half as it was. */
  lemma BuiltInLeavesCustom(addons: seq<Addon>, shop: Shop, requested: seq<string>)
    ensures Select(Custom(), BuiltInTried(addons, shop, requested)) == Select(Custom(), addons)
  {
    OutsideIs();
    CallersAskWell(shop, requested, map[], [], {});
    if Picks(shop, requested).Ok? {
      OtherPartitionUntouched(addons, Keyed(Picks(shop, requested).value), requested, BuiltIn());
    }
  }

  lemma CustomLeavesBuiltIn(addons: seq<Addon>, catalogs: Catalogs, refs: seq<AddonRef>)
    ensures Select(BuiltIn(), CustomTried(addons, catalogs, refs)) == Select(BuiltIn(), addons)
  {
    OutsideIs();
    var taken := BuiltInNames(addons);
    CallersAskWell(Shop(map[], map[], map[], x => true), [], catalogs, refs, taken);
    var found := Resolved(catalogs, refs, taken);
    if found.Ok? {
      OtherPartitionUntouched(addons, Keyed(found.value), Named(found.value), Custom());
    }
  }

  /** What each edit does to its own half depends on that half, and on whether it is accepted. */
  lemma BuiltInHalf(a: seq<Addon>, b: seq<Addon>, shop: Shop, requested: seq<string>)
    requires Select(BuiltIn(), a) == Select(BuiltIn(), b)
    ensures Select(BuiltIn(), BuiltInTried(a, shop, requested)) == Select(BuiltIn(), BuiltInTried(b, shop, requested))
  {
    CallersAskWell(shop, requested, map[], [], {});
    if Picks(shop, requested).Ok? {
      var want := Keyed(Picks(shop, requested).value);
      OwnPartitionAlone(a, want, requested, BuiltIn());
      OwnPartitionAlone(b, want, requested, BuiltIn());
    }
  }

  lemma CustomHalf(a: seq<Addon>, b: seq<Addon>, catalogs: Catalogs, refs: seq<AddonRef>)
    requires Select(Custom(), a) == Select(Custom(), b)
    requires CustomEdited(a, catalogs, refs).Ok? && CustomEdited(b, catalogs, refs).Ok?
    ensures Select(Custom(), CustomTried(a, catalogs, refs)) == Select(Custom(), CustomTried(b, catalogs, refs))
  {
    TakenOnlyRefuses(catalogs, refs, BuiltInNames(a));
    TakenOnlyRefuses(catalogs, refs, BuiltInNames(b));
    CallersAskWell(Shop(map[], map[], map[], x => true), [], catalogs, refs, BuiltInNames(a));
    var found := Resolved(catalogs, refs, {}).value;
    OwnPartitionAlone(a, Keyed(found), Named(found), Custom());
    OwnPartitionAlone(b, Keyed(found), Named(found), Custom());
  }

  // ---------------------------------------------------------------- what a list holds afterwards

  lemma RecordsStayAll(addons: seq<Addon>, want: Wanted, order: seq<string>, governs: Partition)
    ensures var now := Reconciled(addons, want, order, governs);
            && |now| >= |addons|
            && forall i | 0 <= i < |addons| :: now[i].name == addons[i].name && now[i].catalogID == addons[i].catalogID
  {
    MovedAt(addons, want, governs);
  }

  /** An accepted built-in edit leaves the built-in names there, and adds the requested ones. */
  lemma BuiltInNamesAfter(addons: seq<Addon>, shop: Shop, requested: seq<string>)
    requires Picks(shop, requested).Ok?
    ensures BuiltInNames(BuiltInTried(addons, shop, requested)) == BuiltInNames(addons) + set n | n in requested
  {
    CallersAskWell(shop, requested, map[], [], {});
    var want := Keyed(Picks(shop, requested).value);
    var now := BuiltInTried(addons, shop, requested);
    var seen := Present(addons, want, BuiltIn());
    RecordsStayAll(addons, want, requested, BuiltIn());
    AdditionsMembers(requested, seen, want);
    MovedAt(addons, want, BuiltIn());
    forall n | n in BuiltInNames(now)
      ensures n in BuiltInNames(addons) || n in requested
    {
      var a :| a in now && a.catalogID == "" && a.name == n;
      var i :| 0 <= i < |now| && now[i] == a;
      if i < |addons| {
        assert addons[i] in addons;
      } else {
        assert a in Additions(requested, seen, want);
      }
    }
    forall n | n in BuiltInNames(addons)
      ensures n in BuiltInNames(now)
    {
      var a :| a in addons && a.catalogID == "" && a.name == n;
      var i :| 0 <= i < |addons| && addons[i] == a;
      assert now[i] in now;
    }
    forall n | n in requested
      ensures n in BuiltInNames(now)
    {
      RequestedIsThere(addons, want, requested, n);
    }
  }

  lemma RequestedIsThere(addons: seq<Addon>, want: Wanted, order: seq<string>, n: string)
    requires WellAsked(want, order, BuiltIn()) && n in order
    ensures n in BuiltInNames(Reconciled(addons, want, order, BuiltIn()))
  {
    var now := Reconciled(addons, want, order, BuiltIn());
    ReachesTheWantedSet(addons, want, order, BuiltIn());
    assert n in Standing(now, BuiltIn());
    StandingMeans(now, BuiltIn(), n);
  }

  lemma AppendedNothing(a: seq<Addon>, b: seq<Addon>, c: seq<Addon>)
    requires |a| == |c| && a + b == c
    ensures a == c && b == []
  {
    assert (a + b)[..|a|] == a;
  }

  /** An edit that leaves its own half alone leaves the list alone. */
  lemma UnchangedInside(addons: seq<Addon>, want: Wanted, order: seq<string>, governs: Partition)
    requires WellAsked(want, order, governs)
    requires Select(governs, Reconciled(addons, want, order, governs)) == Select(governs, addons)
    ensures Reconciled(addons, want, order, governs) == addons
  {
    var half, seen := Select(governs, addons), Present(addons, want, governs);
    OwnPartitionAlone(addons, want, order, governs);
    PresentInside(addons, want, governs);
    MovedAt(half, want, governs);
    AppendedNothing(AllMoved(half, want, governs), Additions(order, seen, want), half);
    SelectedNames(governs, addons);
    forall i | 0 <= i < |addons|
      ensures Moved(addons[i], want, governs) == addons[i]
    {
      if governs(addons[i]) {
        assert addons[i] in addons && addons[i] in half;
        var k :| 0 <= k < |half| && half[k] == addons[i];
      }
    }
    SettledStays(addons, want, governs);
    assert addons + [] == addons;
  }

  /** A custom edit shows in the custom half whenever it changes the list at all. */
  lemma CustomChangeShows(addons: seq<Addon>, catalogs: Catalogs, refs: seq<AddonRef>)
    ensures Select(Custom(), CustomTried(addons, catalogs, refs)) == Select(Custom(), addons)
       <==> CustomTried(addons, catalogs, refs) == addons
  {
    var taken := BuiltInNames(addons);
    var found := Resolved(catalogs, refs, taken);
    CallersAskWell(Shop(map[], map[], map[], x => true), [], catalogs, refs, taken);
    if found.Ok? && Select(Custom(), CustomTried(addons, catalogs, refs)) == Select(Custom(), addons) {
      UnchangedInside(addons, Keyed(found.value), Named(found.value), Custom());
    }
  }

  // ---------------------------------------------------------------- either order

  /** Both halves come out the same in either order of the two edits exactly when the built-in edit is
      refused, or the custom edit does not resolve, or a name it refers to is already a built-in's, or
      the two edits share no name, or the custom edit would change nothing. */
  lemma EditsAgreeExactlyWhen(addons: seq<Addon>, shop: Shop, requested: seq<string>, catalogs: Catalogs, refs: seq<AddonRef>)
    ensures SameHalves(CustomTried(BuiltInTried(addons, shop, requested), catalogs, refs),
                       BuiltInTried(CustomTried(addons, catalogs, refs), shop, requested))
       <==> || Picks(shop, requested).Err?
            || Resolved(catalogs, refs, {}).Err?
            || RefNames(refs) * BuiltInNames(addons) != {}
            || RefNames(refs) !! (set n | n in requested)
            || CustomTried(addons, catalogs, refs) == addons
  {
    var built, custom := BuiltInTried(addons, shop, requested), CustomTried(addons, catalogs, refs);
    BuiltInLeavesCustom(addons, shop, requested);
    BuiltInLeavesCustom(custom, shop, requested);
    CustomLeavesBuiltIn(addons, catalogs, refs);
    CustomLeavesBuiltIn(built, catalogs, refs);
    BuiltInHalf(addons, custom, shop, requested);
    CustomHalvesAgree(addons, shop, requested, catalogs, refs);
  }

  lemma CustomHalvesAgree(addons: seq<Addon>, shop: Shop, requested: seq<string>, catalogs: Catalogs, refs: seq<AddonRef>)
    ensures Select(Custom(), CustomTried(BuiltInTried(addons, shop, requested), catalogs, refs))
         == Select(Custom(), CustomTried(addons, catalogs, refs))
       <==> || Picks(shop, requested).Err?
            || Resolved(catalogs, refs, {}).Err?
            || RefNames(refs) * BuiltInNames(addons) != {}
            || RefNames(refs) !! (set n | n in requested)
            || CustomTried(addons, catalogs, refs) == addons
  {
    var built := BuiltInTried(addons, shop, requested);
    BuiltInLeavesCustom(addons, shop, requested);
    TakenOnlyRefuses(catalogs, refs, BuiltInNames(addons));
    TakenOnlyRefuses(catalogs, refs, BuiltInNames(built));
    CustomChangeShows(addons, catalogs, refs);
    if Picks(shop, requested).Ok? {
      BuiltInNamesAfter(addons, shop, requested);
      if CustomEdited(addons, catalogs, refs).Ok? && CustomEdited(built, catalogs, refs).Ok? {
        CustomHalf(built, addons, catalogs, refs);
      }
    }
  }

  // ---------------------------------------------------------------- one release name, one add-on

  predicate DistinctNames(addons: seq<Addon>) {
    forall i, j | 0 <= i < j < |addons| :: addons[i].name != addons[j].name
  }

  lemma {:induction false} AdditionsAreDistinct(order: seq<string>, seen: set<string>, want: Wanted)
    requires forall n | n in order :: n in want && want[n].name == n
    ensures DistinctNames(Additions(order, seen, want))
  {
    if order != [] {
      var front, name := order[..|order| - 1], order[|order| - 1];
      assert order == front + [name];
      AdditionsAreDistinct(front, seen, want);
      AdditionsMembers(front, seen, want);
      var more := Additions(front, seen, want);
      assert forall i | 0 <= i < |more| :: more[i] in more;
    }
  }

  lemma DistinctAppend(a: seq<Addon>, b: seq<Addon>)
    requires DistinctNames(b)
    ensures DistinctNames(a + b) <==> DistinctNames(a) && forall i, j | 0 <= i < |a| && 0 <= j < |b| :: a[i].name != b[j].name
  {
    var s := a + b;
    if DistinctNames(s) {
      forall i, j | 0 <= i < |a| && 0 <= j < |b|
        ensures a[i].name != b[j].name
      {
        assert s[i] == a[i] && s[|a| + j] == b[j];
      }
      assert forall i | 0 <= i < |a| :: a[i] == s[i];
    }
  }

  /** An edit keeps the names distinct exactly when it asks for no name of the other half. */
  lemma ReconcilingKeepsNames(addons: seq<Addon>, want: Wanted, order: seq<string>, governs: Partition)
    requires WellAsked(want, order, governs) && DistinctNames(addons)
    ensures DistinctNames(Reconciled(addons, want, order, governs))
       <==> forall i | 0 <= i < |addons| && !governs(addons[i]) :: addons[i].name !in order
  {
    var seen := Present(addons, want, governs);
    var now, more := AllMoved(addons, want, governs), Additions(order, seen, want);
    MovedAt(addons, want, governs);
    AdditionsAreDistinct(order, seen, want);
    AdditionsMembers(order, seen, want);
    DistinctAppend(now, more);
    if forall i | 0 <= i < |addons| && !governs(addons[i]) :: addons[i].name !in order {
      forall i, j | 0 <= i < |now| && 0 <= j < |more|
        ensures now[i].name != more[j].name
      {
        assert more[j] in more && addons[i] in addons;
        PresentMeans(addons, want, governs, addons[i].name);
      }
    } else {
      var i :| 0 <= i < |addons| && !governs(addons[i]) && addons[i].name in order;
      var j := OtherHalfIsAdded(addons, want, order, governs, i);
      assert now[i].name == more[j].name;
    }
  }

  lemma OtherHalfIsAdded(addons: seq<Addon>, want: Wanted, order: seq<string>, governs: Partition, i: nat) returns (j: nat)
    requires WellAsked(want, order, governs) && DistinctNames(addons)
    requires i < |addons| && !governs(addons[i]) && addons[i].name in order
    ensures var more := Additions(order, Present(addons, want, governs), want);
            j < |more| && more[j].name == addons[i].name
  {
    var n, seen := addons[i].name, Present(addons, want, governs);
    PresentMeans(addons, want, governs, n);
    assert n !in seen;
    AdditionsMembers(order, seen, want);
    var more := Additions(order, seen, want);
    assert AddonFor(want, n) in more;
    j :| 0 <= j < |more| && more[j] == AddonFor(want, n);
  }

  /** A built-in edit keeps the names distinct exactly when it asks for none that a custom add-on of the
      cluster holds. Nothing in the original checks that. */
  lemma BuiltInKeepsNames(addons: seq<Addon>, shop: Shop, requested: seq<string>)
    requires DistinctNames(addons) && BuiltInEdited(addons, shop, requested).Ok?
    ensures DistinctNames(BuiltInEdited(addons, shop, requested).value) <==> (set n | n in requested) !! CustomNames(addons)
  {
    CallersAskWell(shop, requested, map[], [], {});
    ReconcilingKeepsNames(addons, Keyed(Picks(shop, requested).value), requested, BuiltIn());
    assert forall i | 0 <= i < |addons| && addons[i].catalogID != "" :: addons[i].name in CustomNames(addons);
  }

  /** A custom edit always does: the guard sees to it. */
  lemma CustomKeepsNames(addons: seq<Addon>, catalogs: Catalogs, refs: seq<AddonRef>)
    requires DistinctNames(addons) && CustomEdited(addons, catalogs, refs).Ok?
    ensures DistinctNames(CustomEdited(addons, catalogs, refs).value)
  {
    var taken := BuiltInNames(addons);
    var found := Resolved(catalogs, refs, taken).value;
    ResolvedMeaning(catalogs, refs, taken);
    NamedMembers(found);
    CallersAskWell(Shop(map[], map[], map[], x => true), [], catalogs, refs, taken);
    ReconcilingKeepsNames(addons, Keyed(found), Named(found), Custom());
    assert forall i | 0 <= i < |addons| && addons[i].catalogID == "" :: addons[i].name in taken;
  }

  /** A name held twice stays held twice: edits remove nothing. */
  lemma ClashStays(addons: seq<Addon>, catalogs: Catalogs, refs: seq<AddonRef>)
    requires !DistinctNames(addons) && CustomEdited(addons, catalogs, refs).Ok?
    ensures !DistinctNames(CustomEdited(addons, catalogs, refs).value)
  {
    var found := Resolved(catalogs, refs, BuiltInNames(addons)).value;
    RecordsStayAll(addons, Keyed(found), Named(found), Custom());
    var i, j :| 0 <= i < j < |addons| && addons[i].name == addons[j].name;
    var now := CustomEdited(addons, catalogs, refs).value;
    assert now[i].name == now[j].name;
  }

  /** The built-in half of the request asks for no name a custom add-on of the cluster holds. */
  predicate Avoids(addons: seq<Addon>, req: AddonRequest) {
    req.requested.Some? ==> (set n | n in req.requested.value) !! CustomNames(addons)
  }

  lemma RequestKeepsNames(addons: seq<Addon>, req: AddonRequest)
    requires DistinctNames(addons) && Updated(addons, req).Ok?
    ensures DistinctNames(Updated(addons, req).value) <==> Avoids(addons, req)
  {
    var mid := addons;
    if req.requested.Some? {
      BuiltInKeepsNames(addons, req.shop, req.requested.value);
      mid := BuiltInEdited(addons, req.shop, req.requested.value).value;
    }
    if req.refs.Some? {
      if DistinctNames(mid) {
        CustomKeepsNames(mid, req.catalogs, req.refs.value);
      } else {
        ClashStays(mid, req.catalogs, req.refs.value);
      }
    }
  }

  // ---------------------------------------------------------------- runs

  datatype Event = Request(req: AddonRequest) | Pass(done: nat)

  function After(addons: seq<Addon>, e: Event): seq<Addon> {
    match e
    case Request(req) => (var r := Updated(addons, req); if r.Ok? then r.value else addons)
    case Pass(done) => Settled(addons, done)
  }

  function Run(first: seq<Addon>, events: seq<Event>): seq<Addon> {
    if events == [] then first else After(Run(first, events[..|events| - 1]), events[|events| - 1])
  }

  lemma {:induction false} HandledKeepsNames(addons: seq<Addon>)
    requires DistinctNames(addons)
    ensures DistinctNames(Handled(addons)) && forall a | a in Handled(addons) :: a.name in NamesOf(addons)
  {
    if addons != [] {
      var front, a := addons[..|addons| - 1], addons[|addons| - 1];
      assert addons == front + [a];
      HandledKeepsNames(front);
      var now := Handled(front);
      assert NamesOf(addons) == NamesOf(front) + {a.name};
      assert a.name !in NamesOf(front);
      assert forall i | 0 <= i < |now| :: now[i] in now;
    }
  }

  lemma PassKeepsNames(addons: seq<Addon>, done: nat)
    requires DistinctNames(addons)
    ensures DistinctNames(Settled(addons, done))
  {
    if done >= |addons| {
      HandledKeepsNames(addons);
    } else {
      var front, rest := addons[..done], addons[done..];
      assert addons == front + rest;
      HandledKeepsNames(front);
      forall i, j | 0 <= i < |Handled(front)| && 0 <= j < |rest|
        ensures Handled(front)[i].name != rest[j].name
      {
        assert Handled(front)[i] in Handled(front);
        var a :| a in front && a.name == Handled(front)[i].name;
        var k :| 0 <= k < |front| && front[k] == a;
        assert addons[k] == front[k] && addons[done + j] == rest[j];
      }
      assert DistinctNames(rest) by {
        assert forall j | 0 <= j < |rest| :: rest[j] == addons[done + j];
      }
      DistinctAppend(Handled(front), rest);
    }
  }

  /** The event is no accepted request for a name that a custom add-on holds at the time. */
  predicate Harmless(addons: seq<Addon>, e: Event) {
    e.Request? && Updated(addons, e.req).Ok? ==> Avoids(addons, e.req)
  }

  lemma EventKeepsNames(addons: seq<Addon>, e: Event)
    requires DistinctNames(addons)
    ensures DistinctNames(After(addons, e)) <==> Harmless(addons, e)
  {
    match e
    case Request(req) =>
      if Updated(addons, req).Ok? {
        RequestKeepsNames(addons, req);
      }
    case Pass(done) =>
      PassKeepsNames(addons, done);
  }

  lemma RunSnoc(first: seq<Addon>, events: seq<Event>, k: nat)
    requires k < |events|
    ensures Run(first, events[..k + 1]) == After(Run(first, events[..k]), events[k])
  {
    assert events[..k + 1][..k] == events[..k];
  }

  lemma {:induction false} HarmlessSoFar(first: seq<Addon>, events: seq<Event>, n: nat)
    requires DistinctNames(first) && n <= |events|
    requires forall k | 0 <= k < n :: Harmless(Run(first, events[..k]), events[k])
    ensures DistinctNames(Run(first, events[..n]))
  {
    if n == 0 {
      assert events[..0] == [];
    } else {
      HarmlessSoFar(first, events, n - 1);
      RunSnoc(first, events, n - 1);
      EventKeepsNames(Run(first, events[..n - 1]), events[n - 1]);
    }
  }

  /** Over any run of update requests and reconciler passes, no two add-ons ever share a release name
      if and only if no accepted request asks for a built-in add-on under a name that a custom add-on
      of the cluster holds at that moment. */
  lemma NamesDistinctExactlyWhen(first: seq<Addon>, events: seq<Event>)
    requires DistinctNames(first)
    ensures (forall k | 0 <= k <= |events| :: DistinctNames(Run(first, events[..k])))
       <==> forall k | 0 <= k < |events| :: Harmless(Run(first, events[..k]), events[k])
  {
    if forall k | 0 <= k < |events| :: Harmless(Run(first, events[..k]), events[k]) {
      forall k | 0 <= k <= |events|
        ensures DistinctNames(Run(first, events[..k]))
      {
        HarmlessSoFar(first, events, k);
      }
    } else if forall k | 0 <= k <= |events| :: DistinctNames(Run(first, events[..k])) {
      var k :| 0 <= k < |events| && !Harmless(Run(first, events[..k]), events[k]);
      RunSnoc(first, events, k);
      EventKeepsNames(Run(first, events[..k]), events[k]);
    }
  }

  // ---------------------------------------------------------------- a clash

  function OneShop(name: string): Shop {
    Shop(map[], map[name := "1"], map[], x => true)
  }

  function OneCatalog(name: string): Catalogs {
    map["c" := [CustomAddon(name, "1", "")]]
  }

  lemma PicksOne(name: string)
    ensures Picks(OneShop(name), [name]) == Ok([Addon(name, "1", Pending, "", "")])
  {
    assert [name][..0] == [];
    assert Picks(OneShop(name), []) == Ok([]);
    var a := Addon(name, "1", Pending, "", "");
    assert Picked(OneShop(name), name) == Ok(a);
    assert [] + [a] == [a];
  }

  lemma ResolvesOne(name: string, taken: set<string>)
    ensures Resolved(OneCatalog(name), [AddonRef("c", name)], taken)
         == if name in taken then Err(NameTaken(name)) else Ok([Addon(name, "1", Pending, "", "c")])
  {
    var ref := AddonRef("c", name);
    assert [ref][..0] == [];
    assert Resolved(OneCatalog(name), [], taken) == Ok([]);
    var a := Addon(name, "1", Pending, "", "c");
    assert Definition(OneCatalog(name), ref) == Ok(a);
    assert [] + [a] == [a];
  }

  lemma OnePick(name: string)
    ensures BuiltInEdited([], OneShop(name), [name]) == Ok([Addon(name, "1", Pending, "", "")])
  {
    assert [name][..0] == [];
    var a := Addon(name, "1", Pending, "", "");
    PicksOne(name);
    KeyedOne(a);
    AddsOne(a);
  }

  lemma OneCustom(name: string)
    ensures CustomEdited([], OneCatalog(name), [AddonRef("c", name)]) == Ok([Addon(name, "1", Pending, "", "c")])
  {
    var a := Addon(name, "1", Pending, "", "c");
    ResolvesOne(name, {});
    assert BuiltInNames([]) == {};
    assert Named([a]) == [name];
    KeyedOne(a);
    AddsOne(a);
  }

  /** Whatever the name, on an empty cluster: built-in first, the custom add-on of that name is
      refused; custom first, both are there. */
  lemma OrderDecides(name: string)
    ensures var refs := [AddonRef("c", name)];
            var built, custom := [Addon(name, "1", Pending, "", "")], [Addon(name, "1", Pending, "", "c")];
            && BuiltInEdited([], OneShop(name), [name]) == Ok(built)
            && CustomEdited(built, OneCatalog(name), refs) == Err(NameTaken(name))
            && CustomEdited([], OneCatalog(name), refs) == Ok(custom)
            && BuiltInEdited(custom, OneShop(name), [name]) == Ok(custom + built)
  {
    var built := [Addon(name, "1", Pending, "", "")];
    OnePick(name);
    OneCustom(name);
    assert built[0] in built && name in BuiltInNames(built);
    ResolvesOne(name, BuiltInNames(built));
    CustomThenBuiltIn(name);
  }

  lemma CustomThenBuiltIn(name: string)
    ensures var built, custom := [Addon(name, "1", Pending, "", "")], [Addon(name, "1", Pending, "", "c")];
            BuiltInEdited(custom, OneShop(name), [name]) == Ok(custom + built)
  {
    var a, c := Addon(name, "1", Pending, "", ""), Addon(name, "1", Pending, "", "c");
    PicksOne(name);
    KeyedOne(a);
    PassesBy(c, map[name := a]);
    AddsOne(a);
  }

  lemma KeyedOne(a: Addon)
    ensures Keyed([a]) == map[a.name := a]
  {
    assert [a][..0] == [] && Keyed([]) == map[];
  }

  lemma PassesBy(c: Addon, want: Wanted)
    requires c.catalogID != ""
    ensures AllMoved([c], want, BuiltIn()) == [c] && Present([c], want, BuiltIn()) == {}
  {
    assert [c][..0] == [] && [] + [c] == [c];
  }

  lemma AddsOne(a: Addon)
    ensures Additions([a.name], {}, map[a.name := a]) == [a]
  {
    assert [a.name][..0] == [] && [] + [a] == [a];
  }
}
