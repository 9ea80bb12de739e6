/** The add-on set reconciler: one partition of a cluster's add-on list is moved toward a wanted
    set, the other is left alone (internal/app/app.go). */
module Addons {
  import opened Wrappers
  import opened Text
  import opened Lists

  datatype AddonPhase = Pending | Installed | Updating | Failed | Removing

  datatype Addon = Addon(name: string, version: string, phase: AddonPhase, valuesOverride: string, catalogID: string)

  type Wanted = map<string, Addon>

  /** Which add-ons an edit is about. */
  type Partition = Addon -> bool

  function Custom(): Partition {
    (a: Addon) => a.catalogID != ""
  }

  function BuiltIn(): Partition {
    (a: Addon) => a.catalogID == ""
  }

  /** What the map lookup yields for a name that is not wanted. */
  const NO_ADDON := Addon("", "", Pending, "", "")

  // ---------------------------------------------------------------- one pass

  function Moved(a: Addon, want: Wanted, governs: Partition): Addon {
    if !governs(a) then a
    else if a.name in want then (if a.phase == Removing then a.(phase := Pending) else a)
    else a.(phase := Removing)
  }

  function AllMoved(addons: seq<Addon>, want: Wanted, governs: Partition): seq<Addon> {
    if addons == [] then []
    else AllMoved(addons[..|addons| - 1], want, governs) + [Moved(addons[|addons| - 1], want, governs)]
  }

  function Present(addons: seq<Addon>, want: Wanted, governs: Partition): set<string> {
    if addons == [] then {}
    else
      var a := addons[|addons| - 1];
      Present(addons[..|addons| - 1], want, governs) + (if governs(a) && a.name in want then {a.name} else {})
  }

  function AddonFor(want: Wanted, name: string): Addon {
    if name in want then want[name] else NO_ADDON
  }

  /** The names of the order not seen yet, each once. */
  function Additions(order: seq<string>, seen: set<string>, want: Wanted): seq<Addon> {
    if order == [] then []
    else
      var name := order[|order| - 1];
      Additions(order[..|order| - 1], seen, want)
      + (if name in seen || name in order[..|order| - 1] then [] else [AddonFor(want, name)])
  }

  function Reconciled(addons: seq<Addon>, want: Wanted, order: seq<string>, governs: Partition): seq<Addon> {
    AllMoved(addons, want, governs) + Additions(order, Present(addons, want, governs), want)
  }

  class ClusterAddons {
    var addons: seq<Addon>

    method ReconcileAddonSet(want: Wanted, order: seq<string>, governs: Partition) returns (changed: bool)
      modifies this
      ensures addons == Reconciled(old(addons), want, order, governs)
      ensures changed <==> addons != old(addons)
    {
      var next, seen, moved := MoveAll(addons, want, governs);
      var more := AddMissing(order, seen, want);
      changed := moved || |more| > 0;
      MovedAt(addons, want, governs);
      assert |next + more| == |addons| ==> next + more == next;
      addons := next + more;
    }

    static method MoveOne(a: Addon, want: Wanted, governs: Partition) returns (b: Addon, kept: bool, moved: bool)
      ensures b == Moved(a, want, governs) && (moved <==> b != a)
      ensures kept <==> governs(a) && a.name in want
    {
      if !governs(a) {
        return a, false, false;
      }
      if a.name in want {
        if a.phase == Removing {
          return a.(phase := Pending), true, true;
        }
        return a, true, false;
      }
      if a.phase != Removing {
        return a.(phase := Removing), false, true;
      }
      return a, false, false;
    }

    static method MoveAll(addons: seq<Addon>, want: Wanted, governs: Partition)
      returns (next: seq<Addon>, seen: set<string>, moved: bool)
      ensures next == AllMoved(addons, want, governs) && seen == Present(addons, want, governs)
      ensures moved <==> next != addons
    {
      next, seen, moved := [], {}, false;
      for i := 0 to |addons|
        invariant next == AllMoved(addons[..i], want, governs)
        invariant seen == Present(addons[..i], want, governs)
        invariant moved <==> AnyMoves(addons[..i], want, governs)
      {
        assert addons[..i + 1][..i] == addons[..i];
        var b, kept, m := MoveOne(addons[i], want, governs);
        seen := if kept then seen + {addons[i].name} else seen;
        moved := moved || m;
        next := next + [b];
      }
      assert addons[..|addons|] == addons;
      MovesShow(addons, want, governs);
    }

    static method AddMissing(order: seq<string>, present: set<string>, want: Wanted) returns (more: seq<Addon>)
      ensures more == Additions(order, present, want)
    {
      more := [];
      var seen := present;
      for i := 0 to |order|
        invariant more == Additions(order[..i], present, want)
        invariant seen == present + set n | n in order[..i]
      {
        assert order[..i + 1] == order[..i] + [order[i]];
        assert order[..i + 1][..i] == order[..i];
        if order[i] !in seen {
          more := more + [AddonFor(want, order[i])];
          seen := seen + {order[i]};
        }
      }
      assert order[..|order|] == order;
    }

    /** The built-in half of an edit: nothing changes unless every requested name is accepted. */
    method ApplyAddonSelection(shop: Shop, requested: seq<string>) returns (r: Result<bool, AddonError>)
      modifies this
      ensures var now := BuiltInEdited(old(addons), shop, requested);
              if now.Err? then r == Err(now.error) && addons == old(addons)
              else addons == now.value && r == Ok(addons != old(addons))
    {
      var want: Wanted := map[];
      for i := 0 to |requested|
        invariant Picks(shop, requested[..i]).Ok? && want == Keyed(Picks(shop, requested[..i]).value)
        invariant addons == old(addons)
      {
        assert requested[..i + 1][..i] == requested[..i];
        var a := Picked(shop, requested[i]);
        if a.Err? {
          FirstFailureStands(shop, requested, i + 1);
          return Err(a.error);
        }
        want := want[requested[i] := a.value];
      }
      assert requested[..|requested|] == requested;
      var changed := ReconcileAddonSet(want, requested, BuiltIn());
      return Ok(changed);
    }

    /** The references looked up in order, each add-on once, none under a name already taken. */
    static method ResolveCustomAddons(catalogs: Catalogs, refs: seq<AddonRef>, taken: set<string>)
      returns (r: Result<seq<Addon>, AddonError>)
      ensures r == Resolved(catalogs, refs, taken)
    {
      var out: seq<Addon>, seen: set<string> := [], {};
      for i := 0 to |refs|
        invariant Resolved(catalogs, refs[..i], taken) == Ok(out) && seen == NamesOf(out)
      {
        assert refs[..i + 1][..i] == refs[..i];
        var a := Definition(catalogs, refs[i]);
        if a.Err? {
          FirstRefusalStands(catalogs, refs, taken, i + 1);
          return Err(a.error);
        }
        if a.value.name in seen {
          continue;
        }
        if a.value.name in taken {
          FirstRefusalStands(catalogs, refs, taken, i + 1);
          return Err(NameTaken(a.value.name));
        }
        seen := seen + {a.value.name};
        out := out + [a.value];
      }
      assert refs[..|refs|] == refs;
      return Ok(out);
    }

    /** The custom half: refused when a name is held by a built-in add-on of the cluster. */
    method ApplyCustomAddonSelection(catalogs: Catalogs, refs: seq<AddonRef>) returns (r: Result<bool, AddonError>)
      modifies this
      ensures var now := CustomEdited(old(addons), catalogs, refs);
              if now.Err? then r == Err(now.error) && addons == old(addons)
              else addons == now.value && r == Ok(addons != old(addons))
    {
      var taken: set<string> := {};
      for i := 0 to |addons|
        invariant taken == BuiltInNames(addons[..i]) && addons == old(addons)
      {
        assert addons[..i + 1] == addons[..i] + [addons[i]];
        if addons[i].catalogID == "" {
          taken := taken + {addons[i].name};
        }
      }
      assert addons[..|addons|] == addons;
      var found := ResolveCustomAddons(catalogs, refs, taken);
      if found.Err? {
        return Err(found.error);
      }
      var resolved := found.value;
      var want: Wanted, order: seq<string> := map[], [];
      for i := 0 to |resolved|
        invariant want == Keyed(resolved[..i]) && order == Named(resolved[..i])
        invariant addons == old(addons)
      {
        assert resolved[..i + 1][..i] == resolved[..i];
        want := want[resolved[i].name := resolved[i]];
        order := order + [resolved[i].name];
      }
      assert resolved[..|resolved|] == resolved;
      var changed := ReconcileAddonSet(want, order, Custom());
      return Ok(changed);
    }

    /** The add-on part of one update request, built-in half first: all of it is stored, or none. */
    method UpdateAddons(req: AddonRequest) returns (e: Option<AddonError>)
      modifies this
      ensures var now := Updated(old(addons), req);
              if now.Err? then e == Some(now.error) && addons == old(addons) else e == None && addons == now.value
    {
      var stored := addons;
      if req.requested.Some? {
        var r := ApplyAddonSelection(req.shop, req.requested.value);
        if r.Err? {
          return Some(r.error);
        }
      }
      if req.refs.Some? {
        var r := ApplyCustomAddonSelection(req.catalogs, req.refs.value);
        if r.Err? {
          addons := stored;
          return Some(r.error);
        }
      }
      return None;
    }

    /** The reconciler's pass: uninstalls, installs, and stops at the first failure, leaving the add-ons
        from there on as they were. `done` add-ons are handled before it. */
    method ReconcileAddons(done: nat)
      modifies this
      ensures addons == Settled(old(addons), done)
    {
      var next: seq<Addon> := [];
      for i := 0 to |addons|
        invariant i <= done && next == Handled(addons[..i]) && addons == old(addons)
      {
        if i == done {
          addons := next + addons[i..];
          return;
        }
        assert addons[..i + 1][..i] == addons[..i];
        if addons[i].phase != Removing {
          next := next + [addons[i].(phase := Installed)];
        }
      }
      assert addons[..|addons|] == addons;
      addons := next;
    }
  }

  // ---------------------------------------------------------------- the two callers

  datatype AddonError =
    | UnknownAddon(name: string)
    | BadValues(name: string)
    | CatalogNotFound(id: string)
    | NotInCatalog(name: string)
    | NameTaken(name: string)

  /** What a built-in selection is resolved against: the versions the cluster's bundle pins (none
      without a bundle), the catalog's current ones, the requested starting values and their check. */
  datatype Shop = Shop(pins: map<string, string>, current: map<string, string>, overrides: map<string, string>,
                       valid: string -> bool)

  function Picked(shop: Shop, name: string): (r: Result<Addon, AddonError>)
    ensures r.Ok? ==> r.value.name == name && r.value.phase == Pending && r.value.catalogID == ""
  {
    var pin := if name in shop.pins then shop.pins[name] else "";
    if pin == "" && name !in shop.current then Err(UnknownAddon(name))
    else
      var a := Addon(name, if pin != "" then pin else shop.current[name], Pending, "", "");
      if name !in shop.overrides || Trim(shop.overrides[name]) == "" then Ok(a)
      else if !shop.valid(shop.overrides[name]) then Err(BadValues(name))
      else Ok(a.(valuesOverride := shop.overrides[name]))
  }

  function Picks(shop: Shop, names: seq<string>): Result<seq<Addon>, AddonError> {
    if names == [] then Ok([])
    else
      var front := Picks(shop, names[..|names| - 1]);
      if front.Err? then front
      else
        var a := Picked(shop, names[|names| - 1]);
        if a.Err? then Err(a.error) else Ok(front.value + [a.value])
  }

  /** A later add-on of the same name replaces an earlier one. */
  function Keyed(addons: seq<Addon>): Wanted {
    if addons == [] then map[]
    else
      var a := addons[|addons| - 1];
      Keyed(addons[..|addons| - 1])[a.name := a]
  }

  function Named(addons: seq<Addon>): seq<string> {
    seq(|addons|, i requires 0 <= i < |addons| => addons[i].name)
  }

  lemma {:induction false} FirstFailureStands(shop: Shop, names: seq<string>, n: nat)
    requires n <= |names| && Picks(shop, names[..n]).Err?
    ensures Picks(shop, names) == Picks(shop, names[..n])
  {
    if n == |names| {
      assert names[..n] == names;
    } else {
      assert names[..|names| - 1][..n] == names[..n];
      FirstFailureStands(shop, names[..|names| - 1], n);
    }
  }

  datatype CustomAddon = CustomAddon(name: string, version: string, values: string)

  datatype AddonRef = AddonRef(catalogID: string, name: string)

  /** The custom catalogs the user can see, by id. A stored catalog always has one. */
  type Catalogs = map<string, seq<CustomAddon>>

  function FindCustom(defs: seq<CustomAddon>, name: string): (d: Option<CustomAddon>)
    ensures d.Some? ==> d.value.name == name
  {
    if defs == [] then None
    else if defs[0].name == name then Some(defs[0])
    else FindCustom(defs[1..], name)
  }

  /** The self-contained record of a referenced add-on. */
  function Definition(catalogs: Catalogs, ref: AddonRef): (r: Result<Addon, AddonError>)
    ensures r.Ok? ==> r.value.name == ref.name && r.value.phase == Pending && r.value.catalogID == ref.catalogID != ""
  {
    if ref.catalogID == "" || ref.catalogID !in catalogs then Err(CatalogNotFound(ref.catalogID))
    else
      var d := FindCustom(catalogs[ref.catalogID], ref.name);
      if d.None? then Err(NotInCatalog(ref.name))
      else Ok(Addon(d.value.name, d.value.version, Pending, d.value.values, ref.catalogID))
  }

  function NamesOf(addons: seq<Addon>): set<string> {
    set a | a in addons :: a.name
  }

  function BuiltInNames(addons: seq<Addon>): set<string> {
    set a | a in addons && a.catalogID == "" :: a.name
  }

  function CustomNames(addons: seq<Addon>): set<string> {
    set a | a in addons && a.catalogID != "" :: a.name
  }

  /** One more add-on: an error, one already there, one whose name is taken, or a new one. */
  function Joined(front: Result<seq<Addon>, AddonError>, a: Result<Addon, AddonError>, taken: set<string>)
    : Result<seq<Addon>, AddonError>
  {
    if front.Err? then front
    else if a.Err? then Err(a.error)
    else if a.value.name in NamesOf(front.value) then front
    else if a.value.name in taken then Err(NameTaken(a.value.name))
    else Ok(front.value + [a.value])
  }

  function Resolved(catalogs: Catalogs, refs: seq<AddonRef>, taken: set<string>): Result<seq<Addon>, AddonError> {
    if refs == [] then Ok([])
    else Joined(Resolved(catalogs, refs[..|refs| - 1], taken), Definition(catalogs, refs[|refs| - 1]), taken)
  }

  function RefNames(refs: seq<AddonRef>): set<string> {
    set r | r in refs :: r.name
  }

  lemma RefNamesSnoc(refs: seq<AddonRef>)
    requires refs != []
    ensures RefNames(refs) == RefNames(refs[..|refs| - 1]) + {refs[|refs| - 1].name}
  {
    assert refs == refs[..|refs| - 1] + [refs[|refs| - 1]];
  }

  lemma {:induction false} FirstRefusalStands(catalogs: Catalogs, refs: seq<AddonRef>, taken: set<string>, n: nat)
    requires n <= |refs| && Resolved(catalogs, refs[..n], taken).Err?
    ensures Resolved(catalogs, refs, taken) == Resolved(catalogs, refs[..n], taken)
  {
    if n == |refs| {
      assert refs[..n] == refs;
    } else {
      assert refs[..|refs| - 1][..n] == refs[..n];
      FirstRefusalStands(catalogs, refs[..|refs| - 1], taken, n);
    }
  }

  function BuiltInEdited(addons: seq<Addon>, shop: Shop, requested: seq<string>): Result<seq<Addon>, AddonError> {
    var picks := Picks(shop, requested);
    if picks.Err? then Err(picks.error) else Ok(Reconciled(addons, Keyed(picks.value), requested, BuiltIn()))
  }

  function CustomEdited(addons: seq<Addon>, catalogs: Catalogs, refs: seq<AddonRef>): Result<seq<Addon>, AddonError> {
    var found := Resolved(catalogs, refs, BuiltInNames(addons));
    if found.Err? then Err(found.error) else Ok(Reconciled(addons, Keyed(found.value), Named(found.value), Custom()))
  }

  /** The add-on part of an update request; a half that is absent is not touched. */
  datatype AddonRequest = AddonRequest(shop: Shop, requested: Option<seq<string>>,
                                       catalogs: Catalogs, refs: Option<seq<AddonRef>>)

  function Updated(addons: seq<Addon>, req: AddonRequest): Result<seq<Addon>, AddonError> {
    var mid := if req.requested.Some? then BuiltInEdited(addons, req.shop, req.requested.value) else Ok(addons);
    if mid.Err? || req.refs.None? then mid else CustomEdited(mid.value, req.catalogs, req.refs.value)
  }

  function Handled(addons: seq<Addon>): seq<Addon> {
    if addons == [] then []
    else
      var a := addons[|addons| - 1];
      Handled(addons[..|addons| - 1]) + (if a.phase == Removing then [] else [a.(phase := Installed)])
  }

  function Settled(addons: seq<Addon>, done: nat): seq<Addon> {
    if done >= |addons| then Handled(addons) else Handled(addons[..done]) + addons[done..]
  }

  predicate AnyMoves(addons: seq<Addon>, want: Wanted, governs: Partition) {
    addons != [] &&
    (AnyMoves(addons[..|addons| - 1], want, governs)
     || Moved(addons[|addons| - 1], want, governs) != addons[|addons| - 1])
  }

  lemma {:induction false} MovesShow(addons: seq<Addon>, want: Wanted, governs: Partition)
    ensures AnyMoves(addons, want, governs) <==> AllMoved(addons, want, governs) != addons
  {
    if addons != [] {
      var n := |addons| - 1;
      MovesShow(addons[..n], want, governs);
      MovedAt(addons[..n], want, governs);
      var now := AllMoved(addons, want, governs);
      assert addons == addons[..n] + [addons[n]];
      assert now[..n] == AllMoved(addons[..n], want, governs) && now[n] == Moved(addons[n], want, governs);
    }
  }

  // ---------------------------------------------------------------- what is asked for

  /** A selection as both callers build it: keyed by its own names, in the governed partition, not
      on the way out, with an order that lists exactly the wanted names; and a partition that does
      not depend on an add-on's phase. */
  ghost predicate WellAsked(want: Wanted, order: seq<string>, governs: Partition) {
    && (forall n | n in want :: want[n].name == n && governs(want[n]) && want[n].phase != Removing)
    && (forall n :: n in want <==> n in order)
    && IgnoresPhase(governs)
  }

  ghost predicate IgnoresPhase(governs: Partition) {
    forall a: Addon, p: AddonPhase :: governs(a.(phase := p)) == governs(a)
  }

  lemma PartitionsIgnorePhase()
    ensures IgnoresPhase(Custom()) && IgnoresPhase(BuiltIn())
  {
  }

  lemma {:induction false} KeyedMeaning(addons: seq<Addon>)
    ensures forall n | n in Keyed(addons) :: Keyed(addons)[n] in addons && Keyed(addons)[n].name == n
    ensures forall n :: n in Keyed(addons) <==> n in Named(addons)
  {
    if addons != [] {
      var front, a := addons[..|addons| - 1], addons[|addons| - 1];
      KeyedMeaning(front);
      assert addons == front + [a];
      assert Named(addons) == Named(front) + [a.name];
    }
  }

  lemma ListIsWellAsked(addons: seq<Addon>, governs: Partition)
    requires IgnoresPhase(governs) && forall a | a in addons :: governs(a) && a.phase == Pending
    ensures WellAsked(Keyed(addons), Named(addons), governs)
  {
    KeyedMeaning(addons);
  }

  lemma {:induction false} PicksAreBuiltIn(shop: Shop, names: seq<string>)
    requires Picks(shop, names).Ok?
    ensures Named(Picks(shop, names).value) == names
    ensures forall a | a in Picks(shop, names).value :: a.catalogID == "" && a.phase == Pending
  {
    if names != [] {
      var front := names[..|names| - 1];
      PicksAreBuiltIn(shop, front);
      assert names == front + [names[|names| - 1]];
      assert Named(Picks(shop, names).value) == Named(Picks(shop, front).value) + [names[|names| - 1]];
    }
  }

  lemma NamesOfSnoc(addons: seq<Addon>, a: Addon)
    ensures NamesOf(addons + [a]) == NamesOf(addons) + {a.name}
  {
  }

  /** What resolution accepts: custom add-ons, each name once, exactly the names referred to. */
  lemma {:induction false} ResolvedMeaning(catalogs: Catalogs, refs: seq<AddonRef>, taken: set<string>)
    requires Resolved(catalogs, refs, taken).Ok?
    ensures var found := Resolved(catalogs, refs, taken).value;
            && (forall a | a in found :: a.catalogID != "" && a.phase == Pending)
            && NamesOf(found) == RefNames(refs) && NamesOf(found) !! taken
  {
    if refs != [] {
      var front, ref := refs[..|refs| - 1], refs[|refs| - 1];
      ResolvedMeaning(catalogs, front, taken);
      RefNamesSnoc(refs);
      NamesOfSnoc(Resolved(catalogs, front, taken).value, Definition(catalogs, ref).value);
    }
  }

  lemma JoinedBesideTaken(front: Result<seq<Addon>, AddonError>, free: Result<seq<Addon>, AddonError>,
                          a: Result<Addon, AddonError>, taken: set<string>, names: set<string>)
    requires free.Ok? ==> NamesOf(free.value) == names
    requires front.Ok? <==> free.Ok? && names !! taken
    requires front.Ok? ==> front == free
    ensures Joined(front, a, taken).Ok?
       <==> Joined(free, a, {}).Ok? && (a.Ok? ==> names + {a.value.name} !! taken)
    ensures Joined(front, a, taken).Ok? ==> Joined(front, a, taken) == Joined(free, a, {})
  {
  }

  /** The guard only refuses: what is accepted beside taken names is what would be accepted anyway. */
  lemma {:induction false} TakenOnlyRefuses(catalogs: Catalogs, refs: seq<AddonRef>, taken: set<string>)
    ensures Resolved(catalogs, refs, taken).Ok? <==> Resolved(catalogs, refs, {}).Ok? && RefNames(refs) !! taken
    ensures Resolved(catalogs, refs, taken).Ok? ==> Resolved(catalogs, refs, taken) == Resolved(catalogs, refs, {})
  {
    if refs != [] {
      var front, ref := refs[..|refs| - 1], refs[|refs| - 1];
      TakenOnlyRefuses(catalogs, front, taken);
      RefNamesSnoc(refs);
      var free := Resolved(catalogs, front, {});
      if free.Ok? {
        ResolvedMeaning(catalogs, front, {});
      }
      JoinedBesideTaken(Resolved(catalogs, front, taken), free, Definition(catalogs, ref), taken, RefNames(front));
    }
  }

  /** Both callers ask well: whatever names an accepted edit lists, repeats included, and whatever
      custom add-ons it refers to. */
  lemma CallersAskWell(shop: Shop, requested: seq<string>, catalogs: Catalogs, refs: seq<AddonRef>, taken: set<string>)
    ensures Picks(shop, requested).Ok? ==> WellAsked(Keyed(Picks(shop, requested).value), requested, BuiltIn())
    ensures Resolved(catalogs, refs, taken).Ok? ==>
      var found := Resolved(catalogs, refs, taken).value;
      WellAsked(Keyed(found), Named(found), Custom()) && forall n :: n in Named(found) <==> exists r | r in refs :: r.name == n
  {
    PartitionsIgnorePhase();
    if Picks(shop, requested).Ok? {
      PicksAreBuiltIn(shop, requested);
      ListIsWellAsked(Picks(shop, requested).value, BuiltIn());
    }
    if Resolved(catalogs, refs, taken).Ok? {
      var found := Resolved(catalogs, refs, taken).value;
      ResolvedMeaning(catalogs, refs, taken);
      ListIsWellAsked(found, Custom());
      NamedMembers(found);
      assert forall n :: n in NamesOf(found) <==> exists r | r in refs :: r.name == n;
    }
  }

  lemma NamedMembers(addons: seq<Addon>)
    ensures forall n :: n in Named(addons) <==> n in NamesOf(addons)
  {
    forall n
      ensures n in Named(addons) <==> n in NamesOf(addons)
    {
      if n in Named(addons) {
        var i :| 0 <= i < |addons| && Named(addons)[i] == n;
        assert addons[i] in addons;
      }
      if n in NamesOf(addons) {
        var a :| a in addons && a.name == n;
        var i :| 0 <= i < |addons| && addons[i] == a;
        assert Named(addons)[i] == n;
      }
    }
  }

  // ---------------------------------------------------------------- pieces

  lemma {:induction false} MovedAt(addons: seq<Addon>, want: Wanted, governs: Partition)
    ensures |AllMoved(addons, want, governs)| == |addons|
    ensures forall i | 0 <= i < |addons| :: AllMoved(addons, want, governs)[i] == Moved(addons[i], want, governs)
  {
    if addons != [] {
      MovedAt(addons[..|addons| - 1], want, governs);
    }
  }

  lemma {:induction false} AdditionsMembers(order: seq<string>, seen: set<string>, want: Wanted)
    ensures forall a :: a in Additions(order, seen, want) <==> exists n | n in order :: n !in seen && a == AddonFor(want, n)
  {
    if order != [] {
      var front, name := order[..|order| - 1], order[|order| - 1];
      assert order == front + [name];
      AdditionsMembers(front, seen, want);
      if name in front && name !in seen {
        assert AddonFor(want, name) in Additions(front, seen, want);
      }
    }
  }

  lemma {:induction false} PresentMeans(addons: seq<Addon>, want: Wanted, governs: Partition, n: string)
    ensures n in Present(addons, want, governs) <==> n in want && exists a | a in addons :: governs(a) && a.name == n
  {
    if addons != [] {
      var front := addons[..|addons| - 1];
      assert addons == front + [addons[|addons| - 1]];
      PresentMeans(front, want, governs, n);
    }
  }

  predicate Stays(a: Addon, governs: Partition) {
    governs(a) && a.phase != Removing
  }

  /** The add-ons that will be there once the reconciler has caught up. */
  function Standing(addons: seq<Addon>, governs: Partition): set<string> {
    if addons == [] then {}
    else
      var a := addons[|addons| - 1];
      Standing(addons[..|addons| - 1], governs) + (if Stays(a, governs) then {a.name} else {})
  }

  lemma {:induction false} StandingMeans(addons: seq<Addon>, governs: Partition, n: string)
    ensures n in Standing(addons, governs) <==> exists a | a in addons :: Stays(a, governs) && a.name == n
  {
    if addons != [] {
      var front := addons[..|addons| - 1];
      assert addons == front + [addons[|addons| - 1]];
      StandingMeans(front, governs, n);
    }
  }

  lemma {:induction false} StandingAppend(a: seq<Addon>, b: seq<Addon>, governs: Partition)
    ensures Standing(a + b, governs) == Standing(a, governs) + Standing(b, governs)
  {
    if b == [] {
      assert a + b == a;
    } else {
      var front := b[..|b| - 1];
      assert (a + b)[..|a + b| - 1] == a + front;
      StandingAppend(a, front, governs);
    }
  }

  lemma {:induction false} StandingMoved(addons: seq<Addon>, want: Wanted, governs: Partition)
    requires IgnoresPhase(governs)
    ensures Standing(AllMoved(addons, want, governs), governs) == Present(addons, want, governs)
  {
    if addons != [] {
      var front, a := addons[..|addons| - 1], addons[|addons| - 1];
      StandingMoved(front, want, governs);
      var now, b := AllMoved(front, want, governs), Moved(a, want, governs);
      assert b == a.(phase := b.phase);
      assert (now + [b])[..|now|] == now;
    }
  }

  lemma StandingAdditions(order: seq<string>, seen: set<string>, want: Wanted, governs: Partition)
    requires forall n | n in order :: n in want && want[n].name == n && Stays(want[n], governs)
    ensures Standing(Additions(order, seen, want), governs) == (set n | n in order) - seen
  {
    var more := Additions(order, seen, want);
    AdditionsMembers(order, seen, want);
    forall n
      ensures n in Standing(more, governs) <==> n in order && n !in seen
    {
      StandingMeans(more, governs, n);
      if n in order && n !in seen {
        assert AddonFor(want, n) in more;
      }
    }
  }

  /** The governed add-ons that stay are exactly the wanted ones. */
  lemma ReachesTheWantedSet(addons: seq<Addon>, want: Wanted, order: seq<string>, governs: Partition)
    requires WellAsked(want, order, governs)
    ensures Standing(Reconciled(addons, want, order, governs), governs) == want.Keys
  {
    var seen := Present(addons, want, governs);
    StandingMoved(addons, want, governs);
    StandingAdditions(order, seen, want, governs);
    StandingAppend(AllMoved(addons, want, governs), Additions(order, seen, want), governs);
    forall n | n in seen
      ensures n in want
    {
      PresentMeans(addons, want, governs, n);
    }
  }

  /** Every add-on keeps its record and its place; only its phase may move. */
  lemma RecordsStay(addons: seq<Addon>, want: Wanted, order: seq<string>, governs: Partition, i: nat)
    requires i < |addons|
    ensures var now := Reconciled(addons, want, order, governs);
            i < |now| && now[i] == addons[i].(phase := now[i].phase) && (!governs(addons[i]) ==> now[i] == addons[i])
  {
    MovedAt(addons, want, governs);
  }

  // ---------------------------------------------------------------- the other partition

  function Outside(governs: Partition): Partition {
    (a: Addon) => !governs(a)
  }

  lemma {:induction false} MovedOutside(addons: seq<Addon>, want: Wanted, governs: Partition)
    requires IgnoresPhase(governs)
    ensures Select(Outside(governs), AllMoved(addons, want, governs)) == Select(Outside(governs), addons)
  {
    if addons != [] {
      var front, a := addons[..|addons| - 1], addons[|addons| - 1];
      MovedOutside(front, want, governs);
      var b := Moved(a, want, governs);
      assert b == a.(phase := b.phase);
      SelectSnoc(Outside(governs), AllMoved(front, want, governs), b);
    }
  }

  lemma AdditionsGoverned(order: seq<string>, seen: set<string>, want: Wanted, governs: Partition)
    requires WellAsked(want, order, governs)
    ensures forall i | 0 <= i < |Additions(order, seen, want)| :: governs(Additions(order, seen, want)[i])
  {
    AdditionsMembers(order, seen, want);
    var more := Additions(order, seen, want);
    forall i | 0 <= i < |more|
      ensures governs(more[i])
    {
      assert more[i] in more;
    }
  }

  /** The add-ons outside the partition come through as they were, in their order. */
  lemma OtherPartitionUntouched(addons: seq<Addon>, want: Wanted, order: seq<string>, governs: Partition)
    requires WellAsked(want, order, governs)
    ensures Select(Outside(governs), Reconciled(addons, want, order, governs)) == Select(Outside(governs), addons)
  {
    var seen := Present(addons, want, governs);
    var now, more := AllMoved(addons, want, governs), Additions(order, seen, want);
    MovedOutside(addons, want, governs);
    AdditionsGoverned(order, seen, want, governs);
    SelectNone(Outside(governs), more);
    SelectAppend(Outside(governs), now, more);
  }

  // ---------------------------------------------------------------- doing it twice

  lemma {:induction false} NothingToAdd(order: seq<string>, seen: set<string>, want: Wanted)
    requires forall n | n in order :: n in seen
    ensures Additions(order, seen, want) == []
  {
    if order != [] {
      var front := order[..|order| - 1];
      assert order == front + [order[|order| - 1]];
      NothingToAdd(front, seen, want);
    }
  }

  lemma WantedArePresent(addons: seq<Addon>, want: Wanted, order: seq<string>, governs: Partition, n: string)
    requires WellAsked(want, order, governs) && n in order
    ensures n in Present(Reconciled(addons, want, order, governs), want, governs)
  {
    var now := Reconciled(addons, want, order, governs);
    ReachesTheWantedSet(addons, want, order, governs);
    assert n in Standing(now, governs);
    StandingMeans(now, governs, n);
    PresentMeans(now, want, governs, n);
  }

  /** A second application changes nothing. */
  lemma ReconcilingTwiceIsOnce(addons: seq<Addon>, want: Wanted, order: seq<string>, governs: Partition)
    requires WellAsked(want, order, governs)
    ensures var now := Reconciled(addons, want, order, governs); Reconciled(now, want, order, governs) == now
  {
    var now := Reconciled(addons, want, order, governs);
    forall n | n in order
      ensures n in Present(now, want, governs)
    {
      WantedArePresent(addons, want, order, governs, n);
    }
    NothingToAdd(order, Present(now, want, governs), want);
    SettledMoves(addons, want, order, governs);
    SettledStays(now, want, governs);
  }

  lemma SettledStays(now: seq<Addon>, want: Wanted, governs: Partition)
    requires forall i | 0 <= i < |now| :: Moved(now[i], want, governs) == now[i]
    ensures AllMoved(now, want, governs) == now
  {
    MovedAt(now, want, governs);
  }

  lemma SettledMoves(addons: seq<Addon>, want: Wanted, order: seq<string>, governs: Partition)
    requires WellAsked(want, order, governs)
    ensures var now := Reconciled(addons, want, order, governs);
            forall i | 0 <= i < |now| :: Moved(now[i], want, governs) == now[i]
  {
    var seen := Present(addons, want, governs);
    var now := Reconciled(addons, want, order, governs);
    MovedAt(addons, want, governs);
    AdditionsMembers(order, seen, want);
    forall i | 0 <= i < |now|
      ensures Moved(now[i], want, governs) == now[i]
    {
      if i < |addons| {
        assert now[i] == addons[i].(phase := now[i].phase);
      } else {
        assert now[i] in Additions(order, seen, want);
      }
    }
  }

  // ---------------------------------------------------------------- built-in and custom edits

  lemma {:induction false} MovedInside(addons: seq<Addon>, want: Wanted, governs: Partition)
    requires IgnoresPhase(governs)
    ensures Select(governs, AllMoved(addons, want, governs)) == AllMoved(Select(governs, addons), want, governs)
  {
    if addons != [] {
      var front, a := addons[..|addons| - 1], addons[|addons| - 1];
      MovedInside(front, want, governs);
      var b := Moved(a, want, governs);
      assert b == a.(phase := b.phase);
      SelectSnoc(governs, AllMoved(front, want, governs), b);
      assert (Select(governs, front) + [a])[..|Select(governs, front)|] == Select(governs, front);
      assert Select(governs, front) + [] == Select(governs, front);
    }
  }

  lemma {:induction false} PresentInside(addons: seq<Addon>, want: Wanted, governs: Partition)
    ensures Present(Select(governs, addons), want, governs) == Present(addons, want, governs)
  {
    if addons != [] {
      var front, a := addons[..|addons| - 1], addons[|addons| - 1];
      PresentInside(front, want, governs);
      var kept := Select(governs, front);
      assert (kept + [a])[..|kept|] == kept && kept + [] == kept;
    }
  }

  /** What an edit does to its own partition depends on that partition alone. */
  lemma OwnPartitionAlone(addons: seq<Addon>, want: Wanted, order: seq<string>, governs: Partition)
    requires WellAsked(want, order, governs)
    ensures Select(governs, Reconciled(addons, want, order, governs)) == Reconciled(Select(governs, addons), want, order, governs)
  {
    var seen := Present(addons, want, governs);
    var now, more := AllMoved(addons, want, governs), Additions(order, seen, want);
    MovedInside(addons, want, governs);
    PresentInside(addons, want, governs);
    AdditionsGoverned(order, seen, want, governs);
    SelectAll(governs, more);
    SelectAppend(governs, now, more);
  }

  lemma {:induction false} SelectSame(f: Partition, g: Partition, s: seq<Addon>)
    requires forall a: Addon :: f(a) == g(a)
    ensures Select(f, s) == Select(g, s)
  {
    if s != [] {
      SelectSame(f, g, s[..|s| - 1]);
    }
  }

  /** An edit of the built-in selection and one of the custom selection do not disturb each other:
      in either order, each partition ends up the same. */
  lemma SelectionsCommute(addons: seq<Addon>, g: Partition, want: Wanted, order: seq<string>,
                          h: Partition, want': Wanted, order': seq<string>)
    requires WellAsked(want, order, g) && WellAsked(want', order', h) && forall a: Addon :: g(a) <==> !h(a)
    ensures Select(g, Reconciled(Reconciled(addons, want, order, g), want', order', h))
         == Select(g, Reconciled(Reconciled(addons, want', order', h), want, order, g))
  {
    var first, second := Reconciled(addons, want, order, g), Reconciled(addons, want', order', h);
    OtherPartitionUntouched(first, want', order', h);
    SelectSame(g, Outside(h), Reconciled(first, want', order', h));
    SelectSame(g, Outside(h), first);
    OwnPartitionAlone(addons, want, order, g);
    OwnPartitionAlone(second, want, order, g);
    OtherPartitionUntouched(addons, want', order', h);
    SelectSame(g, Outside(h), second);
    SelectSame(g, Outside(h), addons);
  }
}
