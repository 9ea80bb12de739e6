/** Release bundles and the upgrade chain they form (internal/catalog/catalog.go). */
module Catalog {
  import opened Wrappers
  import opened Text
  import opened Lists

  datatype Status = Supported | Deprecated | EndOfLife

  datatype Bundle = Bundle(name: string, status: Status, kubernetes: string, supersedes: string)

  const MAX_INT := 0x7fff_ffff_ffff_ffff

  /** A decimal with an optional sign; anything else reads as zero, and what does not fit reads as
      the nearest end of the range. */
  function ParseInt(s: string): int {
    if s != "" && s[0] == '-' then
      (if s[1..] != "" && AllDigits(s[1..]) then -Min(Atoi(s[1..]), MAX_INT + 1) else 0)
    else
      var d := if s != "" && s[0] == '+' then s[1..] else s;
      if d != "" && AllDigits(d) then Min(Atoi(d), MAX_INT) else 0
  }

  function Minor(version: string): int {
    var parts := Split(version, '.');
    if |parts| < 2 then 0 else ParseInt(parts[1])
  }

  // ---------------------------------------------------------------- validation

  function FindBundle(bundles: seq<Bundle>, name: string): (b: Option<Bundle>)
    ensures b.Some? ==> b.value in bundles && b.value.name == name
    ensures b.None? ==> forall c | c in bundles :: c.name != name
  {
    if bundles == [] then None
    else if bundles[0].name == name then Some(bundles[0])
    else FindBundle(bundles[1..], name)
  }

  /** A bundle may follow the one it supersedes: that one exists, and the minor version stays or
      goes up by one. */
  predicate LinkOK(bundles: seq<Bundle>, b: Bundle) {
    b.supersedes == "" ||
    var prev := FindBundle(bundles, b.supersedes);
    prev.Some? && 0 <= Minor(b.kubernetes) - Minor(prev.value.kubernetes) <= 1
  }

  predicate LinksOK(bundles: seq<Bundle>) {
    forall b | b in bundles :: LinkOK(bundles, b)
  }

  predicate DistinctNames(bundles: seq<Bundle>) {
    forall i, j | 0 <= i < j < |bundles| :: bundles[i].name != bundles[j].name
  }

  datatype LinkError = UnknownPredecessor | OlderKubernetes | SkipsMinor

  method ValidateLinks(bundles: seq<Bundle>) returns (err: Option<LinkError>)
    ensures err.None? <==> LinksOK(bundles)
  {
    for i := 0 to |bundles|
      invariant forall b | b in bundles[..i] :: LinkOK(bundles, b)
    {
      var b := bundles[i];
      assert b in bundles;
      assert bundles[..i + 1] == bundles[..i] + [b];
      if b.supersedes == "" {
        continue;
      }
      var prev := FindBundle(bundles, b.supersedes);
      if prev.None? {
        return Some(UnknownPredecessor);
      }
      var cur, was := Minor(b.kubernetes), Minor(prev.value.kubernetes);
      if cur < was {
        return Some(OlderKubernetes);
      }
      if cur - was > 1 {
        return Some(SkipsMinor);
      }
    }
    assert bundles[..|bundles|] == bundles;
    return None;
  }

  // ---------------------------------------------------------------- the walk

  type Links = map<string, Bundle>

  /** Who supersedes whom; of two bundles superseding the same one, the later listed wins. */
  function NextOf(bundles: seq<Bundle>): Links {
    if bundles == [] then map[]
    else
      var next, b := NextOf(bundles[..|bundles| - 1]), bundles[|bundles| - 1];
      if b.supersedes == "" then next else next[b.supersedes := b]
  }

  function TargetNames(next: Links): set<string> {
    set k | k in next :: next[k].name
  }

  lemma Progress(next: Links, cur: string, seen: set<string>)
    requires cur in next && next[cur].name !in seen
    ensures |TargetNames(next) - (seen + {next[cur].name})| < |TargetNames(next) - seen|
  {
    var name := next[cur].name;
    assert name in TargetNames(next) - seen;
    assert TargetNames(next) - (seen + {name}) == (TargetNames(next) - seen) - {name};
  }

  /** The bundles met walking forward from `cur`, stopping before a name already met. */
  function Chain(next: Links, cur: string, seen: set<string>): seq<Bundle>
    decreases |TargetNames(next) - seen|
  {
    if cur !in next || next[cur].name in seen then []
    else
      var b := next[cur];
      Progress(next, cur, seen);
      [b] + Chain(next, b.name, seen + {b.name})
  }

  function IsSupported(): Bundle -> bool {
    (b: Bundle) => b.status == Supported
  }

  function Upgrades(bundles: seq<Bundle>, current: string): seq<Bundle> {
    Select(IsSupported(), Chain(NextOf(bundles), current, {}))
  }

  method BuildLinks(bundles: seq<Bundle>) returns (next: Links)
    ensures next == NextOf(bundles)
  {
    next := map[];
    for i := 0 to |bundles|
      invariant next == NextOf(bundles[..i])
    {
      assert bundles[..i + 1][..i] == bundles[..i];
      if bundles[i].supersedes != "" {
        next := next[bundles[i].supersedes := bundles[i]];
      }
    }
    assert bundles[..|bundles|] == bundles;
  }

  /** What the walk still has to offer. */
  function Remaining(next: Links, cur: string, seen: set<string>): seq<Bundle> {
    Select(IsSupported(), Chain(next, cur, seen))
  }

  lemma RemainingStep(next: Links, cur: string, seen: set<string>)
    requires cur in next && next[cur].name !in seen
    ensures var b := next[cur];
            Remaining(next, cur, seen) == (if b.status == Supported then [b] else []) + Remaining(next, b.name, seen + {b.name})
  {
    var b := next[cur];
    SelectAppend(IsSupported(), [b], Chain(next, b.name, seen + {b.name}));
    SelectSnoc(IsSupported(), [], b);
    assert [] + [b] == [b];
  }

  function Taking(out: seq<Bundle>, b: Bundle): seq<Bundle> {
    if b.status == Supported then out + [b] else out
  }

  lemma MoveAcross(out: seq<Bundle>, b: Bundle, rest: seq<Bundle>)
    ensures out + ((if b.status == Supported then [b] else []) + rest) == Taking(out, b) + rest
  {
    if b.status == Supported {
      assert out + ([b] + rest) == out + [b] + rest;
    } else {
      assert [] + rest == rest;
    }
  }

  /** Taking one bundle moves it from what remains to what has been taken. */
  lemma WalkOn(next: Links, cur: string, seen: set<string>, out: seq<Bundle>)
    requires cur in next && next[cur].name !in seen
    ensures var b := next[cur];
            out + Remaining(next, cur, seen) == Taking(out, b) + Remaining(next, b.name, seen + {b.name})
  {
    var b := next[cur];
    RemainingStep(next, cur, seen);
    MoveAcross(out, b, Remaining(next, b.name, seen + {b.name}));
  }

  method UpgradesFor(bundles: seq<Bundle>, current: string) returns (out: seq<Bundle>)
    ensures out == Upgrades(bundles, current)
  {
    var next := BuildLinks(bundles);
    out := [];
    var seen: set<string> := {};
    var cur := current;
    ghost var all := Remaining(next, current, {});
    while cur in next && next[cur].name !in seen
      invariant all == out + Remaining(next, cur, seen)
      decreases |TargetNames(next) - seen|
    {
      var b := next[cur];
      Progress(next, cur, seen);
      WalkOn(next, cur, seen, out);
      seen := seen + {b.name};
      if b.status == Supported {
        out := out + [b];
      }
      cur := b.name;
    }
  }

  // ---------------------------------------------------------------- the walk against plain hops

  /** The bundle k + 1 hops forward, ignoring that the walk may go round in circles. */
  function Hop(next: Links, cur: string, k: nat): Option<Bundle>
    decreases k
  {
    if cur !in next then None
    else if k == 0 then Some(next[cur])
    else Hop(next, next[cur].name, k - 1)
  }

  function NamesOf(bundles: seq<Bundle>): set<string> {
    set b | b in bundles :: b.name
  }

  /** The walk lists the hops in order, and never the same name twice. */
  lemma {:induction false} ChainIsTheHops(next: Links, cur: string, seen: set<string>)
    ensures var chain := Chain(next, cur, seen);
            && DistinctNames(chain)
            && (forall i | 0 <= i < |chain| :: chain[i].name !in seen)
            && forall i | 0 <= i < |chain| :: Hop(next, cur, i) == Some(chain[i])
    decreases |TargetNames(next) - seen|
  {
    if cur in next && next[cur].name !in seen {
      var b := next[cur];
      Progress(next, cur, seen);
      ChainIsTheHops(next, b.name, seen + {b.name});
      var rest := Chain(next, b.name, seen + {b.name});
      var chain := Chain(next, cur, seen);
      assert forall i | 0 < i < |chain| :: chain[i] == rest[i - 1];
    }
  }

  /** Names from which no hop leads outside the set, except perhaps from one of them. */
  predicate ClosedBut(next: Links, names: set<string>, cur: string) {
    forall n | n in names && n in next && n != cur :: next[n].name in names
  }

  predicate ClosedUnderHops(next: Links, names: set<string>) {
    forall n | n in names && n in next :: next[n].name in names
  }

  lemma NamesSplit(b: Bundle, rest: seq<Bundle>, seen: set<string>)
    ensures seen + NamesOf([b] + rest) == seen + {b.name} + NamesOf(rest)
  {
    assert NamesOf([b] + rest) == {b.name} + NamesOf(rest) by {
      assert b in [b] + rest;
      assert forall c | c in rest :: c in [b] + rest;
    }
  }

  /** Every name met is followed up, so the walk misses nothing. */
  lemma {:induction false} ChainIsClosed(next: Links, cur: string, seen: set<string>)
    requires ClosedBut(next, seen, cur) && (cur in seen || seen == {})
    ensures ClosedUnderHops(next, seen + NamesOf(Chain(next, cur, seen)))
    ensures cur in next ==> next[cur].name in seen + NamesOf(Chain(next, cur, seen))
    decreases |TargetNames(next) - seen|
  {
    if cur in next && next[cur].name !in seen {
      var b := next[cur];
      Progress(next, cur, seen);
      ChainIsClosed(next, b.name, seen + {b.name});
      NamesSplit(b, Chain(next, b.name, seen + {b.name}), seen);
    } else {
      assert NamesOf([]) == {};
      assert seen + {} == seen;
    }
  }

  lemma {:induction false} HopsStayInside(next: Links, names: set<string>, cur: string, k: nat)
    requires ClosedUnderHops(next, names) && (cur in next ==> next[cur].name in names)
    ensures Hop(next, cur, k).Some? ==> Hop(next, cur, k).value.name in names
    decreases k
  {
    if cur in next && k > 0 {
      HopsStayInside(next, names, next[cur].name, k - 1);
    }
  }

  /** The walk ends on every catalog, cycles included, having met the name of everything that any
      number of hops can reach, each once and in hop order. */
  lemma WalkIsComplete(bundles: seq<Bundle>, current: string, k: nat)
    ensures var next := NextOf(bundles);
            var chain := Chain(next, current, {});
            && DistinctNames(chain)
            && (k < |chain| ==> Hop(next, current, k) == Some(chain[k]))
            && (Hop(next, current, k).Some? ==> Hop(next, current, k).value.name in NamesOf(chain))
  {
    var next := NextOf(bundles);
    ChainIsTheHops(next, current, {});
    ChainIsClosed(next, current, {});
    assert {} + NamesOf(Chain(next, current, {})) == NamesOf(Chain(next, current, {}));
    HopsStayInside(next, NamesOf(Chain(next, current, {})), current, k);
  }

  // ---------------------------------------------------------------- minor versions along the chain

  lemma {:induction false} NextIsListed(bundles: seq<Bundle>, k: string)
    requires k in NextOf(bundles)
    ensures NextOf(bundles)[k] in bundles && NextOf(bundles)[k].supersedes == k != ""
  {
    var front := bundles[..|bundles| - 1];
    assert bundles == front + [bundles[|bundles| - 1]];
    if k in NextOf(front) {
      NextIsListed(front, k);
    }
  }

  lemma OneBundlePerName(bundles: seq<Bundle>, b: Bundle)
    requires DistinctNames(bundles) && b in bundles
    ensures FindBundle(bundles, b.name) == Some(b)
  {
    var c := FindBundle(bundles, b.name).value;
    var i :| 0 <= i < |bundles| && bundles[i] == b;
    var j :| 0 <= j < |bundles| && bundles[j] == c;
  }

  /** How far up a bundle is; the minor version of its Kubernetes is the one in use. */
  type Height = Bundle -> int

  function MinorOf(): Height {
    (b: Bundle) => Minor(b.kubernetes)
  }

  predicate OneStep(h: Height, a: Bundle, b: Bundle) {
    0 <= h(b) - h(a) <= 1
  }

  predicate Climbs(h: Height, chain: seq<Bundle>) {
    forall i, j | 0 <= i && j == i + 1 < |chain| :: OneStep(h, chain[i], chain[j])
  }

  ghost predicate LinksClimb(h: Height, bundles: seq<Bundle>) {
    forall b | b in bundles && b.supersedes != "" ::
      FindBundle(bundles, b.supersedes).Some? && OneStep(h, FindBundle(bundles, b.supersedes).value, b)
  }

  lemma ValidLinksClimb(bundles: seq<Bundle>)
    requires LinksOK(bundles)
    ensures LinksClimb(MinorOf(), bundles)
  {
    forall b | b in bundles && b.supersedes != ""
      ensures FindBundle(bundles, b.supersedes).Some? && OneStep(MinorOf(), FindBundle(bundles, b.supersedes).value, b)
    {
      assert LinkOK(bundles, b);
    }
  }

  lemma ClimbsFrom(h: Height, a: Bundle, rest: seq<Bundle>)
    requires rest != [] && Climbs(h, rest) && OneStep(h, a, rest[0])
    ensures Climbs(h, [a] + rest)
  {
    var chain := [a] + rest;
    forall i, j | 0 <= i && j == i + 1 < |chain|
      ensures OneStep(h, chain[i], chain[j])
    {
      assert chain[j] == rest[j - 1];
      if i > 0 {
        assert chain[i] == rest[i - 1] && OneStep(h, rest[i - 1], rest[j - 1]);
      }
    }
  }

  /** Each bundle of the walk is as high as the one before it or one higher. */
  lemma {:induction false} ChainClimbs(h: Height, bundles: seq<Bundle>, from: Bundle, seen: set<string>)
    requires LinksClimb(h, bundles) && DistinctNames(bundles) && from in bundles
    ensures Climbs(h, [from] + Chain(NextOf(bundles), from.name, seen))
    decreases |TargetNames(NextOf(bundles)) - seen|
  {
    var next := NextOf(bundles);
    if from.name in next && next[from.name].name !in seen {
      var b := next[from.name];
      Progress(next, from.name, seen);
      NextIsListed(bundles, from.name);
      OneBundlePerName(bundles, from);
      ChainClimbs(h, bundles, b, seen + {b.name});
      ClimbsFrom(h, from, [b] + Chain(next, b.name, seen + {b.name}));
    }
  }

  /** How many of the steps from position i to position j go up. */
  function Raises(h: Height, chain: seq<Bundle>, i: nat, j: nat): nat
    requires i <= j < |chain|
    decreases j
  {
    if i == j then 0 else Raises(h, chain, i, j - 1) + (if h(chain[j]) > h(chain[j - 1]) then 1 else 0)
  }

  lemma {:induction false} ClimbIsCounted(h: Height, chain: seq<Bundle>, i: nat, j: nat)
    requires i <= j < |chain| && Climbs(h, chain)
    ensures h(chain[j]) - h(chain[i]) == Raises(h, chain, i, j) <= j - i
    decreases j
  {
    if i < j {
      ClimbIsCounted(h, chain, i, j - 1);
      assert OneStep(h, chain[j - 1], chain[j]);
    }
  }

  /** In a validated catalog with distinct names, minors never go down along the walk, and two
      bundles on it are apart by exactly the number of raising steps between them, so by no more
      than the number of steps. */
  lemma MinorsAlongTheChain(bundles: seq<Bundle>, from: Bundle, i: nat, j: nat)
    requires LinksOK(bundles) && DistinctNames(bundles) && from in bundles
    requires i <= j <= |Chain(NextOf(bundles), from.name, {})|
    ensures var walk := [from] + Chain(NextOf(bundles), from.name, {});
            0 <= MinorOf()(walk[j]) - MinorOf()(walk[i]) == Raises(MinorOf(), walk, i, j) <= j - i
  {
    ValidLinksClimb(bundles);
    ChainClimbs(MinorOf(), bundles, from, {});
    ClimbIsCounted(MinorOf(), [from] + Chain(NextOf(bundles), from.name, {}), i, j);
  }

  // ---------------------------------------------------------------- the offered upgrades

  /** Where on the walk the offered bundles sit. */
  function Offered(chain: seq<Bundle>): seq<nat> {
    if chain == [] then []
    else Offered(chain[..|chain| - 1]) + (if chain[|chain| - 1].status == Supported then [|chain| - 1] else [])
  }

  lemma {:induction false} OfferedArePlaces(chain: seq<Bundle>)
    ensures |Offered(chain)| == |Select(IsSupported(), chain)|
    ensures forall i | 0 <= i < |Offered(chain)| ::
              Offered(chain)[i] < |chain| && Select(IsSupported(), chain)[i] == chain[Offered(chain)[i]]
    ensures forall i, j | 0 <= i < j < |Offered(chain)| :: Offered(chain)[i] < Offered(chain)[j]
    ensures forall k | 0 <= k < |chain| && chain[k].status == Supported :: k in Offered(chain)
  {
    if chain != [] {
      OfferedArePlaces(chain[..|chain| - 1]);
    }
  }

  /** The next offered upgrade raises the minor version by at most one exactly when at most one of
      the steps up to it does: with no unsupported bundle skipped, always. */
  lemma NextUpgradeIsOneMinorExactlyWhen(bundles: seq<Bundle>, from: Bundle)
    requires LinksOK(bundles) && DistinctNames(bundles) && from in bundles && Upgrades(bundles, from.name) != []
    ensures var walk := [from] + Chain(NextOf(bundles), from.name, {});
            var hop := Upgrades(bundles, from.name)[0];
            var at := Offered(walk[1..]);
            && |at| > 0 && at[0] + 1 < |walk| && walk[at[0] + 1] == hop
            && (OneStep(MinorOf(), from, hop) <==> Raises(MinorOf(), walk, 0, at[0] + 1) <= 1)
            && (at[0] == 0 ==> OneStep(MinorOf(), from, hop))
  {
    var chain := Chain(NextOf(bundles), from.name, {});
    var walk := [from] + chain;
    assert walk[1..] == chain;
    OfferedArePlaces(chain);
    MinorsAlongTheChain(bundles, from, 0, Offered(chain)[0] + 1);
  }

  /** So too between any two neighbours of the offered list: `Offered` says how many links of the
      walk lie between them, the minor goes up by no more than that many, and by at most one exactly
      when at most one of them raises it. */
  lemma NeighboursAreOneMinorExactlyWhen(bundles: seq<Bundle>, from: Bundle, i: nat)
    requires LinksOK(bundles) && DistinctNames(bundles) && from in bundles && i + 1 < |Upgrades(bundles, from.name)|
    ensures var chain := Chain(NextOf(bundles), from.name, {});
            var at, ups := Offered(chain), Upgrades(bundles, from.name);
            && |at| == |ups| && at[i] < at[i + 1] < |chain| && chain[at[i]] == ups[i] && chain[at[i + 1]] == ups[i + 1]
            && 0 <= MinorOf()(ups[i + 1]) - MinorOf()(ups[i]) <= at[i + 1] - at[i]
            && (OneStep(MinorOf(), ups[i], ups[i + 1]) <==> Raises(MinorOf(), [from] + chain, at[i] + 1, at[i + 1] + 1) <= 1)
  {
    var chain := Chain(NextOf(bundles), from.name, {});
    OfferedArePlaces(chain);
    var at := Offered(chain);
    assert ([from] + chain)[at[i] + 1] == chain[at[i]] && ([from] + chain)[at[i + 1] + 1] == chain[at[i + 1]];
    MinorsAlongTheChain(bundles, from, at[i] + 1, at[i + 1] + 1);
  }

  // ---------------------------------------------------------------- a hop that skips a minor

  function Version(n: nat): string {
    "1" + ['.'] + Itoa(n)
  }

  lemma MinorOfVersion(n: nat)
    requires n <= MAX_INT
    ensures Minor(Version(n)) == n
  {
    AtoiItoa(n);
    NoDotInDigits(Itoa(n));
    SplitAt('.', "1", Itoa(n));
    assert Split(Itoa(n), '.') == [Itoa(n)];
  }

  lemma NoDotInDigits(s: string)
    requires AllDigits(s)
    ensures '.' !in s
  {
  }

  /** Three bundles in a row, a minor version apart, the middle one no longer supported. */
  function Gap(n: nat): seq<Bundle> {
    [Bundle("a", Supported, Version(n), ""), Bundle("b", Deprecated, Version(n + 1), "a"),
     Bundle("c", Supported, Version(n + 2), "b")]
  }

  lemma GapIsValid(n: nat)
    requires n + 2 <= MAX_INT
    ensures LinksOK(Gap(n)) && DistinctNames(Gap(n))
  {
    MinorOfVersion(n);
    MinorOfVersion(n + 1);
    MinorOfVersion(n + 2);
    ThreeInARow(Gap(n), Gap(n)[0], Gap(n)[1], Gap(n)[2]);
  }

  lemma ThreeInARow(g: seq<Bundle>, a: Bundle, b: Bundle, c: Bundle)
    requires g == [a, b, c] && a.name != b.name && b.name != c.name && a.name != c.name
    requires a.supersedes == "" && b.supersedes == a.name && c.supersedes == b.name
    requires Minor(b.kubernetes) == Minor(a.kubernetes) + 1 && Minor(c.kubernetes) == Minor(b.kubernetes) + 1
    ensures LinksOK(g) && DistinctNames(g)
  {
    assert g[1..] == [b, c];
    assert FindBundle(g, a.name) == Some(a);
    assert FindBundle([b, c], b.name) == Some(b);
    assert FindBundle(g, b.name) == Some(b);
  }

  lemma GapLinks(n: nat)
    ensures NextOf(Gap(n)) == map["a" := Gap(n)[1], "b" := Gap(n)[2]]
  {
    var g := Gap(n);
    assert g[..2] == [g[0], g[1]] && g[..2][..1] == [g[0]] && g[..1][..0] == [];
    assert NextOf([g[0]]) == map[];
    assert NextOf([g[0], g[1]]) == map["a" := g[1]];
  }

  lemma PassesOver(next: Links, x: string, b: Bundle, c: Bundle)
    requires x in next && next[x] == b && b.name in next && next[b.name] == c && c.name !in next
    requires b.name != c.name && b.status != Supported && c.status == Supported
    ensures Remaining(next, x, {}) == [c]
  {
    RemainingStep(next, x, {});
    RemainingStep(next, b.name, {} + {b.name});
    assert Remaining(next, c.name, {} + {b.name} + {c.name}) == [];
  }

  /** Validation does not make every offered hop a single minor version: where an unsupported
      bundle is passed over, the next upgrade can be two away. */
  lemma HopCanSkipAMinor(n: nat)
    requires n + 2 <= MAX_INT
    ensures LinksOK(Gap(n)) && DistinctNames(Gap(n))
    ensures Upgrades(Gap(n), "a") == [Gap(n)[2]]
    ensures Minor(Gap(n)[2].kubernetes) == Minor(Gap(n)[0].kubernetes) + 2
  {
    GapIsValid(n);
    MinorOfVersion(n);
    MinorOfVersion(n + 2);
    GapLinks(n);
    PassesOver(NextOf(Gap(n)), "a", Gap(n)[1], Gap(n)[2]);
  }
}
