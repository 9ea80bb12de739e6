/** Addresses are told apart by their text everywhere in admission. What it takes for that to mean
    that the addresses themselves differ, over every run. */
module AddressRuns {
  import opened Wrappers
  import opened Text
  import opened Nodes
  import DiskRows
  import opened Netpool
  import opened Addressing
  import opened Quota
  import opened Admission
  import opened AdmissionRuns
  import opened AdmissionGuarantees
  import opened Orders

  // ---------------------------------------------------------------- how addresses are written

  /** Which texts may stand for an address on which backend. */
  type Style = (string, string) -> bool

  /** A cluster on a shared network is addressed the way the network says, in this style. */
  ghost predicate Written(cfg: Config, style: Style, c: Cluster) {
    var p := c.InfraProvider();
    p in cfg.sharedNet ==> c.ipMode == cfg.sharedNet[p].mode && forall a | a in Addresses(c) :: style(p, a)
  }

  /** The platform's own spelling is in style wherever the platform does the writing. */
  ghost predicate Suits(cfg: Config, style: Style) {
    forall p, a | p in cfg.sharedNet && cfg.sharedNet[p].mode != "dhcp" && Canonical(a) :: style(p, a)
  }

  /** So is every address that a create request names and a network accepts. */
  ghost predicate RequestSuits(cfg: Config, style: Style, step: Step) {
    step.Create? ==>
      forall p, a | p in cfg.sharedNet && cfg.sharedNet[p].mode == "dhcp"
        && a in {Trim(step.req.apiVIP), Trim(step.req.loadBalancerIP)} && CheckHostIP(cfg.sharedNet[p], a, {}).None? ::
          style(p, a)
  }

  lemma AllPieces(c: Cluster, ok: string -> bool)
    requires forall a | a in c.staticIPs.Values :: ok(a)
    requires (c.apiVIP == "" || ok(c.apiVIP)) && (c.loadBalancerIP == "" || ok(c.loadBalancerIP))
    ensures forall a | a in Addresses(c) :: ok(a)
  {
  }

  lemma AddressesAmong(e: Cluster, ips: seq<string>)
    requires forall a | a in e.staticIPs.Values :: a in ips
    requires (e.apiVIP == "" || e.apiVIP in ips) && e.loadBalancerIP in ips
    ensures forall a | a in Addresses(e) :: a in ips
  {
  }

  lemma ClaimSpelledOut(c: Cluster, s: NetSettings, used: set<string>, k: nat, ips: seq<string>)
    requires k == |NodeVMNames(c)| && Allocation(s, used, k + 1 + (if c.HA() then 1 else 0)) == Ok(ips)
    requires |ips| == k + 1 + (if c.HA() then 1 else 0) && ClaimStatic(c, s, used).Ok?
    ensures ClaimStatic(c, s, used).value
         == c.(ipMode := s.mode, staticIPs := AssignAll(map[], NodeVMNames(c), ips[..k]), loadBalancerIP := ips[k],
               apiVIP := if c.HA() then ips[k + 1] else c.apiVIP)
  {
  }

  /** A static claim holds nothing but what the range allocation returned. */
  lemma ClaimedFromRange(c: Cluster, s: NetSettings, used: set<string>, n: nat, ips: seq<string>)
    requires ValidPools(c.name, c.nodePools) && c.apiVIP == "" && ClaimStatic(c, s, used).Ok?
    requires n == |NodeVMNames(c)| + 1 + (if c.HA() then 1 else 0)
    requires Allocation(s, used, n) == Ok(ips) && |ips| == n && Distinct(ips)
    ensures forall a | a in Addresses(ClaimStatic(c, s, used).value) :: a in ips
  {
    var k := |NodeVMNames(c)|;
    ClaimSpelledOut(c, s, used, k, ips);
    SplitAllocation(ips, k);
    AssignedAddresses(c, ips[..k]);
    assert ips[k] in ips && (c.HA() ==> ips[k + 1] in ips);
    AddressesAmong(ClaimStatic(c, s, used).value, ips);
  }

  lemma StaticClaimIsPlain(c: Cluster, s: NetSettings, used: set<string>)
    requires ValidPools(c.name, c.nodePools) && s.WellFormed() && c.apiVIP == "" && ClaimStatic(c, s, used).Ok?
    ensures forall a | a in Addresses(ClaimStatic(c, s, used).value) :: Canonical(a)
  {
    var n := |NodeVMNames(c)| + 1 + (if c.HA() then 1 else 0);
    AllocationMeaning(s, used, n);
    ClaimedFromRange(c, s, used, n, Allocation(s, used, n).value);
  }

  lemma DHCPClaimIsChecked(c: Cluster, s: NetSettings, vip: string, lb: string, used: set<string>, ok: string -> bool)
    requires c.staticIPs == map[] && c.apiVIP == "" && ClaimDHCP(c, s, vip, lb, used).Ok?
    requires forall a | a in {vip, lb} && CheckHostIP(s, a, {}).None? :: ok(a)
    ensures forall a | a in Addresses(ClaimDHCP(c, s, vip, lb, used).value) :: ok(a)
  {
    AllPieces(ClaimDHCP(c, s, vip, lb, used).value, ok);
  }

  lemma ClaimIsWritten(c: Cluster, s: NetSettings, vip: string, lb: string, others: seq<Cluster>, ok: string -> bool, e: Cluster)
    requires ValidPools(c.name, c.nodePools) && s.WellFormed() && c.staticIPs == map[] && c.apiVIP == ""
    requires ClaimAddresses(c, s, vip, lb, others) == Ok(e)
    requires s.mode != "dhcp" ==> forall a | Canonical(a) :: ok(a)
    requires s.mode == "dhcp" ==> forall a | a in {Trim(vip), Trim(lb)} && CheckHostIP(s, a, {}).None? :: ok(a)
    ensures e.ipMode == s.mode && forall a | a in Addresses(e) :: ok(a)
  {
    if s.mode == "dhcp" {
      DHCPClaimIsChecked(c, s, Trim(vip), Trim(lb), UsedBy(others), ok);
    } else {
      StaticClaimIsPlain(c, s, UsedBy(others));
    }
  }

  lemma ProviderStays(cfg: Config, rows: seq<Cluster>, req: CreateRequest, c: Cluster, e: Cluster)
    requires WithNetwork(cfg, rows, req, c) == Ok(e)
    ensures e.provider == c.provider
  {
  }

  lemma CreatedThroughNetwork(cfg: Config, rows: seq<Cluster>, req: CreateRequest, e: Cluster)
    returns (c: Cluster)
    requires Created(cfg, rows, req) == Ok(e)
    ensures ValidPools(c.name, c.nodePools) && c.staticIPs == map[] && c.apiVIP == ""
    ensures WithNetwork(cfg, rows, req, c) == Ok(e)
  {
    var blank := Blank(req, ResolveProvider(cfg, req.provider).value, StorageSize(req).value);
    CheckPoolsMeaning(req.name, blank.nodePools, {});
    c := blank.(nodeDisks := DiskRows.Synced(blank));
  }

  lemma CreatedIsWritten(cfg: Config, style: Style, rows: seq<Cluster>, req: CreateRequest, e: Cluster)
    requires GoodConfig(cfg) && Suits(cfg, style) && RequestSuits(cfg, style, Create(req))
    requires Created(cfg, rows, req) == Ok(e)
    ensures Written(cfg, style, e)
  {
    var c := CreatedThroughNetwork(cfg, rows, req, e);
    ProviderStays(cfg, rows, req, c, e);
    var p := c.InfraProvider();
    if p in cfg.sharedNet {
      ClaimIsWritten(c, cfg.sharedNet[p], req.apiVIP, req.loadBalancerIP, OnProvider(rows, p), a => style(p, a), e);
    }
  }

  // ---------------------------------------------------------------- every step keeps the style

  lemma RescaledIsWritten(cfg: Config, rows: seq<Cluster>, c: Cluster, want: seq<NodePool>, e: Cluster, f: Cluster, ok: string -> bool)
    requires GoodConfig(cfg) && AddressInv(c) && ValidPools(c.name, want) && forall a | a in Addresses(c) :: ok(a)
    requires e == c.(nodePools := want, nodeDisks := e.nodeDisks) && Readdressed(e, f)
    requires FollowAddresses(cfg, rows, e) == Ok(f.staticIPs)
    requires c.ipMode == "static" ==> forall a | Canonical(a) :: ok(a)
    ensures forall a | a in Addresses(f) :: ok(a)
  {
    var p := e.InfraProvider();
    if p in cfg.sharedNet && e.ipMode == "static" {
      NamesAreDistinct(e);
      ScaledBook(c.staticIPs, NodeVMNames(e), cfg.sharedNet[p], UsedBy(Others(rows, p, e.id)) + FixedAddresses(e), f.staticIPs);
    }
    assert forall v | v in c.staticIPs.Values :: v in Addresses(c);
    assert FixedAddresses(c) <= Addresses(c);
    AllPieces(f, ok);
  }

  lemma EditedIsWritten(cfg: Config, rows: seq<Cluster>, c: Cluster, want: seq<NodePool>, budget: Amount, f: Cluster, ok: string -> bool)
    requires GoodConfig(cfg) && AddressInv(c) && forall a | a in Addresses(c) :: ok(a)
    requires Edited(cfg, rows, c, want, budget) == Ok(f)
    requires c.ipMode == "static" ==> forall a | Canonical(a) :: ok(a)
    ensures f.ipMode == c.ipMode && forall a | a in Addresses(f) :: ok(a)
  {
    if !SameTopology(c.nodePools, want) {
      EditGoesThrough(cfg, rows, c, want, budget, f);
      var e := c.(nodePools := want, nodeDisks := DiskRows.EditedDisks(c, want));
      RescaleChecked(cfg, rows, e, budget, f);
      RescaledIsWritten(cfg, rows, c, want, e, f, ok);
    }
  }

  lemma OtherStepsKeepAddresses(cfg: Config, rows: seq<Cluster>, c: Cluster, step: Step)
    requires !step.Create? && !step.EditPools? && NewVersion(cfg, rows, c, step).Ok?
    ensures var f := NewVersion(cfg, rows, c, step).value;
            Addresses(f) == Addresses(c) && f.ipMode == c.ipMode
  {
  }

  lemma NewVersionIsWritten(cfg: Config, style: Style, rows: seq<Cluster>, c: Cluster, step: Step, f: Cluster)
    requires GoodConfig(cfg) && Suits(cfg, style) && !step.Create? && NewVersion(cfg, rows, c, step) == Ok(f)
    requires RowInv(cfg, c) && Written(cfg, style, c)
    ensures Written(cfg, style, f)
  {
    VersionsKeepBackend(cfg, rows, c, step, f);
    var p := c.InfraProvider();
    if p in cfg.sharedNet {
      if step.EditPools? {
        EditedIsWritten(cfg, rows, c, step.want, step.budget, f, a => style(p, a));
      } else {
        OtherStepsKeepAddresses(cfg, rows, c, step);
      }
    }
  }

  ghost predicate AllWritten(cfg: Config, style: Style, rows: seq<Cluster>) {
    forall c | c in rows :: Written(cfg, style, c)
  }

  lemma StepStaysWritten(cfg: Config, style: Style, rows: seq<Cluster>, step: Step)
    requires GoodConfig(cfg) && Suits(cfg, style) && RequestSuits(cfg, style, step)
    requires Inv(cfg, rows) && AllWritten(cfg, style, rows)
    ensures AllWritten(cfg, style, After(cfg, rows, step))
  {
    if Outcome(cfg, rows, step).Ok? {
      if step.Create? {
        CreatedIsWritten(cfg, style, rows, step.req, Created(cfg, rows, step.req).value);
      } else {
        var i := FindRowById(rows, step.id).value;
        assert rows[i] in rows && RowInv(cfg, rows[i]);
        NewVersionIsWritten(cfg, style, rows, rows[i], step, NewVersion(cfg, rows, rows[i], step).value);
      }
    }
  }

  lemma {:induction false} RunsStayWritten(cfg: Config, style: Style, steps: seq<Step>)
    requires GoodConfig(cfg) && Suits(cfg, style)
    requires forall i | 0 <= i < |steps| :: RequestSuits(cfg, style, steps[i])
    ensures AllWritten(cfg, style, Run(cfg, steps))
  {
    if steps != [] {
      var front := steps[..|steps| - 1];
      RunsStayWritten(cfg, style, front);
      RunsKeepInv(cfg, front);
      StepStaysWritten(cfg, style, Run(cfg, front), steps[|steps| - 1]);
    }
  }

  // ---------------------------------------------------------------- dotted form only

  /** A create request whose addresses, if it names any, are in dotted form, blanks around them
      aside. */
  predicate PlainRequest(step: Step) {
    step.Create? ==>
      && (Trim(step.req.apiVIP) == "" || Canonical(Trim(step.req.apiVIP)))
      && (Trim(step.req.loadBalancerIP) == "" || Canonical(Trim(step.req.loadBalancerIP)))
  }

  function Plain(): Style {
    (p: string, a: string) => Canonical(a)
  }

  /** Two endpoints of clusters on one shared network answer on one IP address. */
  predicate SameIP(cfg: Config, rows: seq<Cluster>, i: int, e: Endpoint, j: int, f: Endpoint) {
    && 0 <= i < |rows| && 0 <= j < |rows|
    && OnSharedNetwork(cfg, rows[i]) && OnSharedNetwork(cfg, rows[j]) && rows[i].InfraProvider() == rows[j].InfraProvider()
    && AddressOf(rows[i], e).Some? && AddressOf(rows[j], f).Some?
    && ParseIP(AddressOf(rows[i], e).value) == ParseIP(AddressOf(rows[j], f).value)
  }

  /** Where the style has one text per address, different endpoints have different addresses. */
  lemma OneTextOneEndpoint(cfg: Config, style: Style, steps: seq<Step>, i: int, e: Endpoint, j: int, f: Endpoint)
    requires GoodConfig(cfg) && AllWritten(cfg, style, Run(cfg, steps)) && SameIP(cfg, Run(cfg, steps), i, e, j, f)
    requires forall a, b | style(Run(cfg, steps)[i].InfraProvider(), a) && style(Run(cfg, steps)[i].InfraProvider(), b)
      && ParseIP(a) == ParseIP(b) :: a == b
    ensures i == j && e == f
  {
    var rows := Run(cfg, steps);
    RunsKeepInv(cfg, steps);
    assert rows[i] in rows && rows[j] in rows;
    AddressIsHeld(rows[i], e);
    AddressIsHeld(rows[j], f);
    assert Written(cfg, style, rows[i]) && Written(cfg, style, rows[j]);
    NoAddressTwice(cfg, steps, i, e, j, f);
  }

  /** As long as create requests write addresses in dotted form, no IP address of a shared network
      ever belongs to two things, however it is spelled. */
  lemma NoIPTwice(cfg: Config, steps: seq<Step>, i: nat, e: Endpoint, j: nat, f: Endpoint)
    requires GoodConfig(cfg) && SameIP(cfg, Run(cfg, steps), i, e, j, f)
    requires forall k | 0 <= k < |steps| :: PlainRequest(steps[k])
    ensures i == j && e == f
  {
    RunsStayWritten(cfg, Plain(), steps);
    OneTextOneEndpoint(cfg, Plain(), steps, i, e, j, f);
  }

  // ---------------------------------------------------------------- two spellings, one address

  /** An address the network hands out, neither spelling of which is the gateway's. */
  predicate TwoWays(s: NetSettings, v: nat) {
    v < ADDRESS_SPACE && s.Usable(v) && Dotted(v) != s.gateway && MAPPED_PREFIX + Dotted(v) != s.gateway
  }

  lemma NoSpaceAtEnds(s: string)
    requires s != "" && !IsSpace(s[0]) && !IsSpace(s[|s| - 1])
    ensures Trim(s) == s
  {
  }

  lemma DottedEnds(v: nat)
    requires v < ADDRESS_SPACE
    ensures var s := Dotted(v);
            s != "" && IsDigit(s[0]) && IsDigit(s[|s| - 1])
  {
    var p := OctetTexts(v);
    assert p[1..][1..][1..] == [p[3]];
    assert Join(p[1..][1..], '.') == p[2] + ['.'] + p[3];
    assert Join(p[1..], '.') == p[1] + ['.'] + Join(p[1..][1..], '.');
    assert Dotted(v) == p[0] + ['.'] + Join(p[1..], '.');
  }

  lemma BothSpellingsAreTrimmed(v: nat)
    requires v < ADDRESS_SPACE
    ensures Trim(Dotted(v)) == Dotted(v) && Trim(MAPPED_PREFIX + Dotted(v)) == MAPPED_PREFIX + Dotted(v)
  {
    DottedEnds(v);
    NoSpaceAtEnds(Dotted(v));
    NoSpaceAtEnds(MAPPED_PREFIX + Dotted(v));
  }

  /** Two tenants ask for the address in its two spellings, the second while the first one's cluster is
      on its way out. */
  function TwoCreates(cfg: Config, p: string, v: nat): seq<Step>
    requires v < ADDRESS_SPACE
  {
    OrderAndLeave(cfg, p, SmallOrder("1", "x", Dotted(v)))
    + [Create(Affordably(cfg, p, SmallOrder("2", "y", MAPPED_PREFIX + Dotted(v))))]
  }

  lemma FirstIsWelcome(cfg: Config, p: string, v: nat)
    requires cfg.price == ClusterUsage && Open(cfg, p) && p in cfg.sharedNet && cfg.sharedNet[p].mode == "dhcp"
    requires TwoWays(cfg.sharedNet[p], v)
    ensures Welcome(cfg, [], p, SmallOrder("1", "x", Dotted(v)))
  {
    DottedIsCanonical(v);
    BothSpellingsAreTrimmed(v);
    DottedEnds(v);
    assert OnProvider([], p) == [];
    SmallOrderIsWelcome(cfg, [], p, "1", "x", Dotted(v));
  }

  lemma OnlyOneSpellingUsed(c: Cluster, p: string, v: nat)
    requires v < ADDRESS_SPACE && c.loadBalancerIP == Dotted(v) && c.staticIPs == map[] && c.apiVIP == ""
    ensures MAPPED_PREFIX + Dotted(v) !in UsedBy(OnProvider([c], p))
  {
    DottedEnds(v);
    assert [c][..0] == [];
    assert OnProvider([c], p) == OnProvider([], p) + (if c.InfraProvider() == p then [c] else []);
    assert Addresses(c) == {Dotted(v)};
    assert |MAPPED_PREFIX + Dotted(v)| == |Dotted(v)| + 7;
  }

  lemma SecondIsWelcome(cfg: Config, p: string, v: nat)
    requires cfg.price == ClusterUsage && Open(cfg, p) && p in cfg.sharedNet && cfg.sharedNet[p].mode == "dhcp"
    requires TwoWays(cfg.sharedNet[p], v)
    ensures Welcome(cfg, [Leaving(Placed(cfg, p, SmallOrder("1", "x", Dotted(v))))], p, SmallOrder("2", "y", MAPPED_PREFIX + Dotted(v)))
  {
    var c := Leaving(Placed(cfg, p, SmallOrder("1", "x", Dotted(v))));
    MappedSpelling(v);
    BothSpellingsAreTrimmed(v);
    OnlyOneSpellingUsed(c, p, v);
    assert [c][..0] == [] && OwnedBy([c], "y") == [];
    SmallOrderIsWelcome(cfg, [c], p, "2", "y", MAPPED_PREFIX + Dotted(v));
  }

  lemma BothAreStored(cfg: Config, p: string, v: nat)
    requires cfg.price == ClusterUsage && Open(cfg, p) && p in cfg.sharedNet && cfg.sharedNet[p].mode == "dhcp"
    requires TwoWays(cfg.sharedNet[p], v)
    ensures Run(cfg, TwoCreates(cfg, p, v))
         == [Leaving(Placed(cfg, p, SmallOrder("1", "x", Dotted(v))))] + [Placed(cfg, p, SmallOrder("2", "y", MAPPED_PREFIX + Dotted(v)))]
  {
    var x, y := SmallOrder("1", "x", Dotted(v)), SmallOrder("2", "y", MAPPED_PREFIX + Dotted(v));
    FirstIsWelcome(cfg, p, v);
    OrderAndLeaveRun(cfg, [], p, x);
    assert [] + OrderAndLeave(cfg, p, x) == OrderAndLeave(cfg, p, x);
    var rows := [Leaving(Placed(cfg, p, x))];
    assert [] + rows == rows;
    SecondIsWelcome(cfg, p, v);
    AfterOrder(cfg, rows, p, y);
    RunOneMore(cfg, OrderAndLeave(cfg, p, x), Create(Affordably(cfg, p, y)));
  }

  lemma PlacedIsShared(cfg: Config, p: string, o: Order, c: Cluster)
    requires Offers(cfg, p) && p in cfg.sharedNet && c in {Placed(cfg, p, o), Leaving(Placed(cfg, p, o))}
    ensures OnSharedNetwork(cfg, c) && c.InfraProvider() == p && c.loadBalancerIP == o.lb
  {
    OrderedIsBlank(cfg, p, o, Least());
  }

  lemma TwoRowsShareIt(cfg: Config, rows: seq<Cluster>, c: Cluster, d: Cluster, v: nat)
    requires rows == [c] + [d] && OnSharedNetwork(cfg, c) && OnSharedNetwork(cfg, d)
    requires c.InfraProvider() == d.InfraProvider() && c.loadBalancerIP != "" && d.loadBalancerIP != ""
    requires ParseIP(c.loadBalancerIP) == Some(v) && ParseIP(d.loadBalancerIP) == Some(v)
    ensures SameIP(cfg, rows, 0, LoadBalancer, 1, LoadBalancer)
  {
  }

  /** Without that promise of dotted form the guarantee fails: one tenant writes the load balancer's
      address plainly, another behind the IPv6 mapping prefix. Both are admitted, and both hold it. */
  lemma TwoSpellingsOneAddress(cfg: Config, p: string, v: nat)
    requires cfg.price == ClusterUsage && Open(cfg, p) && p in cfg.sharedNet && cfg.sharedNet[p].mode == "dhcp"
    requires TwoWays(cfg.sharedNet[p], v)
    ensures SameIP(cfg, Run(cfg, TwoCreates(cfg, p, v)), 0, LoadBalancer, 1, LoadBalancer)
  {
    var x, y := SmallOrder("1", "x", Dotted(v)), SmallOrder("2", "y", MAPPED_PREFIX + Dotted(v));
    BothAreStored(cfg, p, v);
    DottedIsCanonical(v);
    MappedSpelling(v);
    DottedEnds(v);
    PlacedIsShared(cfg, p, x, Leaving(Placed(cfg, p, x)));
    PlacedIsShared(cfg, p, y, Placed(cfg, p, y));
    TwoRowsShareIt(cfg, Run(cfg, TwoCreates(cfg, p, v)), Leaving(Placed(cfg, p, x)), Placed(cfg, p, y), v);
  }

  // ---------------------------------------------------------------- the exact condition

  /** In no run do two endpoints share an IP address. */
  ghost predicate NoIPEverTwice(cfg: Config) {
    forall steps, i, e, j, f | SameIP(cfg, Run(cfg, steps), i, e, j, f) :: i == j && e == f
  }

  /** On every DHCP network that can be used at all, each address has one spelling that is accepted. */
  ghost predicate OneWayOnly(cfg: Config) {
    forall p, v | p in cfg.sharedNet && cfg.sharedNet[p].mode == "dhcp" && Open(cfg, p) :: !TwoWays(cfg.sharedNet[p], v)
  }

  /** The spellings a network accepts, or writes itself. */
  function Accepted(cfg: Config): Style {
    (p: string, a: string) =>
      p in cfg.sharedNet &&
      if cfg.sharedNet[p].mode == "dhcp" then CheckHostIP(cfg.sharedNet[p], a, {}).None? else Canonical(a)
  }

  /** There are only two spellings of an address. */
  lemma SpellingsOf(a: string)
    requires ParseIP(a).Some?
    ensures a == Dotted(ParseIP(a).value) || a == MAPPED_PREFIX + Dotted(ParseIP(a).value)
  {
    if MAPPED_PREFIX <= a {
      DottedOfParseDotted(a[|MAPPED_PREFIX|..]);
      assert a == MAPPED_PREFIX + a[|MAPPED_PREFIX|..];
    } else {
      DottedOfParseDotted(a);
    }
  }

  lemma AcceptedOneWay(s: NetSettings, a: string, b: string)
    requires forall v: nat :: !TwoWays(s, v)
    requires CheckHostIP(s, a, {}).None? && CheckHostIP(s, b, {}).None? && ParseIP(a) == ParseIP(b)
    ensures a == b
  {
    SpellingsOf(a);
    SpellingsOf(b);
    assert !TwoWays(s, ParseIP(a).value);
  }

  lemma AcceptedIsOneToOne(cfg: Config, p: string)
    requires p in cfg.sharedNet && (cfg.sharedNet[p].mode == "dhcp" ==> forall v: nat :: !TwoWays(cfg.sharedNet[p], v))
    ensures forall a, b | Accepted(cfg)(p, a) && Accepted(cfg)(p, b) && ParseIP(a) == ParseIP(b) :: a == b
  {
    forall a, b | Accepted(cfg)(p, a) && Accepted(cfg)(p, b) && ParseIP(a) == ParseIP(b)
      ensures a == b
    {
      if cfg.sharedNet[p].mode == "dhcp" {
        AcceptedOneWay(cfg.sharedNet[p], a, b);
      } else {
        assert Canonical(a) && Canonical(b);
      }
    }
  }

  lemma OneWayKeepsApart(cfg: Config, steps: seq<Step>, i: int, e: Endpoint, j: int, f: Endpoint)
    requires GoodConfig(cfg) && cfg.price == ClusterUsage && OneWayOnly(cfg) && SameIP(cfg, Run(cfg, steps), i, e, j, f)
    ensures i == j && e == f
  {
    var rows := Run(cfg, steps);
    var p := rows[i].InfraProvider();
    assert rows[i] in rows;
    if !Open(cfg, p) {
      NeverUsed(cfg, steps, p);
    }
    AcceptedIsOneToOne(cfg, p);
    RunsStayWritten(cfg, Accepted(cfg), steps);
    OneTextOneEndpoint(cfg, Accepted(cfg), steps, i, e, j, f);
  }

  /** For every configuration: no IP address of a shared network ever belongs to two things, whatever
      is asked for, if and only if no DHCP network in use has an address with two accepted spellings. */
  lemma NoIPTwiceExactlyWhen(cfg: Config)
    requires GoodConfig(cfg) && cfg.price == ClusterUsage
    ensures NoIPEverTwice(cfg) <==> OneWayOnly(cfg)
  {
    if OneWayOnly(cfg) {
      forall steps, i, e, j, f | SameIP(cfg, Run(cfg, steps), i, e, j, f)
        ensures i == j && e == f
      {
        OneWayKeepsApart(cfg, steps, i, e, j, f);
      }
    } else {
      var p, v :| p in cfg.sharedNet && cfg.sharedNet[p].mode == "dhcp" && Open(cfg, p) && TwoWays(cfg.sharedNet[p], v);
      TwoSpellingsOneAddress(cfg, p, v);
    }
  }
}
