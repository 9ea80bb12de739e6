/** Requests simple enough to be admitted for certain, from which runs with a given outcome are
    built; and the least that any admitted cluster costs. */
module Orders {
  import opened Wrappers
  import opened Text
  import opened Nodes
  import Disks
  import DiskRows
  import opened Netpool
  import opened Addressing
  import opened Quota
  import opened Admission
  import opened AdmissionRuns
  import opened TenantGuarantees

  // ---------------------------------------------------------------- the request

  /** A small cluster with one control plane and these extra pools. */
  datatype Order = Order(id: string, owner: string, name: string, pools: seq<NodePool>, lb: string)

  /** Some request is resolved to this backend. */
  predicate Offers(cfg: Config, p: string) {
    (p != "" && p in cfg.providers) || (p == "kvm" && cfg.providers != [] && cfg.providers[0] == "")
  }

  /** What such a request calls it. */
  function Called(cfg: Config, p: string): string {
    if p in cfg.providers then p else ""
  }

  function Sent(cfg: Config, p: string, o: Order, budget: Amount): CreateRequest {
    CreateRequest(o.id, o.owner, o.name, "small", o.pools, false, Called(cfg, p), "", o.lb, "", None, false, budget,
                  Some(DerivedNet("", o.lb)))
  }

  /** The cluster it describes. */
  function Ordered(cfg: Config, p: string, o: Order): Cluster {
    Cluster(o.id, o.name, o.owner, "small", EnsureDefaultPool(o.pools, "small"), 1, Called(cfg, p), Pending, 1, 0, [],
            "", map[], "", "", false)
  }

  /** And the row that is stored. */
  function Placed(cfg: Config, p: string, o: Order): Cluster {
    Ordered(cfg, p, o).(ipMode := if p in cfg.sharedNet then "dhcp" else "", loadBalancerIP := o.lb)
  }

  /** The request with a budget that is just enough. */
  function Affordably(cfg: Config, p: string, o: Order): CreateRequest {
    Sent(cfg, p, o, cfg.price(Ordered(cfg, p, o)))
  }

  // ---------------------------------------------------------------- it is admitted

  lemma OrderedIsBlank(cfg: Config, p: string, o: Order, budget: Amount)
    requires Offers(cfg, p)
    ensures var req := Sent(cfg, p, o, budget);
            && ResolveProvider(cfg, req.provider) == Some(Called(cfg, p)) && StorageSize(req) == Ok(0)
            && EffectiveSize(req) == "small" && Blank(req, Called(cfg, p), 0) == Ordered(cfg, p, o)
    ensures Ordered(cfg, p, o).InfraProvider() == p && !Ordered(cfg, p, o).HA()
    ensures Ordered(cfg, p, o).(nodeDisks := DiskRows.Synced(Ordered(cfg, p, o))) == Ordered(cfg, p, o)
  {
    assert DiskRows.DesiredStorageDisks(Ordered(cfg, p, o)) == [];
    assert DiskRows.Synced(Ordered(cfg, p, o)) == [] + [];
  }

  /** The backend gives it an address: derived, or named and free. */
  predicate Reachable(cfg: Config, rows: seq<Cluster>, p: string, lb: string) {
    p in cfg.sharedNet ==>
      && cfg.sharedNet[p].mode == "dhcp" && lb != "" && Trim(lb) == lb
      && CheckHostIP(cfg.sharedNet[p], lb, UsedBy(OnProvider(rows, p))).None?
  }

  lemma OrderIsPlaced(cfg: Config, rows: seq<Cluster>, p: string, o: Order, budget: Amount)
    requires Offers(cfg, p) && Reachable(cfg, rows, p, o.lb)
    ensures WithNetwork(cfg, rows, Sent(cfg, p, o, budget), Ordered(cfg, p, o)) == Ok(Placed(cfg, p, o))
  {
    OrderedIsBlank(cfg, p, o, budget);
    assert Trim("") == "";
  }

  lemma JustEnough(cfg: Config, all: seq<Cluster>, c: Cluster)
    requires BackendError(cfg.price, cfg.ceilings, all, c).None?
    ensures BudgetError(cfg, [], all, c, cfg.price(c)).None?
  {
    assert forall d: Dimension :: Usage(cfg.price, [], d) == 0;
  }

  lemma NothingOwned(rows: seq<Cluster>, owner: string, name: string)
    requires OwnedBy(rows, owner) == []
    ensures !OwnsName(rows, owner, name)
  {
    OwnedByMembers(rows, owner);
    assert forall c :: c !in OwnedBy(rows, owner);
  }

  /** Nobody is in the way of it: a new tenant, a new id, a backend that can carry and reach it. */
  predicate Welcome(cfg: Config, rows: seq<Cluster>, p: string, o: Order) {
    && Offers(cfg, p) && Reachable(cfg, rows, p, o.lb)
    && o.name != "" && CheckPools(o.name, EnsureDefaultPool(o.pools, "small"), {}).None?
    && OwnedBy(rows, o.owner) == [] && !HasId(rows, o.id)
    && BackendError(cfg.price, cfg.ceilings, OnProvider(rows, p), Ordered(cfg, p, o)).None?
  }

  lemma WelcomeIsAdmitted(cfg: Config, rows: seq<Cluster>, p: string, o: Order)
    requires Welcome(cfg, rows, p, o)
    ensures Admitted(cfg, rows, Affordably(cfg, p, o), Ordered(cfg, p, o)) == Ok(Placed(cfg, p, o))
  {
    var c := Ordered(cfg, p, o);
    OrderedIsBlank(cfg, p, o, cfg.price(c));
    assert OnProvider([], p) == [];
    JustEnough(cfg, OnProvider(rows, p), c);
    OrderIsPlaced(cfg, rows, p, o, cfg.price(c));
  }

  lemma OrderIsCreated(cfg: Config, rows: seq<Cluster>, p: string, o: Order)
    requires Welcome(cfg, rows, p, o)
    ensures Created(cfg, rows, Affordably(cfg, p, o)) == Ok(Placed(cfg, p, o))
  {
    OrderedIsBlank(cfg, p, o, cfg.price(Ordered(cfg, p, o)));
    NothingOwned(rows, o.owner, o.name);
    WelcomeIsAdmitted(cfg, rows, p, o);
  }

  // ---------------------------------------------------------------- and deleted again

  /** The row once its deletion is under way. */
  function Leaving(c: Cluster): Cluster {
    c.(phase := Deleting, generation := c.generation + 1)
  }

  lemma {:induction false} FoundLast(rows: seq<Cluster>, c: Cluster)
    requires !HasId(rows, c.id)
    ensures FindRowById(rows + [c], c.id) == Some(|rows|)
  {
    if rows != [] {
      assert (rows + [c])[1..] == rows[1..] + [c];
      assert rows[0] in rows;
      assert !HasId(rows[1..], c.id) by {
        assert forall d | d in rows[1..] :: d in rows;
      }
      FoundLast(rows[1..], c);
    } else {
      assert ([] + [c])[0] == c;
    }
  }

  /** A create and a delete. */
  function OrderAndLeave(cfg: Config, p: string, o: Order): seq<Step> {
    [Create(Affordably(cfg, p, o)), Delete(o.id)]
  }

  lemma AfterOrder(cfg: Config, rows: seq<Cluster>, p: string, o: Order)
    requires Welcome(cfg, rows, p, o)
    ensures After(cfg, rows, Create(Affordably(cfg, p, o))) == rows + [Placed(cfg, p, o)]
  {
    OrderIsCreated(cfg, rows, p, o);
  }

  lemma AfterLeaving(cfg: Config, rows: seq<Cluster>, c: Cluster)
    requires !HasId(rows, c.id) && c.phase == Pending
    ensures After(cfg, rows + [c], Delete(c.id)) == rows + [Leaving(c)]
  {
    FoundLast(rows, c);
    assert (rows + [c])[|rows| := Leaving(c)] == rows + [Leaving(c)];
  }

  lemma RunOneMore(cfg: Config, steps: seq<Step>, step: Step)
    ensures Run(cfg, steps + [step]) == After(cfg, Run(cfg, steps), step)
  {
    assert (steps + [step])[..|steps|] == steps;
  }

  lemma OrderAndLeaveRun(cfg: Config, steps: seq<Step>, p: string, o: Order)
    requires Welcome(cfg, Run(cfg, steps), p, o)
    ensures Run(cfg, steps + OrderAndLeave(cfg, p, o)) == Run(cfg, steps) + [Leaving(Placed(cfg, p, o))]
  {
    var a, b := Create(Affordably(cfg, p, o)), Delete(o.id);
    RunOneMore(cfg, steps, a);
    RunOneMore(cfg, steps + [a], b);
    assert steps + [a] + [b] == steps + OrderAndLeave(cfg, p, o);
    AfterOrder(cfg, Run(cfg, steps), p, o);
    AfterLeaving(cfg, Run(cfg, steps), Placed(cfg, p, o));
  }

  // ---------------------------------------------------------------- the least a cluster costs

  /** One small control plane. */
  function Least(): Amount {
    Amount(2, 8192, 50)
  }

  lemma {:induction false} FirstNodeCosts(nodes: seq<DesiredNode>, d: Dimension)
    requires nodes != []
    ensures NodesCost(nodes, d) >= SpecPart(nodes[0].spec, d)
    ensures |nodes| == 1 ==> NodesCost(nodes, d) == SpecPart(nodes[0].spec, d)
  {
    if |nodes| > 1 {
      FirstNodeCosts(nodes[..|nodes| - 1], d);
    } else {
      assert nodes[..0] == [];
    }
  }

  lemma AtLeastOneNode(c: Cluster, d: Dimension)
    requires KnownSize(c.size) && c.controlPlanes >= 1
    ensures NodesCost(DesiredNodes(c), d) >= Least().Of(d)
  {
    var nodes := DesiredNodes(c);
    assert nodes[0] == ControlPlaneNode(c.name, c.size, 0);
    FirstNodeCosts(nodes, d);
  }

  /** A small cluster without workers costs just that. */
  lemma SmallCosts(c: Cluster)
    requires c.size == "small" && c.controlPlanes == 1 && c.nodeDisks == [] && AllWorkers(c.name, c.nodePools) == []
    ensures ClusterUsage(c) == Least()
  {
    var nodes := DesiredNodes(c);
    assert nodes == [ControlPlaneNode(c.name, c.size, 0)];
    FirstNodeCosts(nodes, VCPU);
    FirstNodeCosts(nodes, Memory);
    FirstNodeCosts(nodes, Disk);
  }

  /** Nothing that can be stored costs less. */
  lemma RowCosts(cfg: Config, c: Cluster, d: Dimension)
    requires RowInv(cfg, c) && KnownSize(c.size)
    ensures ClusterUsage(c).Of(d) >= Least().Of(d)
  {
    AtLeastOneNode(c, d);
    DisksCostPositive(Disks.WorkerNames(c), c.nodeDisks);
  }

  // ---------------------------------------------------------------- backends that never carry anything

  /** The backend has a name to be asked for and room for the smallest cluster. */
  ghost predicate Open(cfg: Config, p: string) {
    Offers(cfg, p) && (p in cfg.ceilings ==> forall d: Dimension :: Least().Of(d) <= cfg.ceilings[p].Of(d))
  }

  lemma CreatedOn(cfg: Config, rows: seq<Cluster>, req: CreateRequest, e: Cluster)
    requires Created(cfg, rows, req) == Ok(e)
    ensures Offers(cfg, e.InfraProvider()) && KnownSize(e.size)
  {
    var at := ResolveProvider(cfg, req.provider).value;
    var blank := Blank(req, at, StorageSize(req).value);
    NetworkKeepsPrice(cfg, rows, req, blank.(nodeDisks := DiskRows.Synced(blank)), e);
    assert e.provider == at && e.size == EffectiveSize(req);
  }

  /** A cluster is only created on a backend that is open. */
  lemma CreatedIsOpen(cfg: Config, rows: seq<Cluster>, req: CreateRequest, e: Cluster)
    requires GoodConfig(cfg) && cfg.price == ClusterUsage && Created(cfg, rows, req) == Ok(e)
    requires OnProvider(rows, e.InfraProvider()) == []
    ensures Open(cfg, e.InfraProvider())
  {
    var p := e.InfraProvider();
    CreatedOn(cfg, rows, req, e);
    CreatedIsSound(cfg, rows, req, e);
    if p in cfg.ceilings {
      forall d: Dimension
        ensures Least().Of(d) <= cfg.ceilings[p].Of(d)
      {
        RowCosts(cfg, e, d);
        FitsEveryWay(cfg.price, cfg.ceilings[p], [], e, d);
      }
    }
  }

  lemma {:induction false} NoneOnProvider(rows: seq<Cluster>, p: string)
    requires forall c | c in rows :: c.InfraProvider() != p
    ensures OnProvider(rows, p) == []
  {
    if rows != [] {
      assert rows == rows[..|rows| - 1] + [rows[|rows| - 1]];
      NoneOnProvider(rows[..|rows| - 1], p);
    }
  }

  lemma StepStaysOff(cfg: Config, rows: seq<Cluster>, step: Step, p: string)
    requires GoodConfig(cfg) && cfg.price == ClusterUsage && !Open(cfg, p)
    requires forall c | c in rows :: c.InfraProvider() != p
    ensures forall c | c in After(cfg, rows, step) :: c.InfraProvider() != p
  {
    if Outcome(cfg, rows, step).Ok? {
      if step.Create? {
        NoneOnProvider(rows, p);
        var e := Created(cfg, rows, step.req).value;
        if e.InfraProvider() == p {
          CreatedIsOpen(cfg, rows, step.req, e);
        }
      } else {
        var i := FindRowById(rows, step.id).value;
        VersionsKeepBackend(cfg, rows, rows[i], step, NewVersion(cfg, rows, rows[i], step).value);
        assert rows[i] in rows;
      }
    }
  }

  lemma VersionsKeepBackend(cfg: Config, rows: seq<Cluster>, c: Cluster, step: Step, f: Cluster)
    requires !step.Create? && NewVersion(cfg, rows, c, step) == Ok(f)
    ensures f.provider == c.provider
  {
    if step.EditPools? && !SameTopology(c.nodePools, step.want) {
      EditGoesThrough(cfg, rows, c, step.want, step.budget, f);
      RescaleChecked(cfg, rows, c.(nodePools := step.want, nodeDisks := DiskRows.EditedDisks(c, step.want)), step.budget, f);
    }
  }

  /** A backend that is not open never carries a cluster, in any run. */
  lemma {:induction false} NeverUsed(cfg: Config, steps: seq<Step>, p: string)
    requires GoodConfig(cfg) && cfg.price == ClusterUsage && !Open(cfg, p)
    ensures forall c | c in Run(cfg, steps) :: c.InfraProvider() != p
  {
    if steps != [] {
      NeverUsed(cfg, steps[..|steps| - 1], p);
      StepStaysOff(cfg, Run(cfg, steps[..|steps| - 1]), steps[|steps| - 1], p);
    }
  }

  // ---------------------------------------------------------------- clusters on their way out

  /** The smallest order there is. */
  function SmallOrder(id: string, owner: string, lb: string): Order {
    Order(id, owner, "a", [], lb)
  }

  lemma DefaultPoolIsFine(name: string)
    requires |name| + |DEFAULT_POOL| + |"--999"| <= MAX_HOSTNAME_LEN
    ensures EnsureDefaultPool([], "small") == [NodePool(DEFAULT_POOL, "small", 0, 0)]
    ensures CheckPools(name, EnsureDefaultPool([], "small"), {}).None?
  {
    var p := NodePool(DEFAULT_POOL, "small", 0, 0);
    assert [p] + [] == [p];
    assert |DEFAULT_POOL| == 7 && IsLabel(DEFAULT_POOL);
    assert [p][1..] == [];
    assert CheckPoolName(name, DEFAULT_POOL).None?;
    assert CheckPools(name, [], {} + {DEFAULT_POOL}).None?;
  }

  lemma SmallOrderCosts(cfg: Config, p: string, id: string, owner: string, lb: string)
    ensures ClusterUsage(Ordered(cfg, p, SmallOrder(id, owner, lb))) == Least()
    ensures ClusterUsage(Leaving(Placed(cfg, p, SmallOrder(id, owner, lb)))) == Least()
  {
    DefaultPoolIsFine("a");
    var pool := NodePool(DEFAULT_POOL, "small", 0, 0);
    assert [pool][1..] == [];
    assert PoolNodes("a", pool) == [];
    assert AllWorkers("a", [pool]) == [] + AllWorkers("a", []);
    SmallCosts(Ordered(cfg, p, SmallOrder(id, owner, lb)));
    SmallCosts(Leaving(Placed(cfg, p, SmallOrder(id, owner, lb))));
  }

  lemma {:induction false} UncountedCostNothing(price: Price, rows: seq<Cluster>, d: Dimension)
    requires forall c | c in rows :: !Counted(c)
    ensures Usage(price, rows, d) == 0
  {
    if rows != [] {
      assert rows == rows[..|rows| - 1] + [rows[|rows| - 1]];
      UncountedCostNothing(price, rows[..|rows| - 1], d);
    }
  }

  /** When every cluster of an open backend is on its way out, there is room for a new one. */
  lemma SmallOrderIsWelcome(cfg: Config, rows: seq<Cluster>, p: string, id: string, owner: string, lb: string)
    requires cfg.price == ClusterUsage && Open(cfg, p) && Reachable(cfg, rows, p, lb)
    requires OwnedBy(rows, owner) == [] && !HasId(rows, id) && forall c | c in rows :: !Counted(c)
    ensures Welcome(cfg, rows, p, SmallOrder(id, owner, lb))
  {
    DefaultPoolIsFine("a");
    SmallOrderCosts(cfg, p, id, owner, lb);
    OnProviderMembers(rows, p);
    var on := OnProvider(rows, p);
    UncountedCostNothing(cfg.price, on, VCPU);
    UncountedCostNothing(cfg.price, on, Memory);
    UncountedCostNothing(cfg.price, on, Disk);
    OrderedIsBlank(cfg, p, SmallOrder(id, owner, lb), Least());
  }
}
