/** What admission promises each tenant: a name of their own, a budget that is kept, and pools whose
    shape does not change under them. */
module TenantGuarantees {
  import opened Wrappers
  import opened Nodes
  import DiskRows
  import Netpool
  import opened Addressing
  import opened Quota
  import opened Admission
  import opened AdmissionRuns

  // ---------------------------------------------------------------- names

  predicate Clash(c: Cluster, d: Cluster) {
    !c.deleted && !d.deleted && c.owner == d.owner && c.name == d.name
  }

  predicate NamesUnique(rows: seq<Cluster>) {
    forall i, j | 0 <= i < j < |rows| :: !Clash(rows[i], rows[j])
  }

  lemma EditKeepsIdentity(cfg: Config, rows: seq<Cluster>, c: Cluster, want: seq<NodePool>, budget: Amount, f: Cluster)
    requires Edited(cfg, rows, c, want, budget) == Ok(f)
    ensures f.owner == c.owner && f.name == c.name && f.deleted == c.deleted
  {
    if !SameTopology(c.nodePools, want) {
      EditGoesThrough(cfg, rows, c, want, budget, f);
      RescaleChecked(cfg, rows, c.(nodePools := want, nodeDisks := DiskRows.EditedDisks(c, want)), budget, f);
    }
  }

  lemma VersionsKeepIdentity(cfg: Config, rows: seq<Cluster>, c: Cluster, step: Step, f: Cluster)
    requires !step.Create? && NewVersion(cfg, rows, c, step) == Ok(f)
    ensures f.owner == c.owner && f.name == c.name && (c.deleted ==> f.deleted)
  {
    if step.EditPools? {
      EditKeepsIdentity(cfg, rows, c, step.want, step.budget, f);
    }
  }

  lemma ClaimKeepsPrice(c: Cluster, s: Netpool.NetSettings, vip: string, lb: string, others: seq<Cluster>, e: Cluster)
    requires ClaimAddresses(c, s, vip, lb, others) == Ok(e)
    ensures SameButAddresses(c, e)
  {
  }

  lemma NetworkKeepsPrice(cfg: Config, rows: seq<Cluster>, req: CreateRequest, c: Cluster, e: Cluster)
    requires WithNetwork(cfg, rows, req, c) == Ok(e)
    ensures SameButAddresses(c, e)
  {
    var p := c.InfraProvider();
    if p in cfg.sharedNet {
      ClaimKeepsPrice(c, cfg.sharedNet[p], req.apiVIP, req.loadBalancerIP, OnProvider(rows, p), e);
    }
  }

  lemma AdmittedIdentity(cfg: Config, rows: seq<Cluster>, req: CreateRequest, blank: Cluster, e: Cluster)
    requires Admitted(cfg, rows, req, blank) == Ok(e)
    ensures e.owner == blank.owner && e.name == blank.name
  {
    NetworkKeepsPrice(cfg, rows, req, blank.(nodeDisks := DiskRows.Synced(blank)), e);
  }

  lemma CreatedNameIsFree(cfg: Config, rows: seq<Cluster>, req: CreateRequest, e: Cluster, c: Cluster)
    requires Created(cfg, rows, req) == Ok(e) && c in rows
    ensures !Clash(c, e)
  {
    AdmittedIdentity(cfg, rows, req, Blank(req, ResolveProvider(cfg, req.provider).value, StorageSize(req).value), e);
    assert !OwnsName(rows, req.owner, req.name);
  }

  lemma StepKeepsNames(cfg: Config, rows: seq<Cluster>, step: Step)
    requires NamesUnique(rows)
    ensures NamesUnique(After(cfg, rows, step))
  {
    if Outcome(cfg, rows, step).Ok? {
      if step.Create? {
        AppendKeepsNames(cfg, rows, step.req, Created(cfg, rows, step.req).value);
      } else {
        var i := FindRowById(rows, step.id).value;
        var f := NewVersion(cfg, rows, rows[i], step).value;
        VersionsKeepIdentity(cfg, rows, rows[i], step, f);
        ReplaceKeepsNames(rows, i, f);
      }
    }
  }

  lemma AppendKeepsNames(cfg: Config, rows: seq<Cluster>, req: CreateRequest, e: Cluster)
    requires NamesUnique(rows) && Created(cfg, rows, req) == Ok(e)
    ensures NamesUnique(rows + [e])
  {
    forall i | 0 <= i < |rows|
      ensures !Clash(rows[i], e)
    {
      CreatedNameIsFree(cfg, rows, req, e, rows[i]);
    }
  }

  lemma ReplaceKeepsNames(rows: seq<Cluster>, k: nat, f: Cluster)
    requires NamesUnique(rows) && k < |rows|
    requires f.owner == rows[k].owner && f.name == rows[k].name && (rows[k].deleted ==> f.deleted)
    ensures NamesUnique(rows[k := f])
  {
    var now := rows[k := f];
    forall i, j | 0 <= i < j < |now|
      ensures !Clash(now[i], now[j])
    {
      assert !Clash(rows[i], rows[j]);
    }
  }

  /** In every reachable state a tenant's live clusters all have different names. */
  lemma {:induction false} NamesStayUnique(cfg: Config, steps: seq<Step>)
    ensures NamesUnique(Run(cfg, steps))
  {
    if steps != [] {
      NamesStayUnique(cfg, steps[..|steps| - 1]);
      StepKeepsNames(cfg, Run(cfg, steps[..|steps| - 1]), steps[|steps| - 1]);
    }
  }

  // ---------------------------------------------------------------- budgets

  /** Beside these clusters, c stays inside the budget in every dimension. */
  ghost predicate Affordable(cfg: Config, mine: seq<Cluster>, c: Cluster, budget: Amount) {
    forall d: Dimension :: Usage(cfg.price, mine, d) + cfg.price(c).Of(d) <= budget.Of(d)
  }

  lemma CheckedIsAffordable(cfg: Config, mine: seq<Cluster>, all: seq<Cluster>, c: Cluster, budget: Amount)
    requires BudgetError(cfg, mine, all, c, budget).None?
    ensures Affordable(cfg, mine, c, budget)
  {
    forall d: Dimension
      ensures Usage(cfg.price, mine, d) + cfg.price(c).Of(d) <= budget.Of(d)
    {
      FitsEveryWay(cfg.price, budget, mine, c, d);
    }
  }

  lemma SamePriceSameBill(cfg: Config, mine: seq<Cluster>, c: Cluster, e: Cluster, budget: Amount)
    requires Fair(cfg.price) && SameNodes(c, e) && c.nodeDisks == e.nodeDisks && Affordable(cfg, mine, c, budget)
    ensures Affordable(cfg, mine, e, budget)
  {
    forall d: Dimension
      ensures Usage(cfg.price, mine, d) + cfg.price(e).Of(d) <= budget.Of(d)
    {
      assert cfg.price(e).Of(d) <= cfg.price(c).Of(d);
      assert Usage(cfg.price, mine, d) + cfg.price(c).Of(d) <= budget.Of(d);
    }
  }

  function Mine(rows: seq<Cluster>, c: Cluster): seq<Cluster> {
    Except(OnProvider(OwnedBy(rows, c.owner), c.InfraProvider()), c.id)
  }

  /** An accepted disk fits in what the owner has left beside their other clusters there. */
  lemma AddedDiskIsAffordable(cfg: Config, rows: seq<Cluster>, c: Cluster, req: DiskRequest, budget: Amount, f: Cluster)
    requires Fair(cfg.price) && DiskAdded(cfg, rows, c, req, budget) == Ok(f)
    ensures Affordable(cfg, Mine(rows, f), f, budget)
  {
    var e := c.(nodeDisks := c.nodeDisks + [NewRow(req)]);
    CheckedIsAffordable(cfg, Mine(rows, e), Others(rows, e.InfraProvider(), e.id), e, budget);
    SamePriceSameBill(cfg, Mine(rows, e), e, f, budget);
  }

  lemma RescaledIsAffordable(cfg: Config, rows: seq<Cluster>, e: Cluster, budget: Amount, f: Cluster)
    requires Fair(cfg.price) && Rescaled(cfg, rows, e, budget) == Ok(f)
    ensures Affordable(cfg, Mine(rows, f), f, budget)
  {
    CheckedIsAffordable(cfg, Mine(rows, e), Others(rows, e.InfraProvider(), e.id), e, budget);
    RescaleChecked(cfg, rows, e, budget, f);
    SamePriceSameBill(cfg, Mine(rows, e), e, f, budget);
  }

  /** So does an accepted pool edit that changes anything. */
  lemma EditIsAffordable(cfg: Config, rows: seq<Cluster>, c: Cluster, want: seq<NodePool>, budget: Amount, f: Cluster)
    requires Fair(cfg.price) && Edited(cfg, rows, c, want, budget) == Ok(f) && f != c
    ensures Affordable(cfg, Mine(rows, f), f, budget)
  {
    EditGoesThrough(cfg, rows, c, want, budget, f);
    RescaledIsAffordable(cfg, rows, c.(nodePools := want, nodeDisks := DiskRows.EditedDisks(c, want)), budget, f);
  }

  lemma AdmittedIsAffordable(cfg: Config, rows: seq<Cluster>, req: CreateRequest, blank: Cluster, e: Cluster)
    requires Fair(cfg.price) && Admitted(cfg, rows, req, blank) == Ok(e)
    ensures Affordable(cfg, OnProvider(OwnedBy(rows, e.owner), e.InfraProvider()), e, req.ownerBudget)
  {
    var c := blank.(nodeDisks := DiskRows.Synced(blank));
    var mine := OnProvider(OwnedBy(rows, c.owner), c.InfraProvider());
    CheckedIsAffordable(cfg, mine, OnProvider(rows, c.InfraProvider()), c, req.ownerBudget);
    NetworkKeepsPrice(cfg, rows, req, c, e);
    SamePriceSameBill(cfg, mine, c, e, req.ownerBudget);
  }

  /** A created cluster, storage disks included, fits in what its owner has left on that backend. */
  lemma CreateIsAffordable(cfg: Config, rows: seq<Cluster>, req: CreateRequest, e: Cluster)
    requires Fair(cfg.price) && Created(cfg, rows, req) == Ok(e)
    ensures Affordable(cfg, OnProvider(OwnedBy(rows, e.owner), e.InfraProvider()), e, req.ownerBudget)
  {
    AdmittedIsAffordable(cfg, rows, req, Blank(req, ResolveProvider(cfg, req.provider).value, StorageSize(req).value), e);
  }

  // ---------------------------------------------------------------- pools

  lemma {:induction false} ImmutableMeans(current: seq<NodePool>, want: seq<NodePool>, w: NodePool)
    requires Immutability(current, want).None? && w in want && FindPool(current, w.name).Some?
    ensures FindPool(current, w.name).value.size == w.size && FindPool(current, w.name).value.diskGB == w.diskGB
  {
    if w != want[0] {
      assert w in want[1..];
      ImmutableMeans(current, want[1..], w);
    }
  }

  lemma PoolFound(name: string, pools: seq<NodePool>, p: NodePool)
    requires ValidPools(name, pools) && p in pools
    ensures FindPool(pools, p.name) == Some(p)
  {
    var q := FindPool(pools, p.name).value;
    var i :| 0 <= i < |pools| && pools[i] == p;
    var j :| 0 <= j < |pools| && pools[j] == q;
  }

  /** A pool that is there before and after an edit keeps its size and its root disk. */
  lemma PoolShapeIsFixed(cfg: Config, rows: seq<Cluster>, c: Cluster, want: seq<NodePool>, budget: Amount, f: Cluster,
                         p: NodePool, q: NodePool)
    requires ValidPools(c.name, c.nodePools) && Edited(cfg, rows, c, want, budget) == Ok(f)
    requires p in c.nodePools && q in f.nodePools && p.name == q.name
    ensures p.size == q.size && p.diskGB == q.diskGB
  {
    PoolFound(c.name, c.nodePools, p);
    if SameTopology(c.nodePools, want) {
      PoolFound(c.name, c.nodePools, q);
    } else {
      EditGoesThrough(cfg, rows, c, want, budget, f);
      RescaleChecked(cfg, rows, c.(nodePools := want, nodeDisks := DiskRows.EditedDisks(c, want)), budget, f);
      ImmutableMeans(c.nodePools, want, q);
    }
  }
}
