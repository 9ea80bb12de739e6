/** A tenant's budget on a backend is kept in every state the platform can reach. */
module BudgetRuns {
  import opened Wrappers
  import opened Nodes
  import opened Disks
  import opened DiskRows
  import opened Quota
  import opened Admission
  import opened AdmissionRuns
  import opened TenantGuarantees

  // ---------------------------------------------------------------- one tenant's rows

  lemma OwnedSnoc(rows: seq<Cluster>, c: Cluster, owner: string)
    ensures OwnedBy(rows + [c], owner) == OwnedBy(rows, owner) + (if c.owner == owner then [c] else [])
  {
    assert (rows + [c])[..|rows|] == rows;
  }

  lemma {:induction false} OwnedDistinct(rows: seq<Cluster>, owner: string)
    requires DistinctIds(rows)
    ensures DistinctIds(OwnedBy(rows, owner))
  {
    if rows != [] {
      var front, last := rows[..|rows| - 1], rows[|rows| - 1];
      OwnedDistinct(front, owner);
      OwnedByMembers(front, owner);
      var mine := OwnedBy(front, owner);
      forall k | 0 <= k < |mine|
        ensures mine[k].id != last.id
      {
        assert mine[k] in mine;
        var j :| 0 <= j < |front| && front[j] == mine[k];
        assert rows[j] == front[j];
      }
    }
  }

  /** A new version of one of the tenant's rows replaces that row in their list. */
  lemma {:induction false} OwnedReplace(rows: seq<Cluster>, i: nat, f: Cluster, owner: string) returns (k: nat)
    requires i < |rows| && rows[i].owner == owner == f.owner
    ensures k < |OwnedBy(rows, owner)| && OwnedBy(rows, owner)[k] == rows[i]
    ensures OwnedBy(rows[i := f], owner) == OwnedBy(rows, owner)[k := f]
  {
    var front, last := rows[..|rows| - 1], rows[|rows| - 1];
    assert rows == front + [last];
    if i == |front| {
      k := |OwnedBy(front, owner)|;
      assert rows[i := f] == front + [f];
      OwnedSnoc(front, f, owner);
    } else {
      k := OwnedReplace(front, i, f, owner);
      assert rows[i := f] == front[i := f] + [last];
      OwnedSnoc(front[i := f], last, owner);
    }
  }

  lemma {:induction false} OwnedUntouched(rows: seq<Cluster>, i: nat, f: Cluster, owner: string)
    requires i < |rows| && rows[i].owner == f.owner != owner
    ensures OwnedBy(rows[i := f], owner) == OwnedBy(rows, owner)
  {
    var front, last := rows[..|rows| - 1], rows[|rows| - 1];
    assert rows == front + [last];
    if i == |front| {
      assert rows[i := f] == front + [f];
      OwnedSnoc(front, f, owner);
    } else {
      OwnedUntouched(front, i, f, owner);
      assert rows[i := f] == front[i := f] + [last];
      OwnedSnoc(front[i := f], last, owner);
    }
  }

  // ---------------------------------------------------------------- the promise

  /** The tenant's clusters on the backend stay inside the budget, in every dimension. */
  ghost predicate Within(cfg: Config, rows: seq<Cluster>, owner: string, p: string, budget: Amount) {
    WithinCeilings(cfg.price, map[p := budget], OwnedBy(rows, owner))
  }

  /** A step on the tenant's clusters on the backend carries this budget. */
  predicate Carries(cfg: Config, rows: seq<Cluster>, step: Step, owner: string, p: string, budget: Amount) {
    match step
    case Create(req) =>
      var at := ResolveProvider(cfg, req.provider);
      req.owner == owner && at.Some? && Blank(req, at.value, 0).InfraProvider() == p ==> req.ownerBudget == budget
    case EditPools(id, _, b) => forall c | c in rows && c.id == id && c.owner == owner && c.InfraProvider() == p :: b == budget
    case AddDisk(id, _, b) => forall c | c in rows && c.id == id && c.owner == owner && c.InfraProvider() == p :: b == budget
    case _ => true
  }

  lemma AffordableFits(cfg: Config, mine: seq<Cluster>, c: Cluster, p: string, budget: Amount)
    requires c.InfraProvider() == p ==> Affordable(cfg, mine, c, budget)
    ensures BackendError(cfg.price, map[p := budget], mine, c).None?
  {
    if c.InfraProvider() == p {
      assert forall d: Dimension :: FitsIn(cfg.price, budget, mine, c, d);
    }
  }

  // ---------------------------------------------------------------- every step keeps it

  lemma CreateKeepsBudget(cfg: Config, rows: seq<Cluster>, req: CreateRequest, e: Cluster, owner: string, p: string, budget: Amount)
    requires GoodConfig(cfg) && Within(cfg, rows, owner, p, budget) && Carries(cfg, rows, Create(req), owner, p, budget)
    requires Created(cfg, rows, req) == Ok(e)
    ensures Within(cfg, rows + [e], owner, p, budget)
  {
    var mine := OwnedBy(rows, owner);
    OwnedSnoc(rows, e, owner);
    if e.owner == owner {
      CreateIsAffordable(cfg, rows, req, e);
      CreatedIdentity(cfg, rows, req, e);
      AffordableFits(cfg, OnProvider(mine, e.InfraProvider()), e, p, budget);
      CreateKeepsCeilings(cfg.price, map[p := budget], mine, e);
    } else {
      assert mine + [] == mine;
    }
  }

  lemma CreatedIdentity(cfg: Config, rows: seq<Cluster>, req: CreateRequest, e: Cluster)
    requires Created(cfg, rows, req) == Ok(e)
    ensures e.owner == req.owner && ResolveProvider(cfg, req.provider).Some?
    ensures e.InfraProvider() == Blank(req, ResolveProvider(cfg, req.provider).value, 0).InfraProvider()
  {
    var blank := Blank(req, ResolveProvider(cfg, req.provider).value, StorageSize(req).value);
    NetworkKeepsPrice(cfg, rows, req, blank.(nodeDisks := Synced(blank)), e);
  }

  lemma PricedKeepsBudget(cfg: Config, rows: seq<Cluster>, i: nat, f: Cluster, owner: string, p: string, budget: Amount)
    requires DistinctIds(rows) && Within(cfg, rows, owner, p, budget) && i < |rows|
    requires f.owner == rows[i].owner && f.id == rows[i].id && f.provider == rows[i].provider && Counted(f)
    requires f.owner == owner && f.InfraProvider() == p ==> Affordable(cfg, Mine(rows, f), f, budget)
    ensures Within(cfg, rows[i := f], owner, p, budget)
  {
    if f.owner == owner {
      var k := OwnedReplace(rows, i, f, owner);
      OwnedDistinct(rows, owner);
      AffordableFits(cfg, Mine(rows, f), f, p, budget);
      ReplaceKeepsCeilings(cfg.price, map[p := budget], OwnedBy(rows, owner), k, f);
    } else {
      OwnedUntouched(rows, i, f, owner);
    }
  }

  lemma LighterKeepsBudget(cfg: Config, rows: seq<Cluster>, i: nat, f: Cluster, owner: string, p: string, budget: Amount)
    requires DistinctIds(rows) && Within(cfg, rows, owner, p, budget) && i < |rows|
    requires f.owner == rows[i].owner && f.id == rows[i].id
    requires forall q, d :: Share(cfg.price, f, q, d) <= Share(cfg.price, rows[i], q, d)
    ensures Within(cfg, rows[i := f], owner, p, budget)
  {
    if f.owner == owner {
      var k := OwnedReplace(rows, i, f, owner);
      OwnedDistinct(rows, owner);
      ShrinkKeepsCeilings(cfg.price, map[p := budget], OwnedBy(rows, owner), k, f);
    } else {
      OwnedUntouched(rows, i, f, owner);
    }
  }

  lemma EditedIdentity(cfg: Config, rows: seq<Cluster>, c: Cluster, want: seq<NodePool>, budget: Amount, f: Cluster)
    requires Edited(cfg, rows, c, want, budget) == Ok(f)
    ensures f.owner == c.owner && f.id == c.id && f.provider == c.provider && Counted(f)
  {
    if !SameTopology(c.nodePools, want) {
      EditGoesThrough(cfg, rows, c, want, budget, f);
      RescaleChecked(cfg, rows, c.(nodePools := want, nodeDisks := EditedDisks(c, want)), budget, f);
    }
  }

  lemma EditKeepsBudget(cfg: Config, rows: seq<Cluster>, i: nat, want: seq<NodePool>, b: Amount, f: Cluster,
                        owner: string, p: string, budget: Amount)
    requires GoodConfig(cfg) && DistinctIds(rows) && Within(cfg, rows, owner, p, budget) && i < |rows|
    requires Edited(cfg, rows, rows[i], want, b) == Ok(f)
    requires rows[i].owner == owner && rows[i].InfraProvider() == p ==> b == budget
    ensures Within(cfg, rows[i := f], owner, p, budget)
  {
    if f == rows[i] {
      assert rows[i := f] == rows;
    } else {
      EditedIdentity(cfg, rows, rows[i], want, b, f);
      EditIsAffordable(cfg, rows, rows[i], want, b, f);
      PricedKeepsBudget(cfg, rows, i, f, owner, p, budget);
    }
  }

  lemma AddDiskKeepsBudget(cfg: Config, rows: seq<Cluster>, i: nat, req: DiskRequest, b: Amount, f: Cluster,
                           owner: string, p: string, budget: Amount)
    requires GoodConfig(cfg) && DistinctIds(rows) && Within(cfg, rows, owner, p, budget) && i < |rows|
    requires DiskAdded(cfg, rows, rows[i], req, b) == Ok(f)
    requires rows[i].owner == owner && rows[i].InfraProvider() == p ==> b == budget
    ensures Within(cfg, rows[i := f], owner, p, budget)
  {
    DiskAccepted(cfg, rows, rows[i], req, b);
    AddedDiskIsAffordable(cfg, rows, rows[i], req, b, f);
    PricedKeepsBudget(cfg, rows, i, f, owner, p, budget);
  }

  // ---------------------------------------------------------------- the steps that ask for no more

  lemma ReleasedCost(c: Cluster)
    requires DisksInv(c)
    ensures DisksCost(Released(c.nodeDisks)) <= DisksCost(c.nodeDisks)
  {
    assert forall d | d in c.nodeDisks :: DiskOK(WorkerNames(c), d);
    RowsCostLess(NotRemoving(), c.nodeDisks);
  }

  lemma RemovedCost(c: Cluster, vm: string, name: string, f: Cluster)
    requires DiskRemoved(c, vm, name) == Ok(f)
    ensures DisksCost(f.nodeDisks) == DisksCost(c.nodeDisks)
  {
    if MarkRemoving(c.nodeDisks, vm, name).Marked? {
      SameRowsCost(c.nodeDisks, f.nodeDisks);
    }
  }

  lemma StampedCost(c: Cluster, report: DeviceReport)
    requires DisksInv(c)
    ensures DisksCost(Observed(c.nodeDisks, report)) == DisksCost(Mounted(c.nodeDisks)) == DisksCost(c.nodeDisks)
  {
    ReconcilerKeepsDisks(c, report);
    SameRowsCost(c.nodeDisks, Observed(c.nodeDisks, report));
    SameRowsCost(c.nodeDisks, Mounted(c.nodeDisks));
  }

  lemma DisksCostLess(cfg: Config, rows: seq<Cluster>, c: Cluster, step: Step, f: Cluster)
    requires DisksInv(c) && Unpriced(cfg, rows, c, step, f)
    ensures DisksCost(f.nodeDisks) <= DisksCost(c.nodeDisks)
  {
    match step {
      case RemoveDisk(_, vm, name) =>
        RemovedCost(c, vm, name, f);
      case Observe(_, report) =>
        StampedCost(c, report);
      case Mount(_) =>
        StampedCost(c, map[]);
      case Release(_) =>
        ReleasedCost(c);
      case _ =>
    }
  }

  /** A step that is neither a create nor one of the two that are priced. */
  predicate Unpriced(cfg: Config, rows: seq<Cluster>, c: Cluster, step: Step, f: Cluster) {
    !step.Create? && !step.EditPools? && !step.AddDisk? && NewVersion(cfg, rows, c, step) == Ok(f)
  }

  lemma UnpricedIsLighter(cfg: Config, rows: seq<Cluster>, c: Cluster, step: Step, f: Cluster)
    requires Unpriced(cfg, rows, c, step, f)
    ensures Lighter(c, f) && (Counted(f) ==> Counted(c))
  {
  }

  lemma UnpricedKeepsBudget(cfg: Config, rows: seq<Cluster>, i: nat, step: Step, f: Cluster, owner: string, p: string, budget: Amount)
    requires GoodConfig(cfg) && Inv(cfg, rows) && Within(cfg, rows, owner, p, budget) && i < |rows|
    requires Unpriced(cfg, rows, rows[i], step, f) && DisksInv(f)
    ensures Within(cfg, rows[i := f], owner, p, budget)
  {
    var c := rows[i];
    assert c in rows && RowInv(cfg, c);
    UnpricedIsLighter(cfg, rows, c, step, f);
    DisksCostLess(cfg, rows, c, step, f);
    DisksCostPositive(WorkerNames(f), f.nodeDisks);
    LighterShare(cfg, c, f);
    LighterKeepsBudget(cfg, rows, i, f, owner, p, budget);
  }

  // ---------------------------------------------------------------- every reachable state

  lemma VersionKeepsBudget(cfg: Config, rows: seq<Cluster>, i: nat, step: Step, f: Cluster, owner: string, p: string, budget: Amount)
    requires GoodConfig(cfg) && Inv(cfg, rows) && Within(cfg, rows, owner, p, budget) && i < |rows|
    requires !step.Create? && rows[i].id == step.id && NewVersion(cfg, rows, rows[i], step) == Ok(f) && DisksInv(f)
    requires Carries(cfg, rows, step, owner, p, budget)
    ensures Within(cfg, rows[i := f], owner, p, budget)
  {
    assert rows[i] in rows;
    match step {
      case EditPools(_, want, b) => EditKeepsBudget(cfg, rows, i, want, b, f, owner, p, budget);
      case AddDisk(_, disk, b) => AddDiskKeepsBudget(cfg, rows, i, disk, b, f, owner, p, budget);
      case _ => UnpricedKeepsBudget(cfg, rows, i, step, f, owner, p, budget);
    }
  }

  lemma StepKeepsBudget(cfg: Config, rows: seq<Cluster>, step: Step, owner: string, p: string, budget: Amount)
    requires GoodConfig(cfg) && Inv(cfg, rows) && Within(cfg, rows, owner, p, budget)
    requires Carries(cfg, rows, step, owner, p, budget)
    ensures Within(cfg, After(cfg, rows, step), owner, p, budget)
  {
    if Outcome(cfg, rows, step).Ok? {
      if step.Create? {
        CreateKeepsBudget(cfg, rows, step.req, Created(cfg, rows, step.req).value, owner, p, budget);
      } else {
        var i := FindRowById(rows, step.id).value;
        var f := NewVersion(cfg, rows, rows[i], step).value;
        StepKeepsInv(cfg, rows, step);
        assert f in rows[i := f] by {
          assert rows[i := f][i] == f;
        }
        assert RowInv(cfg, f);
        VersionKeepsBudget(cfg, rows, i, step, f, owner, p, budget);
      }
    }
  }

  /** Every step of the run on the tenant's clusters on the backend carries the same budget. */
  predicate OneBudget(cfg: Config, steps: seq<Step>, owner: string, p: string, budget: Amount) {
    steps != [] ==>
      && OneBudget(cfg, steps[..|steps| - 1], owner, p, budget)
      && Carries(cfg, Run(cfg, steps[..|steps| - 1]), steps[|steps| - 1], owner, p, budget)
  }

  lemma {:induction false} RunsKeepBudget(cfg: Config, steps: seq<Step>, owner: string, p: string, budget: Amount)
    requires GoodConfig(cfg) && (forall d: Dimension :: budget.Of(d) >= 0) && OneBudget(cfg, steps, owner, p, budget)
    ensures Within(cfg, Run(cfg, steps), owner, p, budget)
  {
    if steps == [] {
      assert OwnedBy([], owner) == [];
    } else {
      var front := steps[..|steps| - 1];
      RunsKeepBudget(cfg, front, owner, p, budget);
      RunsKeepInv(cfg, front);
      StepKeepsBudget(cfg, Run(cfg, front), steps[|steps| - 1], owner, p, budget);
    }
  }

  /** As long as a tenant's grant on a backend stays what it is, what their clusters there cost stays
      within it in every state the platform can reach, in every dimension. */
  lemma BudgetIsKept(cfg: Config, steps: seq<Step>, owner: string, p: string, budget: Amount, d: Dimension)
    requires GoodConfig(cfg) && (forall e: Dimension :: budget.Of(e) >= 0) && OneBudget(cfg, steps, owner, p, budget)
    ensures Usage(cfg.price, OnProvider(OwnedBy(Run(cfg, steps), owner), p), d) <= budget.Of(d)
  {
    RunsKeepBudget(cfg, steps, owner, p, budget);
    assert Bill(cfg.price, OwnedBy(Run(cfg, steps), owner), p, d) <= map[p := budget][p].Of(d);
  }
}
