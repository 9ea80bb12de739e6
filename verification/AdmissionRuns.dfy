/** Every reachable state of admission and reconciliation keeps the invariant. */
module AdmissionRuns {
  import opened Wrappers
  import opened Text
  import opened Nodes
  import opened Disks
  import opened DiskRows
  import opened Addressing
  import opened Quota
  import opened Admission

  // ---------------------------------------------------------------- create

  lemma StillFits(cfg: Config, existing: seq<Cluster>, c: Cluster, e: Cluster)
    requires Fair(cfg.price) && SameNodes(c, e) && c.nodeDisks == e.nodeDisks && c.provider == e.provider
    requires BackendError(cfg.price, cfg.ceilings, existing, c).None?
    ensures BackendError(cfg.price, cfg.ceilings, existing, e).None?
  {
    assert forall d: Dimension :: cfg.price(e).Of(d) <= cfg.price(c).Of(d);
  }

  lemma NewClusterDisks(blank: Cluster)
    requires ValidPools(blank.name, blank.nodePools) && blank.nodeDisks == []
    requires blank.storageDiskGB > 0 ==> SizeOK(blank.storageDiskGB)
    ensures DisksInv(blank.(nodeDisks := Synced(blank)))
  {
    SyncEstablishes(blank);
  }

  /** Only addressing differs. */
  predicate SameButAddresses(c: Cluster, e: Cluster) {
    e == c.(ipMode := e.ipMode, staticIPs := e.staticIPs, loadBalancerIP := e.loadBalancerIP, apiVIP := e.apiVIP)
  }

  lemma ClaimedNetwork(cfg: Config, rows: seq<Cluster>, req: CreateRequest, c: Cluster)
    requires GoodConfig(cfg) && ValidPools(c.name, c.nodePools)
    requires c.staticIPs == map[] && c.apiVIP == ""
    requires WithNetwork(cfg, rows, req, c).Ok?
    ensures var e := WithNetwork(cfg, rows, req, c).value;
            SameButAddresses(c, e)
            && (e.InfraProvider() in cfg.sharedNet ==>
                  AddressInv(e) && Addresses(e) !! UsedBy(OnProvider(rows, e.InfraProvider())))
  {
    var p := c.InfraProvider();
    if p in cfg.sharedNet {
      var s, used := cfg.sharedNet[p], UsedBy(OnProvider(rows, p));
      if s.mode == "dhcp" {
        DHCPClaimIsFresh(c, s, Trim(req.apiVIP), Trim(req.loadBalancerIP), used);
      } else {
        StaticClaimIsFresh(c, s, used);
      }
    }
  }

  lemma DisksIgnoreAddresses(c: Cluster, e: Cluster)
    requires DisksInv(c) && SameButAddresses(c, e)
    ensures DisksInv(e)
  {
    assert WorkerNames(e) == WorkerNames(c);
  }

  /** A cluster as asked for: well-formed, and without disks or addresses yet. */
  ghost predicate Unborn(c: Cluster) {
    && ValidPools(c.name, c.nodePools) && c.nodeDisks == [] && (c.storageDiskGB > 0 ==> SizeOK(c.storageDiskGB))
    && c.staticIPs == map[] && c.apiVIP == "" && !c.deleted && c.phase == Pending
    && (c.controlPlanes == 1 || c.controlPlanes == HA_CONTROL_PLANES)
  }

  ghost predicate FreshRow(cfg: Config, rows: seq<Cluster>, e: Cluster) {
    && RowInv(cfg, e) && !HasId(rows, e.id)
    && (e.InfraProvider() in cfg.sharedNet ==> Addresses(e) !! UsedBy(OnProvider(rows, e.InfraProvider())))
    && BackendError(cfg.price, cfg.ceilings, OnProvider(rows, e.InfraProvider()), e).None?
  }

  lemma NetworkIsSound(cfg: Config, rows: seq<Cluster>, req: CreateRequest, blank: Cluster, c: Cluster, e: Cluster)
    requires GoodConfig(cfg) && Unborn(blank) && c == blank.(nodeDisks := c.nodeDisks) && DisksInv(c)
    requires WithNetwork(cfg, rows, req, c) == Ok(e) && !HasId(rows, c.id)
    requires BackendError(cfg.price, cfg.ceilings, OnProvider(rows, c.InfraProvider()), c).None?
    ensures FreshRow(cfg, rows, e)
  {
    ClaimedNetwork(cfg, rows, req, c);
    DisksIgnoreAddresses(c, e);
    StillFits(cfg, OnProvider(rows, c.InfraProvider()), c, e);
  }

  lemma AdmittedIsSound(cfg: Config, rows: seq<Cluster>, req: CreateRequest, blank: Cluster, e: Cluster)
    requires GoodConfig(cfg) && Unborn(blank) && blank.id == req.id
    requires Admitted(cfg, rows, req, blank) == Ok(e)
    ensures FreshRow(cfg, rows, e)
  {
    NewClusterDisks(blank);
    NetworkIsSound(cfg, rows, req, blank, blank.(nodeDisks := Synced(blank)), e);
  }

  lemma CreatedIsSound(cfg: Config, rows: seq<Cluster>, req: CreateRequest, e: Cluster)
    requires GoodConfig(cfg) && Created(cfg, rows, req) == Ok(e)
    ensures FreshRow(cfg, rows, e)
  {
    var blank := Blank(req, ResolveProvider(cfg, req.provider).value, StorageSize(req).value);
    CheckPoolsMeaning(req.name, blank.nodePools, {});
    AdmittedIsSound(cfg, rows, req, blank, e);
  }

  lemma CreateKeepsInv(cfg: Config, rows: seq<Cluster>, req: CreateRequest)
    requires GoodConfig(cfg) && Inv(cfg, rows) && Created(cfg, rows, req).Ok?
    ensures Inv(cfg, rows + [Created(cfg, rows, req).value])
  {
    var c := Created(cfg, rows, req).value;
    CreatedIsSound(cfg, rows, req, c);
    CreateKeepsCeilings(cfg.price, cfg.ceilings, rows, c);
    AppendKeepsInv(cfg, rows, c);
  }

  // ---------------------------------------------------------------- pool edit

  lemma HeldApart(cfg: Config, rows: seq<Cluster>, i: nat, others: seq<Cluster>)
    requires AddressesDisjoint(cfg, rows) && i < |rows|
    requires !rows[i].deleted && rows[i].InfraProvider() in cfg.sharedNet
    requires forall d | d in others :: d in rows && d.id != rows[i].id && d.InfraProvider() == rows[i].InfraProvider()
    ensures Addresses(rows[i]) !! UsedBy(others)
  {
    var c := rows[i];
    forall d | d in others && !d.deleted
      ensures Addresses(c) !! Addresses(d)
    {
      var j :| 0 <= j < |rows| && rows[j] == d;
      if i < j {
        assert ShareNetwork(cfg, rows[i], rows[j]);
      } else {
        assert ShareNetwork(cfg, rows[j], rows[i]);
      }
    }
    ApartFromAll(Addresses(c), others);
  }

  lemma {:induction false} ApartFromAll(s: set<string>, rows: seq<Cluster>)
    requires forall d | d in rows && !d.deleted :: s !! Addresses(d)
    ensures s !! UsedBy(rows)
  {
    if rows != [] {
      var front := rows[..|rows| - 1];
      assert rows == front + [rows[|rows| - 1]];
      ApartFromAll(s, front);
    }
  }

  lemma OthersHeldApart(cfg: Config, rows: seq<Cluster>, i: nat)
    requires AddressesDisjoint(cfg, rows) && i < |rows|
    requires !rows[i].deleted && rows[i].InfraProvider() in cfg.sharedNet
    ensures Addresses(rows[i]) !! UsedBy(Others(rows, rows[i].InfraProvider(), rows[i].id))
  {
    OthersMembers(rows, rows[i].InfraProvider(), rows[i].id);
    HeldApart(cfg, rows, i, Others(rows, rows[i].InfraProvider(), rows[i].id));
  }

  /** f is e, moved to a new address book. */
  predicate Readdressed(e: Cluster, f: Cluster) {
    f == e.(staticIPs := f.staticIPs, generation := f.generation)
  }

  lemma SameNamesSameAddresses(f: Cluster, g: Cluster)
    requires NameSet(f) == NameSet(g) && f.HA() == g.HA()
    requires f.ipMode == g.ipMode && f.staticIPs == g.staticIPs && f.apiVIP == g.apiVIP && f.loadBalancerIP == g.loadBalancerIP
    ensures Addresses(f) == Addresses(g) && (AddressInv(g) ==> AddressInv(f))
  {
  }

  /** What an accepted pool edit does to addresses, given what the other clusters hold. */
  lemma EditedAddresses(cfg: Config, c: Cluster, want: seq<NodePool>, used: set<string>, e: Cluster, f: Cluster)
    requires GoodConfig(cfg) && c.InfraProvider() in cfg.sharedNet
    requires AddressInv(c) && Addresses(c) !! used && ValidPools(c.name, want)
    requires e == c.(nodePools := want, nodeDisks := e.nodeDisks) && Readdressed(e, f)
    requires if c.ipMode == "static"
             then ScaledAddresses(NodeVMNames(e), c.staticIPs, cfg.sharedNet[c.InfraProvider()], used + FixedAddresses(c))
                  == Ok(f.staticIPs)
             else f.staticIPs == c.staticIPs
    ensures AddressInv(f) && Addresses(f) !! used
  {
    var g := c.(nodePools := want, staticIPs := f.staticIPs);
    if c.ipMode == "static" {
      ScaleKeepsAddresses(c, want, cfg.sharedNet[c.InfraProvider()], used, f.staticIPs);
    }
    SameNamesSameAddresses(f, g);
  }

  lemma EditedClaims(cfg: Config, rows: seq<Cluster>, i: nat, want: seq<NodePool>, e: Cluster, f: Cluster)
    requires GoodConfig(cfg) && AddressesDisjoint(cfg, rows) && i < |rows| && !rows[i].deleted
    requires rows[i].InfraProvider() in cfg.sharedNet && AddressInv(rows[i]) && ValidPools(rows[i].name, want)
    requires e == rows[i].(nodePools := want, nodeDisks := e.nodeDisks) && Readdressed(e, f)
    requires FollowAddresses(cfg, rows, e) == Ok(f.staticIPs)
    ensures AddressInv(f) && Addresses(f) !! UsedBy(Others(rows, e.InfraProvider(), e.id))
  {
    OthersHeldApart(cfg, rows, i);
    EditedAddresses(cfg, rows[i], want, UsedBy(Others(rows, e.InfraProvider(), e.id)), e, f);
  }

  lemma EditedRowInv(cfg: Config, c: Cluster, want: seq<NodePool>, e: Cluster, f: Cluster)
    requires RowInv(cfg, c) && ValidPools(c.name, want)
    requires e == c.(nodePools := want, nodeDisks := e.nodeDisks) && Readdressed(e, f) && DisksInv(e)
    requires f.InfraProvider() in cfg.sharedNet ==> AddressInv(f)
    ensures RowInv(cfg, f)
  {
    assert WorkerNames(f) == WorkerNames(e);
  }

  /** An accepted edit that changes the topology is a rescaling to a valid pool list. */
  lemma EditGoesThrough(cfg: Config, rows: seq<Cluster>, c: Cluster, want: seq<NodePool>, budget: Amount, f: Cluster)
    requires Edited(cfg, rows, c, want, budget) == Ok(f) && !SameTopology(c.nodePools, want)
    ensures c.phase.Editable() && ValidPools(c.name, want)
    ensures Rescaled(cfg, rows, c.(nodePools := want, nodeDisks := EditedDisks(c, want)), budget) == Ok(f)
  {
    CheckPoolsMeaning(c.name, want, {});
  }

  lemma RescaleChecked(cfg: Config, rows: seq<Cluster>, e: Cluster, budget: Amount, f: Cluster)
    requires Rescaled(cfg, rows, e, budget) == Ok(f)
    ensures BackendError(cfg.price, cfg.ceilings, Others(rows, e.InfraProvider(), e.id), e).None?
    ensures FollowAddresses(cfg, rows, e) == Ok(f.staticIPs)
    ensures Readdressed(e, f)
  {
  }

  /** Storing a row f whose priced form e passed the ceiling check against all other rows. */
  lemma StoreChecked(cfg: Config, rows: seq<Cluster>, i: nat, e: Cluster, f: Cluster)
    requires GoodConfig(cfg) && Inv(cfg, rows) && i < |rows| && RowInv(cfg, f)
    requires f.id == rows[i].id && f.provider == rows[i].provider && Counted(f) && !rows[i].deleted && !f.deleted
    requires f.InfraProvider() in cfg.sharedNet ==>
      Addresses(f) == Addresses(rows[i]) || Addresses(f) !! UsedBy(Others(rows, f.InfraProvider(), f.id))
    requires SameNodes(e, f) && e.nodeDisks == f.nodeDisks && e.provider == f.provider
    requires BackendError(cfg.price, cfg.ceilings, Others(rows, f.InfraProvider(), f.id), e).None?
    ensures Inv(cfg, rows[i := f])
  {
    StillFits(cfg, Others(rows, f.InfraProvider(), f.id), e, f);
    ReplaceKeepsCeilings(cfg.price, cfg.ceilings, rows, i, f);
    ReplaceKeepsInv(cfg, rows, i, f);
  }

  lemma RescaledIsSound(cfg: Config, rows: seq<Cluster>, i: nat, want: seq<NodePool>, e: Cluster, f: Cluster)
    requires GoodConfig(cfg) && AddressesDisjoint(cfg, rows) && i < |rows| && RowInv(cfg, rows[i])
    requires !rows[i].deleted && ValidPools(rows[i].name, want)
    requires e == rows[i].(nodePools := want, nodeDisks := e.nodeDisks) && DisksInv(e)
    requires FollowAddresses(cfg, rows, e) == Ok(f.staticIPs)
    requires Readdressed(e, f)
    ensures RowInv(cfg, f)
    ensures f.InfraProvider() in cfg.sharedNet ==> Addresses(f) !! UsedBy(Others(rows, f.InfraProvider(), f.id))
  {
    if e.InfraProvider() in cfg.sharedNet {
      EditedClaims(cfg, rows, i, want, e, f);
    }
    EditedRowInv(cfg, rows[i], want, e, f);
  }

  lemma RescaleKeepsInv(cfg: Config, rows: seq<Cluster>, i: nat, want: seq<NodePool>, budget: Amount, e: Cluster, f: Cluster)
    requires GoodConfig(cfg) && Inv(cfg, rows) && i < |rows|
    requires rows[i].phase.Editable() && ValidPools(rows[i].name, want)
    requires e == rows[i].(nodePools := want, nodeDisks := e.nodeDisks) && DisksInv(e)
    requires Rescaled(cfg, rows, e, budget) == Ok(f)
    ensures Inv(cfg, rows[i := f])
  {
    assert rows[i] in rows && RowInv(cfg, rows[i]);
    RescaleChecked(cfg, rows, e, budget, f);
    RescaledIsSound(cfg, rows, i, want, e, f);
    StoreChecked(cfg, rows, i, e, f);
  }

  lemma EditKeepsInv(cfg: Config, rows: seq<Cluster>, i: nat, want: seq<NodePool>, budget: Amount, f: Cluster)
    requires GoodConfig(cfg) && Inv(cfg, rows) && i < |rows|
    requires Edited(cfg, rows, rows[i], want, budget) == Ok(f)
    ensures Inv(cfg, rows[i := f])
  {
    var c := rows[i];
    if SameTopology(c.nodePools, want) {
      assert rows[i := f] == rows;
    } else {
      assert c in rows && RowInv(cfg, c);
      EditGoesThrough(cfg, rows, c, want, budget, f);
      EditKeepsDisks(c, want);
      RescaleKeepsInv(cfg, rows, i, want, budget, c.(nodePools := want, nodeDisks := EditedDisks(c, want)), f);
    }
  }

  // ---------------------------------------------------------------- the other steps

  /** A new version of a row with the same nodes, addresses and no more disk. */
  predicate Lighter(c: Cluster, e: Cluster) {
    e == c.(nodeDisks := e.nodeDisks, phase := e.phase, generation := e.generation, deleted := e.deleted)
  }

  lemma LighterRow(cfg: Config, c: Cluster, e: Cluster)
    requires RowInv(cfg, c) && Lighter(c, e) && DisksInv(e) && (e.deleted <==> e.phase == Deleted)
    ensures RowInv(cfg, e) && Addresses(e) == Addresses(c)
  {
    assert NameSet(e) == NameSet(c);
  }

  lemma LighterShare(cfg: Config, c: Cluster, e: Cluster)
    requires Fair(cfg.price) && Lighter(c, e)
    requires 0 <= DisksCost(e.nodeDisks) <= DisksCost(c.nodeDisks)
    requires Counted(e) ==> Counted(c)
    ensures forall p, d :: Share(cfg.price, e, p, d) <= Share(cfg.price, c, p, d)
  {
    assert SameNodes(c, e);
    forall p, d: Dimension
      ensures Share(cfg.price, e, p, d) <= Share(cfg.price, c, p, d)
    {
      assert 0 <= cfg.price(e).Of(d) <= cfg.price(c).Of(d);
    }
  }

  lemma {:induction false} DisksCostPositive(workers: set<string>, disks: seq<NodeDisk>)
    requires forall d | d in disks :: DiskOK(workers, d)
    ensures DisksCost(disks) >= 0
  {
    if disks != [] {
      assert disks[|disks| - 1] in disks;
      DisksCostPositive(workers, disks[..|disks| - 1]);
    }
  }

  lemma LighterKeepsInv(cfg: Config, rows: seq<Cluster>, i: nat, e: Cluster)
    requires GoodConfig(cfg) && Inv(cfg, rows) && i < |rows|
    requires Lighter(rows[i], e) && DisksInv(e)
    requires (e.deleted <==> e.phase == Deleted) && (rows[i].deleted ==> e.deleted)
    requires DisksCost(e.nodeDisks) <= DisksCost(rows[i].nodeDisks)
    requires Counted(e) ==> Counted(rows[i])
    ensures Inv(cfg, rows[i := e])
  {
    assert rows[i] in rows;
    LighterRow(cfg, rows[i], e);
    DisksCostPositive(WorkerNames(e), e.nodeDisks);
    LighterShare(cfg, rows[i], e);
    ShrinkKeepsCeilings(cfg.price, cfg.ceilings, rows, i, e);
    ReplaceKeepsInv(cfg, rows, i, e);
  }

  lemma {:induction false} SameRowsCost(a: seq<NodeDisk>, b: seq<NodeDisk>)
    requires SameRows(a, b)
    ensures DisksCost(a) == DisksCost(b)
  {
    if a != [] {
      assert SameRow(a[|a| - 1], b[|b| - 1]);
      SameRowsCost(a[..|a| - 1], b[..|b| - 1]);
    }
  }

  lemma {:induction false} RowsCostLess(f: NodeDisk -> bool, disks: seq<NodeDisk>)
    requires forall d | d in disks :: d.sizeGB >= 0
    ensures DisksCost(Rows(f, disks)) <= DisksCost(disks)
  {
    if disks != [] {
      var front, d := disks[..|disks| - 1], disks[|disks| - 1];
      assert d in disks;
      RowsCostLess(f, front);
      var kept := Rows(f, front);
      assert (kept + [d])[..|kept|] == kept;
      assert kept + [] == kept;
    }
  }

  lemma DiskAccepted(cfg: Config, rows: seq<Cluster>, c: Cluster, req: DiskRequest, budget: Amount)
    requires DiskAdded(cfg, rows, c, req, budget).Ok?
    ensures CheckUserDiskName(NewRow(req).name).None? && c.phase == Ready
    ensures CheckDisks(WorkerNames(c), [], c.nodeDisks + [NewRow(req)]).None?
    ensures var e := c.(nodeDisks := c.nodeDisks + [NewRow(req)]);
            BackendError(cfg.price, cfg.ceilings, Others(rows, e.InfraProvider(), e.id), e).None?
            && DiskAdded(cfg, rows, c, req, budget).value == e.(generation := c.generation + 1)
  {
    assert WorkerNames(c.(nodeDisks := c.nodeDisks + [NewRow(req)])) == WorkerNames(c);
  }

  lemma AddDiskKeepsInv(cfg: Config, rows: seq<Cluster>, i: nat, req: DiskRequest, budget: Amount, f: Cluster)
    requires GoodConfig(cfg) && Inv(cfg, rows) && i < |rows|
    requires DiskAdded(cfg, rows, rows[i], req, budget) == Ok(f)
    ensures Inv(cfg, rows[i := f])
  {
    var c := rows[i];
    assert c in rows && RowInv(cfg, c);
    DiskAccepted(cfg, rows, c, req, budget);
    AddKeepsDisks(c, NewRow(req));
    var e := c.(nodeDisks := c.nodeDisks + [NewRow(req)]);
    assert WorkerNames(f) == WorkerNames(e);
    LighterRow(cfg, c, f);
    StoreChecked(cfg, rows, i, e, f);
  }

  lemma StampKeepsInv(cfg: Config, rows: seq<Cluster>, i: nat, b: seq<NodeDisk>, e: Cluster)
    requires GoodConfig(cfg) && Inv(cfg, rows) && i < |rows|
    requires SameRows(rows[i].nodeDisks, b) && DisksInv(rows[i].(nodeDisks := b))
    requires e == rows[i].(nodeDisks := b, generation := e.generation)
    ensures Inv(cfg, rows[i := e])
  {
    var c := rows[i];
    assert c in rows;
    assert WorkerNames(e) == WorkerNames(c.(nodeDisks := b));
    SameRowsCost(c.nodeDisks, b);
    LighterKeepsInv(cfg, rows, i, e);
  }

  lemma ReleaseKeepsInv(cfg: Config, rows: seq<Cluster>, i: nat, e: Cluster)
    requires GoodConfig(cfg) && Inv(cfg, rows) && i < |rows|
    requires e == rows[i].(nodeDisks := Released(rows[i].nodeDisks))
    ensures Inv(cfg, rows[i := e])
  {
    var c := rows[i];
    assert c in rows;
    ReleaseKeepsDisks(c);
    assert forall d | d in c.nodeDisks :: DiskOK(WorkerNames(c), d);
    RowsCostLess(NotRemoving(), c.nodeDisks);
    LighterKeepsInv(cfg, rows, i, e);
  }

  lemma PhaseKeepsInv(cfg: Config, rows: seq<Cluster>, i: nat, e: Cluster)
    requires GoodConfig(cfg) && Inv(cfg, rows) && i < |rows|
    requires e == rows[i].(phase := e.phase, generation := e.generation, deleted := e.phase == Deleted)
    requires e.phase.Editable() ==> rows[i].phase.Editable()
    requires rows[i].phase == Deleted ==> e.phase == Deleted
    ensures Inv(cfg, rows[i := e])
  {
    var c := rows[i];
    assert c in rows;
    assert WorkerNames(e) == WorkerNames(c);
    LighterKeepsInv(cfg, rows, i, e);
  }

  lemma RequestKeepsInv(cfg: Config, rows: seq<Cluster>, i: nat, step: Step, e: Cluster)
    requires GoodConfig(cfg) && Inv(cfg, rows) && i < |rows|
    requires step.EditPools? || step.AddDisk? || step.RemoveDisk? || step.Delete?
    requires NewVersion(cfg, rows, rows[i], step) == Ok(e)
    ensures Inv(cfg, rows[i := e])
  {
    var c := rows[i];
    assert c in rows && rows[i := c] == rows;
    match step {
      case EditPools(_, want, budget) =>
        EditKeepsInv(cfg, rows, i, want, budget, e);
      case AddDisk(_, disk, budget) =>
        AddDiskKeepsInv(cfg, rows, i, disk, budget, e);
      case RemoveDisk(_, vm, name) =>
        if MarkRemoving(c.nodeDisks, vm, name).Marked? {
          RemoveKeepsDisks(c, vm, name);
          StampKeepsInv(cfg, rows, i, e.nodeDisks, e);
        }
      case Delete(_) =>
        if c.phase !in {Deleting, Deleted} {
          PhaseKeepsInv(cfg, rows, i, e);
        }
    }
  }

  lemma ReconcilerKeepsInv(cfg: Config, rows: seq<Cluster>, i: nat, step: Step, e: Cluster)
    requires GoodConfig(cfg) && Inv(cfg, rows) && i < |rows|
    requires step.Advance? || step.Observe? || step.Mount? || step.Release? || step.FinishDelete?
    requires NewVersion(cfg, rows, rows[i], step) == Ok(e)
    ensures Inv(cfg, rows[i := e])
  {
    var c := rows[i];
    assert c in rows;
    match step {
      case Advance(_, phase) =>
        PhaseKeepsInv(cfg, rows, i, e);
      case Observe(_, report) =>
        ReconcilerKeepsDisks(c, report);
        StampKeepsInv(cfg, rows, i, e.nodeDisks, e);
      case Mount(_) =>
        ReconcilerKeepsDisks(c, map[]);
        StampKeepsInv(cfg, rows, i, e.nodeDisks, e);
      case Release(_) =>
        ReleaseKeepsInv(cfg, rows, i, e);
      case FinishDelete(_) =>
        PhaseKeepsInv(cfg, rows, i, e);
    }
  }

  // ---------------------------------------------------------------- every reachable state

  lemma StepKeepsInv(cfg: Config, rows: seq<Cluster>, step: Step)
    requires GoodConfig(cfg) && Inv(cfg, rows)
    ensures Inv(cfg, After(cfg, rows, step))
  {
    if Outcome(cfg, rows, step).Ok? {
      if step.Create? {
        CreateKeepsInv(cfg, rows, step.req);
      } else {
        var i := FindRowById(rows, step.id).value;
        var e := NewVersion(cfg, rows, rows[i], step).value;
        if step.EditPools? || step.AddDisk? || step.RemoveDisk? || step.Delete? {
          RequestKeepsInv(cfg, rows, i, step, e);
        } else {
          ReconcilerKeepsInv(cfg, rows, i, step, e);
        }
      }
    }
  }

  lemma EmptyPlatform(cfg: Config)
    requires GoodConfig(cfg)
    ensures Inv(cfg, [])
  {
  }

  /** From an empty platform, whatever is requested and however the reconciler interleaves. */
  lemma {:induction false} RunsKeepInv(cfg: Config, steps: seq<Step>)
    requires GoodConfig(cfg)
    ensures Inv(cfg, Run(cfg, steps))
  {
    if steps == [] {
      EmptyPlatform(cfg);
    } else {
      RunsKeepInv(cfg, steps[..|steps| - 1]);
      StepKeepsInv(cfg, Run(cfg, steps[..|steps| - 1]), steps[|steps| - 1]);
    }
  }
}
