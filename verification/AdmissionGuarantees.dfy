/** What the invariant of every run means to someone operating the platform. */
module AdmissionGuarantees {
  import opened Wrappers
  import opened Nodes
  import opened Disks
  import opened DiskRows
  import opened Addressing
  import opened Quota
  import opened Admission
  import opened AdmissionRuns

  // ---------------------------------------------------------------- addresses

  /** Everything of one cluster that answers on an address of its own. */
  datatype Endpoint = NodeAt(vm: string) | APIServer | LoadBalancer

  function AddressOf(c: Cluster, e: Endpoint): Option<string> {
    match e
    case NodeAt(vm) => if vm in c.staticIPs then Some(c.staticIPs[vm]) else None
    case APIServer => if c.apiVIP == "" then None else Some(c.apiVIP)
    case LoadBalancer => if c.loadBalancerIP == "" then None else Some(c.loadBalancerIP)
  }

  predicate OnSharedNetwork(cfg: Config, c: Cluster) {
    !c.deleted && c.InfraProvider() in cfg.sharedNet
  }

  lemma AddressIsHeld(c: Cluster, e: Endpoint)
    requires AddressInv(c) && AddressOf(c, e).Some?
    ensures AddressOf(c, e).value in Addresses(c)
  {
    if e.NodeAt? {
      assert e.vm in c.staticIPs.Keys;
    }
  }

  lemma OneClusterOneAddress(c: Cluster, e: Endpoint, f: Endpoint)
    requires AddressInv(c) && e != f && AddressOf(c, e).Some? && AddressOf(c, f).Some?
    ensures AddressOf(c, e) != AddressOf(c, f)
  {
    if e.NodeAt? {
      assert c.staticIPs[e.vm] in c.staticIPs.Values;
    }
    if f.NodeAt? {
      assert c.staticIPs[f.vm] in c.staticIPs.Values;
    }
  }

  /** However requests and the reconciler interleave, no address of a shared network ever answers
      for two things: not two nodes, not a node and a load balancer, not two clusters. */
  lemma NoAddressTwice(cfg: Config, steps: seq<Step>, i: nat, e: Endpoint, j: nat, f: Endpoint)
    requires GoodConfig(cfg) && i < |Run(cfg, steps)| && j < |Run(cfg, steps)|
    requires OnSharedNetwork(cfg, Run(cfg, steps)[i]) && OnSharedNetwork(cfg, Run(cfg, steps)[j])
    requires Run(cfg, steps)[i].InfraProvider() == Run(cfg, steps)[j].InfraProvider()
    requires AddressOf(Run(cfg, steps)[i], e).Some? && AddressOf(Run(cfg, steps)[i], e) == AddressOf(Run(cfg, steps)[j], f)
    ensures i == j && e == f
  {
    var rows := Run(cfg, steps);
    RunsKeepInv(cfg, steps);
    assert rows[i] in rows && rows[j] in rows;
    AddressIsHeld(rows[i], e);
    AddressIsHeld(rows[j], f);
    if i < j {
      assert ShareNetwork(cfg, rows[i], rows[j]);
    } else if j < i {
      assert ShareNetwork(cfg, rows[j], rows[i]);
    } else if e != f {
      OneClusterOneAddress(rows[i], e, f);
    }
  }

  /** With static addressing, exactly the desired nodes have an address; the API server has one
      exactly when the control plane is highly available. */
  lemma EveryNodeHasItsAddress(cfg: Config, steps: seq<Step>, c: Cluster)
    requires GoodConfig(cfg) && c in Run(cfg, steps) && OnSharedNetwork(cfg, c)
    ensures c.ipMode == "static" ==> forall vm :: AddressOf(c, NodeAt(vm)).Some? <==> vm in NameSet(c)
    ensures AddressOf(c, APIServer).Some? <==> c.HA()
    ensures AddressOf(c, LoadBalancer).Some?
  {
    RunsKeepInv(cfg, steps);
    assert forall vm :: vm in c.staticIPs <==> vm in c.staticIPs.Keys;
  }

  // ---------------------------------------------------------------- disks

  /** Exactly one storage disk per worker, on every reachable state; and the stored list would pass
      validation again, so no leftover row can block a later disk edit. */
  lemma StorageFollowsWorkers(cfg: Config, steps: seq<Step>, c: Cluster, vm: string)
    requires GoodConfig(cfg) && c in Run(cfg, steps)
    ensures CountStorage(c.nodeDisks, vm) == if vm in WorkerNames(c) && c.storageDiskGB > 0 then 1 else 0
    ensures CheckDisks(WorkerNames(c), [], c.nodeDisks).None?
  {
    RunsKeepInv(cfg, steps);
    OneStorageDiskPerWorker(c, vm);
    ValidationIsExact(c, c.nodeDisks);
  }

  // ---------------------------------------------------------------- capacity

  /** What a backend's counted clusters are charged never passes its ceiling, in any dimension. Counted
      are the clusters that are neither deleted, nor being deleted, nor failed, whether or not the
      machines of the others still exist. */
  lemma CeilingsHold(cfg: Config, steps: seq<Step>, p: string, d: Dimension)
    requires GoodConfig(cfg) && cfg.price == ClusterUsage && p in cfg.ceilings
    ensures Bill(ClusterUsage, Run(cfg, steps), p, d) <= cfg.ceilings[p].Of(d)
  {
    RunsKeepInv(cfg, steps);
    assert Bill(cfg.price, Run(cfg, steps), p, d) <= cfg.ceilings[p].Of(d);
  }

  // ---------------------------------------------------------------- what an edit leaves alone

  /** A node that survives a pool edit keeps its address and every disk row it had. */
  lemma SurvivorsStayPut(cfg: Config, rows: seq<Cluster>, i: nat, want: seq<NodePool>, budget: Amount, f: Cluster, vm: string)
    requires GoodConfig(cfg) && Inv(cfg, rows) && i < |rows|
    requires Edited(cfg, rows, rows[i], want, budget) == Ok(f)
    requires vm in NameSet(rows[i]) && vm in NameSet(f)
    ensures AddressOf(f, NodeAt(vm)) == AddressOf(rows[i], NodeAt(vm))
    ensures forall d | d in rows[i].nodeDisks && d.vmName == vm :: d in f.nodeDisks
  {
    var c := rows[i];
    if !SameTopology(c.nodePools, want) {
      assert c in rows && RowInv(cfg, c);
      EditGoesThrough(cfg, rows, c, want, budget, f);
      if c.InfraProvider() in cfg.sharedNet {
        OthersHeldApart(cfg, rows, i);
      }
      RescaleSurvivors(cfg, rows, c, want, budget, c.(nodePools := want, nodeDisks := EditedDisks(c, want)), f, vm);
    }
  }

  lemma RescaleSurvivors(cfg: Config, rows: seq<Cluster>, c: Cluster, want: seq<NodePool>, budget: Amount,
                         e: Cluster, f: Cluster, vm: string)
    requires GoodConfig(cfg) && ValidPools(c.name, c.nodePools) && ValidPools(c.name, want) && DisksInv(c)
    requires c.InfraProvider() in cfg.sharedNet ==> AddressInv(c) && OthersApart(cfg, rows, c)
    requires e == c.(nodePools := want, nodeDisks := EditedDisks(c, want)) && Rescaled(cfg, rows, e, budget) == Ok(f)
    requires vm in NameSet(c) && vm in NameSet(f)
    ensures AddressOf(f, NodeAt(vm)) == AddressOf(c, NodeAt(vm))
    ensures forall d | d in c.nodeDisks && d.vmName == vm :: d in f.nodeDisks
  {
    RescaleChecked(cfg, rows, e, budget, f);
    SurvivingRows(c, want, e, f, vm);
    if c.InfraProvider() in cfg.sharedNet {
      SurvivingAddress(cfg, rows, c, want, e, f, vm);
    }
  }

  ghost predicate OthersApart(cfg: Config, rows: seq<Cluster>, c: Cluster) {
    Addresses(c) !! UsedBy(Others(rows, c.InfraProvider(), c.id))
  }

  lemma SurvivingRows(c: Cluster, want: seq<NodePool>, e: Cluster, f: Cluster, vm: string)
    requires ValidPools(c.name, c.nodePools) && ValidPools(c.name, want) && DisksInv(c)
    requires e == c.(nodePools := want, nodeDisks := EditedDisks(c, want)) && Readdressed(e, f)
    requires vm in NameSet(f)
    ensures forall d | d in c.nodeDisks && d.vmName == vm :: d in f.nodeDisks
  {
    EditKeepsSurvivingRows(c, want);
    assert NameSet(f) == NameSet(c.(nodePools := want));
  }

  lemma SurvivingAddress(cfg: Config, rows: seq<Cluster>, c: Cluster, want: seq<NodePool>, e: Cluster, f: Cluster, vm: string)
    requires GoodConfig(cfg) && c.InfraProvider() in cfg.sharedNet && AddressInv(c) && OthersApart(cfg, rows, c)
    requires ValidPools(c.name, want)
    requires e == c.(nodePools := want, nodeDisks := e.nodeDisks) && Readdressed(e, f)
    requires FollowAddresses(cfg, rows, e) == Ok(f.staticIPs)
    requires vm in NameSet(c) && vm in NameSet(f)
    ensures AddressOf(f, NodeAt(vm)) == AddressOf(c, NodeAt(vm))
  {
    if c.ipMode == "static" {
      var used := UsedBy(Others(rows, e.InfraProvider(), e.id));
      ScaleKeepsAddresses(c, want, cfg.sharedNet[c.InfraProvider()], used, f.staticIPs);
      assert NameSet(f) == NameSet(c.(nodePools := want, staticIPs := f.staticIPs));
      assert vm in c.staticIPs.Keys;
      assert AddressInv(c.(nodePools := want, staticIPs := f.staticIPs));
      assert vm in f.staticIPs.Keys;
    }
  }

  /** A step touches at most the row it names; a refused step touches nothing. */
  lemma OtherRowsUntouched(cfg: Config, rows: seq<Cluster>, step: Step, k: nat)
    requires k < |rows|
    requires step.Create? || rows[k].id != step.id || Outcome(cfg, rows, step).Err?
    ensures k < |After(cfg, rows, step)| && After(cfg, rows, step)[k] == rows[k]
  {
  }

  /** Once a cluster is gone its row never changes again, so its addresses stay released. */
  lemma {:induction false} DeletedForGood(cfg: Config, steps: seq<Step>, n: nat, k: nat)
    requires n <= |steps| && k < |Run(cfg, steps[..n])| && Run(cfg, steps[..n])[k].deleted && GoodConfig(cfg)
    ensures k < |Run(cfg, steps)| && Run(cfg, steps)[k] == Run(cfg, steps[..n])[k]
    decreases |steps|
  {
    if n == |steps| {
      assert steps[..n] == steps;
    } else {
      var front := steps[..|steps| - 1];
      assert front[..n] == steps[..n];
      DeletedForGood(cfg, front, n, k);
      RunsKeepInv(cfg, front);
      GoneStaysGone(cfg, Run(cfg, front), steps[|steps| - 1], k);
    }
  }

  lemma GoneStaysGone(cfg: Config, rows: seq<Cluster>, step: Step, k: nat)
    requires GoodConfig(cfg) && k < |rows| && rows[k].deleted && Inv(cfg, rows)
    ensures k < |After(cfg, rows, step)| && After(cfg, rows, step)[k] == rows[k]
  {
    assert rows[k] in rows && rows[k].phase == Deleted;
    if !step.Create? && rows[k].id == step.id {
      GoneIsNotEdited(cfg, rows, rows[k], step);
    } else {
      OtherRowsUntouched(cfg, rows, step, k);
    }
  }

  lemma GoneIsNotEdited(cfg: Config, rows: seq<Cluster>, c: Cluster, step: Step)
    requires !step.Create? && c.phase == Deleted
    ensures NewVersion(cfg, rows, c, step).Ok? ==> NewVersion(cfg, rows, c, step).value == c
  {
  }
}
