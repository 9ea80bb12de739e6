/** Whether the nodes of a reachable cluster have names a host can carry. */
module HostnameRuns {
  import opened Wrappers
  import opened Text
  import opened Nodes
  import opened Admission
  import opened AdmissionRuns
  import opened TenantGuarantees
  import opened Orders

  /** Room for the default pool, which every cluster is created with, is room for control planes. */
  predicate RoomForDefault(c: Cluster) {
    |c.name| + |DEFAULT_POOL| + |"--999"| <= MAX_HOSTNAME_LEN
  }

  lemma CreatedPasses(cfg: Config, rows: seq<Cluster>, req: CreateRequest, e: Cluster)
    requires Created(cfg, rows, req) == Ok(e)
    ensures e.name == req.name && ValidPools(req.name, EnsureDefaultPool(req.nodePools, EffectiveSize(req)))
  {
    var blank := Blank(req, ResolveProvider(cfg, req.provider).value, StorageSize(req).value);
    AdmittedIdentity(cfg, rows, req, blank, e);
    CheckPoolsMeaning(req.name, blank.nodePools, {});
  }

  lemma CreatedHasRoom(cfg: Config, rows: seq<Cluster>, req: CreateRequest, e: Cluster)
    requires Created(cfg, rows, req) == Ok(e)
    ensures RoomForDefault(e)
  {
    CreatedPasses(cfg, rows, req, e);
    DefaultHasRoom(req.name, EnsureDefaultPool(req.nodePools, EffectiveSize(req)), EffectiveSize(req), req.nodePools);
  }

  lemma DefaultHasRoom(name: string, pools: seq<NodePool>, size: string, asked: seq<NodePool>)
    requires ValidPools(name, pools) && pools == EnsureDefaultPool(asked, size)
    ensures |name| + |DEFAULT_POOL| + |"--999"| <= MAX_HOSTNAME_LEN
  {
    DefaultIsAmong(asked, size);
    var p :| p in pools && p.name == DEFAULT_POOL;
    assert PoolOK(name, p);
  }

  lemma DefaultIsAmong(pools: seq<NodePool>, size: string)
    ensures HasPool(EnsureDefaultPool(pools, size), DEFAULT_POOL)
  {
    assert NodePool(DEFAULT_POOL, size, 0, 0) in [NodePool(DEFAULT_POOL, size, 0, 0)] + pools;
  }

  lemma StepKeepsRoom(cfg: Config, rows: seq<Cluster>, step: Step)
    requires forall c | c in rows :: RoomForDefault(c)
    ensures forall c | c in After(cfg, rows, step) :: RoomForDefault(c)
  {
    if Outcome(cfg, rows, step).Ok? {
      if step.Create? {
        CreatedHasRoom(cfg, rows, step.req, Created(cfg, rows, step.req).value);
      } else {
        var i := FindRowById(rows, step.id).value;
        VersionsKeepIdentity(cfg, rows, rows[i], step, NewVersion(cfg, rows, rows[i], step).value);
        assert rows[i] in rows;
      }
    }
  }

  lemma {:induction false} RunsKeepRoom(cfg: Config, steps: seq<Step>)
    ensures forall c | c in Run(cfg, steps) :: RoomForDefault(c)
  {
    if steps != [] {
      RunsKeepRoom(cfg, steps[..|steps| - 1]);
      StepKeepsRoom(cfg, Run(cfg, steps[..|steps| - 1]), steps[|steps| - 1]);
    }
  }

  predicate Fits(n: DesiredNode) {
    |n.vmName| <= MAX_HOSTNAME_LEN
  }

  predicate LastFits(cluster: string, p: NodePool) {
    p.desiredWorkers <= 0 || |cluster| + |p.name| + 2 + |Itoa(p.desiredWorkers - 1)| <= MAX_HOSTNAME_LEN
  }

  lemma ControlPlanesFit(c: Cluster)
    requires RoomForDefault(c) && c.ControlPlaneCount() <= 1000
    ensures forall n | n in ControlPlaneNodes(c.name, c.size, c.ControlPlaneCount()) :: Fits(n)
  {
    forall i: nat | i < c.ControlPlaneCount()
      ensures Fits(ControlPlaneNode(c.name, c.size, i))
    {
      ItoaShort(i);
    }
  }

  lemma PoolFits(cluster: string, p: NodePool)
    requires PoolOK(cluster, p)
    ensures (forall n | n in PoolNodes(cluster, p) :: Fits(n)) <==> LastFits(cluster, p)
  {
    HostnamesFit(cluster, p);
    PoolMembers(cluster, p);
  }

  lemma PoolMembers(cluster: string, p: NodePool)
    ensures (forall n | n in PoolNodes(cluster, p) :: Fits(n))
       <==> forall i | 0 <= i < p.desiredWorkers :: |VMName(cluster, p.name, i)| <= MAX_HOSTNAME_LEN
  {
    var ns := PoolNodes(cluster, p);
    assert forall i | 0 <= i < p.desiredWorkers :: ns[i] in ns && ns[i].vmName == VMName(cluster, p.name, i);
  }

  lemma {:induction false} WorkersFit(cluster: string, pools: seq<NodePool>)
    requires forall p | p in pools :: PoolOK(cluster, p)
    ensures (forall n | n in AllWorkers(cluster, pools) :: Fits(n)) <==> forall p | p in pools :: LastFits(cluster, p)
  {
    if pools != [] {
      var here, rest := PoolNodes(cluster, pools[0]), AllWorkers(cluster, pools[1..]);
      PoolFits(cluster, pools[0]);
      WorkersFit(cluster, pools[1..]);
      assert pools == [pools[0]] + pools[1..];
      assert forall n :: n in AllWorkers(cluster, pools) <==> n in here || n in rest;
    }
  }

  /** In every reachable state the control planes have usable hostnames, and all the nodes do exactly
      when the last worker of each pool does. */
  lemma EveryHostnameFits(cfg: Config, steps: seq<Step>, c: Cluster)
    requires GoodConfig(cfg) && c in Run(cfg, steps)
    ensures forall n | n in ControlPlaneNodes(c.name, c.size, c.ControlPlaneCount()) :: Fits(n)
    ensures (forall n | n in DesiredNodes(c) :: Fits(n)) <==> forall p | p in c.nodePools :: LastFits(c.name, p)
  {
    RunsKeepInv(cfg, steps);
    RunsKeepRoom(cfg, steps);
    assert RowInv(cfg, c);
    ControlPlanesFit(c);
    WorkersFit(c.name, c.nodePools);
  }

  // ---------------------------------------------------------------- a pool that does not fit

  lemma OrderWithPool(name: string, pool: NodePool)
    requires PoolOK(name, pool) && |name| + |DEFAULT_POOL| + |"--999"| <= MAX_HOSTNAME_LEN
    ensures pool in EnsureDefaultPool([pool], "small")
    ensures ValidPools(name, EnsureDefaultPool([pool], "small"))
    ensures CheckPools(name, EnsureDefaultPool([pool], "small"), {}).None?
  {
    var pools := EnsureDefaultPool([pool], "small");
    DefaultPoolIsFine(name);
    CheckPoolsMeaning(name, EnsureDefaultPool([], "small"), {});
    assert EnsureDefaultPool([], "small")[0] == NodePool(DEFAULT_POOL, "small", 0, 0);
    assert pools == [pool] || pools == [NodePool(DEFAULT_POOL, "small", 0, 0), pool];
    if pool.name != DEFAULT_POOL {
      assert [pool][0] == pool;
    } else {
      assert pool in [pool];
    }
    assert pools[|pools| - 1] == pool;
    CheckPoolsMeaning(name, pools, {});
  }

  /** Whatever pool the length check lets through is accepted, with as many workers as asked for, and
      if its last worker does not fit then the run has a node that no host can be named after. */
  lemma UnfitPoolIsAccepted(cfg: Config, p: string, name: string, pool: NodePool)
    requires Offers(cfg, p) && p !in cfg.sharedNet && p !in cfg.ceilings
    requires name != "" && PoolOK(name, pool) && |name| + |DEFAULT_POOL| + |"--999"| <= MAX_HOSTNAME_LEN
    requires !LastFits(name, pool)
    ensures var c := Placed(cfg, p, Order("1", "x", name, [pool], ""));
            && Run(cfg, [Create(Affordably(cfg, p, Order("1", "x", name, [pool], "")))]) == [c]
            && exists n | n in DesiredNodes(c) :: !Fits(n)
  {
    var o := Order("1", "x", name, [pool], "");
    var c := Placed(cfg, p, o);
    OrderWithPool(name, pool);
    assert Welcome(cfg, [], p, o);
    AfterOrder(cfg, [], p, o);
    assert [] + [Create(Affordably(cfg, p, o))] == [Create(Affordably(cfg, p, o))] && [] + [c] == [c];
    RunOneMore(cfg, [], Create(Affordably(cfg, p, o)));
    assert forall q | q in c.nodePools :: PoolOK(c.name, q);
    WorkersFit(name, c.nodePools);
    var n :| n in AllWorkers(name, c.nodePools) && !Fits(n);
    assert n in DesiredNodes(c);
  }

  /** The shortest overflow: 58 characters of names are accepted, and the 1001st worker's does not fit. */
  lemma WorkerThousandAndOne(name: string, pool: NodePool)
    requires |name| + |pool.name| == 58 && pool.desiredWorkers == 1001
    ensures !LastFits(name, pool) && LastFits(name, pool.(desiredWorkers := 1000))
  {
    ItoaShort(100);
    assert |Itoa(1000)| == |Itoa(100)| + 1;
    assert |Itoa(100)| == |Itoa(10)| + 1 && |Itoa(10)| == |Itoa(1)| + 1;
    ItoaShort(999);
  }
}
