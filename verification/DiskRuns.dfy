/** What becomes of a requested disk removal when the reconciler mounts before it releases. */
module DiskRuns {
  import opened Wrappers
  import opened Nodes
  import opened Disks
  import opened DiskRows
  import opened Quota
  import opened Admission
  import opened Orders
  import HostnameRuns

  // ---------------------------------------------------------------- a removal, then a mount

  lemma {:induction false} FoundAgain(rows: seq<Cluster>, id: string, f: Cluster)
    requires FindRowById(rows, id).Some? && f.id == id
    ensures FindRowById(rows[FindRowById(rows, id).value := f], id) == FindRowById(rows, id)
  {
    var i := FindRowById(rows, id).value;
    if i > 0 {
      assert rows[i := f][1..] == rows[1..][i - 1 := f];
      FoundAgain(rows[1..], id, f);
    }
  }

  /** The row of an editable cluster after its disk's removal was asked for. */
  lemma AfterRemoval(cfg: Config, rows: seq<Cluster>, id: string, vm: string, name: string, i: nat, k: nat)
    requires FindRowById(rows, id) == Some(i) && rows[i].phase.Editable()
    requires FindRow(rows[i].nodeDisks, vm, name) == Some(k) && name != PLATFORM_STORAGE
    ensures var now := After(cfg, rows, RemoveDisk(id, vm, name));
            && FindRowById(now, id) == Some(i) && |now| == |rows| && now[i].phase == rows[i].phase
            && now[i].nodeDisks == rows[i].nodeDisks[k := rows[i].nodeDisks[k].(phase := DiskRemoving)]
  {
    var c := rows[i];
    var f := DiskRemoved(c, vm, name).value;
    assert c.nodeDisks[k := c.nodeDisks[k]] == c.nodeDisks;
    FoundAgain(rows, id, f);
  }

  lemma AfterMount(cfg: Config, rows: seq<Cluster>, id: string, i: nat)
    requires FindRowById(rows, id) == Some(i) && rows[i].phase.Editable()
    ensures After(cfg, rows, Mount(id)) == rows[i := rows[i].(nodeDisks := Mounted(rows[i].nodeDisks))]
  {
  }

  /** In any state, for any disk a user may remove: asked for removal and then mounted, it is attached
      again exactly when its device is known, and only otherwise still on its way out. */
  lemma MountUndoesRemovalExactlyWhen(cfg: Config, rows: seq<Cluster>, id: string, vm: string, name: string, i: nat, k: nat)
    requires FindRowById(rows, id) == Some(i) && rows[i].phase.Editable()
    requires FindRow(rows[i].nodeDisks, vm, name) == Some(k) && name != PLATFORM_STORAGE
    ensures var now := After(cfg, After(cfg, rows, RemoveDisk(id, vm, name)), Mount(id));
            && |now| == |rows| && |now[i].nodeDisks| == |rows[i].nodeDisks|
            && now[i].nodeDisks[k].vmName == vm && now[i].nodeDisks[k].name == name
            && (now[i].nodeDisks[k].phase == DiskAttached <==> rows[i].nodeDisks[k].deviceID != "")
            && (now[i].nodeDisks[k].phase == DiskRemoving <==> rows[i].nodeDisks[k].deviceID == "")
  {
    AfterRemoval(cfg, rows, id, vm, name, i, k);
    AfterMount(cfg, After(cfg, rows, RemoveDisk(id, vm, name)), id, i);
  }

  // ---------------------------------------------------------------- it happens

  const POOL := NodePool("w", "small", 1, 0)
  const ORDER := Order("1", "x", "a", [POOL], "")
  const VM := "a-w-0"
  const ASKED := DiskRequest(VM, "d", 10, LONGHORN_DATA_PATH, "ext4")
  const ROW := NodeDisk(VM, "d", 10, LONGHORN_DATA_PATH, "ext4", DiskPending, "")

  /** A cluster with one worker, once it is ready. */
  function ReadyCluster(cfg: Config, p: string): Cluster {
    Placed(cfg, p, ORDER).(phase := Ready)
  }

  function WithDisk(cfg: Config, p: string, d: NodeDisk): Cluster {
    ReadyCluster(cfg, p).(nodeDisks := [d], generation := 2)
  }

  lemma OneRowStep(cfg: Config, c: Cluster, step: Step, f: Cluster)
    requires !step.Create? && step.id == c.id && NewVersion(cfg, [c], c, step) == Ok(f)
    ensures After(cfg, [c], step) == [f]
  {
    assert [c][0 := f] == [f];
  }

  lemma PoolIsFine()
    ensures PoolOK("a", POOL) && ValidPools("a", EnsureDefaultPool([POOL], "small"))
    ensures CheckPools("a", EnsureDefaultPool([POOL], "small"), {}).None?
    ensures POOL in EnsureDefaultPool([POOL], "small")
  {
    assert |POOL.name| == 1 && IsLabel(POOL.name);
    assert POOL.name != CONTROL_PLANE_INFIX by {
      assert |CONTROL_PLANE_INFIX| == 2;
    }
    assert PoolOK("a", POOL);
    HostnameRuns.OrderWithPool("a", POOL);
  }

  lemma {:induction false} PoolsWorkers(cluster: string, pools: seq<NodePool>, p: NodePool, i: nat)
    requires p in pools && i < p.desiredWorkers
    ensures PoolNode(cluster, p, i) in AllWorkers(cluster, pools)
  {
    if pools[0] == p {
      assert PoolNodes(cluster, p)[i] == PoolNode(cluster, p, i);
    } else {
      assert p in pools[1..];
      PoolsWorkers(cluster, pools[1..], p, i);
    }
  }

  lemma VMIsAWorker(cfg: Config, p: string)
    ensures VM in WorkerNames(ReadyCluster(cfg, p))
  {
    PoolIsFine();
    var c := ReadyCluster(cfg, p);
    PoolsWorkers(c.name, c.nodePools, POOL, 0);
    assert PoolNode("a", POOL, 0).vmName == "a" + "-" + "w" + "-" + "0" == VM;
  }

  lemma DiskRequestIsFine(cfg: Config, p: string)
    ensures CheckUserDiskName("d").None? && NewRow(ASKED) == ROW
    ensures CheckDisks(WorkerNames(ReadyCluster(cfg, p)), [], [ROW]).None?
  {
    var c := ReadyCluster(cfg, p);
    PoolIsFine();
    VMIsAWorker(cfg, p);
    LonghornPathIsUsable();
    assert |"d"| == 1 && IsLabel("d") && |PLATFORM_STORAGE| == 7;
    assert DiskOK(WorkerNames(c), ROW);
    assert [ROW][1..] == [];
    assert forall vm :: CountOn([ROW], vm) <= 1;
    ValidationIsExact(c, [ROW]);
  }

  lemma DiskIsAffordable(cfg: Config, p: string, e: Cluster)
    requires p !in cfg.ceilings && e.InfraProvider() == p
    ensures EditError(cfg, [e.(nodeDisks := [], generation := 1)], e, cfg.price(e)).None?
  {
    var c := e.(nodeDisks := [], generation := 1);
    assert [c][..0] == [];
    OwnedByMembers([c], e.owner);
    OnProviderMembers(OwnedBy([c], e.owner), p);
    ExceptMembers(OnProvider(OwnedBy([c], e.owner), p), e.id);
    EmptyOrNot(Except(OnProvider(OwnedBy([c], e.owner), p), e.id));
    JustEnough(cfg, Others([c], p, e.id), e);
  }

  lemma EmptyOrNot(rows: seq<Cluster>)
    ensures rows == [] || exists c :: c in rows
  {
    if rows != [] {
      assert rows[0] in rows;
    }
  }

  lemma DiskIsAdded(cfg: Config, p: string)
    requires Offers(cfg, p) && p !in cfg.ceilings
    ensures DiskAdded(cfg, [ReadyCluster(cfg, p)], ReadyCluster(cfg, p), ASKED,
                      cfg.price(ReadyCluster(cfg, p).(nodeDisks := [ROW])))
         == Ok(WithDisk(cfg, p, ROW))
  {
    var c := ReadyCluster(cfg, p);
    var e := c.(nodeDisks := [ROW]);
    DiskRequestIsFine(cfg, p);
    OrderedIsBlank(cfg, p, ORDER, Least());
    assert c.nodeDisks + [ROW] == [ROW];
    assert WorkerNames(e) == WorkerNames(c);
    assert e.(nodeDisks := [], generation := 1) == c;
    DiskIsAffordable(cfg, p, e);
  }

  /** Created, then ready. */
  function UntilReady(cfg: Config, p: string): seq<Step> {
    [] + [Create(Affordably(cfg, p, ORDER))] + [Advance("1", Ready)]
  }

  /** Then given a disk, and the disk's device reported. */
  function UntilAttached(cfg: Config, p: string): seq<Step> {
    UntilReady(cfg, p)
    + [AddDisk("1", ASKED, cfg.price(ReadyCluster(cfg, p).(nodeDisks := [ROW])))]
    + [Observe("1", map[VM := map["d" := "wwn"]])]
  }

  lemma RunOnOneRow(cfg: Config, steps: seq<Step>, step: Step, c: Cluster, f: Cluster)
    requires Run(cfg, steps) == [c] && !step.Create? && step.id == c.id && NewVersion(cfg, [c], c, step) == Ok(f)
    ensures Run(cfg, steps + [step]) == [f]
  {
    RunOneMore(cfg, steps, step);
    OneRowStep(cfg, c, step, f);
  }

  lemma OrderIsStored(cfg: Config, p: string)
    requires Offers(cfg, p) && p !in cfg.sharedNet && p !in cfg.ceilings
    ensures Run(cfg, [] + [Create(Affordably(cfg, p, ORDER))]) == [Placed(cfg, p, ORDER)]
  {
    PoolIsFine();
    assert Welcome(cfg, [], p, ORDER);
    AfterOrder(cfg, [], p, ORDER);
    RunOneMore(cfg, [], Create(Affordably(cfg, p, ORDER)));
    assert [] + [Placed(cfg, p, ORDER)] == [Placed(cfg, p, ORDER)];
  }

  lemma ClusterIsReady(cfg: Config, p: string)
    requires Offers(cfg, p) && p !in cfg.sharedNet && p !in cfg.ceilings
    ensures Run(cfg, UntilReady(cfg, p)) == [ReadyCluster(cfg, p)]
  {
    OrderIsStored(cfg, p);
    RunOnOneRow(cfg, [] + [Create(Affordably(cfg, p, ORDER))], Advance("1", Ready), Placed(cfg, p, ORDER), ReadyCluster(cfg, p));
  }

  lemma DiskIsThere(cfg: Config, p: string, steps: seq<Step>)
    requires Offers(cfg, p) && p !in cfg.ceilings && Run(cfg, steps) == [ReadyCluster(cfg, p)]
    ensures Run(cfg, steps + [AddDisk("1", ASKED, cfg.price(ReadyCluster(cfg, p).(nodeDisks := [ROW])))]) == [WithDisk(cfg, p, ROW)]
  {
    DiskIsAdded(cfg, p);
    RunOnOneRow(cfg, steps, AddDisk("1", ASKED, cfg.price(ReadyCluster(cfg, p).(nodeDisks := [ROW]))),
                ReadyCluster(cfg, p), WithDisk(cfg, p, ROW));
  }

  lemma DeviceIsSeen(cfg: Config, p: string, steps: seq<Step>)
    requires Run(cfg, steps) == [WithDisk(cfg, p, ROW)]
    ensures Run(cfg, steps + [Observe("1", map[VM := map["d" := "wwn"]])]) == [WithDisk(cfg, p, ROW.(deviceID := "wwn"))]
  {
    var report := map[VM := map["d" := "wwn"]];
    assert Observed([ROW], report) == [ROW.(deviceID := "wwn")];
    RunOnOneRow(cfg, steps, Observe("1", report), WithDisk(cfg, p, ROW), WithDisk(cfg, p, ROW.(deviceID := "wwn")));
  }

  lemma DeviceIsKnown(cfg: Config, p: string)
    requires Offers(cfg, p) && p !in cfg.sharedNet && p !in cfg.ceilings
    ensures Run(cfg, UntilAttached(cfg, p)) == [WithDisk(cfg, p, ROW.(deviceID := "wwn"))]
  {
    ClusterIsReady(cfg, p);
    DiskIsThere(cfg, p, UntilReady(cfg, p));
    DeviceIsSeen(cfg, p, UntilReady(cfg, p) + [AddDisk("1", ASKED, cfg.price(ReadyCluster(cfg, p).(nodeDisks := [ROW])))]);
  }

  /** A run in which a user's removal is accepted and the disk is in service afterwards. */
  lemma RemovalForgotten(cfg: Config, p: string)
    requires Offers(cfg, p) && p !in cfg.sharedNet && p !in cfg.ceilings
    ensures var rows := Run(cfg, UntilAttached(cfg, p) + [RemoveDisk("1", VM, "d"), Mount("1")]);
            && |rows| == 1 && |rows[0].nodeDisks| == 1
            && rows[0].nodeDisks[0].name == "d" && rows[0].nodeDisks[0].phase == DiskAttached
  {
    var steps, x, y := UntilAttached(cfg, p), RemoveDisk("1", VM, "d"), Mount("1");
    DeviceIsKnown(cfg, p);
    var rows := Run(cfg, steps);
    assert |PLATFORM_STORAGE| == 7;
    assert FindRowById(rows, "1") == Some(0) && FindRow(rows[0].nodeDisks, VM, "d") == Some(0);
    MountUndoesRemovalExactlyWhen(cfg, rows, "1", VM, "d", 0, 0);
    RunOneMore(cfg, steps, x);
    RunOneMore(cfg, steps + [x], y);
    assert steps + [x] + [y] == steps + [x, y];
  }
}
