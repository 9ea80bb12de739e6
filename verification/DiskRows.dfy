/** How the list of extra disks moves: pruning and storage disks at admission
    (internal/app/app.go, internal/app/storage.go), and the reconciler's own steps
    (internal/reconcile/reconcile.go). One invariant is kept by all of them. */
module DiskRows {
  import opened Wrappers
  import opened Roles
  import opened Nodes
  import opened Disks

  // ---------------------------------------------------------------- pruning

  /** The rows that f selects, in their old order. */
  function Rows(f: NodeDisk -> bool, disks: seq<NodeDisk>): seq<NodeDisk> {
    if disks == [] then []
    else
      var d := disks[|disks| - 1];
      Rows(f, disks[..|disks| - 1]) + (if f(d) then [d] else [])
  }

  function OnVMs(vms: set<string>): NodeDisk -> bool {
    (d: NodeDisk) => d.vmName in vms
  }

  function Keep(disks: seq<NodeDisk>, vms: set<string>): seq<NodeDisk> {
    Rows(OnVMs(vms), disks)
  }

  method DisksOnDesiredNodes(c: Cluster) returns (kept: seq<NodeDisk>)
    ensures kept == Keep(c.nodeDisks, NameSet(c))
  {
    var nodes := ListDesiredNodes(c);
    var desired: set<string> := {};
    for i := 0 to |nodes|
      invariant desired == set n | n in nodes[..i] :: n.vmName
    {
      assert nodes[..i + 1] == nodes[..i] + [nodes[i]];
      desired := desired + {nodes[i].vmName};
    }
    assert nodes[..|nodes|] == nodes;
    kept := [];
    for i := 0 to |c.nodeDisks|
      invariant kept == Keep(c.nodeDisks[..i], desired)
    {
      assert c.nodeDisks[..i + 1][..i] == c.nodeDisks[..i];
      if c.nodeDisks[i].vmName in desired {
        kept := kept + [c.nodeDisks[i]];
      }
    }
    assert c.nodeDisks[..|c.nodeDisks|] == c.nodeDisks;
  }

  // ---------------------------------------------------------------- the platform's storage disks

  function StorageDisk(c: Cluster, vm: string): NodeDisk {
    NodeDisk(vm, PLATFORM_STORAGE, c.storageDiskGB, LONGHORN_DATA_PATH, "ext4", DiskPending, "")
  }

  function DesiredStorageDisks(c: Cluster): (want: seq<NodeDisk>)
    ensures c.storageDiskGB > 0 ==> |want| == |AllWorkers(c.name, c.nodePools)|
  {
    if c.storageDiskGB <= 0 then []
    else
      var ws := AllWorkers(c.name, c.nodePools);
      seq(|ws|, i requires 0 <= i < |ws| => StorageDisk(c, ws[i].vmName))
  }

  function KeysOf(disks: seq<NodeDisk>): set<string> {
    set d | d in disks :: DiskKey(d.vmName, d.name)
  }

  /** The wanted rows whose key is not there yet. */
  function MissingRows(want: seq<NodeDisk>, have: set<string>): seq<NodeDisk> {
    if want == [] then []
    else
      var d := want[|want| - 1];
      MissingRows(want[..|want| - 1], have) + (if DiskKey(d.vmName, d.name) !in have then [d] else [])
  }

  function Synced(c: Cluster): seq<NodeDisk> {
    c.nodeDisks + MissingRows(DesiredStorageDisks(c), KeysOf(c.nodeDisks))
  }

  method BuildStorageDisks(c: Cluster) returns (out: seq<NodeDisk>)
    ensures out == DesiredStorageDisks(c)
  {
    out := [];
    if c.storageDiskGB <= 0 {
      return;
    }
    var nodes := ListDesiredNodes(c);
    ghost var cps := ControlPlaneNodes(c.name, c.size, c.ControlPlaneCount());
    ghost var ws := AllWorkers(c.name, c.nodePools);
    AllWorkersAreWorkers(c.name, c.nodePools);
    for i := 0 to |nodes|
      invariant out == DesiredStorageDisks(c)[..Max(0, i - |cps|)]
    {
      if i >= |cps| {
        assert nodes[i] == ws[i - |cps|] && ws[i - |cps|] in ws;
      }
      if nodes[i].role == Worker {
        out := out + [StorageDisk(c, nodes[i].vmName)];
      }
    }
  }

  method SyncStorageDisks(c: Cluster) returns (out: seq<NodeDisk>)
    ensures out == Synced(c)
  {
    var have: set<string> := {};
    for i := 0 to |c.nodeDisks|
      invariant have == KeysOf(c.nodeDisks[..i])
    {
      assert c.nodeDisks[..i + 1] == c.nodeDisks[..i] + [c.nodeDisks[i]];
      have := have + {DiskKey(c.nodeDisks[i].vmName, c.nodeDisks[i].name)};
    }
    assert c.nodeDisks[..|c.nodeDisks|] == c.nodeDisks;
    var want := BuildStorageDisks(c);
    out := c.nodeDisks;
    for i := 0 to |want|
      invariant out == c.nodeDisks + MissingRows(want[..i], have)
    {
      assert want[..i + 1][..i] == want[..i];
      if DiskKey(want[i].vmName, want[i].name) !in have {
        out := out + [want[i]];
      }
    }
    assert want[..|want|] == want;
  }

  // ---------------------------------------------------------------- the invariant

  predicate IsStorageRow(d: NodeDisk, vm: string) {
    d.vmName == vm && d.name == PLATFORM_STORAGE
  }

  predicate HasStorage(disks: seq<NodeDisk>, vm: string) {
    exists d | d in disks :: IsStorageRow(d, vm)
  }

  /** Rows by the reserved name are the platform's own, and never on their way out. */
  predicate StorageRowsOK(c: Cluster) {
    forall d | d in c.nodeDisks && d.name == PLATFORM_STORAGE ::
      c.storageDiskGB > 0 && d.sizeGB == c.storageDiskGB && d.mountPath == LONGHORN_DATA_PATH && d.phase != DiskRemoving
  }

  /** The list passes validation; every desired worker has its storage disk if the cluster has
      storage at all, and nothing uses the reserved name otherwise. */
  ghost predicate DisksInv(c: Cluster) {
    && ValidDisks(WorkerNames(c), c.nodeDisks)
    && StorageRowsOK(c)
    && (c.storageDiskGB > 0 ==> SizeOK(c.storageDiskGB) && forall vm | vm in WorkerNames(c) :: HasStorage(c.nodeDisks, vm))
  }

  function CountStorage(disks: seq<NodeDisk>, vm: string): nat {
    if disks == [] then 0
    else CountStorage(disks[..|disks| - 1], vm) + (if IsStorageRow(disks[|disks| - 1], vm) then 1 else 0)
  }

  lemma {:induction false} StorageCounted(disks: seq<NodeDisk>, vm: string)
    requires AllCompatible(disks)
    ensures CountStorage(disks, vm) == if HasStorage(disks, vm) then 1 else 0
  {
    if disks != [] {
      var front, d := disks[..|disks| - 1], disks[|disks| - 1];
      assert disks == front + [d];
      CompatibleSnoc(front, d);
      StorageCounted(front, vm);
      assert d in disks;
      assert HasStorage(disks, vm) <==> HasStorage(front, vm) || IsStorageRow(d, vm) by {
        if HasStorage(front, vm) {
          var e :| e in front && IsStorageRow(e, vm);
          assert e in disks;
        }
      }
      assert forall e | e in front && IsStorageRow(e, vm) :: Compatible(e, d) && !IsStorageRow(d, vm);
    }
  }

  /** Exactly one storage disk per desired worker, or none anywhere. */
  lemma OneStorageDiskPerWorker(c: Cluster, vm: string)
    requires DisksInv(c)
    ensures vm in WorkerNames(c) && c.storageDiskGB > 0 ==> CountStorage(c.nodeDisks, vm) == 1
    ensures vm !in WorkerNames(c) || c.storageDiskGB <= 0 ==> CountStorage(c.nodeDisks, vm) == 0
  {
    StorageCounted(c.nodeDisks, vm);
  }

  // ---------------------------------------------------------------- pruning keeps it

  lemma {:induction false} RowsMembers(f: NodeDisk -> bool, disks: seq<NodeDisk>)
    ensures forall d :: d in Rows(f, disks) <==> d in disks && f(d)
  {
    if disks != [] {
      var front, d := disks[..|disks| - 1], disks[|disks| - 1];
      assert disks == front + [d];
      RowsMembers(f, front);
    }
  }

  lemma {:induction false} RowsCount(f: NodeDisk -> bool, disks: seq<NodeDisk>, vm: string)
    ensures CountOn(Rows(f, disks), vm) <= CountOn(disks, vm)
  {
    if disks != [] {
      var front, d := disks[..|disks| - 1], disks[|disks| - 1];
      RowsCount(f, front, vm);
      CountSnoc(Rows(f, front), d, vm);
      assert Rows(f, front) + [] == Rows(f, front);
    }
  }

  lemma {:induction false} RowsCompatible(f: NodeDisk -> bool, disks: seq<NodeDisk>)
    requires AllCompatible(disks)
    ensures AllCompatible(Rows(f, disks))
  {
    if disks != [] {
      var front, d := disks[..|disks| - 1], disks[|disks| - 1];
      assert disks == front + [d];
      CompatibleSnoc(front, d);
      RowsCompatible(f, front);
      RowsMembers(f, front);
      CompatibleSnoc(Rows(f, front), d);
    }
  }

  /** Dropping rows keeps a list valid, as long as those kept sit on workers. */
  lemma RowsKeepValid(workers: set<string>, now: set<string>, f: NodeDisk -> bool, disks: seq<NodeDisk>)
    requires ValidDisks(workers, disks)
    requires forall d | d in disks && f(d) :: d.vmName in now
    ensures ValidDisks(now, Rows(f, disks))
  {
    RowsMembers(f, disks);
    RowsCompatible(f, disks);
    forall vm
      ensures CountOn(Rows(f, disks), vm) <= MAX_DISKS_PER_NODE
    {
      RowsCount(f, disks, vm);
    }
  }

  /** A name that was a worker's and is still desired is still a worker's. */
  lemma WorkersStayWorkers(c: Cluster, want: seq<NodePool>, vm: string)
    requires ValidPools(c.name, c.nodePools) && ValidPools(c.name, want)
    requires vm in WorkerNames(c) && vm in NameSet(c.(nodePools := want))
    ensures vm in WorkerNames(c.(nodePools := want))
  {
    var e := c.(nodePools := want);
    var pool, i := WorkerNameShape(c, vm);
    var n :| n in DesiredNodes(e) && n.vmName == vm;
    if n !in AllWorkers(e.name, e.nodePools) {
      var cps := ControlPlaneNodes(e.name, e.size, e.ControlPlaneCount());
      assert n in cps;
      var k :| 0 <= k < |cps| && cps[k] == n;
      VMNameInjective(c.name, pool, i, CONTROL_PLANE_INFIX, k);
      assert false;
    }
  }

  lemma PruneKeepsValid(c: Cluster, want: seq<NodePool>)
    requires ValidPools(c.name, c.nodePools) && ValidPools(c.name, want)
    requires ValidDisks(WorkerNames(c), c.nodeDisks)
    ensures var e := c.(nodePools := want);
            ValidDisks(WorkerNames(e), Keep(c.nodeDisks, NameSet(e)))
  {
    var e := c.(nodePools := want);
    forall d | d in c.nodeDisks && OnVMs(NameSet(e))(d)
      ensures d.vmName in WorkerNames(e)
    {
      assert DiskOK(WorkerNames(c), d);
      WorkersStayWorkers(c, want, d.vmName);
    }
    RowsKeepValid(WorkerNames(c), WorkerNames(e), OnVMs(NameSet(e)), c.nodeDisks);
  }

  // ---------------------------------------------------------------- adding storage disks keeps it

  lemma {:induction false} MissingRowsMeaning(want: seq<NodeDisk>, have: set<string>)
    ensures forall d :: d in MissingRows(want, have) <==> d in want && DiskKey(d.vmName, d.name) !in have
  {
    if want != [] {
      var front, d := want[..|want| - 1], want[|want| - 1];
      assert want == front + [d];
      MissingRowsMeaning(front, have);
    }
  }

  /** A worker that lacks its storage disk has no disk at all. */
  ghost predicate BareOrStored(c: Cluster) {
    c.storageDiskGB > 0 ==>
      SizeOK(c.storageDiskGB)
      && forall vm | vm in WorkerNames(c) :: HasStorage(c.nodeDisks, vm) || CountOn(c.nodeDisks, vm) == 0
  }

  lemma KeyMeansStorage(c: Cluster, vm: string)
    requires KeysDecode(WorkerNames(c)) && ValidDisks(WorkerNames(c), c.nodeDisks)
    requires vm in WorkerNames(c)
    ensures DiskKey(vm, PLATFORM_STORAGE) in KeysOf(c.nodeDisks) <==> HasStorage(c.nodeDisks, vm)
  {
    if DiskKey(vm, PLATFORM_STORAGE) in KeysOf(c.nodeDisks) {
      var d :| d in c.nodeDisks && DiskKey(d.vmName, d.name) == DiskKey(vm, PLATFORM_STORAGE);
      assert IsStorageRow(d, vm);
    }
    if HasStorage(c.nodeDisks, vm) {
      var d :| d in c.nodeDisks && IsStorageRow(d, vm);
      assert DiskKey(d.vmName, d.name) == DiskKey(vm, PLATFORM_STORAGE);
    }
  }

  lemma {:induction false} NoRowsWhenUncounted(disks: seq<NodeDisk>, vm: string)
    requires CountOn(disks, vm) == 0
    ensures forall d | d in disks :: d.vmName != vm
  {
    if disks != [] {
      var front := disks[..|disks| - 1];
      assert disks == front + [disks[|disks| - 1]];
      NoRowsWhenUncounted(front, vm);
    }
  }

  /** No two rows on one VM. */
  predicate DistinctVMs(disks: seq<NodeDisk>) {
    disks == []
    || (DistinctVMs(disks[..|disks| - 1])
        && forall e | e in disks[..|disks| - 1] :: e.vmName != disks[|disks| - 1].vmName)
  }

  lemma {:induction false} UncountedWhenNoRows(disks: seq<NodeDisk>, vm: string)
    requires forall d | d in disks :: d.vmName != vm
    ensures CountOn(disks, vm) == 0
  {
    if disks != [] {
      assert disks[|disks| - 1] in disks;
      UncountedWhenNoRows(disks[..|disks| - 1], vm);
    }
  }

  /** New rows, one each for VMs that have none, keep a valid list valid. */
  lemma {:induction false} AppendToBareVMs(workers: set<string>, base: seq<NodeDisk>, added: seq<NodeDisk>)
    requires ValidDisks(workers, base) && DistinctVMs(added)
    requires forall d | d in added :: DiskOK(workers, d) && CountOn(base, d.vmName) == 0
    ensures ValidDisks(workers, base + added)
  {
    if added == [] {
      assert base + added == base;
    } else {
      var front, d := added[..|added| - 1], added[|added| - 1];
      assert d in added && forall e | e in front :: e in added;
      AppendToBareVMs(workers, base, front);
      NoRowsWhenUncounted(base, d.vmName);
      UncountedWhenNoRows(base + front, d.vmName);
      ValidSnoc(workers, base + front, d);
      assert base + added == base + front + [d];
    }
  }

  lemma {:induction false} MissingDistinct(want: seq<NodeDisk>, have: set<string>)
    requires DistinctVMs(want)
    ensures DistinctVMs(MissingRows(want, have))
  {
    if want != [] {
      var front, d := want[..|want| - 1], want[|want| - 1];
      MissingDistinct(front, have);
      MissingRowsMeaning(front, have);
      var kept := MissingRows(front, have);
      assert (kept + [d])[..|kept|] == kept;
      assert kept + [] == kept;
    }
  }

  lemma {:induction false} WantedDistinct(c: Cluster, k: nat)
    requires ValidPools(c.name, c.nodePools) && k <= |DesiredStorageDisks(c)|
    ensures DistinctVMs(DesiredStorageDisks(c)[..k])
  {
    if k > 0 {
      var want, ws := DesiredStorageDisks(c), AllWorkers(c.name, c.nodePools);
      WantedDistinct(c, k - 1);
      WorkersDistinct(c.name, c.nodePools);
      assert want[..k][..k - 1] == want[..k - 1];
      forall e | e in want[..k - 1]
        ensures e.vmName != want[k - 1].vmName
      {
        var i :| 0 <= i < k - 1 && want[i] == e;
        assert ws[i].vmName != ws[k - 1].vmName;
      }
    }
  }

  lemma AddedRowsAreFine(c: Cluster, d: NodeDisk)
    requires ValidPools(c.name, c.nodePools) && ValidDisks(WorkerNames(c), c.nodeDisks)
    requires BareOrStored(c) && d in MissingRows(DesiredStorageDisks(c), KeysOf(c.nodeDisks))
    ensures DiskOK(WorkerNames(c), d) && CountOn(c.nodeDisks, d.vmName) == 0
    ensures c.storageDiskGB > 0 && d == StorageDisk(c, d.vmName)
  {
    var want := DesiredStorageDisks(c);
    MissingRowsMeaning(want, KeysOf(c.nodeDisks));
    var i :| 0 <= i < |want| && want[i] == d;
    assert AllWorkers(c.name, c.nodePools)[i] in AllWorkers(c.name, c.nodePools);
    WorkerKeysDecode(c);
    KeyMeansStorage(c, d.vmName);
    LonghornPathIsUsable();
  }

  lemma SyncKeepsValid(c: Cluster)
    requires ValidPools(c.name, c.nodePools) && ValidDisks(WorkerNames(c), c.nodeDisks)
    requires BareOrStored(c)
    ensures ValidDisks(WorkerNames(c), Synced(c))
  {
    var want, have := DesiredStorageDisks(c), KeysOf(c.nodeDisks);
    WantedDistinct(c, |want|);
    assert want[..|want|] == want;
    MissingDistinct(want, have);
    forall d | d in MissingRows(want, have)
      ensures DiskOK(WorkerNames(c), d) && CountOn(c.nodeDisks, d.vmName) == 0
    {
      AddedRowsAreFine(c, d);
    }
    AppendToBareVMs(WorkerNames(c), c.nodeDisks, MissingRows(want, have));
  }

  lemma SyncStores(c: Cluster, vm: string)
    requires ValidPools(c.name, c.nodePools) && ValidDisks(WorkerNames(c), c.nodeDisks)
    requires c.storageDiskGB > 0 && vm in WorkerNames(c)
    ensures HasStorage(Synced(c), vm)
  {
    var want, have, ws := DesiredStorageDisks(c), KeysOf(c.nodeDisks), AllWorkers(c.name, c.nodePools);
    if HasStorage(c.nodeDisks, vm) {
      var d :| d in c.nodeDisks && IsStorageRow(d, vm);
      assert d in Synced(c);
    } else {
      WorkerKeysDecode(c);
      KeyMeansStorage(c, vm);
      MissingRowsMeaning(want, have);
      var n :| n in ws && n.vmName == vm;
      var i :| 0 <= i < |ws| && ws[i] == n;
      assert want[i] in want;
      assert want[i] in Synced(c) && IsStorageRow(want[i], vm);
    }
  }

  /** Give every bare worker its storage disk and the whole invariant holds. */
  lemma SyncEstablishes(c: Cluster)
    requires ValidPools(c.name, c.nodePools) && ValidDisks(WorkerNames(c), c.nodeDisks)
    requires StorageRowsOK(c) && BareOrStored(c)
    ensures DisksInv(c.(nodeDisks := Synced(c)))
  {
    var e := c.(nodeDisks := Synced(c));
    SyncKeepsValid(c);
    forall vm | vm in WorkerNames(c) && c.storageDiskGB > 0
      ensures HasStorage(e.nodeDisks, vm)
    {
      SyncStores(c, vm);
    }
    forall d | d in e.nodeDisks && d !in c.nodeDisks
      ensures c.storageDiskGB > 0 && d == StorageDisk(c, d.vmName)
    {
      AddedRowsAreFine(c, d);
    }
  }

  // ---------------------------------------------------------------- a pool edit

  /** The disk list a pool edit stores: the survivors, then storage disks for the new workers. */
  function EditedDisks(c: Cluster, want: seq<NodePool>): seq<NodeDisk> {
    var e := c.(nodePools := want);
    Synced(e.(nodeDisks := Keep(c.nodeDisks, NameSet(e))))
  }

  lemma EditKeepsDisks(c: Cluster, want: seq<NodePool>)
    requires ValidPools(c.name, c.nodePools) && ValidPools(c.name, want) && DisksInv(c)
    ensures DisksInv(c.(nodePools := want, nodeDisks := EditedDisks(c, want)))
  {
    var e := c.(nodePools := want);
    var kept := Keep(c.nodeDisks, NameSet(e));
    var f := e.(nodeDisks := kept);
    PruneKeepsValid(c, want);
    RowsMembers(OnVMs(NameSet(e)), c.nodeDisks);
    assert WorkerNames(f) == WorkerNames(e);
    forall vm | vm in WorkerNames(f)
      ensures c.storageDiskGB > 0 ==> HasStorage(kept, vm) || CountOn(kept, vm) == 0
    {
      WorkerIsDesired(e, vm);
      if vm in WorkerNames(c) && c.storageDiskGB > 0 {
        var d :| d in c.nodeDisks && IsStorageRow(d, vm);
        assert d in kept;
      } else if vm !in WorkerNames(c) {
        assert forall d | d in kept :: DiskOK(WorkerNames(c), d);
        UncountedWhenNoRows(kept, vm);
      }
    }
    SyncEstablishes(f);
    assert f.(nodeDisks := Synced(f)) == c.(nodePools := want, nodeDisks := EditedDisks(c, want));
  }

  lemma WorkerIsDesired(c: Cluster, vm: string)
    requires vm in WorkerNames(c)
    ensures vm in NameSet(c)
  {
    var n :| n in AllWorkers(c.name, c.nodePools) && n.vmName == vm;
    assert n in DesiredNodes(c);
  }

  /** Rows on nodes that survive an edit are carried over unchanged, phase and device included;
      whatever is new is a pending storage disk on a worker that had no disk. */
  lemma EditKeepsSurvivingRows(c: Cluster, want: seq<NodePool>)
    requires ValidPools(c.name, c.nodePools) && ValidPools(c.name, want) && DisksInv(c)
    ensures var e := c.(nodePools := want);
            Keep(c.nodeDisks, NameSet(e)) <= EditedDisks(c, want)
            && (forall d | d in c.nodeDisks && d.vmName in NameSet(e) :: d in EditedDisks(c, want))
            && (forall d | d in EditedDisks(c, want) ::
                  (d in c.nodeDisks && d.vmName in NameSet(e))
                  || (d == StorageDisk(c, d.vmName) && d.vmName in WorkerNames(e)))
  {
    var e := c.(nodePools := want);
    var kept := Keep(c.nodeDisks, NameSet(e));
    var f := e.(nodeDisks := kept);
    RowsMembers(OnVMs(NameSet(e)), c.nodeDisks);
    var added := MissingRows(DesiredStorageDisks(f), KeysOf(kept));
    MissingRowsMeaning(DesiredStorageDisks(f), KeysOf(kept));
    assert EditedDisks(c, want) == kept + added;
    forall d | d in added
      ensures d == StorageDisk(c, d.vmName) && d.vmName in WorkerNames(e)
    {
      var w := DesiredStorageDisks(f);
      var i :| 0 <= i < |w| && w[i] == d;
      assert AllWorkers(f.name, f.nodePools)[i] in AllWorkers(f.name, f.nodePools);
    }
  }

  // ---------------------------------------------------------------- adding and removing a disk

  lemma AddKeepsDisks(c: Cluster, d: NodeDisk)
    requires ValidPools(c.name, c.nodePools) && DisksInv(c)
    requires CheckUserDiskName(d.name).None?
    requires CheckDisks(WorkerNames(c), [], c.nodeDisks + [d]).None?
    ensures DisksInv(c.(nodeDisks := c.nodeDisks + [d]))
  {
    ValidationIsExact(c, c.nodeDisks + [d]);
    var e := c.(nodeDisks := c.nodeDisks + [d]);
    assert WorkerNames(e) == WorkerNames(c);
    forall vm | vm in WorkerNames(c) && HasStorage(c.nodeDisks, vm)
      ensures HasStorage(e.nodeDisks, vm)
    {
      var r :| r in c.nodeDisks && IsStorageRow(r, vm);
      assert r in e.nodeDisks;
    }
  }

  /** Same row, apart from phase and device. */
  predicate SameRow(d: NodeDisk, e: NodeDisk) {
    d.(phase := e.phase, deviceID := e.deviceID) == e
  }

  predicate SameRows(a: seq<NodeDisk>, b: seq<NodeDisk>) {
    |a| == |b| && forall i | 0 <= i < |a| :: SameRow(a[i], b[i])
  }

  lemma {:induction false} SameRowsCount(a: seq<NodeDisk>, b: seq<NodeDisk>, vm: string)
    requires SameRows(a, b)
    ensures CountOn(a, vm) == CountOn(b, vm)
  {
    if a != [] {
      assert SameRow(a[|a| - 1], b[|b| - 1]);
      SameRowsCount(a[..|a| - 1], b[..|b| - 1], vm);
    }
  }

  /** Phases and devices are not part of the invariant, except that storage stays. */
  lemma SameRowsKeepDisks(c: Cluster, b: seq<NodeDisk>)
    requires DisksInv(c) && SameRows(c.nodeDisks, b)
    requires forall d | d in b && d.name == PLATFORM_STORAGE :: d.phase != DiskRemoving
    ensures DisksInv(c.(nodeDisks := b))
  {
    var a := c.nodeDisks;
    var e := c.(nodeDisks := b);
    assert WorkerNames(e) == WorkerNames(c);
    forall vm ensures CountOn(b, vm) <= MAX_DISKS_PER_NODE {
      SameRowsCount(a, b, vm);
    }
    forall d | d in b
      ensures DiskOK(WorkerNames(c), d)
      ensures d.name == PLATFORM_STORAGE ==>
        c.storageDiskGB > 0 && d.sizeGB == c.storageDiskGB && d.mountPath == LONGHORN_DATA_PATH
    {
      var i :| 0 <= i < |b| && b[i] == d;
      assert SameRow(a[i], b[i]) && a[i] in a;
    }
    forall i, j | 0 <= i < j < |b|
      ensures Compatible(b[i], b[j])
    {
      assert SameRow(a[i], b[i]) && SameRow(a[j], b[j]) && Compatible(a[i], a[j]);
    }
    forall vm | vm in WorkerNames(c) && HasStorage(a, vm)
      ensures HasStorage(b, vm)
    {
      SameRowsKeepStorage(a, b, vm);
    }
  }

  lemma SameRowsKeepStorage(a: seq<NodeDisk>, b: seq<NodeDisk>, vm: string)
    requires SameRows(a, b) && HasStorage(a, vm)
    ensures HasStorage(b, vm)
  {
    var d :| d in a && IsStorageRow(d, vm);
    var i :| 0 <= i < |a| && a[i] == d;
    assert SameRow(a[i], b[i]) && b[i] in b && IsStorageRow(b[i], vm);
  }

  function FindRow(disks: seq<NodeDisk>, vm: string, name: string): (i: Option<nat>)
    ensures i.Some? ==> i.value < |disks| && disks[i.value].vmName == vm && disks[i.value].name == name
    ensures i.None? ==> forall d | d in disks :: !(d.vmName == vm && d.name == name)
  {
    if disks == [] then None
    else if disks[0].vmName == vm && disks[0].name == name then Some(0)
    else
      var i := FindRow(disks[1..], vm, name);
      if i.Some? then Some(i.value + 1) else None
  }

  datatype Removal = NoSuchDisk | PlatformDisk | AlreadyRemoving | Marked(disks: seq<NodeDisk>)

  function MarkRemoving(disks: seq<NodeDisk>, vm: string, name: string): Removal {
    var i := FindRow(disks, vm, name);
    if i.None? then NoSuchDisk
    else if name == PLATFORM_STORAGE then PlatformDisk
    else if disks[i.value].phase == DiskRemoving then AlreadyRemoving
    else Marked(disks[i.value := disks[i.value].(phase := DiskRemoving)])
  }

  method FlipToRemoving(disks: seq<NodeDisk>, vm: string, name: string) returns (r: Removal)
    ensures r == MarkRemoving(disks, vm, name)
  {
    for i := 0 to |disks|
      invariant FindRow(disks, vm, name) ==
        var j := FindRow(disks[i..], vm, name); if j.Some? then Some(i + j.value) else None
    {
      assert disks[i..][0] == disks[i] && disks[i..][1..] == disks[i + 1..];
      if disks[i].vmName != vm || disks[i].name != name {
        continue;
      }
      if disks[i].name == PLATFORM_STORAGE {
        return PlatformDisk;
      }
      if disks[i].phase == DiskRemoving {
        return AlreadyRemoving;
      }
      return Marked(disks[i := disks[i].(phase := DiskRemoving)]);
    }
    return NoSuchDisk;
  }

  lemma RemoveKeepsDisks(c: Cluster, vm: string, name: string)
    requires DisksInv(c) && MarkRemoving(c.nodeDisks, vm, name).Marked?
    ensures DisksInv(c.(nodeDisks := MarkRemoving(c.nodeDisks, vm, name).disks))
  {
    var b := MarkRemoving(c.nodeDisks, vm, name).disks;
    forall d | d in b && d.name == PLATFORM_STORAGE
      ensures d.phase != DiskRemoving
    {
      var i :| 0 <= i < |b| && b[i] == d;
      assert c.nodeDisks[i] in c.nodeDisks;
    }
    SameRowsKeepDisks(c, b);
  }

  // ---------------------------------------------------------------- the reconciler's steps

  /** VM name to disk name to device identity, as the infrastructure reports it. */
  type DeviceReport = map<string, map<string, string>>

  function ReportedDevice(report: DeviceReport, d: NodeDisk): string {
    if d.vmName in report && d.name in report[d.vmName] then report[d.vmName][d.name] else ""
  }

  function ObservedRow(report: DeviceReport, d: NodeDisk): NodeDisk {
    if ReportedDevice(report, d) != "" then d.(deviceID := ReportedDevice(report, d)) else d
  }

  function Observed(disks: seq<NodeDisk>, report: DeviceReport): (b: seq<NodeDisk>)
    ensures |b| == |disks| && forall i | 0 <= i < |b| :: b[i] == ObservedRow(report, disks[i])
  {
    seq(|disks|, i requires 0 <= i < |disks| => ObservedRow(report, disks[i]))
  }

  function MountedRow(d: NodeDisk): NodeDisk {
    if d.deviceID != "" && d.phase != DiskAttached then d.(phase := DiskAttached) else d
  }

  function Mounted(disks: seq<NodeDisk>): (b: seq<NodeDisk>)
    ensures |b| == |disks| && forall i | 0 <= i < |b| :: b[i] == MountedRow(disks[i])
  {
    seq(|disks|, i requires 0 <= i < |disks| => MountedRow(disks[i]))
  }

  function NotRemoving(): NodeDisk -> bool {
    (d: NodeDisk) => d.phase != DiskRemoving
  }

  function Released(disks: seq<NodeDisk>): seq<NodeDisk> {
    Rows(NotRemoving(), disks)
  }

  method ObserveDisks(disks: seq<NodeDisk>, report: DeviceReport) returns (out: seq<NodeDisk>)
    ensures out == Observed(disks, report)
  {
    out := disks;
    for i := 0 to |disks|
      invariant |out| == |disks| && out[i..] == disks[i..]
      invariant out[..i] == Observed(disks, report)[..i]
    {
      assert out[i] == out[i..][0] == disks[i];
      var id := ReportedDevice(report, out[i]);
      if id != "" {
        out := out[i := out[i].(deviceID := id)];
      }
    }
  }

  method MountNodeDisks(disks: seq<NodeDisk>) returns (out: seq<NodeDisk>)
    ensures out == Mounted(disks)
  {
    out := disks;
    for i := 0 to |disks|
      invariant |out| == |disks| && out[i..] == disks[i..]
      invariant out[..i] == Mounted(disks)[..i]
    {
      assert out[i] == out[i..][0] == disks[i];
      if out[i].deviceID != "" && out[i].phase != DiskAttached {
        out := out[i := out[i].(phase := DiskAttached)];
      }
    }
  }

  method ReleaseRemovedDisks(disks: seq<NodeDisk>) returns (kept: seq<NodeDisk>)
    ensures kept == Released(disks)
  {
    kept := [];
    for i := 0 to |disks|
      invariant kept == Rows(NotRemoving(), disks[..i])
    {
      assert disks[..i + 1][..i] == disks[..i];
      if disks[i].phase != DiskRemoving {
        kept := kept + [disks[i]];
      }
    }
    assert disks[..|disks|] == disks;
  }

  /** Device reports and mounting change nothing but phase and device, and keep the invariant. */
  lemma ReconcilerKeepsDisks(c: Cluster, report: DeviceReport)
    requires DisksInv(c)
    ensures SameRows(c.nodeDisks, Observed(c.nodeDisks, report)) && SameRows(c.nodeDisks, Mounted(c.nodeDisks))
    ensures DisksInv(c.(nodeDisks := Observed(c.nodeDisks, report)))
    ensures DisksInv(c.(nodeDisks := Mounted(c.nodeDisks)))
    ensures DisksInv(c.(nodeDisks := Released(c.nodeDisks)))
  {
    StampsKeepDisks(c, Observed(c.nodeDisks, report));
    StampsKeepDisks(c, Mounted(c.nodeDisks));
    ReleaseKeepsDisks(c);
  }

  lemma StampsKeepDisks(c: Cluster, b: seq<NodeDisk>)
    requires DisksInv(c) && SameRows(c.nodeDisks, b)
    requires forall i | 0 <= i < |b| :: b[i].phase == c.nodeDisks[i].phase || b[i].phase == DiskAttached
    ensures DisksInv(c.(nodeDisks := b))
  {
    forall d | d in b && d.name == PLATFORM_STORAGE
      ensures d.phase != DiskRemoving
    {
      var i :| 0 <= i < |b| && b[i] == d;
      assert SameRow(c.nodeDisks[i], b[i]) && c.nodeDisks[i] in c.nodeDisks;
    }
    SameRowsKeepDisks(c, b);
  }

  lemma ReleaseKeepsDisks(c: Cluster)
    requires DisksInv(c)
    ensures DisksInv(c.(nodeDisks := Released(c.nodeDisks)))
  {
    var b := Released(c.nodeDisks);
    var e := c.(nodeDisks := b);
    assert WorkerNames(e) == WorkerNames(c);
    RowsMembers(NotRemoving(), c.nodeDisks);
    RowsKeepValid(WorkerNames(c), WorkerNames(c), NotRemoving(), c.nodeDisks);
    forall vm | vm in WorkerNames(c) && HasStorage(c.nodeDisks, vm)
      ensures HasStorage(b, vm)
    {
      var d :| d in c.nodeDisks && IsStorageRow(d, vm);
      assert d in b;
    }
  }

  /** A removal request does not survive a mount pass: the row goes back to attached exactly when
      its device is known, and the release that follows then keeps it. */
  lemma MountForgetsRemoval(disks: seq<NodeDisk>, d: NodeDisk)
    requires d in disks && d.phase == DiskRemoving
    ensures MountedRow(d) in Mounted(disks)
    ensures MountedRow(d) in Released(Mounted(disks)) <==> d.deviceID != ""
  {
    var i :| 0 <= i < |disks| && disks[i] == d;
    assert Mounted(disks)[i] == MountedRow(d);
    RowsMembers(NotRemoving(), Mounted(disks));
  }
}
