/** Extra node disks: validation, the platform's own per-worker storage disk, and what the
    reconciler does to the rows (internal/domain/domain.go, internal/app/storage.go). */
module Disks {
  import opened Wrappers
  import opened Roles
  import opened Text
  import opened Nodes

  const LONGHORN_DATA_PATH := "/var/lib/longhorn"
  const PLATFORM_STORAGE := "storage"
  const MIN_DISK_GB := 1
  const MAX_DISK_GB := 2000
  const MAX_DISKS_PER_NODE := 8
  const MAX_DISK_NAME_LEN := 32

  const PROTECTED_MOUNTS: set<string> := {
    "/", "/boot", "/etc", "/usr", "/bin", "/sbin", "/lib", "/lib64",
    "/dev", "/proc", "/sys", "/run", "/var", "/var/lib", "/var/lib/kubelet", "/var/lib/containerd",
    "/var/lib/etcd", "/etc/kubernetes", "/home", "/root", "/tmp"}

  // ---------------------------------------------------------------- one disk

  datatype DiskError =
    | NotAWorker | DiskNameRequired | DiskNameSyntax | DiskNameTooLong | DiskNameReserved | DuplicateDisk | TooManyDisks
    | SizeOutOfRange | UnknownFilesystem | MountRequired | MountNotAbsolute | MountNotClean | MountProtected
    | DuplicateMount

  function CheckDiskName(name: string): Option<DiskError> {
    if name == "" then Some(DiskNameRequired)
    else if !IsLabel(name) then Some(DiskNameSyntax)
    else if |name| > MAX_DISK_NAME_LEN then Some(DiskNameTooLong)
    else None
  }

  function CheckUserDiskName(name: string): Option<DiskError> {
    if CheckDiskName(name).Some? then CheckDiskName(name)
    else if name == PLATFORM_STORAGE then Some(DiskNameReserved)
    else None
  }

  predicate PlainComponent(s: string) {
    s != "" && s != "." && s != ".."
  }

  /** The absolute paths that `filepath.Clean` leaves as they are. */
  predicate IsCleanAbsolute(path: string)
    requires path != "" && path[0] == '/'
  {
    path == "/" || forall s | s in Split(path[1..], '/') :: PlainComponent(s)
  }

  function CheckMountPath(path: string): Option<DiskError> {
    if path == "" then Some(MountRequired)
    else if path[0] != '/' then Some(MountNotAbsolute)
    else if !IsCleanAbsolute(path) then Some(MountNotClean)
    else if path in PROTECTED_MOUNTS then Some(MountProtected)
    else None
  }

  predicate SizeOK(gb: int) {
    MIN_DISK_GB <= gb <= MAX_DISK_GB
  }

  predicate FilesystemOK(fs: string) {
    fs == "ext4" || fs == "xfs"
  }

  predicate DiskOK(workers: set<string>, d: NodeDisk) {
    d.vmName in workers && CheckDiskName(d.name).None? && SizeOK(d.sizeGB) && FilesystemOK(d.fsType)
    && CheckMountPath(d.mountPath).None?
  }

  lemma ThreeComponents(path: string, a: string, b: string, c: string)
    requires path == ['/'] + (a + ['/'] + (b + ['/'] + c))
    requires '/' !in a && '/' !in b && '/' !in c
    requires PlainComponent(a) && PlainComponent(b) && PlainComponent(c)
    ensures IsCleanAbsolute(path)
  {
    assert path[1..] == a + ['/'] + (b + ['/'] + c);
    SplitThree(a, b, c);
  }

  lemma SplitThree(a: string, b: string, c: string)
    requires '/' !in a && '/' !in b && '/' !in c
    ensures Split(a + ['/'] + (b + ['/'] + c), '/') == [a, b, c]
  {
    var rest := b + ['/'] + c;
    SplitAt('/', b, c);
    assert Split(c, '/') == [c];
    SplitAt('/', a, rest);
  }

  lemma LonghornPathIsClean()
    ensures IsCleanAbsolute(LONGHORN_DATA_PATH)
  {
    var a, b, c := "var", "lib", "longhorn";
    assert |LONGHORN_DATA_PATH| == 17 && |a| == 3 && |b| == 3 && |c| == 8;
    assert LONGHORN_DATA_PATH == ['/'] + (a + ['/'] + (b + ['/'] + c));
    ThreeComponents(LONGHORN_DATA_PATH, a, b, c);
  }

  lemma LonghornPathIsNotProtected()
    ensures LONGHORN_DATA_PATH !in PROTECTED_MOUNTS
  {
    assert |LONGHORN_DATA_PATH| == 17;
    assert forall q | q in PROTECTED_MOUNTS :: |q| != 17;
  }

  lemma LonghornPathIsUsable()
    ensures CheckMountPath(LONGHORN_DATA_PATH).None?
    ensures CheckDiskName(PLATFORM_STORAGE).None?
  {
    LonghornPathIsClean();
    LonghornPathIsNotProtected();
    assert |PLATFORM_STORAGE| == 7;
  }

  // ---------------------------------------------------------------- the whole list

  function DiskKey(vm: string, name: string): string {
    vm + "/" + name
  }

  function CountOn(disks: seq<NodeDisk>, vm: string): nat {
    if disks == [] then 0
    else CountOn(disks[..|disks| - 1], vm) + (if disks[|disks| - 1].vmName == vm then 1 else 0)
  }

  /** The first complaint about d, given the disks already accepted before it. Rows are told
      apart by concatenated text keys, as the code does. */
  function CheckDisk(workers: set<string>, done: seq<NodeDisk>, d: NodeDisk): Option<DiskError> {
    if d.vmName !in workers then Some(NotAWorker)
    else if CheckDiskName(d.name).Some? then CheckDiskName(d.name)
    else if exists e | e in done :: DiskKey(e.vmName, e.name) == DiskKey(d.vmName, d.name) then Some(DuplicateDisk)
    else if CountOn(done, d.vmName) + 1 > MAX_DISKS_PER_NODE then Some(TooManyDisks)
    else if !SizeOK(d.sizeGB) then Some(SizeOutOfRange)
    else if !FilesystemOK(d.fsType) then Some(UnknownFilesystem)
    else if CheckMountPath(d.mountPath).Some? then CheckMountPath(d.mountPath)
    else if exists e | e in done :: DiskKey(e.vmName, e.mountPath) == DiskKey(d.vmName, d.mountPath)
    then Some(DuplicateMount)
    else None
  }

  function CheckDisks(workers: set<string>, done: seq<NodeDisk>, rest: seq<NodeDisk>): Option<DiskError>
    decreases |rest|
  {
    if rest == [] then None
    else
      var e := CheckDisk(workers, done, rest[0]);
      if e.Some? then e else CheckDisks(workers, done + [rest[0]], rest[1..])
  }

  function WorkerNames(c: Cluster): set<string> {
    set n | n in AllWorkers(c.name, c.nodePools) :: n.vmName
  }

  /** The per-node counters and the two key sets, after the disks in `done`. */
  ghost predicate Tracks(done: seq<NodeDisk>, perNode: map<string, nat>, seen: set<string>, mounts: set<string>) {
    && (forall vm :: (if vm in perNode then perNode[vm] else 0) == CountOn(done, vm))
    && (forall k :: k in seen <==> exists e | e in done :: DiskKey(e.vmName, e.name) == k)
    && (forall k :: k in mounts <==> exists e | e in done :: DiskKey(e.vmName, e.mountPath) == k)
  }

  lemma TracksOneMore(done: seq<NodeDisk>, d: NodeDisk, perNode: map<string, nat>, seen: set<string>, mounts: set<string>)
    requires Tracks(done, perNode, seen, mounts)
    ensures Tracks(done + [d], perNode[d.vmName := CountOn(done, d.vmName) + 1],
                   seen + {DiskKey(d.vmName, d.name)}, mounts + {DiskKey(d.vmName, d.mountPath)})
  {
    assert (done + [d])[..|done|] == done;
    assert d in done + [d];
  }

  /** One turn of the loop. */
  method CheckNext(workers: set<string>, ghost done: seq<NodeDisk>, d: NodeDisk,
                   perNode: map<string, nat>, seen: set<string>, mounts: set<string>)
    returns (err: Option<DiskError>, perNode': map<string, nat>, seen': set<string>, mounts': set<string>)
    requires Tracks(done, perNode, seen, mounts)
    ensures err == CheckDisk(workers, done, d)
    ensures err.None? ==> Tracks(done + [d], perNode', seen', mounts')
  {
    perNode', seen', mounts' := perNode, seen, mounts;
    TracksOneMore(done, d, perNode, seen, mounts);
    if d.vmName !in workers {
      return Some(NotAWorker), perNode', seen', mounts';
    }
    if CheckDiskName(d.name).Some? {
      return CheckDiskName(d.name), perNode', seen', mounts';
    }
    var key := DiskKey(d.vmName, d.name);
    if key in seen {
      return Some(DuplicateDisk), perNode', seen', mounts';
    }
    seen' := seen + {key};
    var n := (if d.vmName in perNode then perNode[d.vmName] else 0) + 1;
    perNode' := perNode[d.vmName := n];
    if n > MAX_DISKS_PER_NODE {
      return Some(TooManyDisks), perNode', seen', mounts';
    }
    if !SizeOK(d.sizeGB) {
      return Some(SizeOutOfRange), perNode', seen', mounts';
    }
    if !FilesystemOK(d.fsType) {
      return Some(UnknownFilesystem), perNode', seen', mounts';
    }
    if CheckMountPath(d.mountPath).Some? {
      return CheckMountPath(d.mountPath), perNode', seen', mounts';
    }
    var mkey := DiskKey(d.vmName, d.mountPath);
    if mkey in mounts {
      return Some(DuplicateMount), perNode', seen', mounts';
    }
    mounts' := mounts + {mkey};
    err := None;
  }

  /** The loop with its worker set, per-node counters and two key sets. */
  method ValidateNodeDisks(c: Cluster, disks: seq<NodeDisk>) returns (err: Option<DiskError>)
    ensures err == CheckDisks(WorkerNames(c), [], disks)
  {
    var workers := CollectWorkers(c);
    var perNode: map<string, nat>, seen: set<string>, mounts: set<string> := map[], {}, {};
    for i := 0 to |disks|
      invariant CheckDisks(workers, [], disks) == CheckDisks(workers, disks[..i], disks[i..])
      invariant Tracks(disks[..i], perNode, seen, mounts)
    {
      assert disks[i..][0] == disks[i] && disks[i..][1..] == disks[i + 1..];
      assert disks[..i + 1] == disks[..i] + [disks[i]];
      err, perNode, seen, mounts := CheckNext(workers, disks[..i], disks[i], perNode, seen, mounts);
      if err.Some? {
        return;
      }
    }
    assert disks[|disks|..] == [];
    return None;
  }

  method CollectWorkers(c: Cluster) returns (workers: set<string>)
    ensures workers == WorkerNames(c)
  {
    var nodes := ListDesiredNodes(c);
    workers := {};
    for i := 0 to |nodes|
      invariant workers == set n | n in nodes[..i] && n.role == Worker :: n.vmName
    {
      assert nodes[..i + 1] == nodes[..i] + [nodes[i]];
      if nodes[i].role == Worker {
        workers := workers + {nodes[i].vmName};
      }
    }
    assert nodes[..|nodes|] == nodes;
    WorkerNodesAreAllWorkers(c);
  }

  lemma {:induction false} AllWorkersAreWorkers(cluster: string, pools: seq<NodePool>)
    ensures forall n | n in AllWorkers(cluster, pools) :: n.role == Worker
  {
    if pools != [] {
      AllWorkersAreWorkers(cluster, pools[1..]);
    }
  }

  lemma WorkerNodesAreAllWorkers(c: Cluster)
    ensures forall n :: n in DesiredNodes(c) && n.role == Worker <==> n in AllWorkers(c.name, c.nodePools)
  {
    AllWorkersAreWorkers(c.name, c.nodePools);
  }

  // ---------------------------------------------------------------- what validation means

  predicate Compatible(d: NodeDisk, e: NodeDisk) {
    d.vmName == e.vmName ==> d.name != e.name && d.mountPath != e.mountPath
  }

  predicate AllCompatible(disks: seq<NodeDisk>) {
    forall i, j | 0 <= i < j < |disks| :: Compatible(disks[i], disks[j])
  }

  /** Every disk is fine by itself and sits on a desired worker; on one node names and mount
      points are all different, and there are at most eight. */
  ghost predicate ValidDisks(workers: set<string>, disks: seq<NodeDisk>) {
    && (forall d | d in disks :: DiskOK(workers, d))
    && AllCompatible(disks)
    && forall vm :: CountOn(disks, vm) <= MAX_DISKS_PER_NODE
  }

  lemma CompatibleSnoc(done: seq<NodeDisk>, d: NodeDisk)
    ensures AllCompatible(done + [d]) <==> AllCompatible(done) && forall e | e in done :: Compatible(e, d)
  {
    var all := done + [d];
    if AllCompatible(all) {
      forall e | e in done
        ensures Compatible(e, d)
      {
        var i :| 0 <= i < |done| && done[i] == e;
        assert Compatible(all[i], all[|done|]);
      }
      forall i, j | 0 <= i < j < |done|
        ensures Compatible(done[i], done[j])
      {
        assert Compatible(all[i], all[j]);
      }
    }
    if AllCompatible(done) && forall e | e in done :: Compatible(e, d) {
      forall i, j | 0 <= i < j < |all|
        ensures Compatible(all[i], all[j])
      {
        if j < |done| {
          assert Compatible(done[i], done[j]);
        } else {
          assert done[i] in done;
        }
      }
    }
  }

  lemma CountSnoc(done: seq<NodeDisk>, d: NodeDisk, vm: string)
    ensures CountOn(done + [d], vm) == CountOn(done, vm) + (if d.vmName == vm then 1 else 0)
  {
    assert (done + [d])[..|done|] == done;
  }

  ghost predicate Extends(workers: set<string>, done: seq<NodeDisk>, d: NodeDisk) {
    DiskOK(workers, d) && (forall e | e in done :: Compatible(e, d)) && CountOn(done, d.vmName) < MAX_DISKS_PER_NODE
  }

  lemma ValidSnoc(workers: set<string>, done: seq<NodeDisk>, d: NodeDisk)
    ensures ValidDisks(workers, done + [d]) <==> ValidDisks(workers, done) && Extends(workers, done, d)
  {
    CompatibleSnoc(done, d);
    forall vm ensures CountOn(done + [d], vm) == CountOn(done, vm) + (if d.vmName == vm then 1 else 0) {
      CountSnoc(done, d, vm);
    }
    assert d in done + [d];
    assert forall e | e in done :: e in done + [d];
  }

  /** A worker's name and the text after the slash can be read back from the key. */
  ghost predicate KeysDecode(workers: set<string>) {
    forall v, w, x, y | v in workers && w in workers && DiskKey(v, x) == DiskKey(w, y) :: v == w && x == y
  }

  lemma NoSlashInLabel(s: string)
    requires IsLabel(s)
    ensures '/' !in s && ':' !in s && ',' !in s
  {
    assert forall i | 0 <= i < |s| :: LowerAlnum(s[i]) || s[i] == '-';
  }

  lemma WorkerNameShape(c: Cluster, vm: string) returns (pool: string, i: nat)
    requires ValidPools(c.name, c.nodePools) && vm in WorkerNames(c)
    ensures vm == VMName(c.name, pool, i) && IsLabel(pool) && pool != CONTROL_PLANE_INFIX
  {
    var ws := AllWorkers(c.name, c.nodePools);
    var n :| n in ws && n.vmName == vm;
    var k :| 0 <= k < |ws| && ws[k] == n;
    var m;
    m, i := WorkerOrigin(c.name, c.nodePools, k);
    pool := c.nodePools[m].name;
    assert PoolOK(c.name, c.nodePools[m]);
  }

  lemma WorkerKeyDecodes(c: Cluster, v: string, w: string, x: string, y: string)
    requires ValidPools(c.name, c.nodePools) && v in WorkerNames(c) && w in WorkerNames(c)
    requires DiskKey(v, x) == DiskKey(w, y)
    ensures v == w && x == y
  {
    var p, i := WorkerNameShape(c, v);
    var q, j := WorkerNameShape(c, w);
    WorkerSuffix(c.name, p, i);
    WorkerSuffix(c.name, q, j);
    TailDecodes(c.name, "-" + p + "-" + Itoa(i), x, "-" + q + "-" + Itoa(j), y, '/');
  }

  lemma WorkerSuffix(cluster: string, pool: string, i: nat)
    requires IsLabel(pool)
    ensures var s := "-" + pool + "-" + Itoa(i);
            VMName(cluster, pool, i) == cluster + s && '/' !in s && ':' !in s && ',' !in s
  {
    NoSlashInLabel(pool);
    NoDashInNumber(i);
    assert VMName(cluster, pool, i) == cluster + ("-" + pool + "-" + Itoa(i));
  }

  lemma TailDecodes(prefix: string, a: string, x: string, b: string, y: string, sep: char)
    requires prefix + a + [sep] + x == prefix + b + [sep] + y
    requires sep !in a && sep !in b
    ensures a == b && x == y
  {
    assert prefix + a + [sep] + x == prefix + (a + [sep] + x);
    assert prefix + b + [sep] + y == prefix + (b + [sep] + y);
    SamePrefix(prefix, a + [sep] + x, b + [sep] + y);
    FirstSeparator(sep, a, x, b, y);
  }

  /** All workers of a cluster share its name as a prefix, and what follows holds no slash. */
  lemma WorkerKeysDecode(c: Cluster)
    requires ValidPools(c.name, c.nodePools)
    ensures KeysDecode(WorkerNames(c))
  {
    forall v, w, x, y | v in WorkerNames(c) && w in WorkerNames(c) && DiskKey(v, x) == DiskKey(w, y)
      ensures v == w && x == y
    {
      WorkerKeyDecodes(c, v, w, x, y);
    }
  }

  lemma CheckDiskMeaning(workers: set<string>, done: seq<NodeDisk>, d: NodeDisk)
    requires KeysDecode(workers) && forall e | e in done :: e.vmName in workers
    ensures CheckDisk(workers, done, d).None? <==> Extends(workers, done, d)
  {
  }

  lemma {:induction false} CheckDisksMeaning(workers: set<string>, done: seq<NodeDisk>, rest: seq<NodeDisk>)
    requires KeysDecode(workers) && ValidDisks(workers, done)
    ensures CheckDisks(workers, done, rest).None? <==> ValidDisks(workers, done + rest)
    decreases |rest|
  {
    if rest == [] {
      assert done + rest == done;
    } else {
      CheckDiskMeaning(workers, done, rest[0]);
      ValidSnoc(workers, done, rest[0]);
      assert done + [rest[0]] + rest[1..] == done + rest;
      if Extends(workers, done, rest[0]) {
        CheckDisksMeaning(workers, done + [rest[0]], rest[1..]);
      } else if ValidDisks(workers, done + rest) {
        ValidPrefix(workers, done + [rest[0]], rest[1..]);
        assert false;
      }
    }
  }

  lemma {:induction false} ValidPrefix(workers: set<string>, done: seq<NodeDisk>, rest: seq<NodeDisk>)
    requires ValidDisks(workers, done + rest)
    ensures ValidDisks(workers, done)
    decreases |rest|
  {
    if rest == [] {
      assert done + rest == done;
    } else {
      var front, last := rest[..|rest| - 1], rest[|rest| - 1];
      assert done + rest == done + front + [last];
      ValidSnoc(workers, done + front, last);
      ValidPrefix(workers, done, front);
    }
  }

  /** On a cluster whose pools are valid, the check passes exactly the valid lists. */
  lemma ValidationIsExact(c: Cluster, disks: seq<NodeDisk>)
    requires ValidPools(c.name, c.nodePools)
    ensures CheckDisks(WorkerNames(c), [], disks).None? <==> ValidDisks(WorkerNames(c), disks)
  {
    WorkerKeysDecode(c);
    CheckDisksMeaning(WorkerNames(c), [], disks);
    assert [] + disks == disks;
  }
}
