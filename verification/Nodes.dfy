/** What a node is for. */
module Roles {
  datatype Role = ControlPlane | Worker
}

/** A cluster's desired node set: pool validation and the `<cluster>-<pool>-<i>` naming that
    everything else is keyed on (internal/domain/domain.go). */
module Nodes {
  import opened Wrappers
  import opened Roles
  import opened Text

  // ---------------------------------------------------------------- data model

  datatype SizeSpec = SizeSpec(cpus: nat, memMB: nat, diskGB: nat, controlPlanes: nat)

  function SpecOf(size: string): SizeSpec {
    if size == "small" then SizeSpec(2, 8192, 50, 1)
    else if size == "medium" then SizeSpec(4, 16384, 50, 1)
    else if size == "large" then SizeSpec(8, 32768, 50, 1)
    else SizeSpec(0, 0, 0, 0)
  }

  predicate KnownSize(size: string) {
    size in {"small", "medium", "large"}
  }

  datatype NodePool = NodePool(name: string, size: string, desiredWorkers: int, diskGB: int)

  /** The pool's root-disk override, else the size's default. */
  function RootDiskGB(p: NodePool): nat {
    if p.diskGB > 0 then p.diskGB else SpecOf(p.size).diskGB
  }

  datatype Phase = Pending | Building | Ready | Updating | Upgrading | Repairing | Deleting | Deleted | Failed {
    predicate Terminal() {
      Deleted? || Failed?
    }

    predicate Editable() {
      !Deleting? && !Terminal()
    }
  }

  datatype DiskPhase = DiskPending | DiskAttached | DiskRemoving

  datatype NodeDisk = NodeDisk(
    vmName: string,
    name: string,
    sizeGB: int,
    mountPath: string,
    fsType: string,
    phase: DiskPhase,
    deviceID: string)

  datatype Cluster = Cluster(
    id: string,
    name: string,
    owner: string,
    size: string,
    nodePools: seq<NodePool>,
    controlPlanes: int,
    provider: string,
    phase: Phase,
    generation: int,
    storageDiskGB: int,
    nodeDisks: seq<NodeDisk>,
    ipMode: string,
    staticIPs: map<string, string>,
    apiVIP: string,
    loadBalancerIP: string,
    deleted: bool) {

    function InfraProvider(): string {
      if provider == "" then "kvm" else provider
    }

    function ControlPlaneCount(): nat {
      if controlPlanes > 0 then controlPlanes else SpecOf(size).controlPlanes
    }

    predicate HA() {
      ControlPlaneCount() > 1
    }
  }

  datatype DesiredNode = DesiredNode(vmName: string, role: Role, pool: string, spec: SizeSpec)

  // ---------------------------------------------------------------- pool names

  const CONTROL_PLANE_INFIX := "cp"
  const MAX_HOSTNAME_LEN := 63
  const MAX_ROOT_DISK_GB := 2000

  predicate LowerAlnum(c: char) {
    'a' <= c <= 'z' || '0' <= c <= '9'
  }

  /** The label grammar of section 2.1 of RFC 1123, lower case. */
  predicate IsLabel(s: string) {
    |s| > 0 && LowerAlnum(s[0]) && LowerAlnum(s[|s| - 1])
    && forall i | 0 <= i < |s| :: LowerAlnum(s[i]) || s[i] == '-'
  }

  datatype PoolError =
    | NameRequired | NameSyntax | NameReserved | NameTooLong | DuplicatePool
    | UnknownSize | NegativeWorkers | RootDiskTooSmall | RootDiskTooBig

  function CheckPoolName(cluster: string, name: string): Option<PoolError> {
    if name == "" then Some(NameRequired)
    else if !IsLabel(name) then Some(NameSyntax)
    else if name == CONTROL_PLANE_INFIX then Some(NameReserved)
    else if |cluster| + |name| + |"--999"| > MAX_HOSTNAME_LEN then Some(NameTooLong)
    else None
  }

  function CheckPoolShape(p: NodePool): Option<PoolError> {
    if !KnownSize(p.size) then Some(UnknownSize)
    else if p.desiredWorkers < 0 then Some(NegativeWorkers)
    else if p.diskGB != 0 && p.diskGB < SpecOf(p.size).diskGB then Some(RootDiskTooSmall)
    else if p.diskGB != 0 && p.diskGB > MAX_ROOT_DISK_GB then Some(RootDiskTooBig)
    else None
  }

  /** The first complaint about a pool list, given the names already seen. */
  function CheckPools(cluster: string, pools: seq<NodePool>, seen: set<string>): Option<PoolError> {
    if pools == [] then None
    else
      var p := pools[0];
      if CheckPoolName(cluster, p.name).Some? then CheckPoolName(cluster, p.name)
      else if p.name in seen then Some(DuplicatePool)
      else if CheckPoolShape(p).Some? then CheckPoolShape(p)
      else CheckPools(cluster, pools[1..], seen + {p.name})
  }

  predicate PoolOK(cluster: string, p: NodePool) {
    CheckPoolName(cluster, p.name).None? && CheckPoolShape(p).None?
  }

  predicate ValidPools(cluster: string, pools: seq<NodePool>) {
    (forall i | 0 <= i < |pools| :: PoolOK(cluster, pools[i]))
    && (forall i, j | 0 <= i < j < |pools| :: pools[i].name != pools[j].name)
  }

  lemma {:induction false} CheckPoolsMeaning(cluster: string, pools: seq<NodePool>, seen: set<string>)
    ensures CheckPools(cluster, pools, seen).None?
       <==> ValidPools(cluster, pools) && forall i | 0 <= i < |pools| :: pools[i].name !in seen
  {
    if pools != [] {
      var p, rest := pools[0], pools[1..];
      CheckPoolsMeaning(cluster, rest, seen + {p.name});
      assert forall i | 0 < i < |pools| :: pools[i] == rest[i - 1];
      if CheckPools(cluster, pools, seen).None? {
        forall i, j | 0 <= i < j < |pools|
          ensures pools[i].name != pools[j].name
        {
          assert rest[j - 1].name !in seen + {p.name};
          if i > 0 {
            assert rest[i - 1].name != rest[j - 1].name;
          }
        }
      }
      if ValidPools(cluster, pools) && forall i | 0 <= i < |pools| :: pools[i].name !in seen {
        forall i | 0 <= i < |rest|
          ensures rest[i].name !in seen + {p.name}
        {
          assert pools[0].name != pools[i + 1].name;
        }
      }
    }
  }

  method ValidateNodePools(cluster: string, pools: seq<NodePool>) returns (err: Option<PoolError>)
    ensures err == CheckPools(cluster, pools, {})
    ensures err.None? <==> ValidPools(cluster, pools)
  {
    CheckPoolsMeaning(cluster, pools, {});
    var seen: set<string> := {};
    for i := 0 to |pools|
      invariant CheckPools(cluster, pools, {}) == CheckPools(cluster, pools[i..], seen)
    {
      var p := pools[i];
      assert pools[i..][0] == p && pools[i..][1..] == pools[i + 1..];
      if CheckPoolName(cluster, p.name).Some? {
        return CheckPoolName(cluster, p.name);
      }
      if p.name in seen {
        return Some(DuplicatePool);
      }
      seen := seen + {p.name};
      if CheckPoolShape(p).Some? {
        return CheckPoolShape(p);
      }
    }
    assert pools[|pools|..] == [];
    return None;
  }

  // ---------------------------------------------------------------- the desired node set

  function VMName(cluster: string, pool: string, i: nat): string {
    cluster + "-" + pool + "-" + Itoa(i)
  }

  function PoolSpec(p: NodePool): SizeSpec {
    SpecOf(p.size).(diskGB := RootDiskGB(p))
  }

  function PoolNode(cluster: string, p: NodePool, i: nat): DesiredNode {
    DesiredNode(VMName(cluster, p.name, i), Worker, p.name, PoolSpec(p))
  }

  function PoolNodes(cluster: string, p: NodePool): (ns: seq<DesiredNode>)
    ensures |ns| == Max(0, p.desiredWorkers)
  {
    seq(Max(0, p.desiredWorkers), i requires 0 <= i => PoolNode(cluster, p, i))
  }

  function AllWorkers(cluster: string, pools: seq<NodePool>): seq<DesiredNode> {
    if pools == [] then [] else PoolNodes(cluster, pools[0]) + AllWorkers(cluster, pools[1..])
  }

  function ControlPlaneNode(cluster: string, size: string, i: nat): DesiredNode {
    DesiredNode(VMName(cluster, CONTROL_PLANE_INFIX, i), ControlPlane, "", SpecOf(size))
  }

  function ControlPlaneNodes(cluster: string, size: string, count: nat): (ns: seq<DesiredNode>)
    ensures |ns| == count
  {
    seq(count, i requires 0 <= i => ControlPlaneNode(cluster, size, i))
  }

  /** Control planes first, then each pool's workers in pool order. */
  function DesiredNodes(c: Cluster): seq<DesiredNode> {
    ControlPlaneNodes(c.name, c.size, c.ControlPlaneCount()) + AllWorkers(c.name, c.nodePools)
  }

  function WorkerCount(pools: seq<NodePool>): int {
    if pools == [] then 0 else pools[0].desiredWorkers + WorkerCount(pools[1..])
  }

  function NamesOf(nodes: seq<DesiredNode>): (names: seq<string>)
    ensures |names| == |nodes|
    ensures forall i | 0 <= i < |names| :: names[i] == nodes[i].vmName
  {
    seq(|nodes|, i requires 0 <= i < |nodes| => nodes[i].vmName)
  }

  function NodeVMNames(c: Cluster): seq<string> {
    NamesOf(DesiredNodes(c))
  }

  function NameSet(c: Cluster): set<string> {
    set n | n in DesiredNodes(c) :: n.vmName
  }

  /** The two nested loops that mint the node set. */
  method ListDesiredNodes(c: Cluster) returns (out: seq<DesiredNode>)
    ensures out == DesiredNodes(c)
  {
    out := [];
    var cps := c.ControlPlaneCount();
    for i := 0 to cps
      invariant out == ControlPlaneNodes(c.name, c.size, cps)[..i]
    {
      out := out + [ControlPlaneNode(c.name, c.size, i)];
    }
    ghost var head := out;
    assert head == ControlPlaneNodes(c.name, c.size, cps);
    for k := 0 to |c.nodePools|
      invariant out + AllWorkers(c.name, c.nodePools[k..]) == DesiredNodes(c)
    {
      var p := c.nodePools[k];
      ghost var before := out;
      ghost var rest := AllWorkers(c.name, c.nodePools[k + 1..]);
      assert c.nodePools[k..][0] == p && c.nodePools[k..][1..] == c.nodePools[k + 1..];
      assert before + (PoolNodes(c.name, p) + rest) == DesiredNodes(c);
      var i := 0;
      while i < p.desiredWorkers
        invariant 0 <= i <= Max(0, p.desiredWorkers)
        invariant out == before + PoolNodes(c.name, p)[..i]
      {
        out := out + [PoolNode(c.name, p, i)];
        i := i + 1;
      }
      assert PoolNodes(c.name, p)[..i] == PoolNodes(c.name, p);
      assert before + PoolNodes(c.name, p) + rest == before + (PoolNodes(c.name, p) + rest);
    }
    assert c.nodePools[|c.nodePools|..] == [];
  }

  // ---------------------------------------------------------------- what the naming guarantees

  lemma {:induction false} CountAllWorkers(cluster: string, pools: seq<NodePool>)
    requires forall i | 0 <= i < |pools| :: pools[i].desiredWorkers >= 0
    ensures |AllWorkers(cluster, pools)| == WorkerCount(pools)
  {
    if pools != [] {
      CountAllWorkers(cluster, pools[1..]);
    }
  }

  lemma DesiredNodesCount(c: Cluster)
    requires ValidPools(c.name, c.nodePools)
    ensures |DesiredNodes(c)| == c.ControlPlaneCount() + WorkerCount(c.nodePools)
  {
    assert forall i | 0 <= i < |c.nodePools| :: PoolOK(c.name, c.nodePools[i]);
    CountAllWorkers(c.name, c.nodePools);
  }

  lemma NoDashInNumber(i: nat)
    ensures '-' !in Itoa(i) && '/' !in Itoa(i) && ':' !in Itoa(i) && ',' !in Itoa(i)
  {
    var s := Itoa(i);
    assert forall k | 0 <= k < |s| :: IsDigit(s[k]);
  }

  /** The last dash tells pool from index, whatever the pool is called. */
  lemma VMNameInjective(cluster: string, p: string, i: nat, q: string, j: nat)
    requires VMName(cluster, p, i) == VMName(cluster, q, j)
    ensures p == q && i == j
  {
    NoDashInNumber(i);
    NoDashInNumber(j);
    var a, b := cluster + "-" + p, cluster + "-" + q;
    assert VMName(cluster, p, i) == a + ['-'] + Itoa(i);
    assert VMName(cluster, q, j) == b + ['-'] + Itoa(j);
    LastSeparator('-', a, Itoa(i), b, Itoa(j));
    SamePrefix(cluster + "-", p, q);
    ItoaInjective(i, j);
  }

  /** Every worker belongs to some pool, at some index below the pool's size. */
  lemma {:induction false} WorkerOrigin(cluster: string, pools: seq<NodePool>, k: nat) returns (m: nat, i: nat)
    requires k < |AllWorkers(cluster, pools)|
    ensures m < |pools| && i < Max(0, pools[m].desiredWorkers)
    ensures AllWorkers(cluster, pools)[k] == PoolNode(cluster, pools[m], i)
  {
    var here := PoolNodes(cluster, pools[0]);
    if k < |here| {
      m, i := 0, k;
    } else {
      m, i := WorkerOrigin(cluster, pools[1..], k - |here|);
      m := m + 1;
    }
  }

  predicate DistinctNames(ns: seq<DesiredNode>) {
    forall i, j | 0 <= i < j < |ns| :: ns[i].vmName != ns[j].vmName
  }

  lemma {:induction false} WorkersDistinct(cluster: string, pools: seq<NodePool>)
    requires forall i, j | 0 <= i < j < |pools| :: pools[i].name != pools[j].name
    ensures DistinctNames(AllWorkers(cluster, pools))
  {
    if pools != [] {
      var here, rest := PoolNodes(cluster, pools[0]), AllWorkers(cluster, pools[1..]);
      WorkersDistinct(cluster, pools[1..]);
      var ns := AllWorkers(cluster, pools);
      assert ns == here + rest;
      forall i, j | 0 <= i < j < |ns|
        ensures ns[i].vmName != ns[j].vmName
      {
        if i >= |here| {
          assert ns[i] == rest[i - |here|] && ns[j] == rest[j - |here|];
        } else if ns[i].vmName == ns[j].vmName {
          if j < |here| {
            VMNameInjective(cluster, pools[0].name, i, pools[0].name, j);
          } else {
            var m, l := WorkerOrigin(cluster, pools[1..], j - |here|);
            VMNameInjective(cluster, pools[0].name, i, pools[1..][m].name, l);
          }
          assert false;
        }
      }
    }
  }

  /** No two desired nodes share a VM name: not two workers, not a worker and a control plane. */
  lemma DesiredNamesDistinct(c: Cluster)
    requires ValidPools(c.name, c.nodePools)
    ensures DistinctNames(DesiredNodes(c))
  {
    var cps := ControlPlaneNodes(c.name, c.size, c.ControlPlaneCount());
    var ws, ns := AllWorkers(c.name, c.nodePools), DesiredNodes(c);
    WorkersDistinct(c.name, c.nodePools);
    assert forall m | 0 <= m < |c.nodePools| :: PoolOK(c.name, c.nodePools[m]);
    forall i, j | 0 <= i < j < |ns|
      ensures ns[i].vmName != ns[j].vmName
    {
      if i >= |cps| {
        assert ns[i] == ws[i - |cps|] && ns[j] == ws[j - |cps|];
      } else if ns[i].vmName == ns[j].vmName {
        if j < |cps| {
          VMNameInjective(c.name, CONTROL_PLANE_INFIX, i, CONTROL_PLANE_INFIX, j);
        } else {
          var m, l := WorkerOrigin(c.name, c.nodePools, j - |cps|);
          VMNameInjective(c.name, CONTROL_PLANE_INFIX, i, c.nodePools[m].name, l);
        }
        assert false;
      }
    }
  }

  lemma {:induction false} ItoaGrows(i: nat, j: nat)
    requires i <= j
    ensures |Itoa(i)| <= |Itoa(j)|
  {
    if j >= 10 && i >= 10 {
      ItoaGrows(i / 10, j / 10);
    }
  }

  /** A worker's hostname fits for every index the length check budgets for, and the whole pool
      fits exactly when its last worker does: the pool's size has no ceiling of its own. */
  lemma HostnamesFit(cluster: string, p: NodePool)
    requires PoolOK(cluster, p)
    ensures forall i | 0 <= i <= 999 :: |VMName(cluster, p.name, i)| <= MAX_HOSTNAME_LEN
    ensures (forall i | 0 <= i < p.desiredWorkers :: |VMName(cluster, p.name, i)| <= MAX_HOSTNAME_LEN)
       <==> p.desiredWorkers == 0
            || |cluster| + |p.name| + 2 + |Itoa(p.desiredWorkers - 1)| <= MAX_HOSTNAME_LEN
  {
    forall i: nat | i <= 999
      ensures |VMName(cluster, p.name, i)| <= MAX_HOSTNAME_LEN
    {
      ItoaShort(i);
    }
    if p.desiredWorkers > 0 {
      var last := p.desiredWorkers - 1;
      assert |VMName(cluster, p.name, last)| == |cluster| + |p.name| + 2 + |Itoa(last)|;
      forall i: nat | i <= last
        ensures |VMName(cluster, p.name, i)| <= |VMName(cluster, p.name, last)|
      {
        ItoaGrows(i, last);
      }
    }
  }
}
