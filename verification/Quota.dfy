/** What clusters cost and whether a backend can carry one more (internal/quota/quota.go), with
    the list filters admission feeds it (internal/app/app.go, internal/app/providers.go). */
module Quota {
  import opened Wrappers
  import opened Nodes

  /** The three things a backend runs out of. */
  datatype Dimension = VCPU | Memory | Disk

  datatype Amount = Amount(vcpu: int, memMB: int, diskGB: int) {
    function Of(d: Dimension): int {
      match d
      case VCPU => vcpu
      case Memory => memMB
      case Disk => diskGB
    }
  }

  // ---------------------------------------------------------------- pricing

  function SpecPart(spec: SizeSpec, d: Dimension): nat {
    match d
    case VCPU => spec.cpus
    case Memory => spec.memMB
    case Disk => spec.diskGB
  }

  function NodesCost(nodes: seq<DesiredNode>, d: Dimension): nat {
    if nodes == [] then 0
    else NodesCost(nodes[..|nodes| - 1], d) + SpecPart(nodes[|nodes| - 1].spec, d)
  }

  function DisksCost(disks: seq<NodeDisk>): int {
    if disks == [] then 0 else DisksCost(disks[..|disks| - 1]) + disks[|disks| - 1].sizeGB
  }

  /** Everything the cluster's desired VMs and extra disks occupy, whatever phase a disk is in. */
  function ClusterUsage(c: Cluster): (a: Amount)
    ensures a.vcpu >= 0 && a.memMB >= 0
  {
    var nodes := DesiredNodes(c);
    Amount(NodesCost(nodes, VCPU), NodesCost(nodes, Memory), NodesCost(nodes, Disk) + DisksCost(c.nodeDisks))
  }

  method SumNodes(nodes: seq<DesiredNode>) returns (cpu: nat, mem: nat, disk: nat)
    ensures cpu == NodesCost(nodes, VCPU) && mem == NodesCost(nodes, Memory) && disk == NodesCost(nodes, Disk)
  {
    cpu, mem, disk := 0, 0, 0;
    for i := 0 to |nodes|
      invariant cpu == NodesCost(nodes[..i], VCPU)
      invariant mem == NodesCost(nodes[..i], Memory)
      invariant disk == NodesCost(nodes[..i], Disk)
    {
      assert nodes[..i + 1][..i] == nodes[..i];
      var spec := nodes[i].spec;
      cpu, mem, disk := cpu + spec.cpus, mem + spec.memMB, disk + spec.diskGB;
    }
    assert nodes[..|nodes|] == nodes;
  }

  method SumDisks(disks: seq<NodeDisk>) returns (total: int)
    ensures total == DisksCost(disks)
  {
    total := 0;
    for i := 0 to |disks|
      invariant total == DisksCost(disks[..i])
    {
      assert disks[..i + 1][..i] == disks[..i];
      total := total + disks[i].sizeGB;
    }
    assert disks[..|disks|] == disks;
  }

  method PriceCluster(c: Cluster) returns (a: Amount)
    ensures a == ClusterUsage(c)
  {
    var nodes := ListDesiredNodes(c);
    var cpu, mem, disk := SumNodes(nodes);
    var extra := SumDisks(c.nodeDisks);
    return Amount(cpu, mem, disk + extra);
  }

  // ---------------------------------------------------------------- summing and checking

  /** How a cluster is priced. Sums and checks only add prices up; ClusterUsage is the one in use. */
  type Price = Cluster -> Amount

  predicate Counted(c: Cluster) {
    c.phase.Editable()
  }

  function Usage(price: Price, rows: seq<Cluster>, d: Dimension): int {
    if rows == [] then 0
    else
      var c := rows[|rows| - 1];
      Usage(price, rows[..|rows| - 1], d) + (if Counted(c) then price(c).Of(d) else 0)
  }

  method SumUsage(price: Price, rows: seq<Cluster>) returns (cpu: int, mem: int, disk: int)
    ensures cpu == Usage(price, rows, VCPU)
    ensures mem == Usage(price, rows, Memory)
    ensures disk == Usage(price, rows, Disk)
  {
    cpu, mem, disk := 0, 0, 0;
    for i := 0 to |rows|
      invariant cpu == Usage(price, rows[..i], VCPU)
      invariant mem == Usage(price, rows[..i], Memory)
      invariant disk == Usage(price, rows[..i], Disk)
    {
      assert rows[..i + 1][..i] == rows[..i];
      if rows[i].phase.Terminal() || rows[i].phase == Deleting {
        continue;
      }
      var cost := price(rows[i]);
      cpu, mem, disk := cpu + cost.vcpu, mem + cost.memMB, disk + cost.diskGB;
    }
    assert rows[..|rows|] == rows;
  }

  predicate FitsIn(price: Price, budget: Amount, existing: seq<Cluster>, want: Cluster, d: Dimension) {
    Usage(price, existing, d) + price(want).Of(d) <= budget.Of(d)
  }

  /** The first dimension, if any, in which the candidate does not fit beside the existing. */
  function OverBudget(price: Price, budget: Amount, existing: seq<Cluster>, want: Cluster): Option<Dimension> {
    if !FitsIn(price, budget, existing, want, VCPU) then Some(VCPU)
    else if !FitsIn(price, budget, existing, want, Memory) then Some(Memory)
    else if !FitsIn(price, budget, existing, want, Disk) then Some(Disk)
    else None
  }

  method CheckBudget(price: Price, budget: Amount, existing: seq<Cluster>, want: Cluster) returns (e: Option<Dimension>)
    ensures e == OverBudget(price, budget, existing, want)
  {
    var cpu, mem, disk := SumUsage(price, existing);
    var cost := price(want);
    if cpu + cost.vcpu > budget.vcpu {
      return Some(VCPU);
    }
    if mem + cost.memMB > budget.memMB {
      return Some(Memory);
    }
    if disk + cost.diskGB > budget.diskGB {
      return Some(Disk);
    }
    return None;
  }

  // ---------------------------------------------------------------- list filters

  function OnProvider(rows: seq<Cluster>, provider: string): seq<Cluster> {
    if rows == [] then []
    else
      var c := rows[|rows| - 1];
      OnProvider(rows[..|rows| - 1], provider) + (if c.InfraProvider() == provider then [c] else [])
  }

  function Except(rows: seq<Cluster>, id: string): seq<Cluster> {
    if rows == [] then []
    else
      var c := rows[|rows| - 1];
      Except(rows[..|rows| - 1], id) + (if c.id != id then [c] else [])
  }

  function OwnedBy(rows: seq<Cluster>, owner: string): seq<Cluster> {
    if rows == [] then []
    else
      var c := rows[|rows| - 1];
      OwnedBy(rows[..|rows| - 1], owner) + (if c.owner == owner then [c] else [])
  }

  lemma {:induction false} OnProviderMembers(rows: seq<Cluster>, provider: string)
    ensures forall c :: c in OnProvider(rows, provider) <==> c in rows && c.InfraProvider() == provider
  {
    if rows != [] {
      var front := rows[..|rows| - 1];
      assert rows == front + [rows[|rows| - 1]];
      OnProviderMembers(front, provider);
    }
  }

  lemma {:induction false} ExceptMembers(rows: seq<Cluster>, id: string)
    ensures forall c :: c in Except(rows, id) <==> c in rows && c.id != id
  {
    if rows != [] {
      var front := rows[..|rows| - 1];
      assert rows == front + [rows[|rows| - 1]];
      ExceptMembers(front, id);
    }
  }

  lemma {:induction false} OwnedByMembers(rows: seq<Cluster>, owner: string)
    ensures forall c :: c in OwnedBy(rows, owner) <==> c in rows && c.owner == owner
  {
    if rows != [] {
      var front := rows[..|rows| - 1];
      assert rows == front + [rows[|rows| - 1]];
      OwnedByMembers(front, owner);
    }
  }

  /** The other clusters on the same backend. */
  function Others(rows: seq<Cluster>, provider: string, id: string): seq<Cluster> {
    Except(OnProvider(rows, provider), id)
  }

  lemma OthersMembers(rows: seq<Cluster>, provider: string, id: string)
    ensures forall c :: c in Others(rows, provider, id) <==> c in rows && c.InfraProvider() == provider && c.id != id
  {
    OnProviderMembers(rows, provider);
    ExceptMembers(OnProvider(rows, provider), id);
  }

  method ClustersOwnedBy(rows: seq<Cluster>, owner: string) returns (out: seq<Cluster>)
    ensures out == OwnedBy(rows, owner)
  {
    out := [];
    for i := 0 to |rows|
      invariant out == OwnedBy(rows[..i], owner)
    {
      assert rows[..i + 1][..i] == rows[..i];
      if rows[i].owner == owner {
        out := out + [rows[i]];
      }
    }
    assert rows[..|rows|] == rows;
  }

  method ClustersOnProvider(rows: seq<Cluster>, provider: string) returns (out: seq<Cluster>)
    ensures out == OnProvider(rows, provider)
  {
    out := [];
    for i := 0 to |rows|
      invariant out == OnProvider(rows[..i], provider)
    {
      assert rows[..i + 1][..i] == rows[..i];
      if rows[i].InfraProvider() == provider {
        out := out + [rows[i]];
      }
    }
    assert rows[..|rows|] == rows;
  }

  method ClustersExcept(rows: seq<Cluster>, id: string) returns (out: seq<Cluster>)
    ensures out == Except(rows, id)
  {
    out := [];
    for i := 0 to |rows|
      invariant out == Except(rows[..i], id)
    {
      assert rows[..i + 1][..i] == rows[..i];
      if rows[i].id != id {
        out := out + [rows[i]];
      }
    }
    assert rows[..|rows|] == rows;
  }

  // ---------------------------------------------------------------- what a store does to the sum

  predicate DistinctIds(rows: seq<Cluster>) {
    forall i, j | 0 <= i < j < |rows| :: rows[i].id != rows[j].id
  }

  /** What one cluster adds to a backend's bill. */
  function Share(price: Price, c: Cluster, provider: string, d: Dimension): int {
    if c.InfraProvider() == provider && Counted(c) then price(c).Of(d) else 0
  }

  function Bill(price: Price, rows: seq<Cluster>, provider: string, d: Dimension): int {
    Usage(price, OnProvider(rows, provider), d)
  }

  lemma UsageSnoc(price: Price, rows: seq<Cluster>, c: Cluster, d: Dimension)
    ensures Usage(price, rows + [c], d) == Usage(price, rows, d) + (if Counted(c) then price(c).Of(d) else 0)
  {
    assert (rows + [c])[..|rows|] == rows;
  }

  lemma OnProviderSnoc(rows: seq<Cluster>, c: Cluster, provider: string)
    ensures OnProvider(rows + [c], provider)
         == OnProvider(rows, provider) + (if c.InfraProvider() == provider then [c] else [])
  {
    assert (rows + [c])[..|rows|] == rows;
  }

  lemma ExceptSnoc(rows: seq<Cluster>, c: Cluster, id: string)
    ensures Except(rows + [c], id) == Except(rows, id) + (if c.id != id then [c] else [])
  {
    assert (rows + [c])[..|rows|] == rows;
  }

  lemma BillAppend(price: Price, rows: seq<Cluster>, c: Cluster, provider: string, d: Dimension)
    ensures Bill(price, rows + [c], provider, d) == Bill(price, rows, provider, d) + Share(price, c, provider, d)
  {
    OnProviderSnoc(rows, c, provider);
    var on := OnProvider(rows, provider);
    if c.InfraProvider() == provider {
      UsageSnoc(price, on, c, d);
    } else {
      assert on + [] == on;
    }
  }

  lemma {:induction false} ExceptAbsent(rows: seq<Cluster>, id: string)
    requires forall c | c in rows :: c.id != id
    ensures Except(rows, id) == rows
  {
    if rows != [] {
      var front := rows[..|rows| - 1];
      assert rows == front + [rows[|rows| - 1]];
      ExceptAbsent(front, id);
    }
  }

  /** What all the other clusters on the backend cost. */
  function OthersBill(price: Price, rows: seq<Cluster>, id: string, provider: string, d: Dimension): int {
    Usage(price, Others(rows, provider, id), d)
  }

  lemma OthersSnoc(price: Price, rows: seq<Cluster>, c: Cluster, id: string, provider: string, d: Dimension)
    ensures OthersBill(price, rows + [c], id, provider, d)
         == OthersBill(price, rows, id, provider, d) + (if c.id != id then Share(price, c, provider, d) else 0)
  {
    OnProviderSnoc(rows, c, provider);
    var on := OnProvider(rows, provider);
    if c.InfraProvider() == provider {
      ExceptSnoc(on, c, id);
      if c.id != id {
        UsageSnoc(price, Except(on, id), c, d);
      } else {
        assert Except(on, id) + [] == Except(on, id);
      }
    } else {
      assert on + [] == on;
    }
  }

  lemma NoOthersRemoved(rows: seq<Cluster>, id: string, provider: string)
    requires forall k | 0 <= k < |rows| :: rows[k].id != id
    ensures Except(OnProvider(rows, provider), id) == OnProvider(rows, provider)
  {
    OnProviderMembers(rows, provider);
    forall r | r in OnProvider(rows, provider)
      ensures r.id != id
    {
      var k :| 0 <= k < |rows| && rows[k] == r;
    }
    ExceptAbsent(OnProvider(rows, provider), id);
  }

  /** A backend's bill is what the others cost plus the cluster's own share. */
  lemma {:induction false} BillSplits(price: Price, rows: seq<Cluster>, i: nat, provider: string, d: Dimension)
    requires i < |rows| && DistinctIds(rows)
    ensures Bill(price, rows, provider, d)
         == OthersBill(price, rows, rows[i].id, provider, d) + Share(price, rows[i], provider, d)
  {
    var front, last := rows[..|rows| - 1], rows[|rows| - 1];
    assert rows == front + [last];
    BillAppend(price, front, last, provider, d);
    OthersSnoc(price, front, last, rows[i].id, provider, d);
    if i == |rows| - 1 {
      NoOthersRemoved(front, last.id, provider);
    } else {
      assert rows[i].id != last.id;
      BillSplits(price, front, i, provider, d);
    }
  }

  lemma {:induction false} OthersUntouched(price: Price, rows: seq<Cluster>, i: nat, c: Cluster, provider: string, d: Dimension)
    requires i < |rows| && c.id == rows[i].id
    ensures OthersBill(price, rows[i := c], c.id, provider, d) == OthersBill(price, rows, c.id, provider, d)
  {
    var front, last := rows[..|rows| - 1], rows[|rows| - 1];
    assert rows == front + [last];
    OthersSnoc(price, front, last, c.id, provider, d);
    if i == |rows| - 1 {
      assert rows[i := c] == front + [c];
      OthersSnoc(price, front, c, c.id, provider, d);
    } else {
      assert rows[i := c] == front[i := c] + [last];
      OthersUntouched(price, front, i, c, provider, d);
      OthersSnoc(price, front[i := c], last, c.id, provider, d);
    }
  }

  lemma BillReplace(price: Price, rows: seq<Cluster>, i: nat, c: Cluster, provider: string, d: Dimension)
    requires i < |rows| && DistinctIds(rows) && c.id == rows[i].id
    ensures Bill(price, rows[i := c], provider, d)
         == OthersBill(price, rows, c.id, provider, d) + Share(price, c, provider, d)
  {
    var now := rows[i := c];
    assert DistinctIds(now);
    BillSplits(price, now, i, provider, d);
    OthersUntouched(price, rows, i, c, provider, d);
  }

  // ---------------------------------------------------------------- ceilings

  /** Ceilings per backend; a backend without one is not capped. */
  type Ceilings = map<string, Amount>

  ghost predicate WithinCeilings(price: Price, ceilings: Ceilings, rows: seq<Cluster>) {
    forall p, d: Dimension | p in ceilings :: Bill(price, rows, p, d) <= ceilings[p].Of(d)
  }

  function BackendError(price: Price, ceilings: Ceilings, existing: seq<Cluster>, want: Cluster): Option<Dimension> {
    if want.InfraProvider() !in ceilings then None
    else OverBudget(price, ceilings[want.InfraProvider()], existing, want)
  }

  method CheckProviderCapacity(price: Price, ceilings: Ceilings, existing: seq<Cluster>, want: Cluster)
    returns (e: Option<Dimension>)
    ensures e == BackendError(price, ceilings, existing, want)
  {
    var p := want.InfraProvider();
    if p !in ceilings {
      return None;
    }
    e := CheckBudget(price, ceilings[p], existing, want);
  }

  lemma FitsEveryWay(price: Price, budget: Amount, existing: seq<Cluster>, want: Cluster, d: Dimension)
    requires OverBudget(price, budget, existing, want).None?
    ensures FitsIn(price, budget, existing, want, d)
  {
    match d
    case VCPU =>
    case Memory =>
    case Disk =>
  }

  /** Storing a checked new cluster keeps every ceiling. */
  lemma CreateKeepsCeilings(price: Price, ceilings: Ceilings, rows: seq<Cluster>, c: Cluster)
    requires WithinCeilings(price, ceilings, rows)
    requires BackendError(price, ceilings, OnProvider(rows, c.InfraProvider()), c).None?
    ensures WithinCeilings(price, ceilings, rows + [c])
  {
    forall p, d: Dimension | p in ceilings
      ensures Bill(price, rows + [c], p, d) <= ceilings[p].Of(d)
    {
      BillAppend(price, rows, c, p, d);
      if p == c.InfraProvider() {
        FitsEveryWay(price, ceilings[p], OnProvider(rows, p), c, d);
      }
    }
  }

  /** Replacing a row by a candidate checked against all the other rows keeps every ceiling. */
  lemma ReplaceKeepsCeilings(price: Price, ceilings: Ceilings, rows: seq<Cluster>, i: nat, c: Cluster)
    requires WithinCeilings(price, ceilings, rows) && DistinctIds(rows)
    requires i < |rows| && c.id == rows[i].id && c.InfraProvider() == rows[i].InfraProvider()
    requires Counted(c)
    requires BackendError(price, ceilings, Others(rows, c.InfraProvider(), c.id), c).None?
    ensures WithinCeilings(price, ceilings, rows[i := c])
  {
    forall p, d: Dimension | p in ceilings
      ensures Bill(price, rows[i := c], p, d) <= ceilings[p].Of(d)
    {
      BillReplace(price, rows, i, c, p, d);
      if p == c.InfraProvider() {
        FitsEveryWay(price, ceilings[p], Others(rows, p, c.id), c, d);
      } else {
        BillElsewhere(price, rows, i, c, p, d);
      }
    }
  }

  lemma BillElsewhere(price: Price, rows: seq<Cluster>, i: nat, c: Cluster, p: string, d: Dimension)
    requires i < |rows| && DistinctIds(rows) && c.id == rows[i].id
    requires c.InfraProvider() == rows[i].InfraProvider() != p
    ensures Bill(price, rows[i := c], p, d) == Bill(price, rows, p, d)
  {
    BillReplace(price, rows, i, c, p, d);
    BillSplits(price, rows, i, p, d);
  }

  /** A row that asks for no more, or stops counting, needs no check. */
  lemma ShrinkKeepsCeilings(price: Price, ceilings: Ceilings, rows: seq<Cluster>, i: nat, c: Cluster)
    requires WithinCeilings(price, ceilings, rows) && DistinctIds(rows)
    requires i < |rows| && c.id == rows[i].id
    requires forall p, d :: Share(price, c, p, d) <= Share(price, rows[i], p, d)
    ensures WithinCeilings(price, ceilings, rows[i := c])
  {
    forall p, d: Dimension | p in ceilings
      ensures Bill(price, rows[i := c], p, d) <= ceilings[p].Of(d)
    {
      BillReplace(price, rows, i, c, p, d);
      BillSplits(price, rows, i, p, d);
      assert Bill(price, rows, p, d) <= ceilings[p].Of(d);
    }
  }

  // ---------------------------------------------------------------- the price in use

  /** Same nodes wanted. */
  predicate SameNodes(c: Cluster, d: Cluster) {
    c.name == d.name && c.size == d.size && c.controlPlanes == d.controlPlanes && c.nodePools == d.nodePools
  }

  /** With the same nodes, no more disk costs no more; and nothing has a negative price. */
  ghost predicate Fair(price: Price) {
    && (forall b, c, d: Dimension | SameNodes(b, c) && DisksCost(c.nodeDisks) <= DisksCost(b.nodeDisks) ::
          price(c).Of(d) <= price(b).Of(d))
    && (forall c: Cluster, d: Dimension | DisksCost(c.nodeDisks) >= 0 :: price(c).Of(d) >= 0)
  }

  lemma ClusterUsageIsFair()
    ensures Fair(ClusterUsage)
  {
    forall b, c, d: Dimension | SameNodes(b, c) && DisksCost(c.nodeDisks) <= DisksCost(b.nodeDisks)
      ensures ClusterUsage(c).Of(d) <= ClusterUsage(b).Of(d)
    {
      assert DesiredNodes(b) == DesiredNodes(c);
    }
  }
}
