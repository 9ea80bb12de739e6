/** Admission of desired state: create, pool edit, disk add, disk remove and delete, each one
    atomic step under the admission lock, interleaved with the reconciler's own steps
    (internal/app/app.go, internal/app/nodedisk.go, internal/app/providers.go). */
module Admission {
  import opened Wrappers
  import opened Text
  import opened Nodes
  import opened Disks
  import opened DiskRows
  import opened Netpool
  import opened Addressing
  import opened Quota

  // ---------------------------------------------------------------- configuration and requests

  /** What the deployment fixes: the shared networks by backend, the capacity ceilings, the
      enabled backends and how clusters are priced. */
  datatype Config = Config(
    providers: seq<string>,
    sharedNet: map<string, NetSettings>,
    ceilings: Ceilings,
    price: Price)

  ghost predicate GoodConfig(cfg: Config) {
    && |cfg.providers| > 0
    && (forall p | p in cfg.sharedNet :: cfg.sharedNet[p].WellFormed())
    && Fair(cfg.price)
    && forall p, d: Dimension | p in cfg.ceilings :: 0 <= cfg.ceilings[p].Of(d)
  }

  /** The addresses the per-cluster network allocator derived, on a backend with no shared net. */
  datatype DerivedNet = DerivedNet(vip: string, loadBalancerIP: string)

  /** A create request, together with what other components contribute to the decision: the
      minted id, whether the add-on selection includes longhorn, the owner's remaining budget
      record and the derived network. */
  datatype CreateRequest = CreateRequest(
    id: string,
    owner: string,
    name: string,
    size: string,
    nodePools: seq<NodePool>,
    ha: bool,
    provider: string,
    apiVIP: string,
    loadBalancerIP: string,
    networkCIDR: string,
    storageDiskGB: Option<int>,
    longhorn: bool,
    ownerBudget: Amount,
    derived: Option<DerivedNet>)

  datatype DiskRequest = DiskRequest(vmName: string, name: string, sizeGB: int, mountPath: string, fsType: string)

  datatype Rejection =
    | NameMissing | SizeUnknown | BadPools(pool: PoolError) | ProviderNotEnabled | NameTaken | BadStorageSize
    | OwnerOver(dim: Dimension) | BackendOver(dim: Dimension) | CIDRNotAllowed | NoAddress(net: NetError)
    | NoNetwork | IdTaken | NotFound | NotEditable | NotReady | PoolSizeImmutable | PoolDiskImmutable
    | BadDisk(disk: DiskError) | PlatformDiskKept

  // ---------------------------------------------------------------- create

  const DEFAULT_POOL := "default"
  const DEFAULT_STORAGE_GB := 10
  const HA_CONTROL_PLANES := 3

  predicate HasPool(pools: seq<NodePool>, name: string) {
    exists p | p in pools :: p.name == name
  }

  function EnsureDefaultPool(pools: seq<NodePool>, size: string): seq<NodePool> {
    if HasPool(pools, DEFAULT_POOL) then pools else [NodePool(DEFAULT_POOL, size, 0, 0)] + pools
  }

  function StorageSize(req: CreateRequest): Result<int, Rejection> {
    var size := if req.storageDiskGB.Some? then req.storageDiskGB.value else DEFAULT_STORAGE_GB;
    if size == 0 then Ok(0)
    else if !SizeOK(size) then Err(BadStorageSize)
    else if req.longhorn then Ok(size)
    else Ok(0)
  }

  function ResolveProvider(cfg: Config, requested: string): Option<string> {
    if requested == "" then (if cfg.providers == [] then None else Some(cfg.providers[0]))
    else if requested in cfg.providers then Some(requested)
    else None
  }

  predicate OwnsName(rows: seq<Cluster>, owner: string, name: string) {
    exists c | c in rows :: c.owner == owner && c.name == name && !c.deleted
  }

  predicate HasId(rows: seq<Cluster>, id: string) {
    exists c | c in rows :: c.id == id
  }

  function EffectiveSize(req: CreateRequest): string {
    if req.size == "" then "small" else req.size
  }

  /** The cluster asked for, before it has disks or addresses. */
  function Blank(req: CreateRequest, provider: string, storageGB: int): Cluster {
    Cluster(req.id, req.name, req.owner, EffectiveSize(req), EnsureDefaultPool(req.nodePools, EffectiveSize(req)),
            if req.ha then HA_CONTROL_PLANES else 1, provider, Pending, 1, storageGB, [], "", map[], "", "", false)
  }

  function WithNetwork(cfg: Config, rows: seq<Cluster>, req: CreateRequest, c: Cluster): Result<Cluster, Rejection> {
    var p := c.InfraProvider();
    if p in cfg.sharedNet then
      if Trim(req.networkCIDR) != "" then Err(CIDRNotAllowed)
      else
        var r := ClaimAddresses(c, cfg.sharedNet[p], req.apiVIP, req.loadBalancerIP, OnProvider(rows, p));
        if r.Err? then Err(NoAddress(r.error)) else Ok(r.value)
    else if req.derived.None? then Err(NoNetwork)
    else Ok(c.(apiVIP := if req.ha then req.derived.value.vip else "", loadBalancerIP := req.derived.value.loadBalancerIP))
  }

  /** The owner's budget first, then the backend's ceiling; each against the clusters it already
      carries. */
  function BudgetError(cfg: Config, mine: seq<Cluster>, all: seq<Cluster>, c: Cluster, budget: Amount): Option<Rejection> {
    var owner := OverBudget(cfg.price, budget, mine, c);
    if owner.Some? then Some(OwnerOver(owner.value))
    else
      var backend := BackendError(cfg.price, cfg.ceilings, all, c);
      if backend.Some? then Some(BackendOver(backend.value)) else None
  }

  /** For a cluster that exists, its own row is left out of what is already carried. */
  function EditError(cfg: Config, rows: seq<Cluster>, c: Cluster, budget: Amount): Option<Rejection> {
    var p := c.InfraProvider();
    BudgetError(cfg, Except(OnProvider(OwnedBy(rows, c.owner), p), c.id), Others(rows, p, c.id), c, budget)
  }

  /** A well-formed candidate, once it has its storage disks, fits and has its addresses. */
  function Admitted(cfg: Config, rows: seq<Cluster>, req: CreateRequest, blank: Cluster): Result<Cluster, Rejection> {
    var c := blank.(nodeDisks := Synced(blank));
    var p := c.InfraProvider();
    var over := BudgetError(cfg, OnProvider(OwnedBy(rows, c.owner), p), OnProvider(rows, p), c, req.ownerBudget);
    if over.Some? then Err(over.value)
    else
      var r := WithNetwork(cfg, rows, req, c);
      if r.Ok? && HasId(rows, req.id) then Err(IdTaken) else r
  }

  /** The cluster a create stores, or why it is refused. */
  function Created(cfg: Config, rows: seq<Cluster>, req: CreateRequest): Result<Cluster, Rejection> {
    var size := EffectiveSize(req);
    var pools := EnsureDefaultPool(req.nodePools, size);
    if req.name == "" then Err(NameMissing)
    else if !KnownSize(size) then Err(SizeUnknown)
    else if CheckPools(req.name, pools, {}).Some? then Err(BadPools(CheckPools(req.name, pools, {}).value))
    else if ResolveProvider(cfg, req.provider).None? then Err(ProviderNotEnabled)
    else if OwnsName(rows, req.owner, req.name) then Err(NameTaken)
    else if StorageSize(req).Err? then Err(StorageSize(req).error)
    else
      Admitted(cfg, rows, req, Blank(req, ResolveProvider(cfg, req.provider).value, StorageSize(req).value))
  }

  // ---------------------------------------------------------------- pool edit

  function FindPool(pools: seq<NodePool>, name: string): (p: Option<NodePool>)
    ensures p.Some? ==> p.value in pools && p.value.name == name
    ensures p.None? ==> forall q | q in pools :: q.name != name
  {
    if pools == [] then None
    else if pools[0].name == name then Some(pools[0])
    else FindPool(pools[1..], name)
  }

  /** A pool's size and root disk are fixed for its life. */
  function Immutability(current: seq<NodePool>, want: seq<NodePool>): Option<Rejection> {
    if want == [] then None
    else
      var cur := FindPool(current, want[0].name);
      if cur.Some? && cur.value.size != want[0].size then Some(PoolSizeImmutable)
      else if cur.Some? && cur.value.diskGB != want[0].diskGB then Some(PoolDiskImmutable)
      else Immutability(current, want[1..])
  }

  /** Nothing to do: the same pools with the same worker counts, in whatever order. */
  predicate SameTopology(current: seq<NodePool>, want: seq<NodePool>) {
    && (forall w | w in want ::
          FindPool(current, w.name).Some? && FindPool(current, w.name).value.desiredWorkers == w.desiredWorkers)
    && forall p | p in current :: HasPool(want, p.name)
  }

  function FollowAddresses(cfg: Config, rows: seq<Cluster>, c: Cluster): Result<AddressBook, Rejection> {
    var p := c.InfraProvider();
    if p !in cfg.sharedNet || c.ipMode != "static" then Ok(c.staticIPs)
    else
      var reserved := UsedBy(Others(rows, p, c.id)) + FixedAddresses(c);
      var r := ScaledAddresses(NodeVMNames(c), c.staticIPs, cfg.sharedNet[p], reserved);
      if r.Err? then Err(NoAddress(r.error)) else Ok(r.value)
  }

  /** The candidate with its new pools and disks, once it fits and its addresses have followed. */
  function Rescaled(cfg: Config, rows: seq<Cluster>, e: Cluster, budget: Amount): Result<Cluster, Rejection> {
    var over := EditError(cfg, rows, e, budget);
    if over.Some? then Err(over.value)
    else
      var book := FollowAddresses(cfg, rows, e);
      if book.Err? then Err(book.error)
      else Ok(e.(staticIPs := book.value, generation := e.generation + 1))
  }

  function Edited(cfg: Config, rows: seq<Cluster>, c: Cluster, want: seq<NodePool>, budget: Amount): Result<Cluster, Rejection> {
    if !c.phase.Editable() then Err(NotEditable)
    else if CheckPools(c.name, want, {}).Some? then Err(BadPools(CheckPools(c.name, want, {}).value))
    else if Immutability(c.nodePools, want).Some? then Err(Immutability(c.nodePools, want).value)
    else if SameTopology(c.nodePools, want) then Ok(c)
    else Rescaled(cfg, rows, c.(nodePools := want, nodeDisks := EditedDisks(c, want)), budget)
  }

  // ---------------------------------------------------------------- disks and deletion

  function LonghornMountPath(name: string): string {
    if name == PLATFORM_STORAGE then LONGHORN_DATA_PATH else LONGHORN_DATA_PATH + "-" + name
  }

  function NewRow(req: DiskRequest): NodeDisk {
    NodeDisk(req.vmName, req.name, req.sizeGB,
             if req.mountPath == "" then LonghornMountPath(req.name) else req.mountPath,
             if req.fsType == "" then "ext4" else req.fsType,
             DiskPending, "")
  }

  function DiskAdded(cfg: Config, rows: seq<Cluster>, c: Cluster, req: DiskRequest, budget: Amount): Result<Cluster, Rejection> {
    if CheckUserDiskName(req.name).Some? then Err(BadDisk(CheckUserDiskName(req.name).value))
    else if c.phase != Ready then Err(NotReady)
    else
      var e := c.(nodeDisks := c.nodeDisks + [NewRow(req)]);
      WithMoreDisks(cfg, rows, e, CheckDisks(WorkerNames(e), [], e.nodeDisks), budget)
  }

  function WithMoreDisks(cfg: Config, rows: seq<Cluster>, e: Cluster, bad: Option<DiskError>, budget: Amount)
    : Result<Cluster, Rejection>
  {
    if bad.Some? then Err(BadDisk(bad.value))
    else
      var over := EditError(cfg, rows, e, budget);
      if over.Some? then Err(over.value) else Ok(e.(generation := e.generation + 1))
  }

  function DiskRemoved(c: Cluster, vm: string, name: string): Result<Cluster, Rejection> {
    if !c.phase.Editable() then Err(NotEditable)
    else
      match MarkRemoving(c.nodeDisks, vm, name)
      case NoSuchDisk => Err(NotFound)
      case PlatformDisk => Err(PlatformDiskKept)
      case AlreadyRemoving => Ok(c)
      case Marked(disks) => Ok(c.(nodeDisks := disks, generation := c.generation + 1))
  }

  function MarkedDeleted(c: Cluster): Result<Cluster, Rejection> {
    Ok(if c.phase == Deleting || c.phase == Deleted then c else c.(phase := Deleting, generation := c.generation + 1))
  }

  // ---------------------------------------------------------------- the machine

  datatype Step =
    | Create(req: CreateRequest)
    | EditPools(id: string, want: seq<NodePool>, budget: Amount)
    | AddDisk(id: string, disk: DiskRequest, budget: Amount)
    | RemoveDisk(id: string, vm: string, name: string)
    | Delete(id: string)
    // the reconciler
    | Advance(id: string, phase: Phase)
    | Observe(id: string, report: DeviceReport)
    | Mount(id: string)
    | Release(id: string)
    | FinishDelete(id: string)

  function FindRowById(rows: seq<Cluster>, id: string): (i: Option<nat>)
    ensures i.Some? ==> i.value < |rows| && rows[i.value].id == id
    ensures i.None? ==> !HasId(rows, id)
  {
    if rows == [] then None
    else if rows[0].id == id then Some(0)
    else
      var i := FindRowById(rows[1..], id);
      if i.Some? then Some(i.value + 1) else None
  }

  /** What a step other than Create makes of the row it names. */
  function NewVersion(cfg: Config, rows: seq<Cluster>, c: Cluster, step: Step): Result<Cluster, Rejection>
    requires !step.Create?
  {
    match step
    case EditPools(_, want, budget) => Edited(cfg, rows, c, want, budget)
    case AddDisk(_, disk, budget) => DiskAdded(cfg, rows, c, disk, budget)
    case RemoveDisk(_, vm, name) => DiskRemoved(c, vm, name)
    case Delete(_) => MarkedDeleted(c)
    case Advance(_, phase) => if c.phase.Editable() && phase.Editable() then Ok(c.(phase := phase)) else Err(NotEditable)
    case Observe(_, report) => if c.phase.Editable() then Ok(c.(nodeDisks := Observed(c.nodeDisks, report))) else Err(NotEditable)
    case Mount(_) => if c.phase.Editable() then Ok(c.(nodeDisks := Mounted(c.nodeDisks))) else Err(NotEditable)
    case Release(_) => if c.phase.Editable() then Ok(c.(nodeDisks := Released(c.nodeDisks))) else Err(NotEditable)
    case FinishDelete(_) => if c.phase == Deleting then Ok(c.(phase := Deleted, deleted := true)) else Err(NotEditable)
  }

  function Outcome(cfg: Config, rows: seq<Cluster>, step: Step): Result<seq<Cluster>, Rejection> {
    if step.Create? then
      var r := Created(cfg, rows, step.req);
      if r.Err? then Err(r.error) else Ok(rows + [r.value])
    else
      var i := FindRowById(rows, step.id);
      if i.None? then Err(NotFound)
      else
        var r := NewVersion(cfg, rows, rows[i.value], step);
        if r.Err? then Err(r.error) else Ok(rows[i.value := r.value])
  }

  /** A refused step changes nothing. */
  function After(cfg: Config, rows: seq<Cluster>, step: Step): seq<Cluster> {
    var r := Outcome(cfg, rows, step);
    if r.Ok? then r.value else rows
  }

  function Run(cfg: Config, steps: seq<Step>): seq<Cluster> {
    if steps == [] then [] else After(cfg, Run(cfg, steps[..|steps| - 1]), steps[|steps| - 1])
  }

  // ---------------------------------------------------------------- the invariant

  /** One stored cluster: valid pools and disks, its own addresses all different, deleted exactly
      when its phase says so. */
  ghost predicate RowInv(cfg: Config, c: Cluster) {
    && ValidPools(c.name, c.nodePools)
    && DisksInv(c)
    && (c.controlPlanes == 1 || c.controlPlanes == HA_CONTROL_PLANES)
    && (c.deleted <==> c.phase == Deleted)
    && (c.InfraProvider() in cfg.sharedNet ==> AddressInv(c))
  }

  predicate ShareNetwork(cfg: Config, c: Cluster, d: Cluster) {
    !c.deleted && !d.deleted && c.InfraProvider() == d.InfraProvider() && c.InfraProvider() in cfg.sharedNet
  }

  ghost predicate AddressesDisjoint(cfg: Config, rows: seq<Cluster>) {
    forall i, j | 0 <= i < j < |rows| && ShareNetwork(cfg, rows[i], rows[j]) :: Addresses(rows[i]) !! Addresses(rows[j])
  }

  ghost predicate Inv(cfg: Config, rows: seq<Cluster>) {
    && DistinctIds(rows)
    && (forall c | c in rows :: RowInv(cfg, c))
    && AddressesDisjoint(cfg, rows)
    && WithinCeilings(cfg.price, cfg.ceilings, rows)
  }

  // ---------------------------------------------------------------- appending and replacing rows

  lemma HoldersAreUsed(rows: seq<Cluster>, d: Cluster, id: string)
    requires d in rows && d.id != id && !d.deleted
    ensures Addresses(d) <= UsedBy(Others(rows, d.InfraProvider(), id))
  {
    OthersMembers(rows, d.InfraProvider(), id);
    UsedByMembers(Others(rows, d.InfraProvider(), id), d);
  }

  lemma AppendKeepsInv(cfg: Config, rows: seq<Cluster>, c: Cluster)
    requires Inv(cfg, rows) && RowInv(cfg, c) && !HasId(rows, c.id)
    requires c.InfraProvider() in cfg.sharedNet ==> Addresses(c) !! UsedBy(OnProvider(rows, c.InfraProvider()))
    requires WithinCeilings(cfg.price, cfg.ceilings, rows + [c])
    ensures Inv(cfg, rows + [c])
  {
    var now := rows + [c];
    forall i, j | 0 <= i < j < |now|
      ensures now[i].id != now[j].id
      ensures ShareNetwork(cfg, now[i], now[j]) ==> Addresses(now[i]) !! Addresses(now[j])
    {
      if j < |rows| {
        assert now[i] == rows[i] && now[j] == rows[j];
      } else {
        assert now[i] == rows[i] && rows[i] in rows;
        if ShareNetwork(cfg, now[i], now[j]) {
          OnProviderMembers(rows, c.InfraProvider());
          UsedByMembers(OnProvider(rows, c.InfraProvider()), rows[i]);
        }
      }
    }
  }

  lemma ReplaceKeepsInv(cfg: Config, rows: seq<Cluster>, i: nat, c: Cluster)
    requires Inv(cfg, rows) && i < |rows| && RowInv(cfg, c)
    requires c.id == rows[i].id && c.InfraProvider() == rows[i].InfraProvider()
    requires !c.deleted ==> !rows[i].deleted
    requires c.InfraProvider() in cfg.sharedNet && !c.deleted ==>
      Addresses(c) == Addresses(rows[i])
      || Addresses(c) !! UsedBy(Others(rows, c.InfraProvider(), c.id))
    requires WithinCeilings(cfg.price, cfg.ceilings, rows[i := c])
    ensures Inv(cfg, rows[i := c])
  {
    var now := rows[i := c];
    forall k, l | 0 <= k < l < |now| && ShareNetwork(cfg, now[k], now[l])
      ensures Addresses(now[k]) !! Addresses(now[l])
    {
      assert ShareNetwork(cfg, rows[k], rows[l]);
      assert rows[k] in rows && rows[l] in rows;
      if k == i {
        HoldersAreUsed(rows, rows[l], c.id);
      } else if l == i {
        HoldersAreUsed(rows, rows[k], c.id);
      }
    }
    forall r | r in now
      ensures RowInv(cfg, r)
    {
      var k :| 0 <= k < |now| && now[k] == r;
      assert k != i ==> rows[k] in rows;
    }
  }
}
