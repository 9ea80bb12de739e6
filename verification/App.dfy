/** The platform's admission operations in the form the code has them: each reads the stored rows,
    decides, and writes at most one row. Every one is proved to take exactly the step of Admission
    that describes it, so what holds of every run of steps holds of every sequence of calls
    (internal/app/app.go, internal/app/nodedisk.go, internal/app/providers.go). */
module Apps {
  import opened Wrappers
  import opened Text
  import opened Nodes
  import opened Disks
  import opened DiskRows
  import opened Addressing
  import opened Quota
  import opened Admission
  import opened AdmissionRuns

  // ---------------------------------------------------------------- the loops admission is made of

  method FillDefaultPool(pools: seq<NodePool>, size: string) returns (out: seq<NodePool>)
    ensures out == EnsureDefaultPool(pools, size)
  {
    for i := 0 to |pools|
      invariant forall p | p in pools[..i] :: p.name != DEFAULT_POOL
    {
      if pools[i].name == DEFAULT_POOL {
        assert pools[i] in pools;
        return pools;
      }
    }
    assert pools[..|pools|] == pools;
    return [NodePool(DEFAULT_POOL, size, 0, 0)] + pools;
  }

  method NameInUse(owned: seq<Cluster>, name: string) returns (taken: bool)
    ensures taken <==> exists c | c in owned :: c.name == name && !c.deleted
  {
    for i := 0 to |owned|
      invariant forall c | c in owned[..i] :: !(c.name == name && !c.deleted)
    {
      if owned[i].name == name && !owned[i].deleted {
        assert owned[i] in owned;
        return true;
      }
    }
    assert owned[..|owned|] == owned;
    return false;
  }

  method CheckImmutable(current: seq<NodePool>, want: seq<NodePool>) returns (e: Option<Rejection>)
    ensures e == Immutability(current, want)
  {
    for i := 0 to |want|
      invariant Immutability(current, want) == Immutability(current, want[i..])
    {
      assert want[i..][0] == want[i] && want[i..][1..] == want[i + 1..];
      var cur := FindPool(current, want[i].name);
      if cur.None? {
        continue;
      }
      if cur.value.size != want[i].size {
        return Some(PoolSizeImmutable);
      }
      if cur.value.diskGB != want[i].diskGB {
        return Some(PoolDiskImmutable);
      }
    }
    assert want[|want|..] == [];
    return None;
  }

  /** Counts the pools that were added, resized or removed. */
  method CountPoolChanges(current: seq<NodePool>, want: seq<NodePool>) returns (changes: nat)
    ensures changes == 0 <==> SameTopology(current, want)
  {
    changes := 0;
    var wanted: set<string> := {};
    for i := 0 to |want|
      invariant forall n :: n in wanted <==> exists k | 0 <= k < i :: want[k].name == n
      invariant changes == 0 <==> forall k | 0 <= k < i :: Unmoved(current, want[k])
    {
      wanted := wanted + {want[i].name};
      var cur := FindPool(current, want[i].name);
      if cur.None? || cur.value.desiredWorkers != want[i].desiredWorkers {
        assert !Unmoved(current, want[i]);
        changes := changes + 1;
      } else {
        assert Unmoved(current, want[i]);
      }
    }
    var removed := CountRemoved(current, wanted);
    changes := changes + removed;
    forall p | p in current
      ensures p.name in wanted <==> HasPool(want, p.name)
    {
    }
    assert forall k | 0 <= k < |want| :: want[k] in want;
  }

  method CountRemoved(current: seq<NodePool>, wanted: set<string>) returns (removed: nat)
    ensures removed == 0 <==> forall p | p in current :: p.name in wanted
  {
    removed := 0;
    for i := 0 to |current|
      invariant removed == 0 <==> forall k | 0 <= k < i :: current[k].name in wanted
    {
      if current[i].name !in wanted {
        removed := removed + 1;
      }
    }
    assert forall k | 0 <= k < |current| :: current[k] in current;
  }

  predicate Unmoved(current: seq<NodePool>, w: NodePool) {
    FindPool(current, w.name).Some? && FindPool(current, w.name).value.desiredWorkers == w.desiredWorkers
  }

  // ---------------------------------------------------------------- the service

  /** Why a step is refused, if it is. */
  function Refusal(cfg: Config, rows: seq<Cluster>, step: Step): Option<Rejection> {
    var r := Outcome(cfg, rows, step);
    if r.Ok? then None else Some(r.error)
  }

  /** A step other than Create stores the new version of the row it names. */
  lemma StepStores(cfg: Config, rows: seq<Cluster>, step: Step, i: nat, f: Cluster)
    requires GoodConfig(cfg) && Inv(cfg, rows)
    requires !step.Create? && FindRowById(rows, step.id) == Some(i) && NewVersion(cfg, rows, rows[i], step) == Ok(f)
    ensures Inv(cfg, rows[i := f]) && After(cfg, rows, step) == rows[i := f] && Refusal(cfg, rows, step) == None
  {
    StepKeepsInv(cfg, rows, step);
  }

  lemma StepRefuses(cfg: Config, rows: seq<Cluster>, step: Step)
    requires !step.Create?
    requires var i := FindRowById(rows, step.id); i.Some? ==> NewVersion(cfg, rows, rows[i.value], step).Err?
    ensures After(cfg, rows, step) == rows
    ensures Refusal(cfg, rows, step) == var i := FindRowById(rows, step.id);
              Some(if i.None? then NotFound else NewVersion(cfg, rows, rows[i.value], step).error)
  {
  }

  class App {
    const cfg: Config
    var rows: seq<Cluster>

    ghost predicate Valid()
      reads this
    {
      GoodConfig(cfg) && Inv(cfg, rows)
    }

    constructor (cfg: Config)
      requires GoodConfig(cfg)
      ensures Valid() && rows == [] && this.cfg == cfg
    {
      this.cfg := cfg;
      rows := [];
      EmptyPlatform(cfg);
    }

    method CheckCapacity(mine: seq<Cluster>, all: seq<Cluster>, c: Cluster, budget: Amount) returns (e: Option<Rejection>)
      ensures e == BudgetError(cfg, mine, all, c, budget)
    {
      var over := CheckBudget(cfg.price, budget, mine, c);
      if over.Some? {
        return Some(OwnerOver(over.value));
      }
      over := CheckProviderCapacity(cfg.price, cfg.ceilings, all, c);
      if over.Some? {
        return Some(BackendOver(over.value));
      }
      return None;
    }

    /** Both gates for a cluster already stored: it is not charged beside itself. */
    method CheckEdit(candidate: Cluster, budget: Amount) returns (e: Option<Rejection>)
      ensures e == EditError(cfg, rows, candidate, budget)
    {
      var p := candidate.InfraProvider();
      var mine := ClustersOwnedBy(rows, candidate.owner);
      mine := ClustersOnProvider(mine, p);
      mine := ClustersExcept(mine, candidate.id);
      var all := ClustersOnProvider(rows, p);
      all := ClustersExcept(all, candidate.id);
      e := CheckCapacity(mine, all, candidate, budget);
    }

    method AdmitNetwork(req: CreateRequest, c: Cluster, others: seq<Cluster>) returns (r: Result<Cluster, Rejection>)
      requires GoodConfig(cfg) && others == OnProvider(rows, c.InfraProvider())
      ensures r == WithNetwork(cfg, rows, req, c)
    {
      var p := c.InfraProvider();
      if p in cfg.sharedNet {
        if Trim(req.networkCIDR) != "" {
          return Err(CIDRNotAllowed);
        }
        var claimed := AdmitSharedNetwork(c, cfg.sharedNet[p], req.apiVIP, req.loadBalancerIP, others);
        if claimed.Err? {
          return Err(NoAddress(claimed.error));
        }
        return Ok(claimed.value);
      }
      if req.derived.None? {
        return Err(NoNetwork);
      }
      var vip := if req.ha then req.derived.value.vip else "";
      return Ok(c.(apiVIP := vip, loadBalancerIP := req.derived.value.loadBalancerIP));
    }

    /** The locked half of a create: capacity, then network, then the row. */
    method AdmitCluster(req: CreateRequest, blank: Cluster) returns (r: Result<Cluster, Rejection>)
      requires GoodConfig(cfg)
      ensures r == Admitted(cfg, rows, req, blank)
    {
      var disks := SyncStorageDisks(blank);
      var c := blank.(nodeDisks := disks);
      var mine := ClustersOwnedBy(rows, c.owner);
      mine := ClustersOnProvider(mine, c.InfraProvider());
      var all := ClustersOnProvider(rows, c.InfraProvider());
      var over := CheckCapacity(mine, all, c, req.ownerBudget);
      if over.Some? {
        return Err(over.value);
      }
      r := AdmitNetwork(req, c, all);
      if r.Ok? && HasId(rows, req.id) {
        return Err(IdTaken);
      }
    }

    method CreateCluster(req: CreateRequest) returns (r: Result<Cluster, Rejection>)
      requires Valid()
      modifies this
      ensures Valid() && r == Created(cfg, old(rows), req)
      ensures rows == After(cfg, old(rows), Create(req))
    {
      StepKeepsInv(cfg, rows, Create(req));
      if req.name == "" {
        return Err(NameMissing);
      }
      var size := if req.size == "" then "small" else req.size;
      if !KnownSize(size) {
        return Err(SizeUnknown);
      }
      var pools := FillDefaultPool(req.nodePools, size);
      var bad := ValidateNodePools(req.name, pools);
      if bad.Some? {
        return Err(BadPools(bad.value));
      }
      var provider := ResolveProvider(cfg, req.provider);
      if provider.None? {
        return Err(ProviderNotEnabled);
      }
      var owned := ClustersOwnedBy(rows, req.owner);
      var taken := NameInUse(owned, req.name);
      OwnedByMembers(rows, req.owner);
      if taken {
        return Err(NameTaken);
      }
      var storage := StorageSize(req);
      if storage.Err? {
        return Err(storage.error);
      }
      r := AdmitCluster(req, Blank(req, provider.value, storage.value));
      if r.Ok? {
        rows := rows + [r.value];
      }
    }

    /** The row a request names, as the store returns it. */
    method GetCluster(id: string) returns (i: Option<nat>)
      ensures i == FindRowById(rows, id)
    {
      for k := 0 to |rows|
        invariant FindRowById(rows, id) ==
          var j := FindRowById(rows[k..], id); if j.Some? then Some(k + j.value) else None
      {
        assert rows[k..][0] == rows[k] && rows[k..][1..] == rows[k + 1..];
        if rows[k].id == id {
          return Some(k);
        }
      }
      return None;
    }

    /** Gives the candidate its addresses and its new generation once it fits. */
    method Rescale(e: Cluster, budget: Amount) returns (r: Result<Cluster, Rejection>)
      requires GoodConfig(cfg)
      ensures r == Rescaled(cfg, rows, e, budget)
    {
      var over := CheckEdit(e, budget);
      if over.Some? {
        return Err(over.value);
      }
      var p := e.InfraProvider();
      var book := e.staticIPs;
      if p in cfg.sharedNet && e.ipMode == "static" {
        var others := ClustersOnProvider(rows, p);
        others := ClustersExcept(others, e.id);
        var next := ScaleSharedStaticIPs(e, cfg.sharedNet[p], others);
        if next.Err? {
          return Err(NoAddress(next.error));
        }
        book := next.value;
      }
      return Ok(e.(staticIPs := book, generation := e.generation + 1));
    }

    method ApplyNodePools(c: Cluster, want: seq<NodePool>, budget: Amount) returns (r: Result<Cluster, Rejection>)
      requires GoodConfig(cfg)
      ensures r == Edited(cfg, rows, c, want, budget)
    {
      if c.phase == Deleting || c.phase.Terminal() {
        return Err(NotEditable);
      }
      var bad := ValidateNodePools(c.name, want);
      if bad.Some? {
        return Err(BadPools(bad.value));
      }
      var fixed := CheckImmutable(c.nodePools, want);
      if fixed.Some? {
        return Err(fixed.value);
      }
      var changes := CountPoolChanges(c.nodePools, want);
      if changes == 0 {
        return Ok(c);
      }
      var candidate := c.(nodePools := want);
      var disks := DisksOnDesiredNodes(candidate);
      disks := SyncStorageDisks(candidate.(nodeDisks := disks));
      r := Rescale(candidate.(nodeDisks := disks), budget);
    }

    method UpdateNodePools(id: string, want: seq<NodePool>, budget: Amount) returns (e: Option<Rejection>)
      requires Valid()
      modifies this
      ensures Valid() && rows == After(cfg, old(rows), EditPools(id, want, budget))
      ensures e == Refusal(cfg, old(rows), EditPools(id, want, budget))
    {
      var i := GetCluster(id);
      if i.None? {
        StepRefuses(cfg, rows, EditPools(id, want, budget));
        return Some(NotFound);
      }
      var r := ApplyNodePools(rows[i.value], want, budget);
      if r.Err? {
        StepRefuses(cfg, rows, EditPools(id, want, budget));
        return Some(r.error);
      }
      StepStores(cfg, rows, EditPools(id, want, budget), i.value, r.value);
      rows := rows[i.value := r.value];
      return None;
    }

    method ApplyNodeDisk(c: Cluster, disk: DiskRequest, budget: Amount) returns (r: Result<Cluster, Rejection>)
      ensures r == DiskAdded(cfg, rows, c, disk, budget)
    {
      var bad := CheckUserDiskName(disk.name);
      if bad.Some? {
        return Err(BadDisk(bad.value));
      }
      if c.phase != Ready {
        return Err(NotReady);
      }
      var candidate := c.(nodeDisks := c.nodeDisks + [NewRow(disk)]);
      bad := ValidateNodeDisks(candidate, candidate.nodeDisks);
      r := AdmitDisks(candidate, bad, budget);
    }

    method AdmitDisks(candidate: Cluster, bad: Option<DiskError>, budget: Amount) returns (r: Result<Cluster, Rejection>)
      ensures r == WithMoreDisks(cfg, rows, candidate, bad, budget)
    {
      if bad.Some? {
        return Err(BadDisk(bad.value));
      }
      var over := CheckEdit(candidate, budget);
      if over.Some? {
        return Err(over.value);
      }
      return Ok(candidate.(generation := candidate.generation + 1));
    }

    method AddNodeDisk(id: string, disk: DiskRequest, budget: Amount) returns (e: Option<Rejection>)
      requires Valid()
      modifies this
      ensures Valid() && rows == After(cfg, old(rows), AddDisk(id, disk, budget))
      ensures e == Refusal(cfg, old(rows), AddDisk(id, disk, budget))
    {
      var i := GetCluster(id);
      if i.None? {
        StepRefuses(cfg, rows, AddDisk(id, disk, budget));
        return Some(NotFound);
      }
      var r := ApplyNodeDisk(rows[i.value], disk, budget);
      if r.Err? {
        StepRefuses(cfg, rows, AddDisk(id, disk, budget));
        return Some(r.error);
      }
      StepStores(cfg, rows, AddDisk(id, disk, budget), i.value, r.value);
      rows := rows[i.value := r.value];
      return None;
    }

    method ApplyRemoval(c: Cluster, vm: string, name: string) returns (r: Result<Cluster, Rejection>)
      ensures r == DiskRemoved(c, vm, name)
    {
      if c.phase == Deleting || c.phase.Terminal() {
        return Err(NotEditable);
      }
      var flipped := FlipToRemoving(c.nodeDisks, vm, name);
      match flipped {
        case NoSuchDisk =>
          return Err(NotFound);
        case PlatformDisk =>
          return Err(PlatformDiskKept);
        case AlreadyRemoving =>
          return Ok(c);
        case Marked(disks) =>
          return Ok(c.(nodeDisks := disks, generation := c.generation + 1));
      }
    }

    method RemoveNodeDisk(id: string, vm: string, name: string) returns (e: Option<Rejection>)
      requires Valid()
      modifies this
      ensures Valid() && rows == After(cfg, old(rows), RemoveDisk(id, vm, name))
      ensures e == Refusal(cfg, old(rows), RemoveDisk(id, vm, name))
    {
      var i := GetCluster(id);
      if i.None? {
        StepRefuses(cfg, rows, RemoveDisk(id, vm, name));
        return Some(NotFound);
      }
      var r := ApplyRemoval(rows[i.value], vm, name);
      if r.Err? {
        StepRefuses(cfg, rows, RemoveDisk(id, vm, name));
        return Some(r.error);
      }
      StepStores(cfg, rows, RemoveDisk(id, vm, name), i.value, r.value);
      rows := rows[i.value := r.value];
      return None;
    }

    method ApplyDelete(c: Cluster) returns (r: Result<Cluster, Rejection>)
      ensures r == MarkedDeleted(c)
    {
      if c.phase == Deleting || c.phase == Deleted {
        return Ok(c);
      }
      return Ok(c.(phase := Deleting, generation := c.generation + 1));
    }

    method DeleteCluster(id: string) returns (e: Option<Rejection>)
      requires Valid()
      modifies this
      ensures Valid() && rows == After(cfg, old(rows), Delete(id))
      ensures e == Refusal(cfg, old(rows), Delete(id))
    {
      var i := GetCluster(id);
      if i.None? {
        StepRefuses(cfg, rows, Delete(id));
        return Some(NotFound);
      }
      var r := ApplyDelete(rows[i.value]);
      StepStores(cfg, rows, Delete(id), i.value, r.value);
      rows := rows[i.value := r.value];
      return None;
    }
  }
}
