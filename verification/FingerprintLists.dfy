/** Which lists of registered disks the storage fingerprint tells apart from every other valid list. */
module FingerprintLists {
  import opened Text
  import opened Sorting
  import opened Nodes
  import opened Disks
  import opened Fingerprint

  // ---------------------------------------------------------------- the condition

  /** Every valid list with this fingerprint registers the same disks. */
  ghost predicate ListUnmistakable(c: Cluster, a: seq<NodeDisk>) {
    forall b | ValidDisks(WorkerNames(c), b) && FingerprintOf(b) == FingerprintOf(a) :: Registered(b) == Registered(a)
  }

  predicate AtDataPath(c: Cluster, s: string) {
    exists w | w in WorkerNames(c) :: s == PartOf(w, LONGHORN_DATA_PATH)
  }

  /** How many parts come before the first one that is not a worker's data path itself. */
  function Leading(c: Cluster, parts: seq<string>): (k: nat)
    ensures k <= |parts| && (forall i | 0 <= i < k :: AtDataPath(c, parts[i]))
    ensures k < |parts| ==> !AtDataPath(c, parts[k])
  {
    if parts == [] || !AtDataPath(c, parts[0]) then 0 else 1 + Leading(c, parts[1..])
  }

  /** Some disk in the storage pool. */
  function Fresh(vm: string, name: string, path: string): NodeDisk {
    NodeDisk(vm, name, MIN_DISK_GB, path, "ext4", DiskAttached, "")
  }

  ghost predicate PathSplits(c: Cluster, vm: string, path: string) {
    exists p, w, q :: Splits(c, Fresh(vm, "a", path), p, w, q)
  }

  /** The part is that of a disk whose path splits into two. */
  ghost predicate PartSplits(c: Cluster, s: string) {
    exists vm, path :: vm in WorkerNames(c) && s == PartOf(vm, path) && PathSplits(c, vm, path)
  }

  // ---------------------------------------------------------------- reading the text from the front

  ghost predicate GoodParts(c: Cluster, parts: seq<string>) {
    forall s | s in parts :: GoodPart(c, s)
  }

  lemma DropFirst(c: Cluster, parts: seq<string>)
    requires parts != [] && GoodParts(c, parts)
    ensures GoodPart(c, parts[0]) && GoodParts(c, parts[1..]) && parts == [parts[0]] + parts[1..]
    ensures Join(parts, ',') == parts[0] + Tail(parts[1..])
  {
    assert parts[0] in parts;
    assert forall s | s in parts[1..] :: s in parts;
    JoinIsHeadAndTail(parts[0], parts[1..]);
  }

  lemma TailsAgree(a: seq<string>, b: seq<string>)
    requires Tail(a) == Tail(b)
    ensures (a == [] <==> b == []) && Join(a, ',') == Join(b, ',')
  {
    assert a != [] ==> Tail(a)[1..] == Join(a, ',');
    assert b != [] ==> Tail(b)[1..] == Join(b, ',');
  }

  /** The text of a path that begins with the data path and ends or has a comma there. */
  lemma DataPathStands(p: string, x: string, y: string)
    requires PoolPath(p) && p + x == LONGHORN_DATA_PATH + y && (y == "" || y[0] == ',')
    ensures p == LONGHORN_DATA_PATH && x == y
  {
    var n := |LONGHORN_DATA_PATH|;
    assert !(LONGHORN_DATA_PATH + "-" <= p) by {
      assert y != "" ==> (LONGHORN_DATA_PATH + y)[n] == ',';
    }
    assert (p + x)[n..] == x && (LONGHORN_DATA_PATH + y)[n..] == y;
  }

  /** A list that begins with a worker's data path is read that way only. */
  lemma FirstIsForced(c: Cluster, w: string, rest: seq<string>, b: seq<string>)
    requires ValidPools(c.name, c.nodePools) && w in WorkerNames(c) && b != [] && GoodParts(c, b)
    requires PartOf(w, LONGHORN_DATA_PATH) + Tail(rest) == Join(b, ',')
    ensures b[0] == PartOf(w, LONGHORN_DATA_PATH) && Tail(b[1..]) == Tail(rest)
  {
    DropFirst(c, b);
    var v, p :| v in WorkerNames(c) && PoolPath(p) && b[0] == PartOf(v, p);
    PartExtends(v, p, Tail(b[1..]));
    PartExtends(w, LONGHORN_DATA_PATH, Tail(rest));
    PartDecodes(c, v, p + Tail(b[1..]), w, LONGHORN_DATA_PATH + Tail(rest));
    DataPathStands(p, Tail(b[1..]), Tail(rest));
  }

  lemma TextNotEmpty(c: Cluster, parts: seq<string>)
    requires parts != [] && GoodParts(c, parts)
    ensures Join(parts, ',') != ""
  {
    DropFirst(c, parts);
    var v, p :| v in WorkerNames(c) && PoolPath(p) && parts[0] == PartOf(v, p);
  }

  /** The first k parts are the same, and what is left agrees as text. */
  predicate SameUpTo(a: seq<string>, b: seq<string>, k: nat) {
    && k <= |a| && k <= |b| && b[..k] == a[..k]
    && Join(a[k..], ',') == Join(b[k..], ',') && (a[k..] == [] <==> b[k..] == [])
  }

  lemma SameUpToOneMore(a: seq<string>, b: seq<string>, k: nat)
    requires a != [] && b != [] && a[0] == b[0] && SameUpTo(a[1..], b[1..], k)
    ensures SameUpTo(a, b, k + 1)
  {
    assert a[..k + 1] == [a[0]] + a[1..][..k] && b[..k + 1] == [b[0]] + b[1..][..k];
    assert a[k + 1..] == a[1..][k..] && b[k + 1..] == b[1..][k..];
  }

  lemma SameUpToNone(a: seq<string>, b: seq<string>)
    requires Join(a, ',') == Join(b, ',') && (a == [] <==> b == [])
    ensures SameUpTo(a, b, 0)
  {
    assert a[0..] == a && b[0..] == b;
  }

  lemma BothOrNeither(c: Cluster, a: seq<string>, b: seq<string>)
    requires GoodParts(c, a) && GoodParts(c, b) && Join(a, ',') == Join(b, ',')
    ensures a == [] <==> b == []
  {
    if a != [] {
      TextNotEmpty(c, a);
    }
    if b != [] {
      TextNotEmpty(c, b);
    }
  }

  lemma FirstOfBoth(c: Cluster, a: seq<string>, b: seq<string>)
    requires ValidPools(c.name, c.nodePools) && GoodParts(c, a) && GoodParts(c, b) && Join(a, ',') == Join(b, ',')
    requires a != [] && AtDataPath(c, a[0])
    ensures b != [] && b[0] == a[0] && Join(a[1..], ',') == Join(b[1..], ',')
  {
    var w :| w in WorkerNames(c) && a[0] == PartOf(w, LONGHORN_DATA_PATH);
    BothOrNeither(c, a, b);
    DropFirst(c, a);
    FirstIsForced(c, w, a[1..], b);
    TailsAgree(a[1..], b[1..]);
  }

  /** Leading data paths are read in one way only. */
  lemma {:induction false} LeadingIsForced(c: Cluster, a: seq<string>, b: seq<string>)
    requires ValidPools(c.name, c.nodePools) && GoodParts(c, a) && GoodParts(c, b) && Join(a, ',') == Join(b, ',')
    ensures SameUpTo(a, b, Leading(c, a))
    decreases |a|
  {
    if a == [] || !AtDataPath(c, a[0]) {
      BothOrNeither(c, a, b);
      SameUpToNone(a, b);
    } else {
      FirstOfBoth(c, a, b);
      DropFirst(c, a);
      DropFirst(c, b);
      LeadingIsForced(c, a[1..], b[1..]);
      SameUpToOneMore(a, b, Leading(c, a[1..]));
    }
  }

  // ---------------------------------------------------------------- lists that cannot be mistaken

  lemma PartsFixRegistered(c: Cluster, a: seq<NodeDisk>, b: seq<NodeDisk>)
    requires ValidPools(c.name, c.nodePools) && ValidDisks(WorkerNames(c), a) && ValidDisks(WorkerNames(c), b)
    requires SortBy(Itself(), Parts(a)) == SortBy(Itself(), Parts(b))
    ensures Registered(a) == Registered(b)
  {
    SortedParts(c, a, SortBy(Itself(), Parts(a)));
    SortedParts(c, b, SortBy(Itself(), Parts(b)));
    ValidSitsOnWorkers(c, a);
    ValidSitsOnWorkers(c, b);
    SamePartsSameDisks(c, a, b);
    SamePartsSameDisks(c, b, a);
  }

  lemma SortedEnd(parts: seq<string>, k: nat)
    requires k <= |parts| && SortedBy(Itself(), parts)
    ensures SortedBy(Itself(), parts[k..])
  {
    forall i, j | 0 <= i < j < |parts[k..]|
      ensures Leq(Itself()(parts[k..][i]), Itself()(parts[k..][j]))
    {
      assert Leq(Itself()(parts[k + i]), Itself()(parts[k + j]));
    }
  }

  lemma NotTwiceAt(parts: seq<string>, k: nat)
    requires k + 1 < |parts| && multiset(parts)[parts[k]] <= 1
    ensures parts[k] != parts[k + 1]
  {
    var end := parts[k..];
    assert parts == parts[..k] + end;
    assert multiset(parts) == multiset(parts[..k]) + multiset(end);
    assert end[0] == parts[k] && end[1] == parts[k + 1];
    NotTwice(end);
  }

  lemma PartsDiffer(c: Cluster, b: seq<NodeDisk>, parts: seq<string>, k: nat)
    requires ValidPools(c.name, c.nodePools) && ValidDisks(WorkerNames(c), b) && parts == SortBy(Itself(), Parts(b))
    requires k + 1 < |parts|
    ensures parts[k] != parts[k + 1]
  {
    SortPermutes(Itself(), Parts(b));
    ValidSitsOnWorkers(c, b);
    PartsOccurOnce(c, b, parts[k]);
    NotTwiceAt(parts, k);
  }

  lemma GoodEnd(c: Cluster, parts: seq<string>, k: nat)
    requires k <= |parts| && GoodParts(c, parts)
    ensures GoodParts(c, parts[k..])
  {
    assert forall s | s in parts[k..] :: s in parts;
  }

  lemma SeveralSplitThePath(c: Cluster, vm: string, path: string, q: seq<string>)
    requires ValidPools(c.name, c.nodePools) && vm in WorkerNames(c) && PoolPath(path)
    requires GoodParts(c, q) && SortedBy(Itself(), q) && |q| >= 2 && q[0] != q[1] && Join(q, ',') == PartOf(vm, path)
    ensures PathSplits(c, vm, path)
  {
    var x, w, y := ManyPartsSplit(c, Fresh(vm, "a", path), q);
  }

  /** Two or more parts that read as one give away that the one splits. */
  lemma SeveralReadAsOne(c: Cluster, s: string, q: seq<string>)
    requires ValidPools(c.name, c.nodePools) && GoodPart(c, s) && GoodParts(c, q) && SortedBy(Itself(), q)
    requires |q| >= 2 && q[0] != q[1] && Join(q, ',') == s
    ensures PartSplits(c, s)
  {
    var vm, path :| vm in WorkerNames(c) && PoolPath(path) && s == PartOf(vm, path);
    SeveralSplitThePath(c, vm, path, q);
  }

  lemma SameEnds(a: seq<string>, b: seq<string>, k: nat)
    requires SameUpTo(a, b, k) && a[k..] == b[k..]
    ensures a == b
  {
    assert a == a[..k] + a[k..] && b == b[..k] + b[k..];
  }

  lemma SingleText(s: string)
    ensures Join([s], ',') == s
  {
  }

  /** With nothing left after the leading data paths, or one part that does not split. */
  lemma ReadsOneWay(c: Cluster, a: seq<NodeDisk>, b: seq<NodeDisk>, k: nat)
    requires ValidPools(c.name, c.nodePools) && ValidDisks(WorkerNames(c), a) && ValidDisks(WorkerNames(c), b)
    requires FingerprintOf(b) == FingerprintOf(a)
    requires var parts := SortBy(Itself(), Parts(a));
             k == Leading(c, parts) && (|parts| == k || (|parts| == k + 1 && !PartSplits(c, parts[k])))
    ensures Registered(b) == Registered(a)
  {
    var pa, pb := SortBy(Itself(), Parts(a)), SortBy(Itself(), Parts(b));
    SortedParts(c, a, pa);
    SortedParts(c, b, pb);
    LeadingIsForced(c, pa, pb);
    if |pa| == k + 1 {
      assert pa[k..] == [pa[k]] && pa[k] in pa;
      SingleText(pa[k]);
      GoodEnd(c, pb, k);
      SortedEnd(pb, k);
      if |pb| >= k + 2 {
        PartsDiffer(c, b, pb, k);
        SeveralReadAsOne(c, pa[k], pb[k..]);
      }
      assert |pb| == k + 1;
      assert pb[k..] == [pb[k]];
      SingleText(pb[k]);
    }
    SameEnds(pa, pb, k);
    PartsFixRegistered(c, a, b);
  }

  // ---------------------------------------------------------------- lists that can

  lemma FreshIsFine(c: Cluster, vm: string, name: string, path: string)
    requires vm in WorkerNames(c) && PoolPath(path) && name in {"a", "b", "c"}
    ensures DiskOK(WorkerNames(c), Fresh(vm, name, path)) && NeedsLonghornRegistration(Fresh(vm, name, path))
  {
    assert |PLATFORM_STORAGE| == 7 && |name| == 1 && IsLabel(name);
  }

  /** Disks at the data path, one per worker. */
  ghost predicate LeadingDisks(c: Cluster, ds: seq<NodeDisk>) {
    && (forall i | 0 <= i < |ds| :: ds[i].vmName in WorkerNames(c) && ds[i] == Fresh(ds[i].vmName, "a", LONGHORN_DATA_PATH))
    && forall i, j | 0 <= i < j < |ds| :: ds[i].vmName != ds[j].vmName
  }

  /** The parts of such disks. */
  ghost predicate LeadingFor(c: Cluster, ds: seq<NodeDisk>, lead: seq<string>) {
    && LeadingDisks(c, ds) && |ds| == |lead|
    && forall i | 0 <= i < |ds| :: lead[i] == PartOf(ds[i].vmName, LONGHORN_DATA_PATH)
  }

  lemma OneMoreLeading(c: Cluster, ds: seq<NodeDisk>, lead: seq<string>, w: string)
    requires LeadingFor(c, ds, lead) && w in WorkerNames(c) && PartOf(w, LONGHORN_DATA_PATH) !in lead
    ensures LeadingFor(c, ds + [Fresh(w, "a", LONGHORN_DATA_PATH)], lead + [PartOf(w, LONGHORN_DATA_PATH)])
  {
    forall i | 0 <= i < |ds|
      ensures ds[i].vmName != w
    {
      assert lead[i] in lead;
    }
  }

  lemma {:induction false} MakeLeading(c: Cluster, lead: seq<string>) returns (ds: seq<NodeDisk>)
    requires forall s | s in lead :: AtDataPath(c, s)
    requires forall i, j | 0 <= i < j < |lead| :: lead[i] != lead[j]
    ensures LeadingFor(c, ds, lead)
  {
    ds := [];
    if lead != [] {
      var front, s := lead[..|lead| - 1], lead[|lead| - 1];
      assert lead == front + [s];
      assert s in lead && s !in front;
      var before := MakeLeading(c, front);
      var w :| w in WorkerNames(c) && s == PartOf(w, LONGHORN_DATA_PATH);
      OneMoreLeading(c, before, front, w);
      ds := before + [Fresh(w, "a", LONGHORN_DATA_PATH)];
    }
  }

  lemma FrontOfLeading(c: Cluster, ds: seq<NodeDisk>, lead: seq<string>, n: nat)
    requires LeadingFor(c, ds, lead) && n + 1 == |ds|
    ensures LeadingFor(c, ds[..n], lead[..n]) && lead == lead[..n] + [lead[n]]
    ensures NeedsLonghornRegistration(ds[n]) && lead[n] == PartOf(ds[n].vmName, ds[n].mountPath)
  {
    assert |PLATFORM_STORAGE| == 7;
  }

  lemma {:induction false} LeadingParts(c: Cluster, ds: seq<NodeDisk>, lead: seq<string>)
    requires LeadingFor(c, ds, lead)
    ensures Parts(ds) == lead
  {
    if ds != [] {
      FrontOfLeading(c, ds, lead, |ds| - 1);
      LeadingParts(c, ds[..|ds| - 1], lead[..|ds| - 1]);
    }
  }

  lemma {:induction false} LeadingCount(c: Cluster, ds: seq<NodeDisk>, vm: string)
    requires LeadingDisks(c, ds)
    ensures CountOn(ds, vm) <= 1 && ((forall i | 0 <= i < |ds| :: ds[i].vmName != vm) ==> CountOn(ds, vm) == 0)
  {
    if ds != [] {
      var n := |ds| - 1;
      LeadingCount(c, ds[..n], vm);
    }
  }

  /** One or two more disks behind the leading ones. */
  ghost predicate Behind(c: Cluster, ds: seq<NodeDisk>, d: NodeDisk) {
    && DiskOK(WorkerNames(c), d) && NeedsLonghornRegistration(d)
    && forall i | 0 <= i < |ds| :: Compatible(ds[i], d)
  }

  lemma LeadingAreValid(c: Cluster, ds: seq<NodeDisk>)
    requires LeadingDisks(c, ds)
    ensures (forall d | d in ds :: DiskOK(WorkerNames(c), d)) && AllCompatible(ds)
  {
    LonghornPathIsUsable();
    forall d | d in ds
      ensures DiskOK(WorkerNames(c), d)
    {
      FreshIsFine(c, d.vmName, "a", LONGHORN_DATA_PATH);
    }
  }

  lemma OneBehindIsValid(c: Cluster, ds: seq<NodeDisk>, x: NodeDisk)
    requires LeadingDisks(c, ds) && Behind(c, ds, x)
    ensures ValidDisks(WorkerNames(c), ds + [x]) && forall vm :: CountOn(ds + [x], vm) <= 2
  {
    LeadingAreValid(c, ds);
    CompatibleSnoc(ds, x);
    forall vm
      ensures CountOn(ds + [x], vm) <= 2
    {
      LeadingCount(c, ds, vm);
      CountSnoc(ds, x, vm);
    }
  }

  lemma TwoBehindAreValid(c: Cluster, ds: seq<NodeDisk>, x: NodeDisk, y: NodeDisk)
    requires LeadingDisks(c, ds) && Behind(c, ds, x) && Behind(c, ds, y) && Compatible(x, y)
    ensures ValidDisks(WorkerNames(c), ds + [x] + [y])
  {
    OneBehindIsValid(c, ds, x);
    var before := ds + [x];
    forall e | e in before
      ensures Compatible(e, y)
    {
      assert e == x || e in ds;
    }
    CompatibleSnoc(before, y);
    forall vm
      ensures CountOn(before + [y], vm) <= 3
    {
      CountSnoc(before, y, vm);
    }
  }

  lemma PartsOfOne(d: NodeDisk)
    requires NeedsLonghornRegistration(d)
    ensures Parts([d]) == [PartOf(d.vmName, d.mountPath)]
  {
    assert [d][..0] == [] && [] + [PartOf(d.vmName, d.mountPath)] == [PartOf(d.vmName, d.mountPath)];
  }

  /** A list whose parts come in order has them as its fingerprint. */
  lemma InOrderText(b: seq<NodeDisk>, parts: seq<string>)
    requires Parts(b) == parts && SortedBy(Itself(), parts)
    ensures FingerprintOf(b) == Join(parts, ',')
  {
    SortedStays(Itself(), parts);
  }

  lemma SortedSnoc(parts: seq<string>, s: string)
    requires SortedBy(Itself(), parts) && (parts != [] ==> Leq(parts[|parts| - 1], s))
    ensures SortedBy(Itself(), parts + [s])
  {
    forall i | 0 <= i < |parts|
      ensures Leq(parts[i], s)
    {
      if i < |parts| - 1 {
        assert Leq(Itself()(parts[i]), Itself()(parts[|parts| - 1]));
        LeqTransitive(parts[i], parts[|parts| - 1], s);
      }
    }
  }

  lemma {:induction false} JoinAfter(lead: seq<string>, x: seq<string>, y: seq<string>)
    requires x != [] && y != [] && Join(x, ',') == Join(y, ',')
    ensures Join(lead + x, ',') == Join(lead + y, ',')
  {
    if lead == [] {
      assert lead + x == x && lead + y == y;
    } else {
      JoinAfter(lead[1..], x, y);
      assert lead + x == [lead[0]] + (lead[1..] + x) && lead + y == [lead[0]] + (lead[1..] + y);
      JoinIsHeadAndTail(lead[0], lead[1..] + x);
      JoinIsHeadAndTail(lead[0], lead[1..] + y);
    }
  }

  // ---------------------------------------------------------------- several parts left over

  lemma {:induction false} JoinIsLonger(rest: seq<string>, s: string)
    requires s in rest
    ensures |s| <= |Join(rest, ',')| && (|rest| >= 2 ==> |s| < |Join(rest, ',')|)
  {
    assert rest == [rest[0]] + rest[1..];
    JoinIsHeadAndTail(rest[0], rest[1..]);
    if s in rest[1..] {
      JoinIsLonger(rest[1..], s);
    }
  }

  lemma RegisteredHasPart(c: Cluster, a: seq<NodeDisk>, vm: string, path: string)
    requires (vm, path) in Registered(a)
    ensures PartOf(vm, path) in Parts(a)
  {
    PartsMembers(a);
  }

  /** A part that is neither a data path nor short enough for the rest is not in the list. */
  lemma NotAmong(c: Cluster, parts: seq<string>, k: nat, vm: string, path: string)
    requires ValidPools(c.name, c.nodePools) && vm in WorkerNames(c) && path != LONGHORN_DATA_PATH
    requires k + 2 <= |parts| && (forall s | s in parts[..k] :: AtDataPath(c, s)) && PartOf(vm, path) == Join(parts[k..], ',')
    ensures PartOf(vm, path) !in parts
  {
    var s := PartOf(vm, path);
    assert parts == parts[..k] + parts[k..];
    if s in parts[..k] {
      var w :| w in WorkerNames(c) && s == PartOf(w, LONGHORN_DATA_PATH);
      PartDecodes(c, vm, path, w, LONGHORN_DATA_PATH);
    }
    if s in parts[k..] {
      JoinIsLonger(parts[k..], s);
    }
  }

  /** The leading disks, and any others in order behind them. */
  lemma TextBehind(c: Cluster, ds: seq<NodeDisk>, lead: seq<string>, x: NodeDisk)
    requires LeadingDisks(c, ds) && Parts(ds) == lead && NeedsLonghornRegistration(x) && SortedBy(Itself(), lead)
    requires lead != [] ==> Leq(lead[|lead| - 1], PartOf(x.vmName, x.mountPath))
    ensures Parts(ds + [x]) == lead + [PartOf(x.vmName, x.mountPath)]
    ensures SortedBy(Itself(), lead + [PartOf(x.vmName, x.mountPath)])
    ensures FingerprintOf(ds + [x]) == Join(lead + [PartOf(x.vmName, x.mountPath)], ',')
  {
    PartsAppend(ds, [x]);
    PartsOfOne(x);
    SortedSnoc(lead, PartOf(x.vmName, x.mountPath));
    InOrderText(ds + [x], lead + [PartOf(x.vmName, x.mountPath)]);
  }

  lemma LeadOf(c: Cluster, a: seq<NodeDisk>, parts: seq<string>, k: nat) returns (ds: seq<NodeDisk>)
    requires ValidPools(c.name, c.nodePools) && ValidDisks(WorkerNames(c), a) && parts == SortBy(Itself(), Parts(a))
    requires k == Leading(c, parts)
    ensures LeadingDisks(c, ds) && Parts(ds) == parts[..k] && SortedBy(Itself(), parts[..k]) && |ds| == k
    ensures forall i | 0 <= i < k :: parts[i] == PartOf(ds[i].vmName, LONGHORN_DATA_PATH)
  {
    SortedParts(c, a, parts);
    forall i, j | 0 <= i < j < k
      ensures parts[..k][i] != parts[..k][j]
    {
      AllPartsDiffer(c, a, parts, i, j);
    }
    SortedStart(parts, k);
    ds := MakeLeading(c, parts[..k]);
    LeadingParts(c, ds, parts[..k]);
  }

  lemma SortedStart(parts: seq<string>, k: nat)
    requires k <= |parts| && SortedBy(Itself(), parts)
    ensures SortedBy(Itself(), parts[..k])
  {
    forall i, j | 0 <= i < j < k
      ensures Leq(Itself()(parts[..k][i]), Itself()(parts[..k][j]))
    {
      assert Leq(Itself()(parts[i]), Itself()(parts[j]));
    }
  }

  lemma AllPartsDiffer(c: Cluster, a: seq<NodeDisk>, parts: seq<string>, i: nat, j: nat)
    requires ValidPools(c.name, c.nodePools) && ValidDisks(WorkerNames(c), a) && parts == SortBy(Itself(), Parts(a))
    requires i < j < |parts|
    ensures parts[i] != parts[j]
  {
    SortPermutes(Itself(), Parts(a));
    ValidSitsOnWorkers(c, a);
    PartsOccurOnce(c, a, parts[i]);
    TwicePlaces(parts, i, j);
  }

  lemma TwicePlaces(parts: seq<string>, i: nat, j: nat)
    requires i < j < |parts| && multiset(parts)[parts[i]] <= 1
    ensures parts[i] != parts[j]
  {
    var x, y := parts[..i + 1], parts[i + 1..];
    assert parts == x + y;
    assert multiset(parts) == multiset(x) + multiset(y);
    assert parts[i] == x[i] && parts[i] in multiset(x);
    assert parts[j] == y[j - i - 1] && parts[j] in multiset(y);
  }

  /** All that is left merges into one disk, since its first path is not the data path itself. */
  lemma MergedDisk(c: Cluster, rest: seq<string>) returns (z: NodeDisk, first: string)
    requires ValidPools(c.name, c.nodePools) && '/' !in c.name && GoodParts(c, rest) && |rest| >= 2 && !AtDataPath(c, rest[0])
    ensures z.vmName in WorkerNames(c) && OwnPath(z.mountPath) && z == Fresh(z.vmName, "b", z.mountPath)
    ensures PartOf(z.vmName, z.mountPath) == Join(rest, ',') == rest[0] + first
  {
    assert rest[0] in rest;
    var v, p :| v in WorkerNames(c) && PoolPath(p) && rest[0] == PartOf(v, p);
    RunTheRest(c, Fresh(v, "b", p), rest);
    first := Tail(rest[1..]);
    DropFirst(c, rest);
    z := Fresh(v, "b", p + first);
  }

  lemma BehindLeading(c: Cluster, ds: seq<NodeDisk>, vm: string, name: string, path: string)
    requires LeadingDisks(c, ds) && vm in WorkerNames(c) && PoolPath(path) && name in {"b", "c"}
    requires path == LONGHORN_DATA_PATH ==> forall i | 0 <= i < |ds| :: ds[i].vmName != vm
    ensures Behind(c, ds, Fresh(vm, name, path))
  {
    FreshIsFine(c, vm, name, path);
  }

  lemma LeadBefore(parts: seq<string>, k: nat, more: string)
    requires k < |parts| && SortedBy(Itself(), parts)
    ensures k > 0 ==> Leq(parts[..k][k - 1], parts[k] + more)
  {
    if k > 0 {
      assert Leq(Itself()(parts[k - 1]), Itself()(parts[k]));
      PrefixLeq(parts[k], more);
      LeqTransitive(parts[k - 1], parts[k], parts[k] + more);
    }
  }

  lemma MergedText(parts: seq<string>, k: nat, s: string)
    requires k < |parts| && s == Join(parts[k..], ',')
    ensures Join(parts[..k] + [s], ',') == Join(parts, ',')
  {
    SingleText(s);
    JoinAfter(parts[..k], [s], parts[k..]);
    assert parts == parts[..k] + parts[k..];
  }

  lemma MergedIsAnother(c: Cluster, a: seq<NodeDisk>, parts: seq<string>, k: nat, ds: seq<NodeDisk>, z: NodeDisk)
    requires ValidPools(c.name, c.nodePools) && ValidDisks(WorkerNames(c), a) && parts == SortBy(Itself(), Parts(a))
    requires k == Leading(c, parts) && k + 2 <= |parts|
    requires z.vmName in WorkerNames(c) && z.mountPath != LONGHORN_DATA_PATH && NeedsLonghornRegistration(z)
    requires PartOf(z.vmName, z.mountPath) == Join(parts[k..], ',')
    ensures Registered(ds + [z]) != Registered(a)
  {
    SortedParts(c, a, parts);
    NotAmong(c, parts, k, z.vmName, z.mountPath);
    assert z in ds + [z];
    assert (z.vmName, z.mountPath) in Registered(ds + [z]);
    if (z.vmName, z.mountPath) in Registered(a) {
      RegisteredHasPart(c, a, z.vmName, z.mountPath);
    }
  }

  lemma MergedListFits(c: Cluster, parts: seq<string>, k: nat, ds: seq<NodeDisk>, z: NodeDisk, more: string)
    requires k < |parts| && SortedBy(Itself(), parts) && LeadingDisks(c, ds) && |ds| == k
    requires Parts(ds) == parts[..k] && SortedBy(Itself(), parts[..k])
    requires z.vmName in WorkerNames(c) && OwnPath(z.mountPath) && z == Fresh(z.vmName, "b", z.mountPath)
    requires PartOf(z.vmName, z.mountPath) == Join(parts[k..], ',') == parts[k] + more
    ensures ValidDisks(WorkerNames(c), ds + [z]) && NeedsLonghornRegistration(z) && z.mountPath != LONGHORN_DATA_PATH
    ensures FingerprintOf(ds + [z]) == Join(parts, ',')
  {
    assert |LONGHORN_DATA_PATH + "-"| == |LONGHORN_DATA_PATH| + 1;
    BehindLeading(c, ds, z.vmName, "b", z.mountPath);
    OneBehindIsValid(c, ds, z);
    LeadBefore(parts, k, more);
    TextBehind(c, ds, parts[..k], z);
    MergedText(parts, k, PartOf(z.vmName, z.mountPath));
  }

  lemma MergedList(c: Cluster, a: seq<NodeDisk>, parts: seq<string>, k: nat) returns (b: seq<NodeDisk>)
    requires ValidPools(c.name, c.nodePools) && '/' !in c.name && ValidDisks(WorkerNames(c), a)
    requires parts == SortBy(Itself(), Parts(a)) && k == Leading(c, parts) && |parts| >= k + 2
    ensures ValidDisks(WorkerNames(c), b) && FingerprintOf(b) == Join(parts, ',') && Registered(b) != Registered(a)
  {
    SortedParts(c, a, parts);
    GoodEnd(c, parts, k);
    assert parts[k..][0] == parts[k];
    var z, more := MergedDisk(c, parts[k..]);
    var ds := LeadOf(c, a, parts, k);
    MergedListFits(c, parts, k, ds, z, more);
    MergedIsAnother(c, a, parts, k, ds, z);
    b := ds + [z];
  }

  lemma SeveralLeftOver(c: Cluster, a: seq<NodeDisk>)
    requires ValidPools(c.name, c.nodePools) && '/' !in c.name && ValidDisks(WorkerNames(c), a)
    requires var parts := SortBy(Itself(), Parts(a)); |parts| >= Leading(c, parts) + 2
    ensures !ListUnmistakable(c, a)
  {
    var parts := SortBy(Itself(), Parts(a));
    var b := MergedList(c, a, parts, Leading(c, parts));
  }

  // ---------------------------------------------------------------- one part left over that splits

  /** What comes before a path that goes on comes before its beginning, if it is a data path. */
  lemma BeforeTheBeginning(c: Cluster, w: string, v: string, p: string, x: string)
    requires ValidPools(c.name, c.nodePools) && v in WorkerNames(c) && w in WorkerNames(c) && OwnPath(p)
    requires Leq(PartOf(w, LONGHORN_DATA_PATH), PartOf(v, p) + x)
    ensures Leq(PartOf(w, LONGHORN_DATA_PATH), PartOf(v, p)) && PartOf(w, LONGHORN_DATA_PATH) != PartOf(v, p)
  {
    var d, s := PartOf(w, LONGHORN_DATA_PATH), PartOf(v, p);
    NotABeginning(c, v, p, w);
    LeqTotal(d, s);
    if !Leq(d, s) {
      ExtendLeq(s, d, x);
      LeqAntisymmetric(d, s + x);
    }
  }

  /** The disk at the data path that a split would need is not one of the leading ones. */
  lemma NotALeadingOne(c: Cluster, ds: seq<NodeDisk>, v: string, p: string, x: string, w: string, i: nat)
    requires ValidPools(c.name, c.nodePools) && LeadingDisks(c, ds) && i < |ds| && v in WorkerNames(c) && OwnPath(p)
    requires Leq(PartOf(ds[i].vmName, LONGHORN_DATA_PATH), PartOf(v, p) + x)
    requires Leq(PartOf(v, p), PartOf(w, LONGHORN_DATA_PATH))
    ensures ds[i].vmName != w
  {
    BeforeTheBeginning(c, ds[i].vmName, v, p, x);
    if ds[i].vmName == w {
      LeqAntisymmetric(PartOf(v, p), PartOf(w, LONGHORN_DATA_PATH));
    }
  }

  /** The parts are those of the leading disks and one more, whose path runs p and q together. */
  ghost predicate EndsInSplit(c: Cluster, parts: seq<string>, ds: seq<NodeDisk>, vm: string, p: string, w: string, q: string) {
    && |parts| == |ds| + 1 && SortedBy(Itself(), parts) && LeadingDisks(c, ds)
    && (forall i | 0 <= i < |ds| :: parts[i] == PartOf(ds[i].vmName, LONGHORN_DATA_PATH))
    && parts[|ds|] == PartOf(vm, p) + ([','] + PartOf(w, q))
    && vm in WorkerNames(c) && w in WorkerNames(c) && OwnPath(p) && PoolPath(q)
    && Leq(PartOf(vm, p), PartOf(w, q)) && (vm, p) != (w, q)
  }

  lemma BeforeTheLast(parts: seq<string>, i: nat, k: nat)
    requires i < k < |parts| && SortedBy(Itself(), parts)
    ensures Leq(parts[i], parts[k])
  {
    assert Leq(Itself()(parts[i]), Itself()(parts[k]));
  }

  lemma SplitListIsValid(c: Cluster, parts: seq<string>, ds: seq<NodeDisk>, vm: string, p: string, w: string, q: string)
    requires ValidPools(c.name, c.nodePools) && EndsInSplit(c, parts, ds, vm, p, w, q)
    ensures ValidDisks(WorkerNames(c), ds + [Fresh(vm, "b", p)] + [Fresh(w, "c", q)])
  {
    assert |LONGHORN_DATA_PATH + "-"| == |LONGHORN_DATA_PATH| + 1;
    BehindLeading(c, ds, vm, "b", p);
    if q == LONGHORN_DATA_PATH {
      forall i | 0 <= i < |ds|
        ensures ds[i].vmName != w
      {
        BeforeTheLast(parts, i, |ds|);
        NotALeadingOne(c, ds, vm, p, [','] + PartOf(w, q), w, i);
      }
    }
    BehindLeading(c, ds, w, "c", q);
    TwoBehindAreValid(c, ds, Fresh(vm, "b", p), Fresh(w, "c", q));
  }

  lemma LeadBeforeSplit(c: Cluster, parts: seq<string>, ds: seq<NodeDisk>, vm: string, p: string, w: string, q: string)
    requires ValidPools(c.name, c.nodePools) && EndsInSplit(c, parts, ds, vm, p, w, q) && ds != []
    ensures Leq(parts[|ds| - 1], PartOf(vm, p))
  {
    var i := |ds| - 1;
    BeforeTheLast(parts, i, |ds|);
    BeforeTheBeginning(c, ds[i].vmName, vm, p, [','] + PartOf(w, q));
  }

  lemma Reassociate(x: string, y: string, z: string)
    ensures x + y + z == x + (y + z)
  {
  }

  lemma TwoAsOne(s: string, t: string, both: string)
    requires both == s + ([','] + t)
    ensures Join([s, t], ',') == Join([both], ',')
  {
    JoinTwo(s, t);
    Reassociate(s, [','], t);
    SingleText(both);
  }

  lemma LastTwo(lead: seq<string>, s: string, t: string)
    ensures lead + [s] + [t] == lead + [s, t]
  {
  }

  lemma JoinLastTwo(lead: seq<string>, s: string, t: string)
    ensures Join(lead + [s] + [t], ',') == Join(lead + [s + ([','] + t)], ',')
  {
    var both := s + ([','] + t);
    TwoAsOne(s, t, both);
    LastTwo(lead, s, t);
    JoinAfter(lead, [s, t], [both]);
  }

  lemma FrontAndLast(parts: seq<string>, k: nat)
    requires |parts| == k + 1
    ensures parts == parts[..k] + [parts[k]]
  {
  }

  lemma TextOfTwo(b: seq<NodeDisk>, lead: seq<string>, s: string, y: NodeDisk)
    requires Parts(b) == lead + [s] && SortedBy(Itself(), lead + [s]) && NeedsLonghornRegistration(y)
    requires Leq(s, PartOf(y.vmName, y.mountPath))
    ensures FingerprintOf(b + [y]) == Join(lead + [s + ([','] + PartOf(y.vmName, y.mountPath))], ',')
  {
    var t := PartOf(y.vmName, y.mountPath);
    PartsAppend(b, [y]);
    PartsOfOne(y);
    SortedSnoc(lead + [s], t);
    InOrderText(b + [y], lead + [s] + [t]);
    JoinLastTwo(lead, s, t);
  }

  lemma SplitListFront(c: Cluster, parts: seq<string>, ds: seq<NodeDisk>, vm: string, p: string, w: string, q: string)
    requires ValidPools(c.name, c.nodePools) && EndsInSplit(c, parts, ds, vm, p, w, q)
    ensures Parts(ds + [Fresh(vm, "b", p)]) == parts[..|ds|] + [PartOf(vm, p)]
    ensures SortedBy(Itself(), parts[..|ds|] + [PartOf(vm, p)])
  {
    LeadingParts(c, ds, parts[..|ds|]);
    SortedStart(parts, |ds|);
    FreshIsFine(c, vm, "b", p);
    if ds != [] {
      LeadBeforeSplit(c, parts, ds, vm, p, w, q);
    }
    TextBehind(c, ds, parts[..|ds|], Fresh(vm, "b", p));
  }

  lemma SplitListText(c: Cluster, parts: seq<string>, ds: seq<NodeDisk>, vm: string, p: string, w: string, q: string)
    requires ValidPools(c.name, c.nodePools) && EndsInSplit(c, parts, ds, vm, p, w, q)
    ensures FingerprintOf(ds + [Fresh(vm, "b", p)] + [Fresh(w, "c", q)]) == Join(parts, ',')
  {
    SplitListFront(c, parts, ds, vm, p, w, q);
    FreshIsFine(c, w, "c", q);
    TextOfTwo(ds + [Fresh(vm, "b", p)], parts[..|ds|], PartOf(vm, p), Fresh(w, "c", q));
    FrontAndLast(parts, |ds|);
  }

  lemma SplitIsAnother(c: Cluster, a: seq<NodeDisk>, ds: seq<NodeDisk>, vm: string, p: string, w: string, q: string)
    requires LeadingDisks(c, ds) && OwnPath(p) && (vm, RunTogether(p, w, q)) in Registered(a)
    ensures Registered(ds + [Fresh(vm, "b", p)] + [Fresh(w, "c", q)]) != Registered(a)
  {
    var b := ds + [Fresh(vm, "b", p)] + [Fresh(w, "c", q)];
    var path := RunTogether(p, w, q);
    assert |path| > |p| && |path| > |q| && |p| > |LONGHORN_DATA_PATH|;
    forall d | d in b
      ensures |d.mountPath| < |path|
    {
      if d in ds {
        var i :| 0 <= i < |ds| && ds[i] == d;
      }
    }
    assert (vm, path) !in Registered(b);
  }

  lemma PathBeforeComma(p: string, w: string, q: string)
    requires PoolPath(p) && FeedsStoragePool(RunTogether(p, w, q))
    ensures OwnPath(p)
  {
    SingleText(PartOf(w, q));
    assert RunTogether(p, w, q) == p + Tail([PartOf(w, q)]);
    OwnPathBeforeComma(p, [PartOf(w, q)]);
  }

  lemma GoodPath(c: Cluster, vm: string, path: string)
    requires ValidPools(c.name, c.nodePools) && vm in WorkerNames(c) && GoodPart(c, PartOf(vm, path))
    ensures PoolPath(path)
  {
    var v, r :| v in WorkerNames(c) && PoolPath(r) && PartOf(vm, path) == PartOf(v, r);
    PartDecodes(c, vm, path, v, r);
  }

  lemma SplitPath(c: Cluster, vm: string, path: string) returns (p: string, w: string, q: string)
    requires PathSplits(c, vm, path) && PoolPath(path)
    ensures path == RunTogether(p, w, q) && w in WorkerNames(c) && OwnPath(p) && PoolPath(q)
    ensures Leq(PartOf(vm, p), PartOf(w, q)) && (vm, p) != (w, q)
  {
    p, w, q :| Splits(c, Fresh(vm, "a", path), p, w, q);
    PathBeforeComma(p, w, q);
  }

  lemma SplitList(c: Cluster, a: seq<NodeDisk>, parts: seq<string>, ds: seq<NodeDisk>, vm: string, p: string, w: string, q: string)
    returns (b: seq<NodeDisk>)
    requires ValidPools(c.name, c.nodePools) && EndsInSplit(c, parts, ds, vm, p, w, q)
    requires (vm, RunTogether(p, w, q)) in Registered(a)
    ensures ValidDisks(WorkerNames(c), b) && FingerprintOf(b) == Join(parts, ',') && Registered(b) != Registered(a)
  {
    SplitListIsValid(c, parts, ds, vm, p, w, q);
    SplitListText(c, parts, ds, vm, p, w, q);
    SplitIsAnother(c, a, ds, vm, p, w, q);
    b := ds + [Fresh(vm, "b", p)] + [Fresh(w, "c", q)];
  }

  lemma SplitPartText(vm: string, p: string, w: string, q: string)
    ensures PartOf(vm, RunTogether(p, w, q)) == PartOf(vm, p) + ([','] + PartOf(w, q))
  {
    PartTogether(vm, p, w, q);
    Reassociate(PartOf(vm, p), [','], PartOf(w, q));
  }

  lemma OneLeftOver(c: Cluster, a: seq<NodeDisk>, parts: seq<string>, k: nat)
    requires ValidPools(c.name, c.nodePools) && ValidDisks(WorkerNames(c), a) && parts == SortBy(Itself(), Parts(a))
    requires k == Leading(c, parts) && |parts| == k + 1 && PartSplits(c, parts[k])
    ensures !ListUnmistakable(c, a)
  {
    SortedParts(c, a, parts);
    assert parts[k] in parts;
    var vm, path :| vm in WorkerNames(c) && parts[k] == PartOf(vm, path) && PathSplits(c, vm, path);
    GoodPath(c, vm, path);
    var p, w, q := SplitPath(c, vm, path);
    SplitPartText(vm, p, w, q);
    var ds := LeadOf(c, a, parts, k);
    PartIsRegistered(c, a, vm, path);
    assert EndsInSplit(c, parts, ds, vm, p, w, q);
    var b := SplitList(c, a, parts, ds, vm, p, w, q);
  }

  lemma PartIsRegistered(c: Cluster, a: seq<NodeDisk>, vm: string, path: string)
    requires ValidPools(c.name, c.nodePools) && ValidDisks(WorkerNames(c), a) && vm in WorkerNames(c)
    requires PartOf(vm, path) in Parts(a)
    ensures (vm, path) in Registered(a)
  {
    PartsMembers(a);
    var d :| d in a && NeedsLonghornRegistration(d) && PartOf(vm, path) == PartOf(d.vmName, d.mountPath);
    assert DiskOK(WorkerNames(c), d);
    PartDecodes(c, vm, path, d.vmName, d.mountPath);
  }

  // ---------------------------------------------------------------- the exact condition

  /** Which lists are told apart from every other valid list: leading disks at the data path itself are
      always recognized, so set them aside. If nothing is left the list is told apart; if one disk is
      left, exactly when its path does not split; if two or more are left, never. */
  lemma ListUnmistakableExactlyWhen(c: Cluster, a: seq<NodeDisk>)
    requires ValidPools(c.name, c.nodePools) && '/' !in c.name && ValidDisks(WorkerNames(c), a)
    ensures var parts := SortBy(Itself(), Parts(a));
            var k := Leading(c, parts);
            ListUnmistakable(c, a) <==> |parts| == k || (|parts| == k + 1 && !PartSplits(c, parts[k]))
  {
    var parts := SortBy(Itself(), Parts(a));
    var k := Leading(c, parts);
    if |parts| == k || (|parts| == k + 1 && !PartSplits(c, parts[k])) {
      forall b | ValidDisks(WorkerNames(c), b) && FingerprintOf(b) == FingerprintOf(a)
        ensures Registered(b) == Registered(a)
      {
        ReadsOneWay(c, a, b, k);
      }
    } else if |parts| == k + 1 {
      OneLeftOver(c, a, parts, k);
    } else {
      SeveralLeftOver(c, a);
    }
  }
}
