/** The storage fingerprint: a text that stands for the set of disks Longhorn should have
    registered, compared on every tick to decide whether the wiring step runs again
    (internal/domain/domain.go). */
module Fingerprint {
  import opened Text
  import opened Sorting
  import opened Nodes
  import opened Disks

  predicate FeedsStoragePool(path: string) {
    path == LONGHORN_DATA_PATH || LONGHORN_DATA_PATH + "-" <= path
  }

  predicate NeedsLonghornRegistration(d: NodeDisk) {
    d.phase == DiskAttached && FeedsStoragePool(d.mountPath) && d.name != PLATFORM_STORAGE
  }

  function PartOf(vm: string, path: string): string {
    vm + ":" + path
  }

  function Parts(disks: seq<NodeDisk>): seq<string> {
    if disks == [] then []
    else
      var d := disks[|disks| - 1];
      Parts(disks[..|disks| - 1]) + (if NeedsLonghornRegistration(d) then [PartOf(d.vmName, d.mountPath)] else [])
  }

  function Itself(): string -> string {
    s => s
  }

  function FingerprintOf(disks: seq<NodeDisk>): string {
    Join(SortBy(Itself(), Parts(disks)), ',')
  }

  method StorageFingerprint(c: Cluster) returns (f: string)
    ensures f == FingerprintOf(c.nodeDisks)
  {
    var parts: seq<string> := [];
    for i := 0 to |c.nodeDisks|
      invariant parts == Parts(c.nodeDisks[..i])
    {
      assert c.nodeDisks[..i + 1][..i] == c.nodeDisks[..i];
      if NeedsLonghornRegistration(c.nodeDisks[i]) {
        parts := parts + [PartOf(c.nodeDisks[i].vmName, c.nodeDisks[i].mountPath)];
      }
    }
    assert c.nodeDisks[..|c.nodeDisks|] == c.nodeDisks;
    return Join(SortBy(Itself(), parts), ',');
  }

  /** What the fingerprint is meant to stand for. */
  function Registered(disks: seq<NodeDisk>): set<(string, string)> {
    set d | d in disks && NeedsLonghornRegistration(d) :: (d.vmName, d.mountPath)
  }

  // ---------------------------------------------------------------- order does not matter

  lemma {:induction false} PartsAppend(a: seq<NodeDisk>, b: seq<NodeDisk>)
    ensures Parts(a + b) == Parts(a) + Parts(b)
  {
    if b == [] {
      assert a + b == a;
    } else {
      var front := b[..|b| - 1];
      assert (a + b)[..|a + b| - 1] == a + front;
      PartsAppend(a, front);
    }
  }

  lemma WithoutOne(a: seq<NodeDisk>, d: NodeDisk, b: seq<NodeDisk>)
    ensures multiset(a + [d] + b) == multiset(a + b) + multiset{d}
  {
  }

  lemma PartsAround(a: seq<NodeDisk>, d: NodeDisk, b: seq<NodeDisk>)
    ensures multiset(Parts(a + [d] + b)) == multiset(Parts(a + b)) + multiset(Parts([d]))
  {
    PartsAppend(a + [d], b);
    PartsAppend(a, [d]);
    PartsAppend(a, b);
    var x, y, z := Parts(a), Parts([d]), Parts(b);
    assert multiset(x + y + z) == multiset(x + z) + multiset(y);
  }

  lemma CutAt(s: seq<NodeDisk>, j: nat) returns (a: seq<NodeDisk>, b: seq<NodeDisk>)
    requires j < |s|
    ensures s == a + [s[j]] + b
  {
    a, b := s[..j], s[j + 1..];
  }

  lemma RestsMatch(a: seq<NodeDisk>, b: seq<NodeDisk>, d: NodeDisk, x: seq<NodeDisk>, y: seq<NodeDisk>)
    requires multiset(a + [d] + b) == multiset(x + [d] + y)
    ensures multiset(a + b) == multiset(x + y)
  {
    WithoutOne(a, d, b);
    WithoutOne(x, d, y);
    assert multiset(a + b) == multiset(a + [d] + b) - multiset{d};
    assert multiset(x + y) == multiset(x + [d] + y) - multiset{d};
  }

  lemma {:induction false} PartsIgnoreOrder(s: seq<NodeDisk>, t: seq<NodeDisk>)
    requires multiset(s) == multiset(t)
    ensures multiset(Parts(s)) == multiset(Parts(t))
    decreases |s|
  {
    SameElements(s, t);
    if s != [] {
      var d := s[0];
      assert d in s;
      var j :| 0 <= j < |t| && t[j] == d;
      var a, b := CutAt(s, 0);
      var x, y := CutAt(t, j);
      RestsMatch(a, b, d, x, y);
      PartsIgnoreOrder(a + b, x + y);
      PartsAround(a, d, b);
      PartsAround(x, d, y);
    }
  }

  /** Reordering the disk list never re-runs the wiring. */
  lemma FingerprintIgnoresOrder(a: seq<NodeDisk>, b: seq<NodeDisk>)
    requires multiset(a) == multiset(b)
    ensures FingerprintOf(a) == FingerprintOf(b)
  {
    PartsIgnoreOrder(a, b);
    SortIgnoresOrder(Itself(), Parts(a), Parts(b));
  }

  // ---------------------------------------------------------------- what the text determines

  lemma {:induction false} PartsMembers(disks: seq<NodeDisk>)
    ensures forall s :: s in Parts(disks) <==>
              exists d | d in disks :: NeedsLonghornRegistration(d) && s == PartOf(d.vmName, d.mountPath)
  {
    if disks != [] {
      var front := disks[..|disks| - 1];
      assert disks == front + [disks[|disks| - 1]];
      PartsMembers(front);
    }
  }

  lemma PartsAreRegistered(disks: seq<NodeDisk>)
    ensures forall s :: s in Parts(disks) <==> exists vm, path :: (vm, path) in Registered(disks) && s == PartOf(vm, path)
  {
    PartsMembers(disks);
    forall s
      ensures s in Parts(disks) <==> exists vm, path :: (vm, path) in Registered(disks) && s == PartOf(vm, path)
    {
      if s in Parts(disks) {
        var d :| d in disks && NeedsLonghornRegistration(d) && s == PartOf(d.vmName, d.mountPath);
        assert (d.vmName, d.mountPath) in Registered(disks);
      }
      if vm, path :| (vm, path) in Registered(disks) && s == PartOf(vm, path) {
        var d :| d in disks && NeedsLonghornRegistration(d) && (d.vmName, d.mountPath) == (vm, path);
      }
    }
  }

  /** A list of texts that share a prefix and hold no comma after it is determined by its join. */
  ghost predicate Tagged(prefix: string, parts: seq<string>) {
    forall s | s in parts :: prefix <= s && ',' !in s[|prefix|..] && |s| > |prefix|
  }

  lemma TagSplit(prefix: string, s: string)
    requires prefix <= s
    ensures s == prefix + s[|prefix|..]
  {
  }

  lemma JoinIsNotEmpty(prefix: string, parts: seq<string>)
    requires Tagged(prefix, parts) && parts != []
    ensures Join(parts, ',') != ""
  {
    assert parts[0] in parts;
  }

  lemma {:induction false} JoinDecodes(prefix: string, a: seq<string>, b: seq<string>)
    requires Tagged(prefix, a) && Tagged(prefix, b) && Join(a, ',') == Join(b, ',')
    ensures a == b
    decreases |a|
  {
    if a != [] {
      JoinIsNotEmpty(prefix, a);
    }
    if b != [] {
      JoinIsNotEmpty(prefix, b);
    }
    if a != [] {
      assert a[0] in a && b[0] in b;
      assert forall s | s in a[1..] :: s in a;
      assert forall s | s in b[1..] :: s in b;
      assert a == [a[0]] + a[1..] && b == [b[0]] + b[1..];
      TagSplit(prefix, a[0]);
      TagSplit(prefix, b[0]);
      HeadsMatch(prefix, a[0][|prefix|..], a[1..], b[0][|prefix|..], b[1..]);
      JoinDecodes(prefix, a[1..], b[1..]);
    }
  }

  /** What follows the first part of a join: nothing, or a comma and the rest. */
  function Tail(rest: seq<string>): string {
    if rest == [] then "" else [','] + Join(rest, ',')
  }

  lemma JoinIsHeadAndTail(x: string, rest: seq<string>)
    ensures Join([x] + rest, ',') == x + Tail(rest)
  {
    assert ([x] + rest)[1..] == rest;
  }

  lemma Regroup(x: string, y: string, z: string)
    ensures x + y + z == x + (y + z)
  {
  }

  lemma HeadsMatch(prefix: string, u: string, xs: seq<string>, v: string, ys: seq<string>)
    requires ',' !in u && ',' !in v
    requires Join([prefix + u] + xs, ',') == Join([prefix + v] + ys, ',')
    ensures u == v && Join(xs, ',') == Join(ys, ',')
  {
    JoinIsHeadAndTail(prefix + u, xs);
    JoinIsHeadAndTail(prefix + v, ys);
    Regroup(prefix, u, Tail(xs));
    Regroup(prefix, v, Tail(ys));
    SamePrefix(prefix, u + Tail(xs), v + Tail(ys));
    FirstCommaMatches(u, xs, v, ys);
  }

  lemma CommaIffMore(u: string, xs: seq<string>)
    requires ',' !in u
    ensures ',' in u + Tail(xs) <==> xs != []
  {
    if xs != [] {
      assert (u + Tail(xs))[|u|] == ',';
    } else {
      assert u + Tail(xs) == u;
    }
  }

  lemma FirstCommaMatches(u: string, xs: seq<string>, v: string, ys: seq<string>)
    requires ',' !in u && ',' !in v && u + Tail(xs) == v + Tail(ys)
    ensures u == v && Join(xs, ',') == Join(ys, ',')
  {
    CommaIffMore(u, xs);
    CommaIffMore(v, ys);
    if xs != [] {
      var x, y := Join(xs, ','), Join(ys, ',');
      assert u + ([','] + x) == u + [','] + x && v + ([','] + y) == v + [','] + y;
      FirstSeparator(',', u, x, v, y);
    } else {
      assert u + Tail(xs) == u && v + Tail(ys) == v;
    }
  }

  // ---------------------------------------------------------------- exactness

  predicate CommaFreePaths(disks: seq<NodeDisk>) {
    forall d | d in disks && NeedsLonghornRegistration(d) :: ',' !in d.mountPath
  }

  predicate OnWorkers(c: Cluster, disks: seq<NodeDisk>) {
    forall d | d in disks :: d.vmName in WorkerNames(c)
  }

  lemma ValidSitsOnWorkers(c: Cluster, disks: seq<NodeDisk>)
    requires ValidDisks(WorkerNames(c), disks)
    ensures OnWorkers(c, disks) && AllCompatible(disks)
  {
    forall d | d in disks
      ensures d.vmName in WorkerNames(c)
    {
      assert DiskOK(WorkerNames(c), d);
    }
  }

  lemma PartShape(c: Cluster, vm: string, path: string)
    requires ValidPools(c.name, c.nodePools) && vm in WorkerNames(c)
    ensures c.name <= PartOf(vm, path) && |PartOf(vm, path)| > |c.name|
    ensures ',' !in path ==> ',' !in PartOf(vm, path)[|c.name|..]
  {
    var p, i := WorkerNameShape(c, vm);
    WorkerSuffix(c.name, p, i);
    var s := "-" + p + "-" + Itoa(i);
    assert PartOf(vm, path) == c.name + (s + ":" + path);
  }

  lemma PartDecodes(c: Cluster, v: string, x: string, w: string, y: string)
    requires ValidPools(c.name, c.nodePools) && v in WorkerNames(c) && w in WorkerNames(c)
    requires PartOf(v, x) == PartOf(w, y)
    ensures v == w && x == y
  {
    var p, i := WorkerNameShape(c, v);
    var q, j := WorkerNameShape(c, w);
    WorkerSuffix(c.name, p, i);
    WorkerSuffix(c.name, q, j);
    TailDecodes(c.name, "-" + p + "-" + Itoa(i), x, "-" + q + "-" + Itoa(j), y, ':');
  }

  lemma PartsAreTagged(c: Cluster, disks: seq<NodeDisk>)
    requires ValidPools(c.name, c.nodePools) && CommaFreePaths(disks)
    requires OnWorkers(c, disks)
    ensures Tagged(c.name, Parts(disks))
  {
    PartsMembers(disks);
    forall s | s in Parts(disks)
      ensures c.name <= s && ',' !in s[|c.name|..] && |s| > |c.name|
    {
      var d :| d in disks && NeedsLonghornRegistration(d) && s == PartOf(d.vmName, d.mountPath);
      PartShape(c, d.vmName, d.mountPath);
    }
  }

  lemma SortingKeepsTags(prefix: string, parts: seq<string>)
    requires Tagged(prefix, parts)
    ensures Tagged(prefix, SortBy(Itself(), parts))
  {
    SortPermutes(Itself(), parts);
    SameElements(SortBy(Itself(), parts), parts);
  }

  lemma SamePartsSameDisks(c: Cluster, a: seq<NodeDisk>, b: seq<NodeDisk>)
    requires ValidPools(c.name, c.nodePools)
    requires OnWorkers(c, a) && OnWorkers(c, b)
    requires forall s | s in Parts(a) :: s in Parts(b)
    ensures Registered(a) <= Registered(b)
  {
    PartsMembers(a);
    PartsMembers(b);
    forall vm, path | (vm, path) in Registered(a)
      ensures (vm, path) in Registered(b)
    {
      var d :| d in a && NeedsLonghornRegistration(d) && (d.vmName, d.mountPath) == (vm, path);
      assert PartOf(vm, path) in Parts(a);
      var e :| e in b && NeedsLonghornRegistration(e) && PartOf(vm, path) == PartOf(e.vmName, e.mountPath);
      PartDecodes(c, vm, path, e.vmName, e.mountPath);
    }
  }

  lemma PartIsNew(c: Cluster, disks: seq<NodeDisk>, d: NodeDisk)
    requires ValidPools(c.name, c.nodePools) && d.vmName in WorkerNames(c)
    requires forall e | e in disks :: e.vmName in WorkerNames(c) && Compatible(e, d)
    ensures PartOf(d.vmName, d.mountPath) !in Parts(disks)
  {
    PartsMembers(disks);
    forall e | e in disks
      ensures PartOf(e.vmName, e.mountPath) != PartOf(d.vmName, d.mountPath)
    {
      if PartOf(e.vmName, e.mountPath) == PartOf(d.vmName, d.mountPath) {
        PartDecodes(c, e.vmName, e.mountPath, d.vmName, d.mountPath);
      }
    }
  }

  /** In a valid list no part occurs twice. */
  lemma {:induction false} PartsOccurOnce(c: Cluster, disks: seq<NodeDisk>, s: string)
    requires ValidPools(c.name, c.nodePools) && AllCompatible(disks) && OnWorkers(c, disks)
    ensures multiset(Parts(disks))[s] == if s in Parts(disks) then 1 else 0
  {
    if disks != [] {
      var front, d := disks[..|disks| - 1], disks[|disks| - 1];
      assert disks == front + [d];
      PartsOccurOnce(c, front, s);
      assert forall e | e in front :: Compatible(e, d);
      PartIsNew(c, front, d);
    }
  }

  lemma SameDisksSameText(c: Cluster, a: seq<NodeDisk>, b: seq<NodeDisk>)
    requires ValidPools(c.name, c.nodePools) && OnWorkers(c, a) && OnWorkers(c, b)
    requires AllCompatible(a) && AllCompatible(b) && Registered(a) == Registered(b)
    ensures FingerprintOf(a) == FingerprintOf(b)
  {
    PartsAreRegistered(a);
    PartsAreRegistered(b);
    forall s
      ensures multiset(Parts(a))[s] == multiset(Parts(b))[s]
    {
      PartsOccurOnce(c, a, s);
      PartsOccurOnce(c, b, s);
    }
    SortIgnoresOrder(Itself(), Parts(a), Parts(b));
  }

  lemma SameTextSameParts(c: Cluster, a: seq<NodeDisk>, b: seq<NodeDisk>)
    requires ValidPools(c.name, c.nodePools) && OnWorkers(c, a) && OnWorkers(c, b)
    requires CommaFreePaths(a) && CommaFreePaths(b) && FingerprintOf(a) == FingerprintOf(b)
    ensures forall s :: s in Parts(a) <==> s in Parts(b)
  {
    PartsAreTagged(c, a);
    PartsAreTagged(c, b);
    SortingKeepsTags(c.name, Parts(a));
    SortingKeepsTags(c.name, Parts(b));
    JoinDecodes(c.name, SortBy(Itself(), Parts(a)), SortBy(Itself(), Parts(b)));
    SortPermutes(Itself(), Parts(a));
    SortPermutes(Itself(), Parts(b));
    SameElements(Parts(a), Parts(b));
  }

  /** The wiring step re-runs exactly when the set of disks to register has changed, as long as no
      registered mount path holds a comma. */
  lemma FingerprintIsExact(c: Cluster, a: seq<NodeDisk>, b: seq<NodeDisk>)
    requires ValidPools(c.name, c.nodePools)
    requires ValidDisks(WorkerNames(c), a) && ValidDisks(WorkerNames(c), b)
    requires CommaFreePaths(a) && CommaFreePaths(b)
    ensures FingerprintOf(a) == FingerprintOf(b) <==> Registered(a) == Registered(b)
  {
    ValidSitsOnWorkers(c, a);
    ValidSitsOnWorkers(c, b);
    if FingerprintOf(a) == FingerprintOf(b) {
      SameTextSameParts(c, a, b);
      SamePartsSameDisks(c, a, b);
      SamePartsSameDisks(c, b, a);
    }
    if Registered(a) == Registered(b) {
      SameDisksSameText(c, a, b);
    }
  }

  // ---------------------------------------------------------------- and where it is not

  /** A mount path that runs two others together. */
  function RunTogether(p: string, w: string, q: string): string {
    p + "," + PartOf(w, q)
  }

  lemma ProtectedAreShort()
    ensures forall m | m in PROTECTED_MOUNTS :: |m| <= 19
  {
  }

  predicate AllPlain(path: string) {
    forall s | s in Split(path, '/') :: PlainComponent(s)
  }

  lemma {:induction false} PlainThroughComma(a: string, m: string, b: string)
    requires AllPlain(a) && AllPlain(b) && '/' !in m && ',' in m
    ensures AllPlain(a + m + ['/'] + b)
    decreases |a|
  {
    if '/' in a {
      var i := IndexOf(a, '/');
      var x, y := a[..i], a[i + 1..];
      assert a == x + ['/'] + y;
      assert AllPlain(y);
      PlainThroughComma(y, m, b);
      assert a + m + ['/'] + b == x + ['/'] + (y + m + ['/'] + b);
      SplitAt('/', x, y + m + ['/'] + b);
    } else {
      SplitAt('/', a + m, b);
      assert ',' in a + m;
      assert a + m != "." && a + m != "..";
    }
  }

  lemma RunTogetherIsUsable(p: string, w: string, q: string)
    requires CheckMountPath(p).None? && CheckMountPath(q).None? && LONGHORN_DATA_PATH + "-" <= p && '/' !in w
    ensures CheckMountPath(RunTogether(p, w, q)).None? && FeedsStoragePool(RunTogether(p, w, q))
  {
    var r, m := RunTogether(p, w, q), "," + w + ":";
    assert |p| >= 17 && p[0] == '/' && q[0] == '/';
    ProtectedAreShort();
    assert |LONGHORN_DATA_PATH| == 17;
    assert p != "/" && q != "/";
    PlainThroughComma(p[1..], m, q[1..]);
    assert q == ['/'] + q[1..] && p == ['/'] + p[1..];
    assert r[1..] == p[1..] + m + ['/'] + q[1..];
  }

  lemma JoinTwo(p: string, q: string)
    ensures Join([p, q], ',') == p + [','] + q
  {
    assert [p, q][1..] == [q];
  }

  lemma TwoParts(x: NodeDisk, y: NodeDisk)
    requires NeedsLonghornRegistration(x) && NeedsLonghornRegistration(y)
    requires Leq(PartOf(x.vmName, x.mountPath), PartOf(y.vmName, y.mountPath))
    ensures FingerprintOf([x, y]) == PartOf(x.vmName, x.mountPath) + [','] + PartOf(y.vmName, y.mountPath)
  {
    var p, q := PartOf(x.vmName, x.mountPath), PartOf(y.vmName, y.mountPath);
    PartsOfTwo(x, y);
    SortedStays(Itself(), [p, q]);
    JoinTwo(p, q);
  }

  lemma PartsOfTwo(x: NodeDisk, y: NodeDisk)
    requires NeedsLonghornRegistration(x) && NeedsLonghornRegistration(y)
    ensures Parts([x, y]) == [PartOf(x.vmName, x.mountPath), PartOf(y.vmName, y.mountPath)]
  {
    PartsAppend([x], [y]);
    assert [x] + [y] == [x, y];
    assert Parts([x]) == [PartOf(x.vmName, x.mountPath)];
    assert Parts([y]) == [PartOf(y.vmName, y.mountPath)];
  }

  lemma OnePart(z: NodeDisk)
    requires NeedsLonghornRegistration(z)
    ensures FingerprintOf([z]) == PartOf(z.vmName, z.mountPath)
  {
    assert Parts([z]) == [PartOf(z.vmName, z.mountPath)];
    assert SortBy(Itself(), Parts([z])) == Parts([z]);
  }

  /** Mount-path validation lets commas through, and then two registered disks, the first not at the
      data path itself, can be mistaken for a single one: its path runs theirs together, passes
      validation, and gives the same fingerprint, so replacing the two by the one would not re-run
      the wiring. */
  lemma CommaPathsCollide(workers: set<string>, x: NodeDisk, y: NodeDisk)
    requires DiskOK(workers, x) && DiskOK(workers, y) && '/' !in y.vmName
    requires NeedsLonghornRegistration(x) && NeedsLonghornRegistration(y) && x.mountPath != LONGHORN_DATA_PATH
    requires Leq(PartOf(x.vmName, x.mountPath), PartOf(y.vmName, y.mountPath))
    ensures var z := x.(mountPath := RunTogether(x.mountPath, y.vmName, y.mountPath));
            && DiskOK(workers, z) && NeedsLonghornRegistration(z)
            && FingerprintOf([z]) == FingerprintOf([x, y])
            && Registered([z]) != Registered([x, y])
  {
    var r := RunTogether(x.mountPath, y.vmName, y.mountPath);
    var z := x.(mountPath := r);
    RunTogetherIsUsable(x.mountPath, y.vmName, y.mountPath);
    TwoParts(x, y);
    OnePart(z);
    assert PartOf(x.vmName, r) == PartOf(x.vmName, x.mountPath) + [','] + PartOf(y.vmName, y.mountPath);
    assert |r| > |x.mountPath|;
    assert x in [x, y] && (x.vmName, x.mountPath) in Registered([x, y]);
    assert (x.vmName, x.mountPath) !in Registered([z]);
  }

  // ---------------------------------------------------------------- the exact condition for a disk

  lemma {:induction false} PrefixLeq(s: string, x: string)
    ensures Leq(s, s + x)
  {
    if s != "" {
      PrefixLeq(s[1..], x);
      assert (s + x)[1..] == s[1..] + x;
    }
  }

  /** A text that comes before t without being its beginning stays before t however it goes on. */
  lemma {:induction false} ExtendLeq(s: string, t: string, x: string)
    requires Leq(s, t) && !(s <= t)
    ensures Leq(s + x, t) && s + x != t
  {
    if s[0] == t[0] {
      assert !(s[1..] <= t[1..]) by {
        assert s == [s[0]] + s[1..] && t == [t[0]] + t[1..];
      }
      ExtendLeq(s[1..], t[1..], x);
      assert (s + x)[1..] == s[1..] + x;
    }
  }

  lemma SlashFreeWorker(c: Cluster, vm: string)
    requires ValidPools(c.name, c.nodePools) && vm in WorkerNames(c) && '/' !in c.name
    ensures '/' !in vm
  {
    var p, i := WorkerNameShape(c, vm);
    WorkerSuffix(c.name, p, i);
  }

  /** A mount path of an additional pool disk: accepted, and below the data path with a dash. */
  predicate OwnPath(p: string) {
    CheckMountPath(p).None? && LONGHORN_DATA_PATH + "-" <= p
  }

  predicate PoolPath(p: string) {
    CheckMountPath(p).None? && FeedsStoragePool(p)
  }

  ghost predicate GoodPart(c: Cluster, s: string) {
    exists w, q :: w in WorkerNames(c) && PoolPath(q) && s == PartOf(w, q)
  }

  lemma PartExtends(v: string, p: string, t: string)
    ensures PartOf(v, p) + t == PartOf(v, p + t)
  {
  }

  lemma TogetherExtends(p: string, w: string, q: string, t: string)
    ensures RunTogether(p, w, q) + t == RunTogether(p, w, q + t)
  {
    PartExtends(w, q, t);
    assert p + "," + PartOf(w, q) + t == p + "," + (PartOf(w, q) + t);
  }

  lemma TailOpens(rest: seq<string>)
    requires rest != []
    ensures Tail(rest) == [','] + rest[0] + Tail(rest[1..])
  {
    assert rest == [rest[0]] + rest[1..];
    JoinIsHeadAndTail(rest[0], rest[1..]);
  }

  lemma ThroughFirst(q: string, w: string, r: string, rest: seq<string>)
    requires rest != [] && rest[0] == PartOf(w, r)
    ensures q + Tail(rest) == RunTogether(q, w, r) + Tail(rest[1..])
  {
    TailOpens(rest);
    Spliced(q, rest[0], Tail(rest[1..]));
  }

  lemma Spliced(q: string, head: string, t: string)
    ensures q + ([','] + head + t) == q + "," + head + t
  {
  }

  /** A pool path that runs on through any number of parts is still an accepted pool path. */
  lemma {:induction false} RunOnIsUsable(c: Cluster, q: string, rest: seq<string>)
    requires ValidPools(c.name, c.nodePools) && '/' !in c.name && OwnPath(q)
    requires forall s | s in rest :: GoodPart(c, s)
    ensures OwnPath(q + Tail(rest))
    decreases |rest|
  {
    if rest == [] {
      assert q + Tail(rest) == q;
    } else {
      assert rest[0] in rest;
      var w, r :| w in WorkerNames(c) && PoolPath(r) && rest[0] == PartOf(w, r);
      SlashFreeWorker(c, w);
      RunTogetherIsUsable(q, w, r);
      ThroughFirst(q, w, r, rest);
      assert forall s | s in rest[1..] :: s in rest;
      assert LONGHORN_DATA_PATH + "-" <= RunTogether(q, w, r);
      RunOnIsUsable(c, RunTogether(q, w, r), rest[1..]);
    }
  }

  /** The disk's path runs the paths of two other disks together, in the order they sort. */
  predicate Splits(c: Cluster, z: NodeDisk, p: string, w: string, q: string) {
    && w in WorkerNames(c) && PoolPath(p) && PoolPath(q)
    && z.mountPath == RunTogether(p, w, q)
    && Leq(PartOf(z.vmName, p), PartOf(w, q)) && (z.vmName, p) != (w, q)
  }

  lemma LongerIsNoBeginning(c: Cluster, v: string, p: string, w: string, q: string)
    requires ValidPools(c.name, c.nodePools) && v in WorkerNames(c) && w in WorkerNames(c) && |p| > |q|
    ensures !(PartOf(v, p) <= PartOf(w, q))
  {
    var s, t := PartOf(v, p), PartOf(w, q);
    if s <= t {
      var x := t[|s|..];
      PartExtends(v, p, x);
      PartDecodes(c, v, p + x, w, q);
    }
  }

  lemma NotABeginning(c: Cluster, v: string, p: string, w: string)
    requires ValidPools(c.name, c.nodePools) && v in WorkerNames(c) && w in WorkerNames(c) && OwnPath(p)
    ensures !(PartOf(v, p) <= PartOf(w, LONGHORN_DATA_PATH))
  {
    LongerIsNoBeginning(c, v, p, w, LONGHORN_DATA_PATH);
  }

  lemma BeforeAll(s: string, t: string, x: string)
    requires Leq(s, t) && s != t
    ensures Leq(s, t + x) && s != t + x
  {
    PrefixLeq(t, x);
    LeqTransitive(s, t, t + x);
    if s == t + x {
      LeqAntisymmetric(s, t);
    }
  }

  lemma PlainHead(u: string, rest: string)
    requires '/' !in u
    ensures AllPlain(u + ['/'] + rest) <==> PlainComponent(u) && AllPlain(rest)
  {
    SplitAt('/', u, rest);
    assert forall s :: s in [u] + Split(rest, '/') <==> s == u || s in Split(rest, '/');
  }

  lemma FirstSlash(x: string, i: nat, y: string)
    requires i < |x| && x[i] == '/'
    ensures x == x[..i] + ['/'] + x[i + 1..]
    ensures x + ['/'] + y == x[..i] + ['/'] + (x[i + 1..] + ['/'] + y)
  {
  }

  /** Where a path is cut between two of its components, it is clean when both sides are. */
  lemma {:induction false} CleanSides(x: string, y: string)
    ensures AllPlain(x + ['/'] + y) <==> AllPlain(x) && AllPlain(y)
    decreases |x|
  {
    if '/' in x {
      var i := IndexOf(x, '/');
      var u, v := x[..i], x[i + 1..];
      FirstSlash(x, i, y);
      CleanSides(v, y);
      PlainHead(u, v);
      PlainHead(u, v + ['/'] + y);
    } else {
      PlainHead(x, y);
    }
  }

  lemma LongOwnPath(p: string)
    requires LONGHORN_DATA_PATH + "-" <= p && |p| > 19 && AllPlain(p[1..])
    ensures OwnPath(p)
  {
    ProtectedAreShort();
    assert p[0] == LONGHORN_DATA_PATH[0] == '/';
  }

  lemma Rearranged(p: string, w: string, q: string, t: string)
    requires p != "" && q != "" && q[0] == '/'
    ensures (RunTogether(p, w, q) + t)[1..] == (p[1..] + "," + w + ":") + ['/'] + (q[1..] + t)
    ensures RunTogether(p, w, q)[1..] == (p[1..] + "," + w + ":") + ['/'] + q[1..]
    ensures (q + t)[1..] == q[1..] + t
  {
    assert q == ['/'] + q[1..];
  }

  /** An accepted path that begins by running two paths together and goes on: its beginning is an
      accepted path, and so is its end from the second path on. */
  lemma CleanPieces(z: string, p: string, w: string, q: string, t: string)
    requires CheckMountPath(z).None? && OwnPath(p) && PoolPath(q) && z == RunTogether(p, w, q) + t
    ensures OwnPath(RunTogether(p, w, q))
    ensures q != LONGHORN_DATA_PATH && |q + t| > 19 ==> OwnPath(q + t)
  {
    var x := p[1..] + "," + w + ":";
    assert |LONGHORN_DATA_PATH| == 17 && z != "/" && q != "/";
    Rearranged(p, w, q, t);
    CleanSides(x, q[1..] + t);
    CleanSides(x, q[1..]);
    LongOwnPath(RunTogether(p, w, q));
    if q != LONGHORN_DATA_PATH && |q + t| > 19 {
      LongOwnPath(q + t);
    }
  }

  /** Somewhere in a list of several parts there is a cut into two accepted paths. */
  lemma {:induction false} FindSplit(c: Cluster, z: NodeDisk, p: string, rest: seq<string>) returns (p': string, w: string, q: string)
    requires ValidPools(c.name, c.nodePools) && z.vmName in WorkerNames(c) && CheckMountPath(z.mountPath).None? && OwnPath(p)
    requires rest != [] && (forall s | s in rest :: GoodPart(c, s)) && SortedBy(Itself(), rest)
    requires Leq(PartOf(z.vmName, p), rest[0]) && PartOf(z.vmName, p) != rest[0]
    requires z.mountPath == p + Tail(rest)
    ensures Splits(c, z, p', w, q)
    decreases |rest|
  {
    var v, head := z.vmName, PartOf(z.vmName, p);
    assert rest[0] in rest;
    var w0, q0 :| w0 in WorkerNames(c) && PoolPath(q0) && rest[0] == PartOf(w0, q0);
    assert forall s | s in rest[1..] :: s in rest;
    ThroughFirst(p, w0, q0, rest);
    CleanPieces(z.mountPath, p, w0, q0, Tail(rest[1..]));
    if |rest| == 1 || q0 != LONGHORN_DATA_PATH {
      p', w, q := p, w0, q0 + Tail(rest[1..]);
      GoesOnLong(q0, rest[1..]);
      CutHere(c, z, p, w0, q0, rest);
    } else {
      NotABeginning(c, v, p, w0);
      ExtendLeq(head, rest[0], "," + rest[0]);
      CutLater(z, p, w0, q0, rest);
      p', w, q := FindSplit(c, z, RunTogether(p, w0, q0), rest[1..]);
    }
  }

  lemma GoesOnLong(q: string, rest: seq<string>)
    requires PoolPath(q)
    ensures rest == [] ==> q + Tail(rest) == q
    ensures rest != [] && q != LONGHORN_DATA_PATH && |rest[0]| > 1 ==> |q + Tail(rest)| > 19
  {
    assert |LONGHORN_DATA_PATH| == 17;
    if rest != [] {
      TailOpens(rest);
    }
  }

  lemma CutHere(c: Cluster, z: NodeDisk, p: string, w: string, q: string, rest: seq<string>)
    requires rest != [] && w in WorkerNames(c) && PoolPath(p) && PoolPath(q + Tail(rest[1..])) && rest[0] == PartOf(w, q)
    requires Leq(PartOf(z.vmName, p), rest[0]) && PartOf(z.vmName, p) != rest[0]
    requires z.mountPath == RunTogether(p, w, q) + Tail(rest[1..])
    ensures Splits(c, z, p, w, q + Tail(rest[1..]))
  {
    var t := Tail(rest[1..]);
    BeforeAll(PartOf(z.vmName, p), rest[0], t);
    PartExtends(w, q, t);
    TogetherExtends(p, w, q, t);
  }

  lemma CutLater(z: NodeDisk, p: string, w: string, q: string, rest: seq<string>)
    requires |rest| >= 2 && SortedBy(Itself(), rest) && rest[0] == PartOf(w, q)
    requires var head := PartOf(z.vmName, p) + ("," + rest[0]); Leq(head, rest[0]) && head != rest[0]
    ensures SortedBy(Itself(), rest[1..])
    ensures Leq(PartOf(z.vmName, RunTogether(p, w, q)), rest[1..][0]) && PartOf(z.vmName, RunTogether(p, w, q)) != rest[1..][0]
  {
    var head := PartOf(z.vmName, p) + ("," + rest[0]);
    assert PartOf(z.vmName, RunTogether(p, w, q)) == head;
    assert Leq(Itself()(rest[0]), Itself()(rest[1]));
    LeqTransitive(head, rest[0], rest[1]);
    if head == rest[1] {
      LeqAntisymmetric(head, rest[0]);
    }
  }

  /** Every valid list with the disk's fingerprint registers just that disk. */
  ghost predicate Unmistakable(c: Cluster, z: NodeDisk) {
    forall b | ValidDisks(WorkerNames(c), b) && FingerprintOf(b) == FingerprintOf([z]) :: Registered(b) == Registered([z])
  }

  lemma ShortNamesAreFine()
    ensures CheckDiskName("a").None? && CheckDiskName("b").None? && "a" != PLATFORM_STORAGE && "b" != PLATFORM_STORAGE
  {
    assert |PLATFORM_STORAGE| == 7;
  }

  lemma TwoAreValid(workers: set<string>, x: NodeDisk, y: NodeDisk)
    requires DiskOK(workers, x) && DiskOK(workers, y) && Compatible(x, y)
    ensures ValidDisks(workers, [x, y])
  {
    assert [x, y][..1] == [x] && [x][..0] == [];
    forall vm
      ensures CountOn([x, y], vm) <= 2
    {
      assert CountOn([x], vm) <= 1;
    }
  }

  lemma SplitDisks(workers: set<string>, z: NodeDisk, p: string, w: string, q: string) returns (x: NodeDisk, y: NodeDisk)
    requires DiskOK(workers, z) && w in workers && PoolPath(p) && PoolPath(q) && (z.vmName, p) != (w, q)
    ensures DiskOK(workers, x) && DiskOK(workers, y) && Compatible(x, y)
    ensures NeedsLonghornRegistration(x) && x.vmName == z.vmName && x.mountPath == p
    ensures NeedsLonghornRegistration(y) && y.vmName == w && y.mountPath == q
  {
    ShortNamesAreFine();
    x := NodeDisk(z.vmName, "a", z.sizeGB, p, z.fsType, DiskAttached, "");
    y := NodeDisk(w, "b", z.sizeGB, q, z.fsType, DiskAttached, "");
  }

  lemma PartTogether(v: string, p: string, w: string, q: string)
    ensures PartOf(v, RunTogether(p, w, q)) == PartOf(v, p) + [','] + PartOf(w, q)
    ensures |RunTogether(p, w, q)| > |p|
  {
  }

  /** The two disks the path splits into, as a list of their own. */
  lemma SplitCollides(c: Cluster, z: NodeDisk, p: string, w: string, q: string)
    requires DiskOK(WorkerNames(c), z) && NeedsLonghornRegistration(z) && Splits(c, z, p, w, q)
    ensures !Unmistakable(c, z)
  {
    var x, y := SplitDisks(WorkerNames(c), z, p, w, q);
    TwoAreValid(WorkerNames(c), x, y);
    TwoParts(x, y);
    OnePart(z);
    PartTogether(z.vmName, p, w, q);
    NotTheSame([x, y], x, z);
  }

  lemma SortedParts(c: Cluster, b: seq<NodeDisk>, parts: seq<string>)
    requires ValidPools(c.name, c.nodePools) && ValidDisks(WorkerNames(c), b) && parts == SortBy(Itself(), Parts(b))
    ensures SortedBy(Itself(), parts) && (forall s :: s in parts <==> s in Parts(b))
    ensures (forall s | s in parts :: GoodPart(c, s)) && (|parts| >= 2 ==> parts[0] != parts[1])
  {
    SortSorts(Itself(), Parts(b));
    SortPermutes(Itself(), Parts(b));
    SameElements(parts, Parts(b));
    PartsAreGood(c, b);
    ValidSitsOnWorkers(c, b);
    if |parts| >= 2 {
      PartsOccurOnce(c, b, parts[0]);
      NotTwice(parts);
    }
  }

  lemma NotTwice(parts: seq<string>)
    requires |parts| >= 2 && multiset(parts)[parts[0]] <= 1
    ensures parts[0] != parts[1]
  {
    assert parts == [parts[0], parts[1]] + parts[2..];
    assert multiset(parts) == multiset{parts[0], parts[1]} + multiset(parts[2..]);
  }

  lemma PartsAreGood(c: Cluster, b: seq<NodeDisk>)
    requires ValidDisks(WorkerNames(c), b)
    ensures forall s | s in Parts(b) :: GoodPart(c, s)
  {
    PartsMembers(b);
    forall s | s in Parts(b)
      ensures GoodPart(c, s)
    {
      var d :| d in b && NeedsLonghornRegistration(d) && s == PartOf(d.vmName, d.mountPath);
      assert DiskOK(WorkerNames(c), d);
    }
  }

  lemma OnlyOnePart(c: Cluster, z: NodeDisk, b: seq<NodeDisk>)
    requires ValidPools(c.name, c.nodePools) && OnWorkers(c, b) && z.vmName in WorkerNames(c)
    requires NeedsLonghornRegistration(z) && forall s :: s in Parts(b) <==> s == PartOf(z.vmName, z.mountPath)
    ensures Registered(b) == Registered([z])
  {
    assert Parts([z]) == [PartOf(z.vmName, z.mountPath)];
    SamePartsSameDisks(c, b, [z]);
    SamePartsSameDisks(c, [z], b);
  }

  lemma DataPathEnds(rest: seq<string>)
    requires rest != []
    ensures !FeedsStoragePool(LONGHORN_DATA_PATH + Tail(rest))
  {
    var n := |LONGHORN_DATA_PATH|;
    assert (LONGHORN_DATA_PATH + Tail(rest))[n] == ',';
    assert (LONGHORN_DATA_PATH + "-")[n] == '-';
  }

  /** A pool path that goes on after a comma had a dash before it. */
  lemma OwnPathBeforeComma(q: string, rest: seq<string>)
    requires PoolPath(q) && rest != [] && FeedsStoragePool(q + Tail(rest))
    ensures OwnPath(q)
  {
    DataPathEnds(rest);
  }

  /** A list that is taken for z without being it gives away how z's path splits. */
  lemma MistakenMeansSplit(c: Cluster, z: NodeDisk, b: seq<NodeDisk>) returns (p: string, w: string, q: string)
    requires ValidPools(c.name, c.nodePools)
    requires DiskOK(WorkerNames(c), z) && NeedsLonghornRegistration(z) && ValidDisks(WorkerNames(c), b)
    requires FingerprintOf(b) == FingerprintOf([z]) && Registered(b) != Registered([z])
    ensures Splits(c, z, p, w, q)
  {
    var parts := SortBy(Itself(), Parts(b));
    var text := PartOf(z.vmName, z.mountPath);
    OnePart(z);
    SortedParts(c, b, parts);
    ValidSitsOnWorkers(c, b);
    assert |text| > 0 && Join(parts, ',') == text;
    assert parts != [];
    if |parts| == 1 {
      assert parts == [text];
      OnlyOnePart(c, z, b);
    }
    assert |parts| >= 2;
    p, w, q := ManyPartsSplit(c, z, parts);
  }

  /** The first part of a joined text is on the disk's own node and begins its path. */
  lemma FirstPart(c: Cluster, z: NodeDisk, first: string, rest: seq<string>) returns (p: string)
    requires ValidPools(c.name, c.nodePools) && z.vmName in WorkerNames(c) && FeedsStoragePool(z.mountPath)
    requires GoodPart(c, first) && rest != [] && first + Tail(rest) == PartOf(z.vmName, z.mountPath)
    ensures OwnPath(p) && first == PartOf(z.vmName, p) && z.mountPath == p + Tail(rest)
  {
    p := BeginsHere(c, z, first, Tail(rest));
    OwnPathBeforeComma(p, rest);
  }

  lemma BeginsHere(c: Cluster, z: NodeDisk, first: string, tail: string) returns (p: string)
    requires ValidPools(c.name, c.nodePools) && z.vmName in WorkerNames(c)
    requires GoodPart(c, first) && first + tail == PartOf(z.vmName, z.mountPath)
    ensures PoolPath(p) && first == PartOf(z.vmName, p) && z.mountPath == p + tail
  {
    var v;
    v, p :| v in WorkerNames(c) && PoolPath(p) && first == PartOf(v, p);
    PartExtends(v, p, tail);
    PartDecodes(c, v, p + tail, z.vmName, z.mountPath);
  }

  lemma SortedRest(parts: seq<string>)
    requires |parts| >= 2 && SortedBy(Itself(), parts)
    ensures Leq(parts[0], parts[1]) && SortedBy(Itself(), parts[1..])
  {
    assert Leq(Itself()(parts[0]), Itself()(parts[1]));
  }

  lemma ManyPartsSplit(c: Cluster, z: NodeDisk, parts: seq<string>) returns (p: string, w: string, q: string)
    requires ValidPools(c.name, c.nodePools)
    requires z.vmName in WorkerNames(c) && CheckMountPath(z.mountPath).None? && FeedsStoragePool(z.mountPath)
    requires |parts| >= 2 && SortedBy(Itself(), parts) && (forall s | s in parts :: GoodPart(c, s)) && parts[0] != parts[1]
    requires Join(parts, ',') == PartOf(z.vmName, z.mountPath)
    ensures Splits(c, z, p, w, q)
  {
    var first, rest := parts[0], parts[1..];
    assert first in parts && parts == [first] + rest;
    assert forall s | s in rest :: s in parts;
    JoinIsHeadAndTail(first, rest);
    SortedRest(parts);
    var p0 := FirstPart(c, z, first, rest);
    p, w, q := FindSplit(c, z, p0, rest);
  }

  /** Exactly the disks whose path does not split are told apart from every other valid list. A
      path with a comma that does not introduce a worker's name and a pool path is harmless. */
  lemma UnmistakableExactlyWhen(c: Cluster, z: NodeDisk)
    requires ValidPools(c.name, c.nodePools) && DiskOK(WorkerNames(c), z) && NeedsLonghornRegistration(z)
    ensures Unmistakable(c, z) <==> !exists p, w, q :: Splits(c, z, p, w, q)
  {
    if p, w, q :| Splits(c, z, p, w, q) {
      SplitCollides(c, z, p, w, q);
    } else {
      forall b | ValidDisks(WorkerNames(c), b) && FingerprintOf(b) == FingerprintOf([z])
        ensures Registered(b) == Registered([z])
      {
        if Registered(b) != Registered([z]) {
          var p, w, q := MistakenMeansSplit(c, z, b);
        }
      }
    }
  }

  /** Several registered disks, the first in order not at the data path itself, always look like one
      valid disk whose path runs all of theirs together. */
  lemma ManyLookLikeOne(c: Cluster, a: seq<NodeDisk>, x: NodeDisk)
    requires ValidPools(c.name, c.nodePools) && '/' !in c.name && ValidDisks(WorkerNames(c), a)
    requires x in a && NeedsLonghornRegistration(x) && x.mountPath != LONGHORN_DATA_PATH
    requires var parts := SortBy(Itself(), Parts(a)); |parts| >= 2 && parts[0] == PartOf(x.vmName, x.mountPath)
    ensures exists z :: DiskOK(WorkerNames(c), z) && NeedsLonghornRegistration(z)
              && FingerprintOf([z]) == FingerprintOf(a) && Registered([z]) != Registered(a)
  {
    var parts := SortBy(Itself(), Parts(a));
    SortedParts(c, a, parts);
    assert DiskOK(WorkerNames(c), x);
    RunTheRest(c, x, parts);
    var z := x.(mountPath := x.mountPath + Tail(parts[1..]));
    OnePart(z);
    NotTheSame(a, x, z);
  }

  lemma RunTheRest(c: Cluster, x: NodeDisk, parts: seq<string>)
    requires ValidPools(c.name, c.nodePools) && '/' !in c.name && OwnPath(x.mountPath)
    requires |parts| >= 2 && parts[0] == PartOf(x.vmName, x.mountPath) && forall s | s in parts :: GoodPart(c, s)
    ensures var path := x.mountPath + Tail(parts[1..]);
            OwnPath(path) && PartOf(x.vmName, path) == Join(parts, ',') && |path| > |x.mountPath|
  {
    var rest := parts[1..];
    assert parts == [parts[0]] + rest && forall s | s in rest :: s in parts;
    RunOnIsUsable(c, x.mountPath, rest);
    JoinIsHeadAndTail(parts[0], rest);
    PartExtends(x.vmName, x.mountPath, Tail(rest));
  }

  lemma NotTheSame(a: seq<NodeDisk>, x: NodeDisk, z: NodeDisk)
    requires x in a && NeedsLonghornRegistration(x) && |z.mountPath| > |x.mountPath|
    ensures Registered([z]) != Registered(a)
  {
    assert (x.vmName, x.mountPath) in Registered(a);
    assert (x.vmName, x.mountPath) !in Registered([z]);
  }
}
