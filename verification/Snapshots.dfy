/** Control-plane backups: which snapshot a recovery uses, which ones retention deletes, and that
    the second never affects the first (internal/domain/etcdsnapshot.go,
    internal/reconcile/etcdsnapshot.go). */
module Snapshots {
  import opened Wrappers

  datatype Snapshot = Snapshot(id: string, takenAt: int, revision: int)

  datatype SnapshotPolicy = SnapshotPolicy(retain: int, maxRestoreAge: int)

  // ---------------------------------------------------------------- choosing one to restore

  datatype Choice = NothingStored | TooOld | Restore(snapshot: Snapshot)

  /** The first of the most recent. */
  function Newest(snaps: seq<Snapshot>): Snapshot
    requires snaps != []
  {
    var last := snaps[|snaps| - 1];
    if |snaps| == 1 then last
    else
      var best := Newest(snaps[..|snaps| - 1]);
      if last.takenAt > best.takenAt then last else best
  }

  function Restorable(snaps: seq<Snapshot>, p: SnapshotPolicy, now: int): Choice {
    if snaps == [] then NothingStored
    else if p.maxRestoreAge > 0 && now - Newest(snaps).takenAt > p.maxRestoreAge then TooOld
    else Restore(Newest(snaps))
  }

  method RestorableSnapshot(snaps: seq<Snapshot>, p: SnapshotPolicy, now: int) returns (r: Choice)
    ensures r == Restorable(snaps, p, now)
  {
    if |snaps| == 0 {
      return NothingStored;
    }
    var newest := snaps[0];
    for i := 1 to |snaps|
      invariant newest == Newest(snaps[..i])
    {
      assert snaps[..i + 1][..i] == snaps[..i];
      if snaps[i].takenAt > newest.takenAt {
        newest := snaps[i];
      }
    }
    assert snaps[..|snaps|] == snaps;
    if p.maxRestoreAge > 0 && now - newest.takenAt > p.maxRestoreAge {
      return TooOld;
    }
    return Restore(newest);
  }

  lemma {:induction false} NewestIsNewest(snaps: seq<Snapshot>)
    requires snaps != []
    ensures Newest(snaps) in snaps
    ensures forall s | s in snaps :: s.takenAt <= Newest(snaps).takenAt
  {
    if |snaps| > 1 {
      var front := snaps[..|snaps| - 1];
      assert snaps == front + [snaps[|snaps| - 1]];
      NewestIsNewest(front);
    }
  }

  // ---------------------------------------------------------------- retention

  /** Puts s into a list that runs from newest to oldest, behind those of the same time. */
  function Place(sorted: seq<Snapshot>, s: Snapshot): seq<Snapshot> {
    if sorted == [] then [s]
    else
      var last := sorted[|sorted| - 1];
      if s.takenAt > last.takenAt then Place(sorted[..|sorted| - 1], s) + [last] else sorted + [s]
  }

  function Ranked(snaps: seq<Snapshot>): seq<Snapshot> {
    if snaps == [] then [] else Place(Ranked(snaps[..|snaps| - 1]), snaps[|snaps| - 1])
  }

  function Retention(p: SnapshotPolicy): nat {
    Max(p.retain, 1)
  }

  /** What retention deletes. */
  function Surplus(p: SnapshotPolicy, snaps: seq<Snapshot>): seq<Snapshot> {
    if |snaps| <= Retention(p) || |Ranked(snaps)| <= Retention(p) then [] else Ranked(snaps)[Retention(p)..]
  }

  lemma {:induction false} PlaceAt(sorted: seq<Snapshot>, s: Snapshot, j: nat)
    requires j <= |sorted| && (forall k | j <= k < |sorted| :: s.takenAt > sorted[k].takenAt)
    requires j > 0 ==> s.takenAt <= sorted[j - 1].takenAt
    ensures Place(sorted, s) == sorted[..j] + [s] + sorted[j..]
  {
    if j < |sorted| {
      var n := |sorted| - 1;
      PlaceAt(sorted[..n], s, j);
      assert sorted[..n][..j] + [s] + sorted[..n][j..] + [sorted[n]] == sorted[..j] + [s] + sorted[j..];
    }
  }

  /** One pass of the insertion sort: carries a[i] left past everything older. */
  method CarryLeft(a: array<Snapshot>, i: nat)
    requires 0 < i < a.Length
    modifies a
    ensures a[..i + 1] == Place(old(a[..i]), old(a[i]))
    ensures a[i + 1..] == old(a[i + 1..])
  {
    ghost var before := a[..];
    ghost var s := a[i];
    var j := i;
    while j > 0 && a[j].takenAt > a[j - 1].takenAt
      invariant 0 <= j <= i && a[j] == s
      invariant forall k | 0 <= k < j :: a[k] == before[k]
      invariant forall k | j < k <= i :: a[k] == before[k - 1]
      invariant forall k | i < k < a.Length :: a[k] == before[k]
      invariant forall k | j <= k < i :: s.takenAt > before[k].takenAt
    {
      a[j], a[j - 1] := a[j - 1], a[j];
      j := j - 1;
    }
    Carried(before, a[..], i, j);
  }

  lemma Carried(before: seq<Snapshot>, now: seq<Snapshot>, i: nat, j: nat)
    requires j <= i < |before| == |now| && now[j] == before[i]
    requires (forall k | 0 <= k < j :: now[k] == before[k]) && (forall k | j < k <= i :: now[k] == before[k - 1])
    requires forall k | j <= k < i :: before[i].takenAt > before[k].takenAt
    requires j > 0 ==> before[i].takenAt <= before[j - 1].takenAt
    ensures now[..i + 1] == Place(before[..i], before[i])
  {
    PlaceAt(before[..i], before[i], j);
    assert now[..i + 1] == before[..i][..j] + [before[i]] + before[..i][j..];
  }

  /** The insertion sort, in place. */
  method SortNewestFirst(a: array<Snapshot>)
    modifies a
    ensures a[..] == Ranked(old(a[..]))
  {
    ghost var snaps := a[..];
    var i := 1;
    assert |snaps| > 0 ==> a[..1] == snaps[..1] == Ranked(snaps[..1]);
    while i < a.Length
      invariant 1 <= i && (i <= a.Length || a.Length == 0)
      invariant a.Length > 0 ==> a[..i] == Ranked(snaps[..i]) && a[i..] == snaps[i..]
      invariant a.Length == 0 ==> a[..] == snaps
    {
      assert a[i] == a[i..][0] == snaps[i];
      assert snaps[..i + 1][..i] == snaps[..i];
      assert a[i + 1..] == a[i..][1..] == snaps[i + 1..];
      CarryLeft(a, i);
      i := i + 1;
    }
    if a.Length > 0 {
      assert snaps[..|snaps|] == snaps && a[..] == a[..a.Length];
    }
  }

  method PruneEtcdSnapshots(p: SnapshotPolicy, snaps: seq<Snapshot>) returns (gone: seq<Snapshot>)
    ensures gone == Surplus(p, snaps)
  {
    var retain := if p.retain < 1 then 1 else p.retain;
    if |snaps| <= retain {
      return [];
    }
    var sorted := new Snapshot[|snaps|](i requires 0 <= i < |snaps| => snaps[i]);
    assert sorted[..] == snaps;
    SortNewestFirst(sorted);
    RankedPermutes(snaps);
    return sorted[retain..];
  }

  lemma {:induction false} PlacePermutes(sorted: seq<Snapshot>, s: Snapshot)
    ensures multiset(Place(sorted, s)) == multiset(sorted) + multiset{s}
    ensures |Place(sorted, s)| == |sorted| + 1
  {
    if sorted != [] && s.takenAt > sorted[|sorted| - 1].takenAt {
      var front, last := sorted[..|sorted| - 1], sorted[|sorted| - 1];
      PlacePermutes(front, s);
      assert sorted == front + [last];
    }
  }

  lemma LastCounts(snaps: seq<Snapshot>)
    requires snaps != []
    ensures multiset(snaps) == multiset(snaps[..|snaps| - 1]) + multiset{snaps[|snaps| - 1]}
  {
    assert snaps == snaps[..|snaps| - 1] + [snaps[|snaps| - 1]];
  }

  lemma {:induction false} RankedPermutes(snaps: seq<Snapshot>)
    ensures multiset(Ranked(snaps)) == multiset(snaps) && |Ranked(snaps)| == |snaps|
  {
    if snaps != [] {
      var front, last := snaps[..|snaps| - 1], snaps[|snaps| - 1];
      RankedPermutes(front);
      PlacePermutes(Ranked(front), last);
      LastCounts(snaps);
    }
  }

  predicate NewestFirst(snaps: seq<Snapshot>) {
    forall i, j | 0 <= i < j < |snaps| :: snaps[i].takenAt >= snaps[j].takenAt
  }

  lemma PlaceMembers(sorted: seq<Snapshot>, s: Snapshot)
    ensures forall t :: t in Place(sorted, s) <==> t in sorted || t == s
  {
    PlacePermutes(sorted, s);
    assert forall t :: t in Place(sorted, s) <==> t in multiset(Place(sorted, s));
  }

  lemma OldestLast(placed: seq<Snapshot>, last: Snapshot)
    requires NewestFirst(placed) && forall t | t in placed :: t.takenAt >= last.takenAt
    ensures NewestFirst(placed + [last])
  {
    assert forall i | 0 <= i < |placed| :: placed[i] in placed;
  }

  lemma {:induction false} PlaceSorts(sorted: seq<Snapshot>, s: Snapshot)
    requires NewestFirst(sorted)
    ensures NewestFirst(Place(sorted, s))
    ensures sorted != [] ==> Place(sorted, s)[0] == if s.takenAt > sorted[0].takenAt then s else sorted[0]
  {
    if sorted != [] && s.takenAt > sorted[|sorted| - 1].takenAt {
      var front, last := sorted[..|sorted| - 1], sorted[|sorted| - 1];
      PlaceSorts(front, s);
      PlaceMembers(front, s);
      var placed := Place(front, s);
      assert forall t | t in placed :: t.takenAt >= last.takenAt;
      OldestLast(placed, last);
    }
  }

  /** Ranking is by age, and the first entry is exactly the snapshot a recovery would choose. */
  lemma {:induction false} RankedSorts(snaps: seq<Snapshot>)
    ensures NewestFirst(Ranked(snaps))
    ensures snaps != [] ==> |Ranked(snaps)| == |snaps| && Ranked(snaps)[0] == Newest(snaps)
  {
    RankedPermutes(snaps);
    if |snaps| > 0 {
      var front, last := snaps[..|snaps| - 1], snaps[|snaps| - 1];
      RankedSorts(front);
      PlaceSorts(Ranked(front), last);
      RankedPermutes(front);
    }
  }

  // ---------------------------------------------------------------- deleting

  function IdsOf(snaps: seq<Snapshot>): set<string> {
    set s | s in snaps :: s.id
  }

  /** The snapshots left once those with these ids are deleted. */
  function Without(snaps: seq<Snapshot>, ids: set<string>): seq<Snapshot> {
    if snaps == [] then []
    else
      var last := snaps[|snaps| - 1];
      Without(snaps[..|snaps| - 1], ids) + (if last.id in ids then [] else [last])
  }

  /** No snapshot twice, and an id names one snapshot. */
  ghost predicate UniqueIds(snaps: seq<Snapshot>) {
    && (forall s | s in snaps :: multiset(snaps)[s] == 1)
    && forall s, t | s in snaps && t in snaps && s.id == t.id :: s == t
  }

  lemma {:induction false} WithoutCounts(snaps: seq<Snapshot>, ids: set<string>, s: Snapshot)
    ensures multiset(Without(snaps, ids))[s] == if s.id in ids then 0 else multiset(snaps)[s]
  {
    if snaps != [] {
      var front, last := snaps[..|snaps| - 1], snaps[|snaps| - 1];
      WithoutCounts(front, ids, s);
      LastCounts(snaps);
    }
  }

  lemma WithoutMembers(snaps: seq<Snapshot>, ids: set<string>)
    ensures forall s :: s in Without(snaps, ids) <==> s in snaps && s.id !in ids
  {
    forall s
      ensures s in Without(snaps, ids) <==> s in snaps && s.id !in ids
    {
      WithoutCounts(snaps, ids, s);
      assert s in snaps <==> multiset(snaps)[s] > 0;
      assert s in Without(snaps, ids) <==> multiset(Without(snaps, ids))[s] > 0;
    }
  }

  lemma NewestBySubset(front: seq<Snapshot>, ids: set<string>, last: Snapshot)
    requires front != [] && last.takenAt > Newest(front).takenAt
    ensures Newest(Without(front, ids) + [last]) == last
  {
    var left := Without(front, ids);
    WithoutMembers(front, ids);
    NewestIsNewest(front);
    assert (left + [last])[..|left|] == left;
    if left != [] {
      NewestIsNewest(left);
      assert Newest(left) in front;
    }
  }

  /** Deleting anything but the chosen snapshot leaves the choice alone, ties included. */
  lemma {:induction false} ChoiceSurvives(snaps: seq<Snapshot>, ids: set<string>)
    requires snaps != [] && Newest(snaps).id !in ids
    ensures Without(snaps, ids) != [] && Newest(Without(snaps, ids)) == Newest(snaps)
  {
    if |snaps| > 1 {
      var front, last := snaps[..|snaps| - 1], snaps[|snaps| - 1];
      var left := Without(front, ids);
      if last.takenAt > Newest(front).takenAt {
        NewestBySubset(front, ids, last);
      } else {
        ChoiceSurvives(front, ids);
        assert (left + [last])[..|left|] == left;
        assert left + [] == left;
      }
    } else {
      assert Without(snaps[..0], ids) == [];
    }
  }

  lemma SurplusMembers(p: SnapshotPolicy, snaps: seq<Snapshot>)
    ensures multiset(Ranked(snaps)) == multiset(snaps) && |Ranked(snaps)| == |snaps|
    ensures var n := Min(|snaps|, Retention(p));
            Surplus(p, snaps) == Ranked(snaps)[n..] && Ranked(snaps) == Ranked(snaps)[..n] + Ranked(snaps)[n..]
  {
    RankedPermutes(snaps);
  }

  lemma OnlyOnce(a: seq<Snapshot>, b: seq<Snapshot>, s: Snapshot)
    requires multiset(a + b)[s] == 1 && s in a
    ensures s !in b && multiset(a)[s] == 1
  {
    assert multiset(a + b) == multiset(a) + multiset(b);
    assert multiset(a)[s] > 0;
  }

  lemma HeadNotInTail(snaps: seq<Snapshot>, kept: seq<Snapshot>, gone: seq<Snapshot>)
    requires UniqueIds(snaps) && multiset(kept + gone) == multiset(snaps) && kept != []
    ensures kept[0].id !in IdsOf(gone)
  {
    var head := kept[0];
    assert head in multiset(kept + gone) && head in snaps;
    OnlyOnce(kept, gone, head);
    forall s | s in gone
      ensures s.id != head.id
    {
      assert s in multiset(kept + gone) && s in snaps;
    }
  }

  /** The chosen snapshot is never surplus. */
  lemma ChosenIsKept(p: SnapshotPolicy, snaps: seq<Snapshot>)
    requires UniqueIds(snaps) && snaps != []
    ensures Newest(snaps).id !in IdsOf(Surplus(p, snaps))
  {
    var r, n := Ranked(snaps), Min(|snaps|, Retention(p));
    SurplusMembers(p, snaps);
    RankedSorts(snaps);
    assert r[..n][0] == Newest(snaps);
    HeadNotInTail(snaps, r[..n], r[n..]);
  }

  /** Retention never changes recovery: delete all of the surplus or any part of it, and every
      recovery under every policy at every time gives the same answer. */
  lemma PruningKeepsRecovery(p: SnapshotPolicy, snaps: seq<Snapshot>, ids: set<string>, q: SnapshotPolicy, now: int)
    requires UniqueIds(snaps) && ids <= IdsOf(Surplus(p, snaps))
    ensures Restorable(Without(snaps, ids), q, now) == Restorable(snaps, q, now)
  {
    if snaps != [] {
      ChosenIsKept(p, snaps);
      ChoiceSurvives(snaps, ids);
    }
  }

  lemma SplitCounts(r: seq<Snapshot>, n: nat)
    requires n <= |r|
    ensures multiset(r[..n]) + multiset(r[n..]) == multiset(r)
  {
    assert r == r[..n] + r[n..];
  }

  lemma KeptAreTheFirst(p: SnapshotPolicy, snaps: seq<Snapshot>)
    requires UniqueIds(snaps)
    ensures |Ranked(snaps)| == |snaps|
    ensures multiset(Without(snaps, IdsOf(Surplus(p, snaps)))) == multiset(Ranked(snaps)[..Min(|snaps|, Retention(p))])
  {
    var n := Min(|snaps|, Retention(p));
    SurplusMembers(p, snaps);
    SplitCounts(Ranked(snaps), n);
    KeptMatches(snaps, Ranked(snaps)[..n], Ranked(snaps)[n..]);
  }

  lemma KeptMatches(snaps: seq<Snapshot>, first: seq<Snapshot>, gone: seq<Snapshot>)
    requires UniqueIds(snaps) && multiset(first) + multiset(gone) == multiset(snaps)
    ensures multiset(Without(snaps, IdsOf(gone))) == multiset(first)
  {
    forall s
      ensures multiset(Without(snaps, IdsOf(gone)))[s] == multiset(first)[s]
    {
      WithoutCounts(snaps, IdsOf(gone), s);
      KeptOrGone(snaps, first, gone, s);
    }
  }

  lemma FirstAreNewest(r: seq<Snapshot>, n: nat, s: Snapshot, t: Snapshot)
    requires NewestFirst(r) && n <= |r| && s in r[n..] && t in r[..n]
    ensures s.takenAt <= t.takenAt
  {
    var j :| 0 <= j < n && r[j] == t;
    var i :| n <= i < |r| && r[i] == s;
  }

  /** Kept and deleted partition the stored snapshots; exactly the retention count is kept; nothing
      deleted is newer than anything kept. */
  lemma PruningKeepsTheNewest(p: SnapshotPolicy, snaps: seq<Snapshot>)
    requires UniqueIds(snaps)
    ensures var gone := Surplus(p, snaps);
            var kept := Without(snaps, IdsOf(gone));
            && multiset(kept) + multiset(gone) == multiset(snaps)
            && |kept| == Min(|snaps|, Max(1, p.retain))
            && forall s, t | s in gone && t in kept :: s.takenAt <= t.takenAt
  {
    var r, n, gone := Ranked(snaps), Min(|snaps|, Retention(p)), Surplus(p, snaps);
    var kept := Without(snaps, IdsOf(gone));
    SurplusMembers(p, snaps);
    KeptAreTheFirst(p, snaps);
    assert |kept| == |multiset(kept)| == |multiset(r[..n])| == n;
    RankedSorts(snaps);
    forall s, t | s in gone && t in kept
      ensures s.takenAt <= t.takenAt
    {
      assert t in multiset(r[..n]);
      FirstAreNewest(r, n, s, t);
    }
  }

  lemma KeptOrGone(snaps: seq<Snapshot>, keep: seq<Snapshot>, gone: seq<Snapshot>, s: Snapshot)
    requires UniqueIds(snaps) && multiset(keep) + multiset(gone) == multiset(snaps)
    ensures multiset(keep)[s] == if s.id in IdsOf(gone) then 0 else multiset(snaps)[s]
  {
    assert multiset(snaps)[s] == multiset(keep)[s] + multiset(gone)[s];
    assert s in snaps <==> multiset(snaps)[s] > 0;
    assert s in gone <==> multiset(gone)[s] > 0;
    if s.id in IdsOf(gone) && s in snaps {
      var t :| t in gone && t.id == s.id;
      assert t in multiset(snaps) && t in snaps;
    }
  }

  // ---------------------------------------------------------------- whole runs

  /** One scheduled backup: the snapshot stored, the order the store lists the snapshots in (ties
      come back in any order), and how many deletions succeed before one fails. */
  datatype Backup = Backup(taken: Snapshot, listed: seq<Snapshot>, deletions: nat)

  function Deleted(p: SnapshotPolicy, listed: seq<Snapshot>, deletions: nat): seq<Snapshot> {
    var gone := Surplus(p, listed);
    gone[..Min(deletions, |gone|)]
  }

  function Stored(p: SnapshotPolicy, run: seq<Backup>): seq<Snapshot> {
    if run == [] then []
    else
      var b := run[|run| - 1];
      Without(Stored(p, run[..|run| - 1]) + [b.taken], IdsOf(Deleted(p, b.listed, b.deletions)))
  }

  /** Every snapshot ever taken. */
  function Log(run: seq<Backup>): seq<Snapshot> {
    if run == [] then [] else Log(run[..|run| - 1]) + [run[|run| - 1].taken]
  }

  /** Each listing returns what is stored, in whatever order. */
  ghost predicate ListsTheStore(p: SnapshotPolicy, run: seq<Backup>) {
    run != [] ==>
      && ListsTheStore(p, run[..|run| - 1])
      && multiset(run[|run| - 1].listed) == multiset(Stored(p, run[..|run| - 1]) + [run[|run| - 1].taken])
  }

  /** Same kind of answer, and a restore rolls back to the same moment. */
  predicate SameRecovery(a: Choice, b: Choice) {
    match a
    case NothingStored => b.NothingStored?
    case TooOld => b.TooOld?
    case Restore(s) => b.Restore? && s.takenAt == b.snapshot.takenAt
  }

  lemma NewestTimeBySet(a: seq<Snapshot>, b: seq<Snapshot>)
    requires a != [] && forall s :: s in a <==> s in b
    ensures b != [] && Newest(a).takenAt == Newest(b).takenAt
  {
    assert a[0] in a;
    NewestIsNewest(a);
    NewestIsNewest(b);
  }

  lemma UniqueIdsOfPart(whole: seq<Snapshot>, part: seq<Snapshot>)
    requires UniqueIds(whole) && forall s :: multiset(part)[s] <= multiset(whole)[s]
    ensures UniqueIds(part)
  {
    assert forall s :: s in part <==> multiset(part)[s] > 0;
    assert forall s :: s in whole <==> multiset(whole)[s] > 0;
  }

  lemma {:induction false} StoredIsPartOfLog(p: SnapshotPolicy, run: seq<Backup>, s: Snapshot)
    ensures multiset(Stored(p, run))[s] <= multiset(Log(run))[s]
  {
    if run != [] {
      var front, b := run[..|run| - 1], run[|run| - 1];
      StoredIsPartOfLog(p, front, s);
      WithoutCounts(Stored(p, front) + [b.taken], IdsOf(Deleted(p, b.listed, b.deletions)), s);
    }
  }

  lemma {:induction false} ListedIsUnique(p: SnapshotPolicy, run: seq<Backup>)
    requires run != [] && ListsTheStore(p, run) && UniqueIds(Log(run))
    ensures UniqueIds(run[|run| - 1].listed)
  {
    var front, b := run[..|run| - 1], run[|run| - 1];
    forall s
      ensures multiset(b.listed)[s] <= multiset(Log(run))[s]
    {
      StoredIsPartOfLog(p, front, s);
      assert multiset(b.listed)[s] == multiset(Stored(p, front) + [b.taken])[s];
    }
    UniqueIdsOfPart(Log(run), b.listed);
  }

  /** One backup, whatever part of the surplus it manages to delete, leaves the newest time alone. */
  lemma BackupKeepsNewest(p: SnapshotPolicy, before: seq<Snapshot>, b: Backup)
    requires multiset(b.listed) == multiset(before + [b.taken]) && UniqueIds(b.listed)
    ensures var left := Without(before + [b.taken], IdsOf(Deleted(p, b.listed, b.deletions)));
            left != [] && Newest(left).takenAt == Newest(before + [b.taken]).takenAt
  {
    var all, ids := before + [b.taken], IdsOf(Deleted(p, b.listed, b.deletions));
    assert forall s :: s in all <==> s in multiset(all);
    assert forall s :: s in b.listed <==> s in multiset(b.listed);
    assert all[|all| - 1] in all && b.taken in b.listed;
    ChosenIsKept(p, b.listed);
    ChoiceSurvives(b.listed, ids);
    WithoutMembers(b.listed, ids);
    WithoutMembers(all, ids);
    NewestTimeBySet(Without(b.listed, ids), Without(all, ids));
    NewestTimeBySet(b.listed, all);
  }

  lemma NewestSnoc(snaps: seq<Snapshot>, s: Snapshot)
    ensures Newest(snaps + [s]).takenAt == if snaps == [] then s.takenAt else Max(Newest(snaps).takenAt, s.takenAt)
  {
    assert (snaps + [s])[..|snaps|] == snaps;
  }

  lemma EarlierLogUnique(log: seq<Snapshot>, s: Snapshot)
    requires UniqueIds(log + [s])
    ensures UniqueIds(log)
  {
    assert multiset(log + [s]) == multiset(log) + multiset{s};
    UniqueIdsOfPart(log + [s], log);
  }

  lemma {:induction false} StoredKeepsNewest(p: SnapshotPolicy, run: seq<Backup>)
    requires ListsTheStore(p, run) && UniqueIds(Log(run)) && run != []
    ensures Stored(p, run) != [] && Log(run) != [] && Newest(Stored(p, run)).takenAt == Newest(Log(run)).takenAt
  {
    var front, b := run[..|run| - 1], run[|run| - 1];
    ListedIsUnique(p, run);
    BackupKeepsNewest(p, Stored(p, front), b);
    NewestSnoc(Stored(p, front), b.taken);
    NewestSnoc(Log(front), b.taken);
    if front != [] {
      EarlierLogUnique(Log(front), b.taken);
      StoredKeepsNewest(p, front);
    }
  }

  /** Over any run of backups, with listings in any order and deletions failing at any point, a
      recovery answers as if nothing had ever been deleted. */
  lemma RetentionNeverCostsRecovery(p: SnapshotPolicy, run: seq<Backup>, q: SnapshotPolicy, now: int)
    requires ListsTheStore(p, run) && UniqueIds(Log(run))
    ensures SameRecovery(Restorable(Stored(p, run), q, now), Restorable(Log(run), q, now))
  {
    if run != [] {
      StoredKeepsNewest(p, run);
    }
  }

  /** And the store stays bounded: when the last backup's deletions all succeed, no more than the
      retention count remains. */
  lemma StoreStaysBounded(p: SnapshotPolicy, run: seq<Backup>)
    requires ListsTheStore(p, run) && UniqueIds(Log(run)) && run != []
    requires run[|run| - 1].deletions >= |Surplus(p, run[|run| - 1].listed)|
    ensures |Stored(p, run)| <= Max(1, p.retain)
  {
    var b := run[|run| - 1];
    ListedIsUnique(p, run);
    assert Deleted(p, b.listed, b.deletions) == Surplus(p, b.listed);
    PruningKeepsTheNewest(p, b.listed);
    SameLeft(Stored(p, run[..|run| - 1]) + [b.taken], b.listed, IdsOf(Surplus(p, b.listed)));
  }

  lemma SameLeft(a: seq<Snapshot>, b: seq<Snapshot>, ids: set<string>)
    requires multiset(a) == multiset(b)
    ensures |Without(a, ids)| == |Without(b, ids)|
  {
    forall s
      ensures multiset(Without(a, ids))[s] == multiset(Without(b, ids))[s]
    {
      WithoutCounts(a, ids, s);
      WithoutCounts(b, ids, s);
    }
    assert multiset(Without(a, ids)) == multiset(Without(b, ids));
    assert |multiset(Without(a, ids))| == |multiset(Without(b, ids))|;
  }

  // ---------------------------------------------------------------- the store

  /** One cluster's shelf of snapshots, as the in-memory store keeps it. */
  class Shelf {
    var snaps: seq<Snapshot>

    constructor ()
      ensures snaps == []
    {
      snaps := [];
    }

    method Save(s: Snapshot)
      modifies this
      ensures snaps == old(snaps) + [s]
    {
      snaps := snaps + [s];
    }

    /** Removes the first snapshot with that id, if there is one. */
    method Delete(id: string)
      modifies this
      ensures snaps == DropFirst(old(snaps), id)
      ensures UniqueIds(old(snaps)) ==> snaps == Without(old(snaps), {id})
    {
      for i := 0 to |snaps|
        invariant snaps == old(snaps) && forall k | 0 <= k < i :: snaps[k].id != id
      {
        if snaps[i].id == id {
          DropFirstAt(snaps, i);
          if UniqueIds(snaps) {
            DropOne(snaps, i);
          }
          snaps := snaps[..i] + snaps[i + 1..];
          return;
        }
      }
      DropFirstNone(snaps, id);
      assert forall s | s in snaps :: s.id != id;
      NothingToDrop(snaps, {id});
    }

    /** Deletes the surplus one by one, giving up at the first deletion that fails. */
    method PruneSnapshots(p: SnapshotPolicy, listed: seq<Snapshot>, deletions: nat)
      modifies this
      ensures snaps == DropEach(old(snaps), Deleted(p, listed, deletions))
      ensures UniqueIds(old(snaps)) ==> snaps == Without(old(snaps), IdsOf(Deleted(p, listed, deletions)))
    {
      var gone := PruneEtcdSnapshots(p, listed);
      for i := 0 to |gone|
        invariant i <= deletions
        invariant snaps == DropEach(old(snaps), gone[..i])
      {
        if i == deletions {
          break;
        }
        assert gone[..i + 1][..i] == gone[..i];
        Delete(gone[i].id);
      }
      assert gone[..|gone|] == gone;
      if UniqueIds(old(snaps)) {
        DropEachIsWithout(old(snaps), Deleted(p, listed, deletions));
      }
    }
  }

  function DropFirst(snaps: seq<Snapshot>, id: string): seq<Snapshot> {
    if snaps == [] then []
    else if snaps[0].id == id then snaps[1..]
    else [snaps[0]] + DropFirst(snaps[1..], id)
  }

  function DropEach(snaps: seq<Snapshot>, gone: seq<Snapshot>): seq<Snapshot> {
    if gone == [] then snaps else DropFirst(DropEach(snaps, gone[..|gone| - 1]), gone[|gone| - 1].id)
  }

  lemma {:induction false} DropFirstAt(snaps: seq<Snapshot>, i: nat)
    requires i < |snaps| && forall k | 0 <= k < i :: snaps[k].id != snaps[i].id
    ensures DropFirst(snaps, snaps[i].id) == snaps[..i] + snaps[i + 1..]
  {
    if i > 0 {
      var rest := snaps[1..];
      DropFirstAt(rest, i - 1);
      assert [snaps[0]] + (rest[..i - 1] + rest[i..]) == snaps[..i] + snaps[i + 1..];
    }
  }

  lemma {:induction false} DropFirstNone(snaps: seq<Snapshot>, id: string)
    requires forall k | 0 <= k < |snaps| :: snaps[k].id != id
    ensures DropFirst(snaps, id) == snaps
  {
    if snaps != [] {
      DropFirstNone(snaps[1..], id);
    }
  }

  lemma DropFirstIsWithout(snaps: seq<Snapshot>, id: string)
    requires UniqueIds(snaps)
    ensures DropFirst(snaps, id) == Without(snaps, {id})
  {
    if i: nat :| i < |snaps| && snaps[i].id == id && forall k | 0 <= k < i :: snaps[k].id != id {
      DropFirstAt(snaps, i);
      DropOne(snaps, i);
    } else {
      NoneWithId(snaps, id, |snaps|);
      DropFirstNone(snaps, id);
      NothingToDrop(snaps, {id});
    }
  }

  lemma {:induction false} NoneWithId(snaps: seq<Snapshot>, id: string, n: nat)
    requires n <= |snaps|
    requires !exists i: nat :: i < |snaps| && snaps[i].id == id && forall k | 0 <= k < i :: snaps[k].id != id
    ensures forall k | 0 <= k < n :: snaps[k].id != id
  {
    if n > 0 {
      NoneWithId(snaps, id, n - 1);
    }
  }

  /** With unique ids, deleting one after the other is deleting them all. */
  lemma {:induction false} DropEachIsWithout(snaps: seq<Snapshot>, gone: seq<Snapshot>)
    requires UniqueIds(snaps)
    ensures DropEach(snaps, gone) == Without(snaps, IdsOf(gone))
  {
    if gone == [] {
      NothingToDrop(snaps, {});
      assert IdsOf(gone) == {};
    } else {
      var n := |gone| - 1;
      DropEachIsWithout(snaps, gone[..n]);
      DropOneMore(snaps, IdsOf(gone[..n]), gone[n].id);
      IdsOneMore(gone, n);
      assert gone[..n + 1] == gone;
    }
  }

  lemma DropOneMore(snaps: seq<Snapshot>, ids: set<string>, id: string)
    requires UniqueIds(snaps)
    ensures DropFirst(Without(snaps, ids), id) == Without(snaps, ids + {id})
  {
    WithoutStaysUnique(snaps, ids);
    DropFirstIsWithout(Without(snaps, ids), id);
    WithoutTwice(snaps, ids, {id});
  }

  lemma {:induction false} NothingToDrop(snaps: seq<Snapshot>, ids: set<string>)
    requires forall s | s in snaps :: s.id !in ids
    ensures Without(snaps, ids) == snaps
  {
    if snaps != [] {
      var front := snaps[..|snaps| - 1];
      assert snaps == front + [snaps[|snaps| - 1]];
      NothingToDrop(front, ids);
    }
  }

  lemma {:induction false} WithoutTwice(snaps: seq<Snapshot>, a: set<string>, b: set<string>)
    ensures Without(Without(snaps, a), b) == Without(snaps, a + b)
  {
    if snaps != [] {
      var front, last := snaps[..|snaps| - 1], snaps[|snaps| - 1];
      WithoutTwice(front, a, b);
      var left := Without(front, a);
      assert (left + [last])[..|left|] == left && left + [] == left;
    }
  }

  lemma IdsOneMore(gone: seq<Snapshot>, i: nat)
    requires i < |gone|
    ensures IdsOf(gone[..i + 1]) == IdsOf(gone[..i]) + {gone[i].id}
  {
    assert gone[..i + 1] == gone[..i] + [gone[i]];
  }

  lemma WithoutStaysUnique(snaps: seq<Snapshot>, ids: set<string>)
    requires UniqueIds(snaps)
    ensures UniqueIds(Without(snaps, ids))
  {
    forall s
      ensures multiset(Without(snaps, ids))[s] <= multiset(snaps)[s]
    {
      WithoutCounts(snaps, ids, s);
    }
    UniqueIdsOfPart(snaps, Without(snaps, ids));
  }

  lemma {:induction false} DropAt(snaps: seq<Snapshot>, i: nat)
    requires i < |snaps| && forall j | 0 <= j < |snaps| && j != i :: snaps[j].id != snaps[i].id
    ensures Without(snaps, {snaps[i].id}) == snaps[..i] + snaps[i + 1..]
  {
    var n := |snaps| - 1;
    var front, last := snaps[..n], snaps[n];
    if i == n {
      NothingToDrop(front, {last.id});
      assert front + [] == snaps[..i] + snaps[i + 1..];
    } else {
      DropAt(front, i);
      assert front[..i] + front[i + 1..] + [last] == snaps[..i] + snaps[i + 1..];
    }
  }

  lemma OneIndexEach(snaps: seq<Snapshot>, i: nat, j: nat)
    requires UniqueIds(snaps) && i < j < |snaps|
    ensures snaps[i].id != snaps[j].id
  {
    var s := snaps[i];
    assert snaps == snaps[..j] + snaps[j..];
    assert multiset(snaps[..j] + snaps[j..])[s] == 1;
    assert s in snaps[..j];
    OnlyOnce(snaps[..j], snaps[j..], s);
    assert snaps[j] in snaps[j..];
  }

  lemma DropOne(snaps: seq<Snapshot>, i: nat)
    requires i < |snaps| && UniqueIds(snaps)
    ensures Without(snaps, {snaps[i].id}) == snaps[..i] + snaps[i + 1..]
  {
    forall j | 0 <= j < |snaps| && j != i
      ensures snaps[j].id != snaps[i].id
    {
      if i < j {
        OneIndexEach(snaps, i, j);
      } else {
        OneIndexEach(snaps, j, i);
      }
    }
    DropAt(snaps, i);
  }
}
