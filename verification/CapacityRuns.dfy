/** What the machines of a backend may add up to. Admission stops counting a cluster when its deletion
    begins, not when its machines are gone. */
module CapacityRuns {
  import opened Text
  import opened Nodes
  import opened Quota
  import opened Admission
  import opened Orders

  /** What the clusters of a backend occupy until they are deleted, counted or not. */
  function Occupied(rows: seq<Cluster>, p: string, d: Dimension): int {
    if rows == [] then 0
    else
      var c := rows[|rows| - 1];
      Occupied(rows[..|rows| - 1], p, d) + (if c.InfraProvider() == p && !c.deleted then ClusterUsage(c).Of(d) else 0)
  }

  /** In every run the machines that may exist fit the backend. */
  ghost predicate AlwaysFits(cfg: Config, p: string, d: Dimension) {
    p in cfg.ceilings ==> forall steps :: Occupied(Run(cfg, steps), p, d) <= cfg.ceilings[p].Of(d)
  }

  lemma {:induction false} NothingOccupied(rows: seq<Cluster>, p: string, d: Dimension)
    requires forall c | c in rows :: c.InfraProvider() != p
    ensures Occupied(rows, p, d) == 0
  {
    if rows != [] {
      assert rows == rows[..|rows| - 1] + [rows[|rows| - 1]];
      NothingOccupied(rows[..|rows| - 1], p, d);
    }
  }

  // ---------------------------------------------------------------- clusters ordered and deleted

  /** The i-th of a series: each for a tenant of its own. */
  function Nth(i: nat): Order {
    SmallOrder(Itoa(i), Itoa(i), "")
  }

  /** n clusters, each deleted as soon as it was created. */
  function Churn(cfg: Config, p: string, n: nat): seq<Step> {
    if n == 0 then [] else Churn(cfg, p, n - 1) + OrderAndLeave(cfg, p, Nth(n - 1))
  }

  function Remains(cfg: Config, p: string, n: nat): (rows: seq<Cluster>)
    ensures |rows| == n
  {
    seq(n, i requires 0 <= i < n => Leaving(Placed(cfg, p, Nth(i))))
  }

  lemma RemainsAreNew(cfg: Config, p: string, n: nat)
    ensures OwnedBy(Remains(cfg, p, n), Itoa(n)) == [] && !HasId(Remains(cfg, p, n), Itoa(n))
    ensures forall c | c in Remains(cfg, p, n) :: !Counted(c)
  {
    var rows := Remains(cfg, p, n);
    forall c | c in rows
      ensures c.id != Itoa(n) && c.owner != Itoa(n) && !Counted(c)
    {
      var i :| 0 <= i < |rows| && rows[i] == c;
      if Itoa(i) == Itoa(n) {
        ItoaInjective(i, n);
      }
    }
    NoneOwned(rows, Itoa(n));
  }

  lemma {:induction false} NoneOwned(rows: seq<Cluster>, owner: string)
    requires forall c | c in rows :: c.owner != owner
    ensures OwnedBy(rows, owner) == []
  {
    if rows != [] {
      assert rows == rows[..|rows| - 1] + [rows[|rows| - 1]];
      NoneOwned(rows[..|rows| - 1], owner);
    }
  }

  lemma NextIsWelcome(cfg: Config, p: string, n: nat)
    requires cfg.price == ClusterUsage && Open(cfg, p) && p !in cfg.sharedNet
    ensures Welcome(cfg, Remains(cfg, p, n), p, Nth(n))
  {
    RemainsAreNew(cfg, p, n);
    SmallOrderIsWelcome(cfg, Remains(cfg, p, n), p, Itoa(n), Itoa(n), "");
  }

  lemma RemainsGrow(cfg: Config, p: string, n: nat)
    ensures Remains(cfg, p, n + 1) == Remains(cfg, p, n) + [Leaving(Placed(cfg, p, Nth(n)))]
  {
  }

  lemma ChurnOnce(cfg: Config, p: string, n: nat, steps: seq<Step>, rows: seq<Cluster>)
    requires Run(cfg, steps) == rows && Welcome(cfg, rows, p, Nth(n))
    ensures Run(cfg, steps + OrderAndLeave(cfg, p, Nth(n))) == rows + [Leaving(Placed(cfg, p, Nth(n)))]
  {
    OrderAndLeaveRun(cfg, steps, p, Nth(n));
  }

  /** Any number of clusters can be on their way out at once. */
  lemma {:induction false} ChurnLeaves(cfg: Config, p: string, n: nat)
    requires cfg.price == ClusterUsage && Open(cfg, p) && p !in cfg.sharedNet
    ensures Run(cfg, Churn(cfg, p, n)) == Remains(cfg, p, n)
  {
    if n > 0 {
      ChurnLeaves(cfg, p, n - 1);
      NextIsWelcome(cfg, p, n - 1);
      ChurnOnce(cfg, p, n - 1, Churn(cfg, p, n - 1), Remains(cfg, p, n - 1));
      RemainsGrow(cfg, p, n - 1);
    }
  }

  lemma OccupiedSnoc(rows: seq<Cluster>, c: Cluster, p: string, d: Dimension, x: int)
    requires c.InfraProvider() == p && !c.deleted && ClusterUsage(c).Of(d) == x
    ensures Occupied(rows + [c], p, d) == Occupied(rows, p, d) + x
  {
    assert (rows + [c])[..|rows|] == rows;
  }

  lemma EachOccupies(cfg: Config, p: string, i: nat)
    requires Offers(cfg, p)
    ensures var c := Leaving(Placed(cfg, p, Nth(i)));
            c.InfraProvider() == p && !c.deleted && ClusterUsage(c) == Least()
  {
    SmallOrderCosts(cfg, p, Itoa(i), Itoa(i), "");
    OrderedIsBlank(cfg, p, Nth(i), Least());
  }

  lemma {:induction false} RemainsOccupy(cfg: Config, p: string, n: nat, d: Dimension)
    requires Offers(cfg, p)
    ensures Occupied(Remains(cfg, p, n), p, d) == n * Least().Of(d)
  {
    if n > 0 {
      RemainsOccupy(cfg, p, n - 1, d);
      RemainsGrow(cfg, p, n - 1);
      EachOccupies(cfg, p, n - 1);
      OccupiedSnoc(Remains(cfg, p, n - 1), Leaving(Placed(cfg, p, Nth(n - 1))), p, d, Least().Of(d));
      OneMoreTime(n, Least().Of(d));
    }
  }

  lemma OneMoreTime(n: nat, x: int)
    requires n > 0
    ensures (n - 1) * x + x == n * x
  {
  }

  /** Past any ceiling, in any dimension. */
  lemma ChurnOverflows(cfg: Config, p: string, d: Dimension)
    requires GoodConfig(cfg) && cfg.price == ClusterUsage && Open(cfg, p) && p !in cfg.sharedNet && p in cfg.ceilings
    ensures !AlwaysFits(cfg, p, d)
  {
    var top := cfg.ceilings[p].Of(d);
    ChurnLeaves(cfg, p, top + 1);
    RemainsOccupy(cfg, p, top + 1, d);
    Outgrows(top, Least().Of(d));
  }

  lemma Outgrows(top: nat, x: int)
    requires x >= 1
    ensures (top + 1) * x > top
  {
  }

  /** On a backend with a network of its own per cluster, what may exist stays within the ceiling in
      every run exactly when the backend cannot carry even one cluster. */
  lemma FitsExactlyWhen(cfg: Config, p: string, d: Dimension)
    requires GoodConfig(cfg) && cfg.price == ClusterUsage && p !in cfg.sharedNet && p in cfg.ceilings
    ensures AlwaysFits(cfg, p, d) <==> !Open(cfg, p)
  {
    if Open(cfg, p) {
      ChurnOverflows(cfg, p, d);
    } else {
      forall steps
        ensures Occupied(Run(cfg, steps), p, d) <= cfg.ceilings[p].Of(d)
      {
        NeverUsed(cfg, steps, p);
        NothingOccupied(Run(cfg, steps), p, d);
      }
    }
  }
}
