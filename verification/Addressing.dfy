/** Addresses of clusters that share one operator-owned network: node addresses, the control-plane
    VIP and the load-balancer address (internal/app/providers.go). */
module Addressing {
  import opened Wrappers
  import opened Text
  import opened Nodes
  import opened Netpool

  type AddressBook = map<string, string>

  // ---------------------------------------------------------------- who holds what

  function OptionalAddress(ip: string): set<string> {
    if ip != "" then {ip} else {}
  }

  /** Every address a cluster has claimed. */
  function Addresses(c: Cluster): set<string> {
    c.staticIPs.Values + OptionalAddress(c.apiVIP) + OptionalAddress(c.loadBalancerIP)
  }

  function UsedBy(rows: seq<Cluster>): set<string> {
    if rows == [] then {}
    else
      var c := rows[|rows| - 1];
      UsedBy(rows[..|rows| - 1]) + (if c.deleted then {} else Addresses(c))
  }

  method CollectUsed(rows: seq<Cluster>) returns (used: set<string>)
    ensures used == UsedBy(rows)
  {
    used := {};
    for i := 0 to |rows|
      invariant used == UsedBy(rows[..i])
    {
      assert rows[..i + 1][..i] == rows[..i];
      var other := rows[i];
      if other.deleted {
        continue;
      }
      used := used + other.staticIPs.Values;
      if other.apiVIP != "" {
        used := used + {other.apiVIP};
      }
      if other.loadBalancerIP != "" {
        used := used + {other.loadBalancerIP};
      }
    }
    assert rows[..|rows|] == rows;
  }

  lemma {:induction false} UsedByMembers(rows: seq<Cluster>, c: Cluster)
    requires c in rows && !c.deleted
    ensures Addresses(c) <= UsedBy(rows)
  {
    var front := rows[..|rows| - 1];
    assert rows == front + [rows[|rows| - 1]];
    if c != rows[|rows| - 1] {
      UsedByMembers(front, c);
    }
  }

  // ---------------------------------------------------------------- handing out addresses

  function AssignAll(m: AddressBook, names: seq<string>, ips: seq<string>): AddressBook
    requires |names| == |ips|
    decreases |names|
  {
    if names == [] then m
    else
      var k := |names| - 1;
      AssignAll(m, names[..k], ips[..k])[names[k] := ips[k]]
  }

  ghost predicate Injective(m: AddressBook) {
    forall a, b | a in m && b in m && m[a] == m[b] :: a == b
  }

  /** Fresh addresses for fresh names: the book grows by exactly these and stays one-to-one. */
  lemma {:induction false} AssignAllMeaning(m: AddressBook, names: seq<string>, ips: seq<string>)
    requires |names| == |ips| && Distinct(names) && Distinct(ips) && Injective(m)
    requires forall n | n in names :: n !in m
    requires forall ip | ip in ips :: ip !in m.Values
    ensures var r := AssignAll(m, names, ips);
            Injective(r)
            && (forall n :: n in r <==> n in m || n in names)
            && (forall n | n in m :: r[n] == m[n])
            && (forall n | n in r :: r[n] in m.Values || r[n] in ips)
    decreases |names|
  {
    if names != [] {
      var k := |names| - 1;
      var ns, hs := names[..k], ips[..k];
      assert names == ns + [names[k]] && ips == hs + [ips[k]];
      assert forall n | n in ns :: n in names;
      assert forall ip | ip in hs :: ip in ips;
      AssignAllMeaning(m, ns, hs);
      assert names[k] !in ns && ips[k] !in hs;
    }
  }

  /** The names without an address yet, in order. */
  function Missing(names: seq<string>, m: AddressBook): seq<string> {
    if names == [] then []
    else
      var k := |names| - 1;
      Missing(names[..k], m) + (if names[k] !in m then [names[k]] else [])
  }

  lemma {:induction false} MissingMeaning(names: seq<string>, m: AddressBook)
    requires Distinct(names)
    ensures Distinct(Missing(names, m))
    ensures forall n :: n in Missing(names, m) <==> n in names && n !in m
  {
    if names != [] {
      var k := |names| - 1;
      var front := names[..k];
      assert names == front + [names[k]];
      MissingMeaning(front, m);
      assert names[k] !in front;
    }
  }

  function Kept(names: seq<string>, m: AddressBook): AddressBook {
    map n | n in names && n in m :: m[n]
  }

  // ---------------------------------------------------------------- admission on a shared network

  function ClaimStatic(c: Cluster, s: NetSettings, used: set<string>): Result<Cluster, NetError> {
    var names := NodeVMNames(c);
    var ips := Allocation(s, used, |names| + 1 + (if c.HA() then 1 else 0));
    if ips.Err? then Err(ips.error)
    else if |ips.value| < |names| + 1 + (if c.HA() then 1 else 0) then Err(RangeExhausted)
    else Ok(c.(ipMode := s.mode,
               staticIPs := AssignAll(map[], names, ips.value[..|names|]),
               loadBalancerIP := ips.value[|names|],
               apiVIP := if c.HA() then ips.value[|names| + 1] else c.apiVIP))
  }

  function ClaimDHCP(c: Cluster, s: NetSettings, vip: string, lb: string, used: set<string>): Result<Cluster, NetError> {
    if lb == "" then Err(LoadBalancerIPRequired)
    else if CheckHostIP(s, lb, used).Some? then Err(CheckHostIP(s, lb, used).value)
    else if !c.HA() then Ok(c.(ipMode := s.mode, loadBalancerIP := lb))
    else if vip == "" then Err(VIPRequired)
    else if CheckHostIP(s, vip, used + {lb}).Some? then Err(CheckHostIP(s, vip, used + {lb}).value)
    else Ok(c.(ipMode := s.mode, loadBalancerIP := lb, apiVIP := vip))
  }

  function ClaimAddresses(c: Cluster, s: NetSettings, vip: string, lb: string, others: seq<Cluster>): Result<Cluster, NetError> {
    if s.mode == "dhcp" then ClaimDHCP(c, s, Trim(vip), Trim(lb), UsedBy(others))
    else if s.mode == "static" then ClaimStatic(c, s, UsedBy(others))
    else Err(UnknownMode)
  }

  method AdmitSharedNetwork(c: Cluster, s: NetSettings, requestedVIP: string, requestedLB: string, others: seq<Cluster>)
    returns (r: Result<Cluster, NetError>)
    requires s.WellFormed()
    ensures r == ClaimAddresses(c, s, requestedVIP, requestedLB, others)
  {
    var used := CollectUsed(others);
    if s.mode == "dhcp" {
      var lb := Trim(requestedLB);
      if lb == "" {
        return Err(LoadBalancerIPRequired);
      }
      var e := CheckHostIP(s, lb, used);
      if e.Some? {
        return Err(e.value);
      }
      var out := c.(ipMode := s.mode, loadBalancerIP := lb);
      used := used + {lb};
      if c.HA() {
        var vip := Trim(requestedVIP);
        if vip == "" {
          return Err(VIPRequired);
        }
        e := CheckHostIP(s, vip, used);
        if e.Some? {
          return Err(e.value);
        }
        out := out.(apiVIP := vip);
      }
      return Ok(out);
    }
    if s.mode == "static" {
      r := AdmitStatic(c, s, used);
      return;
    }
    return Err(UnknownMode);
  }

  method AdmitStatic(c: Cluster, s: NetSettings, used: set<string>) returns (r: Result<Cluster, NetError>)
    requires s.WellFormed()
    ensures r == ClaimStatic(c, s, used)
  {
    var nodes := ListDesiredNodes(c);
    var names := NamesOf(nodes);
    var n := |names| + 1;
    if c.HA() {
      n := n + 1;
    }
    var ips := AllocateStatic(s, used, n);
    if ips.Err? {
      return Err(ips.error);
    }
    AllocationMeaning(s, used, n);
    var book := FillBook(map[], names, ips.value);
    var out := c.(ipMode := s.mode, staticIPs := book, loadBalancerIP := ips.value[|names|]);
    if c.HA() {
      out := out.(apiVIP := ips.value[|names| + 1]);
    }
    return Ok(out);
  }

  method FillBook(m: AddressBook, names: seq<string>, ips: seq<string>) returns (book: AddressBook)
    requires |names| <= |ips|
    ensures book == AssignAll(m, names, ips[..|names|])
  {
    book := m;
    for i := 0 to |names|
      invariant book == AssignAll(m, names[..i], ips[..i])
    {
      assert names[..i + 1][..i] == names[..i] && ips[..i + 1][..i] == ips[..i];
      book := book[names[i] := ips[i]];
    }
    assert names[..|names|] == names;
  }

  // ---------------------------------------------------------------- following a pool edit

  /** The addresses of a cluster that belong to no node. */
  function FixedAddresses(c: Cluster): set<string> {
    OptionalAddress(c.apiVIP) + OptionalAddress(c.loadBalancerIP)
  }

  /** The address book for a node set: survivors keep theirs, new names draw free ones. */
  function ScaledAddresses(names: seq<string>, book: AddressBook, s: NetSettings, reserved: set<string>): Result<AddressBook, NetError> {
    var kept := Kept(names, book);
    var missing := Missing(names, book);
    if missing == [] then Ok(kept)
    else
      var ips := Allocation(s, reserved + kept.Values, |missing|);
      if ips.Err? then Err(ips.error)
      else if |ips.value| != |missing| then Err(RangeExhausted)
      else Ok(AssignAll(kept, missing, ips.value))
  }

  method ScaleSharedStaticIPs(c: Cluster, s: NetSettings, others: seq<Cluster>) returns (r: Result<AddressBook, NetError>)
    requires s.WellFormed()
    ensures r == ScaledAddresses(NodeVMNames(c), c.staticIPs, s, UsedBy(others) + FixedAddresses(c))
  {
    var used := CollectUsed(others);
    used := used + FixedAddresses(c);
    var nodes := ListDesiredNodes(c);
    var desired := NamesOf(nodes);
    var next, missing, held := SortOutNames(desired, c.staticIPs);
    if |missing| > 0 {
      var ips := AllocateStatic(s, used + held, |missing|);
      if ips.Err? {
        return Err(ips.error);
      }
      AllocationMeaning(s, used + held, |missing|);
      assert ips.value[..|missing|] == ips.value;
      next := FillBook(next, missing, ips.value);
    }
    return Ok(next);
  }

  /** Splits the desired names into those that have an address and those that need one. */
  method SortOutNames(desired: seq<string>, book: AddressBook)
    returns (next: AddressBook, missing: seq<string>, held: set<string>)
    ensures next == Kept(desired, book) && missing == Missing(desired, book) && held == next.Values
  {
    next, missing, held := map[], [], {};
    for i := 0 to |desired|
      invariant next == Kept(desired[..i], book)
      invariant missing == Missing(desired[..i], book)
      invariant held == next.Values
    {
      assert desired[..i + 1][..i] == desired[..i];
      KeptOneMore(desired, i, book);
      if desired[i] in book {
        ValuesAfterUpdate(next, desired[i], book[desired[i]]);
        next := next[desired[i] := book[desired[i]]];
        held := held + {book[desired[i]]};
      } else {
        missing := missing + [desired[i]];
      }
    }
    assert desired[..|desired|] == desired;
  }

  lemma KeptOneMore(names: seq<string>, i: nat, m: AddressBook)
    requires i < |names|
    ensures Kept(names[..i + 1], m) == if names[i] in m then Kept(names[..i], m)[names[i] := m[names[i]]] else Kept(names[..i], m)
  {
    assert names[..i + 1] == names[..i] + [names[i]];
  }

  lemma ValuesAfterUpdate(m: AddressBook, k: string, v: string)
    requires k in m ==> m[k] == v
    ensures m[k := v].Values == m.Values + {v}
  {
    var r := m[k := v];
    forall x | x in m.Values + {v}
      ensures x in r.Values
    {
      if x == v {
        assert r[k] == v;
      } else {
        var n :| n in m && m[n] == x;
        assert r[n] == x;
      }
    }
  }

  // ---------------------------------------------------------------- the invariant

  /** All addresses of one cluster differ; with static addressing every desired node has one. */
  ghost predicate AddressInv(c: Cluster) {
    && c.loadBalancerIP != ""
    && (c.apiVIP != "" <==> c.HA())
    && c.apiVIP != c.loadBalancerIP
    && c.loadBalancerIP !in c.staticIPs.Values
    && c.apiVIP !in c.staticIPs.Values
    && "" !in c.staticIPs.Values
    && Injective(c.staticIPs)
    && (c.ipMode == "static" ==> c.staticIPs.Keys == NameSet(c))
    && (c.ipMode != "static" ==> c.staticIPs == map[])
  }

  lemma NamesAreDistinct(c: Cluster)
    requires ValidPools(c.name, c.nodePools)
    ensures Distinct(NodeVMNames(c))
    ensures forall n :: n in NodeVMNames(c) <==> n in NameSet(c)
  {
    DesiredNamesDistinct(c);
    var nodes, names := DesiredNodes(c), NodeVMNames(c);
    forall n | n in NameSet(c)
      ensures n in names
    {
      var d :| d in nodes && d.vmName == n;
      var i :| 0 <= i < |nodes| && nodes[i] == d;
      assert names[i] == n;
    }
    forall n | n in names
      ensures n in NameSet(c)
    {
      var i :| 0 <= i < |names| && names[i] == n;
      assert nodes[i] in nodes;
    }
  }

  lemma AssignedAddresses(c: Cluster, ips: seq<string>)
    requires ValidPools(c.name, c.nodePools) && |ips| == |NodeVMNames(c)| && Distinct(ips)
    ensures var book := AssignAll(map[], NodeVMNames(c), ips);
            book.Keys == NameSet(c) && Injective(book) && forall ip | ip in book.Values :: ip in ips
  {
    NamesAreDistinct(c);
    AssignAllMeaning(map[], NodeVMNames(c), ips);
  }

  /** Distinct addresses, the first |names| for the nodes, then the load balancer, then the VIP. */
  lemma SplitAllocation(ips: seq<string>, n: nat)
    requires Distinct(ips) && n < |ips|
    ensures Distinct(ips[..n]) && ips[n] !in ips[..n]
    ensures forall ip | ip in ips[..n] :: ip in ips
    ensures forall k | n < k < |ips| :: ips[k] !in ips[..n] && ips[k] != ips[n]
  {
  }

  /** What a newly admitted cluster claims is consistent in itself and held by no one else. */
  lemma StaticClaimIsFresh(c: Cluster, s: NetSettings, used: set<string>)
    requires ValidPools(c.name, c.nodePools) && s.WellFormed() && s.mode == "static"
    requires c.apiVIP == "" && ClaimStatic(c, s, used).Ok?
    ensures var e := ClaimStatic(c, s, used).value;
            AddressInv(e) && Addresses(e) !! used
  {
    var n := |NodeVMNames(c)|;
    var total := n + 1 + (if c.HA() then 1 else 0);
    AllocationMeaning(s, used, total);
    var ips := Allocation(s, used, total).value;
    SplitAllocation(ips, n);
    AssignedAddresses(c, ips[..n]);
    var e := ClaimStatic(c, s, used).value;
    ClaimedFresh(c, e, used, ips, n);
  }

  lemma ClaimedFresh(c: Cluster, e: Cluster, used: set<string>, ips: seq<string>, n: nat)
    requires c.apiVIP == "" && n + (if c.HA() then 1 else 0) < |ips|
    requires Distinct(ips) && forall ip | ip in ips :: ip !in used && ip != ""
    requires e == c.(ipMode := "static", staticIPs := e.staticIPs, loadBalancerIP := ips[n],
                     apiVIP := if c.HA() then ips[n + 1] else "")
    requires e.staticIPs.Keys == NameSet(c) && Injective(e.staticIPs)
    requires forall ip | ip in e.staticIPs.Values :: ip in ips[..n]
    ensures AddressInv(e) && Addresses(e) !! used
  {
    SplitAllocation(ips, n);
    assert ips[n] in ips;
    if c.HA() {
      assert ips[n + 1] in ips;
    }
    assert NameSet(e) == NameSet(c);
  }

  lemma DHCPClaimIsFresh(c: Cluster, s: NetSettings, vip: string, lb: string, used: set<string>)
    requires s.mode == "dhcp" && c.staticIPs == map[] && c.apiVIP == ""
    requires ClaimDHCP(c, s, vip, lb, used).Ok?
    ensures var e := ClaimDHCP(c, s, vip, lb, used).value;
            AddressInv(e) && Addresses(e) !! used
  {
  }

  /** A book for the new node set, drawn from what the cluster held and what nobody holds. */
  ghost predicate BookFits(c: Cluster, names: set<string>, used: set<string>, book: AddressBook) {
    && Injective(book) && book.Keys == names
    && forall v | v in book.Values :: v in c.staticIPs.Values || (v !in used && v !in FixedAddresses(c) && v != "")
  }

  lemma FittingBook(c: Cluster, e: Cluster, used: set<string>)
    requires AddressInv(c) && Addresses(c) !! used && c.ipMode == "static"
    requires BookFits(c, NameSet(e), used, e.staticIPs)
    requires e.apiVIP == c.apiVIP && e.loadBalancerIP == c.loadBalancerIP && e.ipMode == c.ipMode && (e.HA() <==> c.HA())
    ensures AddressInv(e) && Addresses(e) !! used
  {
  }

  /** An edit keeps the invariant, takes nothing another cluster holds, and moves no survivor. */
  lemma ScaleKeepsAddresses(c: Cluster, want: seq<NodePool>, s: NetSettings, used: set<string>, book: AddressBook)
    requires ValidPools(c.name, want) && s.WellFormed() && c.ipMode == "static"
    requires AddressInv(c) && Addresses(c) !! used
    requires ScaledAddresses(NodeVMNames(c.(nodePools := want)), c.staticIPs, s, used + FixedAddresses(c)) == Ok(book)
    ensures var e := c.(nodePools := want, staticIPs := book);
            AddressInv(e) && Addresses(e) !! used
            && forall n | n in c.staticIPs && n in NameSet(e) :: book[n] == c.staticIPs[n]
  {
    var d := c.(nodePools := want);
    NamesAreDistinct(d);
    ScaledBookFits(c, NodeVMNames(d), s, used, book);
    var e := d.(staticIPs := book);
    assert NameSet(e) == NameSet(d);
    FittingBook(c, e, used);
  }

  lemma ScaledBookFits(c: Cluster, names: seq<string>, s: NetSettings, used: set<string>, book: AddressBook)
    requires Distinct(names) && s.WellFormed() && Injective(c.staticIPs)
    requires ScaledAddresses(names, c.staticIPs, s, used + FixedAddresses(c)) == Ok(book)
    ensures BookFits(c, (set n | n in names), used, book)
    ensures forall n | n in c.staticIPs && n in names :: book[n] == c.staticIPs[n]
  {
    ScaledBook(c.staticIPs, names, s, used + FixedAddresses(c), book);
  }

  /** The new book in terms of the old one: same addresses for old names, free ones for new. */
  lemma ScaledBook(prior: AddressBook, names: seq<string>, s: NetSettings, base: set<string>, book: AddressBook)
    requires Distinct(names) && s.WellFormed() && Injective(prior)
    requires ScaledAddresses(names, prior, s, base) == Ok(book)
    ensures Injective(book) && (forall n :: n in book <==> n in names)
    ensures forall n | n in prior && n in names :: book[n] == prior[n]
    ensures forall v | v in book.Values :: v in prior.Values || (v !in base && v != "" && Canonical(v))
  {
    var kept, missing := Kept(names, prior), Missing(names, prior);
    MissingMeaning(names, prior);
    KeptIsPart(names, prior);
    if missing != [] {
      var used := base + kept.Values;
      AllocationMeaning(s, used, |missing|);
      AssignAllMeaning(kept, missing, Allocation(s, used, |missing|).value);
    }
    BookValues(book);
  }

  lemma BookValues(m: AddressBook)
    ensures forall v :: v in m.Values <==> exists n :: n in m && m[n] == v
  {
  }

  lemma KeptIsPart(names: seq<string>, m: AddressBook)
    requires Injective(m)
    ensures var kept := Kept(names, m);
            Injective(kept) && kept.Values <= m.Values && forall n :: n in kept <==> n in names && n in m
  {
    var kept := Kept(names, m);
    forall v | v in kept.Values
      ensures v in m.Values
    {
      var n :| n in kept && kept[n] == v;
      assert m[n] == v;
    }
  }
}
