/** Group memberships have two writers: admins own a user's memberships of local groups, the
    directory owns the rest. Both rewrite the whole list, each trusted only for its own half
    (internal/app/app.go, internal/app/authn.go). */
module Memberships {
  import opened Wrappers
  import opened Lists
  import opened Sorting

  datatype Role = Read | Write | Other(text: string) {
    predicate Valid() {
      Read? || Write?
    }
  }

  datatype Membership = Membership(group: string, role: Role)

  datatype Claim = Claim(key: string, role: Role)

  /** The groups there are, whether the directory manages each, and which one a directory key
      names. */
  datatype Directory = Directory(managed: map<string, bool>, byKey: map<string, string>)

  /** Keys only name directory groups. */
  predicate GoodDirectory(d: Directory) {
    forall k | k in d.byKey :: d.byKey[k] in d.managed && d.managed[d.byKey[k]]
  }

  function GroupOf(): Membership -> string {
    (m: Membership) => m.group
  }

  function FromDirectory(d: Directory): Membership -> bool {
    (m: Membership) => m.group in d.managed && d.managed[m.group]
  }

  function FromAdmin(d: Directory): Membership -> bool {
    (m: Membership) => m.group in d.managed && !d.managed[m.group]
  }

  // ---------------------------------------------------------------- the merge

  function Merged(d: Directory, directorySide: seq<Membership>, localSide: seq<Membership>): seq<Membership> {
    SortBy(GroupOf(), Select(FromDirectory(d), directorySide) + Select(FromAdmin(d), localSide))
  }

  method MergeMemberships(d: Directory, directorySide: seq<Membership>, localSide: seq<Membership>) returns (out: seq<Membership>)
    ensures out == Merged(d, directorySide, localSide)
  {
    out := [];
    for i := 0 to |directorySide|
      invariant out == Select(FromDirectory(d), directorySide[..i])
    {
      assert directorySide[..i + 1][..i] == directorySide[..i];
      var m := directorySide[i];
      if m.group in d.managed && d.managed[m.group] {
        out := out + [m];
      }
    }
    assert directorySide[..|directorySide|] == directorySide;
    var fixed := out;
    for i := 0 to |localSide|
      invariant out == fixed + Select(FromAdmin(d), localSide[..i])
    {
      assert localSide[..i + 1][..i] == localSide[..i];
      var m := localSide[i];
      if m.group in d.managed && !d.managed[m.group] {
        out := out + [m];
      }
    }
    assert localSide[..|localSide|] == localSide;
    out := SortBy(GroupOf(), out);
  }

  // ---------------------------------------------------------------- what the directory claims

  /** The role each claimed group ends up with: the strongest claim wins. */
  function ClaimedRoles(d: Directory, claims: seq<Claim>): map<string, Role> {
    if claims == [] then map[]
    else
      var roles, c := ClaimedRoles(d, claims[..|claims| - 1]), claims[|claims| - 1];
      if c.key !in d.byKey then roles
      else
        var g := d.byKey[c.key];
        if g in roles && roles[g] == Write then roles else roles[g := c.role]
  }

  predicate Claims(d: Directory, claims: seq<Claim>, g: string, role: Role) {
    exists c | c in claims :: c.key in d.byKey && d.byKey[c.key] == g && c.role == role
  }

  /** A claimed role is write exactly when some claim says write, whatever the order; and every
      role comes from a claim. */
  lemma {:induction false} StrongestClaimWins(d: Directory, claims: seq<Claim>, g: string)
    ensures var roles := ClaimedRoles(d, claims);
            && (g in roles <==> exists c | c in claims :: c.key in d.byKey && d.byKey[c.key] == g)
            && (g in roles ==> Claims(d, claims, g, roles[g]))
            && (g in roles && roles[g] == Write <==> Claims(d, claims, g, Write))
  {
    if claims != [] {
      var front, c := claims[..|claims| - 1], claims[|claims| - 1];
      assert claims == front + [c];
      StrongestClaimWins(d, front, g);
      var roles := ClaimedRoles(d, front);
      if g in roles {
        var e :| e in front && e.key in d.byKey && d.byKey[e.key] == g && e.role == roles[g];
        assert e in claims;
      }
    }
  }

  /** The claimed groups in the order they are first claimed. */
  function ClaimedGroups(d: Directory, claims: seq<Claim>): seq<string> {
    if claims == [] then []
    else
      var groups, c := ClaimedGroups(d, claims[..|claims| - 1]), claims[|claims| - 1];
      if c.key !in d.byKey || d.byKey[c.key] in groups then groups else groups + [d.byKey[c.key]]
  }

  lemma {:induction false} ClaimedGroupsListRoles(d: Directory, claims: seq<Claim>)
    ensures forall g :: g in ClaimedGroups(d, claims) <==> g in ClaimedRoles(d, claims)
    ensures forall i, j | 0 <= i < j < |ClaimedGroups(d, claims)| :: ClaimedGroups(d, claims)[i] != ClaimedGroups(d, claims)[j]
  {
    if claims != [] {
      ClaimedGroupsListRoles(d, claims[..|claims| - 1]);
    }
  }

  function Listed(groups: seq<string>, roles: map<string, Role>): seq<Membership>
    requires forall g | g in groups :: g in roles
  {
    seq(|groups|, i requires 0 <= i < |groups| => assert groups[i] in groups; Membership(groups[i], roles[groups[i]]))
  }

  function Claimed(d: Directory, claims: seq<Claim>): seq<Membership> {
    ClaimedGroupsListRoles(d, claims);
    SortBy(GroupOf(), Listed(ClaimedGroups(d, claims), ClaimedRoles(d, claims)))
  }

  lemma ListedMembers(groups: seq<string>, roles: map<string, Role>)
    requires forall g | g in groups :: g in roles
    ensures forall m :: m in Listed(groups, roles) <==> m.group in groups && roles[m.group] == m.role
  {
    var out := Listed(groups, roles);
    forall m
      ensures m in out <==> m.group in groups && roles[m.group] == m.role
    {
      if m in out {
        var i :| 0 <= i < |out| && out[i] == m;
        assert groups[i] in groups;
      }
      if m.group in groups && roles[m.group] == m.role {
        var i :| 0 <= i < |groups| && groups[i] == m.group;
        assert out[i] == m;
      }
    }
  }

  /** Goes through the claims, then through the role map in whatever order it comes. */
  method ClaimedMemberships(d: Directory, claims: seq<Claim>) returns (out: seq<Membership>)
    ensures out == Claimed(d, claims)
  {
    var roles: map<string, Role> := map[];
    for i := 0 to |claims|
      invariant roles == ClaimedRoles(d, claims[..i])
    {
      assert claims[..i + 1][..i] == claims[..i];
      var c := claims[i];
      if c.key !in d.byKey {
        continue;
      }
      var g := d.byKey[c.key];
      if g in roles && roles[g] == Write {
        continue;
      }
      roles := roles[g := c.role];
    }
    assert claims[..|claims|] == claims;
    var items := ListRoles(roles);
    ClaimedGroupsListRoles(d, claims);
    ListingsAgree(ClaimedGroups(d, claims), roles, items);
    return SortBy(GroupOf(), items);
  }

  method ListRoles(roles: map<string, Role>) returns (out: seq<Membership>)
    ensures forall m :: m in out <==> m.group in roles && roles[m.group] == m.role
    ensures DistinctBy(GroupOf(), out)
  {
    out := [];
    var left := roles.Keys;
    while left != {}
      invariant left <= roles.Keys
      invariant forall m :: m in out <==> m.group in roles && m.group !in left && roles[m.group] == m.role
      invariant DistinctBy(GroupOf(), out)
      decreases |left|
    {
      var g :| g in left;
      assert forall i | 0 <= i < |out| :: out[i] in out;
      out := out + [Membership(g, roles[g])];
      left := left - {g};
    }
  }

  lemma ListedDistinct(groups: seq<string>, roles: map<string, Role>)
    requires forall g | g in groups :: g in roles
    requires forall i, j | 0 <= i < j < |groups| :: groups[i] != groups[j]
    ensures DistinctBy(GroupOf(), Listed(groups, roles))
  {
  }

  lemma ListingsAgree(groups: seq<string>, roles: map<string, Role>, items: seq<Membership>)
    requires forall g :: g in groups <==> g in roles
    requires forall i, j | 0 <= i < j < |groups| :: groups[i] != groups[j]
    requires DistinctBy(GroupOf(), items) && forall m :: m in items <==> m.group in roles && roles[m.group] == m.role
    ensures SortBy(GroupOf(), items) == SortBy(GroupOf(), Listed(groups, roles))
  {
    ListedMembers(groups, roles);
    ListedDistinct(groups, roles);
    DistinctByMembers(GroupOf(), items, Listed(groups, roles));
    SortIgnoresOrder(GroupOf(), items, Listed(groups, roles));
  }

  // ---------------------------------------------------------------- the two writers

  datatype MembershipError = MissingGroup | DuplicateGroup | BadRole | UnknownGroup

  /** The first complaint about an admin's list. */
  function CheckRequest(d: Directory, ms: seq<Membership>, seen: set<string>): Option<MembershipError> {
    if ms == [] then None
    else
      var m := ms[0];
      if m.group == "" then Some(MissingGroup)
      else if m.group in seen then Some(DuplicateGroup)
      else if !m.role.Valid() then Some(BadRole)
      else if m.group !in d.managed then Some(UnknownGroup)
      else CheckRequest(d, ms[1..], seen + {m.group})
  }

  predicate GoodRequest(d: Directory, ms: seq<Membership>) {
    && (forall i | 0 <= i < |ms| :: ms[i].group != "" && ms[i].role.Valid() && ms[i].group in d.managed)
    && DistinctBy(GroupOf(), ms)
  }

  lemma {:induction false} CheckRequestMeaning(d: Directory, ms: seq<Membership>, seen: set<string>)
    ensures CheckRequest(d, ms, seen).None? <==> GoodRequest(d, ms) && forall i | 0 <= i < |ms| :: ms[i].group !in seen
  {
    if ms != [] {
      var rest := ms[1..];
      CheckRequestMeaning(d, rest, seen + {ms[0].group});
      assert forall i | 0 <= i < |rest| :: rest[i] == ms[i + 1];
      assert forall i | 0 < i < |ms| :: ms[i] == rest[i - 1];
    }
  }

  datatype Event = AdminEdit(requested: seq<Membership>) | Login(claims: seq<Claim>)

  function After(d: Directory, ms: seq<Membership>, e: Event): seq<Membership> {
    match e
    case AdminEdit(requested) => if CheckRequest(d, requested, {}).Some? then ms else Merged(d, ms, requested)
    case Login(claims) => Merged(d, Claimed(d, claims), ms)
  }

  /** A directory account's memberships: provisioned by its first login, then whatever happens. */
  function Run(d: Directory, first: seq<Claim>, events: seq<Event>): seq<Membership> {
    if events == [] then Claimed(d, first)
    else After(d, Run(d, first, events[..|events| - 1]), events[|events| - 1])
  }

  class Account {
    var memberships: seq<Membership>

    constructor (d: Directory, first: seq<Claim>)
      ensures memberships == Claimed(d, first)
    {
      var claimed := ClaimedMemberships(d, first);
      memberships := claimed;
    }

    method UpdateMemberships(d: Directory, requested: seq<Membership>) returns (e: Option<MembershipError>)
      modifies this
      ensures e == CheckRequest(d, requested, {})
      ensures memberships == After(d, old(memberships), AdminEdit(requested))
    {
      var seen: set<string> := {};
      for i := 0 to |requested|
        invariant CheckRequest(d, requested, {}) == CheckRequest(d, requested[i..], seen)
        invariant memberships == old(memberships)
      {
        var m := requested[i];
        assert requested[i..][0] == m && requested[i..][1..] == requested[i + 1..];
        if m.group == "" {
          return Some(MissingGroup);
        }
        if m.group in seen {
          return Some(DuplicateGroup);
        }
        seen := seen + {m.group};
        if !m.role.Valid() {
          return Some(BadRole);
        }
        if m.group !in d.managed {
          return Some(UnknownGroup);
        }
      }
      assert requested[|requested|..] == [];
      memberships := MergeMemberships(d, memberships, requested);
      return None;
    }

    method SyncDirectory(d: Directory, claims: seq<Claim>)
      modifies this
      ensures memberships == After(d, old(memberships), Login(claims))
    {
      var claimed := ClaimedMemberships(d, claims);
      memberships := MergeMemberships(d, claimed, memberships);
    }
  }

  // ---------------------------------------------------------------- the halves

  /** Sorted by group, and no group twice. */
  predicate Tidy(ms: seq<Membership>) {
    SortedBy(GroupOf(), ms) && DistinctBy(GroupOf(), ms)
  }

  lemma ClaimedIsTidy(d: Directory, claims: seq<Claim>)
    requires GoodDirectory(d)
    ensures Tidy(Claimed(d, claims)) && Select(FromDirectory(d), Claimed(d, claims)) == Claimed(d, claims)
  {
    ClaimedGroupsListRoles(d, claims);
    var groups, roles := ClaimedGroups(d, claims), ClaimedRoles(d, claims);
    ListedDistinct(groups, roles);
    SortSorts(GroupOf(), Listed(groups, roles));
    SortDistinct(GroupOf(), Listed(groups, roles));
    forall i | 0 <= i < |Listed(groups, roles)|
      ensures FromDirectory(d)(Listed(groups, roles)[i])
    {
      assert groups[i] in groups;
      StrongestClaimWins(d, claims, groups[i]);
    }
    SelectAll(FromDirectory(d), Listed(groups, roles));
    SortSelects(GroupOf(), FromDirectory(d), Listed(groups, roles));
  }

  lemma {:induction false} SelectDistinct(f: Membership -> bool, ms: seq<Membership>)
    requires DistinctBy(GroupOf(), ms)
    ensures DistinctBy(GroupOf(), Select(f, ms))
  {
    if ms != [] {
      var front, m := ms[..|ms| - 1], ms[|ms| - 1];
      SelectDistinct(f, front);
      SelectMembers(f, front);
      var kept := Select(f, front);
      forall i | 0 <= i < |kept|
        ensures kept[i].group != m.group
      {
        var k :| 0 <= k < |front| && front[k] == kept[i];
        assert ms[k] == front[k] && GroupOf()(ms[k]) != GroupOf()(m);
      }
    }
  }

  /** What a merge sorts: its two halves. */
  function Halves(d: Directory, x: seq<Membership>, y: seq<Membership>): seq<Membership> {
    Select(FromDirectory(d), x) + Select(FromAdmin(d), y)
  }

  lemma HalvesDistinct(d: Directory, x: seq<Membership>, y: seq<Membership>)
    requires DistinctBy(GroupOf(), x) && DistinctBy(GroupOf(), y)
    ensures DistinctBy(GroupOf(), Halves(d, x, y))
  {
    SelectDistinct(FromDirectory(d), x);
    SelectDistinct(FromAdmin(d), y);
    SelectMembers(FromDirectory(d), x);
    SelectMembers(FromAdmin(d), y);
    var a, b := Select(FromDirectory(d), x), Select(FromAdmin(d), y);
    forall i, j | 0 <= i < j < |a + b|
      ensures GroupOf()((a + b)[i]) != GroupOf()((a + b)[j])
    {
      if i < |a| <= j {
        assert FromDirectory(d)(a[i]) && FromAdmin(d)(b[j - |a|]);
      }
    }
  }

  /** A merge takes each half from the side that owns it. */
  lemma MergeKeepsHalves(d: Directory, x: seq<Membership>, y: seq<Membership>)
    ensures Select(FromDirectory(d), Merged(d, x, y)) == SortBy(GroupOf(), Select(FromDirectory(d), x))
    ensures Select(FromAdmin(d), Merged(d, x, y)) == SortBy(GroupOf(), Select(FromAdmin(d), y))
  {
    var a, b := Select(FromDirectory(d), x), Select(FromAdmin(d), y);
    SelectMembers(FromDirectory(d), x);
    SelectMembers(FromAdmin(d), y);
    SortSelects(GroupOf(), FromDirectory(d), a + b);
    SortSelects(GroupOf(), FromAdmin(d), a + b);
    SelectAppend(FromDirectory(d), a, b);
    SelectAppend(FromAdmin(d), a, b);
    SelectAll(FromDirectory(d), a);
    SelectNone(FromDirectory(d), b);
    SelectNone(FromAdmin(d), a);
    SelectAll(FromAdmin(d), b);
    assert a + [] == a && [] + b == b;
  }

  lemma SortingAHalfFirst(x: seq<Membership>, y: seq<Membership>)
    requires DistinctBy(GroupOf(), x + y)
    ensures SortBy(GroupOf(), x + SortBy(GroupOf(), y)) == SortBy(GroupOf(), x + y)
    ensures SortBy(GroupOf(), SortBy(GroupOf(), x) + y) == SortBy(GroupOf(), x + y)
  {
    SortPermutes(GroupOf(), x);
    SortPermutes(GroupOf(), y);
    DistinctTellsApart(GroupOf(), x + y);
    SortIgnoresOrder(GroupOf(), x + y, x + SortBy(GroupOf(), y));
    SortIgnoresOrder(GroupOf(), x + y, SortBy(GroupOf(), x) + y);
  }

  /** An admin edit after a login keeps the login's half and takes the request's. */
  lemma EditAfterMerge(d: Directory, x: seq<Membership>, y: seq<Membership>, requested: seq<Membership>)
    requires DistinctBy(GroupOf(), x) && DistinctBy(GroupOf(), requested)
    ensures Merged(d, Merged(d, x, y), requested) == Merged(d, x, requested)
  {
    MergeKeepsHalves(d, x, y);
    HalvesDistinct(d, x, requested);
    SortingAHalfFirst(Select(FromDirectory(d), x), Select(FromAdmin(d), requested));
  }

  /** A login after an edit keeps the edit's half and takes the claims'. */
  lemma LoginAfterMerge(d: Directory, x: seq<Membership>, y: seq<Membership>, claimed: seq<Membership>)
    requires DistinctBy(GroupOf(), y) && DistinctBy(GroupOf(), claimed)
    ensures Merged(d, claimed, Merged(d, x, y)) == Merged(d, claimed, y)
  {
    MergeKeepsHalves(d, x, y);
    HalvesDistinct(d, claimed, y);
    SortingAHalfFirst(Select(FromDirectory(d), claimed), Select(FromAdmin(d), y));
  }

  /** From any state at all, an edit and a login can come in either order. */
  lemma EditAndLoginCommute(d: Directory, ms: seq<Membership>, requested: seq<Membership>, claims: seq<Claim>)
    requires GoodDirectory(d)
    ensures After(d, After(d, ms, AdminEdit(requested)), Login(claims))
         == After(d, After(d, ms, Login(claims)), AdminEdit(requested))
  {
    CheckRequestMeaning(d, requested, {});
    ClaimedIsTidy(d, claims);
    if GoodRequest(d, requested) {
      LoginAfterMerge(d, ms, requested, Claimed(d, claims));
      EditAfterMerge(d, Claimed(d, claims), ms, requested);
    }
  }

  // ---------------------------------------------------------------- any interleaving

  function LastClaims(first: seq<Claim>, events: seq<Event>): seq<Claim> {
    if events == [] then first
    else
      var e := events[|events| - 1];
      if e.Login? then e.claims else LastClaims(first, events[..|events| - 1])
  }

  /** The last request an admin made that was accepted; nothing before the first. */
  function LastRequest(d: Directory, events: seq<Event>): seq<Membership> {
    if events == [] then []
    else
      var e := events[|events| - 1];
      if e.AdminEdit? && CheckRequest(d, e.requested, {}).None? then e.requested
      else LastRequest(d, events[..|events| - 1])
  }

  lemma {:induction false} LastRequestIsGood(d: Directory, events: seq<Event>)
    ensures GoodRequest(d, LastRequest(d, events))
  {
    if events != [] {
      var e := events[|events| - 1];
      LastRequestIsGood(d, events[..|events| - 1]);
      if e.AdminEdit? {
        CheckRequestMeaning(d, e.requested, {});
      }
    }
  }

  /** However edits and logins interleave, the list is what the last login claimed and the last
      accepted edit asked for, and nothing else. */
  lemma {:induction false} OnlyTheLastWritersCount(d: Directory, first: seq<Claim>, events: seq<Event>)
    requires GoodDirectory(d)
    ensures Run(d, first, events) == Merged(d, Claimed(d, LastClaims(first, events)), LastRequest(d, events))
  {
    ClaimedIsTidy(d, LastClaims(first, events));
    if events == [] {
      var c := Claimed(d, first);
      assert Select(FromAdmin(d), []) == [];
      assert c + [] == c;
      SortedStays(GroupOf(), c);
    } else {
      var front, e := events[..|events| - 1], events[|events| - 1];
      OnlyTheLastWritersCount(d, first, front);
      LastRequestIsGood(d, front);
      ClaimedIsTidy(d, LastClaims(first, front));
      var x, y := Claimed(d, LastClaims(first, front)), LastRequest(d, front);
      match e {
        case AdminEdit(requested) =>
          CheckRequestMeaning(d, requested, {});
          if GoodRequest(d, requested) {
            EditAfterMerge(d, x, y, requested);
          }
        case Login(claims) =>
          LoginAfterMerge(d, x, y, Claimed(d, claims));
      }
    }
  }

  /** In every reachable state the list is sorted with no group twice, its directory half is
      exactly the last login's claims, and its local half exactly the last accepted request's. */
  lemma EachWriterOwnsItsHalf(d: Directory, first: seq<Claim>, events: seq<Event>)
    requires GoodDirectory(d)
    ensures var ms := Run(d, first, events);
            && Tidy(ms)
            && Select(FromDirectory(d), ms) == Claimed(d, LastClaims(first, events))
            && Select(FromAdmin(d), ms) == SortBy(GroupOf(), Select(FromAdmin(d), LastRequest(d, events)))
  {
    var x, y := Claimed(d, LastClaims(first, events)), LastRequest(d, events);
    OnlyTheLastWritersCount(d, first, events);
    ClaimedIsTidy(d, LastClaims(first, events));
    LastRequestIsGood(d, events);
    HalvesDistinct(d, x, y);
    SortSorts(GroupOf(), Halves(d, x, y));
    SortDistinct(GroupOf(), Halves(d, x, y));
    MergeKeepsHalves(d, x, y);
    SortedStays(GroupOf(), x);
  }
}
