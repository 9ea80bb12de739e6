/** Sorting by a text key, for the places that sort before comparing or storing a list. */
module Sorting {
  import opened Text
  import opened Lists

  /** Puts x into a sorted list, behind equal keys. */
  function InsertBy<T>(key: T -> string, sorted: seq<T>, x: T): seq<T> {
    if sorted == [] then [x]
    else
      var last := sorted[|sorted| - 1];
      if Leq(key(last), key(x)) then sorted + [x] else InsertBy(key, sorted[..|sorted| - 1], x) + [last]
  }

  function SortBy<T>(key: T -> string, s: seq<T>): seq<T> {
    if s == [] then [] else InsertBy(key, SortBy(key, s[..|s| - 1]), s[|s| - 1])
  }

  predicate SortedBy<T>(key: T -> string, s: seq<T>) {
    forall i, j | 0 <= i < j < |s| :: Leq(key(s[i]), key(s[j]))
  }

  lemma {:induction false} InsertPermutes<T>(key: T -> string, sorted: seq<T>, x: T)
    ensures multiset(InsertBy(key, sorted, x)) == multiset(sorted) + multiset{x}
  {
    if sorted != [] && !Leq(key(sorted[|sorted| - 1]), key(x)) {
      var front, last := sorted[..|sorted| - 1], sorted[|sorted| - 1];
      InsertPermutes(key, front, x);
      assert sorted == front + [last];
    }
  }

  lemma InsertMembers<T>(key: T -> string, sorted: seq<T>, x: T)
    ensures forall i | 0 <= i < |InsertBy(key, sorted, x)| ::
              InsertBy(key, sorted, x)[i] == x || InsertBy(key, sorted, x)[i] in sorted
  {
    InsertPermutes(key, sorted, x);
    var placed := InsertBy(key, sorted, x);
    forall i | 0 <= i < |placed|
      ensures placed[i] == x || placed[i] in sorted
    {
      assert placed[i] in multiset(placed);
    }
  }

  lemma {:induction false} InsertSorts<T>(key: T -> string, sorted: seq<T>, x: T)
    requires SortedBy(key, sorted)
    ensures SortedBy(key, InsertBy(key, sorted, x))
  {
    if sorted != [] {
      var front, last := sorted[..|sorted| - 1], sorted[|sorted| - 1];
      if Leq(key(last), key(x)) {
        forall i | 0 <= i < |sorted|
          ensures Leq(key(sorted[i]), key(x))
        {
          if i < |sorted| - 1 {
            LeqTransitive(key(sorted[i]), key(last), key(x));
          }
        }
      } else {
        LeqTotal(key(last), key(x));
        InsertSorts(key, front, x);
        InsertMembers(key, front, x);
        var placed := InsertBy(key, front, x);
        forall i | 0 <= i < |placed|
          ensures Leq(key(placed[i]), key(last))
        {
          if placed[i] != x {
            var k :| 0 <= k < |front| && front[k] == placed[i];
            assert sorted[k] == front[k];
          }
        }
      }
    }
  }

  lemma {:induction false} SortPermutes<T>(key: T -> string, s: seq<T>)
    ensures multiset(SortBy(key, s)) == multiset(s)
  {
    if s != [] {
      var front, last := s[..|s| - 1], s[|s| - 1];
      SortPermutes(key, front);
      InsertPermutes(key, SortBy(key, front), last);
      assert multiset(s) == multiset(front) + multiset{last} by {
        assert s == front + [last];
      }
    }
  }

  lemma {:induction false} SortSorts<T>(key: T -> string, s: seq<T>)
    ensures SortedBy(key, SortBy(key, s))
  {
    if s != [] {
      SortSorts(key, s[..|s| - 1]);
      InsertSorts(key, SortBy(key, s[..|s| - 1]), s[|s| - 1]);
    }
  }

  ghost predicate KeyTellsApart<T>(key: T -> string, s: seq<T>) {
    forall x, y | x in s && y in s && key(x) == key(y) :: x == y
  }

  lemma SnocMultiset<T>(s: seq<T>)
    requires s != []
    ensures multiset(s) == multiset(s[..|s| - 1]) + multiset{s[|s| - 1]}
  {
    assert s == s[..|s| - 1] + [s[|s| - 1]];
  }

  lemma SameLast<T>(key: T -> string, a: seq<T>, b: seq<T>)
    requires a != [] && b != [] && SortedBy(key, a) && SortedBy(key, b) && KeyTellsApart(key, a)
    requires forall x :: x in a <==> x in b
    ensures a[|a| - 1] == b[|b| - 1]
  {
    var x, y := a[|a| - 1], b[|b| - 1];
    assert x in a && y in b;
    var i :| 0 <= i < |a| && a[i] == y;
    var j :| 0 <= j < |b| && b[j] == x;
    LeqReflexive(key(x));
    LeqReflexive(key(y));
    LeqAntisymmetric(key(x), key(y));
  }

  lemma SameElements<T>(a: seq<T>, b: seq<T>)
    requires multiset(a) == multiset(b)
    ensures |a| == |b| && forall x :: x in a <==> x in b
  {
    assert |multiset(a)| == |a| && |multiset(b)| == |b|;
    assert forall x :: x in a <==> x in multiset(a);
    assert forall x :: x in b <==> x in multiset(b);
  }

  lemma FrontsMatch<T>(a: seq<T>, b: seq<T>)
    requires multiset(a) == multiset(b) && |a| == |b| > 0 && a[|a| - 1] == b[|b| - 1]
    ensures multiset(a[..|a| - 1]) == multiset(b[..|b| - 1])
  {
    SnocMultiset(a);
    SnocMultiset(b);
    assert multiset(a[..|a| - 1]) == multiset(a) - multiset{a[|a| - 1]};
    assert multiset(b[..|b| - 1]) == multiset(b) - multiset{b[|b| - 1]};
  }

  /** Only one sorted list has these elements. */
  lemma {:induction false} SortedIsUnique<T>(key: T -> string, a: seq<T>, b: seq<T>)
    requires multiset(a) == multiset(b) && SortedBy(key, a) && SortedBy(key, b) && KeyTellsApart(key, a)
    ensures a == b
  {
    SameElements(a, b);
    if a != [] {
      SameLast(key, a, b);
      var n := |a| - 1;
      FrontsMatch(a, b);
      SortedIsUnique(key, a[..n], b[..n]);
      assert a == a[..n] + [a[n]] && b == b[..n] + [b[n]];
    }
  }

  /** The sorted list depends on what is in the list, not on its order. */
  lemma SortIgnoresOrder<T>(key: T -> string, a: seq<T>, b: seq<T>)
    requires multiset(a) == multiset(b) && KeyTellsApart(key, a)
    ensures SortBy(key, a) == SortBy(key, b)
  {
    SortPermutes(key, a);
    SortPermutes(key, b);
    SortSorts(key, a);
    SortSorts(key, b);
    var s := SortBy(key, a);
    assert forall x :: x in s <==> x in multiset(s);
    assert forall x :: x in a <==> x in multiset(a);
    SortedIsUnique(key, s, SortBy(key, b));
  }

  // ---------------------------------------------------------------- lists with no key twice

  predicate DistinctBy<T>(key: T -> string, s: seq<T>) {
    forall i, j | 0 <= i < j < |s| :: key(s[i]) != key(s[j])
  }

  lemma {:induction false} DistinctCounts<T>(key: T -> string, s: seq<T>, x: T)
    requires DistinctBy(key, s)
    ensures multiset(s)[x] == if x in s then 1 else 0
  {
    if s != [] {
      var front, last := s[..|s| - 1], s[|s| - 1];
      DistinctCounts(key, front, x);
      assert s == front + [last];
      assert last !in front;
    }
  }

  lemma DistinctByMembers<T>(key: T -> string, a: seq<T>, b: seq<T>)
    requires DistinctBy(key, a) && DistinctBy(key, b) && forall x :: x in a <==> x in b
    ensures multiset(a) == multiset(b) && KeyTellsApart(key, a)
  {
    forall x
      ensures multiset(a)[x] == multiset(b)[x]
    {
      DistinctCounts(key, a, x);
      DistinctCounts(key, b, x);
    }
  }

  lemma DistinctTellsApart<T>(key: T -> string, s: seq<T>)
    requires DistinctBy(key, s)
    ensures KeyTellsApart(key, s)
  {
  }

  lemma {:induction false} InsertDistinct<T>(key: T -> string, sorted: seq<T>, x: T)
    requires DistinctBy(key, sorted) && forall i | 0 <= i < |sorted| :: key(sorted[i]) != key(x)
    ensures DistinctBy(key, InsertBy(key, sorted, x))
  {
    if sorted != [] && !Leq(key(sorted[|sorted| - 1]), key(x)) {
      var front := sorted[..|sorted| - 1];
      InsertDistinct(key, front, x);
      InsertMembers(key, front, x);
    }
  }

  lemma {:induction false} SortDistinct<T>(key: T -> string, s: seq<T>)
    requires DistinctBy(key, s)
    ensures DistinctBy(key, SortBy(key, s))
  {
    if s != [] {
      var front, last := s[..|s| - 1], s[|s| - 1];
      SortDistinct(key, front);
      SortPermutes(key, front);
      var sorted := SortBy(key, front);
      forall i | 0 <= i < |sorted|
        ensures key(sorted[i]) != key(last)
      {
        assert sorted[i] in multiset(sorted);
        var k :| 0 <= k < |front| && front[k] == sorted[i];
        assert s[k] == front[k];
      }
      InsertDistinct(key, sorted, last);
    }
  }

  /** A sorted list is left alone. */
  lemma {:induction false} SortedStays<T>(key: T -> string, s: seq<T>)
    requires SortedBy(key, s)
    ensures SortBy(key, s) == s
  {
    if s != [] {
      var front, last := s[..|s| - 1], s[|s| - 1];
      SortedStays(key, front);
      assert s == front + [last];
      assert front != [] ==> Leq(key(front[|front| - 1]), key(last));
    }
  }

  // ---------------------------------------------------------------- sorting and filtering

  lemma {:induction false} SelectMembers<T>(f: T -> bool, s: seq<T>)
    ensures forall i | 0 <= i < |Select(f, s)| :: Select(f, s)[i] in s && f(Select(f, s)[i])
  {
    if s != [] {
      var front := s[..|s| - 1];
      SelectMembers(f, front);
      assert s == front + [s[|s| - 1]];
    }
  }

  lemma AllBefore<T>(key: T -> string, s: seq<T>, x: T)
    requires forall i | 0 <= i < |s| :: Leq(key(s[i]), key(x))
    ensures InsertBy(key, s, x) == s + [x]
  {
  }

  /** Sorting a selection is selecting from the sorted list. */
  lemma {:induction false} InsertSelects<T>(key: T -> string, f: T -> bool, sorted: seq<T>, x: T)
    requires SortedBy(key, sorted)
    ensures Select(f, InsertBy(key, sorted, x))
         == if f(x) then InsertBy(key, Select(f, sorted), x) else Select(f, sorted)
  {
    if sorted == [] {
      SelectSnoc(f, [], x);
    } else {
      var front, last := sorted[..|sorted| - 1], sorted[|sorted| - 1];
      if Leq(key(last), key(x)) {
        SelectSnoc(f, sorted, x);
        SelectedBefore(key, f, sorted, x);
        AllBefore(key, Select(f, sorted), x);
      } else {
        InsertSelects(key, f, front, x);
        SelectSnoc(f, InsertBy(key, front, x), last);
        var kept := Select(f, front);
        assert (kept + [last])[..|kept|] == kept && kept + [] == kept;
      }
    }
  }

  lemma SelectedBefore<T>(key: T -> string, f: T -> bool, sorted: seq<T>, x: T)
    requires SortedBy(key, sorted) && sorted != [] && Leq(key(sorted[|sorted| - 1]), key(x))
    ensures forall i | 0 <= i < |Select(f, sorted)| :: Leq(key(Select(f, sorted)[i]), key(x))
  {
    SelectMembers(f, sorted);
    forall i | 0 <= i < |Select(f, sorted)|
      ensures Leq(key(Select(f, sorted)[i]), key(x))
    {
      var y := Select(f, sorted)[i];
      var k :| 0 <= k < |sorted| && sorted[k] == y;
      if k < |sorted| - 1 {
        LeqTransitive(key(y), key(sorted[|sorted| - 1]), key(x));
      }
    }
  }

  lemma {:induction false} SortSelects<T>(key: T -> string, f: T -> bool, s: seq<T>)
    ensures Select(f, SortBy(key, s)) == SortBy(key, Select(f, s))
  {
    if s != [] {
      var front, last := s[..|s| - 1], s[|s| - 1];
      SortSelects(key, f, front);
      SortSorts(key, front);
      InsertSelects(key, f, SortBy(key, front), last);
      var kept := Select(f, front);
      assert (kept + [last])[..|kept|] == kept && kept + [] == kept;
    }
  }
}
