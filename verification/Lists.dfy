/** Filtering a list, order kept. */
module Lists {
  function Select<T>(f: T -> bool, s: seq<T>): seq<T> {
    if s == [] then []
    else
      var x := s[|s| - 1];
      Select(f, s[..|s| - 1]) + (if f(x) then [x] else [])
  }

  lemma SelectSnoc<T>(f: T -> bool, s: seq<T>, x: T)
    ensures Select(f, s + [x]) == Select(f, s) + (if f(x) then [x] else [])
  {
    assert (s + [x])[..|s|] == s;
  }

  lemma {:induction false} SelectAppend<T>(f: T -> bool, s: seq<T>, t: seq<T>)
    ensures Select(f, s + t) == Select(f, s) + Select(f, t)
  {
    if t == [] {
      assert s + t == s;
    } else {
      var front, x := t[..|t| - 1], t[|t| - 1];
      SelectAppend(f, s, front);
      assert s + t == (s + front) + [x];
      SelectSnoc(f, s + front, x);
    }
  }

  lemma {:induction false} SelectAll<T>(f: T -> bool, s: seq<T>)
    requires forall i | 0 <= i < |s| :: f(s[i])
    ensures Select(f, s) == s
  {
    if s != [] {
      SelectAll(f, s[..|s| - 1]);
      assert s == s[..|s| - 1] + [s[|s| - 1]];
    }
  }

  lemma {:induction false} SelectNone<T>(f: T -> bool, s: seq<T>)
    requires forall i | 0 <= i < |s| :: !f(s[i])
    ensures Select(f, s) == []
  {
    if s != [] {
      SelectNone(f, s[..|s| - 1]);
    }
  }
}
