/** Strings as the platform uses them: decimal rendering, unambiguous concatenation, and the
    byte-wise order that `sort.Strings` applies. */
module Text {

  // ---------------------------------------------------------------- decimal numbers

  predicate IsDigit(c: char) {
    '0' <= c <= '9'
  }

  predicate AllDigits(s: string) {
    forall i | 0 <= i < |s| :: IsDigit(s[i])
  }

  function DigitChar(d: nat): char
    requires d < 10
  {
    (('0' as int) + d) as char
  }

  function DigitValue(c: char): nat
    requires IsDigit(c)
  {
    (c as int) - ('0' as int)
  }

  /** The decimal rendering of a natural number, as `%d` prints it. */
  function Itoa(n: nat): (s: string)
    ensures |s| > 0 && AllDigits(s)
  {
    if n < 10 then [DigitChar(n)] else Itoa(n / 10) + [DigitChar(n % 10)]
  }

  /** The number a run of digits denotes. */
  function Atoi(s: string): nat
    requires AllDigits(s)
  {
    if s == "" then 0 else Atoi(s[..|s| - 1]) * 10 + DigitValue(s[|s| - 1])
  }

  /** No leading zero: the only way Itoa ever spells a number. */
  predicate IsCanonicalNumber(s: string) {
    |s| > 0 && AllDigits(s) && (|s| == 1 || s[0] != '0')
  }

  lemma {:induction false} AtoiItoa(n: nat)
    ensures Atoi(Itoa(n)) == n && IsCanonicalNumber(Itoa(n))
    ensures n > 0 ==> Itoa(n)[0] != '0'
  {
    if n >= 10 {
      AtoiItoa(n / 10);
      var s := Itoa(n);
      assert s[..|s| - 1] == Itoa(n / 10);
    }
  }

  lemma {:induction false} ItoaAtoi(s: string)
    requires IsCanonicalNumber(s)
    ensures Itoa(Atoi(s)) == s
    ensures s[0] != '0' ==> Atoi(s) > 0
  {
    if |s| > 1 {
      var front := s[..|s| - 1];
      ItoaAtoi(front);
      assert s == front + [s[|s| - 1]];
    } else {
      assert s[..0] == "";
    }
  }

  lemma ItoaInjective(m: nat, n: nat)
    requires Itoa(m) == Itoa(n)
    ensures m == n
  {
    AtoiItoa(m);
    AtoiItoa(n);
  }

  lemma ItoaShort(n: nat)
    requires n <= 999
    ensures |Itoa(n)| <= 3
  {
    assert n >= 10 ==> |Itoa(n)| == |Itoa(n / 10)| + 1;
    assert n >= 100 ==> |Itoa(n / 10)| == |Itoa(n / 10 / 10)| + 1;
  }

  // ---------------------------------------------------------------- separators

  /** The text around the first separator determines both halves. */
  lemma {:induction false} FirstSeparator(sep: char, a: string, x: string, b: string, y: string)
    requires a + [sep] + x == b + [sep] + y
    requires sep !in a && sep !in b
    ensures a == b && x == y
  {
    var s, t := a + [sep] + x, b + [sep] + y;
    assert s[|a|] == sep && t[|b|] == sep;
    assert forall k | 0 <= k < |a| :: s[k] == a[k];
    assert forall k | 0 <= k < |b| :: t[k] == b[k];
    assert |a| == |b|;
    assert s[..|a|] == a && t[..|b|] == b;
    assert s[|a| + 1..] == x && t[|b| + 1..] == y;
  }

  /** The text around the last separator determines both halves. */
  lemma {:induction false} LastSeparator(sep: char, a: string, x: string, b: string, y: string)
    requires a + [sep] + x == b + [sep] + y
    requires sep !in x && sep !in y
    ensures a == b && x == y
  {
    var s, t := a + [sep] + x, b + [sep] + y;
    assert s[|a|] == sep && t[|b|] == sep;
    assert forall k | |a| < k < |s| :: s[k] == x[k - |a| - 1];
    assert forall k | |b| < k < |t| :: t[k] == y[k - |b| - 1];
    assert |a| == |b|;
    assert s[..|a|] == a && t[..|b|] == b;
    assert s[|a| + 1..] == x && t[|b| + 1..] == y;
  }

  lemma SamePrefix(p: string, x: string, y: string)
    requires p + x == p + y
    ensures x == y
  {
    assert (p + x)[|p|..] == x && (p + y)[|p|..] == y;
  }

  // ---------------------------------------------------------------- splitting

  function IndexOf(s: string, c: char): (i: nat)
    requires c in s
    ensures i < |s| && s[i] == c && c !in s[..i]
  {
    if s[0] == c then 0 else
      var i := IndexOf(s[1..], c);
      assert s[..i + 1] == [s[0]] + s[1..][..i];
      i + 1
  }

  /** The pieces between separators; a string without one is its own single piece. */
  function Split(s: string, sep: char): (parts: seq<string>)
    ensures |parts| > 0
    decreases |s|
  {
    if sep in s then [s[..IndexOf(s, sep)]] + Split(s[IndexOf(s, sep) + 1..], sep) else [s]
  }

  lemma SplitAt(sep: char, a: string, rest: string)
    requires sep !in a
    ensures Split(a + [sep] + rest, sep) == [a] + Split(rest, sep)
  {
    var s := a + [sep] + rest;
    assert s[|a|] == sep;
    var i := IndexOf(s, sep);
    assert s == s[..i] + [sep] + s[i + 1..];
    FirstSeparator(sep, a, rest, s[..i], s[i + 1..]);
  }

  function Join(parts: seq<string>, sep: char): string {
    if parts == [] then ""
    else if |parts| == 1 then parts[0]
    else parts[0] + [sep] + Join(parts[1..], sep)
  }

  predicate Without(parts: seq<string>, c: char) {
    forall s | s in parts :: c !in s
  }

  lemma {:induction false} SplitJoin(parts: seq<string>, sep: char)
    requires parts != [] && Without(parts, sep)
    ensures Split(Join(parts, sep), sep) == parts
  {
    assert parts[0] in parts;
    if |parts| > 1 {
      assert forall s | s in parts[1..] :: s in parts;
      SplitJoin(parts[1..], sep);
      SplitAt(sep, parts[0], Join(parts[1..], sep));
    }
  }

  lemma {:induction false} JoinSplit(s: string, sep: char)
    ensures Join(Split(s, sep), sep) == s && Without(Split(s, sep), sep)
    decreases |s|
  {
    if sep in s {
      var i := IndexOf(s, sep);
      JoinSplit(s[i + 1..], sep);
      assert s == s[..i] + [sep] + s[i + 1..];
      assert Split(s, sep)[1..] == Split(s[i + 1..], sep);
    }
  }

  // ---------------------------------------------------------------- trimming

  /** White space as Unicode has it. */
  predicate IsSpace(c: char) {
    var u := c as int;
    9 <= u <= 13 || u == 0x20 || u == 0x85 || u == 0xA0 || u == 0x1680 || 0x2000 <= u <= 0x200A
    || u == 0x2028 || u == 0x2029 || u == 0x202F || u == 0x205F || u == 0x3000
  }

  function TrimLeft(s: string): string {
    if s != "" && IsSpace(s[0]) then TrimLeft(s[1..]) else s
  }

  function TrimRight(s: string): string {
    if s != "" && IsSpace(s[|s| - 1]) then TrimRight(s[..|s| - 1]) else s
  }

  function Trim(s: string): string {
    TrimRight(TrimLeft(s))
  }

  // ---------------------------------------------------------------- order

  /** Byte-wise order of two strings (UTF-8 keeps code-point order). */
  predicate Leq(a: string, b: string) {
    a == "" || (b != "" && (a[0] < b[0] || (a[0] == b[0] && Leq(a[1..], b[1..]))))
  }

  lemma {:induction false} LeqTotal(a: string, b: string)
    ensures Leq(a, b) || Leq(b, a)
  {
    if a != "" && b != "" && a[0] == b[0] {
      LeqTotal(a[1..], b[1..]);
    }
  }

  lemma {:induction false} LeqReflexive(a: string)
    ensures Leq(a, a)
  {
    if a != "" {
      LeqReflexive(a[1..]);
    }
  }

  lemma {:induction false} LeqAntisymmetric(a: string, b: string)
    requires Leq(a, b) && Leq(b, a)
    ensures a == b
  {
    if a != "" && b != "" {
      LeqAntisymmetric(a[1..], b[1..]);
      assert a == [a[0]] + a[1..] && b == [b[0]] + b[1..];
    }
  }

  lemma {:induction false} LeqTransitive(a: string, b: string, c: string)
    requires Leq(a, b) && Leq(b, c)
    ensures Leq(a, c)
  {
    if a != "" && a[0] == b[0] && b[0] == c[0] {
      LeqTransitive(a[1..], b[1..], c[1..]);
    }
  }
}
