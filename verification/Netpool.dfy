/** Static-range address allocation on an operator-owned subnet (internal/netpool/static.go),
    with addresses as the text the platform stores. */
module Netpool {
  import opened Wrappers
  import opened Text

  const ADDRESS_SPACE: nat := 0x1_0000_0000

  // ---------------------------------------------------------------- spelling an address

  function OctetTexts(v: nat): seq<string> {
    [Itoa(v / 0x100_0000), Itoa(v / 0x1_0000 % 0x100), Itoa(v / 0x100 % 0x100), Itoa(v % 0x100)]
  }

  /** Dotted decimal, the only spelling the platform itself produces. */
  function Dotted(v: nat): string {
    Join(OctetTexts(v), '.')
  }

  predicate IsOctet(s: string) {
    IsCanonicalNumber(s) && Atoi(s) < 0x100
  }

  predicate FourOctets(parts: seq<string>) {
    |parts| == 4 && IsOctet(parts[0]) && IsOctet(parts[1]) && IsOctet(parts[2]) && IsOctet(parts[3])
  }

  function ValueOf(parts: seq<string>): nat
    requires FourOctets(parts)
  {
    ((Atoi(parts[0]) * 0x100 + Atoi(parts[1])) * 0x100 + Atoi(parts[2])) * 0x100 + Atoi(parts[3])
  }

  function ParseDotted(s: string): (v: Option<nat>)
    ensures v.Some? ==> v.value < ADDRESS_SPACE
  {
    var parts := Split(s, '.');
    if FourOctets(parts) then
      Octets(Atoi(parts[0]), Atoi(parts[1]), Atoi(parts[2]), Atoi(parts[3]));
      Some(ValueOf(parts))
    else None
  }

  lemma Octets(a: nat, b: nat, c: nat, d: nat)
    requires a < 0x100 && b < 0x100 && c < 0x100 && d < 0x100
    ensures var v := ((a * 0x100 + b) * 0x100 + c) * 0x100 + d;
            v < ADDRESS_SPACE && v / 0x100_0000 == a && v / 0x1_0000 % 0x100 == b
            && v / 0x100 % 0x100 == c && v % 0x100 == d
  {
  }

  lemma FromOctets(v: nat)
    requires v < ADDRESS_SPACE
    ensures v / 0x100_0000 < 0x100
    ensures ((v / 0x100_0000 * 0x100 + v / 0x1_0000 % 0x100) * 0x100 + v / 0x100 % 0x100) * 0x100 + v % 0x100 == v
  {
  }

  const MAPPED_PREFIX := "::ffff:"

  /** An IPv4 address as `net.ParseIP` reads it: dotted, or dotted behind the IPv6 mapping prefix. */
  function ParseIP(s: string): (v: Option<nat>)
    ensures v.Some? ==> v.value < ADDRESS_SPACE
  {
    if MAPPED_PREFIX <= s then ParseDotted(s[|MAPPED_PREFIX|..]) else ParseDotted(s)
  }

  lemma NoDotInNumber(n: nat)
    ensures '.' !in Itoa(n) && ':' !in Itoa(n)
  {
    var s := Itoa(n);
    assert forall i | 0 <= i < |s| :: IsDigit(s[i]);
  }

  lemma OctetTextsAreOctets(v: nat)
    requires v < ADDRESS_SPACE
    ensures var ts := OctetTexts(v);
            Without(ts, '.') && FourOctets(ts) && ValueOf(ts) == v
  {
    var a, b, c, d := v / 0x100_0000, v / 0x1_0000 % 0x100, v / 0x100 % 0x100, v % 0x100;
    FromOctets(v);
    AtoiItoa(a); AtoiItoa(b); AtoiItoa(c); AtoiItoa(d);
    NoDotInNumber(a); NoDotInNumber(b); NoDotInNumber(c); NoDotInNumber(d);
  }

  /** Reading back what was written. */
  lemma ParseDottedOfDotted(v: nat)
    requires v < ADDRESS_SPACE
    ensures ParseDotted(Dotted(v)) == Some(v) && Dotted(v) != ""
  {
    OctetTextsAreOctets(v);
    SplitJoin(OctetTexts(v), '.');
    assert Split("", '.') == [""];
  }

  lemma DottedInjective(v: nat, w: nat)
    requires v < ADDRESS_SPACE && w < ADDRESS_SPACE && Dotted(v) == Dotted(w)
    ensures v == w
  {
    ParseDottedOfDotted(v);
    ParseDottedOfDotted(w);
  }

  lemma OctetTextsFrom(a: nat, b: nat, c: nat, d: nat)
    requires a < 0x100 && b < 0x100 && c < 0x100 && d < 0x100
    ensures OctetTexts(((a * 0x100 + b) * 0x100 + c) * 0x100 + d) == [Itoa(a), Itoa(b), Itoa(c), Itoa(d)]
  {
    Octets(a, b, c, d);
  }

  /** A dotted spelling is unique: leading zeros are not accepted. */
  lemma DottedOfParseDotted(s: string)
    requires ParseDotted(s).Some?
    ensures Dotted(ParseDotted(s).value) == s
  {
    var p := Split(s, '.');
    OctetTextsFrom(Atoi(p[0]), Atoi(p[1]), Atoi(p[2]), Atoi(p[3]));
    ItoaAtoi(p[0]); ItoaAtoi(p[1]); ItoaAtoi(p[2]); ItoaAtoi(p[3]);
    assert OctetTexts(ValueOf(p)) == p;
    JoinSplit(s, '.');
  }

  /** Written the way the platform writes it. */
  predicate Canonical(s: string) {
    ParseIP(s).Some? && s == Dotted(ParseIP(s).value)
  }

  lemma DottedIsCanonical(v: nat)
    requires v < ADDRESS_SPACE
    ensures ParseIP(Dotted(v)) == Some(v) && Canonical(Dotted(v))
  {
    ParseDottedOfDotted(v);
    NoDotInNumber(v / 0x100_0000);
    var s := Dotted(v);
    assert s[0] == Itoa(v / 0x100_0000)[0];
    assert MAPPED_PREFIX[0] == ':';
  }

  /** The mapped spelling of an address reads as the same address, and is never canonical. */
  lemma MappedSpelling(v: nat)
    requires v < ADDRESS_SPACE
    ensures ParseIP(MAPPED_PREFIX + Dotted(v)) == Some(v) && !Canonical(MAPPED_PREFIX + Dotted(v))
  {
    ParseDottedOfDotted(v);
    var s := MAPPED_PREFIX + Dotted(v);
    assert s[|MAPPED_PREFIX|..] == Dotted(v);
    assert |s| == |Dotted(v)| + 7;
  }

  // ---------------------------------------------------------------- the shared subnet

  /** One operator-owned network: the subnet as its first address and size, the allocation range,
      and the gateway. */
  datatype NetSettings = NetSettings(mode: string, network: nat, size: nat, from: nat, to: nat, gateway: string) {
    predicate WellFormed() {
      network + size <= ADDRESS_SPACE && from <= to < ADDRESS_SPACE
    }

    /** In the subnet, and neither its network nor its broadcast address. */
    predicate Usable(v: nat) {
      network < v && v + 1 < network + size
    }
  }

  datatype NetError =
    | NotAnAddress | NotUsable | AlreadyInUse | RangeNotUsable | RangeExhausted
    | LoadBalancerIPRequired | VIPRequired | UnknownMode

  function CheckHostIP(s: NetSettings, ip: string, used: set<string>): Option<NetError> {
    var v := ParseIP(ip);
    if v.None? then Some(NotAnAddress)
    else if !s.Usable(v.value) || ip == s.gateway then Some(NotUsable)
    else if ip in used then Some(AlreadyInUse)
    else None
  }

  /** How addresses are written, seen from the scan: any one-to-one spelling will do. */
  type Spelling = nat -> string

  ghost predicate OneToOne(spell: Spelling) {
    forall v: nat, w: nat | v < ADDRESS_SPACE && w < ADDRESS_SPACE && spell(v) == spell(w) :: v == w
  }

  predicate Free(spell: Spelling, s: NetSettings, used: set<string>, v: nat) {
    spell(v) !in used && spell(v) != s.gateway
  }

  /** The lowest n free addresses from v up. */
  function FreeFrom(spell: Spelling, s: NetSettings, used: set<string>, v: nat, n: nat): seq<string>
    decreases s.to + 1 - v
  {
    if n == 0 || v > s.to then []
    else if Free(spell, s, used, v) then [spell(v)] + FreeFrom(spell, s, used, v + 1, n - 1)
    else FreeFrom(spell, s, used, v + 1, n)
  }

  function FreeCount(spell: Spelling, s: NetSettings, used: set<string>, v: nat): nat
    decreases s.to + 1 - v
  {
    if v > s.to then 0 else (if Free(spell, s, used, v) then 1 else 0) + FreeCount(spell, s, used, v + 1)
  }

  /** The scan of the range. The 32-bit counter cannot wrap: the range ends below the broadcast. */
  method ScanRange(spell: Spelling, s: NetSettings, used: set<string>, n: nat) returns (out: seq<string>)
    requires s.WellFormed() && s.Usable(s.to)
    ensures out == FreeFrom(spell, s, used, s.from, n)
  {
    out := [];
    var v := s.from;
    while v <= s.to && |out| < n
      invariant s.from <= v <= s.to + 1 < ADDRESS_SPACE
      invariant |out| <= n && out + FreeFrom(spell, s, used, v, n - |out|) == FreeFrom(spell, s, used, s.from, n)
    {
      var ip := spell(v);
      ghost var rest := FreeFrom(spell, s, used, v + 1, Max(0, n - |out| - 1));
      assert out + ([ip] + rest) == out + [ip] + rest;
      if ip !in used && ip != s.gateway {
        out := out + [ip];
      }
      v := v + 1;
    }
  }

  function Allocation(s: NetSettings, used: set<string>, n: nat): Result<seq<string>, NetError> {
    if !s.Usable(s.from) || !s.Usable(s.to) then Err(RangeNotUsable)
    else
      var ips := FreeFrom(Dotted, s, used, s.from, n);
      if |ips| < n then Err(RangeExhausted) else Ok(ips)
  }

  method AllocateStatic(s: NetSettings, used: set<string>, n: nat) returns (r: Result<seq<string>, NetError>)
    requires s.WellFormed()
    ensures r == Allocation(s, used, n)
  {
    if !s.Usable(s.from) || !s.Usable(s.to) {
      return Err(RangeNotUsable);
    }
    var out := ScanRange(Dotted, s, used, n);
    if |out| < n {
      return Err(RangeExhausted);
    }
    return Ok(out);
  }

  lemma {:induction false} FreeFromCount(spell: Spelling, s: NetSettings, used: set<string>, v: nat, n: nat)
    ensures |FreeFrom(spell, s, used, v, n)| == Min(n, FreeCount(spell, s, used, v))
    decreases s.to + 1 - v
  {
    if n > 0 && v <= s.to {
      FreeFromCount(spell, s, used, v + 1, if Free(spell, s, used, v) then n - 1 else n);
    }
  }

  predicate Distinct(ss: seq<string>) {
    forall i, j | 0 <= i < j < |ss| :: ss[i] != ss[j]
  }

  predicate AtOrAbove(spell: Spelling, s: NetSettings, ip: string, v: nat) {
    exists u: nat | v <= u <= s.to :: ip == spell(u)
  }

  lemma {:induction false} FreeFromMeaning(spell: Spelling, s: NetSettings, used: set<string>, v: nat, n: nat)
    requires s.WellFormed() && OneToOne(spell)
    ensures var ips := FreeFrom(spell, s, used, v, n);
            Distinct(ips) && forall ip | ip in ips :: ip !in used && ip != s.gateway && AtOrAbove(spell, s, ip, v)
    decreases s.to + 1 - v
  {
    if n > 0 && v <= s.to {
      var m := if Free(spell, s, used, v) then n - 1 else n;
      FreeFromMeaning(spell, s, used, v + 1, m);
      forall ip | ip in FreeFrom(spell, s, used, v + 1, m)
        ensures AtOrAbove(spell, s, ip, v) && ip != spell(v)
      {
        var u: nat :| v + 1 <= u <= s.to && ip == spell(u);
      }
      assert AtOrAbove(spell, s, spell(v), v);
    }
  }

  lemma DottedIsOneToOne()
    ensures OneToOne(Dotted)
  {
    forall v: nat, w: nat | v < ADDRESS_SPACE && w < ADDRESS_SPACE && Dotted(v) == Dotted(w)
      ensures v == w
    {
      DottedInjective(v, w);
    }
  }

  lemma SpelledIsCanonical(s: NetSettings, ip: string)
    requires s.WellFormed() && AtOrAbove(Dotted, s, ip, s.from)
    ensures Canonical(ip) && ip != ""
  {
    var u: nat :| s.from <= u <= s.to && ip == Dotted(u);
    DottedIsCanonical(u);
    ParseDottedOfDotted(u);
  }

  /** What callers rely on: n different free addresses of the range, or not enough are free. */
  lemma AllocationMeaning(s: NetSettings, used: set<string>, n: nat)
    requires s.WellFormed()
    ensures Allocation(s, used, n).Ok? ==>
      var ips := Allocation(s, used, n).value;
      |ips| == n && Distinct(ips)
      && forall ip | ip in ips :: ip !in used && ip != s.gateway && ip != "" && Canonical(ip)
    ensures Allocation(s, used, n) == Err(RangeExhausted)
       <==> s.Usable(s.from) && s.Usable(s.to) && FreeCount(Dotted, s, used, s.from) < n
  {
    DottedIsOneToOne();
    FreeFromMeaning(Dotted, s, used, s.from, n);
    FreeFromCount(Dotted, s, used, s.from, n);
    if Allocation(s, used, n).Ok? {
      forall ip | ip in Allocation(s, used, n).value
        ensures Canonical(ip) && ip != ""
      {
        SpelledIsCanonical(s, ip);
      }
    }
  }

  /** A requested address is told apart from the used ones by its text. With every used address
      in canonical form, acceptance means the ADDRESS is new, whatever is in use, exactly when the
      request is itself canonical. */
  lemma FreshAddressIffCanonical(s: NetSettings, ip: string)
    requires CheckHostIP(s, ip, {}).None?
    ensures (forall used: set<string> | (forall u | u in used :: Canonical(u)) && CheckHostIP(s, ip, used).None? ::
               forall u | u in used :: ParseIP(u) != ParseIP(ip))
       <==> Canonical(ip)
  {
    if !Canonical(ip) {
      var alias := Dotted(ParseIP(ip).value);
      DottedIsCanonical(ParseIP(ip).value);
      assert CheckHostIP(s, ip, {alias}).None?;
      assert alias in {alias};
    }
  }
}
