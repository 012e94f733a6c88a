/**
  Device identities: a UUID printed from two 64-bit halves, the hyphen-free form of it that names the
  device in MQTT topics, and the way back.
 */
module DeviceIdentity {
  import opened Wrappers

  const TWO16 := 0x1_0000
  const TWO32 := 0x1_0000_0000
  const TWO48 := 0x1_0000_0000_0000
  const TWO64 := 0x1_0000_0000_0000_0000

  type Int64 = x: int | -TWO64 / 2 <= x < TWO64 / 2

  /** The conversion to an unsigned number wraps around. */
  function Unsigned(x: Int64): (u: nat)
    ensures u < TWO64 && u % TWO64 == x % TWO64
  {
    if x < 0 then x + TWO64 else x
  }

  // ---- hexadecimal ----

  const DIGITS := "0123456789abcdef"

  /** `%x`: as few digits as will do. */
  function Hex(n: nat): string { if n < 16 then [DIGITS[n]] else Hex(n / 16) + [DIGITS[n % 16]] }

  function Zeros(k: nat): string { seq(k, i => '0') }

  /** `%0wx`: padded with zeros to at least `w` digits. */
  function Padded(n: nat, w: nat): string { if |Hex(n)| < w then Zeros(w - |Hex(n)|) + Hex(n) else Hex(n) }

  function Pow16(w: nat): nat { if w == 0 then 1 else 16 * Pow16(w - 1) }

  function DigitValue(c: char): nat {
    if '0' <= c <= '9' then c as nat - '0' as nat else if 'a' <= c <= 'f' then c as nat - 'a' as nat + 10 else 0
  }

  function FromHex(s: string): nat { if s == "" then 0 else 16 * FromHex(s[..|s| - 1]) + DigitValue(s[|s| - 1]) }

  predicate IsLower(c: char) { '0' <= c <= '9' || 'a' <= c <= 'f' }

  predicate AllLower(s: string) { forall i | 0 <= i < |s| :: IsLower(s[i]) }

  lemma DigitsAre(n: nat)
    requires n < 16
    ensures IsLower(DIGITS[n]) && DigitValue(DIGITS[n]) == n
  {
  }

  /** Exactly `w` digits of a number, the last ones. */
  function Last(n: nat, w: nat): (s: string)
    ensures |s| == w
  {
    if w == 0 then "" else Last(n / 16, w - 1) + [DIGITS[n % 16]]
  }

  lemma {:induction false} LastOfSmall(n: nat, w: nat)
    requires n < 16 && w >= 1
    ensures Last(n, w) == Zeros(w - 1) + [DIGITS[n]]
  {
    if w > 1 {
      LastOfSmall(0, w - 1);
      assert Zeros(w - 2) + ['0'] == Zeros(w - 1);
    }
  }

  /** A number that fits is printed with exactly `w` digits. */
  lemma {:induction false} PaddedIsLast(n: nat, w: nat)
    requires n < Pow16(w) && w >= 1
    ensures |Hex(n)| <= w && Padded(n, w) == Last(n, w)
    decreases w
  {
    if n < 16 {
      LastOfSmall(n, w);
      assert w == 1 ==> Zeros(0) + [DIGITS[n]] == [DIGITS[n]];
    } else {
      assert w > 1 by {
        assert Pow16(1) == 16 * Pow16(0) == 16;
      }
      PaddedIsLast(n / 16, w - 1);
      if |Hex(n)| < w {
        assert Zeros(w - |Hex(n)|) + (Hex(n / 16) + [DIGITS[n % 16]]) == (Zeros(w - |Hex(n)|) + Hex(n / 16))
          + [DIGITS[n % 16]];
      }
    }
  }

  lemma {:induction false} LastReadsBack(n: nat, w: nat)
    requires n < Pow16(w)
    ensures FromHex(Last(n, w)) == n && AllLower(Last(n, w))
    decreases w
  {
    if w > 0 {
      LastReadsBack(n / 16, w - 1);
      DigitsAre(n % 16);
      assert Last(n, w)[..w - 1] == Last(n / 16, w - 1);
    }
  }

  lemma {:induction false} ReadWritesBack(s: string)
    requires AllLower(s)
    ensures FromHex(s) < Pow16(|s|) && Last(FromHex(s), |s|) == s
  {
    if s != "" {
      var init, d := s[..|s| - 1], DigitValue(s[|s| - 1]);
      ReadWritesBack(init);
      assert IsLower(s[|s| - 1]) && d < 16 && DIGITS[d] == s[|s| - 1];
      assert FromHex(s) / 16 == FromHex(init) && FromHex(s) % 16 == d;
      assert s == init + [s[|s| - 1]];
    }
  }

  lemma Powers()
    ensures Pow16(4) == TWO16 && Pow16(8) == TWO32 && Pow16(12) == TWO48
  {
    assert Pow16(1) == 16 && Pow16(2) == 256 && Pow16(3) == 4096 && Pow16(4) == 65536;
    assert Pow16(5) == 16 * 65536 && Pow16(6) == 256 * 65536 && Pow16(7) == 4096 * 65536 && Pow16(8) == 65536 * 65536;
    assert Pow16(9) == 16 * TWO32 && Pow16(10) == 256 * TWO32 && Pow16(11) == 4096 * TWO32
      && Pow16(12) == 65536 * TWO32;
  }

  // ---- the canonical form ----

  function Hyphenated(a: string, b: string, c: string, d: string, e: string): string {
    a + "-" + b + "-" + c + "-" + d + "-" + e
  }

  /** `toUUID`. */
  function ToUuid(msb: Int64, lsb: Int64): string {
    var m, l := Unsigned(msb), Unsigned(lsb);
    Hyphenated(Padded(m / TWO32, 8), Padded(m / TWO16 % TWO16, 4), Padded(m % TWO16, 4), Padded(l / TWO48, 4),
               Padded(l % TWO48, 12))
  }

  /** The five groups of a string laid out 8-4-4-4-12. */
  datatype Groups = Groups(a: string, b: string, c: string, d: string, e: string)

  predicate Sizes(g: Groups) { |g.a| == 8 && |g.b| == 4 && |g.c| == 4 && |g.d| == 4 && |g.e| == 12 }

  function GroupsOf(u: string): Groups
    requires |u| == 36
  {
    Groups(u[0..8], u[9..13], u[14..18], u[19..23], u[24..36])
  }

  predicate IsHex(c: char) { '0' <= c <= '9' || 'a' <= c <= 'f' || 'A' <= c <= 'F' }

  predicate AllHex(s: string) { forall i | 0 <= i < |s| :: IsHex(s[i]) }

  /** 8-4-4-4-12 hexadecimal digits, of either case. */
  predicate UuidShaped(u: string) {
    |u| == 36 && var g := GroupsOf(u);
    u == Hyphenated(g.a, g.b, g.c, g.d, g.e) && AllHex(g.a) && AllHex(g.b) && AllHex(g.c) && AllHex(g.d) && AllHex(g.e)
  }

  /** The canonical text of a UUID has lower-case digits only (section 4 of RFC 9562). */
  predicate Canonical(u: string) {
    |u| == 36 && var g := GroupsOf(u);
    u == Hyphenated(g.a, g.b, g.c, g.d, g.e) && AllLower(g.a) && AllLower(g.b) && AllLower(g.c) && AllLower(g.d)
      && AllLower(g.e)
  }

  lemma GroupsOfHyphenated(g: Groups)
    requires Sizes(g)
    ensures var u := Hyphenated(g.a, g.b, g.c, g.d, g.e); |u| == 36 && GroupsOf(u) == g
  {
    var u := Hyphenated(g.a, g.b, g.c, g.d, g.e);
    assert u[0..8] == g.a;
    assert u[9..13] == g.b;
    assert u[14..18] == g.c;
    assert u[19..23] == g.d;
    assert u[24..36] == g.e;
  }

  /** The halves that a canonical text was printed from. */
  function Msb(u: string): int
    requires |u| == 36
  {
    var g := GroupsOf(u);
    Signed((FromHex(g.a) * TWO16 + FromHex(g.b)) * TWO16 + FromHex(g.c))
  }

  function Lsb(u: string): int
    requires |u| == 36
  {
    var g := GroupsOf(u);
    Signed(FromHex(g.d) * TWO48 + FromHex(g.e))
  }

  function Signed(u: nat): int { if u < TWO64 / 2 then u else u - TWO64 }

  lemma Field(n: nat, w: nat)
    requires w >= 1 && n < Pow16(w)
    ensures |Padded(n, w)| == w && AllLower(Padded(n, w)) && FromHex(Padded(n, w)) == n
  {
    PaddedIsLast(n, w);
    LastReadsBack(n, w);
  }

  lemma Recombine(m: nat)
    requires m < TWO64
    ensures m / TWO32 < TWO32 && (m / TWO32 * TWO16 + m / TWO16 % TWO16) * TWO16 + m % TWO16 == m
    ensures m / TWO48 < TWO16 && m / TWO48 * TWO48 + m % TWO48 == m
  {
    assert m / TWO16 / TWO16 == m / TWO32;
  }

  /** What is printed has the canonical form, and the two halves can be read back from it. */
  lemma ToUuidIsCanonical(msb: Int64, lsb: Int64)
    ensures Canonical(ToUuid(msb, lsb)) && Msb(ToUuid(msb, lsb)) == msb && Lsb(ToUuid(msb, lsb)) == lsb
  {
    var m, l := Unsigned(msb), Unsigned(lsb);
    Recombine(m);
    Recombine(l);
    Powers();
    Field(m / TWO32, 8);
    Field(m / TWO16 % TWO16, 4);
    Field(m % TWO16, 4);
    Field(l / TWO48, 4);
    Field(l % TWO48, 12);
    GroupsOfHyphenated(Groups(Padded(m / TWO32, 8), Padded(m / TWO16 % TWO16, 4), Padded(m % TWO16, 4),
                              Padded(l / TWO48, 4), Padded(l % TWO48, 12)));
  }

  lemma JoinedMsb(a: nat, b: nat, c: nat)
    requires a < TWO32 && b < TWO16 && c < TWO16
    ensures var m := (a * TWO16 + b) * TWO16 + c;
      m < TWO64 && m / TWO32 == a && m / TWO16 % TWO16 == b && m % TWO16 == c
  {
    var m := (a * TWO16 + b) * TWO16 + c;
    assert m / TWO16 == a * TWO16 + b;
  }

  lemma JoinedLsb(d: nat, e: nat)
    requires d < TWO16 && e < TWO48
    ensures var l := d * TWO48 + e; l < TWO64 && l / TWO48 == d && l % TWO48 == e
  {
  }

  lemma UnsignedSigned(u: nat)
    requires u < TWO64
    ensures -TWO64 / 2 <= Signed(u) < TWO64 / 2 && Unsigned(Signed(u)) == u
  {
  }

  lemma ReadField(s: string)
    requires AllLower(s) && s != ""
    ensures FromHex(s) < Pow16(|s|) && Padded(FromHex(s), |s|) == s
  {
    ReadWritesBack(s);
    PaddedIsLast(FromHex(s), |s|);
  }

  lemma PrintedGroups(msb: Int64, lsb: Int64, g: Groups)
    requires Sizes(g) && AllLower(g.a) && AllLower(g.b) && AllLower(g.c) && AllLower(g.d) && AllLower(g.e)
    requires var m := Unsigned(msb);
      m / TWO32 == FromHex(g.a) && m / TWO16 % TWO16 == FromHex(g.b) && m % TWO16 == FromHex(g.c)
    requires var l := Unsigned(lsb); l / TWO48 == FromHex(g.d) && l % TWO48 == FromHex(g.e)
    ensures ToUuid(msb, lsb) == Hyphenated(g.a, g.b, g.c, g.d, g.e)
  {
    ReadField(g.a);
    ReadField(g.b);
    ReadField(g.c);
    ReadField(g.d);
    ReadField(g.e);
  }

  lemma HalvesOf(g: Groups)
    requires Sizes(g) && AllLower(g.a) && AllLower(g.b) && AllLower(g.c) && AllLower(g.d) && AllLower(g.e)
    ensures FromHex(g.a) < TWO32 && FromHex(g.b) < TWO16 && FromHex(g.c) < TWO16 && FromHex(g.d) < TWO16
      && FromHex(g.e) < TWO48
  {
    Powers();
    ReadField(g.a);
    ReadField(g.b);
    ReadField(g.c);
    ReadField(g.d);
    ReadField(g.e);
  }

  /** Every canonical text is printed from some two halves. */
  lemma ToUuidIsOnto(u: string)
    requires Canonical(u)
    ensures -TWO64 / 2 <= Msb(u) < TWO64 / 2 && -TWO64 / 2 <= Lsb(u) < TWO64 / 2
    ensures ToUuid(Msb(u), Lsb(u)) == u
  {
    var g := GroupsOf(u);
    HalvesOf(g);
    JoinedMsb(FromHex(g.a), FromHex(g.b), FromHex(g.c));
    JoinedLsb(FromHex(g.d), FromHex(g.e));
    UnsignedSigned((FromHex(g.a) * TWO16 + FromHex(g.b)) * TWO16 + FromHex(g.c));
    UnsignedSigned(FromHex(g.d) * TWO48 + FromHex(g.e));
    PrintedGroups(Msb(u), Lsb(u), g);
  }

  lemma ToUuidIsInjective(m1: Int64, l1: Int64, m2: Int64, l2: Int64)
    requires ToUuid(m1, l1) == ToUuid(m2, l2)
    ensures m1 == m2 && l1 == l2
  {
    ToUuidIsCanonical(m1, l1);
    ToUuidIsCanonical(m2, l2);
  }

  // ---- the topic-safe identity ----

  predicate IsSeparator(c: char) { c == '-' || c == '_' || c == ':' || c == '/' }

  function Strip(s: string): string {
    if s == "" then "" else (if IsSeparator(s[0]) then "" else [s[0]]) + Strip(s[1..])
  }

  predicate IsSpace(c: char) {
    '\U{9}' <= c <= '\U{d}' || c == ' ' || c == '\U{85}' || c == '\U{a0}' || c == '\U{1680}'
      || '\U{2000}' <= c <= '\U{200a}'
    || c == '\U{2028}' || c == '\U{2029}' || c == '\U{202f}' || c == '\U{205f}' || c == '\U{3000}'
  }

  function TrimSpace(s: string): string
    decreases |s|
  {
    if s == "" then ""
    else if IsSpace(s[0]) then TrimSpace(s[1..])
    else if IsSpace(s[|s| - 1]) then TrimSpace(s[..|s| - 1])
    else s
  }

  /** `topicSafeIdentity`. */
  function TopicSafeIdentity(deviceId: string): string { Strip(TrimSpace(deviceId)) }

  /** `rehyphenateUUID`. */
  function RehyphenateUuid(s: string): Option<string> {
    if |s| != 32 || !AllHex(s) then None
    else Some(Hyphenated(s[0..8], s[8..12], s[12..16], s[16..20], s[20..32]))
  }

  lemma {:induction false} StripKeepsHex(s: string, rest: string)
    requires AllHex(s)
    ensures Strip(s + rest) == s + Strip(rest)
  {
    if s == "" {
      assert s + rest == rest;
    } else {
      assert IsHex(s[0]) && AllHex(s[1..]) && (s + rest)[1..] == s[1..] + rest;
      StripKeepsHex(s[1..], rest);
      assert [s[0]] + (s[1..] + Strip(rest)) == s + Strip(rest);
    }
  }

  lemma StripHyphen(rest: string)
    ensures Strip("-" + rest) == Strip(rest)
  {
    assert ("-" + rest)[1..] == rest;
  }

  lemma StripGroup(s: string, rest: string)
    requires AllHex(s)
    ensures Strip(s + "-" + rest) == s + Strip(rest)
  {
    assert s + "-" + rest == s + ("-" + rest);
    StripKeepsHex(s, "-" + rest);
    StripHyphen(rest);
  }

  lemma StripGroups(g: Groups)
    requires AllHex(g.a) && AllHex(g.b) && AllHex(g.c) && AllHex(g.d) && AllHex(g.e)
    ensures Strip(Hyphenated(g.a, g.b, g.c, g.d, g.e)) == g.a + (g.b + (g.c + (g.d + g.e)))
  {
    var de := g.d + "-" + g.e;
    var cde := g.c + "-" + de;
    var bcde := g.b + "-" + cde;
    assert Hyphenated(g.a, g.b, g.c, g.d, g.e) == g.a + "-" + bcde;
    StripGroup(g.a, bcde);
    StripGroup(g.b, cde);
    StripGroup(g.c, de);
    StripGroup(g.d, g.e);
    StripKeepsHex(g.e, "");
    assert g.e + "" == g.e && g.e + Strip("") == g.e;
  }

  lemma ShapedRoundTrips(u: string)
    requires UuidShaped(u)
    ensures RehyphenateUuid(TopicSafeIdentity(u)) == Some(u)
  {
    var g := GroupsOf(u);
    assert TrimSpace(u) == u by {
      assert IsHex(g.a[0]) && IsHex(g.e[11]) && u[0] == g.a[0] && u[35] == g.e[11];
    }
    StripGroups(g);
    var s := g.a + (g.b + (g.c + (g.d + g.e)));
    assert s[0..8] == g.a && s[8..12] == g.b && s[12..16] == g.c && s[16..20] == g.d && s[20..32] == g.e;
    assert AllHex(s);
  }

  /** Stripping and putting the hyphens back gives the text itself exactly if it has the UUID layout. */
  lemma IdentityRoundTrip(u: string)
    ensures RehyphenateUuid(TopicSafeIdentity(u)) == Some(u) <==> UuidShaped(u)
  {
    if UuidShaped(u) {
      ShapedRoundTrips(u);
    }
    var s := TopicSafeIdentity(u);
    if RehyphenateUuid(s) == Some(u) {
      GroupsOfHyphenated(Groups(s[0..8], s[8..12], s[12..16], s[16..20], s[20..32]));
    }
  }

  lemma CanonicalIsUuidShaped(u: string)
    requires Canonical(u)
    ensures UuidShaped(u)
  {
  }

  /** Distinct devices have distinct identities. */
  lemma DistinctIdentities(m1: Int64, l1: Int64, m2: Int64, l2: Int64)
    ensures TopicSafeIdentity(ToUuid(m1, l1)) == TopicSafeIdentity(ToUuid(m2, l2)) <==> m1 == m2 && l1 == l2
  {
    ToUuidIsCanonical(m1, l1);
    ToUuidIsCanonical(m2, l2);
    CanonicalIsUuidShaped(ToUuid(m1, l1));
    CanonicalIsUuidShaped(ToUuid(m2, l2));
    IdentityRoundTrip(ToUuid(m1, l1));
    IdentityRoundTrip(ToUuid(m2, l2));
    if TopicSafeIdentity(ToUuid(m1, l1)) == TopicSafeIdentity(ToUuid(m2, l2)) {
      ToUuidIsInjective(m1, l1, m2, l2);
    }
  }
}
