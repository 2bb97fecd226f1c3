/** The text form of a UUID (section 4 of RFC 9562): the printer and the parser of the
    trust store, the recogniser of the identity file and the random generator. */
module UuidCodec {
  import opened Bytes

  const UUID_SIZE := 36
  const HYPHEN: byte := 45

  // ---- Single characters ----

  predicate IsHex(c: byte) {
    48 <= c <= 57 || 97 <= c <= 102 || 65 <= c <= 70
  }

  function HexValue(c: byte): (v: int)
    requires IsHex(c)
    ensures 0 <= v < 16
  {
    if c <= 57 then c - 48 else if c >= 97 then c - 87 else c - 55
  }

  function HexDigit(n: int): (c: byte)
    requires 0 <= n < 16
    ensures IsHex(c) && HexValue(c) == n && Lower(c) == c
  {
    if n < 10 then 48 + n else 87 + n
  }

  function Lower(c: byte): (l: byte) {
    if 65 <= c <= 90 then c + 32 else c
  }

  function LowerCase(s: Text): (l: Text)
    ensures |l| == |s|
  {
    seq(|s|, i requires 0 <= i < |s| => Lower(s[i]))
  }

  // ---- Layout: which character belongs to which byte ----

  predicate IsHyphenPosition(p: int) {
    p == 8 || p == 13 || p == 18 || p == 23
  }

  /** Hyphens that precede character `p`. */
  function HyphensBefore(p: int): int {
    (if p > 8 then 1 else 0) + (if p > 13 then 1 else 0) + (if p > 18 then 1 else 0) + (if p > 23 then 1 else 0)
  }

  predicate StartsGroup(i: int) {
    i == 4 || i == 6 || i == 8 || i == 10
  }

  /** Characters written before byte `i` and the hyphen that may precede it. */
  function Emitted(i: int): int {
    2 * i + (if i > 4 then 1 else 0) + (if i > 6 then 1 else 0) + (if i > 8 then 1 else 0) + (if i > 10 then 1 else 0)
  }

  /** Position of the first of the two digits of byte `i`. */
  function DigitPosition(i: int): (p: int)
    requires 0 <= i < 16
    ensures 0 <= p < 35 && !IsHyphenPosition(p) && !IsHyphenPosition(p + 1)
    ensures p - HyphensBefore(p) == 2 * i && p + 1 - HyphensBefore(p + 1) == 2 * i + 1
  {
    Emitted(i) + if StartsGroup(i) then 1 else 0
  }

  function Nibble(u: Uuid, q: int): (n: int)
    requires 0 <= q < 32
    ensures 0 <= n < 16
  {
    if q % 2 == 0 then u[q / 2] / 16 else u[q / 2] % 16
  }

  // ---- Specification of both directions ----

  function TextAt(u: Uuid, p: int): (c: byte)
    requires 0 <= p < UUID_SIZE
  {
    if IsHyphenPosition(p) then HYPHEN else HexDigit(Nibble(u, p - HyphensBefore(p)))
  }

  function ToText(u: Uuid): (s: Text)
    ensures |s| == UUID_SIZE
  {
    seq(UUID_SIZE, p requires 0 <= p < UUID_SIZE => TextAt(u, p))
  }

  predicate IsUuidText(s: Text) {
    |s| == UUID_SIZE &&
    forall p :: 0 <= p < UUID_SIZE ==> if IsHyphenPosition(p) then s[p] == HYPHEN else IsHex(s[p])
  }

  function ByteAt(s: Text, i: int): (b: byte)
    requires IsUuidText(s) && 0 <= i < 16
  {
    16 * HexValue(s[DigitPosition(i)]) + HexValue(s[DigitPosition(i) + 1])
  }

  function FromText(s: Text): (u: Uuid)
    requires IsUuidText(s)
  {
    seq(16, i requires 0 <= i < 16 => ByteAt(s, i))
  }

  predicate IsCanonical(s: Text) {
    IsUuidText(s) && LowerCase(s) == s
  }

  // ---- The source's loops ----

  method TrustUuidToString(value: Uuid) returns (result: Text)
    ensures result == ToText(value)
  {
    result := [];
    for i := 0 to 16
      invariant result == ToText(value)[..Emitted(i)]
    {
      if StartsGroup(i) { result := result + [HYPHEN]; }
      assert DigitPosition(i) == |result|;
      result := result + [HexDigit(value[i] / 16)];
      result := result + [HexDigit(value[i] % 16)];
    }
  }

  method TrustUuidFromString(value: Text) returns (result: Option<Uuid>)
    ensures result.Some? <==> IsUuidText(value)
    ensures result.Some? ==> result.value == FromText(value)
  {
    if |value| != UUID_SIZE { return None; }
    var bytes: seq<byte> := [];
    var input := 0;
    for i := 0 to 16
      invariant input == Emitted(i) && |bytes| == i
      invariant forall p :: 0 <= p < input ==> if IsHyphenPosition(p) then value[p] == HYPHEN else IsHex(value[p])
      invariant forall j :: 0 <= j < i ==> IsHex(value[DigitPosition(j)]) && IsHex(value[DigitPosition(j) + 1]) &&
                                                bytes[j] == 16 * HexValue(value[DigitPosition(j)]) + HexValue(value[DigitPosition(j) + 1])
    {
      if StartsGroup(i) {
        if value[input] != HYPHEN { return None; }
        input := input + 1;
      }
      assert DigitPosition(i) == input;
      if !IsHex(value[input]) || !IsHex(value[input + 1]) { return None; }
      bytes := bytes + [16 * HexValue(value[input]) + HexValue(value[input + 1])];
      input := input + 2;
    }
    result := Some(bytes);
    assert bytes == FromText(value);
  }

  method IsValidUuid(value: Text) returns (valid: bool)
    ensures valid <==> IsUuidText(value)
  {
    if |value| != UUID_SIZE { return false; }
    for i := 0 to |value|
      invariant forall p :: 0 <= p < i ==> if IsHyphenPosition(p) then value[p] == HYPHEN else IsHex(value[p])
    {
      if IsHyphenPosition(i) {
        if value[i] != HYPHEN { return false; }
      } else if !IsHex(value[i]) {
        return false;
      }
    }
    valid := true;
  }

  /** `random` stands for the sixteen bytes drawn from the random source. */
  function GeneratedUuid(random: Uuid): (u: Uuid)
    ensures u[6] / 16 == 4 && 8 <= u[8] / 16 < 12
    ensures forall i :: 0 <= i < 16 && i != 6 && i != 8 ==> u[i] == random[i]
  {
    random[6 := random[6] % 16 + 64][8 := random[8] % 64 + 128]
  }

  // ---- The codec laws ----

  /** Every identity this program prints is in the form under which endpoints agree. */
  lemma PrintedIsCanonical(u: Uuid)
    ensures IsCanonical(ToText(u))
  {
  }

  lemma ParseInvertsPrint(u: Uuid)
    ensures IsUuidText(ToText(u)) && FromText(ToText(u)) == u
  {
  }

  lemma DigitOf(p: int)
    requires 0 <= p < UUID_SIZE && !IsHyphenPosition(p)
    ensures var q := p - HyphensBefore(p);
            0 <= q < 32 && p == DigitPosition(q / 2) + q % 2
  {
  }

  lemma NibbleAfterParse(s: Text, p: int)
    requires IsUuidText(s) && 0 <= p < UUID_SIZE && !IsHyphenPosition(p)
    ensures TextAt(FromText(s), p) == Lower(s[p])
  {
    DigitOf(p);
    var q := p - HyphensBefore(p);
    assert FromText(s)[q / 2] == ByteAt(s, q / 2);
    assert Nibble(FromText(s), q) == HexValue(s[p]);
  }

  lemma PrintAfterParseIsLowerCase(s: Text)
    requires IsUuidText(s)
    ensures ToText(FromText(s)) == LowerCase(s)
  {
    forall p | 0 <= p < UUID_SIZE
      ensures TextAt(FromText(s), p) == Lower(s[p])
    {
      if !IsHyphenPosition(p) { NibbleAfterParse(s, p); }
    }
  }

  /** The printed form sorts exactly as the sixteen bytes do. */
  lemma PrintPreservesOrder(u: Uuid, v: Uuid)
    ensures Less(u, v) <==> Less(ToText(u), ToText(v))
  {
    Trichotomy(u, v);
    Trichotomy(ToText(u), ToText(v));
    if Less(u, v) {
      PrintIsMonotone(u, v);
    } else if u != v {
      PrintIsMonotone(v, u);
    }
  }

  function FirstDifference(u: Text, v: Text): (k: nat)
    requires |u| == |v| && u != v
    ensures k < |u| && u[..k] == v[..k] && u[k] != v[k]
  {
    if u[0] != v[0] then 0 else
      assert u == [u[0]] + u[1..] && v == [v[0]] + v[1..];
      var k := FirstDifference(u[1..], v[1..]);
      assert u[..k + 1] == [u[0]] + u[1..][..k] && v[..k + 1] == [v[0]] + v[1..][..k];
      k + 1
  }

  lemma PrintsAgreeBefore(u: Uuid, v: Uuid, k: nat, r: int)
    requires k < 16 && u[..k] == v[..k] && !IsHyphenPosition(r)
    requires 0 <= r < DigitPosition(k) || (r == DigitPosition(k) && u[k] / 16 == v[k] / 16)
    ensures TextAt(u, r) == TextAt(v, r)
  {
  }

  lemma DigitsKeepOrder(u: Uuid, v: Uuid, k: nat, p: int)
    requires k < 16 && u[k] < v[k]
    requires p == DigitPosition(k) + if u[k] / 16 == v[k] / 16 then 1 else 0
    ensures TextAt(u, p) < TextAt(v, p)
  {
  }

  lemma PrintIsMonotone(u: Uuid, v: Uuid)
    requires Less(u, v)
    ensures Less(ToText(u), ToText(v))
  {
    Trichotomy(u, v);
    var k := FirstDifference(u, v);
    if v[k] < u[k] { FirstDifferenceDecides(v, u, k); }
    var p := DigitPosition(k) + if u[k] / 16 == v[k] / 16 then 1 else 0;
    forall r | 0 <= r < p && !IsHyphenPosition(r)
      ensures TextAt(u, r) == TextAt(v, r)
    {
      PrintsAgreeBefore(u, v, k, r);
    }
    assert ToText(u)[..p] == ToText(v)[..p];
    DigitsKeepOrder(u, v, k, p);
    FirstDifferenceDecides(ToText(u), ToText(v), p);
  }

  /** Upper-case digits sort below their lower-case forms. */
  lemma {:induction false} LowerCaseIsAbove(s: Text)
    ensures LessOrEqual(s, LowerCase(s))
  {
    if s != LowerCase(s) {
      var k := FirstDifference(s, LowerCase(s));
      FirstDifferenceDecides(s, LowerCase(s), k);
    }
  }
}
