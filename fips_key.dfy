/**
 * The composite key under which a county's statistics for one year are stored:
 * the county identifier, stringified and left-padded with '0' to five characters,
 * then '_', then the stringified year.
 */
module FipsKey {

  /** A scalar as the page receives it: numbers from the statistics file,
      strings from the boundary geometry and the year selectors. */
  datatype Scalar = Num(n: nat) | Text(s: string)

  /** Width of a state+county FIPS identifier. */
  const FIPS_WIDTH: nat := 5

  predicate IsDigit(c: char) { '0' <= c <= '9' }

  predicate AllDigits(s: string) { forall i :: 0 <= i < |s| ==> IsDigit(s[i]) }

  function DigitChar(d: nat): (c: char)
    requires d < 10
    ensures IsDigit(c) && c as int - '0' as int == d
  {
    ('0' as int + d) as char
  }

  /** The number a digit string denotes, read most significant digit first. */
  function DigitsValue(s: string): nat
    requires AllDigits(s)
  {
    if s == [] then 0
    else DigitsValue(s[..|s| - 1]) * 10 + (s[|s| - 1] as int - '0' as int)
  }

  /** `String(n)` for a non-negative integer: its decimal digits, no leading zero. */
  function DecimalString(n: nat): (s: string)
    ensures 1 <= |s| && AllDigits(s)
    ensures |s| > 1 ==> s[0] != '0'
  {
    if n < 10 then [DigitChar(n)] else DecimalString(n / 10) + [DigitChar(n % 10)]
  }

  /** `String(x)`: a string is itself, a number its decimal digits without
      leading zeros ("0" for zero). */
  function Stringify(x: Scalar): (s: string)
    ensures x.Text? ==> s == x.s
    ensures x.Num? ==> AllDigits(s) && DigitsValue(s) == x.n
    ensures x.Num? ==> 1 <= |s| && (|s| > 1 ==> s[0] != '0')
  {
    match x
    case Num(n) => DigitsValueOfDecimal(n); DecimalString(n)
    case Text(s) => s
  }

  function Zeros(k: nat): (z: string)
    ensures |z| == k && AllDigits(z)
  {
    seq(k, _ => '0')
  }

  /** `s.padStart(width, '0')`: unchanged when already `width` long, otherwise
      zeros in front up to exactly `width` characters. */
  function PadStart(s: string, width: nat): (r: string)
    ensures |r| == if |s| >= width then |s| else width
  {
    if |s| >= width then s else Zeros(width - |s|) + s
  }

  /** The padded string ends with the original and everything in front of it is '0'. */
  lemma PadStartContents(s: string, width: nat)
    ensures var r := PadStart(s, width);
      && r[|r| - |s|..] == s
      && forall i :: 0 <= i < |r| - |s| ==> r[i] == '0'
  {
  }

  /** The canonical five-character form of a county identifier. */
  function CanonicalFips(fips: Scalar): (r: string)
    ensures |r| >= FIPS_WIDTH
    ensures |Stringify(fips)| <= FIPS_WIDTH ==> |r| == FIPS_WIDTH
  {
    PadStart(Stringify(fips), FIPS_WIDTH)
  }

  /** The one key formula shared by the index builder and the lookup. */
  function CompositeKey(fips: Scalar, year: Scalar): (k: string)
    ensures |k| == |CanonicalFips(fips)| + 1 + |Stringify(year)|
    ensures k[|CanonicalFips(fips)|] == '_'
  {
    CanonicalFips(fips) + "_" + Stringify(year)
  }

  /** The key's two parts: the padded identifier in front of the '_' and the
      year string after it. */
  lemma CompositeKeyParts(fips: Scalar, year: Scalar)
    ensures CompositeKey(fips, year)[..|CanonicalFips(fips)|] == CanonicalFips(fips)
    ensures CompositeKey(fips, year)[|CanonicalFips(fips)| + 1..] == Stringify(year)
  {
  }

  /** A county identifier as the data is meant to carry it: at most five digits. */
  predicate ValidCountyId(fips: Scalar)
  {
    match fips
    case Num(n) => n < 100000
    case Text(s) => 1 <= |s| <= FIPS_WIDTH && AllDigits(s)
  }

  // ---------------------------------------------------------------------------
  // Decimal strings

  lemma {:induction false} DigitsValueOfDecimal(n: nat)
    ensures DigitsValue(DecimalString(n)) == n
  {
    var s := DecimalString(n);
    if n >= 10 {
      DigitsValueOfDecimal(n / 10);
      assert s[..|s| - 1] == DecimalString(n / 10);
    }
  }

  lemma {:induction false} DigitsValueLeadingZeros(k: nat, s: string)
    requires AllDigits(s)
    ensures DigitsValue(Zeros(k) + s) == DigitsValue(s)
  {
    if s == [] {
      ZerosValue(k);
      assert Zeros(k) + s == Zeros(k);
    } else {
      DigitsValueLeadingZeros(k, s[..|s| - 1]);
      assert (Zeros(k) + s)[..|Zeros(k) + s| - 1] == Zeros(k) + s[..|s| - 1];
    }
  }

  lemma {:induction false} ZerosValue(k: nat)
    ensures DigitsValue(Zeros(k)) == 0
  {
    if k > 0 {
      ZerosValue(k - 1);
      assert Zeros(k)[..k - 1] == Zeros(k - 1);
    }
  }

  lemma {:induction false} DecimalStringInjective(n: nat, m: nat)
    ensures DecimalString(n) == DecimalString(m) <==> n == m
  {
    DigitsValueOfDecimal(n);
    DigitsValueOfDecimal(m);
  }

  /** A number below 10^k has at most k decimal digits. */
  lemma {:induction false} DecimalStringLength(n: nat, k: nat)
    requires 1 <= k && n < Pow10(k)
    ensures |DecimalString(n)| <= k
  {
    if n >= 10 {
      assert k >= 2;
      DecimalStringLength(n / 10, k - 1);
    }
  }

  function Pow10(k: nat): (p: nat)
    ensures p >= 1
  {
    if k == 0 then 1 else 10 * Pow10(k - 1)
  }

  // ---------------------------------------------------------------------------
  // Padding

  /** Padding twice is padding once. */
  lemma PadStartIdempotent(s: string, width: nat)
    ensures PadStart(PadStart(s, width), width) == PadStart(s, width)
  {
  }

  lemma {:induction false} PadStartDigits(s: string, width: nat)
    ensures AllDigits(PadStart(s, width)) <==> AllDigits(s)
    ensures AllDigits(s) ==> DigitsValue(PadStart(s, width)) == DigitsValue(s)
  {
    var r := PadStart(s, width);
    if |s| < width {
      assert r == Zeros(width - |s|) + s;
      if AllDigits(s) {
        DigitsValueLeadingZeros(width - |s|, s);
      }
      if AllDigits(r) {
        assert forall i :: 0 <= i < |s| ==> s[i] == r[width - |s| + i];
      }
    }
  }

  /** Every valid identifier pads to exactly five digits. */
  lemma CanonicalFipsShape(fips: Scalar)
    requires ValidCountyId(fips)
    ensures |CanonicalFips(fips)| == FIPS_WIDTH
    ensures AllDigits(CanonicalFips(fips))
  {
    PadStartDigits(Stringify(fips), FIPS_WIDTH);
    if fips.Num? {
      DecimalStringLength(fips.n, 5);
    }
  }

  /** A numeric identifier from the statistics file and the zero-padded text
      the boundary geometry carries for the same county give the same key. */
  lemma NumericIdMatchesPaddedText(n: nat, year: Scalar)
    ensures CompositeKey(Num(n), year) == CompositeKey(Text(CanonicalFips(Num(n))), year)
  {
    PadStartIdempotent(DecimalString(n), FIPS_WIDTH);
  }

  // ---------------------------------------------------------------------------
  // Injectivity

  /** The first '_' splits a key back into its two parts. */
  lemma KeySplit(a: string, b: string, y: string, z: string)
    requires '_' !in a && '_' !in b
    ensures a + "_" + y == b + "_" + z <==> a == b && y == z
  {
    if a + "_" + y == b + "_" + z {
      var k := a + "_" + y;
      UnderscoreAfter(a, y);
      UnderscoreAfter(b, z);
      assert |a| == |b|;
      assert a == k[..|a|];
      assert b == (b + "_" + z)[..|b|];
      assert y == k[|a| + 1..];
      assert z == (b + "_" + z)[|b| + 1..];
    }
  }

  /** In `a + "_" + y` with `a` free of '_', the first '_' is at `|a|`. */
  lemma UnderscoreAfter(a: string, y: string)
    requires '_' !in a
    ensures (a + "_" + y)[|a|] == '_'
    ensures forall i :: 0 <= i < |a| ==> (a + "_" + y)[i] != '_'
  {
    forall i | 0 <= i < |a|
      ensures (a + "_" + y)[i] != '_'
    {
      assert (a + "_" + y)[i] == a[i];
    }
  }

  lemma NoUnderscoreInDigits(s: string)
    requires AllDigits(s)
    ensures '_' !in s
  {
  }

  /** For valid identifiers, two keys are equal exactly when the canonical
      identifiers and the year strings are equal. */
  lemma {:induction false} CompositeKeyInjective(f1: Scalar, y1: Scalar, f2: Scalar, y2: Scalar)
    requires ValidCountyId(f1) && ValidCountyId(f2)
    ensures CompositeKey(f1, y1) == CompositeKey(f2, y2)
        <==> CanonicalFips(f1) == CanonicalFips(f2) && Stringify(y1) == Stringify(y2)
  {
    CanonicalFipsShape(f1);
    CanonicalFipsShape(f2);
    NoUnderscoreInDigits(CanonicalFips(f1));
    NoUnderscoreInDigits(CanonicalFips(f2));
    KeySplit(CanonicalFips(f1), CanonicalFips(f2), Stringify(y1), Stringify(y2));
  }

  /** Five-digit identifier strings and four-digit year strings: distinct pairs,
      distinct keys. */
  lemma FiveDigitKeysDistinct(s1: string, t1: string, s2: string, t2: string)
    requires |s1| == 5 && AllDigits(s1) && |s2| == 5 && AllDigits(s2)
    requires |t1| == 4 && AllDigits(t1) && |t2| == 4 && AllDigits(t2)
    ensures CompositeKey(Text(s1), Text(t1)) == CompositeKey(Text(s2), Text(t2))
        <==> s1 == s2 && t1 == t2
  {
    CompositeKeyInjective(Text(s1), Text(t1), Text(s2), Text(t2));
  }

  /** Numeric identifiers below 100000 and numeric years: distinct pairs,
      distinct keys, although padding adds leading zeros. */
  lemma NumericKeysDistinct(n1: nat, y1: nat, n2: nat, y2: nat)
    requires n1 < 100000 && n2 < 100000
    ensures CompositeKey(Num(n1), Num(y1)) == CompositeKey(Num(n2), Num(y2))
        <==> n1 == n2 && y1 == y2
  {
    CompositeKeyInjective(Num(n1), Num(y1), Num(n2), Num(y2));
    DecimalStringInjective(y1, y2);
    PadStartDigits(DecimalString(n1), FIPS_WIDTH);
    PadStartDigits(DecimalString(n2), FIPS_WIDTH);
    DigitsValueOfDecimal(n1);
    DigitsValueOfDecimal(n2);
  }
}
