/** Text operations the record store relies on: the decimal form of an
    integer, as string interpolation writes it, and ordinal case-insensitive
    equality of strings. */
module Text {

  predicate IsDigit(c: char) {
    '0' <= c <= '9'
  }

  function DigitChar(d: int): (c: char)
    requires 0 <= d < 10
    ensures IsDigit(c)
  {
    ('0' as int + d) as char
  }

  function DigitValue(c: char): (d: int)
    requires IsDigit(c)
    ensures 0 <= d < 10
  {
    c as int - '0' as int
  }

  /** The decimal form of `n`: at least one digit, and no leading zero unless
      `n` is zero. */
  function Decimal(n: nat): (s: string)
    ensures 1 <= |s|
    ensures forall i :: 0 <= i < |s| ==> IsDigit(s[i])
    ensures n > 0 <==> s[0] != '0'
  {
    if n < 10 then [DigitChar(n)] else Decimal(n / 10) + [DigitChar(n % 10)]
  }

  /** The value of a string of decimal digits. */
  function ParseDecimal(s: string): nat
    requires forall i :: 0 <= i < |s| ==> IsDigit(s[i])
  {
    if s == [] then 0 else ParseDecimal(s[..|s| - 1]) * 10 + DigitValue(s[|s| - 1])
  }

  /** Reading back the decimal form of `n` gives `n`. */
  lemma {:induction false} DecimalRoundTrip(n: nat)
    ensures ParseDecimal(Decimal(n)) == n
  {
    var s := Decimal(n);
    if n < 10 {
      assert s[..|s| - 1] == [];
    } else {
      assert s[..|s| - 1] == Decimal(n / 10);
      DecimalRoundTrip(n / 10);
    }
  }

  /** Distinct numbers have distinct decimal forms. */
  lemma DecimalInjective(a: nat, b: nat)
    requires Decimal(a) == Decimal(b)
    ensures a == b
  {
    DecimalRoundTrip(a);
    DecimalRoundTrip(b);
  }

  /** Case folding of one character as ordinal case-insensitive comparison
      applies it, restricted to ASCII: lower-case letters map to upper case,
      every other character to itself. */
  function FoldChar(c: char): (f: char)
    ensures !('a' <= f <= 'z')
    ensures !('a' <= c <= 'z') ==> f == c
    ensures 'a' <= c <= 'z' ==> 'A' <= f <= 'Z' && f as int - 'A' as int == c as int - 'a' as int
  {
    if 'a' <= c <= 'z' then (c as int - 32) as char else c
  }

  /** Ordinal case-insensitive equality: equal length, and equal characters
      position by position once both are case folded. */
  predicate EqualsIgnoreCase(a: string, b: string) {
    |a| == |b| && forall i :: 0 <= i < |a| ==> FoldChar(a[i]) == FoldChar(b[i])
  }

  /** Case-insensitive equality is an equivalence that contains ordinal
      equality. */
  lemma EqualsIgnoreCaseIsEquivalence(a: string, b: string, c: string)
    ensures EqualsIgnoreCase(a, a)
    ensures EqualsIgnoreCase(a, b) ==> EqualsIgnoreCase(b, a)
    ensures EqualsIgnoreCase(a, b) && EqualsIgnoreCase(b, c) ==> EqualsIgnoreCase(a, c)
  {
  }

  /** Folding maps a letter and its other case to the same character, and
      folding twice changes nothing more. */
  lemma FoldCharProperties(c: char)
    ensures FoldChar(FoldChar(c)) == FoldChar(c)
    ensures 'A' <= c <= 'Z' ==> FoldChar(c) == FoldChar((c as int + 32) as char)
  {
  }

  /** Folding leaves digits alone, so two strings that share a prefix and
      end in decimal numbers are case-insensitively equal only when the
      numbers are the same. */
  lemma EqualsIgnoreCaseDecimalSuffix(prefix: string, a: nat, b: nat)
    requires EqualsIgnoreCase(prefix + Decimal(a), prefix + Decimal(b))
    ensures a == b
  {
    var da, db := Decimal(a), Decimal(b);
    assert |da| == |db|;
    forall i | 0 <= i < |da|
      ensures da[i] == db[i]
    {
      assert (prefix + da)[|prefix| + i] == da[i];
      assert (prefix + db)[|prefix| + i] == db[i];
    }
    assert da == db;
    DecimalInjective(a, b);
  }
}
