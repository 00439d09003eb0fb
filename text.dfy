/**
 * The string operations the handler relies on: ASCII lower-casing
 * (`String.prototype.toLowerCase`), substring search (`String.prototype.includes`)
 * and the decimal rendering of an integer inside a template literal.
 */
module Text {
  import opened Wrappers

  /** A string property is truthy in JavaScript when it is present and not empty. */
  predicate TruthyString(s: Option<string>) { s.Some? && s.value != "" }

  // ---------------------------------------------------------------------------
  // Lower-casing
  // ---------------------------------------------------------------------------

  predicate IsUpper(c: char) { 'A' <= c <= 'Z' }

  /** Lower-cases one ASCII letter and leaves every other character alone. */
  function LowerChar(c: char): (d: char)
    ensures !IsUpper(d)
    ensures IsUpper(c) ==> d as int == c as int + ('a' as int - 'A' as int)
    ensures !IsUpper(c) ==> d == c
  {
    if IsUpper(c) then (c as int + ('a' as int - 'A' as int)) as char else c
  }

  /** `s.toLowerCase()`, restricted to ASCII letters. */
  function ToLower(s: string): (r: string)
    ensures |r| == |s|
    ensures forall i :: 0 <= i < |s| ==> r[i] == LowerChar(s[i])
  {
    if s == [] then [] else [LowerChar(s[0])] + ToLower(s[1..])
  }

  /** Lower-casing commutes with taking a slice. */
  lemma ToLowerSlice(s: string, i: nat, j: nat)
    requires i <= j <= |s|
    ensures ToLower(s)[i..j] == ToLower(s[i..j])
  {
  }

  // ---------------------------------------------------------------------------
  // Substring search
  // ---------------------------------------------------------------------------

  /** `pat` occurs in `s` starting at position `i`. */
  predicate OccursAt(s: string, pat: string, i: int)
  {
    0 <= i && i + |pat| <= |s| && s[i..i + |pat|] == pat
  }

  predicate StartsWith(s: string, pat: string)
  {
    |pat| <= |s| && s[..|pat|] == pat
  }

  /**
   * Substring search as `includes` does it: scans `s` from the left for an occurrence
   * of `pat`. The empty pattern occurs everywhere; a pattern longer than `s` nowhere.
   */
  function Contains(s: string, pat: string): (b: bool)
    ensures pat == [] ==> b
    ensures b ==> |pat| <= |s|
    decreases |s|
  {
    if StartsWith(s, pat) then true
    else if s == [] then false
    else Contains(s[1..], pat)
  }

  /** An occurrence in the tail of `s` is an occurrence in `s`, one position later. */
  lemma OccursInTail(s: string, pat: string, j: int)
    requires s != [] && OccursAt(s[1..], pat, j)
    ensures OccursAt(s, pat, j + 1)
  {
    assert s[1..][j..j + |pat|] == s[j + 1..j + 1 + |pat|];
  }

  /** An occurrence in `s` after position 0 is an occurrence in the tail of `s`. */
  lemma OccursPastHead(s: string, pat: string, i: int)
    requires i > 0 && OccursAt(s, pat, i)
    ensures OccursAt(s[1..], pat, i - 1)
  {
    assert s[1..][i - 1..i - 1 + |pat|] == s[i..i + |pat|];
  }

  /** The scan finds an occurrence exactly when there is one. */
  lemma {:induction false} ContainsIff(s: string, pat: string)
    ensures Contains(s, pat) <==> exists i :: OccursAt(s, pat, i)
    decreases |s|
  {
    if StartsWith(s, pat) {
      assert OccursAt(s, pat, 0);
    } else if s == [] {
      assert forall i :: !OccursAt(s, pat, i);
    } else {
      ContainsIff(s[1..], pat);
      if Contains(s[1..], pat) {
        var j :| OccursAt(s[1..], pat, j);
        OccursInTail(s, pat, j);
      } else {
        forall i | OccursAt(s, pat, i)
          ensures false
        {
          if i > 0 {
            OccursPastHead(s, pat, i);
          }
        }
      }
    }
  }

  /** An occurrence of `pat` in `s`, whatever its case, is an occurrence of `ToLower(pat)` in `ToLower(s)`. */
  lemma OccursLowered(s: string, pat: string, i: int)
    requires OccursAt(s, pat, i)
    ensures OccursAt(ToLower(s), ToLower(pat), i)
  {
    ToLowerSlice(s, i, i + |pat|);
  }

  // ---------------------------------------------------------------------------
  // Decimal numerals
  // ---------------------------------------------------------------------------

  predicate IsDigit(c: char) { '0' <= c <= '9' }

  predicate AllDigits(s: string) { forall i :: 0 <= i < |s| ==> IsDigit(s[i]) }

  function DigitChar(d: nat): (c: char)
    requires d < 10
    ensures IsDigit(c) && c as int - '0' as int == d
  {
    ('0' as int + d) as char
  }

  function DigitValue(c: char): nat
    requires IsDigit(c)
  {
    c as int - '0' as int
  }

  /** The shortest decimal numeral of `n`. */
  function NatToDecimal(n: nat): (s: string)
    ensures |s| >= 1 && AllDigits(s)
    ensures |s| > 1 ==> s[0] != '0'
    decreases n
  {
    if n < 10 then [DigitChar(n)] else NatToDecimal(n / 10) + [DigitChar(n % 10)]
  }

  /**
   * The canonical decimal numeral of an integer: digits without a superfluous leading
   * zero, after a minus sign for a negative number (so never `-0`).
   */
  predicate IsCanonicalInt(s: string)
  {
    || (|s| >= 1 && AllDigits(s) && (|s| > 1 ==> s[0] != '0'))
    || (|s| >= 2 && s[0] == '-' && AllDigits(s[1..]) && s[1] != '0')
  }

  /** An integer interpolated into a template string: the canonical numeral, signed when negative. */
  function IntToDecimal(n: int): (s: string)
    ensures IsCanonicalInt(s)
    ensures n >= 0 ==> AllDigits(s) && (|s| > 1 ==> s[0] != '0')
    ensures n < 0 ==> |s| >= 2 && s[0] == '-' && AllDigits(s[1..]) && s[1] != '0'
  {
    if n < 0 then "-" + NatToDecimal(-n) else NatToDecimal(n)
  }

  /** The value of a string of decimal digits, most significant first. */
  function DecimalToNat(s: string): nat
    requires AllDigits(s)
    decreases |s|
  {
    if s == [] then 0 else 10 * DecimalToNat(s[..|s| - 1]) + DigitValue(s[|s| - 1])
  }

  /** Reads back an optionally signed decimal numeral; anything else is `None`. */
  function ParseInt(s: string): Option<int>
  {
    if |s| >= 2 && s[0] == '-' && AllDigits(s[1..]) then Some(0 - DecimalToNat(s[1..]) as int)
    else if |s| >= 1 && AllDigits(s) then Some(DecimalToNat(s))
    else None
  }

  lemma {:induction false} NatDecimalRoundTrip(n: nat)
    ensures DecimalToNat(NatToDecimal(n)) == n
    decreases n
  {
    if n >= 10 {
      var s := NatToDecimal(n);
      NatDecimalRoundTrip(n / 10);
      assert s[..|s| - 1] == NatToDecimal(n / 10);
    }
  }

  /** Rendering an integer and reading it back gives the integer. */
  lemma IntDecimalRoundTrip(n: int)
    ensures ParseInt(IntToDecimal(n)) == Some(n)
  {
    if n < 0 {
      var s := IntToDecimal(n);
      assert s[1..] == NatToDecimal(-n);
      NatDecimalRoundTrip(-n);
    } else {
      NatDecimalRoundTrip(n);
    }
  }

  /** Distinct integers are rendered differently. */
  lemma IntToDecimalInjective(m: int, n: int)
    requires IntToDecimal(m) == IntToDecimal(n)
    ensures m == n
  {
    IntDecimalRoundTrip(m);
    IntDecimalRoundTrip(n);
  }

  /** A numeral whose first digit is not `0` denotes at least 1, and at least 10 when it has two digits or more. */
  lemma {:induction false} LeadingDigitBound(s: string)
    requires |s| >= 1 && AllDigits(s) && s[0] != '0'
    ensures DecimalToNat(s) >= 1
    ensures |s| >= 2 ==> DecimalToNat(s) >= 10
    decreases |s|
  {
    if |s| >= 2 {
      LeadingDigitBound(s[..|s| - 1]);
    }
  }

  /** A canonical numeral of digits is the rendering of its own value. */
  lemma {:induction false} CanonicalNatUnique(s: string)
    requires |s| >= 1 && AllDigits(s) && (|s| > 1 ==> s[0] != '0')
    ensures s == NatToDecimal(DecimalToNat(s))
    decreases |s|
  {
    var n := DecimalToNat(s);
    if |s| >= 2 {
      var init := s[..|s| - 1];
      LeadingDigitBound(s);
      CanonicalNatUnique(init);
      assert n / 10 == DecimalToNat(init) && n % 10 == DigitValue(s[|s| - 1]);
      assert s == init + [s[|s| - 1]];
    }
  }

  /**
   * The rendering is the only canonical numeral that reads back as `n`: a canonical
   * numeral and its value determine each other.
   */
  lemma CanonicalIntUnique(s: string, n: int)
    requires IsCanonicalInt(s) && ParseInt(s) == Some(n)
    ensures s == IntToDecimal(n)
  {
    if |s| >= 2 && s[0] == '-' && AllDigits(s[1..]) {
      CanonicalNatUnique(s[1..]);
      LeadingDigitBound(s[1..]);
      assert s == "-" + s[1..];
    } else {
      CanonicalNatUnique(s);
    }
  }
}
