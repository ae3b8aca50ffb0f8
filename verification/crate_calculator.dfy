/**
 * StripExtraDigits from the crate calculator (ShippingCateCalculator/public_html/calculator.js):
 * a number already formatted as a string loses its trailing zeros and then, if nothing is
 * left after the decimal point, the point itself.
 */
module CrateCalculator {

  /** Every character of `z` is '0' (vacuously so for the empty string). */
  predicate Zeros(z: string) {
    forall k | 0 <= k < |z| :: z[k] == '0'
  }

  predicate EndsWith(s: string, c: char) {
    |s| > 0 && s[|s| - 1] == c
  }

  /** What may be cut off the end: a run of zeros, or a point followed by a run of zeros. */
  predicate Trailer(z: string) {
    Zeros(z) || (|z| > 0 && z[0] == '.' && Zeros(z[1..]))
  }

  /**
   * `r` is `s` stripped: a prefix of `s` whose cut-off tail is a trailer, and which, when only
   * zeros were cut, ends in neither a zero nor a point (every trailing zero went, and a
   * point left bare would have gone too).
   */
  predicate Stripped(s: string, r: string) {
    r <= s && Trailer(s[|r|..]) && (Zeros(s[|r|..]) ==> !EndsWith(r, '0') && !EndsWith(r, '.'))
  }

  /**
   * StripExtraDigits: drop trailing '0's one at a time while the string ends in one, then drop
   * one trailing '.' if the string now ends in one.
   */
  method StripExtraDigits(digits: string) returns (r: string)
    ensures Stripped(digits, r)
  {
    r := digits;
    while EndsWith(r, '0')
      invariant r <= digits && Zeros(digits[|r|..])
      decreases |r|
    {
      r := r[..|r| - 1];
    }
    if EndsWith(r, '.') {
      assert digits[|r| - 1..] == ['.'] + digits[|r|..];
      r := r[..|r| - 1];
    }
  }

  /** There is only one way to strip a string, so Stripped pins down StripExtraDigits' result. */
  lemma StrippedUnique(s: string, r1: string, r2: string)
    requires Stripped(s, r1) && Stripped(s, r2)
    ensures r1 == r2
  {
    if |r1| < |r2| {
      StrippedShorter(s, r1, r2);
    } else if |r2| < |r1| {
      StrippedShorter(s, r2, r1);
    } else {
      assert r1 == s[..|r1|] == r2;
    }
  }

  /** A strictly longer candidate than a stripped prefix is never itself stripped. */
  lemma StrippedShorter(s: string, r1: string, r2: string)
    requires Stripped(s, r1) && r2 <= s && |r1| < |r2|
    ensures !Stripped(s, r2)
  {
    var last := |r2| - 1;
    assert r2[last] == s[last];
    assert Zeros(s[|r2|..]) by {
      forall k | 0 <= k < |s| - |r2|
        ensures s[|r2|..][k] == '0'
      {
        assert s[|r2|..][k] == s[|r1|..][|r2| - |r1| + k];
      }
    }
    assert s[last] == s[|r1|..][last - |r1|];
  }

  /** A string that ends in neither a zero nor a point is its own stripped form. */
  lemma StrippedUnchanged(s: string, r: string)
    requires !EndsWith(s, '0') && !EndsWith(s, '.')
    requires Stripped(s, r)
    ensures r == s
  {
    assert s[|s|..] == [];
    StrippedUnique(s, r, s);
  }

  /** The examples given with StripExtraDigits: 3.750 becomes 3.75 and 12.000 becomes 12. */
  method StripExamples() returns (a: string, b: string)
    ensures a == "3.75" && b == "12"
  {
    a := StripExtraDigits("3.750");
    assert Stripped("3.750", "3.75") by {
      assert "3.750"[4..] == "0";
    }
    StrippedUnique("3.750", a, "3.75");
    b := StripExtraDigits("12.000");
    assert Stripped("12.000", "12") by {
      assert "12.000"[2..] == ".000";
      assert ".000"[1..] == "000";
    }
    StrippedUnique("12.000", b, "12");
  }
}
