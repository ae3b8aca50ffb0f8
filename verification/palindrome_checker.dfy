/**
 * The palindrome checker (PalindromeChecker/Program.cs): a string is a palindrome when,
 * after dropping every character other than ASCII letters, digits and '+', it reads the same
 * backwards as forwards, capital and small letters counting as the same.
 */
module PalindromeChecker {

  // ---------------------------------------------------------------- condensing

  /**
   * The characters the pattern `(?i)[^a-z0-9+]` does not match, so that `Regex.Replace`
   * keeps them: ASCII letters of either case, ASCII digits and '+'. This is the pattern's
   * reading on ASCII text under the invariant culture; .NET's case-insensitive matching can
   * also keep a few non-ASCII letters that fold onto a-z, such as the Kelvin sign U+212A.
   */
  predicate Kept(c: char) {
    ('a' <= c <= 'z') || ('A' <= c <= 'Z') || ('0' <= c <= '9') || c == '+'
  }

  /** The kept characters of `s` from index `i` on, in order. */
  function CondenseFrom(s: string, i: nat): (r: string)
    requires i <= |s|
    ensures |r| <= |s| - i
    decreases |s| - i
  {
    if i == |s| then [] else (if Kept(s[i]) then [s[i]] else []) + CondenseFrom(s, i + 1)
  }

  /** `Regex.Replace(s, @"(?i)[^a-z0-9+]", "")`: `s` with every other character removed. */
  function Condense(s: string): string {
    CondenseFrom(s, 0)
  }

  /** The tail of a concatenation condenses like the tail of its second part. */
  lemma {:induction false} CondenseShift(a: string, b: string, j: nat)
    requires j <= |b|
    ensures CondenseFrom(a + b, |a| + j) == CondenseFrom(b, j)
    decreases |b| - j
  {
    if j < |b| {
      assert (a + b)[|a| + j] == b[j];
      CondenseShift(a, b, j + 1);
    }
  }

  lemma {:induction false} CondenseSplit(a: string, b: string, i: nat)
    requires i <= |a|
    ensures CondenseFrom(a + b, i) == CondenseFrom(a, i) + Condense(b)
    decreases |a| - i
  {
    if i == |a| {
      CondenseShift(a, b, 0);
    } else {
      assert (a + b)[i] == a[i];
      CondenseSplit(a, b, i + 1);
      var head := if Kept(a[i]) then [a[i]] else [];
      assert CondenseFrom(a + b, i) == head + CondenseFrom(a + b, i + 1);
      assert CondenseFrom(a, i) == head + CondenseFrom(a, i + 1);
      assert head + (CondenseFrom(a, i + 1) + Condense(b)) == (head + CondenseFrom(a, i + 1)) + Condense(b);
    }
  }

  /** Condensing distributes over concatenation. */
  lemma CondenseAppend(a: string, b: string)
    ensures Condense(a + b) == Condense(a) + Condense(b)
  {
    CondenseSplit(a, b, 0);
  }

  /** A character is in the condensed string exactly when it is a kept character of the input. */
  lemma {:induction false} CondenseContents(s: string, i: nat, c: char)
    requires i <= |s|
    ensures c in CondenseFrom(s, i) <==> Kept(c) && c in s[i..]
    decreases |s| - i
  {
    if i < |s| {
      CondenseContents(s, i + 1, c);
      assert s[i..] == [s[i]] + s[i + 1..];
    }
  }

  /** A string of kept characters condenses to itself; in particular condensing is idempotent. */
  lemma {:induction false} CondenseKept(s: string, i: nat)
    requires i <= |s|
    requires forall k | 0 <= k < |s| :: Kept(s[k])
    ensures CondenseFrom(s, i) == s[i..]
    decreases |s| - i
  {
    if i < |s| {
      CondenseKept(s, i + 1);
      assert s[i..] == [s[i]] + s[i + 1..];
    }
  }

  /** Every character of a condensed string is kept. */
  lemma CondenseOnlyKept(s: string)
    ensures forall k | 0 <= k < |Condense(s)| :: Kept(Condense(s)[k])
  {
    forall k | 0 <= k < |Condense(s)|
      ensures Kept(Condense(s)[k])
    {
      CondenseContents(s, 0, Condense(s)[k]);
    }
  }

  lemma CondenseIdempotent(s: string)
    ensures Condense(Condense(s)) == Condense(s)
  {
    CondenseOnlyKept(s);
    CondenseKept(Condense(s), 0);
  }

  // ---------------------------------------------------------------- comparing

  /** `char.ToUpper` on the characters a condensed string can hold: ASCII small letters become capitals. */
  function ToUpper(c: char): (u: char)
    ensures 'a' <= c <= 'z' ==> 'A' <= u <= 'Z' && u as int == c as int - 32
    ensures !('a' <= c <= 'z') ==> u == c
  {
    if 'a' <= c <= 'z' then (c as int - 32) as char else c
  }

  /**
   * What the comparison `char.ToUpper(a) != char.ToUpper(b)` tells apart: two characters
   * compare equal exactly when they are the same or one is the small form of the other
   * capital letter. Upper-casing leaves no small letter behind and is idempotent.
   */
  lemma ToUpperEqual(c: char, d: char)
    ensures ToUpper(c) == ToUpper(d) <==>
              c == d || ('a' <= c <= 'z' && d as int == c as int - 32) || ('a' <= d <= 'z' && c as int == d as int - 32)
    ensures !('a' <= ToUpper(c) <= 'z') && ToUpper(ToUpper(c)) == ToUpper(c)
  {
  }

  /** `t` reads the same backwards as forwards, ignoring case. */
  predicate Mirrored(t: string) {
    forall k | 0 <= k < |t| :: ToUpper(t[k]) == ToUpper(t[|t| - 1 - k])
  }

  /** What IsPalindrome decides: the condensed input is mirrored. */
  predicate Palindromic(s: string) {
    Mirrored(Condense(s))
  }

  /** Comparing each position before the midpoint with its mirror image decides the whole string. */
  lemma HalfSuffices(t: string)
    ensures (forall k | 0 <= k < |t| / 2 :: ToUpper(t[k]) == ToUpper(t[|t| - 1 - k])) <==> Mirrored(t)
  {
    if forall k | 0 <= k < |t| / 2 :: ToUpper(t[k]) == ToUpper(t[|t| - 1 - k]) {
      forall k | 0 <= k < |t|
        ensures ToUpper(t[k]) == ToUpper(t[|t| - 1 - k])
      {
        if k >= |t| / 2 && k != |t| - 1 - k {
          var m := |t| - 1 - k;
          assert 0 <= m < |t| / 2;
          assert ToUpper(t[m]) == ToUpper(t[|t| - 1 - m]);
        }
      }
    }
  }

  /** The comparisons of the loop from position `i` to the midpoint, stopping at the first mismatch. */
  predicate MatchesFrom(t: string, i: nat)
    decreases |t| - i
  {
    i >= |t| / 2 || (ToUpper(t[i]) == ToUpper(t[|t| - 1 - i]) && MatchesFrom(t, i + 1))
  }

  lemma {:induction false} MatchesFromAll(t: string, i: nat)
    ensures MatchesFrom(t, i) <==> forall k | i <= k < |t| / 2 :: ToUpper(t[k]) == ToUpper(t[|t| - 1 - k])
    decreases |t| - i
  {
    if i < |t| / 2 {
      MatchesFromAll(t, i + 1);
    }
  }

  /** The loop's comparisons, run to the midpoint, agree with the mirror-image definition. */
  lemma MatchesMirrored(t: string)
    ensures MatchesFrom(t, 0) <==> Mirrored(t)
  {
    MatchesFromAll(t, 0);
    HalfSuffices(t);
  }

  // ---------------------------------------------------------------- IsPalindrome

  /**
   * Program.IsPalindrome: condense, then walk `i` up from the front and `j` down from the
   * back until the midpoint, returning false at the first pair that differs ignoring case.
   */
  method IsPalindrome(s: string) returns (b: bool)
    ensures b == Palindromic(s)
  {
    var condensed := Condense(s);
    var length := |condensed|;
    var midpoint := length / 2;
    var i, j := 0, length - 1;
    while i < midpoint
      invariant 0 <= i <= midpoint && j == length - 1 - i
      invariant forall k | 0 <= k < i :: ToUpper(condensed[k]) == ToUpper(condensed[length - 1 - k])
    {
      if ToUpper(condensed[i]) != ToUpper(condensed[j]) {
        HalfSuffices(condensed);
        return false;
      }
      i, j := i + 1, j - 1;
    }
    HalfSuffices(condensed);
    return true;
  }

  /** Program.Check: whether IsPalindrome gives the expected answer. */
  method Check(s: string, shouldBePalindrome: bool) returns (pass: bool)
    ensures pass <==> (Palindromic(s) <==> shouldBePalindrome)
  {
    var result := IsPalindrome(s);
    pass := result == shouldBePalindrome;
  }

  // ---------------------------------------------------------------- properties

  /** A condensed string of at most one character is a palindrome. */
  lemma ShortIsPalindrome(s: string)
    requires |Condense(s)| <= 1
    ensures Palindromic(s)
  {
  }

  /** Inserting a space, punctuation or any other dropped character changes nothing. */
  lemma IgnoresDropped(a: string, c: char, b: string)
    requires !Kept(c)
    ensures Palindromic(a + [c] + b) <==> Palindromic(a + b)
  {
    CondenseAppend(a + [c], b);
    CondenseAppend(a, [c]);
    CondenseAppend(a, b);
    assert Condense([c]) == [];
    assert Condense(a) + [] == Condense(a);
  }

  /** Capital and small letters count as the same: changing the case of a letter changes nothing. */
  lemma IgnoresCase(a: string, c: char, b: string)
    requires 'a' <= c <= 'z'
    ensures Palindromic(a + [ToUpper(c)] + b) <==> Palindromic(a + [c] + b)
  {
    var u := ToUpper(c);
    CondenseAppend(a + [u], b);
    CondenseAppend(a, [u]);
    CondenseAppend(a + [c], b);
    CondenseAppend(a, [c]);
    assert Condense([u]) == [u] && Condense([c]) == [c];
    var t, t' := Condense(a) + [u] + Condense(b), Condense(a) + [c] + Condense(b);
    assert |t| == |t'|;
    assert forall k | 0 <= k < |t| :: ToUpper(t[k]) == ToUpper(t'[k]);
  }
}
