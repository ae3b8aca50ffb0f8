/**
 * The text justifier (TextJustifier/Program.cs): spreads the words of a line over a fixed
 * line length, margin to margin, handing out the spaces that do not divide evenly one at a
 * time from the left.
 *
 * Strings are sequences of characters; only the space character ' ' separates words, as
 * in the C# `Split(new[] {' '}, StringSplitOptions.RemoveEmptyEntries)`.
 */
module TextJustifier {

  // ---------------------------------------------------------------- words

  function Spaces(n: nat): (s: string)
    ensures |s| == n && forall i | 0 <= i < n :: s[i] == ' '
  {
    seq(n, _ => ' ')
  }

  /** A non-empty run of non-space characters. */
  predicate IsWord(w: string) {
    |w| > 0 && forall i | 0 <= i < |w| :: w[i] != ' '
  }

  /** The length of the run of non-space characters at the start of `s`. */
  function WordLength(s: string): (n: nat)
    ensures n <= |s|
    ensures forall i | 0 <= i < n :: s[i] != ' '
    ensures n < |s| ==> s[n] == ' '
  {
    if s == [] || s[0] == ' ' then 0 else 1 + WordLength(s[1..])
  }

  /** `s.Split(' ', RemoveEmptyEntries)`: the maximal runs of non-space characters, in order. */
  function Words(s: string): (ws: seq<string>)
    ensures forall k | 0 <= k < |ws| :: IsWord(ws[k])
    decreases |s|
  {
    if s == [] then []
    else if s[0] == ' ' then Words(s[1..])
    else
      var n := WordLength(s);
      [s[..n]] + Words(s[n..])
  }

  function SumLengths(ws: seq<string>): nat {
    if ws == [] then 0 else |ws[0]| + SumLengths(ws[1..])
  }

  /** `string.Join("", ws)`. */
  function Concat(ws: seq<string>): string {
    if ws == [] then "" else ws[0] + Concat(ws[1..])
  }

  /**
   * C#'s `s.PadRight(totalWidth, ' ')`: `s` followed by spaces up to `totalWidth` characters.
   * C# throws for a negative width, which the justifier never passes.
   */
  function PadRight(s: string, totalWidth: int): (r: string)
    requires totalWidth >= 0
    ensures |r| == if totalWidth <= |s| then |s| else totalWidth
    ensures r[..|s|] == s && forall i | |s| <= i < |r| :: r[i] == ' '
  {
    if totalWidth <= |s| then s else s + Spaces(totalWidth - |s|)
  }

  // ---------------------------------------------------------------- the intended layout

  /** The words separated by runs of `gaps[k]` spaces. */
  function Interleave(ws: seq<string>, gaps: seq<nat>): string
    requires |ws| >= 1 && |gaps| == |ws| - 1
  {
    if |ws| == 1 then ws[0] else ws[0] + Spaces(gaps[0]) + Interleave(ws[1..], gaps[1..])
  }

  /** `k` gaps of `q` spaces, the first `e` of them one space wider. */
  function Gaps(k: nat, q: nat, e: nat): (gaps: seq<nat>)
    ensures |gaps| == k
  {
    seq(k, i => if i < e then q + 1 else q)
  }

  function SumNats(gaps: seq<nat>): nat {
    if gaps == [] then 0 else gaps[0] + SumNats(gaps[1..])
  }

  /**
   * What justification means: the words of `text`, in order, with the `lineLength` minus
   * their total length spaces shared out as evenly as possible over the gaps between them,
   * wider gaps first; a line too long or with fewer than two words is left alone.
   */
  function Justified(text: string, lineLength: int): string {
    var ws := Words(text);
    if lineLength < |text| || |ws| < 2 then text
    else
      WordsFit(text);
      var total := lineLength - SumLengths(ws);
      Interleave(ws, Gaps(|ws| - 1, total / (|ws| - 1), total % (|ws| - 1)))
  }

  // ---------------------------------------------------------------- lemmas

  /** The words of a line, with at least one space between neighbours, fit in it. */
  lemma {:induction false} WordsFit(s: string)
    ensures SumLengths(Words(s)) + |Words(s)| - 1 <= |s|
    decreases |s|
  {
    if s != [] {
      if s[0] == ' ' {
        WordsFit(s[1..]);
      } else {
        var n := WordLength(s);
        var rest := s[n..];
        assert Words(s) == [s[..n]] + Words(rest);
        assert Words(s)[1..] == Words(rest);
        if rest != [] {
          assert rest[0] == ' ';
          assert Words(rest) == Words(rest[1..]);
          WordsFit(rest[1..]);
        }
      }
    }
  }

  /** Leading spaces do not change the words. */
  lemma {:induction false} WordsAfterSpaces(k: nat, t: string)
    ensures Words(Spaces(k) + t) == Words(t)
  {
    if k > 0 {
      assert Spaces(k) + t == Spaces(k - 1) + (" " + t);
      WordsAfterSpaces(k - 1, " " + t);
      assert (" " + t)[1..] == t;
      assert Words(" " + t) == Words(t);
    } else {
      assert Spaces(k) + t == t;
    }
  }

  /** A word followed by nothing or by a space is the first word. */
  lemma WordsAfterWord(w: string, t: string)
    requires IsWord(w) && (t == [] || t[0] == ' ')
    ensures Words(w + t) == [w] + Words(t)
  {
    WordLengthOfWord(w, t);
    assert (w + t)[..|w|] == w && (w + t)[|w|..] == t;
  }

  lemma {:induction false} WordLengthOfWord(w: string, t: string)
    requires IsWord(w) && (t == [] || t[0] == ' ')
    ensures WordLength(w + t) == |w|
    decreases |w|
  {
    assert (w + t)[1..] == w[1..] + t;
    if |w| > 1 {
      WordLengthOfWord(w[1..], t);
    }
  }

  /** Splitting words joined by runs of at least one space gives the words back. */
  lemma {:induction false} WordsOfInterleave(ws: seq<string>, gaps: seq<nat>)
    requires |ws| >= 1 && |gaps| == |ws| - 1
    requires forall k | 0 <= k < |ws| :: IsWord(ws[k])
    requires forall k | 0 <= k < |gaps| :: gaps[k] >= 1
    ensures Words(Interleave(ws, gaps)) == ws
    decreases |ws|
  {
    if |ws| == 1 {
      WordsAfterWord(ws[0], []);
      assert Words([]) == [];
      assert ws[0] + [] == ws[0];
    } else {
      var rest := Interleave(ws[1..], gaps[1..]);
      assert Interleave(ws, gaps) == ws[0] + (Spaces(gaps[0]) + rest);
      WordsAfterWord(ws[0], Spaces(gaps[0]) + rest);
      WordsAfterSpaces(gaps[0], rest);
      WordsOfInterleave(ws[1..], gaps[1..]);
      assert ws == [ws[0]] + ws[1..];
    }
  }

  lemma {:induction false} InterleaveLength(ws: seq<string>, gaps: seq<nat>)
    requires |ws| >= 1 && |gaps| == |ws| - 1
    ensures |Interleave(ws, gaps)| == SumLengths(ws) + SumNats(gaps)
    decreases |ws|
  {
    if |ws| > 1 {
      InterleaveLength(ws[1..], gaps[1..]);
    } else {
      assert SumLengths(ws[1..]) == 0;
    }
  }

  /** `k` gaps of `q`, `e` of them one wider, hold `k * q + e` spaces (for `e <= k`). */
  lemma {:induction false} SumOfGaps(k: nat, q: nat, e: nat)
    requires e <= k
    ensures SumNats(Gaps(k, q, e)) == k * q + e
  {
    if k > 0 {
      var e' := if e > 0 then e - 1 else 0;
      assert Gaps(k, q, e)[1..] == Gaps(k - 1, q, e');
      SumOfGaps(k - 1, q, e');
    }
  }

  /** The padded word list, joined, is the words interleaved with their gaps. */
  lemma {:induction false} ConcatPadded(ws: seq<string>, gaps: seq<nat>, padded: seq<string>)
    requires |ws| >= 1 && |gaps| == |ws| - 1 && |padded| == |ws|
    requires forall m | 0 <= m < |gaps| :: padded[m] == ws[m] + Spaces(gaps[m])
    requires padded[|ws| - 1] == ws[|ws| - 1]
    ensures Concat(padded) == Interleave(ws, gaps)
    decreases |ws|
  {
    if |ws| == 1 {
      assert Concat(padded) == padded[0] + Concat([]);
    } else {
      ConcatPadded(ws[1..], gaps[1..], padded[1..]);
      assert Concat(padded) == padded[0] + Concat(padded[1..]);
    }
  }

  /**
   * A line that fits and has at least two words comes out exactly `lineLength` long, with
   * the same words in the same order, every gap at least one space, the gaps differing by
   * at most one space and the wider ones first; any other line comes out unchanged.
   */
  lemma JustifiedShape(text: string, lineLength: int)
    ensures lineLength < |text| || |Words(text)| < 2 ==> Justified(text, lineLength) == text
    ensures |text| <= lineLength && |Words(text)| >= 2 ==>
              var ws := Words(text);
              var r := Justified(text, lineLength);
              && |r| == lineLength
              && Words(r) == ws
              && exists gaps: seq<nat> | |gaps| == |ws| - 1 ::
                   && r == Interleave(ws, gaps)
                   && (forall m | 0 <= m < |gaps| :: gaps[m] >= 1)
                   && (forall m, n | 0 <= m < n < |gaps| :: gaps[n] <= gaps[m] <= gaps[n] + 1)
  {
    var ws := Words(text);
    if |text| <= lineLength && |ws| >= 2 {
      var gaps := JustifiedGaps(text, lineLength);
      InterleaveLength(ws, gaps);
      WordsOfInterleave(ws, gaps);
    }
  }

  /**
   * The gaps a fitting line of at least two words is justified with: one per pair of
   * neighbouring words, at least one space each, wider ones first, and adding up to the
   * line length minus the words' total length.
   */
  lemma JustifiedGaps(text: string, lineLength: int) returns (gaps: seq<nat>)
    requires |text| <= lineLength && |Words(text)| >= 2
    ensures |gaps| == |Words(text)| - 1
    ensures Justified(text, lineLength) == Interleave(Words(text), gaps)
    ensures SumLengths(Words(text)) + SumNats(gaps) == lineLength
    ensures forall m | 0 <= m < |gaps| :: gaps[m] >= 1
    ensures forall m, n | 0 <= m < n < |gaps| :: gaps[n] <= gaps[m] <= gaps[n] + 1
  {
    var ws := Words(text);
    WordsFit(text);
    var k := |ws| - 1;
    var total := lineLength - SumLengths(ws);
    DivideSpaces(total, k);
    gaps := Gaps(k, total / k, total % k);
    SumOfGaps(k, total / k, total % k);
  }

  /** At least one space per gap means at least one space in every gap, with the remainder counted once. */
  lemma DivideSpaces(total: int, k: int)
    requires 0 < k <= total
    ensures total / k >= 1 && 0 <= total % k < k && k * (total / k) + total % k == total
  {
  }

  /** Euclidean division has one quotient and one remainder. */
  lemma DivisionUnique(total: int, k: int, q: int, e: int)
    requires 0 < k && 0 <= e < k && k * q + e == total
    ensures total / k == q && total % k == e
  {
    var q', e' := total / k, total % k;
    Distribute(k, q, q');
    var d := q - q';
    if d >= 1 {
      MulAtLeast(k, d);
    } else if d <= -1 {
      MulAtLeast(k, -d);
      Distribute(k, 0, d);
    }
  }

  lemma Distribute(k: int, a: int, b: int)
    ensures k * a - k * b == k * (a - b)
  {
  }

  lemma MulAtLeast(k: int, d: int)
    requires k > 0 && d >= 1
    ensures k * d >= k
  {
  }

  /**
   * Any line of words that fits is justified to the same words with `q` spaces per gap and
   * `e` extra spaces for the first gaps, where `q` and `e` are the quotient and remainder
   * of the spare spaces by the number of gaps.
   */
  lemma JustifiedSpread(ws: seq<string>, g: seq<nat>, lineLength: int, q: nat, e: nat)
    requires |ws| >= 2 && |g| == |ws| - 1
    requires forall k | 0 <= k < |ws| :: IsWord(ws[k])
    requires forall k | 0 <= k < |g| :: g[k] >= 1
    requires SumLengths(ws) + SumNats(g) <= lineLength
    requires SumLengths(ws) + (|ws| - 1) * q + e == lineLength && e < |ws| - 1
    ensures Justified(Interleave(ws, g), lineLength) == Interleave(ws, Gaps(|ws| - 1, q, e))
  {
    WordsOfInterleave(ws, g);
    InterleaveLength(ws, g);
    DivisionUnique(lineLength - SumLengths(ws), |ws| - 1, q, e);
  }

  /** Justifying a justified line changes nothing. */
  lemma JustifiedIdempotent(text: string, lineLength: int)
    ensures Justified(Justified(text, lineLength), lineLength) == Justified(text, lineLength)
  {
    JustifiedShape(text, lineLength);
  }

  // ---------------------------------------------------------------- Justify

  /**
   * Program.Justify, following the C# step by step: split into words, total their
   * lengths, divide the remaining spaces by the number of gaps, then pad each word but
   * the last, handing one extra space to each of the first `numSpace % gaps` words.
   */
  method Justify(textToJustify: string, lineLength: int) returns (r: string)
    ensures r == Justified(textToJustify, lineLength)
  {
    if lineLength < |textToJustify| {
      return textToJustify;
    }
    var wordList := Words(textToJustify);
    ghost var words := wordList;
    var totalWords := |wordList|;
    if totalWords < 2 {
      return textToJustify;
    }

    var numWordCharacters := 0;
    var k := 0;
    while k < totalWords
      invariant k <= totalWords
      invariant numWordCharacters + SumLengths(wordList[k..]) == SumLengths(wordList)
    {
      assert wordList[k..][1..] == wordList[k + 1..];
      numWordCharacters := numWordCharacters + |wordList[k]|;
      k := k + 1;
    }

    var numSpaceCharacters := lineLength - numWordCharacters;
    WordsFit(textToJustify);
    var spacesAfterEachWord := numSpaceCharacters / (totalWords - 1);
    var extraSpaces := numSpaceCharacters % (totalWords - 1);
    ghost var e0 := extraSpaces;
    ghost var gaps := Gaps(totalWords - 1, spacesAfterEachWord, e0);

    var i := 0;
    while i < totalWords - 1
      invariant 0 <= i <= totalWords - 1 && |wordList| == totalWords
      invariant extraSpaces == if i < e0 then e0 - i else 0
      invariant forall m | 0 <= m < i :: wordList[m] == words[m] + Spaces(gaps[m])
      invariant forall m | i <= m < totalWords :: wordList[m] == words[m]
    {
      if extraSpaces > 0 {
        wordList := wordList[i := wordList[i] + " "];
        extraSpaces := extraSpaces - 1;
      }
      wordList := wordList[i := PadRight(wordList[i], |wordList[i]| + spacesAfterEachWord)];
      assert wordList[i] == words[i] + Spaces(gaps[i]);
      i := i + 1;
    }
    r := Concat(wordList);
    ConcatPadded(words, gaps, wordList);
  }

  // ---------------------------------------------------------------- RunTests

  /*
   * Program.RunTests, one method per test. Each test line is written as its words and the
   * runs of spaces between them, and each expected line as the same words with the runs
   * of spaces the test expects; the line length is 52 throughout.
   */

  const TestLineLength := 52

  const MyString: seq<string> := ["my", "string"]
  const MySecondString: seq<string> := ["my", "second", "string"]
  const MySecondStringAgain: seq<string> := ["my", "second", "string", "again"]
  const MatchesExactly: seq<string> := ["This", "string", "matches", "the", "input", "line", "length", "exactly!!!"]
  const ExceedsBy10: seq<string> := ["This", "string", "exceeds", "the", "input", "line", "length", "by", "10", "characters!!!!"]
  const WeirdSpacing: seq<string> := ["This", "string", "has", "weird", "spacing", "to", "start."]
  const LazyDog: seq<string> := ["The", "quick", "brown", "fox", "jumps", "over", "the", "lazy", "dog."]
  const LazyDogs: seq<string> := ["The", "quick", "brown", "fox", "jumps", "over", "the", "lazy", "dogs."]

  /** The spacing of the weird-spacing line: 3, 1, 7, 3, 2 and 1 spaces. */
  const WeirdGaps: seq<nat> := [3, 1, 7, 3, 2, 1]

  lemma MyStringWords()
    ensures forall k | 0 <= k < |MyString| :: IsWord(MyString[k])
  {
  }

  lemma MyStringLength()
    ensures SumLengths(MyString) == 8
  {
  }

  lemma MySecondStringWords()
    ensures forall k | 0 <= k < |MySecondString| :: IsWord(MySecondString[k])
  {
  }

  lemma MySecondStringLength()
    ensures SumLengths(MySecondString) == 14
  {
  }

  lemma MySecondStringAgainWords()
    ensures forall k | 0 <= k < |MySecondStringAgain| :: IsWord(MySecondStringAgain[k])
  {
  }

  lemma MySecondStringAgainLength()
    ensures SumLengths(MySecondStringAgain) == 19
  {
  }

  lemma MatchesExactlyWords()
    ensures forall k | 0 <= k < |MatchesExactly| :: IsWord(MatchesExactly[k])
  {
  }

  lemma MatchesExactlyLength()
    ensures SumLengths(MatchesExactly) == 45
  {
  }

  lemma ExceedsBy10Length()
    ensures SumLengths(ExceedsBy10) == 53
  {
  }

  lemma WeirdSpacingWords()
    ensures forall k | 0 <= k < |WeirdSpacing| :: IsWord(WeirdSpacing[k])
  {
  }

  lemma WeirdSpacingLength()
    ensures SumLengths(WeirdSpacing) == 33
    ensures SumNats(WeirdGaps) == 17
  {
  }

  lemma LazyDogWords()
    ensures forall k | 0 <= k < |LazyDog| :: IsWord(LazyDog[k])
  {
  }

  lemma LazyDogLength()
    ensures SumLengths(LazyDog) == 36
  {
  }

  lemma LazyDogsWords()
    ensures forall k | 0 <= k < |LazyDogs| :: IsWord(LazyDogs[k])
  {
  }

  lemma LazyDogsLength()
    ensures SumLengths(LazyDogs) == 37
  {
  }

  /**
   * Justifies the words `ws` laid out with the gaps `g`, when they fit: the result has the
   * same words with `q` spaces per gap, the first `e` gaps one wider.
   */
  method JustifyWords(ws: seq<string>, g: seq<nat>, lineLength: int, ghost q: nat, ghost e: nat) returns (r: string)
    requires |ws| >= 2 && |g| == |ws| - 1
    requires forall k | 0 <= k < |ws| :: IsWord(ws[k])
    requires forall k | 0 <= k < |g| :: g[k] >= 1
    requires SumLengths(ws) + SumNats(g) <= lineLength
    requires SumLengths(ws) + (|ws| - 1) * q + e == lineLength && e < |ws| - 1
    ensures r == Interleave(ws, Gaps(|ws| - 1, q, e))
  {
    r := Justify(Interleave(ws, g), lineLength);
    JustifiedSpread(ws, g, lineLength, q, e);
  }

  /** Test 01: a single word is left alone. */
  method Test01() returns (r: string)
    ensures r == "ASingleWord"
  {
    WordsAfterWord("ASingleWord", []);
    assert "ASingleWord" + [] == "ASingleWord";
    r := Justify("ASingleWord", TestLineLength);
  }

  /** Test 02: two words end up at the two margins, 44 spaces apart. */
  method Test02() returns (r: string)
    ensures r == Interleave(MyString, Gaps(1, 44, 0))
  {
    MyStringWords();
    MyStringLength();
    SumOfGaps(1, 1, 0);
    r := JustifyWords(MyString, Gaps(1, 1, 0), TestLineLength, 44, 0);
  }

  /** Test 03: three words, 38 spaces in two gaps of 19. */
  method Test03() returns (r: string)
    ensures r == Interleave(MySecondString, Gaps(2, 19, 0))
  {
    MySecondStringWords();
    MySecondStringLength();
    SumOfGaps(2, 1, 0);
    r := JustifyWords(MySecondString, Gaps(2, 1, 0), TestLineLength, 19, 0);
  }

  /** Test 04: four words, 33 spaces in three gaps of 11. */
  method Test04() returns (r: string)
    ensures r == Interleave(MySecondStringAgain, Gaps(3, 11, 0))
  {
    MySecondStringAgainWords();
    MySecondStringAgainLength();
    SumOfGaps(3, 1, 0);
    r := JustifyWords(MySecondStringAgain, Gaps(3, 1, 0), TestLineLength, 11, 0);
  }

  /** Test 05: a single-spaced line of exactly 52 characters is already justified. */
  method Test05() returns (r: string)
    ensures r == Interleave(MatchesExactly, Gaps(7, 1, 0))
  {
    MatchesExactlyWords();
    MatchesExactlyLength();
    SumOfGaps(7, 1, 0);
    r := JustifyWords(MatchesExactly, Gaps(7, 1, 0), TestLineLength, 1, 0);
  }

  /** Test 06: a single-spaced line of 62 characters is too long and is left alone. */
  method Test06() returns (r: string)
    ensures |Interleave(ExceedsBy10, Gaps(9, 1, 0))| == 62
    ensures r == Interleave(ExceedsBy10, Gaps(9, 1, 0))
  {
    ExceedsBy10Length();
    SumOfGaps(9, 1, 0);
    InterleaveLength(ExceedsBy10, Gaps(9, 1, 0));
    r := Justify(Interleave(ExceedsBy10, Gaps(9, 1, 0)), TestLineLength);
  }

  /** Test 07: oddly spaced words are respaced: 19 spaces in six gaps, the first one wider. */
  method Test07() returns (r: string)
    ensures r == Interleave(WeirdSpacing, Gaps(6, 3, 1))
  {
    WeirdSpacingWords();
    WeirdSpacingLength();
    r := JustifyWords(WeirdSpacing, WeirdGaps, TestLineLength, 3, 1);
  }

  /** Test 08: a line of ten spaces has no words and is left alone. */
  method Test08() returns (r: string)
    ensures r == Spaces(10)
  {
    WordsAfterSpaces(10, []);
    assert Spaces(10) + [] == Spaces(10);
    r := Justify(Spaces(10), TestLineLength);
  }

  /** Test 09: nine words, 16 spaces in eight gaps of two. */
  method Test09() returns (r: string)
    ensures r == Interleave(LazyDog, Gaps(8, 2, 0))
  {
    LazyDogWords();
    LazyDogLength();
    SumOfGaps(8, 1, 0);
    r := JustifyWords(LazyDog, Gaps(8, 1, 0), TestLineLength, 2, 0);
  }

  /** Test 10: one letter more leaves 15 spaces: seven gaps of two, then one of one. */
  method Test10() returns (r: string)
    ensures r == Interleave(LazyDogs, Gaps(8, 1, 7))
  {
    LazyDogsWords();
    LazyDogsLength();
    SumOfGaps(8, 1, 0);
    r := JustifyWords(LazyDogs, Gaps(8, 1, 0), TestLineLength, 1, 7);
  }
}
