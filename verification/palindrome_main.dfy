/**
 * The palindrome checker's Main (PalindromeChecker/Program.cs): the five strings it checks
 * and the answers it expects.
 *
 * The three longer test strings are sentences: words of kept characters separated by single
 * spaces. A sentence condenses to its words run together, so each check comes down to whether
 * that run of words is mirrored. The lemmas about one test string take the literals as
 * parameters and establish one fact each.
 */
module PalindromeMain {
  import opened PalindromeChecker

  // ---------------------------------------------------------------- sentences

  /** Every character of `w` is kept. */
  predicate KeptOnly(w: string) {
    forall k | 0 <= k < |w| :: Kept(w[k])
  }

  /** The words separated by single spaces. */
  function Sentence(ws: seq<string>): string {
    if |ws| == 0 then "" else if |ws| == 1 then ws[0] else ws[0] + " " + Sentence(ws[1..])
  }

  /** The words run together. */
  function Glued(ws: seq<string>): string {
    if |ws| == 0 then "" else ws[0] + Glued(ws[1..])
  }

  /** A sentence of words of kept characters condenses to its words run together. */
  lemma {:induction false} CondenseSentence(ws: seq<string>)
    requires forall i | 0 <= i < |ws| :: KeptOnly(ws[i])
    ensures Condense(Sentence(ws)) == Glued(ws)
  {
    if |ws| == 1 {
      CondenseKept(ws[0], 0);
      assert Glued(ws) == ws[0] + Glued([]);
    } else if |ws| > 1 {
      var w, rest := ws[0], ws[1..];
      CondenseKept(w, 0);
      CondenseAppend(w + " ", Sentence(rest));
      CondenseAppend(w, " ");
      assert Condense(" ") == [];
      CondenseSentence(rest);
    }
  }

  /** Whether a sentence is a palindrome is whether its words, run together, are mirrored. */
  lemma PalindromicSentence(s: string, ws: seq<string>, t: string)
    requires forall i | 0 <= i < |ws| :: KeptOnly(ws[i])
    requires s == Sentence(ws) && t == Glued(ws)
    ensures Palindromic(s) <==> Mirrored(t)
  {
    CondenseSentence(ws);
  }

  /** A sentence of four words, spelled out. */
  lemma SentenceOfFour(a: string, b: string, c: string, d: string)
    ensures Sentence([a, b, c, d]) == a + " " + b + " " + c + " " + d
    ensures Glued([a, b, c, d]) == a + b + c + d
  {
    assert [a, b, c, d][1..] == [b, c, d] && [b, c, d][1..] == [c, d] && [c, d][1..] == [d];
    assert Sentence([c, d]) == c + " " + d;
    assert Sentence([b, c, d]) == b + " " + (c + " " + d);
    assert Sentence([a, b, c, d]) == a + " " + (b + " " + (c + " " + d));
    assert Glued([d]) == d + Glued([]) == d;
    assert Glued([c, d]) == c + d;
    assert Glued([b, c, d]) == b + (c + d);
    assert Glued([a, b, c, d]) == a + (b + (c + d));
  }

  // ---------------------------------------------------------------- the five checks

  lemma CheckAbcba(s: string)
    requires s == "abcba"
    ensures Palindromic(s)
  {
    assert Condense("abcba") == "abcba";
    MatchesMirrored(s);
  }

  lemma CheckAbcde(s: string)
    requires s == "abcde"
    ensures !Palindromic(s)
  {
    assert Condense("abcde") == "abcde";
    MatchesMirrored(s);
  }

  lemma MrOwlSentence(s: string, ws: seq<string>)
    requires s == "Mr owl ate my metal worm" && ws == ["Mr", "owl", "ate", "my", "metal", "worm"]
    ensures s == Sentence(ws)
  {
    assert "Mr owl ate my metal worm" == Sentence(["Mr", "owl", "ate", "my", "metal", "worm"]);
  }

  lemma MrOwlGlued(t: string, ws: seq<string>)
    requires t == "Mrowlatemymetalworm" && ws == ["Mr", "owl", "ate", "my", "metal", "worm"]
    ensures t == Glued(ws)
  {
    assert "Mrowlatemymetalworm" == Glued(["Mr", "owl", "ate", "my", "metal", "worm"]);
  }

  lemma MrOwlMirrored(t: string)
    requires t == "Mrowlatemymetalworm"
    ensures Mirrored(t)
  {
    MatchesMirrored(t);
  }

  lemma CheckMrOwlWords(s: string, ws: seq<string>, t: string)
    requires s == "Mr owl ate my metal worm" && ws == ["Mr", "owl", "ate", "my", "metal", "worm"]
    requires t == "Mrowlatemymetalworm"
    ensures Palindromic(s)
  {
    MrOwlSentence(s, ws);
    MrOwlGlued(t, ws);
    MrOwlMirrored(t);
    PalindromicSentence(s, ws, t);
  }

  lemma CheckMrOwl(s: string)
    requires s == "Mr owl ate my metal worm"
    ensures Palindromic(s)
  {
    CheckMrOwlWords(s, ["Mr", "owl", "ate", "my", "metal", "worm"], "Mrowlatemymetalworm");
  }

  lemma NeverOddOrEvenMirrored(t: string)
    requires t == "NeverOddOrEven"
    ensures Mirrored(t)
  {
    MatchesMirrored(t);
  }

  lemma CheckNeverOddOrEvenWords(s: string, ws: seq<string>, t: string)
    requires s == "Never Odd Or Even" && ws == ["Never", "Odd", "Or", "Even"]
    requires t == "NeverOddOrEven"
    ensures Palindromic(s)
  {
    SentenceOfFour(ws[0], ws[1], ws[2], ws[3]);
    assert ws == [ws[0], ws[1], ws[2], ws[3]];
    NeverOddOrEvenMirrored(t);
    PalindromicSentence(s, ws, t);
  }

  lemma CheckNeverOddOrEven(s: string)
    requires s == "Never Odd Or Even"
    ensures Palindromic(s)
  {
    CheckNeverOddOrEvenWords(s, ["Never", "Odd", "Or", "Even"], "NeverOddOrEven");
  }

  lemma NeverEvenOrOddNotMirrored(t: string)
    requires t == "NeverEvenOrOdd"
    ensures !Mirrored(t)
  {
    MatchesMirrored(t);
  }

  lemma CheckNeverEvenOrOddWords(s: string, ws: seq<string>, t: string)
    requires s == "Never Even Or Odd" && ws == ["Never", "Even", "Or", "Odd"]
    requires t == "NeverEvenOrOdd"
    ensures !Palindromic(s)
  {
    SentenceOfFour(ws[0], ws[1], ws[2], ws[3]);
    assert ws == [ws[0], ws[1], ws[2], ws[3]];
    NeverEvenOrOddNotMirrored(t);
    PalindromicSentence(s, ws, t);
  }

  lemma CheckNeverEvenOrOdd(s: string)
    requires s == "Never Even Or Odd"
    ensures !Palindromic(s)
  {
    CheckNeverEvenOrOddWords(s, ["Never", "Even", "Or", "Odd"], "NeverEvenOrOdd");
  }

  /** Program.Main: the five checks, each of which passes. */
  method RunChecks() returns (passes: seq<bool>)
    ensures passes == [true, true, true, true, true]
  {
    var s1, s2, s3, s4, s5 := "abcba", "abcde", "Mr owl ate my metal worm", "Never Odd Or Even", "Never Even Or Odd";
    CheckAbcba(s1);
    CheckAbcde(s2);
    CheckMrOwl(s3);
    CheckNeverOddOrEven(s4);
    CheckNeverEvenOrOdd(s5);
    var p1 := Check(s1, true);
    var p2 := Check(s2, false);
    var p3 := Check(s3, true);
    var p4 := Check(s4, true);
    var p5 := Check(s5, false);
    passes := [p1, p2, p3, p4, p5];
  }
}
