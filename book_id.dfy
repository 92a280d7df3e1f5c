/**
 * Book identifiers.  The library accepts an id only when the whole string
 * matches the regular expression  ^[A-Za-z]\d{4}$ , checked with
 * std::regex_match.  The regex engine itself is not modelled: the fixed
 * pattern is written as a sequence of character classes, and an anchored
 * matcher checks a string against it.
 */
module BookId {

  /** The two character classes the pattern uses: [A-Za-z] and \d. */
  datatype CharClass = Letter | Digit

  predicate IsAsciiLetter(c: char) {
    ('A' <= c <= 'Z') || ('a' <= c <= 'z')
  }

  /** \d in the "C" locale: exactly the ASCII digits. */
  predicate IsAsciiDigit(c: char) {
    '0' <= c <= '9'
  }

  predicate InClass(cc: CharClass, c: char) {
    match cc
    case Letter => IsAsciiLetter(c)
    case Digit => IsAsciiDigit(c)
  }

  /** \d{4}: the atom repeated n times. */
  function Repeat(cc: CharClass, n: nat): (p: seq<CharClass>)
    ensures |p| == n
    ensures forall i :: 0 <= i < n ==> p[i] == cc
  {
    if n == 0 then [] else [cc] + Repeat(cc, n - 1)
  }

  /** The pattern  [A-Za-z]\d{4}  as a sequence of single-character atoms. */
  function BookIdPattern(): seq<CharClass> {
    [Letter] + Repeat(Digit, 4)
  }

  /**
   * Anchored matching (the ^ and $ of the pattern, and regex_match's
   * whole-string rule): every atom consumes one character and nothing is
   * left over on either side.
   */
  predicate Matches(p: seq<CharClass>, s: string) {
    if p == [] then s == []
    else s != [] && InClass(p[0], s[0]) && Matches(p[1..], s[1..])
  }

  /** Library::isValidBookId */
  predicate IsValidBookId(id: string) {
    Matches(BookIdPattern(), id)
  }

  /** An anchored pattern of single-character atoms matches exactly the strings of its length whose characters fall in the atoms' classes, position by position. */
  lemma {:induction false} MatchesIff(p: seq<CharClass>, s: string)
    ensures Matches(p, s) <==> |p| == |s| && forall i :: 0 <= i < |p| ==> InClass(p[i], s[i])
  {
    if p != [] && s != [] {
      MatchesIff(p[1..], s[1..]);
      if |p| == |s| && forall i :: 0 <= i < |p| ==> InClass(p[i], s[i]) {
        assert forall i :: 0 <= i < |p| - 1 ==> InClass(p[1..][i], s[1..][i]) by {
          forall i | 0 <= i < |p| - 1 ensures InClass(p[1..][i], s[1..][i]) {
            assert InClass(p[i + 1], s[i + 1]);
          }
        }
      }
      if Matches(p, s) {
        forall i | 0 <= i < |p| ensures InClass(p[i], s[i]) {
          if i > 0 {
            assert InClass(p[1..][i - 1], s[1..][i - 1]);
          }
        }
      }
    }
  }

  /** A book id is valid iff it has five characters: one ASCII letter, then four ASCII digits. */
  lemma ValidBookIdIff(id: string)
    ensures IsValidBookId(id) <==>
      |id| == 5 && IsAsciiLetter(id[0]) && forall i :: 1 <= i < 5 ==> IsAsciiDigit(id[i])
  {
    var p := BookIdPattern();
    MatchesIff(p, id);
    assert p[0] == Letter;
    assert forall i :: 1 <= i < 5 ==> p[i] == Digit by {
      forall i | 1 <= i < 5 ensures p[i] == Digit {
        assert p[i] == Repeat(Digit, 4)[i - 1];
      }
    }
  }

  /** A letter followed by four digits is a valid id. */
  lemma LetterAndDigitsValid(l: char, d1: char, d2: char, d3: char, d4: char)
    requires IsAsciiLetter(l)
    requires IsAsciiDigit(d1) && IsAsciiDigit(d2) && IsAsciiDigit(d3) && IsAsciiDigit(d4)
    ensures IsValidBookId([l, d1, d2, d3, d4])
  {
    ValidBookIdIff([l, d1, d2, d3, d4]);
  }

  /** The two ids of the add-book scenario: "x123" is refused (three digits), "X1234" is accepted. */
  lemma AddBookScenarioIds()
    ensures !IsValidBookId("x123")
    ensures IsValidBookId("X1234")
  {
    ValidBookIdIff("x123");
    ValidBookIdIff("X1234");
  }
}
