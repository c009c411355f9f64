// The vowel/consonant counting loop of corelanguage/practicequestions.js:
// lower-case the string, then count the characters in "aeiou" as vowels and
// the other characters between 'a' and 'z' as consonants.
module LetterCount {

  /** `"aeiou".includes(char)` for a one-character `char`. */
  predicate IsVowel(c: char) {
    c in "aeiou"
  }

  /** What reaches `consonants++`: not a vowel, and `char >= "a" && char <= "z"`. */
  predicate IsConsonant(c: char) {
    !IsVowel(c) && 'a' <= c <= 'z'
  }

  /** A letter of the English alphabet in either case. */
  predicate IsAsciiLetter(c: char) {
    'a' <= c <= 'z' || 'A' <= c <= 'Z'
  }

  /** A vowel in either case. */
  predicate IsVowelLetter(c: char) {
    c == 'a' || c == 'e' || c == 'i' || c == 'o' || c == 'u' ||
    c == 'A' || c == 'E' || c == 'I' || c == 'O' || c == 'U'
  }

  /** A consonant in either case. */
  predicate IsConsonantLetter(c: char) {
    IsAsciiLetter(c) && !IsVowelLetter(c)
  }

  /** `toLowerCase` on one character, for the letters 'A' to 'Z'. */
  function LowerChar(c: char): (l: char) {
    if 'A' <= c <= 'Z' then (c as int + 32) as char else c
  }

  /** `string.toLowerCase()`. */
  function ToLowerCase(s: string): (lower: string) {
    seq(|s|, i requires 0 <= i < |s| => LowerChar(s[i]))
  }

  /** The number of characters of `s` that satisfy `p`. */
  function Tally(s: string, p: char -> bool): (n: nat)
    ensures n <= |s|
  {
    if s == [] then 0 else (if p(s[0]) then 1 else 0) + Tally(s[1..], p)
  }

  /** Tallies add up over a concatenation. */
  lemma {:induction false} TallyAppend(s: string, t: string, p: char -> bool)
    ensures Tally(s + t, p) == Tally(s, p) + Tally(t, p)
  {
    if s == [] {
      assert s + t == t;
    } else {
      assert (s + t)[1..] == s[1..] + t;
      TallyAppend(s[1..], t, p);
    }
  }

  /** Two disjoint classes together tally their union. */
  lemma {:induction false} TallySplit(s: string, p: char -> bool, q: char -> bool, r: char -> bool)
    requires forall c :: r(c) == (p(c) || q(c))
    requires forall c :: !(p(c) && q(c))
    ensures Tally(s, p) + Tally(s, q) == Tally(s, r)
  {
    if s != [] {
      TallySplit(s[1..], p, q, r);
    }
  }

  /** Tallying the lower-cased string by `p` is tallying the original by `q`. */
  lemma {:induction false} TallyLowered(s: string, p: char -> bool, q: char -> bool)
    requires forall c :: p(LowerChar(c)) == q(c)
    ensures Tally(ToLowerCase(s), p) == Tally(s, q)
  {
    if s != [] {
      var lower := ToLowerCase(s);
      assert lower[1..] == ToLowerCase(s[1..]);
      TallyLowered(s[1..], p, q);
      assert lower[0] == LowerChar(s[0]);
    }
  }

  /** After lower-casing, a character is a vowel or a consonant exactly when it was a
      vowel or a consonant letter in either case. */
  lemma LowerCharClassified(c: char)
    ensures IsVowel(LowerChar(c)) == IsVowelLetter(c)
    ensures IsConsonant(LowerChar(c)) == IsConsonantLetter(c)
  {
  }

  /** Upper- and lower-case letters are counted alike. */
  lemma CountsIgnoreCase(s: string)
    ensures Tally(ToLowerCase(s), IsVowel) == Tally(s, IsVowelLetter)
    ensures Tally(ToLowerCase(s), IsConsonant) == Tally(s, IsConsonantLetter)
  {
    forall c: char
      ensures IsVowel(LowerChar(c)) == IsVowelLetter(c)
      ensures IsConsonant(LowerChar(c)) == IsConsonantLetter(c)
    {
      LowerCharClassified(c);
    }
    TallyLowered(s, IsVowel, IsVowelLetter);
    TallyLowered(s, IsConsonant, IsConsonantLetter);
  }

  /** Every letter is counted exactly once; spaces and other characters add to neither. */
  lemma CountsCoverLetters(s: string)
    ensures Tally(ToLowerCase(s), IsVowel) + Tally(ToLowerCase(s), IsConsonant) == Tally(s, IsAsciiLetter)
    ensures Tally(ToLowerCase(s), IsVowel) + Tally(ToLowerCase(s), IsConsonant) <= |s|
  {
    CountsIgnoreCase(s);
    forall c: char
      ensures IsAsciiLetter(c) == (IsVowelLetter(c) || IsConsonantLetter(c))
      ensures !(IsVowelLetter(c) && IsConsonantLetter(c))
    {
    }
    TallySplit(s, IsVowelLetter, IsConsonantLetter, IsAsciiLetter);
  }

  /** The loop `for (let char of string.toLowerCase())` with its two counters. */
  method CountVowelsAndConsonants(s: string) returns (vowels: nat, consonants: nat)
    ensures vowels == Tally(ToLowerCase(s), IsVowel)
    ensures consonants == Tally(ToLowerCase(s), IsConsonant)
  {
    var lower := ToLowerCase(s);
    vowels, consonants := 0, 0;
    var i := 0;
    while i < |lower|
      invariant 0 <= i <= |lower|
      invariant vowels + Tally(lower[i..], IsVowel) == Tally(lower, IsVowel)
      invariant consonants + Tally(lower[i..], IsConsonant) == Tally(lower, IsConsonant)
    {
      var ch := lower[i];
      assert lower[i..][1..] == lower[i + 1..];
      if ch in "aeiou" {
        vowels := vowels + 1;
      } else if 'a' <= ch <= 'z' {
        consonants := consonants + 1;
      }
      i := i + 1;
    }
  }

  /** "Hello World": three vowels and seven consonants. */
  lemma HelloWorldCounts()
    ensures Tally(ToLowerCase("Hello" + " World"), IsVowel) == 3
    ensures Tally(ToLowerCase("Hello" + " World"), IsConsonant) == 7
  {
    assert Tally("Hello", IsVowelLetter) == 2 && Tally("Hello", IsConsonantLetter) == 3;
    assert Tally(" World", IsVowelLetter) == 1 && Tally(" World", IsConsonantLetter) == 4;
    CountsIgnoreCase("Hello" + " World");
    TallyAppend("Hello", " World", IsVowelLetter);
    TallyAppend("Hello", " World", IsConsonantLetter);
  }

  /** "Hello World SMita": five vowels and ten consonants. */
  lemma HelloWorldSMitaCounts()
    ensures Tally(ToLowerCase("Hello" + " World" + " SMita"), IsVowel) == 5
    ensures Tally(ToLowerCase("Hello" + " World" + " SMita"), IsConsonant) == 10
  {
    HelloWorldCounts();
    CountsIgnoreCase("Hello" + " World");
    assert Tally(" SMita", IsVowelLetter) == 2 && Tally(" SMita", IsConsonantLetter) == 3;
    CountsIgnoreCase("Hello" + " World" + " SMita");
    TallyAppend("Hello" + " World", " SMita", IsVowelLetter);
    TallyAppend("Hello" + " World", " SMita", IsConsonantLetter);
  }

  /** The loop on `const string = "Hello World SMita"`, as lines 115-124 would run it. */
  method CountScriptString() returns (vowels: nat, consonants: nat)
    ensures vowels == 5 && consonants == 10
  {
    vowels, consonants := CountVowelsAndConsonants("Hello World SMita");
    assert "Hello World SMita" == "Hello" + " World" + " SMita";
    HelloWorldSMitaCounts();
  }
}
