// `reverseStringWord` of corelanguage/practicequestions.js: split on a single
// space, reverse the characters of each word, join again with a single space.
// A Dafny `char` stands for one element of the JavaScript string, so
// `split("")` is the sequence of characters itself.
module WordReversal {

  /** `str.split("").reverse().join("")`: the characters in reverse order. */
  function Reverse(s: string): (r: string)
    ensures |r| == |s|
    ensures forall i :: 0 <= i < |s| ==> r[i] == s[|s| - 1 - i]
  {
    if s == [] then [] else Reverse(s[1..]) + [s[0]]
  }

  /** Reversing twice gives back the word. */
  lemma ReverseReverse(s: string)
    ensures Reverse(Reverse(s)) == s
  {
  }

  /** `s.split(" ")`: the pieces between spaces; never empty, "" gives [""]. */
  function Split(s: string): (words: seq<string>)
    ensures |words| >= 1
  {
    if s == [] then [[]]
    else
      var rest := Split(s[1..]);
      if s[0] == ' ' then [[]] + rest
      else [[s[0]] + rest[0]] + rest[1..]
  }

  /** No piece of a split contains a space. */
  lemma {:induction false} SplitSpaceFree(s: string)
    ensures forall w :: w in Split(s) ==> ' ' !in w
  {
    if s != [] {
      SplitSpaceFree(s[1..]);
      var rest := Split(s[1..]);
      if s[0] != ' ' {
        assert rest[0] in rest;
        assert forall w :: w in rest[1..] ==> w in rest;
      }
    }
  }

  /** `words.join(" ")`: the words with one space between neighbours. */
  function Join(words: seq<string>): (s: string) {
    if |words| == 0 then []
    else if |words| == 1 then words[0]
    else words[0] + " " + Join(words[1..])
  }

  /** `.map((i) => ...reverse...)`: each word reversed, in place. */
  function ReverseEach(words: seq<string>): (reversed: seq<string>) {
    seq(|words|, j requires 0 <= j < |words| => Reverse(words[j]))
  }

  /** `reverseStringWord(string)`. */
  function ReverseStringWord(s: string): (reversedString: string) {
    Join(ReverseEach(Split(s)))
  }

  /** Joining the pieces of a split gives back the string. */
  lemma {:induction false} JoinSplit(s: string)
    ensures Join(Split(s)) == s
  {
    if s != [] {
      var rest := Split(s[1..]);
      JoinSplit(s[1..]);
      if s[0] == ' ' {
        assert Split(s) == [[]] + rest;
        assert ([[]] + rest)[1..] == rest;
        assert s == [s[0]] + s[1..];
      } else if |rest| == 1 {
        assert Split(s) == [[s[0]] + rest[0]];
        assert s == [s[0]] + s[1..];
      } else {
        assert Split(s) == [[s[0]] + rest[0]] + rest[1..];
        assert ([[s[0]] + rest[0]] + rest[1..])[1..] == rest[1..];
        assert Join(rest) == rest[0] + " " + Join(rest[1..]);
        assert s == [s[0]] + s[1..];
      }
    }
  }

  /** Splitting a space-free word followed by `t` glues the word to the first piece of `t`. */
  lemma {:induction false} SplitWordPrefix(w: string, t: string)
    requires ' ' !in w
    ensures Split(w + t) == [w + Split(t)[0]] + Split(t)[1..]
  {
    if w != [] {
      assert w[0] in w;
      assert (w + t)[0] == w[0] && (w + t)[1..] == w[1..] + t;
      SplitWordPrefix(w[1..], t);
      var rest := Split(w[1..] + t);
      assert Split(w + t) == [[w[0]] + rest[0]] + rest[1..];
      assert rest[0] == w[1..] + Split(t)[0] && rest[1..] == Split(t)[1..];
      assert [w[0]] + (w[1..] + Split(t)[0]) == w + Split(t)[0];
      assert w == [w[0]] + w[1..];
    } else {
      assert w + t == t;
      assert w + Split(t)[0] == Split(t)[0];
      assert Split(t) == [Split(t)[0]] + Split(t)[1..];
    }
  }

  /** Splitting the join of space-free words gives back the words. */
  lemma {:induction false} SplitJoin(words: seq<string>)
    requires |words| >= 1
    requires forall w :: w in words ==> ' ' !in w
    ensures Split(Join(words)) == words
  {
    if |words| == 1 {
      SplitWordPrefix(words[0], []);
      assert words[0] + [] == words[0];
    } else {
      var tail := Join(words[1..]);
      assert words[0] in words;
      SplitJoin(words[1..]);
      assert words[0] + " " + tail == words[0] + (" " + tail);
      SplitWordPrefix(words[0], " " + tail);
      assert (" " + tail)[1..] == tail;
      assert Split(" " + tail) == [[]] + Split(tail);
      assert words[0] + [] == words[0];
      assert words == [words[0]] + words[1..];
    }
  }

  /** Reversing each word keeps the length of the joined text. */
  lemma {:induction false} JoinReverseEachLength(words: seq<string>)
    ensures |Join(ReverseEach(words))| == |Join(words)|
  {
    if |words| >= 2 {
      JoinReverseEachLength(words[1..]);
      assert ReverseEach(words)[1..] == ReverseEach(words[1..]);
    }
  }

  /** The result is as long as the input. */
  lemma ReverseStringWordLength(s: string)
    ensures |ReverseStringWord(s)| == |s|
  {
    JoinReverseEachLength(Split(s));
    JoinSplit(s);
  }

  /** Word j of the result is word j of the input reversed, and there are as many words. */
  lemma ReverseStringWordWords(s: string)
    ensures Split(ReverseStringWord(s)) == ReverseEach(Split(s))
    ensures |Split(ReverseStringWord(s))| == |Split(s)|
    ensures forall j :: 0 <= j < |Split(s)| ==>
              Split(ReverseStringWord(s))[j] == Reverse(Split(s)[j])
  {
    var reversed := ReverseEach(Split(s));
    SplitSpaceFree(s);
    forall w | w in reversed
      ensures ' ' !in w
    {
      var j :| 0 <= j < |reversed| && reversed[j] == w;
      assert Split(s)[j] in Split(s);
    }
    SplitJoin(reversed);
  }

  /** Reversing every word twice gives back the text. */
  lemma ReverseStringWordInvolution(s: string)
    ensures ReverseStringWord(ReverseStringWord(s)) == s
  {
    ReverseStringWordWords(s);
    var words := Split(s);
    assert ReverseEach(ReverseEach(words)) == words by {
      forall j | 0 <= j < |words|
        ensures ReverseEach(ReverseEach(words))[j] == words[j]
      {
        ReverseReverse(words[j]);
      }
    }
    JoinSplit(s);
  }

  /** Splitting at a space splits the two sides separately. */
  lemma {:induction false} SplitAtSpace(a: string, b: string)
    ensures Split(a + " " + b) == Split(a) + Split(b)
  {
    if a == [] {
      assert a + " " + b == [' '] + b;
    } else {
      assert (a + " " + b)[1..] == a[1..] + " " + b;
      SplitAtSpace(a[1..], b);
    }
  }

  /** Joining two non-empty lists of words puts one space between their joins. */
  lemma {:induction false} JoinAppend(xs: seq<string>, ys: seq<string>)
    requires |xs| >= 1 && |ys| >= 1
    ensures Join(xs + ys) == Join(xs) + " " + Join(ys)
  {
    if |xs| == 1 {
      assert (xs + ys)[1..] == ys;
    } else {
      assert (xs + ys)[1..] == xs[1..] + ys;
      JoinAppend(xs[1..], ys);
    }
  }

  /** The text on either side of a space is reversed word by word independently. */
  lemma ReverseStringWordAtSpace(a: string, b: string)
    ensures ReverseStringWord(a + " " + b) == ReverseStringWord(a) + " " + ReverseStringWord(b)
  {
    SplitAtSpace(a, b);
    assert ReverseEach(Split(a) + Split(b)) == ReverseEach(Split(a)) + ReverseEach(Split(b));
    JoinAppend(ReverseEach(Split(a)), ReverseEach(Split(b)));
  }

  /** A text without spaces is a single word and is simply reversed. */
  lemma ReverseStringWordOneWord(w: string)
    requires ' ' !in w
    ensures ReverseStringWord(w) == Reverse(w)
  {
    SplitJoin([w]);
    assert ReverseEach([w]) == [Reverse(w)];
  }

  /** The three words of `const string`, reversed character by character. */
  lemma ScriptWordsReversed()
    ensures Reverse("Hello") == "olleH" && Reverse("World") == "dlroW" && Reverse("SMita") == "atiMS"
  {
  }

  /** "Hello World" becomes "olleH dlroW". */
  lemma HelloWorld()
    ensures ReverseStringWord("Hello" + " " + "World") == "olleH" + " " + "dlroW"
  {
    ScriptWordsReversed();
    ReverseStringWordAtSpace("Hello", "World");
    ReverseStringWordOneWord("Hello");
    ReverseStringWordOneWord("World");
  }

  /** The string of `const string`, "Hello World SMita", becomes "olleH dlroW atiMS". */
  lemma HelloWorldSMita()
    ensures ReverseStringWord("Hello" + " " + "World" + " " + "SMita") == "olleH" + " " + "dlroW" + " " + "atiMS"
  {
    HelloWorld();
    ScriptWordsReversed();
    ReverseStringWordAtSpace("Hello" + " " + "World", "SMita");
    ReverseStringWordOneWord("SMita");
  }
}
