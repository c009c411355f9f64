# BasicConcepts practice questions, in Dafny

This project models the executable exercises of `corelanguage/practicequestions.js`:

- **doubling map**: `arr.map((n) => n * 2)`;
- **range loop**: push `1..n` onto `numbers`;
- **`fizzbuzz`**: appends lower-case labels to the module-level array `fizbuzz`, which persists across calls;
- **`fizzBuzz`**: returns a fresh array of `"FizzBuzz"`/`"Fizz"`/`"Buzz"` or the number;
- **`reverseStringWord`**: split on one space, reverse each word, join with one space;
- **vowel/consonant loop**: lower-case a string, then count vowels and the other letters `a`..`z`.

The model has one module per exercise:

- `ArrayBasics` (array_basics.dfy);
- `FizzBuzz` (fizzbuzz.dfy);
- `WordReversal` (word_reversal.dfy);
- `LetterCount` (letter_count.dfy).

Each exercise keeps the form the source gives it:

- The map and the string pipeline are functions.
- The loops are methods with `while` loops and invariants.
- `fizzbuzz` and its global array form a class, `FizzBuzz.Accumulator`. Its method appends to the field `fizbuzz`.
- The script's own calls are separate members: `fizzbuzz(15)`, `fizzBuzz(15)` and `n = 10`. Further members apply `reverseStringWord` and the counting loop to `const string = "Hello World SMita"`; the script itself never reaches those lines (see "## Left out").

A JavaScript array of mixed labels and numbers is a `seq<FizzBuzz.Cell>`. A `Cell` is either `Word(text)` or `Number(value)`. JavaScript numbers are modelled as mathematical integers. A string is a `seq<char>`.

## Model

The operations themselves are these functions; the rows below name the lemmas and methods whose contracts state what they compute:

- `FizzBuzz.LowerCell`: the cell `fizzbuzz` pushes for `i` (corelanguage/practicequestions.js:17-25);
- `FizzBuzz.UpperCell`: the cell `fizzBuzz` pushes for `i` (corelanguage/practicequestions.js:35-41);
- `FizzBuzz.Respell`: the upper-case spelling of each lower-case label, relating the two variants;
- `WordReversal.Join`: `join(" ")` (corelanguage/practicequestions.js:88);
- `WordReversal.ReverseEach`: the `map` of line 87 (corelanguage/practicequestions.js:87);
- `WordReversal.ReverseStringWord`: `reverseStringWord` (corelanguage/practicequestions.js:84-90);
- `LetterCount.LowerChar` and `LetterCount.ToLowerCase`: `toLowerCase()` (corelanguage/practicequestions.js:118);
- `LetterCount.IsVowel`: the test `"aeiou".includes(char)` (corelanguage/practicequestions.js:119);
- `LetterCount.IsConsonant`: what reaches `consonants++` (corelanguage/practicequestions.js:121).

| member | source | states |
|---|---|---|
| `ArrayBasics.Doubled` | corelanguage/practicequestions.js:1-2 | the mapped array has the input's length and element i is twice input element i |
| `ArrayBasics.DoubledAppend` | corelanguage/practicequestions.js:2 | doubling a concatenation is the concatenation of the doubled parts (map acts element-wise) |
| `ArrayBasics.DoubledInjective` | corelanguage/practicequestions.js:2 | two arrays with the same doubling are equal: doubling loses no information |
| `ArrayBasics.DoubledEven` | corelanguage/practicequestions.js:2 | every element of a doubled array is even |
| `ArrayBasics.DoubledOneTwoThree` | corelanguage/practicequestions.js:1-2 | the script's `[1, 2, 3]` doubles to `[2, 4, 6]` |
| `ArrayBasics.Numbers` | corelanguage/practicequestions.js:5-10 | after the loop, `numbers` has length n (none when n <= 0) and `numbers[k] == k + 1` |
| `ArrayBasics.NumbersToTen` | corelanguage/practicequestions.js:5-10 | with `n = 10`, `numbers` is exactly `[1, ..., 10]` |
| `FizzBuzz.DivisibleBy15` | corelanguage/practicequestions.js:17-35 | `i % 15 == 0` exactly when `i % 3 == 0 && i % 5 == 0`, the two tests the variants use |
| `FizzBuzz.UpperCellClassified` | corelanguage/practicequestions.js:34-42 | `fizzBuzz`'s cell is "FizzBuzz" iff i is divisible by 3 and 5, "Fizz" iff by 3 only, "Buzz" iff by 5 only, and the number i iff by neither |
| `FizzBuzz.SameClassification` | corelanguage/practicequestions.js:17-41 | the cell `fizzbuzz` pushes for i, respelled, is the cell `fizzBuzz` pushes for i; a number stays a number in both |
| `FizzBuzz.FizzBuzz` | corelanguage/practicequestions.js:31-45 | the returned array has n elements (none when n <= 0) and element k is the classification of k + 1 |
| `FizzBuzz.FizzBuzzOf15` | corelanguage/practicequestions.js:31-47 | `fizzBuzz(15)` is `[1, 2, "Fizz", 4, "Buzz", "Fizz", 7, 8, "Fizz", "Buzz", 11, "Fizz", 13, 14, "FizzBuzz"]` |
| `FizzBuzz.Accumulator.constructor` | corelanguage/practicequestions.js:13 | the global array starts empty |
| `FizzBuzz.Accumulator.Fizzbuzz` | corelanguage/practicequestions.js:15-27 | exactly n cells (none when n <= 0) are appended; what was there is unchanged; appended cell k is the lower-case classification of k + 1 |
| `FizzBuzz.FizzbuzzOf15` | corelanguage/practicequestions.js:13-28 | `fizzbuzz(15)` on the fresh global leaves `[1, 2, "fiz", 4, "buzz", "fiz", 7, 8, "fiz", "buzz", 11, "fiz", 13, 14, "fizbuzz"]` |
| `FizzBuzz.FizzbuzzTwice` | corelanguage/practicequestions.js:13-27 | two calls accumulate: the first call's m cells, then the second call's n cells numbered again from 1 |
| `WordReversal.Reverse` | corelanguage/practicequestions.js:87 | `split("").reverse().join("")` keeps the length and puts character i at position length-1-i |
| `WordReversal.ReverseReverse` | corelanguage/practicequestions.js:87 | reversing a word twice gives it back |
| `WordReversal.Split` | corelanguage/practicequestions.js:86 | `split(" ")` always yields at least one piece |
| `WordReversal.SplitSpaceFree` | corelanguage/practicequestions.js:86 | no piece of `split(" ")` contains a space |
| `WordReversal.JoinSplit` | corelanguage/practicequestions.js:86-88 | `join(" ")` after `split(" ")` gives back the string |
| `WordReversal.SplitJoin` | corelanguage/practicequestions.js:86-88 | `split(" ")` after `join(" ")` of a non-empty list of space-free words gives back the words |
| `WordReversal.SplitAtSpace` | corelanguage/practicequestions.js:86 | splitting `a + " " + b` gives the pieces of a followed by the pieces of b |
| `WordReversal.JoinAppend` | corelanguage/practicequestions.js:88 | joining two non-empty word lists puts one space between their joins |
| `WordReversal.ReverseStringWordLength` | corelanguage/practicequestions.js:84-90 | the result has the same length as the input |
| `WordReversal.ReverseStringWordWords` | corelanguage/practicequestions.js:84-90 | the result has as many space-separated words as the input, and its word j is word j of the input reversed |
| `WordReversal.ReverseStringWordInvolution` | corelanguage/practicequestions.js:84-90 | applying `reverseStringWord` twice gives back the input |
| `WordReversal.ReverseStringWordAtSpace` | corelanguage/practicequestions.js:84-90 | the text on either side of a space is transformed independently |
| `WordReversal.ReverseStringWordOneWord` | corelanguage/practicequestions.js:84-90 | a text without spaces is simply reversed |
| `WordReversal.ScriptWordsReversed` | corelanguage/practicequestions.js:78-81 | the words "Hello", "World" and "SMita" reverse to "olleH", "dlroW" and "atiMS" |
| `WordReversal.HelloWorld` | corelanguage/practicequestions.js:84-90 | "Hello World" becomes "olleH dlroW" |
| `WordReversal.HelloWorldSMita` | corelanguage/practicequestions.js:78-92 | `const string`'s "Hello World SMita" becomes "olleH dlroW atiMS" |
| `LetterCount.Tally` | corelanguage/practicequestions.js:115-124 | a counter never exceeds the number of characters counted |
| `LetterCount.TallyAppend` | corelanguage/practicequestions.js:118-124 | counts over a concatenation add up |
| `LetterCount.TallySplit` | corelanguage/practicequestions.js:119-123 | two disjoint classes together count their union |
| `LetterCount.TallyLowered` | corelanguage/practicequestions.js:118 | counting the lower-cased text by one test is counting the original by the corresponding case-blind test |
| `LetterCount.LowerCharClassified` | corelanguage/practicequestions.js:118-123 | after lower-casing, a character is a vowel (consonant) exactly when it was a vowel (consonant) letter in either case |
| `LetterCount.CountsIgnoreCase` | corelanguage/practicequestions.js:118-123 | vowels counts the characters in "aeiouAEIOU" and consonants the other letters of either case: upper and lower case count alike |
| `LetterCount.CountsCoverLetters` | corelanguage/practicequestions.js:118-124 | vowels + consonants is the number of ASCII letters, so at most the length; spaces and other characters add to neither |
| `LetterCount.CountVowelsAndConsonants` | corelanguage/practicequestions.js:115-124 | the loop leaves in `vowels` the characters of the lower-cased text in "aeiou", and in `consonants` the other ones between 'a' and 'z' |
| `LetterCount.HelloWorldCounts` | corelanguage/practicequestions.js:114-124 | "Hello World" has 3 vowels and 7 consonants |
| `LetterCount.HelloWorldSMitaCounts` | corelanguage/practicequestions.js:115-124 | "Hello World SMita" has 5 vowels and 10 consonants |
| `LetterCount.CountScriptString` | corelanguage/practicequestions.js:115-124 | run on `"Hello World SMita"`, the loop ends with `vowels == 5` and `consonants == 10` |

## Left out

- `isPalindrome` (lines 49-54) is not modelled. It compares the outer `string` instead of its parameter. It is also called at line 54, before `const string` is initialised at line 78, so it throws a `ReferenceError`. Only the reversal it uses, `split("").reverse().join("")`, is modelled, as `WordReversal.Reverse`.
- The script stops at line 54: `isPalindrome(string)` reads `const string` before its declaration at line 78, and the uncaught `ReferenceError` ends the script. Lines 56-159 never execute. `WordReversal.ScriptWordsReversed`, `WordReversal.HelloWorldSMita`, `LetterCount.HelloWorldSMitaCounts` and `LetterCount.CountScriptString` state what those unreached lines would compute; the model does not capture the early exit.
- `debounce` (lines 98-107) is left out: it is timer scheduling with `setTimeout`/`clearTimeout`.
- The Promise example (lines 56-73) is left out: it is asynchronous runtime machinery with a constant outcome.
- The coercion and floating-point demonstrations (lines 94, 96, 109-112) are left out: array-to-string `+`, `0.1 + 0.2`, `==` versus `===`. They are JavaScript runtime semantics, not logic.
- `[..."frontend"]` (line 75) and the `split(" ")` at line 79 are left out. They only print. The line-81 expression equals `reverseStringWord(string)`, which is modelled.
- Every `console.log` is left out: it is output only.
- The commented-out anagram, non-repeating-character and palindrome code (lines 129-158) is left out: it is dead code.
- `datapython/main.py` is not part of this model: it is SQLite I/O through a foreign library.
- `JavaScript/InterviewQuestions/index.js` is not part of this model: it is a data literal with no operation on it.
- `ArrayBasics.Doubled`, `ArrayBasics.Numbers` and `FizzBuzz.FizzBuzz` treat numbers as unbounded integers. JavaScript's double-precision rounding above 2^53 is not modelled.
- `FizzBuzz.FizzBuzz` and `FizzBuzz.Accumulator.Fizzbuzz` take an integer bound. JavaScript would also accept a fractional or non-numeric `n`.
- `LetterCount.ToLowerCase` lower-cases only 'A' to 'Z'. Full Unicode `toLowerCase` also maps a few non-ASCII characters to ASCII letters, for example the Kelvin sign to 'k'. The model counts those as neither vowel nor consonant. Another example is 'İ' (U+0130): JavaScript lower-cases it to the two characters "i\u0307" and counts the 'i' as a vowel, while the model keeps 'İ' and counts nothing. JavaScript's `toLowerCase` can thus change the length of the string; the model's never does.
- `WordReversal.Reverse` treats a Dafny `char` as one element of a JavaScript string. `split("")` works on UTF-16 code units, while `for ... of` in the counting loop works on code points. The two differ only for characters outside the Basic Multilingual Plane, which this model does not distinguish.
