// The two FizzBuzz variants of corelanguage/practicequestions.js.
// `fizzbuzz` pushes lower-case labels onto the module-level array `fizbuzz`,
// which persists across calls; `fizzBuzz` builds and returns a fresh array.
module FizzBuzz {

  /** An element of the mixed JavaScript array: a label or a number. */
  datatype Cell = Word(text: string) | Number(value: int)

  /** What `fizzbuzz` pushes for `i` (tests `i % 3` and `i % 5` together first). */
  function LowerCell(i: int): (c: Cell) {
    if i % 3 == 0 && i % 5 == 0 then Word("fizbuzz")
    else if i % 3 == 0 then Word("fiz")
    else if i % 5 == 0 then Word("buzz")
    else Number(i)
  }

  /** What `fizzBuzz` pushes for `i` (tests `i % 15` first). */
  function UpperCell(i: int): (c: Cell) {
    if i % 15 == 0 then Word("FizzBuzz")
    else if i % 3 == 0 then Word("Fizz")
    else if i % 5 == 0 then Word("Buzz")
    else Number(i)
  }

  /** The spelling `fizzBuzz` uses for each label `fizzbuzz` pushes; numbers stay. */
  function Respell(c: Cell): (r: Cell) {
    match c
    case Word(t) =>
      if t == "fizbuzz" then Word("FizzBuzz")
      else if t == "fiz" then Word("Fizz")
      else if t == "buzz" then Word("Buzz")
      else c
    case Number(_) => c
  }

  /** Being a multiple of 15 is being a multiple of both 3 and 5. */
  lemma DivisibleBy15(i: int)
    ensures i % 15 == 0 <==> i % 3 == 0 && i % 5 == 0
  {
  }

  /** Each label of `fizzBuzz` in terms of divisibility by 3 and by 5, both directions. */
  lemma UpperCellClassified(i: int)
    ensures UpperCell(i) == Word("FizzBuzz") <==> i % 3 == 0 && i % 5 == 0
    ensures UpperCell(i) == Word("Fizz") <==> i % 3 == 0 && i % 5 != 0
    ensures UpperCell(i) == Word("Buzz") <==> i % 3 != 0 && i % 5 == 0
    ensures UpperCell(i) == Number(i) <==> i % 3 != 0 && i % 5 != 0
  {
  }

  /** Position by position the two variants agree up to the spelling of the labels. */
  lemma SameClassification(i: int)
    ensures Respell(LowerCell(i)) == UpperCell(i)
    ensures LowerCell(i).Number? <==> UpperCell(i).Number?
  {
  }

  /** `fizzBuzz(n)`: a fresh array with one cell for each of 1..n. */
  method FizzBuzz(n: int) returns (result: seq<Cell>)
    ensures |result| == if n > 0 then n else 0
    ensures forall k :: 0 <= k < |result| ==> result[k] == UpperCell(k + 1)
  {
    result := [];
    var i := 1;
    while i <= n
      invariant 1 <= i
      invariant if n >= 1 then i <= n + 1 else i == 1
      invariant |result| == i - 1
      invariant forall k :: 0 <= k < |result| ==> result[k] == UpperCell(k + 1)
    {
      if i % 15 == 0 {
        result := result + [Word("FizzBuzz")];
      } else if i % 3 == 0 {
        result := result + [Word("Fizz")];
      } else if i % 5 == 0 {
        result := result + [Word("Buzz")];
      } else {
        result := result + [Number(i)];
      }
      i := i + 1;
    }
  }

  /** The call `fizzBuzz(15)` of the script. */
  method FizzBuzzOf15() returns (result: seq<Cell>)
    ensures result == [Number(1), Number(2), Word("Fizz"), Number(4), Word("Buzz"),
                       Word("Fizz"), Number(7), Number(8), Word("Fizz"), Word("Buzz"),
                       Number(11), Word("Fizz"), Number(13), Number(14), Word("FizzBuzz")]
  {
    result := FizzBuzz(15);
    assert result[0] == UpperCell(1) && result[1] == UpperCell(2) && result[2] == UpperCell(3);
    assert result[3] == UpperCell(4) && result[4] == UpperCell(5) && result[5] == UpperCell(6);
    assert result[6] == UpperCell(7) && result[7] == UpperCell(8) && result[8] == UpperCell(9);
    assert result[9] == UpperCell(10) && result[10] == UpperCell(11) && result[11] == UpperCell(12);
    assert result[12] == UpperCell(13) && result[13] == UpperCell(14) && result[14] == UpperCell(15);
  }

  /** The module-level array `fizbuzz` together with the function that appends to it. */
  class Accumulator {
    var fizbuzz: seq<Cell>

    /** `let fizbuzz = [];` */
    constructor ()
      ensures fizbuzz == []
    {
      fizbuzz := [];
    }

    /** `fizzbuzz(n)`: appends one cell for each of 1..n and keeps what was there. */
    method Fizzbuzz(n: int)
      modifies this
      ensures |fizbuzz| == |old(fizbuzz)| + if n > 0 then n else 0
      ensures fizbuzz[..|old(fizbuzz)|] == old(fizbuzz)
      ensures forall k :: |old(fizbuzz)| <= k < |fizbuzz| ==>
                fizbuzz[k] == LowerCell(k - |old(fizbuzz)| + 1)
    {
      ghost var before := fizbuzz;
      var i := 1;
      while i <= n
        invariant 1 <= i
        invariant if n >= 1 then i <= n + 1 else i == 1
        invariant |fizbuzz| == |before| + i - 1
        invariant fizbuzz[..|before|] == before
        invariant forall k :: |before| <= k < |fizbuzz| ==> fizbuzz[k] == LowerCell(k - |before| + 1)
      {
        if i % 3 == 0 && i % 5 == 0 {
          fizbuzz := fizbuzz + [Word("fizbuzz")];
        } else if i % 3 == 0 {
          fizbuzz := fizbuzz + [Word("fiz")];
        } else if i % 5 == 0 {
          fizbuzz := fizbuzz + [Word("buzz")];
        } else {
          fizbuzz := fizbuzz + [Number(i)];
        }
        i := i + 1;
      }
    }
  }

  /** The script's `fizzbuzz(15)` on the freshly declared array. */
  method FizzbuzzOf15() returns (log: seq<Cell>)
    ensures log == [Number(1), Number(2), Word("fiz"), Number(4), Word("buzz"),
                    Word("fiz"), Number(7), Number(8), Word("fiz"), Word("buzz"),
                    Number(11), Word("fiz"), Number(13), Number(14), Word("fizbuzz")]
  {
    var acc := new Accumulator();
    acc.Fizzbuzz(15);
    log := acc.fizbuzz;
    assert log[0] == LowerCell(1) && log[1] == LowerCell(2) && log[2] == LowerCell(3);
    assert log[3] == LowerCell(4) && log[4] == LowerCell(5) && log[5] == LowerCell(6);
    assert log[6] == LowerCell(7) && log[7] == LowerCell(8) && log[8] == LowerCell(9);
    assert log[9] == LowerCell(10) && log[10] == LowerCell(11) && log[11] == LowerCell(12);
    assert log[12] == LowerCell(13) && log[13] == LowerCell(14) && log[14] == LowerCell(15);
  }

  /** Two calls accumulate: the second call's cells follow the first call's. */
  method FizzbuzzTwice(m: int, n: int) returns (log: seq<Cell>)
    ensures |log| == (if m > 0 then m else 0) + (if n > 0 then n else 0)
    ensures forall k :: 0 <= k < (if m > 0 then m else 0) ==> log[k] == LowerCell(k + 1)
    ensures forall k :: (if m > 0 then m else 0) <= k < |log| ==>
              log[k] == LowerCell(k - (if m > 0 then m else 0) + 1)
  {
    var acc := new Accumulator();
    acc.Fizzbuzz(m);
    ghost var first := acc.fizbuzz;
    acc.Fizzbuzz(n);
    log := acc.fizbuzz;
    forall k | 0 <= k < |first|
      ensures log[k] == LowerCell(k + 1)
    {
      assert log[k] == log[..|first|][k] == first[k];
    }
  }
}
