// The two array warm-ups at the top of corelanguage/practicequestions.js:
// doubling every element with `map`, and building 1..n with a counting loop.
// JavaScript numbers are modelled as mathematical integers.
module ArrayBasics {

  /** `arr.map((n) => n * 2)`: every element doubled, in the same order. */
  function Doubled(arr: seq<int>): (r: seq<int>)
    ensures |r| == |arr|
    ensures forall i :: 0 <= i < |arr| ==> r[i] == 2 * arr[i]
  {
    if arr == [] then [] else [arr[0] * 2] + Doubled(arr[1..])
  }

  /** Doubling maps a concatenation to the concatenation of the doubled parts. */
  lemma DoubledAppend(a: seq<int>, b: seq<int>)
    ensures Doubled(a + b) == Doubled(a) + Doubled(b)
  {
  }

  /** No information is lost: two arrays with the same doubling are equal. */
  lemma DoubledInjective(a: seq<int>, b: seq<int>)
    requires Doubled(a) == Doubled(b)
    ensures a == b
  {
  }

  /** Every element of a doubled array is even. */
  lemma DoubledEven(arr: seq<int>)
    ensures forall x :: x in Doubled(arr) ==> x % 2 == 0
  {
  }

  /** Line 2 on the literal of line 1. */
  lemma DoubledOneTwoThree()
    ensures Doubled([1, 2, 3]) == [2, 4, 6]
  {
  }

  /** The loop `for (let i = 1; i <= n; i++) numbers.push(i)` run on an empty `numbers`. */
  method Numbers(n: int) returns (numbers: seq<int>)
    ensures |numbers| == if n > 0 then n else 0
    ensures forall k :: 0 <= k < |numbers| ==> numbers[k] == k + 1
  {
    numbers := [];
    var i := 1;
    while i <= n
      invariant 1 <= i
      invariant if n >= 1 then i <= n + 1 else i == 1
      invariant |numbers| == i - 1
      invariant forall k :: 0 <= k < |numbers| ==> numbers[k] == k + 1
    {
      numbers := numbers + [i];
      i := i + 1;
    }
  }

  /** The script runs the loop with `n = 10`. */
  method NumbersToTen() returns (numbers: seq<int>)
    ensures numbers == [1, 2, 3, 4, 5, 6, 7, 8, 9, 10]
  {
    numbers := Numbers(10);
  }
}
