/**
 * Problem1.printOdds: one pass over an int array printing each odd value,
 * followed by ", " unless it sits at the last index of the array.
 */
module OddPrinter {
  import opened JavaStrings

  /** Java's `%`: the remainder takes the sign of the dividend. */
  function JavaRem(x: int, m: int): (r: int)
    requires m > 0
    ensures -m < r < m
    ensures x >= 0 ==> r == x % m
    ensures x < 0 ==> r <= 0
  {
    if x >= 0 then x % m else -((-x) % m)
  }

  /** `x % 2 != 0` in Java holds for negative odd values too: it agrees with Dafny's `x % 2 == 1`. */
  lemma OddTest(x: int)
    ensures JavaRem(x, 2) != 0 <==> x % 2 == 1
  {
    if x < 0 {
      assert (-x) % 2 == 0 <==> x % 2 == 0;
    }
  }

  predicate IsOdd(x: int) {
    JavaRem(x, 2) != 0
  }

  /** What one print call writes: a value, or the ", " separator. */
  datatype Piece = Value(v: int) | Separator

  /** What the loop has printed after visiting the first n elements of a. */
  function Printed(a: seq<int>, n: nat): (out: seq<Piece>)
    requires n <= |a|
    ensures forall k :: 0 <= k < |out| && out[k].Value? ==> IsOdd(out[k].v)
    ensures forall k :: 0 <= k < |out| && out[k].Separator? ==> k > 0 && out[k - 1].Value?
  {
    if n == 0 then []
    else
      var i := n - 1;
      Printed(a, i) +
        (if IsOdd(a[i]) then [Value(a[i])] + (if i < |a| - 1 then [Separator] else []) else [])
  }

  /** The odd elements of a, in order. */
  function Odds(a: seq<int>): (r: seq<int>)
    ensures |r| <= |a|
    ensures forall k :: 0 <= k < |r| ==> IsOdd(r[k]) && r[k] in a
  {
    if a == [] then [] else Odds(a[..|a| - 1]) + (if IsOdd(a[|a| - 1]) then [a[|a| - 1]] else [])
  }

  /** The values among the printed pieces, in order. */
  function Values(ps: seq<Piece>): seq<int> {
    if ps == [] then [] else Values(ps[..|ps| - 1]) + (match ps[|ps| - 1] case Value(v) => [v] case Separator => [])
  }

  /** printOdds, with the console replaced by the returned sequence of print calls. */
  method PrintOdds(arr: array<int>) returns (out: seq<Piece>)
    ensures out == Printed(arr[..], arr.Length)
  {
    out := [];
    for i := 0 to arr.Length
      invariant out == Printed(arr[..], i)
    {
      if JavaRem(arr[i], 2) != 0 {
        out := out + [Value(arr[i])];
        if i < arr.Length - 1 {
          out := out + [Separator];
        }
      }
    }
  }

  lemma {:induction false} ValuesAppend(a: seq<Piece>, b: seq<Piece>)
    ensures Values(a + b) == Values(a) + Values(b)
    decreases |b|
  {
    if b != [] {
      var b' := b[..|b| - 1];
      assert (a + b)[..|a + b| - 1] == a + b';
      assert (a + b)[|a + b| - 1] == b[|b| - 1];
      ValuesAppend(a, b');
    } else {
      assert a + b == a;
    }
  }

  /** Exactly the odd elements are printed, in array order. */
  lemma {:induction false} PrintedValues(a: seq<int>, n: nat)
    requires n <= |a|
    ensures Values(Printed(a, n)) == Odds(a[..n])
  {
    if n > 0 {
      var i := n - 1;
      PrintedValues(a, i);
      var tail := if IsOdd(a[i]) then [Value(a[i])] + (if i < |a| - 1 then [Separator] else []) else [];
      ValuesAppend(Printed(a, i), tail);
      if IsOdd(a[i]) {
        ValuesAppend([Value(a[i])], if i < |a| - 1 then [Separator] else []);
      }
      assert a[..n][..|a[..n]| - 1] == a[..i];
    }
  }

  /** The number of odd elements among the first n. */
  function OddCount(a: seq<int>, n: nat): nat
    requires n <= |a|
  {
    if n == 0 then 0 else OddCount(a, n - 1) + (if IsOdd(a[n - 1]) then 1 else 0)
  }

  lemma {:induction false} OddsCount(a: seq<int>, n: nat)
    requires n <= |a|
    ensures |Odds(a[..n])| == OddCount(a, n)
  {
    if n > 0 {
      OddsCount(a, n - 1);
      assert a[..n][..|a[..n]| - 1] == a[..n - 1];
    }
  }

  /** Nothing is printed exactly when no element visited so far is odd (an empty or all-even array). */
  lemma {:induction false} NothingPrinted(a: seq<int>, n: nat)
    requires n <= |a|
    ensures Printed(a, n) == [] <==> forall i :: 0 <= i < n ==> !IsOdd(a[i])
  {
    if n > 0 {
      NothingPrinted(a, n - 1);
    }
  }

  /** Before the last index every odd value is followed by ", ", so what has been printed ends in one. */
  lemma {:induction false} SeparatorAfterOdd(a: seq<int>, n: nat)
    requires n < |a|
    ensures var out := Printed(a, n);
      out != [] ==> out[|out| - 1] == Separator
  {
    if n > 0 && !IsOdd(a[n - 1]) {
      SeparatorAfterOdd(a, n - 1);
    }
  }

  /**
   * The output ends with ", " exactly when some element is odd and the last
   * element is even: the separator test looks at the index, not at whether
   * another odd value follows.
   */
  lemma TrailingSeparator(a: seq<int>)
    requires |a| > 0
    ensures var out := Printed(a, |a|);
      (out != [] && out[|out| - 1] == Separator) <==>
      (exists i :: 0 <= i < |a| && IsOdd(a[i])) && !IsOdd(a[|a| - 1])
  {
    var i := |a| - 1;
    NothingPrinted(a, i);
    SeparatorAfterOdd(a, i);
  }

  /** The array {1, 2}: "1, " is printed. */
  lemma OddThenEven()
    ensures Printed([1, 2], 2) == [Value(1), Separator]
  {
  }
}
