/**
 * The few java.lang.String / Integer operations the modelled code relies on,
 * written out with the semantics of the Java library.
 */
module JavaStrings {
  import opened Common

  /** String.trim removes every leading and trailing character at or below U+0020. */
  predicate IsTrimmed(c: char) {
    c <= ' '
  }

  function TrimStart(s: string): (r: string)
    ensures r == [] || !IsTrimmed(r[0])
    ensures |r| <= |s| && r == s[|s| - |r|..]
    ensures forall i :: 0 <= i < |s| - |r| ==> IsTrimmed(s[i])
  {
    if s != [] && IsTrimmed(s[0]) then TrimStart(s[1..]) else s
  }

  function TrimEnd(s: string): (r: string)
    ensures r == [] || !IsTrimmed(r[|r| - 1])
    ensures |r| <= |s| && r == s[..|r|]
    ensures forall i :: |r| <= i < |s| ==> IsTrimmed(s[i])
  {
    if s != [] && IsTrimmed(s[|s| - 1]) then TrimEnd(s[..|s| - 1]) else s
  }

  /** String.trim: the longest infix that neither starts nor ends with a blank. */
  function Trim(s: string): (r: string)
    ensures r == [] || (!IsTrimmed(r[0]) && !IsTrimmed(r[|r| - 1]))
    ensures |r| <= |s|
    ensures r == [] ==> forall i :: 0 <= i < |s| ==> IsTrimmed(s[i])
  {
    TrimEnd(TrimStart(s))
  }

  /**
   * Trim keeps one contiguous piece of the input: it starts where TrimStart
   * stops, and what lies before and after it is blank by the ensures of
   * TrimStart and TrimEnd.
   */
  lemma TrimInfix(s: string)
    ensures var r, k := Trim(s), |s| - |TrimStart(s)|;
            k + |r| <= |s| && r == s[k..k + |r|]
  {
    var t := TrimStart(s);
    SliceOfSuffix(s, |s| - |t|, |TrimEnd(t)|);
  }

  lemma SliceOfSuffix(s: string, k: nat, n: nat)
    requires k + n <= |s|
    ensures s[k..][..n] == s[k..k + n]
  {
  }

  /** Character.toLowerCase on the ASCII range. */
  function LowerChar(c: char): char {
    if 'A' <= c <= 'Z' then (c as int - 'A' as int + 'a' as int) as char else c
  }

  /** String.toLowerCase, restricted to ASCII letters. */
  function ToLower(s: string): (r: string)
    ensures |r| == |s|
    ensures forall i :: 0 <= i < |s| ==> r[i] == LowerChar(s[i])
  {
    seq(|s|, i requires 0 <= i < |s| => LowerChar(s[i]))
  }

  /** String.equalsIgnoreCase: same length and the same characters up to (ASCII) case. */
  predicate EqualsIgnoreCase(a: string, b: string) {
    |a| == |b| && forall i :: 0 <= i < |a| ==> LowerChar(a[i]) == LowerChar(b[i])
  }

  predicate StartsWith(s: string, prefix: string) {
    |prefix| <= |s| && s[..|prefix|] == prefix
  }

  /** String.indexOf(c, from): the first index at or after `from` holding `c`, or -1. */
  function IndexOf(s: string, c: char, from: nat): (r: int)
    ensures r == -1 || (from <= r < |s| && s[r] == c)
    ensures forall i :: from <= i < |s| && (r == -1 || i < r) ==> s[i] != c
    decreases |s| - from
  {
    if from >= |s| then -1
    else if s[from] == c then from
    else IndexOf(s, c, from + 1)
  }

  /** Number of occurrences of `c` in `s`. */
  function Count(s: string, c: char): nat
  {
    if s == [] then 0 else (if s[0] == c then 1 else 0) + Count(s[1..], c)
  }

  lemma {:induction false} CountAppend(a: string, b: string, c: char)
    ensures Count(a + b, c) == Count(a, c) + Count(b, c)
  {
    if a != [] {
      assert (a + b)[0] == a[0];
      assert (a + b)[1..] == a[1..] + b;
      CountAppend(a[1..], b, c);
    } else {
      assert a + b == b;
    }
  }

  lemma {:induction false} CountZero(s: string, c: char)
    ensures Count(s, c) == 0 <==> c !in s
  {
    if s != [] {
      CountZero(s[1..], c);
      assert c in s <==> s[0] == c || c in s[1..];
    }
  }

  /** Does `pattern` occur in `s` starting at `i`? */
  predicate OccursAt(s: string, pattern: string, i: nat) {
    i + |pattern| <= |s| && s[i..i + |pattern|] == pattern
  }

  /**
   * String.replace(CharSequence, CharSequence): scanning left to right, every
   * non-overlapping occurrence of a non-empty `target` is replaced by `replacement`.
   */
  function Replace(s: string, target: string, replacement: string): (r: string)
    requires target != []
    ensures forall c :: c in r ==> c in s || c in replacement
    decreases |s|
  {
    if |s| < |target| then s
    else if s[..|target|] == target then replacement + Replace(s[|target|..], target, replacement)
    else [s[0]] + Replace(s[1..], target, replacement)
  }

  /** A string without the target is left as it is. */
  lemma {:induction false} ReplaceAbsent(s: string, target: string, replacement: string)
    requires target != []
    requires forall i :: 0 <= i <= |s| - |target| ==> !OccursAt(s, target, i)
    ensures Replace(s, target, replacement) == s
  {
    if |s| >= |target| {
      assert !OccursAt(s, target, 0);
      forall i | 0 <= i <= |s[1..]| - |target|
        ensures !OccursAt(s[1..], target, i)
      {
        assert !OccursAt(s, target, i + 1);
        assert s[1..][i..i + |target|] == s[i + 1..i + 1 + |target|];
      }
      ReplaceAbsent(s[1..], target, replacement);
    }
  }

  /**
   * The first occurrence of the target is replaced by the replacement, the
   * text before it is kept, and the scan goes on after that occurrence, so
   * occurrences never overlap. With ReplaceAbsent this fixes Replace for
   * every input.
   */
  lemma {:induction false} ReplaceFirst(s: string, target: string, replacement: string, i: nat)
    requires target != [] && OccursAt(s, target, i)
    requires forall j :: 0 <= j < i ==> !OccursAt(s, target, j)
    ensures Replace(s, target, replacement) == s[..i] + replacement + Replace(s[i + |target|..], target, replacement)
    decreases i
  {
    if i == 0 {
      ReplaceHit(s, target, replacement);
    } else {
      var rest := s[1..];
      ShiftOccurrences(s, target, i);
      ReplaceFirst(rest, target, replacement, i - 1);
      ReplaceAfterMiss(s, target, replacement, i);
    }
  }

  /** The step of ReplaceFirst past a character that starts no occurrence. */
  lemma ReplaceAfterMiss(s: string, target: string, replacement: string, i: nat)
    requires target != [] && 0 < i && i + |target| <= |s| && !OccursAt(s, target, 0)
    requires Replace(s[1..], target, replacement) ==
             s[1..][..i - 1] + replacement + Replace(s[1..][i - 1 + |target|..], target, replacement)
    ensures Replace(s, target, replacement) == s[..i] + replacement + Replace(s[i + |target|..], target, replacement)
  {
    ReplaceMiss(s, target, replacement);
    TailSlices(s, i, |target|);
    Regroup([s[0]], s[1..][..i - 1], replacement, Replace(s[i + |target|..], target, replacement));
  }

  /** Slices of `s[1..]` in terms of slices of `s`. */
  lemma TailSlices(s: string, i: nat, n: nat)
    requires 0 < i && i + n <= |s|
    ensures s[1..][i - 1 + n..] == s[i + n..]
    ensures [s[0]] + s[1..][..i - 1] == s[..i]
  {
    assert [s[0]] + s[1..][..i - 1] == s[..i];
  }

  lemma Regroup(a: string, b: string, c: string, d: string)
    ensures a + (b + c + d) == (a + b) + c + d
  {
  }

  /** An occurrence at the start is replaced and the scan resumes after it. */
  lemma ReplaceHit(s: string, target: string, replacement: string)
    requires target != [] && OccursAt(s, target, 0)
    ensures Replace(s, target, replacement) == s[..0] + replacement + Replace(s[0 + |target|..], target, replacement)
  {
    assert s[..|target|] == target;
    assert s[..0] + replacement == replacement;
  }

  /** With no occurrence at the start, the first character is kept. */
  lemma ReplaceMiss(s: string, target: string, replacement: string)
    requires target != [] && |target| <= |s| && !OccursAt(s, target, 0)
    ensures Replace(s, target, replacement) == [s[0]] + Replace(s[1..], target, replacement)
  {
  }

  /** Dropping the first character moves every occurrence one place to the left. */
  lemma ShiftOccurrences(s: string, target: string, i: nat)
    requires 0 < i && OccursAt(s, target, i)
    requires forall j :: 0 <= j < i ==> !OccursAt(s, target, j)
    ensures !OccursAt(s, target, 0) && i + |target| <= |s|
    ensures OccursAt(s[1..], target, i - 1)
    ensures forall j :: 0 <= j < i - 1 ==> !OccursAt(s[1..], target, j)
  {
    var rest := s[1..];
    assert rest[i - 1..i - 1 + |target|] == s[i..i + |target|];
    forall j | 0 <= j < i - 1
      ensures !OccursAt(rest, target, j)
    {
      assert !OccursAt(s, target, j + 1);
      assert rest[j..j + |target|] == s[j + 1..j + 1 + |target|];
    }
  }

  /** When the target holds a `c` and the replacement holds none, replacing never adds a `c`. */
  lemma {:induction false} ReplaceKeepsChar(s: string, target: string, replacement: string, c: char)
    requires target != [] && Count(replacement, c) <= Count(target, c)
    ensures Count(Replace(s, target, replacement), c) <= Count(s, c)
    decreases |s|
  {
    if |s| < |target| {
    } else if s[..|target|] == target {
      var rest := s[|target|..];
      ReplaceKeepsChar(rest, target, replacement, c);
      CountAppend(replacement, Replace(rest, target, replacement), c);
      assert s == target + rest;
      CountAppend(target, rest, c);
    } else {
      var rest := s[1..];
      ReplaceKeepsChar(rest, target, replacement, c);
      CountAppend([s[0]], Replace(rest, target, replacement), c);
    }
  }

  /**
   * ... and removes at least one `c` as soon as the target occurs somewhere.
   */
  lemma {:induction false} ReplaceDropsChar(s: string, target: string, replacement: string, c: char, i: nat)
    requires target != [] && Count(replacement, c) < Count(target, c)
    requires OccursAt(s, target, i)
    ensures Count(Replace(s, target, replacement), c) < Count(s, c)
    decreases |s|
  {
    if s[..|target|] == target {
      var rest := s[|target|..];
      ReplaceKeepsChar(rest, target, replacement, c);
      CountAppend(replacement, Replace(rest, target, replacement), c);
      assert s == target + rest;
      CountAppend(target, rest, c);
    } else {
      var rest := s[1..];
      assert i != 0;
      assert rest[i - 1..i - 1 + |target|] == s[i..i + |target|];
      ReplaceDropsChar(rest, target, replacement, c, i - 1);
      CountAppend([s[0]], Replace(rest, target, replacement), c);
    }
  }

  /** Every `from` character replaced by `to` (String.replace on single characters). */
  function ReplaceChar(s: string, from: char, to: char): (r: string)
    ensures |r| == |s|
    ensures forall i :: 0 <= i < |s| ==> r[i] == if s[i] == from then to else s[i]
  {
    seq(|s|, i requires 0 <= i < |s| => if s[i] == from then to else s[i])
  }

  /** All pieces of `s` between occurrences of `sep`, keeping empty ones. */
  function Pieces(s: string, sep: char): (r: seq<string>)
    ensures |r| == Count(s, sep) + 1
    ensures forall k :: 0 <= k < |r| ==> sep !in r[k]
    decreases |s|
  {
    if s == [] then [""]
    else
      var rest := Pieces(s[1..], sep);
      if s[0] == sep then [""] + rest else [[s[0]] + rest[0]] + rest[1..]
  }

  /** Drop empty strings from the end (what String.split does with limit 0). */
  function DropTrailingEmpty(ps: seq<string>): (r: seq<string>)
    ensures |r| <= |ps| && r == ps[..|r|]
    ensures r == [] || r[|r| - 1] != ""
    ensures forall k :: |r| <= k < |ps| ==> ps[k] == ""
  {
    if ps != [] && ps[|ps| - 1] == "" then DropTrailingEmpty(ps[..|ps| - 1]) else ps
  }

  /**
   * String.split on a one-character regular expression: when the separator does
   * not occur the result is the whole string; otherwise the pieces between
   * separators, with trailing empty pieces removed.
   */
  function Split(s: string, sep: char): (r: seq<string>)
    ensures sep !in s ==> r == [s]
  {
    if sep !in s then [s] else DropTrailingEmpty(Pieces(s, sep))
  }

  /** The pieces glued back together with `sep` between neighbours. */
  function Join(ps: seq<string>, sep: char): string
  {
    if ps == [] then ""
    else if |ps| == 1 then ps[0]
    else ps[0] + [sep] + Join(ps[1..], sep)
  }

  lemma {:induction false} JoinSnoc(ps: seq<string>, x: string, sep: char)
    requires ps != []
    ensures Join(ps + [x], sep) == Join(ps, sep) + [sep] + x
    decreases |ps|
  {
    if |ps| == 1 {
      assert ps + [x] == [ps[0], x];
    } else {
      assert (ps + [x])[1..] == ps[1..] + [x];
      JoinSnoc(ps[1..], x, sep);
    }
  }

  /** Cutting at every separator loses nothing: the pieces join back to `s`. */
  lemma {:induction false} PiecesJoin(s: string, sep: char)
    ensures Join(Pieces(s, sep), sep) == s
    decreases |s|
  {
    if s != [] {
      var rest := Pieces(s[1..], sep);
      PiecesJoin(s[1..], sep);
      if s[0] == sep {
        assert ([""] + rest)[1..] == rest;
      } else if |rest| > 1 {
        var ps := [[s[0]] + rest[0]] + rest[1..];
        assert ps[1..] == rest[1..];
        assert s == [s[0]] + s[1..];
      } else {
        assert s == [s[0]] + s[1..];
      }
    }
  }

  /** Dropping trailing empty pieces shortens the join by separators only. */
  lemma {:induction false} DropTrailingEmptyJoin(ps: seq<string>, sep: char)
    ensures var j, whole := Join(DropTrailingEmpty(ps), sep), Join(ps, sep);
            |j| <= |whole| && whole[..|j|] == j && forall i :: |j| <= i < |whole| ==> whole[i] == sep
    decreases |ps|
  {
    if ps != [] && ps[|ps| - 1] == "" {
      var qs := ps[..|ps| - 1];
      assert ps == qs + [""];
      DropTrailingEmptyJoin(qs, sep);
      if qs != [] {
        JoinSnoc(qs, "", sep);
      }
    }
  }

  /**
   * What String.split keeps: every piece is free of the separator, the last
   * piece is not empty, and joining the pieces gives `s` up to a run of
   * separators at its end.
   */
  lemma SplitJoin(s: string, sep: char)
    ensures forall k :: 0 <= k < |Split(s, sep)| ==> sep !in Split(s, sep)[k]
    ensures sep in s ==> Split(s, sep) == [] || Split(s, sep)[|Split(s, sep)| - 1] != ""
    ensures var j := Join(Split(s, sep), sep);
            |j| <= |s| && s[..|j|] == j && forall i :: |j| <= i < |s| ==> s[i] == sep
  {
    if sep in s {
      PiecesJoin(s, sep);
      DropTrailingEmptyJoin(Pieces(s, sep), sep);
    }
  }

  predicate IsDigit(c: char) {
    '0' <= c <= '9'
  }

  predicate AllDigits(s: string) {
    forall i :: 0 <= i < |s| ==> IsDigit(s[i])
  }

  function DigitValue(c: char): nat
    requires IsDigit(c)
  {
    c as int - '0' as int
  }

  function DigitChar(d: nat): (c: char)
    requires d < 10
    ensures IsDigit(c) && DigitValue(c) == d
  {
    ('0' as int + d) as char
  }

  /** The value of a string of decimal digits, most significant first. */
  function DigitsValue(s: string): nat
    requires AllDigits(s)
  {
    if s == [] then 0 else 10 * DigitsValue(s[..|s| - 1]) + DigitValue(s[|s| - 1])
  }

  /** The decimal digits of a natural number, without leading zeros. */
  function Digits(n: nat): (r: string)
    ensures r != [] && AllDigits(r)
  {
    if n < 10 then [DigitChar(n)] else Digits(n / 10) + [DigitChar(n % 10)]
  }

  /** Integer.toString / string concatenation of an int. */
  function IntToString(n: int): (r: string)
    ensures r != []
  {
    if n < 0 then "-" + Digits(-n) else Digits(n)
  }

  /**
   * Integer.parseInt: an optional sign followed by at least one decimal digit,
   * whose value must fit a Java int; anything else is a NumberFormatException (None).
   */
  /** The digits of a number after an optional leading sign. */
  function Unsigned(s: string): string
    requires s != []
  {
    if s[0] == '-' || s[0] == '+' then s[1..] else s
  }

  /** The magnitude with the sign that `s` starts with. */
  function Signed(s: string, magnitude: nat): int
    requires s != []
  {
    if s[0] == '-' then -(magnitude as int) else magnitude
  }

  function ParseInt(s: string): (r: Option<int>)
    ensures r.Some? ==> InInt32(r.value)
  {
    if s == [] then None
    else
      var negative := s[0] == '-';
      var body := if s[0] == '-' || s[0] == '+' then s[1..] else s;
      if body == [] || !AllDigits(body) then None
      else
        var v: int := if negative then -(DigitsValue(body) as int) else DigitsValue(body);
        if InInt32(v) then Some(v) else None
  }
  /**
   * What parseInt accepts: an optional sign, at least one digit and nothing
   * else, with a signed value in the 32-bit range; the result is that value.
   */
  lemma ParseIntAccepts(s: string)
    ensures ParseInt(s).Some? <==>
      s != [] && var body := Unsigned(s);
      body != [] && AllDigits(body) && InInt32(Signed(s, DigitsValue(body)))
    ensures ParseInt(s).Some? ==> ParseInt(s).value == Signed(s, DigitsValue(Unsigned(s)))
  {
  }


  lemma {:induction false} DigitsRoundTrip(n: nat)
    ensures DigitsValue(Digits(n)) == n
  {
    if n >= 10 {
      DigitsRoundTrip(n / 10);
      var d := Digits(n / 10) + [DigitChar(n % 10)];
      assert d[..|d| - 1] == Digits(n / 10);
    }
  }

  /** Every Java int printed in decimal parses back to itself. */
  lemma IntRoundTrip(n: int)
    requires InInt32(n)
    ensures ParseInt(IntToString(n)) == Some(n)
  {
    var s := IntToString(n);
    if n < 0 {
      DigitsRoundTrip(-n);
      assert s[1..] == Digits(-n);
    } else {
      DigitsRoundTrip(n);
    }
  }
}
