/**
 * The slash-command loop of SlashCommandHandler: each line read is trimmed
 * and classified as /quit, /greet, /roll, /echo or an unknown command, and
 * one line is printed in answer. Console input is a given sequence of
 * lines; each call to Math.random() is a given fraction in [0, 1).
 */
module SlashCommands {
  import opened Common
  import opened JavaStrings

  /** What a trimmed input line asks for. */
  datatype Command =
    | Quit
    | Greet(name: string)
    | Roll(num: int, sides: int)
    | BadRollFormat                 // the part after "/roll " does not split into two pieces on 'd'
    | BadRollNumbers                // one of the two pieces is not a Java int
    | Echo(message: string)
    | Unrecognized

  /** A value of Math.random(): num / den, in [0, 1). */
  datatype Draw = Draw(num: nat, den: nat)

  predicate ValidDraw(d: Draw) {
    d.num < d.den
  }

  /** The argument of "/roll ": split on 'd' and parse both trimmed pieces. */
  function ParseRoll(arg: string): (c: Command)
    ensures c.Roll? || c == BadRollFormat || c == BadRollNumbers
    ensures c == BadRollFormat <==> |Split(arg, 'd')| != 2
    ensures c.Roll? ==> InInt32(c.num) && InInt32(c.sides)
  {
    var parts := Split(arg, 'd');
    if |parts| != 2 then BadRollFormat
    else
      match (ParseInt(Trim(parts[0])), ParseInt(Trim(parts[1])))
      case (Some(num), Some(sides)) => Roll(num, sides)
      case _ => BadRollNumbers
  }
  /**
   * With two pieces, the number error comes exactly when a trimmed piece does
   * not parse; a roll holds the parsed values of the two trimmed pieces.
   */
  lemma ParseRollNumbers(arg: string)
    ensures var parts, c := Split(arg, 'd'), ParseRoll(arg);
            |parts| == 2 ==>
              (c == BadRollNumbers <==>
                 ParseInt(Trim(parts[0])).None? || ParseInt(Trim(parts[1])).None?)
    ensures var parts, c := Split(arg, 'd'), ParseRoll(arg);
            c.Roll? ==>
              |parts| == 2 &&
              ParseInt(Trim(parts[0])) == Some(c.num) && ParseInt(Trim(parts[1])) == Some(c.sides)
  {
  }


  /**
   * The if/else chain over the trimmed line: only "/quit" ignores letter case;
   * the other three commands are recognised by an exact prefix.
   */
  function Classify(input: string): (c: Command)
    ensures c == Quit <==> EqualsIgnoreCase(input, "/quit")
    ensures c.Greet? <==> !EqualsIgnoreCase(input, "/quit") && StartsWith(input, "/greet ")
    ensures c.Echo? ==> StartsWith(input, "/echo ")
    ensures c == Unrecognized ==>
      !StartsWith(input, "/greet ") && !StartsWith(input, "/roll ") && !StartsWith(input, "/echo ")
  {
    if EqualsIgnoreCase(input, "/quit") then Quit
    else if StartsWith(input, "/greet ") then Greet(Trim(input[7..]))
    else if StartsWith(input, "/roll ") then ParseRoll(input[6..])
    else if StartsWith(input, "/echo ") then Echo(Trim(input[6..]))
    else Unrecognized
  }
  /**
   * The chain's fall-through: a line is unrecognized exactly when it is not
   * "/quit" and has none of the three prefixes, and every roll result,
   * errors included, comes from a "/roll " line.
   */
  lemma ClassifyRoutes(input: string)
    ensures Classify(input) == Unrecognized <==>
      !EqualsIgnoreCase(input, "/quit") &&
      !StartsWith(input, "/greet ") && !StartsWith(input, "/roll ") && !StartsWith(input, "/echo ")
    ensures var c := Classify(input);
      (c.Roll? || c == BadRollFormat || c == BadRollNumbers) ==> StartsWith(input, "/roll ")
  {
  }


  /** The line that ends the loop: "/quit" in any letter case, once trimmed. */
  predicate IsQuit(line: string) {
    EqualsIgnoreCase(Trim(line), "/quit")
  }

  /** `scanner.nextLine().trim()`, then the chain. */
  function Parse(line: string): (c: Command)
    ensures c.Quit? <==> IsQuit(line)
  {
    Classify(Trim(line))
  }

  /** `(int) x` for x = a / b: the quotient truncated toward zero. */
  function TruncDiv(a: int, b: int): (q: int)
    requires b > 0
    ensures a >= 0 ==> q >= 0
    ensures a <= 0 ==> q <= 0
  {
    if a >= 0 then a / b else -((-a) / b)
  }

  /** `(int) (Math.random() * sides) + 1` */
  function RollValue(sides: int, d: Draw): int
    requires ValidDraw(d)
  {
    TruncDiv(d.num * sides, d.den) + 1
  }

  const ErrorPrefix := "Error: "

  /** A line reporting an error starts with "Error: ". */
  predicate IsErrorLine(text: string) {
    ErrorPrefix <= text
  }

  /** The line printed for a command; a roll uses the draw. */
  function Respond(c: Command, d: Draw): (text: string)
    requires ValidDraw(d)
    ensures !c.Echo? ==> text != [] && text[|text| - 1] in "!."
  {
    match c
    case Quit => "Exiting program."
    case Greet(name) => "Hello, " + name + "!"
    case Roll(num, sides) =>
      "Rolled " + IntToString(num) + "d" + IntToString(sides) + " and got " + IntToString(RollValue(sides, d)) + "!"
    case BadRollFormat => ErrorPrefix + "Invalid roll format. Use '/roll <num>d<sides>'."
    case BadRollNumbers => ErrorPrefix + "Invalid numbers in roll command."
    case Echo(message) => message
    case Unrecognized => ErrorPrefix + "Unrecognized command."
  }
  /** Apart from an echo, a line starts with "Error: " exactly for the three error commands. */
  lemma ErrorLines(c: Command, d: Draw)
    requires ValidDraw(d)
    ensures !c.Echo? ==>
              (IsErrorLine(Respond(c, d)) <==> c == BadRollFormat || c == BadRollNumbers || c == Unrecognized)
  {
    match c
    case Quit => assert "Exiting program."[1] != ErrorPrefix[1];
    case Greet(name) => assert Respond(c, d)[0] != ErrorPrefix[0];
    case Roll(_, _) => assert Respond(c, d)[0] != ErrorPrefix[0];
    case _ =>
  }


  /** The lines printed for the first n inputs. */
  function Outputs(inputs: seq<string>, draws: seq<Draw>, n: nat): (out: seq<string>)
    requires n <= |inputs| == |draws|
    requires forall k :: 0 <= k < |draws| ==> ValidDraw(draws[k])
    ensures |out| == n
  {
    if n == 0 then [] else Outputs(inputs, draws, n - 1) + [Respond(Parse(inputs[n - 1]), draws[n - 1])]
  }

  /** None of the first n inputs is /quit. */
  predicate NoQuit(inputs: seq<string>, n: nat)
    requires n <= |inputs|
  {
    forall k :: 0 <= k < n ==> !IsQuit(inputs[k])
  }

  /**
   * The `while (true)` loop: line k of the input is answered with draw k. It
   * stops after the first line that is /quit; when the input runs out first,
   * reading fails and `quit` is false.
   */
  method HandleCommands(inputs: seq<string>, draws: seq<Draw>) returns (out: seq<string>, read: nat, quit: bool)
    requires |draws| == |inputs|
    requires forall k :: 0 <= k < |draws| ==> ValidDraw(draws[k])
    ensures read <= |inputs| && out == Outputs(inputs, draws, read)
    ensures quit ==> 0 < read && NoQuit(inputs, read - 1) && IsQuit(inputs[read - 1])
    ensures !quit ==> read == |inputs| && NoQuit(inputs, read)
  {
    out, read, quit := [], 0, false;
    while read < |inputs|
      invariant read <= |inputs| && out == Outputs(inputs, draws, read)
      invariant NoQuit(inputs, read)
    {
      var command := Parse(inputs[read]);
      out := out + [Respond(command, draws[read])];
      read := read + 1;
      if command.Quit? {
        quit := true;
        return;
      }
    }
  }

  // ---------------------------------------------------------------- properties

  /** Line k of the output answers line k of the input with draw k. */
  lemma {:induction false} OutputsAt(inputs: seq<string>, draws: seq<Draw>, n: nat, k: nat)
    requires n <= |inputs| == |draws|
    requires forall j :: 0 <= j < |draws| ==> ValidDraw(draws[j])
    requires k < n
    ensures Outputs(inputs, draws, n)[k] == Respond(Parse(inputs[k]), draws[k])
  {
    if k < n - 1 {
      OutputsAt(inputs, draws, n - 1, k);
    }
  }

  /** A line of any length other than five cannot be "/quit" in any letter case. */
  lemma NotQuit(input: string)
    requires |input| != 5
    ensures !EqualsIgnoreCase(input, "/quit")
  {
  }

  lemma ClassifyGreet(input: string)
    requires StartsWith(input, "/greet ")
    ensures Classify(input) == Greet(Trim(input[7..]))
  {
    NotQuit(input);
  }

  lemma ClassifyRoll(input: string)
    requires StartsWith(input, "/roll ")
    ensures Classify(input) == ParseRoll(input[6..])
  {
    NotQuit(input);
    assert input[1] != "/greet "[1];
  }

  lemma ClassifyEcho(input: string)
    requires StartsWith(input, "/echo ")
    ensures Classify(input) == Echo(Trim(input[6..]))
  {
    NotQuit(input);
    assert input[1] != "/greet "[1] && input[1] != "/roll "[1];
  }

  lemma ClassifyUnrecognized(input: string)
    requires |input| > 5 && input[0] == '/' && input[1] !in "gre"
    ensures Classify(input) == Unrecognized
  {
    NotQuit(input);
    assert !StartsWith(input, "/greet ") && !StartsWith(input, "/roll ") && !StartsWith(input, "/echo ") by {
      assert "/greet "[1] == 'g' && "/roll "[1] == 'r' && "/echo "[1] == 'e';
    }
  }

  lemma DivBelow(a: int, b: int, q: int)
    requires 0 <= a && b > 0 && a < b * q
    ensures a / b < q
  {
  }

  /**
   * The die shows 1 to `sides` when sides is positive, 1 when it is 0, and
   * sides + 2 to 1 when it is negative (the product is truncated toward zero).
   */
  lemma RollInRange(sides: int, d: Draw)
    requires ValidDraw(d)
    ensures sides >= 1 ==> 1 <= RollValue(sides, d) <= sides
    ensures sides == 0 ==> RollValue(sides, d) == 1
    ensures sides < 0 ==> sides + 2 <= RollValue(sides, d) <= 1
  {
    if sides >= 1 {
      ScaledBelow(d.num, d.den, sides);
    } else if sides < 0 {
      ScaledBelow(d.num, d.den, -sides);
      assert -(d.num * sides) == d.num * -sides;
    }
  }

  /** A fraction num/den below one, scaled by k, stays below k. */
  lemma ScaledBelow(num: nat, den: nat, k: int)
    requires num < den && k >= 1
    ensures 0 <= (num * k) / den < k
  {
    ScaledLess(num, den, k);
    DivBelow(num * k, den, k);
  }

  lemma {:induction false} ScaledLess(num: nat, den: nat, k: int)
    requires num < den && k >= 1
    ensures 0 <= num * k < den * k
    decreases k
  {
    if k > 1 {
      ScaledLess(num, den, k - 1);
      assert num * k == num * (k - 1) + num;
      assert den * k == den * (k - 1) + den;
    }
  }

  lemma TrimKeeps(s: string)
    requires s != [] && !IsTrimmed(s[0]) && !IsTrimmed(s[|s| - 1])
    ensures Trim(s) == s
  {
  }

  lemma PiecesAround(a: string, b: string, sep: char)
    requires sep !in a && sep !in b
    ensures Pieces(a + [sep] + b, sep) == [a, b]
    decreases |a|
  {
    if a == [] {
      assert [sep] + b == a + [sep] + b;
      assert (a + [sep] + b)[1..] == b;
      PiecesWithout(b, sep);
    } else {
      assert (a + [sep] + b)[1..] == a[1..] + [sep] + b;
      PiecesAround(a[1..], b, sep);
      assert [a[0]] + a[1..] == a;
    }
  }

  lemma {:induction false} PiecesWithout(s: string, sep: char)
    requires sep !in s
    ensures Pieces(s, sep) == [s]
  {
    if s != [] {
      PiecesWithout(s[1..], sep);
      assert [s[0]] + s[1..] == s;
    }
  }

  /** An int printed in decimal holds no 'd' and no blank at either end. */
  lemma IntTextFacts(n: int)
    ensures var t := IntToString(n);
      'd' !in t && !IsTrimmed(t[0]) && !IsTrimmed(t[|t| - 1])
  {
    var t := IntToString(n);
    var ds := Digits(if n < 0 then -n else n);
    assert forall k :: 0 <= k < |ds| ==> IsDigit(ds[k]);
    if n < 0 {
      assert t == "-" + ds;
      assert forall k :: 1 <= k < |t| ==> t[k] == ds[k - 1];
    }
  }

  /** Blanks around a word with no blank at either end are all that trim removes. */
  lemma {:induction false} TrimStartPadded(pad: string, w: string)
    requires forall i :: 0 <= i < |pad| ==> IsTrimmed(pad[i])
    requires w != [] && !IsTrimmed(w[0])
    ensures TrimStart(pad + w) == w
  {
    if pad != [] {
      assert (pad + w)[1..] == pad[1..] + w;
      TrimStartPadded(pad[1..], w);
    } else {
      assert pad + w == w;
    }
  }

  lemma {:induction false} TrimEndPadded(w: string, pad: string)
    requires forall i :: 0 <= i < |pad| ==> IsTrimmed(pad[i])
    requires w != [] && !IsTrimmed(w[|w| - 1])
    ensures TrimEnd(w + pad) == w
  {
    if pad != [] {
      var p' := pad[..|pad| - 1];
      assert (w + pad)[..|w + pad| - 1] == w + p';
      TrimEndPadded(w, p');
    } else {
      assert w + pad == w;
    }
  }

  lemma TrimPadded(before: string, w: string, after: string)
    requires forall i :: 0 <= i < |before| ==> IsTrimmed(before[i])
    requires forall i :: 0 <= i < |after| ==> IsTrimmed(after[i])
    requires w != [] && !IsTrimmed(w[0]) && !IsTrimmed(w[|w| - 1])
    ensures Trim(before + w + after) == w
  {
    assert before + w + after == before + (w + after);
    TrimStartPadded(before, w + after);
    TrimEndPadded(w, after);
  }

  /** Any spelling of "/quit" in any letter case, between any blanks, ends the loop. */
  lemma QuitIgnoresCase(before: string, word: string, after: string)
    requires forall i :: 0 <= i < |before| ==> IsTrimmed(before[i])
    requires forall i :: 0 <= i < |after| ==> IsTrimmed(after[i])
    requires EqualsIgnoreCase(word, "/quit")
    ensures Parse(before + word + after) == Quit
  {
    assert LowerChar(word[0]) == '/' && LowerChar(word[4]) == 't';
    TrimPadded(before, word, after);
  }

  /** The split of "a" + 'd' + "b" with neither piece holding a 'd'. */
  lemma SplitAround(a: string, b: string)
    requires 'd' !in a && 'd' !in b && b != ""
    ensures Split(a + "d" + b, 'd') == [a, b]
    ensures Split(a + "d" + b + "d", 'd') == [a, b]
  {
    var s := a + "d" + b;
    assert s[|a|] == 'd';
    PiecesAround(a, b, 'd');
    var t := s + "d";
    assert t[|a|] == 'd';
    PiecesAfter(a, b);
    assert [a, b, ""][..2] == [a, b];
  }

  lemma PiecesAfter(a: string, b: string)
    requires 'd' !in a && 'd' !in b
    ensures Pieces(a + "d" + b + "d", 'd') == [a, b, ""]
    decreases |a|
  {
    if a == [] {
      var t := a + "d" + b + "d";
      assert t[1..] == b + "d";
      PiecesAroundEmpty(b);
    } else {
      assert (a + "d" + b + "d")[1..] == a[1..] + "d" + b + "d";
      PiecesAfter(a[1..], b);
      assert [a[0]] + a[1..] == a;
    }
  }

  lemma PiecesAroundEmpty(b: string)
    requires 'd' !in b
    ensures Pieces(b + "d", 'd') == [b, ""]
  {
    PiecesAround(b, "", 'd');
    assert b + ['d'] + "" == b + "d";
  }

  /** Two printed Java ints around a 'd' parse back to those ints, with or without a trailing 'd'. */
  lemma RollArgRoundTrip(num: int, sides: int)
    requires InInt32(num) && InInt32(sides)
    ensures ParseRoll(IntToString(num) + "d" + IntToString(sides)) == Roll(num, sides)
    ensures ParseRoll(IntToString(num) + "d" + IntToString(sides) + "d") == Roll(num, sides)
  {
    var a, b := IntToString(num), IntToString(sides);
    IntTextFacts(num);
    IntTextFacts(sides);
    SplitAround(a, b);
    TrimKeeps(a);
    TrimKeeps(b);
    IntRoundTrip(num);
    IntRoundTrip(sides);
  }

  /** "/roll <num>d<sides>" with both numbers printed by Java parses back to them. */
  lemma RollRoundTrip(num: int, sides: int)
    requires InInt32(num) && InInt32(sides)
    ensures Parse("/roll " + IntToString(num) + "d" + IntToString(sides)) == Roll(num, sides)
  {
    var a, b := IntToString(num), IntToString(sides);
    var arg := a + "d" + b;
    var line := "/roll " + a + "d" + b;
    assert line == "/roll " + arg;
    assert line[..6] == "/roll " && line[6..] == arg;
    assert line[|line| - 1] == b[|b| - 1];
    EndsInIntTrimmed(line, sides);
    ClassifyRoll(line);
    RollArgRoundTrip(num, sides);
  }

  /** A line from '/' to the last digit of a printed int is already trimmed. */
  lemma EndsInIntTrimmed(line: string, n: int)
    requires line != [] && line[0] == '/'
    requires var t := IntToString(n); line[|line| - 1] == t[|t| - 1]
    ensures Trim(line) == line
  {
    IntTextFacts(n);
    TrimKeeps(line);
  }

  /** A name with no blank at either end comes back in the greeting unchanged. */
  lemma GreetRoundTrip(name: string, d: Draw)
    requires name != [] && !IsTrimmed(name[0]) && !IsTrimmed(name[|name| - 1])
    requires ValidDraw(d)
    ensures Parse("/greet " + name) == Greet(name)
    ensures Respond(Parse("/greet " + name), d) == "Hello, " + name + "!"
  {
    var line := "/greet " + name;
    TrimKeeps(line);
    TrimKeeps(name);
    assert line[..7] == "/greet " && line[7..] == name;
    ClassifyGreet(line);
  }

  /** "/echo " followed by a message with no blank at either end prints that message. */
  lemma EchoRoundTrip(message: string, d: Draw)
    requires message != [] && !IsTrimmed(message[0]) && !IsTrimmed(message[|message| - 1])
    requires ValidDraw(d)
    ensures Parse("/echo " + message) == Echo(message)
    ensures Respond(Parse("/echo " + message), d) == message
  {
    var line := "/echo " + message;
    TrimKeeps(line);
    TrimKeeps(message);
    assert line[..6] == "/echo " && line[6..] == message;
    ClassifyEcho(line);
  }

  /** Only /quit ignores case: "/GREET " followed by a name is not a greeting. */
  lemma GreetIsCaseSensitive(name: string)
    requires name != [] && !IsTrimmed(name[0]) && !IsTrimmed(name[|name| - 1])
    ensures Parse("/GREET " + name) == Unrecognized
  {
    var line := "/GREET " + name;
    TrimKeeps(line);
    assert line[1] == 'G';
    ClassifyUnrecognized(line);
  }

  /** Trimming comes first, so "/greet" followed only by blanks lacks the space of the prefix. */
  lemma BareGreetUnrecognized(after: string)
    requires forall i :: 0 <= i < |after| ==> IsTrimmed(after[i])
    ensures Parse("/greet" + after) == Unrecognized
  {
    TrimPadded([], "/greet", after);
    assert [] + "/greet" + after == "/greet" + after;
    NotQuit("/greet");
  }

  /** "<num>d" splits into the one piece "<num>": a format error. */
  lemma MissingSidesIsFormatError(a: string)
    requires a != [] && 'd' !in a
    ensures ParseRoll(a + "d") == BadRollFormat
  {
    PiecesAroundEmpty(a);
    assert (a + "d")[|a|] == 'd';
  }

  /** "d<sides>" splits into "" and "<sides>", and "" is not a number. */
  lemma MissingCountIsNumberError(b: string)
    requires b != [] && 'd' !in b
    ensures ParseRoll("d" + b) == BadRollNumbers
  {
    PiecesAround("", b, 'd');
    assert "" + ['d'] + b == "d" + b;
    assert ("d" + b)[0] == 'd';
  }
}
