/** The beat relation of the rock-paper-scissors room (GameRoom.winsAgainst). */
module RpsRules {

  /** The symbols a turn may carry once it has been trimmed and lower-cased. */
  const Base: set<string> := {"r", "p", "s"}
  const Extended: set<string> := {"r", "p", "s", "f", "w"}

  /** The alphabet accepted when extra options are off or on. */
  function Alphabet(extraOptions: bool): (a: set<string>)
    ensures Base <= a <= Extended
    ensures a == Extended <==> extraOptions
  {
    if extraOptions then Extended else Base
  }

  /** Does a choice `a` beat a choice `b` under the current rule set? */
  function WinsAgainst(a: string, b: string, extraOptions: bool): bool
  {
    if !extraOptions then
      (a == "r" && b == "s") || (a == "p" && b == "r") || (a == "s" && b == "p")
    else if a == "r" then b == "s" || b == "f"
    else if a == "p" then b == "r" || b == "w"
    else if a == "s" then b == "p" || b == "w"
    else if a == "f" then b == "p" || b == "s"
    else if a == "w" then b == "f" || b == "r"
    else false
  }

  /** Nothing beats itself, and no two choices beat each other. */
  lemma NoMutualWins(a: string, b: string, extraOptions: bool)
    ensures !WinsAgainst(a, a, extraOptions)
    ensures !(WinsAgainst(a, b, extraOptions) && WinsAgainst(b, a, extraOptions))
  {
  }

  /** Only symbols of the enabled alphabet can win or lose. */
  lemma OnlyAlphabetDecides(a: string, b: string, extraOptions: bool)
    requires WinsAgainst(a, b, extraOptions)
    ensures a in Alphabet(extraOptions) && b in Alphabet(extraOptions)
  {
  }

  /** With extra options off the relation is exactly rock>scissors, paper>rock, scissors>paper. */
  lemma BaseRules(a: string, b: string)
    ensures WinsAgainst(a, b, false) <==> (a, b) in {("r", "s"), ("p", "r"), ("s", "p")}
  {
  }

  /** The set of symbols of the alphabet that `a` beats. */
  function Beaten(a: string, extraOptions: bool): set<string>
  {
    set b | b in Alphabet(extraOptions) && WinsAgainst(a, b, extraOptions)
  }

  /** Each pair of distinct symbols is decided in exactly one direction (a tournament). */
  lemma Tournament(a: string, b: string, extraOptions: bool)
    requires a in Alphabet(extraOptions) && b in Alphabet(extraOptions) && a != b
    ensures WinsAgainst(a, b, extraOptions) != WinsAgainst(b, a, extraOptions)
  {
  }

  /** With extra options every symbol beats exactly two others; without, exactly one. */
  lemma BeatsCount(a: string, extraOptions: bool)
    requires a in Alphabet(extraOptions)
    ensures |Beaten(a, extraOptions)| == if extraOptions then 2 else 1
  {
    var s := Beaten(a, extraOptions);
    if !extraOptions {
      if a == "r" { assert s == {"s"}; }
      else if a == "p" { assert s == {"r"}; }
      else { assert s == {"p"}; }
    } else {
      if a == "r" { assert s == {"s", "f"}; }
      else if a == "p" { assert s == {"r", "w"}; }
      else if a == "s" { assert s == {"p", "w"}; }
      else if a == "f" { assert s == {"p", "s"}; }
      else { assert s == {"f", "r"}; }
    }
  }
}
