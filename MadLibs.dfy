/**
 * The placeholder substitution of MadLibsGenerator: every line of the story
 * is rewritten in place, one placeholder `<...>` at a time, with the answers
 * the user types, which are given here as a finite sequence.
 */
module MadLibs {
  import opened Common
  import opened JavaStrings

  /** Where the rewriting of one line, or of the story, has got to. */
  datatype Fill = Fill(line: string, used: nat, prompts: seq<string>, ok: bool)
  datatype Story = Story(lines: seq<string>, used: nat, prompts: seq<string>, ok: bool)

  /**
   * The placeholder of a line: from its first '<' to the first '>' after it,
   * both included; None when the line has no '<' or that '<' has no '>'
   * after it.
   */
  function Placeholder(line: string): (r: Option<(nat, string)>)
    ensures r.Some? ==> r.value.1 != [] && r.value.0 + |r.value.1| <= |line|
  {
    if '<' !in line then None
    else
      var s := IndexOf(line, '<', 0);
      if s == -1 then None
      else
        var e := IndexOf(line, '>', s as nat);
        if e == -1 then None
        else Some((s as nat, line[s..e + 1]))
  }

  /** What the placeholder is: the text from the first '<' to the next '>'. */
  lemma PlaceholderFacts(line: string)
    ensures var r := Placeholder(line);
      && (r.Some? ==> var (s, ph) := r.value;
            && OccursAt(line, ph, s) && |ph| >= 2 && ph[0] == '<' && ph[|ph| - 1] == '>'
            && '<' !in line[..s] && '>' !in ph[..|ph| - 1])
      && (r.None? <==> '<' !in line || IndexOf(line, '>', IndexOf(line, '<', 0) as nat) == -1)
  {
    if '<' in line {
      var s := IndexOf(line, '<', 0);
      assert s != -1 by {
        var k :| 0 <= k < |line| && line[k] == '<';
      }
      var e := IndexOf(line, '>', s as nat);
      if e != -1 {
        var ph := line[s..e + 1];
        assert '>' !in ph[..|ph| - 1] by {
          forall k | 0 <= k < |ph| - 1 ensures ph[k] != '>' {
            assert ph[k] == line[s + k];
          }
        }
        assert '<' !in line[..s] by {
          forall k | 0 <= k < s ensures line[..s][k] != '<' {
            assert line[..s][k] == line[k];
          }
        }
      }
    }
  }

  /** The prompt shows the placeholder with each '_' as a space. */
  function Prompt(ph: string): (p: string)
    ensures |p| == |ph| && '_' !in p
    ensures forall i :: 0 <= i < |ph| ==> p[i] == if ph[i] == '_' then ' ' else ph[i]
  {
    ReplaceChar(ph, '_', ' ')
  }

  /**
   * The inner `while (line.contains("<"))` loop from the answer at `used` on:
   * each round prompts for the placeholder and replaces every occurrence of
   * it by the next answer. When the answers run out after a prompt, reading
   * the next line of input fails (ok false) and the line is not written back.
   */
  function FillLine(line: string, answers: seq<string>, used: nat): (f: Fill)
    requires used <= |answers|
    ensures used <= f.used <= |answers|
    ensures f.ok ==> |f.prompts| == f.used - used
    ensures !f.ok ==> |f.prompts| == f.used - used + 1 && f.used == |answers|
    decreases |answers| - used
  {
    match Placeholder(line)
    case None => Fill(line, used, [], true)
    case Some((_, ph)) =>
      if used == |answers| then Fill(line, used, [Prompt(ph)], false)
      else
        var rest := FillLine(Replace(line, ph, answers[used]), answers, used + 1);
        Fill(rest.line, rest.used, [Prompt(ph)] + rest.prompts, rest.ok)
  }

  /** One round of the inner loop, as FillLine takes it. */
  lemma FillLineStep(line: string, answers: seq<string>, used: nat)
    requires used < |answers| && Placeholder(line).Some?
    ensures var ph := Placeholder(line).value.1;
      var rest := FillLine(Replace(line, ph, answers[used]), answers, used + 1);
      FillLine(line, answers, used) == Fill(rest.line, rest.used, [Prompt(ph)] + rest.prompts, rest.ok)
  {
  }

  /**
   * Replacing the placeholder puts the answer exactly where the placeholder
   * was: the text before it is kept, and the rest of the line has every
   * further occurrence replaced by the same answer.
   */
  lemma PlaceholderReplaced(line: string, answer: string)
    requires Placeholder(line).Some?
    ensures var (s, ph) := Placeholder(line).value;
      Replace(line, ph, answer) == line[..s] + answer + Replace(line[s + |ph|..], ph, answer)
  {
    var (s, ph) := Placeholder(line).value;
    NoEarlierPlaceholder(line);
    ReplaceFirst(line, ph, answer, s);
  }

  /** The placeholder occurs where it was found and nowhere before: it starts with the first '<'. */
  lemma NoEarlierPlaceholder(line: string)
    requires Placeholder(line).Some?
    ensures var (s, ph) := Placeholder(line).value;
      OccursAt(line, ph, s) && forall j :: 0 <= j < s ==> !OccursAt(line, ph, j)
  {
    PlaceholderFacts(line);
    var (s, ph) := Placeholder(line).value;
    forall j | 0 <= j < s
      ensures !OccursAt(line, ph, j)
    {
      assert line[..s][j] == line[j];
      if j + |ph| <= |line| {
        assert line[j..j + |ph|][0] == line[j];
      }
    }
  }

  /**
   * One round of the inner loop as FillLine takes it: the prompt shows the
   * placeholder, and answer `used` takes the placeholder's place in the line.
   */
  lemma FillLineAnswers(line: string, answers: seq<string>, used: nat)
    requires used < |answers| && Placeholder(line).Some?
    ensures var (s, ph) := Placeholder(line).value;
      var rest := FillLine(line[..s] + answers[used] + Replace(line[s + |ph|..], ph, answers[used]), answers, used + 1);
      FillLine(line, answers, used) == Fill(rest.line, rest.used, [Prompt(ph)] + rest.prompts, rest.ok)
  {
    PlaceholderReplaced(line, answers[used]);
    FillLineStep(line, answers, used);
  }

  /** A run of the inner loop resumed after `shown` prompts were already shown. */
  function Resume(shown: seq<string>, f: Fill): Fill {
    f.(prompts := shown + f.prompts)
  }

  /**
   * One round of the inner loop, resumed after the prompts already shown:
   * the prompt is the placeholder with '_' as ' ', and either the answers
   * have run out or the loop goes on with the replaced line.
   */
  lemma FillLineRound(line: string, answers: seq<string>, used: nat, shown: seq<string>)
    requires used <= |answers| && Placeholder(line).Some?
    ensures var ph := Placeholder(line).value.1;
      var shown' := shown + [Prompt(ph)];
      Resume(shown, FillLine(line, answers, used)) ==
        if used == |answers| then Fill(line, used, shown', false)
        else Resume(shown', FillLine(Replace(line, ph, answers[used]), answers, used + 1))
  {
    var ph := Placeholder(line).value.1;
    if used < |answers| {
      FillLineStep(line, answers, used);
      var next := FillLine(Replace(line, ph, answers[used]), answers, used + 1);
      AppendAssoc(shown, [Prompt(ph)], next.prompts);
    }
  }

  lemma AppendAssoc<T>(a: seq<T>, b: seq<T>, c: seq<T>)
    ensures (a + b) + c == a + (b + c)
  {
  }

  lemma AppendEmpty<T>(a: seq<T>)
    ensures a + [] == a
  {
  }

  /** The outer `for` loop from line i on. */
  function StoryFrom(lines: seq<string>, i: nat, answers: seq<string>, used: nat): (st: Story)
    requires i <= |lines| && used <= |answers|
    ensures |st.lines| == |lines|
    decreases |lines| - i
  {
    if i == |lines| then Story(lines, used, [], true)
    else
      var f := FillLine(lines[i], answers, used);
      if !f.ok then Story(lines, f.used, f.prompts, false)
      else
        var rest := StoryFrom(lines[i := f.line], i + 1, answers, f.used);
        Story(rest.lines, rest.used, f.prompts + rest.prompts, rest.ok)
  }

  /** The whole substitution: all lines, from the first answer on. */
  function Completed(lines: seq<string>, answers: seq<string>): (st: Story)
    ensures |st.lines| == |lines|
  {
    StoryFrom(lines, 0, answers, 0)
  }

  /** A line whose answers run out ends the story where it stands. */
  lemma StoryStops(lines: seq<string>, i: nat, answers: seq<string>, used: nat, f: Fill)
    requires i < |lines| && used <= |answers|
    requires f == FillLine(lines[i], answers, used) && !f.ok
    ensures StoryFrom(lines, i, answers, used) == Story(lines, f.used, f.prompts, false)
  {
  }

  /** A completed line is written back and the story goes on from the next one. */
  lemma StoryGoesOn(lines: seq<string>, i: nat, answers: seq<string>, used: nat, f: Fill)
    requires i < |lines| && used <= |answers|
    requires f == FillLine(lines[i], answers, used) && f.ok
    ensures var rest := StoryFrom(lines[i := f.line], i + 1, answers, f.used);
      StoryFrom(lines, i, answers, used) == Story(rest.lines, rest.used, f.prompts + rest.prompts, rest.ok)
  {
  }

  /**
   * The substitution loop over `lines`, rewriting each slot in place; returns
   * the prompts shown, and false when the answers ran out.
   */
  method FillStory(lines: array<string>, answers: seq<string>) returns (prompts: seq<string>, ok: bool)
    modifies lines
    ensures var st := Completed(old(lines[..]), answers);
      lines[..] == st.lines && prompts == st.prompts && ok == st.ok
  {
    ghost var goal := Completed(lines[..], answers);
    var used: nat := 0;
    prompts := [];
    ghost var rest := goal;
    ghost var cur := lines[..];
    for i := 0 to lines.Length
      invariant cur == lines[..]
      invariant used <= |answers|
      invariant rest == StoryFrom(cur, i, answers, used)
      invariant rest.lines == goal.lines && rest.used == goal.used && rest.ok == goal.ok
      invariant prompts + rest.prompts == goal.prompts
    {
      ghost var before := prompts;
      var line, lineUsed, linePrompts, lineOk := FillOneLine(lines[i], answers, used);
      ghost var f := Fill(line, lineUsed, linePrompts, lineOk);
      prompts := prompts + linePrompts;
      if !lineOk {
        StoryStops(cur, i, answers, used, f);
        ok := false;
        return;
      }
      StoryGoesOn(cur, i, answers, used, f);
      lines[i] := line;
      cur := cur[i := line];
      used := lineUsed;
      rest := StoryFrom(cur, i + 1, answers, used);
      AppendAssoc(before, linePrompts, rest.prompts);
    }
    AppendEmpty(prompts);
    ok := true;
  }

  /**
   * The inner while loop for one line: locate the placeholder (MadLibsGenerator.java:87-92),
   * prompt, read the next answer and replace every occurrence.
   */
  method FillOneLine(line0: string, answers: seq<string>, used0: nat)
    returns (line: string, used: nat, prompts: seq<string>, ok: bool)
    requires used0 <= |answers|
    ensures Fill(line, used, prompts, ok) == FillLine(line0, answers, used0)
  {
    ghost var goal := FillLine(line0, answers, used0);
    line, used, prompts := line0, used0, [];
    assert Resume([], goal) == goal;
    while '<' in line
      invariant used <= |answers|
      invariant Resume(prompts, FillLine(line, answers, used)) == goal
      decreases |answers| - used
    {
      if Placeholder(line).None? {
        AppendEmpty(prompts);
        break;
      }
      var outOfAnswers;
      line, used, prompts, outOfAnswers := PromptAndReplace(line, answers, used, prompts);
      if outOfAnswers {
        return line, used, prompts, false;
      }
    }
    ok := true;
  }

  /**
   * One pass of the inner loop body (MadLibsGenerator.java:90-96): show the placeholder with
   * '_' as ' ', then replace it by the next answer, or report that the
   * answers have run out.
   */
  method PromptAndReplace(line: string, answers: seq<string>, used: nat, prompts: seq<string>)
    returns (next: string, nextUsed: nat, shown: seq<string>, outOfAnswers: bool)
    requires used <= |answers| && Placeholder(line).Some?
    ensures nextUsed <= |answers|
    ensures outOfAnswers ==>
              Fill(next, nextUsed, shown, false) == Resume(prompts, FillLine(line, answers, used))
    ensures !outOfAnswers ==>
              nextUsed == used + 1 &&
              Resume(shown, FillLine(next, answers, nextUsed)) == Resume(prompts, FillLine(line, answers, used))
  {
    var placeholder := Placeholder(line).value.1;
    var displayPlaceholder := Prompt(placeholder);
    FillLineRound(line, answers, used, prompts);
    shown := prompts + [displayPlaceholder];
    if used == |answers| {
      return line, used, shown, true;
    }
    var userInput := answers[used];
    next := Replace(line, placeholder, userInput);
    nextUsed := used + 1;
    outOfAnswers := false;
  }

  // ---------------------------------------------------------------- properties

  /** A line without '<' is written back unchanged, and no answer is read for it. */
  lemma PlainLineKept(line: string, answers: seq<string>, used: nat)
    requires used <= |answers| && '<' !in line
    ensures FillLine(line, answers, used) == Fill(line, used, [], true)
  {
    assert Placeholder(line).None?;
  }

  /**
   * When the first '<' has no '>' after it the inner loop stops at once: the
   * line, any text after that '<' included, is kept verbatim.
   */
  lemma UnclosedLineKept(line: string, answers: seq<string>, used: nat)
    requires used <= |answers|
    requires '<' in line && IndexOf(line, '>', IndexOf(line, '<', 0) as nat) == -1
    ensures FillLine(line, answers, used) == Fill(line, used, [], true)
  {
    PlaceholderFacts(line);
  }

  /** A line the loop finished has no placeholder left: no '<', or no '>' after the first one. */
  lemma {:induction false} FilledLineDone(line: string, answers: seq<string>, used: nat)
    requires used <= |answers|
    ensures var f := FillLine(line, answers, used);
      f.ok ==> Placeholder(f.line).None?
    decreases |answers| - used
  {
    match Placeholder(line)
    case None =>
    case Some((_, ph)) =>
      if used < |answers| {
        FilledLineDone(Replace(line, ph, answers[used]), answers, used + 1);
      }
  }

  /**
   * With answers free of '<', each replacement removes at least one '<' from
   * the line, so a line reads at most as many answers as it has '<'
   * characters: the inner loop ends.
   */
  lemma {:induction false} AnswersPerLine(line: string, answers: seq<string>, used: nat)
    requires used <= |answers|
    requires forall k :: used <= k < |answers| ==> '<' !in answers[k]
    ensures FillLine(line, answers, used).used - used <= Count(line, '<')
    decreases |answers| - used
  {
    match Placeholder(line)
    case None =>
    case Some((s, ph)) =>
      if used < |answers| {
        PlaceholderFacts(line);
        var next := Replace(line, ph, answers[used]);
        CountZero(answers[used], '<');
        assert Count(ph, '<') >= 1;
        ReplaceDropsChar(line, ph, answers[used], '<', s);
        AnswersPerLine(next, answers, used + 1);
      }
  }

  /** Lines the story has not reached yet and that hold no '<' stay as they are. */
  lemma {:induction false} StoryKeepsPlainLines(lines: seq<string>, i: nat, answers: seq<string>, used: nat, k: nat)
    requires i <= |lines| && used <= |answers|
    requires k < |lines| && '<' !in lines[k]
    ensures StoryFrom(lines, i, answers, used).lines[k] == lines[k]
    decreases |lines| - i
  {
    if i < |lines| {
      var f := FillLine(lines[i], answers, used);
      if f.ok {
        if k == i {
          PlainLineKept(lines[i], answers, used);
        }
        StoryKeepsPlainLines(lines[i := f.line], i + 1, answers, f.used, k);
      }
    }
  }

  /** When the answers last, no line of the finished story holds a placeholder. */
  lemma {:induction false} StoryDone(lines: seq<string>, i: nat, answers: seq<string>, used: nat)
    requires i <= |lines| && used <= |answers|
    requires forall k :: 0 <= k < i ==> Placeholder(lines[k]).None?
    ensures var st := StoryFrom(lines, i, answers, used);
      st.ok ==> forall k :: 0 <= k < |st.lines| ==> Placeholder(st.lines[k]).None?
    decreases |lines| - i
  {
    if i < |lines| {
      var f := FillLine(lines[i], answers, used);
      if f.ok {
        FilledLineDone(lines[i], answers, used);
        StoryDone(lines[i := f.line], i + 1, answers, f.used);
      }
    }
  }

  /**
   * The completed story: one prompt per answer read when the answers last;
   * when they run out, every answer was read and the last prompt went
   * unanswered.
   */
  lemma {:induction false} StoryCounts(lines: seq<string>, i: nat, answers: seq<string>, used: nat)
    requires i <= |lines| && used <= |answers|
    ensures var st := StoryFrom(lines, i, answers, used);
      && used <= st.used <= |answers|
      && (st.ok ==> |st.prompts| == st.used - used)
      && (!st.ok ==> st.used == |answers| && |st.prompts| == st.used - used + 1)
    decreases |lines| - i
  {
    if i < |lines| {
      var f := FillLine(lines[i], answers, used);
      if f.ok {
        StoryCounts(lines[i := f.line], i + 1, answers, f.used);
      }
    }
  }

  lemma CompletedFacts(lines: seq<string>, answers: seq<string>)
    ensures var st := Completed(lines, answers);
      && |st.lines| == |lines|
      && (forall k :: 0 <= k < |lines| && '<' !in lines[k] ==> st.lines[k] == lines[k])
      && (st.ok ==> |st.prompts| == st.used && forall k :: 0 <= k < |lines| ==> Placeholder(st.lines[k]).None?)
      && (!st.ok ==> st.used == |answers| && |st.prompts| == |answers| + 1)
  {
    StoryCounts(lines, 0, answers, 0);
    StoryDone(lines, 0, answers, 0);
    forall k | 0 <= k < |lines| && '<' !in lines[k]
      ensures Completed(lines, answers).lines[k] == lines[k]
    {
      StoryKeepsPlainLines(lines, 0, answers, 0, k);
    }
  }

  /** The line "<a_b> <a_b>" with the one answer "x": both occurrences take it, after one prompt "<a b>". */
  lemma SameAnswerForEveryOccurrence()
    ensures FillLine("<a_b> <a_b>", ["x"], 0) == Fill("x x", 1, ["<a b>"], true)
  {
    ExamplePlaceholder();
    ExampleReplace();
    assert Prompt("<a_b>") == "<a b>";
    assert Placeholder("x x").None?;
  }

  lemma ExamplePlaceholder()
    ensures Placeholder("<a_b> <a_b>") == Some((0, "<a_b>"))
  {
    var line := "<a_b> <a_b>";
    assert IndexOf(line, '<', 0) == 0;
    assert IndexOf(line, '>', 0) == 4;
    assert line[0..5] == "<a_b>";
  }

  lemma ExampleReplace()
    ensures Replace("<a_b> <a_b>", "<a_b>", "x") == "x x"
  {
    var line := "<a_b> <a_b>";
    assert Replace("", "<a_b>", "x") == "";
    assert Replace("<a_b>", "<a_b>", "x") == "x" by {
      assert "<a_b>"[..5] == "<a_b>" && "<a_b>"[5..] == "";
    }
    assert Replace(" <a_b>", "<a_b>", "x") == " x" by {
      assert " <a_b>"[..5][0] != "<a_b>"[0];
      assert " <a_b>"[1..] == "<a_b>";
    }
    assert line[..5] == "<a_b>" && line[5..] == " <a_b>";
  }
}
