/** The generation step of `generate_ai_content`: the hosted model's answer
    (or its failure sentinel) and the line parser that turns the analysis
    answer into a summary and an action label. */
module AiContent {
  import opened Wrappers
  import opened Text

  /** Outcome of one call to the hosted model; the call itself is foreign. */
  datatype Generation = Generated(text: string) | Failed(message: string)

  /** `get_gemini_response`: the answer text, or the sentinel `"Error: <message>"`. */
  function ReplyText(g: Generation): (r: string)
    ensures g.Failed? ==> |r| >= 7 && r[..7] == "Error: " && r[7..] == g.message
    ensures g.Generated? ==> r == g.text
  {
    match g
    case Generated(text) => text
    case Failed(message) => "Error: " + message
  }

  const SummaryKey: string := "Summary:"
  const ActionKey: string := "Action:"
  const Separator: string := ": "
  const DefaultSummary: string := "General Feedback"
  const DefaultAction: string := "Review Manually"
  const PendingSummary: string := "Analysis Pending"

  /** Summary and action label stored with a review. */
  datatype Analysis = Analysis(summary: string, action: string)

  /** What the bare `except` substitutes for both fields. */
  const Pending: Analysis := Analysis(PendingSummary, DefaultAction)

  /** `analysis.split('\n')`. */
  function Lines(text: string): seq<string>
  {
    Split(text, "\n")
  }

  /** The text between the first and the second separator of `line`, or to
      the end of the line when there is no second one. */
  function Segment(line: string): string
    requires Contains(line, Separator)
  {
    var i := IndexOf(line, Separator).value;
    var rest := line[i + |Separator|..];
    match IndexOf(rest, Separator)
    case None => rest
    case Some(j) => rest[..j]
  }

  /** `line.split(': ')[1]`, None where Python raises IndexError because the
      line holds no separator. */
  function SecondField(line: string): (r: Option<string>)
    ensures r.None? <==> !Contains(line, Separator)
    ensures r.Some? ==> r.value == Segment(line)
  {
    var parts := Split(line, Separator);
    if |parts| >= 2 then SecondPiece(line); Some(parts[1]) else None
  }

  /** The second piece of the split is the segment after the first separator. */
  lemma SecondPiece(line: string)
    requires Contains(line, Separator)
    ensures |Split(line, Separator)| >= 2 && Split(line, Separator)[1] == Segment(line)
  {
    var i := IndexOf(line, Separator).value;
    var rest := line[i + |Separator|..];
    assert Split(line, Separator) == [line[..i]] + Split(rest, Separator);
    match IndexOf(rest, Separator)
    case None =>
      assert Split(rest, Separator) == [rest];
    case Some(j) =>
      assert Split(rest, Separator) == [rest[..j]] + Split(rest[j + |Separator|..], Separator);
  }

  /** Line `i` is the first line that contains `key`. */
  ghost predicate Chosen(lines: seq<string>, key: string, i: nat)
  {
    i < |lines| && Contains(lines[i], key) && forall j :: 0 <= j < i ==> !Contains(lines[j], key)
  }

  /** No line contains `key`. */
  ghost predicate Absent(lines: seq<string>, key: string)
  {
    forall i :: 0 <= i < |lines| ==> !Contains(lines[i], key)
  }

  /** The first line that contains `key` holds no separator. */
  ghost predicate Broken(lines: seq<string>, key: string)
  {
    exists i: nat :: Chosen(lines, key, i) && !Contains(lines[i], Separator)
  }

  /** Index of the first line containing `key`: the filter of the generator
      expression, which `next` consumes only up to its first element. */
  function FirstWith(lines: seq<string>, key: string): (r: Option<nat>)
    ensures r.Some? ==> Chosen(lines, key, r.value)
    ensures r.None? ==> Absent(lines, key)
  {
    if lines == [] then None
    else if Contains(lines[0], key) then Some(0)
    else
      match FirstWith(lines[1..], key)
      case None => None
      case Some(k) => Some(k + 1)
  }

  /** `next((line.split(': ')[1] for line in lines if key in line), default)`;
      None stands for the IndexError raised on the chosen line. */
  function Extract(lines: seq<string>, key: string, default: string): (r: Option<string>)
    ensures r.None? <==> Broken(lines, key)
    ensures Absent(lines, key) ==> r == Some(default)
    ensures forall i: nat :: Chosen(lines, key, i) && Contains(lines[i], Separator) ==> r == Some(Segment(lines[i]))
  {
    match FirstWith(lines, key)
    case None => Some(default)
    case Some(i) => SecondField(lines[i])
  }

  /** The `try` block: the summary is extracted first, so a broken summary
      line raises before the action is looked at. */
  function TryParse(text: string): Option<Analysis>
  {
    var lines := Lines(text);
    match Extract(lines, SummaryKey, DefaultSummary)
    case None => None
    case Some(summary) =>
      match Extract(lines, ActionKey, DefaultAction)
      case None => None
      case Some(action) => Some(Analysis(summary, action))
  }

  /** The parse step of `generate_ai_content`, with its catch-all fallback. */
  function ParseAnalysis(text: string): (r: Analysis)
    ensures Broken(Lines(text), SummaryKey) || Broken(Lines(text), ActionKey) ==> r == Pending
    ensures !Broken(Lines(text), SummaryKey) && !Broken(Lines(text), ActionKey) ==>
      && (Absent(Lines(text), SummaryKey) ==> r.summary == DefaultSummary)
      && (forall i: nat :: Chosen(Lines(text), SummaryKey, i) ==> r.summary == Segment(Lines(text)[i]))
      && (Absent(Lines(text), ActionKey) ==> r.action == DefaultAction)
      && (forall i: nat :: Chosen(Lines(text), ActionKey, i) ==> r.action == Segment(Lines(text)[i]))
  {
    match TryParse(text)
    case None => Pending
    case Some(a) => a
  }

  /** A line `name + ": " + v`, with no colon in the name and no separator in
      `v`, has `v` as its segment. */
  lemma LabelledSegment(name: string, v: string)
    requires forall k :: 0 <= k < |name| ==> name[k] != ':'
    requires !Contains(v, Separator)
    ensures Contains(name + Separator + v, Separator)
    ensures Segment(name + Separator + v) == v
  {
    var line := name + Separator + v;
    assert line[|name|..|name| + 2] == Separator;
    assert OccursAt(line, Separator, |name|);
    forall j: nat | j < |name|
      ensures !OccursAt(line, Separator, j)
    {
      assert line[j] == name[j];
    }
    assert IndexOf(line, Separator) == Some(|name|);
    assert line[|name| + 2..] == v;
  }

  /** Two lines without line breaks, joined by one, split back into them. */
  lemma TwoLines(l0: string, l1: string)
    requires !Contains(l0, "\n") && !Contains(l1, "\n")
    ensures Lines(l0 + "\n" + l1) == [l0, l1]
  {
    assert Join([l0, l1], "\n") == l0 + "\n" + l1 by {
      assert [l0, l1][1..] == [l1];
    }
    SplitJoinChar([l0, l1], '\n');
  }

  /** What the parser sees in a line `Summary: s`. */
  lemma SummaryLine(s: string)
    requires !Contains(s, "\n") && !Contains(s, Separator) && !Contains(s, ActionKey)
    ensures var l0 := "Summary: " + s;
      && !Contains(l0, "\n") && Contains(l0, SummaryKey) && !Contains(l0, ActionKey)
      && Contains(l0, Separator) && Segment(l0) == s
  {
    var l0 := "Summary: " + s;
    ContainsAfterPrefix("Summary: ", s, "\n");
    ContainsAfterPrefix("Summary: ", s, ActionKey);
    assert l0[..8] == SummaryKey;
    ContainsAt(l0, SummaryKey, 0);
    assert "Summary" + Separator + s == l0;
    LabelledSegment("Summary", s);
  }

  /** When both keys are chosen on lines that hold the separator, the parse
      yields the two segments. */
  lemma ParseChosen(text: string, i: nat, j: nat)
    requires Chosen(Lines(text), SummaryKey, i) && Contains(Lines(text)[i], Separator)
    requires Chosen(Lines(text), ActionKey, j) && Contains(Lines(text)[j], Separator)
    ensures ParseAnalysis(text) == Analysis(Segment(Lines(text)[i]), Segment(Lines(text)[j]))
  {
    var lines := Lines(text);
    assert Extract(lines, SummaryKey, DefaultSummary) == Some(Segment(lines[i]));
    assert Extract(lines, ActionKey, DefaultAction) == Some(Segment(lines[j]));
    assert TryParse(text) == Some(Analysis(Segment(lines[i]), Segment(lines[j])));
  }

  /** An answer in the requested two-line shape is parsed into its two values,
      provided neither value holds a line break or the separator and the
      summary does not mention the action key. */
  lemma WellFormedAnswer(s: string, a: string)
    requires !Contains(s, "\n") && !Contains(a, "\n")
    requires !Contains(s, Separator) && !Contains(a, Separator)
    requires !Contains(s, ActionKey)
    ensures ParseAnalysis("Summary: " + s + "\n" + "Action: " + a) == Analysis(s, a)
  {
    var l0, l1 := "Summary: " + s, "Action: " + a;
    SummaryLine(s);
    ActionLine(a);
    TwoLines(l0, l1);
    var text := l0 + "\n" + l1;
    assert "Summary: " + s + "\n" + "Action: " + a == text;
    assert Lines(text) == [l0, l1];
    assert Chosen(Lines(text), SummaryKey, 0);
    assert Chosen(Lines(text), ActionKey, 1);
    ParseChosen(text, 0, 1);
  }

  /** What the parser sees in a line `Action: a`. */
  lemma ActionLine(a: string)
    requires !Contains(a, "\n") && !Contains(a, Separator)
    ensures var l1 := "Action: " + a;
      && !Contains(l1, "\n") && Contains(l1, ActionKey)
      && Contains(l1, Separator) && Segment(l1) == a
  {
    var l1 := "Action: " + a;
    ContainsAfterPrefix("Action: ", a, "\n");
    assert l1[..7] == ActionKey;
    ContainsAt(l1, ActionKey, 0);
    assert "Action" + Separator + a == l1;
    LabelledSegment("Action", a);
  }

  /** Once the answer holds a summary line and an action line, whatever text
      follows it changes nothing: only the first matching lines are read. */
  lemma LaterTextIgnored(a: string, b: string)
    requires !Absent(Lines(a), SummaryKey) && !Absent(Lines(a), ActionKey)
    ensures ParseAnalysis(a + "\n" + b) == ParseAnalysis(a)
  {
    SplitAroundChar(a, b, '\n');
    var la, lb := Lines(a), Lines(b);
    assert Lines(a + "\n" + b) == la + lb;
    FirstWithPrefix(la, lb, SummaryKey);
    FirstWithPrefix(la, lb, ActionKey);
    assert Extract(la + lb, SummaryKey, DefaultSummary) == Extract(la, SummaryKey, DefaultSummary);
    assert Extract(la + lb, ActionKey, DefaultAction) == Extract(la, ActionKey, DefaultAction);
  }

  /** Lines appended after a match do not move the first match. */
  lemma {:induction false} FirstWithPrefix(la: seq<string>, lb: seq<string>, key: string)
    requires !Absent(la, key)
    ensures FirstWith(la + lb, key) == FirstWith(la, key)
  {
    assert (la + lb)[0] == la[0];
    if !Contains(la[0], key) {
      assert (la + lb)[1..] == la[1..] + lb;
      FirstWithPrefix(la[1..], lb, key);
    }
  }

  /** A failed analysis call yields both defaults, as long as the error
      message itself mentions neither key. */
  lemma FailedAnalysisDefaults(message: string)
    requires !Contains(message, SummaryKey) && !Contains(message, ActionKey)
    ensures ParseAnalysis(ReplyText(Failed(message))) == Analysis(DefaultSummary, DefaultAction)
  {
    var text := ReplyText(Failed(message));
    assert text == "Error: " + message;
    ContainsAfterPrefix("Error: ", message, SummaryKey);
    ContainsAfterPrefix("Error: ", message, ActionKey);
    var lines := Lines(text);
    forall i | 0 <= i < |lines|
      ensures !Contains(lines[i], SummaryKey) && !Contains(lines[i], ActionKey)
    {
      if Contains(lines[i], SummaryKey) { SplitPieceWithin(text, "\n", i, SummaryKey); }
      if Contains(lines[i], ActionKey) { SplitPieceWithin(text, "\n", i, ActionKey); }
    }
  }

  /** A summary line alone is parsed, with the default action. */
  lemma SummaryOnly(s: string)
    requires !Contains(s, "\n") && !Contains(s, Separator) && !Contains(s, ActionKey)
    ensures ParseAnalysis("Summary: " + s) == Analysis(s, DefaultAction)
  {
    var l0 := "Summary: " + s;
    SummaryLine(s);
    SplitJoinChar([l0], '\n');
    assert Lines(l0) == [l0];
    assert Chosen(Lines(l0), SummaryKey, 0);
  }

  /** An action line without the separator discards a summary that was
      already extracted: the pair falls back to the pending values. */
  lemma BrokenActionDiscardsSummary(s: string, line: string)
    requires !Contains(s, "\n") && !Contains(s, Separator) && !Contains(s, ActionKey)
    requires !Contains(line, "\n") && Contains(line, ActionKey) && !Contains(line, Separator)
    ensures ParseAnalysis("Summary: " + s) == Analysis(s, DefaultAction)
    ensures ParseAnalysis("Summary: " + s + "\n" + line) == Pending
  {
    SummaryOnly(s);
    var l0 := "Summary: " + s;
    SummaryLine(s);
    TwoLines(l0, line);
    var lines := Lines(l0 + "\n" + line);
    assert Chosen(lines, ActionKey, 1) && !Contains(lines[1], Separator);
    assert Broken(lines, ActionKey);
  }
}
