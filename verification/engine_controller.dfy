/** The decision controller (engines/engine_controller.py): decides whether
    a node is expanded breadth-wise, depth-wise or not at all. */
module EngineController {
  import opened Common
  import opened Text
  import opened DepthEngine

  const Breadth := "BREADTH"
  const Depth := "DEPTH"
  const Complete := "COMPLETE"

  predicate IsKnownDecision(d: string) {
    d == Breadth || d == Depth || d == Complete
  }

  /** The controller's result dictionary: `decision`, `questions`, `layer`
      and `analysis_focus` (None or a string). */
  datatype Decision = Decision(decision: string, questions: seq<string>, layer: int, focus: Option<string>)

  /** What `process` returns: a decision dictionary, the base engine's
      error dictionary (which has no `decision` key), or None when the retry
      loop runs zero times. */
  datatype ControllerOutput =
    | Decided(d: Decision)
    | EngineError(message: string)
    | NoDecision

  /** DEFAULT_RESPONSE with the caller's layer. */
  function Default(layer: int): (d: Decision)
    ensures d.decision == Breadth && d.questions == [] && d.layer == layer && d.focus == None
  {
    Decision(Breadth, [], layer, None)
  }

  // -----------------------------------------------------------------------
  // _parse_decision

  datatype Section = NoSection | DecisionSection | QuestionsSection | FocusSection

  /** The parser's running state: the decision and focus seen so far, the
      current section and the questions collected. */
  datatype Scan = Scan(decision: Option<string>, section: Section, questions: seq<string>, focus: Option<string>)

  const Start := Scan(None, NoSection, [], None)

  /** What one stripped line tells the parser, matched in the parser's order:
      a `Decision:` header, a `Questions:` header, an `Analysis Focus:`
      header, a `- ` item, or nothing. */
  datatype LineInfo =
    | DecisionInfo(value: string)
    | QuestionsInfo
    | FocusInfo(value: string)
    | ItemInfo(item: string)
    | OtherInfo

  function Classify(line: string): LineInfo {
    if StartsWith(line, "Decision:") then DecisionInfo(FieldValue(line))
    else if StartsWith(line, "Questions:") then QuestionsInfo
    else if StartsWith(line, "Analysis Focus:") then FocusInfo(FieldValue(line))
    else if StartsWith(line, "- ") then ItemInfo(Strip(line[2..]))
    else OtherInfo
  }

  function ClassifyAll(lines: seq<string>): (r: seq<LineInfo>)
    ensures |r| == |lines|
    ensures forall k :: 0 <= k < |lines| ==> r[k] == Classify(lines[k])
  {
    if |lines| == 0 then [] else [Classify(lines[0])] + ClassifyAll(lines[1..])
  }

  /** One line's effect on the parser state; an item only counts inside the
      questions section. */
  function ScanLine(st: Scan, info: LineInfo): Scan {
    match info
    case DecisionInfo(v) => st.(decision := Some(v), section := DecisionSection)
    case QuestionsInfo => st.(section := QuestionsSection)
    case FocusInfo(v) => st.(focus := Some(v), section := FocusSection)
    case ItemInfo(q) => if st.section == QuestionsSection then st.(questions := st.questions + [q]) else st
    case OtherInfo => st
  }

  function ScanLines(st: Scan, infos: seq<LineInfo>): Scan
    decreases |infos|
  {
    if |infos| == 0 then st else ScanLines(ScanLine(st, infos[0]), infos[1..])
  }

  /** The stripped, non-blank lines of a response. */
  function NonBlankLines(lines: seq<string>): (r: seq<string>)
    ensures |r| <= |lines|
  {
    if |lines| == 0 then []
    else
      var l := Strip(lines[0]);
      (if l == "" then [] else [l]) + NonBlankLines(lines[1..])
  }

  /** The lines the parser reads: each line of the response, stripped, with
      the blank ones dropped. */
  function Lines(response: string): seq<string> {
    NonBlankLines(Split(response, "\n"))
  }

  /** The parser state after every line of a response. */
  function ScanResponse(response: string): Scan {
    ScanLines(Start, ClassifyAll(Lines(response)))
  }

  /** `_parse_decision(response, current_layer)`. A response without a
      `Decision:` line is the default response; otherwise the last
      `Decision:` line decides, the questions are the items under a
      `Questions:` header, and the focus is the last `Analysis Focus:`
      value. */
  function ParseDecision(response: string, layer: int): (d: Decision)
    ensures d.layer == layer
    ensures LastHeaderValue(Lines(response), "Decision:").None? ==> d == Default(layer)
    ensures LastHeaderValue(Lines(response), "Decision:").Some? ==>
      d == Decision(LastHeaderValue(Lines(response), "Decision:").value, Questions(Lines(response)),
                    layer, LastHeaderValue(Lines(response), "Analysis Focus:"))
  {
    var st := ScanResponse(response);
    ScanWhole(Lines(response));
    match st.decision
    case None => Default(layer)
    case Some(v) => Decision(v, st.questions, layer, st.focus)
  }

  // -----------------------------------------------------------------------
  // What the parser's loop amounts to over a whole list of lines

  /** For each line, the value it carries when it starts with `header`. */
  function HeaderValues(lines: seq<string>, header: string): (r: seq<Option<string>>)
    ensures |r| == |lines|
    ensures forall k :: 0 <= k < |lines| ==>
      r[k] == if StartsWith(lines[k], header) then Some(FieldValue(lines[k])) else None
  {
    if |lines| == 0 then []
    else [if StartsWith(lines[0], header) then Some(FieldValue(lines[0])) else None] + HeaderValues(lines[1..], header)
  }

  /** Reference definition: the value of the last line that starts with
      `header`, None exactly when no line does. */
  function LastHeaderValue(lines: seq<string>, header: string): (r: Option<string>)
    ensures r.None? <==> forall k :: 0 <= k < |lines| ==> !StartsWith(lines[k], header)
    ensures r.Some? ==> exists k :: 0 <= k < |lines| && StartsWith(lines[k], header) && r.value == FieldValue(lines[k])
                                    && forall j :: k < j < |lines| ==> !StartsWith(lines[j], header)
  {
    var xs := HeaderValues(lines, header);
    match LastIndex(xs)
    case Some(k) => Some(FieldValue(lines[k]))
    case None =>
      assert forall k :: 0 <= k < |lines| ==> xs[k].None?;
      None
  }

  /** The section a header line opens, matched in the parser's order. */
  function SectionOf(line: string): Option<Section> {
    if StartsWith(line, "Decision:") then Some(DecisionSection)
    else if StartsWith(line, "Questions:") then Some(QuestionsSection)
    else if StartsWith(line, "Analysis Focus:") then Some(FocusSection)
    else None
  }

  function SectionsOf(lines: seq<string>): (r: seq<Option<Section>>)
    ensures |r| == |lines|
    ensures forall k :: 0 <= k < |lines| ==> r[k] == SectionOf(lines[k])
  {
    if |lines| == 0 then [] else [SectionOf(lines[0])] + SectionsOf(lines[1..])
  }

  /** The section in force after some lines: the one the last header line
      opened, or none before any header. */
  function SectionAfter(lines: seq<string>): Section {
    match LastIndex(SectionsOf(lines))
    case Some(k) => SectionOf(lines[k]).value
    case None => NoSection
  }

  /** Line k is a question: a `- ` line that is no header, after a
      `Questions:` header with no other header in between. */
  predicate IsQuestionAt(lines: seq<string>, k: nat)
    requires k < |lines|
  {
    SectionOf(lines[k]).None? && StartsWith(lines[k], "- ") && SectionAfter(lines[..k]) == QuestionsSection
  }

  /** The questions among the first n lines, in order, each with its dash
      removed and stripped. */
  function QuestionsUpTo(lines: seq<string>, n: nat): seq<string>
    requires n <= |lines|
    decreases n
  {
    if n == 0 then []
    else QuestionsUpTo(lines, n - 1) + (if IsQuestionAt(lines, n - 1) then [Strip(lines[n - 1][2..])] else [])
  }

  function Questions(lines: seq<string>): seq<string> {
    QuestionsUpTo(lines, |lines|)
  }

  /** A line starting with one header does not start with another. */
  lemma HeadersExclusive(line: string)
    ensures StartsWith(line, "Analysis Focus:") ==> !StartsWith(line, "Decision:") && !StartsWith(line, "Questions:")
  {
    if StartsWith(line, "Analysis Focus:") {
      assert line[0] == line[..15][0];
      NotStartsWith(line, "Decision:");
      NotStartsWith(line, "Questions:");
    }
  }

  /** One line's effect on the parser, stated field by field. */
  lemma ScanLineEffect(st: Scan, line: string)
    ensures ScanLine(st, Classify(line)) ==
      Scan(if StartsWith(line, "Decision:") then Some(FieldValue(line)) else st.decision,
           match SectionOf(line) case Some(s) => s case None => st.section,
           st.questions + (if SectionOf(line).None? && StartsWith(line, "- ") && st.section == QuestionsSection
                           then [Strip(line[2..])] else []),
           if StartsWith(line, "Analysis Focus:") then Some(FieldValue(line)) else st.focus)
  {
    HeadersExclusive(line);
  }

  lemma LastHeaderAppend(lines: seq<string>, line: string, header: string)
    ensures LastHeaderValue(lines + [line], header)
            == if StartsWith(line, header) then Some(FieldValue(line)) else LastHeaderValue(lines, header)
  {
    var x := if StartsWith(line, header) then Some(FieldValue(line)) else None;
    assert HeaderValues(lines + [line], header) == HeaderValues(lines, header) + [x];
    LastIndexAppend(HeaderValues(lines, header), x);
  }

  lemma SectionAfterAppend(lines: seq<string>, line: string)
    ensures SectionAfter(lines + [line]) == match SectionOf(line) case Some(s) => s case None => SectionAfter(lines)
  {
    assert SectionsOf(lines + [line]) == SectionsOf(lines) + [SectionOf(line)];
    LastIndexAppend(SectionsOf(lines), SectionOf(line));
  }

  /** After the first n lines of any list, the parser holds the last
      `Decision:` value, the section of the last header, the questions
      under a `Questions:` header, and the last `Analysis Focus:` value. */
  lemma {:induction false} ScanPrefix(lines: seq<string>, n: nat)
    requires n <= |lines|
    decreases n
    ensures ScanLines(Start, ClassifyAll(lines[..n]))
            == Scan(LastHeaderValue(lines[..n], "Decision:"), SectionAfter(lines[..n]),
                    QuestionsUpTo(lines, n), LastHeaderValue(lines[..n], "Analysis Focus:"))
  {
    if n == 0 {
      assert lines[..0] == [];
      assert ClassifyAll([]) == [];
      assert LastHeaderValue([], "Decision:") == None && LastHeaderValue([], "Analysis Focus:") == None;
    } else {
      var p, l := lines[..n - 1], lines[n - 1];
      ScanPrefix(lines, n - 1);
      var st := ScanLines(Start, ClassifyAll(p));
      assert ScanLines(Start, ClassifyAll(lines[..n])) == ScanLine(st, Classify(l)) by {
        assert lines[..n] == p + [l];
        ClassifyAllAppend(p, [l]);
        assert ClassifyAll([l]) == [Classify(l)];
        ScanLinesAppend(Start, ClassifyAll(p), [Classify(l)]);
      }
      ScanLineEffect(st, l);
      assert lines[..n] == p + [l];
      LastHeaderAppend(p, l, "Decision:");
      LastHeaderAppend(p, l, "Analysis Focus:");
      SectionAfterAppend(p, l);
    }
  }

  /** The parser over a whole list of lines. */
  lemma ScanWhole(lines: seq<string>)
    ensures ScanLines(Start, ClassifyAll(lines))
            == Scan(LastHeaderValue(lines, "Decision:"), SectionAfter(lines),
                    Questions(lines), LastHeaderValue(lines, "Analysis Focus:"))
  {
    ScanPrefix(lines, |lines|);
    assert lines[..|lines|] == lines;
  }

  /** The engine base class turns a failed model call into an error
      dictionary; `_parse_decision` cannot split it and falls back to the
      default. */
  function ParseReply(reply: CallOutcome, layer: int): (d: Decision)
    ensures d.layer == layer
    ensures reply.CallFailed? ==> d == Default(layer)
  {
    match reply
    case Reply(t) => ParseDecision(t, layer)
    case CallFailed(_) => Default(layer)
  }

  // -----------------------------------------------------------------------
  // _evaluate_with_retry and process

  /** The message of the AttributeError raised by reading `self.retry_delay`,
      which the constructor never assigns (it sets `retry_delaye`). */
  const RetryDelayError := "'EngineController' object has no attribute 'retry_delay'"

  /** One pass of the retry loop. A rejected decision on a non-final
      attempt reaches `time.sleep(self.retry_delay)`, which raises, so the
      loop never gets to a second attempt. Returns the outcome and the number
      of model calls made. */
  function EvaluateWithRetry(replies: nat -> CallOutcome, layer: int, maxRetries: int): (r: (ControllerOutput, nat))
    ensures r.1 <= 1
    ensures maxRetries <= 0 <==> r.0.NoDecision?
    ensures r.0.Decided? ==> r.0.d.layer == layer && IsKnownDecision(r.0.d.decision)
    ensures maxRetries > 0 && IsKnownDecision(ParseReply(replies(0), layer).decision)
            ==> r.0 == Decided(ParseReply(replies(0), layer))
    ensures maxRetries == 1 && !IsKnownDecision(ParseReply(replies(0), layer).decision)
            ==> r.0 == Decided(Default(layer))
    ensures maxRetries > 1 && !IsKnownDecision(ParseReply(replies(0), layer).decision)
            ==> r.0 == EngineError(RetryDelayError)
  {
    if maxRetries <= 0 then (NoDecision, 0)
    else
      var d := ParseReply(replies(0), layer);
      if IsKnownDecision(d.decision) then (Decided(d), 1)
      else if 0 < maxRetries - 1 then (EngineError(RetryDelayError), 1)
      else (Decided(Default(layer)), 1)
  }

  /** `process(content, original_query, further_query, current_layer)` with
      the controller's `max_layer` and `max_retries`. The prompt inputs only
      shape the replies, which are given. Returns the output and the number
      of model calls. */
  function Process(replies: nat -> CallOutcome, layer: int, maxLayer: int, maxRetries: int): (r: (ControllerOutput, nat))
    ensures layer >= maxLayer ==> r == (Decided(Decision(Complete, [], layer, None)), 0)
    ensures r.0.Decided? ==> r.0.d.layer == layer && IsKnownDecision(r.0.d.decision)
    ensures r.1 <= 1
  {
    if layer >= maxLayer then (Decided(Decision(Complete, [], layer, None)), 0)
    else EvaluateWithRetry(replies, layer, maxRetries)
  }

  // -----------------------------------------------------------------------
  // The reply format the prompt asks for, and the parser's inverse property

  lemma {:induction false} ScanLinesAppend(st: Scan, a: seq<LineInfo>, b: seq<LineInfo>)
    decreases |a|
    ensures ScanLines(st, a + b) == ScanLines(ScanLines(st, a), b)
  {
    if |a| == 0 {
      assert a + b == b;
    } else {
      assert (a + b)[0] == a[0];
      assert (a + b)[1..] == a[1..] + b;
      ScanLinesAppend(ScanLine(st, a[0]), a[1..], b);
    }
  }

  function Items(qs: seq<string>): (r: seq<LineInfo>)
    ensures |r| == |qs|
    ensures forall k :: 0 <= k < |qs| ==> r[k] == ItemInfo(qs[k])
  {
    if |qs| == 0 then [] else [ItemInfo(qs[0])] + Items(qs[1..])
  }

  /** Inside the questions section every item is appended in order. */
  lemma {:induction false} ScanItems(d: Option<string>, acc: seq<string>, f: Option<string>, qs: seq<string>)
    decreases |qs|
    ensures ScanLines(Scan(d, QuestionsSection, acc, f), Items(qs)) == Scan(d, QuestionsSection, acc + qs, f)
  {
    if |qs| > 0 {
      assert Items(qs)[1..] == Items(qs[1..]);
      ScanItems(d, acc + [qs[0]], f, qs[1..]);
      assert acc + [qs[0]] + qs[1..] == acc + qs;
    } else {
      assert acc + qs == acc;
    }
  }

  lemma NonBlankLinesCons(lines: seq<string>)
    requires |lines| > 0 && lines[0] != "" && IsStripped(lines[0])
    ensures NonBlankLines(lines) == [lines[0]] + NonBlankLines(lines[1..])
  {
    StripStripped(lines[0]);
  }

  lemma {:induction false} NonBlankLinesOfFields(lines: seq<string>)
    requires forall k :: 0 <= k < |lines| ==> lines[k] != "" && IsStripped(lines[k])
    decreases |lines|
    ensures NonBlankLines(lines) == lines
  {
    if |lines| > 0 {
      NonBlankLinesCons(lines);
      NonBlankLinesOfFields(lines[1..]);
      assert [lines[0]] + lines[1..] == lines;
    }
  }

  function QuestionLines(qs: seq<string>): (r: seq<string>)
    ensures |r| == |qs|
    ensures forall k :: 0 <= k < |qs| ==> r[k] == "- " + qs[k]
  {
    if |qs| == 0 then [] else ["- " + qs[0]] + QuestionLines(qs[1..])
  }

  /** The lines of a well-formed reply for a decision. */
  function RenderLines(decision: string, questions: seq<string>, focus: string): seq<string> {
    ["Decision: " + decision, "Questions:"] + QuestionLines(questions) + ["Analysis Focus: " + focus]
  }

  /** A well-formed reply: `Decision:`, `Questions:` with one `- ` line per
      question, `Analysis Focus:`. */
  function Render(decision: string, questions: seq<string>, focus: string): string {
    Join(RenderLines(decision, questions, focus), "\n")
  }

  lemma ClassifyDecision(v: string)
    requires IsField(v)
    ensures Classify("Decision: " + v) == DecisionInfo(v)
  {
    var line := "Decision: " + v;
    DecisionHeader();
    FieldLine("Decision: ", v);
    PrefixStartsWith("Decision: ", v, 9);
    DecisionLineInfo(line, v);
  }

  lemma DecisionLineInfo(line: string, v: string)
    requires StartsWith(line, "Decision:") && FieldValue(line) == v
    ensures Classify(line) == DecisionInfo(v)
  {
  }

  lemma ClassifyQuestions()
    ensures Classify("Questions:") == QuestionsInfo
  {
    NotStartsWith("Questions:", "Decision:");
  }

  lemma ClassifyFocus(v: string)
    requires IsField(v)
    ensures Classify("Analysis Focus: " + v) == FocusInfo(v)
  {
    FocusLineHeaders(v);
    FieldLine("Analysis Focus: ", v);
  }

  lemma FocusLineHeaders(v: string)
    ensures !StartsWith("Analysis Focus: " + v, "Decision:")
    ensures !StartsWith("Analysis Focus: " + v, "Questions:")
    ensures StartsWith("Analysis Focus: " + v, "Analysis Focus:")
  {
    var line := "Analysis Focus: " + v;
    NotStartsWith(line, "Decision:");
    NotStartsWith(line, "Questions:");
    assert line[..15] == "Analysis Focus:";
  }

  lemma ClassifyItem(q: string)
    requires IsField(q)
    ensures Classify("- " + q) == ItemInfo(q)
  {
    var line := "- " + q;
    NotStartsWith(line, "Decision:");
    NotStartsWith(line, "Questions:");
    NotStartsWith(line, "Analysis Focus:");
    assert line[..2] == "- ";
    assert line[2..] == q;
    StripStripped(q);
  }

  lemma {:induction false} ClassifyAllAppend(a: seq<string>, b: seq<string>)
    ensures ClassifyAll(a + b) == ClassifyAll(a) + ClassifyAll(b)
  {
    var l, r := ClassifyAll(a + b), ClassifyAll(a) + ClassifyAll(b);
    forall k | 0 <= k < |a + b| ensures l[k] == r[k] {
      if k < |a| {
        assert (a + b)[k] == a[k];
      } else {
        assert (a + b)[k] == b[k - |a|];
      }
    }
  }

  lemma {:induction false} ClassifyQuestionLines(qs: seq<string>)
    requires forall k :: 0 <= k < |qs| ==> IsField(qs[k])
    ensures ClassifyAll(QuestionLines(qs)) == Items(qs)
  {
    forall k | 0 <= k < |qs| ensures ClassifyAll(QuestionLines(qs))[k] == Items(qs)[k] {
      ClassifyItem(qs[k]);
    }
  }

  lemma ClassifyRendered(decision: string, questions: seq<string>, focus: string)
    requires IsField(decision) && IsField(focus)
    requires forall k :: 0 <= k < |questions| ==> IsField(questions[k])
    ensures ClassifyAll(RenderLines(decision, questions, focus))
            == [DecisionInfo(decision), QuestionsInfo] + Items(questions) + [FocusInfo(focus)]
  {
    var head := ["Decision: " + decision, "Questions:"];
    var tail := ["Analysis Focus: " + focus];
    assert ClassifyAll(head) == [DecisionInfo(decision), QuestionsInfo] by {
      ClassifyPair(head[0], head[1]);
      ClassifyDecision(decision);
      ClassifyQuestions();
    }
    assert ClassifyAll(tail) == [FocusInfo(focus)] by {
      ClassifyFocus(focus);
    }
    ClassifyQuestionLines(questions);
    ClassifyAllAppend(head, QuestionLines(questions));
    ClassifyAllAppend(head + QuestionLines(questions), tail);
  }

  lemma ClassifyPair(a: string, b: string)
    ensures ClassifyAll([a, b]) == [Classify(a), Classify(b)]
  {
    assert [a, b][1..] == [b];
  }

  lemma RenderLinesShape(decision: string, questions: seq<string>, focus: string)
    requires IsField(decision) && IsField(focus)
    requires forall k :: 0 <= k < |questions| ==> IsField(questions[k])
    ensures var lines := RenderLines(decision, questions, focus);
      forall k :: 0 <= k < |lines| ==> lines[k] != "" && IsStripped(lines[k]) && !Contains(lines[k], "\n")
  {
    var head := ["Decision: " + decision, "Questions:"];
    var mid := QuestionLines(questions);
    var tail := ["Analysis Focus: " + focus];
    LineHeaders();
    HeadedField("Decision: ", decision);
    HeadedField("Analysis Focus: ", focus);
    forall k | 0 <= k < |mid| ensures OneLine(mid[k]) {
      HeadedField("- ", questions[k]);
    }
    AllOneLine(head, mid, tail);
  }

  lemma LineHeaders()
    ensures LineHeader("Decision: ") && LineHeader("- ") && LineHeader("Analysis Focus: ")
    ensures OneLine("Questions:")
  {
    DecisionHeader();
    FocusHeader();
    QuestionsHeader();
  }

  lemma DecisionHeader()
    ensures LineHeader("Decision: ") && FieldHeader("Decision: ")
    ensures "Decision: "[..9] == "Decision:"
  {
  }

  lemma FocusHeader()
    ensures LineHeader("Analysis Focus: ")
  {
  }

  lemma QuestionsHeader()
    ensures OneLine("Questions:")
  {
    CharAbsent("Questions:", '\n');
  }

  /** A non-empty, stripped line without a line break. */
  predicate OneLine(line: string) {
    line != "" && IsStripped(line) && !Contains(line, "\n")
  }

  lemma AllOneLine(head: seq<string>, mid: seq<string>, tail: seq<string>)
    requires forall k :: 0 <= k < |head| ==> OneLine(head[k])
    requires forall k :: 0 <= k < |mid| ==> OneLine(mid[k])
    requires forall k :: 0 <= k < |tail| ==> OneLine(tail[k])
    ensures forall k :: 0 <= k < |head + mid + tail| ==> OneLine((head + mid + tail)[k])
  {
  }

  lemma ScanRendered(decision: string, questions: seq<string>, focus: string)
    ensures ScanLines(Start, [DecisionInfo(decision), QuestionsInfo] + Items(questions) + [FocusInfo(focus)])
            == Scan(Some(decision), FocusSection, questions, Some(focus))
  {
    var head := [DecisionInfo(decision), QuestionsInfo];
    assert ScanLines(Start, head) == Scan(Some(decision), QuestionsSection, [], None) by {
      var st1 := Scan(Some(decision), DecisionSection, [], None);
      assert ScanLine(Start, head[0]) == st1;
      assert head[1..] == [QuestionsInfo];
      assert ScanLines(st1, [QuestionsInfo]) == ScanLines(ScanLine(st1, QuestionsInfo), []);
    }
    ScanItems(Some(decision), [], None, questions);
    ScanLinesAppend(Start, head, Items(questions));
    ScanLinesAppend(Start, head + Items(questions), [FocusInfo(focus)]);
    assert [] + questions == questions;
  }

  /** Parsing a well-formed reply gives back its decision, its questions in
      order and its focus, at the caller's layer. */
  lemma RenderThenParse(decision: string, questions: seq<string>, focus: string, layer: int)
    requires IsField(decision) && IsField(focus)
    requires forall k :: 0 <= k < |questions| ==> IsField(questions[k])
    ensures ParseDecision(Render(decision, questions, focus), layer)
            == Decision(decision, questions, layer, Some(focus))
  {
    var lines := RenderLines(decision, questions, focus);
    RenderLinesShape(decision, questions, focus);
    SplitJoin(lines, '\n');
    NonBlankLinesOfFields(lines);
    ClassifyRendered(decision, questions, focus);
    ScanRendered(decision, questions, focus);
  }

  /** A reply without any `Decision:` line is accepted at once as the
      default BREADTH decision. */
  lemma NoDecisionLineGivesDefault(response: string, layer: int, maxLayer: int, maxRetries: int)
    requires layer < maxLayer && maxRetries > 0
    requires forall k :: 0 <= k < |Lines(response)| ==> !StartsWith(Lines(response)[k], "Decision:")
    ensures Process(_ => Reply(response), layer, maxLayer, maxRetries) == (Decided(Default(layer)), 1)
  {
    assert LastHeaderValue(Lines(response), "Decision:").None?;
  }

  /** A failed model call is accepted at once as the default BREADTH
      decision. */
  lemma FailedCallGivesDefault(message: string, layer: int, maxLayer: int, maxRetries: int)
    requires layer < maxLayer && maxRetries > 0
    ensures Process(_ => CallFailed(message), layer, maxLayer, maxRetries) == (Decided(Default(layer)), 1)
  {
  }
}
