/** The depth engine (engines/depth_engine.py): extracts the single
    follow-up question from the model's reply. */
module DepthEngine {
  import opened Common
  import opened Text

  const Fallback := "What are the primary factors influencing this situation?"

  /** The question a line carries, if it starts with `Question:`. Lines are
      matched as they stand; only the reply as a whole is stripped. */
  function QuestionOf(line: string): Option<string> {
    if StartsWith(line, "Question:") then Some(FieldValue(line)) else None
  }

  function QuestionsOf(lines: seq<string>): (r: seq<Option<string>>)
    ensures |r| == |lines|
    ensures forall k :: 0 <= k < |lines| ==> r[k] == QuestionOf(lines[k])
  {
    if |lines| == 0 then [] else [QuestionOf(lines[0])] + QuestionsOf(lines[1..])
  }

  /** The parser's loop: each `Question:` line overwrites the value kept so
      far. */
  function Overwrite(kept: Option<string>, xs: seq<Option<string>>): Option<string>
    decreases |xs|
  {
    if |xs| == 0 then kept else Overwrite(if xs[0].Some? then xs[0] else kept, xs[1..])
  }

  /** Reference definition: the position of the last present value. */
  function LastIndex<T>(xs: seq<Option<T>>): (r: Option<nat>)
    decreases |xs|
    ensures r.Some? ==> r.value < |xs| && xs[r.value].Some?
    ensures r.Some? ==> forall j :: r.value < j < |xs| ==> xs[j].None?
    ensures r.None? ==> forall j :: 0 <= j < |xs| ==> xs[j].None?
  {
    if |xs| == 0 then None
    else if xs[|xs| - 1].Some? then Some(|xs| - 1)
    else LastIndex(xs[..|xs| - 1])
  }

  /** Appending a value makes it the last; appending nothing keeps the
      last position. */
  lemma LastIndexAppend<T>(xs: seq<Option<T>>, x: Option<T>)
    ensures LastIndex(xs + [x]) == if x.Some? then Some(|xs|) else LastIndex(xs)
  {
    assert (xs + [x])[..|xs|] == xs;
  }

  /** The question the lines of a reply give: the value of the last
      `Question:` line, or the stock question when there is none. */
  function ParseLines(lines: seq<string>): (q: string)
    ensures LastIndex(QuestionsOf(lines)).None? ==> q == Fallback
    ensures LastIndex(QuestionsOf(lines)).Some? ==> q == FieldValue(lines[LastIndex(QuestionsOf(lines)).value])
  {
    var xs := QuestionsOf(lines);
    OverwriteIsLast(xs);
    match Overwrite(None, xs)
    case Some(q) => q
    case None => Fallback
  }

  /** `_parse_question(response)`. */
  function ParseQuestion(response: string): string {
    ParseLines(Split(Strip(response), "\n"))
  }

  /** `process(content, original_query)`. A failed model call comes back as
      an error dictionary, which the parser cannot strip; its exception
      handler returns the stock question. */
  function Process(reply: CallOutcome): (q: string)
    ensures reply.CallFailed? ==> q == Fallback
    ensures reply.Reply? ==> q == ParseQuestion(reply.text)
  {
    match reply
    case Reply(t) => ParseQuestion(t)
    case CallFailed(_) => Fallback
  }

  // -----------------------------------------------------------------------
  // The last `Question:` line wins

  lemma {:induction false} OverwriteAppend(kept: Option<string>, xs: seq<Option<string>>, x: Option<string>)
    decreases |xs|
    ensures Overwrite(kept, xs + [x]) == if x.Some? then x else Overwrite(kept, xs)
  {
    if |xs| == 0 {
      assert xs + [x] == [x];
      assert [x][1..] == [];
    } else {
      assert (xs + [x])[0] == xs[0];
      assert (xs + [x])[1..] == xs[1..] + [x];
      OverwriteAppend(if xs[0].Some? then xs[0] else kept, xs[1..], x);
    }
  }

  /** Overwriting from the front keeps exactly the last present value. */
  lemma {:induction false} OverwriteIsLast(xs: seq<Option<string>>)
    decreases |xs|
    ensures Overwrite(None, xs) == match LastIndex(xs) case Some(k) => xs[k] case None => None
  {
    if |xs| > 0 {
      var init, x := xs[..|xs| - 1], xs[|xs| - 1];
      assert xs == init + [x];
      OverwriteAppend(None, init, x);
      OverwriteIsLast(init);
    }
  }

  // -----------------------------------------------------------------------
  // The reply format the prompt asks for, and the parser's inverse property

  lemma QuestionLineOf(q: string)
    requires IsStripped(q)
    ensures QuestionOf("Question: " + q) == Some(q)
  {
    assert ("Question: " + q)[..9] == "Question:";
    FieldLine("Question: ", q);
  }

  /** A reply whose only `Question:` line is the last one, preceded by other
      one-line remarks, yields that question. */
  lemma RenderThenParse(preamble: seq<string>, q: string)
    requires forall k :: 0 <= k < |preamble| ==> IsField(preamble[k]) && !StartsWith(preamble[k], "Question:")
    requires IsField(q)
    ensures ParseQuestion(Join(preamble + ["Question: " + q], "\n")) == q
  {
    RenderedLines(preamble, q);
    ParseRendered(Join(preamble + ["Question: " + q], "\n"), preamble, q);
  }

  lemma ParseRendered(response: string, preamble: seq<string>, q: string)
    requires Split(Strip(response), "\n") == preamble + ["Question: " + q]
    requires forall k :: 0 <= k < |preamble| ==> !StartsWith(preamble[k], "Question:")
    requires IsStripped(q)
    ensures ParseQuestion(response) == q
  {
    LastLineWins(preamble, q);
  }

  lemma LastLineWins(preamble: seq<string>, q: string)
    requires forall k :: 0 <= k < |preamble| ==> !StartsWith(preamble[k], "Question:")
    requires IsStripped(q)
    ensures ParseLines(preamble + ["Question: " + q]) == q
  {
    var lines := preamble + ["Question: " + q];
    QuestionLineOf(q);
    var xs := QuestionsOf(lines);
    assert xs[|preamble|] == Some(q);
    assert LastIndex(xs) == Some(|preamble|);
  }

  lemma RenderedLines(preamble: seq<string>, q: string)
    requires forall k :: 0 <= k < |preamble| ==> IsField(preamble[k])
    requires IsField(q)
    ensures var lines := preamble + ["Question: " + q];
      Split(Strip(Join(lines, "\n")), "\n") == lines
  {
    var lines := preamble + ["Question: " + q];
    forall k | 0 <= k < |lines| ensures lines[k] != "" && !Contains(lines[k], "\n") {
      if k < |preamble| {
        CharAbsent(preamble[k], '\n');
      } else {
        ConcatAvoids("Question: ", q, '\n');
      }
    }
    JoinEnds(lines, "\n");
    assert IsStripped(Join(lines, "\n")) by {
      if |preamble| > 0 {
        assert lines[0] == preamble[0];
      } else {
        assert lines[0][0] == 'Q';
      }
      assert lines[|lines| - 1] == "Question: " + q;
    }
    StripStripped(Join(lines, "\n"));
    SplitJoin(lines, '\n');
  }

  /** A `Question:` line with nothing after the colon yields the empty
      question, not the stock one. */
  lemma EmptyQuestionKept()
    ensures ParseQuestion("Question:") == ""
  {
    var line := "Question:";
    assert IsStripped(line);
    StripStripped(line);
    CharAbsent(line, '\n');
    assert Join([line], "\n") == line;
    SplitJoin([line], '\n');
    assert line[..9] == "Question:";
    assert AfterFirst(line, ":") == "" by {
      assert OccursAt(line, ":", 8);
      forall j | 0 <= j < 8 ensures !OccursAt(line, ":", j) {
        assert line[j..j + 1] == [line[j]];
      }
      assert Find(line, ":") == Some(8);
    }
    assert QuestionsOf([line]) == [Some("")];
  }

  /** Without any `Question:` line the stock question comes back. */
  lemma NoQuestionGivesFallback(lines: seq<string>)
    requires forall k :: 0 <= k < |lines| ==> !StartsWith(lines[k], "Question:")
    ensures ParseLines(lines) == Fallback
  {
    assert LastIndex(QuestionsOf(lines)).None?;
  }
}
