/** The final answer (executors/response_handler.py): the sorted node
    summaries are formatted and sent to the model, dropping the last node
    after each context-length error, for at most five attempts. The model
    call is an oracle indexed by the attempt number and the formatted
    summaries; a failing prompt template surfaces through it as well, since
    both raise inside the same attempt. */
module ResponseHandler {
  import opened Common
  import opened Text
  import opened SummaryManager

  const MaxRetries := 5
  const TokenError := "context_length_exceeded"
  const Apology := "I apologize, but your query resulted in a very comprehensive analysis that exceeds my processing limits. Please try a more specific query or break your question into smaller parts."
  const FellThrough := "Unable to generate a response due to technical limitations. Please try a different query."
  const ErrorPrefix := "An error occurred during analysis. Please try your query again. Error details: "

  /** How an f-string prints the optional node type. */
  function TypeText(t: Option<string>): string {
    match t
    case Some(v) => v
    case None => "None"
  }

  function Header(s: Summary): string {
    "--- Node " + s.nodeId + " (Layer " + IntToString(s.layer) + ", Type: " + TypeText(s.nodeType) + ") ---\n"
  }

  /** The block one node contributes; none when its content is blank. */
  function Formatted(s: Summary): (r: Option<string>)
    ensures r.None? <==> IsBlank(s.content)
  {
    StripEmptyIffBlank(s.content);
    var c := Strip(s.content);
    if c == "" then None else Some(Header(s) + c + "\n")
  }

  function FormatSummaries(nodes: seq<Summary>): seq<string>
    decreases |nodes|
  {
    if |nodes| == 0 then []
    else
      FormatSummaries(nodes[..|nodes| - 1])
      + match Formatted(nodes[|nodes| - 1]) case Some(f) => [f] case None => []
  }

  function Combined(nodes: seq<Summary>): string {
    Join(FormatSummaries(nodes), "\n")
  }

  /** `node_summaries[:n]`. */
  function Take(xs: seq<Summary>, n: nat): (r: seq<Summary>)
    ensures |r| == if n < |xs| then n else |xs|
    ensures r == xs[..|r|]
  {
    if n < |xs| then xs[..n] else xs
  }

  /** `max(1, nodes_to_use - 1)`. */
  function Shrink(n: nat): nat {
    if n <= 1 then 1 else n - 1
  }

  /** Python `"context_length_exceeded" in str(e).lower()`. */
  predicate IsTokenError(message: string) {
    Contains(Lower(message), TokenError)
  }

  /** Python's test for a context-length failure of one call. */
  predicate TokenFailure(o: CallOutcome) {
    o.CallFailed? && IsTokenError(o.message)
  }

  /** The model call of one attempt, sending the first `nodes` nodes. */
  function Ask(sorted: seq<Summary>, chat: (nat, string) -> CallOutcome, retry: nat, nodes: nat): CallOutcome {
    chat(retry, Combined(Take(sorted, nodes)))
  }

  /** Each attempt after the first sends `Shrink` of what the previous one
      sent. */
  predicate ShrinksStepwise(used: seq<nat>) {
    forall k :: 0 <= k < |used| - 1 ==> used[k + 1] == Shrink(used[k])
  }

  /** The answer, and how many nodes each attempt sent. */
  datatype Answer = Answer(text: string, used: seq<nat>)

  /** The retry loop from attempt `retry` on, with `nodes` nodes to send. */
  function Attempts(sorted: seq<Summary>, chat: (nat, string) -> CallOutcome, retry: nat, nodes: nat): (a: Answer)
    requires retry < MaxRetries
    decreases MaxRetries - retry
    ensures 1 <= |a.used| <= MaxRetries - retry
    ensures a.used[0] == nodes
    ensures ShrinksStepwise(a.used)
  {
    match Ask(sorted, chat, retry, nodes)
    case Reply(text) => Answer(text, [nodes])
    case CallFailed(m) =>
      if !IsTokenError(m) then Answer(ErrorPrefix + m, [nodes])
      else if retry == MaxRetries - 1 then Answer(Apology, [nodes])
      else
        var rest := Attempts(sorted, chat, retry + 1, Shrink(nodes));
        Answer(rest.text, [nodes] + rest.used)
  }

  /** `generate_response(original_query, summaries, stats)`. */
  function GenerateResponse(summaries: seq<Summary>, chat: (nat, string) -> CallOutcome): (a: Answer)
    ensures 1 <= |a.used| <= MaxRetries
    ensures a.used[0] == |summaries|
  {
    Attempts(SortByKey(summaries), chat, 0, |summaries|)
  }

  /** The same loop written as the source's `for` loop. The statement after
      the loop is never reached: the fifth attempt returns on every path. */
  method GenerateResponseLoop(summaries: seq<Summary>, chat: (nat, string) -> CallOutcome)
    returns (text: string, fellThrough: bool)
    ensures text == GenerateResponse(summaries, chat).text
    ensures !fellThrough
  {
    var sorted := SortByKey(summaries);
    var nodes: nat := |summaries|;
    var retry: nat := 0;
    fellThrough := false;
    while retry < MaxRetries
      invariant retry < MaxRetries
      invariant Attempts(sorted, chat, retry, nodes).text == GenerateResponse(summaries, chat).text
      decreases MaxRetries - retry
    {
      var outcome := Ask(sorted, chat, retry, nodes);
      match outcome {
        case Reply(t) =>
          return t, false;
        case CallFailed(m) =>
          if !IsTokenError(m) {
            return ErrorPrefix + m, false;
          }
          nodes := Shrink(nodes);
          if retry == MaxRetries - 1 {
            return Apology, false;
          }
      }
      retry := retry + 1;
    }
    assert false;
    return FellThrough, true;
  }

  // -----------------------------------------------------------------------
  // The retry loop

  /** The k-th attempt sends all nodes when k is 0 and otherwise one node
      fewer per earlier attempt, but never fewer than one. */
  lemma {:induction false} UsedClosedForm(used: seq<nat>, k: nat)
    requires ShrinksStepwise(used)
    requires k < |used|
    ensures used[k] == if k == 0 then used[0] else if used[0] - k >= 1 then used[0] - k else 1
  {
    if k > 0 {
      UsedClosedForm(used, k - 1);
    }
  }

  /** A first reply is the answer, and no other call is made. */
  lemma FirstReplyReturned(summaries: seq<Summary>, chat: (nat, string) -> CallOutcome)
    requires chat(0, Combined(SortByKey(summaries))).Reply?
    ensures GenerateResponse(summaries, chat).text == chat(0, Combined(SortByKey(summaries))).text
    ensures |GenerateResponse(summaries, chat).used| == 1
  {
    FirstAsk(summaries, chat);
    ReplyEndsAttempts(SortByKey(summaries), chat, 0, |summaries|);
  }

  /** The first attempt sends every sorted node. */
  lemma FirstAsk(summaries: seq<Summary>, chat: (nat, string) -> CallOutcome)
    ensures Ask(SortByKey(summaries), chat, 0, |summaries|) == chat(0, Combined(SortByKey(summaries)))
  {
  }

  lemma ReplyEndsAttempts(sorted: seq<Summary>, chat: (nat, string) -> CallOutcome, retry: nat, nodes: nat)
    requires retry < MaxRetries
    requires Ask(sorted, chat, retry, nodes).Reply?
    ensures Attempts(sorted, chat, retry, nodes).text == Ask(sorted, chat, retry, nodes).text
    ensures |Attempts(sorted, chat, retry, nodes).used| == 1
  {
  }

  /** A context-length error retries with one node fewer, until the last
      attempt, which apologises. */
  lemma TokenErrorStep(sorted: seq<Summary>, chat: (nat, string) -> CallOutcome, retry: nat, nodes: nat)
    requires retry < MaxRetries
    requires TokenFailure(Ask(sorted, chat, retry, nodes))
    ensures retry == MaxRetries - 1 ==>
      Attempts(sorted, chat, retry, nodes).text == Apology && |Attempts(sorted, chat, retry, nodes).used| == 1
    ensures retry < MaxRetries - 1 ==>
      Attempts(sorted, chat, retry, nodes).text == Attempts(sorted, chat, retry + 1, Shrink(nodes)).text
      && |Attempts(sorted, chat, retry, nodes).used| == 1 + |Attempts(sorted, chat, retry + 1, Shrink(nodes)).used|
  {
  }

  /** An error other than a context-length error, on any attempt, ends the
      loop with the error report and no further call. */
  lemma OtherErrorReported(sorted: seq<Summary>, chat: (nat, string) -> CallOutcome, retry: nat, nodes: nat)
    requires retry < MaxRetries
    requires Ask(sorted, chat, retry, nodes).CallFailed?
    requires !IsTokenError(Ask(sorted, chat, retry, nodes).message)
    ensures Attempts(sorted, chat, retry, nodes).text == ErrorPrefix + Ask(sorted, chat, retry, nodes).message
    ensures |Attempts(sorted, chat, retry, nodes).used| == 1
  {
  }

  /** In particular an error other than a context-length error on the first
      call, which sends every summary, is what `generate_response` reports. */
  lemma FirstOtherErrorReported(summaries: seq<Summary>, chat: (nat, string) -> CallOutcome)
    requires chat(0, Combined(SortByKey(summaries))).CallFailed?
    requires !IsTokenError(chat(0, Combined(SortByKey(summaries))).message)
    ensures GenerateResponse(summaries, chat).text == ErrorPrefix + chat(0, Combined(SortByKey(summaries))).message
  {
    FirstAsk(summaries, chat);
    OtherErrorReported(SortByKey(summaries), chat, 0, |summaries|);
  }

  /** The model answers every call with a context-length error. */
  ghost predicate AlwaysTooLong(chat: (nat, string) -> CallOutcome) {
    forall k, s :: TokenFailure(chat(k, s))
  }

  /** A model that always reports a context-length error gets five attempts
      and the apology. */
  lemma TokenErrorsExhaustRetries(summaries: seq<Summary>, chat: (nat, string) -> CallOutcome)
    requires AlwaysTooLong(chat)
    ensures GenerateResponse(summaries, chat).text == Apology
    ensures |GenerateResponse(summaries, chat).used| == MaxRetries
  {
    AlwaysTokenError(SortByKey(summaries), chat, 0, |summaries|);
  }

  lemma {:induction false} AlwaysTokenError(sorted: seq<Summary>, chat: (nat, string) -> CallOutcome, retry: nat, nodes: nat)
    requires retry < MaxRetries
    requires AlwaysTooLong(chat)
    decreases MaxRetries - retry
    ensures Attempts(sorted, chat, retry, nodes).text == Apology
    ensures |Attempts(sorted, chat, retry, nodes).used| == MaxRetries - retry
  {
    TooLongAsk(sorted, chat, retry, nodes);
    TokenErrorStep(sorted, chat, retry, nodes);
    if retry < MaxRetries - 1 {
      AlwaysTokenError(sorted, chat, retry + 1, Shrink(nodes));
    }
  }

  lemma TooLongAsk(sorted: seq<Summary>, chat: (nat, string) -> CallOutcome, retry: nat, nodes: nat)
    requires AlwaysTooLong(chat)
    ensures TokenFailure(Ask(sorted, chat, retry, nodes))
  {
  }

  /** The answer is a model reply, the apology or an error report; the
      fall-through message only comes back if the model itself says it. */
  lemma {:induction false} AnswerForms(sorted: seq<Summary>, chat: (nat, string) -> CallOutcome, retry: nat, nodes: nat)
    requires retry < MaxRetries
    decreases MaxRetries - retry
    ensures var t := Attempts(sorted, chat, retry, nodes).text;
      t == Apology || StartsWith(t, ErrorPrefix)
      || exists k, s :: retry <= k < MaxRetries && chat(k, s) == Reply(t)
  {
    match Ask(sorted, chat, retry, nodes)
    case Reply(text) =>
      assert chat(retry, Combined(Take(sorted, nodes))) == Reply(text);
    case CallFailed(m) =>
      if !IsTokenError(m) {
        assert (ErrorPrefix + m)[..|ErrorPrefix|] == ErrorPrefix;
      } else if retry < MaxRetries - 1 {
        AnswerForms(sorted, chat, retry + 1, Shrink(nodes));
      }
  }

  // -----------------------------------------------------------------------
  // The error test and the formatting

  /** The context-length test ignores letter case. */
  lemma TokenErrorIgnoresCase(a: string, p: string, b: string)
    requires Lower(p) == TokenError
    ensures IsTokenError(a + p + b)
  {
    assert Lower(a + p + b) == Lower(a) + TokenError + Lower(b);
    ContainsInside(Lower(a), TokenError, Lower(b));
  }

  /** Formatting is done node by node. */
  lemma {:induction false} FormatAppend(xs: seq<Summary>, ys: seq<Summary>)
    decreases |ys|
    ensures FormatSummaries(xs + ys) == FormatSummaries(xs) + FormatSummaries(ys)
  {
    if |ys| == 0 {
      assert xs + ys == xs;
    } else {
      var init, last := ys[..|ys| - 1], ys[|ys| - 1];
      assert (xs + ys)[..|xs + ys| - 1] == xs + init;
      assert (xs + ys)[|xs + ys| - 1] == last;
      FormatAppend(xs, init);
    }
  }

  /** Nodes whose content is blank contribute nothing. */
  lemma {:induction false} BlankNodesSkipped(nodes: seq<Summary>)
    requires forall k :: 0 <= k < |nodes| ==> IsBlank(nodes[k].content)
    decreases |nodes|
    ensures FormatSummaries(nodes) == []
  {
    if |nodes| > 0 {
      BlankNodesSkipped(nodes[..|nodes| - 1]);
    }
  }

  /** A node with content contributes one block: its header line, its
      stripped content and a line break. */
  lemma OneNodeBlock(s: Summary)
    requires !IsBlank(s.content)
    ensures FormatSummaries([s]) == [Header(s) + Strip(s.content) + "\n"]
  {
    assert [s][..0] == [];
  }
}
