/** The node builder's helpers (executors/node_generator.py): routing tasks
    to the five agents, one result per task, and the marker-wrapped node
    summary. Each agent's answer is an oracle; an agent reports its own
    failures as text, so a failed call becomes `Error occurred: ...`. */
module NodeGenerator {
  import opened Common
  import opened Text
  import opened Json
  import SummaryManager

  const AgentNames: set<string> :=
    {"event_extractor", "history_analyzer", "info_search", "news_search", "reasoning"}

  const DefaultCount := 3

  /** What an agent's `process` is given. */
  datatype AgentInput = Plain(input: Value) | News(query: Value, count: int)

  type Agents = (string, AgentInput) -> CallOutcome

  // -----------------------------------------------------------------------
  // Dispatch

  /** `_parse_news_input(task_input)` on a string: split at the first comma,
      strip both parts, and read the count, 3 when it does not parse. */
  function ParseNewsInput(input: string): (r: (string, int))
    ensures !Contains(input, ",") ==> r == (input, DefaultCount)
  {
    if Contains(input, ",") then
      var k := Find(input, ",").value;
      var count := match ParseInt(Strip(input[k + 1..])) case Some(n) => n case None => DefaultCount;
      (Strip(input[..k]), count)
    else (input, DefaultCount)
  }

  /** `_parse_news_input` on any value. A dictionary or list is searched for
      a "," key or item; one that has it fails on `split`, and a scalar
      fails the `in` test. */
  function NewsArguments(input: Value): (r: Result<AgentInput, string>)
    ensures r.Ok? ==> r.value.News?
    ensures r.Err? <==> match input
      case Str(_) => false
      case Dict(m) => "," in m
      case List(xs) => Str(",") in xs
      case _ => true
  {
    match input
    case Str(s) => var (q, c) := ParseNewsInput(s); Ok(News(Str(q), c))
    case Dict(m) => if "," in m then Err("'dict' object has no attribute 'split'") else Ok(News(input, DefaultCount))
    case List(xs) => if Str(",") in xs then Err("'list' object has no attribute 'split'") else Ok(News(input, DefaultCount))
    case _ => Err(NotIterable(input))
  }

  function UnknownAgent(name: string): string {
    "Error: Unknown agent type '" + name + "'"
  }

  /** What an agent returns: the model's text, or its own error text. */
  function AgentText(outcome: CallOutcome): string {
    match outcome
    case Reply(t) => t
    case CallFailed(m) => "Error occurred: " + m
  }

  /** `_execute_single_task(agent_name, task_input)`: an unknown name gives
      an error text without raising; `Err` is a raised exception. */
  function ExecuteSingleTask(name: string, input: Value, agents: Agents): (r: Result<string, string>)
    ensures name !in AgentNames ==> r == Ok(UnknownAgent(name))
    ensures name in AgentNames && name != "news_search" ==> r == Ok(AgentText(agents(name, Plain(input))))
    ensures r.Err? ==> name == "news_search" && NewsArguments(input).Err?
  {
    if name !in AgentNames then Ok(UnknownAgent(name))
    else if name == "news_search" then
      match NewsArguments(input)
      case Ok(args) => Ok(AgentText(agents(name, args)))
      case Err(e) => Err(e)
    else Ok(AgentText(agents(name, Plain(input))))
  }

  // -----------------------------------------------------------------------
  // One result per task

  /** One entry of `_execute_tasks`'s result list; `succeeded` is the
      status `success` (otherwise `failed`). */
  datatype TaskResult = TaskResult(taskId: Value, agent: Value, input: Value, result: string, succeeded: bool)

  function DictOr(task: Value, key: string, default: Value): Value {
    match Get(task, key) case Some(v) => v case None => default
  }

  /** The default id of a task at 1-based position `position`. */
  function TaskId(position: nat): Value {
    Str("task_" + NatToString(position))
  }

  /** One loop iteration of `_execute_tasks` for a task at 1-based
      position `position`. A string goes to `info_search`; a dictionary
      names its agent, lower-cased; any other value makes even the
      exception handler fail, which `Err` reports. */
  function RunTask(task: Value, position: nat, agents: Agents): (r: Result<TaskResult, string>)
    ensures r.Err? <==> !(task.Str? || task.Dict?)
  {
    match task
    case Str(_) =>
      var id := TaskId(position);
      var agent := Str("info_search");
      (match ExecuteSingleTask("info_search", task, agents)
       case Ok(text) => Ok(TaskResult(id, agent, task, text, true))
       case Err(e) => Ok(TaskResult(id, agent, task, "Error: " + e, false)))
    case Dict(_) =>
      var name := DictOr(task, "name", Str(""));
      var input := DictOr(task, "input", Str(""));
      var failedId := DictOr(task, "id", Str("unknown"));
      if !name.Str? then
        Ok(TaskResult(failedId, name, input, "Error: '" + TypeName(name) + "' object has no attribute 'lower'", false))
      else
        var agentName := Lower(name.s);
        (match ExecuteSingleTask(agentName, input, agents)
         case Ok(text) => Ok(TaskResult(DictOr(task, "id", TaskId(position)), Str(agentName), input, text, true))
         case Err(e) => Ok(TaskResult(failedId, name, input, "Error: " + e, false)))
    case _ => Err("'" + TypeName(task) + "' object has no attribute 'get'")
  }

  /** `_execute_tasks(tasks, query)`. */
  function ExecuteTasks(tasks: seq<Value>, agents: Agents): (r: Result<seq<TaskResult>, string>)
    decreases |tasks|
    ensures r.Ok? ==> |r.value| == |tasks|
  {
    if |tasks| == 0 then Ok([])
    else
      match ExecuteTasks(tasks[..|tasks| - 1], agents)
      case Err(e) => Err(e)
      case Ok(results) =>
        match RunTask(tasks[|tasks| - 1], |results| + 1, agents)
        case Err(e) => Err(e)
        case Ok(one) => Ok(results + [one])
  }

  // -----------------------------------------------------------------------
  // Findings, evidence and the analysis text

  /** Each non-blank piece, stripped, with a full stop. */
  function Points(pieces: seq<string>): (r: seq<string>)
    decreases |pieces|
    ensures |r| <= |pieces|
  {
    if |pieces| == 0 then []
    else
      var last := Strip(pieces[|pieces| - 1]);
      Points(pieces[..|pieces| - 1]) + (if last != "" then [last + "."] else [])
  }

  /** `_extract_key_points(text)`: from the first three '.'-pieces. */
  function KeyPoints(text: string): (r: seq<string>)
    ensures |r| <= 3
  {
    var pieces := Split(text, ".");
    Points(if |pieces| <= 3 then pieces else pieces[..3])
  }

  /** `_extract_evidence(text)`: the middle '.'-piece of three or more,
      else the first, stripped and with a full stop. */
  function Evidence(text: string): (r: string)
    ensures r != "" && r[|r| - 1] == '.'
  {
    var pieces := Split(text, ".");
    if |pieces| >= 3 then Strip(pieces[|pieces| / 2]) + "."
    else Strip(pieces[0]) + "."
  }

  function Top(xs: seq<string>, n: nat): seq<string> {
    if |xs| <= n then xs else xs[..n]
  }

  /** What one result's text adds in `_generate_summary`'s loop: its top
      two key points, and its evidence when it has a key point. */
  function Contribution(text: string): (seq<string>, seq<string>) {
    var points := KeyPoints(text);
    var ev := Evidence(text);
    (Top(points, 2), if |points| > 0 && ev != "" then [ev] else [])
  }

  /** The findings (two per result at most) and the evidence (one per
      result that has a finding) of `_generate_summary`'s loop. */
  function Gather(results: seq<TaskResult>): (r: (seq<string>, seq<string>))
    decreases |results|
    ensures |r.0| <= 2 * |results| && |r.1| <= |results|
  {
    if |results| == 0 then ([], [])
    else
      var g := Gather(results[..|results| - 1]);
      var c := Contribution(results[|results| - 1].result);
      (g.0 + c.0, g.1 + c.1)
  }

  /** Reference definition: the lists one after the other, first to last. */
  function Flatten(xss: seq<seq<string>>): (r: seq<string>)
    decreases |xss|
  {
    if |xss| == 0 then [] else xss[0] + Flatten(xss[1..])
  }

  lemma {:induction false} FlattenSnoc(xss: seq<seq<string>>, xs: seq<string>)
    decreases |xss|
    ensures Flatten(xss + [xs]) == Flatten(xss) + xs
  {
    if |xss| == 0 {
      assert xss + [xs] == [xs];
      assert [xs][1..] == [];
    } else {
      assert (xss + [xs])[0] == xss[0];
      assert (xss + [xs])[1..] == xss[1..] + [xs];
      FlattenSnoc(xss[1..], xs);
    }
  }

  /** For each result, the findings it offers: its top two key points. */
  function FindingsOf(results: seq<TaskResult>): (r: seq<seq<string>>)
    ensures |r| == |results|
    ensures forall k :: 0 <= k < |results| ==> r[k] == Top(KeyPoints(results[k].result), 2)
    decreases |results|
  {
    if |results| == 0 then []
    else FindingsOf(results[..|results| - 1]) + [Top(KeyPoints(results[|results| - 1].result), 2)]
  }

  /** The evidence one result's text offers: one piece exactly when it has
      a key point. */
  function EvidenceFor(text: string): seq<string> {
    if |KeyPoints(text)| > 0 then [Evidence(text)] else []
  }

  /** For each result, the evidence it offers. */
  function EvidenceOf(results: seq<TaskResult>): (r: seq<seq<string>>)
    ensures |r| == |results|
    ensures forall k :: 0 <= k < |results| ==> r[k] == EvidenceFor(results[k].result)
    decreases |results|
  {
    if |results| == 0 then []
    else EvidenceOf(results[..|results| - 1]) + [EvidenceFor(results[|results| - 1].result)]
  }

  /** The findings are every result's top two key points, and the evidence
      is every result's evidence for the results that have a key point,
      both in result order. */
  lemma {:induction false} GatherIsFlatten(results: seq<TaskResult>)
    decreases |results|
    ensures Gather(results).0 == Flatten(FindingsOf(results))
    ensures Gather(results).1 == Flatten(EvidenceOf(results))
  {
    if |results| > 0 {
      var init, last := results[..|results| - 1], results[|results| - 1];
      GatherIsFlatten(init);
      FlattenSnoc(FindingsOf(init), Top(KeyPoints(last.result), 2));
      FlattenSnoc(EvidenceOf(init), if |KeyPoints(last.result)| > 0 then [Evidence(last.result)] else []);
    }
  }

  /** `list(set(xs))`, with the order fixed to first occurrence. */
  function Dedup(xs: seq<string>): (r: seq<string>)
    decreases |xs|
    ensures forall i, j :: 0 <= i < j < |r| ==> r[i] != r[j]
    ensures forall x :: x in r <==> x in xs
  {
    if |xs| == 0 then []
    else
      var init := Dedup(xs[..|xs| - 1]);
      var last := xs[|xs| - 1];
      assert forall x :: x in xs <==> x in xs[..|xs| - 1] || x == last;
      if last in init then init else init + [last]
  }

  // The longer phrases are spelled in short pieces so that each piece can be
  // checked for line breaks on its own.
  const LimitedOpen := "Analysis of '"
  const LimitedClose := "' yielded limited" + " results."
  const Implications := " These findings" + " have significant" + " implications for" + " understanding "
  const FurtherStudy := "Further " + "investigation is " + "needed to fully " + "understand the " + "implications of "
  const ConclusionOpen := "In conclusion, " + "the analysis of '"
  const ConclusionClose := "' reveals important" + " patterns and" + " connections that" + " provide valuable" + " insights into this" + " topic."

  /** Up to three findings, or a stock sentence naming the query. */
  function FirstParagraph(findings: seq<string>, query: string): string {
    if |findings| > 0 then Join(Top(findings, 3), " ")
    else LimitedOpen + query + LimitedClose
  }

  /** Up to two pieces of evidence and the implications sentence, or a stock
      sentence naming the query. */
  function SecondParagraph(evidence: seq<string>, query: string): string {
    if |evidence| > 0 then Join(Top(evidence, 2), " ") + Implications + query + "."
    else FurtherStudy + query + "."
  }

  function FinalParagraph(query: string): string {
    ConclusionOpen + query + ConclusionClose
  }

  /** `_generate_comprehensive_analysis(findings, evidence, query)` given the
      deduplicated lists: the three paragraphs, joined by blank lines. */
  function ComprehensiveAnalysis(findings: seq<string>, evidence: seq<string>, query: string): string {
    Join([FirstParagraph(findings, query), SecondParagraph(evidence, query), FinalParagraph(query)], "\n\n")
  }

  function CountSucceeded(results: seq<TaskResult>): (n: nat)
    decreases |results|
    ensures n <= |results|
  {
    if |results| == 0 then 0
    else CountSucceeded(results[..|results| - 1]) + (if results[|results| - 1].succeeded then 1 else 0)
  }

  const OverviewHeading := "TASK EXECUTION OVERVIEW:\n- Total Tasks: "

  /** The overview block of task counts with the three counters. */
  function Overview(total: nat, successful: nat, failed: nat): string {
    OverviewHeading
    + (NatToString(total)
       + "\n- Successful: " + NatToString(successful)
       + "\n- Failed: " + NatToString(failed)
       + "\n\nCOMPREHENSIVE ANALYSIS:\n")
  }

  /** The analysis text of a list of task results. */
  function Analysis(results: seq<TaskResult>, query: string): string {
    var (findings, evidence) := Gather(results);
    ComprehensiveAnalysis(Dedup(findings), Dedup(evidence), query)
  }

  /** The text between the markers of `_generate_summary`. */
  function SummaryBody(results: seq<TaskResult>, query: string): string {
    var successful := CountSucceeded(results);
    Overview(|results|, successful, |results| - successful) + Analysis(results, query)
  }

  /** A text between the node-summary markers, each on its own line. */
  function Wrap(body: string): string {
    SummaryManager.StartMarker + ("\n" + body + "\n") + SummaryManager.EndMarker
  }

  /** `_generate_summary(execution_results, original_query)`. Its exception
      handler is unreachable: every result text is a string. */
  function GenerateSummary(results: seq<TaskResult>, query: string): string {
    Wrap(SummaryBody(results, query))
  }

  // -----------------------------------------------------------------------
  // Storing a node's summary

  /** A node as `generate_node` returns it: complete, or the error record
      (which has no `node_summary`). */
  datatype NodeData =
    | Generated(nodeId: string, layer: int, query: string, nodeType: string, summary: string,
                validationStatus: Option<string>)
    | FailedNode(nodeId: string, error: string)

  /** `store_node_summary(node_data)`: an exception inside the store is
      caught, leaving it as it was. */
  function StoreNodeSummary(store: SummaryManager.Store, node: NodeData, now: nat): (r: SummaryManager.Store)
    ensures node.FailedNode? ==> r == store
    ensures r.current == store.current
  {
    match node
    case FailedNode(_, _) => store
    case Generated(id, layer, _, nodeType, summary, status) =>
      var verdict := match status case Some(v) => v case None => "VALID";
      match SummaryManager.AddNodeSummary(store, summary, id, layer, Some(nodeType), None, None, Some(verdict), now)
      case Ok(s) => s
      case Err(_) => store
  }

  // -----------------------------------------------------------------------
  // Properties

  /** The first comma of `q,rest` is the one after q. */
  lemma FirstCommaAt(q: string, rest: string)
    requires ',' !in q
    ensures Find(q + "," + rest, ",") == Some(|q|)
  {
    var s := q + "," + rest;
    OccursInside(q, ",", rest);
    forall j | 0 <= j < |q| ensures !OccursAt(s, ",", j) {
      assert s[j..j + 1] == [q[j]];
    }
    FindIs(s, ",", |q|);
  }

  /** The news parser reads back a query and count written as
      `query,count`. */
  lemma NewsInputRoundTrip(q: string, n: int)
    requires ',' !in q
    ensures ParseNewsInput(q + "," + IntToString(n)) == (Strip(q), n)
  {
    var s := q + "," + IntToString(n);
    FirstCommaAt(q, IntToString(n));
    assert s[..|q|] == q;
    assert s[|q| + 1..] == IntToString(n);
    IntToStringChars(n);
    ParseIntOfIntToString(n);
  }

  /** Only the first comma splits: later commas stay in the count text. */
  lemma NewsInputFirstComma(q: string, rest: string)
    requires ',' !in q
    ensures ParseNewsInput(q + "," + rest).0 == Strip(q)
  {
    FirstCommaAt(q, rest);
    assert (q + "," + rest)[..|q|] == q;
  }

  /** `_execute_tasks` gives one result per task, in task order, unless a
      task is neither a string nor a dictionary. */
  lemma {:induction false} OneResultPerTask(tasks: seq<Value>, agents: Agents)
    decreases |tasks|
    ensures ExecuteTasks(tasks, agents).Err? <==> exists k :: 0 <= k < |tasks| && !(tasks[k].Str? || tasks[k].Dict?)
    ensures ExecuteTasks(tasks, agents).Ok? ==>
      forall k :: 0 <= k < |tasks| ==> RunTask(tasks[k], k + 1, agents) == Ok(ExecuteTasks(tasks, agents).value[k])
  {
    if |tasks| > 0 {
      var init, last := tasks[..|tasks| - 1], tasks[|tasks| - 1];
      OneResultPerTask(init, agents);
      assert forall k :: 0 <= k < |init| ==> init[k] == tasks[k];
      match ExecuteTasks(init, agents)
      case Err(_) =>
      case Ok(results) =>
        if RunTask(last, |tasks|, agents).Ok? {
          var all := results + [RunTask(last, |tasks|, agents).value];
          assert ExecuteTasks(tasks, agents) == Ok(all);
          forall k | 0 <= k < |tasks| ensures RunTask(tasks[k], k + 1, agents) == Ok(all[k]) {
            if k < |init| {
              assert all[k] == results[k];
            }
          }
        }
    }
  }

  /** A string task goes to `info_search` under the id `task_<position>`. */
  lemma StringTaskRoutedToInfoSearch(s: string, position: nat, agents: Agents)
    ensures RunTask(Str(s), position, agents)
      == Ok(TaskResult(TaskId(position), Str("info_search"), Str(s),
                       AgentText(agents("info_search", Plain(Str(s)))), true))
  {
  }

  /** An agent name outside the five is not an error: such a task succeeds
      with the error text as its result. */
  lemma UnknownAgentRecordedAsSuccess(task: Value, name: string, position: nat, agents: Agents)
    requires task.Dict? && Get(task, "name") == Some(Str(name))
    requires Lower(name) !in AgentNames
    ensures RunTask(task, position, agents).Ok?
    ensures RunTask(task, position, agents).value.succeeded
    ensures RunTask(task, position, agents).value.result == UnknownAgent(Lower(name))
  {
  }

  /** Agent names are matched after lower-casing: a task naming one of the
      five agents in any case is run by that agent, with its `News`
      arguments for the news agent, and is recorded under the lower-cased
      name. */
  lemma AgentNameCaseIgnored(task: Value, name: string, position: nat, agents: Agents)
    requires task.Dict? && Get(task, "name") == Some(Str(name))
    requires Lower(name) in AgentNames
    ensures var input := DictOr(task, "input", Str(""));
      Lower(name) != "news_search" ==>
        RunTask(task, position, agents)
        == Ok(TaskResult(DictOr(task, "id", TaskId(position)), Str(Lower(name)), input,
                         AgentText(agents(Lower(name), Plain(input))), true))
    ensures var input := DictOr(task, "input", Str(""));
      Lower(name) == "news_search" && NewsArguments(input).Ok? ==>
        RunTask(task, position, agents)
        == Ok(TaskResult(DictOr(task, "id", TaskId(position)), Str("news_search"), input,
                         AgentText(agents("news_search", NewsArguments(input).value)), true))
  {
  }

  /** Two tasks that differ only in the case of the agent name give the same
      result, unless the news agent's arguments fail (the failure record
      keeps the name as written). */
  lemma NameCaseIrrelevant(t1: Value, t2: Value, n1: string, n2: string, position: nat, agents: Agents)
    requires t1.Dict? && t2.Dict?
    requires Get(t1, "name") == Some(Str(n1)) && Get(t2, "name") == Some(Str(n2)) && Lower(n1) == Lower(n2)
    requires Get(t1, "id") == Get(t2, "id") && Get(t1, "input") == Get(t2, "input")
    requires Lower(n1) != "news_search" || NewsArguments(DictOr(t1, "input", Str(""))).Ok?
    ensures RunTask(t1, position, agents) == RunTask(t2, position, agents)
  {
  }

  /** The positions of the results whose status is success. */
  function SucceededAt(results: seq<TaskResult>): set<nat> {
    set k: nat | k < |results| && results[k].succeeded
  }

  /** The Successful count is the number of results with status success. */
  lemma {:induction false} CountsSucceeded(results: seq<TaskResult>)
    decreases |results|
    ensures CountSucceeded(results) == |SucceededAt(results)|
  {
    if |results| > 0 {
      var n := |results| - 1;
      var init := results[..n];
      CountsSucceeded(init);
      var before := SucceededAt(init);
      assert forall k :: k in before ==> k < n;
      if results[n].succeeded {
        assert SucceededAt(results) == before + {n};
      } else {
        assert SucceededAt(results) == before;
      }
    }
  }

  lemma {:induction false} AllSucceeded(results: seq<TaskResult>)
    decreases |results|
    ensures CountSucceeded(results) == |results| <==> forall k :: 0 <= k < |results| ==> results[k].succeeded
  {
    if |results| > 0 {
      var init := results[..|results| - 1];
      AllSucceeded(init);
      assert forall k :: 0 <= k < |init| ==> init[k] == results[k];
    }
  }

  /** Key points of sentences joined by full stops: each of the first three
      sentences, stripped, with its full stop back. */
  lemma KeyPointsOfSentences(ss: seq<string>)
    requires |ss| > 0
    requires forall k :: 0 <= k < |ss| ==> '.' !in ss[k] && !IsBlank(ss[k])
    ensures |KeyPoints(Join(ss, "."))| == if |ss| <= 3 then |ss| else 3
    ensures forall k :: 0 <= k < |KeyPoints(Join(ss, "."))| ==> KeyPoints(Join(ss, "."))[k] == Strip(ss[k]) + "."
  {
    forall k | 0 <= k < |ss| ensures !Contains(ss[k], ".") {
      CharAbsent(ss[k], '.');
    }
    SplitJoin(ss, '.');
    PointsOfNonBlank(Top(ss, 3));
  }

  /** What one piece contributes to the key points: itself stripped and
      with a full stop, unless it is blank once stripped. */
  function PointOf(piece: string): seq<string> {
    if Strip(piece) != "" then [Strip(piece) + "."] else []
  }

  /** For each piece, what it contributes. */
  function PointsOf(pieces: seq<string>): (r: seq<seq<string>>)
    decreases |pieces|
    ensures |r| == |pieces|
    ensures forall k :: 0 <= k < |pieces| ==> r[k] == PointOf(pieces[k])
  {
    if |pieces| == 0 then [] else PointsOf(pieces[..|pieces| - 1]) + [PointOf(pieces[|pieces| - 1])]
  }

  /** The points are the non-blank pieces, stripped and with a full stop,
      in the order of the pieces. */
  lemma {:induction false} PointsIsFlatten(pieces: seq<string>)
    decreases |pieces|
    ensures Points(pieces) == Flatten(PointsOf(pieces))
  {
    if |pieces| > 0 {
      var init := pieces[..|pieces| - 1];
      PointsIsFlatten(init);
      FlattenSnoc(PointsOf(init), PointOf(pieces[|pieces| - 1]));
    }
  }

  lemma {:induction false} PointsOfNonBlank(pieces: seq<string>)
    requires forall k :: 0 <= k < |pieces| ==> !IsBlank(pieces[k])
    decreases |pieces|
    ensures |Points(pieces)| == |pieces|
    ensures forall k :: 0 <= k < |pieces| ==> Points(pieces)[k] == Strip(pieces[k]) + "."
  {
    if |pieces| > 0 {
      var init := pieces[..|pieces| - 1];
      PointsOfNonBlank(init);
      StripEmptyIffBlank(pieces[|pieces| - 1]);
    }
  }

  /** Evidence of sentences joined by full stops: the middle one of three
      or more, else the first. */
  lemma EvidenceOfSentences(ss: seq<string>)
    requires |ss| > 0
    requires forall k :: 0 <= k < |ss| ==> '.' !in ss[k]
    ensures Evidence(Join(ss, ".")) == Strip(ss[if |ss| >= 3 then |ss| / 2 else 0]) + "."
  {
    forall k | 0 <= k < |ss| ensures !Contains(ss[k], ".") {
      CharAbsent(ss[k], '.');
    }
    SplitJoin(ss, '.');
  }

  /** The analysis splits back into its three paragraphs when no finding,
      evidence or query holds a line break. */
  lemma ThreeParagraphs(findings: seq<string>, evidence: seq<string>, query: string)
    requires forall k :: 0 <= k < |findings| ==> '\n' !in findings[k]
    requires forall k :: 0 <= k < |evidence| ==> '\n' !in evidence[k]
    requires '\n' !in query
    ensures Split(ComprehensiveAnalysis(findings, evidence, query), "\n\n")
            == [FirstParagraph(findings, query), SecondParagraph(evidence, query), FinalParagraph(query)]
  {
    FirstParagraphOneLine(findings, query);
    SecondParagraphOneLine(evidence, query);
    FinalParagraphOneLine(query);
    SplitThree(FirstParagraph(findings, query), SecondParagraph(evidence, query), FinalParagraph(query));
  }

  lemma SplitThree(a: string, b: string, c: string)
    requires '\n' !in a && '\n' !in b && '\n' !in c
    ensures Split(Join([a, b, c], "\n\n"), "\n\n") == [a, b, c]
  {
    HeadlessSepOnlyAtEnd(a, "\n\n");
    HeadlessSepOnlyAtEnd(b, "\n\n");
    CharAbsentLonger(c, "\n\n");
    SplitJoinSep([a, b, c], "\n\n");
  }

  lemma CharAbsentLonger(s: string, p: string)
    requires |p| > 0 && p[0] !in s
    ensures !Contains(s, p)
  {
    forall j | 0 <= j ensures !OccursAt(s, p, j) {
      if j + |p| <= |s| {
        assert s[j..j + |p|][0] == s[j];
      }
    }
    ContainsIff(s, p);
  }

  /** The fixed phrases are single lines. */
  lemma PhrasesOneLine()
    ensures '\n' !in LimitedOpen && '\n' !in LimitedClose && '\n' !in Implications
    ensures '\n' !in FurtherStudy && '\n' !in ConclusionOpen && '\n' !in ConclusionClose
  {
    LimitedOneLine();
    ImplicationsOneLine();
    FurtherStudyOneLine();
    ConclusionOneLine();
  }

  lemma LimitedOneLine()
    ensures '\n' !in LimitedOpen && '\n' !in LimitedClose
  {
    assert '\n' !in "' yielded limited" && '\n' !in " results.";
  }

  lemma ImplicationsOneLine()
    ensures '\n' !in Implications
  {
    assert '\n' !in " These findings" && '\n' !in " have significant";
    assert '\n' !in " implications for" && '\n' !in " understanding ";
    Framed(" These findings", " have significant", " implications for");
  }

  lemma FurtherStudyOneLine()
    ensures '\n' !in FurtherStudy
  {
    assert '\n' !in "Further " && '\n' !in "investigation is " && '\n' !in "needed to fully ";
    assert '\n' !in "understand the " && '\n' !in "implications of ";
    Framed("Further ", "investigation is ", "needed to fully ");
    Framed("Further " + "investigation is " + "needed to fully ", "understand the ", "implications of ");
  }

  lemma ConclusionOneLine()
    ensures '\n' !in ConclusionOpen && '\n' !in ConclusionClose
  {
    assert '\n' !in "In conclusion, " && '\n' !in "the analysis of '";
    assert '\n' !in "' reveals important" && '\n' !in " patterns and" && '\n' !in " connections that";
    assert '\n' !in " provide valuable" && '\n' !in " insights into this" && '\n' !in " topic.";
    Framed("' reveals important", " patterns and", " connections that");
    Framed(" provide valuable", " insights into this", " topic.");
  }

  /** A query between two one-line phrases stays on one line. */
  lemma Framed(open: string, query: string, close: string)
    requires '\n' !in open && '\n' !in query && '\n' !in close
    ensures '\n' !in open + query + close
  {
  }

  lemma FirstParagraphOneLine(findings: seq<string>, query: string)
    requires forall k :: 0 <= k < |findings| ==> '\n' !in findings[k]
    requires '\n' !in query
    ensures '\n' !in FirstParagraph(findings, query)
  {
    if |findings| > 0 {
      JoinAvoids(Top(findings, 3), " ", '\n');
    } else {
      PhrasesOneLine();
      Framed(LimitedOpen, query, LimitedClose);
    }
  }

  lemma SecondParagraphOneLine(evidence: seq<string>, query: string)
    requires forall k :: 0 <= k < |evidence| ==> '\n' !in evidence[k]
    requires '\n' !in query
    ensures '\n' !in SecondParagraph(evidence, query)
  {
    PhrasesOneLine();
    if |evidence| > 0 {
      JoinAvoids(Top(evidence, 2), " ", '\n');
      Framed(Join(Top(evidence, 2), " ") + Implications, query, ".");
    } else {
      Framed(FurtherStudy, query, ".");
    }
  }

  lemma FinalParagraphOneLine(query: string)
    requires '\n' !in query
    ensures '\n' !in FinalParagraph(query)
  {
    PhrasesOneLine();
    Framed(ConclusionOpen, query, ConclusionClose);
  }

  /** The summary manager recovers exactly the text between the markers,
      unless that text itself holds a marker. */
  lemma SummaryContentRecovered(results: seq<TaskResult>, query: string)
    requires !Contains(SummaryBody(results, query), SummaryManager.StartMarker)
    requires !Contains(SummaryBody(results, query), SummaryManager.EndMarker)
    ensures SummaryManager.ExtractSummaryContent(GenerateSummary(results, query)) == SummaryBody(results, query)
  {
    var body := SummaryBody(results, query);
    WrapExtracted(body);
    BodyStripped(results, query);
    StripBetween('\n', body, '\n');
  }

  /** What the summary manager extracts from a wrapped marker-free text. */
  lemma WrapExtracted(body: string)
    requires !Contains(body, SummaryManager.StartMarker) && !Contains(body, SummaryManager.EndMarker)
    ensures SummaryManager.ExtractSummaryContent(Wrap(body)) == Strip("\n" + body + "\n")
  {
    WrappedBody(body, SummaryManager.StartMarker);
    WrappedBody(body, SummaryManager.EndMarker);
    SummaryManager.WrappedContentExtracted("\n" + body + "\n");
  }

  /** Line breaks around a text that lacks a marker do not form one. */
  lemma WrappedBody(body: string, marker: string)
    requires marker == SummaryManager.StartMarker || marker == SummaryManager.EndMarker
    requires !Contains(body, marker)
    ensures !Contains("\n" + body + "\n", marker)
  {
    NoMarkerAcross(body, marker);
    AbsentAfterHead("\n", marker, body + "\n");
    assert "\n" + body + "\n" == "\n" + (body + "\n");
  }

  lemma NoMarkerAcross(body: string, marker: string)
    requires marker == SummaryManager.StartMarker || marker == SummaryManager.EndMarker
    requires !Contains(body, marker)
    ensures !Contains(body + "\n", marker)
  {
    var s := body + "\n";
    ContainsIff(body, marker);
    forall j | 0 <= j ensures !OccursAt(s, marker, j) {
      if j + |marker| <= |body| {
        assert s[j..j + |marker|] == body[j..j + |marker|];
        assert !OccursAt(body, marker, j);
      } else if j + |marker| <= |s| {
        assert s[j..j + |marker|][|marker| - 1] == s[|s| - 1] == '\n';
      }
    }
    ContainsIff(s, marker);
  }

  /** The body starts with the overview heading and ends with the final
      sentence's full stop, so it has no surrounding whitespace. */
  lemma BodyStripped(results: seq<TaskResult>, query: string)
    ensures SummaryBody(results, query) != "" && IsStripped(SummaryBody(results, query))
  {
    var successful := CountSucceeded(results);
    var o := Overview(|results|, successful, |results| - successful);
    var a := Analysis(results, query);
    OverviewHead(|results|, successful, |results| - successful);
    AnalysisEnd(results, query);
    assert (o + a)[0] == o[0];
    assert (o + a)[|o + a| - 1] == a[|a| - 1];
  }

  lemma OverviewHead(total: nat, successful: nat, failed: nat)
    ensures |Overview(total, successful, failed)| > 0 && Overview(total, successful, failed)[0] == 'T'
  {
    assert OverviewHeading[0] == 'T';
  }

  lemma AnalysisEnd(results: seq<TaskResult>, query: string)
    ensures |Analysis(results, query)| > 0 && Analysis(results, query)[|Analysis(results, query)| - 1] == '.'
  {
    var (findings, evidence) := Gather(results);
    JoinThree(FirstParagraph(Dedup(findings), query), SecondParagraph(Dedup(evidence), query), FinalParagraph(query), "\n\n");
    FinalEnd(query);
  }

  lemma FinalEnd(query: string)
    ensures |FinalParagraph(query)| > 0 && FinalParagraph(query)[|FinalParagraph(query)| - 1] == '.'
  {
  }

  lemma JoinThree(a: string, b: string, c: string, sep: string)
    ensures Join([a, b, c], sep) == a + sep + b + sep + c
  {
    assert [a, b, c][1..] == [b, c];
    assert [b, c][1..] == [c];
    assert Join([b, c], sep) == b + sep + c;
    assert a + sep + (b + sep + c) == a + sep + b + sep + c;
  }
  /** Storing keeps every record's counters equal to its summaries'. */
  lemma StoreKeepsConsistent(store: SummaryManager.Store, node: NodeData, now: nat)
    requires SummaryManager.Consistent(store)
    ensures SummaryManager.Consistent(StoreNodeSummary(store, node, now))
  {
    if node.Generated? {
      var verdict := match node.validationStatus case Some(v) => v case None => "VALID";
      SummaryManager.AddKeepsConsistent(store, node.summary, node.nodeId, node.layer, Some(node.nodeType),
                                        None, None, Some(verdict), now);
    }
  }
}
