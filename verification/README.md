# DEoT core, modelled in Dafny

DEoT (dual-engine analysis) answers a query by growing an analysis tree.
Each node is summarised by running agents over its tasks. A decision
controller then types the node BREADTH, DEPTH or COMPLETE. A breadth node
gets one child per aspect that the breadth engine reads from the model's
reply. A depth node gets one child for the follow-up question of the depth
engine. The walk stops at `max_layer` and at the node budget. Node summaries
can be fact-checked before they reach a per-analysis summary store. A final
answer is synthesised from the stored summaries, and the tree is flattened
into a visualisation record that is drawn as a Mermaid flowchart.

This project models the deterministic bookkeeping around the language-model
calls: the tree walk and its budget, the validation gate, the summary store,
the parsers of every model reply and their retry rules, the prompt lookup,
the Mermaid serialiser and the path sanitiser. Every model reply is an input:
an oracle function from the node id (and attempt number) to either a reply
text or a failure message. Nothing in the model calls a model.

One Dafny module per source file:

| module | source file |
|---|---|
| `Executor` | executors/executor.py |
| `NodeGenerator` | executors/node_generator.py |
| `SummaryManager` | executors/summary_manager.py |
| `ValidationService` | executors/validation_service.py |
| `ResponseHandler` | executors/response_handler.py |
| `EngineController` | engines/engine_controller.py |
| `BreadthEngine` | engines/breadth_engine.py |
| `DepthEngine` | engines/depth_engine.py |
| `TaskPrompter` | prompters/task_prompter.py |
| `InputPrompter` | prompters/input_prompter.py |
| `PromptLoader` | utils/prompt_loader.py |
| `MermaidGenerator` | visualization/mermaid_generator.py |
| `Analyzer` | analyzers/dual_engine_analyzer.py (`_sanitize_for_path`) |

Shared modules:
- `Common` holds `Option`, `Result` and the outcome of a model call.
- `Text` holds the Python `str` operations the code relies on (`strip`, `split`, `find`, `in`, `replace`, `lower`, `int()`).
- `Json` holds the Python values that parsed replies and dictionaries carry.
- `Viz` holds the flat `{nodes, edges}` record.
- `IdScheme` relates the Mermaid generator's id and edge-label helpers to the ids the executor hands out.

Three behaviours of the code are modelled as written:
- The controller's retry path reads `retry_delay`, but the constructor sets only `retry_delaye`. A failed attempt that is not the last one therefore ends the call, and there is never a second model call.
- Summaries reach the store only through `_validate_node`. That happens only when validation is enabled, and never for the root.
- An unknown agent name gives an error text that is recorded with status `success`.

One further reading comes out of the proofs:
- The Mermaid edge-label helper looks at the whole lower-cased target id. So an edge into a breadth child reads DEPTH whenever any ancestor step was a depth step (`IdScheme.BreadthChildReading`).

Neither the id helper nor the edge-label helper is called by the Mermaid generator itself.

## Model

| member | source | states |
|---|---|---|
| PromptLoader.Index | utils/prompt_loader.py:83 | one `value[key]` step finds the entry exactly when the value is a dictionary holding the key, is a KeyError exactly when it is a dictionary without it, and is a TypeError about that very value exactly when it is not a dictionary |
| PromptLoader.GetPrompt | utils/prompt_loader.py:66-101 | the category key and then each `/`-separated segment index the tree in turn; a missing key anywhere gives "Prompt not found: category=…, name=…"; a non-string at the end is refused; indexing a non-dictionary re-raises Python's TypeError for that value (`'NoneType' object is not subscriptable`, `list indices must be integers or slices, not str`, `string indices must be integers, not 'str'`, …); a string reached with no arguments comes back verbatim; success implies the path was found |
| PromptLoader.WalkAppend | utils/prompt_loader.py:82-83 | walking a path in two parts is walking the first part and then the second from where it ended (the first failing step decides) |
| PromptLoader.StoredTemplateIsFound | utils/prompt_loader.py:79-90 | a template stored under nested keys is found again under the `/`-joined name and returned unchanged when no arguments are passed (store-then-get round trip) |
| PromptLoader.BelowLeafRaises | utils/prompt_loader.py:80-83 | a name that reaches past a stored value that is not a dictionary raises the TypeError Python gives for indexing that value with a string |
| PromptLoader.WalkNest | utils/prompt_loader.py:82-83 | walking a tree built from a path along that same path reaches its leaf |
| EngineController.Default | engines/engine_controller.py:144-147 | the fallback decision is BREADTH with no questions, no focus and the caller's layer |
| EngineController.ParseDecision | engines/engine_controller.py:149-198 | the result's layer is always the caller's; with no line starting with `Decision:` the result is the default; otherwise the decision is the value of the last `Decision:` line, the questions are the `- ` items under a `Questions:` header, and the focus is the value of the last `Analysis Focus:` line, or None |
| EngineController.LastHeaderValue | engines/engine_controller.py:169-177 | reference definition of "the last header wins": the value of a line that starts with the header with no such line after it, and None exactly when no line starts with it |
| EngineController.ScanPrefix | engines/engine_controller.py:166-179 | over any list of lines, after each prefix the loop holds the last `Decision:` value, the section the last header opened, exactly the items that follow a `Questions:` header with no other header in between, and the last `Analysis Focus:` value (loop equals reference definition) |
| EngineController.ScanWhole | engines/engine_controller.py:159-181 | the same for the whole list of stripped, non-blank lines the parser reads |
| EngineController.ParseReply | engines/engine_controller.py:111-124 | a failed model call parses to the default at the caller's layer |
| EngineController.EvaluateWithRetry | engines/engine_controller.py:90-147 | at most one model call; no attempt and no result when `max_retries <= 0`; a known decision on the first attempt is returned; otherwise a single attempt ends in the default and more than one attempt ends in the error raised by reading the unset `retry_delay` |
| EngineController.Process | engines/engine_controller.py:52-88 | at or beyond `max_layer` the result is COMPLETE with no questions, no focus and no model call; every decided result carries the caller's layer and one of BREADTH, DEPTH, COMPLETE |
| EngineController.ScanItems | engines/engine_controller.py:178-179 | inside the questions section every `- ` item is appended in order |
| EngineController.NonBlankLinesOfFields | engines/engine_controller.py:159 | lines that are already stripped and non-blank pass the line filter unchanged |
| EngineController.ClassifyRendered | engines/engine_controller.py:169-179 | each line of a well-formed reply is recognised as the header or item it was written as |
| EngineController.ScanRendered | engines/engine_controller.py:169-181 | scanning a well-formed reply collects its decision, its questions in order and its focus |
| EngineController.RenderThenParse | engines/engine_controller.py:149-190 | parsing a well-formed `Decision:` / `Questions:` / `- …` / `Analysis Focus:` reply gives back exactly its decision, questions and focus at the caller's layer (render-then-parse round trip) |
| EngineController.NoDecisionLineGivesDefault | engines/engine_controller.py:184-198 | a reply none of whose stripped lines starts with `Decision:` is accepted on the first attempt as the default BREADTH decision, with one model call |
| EngineController.FailedCallGivesDefault | engines/engine_controller.py:111-129 | a failed model call is accepted on the first attempt as the default BREADTH decision |
| BreadthEngine.ScanFields | engines/breadth_engine.py:89-93 | a field no line sets keeps its previous value; when the block's last line is an `Aspect:` or `Query:` line, its value is the one kept |
| BreadthEngine.ScanSnoc | engines/breadth_engine.py:89-93 | the loop reads the lines one at a time: reading one more line applies that line's effect to the fields built so far |
| BreadthEngine.ScanNameIsLast | engines/breadth_engine.py:89-91 | the `name` field holds the value of the last `Aspect:` line, wherever it stands in the block, and keeps its previous value when there is none |
| BreadthEngine.ScanQueryIsLast | engines/breadth_engine.py:92-93 | the `query` field holds the value of the last `Query:` line, wherever it stands in the block, and keeps its previous value when there is none |
| BreadthEngine.ClassifyHeaders | engines/breadth_engine.py:90-93 | a line sets the name exactly when it starts with `Aspect:`, and the query exactly when it starts with `Query:`: the `elif` loses nothing, since no line starts with both |
| BreadthEngine.LinesAspect | engines/breadth_engine.py:86-97 | a block's lines yield an aspect exactly when some line sets a name and some line sets a query; the aspect holds the values of the last such lines |
| BreadthEngine.LinesAspectPresent | engines/breadth_engine.py:89-97 | both directions: the lines yield an aspect if and only if one of them starts with `Aspect:` and one starts with `Query:` |
| BreadthEngine.BlockAspectIsLast | engines/breadth_engine.py:82-97 | a blank block yields nothing; any other block yields an aspect if and only if one of its stripped lines starts with `Aspect:` and one starts with `Query:`, and the aspect holds the values of the last such lines |
| BreadthEngine.Assemble | engines/breadth_engine.py:95-97 | a block yields an aspect exactly when both `name` and `query` were set, and the aspect has exactly those two fields |
| BreadthEngine.ParseAspects | engines/breadth_engine.py:68-111 | the reply is stripped and split at blank lines; there are never more aspects than blocks |
| BreadthEngine.Process | engines/breadth_engine.py:30-66 | a failed model call yields no aspects; a reply yields exactly what the parser makes of it |
| BreadthEngine.MalformedBlockDropped | engines/breadth_engine.py:81-101 | a blank or malformed block is dropped and the aspects of the blocks before and after it are unaffected, in block order |
| BreadthEngine.ParseBlock | engines/breadth_engine.py:86-97 | an `Aspect:` line followed by a `Query:` line yields exactly that aspect |
| BreadthEngine.ParseBlocks | engines/breadth_engine.py:81-97 | a list of well-formed blocks yields their aspects, one per block, in order |
| BreadthEngine.RenderedBlocks | engines/breadth_engine.py:78 | a reply written as well-formed blocks separated by blank lines splits back into exactly those blocks |
| BreadthEngine.RenderThenParse | engines/breadth_engine.py:68-107 | parsing a reply that lists well-formed aspects as blocks gives back exactly those aspects in order; the empty reply gives none (render-then-parse round trip) |
| BreadthEngine.AspectLimitNotEnforced | engines/breadth_engine.py:47-59 | whatever `max_aspects` is, every well-formed block of the reply comes back, so the count is bounded by the blocks and not by the limit |
| BreadthEngine.IndentedQueryIgnored | engines/breadth_engine.py:86-93 | only the block as a whole is stripped, so a `Query:` line indented by a blank is not recognised and the block yields nothing |
| DepthEngine.LastIndex | engines/depth_engine.py:63-65 | reference definition of "the last present value": its position holds a value and every later position is empty; none means all are empty |
| DepthEngine.ParseLines | engines/depth_engine.py:63-74 | the result is the value of the last `Question:` line, or the stock question when no line starts with `Question:` |
| DepthEngine.ParseQuestion | engines/depth_engine.py:50-80 | `_parse_question`: the reply is stripped and split into lines and read by the line loop; DepthEngine.ParseLines, DepthEngine.OverwriteIsLast and DepthEngine.RenderThenParse state what it yields |
| DepthEngine.Process | engines/depth_engine.py:19-80 | a failed model call yields the stock question; a reply yields what the parser makes of it, so a question always comes back |
| DepthEngine.OverwriteIsLast | engines/depth_engine.py:63-65 | the parser's overwrite-as-you-go loop keeps exactly the last present value (loop equals reference definition) |
| DepthEngine.RenderThenParse | engines/depth_engine.py:58-74 | a reply ending in `Question: q` after other one-line remarks parses back to q |
| DepthEngine.LastLineWins | engines/depth_engine.py:63-65 | after lines with no `Question:` header, a final `Question: q` line gives q |
| DepthEngine.EmptyQuestionKept | engines/depth_engine.py:64-74 | a `Question:` line with nothing after the colon yields the empty question, not the stock one |
| DepthEngine.NoQuestionGivesFallback | engines/depth_engine.py:68-72 | without any `Question:` line the stock question comes back |
| TaskPrompter.ParseValidation | prompters/task_prompter.py:117-131 | the plan is valid exactly when the acceptance phrase occurs in the reply; feedback is absent exactly when valid and is otherwise the whole reply |
| TaskPrompter.Process | prompters/task_prompter.py:24-55 | the decomposition call comes first; its failure ends the run in the handled error; the generated plan and only it is sent for checking; a failed check ends in the handled error; an accepted plan is returned unchanged with no retry |
| TaskPrompter.PhraseAnywhereAccepts | prompters/task_prompter.py:126-127 | the acceptance phrase is recognised wherever it sits in the reply |
| TaskPrompter.RejectedPlanRetriedOnce | prompters/task_prompter.py:133-163 | a rejected plan is retried exactly once with the whole reply as feedback and the rejected plan as the original; the retry's outcome is the result, unchecked |
| TaskPrompter.AtMostOneRetry | prompters/task_prompter.py:24-55 | on every input at most three calls: one decomposition, at most one check, and a retry only after a reply without the acceptance phrase, carrying that reply |
| ValidationService.ParseReport | executors/validation_service.py:135-175 | a report comes back exactly when both markers occur; it is what the line loop collects from the stripped section that follows the first start marker, cut at a second start marker if there is one and then at the first end marker |
| ValidationService.Attempt | executors/validation_service.py:89-125 | the loop stops at the first attempt whose reply parses and keeps that report, with every earlier attempt unparsable; otherwise it spends every remaining attempt |
| ValidationService.SetDefaults | executors/validation_service.py:57-61 | `setdefault` keeps every existing field, adds every default key, and adds nothing else |
| ValidationService.Normalise | executors/validation_service.py:46-61 | strings and dictionaries become a dictionary; anything else fails on `setdefault` |
| ValidationService.FailedValidation | executors/validation_service.py:177-196 | a failed validation has status FAILED, the all-default content, no issues or evidence, and the given message or the default one when it is empty |
| ValidationService.ValidateNodeContent | executors/validation_service.py:36-133 | never more chat calls than `max_retries`; content that cannot be normalised, or a failure while building the prompts, gives a failed validation carrying that error with no call |
| ValidationService.LastStatusWins | executors/validation_service.py:162-163 | the last `STATUS:` line decides the status |
| ValidationService.StatusKept | executors/validation_service.py:150-163 | without `STATUS:` lines the status stays what it was, INVALID at the start |
| ValidationService.ItemsBeforeHeaderIgnored | executors/validation_service.py:156-169 | before any `ISSUES:` or `EVIDENCE:` header, dash lines change neither list |
| ValidationService.CollectItems | executors/validation_service.py:164-169 | dash lines append, in order, to the list whose header came last, and to nothing when no header came |
| ValidationService.RenderThenParse | executors/validation_service.py:135-171 | a report written between the markers as `STATUS:`, `ISSUES:` with its dash lines and `EVIDENCE:` with its dash lines parses back to the same report (render-then-parse round trip) |
| ValidationService.UnmarkedReplyRetried | executors/validation_service.py:100-104 | a reply without the start marker never ends the loop |
| ValidationService.ReportFromParsedReply | executors/validation_service.py:103-115 | a result with no error text comes from completed content and a reply that parsed, and carries the completed content |
| ValidationService.FirstParsableReplyDecides | executors/validation_service.py:89-115 | when a report is kept, it is the parse of the last call made and every earlier reply failed to parse |
| ValidationService.AllAttemptsFail | executors/validation_service.py:127-129 | when no reply parses, every attempt is spent and the result is FAILED with the default error text |
| ValidationService.NormaliseCompletes | executors/validation_service.py:46-61 | normalising keeps every field of a dictionary, adds each missing default, and puts a string in `detailed_results` |
| ValidationService.FirstReportAccepted | executors/validation_service.py:89-115 | a well-formed report returned by the first call is the result, with its status, issues and evidence and the completed content, after one call |
| InputPrompter.ValidateOptimization | prompters/input_prompter.py:52-71 | the key test uses Python's `in`: a value it cannot search fails with its TypeError; a missing key fails with the missing-key message; a list or string that holds all three key names passes the key test and fails on the first index |
| InputPrompter.HandleOptimizationError | prompters/input_prompter.py:77-110 | the recovery answer is returned unchanged exactly when it parsed and `in` finds all four keys in it: a dictionary's keys, a list's items or a string's substrings; a failed call hands its message on, a value `in` cannot search hands on its TypeError, any other answer the missing-keys message, all as the handled error of "Input optimization" |
| InputPrompter.ListRecoveryReturned | prompters/input_prompter.py:101-106 | a list answer naming the four keys passes the key test and is returned as the recovered result |
| InputPrompter.ListAnswerFailsOnIndex | prompters/input_prompter.py:59-64 | a list answer naming the three keys passes the key test and fails on `result["optimized_query"]` |
| Json.In | prompters/input_prompter.py:103 | Python's `key in v`: a dictionary's keys, a list's items, a substring of a string; TypeError on any other value |
| Json.AllIn | prompters/input_prompter.py:61 | `all(key in v for key in keys)` is true exactly when `in` finds every key; it raises the TypeError of `in` on a value that cannot be searched |
| InputPrompter.Process | prompters/input_prompter.py:21-50 | a call or parse failure, or a failed check, goes to error handling with its message |
| InputPrompter.BlankFieldPasses | prompters/input_prompter.py:64-68 | a field passes the blank check exactly when it is a string that is not all whitespace |
| InputPrompter.ValidateMatchesDefinition | prompters/input_prompter.py:59-71 | the sequential checks accept exactly the results with the three keys, two non-blank query strings and a list of modifications (checks equal reference definition) |
| InputPrompter.AcceptedResultReturned | prompters/input_prompter.py:41-46 | an acceptable result is returned unchanged, without the error-handling call |
| InputPrompter.BlankOptimizedReportedFirst | prompters/input_prompter.py:64-71 | checks run in order: a blank optimised query is reported as such even when later checks would fail too |
| InputPrompter.ProcessOutcomes | prompters/input_prompter.py:21-110 | every outcome is a checked result returned unchanged, a recovery answer with all four keys, or the handled error of "Input optimization"; nothing propagates |
| SummaryManager.StartNewAnalysis | executors/summary_manager.py:36-58 | the id becomes current and gets a fresh empty record with all six counters at 0; every other record is untouched |
| SummaryManager.ExtractSummaryContent | executors/summary_manager.py:60-73 | without both markers the whole text comes back stripped |
| SummaryManager.AddNodeSummary | executors/summary_manager.py:75-139 | with no current id nothing happens; a current id whose record was cleared raises a KeyError; a summary whose cleaned content is empty is not stored and changes nothing; the current id never changes |
| SummaryManager.GetSummaries | executors/summary_manager.py:141-171 | an absent or unknown id gives the empty answer, and only then |
| SummaryManager.GetAnalysisStats | executors/summary_manager.py:216-234 | a known id gives its six counters; an absent or unknown id gives the four zero counters |
| SummaryManager.ClearAnalysis | executors/summary_manager.py:236-247 | only the chosen record is removed (the given id, else the current one) and the current id is kept |
| SummaryManager.InsertPermutes | executors/summary_manager.py:161-164 | inserting one summary into the sorted prefix adds exactly that summary |
| SummaryManager.SortByKeySorted | executors/summary_manager.py:159-164 | the copy `get_summaries` returns is ordered by (layer, timestamp) |
| SummaryManager.SortByKey | executors/summary_manager.py:161-164 | the `sorted(…, key=(layer, timestamp))` copy, of the same length; SummaryManager.SortByKeySorted, SummaryManager.SortByKeyPermutes and SummaryManager.SortByKeyStable state what it yields |
| SummaryManager.SortByKeyPermutes | executors/summary_manager.py:159-164 | the sorted copy holds exactly the stored summaries, as a multiset |
| SummaryManager.SortByKeyStable | executors/summary_manager.py:161-164 | the sort is stable: summaries sharing a key keep their stored order |
| SummaryManager.MaxLayer | executors/summary_manager.py:123 | reference for `max_depth`: at least 0, at least every stored layer, and either 0 or some stored layer |
| SummaryManager.StatsOfAppend | executors/summary_manager.py:119-134 | the counters computed from the summaries after one more summary are the old counters bumped as `add_node_summary` bumps them (total +1, max of depth and layer, BREADTH/DEPTH and VALID/INVALID counted, other values counted nowhere) |
| SummaryManager.EmptyStoreConsistent | executors/summary_manager.py:31-34 | the empty store is consistent: every record's counters equal those computed from its summaries |
| SummaryManager.StartKeepsConsistent | executors/summary_manager.py:45-58 | starting an analysis keeps every record's counters equal to those computed from its summaries |
| SummaryManager.AddKeepsConsistent | executors/summary_manager.py:97-134 | storing a summary keeps the counters equal to those computed from the summaries, and no other record changes |
| SummaryManager.AddAppendsOne | executors/summary_manager.py:104-123 | a stored summary appends exactly one entry with the cleaned text and the given layer, keeps the earlier entries, raises `total_nodes` by one and makes `max_depth` the max of old and layer |
| SummaryManager.ClearKeepsConsistent | executors/summary_manager.py:242-245 | clearing keeps every remaining record's counters consistent |
| SummaryManager.TotalNodesCountsSummaries | executors/summary_manager.py:119-122 | in a consistent store `total_nodes` equals the number of stored entries |
| SummaryManager.WrappedContentExtracted | executors/summary_manager.py:68-71 | wrapping a marker-free text in the markers and extracting gives the text back stripped (wrap-then-extract round trip) |
| SummaryManager.EndBeforeStartGivesEmpty | executors/summary_manager.py:68-71 | an end marker ahead of every start marker makes the slice empty, so nothing is extracted |
| ResponseHandler.Formatted | executors/response_handler.py:60-75 | a node contributes a block exactly when its content is not blank |
| ResponseHandler.Take | executors/response_handler.py:54 | `node_summaries[:n]` is the prefix of length min(n, count) |
| ResponseHandler.Attempts | executors/response_handler.py:51-128 | between one attempt and the attempts left; the first sends the given number of nodes and each later one sends `max(1, n - 1)` of the previous |
| ResponseHandler.GenerateResponse | executors/response_handler.py:28-135 | at most five attempts, the first sending every summary |
| ResponseHandler.GenerateResponseLoop | executors/response_handler.py:47-131 | the `for` loop as written returns what the recursive definition returns, and the statement after the loop is never reached |
| ResponseHandler.UsedClosedForm | executors/response_handler.py:49-120 | attempt k sends all nodes when k is 0 and otherwise one fewer per earlier attempt, never fewer than one |
| ResponseHandler.FirstReplyReturned | executors/response_handler.py:101-111 | a reply to the first call is the answer and no other call is made |
| ResponseHandler.FirstAsk | executors/response_handler.py:45-54 | the first attempt sends every summary, sorted |
| ResponseHandler.TokenErrorStep | executors/response_handler.py:113-125 | a context-length error retries with one node fewer, except on the fifth attempt, which returns the apology |
| ResponseHandler.OtherErrorReported | executors/response_handler.py:126-135 | an error other than a context-length error on any attempt ends the loop at once with the "An error occurred during analysis" report carrying the error text |
| ResponseHandler.FirstOtherErrorReported | executors/response_handler.py:126-135 | such an error on the first call, which sends every summary, is the text `generate_response` returns |
| ResponseHandler.TokenErrorsExhaustRetries | executors/response_handler.py:113-125 | a model that always reports a context-length error gets exactly five attempts and the apology |
| ResponseHandler.AnswerForms | executors/response_handler.py:28-135 | the answer is a model reply, the apology or an error report; nothing is raised |
| ResponseHandler.TokenErrorIgnoresCase | executors/response_handler.py:114-116 | the context-length test matches the phrase in any letter case anywhere in the message |
| ResponseHandler.FormatAppend | executors/response_handler.py:58-77 | formatting is done node by node, in order |
| ResponseHandler.BlankNodesSkipped | executors/response_handler.py:64-75 | nodes whose content is blank contribute nothing |
| ResponseHandler.OneNodeBlock | executors/response_handler.py:66-72 | a node with content contributes `--- Node <id> (Layer <l>, Type: <t>) ---`, its stripped content and a line break |
| NodeGenerator.ParseNewsInput | executors/node_generator.py:175-187 | without a comma the input comes back unchanged with the count 3 |
| NodeGenerator.NewsArguments | executors/node_generator.py:175-178 | the news agent always gets a query and a count; the call raises exactly for a dictionary with a "," key, a list holding ",", or a value `in` cannot search |
| NodeGenerator.ExecuteSingleTask | executors/node_generator.py:162-171 | a name outside the five agents gives "Error: Unknown agent type '<name>'" without raising; the other four agents get the input as it is; only the news agent's argument parsing can raise |
| NodeGenerator.RunTask | executors/node_generator.py:115-158 | one loop iteration records a result for every string or dictionary task; only a task that is neither escapes even the exception handler |
| NodeGenerator.ExecuteTasks | executors/node_generator.py:104-160 | a completed run has exactly one result per task |
| NodeGenerator.Points | executors/node_generator.py:249 | blank pieces are dropped, so there are never more points than pieces; NodeGenerator.PointsIsFlatten states the contents |
| NodeGenerator.PointsIsFlatten | executors/node_generator.py:249 | the points are exactly the pieces that are not blank once stripped, each stripped and with a full stop, in the order of the pieces |
| NodeGenerator.KeyPoints | executors/node_generator.py:245-249 | at most three key points, all from the first three `.`-pieces |
| NodeGenerator.Evidence | executors/node_generator.py:251-259 | the evidence is never empty and always ends in a full stop |
| NodeGenerator.Gather | executors/node_generator.py:207-219 | at most two findings per result and at most one piece of evidence per result; NodeGenerator.GatherIsFlatten states the contents |
| NodeGenerator.GatherIsFlatten | executors/node_generator.py:207-219 | the findings are every result's top two key points, and the evidence is the evidence of exactly those results that have a key point, both in result order; the `if evidence:` test never drops anything |
| NodeGenerator.FlattenSnoc | executors/node_generator.py:207-219 | collecting one more result's list appends it after everything collected so far |
| NodeGenerator.Dedup | executors/node_generator.py:277-278 | the distinct elements, each once, and exactly the elements of the input |
| NodeGenerator.CountSucceeded | executors/node_generator.py:200 | never more successful results than results |
| NodeGenerator.StoreNodeSummary | executors/node_generator.py:299-324 | a node without `node_summary` (the error record) leaves the store unchanged; the current analysis id never changes |
| NodeGenerator.NewsInputRoundTrip | executors/node_generator.py:177-183 | `query,count` with a comma-free query reads back as the stripped query and the count (write-then-parse round trip) |
| NodeGenerator.NewsInputFirstComma | executors/node_generator.py:178-183 | only the first comma splits: the query is the stripped text before it whatever follows |
| NodeGenerator.OneResultPerTask | executors/node_generator.py:113-160 | the run fails exactly when some task is neither a string nor a dictionary; otherwise result k is the k-th task's own iteration at 1-based position k, in task order |
| NodeGenerator.StringTaskRoutedToInfoSearch | executors/node_generator.py:118-140 | a string task goes to `info_search` under the id `task_<position>` and is recorded as a success |
| NodeGenerator.UnknownAgentRecordedAsSuccess | executors/node_generator.py:124-167 | a dictionary task naming an unknown agent is recorded with status success and the unknown-agent text as its result |
| NodeGenerator.AgentNameCaseIgnored | executors/node_generator.py:122-142 | for every name whose lower-cased form is one of the five agents, that agent runs the task and the lower-cased name is recorded with status success; the news agent gets its parsed query and count |
| NodeGenerator.NameCaseIrrelevant | executors/node_generator.py:122-142 | two tasks whose agent names differ only in letter case give the same result, unless the news arguments fail and the failure record keeps the name as written |
| NodeGenerator.CountsSucceeded | executors/node_generator.py:200 | Successful is the number of results whose status is success |
| NodeGenerator.AllSucceeded | executors/node_generator.py:200-201 | Successful equals Total Tasks, so Failed is 0, exactly when every task succeeded |
| NodeGenerator.KeyPointsOfSentences | executors/node_generator.py:245-249 | sentences joined by full stops yield their first three, stripped, each with its full stop back |
| NodeGenerator.EvidenceOfSentences | executors/node_generator.py:251-258 | sentences joined by full stops yield the middle one of three or more, else the first, stripped and with a full stop |
| NodeGenerator.ThreeParagraphs | executors/node_generator.py:276-297 | the analysis splits back at blank lines into exactly its three paragraphs: findings or the stock sentence, evidence with the implications sentence or the stock sentence, and the conclusion |
| NodeGenerator.ComprehensiveAnalysis | executors/node_generator.py:261-297 | `_generate_comprehensive_analysis`: findings, evidence and conclusion paragraphs joined by blank lines; NodeGenerator.ThreeParagraphs states what it yields |
| NodeGenerator.GenerateSummary | executors/node_generator.py:189-243 | `_generate_summary`: the overview counts and the analysis between the node-summary markers; NodeGenerator.CountsSucceeded, NodeGenerator.AllSucceeded and NodeGenerator.SummaryContentRecovered state what it yields |
| NodeGenerator.SummaryContentRecovered | executors/node_generator.py:229-237 | the summary store extracts exactly the text `_generate_summary` put between the markers (generate-then-extract round trip) |
| NodeGenerator.StoreKeepsConsistent | executors/node_generator.py:299-324 | storing a node's summary keeps every record's counters equal to those computed from its summaries |
| Executor.NewResourceManager | executors/executor.py:19-22 | a new manager has counted no nodes and keeps both limits as given |
| Executor.Reset | executors/executor.py:24-26 | a reset zeroes the count and leaves both limits alone |
| Executor.IncrementNodes | executors/executor.py:28-30 | counting a node adds exactly one and leaves both limits alone |
| Executor.Generate | executors/node_generator.py:38-89 | the node dictionary always carries the requested id; it is a full node exactly when summarising succeeded, and then echoes layer, query and type with no verdict yet |
| Executor.Regenerate | executors/executor.py:258-279 | a regenerated node keeps its id and its layer, query and type; an error dictionary falls back to layer 1, an empty query and BREADTH |
| Executor.WithStatus | executors/executor.py:237-288 | setting `validation_status` keeps the id, the summary and whether the node is an error dictionary |
| Executor.Decide | executors/executor.py:379-392 | a node at or past the layer limit is typed COMPLETE; otherwise the type is the fallback or one of the known decisions |
| Executor.ValidateNode | executors/executor.py:228-293 | at most three validation calls; the stored data keeps the node id; a returned node is the stored one; the stored node is marked VALID exactly when it is returned, else INVALID; disabled, it marks VALID and stores without a call |
| Executor.ValidateFrom | executors/executor.py:245-291 | the validation loop from a given attempt spends at least one and at most the remaining checks; Executor.ValidateFromVerdicts states when it returns the node |
| Executor.ValidateShape | executors/executor.py:245-291 | every run of the retry loop makes between one and three calls and stores the node under its own id, marked by the outcome |
| Executor.ValidateFromVerdicts | executors/executor.py:245-291 | from any attempt on, the loop returns the node exactly when a later verdict is VALID, stops at the first such verdict, and otherwise spends every attempt |
| Executor.ValidateNodeVerdicts | executors/executor.py:241-291 | with validation on, the node is returned exactly when one of its three verdicts is VALID, right after the first one; a rejected node used all three calls |
| Executor.Record | executors/node_generator.py:299-324 | handing a node to the summary store keeps the node count and appends exactly that node to what was stored |
| Executor.Counted | executors/executor.py:400 | counting a child raises the node count by one |
| Executor.Child | executors/executor.py:349-392 | a child carries its own id, sits one layer below its parent, names the parent as `parent_id`, and starts without children |
| Executor.Admit | executors/executor.py:361-393 | building a child never changes the count; without validation a child is always built and nothing is stored; with validation the validator's data is stored exactly once |
| Executor.ExpandCounts | executors/executor.py:295-491 | the count rises by exactly the number of nodes built and never passes the larger of its start and `max_nodes` |
| Executor.Expand | executors/executor.py:295-323 | `_process_node_children`: nothing at the layer limit or the node budget or for COMPLETE; BREADTH and DEPTH go to their engines; Executor.ExpandCounts, Executor.ExpandShape, Executor.ExpandStores and Executor.ExpandDispatch state what it does |
| Executor.BreadthChildren | executors/executor.py:325-407 | `_process_breadth_node`'s loop over the aspects; Executor.BreadthCounts, Executor.BreadthShape, Executor.BreadthOrder, Executor.BreadthExhausts and Executor.BreadthStores state what it does |
| Executor.DepthChild | executors/executor.py:409-491 | `_process_depth_node`: at most one child `_depth_1` for the follow-up question; Executor.DepthCounts, Executor.DepthShape, Executor.DepthIdBelow and Executor.DepthStores state what it does |
| Executor.BreadthCounts | executors/executor.py:340-407 | the breadth loop raises the count by exactly the nodes it built, within the budget |
| Executor.DepthCounts | executors/executor.py:409-491 | the depth step raises the count by exactly the nodes it built, within the budget |
| Executor.ExpandShape | executors/executor.py:295-323 | every child built sits one layer below its parent, names it as `parent_id`, and stays within `max_layer`, at every depth |
| Executor.BreadthShape | executors/executor.py:340-407 | breadth children and everything under them hang one layer below their parent within the layer limit |
| Executor.DepthShape | executors/executor.py:409-491 | the depth child and everything under it hang one layer below its parent within the layer limit |
| Executor.ExpandStoresNothing | executors/executor.py:373-379 | with validation off, growing a subtree never touches the summary store |
| Executor.BreadthStoresNothing | executors/executor.py:373-379 | with validation off, the breadth loop never touches the summary store |
| Executor.DepthStoresNothing | executors/executor.py:457-463 | with validation off, the depth step never touches the summary store |
| Executor.BreadthIdBelow | executors/executor.py:346 | a breadth child's id extends its parent's id |
| Executor.DepthIdBelow | executors/executor.py:431 | a depth child's id extends its parent's id |
| Executor.AdmitStores | executors/executor.py:373-379 | building one child stores at most that child, marked VALID or INVALID, and keeps the summary store consistent |
| Executor.ExpandStores | executors/executor.py:295-491 | everything a subtree hands to the store is a node below it marked VALID or INVALID, appended after what was there, and the store stays consistent |
| Executor.BreadthStores | executors/executor.py:340-407 | the breadth loop stores only nodes below its parent, marked, keeping the store consistent |
| Executor.DepthStores | executors/executor.py:409-491 | the depth step stores only nodes below its parent, marked, keeping the store consistent |
| Executor.BreadthOrder | executors/executor.py:340-406 | breadth children appear in aspect order, each named after its 1-based aspect position and querying that aspect; a skipped aspect keeps its number |
| Executor.BreadthExhausts | executors/executor.py:340-344 | without validation the loop stops early only on an exhausted node budget: ending below `max_nodes` means one child per aspect |
| Executor.ExpandDispatch | executors/executor.py:304-491 | nothing is built at the layer limit, for COMPLETE, or for any other unknown type; DEPTH builds at most the one `_depth_1` child for the follow-up question, and exactly it without validation when the budget is not used up |
| Executor.ExpandBreadth | executors/executor.py:318-407 | BREADTH builds children in aspect order, one per aspect without validation when the budget is not used up |
| Executor.AnalyzeFacts | executors/executor.py:106-176 | the node count equals the tree's size and stays within `max(max_nodes, 1)`; the tree is well formed within `max_layer`; the root is never stored; without validation nothing is stored; the store stays consistent |
| Executor.Analyze | executors/executor.py:85-176 | `process_query` from the fresh analysis record to the visualisation; Executor.AnalyzeFacts states what it yields |
| Executor.MaxDepthDeepest | executors/executor.py:594-598 | in a well-formed tree `_get_max_depth` is the deepest layer: some node reaches it and none lies deeper |
| Executor.MaxDepth | executors/executor.py:594-598 | `_get_max_depth`: a leaf's layer, else the largest over the children; Executor.MaxDepthDeepest and Executor.MaxDepthWithin state what it yields |
| Executor.MaxDepthAllDeepest | executors/executor.py:598 | over a parent's children, the maximum is reached by one child's subtree and bounds every child's subtree |
| Executor.MaxDepthWithin | executors/executor.py:594-598 | a well-formed tree rooted within the limit reports a depth between its root layer and `max_layer` |
| Executor.ReachesWithin | executors/executor.py:594-598 | any layer a well-formed tree reaches lies between its root's layer and `max_layer` |
| Executor.FirstWithId | executors/executor.py:518-519 | the first entry with this `node_id` when one exists, and no entry with it otherwise |
| Executor.UpsertIds | executors/executor.py:517-530 | an existing entry is replaced in place and a new id is appended: ids stay distinct and the set of ids gains exactly the node's id |
| Executor.AddEdgeSet | executors/executor.py:532-541 | an edge already present is not added again, so edges never repeat and the set gains exactly that edge |
| Executor.AddTreeRecords | executors/executor.py:493-548 | adding a tree records exactly its node ids, one entry each, and exactly its parent edges, none twice |
| Executor.AddToVisualization | executors/executor.py:493-548 | `_add_to_visualization`: the node's entry, its parent edge, then its children; Executor.AddTreeRecords states what it records |
| Executor.AddForestRecords | executors/executor.py:544-545 | adding children in turn records exactly their ids and parent edges, without duplicates |
| MermaidGenerator.DeleteEach | visualization/mermaid_generator.py:60-77 | a chain of deleting replacements only ever removes characters: every character of the result was in the input |
| MermaidGenerator.DeleteEachKeeps | visualization/mermaid_generator.py:60-77 | a character absent from the text stays absent after the deletions |
| MermaidGenerator.DeleteEachClears | visualization/mermaid_generator.py:60-77 | once the deletion of a one-character pattern has run, that character is gone whatever later deletions do |
| MermaidGenerator.DeleteEachIdle | visualization/mermaid_generator.py:60-77 | deleting patterns none of which occurs leaves the text unchanged |
| Text.ReplaceAllIsJoinSplit | visualization/mermaid_generator.py:61-81 | `s.replace(pat, rep)` equals `rep.join(s.split(pat))`: the text between occurrences is kept, and each non-overlapping occurrence found from the left becomes `rep` |
| Text.ReplaceAllAtFirst | visualization/mermaid_generator.py:61-81 | replacing keeps the text before the first occurrence, puts `rep` for that occurrence and goes on after it |
| Text.ReplaceAllKeepsPrefix | visualization/mermaid_generator.py:61-81 | a prefix in which no occurrence starts comes through unchanged |
| Text.ReplaceCharConcat | visualization/mermaid_generator.py:78-81 | with a one-character pattern, replacing a concatenation replaces each part on its own |
| MermaidGenerator.EscapeIsEach | visualization/mermaid_generator.py:78-81 | the second pass maps each `:` to `: `, each line break to `<br>`, each `"` to `'` and each `&` to `and`, and keeps every other character in order |
| MermaidGenerator.EscapeOne | visualization/mermaid_generator.py:78-81 | a single character comes out of the four replacements as its own escape, since no replacement text contains a later pattern |
| MermaidGenerator.EscapeConcat | visualization/mermaid_generator.py:78-81 | the escapes of a concatenation are the escapes of its parts, concatenated |
| MermaidGenerator.EscapeKeeps | visualization/mermaid_generator.py:78-81 | the escapes introduce no character but those of their replacement texts |
| MermaidGenerator.EscapeClears | visualization/mermaid_generator.py:78-81 | after the escapes no line break, double quote or ampersand remains |
| MermaidGenerator.UrlAt | visualization/mermaid_generator.py:87 | a matched URL starts with "http", fits in the text and ends at whitespace or the end |
| MermaidGenerator.RemoveUrls | visualization/mermaid_generator.py:87 | URL removal only deletes characters, and changes nothing in a text without "http" |
| MermaidGenerator.UnmarkedClears | visualization/mermaid_generator.py:60-77 | after both deletion passes no `*`, `#`, bracket, parenthesis or brace remains |
| MermaidGenerator.EscapedClears | visualization/mermaid_generator.py:60-81 | no special character survives the deletions and escapes together |
| MermaidGenerator.TidyKeeps | visualization/mermaid_generator.py:84-89 | collapsing blanks, removing URLs and stripping add no character but the plain space |
| MermaidGenerator.TidySpaces | visualization/mermaid_generator.py:84-89 | after the last three steps every blank is a plain space |
| MermaidGenerator.SanitizeDrops | visualization/mermaid_generator.py:60-89 | no special character and no line break survives sanitising |
| MermaidGenerator.SanitizeTextIsLabel | visualization/mermaid_generator.py:60-89 | the sanitised text is a label: no special character, no line break, only plain spaces, nothing to strip |
| MermaidGenerator.SanitizeContent | visualization/mermaid_generator.py:37-93 | a falsy value gives the empty label, and every result is a label that cannot break the diagram syntax |
| MermaidGenerator.SanitizeTextEscapesEach | visualization/mermaid_generator.py:60-89 | between the deletions and the whitespace tidying, the text is escaped character by character as `EscapeIsEach` describes |
| MermaidGenerator.SanitizeChoosesText | visualization/mermaid_generator.py:49-57 | a dictionary is labelled by its `name`, else by its `query`, else by its printed form; any other value by its printed form |
| MermaidGenerator.SanitizeOfText | visualization/mermaid_generator.py:44-89 | a string, the empty one included, is labelled by the text pipeline |
| MermaidGenerator.SanitizeTextIdle | visualization/mermaid_generator.py:60-89 | text that is already clean passes the pipeline unchanged |
| MermaidGenerator.SanitizeKeepsCleanText | visualization/mermaid_generator.py:37-93 | sanitising twice is sanitising once on clean text: a clean string comes back as it is |
| MermaidGenerator.InsertLayer | visualization/mermaid_generator.py:113-121 | inserting a layer keeps the list strictly ascending and adds exactly that layer |
| MermaidGenerator.Layers | visualization/mermaid_generator.py:113-121 | the subgraph layers are strictly ascending and are exactly the layers some node has |
| MermaidGenerator.AtLayer | visualization/mermaid_generator.py:113-117 | a layer's group holds exactly the nodes of that layer |
| MermaidGenerator.GroupAll | visualization/mermaid_generator.py:113-121 | grouping by any ascending list holding every node's layer is a permutation of the nodes |
| MermaidGenerator.SubgraphsPartitionNodes | visualization/mermaid_generator.py:113-121 | the subgraphs together hold every node exactly once |
| MermaidGenerator.ContentIsSafe | visualization/mermaid_generator.py:176-190 | a node's box text is never empty and has no bracket character, provided its id has none |
| MermaidGenerator.ChosenIsSafe | visualization/mermaid_generator.py:167-188 | whichever source the label comes from (root label, query, summary or id segment), it has no special character |
| MermaidGenerator.RootLabelIsSafe | visualization/mermaid_generator.py:162-163 | the "Optimized Query" label of a root has no special character |
| MermaidGenerator.LastSegmentIsSafe | visualization/mermaid_generator.py:186 | the last `_`-segment of a safe id is safe |
| MermaidGenerator.NodeDefShape | visualization/mermaid_generator.py:192-202 | a node line is its id followed by its box: round exactly for DEPTH, a rhombus exactly for COMPLETE, square otherwise |
| MermaidGenerator.NamedNodes | visualization/mermaid_generator.py:168-171 | exactly the nodes with a truthy `node_id` get a line, in order |
| MermaidGenerator.Originals | visualization/mermaid_generator.py:127-163 | exactly the named ROOT nodes with a truthy `original_query` get a "User Query" node |
| MermaidGenerator.EdgeLine | visualization/mermaid_generator.py:223-231 | an edge gets no line exactly when its source or target is missing or empty |
| MermaidGenerator.FlowchartOpens | visualization/mermaid_generator.py:103-244 | the diagram text starts with the `flowchart TB` line |
| MermaidGenerator.Flowchart | visualization/mermaid_generator.py:95-248 | `_generate_flowchart`: the header, one block per layer, the edges and the styles; MermaidGenerator.FlowchartOpens, MermaidGenerator.EveryNamedNodeDrawn, MermaidGenerator.OriginalQueryDrawn and MermaidGenerator.EdgeLinesCount state what it draws |
| MermaidGenerator.DefInBlock | visualization/mermaid_generator.py:121-212 | a named node's line sits in the subgraph block of its own layer, under that block's header |
| MermaidGenerator.OriginalInBlock | visualization/mermaid_generator.py:125-210 | a showing root's "User Query" node sits in the layer-1 block and its OPTIMIZE edge is emitted |
| MermaidGenerator.EveryNamedNodeDrawn | visualization/mermaid_generator.py:95-244 | every node with a truthy id is drawn, inside the subgraph of its layer |
| MermaidGenerator.OriginalQueryDrawn | visualization/mermaid_generator.py:95-244 | every root showing its original query gets its "User Query" node and OPTIMIZE edge in the diagram |
| MermaidGenerator.EdgeLinesCount | visualization/mermaid_generator.py:221-231 | at most one line per edge; one each when all edges are complete, none when none is |
| MermaidGenerator.EdgeLabelledIffTyped | visualization/mermaid_generator.py:228-231 | an edge line carries a label exactly when the edge's type is BREADTH or DEPTH |
| MermaidGenerator.TypeKeys | visualization/mermaid_generator.py:401 | one type per node, "UNKNOWN" for a missing one |
| MermaidGenerator.CountNodeTypes | visualization/mermaid_generator.py:392-403 | the counts have exactly the types that occur, each with its number of nodes |
| MermaidGenerator.CalculateMaxDepth | visualization/mermaid_generator.py:405-412 | 0 for no nodes; otherwise a layer some node has and no node exceeds |
| MermaidGenerator.MaxDepthIsLastLayer | visualization/mermaid_generator.py:121-412 | the reported maximum depth is the layer of the last subgraph |
| MermaidGenerator.GenerateNodeId | visualization/mermaid_generator.py:436-458 | a truthy own id is kept; without a parent the id is `<analysis_id>_root`; under a parent it starts with `<parent>_` |
| MermaidGenerator.GenerateEdgeLabel | visualization/mermaid_generator.py:460-474 | DEPTH exactly when the lower-cased target contains `_depth_`, BREADTH exactly when it contains `_breadth_` but not `_depth_`, empty otherwise |
| IdScheme.GeneratedIdsMatchExecutor | visualization/mermaid_generator.py:436-458 | the generator's id rule rebuilds every id the executor hands out: the root from the analysis id, a breadth child from parent and position, the depth child from its parent with the default index 1 |
| IdScheme.DepthChildReadsDepth | visualization/mermaid_generator.py:460-474 | an edge into a depth child is always labelled DEPTH |
| IdScheme.BreadthChildReading | visualization/mermaid_generator.py:460-474 | an edge into a breadth child always gets a label, and it reads DEPTH, not BREADTH, whenever some ancestor step was a depth step |
| Analyzer.ReplaceForbidden | analyzers/dual_engine_analyzer.py:293 | each forbidden path character becomes `_`, every other character is kept in place, and no forbidden character remains |
| Analyzer.SpaceRuns | analyzers/dual_engine_analyzer.py:295 | no whitespace remains and no forbidden character is introduced (the one-`_`-per-run rule is `SpaceRunsSplit`) |
| Analyzer.CollapseRuns | analyzers/dual_engine_analyzer.py:296 | no two underscores are adjacent afterwards and path safety is kept (the one-`_`-per-run rule is `CollapseRunsSplit`) |
| Analyzer.DropLeading | analyzers/dual_engine_analyzer.py:297 | stripping from the left drops only underscores and leaves a text that does not start with one |
| Analyzer.DropTrailing | analyzers/dual_engine_analyzer.py:297 | stripping from the right drops only underscores and leaves a text that does not end with one |
| Analyzer.StripUnderscores | analyzers/dual_engine_analyzer.py:297 | `strip('_')` leaves no underscore at either end and keeps path safety and single underscores |
| Analyzer.SanitizeForPath | analyzers/dual_engine_analyzer.py:285-297 | the result is a path component: no forbidden character, no whitespace, no doubled underscore, no underscore at either end |
| Analyzer.KeptConcat | analyzers/dual_engine_analyzer.py:293-297 | the characters every pass keeps are read off a concatenation piece by piece |
| Analyzer.ReplaceForbiddenKeeps | analyzers/dual_engine_analyzer.py:293 | replacing forbidden characters keeps every meaningful character, in order |
| Analyzer.SpaceRunsKeep | analyzers/dual_engine_analyzer.py:295 | replacing whitespace keeps every meaningful character, in order |
| Analyzer.CollapseRunsKeep | analyzers/dual_engine_analyzer.py:296 | collapsing underscores keeps every meaningful character, in order |
| Analyzer.DropLeadingKeeps | analyzers/dual_engine_analyzer.py:297 | left stripping keeps every meaningful character |
| Analyzer.DropTrailingKeeps | analyzers/dual_engine_analyzer.py:297 | right stripping keeps every meaningful character |
| Analyzer.SanitizeKeepsContent | analyzers/dual_engine_analyzer.py:285-297 | sanitising loses no character other than separators: the characters that are not forbidden, blank or `_` survive, in order |
| Analyzer.ReplaceForbiddenIdle | analyzers/dual_engine_analyzer.py:293 | a text without forbidden characters is left alone |
| Analyzer.SpaceRunsIdle | analyzers/dual_engine_analyzer.py:295 | a text without whitespace is left alone |
| Analyzer.CollapseRunsIdle | analyzers/dual_engine_analyzer.py:296 | a text without doubled underscores is left alone |
| Analyzer.SanitizeFixesComponents | analyzers/dual_engine_analyzer.py:285-297 | a text that already is a path component comes back unchanged |
| Analyzer.SanitizeIdempotent | analyzers/dual_engine_analyzer.py:285-297 | sanitising twice is sanitising once |
| Analyzer.SpaceRunsSplit | analyzers/dual_engine_analyzer.py:295 | a maximal whitespace run between two texts becomes exactly one `_`, and the texts on either side are rewritten on their own |
| Analyzer.CollapseRunsSplit | analyzers/dual_engine_analyzer.py:296 | a maximal run of `_` between two texts becomes exactly one `_`, and the texts on either side are rewritten on their own |
| Analyzer.ReplaceForbiddenRuns | analyzers/dual_engine_analyzer.py:293 | replacing forbidden characters by `_` leaves the runs of content characters (`Pieces`) unchanged |
| Analyzer.SpaceRunsRuns | analyzers/dual_engine_analyzer.py:295 | replacing whitespace leaves the runs of content characters unchanged |
| Analyzer.CollapseRunsRuns | analyzers/dual_engine_analyzer.py:296 | collapsing underscores leaves the runs of content characters unchanged |
| Analyzer.DropLeadingRuns | analyzers/dual_engine_analyzer.py:297 | left stripping leaves the runs of content characters unchanged |
| Analyzer.DropTrailingRuns | analyzers/dual_engine_analyzer.py:297 | right stripping leaves the runs of content characters unchanged |
| Analyzer.ComponentRuns | analyzers/dual_engine_analyzer.py:297 | a path component is exactly its runs of content characters joined by `_` |
| Analyzer.SanitizeIsJoin | analyzers/dual_engine_analyzer.py:285-297 | the sanitised text is the maximal runs of characters that are neither forbidden, whitespace nor `_`, in order, joined by exactly one `_` each, so `"a b"` becomes `"a_b"` |

## Left out

- Model transport (the LLM loader, the agents and the prompt-and-chat plumbing of the engine and agent base classes) is left out. Each model call is an oracle that gives a reply text or the failure message. prompters/base.py and engines/base.py are not part of this model beyond the error dictionaries they return.
- File and OS work is left out because it has no bearing on the logic. This covers the analysis directory, JSON saving and loading, writing the Mermaid file, opening a browser, and `os.makedirs`.
- Logging, `time.sleep`, the command line and the package re-exports are left out: they do not affect any result.
- Singletons become explicit values threaded through the operations, such as the summary store.
- Wall-clock values are ordered ticks (`nat`) passed in as parameters. Analysis ids built from the clock are plain inputs.
- YAML loading and `str.format` substitution in the prompt loader are left out. The template tree is an input, and substitution is an input function.
- Rendering of non-string values with `str()` (lists and dictionaries in labels and prompts) is a parameter, because Python's repr format is not part of the logic.
- Whitespace, `lower()` and `int()` follow ASCII only, because Unicode character tables are not part of this model. Python's Unicode whitespace is left out. `lower()` folds only `A`-`Z`, so a Unicode capital in an agent name is recorded unfolded in the task's `agent` field. `int()` accepts only ASCII digits with an optional sign; Unicode digits and `_` digit separators are rejected, so `_parse_news_input("q, 1_0")` gives the count 3 where Python gives 10.
- NodeGenerator.Dedup: fixes the order of `set(...)` to first occurrence. Python leaves that order unspecified, so only the elements and their distinctness are promised.
- `get_formatted_summaries` (executors/summary_manager.py:173-214) is display formatting outside the modelled core.
- The `metadata` dictionary of an analysis record is always empty and is not modelled.
- In `store_node_summary` a missing validation status would default to VALID, because the node dictionary never has a `validation_service` key. The default is never used: the executor sets `validation_status` before every call (executors/executor.py:237-290).
- The `[:50]` truncation before `_sanitize_for_path` is left out, along with the directory it would name. Its result `query_part` is never used; directories are named by the analysis id alone.
- The TypeError of indexing a string with a string key is worded as in Python 3.11. Python 3.9 and 3.10 omit ", not 'str'". The message only reaches the recovery prompt.
- The `optimized_query` and `optimized_query_data` fallbacks of the flowchart layout are left out. The executor never sets those keys on a visualisation node.
- Unreachable error branches are left out:
  - the `except` of `_sanitize_content` and `_generate_flowchart`;
  - the regeneration `except` of `_validate_node`, since `generate_node` catches everything itself;
  - `_add_to_visualization` on an empty node.
- The breadth engine's `max_aspects` only shapes the prompt, so it has no effect on the parsed aspects.
- The list of tasks the executor computes before `generate_node` is never used for the summary, and it is left out. `generate_node` decomposes the query again, and that decomposition is part of the node oracle.
- Constructor failures (a missing API key, an unreadable prompt file) are not modelled.
- The engine decision's `analysis_focus` and `questions` are kept by the controller model but not copied into the tree, because nothing downstream reads them.
- Executor.Analyze: takes the optimised and original query as strings, as a dictionary-shaped optimisation result gives them. An optimisation result that is a list or a string makes `.get` raise AttributeError (executors/executor.py:116), and a recovered dictionary whose `optimized_query` is not a string fails further on. Both end in the failure record of executors/executor.py:217-226, which is not modelled, because the record only carries the exception text and clock values.
- Viz.VizNode and Executor.EntryOf: the visualisation node's `engine_decision` entry (executors/executor.py:510) is dropped. The flowchart does not use it, and the only other reader would be the saved visualisation file, which is left out with the rest of the file work.
- TaskPrompter.Plan: a decomposition is a list of JSON values. A dictionary or scalar decomposition is not represented. Python's `for task in tasks` (executors/node_generator.py:115) would run over a dictionary's keys or a string's characters as string tasks, and fail on a number or `None`.
- Json.Value: has no float case. A JSON number with a fraction or exponent is a Python float. The model only asks a value for its type name or truthiness, never for arithmetic, and a float would differ from `Int` only in the type name "float".
