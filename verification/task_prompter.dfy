/** The plan prompter (prompters/task_prompter.py): decompose the query
    into a plan, have the plan checked, and retry once with the checker's
    feedback. The three model calls, each followed by the JSON parsing of
    its reply where there is one, are oracles that give either a value or
    the message of the exception they raised. */
module TaskPrompter {
  import opened Common
  import opened Text
  import opened Json

  const SuccessMessage := "The plan satisfies completeness and non-redundancy."

  /** A plan: the list of task dictionaries. */
  type Plan = seq<Value>

  /** `_parse_validation_response`'s dictionary. */
  datatype Verdict = Verdict(isValid: bool, feedback: Option<string>)

  function ParseValidation(response: string): (v: Verdict)
    ensures v.isValid <==> Contains(response, SuccessMessage)
    ensures v.feedback.None? <==> v.isValid
    ensures v.feedback.Some? ==> v.feedback.value == response
  {
    var ok := Contains(response, SuccessMessage);
    Verdict(ok, if ok then None else Some(response))
  }

  /** The model calls `process` makes, in order. */
  datatype Call = Generate | Validate(plan: Plan) | Retry(feedback: string, original: Plan)

  /** `process`'s return value: a plan, or what `handle_error` makes of the
      exception (the operation name and the exception's text). */
  datatype Outcome = Decomposed(plan: Plan) | ErrorHandled(operation: string, error: string)

  datatype Run = Run(result: Outcome, calls: seq<Call>)

  function Failure(error: string): Outcome {
    ErrorHandled("Task decomposition", error)
  }

  /** `process(user_input)`. `generate` is the decomposition call's outcome,
      `validate(p)` the checker's reply to plan p, `retry(f, p)` the
      decomposition the retry call gives for feedback f and the original
      plan p. */
  function Process(generate: Result<Plan, string>,
                   validate: Plan -> Result<string, string>,
                   retry: (string, Plan) -> Result<Plan, string>): (run: Run)
    ensures |run.calls| >= 1 && run.calls[0] == Generate
    // a failed decomposition ends the run
    ensures generate.Err? ==> run == Run(Failure("Error in task decomposition: " + generate.error), [Generate])
    // the generated plan, and only it, is sent for checking
    ensures generate.Ok? ==> |run.calls| >= 2 && run.calls[1] == Validate(generate.value)
    ensures generate.Ok? && validate(generate.value).Err? ==>
      run.result == Failure("Error in task validation: " + validate(generate.value).error)
    // an accepted plan comes back unchanged, without a retry
    ensures generate.Ok? && validate(generate.value).Ok? && Contains(validate(generate.value).value, SuccessMessage) ==>
      run == Run(Decomposed(generate.value), [Generate, Validate(generate.value)])
  {
    match generate
    case Err(e) => Run(Failure("Error in task decomposition: " + e), [Generate])
    case Ok(plan) =>
      match validate(plan)
      case Err(e) => Run(Failure("Error in task validation: " + e), [Generate, Validate(plan)])
      case Ok(response) =>
        var verdict := ParseValidation(response);
        if verdict.isValid then Run(Decomposed(plan), [Generate, Validate(plan)])
        else
          var calls := [Generate, Validate(plan), Retry(verdict.feedback.value, plan)];
          match retry(verdict.feedback.value, plan)
          case Ok(revised) => Run(Decomposed(revised), calls)
          case Err(e) => Run(Failure("Error in retry decomposition: " + e), calls)
  }

  // -----------------------------------------------------------------------
  // Properties

  /** The acceptance phrase is recognised wherever it sits in the reply. */
  lemma PhraseAnywhereAccepts(before: string, after: string)
    ensures ParseValidation(before + SuccessMessage + after) == Verdict(true, None)
  {
    ContainsInside(before, SuccessMessage, after);
  }

  /** A rejected plan is retried exactly once, with the checker's whole
      reply as feedback and the rejected plan as the original; whatever the
      retry gives is the result, with no second check. */
  lemma RejectedPlanRetriedOnce(plan: Plan, response: string,
                                validate: Plan -> Result<string, string>,
                                retry: (string, Plan) -> Result<Plan, string>)
    requires validate(plan) == Ok(response)
    requires !Contains(response, SuccessMessage)
    ensures var run := Process(Ok(plan), validate, retry);
      run.calls == [Generate, Validate(plan), Retry(response, plan)]
      && run.result == (match retry(response, plan)
                        case Ok(revised) => Decomposed(revised)
                        case Err(e) => Failure("Error in retry decomposition: " + e))
  {
    assert ParseValidation(response).feedback == Some(response);
  }

  /** On every input: at most one check and at most one retry, a retry only
      after a reply without the acceptance phrase, carrying that reply. */
  lemma AtMostOneRetry(generate: Result<Plan, string>,
                       validate: Plan -> Result<string, string>,
                       retry: (string, Plan) -> Result<Plan, string>)
    ensures var run := Process(generate, validate, retry);
      |run.calls| <= 3
      && (forall i :: 1 <= i < |run.calls| ==> !run.calls[i].Generate?)
      && (|run.calls| == 3 ==>
            generate.Ok? && validate(generate.value).Ok?
            && run.calls[2] == Retry(validate(generate.value).value, generate.value)
            && !Contains(validate(generate.value).value, SuccessMessage))
  {
  }
}
