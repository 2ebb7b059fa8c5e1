/** The input prompter (prompters/input_prompter.py): asks the model to
    optimise the user's query, checks the parsed answer, and on any failure
    asks for a corrected answer instead. The model calls followed by JSON
    parsing are oracles giving a value or the text of the exception. */
module InputPrompter {
  import opened Common
  import opened Text
  import opened Json

  /** Outcome of `_validate_optimization`: it returns, or raises with a
      message. */
  datatype Check = Pass | Fail(message: string)

  const MissingKey := "Missing required key in optimization result"
  const EmptyOptimized := "Optimized query is empty"
  const MissingOriginal := "Original query is missing"
  const NotAList := "Modifications must be a list"
  const MissingRecoveryKeys := "Missing required keys in error handling result"

  /** `v[key].strip()` is empty; a value that is not a string has no
      `strip` and raises. */
  function BlankField(v: Value, blank: string): Check {
    match v
    case Str(s) => if Strip(s) == "" then Fail(blank) else Pass
    case _ => Fail("'" + TypeName(v) + "' object has no attribute 'strip'")
  }

  const OptimizationKeys := ["optimized_query", "original_query", "modifications"]
  const RecoveryKeys := ["optimized_query", "original_query", "modifications", "error_handling"]

  /** The TypeError of indexing a list or a string with a string key (the
      wording of Python 3.11). */
  function KeyIndexError(v: Value): string {
    if v.List? then "list indices must be integers or slices, not str"
    else "string indices must be integers, not 'str'"
  }

  /** `_validate_optimization(result)`: the key check, the two blank
      checks and the list check, in that order; the first failure raises. */
  function ValidateOptimization(v: Value): (c: Check)
    // a value `in` cannot search raises on the key check
    ensures !(v.Dict? || v.List? || v.Str?) ==> c == Fail(NotIterable(v))
    // a missing key fails first, with the missing-key message
    ensures (v.Dict? || v.List? || v.Str?) && !HasAll(v, OptimizationKeys) ==> c == Fail(MissingKey)
    // a list or string holding every key name fails on `result["optimized_query"]`
    ensures (v.List? || v.Str?) && HasAll(v, OptimizationKeys) ==> c == Fail(KeyIndexError(v))
  {
    match AllIn(OptimizationKeys, v)
    case Err(e) => Fail(e)
    case Ok(false) => Fail(MissingKey)
    case Ok(true) =>
      if !v.Dict? then Fail(KeyIndexError(v))
      else if BlankField(v.entries["optimized_query"], EmptyOptimized).Fail? then
        BlankField(v.entries["optimized_query"], EmptyOptimized)
      else if BlankField(v.entries["original_query"], MissingOriginal).Fail? then
        BlankField(v.entries["original_query"], MissingOriginal)
      else if !v.entries["modifications"].List? then Fail(NotAList)
      else Pass
  }

  /** Reference definition: every key is found by Python's `in`. */
  predicate HasAll(v: Value, keys: seq<string>) {
    forall k :: 0 <= k < |keys| ==> In(keys[k], v) == Ok(true)
  }

  /** Reference definition of an acceptable optimisation result. */
  predicate IsOptimization(v: Value) {
    v.Dict?
    && "optimized_query" in v.entries && v.entries["optimized_query"].Str?
    && !IsBlank(v.entries["optimized_query"].s)
    && "original_query" in v.entries && v.entries["original_query"].Str?
    && !IsBlank(v.entries["original_query"].s)
    && "modifications" in v.entries && v.entries["modifications"].List?
  }

  /** `process`'s return value: the checked result, the corrected result of
      the error-handling call, or what `handle_error` makes of a failure
      there. */
  datatype Outcome = Optimized(result: Value) | Recovered(result: Value) | ErrorHandled(operation: string, error: string)

  /** The recovery answer must hold all four keys, as `in` finds them: a
      dictionary's keys, a list's items or a string's substrings. */
  predicate IsRecovery(v: Value) {
    HasAll(v, RecoveryKeys)
  }

  /** `_handle_optimization_error(user_input, message)`; `recover(message)`
      is the error-handling call's parsed answer. */
  function HandleOptimizationError(message: string, recover: string -> Result<Value, string>): (r: Outcome)
    ensures r.Recovered? <==> recover(message).Ok? && IsRecovery(recover(message).value)
    ensures r.Recovered? ==> r.result == recover(message).value
    ensures !r.Optimized?
    // a failed call or parse is handed to `handle_error` with its message
    ensures recover(message).Err? ==> r == ErrorHandled("Input optimization", recover(message).error)
    // an answer without the keys is handed on with the missing-keys message
    ensures recover(message).Ok? && !IsRecovery(recover(message).value) ==>
      var v := recover(message).value;
      r == ErrorHandled("Input optimization", if v.Dict? || v.List? || v.Str? then MissingRecoveryKeys else NotIterable(v))
  {
    match recover(message)
    case Err(e) => ErrorHandled("Input optimization", e)
    case Ok(v) =>
      match AllIn(RecoveryKeys, v)
      case Err(e) => ErrorHandled("Input optimization", e)
      case Ok(true) => Recovered(v)
      case Ok(false) => ErrorHandled("Input optimization", MissingRecoveryKeys)
  }

  /** `process(user_input)`; `parsed` is the optimisation call's parsed
      answer. */
  function Process(parsed: Result<Value, string>, recover: string -> Result<Value, string>): (r: Outcome)
    // a call or parse failure goes to error handling with its message
    ensures parsed.Err? ==> r == HandleOptimizationError(parsed.error, recover)
    // a checked result goes to error handling with the check's message
    ensures parsed.Ok? && ValidateOptimization(parsed.value).Fail? ==>
      r == HandleOptimizationError(ValidateOptimization(parsed.value).message, recover)
  {
    match parsed
    case Err(e) => HandleOptimizationError(e, recover)
    case Ok(v) =>
      match ValidateOptimization(v)
      case Pass => Optimized(v)
      case Fail(m) => HandleOptimizationError(m, recover)
  }

  // -----------------------------------------------------------------------
  // Properties

  lemma BlankFieldPasses(v: Value, blank: string)
    ensures BlankField(v, blank).Pass? <==> v.Str? && !IsBlank(v.s)
  {
    if v.Str? {
      StripEmptyIffBlank(v.s);
    }
  }

  /** The sequential checks accept exactly the results the reference
      definition describes. */
  lemma ValidateMatchesDefinition(v: Value)
    ensures ValidateOptimization(v).Pass? <==> IsOptimization(v)
  {
    if v.Dict? {
      DictHasAll(v);
      if "optimized_query" in v.entries && "original_query" in v.entries && "modifications" in v.entries {
        BlankFieldPasses(v.entries["optimized_query"], EmptyOptimized);
        BlankFieldPasses(v.entries["original_query"], MissingOriginal);
      }
    }
  }

  /** On a dictionary the key check asks for the three keys. */
  lemma DictHasAll(v: Value)
    requires v.Dict?
    ensures AllIn(OptimizationKeys, v)
            == Ok("optimized_query" in v.entries && "original_query" in v.entries && "modifications" in v.entries)
  {
    var ks := OptimizationKeys;
    assert ks[0] == "optimized_query" && ks[1] == "original_query" && ks[2] == "modifications";
  }

  /** A list answer naming the four keys is returned as the recovered
      result, like a dictionary holding them. */
  lemma ListRecoveryReturned(message: string, recover: string -> Result<Value, string>)
    requires recover(message)
             == Ok(List([Str("optimized_query"), Str("original_query"), Str("modifications"), Str("error_handling")]))
    ensures HandleOptimizationError(message, recover) == Recovered(recover(message).value)
  {
    var xs := recover(message).value.items;
    assert forall k :: 0 <= k < |RecoveryKeys| ==> Str(RecoveryKeys[k]) == xs[k];
  }

  /** A list answer naming the three keys fails the check on its first
      index, not on the key test. */
  lemma ListAnswerFailsOnIndex()
    ensures ValidateOptimization(List([Str("optimized_query"), Str("original_query"), Str("modifications")]))
            == Fail("list indices must be integers or slices, not str")
  {
    var v := List([Str("optimized_query"), Str("original_query"), Str("modifications")]);
    assert forall k :: 0 <= k < |OptimizationKeys| ==> Str(OptimizationKeys[k]) == v.items[k];
  }

  /** An acceptable result is returned unchanged, without the
      error-handling call. */
  lemma AcceptedResultReturned(v: Value, recover: string -> Result<Value, string>)
    requires IsOptimization(v)
    ensures Process(Ok(v), recover) == Optimized(v)
  {
    ValidateMatchesDefinition(v);
  }

  /** Checks run in order: a blank optimised query is reported as such
      even when the original query is blank too and the modifications are
      not a list. */
  lemma BlankOptimizedReportedFirst(optimized: string, original: Value, modifications: Value)
    requires IsBlank(optimized)
    ensures ValidateOptimization(Dict(map["optimized_query" := Str(optimized),
                                          "original_query" := original,
                                          "modifications" := modifications]))
            == Fail(EmptyOptimized)
  {
    var m := map["optimized_query" := Str(optimized), "original_query" := original, "modifications" := modifications];
    assert "optimized_query"[1] != "original_query"[1] && "optimized_query"[0] != "modifications"[0];
    assert m["optimized_query"] == Str(optimized);
    StripEmptyIffBlank(optimized);
    assert BlankField(Str(optimized), EmptyOptimized) == Fail(EmptyOptimized);
  }

  /** Whatever goes wrong, `process` returns an outcome; it is a checked
      or a recovered result, or the handled error of the recovery step. */
  lemma ProcessOutcomes(parsed: Result<Value, string>, recover: string -> Result<Value, string>)
    ensures var r := Process(parsed, recover);
      (r.Optimized? ==> parsed.Ok? && r.result == parsed.value && IsOptimization(parsed.value))
      && (r.Recovered? ==> IsRecovery(r.result))
      && (r.ErrorHandled? ==> r.operation == "Input optimization")
  {
    if parsed.Ok? {
      ValidateMatchesDefinition(parsed.value);
    }
  }
}
