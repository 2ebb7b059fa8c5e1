/** Nested prompt-template lookup (utils/prompt_loader.py). The template
    tree is the parsed YAML document; loading it and `str.format` are not
    modelled: substitution is an input function. */
module PromptLoader {
  import opened Text
  import opened Json
  import opened Common

  datatype PromptCategory =
    | BasePrompter | Planner | ErrorHandling | NewsSearch | EventExtractor
    | HistoryAnalyzer | Reasoning | InfoSearch | Validation | ExecutorService
    | EngineController | BreadthAnalysis | DepthAnalysis | Response
  {
    /** The enum member's value, the top-level key of the template tree. */
    function Key(): string {
      match this
      case BasePrompter => "base_prompter"
      case Planner => "planner"
      case ErrorHandling => "error_handling"
      case NewsSearch => "news_search"
      case EventExtractor => "event_extractor"
      case HistoryAnalyzer => "history_analyzer"
      case Reasoning => "reasoning"
      case InfoSearch => "info_search"
      case Validation => "validation"
      case ExecutorService => "executor_service"
      case EngineController => "engine_controller"
      case BreadthAnalysis => "breadth_analysis"
      case DepthAnalysis => "depth_analysis"
      case Response => "response"
    }
  }

  /** Outcome of one `value[key]` step: a KeyError on a dictionary without
      the key, a TypeError on the value `at` that is not a dictionary. */
  datatype Step = Found(v: Value) | KeyMissing | NotSubscriptable(at: Value)

  /** The TypeError text CPython 3.11 gives for `v[key]` with a string key
      when `v` is not a dictionary. */
  function SubscriptError(v: Value): string {
    match v
    case List(_) => "list indices must be integers or slices, not str"
    case Str(_) => "string indices must be integers, not 'str'"
    case _ => "'" + TypeName(v) + "' object is not subscriptable"
  }

  /** The errors `get_prompt` raises: the ValueError for a missing key, the
      ValueError for a non-string template, and any other error re-raised. */
  datatype PromptError =
    | NotFound(message: string)
    | NotAString(message: string)
    | Raised(message: string)

  /** What `template.format(**kwargs)` does: the formatted text, a KeyError
      for a placeholder with no argument, or another error. */
  datatype Formatting = Formatted(text: string) | MissingArgument | FormatFailed(message: string)

  function Index(v: Value, key: string): (r: Step)
    ensures r.Found? <==> HasKey(v, key)
    ensures r.KeyMissing? <==> v.Dict? && key !in v.entries
    ensures r.NotSubscriptable? <==> !v.Dict?
    ensures r.NotSubscriptable? ==> r.at == v
  {
    match v
    case Dict(m) => if key in m then Found(m[key]) else KeyMissing
    case _ => NotSubscriptable(v)
  }

  /** Successive indexing by each path segment; the first failing step
      decides. */
  function Walk(v: Value, path: seq<string>): Step
    decreases |path|
  {
    if |path| == 0 then Found(v)
    else match Index(v, path[0])
      case Found(c) => Walk(c, path[1..])
      case KeyMissing => KeyMissing
      case NotSubscriptable(at) => NotSubscriptable(at)
  }

  function NotFoundMessage(category: PromptCategory, name: string): string {
    "Prompt not found: category=" + category.Key() + ", name=" + name
  }

  /** `get_prompt(category, prompt_name, **kwargs)`; `hasArgs` says whether
      any keyword argument was passed and `format` stands for
      `template.format(**kwargs)`. */
  function GetPrompt(prompts: Value, category: PromptCategory, name: string,
                     hasArgs: bool, format: string -> Formatting): (r: Result<string, PromptError>)
    // a template that is reached and is a string comes back verbatim without arguments
    ensures (Walk(prompts, [category.Key()] + Split(name, "/")).Found?
             && Walk(prompts, [category.Key()] + Split(name, "/")).v.Str? && !hasArgs)
            ==> r == Ok(Walk(prompts, [category.Key()] + Split(name, "/")).v.s)
    // a missing key anywhere on the path is reported as "Prompt not found"
    ensures Walk(prompts, [category.Key()] + Split(name, "/")).KeyMissing?
            ==> r == Err(NotFound(NotFoundMessage(category, name)))
    // a value that is not a string at the end of the path is refused
    ensures (Walk(prompts, [category.Key()] + Split(name, "/")).Found?
             && !Walk(prompts, [category.Key()] + Split(name, "/")).v.Str?)
            ==> r.Err? && r.error.NotAString?
    // indexing a value that is not a dictionary re-raises Python's TypeError for that value
    ensures Walk(prompts, [category.Key()] + Split(name, "/")).NotSubscriptable?
            ==> r == Err(Raised(SubscriptError(Walk(prompts, [category.Key()] + Split(name, "/")).at)))
    ensures r.Ok? ==> Walk(prompts, [category.Key()] + Split(name, "/")).Found?
  {
    match Index(prompts, category.Key())
    case KeyMissing => Err(NotFound(NotFoundMessage(category, name)))
    case NotSubscriptable(at) => Err(Raised(SubscriptError(at)))
    case Found(tree) =>
      match Walk(tree, Split(name, "/"))
      case KeyMissing => Err(NotFound(NotFoundMessage(category, name)))
      case NotSubscriptable(at) => Err(Raised(SubscriptError(at)))
      case Found(Str(template)) =>
        if !hasArgs then Ok(template)
        else (match format(template)
              case Formatted(t) => Ok(t)
              // str.format raises KeyError, which the KeyError handler turns into "not found"
              case MissingArgument => Err(NotFound(NotFoundMessage(category, name)))
              case FormatFailed(m) => Err(Raised(m)))
      case Found(_) => Err(NotAString("Prompt at path '" + name + "' is not a string"))
  }

  /** Looking up a path walks the segments one after the other. */
  lemma {:induction false} WalkAppend(v: Value, a: seq<string>, b: seq<string>)
    decreases |a|
    ensures Walk(v, a + b) == (match Walk(v, a)
                               case Found(w) => Walk(w, b)
                               case other => other)
  {
    if |a| > 0 {
      assert (a + b)[0] == a[0];
      assert (a + b)[1..] == a[1..] + b;
      match Index(v, a[0])
      case Found(c) => WalkAppend(c, a[1..], b);
      case _ =>
    } else {
      assert a + b == b;
    }
  }

  /** A tree holding `template` under the given segments, each one a
      nested dictionary with a single key. */
  function Nest(path: seq<string>, leaf: Value): Value
    decreases |path|
  {
    if |path| == 0 then leaf else Dict(map[path[0] := Nest(path[1..], leaf)])
  }

  /** A template stored under the slash-separated name is found under that
      name and returned verbatim when no arguments are passed. */
  lemma {:induction false} StoredTemplateIsFound(category: PromptCategory, segments: seq<string>,
                                                 template: string, format: string -> Formatting)
    requires |segments| > 0
    requires forall k :: 0 <= k < |segments| ==> !Contains(segments[k], "/")
    ensures GetPrompt(Dict(map[category.Key() := Nest(segments, Str(template))]),
                      category, Join(segments, "/"), false, format) == Ok(template)
  {
    SplitJoin(segments, '/');
    WalkNest(segments, Str(template));
    var prompts := Dict(map[category.Key() := Nest(segments, Str(template))]);
    assert Index(prompts, category.Key()) == Found(Nest(segments, Str(template)));
  }

  /** Asking for a name that goes below a stored value that is not a
      dictionary raises the TypeError Python gives for that value: for
      instance "'NoneType' object is not subscriptable" for an empty entry
      and "string indices must be integers, not 'str'" for a template. */
  lemma {:induction false} BelowLeafRaises(category: PromptCategory, segments: seq<string>,
                                           below: string, leaf: Value,
                                           hasArgs: bool, format: string -> Formatting)
    requires |segments| > 0 && !leaf.Dict?
    requires forall k :: 0 <= k < |segments| ==> !Contains(segments[k], "/")
    requires !Contains(below, "/")
    ensures GetPrompt(Dict(map[category.Key() := Nest(segments, leaf)]),
                      category, Join(segments + [below], "/"), hasArgs, format)
            == Err(Raised(SubscriptError(leaf)))
  {
    var path := segments + [below];
    forall k | 0 <= k < |path| ensures !Contains(path[k], "/") {
      if k < |segments| { assert path[k] == segments[k]; } else { assert path[k] == below; }
    }
    SplitJoin(path, '/');
    var tree := Nest(segments, leaf);
    WalkNest(segments, leaf);
    WalkAppend(tree, segments, [below]);
    assert Walk(leaf, [below]) == NotSubscriptable(leaf);
    assert Walk(tree, Split(Join(path, "/"), "/")) == NotSubscriptable(leaf);
    assert Index(Dict(map[category.Key() := tree]), category.Key()) == Found(tree);
  }

  lemma {:induction false} WalkNest(path: seq<string>, leaf: Value)
    decreases |path|
    ensures Walk(Nest(path, leaf), path) == Found(leaf)
  {
    if |path| > 0 {
      WalkNest(path[1..], leaf);
    }
  }

}
