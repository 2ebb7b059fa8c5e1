/** The Mermaid flowchart the system draws from the executor's visualisation
    record (visualization/mermaid_generator.py): label sanitising, the
    layer-by-layer layout, the diagram metadata, and the id and edge-label
    helpers. Writing files and opening a browser are not modelled. */
module MermaidGenerator {
  import opened Common
  import opened Text
  import opened Json
  import opened Viz

  // ---------------------------------------------------------------------
  // sanitising labels

  /** Markdown emphasis and heading marks, removed first, in this order. */
  const MarkdownMarks: seq<string> := ["**", "*", "###", "####", "#"]

  /** Brackets Mermaid would read as node shapes, removed next. */
  const BracketMarks: seq<string> := ["{{", "}}", "(", ")", "[", "]", "{", "}"]

  /** The characters no sanitised label contains. */
  const Specials: set<char> := {'*', '#', '(', ')', '[', ']', '{', '}', '"', '&'}

  predicate AllNonEmpty(pats: seq<string>) {
    forall k :: 0 <= k < |pats| ==> |pats[k]| > 0
  }

  /** Chained `.replace(p, '')` for each pattern in turn. */
  function DeleteEach(s: string, pats: seq<string>): (r: string)
    requires AllNonEmpty(pats)
    decreases |pats|
    ensures Within(r, s)
  {
    if |pats| == 0 then s
    else
      var t := ReplaceAll(s, pats[0], "");
      DeleteEach(t, pats[1..])
  }

  /** Deleting patterns adds no character. */
  lemma DeleteEachKeeps(s: string, pats: seq<string>, c: char)
    requires AllNonEmpty(pats) && c !in s
    ensures c !in DeleteEach(s, pats)
  {
    var r := DeleteEach(s, pats);
    assert forall i :: 0 <= i < |r| ==> r[i] in s;
  }

  /** A one-character pattern is gone once its deletion has run. */
  lemma {:induction false} DeleteEachClears(s: string, pats: seq<string>, k: nat, c: char)
    requires AllNonEmpty(pats) && k < |pats| && pats[k] == [c]
    decreases k
    ensures c !in DeleteEach(s, pats)
  {
    var t := ReplaceAll(s, pats[0], "");
    if k == 0 {
      DeleteEachKeeps(t, pats[1..], c);
    } else {
      DeleteEachClears(t, pats[1..], k - 1, c);
    }
  }

  /** Deleting patterns none of which occurs leaves the text alone. */
  lemma {:induction false} DeleteEachIdle(s: string, pats: seq<string>)
    requires AllNonEmpty(pats)
    requires forall k :: 0 <= k < |pats| ==> pats[k][0] !in s
    decreases |pats|
    ensures DeleteEach(s, pats) == s
  {
    if |pats| > 0 {
      HeadAbsent(s, pats[0]);
      DeleteEachIdle(s, pats[1..]);
    }
  }

  /** The second pass after the bracket deletions: a space after each
      colon, `<br>` for line breaks, `'` for `"`, `and` for `&`. */
  function Escape(s: string): string {
    var a := ReplaceAll(s, ":", ": ");
    var b := ReplaceAll(a, "\n", "<br>");
    var c := ReplaceAll(b, "\"", "'");
    ReplaceAll(c, "&", "and")
  }

  /** What the second pass turns one character into. */
  function EscapeChar(c: char): string {
    if c == ':' then ": "
    else if c == '\n' then "<br>"
    else if c == '"' then "'"
    else if c == '&' then "and"
    else [c]
  }

  /** Reference definition: every character escaped on its own, in order. */
  function EscapeEach(s: string): string {
    if s == [] then "" else EscapeChar(s[0]) + EscapeEach(s[1..])
  }

  /** The escapes work piece by piece, since every pattern is one character. */
  lemma EscapeConcat(x: string, y: string)
    ensures Escape(x + y) == Escape(x) + Escape(y)
  {
    var a1, a2 := ReplaceAll(x, ":", ": "), ReplaceAll(y, ":", ": ");
    ReplaceCharConcat(x, y, ':', ": ");
    var b1, b2 := ReplaceAll(a1, "\n", "<br>"), ReplaceAll(a2, "\n", "<br>");
    ReplaceCharConcat(a1, a2, '\n', "<br>");
    var c1, c2 := ReplaceAll(b1, "\"", "'"), ReplaceAll(b2, "\"", "'");
    ReplaceCharConcat(b1, b2, '"', "'");
    ReplaceCharConcat(c1, c2, '&', "and");
  }

  /** One character is escaped as `EscapeChar` says. */
  lemma EscapeOne(c: char)
    ensures Escape([c]) == EscapeChar(c)
  {
    ReplaceChar(c, ':', ": ");
    var a := ReplaceAll([c], ":", ": ");
    if c == ':' {
      ReplaceCharIdle(a, '\n', "<br>");
      ReplaceCharIdle(a, '"', "'");
      ReplaceCharIdle(a, '&', "and");
    } else {
      ReplaceChar(c, '\n', "<br>");
      var b := ReplaceAll(a, "\n", "<br>");
      if c == '\n' {
        ReplaceCharIdle(b, '"', "'");
        ReplaceCharIdle(b, '&', "and");
      } else {
        ReplaceChar(c, '"', "'");
        var d := ReplaceAll(b, "\"", "'");
        if c == '"' {
          ReplaceCharIdle(d, '&', "and");
        } else {
          ReplaceChar(c, '&', "and");
        }
      }
    }
  }

  /** `_sanitize_content`'s escapes turn each `:` into `: `, each line
      break into `<br>`, each `"` into `'` and each `&` into `and`, and
      keep every other character, in order. */
  lemma {:induction false} EscapeIsEach(s: string)
    ensures Escape(s) == EscapeEach(s)
    decreases |s|
  {
    if s == [] {
      assert Escape(s) == "" by {
        ReplaceCharIdle(s, ':', ": ");
        ReplaceCharIdle(s, '\n', "<br>");
        ReplaceCharIdle(s, '"', "'");
        ReplaceCharIdle(s, '&', "and");
      }
    } else {
      assert s == [s[0]] + s[1..];
      EscapeConcat([s[0]], s[1..]);
      EscapeOne(s[0]);
      EscapeIsEach(s[1..]);
    }
  }

  /** A replacement keeps out a character that neither the text nor the
      replacement has. */
  lemma Keep(s: string, pat: string, rep: string, c: char)
    requires |pat| > 0 && c !in s && c !in rep
    ensures c !in ReplaceAll(s, pat, rep)
  {
    var r := ReplaceAll(s, pat, rep);
    assert forall i :: 0 <= i < |r| ==> r[i] in s || r[i] in rep;
  }

  /** Escaping adds no character but those of its replacements. */
  lemma EscapeKeeps(s: string, c: char)
    requires c !in s && c !in {':', ' ', '<', 'b', 'r', '>', '\'', 'a', 'n', 'd'}
    ensures c !in Escape(s)
  {
    var a := ReplaceAll(s, ":", ": ");
    Keep(s, ":", ": ", c);
    var b := ReplaceAll(a, "\n", "<br>");
    Keep(a, "\n", "<br>", c);
    var d := ReplaceAll(b, "\"", "'");
    Keep(b, "\"", "'", c);
    Keep(d, "&", "and", c);
  }

  /** Escaping removes line breaks, double quotes and ampersands. */
  lemma EscapeClears(s: string)
    ensures '\n' !in Escape(s) && '"' !in Escape(s) && '&' !in Escape(s)
  {
    var a := ReplaceAll(s, ":", ": ");
    var b := ReplaceAll(a, "\n", "<br>");
    assert '\n' !in b;
    var d := ReplaceAll(b, "\"", "'");
    assert '"' !in d;
    Keep(b, "\"", "'", '\n');
    Keep(d, "&", "and", '\n');
    Keep(d, "&", "and", '"');
  }

  /** Length of the match of `http[s]?://\S+` at the start of s, or 0: the
      scheme, then the longest run of non-whitespace, which must not be
      empty. */
  function UrlAt(s: string): (n: nat)
    ensures n <= |s|
    ensures n > 0 ==> StartsWith(s, "http")
    ensures n > 0 ==> n < |s| ==> IsSpace(s[n])
  {
    if StartsWith(s, "https://") && |s| > 8 && !IsSpace(s[8]) then 8 + |TakeWord(s[8..])|
    else if StartsWith(s, "http://") && |s| > 7 && !IsSpace(s[7]) then 7 + |TakeWord(s[7..])|
    else 0
  }

  /** `re.sub(r'http[s]?://\S+', '', s)`: matches are found left to right
      and removed. */
  function RemoveUrls(s: string): (r: string)
    decreases |s|
    ensures Within(r, s)
    ensures !Contains(s, "http") ==> r == s
  {
    if |s| == 0 then ""
    else
      var n := UrlAt(s);
      if n > 0 then
        assert Contains(s, "http") by { assert OccursAt(s, "http", 0); }
        RemoveUrls(s[n..])
      else
        assert !Contains(s, "http") ==> !Contains(s[1..], "http") by {
          if Contains(s[1..], "http") {
            var k := Find(s[1..], "http").value;
            assert s[1..][k..k + 4] == s[k + 1..k + 5];
            assert OccursAt(s, "http", k + 1);
          }
        }
        [s[0]] + RemoveUrls(s[1..])
  }

  lemma MarksNonEmpty()
    ensures AllNonEmpty(MarkdownMarks) && AllNonEmpty(BracketMarks)
  {
  }

  /** The two deletion passes of `_sanitize_content`. */
  function Unmarked(s: string): string {
    MarksNonEmpty();
    DeleteEach(DeleteEach(s, MarkdownMarks), BracketMarks)
  }

  /** Collapsing, URL removal and stripping, after the escapes. */
  function Tidy(s: string): string {
    Strip(RemoveUrls(CollapseSpaces(s)))
  }

  /** The string pipeline of `_sanitize_content`. */
  function SanitizeText(s: string): string {
    Tidy(Escape(Unmarked(s)))
  }

  /** After the deletions, each remaining character is escaped on its own
      before spaces are collapsed, URLs removed and the ends stripped. */
  lemma SanitizeTextEscapesEach(s: string)
    ensures SanitizeText(s) == Tidy(EscapeEach(Unmarked(s)))
  {
    EscapeIsEach(Unmarked(s));
  }

  /** A sanitised label has none of `* # ( ) [ ] { } " &`, no line break,
      no whitespace but plain spaces, and no leading or trailing blank. */
  predicate IsLabel(r: string) {
    && NoneOf(r, Specials + {'\n'})
    && (forall i :: 0 <= i < |r| ==> IsSpace(r[i]) ==> r[i] == ' ')
    && IsStripped(r)
  }

  /** The deletion passes leave no mark and no bracket. */
  lemma UnmarkedClears(s: string, c: char)
    requires c in {'*', '#', '(', ')', '[', ']', '{', '}'}
    ensures c !in Unmarked(s)
  {
    MarksNonEmpty();
    var marked := DeleteEach(s, MarkdownMarks);
    if c == '*' {
      DeleteEachClears(s, MarkdownMarks, 1, c);
      DeleteEachKeeps(marked, BracketMarks, c);
    } else if c == '#' {
      DeleteEachClears(s, MarkdownMarks, 4, c);
      DeleteEachKeeps(marked, BracketMarks, c);
    } else {
      BracketsCleared(marked, c);
    }
  }

  lemma BracketsCleared(s: string, c: char)
    requires c in {'(', ')', '[', ']', '{', '}'}
    ensures AllNonEmpty(BracketMarks) && c !in DeleteEach(s, BracketMarks)
  {
    MarksNonEmpty();
    var k := if c == '(' then 2 else if c == ')' then 3 else if c == '[' then 4
      else if c == ']' then 5 else if c == '{' then 6 else 7;
    DeleteEachClears(s, BracketMarks, k, c);
  }

  /** Escaping keeps out the marks and brackets already deleted. */
  lemma MarksStayOut(s: string, c: char)
    requires c in {'*', '#', '(', ')', '[', ']', '{', '}'}
    ensures c !in Escape(Unmarked(s))
  {
    UnmarkedClears(s, c);
    EscapeKeeps(Unmarked(s), c);
  }

  /** No special character survives the deletions and escapes. */
  lemma EscapedClears(s: string, c: char)
    requires c in Specials + {'\n'}
    ensures c !in Escape(Unmarked(s))
  {
    if c == '"' || c == '&' || c == '\n' {
      EscapeClears(Unmarked(s));
    } else {
      MarksStayOut(s, c);
    }
  }

  /** The last three steps add no character but the plain space. */
  lemma TidyKeeps(s: string, c: char)
    requires c !in s && c != ' '
    ensures c !in Tidy(s)
  {
    CollapseAvoids(s, {c});
    var k := CollapseSpaces(s);
    var u := RemoveUrls(k);
    WithinAvoids(u, k, {c});
    StripWithin(u);
    WithinAvoids(Strip(u), u, {c});
  }

  /** Text drawn from text whose blanks are plain spaces has only plain
      spaces as blanks. */
  lemma SpacesStayPlain(r: string, u: string, c: string)
    requires Within(r, u) && Within(u, c)
    requires forall i :: 0 <= i < |c| ==> IsSpace(c[i]) ==> c[i] == ' '
    ensures forall i :: 0 <= i < |r| ==> IsSpace(r[i]) ==> r[i] == ' '
  {
    forall i | 0 <= i < |r| && IsSpace(r[i]) ensures r[i] == ' ' {
      var j :| 0 <= j < |u| && u[j] == r[i];
      var k :| 0 <= k < |c| && c[k] == u[j];
    }
  }

  /** After the last three steps every blank is a plain space. */
  lemma TidySpaces(s: string)
    ensures forall i :: 0 <= i < |Tidy(s)| ==> IsSpace(Tidy(s)[i]) ==> Tidy(s)[i] == ' '
  {
    var c := CollapseSpaces(s);
    var u := RemoveUrls(c);
    StripWithin(u);
    SpacesStayPlain(Strip(u), u, c);
  }

  /** No special character and no line break survives sanitising. */
  lemma SanitizeDrops(s: string, c: char)
    requires c in Specials + {'\n'}
    ensures c !in SanitizeText(s)
  {
    assert c != ' ';
    var e := Escape(Unmarked(s));
    EscapedClears(s, c);
    assert c !in e;
    TidyKeeps(e, c);
  }

  lemma SanitizeTextIsLabel(s: string)
    ensures IsLabel(SanitizeText(s))
  {
    var r := SanitizeText(s);
    SanitizeDrops(s, '*');
    SanitizeDrops(s, '#');
    SanitizeDrops(s, '(');
    SanitizeDrops(s, ')');
    SanitizeDrops(s, '[');
    SanitizeDrops(s, ']');
    SanitizeDrops(s, '{');
    SanitizeDrops(s, '}');
    SanitizeDrops(s, '"');
    SanitizeDrops(s, '&');
    SanitizeDrops(s, '\n');
    TidySpaces(Escape(Unmarked(s)));
  }

  /** Python `str(v)`. The printed form of a list or a dictionary is
      passed in: the model does not track dictionary key order. */
  function PyStr(v: Value, render: Value -> string): string {
    match v
    case Null => "None"
    case Bool(b) => if b then "True" else "False"
    case Int(i) => IntToString(i)
    case Str(s) => s
    case List(_) => render(v)
    case Dict(_) => render(v)
  }

  /** The text `_sanitize_content` works on: a dictionary's `name`, else
      its `query`, else its printed form; anything else printed. */
  function LabelSource(content: Value, render: Value -> string): string {
    match content
    case Dict(m) =>
      if "name" in m then PyStr(m["name"], render)
      else if "query" in m then PyStr(m["query"], render)
      else render(content)
    case _ => PyStr(content, render)
  }

  /** `_sanitize_content`. The error branch is unreachable: every step is
      total. */
  function SanitizeContent(content: Value, render: Value -> string): (r: string)
    ensures !Truthy(content) ==> r == ""
    ensures IsLabel(r)
  {
    if !Truthy(content) then ""
    else
      var text := LabelSource(content, render);
      SanitizeTextIsLabel(text);
      SanitizeText(text)
  }

  /** A dictionary with a `name` is labelled as its name would be, one
      with a `query` and no `name` as its query would be; any other truthy
      value as its printed form would be. */
  lemma SanitizeChoosesText(content: Value, render: Value -> string)
    requires Truthy(content)
    ensures content.Dict? && "name" in content.entries ==>
      SanitizeContent(content, render) == SanitizeContent(Str(PyStr(content.entries["name"], render)), render)
    ensures content.Dict? && "name" !in content.entries && "query" in content.entries ==>
      SanitizeContent(content, render) == SanitizeContent(Str(PyStr(content.entries["query"], render)), render)
    ensures !content.Dict? ==>
      SanitizeContent(content, render) == SanitizeContent(Str(PyStr(content, render)), render)
  {
    var t := LabelSource(content, render);
    SanitizeOfText(t, render);
    assert SanitizeContent(content, render) == SanitizeText(t);
  }

  /** A string is sanitised by the text pipeline, the empty one included. */
  lemma SanitizeOfText(t: string, render: Value -> string)
    ensures SanitizeContent(Str(t), render) == SanitizeText(t)
  {
    if t == "" {
      StripEmpty();
    } else {
      assert Truthy(Str(t));
      assert LabelSource(Str(t), render) == t;
    }
  }

  /** The empty text sanitises to itself. */
  lemma StripEmpty()
    ensures SanitizeText("") == ""
  {
    MarksNonEmpty();
    DeleteEachIdle("", MarkdownMarks);
    DeleteEachIdle("", BracketMarks);
    EscapeIdle("");
    assert CollapseSpaces("") == "";
  }

  /** Text that is already a clean label: single-spaced, without the
      special characters, colons or "http". */
  predicate IsCleanText(s: string) {
    && NoneOf(s, Specials + {':'})
    && SingleSpaced(s)
    && !Contains(s, "http")
  }

  /** The deletion passes leave text without marks and brackets alone. */
  lemma UnmarkedIdle(s: string)
    requires NoneOf(s, Specials)
    ensures Unmarked(s) == s
  {
    assert '*' !in s && '#' !in s by {
      assert forall i :: 0 <= i < |s| ==> s[i] !in Specials;
    }
    assert '{' !in s && '}' !in s && '(' !in s && ')' !in s && '[' !in s && ']' !in s by {
      assert forall i :: 0 <= i < |s| ==> s[i] !in Specials;
    }
    MarkdownIdle(s);
    BracketIdle(s);
  }

  lemma MarkdownIdle(s: string)
    requires '*' !in s && '#' !in s
    ensures DeleteEach(s, MarkdownMarks) == s
  {
    MarksNonEmpty();
    assert forall k :: 0 <= k < |MarkdownMarks| ==> MarkdownMarks[k][0] in {'*', '#'};
    DeleteEachIdle(s, MarkdownMarks);
  }

  lemma BracketIdle(s: string)
    requires '{' !in s && '}' !in s && '(' !in s && ')' !in s && '[' !in s && ']' !in s
    ensures DeleteEach(s, BracketMarks) == s
  {
    MarksNonEmpty();
    assert forall k :: 0 <= k < |BracketMarks| ==> BracketMarks[k][0] in {'{', '}', '(', ')', '[', ']'};
    DeleteEachIdle(s, BracketMarks);
  }

  /** What a clean text lacks, character by character. */
  lemma CleanLacks(s: string)
    requires IsCleanText(s)
    ensures NoneOf(s, Specials)
    ensures ':' !in s && '\n' !in s && '"' !in s && '&' !in s
  {
    assert forall i :: 0 <= i < |s| ==> s[i] != '\n';
  }

  /** The text pipeline leaves clean text as it is. */
  lemma SanitizeTextIdle(s: string)
    requires IsCleanText(s)
    ensures SanitizeText(s) == s
  {
    CleanLacks(s);
    UnmarkedIdle(s);
    EscapeIdle(s);
    var e := Escape(Unmarked(s));
    assert e == s;
    CollapseSingleSpaced(s);
    StripStripped(s);
  }

  /** Sanitising leaves clean text as it is. */
  lemma SanitizeKeepsCleanText(s: string, render: Value -> string)
    requires IsCleanText(s)
    ensures SanitizeContent(Str(s), render) == s
  {
    SanitizeOfText(s, render);
    SanitizeTextIdle(s);
  }

  /** Escaping leaves text without colons, line breaks, quotes and
      ampersands alone. */
  lemma EscapeIdle(s: string)
    requires ':' !in s && '\n' !in s && '"' !in s && '&' !in s
    ensures Escape(s) == s
  {
    HeadAbsent(s, ":");
    HeadAbsent(s, "\n");
    HeadAbsent(s, "\"");
    HeadAbsent(s, "&");
  }

  // ---------------------------------------------------------------------
  // reading the visualisation record

  /** `d.get(key, '')` on a string entry. */
  function OrEmpty(o: Option<string>): string {
    match o
    case Some(s) => s
    case None => ""
  }

  /** `node.get('layer', 0)`. */
  function LayerOf(n: VizNode): int {
    match n.layer
    case Some(l) => l
    case None => 0
  }

  /** `node.get('type', 'UNKNOWN')`. */
  function KindOf(n: VizNode): string {
    match n.kind
    case Some(k) => k
    case None => "UNKNOWN"
  }

  function IdOf(n: VizNode): string {
    OrEmpty(n.nodeId)
  }

  /** A node with a truthy `node_id`; the others are not drawn. */
  predicate Named(n: VizNode) {
    IdOf(n) != ""
  }

  // ---------------------------------------------------------------------
  // layers

  predicate Increasing(ls: seq<int>) {
    forall i, j :: 0 <= i < j < |ls| ==> ls[i] < ls[j]
  }

  /** Some node sits at layer l. */
  predicate HasLayer(nodes: seq<VizNode>, l: int) {
    exists i :: 0 <= i < |nodes| && LayerOf(nodes[i]) == l
  }

  /** Adds a layer to an ascending list of distinct layers. */
  function InsertLayer(ls: seq<int>, l: int): (r: seq<int>)
    requires Increasing(ls)
    ensures Increasing(r)
    ensures forall x :: x in r <==> x in ls || x == l
  {
    if |ls| == 0 then [l]
    else if l < ls[0] then [l] + ls
    else if l == ls[0] then ls
    else
      var t := InsertLayer(ls[1..], l);
      assert forall k :: 0 <= k < |t| ==> ls[0] < t[k] by {
        forall k | 0 <= k < |t| ensures ls[0] < t[k] {
          assert t[k] in t;
        }
      }
      [ls[0]] + t
  }

  /** `sorted(layer_nodes)`: the distinct layers of the nodes, ascending. */
  function Layers(nodes: seq<VizNode>): (r: seq<int>)
    ensures Increasing(r)
    ensures forall x :: x in r <==> HasLayer(nodes, x)
  {
    if |nodes| == 0 then []
    else
      var r := InsertLayer(Layers(nodes[1..]), LayerOf(nodes[0]));
      HasLayerCons(nodes);
      r
  }

  lemma HasLayerCons(nodes: seq<VizNode>)
    requires |nodes| > 0
    ensures forall x :: HasLayer(nodes, x) <==> x == LayerOf(nodes[0]) || HasLayer(nodes[1..], x)
  {
    forall x | HasLayer(nodes, x) && x != LayerOf(nodes[0]) ensures HasLayer(nodes[1..], x) {
      var i :| 0 <= i < |nodes| && LayerOf(nodes[i]) == x;
      assert nodes[1..][i - 1] == nodes[i];
    }
    forall x | HasLayer(nodes[1..], x) ensures HasLayer(nodes, x) {
      var i :| 0 <= i < |nodes[1..]| && LayerOf(nodes[1..][i]) == x;
      assert nodes[i + 1] == nodes[1..][i];
    }
  }

  /** `layer_nodes[l]`: the nodes at layer l, in input order. */
  function AtLayer(nodes: seq<VizNode>, l: int): (r: seq<VizNode>)
    ensures forall k :: 0 <= k < |r| ==> LayerOf(r[k]) == l
    ensures forall n :: n in r <==> n in nodes && LayerOf(n) == l
  {
    if |nodes| == 0 then []
    else (if LayerOf(nodes[0]) == l then [nodes[0]] else []) + AtLayer(nodes[1..], l)
  }

  /** The nodes of the given layers, layer after layer. */
  function Group(nodes: seq<VizNode>, ls: seq<int>): seq<VizNode> {
    if |ls| == 0 then [] else AtLayer(nodes, ls[0]) + Group(nodes, ls[1..])
  }

  /** Adding a node in front adds it to the grouping once if its layer is
      listed, and not at all otherwise. */
  lemma {:induction false} GroupCons(n: VizNode, rest: seq<VizNode>, ls: seq<int>)
    requires Increasing(ls)
    decreases |ls|
    ensures multiset(Group([n] + rest, ls))
      == multiset(Group(rest, ls)) + (if LayerOf(n) in ls then multiset{n} else multiset{})
  {
    if |ls| > 0 {
      var here, later := LayerOf(n) == ls[0], LayerOf(n) in ls[1..];
      assert ([n] + rest)[1..] == rest;
      var a := AtLayer([n] + rest, ls[0]);
      assert a == (if here then [n] else []) + AtLayer(rest, ls[0]);
      GroupCons(n, rest, ls[1..]);
      assert ls == [ls[0]] + ls[1..];
      assert LayerOf(n) in ls <==> here || later;
      if later {
        var k :| 0 <= k < |ls[1..]| && ls[1..][k] == LayerOf(n);
        assert ls[k + 1] == ls[1..][k];
        assert ls[0] < ls[k + 1];
      }
      assert Group([n] + rest, ls) == a + Group([n] + rest, ls[1..]);
      assert Group(rest, ls) == AtLayer(rest, ls[0]) + Group(rest, ls[1..]);
      GroupStep(n, a, AtLayer(rest, ls[0]), Group([n] + rest, ls[1..]), Group(rest, ls[1..]), here, later);
    }
  }

  lemma GroupStep(n: VizNode, a: seq<VizNode>, ar: seq<VizNode>, gn: seq<VizNode>, g: seq<VizNode>,
                  here: bool, later: bool)
    requires a == (if here then [n] else []) + ar
    requires multiset(gn) == multiset(g) + (if later then multiset{n} else multiset{})
    requires !(here && later)
    ensures multiset(a + gn) == multiset(ar + g) + (if here || later then multiset{n} else multiset{})
  {
  }

  /** Grouping by a list of distinct layers that covers every node is a
      rearrangement of the nodes. */
  lemma {:induction false} GroupAll(nodes: seq<VizNode>, ls: seq<int>)
    requires Increasing(ls)
    requires forall k :: 0 <= k < |nodes| ==> LayerOf(nodes[k]) in ls
    decreases |nodes|
    ensures multiset(Group(nodes, ls)) == multiset(nodes)
  {
    if |nodes| == 0 {
      EmptyGroup(ls);
    } else {
      GroupAll(nodes[1..], ls);
      assert nodes == [nodes[0]] + nodes[1..];
      GroupCons(nodes[0], nodes[1..], ls);
    }
  }

  lemma {:induction false} EmptyGroup(ls: seq<int>)
    decreases |ls|
    ensures Group([], ls) == []
  {
    if |ls| > 0 {
      EmptyGroup(ls[1..]);
    }
  }

  /** Every node lands in exactly one subgraph: the subgraphs, taken in
      order, hold a rearrangement of the nodes. */
  lemma SubgraphsPartitionNodes(nodes: seq<VizNode>)
    ensures multiset(Group(nodes, Layers(nodes))) == multiset(nodes)
  {
    var ls := Layers(nodes);
    forall k | 0 <= k < |nodes| ensures LayerOf(nodes[k]) in ls {
      assert HasLayer(nodes, LayerOf(nodes[k]));
    }
    GroupAll(nodes, ls);
  }

  // ---------------------------------------------------------------------
  // node lines

  const RootType := "ROOT"

  /** A root with a truthy `original_query` gets a "User Query" node in
      front of it. */
  predicate ShowsOriginal(n: VizNode) {
    Named(n) && n.kind == Some(RootType) && OrEmpty(n.originalQuery) != ""
  }

  function OriginalId(n: VizNode): string {
    IdOf(n) + "_original"
  }

  function OriginalDef(n: VizNode): string {
    "        " + OriginalId(n) + "[\"User Query: '" + SanitizeText(OrEmpty(n.originalQuery)) + "'\"]"
  }

  function OriginalEdge(n: VizNode): string {
    "    " + OriginalId(n) + " -->|OPTIMIZE| " + IdOf(n)
  }

  function OriginalStyle(n: VizNode): string {
    "style " + OriginalId(n) + " fill:#fff0f6,stroke:#eb2f96"
  }

  const OptimizedOpen := "Optimized" + " Query: '"

  lemma OptimizedOpenIsSafe()
    ensures NoneOf(OptimizedOpen, Specials) && NoneOf("'", Specials)
  {
    assert NoneOf("Optimized", Specials);
    assert NoneOf(" Query: '", Specials);
    FramedAvoids("Optimized", " Query: '", "");
    assert "Optimized" + " Query: '" + "" == OptimizedOpen;
  }

  /** The `node_content` a layer-1 root showing its original query gets
      when its own query is truthy. */
  function RootLabel(n: VizNode): Option<string> {
    if LayerOf(n) == 1 && ShowsOriginal(n) && OrEmpty(n.query) != "" then
      Some(OptimizedOpen + SanitizeText(OrEmpty(n.query)) + "'")
    else None
  }

  /** `node_id.split('_')[-1]`. */
  function LastSegment(id: string): string {
    var parts := Split(id, "_");
    parts[|parts| - 1]
  }

  /** The root label, else the sanitised query, else the sanitised
      summary, else the last `_`-segment of the id. */
  function Chosen(n: VizNode): string {
    match RootLabel(n)
    case Some(shown) => shown
    case None =>
      if OrEmpty(n.query) != "" then SanitizeText(OrEmpty(n.query))
      else if OrEmpty(n.summary) != "" then SanitizeText(OrEmpty(n.summary))
      else LastSegment(IdOf(n))
  }

  /** What a node box shows; "..." in place of nothing. */
  function Content(n: VizNode): string {
    var c := Chosen(n);
    if c == "" then "..." else c
  }

  /** The box: square for BREADTH and unknown types, round for DEPTH,
      a rhombus for COMPLETE. */
  function Shape(kind: string, content: string): string {
    if kind == "DEPTH" then "(" + content + ")"
    else if kind == "COMPLETE" then "{" + content + "}"
    else "[" + content + "]"
  }

  function NodeDef(n: VizNode): string {
    "        " + IdOf(n) + Shape(KindOf(n), Content(n))
  }

  /** `self.node_styles.get(type, "fill:white,stroke:#000")`. */
  function StyleOf(kind: string): string {
    if kind == "BREADTH" then "fill:#e6f7ff,stroke:#0066cc"
    else if kind == "DEPTH" then "fill:#f0f7ff,stroke:#003366"
    else if kind == "COMPLETE" then "fill:#f6ffed,stroke:#52c41a"
    else if kind == RootType then "fill:#e1f5fe,stroke:#000"
    else if kind == "ERROR" then "fill:#ffebee,stroke:red"
    else "fill:white,stroke:#000"
  }

  function StyleLine(n: VizNode): string {
    "style " + IdOf(n) + " " + StyleOf(KindOf(n))
  }

  /** A node's label cannot break out of its box: it is never empty and
      has none of the bracket characters, provided the id has none (the
      label may fall back to a piece of the id). */
  lemma ContentIsSafe(n: VizNode)
    requires NoneOf(IdOf(n), Specials)
    ensures Content(n) != "" && NoneOf(Content(n), Specials)
  {
    var c := Chosen(n);
    ChosenIsSafe(n);
    assert Content(n) == if c == "" then "..." else c;
    PlaceholderIsSafe(c, Content(n));
  }

  lemma PlaceholderIsSafe(c: string, content: string)
    requires NoneOf(c, Specials) && content == if c == "" then "..." else c
    ensures content != "" && NoneOf(content, Specials)
  {
  }

  lemma ChosenIsSafe(n: VizNode)
    requires NoneOf(IdOf(n), Specials)
    ensures NoneOf(Chosen(n), Specials)
  {
    if RootLabel(n).Some? {
      RootLabelIsSafe(n);
    } else if OrEmpty(n.query) != "" {
      SanitizedIsSafe(OrEmpty(n.query));
    } else if OrEmpty(n.summary) != "" {
      SanitizedIsSafe(OrEmpty(n.summary));
    } else {
      LastSegmentIsSafe(IdOf(n));
    }
  }

  lemma SanitizedIsSafe(s: string)
    ensures NoneOf(SanitizeText(s), Specials)
  {
    SanitizeTextIsLabel(s);
  }

  lemma LastSegmentIsSafe(id: string)
    requires NoneOf(id, Specials)
    ensures NoneOf(LastSegment(id), Specials)
  {
    SplitLastSuffix(id, "_");
    var last := LastSegment(id);
    forall k | 0 <= k < |last| ensures last[k] !in Specials {
      assert last[k] == id[|id| - |last| + k];
    }
  }

  lemma RootLabelIsSafe(n: VizNode)
    requires RootLabel(n).Some?
    ensures NoneOf(RootLabel(n).value, Specials)
  {
    var q := SanitizeText(OrEmpty(n.query));
    SanitizedIsSafe(OrEmpty(n.query));
    OptimizedOpenIsSafe();
    FramedAvoids(OptimizedOpen, q, "'");
  }

  lemma FramedAvoids(a: string, b: string, c: string)
    requires NoneOf(a, Specials) && NoneOf(b, Specials) && NoneOf(c, Specials)
    ensures NoneOf(a + b + c, Specials)
  {
    var s := a + b + c;
    forall i | 0 <= i < |s| ensures s[i] !in Specials {
      if i < |a| {
        assert s[i] == a[i];
      } else if i < |a| + |b| {
        assert s[i] == b[i - |a|];
      } else {
        assert s[i] == c[i - |a| - |b|];
      }
    }
  }

  /** The definition line of a node is the id followed by its box, and
      the box's delimiters match its type. */
  lemma NodeDefShape(n: VizNode)
    ensures var d := NodeDef(n); var c := Content(n);
      && d == "        " + IdOf(n) + Shape(KindOf(n), c)
      && (KindOf(n) == "DEPTH" <==> Shape(KindOf(n), c) == "(" + c + ")")
      && (KindOf(n) == "COMPLETE" <==> Shape(KindOf(n), c) == "{" + c + "}")
      && (KindOf(n) != "DEPTH" && KindOf(n) != "COMPLETE" <==> Shape(KindOf(n), c) == "[" + c + "]")
  {
    var c := Content(n);
    var sh := Shape(KindOf(n), c);
    assert ("(" + c + ")")[0] == '(' && ("{" + c + "}")[0] == '{' && ("[" + c + "]")[0] == '[';
    assert sh[0] == '(' <==> KindOf(n) == "DEPTH";
    assert sh[0] == '{' <==> KindOf(n) == "COMPLETE";
  }

  // ---------------------------------------------------------------------
  // the flowchart

  /** The named nodes among ns, in order. */
  function NamedNodes(ns: seq<VizNode>): (r: seq<VizNode>)
    ensures forall k :: 0 <= k < |r| ==> Named(r[k])
    ensures forall n :: n in r <==> n in ns && Named(n)
  {
    if |ns| == 0 then []
    else (if Named(ns[0]) then [ns[0]] else []) + NamedNodes(ns[1..])
  }

  /** The roots among ns that show their original query, in order. */
  function Originals(ns: seq<VizNode>): (r: seq<VizNode>)
    ensures forall k :: 0 <= k < |r| ==> ShowsOriginal(r[k])
    ensures forall n :: n in r <==> n in ns && ShowsOriginal(n)
  {
    if |ns| == 0 then []
    else (if ShowsOriginal(ns[0]) then [ns[0]] else []) + Originals(ns[1..])
  }

  function Defs(ns: seq<VizNode>): seq<string> {
    var named := NamedNodes(ns);
    seq(|named|, k requires 0 <= k < |named| => NodeDef(named[k]))
  }

  function Styles(ns: seq<VizNode>): seq<string> {
    var named := NamedNodes(ns);
    seq(|named|, k requires 0 <= k < |named| => StyleLine(named[k]))
  }

  function OriginalDefs(ns: seq<VizNode>): seq<string> {
    var os := Originals(ns);
    seq(|os|, k requires 0 <= k < |os| => OriginalDef(os[k]))
  }

  function OriginalEdges(ns: seq<VizNode>): seq<string> {
    var os := Originals(ns);
    seq(|os|, k requires 0 <= k < |os| => OriginalEdge(os[k]))
  }

  function OriginalStyles(ns: seq<VizNode>): seq<string> {
    var os := Originals(ns);
    seq(|os|, k requires 0 <= k < |os| => OriginalStyle(os[k]))
  }

  function SubgraphHeader(l: int): string {
    "    subgraph Layer_" + IntToString(l) + "[Layer " + IntToString(l) + "]"
  }

  const EndLine := "    end"

  /** One subgraph: its header, a definition per named node of the layer,
      the original-query nodes in layer 1, and `end`. */
  function Block(nodes: seq<VizNode>, l: int): seq<string> {
    var ns := AtLayer(nodes, l);
    [SubgraphHeader(l)] + Defs(ns) + (if l == 1 then OriginalDefs(ns) else []) + [EndLine]
  }

  function Blocks(nodes: seq<VizNode>, ls: seq<int>): seq<string> {
    if |ls| == 0 then [] else Block(nodes, ls[0]) + Blocks(nodes, ls[1..])
  }

  /** The style lines, layer by layer; in layer 1 the original-query
      styles come first. */
  function StyleLines(nodes: seq<VizNode>, ls: seq<int>): seq<string> {
    if |ls| == 0 then []
    else
      var ns := AtLayer(nodes, ls[0]);
      (if ls[0] == 1 then OriginalStyles(ns) else []) + Styles(ns) + StyleLines(nodes, ls[1..])
  }

  const Labelled: set<string> := {"BREADTH", "DEPTH"}

  /** The line of one edge, none when it lacks a source or a target. */
  function EdgeLine(e: Edge): (r: Option<string>)
    ensures r.None? <==> OrEmpty(e.source) == "" || OrEmpty(e.target) == ""
  {
    var src := OrEmpty(e.source);
    var dst := OrEmpty(e.target);
    if src == "" || dst == "" then None
    else if e.kind.Some? && e.kind.value in Labelled then
      Some("    " + src + " -->|" + e.kind.value + "| " + dst)
    else Some("    " + src + " --> " + dst)
  }

  function EdgeLines(es: seq<Edge>): seq<string> {
    if |es| == 0 then []
    else (match EdgeLine(es[0]) case Some(line) => [line] case None => []) + EdgeLines(es[1..])
  }

  const Title := "flowchart TB"

  /** The lines `_generate_flowchart` joins: the title, the subgraphs, the
      original-query edges then the recorded edges, the (always empty)
      decision lines, the styles, with blank lines between the sections. */
  function FlowchartLines(data: VizData): seq<string> {
    var ls := Layers(data.nodes);
    [Title, ""] + Blocks(data.nodes, ls) + [""]
      + OriginalEdges(AtLayer(data.nodes, 1)) + EdgeLines(data.edges)
      + ["", ""] + StyleLines(data.nodes, ls)
  }

  /** `_generate_flowchart`. Its error branch is unreachable: every step
      is total. */
  function Flowchart(data: VizData): string {
    Join(FlowchartLines(data), "\n")
  }

  /** The diagram text opens with the flowchart header line. */
  lemma FlowchartOpens(data: VizData)
    ensures StartsWith(Flowchart(data), Title + "\n")
  {
    var lines := FlowchartLines(data);
    assert lines[0] == Title && |lines| > 1;
    var j := Join(lines, "\n");
    assert j == lines[0] + "\n" + Join(lines[1..], "\n");
    assert j[..|Title + "\n"|] == Title + "\n";
  }

  /** A block's lines all appear among the blocks of any layer list that
      includes its layer. */
  lemma {:induction false} BlockInBlocks(nodes: seq<VizNode>, ls: seq<int>, k: nat, line: string)
    requires k < |ls| && line in Block(nodes, ls[k])
    decreases k
    ensures line in Blocks(nodes, ls)
  {
    if k > 0 {
      BlockInBlocks(nodes, ls[1..], k - 1, line);
    }
  }

  /** The position of a node's layer among the sorted layers. */
  lemma LayerPosition(nodes: seq<VizNode>, n: VizNode) returns (k: nat)
    requires n in nodes
    ensures k < |Layers(nodes)| && Layers(nodes)[k] == LayerOf(n)
  {
    var i :| 0 <= i < |nodes| && nodes[i] == n;
    assert HasLayer(nodes, LayerOf(n));
    var ls := Layers(nodes);
    k :| 0 <= k < |ls| && ls[k] == LayerOf(n);
  }

  /** A named node's definition sits in the block of its layer. */
  lemma DefInBlock(nodes: seq<VizNode>, n: VizNode)
    requires n in nodes && Named(n)
    ensures NodeDef(n) in Block(nodes, LayerOf(n))
    ensures SubgraphHeader(LayerOf(n)) in Block(nodes, LayerOf(n))
  {
    var ns := AtLayer(nodes, LayerOf(n));
    assert n in ns;
    var named := NamedNodes(ns);
    assert n in named;
    var j :| 0 <= j < |named| && named[j] == n;
    var d := Defs(ns);
    assert d[j] == NodeDef(n);
    assert NodeDef(n) in d;
  }

  /** A showing root's "User Query" node sits in the layer-1 block. */
  lemma OriginalInBlock(nodes: seq<VizNode>, n: VizNode)
    requires n in nodes && LayerOf(n) == 1 && ShowsOriginal(n)
    ensures OriginalDef(n) in Block(nodes, 1)
    ensures OriginalEdge(n) in OriginalEdges(AtLayer(nodes, 1))
  {
    var ns := AtLayer(nodes, 1);
    assert n in ns;
    var os := Originals(ns);
    assert n in os;
    var j :| 0 <= j < |os| && os[j] == n;
    var d := OriginalDefs(ns);
    assert d[j] == OriginalDef(n);
    assert OriginalDef(n) in d;
    assert OriginalEdges(ns)[j] == OriginalEdge(n);
  }

  /** Every node with an id gets its definition line, in the subgraph of
      its layer, and every layer gets its subgraph header. */
  lemma EveryNamedNodeDrawn(data: VizData, n: VizNode)
    requires n in data.nodes && Named(n)
    ensures NodeDef(n) in FlowchartLines(data)
    ensures SubgraphHeader(LayerOf(n)) in FlowchartLines(data)
  {
    var k := LayerPosition(data.nodes, n);
    DefInBlock(data.nodes, n);
    BlockInBlocks(data.nodes, Layers(data.nodes), k, NodeDef(n));
    BlockInBlocks(data.nodes, Layers(data.nodes), k, SubgraphHeader(LayerOf(n)));
  }

  /** A layer-1 root with a truthy original query gets its "User Query"
      node inside the layer-1 subgraph and its OPTIMIZE edge. */
  lemma OriginalQueryDrawn(data: VizData, n: VizNode)
    requires n in data.nodes && LayerOf(n) == 1 && ShowsOriginal(n)
    ensures OriginalDef(n) in FlowchartLines(data)
    ensures OriginalEdge(n) in FlowchartLines(data)
  {
    var k := LayerPosition(data.nodes, n);
    OriginalInBlock(data.nodes, n);
    BlockInBlocks(data.nodes, Layers(data.nodes), k, OriginalDef(n));
  }

  /** The recorded edges: every one with both ends gets a line, the others
      none. */
  lemma {:induction false} EdgeLinesCount(es: seq<Edge>)
    decreases |es|
    ensures |EdgeLines(es)| <= |es|
    ensures (forall k :: 0 <= k < |es| ==> EdgeLine(es[k]).Some?) ==> |EdgeLines(es)| == |es|
    ensures (forall k :: 0 <= k < |es| ==> EdgeLine(es[k]).None?) ==> EdgeLines(es) == []
  {
    if |es| > 0 {
      EdgeLinesCount(es[1..]);
    }
  }

  /** A text lacking any one character of p does not contain p. */
  lemma PieceAbsent(s: string, p: string, k: nat)
    requires k < |p| && p[k] !in s
    ensures !Contains(s, p)
  {
    forall j | 0 <= j && j + |p| <= |s| ensures !OccursAt(s, p, j) {
      assert s[j..j + |p|][k] == s[j + k];
    }
  }

  /** A BREADTH or DEPTH edge is drawn with its type as the arrow label,
      any other edge with a bare arrow, when the ids have no `|`. */
  lemma EdgeLabelledIffTyped(e: Edge)
    requires EdgeLine(e).Some?
    requires '|' !in OrEmpty(e.source) && '|' !in OrEmpty(e.target)
    ensures Contains(EdgeLine(e).value, "-->|") <==> e.kind.Some? && e.kind.value in Labelled
  {
    var src := OrEmpty(e.source);
    var dst := OrEmpty(e.target);
    if e.kind.Some? && e.kind.value in Labelled {
      assert EdgeLine(e).value == "    " + src + " " + "-->|" + (e.kind.value + "| " + dst);
      ContainsInside("    " + src + " ", "-->|", e.kind.value + "| " + dst);
    } else {
      var line := "    " + src + " --> " + dst;
      assert '|' !in " --> ";
      assert '|' !in line;
      PieceAbsent(line, "-->|", 3);
    }
  }

  // ---------------------------------------------------------------------
  // metadata

  /** The `type` of each node, missing ones as "UNKNOWN". */
  function TypeKeys(nodes: seq<VizNode>): (r: seq<string>)
    ensures |r| == |nodes|
    ensures forall k :: 0 <= k < |nodes| ==> r[k] == KindOf(nodes[k])
  {
    seq(|nodes|, k requires 0 <= k < |nodes| => KindOf(nodes[k]))
  }

  /** `_count_node_types`: each type present maps to how many nodes carry
      it, so the counts are the multiplicities of the multiset of types,
      whose size is the number of nodes. */
  function CountNodeTypes(nodes: seq<VizNode>): (r: map<string, nat>)
    ensures forall t :: t in r <==> t in multiset(TypeKeys(nodes))
    ensures forall t :: t in r ==> r[t] == multiset(TypeKeys(nodes))[t]
  {
    if |nodes| == 0 then map[]
    else
      var init := nodes[..|nodes| - 1];
      var m := CountNodeTypes(init);
      var t := KindOf(nodes[|nodes| - 1]);
      assert TypeKeys(nodes) == TypeKeys(init) + [t];
      m[t := (if t in m then m[t] else 0) + 1]
  }

  /** `_calculate_max_depth`: the largest layer, 0 for no nodes. */
  function CalculateMaxDepth(nodes: seq<VizNode>): (r: int)
    ensures |nodes| == 0 ==> r == 0
    ensures forall k :: 0 <= k < |nodes| ==> LayerOf(nodes[k]) <= r
    ensures |nodes| > 0 ==> HasLayer(nodes, r)
  {
    if |nodes| == 0 then 0
    else if |nodes| == 1 then LayerOf(nodes[0])
    else
      var m := CalculateMaxDepth(nodes[1..]);
      HasLayerCons(nodes);
      if LayerOf(nodes[0]) >= m then LayerOf(nodes[0]) else m
  }

  /** The metadata's maximum depth is the layer of the last subgraph. */
  lemma MaxDepthIsLastLayer(nodes: seq<VizNode>)
    requires |nodes| > 0
    ensures var ls := Layers(nodes); |ls| > 0 && CalculateMaxDepth(nodes) == ls[|ls| - 1]
  {
    var ls := Layers(nodes);
    var r := CalculateMaxDepth(nodes);
    assert r in ls;
    forall k | 0 <= k < |ls| ensures ls[k] <= r {
      assert ls[k] in ls;
      var i :| 0 <= i < |nodes| && LayerOf(nodes[i]) == ls[k];
    }
    MaxOfIncreasing(ls, r);
  }

  /** The largest entry of an ascending list is its last. */
  lemma MaxOfIncreasing(ls: seq<int>, r: int)
    requires Increasing(ls) && r in ls
    requires forall k :: 0 <= k < |ls| ==> ls[k] <= r
    ensures |ls| > 0 && r == ls[|ls| - 1]
  {
    var k :| 0 <= k < |ls| && ls[k] == r;
    assert ls[|ls| - 1] <= ls[k];
  }

  // ---------------------------------------------------------------------
  // id and edge-label helpers

  /** The fields `_generate_node_id` reads; `index` as printed. */
  datatype NodeRequest = NodeRequest(
    nodeId: Option<string>,
    analysisId: Option<string>,
    parentId: Option<string>,
    kind: Option<string>,
    index: Option<string>)

  /** `_generate_node_id`: the node's own truthy id, else
      `{parent}_{type lower-cased}_{index, default 1}` under a truthy
      parent, else `{analysis_id}_root`. */
  function GenerateNodeId(req: NodeRequest): (r: string)
    ensures OrEmpty(req.nodeId) != "" ==> r == req.nodeId.value
    ensures OrEmpty(req.nodeId) == "" && OrEmpty(req.parentId) == "" ==>
      r == OrEmpty(req.analysisId) + "_root"
    ensures OrEmpty(req.nodeId) == "" && OrEmpty(req.parentId) != "" ==>
      StartsWith(r, req.parentId.value + "_")
  {
    if OrEmpty(req.nodeId) != "" then req.nodeId.value
    else if OrEmpty(req.parentId) != "" then
      var index := match req.index case Some(i) => i case None => "1";
      req.parentId.value + "_" + (Lower(OrEmpty(req.kind)) + "_" + index)
    else OrEmpty(req.analysisId) + "_root"
  }

  /** `_generate_edge_label`: only the lower-cased target id counts, and
      `_depth_` wins over `_breadth_`. */
  function GenerateEdgeLabel(source: string, target: string): (r: string)
    ensures r == "DEPTH" <==> Contains(Lower(target), "_depth_")
    ensures r == "BREADTH" <==> !Contains(Lower(target), "_depth_") && Contains(Lower(target), "_breadth_")
    ensures r == "" <==> !Contains(Lower(target), "_depth_") && !Contains(Lower(target), "_breadth_")
  {
    var t := Lower(target);
    if Contains(t, "_depth_") then "DEPTH"
    else if Contains(t, "_breadth_") then "BREADTH"
    else ""
  }
}
