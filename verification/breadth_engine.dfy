/** The breadth engine (engines/breadth_engine.py): turns the model's reply
    into impact aspects, one per blank-line separated block. */
module BreadthEngine {
  import opened Common
  import opened Text
  import DepthEngine

  /** An aspect dictionary; it always has exactly the keys `name` and
      `query`. */
  datatype Aspect = Aspect(name: string, query: string)

  /** What one line of a block tells the parser. The line is matched as it
      stands: only the block as a whole has been stripped. */
  datatype BlockLine = NameLine(value: string) | QueryLine(value: string) | OtherLine

  function ClassifyLine(line: string): BlockLine {
    if StartsWith(line, "Aspect:") then NameLine(FieldValue(line))
    else if StartsWith(line, "Query:") then QueryLine(FieldValue(line))
    else OtherLine
  }

  function ClassifyLines(lines: seq<string>): (r: seq<BlockLine>)
    ensures |r| == |lines|
    ensures forall k :: 0 <= k < |lines| ==> r[k] == ClassifyLine(lines[k])
  {
    if |lines| == 0 then [] else [ClassifyLine(lines[0])] + ClassifyLines(lines[1..])
  }

  /** The partial aspect dictionary built while reading a block. */
  datatype Fields = Fields(name: Option<string>, query: Option<string>)

  /** One line's effect on the partial dictionary. */
  function Step(f: Fields, x: BlockLine): Fields {
    match x
    case NameLine(v) => f.(name := Some(v))
    case QueryLine(v) => f.(query := Some(v))
    case OtherLine => f
  }

  function ScanFields(f: Fields, infos: seq<BlockLine>): (r: Fields)
    decreases |infos|
    // a field no line sets keeps its value; the last line of all wins its field
    ensures (forall k :: 0 <= k < |infos| ==> !infos[k].NameLine?) ==> r.name == f.name
    ensures (forall k :: 0 <= k < |infos| ==> !infos[k].QueryLine?) ==> r.query == f.query
    ensures |infos| > 0 && infos[|infos| - 1].NameLine? ==> r.name == Some(infos[|infos| - 1].value)
    ensures |infos| > 0 && infos[|infos| - 1].QueryLine? ==> r.query == Some(infos[|infos| - 1].value)
  {
    if |infos| == 0 then f
    else ScanFields(Step(f, infos[0]), infos[1..])
  }

  /** For each line, the name it sets, if any. */
  function Names(infos: seq<BlockLine>): (r: seq<Option<string>>)
    ensures |r| == |infos|
    ensures forall k :: 0 <= k < |infos| ==> r[k] == if infos[k].NameLine? then Some(infos[k].value) else None
  {
    if |infos| == 0 then []
    else [if infos[0].NameLine? then Some(infos[0].value) else None] + Names(infos[1..])
  }

  /** For each line, the query it sets, if any. */
  function Queries(infos: seq<BlockLine>): (r: seq<Option<string>>)
    ensures |r| == |infos|
    ensures forall k :: 0 <= k < |infos| ==> r[k] == if infos[k].QueryLine? then Some(infos[k].value) else None
  {
    if |infos| == 0 then []
    else [if infos[0].QueryLine? then Some(infos[0].value) else None] + Queries(infos[1..])
  }

  /** Reading one more line is one more step. */
  lemma {:induction false} ScanSnoc(f: Fields, init: seq<BlockLine>, x: BlockLine)
    decreases |init|
    ensures ScanFields(f, init + [x]) == Step(ScanFields(f, init), x)
  {
    if |init| == 0 {
      assert init + [x] == [x];
      assert [x][1..] == [];
    } else {
      assert (init + [x])[0] == init[0];
      assert (init + [x])[1..] == init[1..] + [x];
      ScanSnoc(Step(f, init[0]), init[1..], x);
    }
  }

  /** The name holds the value of the LAST `Aspect:` line, wherever that
      line stands in the block, and keeps its previous value when there is
      none. */
  lemma {:induction false} ScanNameIsLast(f: Fields, infos: seq<BlockLine>)
    decreases |infos|
    ensures ScanFields(f, infos).name == match DepthEngine.LastIndex(Names(infos)) case Some(i) => Some(infos[i].value) case None => f.name
  {
    if |infos| > 0 {
      var init, x := infos[..|infos| - 1], infos[|infos| - 1];
      assert infos == init + [x];
      ScanSnoc(f, init, x);
      ScanNameIsLast(f, init);
      var n := if x.NameLine? then Some(x.value) else None;
      assert Names(infos) == Names(init) + [n];
      DepthEngine.LastIndexAppend(Names(init), n);
      match DepthEngine.LastIndex(Names(init))
      case Some(i) => assert infos[i] == init[i];
      case None =>
    }
  }

  /** The query holds the value of the LAST `Query:` line, and keeps its
      previous value when there is none. */
  lemma {:induction false} ScanQueryIsLast(f: Fields, infos: seq<BlockLine>)
    decreases |infos|
    ensures ScanFields(f, infos).query == match DepthEngine.LastIndex(Queries(infos)) case Some(i) => Some(infos[i].value) case None => f.query
  {
    if |infos| > 0 {
      var init, x := infos[..|infos| - 1], infos[|infos| - 1];
      assert infos == init + [x];
      ScanSnoc(f, init, x);
      ScanQueryIsLast(f, init);
      var q := if x.QueryLine? then Some(x.value) else None;
      assert Queries(infos) == Queries(init) + [q];
      DepthEngine.LastIndexAppend(Queries(init), q);
      match DepthEngine.LastIndex(Queries(init))
      case Some(i) => assert infos[i] == init[i];
      case None =>
    }
  }

  /** The fields a block's lines set. */
  function BlockFields(lines: seq<string>): Fields {
    ScanFields(Fields(None, None), ClassifyLines(lines))
  }

  /** The aspect dictionary, kept only when it has both keys. */
  function Assemble(f: Fields): (r: Option<Aspect>)
    ensures r.Some? <==> f.name.Some? && f.query.Some?
    ensures r.Some? ==> r.value == Aspect(f.name.value, f.query.value)
  {
    if f.name.Some? && f.query.Some? then Some(Aspect(f.name.value, f.query.value)) else None
  }

  /** What one block contributes: nothing when it is blank, otherwise the
      aspect its stripped lines describe, if complete. */
  function BlockAspect(block: string): Option<Aspect> {
    if Strip(block) == "" then None else Assemble(BlockFields(Split(Strip(block), "\n")))
  }

  /** A `Query:` line never starts with `Aspect:`, so the parser's `elif`
      takes every line that starts with `Query:`. */
  lemma ClassifyHeaders(line: string)
    ensures ClassifyLine(line).NameLine? <==> StartsWith(line, "Aspect:")
    ensures ClassifyLine(line).QueryLine? <==> StartsWith(line, "Query:")
  {
    if StartsWith(line, "Query:") {
      assert line[0] == line[..6][0];
      NotStartsWith(line, "Aspect:");
    }
  }

  /** The fields a block's lines set, against the reference reading of
      the lines: an aspect exactly when some line sets a name and some line
      sets a query, holding the values of the last such lines. */
  lemma LinesAspect(lines: seq<string>)
    ensures
      var n, q := DepthEngine.LastIndex(Names(ClassifyLines(lines))), DepthEngine.LastIndex(Queries(ClassifyLines(lines)));
      Assemble(BlockFields(lines))
        == if n.Some? && q.Some? then Some(Aspect(FieldValue(lines[n.value]), FieldValue(lines[q.value]))) else None
  {
    var infos := ClassifyLines(lines);
    var f := BlockFields(lines);
    var n, q := DepthEngine.LastIndex(Names(infos)), DepthEngine.LastIndex(Queries(infos));
    ScanNameIsLast(Fields(None, None), infos);
    ScanQueryIsLast(Fields(None, None), infos);
    if n.Some? {
      ClassifyValue(lines[n.value]);
      assert f.name == Some(FieldValue(lines[n.value]));
    }
    if q.Some? {
      ClassifyValue(lines[q.value]);
      assert f.query == Some(FieldValue(lines[q.value]));
    }
  }

  /** A line that sets a field carries its text after the first colon. */
  lemma ClassifyValue(line: string)
    ensures !ClassifyLine(line).OtherLine? ==> ClassifyLine(line).value == FieldValue(line)
  {
  }

  /** Both directions of "the block yields an aspect": some line starts
      with `Aspect:` and some line starts with `Query:`. */
  lemma LinesAspectPresent(lines: seq<string>)
    ensures Assemble(BlockFields(lines)).Some? <==>
      (exists i :: 0 <= i < |lines| && StartsWith(lines[i], "Aspect:"))
      && (exists j :: 0 <= j < |lines| && StartsWith(lines[j], "Query:"))
  {
    var infos := ClassifyLines(lines);
    var ns, qs := Names(infos), Queries(infos);
    LinesAspect(lines);
    forall k | 0 <= k < |lines|
      ensures ns[k].Some? <==> StartsWith(lines[k], "Aspect:")
      ensures qs[k].Some? <==> StartsWith(lines[k], "Query:")
    {
      ClassifyHeaders(lines[k]);
    }
    if exists i :: 0 <= i < |lines| && StartsWith(lines[i], "Aspect:") {
      var i :| 0 <= i < |lines| && StartsWith(lines[i], "Aspect:");
      assert ns[i].Some?;
    }
    if exists j :: 0 <= j < |lines| && StartsWith(lines[j], "Query:") {
      var j :| 0 <= j < |lines| && StartsWith(lines[j], "Query:");
      assert qs[j].Some?;
    }
  }

  /** What a block contributes: nothing when blank; otherwise an aspect
      exactly when one of its stripped lines starts with `Aspect:` and one
      starts with `Query:`, holding the values of the last such lines. */
  lemma BlockAspectIsLast(block: string)
    ensures Strip(block) == "" ==> BlockAspect(block).None?
    ensures Strip(block) != "" ==>
      var lines := Split(Strip(block), "\n");
      (BlockAspect(block).Some? <==>
         (exists i :: 0 <= i < |lines| && StartsWith(lines[i], "Aspect:"))
         && (exists j :: 0 <= j < |lines| && StartsWith(lines[j], "Query:")))
    ensures Strip(block) != "" ==>
      var lines := Split(Strip(block), "\n");
      var n, q := DepthEngine.LastIndex(Names(ClassifyLines(lines))), DepthEngine.LastIndex(Queries(ClassifyLines(lines)));
      BlockAspect(block)
        == if n.Some? && q.Some? then Some(Aspect(FieldValue(lines[n.value]), FieldValue(lines[q.value]))) else None
  {
    if Strip(block) != "" {
      LinesAspect(Split(Strip(block), "\n"));
      LinesAspectPresent(Split(Strip(block), "\n"));
    }
  }

  function BlockAspects(blocks: seq<string>): (r: seq<Option<Aspect>>)
    ensures |r| == |blocks|
    ensures forall k :: 0 <= k < |blocks| ==> r[k] == BlockAspect(blocks[k])
  {
    if |blocks| == 0 then [] else [BlockAspect(blocks[0])] + BlockAspects(blocks[1..])
  }

  /** The aspects found, in block order. */
  function Present(xs: seq<Option<Aspect>>): (r: seq<Aspect>)
    ensures |r| <= |xs|
  {
    if |xs| == 0 then []
    else (if xs[0].Some? then [xs[0].value] else []) + Present(xs[1..])
  }

  /** `_parse_aspects(response)`: strip, split into blocks at blank lines,
      one aspect per well-formed block. */
  function ParseAspects(response: string): (r: seq<Aspect>)
    ensures |r| <= |Split(Strip(response), "\n\n")|
  {
    Present(BlockAspects(Split(Strip(response), "\n\n")))
  }

  /** `process(node_summary, original_query, max_aspects)`. The aspect
      limit only reaches the prompt; a failed model call comes back as an
      error dictionary, which `_parse_aspects` cannot strip, so it yields no
      aspects. */
  function Process(reply: CallOutcome, maxAspects: int): (r: seq<Aspect>)
    ensures reply.CallFailed? ==> r == []
    ensures reply.Reply? ==> r == ParseAspects(reply.text)
  {
    match reply
    case Reply(t) => ParseAspects(t)
    case CallFailed(_) => []
  }

  // -----------------------------------------------------------------------
  // Block independence

  lemma {:induction false} PresentAppend(a: seq<Option<Aspect>>, b: seq<Option<Aspect>>)
    decreases |a|
    ensures Present(a + b) == Present(a) + Present(b)
  {
    if |a| == 0 {
      assert a + b == b;
    } else {
      assert (a + b)[0] == a[0];
      assert (a + b)[1..] == a[1..] + b;
      PresentAppend(a[1..], b);
    }
  }

  lemma BlockAspectsAppend(a: seq<string>, b: seq<string>)
    ensures BlockAspects(a + b) == BlockAspects(a) + BlockAspects(b)
  {
    var l, r := BlockAspects(a + b), BlockAspects(a) + BlockAspects(b);
    forall k | 0 <= k < |a + b| ensures l[k] == r[k] {
      if k < |a| {
        assert (a + b)[k] == a[k];
      } else {
        assert (a + b)[k] == b[k - |a|];
      }
    }
  }

  lemma {:induction false} DropNone(xs: seq<Option<Aspect>>, ys: seq<Option<Aspect>>)
    ensures Present(xs + [None] + ys) == Present(xs) + Present(ys)
  {
    var none: seq<Option<Aspect>> := [None];
    PresentAppend(xs + none, ys);
    PresentAppend(xs, none);
    assert Present(none) == [] by {
      assert none[1..] == [];
    }
  }

  lemma BlockAspectsAround(before: seq<string>, block: string, after: seq<string>)
    ensures BlockAspects(before + [block] + after)
            == BlockAspects(before) + [BlockAspect(block)] + BlockAspects(after)
  {
    BlockAspectsAppend(before + [block], after);
    BlockAspectsAppend(before, [block]);
  }

  /** A blank or malformed block is dropped without affecting the aspects
      of the blocks around it. */
  lemma MalformedBlockDropped(before: seq<string>, block: string, after: seq<string>)
    requires BlockAspect(block).None?
    ensures Present(BlockAspects(before + [block] + after))
            == Present(BlockAspects(before)) + Present(BlockAspects(after))
  {
    BlockAspectsAround(before, block, after);
    DropNone(BlockAspects(before), BlockAspects(after));
  }

  // -----------------------------------------------------------------------
  // The reply format the prompt asks for, and the parser's inverse property

  predicate WellFormed(a: Aspect) {
    IsField(a.name) && IsField(a.query)
  }

  /** A block as the prompt asks for it: an `Aspect:` line and a `Query:`
      line. */
  function RenderBlock(a: Aspect): string {
    "Aspect: " + a.name + "\n" + "Query: " + a.query
  }

  function RenderBlocks(aspects: seq<Aspect>): (r: seq<string>)
    ensures |r| == |aspects|
    ensures forall k :: 0 <= k < |aspects| ==> r[k] == RenderBlock(aspects[k])
  {
    if |aspects| == 0 then [] else [RenderBlock(aspects[0])] + RenderBlocks(aspects[1..])
  }

  /** A reply listing the aspects as blocks separated by blank lines. */
  function Render(aspects: seq<Aspect>): string {
    Join(RenderBlocks(aspects), "\n\n")
  }

  lemma NameLineHeaders(v: string)
    ensures StartsWith("Aspect: " + v, "Aspect:")
  {
    assert ("Aspect: " + v)[..7] == "Aspect:";
  }

  lemma QueryLineHeaders(v: string)
    ensures !StartsWith("Query: " + v, "Aspect:")
    ensures StartsWith("Query: " + v, "Query:")
  {
    var line := "Query: " + v;
    if |"Aspect:"| <= |line| {
      assert line[..7][0] == 'Q';
    }
    assert line[..6] == "Query:";
  }

  lemma ClassifyNameLine(v: string)
    requires IsField(v)
    ensures ClassifyLine("Aspect: " + v) == NameLine(v)
  {
    NameLineHeaders(v);
    FieldLine("Aspect: ", v);
  }

  lemma ClassifyQueryLine(v: string)
    requires IsField(v)
    ensures ClassifyLine("Query: " + v) == QueryLine(v)
  {
    QueryLineHeaders(v);
    FieldLine("Query: ", v);
  }

  /** Two one-line texts joined by a line break split back into both. */
  lemma TwoLines(l1: string, l2: string)
    requires !Contains(l1, "\n") && !Contains(l2, "\n")
    ensures Split(l1 + "\n" + l2, "\n") == [l1, l2]
  {
    assert Join([l1, l2], "\n") == l1 + "\n" + l2 by {
      assert [l1, l2][1..] == [l2];
    }
    SplitJoin([l1, l2], '\n');
  }

  lemma ScanTwo(x: BlockLine, y: BlockLine)
    ensures ScanFields(Fields(None, None), [x, y])
            == ScanFields(ScanFields(Fields(None, None), [x]), [y])
  {
    assert [x, y][1..] == [y];
  }

  lemma ClassifyTwo(l1: string, l2: string)
    ensures ClassifyLines([l1, l2]) == [ClassifyLine(l1), ClassifyLine(l2)]
  {
    assert [l1, l2][1..] == [l2];
  }

  /** The fields of a block made of an `Aspect:` and a `Query:` line. */
  lemma RenderedFields(a: Aspect)
    requires WellFormed(a)
    ensures BlockFields(["Aspect: " + a.name, "Query: " + a.query]) == Fields(Some(a.name), Some(a.query))
  {
    ClassifyTwo("Aspect: " + a.name, "Query: " + a.query);
    ClassifyNameLine(a.name);
    ClassifyQueryLine(a.query);
    ScanTwo(NameLine(a.name), QueryLine(a.query));
  }

  /** A rendered block is stripped already. */
  lemma BlockStripped(a: Aspect)
    requires WellFormed(a)
    ensures IsStripped(RenderBlock(a)) && RenderBlock(a) != ""
    ensures RenderBlock(a)[0] == 'A'
    ensures RenderBlock(a)[|RenderBlock(a)| - 1] == a.query[|a.query| - 1]
  {
  }

  /** A rendered block splits into its two lines. */
  lemma BlockLines(a: Aspect)
    requires WellFormed(a)
    ensures Split(Strip(RenderBlock(a)), "\n") == ["Aspect: " + a.name, "Query: " + a.query]
  {
    var l1, l2 := "Aspect: " + a.name, "Query: " + a.query;
    BlockStripped(a);
    ConcatAvoids("Aspect: ", a.name, '\n');
    ConcatAvoids("Query: ", a.query, '\n');
    assert RenderBlock(a) == l1 + "\n" + l2;
    StrippedTwoLines(RenderBlock(a), l1, l2);
  }

  lemma StrippedTwoLines(b: string, l1: string, l2: string)
    requires b == l1 + "\n" + l2 && IsStripped(b)
    requires !Contains(l1, "\n") && !Contains(l2, "\n")
    ensures Split(Strip(b), "\n") == [l1, l2]
  {
    StripStripped(b);
    TwoLines(l1, l2);
  }

  /** A stripped block whose lines give both fields yields their aspect. */
  lemma BlockAspectOf(b: string, lines: seq<string>, a: Aspect)
    requires b != "" && Strip(b) == b && Split(b, "\n") == lines
    requires BlockFields(lines) == Fields(Some(a.name), Some(a.query))
    ensures BlockAspect(b) == Some(a)
  {
  }

  /** A well-formed block yields its aspect. */
  lemma ParseBlock(a: Aspect)
    requires WellFormed(a)
    ensures BlockAspect(RenderBlock(a)) == Some(a)
  {
    var b := RenderBlock(a);
    var lines := ["Aspect: " + a.name, "Query: " + a.query];
    BlockStripped(a);
    StripStripped(b);
    BlockLines(a);
    RenderedFields(a);
    BlockAspectOf(b, lines, a);
  }

  /** A rendered block never runs into the blank-line separator: its only
      line break is followed by `Q`, and it does not end in a line break. */
  lemma BlockSeparated(a: Aspect)
    requires WellFormed(a)
    ensures SepOnlyAtEnd(RenderBlock(a), "\n\n")
    ensures !Contains(RenderBlock(a), "\n\n")
  {
    var b := RenderBlock(a);
    var nl := 8 + |a.name|;
    BlockBreaks(a);
    var t := b + "\n\n";
    forall j | 0 <= j < |b| ensures !OccursAt(t, "\n\n", j) {
      assert t[j..j + 2][0] == b[j];
      assert t[j..j + 2][1] == t[j + 1];
      if j == nl {
        assert t[j + 1] == 'Q';
      }
    }
    forall j | 0 <= j && j + 2 <= |b| ensures !OccursAt(b, "\n\n", j) {
      assert b[j..j + 2][0] == b[j];
      assert b[j..j + 2][1] == b[j + 1];
    }
  }

  /** The only line break of a rendered block sits between its two lines. */
  lemma BlockBreaks(a: Aspect)
    requires WellFormed(a)
    ensures 8 + |a.name| < |RenderBlock(a)| - 1
    ensures RenderBlock(a)[8 + |a.name| + 1] == 'Q'
    ensures forall i :: 0 <= i < |RenderBlock(a)| && i != 8 + |a.name| ==> RenderBlock(a)[i] != '\n'
  {
    var b := RenderBlock(a);
    var nl := 8 + |a.name|;
    forall i | 0 <= i < |b| && i != nl ensures b[i] != '\n' {
      if i < 8 {
        assert b[i] == "Aspect: "[i];
      } else if i < nl {
        assert b[i] == a.name[i - 8];
      } else if i < nl + 8 {
        assert b[i] == "\nQuery: "[i - nl];
      } else {
        assert b[i] == a.query[i - nl - 8];
      }
    }
  }

  lemma ParseBlocks(aspects: seq<Aspect>)
    requires forall k :: 0 <= k < |aspects| ==> WellFormed(aspects[k])
    ensures Present(BlockAspects(RenderBlocks(aspects))) == aspects
  {
    var xs := BlockAspects(RenderBlocks(aspects));
    forall k | 0 <= k < |aspects| ensures xs[k] == Some(aspects[k]) {
      ParseBlock(aspects[k]);
    }
    PresentAllSome(xs, aspects);
  }

  /** When every entry holds an aspect, the aspects are kept in order. */
  lemma {:induction false} PresentAllSome(xs: seq<Option<Aspect>>, aspects: seq<Aspect>)
    requires |xs| == |aspects| && forall k :: 0 <= k < |xs| ==> xs[k] == Some(aspects[k])
    ensures Present(xs) == aspects
  {
    if |xs| > 0 {
      PresentAllSome(xs[1..], aspects[1..]);
      assert aspects == [aspects[0]] + aspects[1..];
    }
  }

  /** The reply of a non-empty aspect list is stripped and splits into its
      blocks. */
  lemma RenderedBlocks(aspects: seq<Aspect>)
    requires |aspects| > 0
    requires forall k :: 0 <= k < |aspects| ==> WellFormed(aspects[k])
    ensures Split(Strip(Render(aspects)), "\n\n") == RenderBlocks(aspects)
  {
    var blocks := RenderBlocks(aspects);
    forall k | 0 <= k < |blocks|
      ensures blocks[k] != "" && SepOnlyAtEnd(blocks[k], "\n\n") && !Contains(blocks[k], "\n\n")
    {
      BlockSeparated(aspects[k]);
      BlockStripped(aspects[k]);
    }
    JoinEnds(blocks, "\n\n");
    BlockStripped(aspects[0]);
    BlockStripped(aspects[|aspects| - 1]);
    StripStripped(Render(aspects));
    SplitJoinSep(blocks, "\n\n");
  }

  /** Parsing a reply that lists well-formed aspects as blocks gives back
      exactly those aspects, in order. */
  lemma RenderThenParse(aspects: seq<Aspect>)
    requires forall k :: 0 <= k < |aspects| ==> WellFormed(aspects[k])
    ensures ParseAspects(Render(aspects)) == aspects
  {
    if |aspects| == 0 {
      assert Render(aspects) == "";
      assert Split(Strip(""), "\n\n") == [""];
      assert BlockAspect("") == None;
    } else {
      RenderedBlocks(aspects);
      ParseBlocks(aspects);
    }
  }

  /** The aspect limit is not enforced on the parsed reply: the engine
      returns every well-formed block, however many there are. */
  lemma AspectLimitNotEnforced(aspects: seq<Aspect>, maxAspects: int)
    requires forall k :: 0 <= k < |aspects| ==> WellFormed(aspects[k])
    ensures Process(Reply(Render(aspects)), maxAspects) == aspects
  {
    RenderThenParse(aspects);
  }

  /** Only the block as a whole is stripped: a `Query:` line indented by a
      blank is not recognised, so the block yields nothing. */
  lemma IndentedQueryIgnored(a: Aspect)
    requires WellFormed(a)
    ensures BlockAspect("Aspect: " + a.name + "\n" + " Query: " + a.query) == None
  {
    var b := "Aspect: " + a.name + "\n" + " Query: " + a.query;
    IndentedLines(a);
    IndentedFields(a);
    assert Strip(b) != "" by {
      StripStripped(b);
    }
  }

  lemma IndentedLines(a: Aspect)
    requires WellFormed(a)
    ensures var b := "Aspect: " + a.name + "\n" + " Query: " + a.query;
      IsStripped(b) && b != "" && Split(Strip(b), "\n") == ["Aspect: " + a.name, " Query: " + a.query]
  {
    var l1, l2 := "Aspect: " + a.name, " Query: " + a.query;
    var b := "Aspect: " + a.name + "\n" + " Query: " + a.query;
    assert b == l1 + "\n" + l2;
    assert IsStripped(b) && b != "" by {
      assert b[0] == 'A';
      assert b[|b| - 1] == a.query[|a.query| - 1];
    }
    StripStripped(b);
    ConcatAvoids("Aspect: ", a.name, '\n');
    ConcatAvoids(" Query: ", a.query, '\n');
    TwoLines(l1, l2);
  }

  lemma IndentedFields(a: Aspect)
    requires WellFormed(a)
    ensures BlockFields(["Aspect: " + a.name, " Query: " + a.query]).query == None
  {
    var l2 := " Query: " + a.query;
    ClassifyTwo("Aspect: " + a.name, l2);
    ClassifyNameLine(a.name);
    assert ClassifyLine(l2) == OtherLine by {
      NotStartsWith(l2, "Aspect:");
      NotStartsWith(l2, "Query:");
    }
    ScanTwo(NameLine(a.name), OtherLine);
  }
}
