/** The path-component sanitiser of the analyzer
    (analyzers/dual_engine_analyzer.py, `_sanitize_for_path`): four
    rewriting passes over a query, each a pure function on strings. */
module Analyzer {
  import opened Text

  /** The characters the first pass refuses: `\ / * ? : " < > |`. */
  const Forbidden: set<char> := {'\\', '/', '*', '?', ':', '"', '<', '>', '|'}

  /** A character that carries no content in a path component: a
      forbidden one, whitespace, or the separator `_` itself. */
  predicate Filler(c: char) {
    c in Forbidden || IsSpace(c) || c == '_'
  }

  /** The content of a text: its characters that are not filler, in order. */
  function Kept(s: string): string {
    if s == [] then [] else (if Filler(s[0]) then [] else [s[0]]) + Kept(s[1..])
  }

  /** No forbidden character and no whitespace. */
  predicate PathSafe(s: string) {
    forall i :: 0 <= i < |s| ==> s[i] !in Forbidden && !IsSpace(s[i])
  }

  /** No two `_` next to each other. */
  predicate NoDoubleUnderscore(s: string) {
    forall i :: 0 <= i < |s| - 1 ==> !(s[i] == '_' && s[i + 1] == '_')
  }

  /** Neither end is `_`. */
  predicate UnderscoreTrimmed(s: string) {
    |s| > 0 ==> s[0] != '_' && s[|s| - 1] != '_'
  }

  /** What `_sanitize_for_path` always returns. */
  predicate IsPathComponent(s: string) {
    PathSafe(s) && NoDoubleUnderscore(s) && UnderscoreTrimmed(s)
  }

  // ---------------------------------------------------------------- passes

  /** First pass: every forbidden character becomes `_`. */
  function ReplaceForbidden(s: string): (r: string)
    ensures |r| == |s|
    ensures forall i :: 0 <= i < |r| ==> r[i] !in Forbidden
    ensures forall i :: 0 <= i < |s| && s[i] in Forbidden ==> r[i] == '_'
    ensures forall i :: 0 <= i < |s| && s[i] !in Forbidden ==> r[i] == s[i]
    ensures forall i :: 0 <= i < |s| && IsSpace(s[i]) ==> IsSpace(r[i])
  {
    if s == [] then [] else [if s[0] in Forbidden then '_' else s[0]] + ReplaceForbidden(s[1..])
  }

  /** Second pass: each maximal whitespace run becomes one `_`;
      `inRun` says the text before `s` ended inside such a run. */
  function SpaceRuns(s: string, inRun: bool): (r: string)
    ensures forall i :: 0 <= i < |r| ==> !IsSpace(r[i])
    ensures (forall i :: 0 <= i < |s| ==> s[i] !in Forbidden) ==> forall i :: 0 <= i < |r| ==> r[i] !in Forbidden
  {
    if s == [] then []
    else if IsSpace(s[0]) then (if inRun then [] else "_") + SpaceRuns(s[1..], true)
    else [s[0]] + SpaceRuns(s[1..], false)
  }

  /** Third pass: each maximal run of `_` becomes one `_`; `inRun` says
      the text before `s` ended in `_`. */
  function CollapseRuns(s: string, inRun: bool): (r: string)
    ensures NoDoubleUnderscore(r)
    ensures inRun ==> |r| == 0 || r[0] != '_'
    ensures PathSafe(s) ==> PathSafe(r)
  {
    if s == [] then []
    else if s[0] == '_' then (if inRun then [] else "_") + CollapseRuns(s[1..], true)
    else [s[0]] + CollapseRuns(s[1..], false)
  }

  /** `lstrip('_')`: the longest suffix not starting with `_`. */
  function DropLeading(s: string): (r: string)
    ensures |r| <= |s| && r == s[|s| - |r|..]
    ensures |r| > 0 ==> r[0] != '_'
    ensures forall i :: 0 <= i < |s| - |r| ==> s[i] == '_'
  {
    if |s| > 0 && s[0] == '_' then DropLeading(s[1..]) else s
  }

  /** `rstrip('_')`: the longest prefix not ending in `_`. */
  function DropTrailing(s: string): (r: string)
    ensures |r| <= |s| && r == s[..|r|]
    ensures |r| > 0 ==> r[|r| - 1] != '_'
    ensures forall i :: |r| <= i < |s| ==> s[i] == '_'
  {
    if |s| > 0 && s[|s| - 1] == '_' then DropTrailing(s[..|s| - 1]) else s
  }

  /** Fourth pass: `strip('_')`. */
  function StripUnderscores(s: string): (r: string)
    ensures UnderscoreTrimmed(r)
    ensures PathSafe(s) ==> PathSafe(r)
    ensures NoDoubleUnderscore(s) ==> NoDoubleUnderscore(r)
  {
    var a := DropLeading(s);
    var r := DropTrailing(a);
    assert |r| > 0 ==> r[0] == a[0];
    r
  }

  /** `_sanitize_for_path`: the four passes in order. */
  function SanitizeForPath(text: string): (r: string)
    ensures IsPathComponent(r)
  {
    StripUnderscores(CollapseRuns(SpaceRuns(ReplaceForbidden(text), false), false))
  }

  // ---------------------------------------------------------------- content

  lemma {:induction false} KeptConcat(a: string, b: string)
    ensures Kept(a + b) == Kept(a) + Kept(b)
    decreases |a|
  {
    if a != [] {
      assert (a + b)[0] == a[0] && (a + b)[1..] == a[1..] + b;
      KeptConcat(a[1..], b);
      var head := if Filler(a[0]) then [] else [a[0]];
      calc {
        Kept(a + b);
        head + Kept(a[1..] + b);
        head + (Kept(a[1..]) + Kept(b));
        (head + Kept(a[1..])) + Kept(b);
      }
    } else {
      assert a + b == b;
    }
  }

  lemma {:induction false} ReplaceForbiddenKeeps(s: string)
    ensures Kept(ReplaceForbidden(s)) == Kept(s)
    decreases |s|
  {
    if s != [] {
      ReplaceForbiddenKeeps(s[1..]);
    }
  }

  lemma {:induction false} SpaceRunsKeep(s: string, inRun: bool)
    ensures Kept(SpaceRuns(s, inRun)) == Kept(s)
    decreases |s|
  {
    if s != [] {
      SpaceRunsKeep(s[1..], IsSpace(s[0]));
      if IsSpace(s[0]) {
        KeptConcat(if inRun then [] else "_", SpaceRuns(s[1..], true));
      }
    }
  }

  lemma {:induction false} CollapseRunsKeep(s: string, inRun: bool)
    ensures Kept(CollapseRuns(s, inRun)) == Kept(s)
    decreases |s|
  {
    if s != [] {
      CollapseRunsKeep(s[1..], s[0] == '_');
      if s[0] == '_' {
        KeptConcat(if inRun then [] else "_", CollapseRuns(s[1..], true));
      }
    }
  }

  lemma {:induction false} DropLeadingKeeps(s: string)
    ensures Kept(DropLeading(s)) == Kept(s)
    decreases |s|
  {
    if |s| > 0 && s[0] == '_' {
      DropLeadingKeeps(s[1..]);
    }
  }

  lemma {:induction false} DropTrailingKeeps(s: string)
    ensures Kept(DropTrailing(s)) == Kept(s)
    decreases |s|
  {
    if |s| > 0 && s[|s| - 1] == '_' {
      var init := s[..|s| - 1];
      DropTrailingKeeps(init);
      assert s == init + [s[|s| - 1]];
      KeptConcat(init, [s[|s| - 1]]);
    }
  }

  /** Sanitising throws away only filler: the text's content survives
      in full and in order. */
  lemma SanitizeKeepsContent(text: string)
    ensures Kept(SanitizeForPath(text)) == Kept(text)
  {
    var a := ReplaceForbidden(text);
    var b := SpaceRuns(a, false);
    var c := CollapseRuns(b, false);
    ReplaceForbiddenKeeps(text);
    SpaceRunsKeep(a, false);
    CollapseRunsKeep(b, false);
    DropLeadingKeeps(c);
    DropTrailingKeeps(DropLeading(c));
  }

  // ---------------------------------------------------------------- fixed points

  lemma {:induction false} ReplaceForbiddenIdle(s: string)
    requires PathSafe(s)
    ensures ReplaceForbidden(s) == s
    decreases |s|
  {
    if s != [] {
      ReplaceForbiddenIdle(s[1..]);
    }
  }

  lemma {:induction false} SpaceRunsIdle(s: string, inRun: bool)
    requires PathSafe(s)
    ensures SpaceRuns(s, inRun) == s
    decreases |s|
  {
    if s != [] {
      assert !IsSpace(s[0]);
      SpaceRunsIdle(s[1..], false);
    }
  }

  lemma {:induction false} CollapseRunsIdle(s: string, inRun: bool)
    requires NoDoubleUnderscore(s)
    requires inRun ==> |s| == 0 || s[0] != '_'
    ensures CollapseRuns(s, inRun) == s
    decreases |s|
  {
    if s != [] {
      if |s| > 1 {
        assert !(s[0] == '_' && s[1] == '_');
      }
      CollapseRunsIdle(s[1..], s[0] == '_');
    }
  }

  /** A text that already is a path component comes back unchanged. */
  lemma SanitizeFixesComponents(text: string)
    requires IsPathComponent(text)
    ensures SanitizeForPath(text) == text
  {
    ReplaceForbiddenIdle(text);
    SpaceRunsIdle(text, false);
    CollapseRunsIdle(text, false);
  }

  /** `_sanitize_for_path` is idempotent. */
  lemma SanitizeIdempotent(text: string)
    ensures SanitizeForPath(SanitizeForPath(text)) == SanitizeForPath(text)
  {
    SanitizeFixesComponents(SanitizeForPath(text));
  }
  // ---------------------------------------------------------------- runs

  /** No whitespace at all. */
  predicate AllSpace(w: string) {
    forall i :: 0 <= i < |w| ==> IsSpace(w[i])
  }

  /** A run of whitespace after whitespace adds nothing. */
  lemma {:induction false} SpaceRunsSkip(w: string, b: string)
    requires AllSpace(w)
    requires |b| > 0 ==> !IsSpace(b[0])
    ensures SpaceRuns(w + b, true) == SpaceRuns(b, false)
    decreases |w|
  {
    if w == [] {
      assert w + b == b;
    } else {
      assert (w + b)[0] == w[0] && (w + b)[1..] == w[1..] + b;
      SpaceRunsSkip(w[1..], b);
    }
  }

  /** A maximal whitespace run, wherever it stands, becomes exactly one
      `_`: the text before it and the text after it are rewritten on their
      own. */
  lemma {:induction false} SpaceRunsSplit(a: string, w: string, b: string, inRun: bool)
    requires |a| > 0 || !inRun
    requires |a| > 0 ==> !IsSpace(a[|a| - 1])
    requires |w| > 0 && AllSpace(w)
    requires |b| > 0 ==> !IsSpace(b[0])
    ensures SpaceRuns(a + w + b, inRun) == SpaceRuns(a, inRun) + "_" + SpaceRuns(b, false)
    decreases |a|
  {
    if a == [] {
      assert a + w + b == w + b;
      assert (w + b)[1..] == w[1..] + b;
      SpaceRunsSkip(w[1..], b);
    } else {
      var sp := IsSpace(a[0]);
      var head := if sp then (if inRun then "" else "_") else [a[0]];
      assert (a + w + b)[0] == a[0] && (a + w + b)[1..] == a[1..] + w + b;
      SpaceRunsSplit(a[1..], w, b, sp);
      assert SpaceRuns(a + w + b, inRun) == head + SpaceRuns(a[1..] + w + b, sp);
      assert SpaceRuns(a, inRun) == head + SpaceRuns(a[1..], sp);
      RegroupSplit(SpaceRuns(a + w + b, inRun), head, SpaceRuns(a[1..] + w + b, sp),
              SpaceRuns(a[1..], sp), SpaceRuns(b, false));
    }
  }

  /** No character other than `_`. */
  predicate AllUnderscore(w: string) {
    forall i :: 0 <= i < |w| ==> w[i] == '_'
  }

  /** A run of `_` after `_` adds nothing. */
  lemma {:induction false} CollapseRunsSkip(w: string, b: string)
    requires AllUnderscore(w)
    requires |b| > 0 ==> b[0] != '_'
    ensures CollapseRuns(w + b, true) == CollapseRuns(b, false)
    decreases |w|
  {
    if w == [] {
      assert w + b == b;
    } else {
      assert (w + b)[0] == w[0] && (w + b)[1..] == w[1..] + b;
      CollapseRunsSkip(w[1..], b);
    }
  }

  /** A maximal run of `_`, wherever it stands, becomes exactly one `_`. */
  lemma {:induction false} CollapseRunsSplit(a: string, w: string, b: string, inRun: bool)
    requires |a| > 0 || !inRun
    requires |a| > 0 ==> a[|a| - 1] != '_'
    requires |w| > 0 && AllUnderscore(w)
    requires |b| > 0 ==> b[0] != '_'
    ensures CollapseRuns(a + w + b, inRun) == CollapseRuns(a, inRun) + "_" + CollapseRuns(b, false)
    decreases |a|
  {
    if a == [] {
      assert a + w + b == w + b;
      assert (w + b)[1..] == w[1..] + b;
      CollapseRunsSkip(w[1..], b);
    } else {
      var sp := a[0] == '_';
      var head := if sp then (if inRun then "" else "_") else [a[0]];
      assert (a + w + b)[0] == a[0] && (a + w + b)[1..] == a[1..] + w + b;
      CollapseRunsSplit(a[1..], w, b, sp);
      assert CollapseRuns(a + w + b, inRun) == head + CollapseRuns(a[1..] + w + b, sp);
      assert CollapseRuns(a, inRun) == head + CollapseRuns(a[1..], sp);
      RegroupSplit(CollapseRuns(a + w + b, inRun), head, CollapseRuns(a[1..] + w + b, sp),
              CollapseRuns(a[1..], sp), CollapseRuns(b, false));
    }
  }

  /** The text ahead of a split stays ahead of it. */
  lemma RegroupSplit(whole: string, head: string, rest: string, before: string, after: string)
    requires whole == head + rest && rest == before + "_" + after
    ensures whole == (head + before) + "_" + after
  {
  }

  // ---------------------------------------------------------------- pieces

  /** No filler character. */
  predicate NoFiller(s: string) {
    forall i :: 0 <= i < |s| ==> !Filler(s[i])
  }

  /** The run being built, once it ends. */
  function Flush(cur: string): seq<string> {
    if cur == "" then [] else [cur]
  }

  /** The maximal runs of content characters of `t`, the first of them
      continuing the run `cur` already begun. */
  function Runs(t: string, cur: string): (r: seq<string>)
    requires NoFiller(cur)
    ensures forall k :: 0 <= k < |r| ==> r[k] != "" && NoFiller(r[k])
    decreases |t|
  {
    if t == [] then Flush(cur)
    else if Filler(t[0]) then Flush(cur) + Runs(t[1..], "")
    else Runs(t[1..], cur + [t[0]])
  }

  /** Reference definition: the non-empty maximal runs of content
      characters of a text, in order. */
  function Pieces(t: string): (r: seq<string>)
    ensures forall k :: 0 <= k < |r| ==> r[k] != "" && NoFiller(r[k])
  {
    Runs(t, "")
  }

  lemma {:induction false} ReplaceForbiddenRuns(s: string, cur: string)
    requires NoFiller(cur)
    ensures Runs(ReplaceForbidden(s), cur) == Runs(s, cur)
    decreases |s|
  {
    if s != [] {
      var r := ReplaceForbidden(s);
      assert r[1..] == ReplaceForbidden(s[1..]);
      if Filler(s[0]) {
        ReplaceForbiddenRuns(s[1..], "");
      } else {
        ReplaceForbiddenRuns(s[1..], cur + [s[0]]);
      }
    }
  }

  lemma {:induction false} SpaceRunsRuns(s: string, inRun: bool, cur: string)
    requires NoFiller(cur)
    requires inRun ==> cur == ""
    ensures Runs(SpaceRuns(s, inRun), cur) == Runs(s, cur)
    decreases |s|
  {
    if s != [] {
      var rest := SpaceRuns(s[1..], IsSpace(s[0]));
      if IsSpace(s[0]) {
        SpaceRunsRuns(s[1..], true, "");
        assert Runs(s, cur) == Flush(cur) + Runs(s[1..], "");
        if inRun {
          assert SpaceRuns(s, inRun) == rest;
        } else {
          assert SpaceRuns(s, inRun) == "_" + rest;
          assert ("_" + rest)[0] == '_' && ("_" + rest)[1..] == rest;
        }
      } else if Filler(s[0]) {
        SpaceRunsRuns(s[1..], false, "");
        assert ([s[0]] + rest)[1..] == rest;
      } else {
        SpaceRunsRuns(s[1..], false, cur + [s[0]]);
        assert ([s[0]] + rest)[1..] == rest;
      }
    }
  }

  lemma {:induction false} CollapseRunsRuns(s: string, inRun: bool, cur: string)
    requires NoFiller(cur)
    requires inRun ==> cur == ""
    ensures Runs(CollapseRuns(s, inRun), cur) == Runs(s, cur)
    decreases |s|
  {
    if s != [] {
      var rest := CollapseRuns(s[1..], s[0] == '_');
      if s[0] == '_' {
        CollapseRunsRuns(s[1..], true, "");
        assert Runs(s, cur) == Flush(cur) + Runs(s[1..], "");
        if inRun {
          assert CollapseRuns(s, inRun) == rest;
        } else {
          assert CollapseRuns(s, inRun) == "_" + rest;
          assert ("_" + rest)[0] == '_' && ("_" + rest)[1..] == rest;
        }
      } else if Filler(s[0]) {
        CollapseRunsRuns(s[1..], false, "");
        assert ([s[0]] + rest)[1..] == rest;
      } else {
        CollapseRunsRuns(s[1..], false, cur + [s[0]]);
        assert ([s[0]] + rest)[1..] == rest;
      }
    }
  }

  lemma {:induction false} DropLeadingRuns(s: string)
    ensures Runs(DropLeading(s), "") == Runs(s, "")
    decreases |s|
  {
    if |s| > 0 && s[0] == '_' {
      DropLeadingRuns(s[1..]);
      assert DropLeading(s) == DropLeading(s[1..]);
      assert Runs(s, "") == Flush("") + Runs(s[1..], "");
    }
  }

  /** A filler character at the end adds no run. */
  lemma {:induction false} RunsFillerAtEnd(t: string, f: char, cur: string)
    requires NoFiller(cur) && Filler(f)
    ensures Runs(t + [f], cur) == Runs(t, cur)
    decreases |t|
  {
    if t == [] {
      assert [f][1..] == [];
    } else {
      assert (t + [f])[0] == t[0] && (t + [f])[1..] == t[1..] + [f];
      if Filler(t[0]) {
        RunsFillerAtEnd(t[1..], f, "");
      } else {
        RunsFillerAtEnd(t[1..], f, cur + [t[0]]);
      }
    }
  }

  lemma {:induction false} DropTrailingRuns(s: string)
    ensures Runs(DropTrailing(s), "") == Runs(s, "")
    decreases |s|
  {
    if |s| > 0 && s[|s| - 1] == '_' {
      var init := s[..|s| - 1];
      DropTrailingRuns(init);
      assert s == init + ['_'];
      RunsFillerAtEnd(init, '_', "");
    }
  }

  /** A path component is its own pieces joined by `_`. */
  lemma {:induction false} ComponentRuns(r: string, cur: string)
    requires NoFiller(cur)
    requires PathSafe(r) && NoDoubleUnderscore(r)
    requires |r| > 0 ==> r[|r| - 1] != '_'
    requires cur == "" && |r| > 0 ==> r[0] != '_'
    ensures Join(Runs(r, cur), "_") == cur + r
    decreases |r|
  {
    if r == [] {
      assert cur + r == cur;
    } else if r[0] == '_' {
      var rest := Runs(r[1..], "");
      assert |r| > 1 && r[1] != '_';
      ComponentRuns(r[1..], "");
      assert rest != [];
      assert Runs(r, cur) == [cur] + rest;
      assert ([cur] + rest)[1..] == rest;
      assert cur + r == cur + "_" + r[1..];
    } else {
      ComponentRuns(r[1..], cur + [r[0]]);
      assert cur + r == (cur + [r[0]]) + r[1..];
    }
  }

  /** `_sanitize_for_path` keeps the maximal runs of content characters,
      in order, and puts exactly one `_` between each two of them and none
      at either end. */
  lemma SanitizeIsJoin(text: string)
    ensures SanitizeForPath(text) == Join(Pieces(text), "_")
  {
    var a := ReplaceForbidden(text);
    var b := SpaceRuns(a, false);
    var c := CollapseRuns(b, false);
    var d := DropLeading(c);
    ReplaceForbiddenRuns(text, "");
    SpaceRunsRuns(a, false, "");
    CollapseRunsRuns(b, false, "");
    DropLeadingRuns(c);
    DropTrailingRuns(d);
    var r := SanitizeForPath(text);
    assert r == DropTrailing(d);
    ComponentRuns(r, "");
    assert "" + r == r;
  }
}
