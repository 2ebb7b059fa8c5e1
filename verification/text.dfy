/** String primitives with the semantics of the Python `str` methods the
    system relies on: `strip`, `split(sep)`, `split()`, `find`, `in`,
    `replace`, `lower`, `startswith`, `int()` and `str()` of integers.
    Whitespace is the ASCII part of Python's notion of whitespace. */
module Text {
  import opened Common

  /** Python's `str.isspace` restricted to ASCII (includes the four
      information separators \x1c-\x1f, which Python also treats as
      whitespace). */
  predicate IsSpace(c: char) {
    c == ' ' || c == '\t' || c == '\n' || c == '\r' || c == '\U{0b}' || c == '\U{0c}'
    || c == '\U{1c}' || c == '\U{1d}' || c == '\U{1e}' || c == '\U{1f}'
  }

  predicate IsBlank(s: string) {
    forall i :: 0 <= i < |s| ==> IsSpace(s[i])
  }

  predicate NoneOf(s: string, bad: set<char>) {
    forall i :: 0 <= i < |s| ==> s[i] !in bad
  }

  // ---------------------------------------------------------------------
  // strip

  /** Python `s.lstrip()`. */
  function LStrip(s: string): (r: string)
    ensures |r| <= |s| && r == s[|s| - |r|..]
    ensures |r| > 0 ==> !IsSpace(r[0])
  {
    if |s| > 0 && IsSpace(s[0]) then LStrip(s[1..]) else s
  }

  /** Python `s.rstrip()`. */
  function RStrip(s: string): (r: string)
    ensures |r| <= |s| && r == s[..|r|]
    ensures |r| > 0 ==> !IsSpace(r[|r| - 1])
  {
    if |s| > 0 && IsSpace(s[|s| - 1]) then RStrip(s[..|s| - 1]) else s
  }

  /** Python `s.strip()`. */
  function Strip(s: string): (r: string)
    ensures |r| <= |s|
    ensures |r| > 0 ==> !IsSpace(r[0]) && !IsSpace(r[|r| - 1])
  {
    RStrip(LStrip(s))
  }

  predicate IsStripped(s: string) {
    |s| > 0 ==> !IsSpace(s[0]) && !IsSpace(s[|s| - 1])
  }

  lemma StripStripped(s: string)
    requires IsStripped(s)
    ensures Strip(s) == s
  {
  }

  /** Stripping removes a single leading blank in front of stripped text. */
  lemma StripSpacePrefix(s: string)
    requires IsStripped(s)
    ensures Strip(" " + s) == s
  {
    var t := " " + s;
    assert t[1..] == s;
    assert LStrip(t) == LStrip(s);
    assert LStrip(s) == s;
  }

  /** Stripping removes one blank on each side of non-empty stripped text. */
  lemma StripBetween(c: char, s: string, d: char)
    requires IsSpace(c) && IsSpace(d) && s != "" && IsStripped(s)
    ensures Strip([c] + s + [d]) == s
  {
    var t := [c] + s + [d];
    assert t[1..] == s + [d];
    assert LStrip(t) == s + [d];
    assert (s + [d])[..|s|] == s;
    assert RStrip(s + [d]) == RStrip(s);
    assert RStrip(s) == s;
  }

  /** The text after the first occurrence of c, when c ends a c-free head. */
  lemma AfterFirstHead(head: string, c: char, rest: string)
    requires c !in head
    ensures AfterFirst(head + [c] + rest, [c]) == rest
  {
    var s := head + [c] + rest;
    assert OccursAt(s, [c], |head|);
    forall j | 0 <= j < |head| ensures !OccursAt(s, [c], j) {
      assert s[j] == head[j];
    }
    assert Find(s, [c]) == Some(|head|);
    assert s[|head| + 1..] == rest;
  }

  lemma {:induction false} LStripEmptyIffBlank(s: string)
    decreases |s|
    ensures LStrip(s) == "" <==> IsBlank(s)
  {
    if |s| > 0 && IsSpace(s[0]) {
      LStripEmptyIffBlank(s[1..]);
      if IsBlank(s[1..]) {
        forall i | 0 <= i < |s| ensures IsSpace(s[i]) {
          if i > 0 { assert s[i] == s[1..][i - 1]; }
        }
      } else {
        var i :| 0 <= i < |s[1..]| && !IsSpace(s[1..][i]);
        assert s[i + 1] == s[1..][i];
      }
    }
  }

  lemma {:induction false} StripEmptyIffBlank(s: string)
    ensures Strip(s) == "" <==> IsBlank(s)
  {
    LStripEmptyIffBlank(s);
    var l := LStrip(s);
    if l != "" {
      assert RStrip(l) != "" by {
        assert !IsSpace(l[0]);
        RStripKeepsNonSpace(l);
      }
    }
  }

  /** rstrip keeps a text whose first character is not blank non-empty. */
  lemma {:induction false} RStripKeepsNonSpace(s: string)
    requires |s| > 0 && !IsSpace(s[0])
    decreases |s|
    ensures |RStrip(s)| > 0
  {
    if IsSpace(s[|s| - 1]) {
      assert |s| > 1;
      RStripKeepsNonSpace(s[..|s| - 1]);
    }
  }

  // ---------------------------------------------------------------------
  // prefixes, search

  predicate StartsWith(s: string, p: string) {
    |p| <= |s| && s[..|p|] == p
  }

  /** A text whose first character differs from p's does not start with p. */
  lemma NotStartsWith(s: string, p: string)
    requires |s| > 0 && |p| > 0 && s[0] != p[0]
    ensures !StartsWith(s, p)
  {
    if |p| <= |s| {
      assert s[..|p|][0] == s[0];
    }
  }

  /** A text starts with every prefix of its own head. */
  lemma PrefixStartsWith(head: string, tail: string, n: nat)
    requires n <= |head|
    ensures StartsWith(head + tail, head[..n])
  {
    assert (head + tail)[..n] == head[..n];
  }

  predicate OccursAt(s: string, p: string, i: int) {
    0 <= i && i + |p| <= |s| && s[i..i + |p|] == p
  }

  /** First index >= from at which p occurs in s. */
  function FindFrom(s: string, p: string, from: nat): (r: Option<nat>)
    decreases |s| - from
    ensures r.Some? ==> from <= r.value && OccursAt(s, p, r.value)
    ensures r.Some? ==> forall j :: from <= j < r.value ==> !OccursAt(s, p, j)
    ensures r.None? ==> forall j :: from <= j ==> !OccursAt(s, p, j)
  {
    if from + |p| > |s| then None
    else if s[from..from + |p|] == p then Some(from)
    else FindFrom(s, p, from + 1)
  }

  /** Python `s.find(p)` (None for -1). */
  function Find(s: string, p: string): (r: Option<nat>)
    ensures r.Some? ==> OccursAt(s, p, r.value)
    ensures r.Some? ==> forall j :: 0 <= j < r.value ==> !OccursAt(s, p, j)
    ensures r.None? ==> forall j :: !OccursAt(s, p, j)
  {
    FindFrom(s, p, 0)
  }

  /** Python `p in s`. */
  predicate Contains(s: string, p: string) {
    Find(s, p).Some?
  }

  lemma ContainsIff(s: string, p: string)
    ensures Contains(s, p) <==> exists i :: OccursAt(s, p, i)
  {
    if !Contains(s, p) {
      assert forall j :: !OccursAt(s, p, j);
    }
  }

  /** A text that has p spliced into it contains p. */
  lemma ContainsInside(a: string, p: string, b: string)
    ensures Contains(a + p + b, p)
  {
    OccursInside(a, p, b);
    ContainsIff(a + p + b, p);
  }

  lemma OccursInside(a: string, p: string, b: string)
    ensures OccursAt(a + p + b, p, |a|)
  {
    assert (a + p + b)[|a|..|a| + |p|] == p;
  }

  /** The first occurrence is the one with no occurrence before it. */
  lemma FindIs(s: string, p: string, i: nat)
    requires OccursAt(s, p, i)
    requires forall j :: 0 <= j < i ==> !OccursAt(s, p, j)
    ensures Find(s, p) == Some(i)
  {
  }

  /** A text without the character c has no occurrence of c. */
  lemma CharAbsent(s: string, c: char)
    requires c !in s
    ensures !Contains(s, [c])
  {
    forall j | 0 <= j && j + 1 <= |s| ensures !OccursAt(s, [c], j) {
      assert s[j..j + 1] == [s[j]];
    }
  }

  /** Two texts without the character c do not contain it once joined. */
  lemma ConcatAvoids(a: string, b: string, c: char)
    requires c !in a && c !in b
    ensures c !in a + b && !Contains(a + b, [c])
  {
    CharAbsent(a + b, c);
  }

  /** Python `s.split(sep, 1)[1]` for a string known to contain sep: the
      text after the first occurrence. */
  function AfterFirst(s: string, sep: string): (r: string)
    ensures Contains(s, sep) ==> |r| <= |s| - |sep| && r == s[Find(s, sep).value + |sep|..]
    ensures !Contains(s, sep) ==> r == ""
  {
    match Find(s, sep)
    case Some(k) => s[k + |sep|..]
    case None => ""
  }

  /** Python `line.split(':', 1)[1].strip()`: the value of a
      `Header: value` line. */
  function FieldValue(line: string): string {
    Strip(AfterFirst(line, ":"))
  }

  /** A one-line field value as the parsers hand it back: non-empty,
      stripped, without a line break. */
  predicate IsField(s: string) {
    s != "" && IsStripped(s) && '\n' !in s
  }

  /** A header of a one-line field: it starts with a non-blank and has no
      line break. */
  predicate LineHeader(header: string) {
    |header| > 0 && !IsSpace(header[0]) && '\n' !in header
  }

  /** A field after a one-line header that starts with a non-blank is a
      one-line, stripped, non-empty line. */
  lemma HeadedField(header: string, v: string)
    requires LineHeader(header) && IsField(v)
    ensures IsField(header + v) && !Contains(header + v, "\n")
  {
    var line := header + v;
    assert line[0] == header[0];
    assert line[|line| - 1] == v[|v| - 1];
    CharAbsent(line, '\n');
  }

  /** `<name>: ` with a colon-free name. */
  predicate FieldHeader(header: string) {
    |header| >= 2 && header[|header| - 2..] == ": " && ':' !in header[..|header| - 2]
  }

  /** The value of `<name>: <v>` is v when the name has no ':'. */
  lemma FieldLine(header: string, v: string)
    requires FieldHeader(header)
    requires IsStripped(v)
    ensures FieldValue(header + v) == v
  {
    var name := header[..|header| - 2];
    assert header + v == name + [':'] + (" " + v);
    AfterFirstHead(name, ':', " " + v);
    StripSpacePrefix(v);
  }

  // ---------------------------------------------------------------------
  // split / join

  /** Python `s.split(sep)` for a non-empty separator. */
  function Split(s: string, sep: string): (r: seq<string>)
    requires |sep| > 0
    decreases |s|
    ensures |r| >= 1
    ensures forall k :: 0 <= k < |r| ==> !Contains(r[k], sep)
  {
    match Find(s, sep)
    case Some(k) =>
      assert !Contains(s[..k], sep) by {
        forall j | OccursAt(s[..k], sep, j) ensures false {
          assert s[..k][j..j + |sep|] == s[j..j + |sep|];
          assert OccursAt(s, sep, j);
        }
      }
      [s[..k]] + Split(s[k + |sep|..], sep)
    case None => [s]
  }

  function Join(parts: seq<string>, sep: string): string {
    if |parts| == 0 then ""
    else if |parts| == 1 then parts[0]
    else parts[0] + sep + Join(parts[1..], sep)
  }

  /** A join of non-empty pieces starts with the first piece's first
      character and ends with the last piece's last character. */
  lemma {:induction false} JoinEnds(parts: seq<string>, sep: string)
    requires |parts| > 0
    requires forall k :: 0 <= k < |parts| ==> parts[k] != ""
    decreases |parts|
    ensures |Join(parts, sep)| > 0
    ensures Join(parts, sep)[0] == parts[0][0]
    ensures Join(parts, sep)[|Join(parts, sep)| - 1] == parts[|parts| - 1][|parts[|parts| - 1]| - 1]
  {
    if |parts| > 1 {
      JoinEnds(parts[1..], sep);
      var j := Join(parts, sep);
      assert j == parts[0] + sep + Join(parts[1..], sep);
    }
  }

  /** Splitting and re-joining on the same separator gives the text back. */
  lemma {:induction false} JoinSplit(s: string, sep: string)
    requires |sep| > 0
    decreases |s|
    ensures Join(Split(s, sep), sep) == s
  {
    var f := Find(s, sep);
    if f.Some? {
      var k := f.value;
      var rest := s[k + |sep|..];
      var tail := Split(rest, sep);
      JoinSplit(rest, sep);
      assert Split(s, sep) == [s[..k]] + tail;
      assert ([s[..k]] + tail)[1..] == tail;
      assert Join([s[..k]] + tail, sep) == s[..k] + sep + Join(tail, sep);
      assert s == s[..k] + sep + rest;
    }
  }

  /** The first occurrence of sep in `p + sep` is the appended one: p has
      no sep and does not end in a proper prefix of sep that the
      separator would complete. */
  predicate SepOnlyAtEnd(p: string, sep: string) {
    forall j :: 0 <= j < |p| ==> !OccursAt(p + sep, sep, j)
  }

  /** Splitting at a separator that follows a piece which does not run
      into it yields that piece first. */
  lemma SplitFirst(a: string, sep: string, b: string)
    requires |sep| > 0 && SepOnlyAtEnd(a, sep)
    ensures Split(a + sep + b, sep) == [a] + Split(b, sep)
  {
    var s := a + sep + b;
    assert OccursAt(s, sep, |a|) by {
      assert s[|a|..|a| + |sep|] == sep;
    }
    forall j | 0 <= j < |a| ensures !OccursAt(s, sep, j) {
      assert !OccursAt(a + sep, sep, j);
      if j + |sep| <= |s| {
        assert s[j..j + |sep|] == (a + sep)[j..j + |sep|];
      }
    }
    assert Find(s, sep) == Some(|a|);
    assert s[..|a|] == a;
    assert s[|a| + |sep|..] == b;
  }

  /** A text that contains the separator splits into at least two pieces. */
  lemma SplitPieces(s: string, sep: string)
    requires |sep| > 0 && Contains(s, sep)
    ensures |Split(s, sep)| >= 2
  {
  }

  /** Joining pieces and splitting again on the same separator gives the
      pieces back, when no piece runs into the separator. */
  lemma {:induction false} SplitJoinSep(parts: seq<string>, sep: string)
    requires |sep| > 0 && |parts| > 0
    requires forall k :: 0 <= k < |parts| - 1 ==> SepOnlyAtEnd(parts[k], sep)
    requires !Contains(parts[|parts| - 1], sep)
    ensures Split(Join(parts, sep), sep) == parts
  {
    if |parts| > 1 {
      SplitFirst(parts[0], sep, Join(parts[1..], sep));
      SplitJoinSep(parts[1..], sep);
    }
  }

  /** A pattern whose first character a head lacks cannot start in the
      head, so it occurs in head + tail only if it occurs in the tail. */
  lemma AbsentAfterHead(head: string, p: string, tail: string)
    requires |p| > 0 && p[0] !in head && !Contains(tail, p)
    ensures !Contains(head + tail, p)
  {
    var s := head + tail;
    forall j | OccursAt(s, p, j) ensures false {
      assert s[j] == p[0];
      assert j >= |head|;
      assert s[j..j + |p|] == tail[j - |head|..j - |head| + |p|];
      assert OccursAt(tail, p, j - |head|);
    }
  }

  /** A character in neither the pieces nor the separator is not in their
      join. */
  lemma {:induction false} JoinAvoids(parts: seq<string>, sep: string, c: char)
    requires c !in sep
    requires forall k :: 0 <= k < |parts| ==> c !in parts[k]
    decreases |parts|
    ensures c !in Join(parts, sep)
  {
    if |parts| > 1 {
      JoinAvoids(parts[1..], sep, c);
    }
  }

  /** A piece lacking the separator's first character never runs into it. */
  lemma HeadlessSepOnlyAtEnd(p: string, sep: string)
    requires |sep| > 0 && sep[0] !in p
    ensures SepOnlyAtEnd(p, sep)
  {
    forall j | 0 <= j < |p| ensures !OccursAt(p + sep, sep, j) {
      assert (p + sep)[j] == p[j];
    }
  }

  /** A piece without the one-character separator never runs into it. */
  lemma NoCharSepOnlyAtEnd(p: string, c: char)
    requires !Contains(p, [c])
    ensures SepOnlyAtEnd(p, [c])
  {
    forall j | 0 <= j < |p| ensures !OccursAt(p + [c], [c], j) {
      assert (p + [c])[j..j + 1] == p[j..j + 1];
      assert !OccursAt(p, [c], j);
    }
  }

  /** Joining pieces that do not contain a one-character separator and
      splitting again on it gives the pieces back. */
  lemma SplitJoin(parts: seq<string>, c: char)
    requires |parts| > 0
    requires forall k :: 0 <= k < |parts| ==> !Contains(parts[k], [c])
    ensures Split(Join(parts, [c]), [c]) == parts
  {
    forall k | 0 <= k < |parts| - 1 ensures SepOnlyAtEnd(parts[k], [c]) {
      NoCharSepOnlyAtEnd(parts[k], c);
    }
    SplitJoinSep(parts, [c]);
  }

  /** Python `s.split()`: the maximal runs of non-whitespace. */
  function Words(s: string): (r: seq<string>)
    decreases |s|
    ensures forall k :: 0 <= k < |r| ==> |r[k]| > 0
    ensures forall k, i :: 0 <= k < |r| && 0 <= i < |r[k]| ==> !IsSpace(r[k][i])
  {
    if |s| == 0 then []
    else if IsSpace(s[0]) then Words(s[1..])
    else
      var w := TakeWord(s);
      [w] + Words(s[|w|..])
  }

  /** The leading run of non-whitespace characters. */
  function TakeWord(s: string): (w: string)
    ensures |w| <= |s| && w == s[..|w|]
    ensures forall i :: 0 <= i < |w| ==> !IsSpace(w[i])
    ensures |w| < |s| ==> IsSpace(s[|w|])
    ensures |s| > 0 && !IsSpace(s[0]) ==> |w| > 0
  {
    if |s| == 0 || IsSpace(s[0]) then "" else [s[0]] + TakeWord(s[1..])
  }

  /** `' '.join(s.split())`: every whitespace run becomes one plain space,
      leading and trailing whitespace disappears. */
  function CollapseSpaces(s: string): (r: string)
    ensures forall i :: 0 <= i < |r| ==> (IsSpace(r[i]) ==> r[i] == ' ')
    ensures |r| > 0 ==> !IsSpace(r[0]) && !IsSpace(r[|r| - 1])
  {
    var ws := Words(s);
    JoinWordsShape(ws);
    Join(ws, " ")
  }

  lemma {:induction false} JoinWordsShape(ws: seq<string>)
    requires forall k :: 0 <= k < |ws| ==> |ws[k]| > 0
    requires forall k, i :: 0 <= k < |ws| && 0 <= i < |ws[k]| ==> !IsSpace(ws[k][i])
    ensures var r := Join(ws, " ");
      && (forall i :: 0 <= i < |r| ==> (IsSpace(r[i]) ==> r[i] == ' '))
      && (|r| > 0 ==> !IsSpace(r[0]) && !IsSpace(r[|r| - 1]))
  {
    if |ws| > 1 {
      JoinWordsShape(ws[1..]);
      var tail := Join(ws[1..], " ");
      var r := ws[0] + " " + tail;
      assert Join(ws, " ") == r;
      forall i | 0 <= i < |r| ensures IsSpace(r[i]) ==> r[i] == ' ' {
        if i < |ws[0]| {
          assert r[i] == ws[0][i];
        } else if i > |ws[0]| {
          assert r[i] == tail[i - |ws[0]| - 1];
        }
      }
      assert r[0] == ws[0][0];
      assert |tail| > 0 by { assert |ws[1..][0]| > 0; JoinNonEmpty(ws[1..]); }
      assert r[|r| - 1] == tail[|tail| - 1];
    }
  }

  lemma {:induction false} JoinNonEmpty(ws: seq<string>)
    requires |ws| > 0 && |ws[0]| > 0
    ensures |Join(ws, " ")| > 0
  {
  }

  // ---------------------------------------------------------------------
  // replace, lower

  /** Python `s.replace(pat, rep)` for a non-empty pattern: occurrences are
      replaced left to right without overlapping. */
  function ReplaceAll(s: string, pat: string, rep: string): (r: string)
    requires |pat| > 0
    decreases |s|
    ensures forall i :: 0 <= i < |r| ==> r[i] in s[..] || r[i] in rep
    ensures |pat| == 1 && pat[0] !in rep ==> pat[0] !in r
    ensures !Contains(s, pat) ==> r == s
  {
    if |s| < |pat| then
      ShortAbsent(s, pat);
      s
    else if s[..|pat|] == pat then
      var t := ReplaceAll(s[|pat|..], pat, rep);
      assert OccursAt(s, pat, 0);
      rep + t
    else
      var t := ReplaceAll(s[1..], pat, rep);
      ContainsDrop(s, pat);
      [s[0]] + t
  }

  /** A prefix in which no occurrence starts is kept as it is. */
  lemma {:induction false} ReplaceAllKeepsPrefix(s: string, pat: string, rep: string, k: nat)
    requires |pat| > 0 && k <= |s|
    requires forall j :: 0 <= j < k ==> !OccursAt(s, pat, j)
    ensures ReplaceAll(s, pat, rep) == s[..k] + ReplaceAll(s[k..], pat, rep)
    decreases k
  {
    if k == 0 {
      assert s[..0] == [] && s[0..] == s;
    } else if |s| < |pat| {
      assert ReplaceAll(s[k..], pat, rep) == s[k..];
      assert s == s[..k] + s[k..];
    } else {
      assert s[..|pat|] != pat by { assert !OccursAt(s, pat, 0); }
      var t := s[1..];
      assert ReplaceAll(s, pat, rep) == [s[0]] + ReplaceAll(t, pat, rep);
      ShiftNoOccurrence(s, pat, k);
      ReplaceAllKeepsPrefix(t, pat, rep, k - 1);
      PrefixShift(s, k);
      Regroup(ReplaceAll(s, pat, rep), [s[0]], ReplaceAll(t, pat, rep), t[..k - 1],
              ReplaceAll(s[k..], pat, rep));
    }
  }

  /** Dropping the first character shifts prefixes and suffixes by one. */
  lemma PrefixShift(s: string, k: nat)
    requires 0 < k <= |s|
    ensures s[1..][k - 1..] == s[k..]
    ensures [s[0]] + s[1..][..k - 1] == s[..k]
  {
  }

  /** With the first character dropped, no occurrence starts in the
      shorter prefix either. */
  lemma ShiftNoOccurrence(s: string, pat: string, k: nat)
    requires 0 < k <= |s|
    requires forall j :: 0 <= j < k ==> !OccursAt(s, pat, j)
    ensures forall j :: 0 <= j < k - 1 ==> !OccursAt(s[1..], pat, j)
  {
    var t := s[1..];
    forall j | 0 <= j < k - 1 ensures !OccursAt(t, pat, j) {
      assert !OccursAt(s, pat, j + 1);
      if j + |pat| <= |t| {
        var u, v := t[j..j + |pat|], s[j + 1..j + 1 + |pat|];
        forall i | 0 <= i < |pat| ensures u[i] == v[i] {
          assert t[j + i] == s[j + 1 + i];
        }
        assert u == v;
      }
    }
  }

  /** An occurrence at the front becomes `rep`. */
  lemma ReplaceAllFront(s: string, pat: string, rep: string)
    requires |pat| > 0 && OccursAt(s, pat, 0)
    ensures ReplaceAll(s, pat, rep) == rep + ReplaceAll(s[|pat|..], pat, rep)
  {
    assert s[..|pat|] == pat;
  }

  /** Up to the first occurrence the text is kept; that occurrence becomes
      `rep` and replacing carries on after it. */
  lemma ReplaceAllAtFirst(s: string, pat: string, rep: string, k: nat)
    requires |pat| > 0 && OccursAt(s, pat, k)
    requires forall j :: 0 <= j < k ==> !OccursAt(s, pat, j)
    ensures ReplaceAll(s, pat, rep) == s[..k] + rep + ReplaceAll(s[k + |pat|..], pat, rep)
  {
    ReplaceAllKeepsPrefix(s, pat, rep, k);
    var b := s[k..];
    assert b[..|pat|] == s[k..k + |pat|];
    ReplaceAllFront(b, pat, rep);
    assert b[|pat|..] == s[k + |pat|..];
    Regroup(ReplaceAll(s, pat, rep), s[..k], ReplaceAll(b, pat, rep), rep,
            ReplaceAll(s[k + |pat|..], pat, rep));
  }

  lemma Regroup(whole: string, front: string, rest: string, rep: string, tail: string)
    requires whole == front + rest && rest == rep + tail
    ensures whole == front + rep + tail
  {
  }

  /** Python's `s.replace(pat, rep)` is `rep.join(s.split(pat))`. */
  lemma {:induction false} ReplaceAllIsJoinSplit(s: string, pat: string, rep: string)
    requires |pat| > 0
    ensures ReplaceAll(s, pat, rep) == Join(Split(s, pat), rep)
    decreases |s|
  {
    match Find(s, pat)
    case None =>
      assert Split(s, pat) == [s];
    case Some(k) =>
      var after := s[k + |pat|..];
      ReplaceAllAtFirst(s, pat, rep, k);
      ReplaceAllIsJoinSplit(after, pat, rep);
      var rest := Split(after, pat);
      assert Split(s, pat) == [s[..k]] + rest;
      assert ([s[..k]] + rest)[1..] == rest;
  }

  /** A one-character pattern is replaced character by character, so
      replacing distributes over concatenation. */
  lemma {:induction false} ReplaceCharConcat(a: string, b: string, p: char, rep: string)
    ensures ReplaceAll(a + b, [p], rep) == ReplaceAll(a, [p], rep) + ReplaceAll(b, [p], rep)
    decreases |a|
  {
    if a == [] {
      assert a + b == b;
    } else {
      assert (a + b)[0] == a[0] && (a + b)[1..] == a[1..] + b;
      assert (a + b)[..1] == [a[0]] && a[..1] == [a[0]];
      ReplaceCharConcat(a[1..], b, p, rep);
    }
  }

  /** One character is replaced when it is the pattern and kept otherwise. */
  lemma ReplaceChar(c: char, p: char, rep: string)
    ensures ReplaceAll([c], [p], rep) == if c == p then rep else [c]
  {
    assert [c][..1] == [c] && [c][1..] == [];
  }

  /** A text without the pattern character is left alone. */
  lemma ReplaceCharIdle(s: string, p: char, rep: string)
    requires p !in s
    ensures ReplaceAll(s, [p], rep) == s
  {
    CharAbsent(s, p);
  }

  lemma ShortAbsent(s: string, pat: string)
    requires |s| < |pat|
    ensures !Contains(s, pat)
  {
    ContainsIff(s, pat);
  }

  /** An occurrence after the first character is an occurrence. */
  lemma ContainsDrop(s: string, pat: string)
    requires |s| > 0
    ensures Contains(s[1..], pat) ==> Contains(s, pat)
  {
    if Contains(s[1..], pat) {
      var k := Find(s[1..], pat).value;
      assert s[1..][k..k + |pat|] == s[k + 1..k + 1 + |pat|];
      assert OccursAt(s, pat, k + 1);
      ContainsIff(s, pat);
    }
  }

  function LowerChar(c: char): char {
    if 'A' <= c <= 'Z' then (c as int + 32) as char else c
  }

  /** Python `s.lower()` on ASCII letters. */
  function Lower(s: string): (r: string)
    ensures |r| == |s|
    ensures forall i :: 0 <= i < |s| ==> r[i] == LowerChar(s[i])
  {
    seq(|s|, i requires 0 <= i < |s| => LowerChar(s[i]))
  }

  // ---------------------------------------------------------------------
  // integers

  function DigitChar(d: nat): char
    requires d < 10
  {
    "0123456789"[d]
  }

  /** Python `str(n)` for a natural number. */
  function NatToString(n: nat): (r: string)
    ensures |r| > 0
    ensures forall i :: 0 <= i < |r| ==> '0' <= r[i] <= '9'
    decreases n
  {
    if n < 10 then [DigitChar(n)] else NatToString(n / 10) + [DigitChar(n % 10)]
  }

  /** Python `str(i)` for an integer. */
  function IntToString(i: int): string {
    if i < 0 then "-" + NatToString(-i) else NatToString(i)
  }

  /** The text of an integer is a sign and digits: no whitespace, no
      punctuation besides the sign. */
  lemma IntToStringChars(i: int)
    ensures forall k :: 0 <= k < |IntToString(i)| ==> IntToString(i)[k] == '-' || '0' <= IntToString(i)[k] <= '9'
    ensures Strip(IntToString(i)) == IntToString(i)
  {
    var s := IntToString(i);
    SignDigitsChars(s, i < 0, NatToString(if i < 0 then -i else i));
    assert IsStripped(s);
    StripStripped(s);
  }

  lemma SignDigitsChars(s: string, neg: bool, t: string)
    requires forall k :: 0 <= k < |t| ==> '0' <= t[k] <= '9'
    requires s == (if neg then "-" + t else t)
    ensures forall k :: 0 <= k < |s| ==> s[k] == '-' || '0' <= s[k] <= '9'
    ensures forall k :: 0 <= k < |s| ==> !IsSpace(s[k])
  {
    forall k | 0 <= k < |s| ensures s[k] == '-' || '0' <= s[k] <= '9' {
      if neg && k > 0 { assert s[k] == t[k - 1]; }
    }
  }

  predicate IsDigit(c: char) {
    '0' <= c <= '9'
  }

  function DigitsValue(s: string): nat
    requires forall i :: 0 <= i < |s| ==> IsDigit(s[i])
  {
    if |s| == 0 then 0
    else
      assert IsDigit(s[|s| - 1]);
      10 * DigitsValue(s[..|s| - 1]) + (s[|s| - 1] as int - '0' as int) as nat
  }

  /** Python `int(s)` on already stripped text: an optional sign followed by
      one or more ASCII digits; anything else is a ValueError (None). */
  function ParseInt(s: string): (r: Option<int>)
    ensures r.Some? ==> |s| > 0
  {
    var body := if |s| > 0 && (s[0] == '+' || s[0] == '-') then s[1..] else s;
    if |body| > 0 && forall i :: 0 <= i < |body| ==> IsDigit(body[i]) then
      var v: int := DigitsValue(body);
      Some(if s[0] == '-' then -v else v)
    else None
  }

  lemma {:induction false} DigitsValueOfNatToString(n: nat)
    ensures DigitsValue(NatToString(n)) == n
    decreases n
  {
    if n >= 10 {
      DigitsValueOfNatToString(n / 10);
      var s := NatToString(n);
      assert s[..|s| - 1] == NatToString(n / 10);
    }
  }

  /** Plain digits, and digits after a minus sign, parse to their value. */
  lemma ParseIntOfDigits(t: string)
    requires |t| > 0 && forall j :: 0 <= j < |t| ==> IsDigit(t[j])
    ensures ParseInt(t) == Some(DigitsValue(t) as int)
    ensures ParseInt("-" + t) == Some(-(DigitsValue(t) as int))
  {
    assert t[0] != '+' && t[0] != '-';
    var s := "-" + t;
    assert s[0] == '-' && s[1..] == t;
  }

  /** `int(str(n)) == n`: the integer parser inverts the printer. */
  lemma ParseIntOfIntToString(i: int)
    ensures ParseInt(IntToString(i)) == Some(i)
  {
    var n: nat := if i < 0 then -i else i;
    DigitsValueOfNatToString(n);
    ParseIntOfDigits(NatToString(n));
  }

  // ---------------------------------------------------------------------
  // where characters come from

  /** Every character of r occurs in s. */
  predicate Within(r: string, s: string) {
    forall i :: 0 <= i < |r| ==> r[i] in s
  }

  /** Text drawn from s avoids whatever s avoids. */
  lemma WithinAvoids(r: string, s: string, bad: set<char>)
    requires Within(r, s) && NoneOf(s, bad)
    ensures NoneOf(r, bad)
  {
  }

  lemma StripWithin(s: string)
    ensures Within(Strip(s), s)
  {
    var l := LStrip(s);
    var r := RStrip(l);
    assert Strip(s) == r;
    var k := |s| - |l|;
    forall i | 0 <= i < |r| ensures r[i] in s {
      assert r[i] == s[k + i];
    }
  }

  /** The words of s avoid whatever s avoids. */
  lemma {:induction false} WordsAvoid(s: string, bad: set<char>)
    requires NoneOf(s, bad)
    decreases |s|
    ensures forall k :: 0 <= k < |Words(s)| ==> NoneOf(Words(s)[k], bad)
  {
    if |s| > 0 {
      if IsSpace(s[0]) {
        WordsAvoid(s[1..], bad);
      } else {
        var w := TakeWord(s);
        WordsAvoid(s[|w|..], bad);
        assert Words(s) == [w] + Words(s[|w|..]);
      }
    }
  }

  lemma {:induction false} JoinAvoidsAll(parts: seq<string>, sep: string, bad: set<char>)
    requires NoneOf(sep, bad)
    requires forall k :: 0 <= k < |parts| ==> NoneOf(parts[k], bad)
    decreases |parts|
    ensures NoneOf(Join(parts, sep), bad)
  {
    if |parts| > 1 {
      JoinAvoidsAll(parts[1..], sep, bad);
    }
  }

  /** Collapsing whitespace adds no character but the plain space. */
  lemma CollapseAvoids(s: string, bad: set<char>)
    requires NoneOf(s, bad) && ' ' !in bad
    ensures NoneOf(CollapseSpaces(s), bad)
  {
    WordsAvoid(s, bad);
    JoinAvoidsAll(Words(s), " ", bad);
  }

  /** Text whose only whitespace is single plain spaces between words. */
  predicate SingleSpaced(s: string) {
    && IsStripped(s)
    && (forall i :: 0 <= i < |s| ==> IsSpace(s[i]) ==> s[i] == ' ')
    && (forall i :: 0 <= i < |s| - 1 ==> !(s[i] == ' ' && s[i + 1] == ' '))
  }

  /** What follows a space in single-spaced text is single-spaced. */
  lemma SpacedSuffix(s: string, k: nat)
    requires SingleSpaced(s) && 0 < k < |s| && s[k - 1] == ' '
    ensures SingleSpaced(s[k..]) && !IsSpace(s[k])
  {
    var rest := s[k..];
    assert s[k] != ' ';
    assert rest[0] == s[k] && rest[|rest| - 1] == s[|s| - 1];
    forall i | 0 <= i < |rest| - 1 ensures !(rest[i] == ' ' && rest[i + 1] == ' ') {
      assert rest[i] == s[k + i] && rest[i + 1] == s[k + i + 1];
    }
  }

  /** Single-spaced text with more than one word is a word, a space and
      the single-spaced rest. */
  lemma SpacedRest(s: string)
    requires SingleSpaced(s) && |s| > 0 && |TakeWord(s)| < |s|
    ensures var w := TakeWord(s);
      && |w| + 1 < |s| && s[|w|] == ' '
      && SingleSpaced(s[|w| + 1..]) && !IsSpace(s[|w| + 1])
      && s == w + " " + s[|w| + 1..]
  {
    var w := TakeWord(s);
    assert s[|w|] == ' ';
    assert |w| != |s| - 1;
    SpacedSuffix(s, |w| + 1);
    assert s == s[..|w|] + [s[|w|]] + s[|w| + 1..];
  }

  /** Leading whitespace does not change the words. */
  lemma WordsSkipSpace(c: char, rest: string)
    requires IsSpace(c)
    ensures Words([c] + rest) == Words(rest)
  {
    assert ([c] + rest)[1..] == rest;
  }

  /** Text starting with a word has at least one word. */
  lemma WordsNonEmpty(s: string)
    requires |s| > 0 && !IsSpace(s[0])
    ensures |Words(s)| > 0
  {
  }

  /** Collapsing whitespace leaves single-spaced text as it is. */
  lemma {:induction false} CollapseSingleSpaced(s: string)
    requires SingleSpaced(s)
    decreases |s|
    ensures CollapseSpaces(s) == s
  {
    if |s| > 0 {
      var w := TakeWord(s);
      if |w| == |s| {
        assert s[|w|..] == "";
        assert Words(s) == [w];
      } else {
        SpacedRest(s);
        var rest := s[|w| + 1..];
        CollapseSingleSpaced(rest);
        assert s[|w|..] == [' '] + rest;
        WordsSkipSpace(' ', rest);
        var ws := Words(rest);
        assert Words(s) == [w] + ws;
        WordsNonEmpty(rest);
        assert ([w] + ws)[1..] == ws;
        assert Join([w] + ws, " ") == w + " " + Join(ws, " ");
      }
    }
  }

  /** A text lacking p's first character does not contain p. */
  lemma HeadAbsent(s: string, p: string)
    requires |p| > 0 && p[0] !in s
    ensures !Contains(s, p)
  {
    forall j | 0 <= j && j + |p| <= |s| ensures !OccursAt(s, p, j) {
      assert s[j..j + |p|][0] == s[j];
    }
  }

  /** The last piece of a split is a suffix of the text. */
  lemma {:induction false} SplitLastSuffix(s: string, sep: string)
    requires |sep| > 0
    decreases |s|
    ensures var ps := Split(s, sep); |ps[|ps| - 1]| <= |s| && ps[|ps| - 1] == s[|s| - |ps[|ps| - 1]|..]
  {
    match Find(s, sep)
    case Some(k) =>
      var t := s[k + |sep|..];
      var rest := Split(t, sep);
      SplitLastSuffix(t, sep);
      var ps := Split(s, sep);
      assert ps == [s[..k]] + rest;
      assert ps[|ps| - 1] == rest[|rest| - 1];
      SuffixTrans(s, t, rest[|rest| - 1]);
    case None =>
  }

  /** A suffix of a suffix is a suffix. */
  lemma SuffixTrans(s: string, t: string, u: string)
    requires |t| <= |s| && t == s[|s| - |t|..]
    requires |u| <= |t| && u == t[|t| - |u|..]
    ensures |u| <= |s| && u == s[|s| - |u|..]
  {
  }

  lemma LowerConcat(a: string, b: string)
    ensures Lower(a + b) == Lower(a) + Lower(b)
  {
  }
}
