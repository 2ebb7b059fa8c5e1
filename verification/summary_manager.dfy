/** The per-analysis summary store (executors/summary_manager.py). The
    singleton is an explicit value threaded through the operations; the
    wall clock is a parameter (`now`), a tick that only has to be ordered. */
module SummaryManager {
  import opened Common
  import opened Text
  import opened Json

  const StartMarker := "[NODE SUMMARY]"
  const EndMarker := "[END NODE SUMMARY]"

  /** One stored node summary (`summary_entry`); `metadata` is present only
      when a truthy one was passed. */
  datatype Summary = Summary(
    content: string,
    nodeId: string,
    layer: int,
    nodeType: Option<string>,
    category: Option<string>,
    timestamp: nat,
    validationStatus: Option<string>,
    metadata: Option<Value>)

  /** The six counters of an analysis. */
  datatype Stats = Stats(
    totalNodes: nat,
    breadthAnalyses: nat,
    depthAnalyses: nat,
    maxDepth: int,
    validationFailed: nat,
    validationPassed: nat)

  const NoStats := Stats(0, 0, 0, 0, 0, 0)

  /** One analysis record; its `metadata` dictionary is always empty and
      is left out. */
  datatype Analysis = Analysis(summaries: seq<Summary>, timestamp: nat, stats: Stats)

  datatype Store = Store(analyses: map<string, Analysis>, current: Option<string>)

  const EmptyStore := Store(map[], None)

  /** Python truthiness of an optional id: None and "" are false. */
  predicate IsSet(id: Option<string>) {
    id.Some? && id.value != ""
  }

  /** `analysis_id or self._current_analysis_id`. */
  function Chosen(store: Store, id: Option<string>): Option<string> {
    if IsSet(id) then id else store.current
  }

  // -----------------------------------------------------------------------
  // Operations

  /** `start_new_analysis(analysis_id)`. */
  function StartNewAnalysis(store: Store, id: string, now: nat): (r: Store)
    ensures r.current == Some(id)
    ensures id in r.analyses && r.analyses[id] == Analysis([], now, NoStats)
    ensures forall other :: other != id ==>
      (other in r.analyses <==> other in store.analyses)
      && (other in r.analyses ==> r.analyses[other] == store.analyses[other])
  {
    Store(store.analyses[id := Analysis([], now, NoStats)], Some(id))
  }

  /** Python `s[a:b]` for 0 <= a and b <= |s|: empty when b < a. */
  function Slice(s: string, a: nat, b: nat): string
    requires a <= |s| && b <= |s|
  {
    if a <= b then s[a..b] else ""
  }

  /** `_extract_summary_content(summary)`. */
  function ExtractSummaryContent(summary: string): (r: string)
    ensures !(Contains(summary, StartMarker) && Contains(summary, EndMarker)) ==> r == Strip(summary)
  {
    if Contains(summary, StartMarker) && Contains(summary, EndMarker) then
      var from := Find(summary, StartMarker).value + |StartMarker|;
      var to := Find(summary, EndMarker).value;
      Strip(Slice(summary, from, to))
    else Strip(summary)
  }

  /** The counters after one more stored summary. */
  function Bump(stats: Stats, s: Summary): Stats {
    Stats(stats.totalNodes + 1,
          stats.breadthAnalyses + (if s.nodeType == Some("BREADTH") then 1 else 0),
          stats.depthAnalyses + (if s.nodeType == Some("DEPTH") then 1 else 0),
          if s.layer > stats.maxDepth then s.layer else stats.maxDepth,
          stats.validationFailed + (if s.validationStatus == Some("INVALID") then 1 else 0),
          stats.validationPassed + (if s.validationStatus == Some("VALID") then 1 else 0))
  }

  /** `add_node_summary(...)`. Without a current id nothing happens; a
      current id whose record was cleared raises a KeyError; an empty
      cleaned summary is not stored. */
  function AddNodeSummary(store: Store, summary: string, nodeId: string, layer: int,
                          nodeType: Option<string>, category: Option<string>,
                          metadata: Option<Value>, validationStatus: Option<string>,
                          now: nat): (r: Result<Store, string>)
    ensures !IsSet(store.current) ==> r == Ok(store)
    ensures IsSet(store.current) && store.current.value !in store.analyses ==> r.Err?
    ensures r.Ok? ==> r.value.current == store.current
    ensures IsSet(store.current) && store.current.value in store.analyses && ExtractSummaryContent(summary) == ""
            ==> r == Ok(store)
  {
    if !IsSet(store.current) then Ok(store)
    else
      var aid := store.current.value;
      if aid !in store.analyses then Err("'" + aid + "'")
      else
        var clean := ExtractSummaryContent(summary);
        if clean == "" then Ok(store)
        else
          var record := store.analyses[aid];
          var entry := Summary(clean, nodeId, layer, nodeType, category, now, validationStatus,
                               if metadata.Some? && Truthy(metadata.value) then metadata else None);
          var record' := Analysis(record.summaries + [entry], record.timestamp, Bump(record.stats, entry));
          Ok(Store(store.analyses[aid := record'], store.current))
  }

  /** What `get_summaries` returns: the sorted summaries with the record's
      timestamp and counters, or the empty answer for a missing id. */
  datatype SummariesView = Summaries(summaries: seq<Summary>, timestamp: nat, stats: Stats) | NoSummaries

  /** `get_summaries(analysis_id)`. */
  function GetSummaries(store: Store, id: Option<string>): (r: SummariesView)
    ensures !IsSet(Chosen(store, id)) || Chosen(store, id).value !in store.analyses <==> r == NoSummaries
  {
    var aid := Chosen(store, id);
    if !IsSet(aid) || aid.value !in store.analyses then NoSummaries
    else
      var record := store.analyses[aid.value];
      Summaries(SortByKey(record.summaries), record.timestamp, record.stats)
  }

  /** The counters as the dictionary `get_analysis_stats` returns. */
  function StatsMap(s: Stats): map<string, int> {
    map["total_nodes" := s.totalNodes, "breadth_analyses" := s.breadthAnalyses,
        "depth_analyses" := s.depthAnalyses, "max_depth" := s.maxDepth,
        "validation_failed" := s.validationFailed, "validation_passed" := s.validationPassed]
  }

  /** The answer for an unknown id: four of the six counters, all zero. */
  const UnknownStats: map<string, int> :=
    map["total_nodes" := 0, "max_depth" := 0, "breadth_analyses" := 0, "depth_analyses" := 0]

  /** `get_analysis_stats(analysis_id)`. */
  function GetAnalysisStats(store: Store, id: Option<string>): (r: map<string, int>)
    ensures var aid := Chosen(store, id);
      if IsSet(aid) && aid.value in store.analyses then r == StatsMap(store.analyses[aid.value].stats)
      else r == UnknownStats
  {
    var aid := Chosen(store, id);
    if !IsSet(aid) || aid.value !in store.analyses then UnknownStats
    else StatsMap(store.analyses[aid.value].stats)
  }

  /** `clear_analysis(analysis_id)`: removes only the chosen record and
      keeps the current id. */
  function ClearAnalysis(store: Store, id: Option<string>): (r: Store)
    ensures r.current == store.current
    ensures var aid := Chosen(store, id);
      (aid.Some? ==> r.analyses == store.analyses - {aid.value})
      && (aid.None? ==> r == store)
  {
    var aid := Chosen(store, id);
    if aid.Some? && aid.value in store.analyses then Store(store.analyses - {aid.value}, store.current)
    else store
  }

  // -----------------------------------------------------------------------
  // Sorting by (layer, timestamp)

  /** The sort key order: by layer, then by timestamp. */
  predicate KeyLe(a: Summary, b: Summary) {
    a.layer < b.layer || (a.layer == b.layer && a.timestamp <= b.timestamp)
  }

  predicate SortedByKey(xs: seq<Summary>) {
    forall i, j :: 0 <= i < j < |xs| ==> KeyLe(xs[i], xs[j])
  }

  /** Places x after every element whose key is not greater, as a stable
      sort does for the later of two equal keys. */
  function Insert(xs: seq<Summary>, x: Summary): (r: seq<Summary>)
    decreases |xs|
    ensures |r| == |xs| + 1
  {
    if |xs| == 0 then [x]
    else if KeyLe(xs[|xs| - 1], x) then xs + [x]
    else Insert(xs[..|xs| - 1], x) + [xs[|xs| - 1]]
  }

  /** Python's `sorted(..., key=(layer, timestamp))`. */
  function SortByKey(xs: seq<Summary>): (r: seq<Summary>)
    decreases |xs|
    ensures |r| == |xs|
  {
    if |xs| == 0 then [] else Insert(SortByKey(xs[..|xs| - 1]), xs[|xs| - 1])
  }

  /** The summaries carrying a given key, in their order. */
  function WithKey(xs: seq<Summary>, layer: int, timestamp: nat): seq<Summary>
    decreases |xs|
  {
    if |xs| == 0 then []
    else WithKey(xs[..|xs| - 1], layer, timestamp)
         + (if xs[|xs| - 1].layer == layer && xs[|xs| - 1].timestamp == timestamp then [xs[|xs| - 1]] else [])
  }

  lemma {:induction false} InsertPermutes(xs: seq<Summary>, x: Summary)
    decreases |xs|
    ensures multiset(Insert(xs, x)) == multiset(xs) + multiset{x}
  {
    if |xs| > 0 && !KeyLe(xs[|xs| - 1], x) {
      var init, last := xs[..|xs| - 1], xs[|xs| - 1];
      InsertPermutes(init, x);
      assert xs == init + [last];
    }
  }

  /** Every element of a sequence is at most y, so is every element after
      inserting x <= y. */
  lemma InsertBelow(xs: seq<Summary>, x: Summary, y: Summary)
    requires forall i :: 0 <= i < |xs| ==> KeyLe(xs[i], y)
    requires KeyLe(x, y)
    ensures forall k :: 0 <= k < |Insert(xs, x)| ==> KeyLe(Insert(xs, x)[k], y)
  {
    var r := Insert(xs, x);
    InsertPermutes(xs, x);
    forall k | 0 <= k < |r| ensures KeyLe(r[k], y) {
      assert r[k] in multiset(r);
      if r[k] != x {
        assert r[k] in multiset(xs);
        var i :| 0 <= i < |xs| && xs[i] == r[k];
      }
    }
  }

  lemma SortedAppend(xs: seq<Summary>, y: Summary)
    requires SortedByKey(xs)
    requires forall i :: 0 <= i < |xs| ==> KeyLe(xs[i], y)
    ensures SortedByKey(xs + [y])
  {
  }

  lemma {:induction false} InsertSorted(xs: seq<Summary>, x: Summary)
    requires SortedByKey(xs)
    decreases |xs|
    ensures SortedByKey(Insert(xs, x))
  {
    if |xs| == 0 {
    } else if KeyLe(xs[|xs| - 1], x) {
      SortedAppend(xs, x);
    } else {
      var init, last := xs[..|xs| - 1], xs[|xs| - 1];
      InsertSorted(init, x);
      InsertBelow(init, x, last);
      SortedAppend(Insert(init, x), last);
    }
  }

  /** The sorted copy is ordered by (layer, timestamp). */
  lemma {:induction false} SortByKeySorted(xs: seq<Summary>)
    decreases |xs|
    ensures SortedByKey(SortByKey(xs))
  {
    if |xs| > 0 {
      SortByKeySorted(xs[..|xs| - 1]);
      InsertSorted(SortByKey(xs[..|xs| - 1]), xs[|xs| - 1]);
    }
  }

  /** The sorted copy holds exactly the stored summaries. */
  lemma {:induction false} SortByKeyPermutes(xs: seq<Summary>)
    decreases |xs|
    ensures multiset(SortByKey(xs)) == multiset(xs)
  {
    if |xs| > 0 {
      var init, last := xs[..|xs| - 1], xs[|xs| - 1];
      var sorted := SortByKey(init);
      SortByKeyPermutes(init);
      assert multiset(xs) == multiset(init) + multiset{last} by {
        assert xs == init + [last];
      }
      assert multiset(SortByKey(xs)) == multiset(sorted) + multiset{last} by {
        InsertPermutes(sorted, last);
      }
    }
  }

  lemma {:induction false} WithKeyAppend(xs: seq<Summary>, ys: seq<Summary>, layer: int, timestamp: nat)
    decreases |ys|
    ensures WithKey(xs + ys, layer, timestamp) == WithKey(xs, layer, timestamp) + WithKey(ys, layer, timestamp)
  {
    if |ys| == 0 {
      assert xs + ys == xs;
    } else {
      var init, last := ys[..|ys| - 1], ys[|ys| - 1];
      assert (xs + ys)[..|xs + ys| - 1] == xs + init;
      assert (xs + ys)[|xs + ys| - 1] == last;
      WithKeyAppend(xs, init, layer, timestamp);
    }
  }

  lemma {:induction false} InsertStable(xs: seq<Summary>, x: Summary, layer: int, timestamp: nat)
    decreases |xs|
    ensures WithKey(Insert(xs, x), layer, timestamp) == WithKey(xs + [x], layer, timestamp)
  {
    if |xs| > 0 && !KeyLe(xs[|xs| - 1], x) {
      var init, last := xs[..|xs| - 1], xs[|xs| - 1];
      InsertStable(init, x, layer, timestamp);
      WithKeyAppend(Insert(init, x), [last], layer, timestamp);
      WithKeyAppend(init, [x], layer, timestamp);
      WithKeyAppend(init + [last], [x], layer, timestamp);
      assert xs == init + [last];
      assert WithKey([x], layer, timestamp) == [] || WithKey([last], layer, timestamp) == [];
    }
  }

  /** The sort is stable: the summaries sharing a key keep their stored
      order. */
  lemma {:induction false} SortByKeyStable(xs: seq<Summary>, layer: int, timestamp: nat)
    decreases |xs|
    ensures WithKey(SortByKey(xs), layer, timestamp) == WithKey(xs, layer, timestamp)
  {
    if |xs| > 0 {
      var init, last := xs[..|xs| - 1], xs[|xs| - 1];
      var sorted := SortByKey(init);
      SortByKeyStable(init, layer, timestamp);
      assert WithKey(xs, layer, timestamp) == WithKey(init, layer, timestamp) + WithKey([last], layer, timestamp) by {
        assert xs == init + [last];
        WithKeyAppend(init, [last], layer, timestamp);
      }
      assert WithKey(SortByKey(xs), layer, timestamp) == WithKey(sorted, layer, timestamp) + WithKey([last], layer, timestamp) by {
        InsertStable(sorted, last, layer, timestamp);
        WithKeyAppend(sorted, [last], layer, timestamp);
      }
    }
  }

  // -----------------------------------------------------------------------
  // The counters match the stored summaries

  function CountType(xs: seq<Summary>, t: string): nat
    decreases |xs|
  {
    if |xs| == 0 then 0
    else CountType(xs[..|xs| - 1], t) + (if xs[|xs| - 1].nodeType == Some(t) then 1 else 0)
  }

  function CountStatus(xs: seq<Summary>, v: string): nat
    decreases |xs|
  {
    if |xs| == 0 then 0
    else CountStatus(xs[..|xs| - 1], v) + (if xs[|xs| - 1].validationStatus == Some(v) then 1 else 0)
  }

  /** The deepest layer among the summaries, and 0 when none is deeper. */
  function MaxLayer(xs: seq<Summary>): (m: int)
    decreases |xs|
    ensures m >= 0
    ensures forall k :: 0 <= k < |xs| ==> xs[k].layer <= m
    ensures m == 0 || exists k :: 0 <= k < |xs| && xs[k].layer == m
  {
    if |xs| == 0 then 0
    else
      var m0 := MaxLayer(xs[..|xs| - 1]);
      var l := xs[|xs| - 1].layer;
      if l > m0 then l else m0
  }

  /** Reference definition of the counters: computed from the summaries. */
  function StatsOf(xs: seq<Summary>): Stats {
    Stats(|xs|, CountType(xs, "BREADTH"), CountType(xs, "DEPTH"), MaxLayer(xs),
          CountStatus(xs, "INVALID"), CountStatus(xs, "VALID"))
  }

  /** Every record's counters agree with its summaries. */
  predicate Consistent(store: Store) {
    forall id :: id in store.analyses ==> store.analyses[id].stats == StatsOf(store.analyses[id].summaries)
  }

  lemma StatsOfAppend(xs: seq<Summary>, x: Summary)
    ensures StatsOf(xs + [x]) == Bump(StatsOf(xs), x)
  {
    assert (xs + [x])[..|xs|] == xs;
  }

  lemma EmptyStoreConsistent()
    ensures Consistent(EmptyStore)
  {
  }

  lemma StartKeepsConsistent(store: Store, id: string, now: nat)
    requires Consistent(store)
    ensures Consistent(StartNewAnalysis(store, id, now))
  {
  }

  /** Storing a summary adds exactly one entry to the current record and
      keeps its counters equal to those computed from its summaries; no
      other record changes. */
  lemma AddKeepsConsistent(store: Store, summary: string, nodeId: string, layer: int,
                           nodeType: Option<string>, category: Option<string>,
                           metadata: Option<Value>, validationStatus: Option<string>, now: nat)
    requires Consistent(store)
    ensures var r := AddNodeSummary(store, summary, nodeId, layer, nodeType, category, metadata, validationStatus, now);
      r.Ok? ==> (Consistent(r.value)
                 && forall id :: id in store.analyses && Some(id) != store.current ==>
                      id in r.value.analyses && r.value.analyses[id] == store.analyses[id])
  {
    var r := AddNodeSummary(store, summary, nodeId, layer, nodeType, category, metadata, validationStatus, now);
    if r.Ok? && r.value != store {
      var aid := store.current.value;
      var record := store.analyses[aid];
      var entry := r.value.analyses[aid].summaries[|record.summaries|];
      assert r.value.analyses[aid].summaries == record.summaries + [entry];
      StatsOfAppend(record.summaries, entry);
    }
  }

  /** A stored summary grows the current record by one entry holding the
      cleaned text, and `total_nodes` by one. */
  lemma AddAppendsOne(store: Store, summary: string, nodeId: string, layer: int,
                      nodeType: Option<string>, category: Option<string>,
                      metadata: Option<Value>, validationStatus: Option<string>, now: nat)
    requires IsSet(store.current) && store.current.value in store.analyses
    requires ExtractSummaryContent(summary) != ""
    ensures var r := AddNodeSummary(store, summary, nodeId, layer, nodeType, category, metadata, validationStatus, now);
      var before := store.analyses[store.current.value];
      r.Ok? && store.current.value in r.value.analyses
      && var after := r.value.analyses[store.current.value];
      |after.summaries| == |before.summaries| + 1
      && after.summaries[..|before.summaries|] == before.summaries
      && after.summaries[|before.summaries|].content == ExtractSummaryContent(summary)
      && after.summaries[|before.summaries|].layer == layer
      && after.stats.totalNodes == before.stats.totalNodes + 1
      && after.stats.maxDepth == (if layer > before.stats.maxDepth then layer else before.stats.maxDepth)
  {
  }

  lemma ClearKeepsConsistent(store: Store, id: Option<string>)
    requires Consistent(store)
    ensures Consistent(ClearAnalysis(store, id))
  {
  }

  /** In a consistent store `total_nodes` is the number of stored
      summaries. */
  lemma TotalNodesCountsSummaries(store: Store, id: string)
    requires Consistent(store) && id in store.analyses
    ensures store.analyses[id].stats.totalNodes == |store.analyses[id].summaries|
  {
  }

  // -----------------------------------------------------------------------
  // Extracting the content between the markers

  /** Text wrapped in the markers comes back stripped, when it does not
      itself contain either marker. */
  lemma WrappedContentExtracted(x: string)
    requires !Contains(x, StartMarker) && !Contains(x, EndMarker)
    ensures ExtractSummaryContent(StartMarker + x + EndMarker) == Strip(x)
  {
    var s := StartMarker + x + EndMarker;
    WrappedFinds(x);
    assert s[|StartMarker|..|StartMarker| + |x|] == x;
  }

  lemma WrappedFinds(x: string)
    requires !Contains(x, EndMarker)
    ensures Find(StartMarker + x + EndMarker, StartMarker) == Some(0)
    ensures Find(StartMarker + x + EndMarker, EndMarker) == Some(|StartMarker| + |x|)
  {
    var s := StartMarker + x + EndMarker;
    assert s == "" + StartMarker + (x + EndMarker);
    OccursInside("", StartMarker, x + EndMarker);
    FindIs(s, StartMarker, 0);
    OccursInside(StartMarker + x, EndMarker, "");
    assert s == StartMarker + x + EndMarker + "";
    forall j | 0 <= j < |StartMarker| + |x| ensures !OccursAt(s, EndMarker, j) {
      EndMarkerNotBefore(x, j);
    }
    FindIs(s, EndMarker, |StartMarker| + |x|);
  }

  lemma EndMarkerNotBefore(x: string, j: nat)
    requires !Contains(x, EndMarker)
    requires j < |StartMarker| + |x|
    ensures !OccursAt(StartMarker + x + EndMarker, EndMarker, j)
  {
    var s := StartMarker + x + EndMarker;
    var at := |StartMarker| + |x|;
    if OccursAt(s, EndMarker, j) {
      if j < |StartMarker| {
        assert s[..|StartMarker|] == StartMarker;
        StartMarkerClash(j, s);
      } else if j + |EndMarker| <= at {
        assert s[j..j + |EndMarker|] == x[j - |StartMarker|..j - |StartMarker| + |EndMarker|];
        assert OccursAt(x, EndMarker, j - |StartMarker|);
        ContainsIff(x, EndMarker);
      } else {
        assert s[at] == '[';
        assert s[j..j + |EndMarker|][at - j] == s[at];
        EndMarkerHeadOnly(at - j);
      }
    }
  }

  /** `[` appears in the end marker only as its first character. */
  lemma EndMarkerHeadOnly(i: nat)
    requires 0 < i < |EndMarker|
    ensures EndMarker[i] != '['
  {
  }

  /** No end marker starts inside the start marker. */
  lemma StartMarkerClash(j: nat, s: string)
    requires j < |StartMarker| <= |s| && s[..|StartMarker|] == StartMarker
    ensures !OccursAt(s, EndMarker, j)
  {
    if j + |EndMarker| <= |s| {
      var w := s[j..j + |EndMarker|];
      if j == 0 {
        assert w[1] == s[1] == StartMarker[1] == 'N';
        assert w[1] != EndMarker[1];
      } else {
        assert w[0] == s[j] == StartMarker[j];
        StartMarkerHeadOnly(j);
        assert w[0] != EndMarker[0];
      }
    }
  }

  /** `[` appears in the start marker only as its first character. */
  lemma StartMarkerHeadOnly(i: nat)
    requires 0 < i < |StartMarker|
    ensures StartMarker[i] != '['
  {
  }

  /** An end marker ahead of every start marker makes Python's slice empty,
      so nothing is extracted. */
  lemma EndBeforeStartGivesEmpty(a: string, b: string, c: string)
    requires '[' !in a
    ensures ExtractSummaryContent(a + EndMarker + b + StartMarker + c) == ""
  {
    var s := a + EndMarker + b + StartMarker + c;
    assert s == a + EndMarker + (b + StartMarker + c);
    OccursInside(a, EndMarker, b + StartMarker + c);
    assert s == a + EndMarker + b + StartMarker + c;
    OccursInside(a + EndMarker + b, StartMarker, c);
    ContainsIff(s, StartMarker);
    ContainsIff(s, EndMarker);
    assert s[..|a| + |EndMarker|] == a + EndMarker;
    NoStartUpTo(s, a);
    assert Find(s, EndMarker).value <= |a|;
    assert Find(s, StartMarker).value > |a|;
  }

  /** With no `[` in the text before an end marker, no start marker begins
      before that end marker ends its first character. */
  lemma NoStartUpTo(s: string, a: string)
    requires '[' !in a
    requires |a| + |EndMarker| <= |s| && s[..|a| + |EndMarker|] == a + EndMarker
    ensures forall j :: 0 <= j <= |a| ==> !OccursAt(s, StartMarker, j)
  {
    forall j | 0 <= j <= |a| ensures !OccursAt(s, StartMarker, j) {
      if j + |StartMarker| <= |s| {
        var w := s[j..j + |StartMarker|];
        if j < |a| {
          assert w[0] == s[j] == (a + EndMarker)[j] == a[j];
          assert w[0] != StartMarker[0];
        } else {
          assert w[1] == s[j + 1] == (a + EndMarker)[j + 1] == EndMarker[1];
          assert w[1] != StartMarker[1];
        }
      }
    }
  }
}
