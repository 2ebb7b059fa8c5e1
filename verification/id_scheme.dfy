/** How the Mermaid generator's id and edge-label helpers
    (visualization/mermaid_generator.py, `_generate_node_id` and
    `_generate_edge_label`) read the ids the executor hands out
    (executors/executor.py, `process_query`, `_process_breadth_node` and
    `_process_depth_node`). */
module IdScheme {
  import opened Common
  import opened Text
  import Executor
  import opened MermaidGenerator

  /** The generator rebuilds every id the executor makes: the root from
      the analysis id, a breadth child from its parent and position, the
      depth child from its parent alone (the index defaults to 1). */
  lemma GeneratedIdsMatchExecutor(analysisId: string, parent: string, position: nat)
    requires parent != ""
    ensures GenerateNodeId(NodeRequest(None, Some(analysisId), None, None, None)) == Executor.RootId(analysisId)
    ensures GenerateNodeId(NodeRequest(None, Some(analysisId), Some(parent), Some("BREADTH"), Some(NatToString(position))))
      == Executor.BreadthId(parent, position)
    ensures GenerateNodeId(NodeRequest(None, Some(analysisId), Some(parent), Some("DEPTH"), None))
      == Executor.DepthId(parent)
  {
    var digits := NatToString(position);
    assert GenerateNodeId(NodeRequest(None, Some(analysisId), Some(parent), Some("BREADTH"), Some(digits)))
      == parent + "_" + (Lower("BREADTH") + "_" + digits);
    assert GenerateNodeId(NodeRequest(None, Some(analysisId), Some(parent), Some("DEPTH"), None))
      == parent + "_" + (Lower("DEPTH") + "_" + "1");
    LowerKinds();
  }

  lemma LowerKinds()
    ensures Lower("BREADTH") == "breadth" && Lower("DEPTH") == "depth"
  {
  }

  /** A text containing p still contains it with more text after it. */
  lemma ContainsExtended(a: string, p: string, b: string)
    requires Contains(a, p)
    ensures Contains(a + b, p)
  {
    var i := Find(a, p).value;
    assert (a + b)[i..i + |p|] == a[i..i + |p|];
    assert OccursAt(a + b, p, i);
    ContainsIff(a + b, p);
  }

  /** A depth child's id always reads as a DEPTH edge. */
  lemma DepthChildReadsDepth(source: string, parent: string)
    ensures GenerateEdgeLabel(source, Executor.DepthId(parent)) == "DEPTH"
  {
    LowerConcat(parent, "_depth_1");
    assert Lower("_depth_1") == "_depth_" + "1";
    assert Lower(parent + "_depth_1") == Lower(parent) + "_depth_" + "1";
    ContainsInside(Lower(parent), "_depth_", "1");
  }

  /** Lower-casing a breadth child's id lower-cases only the parent part
      and the digits. */
  lemma LowerBreadthId(parent: string, position: nat)
    ensures Lower(Executor.BreadthId(parent, position))
      == Lower(parent) + "_breadth_" + Lower(NatToString(position))
  {
    var digits := NatToString(position);
    LowerConcat(parent + "_breadth_", digits);
    LowerConcat(parent, "_breadth_");
    assert Lower("_breadth_") == "_breadth_";
  }

  /** An id whose lower-cased form has a "_breadth_" step after `head`
      gets a label, and the DEPTH one when `head` already holds a depth
      step. */
  lemma LabelAfterBreadthStep(source: string, target: string, head: string, tail: string)
    requires Lower(target) == head + "_breadth_" + tail
    ensures GenerateEdgeLabel(source, target) != ""
    ensures Contains(head, "_depth_") ==> GenerateEdgeLabel(source, target) == "DEPTH"
  {
    ContainsInside(head, "_breadth_", tail);
    if Contains(head, "_depth_") {
      ContainsExtended(head, "_depth_", "_breadth_" + tail);
      assert head + ("_breadth_" + tail) == Lower(target);
    }
  }

  /** A breadth child's id always gets a label, but it reads as DEPTH
      once any ancestor is a depth child: the label is taken from the
      whole id, not from its last step. */
  lemma BreadthChildReading(source: string, parent: string, position: nat)
    ensures GenerateEdgeLabel(source, Executor.BreadthId(parent, position)) != ""
    ensures Contains(Lower(parent), "_depth_") ==>
      GenerateEdgeLabel(source, Executor.BreadthId(parent, position)) == "DEPTH"
  {
    LowerBreadthId(parent, position);
    LabelAfterBreadthStep(source, Executor.BreadthId(parent, position), Lower(parent), Lower(NatToString(position)));
  }
}
