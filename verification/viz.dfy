/** The visualisation record shared by the executor, which fills it
    (executors/executor.py, `_add_to_visualization`), and the Mermaid
    generator, which reads it (visualization/mermaid_generator.py). Nodes and
    edges are flat dictionaries; a key that may be absent is an `Option`. */
module Viz {
  import opened Common

  /** A node entry: `node_id`, `type`, `layer`, `query`, `node_summary`,
      and `original_query` (present on the root only). */
  datatype VizNode = VizNode(
    nodeId: Option<string>,
    kind: Option<string>,
    layer: Option<int>,
    query: Option<string>,
    summary: Option<string>,
    originalQuery: Option<string>)

  /** An edge entry: `source`, `target`, `type`. */
  datatype Edge = Edge(source: Option<string>, target: Option<string>, kind: Option<string>)

  datatype VizData = VizData(nodes: seq<VizNode>, edges: seq<Edge>)

  /** `_reset_visualization`. */
  const Empty := VizData([], [])

  /** No two node entries carry the same `node_id`. */
  predicate DistinctIds(nodes: seq<VizNode>) {
    forall i, j :: 0 <= i < j < |nodes| ==> nodes[i].nodeId != nodes[j].nodeId
  }

  /** No edge occurs twice. */
  predicate NoRepeatedEdges(edges: seq<Edge>) {
    forall i, j :: 0 <= i < j < |edges| ==> edges[i] != edges[j]
  }

  /** Some entry carries this `node_id`. */
  predicate HasNode(nodes: seq<VizNode>, id: Option<string>) {
    exists i :: 0 <= i < |nodes| && nodes[i].nodeId == id
  }
}
