/** The tree executor (executors/executor.py): the node budget, the
    validation gate in front of the summary store, the breadth/depth walk
    that grows the analysis tree, and the flat visualisation record built
    from it. Every model-backed collaborator is an oracle keyed by node id. */
module Executor {
  import opened Common
  import opened Text
  import EngineController
  import BreadthEngine
  import DepthEngine
  import SummaryManager
  import opened NodeGenerator
  import opened Viz

  // -----------------------------------------------------------------------
  // ResourceManager

  datatype ResourceManager = ResourceManager(maxNodes: int, maxLayer: int, current: nat)

  /** `ResourceManager(max_nodes, max_layer)`. */
  function NewResourceManager(maxNodes: int, maxLayer: int): (m: ResourceManager)
    ensures m.current == 0 && m.maxNodes == maxNodes && m.maxLayer == maxLayer
  {
    ResourceManager(maxNodes, maxLayer, 0)
  }

  /** `reset`: the count goes back to zero, the limits stay. */
  function Reset(m: ResourceManager): (r: ResourceManager)
    ensures r.current == 0 && r.maxNodes == m.maxNodes && r.maxLayer == m.maxLayer
  {
    m.(current := 0)
  }

  /** `increment_nodes`: one more node, the limits stay. */
  function IncrementNodes(m: ResourceManager): (r: ResourceManager)
    ensures r.current == m.current + 1 && r.maxNodes == m.maxNodes && r.maxLayer == m.maxLayer
  {
    m.(current := m.current + 1)
  }

  /** `can_add_node(layer)`. */
  predicate CanAddNode(m: ResourceManager, layer: int) {
    m.current < m.maxNodes && layer <= m.maxLayer
  }

  // -----------------------------------------------------------------------
  // Collaborators

  /** The executor's fixed settings: the two limits, shared by the resource
      manager and the controller, and whether validation is enabled. */
  datatype Config = Config(maxNodes: int, maxLayer: int, validation: bool)

  /** What the model-backed collaborators answer, per node id:
      - `summarise(id, k)`: the `node_summary` of the k-th `generate_node`
        call for that id (0 the first, then the regenerations), or the
        message of the error that call caught;
      - `verdict(id, k)`: the `validation_status` of the k-th
        `validate_node_content` call for that id;
      - `controller(id)`: the replies to the controller's prompts for it;
      - `breadth(id)`, `depth(id)`: the reply to the engine's prompt. */
  datatype Oracles = Oracles(
    summarise: (string, nat) -> Result<string, string>,
    verdict: (string, nat) -> string,
    controller: string -> nat -> CallOutcome,
    breadth: string -> CallOutcome,
    depth: string -> CallOutcome)

  /** The controller's retry bound as the executor builds it. */
  const ControllerRetries := 3

  /** The breadth engine's default aspect limit (only shapes the prompt). */
  const MaxAspects := 3

  /** `generate_node({...})`: a node dictionary echoing the given id, layer,
      query and type, or the error dictionary. */
  function Generate(o: Oracles, id: string, layer: int, query: string, kind: string, attempt: nat): (d: NodeData)
    ensures d.nodeId == id
    ensures d.Generated? <==> o.summarise(id, attempt).Ok?
    ensures d.Generated? ==> d.layer == layer && d.query == query && d.nodeType == kind && d.validationStatus == None
  {
    match o.summarise(id, attempt)
    case Ok(s) => Generated(id, layer, query, kind, s, None)
    case Err(e) => FailedNode(id, e)
  }

  /** The regeneration inside `_validate_node`: query, layer and type are
      read back from the node data with their defaults ('', 1, 'BREADTH'),
      which an error dictionary does not have. */
  function Regenerate(o: Oracles, data: NodeData, attempt: nat): (d: NodeData)
    ensures d.nodeId == data.nodeId
    ensures data.FailedNode? && d.Generated? ==> d.layer == 1 && d.query == "" && d.nodeType == EngineController.Breadth
    ensures data.Generated? && d.Generated? ==> d.layer == data.layer && d.query == data.query && d.nodeType == data.nodeType
  {
    match data
    case Generated(id, layer, query, kind, _, _) => Generate(o, id, layer, query, kind, attempt)
    case FailedNode(id, _) => Generate(o, id, 1, "", EngineController.Breadth, attempt)
  }

  /** `node_data['validation_status'] = status`; an error dictionary gets
      the key too, but has no summary for the store to pick up. */
  function WithStatus(data: NodeData, status: string): (d: NodeData)
    ensures d.nodeId == data.nodeId && d.Generated? == data.Generated?
    ensures d.Generated? ==> d.validationStatus == Some(status) && d.summary == data.summary
  {
    match data
    case Generated(_, _, _, _, _, _) => data.(validationStatus := Some(status))
    case FailedNode(_, _) => data
  }

  /** The `node_summary` the executor reads back, '' for an error dictionary. */
  function SummaryText(data: NodeData): string {
    match data
    case Generated(_, _, _, _, s, _) => s
    case FailedNode(_, _) => ""
  }

  /** `decision.get("decision", fallback)` for the controller's answer on
      this node. */
  function Decide(o: Oracles, id: string, layer: int, maxLayer: int, fallback: string): (kind: string)
    ensures layer >= maxLayer ==> kind == EngineController.Complete
    ensures kind == fallback || EngineController.IsKnownDecision(kind)
  {
    match EngineController.Process(o.controller(id), layer, maxLayer, ControllerRetries).0
    case Decided(d) => d.decision
    case _ => fallback
  }

  // -----------------------------------------------------------------------
  // _validate_node

  const MaxValidations := 3
  const Valid := "VALID"
  const Invalid := "INVALID"

  /** What `_validate_node` returns (None for a rejected node), the node data
      it handed to `store_node_summary`, and how many validation calls it
      made. */
  datatype Validated = Validated(result: Option<NodeData>, stored: NodeData, checks: nat)

  /** The validation loop from attempt `attempt` on: a "VALID" verdict stores
      the node as VALID and returns it; any other verdict regenerates the
      node, unless it was the last attempt, which stores it as INVALID and
      returns None. */
  function ValidateFrom(o: Oracles, data: NodeData, attempt: nat): (v: Validated)
    requires attempt < MaxValidations
    decreases MaxValidations - attempt
    ensures attempt < v.checks <= MaxValidations
  {
    if o.verdict(data.nodeId, attempt) == Valid then
      var d := WithStatus(data, Valid);
      Validated(Some(d), d, attempt + 1)
    else if attempt + 1 < MaxValidations then
      ValidateFrom(o, Regenerate(o, data, attempt + 1), attempt + 1)
    else
      Validated(None, WithStatus(data, Invalid), attempt + 1)
  }

  /** `_validate_node(node_data)`. Disabled: the node is marked VALID,
      stored and returned without any validation call. */
  function ValidateNode(o: Oracles, enabled: bool, data: NodeData): (v: Validated)
    ensures v.checks <= MaxValidations
    ensures v.stored.nodeId == data.nodeId
    ensures v.result.Some? ==> v.result.value == v.stored
    ensures v.stored.Generated? ==> v.stored.validationStatus == Some(if v.result.Some? then Valid else Invalid)
    ensures !enabled ==> v == Validated(Some(WithStatus(data, Valid)), WithStatus(data, Valid), 0)
  {
    if !enabled then
      var d := WithStatus(data, Valid);
      Validated(Some(d), d, 0)
    else
      ValidateShape(o, data, 0);
      ValidateFrom(o, data, 0)
  }

  /** The shape of every outcome of the loop. */
  lemma {:induction false} ValidateShape(o: Oracles, data: NodeData, attempt: nat)
    requires attempt < MaxValidations
    decreases MaxValidations - attempt
    ensures var v := ValidateFrom(o, data, attempt);
      && attempt < v.checks <= MaxValidations
      && v.stored.nodeId == data.nodeId
      && (v.result.Some? ==> v.result.value == v.stored)
      && (v.stored.Generated? ==> v.stored.validationStatus == Some(if v.result.Some? then Valid else Invalid))
  {
    if o.verdict(data.nodeId, attempt) != Valid && attempt + 1 < MaxValidations {
      ValidateShape(o, Regenerate(o, data, attempt + 1), attempt + 1);
    }
  }

  /** The loop from `attempt` on asks about the same node id each time (a
      regenerated node keeps its id), stops at the first VALID verdict, and
      otherwise uses all its attempts. */
  lemma {:induction false} ValidateFromVerdicts(o: Oracles, data: NodeData, attempt: nat)
    requires attempt < MaxValidations
    decreases MaxValidations - attempt
    ensures var v := ValidateFrom(o, data, attempt);
      && (v.result.Some? <==> exists k :: attempt <= k < MaxValidations && o.verdict(data.nodeId, k) == Valid)
      && (v.result.Some? ==> o.verdict(data.nodeId, v.checks - 1) == Valid)
      && (forall k :: attempt <= k < v.checks - 1 ==> o.verdict(data.nodeId, k) != Valid)
      && (v.result.None? ==> v.checks == MaxValidations)
  {
    if o.verdict(data.nodeId, attempt) != Valid && attempt + 1 < MaxValidations {
      ValidateFromVerdicts(o, Regenerate(o, data, attempt + 1), attempt + 1);
    }
  }

  /** With validation enabled, `_validate_node` returns the node exactly when
      one of its three verdicts is VALID, after the first such verdict, and
      regenerates the node after each earlier one; the data it stores is
      marked accordingly. */
  lemma ValidateNodeVerdicts(o: Oracles, data: NodeData)
    ensures var v := ValidateNode(o, true, data);
      && (v.result.Some? <==> exists k :: 0 <= k < MaxValidations && o.verdict(data.nodeId, k) == Valid)
      && (v.result.Some? ==> o.verdict(data.nodeId, v.checks - 1) == Valid)
      && (forall k :: 0 <= k < v.checks - 1 ==> o.verdict(data.nodeId, k) != Valid)
      && (v.result.None? ==> v.checks == MaxValidations)
  {
    ValidateFromVerdicts(o, data, 0);
  }

  // -----------------------------------------------------------------------
  // The analysis tree

  /** A node of the analysis tree: `node_id`, `type` (the controller's
      decision, or the caller's default), `layer`, `query`, `node_summary`,
      `parent_id`, `original_query` (the root's only) and `child_nodes`. */
  datatype Tree = Tree(
    id: string,
    kind: string,
    layer: int,
    query: string,
    summary: string,
    parent: Option<string>,
    originalQuery: Option<string>,
    children: seq<Tree>)

  /** The mutable state of one analysis: the resource manager's count, the
      summary store, the store's clock, and every node data handed to
      `store_node_summary`, in order. */
  datatype Run = Run(nodes: nat, store: SummaryManager.Store, clock: nat, stored: seq<NodeData>)

  /** The resource manager as the executor holds it during a run. */
  function Manager(cfg: Config, run: Run): ResourceManager {
    ResourceManager(cfg.maxNodes, cfg.maxLayer, run.nodes)
  }

  /** `store_node_summary(node_data)` at the current clock. */
  function Record(run: Run, data: NodeData): (r: Run)
    ensures r.nodes == run.nodes && r.stored == run.stored + [data]
  {
    Run(run.nodes, StoreNodeSummary(run.store, data, run.clock), run.clock + 1, run.stored + [data])
  }

  /** The state after one more node is counted. */
  function Counted(run: Run): (r: Run)
    ensures r.nodes == run.nodes + 1
  {
    run.(nodes := run.nodes + 1)
  }

  /** A child node before its own children are grown: its type is the
      controller's decision, defaulting to the type it was generated with. */
  function Child(o: Oracles, cfg: Config, parent: Tree, id: string, query: string, data: NodeData, kind: string): (c: Tree)
    ensures c.id == id && c.layer == parent.layer + 1 && c.parent == Some(parent.id) && c.children == []
  {
    Tree(id, Decide(o, id, parent.layer + 1, cfg.maxLayer, kind), parent.layer + 1, query,
         SummaryText(data), Some(parent.id), None, [])
  }

  /** The child a step built (None when validation rejected it) and the
      state after it. */
  datatype Admission = Admission(child: Option<Tree>, run: Run)

  /** Steps 1-4 of building a child: generate it, pass it through
      `_validate_node` when validation is enabled (which stores it once), read
      its summary back and ask the controller for its type. With validation
      disabled nothing is stored. */
  function Admit(o: Oracles, cfg: Config, run: Run, parent: Tree, id: string, query: string, kind: string): (a: Admission)
    ensures a.run.nodes == run.nodes
    ensures a.child.Some? ==> a.child.value.id == id && a.child.value.layer == parent.layer + 1
                              && a.child.value.parent == Some(parent.id) && a.child.value.children == []
    ensures !cfg.validation ==> a.run == run && a.child.Some?
    ensures cfg.validation ==> a.run == Record(run, ValidateNode(o, true, Generate(o, id, parent.layer + 1, query, kind, 0)).stored)
  {
    var data := Generate(o, id, parent.layer + 1, query, kind, 0);
    if cfg.validation then
      var v := ValidateNode(o, true, data);
      var child := if v.result.Some? then Some(Child(o, cfg, parent, id, query, v.result.value, kind)) else None;
      Admission(child, Record(run, v.stored))
    else Admission(Some(Child(o, cfg, parent, id, query, data, kind)), run)
  }

  /** A grown subtree: the run after it, and the children built. */
  datatype Grown = Grown(run: Run, children: seq<Tree>)

  /** `_process_node_children(node, original_query, node.layer)`: the
      children of a node whose own fields are final. */
  function Expand(o: Oracles, cfg: Config, run: Run, node: Tree): Grown
    decreases cfg.maxLayer - node.layer, 1, 0
  {
    if node.layer >= cfg.maxLayer then Grown(run, [])
    else if !CanAddNode(Manager(cfg, run), node.layer) then Grown(run, [])
    else if node.kind == EngineController.Complete then Grown(run, [])
    else if node.kind == EngineController.Breadth then
      BreadthChildren(o, cfg, run, node, Aspects(o, node), 0)
    else if node.kind == EngineController.Depth then
      DepthChild(o, cfg, run, node)
    else Grown(run, [])
  }

  /** The breadth engine's aspects for a node. */
  function Aspects(o: Oracles, node: Tree): seq<BreadthEngine.Aspect> {
    BreadthEngine.Process(o.breadth(node.id), MaxAspects)
  }

  /** The id of the breadth child for the `position`-th aspect (1-based). */
  function BreadthId(parent: string, position: nat): string {
    parent + "_breadth_" + NatToString(position)
  }

  /** The id of the single depth child. */
  function DepthId(parent: string): string {
    parent + "_depth_1"
  }

  /** The loop of `_process_breadth_node` from aspect `i` (0-based) on. The
      budget check comes first and ends the loop; a node rejected by
      validation is skipped without being counted. */
  function BreadthChildren(o: Oracles, cfg: Config, run: Run, parent: Tree,
                           aspects: seq<BreadthEngine.Aspect>, i: nat): Grown
    requires parent.layer < cfg.maxLayer
    decreases cfg.maxLayer - parent.layer, 0, |aspects| - i
  {
    if i >= |aspects| then Grown(run, [])
    else if !CanAddNode(Manager(cfg, run), parent.layer + 1) then Grown(run, [])
    else
      var a := Admit(o, cfg, run, parent, BreadthId(parent.id, i + 1), aspects[i].query, EngineController.Depth);
      if a.child.None? then BreadthChildren(o, cfg, a.run, parent, aspects, i + 1)
      else
        var grown := Expand(o, cfg, Counted(a.run), a.child.value);
        var rest := BreadthChildren(o, cfg, grown.run, parent, aspects, i + 1);
        Grown(rest.run, [a.child.value.(children := grown.children)] + rest.children)
  }

  /** The follow-up question for a depth node. It always comes back as a
      dictionary with a `question` key, so a child is built whenever the
      budget allows and validation does not reject it. */
  function FollowUp(o: Oracles, node: Tree): string {
    DepthEngine.Process(o.depth(node.id))
  }

  /** `_process_depth_node`. */
  function DepthChild(o: Oracles, cfg: Config, run: Run, parent: Tree): Grown
    requires parent.layer < cfg.maxLayer
    decreases cfg.maxLayer - parent.layer, 0, 0
  {
    if !CanAddNode(Manager(cfg, run), parent.layer + 1) then Grown(run, [])
    else
      var a := Admit(o, cfg, run, parent, DepthId(parent.id), FollowUp(o, parent), EngineController.Breadth);
      if a.child.None? then Grown(a.run, [])
      else
        var grown := Expand(o, cfg, Counted(a.run), a.child.value);
        Grown(grown.run, [a.child.value.(children := grown.children)])
  }

  // -----------------------------------------------------------------------
  // Tree measures

  /** The number of nodes in a tree. */
  function Size(t: Tree): nat
    decreases t, 1
  {
    1 + SizeAll(t.children)
  }

  /** The number of nodes in a forest. */
  function SizeAll(ts: seq<Tree>): nat
    decreases ts, 0
  {
    if |ts| == 0 then 0 else Size(ts[0]) + SizeAll(ts[1..])
  }

  lemma SizeAllCons(t: Tree, ts: seq<Tree>)
    ensures SizeAll([t] + ts) == Size(t) + SizeAll(ts)
  {
    assert ([t] + ts)[0] == t;
    assert ([t] + ts)[1..] == ts;
  }

  function Max(a: int, b: int): int {
    if a >= b then a else b
  }

  // -----------------------------------------------------------------------
  // The node count

  /** The count rises by exactly one per node built, and only after a
      passing budget check, so it never passes the larger of its starting
      value and `max_nodes`. */
  lemma {:induction false} ExpandCounts(o: Oracles, cfg: Config, run: Run, node: Tree)
    decreases cfg.maxLayer - node.layer, 1, 0
    ensures var g := Expand(o, cfg, run, node);
      g.run.nodes == run.nodes + SizeAll(g.children) && g.run.nodes <= Max(run.nodes, cfg.maxNodes)
  {
    if node.layer < cfg.maxLayer && CanAddNode(Manager(cfg, run), node.layer) && node.kind != EngineController.Complete {
      if node.kind == EngineController.Breadth {
        BreadthCounts(o, cfg, run, node, Aspects(o, node), 0);
      } else if node.kind == EngineController.Depth {
        DepthCounts(o, cfg, run, node);
      }
    }
  }

  lemma {:induction false} BreadthCounts(o: Oracles, cfg: Config, run: Run, parent: Tree,
                                         aspects: seq<BreadthEngine.Aspect>, i: nat)
    requires parent.layer < cfg.maxLayer
    decreases cfg.maxLayer - parent.layer, 0, |aspects| - i
    ensures var g := BreadthChildren(o, cfg, run, parent, aspects, i);
      g.run.nodes == run.nodes + SizeAll(g.children) && g.run.nodes <= Max(run.nodes, cfg.maxNodes)
  {
    if i < |aspects| && CanAddNode(Manager(cfg, run), parent.layer + 1) {
      var a := Admit(o, cfg, run, parent, BreadthId(parent.id, i + 1), aspects[i].query, EngineController.Depth);
      if a.child.None? {
        BreadthCounts(o, cfg, a.run, parent, aspects, i + 1);
      } else {
        var grown := Expand(o, cfg, Counted(a.run), a.child.value);
        ExpandCounts(o, cfg, Counted(a.run), a.child.value);
        BreadthCounts(o, cfg, grown.run, parent, aspects, i + 1);
        var rest := BreadthChildren(o, cfg, grown.run, parent, aspects, i + 1);
        SizeAllCons(a.child.value.(children := grown.children), rest.children);
      }
    }
  }

  lemma {:induction false} DepthCounts(o: Oracles, cfg: Config, run: Run, parent: Tree)
    requires parent.layer < cfg.maxLayer
    decreases cfg.maxLayer - parent.layer, 0, 0
    ensures var g := DepthChild(o, cfg, run, parent);
      g.run.nodes == run.nodes + SizeAll(g.children) && g.run.nodes <= Max(run.nodes, cfg.maxNodes)
  {
    if CanAddNode(Manager(cfg, run), parent.layer + 1) {
      var a := Admit(o, cfg, run, parent, DepthId(parent.id), FollowUp(o, parent), EngineController.Breadth);
      if a.child.Some? {
        ExpandCounts(o, cfg, Counted(a.run), a.child.value);
        var grown := Expand(o, cfg, Counted(a.run), a.child.value);
        SizeAllCons(a.child.value.(children := grown.children), []);
      }
    }
  }

  // -----------------------------------------------------------------------
  // Tree shape

  /** `c` hangs under `p`: one layer deeper, within the layer limit, with
      `parent_id` set to the parent's id. */
  predicate ChildOf(c: Tree, p: Tree, maxLayer: int) {
    c.layer == p.layer + 1 && c.parent == Some(p.id) && c.layer <= maxLayer
  }

  /** Every node below `t` hangs under its own parent. */
  predicate WellFormed(t: Tree, maxLayer: int)
    decreases t
  {
    forall k :: 0 <= k < |t.children| ==> ChildOf(t.children[k], t, maxLayer) && WellFormed(t.children[k], maxLayer)
  }

  /** Children grown under `node`. */
  predicate GrownUnder(cs: seq<Tree>, node: Tree, maxLayer: int) {
    forall k :: 0 <= k < |cs| ==> ChildOf(cs[k], node, maxLayer) && WellFormed(cs[k], maxLayer)
  }

  /** A child with its grown children attached is well formed. */
  lemma Attached(c: Tree, grand: seq<Tree>, maxLayer: int)
    requires GrownUnder(grand, c, maxLayer)
    ensures WellFormed(c.(children := grand), maxLayer)
  {
    var c' := c.(children := grand);
    forall k | 0 <= k < |grand| ensures ChildOf(grand[k], c', maxLayer) && WellFormed(grand[k], maxLayer) {
      assert ChildOf(grand[k], c, maxLayer);
    }
  }

  lemma GrownCons(c: Tree, cs: seq<Tree>, node: Tree, maxLayer: int)
    requires ChildOf(c, node, maxLayer) && WellFormed(c, maxLayer) && GrownUnder(cs, node, maxLayer)
    ensures GrownUnder([c] + cs, node, maxLayer)
  {
    forall k | 0 <= k < |[c] + cs| ensures ChildOf(([c] + cs)[k], node, maxLayer) && WellFormed(([c] + cs)[k], maxLayer) {
      if k > 0 {
        assert ([c] + cs)[k] == cs[k - 1];
      }
    }
  }

  lemma GrownOne(c: Tree, node: Tree, maxLayer: int)
    requires ChildOf(c, node, maxLayer) && WellFormed(c, maxLayer)
    ensures GrownUnder([c], node, maxLayer)
  {
  }

  /** Children are only built below the layer limit, one layer deeper than
      their parent and with the parent's id as `parent_id`. */
  lemma {:induction false} ExpandShape(o: Oracles, cfg: Config, run: Run, node: Tree)
    decreases cfg.maxLayer - node.layer, 1, 0
    ensures GrownUnder(Expand(o, cfg, run, node).children, node, cfg.maxLayer)
  {
    if node.layer < cfg.maxLayer && CanAddNode(Manager(cfg, run), node.layer) && node.kind != EngineController.Complete {
      if node.kind == EngineController.Breadth {
        BreadthShape(o, cfg, run, node, Aspects(o, node), 0);
      } else if node.kind == EngineController.Depth {
        DepthShape(o, cfg, run, node);
      }
    }
  }

  lemma {:induction false} BreadthShape(o: Oracles, cfg: Config, run: Run, parent: Tree,
                                        aspects: seq<BreadthEngine.Aspect>, i: nat)
    requires parent.layer < cfg.maxLayer
    decreases cfg.maxLayer - parent.layer, 0, |aspects| - i
    ensures GrownUnder(BreadthChildren(o, cfg, run, parent, aspects, i).children, parent, cfg.maxLayer)
  {
    if i < |aspects| && CanAddNode(Manager(cfg, run), parent.layer + 1) {
      var a := Admit(o, cfg, run, parent, BreadthId(parent.id, i + 1), aspects[i].query, EngineController.Depth);
      if a.child.None? {
        BreadthShape(o, cfg, a.run, parent, aspects, i + 1);
      } else {
        var grown := Expand(o, cfg, Counted(a.run), a.child.value);
        ExpandShape(o, cfg, Counted(a.run), a.child.value);
        Attached(a.child.value, grown.children, cfg.maxLayer);
        BreadthShape(o, cfg, grown.run, parent, aspects, i + 1);
        var rest := BreadthChildren(o, cfg, grown.run, parent, aspects, i + 1);
        GrownCons(a.child.value.(children := grown.children), rest.children, parent, cfg.maxLayer);
      }
    }
  }

  lemma {:induction false} DepthShape(o: Oracles, cfg: Config, run: Run, parent: Tree)
    requires parent.layer < cfg.maxLayer
    decreases cfg.maxLayer - parent.layer, 0, 0
    ensures GrownUnder(DepthChild(o, cfg, run, parent).children, parent, cfg.maxLayer)
  {
    if CanAddNode(Manager(cfg, run), parent.layer + 1) {
      var a := Admit(o, cfg, run, parent, DepthId(parent.id), FollowUp(o, parent), EngineController.Breadth);
      if a.child.Some? {
        var c := a.child.value;
        ExpandShape(o, cfg, Counted(a.run), c);
        var grown := Expand(o, cfg, Counted(a.run), c);
        Attached(c, grown.children, cfg.maxLayer);
        assert DepthChild(o, cfg, run, parent).children == [c.(children := grown.children)];
        GrownOne(c.(children := grown.children), parent, cfg.maxLayer);
      }
    }
  }

  // -----------------------------------------------------------------------
  // What reaches the summary store

  /** With validation disabled the walk never touches the summary store:
      `store_node_summary` is only reached through `_validate_node`. */
  lemma {:induction false} ExpandStoresNothing(o: Oracles, cfg: Config, run: Run, node: Tree)
    requires !cfg.validation
    decreases cfg.maxLayer - node.layer, 1, 0
    ensures var g := Expand(o, cfg, run, node);
      g.run.store == run.store && g.run.stored == run.stored
  {
    if node.layer < cfg.maxLayer && CanAddNode(Manager(cfg, run), node.layer) && node.kind != EngineController.Complete {
      if node.kind == EngineController.Breadth {
        BreadthStoresNothing(o, cfg, run, node, Aspects(o, node), 0);
      } else if node.kind == EngineController.Depth {
        DepthStoresNothing(o, cfg, run, node);
      }
    }
  }

  lemma {:induction false} BreadthStoresNothing(o: Oracles, cfg: Config, run: Run, parent: Tree,
                                                aspects: seq<BreadthEngine.Aspect>, i: nat)
    requires !cfg.validation && parent.layer < cfg.maxLayer
    decreases cfg.maxLayer - parent.layer, 0, |aspects| - i
    ensures var g := BreadthChildren(o, cfg, run, parent, aspects, i);
      g.run.store == run.store && g.run.stored == run.stored
  {
    if i < |aspects| && CanAddNode(Manager(cfg, run), parent.layer + 1) {
      var a := Admit(o, cfg, run, parent, BreadthId(parent.id, i + 1), aspects[i].query, EngineController.Depth);
      var grown := Expand(o, cfg, Counted(a.run), a.child.value);
      ExpandStoresNothing(o, cfg, Counted(a.run), a.child.value);
      BreadthStoresNothing(o, cfg, grown.run, parent, aspects, i + 1);
    }
  }

  lemma {:induction false} DepthStoresNothing(o: Oracles, cfg: Config, run: Run, parent: Tree)
    requires !cfg.validation && parent.layer < cfg.maxLayer
    decreases cfg.maxLayer - parent.layer, 0, 0
    ensures var g := DepthChild(o, cfg, run, parent);
      g.run.store == run.store && g.run.stored == run.stored
  {
    if CanAddNode(Manager(cfg, run), parent.layer + 1) {
      var a := Admit(o, cfg, run, parent, DepthId(parent.id), FollowUp(o, parent), EngineController.Breadth);
      ExpandStoresNothing(o, cfg, Counted(a.run), a.child.value);
    }
  }

  /** `id` names a node strictly below the node named `ancestor`. */
  predicate Below(id: string, ancestor: string) {
    |ancestor| < |id| && id[..|ancestor|] == ancestor
  }

  lemma BelowTrans(x: string, y: string, z: string)
    requires Below(x, y) && Below(y, z)
    ensures Below(x, z)
  {
    assert x[..|z|] == x[..|y|][..|z|];
  }

  /** A record handed to the store carries the verdict it was given. */
  predicate Marked(d: NodeData) {
    d.Generated? ==> d.validationStatus == Some(Valid) || d.validationStatus == Some(Invalid)
  }

  /** `after` extends `before` with records of nodes below `id` only, each
      marked VALID or INVALID. */
  predicate StoredBelow(before: seq<NodeData>, after: seq<NodeData>, id: string) {
    && |before| <= |after| && after[..|before|] == before
    && forall k :: |before| <= k < |after| ==> Below(after[k].nodeId, id) && Marked(after[k])
  }

  lemma StoredBelowTrans(a: seq<NodeData>, b: seq<NodeData>, c: seq<NodeData>, id: string)
    requires StoredBelow(a, b, id) && StoredBelow(b, c, id)
    ensures StoredBelow(a, c, id)
  {
    assert c[..|a|] == c[..|b|][..|a|];
    forall k | |a| <= k < |c| ensures Below(c[k].nodeId, id) && Marked(c[k]) {
      if k < |b| {
        assert c[k] == c[..|b|][k];
      }
    }
  }

  lemma StoredBelowLift(a: seq<NodeData>, b: seq<NodeData>, child: string, id: string)
    requires StoredBelow(a, b, child) && Below(child, id)
    ensures StoredBelow(a, b, id)
  {
    forall k | |a| <= k < |b| ensures Below(b[k].nodeId, id) {
      BelowTrans(b[k].nodeId, child, id);
    }
  }

  lemma BreadthIdBelow(parent: string, position: nat)
    ensures Below(BreadthId(parent, position), parent)
  {
    assert BreadthId(parent, position)[..|parent|] == parent;
  }

  lemma DepthIdBelow(parent: string)
    ensures Below(DepthId(parent), parent)
  {
    assert DepthId(parent)[..|parent|] == parent;
  }

  /** One admission stores at most the new node, marked, and keeps the
      store consistent. */
  lemma AdmitStores(o: Oracles, cfg: Config, run: Run, parent: Tree, id: string, query: string, kind: string)
    requires Below(id, parent.id)
    ensures var a := Admit(o, cfg, run, parent, id, query, kind);
      && StoredBelow(run.stored, a.run.stored, parent.id)
      && (SummaryManager.Consistent(run.store) ==> SummaryManager.Consistent(a.run.store))
  {
    var a := Admit(o, cfg, run, parent, id, query, kind);
    if cfg.validation {
      var d := ValidateNode(o, true, Generate(o, id, parent.layer + 1, query, kind, 0)).stored;
      assert a.run.stored == run.stored + [d];
      assert a.run.stored[..|run.stored|] == run.stored;
      if SummaryManager.Consistent(run.store) {
        StoreKeepsConsistent(run.store, d, run.clock);
      }
    } else {
      assert a.run.stored[..|run.stored|] == run.stored;
    }
  }

  /** With validation enabled, every record the walk below `node` hands to
      the store is one of the nodes it built below `node`, marked VALID or
      INVALID; the store stays consistent throughout. */
  lemma {:induction false} ExpandStores(o: Oracles, cfg: Config, run: Run, node: Tree)
    decreases cfg.maxLayer - node.layer, 1, 0
    ensures var g := Expand(o, cfg, run, node);
      && StoredBelow(run.stored, g.run.stored, node.id)
      && (SummaryManager.Consistent(run.store) ==> SummaryManager.Consistent(g.run.store))
  {
    if node.layer < cfg.maxLayer && CanAddNode(Manager(cfg, run), node.layer) && node.kind != EngineController.Complete {
      if node.kind == EngineController.Breadth {
        BreadthStores(o, cfg, run, node, Aspects(o, node), 0);
      } else if node.kind == EngineController.Depth {
        DepthStores(o, cfg, run, node);
      }
    } else {
      assert run.stored[..|run.stored|] == run.stored;
    }
  }

  lemma {:induction false} BreadthStores(o: Oracles, cfg: Config, run: Run, parent: Tree,
                                         aspects: seq<BreadthEngine.Aspect>, i: nat)
    requires parent.layer < cfg.maxLayer
    decreases cfg.maxLayer - parent.layer, 0, |aspects| - i
    ensures var g := BreadthChildren(o, cfg, run, parent, aspects, i);
      && StoredBelow(run.stored, g.run.stored, parent.id)
      && (SummaryManager.Consistent(run.store) ==> SummaryManager.Consistent(g.run.store))
  {
    if i < |aspects| && CanAddNode(Manager(cfg, run), parent.layer + 1) {
      var id := BreadthId(parent.id, i + 1);
      BreadthIdBelow(parent.id, i + 1);
      var a := Admit(o, cfg, run, parent, id, aspects[i].query, EngineController.Depth);
      AdmitStores(o, cfg, run, parent, id, aspects[i].query, EngineController.Depth);
      if a.child.None? {
        BreadthStores(o, cfg, a.run, parent, aspects, i + 1);
        StoredBelowTrans(run.stored, a.run.stored, BreadthChildren(o, cfg, a.run, parent, aspects, i + 1).run.stored, parent.id);
      } else {
        var grown := Expand(o, cfg, Counted(a.run), a.child.value);
        ExpandStores(o, cfg, Counted(a.run), a.child.value);
        StoredBelowLift(a.run.stored, grown.run.stored, id, parent.id);
        BreadthStores(o, cfg, grown.run, parent, aspects, i + 1);
        StoredBelowTrans(run.stored, a.run.stored, grown.run.stored, parent.id);
        StoredBelowTrans(run.stored, grown.run.stored, BreadthChildren(o, cfg, grown.run, parent, aspects, i + 1).run.stored, parent.id);
      }
    } else {
      assert run.stored[..|run.stored|] == run.stored;
    }
  }

  lemma {:induction false} DepthStores(o: Oracles, cfg: Config, run: Run, parent: Tree)
    requires parent.layer < cfg.maxLayer
    decreases cfg.maxLayer - parent.layer, 0, 0
    ensures var g := DepthChild(o, cfg, run, parent);
      && StoredBelow(run.stored, g.run.stored, parent.id)
      && (SummaryManager.Consistent(run.store) ==> SummaryManager.Consistent(g.run.store))
  {
    if CanAddNode(Manager(cfg, run), parent.layer + 1) {
      var id := DepthId(parent.id);
      DepthIdBelow(parent.id);
      var a := Admit(o, cfg, run, parent, id, FollowUp(o, parent), EngineController.Breadth);
      AdmitStores(o, cfg, run, parent, id, FollowUp(o, parent), EngineController.Breadth);
      if a.child.Some? {
        var grown := Expand(o, cfg, Counted(a.run), a.child.value);
        ExpandStores(o, cfg, Counted(a.run), a.child.value);
        StoredBelowLift(a.run.stored, grown.run.stored, id, parent.id);
        StoredBelowTrans(run.stored, a.run.stored, grown.run.stored, parent.id);
      }
    } else {
      assert run.stored[..|run.stored|] == run.stored;
    }
  }

  // -----------------------------------------------------------------------
  // Dispatch by decision

  /** `cs` are the breadth children of `parentId` for the aspects after
      position `from`: each named after its 1-based aspect position and
      querying that aspect, in aspect order. */
  predicate Labelled(cs: seq<Tree>, ps: seq<nat>, parentId: string, aspects: seq<BreadthEngine.Aspect>, from: nat) {
    && |ps| == |cs|
    && (forall j :: 0 <= j < |cs| ==> from < ps[j] <= |aspects| && cs[j].id == BreadthId(parentId, ps[j])
                                        && cs[j].query == aspects[ps[j] - 1].query)
    && (forall j1, j2 :: 0 <= j1 < j2 < |ps| ==> ps[j1] < ps[j2])
  }

  /** Some numbering of `cs` by aspect positions exists. */
  ghost predicate InAspectOrder(cs: seq<Tree>, parentId: string, aspects: seq<BreadthEngine.Aspect>, from: nat) {
    exists ps :: Labelled(cs, ps, parentId, aspects, from)
  }

  lemma LabelledCons(c: Tree, cs: seq<Tree>, p: nat, ps: seq<nat>, parentId: string,
                     aspects: seq<BreadthEngine.Aspect>, from: nat)
    requires from < p <= |aspects| && c.id == BreadthId(parentId, p) && c.query == aspects[p - 1].query
    requires Labelled(cs, ps, parentId, aspects, p)
    ensures Labelled([c] + cs, [p] + ps, parentId, aspects, from)
  {
    var cs', ps' := [c] + cs, [p] + ps;
    assert forall j :: 0 <= j < |cs'| ==>
      (from < ps'[j] <= |aspects| && cs'[j].id == BreadthId(parentId, ps'[j]) && cs'[j].query == aspects[ps'[j] - 1].query) by {
      forall j | 0 <= j < |cs'| ensures from < ps'[j] <= |aspects| && cs'[j].id == BreadthId(parentId, ps'[j])
                                        && cs'[j].query == aspects[ps'[j] - 1].query {
        if j > 0 {
          assert cs'[j] == cs[j - 1] && ps'[j] == ps[j - 1];
        }
      }
    }
    assert forall j1, j2 :: 0 <= j1 < j2 < |ps'| ==> ps'[j1] < ps'[j2] by {
      forall j1, j2 | 0 <= j1 < j2 < |ps'| ensures ps'[j1] < ps'[j2] {
        assert ps'[j2] == ps[j2 - 1];
        if j1 > 0 {
          assert ps'[j1] == ps[j1 - 1];
        }
      }
    }
  }

  lemma LabelledLater(cs: seq<Tree>, ps: seq<nat>, parentId: string, aspects: seq<BreadthEngine.Aspect>, from: nat)
    requires Labelled(cs, ps, parentId, aspects, from + 1)
    ensures Labelled(cs, ps, parentId, aspects, from)
  {
  }

  /** The breadth loop builds its children in aspect order, named after
      their 1-based aspect positions (skipped aspects keep their number). */
  lemma {:induction false} BreadthOrder(o: Oracles, cfg: Config, run: Run, parent: Tree,
                                        aspects: seq<BreadthEngine.Aspect>, i: nat)
    requires parent.layer < cfg.maxLayer
    decreases |aspects| - i
    ensures InAspectOrder(BreadthChildren(o, cfg, run, parent, aspects, i).children, parent.id, aspects, i)
  {
    var g := BreadthChildren(o, cfg, run, parent, aspects, i);
    if i < |aspects| && CanAddNode(Manager(cfg, run), parent.layer + 1) {
      var id := BreadthId(parent.id, i + 1);
      var a := Admit(o, cfg, run, parent, id, aspects[i].query, EngineController.Depth);
      if a.child.None? {
        BreadthOrder(o, cfg, a.run, parent, aspects, i + 1);
        var ps :| Labelled(g.children, ps, parent.id, aspects, i + 1);
        LabelledLater(g.children, ps, parent.id, aspects, i);
      } else {
        var grown := Expand(o, cfg, Counted(a.run), a.child.value);
        var rest := BreadthChildren(o, cfg, grown.run, parent, aspects, i + 1);
        BreadthOrder(o, cfg, grown.run, parent, aspects, i + 1);
        var ps :| Labelled(rest.children, ps, parent.id, aspects, i + 1);
        LabelledCons(a.child.value.(children := grown.children), rest.children, i + 1, ps, parent.id, aspects, i);
      }
    } else {
      assert Labelled(g.children, [], parent.id, aspects, i);
    }
  }

  /** Without validation, the breadth loop only stops early when the node
      budget is used up: a run that ends below `max_nodes` built one child
      per remaining aspect. */
  lemma {:induction false} BreadthExhausts(o: Oracles, cfg: Config, run: Run, parent: Tree,
                                           aspects: seq<BreadthEngine.Aspect>, i: nat)
    requires parent.layer < cfg.maxLayer && i <= |aspects|
    decreases |aspects| - i
    ensures var g := BreadthChildren(o, cfg, run, parent, aspects, i);
      !cfg.validation && g.run.nodes < cfg.maxNodes ==> |g.children| == |aspects| - i
  {
    var g := BreadthChildren(o, cfg, run, parent, aspects, i);
    if i < |aspects| && !cfg.validation {
      if CanAddNode(Manager(cfg, run), parent.layer + 1) {
        var a := Admit(o, cfg, run, parent, BreadthId(parent.id, i + 1), aspects[i].query, EngineController.Depth);
        assert a.child.Some?;
        var grown := Expand(o, cfg, Counted(a.run), a.child.value);
        var rest := BreadthChildren(o, cfg, grown.run, parent, aspects, i + 1);
        assert g == Grown(rest.run, [a.child.value.(children := grown.children)] + rest.children);
        BreadthExhausts(o, cfg, grown.run, parent, aspects, i + 1);
      } else {
        assert g.run == run;
      }
    }
  }

  /** What `_process_node_children` does with each decision. Nothing below
      the layer limit; COMPLETE and any unknown type (such as the root's
      "ROOT" fallback) build nothing; DEPTH builds at most the one
      `_depth_1` child for the follow-up question, and exactly that one when
      validation is off and the run ends below `max_nodes`. */
  lemma ExpandDispatch(o: Oracles, cfg: Config, run: Run, node: Tree)
    ensures var g := Expand(o, cfg, run, node);
      && (node.layer >= cfg.maxLayer ==> g == Grown(run, []))
      && (node.kind == EngineController.Complete ==> g == Grown(run, []))
      && (node.kind != EngineController.Breadth && node.kind != EngineController.Depth ==> g == Grown(run, []))
      && (node.kind == EngineController.Depth ==>
            && |g.children| <= 1
            && (forall c :: c in g.children ==> c.id == DepthId(node.id) && c.query == FollowUp(o, node))
            && (node.layer < cfg.maxLayer && !cfg.validation && g.run.nodes < cfg.maxNodes ==> |g.children| == 1))
  {
  }

  /** What `_process_node_children` does with a BREADTH decision: children
      in aspect order named after their positions, one per aspect when
      validation is off and the run ends below `max_nodes`. */
  lemma ExpandBreadth(o: Oracles, cfg: Config, run: Run, node: Tree)
    requires node.kind == EngineController.Breadth
    ensures var g := Expand(o, cfg, run, node);
      && InAspectOrder(g.children, node.id, Aspects(o, node), 0)
      && (node.layer < cfg.maxLayer && !cfg.validation && g.run.nodes < cfg.maxNodes ==> |g.children| == |Aspects(o, node)|)
  {
    var g := Expand(o, cfg, run, node);
    var aspects := Aspects(o, node);
    if node.layer < cfg.maxLayer && CanAddNode(Manager(cfg, run), node.layer) {
      var b := BreadthChildren(o, cfg, run, node, aspects, 0);
      assert g == b;
      assert InAspectOrder(b.children, node.id, aspects, 0) by {
        BreadthOrder(o, cfg, run, node, aspects, 0);
      }
      assert !cfg.validation && b.run.nodes < cfg.maxNodes ==> |b.children| == |aspects| by {
        BreadthExhausts(o, cfg, run, node, aspects, 0);
      }
    } else {
      assert g == Grown(run, []);
      assert Labelled(g.children, [], node.id, aspects, 0);
    }
  }

  // -----------------------------------------------------------------------
  // The analysis run (steps 3-6 of `process_query`)

  const RootKind := "ROOT"

  function RootId(analysisId: string): string {
    analysisId + "_root"
  }

  /** One analysis: the tree, the state after it, and the visualisation. */
  datatype Outcome = Outcome(root: Tree, run: Run, viz: VizData)

  /** From the reset to the visualisation: a fresh analysis record, the
      root generated at layer 1 from the optimised query (never validated,
      never stored), typed by the controller with "ROOT" as fallback,
      counted once, then grown and added to the visualisation. The query
      strings are those a dictionary-shaped optimisation result gives; an
      optimisation result that is not a dictionary, or a non-string
      optimised query, ends the run in the failure record instead, which
      this function does not model. The final response after it reads the
      store. */
  function Analyze(o: Oracles, cfg: Config, store: SummaryManager.Store, clock: nat,
                   analysisId: string, optimized: string, original: string): Outcome
  {
    var id := RootId(analysisId);
    var data := Generate(o, id, 1, optimized, RootKind, 0);
    var root := Tree(id, Decide(o, id, 1, cfg.maxLayer, RootKind), 1, optimized, SummaryText(data), None, Some(original), []);
    var start := Run(1, SummaryManager.StartNewAnalysis(store, analysisId, clock), clock + 1, []);
    var grown := Expand(o, cfg, start, root);
    var tree := root.(children := grown.children);
    Outcome(tree, grown.run, AddToVisualization(Viz.Empty, tree))
  }

  /** The run's node count is the number of nodes in the tree and never
      passes `max(max_nodes, 1)`; every node sits one layer below its
      parent and within `max_layer`; the root is never stored, and nothing
      is stored at all unless validation is enabled; the store stays
      consistent. */
  lemma AnalyzeFacts(o: Oracles, cfg: Config, store: SummaryManager.Store, clock: nat,
                     analysisId: string, optimized: string, original: string)
    ensures var a := Analyze(o, cfg, store, clock, analysisId, optimized, original);
      && a.root.id == RootId(analysisId) && a.root.layer == 1 && a.root.parent == None
      && a.run.nodes == Size(a.root)
      && a.run.nodes <= Max(1, cfg.maxNodes)
      && WellFormed(a.root, cfg.maxLayer)
      && (forall k :: 0 <= k < |a.run.stored| ==> a.run.stored[k].nodeId != RootId(analysisId))
      && (!cfg.validation ==> a.run.stored == [] && a.run.store == SummaryManager.StartNewAnalysis(store, analysisId, clock))
      && (SummaryManager.Consistent(store) ==> SummaryManager.Consistent(a.run.store))
  {
    var a := Analyze(o, cfg, store, clock, analysisId, optimized, original);
    var id := RootId(analysisId);
    var data := Generate(o, id, 1, optimized, RootKind, 0);
    var root := Tree(id, Decide(o, id, 1, cfg.maxLayer, RootKind), 1, optimized, SummaryText(data), None, Some(original), []);
    var start := Run(1, SummaryManager.StartNewAnalysis(store, analysisId, clock), clock + 1, []);
    var grown := Expand(o, cfg, start, root);
    ExpandCounts(o, cfg, start, root);
    ExpandShape(o, cfg, start, root);
    Attached(root, grown.children, cfg.maxLayer);
    ExpandStores(o, cfg, start, root);
    if !cfg.validation {
      ExpandStoresNothing(o, cfg, start, root);
    }
    if SummaryManager.Consistent(store) {
      SummaryManager.StartKeepsConsistent(store, analysisId, clock);
    }
    assert a.root == root.(children := grown.children) && a.run == grown.run;
  }

  // -----------------------------------------------------------------------
  // _get_max_depth

  /** `_get_max_depth(node)`: a leaf's own layer, otherwise the largest
      value over the children. */
  function MaxDepth(t: Tree): int
    decreases t, 1
  {
    if |t.children| == 0 then t.layer else MaxDepthAll(t.children)
  }

  function MaxDepthAll(ts: seq<Tree>): int
    requires |ts| > 0
    decreases ts, 0
  {
    if |ts| == 1 then MaxDepth(ts[0]) else Max(MaxDepth(ts[0]), MaxDepthAll(ts[1..]))
  }

  /** Some node of `t` sits at layer `l`. */
  ghost predicate Reaches(t: Tree, l: int)
    decreases t
  {
    t.layer == l || exists k :: 0 <= k < |t.children| && Reaches(t.children[k], l)
  }

  /** No node of `t` sits below layer `l`. */
  predicate AllAtMost(t: Tree, l: int)
    decreases t
  {
    t.layer <= l && forall k :: 0 <= k < |t.children| ==> AllAtMost(t.children[k], l)
  }

  lemma {:induction false} AllAtMostMono(t: Tree, l: int, m: int)
    requires AllAtMost(t, l) && l <= m
    decreases t
    ensures AllAtMost(t, m)
  {
    forall k | 0 <= k < |t.children| ensures AllAtMost(t.children[k], m) {
      AllAtMostMono(t.children[k], l, m);
    }
  }

  /** In a well-formed tree `_get_max_depth` is the deepest layer: some
      node reaches it and none goes below it. */
  lemma {:induction false} MaxDepthDeepest(t: Tree, maxLayer: int)
    requires WellFormed(t, maxLayer)
    decreases t, 1
    ensures Reaches(t, MaxDepth(t)) && AllAtMost(t, MaxDepth(t))
  {
    if |t.children| > 0 {
      MaxDepthAllDeepest(t.children, t, maxLayer);
      var k :| 0 <= k < |t.children| && Reaches(t.children[k], MaxDepth(t));
      assert AllAtMost(t.children[k], MaxDepth(t));
    }
  }

  lemma {:induction false} MaxDepthAllDeepest(ts: seq<Tree>, parent: Tree, maxLayer: int)
    requires |ts| > 0
    requires forall k :: 0 <= k < |ts| ==> ChildOf(ts[k], parent, maxLayer) && WellFormed(ts[k], maxLayer)
    decreases ts, 0
    ensures exists k :: 0 <= k < |ts| && Reaches(ts[k], MaxDepthAll(ts))
    ensures forall k :: 0 <= k < |ts| ==> AllAtMost(ts[k], MaxDepthAll(ts))
  {
    var m := MaxDepthAll(ts);
    MaxDepthDeepest(ts[0], maxLayer);
    if |ts| == 1 {
      assert Reaches(ts[0], m);
    } else {
      MaxDepthAllDeepest(ts[1..], parent, maxLayer);
      AllAtMostMono(ts[0], MaxDepth(ts[0]), m);
      forall k | 1 <= k < |ts| ensures AllAtMost(ts[k], m) {
        assert ts[k] == ts[1..][k - 1];
        AllAtMostMono(ts[k], MaxDepthAll(ts[1..]), m);
      }
      if MaxDepth(ts[0]) >= MaxDepthAll(ts[1..]) {
        assert Reaches(ts[0], m);
      } else {
        var j :| 0 <= j < |ts[1..]| && Reaches(ts[1..][j], m);
        assert Reaches(ts[j + 1], m);
      }
    }
  }

  /** Hence a well-formed tree rooted within the limit reports a depth
      within the limit, and at least its root's layer. */
  lemma MaxDepthWithin(t: Tree, maxLayer: int)
    requires WellFormed(t, maxLayer) && t.layer <= maxLayer
    ensures t.layer <= MaxDepth(t) <= maxLayer
  {
    MaxDepthDeepest(t, maxLayer);
    ReachesWithin(t, MaxDepth(t), maxLayer);
  }

  lemma {:induction false} ReachesWithin(t: Tree, l: int, maxLayer: int)
    requires WellFormed(t, maxLayer) && t.layer <= maxLayer && Reaches(t, l)
    decreases t
    ensures t.layer <= l <= maxLayer
  {
    if t.layer != l {
      var k :| 0 <= k < |t.children| && Reaches(t.children[k], l);
      ReachesWithin(t.children[k], l, maxLayer);
    }
  }

  // -----------------------------------------------------------------------
  // _add_to_visualization

  /** The node entry for a tree node; only a ROOT-typed node carries
      `original_query`. */
  function EntryOf(t: Tree): VizNode {
    VizNode(Some(t.id), Some(t.kind), Some(t.layer), Some(t.query), Some(t.summary),
            if t.kind == RootKind then Some(match t.originalQuery case Some(q) => q case None => "") else None)
  }

  /** The edge from a node's parent, for a node with a `parent_id`. */
  function EdgeOf(t: Tree): Option<Edge> {
    match t.parent
    case Some(p) => Some(Edge(Some(p), Some(t.id), Some(t.kind)))
    case None => None
  }

  /** The position of the first entry carrying this `node_id`. */
  function FirstWithId(nodes: seq<VizNode>, id: Option<string>): (r: Option<nat>)
    ensures r.Some? ==> r.value < |nodes| && nodes[r.value].nodeId == id
    ensures r.None? ==> forall i :: 0 <= i < |nodes| ==> nodes[i].nodeId != id
  {
    if |nodes| == 0 then None
    else if nodes[0].nodeId == id then Some(0)
    else match FirstWithId(nodes[1..], id)
      case Some(i) => Some(i + 1)
      case None => None
  }

  /** Replace the first entry with the same `node_id`, or append. */
  function Upsert(nodes: seq<VizNode>, n: VizNode): seq<VizNode> {
    match FirstWithId(nodes, n.nodeId)
    case Some(i) => nodes[i := n]
    case None => nodes + [n]
  }

  /** Append an edge unless an equal one is already there. */
  function AddEdge(edges: seq<Edge>, e: Edge): seq<Edge> {
    if e in edges then edges else edges + [e]
  }

  /** `_add_to_visualization(node)`: the node's entry, its parent edge, then
      its children in order. */
  function AddToVisualization(viz: VizData, t: Tree): VizData
    decreases t, 1
  {
    var edges := match EdgeOf(t) case Some(e) => AddEdge(viz.edges, e) case None => viz.edges;
    AddAll(VizData(Upsert(viz.nodes, EntryOf(t)), edges), t.children)
  }

  function AddAll(viz: VizData, ts: seq<Tree>): VizData
    decreases ts, 0
  {
    if |ts| == 0 then viz else AddAll(AddToVisualization(viz, ts[0]), ts[1..])
  }

  /** The ids that have an entry. */
  function EntryIds(nodes: seq<VizNode>): set<Option<string>> {
    set i | 0 <= i < |nodes| :: nodes[i].nodeId
  }

  /** The ids of a tree's nodes. */
  function TreeIds(t: Tree): set<Option<string>>
    decreases t, 1
  {
    {Some(t.id)} + ForestIds(t.children)
  }

  function ForestIds(ts: seq<Tree>): set<Option<string>>
    decreases ts, 0
  {
    if |ts| == 0 then {} else TreeIds(ts[0]) + ForestIds(ts[1..])
  }

  /** The parent edges of a tree's nodes. */
  function TreeEdges(t: Tree): set<Edge>
    decreases t, 1
  {
    (match EdgeOf(t) case Some(e) => {e} case None => {}) + ForestEdges(t.children)
  }

  function ForestEdges(ts: seq<Tree>): set<Edge>
    decreases ts, 0
  {
    if |ts| == 0 then {} else TreeEdges(ts[0]) + ForestEdges(ts[1..])
  }

  /** One upsert adds the entry's id and keeps ids distinct. */
  lemma UpsertIds(nodes: seq<VizNode>, n: VizNode)
    requires DistinctIds(nodes)
    ensures EntryIds(Upsert(nodes, n)) == EntryIds(nodes) + {n.nodeId}
    ensures DistinctIds(Upsert(nodes, n))
    ensures |Upsert(nodes, n)| == |nodes| + (if n.nodeId in EntryIds(nodes) then 0 else 1)
  {
    var r := Upsert(nodes, n);
    match FirstWithId(nodes, n.nodeId)
    case Some(i) =>
      assert n.nodeId in EntryIds(nodes);
      forall x | x in EntryIds(nodes) ensures x in EntryIds(r) {
        var j :| 0 <= j < |nodes| && nodes[j].nodeId == x;
        assert r[j].nodeId == x;
      }
      forall x | x in EntryIds(r) ensures x in EntryIds(nodes) {
        var j :| 0 <= j < |r| && r[j].nodeId == x;
        assert nodes[j].nodeId == x;
      }
    case None =>
      assert n.nodeId !in EntryIds(nodes);
      forall x | x in EntryIds(nodes) ensures x in EntryIds(r) {
        var j :| 0 <= j < |nodes| && nodes[j].nodeId == x;
        assert r[j].nodeId == x;
      }
      assert r[|nodes|].nodeId == n.nodeId;
  }

  /** One added edge: the set grows by it and no edge repeats. */
  lemma AddEdgeSet(edges: seq<Edge>, e: Edge)
    requires NoRepeatedEdges(edges)
    ensures (set x | x in AddEdge(edges, e)) == (set x | x in edges) + {e}
    ensures NoRepeatedEdges(AddEdge(edges, e))
  {
  }

  /** Adding a tree records exactly its node ids and its parent edges, one
      entry per id and no edge twice. */
  lemma {:induction false} AddTreeRecords(viz: VizData, t: Tree)
    requires DistinctIds(viz.nodes) && NoRepeatedEdges(viz.edges)
    decreases t, 1
    ensures var r := AddToVisualization(viz, t);
      && DistinctIds(r.nodes) && NoRepeatedEdges(r.edges)
      && EntryIds(r.nodes) == EntryIds(viz.nodes) + TreeIds(t)
      && (set e | e in r.edges) == (set e | e in viz.edges) + TreeEdges(t)
  {
    UpsertIds(viz.nodes, EntryOf(t));
    var edges := match EdgeOf(t) case Some(e) => AddEdge(viz.edges, e) case None => viz.edges;
    if EdgeOf(t).Some? {
      AddEdgeSet(viz.edges, EdgeOf(t).value);
    }
    AddForestRecords(VizData(Upsert(viz.nodes, EntryOf(t)), edges), t.children);
  }

  lemma {:induction false} AddForestRecords(viz: VizData, ts: seq<Tree>)
    requires DistinctIds(viz.nodes) && NoRepeatedEdges(viz.edges)
    decreases ts, 0
    ensures var r := AddAll(viz, ts);
      && DistinctIds(r.nodes) && NoRepeatedEdges(r.edges)
      && EntryIds(r.nodes) == EntryIds(viz.nodes) + ForestIds(ts)
      && (set e | e in r.edges) == (set e | e in viz.edges) + ForestEdges(ts)
  {
    if |ts| > 0 {
      AddTreeRecords(viz, ts[0]);
      AddForestRecords(AddToVisualization(viz, ts[0]), ts[1..]);
    }
  }
}
