/** The in-memory graph that mirrors the store, and the mutation layer that writes
    to both (src/lib/graph.js). Nodes are kept in insertion order; edges are
    directed, kept in insertion order, and there is at most one edge per ordered
    (source, target) pair. */
module Graph {
  import opened Util
  import opened Records
  import opened Store

  /** A graph node's attributes: the stored record (whose `kind` is the
      `nodeType` attribute) plus the derived display attributes. */
  datatype GraphNode = GraphNode(data: Node, displayLabel: string, size: real, color: string)

  /** A graph edge: its structural endpoints, the relationship record kept as its
      attributes, and the derived display attributes. */
  datatype GraphEdge = GraphEdge(src: string, dst: string, rel: Relationship, size: real, color: string)

  datatype GraphState = GraphState(nodes: map<string, GraphNode>, order: seq<string>, edges: seq<GraphEdge>)

  /** At most one edge joins an ordered pair (the graph is not a multigraph). */
  predicate PairsDistinct(es: seq<GraphEdge>) {
    forall i, j :: 0 <= i < j < |es| ==> es[i].src != es[j].src || es[i].dst != es[j].dst
  }

  /** The node order lists each node once, and each node is keyed by its id. */
  ghost predicate NodesIndexed(nodes: map<string, GraphNode>, order: seq<string>) {
    && NoDuplicates(order)
    && (forall id :: id in nodes <==> id in order)
    && (forall id :: id in nodes ==> nodes[id].data.id == id)
  }

  /** Both ends of every edge are nodes. */
  predicate EdgesAttached(nodes: map<string, GraphNode>, es: seq<GraphEdge>) {
    forall i :: 0 <= i < |es| ==> es[i].src in nodes && es[i].dst in nodes
  }

  ghost predicate WellFormed(g: GraphState) {
    NodesIndexed(g.nodes, g.order) && EdgesAttached(g.nodes, g.edges) && PairsDistinct(g.edges)
  }

  type Snapshot = g: GraphState | WellFormed(g) witness GraphState(map[], [], [])

  datatype GraphError = StoreFailure(cause: StoreError) | NodeNotFound(id: string)

  datatype Result<T> = Success(value: T) | Failure(error: GraphError)

  // ---------------------------------------------------------------------------
  // Colours and display attributes
  // ---------------------------------------------------------------------------

  const DefaultNodeColor := "#94a3b8"

  /** `getNodeColor`'s table in its declaration order, without its last entry
      (`default`), which the scan skips and which serves as the fallback. */
  const NodeColors: seq<(string, string)> := [
    ("tech", "#60a5fa"), ("finance", "#10b981"), ("ecommerce", "#f59e0b"),
    ("logistics", "#8b5cf6"), ("consulting", "#f472b6"), ("media", "#fb7185"),
    ("real estate", "#fb923c")]

  /** `getNodeColor`: the colour of the first key of the table that occurs in the
      lower-cased industry, slate when none does (NodeColorFirstMatch). */
  function NodeColor(n: Node): string {
    var ind := Lower(n.occupation.industry);
    var hit := FirstMatch(NodeColors, (k: string) => Contains(ind, k));
    if hit.Some? then hit.value else DefaultNodeColor
  }

  lemma NodeColorFirstMatch(n: Node)
    ensures var ind := Lower(n.occupation.industry);
      || (exists i :: 0 <= i < |NodeColors| && Contains(ind, NodeColors[i].0) && NodeColor(n) == NodeColors[i].1
                      && forall j :: 0 <= j < i ==> !Contains(ind, NodeColors[j].0))
      || (NodeColor(n) == DefaultNodeColor && forall i :: 0 <= i < |NodeColors| ==> !Contains(ind, NodeColors[i].0))
  {
    FirstMatchSpec(NodeColors, (k: string) => Contains(Lower(n.occupation.industry), k));
  }

  const DefaultEdgeColor := "#6b7280"

  const EdgeColors: map<string, string> := map[
    "friend" := "#10b981", "business" := "#3b82f6", "family" := "#f59e0b",
    "intro" := "#8b5cf6", "online-only" := DefaultEdgeColor]

  /** `getEdgeColor`: the colour of the relationship type, grey for any other type. */
  function EdgeColor(kind: string): (c: string)
    ensures kind in EdgeColors ==> c == EdgeColors[kind]
    ensures kind !in EdgeColors ==> c == DefaultEdgeColor
  {
    if kind in EdgeColors then EdgeColors[kind] else DefaultEdgeColor
  }

  function MaxReal(a: real, b: real): real {
    if a >= b then a else b
  }

  /** The attributes `addNode` gives a node: label `name || 'Unnamed'`, size
      `max(5, leverage / 10)`, colour from the industry. */
  function DecorateNode(n: Node): (g: GraphNode)
    ensures g.data == n && g.color == NodeColor(n)
    ensures g.displayLabel == (if n.name == "" then "Unnamed" else n.name)
    ensures g.size >= 5.0 && g.size >= n.leverageScore as real / 10.0
    ensures g.size == 5.0 || g.size == n.leverageScore as real / 10.0
  {
    GraphNode(n, OrText(Some(n.name), "Unnamed"), MaxReal(5.0, n.leverageScore as real / 10.0), NodeColor(n))
  }

  /** The attributes `loadGraph` gives a node: as `addNode`, but the label is the
      name even when it is empty. */
  function LoadedNode(n: Node): (g: GraphNode)
    ensures g == DecorateNode(n).(displayLabel := n.name)
  {
    GraphNode(n, n.name, MaxReal(5.0, n.leverageScore as real / 10.0), NodeColor(n))
  }

  /** An edge for `rel`: size `strength / 2`, colour from the type. */
  function DecorateEdge(rel: Relationship): (e: GraphEdge)
    ensures e.src == rel.source && e.dst == rel.target && e.rel == rel
    ensures e.size * 2.0 == rel.strength && e.color == EdgeColor(rel.kind)
  {
    GraphEdge(rel.source, rel.target, rel, rel.strength / 2.0, EdgeColor(rel.kind))
  }

  // ---------------------------------------------------------------------------
  // Records built from caller input
  // ---------------------------------------------------------------------------

  /** The record `addNode` stores: every missing (or falsy) field defaulted. */
  function BuildNode(input: NodeInput, freshId: string): (n: Node)
    ensures n.id == OrText(input.id, freshId)
    ensures n.kind == OrText(input.kind, "person")
    // a given text is kept (an empty one is its own default)
    ensures n.name == (if input.name.Some? then input.name.value else "")
    ensures n.email == (if input.email.Some? then input.email.value else "")
    ensures n.phone == (if input.phone.Some? then input.phone.value else "")
    ensures n.location == (if input.location.Some? then input.location.value else "")
    // a given object or array is kept, since any object is truthy
    ensures n.social == (if input.social.Some? then input.social.value else map[])
    ensures n.occupation == (if input.occupation.Some? then input.occupation.value else NoOccupation)
    ensures n.skills == (if input.skills.Some? then input.skills.value else [])
    ensures n.scores == (if input.scores.Some? then input.scores.value else ZeroScores)
    ensures n.leverageScore == (if input.leverageScore.Some? then input.leverageScore.value else 0)
    ensures n.notes == (if input.notes.Some? then input.notes.value else [])
    ensures n.lastInteraction == input.lastInteraction
    ensures n.metadata == (if input.metadata.Some? then input.metadata.value else map[])
  {
    Node(OrText(input.id, freshId), OrText(input.kind, "person"), OrText(input.name, ""),
         OrText(input.email, ""), OrText(input.phone, ""), OrText(input.location, ""),
         OrElse(input.social, map[]), OrElse(input.occupation, NoOccupation),
         OrElse(input.skills, []), OrElse(input.scores, ZeroScores),
         OrElse(input.leverageScore, 0), OrElse(input.notes, []), input.lastInteraction,
         OrElse(input.metadata, map[]))
  }

  /** `relData.strength || 5`: a missing, non-numeric or zero strength becomes 5. */
  function StrengthOr5(s: Option<real>): (r: real)
    ensures s.Some? && s.value != 0.0 ==> r == s.value
    ensures s.None? || s.value == 0.0 ==> r == 5.0
  {
    if s.Some? && s.value != 0.0 then s.value else 5.0
  }

  /** The record `addRelationship` stores; `now` is the creation time used when
      none is given. */
  function BuildRelationship(input: RelInput, freshId: string, now: int): (r: Relationship)
    ensures r.id == OrText(input.id, freshId)
    ensures r.source == input.source && r.target == input.target
    ensures r.kind == OrText(input.kind, "business")
    ensures r.strength == StrengthOr5(input.strength) && r.strength != 0.0
    ensures r.direction == OrText(input.direction, "bidirectional")
    ensures r.contextTags == OrElse(input.contextTags, [])
    ensures r.createdAt == OrElse(input.createdAt, now)
    ensures r.lastInteraction == input.lastInteraction
  {
    Relationship(OrText(input.id, freshId), input.source, input.target, OrText(input.kind, "business"),
                 StrengthOr5(input.strength), OrText(input.direction, "bidirectional"),
                 OrElse(input.contextTags, []), OrElse(input.createdAt, now), input.lastInteraction)
  }

  // ---------------------------------------------------------------------------
  // Reads
  // ---------------------------------------------------------------------------

  /** `getAllGraphNodes`: the node attributes in node insertion order. */
  function AllGraphNodes(g: Snapshot): (r: seq<GraphNode>)
    ensures |r| == |g.order|
    ensures forall i :: 0 <= i < |r| ==> r[i] == g.nodes[g.order[i]] && r[i].data.id == g.order[i]
  {
    seq(|g.order|, i requires 0 <= i < |g.order| => g.nodes[g.order[i]])
  }

  /** `getNodeData` (`getNodeAttributes` fails on an unknown id). */
  function GetNodeData(g: GraphState, id: string): (r: Option<GraphNode>)
    ensures r.Some? <==> id in g.nodes
    ensures r.Some? ==> r.value == g.nodes[id]
  {
    if id in g.nodes then Some(g.nodes[id]) else None
  }

  /** A relationship as `getRelationshipsForNode` reports it: the edge attributes
      and the attributes of its source, its target and its other end. */
  datatype RelView = RelView(edge: GraphEdge, sourceNode: GraphNode, targetNode: GraphNode, otherNode: GraphNode)

  /** The edges touching `id` in the order graphology lists them: the edges
      arriving at `id`, then those leaving it (a self-loop only once, with the
      arriving ones). */
  function IncidentEdges(es: seq<GraphEdge>, id: string): (r: seq<GraphEdge>)
    ensures forall e :: e in r <==> e in es && (e.src == id || e.dst == id)
  {
    Filter(es, (e: GraphEdge) => e.dst == id) + Filter(es, (e: GraphEdge) => e.src == id && e.dst != id)
  }

  function View(g: Snapshot, id: string, e: GraphEdge): (v: RelView)
    requires e in g.edges
  {
    var s := g.nodes[e.src];
    var t := g.nodes[e.dst];
    RelView(e, s, t, if e.src == id then t else s)
  }

  /** `getRelationshipsForNode`: `None` when the node is unknown (graphology
      throws); otherwise one view per incident edge, whose other end is the
      target when `id` is the source and the source otherwise. */
  function RelationshipsForNode(g: Snapshot, id: string): (r: Option<seq<RelView>>)
    ensures r.Some? <==> id in g.nodes
    ensures r.Some? ==> |r.value| == |IncidentEdges(g.edges, id)|
    ensures r.Some? ==> forall i :: 0 <= i < |r.value| ==>
      var v := r.value[i];
      && v.edge == IncidentEdges(g.edges, id)[i] && v.edge in g.edges
      && v.sourceNode == g.nodes[v.edge.src] && v.targetNode == g.nodes[v.edge.dst]
      && (v.edge.src == id || v.edge.dst == id)
      && v.otherNode == g.nodes[if v.edge.src == id then v.edge.dst else v.edge.src]
  {
    if id !in g.nodes then None
    else
      var es := IncidentEdges(g.edges, id);
      Some(seq(|es|, i requires 0 <= i < |es| => View(g, id, es[i])))
  }

  /** Edges of `es` joining `source` to `target`, as `graph.edge(source, target)`
      finds them. */
  function EdgeBetween(es: seq<GraphEdge>, source: string, target: string): (r: Option<nat>)
    ensures r.None? <==> forall i :: 0 <= i < |es| ==> es[i].src != source || es[i].dst != target
    ensures r.Some? ==> r.value < |es| && es[r.value].src == source && es[r.value].dst == target
  {
    FirstIndex(es, (e: GraphEdge) => e.src == source && e.dst == target)
  }

  /** The first edge whose relationship `id` attribute is `id`. */
  function EdgeWithId(es: seq<GraphEdge>, id: string): (r: Option<nat>)
    ensures r.None? <==> forall i :: 0 <= i < |es| ==> es[i].rel.id != id
    ensures r.Some? ==> r.value < |es| && es[r.value].rel.id == id
    ensures r.Some? ==> forall j :: 0 <= j < r.value ==> es[j].rel.id != id
  {
    FirstIndex(es, (e: GraphEdge) => e.rel.id == id)
  }

  // ---------------------------------------------------------------------------
  // Loading
  // ---------------------------------------------------------------------------

  /** The edges `loadGraph` builds from the stored relationships in listing
      order: a relationship becomes an edge when both ends are nodes and no edge
      joins the same ordered pair yet. */
  function LoadEdges(rs: seq<Relationship>, nodes: map<string, GraphNode>): (es: seq<GraphEdge>)
    ensures PairsDistinct(es)
    ensures forall i :: 0 <= i < |es| ==> es[i].src in nodes && es[i].dst in nodes
    ensures forall i :: 0 <= i < |es| ==> es[i] == DecorateEdge(es[i].rel) && es[i].rel in rs
  {
    if rs == [] then []
    else
      var prev := LoadEdges(rs[..|rs| - 1], nodes);
      var rel := rs[|rs| - 1];
      if rel.source in nodes && rel.target in nodes && EdgeBetween(prev, rel.source, rel.target).None? then
        prev + [DecorateEdge(rel)]
      else prev
  }

  /** Every stored relationship whose ends are both nodes is represented: some
      loaded edge joins the same ordered pair. */
  lemma {:induction false} LoadEdgesCover(rs: seq<Relationship>, nodes: map<string, GraphNode>, rel: Relationship)
    requires rel in rs && rel.source in nodes && rel.target in nodes
    ensures EdgeBetween(LoadEdges(rs, nodes), rel.source, rel.target).Some?
  {
    var init := rs[..|rs| - 1];
    var prev := LoadEdges(init, nodes);
    if rel in init {
      LoadEdgesCover(init, nodes, rel);
      var k := EdgeBetween(prev, rel.source, rel.target).value;
      assert LoadEdges(rs, nodes)[k] == prev[k];
    } else {
      assert rel == rs[|rs| - 1];
      if EdgeBetween(prev, rel.source, rel.target).None? {
        assert LoadEdges(rs, nodes)[|prev|] == DecorateEdge(rel);
      } else {
        var k := EdgeBetween(prev, rel.source, rel.target).value;
        assert LoadEdges(rs, nodes)[k] == prev[k];
      }
    }
  }

  // ---------------------------------------------------------------------------
  // The module-level graph and its mutators
  // ---------------------------------------------------------------------------

  /** `addNode`'s effect on the graph: the node carries the attributes of
      `DecorateNode`, whether it is new (and then joins the end of the node
      order) or already there. */
  function PutNode(g: GraphState, n: Node): (r: GraphState)
    ensures GetNodeData(r, n.id) == Some(DecorateNode(n))
    ensures forall id :: id != n.id ==> GetNodeData(r, id) == GetNodeData(g, id)
    ensures r.edges == g.edges
    ensures n.id in g.nodes ==> r.order == g.order
    ensures n.id !in g.nodes ==> r.order == g.order + [n.id]
  {
    var order := if n.id in g.nodes then g.order else g.order + [n.id];
    GraphState(g.nodes[n.id := DecorateNode(n)], order, g.edges)
  }

  lemma PutNodeWellFormed(g: GraphState, n: Node)
    requires WellFormed(g)
    ensures WellFormed(PutNode(g, n))
  {
    var r := PutNode(g, n);
    PutNodeIndexed(g.nodes, g.order, n, r.nodes, r.order);
    assert EdgesAttached(r.nodes, r.edges) by {
      assert forall x :: x in g.nodes ==> x in r.nodes;
    }
  }

  lemma PutNodeIndexed(nodes: map<string, GraphNode>, order: seq<string>, n: Node,
                       nodes': map<string, GraphNode>, order': seq<string>)
    requires NodesIndexed(nodes, order)
    requires nodes' == nodes[n.id := DecorateNode(n)]
    requires order' == if n.id in nodes then order else order + [n.id]
    ensures NodesIndexed(nodes', order')
  {
    if n.id !in nodes {
      AppendFresh(order, n.id);
    }
  }

  /** Adding the same node twice is adding it once. */
  lemma PutNodeIdempotent(g: GraphState, n: Node)
    ensures PutNode(PutNode(g, n), n) == PutNode(g, n)
  {
  }

  /** `removeNode`'s effect on the graph (`dropNode`): the node leaves the node
      order and every edge touching it goes; the rest keeps its order. */
  function DropNode(g: GraphState, id: string): (r: GraphState)
    ensures id !in r.nodes && id !in r.order
    ensures forall x :: x != id ==> GetNodeData(r, x) == GetNodeData(g, x)
    ensures forall e :: e in r.edges <==> e in g.edges && e.src != id && e.dst != id
    ensures r.edges == Filter(g.edges, (e: GraphEdge) => e.src != id && e.dst != id)
  {
    GraphState(g.nodes - {id}, RemoveAll(g.order, id), Filter(g.edges, (e: GraphEdge) => e.src != id && e.dst != id))
  }

  lemma DropNodeWellFormed(g: GraphState, id: string)
    requires WellFormed(g)
    ensures WellFormed(DropNode(g, id))
  {
    var r := DropNode(g, id);
    forall x ensures x in r.nodes <==> x in r.order {
      if x != id {
        assert multiset(r.order)[x] == multiset(g.order)[x];
      }
    }
    forall i | 0 <= i < |r.edges| ensures r.edges[i].src in r.nodes && r.edges[i].dst in r.nodes {
      assert r.edges[i] in g.edges;
    }
    FilterPairsDistinct(g.edges, (e: GraphEdge) => e.src != id && e.dst != id);
  }

  /** Dropping edges keeps the ordered pairs distinct. */
  lemma {:induction false} FilterPairsDistinct(es: seq<GraphEdge>, p: GraphEdge -> bool)
    requires PairsDistinct(es)
    ensures PairsDistinct(Filter(es, p))
  {
    if es != [] {
      FilterPairsDistinct(es[1..], p);
      var rest := Filter(es[1..], p);
      forall j | 0 <= j < |rest| ensures es[0].src != rest[j].src || es[0].dst != rest[j].dst {
        assert rest[j] in es[1..];
        var k :| 0 <= k < |es[1..]| && es[1..][k] == rest[j];
        assert es[k + 1] == rest[j];
      }
    }
  }

  /** Adding a node that was not there and dropping it again restores the graph. */
  lemma PutThenDropNode(g: GraphState, n: Node)
    requires WellFormed(g) && n.id !in g.nodes
    ensures DropNode(PutNode(g, n), n.id) == g
  {
    MapPutRemove(g.nodes, n.id, DecorateNode(n));
    assert n.id !in g.order;
    RemoveAllAppended(g.order, n.id);
    FilterKeepsAll(g.edges, (e: GraphEdge) => e.src != n.id && e.dst != n.id);
  }

  /** The attributes `updateNodeData` leaves on a graph node: the patch merged
      into the node's own record (a patched `type` lands in a separate attribute,
      so the node type stays), label and colour from the patched stored record,
      and size `leverage / 10` with no lower bound. */
  function Refreshed(gn: GraphNode, stored: Node, p: NodePatch): (r: GraphNode)
    ensures r.data == MergeNode(gn.data, p.(kind := None)) && r.data.id == gn.data.id
    ensures r.displayLabel == MergeNode(stored, p).name
    ensures r.size * 10.0 == MergeNode(stored, p).leverageScore as real
    ensures r.color == NodeColor(MergeNode(stored, p))
  {
    var updated := MergeNode(stored, p);
    GraphNode(MergeNode(gn.data, p.(kind := None)), updated.name, updated.leverageScore as real / 10.0, NodeColor(updated))
  }

  /** `updateNodeData`'s effect on the graph: only node `id` changes. */
  function RefreshNode(g: GraphState, id: string, stored: Node, p: NodePatch): (r: GraphState)
    requires id in g.nodes
    ensures NodesIndexed(g.nodes, g.order) ==> NodesIndexed(r.nodes, r.order)
    ensures EdgesAttached(g.nodes, g.edges) ==> EdgesAttached(r.nodes, r.edges)
    ensures GetNodeData(r, id) == Some(Refreshed(g.nodes[id], stored, p))
    ensures forall x :: x != id ==> GetNodeData(r, x) == GetNodeData(g, x)
    ensures r.order == g.order && r.edges == g.edges
  {
    g.(nodes := g.nodes[id := Refreshed(g.nodes[id], stored, p)])
  }

  /** `addRelationship`'s effect on the graph once both ends are nodes: the edge
      joining the ordered pair takes the attributes of `rel` if there is one,
      otherwise a new edge is appended. */
  function PutEdge(g: GraphState, rel: Relationship): (r: GraphState)
    requires rel.source in g.nodes && rel.target in g.nodes
    ensures r.nodes == g.nodes && r.order == g.order
    ensures |g.edges| <= |r.edges| <= |g.edges| + 1
    ensures |r.edges| == |g.edges| + 1 <==> EdgeBetween(g.edges, rel.source, rel.target).None?
    ensures EdgeBetween(r.edges, rel.source, rel.target).Some?
    ensures r.edges[EdgeBetween(r.edges, rel.source, rel.target).value] == DecorateEdge(rel)
    ensures forall i :: 0 <= i < |g.edges| && (g.edges[i].src != rel.source || g.edges[i].dst != rel.target) ==>
      r.edges[i] == g.edges[i]
  {
    var k := EdgeBetween(g.edges, rel.source, rel.target);
    if k.Some? then
      var r := g.(edges := g.edges[k.value := DecorateEdge(rel)]);
      EdgeBetweenAt(r.edges, rel.source, rel.target, k.value);
      r
    else
      var r := g.(edges := g.edges + [DecorateEdge(rel)]);
      EdgeBetweenAt(r.edges, rel.source, rel.target, |g.edges|);
      r
  }

  /** The first edge joining the pair is the one `EdgeBetween` finds. */
  lemma EdgeBetweenAt(es: seq<GraphEdge>, source: string, target: string, k: nat)
    requires k < |es| && es[k].src == source && es[k].dst == target
    requires forall j :: 0 <= j < k ==> es[j].src != source || es[j].dst != target
    ensures EdgeBetween(es, source, target) == Some(k)
  {
  }

  lemma PutEdgeWellFormed(g: GraphState, rel: Relationship)
    requires WellFormed(g) && rel.source in g.nodes && rel.target in g.nodes
    ensures WellFormed(PutEdge(g, rel))
  {
    var k := EdgeBetween(g.edges, rel.source, rel.target);
    var e := DecorateEdge(rel);
    if k.Some? {
      assert PutEdge(g, rel).edges == g.edges[k.value := e];
      ReplaceAttached(g.nodes, g.edges, k.value, e);
      ReplacePairsDistinct(g.edges, k.value, e);
    } else {
      assert PutEdge(g, rel).edges == g.edges + [e];
      AppendAttached(g.nodes, g.edges, e);
      AppendPairsDistinct(g.edges, e);
    }
  }

  lemma ReplaceAttached(nodes: map<string, GraphNode>, es: seq<GraphEdge>, k: nat, e: GraphEdge)
    requires EdgesAttached(nodes, es) && k < |es| && e.src in nodes && e.dst in nodes
    ensures EdgesAttached(nodes, es[k := e])
  {
  }

  lemma ReplacePairsDistinct(es: seq<GraphEdge>, k: nat, e: GraphEdge)
    requires PairsDistinct(es) && k < |es| && e.src == es[k].src && e.dst == es[k].dst
    ensures PairsDistinct(es[k := e])
  {
  }

  lemma AppendAttached(nodes: map<string, GraphNode>, es: seq<GraphEdge>, e: GraphEdge)
    requires EdgesAttached(nodes, es) && e.src in nodes && e.dst in nodes
    ensures EdgesAttached(nodes, es + [e])
  {
  }

  lemma AppendPairsDistinct(es: seq<GraphEdge>, e: GraphEdge)
    requires PairsDistinct(es) && EdgeBetween(es, e.src, e.dst).None?
    ensures PairsDistinct(es + [e])
  {
    var r := es + [e];
    forall i, j | 0 <= i < j < |r| ensures r[i].src != r[j].src || r[i].dst != r[j].dst {
      assert r[i] == es[i];
      if j < |es| { assert r[j] == es[j]; }
    }
  }

  /** Adding the same relationship twice is adding it once. */
  lemma PutEdgeIdempotent(g: GraphState, rel: Relationship)
    requires rel.source in g.nodes && rel.target in g.nodes
    ensures PutEdge(PutEdge(g, rel), rel) == PutEdge(g, rel)
  {
    var once := PutEdge(g, rel);
    var k := EdgeBetween(once.edges, rel.source, rel.target).value;
    assert once.edges[k := DecorateEdge(rel)] == once.edges;
  }

  /** De-duplication is on the ordered pair: a relationship running the other
      way round beside an existing edge becomes a second edge. */
  lemma PutEdgeReversePair(g: GraphState, rel: Relationship)
    requires rel.source in g.nodes && rel.target in g.nodes
    requires EdgeBetween(g.edges, rel.target, rel.source).Some?
    requires EdgeBetween(g.edges, rel.source, rel.target).None?
    ensures |PutEdge(g, rel).edges| == |g.edges| + 1
  {
  }

  /** `removeRelationship`'s effect on the graph: the first edge whose `id`
      attribute is `id` goes, or nothing happens when none has it. */
  function RemoveEdgeWithId(g: GraphState, id: string): (r: GraphState)
    ensures r.nodes == g.nodes && r.order == g.order
    ensures EdgeWithId(g.edges, id).None? ==> r == g
    ensures EdgeWithId(g.edges, id).Some? ==>
      var k := EdgeWithId(g.edges, id).value;
      r.edges == g.edges[..k] + g.edges[k + 1..]
  {
    var k := EdgeWithId(g.edges, id);
    if k.None? then g else g.(edges := RemoveAt(g.edges, k.value))
  }

  lemma RemoveEdgeWellFormed(g: GraphState, id: string)
    requires WellFormed(g)
    ensures WellFormed(RemoveEdgeWithId(g, id))
  {
    var k := EdgeWithId(g.edges, id);
    if k.Some? {
      RemoveAtAttached(g.nodes, g.edges, k.value);
      RemoveAtPairsDistinct(g.edges, k.value);
    }
  }

  lemma RemoveAtAttached(nodes: map<string, GraphNode>, es: seq<GraphEdge>, k: nat)
    requires EdgesAttached(nodes, es) && k < |es|
    ensures EdgesAttached(nodes, es[..k] + es[k + 1..])
  {
    var r := es[..k] + es[k + 1..];
    forall i | 0 <= i < |r| ensures r[i].src in nodes && r[i].dst in nodes {
      if i >= k { assert r[i] == es[i + 1]; }
    }
  }

  lemma RemoveAtPairsDistinct(es: seq<GraphEdge>, k: nat)
    requires PairsDistinct(es) && k < |es|
    ensures PairsDistinct(es[..k] + es[k + 1..])
  {
    var r := es[..k] + es[k + 1..];
    forall i, j | 0 <= i < j < |r| ensures r[i].src != r[j].src || r[i].dst != r[j].dst {
      var i' := if i < k then i else i + 1;
      var j' := if j < k then j else j + 1;
      assert r[i] == es[i'] && r[j] == es[j'];
    }
  }

  /** Adding a relationship between a new ordered pair under an unused `id`
      and removing it by that `id` restores the graph. */
  lemma PutThenRemoveEdge(g: GraphState, rel: Relationship)
    requires rel.source in g.nodes && rel.target in g.nodes
    requires EdgeBetween(g.edges, rel.source, rel.target).None?
    requires EdgeWithId(g.edges, rel.id).None?
    ensures RemoveEdgeWithId(PutEdge(g, rel), rel.id) == g
  {
    var p := PutEdge(g, rel);
    assert p.edges == g.edges + [DecorateEdge(rel)];
    assert EdgeWithId(p.edges, rel.id) == Some(|g.edges|);
    assert p.edges[..|g.edges|] == g.edges;
  }

  /** The edge after `updateRelationshipData` patched it. */
  function PatchedEdge(e: GraphEdge, p: RelPatch): (r: GraphEdge)
    ensures r.src == e.src && r.dst == e.dst && r.rel == MergeRel(e.rel, p)
    ensures r.size * 2.0 == r.rel.strength && r.color == EdgeColor(r.rel.kind)
  {
    var updated := MergeRel(e.rel, p);
    GraphEdge(e.src, e.dst, updated, updated.strength / 2.0, EdgeColor(updated.kind))
  }

  /** `updateRelationshipData`'s effect on the graph: the first edge whose `id`
      attribute is `id` takes the patch; its ends do not move even when the
      patch names other ones. */
  function PatchEdgeWithId(g: GraphState, id: string, p: RelPatch): (r: GraphState)
    ensures WellFormed(g) ==> WellFormed(r)
    ensures r.nodes == g.nodes && r.order == g.order && |r.edges| == |g.edges|
    ensures EdgeWithId(g.edges, id).None? ==> r == g
    ensures EdgeWithId(g.edges, id).Some? ==>
      var k := EdgeWithId(g.edges, id).value;
      && r.edges[k] == PatchedEdge(g.edges[k], p)
      && forall i :: 0 <= i < |g.edges| && i != k ==> r.edges[i] == g.edges[i]
  {
    var k := EdgeWithId(g.edges, id);
    if k.None? then g
    else g.(edges := g.edges[k.value := PatchedEdge(g.edges[k.value], p)])
  }

  /** The graph nodes `loadGraph` makes of the stored nodes, keyed by id. */
  function LoadedNodes(stored: map<string, Node>): (m: map<string, GraphNode>)
    ensures m.Keys == stored.Keys
  {
    map id | id in stored :: LoadedNode(stored[id])
  }

  /** What the node pass of `loadGraph` has built after the first `i` nodes of
      `ns`: each of them is a graph node, in first-insertion order, carrying the
      attributes `want` gives its id. */
  ghost predicate NodePass(ns: seq<Node>, want: map<string, GraphNode>, i: int, m: map<string, GraphNode>, ids: seq<string>)
    requires 0 <= i <= |ns|
  {
    && NoDuplicates(ids)
    && (forall id :: id in m <==> id in ids)
    && (forall id :: id in m ==> id in want && m[id] == want[id])
    && (forall j :: 0 <= j < i ==> ns[j].id in m)
  }

  lemma NodePassKeep(ns: seq<Node>, want: map<string, GraphNode>, i: int, m: map<string, GraphNode>, ids: seq<string>)
    requires 0 <= i < |ns| && NodePass(ns, want, i, m, ids) && ns[i].id in m
    ensures NodePass(ns, want, i + 1, m, ids)
  {
  }

  lemma NodePassAdd(ns: seq<Node>, want: map<string, GraphNode>, i: int, m: map<string, GraphNode>, ids: seq<string>)
    requires 0 <= i < |ns| && NodePass(ns, want, i, m, ids) && ns[i].id !in m && ns[i].id in want
    ensures NodePass(ns, want, i + 1, m[ns[i].id := want[ns[i].id]], ids + [ns[i].id])
  {
    var n := ns[i];
    var ids' := ids + [n.id];
    assert forall id :: id in ids' <==> id in ids || id == n.id;
    assert NoDuplicates(ids') by {
      assert n.id !in ids;
    }
  }

  /** Once every node has passed and every wanted id is among them, the pass
      has built exactly what is wanted. */
  lemma NodePassDone(ns: seq<Node>, want: map<string, GraphNode>, m: map<string, GraphNode>, ids: seq<string>)
    requires NodePass(ns, want, |ns|, m, ids)
    requires forall id :: id in want ==> exists j :: 0 <= j < |ns| && ns[j].id == id
    ensures m == want
  {
    forall id | id in want ensures id in m {
      var j :| 0 <= j < |ns| && ns[j].id == id;
    }
  }

  class GraphIndex {
    const db: Database
    /** The graph instance of the module. */
    var graph: GraphState

    ghost predicate Valid()
      reads this, db
    {
      WellFormed(graph) && db.Valid()
    }

    constructor (db: Database)
      requires db.Valid()
      ensures Valid() && this.db == db
      ensures graph == GraphState(map[], [], [])
    {
      this.db := db;
      graph := GraphState(map[], [], []);
    }

    /** `loadGraph`: clears the graph, then adds every stored node and every
        stored relationship whose ends are both nodes and whose ordered pair is
        not yet joined. The graph stays empty when the store cannot be read. */
    method LoadGraph() returns (r: Result<()>)
      requires Valid()
      modifies this
      ensures Valid()
      ensures !db.available ==> r == Failure(StoreFailure(Unavailable)) && graph == GraphState(map[], [], [])
      ensures db.available ==> r == Success(())
      ensures db.available ==> graph.nodes == LoadedNodes(db.nodes)
      ensures db.available ==> exists rs :: Lists(rs, db.relationships, RelKey) && graph.edges == LoadEdges(rs, graph.nodes)
    {
      graph := GraphState(map[], [], []);
      var stored := db.GetAllNodes();
      if stored.Err? {
        return Failure(StoreFailure(stored.error));
      }
      AddLoadedNodes(stored.value);
      var rels := db.GetAllRelationships();
      AddLoadedEdges(rels.value);
      r := Success(());
    }

    /** The node pass of `loadGraph`: every stored node, first come first added. */
    method AddLoadedNodes(ns: seq<Node>)
      requires forall j :: 0 <= j < |ns| ==> ns[j].id in db.nodes && db.nodes[ns[j].id] == ns[j]
      requires forall id :: id in db.nodes ==> exists j :: 0 <= j < |ns| && ns[j].id == id
      modifies this
      ensures graph.edges == old(graph.edges)
      ensures NoDuplicates(graph.order) && (forall id :: id in graph.nodes <==> id in graph.order)
      ensures graph.nodes == LoadedNodes(db.nodes)
    {
      ghost var stored := db.nodes;
      ghost var want := LoadedNodes(stored);
      var m: map<string, GraphNode> := map[];
      var ids: seq<string> := [];
      var i := 0;
      while i < |ns|
        invariant 0 <= i <= |ns|
        invariant NodePass(ns, want, i, m, ids)
        invariant graph == old(graph)
      {
        var n := ns[i];
        if n.id !in m {
          assert want[n.id] == LoadedNode(n);
          NodePassAdd(ns, want, i, m, ids);
          m := m[n.id := LoadedNode(n)];
          ids := ids + [n.id];
        } else {
          NodePassKeep(ns, want, i, m, ids);
        }
        i := i + 1;
      }
      NodePassDone(ns, want, m, ids);
      graph := graph.(nodes := m, order := ids);
    }

    /** The relationship pass of `loadGraph`. */
    method AddLoadedEdges(rs: seq<Relationship>)
      requires graph.edges == []
      modifies this
      ensures graph.nodes == old(graph.nodes) && graph.order == old(graph.order)
      ensures graph.edges == LoadEdges(rs, graph.nodes)
    {
      var es: seq<GraphEdge> := [];
      var k := 0;
      while k < |rs|
        invariant 0 <= k <= |rs|
        invariant graph == old(graph)
        invariant es == LoadEdges(rs[..k], graph.nodes)
      {
        var rel := rs[k];
        assert rs[..k + 1][..k] == rs[..k];
        if rel.source in graph.nodes && rel.target in graph.nodes && EdgeBetween(es, rel.source, rel.target).None? {
          es := es + [DecorateEdge(rel)];
        }
        k := k + 1;
      }
      assert rs[..|rs|] == rs;
      graph := graph.(edges := es);
    }

    /** `addNode`: stores the defaulted record, falling back to an update of
        every field when the key is taken, then gives the graph node the
        attributes of `DecorateNode`. A store that cannot be written fails the
        call with nothing changed. Leverage is stored as given, never recomputed
        from the scores. */
    method AddNode(input: NodeInput, freshId: string) returns (r: Result<Node>)
      requires Valid()
      modifies this, db
      ensures Valid() && db.available == old(db.available)
      ensures !db.available ==>
        r == Failure(StoreFailure(Unavailable)) && graph == old(graph)
        && db.nodes == old(db.nodes) && db.relationships == old(db.relationships)
      ensures db.available ==> r == Success(BuildNode(input, freshId))
      ensures db.available ==> db.nodes == old(db.nodes)[r.value.id := r.value] && db.relationships == old(db.relationships)
      ensures db.available ==> graph == PutNode(old(graph), r.value)
    {
      var n := BuildNode(input, freshId);
      var stored := StoreNode(n);
      if !stored {
        return Failure(StoreFailure(Unavailable));
      }
      var g := PutNode(graph, n);
      PutNodeWellFormed(graph, n);
      graph := g;
      r := Success(n);
    }

    /** The store half of `addNode`: `createNode`, and on a taken key
        `updateNode(id, node)`, which writes every field. */
    method StoreNode(n: Node) returns (ok: bool)
      requires db.Valid()
      modifies db
      ensures db.Valid() && db.available == old(db.available) && db.relationships == old(db.relationships)
      ensures ok == db.available
      ensures ok ==> db.nodes == old(db.nodes)[n.id := n]
      ensures !ok ==> db.nodes == old(db.nodes)
    {
      var created := db.CreateNode(n);
      if created.Err? && created.error == Unavailable {
        return false;
      }
      if created.Err? {
        FullNodePatchWrites(db.nodes[n.id], n);
        var _ := db.UpdateNode(n.id, FullNodePatch(n));
      }
      ok := true;
    }

    /** `updateNodeData`: `None` when the store has no such node; otherwise the
        patch is stored and the patched record returned. The graph node is
        refreshed afterwards, and a node missing from the graph fails the call
        (`setNodeAttribute` throws) after the store was written. */
    method UpdateNodeData(id: string, p: NodePatch) returns (r: Result<Option<Node>>)
      requires Valid()
      modifies this, db
      ensures Valid() && db.available == old(db.available) && db.relationships == old(db.relationships)
      ensures !db.available ==> r == Failure(StoreFailure(Unavailable)) && graph == old(graph) && db.nodes == old(db.nodes)
      ensures db.available && id !in old(db.nodes) ==> r == Success(None) && graph == old(graph) && db.nodes == old(db.nodes)
      ensures db.available && id in old(db.nodes) ==> db.nodes == old(db.nodes)[id := MergeNode(old(db.nodes)[id], p)]
      ensures db.available && id in old(db.nodes) && id !in old(graph.nodes) ==>
        r == Failure(NodeNotFound(id)) && graph == old(graph)
      ensures db.available && id in old(db.nodes) && id in old(graph.nodes) ==>
        r == Success(Some(MergeNode(old(db.nodes)[id], p))) && graph == RefreshNode(old(graph), id, old(db.nodes)[id], p)
    {
      var got := db.GetNode(id);
      if got.Err? {
        return Failure(StoreFailure(got.error));
      }
      if got.value.None? {
        return Success(None);
      }
      var stored := got.value.value;
      var _ := db.UpdateNode(id, p);
      if id !in graph.nodes {
        return Failure(NodeNotFound(id));
      }
      var g := RefreshNode(graph, id, stored, p);
      graph := g;
      r := Success(Some(MergeNode(stored, p)));
    }

    /** `removeNode`: the store drops the node and its relationships, then the
        graph drops the node and its edges; a node missing from the graph fails
        the call (`dropNode` throws) after the store was written. */
    method RemoveNode(id: string) returns (r: Result<()>)
      requires Valid()
      modifies this, db
      ensures Valid() && db.available == old(db.available)
      ensures !db.available ==>
        r == Failure(StoreFailure(Unavailable)) && graph == old(graph)
        && db.nodes == old(db.nodes) && db.relationships == old(db.relationships)
      ensures db.available ==> db.nodes == old(db.nodes) - {id}
      ensures db.available ==>
        db.relationships == map k | k in old(db.relationships) && !Touches(old(db.relationships)[k], id) :: old(db.relationships)[k]
      ensures db.available && id !in old(graph.nodes) ==> r == Failure(NodeNotFound(id)) && graph == old(graph)
      ensures db.available && id in old(graph.nodes) ==> r == Success(()) && graph == DropNode(old(graph), id)
    {
      var d := db.DeleteNode(id);
      if d.Err? {
        return Failure(StoreFailure(d.error));
      }
      if id !in graph.nodes {
        return Failure(NodeNotFound(id));
      }
      DropNodeWellFormed(graph, id);
      var g := DropNode(graph, id);
      graph := g;
      r := Success(());
    }

    /** `addRelationship`. Looking up the edge of the ordered pair fails the
        call first when an end is missing from the graph, before anything is
        written. When an edge already joins the pair, the store record behind
        it is replaced by the new relationship, which moves it to the new id,
        and the edge takes every field too. Otherwise the relationship is
        stored and a new edge added. */
    method AddRelationship(input: RelInput, freshId: string, now: int) returns (r: Result<Relationship>)
      requires Valid()
      modifies this, db
      ensures Valid() && db.available == old(db.available) && db.nodes == old(db.nodes)
      ensures var rel := BuildRelationship(input, freshId, now);
        var k := EdgeBetween(old(graph.edges), rel.source, rel.target);
        var ends := rel.source in old(graph.nodes) && rel.target in old(graph.nodes);
        && (rel.source !in old(graph.nodes) ==>
              r == Failure(NodeNotFound(rel.source)) && graph == old(graph)
              && db.relationships == old(db.relationships))
        && (rel.source in old(graph.nodes) && rel.target !in old(graph.nodes) ==>
              r == Failure(NodeNotFound(rel.target)) && graph == old(graph)
              && db.relationships == old(db.relationships))
        && (ends && !db.available ==>
              r == Failure(StoreFailure(Unavailable)) && graph == old(graph)
              && db.relationships == old(db.relationships))
        && (ends && db.available && k.Some? ==>
              var key := old(graph.edges)[k.value].rel.id;
              && (key !in old(db.relationships) ==>
                    r == Success(rel) && graph == PutEdge(old(graph), rel)
                    && db.relationships == old(db.relationships))
              && (key in old(db.relationships) && rel.id != key && rel.id in old(db.relationships) ==>
                    r == Failure(StoreFailure(ConstraintError)) && graph == old(graph)
                    && db.relationships == old(db.relationships))
              && (key in old(db.relationships) && (rel.id == key || rel.id !in old(db.relationships)) ==>
                    r == Success(rel) && graph == PutEdge(old(graph), rel)
                    && db.relationships == (old(db.relationships) - {key})[rel.id := rel]))
        && (ends && db.available && k.None? && rel.id in old(db.relationships) ==>
              r == Failure(StoreFailure(ConstraintError)) && graph == old(graph)
              && db.relationships == old(db.relationships))
        && (ends && db.available && k.None? && rel.id !in old(db.relationships) ==>
              r == Success(rel) && graph == PutEdge(old(graph), rel)
              && db.relationships == old(db.relationships)[rel.id := rel])
    {
      var rel := BuildRelationship(input, freshId, now);
      if rel.source !in graph.nodes {
        return Failure(NodeNotFound(rel.source));
      }
      if rel.target !in graph.nodes {
        return Failure(NodeNotFound(rel.target));
      }
      var k := EdgeBetween(graph.edges, rel.source, rel.target);
      if k.Some? {
        var key := graph.edges[k.value].rel.id;
        var u := db.ReplaceRelationship(key, rel);
        if u.Err? {
          return Failure(StoreFailure(u.error));
        }
        PutEdgeWellFormed(graph, rel);
        var g := PutEdge(graph, rel);
        graph := g;
        return Success(rel);
      }
      var c := db.CreateRelationship(rel);
      if c.Err? {
        return Failure(StoreFailure(c.error));
      }
      PutEdgeWellFormed(graph, rel);
      var g := PutEdge(graph, rel);
      graph := g;
      r := Success(rel);
    }

    /** `updateRelationshipData`: `None` when no edge carries `id`; otherwise
        the patch goes to the store and to the first such edge, whose ends stay
        put, and the patched record is returned. */
    method UpdateRelationshipData(id: string, p: RelPatch) returns (r: Result<Option<Relationship>>)
      requires Valid()
      modifies this, db
      ensures Valid() && db.available == old(db.available) && db.nodes == old(db.nodes)
      ensures var k := EdgeWithId(old(graph.edges), id);
        && (k.None? ==> r == Success(None) && graph == old(graph) && db.relationships == old(db.relationships))
        && (k.Some? && !db.available ==>
              r == Failure(StoreFailure(Unavailable)) && graph == old(graph)
              && db.relationships == old(db.relationships))
        && (k.Some? && db.available ==>
              && r == Success(Some(MergeRel(old(graph.edges)[k.value].rel, p)))
              && graph == PatchEdgeWithId(old(graph), id, p)
              && db.relationships == if id in old(db.relationships)
                                     then old(db.relationships)[id := MergeRel(old(db.relationships)[id], p)]
                                     else old(db.relationships))
    {
      var k := EdgeWithId(graph.edges, id);
      if k.None? {
        return Success(None);
      }
      var updated := MergeRel(graph.edges[k.value].rel, p);
      var u := db.UpdateRelationship(id, p);
      if u.Err? {
        return Failure(StoreFailure(u.error));
      }
      var g := PatchEdgeWithId(graph, id, p);
      graph := g;
      r := Success(Some(updated));
    }

    /** `removeRelationship`: deletes the relationship from the store and drops
        the first edge carrying `id`; nothing happens when no edge carries it. */
    method RemoveRelationship(id: string) returns (r: Result<()>)
      requires Valid()
      modifies this, db
      ensures Valid() && db.available == old(db.available) && db.nodes == old(db.nodes)
      ensures var k := EdgeWithId(old(graph.edges), id);
        && (k.None? ==> r == Success(()) && graph == old(graph) && db.relationships == old(db.relationships))
        && (k.Some? && !db.available ==>
              r == Failure(StoreFailure(Unavailable)) && graph == old(graph)
              && db.relationships == old(db.relationships))
        && (k.Some? && db.available ==>
              r == Success(()) && graph == RemoveEdgeWithId(old(graph), id)
              && db.relationships == old(db.relationships) - {id})
    {
      var k := EdgeWithId(graph.edges, id);
      if k.None? {
        return Success(());
      }
      var d := db.DeleteRelationship(id);
      if d.Err? {
        return Failure(StoreFailure(d.error));
      }
      RemoveEdgeWellFormed(graph, id);
      var g := RemoveEdgeWithId(graph, id);
      graph := g;
      r := Success(());
    }
  }
}
