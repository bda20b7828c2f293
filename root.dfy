/** The root contact: the owner of the network, created once on first start. */
module Root {
  import opened Util
  import opened Records
  import opened Store
  import opened Scoring
  import opened Graph

  const RootId := "root"

  /** `getRootNodeId()`. */
  function GetRootNodeId(): (id: string)
    ensures id == "root"
  {
    RootId
  }

  /** Every score of the root contact: the six leverage dimensions and `trust`
      and `influence`, all 10. */
  const RootScores: map<string, int> := map[
    "trust" := 10, "influence" := 10, "capitalAccess" := 10, "skillValue" := 10,
    "networkReach" := 10, "reliability" := 10, "speed" := 10, "alignment" := 10]

  /** The record `ensureRootNode` hands to `addNode`, stamped with `now`. */
  function RootInput(now: int): NodeInput {
    NodeInput(Some(RootId), Some("person"), Some("Me"), Some(""), Some(""), Some(""), Some(map[]),
              Some(Occupation("System Owner", "PRIG", "Intelligence")), Some([]), Some(RootScores),
              Some(100), Some([]), Some(now), Some(map["isRoot" := true]))
  }

  /** The root contact as `addNode` stores it. */
  function RootNode(now: int): (n: Node)
    ensures n.id == RootId && n.metadata == map["isRoot" := true]
    ensures n.scores == RootScores && n.leverageScore == 100 && n.lastInteraction == Some(now)
  {
    BuildNode(RootInput(now), RootId)
  }

  /** The stored leverage of the root agrees with its scores. */
  lemma RootLeverageConsistent(now: int)
    ensures RootNode(now).leverageScore == CalculateLeverageScore(RootNode(now).scores)
    ensures forall k :: k in Dimensions ==> Dim(RootNode(now).scores, k) == 10
  {
    LeverageExtremes(RootScores);
  }

  /** `ensureRootNode()`: answers whether the root contact had to be created,
      and creates it through `addNode` when no stored node has the id
      `'root'`. A store that cannot be read fails the call. */
  method EnsureRootNode(index: GraphIndex, now: int) returns (r: Result<bool>)
    requires index.Valid()
    modifies index, index.db
    ensures index.Valid() && index.db.available == old(index.db.available)
    ensures index.db.relationships == old(index.db.relationships)
    ensures !index.db.available ==>
      r == Failure(StoreFailure(Unavailable)) && index.graph == old(index.graph) && index.db.nodes == old(index.db.nodes)
    ensures index.db.available ==> r == Success(RootId !in old(index.db.nodes)) && RootId in index.db.nodes
    ensures index.db.available && RootId in old(index.db.nodes) ==>
      index.graph == old(index.graph) && index.db.nodes == old(index.db.nodes)
    ensures index.db.available && RootId !in old(index.db.nodes) ==>
      && index.db.nodes == old(index.db.nodes)[RootId := RootNode(now)]
      && index.graph == PutNode(old(index.graph), RootNode(now))
  {
    var nodes := index.db.GetAllNodes();
    if nodes.Err? {
      return Failure(StoreFailure(nodes.error));
    }
    var found := FirstIndex(nodes.value, (n: Node) => n.id == RootId);
    if found.Some? {
      return Success(false);
    }
    var added := index.AddNode(RootInput(now), RootId);
    r := Success(true);
  }

  /** Calling `ensureRootNode` a second time answers `false` and changes
      nothing. */
  method EnsureRootNodeTwice(index: GraphIndex, now: int, later: int) returns (first: Result<bool>, second: Result<bool>)
    requires index.Valid() && index.db.available
    modifies index, index.db
    ensures second == Success(false)
    ensures first == Success(RootId !in old(index.db.nodes))
  {
    first := EnsureRootNode(index, now);
    ghost var graph1 := index.graph;
    ghost var nodes1 := index.db.nodes;
    second := EnsureRootNode(index, later);
    assert index.graph == graph1 && index.db.nodes == nodes1;
  }
}
