/** The analytic queries (src/lib/queries.js). Each reads a snapshot of the
    graph and never changes it; the current time `now` (milliseconds since the
    epoch) is a parameter. */
module Queries {
  import opened Util
  import opened Records
  import opened Scoring
  import opened Graph
  import opened GraphPaths

  const DayMs := 24 * 60 * 60 * 1000

  /** The "three months" of the source: 90 days. */
  const ThreeMonthsMs := 90 * DayMs

  /** The node's `lastInteraction` is strictly before `instant`. */
  predicate Before(n: GraphNode, instant: int) {
    n.data.lastInteraction.Some? && n.data.lastInteraction.value < instant
  }

  // ---------------------------------------------------------------------------
  // topUnderutilizedConnections
  // ---------------------------------------------------------------------------

  /** A relationship counts as recent when its `lastInteraction` is after the cutoff. */
  predicate RecentView(v: RelView, cutoff: int) {
    v.edge.rel.lastInteraction.Some? && v.edge.rel.lastInteraction.value > cutoff
  }

  /** How many of the node's relationships had an interaction after the cutoff. */
  function RecentCount(g: Snapshot, cutoff: int, n: GraphNode): (c: nat)
    ensures n.data.id in g.nodes ==> c <= |IncidentEdges(g.edges, n.data.id)|
    ensures n.data.id !in g.nodes ==> c == 0
  {
    var views := RelationshipsForNode(g, n.data.id);
    if views.None? then 0 else |Filter(views.value, (v: RelView) => RecentView(v, cutoff))|
  }

  /** `leverage / (recentInteractions + 1)`. */
  function Utilization(g: Snapshot, cutoff: int, n: GraphNode): real {
    n.data.leverageScore as real / (RecentCount(g, cutoff, n) + 1) as real
  }

  /** A candidate: not contacted since the cutoff, and with positive leverage. */
  predicate Underutilized(n: GraphNode, cutoff: int) {
    (n.data.lastInteraction.None? || n.data.lastInteraction.value < cutoff) && n.data.leverageScore > 0
  }

  function UnderutilizedAt(cutoff: int): GraphNode -> bool {
    n => Underutilized(n, cutoff)
  }

  /** `topUnderutilizedConnections(limit = 5)`: the nodes with positive leverage
      not contacted for 90 days, ranked by leverage per recent relationship, the
      first `limit` of them. */
  function TopUnderutilizedConnections(g: Snapshot, now: int, limit: Option<int>): (r: seq<GraphNode>)
    ensures var end := OrElse(limit, 5);
      var m := |Filter(AllGraphNodes(g), UnderutilizedAt(now - ThreeMonthsMs))|;
      0 <= end ==> |r| == if m < end then m else end
    ensures multiset(r) <= multiset(Filter(AllGraphNodes(g), UnderutilizedAt(now - ThreeMonthsMs)))
    ensures forall n :: n in r ==> n in AllGraphNodes(g) && Underutilized(n, now - ThreeMonthsMs)
    ensures forall i, j :: 0 <= i < j < |r| ==>
      Utilization(g, now - ThreeMonthsMs, r[i]) >= Utilization(g, now - ThreeMonthsMs, r[j])
    ensures forall n, m :: n in AllGraphNodes(g) && Underutilized(n, now - ThreeMonthsMs) && n !in r && m in r ==>
      Utilization(g, now - ThreeMonthsMs, m) >= Utilization(g, now - ThreeMonthsMs, n)
  {
    var cutoff := now - ThreeMonthsMs;
    var ns := AllGraphNodes(g);
    var key := (n: GraphNode) => Utilization(g, cutoff, n);
    var candidate := UnderutilizedAt(cutoff);
    var r := TopBy(ns, candidate, key, OrElse(limit, 5));
    assert forall n, m :: n in ns && Underutilized(n, cutoff) && n !in r && m in r ==>
      Utilization(g, cutoff, m) >= Utilization(g, cutoff, n) by {
      forall n, m | n in ns && Underutilized(n, cutoff) && n !in r && m in r
        ensures Utilization(g, cutoff, m) >= Utilization(g, cutoff, n)
      {
        assert candidate(n);
        assert key(m) >= key(n);
      }
    }
    r
  }

  // ---------------------------------------------------------------------------
  // shortestPathToIndustry
  // ---------------------------------------------------------------------------

  /** `shortestPathToIndustry`: the first entry of `findPathsToIndustry`, `None`
      when it is empty. */
  function ShortestPathToIndustry(g: Snapshot, s: string, industry: string): (r: Option<IndustryPath>)
    ensures r.Some? ==> r.value in FindPathsToIndustry(g, s, industry)
    ensures r.Some? ==> forall c :: c in FindPathsToIndustry(g, s, industry) ==> |r.value.path| <= |c.path|
  {
    var paths := FindPathsToIndustry(g, s, industry);
    if |paths| == 0 then None else Some(paths[0])
  }

  /** No path is reported exactly when no node of the industry can be reached. */
  lemma ShortestPathToIndustryNone(g: Snapshot, s: string, industry: string)
    ensures ShortestPathToIndustry(g, s, industry).None? <==>
      forall id :: id in g.nodes && InIndustry(g.nodes[id], industry) ==> FindShortestPath(g, s, id).None?
  {
    var paths := FindPathsToIndustry(g, s, industry);
    if ShortestPathToIndustry(g, s, industry).None? {
      forall id | id in g.nodes && InIndustry(g.nodes[id], industry)
        ensures FindShortestPath(g, s, id).None?
      {
        if FindShortestPath(g, s, id).Some? {
          FindPathsToIndustryMembers(g, s, industry, IndustryPath(g.nodes[id], FindShortestPath(g, s, id).value));
        }
      }
    } else {
      var c := paths[0];
      FindPathsToIndustryMembers(g, s, industry, c);
    }
  }

  /** The reported path is no longer than any walk from the source to any node of
      the industry. */
  lemma ShortestPathToIndustryMinimal(g: Snapshot, s: string, industry: string, q: seq<string>)
    requires IsWalk(g, q) && q[0] == s && InIndustry(g.nodes[q[|q| - 1]], industry)
    ensures ShortestPathToIndustry(g, s, industry).Some?
    ensures |ShortestPathToIndustry(g, s, industry).value.path| <= |q|
  {
    var t := q[|q| - 1];
    ShortestPathComplete(g, s, t, q);
    ShortestPathMinimal(g, s, t, q);
    var c := IndustryPath(g.nodes[t], FindShortestPath(g, s, t).value);
    FindPathsToIndustryMembers(g, s, industry, c);
  }

  /** Ties go to the node added first: the reported entry is the first, in node
      insertion order, of the reachable industry nodes with the shortest path. */
  lemma ShortestPathToIndustryFirst(g: Snapshot, s: string, industry: string) returns (k: int)
    requires ShortestPathToIndustry(g, s, industry).Some?
    ensures var found := Reached(g, s, IndustryTargets(g, industry));
      IsFirstMax(found, k, ShorterFirst) && ShortestPathToIndustry(g, s, industry).value == found[k]
  {
    var found := Reached(g, s, IndustryTargets(g, industry));
    assert |found| == |FindPathsToIndustry(g, s, industry)| by {
      assert |multiset(found)| == |multiset(FindPathsToIndustry(g, s, industry))|;
    }
    k := SortDescHead(found, ShorterFirst);
  }

  // ---------------------------------------------------------------------------
  // connectorsToInvestors
  // ---------------------------------------------------------------------------

  const InvestorKeywords: seq<string> := ["investor", "vc", "venture", "capital", "angel", "fund"]

  /** A potential investor: capital access of at least 7, or a keyword in the
      lower-cased role, industry or company. */
  predicate IsInvestor(n: GraphNode) {
    var o := n.data.occupation;
    || Dim(n.data.scores, "capitalAccess") >= 7
    || exists i :: 0 <= i < |InvestorKeywords| &&
         (Contains(Lower(o.role), InvestorKeywords[i]) || Contains(Lower(o.industry), InvestorKeywords[i])
          || Contains(Lower(o.company), InvestorKeywords[i]))
  }

  /** The ids of the potential investors. */
  function InvestorIds(g: Snapshot): (ids: set<string>)
    ensures forall id :: id in ids <==> id in g.nodes && IsInvestor(g.nodes[id])
  {
    set id | id in g.nodes && IsInvestor(g.nodes[id])
  }

  /** A connector, the number of its relationships to investors and the investors
      at their other ends. */
  datatype Connector = Connector(node: GraphNode, investorConnections: int, connections: seq<GraphNode>)

  /** The other ends of those of `vs` whose other end is in `ids`, in order. */
  function InvestorsAmong(vs: seq<RelView>, ids: set<string>): (r: seq<GraphNode>)
    ensures forall m :: m in r ==> m.data.id in ids
  {
    var toInvestors := Filter(vs, (v: RelView) => v.otherNode.data.id in ids);
    var r := seq(|toInvestors|, i requires 0 <= i < |toInvestors| => toInvestors[i].otherNode);
    assert forall m :: m in r ==> m.data.id in ids by {
      forall m | m in r ensures m.data.id in ids {
        var i :| 0 <= i < |r| && r[i] == m;
        assert toInvestors[i] in toInvestors;
      }
    }
    r
  }

  function InvestorLinks(g: Snapshot, ids: set<string>, n: GraphNode): (r: seq<GraphNode>)
    ensures forall m :: m in r ==> m.data.id in ids
  {
    var views := RelationshipsForNode(g, n.data.id);
    if views.None? then [] else InvestorsAmong(views.value, ids)
  }

  function ToConnectors(g: Snapshot, ids: set<string>, ns: seq<GraphNode>): (r: seq<Connector>)
    ensures forall c :: c in r ==>
      c.node in ns && c.node.data.id !in ids && c.investorConnections == |c.connections| > 0
      && c.connections == InvestorLinks(g, ids, c.node)
    ensures forall n :: n in ns && n.data.id !in ids && |InvestorLinks(g, ids, n)| > 0 ==>
      Connector(n, |InvestorLinks(g, ids, n)|, InvestorLinks(g, ids, n)) in r
  {
    if ns == [] then []
    else
      var n := ns[0];
      var links := InvestorLinks(g, ids, n);
      var rest := ToConnectors(g, ids, ns[1..]);
      assert forall m :: m in ns <==> m == n || m in ns[1..];
      (if n.data.id !in ids && |links| > 0 then [Connector(n, |links|, links)] else []) + rest
  }

  function ConnectionCount(c: Connector): real {
    c.investorConnections as real
  }

  /** `connectorsToInvestors`: the nodes that are not investors but have
      relationships to investors, most such relationships first
      (ConnectorsToInvestorsMembers, ConnectorsComplete). */
  function ConnectorsToInvestors(g: Snapshot): (r: seq<Connector>)
    ensures multiset(r) == multiset(ToConnectors(g, InvestorIds(g), AllGraphNodes(g)))
    ensures SortedDesc(r, ConnectionCount)
  {
    SortDesc(ToConnectors(g, InvestorIds(g), AllGraphNodes(g)), ConnectionCount)
  }

  /** A listed connector is a node that is not an investor, its count is the
      number of its investor connections and at least one, and each connection
      is an investor. */
  lemma ConnectorsToInvestorsMembers(g: Snapshot, c: Connector)
    requires c in ConnectorsToInvestors(g)
    ensures c.node in AllGraphNodes(g) && !IsInvestor(c.node)
    ensures c.investorConnections == |c.connections| > 0
    ensures forall m :: m in c.connections ==> m.data.id in g.nodes && IsInvestor(g.nodes[m.data.id])
  {
    var ns := AllGraphNodes(g);
    assert c in multiset(ConnectorsToInvestors(g));
    assert c in ToConnectors(g, InvestorIds(g), ns);
    var i :| 0 <= i < |ns| && ns[i] == c.node;
  }

  /** A relationship from `n` to an investor gives `n` an investor connection. */
  lemma InvestorViewLinked(g: Snapshot, n: GraphNode, v: RelView)
    requires n.data.id in g.nodes
    requires v in RelationshipsForNode(g, n.data.id).value && IsInvestor(v.otherNode)
    ensures |InvestorLinks(g, InvestorIds(g), n)| > 0
  {
    var views := RelationshipsForNode(g, n.data.id).value;
    var i :| 0 <= i < |views| && views[i] == v;
    assert v.otherNode == g.nodes[v.otherNode.data.id];
    InvestorsAmongNonEmpty(views, InvestorIds(g), v);
  }

  lemma InvestorsAmongNonEmpty(vs: seq<RelView>, ids: set<string>, v: RelView)
    requires v in vs && v.otherNode.data.id in ids
    ensures |InvestorsAmong(vs, ids)| > 0
  {
    assert v in Filter(vs, (v: RelView) => v.otherNode.data.id in ids);
  }

  /** Every node that is not an investor and has a relationship to an investor
      is listed, with all its investor connections. */
  lemma ConnectorsComplete(g: Snapshot, n: GraphNode, v: RelView)
    requires n in AllGraphNodes(g) && !IsInvestor(n)
    requires v in RelationshipsForNode(g, n.data.id).value && IsInvestor(v.otherNode)
    ensures var links := InvestorLinks(g, InvestorIds(g), n);
      Connector(n, |links|, links) in ConnectorsToInvestors(g)
  {
    var ns := AllGraphNodes(g);
    var i :| 0 <= i < |ns| && ns[i] == n;
    InvestorViewLinked(g, n, v);
    assert n.data.id !in InvestorIds(g);
    var links := InvestorLinks(g, InvestorIds(g), n);
    assert Connector(n, |links|, links) in multiset(ToConnectors(g, InvestorIds(g), ns));
  }

  // ---------------------------------------------------------------------------
  // fastValidators
  // ---------------------------------------------------------------------------

  function SpeedAlignment(n: GraphNode): real {
    (Dim(n.data.scores, "speed") + Dim(n.data.scores, "alignment")) as real
  }

  /** Speed and alignment of at least 7, and no interaction or one after the cutoff. */
  predicate FastValidator(n: GraphNode, cutoff: int) {
    && Dim(n.data.scores, "speed") >= 7 && Dim(n.data.scores, "alignment") >= 7
    && (n.data.lastInteraction.None? || n.data.lastInteraction.value > cutoff)
  }

  /** `fastValidators(timeframeDays = 48)`: the fast, aligned nodes available
      within the time frame, highest speed plus alignment first. */
  function FastValidators(g: Snapshot, now: int, timeframeDays: Option<int>): (r: seq<GraphNode>)
    ensures SortedDesc(r, SpeedAlignment)
    ensures var cutoff := now - OrElse(timeframeDays, 48) * DayMs;
      forall n :: multiset(r)[n] == if FastValidator(n, cutoff) then multiset(AllGraphNodes(g))[n] else 0
  {
    var cutoff := now - OrElse(timeframeDays, 48) * DayMs;
    var fast := Filter(AllGraphNodes(g), (n: GraphNode) => FastValidator(n, cutoff));
    var r := SortDesc(fast, SpeedAlignment);
    assert forall n :: multiset(r)[n] == if FastValidator(n, cutoff) then multiset(AllGraphNodes(g))[n] else 0 by {
      FilterMultiset(AllGraphNodes(g), (n: GraphNode) => FastValidator(n, cutoff));
      forall n ensures multiset(r)[n] == if FastValidator(n, cutoff) then multiset(AllGraphNodes(g))[n] else 0 {
        if !FastValidator(n, cutoff) {
          assert n !in fast;
        }
      }
    }
    r
  }

  /** The validators listed are exactly the fast, aligned, available nodes. */
  lemma FastValidatorsMembers(g: Snapshot, now: int, timeframeDays: Option<int>, n: GraphNode)
    ensures n in FastValidators(g, now, timeframeDays) <==>
      n in AllGraphNodes(g) && FastValidator(n, now - OrElse(timeframeDays, 48) * DayMs)
  {
    var r := FastValidators(g, now, timeframeDays);
    assert n in r <==> multiset(r)[n] > 0;
    assert n in AllGraphNodes(g) <==> multiset(AllGraphNodes(g))[n] > 0;
  }

  // ---------------------------------------------------------------------------
  // weakTiesHighUpside
  // ---------------------------------------------------------------------------

  /** A weak tie: the node, the node at the other end, the relationship and the
      potential `leverage - strength * 10`. */
  datatype WeakTie = WeakTie(node: GraphNode, connection: GraphNode, relationship: RelView, potential: real)

  /** `rel.strength || 5` */
  function TieStrength(v: RelView): real {
    if v.edge.rel.strength == 0.0 then 5.0 else v.edge.rel.strength
  }

  /** Strength at most 4 and a counterpart with leverage of at least 50. */
  predicate IsWeakTie(v: RelView) {
    TieStrength(v) <= 4.0 && v.otherNode.data.leverageScore >= 50
  }

  function TieOf(n: GraphNode, v: RelView): (t: WeakTie)
    ensures t.potential == v.otherNode.data.leverageScore as real - TieStrength(v) * 10.0
  {
    WeakTie(n, v.otherNode, v, v.otherNode.data.leverageScore as real - TieStrength(v) * 10.0)
  }

  /** The weak ties of one node, in the order of its relationships. */
  function TiesOf(n: GraphNode, views: seq<RelView>): (r: seq<WeakTie>)
    ensures forall t :: t in r <==> exists v :: v in views && IsWeakTie(v) && t == TieOf(n, v)
  {
    var weak := Filter(views, IsWeakTie);
    var r := seq(|weak|, i requires 0 <= i < |weak| => TieOf(n, weak[i]));
    assert forall t :: t in r ==> exists v :: v in views && IsWeakTie(v) && t == TieOf(n, v) by {
      forall t | t in r ensures exists v :: v in views && IsWeakTie(v) && t == TieOf(n, v) {
        var i :| 0 <= i < |r| && r[i] == t;
        assert weak[i] in weak;
      }
    }
    assert forall v :: v in views && IsWeakTie(v) ==> TieOf(n, v) in r by {
      forall v | v in views && IsWeakTie(v) ensures TieOf(n, v) in r {
        var i :| 0 <= i < |weak| && weak[i] == v;
        assert r[i] == TieOf(n, v);
      }
    }
    r
  }

  /** Whether `t` is a weak tie of a node of `ns`. */
  ghost predicate TieFrom(g: Snapshot, ns: seq<GraphNode>, t: WeakTie) {
    exists n, v :: n in ns && n.data.id in g.nodes && v in RelationshipsForNode(g, n.data.id).value
                  && IsWeakTie(v) && t == TieOf(n, v)
  }

  /** The loop of `weakTiesHighUpside`: every node's weak ties, node by node
      (AllTiesMembers). */
  function AllTies(g: Snapshot, ns: seq<GraphNode>): (r: seq<WeakTie>)
    requires forall n :: n in ns ==> n.data.id in g.nodes
  {
    if ns == [] then []
    else TiesOf(ns[0], RelationshipsForNode(g, ns[0].data.id).value) + AllTies(g, ns[1..])
  }

  lemma {:induction false} AllTiesMembers(g: Snapshot, ns: seq<GraphNode>, t: WeakTie)
    requires forall n :: n in ns ==> n.data.id in g.nodes
    ensures t in AllTies(g, ns) <==> TieFrom(g, ns, t)
  {
    if ns != [] {
      var n := ns[0];
      AllTiesMembers(g, ns[1..], t);
      assert TieFrom(g, ns, t) <==> t in TiesOf(n, RelationshipsForNode(g, n.data.id).value) || TieFrom(g, ns[1..], t) by {
        assert forall m :: m in ns <==> m == n || m in ns[1..];
      }
    }
  }

  /** The sort key of `weakTiesHighUpside`. */
  function Potential(t: WeakTie): real {
    t.potential
  }

  /** `weakTiesHighUpside`: the 20 weak ties with the highest potential
      (WeakTiesHighUpsideMembers, WeakTiesHighUpsideTop). */
  /** Every weak tie is a candidate: the source sorts them all and slices. */
  predicate AnyTie(t: WeakTie) {
    true
  }

  function WeakTiesHighUpside(g: Snapshot): (r: seq<WeakTie>)
    ensures var m := |AllTies(g, AllGraphNodes(g))|; |r| == if m < 20 then m else 20
    ensures multiset(r) <= multiset(AllTies(g, AllGraphNodes(g)))
    ensures SortedDesc(r, Potential)
    ensures forall t :: t in r ==> t in AllTies(g, AllGraphNodes(g))
  {
    FilterKeepsAll(AllTies(g, AllGraphNodes(g)), AnyTie);
    TopBy(AllTies(g, AllGraphNodes(g)), AnyTie, Potential, 20)
  }

  /** Each entry is a weak tie of a node: strength at most 4 (a missing strength
      counting as 5), a counterpart with leverage of at least 50, and the
      potential `leverage - strength * 10`. */
  lemma WeakTiesHighUpsideMembers(g: Snapshot, t: WeakTie)
    requires t in WeakTiesHighUpside(g)
    ensures TieFrom(g, AllGraphNodes(g), t)
    ensures IsWeakTie(t.relationship) && t.connection == t.relationship.otherNode
    ensures t.potential == t.connection.data.leverageScore as real - TieStrength(t.relationship) * 10.0
  {
    AllTiesMembers(g, AllGraphNodes(g), t);
  }

  /** A weak tie left out has no more potential than any entry kept. */
  lemma WeakTiesHighUpsideTop(g: Snapshot, t: WeakTie, u: WeakTie)
    requires TieFrom(g, AllGraphNodes(g), t) && t !in WeakTiesHighUpside(g)
    requires u in WeakTiesHighUpside(g)
    ensures u.potential >= t.potential
  {
    AllTiesMembers(g, AllGraphNodes(g), t);
    TopByLeftOut(AllTies(g, AllGraphNodes(g)), AnyTie, Potential, 20, t, u);
  }

  // ---------------------------------------------------------------------------
  // peopleToReconnectWith, findPeopleByIndustry, findPeopleBySkill
  // ---------------------------------------------------------------------------

  /** Last contacted more than 90 days ago, with leverage of at least 40. */
  predicate DueForReconnect(n: GraphNode, now: int) {
    Before(n, now - ThreeMonthsMs) && n.data.leverageScore >= 40
  }

  function Leverage(n: GraphNode): real {
    n.data.leverageScore as real
  }

  function DueAt(now: int): GraphNode -> bool {
    n => DueForReconnect(n, now)
  }

  /** `peopleToReconnectWith`: the ten nodes with the highest leverage among those
      due for a reconnect. */
  function PeopleToReconnectWith(g: Snapshot, now: int): (r: seq<GraphNode>)
    ensures var m := |Filter(AllGraphNodes(g), DueAt(now))|; |r| == if m < 10 then m else 10
    ensures multiset(r) <= multiset(Filter(AllGraphNodes(g), DueAt(now)))
    ensures forall n :: n in r ==> n in AllGraphNodes(g) && DueForReconnect(n, now)
    ensures forall i, j :: 0 <= i < j < |r| ==> r[i].data.leverageScore >= r[j].data.leverageScore
    ensures forall n, m :: n in AllGraphNodes(g) && DueForReconnect(n, now) && n !in r && m in r ==>
      m.data.leverageScore >= n.data.leverageScore
  {
    ReconnectRanks(g, now);
    TopBy(AllGraphNodes(g), DueAt(now), Leverage, 10)
  }

  /** The top ten by `Leverage` are ordered by leverage score, and leave out none
      that scores higher. */
  lemma ReconnectRanks(g: Snapshot, now: int)
    ensures var r := TopBy(AllGraphNodes(g), DueAt(now), Leverage, 10);
      && (forall i, j :: 0 <= i < j < |r| ==> r[i].data.leverageScore >= r[j].data.leverageScore)
      && (forall n, m :: n in AllGraphNodes(g) && DueForReconnect(n, now) && n !in r && m in r ==>
            m.data.leverageScore >= n.data.leverageScore)
  {
    var due := DueAt(now);
    var r := TopBy(AllGraphNodes(g), due, Leverage, 10);
    assert forall i, j :: 0 <= i < j < |r| ==> Leverage(r[i]) >= Leverage(r[j]);
    assert forall n, m :: n in AllGraphNodes(g) && DueForReconnect(n, now) && n !in r && m in r ==>
      m.data.leverageScore >= n.data.leverageScore by {
      forall n, m | n in AllGraphNodes(g) && DueForReconnect(n, now) && n !in r && m in r
        ensures m.data.leverageScore >= n.data.leverageScore
      {
        assert due(n);
        assert Leverage(m) >= Leverage(n);
      }
    }
  }

  predicate InIndustryOrCompany(n: GraphNode, industry: string) {
    Contains(Lower(n.data.occupation.industry), Lower(industry))
    || Contains(Lower(n.data.occupation.company), Lower(industry))
  }

  /** `findPeopleByIndustry`: the nodes, in insertion order, whose industry or
      company contains the query, ignoring case. */
  function FindPeopleByIndustry(g: Snapshot, industry: string): (r: seq<GraphNode>)
    ensures forall n :: n in r <==> n in AllGraphNodes(g) && InIndustryOrCompany(n, industry)
  {
    Filter(AllGraphNodes(g), (n: GraphNode) => InIndustryOrCompany(n, industry))
  }

  predicate HasSkill(n: GraphNode, skill: string) {
    exists i :: 0 <= i < |n.data.skills| && Contains(Lower(n.data.skills[i].tag), Lower(skill))
  }

  /** `findPeopleBySkill`: the nodes, in insertion order, with a skill tag that
      contains the query, ignoring case. */
  function FindPeopleBySkill(g: Snapshot, skill: string): (r: seq<GraphNode>)
    ensures forall n :: n in r <==> n in AllGraphNodes(g) && HasSkill(n, skill)
  {
    Filter(AllGraphNodes(g), (n: GraphNode) => HasSkill(n, skill))
  }
}
