/** Path search over the graph (src/lib/graph.js, `findShortestPath` and
    `findPathsToIndustry`). Paths follow edges in either direction and are
    counted in hops; a path is the sequence of node ids it visits. */
module GraphPaths {
  import opened Util
  import opened Records
  import opened Graph

  // ---------------------------------------------------------------------------
  // Walks
  // ---------------------------------------------------------------------------

  /** `e` joins `u` and `v`, in one direction or the other. */
  predicate Joins(e: GraphEdge, u: string, v: string) {
    (e.src == u && e.dst == v) || (e.src == v && e.dst == u)
  }

  /** The ends opposite `u` of the edges touching `u`, in edge order: the
      neighbourhood of `u` when edges are read in both directions. */
  function Neighbors(es: seq<GraphEdge>, u: string): seq<string> {
    if es == [] then []
    else
      var e := es[0];
      (if e.src == u then [e.dst] else if e.dst == u then [e.src] else []) + Neighbors(es[1..], u)
  }

  lemma {:induction false} NeighborsJoin(es: seq<GraphEdge>, u: string, v: string)
    ensures v in Neighbors(es, u) <==> exists e :: e in es && Joins(e, u, v)
  {
    if es != [] {
      var e0 := es[0];
      NeighborsJoin(es[1..], u, v);
      assert v in Neighbors(es, u) <==> Joins(e0, u, v) || v in Neighbors(es[1..], u);
      if exists e :: e in es && Joins(e, u, v) {
        var e :| e in es && Joins(e, u, v);
        if e != e0 {
          assert e in es[1..];
        }
      }
      if exists e :: e in es[1..] && Joins(e, u, v) {
        var e :| e in es[1..] && Joins(e, u, v);
        assert e in es;
      }
    }
  }

  /** One step of a walk: `v` is a neighbour of `u`. */
  predicate Linked(es: seq<GraphEdge>, u: string, v: string) {
    v in Neighbors(es, u)
  }

  lemma NeighborIsNode(g: Snapshot, u: string, v: string)
    requires Linked(g.edges, u, v)
    ensures v in g.nodes
  {
    NeighborsJoin(g.edges, u, v);
    var e :| e in g.edges && Joins(e, u, v);
    var i :| 0 <= i < |g.edges| && g.edges[i] == e;
  }

  /** `w` visits nodes of `g` only, and consecutive nodes are joined by an edge. */
  ghost predicate IsWalk(g: Snapshot, w: seq<string>) {
    && |w| >= 1
    && (forall i :: 0 <= i < |w| ==> w[i] in g.nodes)
    && (forall i :: 0 <= i < |w| - 1 ==> Linked(g.edges, w[i], w[i + 1]))
  }

  predicate EndsAt(w: seq<string>, t: string) {
    |w| > 0 && w[|w| - 1] == t
  }

  /** A walk of two or more nodes is a shorter walk plus one step. */
  lemma WalkSnoc(g: Snapshot, w: seq<string>)
    requires |w| >= 2
    ensures IsWalk(g, w) <==> IsWalk(g, w[..|w| - 1]) && Linked(g.edges, w[|w| - 2], w[|w| - 1])
  {
    var init := w[..|w| - 1];
    if IsWalk(g, init) && Linked(g.edges, w[|w| - 2], w[|w| - 1]) {
      NeighborIsNode(g, w[|w| - 2], w[|w| - 1]);
      assert forall i :: 0 <= i < |w| - 1 ==> w[i] == init[i];
    }
  }

  /** `w` followed by one more step, to each neighbour of its last node in turn. */
  function Steps(w: seq<string>, es: seq<GraphEdge>): seq<seq<string>>
    requires |w| > 0
  {
    var ns := Neighbors(es, w[|w| - 1]);
    seq(|ns|, i requires 0 <= i < |ns| => w + [ns[i]])
  }

  lemma StepsMembers(w: seq<string>, es: seq<GraphEdge>, x: seq<string>)
    requires |w| > 0
    ensures x in Steps(w, es) <==> |x| >= 2 && x[..|x| - 1] == w && Linked(es, x[|x| - 2], x[|x| - 1])
  {
    var ns := Neighbors(es, w[|w| - 1]);
    var here := Steps(w, es);
    if x in here {
      var i :| 0 <= i < |ns| && here[i] == x;
      assert x[..|x| - 1] == w;
    }
    if |x| >= 2 && x[..|x| - 1] == w && Linked(es, x[|x| - 2], x[|x| - 1]) {
      var i :| 0 <= i < |ns| && ns[i] == x[|x| - 1];
      assert x == w + [ns[i]];
      assert here[i] == x;
    }
  }

  /** Every walk of `ws` followed by one more step. */
  function Extend(ws: seq<seq<string>>, es: seq<GraphEdge>): (r: seq<seq<string>>)
    requires forall w :: w in ws ==> |w| > 0
  {
    if ws == [] then [] else Steps(ws[0], es) + Extend(ws[1..], es)
  }

  lemma {:induction false} ExtendMembers(ws: seq<seq<string>>, es: seq<GraphEdge>, x: seq<string>)
    requires forall w :: w in ws ==> |w| > 0
    ensures x in Extend(ws, es) <==> |x| >= 2 && x[..|x| - 1] in ws && Linked(es, x[|x| - 2], x[|x| - 1])
  {
    if ws != [] {
      ExtendMembers(ws[1..], es, x);
      StepsMembers(ws[0], es, x);
      if |x| >= 2 {
        assert x[..|x| - 1] in ws <==> x[..|x| - 1] == ws[0] || x[..|x| - 1] in ws[1..] by {
          assert ws == [ws[0]] + ws[1..];
        }
      }
    }
  }

  /** All walks of `k` hops that start at `s`. */
  function Walks(g: Snapshot, s: string, k: nat): (r: seq<seq<string>>)
    ensures forall w :: w in r <==> IsWalk(g, w) && w[0] == s && |w| == k + 1
  {
    if k == 0 then
      var r := if s in g.nodes then [[s]] else [];
      assert forall w :: w in r <==> IsWalk(g, w) && w[0] == s && |w| == 1 by {
        forall w | IsWalk(g, w) && w[0] == s && |w| == 1 ensures w in r {
          assert w == [s];
        }
      }
      r
    else
      var prev := Walks(g, s, k - 1);
      var r := Extend(prev, g.edges);
      assert forall w :: w in r <==> IsWalk(g, w) && w[0] == s && |w| == k + 1 by {
        forall w
          ensures w in r <==> IsWalk(g, w) && w[0] == s && |w| == k + 1
        {
          ExtendMembers(prev, g.edges, w);
          if |w| >= 2 {
            WalkSnoc(g, w);
          }
        }
      }
      r
  }

  // ---------------------------------------------------------------------------
  // Shortest paths
  // ---------------------------------------------------------------------------

  /** No walk of `ws` ends at `t`. */
  predicate NoneEndAt(ws: seq<seq<string>>, t: string) {
    forall w :: w in ws ==> !EndsAt(w, t)
  }

  /** Breadth-first by hop count: the first walk of `k` hops, then `k + 1` and so
      on, that ends at `t`. A shortest path visits each node at most once, so
      the search stops at `|g.nodes|` hops. */
  function Search(g: Snapshot, s: string, t: string, k: nat): (r: Option<seq<string>>)
    ensures r.Some? ==> EndsAt(r.value, t) && k < |r.value| <= |g.nodes| && r.value in Walks(g, s, |r.value| - 1)
    ensures forall j :: k <= j && (if r.Some? then j < |r.value| - 1 else j < |g.nodes|) ==> NoneEndAt(Walks(g, s, j), t)
    decreases |g.nodes| - k
  {
    if k >= |g.nodes| then None
    else
      var ws := Walks(g, s, k);
      var i := FirstIndex(ws, (w: seq<string>) => EndsAt(w, t));
      if i.Some? then Some(ws[i.value]) else Search(g, s, t, k + 1)
  }

  /** The node ids of a shortest path from `s` to `t`, `None` when there is none. */
  function ShortestPath(g: Snapshot, s: string, t: string): (r: Option<seq<string>>)
    ensures r.Some? ==> IsWalk(g, r.value) && r.value[0] == s && EndsAt(r.value, t)
  {
    Search(g, s, t, 0)
  }

  /** No walk from `s` to `t` is shorter than the one ShortestPath returns. */
  lemma ShortestPathMinimal(g: Snapshot, s: string, t: string, q: seq<string>)
    requires IsWalk(g, q) && q[0] == s && EndsAt(q, t)
    requires ShortestPath(g, s, t).Some?
    ensures |ShortestPath(g, s, t).value| <= |q|
  {
    var p := ShortestPath(g, s, t).value;
    assert q in Walks(g, s, |q| - 1);
  }

  /** A walk that visits a node twice can skip the loop between the visits. */
  lemma {:induction false} SimpleWalk(g: Snapshot, q: seq<string>) returns (p: seq<string>)
    requires IsWalk(g, q)
    ensures IsWalk(g, p) && p[0] == q[0] && p[|p| - 1] == q[|q| - 1]
    ensures NoDuplicates(p) && |p| <= |q|
    ensures !NoDuplicates(q) ==> |p| < |q|
    decreases |q|
  {
    if NoDuplicates(q) {
      return q;
    }
    var i, j :| 0 <= i < j < |q| && q[i] == q[j];
    var cut := CutLoop(g, q, i, j);
    p := SimpleWalk(g, cut);
  }

  /** Skipping the nodes between two visits of the same node leaves a walk. */
  lemma CutLoop(g: Snapshot, q: seq<string>, i: int, j: int) returns (cut: seq<string>)
    requires IsWalk(g, q) && 0 <= i < j < |q| && q[i] == q[j]
    ensures IsWalk(g, cut) && cut[0] == q[0] && cut[|cut| - 1] == q[|q| - 1] && |cut| < |q|
  {
    cut := q[..i] + q[j..];
    assert |cut| == |q| - (j - i);
    forall m | 0 <= m < |cut| - 1
      ensures Linked(g.edges, cut[m], cut[m + 1])
    {
      if m + 1 < i {
        assert cut[m] == q[m] && cut[m + 1] == q[m + 1];
      } else if m + 1 == i {
        assert cut[m] == q[m] && cut[m + 1] == q[j] == q[m + 1];
      } else {
        assert cut[m] == q[m + j - i] && cut[m + 1] == q[m + 1 + j - i];
      }
    }
    assert forall m :: 0 <= m < |cut| ==> cut[m] in q;
    assert cut[0] == q[0] by {
      if i == 0 { assert cut[0] == q[j]; }
    }
  }

  /** A walk that repeats no node has at most as many nodes as the graph. */
  lemma SimpleWalkBound(g: Snapshot, p: seq<string>)
    requires IsWalk(g, p) && NoDuplicates(p)
    ensures |p| <= |g.nodes|
  {
    DistinctLength(p);
    SubsetCard((set x | x in p), g.nodes.Keys);
  }

  /** ShortestPath finds a path exactly when some walk joins the two nodes. */
  lemma ShortestPathComplete(g: Snapshot, s: string, t: string, q: seq<string>)
    requires IsWalk(g, q) && q[0] == s && EndsAt(q, t)
    ensures ShortestPath(g, s, t).Some?
  {
    var p := SimpleWalk(g, q);
    SimpleWalkBound(g, p);
    assert p in Walks(g, s, |p| - 1);
    assert NoneEndAt(Walks(g, s, |p| - 1), t) ==> ShortestPath(g, s, t).Some?;
  }

  /** A shortest path repeats no node. */
  lemma ShortestPathSimple(g: Snapshot, s: string, t: string, p: seq<string>)
    requires ShortestPath(g, s, t) == Some(p)
    ensures NoDuplicates(p)
  {
    var q := SimpleWalk(g, p);
    ShortestPathMinimal(g, s, t, q);
  }

  // ---------------------------------------------------------------------------
  // findShortestPath and findPathsToIndustry
  // ---------------------------------------------------------------------------

  /** `findShortestPath` as written: it calls `graph.shortestPath`, which a
      graphology `Graph` does not have (the method belongs to a separate
      package that is never imported), so the call throws, the `catch` turns
      that into `null`, and no path is ever found. */
  function FindShortestPathAsWritten(g: Snapshot, s: string, t: string): (r: Option<seq<GraphNode>>)
  {
    None
  }

  /** Whenever two nodes are connected, the code as written still reports no
      path, while the corrected search finds one. */
  lemma AsWrittenMissesPath(g: Snapshot, s: string, t: string, q: seq<string>)
    requires IsWalk(g, q) && q[0] == s && EndsAt(q, t)
    ensures FindShortestPathAsWritten(g, s, t).None?
    ensures FindShortestPath(g, s, t).Some?
  {
    ShortestPathComplete(g, s, t, q);
  }

  /** `findShortestPath` as intended: the attributes of the nodes of a shortest
      path from `s` to `t` (breadth-first, edges read in both directions), or
      `None` when `t` cannot be reached, or either node is unknown. */
  function FindShortestPath(g: Snapshot, s: string, t: string): (r: Option<seq<GraphNode>>)
    ensures r.Some? <==> ShortestPath(g, s, t).Some?
    ensures r.Some? ==> |r.value| == |ShortestPath(g, s, t).value|
    ensures r.Some? ==> s in g.nodes && t in g.nodes && r.value[0] == g.nodes[s] && r.value[|r.value| - 1] == g.nodes[t]
    ensures r.Some? ==> forall i :: 0 <= i < |r.value| ==> r.value[i] == g.nodes[ShortestPath(g, s, t).value[i]]
  {
    match ShortestPath(g, s, t)
    case None => None
    case Some(p) => Some(seq(|p|, i requires 0 <= i < |p| => g.nodes[p[i]]))
  }

  /** A node reachable from the source and the path found to it. */
  datatype IndustryPath = IndustryPath(target: GraphNode, path: seq<GraphNode>)

  /** The node's lower-cased industry contains the lower-cased query. */
  predicate InIndustry(n: GraphNode, industry: string) {
    Contains(Lower(n.data.occupation.industry), Lower(industry))
  }

  /** The ids of the nodes in the industry, in node insertion order. */
  function IndustryTargets(g: Snapshot, industry: string): (r: seq<string>)
    ensures forall id :: id in r <==> id in g.nodes && InIndustry(g.nodes[id], industry)
    ensures NoDuplicates(r)
  {
    Filter(g.order, (id: string) => id in g.nodes && InIndustry(g.nodes[id], industry))
  }

  /** One entry per target that a path reaches, in target order. */
  function Reached(g: Snapshot, s: string, ts: seq<string>): (r: seq<IndustryPath>)
    requires forall t :: t in ts ==> t in g.nodes
    ensures forall c :: c in r ==>
      c.target.data.id in ts && c.target == g.nodes[c.target.data.id]
      && FindShortestPath(g, s, c.target.data.id) == Some(c.path)
    ensures forall t :: t in ts && FindShortestPath(g, s, t).Some? ==>
      IndustryPath(g.nodes[t], FindShortestPath(g, s, t).value) in r
  {
    if ts == [] then []
    else
      var t := ts[0];
      var p := FindShortestPath(g, s, t);
      var rest := Reached(g, s, ts[1..]);
      assert forall u :: u in ts <==> u == t || u in ts[1..];
      (if p.Some? then [IndustryPath(g.nodes[t], p.value)] else []) + rest
  }

  /** The sort key that puts shorter paths first. */
  function ShorterFirst(c: IndustryPath): real {
    -(|c.path| as real)
  }

  /** `findPathsToIndustry`: the reachable nodes of the industry with their
      paths, shortest first; the sort is stable, so equally long paths keep
      node insertion order. */
  function FindPathsToIndustry(g: Snapshot, s: string, industry: string): (r: seq<IndustryPath>)
    ensures multiset(r) == multiset(Reached(g, s, IndustryTargets(g, industry)))
    ensures forall i, j :: 0 <= i < j < |r| ==> |r[i].path| <= |r[j].path|
  {
    var found := Reached(g, s, IndustryTargets(g, industry));
    var r := SortDesc(found, ShorterFirst);
    assert SortedDesc(r, ShorterFirst);
    assert forall i, j :: 0 <= i < j < |r| ==> |r[i].path| <= |r[j].path| by {
      forall i, j | 0 <= i < j < |r| ensures |r[i].path| <= |r[j].path| {
        assert ShorterFirst(r[i]) >= ShorterFirst(r[j]);
      }
    }
    r
  }

  /** An entry is listed exactly when its node is in the industry and reached
      by the path found to it. */
  lemma FindPathsToIndustryMembers(g: Snapshot, s: string, industry: string, c: IndustryPath)
    ensures c in FindPathsToIndustry(g, s, industry) <==>
      && c.target.data.id in g.nodes && c.target == g.nodes[c.target.data.id]
      && InIndustry(c.target, industry)
      && FindShortestPath(g, s, c.target.data.id) == Some(c.path)
  {
    var r := FindPathsToIndustry(g, s, industry);
    var found := Reached(g, s, IndustryTargets(g, industry));
    assert c in r <==> c in multiset(r);
    assert c in found <==> c in multiset(found);
  }
}
