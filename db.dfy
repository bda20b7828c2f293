/** The persistent store: two IndexedDB tables, `nodes` and `relationships`, keyed
    by `id` (src/lib/db.js). Each table is a map from key to record. `available`
    stands for the database being reachable; when it is not, every operation fails
    with `Unavailable` and changes nothing. */
module Store {
  import opened Util
  import opened Records

  datatype StoreError = ConstraintError | Unavailable

  datatype Outcome<T> = Ok(value: T) | Err(error: StoreError)

  /** The lower-cased query occurs in the lower-cased name, e-mail, role, company
      or industry of `n` (`searchNodes`). */
  predicate MatchesSearch(n: Node, query: string) {
    var q := Lower(query);
    Contains(Lower(n.name), q) || Contains(Lower(n.email), q) || Contains(Lower(n.occupation.role), q)
    || Contains(Lower(n.occupation.company), q) || Contains(Lower(n.occupation.industry), q)
  }

  /** `s` lists the values of `m`, each key once. */
  ghost predicate Lists<V>(s: seq<V>, m: map<string, V>, key: V -> string) {
    && (forall i, j :: 0 <= i < j < |s| ==> key(s[i]) != key(s[j]))
    && (forall i :: 0 <= i < |s| ==> key(s[i]) in m && m[key(s[i])] == s[i])
    && (forall k :: k in m ==> exists i :: 0 <= i < |s| && key(s[i]) == k)
  }

  /** Filtering a listing lists the matching part of the map. */
  lemma ListsFilter<V(!new)>(s: seq<V>, m: map<string, V>, key: V -> string, p: V -> bool, want: map<string, V>)
    requires Lists(s, m, key) && forall k :: k in m ==> key(m[k]) == k
    requires forall k :: k in want <==> k in m && p(m[k])
    requires forall k :: k in want ==> want[k] == m[k]
    ensures Lists(Filter(s, p), want, key)
  {
    var r := Filter(s, p);
    forall i | 0 <= i < |r| ensures key(r[i]) in want && want[key(r[i])] == r[i] {
      assert r[i] in r;
      var j :| 0 <= j < |s| && s[j] == r[i];
    }
    forall k | k in want ensures exists i :: 0 <= i < |r| && key(r[i]) == k {
      var j :| 0 <= j < |s| && key(s[j]) == k;
      assert s[j] in r;
      var i :| 0 <= i < |r| && r[i] == s[j];
    }
    assert NoDuplicates(s);
    assert NoDuplicates(r);
  }


  /** `rel` has `id` as an endpoint. */
  predicate Touches(rel: Relationship, id: string) {
    rel.source == id || rel.target == id
  }

  /** `rel` goes from `source` to `target`. */
  predicate Links(rel: Relationship, source: string, target: string) {
    rel.source == source && rel.target == target
  }

  /** `table.toArray()`: every record of the table once. */
  method ListValues<V>(m: map<string, V>, key: V -> string) returns (s: seq<V>)
    requires forall k :: k in m ==> key(m[k]) == k
    ensures Lists(s, m, key)
  {
    var ks := Keys(m);
    s := [];
    var i := 0;
    while i < |ks|
      invariant 0 <= i <= |ks| && |s| == i
      invariant forall j :: 0 <= j < i ==> s[j] == m[ks[j]] && key(s[j]) == ks[j]
    {
      s := s + [m[ks[i]]];
      i := i + 1;
    }
    forall k | k in m ensures exists i :: 0 <= i < |s| && key(s[i]) == k {
      var i :| 0 <= i < |ks| && ks[i] == k;
      assert key(s[i]) == k;
    }
  }

  function NodeKey(n: Node): string { n.id }

  function RelKey(r: Relationship): string { r.id }

  class Database {
    var nodes: map<string, Node>
    var relationships: map<string, Relationship>
    var available: bool

    /** A record is stored under its own `id` (Dexie's primary key path). */
    ghost predicate Valid()
      reads this
    {
      && (forall k :: k in nodes ==> nodes[k].id == k)
      && (forall k :: k in relationships ==> relationships[k].id == k)
    }

    constructor (available: bool)
      ensures Valid() && this.available == available
      ensures nodes == map[] && relationships == map[]
    {
      nodes := map[];
      relationships := map[];
      this.available := available;
    }

    /** `createNode`: `db.nodes.add(node)` fails when the key is taken. */
    method CreateNode(n: Node) returns (r: Outcome<string>)
      requires Valid()
      modifies this
      ensures Valid() && available == old(available) && relationships == old(relationships)
      ensures !available ==> r == Err(Unavailable) && nodes == old(nodes)
      ensures available && n.id in old(nodes) ==> r == Err(ConstraintError) && nodes == old(nodes)
      ensures available && n.id !in old(nodes) ==> r == Ok(n.id) && nodes == old(nodes)[n.id := n]
    {
      if !available {
        return Err(Unavailable);
      }
      if n.id in nodes {
        return Err(ConstraintError);
      }
      nodes := nodes[n.id := n];
      r := Ok(n.id);
    }

    /** `getNode` */
    method GetNode(id: string) returns (r: Outcome<Option<Node>>)
      ensures !available ==> r == Err(Unavailable)
      ensures available ==> r == Ok(if id in nodes then Some(nodes[id]) else None)
    {
      if !available {
        return Err(Unavailable);
      }
      r := Ok(if id in nodes then Some(nodes[id]) else None);
    }

    /** `getAllNodes`: every stored node once. IndexedDB hands them back in key
        order; the model promises only that each appears exactly once. */
    method GetAllNodes() returns (r: Outcome<seq<Node>>)
      requires Valid()
      ensures !available ==> r == Err(Unavailable)
      ensures available ==> r.Ok? && Lists(r.value, nodes, NodeKey)
    {
      if !available {
        return Err(Unavailable);
      }
      var s := ListValues(nodes, NodeKey);
      r := Ok(s);
    }

    /** `getNodesByType`: the stored nodes of one kind, each once. */
    method GetNodesByType(kind: string) returns (r: Outcome<seq<Node>>)
      requires Valid()
      ensures !available ==> r == Err(Unavailable)
      ensures available ==> r.Ok? && Lists(r.value, map k | k in nodes && nodes[k].kind == kind :: nodes[k], NodeKey)
    {
      var all := GetAllNodes();
      if all.Err? {
        return Err(all.error);
      }
      var ofKind := (n: Node) => n.kind == kind;
      ListsFilter(all.value, nodes, NodeKey, ofKind, map k | k in nodes && nodes[k].kind == kind :: nodes[k]);
      r := Ok(Filter(all.value, ofKind));
    }

    /** `updateNode`: merges the patch into the stored node and reports how many
        records changed (0 when the key is absent). */
    method UpdateNode(id: string, p: NodePatch) returns (r: Outcome<int>)
      requires Valid()
      modifies this
      ensures Valid() && available == old(available) && relationships == old(relationships)
      ensures !available ==> r == Err(Unavailable) && nodes == old(nodes)
      ensures available && id !in old(nodes) ==> r == Ok(0) && nodes == old(nodes)
      ensures available && id in old(nodes) ==> r == Ok(1) && nodes == old(nodes)[id := MergeNode(old(nodes)[id], p)]
    {
      if !available {
        return Err(Unavailable);
      }
      if id !in nodes {
        return Ok(0);
      }
      nodes := nodes[id := MergeNode(nodes[id], p)];
      r := Ok(1);
    }

    /** `deleteNode`: first the relationships leaving `id`, then those arriving at
        it, then the node itself. */
    method DeleteNode(id: string) returns (r: Outcome<()>)
      requires Valid()
      modifies this
      ensures Valid() && available == old(available)
      ensures !available ==> r == Err(Unavailable) && nodes == old(nodes) && relationships == old(relationships)
      ensures available ==> r == Ok(())
      ensures available ==> nodes == old(nodes) - {id}
      ensures available ==> relationships == map k | k in old(relationships) && !Touches(old(relationships)[k], id) :: old(relationships)[k]
      ensures available ==> forall k :: k in relationships ==> relationships[k].source != id && relationships[k].target != id
    {
      if !available {
        return Err(Unavailable);
      }
      relationships := map k | k in relationships && relationships[k].source != id :: relationships[k];
      relationships := map k | k in relationships && relationships[k].target != id :: relationships[k];
      nodes := nodes - {id};
      r := Ok(());
    }

    /** `createRelationship`: `db.relationships.add(rel)`. */
    method CreateRelationship(rel: Relationship) returns (r: Outcome<string>)
      requires Valid()
      modifies this
      ensures Valid() && available == old(available) && nodes == old(nodes)
      ensures !available ==> r == Err(Unavailable) && relationships == old(relationships)
      ensures available && rel.id in old(relationships) ==> r == Err(ConstraintError) && relationships == old(relationships)
      ensures available && rel.id !in old(relationships) ==> r == Ok(rel.id) && relationships == old(relationships)[rel.id := rel]
    {
      if !available {
        return Err(Unavailable);
      }
      if rel.id in relationships {
        return Err(ConstraintError);
      }
      relationships := relationships[rel.id := rel];
      r := Ok(rel.id);
    }

    /** `getRelationship` */
    method GetRelationship(id: string) returns (r: Outcome<Option<Relationship>>)
      ensures !available ==> r == Err(Unavailable)
      ensures available ==> r == Ok(if id in relationships then Some(relationships[id]) else None)
    {
      if !available {
        return Err(Unavailable);
      }
      r := Ok(if id in relationships then Some(relationships[id]) else None);
    }

    /** `getAllRelationships`: every stored relationship once. */
    method GetAllRelationships() returns (r: Outcome<seq<Relationship>>)
      requires Valid()
      ensures !available ==> r == Err(Unavailable)
      ensures available ==> r.Ok? && Lists(r.value, relationships, RelKey)
    {
      if !available {
        return Err(Unavailable);
      }
      var s := ListValues(relationships, RelKey);
      r := Ok(s);
    }

    /** `getRelationshipsByNode`: the relationships leaving `id` followed by those
        arriving at it (a self-loop appears in both parts). */
    method GetRelationshipsByNode(id: string) returns (r: Outcome<seq<Relationship>>)
      requires Valid()
      ensures !available ==> r == Err(Unavailable)
      ensures available ==> r.Ok? && exists k :: (
        && 0 <= k <= |r.value|
        && Lists(r.value[..k], map x | x in relationships && relationships[x].source == id :: relationships[x], RelKey)
        && Lists(r.value[k..], map x | x in relationships && relationships[x].target == id :: relationships[x], RelKey))
    {
      var all := GetAllRelationships();
      if all.Err? {
        return Err(all.error);
      }
      var leaves := (x: Relationship) => x.source == id;
      var arrives := (x: Relationship) => x.target == id;
      var outgoing := Filter(all.value, leaves);
      var incoming := Filter(all.value, arrives);
      ListsFilter(all.value, relationships, RelKey, leaves, map x | x in relationships && relationships[x].source == id :: relationships[x]);
      ListsFilter(all.value, relationships, RelKey, arrives, map x | x in relationships && relationships[x].target == id :: relationships[x]);
      r := Ok(outgoing + incoming);
      assert r.value[..|outgoing|] == outgoing && r.value[|outgoing|..] == incoming;
    }

    /** `getRelationshipBetween`: a relationship from `source` to `target` if there
        is one, otherwise one from `target` to `source`. */
    method GetRelationshipBetween(source: string, target: string) returns (r: Outcome<Option<Relationship>>)
      requires Valid()
      ensures !available ==> r == Err(Unavailable)
      ensures available ==> r.Ok?
      ensures r.Ok? && r.value.Some? ==> r.value.value.id in relationships && relationships[r.value.value.id] == r.value.value
      ensures r.Ok? && r.value.Some? && !Links(r.value.value, source, target) ==>
        Links(r.value.value, target, source) && forall k :: k in relationships ==> !Links(relationships[k], source, target)
      ensures r.Ok? && r.value.None? ==>
        forall k :: k in relationships ==> !Links(relationships[k], source, target) && !Links(relationships[k], target, source)
    {
      var all := GetAllRelationships();
      if all.Err? {
        return Err(all.error);
      }
      var forward := Filter(all.value, (x: Relationship) => Links(x, source, target));
      var reverse := Filter(all.value, (x: Relationship) => Links(x, target, source));
      if forward != [] {
        assert forward[0] in forward;
        r := Ok(Some(forward[0]));
      } else if reverse != [] {
        assert reverse[0] in reverse;
        forall k | k in relationships ensures !Links(relationships[k], source, target) {
          assert relationships[k] in all.value;
        }
        r := Ok(Some(reverse[0]));
      } else {
        forall k | k in relationships
          ensures !Links(relationships[k], source, target) && !Links(relationships[k], target, source)
        {
          assert relationships[k] in all.value;
        }
        r := Ok(None);
      }
    }

    /** `updateRelationship`: merges the patch into the stored record. */
    method UpdateRelationship(id: string, p: RelPatch) returns (r: Outcome<int>)
      requires Valid()
      modifies this
      ensures Valid() && available == old(available) && nodes == old(nodes)
      ensures !available ==> r == Err(Unavailable) && relationships == old(relationships)
      ensures available && id !in old(relationships) ==> r == Ok(0) && relationships == old(relationships)
      ensures available && id in old(relationships) ==>
        r == Ok(1) && relationships == old(relationships)[id := MergeRel(old(relationships)[id], p)]
    {
      if !available {
        return Err(Unavailable);
      }
      if id !in relationships {
        return Ok(0);
      }
      relationships := relationships[id := MergeRel(relationships[id], p)];
      r := Ok(1);
    }

    /** `updateRelationship(key, relationship)` with a whole record as the
        changes. Every field is written, the record's own `id` included: when
        that id differs from `key` the record moves to the new key and the old
        key goes, which fails with ConstraintError when the new key is already
        taken. An unknown `key` answers 0 and changes nothing. */
    method ReplaceRelationship(key: string, rel: Relationship) returns (r: Outcome<int>)
      requires Valid()
      modifies this
      ensures Valid() && available == old(available) && nodes == old(nodes)
      ensures !available ==> r == Err(Unavailable) && relationships == old(relationships)
      ensures available && key !in old(relationships) ==> r == Ok(0) && relationships == old(relationships)
      ensures available && key in old(relationships) && rel.id != key && rel.id in old(relationships) ==>
        r == Err(ConstraintError) && relationships == old(relationships)
      ensures available && key in old(relationships) && (rel.id == key || rel.id !in old(relationships)) ==>
        && r == Ok(1) && rel.id in relationships && relationships[rel.id] == rel
        && (rel.id != key ==> key !in relationships)
        && relationships == (old(relationships) - {key})[rel.id := rel]
    {
      if !available {
        return Err(Unavailable);
      }
      if key !in relationships {
        return Ok(0);
      }
      if rel.id != key && rel.id in relationships {
        return Err(ConstraintError);
      }
      var written := MergeRel(relationships[key], FullRelPatch(rel));
      FullRelPatchWrites(relationships[key], rel);
      relationships := (relationships - {key})[rel.id := written.(id := rel.id)];
      r := Ok(1);
    }

    /** `deleteRelationship` */
    method DeleteRelationship(id: string) returns (r: Outcome<()>)
      requires Valid()
      modifies this
      ensures Valid() && available == old(available) && nodes == old(nodes)
      ensures !available ==> r == Err(Unavailable) && relationships == old(relationships)
      ensures available ==> r == Ok(()) && relationships == old(relationships) - {id}
    {
      if !available {
        return Err(Unavailable);
      }
      relationships := relationships - {id};
      r := Ok(());
    }

    /** `searchNodes`: the stored nodes matching the query, each once. */
    method SearchNodes(query: string) returns (r: Outcome<seq<Node>>)
      requires Valid()
      ensures !available ==> r == Err(Unavailable)
      ensures available ==> r.Ok? && Lists(r.value, map k | k in nodes && MatchesSearch(nodes[k], query) :: nodes[k], NodeKey)
    {
      var all := GetAllNodes();
      if all.Err? {
        return Err(all.error);
      }
      var matches := (n: Node) => MatchesSearch(n, query);
      ListsFilter(all.value, nodes, NodeKey, matches, map k | k in nodes && MatchesSearch(nodes[k], query) :: nodes[k]);
      r := Ok(Filter(all.value, matches));
    }
  }
}
