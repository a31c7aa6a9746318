/**
 * The knowledge graph of the research agent (chapter-07/knowledge_graph.py):
 * entities stored under the key "type:name", relations kept in insertion
 * order, an adjacency list per entity key, relation queries, neighbour
 * lookup, and a depth-bounded breadth-first search for a chain of relations.
 *
 * Property values of entities and relations are free-form in the source;
 * here they are maps from strings to strings, and no operation looks inside.
 */
module Knowledge {
  import opened Wrappers
  import Digraph

  datatype Entity = Entity(name: string, entityType: string, properties: map<string, string>)

  datatype Relation = Relation(source: Entity, target: Entity, relationType: string, properties: map<string, string>)

  /** `Entity.__eq__`: two entities are equal when their names and types are; properties do not count. */
  predicate SameEntity(a: Entity, b: Entity) {
    a.name == b.name && a.entityType == b.entityType
  }

  /** `_entity_key`: the type, a colon, then the name. */
  function Key(e: Entity): string {
    e.entityType + ":" + e.name
  }

  predicate NoColon(s: string) {
    forall i :: 0 <= i < |s| ==> s[i] != ':'
  }

  /** The key determines where the type ends when the type holds no colon. */
  lemma KeyTypeLength(a: Entity, b: Entity)
    requires NoColon(b.entityType) && Key(a) == Key(b)
    ensures |a.entityType| >= |b.entityType|
  {
    var s := Key(a);
    assert s[|a.entityType|] == ':';
    forall i | 0 <= i < |b.entityType| ensures s[i] != ':' {
      assert s[i] == Key(b)[i] == b.entityType[i];
    }
  }

  /**
   * Keys identify entities the way `__eq__` does, as long as no type
   * contains a colon: equal keys exactly when the entities are equal.
   */
  lemma KeyInjective(a: Entity, b: Entity)
    requires NoColon(a.entityType) && NoColon(b.entityType)
    ensures Key(a) == Key(b) <==> SameEntity(a, b)
  {
    if Key(a) == Key(b) {
      KeyTypeLength(a, b);
      KeyTypeLength(b, a);
      var s, n := Key(a), |a.entityType|;
      assert a.entityType == s[..n] == b.entityType;
      assert a.name == s[n + 1..] == b.name;
    }
  }

  /** A type with a colon breaks that: two different entities share a key, and so one entry. */
  lemma KeyCollision()
    ensures var a, b := Entity("c", "a:b", map[]), Entity("b:c", "a", map[]);
            Key(a) == Key(b) && !SameEntity(a, b)
  {
  }

  /** `path` leads from the entity keyed `from` to the one keyed `to`, each relation starting where the last ended. */
  ghost predicate Chain(path: seq<Relation>, from: string, to: string)
    decreases |path|
  {
    if path == [] then from == to
    else Key(path[0].source) == from && Chain(path[1..], Key(path[0].target), to)
  }

  lemma {:induction false} ChainSnoc(path: seq<Relation>, from: string, to: string, r: Relation)
    requires Chain(path, from, to) && Key(r.source) == to
    ensures Chain(path + [r], from, Key(r.target))
    decreases |path|
  {
    if path != [] {
      assert (path + [r])[1..] == path[1..] + [r];
      ChainSnoc(path[1..], Key(path[0].target), to, r);
    } else {
      assert [r][1..] == [];
    }
  }

  /** An entry of the adjacency list of key `k`: a stored relation out of `k`, and the key it leads to. */
  ghost predicate EdgeOf(entities: map<string, Entity>, rels: seq<Relation>, k: string, e: (string, Relation)) {
    Key(e.1.source) == k && Key(e.1.target) == e.0 && e.0 in entities && e.1 in rels
  }

  /**
   * The invariant of the graph's three stores: every entity has an adjacency
   * list and is stored under its own key, and every adjacency entry is a
   * stored relation out of its key into a stored entity.
   */
  ghost predicate Indexed(entities: map<string, Entity>, rels: seq<Relation>, adjacency: map<string, seq<(string, Relation)>>) {
    && adjacency.Keys == entities.Keys
    && (forall k :: k in entities ==> Key(entities[k]) == k)
    && (forall k, i :: k in adjacency && 0 <= i < |adjacency[k]| ==> EdgeOf(entities, rels, k, adjacency[k][i]))
  }

  /** Storing an entity under its key, with an empty list for a new key, keeps the invariant. */
  lemma StoreIndexed(entities: map<string, Entity>, rels: seq<Relation>, adjacency: map<string, seq<(string, Relation)>>,
                     e: Entity)
    requires Indexed(entities, rels, adjacency)
    ensures Indexed(entities[Key(e) := e], rels, Listed(adjacency, e))
  {
    var es, adj := entities[Key(e) := e], Listed(adjacency, e);
    forall k, i | k in adj && 0 <= i < |adj[k]| ensures EdgeOf(es, rels, k, adj[k][i]) {
      assert k in adjacency && adj[k] == adjacency[k];
      assert EdgeOf(entities, rels, k, adjacency[k][i]);
    }
  }

  /** Appending a relation between stored entities, and its entry to its source's list, keeps the invariant. */
  lemma AppendIndexed(entities: map<string, Entity>, rels: seq<Relation>, adjacency: map<string, seq<(string, Relation)>>,
                      r: Relation)
    requires Indexed(entities, rels, adjacency)
    requires Key(r.source) in entities && Key(r.target) in entities
    ensures Indexed(entities, rels + [r], adjacency[Key(r.source) := adjacency[Key(r.source)] + [(Key(r.target), r)]])
  {
    var sourceKey := Key(r.source);
    var rs, adj := rels + [r], adjacency[sourceKey := adjacency[sourceKey] + [(Key(r.target), r)]];
    forall k, i | k in adj && 0 <= i < |adj[k]| ensures EdgeOf(entities, rs, k, adj[k][i]) {
      if k != sourceKey || i < |adjacency[sourceKey]| {
        assert adj[k][i] == adjacency[k][i];
        assert EdgeOf(entities, rels, k, adjacency[k][i]);
      }
    }
  }

  /** `add_entity`'s effect on the adjacency lists: an empty one for a new key, none changed. */
  function Listed(adjacency: map<string, seq<(string, Relation)>>, e: Entity): map<string, seq<(string, Relation)>> {
    if Key(e) in adjacency then adjacency else adjacency[Key(e) := []]
  }

  /** `add_relation`'s effect on the adjacency lists: both endpoints listed, then the relation appended to its source's list. */
  function Linked(adjacency: map<string, seq<(string, Relation)>>, r: Relation): map<string, seq<(string, Relation)>> {
    var a := Listed(Listed(adjacency, r.source), r.target);
    a[Key(r.source) := a[Key(r.source)] + [(Key(r.target), r)]]
  }

  /**
   * Adding a relation appends exactly one entry, to its source's list (empty
   * before if the source had none), lists the target, and leaves every other
   * list as it was.
   */
  lemma LinkedLists(adjacency: map<string, seq<(string, Relation)>>, r: Relation)
    ensures Linked(adjacency, r).Keys == adjacency.Keys + {Key(r.source), Key(r.target)}
    ensures Linked(adjacency, r)[Key(r.source)] == Adj(adjacency, Key(r.source)) + [(Key(r.target), r)]
    ensures forall k :: k in Linked(adjacency, r) && k != Key(r.source) ==> Linked(adjacency, r)[k] == Adj(adjacency, k)
  {
  }

  /** The adjacency list of `k`; a key without an entry has none. */
  function Adj(adjacency: map<string, seq<(string, Relation)>>, k: string): seq<(string, Relation)> {
    if k in adjacency then adjacency[k] else []
  }

  /** A relation-type filter: Python skips it when absent or empty. */
  predicate Wanted(r: Relation, relationType: Option<string>) {
    relationType.None? || relationType.value == "" || r.relationType == relationType.value
  }

  /** The filters of `get_relations`: an entity filter compares with `__eq__`. */
  predicate Selected(r: Relation, source: Option<Entity>, target: Option<Entity>, relationType: Option<string>) {
    && (source.None? || SameEntity(r.source, source.value))
    && (target.None? || SameEntity(r.target, target.value))
    && Wanted(r, relationType)
  }

  /** The relations of `rels` that pass the filters, in their order. */
  function FilterRelations(rels: seq<Relation>, source: Option<Entity>, target: Option<Entity>,
                           relationType: Option<string>): seq<Relation>
  {
    if rels == [] then []
    else
      var last := rels[|rels| - 1];
      FilterRelations(rels[..|rels| - 1], source, target, relationType)
        + (if Selected(last, source, target, relationType) then [last] else [])
  }

  /** The query returns exactly the relations that pass every filter. */
  lemma {:induction false} FilterRelationsMembers(rels: seq<Relation>, source: Option<Entity>, target: Option<Entity>,
                                                  relationType: Option<string>)
    ensures forall r :: r in FilterRelations(rels, source, target, relationType)
                        <==> r in rels && Selected(r, source, target, relationType)
    decreases |rels|
  {
    if rels != [] {
      var init := rels[..|rels| - 1];
      FilterRelationsMembers(init, source, target, relationType);
      assert rels == init + [rels[|rels| - 1]];
    }
  }

  /** Filtering keeps the order: the result for a concatenation is the concatenation of the results. */
  lemma {:induction false} FilterRelationsAppend(a: seq<Relation>, b: seq<Relation>, source: Option<Entity>,
                                                 target: Option<Entity>, relationType: Option<string>)
    ensures FilterRelations(a + b, source, target, relationType)
         == FilterRelations(a, source, target, relationType) + FilterRelations(b, source, target, relationType)
    decreases |b|
  {
    if b == [] {
      assert a + b == a;
    } else {
      var init := b[..|b| - 1];
      assert (a + b)[..|a + b| - 1] == a + init;
      FilterRelationsAppend(a, init, source, target, relationType);
    }
  }

  /** The neighbours listed by `get_neighbors`, in adjacency order. */
  function NeighborsOf(entities: map<string, Entity>, edges: seq<(string, Relation)>, relationType: Option<string>)
    : seq<(Entity, Relation)>
    requires forall i :: 0 <= i < |edges| ==> edges[i].0 in entities
  {
    if edges == [] then []
    else
      var last := edges[|edges| - 1];
      NeighborsOf(entities, edges[..|edges| - 1], relationType)
        + (if Wanted(last.1, relationType) then [(entities[last.0], last.1)] else [])
  }

  /**
   * Each neighbour is the stored entity at the far end of an adjacency entry
   * that passes the type filter, and every such entry gives a neighbour.
   */
  lemma {:induction false} NeighborsMeaning(entities: map<string, Entity>, edges: seq<(string, Relation)>,
                                            relationType: Option<string>)
    requires forall i :: 0 <= i < |edges| ==> edges[i].0 in entities
    ensures forall p :: p in NeighborsOf(entities, edges, relationType) <==>
              exists i :: 0 <= i < |edges| && Wanted(edges[i].1, relationType) && p == (entities[edges[i].0], edges[i].1)
    decreases |edges|
  {
    if edges != [] {
      var init, last := edges[..|edges| - 1], edges[|edges| - 1];
      NeighborsMeaning(entities, init, relationType);
      forall p ensures p in NeighborsOf(entities, edges, relationType) <==>
                 exists i :: 0 <= i < |edges| && Wanted(edges[i].1, relationType) && p == (entities[edges[i].0], edges[i].1)
      {
        if exists i :: 0 <= i < |edges| && Wanted(edges[i].1, relationType) && p == (entities[edges[i].0], edges[i].1) {
          var i :| 0 <= i < |edges| && Wanted(edges[i].1, relationType) && p == (entities[edges[i].0], edges[i].1);
          if i < |init| {
            assert init[i] == edges[i];
          }
        }
        if p in NeighborsOf(entities, init, relationType) {
          var i :| 0 <= i < |init| && Wanted(init[i].1, relationType) && p == (entities[init[i].0], init[i].1);
          assert edges[i] == init[i];
        }
      }
    }
  }

  // ---------------------------------------------------------------------------
  // The breadth-first search of `find_path`
  // ---------------------------------------------------------------------------

  /** A queue entry of the search: a stored key and a chain of stored relations to it from `from`, within the depth bound. */
  ghost predicate Reached(entities: map<string, Entity>, rels: seq<Relation>, from: string, maxDepth: int,
                          item: (string, seq<Relation>)) {
    && item.0 in entities
    && Chain(item.1, from, item.0)
    && (item.1 == [] || |item.1| <= maxDepth)
    && (forall i :: 0 <= i < |item.1| ==> item.1[i] in rels)
  }

  ghost predicate AllReached(entities: map<string, Entity>, rels: seq<Relation>, from: string, maxDepth: int,
                             queue: seq<(string, seq<Relation>)>) {
    forall j :: 0 <= j < |queue| ==> Reached(entities, rels, from, maxDepth, queue[j])
  }

  /** One relation more on a reached entry gives a reached entry for its far end. */
  lemma ReachedStep(entities: map<string, Entity>, rels: seq<Relation>, from: string, maxDepth: int,
                    current: string, path: seq<Relation>, e: (string, Relation))
    requires Reached(entities, rels, from, maxDepth, (current, path)) && |path| < maxDepth
    requires EdgeOf(entities, rels, current, e)
    ensures Reached(entities, rels, from, maxDepth, (e.0, path + [e.1]))
  {
    ChainSnoc(path, from, current, e.1);
  }

  /**
   * The inner loop of `find_path`: queue every unvisited far end of the
   * adjacency entries of `current`, marking it visited. Each entry queued
   * takes one key out of the unvisited ones, so the sum of the two counts
   * is unchanged.
   */
  method Expand(ghost entities: map<string, Entity>, ghost rels: seq<Relation>, ghost from: string, maxDepth: int,
                current: string, path: seq<Relation>, edges: seq<(string, Relation)>,
                visited0: set<string>, queue0: seq<(string, seq<Relation>)>)
    returns (visited: set<string>, queue: seq<(string, seq<Relation>)>)
    requires Reached(entities, rels, from, maxDepth, (current, path)) && |path| < maxDepth
    requires forall i :: 0 <= i < |edges| ==> EdgeOf(entities, rels, current, edges[i])
    requires AllReached(entities, rels, from, maxDepth, queue0)
    ensures visited0 <= visited <= visited0 + entities.Keys
    ensures AllReached(entities, rels, from, maxDepth, queue)
    ensures |entities.Keys - visited| + |queue| == |entities.Keys - visited0| + |queue0|
  {
    visited, queue := visited0, queue0;
    var i := 0;
    while i < |edges|
      invariant 0 <= i <= |edges|
      invariant visited0 <= visited <= visited0 + entities.Keys
      invariant AllReached(entities, rels, from, maxDepth, queue)
      invariant |entities.Keys - visited| + |queue| == |entities.Keys - visited0| + |queue0|
    {
      var (nextKey, relation) := edges[i];
      if nextKey !in visited {
        assert EdgeOf(entities, rels, current, edges[i]);
        ReachedStep(entities, rels, from, maxDepth, current, path, edges[i]);
        Digraph.CardMinusOne(entities.Keys, visited, nextKey);
        visited := visited + {nextKey};
        queue := queue + [(nextKey, path + [relation])];
      }
      i := i + 1;
    }
  }

  class KnowledgeGraph {
    /** The entities under their keys. */
    var entities: map<string, Entity>
    /** Every relation added, in insertion order. */
    var relations: seq<Relation>
    /** For each entity key, the relations out of it with the key each leads to, in insertion order. */
    var adjacency: map<string, seq<(string, Relation)>>

    /**
     * Every entity has an adjacency list, is stored under its own key, and
     * every adjacency entry is a stored relation out of its key into a stored entity.
     */
    ghost predicate Valid()
      reads this
    {
      Indexed(entities, relations, adjacency)
    }

    constructor ()
      ensures Valid()
      ensures entities == map[] && relations == [] && adjacency == map[]
    {
      entities, relations, adjacency := map[], [], map[];
    }

    /** `get_entity(name, entity_type)`: the entity stored under the key the two make, if any. */
    function GetEntity(name: string, entityType: string): (r: Option<Entity>)
      reads this
      requires Valid()
      ensures r.Some? ==> r.value in entities.Values && Key(r.value) == entityType + ":" + name
      ensures r.None? <==> entityType + ":" + name !in entities
    {
      var key := entityType + ":" + name;
      if key in entities then Some(entities[key]) else None
    }

    /**
     * `add_entity`: stores the entity under its key, replacing any entity
     * there, and gives the key an empty adjacency list only if it had none.
     */
    method AddEntity(e: Entity)
      requires Valid()
      modifies this
      ensures Valid()
      ensures entities == old(entities)[Key(e) := e]
      ensures adjacency == Listed(old(adjacency), e)
      ensures relations == old(relations)
      ensures GetEntity(e.name, e.entityType) == Some(e)
    {
      var key := Key(e);
      StoreIndexed(entities, relations, adjacency, e);
      entities := entities[key := e];
      if key !in adjacency {
        adjacency := adjacency[key := []];
      }
    }

    /**
     * `add_relation`: registers each endpoint that is not stored yet, then
     * appends the relation to the relation list and to the adjacency list of
     * its source.
     */
    method AddRelation(r: Relation)
      requires Valid()
      modifies this
      ensures Valid()
      ensures entities == Register(Register(old(entities), r.source), r.target)
      ensures relations == old(relations) + [r]
      ensures adjacency == Linked(old(adjacency), r)
    {
      Endpoint(r.source);
      Endpoint(r.target);
      Append(r);
    }

    /** The last two steps of `add_relation`, once both endpoints are stored. */
    method Append(r: Relation)
      requires Valid() && Key(r.source) in entities && Key(r.target) in entities
      modifies this
      ensures Valid()
      ensures entities == old(entities) && relations == old(relations) + [r]
      ensures adjacency == old(adjacency)[Key(r.source) := old(adjacency)[Key(r.source)] + [(Key(r.target), r)]]
    {
      var sourceKey, targetKey := Key(r.source), Key(r.target);
      AppendIndexed(entities, relations, adjacency, r);
      relations := relations + [r];
      adjacency := adjacency[sourceKey := adjacency[sourceKey] + [(targetKey, r)]];
    }

    /** One endpoint of `add_relation`: stored through `add_entity` only when its key is not taken. */
    method Endpoint(e: Entity)
      requires Valid()
      modifies this
      ensures Valid()
      ensures entities == Register(old(entities), e)
      ensures relations == old(relations)
      ensures adjacency == Listed(old(adjacency), e)
    {
      if Key(e) !in entities {
        AddEntity(e);
      }
    }

    /** `get_relations(source, target, relation_type)`: the stored relations that pass every given filter, in insertion order. */
    method GetRelations(source: Option<Entity>, target: Option<Entity>, relationType: Option<string>)
      returns (results: seq<Relation>)
      ensures results == FilterRelations(relations, source, target, relationType)
      ensures forall r :: r in results <==> r in relations && Selected(r, source, target, relationType)
    {
      results := [];
      var i := 0;
      while i < |relations|
        invariant 0 <= i <= |relations|
        invariant results == FilterRelations(relations[..i], source, target, relationType)
      {
        var r := relations[i];
        assert relations[..i + 1][..i] == relations[..i];
        if Selected(r, source, target, relationType) {
          results := results + [r];
        }
        i := i + 1;
      }
      assert relations[..i] == relations;
      FilterRelationsMembers(relations, source, target, relationType);
    }

    /**
     * `find_path(source, target, max_depth)`: nothing when either end is not
     * stored, the empty chain when they share a key, and otherwise a chain of
     * stored relations from the source's key to the target's key with at most
     * `max_depth` relations, if the search finds one.
     */
    method FindPath(source: Entity, target: Entity, maxDepth: int) returns (r: Option<seq<Relation>>)
      requires Valid()
      ensures Key(source) !in entities || Key(target) !in entities ==> r == None
      ensures Key(source) in entities && Key(target) in entities && Key(source) == Key(target) ==> r == Some([])
      ensures r.Some? ==> Chain(r.value, Key(source), Key(target))
      ensures r.Some? && r.value != [] ==> |r.value| <= maxDepth
      ensures r.Some? ==> forall i :: 0 <= i < |r.value| ==> r.value[i] in relations
    {
      var sourceKey, targetKey := Key(source), Key(target);
      if sourceKey !in entities || targetKey !in entities {
        return None;
      }
      var queue: seq<(string, seq<Relation>)> := [(sourceKey, [])];
      var visited := {sourceKey};
      while queue != []
        invariant visited <= entities.Keys
        invariant AllReached(entities, relations, sourceKey, maxDepth, queue)
        invariant sourceKey != targetKey || queue == [(sourceKey, [])]
        decreases |entities.Keys - visited| + |queue|
      {
        var (current, path) := queue[0];
        assert Reached(entities, relations, sourceKey, maxDepth, queue[0]);
        queue := queue[1..];
        if current == targetKey {
          return Some(path);
        }
        if |path| < maxDepth {
          var edges := Adj(adjacency, current);
          assert forall i :: 0 <= i < |edges| ==> EdgeOf(entities, relations, current, edges[i]);
          visited, queue := Expand(entities, relations, sourceKey, maxDepth, current, path, edges, visited, queue);
        }
      }
      return None;
    }

    /** `get_neighbors(entity, relation_type)`: the far ends and relations of the entity's adjacency entries that pass the type filter. */
    method GetNeighbors(entity: Entity, relationType: Option<string>) returns (neighbors: seq<(Entity, Relation)>)
      requires Valid()
      ensures forall i :: 0 <= i < |Adj(adjacency, Key(entity))| ==> Adj(adjacency, Key(entity))[i].0 in entities
      ensures neighbors == NeighborsOf(entities, Adj(adjacency, Key(entity)), relationType)
      ensures forall p :: p in neighbors ==>
                p.1 in relations && Key(p.1.source) == Key(entity) && Key(p.1.target) in entities
                && p.0 == entities[Key(p.1.target)] && Wanted(p.1, relationType)
    {
      var edges := Adj(adjacency, Key(entity));
      assert forall i :: 0 <= i < |edges| ==> EdgeOf(entities, relations, Key(entity), edges[i]);
      neighbors := [];
      var i := 0;
      while i < |edges|
        invariant 0 <= i <= |edges|
        invariant neighbors == NeighborsOf(entities, edges[..i], relationType)
      {
        var (nextKey, relation) := edges[i];
        assert edges[..i + 1][..i] == edges[..i];
        if Wanted(relation, relationType) {
          neighbors := neighbors + [(entities[nextKey], relation)];
        }
        i := i + 1;
      }
      assert edges[..i] == edges;
      NeighborsMeaning(entities, edges, relationType);
    }
  }

  /** Store `e` under its key unless the key is taken. */
  function Register(entities: map<string, Entity>, e: Entity): (r: map<string, Entity>)
    ensures Key(e) in r && r.Keys == entities.Keys + {Key(e)}
    ensures forall k :: k in entities ==> r[k] == entities[k]
  {
    if Key(e) in entities then entities else entities[Key(e) := e]
  }
}
