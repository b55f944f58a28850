/**
 * What the Cypher statements of db/entities.py do to the graph: the entity
 * `MERGE` (`MERGE_ENTITY_QUERY`), the case-insensitive name search, and the
 * `RELATED` edge `MERGE` (`MERGE_RELATIONSHIP_QUERY`), applied once or over a list.
 */
module EntityQueries {
  import opened Wrappers
  import opened Text
  import opened GraphNodes

  predicate HasEntity(es: seq<EntityNode>, name: string)
  {
    exists i :: 0 <= i < |es| && es[i].name == name
  }

  /** At most one Entity node per exact name. */
  predicate UniqueNames(es: seq<EntityNode>)
  {
    forall i, j :: 0 <= i < j < |es| ==> es[i].name != es[j].name
  }

  /** The `ON MATCH SET` of the entity merge: aliases overwritten, last_seen_at set, the rest kept. */
  function Touch(n: EntityNode, aliases: seq<string>, now: int): EntityNode
  {
    n.(aliases := aliases, lastSeenAt := Some(now))
  }

  /**
   * `MERGE (e:Entity {name: $name})`: every node with that exact name gets the
   * `ON MATCH` assignments; when there is none, one node is created with the
   * `ON CREATE` assignments.
   */
  function MergeEntity(es: seq<EntityNode>, name: string, aliases: seq<string>, entityType: string, now: int)
    : (r: seq<EntityNode>)
    ensures HasEntity(r, name)
    ensures forall n :: HasEntity(r, n) <==> HasEntity(es, n) || n == name
    ensures UniqueNames(es) ==> UniqueNames(r)
    ensures HasEntity(es, name) ==> |r| == |es|
    ensures !HasEntity(es, name) ==> |r| == |es| + 1
    ensures forall i :: 0 <= i < |es| && es[i].name != name ==> r[i] == es[i]
    ensures forall i :: 0 <= i < |es| && es[i].name == name ==>
      && r[i].name == name
      && r[i].aliases == aliases
      && r[i].entityType == es[i].entityType
      && r[i].createdAt == es[i].createdAt
      && r[i].lastSeenAt == Some(now)
    ensures !HasEntity(es, name) ==>
      && r[|es|].name == name
      && r[|es|].aliases == aliases
      && r[|es|].entityType == entityType
      && r[|es|].createdAt == now
      && r[|es|].lastSeenAt == None
  {
    if HasEntity(es, name) then
      var r := seq(|es|, i requires 0 <= i < |es| => if es[i].name == name then Touch(es[i], aliases, now) else es[i]);
      assert forall i :: 0 <= i < |es| ==> r[i].name == es[i].name;
      assert forall n :: HasEntity(r, n) ==> HasEntity(es, n) by {
        forall n | HasEntity(r, n) ensures HasEntity(es, n) {
          var i :| 0 <= i < |r| && r[i].name == n;
          assert es[i].name == n;
        }
      }
      assert forall n :: HasEntity(es, n) ==> HasEntity(r, n) by {
        forall n | HasEntity(es, n) ensures HasEntity(r, n) {
          var i :| 0 <= i < |es| && es[i].name == n;
          assert r[i].name == n;
        }
      }
      r
    else
      var r := es + [EntityNode(name, aliases, entityType, now, None)];
      assert r[|es|].name == name;
      assert forall n :: HasEntity(r, n) ==> HasEntity(es, n) || n == name by {
        forall n | HasEntity(r, n) ensures HasEntity(es, n) || n == name {
          var i :| 0 <= i < |r| && r[i].name == n;
          if i < |es| { assert es[i].name == n; }
        }
      }
      assert forall n :: HasEntity(es, n) ==> HasEntity(r, n) by {
        forall n | HasEntity(es, n) ensures HasEntity(r, n) {
          var i :| 0 <= i < |es| && es[i].name == n;
          assert r[i].name == n;
        }
      }
      r
  }

  /**
   * Merging the same name and aliases twice leaves one node with that name,
   * holding exactly those aliases, and no more nodes than merging once.
   */
  lemma MergeEntityTwice(es: seq<EntityNode>, name: string, aliases: seq<string>, entityType: string, t1: int, t2: int)
    requires UniqueNames(es)
    ensures var once := MergeEntity(es, name, aliases, entityType, t1);
      var twice := MergeEntity(once, name, aliases, entityType, t2);
      && UniqueNames(twice)
      && |twice| == |once|
      && exists i :: 0 <= i < |twice| && twice[i].name == name && twice[i].aliases == aliases
  {
    var once := MergeEntity(es, name, aliases, entityType, t1);
    var twice := MergeEntity(once, name, aliases, entityType, t2);
    var i :| 0 <= i < |once| && once[i].name == name;
    assert twice[i].name == name && twice[i].aliases == aliases;
  }

  /** A name-search row: what `RETURN e.name as name, e.aliases as aliases` yields. */
  function RecordOf(n: EntityNode): EntityRecord
  {
    EntityRecord(n.name, n.aliases)
  }

  /**
   * `search_similar_entities`: the regex `(?i).*name.*` matches exactly the
   * names containing the query, ASCII case ignored; rows come in node order.
   */
  function SearchSimilarEntities(es: seq<EntityNode>, query: string): (r: seq<EntityRecord>)
    ensures |r| <= |es|
    ensures forall n :: n in es && ContainsIgnoreCase(n.name, query) ==> RecordOf(n) in r
    ensures forall x :: x in r ==> exists n :: n in es && ContainsIgnoreCase(n.name, query) && x == RecordOf(n)
  {
    if es == [] then []
    else
      var last := es[|es| - 1];
      var init := es[..|es| - 1];
      assert es == init + [last];
      SearchSimilarEntities(init, query) + if ContainsIgnoreCase(last.name, query) then [RecordOf(last)] else []
  }

  function KeyOf(rel: RelationshipSchema): RelKey
  {
    RelKey(rel.subject, rel.pred, rel.obj)
  }

  /** Both `MATCH` clauses of the relationship merge find their Entity node. */
  predicate EndpointsExist(es: seq<EntityNode>, rel: RelationshipSchema)
  {
    HasEntity(es, rel.subject) && HasEntity(es, rel.obj)
  }

  /**
   * `MERGE_RELATIONSHIP_QUERY`: a missing endpoint makes the statement a
   * no-op; otherwise the one edge for (subject, predicate, object) is created
   * or has its confidence overwritten and last_seen_at set.
   */
  function StoreRelationship(es: seq<EntityNode>, rels: map<RelKey, RelatedEdge>, rel: RelationshipSchema, now: int)
    : (r: map<RelKey, RelatedEdge>)
    ensures !EndpointsExist(es, rel) ==> r == rels
    ensures EndpointsExist(es, rel) ==>
      && r.Keys == rels.Keys + {KeyOf(rel)}
      && r[KeyOf(rel)].confidence == rel.confidence
      && (KeyOf(rel) in rels ==>
            r[KeyOf(rel)].createdAt == rels[KeyOf(rel)].createdAt && r[KeyOf(rel)].lastSeenAt == Some(now))
      && (KeyOf(rel) !in rels ==> r[KeyOf(rel)].createdAt == now && r[KeyOf(rel)].lastSeenAt == None)
    ensures forall k :: k in rels && k != KeyOf(rel) ==> k in r && r[k] == rels[k]
  {
    if !EndpointsExist(es, rel) then rels
    else
      var k := KeyOf(rel);
      if k in rels then rels[k := rels[k].(confidence := rel.confidence, lastSeenAt := Some(now))]
      else rels[k := RelatedEdge(rel.confidence, now, None)]
  }

  /**
   * `store_relationships` (the definition that takes effect):
   * `store_relationship` on each item in order, each statement reading its
   * own `timestamp()`; `clock(i)` is the time of the `i`-th.
   */
  function StoreAll(es: seq<EntityNode>, rels: map<RelKey, RelatedEdge>, items: seq<RelationshipSchema>, clock: nat -> int)
    : map<RelKey, RelatedEdge>
  {
    if items == [] then rels
    else StoreRelationship(es, StoreAll(es, rels, items[..|items| - 1], clock), items[|items| - 1], clock(|items| - 1))
  }

  /** The batch adds exactly the keys of the items whose endpoints both exist. */
  lemma {:induction false} StoreAllKeys(es: seq<EntityNode>, rels: map<RelKey, RelatedEdge>, items: seq<RelationshipSchema>, clock: nat -> int)
    ensures forall k :: k in StoreAll(es, rels, items, clock) <==>
      k in rels || exists i :: 0 <= i < |items| && EndpointsExist(es, items[i]) && KeyOf(items[i]) == k
  {
    if items != [] {
      var init := items[..|items| - 1];
      StoreAllKeys(es, rels, init, clock);
      forall k ensures k in StoreAll(es, rels, items, clock) <==>
        k in rels || exists i :: 0 <= i < |items| && EndpointsExist(es, items[i]) && KeyOf(items[i]) == k
      {
        if exists i :: 0 <= i < |init| && EndpointsExist(es, init[i]) && KeyOf(init[i]) == k {
          var i :| 0 <= i < |init| && EndpointsExist(es, init[i]) && KeyOf(init[i]) == k;
          assert items[i] == init[i];
        }
        if exists i :: 0 <= i < |items| && EndpointsExist(es, items[i]) && KeyOf(items[i]) == k {
          var i :| 0 <= i < |items| && EndpointsExist(es, items[i]) && KeyOf(items[i]) == k;
          if i < |init| { assert init[i] == items[i]; }
        }
      }
    }
  }

  /**
   * Last writer wins: an edge's confidence is that of the last item with its
   * key whose endpoints exist, and that item's statement either created the
   * edge or stamped its `last_seen_at`.
   */
  lemma {:induction false} StoreAllLastWriterWins(
    es: seq<EntityNode>, rels: map<RelKey, RelatedEdge>, items: seq<RelationshipSchema>, clock: nat -> int, i: nat)
    requires i < |items| && EndpointsExist(es, items[i])
    requires forall j :: i < j < |items| ==> KeyOf(items[j]) != KeyOf(items[i]) || !EndpointsExist(es, items[j])
    ensures KeyOf(items[i]) in StoreAll(es, rels, items, clock)
    ensures StoreAll(es, rels, items, clock)[KeyOf(items[i])].confidence == items[i].confidence
    ensures var edge := StoreAll(es, rels, items, clock)[KeyOf(items[i])];
      edge.createdAt == clock(i) || edge.lastSeenAt == Some(clock(i))
  {
    var init := items[..|items| - 1];
    if i < |items| - 1 {
      assert init[i] == items[i];
      StoreAllLastWriterWins(es, rels, init, clock, i);
    }
  }
}
