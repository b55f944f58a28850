/**
 * The Neo4j graph the db/ modules write to, as one object whose node and
 * edge lists the Cypher statements update in place. Each method applies the
 * value-level meaning of one statement (EntityQueries, TopicQueries,
 * DocumentQueries, MemoryQueries) and keeps the store's invariant.
 */
module Store {
  import opened Wrappers
  import opened GraphNodes
  import opened EntityQueries
  import opened TopicQueries
  import opened DocumentQueries
  import opened MemoryQueries

  class GraphStore {
    var entities: seq<EntityNode>
    var related: map<RelKey, RelatedEdge>
    var topics: seq<TopicNode>
    var documents: seq<DocumentNode>
    var memories: seq<MemoryNode>
    var mentions: seq<Edge<string>>
    var hasTopic: seq<Edge<string>>
    var hasMemory: seq<Edge<nat>>

    /**
     * Entity and Topic names are keys; every edge joins nodes that exist;
     * no edge pattern is stored twice.
     */
    ghost predicate Valid()
      reads this
    {
      && UniqueNames(entities)
      && UniqueTopicNames(topics)
      && (forall k :: k in related ==> HasEntity(entities, k.subject) && HasEntity(entities, k.obj))
      && (forall e :: e in mentions ==> e.doc < |documents| && HasEntity(entities, e.target))
      && (forall e :: e in hasTopic ==> e.doc < |documents| && HasTopic(topics, e.target))
      && MemoryEdgesInRange(hasMemory, |documents|, |memories|)
      && NoDuplicates(mentions) && NoDuplicates(hasTopic) && NoDuplicates(hasMemory)
    }

    constructor ()
      ensures Valid()
      ensures entities == [] && related == map[] && topics == [] && documents == [] && memories == []
      ensures mentions == [] && hasTopic == [] && hasMemory == []
    {
      entities, related, topics, documents, memories := [], map[], [], [], [];
      mentions, hasTopic, hasMemory := [], [], [];
    }

    /** `update_entity`. */
    method UpdateEntity(name: string, aliases: seq<string>, entityType: string, now: int)
      requires Valid()
      modifies this
      ensures Valid()
      ensures entities == MergeEntity(old(entities), name, aliases, entityType, now)
      ensures HasEntity(entities, name)
      ensures related == old(related) && topics == old(topics) && documents == old(documents)
      ensures memories == old(memories) && mentions == old(mentions)
      ensures hasTopic == old(hasTopic) && hasMemory == old(hasMemory)
    {
      entities := MergeEntity(entities, name, aliases, entityType, now);
    }

    /** `store_relationship`. */
    method StoreRelationship(rel: RelationshipSchema, now: int)
      requires Valid()
      modifies this
      ensures Valid()
      ensures related == EntityQueries.StoreRelationship(old(entities), old(related), rel, now)
      ensures entities == old(entities) && topics == old(topics) && documents == old(documents)
      ensures memories == old(memories) && mentions == old(mentions)
      ensures hasTopic == old(hasTopic) && hasMemory == old(hasMemory)
    {
      related := EntityQueries.StoreRelationship(entities, related, rel, now);
    }

    /**
     * `store_relationships` (the effective second definition): one
     * `store_relationship` per item, in order, the `i`-th at time `clock(i)`.
     */
    method StoreRelationships(rels: seq<RelationshipSchema>, clock: nat -> int)
      requires Valid()
      modifies this
      ensures Valid()
      ensures related == StoreAll(old(entities), old(related), rels, clock)
      ensures entities == old(entities) && topics == old(topics) && documents == old(documents)
      ensures memories == old(memories) && mentions == old(mentions)
      ensures hasTopic == old(hasTopic) && hasMemory == old(hasMemory)
    {
      for i := 0 to |rels|
        invariant Valid()
        invariant related == StoreAll(old(entities), old(related), rels[..i], clock)
        invariant entities == old(entities) && topics == old(topics) && documents == old(documents)
        invariant memories == old(memories) && mentions == old(mentions)
        invariant hasTopic == old(hasTopic) && hasMemory == old(hasMemory)
      {
        assert rels[..i + 1][..i] == rels[..i];
        StoreRelationship(rels[i], clock(i));
      }
      assert rels[..|rels|] == rels;
    }

    /** `update_topic`. */
    method UpdateTopic(name: string, aliases: seq<string>)
      requires Valid()
      modifies this
      ensures Valid()
      ensures topics == TopicQueries.UpdateTopic(old(topics), name, aliases)
      ensures entities == old(entities) && related == old(related) && documents == old(documents)
      ensures memories == old(memories) && mentions == old(mentions)
      ensures hasTopic == old(hasTopic) && hasMemory == old(hasMemory)
    {
      topics := TopicQueries.UpdateTopic(topics, name, aliases);
    }

    /** `create_document_topic_relationship`. */
    method CreateDocumentTopicRelationship(docId: string, name: string)
      requires Valid()
      modifies this
      ensures Valid()
      ensures TopicLink(topics, hasTopic) == LinkDocumentTopic(old(documents), old(topics), old(hasTopic), docId, name)
      ensures entities == old(entities) && related == old(related) && documents == old(documents)
      ensures memories == old(memories) && mentions == old(mentions) && hasMemory == old(hasMemory)
    {
      var link := LinkDocumentTopic(documents, topics, hasTopic, docId, name);
      topics, hasTopic := link.topics, link.hasTopic;
    }

    /** `create_document`. */
    method CreateDocument(d: Document)
      requires Valid()
      modifies this
      ensures Valid()
      ensures documents == DocumentQueries.CreateDocument(old(documents), d)
      ensures entities == old(entities) && related == old(related) && topics == old(topics)
      ensures memories == old(memories) && mentions == old(mentions)
      ensures hasTopic == old(hasTopic) && hasMemory == old(hasMemory)
    {
      documents := DocumentQueries.CreateDocument(documents, d);
    }

    /** `create_document_entity_relationship`. */
    method CreateDocumentEntityRelationship(docId: string, name: string)
      requires Valid()
      modifies this
      ensures Valid()
      ensures mentions == LinkDocumentEntity(old(documents), old(entities), old(mentions), docId, name)
      ensures entities == old(entities) && related == old(related) && topics == old(topics)
      ensures documents == old(documents) && memories == old(memories)
      ensures hasTopic == old(hasTopic) && hasMemory == old(hasMemory)
    {
      mentions := LinkDocumentEntity(documents, entities, mentions, docId, name);
    }

    /** `update_document_status`. */
    method UpdateDocumentStatus(docId: string, status: string, errorMessage: Option<string>)
      requires Valid()
      modifies this
      ensures Valid()
      ensures documents == DocumentQueries.UpdateDocumentStatus(old(documents), docId, status, errorMessage)
      ensures entities == old(entities) && related == old(related) && topics == old(topics)
      ensures memories == old(memories) && mentions == old(mentions)
      ensures hasTopic == old(hasTopic) && hasMemory == old(hasMemory)
    {
      documents := DocumentQueries.UpdateDocumentStatus(documents, docId, status, errorMessage);
    }

    /** `create_memory_with_embedding`; `embedding` is what the embedding service returned for the content. */
    method CreateMemoryWithEmbedding(content: string, confidence: real, embedding: Option<seq<real>>, now: int)
      requires Valid()
      modifies this
      ensures Valid()
      ensures memories == MemoryQueries.CreateMemoryWithEmbedding(old(memories), content, confidence, embedding, now)
      ensures entities == old(entities) && related == old(related) && topics == old(topics)
      ensures documents == old(documents) && mentions == old(mentions)
      ensures hasTopic == old(hasTopic) && hasMemory == old(hasMemory)
    {
      memories := MemoryQueries.CreateMemoryWithEmbedding(memories, content, confidence, embedding, now);
    }

    /** `create_document_memory_relationship`; `embedding` is what the embedding service returned for the content. */
    method CreateDocumentMemoryRelationship(docId: string, m: MemorySchema, embedding: Option<seq<real>>, now: int)
      requires Valid()
      modifies this
      ensures Valid()
      ensures MemoryLink(memories, hasMemory) == LinkDocumentMemory(old(documents), old(memories), old(hasMemory), docId, m, embedding, now)
      ensures entities == old(entities) && related == old(related) && topics == old(topics)
      ensures documents == old(documents) && mentions == old(mentions) && hasTopic == old(hasTopic)
    {
      var link := LinkDocumentMemory(documents, memories, hasMemory, docId, m, embedding, now);
      LinkDocumentMemoryKeepsEdgesInRange(documents, memories, hasMemory, docId, m, embedding, now);
      memories, hasMemory := link.memories, link.hasMemory;
    }
  }
}
