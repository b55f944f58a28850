/**
 * Node and edge records of the knowledge graph, and the Cypher `MERGE` of an
 * edge pattern. Nodes are kept in creation order; a node's position is its
 * identity, so two Document nodes may share an `id` property.
 */
module GraphNodes {
  import opened Wrappers

  /** An `Entity` node: `name` is its exact, case-sensitive key. */
  datatype EntityNode = EntityNode(
    name: string, aliases: seq<string>, entityType: string, createdAt: int, lastSeenAt: Option<int>)

  /** A row of the entity search: `{name, aliases}`. */
  datatype EntityRecord = EntityRecord(name: string, aliases: seq<string>)

  /** An extracted relationship (models/relationship.py); `pred` and `obj` are the source's `predicate` and `object`. */
  datatype RelationshipSchema = RelationshipSchema(subject: string, pred: string, obj: string, confidence: real)

  /** What identifies a `RELATED` edge: subject name, predicate, object name. */
  datatype RelKey = RelKey(subject: string, pred: string, obj: string)

  datatype RelatedEdge = RelatedEdge(confidence: real, createdAt: int, lastSeenAt: Option<int>)

  /** A `Topic` node; a topic created by a document link has neither aliases nor notes. */
  datatype TopicNode = TopicNode(name: string, aliases: Option<seq<string>>, notes: Option<string>)

  /** The Document record handed to `create_document` (models/document.py). */
  datatype Document = Document(
    id: string, fileName: string, fileType: string, fileSize: int, uploadDate: int,
    originalPath: string, markdownPath: string, conversionStatus: string,
    errorMessage: Option<string>, entities: seq<string>)

  /** The properties `create_document` stores on a Document node. */
  datatype DocumentNode = DocumentNode(
    id: string, fileName: string, fileType: string, fileSize: int, uploadDate: int,
    originalPath: string, markdownPath: string, conversionStatus: string,
    errorMessage: Option<string>)

  /** An extracted memory as the document pipeline passes it on. */
  datatype MemorySchema = MemorySchema(content: string, confidence: real, tags: seq<string>, sentiment: Option<string>)

  /** A `Memory` node; properties never set are `None`. */
  datatype MemoryNode = MemoryNode(
    content: string, confidence: real, sentiment: Option<string>, tags: Option<seq<string>>,
    createdAt: int, embedding: Option<seq<real>>)

  /** An edge from the Document node at position `doc` to a target node. */
  datatype Edge<T> = Edge(doc: nat, target: T)

  predicate NoDuplicates<T(==)>(s: seq<T>)
  {
    forall i, j :: 0 <= i < j < |s| ==> s[i] != s[j]
  }

  /** Positions of the Document nodes whose `id` is `docId`: what `MATCH (d:Document {id: $id})` binds. */
  function DocIndices(docs: seq<DocumentNode>, docId: string): (r: seq<nat>)
    ensures forall i :: i in r <==> 0 <= i < |docs| && docs[i].id == docId
  {
    if docs == [] then []
    else
      var n := |docs| - 1;
      DocIndices(docs[..n], docId) + if docs[n].id == docId then [n] else []
  }

  /** `MERGE (d)-[:T]->(t)` for one pair: create the edge only if it is absent. */
  function MergeEdge<T(==)>(edges: seq<Edge<T>>, e: Edge<T>): (r: seq<Edge<T>>)
  {
    if e in edges then edges else edges + [e]
  }

  /** `MERGE` of an edge from `source` to each of `targets`, in order. */
  function MergeRow<T(==)>(edges: seq<Edge<T>>, source: nat, targets: seq<T>): (r: seq<Edge<T>>)
    ensures NoDuplicates(edges) ==> NoDuplicates(r)
    ensures |edges| <= |r| && r[..|edges|] == edges
    ensures forall e :: e in edges ==> e in r
    ensures forall t :: t in targets ==> Edge(source, t) in r
    ensures forall e :: e in r ==> e in edges || (e.doc == source && e.target in targets)
    decreases |targets|
  {
    if targets == [] then edges
    else
      var next := MergeEdge(edges, Edge(source, targets[0]));
      assert next[..|edges|] == edges;
      MergeRow(next, source, targets[1..])
  }

  /**
   * `MERGE` of an edge for every matched (source, target) row: afterwards every
   * pair is linked, nothing else is added, and no pair is linked twice.
   */
  function MergeEdges<T(==)>(edges: seq<Edge<T>>, sources: seq<nat>, targets: seq<T>): (r: seq<Edge<T>>)
    ensures NoDuplicates(edges) ==> NoDuplicates(r)
    ensures |edges| <= |r| && r[..|edges|] == edges
    ensures forall e :: e in edges ==> e in r
    ensures forall s, t :: s in sources && t in targets ==> Edge(s, t) in r
    ensures forall e :: e in r ==> e in edges || (e.doc in sources && e.target in targets)
    decreases |sources|
  {
    if sources == [] then edges
    else
      var next := MergeRow(edges, sources[0], targets);
      var r := MergeEdges(next, sources[1..], targets);
      assert r[..|edges|] == next[..|next|][..|edges|];
      r
  }

  /** Merging edges that are already present changes nothing. */
  lemma {:induction false} MergeEdgesPresent<T>(edges: seq<Edge<T>>, sources: seq<nat>, targets: seq<T>)
    requires forall s, t :: s in sources && t in targets ==> Edge(s, t) in edges
    ensures MergeEdges(edges, sources, targets) == edges
  {
    if sources != [] {
      MergeRowPresent(edges, sources[0], targets);
      MergeEdgesPresent(edges, sources[1..], targets);
    }
  }

  lemma {:induction false} MergeRowPresent<T>(edges: seq<Edge<T>>, source: nat, targets: seq<T>)
    requires forall t :: t in targets ==> Edge(source, t) in edges
    ensures MergeRow(edges, source, targets) == edges
  {
    if targets != [] {
      MergeRowPresent(edges, source, targets[1..]);
    }
  }
}
