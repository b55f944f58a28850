/**
 * db/memories.py: the `CREATE` of a Memory node with its embedding, the
 * `MERGE` of a Memory by content linked to a Document, and the similarity
 * search over Memory embeddings.
 */
module MemoryQueries {
  import opened Wrappers
  import opened GraphNodes
  import opened Vectors
  import opened Ranking

  /**
   * `create_memory_with_embedding`: an unconditional `CREATE` with content,
   * confidence, embedding and creation time; sentiment and tags stay unset.
   * The embedding is whatever the embedding service returned for the content
   * (`None` for blank text).
   */
  function CreateMemoryWithEmbedding(ms: seq<MemoryNode>, content: string, confidence: real, embedding: Option<seq<real>>, now: int)
    : (r: seq<MemoryNode>)
    ensures |r| == |ms| + 1 && r[..|ms|] == ms
    ensures r[|ms|].content == content && r[|ms|].confidence == confidence && r[|ms|].embedding == embedding
    ensures r[|ms|].sentiment == None && r[|ms|].tags == None
  {
    var r := ms + [MemoryNode(content, confidence, None, None, now, embedding)];
    assert r[..|ms|] == ms;
    r
  }

  /** Positions of the Memory nodes with this exact content: what `MERGE (m:Memory {content})` matches. */
  function MemoryIndices(ms: seq<MemoryNode>, content: string): (r: seq<nat>)
    ensures forall i :: i in r <==> 0 <= i < |ms| && ms[i].content == content
    ensures NoDuplicates(r)
    ensures forall i :: 0 <= i < |r| ==> r[i] < |ms|
  {
    if ms == [] then []
    else
      var n := |ms| - 1;
      MemoryIndices(ms[..n], content) + if ms[n].content == content then [n] else []
  }

  /** The memories and the `HAS_MEMORY` edges after a link statement. */
  datatype MemoryLink = MemoryLink(memories: seq<MemoryNode>, hasMemory: seq<Edge<nat>>)

  /** The node the `ON CREATE SET` branch builds for an extracted memory. */
  function NewMemory(m: MemorySchema, embedding: Option<seq<real>>, now: int): MemoryNode
  {
    MemoryNode(m.content, m.confidence, m.sentiment, Some(m.tags), now, embedding)
  }

  /**
   * `MERGE (m:Memory {content}) ON CREATE SET ...`: a node with all the
   * memory's properties is appended when no Memory has the content; every
   * existing node is left as it is.
   */
  function MergeMemory(ms: seq<MemoryNode>, m: MemorySchema, embedding: Option<seq<real>>, now: int): (r: seq<MemoryNode>)
    ensures |ms| <= |r| && r[..|ms|] == ms
    ensures MemoryIndices(ms, m.content) != [] ==> r == ms
    ensures MemoryIndices(ms, m.content) == [] ==>
      r == ms + [NewMemory(m, embedding, now)] && MemoryIndices(r, m.content) == [|ms|]
    ensures MemoryIndices(r, m.content) != []
  {
    if MemoryIndices(ms, m.content) == [] then
      var r := ms + [NewMemory(m, embedding, now)];
      assert r[..|ms|] == ms;
      assert MemoryIndices(r, m.content) == MemoryIndices(ms, m.content) + [|ms|];
      r
    else ms
  }

  /**
   * `create_document_memory_relationship`: with no Document of that id the
   * statement does nothing. Otherwise the memory is merged on its content:
   * created with all its properties when no Memory has that content, left
   * untouched when some do; then every matched document is linked once to
   * every Memory with that content.
   */
  function LinkDocumentMemory(
    docs: seq<DocumentNode>, ms: seq<MemoryNode>, hasMemory: seq<Edge<nat>>, docId: string,
    m: MemorySchema, embedding: Option<seq<real>>, now: int)
    : (r: MemoryLink)
    ensures DocIndices(docs, docId) == [] ==> r == MemoryLink(ms, hasMemory)
    ensures |ms| <= |r.memories| && r.memories[..|ms|] == ms
    ensures |r.memories| == if DocIndices(docs, docId) == [] || MemoryIndices(ms, m.content) != [] then |ms| else |ms| + 1
    ensures |r.memories| > |ms| ==> r.memories[|ms|] == NewMemory(m, embedding, now)
    ensures DocIndices(docs, docId) != [] ==> MemoryIndices(r.memories, m.content) != []
    ensures forall i, j :: (0 <= i < |docs| && docs[i].id == docId && 0 <= j < |r.memories| && r.memories[j].content == m.content
      ==> Edge(i, j) in r.hasMemory)
    ensures forall e :: e in r.hasMemory ==> (e in hasMemory ||
      (e.doc < |docs| && docs[e.doc].id == docId && e.target < |r.memories| && r.memories[e.target].content == m.content))
    ensures NoDuplicates(hasMemory) ==> NoDuplicates(r.hasMemory)
  {
    var sources := DocIndices(docs, docId);
    if sources == [] then MemoryLink(ms, hasMemory)
    else
      var memories := MergeMemory(ms, m, embedding, now);
      MemoryLink(memories, MergeEdges(hasMemory, sources, MemoryIndices(memories, m.content)))
  }

  /** Every `HAS_MEMORY` edge leaves one of the first `docCount` documents and ends at one of the first `memoryCount` memories. */
  predicate MemoryEdgesInRange(hasMemory: seq<Edge<nat>>, docCount: nat, memoryCount: nat)
  {
    forall e :: e in hasMemory ==> e.doc < docCount && e.target < memoryCount
  }

  /** Edges that join existing nodes still do after a link statement. */
  lemma LinkDocumentMemoryKeepsEdgesInRange(
    docs: seq<DocumentNode>, ms: seq<MemoryNode>, hasMemory: seq<Edge<nat>>, docId: string,
    m: MemorySchema, embedding: Option<seq<real>>, now: int)
    requires MemoryEdgesInRange(hasMemory, |docs|, |ms|)
    ensures var r := LinkDocumentMemory(docs, ms, hasMemory, docId, m, embedding, now);
      MemoryEdgesInRange(r.hasMemory, |docs|, |r.memories|)
  {
  }

  /** At most one Memory per content: the merge never adds a second node with the content it merges on. */
  lemma LinkDocumentMemoryKeepsContentUnique(
    docs: seq<DocumentNode>, ms: seq<MemoryNode>, hasMemory: seq<Edge<nat>>, docId: string,
    m: MemorySchema, embedding: Option<seq<real>>, now: int)
    requires |MemoryIndices(ms, m.content)| <= 1
    ensures |MemoryIndices(LinkDocumentMemory(docs, ms, hasMemory, docId, m, embedding, now).memories, m.content)| <= 1
  {
  }

  /** Linking the same document and memory a second time changes nothing. */
  lemma LinkDocumentMemoryTwice(
    docs: seq<DocumentNode>, ms: seq<MemoryNode>, hasMemory: seq<Edge<nat>>, docId: string,
    m: MemorySchema, embedding: Option<seq<real>>, t1: int, t2: int)
    ensures var once := LinkDocumentMemory(docs, ms, hasMemory, docId, m, embedding, t1);
      LinkDocumentMemory(docs, once.memories, once.hasMemory, docId, m, embedding, t2) == once
  {
    var once := LinkDocumentMemory(docs, ms, hasMemory, docId, m, embedding, t1);
    var sources := DocIndices(docs, docId);
    if sources != [] {
      MergeEdgesPresent(once.hasMemory, sources, MemoryIndices(once.memories, m.content));
    }
  }

  function MemoryEmbedding(m: MemoryNode): Option<seq<real>>
  {
    m.embedding
  }

  /** The ranked answer of a scan that did not fail: sorted, at most `k` rows, each an embedded memory scoring at least `minScore`. */
  lemma RankedMemories(ms: seq<MemoryNode>, query: seq<real>, minScore: real, quotient: Quotient, k: int)
    requires Scan(ms, MemoryEmbedding, query, minScore, quotient).Ok?
    ensures var r := Take(SortDesc(Scan(ms, MemoryEmbedding, query, minScore, quotient).value), k);
      && SortedDesc(r)
      && (k >= 0 ==> |r| <= k)
      && forall x :: x in r ==> x.item in ms && HasEmbedding(x.item.embedding) && x.similarity >= minScore
  {
    var kept := Scan(ms, MemoryEmbedding, query, minScore, quotient).value;
    TopK(kept, k);
    RankedFromKept(kept, k);
  }

  /**
   * `search_memories`: scores every Memory with a non-empty embedding, keeps
   * the scores of at least `minScore`, sorts them highest first (stably) and
   * returns the first `k`. A Memory whose embedding length differs from the
   * query's makes the search raise.
   */
  method SearchMemories(ms: seq<MemoryNode>, query: seq<real>, k: int, minScore: real, quotient: Quotient)
    returns (r: Result<seq<Scored<MemoryNode>>, VectorError>)
    ensures r == Rank(Scan(ms, MemoryEmbedding, query, minScore, quotient), k)
    ensures r.Err? <==> exists i :: 0 <= i < |ms| && HasEmbedding(ms[i].embedding) && |ms[i].embedding.value| != |query|
    ensures r.Ok? ==> SortedDesc(r.value)
    ensures r.Ok? && k >= 0 ==> |r.value| <= k
    ensures r.Ok? ==> forall x :: x in r.value ==>
      x.item in ms && HasEmbedding(x.item.embedding) && x.similarity >= minScore
  {
    var scores: seq<Scored<MemoryNode>> := [];
    var i := 0;
    while i < |ms|
      invariant 0 <= i <= |ms|
      invariant Scan(ms[..i], MemoryEmbedding, query, minScore, quotient) == Ok(scores)
    {
      var memory := ms[i];
      ScanStep(ms, MemoryEmbedding, query, minScore, quotient, i);
      if HasEmbedding(memory.embedding) {
        var score := Cosine(query, memory.embedding.value, quotient);
        if score.Err? {
          ScanPrefixFails(ms, MemoryEmbedding, query, minScore, quotient, i + 1);
          var full := Scan(ms, MemoryEmbedding, query, minScore, quotient);
          assert full == Err(ShapeMismatch) by { assert full.error.ShapeMismatch?; }
          return Err(score.error);
        }
        if score.value >= minScore {
          scores := scores + [Scored(memory, score.value)];
        }
      }
      i := i + 1;
    }
    assert ms[..i] == ms;
    var sorted := SortDesc(scores);
    r := Ok(Take(sorted, k));
    RankedMemories(ms, query, minScore, quotient, k);
  }
}
