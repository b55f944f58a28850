# KnowledgeNexus entity resolution and graph merge, in Dafny

This project models the core of KnowledgeNexus, which turns text into a Neo4j
knowledge graph. The modelled parts are:

- **Entity resolution** (`nexus/entity_resolution.py`).
  - The weighted lexical similarity: 0.7 × the name ratio plus 0.3 × the best alias-pair ratio.
  - The merge rule: the longer name wins, and the aliases are united.
  - The three-band decision: new, auto-merge, or AI tie-break. It mutates the caller's candidate pool in place.
- **The batch driver** (`nexus/entity_processing.py`). It takes each extracted entity in turn:
  1. builds an alias-less candidate;
  2. fetches a pool from the store by name search;
  3. resolves the candidate against that pool;
  4. upserts the outcome.
- **Graph upserts** (`db/entities.py`, `db/topics.py`, `db/documents.py`, `db/memories.py`).
  - Each Cypher statement is a function on an in-memory graph, and `Store.GraphStore` holds that graph in fields.
  - Each statement becomes a method that updates the fields and keeps the store's invariant: unique names, edges between existing nodes, and no duplicate edges.
- **Similarity search** (`db/memories.py`, `db/knowledge_search.py`).
  - Each embedded node is scored by cosine similarity.
  - Rows under the threshold are dropped.
  - The rest are stable-sorted highest first and cut with Python's `[:k]`.
  - The search also lists the searchable labels.
- **Cleanup of LLM output** (`cognitive/entity_extraction.py`). It takes the greedy `{…}` span and deletes trailing commas in one regex pass.

Modules, one per source concern:

| module | file | concern |
|---|---|---|
| `Wrappers` | `wrappers.dfy` | Option and Result |
| `Text` | `text.dfy` | ASCII lower-casing, substring search, string order |
| `EntityResolution` | `entity_resolution.dfy` | similarity, merge and the resolution policy |
| `GraphNodes` | `graph_nodes.dfy` | node and edge records, and the edge `MERGE` |
| `EntityQueries`, `TopicQueries`, `DocumentQueries`, `MemoryQueries` | `entity_queries.dfy`, `topic_queries.dfy`, `document_queries.dfy`, `memory_queries.dfy` | one module per `db/` file |
| `Vectors` | `vectors.dfy` | the cosine guard |
| `Ranking` | `ranking.dfy` | scoring, stable sort and the `[:k]` cut |
| `KnowledgeSearch` | `knowledge_search.dfy` | search over all nodes |
| `Store` | `graph_store.dfy` | the mutable graph |
| `EntityExtraction` | `entity_extraction.dfy` | LLM output cleanup |
| `EntityProcessing` | `entity_processing.dfy` | the batch driver |

## Modelling choices

Everything outside the program becomes a parameter:

- `difflib.SequenceMatcher(...).ratio()` is `ratio`. Where a property needs it, it is assumed to map into [0, 1] (`RatioBounded`).
- The OpenAI tie-break is `judge`. Its `ApiError` answer stands for the exception branch.
- The floating-point quotient `dot / (norm1 * norm2)` is `quotient`.
- The embedding service's answer is `embedding`.
- `json.loads`, together with building the records, is `decode`.
- Cypher `timestamp()` is `now`. Where a loop runs one statement per item (the batch driver, `store_relationships`), it is `clock(i)` for the `i`-th statement.
- Whether `"types" in record` holds for a record of the all-labels search is `typesInRecord`. It depends on the driver's record type, which is not part of this model.

How the graph is represented:

- Nodes are kept in creation order, and a node's position is its identity. So two Document nodes may share an `id`, and two Memory nodes may share content.
- Rows come back in node order. Neo4j leaves that order unspecified, and node order stands in for row order wherever a contract depends on it:
  - which document `get_document_metadata` returns (`FirstDoc`, `GetDocumentMetadata`);
  - which pool member wins a tie in `Best`, since the pool is built from the name-search rows;
  - how `SortDescStable` and `TopK` order equal scores, which is fetch order.

Behaviours of the code that the model keeps as they are:

- **Entity and topic upserts.**
  - Entity and Topic names are exact, case-sensitive keys.
  - An entity `MERGE` overwrites the aliases on a match rather than uniting them.
  - It keeps `entity_type` on a match.
- **Relationships.**
  - A relationship whose subject or object is missing is skipped silently. There is no dangling-reference error.
  - Nothing serialises concurrent upserts, and nothing is modelled for it.
- **Resolution.**
  - A merge unites aliases by exact string, not case-insensitively.
  - The driver builds every candidate without aliases. A candidate that has the same name as a stored entity with aliases therefore scores 0.7, not 1.0 (`SameNameWithoutAliasesIsAmbiguous`).
  - Auto-merge is unreachable from the driver with the default thresholds (`DefaultsNeverAutoMerge`).
- **Other statements.**
  - `create_document` always creates a node, so it is not idempotent.
  - The `MERGE` of a Memory on its content matches every Memory with that content.
- **Trailing-comma cleanup.** The substitution deletes the comma together with the whitespace after it, and it is not idempotent.

## Model

| member | source | states |
|---|---|---|
| `EntityResolution.RowMaxIsMaximum` | nexus/entity_resolution.py:42-49 | the running maximum over one alias row bounds every pair ratio of that row, and is 0 or one of them |
| `EntityResolution.AliasMaxIsMaximum` | nexus/entity_resolution.py:41-49 | the alias term is the maximum ratio over all lower-cased alias pairs, or 0 when there is no pair |
| `EntityResolution.SimilarityBounds` | nexus/entity_resolution.py:35-51 | with ratios in [0, 1] the similarity lies in [0, 1]; when either side has no aliases it is exactly 0.7 × the name ratio, so at most 0.7 |
| `EntityResolution.Distinct` | nexus/entity_resolution.py:114 | `list(set(xs))` holds exactly the members of `xs`, each once |
| `EntityResolution.MergeEntities` | nexus/entity_resolution.py:109-117 | the merged name is one of the two, at least as long as both, and the first argument's on a tie; the aliases are exactly the union, without duplicates; no id |
| `EntityResolution.AiAssistedResolution` | nexus/entity_resolution.py:99-107 | on an API error the verdict is "no" with the similarity as confidence; otherwise it is the parsed reply |
| `EntityResolution.Best` | nexus/entity_resolution.py:124-133 | the best match is the first pool member with the strictly greatest positive score; with no positive score there is none and the best score stays 0 |
| `EntityResolution.RemoveFirst` | nexus/entity_resolution.py:144 | `list.remove` of a member shortens the list by one |
| `EntityResolution.RemoveFirstAt` | nexus/entity_resolution.py:144 | removing an element equal to no earlier one deletes exactly that position |
| `EntityResolution.ResolveNewAppends` | nexus/entity_resolution.py:135-139 | a "new" outcome returns the candidate unchanged and appends it; existing members are untouched |
| `EntityResolution.ResolveMergeReplacesBest` | nexus/entity_resolution.py:140-155 | a merge outcome returns merge(candidate, best match), deletes the best match's position and appends the merged entity; the pool keeps its length |
| `EntityResolution.ResolveBands` | nexus/entity_resolution.py:135-160 | below `lower` means new; at or above `upper` means auto-merge; in between, the merge happens iff the AI says "yes" with confidence at least `upper`; resolution fails exactly when `lower` ≤ 0 and no member scores above 0 |
| `EntityResolution.PositiveLowerNeverFails` | nexus/entity_resolution.py:135-150 | with a positive lower threshold resolution always returns an entity |
| `EntityResolution.ApiErrorNeverApproves` | nexus/entity_resolution.py:99-107 | the fallback verdict after an API error never approves a merge |
| `EntityResolution.ApiErrorNeverMerges` | nexus/entity_resolution.py:147-160 | when every AI call errors, no AI merge happens |
| `EntityResolution.NoAliasesNeverAutoMerge` | nexus/entity_resolution.py:140-146 | a candidate without aliases is never auto-merged when the upper threshold exceeds 0.7 |
| `EntityResolution.ResolvedFromCandidateOrPool` | nexus/entity_resolution.py:135-160 | the returned name is the candidate's or a pool member's, and every returned alias comes from one of them |
| `EntityResolution.SameNameWithoutAliasesIsAmbiguous` | nexus/entity_resolution.py:30-54 | an alias-less candidate with a pool member's exact name scores 0.7 and, with the default thresholds, is merged only on the AI's approval |
| `EntityResolution.EntityList.constructor` | nexus/entity_resolution.py:119 | the list holds the given entities |
| `EntityResolution.EntityList.Append` | nexus/entity_resolution.py:138 | `append` adds the entity at the end |
| `EntityResolution.EntityList.Remove` | nexus/entity_resolution.py:144 | `remove` drops the first equal element |
| `EntityResolution.EntityResolutionPipeline.constructor` | nexus/entity_resolution.py:26-28 | the pipeline keeps the two thresholds it is given |
| `EntityResolution.EntityResolutionPipeline.ComputeSimilarity` | nexus/entity_resolution.py:30-54 | the nested alias loops compute exactly the weighted similarity whose bounds `SimilarityBounds` states |
| `EntityResolution.EntityResolutionPipeline.ResolveEntities` | nexus/entity_resolution.py:119-160 | the returned entity and the caller's list afterwards are those of the resolution policy applied to the list before; on failure the list is unchanged |
| `GraphNodes.DocIndices` | db/documents.py:33 | the positions bound by `MATCH (d:Document {id})` are exactly those of documents with that id |
| `GraphNodes.MergeRow` | db/documents.py:35 | merging edges from one source adds each missing edge once, keeps every old edge, adds nothing else and keeps edges distinct |
| `GraphNodes.MergeEdges` | db/documents.py:33-35 | after an edge `MERGE` every matched pair is linked, nothing else is added, old edges stay in place, and no pair is linked twice |
| `GraphNodes.MergeEdgesPresent` | db/topics.py:26 | merging edges that are all present changes nothing |
| `GraphNodes.MergeRowPresent` | db/documents.py:35 | merging one source's edges that are all present changes nothing |
| `EntityQueries.MergeEntity` | db/entities.py:8-18 | afterwards the name exists, exactly one more name when it was absent; on a match the aliases are overwritten and `last_seen_at` set while type and `created_at` are kept; on create the node gets aliases, type and `created_at`; other nodes are unchanged; unique names stay unique |
| `EntityQueries.MergeEntityTwice` | db/entities.py:8-18 | a repeated identical upsert adds no node and leaves a node with that name holding exactly the given aliases |
| `EntityQueries.SearchSimilarEntities` | db/entities.py:55-66 | the rows are exactly the entities whose name contains the query, ASCII case ignored |
| `EntityQueries.StoreRelationship` | db/entities.py:26-37 | a missing endpoint changes nothing; otherwise exactly the one key is added or updated; confidence is overwritten, `created_at` kept on match and set on create, `last_seen_at` set on match; other edges are unchanged |
| `EntityQueries.StoreAllKeys` | db/entities.py:101-104 | storing a list adds exactly the keys of the items whose endpoints exist |
| `EntityQueries.StoreAllLastWriterWins` | db/entities.py:101-104 | an edge's confidence is that of the last stored item with its key, and that item's statement either created the edge at its own timestamp or set `last_seen_at` to it |
| `TopicQueries.UpdateTopic` | db/topics.py:16-21 | afterwards exactly one more name exists when it was absent, its aliases are the argument on both paths, and notes and other topics are untouched |
| `TopicQueries.SearchSimilarTopics` | db/topics.py:8-13 | the rows are exactly the topics whose lower-cased name contains the lower-cased query |
| `TopicQueries.LinkDocumentTopic` | db/topics.py:24-29 | with no matching document nothing changes; otherwise the topic exists (created bare only when absent, existing topics untouched) and every matching document is linked to it, with no other edge and no duplicate |
| `TopicQueries.LinkDocumentTopicTwice` | db/topics.py:26 | a repeated link changes nothing |
| `DocumentQueries.CreateDocument` | db/documents.py:11-27 | a node holding every field of the record but its entity list is appended after the existing ones, so one more document carries the id |
| `DocumentQueries.CreateDocumentTwice` | db/documents.py:14-25 | creating the same document twice leaves two more nodes with its id |
| `DocumentQueries.LinkDocumentEntity` | db/documents.py:29-37 | an edge is added only when both the document and the entity exist; every matching document is then linked, old edges stay, and edges stay distinct |
| `DocumentQueries.LinkDocumentEntityTwice` | db/documents.py:33-35 | a repeated link changes nothing |
| `DocumentQueries.UpdateDocumentStatus` | db/documents.py:58-71 | only status and error message of documents with the id change; an unknown id changes nothing; ids are kept |
| `DocumentQueries.GetDocumentEntities` | db/documents.py:49-56 | the names returned are exactly those at the end of a `MENTIONS` edge leaving a document with the id |
| `DocumentQueries.FirstDoc` | db/documents.py:46 | the first document with the id, or none exactly when no document has it |
| `DocumentQueries.GetDocumentMetadata` | db/documents.py:39-47 | `None` exactly when no document has the id; otherwise the first document with it |
| `DocumentQueries.CreateThenGetMetadata` | db/documents.py:11-47 | a created document is found by its id and, when its id is new, read back as stored |
| `Vectors.Cosine` | db/memories.py:82-87 | vectors of different lengths raise; a zero vector on either side gives 0; otherwise the quotient |
| `Ranking.Insert` | db/memories.py:114 | inserting keeps every element (as a multiset) |
| `Ranking.SortDesc` | db/memories.py:114 | the sort is a permutation, ordered highest similarity first |
| `Ranking.SortDescStable` | db/knowledge_search.py:71 | equal scores keep their input order |
| `Ranking.Take` | db/memories.py:115 | `[:k]` is a prefix of length min(k, n) for k ≥ 0, and drops the last -k rows for k < 0 |
| `Ranking.TopK` | db/knowledge_search.py:71-72 | the answer is sorted, holds at most k rows for k ≥ 0, together with the dropped rows is the kept list, and no dropped row outscores a returned one |
| `Ranking.RankedFromKept` | db/knowledge_search.py:71-72 | every returned row passed the threshold filter |
| `Ranking.Scan` | db/memories.py:103-111 | the search raises exactly when an embedded item's length differs from the query's; kept rows are embedded items scoring at least `minScore`, and every such item is kept |
| `Ranking.ScanPrefixFails` | db/memories.py:107 | a shape error on an early item aborts the whole scan |
| `MemoryQueries.CreateMemoryWithEmbedding` | db/memories.py:35-58 | a Memory is appended with content, confidence and embedding; sentiment and tags stay unset |
| `MemoryQueries.MemoryIndices` | db/memories.py:124 | the positions `MERGE (m:Memory {content})` matches |
| `MemoryQueries.MergeMemory` | db/memories.py:124-125 | the Memory merge keeps every existing node; it appends one node with all the memory's properties exactly when no Memory has the content, and afterwards some Memory has it |
| `MemoryQueries.LinkDocumentMemory` | db/memories.py:117-129 | with no matching document nothing changes; otherwise a Memory with the content exists, created with all properties only when absent, existing ones untouched, and every matching document is linked to every such Memory, with no other edge and no duplicate |
| `MemoryQueries.LinkDocumentMemoryKeepsContentUnique` | db/memories.py:123-125 | at most one Memory per content stays at most one |
| `MemoryQueries.LinkDocumentMemoryKeepsEdgesInRange` | db/memories.py:123-126 | every `HAS_MEMORY` edge still leaves an existing Document and reaches an existing Memory |
| `MemoryQueries.LinkDocumentMemoryTwice` | db/memories.py:123-126 | a repeated link changes nothing |
| `MemoryQueries.RankedMemories` | db/memories.py:113-115 | the sorted and cut answer is ordered highest first, holds at most k rows for k ≥ 0, and each row is an embedded memory scoring at least `min_score` |
| `MemoryQueries.SearchMemories` | db/memories.py:89-115 | the loop yields the ranked scan: an error exactly on a shape mismatch, otherwise at most k rows, sorted, each an embedded memory scoring at least `min_score` |
| `KnowledgeSearch.FetchRows` | db/knowledge_search.py:36-65 | the fetched rows are exactly the selected nodes with an embedding; `types` holds the node's labels exactly when the search is over all labels and `"types" in record` holds, and is absent otherwise |
| `KnowledgeSearch.SearchFailsOnMismatch` | db/knowledge_search.py:54-59 | the search raises exactly when a selected node's non-empty embedding differs in length from the query |
| `KnowledgeSearch.RankedRows` | db/knowledge_search.py:54-72 | every returned row is a selected node with a non-empty embedding scoring at least `min_score`, carrying its labels as `types` exactly when the search is over all labels and `"types" in record` holds |
| `KnowledgeSearch.SearchKnowledge` | db/knowledge_search.py:15-72 | the loop yields the ranked scan: at most k rows, sorted, each a node of the requested label (any label for "all") with a non-empty embedding scoring at least `min_score`, carrying its labels as `types` exactly when the search is over all labels and `"types" in record` holds |
| `KnowledgeSearch.SortedStrings` | db/knowledge_search.py:87 | `sorted(list(s))` holds exactly the set's strings in strictly increasing order |
| `KnowledgeSearch.GetSearchableTypes` | db/knowledge_search.py:74-87 | exactly the labels of nodes whose embedding is set, once each, in increasing order |
| `EntityExtraction.FirstIndexOf` | cognitive/entity_extraction.py:39 | the first position of a character, or none when it does not occur |
| `EntityExtraction.LastIndexOf` | cognitive/entity_extraction.py:39 | the last position of a character, or none when it does not occur |
| `EntityExtraction.JsonSpan` | cognitive/entity_extraction.py:39-41 | a span exists iff a `{` occurs before a `}`; it runs from the first `{` to the last `}` |
| `EntityExtraction.SpaceRunIsLongest` | cognitive/entity_extraction.py:43 | the `\s*` run at the head of a text is whitespace throughout and is not followed by whitespace: the longest such prefix |
| `EntityExtraction.StripNoLonger` | cognitive/entity_extraction.py:43 | the cleanup never lengthens the text |
| `EntityExtraction.StripDeletesExactlyTrailingCommas` | cognitive/entity_extraction.py:43 | the cleanup deletes exactly each comma followed by optional whitespace and `]` or `}`, together with that whitespace; every other character, commas and whitespace included, comes out unchanged and in order |
| `EntityExtraction.StripMatchesKeptFrom` | cognitive/entity_extraction.py:43 | resumed at any position that no deleted stretch runs across, the scan yields exactly the kept characters from there on |
| `EntityExtraction.DeletedIsCommaOrSpace` | cognitive/entity_extraction.py:43 | a deleted position holds a comma or whitespace |
| `EntityExtraction.StripKeepsSolid` | cognitive/entity_extraction.py:43 | no character other than a comma or whitespace is ever deleted: all others come out unchanged and in order |
| `EntityExtraction.StripIsSubsequence` | cognitive/entity_extraction.py:43 | the cleaned text is the input with some characters deleted |
| `EntityExtraction.StripChangesIffTrailingComma` | cognitive/entity_extraction.py:43 | the cleanup changes the text iff it has a comma followed by optional whitespace and `]` or `}` |
| `EntityExtraction.StripNotIdempotent` | cognitive/entity_extraction.py:43 | one pass turns `,,}` into `,}` and a second into `}` |
| `EntityExtraction.ExtractEntities` | cognitive/entity_extraction.py:37-56 | when a `{…}` span exists and its cleaned text decodes, the result is the decoded entities; no output, no span or a failed decode gives the empty list; a non-empty result always comes from a successful decode |
| `Store.GraphStore.UpdateEntity` | db/entities.py:39-53 | the store's entities become those of the entity `MERGE`; the invariant holds and nothing else changes |
| `Store.GraphStore.StoreRelationship` | db/entities.py:70-86 | the `RELATED` edges become those of the relationship `MERGE`; nothing else changes |
| `Store.GraphStore.StoreRelationships` | db/entities.py:101-104 | the loop applies the relationship `MERGE` to each item in order, each at its own timestamp |
| `Store.GraphStore.UpdateTopic` | db/topics.py:16-21 | the topics become those of the topic `MERGE`; nothing else changes |
| `Store.GraphStore.CreateDocumentTopicRelationship` | db/topics.py:24-29 | topics and `HAS_TOPIC` edges become those of the link statement; nothing else changes |
| `Store.GraphStore.CreateDocument` | db/documents.py:11-27 | the document is appended; nothing else changes |
| `Store.GraphStore.CreateDocumentEntityRelationship` | db/documents.py:29-37 | the `MENTIONS` edges become those of the link statement; nothing else changes |
| `Store.GraphStore.UpdateDocumentStatus` | db/documents.py:58-71 | documents become those of the status update; nothing else changes |
| `Store.GraphStore.CreateMemoryWithEmbedding` | db/memories.py:46-58 | the memory is appended; nothing else changes |
| `Store.GraphStore.CreateDocumentMemoryRelationship` | db/memories.py:117-129 | memories and `HAS_MEMORY` edges become those of the link statement; nothing else changes |
| `EntityProcessing.PoolOf` | nexus/entity_processing.py:35-38 | one pool entity per search row, with its name and aliases |
| `EntityProcessing.Fold` | nexus/entity_processing.py:24-54 | the batch returns one entity per extracted entity until a failure, and fails exactly when it returns fewer |
| `EntityProcessing.FoldStopsAtFailure` | nexus/entity_processing.py:41 | a resolution error aborts the batch: later entities are never processed |
| `EntityProcessing.FoldEach` | nexus/entity_processing.py:26-51 | whatever every successful step guarantees of its extracted entity, returned entity and branch holds at every position of the result, pairing the `i`-th result with the `i`-th input |
| `EntityProcessing.FoldCompletes` | nexus/entity_processing.py:26-54 | when no step can fail, the batch completes |
| `EntityProcessing.FoldNames` | nexus/entity_processing.py:44-49 | the store afterwards holds exactly the old names plus the returned names, still unique |
| `EntityProcessing.StepFacts` | nexus/entity_processing.py:28-49 | one step's result name contains the extracted name (case ignored) and is stored with the result's aliases; it adds no other name and keeps names unique; it is never an auto-merge when the upper threshold exceeds 0.7 |
| `EntityProcessing.ResultsMatchInput` | nexus/entity_processing.py:24-54 | one result per extracted entity, in order, until a failure; each result's name contains its extracted name and is stored afterwards |
| `EntityProcessing.NeverAutoMerged` | nexus/entity_processing.py:28-31 | with an upper threshold above 0.7 no step of a batch is an auto-merge |
| `EntityProcessing.DefaultsNeverAutoMerge` | nexus/entity_processing.py:28-31 | with the default thresholds every step is a new entity or an AI-approved merge |
| `EntityProcessing.PositiveLowerCompletes` | nexus/entity_processing.py:26-54 | with a positive lower threshold the batch never fails and returns one entity per extracted entity |
| `EntityProcessing.ProcessKeepsNames` | nexus/entity_processing.py:44-49 | the batch keeps names unique and adds exactly the returned names to the store |
| `EntityProcessing.EntityProcessingPipeline.constructor` | nexus/entity_processing.py:14-16 | the pipeline keeps its store and resolver |
| `EntityProcessing.EntityProcessingPipeline.ProcessExtractedEntities` | nexus/entity_processing.py:18-54 | the loop leaves the store's entities and returns the result exactly as the batch function says; it returns the error on failure, and nothing but entities changes |
| `EntityProcessing.EntityProcessingPipeline.InferAndStoreRelationships` | nexus/entity_processing.py:56-63 | the placeholder changes nothing |

## Left out

- The OpenAI calls are parameters. This covers the tie-break request, the extraction chat request and `get_embedding`. The model does not cover prompts, retries or what the service answers.
- `difflib.SequenceMatcher.ratio` and numpy's `dot` and `norm` are parameters. So is the floating-point arithmetic: scores are mathematical reals, and rounding, NaN and infinities are not modelled.
- `json.loads` and the pydantic record building are the `decode` parameter. `ExtractedEntities` has no `topics` field, so the topics the LLM returns are dropped, and the model carries only entities.
- Timestamps are the `now` and `clock` parameters.
- `create_memory` (db/memories.py:20-30) is not modelled. Its query uses parameters the call never passes.
- The first `store_relationships` (db/entities.py:88-99) is not modelled. The second definition shadows it.
- `infer_relationships` in nexus/entity_resolution.py, the converters, the pipelines other than the batch driver, the front ends, the database manager, the index creation, the watcher and telemetry are not part of this model.
- Regular expressions in names are not modelled. `EntityQueries.SearchSimilarEntities` reads the `(?i).*name.*` pattern as a substring test. This holds only when the searched name contains no regex metacharacters and the stored name contains no line terminator, because `.` does not match one.
- Lower-casing is ASCII only. Unicode case mapping, in Python and in Cypher's `toLower`, is not modelled.
- A label passed as `node_type` is compared as a plain label. The query text it is spliced into is not modelled.
- The order in which Neo4j returns rows is not modelled; node order stands for it. Node ids (`apoc.create.uuid()`) and the Document record's `entities` list, which `create_document` does not store, are not modelled either.
- Sessions, logging and concurrency are not modelled. The model applies statements one at a time. Nothing in the source serialises concurrent upserts of the same name, so two concurrent `MERGE`s without a uniqueness constraint may create two nodes.
- FetchRows, and with it `RankedRows` and `SearchKnowledge`, leaves open whether `"types" in record` (db/knowledge_search.py:65) looks at a record's keys or at its values; `typesInRecord` stands for the answer. Read over keys, every row of the all-labels search carries `types`. Read over values, as for a tuple, no row ever does. The contracts hold under both readings.
