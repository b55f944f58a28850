/**
 * What the Cypher statements of db/documents.py do to the graph: Document
 * creation, the `MENTIONS` link to an Entity, the status update and the two
 * read queries.
 */
module DocumentQueries {
  import opened Wrappers
  import opened GraphNodes
  import opened EntityQueries

  /** The properties `create_document` writes: every field of the record but its entity list. */
  function NodeOf(d: Document): DocumentNode
  {
    DocumentNode(d.id, d.fileName, d.fileType, d.fileSize, d.uploadDate,
                 d.originalPath, d.markdownPath, d.conversionStatus, d.errorMessage)
  }

  /** `create_document`: an unconditional `CREATE`, appended after the existing nodes. */
  function CreateDocument(docs: seq<DocumentNode>, d: Document): (r: seq<DocumentNode>)
    ensures |r| == |docs| + 1 && r[..|docs|] == docs
    ensures r[|docs|] == NodeOf(d) && r[|docs|].id == d.id && r[|docs|].conversionStatus == d.conversionStatus
    ensures DocIndices(r, d.id) == DocIndices(docs, d.id) + [|docs|]
  {
    var r := docs + [NodeOf(d)];
    assert r[..|docs|] == docs;
    r
  }

  /** Creating the same document twice leaves two Document nodes with its id: creation is not idempotent. */
  lemma CreateDocumentTwice(docs: seq<DocumentNode>, d: Document)
    ensures var twice := CreateDocument(CreateDocument(docs, d), d);
      |DocIndices(twice, d.id)| == |DocIndices(docs, d.id)| + 2
  {
    var once := CreateDocument(docs, d);
    assert DocIndices(CreateDocument(once, d), d.id) == DocIndices(docs, d.id) + [|docs|] + [|once|];
  }

  /**
   * `create_document_entity_relationship`: both `MATCH` clauses must bind;
   * then each Document with the id gets one `MENTIONS` edge to the entity.
   */
  function LinkDocumentEntity(
    docs: seq<DocumentNode>, es: seq<EntityNode>, mentions: seq<Edge<string>>, docId: string, name: string)
    : (r: seq<Edge<string>>)
    ensures !HasEntity(es, name) || DocIndices(docs, docId) == [] ==> r == mentions
    ensures HasEntity(es, name) ==> forall i :: 0 <= i < |docs| && docs[i].id == docId ==> Edge(i, name) in r
    ensures forall e :: e in r ==> e in mentions || (e.target == name && HasEntity(es, name) && e.doc < |docs| && docs[e.doc].id == docId)
    ensures |mentions| <= |r| && r[..|mentions|] == mentions
    ensures NoDuplicates(mentions) ==> NoDuplicates(r)
  {
    if !HasEntity(es, name) then mentions
    else MergeEdges(mentions, DocIndices(docs, docId), [name])
  }

  /** Linking a document to an entity twice leaves the edges as after the first link. */
  lemma LinkDocumentEntityTwice(
    docs: seq<DocumentNode>, es: seq<EntityNode>, mentions: seq<Edge<string>>, docId: string, name: string)
    ensures var once := LinkDocumentEntity(docs, es, mentions, docId, name);
      LinkDocumentEntity(docs, es, once, docId, name) == once
  {
    var once := LinkDocumentEntity(docs, es, mentions, docId, name);
    if HasEntity(es, name) {
      MergeEdgesPresent(once, DocIndices(docs, docId), [name]);
    }
  }

  /**
   * `update_document_status`: every Document with the id gets the new status
   * and error message (an absent message clears the old one); nothing else changes.
   */
  function UpdateDocumentStatus(docs: seq<DocumentNode>, docId: string, status: string, errorMessage: Option<string>)
    : (r: seq<DocumentNode>)
    ensures |r| == |docs|
    ensures forall i :: 0 <= i < |docs| && docs[i].id != docId ==> r[i] == docs[i]
    ensures forall i :: 0 <= i < |docs| && docs[i].id == docId ==>
      r[i] == docs[i].(conversionStatus := status, errorMessage := errorMessage)
    ensures DocIndices(docs, docId) == [] ==> r == docs
    ensures forall i :: 0 <= i < |docs| ==> r[i].id == docs[i].id
  {
    if docs == [] then []
    else
      var n := |docs| - 1;
      var d := docs[n];
      UpdateDocumentStatus(docs[..n], docId, status, errorMessage)
        + [if d.id == docId then d.(conversionStatus := status, errorMessage := errorMessage) else d]
  }

  /**
   * `get_document_entities`: the names at the end of `MENTIONS` edges leaving
   * a Document with the id, in edge order; two documents sharing the id may
   * contribute the same name twice.
   */
  function GetDocumentEntities(docs: seq<DocumentNode>, mentions: seq<Edge<string>>, docId: string): (r: seq<string>)
    ensures |r| <= |mentions|
    ensures forall x :: x in r <==>
      exists e :: e in mentions && e.doc < |docs| && docs[e.doc].id == docId && e.target == x
  {
    if mentions == [] then []
    else
      var n := |mentions| - 1;
      var e := mentions[n];
      assert mentions == mentions[..n] + [e];
      GetDocumentEntities(docs, mentions[..n], docId) + if e.doc < |docs| && docs[e.doc].id == docId then [e.target] else []
  }

  /** The position of the first Document with the id, if any. */
  function FirstDoc(docs: seq<DocumentNode>, docId: string): (r: Option<nat>)
    ensures r.None? <==> forall i :: 0 <= i < |docs| ==> docs[i].id != docId
    ensures r.Some? ==>
      && r.value < |docs| && docs[r.value].id == docId
      && forall i :: 0 <= i < r.value ==> docs[i].id != docId
  {
    if docs == [] then None
    else if docs[0].id == docId then Some(0)
    else match FirstDoc(docs[1..], docId)
      case None => None
      case Some(j) => Some(j + 1)
  }

  /**
   * `get_document_metadata`: `single()` gives the first matching row or
   * nothing, so the result is the first Document with the id, or `None`.
   */
  function GetDocumentMetadata(docs: seq<DocumentNode>, docId: string): (r: Option<DocumentNode>)
    ensures r.None? <==> forall i :: 0 <= i < |docs| ==> docs[i].id != docId
    ensures r.Some? ==> exists i :: (0 <= i < |docs| && r.value == docs[i] && r.value.id == docId
      && forall j :: 0 <= j < i ==> docs[j].id != docId)
  {
    match FirstDoc(docs, docId)
    case None => None
    case Some(i) => Some(docs[i])
  }

  /** A document just created is found by its id, and reading it back gives what was stored unless an older document shares the id. */
  lemma CreateThenGetMetadata(docs: seq<DocumentNode>, d: Document)
    ensures GetDocumentMetadata(CreateDocument(docs, d), d.id).Some?
    ensures (forall i :: 0 <= i < |docs| ==> docs[i].id != d.id) ==>
      GetDocumentMetadata(CreateDocument(docs, d), d.id) == Some(NodeOf(d))
  {
    var r := CreateDocument(docs, d);
    assert r[|docs|].id == d.id;
    if forall i :: 0 <= i < |docs| ==> docs[i].id != d.id {
      var f := FirstDoc(r, d.id);
      assert f.value == |docs|;
    }
  }
}
