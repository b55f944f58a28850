/**
 * What the Cypher statements of db/topics.py do to the graph: the topic
 * search by case-insensitive substring, the topic `MERGE`, and the
 * `HAS_TOPIC` link from a Document to a Topic.
 */
module TopicQueries {
  import opened Wrappers
  import opened Text
  import opened GraphNodes

  predicate HasTopic(ts: seq<TopicNode>, name: string)
  {
    exists i :: 0 <= i < |ts| && ts[i].name == name
  }

  /** At most one Topic node per exact name. */
  predicate UniqueTopicNames(ts: seq<TopicNode>)
  {
    forall i, j :: 0 <= i < j < |ts| ==> ts[i].name != ts[j].name
  }

  /**
   * `update_topic`: `MERGE (t:Topic {name})` then `SET t.aliases`, on the
   * match path and the create path alike; notes are never touched.
   */
  function UpdateTopic(ts: seq<TopicNode>, name: string, aliases: seq<string>): (r: seq<TopicNode>)
    ensures HasTopic(r, name)
    ensures forall n :: HasTopic(r, n) <==> HasTopic(ts, n) || n == name
    ensures UniqueTopicNames(ts) ==> UniqueTopicNames(r)
    ensures |r| == if HasTopic(ts, name) then |ts| else |ts| + 1
    ensures forall i :: 0 <= i < |ts| && ts[i].name != name ==> r[i] == ts[i]
    ensures forall i :: 0 <= i < |r| && r[i].name == name ==> r[i].aliases == Some(aliases)
    ensures forall i :: 0 <= i < |ts| ==> r[i].name == ts[i].name && r[i].notes == ts[i].notes
    ensures !HasTopic(ts, name) ==> r[|ts|].notes == None
  {
    if HasTopic(ts, name) then
      var r := seq(|ts|, i requires 0 <= i < |ts| => if ts[i].name == name then ts[i].(aliases := Some(aliases)) else ts[i]);
      assert forall i :: 0 <= i < |ts| ==> r[i].name == ts[i].name;
      assert forall n :: HasTopic(r, n) <==> HasTopic(ts, n) by {
        forall n ensures HasTopic(r, n) <==> HasTopic(ts, n) {
          if HasTopic(r, n) {
            var i :| 0 <= i < |r| && r[i].name == n;
            assert ts[i].name == n;
          }
          if HasTopic(ts, n) {
            var i :| 0 <= i < |ts| && ts[i].name == n;
            assert r[i].name == n;
          }
        }
      }
      r
    else
      var r := ts + [TopicNode(name, Some(aliases), None)];
      assert r[|ts|].name == name;
      assert forall n :: HasTopic(r, n) <==> HasTopic(ts, n) || n == name by {
        forall n ensures HasTopic(r, n) <==> HasTopic(ts, n) || n == name {
          if HasTopic(r, n) {
            var i :| 0 <= i < |r| && r[i].name == n;
            if i < |ts| { assert ts[i].name == n; }
          }
          if HasTopic(ts, n) {
            var i :| 0 <= i < |ts| && ts[i].name == n;
            assert r[i].name == n;
          }
        }
      }
      r
  }

  /** A row of the topic search: `{name, aliases, notes}`. */
  datatype TopicRecord = TopicRecord(name: string, aliases: Option<seq<string>>, notes: Option<string>)

  function TopicRecordOf(t: TopicNode): TopicRecord
  {
    TopicRecord(t.name, t.aliases, t.notes)
  }

  /**
   * `search_similar_topics`: the topics whose lower-cased name contains the
   * lower-cased query, in node order.
   */
  function SearchSimilarTopics(ts: seq<TopicNode>, query: string): (r: seq<TopicRecord>)
    ensures |r| <= |ts|
    ensures forall t :: t in ts && ContainsIgnoreCase(t.name, query) ==> TopicRecordOf(t) in r
    ensures forall x :: x in r ==> exists t :: t in ts && ContainsIgnoreCase(t.name, query) && x == TopicRecordOf(t)
  {
    if ts == [] then []
    else
      var last := ts[|ts| - 1];
      var init := ts[..|ts| - 1];
      assert ts == init + [last];
      SearchSimilarTopics(init, query) + if ContainsIgnoreCase(last.name, query) then [TopicRecordOf(last)] else []
  }

  /** The topics and the `HAS_TOPIC` edges after a link statement. */
  datatype TopicLink = TopicLink(topics: seq<TopicNode>, hasTopic: seq<Edge<string>>)

  /**
   * `create_document_topic_relationship`: when no Document has the id the
   * statement yields no rows and does nothing; otherwise the topic is merged
   * (created bare when absent, left as it is when present) and every matched
   * document is linked to it once.
   */
  function LinkDocumentTopic(
    docs: seq<DocumentNode>, ts: seq<TopicNode>, hasTopic: seq<Edge<string>>, docId: string, name: string)
    : (r: TopicLink)
    ensures DocIndices(docs, docId) == [] ==> r == TopicLink(ts, hasTopic)
    ensures DocIndices(docs, docId) != [] ==> HasTopic(r.topics, name)
    ensures |ts| <= |r.topics| && r.topics[..|ts|] == ts
    ensures |r.topics| == if HasTopic(ts, name) || DocIndices(docs, docId) == [] then |ts| else |ts| + 1
    ensures forall n :: HasTopic(r.topics, n) <==> HasTopic(ts, n) || (n == name && DocIndices(docs, docId) != [])
    ensures UniqueTopicNames(ts) ==> UniqueTopicNames(r.topics)
    ensures forall i :: 0 <= i < |docs| && docs[i].id == docId ==> Edge(i, name) in r.hasTopic
    ensures forall e :: e in r.hasTopic ==> e in hasTopic || (e.target == name && e.doc < |docs| && docs[e.doc].id == docId)
    ensures NoDuplicates(hasTopic) ==> NoDuplicates(r.hasTopic)
  {
    var sources := DocIndices(docs, docId);
    if sources == [] then TopicLink(ts, hasTopic)
    else
      var topics := if HasTopic(ts, name) then ts else ts + [TopicNode(name, None, None)];
      assert topics[..|ts|] == ts;
      assert !HasTopic(ts, name) ==> topics[|ts|].name == name;
      assert forall n :: HasTopic(topics, n) <==> HasTopic(ts, n) || n == name by {
        forall n ensures HasTopic(topics, n) <==> HasTopic(ts, n) || n == name {
          if HasTopic(topics, n) {
            var i :| 0 <= i < |topics| && topics[i].name == n;
            if i < |ts| { assert ts[i].name == n; }
          }
          if HasTopic(ts, n) {
            var i :| 0 <= i < |ts| && ts[i].name == n;
            assert topics[i].name == n;
          }
        }
      }
      TopicLink(topics, MergeEdges(hasTopic, sources, [name]))
  }

  /** Linking the same document and topic a second time changes nothing. */
  lemma LinkDocumentTopicTwice(
    docs: seq<DocumentNode>, ts: seq<TopicNode>, hasTopic: seq<Edge<string>>, docId: string, name: string)
    ensures var once := LinkDocumentTopic(docs, ts, hasTopic, docId, name);
      LinkDocumentTopic(docs, once.topics, once.hasTopic, docId, name) == once
  {
    var once := LinkDocumentTopic(docs, ts, hasTopic, docId, name);
    var sources := DocIndices(docs, docId);
    if sources != [] {
      MergeEdgesPresent(once.hasTopic, sources, [name]);
    }
  }
}
