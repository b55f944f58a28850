/**
 * db/knowledge_search.py: the similarity search over every node that has an
 * embedding, optionally restricted to one label, and the list of labels
 * that carry embeddings.
 */
module KnowledgeSearch {
  import opened Wrappers
  import opened Text
  import opened Vectors
  import opened Ranking

  /** A stored property value, as far as the search passes it through. */
  datatype Value = Str(s: string) | Num(x: real) | StrList(xs: seq<string>)

  /** Any node of the graph: its labels, its other properties and its `embedding` property, if set. */
  datatype GraphNode = GraphNode(labels: seq<string>, properties: map<string, Value>, embedding: Option<seq<real>>)

  /** A fetched node with the `types` entry its result row carries, if any. */
  datatype Row = Row(node: GraphNode, types: Option<seq<string>>)

  /** `not node_type or node_type.lower() == "all"`: the search is not restricted to one label. */
  predicate IsAllTypes(nodeType: Option<string>)
  {
    nodeType.None? || nodeType.value == [] || Lower(nodeType.value) == "all"
  }

  /** Whether the `MATCH` of the chosen query binds this node (before `IS NOT NULL` on the embedding). */
  predicate Selected(n: GraphNode, nodeType: Option<string>)
  {
    IsAllTypes(nodeType) || nodeType.value in n.labels
  }

  /**
   * The test `"types" in record`. Only the all-labels query returns a
   * `types` column, so a record of the one-label query never passes it. For
   * a record of the all-labels query the answer is `typesInRecord`, which
   * the driver's record type decides: a membership test over its keys
   * answers true, one over its values (the node and the label list) false.
   */
  predicate TypesAttached(nodeType: Option<string>, typesInRecord: bool)
  {
    IsAllTypes(nodeType) && typesInRecord
  }

  function RowOf(n: GraphNode, nodeType: Option<string>, typesInRecord: bool): Row
  {
    Row(n, if TypesAttached(nodeType, typesInRecord) then Some(n.labels) else None)
  }

  /**
   * The records of the query: the selected nodes whose embedding is set,
   * in node order, with their labels attached when the `types` test passes.
   */
  function FetchRows(nodes: seq<GraphNode>, nodeType: Option<string>, typesInRecord: bool): (r: seq<Row>)
    ensures forall row :: row in r <==>
      && row.node in nodes && Selected(row.node, nodeType) && row.node.embedding.Some?
      && row.types == (if TypesAttached(nodeType, typesInRecord) then Some(row.node.labels) else None)
  {
    if nodes == [] then []
    else
      var n := |nodes| - 1;
      assert nodes == nodes[..n] + [nodes[n]];
      FetchRows(nodes[..n], nodeType, typesInRecord)
        + if Selected(nodes[n], nodeType) && nodes[n].embedding.Some? then [RowOf(nodes[n], nodeType, typesInRecord)] else []
  }

  function RowEmbedding(row: Row): Option<seq<real>>
  {
    row.node.embedding
  }

  /** The search aborts exactly when a fetched node with a non-empty embedding has a length other than the query's. */
  lemma SearchFailsOnMismatch(nodes: seq<GraphNode>, nodeType: Option<string>, typesInRecord: bool, query: seq<real>, minScore: real, quotient: Quotient)
    ensures Scan(FetchRows(nodes, nodeType, typesInRecord), RowEmbedding, query, minScore, quotient).Err? <==>
      exists n :: n in nodes && Selected(n, nodeType) && HasEmbedding(n.embedding) && |n.embedding.value| != |query|
  {
    var rows := FetchRows(nodes, nodeType, typesInRecord);
    if Scan(rows, RowEmbedding, query, minScore, quotient).Err? {
      var i :| 0 <= i < |rows| && HasEmbedding(RowEmbedding(rows[i])) && |RowEmbedding(rows[i]).value| != |query|;
      assert rows[i] in rows;
    }
    if exists n :: n in nodes && Selected(n, nodeType) && HasEmbedding(n.embedding) && |n.embedding.value| != |query| {
      var n :| n in nodes && Selected(n, nodeType) && HasEmbedding(n.embedding) && |n.embedding.value| != |query|;
      var row := RowOf(n, nodeType, typesInRecord);
      assert row in rows;
      var i :| 0 <= i < |rows| && rows[i] == row;
      assert HasEmbedding(RowEmbedding(rows[i]));
    }
  }

  /** Every ranked row is a selected node with a non-empty embedding scoring at least `minScore`, with its labels exactly when the `types` test passes. */
  lemma RankedRows(nodes: seq<GraphNode>, nodeType: Option<string>, typesInRecord: bool, query: seq<real>, minScore: real, quotient: Quotient, k: int)
    requires Scan(FetchRows(nodes, nodeType, typesInRecord), RowEmbedding, query, minScore, quotient).Ok?
    ensures forall x :: x in Take(SortDesc(Scan(FetchRows(nodes, nodeType, typesInRecord), RowEmbedding, query, minScore, quotient).value), k) ==>
      && x.item.node in nodes
      && Selected(x.item.node, nodeType)
      && HasEmbedding(x.item.node.embedding)
      && x.similarity >= minScore
      && x.item.types == (if TypesAttached(nodeType, typesInRecord) then Some(x.item.node.labels) else None)
  {
    var kept := Scan(FetchRows(nodes, nodeType, typesInRecord), RowEmbedding, query, minScore, quotient).value;
    RankedFromKept(kept, k);
  }

  /**
   * `search_knowledge`: scores every fetched node with a non-empty
   * embedding, keeps scores of at least `minScore`, sorts them highest first
   * (stably, so equal scores keep fetch order) and returns the first `k`.
   */
  method SearchKnowledge(
    nodes: seq<GraphNode>, query: seq<real>, nodeType: Option<string>, typesInRecord: bool, k: int, minScore: real, quotient: Quotient)
    returns (r: Result<seq<Scored<Row>>, VectorError>)
    ensures r == Rank(Scan(FetchRows(nodes, nodeType, typesInRecord), RowEmbedding, query, minScore, quotient), k)
    ensures r.Err? <==> exists n :: n in nodes && Selected(n, nodeType) && HasEmbedding(n.embedding) && |n.embedding.value| != |query|
    ensures r.Ok? ==> SortedDesc(r.value)
    ensures r.Ok? && k >= 0 ==> |r.value| <= k
    ensures r.Ok? ==> forall x :: x in r.value ==>
      && x.item.node in nodes
      && Selected(x.item.node, nodeType)
      && HasEmbedding(x.item.node.embedding)
      && x.similarity >= minScore
      && x.item.types == (if TypesAttached(nodeType, typesInRecord) then Some(x.item.node.labels) else None)
  {
    var rows := FetchRows(nodes, nodeType, typesInRecord);
    SearchFailsOnMismatch(nodes, nodeType, typesInRecord, query, minScore, quotient);
    var scores: seq<Scored<Row>> := [];
    var i := 0;
    while i < |rows|
      invariant 0 <= i <= |rows|
      invariant Scan(rows[..i], RowEmbedding, query, minScore, quotient) == Ok(scores)
    {
      var row := rows[i];
      ScanStep(rows, RowEmbedding, query, minScore, quotient, i);
      if HasEmbedding(row.node.embedding) {
        var score := Cosine(query, row.node.embedding.value, quotient);
        if score.Err? {
          ScanPrefixFails(rows, RowEmbedding, query, minScore, quotient, i + 1);
          var full := Scan(rows, RowEmbedding, query, minScore, quotient);
          assert full == Err(ShapeMismatch) by { assert full.error.ShapeMismatch?; }
          return Err(score.error);
        }
        if score.value >= minScore {
          scores := scores + [Scored(row, score.value)];
        }
      }
      i := i + 1;
    }
    assert rows[..i] == rows;
    var sorted := SortDesc(scores);
    r := Ok(Take(sorted, k));
    TopK(scores, k);
    RankedRows(nodes, nodeType, typesInRecord, query, minScore, quotient, k);
  }

  /** The labels carried by nodes whose embedding is set (an empty embedding still counts). */
  predicate Searchable(nodes: seq<GraphNode>, l: string)
  {
    exists n :: n in nodes && n.embedding.Some? && l in n.labels
  }

  /** `sorted(list(types))`: the set's strings in increasing code-point order. */
  method SortedStrings(s: set<string>) returns (r: seq<string>)
    ensures forall x :: x in r <==> x in s
    ensures forall i, j :: 0 <= i < j < |r| ==> StrLess(r[i], r[j])
  {
    r := [];
    var rest := s;
    while rest != {}
      invariant forall x :: x in s <==> x in r || x in rest
      invariant forall x :: x in r ==> x !in rest
      invariant forall i, j :: 0 <= i < j < |r| ==> StrLess(r[i], r[j])
      invariant forall i, y :: 0 <= i < |r| && y in rest ==> StrLess(r[i], y)
      decreases |rest|
    {
      LeastExists(rest);
      var m :| m in rest && forall y :: y in rest && y != m ==> StrLess(m, y);
      r := r + [m];
      rest := rest - {m};
    }
  }

  /**
   * `get_searchable_types`: every label of a node whose embedding is set,
   * once each, in increasing order.
   */
  method GetSearchableTypes(nodes: seq<GraphNode>) returns (r: seq<string>)
    ensures forall l :: l in r <==> Searchable(nodes, l)
    ensures forall i, j :: 0 <= i < j < |r| ==> StrLess(r[i], r[j])
  {
    var types: set<string> := {};
    for i := 0 to |nodes|
      invariant forall l :: l in types <==> Searchable(nodes[..i], l)
    {
      var n := nodes[i];
      assert nodes[..i + 1] == nodes[..i] + [n];
      if n.embedding.Some? {
        types := types + set l | l in n.labels;
      }
    }
    assert nodes[..|nodes|] == nodes;
    r := SortedStrings(types);
  }
}
