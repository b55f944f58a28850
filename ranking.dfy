/**
 * The scoring, ordering and truncation shared by `search_memories` and
 * `search_knowledge`: each fetched item with a non-empty embedding is scored
 * by cosine similarity against the query and kept when the score reaches the
 * threshold; the kept list is sorted by score, highest first, with Python's
 * stable `list.sort(reverse=True)`, and cut with the slice `[:k]`.
 */
module Ranking {
  import opened Wrappers
  import opened Vectors

  /** A result row: the item's fields plus its `similarity`. */
  datatype Scored<T> = Scored(item: T, similarity: real)

  /** What the Python test `if not node.get("embedding")` lets through: present and non-empty. */
  predicate HasEmbedding(e: Option<seq<real>>)
  {
    e.Some? && e.value != []
  }

  predicate SortedDesc<T>(s: seq<Scored<T>>)
  {
    forall i, j :: 0 <= i < j < |s| ==> s[i].similarity >= s[j].similarity
  }

  /** Puts `x` after every leading element that scores at least as high, so equal scores keep arrival order. */
  function Insert<T(==)>(x: Scored<T>, s: seq<Scored<T>>): (r: seq<Scored<T>>)
    ensures multiset(r) == multiset(s) + multiset{x}
  {
    if s == [] then [x]
    else if x.similarity > s[0].similarity then [x] + s
    else
      assert s == [s[0]] + s[1..];
      [s[0]] + Insert(x, s[1..])
  }

  predicate AllAtMost<T>(s: seq<Scored<T>>, v: real)
  {
    forall i :: 0 <= i < |s| ==> s[i].similarity <= v
  }

  lemma {:induction false} InsertAtMost<T>(x: Scored<T>, s: seq<Scored<T>>, v: real)
    requires AllAtMost(s, v) && x.similarity <= v
    ensures AllAtMost(Insert(x, s), v)
  {
    if s != [] && x.similarity <= s[0].similarity {
      InsertAtMost(x, s[1..], v);
    }
  }

  lemma {:induction false} InsertSorted<T>(x: Scored<T>, s: seq<Scored<T>>)
    requires SortedDesc(s)
    ensures SortedDesc(Insert(x, s))
  {
    if s != [] && x.similarity <= s[0].similarity {
      var rest := Insert(x, s[1..]);
      InsertSorted(x, s[1..]);
      InsertAtMost(x, s[1..], s[0].similarity);
      assert Insert(x, s) == [s[0]] + rest;
    }
  }

  /** The stable descending sort: the elements inserted one by one in input order. */
  function SortDesc<T(==)>(s: seq<Scored<T>>): (r: seq<Scored<T>>)
    ensures multiset(r) == multiset(s)
    ensures SortedDesc(r)
  {
    if s == [] then []
    else
      var n := |s| - 1;
      assert s == s[..n] + [s[n]];
      var sorted := SortDesc(s[..n]);
      InsertSorted(s[n], sorted);
      Insert(s[n], sorted)
  }

  /** The elements scoring exactly `v`, in order. */
  function WithScore<T>(s: seq<Scored<T>>, v: real): seq<Scored<T>>
  {
    if s == [] then []
    else (if s[0].similarity == v then [s[0]] else []) + WithScore(s[1..], v)
  }

  lemma {:induction false} WithScoreAppend<T>(a: seq<Scored<T>>, b: seq<Scored<T>>, v: real)
    ensures WithScore(a + b, v) == WithScore(a, v) + WithScore(b, v)
  {
    if a == [] {
      assert a + b == b;
    } else {
      var head := if a[0].similarity == v then [a[0]] else [];
      assert (a + b)[0] == a[0];
      assert (a + b)[1..] == a[1..] + b;
      WithScoreAppend(a[1..], b, v);
      assert WithScore(a + b, v) == head + WithScore(a[1..] + b, v);
    }
  }

  lemma {:induction false} WithScoreNone<T>(s: seq<Scored<T>>, v: real)
    requires forall i :: 0 <= i < |s| ==> s[i].similarity < v
    ensures WithScore(s, v) == []
  {
    if s != [] {
      WithScoreNone(s[1..], v);
    }
  }

  /** One unfolding of `WithScore` over an insertion that passes the first element. */
  lemma WithScoreInsertStep<T>(x: Scored<T>, s: seq<Scored<T>>, v: real)
    requires s != [] && x.similarity <= s[0].similarity
    ensures WithScore(Insert(x, s), v) == (if s[0].similarity == v then [s[0]] else []) + WithScore(Insert(x, s[1..]), v)
  {
    var ins := Insert(x, s);
    assert ins[0] == s[0];
    assert ins[1..] == Insert(x, s[1..]);
  }

  /** An element scoring above the head of a sorted list goes first, and nothing else in the list shares its score. */
  lemma InsertFrontStable<T>(x: Scored<T>, s: seq<Scored<T>>, v: real)
    requires SortedDesc(s) && s != [] && x.similarity > s[0].similarity
    ensures WithScore(Insert(x, s), v) == WithScore(s, v) + (if x.similarity == v then [x] else [])
  {
    if x.similarity == v {
      WithScoreNone(s, v);
    }
    var ins := Insert(x, s);
    assert ins[0] == x;
    assert ins[1..] == s;
  }

  /** Inserting into a sorted list puts the new element after every element with its score. */
  lemma {:induction false} InsertStable<T>(x: Scored<T>, s: seq<Scored<T>>, v: real)
    requires SortedDesc(s)
    ensures WithScore(Insert(x, s), v) == WithScore(s, v) + (if x.similarity == v then [x] else [])
  {
    if s == [] {
    } else if x.similarity > s[0].similarity {
      InsertFrontStable(x, s, v);
    } else {
      var head := if s[0].similarity == v then [s[0]] else [];
      var tail := if x.similarity == v then [x] else [];
      var before := WithScore(s[1..], v);
      InsertStable(x, s[1..], v);
      WithScoreInsertStep(x, s, v);
      assert WithScore(s, v) == head + before;
      AppendAssoc(head, before, tail);
    }
  }

  /** Stability: among equal scores the sorted list keeps the input order. */
  lemma {:induction false} SortDescStable<T>(s: seq<Scored<T>>, v: real)
    ensures WithScore(SortDesc(s), v) == WithScore(s, v)
  {
    if s != [] {
      var n := |s| - 1;
      var init, last := s[..n], s[n];
      assert s == init + [last];
      var sorted := SortDesc(init);
      var tail := if last.similarity == v then [last] else [];
      assert SortDesc(s) == Insert(last, sorted);
      SortDescStable(init, v);
      InsertStable(last, sorted, v);
      WithScoreAppend(init, [last], v);
      assert WithScore([last], v) == tail + WithScore([last][1..], v);
      assert [last][1..] == [];
    }
  }

  /** Python's `s[:k]`: the first `k` elements, or all but the last `-k` when `k` is negative. */
  function Take<T>(s: seq<Scored<T>>, k: int): (r: seq<Scored<T>>)
    ensures |r| <= |s| && r == s[..|r|]
    ensures k >= 0 ==> |r| == if k < |s| then k else |s|
    ensures k < 0 ==> |r| == if |s| + k > 0 then |s| + k else 0
  {
    if k >= 0 then (if k < |s| then s[..k] else s)
    else if |s| + k > 0 then s[..|s| + k] else []
  }

  /** The ranked answer: sorted by score, highest first, then cut at `k`. */
  function Rank<T(==)>(scan: Result<seq<Scored<T>>, VectorError>, k: int): Result<seq<Scored<T>>, VectorError>
  {
    match scan
    case Err(e) => Err(e)
    case Ok(kept) => Ok(Take(SortDesc(kept), k))
  }

  /**
   * The ranked answer is the top of the kept list: it is sorted, holds at
   * most `k` rows when `k` is not negative, and together with the rows it
   * drops makes up exactly the kept list, every dropped row scoring no higher
   * than every returned one.
   */
  lemma TopK<T>(kept: seq<Scored<T>>, k: int)
    ensures var t := SortDesc(kept); var r := Take(t, k);
      && SortedDesc(r)
      && (k >= 0 ==> |r| <= k)
      && multiset(r) + multiset(t[|r|..]) == multiset(kept)
      && forall x, y :: x in t[|r|..] && y in r ==> x.similarity <= y.similarity
  {
    var t := SortDesc(kept);
    var r := Take(t, k);
    var dropped := t[|r|..];
    assert t == r + dropped;
    forall x, y | x in dropped && y in r ensures x.similarity <= y.similarity {
      var j :| 0 <= j < |dropped| && dropped[j] == x;
      var i :| 0 <= i < |r| && r[i] == y;
      assert dropped[j] == t[|r| + j] && r[i] == t[i];
    }
  }

  /** Every ranked row is one of the kept rows. */
  lemma RankedFromKept<T>(kept: seq<Scored<T>>, k: int)
    ensures forall x :: x in Take(SortDesc(kept), k) ==> x in kept
  {
    var t := SortDesc(kept);
    forall x | x in Take(t, k) ensures x in kept {
      var r := Take(t, k);
      var i :| 0 <= i < |r| && r[i] == x;
      assert t[i] == x;
      assert x in multiset(t);
    }
  }

  /** Extending a loop's processed prefix by one item. */
  lemma PrefixStep<T>(s: seq<T>, i: nat)
    requires i < |s|
    ensures s[..i + 1] == s[..i] + [s[i]] && s[..i + 1][..i] == s[..i]
  {
  }

  /**
   * The scoring loop as a fold over the fetched items: items without a
   * non-empty embedding are skipped, a length mismatch with the query aborts
   * the whole search, and items scoring at least `minScore` are kept in
   * fetch order.
   */
  function Scan<T(==)>(xs: seq<T>, embeddingOf: T -> Option<seq<real>>, query: seq<real>, minScore: real, quotient: Quotient)
    : (r: Result<seq<Scored<T>>, VectorError>)
    ensures r.Err? <==> exists i :: 0 <= i < |xs| && HasEmbedding(embeddingOf(xs[i])) && |embeddingOf(xs[i]).value| != |query|
    ensures r.Ok? ==> |r.value| <= |xs|
    ensures r.Ok? ==> forall x :: x in r.value ==>
      && x.item in xs
      && HasEmbedding(embeddingOf(x.item))
      && Cosine(query, embeddingOf(x.item).value, quotient) == Ok(x.similarity)
      && x.similarity >= minScore
    ensures r.Ok? ==> forall y :: (y in xs && HasEmbedding(embeddingOf(y))
      && Cosine(query, embeddingOf(y).value, quotient).value >= minScore
      ==> Scored(y, Cosine(query, embeddingOf(y).value, quotient).value) in r.value)
  {
    if xs == [] then Ok([])
    else
      var n := |xs| - 1;
      var last := xs[n];
      assert xs == xs[..n] + [last];
      match Scan(xs[..n], embeddingOf, query, minScore, quotient)
      case Err(e) =>
        var i :| 0 <= i < n && HasEmbedding(embeddingOf(xs[..n][i])) && |embeddingOf(xs[..n][i]).value| != |query|;
        assert xs[i] == xs[..n][i];
        Err(e)
      case Ok(kept) =>
        var e := embeddingOf(last);
        if !HasEmbedding(e) then Ok(kept)
        else match Cosine(query, e.value, quotient)
          case Err(err) => Err(err)
          case Ok(score) => if score >= minScore then Ok(kept + [Scored(last, score)]) else Ok(kept)
  }

  /** One more item of a scan that has not failed so far: skipped, aborting, kept or dropped. */
  lemma ScanStep<T>(xs: seq<T>, embeddingOf: T -> Option<seq<real>>, query: seq<real>, minScore: real, quotient: Quotient, i: nat)
    requires i < |xs| && Scan(xs[..i], embeddingOf, query, minScore, quotient).Ok?
    ensures var kept := Scan(xs[..i], embeddingOf, query, minScore, quotient).value;
      var e := embeddingOf(xs[i]);
      Scan(xs[..i + 1], embeddingOf, query, minScore, quotient) ==
        if !HasEmbedding(e) then Ok(kept)
        else match Cosine(query, e.value, quotient)
          case Err(err) => Err(err)
          case Ok(score) => if score >= minScore then Ok(kept + [Scored(xs[i], score)]) else Ok(kept)
  {
    PrefixStep(xs, i);
  }

  /** A shape mismatch met in a prefix of the fetched items aborts the whole search. */
  lemma ScanPrefixFails<T>(xs: seq<T>, embeddingOf: T -> Option<seq<real>>, query: seq<real>, minScore: real, quotient: Quotient, j: nat)
    requires j <= |xs| && Scan(xs[..j], embeddingOf, query, minScore, quotient).Err?
    ensures Scan(xs, embeddingOf, query, minScore, quotient).Err?
  {
    var i :| 0 <= i < j && HasEmbedding(embeddingOf(xs[..j][i])) && |embeddingOf(xs[..j][i]).value| != |query|;
    assert xs[..j][i] == xs[i];
  }
}
