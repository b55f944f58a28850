/**
 * Lexical entity resolution: the weighted name/alias similarity, the merge
 * rule, and the three-band decision that either appends a candidate to the
 * in-memory pool or replaces its best match with a merged entity.
 *
 * `difflib.SequenceMatcher(...).ratio()` is the parameter `ratio`; the AI
 * tie-break is the parameter `judge`, whose `ApiError` answer stands for the
 * exception branch of the call.
 */
module EntityResolution {
  import opened Wrappers
  import opened Text

  /** An entity candidate or pool member: `id` is never set by the pipeline. */
  datatype Entity = Entity(id: Option<int>, name: string, aliases: seq<string>)

  /** The AI verdict; `answer` is the source's `match` field ("yes" or "no"). */
  datatype AIResolutionResult = AIResolutionResult(answer: string, confidence: real, reason: string)

  /** What the AI tie-break call produced: a parsed verdict, or an exception. */
  datatype AiReply = Reply(result: AIResolutionResult) | ApiError

  /** Raised when the band checks need `best_match` but no pool member scored above 0. */
  datatype ResolveError = NoBestMatch

  /** Which branch of the three-band policy produced the result. */
  datatype Decision = AddedNew | AutoMerged | AiMerged

  /** The returned entity together with the pool as it is left afterwards. */
  datatype Resolution = Resolution(entity: Entity, pool: seq<Entity>, decision: Decision)

  /** Position and score of the best pool member seen so far. */
  datatype BestMatch = BestMatch(score: real, index: Option<nat>)

  type Ratio = (string, string) -> real

  type Judge = (Entity, Entity) -> AiReply

  const DefaultLowerThreshold: real := 0.5
  const DefaultUpperThreshold: real := 0.9
  const FallbackReason: string := "OpenAI API error, falling back to similarity"

  /** `ratio` behaves like `SequenceMatcher.ratio`: its values lie in [0, 1]. */
  ghost predicate RatioBounded(ratio: Ratio)
  {
    forall x, y :: 0.0 <= ratio(x, y) <= 1.0
  }

  predicate NoDuplicates<T(==)>(s: seq<T>)
  {
    forall i, j :: 0 <= i < j < |s| ==> s[i] != s[j]
  }

  function Max(a: real, b: real): real
  {
    if b > a then b else a
  }

  /** The ratio of two strings compared case-insensitively. */
  function PairRatio(ratio: Ratio, x: string, y: string): real
  {
    ratio(Lower(x), Lower(y))
  }

  /** Best ratio of alias `a` against the first `m` aliases of `ys`, starting from 0. */
  function RowMax(a: string, ys: seq<string>, m: nat, ratio: Ratio): (r: real)
    requires m <= |ys|
    ensures 0.0 <= r
  {
    if m == 0 then 0.0 else Max(RowMax(a, ys, m - 1, ratio), PairRatio(ratio, a, ys[m - 1]))
  }

  /** Best alias-pair ratio over the first `n` aliases of `xs` against all of `ys`, starting from 0. */
  function AliasMax(xs: seq<string>, ys: seq<string>, n: nat, ratio: Ratio): (r: real)
    requires n <= |xs|
    ensures 0.0 <= r
  {
    if n == 0 then 0.0 else Max(AliasMax(xs, ys, n - 1, ratio), RowMax(xs[n - 1], ys, |ys|, ratio))
  }

  /** RowMax bounds every pair ratio of its row and is 0 or one of them. */
  lemma {:induction false} RowMaxIsMaximum(a: string, ys: seq<string>, m: nat, ratio: Ratio)
    requires m <= |ys|
    ensures forall j :: 0 <= j < m ==> PairRatio(ratio, a, ys[j]) <= RowMax(a, ys, m, ratio)
    ensures RowMax(a, ys, m, ratio) == 0.0 ||
            exists j :: 0 <= j < m && RowMax(a, ys, m, ratio) == PairRatio(ratio, a, ys[j])
  {
    if m > 0 {
      RowMaxIsMaximum(a, ys, m - 1, ratio);
    }
  }

  /** AliasMax bounds every alias-pair ratio and is 0 or one of them. */
  lemma {:induction false} AliasMaxIsMaximum(xs: seq<string>, ys: seq<string>, n: nat, ratio: Ratio)
    requires n <= |xs|
    ensures forall i, j :: 0 <= i < n && 0 <= j < |ys| ==> PairRatio(ratio, xs[i], ys[j]) <= AliasMax(xs, ys, n, ratio)
    ensures AliasMax(xs, ys, n, ratio) == 0.0 ||
            exists i, j :: 0 <= i < n && 0 <= j < |ys| && AliasMax(xs, ys, n, ratio) == PairRatio(ratio, xs[i], ys[j])
  {
    if n > 0 {
      AliasMaxIsMaximum(xs, ys, n - 1, ratio);
      RowMaxIsMaximum(xs[n - 1], ys, |ys|, ratio);
    }
  }

  /**
   * 0.7 x the ratio of the lower-cased names + 0.3 x the best ratio over all
   * lower-cased alias pairs (0 when either alias list is empty).
   */
  function Similarity(a: Entity, b: Entity, ratio: Ratio): real
  {
    0.7 * ratio(Lower(a.name), Lower(b.name)) + 0.3 * AliasMax(a.aliases, b.aliases, |a.aliases|, ratio)
  }

  /** The score lies in [0, 1]; it is at most 0.7 (the name term alone) when either side has no aliases. */
  lemma SimilarityBounds(a: Entity, b: Entity, ratio: Ratio)
    requires RatioBounded(ratio)
    ensures 0.0 <= Similarity(a, b, ratio) <= 1.0
    ensures a.aliases == [] || b.aliases == [] ==>
      Similarity(a, b, ratio) == 0.7 * ratio(Lower(a.name), Lower(b.name)) <= 0.7
  {
    AliasMaxIsMaximum(a.aliases, b.aliases, |a.aliases|, ratio);
  }

  /** `list(set(xs))`; the model keeps first occurrences in order. */
  function Distinct(xs: seq<string>): (r: seq<string>)
    ensures forall x :: x in r <==> x in xs
    ensures NoDuplicates(r)
  {
    if xs == [] then []
    else
      var rest := Distinct(xs[..|xs| - 1]);
      if xs[|xs| - 1] in rest then rest else rest + [xs[|xs| - 1]]
  }

  /** Keep the longer name (the first argument's on a tie) and unite the aliases. */
  function MergeEntities(a: Entity, b: Entity): (r: Entity)
    ensures r.name == a.name || r.name == b.name
    ensures |r.name| >= |a.name| && |r.name| >= |b.name|
    ensures |a.name| == |b.name| ==> r.name == a.name
    ensures forall x :: x in r.aliases <==> x in a.aliases || x in b.aliases
    ensures NoDuplicates(r.aliases)
    ensures r.id == None
  {
    var name := if |a.name| >= |b.name| then a.name else b.name;
    Entity(None, name, Distinct(a.aliases + b.aliases))
  }

  /** The AI verdict, or on an API error the fallback "no" carrying the similarity as confidence. */
  function AiAssistedResolution(a: Entity, b: Entity, judge: Judge, ratio: Ratio): (r: AIResolutionResult)
    ensures judge(a, b).ApiError? ==> r.answer == "no" && r.confidence == Similarity(a, b, ratio)
    ensures judge(a, b).Reply? ==> r == judge(a, b).result
  {
    match judge(a, b)
    case Reply(result) => result
    case ApiError => AIResolutionResult("no", Similarity(a, b, ratio), FallbackReason)
  }

  /** The merge condition of the ambiguous band. */
  predicate Approves(v: AIResolutionResult, upper: real)
  {
    Lower(v.answer) == "yes" && v.confidence >= upper
  }

  /**
   * The scan over the first `n` pool members: the score only moves on a
   * strictly greater similarity, so the first maximum wins.
   */
  function Best(e: Entity, pool: seq<Entity>, n: nat, ratio: Ratio): (r: BestMatch)
    requires n <= |pool|
    ensures r.index.None? ==> r.score == 0.0 && forall k :: 0 <= k < n ==> Similarity(e, pool[k], ratio) <= 0.0
    ensures r.index.Some? ==>
      && r.index.value < n
      && r.score == Similarity(e, pool[r.index.value], ratio)
      && r.score > 0.0
      && (forall k :: 0 <= k < n ==> Similarity(e, pool[k], ratio) <= r.score)
      && (forall k :: 0 <= k < r.index.value ==> Similarity(e, pool[k], ratio) < r.score)
  {
    if n == 0 then BestMatch(0.0, None)
    else
      var prev := Best(e, pool, n - 1, ratio);
      var s := Similarity(e, pool[n - 1], ratio);
      if s > prev.score then BestMatch(s, Some(n - 1)) else prev
  }

  /** `list.remove(x)`: drop the first element equal to `x`. */
  function RemoveFirst(s: seq<Entity>, x: Entity): (r: seq<Entity>)
    requires x in s
    ensures |r| == |s| - 1
  {
    if s[0] == x then s[1..] else [s[0]] + RemoveFirst(s[1..], x)
  }

  /** `resolve_entities` as a function of the pool it is handed. */
  function Resolve(lower: real, upper: real, e: Entity, pool: seq<Entity>, judge: Judge, ratio: Ratio)
    : Result<Resolution, ResolveError>
  {
    var best := Best(e, pool, |pool|, ratio);
    if best.score < lower then Ok(Resolution(e, pool + [e], AddedNew))
    else if best.index.None? then Err(NoBestMatch)
    else
      var m := pool[best.index.value];
      var merged := MergeEntities(e, m);
      if best.score >= upper then Ok(Resolution(merged, RemoveFirst(pool, m) + [merged], AutoMerged))
      else if Approves(AiAssistedResolution(e, m, judge, ratio), upper) then
        Ok(Resolution(merged, RemoveFirst(pool, m) + [merged], AiMerged))
      else Ok(Resolution(e, pool + [e], AddedNew))
  }

  lemma {:induction false} RemoveFirstAt(s: seq<Entity>, j: nat)
    requires j < |s|
    requires forall k :: 0 <= k < j ==> s[k] != s[j]
    ensures RemoveFirst(s, s[j]) == s[..j] + s[j + 1..]
  {
    if j > 0 {
      var t := s[1..];
      assert t[j - 1] == s[j];
      assert forall k :: 0 <= k < j - 1 ==> t[k] != t[j - 1] by {
        forall k | 0 <= k < j - 1 ensures t[k] != t[j - 1] {
          assert t[k] == s[k + 1];
        }
      }
      RemoveFirstAt(t, j - 1);
      assert RemoveFirst(s, s[j]) == [s[0]] + (t[..j - 1] + t[j..]);
      assert s[..j] == [s[0]] + t[..j - 1];
      assert s[j + 1..] == t[j..];
      AppendAssoc([s[0]], t[..j - 1], t[j..]);
    }
  }

  /** A "new" outcome returns the candidate unchanged and appends it; existing members are untouched. */
  lemma ResolveNewAppends(lower: real, upper: real, e: Entity, pool: seq<Entity>, judge: Judge, ratio: Ratio)
    requires Resolve(lower, upper, e, pool, judge, ratio).Ok?
    requires Resolve(lower, upper, e, pool, judge, ratio).value.decision == AddedNew
    ensures var res := Resolve(lower, upper, e, pool, judge, ratio).value;
      && res.entity == e
      && |res.pool| == |pool| + 1
      && res.pool[..|pool|] == pool
      && res.pool[|pool|] == e
  {
    var res := Resolve(lower, upper, e, pool, judge, ratio).value;
    assert res.pool == pool + [e];
  }

  /**
   * A merge outcome replaces the first best-scoring member by the merged
   * entity, moved to the end: the pool keeps its length.
   */
  lemma {:induction false} ResolveMergeReplacesBest(
    lower: real, upper: real, e: Entity, pool: seq<Entity>, judge: Judge, ratio: Ratio)
    requires Resolve(lower, upper, e, pool, judge, ratio).Ok?
    requires Resolve(lower, upper, e, pool, judge, ratio).value.decision != AddedNew
    ensures var res := Resolve(lower, upper, e, pool, judge, ratio).value;
      var best := Best(e, pool, |pool|, ratio);
      && best.index.Some?
      && best.score >= lower
      && res.entity == MergeEntities(e, pool[best.index.value])
      && res.pool == pool[..best.index.value] + pool[best.index.value + 1..] + [res.entity]
      && |res.pool| == |pool|
  {
    var best := Best(e, pool, |pool|, ratio);
    var j := best.index.value;
    forall k | 0 <= k < j ensures pool[k] != pool[j] {
      assert Similarity(e, pool[k], ratio) < Similarity(e, pool[j], ratio);
    }
    RemoveFirstAt(pool, j);
  }

  /** The three bands: which decision each score range leads to. */
  lemma ResolveBands(lower: real, upper: real, e: Entity, pool: seq<Entity>, judge: Judge, ratio: Ratio)
    ensures var best := Best(e, pool, |pool|, ratio);
      var out := Resolve(lower, upper, e, pool, judge, ratio);
      && (best.score < lower ==> out.Ok? && out.value.decision == AddedNew)
      && (best.score >= lower && best.score >= upper && best.score > 0.0 ==>
            out.Ok? && out.value.decision == AutoMerged)
      && (lower <= best.score < upper && best.score > 0.0 ==>
            out.Ok? && best.index.Some? &&
            (out.value.decision == AiMerged <==>
               Approves(AiAssistedResolution(e, pool[best.index.value], judge, ratio), upper)) &&
            out.value.decision != AutoMerged)
      && (out.Err? <==> lower <= 0.0 && forall k :: 0 <= k < |pool| ==> Similarity(e, pool[k], ratio) <= 0.0)
  {
    var best := Best(e, pool, |pool|, ratio);
    if best.index.Some? {
      var j := best.index.value;
      assert 0 <= j < |pool| && Similarity(e, pool[j], ratio) > 0.0;
    }
  }

  /** With a positive lower threshold resolution never raises. */
  lemma PositiveLowerNeverFails(lower: real, upper: real, e: Entity, pool: seq<Entity>, judge: Judge, ratio: Ratio)
    requires lower > 0.0
    ensures Resolve(lower, upper, e, pool, judge, ratio).Ok?
  {
  }

  lemma FallbackAnswerIsNo()
    ensures Lower("no") == "no" != "yes"
  {
    assert Lower("no")[0] == 'n' && Lower("no")[1] == 'o';
  }

  /** On an API error the fallback verdict never approves a merge. */
  lemma ApiErrorNeverApproves(a: Entity, b: Entity, judge: Judge, ratio: Ratio, upper: real)
    requires judge(a, b).ApiError?
    ensures !Approves(AiAssistedResolution(a, b, judge, ratio), upper)
  {
    FallbackAnswerIsNo();
  }

  /** When every AI call for this candidate errors, no AI merge happens. */
  lemma ApiErrorNeverMerges(lower: real, upper: real, e: Entity, pool: seq<Entity>, judge: Judge, ratio: Ratio)
    requires forall m :: judge(e, m).ApiError?
    requires Resolve(lower, upper, e, pool, judge, ratio).Ok?
    ensures Resolve(lower, upper, e, pool, judge, ratio).value.decision != AiMerged
  {
    var best := Best(e, pool, |pool|, ratio);
    if best.index.Some? {
      ApiErrorNeverApproves(e, pool[best.index.value], judge, ratio, upper);
    }
  }

  /**
   * A candidate without aliases scores at most 0.7 against anything, so with
   * an upper threshold above 0.7 (the default is 0.9) it is never auto-merged.
   */
  lemma NoAliasesNeverAutoMerge(lower: real, upper: real, e: Entity, pool: seq<Entity>, judge: Judge, ratio: Ratio)
    requires RatioBounded(ratio)
    requires e.aliases == []
    requires upper > 0.7
    requires Resolve(lower, upper, e, pool, judge, ratio).Ok?
    ensures Resolve(lower, upper, e, pool, judge, ratio).value.decision != AutoMerged
  {
    var best := Best(e, pool, |pool|, ratio);
    if best.index.Some? {
      SimilarityBounds(e, pool[best.index.value], ratio);
    }
  }

  /** The resolved entity carries the candidate's name or a pool member's, and only their aliases. */
  lemma ResolvedFromCandidateOrPool(lower: real, upper: real, e: Entity, pool: seq<Entity>, judge: Judge, ratio: Ratio)
    requires Resolve(lower, upper, e, pool, judge, ratio).Ok?
    ensures var r := Resolve(lower, upper, e, pool, judge, ratio).value.entity;
      && (r.name == e.name || exists m :: m in pool && r.name == m.name)
      && (forall x :: x in r.aliases ==> x in e.aliases || exists m :: m in pool && x in m.aliases)
  {
    var best := Best(e, pool, |pool|, ratio);
    if best.index.Some? {
      var m := pool[best.index.value];
      assert m in pool;
    }
  }

  /**
   * A candidate without aliases whose name equals a pool member's (say
   * "Eric Lampron" against "Eric Lampron" with alias "Eric") scores 0.7, not
   * 1.0: with the default thresholds it lands in the ambiguous band and is
   * merged only on the AI's approval.
   */
  lemma SameNameWithoutAliasesIsAmbiguous(e: Entity, m: Entity, judge: Judge, ratio: Ratio)
    requires RatioBounded(ratio)
    requires forall x :: ratio(x, x) == 1.0
    requires e.aliases == [] && e.name == m.name
    ensures Similarity(e, m, ratio) == 0.7
    ensures var out := Resolve(DefaultLowerThreshold, DefaultUpperThreshold, e, [m], judge, ratio);
      && out.Ok?
      && out.value.decision != AutoMerged
      && (out.value.decision == AiMerged <==> Approves(AiAssistedResolution(e, m, judge, ratio), DefaultUpperThreshold))
  {
    SimilarityBounds(e, m, ratio);
    assert ratio(Lower(e.name), Lower(m.name)) == 1.0;
    assert Best(e, [m], 0, ratio) == BestMatch(0.0, None);
  }

  /** The caller's list that `resolve_entities` mutates in place. */
  class EntityList {
    var items: seq<Entity>

    constructor (xs: seq<Entity>)
      ensures items == xs
    {
      items := xs;
    }

    method Append(x: Entity)
      modifies this
      ensures items == old(items) + [x]
    {
      items := items + [x];
    }

    /** `list.remove(x)`; the pipeline only removes a member it has just found. */
    method Remove(x: Entity)
      requires x in items
      modifies this
      ensures items == RemoveFirst(old(items), x)
    {
      items := RemoveFirst(items, x);
    }
  }

  class EntityResolutionPipeline {
    const lowerThreshold: real
    const upperThreshold: real

    constructor (lower: real, upper: real)
      ensures lowerThreshold == lower && upperThreshold == upper
    {
      lowerThreshold := lower;
      upperThreshold := upper;
    }

    /** The nested alias loops of `compute_similarity`, accumulating the running maximum. */
    method ComputeSimilarity(a: Entity, b: Entity, ratio: Ratio) returns (r: real)
      ensures r == Similarity(a, b, ratio)
    {
      var nameSimilarity := ratio(Lower(a.name), Lower(b.name));
      var aliasSimilarity := 0.0;
      for i := 0 to |a.aliases|
        invariant aliasSimilarity == AliasMax(a.aliases, b.aliases, i, ratio)
      {
        for j := 0 to |b.aliases|
          invariant aliasSimilarity ==
            Max(AliasMax(a.aliases, b.aliases, i, ratio), RowMax(a.aliases[i], b.aliases, j, ratio))
        {
          var sim := PairRatio(ratio, a.aliases[i], b.aliases[j]);
          aliasSimilarity := Max(aliasSimilarity, sim);
        }
      }
      r := 0.7 * nameSimilarity + 0.3 * aliasSimilarity;
    }

    /**
     * Scan the pool for the first strictly best match, then append the
     * candidate, or remove the match and append the merged entity.
     */
    method ResolveEntities(newEntity: Entity, existing: EntityList, judge: Judge, ratio: Ratio)
      returns (r: Result<Entity, ResolveError>)
      modifies existing
      ensures var out := Resolve(lowerThreshold, upperThreshold, newEntity, old(existing.items), judge, ratio);
        && (out.Ok? ==> r == Ok(out.value.entity) && existing.items == out.value.pool)
        && (out.Err? ==> r == Err(out.error) && existing.items == old(existing.items))
    {
      var items := existing.items;
      var bestSimilarity := 0.0;
      var bestMatch: Option<Entity> := None;
      for i := 0 to |items|
        invariant existing.items == items
        invariant bestSimilarity == Best(newEntity, items, i, ratio).score
        invariant bestMatch == if Best(newEntity, items, i, ratio).index.Some?
                               then Some(items[Best(newEntity, items, i, ratio).index.value]) else None
      {
        var sim := ComputeSimilarity(newEntity, items[i], ratio);
        if sim > bestSimilarity {
          bestSimilarity := sim;
          bestMatch := Some(items[i]);
        }
      }
      ghost var out := Resolve(lowerThreshold, upperThreshold, newEntity, items, judge, ratio);
      if bestSimilarity < lowerThreshold {
        existing.Append(newEntity);
        r := Ok(newEntity);
        assert out == Ok(Resolution(newEntity, items + [newEntity], AddedNew));
      } else if bestMatch.None? {
        r := Err(NoBestMatch);
      } else if bestSimilarity >= upperThreshold {
        var merged := MergeEntities(newEntity, bestMatch.value);
        existing.Remove(bestMatch.value);
        existing.Append(merged);
        r := Ok(merged);
        assert out == Ok(Resolution(merged, RemoveFirst(items, bestMatch.value) + [merged], AutoMerged));
      } else {
        var verdict := AiAssistedResolution(newEntity, bestMatch.value, judge, ratio);
        if Approves(verdict, upperThreshold) {
          var merged := MergeEntities(newEntity, bestMatch.value);
          existing.Remove(bestMatch.value);
          existing.Append(merged);
          r := Ok(merged);
          assert out == Ok(Resolution(merged, RemoveFirst(items, bestMatch.value) + [merged], AiMerged));
        } else {
          existing.Append(newEntity);
          r := Ok(newEntity);
          assert out == Ok(Resolution(newEntity, items + [newEntity], AddedNew));
        }
      }
    }
  }
}
