/**
 * The batch driver of nexus/entity_processing.py: each extracted entity is
 * turned into an alias-less candidate, resolved against a pool fetched fresh
 * from the store by name search, and the outcome is upserted into the store.
 * A resolution error aborts the batch, leaving the upserts already done.
 */
module EntityProcessing {
  import opened Wrappers
  import opened Text
  import opened GraphNodes
  import opened EntityQueries
  import opened EntityResolution
  import opened EntityExtraction
  import opened Store

  /** The store-side time of the `i`-th upsert of a batch. */
  type Clock = nat -> int

  /** The candidate built from an extracted entity: its name, no aliases. */
  function Candidate(x: EntitySchema): Entity
  {
    Entity(None, x.name, [])
  }

  /** The pool handed to the resolver: one Entity per row of the name search. */
  function PoolOf(rows: seq<EntityRecord>): (r: seq<Entity>)
    ensures |r| == |rows|
    ensures forall i :: 0 <= i < |rows| ==> r[i] == Entity(None, rows[i].name, rows[i].aliases)
  {
    seq(|rows|, i requires 0 <= i < |rows| => Entity(None, rows[i].name, rows[i].aliases))
  }

  /** The pool fetched for an extracted entity: stored entities whose name contains its name, case ignored. */
  function FetchPool(es: seq<EntityNode>, x: EntitySchema): seq<Entity>
  {
    PoolOf(SearchSimilarEntities(es, x.name))
  }

  /** What one loop iteration produces. */
  datatype StepOut = StepOut(entity: Entity, decision: Decision, entities: seq<EntityNode>)

  /** One iteration: fetch the pool, resolve the candidate, upsert the outcome with the extracted type. */
  function Step(lower: real, upper: real, es: seq<EntityNode>, x: EntitySchema, judge: Judge, ratio: Ratio, now: int)
    : Result<StepOut, ResolveError>
  {
    match Resolve(lower, upper, Candidate(x), FetchPool(es, x), judge, ratio)
    case Err(e) => Err(e)
    case Ok(res) =>
      Ok(StepOut(res.entity, res.decision, MergeEntity(es, res.entity.name, res.entity.aliases, x.entityType, now)))
  }

  /**
   * The batch state after a prefix of the input: the entities returned so
   * far, the branch each took, the store's entities, and the error that
   * aborted the batch, if any.
   */
  datatype Batch = Batch(results: seq<Entity>, decisions: seq<Decision>, entities: seq<EntityNode>, failed: Option<ResolveError>)

  /** One loop iteration as a function of the store's entities, the extracted entity and its position. */
  type Stepper = (seq<EntityNode>, EntitySchema, nat) -> Result<StepOut, ResolveError>

  /** The iteration at position `i`: skipped once the batch has failed, otherwise resolved and upserted. */
  function Advance(step: Stepper, prev: Batch, x: EntitySchema, i: nat): Batch
  {
    if prev.failed.Some? then prev
    else match step(prev.entities, x, i)
      case Err(e) => prev.(failed := Some(e))
      case Ok(s) => Batch(prev.results + [s.entity], prev.decisions + [s.decision], s.entities, None)
  }

  /** The loop over the extracted entities, starting from the store's entities `es`. */
  function Fold(step: Stepper, es: seq<EntityNode>, xs: seq<EntitySchema>): (r: Batch)
    ensures |r.results| == |r.decisions| <= |xs|
    ensures r.failed.None? <==> |r.results| == |xs|
  {
    if xs == [] then Batch([], [], es, None)
    else
      var n := |xs| - 1;
      Advance(step, Fold(step, es, xs[..n]), xs[n], n)
  }

  function StepAt(lower: real, upper: real, judge: Judge, ratio: Ratio, clock: Clock): Stepper
  {
    (es: seq<EntityNode>, x: EntitySchema, i: nat) => Step(lower, upper, es, x, judge, ratio, clock(i))
  }

  /** `process_extracted_entities` over the store's entities `es`; the `i`-th upsert happens at `clock(i)`. */
  function Process(lower: real, upper: real, es: seq<EntityNode>, xs: seq<EntitySchema>, judge: Judge, ratio: Ratio, clock: Clock)
    : Batch
  {
    Fold(StepAt(lower, upper, judge, ratio, clock), es, xs)
  }

  /** Extending the processed prefix by one extracted entity is one more iteration. */
  lemma FoldStep(step: Stepper, es: seq<EntityNode>, xs: seq<EntitySchema>, i: nat)
    requires i < |xs|
    ensures Fold(step, es, xs[..i + 1]) == Advance(step, Fold(step, es, xs[..i]), xs[i], i)
  {
    assert xs[..i + 1][..i] == xs[..i];
  }

  /** Once a prefix of the batch has failed, the rest of the input is never looked at. */
  lemma {:induction false} FoldStopsAtFailure(step: Stepper, es: seq<EntityNode>, xs: seq<EntitySchema>, j: nat)
    requires j <= |xs|
    requires Fold(step, es, xs[..j]).failed.Some?
    ensures Fold(step, es, xs) == Fold(step, es, xs[..j])
    decreases |xs|
  {
    if j < |xs| {
      var n := |xs| - 1;
      assert xs[..n][..j] == xs[..j];
      FoldStopsAtFailure(step, es, xs[..n], j);
    } else {
      assert xs[..j] == xs;
    }
  }

  /**
   * A property every successful iteration gives its extracted entity, its
   * returned entity and its branch holds at every position of the result:
   * results line up with the input, one per extracted entity, in order.
   */
  lemma {:induction false} FoldEach(
    step: Stepper, es: seq<EntityNode>, xs: seq<EntitySchema>, p: (EntitySchema, Entity, Decision) -> bool)
    requires forall st, x, i :: step(st, x, i).Ok? ==> p(x, step(st, x, i).value.entity, step(st, x, i).value.decision)
    ensures var b := Fold(step, es, xs);
      forall i :: 0 <= i < |b.results| ==> p(xs[i], b.results[i], b.decisions[i])
  {
    if xs != [] {
      var n := |xs| - 1;
      var prev := Fold(step, es, xs[..n]);
      var b := Fold(step, es, xs);
      FoldEach(step, es, xs[..n], p);
      forall i | 0 <= i < |b.results| ensures p(xs[i], b.results[i], b.decisions[i]) {
        if i < n {
          assert b.results[i] == prev.results[i] && b.decisions[i] == prev.decisions[i];
          assert xs[i] == xs[..n][i];
        }
      }
    }
  }

  /** An iteration that never fails makes the whole batch succeed. */
  lemma {:induction false} FoldCompletes(step: Stepper, es: seq<EntityNode>, xs: seq<EntitySchema>)
    requires forall st, x, i :: step(st, x, i).Ok?
    ensures Fold(step, es, xs).failed.None?
  {
    if xs != [] {
      FoldCompletes(step, es, xs[..|xs| - 1]);
    }
  }

  /**
   * When each iteration stores the entity it returns and drops no name, and
   * keeps names unique, the store afterwards holds exactly the old names
   * plus the returned ones, still unique.
   */
  lemma {:induction false} FoldNames(step: Stepper, es: seq<EntityNode>, xs: seq<EntitySchema>)
    requires forall st, x, i :: step(st, x, i).Ok? ==>
      forall n :: HasEntity(step(st, x, i).value.entities, n) <==> HasEntity(st, n) || n == step(st, x, i).value.entity.name
    requires forall st, x, i :: step(st, x, i).Ok? && UniqueNames(st) ==> UniqueNames(step(st, x, i).value.entities)
    ensures var b := Fold(step, es, xs);
      && (forall n :: HasEntity(b.entities, n) <==> HasEntity(es, n) || n in NamesOf(b.results))
      && (UniqueNames(es) ==> UniqueNames(b.entities))
  {
    if xs != [] {
      var n := |xs| - 1;
      var prev := Fold(step, es, xs[..n]);
      FoldNames(step, es, xs[..n]);
      if prev.failed.None? && step(prev.entities, xs[n], n).Ok? {
        var s := step(prev.entities, xs[n], n).value;
        var b := Fold(step, es, xs);
        assert b.entities == s.entities && b.results == prev.results + [s.entity];
        assert NamesOf(b.results) == NamesOf(prev.results) + [s.entity.name];
        forall nm ensures HasEntity(b.entities, nm) <==> HasEntity(es, nm) || nm in NamesOf(b.results) {
          assert HasEntity(s.entities, nm) <==> HasEntity(prev.entities, nm) || nm == s.entity.name;
          assert HasEntity(prev.entities, nm) <==> HasEntity(es, nm) || nm in NamesOf(prev.results);
          assert nm in NamesOf(b.results) <==> nm in NamesOf(prev.results) || nm == s.entity.name;
        }
      }
    }
  }

  function NamesOf(es: seq<Entity>): (r: seq<string>)
    ensures |r| == |es| && forall i :: 0 <= i < |es| ==> r[i] == es[i].name
  {
    seq(|es|, i requires 0 <= i < |es| => es[i].name)
  }

  /**
   * The resolved entity of one step has a name that contains the extracted
   * name, case ignored, and is stored under that name with those aliases;
   * the step adds no other name and keeps names unique; and, the candidate
   * having no aliases, it is never an auto-merge when the upper threshold
   * exceeds 0.7.
   */
  lemma StepFacts(lower: real, upper: real, es: seq<EntityNode>, x: EntitySchema, judge: Judge, ratio: Ratio, now: int)
    requires Step(lower, upper, es, x, judge, ratio, now).Ok?
    ensures var s := Step(lower, upper, es, x, judge, ratio, now).value;
      && ContainsIgnoreCase(s.entity.name, x.name)
      && (s.entity.name == x.name || HasEntity(es, s.entity.name))
      && (exists i :: 0 <= i < |s.entities| && s.entities[i].name == s.entity.name && s.entities[i].aliases == s.entity.aliases)
      && (forall n :: HasEntity(s.entities, n) <==> HasEntity(es, n) || n == s.entity.name)
      && (UniqueNames(es) ==> UniqueNames(s.entities))
      && (RatioBounded(ratio) && upper > 0.7 ==> s.decision != AutoMerged)
  {
    var pool := FetchPool(es, x);
    var rows := SearchSimilarEntities(es, x.name);
    var s := Step(lower, upper, es, x, judge, ratio, now).value;
    ResolvedFromCandidateOrPool(lower, upper, Candidate(x), pool, judge, ratio);
    if s.entity.name == x.name {
      ContainsSelf(x.name);
    } else {
      var m :| m in pool && s.entity.name == m.name;
      var k :| 0 <= k < |pool| && pool[k] == m;
      assert rows[k] in rows;
      var node :| node in es && ContainsIgnoreCase(node.name, x.name) && rows[k] == RecordOf(node);
      var i :| 0 <= i < |es| && es[i] == node;
      assert es[i].name == s.entity.name;
    }
    if HasEntity(es, s.entity.name) {
      var j :| 0 <= j < |es| && es[j].name == s.entity.name;
      assert s.entities[j].aliases == s.entity.aliases;
    } else {
      assert s.entities[|es|].aliases == s.entity.aliases;
    }
    if RatioBounded(ratio) && upper > 0.7 {
      NoAliasesNeverAutoMerge(lower, upper, Candidate(x), pool, judge, ratio);
    }
  }

  /**
   * One result per extracted entity until a failure, in input order: each
   * returned name contains the name extracted at the same position, case
   * ignored, and is the name of an Entity in the store afterwards.
   */
  lemma ResultsMatchInput(
    lower: real, upper: real, es: seq<EntityNode>, xs: seq<EntitySchema>, judge: Judge, ratio: Ratio, clock: Clock)
    ensures var b := Process(lower, upper, es, xs, judge, ratio, clock);
      && |b.results| <= |xs|
      && (b.failed.None? <==> |b.results| == |xs|)
      && forall i :: 0 <= i < |b.results| ==>
        ContainsIgnoreCase(b.results[i].name, xs[i].name) && HasEntity(b.entities, b.results[i].name)
  {
    var step := StepAt(lower, upper, judge, ratio, clock);
    var p := (x: EntitySchema, e: Entity, d: Decision) => ContainsIgnoreCase(e.name, x.name);
    forall st, x, i | step(st, x, i).Ok? ensures p(x, step(st, x, i).value.entity, step(st, x, i).value.decision) {
      StepFacts(lower, upper, st, x, judge, ratio, clock(i));
    }
    FoldEach(step, es, xs, p);
    StepsKeepNames(lower, upper, judge, ratio, clock);
    FoldNames(step, es, xs);
    var b := Process(lower, upper, es, xs, judge, ratio, clock);
    forall i | 0 <= i < |b.results| ensures HasEntity(b.entities, b.results[i].name) {
      assert NamesOf(b.results)[i] == b.results[i].name;
    }
  }

  lemma StepsKeepNames(lower: real, upper: real, judge: Judge, ratio: Ratio, clock: Clock)
    ensures var step := StepAt(lower, upper, judge, ratio, clock);
      && (forall st, x, i :: step(st, x, i).Ok? ==>
            forall n :: HasEntity(step(st, x, i).value.entities, n) <==> HasEntity(st, n) || n == step(st, x, i).value.entity.name)
      && (forall st, x, i :: step(st, x, i).Ok? && UniqueNames(st) ==> UniqueNames(step(st, x, i).value.entities))
  {
    var step := StepAt(lower, upper, judge, ratio, clock);
    forall st, x, i | step(st, x, i).Ok?
      ensures forall n :: HasEntity(step(st, x, i).value.entities, n) <==> HasEntity(st, n) || n == step(st, x, i).value.entity.name
      ensures UniqueNames(st) ==> UniqueNames(step(st, x, i).value.entities)
    {
      StepFacts(lower, upper, st, x, judge, ratio, clock(i));
    }
  }

  /**
   * Candidates carry no aliases, so with an upper threshold above 0.7 (the
   * default 0.9 included) the auto-merge branch is never taken: every merge
   * in a batch comes from the AI's approval.
   */
  lemma NeverAutoMerged(
    lower: real, upper: real, es: seq<EntityNode>, xs: seq<EntitySchema>, judge: Judge, ratio: Ratio, clock: Clock)
    requires RatioBounded(ratio)
    requires upper > 0.7
    ensures forall d :: d in Process(lower, upper, es, xs, judge, ratio, clock).decisions ==> d != AutoMerged
  {
    var step := StepAt(lower, upper, judge, ratio, clock);
    var p := (x: EntitySchema, e: Entity, d: Decision) => d != AutoMerged;
    forall st, x, i | step(st, x, i).Ok? ensures p(x, step(st, x, i).value.entity, step(st, x, i).value.decision) {
      StepFacts(lower, upper, st, x, judge, ratio, clock(i));
    }
    FoldEach(step, es, xs, p);
  }

  /** With the default thresholds a batch only ever adds new entities or merges on the AI's approval. */
  lemma DefaultsNeverAutoMerge(es: seq<EntityNode>, xs: seq<EntitySchema>, judge: Judge, ratio: Ratio, clock: Clock)
    requires RatioBounded(ratio)
    ensures forall d :: d in Process(DefaultLowerThreshold, DefaultUpperThreshold, es, xs, judge, ratio, clock).decisions ==>
      d == AddedNew || d == AiMerged
  {
    NeverAutoMerged(DefaultLowerThreshold, DefaultUpperThreshold, es, xs, judge, ratio, clock);
  }

  /** With a positive lower threshold the batch never fails: one result per extracted entity. */
  lemma PositiveLowerCompletes(
    lower: real, upper: real, es: seq<EntityNode>, xs: seq<EntitySchema>, judge: Judge, ratio: Ratio, clock: Clock)
    requires lower > 0.0
    ensures Process(lower, upper, es, xs, judge, ratio, clock).failed.None?
    ensures |Process(lower, upper, es, xs, judge, ratio, clock).results| == |xs|
  {
    var step := StepAt(lower, upper, judge, ratio, clock);
    forall st, x, i ensures step(st, x, i).Ok? {
      assert step(st, x, i) == Step(lower, upper, st, x, judge, ratio, clock(i));
      PositiveLowerNeverFails(lower, upper, Candidate(x), FetchPool(st, x), judge, ratio);
    }
    FoldCompletes(step, es, xs);
  }

  /**
   * The batch keeps Entity names unique, and the names in the store
   * afterwards are the old ones plus the returned ones.
   */
  lemma ProcessKeepsNames(
    lower: real, upper: real, es: seq<EntityNode>, xs: seq<EntitySchema>, judge: Judge, ratio: Ratio, clock: Clock)
    ensures var b := Process(lower, upper, es, xs, judge, ratio, clock);
      && (UniqueNames(es) ==> UniqueNames(b.entities))
      && forall n :: HasEntity(b.entities, n) <==> HasEntity(es, n) || n in NamesOf(b.results)
  {
    StepsKeepNames(lower, upper, judge, ratio, clock);
    FoldNames(StepAt(lower, upper, judge, ratio, clock), es, xs);
  }

  class EntityProcessingPipeline {
    const store: GraphStore
    const resolver: EntityResolutionPipeline

    constructor (store: GraphStore, resolver: EntityResolutionPipeline)
      ensures this.store == store && this.resolver == resolver
    {
      this.store := store;
      this.resolver := resolver;
    }

    /**
     * `process_extracted_entities`: resolve and upsert each extracted entity
     * in order; the store's Entity nodes and the outcome are those of `Process`.
     */
    method ProcessExtractedEntities(extracted: seq<EntitySchema>, judge: Judge, ratio: Ratio, clock: Clock)
      returns (r: Result<seq<Entity>, ResolveError>)
      requires store.Valid()
      modifies store
      ensures store.Valid()
      ensures var b := Process(resolver.lowerThreshold, resolver.upperThreshold, old(store.entities), extracted, judge, ratio, clock);
        && store.entities == b.entities
        && (b.failed.None? ==> r == Ok(b.results))
        && (b.failed.Some? ==> r == Err(b.failed.value))
      ensures store.related == old(store.related) && store.topics == old(store.topics)
      ensures store.documents == old(store.documents) && store.memories == old(store.memories)
      ensures store.mentions == old(store.mentions) && store.hasTopic == old(store.hasTopic)
      ensures store.hasMemory == old(store.hasMemory)
    {
      var lower, upper := resolver.lowerThreshold, resolver.upperThreshold;
      ghost var es0 := store.entities;
      ghost var step := StepAt(lower, upper, judge, ratio, clock);
      var finalEntities: seq<Entity> := [];
      ghost var decisions: seq<Decision> := [];
      for i := 0 to |extracted|
        invariant store.Valid()
        invariant Fold(step, es0, extracted[..i]) == Batch(finalEntities, decisions, store.entities, None)
        invariant store.related == old(store.related) && store.topics == old(store.topics)
        invariant store.documents == old(store.documents) && store.memories == old(store.memories)
        invariant store.mentions == old(store.mentions) && store.hasTopic == old(store.hasTopic)
        invariant store.hasMemory == old(store.hasMemory)
      {
        var x := extracted[i];
        FoldStep(step, es0, extracted, i);
        ghost var prev := Batch(finalEntities, decisions, store.entities, None);
        var newEntity := Candidate(x);
        var rows := SearchSimilarEntities(store.entities, newEntity.name);
        var existing := new EntityList(PoolOf(rows));
        ghost var out := Resolve(lower, upper, newEntity, existing.items, judge, ratio);
        assert step(store.entities, x, i) == Step(lower, upper, store.entities, x, judge, ratio, clock(i));
        var resolved := resolver.ResolveEntities(newEntity, existing, judge, ratio);
        if resolved.Err? {
          r := Err(resolved.error);
          assert Fold(step, es0, extracted[..i + 1]) == prev.(failed := Some(resolved.error));
          FoldStopsAtFailure(step, es0, extracted, i + 1);
          return;
        }
        var e := resolved.value;
        store.UpdateEntity(e.name, e.aliases, x.entityType, clock(i));
        finalEntities := finalEntities + [e];
        decisions := decisions + [out.value.decision];
      }
      assert extracted[..|extracted|] == extracted;
      r := Ok(finalEntities);
    }

    /** `infer_and_store_relationships` is a placeholder: it changes nothing. */
    method InferAndStoreRelationships(text: string, entities: seq<Entity>)
      ensures unchanged(store)
    {
    }
  }
}
