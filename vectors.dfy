/**
 * The `cosine_similarity` helper that db/memories.py and
 * db/knowledge_search.py each define in the same words: the dot product
 * divided by the product of the two Euclidean norms, or 0 when either norm
 * is 0. The floating-point quotient itself is passed in as `quotient`; the
 * shape check of the dot product and the zero-norm guard are modelled
 * exactly (the norm of a real vector is 0 exactly when every component is 0).
 */
module Vectors {
  import opened Wrappers

  /** numpy refuses a dot product of two vectors of different lengths. */
  datatype VectorError = ShapeMismatch

  /** `quotient(v1, v2)` stands for `dot(v1, v2) / (norm(v1) * norm(v2))` on two non-zero vectors of one length. */
  type Quotient = (seq<real>, seq<real>) -> real

  predicate IsZeroVector(v: seq<real>)
  {
    forall i :: 0 <= i < |v| ==> v[i] == 0.0
  }

  /**
   * `cosine_similarity(v1, v2)`: vectors of different lengths make the dot
   * product raise; a zero vector on either side gives 0; otherwise the quotient.
   */
  function Cosine(v1: seq<real>, v2: seq<real>, quotient: Quotient): (r: Result<real, VectorError>)
    ensures r.Err? <==> |v1| != |v2|
    ensures r.Ok? && (IsZeroVector(v1) || IsZeroVector(v2)) ==> r.value == 0.0
    ensures r.Ok? && !IsZeroVector(v1) && !IsZeroVector(v2) ==> r.value == quotient(v1, v2)
  {
    if |v1| != |v2| then Err(ShapeMismatch)
    else if IsZeroVector(v1) || IsZeroVector(v2) then Ok(0.0)
    else Ok(quotient(v1, v2))
  }
}
