/**
 * Embedding vectors: cosine similarity between two vectors, and the client
 * that asks the embedding service for the vector of a text.
 * `Math.sqrt` is a parameter constrained by the laws the proofs rely on.
 */
module Embeddings {
  import opened Wrappers

  /** The square root of a non-negative number is non-negative and squares back to it. */
  ghost predicate SqrtLaws(sqrt: real -> real) {
    forall x :: x >= 0.0 ==> sqrt(x) >= 0.0 && sqrt(x) * sqrt(x) == x
  }

  /** The sum of `a[k] * b[k]` over the first `n` positions. */
  function Dot(a: seq<real>, b: seq<real>, n: nat): real
    requires n <= |a| && n <= |b|
  {
    if n == 0 then 0.0 else Dot(a, b, n - 1) + a[n - 1] * b[n - 1]
  }

  lemma {:induction false} SquaresNonNegative(a: seq<real>, n: nat)
    requires n <= |a|
    ensures Dot(a, a, n) >= 0.0
  {
    if n > 0 {
      SquaresNonNegative(a, n - 1);
      assert a[n - 1] * a[n - 1] >= 0.0;
    }
  }

  lemma {:induction false} DotSymmetric(a: seq<real>, b: seq<real>, n: nat)
    requires n <= |a| && n <= |b|
    ensures Dot(a, b, n) == Dot(b, a, n)
  {
    if n > 0 {
      DotSymmetric(a, b, n - 1);
    }
  }

  /**
   * `cosineSimilarity`: 0 for vectors of different or zero length and for a
   * vector whose squared norm is 0; otherwise the dot product over the
   * product of the norms.
   */
  function Cosine(a: seq<real>, b: seq<real>, sqrt: real -> real): real
    requires SqrtLaws(sqrt)
  {
    if |a| != |b| || |a| == 0 then 0.0
    else
      var normA := Dot(a, a, |a|);
      var normB := Dot(b, b, |b|);
      if normA == 0.0 || normB == 0.0 then 0.0
      else
        SquaresNonNegative(a, |a|);
        SquaresNonNegative(b, |b|);
        Dot(a, b, |a|) / (sqrt(normA) * sqrt(normB))
  }

  /** The accumulating loop of `cosineSimilarity`. */
  method CosineSimilarity(a: seq<real>, b: seq<real>, sqrt: real -> real) returns (r: real)
    requires SqrtLaws(sqrt)
    ensures r == Cosine(a, b, sqrt)
  {
    if |a| != |b| || |a| == 0 {
      return 0.0;
    }
    var dot, normA, normB := 0.0, 0.0, 0.0;
    var i := 0;
    while i < |a|
      invariant 0 <= i <= |a|
      invariant dot == Dot(a, b, i)
      invariant normA == Dot(a, a, i) && normB == Dot(b, b, i)
      invariant normA >= 0.0 && normB >= 0.0
    {
      dot := dot + a[i] * b[i];
      normA := normA + a[i] * a[i];
      normB := normB + b[i] * b[i];
      i := i + 1;
    }
    if normA == 0.0 || normB == 0.0 {
      return 0.0;
    }
    r := dot / (sqrt(normA) * sqrt(normB));
  }

  /** The guard cases: mismatched or empty vectors, and zero vectors, score exactly 0. */
  lemma CosineGuards(a: seq<real>, b: seq<real>, sqrt: real -> real)
    requires SqrtLaws(sqrt)
    ensures |a| != |b| || |a| == 0 ==> Cosine(a, b, sqrt) == 0.0
    ensures |a| == |b| && (Dot(a, a, |a|) == 0.0 || Dot(b, b, |b|) == 0.0) ==> Cosine(a, b, sqrt) == 0.0
  {
  }

  /** Cosine similarity does not depend on the order of its arguments. */
  lemma CosineSymmetric(a: seq<real>, b: seq<real>, sqrt: real -> real)
    requires SqrtLaws(sqrt)
    ensures Cosine(a, b, sqrt) == Cosine(b, a, sqrt)
  {
    if |a| == |b| && |a| > 0 {
      DotSymmetric(a, b, |a|);
      var sa, sb := sqrt(Dot(a, a, |a|)), sqrt(Dot(b, b, |b|));
      assert sa * sb == sb * sa;
    }
  }

  /** Vectors with a zero dot product (orthogonal ones, for instance) score 0. */
  lemma CosineOrthogonal(a: seq<real>, b: seq<real>, sqrt: real -> real)
    requires SqrtLaws(sqrt)
    requires |a| == |b| && Dot(a, b, |a|) == 0.0
    ensures Cosine(a, b, sqrt) == 0.0
  {
    if |a| > 0 && Dot(a, a, |a|) != 0.0 && Dot(b, b, |b|) != 0.0 {
      SquaresNonNegative(a, |a|);
      SquaresNonNegative(b, |b|);
      var sa, sb := sqrt(Dot(a, a, |a|)), sqrt(Dot(b, b, |b|));
      assert sa * sa == Dot(a, a, |a|) && sb * sb == Dot(b, b, |b|);
      assert sa != 0.0 && sb != 0.0;
      assert 0.0 / (sa * sb) == 0.0;
    }
  }

  /** A vector with a non-zero norm is perfectly similar to itself. */
  lemma CosineSelf(a: seq<real>, sqrt: real -> real)
    requires SqrtLaws(sqrt)
    requires |a| > 0 && Dot(a, a, |a|) != 0.0
    ensures Cosine(a, a, sqrt) == 1.0
  {
    var n := Dot(a, a, |a|);
    SquaresNonNegative(a, |a|);
    assert sqrt(n) * sqrt(n) == n;
    assert n / n == 1.0;
  }

  datatype EmbedError = NotConfigured | RequestFailed | EmptyEmbedding

  /** The client of the remote embedding service; the service's answers are not known in advance. */
  class EmbeddingsClient {
    /** Whether an API key was supplied. */
    const configured: bool
    /** How many requests were sent to the service. */
    ghost var requests: nat

    constructor(apiKey: string)
      ensures configured <==> apiKey != ""
      ensures requests == 0
    {
      configured := apiKey != "";
      requests := 0;
    }

    /** `embedText`: fails without an API key or on an empty answer, otherwise returns a non-empty vector. */
    method EmbedText(text: string) returns (r: Result<seq<real>, EmbedError>)
      modifies this
      ensures !configured ==> r == Err(NotConfigured) && requests == old(requests)
      ensures configured ==> r != Err(NotConfigured) && requests == old(requests) + 1
      ensures r.Ok? ==> |r.value| > 0
    {
      if !configured {
        return Err(NotConfigured);
      }
      requests := requests + 1;
      var answer: Option<Option<seq<real>>> :| true;
      match answer
      case None =>
        r := Err(RequestFailed);
      case Some(vector) =>
        if vector.None? || |vector.value| == 0 {
          r := Err(EmptyEmbedding);
        } else {
          r := Ok(vector.value);
        }
    }
  }
}
