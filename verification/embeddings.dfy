/** lib/embeddings.ts: one embedding per text through an external provider,
    a batching loop that isolates per-text failures, and the guards of the
    cosine similarity. The provider is a parameter; vector components are
    integers standing in for the source's floating-point numbers. */
module Embeddings {
  import opened Wrappers
  import opened JsString

  /** Width of every stored embedding and of the zero fallback vector. */
  const EmbeddingDimension: nat := 768

  /** What one provider call does: it throws (with the error's string form),
      or returns a response whose `values` field may be absent. */
  datatype ProviderReply = Threw(message: string) | Returned(values: Option<seq<int>>)

  type Provider = string -> ProviderReply

  const FailurePrefix: string := "Failed to generate embedding: "

  /** The string form of the error thrown for a missing or empty vector. */
  const EmptyEmbeddingError: string := "Error: Empty embedding returned"

  /** A provider reply carrying a present, non-empty vector. */
  predicate Usable(reply: ProviderReply) {
    reply.Returned? && reply.values.Some? && reply.values.value != []
  }

  /** `generateEmbedding`: every failure, the provider's own or the empty
      vector check, is rethrown with the same prefix. */
  function GenerateEmbedding(embed: Provider, text: string): (r: Result<seq<int>, string>)
    ensures r.Success? <==> Usable(embed(text))
    ensures r.Success? ==> r.value == embed(text).values.value
    ensures r.Failure? ==> StartsWith(r.error, FailurePrefix)
    ensures r.Failure? && embed(text).Returned? ==> r.error == FailurePrefix + EmptyEmbeddingError
  {
    match embed(text)
    case Threw(message) => Failure(FailurePrefix + message)
    case Returned(values) =>
      if values.None? || values.value == [] then Failure(FailurePrefix + EmptyEmbeddingError)
      else Success(values.value)
  }

  function Zeros(n: nat): (r: seq<int>)
    ensures |r| == n && forall k :: 0 <= k < n ==> r[k] == 0
  {
    seq(n, k => 0)
  }

  /** What the batch keeps for one text: the vector the provider returned
      when it is present and non-empty, and 768 zeros when the call threw
      or the vector was missing or empty. */
  function EmbedOrZero(embed: Provider, text: string): (r: seq<int>)
    ensures Usable(embed(text)) ==> r == embed(text).values.value
    ensures !Usable(embed(text)) ==> r == Zeros(EmbeddingDimension)
    ensures r != []
  {
    match GenerateEmbedding(embed, text)
    case Success(v) => v
    case Failure(_) => Zeros(EmbeddingDimension)
  }

  /** Concatenation of consecutive batches. */
  function Flatten<T>(batches: seq<seq<T>>): seq<T>
    decreases |batches|
  {
    if batches == [] then [] else Flatten(batches[..|batches| - 1]) + batches[|batches| - 1]
  }

  lemma FlattenSnoc<T>(batches: seq<seq<T>>, all: seq<T>, i: nat, end: nat)
    requires i <= end <= |all| && Flatten(batches) == all[..i]
    ensures Flatten(batches + [all[i..end]]) == all[..end]
  {
    assert (batches + [all[i..end]])[..|batches|] == batches;
    assert all[..i] + all[i..end] == all[..end];
  }

  /** `Math.ceil(n / b)` for a non-negative count and a positive batch size. */
  function CeilDiv(n: nat, b: nat): nat
    requires b >= 1
  {
    (n + b - 1) / b
  }

  lemma CeilDivOf(n: nat, b: nat, k: nat)
    requires b >= 1
    requires k * b >= n
    requires k == 0 || (k - 1) * b < n
    ensures CeilDiv(n, b) == k
  {
    var r := n + b - 1 - k * b;
    assert 0 <= r < b by {
      if k > 0 {
        assert (k - 1) * b == k * b - b;
      }
    }
    assert n + b - 1 == k * b + r;
    DivUnique(n + b - 1, b, k, r);
  }

  lemma DivUnique(m: int, b: int, q: int, r: int)
    requires b >= 1 && 0 <= r < b && m == q * b + r
    ensures m / b == q
  {
    var d := q - m / b;
    assert d * b == m % b - r by {
      assert m == (m / b) * b + m % b;
      assert d * b == q * b - (m / b) * b;
    }
    if d >= 1 {
      MulAtLeast(d, b);
    } else if d <= -1 {
      MulAtLeast(-d, b);
    }
  }

  lemma MulAtLeast(d: int, b: int)
    requires d >= 1 && b >= 1
    ensures d * b >= b
  {
    assert d * b == (d - 1) * b + b;
  }

  /** `batch.map(...)` awaited with `Promise.all`: one result per text, in
      order. */
  function EmbedEach(embed: Provider, batch: seq<string>): (r: seq<seq<int>>)
    ensures |r| == |batch| && forall j {:trigger r[j]} :: 0 <= j < |batch| ==> r[j] == EmbedOrZero(embed, batch[j])
  {
    seq(|batch|, j requires 0 <= j < |batch| => EmbedOrZero(embed, batch[j]))
  }

  lemma EmbedEachConcat(embed: Provider, a: seq<string>, b: seq<string>)
    ensures EmbedEach(embed, a + b) == EmbedEach(embed, a) + EmbedEach(embed, b)
  {
  }

  /** `k` steps of `b` from zero: the loop counter after `k` batches. */
  function Offset(k: nat, b: nat): nat
  {
    if k == 0 then 0 else Offset(k - 1, b) + b
  }

  lemma {:induction false} OffsetIsProduct(k: nat, b: nat)
    ensures Offset(k, b) == k * b
  {
    if k > 0 {
      OffsetIsProduct(k - 1, b);
      assert k * b == (k - 1) * b + b;
    }
  }

  /** The loop stops after the first offset at or past `n`. */
  lemma BatchCount(n: nat, b: nat, k: nat)
    requires b >= 1 && n >= 1
    requires n <= Offset(k, b) < n + b
    ensures CeilDiv(n, b) == k
  {
    OffsetIsProduct(k, b);
    if k > 0 {
      assert (k - 1) * b == k * b - b;
    }
    CeilDivOf(n, b, k);
  }

  lemma OffsetDiv(k: nat, b: nat)
    requires b >= 1
    ensures Offset(k, b) / b == k
  {
    OffsetIsProduct(k, b);
    DivUnique(k * b, b, k, 0);
  }

  /** The progress line logged before each batch. */
  function ProgressLine(batch: int, total: int): string {
    "Processing batch " + IntToString(batch) + "/" + IntToString(total)
  }

  /** `generateEmbeddingsBatch`. Returns the embeddings together with the
      slices it sent and the progress lines it logged. */
  method GenerateEmbeddingsBatch(embed: Provider, texts: seq<string>, batchSize: int)
    returns (embeddings: seq<seq<int>>, batches: seq<seq<string>>, progress: seq<string>)
    requires batchSize >= 1 || texts == []
    ensures |embeddings| == |texts|
    ensures forall j :: 0 <= j < |texts| ==> embeddings[j] == EmbedOrZero(embed, texts[j])
    ensures Flatten(batches) == texts
    ensures forall k :: 0 <= k < |batches| ==> 1 <= |batches[k]| && |batches[k]| <= batchSize
    ensures texts == [] ==> batches == []
    ensures texts != [] ==> |batches| == CeilDiv(|texts|, batchSize)
    ensures |progress| == |batches|
    ensures forall k :: 0 <= k < |progress| ==> progress[k] == ProgressLine(k + 1, |batches|)
  {
    embeddings, batches, progress := [], [], [];
    if texts == [] {
      return;
    }
    var total := CeilDiv(|texts|, batchSize);
    var numbers: seq<int> := [];
    var i := 0;
    while i < |texts|
      invariant i == Offset(|batches|, batchSize)
      invariant i < |texts| + batchSize
      invariant |Flatten(batches)| == if i < |texts| then i else |texts|
      invariant Flatten(batches) == texts[..|Flatten(batches)|]
      invariant embeddings == EmbedEach(embed, Flatten(batches))
      invariant forall k :: 0 <= k < |batches| ==> 1 <= |batches[k]| && |batches[k]| <= batchSize
      invariant |numbers| == |batches|
      invariant forall k :: 0 <= k < |numbers| ==> numbers[k] == k + 1
      decreases |texts| - i
    {
      var end := if i + batchSize < |texts| then i + batchSize else |texts|;
      var batch := texts[i..end];
      OffsetDiv(|batches|, batchSize);
      numbers := numbers + [i / batchSize + 1];
      var batchEmbeddings := EmbedEach(embed, batch);
      EmbedEachConcat(embed, Flatten(batches), batch);
      embeddings := embeddings + batchEmbeddings;
      FlattenSnoc(batches, texts, i, end);
      batches := batches + [batch];
      i := i + batchSize;
    }
    BatchCount(|texts|, batchSize, |batches|);
    assert Flatten(batches) == texts;
    progress := seq(|numbers|, k requires 0 <= k < |numbers| => ProgressLine(numbers[k], total));
  }

  // ---------------------------------------------------------------------
  // Cosine similarity
  // ---------------------------------------------------------------------

  /** The value `cosineSimilarity` returns: exactly zero, or the dot product
      over the product of the two norms' square roots. */
  datatype Cosine = Zero | Ratio(dot: int, normA: int, normB: int)

  function Dot(a: seq<int>, b: seq<int>): int
    requires |a| == |b|
    decreases |a|
  {
    if a == [] then 0 else Dot(a[..|a| - 1], b[..|b| - 1]) + a[|a| - 1] * b[|b| - 1]
  }

  function SumSquares(a: seq<int>): int
    decreases |a|
  {
    if a == [] then 0 else SumSquares(a[..|a| - 1]) + a[|a| - 1] * a[|a| - 1]
  }

  /** Reference definition of `cosineSimilarity`. */
  function CosineOf(a: seq<int>, b: seq<int>): Result<Cosine, string> {
    if |a| != |b| then Failure("Vectors must have the same length")
    else if SumSquares(a) == 0 || SumSquares(b) == 0 then Success(Zero)
    else Success(Ratio(Dot(a, b), SumSquares(a), SumSquares(b)))
  }

  /** `cosineSimilarity`: one pass accumulating the dot product and both
      squared norms. */
  method CosineSimilarity(a: seq<int>, b: seq<int>) returns (r: Result<Cosine, string>)
    ensures r == CosineOf(a, b)
    ensures r.Failure? <==> |a| != |b|
  {
    if |a| != |b| {
      return Failure("Vectors must have the same length");
    }
    var dot, normA, normB := 0, 0, 0;
    var i := 0;
    while i < |a|
      invariant 0 <= i <= |a|
      invariant dot == Dot(a[..i], b[..i])
      invariant normA == SumSquares(a[..i]) && normB == SumSquares(b[..i])
    {
      assert a[..i + 1][..i] == a[..i] && b[..i + 1][..i] == b[..i];
      dot := dot + a[i] * b[i];
      normA := normA + a[i] * a[i];
      normB := normB + b[i] * b[i];
      i := i + 1;
    }
    assert a[..i] == a && b[..i] == b;
    if normA == 0 || normB == 0 {
      return Success(Zero);
    }
    return Success(Ratio(dot, normA, normB));
  }

  lemma {:induction false} DotSymmetric(a: seq<int>, b: seq<int>)
    requires |a| == |b|
    ensures Dot(a, b) == Dot(b, a)
    decreases |a|
  {
    if a != [] {
      DotSymmetric(a[..|a| - 1], b[..|b| - 1]);
    }
  }

  lemma {:induction false} DotSelf(a: seq<int>)
    ensures Dot(a, a) == SumSquares(a)
    decreases |a|
  {
    if a != [] {
      DotSelf(a[..|a| - 1]);
    }
  }

  /** A squared norm is zero exactly for the all-zero vector. */
  lemma {:induction false} SumSquaresZero(a: seq<int>)
    ensures SumSquares(a) >= 0
    ensures SumSquares(a) == 0 <==> forall k :: 0 <= k < |a| ==> a[k] == 0
    decreases |a|
  {
    if a != [] {
      var p := a[..|a| - 1];
      SumSquaresZero(p);
      assert forall k :: 0 <= k < |p| ==> p[k] == a[k];
    }
  }

  /** Swapping the arguments swaps the norms and keeps the dot product, so
      the returned number (a product of the two square roots is commutative)
      is the same. */
  lemma CosineSymmetric(a: seq<int>, b: seq<int>)
    ensures CosineOf(a, b).Failure? <==> CosineOf(b, a).Failure?
    ensures CosineOf(a, b) == Success(Zero) <==> CosineOf(b, a) == Success(Zero)
    ensures CosineOf(a, b).Success? && CosineOf(a, b).value.Ratio? ==>
      CosineOf(b, a) == Success(Ratio(CosineOf(a, b).value.dot, CosineOf(a, b).value.normB, CosineOf(a, b).value.normA))
  {
    if |a| == |b| {
      DotSymmetric(a, b);
    }
  }

  /** The zero case is taken exactly when one vector is all zeros. */
  lemma CosineZeroCase(a: seq<int>, b: seq<int>)
    requires |a| == |b|
    ensures CosineOf(a, b) == Success(Zero) <==>
      (forall k :: 0 <= k < |a| ==> a[k] == 0) || (forall k :: 0 <= k < |b| ==> b[k] == 0)
  {
    SumSquaresZero(a);
    SumSquaresZero(b);
  }

  /** A non-zero vector compared with itself gives dot product, and both
      norms, equal to its squared norm: the ratio one. */
  lemma CosineSelf(a: seq<int>)
    requires exists k :: 0 <= k < |a| && a[k] != 0
    ensures CosineOf(a, a) == Success(Ratio(SumSquares(a), SumSquares(a), SumSquares(a)))
  {
    SumSquaresZero(a);
    DotSelf(a);
  }
}
