/** `cosineSimilarity` and `normalizeVector` of
    internal/tools/vector_storage/vector_storage.go, over exact reals.

    The source returns dot / (sqrt(normA) * sqrt(normB)). The model returns
    dot * |dot| / (normA * normB), the cosine times its own absolute value: it is
    defined exactly when the cosine is, is 1 exactly when the cosine is 1, has
    the sign of the cosine and is strictly increasing in it, so every comparison
    the vector store makes between two similarities has the same outcome. */
module Similarity {
  import opened Wrappers

  /** The product of two entries. Kept behind a function so that a square is a
      term of its own for the solver; the sign laws it needs are lemmas. */
  function Mul(x: real, y: real): real {
    x * y
  }

  lemma MulPositive(x: real, y: real)
    requires (x > 0.0 && y > 0.0) || (x < 0.0 && y < 0.0)
    ensures Mul(x, y) > 0.0
  {
    if x < 0.0 {
      assert Mul(x, y) == (-x) * (-y);
    }
  }

  lemma MulSelf(x: real)
    ensures Mul(x, x) >= 0.0
    ensures x != 0.0 ==> Mul(x, x) > 0.0
  {
    if x != 0.0 {
      MulPositive(x, x);
    }
  }

  lemma MulCommutes(x: real, y: real)
    ensures Mul(x, y) == Mul(y, x)
  {
  }

  function Dot(a: seq<real>, b: seq<real>): real
    requires |a| == |b|
  {
    if a == [] then 0.0 else Dot(a[..|a| - 1], b[..|b| - 1]) + Mul(a[|a| - 1], b[|b| - 1])
  }

  /** The squared norm, the sum of the squared entries. */
  function NormSq(a: seq<real>): (r: real)
    ensures r >= 0.0
  {
    if a == [] then 0.0
    else
      MulSelf(a[|a| - 1]);
      NormSq(a[..|a| - 1]) + Mul(a[|a| - 1], a[|a| - 1])
  }

  predicate IsZero(a: seq<real>) {
    forall i :: 0 <= i < |a| ==> a[i] == 0.0
  }

  function Abs(x: real): real {
    if x < 0.0 then -x else x
  }

  lemma MulNonZero(x: real, y: real)
    requires x != 0.0 && y != 0.0
    ensures Mul(x, y) != 0.0
  {
    if (x > 0.0) == (y > 0.0) {
      MulPositive(x, y);
    } else {
      MulPositive(x, -y);
      assert Mul(x, y) == -Mul(x, -y);
    }
  }

  /** The score from the three sums: `None` where the source reports a zero
      vector. */
  function Score(dot: real, na: real, nb: real): Option<real> {
    if na == 0.0 || nb == 0.0 then None
    else
      MulNonZero(na, nb);
      Some(Mul(dot, Abs(dot)) / Mul(na, nb))
  }

  /** The similarity score: `None` where the source reports an error (lengths
      differ, or a squared norm is zero). The sums run left to right, as in
      the source's loop. */
  function Cosine(a: seq<real>, b: seq<real>): Option<real> {
    if |a| != |b| then None else CosineFrom(a, b, 0, 0.0, 0.0, 0.0)
  }

  /** The score once the sums over `a[..i]` and `b[..i]` are `dot`, `na` and
      `nb`. */
  function CosineFrom(a: seq<real>, b: seq<real>, i: nat, dot: real, na: real, nb: real): Option<real>
    requires |a| == |b| && i <= |a|
    decreases |a| - i
  {
    if i < |a| then CosineFrom(a, b, i + 1, dot + Mul(a[i], b[i]), na + Mul(a[i], a[i]), nb + Mul(b[i], b[i]))
    else Score(dot, na, nb)
  }

  lemma {:induction false} CosineFromSums(a: seq<real>, b: seq<real>, i: nat)
    requires |a| == |b| && i <= |a|
    ensures CosineFrom(a, b, i, Dot(a[..i], b[..i]), NormSq(a[..i]), NormSq(b[..i]))
         == Score(Dot(a, b), NormSq(a), NormSq(b))
    decreases |a| - i
  {
    if i == |a| {
      assert a[..i] == a && b[..i] == b;
    } else {
      DotStep(a, b, i);
      NormSqStep(a, i);
      NormSqStep(b, i);
      CosineFromSums(a, b, i + 1);
    }
  }

  /** The score in closed form, from the sums over the whole vectors. */
  lemma CosineSums(a: seq<real>, b: seq<real>)
    requires |a| == |b|
    ensures Cosine(a, b) == Score(Dot(a, b), NormSq(a), NormSq(b))
  {
    CosineFromSums(a, b, 0);
  }

  // ---------------------------------------------------------------------------
  // Properties of the score

  /** The squared norm vanishes exactly on the zero vector. */
  lemma {:induction false} NormSqZero(a: seq<real>)
    ensures NormSq(a) == 0.0 <==> IsZero(a)
  {
    if a != [] {
      var n := |a| - 1;
      NormSqZero(a[..n]);
      MulSelf(a[n]);
      if IsZero(a) {
        assert IsZero(a[..n]);
      } else if a[n] == 0.0 {
        var i :| 0 <= i < |a| && a[i] != 0.0;
        assert a[..n][i] != 0.0;
      }
    }
  }

  /** The score is defined exactly for two non-zero vectors of one length. */
  lemma CosineDefined(a: seq<real>, b: seq<real>)
    ensures Cosine(a, b).Some? <==> |a| == |b| && !IsZero(a) && !IsZero(b)
  {
    NormSqZero(a);
    NormSqZero(b);
    if |a| == |b| {
      CosineSums(a, b);
    }
  }

  lemma {:induction false} DotSymmetric(a: seq<real>, b: seq<real>)
    requires |a| == |b|
    ensures Dot(a, b) == Dot(b, a)
  {
    if a != [] {
      DotSymmetric(a[..|a| - 1], b[..|b| - 1]);
      MulCommutes(a[|a| - 1], b[|b| - 1]);
    }
  }

  /** The score does not depend on the order of its arguments. */
  lemma CosineSymmetric(a: seq<real>, b: seq<real>)
    ensures Cosine(a, b) == Cosine(b, a)
  {
    if |a| == |b| {
      CosineSums(a, b);
      CosineSums(b, a);
      DotSymmetric(a, b);
      MulCommutes(NormSq(a), NormSq(b));
    }
  }

  lemma {:induction false} DotSelf(a: seq<real>)
    ensures Dot(a, a) == NormSq(a)
  {
    if a != [] {
      DotSelf(a[..|a| - 1]);
    }
  }

  /** A non-zero vector scores 1 against itself, the most any pair can. */
  lemma CosineSelf(a: seq<real>)
    requires !IsZero(a)
    ensures Cosine(a, a) == Some(1.0)
  {
    NormSqZero(a);
    DotSelf(a);
    CosineSums(a, a);
    var n := NormSq(a);
    MulPositive(n, n);
    assert Abs(n) == n;
    assert Mul(Dot(a, a), Abs(Dot(a, a))) == Mul(n, n);
    assert Cosine(a, a).value == Mul(n, n) / Mul(n, n);
    DivSelf(Mul(n, n));
  }

  lemma DivSelf(x: real)
    requires x != 0.0
    ensures x / x == 1.0
  {
  }

  // ---------------------------------------------------------------------------
  // Dividing a vector by a positive number

  /** Every entry divided by `c`, as `normalizeVector` does with the norm. */
  function Div(v: seq<real>, c: real): (r: seq<real>)
    requires c != 0.0
    ensures |r| == |v|
  {
    seq(|v|, i requires 0 <= i < |v| => v[i] / c)
  }

  lemma DivPrefix(v: seq<real>, c: real, n: nat)
    requires c != 0.0 && n <= |v|
    ensures Div(v, c)[..n] == Div(v[..n], c)
  {
  }

  lemma DivSum(p: real, q: real, c: real)
    requires c != 0.0
    ensures p / c + q / c == (p + q) / c
  {
  }

  lemma MulDivLeft(x: real, y: real, c: real)
    requires c != 0.0
    ensures Mul(x / c, y) == Mul(x, y) / c
  {
  }

  lemma MulDivBoth(x: real, y: real, c: real)
    requires c != 0.0
    ensures Mul(x / c, y / c) == Mul(x, y) / c / c
  {
    MulDivLeft(x, y / c, c);
    MulCommutes(x, y / c);
    MulDivLeft(y, x, c);
    MulCommutes(x, y);
  }

  lemma DivSign(d: real, c: real)
    requires c > 0.0
    ensures d < 0.0 ==> d / c < 0.0
    ensures d >= 0.0 ==> d / c >= 0.0
  {
    var e := d / c;
    assert Mul(e, c) == d;
    if e < 0.0 {
      MulPositive(-e, c);
      assert Mul(-e, c) == -d;
    } else if e > 0.0 {
      MulPositive(e, c);
    }
  }

  lemma {:induction false} DotDiv(a: seq<real>, b: seq<real>, c: real)
    requires |a| == |b| && c != 0.0
    ensures Dot(Div(a, c), b) == Dot(a, b) / c
  {
    if a != [] {
      var n := |a| - 1;
      DivPrefix(a, c, n);
      DotDiv(a[..n], b[..n], c);
      MulDivLeft(a[n], b[n], c);
      DivSum(Dot(a[..n], b[..n]), Mul(a[n], b[n]), c);
    }
  }

  lemma {:induction false} NormSqDiv(a: seq<real>, c: real)
    requires c != 0.0
    ensures NormSq(Div(a, c)) == NormSq(a) / c / c
  {
    if a != [] {
      var n := |a| - 1;
      DivPrefix(a, c, n);
      NormSqDiv(a[..n], c);
      MulDivBoth(a[n], a[n], c);
      DivSum(NormSq(a[..n]) / c, Mul(a[n], a[n]) / c, c);
      DivSum(NormSq(a[..n]), Mul(a[n], a[n]), c);
    }
  }

  lemma ScoreDiv(d: real, na: real, nb: real, c: real)
    requires c > 0.0 && na > 0.0 && nb > 0.0
    ensures Mul(na / c / c, nb) > 0.0
    ensures Mul(d / c, Abs(d / c)) / Mul(na / c / c, nb)
         == Mul(d, Abs(d)) / Mul(na, nb)
  {
    DivSign(d, c);
    DivSum(d, -d, c);
    assert Abs(d / c) == Abs(d) / c;
    MulDivBoth(d, Abs(d), c);
    MulDivLeft(na / c, nb, c);
    MulDivLeft(na, nb, c);
    MulPositive(na, nb);
    var x, y := Mul(d, Abs(d)), Mul(na, nb);
    assert y / c / c > 0.0;
    assert (x / c / c) / (y / c / c) == x / y;
  }

  /** Dividing a vector by a positive number changes none of its scores. */
  lemma CosineDiv(a: seq<real>, b: seq<real>, c: real)
    requires c > 0.0
    ensures Cosine(Div(a, c), b) == Cosine(a, b)
  {
    if |a| == |b| {
      CosineSums(a, b);
      CosineSums(Div(a, c), b);
      DotDiv(a, b, c);
      NormSqDiv(a, c);
      MulPositive(c, c);
      if NormSq(a) != 0.0 && NormSq(b) != 0.0 {
        ScoreDiv(Dot(a, b), NormSq(a), NormSq(b), c);
      }
    }
  }

  // ---------------------------------------------------------------------------
  // The loops of the source

  lemma DotStep(a: seq<real>, b: seq<real>, i: nat)
    requires |a| == |b| && i < |a|
    ensures Dot(a[..i + 1], b[..i + 1]) == Dot(a[..i], b[..i]) + Mul(a[i], b[i])
  {
    assert a[..i + 1][..i] == a[..i] && b[..i + 1][..i] == b[..i];
  }

  lemma NormSqStep(a: seq<real>, i: nat)
    requires i < |a|
    ensures NormSq(a[..i + 1]) == NormSq(a[..i]) + Mul(a[i], a[i])
  {
    assert a[..i + 1][..i] == a[..i];
  }

  /** `cosineSimilarity`: the three sums accumulated in one pass, then the
      error cases. */
  method CosineSimilarity(a: seq<real>, b: seq<real>) returns (r: Option<real>)
    ensures r == Cosine(a, b)
  {
    if |a| != |b| {
      return None;
    }
    var dotProduct, normA, normB := 0.0, 0.0, 0.0;
    for i := 0 to |a|
      invariant CosineFrom(a, b, i, dotProduct, normA, normB) == Cosine(a, b)
    {
      dotProduct := dotProduct + a[i] * b[i];
      normA := normA + a[i] * a[i];
      normB := normB + b[i] * b[i];
    }
    if normA == 0.0 || normB == 0.0 {
      return None;
    }
    MulNonZero(normA, normB);
    r := Some(Mul(dotProduct, Abs(dotProduct)) / Mul(normA, normB));
  }

  /** A stand-in for `math.Sqrt`: four Newton steps from 1. Only its sign
      matters to the model, since a positive divisor changes no score. */
  function Root(x: real): (r: real)
    requires x > 0.0
    ensures r > 0.0
  {
    Newton(x, 1.0, 4)
  }

  /** `steps` Newton steps towards the square root of `x` from the guess `g`;
      every guess stays positive. */
  function Newton(x: real, g: real, steps: nat): (r: real)
    requires x > 0.0 && g > 0.0
    ensures r > 0.0
    decreases steps
  {
    if steps == 0 then g else Newton(x, (g + x / g) / 2.0, steps - 1)
  }

  /** What `normalizeVector` returns: the input itself when its norm is zero,
      otherwise the input divided by its norm. */
  function Normalized(v: seq<real>): (r: seq<real>)
    ensures |r| == |v|
  {
    if NormSq(v) == 0.0 then v else Div(v, Root(NormSq(v)))
  }

  /** Normalizing keeps the length, leaves the zero vector alone, keeps a
      non-zero vector non-zero, and changes no score: a normalized embedding
      ranks exactly as the original. */
  lemma NormalizedRanksAlike(v: seq<real>, b: seq<real>)
    ensures |Normalized(v)| == |v|
    ensures IsZero(v) ==> Normalized(v) == v
    ensures !IsZero(v) ==> !IsZero(Normalized(v))
    ensures Cosine(Normalized(v), b) == Cosine(v, b)
  {
    NormSqZero(v);
    if NormSq(v) != 0.0 {
      var c := Root(NormSq(v));
      CosineDiv(v, b, c);
      var i :| 0 <= i < |v| && v[i] != 0.0;
      assert Normalized(v)[i] == v[i] / c;
    }
  }

  /** `normalizeVector`: the squared norm accumulated, its root taken, and each
      entry divided by it into a fresh vector. */
  method NormalizeVector(vector: seq<real>) returns (r: seq<real>)
    ensures r == Normalized(vector)
  {
    var normSq := 0.0;
    for i := 0 to |vector|
      invariant normSq == NormSq(vector[..i])
    {
      NormSqStep(vector, i);
      normSq := normSq + vector[i] * vector[i];
    }
    assert vector[..|vector|] == vector;
    if normSq == 0.0 {
      return vector;
    }
    var norm := Root(normSq);
    var normalized := new real[|vector|];
    for i := 0 to |vector|
      invariant forall j :: 0 <= j < i ==> normalized[j] == vector[j] / norm
    {
      normalized[i] := vector[i] / norm;
    }
    r := normalized[..];
  }
}
