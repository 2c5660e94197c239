/** `create_voter`: the coefficient vector is divided by its Euclidean norm, and the zero vector
    is rejected. Coefficients arrive squared (see module Preference), so the model works with
    squared amplitudes: for squared coefficients `w`, entry `j` of the state has squared
    amplitude `w[j] / sum(w)`, because `(sqrt(w[j]) / sqrt(sum(w)))^2 = w[j] / sum(w)`. Every
    coefficient is non-negative, so each amplitude is the non-negative root of its square. */
module Amplitude {
  import opened Wrappers

  /** The only error `create_voter` raises: the `ValueError` for a zero-norm vector. */
  datatype EncodeError = ZeroVector

  /** Sum of squared coefficients, i.e. the squared norm of the coefficient vector. */
  function SquaredNorm(w: seq<nat>): nat
    decreases |w|
  {
    if |w| == 0 then 0 else w[0] + SquaredNorm(w[1..])
  }

  /** The squared norm bounds every entry and is zero exactly for the zero vector. */
  lemma {:induction false} SquaredNormBounds(w: seq<nat>)
    ensures SquaredNorm(w) == 0 <==> forall j :: 0 <= j < |w| ==> w[j] == 0
    ensures forall j :: 0 <= j < |w| ==> w[j] <= SquaredNorm(w)
    decreases |w|
  {
    if |w| > 0 {
      SquaredNormBounds(w[1..]);
      assert forall j :: 1 <= j < |w| ==> w[j] == w[1..][j - 1];
    }
  }

  /** The squared norm adds up over concatenation: every entry contributes once. */
  lemma {:induction false} SquaredNormAppend(a: seq<nat>, b: seq<nat>)
    ensures SquaredNorm(a + b) == SquaredNorm(a) + SquaredNorm(b)
    decreases |a|
  {
    if |a| == 0 {
      assert a + b == b;
    } else {
      assert (a + b)[1..] == a[1..] + b;
      SquaredNormAppend(a[1..], b);
    }
  }

  /** Sum of a sequence of reals. */
  function Sum(p: seq<real>): real
    decreases |p|
  {
    if |p| == 0 then 0.0 else p[0] + Sum(p[1..])
  }

  /** Each squared coefficient divided by the squared norm `s`. */
  function Scaled(w: seq<nat>, s: real): (p: seq<real>)
    requires s > 0.0
    ensures |p| == |w|
    ensures forall j :: 0 <= j < |w| ==> p[j] == w[j] as real / s
  {
    seq(|w|, j requires 0 <= j < |w| => w[j] as real / s)
  }

  /** Dividing every entry by `s` divides their sum by `s`. */
  lemma {:induction false} SumScaled(w: seq<nat>, s: real)
    requires s > 0.0
    ensures Sum(Scaled(w, s)) == SquaredNorm(w) as real / s
    decreases |w|
  {
    if |w| > 0 {
      SumScaled(w[1..], s);
      assert Scaled(w, s)[1..] == Scaled(w[1..], s);
      DivisionAdds(w[0] as real, SquaredNorm(w[1..]) as real, s);
    }
  }

  /** `create_voter` on squared coefficients: the zero vector fails with `ZeroVector`, any other
      vector is divided entrywise by its squared norm. */
  function CreateVoter(w: seq<nat>): (r: Result<seq<real>, EncodeError>)
    ensures r.Failure? ==> r.error == ZeroVector
    ensures r.Success? ==> |r.value| == |w|
  {
    var s := SquaredNorm(w);
    if s == 0 then Failure(ZeroVector) else Success(Scaled(w, s as real))
  }

  /** What `create_voter` promises. It rejects exactly the zero vector; any other vector yields
      a state of the same length whose squared amplitudes sum to 1, entry `j` being
      `w[j] / sum(w)`, each in [0, 1], zero exactly where the coefficient is zero, and ordered
      as the coefficients are. */
  lemma CreateVoterMeaning(w: seq<nat>)
    ensures CreateVoter(w).Failure? <==> forall j :: 0 <= j < |w| ==> w[j] == 0
    ensures CreateVoter(w).Success? ==> SquaredNorm(w) > 0 && Sum(CreateVoter(w).value) == 1.0
    ensures CreateVoter(w).Success? ==> forall j :: 0 <= j < |w| ==>
      CreateVoter(w).value[j] == w[j] as real / SquaredNorm(w) as real
    ensures CreateVoter(w).Success? ==> forall j :: 0 <= j < |w| ==>
      0.0 <= CreateVoter(w).value[j] <= 1.0 && (CreateVoter(w).value[j] == 0.0 <==> w[j] == 0)
    ensures CreateVoter(w).Success? ==> forall i, j :: 0 <= i < |w| && 0 <= j < |w| ==>
      (w[i] < w[j] <==> CreateVoter(w).value[i] < CreateVoter(w).value[j])
  {
    var s := SquaredNorm(w);
    SquaredNormBounds(w);
    if s > 0 {
      var p := Scaled(w, s as real);
      assert CreateVoter(w) == Success(p);
      SumScaled(w, s as real);
      SelfDivision(s as real);
      forall j | 0 <= j < |w| ensures 0.0 <= p[j] <= 1.0 && (p[j] == 0.0 <==> w[j] == 0) {
        DivisionBounds(w[j] as real, s as real);
      }
      forall i, j | 0 <= i < |w| && 0 <= j < |w| ensures w[i] < w[j] <==> p[i] < p[j] {
        DivisionMonotone(w[i] as real, w[j] as real, s as real);
      }
    }
  }

  /** Division by a positive divisor distributes over addition. */
  lemma DivisionAdds(x: real, y: real, s: real)
    requires s > 0.0
    ensures x / s + y / s == (x + y) / s
  {
    var a, b := x / s, y / s;
    assert a * s == x && b * s == y;
    assert (a + b) * s == x + y;
  }

  /** A part divided by a positive whole it does not exceed lies in [0, 1] and is 0 only for 0. */
  lemma DivisionBounds(x: real, s: real)
    requires s > 0.0 && 0.0 <= x <= s
    ensures 0.0 <= x / s <= 1.0
    ensures x / s == 0.0 <==> x == 0.0
  {
  }

  /** A positive number divided by itself is 1. */
  lemma SelfDivision(s: real)
    requires s > 0.0
    ensures s / s == 1.0
  {
  }

  /** Division by a positive divisor keeps the order of its dividends. */
  lemma DivisionMonotone(x: real, y: real, s: real)
    requires s > 0.0
    ensures x < y <==> x / s < y / s
  {
  }

  /** The normalised state is the only one with these properties: a state proportional to the
      squared coefficients (`q[j] == factor * w[j]` for one factor) whose entries sum to 1 is
      the one `CreateVoter` returns. */
  lemma NormalisedStateUnique(w: seq<nat>, q: seq<real>, factor: real)
    requires SquaredNorm(w) > 0
    requires |q| == |w| && Sum(q) == 1.0
    requires forall j :: 0 <= j < |w| ==> q[j] == factor * w[j] as real
    ensures CreateVoter(w) == Success(q)
  {
    ProportionalIsScaled(w, q, factor);
  }

  /** A state proportional to the squared coefficients that sums to 1 is the scaled vector. */
  lemma ProportionalIsScaled(w: seq<nat>, q: seq<real>, factor: real)
    requires SquaredNorm(w) > 0
    requires |q| == |w| && Sum(q) == 1.0
    requires forall j :: 0 <= j < |w| ==> q[j] == factor * w[j] as real
    ensures q == Scaled(w, SquaredNorm(w) as real)
  {
    SumProportional(w, q, factor);
    PointwiseScaled(w, q, factor, SquaredNorm(w) as real);
  }

  /** Multiplying every entry by the reciprocal of `s` is dividing it by `s`. */
  lemma PointwiseScaled(w: seq<nat>, q: seq<real>, factor: real, s: real)
    requires s > 0.0 && factor * s == 1.0
    requires |q| == |w|
    requires forall j :: 0 <= j < |w| ==> q[j] == factor * w[j] as real
    ensures q == Scaled(w, s)
  {
    var p := Scaled(w, s);
    forall j | 0 <= j < |w| ensures q[j] == p[j] {
      ReciprocalFactor(factor, s, w[j] as real);
    }
  }

  /** A factor whose product with `s` is 1 multiplies like division by `s`. */
  lemma ReciprocalFactor(factor: real, s: real, x: real)
    requires s > 0.0 && factor * s == 1.0
    ensures factor * x == x / s
  {
    assert factor == 1.0 / s;
  }

  /** A sequence proportional to `w` sums to the same multiple of the squared norm. */
  lemma {:induction false} SumProportional(w: seq<nat>, q: seq<real>, factor: real)
    requires |q| == |w|
    requires forall j :: 0 <= j < |w| ==> q[j] == factor * w[j] as real
    ensures Sum(q) == factor * SquaredNorm(w) as real
    decreases |w|
  {
    if |w| > 0 {
      SumProportional(w[1..], q[1..], factor);
      Distributes(factor, w[0] as real, SquaredNorm(w[1..]) as real);
    }
  }

  /** Multiplication distributes over addition. */
  lemma Distributes(f: real, x: real, y: real)
    ensures f * x + f * y == f * (x + y)
  {
  }
}
