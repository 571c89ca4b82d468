/**
 * The batch sampler `calculatePoints`: every curve of a set is evaluated at
 * `n` evenly spaced parameters `t = i / n`, `i < n`, and the samples are laid
 * out curve after curve in one flat buffer.
 */
module Sampler {
  import opened Geometry
  import opened Evaluator

  /** Every curve of the set can be handed to `Bezier`. */
  predicate AllEvaluable(cs: seq<Curve>)
  {
    forall k :: 0 <= k < |cs| ==> Evaluable(cs[k])
  }

  /** The parameter of sample `i` out of `n`, computed as `i * (1.0 / n)`. */
  function Param(i: nat, n: nat): real
    requires n > 0
  {
    i as real * (1.0 / n as real)
  }

  /** The parameter of sample `i` out of `n` is the fraction `i / n`. */
  lemma ParamIsFraction(i: nat, n: nat)
    requires n > 0
    ensures Param(i, n) * n as real == i as real
  {
    assert (1.0 / n as real) * n as real == 1.0;
  }

  /** The `n` samples of one curve. */
  function CurveSamples(c: Curve, n: nat): seq<Point>
    requires Evaluable(c)
  {
    seq(n, i requires 0 <= i < n => Bezier(c, Param(i, n)))
  }

  /** The whole buffer content: the sample blocks of all curves, in curve order. */
  function Samples(cs: seq<Curve>, n: nat): (r: seq<Point>)
    requires AllEvaluable(cs)
    ensures |r| == n * |cs|
  {
    if cs == [] then []
    else Samples(cs[..|cs| - 1], n) + CurveSamples(cs[|cs| - 1], n)
  }

  /** Sample `i` of curve `c` sits at index `i + c * n` and is that curve evaluated at `i / n`, a parameter below 1. */
  lemma {:induction false} SamplesAt(cs: seq<Curve>, n: nat, c: nat, i: nat)
    requires AllEvaluable(cs)
    requires c < |cs| && i < n
    ensures i + c * n < |Samples(cs, n)|
    ensures Samples(cs, n)[i + c * n] == Bezier(cs[c], Param(i, n))
    ensures 0.0 <= Param(i, n) < 1.0
  {
    var front := cs[..|cs| - 1];
    assert |Samples(front, n)| == n * (|cs| - 1) == n * |cs| - n;
    if c < |cs| - 1 {
      SamplesAt(front, n, c, i);
      assert c * n + n <= n * (|cs| - 1) by {
        MulMonotone(n, c + 1, |cs| - 1);
      }
    } else {
      assert c * n == n * |cs| - n;
    }
    ParamBelowOne(i, n);
  }

  lemma MulMonotone(n: nat, a: nat, b: nat)
    requires a <= b
    ensures a * n <= b * n
  {
  }

  /** The parameters `i / n` with `i < n` lie in [0, 1): the end point t = 1 is never sampled. */
  lemma ParamBelowOne(i: nat, n: nat)
    requires i < n
    ensures 0.0 <= Param(i, n) < 1.0
  {
    var d := 1.0 / n as real;
    assert d * n as real == 1.0;
    assert i as real * d < n as real * d;
  }

  /** Appending a curve appends its block. */
  lemma SamplesSnoc(cs: seq<Curve>, c: Curve, n: nat)
    requires AllEvaluable(cs) && Evaluable(c)
    ensures AllEvaluable(cs + [c])
    ensures Samples(cs + [c], n) == Samples(cs, n) + CurveSamples(c, n)
  {
    assert (cs + [c])[..|cs|] == cs;
  }

  /**
   * The content for a list of curves is the content for any prefix followed
   * by the content for the rest: each curve's block depends on that curve
   * alone.
   */
  lemma {:induction false} SamplesAppend(a: seq<Curve>, b: seq<Curve>, n: nat)
    requires AllEvaluable(a) && AllEvaluable(b)
    ensures AllEvaluable(a + b)
    ensures Samples(a + b, n) == Samples(a, n) + Samples(b, n)
    decreases |b|
  {
    assert forall k :: 0 <= k < |a + b| ==> (a + b)[k] == if k < |a| then a[k] else b[k - |a|];
    if b == [] {
      assert a + b == a;
    } else {
      var front := b[..|b| - 1];
      assert AllEvaluable(front);
      SamplesAppend(a, front, n);
      assert (a + b)[..|a + b| - 1] == a + front;
      assert (a + b)[|a + b| - 1] == b[|b| - 1];
    }
  }

  /**
   * `calculatePoints(cs, n, curvePoints)`: writes sample `i` of curve `c` at
   * index `i + c * n`. It needs a buffer of at least `n * |cs|` points and
   * leaves every later index alone.
   */
  method CalculatePoints(cs: seq<Curve>, n: nat, buf: array<Point>)
    requires AllEvaluable(cs)
    requires n * |cs| <= buf.Length
    modifies buf
    ensures buf[..n * |cs|] == Samples(cs, n)
    ensures buf[n * |cs|..] == old(buf[n * |cs|..])
  {
    var c := 0;
    var base := 0;
    while c < |cs|
      invariant 0 <= c <= |cs|
      invariant base == n * c <= n * |cs|
      invariant buf[..base] == Samples(cs[..c], n)
      invariant buf[n * |cs|..] == old(buf[n * |cs|..])
    {
      assert base + n <= n * |cs| by { MulMonotone(n, c + 1, |cs|); }
      var i := 0;
      while i < n
        invariant 0 <= i <= n
        invariant buf[..base + i] == Samples(cs[..c], n) + CurveSamples(cs[c], n)[..i]
        invariant buf[n * |cs|..] == old(buf[n * |cs|..])
      {
        var p := EvaluateBezier(cs[c], Param(i, n));
        buf[i + base] := p;
        i := i + 1;
      }
      assert cs[..c + 1] == cs[..c] + [cs[c]];
      SamplesSnoc(cs[..c], cs[c], n);
      c := c + 1;
      base := base + n;
    }
    assert cs[..|cs|] == cs;
  }
}
