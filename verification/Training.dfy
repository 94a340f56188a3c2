/** One-pass training of the quantizer: running means and sums of squared
    deviations, exact over the reals. */
module Training {
  import opened Pointers

  function Sum(xs: seq<real>): real {
    if xs == [] then 0.0 else Sum(xs[..|xs| - 1]) + xs[|xs| - 1]
  }

  function Square(x: real): real {
    x * x
  }

  /** The sum of the squared deviations from `mu`. */
  function SquaredDeviations(xs: seq<real>, mu: real): real {
    if xs == [] then 0.0
    else SquaredDeviations(xs[..|xs| - 1], mu) + Square(xs[|xs| - 1] - mu)
  }

  /** The arithmetic mean, stated without division. */
  ghost predicate IsMean(xs: seq<real>, mu: real) {
    mu * |xs| as real == Sum(xs)
  }

  /** What moving the centre from `mu` to `nu` adds for `n` samples of sum `s`. */
  function Shift(mu: real, nu: real, n: real, s: real): real {
    (nu - mu) * (n * (nu + mu) - 2.0 * s)
  }

  lemma ShiftGrows(mu: real, nu: real, n: real, s: real, x: real)
    ensures Shift(mu, nu, n + 1.0, s + x) == Shift(mu, nu, n, s) + Shift(mu, nu, 1.0, x)
    ensures Shift(mu, nu, 0.0, 0.0) == 0.0
  {
    var a, b, c := nu - mu, n * (nu + mu) - 2.0 * s, nu + mu - 2.0 * x;
    assert (n + 1.0) * (nu + mu) - 2.0 * (s + x) == b + c;
    assert a * (b + c) == a * b + a * c;
  }

  lemma SquareShift(x: real, mu: real, nu: real)
    ensures Square(x - nu) == Square(x - mu) + Shift(mu, nu, 1.0, x)
  {
  }

  lemma {:induction false} ShiftCentre(xs: seq<real>, mu: real, nu: real)
    ensures SquaredDeviations(xs, nu) == SquaredDeviations(xs, mu) + Shift(mu, nu, |xs| as real, Sum(xs))
  {
    hide Square, Shift;
    if xs == [] {
      ShiftGrows(mu, nu, 0.0, 0.0, 0.0);
    } else {
      var init, last := xs[..|xs| - 1], xs[|xs| - 1];
      ShiftCentre(init, mu, nu);
      SquareShift(last, mu, nu);
      ShiftGrows(mu, nu, |init| as real, Sum(init), last);
    }
  }

  /** The update of the mean gives the mean of one sample more. */
  lemma MeanStep(xs: seq<real>, x: real, mu: real, nu: real)
    requires IsMean(xs, mu) && nu == mu + (x - mu) / (|xs| + 1) as real
    ensures IsMean(xs + [x], nu)
  {
    var n := (|xs| + 1) as real;
    assert (xs + [x])[..|xs|] == xs;
    assert (x - mu) / n * n == x - mu;
    assert nu * n == mu * n + (x - mu);
  }

  /** The product of the deviations before and after the update of the mean is
      what the sum of squared deviations from the mean grows by. */
  lemma DeviationStep(xs: seq<real>, x: real, mu: real, nu: real)
    requires IsMean(xs, mu) && IsMean(xs + [x], nu)
    ensures SquaredDeviations(xs + [x], nu) == SquaredDeviations(xs, mu) + (x - mu) * (x - nu)
  {
    hide Square, Shift;
    var n, s := |xs| as real, Sum(xs);
    assert (xs + [x])[..|xs|] == xs;
    ShiftCentre(xs, mu, nu);
    WelfordIdentity(n, s, x, mu, nu);
  }

  lemma WelfordIdentity(n: real, s: real, x: real, mu: real, nu: real)
    requires mu * n == s && nu * (n + 1.0) == s + x
    ensures Shift(mu, nu, n, s) + Square(x - nu) == (x - mu) * (x - nu)
  {
    var d := nu - mu;
    assert n * d == x - nu by {
      assert nu * (n + 1.0) == n * nu + nu;
      assert n * d == n * nu - n * mu;
    }
    assert n * (nu + mu) - 2.0 * s == n * d by {
      assert n * (nu + mu) == n * nu + n * mu;
    }
    assert d * (x - nu) + (x - nu) * (x - nu) == (d + (x - nu)) * (x - nu);
  }

  /** The samples of one dimension. */
  function Column(samples: seq<seq<real>>, d: nat): (r: seq<real>)
    requires forall i :: 0 <= i < |samples| ==> d < |samples[i]|
    ensures |r| == |samples|
  {
    seq(|samples|, i requires 0 <= i < |samples| => samples[i][d])
  }

  lemma ColumnAppend(samples: seq<seq<real>>, sample: seq<real>, d: nat)
    requires d < |sample| && forall i :: 0 <= i < |samples| ==> d < |samples[i]|
    ensures Column(samples + [sample], d) == Column(samples, d) + [sample[d]]
  {
  }

  /** The statistics of one dimension are exact; `m2` is kept with several bits
      per dimension only. */
  ghost predicate Exact(xs: seq<real>, mean: real, m2: Option<real>) {
    IsMean(xs, mean) && (m2.Some? ==> m2.value == SquaredDeviations(xs, mean))
  }

  /** The running mean after the `n`-th sample. */
  function NextMean(mean: real, x: real, n: nat): real
    requires n > 0
  {
    mean + (x - mean) / n as real
  }

  /** m2 after a sample: the deviations are from the old and the new mean. */
  function NextM2(m2: real, mean: real, next: real, x: real): real {
    m2 + (x - mean) * (x - next)
  }

  lemma ExactStep(xs: seq<real>, x: real, mean: real, m2: Option<real>)
    requires Exact(xs, mean, m2)
    ensures var next := NextMean(mean, x, |xs| + 1);
      Exact(xs + [x], next, if m2.Some? then Some(NextM2(m2.value, mean, next, x)) else None)
  {
    hide SquaredDeviations, IsMean;
    var next := mean + (x - mean) / (|xs| + 1) as real;
    MeanStep(xs, x, mean, next);
    DeviationStep(xs, x, mean, next);
  }

  lemma ExactNothing()
    ensures Exact([], 0.0, Some(0.0)) && Exact([], 0.0, None)
  {
  }

  class Trainer {
    const numBits: nat
    const dimensions: nat
    var count: nat
    var mean: seq<real>
    var m2: seq<real>
    ghost var samples: seq<seq<real>>

    ghost predicate Shape()
      reads this
    {
      && |mean| == dimensions
      && (numBits > 1 ==> |m2| == dimensions)
      && count == |samples|
      && forall i :: 0 <= i < |samples| ==> |samples[i]| == dimensions
    }

    /** In dimension `d`, `mean` is the arithmetic mean of the samples and, with
        several bits, `m2` their sum of squared deviations from it. */
    ghost predicate Trained(d: nat)
      requires Shape() && d < dimensions
      reads this
    {
      Exact(Column(samples, d), mean[d], if numBits > 1 then Some(m2[d]) else None)
    }

    ghost predicate Valid()
      reads this
    {
      Shape() && forall d :: 0 <= d < dimensions ==> Trained(d)
    }

    /** start_training. */
    constructor (numBits: nat, dimensions: nat)
      ensures Valid() && this.numBits == numBits && this.dimensions == dimensions && samples == []
    {
      this.numBits, this.dimensions := numBits, dimensions;
      count, samples := 0, [];
      mean := seq(dimensions, _ => 0.0);
      m2 := if numBits > 1 then seq(dimensions, _ => 0.0) else [];
      ExactNothing();
    }

    method AddSample(sample: seq<real>)
      requires Valid() && |sample| == dimensions
      modifies this
      ensures Valid() && samples == old(samples) + [sample]
    {
      ghost var before := samples;
      ghost var columns := seq(dimensions, d requires 0 <= d < dimensions && Shape() reads this => Column(samples, d));
      forall d | 0 <= d < dimensions
        ensures columns[d] == Column(before, d)
        ensures Exact(columns[d], mean[d], if numBits > 1 then Some(m2[d]) else None)
      {
        assert Trained(d);
      }
      mean, m2 := UpdateStatistics(mean, m2, sample, count + 1, numBits > 1, columns);
      count := count + 1;
      samples := samples + [sample];
      assert Shape();
      forall d | 0 <= d < dimensions ensures Trained(d) {
        ColumnAppend(before, sample, d);
      }
    }
  }

  /** The element-wise updates of add_sample for the `n`-th sample. */
  method UpdateStatistics(mean: seq<real>, m2: seq<real>, sample: seq<real>, n: nat, several: bool,
                          ghost columns: seq<seq<real>>)
    returns (newMean: seq<real>, newM2: seq<real>)
    requires n > 0 && |mean| == |sample| == |columns| && (several ==> |m2| == |sample|)
    requires forall d :: 0 <= d < |sample| ==>
      |columns[d]| + 1 == n && Exact(columns[d], mean[d], if several then Some(m2[d]) else None)
    ensures |newMean| == |sample| && (several ==> |newM2| == |sample|)
    ensures forall d :: 0 <= d < |sample| ==>
      Exact(columns[d] + [sample[d]], newMean[d], if several then Some(newM2[d]) else None)
  {
    hide Exact, NextMean, NextM2;
    newMean, newM2 := mean, m2;
    for d := 0 to |sample|
      invariant |newMean| == |sample| && (several ==> |newM2| == |sample|)
      invariant forall k :: d <= k < |sample| ==> newMean[k] == mean[k] && (several ==> newM2[k] == m2[k])
      invariant forall k :: 0 <= k < d ==>
        Exact(columns[k] + [sample[k]], newMean[k], if several then Some(newM2[k]) else None)
    {
      ExactStep(columns[d], sample[d], mean[d], if several then Some(m2[d]) else None);
      var previous := newMean[d];
      newMean := newMean[d := NextMean(previous, sample[d], n)];
      if several {
        newM2 := newM2[d := NextM2(newM2[d], previous, newMean[d], sample[d])];
      }
    }
  }

  /** After any sequence of samples the statistics are exact. */
  method Train(numBits: nat, dimensions: nat, samples: seq<seq<real>>) returns (mean: seq<real>, m2: seq<real>)
    requires forall i :: 0 <= i < |samples| ==> |samples[i]| == dimensions
    ensures |mean| == dimensions && (numBits > 1 ==> |m2| == dimensions)
    ensures forall d :: 0 <= d < dimensions && samples != [] ==> mean[d] == Sum(Column(samples, d)) / |samples| as real
    ensures forall d :: 0 <= d < dimensions && numBits > 1 ==>
      m2[d] == SquaredDeviations(Column(samples, d), mean[d])
  {
    hide Sum, SquaredDeviations, Column;
    var t := new Trainer(numBits, dimensions);
    for i := 0 to |samples|
      invariant fresh(t) && t.Valid() && t.numBits == numBits && t.dimensions == dimensions
      invariant t.samples == samples[..i]
    {
      t.AddSample(samples[i]);
      assert samples[..i + 1] == samples[..i] + [samples[i]];
    }
    assert samples[..|samples|] == samples;
    mean, m2 := t.mean, t.m2;
    forall d | 0 <= d < dimensions
      ensures samples != [] ==> mean[d] == Sum(Column(samples, d)) / |samples| as real
      ensures numBits > 1 ==> m2[d] == SquaredDeviations(Column(samples, d), mean[d])
    {
      assert t.Trained(d);
      if samples != [] {
        DivideBack(mean[d], |samples| as real, Sum(Column(samples, d)));
      }
    }
  }

  lemma DivideBack(q: real, n: real, s: real)
    requires n > 0.0 && q * n == s
    ensures q == s / n
  {
  }
}
