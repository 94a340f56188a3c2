/** The SBQ quantizer: levels over the reals, thermometer codes packed into words,
    and the distance they give. */
module Quantizer {
  import opened Bits
  import opened Sequences

  // ----- thermometer codes -----

  function Trues(n: nat): (r: seq<bool>)
    ensures |r| == n && forall i :: 0 <= i < n ==> r[i]
  {
    seq(n, _ => true)
  }

  /** `level` ones from the left in a field of `width` bits. */
  function Thermometer(level: nat, width: nat): (r: seq<bool>)
    requires level <= width
    ensures |r| == width
  {
    Trues(level) + Falses(width - level)
  }

  ghost predicate AtMost(levels: seq<nat>, width: nat) {
    forall i :: 0 <= i < |levels| ==> levels[i] <= width
  }

  /** The fields of all dimensions, one after the other. */
  ghost function Encoded(levels: seq<nat>, width: nat): (r: seq<bool>)
    requires AtMost(levels, width)
    ensures |r| == |levels| * width
  {
    if levels == [] then []
    else
      var n := |levels| - 1;
      assert |levels| * width == n * width + width;
      Encoded(levels[..n], width) + Thermometer(levels[n], width)
  }

  function AbsDiff(x: nat, y: nat): nat {
    if x <= y then y - x else x - y
  }

  /** Sum over the dimensions of the absolute difference of the levels. */
  function LevelDistance(a: seq<nat>, b: seq<nat>): nat
    requires |a| == |b|
  {
    if a == [] then 0
    else
      var n := |a| - 1;
      LevelDistance(a[..n], b[..n]) + AbsDiff(a[n], b[n])
  }

  lemma HammingOfEqual(a: seq<bool>)
    ensures Hamming(a, a) == 0
  {
    HammingIsMetric(a, a, a);
  }

  lemma {:induction false} HammingOfConstants(n: nat)
    ensures Hamming(Trues(n), Falses(n)) == n
  {
    if n == 0 {
    } else {
      assert Trues(n)[1..] == Trues(n - 1) && Falses(n)[1..] == Falses(n - 1);
      HammingOfConstants(n - 1);
    }
  }

  lemma ThermometerDistanceOrdered(x: nat, y: nat, width: nat)
    requires x <= y <= width
    ensures Hamming(Thermometer(y, width), Thermometer(x, width)) == y - x
  {
    hide Hamming, Trues, Falses;
    var a, b, c := Trues(x), Trues(y - x), Falses(width - y);
    var d := Falses(y - x);
    assert Thermometer(y, width) == a + (b + c);
    assert Thermometer(x, width) == a + (d + c);
    HammingConcat(a, a, b + c, d + c);
    HammingConcat(b, d, c, c);
    HammingOfEqual(a);
    HammingOfEqual(c);
    HammingOfConstants(y - x);
  }

  /** Two codes of one dimension differ in as many bits as their levels. */
  lemma ThermometerDistance(x: nat, y: nat, width: nat)
    requires x <= width && y <= width
    ensures Hamming(Thermometer(x, width), Thermometer(y, width)) == AbsDiff(x, y)
  {
    hide Hamming, Thermometer;
    if x <= y {
      ThermometerDistanceOrdered(x, y, width);
    } else {
      ThermometerDistanceOrdered(y, x, width);
    }
    HammingIsMetric(Thermometer(x, width), Thermometer(y, width), Thermometer(x, width));
  }

  lemma {:induction false} EncodedDistance(a: seq<nat>, b: seq<nat>, width: nat)
    requires |a| == |b| && AtMost(a, width) && AtMost(b, width)
    ensures Hamming(Encoded(a, width), Encoded(b, width)) == LevelDistance(a, b)
    decreases |a|
  {
    hide Hamming, Thermometer;
    if a == [] {
      HammingEmpty();
    } else {
      var n := |a| - 1;
      EncodedDistance(a[..n], b[..n], width);
      ThermometerDistance(a[n], b[n], width);
      HammingConcat(Encoded(a[..n], width), Encoded(b[..n], width), Thermometer(a[n], width), Thermometer(b[n], width));
    }
  }

  // ----- words that hold a code -----

  /** quantized_size_internal: words needed for the code of a vector. */
  function QuantizedSize(dimensions: nat, bitsPerDimension: nat): (n: nat)
    ensures WORD_BITS * n >= dimensions * bitsPerDimension
    ensures WORD_BITS * n < dimensions * bitsPerDimension + WORD_BITS
  {
    var numBits := dimensions * bitsPerDimension;
    if numBits % WORD_BITS == 0 then numBits / WORD_BITS else numBits / WORD_BITS + 1
  }

  /** The words hold the code of these levels, and zeros after it. */
  ghost predicate HoldsCode(words: seq<Word>, levels: seq<nat>, width: nat) {
    && AtMost(levels, width)
    && |levels| * width <= WORD_BITS * |words|
    && BitsOf(words) == Encoded(levels, width) + Falses(WORD_BITS * |words| - |levels| * width)
  }

  /** Bit `k` of the field of dimension `i`. */
  ghost predicate CodeBit(words: seq<Word>, width: nat, i: nat, k: nat) {
    i * width + k < WORD_BITS * |words| && BitsOf(words)[i * width + k]
  }

  /** A code sets the first bits of each field, as many as the level. */
  lemma CodeBits(words: seq<Word>, levels: seq<nat>, width: nat, i: nat, k: nat)
    requires HoldsCode(words, levels, width) && i < |levels| && k < width
    ensures CodeBit(words, width, i, k) <==> k < levels[i]
  {
    hide BitsOf, Encoded, Falses, Thermometer;
    FieldFits(i, |levels|, width, |levels| * width);
    EncodedBit(levels, width, i, k);
  }

  lemma {:induction false} EncodedBit(levels: seq<nat>, width: nat, i: nat, k: nat)
    requires AtMost(levels, width) && i < |levels| && k < width
    ensures i * width + k < |Encoded(levels, width)| && (Encoded(levels, width)[i * width + k] <==> k < levels[i])
    decreases |levels|
  {
    var n := |levels| - 1;
    FieldFits(i, |levels|, width, |levels| * width);
    assert |levels| * width == n * width + width;
    if i < n {
      EncodedBit(levels[..n], width, i, k);
    } else {
      assert |Encoded(levels[..n], width)| == i * width;
    }
  }

  /** The meaning of the quantized distance. For all codes of equal size, with
      fields that may straddle words, the xor-popcount of the words is the sum
      over the dimensions of the absolute difference of their levels. */
  lemma QuantizedDistance(a: seq<Word>, b: seq<Word>, x: seq<nat>, y: seq<nat>, width: nat)
    requires |a| == |b| && |x| == |y| && HoldsCode(a, x, width) && HoldsCode(b, y, width)
    ensures XorDistance(a, b) == LevelDistance(x, y)
  {
    hide Hamming, BitsOf, Encoded, Falses, AtMost, LevelDistance, XorSum;
    XorSumIsHamming(a, b);
    PaddedHamming(Encoded(x, width), Encoded(y, width), Falses(WORD_BITS * |a| - |x| * width));
    EncodedDistance(x, y, width);
  }

  lemma PaddedHamming(a: seq<bool>, b: seq<bool>, rest: seq<bool>)
    requires |a| == |b|
    ensures Hamming(a + rest, b + rest) == Hamming(a, b)
  {
    HammingConcat(a, b, rest, rest);
    HammingOfEqual(rest);
  }

  /** The distance of codes is a pseudometric on vectors: it vanishes exactly
      when the levels agree in every dimension. */
  lemma QuantizedDistanceIsPseudometric(a: seq<Word>, b: seq<Word>, c: seq<Word>)
    requires |a| == |b| == |c|
    ensures XorDistance(a, b) == XorDistance(b, a)
    ensures XorDistance(a, c) <= XorDistance(a, b) + XorDistance(b, c)
    ensures XorDistance(a, b) == 0 <==> BitsOf(a) == BitsOf(b)
  {
    hide Hamming, BitsOf;
    XorSumIsHamming(a, b);
    XorSumIsHamming(b, a);
    XorSumIsHamming(a, c);
    XorSumIsHamming(b, c);
    HammingIsMetric(BitsOf(a), BitsOf(b), BitsOf(c));
  }

  lemma {:induction false} LevelDistanceZero(x: seq<nat>, y: seq<nat>)
    requires |x| == |y|
    ensures LevelDistance(x, y) == 0 <==> x == y
    decreases |x|
  {
    if x == [] {
    } else {
      var n := |x| - 1;
      LevelDistanceZero(x[..n], y[..n]);
      assert x == x[..n] + [x[n]] && y == y[..n] + [y[n]];
    }
  }

  // ----- levels -----

  /** The number of ones for a value: z-scores between -2 and 2 are divided into
      `bits + 1` ranges. Without deviation the division gives an infinity, or
      for the mean itself not-a-number, which counts as no ones. */
  function ScaledLevel(v: real, mean: real, stdDev: real, bits: nat): (level: nat)
    requires stdDev >= 0.0
    ensures level <= bits
  {
    if stdDev == 0.0 then (if v > mean then bits else 0)
    else
      var index := ((v - mean) / stdDev + 2.0) / (4.0 / (bits + 1) as real);
      if index < 1.0 then 0 else Min(index.Floor, bits)
  }

  /** The k-th cut point between ranges. */
  function CutPoint(mean: real, stdDev: real, bits: nat, k: nat): real {
    mean + stdDev * (4.0 * k as real / (bits + 1) as real - 2.0)
  }

  lemma IndexAtLeast(v: real, mean: real, stdDev: real, bits: nat, k: nat)
    requires stdDev > 0.0
    ensures ((v - mean) / stdDev + 2.0) / (4.0 / (bits + 1) as real) >= k as real
      <==> v >= CutPoint(mean, stdDev, bits, k)
  {
    var n, z, step := (bits + 1) as real, (v - mean) / stdDev, 4.0 / (bits + 1) as real;
    var index, cut := (z + 2.0) / step, 4.0 * k as real / n - 2.0;
    assert step > 0.0 && index * step == z + 2.0;
    assert k as real * step == cut + 2.0;
    assert z * stdDev == v - mean;
    if index >= k as real {
      ScaleOrder(k as real, index, step);
      ScaleOrder(cut, z, stdDev);
    } else {
      ScaleOrderStrict(index, k as real, step);
      ScaleOrderStrict(z, cut, stdDev);
    }
  }

  lemma ScaleOrder(a: real, b: real, c: real)
    requires a <= b && c > 0.0
    ensures a * c <= b * c && c * a <= c * b
  {
  }

  lemma ScaleOrderStrict(a: real, b: real, c: real)
    requires a < b && c > 0.0
    ensures a * c < b * c && c * a < c * b
  {
  }

  /** A level is the number of cut points that the value reaches. */
  lemma LevelCountsCutPoints(v: real, mean: real, stdDev: real, bits: nat, k: nat)
    requires stdDev > 0.0 && 1 <= k <= bits
    ensures ScaledLevel(v, mean, stdDev, bits) >= k <==> v >= CutPoint(mean, stdDev, bits, k)
  {
    hide CutPoint;
    IndexAtLeast(v, mean, stdDev, bits, k);
    IndexAtLeast(v, mean, stdDev, bits, 1);
  }

  /** Larger values never get smaller levels. */
  lemma LevelIsMonotone(v: real, w: real, mean: real, stdDev: real, bits: nat)
    requires stdDev >= 0.0 && v <= w
    ensures ScaledLevel(v, mean, stdDev, bits) <= ScaledLevel(w, mean, stdDev, bits)
  {
    hide ScaledLevel, CutPoint;
    if stdDev == 0.0 {
      FlatLevel(v, mean, bits);
      FlatLevel(w, mean, bits);
    } else {
      var k := ScaledLevel(v, mean, stdDev, bits);
      if k >= 1 {
        LevelCountsCutPoints(v, mean, stdDev, bits, k);
        LevelCountsCutPoints(w, mean, stdDev, bits, k);
      }
    }
  }

  lemma FlatLevel(v: real, mean: real, bits: nat)
    ensures ScaledLevel(v, mean, 0.0, bits) == if v > mean then bits else 0
  {
  }

  // ----- filling the words -----

  lemma FalsesSplit(a: nat, b: nat)
    ensures Falses(a + b) == Falses(a) + Falses(b)
  {
  }

  /** Set `n` bits from bit `start` on. */
  method FillOnes(words: seq<Word>, start: nat, n: nat, ghost prefix: seq<bool>, ghost rest: nat) returns (r: seq<Word>)
    requires |prefix| == start && n <= rest && BitsOf(words) == prefix + Falses(rest)
    ensures |r| == |words| && BitsOf(r) == prefix + (Trues(n) + Falses(rest - n))
  {
    hide BitsOf, Mask, Or;
    r := words;
    for j := 0 to n
      invariant |r| == |words| && BitsOf(r) == prefix + (Trues(j) + Falses(rest - j))
    {
      SetBitOf(r, start + j);
      r := r[(start + j) / WORD_BITS := Or(r[(start + j) / WORD_BITS], Mask((start + j) % WORD_BITS))];
      assert (prefix + (Trues(j) + Falses(rest - j)))[start + j := true]
          == prefix + (Trues(j + 1) + Falses(rest - j - 1));
    }
  }

  /** One more field: the code grows by the thermometer of the next level. */
  lemma NextField(levels: seq<nat>, i: nat, width: nat, rest: nat)
    requires AtMost(levels, width) && i < |levels| && levels[i] <= width <= rest
    ensures Encoded(levels[..i], width) + (Trues(levels[i]) + Falses(rest - levels[i]))
         == Encoded(levels[..i + 1], width) + Falses(rest - width)
  {
    FalsesSplit(width - levels[i], rest - width);
    assert levels[..i + 1][..i] == levels[..i];
    assert Encoded(levels[..i + 1], width) == Encoded(levels[..i], width) + Thermometer(levels[i], width);
  }

  lemma FieldFits(i: nat, n: nat, width: nat, total: nat)
    requires i < n && n * width <= total
    ensures i * width + width <= total && (i + 1) * width == i * width + width
  {
    assert (i + 1) * width <= n * width;
  }

  /** The deviations are the roots of the variances, where there are samples. */
  ghost predicate IsDeviation(stdDev: seq<real>, m2: seq<real>, count: nat) {
    |stdDev| <= |m2| && forall i :: 0 <= i < |stdDev| ==>
      stdDev[i] >= 0.0 && (count > 0 ==> stdDev[i] * stdDev[i] == m2[i] / count as real)
  }

  class SbqQuantizer {
    const useMean: bool
    const numBits: nat
    var training: bool
    var count: nat
    var mean: seq<real>
    var m2: seq<real>

    constructor (useMean: bool, numBits: nat)
      requires numBits >= 1
      ensures this.useMean == useMean && this.numBits == numBits && !training && count == 0 && mean == [] && m2 == []
    {
      this.useMean, this.numBits := useMean, numBits;
      training, count, mean, m2 := false, 0, [], [];
    }

    /** Bits between the fields of neighbouring dimensions. */
    function Width(): nat {
      if useMean && numBits > 1 then numBits else 1
    }

    /** The level of dimension `i` for value `v`. With no samples the variance
        is not a number and no bit is set. */
    function Level(i: nat, v: real, stdDev: seq<real>): (level: nat)
      requires useMean ==> i < |mean|
      requires useMean && numBits > 1 ==> i < |stdDev| && stdDev[i] >= 0.0
      requires numBits >= 1
      reads this
      ensures level <= Width()
    {
      if !useMean then (if v > 0.0 then 1 else 0)
      else if numBits == 1 then (if v > mean[i] then 1 else 0)
      else if count == 0 then 0
      else ScaledLevel(v, mean[i], stdDev[i], numBits)
    }

    ghost predicate CanQuantize(vector: seq<real>, stdDev: seq<real>)
      reads this
    {
      && !training && numBits >= 1
      && (useMean ==> |vector| <= |mean|)
      && (useMean && numBits > 1 ==> |stdDev| == |vector| && IsDeviation(stdDev, m2, count))
    }

    ghost function Levels(vector: seq<real>, stdDev: seq<real>): (levels: seq<nat>)
      requires CanQuantize(vector, stdDev)
      reads this
      ensures |levels| == |vector| && AtMost(levels, Width())
      ensures forall i :: 0 <= i < |vector| ==> levels[i] == Level(i, vector[i], stdDev)
    {
      seq(|vector|, i requires 0 <= i < |vector| && CanQuantize(vector, stdDev) reads this =>
        Level(i, vector[i], stdDev))
    }

    /** What the bits of a quantized vector say. Without means, the sign of each
        value. With means and one bit, whether a value is above its mean. With
        several bits, whether it reaches the cut points between the ranges; where
        all samples agree, all bits say whether it is above the mean; and without
        samples there are none. */
    lemma BitsMean(words: seq<Word>, vector: seq<real>, stdDev: seq<real>)
      requires CanQuantize(vector, stdDev) && HoldsCode(words, Levels(vector, stdDev), Width())
      ensures !useMean ==> forall i :: 0 <= i < |vector| ==> (CodeBit(words, 1, i, 0) <==> vector[i] > 0.0)
      ensures useMean && numBits == 1 ==>
        forall i :: 0 <= i < |vector| ==> (CodeBit(words, 1, i, 0) <==> vector[i] > mean[i])
      ensures useMean && numBits > 1 ==>
        forall i, k :: 0 <= i < |vector| && 0 <= k < numBits ==>
          (CodeBit(words, numBits, i, k) <==>
            count > 0 && if stdDev[i] > 0.0 then vector[i] >= CutPoint(mean[i], stdDev[i], numBits, k + 1)
                         else vector[i] > mean[i])
    {
      hide HoldsCode, CodeBit, ScaledLevel, CutPoint;
      var levels := Levels(vector, stdDev);
      forall i, k | 0 <= i < |vector| && 0 <= k < Width()
        ensures CodeBit(words, Width(), i, k) <==> k < levels[i]
      {
        CodeBits(words, levels, Width(), i, k);
      }
      if useMean && numBits > 1 {
        forall i, k | 0 <= i < |vector| && 0 <= k < numBits
          ensures CodeBit(words, numBits, i, k) <==>
            count > 0 && if stdDev[i] > 0.0 then vector[i] >= CutPoint(mean[i], stdDev[i], numBits, k + 1)
                         else vector[i] > mean[i]
        {
          if stdDev[i] > 0.0 {
            LevelCountsCutPoints(vector[i], mean[i], stdDev[i], numBits, k + 1);
          } else {
            FlatLevel(vector[i], mean[i], numBits);
          }
        }
      }
    }

    /** Quantizing a vector packs the levels of its dimensions; no word index is
        ever out of bounds. */
    method Quantize(vector: seq<real>, stdDev: seq<real>) returns (words: seq<Word>)
      requires CanQuantize(vector, stdDev)
      ensures |words| == QuantizedSize(|vector|, numBits)
      ensures HoldsCode(words, Levels(vector, stdDev), Width())
      ensures !useMean ==> forall i :: 0 <= i < |vector| ==> (CodeBit(words, 1, i, 0) <==> vector[i] > 0.0)
      ensures useMean && numBits == 1 ==>
        forall i :: 0 <= i < |vector| ==> (CodeBit(words, 1, i, 0) <==> vector[i] > mean[i])
      ensures useMean && numBits > 1 ==>
        forall i, k :: 0 <= i < |vector| && 0 <= k < numBits ==>
          (CodeBit(words, numBits, i, k) <==>
            count > 0 && if stdDev[i] > 0.0 then vector[i] >= CutPoint(mean[i], stdDev[i], numBits, k + 1)
                         else vector[i] > mean[i])
    {
      hide BitsOf, Falses, Trues, Encoded, Level, Levels, QuantizedSize, CodeBit, CutPoint;
      ghost var levels, total := Levels(vector, stdDev), WORD_BITS * QuantizedSize(|vector|, numBits);
      words := seq(QuantizedSize(|vector|, numBits), _ => 0 as Word);
      BitsOfZeros(QuantizedSize(|vector|, numBits));
      FieldsFit(|vector|, numBits, Width(), total);
      NoFields(levels, Width(), total);
      for i := 0 to |vector|
        invariant |words| == QuantizedSize(|vector|, numBits) && i * Width() <= total
        invariant BitsOf(words) == Encoded(levels[..i], Width()) + Falses(total - i * Width())
      {
        FieldFits(i, |vector|, Width(), total);
        var level := Level(i, vector[i], stdDev);
        words := FillOnes(words, i * Width(), level, Encoded(levels[..i], Width()), total - i * Width());
        NextField(levels, i, Width(), total - i * Width());
      }
      assert levels[..|levels|] == levels;
      BitsMean(words, vector, stdDev);
    }
  }

  lemma FieldsFit(n: nat, numBits: nat, width: nat, total: nat)
    requires width <= numBits && n * numBits <= total
    ensures n * width <= total
  {
    assert n * width <= n * numBits;
  }

  lemma NoFields(levels: seq<nat>, width: nat, total: nat)
    requires AtMost(levels, width)
    ensures Encoded(levels[..0], width) + Falses(total) == Falses(total)
  {
  }
}
