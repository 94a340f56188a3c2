/** Which codes and which code distances there are: every level vector has a
    code, and sets of dimensions can be set apart as far as they differ. */
module Codes {
  import opened Bits
  import opened Quantizer

  // ----- every level vector has a code -----

  /** Words of which the first `k` bits are given and the others are zero. */
  function WordsOf(bits: seq<bool>, n: nat, k: nat): (words: seq<Word>)
    requires k <= |bits| == WORD_BITS * n
    ensures |words| == n
  {
    if k == 0 then seq(n, _ => 0 as Word)
    else
      var words := WordsOf(bits, n, k - 1);
      var p := k - 1;
      if bits[p] then words[p / WORD_BITS := Or(words[p / WORD_BITS], Mask(p % WORD_BITS))] else words
  }

  lemma {:induction false} WordsHoldBits(bits: seq<bool>, n: nat, k: nat)
    requires k <= |bits| == WORD_BITS * n
    ensures BitsOf(WordsOf(bits, n, k)) == bits[..k] + Falses(|bits| - k)
  {
    hide BitsOf, Or, Mask;
    if k == 0 {
      BitsOfZeros(n);
      assert bits[..0] + Falses(|bits|) == Falses(|bits|);
    } else {
      var p := k - 1;
      WordsHoldBits(bits, n, p);
      SetBitOf(WordsOf(bits, n, p), p);
      assert (bits[..p] + Falses(|bits| - p))[p := true] == bits[..p] + [true] + Falses(|bits| - k);
      assert bits[..k] == bits[..p] + [bits[p]];
    }
  }

  ghost function CodeOf(levels: seq<nat>, width: nat): (words: seq<Word>)
    requires AtMost(levels, width)
    ensures |words| == QuantizedSize(|levels|, width) && HoldsCode(words, levels, width)
  {
    var n := QuantizedSize(|levels|, width);
    var bits := Encoded(levels, width) + Falses(WORD_BITS * n - |levels| * width);
    WordsHoldBits(bits, n, |bits|);
    assert bits[..|bits|] + Falses(0) == bits;
    WordsOf(bits, n, |bits|)
  }

  /** Every level is the level of some value, so every code can occur. */
  lemma EveryLevelIsTaken(mean: real, stdDev: real, bits: nat, k: nat)
    requires stdDev > 0.0 && k <= bits
    ensures exists v :: ScaledLevel(v, mean, stdDev, bits) == k
  {
    hide ScaledLevel, CutPoint;
    var v := if k == 0 then CutPoint(mean, stdDev, bits, 1) - 1.0 else CutPoint(mean, stdDev, bits, k);
    if k >= 1 {
      LevelCountsCutPoints(v, mean, stdDev, bits, k);
    }
    if k < bits {
      CutPointsGrow(mean, stdDev, bits, k);
      LevelCountsCutPoints(v, mean, stdDev, bits, k + 1);
    }
    assert ScaledLevel(v, mean, stdDev, bits) == k;
  }

  lemma CutPointsGrow(mean: real, stdDev: real, bits: nat, k: nat)
    requires stdDev > 0.0
    ensures CutPoint(mean, stdDev, bits, k) < CutPoint(mean, stdDev, bits, k + 1)
  {
    var n := (bits + 1) as real;
    var a, b := 4.0 * k as real / n - 2.0, 4.0 * (k + 1) as real / n - 2.0;
    assert b - a == 4.0 / n;
    ScaleOrderStrict(a, b, stdDev);
  }

  // ----- distances between sets of dimensions -----

  /** Level one in the given dimensions, zero in the others. */
  function Indicator(n: nat, dims: set<nat>): (levels: seq<nat>)
    ensures |levels| == n && forall d :: 0 <= d < n ==> levels[d] <= 1
  {
    seq(n, d => if d in dims then 1 else 0)
  }

  ghost function Difference(n: nat, a: set<nat>, b: set<nat>): set<nat> {
    set d: nat | d < n && (d in a <==> d !in b)
  }

  lemma {:induction false} IndicatorDistance(n: nat, a: set<nat>, b: set<nat>)
    ensures LevelDistance(Indicator(n, a), Indicator(n, b)) == |Difference(n, a, b)|
  {
    if n == 0 {
      assert Difference(0, a, b) == {};
    } else {
      IndicatorDistance(n - 1, a, b);
      assert Indicator(n, a)[..n - 1] == Indicator(n - 1, a) && Indicator(n, b)[..n - 1] == Indicator(n - 1, b);
      var here := if n - 1 in a <==> n - 1 !in b then {n - 1} else {};
      assert Difference(n, a, b) == Difference(n - 1, a, b) + here;
      assert Difference(n - 1, a, b) !! here;
    }
  }

  ghost function IndicatorCode(n: nat, width: nat, dims: set<nat>): (words: seq<Word>)
    requires width >= 1
    ensures |words| == QuantizedSize(n, width) && HoldsCode(words, Indicator(n, dims), width)
  {
    CodeOf(Indicator(n, dims), width)
  }

  /** The xor-popcount of two such codes counts the dimensions in which the sets
      differ. */
  lemma IndicatorCodeDistance(n: nat, width: nat, a: set<nat>, b: set<nat>)
    requires width >= 1
    ensures XorDistance(IndicatorCode(n, width, a), IndicatorCode(n, width, b)) == |Difference(n, a, b)|
  {
    hide XorDistance, HoldsCode, Indicator, LevelDistance, Difference, QuantizedSize;
    QuantizedDistance(IndicatorCode(n, width, a), IndicatorCode(n, width, b), Indicator(n, a), Indicator(n, b), width);
    IndicatorDistance(n, a, b);
  }
}
