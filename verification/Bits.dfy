/** 64-bit words as bit strings, and the xor-popcount distance on them. */
module Bits {
  type Word = bv64

  const WORD_BITS: nat := 64

  predicate Odd(w: Word) {
    w & 1 == 1
  }

  function Half(w: Word): Word {
    w >> 1
  }

  function Double(w: Word): Word {
    w << 1
  }

  function Or(a: Word, b: Word): Word {
    a | b
  }

  function And(a: Word, b: Word): Word {
    a & b
  }

  function Xor(a: Word, b: Word): Word {
    a ^ b
  }

  /** `1 << k`. */
  function Mask(k: nat): Word {
    if k == 0 then 1 else Double(Mask(k - 1))
  }

  /** The `n` lowest bits, lowest first. */
  function LowBits(w: Word, n: nat): (r: seq<bool>)
    ensures |r| == n
    decreases n
  {
    if n == 0 then [] else [Odd(w)] + LowBits(Half(w), n - 1)
  }

  /** Ones among the `n` lowest bits; with 64 this is u64::count_ones. */
  function CountOnes(w: Word, n: nat): nat
    decreases n
  {
    if n == 0 then 0 else (if Odd(w) then 1 else 0) + CountOnes(Half(w), n - 1)
  }

  function Falses(n: nat): (r: seq<bool>)
    ensures |r| == n && forall i :: 0 <= i < n ==> !r[i]
  {
    seq(n, _ => false)
  }

  // ----- word arithmetic, one bit at a time -----

  lemma BitwiseLowest(a: Word, b: Word)
    ensures Odd(Or(a, b)) <==> Odd(a) || Odd(b)
    ensures Odd(And(a, b)) <==> Odd(a) && Odd(b)
    ensures Odd(Xor(a, b)) <==> Odd(a) != Odd(b)
  {
  }

  lemma HalfOfOr(a: Word, b: Word)
    ensures Half(Or(a, b)) == Or(Half(a), Half(b))
  {
  }

  lemma HalfOfAnd(a: Word, b: Word)
    ensures Half(And(a, b)) == And(Half(a), Half(b))
  {
  }

  lemma HalfOfXor(a: Word, b: Word)
    ensures Half(Xor(a, b)) == Xor(Half(a), Half(b))
  {
  }

  const BELOW_TOP: Word := 0x7FFF_FFFF_FFFF_FFFF

  lemma DoubleBack(m: Word)
    ensures !Odd(Double(m)) && Half(Double(m)) == And(m, BELOW_TOP)
  {
  }

  lemma OneAndZero()
    ensures Odd(1) && Half(1) == 0 && !Odd(0) && Half(0) == 0
  {
  }

  // ----- setting one bit -----

  lemma {:induction false} LowBitsOfOr(a: Word, b: Word, n: nat, i: nat)
    requires i < n
    ensures LowBits(Or(a, b), n)[i] == (LowBits(a, n)[i] || LowBits(b, n)[i])
    decreases n
  {
    hide Odd, Half, Or, And, Xor, Double;
    BitwiseLowest(a, b);
    HalfOfOr(a, b);
    if i == 0 {
    } else {
      LowBitsOfOr(Half(a), Half(b), n - 1, i - 1);
    }
  }

  /** The `n` lowest bits of `c` are ones. */
  predicate AllOnes(c: Word, n: nat)
    decreases n
  {
    n == 0 || (Odd(c) && AllOnes(Half(c), n - 1))
  }

  lemma {:induction false} LowBitsOfAnd(m: Word, c: Word, n: nat)
    requires AllOnes(c, n)
    ensures LowBits(And(m, c), n) == LowBits(m, n)
    decreases n
  {
    hide Odd, Half, Or, And, Xor, Double;
    BitwiseLowest(m, c);
    HalfOfAnd(m, c);
    if n == 0 {
    } else {
      LowBitsOfAnd(Half(m), Half(c), n - 1);
    }
  }

  lemma NibbleHalves(c: Word)
    requires c & 0xF == 0xF
    ensures Odd(c) && Odd(Half(c)) && Odd(Half(Half(c))) && Odd(Half(Half(Half(c))))
    ensures Half(Half(Half(Half(c)))) == c >> 4
  {
  }

  lemma AllOnesNibble(c: Word, n: nat)
    requires c & 0xF == 0xF && AllOnes(c >> 4, n)
    ensures AllOnes(c, n + 4)
  {
    NibbleHalves(c);
    hide Odd, Half, Or, And, Xor, Double;
    var c1 := Half(c);
    var c2 := Half(c1);
    var c3 := Half(c2);
    assert AllOnes(c3, n + 1);
    assert AllOnes(c2, n + 2);
    assert AllOnes(c1, n + 3);
  }

  /** Sixteen nibbles, less one bit. */
  lemma AllButTop()
    ensures AllOnes(BELOW_TOP, 63)
  {
    assert Half(7) == 3 && Half(3) == 1 && Half(1) == 0;
    assert AllOnes(1, 1) && AllOnes(3, 2) && AllOnes(7, 3);
    AllOnesNibble(0x7F, 3);
    AllOnesNibble(0x7FF, 7);
    AllOnesNibble(0x7FFF, 11);
    AllOnesNibble(0x7_FFFF, 15);
    AllOnesNibble(0x7F_FFFF, 19);
    AllOnesNibble(0x7FF_FFFF, 23);
    AllOnesNibble(0x7FFF_FFFF, 27);
    AllOnesNibble(0x7_FFFF_FFFF, 31);
    AllOnesNibble(0x7F_FFFF_FFFF, 35);
    AllOnesNibble(0x7FF_FFFF_FFFF, 39);
    AllOnesNibble(0x7FFF_FFFF_FFFF, 43);
    AllOnesNibble(0x7_FFFF_FFFF_FFFF, 47);
    AllOnesNibble(0x7F_FFFF_FFFF_FFFF, 51);
    AllOnesNibble(0x7FF_FFFF_FFFF_FFFF, 55);
    AllOnesNibble(BELOW_TOP, 59);
  }

  lemma {:induction false} AllOnesShorter(c: Word, n: nat, m: nat)
    requires AllOnes(c, n) && m <= n
    ensures AllOnes(c, m)
    decreases n
  {
    hide Odd, Half, Or, And, Xor, Double;
    if m == 0 {
    } else {
      AllOnesShorter(Half(c), n - 1, m - 1);
    }
  }

  lemma {:induction false} LowBitsOfMask(k: nat, n: nat)
    requires k < n <= WORD_BITS
    ensures LowBits(Mask(k), n) == Falses(n)[k := true]
  {
    hide Odd, Half, Or, And, Xor, Double, AllOnes;
    OneAndZero();
    if k == 0 {
      LowBitsOfZero(n - 1);
    } else {
      var m := Mask(k - 1);
      DoubleBack(m);
      AllButTop();
      AllOnesShorter(BELOW_TOP, 63, n - 1);
      LowBitsOfAnd(m, BELOW_TOP, n - 1);
      LowBitsOfMask(k - 1, n - 1);
    }
  }

  lemma {:induction false} LowBitsOfZero(n: nat)
    ensures LowBits(0, n) == Falses(n)
  {
    hide Odd, Half, Or, And, Xor, Double;
    OneAndZero();
    if n == 0 {
    } else {
      LowBitsOfZero(n - 1);
    }
  }

  /** `w |= 1 << k` sets bit `k` and no other. */
  lemma SetBit(w: Word, k: nat)
    requires k < WORD_BITS
    ensures LowBits(Or(w, Mask(k)), WORD_BITS) == LowBits(w, WORD_BITS)[k := true]
  {
    hide LowBits, Mask, Or;
    LowBitsOfMask(k, WORD_BITS);
    var after, wanted := LowBits(Or(w, Mask(k)), WORD_BITS), LowBits(w, WORD_BITS)[k := true];
    forall i | 0 <= i < |after| ensures after[i] == wanted[i] {
      LowBitsOfOr(w, Mask(k), WORD_BITS, i);
    }
  }

  // ----- vectors of words -----

  function BitsOf(words: seq<Word>): (r: seq<bool>)
    ensures |r| == WORD_BITS * |words|
  {
    if words == [] then [] else LowBits(words[0], WORD_BITS) + BitsOf(words[1..])
  }

  /** `res[p / 64] |= 1 << (p % 64)` sets bit `p` of the whole vector. */
  lemma {:induction false} SetBitOf(words: seq<Word>, p: nat)
    requires p < WORD_BITS * |words|
    ensures p / WORD_BITS < |words|
    ensures BitsOf(words[p / WORD_BITS := Or(words[p / WORD_BITS], Mask(p % WORD_BITS))]) == BitsOf(words)[p := true]
  {
    hide LowBits, Mask, Or;
    var i := p / WORD_BITS;
    var after := words[i := Or(words[i], Mask(p % WORD_BITS))];
    if i == 0 {
      SetBit(words[0], p);
      assert after[1..] == words[1..];
    } else {
      SetBitOf(words[1..], p - WORD_BITS);
      assert after[1..] == words[1..][i - 1 := Or(words[i], Mask(p % WORD_BITS))];
    }
  }

  lemma {:induction false} BitsOfZeros(n: nat)
    ensures BitsOf(seq(n, _ => 0 as Word)) == Falses(WORD_BITS * n)
  {
    hide LowBits;
    if n == 0 {
    } else {
      LowBitsOfZero(WORD_BITS);
      assert seq(n, _ => 0 as Word)[1..] == seq(n - 1, _ => 0 as Word);
      BitsOfZeros(n - 1);
    }
  }

  // ----- distance -----

  /** The number of positions in which two bit strings differ. */
  function Hamming(a: seq<bool>, b: seq<bool>): nat
    requires |a| == |b|
  {
    if a == [] then 0 else (if a[0] != b[0] then 1 else 0) + Hamming(a[1..], b[1..])
  }

  /** distance_xor_optimized. The arms for up to 49 words read that many words
      of `b`; otherwise the shorter vector ends the sum. */
  function XorDistance(a: seq<Word>, b: seq<Word>): nat
    requires |a| <= 49 ==> |a| <= |b|
  {
    XorSum(a, b)
  }

  function XorSum(a: seq<Word>, b: seq<Word>): nat {
    if a == [] || b == [] then 0 else CountOnes(Xor(a[0], b[0]), WORD_BITS) + XorSum(a[1..], b[1..])
  }

  lemma HammingEmpty()
    ensures Hamming([], []) == 0
  {
  }

  lemma {:induction false} HammingConcat(a: seq<bool>, b: seq<bool>, c: seq<bool>, d: seq<bool>)
    requires |a| == |b| && |c| == |d|
    ensures Hamming(a + c, b + d) == Hamming(a, b) + Hamming(c, d)
  {
    if a == [] {
      assert a + c == c && b + d == d;
    } else {
      HammingConcat(a[1..], b[1..], c, d);
      assert (a + c)[1..] == a[1..] + c && (b + d)[1..] == b[1..] + d;
    }
  }

  lemma {:induction false} CountOnesIsHamming(a: Word, b: Word, n: nat)
    ensures CountOnes(Xor(a, b), n) == Hamming(LowBits(a, n), LowBits(b, n))
    decreases n
  {
    hide Odd, Half, Or, And, Xor, Double;
    BitwiseLowest(a, b);
    HalfOfXor(a, b);
    if n == 0 {
    } else {
      CountOnesIsHamming(Half(a), Half(b), n - 1);
      assert LowBits(a, n)[1..] == LowBits(Half(a), n - 1) && LowBits(b, n)[1..] == LowBits(Half(b), n - 1);
    }
  }

  /** The word-wise distance counts the bits in which two vectors differ. */
  lemma {:induction false} XorSumIsHamming(a: seq<Word>, b: seq<Word>)
    requires |a| == |b|
    ensures XorSum(a, b) == Hamming(BitsOf(a), BitsOf(b))
  {
    hide LowBits, CountOnes, Hamming, Xor;
    if a == [] {
      HammingEmpty();
    } else {
      CountOnesIsHamming(a[0], b[0], WORD_BITS);
      XorSumIsHamming(a[1..], b[1..]);
      HammingConcat(LowBits(a[0], WORD_BITS), LowBits(b[0], WORD_BITS), BitsOf(a[1..]), BitsOf(b[1..]));
    }
  }

  lemma {:induction false} HammingIsMetric(a: seq<bool>, b: seq<bool>, c: seq<bool>)
    requires |a| == |b| == |c|
    ensures Hamming(a, b) == Hamming(b, a)
    ensures Hamming(a, c) <= Hamming(a, b) + Hamming(b, c)
    ensures Hamming(a, b) == 0 <==> a == b
  {
    if a == [] {
    } else {
      HammingIsMetric(a[1..], b[1..], c[1..]);
      assert a == [a[0]] + a[1..] && b == [b[0]] + b[1..];
    }
  }
}
