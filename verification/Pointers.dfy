/** Item pointers, the distance with a lazily computed tie break, and the
    neighbour records built from them. */
module Pointers {
  // Postgres constants: InvalidBlockNumber, InvalidOffsetNumber, and
  // MaxOffsetNumber = BLCKSZ / sizeof(ItemIdData) for 8 kB pages.
  const INVALID_BLOCK: nat := 0xFFFF_FFFF
  const INVALID_OFFSET: nat := 0
  const MAX_OFFSET: nat := 2048

  // f32::EPSILON, that is 2^-23.
  const EPSILON: real := 0.00000011920928955078125

  /** The constructors of a distance reject negative values. */
  type Magnitude = x: real | 0.0 <= x

  datatype Option<+T> = None | Some(value: T)

  datatype ItemPointer = ItemPointer(block: nat, offset: nat) {
    /** An offset that a line pointer on a page can have. */
    predicate OnPage() {
      1 <= offset <= MAX_OFFSET
    }
  }

  const INVALID_POINTER := ItemPointer(INVALID_BLOCK, INVALID_OFFSET)

  function Abs(x: int): nat {
    if x < 0 then -x else x
  }

  /** Distance between two item pointers on the line of all page slots. */
  function IpDistance(a: ItemPointer, b: ItemPointer): nat {
    Abs((a.block - b.block) * MAX_OFFSET + (a.offset - b.offset))
  }

  /** The tie break is how far apart the slots are on their line, a metric on
      pointers that name page slots: it is zero only for the same slot, so
      distinct neighbours never divide by zero. */
  lemma IpDistanceIsMetric(a: ItemPointer, b: ItemPointer, c: ItemPointer)
    ensures IpDistance(a, b) == IpDistance(b, a)
    ensures IpDistance(a, c) <= IpDistance(a, b) + IpDistance(b, c)
    ensures a.OnPage() && b.OnPage() ==> (IpDistance(a, b) == 0 <==> a == b)
    ensures 2048 * b.block + b.offset == 2048 * a.block + a.offset + IpDistance(a, b)
         || 2048 * a.block + a.offset == 2048 * b.block + b.offset + IpDistance(a, b)
  {
  }

  /** Two offsets tell pointers apart on all blocks exactly when they are the
      same, or do not differ by a multiple of a page. */
  lemma IpDistanceSeparates(o1: nat, o2: nat)
    ensures (forall b1: nat, b2: nat ::
        IpDistance(ItemPointer(b1, o1), ItemPointer(b2, o2)) == 0 ==> ItemPointer(b1, o1) == ItemPointer(b2, o2))
      <==> o1 == o2 || (o1 - o2) % MAX_OFFSET != 0
  {
    if o1 != o2 && (o1 - o2) % MAX_OFFSET == 0 {
      var pages := (o1 - o2) / MAX_OFFSET;
      var b1, b2 := Abs(pages), Abs(pages) + pages;
      assert o1 - o2 == pages * MAX_OFFSET;
      assert IpDistance(ItemPointer(b1, o1), ItemPointer(b2, o2)) == 0;
    }
  }

  datatype Ordering = Less | Equal | Greater

  function Flip(o: Ordering): Ordering {
    match o
    case Less => Greater
    case Equal => Equal
    case Greater => Less
  }

  function CmpReal(x: real, y: real): Ordering {
    if x < y then Less else if x == y then Equal else Greater
  }

  function CmpNat(x: nat, y: nat): Ordering {
    if x < y then Less else if x == y then Equal else Greater
  }

  /** A pruning factor. `Infinite` is f64::MAX (or an overflow to infinity). */
  datatype Factor = Finite(value: real) | Infinite {
    predicate Exceeds(alpha: real) {
      Infinite? || value > alpha
    }

    function Max(other: Factor): Factor {
      if Infinite? || other.Infinite? then Infinite
      else if value < other.value then other else this
    }
  }

  /** DistanceWithTieBreak. `query` marks a distance made by its constructor
      `with_query`, whose tie break is fixed to zero. */
  datatype Distance = Distance(value: Magnitude, source: ItemPointer, target: ItemPointer, query: bool) {
    function TieBreak(): nat {
      if query then 0 else IpDistance(source, target)
    }

    function Cmp(other: Distance): Ordering {
      if value == 0.0 && other.value == 0.0 then CmpNat(TieBreak(), other.TieBreak())
      else CmpReal(value, other.value)
    }

    /** The PartialEq implementation, which is written separately from Cmp. */
    predicate Eq(other: Distance) {
      if value == 0.0 && other.value == 0.0 then TieBreak() == other.TieBreak()
      else value == other.value
    }

    predicate Leq(other: Distance) {
      Cmp(other) != Greater
    }

    predicate Lt(other: Distance) {
      Cmp(other) == Less
    }

    /** How much closer a candidate is to an existing neighbour (`divisor`)
        than to the point being pruned (`this`). A division of zero by zero
        gives NaN, which f64::max ignores, so it acts as the factor 0. */
    function GetFactor(divisor: Distance): Factor {
      if divisor.value < EPSILON then
        if value < EPSILON then
          if divisor.TieBreak() != 0 then Finite(TieBreak() as real / divisor.TieBreak() as real)
          else if TieBreak() == 0 then Finite(0.0) else Infinite
        else Infinite
      else Finite(value / divisor.value)
    }
  }

  function NewDistance(value: Magnitude, source: ItemPointer, target: ItemPointer): Distance {
    Distance(value, source, target, false)
  }

  /** The smaller distance comes first; at distance zero the smaller tie break,
      which is zero for all distances from the query itself. */
  lemma CmpMeans(a: Distance, b: Distance)
    ensures a.value < b.value ==> a.Lt(b)
    ensures a.value == b.value != 0.0 ==> a.Cmp(b) == Equal
    ensures a.value == 0.0 == b.value && !a.query && !b.query ==>
      (a.Lt(b) <==> IpDistance(a.source, a.target) < IpDistance(b.source, b.target))
    ensures a.value == 0.0 == b.value && a.query && !b.query ==> (a.Lt(b) <==> 0 < IpDistance(b.source, b.target))
    ensures a.value == 0.0 == b.value && a.query && b.query ==> a.Cmp(b) == Equal
    ensures a.Leq(b) <==> !b.Lt(a)
  {
  }

  /** When a pruning factor is above `alpha`: `far` is more than `alpha` times
      `near`. Distances below EPSILON count as zero; if both do, the tie breaks
      are compared instead. */
  lemma FactorMeans(far: Distance, near: Distance, alpha: real)
    requires alpha >= 0.0
    ensures near.value >= EPSILON ==> (far.GetFactor(near).Exceeds(alpha) <==> far.value > alpha * near.value)
    ensures near.value < EPSILON <= far.value ==> far.GetFactor(near).Exceeds(alpha)
    ensures near.value < EPSILON && far.value < EPSILON && near.TieBreak() > 0 ==>
      (far.GetFactor(near).Exceeds(alpha) <==> far.TieBreak() as real > alpha * near.TieBreak() as real)
    ensures near.value < EPSILON && far.value < EPSILON && near.TieBreak() == 0 ==>
      (far.GetFactor(near).Exceeds(alpha) <==> far.TieBreak() > 0)
  {
    if near.value >= EPSILON {
      QuotientExceeds(far.value, near.value, alpha);
    } else if far.value < EPSILON && near.TieBreak() > 0 {
      QuotientExceeds(far.TieBreak() as real, near.TieBreak() as real, alpha);
    }
  }

  lemma QuotientExceeds(x: real, y: real, a: real)
    requires y > 0.0
    ensures x / y > a <==> x > a * y
  {
    var q := x / y;
    assert q * y == x;
    if q > a {
      assert (q - a) * y > 0.0;
    } else {
      assert (a - q) * y >= 0.0;
    }
  }

  /** The comparison is a total preorder and agrees with the equality, as the
      heap, the sort and the partition point all assume. */
  lemma CmpIsTotalPreorder(a: Distance, b: Distance, c: Distance)
    ensures a.Cmp(b) == Flip(b.Cmp(a))
    ensures a.Leq(b) && b.Leq(c) ==> a.Leq(c)
    ensures a.Lt(b) && b.Leq(c) ==> a.Lt(c)
    ensures a.Leq(b) && b.Lt(c) ==> a.Lt(c)
    ensures a.Cmp(b) == Equal <==> a.Eq(b)
    ensures a.Cmp(b) == Equal ==> a.Cmp(c) == b.Cmp(c)
  {
  }

  datatype Neighbor<+L> = Neighbor(pointer: ItemPointer, distance: Distance, labels: Option<L>)

  function PointersOf<L>(s: seq<Neighbor<L>>): (r: seq<ItemPointer>)
    ensures |r| == |s| && forall i :: 0 <= i < |s| ==> r[i] == s[i].pointer
  {
    seq(|s|, i requires 0 <= i < |s| => s[i].pointer)
  }
}
