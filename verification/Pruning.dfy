/** Robust pruning of a candidate list: repeated passes with a growing alpha,
    in which a chosen neighbour occludes later candidates that are much closer
    to it than to the point, unless they carry labels it lacks. */
module Pruning {
  import opened Pointers
  import opened Labels
  import opened Sequences

  type Candidate = Neighbor<LabelSet>

  datatype Params = Params(
    maxAlpha: real,
    limit: nat,
    labels: Option<LabelSet>,
    between: (ItemPointer, ItemPointer) -> Magnitude)

  /** With source labels, the labels of every candidate are read. */
  ghost predicate LabelsKnown(p: Params, s: seq<Candidate>) {
    p.labels.Some? ==> forall i :: 0 <= i < |s| ==> s[i].labels.Some?
  }

  // ----- sorting by distance (Vec::sort, which is stable) -----

  function Insert(c: Candidate, s: seq<Candidate>): seq<Candidate> {
    if s == [] || c.distance.Leq(s[0].distance) then [c] + s else [s[0]] + Insert(c, s[1..])
  }

  function Sort(s: seq<Candidate>): seq<Candidate> {
    if s == [] then [] else Insert(s[0], Sort(s[1..]))
  }

  ghost predicate Sorted(s: seq<Candidate>) {
    forall i, j :: 0 <= i < j < |s| ==> s[i].distance.Leq(s[j].distance)
  }

  lemma {:induction false} InsertSorts(c: Candidate, s: seq<Candidate>)
    requires Sorted(s)
    ensures Sorted(Insert(c, s)) && |Insert(c, s)| == |s| + 1
    ensures forall x :: x in Insert(c, s) <==> x == c || x in s
  {
    hide FactorOf;
    if s == [] {
    } else if c.distance.Leq(s[0].distance) {
      forall i | 0 <= i < |s| ensures c.distance.Leq(s[i].distance) {
        CmpIsTotalPreorder(c.distance, s[0].distance, s[i].distance);
      }
    } else {
      InsertSorts(c, s[1..]);
      var t := Insert(c, s[1..]);
      CmpIsTotalPreorder(s[0].distance, c.distance, c.distance);
      forall i | 0 <= i < |t| ensures s[0].distance.Leq(t[i].distance) {
        assert t[i] in t;
      }
    }
  }

  lemma {:induction false} SortSorts(s: seq<Candidate>)
    ensures Sorted(Sort(s)) && |Sort(s)| == |s|
    ensures forall x :: x in Sort(s) <==> x in s
  {
    hide Sorted;
    if s != [] {
      SortSorts(s[1..]);
      InsertSorts(s[0], Sort(s[1..]));
    } else {
      EmptyIsSorted();
    }
  }

  lemma EmptyIsSorted()
    ensures Sorted([])
  {
  }

  /** The candidates that are exactly as close as `e`, in order. */
  function Ties(s: seq<Candidate>, e: Candidate): seq<Candidate> {
    if s == [] then []
    else (if s[0].distance.Cmp(e.distance) == Equal then [s[0]] else []) + Ties(s[1..], e)
  }

  lemma TiesFirst(c: Candidate, s: seq<Candidate>, e: Candidate)
    ensures Ties([c] + s, e) == (if c.distance.Cmp(e.distance) == Equal then [c] else []) + Ties(s, e)
  {
    assert ([c] + s)[1..] == s;
  }

  lemma {:induction false} InsertIsStable(c: Candidate, s: seq<Candidate>, e: Candidate)
    ensures Ties(Insert(c, s), e) == Ties([c] + s, e)
  {
    hide Ties, Distance.Cmp, Distance.Leq;
    if s == [] || c.distance.Leq(s[0].distance) {
    } else {
      InsertIsStable(c, s[1..], e);
      TiesFirst(s[0], Insert(c, s[1..]), e);
      TiesFirst(c, s[1..], e);
      TiesFirst(c, s, e);
      TiesFirst(s[0], s[1..], e);
      assert s == [s[0]] + s[1..];
      NotBothTied(c, s[0], e);
    }
  }

  lemma NotBothTied(c: Candidate, d: Candidate, e: Candidate)
    requires !c.distance.Leq(d.distance)
    ensures c.distance.Cmp(e.distance) != Equal || d.distance.Cmp(e.distance) != Equal
  {
  }

  /** The sort is stable: candidates that tie keep their order. With SortSorts
      this determines the sorted list. */
  lemma {:induction false} SortIsStable(s: seq<Candidate>, e: Candidate)
    ensures Ties(Sort(s), e) == Ties(s, e)
  {
    hide Ties, Distance.Cmp, Distance.Leq;
    if s == [] {
    } else {
      SortIsStable(s[1..], e);
      InsertIsStable(s[0], Sort(s[1..]), e);
      TiesFirst(s[0], Sort(s[1..]), e);
      TiesFirst(s[0], s[1..], e);
      assert s == [s[0]] + s[1..];
    }
  }

  lemma SortKeepsLabels(p: Params, s: seq<Candidate>)
    requires LabelsKnown(p, s)
    ensures LabelsKnown(p, Sort(s))
  {
    hide Sorted;
    SortSorts(s);
    assert forall i :: 0 <= i < |Sort(s)| ==> Sort(s)[i] in s;
  }

  // ----- one comparison -----

  ghost predicate MayOcclude(p: Params, existing: Candidate, candidate: Candidate)
    requires p.labels.Some? ==> existing.labels.Some? && candidate.labels.Some?
  {
    p.labels.Some? ==> Covers(existing.labels.value, candidate.labels.value, p.labels.value)
  }

  function FactorOf(p: Params, existing: Candidate, candidate: Candidate): Factor {
    candidate.distance.GetFactor(
      NewDistance(p.between(existing.pointer, candidate.pointer), candidate.pointer, existing.pointer))
  }

  // ----- the passes as functions of the loop state -----

  datatype Progress = Progress(factors: seq<Factor>, chosen: seq<nat>)

  /** The factor of candidate `j` once candidate `i` has been chosen. `skip`
      is the test that leaves out candidates already beyond the largest alpha. */
  ghost function FactorAfter(p: Params, s: seq<Candidate>, fs: seq<Factor>, i: nat, j: nat, skip: bool): Factor
    requires |fs| == |s| && i < |s| && j < |s| && LabelsKnown(p, s)
  {
    if j < i then fs[j]
    else if j == i then Infinite
    else if skip && fs[j].Exceeds(p.maxAlpha) then fs[j]
    else if MayOcclude(p, s[i], s[j]) then fs[j].Max(FactorOf(p, s[i], s[j]))
    else fs[j]
  }

  ghost function Choose(p: Params, s: seq<Candidate>, st: Progress, i: nat, skip: bool): (r: Progress)
    requires |st.factors| == |s| && i < |s| && LabelsKnown(p, s)
    ensures |r.factors| == |s| && r.chosen == st.chosen + [i]
    ensures forall j :: 0 <= j < |s| ==> r.factors[j] == FactorAfter(p, s, st.factors, i, j, skip)
  {
    Progress(seq(|s|, j requires 0 <= j < |s| => FactorAfter(p, s, st.factors, i, j, skip)), st.chosen + [i])
  }

  ghost function Pass(p: Params, s: seq<Candidate>, alpha: real, i: nat, st: Progress, skip: bool): (r: Progress)
    requires |st.factors| == |s| && i <= |s| && LabelsKnown(p, s)
    ensures |r.factors| == |s|
    decreases |s| - i
  {
    if i == |s| || |st.chosen| >= p.limit then st
    else if st.factors[i].Exceeds(alpha) then Pass(p, s, alpha, i + 1, st, skip)
    else Pass(p, s, alpha, i + 1, Choose(p, s, st, i, skip), skip)
  }

  ghost function Passes(p: Params, s: seq<Candidate>, alpha: real, st: Progress, skip: bool): (r: Progress)
    requires |st.factors| == |s| && LabelsKnown(p, s) && alpha >= 1.0
    ensures |r.factors| == |s|
    decreases (p.maxAlpha - alpha) * 5.0
  {
    if alpha <= p.maxAlpha && |st.chosen| < p.limit then
      Passes(p, s, alpha * 1.2, Pass(p, s, alpha, 0, st, skip), skip)
    else st
  }

  function Start(n: nat): Progress {
    Progress(seq(n, _ => Finite(0.0)), [])
  }

  /** Positions chosen from the sorted candidates, in the order of choice. */
  ghost function Selection(p: Params, s: seq<Candidate>, skip: bool): seq<nat>
    requires LabelsKnown(p, s)
  {
    Passes(p, s, 1.0, Start(|s|), skip).chosen
  }

  ghost predicate InRange(chosen: seq<nat>, n: nat) {
    forall k :: 0 <= k < |chosen| ==> chosen[k] < n
  }

  ghost function At(s: seq<Candidate>, chosen: seq<nat>): (r: seq<Candidate>)
    requires InRange(chosen, |s|)
    ensures |r| == |chosen|
    ensures forall j :: j in chosen ==> s[j] in r
  {
    var r := seq(|chosen|, k requires 0 <= k < |chosen| => s[chosen[k]]);
    assert forall k :: 0 <= k < |chosen| ==> r[k] == s[chosen[k]];
    r
  }

  // ----- what every pass keeps -----

  ghost predicate Occludes(p: Params, s: seq<Candidate>, i: nat, j: nat)
    requires LabelsKnown(p, s)
  {
    i < j < |s| && MayOcclude(p, s[i], s[j])
  }

  /** Candidate `i` rules out the later candidate `j` at level `alpha`. */
  ghost predicate Dominates(p: Params, s: seq<Candidate>, i: nat, j: nat, alpha: real)
    requires LabelsKnown(p, s)
  {
    Occludes(p, s, i, j) && FactorOf(p, s[i], s[j]).Exceeds(alpha)
  }

  ghost predicate WellFormed(p: Params, s: seq<Candidate>, st: Progress) {
    && |st.factors| == |s|
    && |st.chosen| <= p.limit
    && Distinct(st.chosen)
    && forall i :: i in st.chosen ==> i < |s| && st.factors[i] == Infinite
  }

  /** A factor above zero comes from a chosen, earlier, occluding neighbour. */
  ghost predicate Blamed(p: Params, s: seq<Candidate>, st: Progress)
    requires |st.factors| == |s| && LabelsKnown(p, s)
  {
    forall j :: 0 <= j < |s| && j !in st.chosen && st.factors[j] != Finite(0.0) ==>
      exists i :: i in st.chosen && Occludes(p, s, i, j) && st.factors[j] == FactorOf(p, s[i], s[j])
  }

  /** The factors record everything the chosen neighbours occlude. */
  ghost predicate Recorded(p: Params, s: seq<Candidate>, st: Progress)
    requires |st.factors| == |s| && LabelsKnown(p, s)
  {
    forall i, j, a ::
      i in st.chosen && 0 <= j < |s| && j !in st.chosen && a <= p.maxAlpha && Dominates(p, s, i, j, a) ==>
        st.factors[j].Exceeds(a)
  }

  /** No chosen neighbour is dominated by one chosen before it. */
  ghost predicate Spaced(p: Params, s: seq<Candidate>, chosen: seq<nat>, alpha: real)
    requires LabelsKnown(p, s)
  {
    forall k, m :: 0 <= k < m < |chosen| ==> !Dominates(p, s, chosen[k], chosen[m], alpha)
  }

  ghost predicate Inv(p: Params, s: seq<Candidate>, st: Progress, alpha: real)
    requires LabelsKnown(p, s)
  {
    && WellFormed(p, s, st)
    && Blamed(p, s, st)
    && Recorded(p, s, st)
    && Spaced(p, s, st.chosen, alpha)
  }

  lemma ChooseKeepsInv(p: Params, s: seq<Candidate>, st: Progress, i: nat, alpha: real, skip: bool)
    requires LabelsKnown(p, s) && Inv(p, s, st, alpha)
    requires i < |s| && |st.chosen| < p.limit && alpha <= p.maxAlpha && !st.factors[i].Exceeds(alpha)
    ensures Inv(p, s, Choose(p, s, st, i, skip), alpha)
  {
    hide FactorOf, MayOcclude;
    var r := Choose(p, s, st, i, skip);
    assert i !in st.chosen;
    assert Blamed(p, s, r) by {
      forall j | 0 <= j < |s| && j !in r.chosen && r.factors[j] != Finite(0.0)
        ensures exists k :: k in r.chosen && Occludes(p, s, k, j) && r.factors[j] == FactorOf(p, s[k], s[j])
      {
        if r.factors[j] == st.factors[j] {
          var k :| k in st.chosen && Occludes(p, s, k, j) && st.factors[j] == FactorOf(p, s[k], s[j]);
          assert k in r.chosen;
        } else {
          assert i in r.chosen && Occludes(p, s, i, j);
        }
      }
    }
    assert Recorded(p, s, r) by {
      forall k, j, a | k in r.chosen && 0 <= j < |s| && j !in r.chosen && a <= p.maxAlpha && Dominates(p, s, k, j, a)
        ensures r.factors[j].Exceeds(a)
      {
        if k != i {
          assert k in st.chosen && st.factors[j].Exceeds(a);
        }
      }
    }
    forall k, m | 0 <= k < m < |r.chosen|
      ensures !Dominates(p, s, r.chosen[k], r.chosen[m], alpha)
    {
      if m == |st.chosen| {
        assert r.chosen[m] == i && r.chosen[k] in st.chosen;
      }
    }
  }

  lemma {:induction false} PassKeepsInv(p: Params, s: seq<Candidate>, alpha: real, i: nat, st: Progress, skip: bool)
    requires LabelsKnown(p, s) && i <= |s| && alpha <= p.maxAlpha && Inv(p, s, st, alpha)
    ensures Inv(p, s, Pass(p, s, alpha, i, st, skip), alpha)
    decreases |s| - i
  {
    hide Blamed, Recorded, Spaced, Distinct, Choose, FactorAfter;
    if i == |s| || |st.chosen| >= p.limit {
    } else if st.factors[i].Exceeds(alpha) {
      PassKeepsInv(p, s, alpha, i + 1, st, skip);
    } else {
      ChooseKeepsInv(p, s, st, i, alpha, skip);
      PassKeepsInv(p, s, alpha, i + 1, Choose(p, s, st, i, skip), skip);
    }
  }

  /** A pass that does not fill the list leaves behind only candidates whose
      factor is above its alpha. */
  lemma {:induction false} PassClears(p: Params, s: seq<Candidate>, alpha: real, i: nat, st: Progress, skip: bool)
    requires LabelsKnown(p, s) && i <= |s| && |st.factors| == |s|
    ensures var r := Pass(p, s, alpha, i, st, skip);
      && st.chosen <= r.chosen
      && (forall j :: 0 <= j < |s| && st.factors[j].Exceeds(alpha) ==> r.factors[j].Exceeds(alpha))
      && (|r.chosen| < p.limit ==> forall j :: i <= j < |s| ==> r.factors[j].Exceeds(alpha))
    decreases |s| - i
  {
    hide FactorOf, MayOcclude;
    if i == |s| || |st.chosen| >= p.limit {
    } else if st.factors[i].Exceeds(alpha) {
      PassClears(p, s, alpha, i + 1, st, skip);
    } else {
      PassClears(p, s, alpha, i + 1, Choose(p, s, st, i, skip), skip);
    }
  }

  // ----- the last alpha tried -----

  function Power(k: nat): real {
    if k == 0 then 1.0 else Power(k - 1) * 1.2
  }

  /** `a` is the largest power of 1.2 that does not exceed the maximum. */
  ghost predicate LastAlpha(maxAlpha: real, a: real) {
    exists k: nat :: Power(k) == a && a <= maxAlpha < Power(k + 1)
  }

  lemma {:induction false} PassesCertify(p: Params, s: seq<Candidate>, k: nat, before: real, st: Progress, skip: bool)
    returns (last: real)
    requires LabelsKnown(p, s) && Power(k) >= 1.0
    requires before <= Power(k) && Inv(p, s, st, before)
    requires Power(k) > p.maxAlpha ==> k > 0 && before == Power(k - 1) <= p.maxAlpha
    requires k > 0 ==> (|st.chosen| < p.limit ==> forall j :: 0 <= j < |s| ==> st.factors[j].Exceeds(before))
    ensures LastAlpha(p.maxAlpha, last)
    ensures Inv(p, s, Passes(p, s, Power(k), st, skip), last)
    ensures |Passes(p, s, Power(k), st, skip).chosen| < p.limit ==>
      forall j :: 0 <= j < |s| ==> Passes(p, s, Power(k), st, skip).factors[j].Exceeds(last)
    decreases (p.maxAlpha - Power(k)) * 5.0
  {
    var alpha := Power(k);
    if alpha <= p.maxAlpha {
      var next := if |st.chosen| < p.limit then Pass(p, s, alpha, 0, st, skip) else st;
      if |st.chosen| < p.limit {
        PassKeepsInv(p, s, alpha, 0, st, skip);
        PassClears(p, s, alpha, 0, st, skip);
      }
      assert Power(k + 1) == alpha * 1.2;
      last := PassesCertify(p, s, k + 1, alpha, next, skip);
    } else {
      last := before;
      assert Power(k - 1) == last && last <= p.maxAlpha < Power(k - 1 + 1);
    }
  }

  lemma StartInv(p: Params, s: seq<Candidate>, alpha: real)
    requires LabelsKnown(p, s)
    ensures Inv(p, s, Start(|s|), alpha)
  {
  }

  /** The candidate `c` is more than `alpha` times closer to the neighbour `d` than
      to the point. Below EPSILON distances count as zero, and if both do, the
      places of the nodes decide. */
  ghost predicate TooClose(p: Params, d: Candidate, c: Candidate, alpha: real) {
    var gap, apart := p.between(d.pointer, c.pointer), IpDistance(c.pointer, d.pointer);
    if gap >= EPSILON then c.distance.value > alpha * gap
    else if c.distance.value >= EPSILON then true
    else if apart > 0 then c.distance.TieBreak() as real > alpha * apart as real
    else c.distance.TieBreak() > 0
  }

  lemma FactorIsTooClose(p: Params, d: Candidate, c: Candidate, alpha: real)
    requires alpha >= 0.0
    ensures FactorOf(p, d, c).Exceeds(alpha) <==> TooClose(p, d, c, alpha)
  {
    var gap := NewDistance(p.between(d.pointer, c.pointer), c.pointer, d.pointer);
    hide Distance.GetFactor;
    FactorMeans(c.distance, gap, alpha);
  }

  /** Candidate `i` rules out the later candidate `j`: `j` is much closer to it
      than to the point, and it has every label of `j` that matters. */
  ghost predicate RulesOut(p: Params, s: seq<Candidate>, i: nat, j: nat, alpha: real)
    requires LabelsKnown(p, s)
  {
    Occludes(p, s, i, j) && TooClose(p, s[i], s[j], alpha)
  }

  lemma DominatesMeans(p: Params, s: seq<Candidate>, i: nat, j: nat, alpha: real)
    requires LabelsKnown(p, s) && alpha >= 0.0
    ensures Dominates(p, s, i, j, alpha) <==> RulesOut(p, s, i, j, alpha)
  {
    hide FactorOf, TooClose, MayOcclude;
    if i < |s| && j < |s| {
      FactorIsTooClose(p, s[i], s[j], alpha);
    }
  }

  /** No chosen neighbour is ruled out by one chosen before it. */
  ghost predicate Separated(p: Params, s: seq<Candidate>, chosen: seq<nat>, alpha: real)
    requires LabelsKnown(p, s)
  {
    forall k, m :: 0 <= k < m < |chosen| ==> !RulesOut(p, s, chosen[k], chosen[m], alpha)
  }

  /** The certificate: everything left out is ruled out by something kept. */
  ghost predicate Dominated(p: Params, s: seq<Candidate>, chosen: seq<nat>, alpha: real)
    requires LabelsKnown(p, s)
  {
    forall j :: 0 <= j < |s| && j !in chosen ==> exists i :: i in chosen && RulesOut(p, s, i, j, alpha)
  }

  /** The certificate of a pruning run. The chosen positions are distinct and
      within the degree bound; none is ruled out, at the last alpha, by one
      chosen before it; and when the bound is not reached every candidate left
      out is ruled out, at the last alpha, by a chosen one that sorts earlier. */
  lemma SelectionCertificate(p: Params, s: seq<Candidate>, skip: bool) returns (last: real)
    requires LabelsKnown(p, s) && p.maxAlpha >= 1.0
    ensures LastAlpha(p.maxAlpha, last) && last >= 1.0
    ensures var chosen := Selection(p, s, skip);
      && InRange(chosen, |s|)
      && Distinct(chosen)
      && |chosen| <= p.limit
      && Separated(p, s, chosen, last)
      && (|chosen| < p.limit ==> Dominated(p, s, chosen, last))
  {
    StartInv(p, s, 1.0);
    assert Power(0) == 1.0;
    last := PassesCertify(p, s, 0, 1.0, Start(|s|), skip);
    var r := Passes(p, s, 1.0, Start(|s|), skip);
    hide FactorOf, MayOcclude, TooClose;
    assert forall k :: 0 <= k < |r.chosen| ==> r.chosen[k] in r.chosen;
    var k :| Power(k) == last && last <= p.maxAlpha;
    PowerGrows(k);
    forall k, m | 0 <= k < m < |r.chosen| ensures !RulesOut(p, s, r.chosen[k], r.chosen[m], last) {
      DominatesMeans(p, s, r.chosen[k], r.chosen[m], last);
    }
    if |r.chosen| < p.limit {
      forall j | 0 <= j < |s| && j !in r.chosen
        ensures exists i :: i in r.chosen && RulesOut(p, s, i, j, last)
      {
        assert r.factors[j].Exceeds(last);
        var i :| i in r.chosen && Occludes(p, s, i, j) && r.factors[j] == FactorOf(p, s[i], s[j]);
        DominatesMeans(p, s, i, j, last);
        assert RulesOut(p, s, i, j, last);
      }
    }
  }

  lemma {:induction false} PowerGrows(k: nat)
    ensures Power(k) >= 1.0
  {
    if k == 0 {
    } else {
      PowerGrows(k - 1);
    }
  }

  // ----- the greedy rule that the factors implement -----

  /** One sweep at `alpha` over the candidates in order: take each one that has
      not been taken and that nothing taken rules out, while there is room. */
  ghost function Sweep(p: Params, s: seq<Candidate>, alpha: real, i: nat, taken: seq<nat>): seq<nat>
    requires LabelsKnown(p, s) && i <= |s|
    decreases |s| - i
  {
    if i == |s| || |taken| >= p.limit then taken
    else if i in taken || exists k :: k in taken && RulesOut(p, s, k, i, alpha) then Sweep(p, s, alpha, i + 1, taken)
    else Sweep(p, s, alpha, i + 1, taken + [i])
  }

  /** Sweeps from `alpha` on, each at 1.2 times the alpha before, as long as there
      is room and the largest alpha is not exceeded. */
  ghost function Sweeps(p: Params, s: seq<Candidate>, alpha: real, taken: seq<nat>): seq<nat>
    requires LabelsKnown(p, s) && alpha >= 1.0
    decreases (p.maxAlpha - alpha) * 5.0
  {
    if alpha <= p.maxAlpha && |taken| < p.limit then Sweeps(p, s, alpha * 1.2, Sweep(p, s, alpha, 0, taken))
    else taken
  }

  /** With its factors, the loop tests exactly what the greedy rule asks. */
  lemma FactorTest(p: Params, s: seq<Candidate>, st: Progress, alpha: real, i: nat)
    requires LabelsKnown(p, s) && Inv(p, s, st, alpha) && i < |s| && 1.0 <= alpha <= p.maxAlpha
    ensures st.factors[i].Exceeds(alpha) <==>
      i in st.chosen || exists k :: k in st.chosen && RulesOut(p, s, k, i, alpha)
  {
    hide FactorOf, MayOcclude, TooClose, Distinct, Spaced;
    if i !in st.chosen && st.factors[i].Exceeds(alpha) {
      var k :| k in st.chosen && Occludes(p, s, k, i) && st.factors[i] == FactorOf(p, s[k], s[i]);
      DominatesMeans(p, s, k, i, alpha);
      assert RulesOut(p, s, k, i, alpha);
    }
    if k :| k in st.chosen && RulesOut(p, s, k, i, alpha) {
      DominatesMeans(p, s, k, i, alpha);
      if i !in st.chosen {
        assert Dominates(p, s, k, i, alpha);
      }
    }
  }

  lemma {:induction false} PassIsSweep(p: Params, s: seq<Candidate>, alpha: real, i: nat, st: Progress, skip: bool)
    requires LabelsKnown(p, s) && i <= |s| && 1.0 <= alpha <= p.maxAlpha && Inv(p, s, st, alpha)
    ensures Pass(p, s, alpha, i, st, skip).chosen == Sweep(p, s, alpha, i, st.chosen)
    decreases |s| - i
  {
    hide Blamed, Recorded, Spaced, Distinct, FactorAfter, RulesOut;
    if i == |s| || |st.chosen| >= p.limit {
    } else {
      FactorTest(p, s, st, alpha, i);
      if st.factors[i].Exceeds(alpha) {
        PassIsSweep(p, s, alpha, i + 1, st, skip);
      } else {
        ChooseKeepsInv(p, s, st, i, alpha, skip);
        PassIsSweep(p, s, alpha, i + 1, Choose(p, s, st, i, skip), skip);
      }
    }
  }

  lemma SpacedFurther(p: Params, s: seq<Candidate>, st: Progress, a: real, b: real)
    requires LabelsKnown(p, s) && Inv(p, s, st, a) && a <= b
    ensures Inv(p, s, st, b)
  {
  }

  lemma {:induction false} PassesAreSweeps(p: Params, s: seq<Candidate>, alpha: real, st: Progress, skip: bool)
    requires LabelsKnown(p, s) && alpha >= 1.0 && Inv(p, s, st, alpha)
    ensures Passes(p, s, alpha, st, skip).chosen == Sweeps(p, s, alpha, st.chosen)
    decreases (p.maxAlpha - alpha) * 5.0
  {
    hide Blamed, Recorded, Spaced, Distinct, FactorAfter, RulesOut, Choose;
    if alpha > p.maxAlpha || |st.chosen| >= p.limit {
    } else {
      PassIsSweep(p, s, alpha, 0, st, skip);
      PassKeepsInv(p, s, alpha, 0, st, skip);
      var next := Pass(p, s, alpha, 0, st, skip);
      SpacedFurther(p, s, next, alpha, alpha * 1.2);
      PassesAreSweeps(p, s, alpha * 1.2, next, skip);
    }
  }

  /** The bookkeeping with factors refines the plain rule: sweep over the sorted
      candidates at 1, then 1.2, then 1.44 and so on up to the largest alpha, and
      take what nothing taken before rules out, until the bound is reached. */
  lemma SelectionIsGreedy(p: Params, s: seq<Candidate>, skip: bool)
    requires LabelsKnown(p, s)
    ensures Selection(p, s, skip) == Sweeps(p, s, 1.0, [])
  {
    StartInv(p, s, 1.0);
    PassesAreSweeps(p, s, 1.0, Start(|s|), skip);
  }

  /** The pruned list is what the rule takes, in the order of taking. */
  lemma PruneIsGreedy(p: Params, candidates: seq<Candidate>)
    requires LabelsKnown(p, candidates)
    ensures LabelsKnown(p, Sort(candidates))
    ensures var s, kept := Sort(candidates), Prune(p, candidates);
      var taken := Sweeps(p, s, 1.0, []);
      |kept| == |taken| && forall k :: 0 <= k < |kept| ==> taken[k] < |s| && kept[k] == s[taken[k]]
  {
    hide Selection, Sweeps;
    SortKeepsLabels(p, candidates);
    SelectionInRange(p, Sort(candidates), true);
    SelectionIsGreedy(p, Sort(candidates), true);
  }

  // ----- the skip of hopeless candidates changes nothing -----

  ghost predicate Alike(maxAlpha: real, f: Factor, g: Factor) {
    f == g || (f.Exceeds(maxAlpha) && g.Exceeds(maxAlpha))
  }

  ghost predicate SameProgress(p: Params, a: Progress, b: Progress) {
    && a.chosen == b.chosen
    && |a.factors| == |b.factors|
    && forall j :: 0 <= j < |a.factors| ==> Alike(p.maxAlpha, a.factors[j], b.factors[j])
  }

  lemma {:induction false} PassIgnoresSkip(p: Params, s: seq<Candidate>, alpha: real, i: nat, a: Progress, b: Progress)
    requires LabelsKnown(p, s) && i <= |s| == |a.factors| && alpha <= p.maxAlpha && SameProgress(p, a, b)
    ensures SameProgress(p, Pass(p, s, alpha, i, a, true), Pass(p, s, alpha, i, b, false))
    decreases |s| - i
  {
    if i == |s| || |a.chosen| >= p.limit {
    } else {
      assert Alike(p.maxAlpha, a.factors[i], b.factors[i]);
      if a.factors[i].Exceeds(alpha) {
        PassIgnoresSkip(p, s, alpha, i + 1, a, b);
      } else {
        PassIgnoresSkip(p, s, alpha, i + 1, Choose(p, s, a, i, true), Choose(p, s, b, i, false));
      }
    }
  }

  lemma {:induction false} PassesIgnoreSkip(p: Params, s: seq<Candidate>, alpha: real, a: Progress, b: Progress)
    requires LabelsKnown(p, s) && |s| == |a.factors| && alpha >= 1.0 && SameProgress(p, a, b)
    ensures SameProgress(p, Passes(p, s, alpha, a, true), Passes(p, s, alpha, b, false))
    decreases (p.maxAlpha - alpha) * 5.0
  {
    if alpha > p.maxAlpha || |a.chosen| >= p.limit {
    } else {
      PassIgnoresSkip(p, s, alpha, 0, a, b);
      PassesIgnoreSkip(p, s, alpha * 1.2, Pass(p, s, alpha, 0, a, true), Pass(p, s, alpha, 0, b, false));
    }
  }

  /** Leaving out candidates already beyond the largest alpha is an
      optimisation only: the choice and its order stay the same. */
  lemma SkipIsHarmless(p: Params, s: seq<Candidate>)
    requires LabelsKnown(p, s)
    ensures Selection(p, s, true) == Selection(p, s, false)
  {
    PassesIgnoreSkip(p, s, 1.0, Start(|s|), Start(|s|));
  }

  // ----- the pruned list -----

  lemma SelectionInRange(p: Params, s: seq<Candidate>, skip: bool)
    requires LabelsKnown(p, s)
    ensures InRange(Selection(p, s, skip), |s|)
    ensures Distinct(Selection(p, s, skip)) && |Selection(p, s, skip)| <= p.limit
  {
    if p.maxAlpha >= 1.0 {
      var _ := SelectionCertificate(p, s, skip);
    }
  }

  /** The neighbours that survive pruning, in the order of choice. */
  ghost function Prune(p: Params, candidates: seq<Candidate>): seq<Candidate>
    requires LabelsKnown(p, candidates)
  {
    SortKeepsLabels(p, candidates);
    var s := Sort(candidates);
    SelectionInRange(p, s, true);
    At(s, Selection(p, s, true))
  }

  ghost predicate DistinctPointers(s: seq<Candidate>) {
    forall i, j :: 0 <= i < j < |s| ==> s[i].pointer != s[j].pointer
  }

  lemma {:induction false} InsertKeepsDistinct(c: Candidate, s: seq<Candidate>)
    requires DistinctPointers([c] + s)
    ensures DistinctPointers(Insert(c, s))
    ensures forall x :: x in Insert(c, s) <==> x == c || x in s
  {
    hide Distance.Leq;
    if s == [] || c.distance.Leq(s[0].distance) {
    } else {
      assert [c] + s == [c, s[0]] + s[1..];
      var u, v := [c] + s[1..], [c] + s;
      forall i, j | 0 <= i < j < |u| ensures u[i].pointer != u[j].pointer {
        assert u[j] == v[j + 1] && u[i] == if i == 0 then v[0] else v[i + 1];
      }
      InsertKeepsDistinct(c, s[1..]);
      var t := Insert(c, s[1..]);
      assert s == [s[0]] + s[1..];
      forall i | 0 <= i < |t| ensures t[i].pointer != s[0].pointer {
        assert t[i] in t;
        assert ([c] + s)[0] == c && ([c] + s)[1] == s[0];
        if t[i] != c {
          var k :| 0 <= k < |s[1..]| && s[1..][k] == t[i];
          assert ([c] + s)[k + 2] == t[i];
        }
      }
    }
  }

  lemma {:induction false} SortKeepsDistinct(s: seq<Candidate>)
    requires DistinctPointers(s)
    ensures DistinctPointers(Sort(s))
    ensures forall x :: x in Sort(s) <==> x in s
  {
    if s == [] {
    } else {
      assert s == [s[0]] + s[1..];
      SortKeepsDistinct(s[1..]);
      var t := Sort(s[1..]);
      forall i | 0 <= i < |t| ensures t[i].pointer != s[0].pointer {
        assert t[i] in t;
      }
      InsertKeepsDistinct(s[0], t);
    }
  }

  /** For every input, pruning returns candidates only, within the degree
      bound, and repeats no pointer that the candidates did not repeat. */
  lemma PruneSelects(p: Params, candidates: seq<Candidate>)
    requires LabelsKnown(p, candidates)
    ensures |Prune(p, candidates)| <= p.limit
    ensures forall c :: c in Prune(p, candidates) ==> c in candidates
    ensures DistinctPointers(candidates) ==> DistinctPointers(Prune(p, candidates))
  {
    SortKeepsLabels(p, candidates);
    SortSorts(candidates);
    var s := Sort(candidates);
    SelectionInRange(p, s, true);
    forall c | c in Prune(p, candidates) ensures c in candidates {
    }
    if DistinctPointers(candidates) {
      SortKeepsDistinct(candidates);
      var chosen := Selection(p, s, true);
      forall k, m | 0 <= k < m < |chosen| ensures s[chosen[k]].pointer != s[chosen[m]].pointer {
        if chosen[m] < chosen[k] {
          assert s[chosen[m]].pointer != s[chosen[k]].pointer;
        }
      }
    }
  }

  /** `c` was left out because the kept `d`, which is no farther away, is much
      closer to it, and has every label that matters for it. */
  ghost predicate RuledOutBy(p: Params, c: Candidate, d: Candidate, alpha: real) {
    && (p.labels.Some? ==> c.labels.Some? && d.labels.Some?)
    && d.distance.Leq(c.distance)
    && MayOcclude(p, d, c)
    && TooClose(p, d, c, alpha)
  }

  lemma RulesOutMeans(p: Params, s: seq<Candidate>, i: nat, j: nat, alpha: real)
    requires LabelsKnown(p, s) && Sorted(s) && RulesOut(p, s, i, j, alpha)
    ensures i < j < |s| && RuledOutBy(p, s[j], s[i], alpha)
  {
    hide TooClose, MayOcclude, Distance.Leq;
  }

  lemma KeptInOrder(p: Params, s: seq<Candidate>, chosen: seq<nat>, k: nat, m: nat, alpha: real)
    requires LabelsKnown(p, s) && Sorted(s) && InRange(chosen, |s|) && Separated(p, s, chosen, alpha)
    requires k < m < |chosen| && s[chosen[k]].distance.Lt(s[chosen[m]].distance)
    ensures !RuledOutBy(p, s[chosen[m]], s[chosen[k]], alpha)
  {
    hide TooClose, MayOcclude, Distance.Leq, Distance.Lt;
    var d, c := s[chosen[k]].distance, s[chosen[m]].distance;
    CmpMeans(d, c);
    CmpMeans(c, d);
    CmpIsTotalPreorder(c, d, d);
    assert chosen[m] < chosen[k] ==> c.Leq(d);
    assert !RulesOut(p, s, chosen[k], chosen[m], alpha);
  }

  /** The certificate in terms of the lists: a kept neighbour is not ruled out by a
      closer one kept before it; and when pruning returns fewer than `limit`
      neighbours, each dropped candidate is ruled out by a kept one. */
  lemma PruneCertificate(p: Params, candidates: seq<Candidate>) returns (last: real)
    requires LabelsKnown(p, candidates) && p.maxAlpha >= 1.0
    ensures LastAlpha(p.maxAlpha, last) && last >= 1.0
    ensures var kept := Prune(p, candidates);
      forall k, m :: 0 <= k < m < |kept| && kept[k].distance.Lt(kept[m].distance) ==>
        !RuledOutBy(p, kept[m], kept[k], last)
    ensures |Prune(p, candidates)| < p.limit ==>
      forall c :: c in candidates && c !in Prune(p, candidates) ==>
        exists d :: d in Prune(p, candidates) && RuledOutBy(p, c, d, last)
  {
    hide TooClose, MayOcclude, Selection, Sorted, Separated, Distinct, RulesOut, RuledOutBy, Distance.Leq, LastAlpha;
    SortKeepsLabels(p, candidates);
    SortSorts(candidates);
    var s := Sort(candidates);
    last := SelectionCertificate(p, s, true);
    var chosen := Selection(p, s, true);
    var kept := Prune(p, candidates);
    forall k, m | 0 <= k < m < |kept| && kept[k].distance.Lt(kept[m].distance)
      ensures !RuledOutBy(p, kept[m], kept[k], last)
    {
      KeptInOrder(p, s, chosen, k, m, last);
    }
    if |kept| < p.limit {
      forall c | c in candidates && c !in kept
        ensures exists d :: d in kept && RuledOutBy(p, c, d, last)
      {
        var j :| 0 <= j < |s| && s[j] == c;
        var i :| i in chosen && RulesOut(p, s, i, j, last);
        RulesOutMeans(p, s, i, j, last);
      }
    }
  }

  /** The closest candidate is always kept, and always first. */
  lemma ClosestIsKept(p: Params, candidates: seq<Candidate>)
    requires LabelsKnown(p, candidates) && p.maxAlpha >= 1.0 && p.limit >= 1 && candidates != []
    ensures Prune(p, candidates) != []
    ensures Prune(p, candidates)[0] in candidates
    ensures forall c :: c in candidates ==> Prune(p, candidates)[0].distance.Leq(c.distance)
  {
    hide FactorOf, MayOcclude, Distance.Leq;
    SortKeepsLabels(p, candidates);
    SortSorts(candidates);
    var s := Sort(candidates);
    var st := Start(|s|);
    var first := Choose(p, s, st, 0, true);
    assert Pass(p, s, 1.0, 0, st, true) == Pass(p, s, 1.0, 1, first, true);
    PassClears(p, s, 1.0, 1, first, true);
    PassesExtend(p, s, 1.0 * 1.2, Pass(p, s, 1.0, 0, st, true), true);
    SelectionInRange(p, s, true);
    assert Selection(p, s, true)[0] == 0;
    CmpIsTotalPreorder(s[0].distance, s[0].distance, s[0].distance);
    LeqSelf(s[0].distance);
    assert s[0] in s;
    forall c | c in candidates ensures s[0].distance.Leq(c.distance) {
      var k :| 0 <= k < |s| && s[k] == c;
    }
  }

  lemma LeqSelf(d: Distance)
    ensures d.Leq(d)
  {
  }

  lemma {:induction false} PassesExtend(p: Params, s: seq<Candidate>, alpha: real, st: Progress, skip: bool)
    requires LabelsKnown(p, s) && |st.factors| == |s| && alpha >= 1.0
    ensures st.chosen <= Passes(p, s, alpha, st, skip).chosen
    decreases (p.maxAlpha - alpha) * 5.0
  {
    hide FactorOf, MayOcclude;
    if alpha > p.maxAlpha || |st.chosen| >= p.limit {
    } else {
      PassClears(p, s, alpha, 0, st, skip);
      PassesExtend(p, s, alpha * 1.2, Pass(p, s, alpha, 0, st, skip), skip);
    }
  }

  /** Label coverage: when the degree bound is not reached, every label of the
      source node that some candidate carries is carried by a kept neighbour. */
  lemma LabelCoverage(p: Params, candidates: seq<Candidate>, tag: Label, c: Candidate)
    requires LabelsKnown(p, candidates) && p.maxAlpha >= 1.0
    requires p.labels.Some? && tag in p.labels.value
    requires c in candidates && tag in c.labels.value
    requires |Prune(p, candidates)| < p.limit
    ensures exists d :: d in Prune(p, candidates) && d in candidates && tag in d.labels.value
  {
    var last := PruneCertificate(p, candidates);
    PruneSelects(p, candidates);
    if c !in Prune(p, candidates) {
      var d :| d in Prune(p, candidates) && RuledOutBy(p, c, d, last);
      assert tag in ToSet(c.labels.value) * ToSet(p.labels.value);
    }
  }

  // ----- the loops -----

  /** The inner loop: raise the factors of the candidates after the one just
      chosen. */
  method OccludeTail(p: Params, s: seq<Candidate>, maxFactors: array<Factor>, i: nat)
    requires LabelsKnown(p, s) && maxFactors.Length == |s| && i < |s|
    modifies maxFactors
    ensures forall j :: 0 <= j < |s| ==> maxFactors[j] == FactorAfter(p, s, old(maxFactors[..]), i, j, true)
  {
    ghost var before := maxFactors[..];
    maxFactors[i] := Infinite;
    for j := i + 1 to |s|
      invariant forall k :: 0 <= k < |s| ==>
        maxFactors[k] == if k < j then FactorAfter(p, s, before, i, k, true) else before[k]
    {
      if maxFactors[j].Exceeds(p.maxAlpha) {
        continue;
      }
      if p.labels.Some? {
        var covered := ContainsIntersection(s[i].labels.value, s[j].labels.value, p.labels.value);
        if !covered {
          continue;
        }
      }
      maxFactors[j] := maxFactors[j].Max(FactorOf(p, s[i], s[j]));
    }
  }

  /** prune_neighbors returns `Prune`, whose properties are stated above. */
  method PruneNeighbors(p: Params, candidates: seq<Candidate>) returns (results: seq<Candidate>)
    requires LabelsKnown(p, candidates)
    ensures results == Prune(p, candidates)
  {
    hide FactorOf, MayOcclude, FactorAfter, Sorted;
    var s := Sort(candidates);
    SortKeepsLabels(p, candidates);
    SelectionInRange(p, s, true);
    results := [];
    var maxFactors := new Factor[|s|](_ => Finite(0.0));
    ghost var st := Start(|s|);
    assert maxFactors[..] == st.factors;
    var alpha := 1.0;
    while alpha <= p.maxAlpha && |results| < p.limit
      invariant alpha >= 1.0 && maxFactors[..] == st.factors
      invariant InRange(st.chosen, |s|) && results == At(s, st.chosen)
      invariant Selection(p, s, true) == Passes(p, s, alpha, st, true).chosen
      decreases (p.maxAlpha - alpha) * 5.0
    {
      ghost var whole := Pass(p, s, alpha, 0, st, true);
      for i := 0 to |s|
        invariant maxFactors[..] == st.factors && |st.factors| == |s|
        invariant InRange(st.chosen, |s|) && results == At(s, st.chosen)
        invariant whole == Pass(p, s, alpha, i, st, true)
      {
        if |results| >= p.limit {
          assert Passes(p, s, alpha * 1.2, whole, true) == whole;
          return;
        }
        if maxFactors[i].Exceeds(alpha) {
          continue;
        }
        OccludeTail(p, s, maxFactors, i);
        results := results + [s[i]];
        st := Choose(p, s, st, i, true);
        assert maxFactors[..] == st.factors;
      }
      alpha := alpha * 1.2;
    }
  }
}
