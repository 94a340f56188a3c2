/** When pruning keeps a label of the source node: exactly when fewer candidates
    lack the label than the degree bound has room for. Labels exist only in
    quantized indexes, so all distances here are distances of codes. */
module Coverage {
  import opened Bits
  import opened Codes
  import opened Labels
  import opened Pointers
  import opened Pruning
  import opened Quantizer
  import opened Sequences

  // ----- counting the candidates without a label -----

  predicate Lacks(c: Candidate, tag: Label) {
    c.labels.Some? && tag !in c.labels.value
  }

  /** How many candidates lack the label. */
  function Lacking(s: seq<Candidate>, tag: Label): (n: nat)
    ensures n <= |s|
  {
    if s == [] then 0 else Lacking(s[..|s| - 1], tag) + if Lacks(s[|s| - 1], tag) then 1 else 0
  }

  lemma {:induction false} LackingConcat(a: seq<Candidate>, b: seq<Candidate>, tag: Label)
    ensures Lacking(a + b, tag) == Lacking(a, tag) + Lacking(b, tag)
  {
    if b == [] {
      assert a + b == a;
    } else {
      LackingConcat(a, b[..|b| - 1], tag);
      assert (a + b)[..|a + b| - 1] == a + b[..|b| - 1];
    }
  }

  lemma LackingCons(c: Candidate, s: seq<Candidate>, tag: Label)
    ensures Lacking([c] + s, tag) == Lacking(s, tag) + if Lacks(c, tag) then 1 else 0
  {
    LackingConcat([c], s, tag);
    assert [c][..0] == [];
  }

  lemma {:induction false} LackingInsert(c: Candidate, s: seq<Candidate>, tag: Label)
    ensures Lacking(Pruning.Insert(c, s), tag) == Lacking(s, tag) + if Lacks(c, tag) then 1 else 0
  {
    hide Lacking, Distance.Leq;
    if s == [] || c.distance.Leq(s[0].distance) {
      LackingCons(c, s, tag);
    } else {
      LackingInsert(c, s[1..], tag);
      LackingCons(s[0], Pruning.Insert(c, s[1..]), tag);
      LackingCons(s[0], s[1..], tag);
      assert s == [s[0]] + s[1..];
    }
  }

  lemma {:induction false} LackingSort(s: seq<Candidate>, tag: Label)
    ensures Lacking(Pruning.Sort(s), tag) == Lacking(s, tag)
  {
    if s == [] {
    } else {
      LackingSort(s[1..], tag);
      LackingInsert(s[0], Pruning.Sort(s[1..]), tag);
      LackingCons(s[0], s[1..], tag);
      assert s == [s[0]] + s[1..];
    }
  }

  /** Distinct positions of candidates that lack the label are no more than
      there are such candidates. */
  lemma {:induction false} LackingPositions(s: seq<Candidate>, chosen: set<nat>, tag: Label)
    requires forall i :: i in chosen ==> i < |s| && Lacks(s[i], tag)
    ensures |chosen| <= Lacking(s, tag)
    decreases |s|
  {
    if s == [] {
      assert chosen == {};
    } else {
      var n := |s| - 1;
      LackingPositions(s[..n], chosen - {n}, tag);
      assert n !in chosen ==> chosen - {n} == chosen;
    }
  }

  lemma {:induction false} DistinctToSet(s: seq<nat>)
    requires Distinct(s)
    ensures |ToSet(s)| == |s|
  {
    if s == [] {
    } else {
      var n := |s| - 1;
      DistinctToSet(s[..n]);
      assert ToSet(s) == ToSet(s[..n]) + {s[n]};
      assert s[n] !in s[..n];
    }
  }

  // ----- with room to spare the label is kept -----

  ghost predicate Keeps(p: Params, candidates: seq<Candidate>, tag: Label)
    requires LabelsKnown(p, candidates)
  {
    exists d :: d in Prune(p, candidates) && d.labels.Some? && tag in d.labels.value
  }

  /** If fewer candidates lack the label than the degree bound allows, a
      neighbour with the label is kept, whatever the distances are. */
  lemma FewLackingKeeps(p: Params, candidates: seq<Candidate>, tag: Label, c: Candidate)
    requires LabelsKnown(p, candidates) && p.maxAlpha >= 1.0
    requires p.labels.Some? && tag in p.labels.value
    requires c in candidates && tag in c.labels.value
    requires Lacking(candidates, tag) < p.limit
    ensures Keeps(p, candidates, tag)
  {
    PruneSelects(p, candidates);
    if |Prune(p, candidates)| < p.limit {
      LabelCoverage(p, candidates, tag, c);
    } else {
      FullListKeeps(p, candidates, tag);
    }
  }

  /** A full list cannot consist of candidates that lack the label. */
  lemma FullListKeeps(p: Params, candidates: seq<Candidate>, tag: Label)
    requires LabelsKnown(p, candidates) && p.labels.Some?
    requires |Prune(p, candidates)| >= p.limit > Lacking(candidates, tag)
    ensures Keeps(p, candidates, tag)
  {
    hide Selection;
    SortKeepsLabels(p, candidates);
    LackingSort(candidates, tag);
    var s := Pruning.Sort(candidates);
    SelectionInRange(p, s, true);
    var chosen := Selection(p, s, true);
    DistinctToSet(chosen);
    if forall i :: i in ToSet(chosen) ==> i < |s| && Lacks(s[i], tag) {
      LackingPositions(s, ToSet(chosen), tag);
    } else {
      var i :| i in ToSet(chosen) && !(i < |s| && Lacks(s[i], tag));
      assert s[i] in Prune(p, candidates);
    }
  }

  // ----- without it, some distances lose the label -----

  /** A node to be pruned against, by its pointer and labels. */
  datatype Labelled = Labelled(pointer: ItemPointer, labels: LabelSet)

  function LackingNodes(nodes: seq<Labelled>, tag: Label): nat {
    if nodes == [] then 0
    else LackingNodes(nodes[..|nodes| - 1], tag) + if tag !in nodes[|nodes| - 1].labels then 1 else 0
  }

  /** The xor-popcount of the codes that the nodes have, for some codes of this
      many dimensions and bits per dimension. */
  ghost predicate IsCodeDistance(d: (ItemPointer, ItemPointer) -> Magnitude, dimensions: nat, width: nat) {
    exists words: ItemPointer -> seq<Word>, levels: ItemPointer -> seq<nat> ::
      AreCodes(words, levels, dimensions, width) && Measures(d, words)
  }

  ghost predicate AreCodes(words: ItemPointer -> seq<Word>, levels: ItemPointer -> seq<nat>, dimensions: nat,
                           width: nat) {
    forall x :: |levels(x)| == dimensions && |words(x)| == QuantizedSize(dimensions, width)
      && HoldsCode(words(x), levels(x), width)
  }

  ghost predicate Measures(d: (ItemPointer, ItemPointer) -> Magnitude, words: ItemPointer -> seq<Word>) {
    forall x, y :: |words(x)| == |words(y)| && d(x, y) == XorDistance(words(x), words(y)) as real
  }

  /** What one labelled index fixes about a pruning. */
  datatype Setting = Setting(maxAlpha: real, limit: nat, dimensions: nat, width: nat)

  /** A pruning of the node `of`, which has these labels, with candidates for
      these nodes. All distances are distances of codes. */
  ghost predicate Instance(e: Setting, labels: LabelSet, of: ItemPointer, nodes: seq<Labelled>, p: Params,
                           candidates: seq<Candidate>) {
    && p.maxAlpha == e.maxAlpha && p.limit == e.limit && p.labels == Some(labels)
    && IsCodeDistance(p.between, e.dimensions, e.width)
    && Represents(p, of, nodes, candidates)
  }

  ghost predicate Represents(p: Params, of: ItemPointer, nodes: seq<Labelled>, candidates: seq<Candidate>) {
    && |candidates| == |nodes|
    && forall i :: 0 <= i < |nodes| ==>
         candidates[i] == Neighbor(nodes[i].pointer,
           NewDistance(p.between(of, nodes[i].pointer), of, nodes[i].pointer), Some(nodes[i].labels))
  }

  ghost predicate NodesOk(of: ItemPointer, nodes: seq<Labelled>) {
    && (forall i :: 0 <= i < |nodes| ==> nodes[i].pointer != of)
    && forall i, j :: 0 <= i < j < |nodes| ==> nodes[i].pointer != nodes[j].pointer
  }

  /** The nodes without the label are at distance one and two apart, all others
      are at distance two. */
  ghost predicate Spread(p: Params, of: ItemPointer, nodes: seq<Labelled>, tag: Label) {
    && (forall i :: 0 <= i < |nodes| ==>
          p.between(of, nodes[i].pointer) == if tag !in nodes[i].labels then 1.0 else 2.0)
    && forall i, j ::
         0 <= i < |nodes| && 0 <= j < |nodes| && i != j && tag !in nodes[i].labels && tag !in nodes[j].labels ==>
           p.between(nodes[i].pointer, nodes[j].pointer) == 2.0
  }

  // ----- codes that are spread like this -----

  function Position(nodes: seq<Labelled>, x: ItemPointer): (i: nat)
    ensures i <= |nodes|
    ensures i < |nodes| ==> nodes[i].pointer == x
    ensures forall k :: 0 <= k < i ==> nodes[k].pointer != x
  {
    if nodes == [] || nodes[0].pointer == x then 0 else 1 + Position(nodes[1..], x)
  }

  /** A dimension of its own for each node without the label, two shared ones for
      all other nodes, none for the node pruned. */
  function Dims(of: ItemPointer, nodes: seq<Labelled>, tag: Label, x: ItemPointer): set<nat> {
    var i := Position(nodes, x);
    if x == of then {}
    else if i < |nodes| && tag !in nodes[i].labels then {i}
    else {|nodes|, |nodes| + 1}
  }

  ghost function SpreadDistance(e: Setting, of: ItemPointer, nodes: seq<Labelled>, tag: Label)
    : (ItemPointer, ItemPointer) -> Magnitude
    requires e.width >= 1
  {
    (x, y) => XorDistance(IndicatorCode(e.dimensions, e.width, Dims(of, nodes, tag, x)),
                          IndicatorCode(e.dimensions, e.width, Dims(of, nodes, tag, y))) as real
  }

  lemma SpreadIsCodeDistance(e: Setting, of: ItemPointer, nodes: seq<Labelled>, tag: Label)
    requires e.width >= 1
    ensures IsCodeDistance(SpreadDistance(e, of, nodes, tag), e.dimensions, e.width)
  {
    hide HoldsCode, Indicator, XorDistance, QuantizedSize, Dims;
    var words := x => IndicatorCode(e.dimensions, e.width, Dims(of, nodes, tag, x));
    var levels := x => Indicator(e.dimensions, Dims(of, nodes, tag, x));
    assert AreCodes(words, levels, e.dimensions, e.width);
    assert Measures(SpreadDistance(e, of, nodes, tag), words);
  }

  lemma SpreadIsSpread(e: Setting, p: Params, of: ItemPointer, nodes: seq<Labelled>, tag: Label)
    requires e.width >= 1 && NodesOk(of, nodes) && e.dimensions >= |nodes| + 2
    requires p.between == SpreadDistance(e, of, nodes, tag)
    ensures Spread(p, of, nodes, tag)
  {
    hide SpreadDistance, Difference, Dims;
    forall i | 0 <= i < |nodes|
      ensures p.between(of, nodes[i].pointer) == if tag !in nodes[i].labels then 1.0 else 2.0
    {
      DimsOf(of, nodes, tag, i);
      SpreadCounts(e, of, nodes, tag, of, nodes[i].pointer);
      SmallDifferences(e.dimensions, i, i);
      SmallDifferences(e.dimensions, |nodes|, |nodes| + 1);
    }
    forall i, j | 0 <= i < |nodes| && 0 <= j < |nodes| && i != j && tag !in nodes[i].labels && tag !in nodes[j].labels
      ensures p.between(nodes[i].pointer, nodes[j].pointer) == 2.0
    {
      DimsOf(of, nodes, tag, i);
      DimsOf(of, nodes, tag, j);
      SpreadCounts(e, of, nodes, tag, nodes[i].pointer, nodes[j].pointer);
      SmallDifferences(e.dimensions, i, j);
    }
  }

  lemma SpreadCounts(e: Setting, of: ItemPointer, nodes: seq<Labelled>, tag: Label, x: ItemPointer, y: ItemPointer)
    requires e.width >= 1
    ensures SpreadDistance(e, of, nodes, tag)(x, y)
         == |Difference(e.dimensions, Dims(of, nodes, tag, x), Dims(of, nodes, tag, y))| as real
  {
    hide XorDistance, Difference, Dims;
    IndicatorCodeDistance(e.dimensions, e.width, Dims(of, nodes, tag, x), Dims(of, nodes, tag, y));
  }

  lemma DimsOf(of: ItemPointer, nodes: seq<Labelled>, tag: Label, i: nat)
    requires NodesOk(of, nodes) && i < |nodes|
    ensures Dims(of, nodes, tag, of) == {}
    ensures Dims(of, nodes, tag, nodes[i].pointer) == if tag !in nodes[i].labels then {i} else {|nodes|, |nodes| + 1}
  {
  }

  lemma SmallDifferences(n: nat, i: nat, j: nat)
    requires i < n && j < n
    ensures |Difference(n, {}, {i})| == 1
    ensures i != j ==> |Difference(n, {i}, {j})| == 2 && |Difference(n, {}, {i, j})| == 2
  {
    assert Difference(n, {}, {i}) == {i};
    if i != j {
      assert Difference(n, {i}, {j}) == {i, j} && Difference(n, {}, {i, j}) == {i, j};
    }
  }

  // ----- such codes lose the label -----

  /** In this order the first `limit` candidates are all at distance one, and
      two apart. */
  ghost predicate NearFirst(p: Params, s: seq<Candidate>, tag: Label) {
    && LabelsKnown(p, s)
    && p.limit <= |s|
    && forall i :: 0 <= i < p.limit ==>
         && Lacks(s[i], tag)
         && s[i].distance.value == 1.0
         && forall j :: 0 <= j < i ==> p.between(s[j].pointer, s[i].pointer) == 2.0
  }

  lemma {:induction false} PassTakesNear(p: Params, s: seq<Candidate>, tag: Label, i: nat, st: Progress)
    requires NearFirst(p, s, tag) && i <= p.limit && |st.factors| == |s| && |st.chosen| == i
    requires forall k :: 0 <= k < i ==> st.chosen[k] < p.limit
    requires forall j :: i <= j < p.limit ==> !st.factors[j].Exceeds(1.0)
    ensures var r := Pass(p, s, 1.0, i, st, true);
      |r.chosen| == p.limit && forall k :: 0 <= k < p.limit ==> r.chosen[k] < p.limit
    decreases p.limit - i
  {
    if i == p.limit {
    } else {
      var next := Choose(p, s, st, i, true);
      forall j | i + 1 <= j < p.limit ensures !next.factors[j].Exceeds(1.0) {
        HalfFactor(p, s, tag, i, j);
      }
      PassTakesNear(p, s, tag, i + 1, next);
    }
  }

  lemma HalfFactor(p: Params, s: seq<Candidate>, tag: Label, i: nat, j: nat)
    requires NearFirst(p, s, tag) && i < j < p.limit
    ensures !FactorOf(p, s[i], s[j]).Exceeds(1.0)
  {
    assert p.between(s[i].pointer, s[j].pointer) == 2.0;
  }

  lemma NearFirstLoses(p: Params, candidates: seq<Candidate>, tag: Label)
    requires LabelsKnown(p, candidates) && NearFirst(p, Pruning.Sort(candidates), tag) && p.maxAlpha >= 1.0
    ensures !Keeps(p, candidates, tag)
  {
    hide FactorOf, MayOcclude;
    var s := Pruning.Sort(candidates);
    PassTakesNear(p, s, tag, 0, Start(|s|));
    var r := Pass(p, s, 1.0, 0, Start(|s|), true);
    if p.limit == 0 {
      assert Passes(p, s, 1.0, Start(|s|), true).chosen == [];
    } else {
      assert Passes(p, s, 1.0 * 1.2, r, true) == r;
    }
    assert Selection(p, s, true) == r.chosen;
  }

  /** Sorted by distance, the near candidates come first. */
  lemma SortedNearFirst(s: seq<Candidate>, tag: Label, i: nat)
    requires Pruning.Sorted(s) && i < |s|
    requires forall c :: c in s ==> c.distance.value == if Lacks(c, tag) then 1.0 else 2.0
    ensures i < Lacking(s, tag) ==> Lacks(s[i], tag)
  {
    hide Lacking, Lacks;
    if !Lacks(s[i], tag) {
      forall j | i <= j < |s| ensures !Lacks(s[j], tag) {
        assert i < j ==> s[i].distance.Leq(s[j].distance);
      }
      LackingConcat(s[..i], s[i..], tag);
      assert s == s[..i] + s[i..];
      NoneLacking(s[i..], tag);
    }
  }

  lemma {:induction false} NoneLacking(s: seq<Candidate>, tag: Label)
    requires forall c :: c in s ==> !Lacks(c, tag)
    ensures Lacking(s, tag) == 0
  {
    if s == [] {
    } else {
      NoneLacking(s[..|s| - 1], tag);
    }
  }

  /** As many nodes without the label as the degree bound allows can push all
      others out: there are codes for which no neighbour with it is kept. */
  lemma ManyLackingCanLose(e: Setting, labels: LabelSet, tag: Label, of: ItemPointer, nodes: seq<Labelled>)
    returns (p: Params, candidates: seq<Candidate>)
    requires e.maxAlpha >= 1.0 && e.width >= 1 && NodesOk(of, nodes)
    requires LackingNodes(nodes, tag) >= e.limit && e.dimensions >= |nodes| + 2
    ensures Instance(e, labels, of, nodes, p, candidates) && LabelsKnown(p, candidates)
    ensures !Keeps(p, candidates, tag)
  {
    p := Params(e.maxAlpha, e.limit, Some(labels), SpreadDistance(e, of, nodes, tag));
    SpreadIsCodeDistance(e, of, nodes, tag);
    SpreadIsSpread(e, p, of, nodes, tag);
    var d := p.between;
    candidates := seq(|nodes|, i requires 0 <= i < |nodes| =>
      Neighbor(nodes[i].pointer, NewDistance(d(of, nodes[i].pointer), of, nodes[i].pointer), Some(nodes[i].labels)));
    hide IsCodeDistance, SpreadDistance, Keeps, NearFirst, LackingNodes, Spread;
    SpreadSortsNearFirst(p, candidates, of, nodes, tag);
    NearFirstLoses(p, candidates, tag);
  }

  lemma SpreadSortsNearFirst(p: Params, candidates: seq<Candidate>, of: ItemPointer, nodes: seq<Labelled>, tag: Label)
    requires NodesOk(of, nodes) && LackingNodes(nodes, tag) >= p.limit && Represents(p, of, nodes, candidates)
    requires Spread(p, of, nodes, tag)
    ensures LabelsKnown(p, candidates) && NearFirst(p, Pruning.Sort(candidates), tag)
  {
    var s := Pruning.Sort(candidates);
    Pruning.SortSorts(candidates);
    SortKeepsLabels(p, candidates);
    CountsAgree(p, candidates, of, nodes, tag);
    LackingSort(candidates, tag);
    SpreadValues(p, candidates, of, nodes, tag);
    assert Pruning.DistinctPointers(candidates);
    SortKeepsDistinct(candidates);
    hide Pruning.Sorted, Distance.Leq, Lacking, LackingNodes, Lacks, Spread, Represents, NodesOk;
    forall i | 0 <= i < p.limit
      ensures Lacks(s[i], tag) && s[i].distance.value == 1.0
      ensures forall j :: 0 <= j < i ==> p.between(s[j].pointer, s[i].pointer) == 2.0
    {
      SortedNearFirst(s, tag, i);
      assert s[i] in candidates;
      forall j | 0 <= j < i ensures p.between(s[j].pointer, s[i].pointer) == 2.0 {
        SortedNearFirst(s, tag, j);
        assert s[j] in candidates && s[j].pointer != s[i].pointer;
      }
    }
  }

  lemma SpreadValues(p: Params, candidates: seq<Candidate>, of: ItemPointer, nodes: seq<Labelled>, tag: Label)
    requires Represents(p, of, nodes, candidates) && Spread(p, of, nodes, tag)
    ensures forall c :: c in candidates ==> c.distance.value == if Lacks(c, tag) then 1.0 else 2.0
    ensures forall c, d ::
      c in candidates && d in candidates && Lacks(c, tag) && Lacks(d, tag) && c.pointer != d.pointer ==>
        p.between(c.pointer, d.pointer) == 2.0
  {
  }

  lemma {:induction false} CountsAgree(p: Params, candidates: seq<Candidate>, of: ItemPointer, nodes: seq<Labelled>,
                                       tag: Label)
    requires Represents(p, of, nodes, candidates)
    ensures Lacking(candidates, tag) == LackingNodes(nodes, tag)
    decreases |nodes|
  {
    if nodes == [] {
    } else {
      var n := |nodes| - 1;
      CountsAgree(p, candidates[..n], of, nodes[..n], tag);
    }
  }

  // ----- the exact condition -----

  /** Some node carries the label. */
  ghost predicate Carried(nodes: seq<Labelled>, tag: Label) {
    exists i :: 0 <= i < |nodes| && tag in nodes[i].labels
  }

  /** Whatever the codes of the nodes are, a neighbour with the label is kept. */
  ghost predicate AlwaysKept(e: Setting, labels: LabelSet, tag: Label, of: ItemPointer, nodes: seq<Labelled>) {
    forall p: Params, candidates: seq<Candidate> ::
      Instance(e, labels, of, nodes, p, candidates) && LabelsKnown(p, candidates) ==>
        Keeps(p, candidates, tag)
  }

  /** Label coverage, exactly. For a label of the source that some of the nodes
      carry, pruning keeps a neighbour with it for all codes of the nodes if and
      only if fewer nodes lack it than the degree bound. Only the second half
      asks for as many dimensions as nodes, and two more. */
  lemma CoverageExactlyWhen(e: Setting, labels: LabelSet, tag: Label, of: ItemPointer, nodes: seq<Labelled>)
    requires e.maxAlpha >= 1.0 && e.width >= 1 && tag in labels && NodesOk(of, nodes) && Carried(nodes, tag)
    ensures LackingNodes(nodes, tag) < e.limit ==> AlwaysKept(e, labels, tag, of, nodes)
    ensures e.dimensions >= |nodes| + 2 ==>
      (AlwaysKept(e, labels, tag, of, nodes) <==> LackingNodes(nodes, tag) < e.limit)
  {
    hide IsCodeDistance, Keeps;
    if LackingNodes(nodes, tag) < e.limit {
      forall p: Params, candidates: seq<Candidate> |
        Instance(e, labels, of, nodes, p, candidates) && LabelsKnown(p, candidates)
        ensures Keeps(p, candidates, tag)
      {
        var i :| 0 <= i < |nodes| && tag in nodes[i].labels;
        CountsAgree(p, candidates, of, nodes, tag);
        assert candidates[i] in candidates && tag in candidates[i].labels.value;
        FewLackingKeeps(p, candidates, tag, candidates[i]);
      }
    } else if e.dimensions >= |nodes| + 2 {
      var p, candidates := ManyLackingCanLose(e, labels, tag, of, nodes);
    }
  }
}
