/** Merging additions into the neighbour list of a node: the pure computation
    on one snapshot, and the optimistic loop that retries it. */
module Merging {
  import opened Pointers
  import opened Labels
  import opened Sequences
  import opened Pruning
  import opened Nodes

  /** What never changes about an index: its parameters, the vectors and labels
      of its nodes, and the distance function. */
  datatype Env = Env(
    maxAlpha: real,
    numNeighbors: nat,
    hasLabels: bool,
    vectorOf: ItemPointer -> Vector,
    labelsOf: ItemPointer -> LabelSet,
    metric: (Vector, Vector) -> Magnitude)
  {
    function GetLabels(x: ItemPointer): Option<LabelSet> {
      if hasLabels then Some(labelsOf(x)) else None
    }

    function PruneParams(of: ItemPointer): Params {
      Params(maxAlpha, numNeighbors, GetLabels(of), (x, y) => metric(vectorOf(x), vectorOf(y)))
    }

    /** The owned snapshot of a list, in page order, with its distances. */
    function DiskNeighbors(of: ItemPointer, list: seq<ItemPointer>): (r: seq<Candidate>)
      ensures PointersOf(r) == list
    {
      var r := seq(|list|, i requires 0 <= i < |list| =>
        Neighbor(list[i], NewDistance(metric(vectorOf(of), vectorOf(list[i])), of, list[i]), GetLabels(list[i])));
      assert PointersOf(r) == list;
      r
    }

    /** With labels, every neighbour record carries its labels. */
    ghost predicate Labelled(s: seq<Candidate>) {
      hasLabels ==> forall i :: 0 <= i < |s| ==> s[i].labels.Some?
    }
  }

  datatype Mode = Disk | Builder(alwaysPrune: bool)

  /** retain(|n| seen.insert(n)): the first record of every new pointer. */
  function RetainUnseen(seen: set<ItemPointer>, s: seq<Candidate>): seq<Candidate>
    decreases |s|
  {
    if s == [] then []
    else if s[0].pointer in seen then RetainUnseen(seen, s[1..])
    else [s[0]] + RetainUnseen(seen + {s[0].pointer}, s[1..])
  }

  ghost function PointerSet(s: seq<Candidate>): set<ItemPointer> {
    ToSet(PointersOf(s))
  }

  lemma PointerSetCons(s: seq<Candidate>)
    requires s != []
    ensures PointerSet(s) == {s[0].pointer} + PointerSet(s[1..])
  {
    assert PointersOf(s) == [s[0].pointer] + PointersOf(s[1..]);
  }

  lemma PointerSetConcat(a: seq<Candidate>, b: seq<Candidate>)
    ensures PointerSet(a + b) == PointerSet(a) + PointerSet(b)
  {
    assert PointersOf(a + b) == PointersOf(a) + PointersOf(b);
  }

  /** Retaining keeps each pointer once, except those already seen. */
  lemma {:induction false} RetainProperties(seen: set<ItemPointer>, s: seq<Candidate>)
    ensures var r := RetainUnseen(seen, s);
      && DistinctPointers(r)
      && PointerSet(r) == PointerSet(s) - seen
      && (forall c :: c in r ==> c in s)
    decreases |s|
  {
    if s == [] {
    } else if s[0].pointer in seen {
      RetainProperties(seen, s[1..]);
      PointerSetCons(s);
    } else {
      var t := RetainUnseen(seen + {s[0].pointer}, s[1..]);
      RetainProperties(seen + {s[0].pointer}, s[1..]);
      PointerSetCons(s);
      var r := [s[0]] + t;
      PointerSetCons(r);
      assert r[1..] == t;
      forall i | 0 <= i < |t| ensures t[i].pointer != s[0].pointer {
        assert PointersOf(t)[i] in PointerSet(t);
      }
    }
  }

  /** What is retained of two lists: first what is new in the first, as it is. */
  lemma {:induction false} RetainConcat(seen: set<ItemPointer>, a: seq<Candidate>, b: seq<Candidate>)
    ensures RetainUnseen(seen, a + b) == RetainUnseen(seen, a) + RetainUnseen(seen + PointerSet(a), b)
    decreases |a|
  {
    if a == [] {
      assert a + b == b && PointerSet(a) == {};
      assert seen + PointerSet(a) == seen;
    } else {
      var x := a[0].pointer;
      PointerSetCons(a);
      assert (a + b)[1..] == a[1..] + b;
      if x in seen {
        RetainConcat(seen, a[1..], b);
        assert seen + PointerSet(a) == seen + PointerSet(a[1..]);
      } else {
        RetainConcat(seen + {x}, a[1..], b);
        assert seen + PointerSet(a) == seen + {x} + PointerSet(a[1..]);
      }
    }
  }

  lemma {:induction false} RetainAll(seen: set<ItemPointer>, s: seq<Candidate>)
    requires DistinctPointers(s) && PointerSet(s) !! seen
    ensures RetainUnseen(seen, s) == s
    decreases |s|
  {
    if s == [] {
    } else {
      PointerSetCons(s);
      forall y | y in PointerSet(s[1..]) ensures y != s[0].pointer {
        var i :| 0 <= i < |s[1..]| && PointersOf(s[1..])[i] == y;
        assert s[1..][i] == s[i + 1];
      }
      RetainAll(seen + {s[0].pointer}, s[1..]);
    }
  }

  /** The candidates of a merge: page order decides which list comes first. */
  function Candidates(of: ItemPointer, mode: Mode, disk: seq<Candidate>, added: seq<Candidate>): seq<Candidate> {
    RetainUnseen({of}, if mode.Disk? then disk + added else added + disk)
  }

  predicate MustPrune(mode: Mode, count: nat, limit: nat) {
    (mode.Builder? && mode.alwaysPrune) || count > limit
  }

  datatype Merged = Merged(pruned: bool, neighbors: seq<Candidate>)

  lemma CandidatesLabelled(env: Env, of: ItemPointer, mode: Mode, list: seq<ItemPointer>, added: seq<Candidate>)
    requires env.Labelled(added)
    ensures LabelsKnown(env.PruneParams(of), Candidates(of, mode, env.DiskNeighbors(of, list), added))
  {
    var disk := env.DiskNeighbors(of, list);
    RetainProperties({of}, if mode.Disk? then disk + added else added + disk);
    var r := Candidates(of, mode, disk, added);
    forall i | 0 <= i < |r| && env.hasLabels ensures r[i].labels.Some? {
      assert r[i] in r;
      assert r[i] in disk || r[i] in added;
    }
  }

  /** The list that one attempt computes from the list on the page. */
  ghost function Merge(env: Env, of: ItemPointer, mode: Mode, list: seq<ItemPointer>, added: seq<Candidate>): Merged
    requires env.Labelled(added)
  {
    var candidates := Candidates(of, mode, env.DiskNeighbors(of, list), added);
    CandidatesLabelled(env, of, mode, list, added);
    if MustPrune(mode, |candidates|, env.numNeighbors)
    then Merged(true, Prune(env.PruneParams(of), candidates))
    else Merged(false, candidates)
  }

  /** Every merge fits the node, repeats nothing, never links a node to itself
      and invents nothing; without pruning it loses nothing either. It prunes
      exactly when it is told to, or when there is no room for all. */
  lemma MergeProperties(env: Env, of: ItemPointer, mode: Mode, list: seq<ItemPointer>, added: seq<Candidate>)
    requires env.Labelled(added)
    ensures var m := Merge(env, of, mode, list, added);
      var all := ToSet(list) + PointerSet(added) - {of};
      && |m.neighbors| <= env.numNeighbors
      && Distinct(PointersOf(m.neighbors))
      && of !in PointersOf(m.neighbors)
      && PointerSet(m.neighbors) <= all
      && (!m.pruned ==> PointerSet(m.neighbors) == all)
      && (m.pruned <==> (mode.Builder? && mode.alwaysPrune) || |all| > env.numNeighbors)
      && (forall c :: c in m.neighbors ==> c in env.DiskNeighbors(of, list) || c in added)
  {
    hide Prune, RetainUnseen, Candidates, PointerSet, DistinctPointers, Distinct;
    var candidates := Candidates(of, mode, env.DiskNeighbors(of, list), added);
    CandidatesProperties(env, of, mode, list, added);
    CandidatesLabelled(env, of, mode, list, added);
    var m := Merge(env, of, mode, list, added);
    if m.pruned {
      PruneSelects(env.PruneParams(of), candidates);
    }
    PointerSetMonotone(m.neighbors, candidates);
    DistinctMeans(m.neighbors);
    assert of !in PointerSet(m.neighbors);
  }

  lemma DistinctMeans(s: seq<Candidate>)
    ensures DistinctPointers(s) ==> Distinct(PointersOf(s))
    ensures forall x :: x in PointersOf(s) <==> x in PointerSet(s)
  {
  }

  lemma CandidatesProperties(env: Env, of: ItemPointer, mode: Mode, list: seq<ItemPointer>, added: seq<Candidate>)
    ensures var candidates := Candidates(of, mode, env.DiskNeighbors(of, list), added);
      && DistinctPointers(candidates)
      && PointerSet(candidates) == ToSet(list) + PointerSet(added) - {of}
      && |candidates| == |ToSet(list) + PointerSet(added) - {of}|
      && forall c :: c in candidates ==> c in env.DiskNeighbors(of, list) || c in added
  {
    hide RetainUnseen;
    var disk := env.DiskNeighbors(of, list);
    RetainProperties({of}, if mode.Disk? then disk + added else added + disk);
    PointerSetConcat(disk, added);
    PointerSetConcat(added, disk);
    DistinctCount(Candidates(of, mode, disk, added));
  }

  /** The order of an unpruned merge. An insertion leaves the page's list where it
      is and appends to it; a build puts its own list first. Where both have a
      pointer, the first record counts. */
  lemma MergeKeepsOrder(env: Env, of: ItemPointer, mode: Mode, list: seq<ItemPointer>, added: seq<Candidate>)
    requires env.Labelled(added) && !Merge(env, of, mode, list, added).pruned
    ensures var neighbors := Merge(env, of, mode, list, added).neighbors;
      && (mode.Disk? && Distinct(list) && of !in list ==> env.DiskNeighbors(of, list) <= neighbors)
      && (mode.Builder? && DistinctPointers(added) && of !in PointersOf(added) ==> added <= neighbors)
  {
    hide Prune, RetainUnseen;
    var disk := env.DiskNeighbors(of, list);
    var neighbors := Merge(env, of, mode, list, added).neighbors;
    assert neighbors == Candidates(of, mode, disk, added);
    RetainConcat({of}, disk, added);
    RetainConcat({of}, added, disk);
    if mode.Disk? && Distinct(list) && of !in list {
      forall i, j | 0 <= i < j < |disk| ensures disk[i].pointer != disk[j].pointer {
        assert PointersOf(disk)[i] == list[i] && PointersOf(disk)[j] == list[j];
      }
      RetainAll({of}, disk);
    }
    if mode.Builder? && DistinctPointers(added) && of !in PointersOf(added) {
      RetainAll({of}, added);
    }
  }

  /** A record that says of its node what the index says of it: its distance from
      `of`, which is not a query, and in a labelled index its labels. */
  ghost predicate Measured(env: Env, of: ItemPointer, c: Candidate) {
    && c.distance.value == env.metric(env.vectorOf(of), env.vectorOf(c.pointer))
    && c.distance.source == of && c.distance.target == c.pointer && !c.distance.query
    && (if env.hasLabels then c.labels == Some(env.labelsOf(c.pointer)) else c.labels == None)
  }

  lemma PageRecordsAreMeasured(env: Env, of: ItemPointer, list: seq<ItemPointer>)
    ensures forall c :: c in env.DiskNeighbors(of, list) ==> c.pointer in list && Measured(env, of, c)
  {
  }

  /** Why `y` may be missing next to the kept `d`, in terms of the vectors: `d` is
      no farther away; `y` is more than `alpha` times closer to `d` than to the
      node, unless it coincides with both; and `d` has each label of `y` that the
      node has. */
  ghost predicate Outdone(env: Env, of: ItemPointer, y: ItemPointer, d: ItemPointer, alpha: real) {
    var far := env.metric(env.vectorOf(of), env.vectorOf(y));
    var gap := env.metric(env.vectorOf(d), env.vectorOf(y));
    && env.metric(env.vectorOf(of), env.vectorOf(d)) <= far
    && (gap >= EPSILON ==> far > alpha * gap)
    && (gap < EPSILON && far < EPSILON && IpDistance(y, d) > 0 ==>
          IpDistance(of, y) as real > alpha * IpDistance(y, d) as real)
    && (env.hasLabels ==> Covers(env.labelsOf(d), env.labelsOf(y), env.labelsOf(of)))
  }

  lemma RuledOutMeansOutdone(env: Env, of: ItemPointer, c: Candidate, d: Candidate, alpha: real)
    requires Measured(env, of, c) && Measured(env, of, d) && RuledOutBy(env.PruneParams(of), c, d, alpha)
    ensures Outdone(env, of, c.pointer, d.pointer, alpha)
  {
    CmpMeans(d.distance, c.distance);
    CmpMeans(c.distance, d.distance);
  }

  /** Label coverage of a merge: when the new list is short of the degree bound,
      each label of the node that some candidate carries, on the page or among
      the additions, is carried by a kept neighbour. */
  lemma MergeCoversLabels(env: Env, of: ItemPointer, mode: Mode, list: seq<ItemPointer>, added: seq<Candidate>,
                          tag: Label, y: ItemPointer)
    requires env.hasLabels && env.maxAlpha >= 1.0 && tag in env.labelsOf(of) && tag in env.labelsOf(y)
    requires env.Labelled(added) && forall c :: c in added ==> Measured(env, of, c)
    requires y != of && (y in list || y in PointerSet(added))
    requires |Merge(env, of, mode, list, added).neighbors| < env.numNeighbors
    ensures exists d :: d in Merge(env, of, mode, list, added).neighbors && tag in env.labelsOf(d.pointer)
  {
    hide Prune, RetainUnseen, Measured, DistinctPointers, Distinct;
    var candidates := Candidates(of, mode, env.DiskNeighbors(of, list), added);
    CandidatesLabelled(env, of, mode, list, added);
    PageRecordsAreMeasured(env, of, list);
    var c := CandidateFor(env, of, mode, list, added, y);
    MeasuredLabels(env, of, c);
    var m := Merge(env, of, mode, list, added);
    MergeProperties(env, of, mode, list, added);
    if m.pruned {
      LabelCoverage(env.PruneParams(of), candidates, tag, c);
      var d :| d in m.neighbors && d in candidates && tag in d.labels.value;
      MeasuredLabels(env, of, d);
    } else {
      assert c in m.neighbors;
    }
  }

  lemma MeasuredLabels(env: Env, of: ItemPointer, c: Candidate)
    requires env.hasLabels && Measured(env, of, c)
    ensures c.labels == Some(env.labelsOf(c.pointer))
  {
  }

  /** A record of a merge: read from the page, or brought by the writer. */
  ghost predicate OneOf(env: Env, of: ItemPointer, list: seq<ItemPointer>, added: seq<Candidate>, c: Candidate) {
    c in env.DiskNeighbors(of, list) || c in added
  }

  /** A merge drops a pointer only by pruning, and when the new list is short of
      the degree bound it keeps a neighbour that rules the dropped one out. */
  lemma DropHasReason(env: Env, of: ItemPointer, mode: Mode, list: seq<ItemPointer>, added: seq<Candidate>,
                      y: ItemPointer)
    returns (last: real)
    requires env.Labelled(added) && env.maxAlpha >= 1.0
    requires y in list || y in PointerSet(added)
    requires y != of && y !in PointerSet(Merge(env, of, mode, list, added).neighbors)
    ensures LastAlpha(env.maxAlpha, last)
    ensures var m := Merge(env, of, mode, list, added);
      m.pruned && (|m.neighbors| < env.numNeighbors ==>
        exists c: Candidate, d: Candidate :: c.pointer == y && OneOf(env, of, list, added, c)
          && d in m.neighbors && RuledOutBy(env.PruneParams(of), c, d, last))
  {
    hide Prune, RetainUnseen, RuledOutBy, LabelsKnown, DistinctPointers, Distinct, PointerSet;
    var disk := env.DiskNeighbors(of, list);
    var both := if mode.Disk? then disk + added else added + disk;
    var candidates := Candidates(of, mode, disk, added);
    RetainProperties({of}, both);
    CandidatesLabelled(env, of, mode, list, added);
    MergeProperties(env, of, mode, list, added);
    last := PruneCertificate(env.PruneParams(of), candidates);
    var c := CandidateFor(env, of, mode, list, added, y);
    SetHasPointers(Merge(env, of, mode, list, added).neighbors);
  }

  lemma SetHasPointers(s: seq<Candidate>)
    ensures forall c :: c in s ==> c.pointer in PointerSet(s)
  {
    forall c | c in s ensures c.pointer in PointerSet(s) {
      var i :| 0 <= i < |s| && s[i] == c;
      assert PointersOf(s)[i] == c.pointer;
    }
  }

  lemma CandidateFor(env: Env, of: ItemPointer, mode: Mode, list: seq<ItemPointer>, added: seq<Candidate>,
                     y: ItemPointer)
    returns (c: Candidate)
    requires y != of && (y in list || y in PointerSet(added))
    ensures c.pointer == y && OneOf(env, of, list, added, c)
    ensures c in Candidates(of, mode, env.DiskNeighbors(of, list), added)
  {
    hide RetainUnseen;
    var disk := env.DiskNeighbors(of, list);
    var candidates := Candidates(of, mode, disk, added);
    RetainProperties({of}, if mode.Disk? then disk + added else added + disk);
    PointerSetConcat(disk, added);
    PointerSetConcat(added, disk);
    assert y in PointerSet(candidates);
    var i :| 0 <= i < |candidates| && candidates[i].pointer == y;
    c := candidates[i];
    assert c in candidates;
  }

  lemma PointerSetMonotone(a: seq<Candidate>, b: seq<Candidate>)
    requires forall c :: c in a ==> c in b
    ensures PointerSet(a) <= PointerSet(b)
  {
    forall x | x in PointersOf(a) ensures x in PointersOf(b) {
      var i :| 0 <= i < |a| && a[i].pointer == x;
      assert a[i] in b;
      var j :| 0 <= j < |b| && b[j] == a[i];
      assert PointersOf(b)[j] == x;
    }
  }

  lemma {:induction false} DistinctCount(s: seq<Candidate>)
    requires DistinctPointers(s)
    ensures |PointerSet(s)| == |s|
  {
    if s == [] {
    } else {
      DistinctCount(s[1..]);
      PointerSetCons(s);
      assert s[0].pointer !in PointerSet(s[1..]);
    }
  }

  lemma MergeStorable(env: Env, of: ItemPointer, mode: Mode, list: seq<ItemPointer>, added: seq<Candidate>)
    requires env.Labelled(added) && Storable(list) && Storable(PointersOf(added))
    ensures Storable(PointersOf(Merge(env, of, mode, list, added).neighbors))
  {
    hide Merge;
    MergeProperties(env, of, mode, list, added);
    var r := PointersOf(Merge(env, of, mode, list, added).neighbors);
    forall i | 0 <= i < |r| ensures r[i].block != INVALID_BLOCK {
      assert r[i] in PointerSet(Merge(env, of, mode, list, added).neighbors);
      assert r[i] in list || r[i] in PointersOf(added);
    }
  }

  /** The part of one attempt that runs without any lock. */
  method ComputeMerge(env: Env, of: ItemPointer, mode: Mode, list: seq<ItemPointer>, added: seq<Candidate>)
    returns (pruned: bool, neighbors: seq<Candidate>)
    requires env.Labelled(added)
    ensures Merged(pruned, neighbors) == Merge(env, of, mode, list, added)
    ensures |neighbors| <= env.numNeighbors
    ensures Storable(list) && Storable(PointersOf(added)) ==> Storable(PointersOf(neighbors))
  {
    hide Prune, RetainUnseen;
    MergeProperties(env, of, mode, list, added);
    if Storable(list) && Storable(PointersOf(added)) {
      MergeStorable(env, of, mode, list, added);
    }
    var disk := env.DiskNeighbors(of, list);
    var candidates := RetainUnseen({of}, if mode.Disk? then disk + added else added + disk);
    CandidatesLabelled(env, of, mode, list, added);
    pruned := MustPrune(mode, |candidates|, env.numNeighbors);
    if pruned {
      neighbors := PruneNeighbors(env.PruneParams(of), candidates);
    } else {
      neighbors := candidates;
    }
  }

  /** The list on the page once `k` interfering commits have happened. */
  ghost function OnPage(initial: seq<ItemPointer>, interference: seq<seq<Candidate>>, k: nat): seq<ItemPointer>
    requires k <= |interference|
  {
    if k == 0 then initial else PointersOf(interference[k - 1])
  }

  /** merge_neighbors_on_disk. `interference` is what other writers commit to
      this node between each snapshot of this writer and its comparison. What
      is finally written is the merge of the list found at the comparison
      (`before`) with the unchanged additions. */
  method MergeNeighborsOnDisk(env: Env, node: Node, of: ItemPointer, mode: Mode, added: seq<Candidate>,
                              interference: seq<seq<Candidate>>)
    returns (pruned: bool, neighbors: seq<Candidate>, retries: nat, ghost before: seq<ItemPointer>)
    requires env.Labelled(added) && node.slots.Length == env.numNeighbors
    requires Storable(PointersOf(added)) && Storable(node.List())
    requires forall k :: 0 <= k < |interference| ==>
      |interference[k]| <= env.numNeighbors && Storable(PointersOf(interference[k]))
    modifies node.slots
    ensures retries <= |interference|
    ensures before == OnPage(old(node.List()), interference, if retries < |interference| then retries + 1 else retries)
    ensures Merged(pruned, neighbors) == Merge(env, of, mode, before, added)
    ensures node.List() == PointersOf(neighbors)
  {
    hide Merge, RetainUnseen, WithAdjacency, Adjacency, Prune;
    retries := 0;
    while true
      invariant retries <= |interference| && Storable(node.List())
      invariant node.List() == OnPage(old(node.List()), interference, retries)
      decreases |interference| - retries
    {
      var list := node.List();
      pruned, neighbors := ComputeMerge(env, of, mode, list, added);
      if retries < |interference| {
        node.SetNeighbors(interference[retries]);
      }
      before := node.List();
      var ok, _ := node.TrySetNeighbors(list, neighbors);
      if ok {
        return;
      }
      retries := retries + 1;
    }
  }
}
