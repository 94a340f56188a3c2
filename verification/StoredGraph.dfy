/** The graph that a search reads from a state of the write protocol, and scans
    of it. */
module StoredGraph {
  import opened Pointers
  import opened Labels
  import opened Sequences
  import opened Merging
  import Adjacency
  import Rescore
  import Search

  function Slot(b: nat, i: nat): ItemPointer {
    ItemPointer(b, i + 1)
  }

  function Nodes(s: Adjacency.State): set<ItemPointer> {
    set b, i | b in s.pages && 0 <= i < |s.pages[b]| :: Slot(b, i)
  }

  lemma NodesExist(s: Adjacency.State, x: ItemPointer)
    ensures x in Nodes(s) <==> s.Exists(x)
  {
    if s.Exists(x) {
      assert x == Slot(x.block, x.offset - 1);
    }
  }

  function NodeOf(s: Adjacency.State, x: ItemPointer): Search.GraphNode
    requires s.Exists(x)
  {
    Search.GraphNode(s.ListOf(x), s.At(x).labels, s.At(x).heap)
  }

  function GraphOf(s: Adjacency.State): (g: Search.Graph)
    ensures g.nodes.Keys == Nodes(s)
    ensures forall x :: x in Nodes(s) ==> s.Exists(x) && g.nodes[x] == NodeOf(s, x)
  {
    assert forall x :: x in Nodes(s) ==> s.Exists(x);
    Search.Graph(map x | x in Nodes(s) :: NodeOf(s, x))
  }

  lemma GraphHasNode(s: Adjacency.State, x: ItemPointer)
    ensures x in GraphOf(s).nodes <==> s.Exists(x)
    ensures s.Exists(x) ==> GraphOf(s).nodes[x] == NodeOf(s, x)
  {
    NodesExist(s, x);
  }

  /** In every state of every run the stored graph can be searched: all its
      links lead to stored nodes, and in a labelled index all nodes have
      labels. So a scan over any such state is exhaustive and terminates. */
  lemma StoredGraphIsSearchable(env: Env, states: seq<Adjacency.State>, events: seq<Adjacency.Event>, i: nat,
                                q: Search.Query)
    requires Adjacency.IsRun(env, states, events) && i < |states|
    requires q.Filters() ==> env.hasLabels
    ensures Search.Usable(GraphOf(states[i]), q)
  {
    var s, g := states[i], GraphOf(states[i]);
    Adjacency.RunKeepsInv(env, states, events, i);
    forall x | x in g.nodes
      ensures forall y :: y in g.nodes[x].neighbors ==> y in g.nodes
      ensures env.hasLabels ==> g.nodes[x].labels.Some?
    {
      NodesExist(s, x);
      assert Adjacency.RecordOk(env, s, x);
      forall y | y in g.nodes[x].neighbors ensures y in g.nodes {
        NodesExist(s, y);
      }
    }
  }

  /** The edges that a search follows are the stored links, to nodes whose labels
      overlap the filter if there is one. */
  lemma EdgesAreLinks(env: Env, states: seq<Adjacency.State>, events: seq<Adjacency.Event>, i: nat,
                      q: Search.Query, x: ItemPointer, y: ItemPointer)
    requires Adjacency.IsRun(env, states, events) && i < |states| && (q.Filters() ==> env.hasLabels)
    ensures Search.Usable(GraphOf(states[i]), q)
    ensures Search.Edge(GraphOf(states[i]), q, x, y) <==>
      && states[i].Exists(x) && y in states[i].ListOf(x)
      && (q.Filters() ==> Overlap(q.labels.value, env.labelsOf(y)))
  {
    var s := states[i];
    StoredGraphIsSearchable(env, states, events, i, q);
    Adjacency.RunKeepsInv(env, states, events, i);
    hide Adjacency.IsRun, GraphOf, Adjacency.LockInv, Adjacency.PhaseOk, Adjacency.LedgerInv, Adjacency.LogInv;
    GraphHasNode(s, x);
    GraphHasNode(s, y);
    if s.Exists(x) {
      assert Adjacency.RecordOk(env, s, x);
    }
    if s.Exists(y) {
      assert Adjacency.RecordOk(env, s, y);
    }
  }

  /** Scanning the index as it stands in any state of any run. */
  method ScanState(env: Env, ghost states: seq<Adjacency.State>, ghost events: seq<Adjacency.Event>, s: Adjacency.State,
                   q: Search.Query, starts: seq<ItemPointer>, searchListSize: nat) returns (out: seq<ItemPointer>)
    requires Adjacency.IsRun(env, states, events) && s in states
    requires (q.Filters() ==> env.hasLabels) && searchListSize >= 1
    requires forall x :: x in starts ==> s.Exists(x)
    ensures Search.Usable(GraphOf(s), q)
    ensures Distinct(out)
    ensures forall x :: x in out <==>
      Search.Reachable(GraphOf(s), q, ToSet(starts), x) && s.Exists(x) && s.At(x).heap.offset != INVALID_OFFSET
    ensures Search.Still(GraphOf(s)).Valid(q) && Search.GreedyOrder(Search.Still(GraphOf(s)), q, ToSet(starts), out)
  {
    hide Search.Reachable, Search.Usable, Distinct, Search.GreedyOrder;
    ghost var i :| 0 <= i < |states| && states[i] == s;
    StoredGraphIsSearchable(env, states, events, i, q);
    forall x ensures x in Nodes(s) <==> s.Exists(x) {
      NodesExist(s, x);
    }
    out := Search.ScanAll(GraphOf(s), q, starts, searchListSize);
  }

  // ----- scan and rescore -----

  /** The stream of a scan's results, with the exact distances where the heap
      still has a visible tuple. */
  function StreamOf(s: Adjacency.State, out: seq<ItemPointer>, exact: ItemPointer -> Option<real>)
    : (stream: seq<Rescore.StreamItem>)
    requires forall x :: x in out ==> s.Exists(x)
    ensures |stream| == |out|
  {
    seq(|out|, i requires 0 <= i < |out| => Rescore.StreamItem(s.At(out[i]).heap, out[i], exact(out[i])))
  }

  ghost predicate IsResult(s: Adjacency.State, exact: ItemPointer -> Option<real>, d: Rescore.ResortData) {
    s.Exists(d.pointer) && exact(d.pointer) == Some(d.distance) && d.heap == s.At(d.pointer).heap
  }

  lemma {:induction false} RescoredResults(s: Adjacency.State, out: seq<ItemPointer>,
                                           exact: ItemPointer -> Option<real>)
    requires Distinct(out) && forall x :: x in out ==> s.Exists(x)
    ensures var r := Rescore.Rescored(StreamOf(s, out, exact));
      && Distinct(r)
      && (forall d :: d in r ==> d.pointer in out && IsResult(s, exact, d))
      && (forall x :: x in out && exact(x).Some? ==>
            Rescore.ResortData(s.At(x).heap, x, exact(x).value) in r)
  {
    hide Adjacency.State.Exists, Adjacency.State.At;
    if out == [] {
    } else {
      var n := |out| - 1;
      assert out[n] in out;
      RescoredResults(s, out[..n], exact);
      assert StreamOf(s, out, exact)[..n] == StreamOf(s, out[..n], exact);
      assert out == out[..n] + [out[n]];
      assert out[n] !in out[..n];
    }
  }

  lemma {:induction false} DistinctCounts<T>(s: seq<T>, x: T)
    requires Distinct(s)
    ensures multiset(s)[x] <= 1
  {
    if s == [] {
    } else {
      var n := |s| - 1;
      DistinctCounts(s[..n], x);
      assert s == s[..n] + [s[n]];
      assert s[n] !in s[..n];
    }
  }

  lemma ReorderedDistinct<T>(a: seq<T>, b: seq<T>)
    requires Distinct(a) && multiset(a) == multiset(b)
    ensures Distinct(b)
  {
    forall i, j | 0 <= i < j < |b| ensures b[i] != b[j] {
      DistinctCounts(a, b[j]);
      assert b == b[..j] + b[j..];
      assert b[i] == b[..j][i] && b[j] == b[j..][0];
    }
  }

  lemma ReorderedMembers<T>(a: seq<T>, b: seq<T>)
    requires multiset(a) == multiset(b)
    ensures forall x :: x in b <==> x in a
  {
    forall x ensures x in b <==> x in a {
      assert x in a <==> x in multiset(a);
      assert x in b <==> x in multiset(b);
    }
  }

  lemma DistinctAt<T>(s: seq<T>, i: nat, j: nat)
    requires Distinct(s) && i < j < |s|
    ensures s[i] != s[j]
  {
  }

  /** A scan of the index in any state of any run, rescored through a window.
      `out` is what the scan finds: the live nodes that are reachable under the
      filter, once each, in greedy order. The results are those of them that have an exact
      distance, once each, and each with the heap pointer it was stored with; and
      `data`, the results with their exact distances, is a reordering of the
      scan's order in which every item is a minimum of its window. */
  method ScanAndResort(env: Env, ghost states: seq<Adjacency.State>, ghost events: seq<Adjacency.Event>,
                       s: Adjacency.State, q: Search.Query, starts: seq<ItemPointer>, searchListSize: nat,
                       resortSize: nat, exact: ItemPointer -> Option<real>)
    returns (results: seq<(ItemPointer, ItemPointer)>, ghost out: seq<ItemPointer>,
             ghost data: seq<Rescore.ResortData>)
    requires Adjacency.IsRun(env, states, events) && s in states
    requires (q.Filters() ==> env.hasLabels) && searchListSize >= 1 && resortSize >= 1
    requires forall x :: x in starts ==> s.Exists(x)
    ensures Search.Usable(GraphOf(s), q)
    ensures Distinct(out) && forall x :: x in out ==> s.Exists(x)
    ensures forall x :: x in out <==>
      Search.Reachable(GraphOf(s), q, ToSet(starts), x) && s.Exists(x) && s.At(x).heap.offset != INVALID_OFFSET
    ensures Search.Still(GraphOf(s)).Valid(q) && Search.GreedyOrder(Search.Still(GraphOf(s)), q, ToSet(starts), out)
    ensures Rescore.Points(results, data) && Rescore.Resorted(StreamOf(s, out, exact), resortSize, data)
    ensures forall d :: d in data ==> d.pointer in out && IsResult(s, exact, d)
    ensures forall i, j :: 0 <= i < j < |results| ==> results[i].1 != results[j].1
    ensures forall r :: r in results ==> r.1 in out && r.0 == s.At(r.1).heap && exact(r.1).Some?
    ensures forall x :: x in out && exact(x).Some? ==> (s.At(x).heap, x) in results
  {
    hide Search.Reachable, Search.Usable, Search.GreedyOrder, Rescore.Resorted;
    var found := ScanState(env, states, events, s, q, starts, searchListSize);
    results := Rescore.DrainWithResort(StreamOf(s, found, exact), resortSize);
    out := found;
    data :| Rescore.Points(results, data) && Rescore.Resorted(StreamOf(s, out, exact), resortSize, data);
    ResultsOfScan(s, out, exact, resortSize, results, data);
  }

  lemma ResultsOfScan(s: Adjacency.State, out: seq<ItemPointer>, exact: ItemPointer -> Option<real>, size: nat,
                      results: seq<(ItemPointer, ItemPointer)>, data: seq<Rescore.ResortData>)
    requires Distinct(out) && forall x :: x in out ==> s.Exists(x)
    requires Rescore.Points(results, data) && Rescore.Resorted(StreamOf(s, out, exact), size, data)
    ensures forall d :: d in data ==> d.pointer in out && IsResult(s, exact, d)
    ensures forall i, j :: 0 <= i < j < |results| ==> results[i].1 != results[j].1
    ensures forall r :: r in results ==> r.1 in out && r.0 == s.At(r.1).heap && exact(r.1).Some?
    ensures forall x :: x in out && exact(x).Some? ==> (s.At(x).heap, x) in results
  {
    hide Adjacency.State.Exists, Adjacency.State.At, StreamOf, Rescore.AllMinimal, Rescore.Rescored;
    var rescored := Rescore.Rescored(StreamOf(s, out, exact));
    RescoredResults(s, out, exact);
    ReorderedDistinct(rescored, data);
    ReorderedMembers(rescored, data);
    hide Rescore.Resorted, Distinct;
    forall i, j | 0 <= i < j < |results| ensures results[i].1 != results[j].1 {
      assert data[i] in data && data[j] in data;
      DistinctAt(data, i, j);
    }
    forall r | r in results ensures r.1 in out && r.0 == s.At(r.1).heap && exact(r.1).Some? {
      var k :| 0 <= k < |results| && results[k] == r;
      assert data[k] in data;
    }
    forall x | x in out && exact(x).Some? ensures (s.At(x).heap, x) in results {
      var d := Rescore.ResortData(s.At(x).heap, x, exact(x).value);
      assert d in data;
      var k :| 0 <= k < |data| && data[k] == d;
      assert results[k] == (s.At(x).heap, x);
    }
  }
}
