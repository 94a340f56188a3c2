/** Scans of the stored graph while other backends merge, append and vacuum. */
module LiveScan {
  import opened Labels
  import opened Merging
  import opened Pointers
  import opened Sequences
  import Adjacency
  import Search
  import StoredGraph

  // ----- the bounds of a changing graph -----

  /** The link is there whenever its source is. */
  predicate Lasts(graphs: seq<Search.Graph>, x: ItemPointer, y: ItemPointer) {
    forall t :: 0 <= t < |graphs| && x in graphs[t].nodes ==> y in graphs[t].nodes[x].neighbors
  }

  /** The link is there at some time. */
  ghost predicate Occurs(graphs: seq<Search.Graph>, x: ItemPointer, y: ItemPointer) {
    exists t :: 0 <= t < |graphs| && x in graphs[t].nodes && y in graphs[t].nodes[x].neighbors
  }

  function Lasting(graphs: seq<Search.Graph>, x: ItemPointer, list: seq<ItemPointer>): seq<ItemPointer> {
    if list == [] then []
    else (if Lasts(graphs, x, list[0]) then [list[0]] else []) + Lasting(graphs, x, list[1..])
  }

  function Occurring(graphs: seq<Search.Graph>, x: ItemPointer): seq<ItemPointer> {
    if graphs == [] then []
    else
      var last := graphs[|graphs| - 1];
      Occurring(graphs[..|graphs| - 1], x) + if x in last.nodes then last.nodes[x].neighbors else []
  }

  lemma {:induction false} LastingLinks(graphs: seq<Search.Graph>, x: ItemPointer, list: seq<ItemPointer>)
    ensures forall y :: y in Lasting(graphs, x, list) <==> y in list && Lasts(graphs, x, y)
  {
    hide Lasts;
    if list == [] {
    } else {
      LastingLinks(graphs, x, list[1..]);
    }
  }

  lemma {:induction false} OccurringLinks(graphs: seq<Search.Graph>, x: ItemPointer, y: ItemPointer)
    ensures y in Occurring(graphs, x) <==> Occurs(graphs, x, y)
  {
    if graphs == [] {
    } else {
      var n := |graphs| - 1;
      OccurringLinks(graphs[..n], x, y);
      if Occurs(graphs[..n], x, y) {
        var t :| 0 <= t < n && x in graphs[..n][t].nodes && y in graphs[..n][t].nodes[x].neighbors;
        assert graphs[t] == graphs[..n][t];
      }
      if Occurs(graphs, x, y) && !(x in graphs[n].nodes && y in graphs[n].nodes[x].neighbors) {
        var t :| 0 <= t < |graphs| && x in graphs[t].nodes && y in graphs[t].nodes[x].neighbors;
        assert graphs[t] == graphs[..n][t];
      }
    }
  }

  /** The tightest bounds: the links that last, and those that occur. */
  function Bounded(graphs: seq<Search.Graph>): (w: Search.World)
    requires graphs != []
    ensures w.times == graphs
    ensures w.lower.nodes.Keys == w.upper.nodes.Keys == graphs[|graphs| - 1].nodes.Keys
    ensures forall x :: x in w.upper.nodes ==> w.upper.nodes[x].labels == graphs[|graphs| - 1].nodes[x].labels
  {
    var last := graphs[|graphs| - 1].nodes;
    Search.World(
      graphs,
      Search.Graph(map x | x in last :: last[x].(neighbors := Lasting(graphs, x, last[x].neighbors))),
      Search.Graph(map x | x in last :: last[x].(neighbors := Occurring(graphs, x))))
  }

  lemma BoundsAreTight(graphs: seq<Search.Graph>, x: ItemPointer, y: ItemPointer)
    requires graphs != [] && x in graphs[|graphs| - 1].nodes
    ensures y in Bounded(graphs).lower.nodes[x].neighbors <==> Lasts(graphs, x, y)
    ensures y in Bounded(graphs).upper.nodes[x].neighbors <==> Occurs(graphs, x, y)
  {
    LastingLinks(graphs, x, graphs[|graphs| - 1].nodes[x].neighbors);
    OccurringLinks(graphs, x, y);
  }

  // ----- the graphs of a run -----

  /** The graphs stored in the states of a run from one moment on. */
  function GraphsFrom(states: seq<Adjacency.State>, from: nat): (graphs: seq<Search.Graph>)
    requires from < |states|
    ensures |graphs| == |states| - from
    ensures forall t :: 0 <= t < |graphs| ==> graphs[t] == StoredGraph.GraphOf(states[from + t])
  {
    seq(|states| - from, t requires 0 <= t < |states| - from => StoredGraph.GraphOf(states[from + t]))
  }

  ghost predicate Keeps(g: Search.Graph, later: Search.Graph) {
    forall x :: x in g.nodes ==>
      && x in later.nodes
      && g.nodes[x].labels == later.nodes[x].labels
      && (g.IsDeleted(x) ==> later.IsDeleted(x))
  }

  lemma RunGraphsEvolve(env: Env, states: seq<Adjacency.State>, events: seq<Adjacency.Event>, i: nat, j: nat)
    requires Adjacency.IsRun(env, states, events) && i <= j < |states|
    ensures Keeps(StoredGraph.GraphOf(states[i]), StoredGraph.GraphOf(states[j]))
  {
    hide Adjacency.IsRun;
    Adjacency.RunEvolves(env, states, events, i, j);
    var g, later := StoredGraph.GraphOf(states[i]), StoredGraph.GraphOf(states[j]);
    forall x | x in g.nodes
      ensures x in later.nodes && g.nodes[x].labels == later.nodes[x].labels
      ensures g.IsDeleted(x) ==> later.IsDeleted(x)
    {
      StoredGraph.GraphHasNode(states[i], x);
      StoredGraph.GraphHasNode(states[j], x);
    }
  }

  /** Such bounds make a world, for graphs that keep nodes, labels and tombstones. */
  lemma BoundedIsWorld(graphs: seq<Search.Graph>, q: Search.Query)
    requires graphs != []
    requires forall t :: 0 <= t < |graphs| ==> Search.Usable(graphs[t], q)
    requires forall t, u :: 0 <= t <= u < |graphs| ==> Keeps(graphs[t], graphs[u])
    ensures Bounded(graphs).Valid(q)
  {
    var w, last := Bounded(graphs), graphs[|graphs| - 1];
    forall x, y | x in last.nodes
      ensures y in w.lower.nodes[x].neighbors <==> Lasts(graphs, x, y)
      ensures y in w.upper.nodes[x].neighbors <==> Occurs(graphs, x, y)
    {
      BoundsAreTight(graphs, x, y);
    }
    forall t | 0 <= t < |graphs| ensures Search.Within(w.lower, graphs[t], w.upper) {
      assert Keeps(graphs[t], last);
    }
    forall t, u | 0 <= t <= u < |graphs| ensures Search.Outlives(graphs[t], graphs[u]) {
      assert Keeps(graphs[t], graphs[u]);
    }
    BoundsAreUsable(graphs, q);
  }

  lemma BoundsAreUsable(graphs: seq<Search.Graph>, q: Search.Query)
    requires graphs != []
    requires forall t :: 0 <= t < |graphs| ==> Search.Usable(graphs[t], q)
    requires forall t, u :: 0 <= t <= u < |graphs| ==> Keeps(graphs[t], graphs[u])
    ensures Search.Usable(Bounded(graphs).lower, q) && Search.Usable(Bounded(graphs).upper, q)
  {
    var w, last := Bounded(graphs), graphs[|graphs| - 1];
    assert Search.Usable(last, q);
    forall x, y | x in last.nodes && y in w.lower.nodes[x].neighbors ensures y in last.nodes {
      BoundsAreTight(graphs, x, y);
      assert y in last.nodes[x].neighbors;
    }
    forall x, y | x in last.nodes && y in w.upper.nodes[x].neighbors ensures y in last.nodes {
      BoundsAreTight(graphs, x, y);
      var t :| 0 <= t < |graphs| && x in graphs[t].nodes && y in graphs[t].nodes[x].neighbors;
      assert Search.Usable(graphs[t], q) && Keeps(graphs[t], last);
    }
  }

  lemma RunIsWorld(env: Env, states: seq<Adjacency.State>, events: seq<Adjacency.Event>, from: nat, q: Search.Query)
    requires Adjacency.IsRun(env, states, events) && from < |states| && (q.Filters() ==> env.hasLabels)
    ensures Bounded(GraphsFrom(states, from)).Valid(q)
  {
    hide Adjacency.IsRun, Search.Usable, Keeps;
    var graphs := GraphsFrom(states, from);
    forall t | 0 <= t < |graphs| ensures Search.Usable(graphs[t], q) {
      StoredGraph.StoredGraphIsSearchable(env, states, events, from + t, q);
    }
    forall t, u | 0 <= t <= u < |graphs| ensures Keeps(graphs[t], graphs[u]) {
      RunGraphsEvolve(env, states, events, from + t, from + u);
    }
    BoundedIsWorld(graphs, q);
  }

  // ----- the scan -----

  ghost predicate LiveIn(s: Adjacency.State, x: ItemPointer) {
    s.Exists(x) && s.At(x).heap.offset != INVALID_OFFSET
  }

  /** What a scan promises that begins in one state and reads each page in that or
      a later one: no node twice; each result stored and live when it was read,
      at times that grow, and reachable by links that occurred; no node missed
      that lasting links reach and that is live in the end; in greedy order. */
  ghost predicate IsLiveScan(states: seq<Adjacency.State>, from: nat, q: Search.Query, starts: set<ItemPointer>,
                             out: seq<ItemPointer>, times: seq<nat>)
    requires from < |states|
  {
    var w := Bounded(GraphsFrom(states, from));
    && w.Valid(q)
    && Distinct(out) && |times| == |out|
    && (forall k :: 0 <= k < |out| ==> from + times[k] < |states| && LiveIn(states[from + times[k]], out[k]))
    && (forall k, m :: 0 <= k < m < |times| ==> times[k] <= times[m])
    && (forall x :: x in out ==> Search.Reachable(w.upper, q, starts, x))
    && (forall x :: Search.Reachable(w.lower, q, starts, x) && LiveIn(states[|states| - 1], x) ==> x in out)
    && Search.GreedyOrder(w, q, starts, out)
  }

  /** A scan that begins in one state of a run and reads each page in whatever
      state the run has reached by then. A filter that its start nodes pass holds
      for all results. */
  method ScanDuringRun(env: Env, states: seq<Adjacency.State>, ghost events: seq<Adjacency.Event>, from: nat,
                       q: Search.Query, starts: seq<ItemPointer>, searchListSize: nat)
    returns (out: seq<ItemPointer>, times: seq<nat>)
    requires Adjacency.IsRun(env, states, events) && from < |states|
    requires (q.Filters() ==> env.hasLabels) && searchListSize >= 1
    requires forall x :: x in starts ==> states[from].Exists(x)
    ensures IsLiveScan(states, from, q, ToSet(starts), out, times)
    ensures q.Filters() && (forall x :: x in starts ==> Passes(env, q, x)) ==>
      forall x :: x in out ==> Passes(env, q, x)
  {
    hide Search.Reachable, Search.World.Valid, Search.GreedyOrder, Distinct, Bounded, Adjacency.IsRun;
    ghost var w := Bounded(GraphsFrom(states, from));
    RunIsWorld(env, states, events, from, q);
    StartsStored(states, from, starts);
    out, times := Search.ScanWhileChanging(Bounded(GraphsFrom(states, from)), q, starts, searchListSize);
    forall k | 0 <= k < |out| ensures from + times[k] < |states| && LiveIn(states[from + times[k]], out[k]) {
      LiveThen(states, from, times[k], out[k]);
    }
    forall x | LiveIn(states[|states| - 1], x) ensures !Search.DeletedInTheEnd(w, x) {
      LiveInTheEnd(states, from, x);
    }
    if q.Filters() && forall x :: x in starts ==> Passes(env, q, x) {
      forall x | x in out ensures Passes(env, q, x) {
        ResultPasses(env, states, events, from, q, starts, x);
      }
    }
  }

  /** In particular no start node that is live in the end is missed. */
  lemma StartsAreFound(states: seq<Adjacency.State>, from: nat, q: Search.Query, starts: set<ItemPointer>,
                       out: seq<ItemPointer>, times: seq<nat>)
    requires from < |states| && IsLiveScan(states, from, q, starts, out, times)
    ensures forall x :: x in starts && LiveIn(states[|states| - 1], x) ==> x in out
  {
    hide Bounded, GraphsFrom, LiveIn, Search.Reachable, Search.GreedyOrder, Distinct;
    var w := Bounded(GraphsFrom(states, from));
    forall x | x in starts && LiveIn(states[|states| - 1], x) ensures x in out {
      Search.ReachableStart(w.lower, q, starts, x);
    }
  }

  /** The labels of the node overlap those of the query. */
  ghost predicate Passes(env: Env, q: Search.Query, x: ItemPointer)
    requires q.Filters()
  {
    Overlap(q.labels.value, env.labelsOf(x))
  }

  lemma StartsStored(states: seq<Adjacency.State>, from: nat, starts: seq<ItemPointer>)
    requires from < |states| && forall x :: x in starts ==> states[from].Exists(x)
    ensures ToSet(starts) <= GraphsFrom(states, from)[0].nodes.Keys
  {
    forall x | x in starts ensures x in GraphsFrom(states, from)[0].nodes {
      StoredGraph.GraphHasNode(states[from], x);
    }
  }

  lemma LiveInGraph(s: Adjacency.State, x: ItemPointer)
    ensures var g := StoredGraph.GraphOf(s); LiveIn(s, x) <==> x in g.nodes && !g.IsDeleted(x)
  {
    hide StoredGraph.GraphOf;
    StoredGraph.GraphHasNode(s, x);
  }

  lemma LiveThen(states: seq<Adjacency.State>, from: nat, t: nat, x: ItemPointer)
    requires from < |states| && Search.LiveAt(Bounded(GraphsFrom(states, from)), t, x)
    ensures from + t < |states| && LiveIn(states[from + t], x)
  {
    hide Bounded, StoredGraph.GraphOf, LiveIn;
    LiveInGraph(states[from + t], x);
  }

  lemma LiveInTheEnd(states: seq<Adjacency.State>, from: nat, x: ItemPointer)
    requires from < |states| && LiveIn(states[|states| - 1], x)
    ensures !Search.DeletedInTheEnd(Bounded(GraphsFrom(states, from)), x)
  {
    hide Bounded, StoredGraph.GraphOf, GraphsFrom, LiveIn, Search.DeletedInTheEnd, Search.Graph.IsDeleted;
    LastGraph(states, from);
    DeletedInLast(GraphsFrom(states, from), x);
    LiveInGraph(states[|states| - 1], x);
  }

  lemma LastGraph(states: seq<Adjacency.State>, from: nat)
    requires from < |states|
    ensures GraphsFrom(states, from)[|states| - from - 1] == StoredGraph.GraphOf(states[|states| - 1])
  {
    hide GraphsFrom, StoredGraph.GraphOf;
    assert from + (|states| - from - 1) == |states| - 1;
  }

  lemma DeletedInLast(graphs: seq<Search.Graph>, x: ItemPointer)
    requires graphs != []
    ensures var last := graphs[|graphs| - 1];
      Search.DeletedInTheEnd(Bounded(graphs), x) <==> x in last.nodes && last.IsDeleted(x)
  {
    hide Bounded;
  }

  lemma ResultPasses(env: Env, states: seq<Adjacency.State>, events: seq<Adjacency.Event>, from: nat,
                     q: Search.Query, starts: seq<ItemPointer>, x: ItemPointer)
    requires Adjacency.IsRun(env, states, events) && from < |states| && q.Filters() && env.hasLabels
    requires forall y :: y in starts ==> states[from].Exists(y) && Passes(env, q, y)
    requires Bounded(GraphsFrom(states, from)).Valid(q)
    requires Search.Reachable(Bounded(GraphsFrom(states, from)).upper, q, ToSet(starts), x)
    ensures Passes(env, q, x)
  {
    hide Search.Reachable, Bounded, StoredGraph.GraphOf, Adjacency.IsRun;
    var upper := Bounded(GraphsFrom(states, from)).upper;
    var last := states[|states| - 1];
    Adjacency.RunKeepsInv(env, states, events, |states| - 1);
    Adjacency.RunEvolves(env, states, events, from, |states| - 1);
    hide Adjacency.Inv, Adjacency.Evolves;
    UpperLabels(env, states, from);
    assert Search.Usable(upper, q);
    forall y | y in starts ensures y in upper.nodes && q.Passes(upper, y) {
      StillStored(states[from], last, y);
      StoredGraph.GraphHasNode(last, y);
    }
    Search.FilteredSearchIsSound(upper, q, ToSet(starts), x);
  }

  lemma UpperLabels(env: Env, states: seq<Adjacency.State>, from: nat)
    requires from < |states| && Adjacency.Inv(env, states[|states| - 1]) && env.hasLabels
    ensures var upper := Bounded(GraphsFrom(states, from)).upper;
      forall y :: y in upper.nodes ==> upper.nodes[y].labels == Some(env.labelsOf(y))
  {
    hide Bounded, StoredGraph.GraphOf, GraphsFrom, Adjacency.Inv;
    var last := states[from + (|states| - from - 1)];
    var upper := Bounded(GraphsFrom(states, from)).upper;
    forall y | y in upper.nodes ensures upper.nodes[y].labels == Some(env.labelsOf(y)) {
      StoredGraph.GraphHasNode(last, y);
      LabelsStored(env, last, y);
    }
  }

  lemma LabelsStored(env: Env, s: Adjacency.State, x: ItemPointer)
    requires Adjacency.Inv(env, s) && s.Exists(x)
    ensures s.At(x).labels == env.GetLabels(x)
  {
    hide Adjacency.LockInv, Adjacency.PhaseOk, Adjacency.LedgerInv, Adjacency.LogInv;
    assert Adjacency.RecordOk(env, s, x);
  }

  lemma StillStored(s: Adjacency.State, t: Adjacency.State, x: ItemPointer)
    requires Adjacency.Evolves(s, t) && s.Exists(x)
    ensures t.Exists(x)
  {
  }
}
