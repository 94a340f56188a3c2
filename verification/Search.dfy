/** Greedy best-first search over the graph, advanced and consumed step by step,
    and the streaming scan built on it. */
module Search {
  import opened Pointers
  import opened Labels
  import opened Sequences

  datatype GraphNode = GraphNode(neighbors: seq<ItemPointer>, labels: Option<LabelSet>, heap: ItemPointer)

  /** A stored graph: every neighbour pointer names a stored node, and in an
      index with labels every node has a label set. */
  datatype Graph = Graph(nodes: map<ItemPointer, GraphNode>) {
    ghost predicate Valid() {
      forall x, y :: x in nodes && y in nodes[x].neighbors ==> y in nodes
    }

    ghost predicate Labelled() {
      forall x :: x in nodes ==> nodes[x].labels.Some?
    }

    predicate IsDeleted(x: ItemPointer)
      requires x in nodes
    {
      nodes[x].heap.offset == INVALID_OFFSET
    }
  }

  /** A query: its label filter, whether the filter is ignored, and its distance
      to every node. */
  datatype Query = Query(labels: Option<LabelSet>, noFilter: bool, distance: ItemPointer -> Distance) {
    predicate Filters() {
      labels.Some? && !noFilter
    }

    /** Whether a neighbour is taken up when it is first seen. */
    ghost predicate Passes(g: Graph, x: ItemPointer)
      requires x in g.nodes && (Filters() ==> g.nodes[x].labels.Some?)
    {
      Filters() ==> Overlap(labels.value, g.nodes[x].labels.value)
    }

    predicate Closer(x: ItemPointer, y: ItemPointer) {
      distance(x).Lt(distance(y))
    }

    predicate AsClose(x: ItemPointer, y: ItemPointer) {
      distance(x).Leq(distance(y))
    }
  }

  ghost predicate Usable(g: Graph, q: Query) {
    g.Valid() && (q.Filters() ==> g.Labelled())
  }

  // ----- the specification: reachability under the filter -----

  ghost predicate Edge(g: Graph, q: Query, x: ItemPointer, y: ItemPointer)
    requires Usable(g, q)
  {
    x in g.nodes && y in g.nodes[x].neighbors && q.Passes(g, y)
  }

  ghost predicate IsPath(g: Graph, q: Query, starts: set<ItemPointer>, path: seq<ItemPointer>)
    requires Usable(g, q)
  {
    && path != []
    && path[0] in starts
    && forall i :: 0 <= i < |path| - 1 ==> Edge(g, q, path[i], path[i + 1])
  }

  ghost predicate Reachable(g: Graph, q: Query, starts: set<ItemPointer>, x: ItemPointer)
    requires Usable(g, q)
  {
    exists path :: IsPath(g, q, starts, path) && path[|path| - 1] == x
  }

  lemma ReachableStart(g: Graph, q: Query, starts: set<ItemPointer>, x: ItemPointer)
    requires Usable(g, q) && x in starts
    ensures Reachable(g, q, starts, x)
  {
    assert IsPath(g, q, starts, [x]) && [x][|[x]| - 1] == x;
  }

  lemma ReachableStep(g: Graph, q: Query, starts: set<ItemPointer>, x: ItemPointer, y: ItemPointer)
    requires Usable(g, q) && Reachable(g, q, starts, x) && Edge(g, q, x, y)
    ensures Reachable(g, q, starts, y)
  {
    var path :| IsPath(g, q, starts, path) && path[|path| - 1] == x;
    var longer := path + [y];
    assert IsPath(g, q, starts, longer) && longer[|longer| - 1] == y;
  }

  /** A set with the starts that is closed under edges has all reachable nodes. */
  lemma ClosedHasReachable(g: Graph, q: Query, starts: set<ItemPointer>, closed: set<ItemPointer>)
    requires Usable(g, q) && starts <= closed
    requires forall x, y :: x in closed && Edge(g, q, x, y) ==> y in closed
    ensures forall x :: Reachable(g, q, starts, x) ==> x in closed
  {
    forall x | Reachable(g, q, starts, x) ensures x in closed {
      var path :| IsPath(g, q, starts, path) && path[|path| - 1] == x;
      PathStaysInside(g, q, starts, closed, path, |path| - 1);
    }
  }

  lemma {:induction false} PathStaysInside(g: Graph, q: Query, starts: set<ItemPointer>, closed: set<ItemPointer>,
                                           path: seq<ItemPointer>, i: nat)
    requires Usable(g, q) && starts <= closed && IsPath(g, q, starts, path) && i < |path|
    requires forall x, y :: x in closed && Edge(g, q, x, y) ==> y in closed
    ensures path[i] in closed
  {
    if i == 0 {
    } else {
      PathStaysInside(g, q, starts, closed, path, i - 1);
      assert Edge(g, q, path[i - 1], path[i - 1 + 1]);
    }
  }

  /** Filtered searches are sound: if every start carries a queried label, so
      does every node the search can return. */
  lemma FilteredSearchIsSound(g: Graph, q: Query, starts: set<ItemPointer>, x: ItemPointer)
    requires Usable(g, q) && q.Filters() && starts <= g.nodes.Keys
    requires forall s :: s in starts ==> q.Passes(g, s)
    requires Reachable(g, q, starts, x)
    ensures x in g.nodes && Overlap(q.labels.value, g.nodes[x].labels.value)
  {
    var path :| IsPath(g, q, starts, path) && path[|path| - 1] == x;
    if |path| > 1 {
      assert Edge(g, q, path[|path| - 2], path[|path| - 2 + 1]);
    }
  }

  // ----- a graph that changes while it is searched -----

  /** The graph at successive times, and two graphs that bound it: every link of
      `lower` is there at all times, every link ever there is in `upper`. */
  datatype World = World(times: seq<Graph>, lower: Graph, upper: Graph) {
    /** Nodes stay, keep their labels, and once deleted remain so. */
    ghost predicate Valid(q: Query) {
      && times != []
      && Usable(lower, q) && Usable(upper, q)
      && lower.nodes.Keys == upper.nodes.Keys == Last().nodes.Keys
      && (forall t :: 0 <= t < |times| ==> Usable(times[t], q) && Within(lower, times[t], upper))
      && (forall t, u :: 0 <= t <= u < |times| ==> Outlives(times[t], times[u]))
    }

    function Last(): Graph
      requires times != []
    {
      times[|times| - 1]
    }
  }

  ghost predicate Within(lower: Graph, g: Graph, upper: Graph) {
    forall x :: x in g.nodes ==>
      && x in lower.nodes && x in upper.nodes
      && lower.nodes[x].labels == g.nodes[x].labels == upper.nodes[x].labels
      && ToSet(lower.nodes[x].neighbors) <= ToSet(g.nodes[x].neighbors) <= ToSet(upper.nodes[x].neighbors)
  }

  ghost predicate Outlives(g: Graph, later: Graph) {
    forall x :: x in g.nodes ==> x in later.nodes && (g.IsDeleted(x) ==> later.IsDeleted(x))
  }

  /** A graph that stays as it is bounds itself. */
  function Still(g: Graph): World {
    World([g], g, g)
  }

  lemma StillIsValid(g: Graph, q: Query)
    requires Usable(g, q)
    ensures Still(g).Valid(q) && Still(g).Last() == g
  {
  }

  // ----- the search state -----

  ghost predicate SortedBy(q: Query, s: seq<ItemPointer>) {
    forall i, j :: 0 <= i < j < |s| ==> q.AsClose(s[i], s[j])
  }

  /** slice::partition_point for `|x| x < head` on a sorted slice. */
  function PartitionPoint(q: Query, s: seq<ItemPointer>, head: ItemPointer): (n: nat)
    ensures n <= |s|
    ensures forall i :: 0 <= i < n ==> q.Closer(s[i], head)
    ensures n < |s| ==> !q.Closer(s[n], head)
  {
    if s == [] || !q.Closer(s[0], head) then 0 else 1 + PartitionPoint(q, s[1..], head)
  }

  lemma AsCloseIsTotal(q: Query, x: ItemPointer, y: ItemPointer, z: ItemPointer)
    ensures q.AsClose(x, y) || q.AsClose(y, x)
    ensures q.Closer(x, y) <==> !q.AsClose(y, x)
    ensures q.AsClose(x, y) && q.AsClose(y, z) ==> q.AsClose(x, z)
  {
    CmpIsTotalPreorder(q.distance(x), q.distance(y), q.distance(z));
  }

  /** Closeness is about the distances to the query; ties may go either way. */
  lemma CloserMeans(q: Query, x: ItemPointer, y: ItemPointer)
    ensures q.distance(x).value < q.distance(y).value ==> q.Closer(x, y)
    ensures q.AsClose(x, y) ==> q.distance(x).value <= q.distance(y).value
    ensures q.AsClose(x, y) <==> !q.Closer(y, x)
  {
    CmpMeans(q.distance(x), q.distance(y));
    CmpMeans(q.distance(y), q.distance(x));
  }

  lemma InsertKeepsSorted(q: Query, s: seq<ItemPointer>, head: ItemPointer)
    requires SortedBy(q, s)
    ensures var n := PartitionPoint(q, s, head); SortedBy(q, s[..n] + [head] + s[n..])
  {
    hide Query.AsClose, Query.Closer, PartitionPoint;
    var n := PartitionPoint(q, s, head);
    forall i | 0 <= i < |s| ensures if i < n then q.AsClose(s[i], head) else q.AsClose(head, s[i]) {
      AsCloseIsTotal(q, s[i], head, head);
      AsCloseIsTotal(q, head, s[i], s[i]);
      if n <= i {
        AsCloseIsTotal(q, s[n], head, s[i]);
        AsCloseIsTotal(q, head, s[n], s[i]);
      }
    }
  }

  /** A nonempty heap has a least element. */
  lemma {:induction false} LeastExists(q: Query, s: set<ItemPointer>)
    requires s != {}
    ensures exists x :: x in s && forall y :: y in s ==> q.AsClose(x, y)
    decreases s
  {
    hide Query.AsClose;
    var z :| z in s;
    AsCloseIsTotal(q, z, z, z);
    if s == {z} {
    } else {
      LeastExists(q, s - {z});
      var x :| x in s - {z} && forall y :: y in s - {z} ==> q.AsClose(x, y);
      AsCloseIsTotal(q, x, z, z);
      AsCloseIsTotal(q, x, x, x);
      var least := if q.AsClose(x, z) then x else z;
      forall y | y in s ensures q.AsClose(least, y) {
        if y != z {
          AsCloseIsTotal(q, z, x, y);
        }
      }
    }
  }

  class ListSearchResult {
    const query: Query
    var candidates: set<ItemPointer>   // the heap, as a set: pointers are unique
    var visited: seq<ItemPointer>
    var inserted: set<ItemPointer>
    ghost var returned: seq<ItemPointer>

    ghost predicate Valid()
      reads this
    {
      && SortedBy(query, visited)
      && Distinct(visited) && Distinct(returned)
      && Discovered() <= inserted
      && candidates !! ToSet(visited) !! ToSet(returned)
    }

    /** Everything ever put into the heap. */
    ghost function Discovered(): set<ItemPointer>
      reads this
    {
      candidates + ToSet(visited) + ToSet(returned)
    }

    /** The search is in step with the graph: discovered nodes are reachable,
        what was seen but not discovered is filtered out, and all lasting
        neighbours of the nodes taken from the heap, except `pending`, have been
        seen. */
    ghost predicate Explored(w: World, starts: set<ItemPointer>, pending: set<ItemPointer>)
      reads this
      requires w.Valid(query)
    {
      && inserted <= w.upper.nodes.Keys
      && starts <= Discovered()
      && (forall x :: x in Discovered() ==> Reachable(w.upper, query, starts, x))
      && (forall x :: x in inserted && x !in Discovered() ==> !query.Passes(w.upper, x))
      && (forall x, y ::
            (x in visited || x in returned) && x !in pending && x in w.lower.nodes
            && y in w.lower.nodes[x].neighbors ==>
              y in inserted)
    }

    /** Everything seen so far is stored at this time. */
    ghost predicate Stored(w: World, now: nat)
      reads this
    {
      now < |w.times| && inserted <= w.times[now].nodes.Keys
    }

    /** When a search step stops, no candidate can belong among the closest
        `limit` visited nodes. */
    ghost predicate FrontierSettled(limit: nat)
      reads this
      requires limit >= 1
    {
      candidates == {} || (|visited| > limit && forall c :: c in candidates ==> query.AsClose(visited[limit - 1], c))
    }

    /** The frontier was settled when `x` was taken off the visited nodes. */
    ghost predicate SettledWith(x: ItemPointer, limit: nat)
      reads this
      requires limit >= 1
    {
      || candidates == {}
      || (|visited| >= limit && forall c :: c in candidates ==> query.AsClose(([x] + visited)[limit - 1], c))
    }

    constructor Empty(query: Query)
      ensures Valid() && this.query == query && Discovered() == {} && inserted == {} && visited == [] && returned == []
    {
      this.query := query;
      candidates, visited, inserted, returned := {}, [], {}, [];
    }

    method PrepareInsert(x: ItemPointer) returns (added: bool)
      modifies this`inserted
      ensures added <==> x !in old(inserted)
      ensures inserted == old(inserted) + {x}
    {
      added := x !in inserted;
      inserted := inserted + {x};
    }

    /** The start nodes go into the heap without a label check, once each. */
    method InsertStartNodes(w: World, starts: seq<ItemPointer>)
      requires Valid() && w.Valid(query) && inserted == {} && visited == [] && returned == []
      requires ToSet(starts) <= w.times[0].nodes.Keys
      modifies this
      ensures Valid() && returned == [] && visited == []
      ensures Explored(w, ToSet(starts), {}) && Stored(w, 0) && candidates == ToSet(starts)
    {
      for i := 0 to |starts|
        invariant Valid() && returned == [] && visited == []
        invariant inserted == candidates == ToSet(starts[..i])
      {
        var added := PrepareInsert(starts[i]);
        if added {
          candidates := candidates + {starts[i]};
        }
        assert ToSet(starts[..i + 1]) == ToSet(starts[..i]) + {starts[i]};
      }
      assert starts[..|starts|] == starts;
      forall x | x in ToSet(starts) ensures Reachable(w.upper, query, ToSet(starts), x) {
        ReachableStart(w.upper, query, ToSet(starts), x);
      }
    }

    /** Move the least candidate into the visited list, unless the list already
        holds more than `limit` nodes and the candidate is no closer than the
        one at the limit. */
    method VisitClosest(limit: nat) returns (position: Option<nat>)
      requires Valid() && limit >= 1
      modifies this`candidates, this`visited
      ensures Valid() && Discovered() == old(Discovered())
      ensures position.None? <==> old(FrontierSettled(limit))
      ensures position.None? ==> candidates == old(candidates) && visited == old(visited)
      ensures position.Some? ==>
        var i := position.value;
        && i < |visited| == |old(visited)| + 1
        && visited[i] in old(candidates)
        && (forall c :: c in old(candidates) ==> query.AsClose(visited[i], c))
        && candidates == old(candidates) - {visited[i]}
        && visited == old(visited)[..i] + [visited[i]] + old(visited)[i..]
    {
      hide Query.AsClose, Query.Closer, PartitionPoint;
      if candidates == {} {
        return None;
      }
      LeastExists(query, candidates);
      var head :| head in candidates && forall c :: c in candidates ==> query.AsClose(head, c);
      if |visited| > limit && !query.Closer(head, visited[limit - 1]) {
        forall c | c in candidates ensures query.AsClose(visited[limit - 1], c) {
          AsCloseIsTotal(query, head, visited[limit - 1], c);
          AsCloseIsTotal(query, visited[limit - 1], head, c);
        }
        return None;
      }
      if |visited| > limit {
        AsCloseIsTotal(query, head, visited[limit - 1], head);
      }
      var i := PartitionPoint(query, visited, head);
      InsertKeepsSorted(query, visited, head);
      InsertMembers(visited, i, head);
      candidates := candidates - {head};
      visited := visited[..i] + [head] + visited[i..];
      position := Some(i);
    }

    /** Expand a visited node as it is now: each neighbour not seen before enters
        the heap unless the label filter rejects it. */
    method VisitLsn(w: World, now: nat, position: nat, ghost starts: set<ItemPointer>)
      requires Valid() && w.Valid(query) && position < |visited| && Stored(w, now)
      requires Explored(w, starts, {visited[position]})
      modifies this`candidates, this`inserted
      ensures Valid() && Explored(w, starts, {}) && Stored(w, now)
      ensures old(candidates) <= candidates && old(inserted) <= inserted
    {
      hide Reachable, IsPath, SortedBy, Distinct, World.Valid, Within;
      var x, g := visited[position], w.times[now];
      assert x in Discovered() && x in g.nodes;
      WorldNow(w, query, now, x);
      var neighbors := g.nodes[x].neighbors;
      for i := 0 to |neighbors|
        invariant Valid() && Explored(w, starts, {x}) && Stored(w, now)
        invariant old(candidates) <= candidates && old(inserted) <= inserted
        invariant forall k :: 0 <= k < i ==> neighbors[k] in inserted
      {
        var y := neighbors[i];
        NeighborNow(w, query, now, x, y);
        var added := PrepareInsert(y);
        if !added {
          continue;
        }
        if query.labels.Some? && !query.noFilter {
          var overlaps := Overlaps(query.labels.value, g.nodes[y].labels.value);
          if !overlaps {
            continue;
          }
        }
        assert Edge(w.upper, query, x, y);
        ReachableStep(w.upper, query, starts, x, y);
        candidates := candidates + {y};
      }
    }

    /** Advance until the closest `visitNClosest` nodes have been visited. Other
        backends may change the graph before each expansion. */
    method GreedySearchIterate(w: World, now: nat, visitNClosest: nat, ghost starts: set<ItemPointer>)
      returns (visitedNodes: set<ItemPointer>, later: nat)
      requires Valid() && w.Valid(query) && visitNClosest >= 1 && Explored(w, starts, {}) && Stored(w, now)
      modifies this`candidates, this`visited, this`inserted
      ensures Valid() && Explored(w, starts, {}) && FrontierSettled(visitNClosest) && returned == old(returned)
      ensures now <= later && Stored(w, later)
      ensures old(Discovered()) <= Discovered()
      ensures visitedNodes == ToSet(visited) - ToSet(old(visited))
      ensures ToSet(old(visited)) <= ToSet(visited)
      ensures old(FrontierSettled(visitNClosest)) ==> visitedNodes == {} && candidates == old(candidates)
    {
      hide World.Valid, Reachable, Query.AsClose, SortedBy;
      visitedNodes, later := {}, now;
      while true
        invariant Valid() && Explored(w, starts, {}) && now <= later && Stored(w, later)
        invariant old(Discovered()) <= Discovered()
        invariant ToSet(visited) == ToSet(old(visited)) + visitedNodes
        invariant visitedNodes !! ToSet(old(visited))
        invariant old(FrontierSettled(visitNClosest)) ==>
          visitedNodes == {} && candidates == old(candidates) && visited == old(visited)
        decreases w.upper.nodes.Keys - ToSet(visited)
      {
        ghost var before, earlier := visited, Discovered();
        var position := VisitClosest(visitNClosest);
        if position.None? {
          return;
        }
        var x := visited[position.value];
        InsertMembers(before, position.value, x);
        visitedNodes := visitedNodes + {x};
        assert Explored(w, starts, {x});
        var t :| later <= t < |w.times|;
        NodesStay(w, query, later, t);
        later := t;
        VisitLsn(w, later, position.value, starts);
        assert x in w.upper.nodes.Keys - ToSet(before);
      }
    }

    /** Remove and return the closest visited node. It stays in `inserted`, so
        it is never discovered again. */
    method Consume(g: Graph) returns (item: Option<(ItemPointer, ItemPointer)>)
      requires Valid() && inserted <= g.nodes.Keys
      modifies this`visited, this`returned
      ensures Valid() && Discovered() == old(Discovered())
      ensures item.None? ==> old(visited) == [] == visited && returned == old(returned)
      ensures item.Some? ==>
        && old(visited) != [] && visited == old(visited)[1..]
        && item.value.1 == old(visited)[0] && item.value.1 in g.nodes
        && item.value.0 == g.nodes[item.value.1].heap
        && returned == old(returned) + [item.value.1]
    {
      if visited == [] {
        return None;
      }
      var x := visited[0];
      assert x in Discovered();
      assert ToSet(visited) == {x} + ToSet(visited[1..]);
      assert ToSet(returned + [x]) == ToSet(returned) + {x};
      visited := visited[1..];
      returned := returned + [x];
      item := Some((g.nodes[x].heap, x));
    }

    /** The next live node of a scan: search, take the closest, skip tombstones.
        What it returns is live when read, and at least as close as everything
        discovered so far and not yet returned. */
    method Next(w: World, now: nat, searchListSize: nat, ghost starts: set<ItemPointer>)
      returns (item: Option<(ItemPointer, ItemPointer)>, later: nat)
      requires Valid() && w.Valid(query) && searchListSize >= 1 && Explored(w, starts, {}) && Stored(w, now)
      modifies this`candidates, this`visited, this`inserted, this`returned
      ensures Valid() && Explored(w, starts, {}) && now <= later && Stored(w, later)
      ensures old(returned) <= returned
      ensures item.None? ==> candidates == {} && visited == []
      ensures forall k :: |old(returned)| <= k < |returned| - (if item.Some? then 1 else 0) ==>
        DeletedInTheEnd(w, returned[k])
      ensures item.Some? ==>
        var x := item.value.1;
        && |returned| > |old(returned)| && returned[|returned| - 1] == x
        && LiveAt(w, later, x) && item.value.0 == w.times[later].nodes[x].heap
        && forall y :: y in candidates || y in visited ==>
             query.AsClose(x, y) && query.distance(x).value <= query.distance(y).value
      ensures item.Some? ==> SettledWith(item.value.1, searchListSize)
    {
      hide Reachable, Distinct, World.Valid, DeletedInTheEnd, Query.AsClose, SortedBy;
      later := now;
      while true
        invariant Valid() && Explored(w, starts, {}) && now <= later && Stored(w, later)
        invariant old(returned) <= returned
        invariant forall k :: |old(returned)| <= k < |returned| ==> DeletedInTheEnd(w, returned[k])
        decreases w.upper.nodes.Keys - ToSet(returned)
      {
        ghost var before := returned;
        var _, settledAt := GreedySearchIterate(w, later, searchListSize, starts);
        ghost var settled := visited;
        var t :| settledAt <= t < |w.times|;
        NodesStay(w, query, settledAt, t);
        later := t;
        item := Consume(w.times[later]);
        assert Explored(w, starts, {});
        if item.None? {
          return;
        }
        var x := item.value.1;
        ConsumedIsClosest(query, settled, candidates, searchListSize);
        assert x in Discovered() && x !in ToSet(before) && x in ToSet(returned) by {
          assert returned[|returned| - 1] == x;
        }
        if item.value.0.offset == INVALID_OFFSET {
          StaysDeleted(w, query, later, x);
          continue;
        }
        return;
      }
    }
  }

  ghost predicate LiveAt(w: World, t: nat, x: ItemPointer) {
    t < |w.times| && x in w.times[t].nodes && !w.times[t].IsDeleted(x)
  }

  ghost predicate DeletedInTheEnd(w: World, x: ItemPointer) {
    w.times != [] && x in w.Last().nodes && w.Last().IsDeleted(x)
  }

  lemma WorldNow(w: World, q: Query, t: nat, x: ItemPointer)
    requires w.Valid(q) && t < |w.times| && x in w.times[t].nodes
    ensures Usable(w.lower, q) && Usable(w.upper, q) && Usable(w.times[t], q)
    ensures x in w.lower.nodes && x in w.upper.nodes
    ensures forall y :: y in w.lower.nodes[x].neighbors ==> y in w.times[t].nodes[x].neighbors
  {
    assert forall y :: y in w.lower.nodes[x].neighbors ==> y in ToSet(w.lower.nodes[x].neighbors);
  }

  /** A neighbour read now is a stored node and can be passed in the upper bound
      exactly if it can be passed now. */
  lemma NeighborNow(w: World, q: Query, t: nat, x: ItemPointer, y: ItemPointer)
    requires w.Valid(q) && t < |w.times| && x in w.times[t].nodes && y in w.times[t].nodes[x].neighbors
    ensures y in w.times[t].nodes && x in w.upper.nodes && y in w.upper.nodes && y in w.upper.nodes[x].neighbors
    ensures w.upper.nodes[y].labels == w.times[t].nodes[y].labels
    ensures q.Filters() ==> w.times[t].nodes[y].labels.Some?
  {
    assert y in ToSet(w.times[t].nodes[x].neighbors);
  }

  lemma NodesStay(w: World, q: Query, t: nat, u: nat)
    requires w.Valid(q) && t <= u < |w.times|
    ensures w.times[t].nodes.Keys <= w.times[u].nodes.Keys <= w.upper.nodes.Keys
  {
    assert Outlives(w.times[t], w.times[u]) && Outlives(w.times[u], w.times[|w.times| - 1]);
  }

  lemma StaysDeleted(w: World, q: Query, t: nat, x: ItemPointer)
    requires w.Valid(q) && t < |w.times| && x in w.times[t].nodes && w.times[t].IsDeleted(x)
    ensures DeletedInTheEnd(w, x)
  {
    assert Outlives(w.times[t], w.times[|w.times| - 1]);
  }

  /** The first visited node of a settled frontier is closest overall. */
  lemma ConsumedIsClosest(q: Query, visited: seq<ItemPointer>, candidates: set<ItemPointer>, limit: nat)
    requires SortedBy(q, visited) && visited != [] && limit >= 1
    requires candidates == {} || (|visited| > limit && forall c :: c in candidates ==> q.AsClose(visited[limit - 1], c))
    ensures forall y :: y in candidates || y in visited ==>
      q.AsClose(visited[0], y) && q.distance(visited[0]).value <= q.distance(y).value
  {
    forall y | q.AsClose(visited[0], y) ensures q.distance(visited[0]).value <= q.distance(y).value {
      CloserMeans(q, visited[0], y);
    }
    hide Query.AsClose;
    AsCloseIsTotal(q, visited[0], visited[0], visited[0]);
    forall y | y in candidates ensures q.AsClose(visited[0], y) {
      assert limit > 1 ==> q.AsClose(visited[0], visited[limit - 1]);
      AsCloseIsTotal(q, visited[0], visited[limit - 1], y);
    }
  }

  /** The one-shot search of an insertion, while the graph may change. What it
      returns is reachable by links that were there at some time. It returns all
      nodes reachable by links that last, or more than `limit` nodes such that
      every lasting link out of the result ends no closer than the `limit`-th
      closest node in it. `order` lists the result by distance. */
  method GreedySearchForBuild(w: World, query: Query, starts: seq<ItemPointer>, limit: nat)
    returns (visitedNodes: set<ItemPointer>, ghost order: seq<ItemPointer>)
    requires w.Valid(query) && ToSet(starts) <= w.times[0].nodes.Keys && limit >= 1
    ensures ToSet(order) == visitedNodes && Distinct(order) && SortedBy(query, order)
    ensures forall x :: x in visitedNodes ==> Reachable(w.upper, query, ToSet(starts), x)
    ensures
      || (forall x :: Reachable(w.lower, query, ToSet(starts), x) ==> x in visitedNodes)
      || (|order| > limit && forall x, y :: x in visitedNodes && Edge(w.lower, query, x, y) && y !in visitedNodes ==>
            query.AsClose(order[limit - 1], y))
  {
    hide Reachable, SortedBy, Query.AsClose;
    ghost var roots := ToSet(starts);
    var l := new ListSearchResult.Empty(query);
    l.InsertStartNodes(w, starts);
    var later: nat;
    visitedNodes, later := l.GreedySearchIterate(w, 0, limit, roots);
    order := l.visited;
    assert visitedNodes == ToSet(order);
    FrontierHasEdges(w, query, roots, l);
    if l.candidates == {} {
      ClosedHasReachable(w.lower, query, roots, visitedNodes);
    }
  }

  /** Lasting links lead from what has been taken from the heap to what has been
      discovered. */
  lemma FrontierHasEdges(w: World, q: Query, starts: set<ItemPointer>, l: ListSearchResult)
    requires w.Valid(q) && l.query == q && l.Valid() && l.Explored(w, starts, {})
    ensures starts <= l.Discovered()
    ensures forall x, y :: (x in l.visited || x in l.returned) && Edge(w.lower, q, x, y) ==> y in l.Discovered()
  {
    hide Reachable;
    forall x, y | (x in l.visited || x in l.returned) && Edge(w.lower, q, x, y) ensures y in l.Discovered() {
      assert y in l.inserted && y in w.Last().nodes;
      assert Within(w.lower, w.times[|w.times| - 1], w.upper);
    }
  }

  /** The node is a start, or a lasting link leads to it from one of the first
      `k + 1` results: by the time of the k-th result it had been discovered. */
  ghost predicate KnownBy(w: World, q: Query, starts: set<ItemPointer>, out: seq<ItemPointer>, k: nat, y: ItemPointer)
    requires w.Valid(q) && k < |out|
  {
    y in starts || exists i :: 0 <= i <= k && Edge(w.lower, q, out[i], y)
  }

  /** No result is farther than a later one that was known by then. */
  ghost predicate GreedyOrder(w: World, q: Query, starts: set<ItemPointer>, out: seq<ItemPointer>)
    requires w.Valid(q)
  {
    forall k, m :: 0 <= k < m < |out| && KnownBy(w, q, starts, out, k, out[m]) ==> q.AsClose(out[k], out[m])
  }

  /** Nor is it farther than anything known by then and not yet returned. */
  ghost predicate NothingOverdue(w: World, q: Query, starts: set<ItemPointer>, out: seq<ItemPointer>,
                                 returned: seq<ItemPointer>)
    requires w.Valid(q)
  {
    forall k, y :: 0 <= k < |out| && y !in returned && KnownBy(w, q, starts, out, k, y) ==> q.AsClose(out[k], y)
  }

  lemma OrderStep(w: World, starts: set<ItemPointer>, out: seq<ItemPointer>, x: ItemPointer,
                  before: seq<ItemPointer>, lsr: ListSearchResult)
    requires w.Valid(lsr.query) && lsr.Valid() && lsr.Explored(w, starts, {})
    requires GreedyOrder(w, lsr.query, starts, out) && NothingOverdue(w, lsr.query, starts, out, before)
    requires before <= lsr.returned && x !in before && x in lsr.returned
    requires forall y :: y in out ==> y in lsr.returned
    requires forall y :: y in lsr.candidates || y in lsr.visited ==> lsr.query.AsClose(x, y)
    ensures GreedyOrder(w, lsr.query, starts, out + [x])
    ensures NothingOverdue(w, lsr.query, starts, out + [x], lsr.returned)
  {
    var q, longer, n := lsr.query, out + [x], |out|;
    hide World.Valid, Query.AsClose, KnownBy, GreedyOrder, NothingOverdue;
    forall y | y !in lsr.returned && KnownBy(w, q, starts, longer, n, y) ensures q.AsClose(x, y) {
      KnownIsDiscovered(w, starts, longer, n, lsr, y);
    }
    OrderGrows(w, q, starts, out, x, before, lsr.returned);
  }

  lemma KnownIsDiscovered(w: World, starts: set<ItemPointer>, out: seq<ItemPointer>, k: nat, lsr: ListSearchResult,
                          y: ItemPointer)
    requires w.Valid(lsr.query) && lsr.Valid() && lsr.Explored(w, starts, {})
    requires k < |out| && (forall z :: z in out ==> z in lsr.returned)
    requires KnownBy(w, lsr.query, starts, out, k, y) && y !in lsr.returned
    ensures y in lsr.candidates || y in lsr.visited
  {
    FrontierHasEdges(w, lsr.query, starts, lsr);
    hide Reachable, ListSearchResult.Explored;
    if y !in starts {
      assert Usable(w.lower, lsr.query);
      var i :| 0 <= i <= k && Edge(w.lower, lsr.query, out[i], y);
      assert out[i] in lsr.returned;
    }
    assert y in lsr.Discovered();
  }

  lemma OrderGrows(w: World, q: Query, starts: set<ItemPointer>, out: seq<ItemPointer>, x: ItemPointer,
                   before: seq<ItemPointer>, after: seq<ItemPointer>)
    requires w.Valid(q) && GreedyOrder(w, q, starts, out) && NothingOverdue(w, q, starts, out, before)
    requires before <= after && x !in before
    requires forall y :: y !in after && KnownBy(w, q, starts, out + [x], |out|, y) ==> q.AsClose(x, y)
    ensures GreedyOrder(w, q, starts, out + [x]) && NothingOverdue(w, q, starts, out + [x], after)
  {
    var longer, n := out + [x], |out|;
    forall k, y | 0 <= k < n && KnownBy(w, q, starts, longer, k, y) ensures KnownBy(w, q, starts, out, k, y) {
      KnownEarlier(w, q, starts, out, x, k, y);
    }
    hide World.Valid, Query.AsClose, KnownBy;
    assert forall y :: y in before ==> y in after;
  }

  lemma KnownEarlier(w: World, q: Query, starts: set<ItemPointer>, out: seq<ItemPointer>, x: ItemPointer, k: nat,
                     y: ItemPointer)
    requires w.Valid(q) && k < |out| && KnownBy(w, q, starts, out + [x], k, y)
    ensures KnownBy(w, q, starts, out, k, y)
  {
    if y !in starts {
      assert Usable(w.lower, q);
      var i :| 0 <= i <= k && Edge(w.lower, q, (out + [x])[i], y);
      assert (out + [x])[i] == out[i];
    }
  }

  /** A scan that calls `Next` until it gets nothing, while the graph may change.
      It terminates and returns no node twice. Each result was live when it was
      read, at a time no earlier than the one before it, and is reachable by
      links that were there at some time; every node that is reachable by lasting
      links and not deleted in the end is among the results; and the order is
      greedy: a result is farther than a later one only if that one was not yet
      known. */
  method ScanWhileChanging(w: World, query: Query, starts: seq<ItemPointer>, searchListSize: nat)
    returns (out: seq<ItemPointer>, times: seq<nat>)
    requires w.Valid(query) && ToSet(starts) <= w.times[0].nodes.Keys && searchListSize >= 1
    ensures Distinct(out) && |times| == |out|
    ensures forall k :: 0 <= k < |out| ==> LiveAt(w, times[k], out[k])
    ensures forall k, m :: 0 <= k < m < |times| ==> times[k] <= times[m]
    ensures forall x :: x in out ==> Reachable(w.upper, query, ToSet(starts), x)
    ensures forall x :: Reachable(w.lower, query, ToSet(starts), x) && !DeletedInTheEnd(w, x) ==> x in out
    ensures GreedyOrder(w, query, ToSet(starts), out)
  {
    hide Reachable, DeletedInTheEnd, LiveAt, World.Valid, GreedyOrder, Scanning;
    ghost var roots := ToSet(starts);
    var lsr := new ListSearchResult.Empty(query);
    lsr.InsertStartNodes(w, starts);
    out, times := [], [];
    var now := 0;
    ScanStarts(w, roots, lsr);
    while true
      invariant fresh(lsr) && lsr.query == query && Scanning(w, roots, lsr, out, times, now)
      decreases w.upper.nodes.Keys - ToSet(lsr.returned)
    {
      var found: bool;
      found, out, times, now := ScanOn(w, lsr, out, times, now, searchListSize, roots);
      if !found {
        return;
      }
    }
  }

  /** The state of a scan between two results. */
  ghost predicate Scanning(w: World, starts: set<ItemPointer>, lsr: ListSearchResult, out: seq<ItemPointer>,
                           times: seq<nat>, now: nat)
    requires w.Valid(lsr.query)
    reads lsr
  {
    && lsr.Valid() && lsr.Explored(w, starts, {}) && lsr.Stored(w, now)
    && ReadInOrder(w, out, times, now)
    && Accounted(w, out, lsr.returned)
    && GreedyOrder(w, lsr.query, starts, out)
    && NothingOverdue(w, lsr.query, starts, out, lsr.returned)
  }

  lemma ScanStarts(w: World, starts: set<ItemPointer>, lsr: ListSearchResult)
    requires w.Valid(lsr.query) && lsr.Valid() && lsr.Explored(w, starts, {}) && lsr.Stored(w, 0)
    requires lsr.returned == []
    ensures Scanning(w, starts, lsr, [], [], 0)
  {
    hide ListSearchResult.Explored;
  }

  /** One more result of a scan, or the end of it. */
  method ScanOn(w: World, lsr: ListSearchResult, out: seq<ItemPointer>, times: seq<nat>, now: nat,
                searchListSize: nat, ghost starts: set<ItemPointer>)
    returns (found: bool, longer: seq<ItemPointer>, more: seq<nat>, later: nat)
    requires w.Valid(lsr.query) && Scanning(w, starts, lsr, out, times, now) && searchListSize >= 1
    modifies lsr`candidates, lsr`visited, lsr`inserted, lsr`returned
    ensures Scanning(w, starts, lsr, longer, more, later)
    ensures found ==> w.upper.nodes.Keys - ToSet(lsr.returned) < w.upper.nodes.Keys - ToSet(old(lsr.returned))
    ensures !found ==> IsScan(w, lsr.query, starts, longer, more)
  {
    hide Reachable, SortedBy, DeletedInTheEnd, LiveAt, World.Valid, GreedyOrder, NothingOverdue, ReadInOrder, Accounted,
      Distinct, Query.AsClose, ListSearchResult.Valid, ListSearchResult.Explored, IsScan;
    ghost var before := lsr.returned;
    var item, at := lsr.Next(w, now, searchListSize, starts);
    later := at;
    ReturnedOnce(w, lsr, starts);
    NewResult(w, out, before, lsr.returned, item);
    if item.None? {
      found, longer, more := false, out, times;
      ExhaustedScan(w, lsr.query, starts, lsr);
      ReadLater(w, out, times, now, later);
      OverdueLater(w, lsr.query, starts, out, before, lsr.returned);
      ResultsOf(w, lsr.query, starts, out, times, later, lsr.returned);
    } else {
      found, longer, more := true, out + [item.value.1], times + [later];
      OrderStep(w, starts, out, item.value.1, before, lsr);
      ReadNext(w, out, times, now, item.value.1, later);
      assert item.value.1 in ToSet(lsr.returned) && item.value.1 !in ToSet(before);
    }
  }

  /** What a finished scan promises. */
  ghost predicate IsScan(w: World, q: Query, starts: set<ItemPointer>, out: seq<ItemPointer>, times: seq<nat>)
    requires w.Valid(q)
  {
    && Distinct(out) && |times| == |out|
    && (forall k :: 0 <= k < |out| ==> LiveAt(w, times[k], out[k]))
    && (forall k, m :: 0 <= k < m < |times| ==> times[k] <= times[m])
    && (forall x :: x in out ==> Reachable(w.upper, q, starts, x))
    && (forall x :: Reachable(w.lower, q, starts, x) && !DeletedInTheEnd(w, x) ==> x in out)
    && GreedyOrder(w, q, starts, out)
  }

  /** Each result was live when it was read, and the times of reading grow. */
  ghost predicate ReadInOrder(w: World, out: seq<ItemPointer>, times: seq<nat>, now: nat) {
    && |times| == |out|
    && (forall k :: 0 <= k < |out| ==> LiveAt(w, times[k], out[k]) && times[k] <= now)
    && forall k, m :: 0 <= k < m < |times| ==> times[k] <= times[m]
  }

  /** The results are what the search has returned, tombstones left out. */
  ghost predicate Accounted(w: World, out: seq<ItemPointer>, returned: seq<ItemPointer>) {
    && Distinct(out)
    && (forall x :: x in out ==> x in returned)
    && forall x :: x in returned ==> x in out || DeletedInTheEnd(w, x)
  }

  lemma ReadNext(w: World, out: seq<ItemPointer>, times: seq<nat>, now: nat, x: ItemPointer, later: nat)
    requires ReadInOrder(w, out, times, now) && now <= later && LiveAt(w, later, x)
    ensures ReadInOrder(w, out + [x], times + [later], later)
  {
    hide LiveAt;
  }

  lemma ReadLater(w: World, out: seq<ItemPointer>, times: seq<nat>, now: nat, later: nat)
    requires ReadInOrder(w, out, times, now) && now <= later
    ensures ReadInOrder(w, out, times, later)
  {
    hide LiveAt;
  }

  lemma OverdueLater(w: World, q: Query, starts: set<ItemPointer>, out: seq<ItemPointer>,
                     before: seq<ItemPointer>, after: seq<ItemPointer>)
    requires w.Valid(q) && NothingOverdue(w, q, starts, out, before) && before <= after
    ensures NothingOverdue(w, q, starts, out, after)
  {
    hide World.Valid, Query.AsClose, KnownBy;
    assert forall y :: y in before ==> y in after;
  }

  lemma ReturnedOnce(w: World, lsr: ListSearchResult, starts: set<ItemPointer>)
    requires w.Valid(lsr.query) && lsr.Valid() && lsr.Explored(w, starts, {})
    ensures Distinct(lsr.returned) && ToSet(lsr.returned) <= w.upper.nodes.Keys
  {
  }

  lemma ResultsOf(w: World, q: Query, starts: set<ItemPointer>, out: seq<ItemPointer>, times: seq<nat>, now: nat,
                  returned: seq<ItemPointer>)
    requires w.Valid(q) && ReadInOrder(w, out, times, now) && Accounted(w, out, returned)
    requires forall x :: x in returned ==> Reachable(w.upper, q, starts, x)
    requires forall x :: Reachable(w.lower, q, starts, x) ==> x in returned
    requires GreedyOrder(w, q, starts, out)
    ensures IsScan(w, q, starts, out, times)
  {
    hide Reachable, DeletedInTheEnd, LiveAt, World.Valid, Distinct, GreedyOrder;
  }

  /** One call of `Next` adds its item, and otherwise tombstones only. */
  lemma NewResult(w: World, out: seq<ItemPointer>, before: seq<ItemPointer>, after: seq<ItemPointer>,
                  item: Option<(ItemPointer, ItemPointer)>)
    requires Accounted(w, out, before) && Distinct(after) && before <= after
    requires forall k :: |before| <= k < |after| - (if item.Some? then 1 else 0) ==> DeletedInTheEnd(w, after[k])
    requires item.Some? ==> |after| > |before| && after[|after| - 1] == item.value.1
    ensures Accounted(w, if item.Some? then out + [item.value.1] else out, after)
    ensures item.Some? ==> item.value.1 !in before && item.value.1 in ToSet(after)
    ensures forall x :: x in out ==> x in after
    ensures ToSet(before) <= ToSet(after)
  {
    hide DeletedInTheEnd;
    var longer := if item.Some? then out + [item.value.1] else out;
    assert forall x :: x in before ==> x in after;
    if item.Some? {
      assert item.value.1 !in before && item.value.1 !in out;
    }
    forall x | x in after ensures x in longer || DeletedInTheEnd(w, x) {
      var k :| 0 <= k < |after| && after[k] == x;
    }
  }

  lemma ExhaustedScan(w: World, q: Query, starts: set<ItemPointer>, lsr: ListSearchResult)
    requires w.Valid(q) && lsr.query == q && lsr.Valid() && lsr.Explored(w, starts, {})
    requires lsr.candidates == {} && lsr.visited == []
    ensures forall x :: x in lsr.returned ==> Reachable(w.upper, q, starts, x)
    ensures forall x :: Reachable(w.lower, q, starts, x) ==> x in lsr.returned
  {
    hide Reachable;
    var closed := ToSet(lsr.returned);
    assert lsr.Discovered() == closed;
    FrontierHasEdges(w, q, starts, lsr);
    ClosedHasReachable(w.lower, q, starts, closed);
  }

  /** On a graph that stays as it is, a scan yields every live node reachable
      from the start nodes under the filter, once each, in greedy order, and
      nothing else. */
  method ScanAll(g: Graph, query: Query, starts: seq<ItemPointer>, searchListSize: nat) returns (out: seq<ItemPointer>)
    requires Usable(g, query) && ToSet(starts) <= g.nodes.Keys && searchListSize >= 1
    ensures Distinct(out)
    ensures forall x :: x in out <==> Reachable(g, query, ToSet(starts), x) && x in g.nodes && !g.IsDeleted(x)
    ensures Still(g).Valid(query) && GreedyOrder(Still(g), query, ToSet(starts), out)
  {
    hide Reachable, SortedBy, Distinct, GreedyOrder;
    StillIsValid(g, query);
    var times: seq<nat>;
    out, times := ScanWhileChanging(Still(g), query, starts, searchListSize);
    forall x | x in out ensures x in g.nodes && !g.IsDeleted(x) {
      var k :| 0 <= k < |out| && out[k] == x;
      assert LiveAt(Still(g), times[k], x);
    }
  }

  lemma InsertMembers(s: seq<ItemPointer>, i: nat, x: ItemPointer)
    requires i <= |s|
    ensures ToSet(s[..i] + [x] + s[i..]) == ToSet(s) + {x}
    ensures Distinct(s) && x !in s ==> Distinct(s[..i] + [x] + s[i..])
  {
    assert s == s[..i] + s[i..];
  }
}
