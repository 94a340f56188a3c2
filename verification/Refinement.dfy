/** A parallel build on shared pages performs runs of the cache machine: what the
    workers do to pages by snapshots, locks, copies and retries is, seen through
    the neighbour lists, one merge on the current list for each entry. */
module Refinement {
  import opened Merging
  import opened Pointers
  import opened Sequences
  import Adjacency
  import BuilderCache
  import Nodes
  import StoredGraph

  /** The pages with all backends, and the caches of the workers among them. */
  datatype Build = Build(store: Adjacency.State, workers: map<nat, BuilderCache.Worker>)

  datatype Event =
    | Store(actor: nat, step: Adjacency.Step)
    | Cache(worker: nat, work: BuilderCache.Step)

  /** The stored lists. */
  function DiskOf(s: Adjacency.State): (disk: map<ItemPointer, seq<ItemPointer>>)
    ensures disk.Keys == StoredGraph.Nodes(s)
    ensures forall x :: x in disk ==> s.Exists(x) && disk[x] == s.ListOf(x)
  {
    assert forall x :: x in StoredGraph.Nodes(s) ==> s.Exists(x);
    map x | x in StoredGraph.Nodes(s) :: s.ListOf(x)
  }

  function View(b: Build): BuilderCache.State {
    BuilderCache.State(DiskOf(b.store), b.workers, {}, {})
  }

  /** The merge that a worker has in hand, as a job for the pages. */
  function JobOf(me: BuilderCache.Worker): Adjacency.Job
    requires me.hand.Merging?
  {
    Adjacency.Job(me.hand.entry.key, Mode.Builder(me.hand.alwaysPrune), me.hand.entry.neighbors)
  }

  /** A worker begins the merge it has in hand, does nothing else until it has
      committed it, and does not give it up. */
  ghost predicate Enabled(env: Env, b: Build, e: Event) {
    match e
    case Store(a, step) =>
      && Adjacency.Enabled(env, b.store, a, step)
      && (step.Begin? ==> a in b.workers && b.workers[a].hand.Merging? && step.job == JobOf(b.workers[a]))
      && (step.Commit? ==> a in b.workers)
      && (step.Abort? ==> !b.store.PhaseOf(a).Active())
    case Cache(w, work) =>
      && !work.Create? && !work.Commit?
      && !b.store.PhaseOf(w).Active()
      && BuilderCache.Enabled(env, View(b), w, work)
  }

  ghost function Apply(env: Env, b: Build, e: Event): Build
    requires Enabled(env, b, e)
  {
    match e
    case Store(a, step) =>
      Build(Adjacency.Apply(env, b.store, a, step),
            if step.Commit? then b.workers[a := b.workers[a].(hand := BuilderCache.Empty)] else b.workers)
    case Cache(w, work) =>
      b.(workers := BuilderCache.Apply(env, View(b), w, work).workers)
  }

  ghost predicate HandsMatch(b: Build) {
    forall a :: a in b.store.phases && b.store.phases[a].Active() ==>
      a in b.workers && b.workers[a].hand.Merging? && b.store.phases[a].job == JobOf(b.workers[a])
  }

  ghost predicate Inv(env: Env, b: Build) {
    Adjacency.Inv(env, b.store) && HandsMatch(b)
  }

  /** The cache machine is in the same state. */
  ghost predicate Related(b: Build, c: BuilderCache.State) {
    c.disk == DiskOf(b.store) && c.workers == b.workers
  }

  /** The step of the cache machine that a step amounts to, if any. */
  function Meaning(b: Build, e: Event): Option<BuilderCache.Step> {
    match e
    case Store(a, step) =>
      if step.Commit? then Some(BuilderCache.Commit)
      else if step.AppendCommit? && b.store.PhaseOf(a).Appending? then
        Some(BuilderCache.Create(ItemPointer(b.store.PhaseOf(a).block, |b.store.PhaseOf(a).copy| + 1)))
      else None
    case Cache(_, work) => Some(work)
  }

  function ActorOf(e: Event): nat {
    match e
    case Store(a, _) => a
    case Cache(w, _) => w
  }

  // ----- what a step does to the stored lists -----

  lemma DiskHas(s: Adjacency.State, x: ItemPointer)
    ensures x in DiskOf(s) <==> s.Exists(x)
    ensures s.Exists(x) ==> DiskOf(s)[x] == s.ListOf(x)
  {
    StoredGraph.NodesExist(s, x);
  }

  lemma QuietKeepsDisk(env: Env, s: Adjacency.State, a: nat, step: Adjacency.Step)
    requires Adjacency.Inv(env, s) && Adjacency.Enabled(env, s, a, step) && !step.Commit? && !step.AppendCommit?
    ensures DiskOf(Adjacency.Apply(env, s, a, step)) == DiskOf(s)
  {
    hide DiskOf, Adjacency.Apply, Adjacency.Enabled, Adjacency.GraphInv, Adjacency.PhaseOk, Adjacency.LedgerInv;
    var t := Adjacency.Apply(env, s, a, step);
    Adjacency.StepPages(env, s, a, step);
    Adjacency.SameLists(env, s, t, a, step);
    SameDisk(s, t);
  }

  lemma SameDisk(s: Adjacency.State, t: Adjacency.State)
    requires forall x: ItemPointer :: s.Exists(x) ==> t.Exists(x) && t.ListOf(x) == s.ListOf(x)
    requires forall x: ItemPointer :: t.Exists(x) ==> s.Exists(x)
    ensures DiskOf(t) == DiskOf(s)
  {
    hide DiskOf, Adjacency.State.ListOf, Adjacency.State.Exists;
    forall x ensures x in DiskOf(t) <==> x in DiskOf(s)
             ensures x in DiskOf(s) ==> DiskOf(t)[x] == DiskOf(s)[x]
    {
      DiskHas(s, x);
      DiskHas(t, x);
    }
  }

  lemma OneListDiffers(s: Adjacency.State, t: Adjacency.State, y: ItemPointer, list: seq<ItemPointer>)
    requires forall x: ItemPointer :: s.Exists(x) && x != y ==> t.Exists(x) && t.ListOf(x) == s.ListOf(x)
    requires forall x: ItemPointer :: t.Exists(x) && x != y ==> s.Exists(x)
    requires t.Exists(y) && t.ListOf(y) == list
    ensures DiskOf(t) == DiskOf(s)[y := list]
  {
    hide DiskOf, Adjacency.State.ListOf, Adjacency.State.Exists;
    var disk := DiskOf(s)[y := list];
    forall x ensures x in DiskOf(t) <==> x in disk
             ensures x in disk ==> DiskOf(t)[x] == disk[x]
    {
      DiskHas(s, x);
      DiskHas(t, x);
    }
  }

  lemma AppendAddsNode(env: Env, s: Adjacency.State, a: nat, heap: ItemPointer)
    requires Adjacency.Inv(env, s) && Adjacency.Enabled(env, s, a, Adjacency.AppendCommit(heap))
    ensures var x := ItemPointer(s.PhaseOf(a).block, |s.PhaseOf(a).copy| + 1);
      !s.Exists(x) && DiskOf(Adjacency.Apply(env, s, a, Adjacency.AppendCommit(heap))) == DiskOf(s)[x := []]
  {
    hide DiskOf, Adjacency.GraphInv, Adjacency.PhaseOk, Adjacency.LedgerInv, Nodes.Adjacency;
    var t, ph := Adjacency.Apply(env, s, a, Adjacency.AppendCommit(heap)), s.PhaseOf(a);
    assert ph.copy == s.PageAt(ph.block);
    var x := ItemPointer(ph.block, |ph.copy| + 1);
    assert t.At(x) == Adjacency.NewRecord(env, x, heap);
    assert t.ListOf(x) == [];
    OneListDiffers(s, t, x, []);
  }

  lemma CommitMergesList(env: Env, s: Adjacency.State, a: nat)
    requires Adjacency.Inv(env, s) && Adjacency.Enabled(env, s, a, Adjacency.Commit)
    ensures var ph, t := s.PhaseOf(a), Adjacency.Apply(env, s, a, Adjacency.Commit);
      && ph.Active() && s.Exists(ph.job.of) && env.Labelled(ph.job.added)
      && DiskOf(t) == DiskOf(s)[ph.job.of :=
           PointersOf(Merge(env, ph.job.of, ph.job.mode, s.ListOf(ph.job.of), ph.job.added).neighbors)]
  {
    hide DiskOf, Adjacency.GraphInv, Adjacency.LedgerInv, Merge, Adjacency.CountTo, Adjacency.Apply;
    var ph, t := s.PhaseOf(a), Adjacency.Apply(env, s, a, Adjacency.Commit);
    assert Adjacency.PhaseOk(env, s, a);
    Adjacency.CommitPages(env, s, a);
    var m := Merge(env, ph.job.of, ph.job.mode, s.ListOf(ph.job.of), ph.job.added);
    OneListDiffers(s, t, ph.job.of, PointersOf(m.neighbors));
  }

  // ----- the simulation -----

  lemma StepKeepsInv(env: Env, b: Build, e: Event)
    requires Inv(env, b) && Enabled(env, b, e)
    ensures Inv(env, Apply(env, b, e))
  {
    hide Adjacency.Inv, DiskOf;
    if e.Store? {
      Adjacency.StepKeepsInv(env, b.store, e.actor, e.step);
      HandsStay(env, b, e.actor, e.step);
    } else {
      hide Adjacency.State.PhaseOf;
      OthersKeepHands(env, b, e.worker, e.work);
    }
  }

  lemma HandsStay(env: Env, b: Build, a: nat, step: Adjacency.Step)
    requires HandsMatch(b) && Enabled(env, b, Store(a, step))
    ensures HandsMatch(Apply(env, b, Store(a, step)))
  {
    hide Merge, Adjacency.JobOk, Adjacency.CopyList, Adjacency.Edited, Adjacency.Tombstoned, Adjacency.NewRecord;
  }

  lemma OthersKeepHands(env: Env, b: Build, w: nat, work: BuilderCache.Step)
    requires HandsMatch(b) && Enabled(env, b, Cache(w, work))
    ensures HandsMatch(Apply(env, b, Cache(w, work)))
  {
    hide DiskOf, Merge, BuilderCache.Grown, BuilderCache.AfterPush, BuilderCache.HasKey, BuilderCache.Lookup;
  }

  /** Each step of a build is a step of the cache machine, or leaves what that
      machine sees as it is. */
  lemma StepRefines(env: Env, b: Build, e: Event, c: BuilderCache.State)
    requires Inv(env, b) && Enabled(env, b, e) && Related(b, c)
    ensures match Meaning(b, e)
      case None => Related(Apply(env, b, e), c)
      case Some(work) =>
        BuilderCache.Enabled(env, c, ActorOf(e), work)
        && Related(Apply(env, b, e), BuilderCache.Apply(env, c, ActorOf(e), work))
  {
    hide DiskOf, Merge, BuilderCache.Grown, BuilderCache.AfterPush, BuilderCache.HasKey, BuilderCache.Lookup;
    if e.Store? {
      StoreRefines(env, b, e.actor, e.step, c);
    } else {
      CacheRefines(env, b, e.worker, e.work, c);
    }
  }

  lemma CacheRefines(env: Env, b: Build, w: nat, work: BuilderCache.Step, c: BuilderCache.State)
    requires Enabled(env, b, Cache(w, work)) && Related(b, c)
    ensures BuilderCache.Enabled(env, c, w, work)
    ensures Related(Apply(env, b, Cache(w, work)), BuilderCache.Apply(env, c, w, work))
  {
    hide DiskOf, Merge, BuilderCache.Grown, BuilderCache.AfterPush, BuilderCache.HasKey, BuilderCache.Lookup;
  }

  lemma StoreRefines(env: Env, b: Build, a: nat, step: Adjacency.Step, c: BuilderCache.State)
    requires Inv(env, b) && Enabled(env, b, Store(a, step)) && Related(b, c)
    ensures match Meaning(b, Store(a, step))
      case None => Related(Apply(env, b, Store(a, step)), c)
      case Some(work) =>
        BuilderCache.Enabled(env, c, a, work)
        && Related(Apply(env, b, Store(a, step)), BuilderCache.Apply(env, c, a, work))
  {
    hide DiskOf, Merge, Adjacency.Inv, Adjacency.Apply;
    var s := b.store;
    if step.Commit? {
      CommitMergesList(env, s, a);
      DiskHas(s, s.PhaseOf(a).job.of);
    } else if step.AppendCommit? {
      AppendAddsNode(env, s, a, step.heap);
      DiskHas(s, ItemPointer(s.PhaseOf(a).block, |s.PhaseOf(a).copy| + 1));
    } else {
      QuietKeepsDisk(env, s, a, step);
    }
  }

  // ----- whole builds -----

  ghost predicate IsRun(env: Env, builds: seq<Build>, events: seq<Event>) {
    && |builds| == |events| + 1
    && builds[0] == Build(Adjacency.State(map[], map[], map[], [], map[], {}), map[])
    && forall i :: 0 <= i < |events| ==>
         Enabled(env, builds[i], events[i]) && builds[i + 1] == Apply(env, builds[i], events[i])
  }

  /** The machine run follows the build: after `i` events it has made `at[i]`
      steps and is in the state that the build is seen in, and its next step is
      what the next event means. */
  ghost predicate Follows(builds: seq<Build>, events: seq<Event>, states: seq<BuilderCache.State>,
                          works: seq<BuilderCache.Event>, at: seq<nat>) {
    && |builds| == |events| + 1 && |states| == |works| + 1
    && |at| == |events| + 1 && at[0] == 0 && at[|events|] == |works|
    && (forall i :: 0 <= i <= |events| ==> at[i] <= |works| && Related(builds[i], states[at[i]]))
    && forall i :: 0 <= i < |events| ==> FollowsAt(builds[i], events[i], works, at[i], at[i + 1])
  }

  ghost predicate FollowsAt(b: Build, e: Event, works: seq<BuilderCache.Event>, now: nat, next: nat) {
    match Meaning(b, e)
    case None => next == now
    case Some(work) => next == now + 1 && now < |works| && works[now] == BuilderCache.Event(ActorOf(e), work)
  }

  /** Every build on pages, whatever its interleaving, is seen as a run of the
      cache machine that makes the same additions, merges and cache operations in
      the same order, and passes through the same lists and caches. */
  lemma {:induction false} BuildRefines(env: Env, builds: seq<Build>, events: seq<Event>)
    returns (states: seq<BuilderCache.State>, works: seq<BuilderCache.Event>, at: seq<nat>)
    requires IsRun(env, builds, events)
    ensures Inv(env, builds[|events|])
    ensures BuilderCache.IsRun(env, states, works) && Follows(builds, events, states, works, at)
    decreases |events|
  {
    if events == [] {
      states, works, at := [BuilderCache.State(map[], map[], {}, {})], [], [0];
      EmptyBuild(env, builds[0]);
    } else {
      var n := |events| - 1;
      RunPrefix(env, builds, events, n);
      states, works, at := BuildRefines(env, builds[..n + 1], events[..n]);
      FollowsOn(env, builds, events, states, works, at);
      hide IsRun, Inv, Enabled, Apply, Related, Meaning, Follows, FollowsAt, BuilderCache.IsRun, BuilderCache.Enabled,
        BuilderCache.Apply;
      StepKeepsInv(env, builds[n], events[n]);
      states, works, at := FollowStep(env, builds, events, states, works, at);
    }
  }

  lemma FollowsOn(env: Env, builds: seq<Build>, events: seq<Event>, states: seq<BuilderCache.State>,
                  works: seq<BuilderCache.Event>, at: seq<nat>)
    requires |builds| == |events| + 1 && events != []
    requires var n := |events| - 1; Follows(builds[..n + 1], events[..n], states, works, at)
    ensures |at| == |events| && at[|events| - 1] == |works| && |states| == |works| + 1
    ensures Related(builds[|events| - 1], states[|works|])
  {
    hide Related, FollowsAt;
  }

  /** One more event: the machine run is extended by what it means. */
  lemma FollowStep(env: Env, builds: seq<Build>, events: seq<Event>, states: seq<BuilderCache.State>,
                   works: seq<BuilderCache.Event>, at: seq<nat>)
    returns (longer: seq<BuilderCache.State>, more: seq<BuilderCache.Event>, further: seq<nat>)
    requires |builds| == |events| + 1 && events != [] && |states| == |works| + 1
    requires var n := |events| - 1;
      && Inv(env, builds[n]) && Enabled(env, builds[n], events[n]) && builds[n + 1] == Apply(env, builds[n], events[n])
      && Related(builds[n], states[|works|])
      && Follows(builds[..n + 1], events[..n], states, works, at)
    requires BuilderCache.IsRun(env, states, works)
    ensures BuilderCache.IsRun(env, longer, more) && Follows(builds, events, longer, more, further)
  {
    hide Inv, Enabled, Apply, Related, Meaning, BuilderCache.IsRun, BuilderCache.Enabled, BuilderCache.Apply;
    var n := |events| - 1;
    var b, e := builds[n], events[n];
    StepRefines(env, b, e, states[|works|]);
    if Meaning(b, e).Some? {
      longer, more := RunExtended(env, states, works, ActorOf(e), Meaning(b, e).value);
    } else {
      longer, more := states, works;
    }
    further := at + [|more|];
    forall i | 0 <= i <= |events| ensures further[i] <= |more| && Related(builds[i], longer[further[i]]) {
      if i <= n {
        assert builds[..n + 1][i] == builds[i];
      }
    }
    forall i | 0 <= i < |events| ensures FollowsAt(builds[i], events[i], more, further[i], further[i + 1]) {
      if i < n {
        assert builds[..n + 1][i] == builds[i] && events[..n][i] == events[i];
        assert FollowsAt(builds[i], events[i], works, at[i], at[i + 1]);
      }
    }
  }

  // ----- what becomes of the additions of a build -----

  /** Event `m` of the build gives the edge to add_neighbors. */
  ghost predicate Adds(events: seq<Event>, m: nat, edge: BuilderCache.Edge)
    requires m < |events|
  {
    && events[m].Cache? && events[m].work.Add?
    && edge in BuilderCache.Edges(events[m].work.x, PointerSet(events[m].work.additions) - {events[m].work.x})
  }

  /** The event prunes the list of the edge's source, as an addition to a cached
      list or as a merge into the page, and leaves the edge out. */
  ghost predicate PrunesAway(env: Env, b: Build, e: Event, edge: BuilderCache.Edge) {
    && Meaning(b, e).Some?
    && BuilderCache.Enabled(env, View(b), ActorOf(e), Meaning(b, e).value)
    && BuilderCache.PrunesAway(env, View(b), ActorOf(e), Meaning(b, e).value, edge)
  }

  lemma SamePruning(env: Env, b: Build, c: BuilderCache.State, w: nat, work: BuilderCache.Step, edge: BuilderCache.Edge)
    requires Related(b, c) && BuilderCache.Enabled(env, c, w, work) && BuilderCache.PrunesAway(env, c, w, work, edge)
    ensures BuilderCache.Enabled(env, View(b), w, work) && BuilderCache.PrunesAway(env, View(b), w, work, edge)
  {
    hide DiskOf, Merge, BuilderCache.Grown, BuilderCache.HasKey, BuilderCache.Lookup, PointerSet;
  }

  /** The event during which the machine made its k-th step. */
  lemma {:induction false} EventOf(builds: seq<Build>, events: seq<Event>, states: seq<BuilderCache.State>,
                                   works: seq<BuilderCache.Event>, at: seq<nat>, m: nat, k: nat, n: nat)
    returns (i: nat)
    requires Follows(builds, events, states, works, at)
    requires m < n <= |events| && at[m] <= k < at[n]
    ensures m <= i < n && at[i] == k && Meaning(builds[i], events[i]).Some?
    ensures k < |works| && works[k] == BuilderCache.Event(ActorOf(events[i]), Meaning(builds[i], events[i]).value)
    ensures Related(builds[i], states[k])
    decreases n
  {
    hide Related, Meaning;
    assert FollowsAt(builds[n - 1], events[n - 1], works, at[n - 1], at[n]);
    if at[n - 1] <= k {
      i := n - 1;
    } else {
      i := EventOf(builds, events, states, works, at, m, k, n - 1);
    }
  }

  /** Once all caches are drained, the pages hold every addition that the build
      has made, unless that addition or a later event pruned it away; however the
      workers' page accesses interleaved. */
  lemma DrainedPages(env: Env, builds: seq<Build>, events: seq<Event>, m: nat, edge: BuilderCache.Edge)
    requires IsRun(env, builds, events) && |builds| == |events| + 1
    requires var workers := builds[|events|].workers;
      forall w :: w in workers ==> workers[w].cache == [] && workers[w].hand.Empty?
    requires m < |events| && Adds(events, m, edge)
    ensures var store := builds[|events|].store;
      || (store.Exists(edge.0) && edge.1 in store.ListOf(edge.0))
      || exists k :: m <= k < |events| && PrunesAway(env, builds[k], events[k], edge)
  {
    hide IsRun, Inv, DiskOf, BuilderCache.Apply, BuilderCache.Enabled, BuilderCache.PrunesAway, Related;
    var states, works, at := BuildRefines(env, builds, events);
    var store := builds[|events|].store;
    DiskHas(store, edge.0);
    assert FollowsAt(builds[m], events[m], works, at[m], at[m + 1]);
    AtGrows(builds, events, states, works, at, m + 1, |events|);
    if !(store.Exists(edge.0) && edge.1 in store.ListOf(edge.0)) {
      LostInMachine(env, builds[|events|], states, works, at[m], edge);
      var j :| at[m] <= j < |works|
        && BuilderCache.PrunesAway(env, states[j], works[j].worker, works[j].step, edge);
      var k := EventOf(builds, events, states, works, at, m, j, |events|);
      SamePruning(env, builds[k], states[j], works[j].worker, works[j].step, edge);
      assert PrunesAway(env, builds[k], events[k], edge);
    }
  }

  /** At every moment of a build the pages hold only edges that it has added. */
  lemma PagesHoldAdditions(env: Env, builds: seq<Build>, events: seq<Event>, edge: BuilderCache.Edge)
    requires IsRun(env, builds, events) && |builds| == |events| + 1
    requires var store := builds[|events|].store; store.Exists(edge.0) && edge.1 in store.ListOf(edge.0)
    ensures exists m :: 0 <= m < |events| && Adds(events, m, edge)
  {
    hide IsRun, Inv, DiskOf, BuilderCache.Apply, BuilderCache.Enabled;
    var states, works, at := BuildRefines(env, builds, events);
    DiskHas(builds[|events|].store, edge.0);
    AddedInMachine(env, builds[|events|], states, works, edge);
    var j :| 0 <= j < |works| && BuilderCache.Adds(works, j, edge);
    var m := EventOf(builds, events, states, works, at, 0, j, |events|);
    assert Adds(events, m, edge);
  }

  lemma AddedInMachine(env: Env, b: Build, states: seq<BuilderCache.State>, works: seq<BuilderCache.Event>,
                       edge: BuilderCache.Edge)
    requires BuilderCache.IsRun(env, states, works) && |states| == |works| + 1 && Related(b, states[|works|])
    requires b.store.Exists(edge.0) && edge.1 in b.store.ListOf(edge.0)
    ensures exists j :: 0 <= j < |works| && BuilderCache.Adds(works, j, edge)
  {
    hide DiskOf, BuilderCache.Apply, BuilderCache.Enabled, BuilderCache.Adds, BuilderCache.WorkerOk;
    BuilderCache.RunKeepsInv(env, states, works, |works|);
    DiskHas(b.store, edge.0);
    BuilderCache.AddedIsRecorded(env, states, works, |works|, edge);
  }

  lemma {:induction false} AtGrows(builds: seq<Build>, events: seq<Event>, states: seq<BuilderCache.State>,
                                   works: seq<BuilderCache.Event>, at: seq<nat>, i: nat, n: nat)
    requires Follows(builds, events, states, works, at) && i <= n <= |events|
    ensures at[i] <= at[n]
    decreases n
  {
    hide Related, Meaning;
    if i == n {
    } else {
      assert FollowsAt(builds[n - 1], events[n - 1], works, at[n - 1], at[n]);
      AtGrows(builds, events, states, works, at, i, n - 1);
    }
  }

  /** What the drained machine lacks it has pruned. */
  lemma LostInMachine(env: Env, b: Build, states: seq<BuilderCache.State>, works: seq<BuilderCache.Event>, j: nat,
                      edge: BuilderCache.Edge)
    requires BuilderCache.IsRun(env, states, works) && |states| == |works| + 1 && Related(b, states[|works|])
    requires forall w :: w in b.workers ==> b.workers[w].cache == [] && b.workers[w].hand.Empty?
    requires j < |works| && BuilderCache.Adds(works, j, edge)
    requires !(b.store.Exists(edge.0) && edge.1 in b.store.ListOf(edge.0))
    ensures exists k ::
      j <= k < |works| && BuilderCache.PrunesAway(env, states[k], works[k].worker, works[k].step, edge)
  {
    hide DiskOf, BuilderCache.Apply, BuilderCache.Enabled, BuilderCache.PrunesAway, BuilderCache.Adds;
    BuilderCache.DrainedBuild(env, states, works, |works|, edge);
    DiskHas(b.store, edge.0);
    assert !BuilderCache.OnDisk(states[|works|], edge);
  }

  lemma RunPrefix(env: Env, builds: seq<Build>, events: seq<Event>, n: nat)
    requires IsRun(env, builds, events) && n < |events|
    ensures IsRun(env, builds[..n + 1], events[..n])
    ensures Enabled(env, builds[n], events[n]) && builds[n + 1] == Apply(env, builds[n], events[n])
  {
    hide Enabled, Apply;
  }

  lemma RunExtended(env: Env, states: seq<BuilderCache.State>, works: seq<BuilderCache.Event>, w: nat,
                    work: BuilderCache.Step)
    returns (longer: seq<BuilderCache.State>, more: seq<BuilderCache.Event>)
    requires BuilderCache.IsRun(env, states, works) && BuilderCache.Enabled(env, states[|works|], w, work)
    ensures BuilderCache.IsRun(env, longer, more) && |states| == |works| + 1
    ensures longer == states + [BuilderCache.Apply(env, states[|works|], w, work)]
    ensures more == works + [BuilderCache.Event(w, work)]
  {
    hide BuilderCache.Enabled, BuilderCache.Apply;
    longer := states + [BuilderCache.Apply(env, states[|works|], w, work)];
    more := works + [BuilderCache.Event(w, work)];
  }

  lemma EmptyBuild(env: Env, b: Build)
    requires b == Build(Adjacency.State(map[], map[], map[], [], map[], {}), map[])
    ensures Inv(env, b) && Related(b, BuilderCache.State(map[], map[], {}, {}))
  {
    hide Adjacency.PhaseOk, Adjacency.RecordOk;
    assert DiskOf(b.store) == map[];
  }
}
