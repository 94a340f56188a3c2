/** Runs of a whole index: backends append nodes, merge neighbour lists, vacuum,
    and publish entry points, in any interleaving; and scans that start from the
    entry points fetched at one moment and read the graph at later ones. */
module IndexRun {
  import opened Labels
  import opened Merging
  import opened Pointers
  import opened Sequences
  import Adjacency
  import EntryPoints
  import LiveScan
  import Search

  datatype Index = Index(store: Adjacency.State, entry: EntryPoints.State)

  datatype Event =
    | Store(actor: nat, step: Adjacency.Step)
    | Entry(backend: nat, move: EntryPoints.Step)

  /** A backend turns to the entry points for a node that it has written, with the
      labels that it has written it with. */
  ghost predicate Enabled(env: Env, s: Index, e: Event) {
    match e
    case Store(a, step) => Adjacency.Enabled(env, s.store, a, step)
    case Entry(b, move) =>
      && EntryPoints.Enabled(s.entry, b, move)
      && (move.Create? ==> s.store.Exists(move.x) && move.labels == env.GetLabels(move.x))
  }

  ghost function Apply(env: Env, s: Index, e: Event): Index
    requires Enabled(env, s, e)
  {
    match e
    case Store(a, step) => s.(store := Adjacency.Apply(env, s.store, a, step))
    case Entry(b, move) => s.(entry := EntryPoints.Apply(s.entry, b, move))
  }

  ghost predicate IsRun(env: Env, run: seq<Index>, events: seq<Event>) {
    && |run| == |events| + 1
    && run[0] == Index(Adjacency.State(map[], map[], map[], [], map[], {}), EntryPoints.State(None, None, map[], map[]))
    && forall i :: 0 <= i < |events| ==>
         Enabled(env, run[i], events[i]) && run[i + 1] == Apply(env, run[i], events[i])
  }

  // ----- the two machines seen alone -----

  function Stores(run: seq<Index>, events: seq<Event>, n: nat): (stores: seq<Adjacency.State>)
    requires n <= |events| < |run|
    ensures stores != []
  {
    if n == 0 then [run[0].store]
    else if events[n - 1].Store? then Stores(run, events, n - 1) + [run[n].store]
    else Stores(run, events, n - 1)
  }

  function Steps(events: seq<Event>, n: nat): seq<Adjacency.Event>
    requires n <= |events|
  {
    if n == 0 then []
    else if events[n - 1].Store? then Steps(events, n - 1) + [Adjacency.Event(events[n - 1].actor, events[n - 1].step)]
    else Steps(events, n - 1)
  }

  function Entries(run: seq<Index>, events: seq<Event>, n: nat): (entries: seq<EntryPoints.State>)
    requires n <= |events| < |run|
    ensures entries != []
  {
    if n == 0 then [run[0].entry]
    else if events[n - 1].Entry? then Entries(run, events, n - 1) + [run[n].entry]
    else Entries(run, events, n - 1)
  }

  function Moves(events: seq<Event>, n: nat): seq<EntryPoints.Event>
    requires n <= |events|
  {
    if n == 0 then []
    else if events[n - 1].Entry? then
      Moves(events, n - 1) + [EntryPoints.Event(events[n - 1].backend, events[n - 1].move)]
    else Moves(events, n - 1)
  }

  lemma {:induction false} StoresAreRun(env: Env, run: seq<Index>, events: seq<Event>, n: nat)
    requires IsRun(env, run, events) && n <= |events|
    ensures Adjacency.IsRun(env, Stores(run, events, n), Steps(events, n))
    ensures |Stores(run, events, n)| == |Steps(events, n)| + 1
    ensures Stores(run, events, n)[|Steps(events, n)|] == run[n].store
  {
    hide Adjacency.Enabled, Adjacency.Apply, EntryPoints.Enabled, EntryPoints.Apply;
    if n == 0 {
    } else {
      StoresAreRun(env, run, events, n - 1);
      assert Enabled(env, run[n - 1], events[n - 1]) && run[n] == Apply(env, run[n - 1], events[n - 1]);
      hide IsRun, Adjacency.IsRun;
      if events[n - 1].Store? {
        StoresGrow(env, Stores(run, events, n - 1), Steps(events, n - 1), events[n - 1].actor, events[n - 1].step);
      }
    }
  }

  lemma StoresGrow(env: Env, stores: seq<Adjacency.State>, steps: seq<Adjacency.Event>, a: nat, step: Adjacency.Step)
    requires Adjacency.IsRun(env, stores, steps) && Adjacency.Enabled(env, stores[|steps|], a, step)
    ensures Adjacency.IsRun(env, stores + [Adjacency.Apply(env, stores[|steps|], a, step)],
                            steps + [Adjacency.Event(a, step)])
  {
    hide Adjacency.Enabled, Adjacency.Apply;
  }

  lemma {:induction false} EntriesAreRun(env: Env, run: seq<Index>, events: seq<Event>, n: nat)
    requires IsRun(env, run, events) && n <= |events|
    ensures EntryPoints.IsRun(Entries(run, events, n), Moves(events, n))
    ensures |Entries(run, events, n)| == |Moves(events, n)| + 1
    ensures Entries(run, events, n)[|Moves(events, n)|] == run[n].entry
  {
    hide Adjacency.Enabled, Adjacency.Apply, EntryPoints.Enabled, EntryPoints.Apply;
    if n == 0 {
    } else {
      EntriesAreRun(env, run, events, n - 1);
      assert Enabled(env, run[n - 1], events[n - 1]) && run[n] == Apply(env, run[n - 1], events[n - 1]);
    }
  }

  lemma {:induction false} StoresExtend(run: seq<Index>, events: seq<Event>, m: nat, n: nat)
    requires m <= n <= |events| < |run|
    ensures Stores(run, events, m) <= Stores(run, events, n)
    decreases n
  {
    if m == n {
    } else {
      StoresExtend(run, events, m, n - 1);
    }
  }

  // ----- what links the two -----

  /** Every node that the entry points know is stored, with the same labels. */
  ghost predicate Linked(env: Env, s: Index) {
    forall x :: x in s.entry.nodes ==> s.store.Exists(x) && s.entry.nodes[x] == env.GetLabels(x)
  }

  lemma {:induction false} RunIsLinked(env: Env, run: seq<Index>, events: seq<Event>, n: nat)
    requires IsRun(env, run, events) && n <= |events|
    ensures Linked(env, run[n])
  {
    if n == 0 {
    } else {
      RunIsLinked(env, run, events, n - 1);
      NodesPersist(env, run, events, n - 1, n);
      var s, e := run[n - 1], events[n - 1];
      assert Enabled(env, s, e) && run[n] == Apply(env, s, e);
      hide IsRun;
      StepLinks(env, s, e);
    }
  }

  lemma StepLinks(env: Env, s: Index, e: Event)
    requires Enabled(env, s, e) && Linked(env, s)
    requires forall x: ItemPointer :: s.store.Exists(x) ==> Apply(env, s, e).store.Exists(x)
    ensures Linked(env, Apply(env, s, e))
  {
    hide Adjacency.Enabled, Adjacency.Apply, Adjacency.State.Exists, EntryPoints.Published;
  }

  lemma NodesPersist(env: Env, run: seq<Index>, events: seq<Event>, m: nat, n: nat)
    requires IsRun(env, run, events) && m <= n <= |events|
    ensures forall x: ItemPointer :: run[m].store.Exists(x) ==> run[n].store.Exists(x)
  {
    StoresAreRun(env, run, events, m);
    StoresAreRun(env, run, events, n);
    StoresExtend(run, events, m, n);
    hide IsRun, Adjacency.IsRun;
    Adjacency.RunEvolves(env, Stores(run, events, n), Steps(events, n), |Steps(events, m)|, |Steps(events, n)|);
  }

  /** Start nodes fetched at one moment are stored at every later one, and those
      of a filtered query pass its filter. */
  lemma RootsAreStored(env: Env, run: seq<Index>, events: seq<Event>, i: nat, j: nat, q: Search.Query)
    requires IsRun(env, run, events) && i <= j <= |events|
    ensures forall x :: x in EntryPoints.StartSet(run[i].entry.persisted, q.labels) ==>
      run[j].store.Exists(x) && (q.Filters() && env.hasLabels ==> LiveScan.Passes(env, q, x))
  {
    EntriesAreRun(env, run, events, i);
    RunIsLinked(env, run, events, i);
    NodesPersist(env, run, events, i, j);
    hide IsRun, EntryPoints.IsRun, Adjacency.State.Exists;
    EntryPoints.RunKeepsInv(Entries(run, events, i), Moves(events, i), |Moves(events, i)|);
    hide EntryPoints.PhaseOk;
    var s := run[i].entry;
    if s.persisted.Some? {
      var roots := s.persisted.value;
      EntryPoints.StartsAtRoots(roots, q.labels);
      if q.labels.Some? {
        forall x | x in roots.RootsFor(q.labels.value)
          ensures run[j].store.Exists(x) && (q.Filters() && env.hasLabels ==> LiveScan.Passes(env, q, x))
        {
          EntryPoints.RootsForCarry(s, roots, q.labels.value, x);
        }
      }
    }
  }

  /** A scan of an index in use: it fetches the entry points at moment `i`, begins
      at moment `j`, and reads each page in the state that the run has reached by
      then, while other backends insert, merge, vacuum and publish. It starts at
      the default root, or at the roots of the queried labels. It returns no node
      twice, only nodes that were live when they were read, in greedy order, and
      with a label filter only nodes that pass it; and it misses no node that
      lasting links reach from those roots, the roots included, and that is live
      in the end. */
  method ScanIndex(env: Env, run: seq<Index>, events: seq<Event>, i: nat, j: nat, q: Search.Query,
                   searchListSize: nat)
    returns (out: seq<ItemPointer>, times: seq<nat>)
    requires IsRun(env, run, events) && i <= j <= |events|
    requires (q.Filters() ==> env.hasLabels) && searchListSize >= 1
    ensures var stores, from := Stores(run, events, |events|), |Stores(run, events, j)| - 1;
      && from < |stores| && stores[from] == run[j].store && stores[|stores| - 1] == run[|events|].store
      && LiveScan.IsLiveScan(stores, from, q, EntryPoints.StartSet(run[i].entry.persisted, q.labels), out, times)
    ensures forall r ::
      r in EntryPoints.StartSet(run[i].entry.persisted, q.labels) && LiveScan.LiveIn(run[|events|].store, r) ==>
        r in out
    ensures q.Filters() ==> forall x :: x in out ==> LiveScan.Passes(env, q, x)
  {
    assert |events| < |run|;
    hide IsRun, Adjacency.IsRun, LiveScan.IsLiveScan, LiveScan.Passes, Stores, Steps, EntryPoints.StartSet,
      LiveScan.LiveIn, Adjacency.State.Exists, Search.Query.Filters;
    var starts := EntryPoints.ChooseStarts(run[i].entry.persisted, q.labels);
    var stores, from := Stores(run, events, |events|), |Stores(run, events, j)| - 1;
    StartsReady(env, run, events, i, j, q, starts);
    out, times := LiveScan.ScanDuringRun(env, stores, Steps(events, |events|), from, q, starts, searchListSize);
    LiveScan.StartsAreFound(stores, from, q, ToSet(starts), out, times);
  }

  lemma StartsReady(env: Env, run: seq<Index>, events: seq<Event>, i: nat, j: nat, q: Search.Query,
                    starts: seq<ItemPointer>)
    requires IsRun(env, run, events) && i <= j <= |events|
    requires forall x :: x in starts ==> x in EntryPoints.StartSet(run[i].entry.persisted, q.labels)
    ensures var stores, from := Stores(run, events, |events|), |Stores(run, events, j)| - 1;
      && Adjacency.IsRun(env, stores, Steps(events, |events|))
      && from < |stores| && stores[from] == run[j].store && stores[|stores| - 1] == run[|events|].store
      && (forall x :: x in starts ==> stores[from].Exists(x))
      && (q.Filters() && env.hasLabels ==> forall x :: x in starts ==> LiveScan.Passes(env, q, x))
  {
    assert |events| < |run|;
    hide IsRun, Adjacency.IsRun, LiveScan.Passes, Stores, Steps, EntryPoints.StartSet, Adjacency.State.Exists;
    ScanMayStart(env, run, events, j);
    RootsAreStored(env, run, events, i, j, q);
  }

  lemma ScanMayStart(env: Env, run: seq<Index>, events: seq<Event>, j: nat)
    requires IsRun(env, run, events) && j <= |events|
    ensures var stores, from := Stores(run, events, |events|), |Stores(run, events, j)| - 1;
      && Adjacency.IsRun(env, stores, Steps(events, |events|))
      && from < |stores| && stores[from] == run[j].store && stores[|stores| - 1] == run[|events|].store
  {
    assert |events| < |run|;
    StoresAreRun(env, run, events, j);
    StoresAreRun(env, run, events, |events|);
    hide IsRun, Adjacency.IsRun, Stores, Steps;
    StoresExtend(run, events, j, |events|);
    var start, all := Stores(run, events, j), Stores(run, events, |events|);
    assert all[|start| - 1] == start[|start| - 1];
  }
}
