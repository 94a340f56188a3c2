/** The write-back cache of an index build: an LRU of neighbour lists, filled
    from disk, grown and pruned in memory, and merged back when an entry is
    evicted, flushed or drained. */
module BuilderCache {
  import opened Pointers
  import opened Sequences
  import opened Pruning
  import opened Merging

  // ----- the LRU map, least recently used entry first -----

  datatype Entry = Entry(key: ItemPointer, neighbors: seq<Candidate>)

  type Cache = seq<Entry>

  predicate HasKey(c: Cache, x: ItemPointer) {
    exists i :: 0 <= i < |c| && c[i].key == x
  }

  /** Position of a key, or the length. */
  function IndexOf(c: Cache, x: ItemPointer): (i: nat)
    ensures i <= |c|
    ensures i < |c| ==> c[i].key == x
    ensures forall k :: 0 <= k < i ==> c[k].key != x
  {
    if c == [] || c[0].key == x then 0 else 1 + IndexOf(c[1..], x)
  }

  function Removed(c: Cache, i: nat): Cache {
    if i < |c| then c[..i] + c[i + 1..] else c
  }

  /** LruCache::push: replace the value of a key, or insert it and drop the least
      recently used entry if the cache was full. */
  function Pushed(c: Cache, capacity: nat, e: Entry): Cache
    requires capacity > 0
  {
    if HasKey(c, e.key) then Removed(c, IndexOf(c, e.key)) + [e]
    else if |c| < capacity || c == [] then c + [e]
    else c[1..] + [e]
  }

  function Evicted(c: Cache, capacity: nat, e: Entry): Option<Entry>
    requires capacity > 0
  {
    if HasKey(c, e.key) || |c| < capacity || c == [] then None else Some(c[0])
  }

  ghost predicate DistinctKeys(c: Cache) {
    forall i, j :: 0 <= i < j < |c| ==> c[i].key != c[j].key
  }

  /** Pushing keeps every other entry, in the cache or as the one evicted, and
      drops no entry but the old one of the same key. */
  lemma PushAccounts(c: Cache, capacity: nat, e: Entry)
    requires capacity > 0 && DistinctKeys(c) && |c| <= capacity
    ensures var after, out := Pushed(c, capacity, e), Evicted(c, capacity, e);
      && DistinctKeys(after) && |after| <= capacity
      && e in after
      && (forall f :: f in c && f.key != e.key ==> f in after || out == Some(f))
      && (forall f :: f in after ==> f == e || (f in c && f.key != e.key))
      && (out.Some? ==> out.value in c && out.value.key != e.key)
  {
    var after := Pushed(c, capacity, e);
    if HasKey(c, e.key) {
      var i := IndexOf(c, e.key);
      var k :| 0 <= k < |c| && c[k].key == e.key;
      assert i < |c|;
      RemoveAccounts(c, i);
    } else if |c| < capacity || c == [] {
    } else {
      assert c == [c[0]] + c[1..];
    }
  }

  /** The cache is ordered by use. The pushed entry comes last and the others keep
      their order; what is evicted, exactly when a full cache takes a new key, is
      the first, least recently used one. */
  lemma PushIsByUse(c: Cache, capacity: nat, e: Entry)
    requires capacity > 0 && DistinctKeys(c) && |c| <= capacity
    ensures var after, out := Pushed(c, capacity, e), Evicted(c, capacity, e);
      && after != [] && after[|after| - 1] == e
      && (out.Some? <==> |c| == capacity && forall f :: f in c ==> f.key != e.key)
      && (out.Some? ==> c == [out.value] + after[..|after| - 1])
      && (out.None? && (forall f :: f in c ==> f.key != e.key) ==> after == c + [e])
      && forall i :: 0 <= i < |c| && c[i].key == e.key ==> after == c[..i] + c[i + 1..] + [e]
  {
    if HasKey(c, e.key) {
      var k :| 0 <= k < |c| && c[k].key == e.key;
      assert IndexOf(c, e.key) == k;
      assert c[k] in c;
      assert forall i :: 0 <= i < |c| && c[i].key == e.key ==> i == k;
    } else if |c| >= capacity {
      assert c == [c[0]] + c[1..];
      assert forall f :: f in c ==> f.key != e.key;
    }
  }

  lemma RemoveAccounts(c: Cache, i: nat)
    requires DistinctKeys(c) && i < |c|
    ensures DistinctKeys(Removed(c, i)) && |Removed(c, i)| == |c| - 1
    ensures forall f :: f in Removed(c, i) <==> f in c && f.key != c[i].key
  {
    var r := Removed(c, i);
    assert forall k :: 0 <= k < |r| ==> r[k] == c[if k < i then k else k + 1];
    forall f | f in c && f.key != c[i].key ensures f in r {
      var k :| 0 <= k < |c| && c[k] == f;
      assert r[if k < i then k else k - 1] == f;
    }
  }

  // ----- growing one list in memory -----

  /** get_max_neighbors_during_build: the least integer not below 1.3 times the
      degree bound. */
  function MaxNeighbors(n: nat): (r: nat)
    ensures 10 * r >= 13 * n && 10 * r < 13 * n + 10
  {
    (13 * n + 9) / 10
  }

  lemma CandidatesFromLabelled(env: Env, of: ItemPointer, list: seq<Candidate>)
    requires env.Labelled(list)
    ensures LabelsKnown(env.PruneParams(of), RetainUnseen({of}, list))
  {
    RetainProperties({of}, list);
    var r := RetainUnseen({of}, list);
    assert forall i :: 0 <= i < |r| ==> r[i] in r;
  }

  /** add_neighbors of a builder: the list that replaces the cached one. */
  ghost function Grown(env: Env, of: ItemPointer, cached: seq<Candidate>, added: seq<Candidate>): Merged
    requires env.Labelled(cached + added)
  {
    CandidatesFromLabelled(env, of, cached + added);
    var candidates := RetainUnseen({of}, cached + added);
    if |candidates| > MaxNeighbors(env.numNeighbors)
    then Merged(true, Prune(env.PruneParams(of), candidates))
    else Merged(false, candidates)
  }

  lemma GrownProperties(env: Env, of: ItemPointer, cached: seq<Candidate>, added: seq<Candidate>)
    requires env.Labelled(cached + added)
    ensures var m, all := Grown(env, of, cached, added), PointerSet(cached) + PointerSet(added) - {of};
      && |m.neighbors| <= MaxNeighbors(env.numNeighbors)
      && PointerSet(m.neighbors) <= all
      && (!m.pruned ==> PointerSet(m.neighbors) == all)
      && (m.pruned <==> 10 * |all| >= 13 * env.numNeighbors + 10)
      && env.Labelled(m.neighbors)
  {
    hide Prune, RetainUnseen;
    RetainProperties({of}, cached + added);
    PointerSetConcat(cached, added);
    DistinctCount(RetainUnseen({of}, cached + added));
    CandidatesFromLabelled(env, of, cached + added);
    var m, candidates := Grown(env, of, cached, added), RetainUnseen({of}, cached + added);
    if m.pruned {
      PruneSelects(env.PruneParams(of), candidates);
    }
    PointerSetMonotone(m.neighbors, candidates);
    assert forall i :: 0 <= i < |m.neighbors| ==> m.neighbors[i] in m.neighbors && m.neighbors[i] in cached + added;
  }

  /** A list that grows without pruning keeps what it has, in order, and what is
      new comes behind. */
  lemma GrownKeepsOrder(env: Env, of: ItemPointer, cached: seq<Candidate>, added: seq<Candidate>)
    requires env.Labelled(cached + added) && !Grown(env, of, cached, added).pruned
    requires DistinctPointers(cached) && of !in PointersOf(cached)
    ensures cached <= Grown(env, of, cached, added).neighbors
  {
    hide Prune, RetainUnseen;
    RetainConcat({of}, cached, added);
    RetainAll({of}, cached);
  }

  // ----- builder workers as a step machine -----

  /** What a worker holds outside its cache: a list read from disk and about to
      be cached, or an entry taken out and about to be merged. */
  datatype Hand = Empty | Loaded(entry: Entry) | Merging(entry: Entry, alwaysPrune: bool)

  datatype Worker = Worker(cache: Cache, capacity: nat, hand: Hand)

  type Edge = (ItemPointer, ItemPointer)

  /** `added` records the edges given to add_neighbors, and `rejected` those left
      out by some pruning since they were last given. */
  datatype State = State(
    disk: map<ItemPointer, seq<ItemPointer>>,
    workers: map<nat, Worker>,
    added: set<Edge>,
    rejected: set<Edge>)

  datatype Step =
    | Create(x: ItemPointer)
    | Join(capacity: nat)
    | ReadDisk(x: ItemPointer)
    | Install
    | Initialize(x: ItemPointer)
    | Touch(x: ItemPointer)
    | Add(x: ItemPointer, additions: seq<Candidate>)
    | Take(i: nat)
    | Commit

  ghost function Edges(x: ItemPointer, list: set<ItemPointer>): set<Edge> {
    set y | y in list :: (x, y)
  }

  function Lookup(c: Cache, x: ItemPointer): Entry
    requires HasKey(c, x)
  {
    c[IndexOf(c, x)]
  }

  ghost predicate Free(s: State, w: nat) {
    w in s.workers && s.workers[w].capacity > 0 && s.workers[w].hand.Empty?
  }

  ghost predicate Enabled(env: Env, s: State, w: nat, step: Step) {
    match step
    case Create(x) => x !in s.disk
    case Join(capacity) => w !in s.workers && capacity > 0
    case ReadDisk(x) => Free(s, w) && x in s.disk && !HasKey(s.workers[w].cache, x)
    case Install => w in s.workers && s.workers[w].capacity > 0 && s.workers[w].hand.Loaded?
    case Initialize(x) => Free(s, w) && x in s.disk && !HasKey(s.workers[w].cache, x)
    case Touch(x) => Free(s, w) && HasKey(s.workers[w].cache, x)
    case Add(x, additions) =>
      Free(s, w) && HasKey(s.workers[w].cache, x)
      && env.Labelled(Lookup(s.workers[w].cache, x).neighbors + additions)
    case Take(i) => Free(s, w) && i < |s.workers[w].cache|
    case Commit =>
      w in s.workers && s.workers[w].hand.Merging?
      && s.workers[w].hand.entry.key in s.disk && env.Labelled(s.workers[w].hand.entry.neighbors)
  }

  /** The worker after it has pushed an entry: an evicted entry must be merged. */
  function AfterPush(me: Worker, e: Entry): Worker
    requires me.capacity > 0
  {
    var out := Evicted(me.cache, me.capacity, e);
    Worker(Pushed(me.cache, me.capacity, e), me.capacity, if out.Some? then Merging(out.value, true) else Empty)
  }

  ghost function Apply(env: Env, s: State, w: nat, step: Step): State
    requires Enabled(env, s, w, step)
  {
    match step
    case Create(x) => s.(disk := s.disk[x := []])
    case Join(capacity) => s.(workers := s.workers[w := Worker([], capacity, Empty)])
    case ReadDisk(x) =>
      s.(workers := s.workers[w := s.workers[w].(hand := Loaded(Entry(x, env.DiskNeighbors(x, s.disk[x]))))])
    case Install =>
      s.(workers := s.workers[w := AfterPush(s.workers[w], s.workers[w].hand.entry)])
    case Initialize(x) =>
      s.(workers := s.workers[w := AfterPush(s.workers[w], Entry(x, []))])
    case Touch(x) =>
      s.(workers := s.workers[w := AfterPush(s.workers[w], Lookup(s.workers[w].cache, x))])
    case Add(x, additions) =>
      var cached := Lookup(s.workers[w].cache, x).neighbors;
      var m := Grown(env, x, cached, additions);
      s.(workers := s.workers[w := AfterPush(s.workers[w], Entry(x, m.neighbors))],
         added := s.added + Edges(x, PointerSet(additions) - {x}),
         rejected := s.rejected - Edges(x, PointerSet(additions) - {x})
           + Edges(x, PointerSet(cached) + PointerSet(additions) - {x} - PointerSet(m.neighbors)))
    case Take(i) =>
      var me := s.workers[w];
      s.(workers := s.workers[w := Worker(Removed(me.cache, i), me.capacity, Merging(me.cache[i], false))])
    case Commit =>
      var hand := s.workers[w].hand;
      var x, mine := hand.entry.key, hand.entry.neighbors;
      var m := Merge(env, x, Mode.Builder(hand.alwaysPrune), s.disk[x], mine);
      s.(workers := s.workers[w := s.workers[w].(hand := Empty)],
         disk := s.disk[x := PointersOf(m.neighbors)],
         rejected := s.rejected + Edges(x, ToSet(s.disk[x]) + PointerSet(mine) - {x} - PointerSet(m.neighbors)))
  }

  // ----- what single steps do -----

  /** A pushed entry is what the cache then answers with. */
  lemma PushedIsRead(c: Cache, capacity: nat, e: Entry)
    requires capacity > 0 && DistinctKeys(c) && |c| <= capacity
    ensures HasKey(Pushed(c, capacity, e), e.key) && Lookup(Pushed(c, capacity, e), e.key) == e
  {
    PushAccounts(c, capacity, e);
    PushIsByUse(c, capacity, e);
    hide Pushed, Evicted;
    var after := Pushed(c, capacity, e);
    assert after[|after| - 1].key == e.key;
    assert forall k :: 0 <= k < |after| - 1 ==> after[k].key != after[|after| - 1].key;
  }

  /** An entry pushed out by another is merged with pruning, one that is flushed or
      drained without; and a step that pushes leaves nothing else in hand. */
  lemma EvictionsPrune(env: Env, s: State, w: nat, step: Step)
    requires Enabled(env, s, w, step) && w in s.workers && !s.workers[w].hand.Merging?
    ensures var hand := Apply(env, s, w, step).workers[w].hand;
      hand.Merging? ==> (hand.alwaysPrune <==> !step.Take?)
    ensures step.Take? ==> Apply(env, s, w, step).workers[w].hand == Merging(s.workers[w].cache[step.i], false)
  {
    hide Grown, Merge, Pushed, Evicted, HasKey, Lookup;
  }

  /** A miss fills the cache with the stored list, as it was read. */
  lemma InstallCachesDisk(env: Env, s: State, w: nat, x: ItemPointer)
    requires Enabled(env, s, w, ReadDisk(x)) && DistinctKeys(s.workers[w].cache)
    requires |s.workers[w].cache| <= s.workers[w].capacity
    ensures var read := Apply(env, s, w, ReadDisk(x));
      && Enabled(env, read, w, Install)
      && var cache := Apply(env, read, w, Install).workers[w].cache;
         HasKey(cache, x) && PointersOf(Lookup(cache, x).neighbors) == s.disk[x]
  {
    hide HasKey, Lookup, Pushed, Evicted, DistinctKeys;
    var me := s.workers[w];
    PushedIsRead(me.cache, me.capacity, Entry(x, env.DiskNeighbors(x, s.disk[x])));
  }

  // ----- the invariant -----

  ghost predicate EntryHas(e: Entry, edge: Edge) {
    e.key == edge.0 && edge.1 in PointerSet(e.neighbors)
  }

  /** A worker carries an edge in its cache or in its hand. */
  ghost predicate Carries(me: Worker, edge: Edge) {
    (exists e :: e in me.cache && EntryHas(e, edge)) || (!me.hand.Empty? && EntryHas(me.hand.entry, edge))
  }

  ghost predicate OnDisk(s: State, edge: Edge) {
    edge.0 in s.disk && edge.1 in s.disk[edge.0]
  }

  ghost predicate SomeoneCarries(s: State, edge: Edge) {
    exists w :: w in s.workers && Carries(s.workers[w], edge)
  }

  /** The edge is somewhere: in a cache, in flight, or on disk. */
  ghost predicate Present(s: State, edge: Edge) {
    OnDisk(s, edge) || SomeoneCarries(s, edge)
  }

  ghost predicate EntryOk(env: Env, s: State, e: Entry) {
    && e.key in s.disk
    && env.Labelled(e.neighbors)
    && |e.neighbors| <= MaxNeighbors(env.numNeighbors)
    && forall y :: y in PointerSet(e.neighbors) ==> (e.key, y) in s.added
  }

  ghost predicate WorkerOk(env: Env, s: State, me: Worker) {
    && me.capacity > 0 && |me.cache| <= me.capacity
    && DistinctKeys(me.cache)
    && (forall e :: e in me.cache ==> EntryOk(env, s, e))
    && (!me.hand.Empty? ==> EntryOk(env, s, me.hand.entry))
    && (me.hand.Loaded? ==> !HasKey(me.cache, me.hand.entry.key))
  }

  ghost predicate DiskOk(env: Env, s: State) {
    forall x :: x in s.disk ==>
      && |s.disk[x]| <= env.numNeighbors
      && Distinct(s.disk[x])
      && forall y :: y in s.disk[x] ==> (x, y) in s.added
  }

  /** Every edge ever added is in a cache, in flight, on disk, or was rejected
      by a pruning since it was last added. */
  ghost predicate Accounted(s: State) {
    forall edge :: edge in s.added ==> Present(s, edge) || edge in s.rejected
  }

  ghost predicate Inv(env: Env, s: State) {
    && DiskOk(env, s)
    && (forall w :: w in s.workers ==> WorkerOk(env, s, s.workers[w]))
    && (forall edge :: edge in s.added ==> edge.0 != edge.1 && edge.0 in s.disk)
    && Accounted(s)
  }

  // ----- preservation -----

  /** Pushing moves edges between the cache and the hand but loses none except
      those of the entry it replaces. */
  lemma PushCarries(me: Worker, e: Entry, edge: Edge)
    requires me.capacity > 0 && DistinctKeys(me.cache) && |me.cache| <= me.capacity
    ensures (exists f :: f in me.cache && f.key != e.key && EntryHas(f, edge)) ==> Carries(AfterPush(me, e), edge)
    ensures EntryHas(e, edge) ==> Carries(AfterPush(me, e), edge)
  {
    hide Pushed, Evicted, EntryHas, DistinctKeys;
    PushAccounts(me.cache, me.capacity, e);
  }

  lemma PushKeepsOk(env: Env, s: State, t: State, me: Worker, e: Entry)
    requires WorkerOk(env, s, me) && EntryOk(env, t, e)
    requires s.disk.Keys <= t.disk.Keys && s.added <= t.added
    ensures WorkerOk(env, t, AfterPush(me, e))
  {
    hide Pushed, Evicted, DistinctKeys, EntryOk;
    PushAccounts(me.cache, me.capacity, e);
    forall f | f in me.cache ensures EntryOk(env, t, f) {
      EntryStaysOk(env, s, t, f);
    }
  }

  lemma WorkerIsOk(env: Env, s: State, w: nat)
    requires Inv(env, s) && w in s.workers
    ensures WorkerOk(env, s, s.workers[w])
  {
  }

  lemma CacheIsLabelled(env: Env, s: State, me: Worker)
    requires WorkerOk(env, s, me)
    ensures forall e :: e in me.cache ==> env.Labelled(e.neighbors) && e.key in s.disk
  {
  }

  lemma EntryStaysOk(env: Env, s: State, t: State, e: Entry)
    requires EntryOk(env, s, e) && s.disk.Keys <= t.disk.Keys && s.added <= t.added
    ensures EntryOk(env, t, e)
  {
  }

  lemma WorkerStaysOk(env: Env, s: State, t: State, me: Worker)
    requires WorkerOk(env, s, me) && s.disk.Keys <= t.disk.Keys && s.added <= t.added
    ensures WorkerOk(env, t, me)
  {
    hide EntryOk, DistinctKeys, HasKey;
    forall e | e in me.cache || (!me.hand.Empty? && e == me.hand.entry) ensures EntryOk(env, t, e) {
      EntryStaysOk(env, s, t, e);
    }
  }

  lemma LookupIsCached(c: Cache, x: ItemPointer)
    requires HasKey(c, x)
    ensures Lookup(c, x) in c && Lookup(c, x).key == x
  {
  }

  lemma CommitKeepsDisk(env: Env, s: State, w: nat)
    requires Enabled(env, s, w, Commit) && DiskOk(env, s) && EntryOk(env, s, s.workers[w].hand.entry)
    requires forall edge :: edge in s.added ==> edge.0 != edge.1
    ensures var t := Apply(env, s, w, Commit);
      DiskOk(env, t) && s.disk.Keys == t.disk.Keys && s.added == t.added
  {
    hide Merge, HasKey, DistinctKeys, Distinct;
    var hand := s.workers[w].hand;
    var x, mine := hand.entry.key, hand.entry.neighbors;
    MergeProperties(env, x, Mode.Builder(hand.alwaysPrune), s.disk[x], mine);
    var m := Merge(env, x, Mode.Builder(hand.alwaysPrune), s.disk[x], mine);
    forall y | y in PointersOf(m.neighbors) ensures (x, y) in s.added {
      assert y in PointerSet(m.neighbors);
    }
  }

  /** Where an edge of the merged entry, or of the disk, went. */
  lemma CommitKeepsEdge(env: Env, s: State, w: nat, edge: Edge)
    requires Enabled(env, s, w, Commit) && edge.0 != edge.1
    requires EntryHas(s.workers[w].hand.entry, edge) || OnDisk(s, edge)
    ensures var t := Apply(env, s, w, Commit); OnDisk(t, edge) || edge in t.rejected
  {
    hide Merge, HasKey;
    var t, hand := Apply(env, s, w, Commit), s.workers[w].hand;
    var x, mine := hand.entry.key, hand.entry.neighbors;
    var m := Merge(env, x, Mode.Builder(hand.alwaysPrune), s.disk[x], mine);
    if edge.0 == x && edge.1 !in PointerSet(m.neighbors) {
      var lost := ToSet(s.disk[x]) + PointerSet(mine) - {x} - PointerSet(m.neighbors);
      assert edge.1 in lost;
      assert edge in Edges(x, lost);
    }
  }

  lemma AddEdges(env: Env, s: State, w: nat, x: ItemPointer, additions: seq<Candidate>)
    requires Enabled(env, s, w, Add(x, additions)) && WorkerOk(env, s, s.workers[w])
    requires forall edge :: edge in s.added ==> edge.0 != edge.1
    ensures var t, cached := Apply(env, s, w, Add(x, additions)), Lookup(s.workers[w].cache, x).neighbors;
      var m := Grown(env, x, cached, additions);
      && EntryOk(env, t, Entry(x, m.neighbors))
      && forall y :: y in PointerSet(cached) || y in PointerSet(additions) - {x} ==>
           y in PointerSet(m.neighbors) || (x, y) in t.rejected
  {
    hide Grown, HasKey, DistinctKeys;
    var cached := Lookup(s.workers[w].cache, x).neighbors;
    LookupIsCached(s.workers[w].cache, x);
    assert EntryOk(env, s, Lookup(s.workers[w].cache, x));
    GrownProperties(env, x, cached, additions);
    forall y | y in PointerSet(cached) ensures y != x {
      assert (x, y) in s.added;
    }
  }

  /** An edge that a stepping worker carried is still accounted for. */
  lemma OwnEdge(env: Env, s: State, w: nat, step: Step, edge: Edge)
    requires Enabled(env, s, w, step) && w in s.workers && WorkerOk(env, s, s.workers[w])
    requires Carries(s.workers[w], edge) && edge.0 != edge.1
    requires forall e :: e in s.added ==> e.0 != e.1
    ensures var t := Apply(env, s, w, step);
      Carries(t.workers[w], edge) || OnDisk(t, edge) || edge in t.rejected
  {
    hide Grown, Merge, EntryOk, DistinctKeys, Pushed, Evicted, HasKey, IndexOf;
    var me := s.workers[w];
    match step
    case Install => PushCarries(me, me.hand.entry, edge); NoOtherKey(me, me.hand.entry.key);
    case Initialize(x) => PushCarries(me, Entry(x, []), edge); NoOtherKey(me, x);
    case Touch(x) => LookupIsCached(me.cache, x); PushCarries(me, Lookup(me.cache, x), edge); OnlyEntry(me.cache, x);
    case Add(x, additions) =>
      LookupIsCached(me.cache, x);
      OnlyEntry(me.cache, x);
      AddEdges(env, s, w, x, additions);
      PushCarries(me, Entry(x, Grown(env, x, Lookup(me.cache, x).neighbors, additions).neighbors), edge);
    case Take(i) => RemoveAccounts(me.cache, i); SameKey(me.cache, i);
    case Commit =>
      if EntryHas(me.hand.entry, edge) {
        CommitKeepsEdge(env, s, w, edge);
      }
    case _ =>
  }

  lemma NoOtherKey(me: Worker, x: ItemPointer)
    requires !HasKey(me.cache, x)
    ensures forall e :: e in me.cache ==> e.key != x
  {
  }

  lemma OnlyEntry(c: Cache, x: ItemPointer)
    requires DistinctKeys(c) && HasKey(c, x)
    ensures forall e :: e in c && e.key == x ==> e == Lookup(c, x)
  {
  }

  lemma SameKey(c: Cache, i: nat)
    requires DistinctKeys(c) && i < |c|
    ensures forall e :: e in c && e.key == c[i].key ==> e == c[i]
  {
  }

  lemma DiskEdge(env: Env, s: State, w: nat, step: Step, edge: Edge)
    requires Enabled(env, s, w, step) && OnDisk(s, edge) && edge.0 != edge.1
    ensures var t := Apply(env, s, w, step); OnDisk(t, edge) || edge in t.rejected
  {
    hide Grown, Merge, Pushed, Evicted, HasKey;
    if step.Commit? {
      CommitKeepsEdge(env, s, w, edge);
    }
  }

  lemma StepKeepsAccounts(env: Env, s: State, w: nat, step: Step)
    requires Inv(env, s) && Enabled(env, s, w, step)
    ensures Accounted(Apply(env, s, w, step))
  {
    hide Grown, Merge, EntryOk, DiskOk, Carries, OnDisk, DistinctKeys, Pushed, Evicted, HasKey, AfterPush, Removed;
    var t := Apply(env, s, w, step);
    forall edge | edge in t.added ensures Present(t, edge) || edge in t.rejected {
      if step.Add? && edge in Edges(step.x, PointerSet(step.additions) - {step.x}) {
        NewEdge(env, s, w, step, edge);
        assert w in t.workers;
      } else if edge in s.rejected {
        assert edge in t.rejected;
      } else if OnDisk(s, edge) {
        DiskEdge(env, s, w, step, edge);
      } else {
        var v :| v in s.workers && Carries(s.workers[v], edge);
        if v == w {
          OwnEdge(env, s, w, step, edge);
        }
        assert v in t.workers;
      }
    }
  }

  lemma NewEdge(env: Env, s: State, w: nat, step: Step, edge: Edge)
    requires Inv(env, s) && Enabled(env, s, w, step) && step.Add?
    requires edge in Edges(step.x, PointerSet(step.additions) - {step.x})
    ensures var t := Apply(env, s, w, step);
      w in t.workers && (Carries(t.workers[w], edge) || edge in t.rejected)
  {
    hide Grown, Merge, EntryOk, DiskOk, DistinctKeys, Pushed, Evicted, HasKey, Accounted;
    var me, x, additions := s.workers[w], step.x, step.additions;
    AddEdges(env, s, w, x, additions);
    PushCarries(me, Entry(x, Grown(env, x, Lookup(me.cache, x).neighbors, additions).neighbors), edge);
  }

  lemma StepKeepsWorkers(env: Env, s: State, w: nat, step: Step)
    requires Inv(env, s) && Enabled(env, s, w, step)
    ensures var t := Apply(env, s, w, step); forall v :: v in t.workers ==> WorkerOk(env, t, t.workers[v])
  {
    hide Grown, Merge, EntryOk, DiskOk, DistinctKeys, Pushed, Evicted, HasKey, Accounted, WorkerOk, AfterPush, Removed;
    var t := Apply(env, s, w, step);
    forall v | v in t.workers ensures WorkerOk(env, t, t.workers[v]) {
      if v in s.workers {
        WorkerStaysOk(env, s, t, s.workers[v]);
      }
      if v == w && !step.Create? {
        OwnWorker(env, s, w, step);
      }
    }
  }

  lemma OwnWorker(env: Env, s: State, w: nat, step: Step)
    requires Enabled(env, s, w, step) && !step.Create?
    requires w in s.workers ==> WorkerOk(env, s, s.workers[w])
    requires DiskOk(env, s) && forall edge :: edge in s.added ==> edge.0 != edge.1
    ensures var t := Apply(env, s, w, step); WorkerOk(env, t, t.workers[w])
  {
    hide Grown, Merge, Pushed, Evicted, HasKey, Removed, DistinctKeys, IndexOf;
    var t := Apply(env, s, w, step);
    if step.Join? {
      NothingCached();
    } else {
      var me := s.workers[w];
      match step
      case ReadDisk(x) => ReadIsOk(env, s, x); EntryStaysOk(env, s, t, Entry(x, env.DiskNeighbors(x, s.disk[x])));
      case Install => PushKeepsOk(env, s, t, me, me.hand.entry); AfterPushIsClean(me, me.hand.entry);
      case Initialize(x) => PushKeepsOk(env, s, t, me, Entry(x, []));
      case Touch(x) => LookupIsCached(me.cache, x); PushKeepsOk(env, s, t, me, Lookup(me.cache, x));
      case Add(x, additions) =>
        AddEdges(env, s, w, x, additions);
        PushKeepsOk(env, s, t, me, Entry(x, Grown(env, x, Lookup(me.cache, x).neighbors, additions).neighbors));
      case Take(i) => RemoveAccounts(me.cache, i); assert me.cache[i] in me.cache;
      case Commit => CommitKeepsKeys(env, s, w);
    }
  }

  lemma ReadIsOk(env: Env, s: State, x: ItemPointer)
    requires DiskOk(env, s) && x in s.disk
    ensures EntryOk(env, s, Entry(x, env.DiskNeighbors(x, s.disk[x])))
  {
    assert PointerSet(env.DiskNeighbors(x, s.disk[x])) == ToSet(s.disk[x]);
  }

  lemma NothingCached()
    ensures DistinctKeys([])
  {
  }

  lemma AfterPushIsClean(me: Worker, e: Entry)
    requires me.capacity > 0
    ensures !AfterPush(me, e).hand.Loaded?
  {
  }

  lemma CommitKeepsKeys(env: Env, s: State, w: nat)
    requires Enabled(env, s, w, Commit) && WorkerOk(env, s, s.workers[w])
    ensures var t := Apply(env, s, w, Commit); s.disk.Keys <= t.disk.Keys && s.added == t.added
    ensures var t := Apply(env, s, w, Commit); WorkerOk(env, t, t.workers[w])
  {
    hide Merge, HasKey, DistinctKeys;
    var t := Apply(env, s, w, Commit);
    WorkerStaysOk(env, s, t, s.workers[w].(hand := Empty));
  }

  lemma StepKeepsDisk(env: Env, s: State, w: nat, step: Step)
    requires Inv(env, s) && Enabled(env, s, w, step)
    ensures var t := Apply(env, s, w, step);
      DiskOk(env, t) && forall edge :: edge in t.added ==> edge.0 != edge.1 && edge.0 in t.disk
  {
    hide Grown, Merge, EntryOk, DistinctKeys, Distinct, Pushed, Evicted, HasKey, Accounted, AfterPush, Removed;
    if step.Commit? {
      CommitKeepsDisk(env, s, w);
    } else if step.Add? {
      LookupIsCached(s.workers[w].cache, step.x);
      CachedOnDisk(env, s, s.workers[w], Lookup(s.workers[w].cache, step.x));
    } else if step.Create? {
      EmptyIsDistinct();
    }
  }

  lemma EmptyIsDistinct()
    ensures Distinct<ItemPointer>([])
  {
  }

  lemma CachedOnDisk(env: Env, s: State, me: Worker, e: Entry)
    requires WorkerOk(env, s, me) && e in me.cache
    ensures e.key in s.disk
  {
  }

  lemma StepKeepsInv(env: Env, s: State, w: nat, step: Step)
    requires Inv(env, s) && Enabled(env, s, w, step)
    ensures Inv(env, Apply(env, s, w, step))
  {
    hide Apply, Enabled, WorkerOk, DiskOk, Accounted;
    StepKeepsDisk(env, s, w, step);
    StepKeepsWorkers(env, s, w, step);
    StepKeepsAccounts(env, s, w, step);
  }

  // ----- whole builds -----

  datatype Event = Event(worker: nat, step: Step)

  ghost predicate IsRun(env: Env, states: seq<State>, events: seq<Event>) {
    && |states| == |events| + 1
    && states[0] == State(map[], map[], {}, {})
    && forall i :: 0 <= i < |events| ==>
         Enabled(env, states[i], events[i].worker, events[i].step)
         && states[i + 1] == Apply(env, states[i], events[i].worker, events[i].step)
  }

  lemma {:induction false} RunKeepsInv(env: Env, states: seq<State>, events: seq<Event>, i: nat)
    requires IsRun(env, states, events) && i < |states|
    ensures Inv(env, states[i])
  {
    hide Enabled, Apply;
    if i == 0 {
    } else {
      RunKeepsInv(env, states, events, i - 1);
      hide Inv;
      StepKeepsInv(env, states[i - 1], events[i - 1].worker, events[i - 1].step);
    }
  }

  /** The step prunes the list of the edge's source, has the edge among its
      candidates and leaves it out of the result. */
  ghost predicate PrunesAway(env: Env, s: State, w: nat, step: Step, edge: Edge)
    requires Enabled(env, s, w, step)
  {
    match step
    case Add(x, additions) =>
      var cached := Lookup(s.workers[w].cache, x).neighbors;
      var m := Grown(env, x, cached, additions);
      && edge.0 == x && m.pruned && edge.1 !in PointerSet(m.neighbors)
      && (edge.1 in PointerSet(cached) || edge.1 in PointerSet(additions))
    case Commit =>
      var hand := s.workers[w].hand;
      var x, mine := hand.entry.key, hand.entry.neighbors;
      var m := Merge(env, x, Mode.Builder(hand.alwaysPrune), s.disk[x], mine);
      && edge.0 == x && m.pruned && edge.1 !in PointerSet(m.neighbors)
      && (edge.1 in s.disk[x] || edge.1 in PointerSet(mine))
    case _ => false
  }

  /** Event `m` gives the edge to add_neighbors. */
  ghost predicate Adds(events: seq<Event>, m: nat, edge: Edge)
    requires m < |events|
  {
    var step := events[m].step;
    step.Add? && edge in Edges(step.x, PointerSet(step.additions) - {step.x})
  }

  /** A step records a rejection only by pruning, and forgets one only when the
      edge is added again. */
  lemma RejectedByStep(env: Env, s: State, w: nat, step: Step, edge: Edge)
    requires Enabled(env, s, w, step) && edge in Apply(env, s, w, step).rejected
    ensures PrunesAway(env, s, w, step, edge) ||
      (edge in s.rejected && !(step.Add? && edge in Edges(step.x, PointerSet(step.additions) - {step.x})))
  {
    hide Grown, Merge, HasKey, Lookup, Pushed, Evicted, Distinct;
    if step.Add? {
      GrownProperties(env, step.x, Lookup(s.workers[w].cache, step.x).neighbors, step.additions);
    } else if step.Commit? {
      var hand := s.workers[w].hand;
      MergeProperties(env, hand.entry.key, Mode.Builder(hand.alwaysPrune), s.disk[hand.entry.key],
        hand.entry.neighbors);
    }
  }

  lemma {:induction false} RejectedSince(env: Env, states: seq<State>, events: seq<Event>, m: nat, i: nat, edge: Edge)
    requires IsRun(env, states, events) && m < i < |states| && Adds(events, m, edge) && edge in states[i].rejected
    ensures exists k :: m <= k < i && PrunesAway(env, states[k], events[k].worker, events[k].step, edge)
  {
    hide Apply, Enabled, PrunesAway, Edges;
    RejectedByStep(env, states[i - 1], events[i - 1].worker, events[i - 1].step, edge);
    if !PrunesAway(env, states[i - 1], events[i - 1].worker, events[i - 1].step, edge) {
      assert m < i - 1;
      RejectedSince(env, states, events, m, i - 1, edge);
    }
  }

  lemma {:induction false} AddedIsRecorded(env: Env, states: seq<State>, events: seq<Event>, i: nat, edge: Edge)
    requires IsRun(env, states, events) && i < |states|
    ensures edge in states[i].added <==> exists m :: 0 <= m < i && Adds(events, m, edge)
  {
    hide PointerSet, Edges, Enabled, Grown, Merge, AfterPush;
    if i == 0 {
    } else {
      AddedIsRecorded(env, states, events, i - 1, edge);
      StepAdds(env, states[i - 1], events[i - 1].worker, events[i - 1].step, edge);
      if edge in states[i].added && edge !in states[i - 1].added {
        assert Adds(events, i - 1, edge);
      }
    }
  }

  lemma StepAdds(env: Env, s: State, w: nat, step: Step, edge: Edge)
    requires Enabled(env, s, w, step)
    ensures edge in Apply(env, s, w, step).added <==>
      edge in s.added || (step.Add? && edge in Edges(step.x, PointerSet(step.additions) - {step.x}))
  {
    hide PointerSet, Edges, Grown, Merge, AfterPush;
  }

  /** No addition goes missing. In every build with any number of workers, after
      an edge has been added, for the first time or again, it is in a cache, in
      flight, or on disk, unless that step or a later one pruned it away. */
  lemma EveryEdgeIsAccountedFor(env: Env, states: seq<State>, events: seq<Event>, m: nat, i: nat, edge: Edge)
    requires IsRun(env, states, events) && m < i < |states| && Adds(events, m, edge)
    ensures OnDisk(states[i], edge) || SomeoneCarries(states[i], edge)
      || exists k :: m <= k < i && PrunesAway(env, states[k], events[k].worker, events[k].step, edge)
  {
    RunKeepsInv(env, states, events, i);
    AddedIsRecorded(env, states, events, i, edge);
    if edge in states[i].rejected {
      RejectedSince(env, states, events, m, i, edge);
    }
  }

  ghost predicate Drained(s: State) {
    forall w :: w in s.workers ==> s.workers[w].cache == [] && s.workers[w].hand.Empty?
  }

  /** After the final drain the disk holds added edges only, and every addition
      that no pruning has undone since. */
  lemma DrainedBuild(env: Env, states: seq<State>, events: seq<Event>, i: nat, edge: Edge)
    requires IsRun(env, states, events) && i < |states| && Drained(states[i])
    ensures OnDisk(states[i], edge) ==> exists m :: 0 <= m < i && Adds(events, m, edge)
    ensures forall m :: 0 <= m < i && Adds(events, m, edge) ==>
      OnDisk(states[i], edge)
      || exists k :: m <= k < i && PrunesAway(env, states[k], events[k].worker, events[k].step, edge)
  {
    hide Apply, Enabled, Adds, PrunesAway;
    RunKeepsInv(env, states, events, i);
    AddedIsRecorded(env, states, events, i, edge);
    forall m | 0 <= m < i && Adds(events, m, edge) && !OnDisk(states[i], edge)
      ensures exists k :: m <= k < i && PrunesAway(env, states[k], events[k].worker, events[k].step, edge)
    {
      EveryEdgeIsAccountedFor(env, states, events, m, i, edge);
    }
  }

  /** Lists stay short: cached ones within the slack, stored ones within the
      degree bound and without repetitions or self-loops. */
  lemma ListsStayShort(env: Env, states: seq<State>, events: seq<Event>, i: nat)
    requires IsRun(env, states, events) && i < |states|
    ensures forall w, e :: w in states[i].workers && e in states[i].workers[w].cache ==>
      10 * |e.neighbors| < 13 * env.numNeighbors + 10
    ensures forall w :: w in states[i].workers ==> |states[i].workers[w].cache| <= states[i].workers[w].capacity
    ensures forall x :: x in states[i].disk ==>
      |states[i].disk[x]| <= env.numNeighbors && Distinct(states[i].disk[x]) && x !in states[i].disk[x]
  {
    hide IsRun, Distinct, Accounted;
    RunKeepsInv(env, states, events, i);
    var s := states[i];
    forall w, e | w in s.workers && e in s.workers[w].cache
      ensures 10 * |e.neighbors| < 13 * env.numNeighbors + 10
    {
      assert WorkerOk(env, s, s.workers[w]);
    }
    forall x | x in s.disk ensures x !in s.disk[x] {
      assert forall y :: y in s.disk[x] ==> (x, y) in s.added;
    }
  }
}
