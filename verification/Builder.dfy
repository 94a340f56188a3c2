/** The neighbour cache of one build as the object that the build updates. Its
    methods perform steps of the machine in BuilderCache. */
module Builder {
  import opened Pointers
  import Pruning
  import opened Merging
  import opened BuilderCache

  type Candidate = Pruning.Candidate

  ghost predicate Mergeable(env: Env, disk: map<ItemPointer, seq<ItemPointer>>, e: Entry) {
    e.key in disk && env.Labelled(e.neighbors)
  }

  /** The stored list of a node after an entry has been merged into it. */
  ghost function MergedList(env: Env, disk: map<ItemPointer, seq<ItemPointer>>, e: Entry, alwaysPrune: bool)
    : seq<ItemPointer>
    requires Mergeable(env, disk, e)
  {
    PointersOf(Merge(env, e.key, Mode.Builder(alwaysPrune), disk[e.key], e.neighbors).neighbors)
  }

  class BuilderNeighborCache {
    const env: Env
    const capacity: nat
    var neighborMap: Cache
    var disk: map<ItemPointer, seq<ItemPointer>>
    ghost var added: set<Edge>
    ghost var rejected: set<Edge>

    ghost function Me(hand: Hand): Worker
      reads this
    {
      Worker(neighborMap, capacity, hand)
    }

    /** The machine state in which this is worker 0. */
    ghost function View(me: Worker): State
      reads this
    {
      State(disk, map[0 := me], added, rejected)
    }

    /** Every edge added so far is cached, on disk, or was rejected. */
    ghost predicate Valid()
      reads this
    {
      capacity > 0 && Inv(env, View(Me(Empty)))
    }

    constructor (env: Env, capacity: nat, nodes: set<ItemPointer>)
      requires capacity > 0
      ensures Valid() && this.env == env && this.capacity == capacity
      ensures neighborMap == [] && disk == map x | x in nodes :: []
    {
      this.env, this.capacity := env, capacity;
      neighborMap, added, rejected := [], {}, {};
      disk := map x | x in nodes :: [];
      NothingCached();
      EmptyIsDistinct();
    }

    /** Merge an entry that is no longer cached into its node on disk. */
    method MergeBack(e: Entry, alwaysPrune: bool)
      requires capacity > 0 && Inv(env, View(Me(BuilderCache.Merging(e, alwaysPrune))))
      requires Mergeable(env, disk, e)
      modifies this`disk, this`rejected
      ensures Valid()
      ensures disk == old(disk)[e.key := MergedList(env, old(disk), e, alwaysPrune)]
    {
      hide Inv, Merge;
      ghost var before := View(Me(BuilderCache.Merging(e, alwaysPrune)));
      StepKeepsInv(env, before, 0, Commit);
      ghost var after := Apply(env, before, 0, Commit);
      var _, neighbors := ComputeMerge(env, e.key, Mode.Builder(alwaysPrune), disk[e.key], e.neighbors);
      disk := disk[e.key := PointersOf(neighbors)];
      rejected := after.rejected;
      assert View(Me(Empty)) == after;
    }

    /** Push an entry; what it evicts is pruned and merged back at once. */
    method SetNeighbors(x: ItemPointer, newNeighbors: seq<Candidate>)
      requires capacity > 0 && Inv(env, View(AfterPush(Me(Empty), Entry(x, newNeighbors))))
      modifies this`neighborMap, this`disk, this`rejected
      ensures Valid()
      ensures neighborMap == Pushed(old(neighborMap), capacity, Entry(x, newNeighbors))
      ensures var out := Evicted(old(neighborMap), capacity, Entry(x, newNeighbors));
        match out
        case None => disk == old(disk)
        case Some(e) => Mergeable(env, old(disk), e) && disk == old(disk)[e.key := MergedList(env, old(disk), e, true)]
    {
      var e := Entry(x, newNeighbors);
      var evictee := Evicted(neighborMap, capacity, e);
      WorkerIsOk(env, View(AfterPush(Me(Empty), e)), 0);
      hide Inv, Merge, Pushed, Evicted;
      neighborMap := Pushed(neighborMap, capacity, e);
      if evictee.Some? {
        MergeBack(evictee.value, true);
      }
    }

    /** The list of a node, from the cache or, on a miss, from disk, which also
        fills the cache. Either way it is the most recently used afterwards. */
    method GetNeighbors(x: ItemPointer) returns (neighbors: seq<Candidate>)
      requires Valid() && x in disk
      modifies this`neighborMap, this`disk, this`rejected
      ensures Valid() && disk.Keys == old(disk.Keys)
      ensures neighbors == if HasKey(old(neighborMap), x) then Lookup(old(neighborMap), x).neighbors
                           else env.DiskNeighbors(x, old(disk)[x])
      ensures neighborMap == Pushed(old(neighborMap), capacity, Entry(x, neighbors))
    {
      hide Inv, Pushed, Evicted, Merge, HasKey, Lookup;
      ghost var start := View(Me(Empty));
      if HasKey(neighborMap, x) {
        var e := Lookup(neighborMap, x);
        LookupIsCached(neighborMap, x);
        StepKeepsInv(env, start, 0, Touch(x));
        assert View(AfterPush(Me(Empty), e)) == Apply(env, start, 0, Touch(x));
        SetNeighbors(x, e.neighbors);
        neighbors := e.neighbors;
      } else {
        neighbors := env.DiskNeighbors(x, disk[x]);
        StepKeepsInv(env, start, 0, ReadDisk(x));
        ghost var loaded := Apply(env, start, 0, ReadDisk(x));
        StepKeepsInv(env, loaded, 0, Install);
        assert View(AfterPush(Me(Empty), Entry(x, neighbors))) == Apply(env, loaded, 0, Install);
        SetNeighbors(x, neighbors);
      }
    }

    /** add_neighbors of a build: the cached list, grown by the additions and
        pruned if it has become too long, replaces the old one. */
    method AddNeighbors(x: ItemPointer, additions: seq<Candidate>) returns (pruned: bool, neighbors: seq<Candidate>)
      requires Valid() && x in disk && env.Labelled(additions)
      modifies this
      ensures Valid()
      ensures var list := if HasKey(old(neighborMap), x) then Lookup(old(neighborMap), x).neighbors
                          else env.DiskNeighbors(x, old(disk)[x]);
        && env.Labelled(list + additions)
        && Merged(pruned, neighbors) == Grown(env, x, list, additions)
        && neighborMap == Pushed(Pushed(old(neighborMap), capacity, Entry(x, list)), capacity, Entry(x, neighbors))
      ensures added == old(added) + Edges(x, PointerSet(additions) - {x})
    {
      hide Inv, Merge, Grown, DistinctKeys, HasKey, Lookup, Pushed, Evicted, WorkerOk;
      ghost var before := neighborMap;
      WorkerIsOk(env, View(Me(Empty)), 0);
      var list := GetNeighbors(x);
      CachedIsOk(before, x, list, additions);
      pruned, neighbors := GrowList(env, x, list, additions);
      ghost var start := View(Me(Empty));
      ghost var after := Apply(env, start, 0, Add(x, additions));
      StepKeepsInv(env, start, 0, Add(x, additions));
      added, rejected := after.added, after.rejected;
      assert View(AfterPush(Me(Empty), Entry(x, neighbors))) == after;
      SetNeighbors(x, neighbors);
    }

    /** pop_lru, and merge what it gives. */
    method PopAndMerge()
      requires Valid() && neighborMap != []
      modifies this`neighborMap, this`disk, this`rejected
      ensures Valid() && neighborMap == old(neighborMap)[1..]
      ensures Mergeable(env, old(disk), old(neighborMap)[0])
      ensures disk == old(disk)[old(neighborMap)[0].key := MergedList(env, old(disk), old(neighborMap)[0], false)]
    {
      hide Inv, Merge, EntryOk, IndexOf;
      ghost var start := View(Me(Empty));
      StepKeepsInv(env, start, 0, Take(0));
      WorkerIsOk(env, start, 0);
      CacheIsLabelled(env, start, Me(Empty));
      var e := neighborMap[0];
      assert Removed(neighborMap, 0) == neighborMap[1..];
      neighborMap := neighborMap[1..];
      assert View(Me(BuilderCache.Merging(e, false))) == Apply(env, start, 0, Take(0));
      MergeBack(e, false);
    }

    /** Pop entries, least recently used first, and merge each back. Every cached
        list is merged into its node exactly once, and nothing else changes. */
    method FlushNeighborCache()
      requires Valid()
      modifies this`neighborMap, this`disk, this`rejected
      ensures Valid() && neighborMap == []
      ensures disk.Keys == old(disk.Keys)
      ensures forall x :: x in disk ==>
        if HasKey(old(neighborMap), x)
        then Mergeable(env, old(disk), Lookup(old(neighborMap), x)) &&
             disk[x] == MergedList(env, old(disk), Lookup(old(neighborMap), x), false)
        else disk[x] == old(disk)[x]
    {
      hide Inv, Valid, MergedList, IndexOf;
      ghost var cache, stored := neighborMap, disk;
      ghost var k := 0;
      CachedAreMergeable();
      assert forall i :: 0 <= i < |cache| ==> cache[i] in cache && Mergeable(env, stored, cache[i]);
      while neighborMap != []
        invariant Valid() && k <= |cache| && neighborMap == cache[k..]
        invariant disk.Keys == stored.Keys
        invariant forall i :: k <= i < |cache| ==> disk[cache[i].key] == stored[cache[i].key]
        invariant forall i :: 0 <= i < k ==> disk[cache[i].key] == MergedList(env, stored, cache[i], false)
        invariant forall x :: x in disk && !HasKey(cache, x) ==> disk[x] == stored[x]
        decreases |neighborMap|
      {
        assert neighborMap[0] == cache[k] && HasKey(cache, cache[k].key);
        SameMerge(disk, stored, cache[k]);
        PopAndMerge();
        k := k + 1;
      }
      forall x | x in disk && HasKey(cache, x)
        ensures Mergeable(env, stored, Lookup(cache, x))
        ensures disk[x] == MergedList(env, stored, Lookup(cache, x), false)
      {
        LookupIsCached(cache, x);
      }
    }

    lemma CachedAreMergeable()
      requires Valid()
      ensures DistinctKeys(neighborMap)
      ensures forall e :: e in neighborMap ==> Mergeable(env, disk, e)
    {
      WorkerIsOk(env, View(Me(Empty)), 0);
      CacheIsLabelled(env, View(Me(Empty)), Me(Empty));
    }

    lemma SameMerge(disk: map<ItemPointer, seq<ItemPointer>>, stored: map<ItemPointer, seq<ItemPointer>>, e: Entry)
      requires Mergeable(env, disk, e) && Mergeable(env, stored, e) && disk[e.key] == stored[e.key]
      ensures MergedList(env, disk, e, false) == MergedList(env, stored, e, false)
    {
    }

    lemma CachedIsOk(before: Cache, x: ItemPointer, list: seq<Candidate>, additions: seq<Candidate>)
      requires Valid() && env.Labelled(additions)
      requires exists s: State :: WorkerOk(env, s, Worker(before, capacity, Empty))
      requires neighborMap == Pushed(before, capacity, Entry(x, list))
      ensures HasKey(neighborMap, x) && Lookup(neighborMap, x) == Entry(x, list)
      ensures env.Labelled(list + additions)
    {
      PushAccounts(before, capacity, Entry(x, list));
      OnlyEntry(neighborMap, x);
      WorkerIsOk(env, View(Me(Empty)), 0);
      assert EntryOk(env, View(Me(Empty)), Entry(x, list));
    }
  }

  /** The computation of add_neighbors on the cached list. */
  method GrowList(env: Env, x: ItemPointer, list: seq<Candidate>, additions: seq<Candidate>)
    returns (pruned: bool, neighbors: seq<Candidate>)
    requires env.Labelled(list + additions)
    ensures Merged(pruned, neighbors) == Grown(env, x, list, additions)
  {
    hide Pruning.Prune;
    var candidates := RetainUnseen({x}, list + additions);
    CandidatesFromLabelled(env, x, list + additions);
    pruned := |candidates| > MaxNeighbors(env.numNeighbors);
    if pruned {
      neighbors := Pruning.PruneNeighbors(env.PruneParams(x), candidates);
    } else {
      neighbors := candidates;
    }
  }
}
