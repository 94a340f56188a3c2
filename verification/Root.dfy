/** Reading chains, and replacing the contents of a root page in one commit. */
module Root {
  import opened Pointers
  import opened Pages
  import opened Chain

  // ----- the reader -----

  class ChainItemIterator {
    const rel: Relation
    var ip: ItemPointer

    constructor (rel: Relation, ip: ItemPointer)
      ensures this.rel == rel && this.ip == ip
    {
      this.rel, this.ip := rel, ip;
    }

    /** The next chunk, if any. `chunks` is what remains to be read. */
    method Next(ghost chunks: seq<seq<byte>>) returns (chunk: Option<seq<byte>>)
      requires Links(rel.pages, ip, chunks, INVALID_POINTER)
      modifies this`ip
      ensures chunk == if chunks == [] then None else Some(chunks[0])
      ensures chunks != [] ==> Links(rel.pages, ip, chunks[1..], INVALID_POINTER)
    {
      if ip.block == INVALID_BLOCK {
        return None;
      }
      var item := rel.pages[ip.block].items[ip.offset - 1];
      assert |item.data| > 0;
      ip := item.next;
      chunk := Some(item.data);
    }
  }

  /** Collecting the chunks of a readable pointer terminates and gives exactly
      its bytes. */
  method ReadAll(rel: Relation, ip: ItemPointer, ghost data: seq<byte>) returns (buf: seq<byte>)
    requires Reads(rel.pages, ip, data)
    ensures buf == data
  {
    hide Links;
    ghost var chunks :| chunks != [] && Links(rel.pages, ip, chunks, INVALID_POINTER) && Flatten(chunks) == data;
    var it := new ChainItemIterator(rel, ip);
    buf := [];
    while true
      invariant fresh(it) && it.rel == rel
      invariant Links(rel.pages, it.ip, chunks, INVALID_POINTER)
      invariant buf + Flatten(chunks) == data
      decreases |chunks|
    {
      var chunk := it.Next(chunks);
      if chunk.None? {
        return;
      }
      buf := buf + chunk.value;
      chunks := chunks[1..];
    }
  }

  // ----- root pages -----

  /** The items of a root page read as the given byte strings. */
  ghost predicate RootHolds(pages: PageMap, root: nat, items: seq<seq<byte>>) {
    && root in pages
    && |pages[root].items| == |items|
    && forall i :: 0 <= i < |items| ==> Reads(pages, ItemPointer(root, i + 1), items[i])
  }

  /** Links lead upwards, so a chain above a page does not depend on it. */
  lemma {:induction false} LinksIgnoreLower(pages: PageMap, ip: ItemPointer, chunks: seq<seq<byte>>, root: nat,
                                            page: Page)
    requires Links(pages, ip, chunks, INVALID_POINTER) && ip.block > root
    ensures Links(pages[root := page], ip, chunks, INVALID_POINTER)
    decreases |chunks|
  {
    if chunks == [] {
    } else {
      LinksIgnoreLower(pages, At(pages, ip).next, chunks[1..], root, page);
    }
  }

  lemma ReadsIgnoreLower(pages: PageMap, ip: ItemPointer, data: seq<byte>, root: nat, page: Page)
    requires Reads(pages, ip, data) && ip.block > root
    ensures Reads(pages[root := page], ip, data)
  {
    var chunks :| chunks != [] && Links(pages, ip, chunks, INVALID_POINTER) && Flatten(chunks) == data;
    LinksIgnoreLower(pages, ip, chunks, root, page);
  }

  /** A root survives whatever leaves its page alone and only adds elsewhere. */
  lemma RootSurvives(a: PageMap, b: PageMap, root: nat, items: seq<seq<byte>>)
    requires RootHolds(a, root, items) && KeptBy(a, b, {})
    ensures RootHolds(b, root, items)
  {
    hide Reads;
    forall i | 0 <= i < |items| ensures Reads(b, ItemPointer(root, i + 1), items[i]) {
      ReadsSurvive(a, b, ItemPointer(root, i + 1), items[i]);
    }
  }

  /** A root item either holds a whole string or its beginning, linked to where
      the rest can be read. */
  ghost predicate ItemReads(pages: PageMap, item: Item, root: nat, data: seq<byte>) {
    && item.data != []
    && item.next.block > root
    && if item.next == INVALID_POINTER then item.data == data
       else |item.data| <= |data| && item.data == data[..|item.data|] && Reads(pages, item.next, data[|item.data|..])
  }

  lemma ItemReadsOnRoot(pages: PageMap, root: nat, page: Page, i: nat, data: seq<byte>)
    requires i < |page.items| && root < INVALID_BLOCK && ItemReads(pages, page.items[i], root, data)
    ensures Reads(pages[root := page], ItemPointer(root, i + 1), data)
  {
    var after, ip, item := pages[root := page], ItemPointer(root, i + 1), page.items[i];
    assert At(after, ip) == item;
    if item.next == INVALID_POINTER {
      assert Links(after, item.next, [], INVALID_POINTER);
      assert Links(after, ip, [data], INVALID_POINTER) by { assert [data][1..] == []; }
      assert Flatten([data]) == data;
    } else {
      var rest := data[|item.data|..];
      ReadsIgnoreLower(pages, item.next, rest, root, page);
      var chunks :| chunks != [] && Links(after, item.next, chunks, INVALID_POINTER) && Flatten(chunks) == rest;
      var all := [item.data] + chunks;
      assert all[1..] == chunks;
      assert Links(after, ip, all, INVALID_POINTER);
      assert Flatten(all) == data;
    }
  }

  /** Whether the items fit a root page: none is empty, each finds room for the
      header and some data, and only the last may overflow. */
  predicate FitsOn(page: Page, items: seq<seq<byte>>)
    decreases |items|
  {
    items == [] ||
    (items[0] != [] && page.AlignedFreeSpace() > CHAIN_HEADER &&
     if CHAIN_HEADER + |items[0]| <= page.AlignedFreeSpace() then
       AlignedSpaceIsExact(page, Item(INVALID_POINTER, items[0]));
       FitsOn(page.AddItem(Item(INVALID_POINTER, items[0])), items[1..])
     else |items| == 1)
  }

  predicate FitsRoot(pageSize: nat, items: seq<seq<byte>>)
    requires PageSizeOk(pageSize)
  {
    items != [] && FitsOn(EmptyPage(pageSize), items)
  }

  lemma GrewThen(p0: PageMap, h0: seq<PageMap>, p1: PageMap, h1: seq<PageMap>, p2: PageMap, h2: seq<PageMap>,
                 open: set<nat>)
    requires Grew(p0, h0, p1, h1, {}) && Grew(p1, h1, p2, h2, open)
    requires forall n :: n in open ==> n !in p0
    ensures Grew(p0, h0, p2, h2, {})
  {
    forall k | |h0| <= k < |h2| ensures KeptBy(p0, h2[k], {}) {
      if k < |h1| {
        assert h2[k] == h1[k];
      } else {
        assert KeptBy(p1, h2[k], open);
      }
    }
  }

  lemma GrewHistory(p: PageMap, h: seq<PageMap>, q: PageMap, later: seq<PageMap>, open: set<nat>)
    requires Grew(p, h, q, later, open)
    ensures |later| >= |h|
  {
  }

  /** The overflow of the last root item goes to a new chain of its own. */
  method WriteSuffix(rel: Relation, data: seq<byte>) returns (next: Option<ItemPointer>)
    requires rel.Valid() && data != []
    modifies rel
    ensures rel.Valid() && rel.nblocks >= old(rel.nblocks) && rel.failures >= old(rel.failures)
    ensures Grew(old(rel.pages), old(rel.history), rel.pages, rel.history, {})
    ensures next.Some? <==> rel.failures == old(rel.failures)
    ensures next.Some? ==> next.value.block >= old(rel.nblocks) && Reads(rel.pages, next.value, data)
    ensures next.Some? ==> |rel.history| > |old(rel.history)|
  {
    hide Grew, Reads;
    ghost var p0, h0 := rel.pages, rel.history;
    var suffix := new ChainTapeWriter(rel);
    if suffix.current !in rel.pages {
      return None;
    }
    ghost var p1, h1, c := rel.pages, rel.history, suffix.current;
    next := suffix.Write(data);
    GrewHistory(p1, h1, rel.pages, rel.history, {c});
    GrewThen(p0, h0, p1, h1, rel.pages, rel.history, {c});
  }

  /** Stage a replacement root without publishing it. Whatever happens, every
      published state keeps all pages as they were and only adds new ones; a
      staged page, once committed, reads as the items. It fails exactly when an
      extension fails, the items do not fit, or the first write of a root is
      given another block, after which it has changed nothing more. */
  method PrepareRoot(rel: Relation, root: nat, firstTime: bool, items: seq<seq<byte>>) returns (staged: Option<Page>)
    requires rel.Valid() && root < INVALID_BLOCK && (!firstTime ==> root in rel.pages)
    modifies rel
    ensures rel.Valid() && rel.nblocks >= old(rel.nblocks) && (staged.Some? ==> root < rel.nblocks)
    ensures Grew(old(rel.pages), old(rel.history), rel.pages, rel.history, {})
    ensures staged.Some? ==> RootHolds(rel.pages[root := staged.value], root, items)
    ensures rel.failures >= old(rel.failures)
    ensures staged.Some? <==>
      && rel.failures == old(rel.failures)
      && FitsRoot(rel.pageSize, items)
      && (firstTime ==> rel.nblocks == root + 1 || rel.history != old(rel.history))
  {
    hide Grew, Reads, Page.AddItem, Page.AlignedFreeSpace, Page.Accepts;
    if items == [] {
      GrewNothing(rel.pages, rel.history, {});
      return None;
    }
    if firstTime {
      var block := rel.Extend();
      GrewNothing(rel.pages, rel.history, {});
      if block != Some(root) {
        return None;
      }
    }
    var page := EmptyPage(rel.pageSize);
    EmptyPageHasRoom(rel.pageSize);
    ghost var p0, h0, n0 := rel.pages, rel.history, rel.nblocks;
    GrewNothing(p0, h0, {});
    for i := 0 to |items|
      invariant rel.Valid() && rel.nblocks >= old(rel.nblocks) && root < rel.nblocks
      invariant Grew(p0, h0, rel.pages, rel.history, {})
      invariant rel.failures == old(rel.failures)
      invariant (i < |items| && rel.nblocks == n0 && rel.history == h0)
        || (i == |items| && (rel.nblocks == n0 || |rel.history| > |h0|))
      invariant |page.items| == i
      invariant forall k :: 0 <= k < i ==> ItemReads(rel.pages, page.items[k], root, items[k])
      invariant i < |items| ==> forall k :: 0 <= k < i ==> page.items[k] == Item(INVALID_POINTER, items[k])
      invariant i < |items| ==> (FitsRoot(rel.pageSize, items) <==> FitsOn(page, items[i..]))
      invariant i == |items| ==> FitsRoot(rel.pageSize, items)
    {
      var data := items[i];
      var free := page.AlignedFreeSpace();
      assert items[i..][0] == data && items[i..][1..] == items[i + 1..];
      if data == [] || free <= CHAIN_HEADER {
        return None;
      }
      var size := if |data| <= free - CHAIN_HEADER then |data| else free - CHAIN_HEADER;
      var next := INVALID_POINTER;
      if size < |data| {
        if i != |items| - 1 {
          return None;
        }
        ghost var p1, h1 := rel.pages, rel.history;
        var suffix := WriteSuffix(rel, data[size..]);
        GrewThen(p0, h0, p1, h1, rel.pages, rel.history, {});
        if suffix.None? {
          return None;
        }
        next := suffix.value;
        assert next != INVALID_POINTER by { UnreadableInvalid(rel.pages, data[size..]); }
      } else {
        assert data[..size] == data;
      }
      var item := Item(next, data[..size]);
      AlignedSpaceIsExact(page, item);
      assert ItemReads(rel.pages, item, root, data);
      page := page.AddItem(item);
    }
    forall i | 0 <= i < |items| ensures Reads(rel.pages[root := page], ItemPointer(root, i + 1), items[i]) {
      ItemReadsOnRoot(rel.pages, root, page, i, items[i]);
    }
    staged := Some(page);
  }

  lemma UnreadableInvalid(pages: PageMap, data: seq<byte>)
    ensures !Reads(pages, INVALID_POINTER, data)
  {
  }

  /** Replace the items of an existing root, or abandon the replacement after
      staging it. Up to the commit every published state reads as the old
      items, and from the commit on as the new ones. */
  method ReplaceRoot(rel: Relation, root: nat, ghost before: seq<seq<byte>>, items: seq<seq<byte>>, keep: bool)
    returns (done: bool)
    requires rel.Valid() && root < INVALID_BLOCK && RootHolds(rel.pages, root, before)
    modifies rel
    ensures rel.Valid()
    ensures old(rel.history) <= rel.history
    ensures forall k :: |old(rel.history)| <= k < |rel.history| - (if done then 1 else 0) ==>
      RootHolds(rel.history[k], root, before)
    ensures done ==> |rel.history| > |old(rel.history)| && rel.history[|rel.history| - 1] == rel.pages
    ensures RootHolds(rel.pages, root, if done then items else before)
    ensures rel.failures >= old(rel.failures)
    ensures done <==> keep && rel.failures == old(rel.failures) && FitsRoot(rel.pageSize, items)
  {
    hide RootHolds, FitsOn;
    ghost var p0, h0 := rel.pages, rel.history;
    RootExists(rel.pages, root, before);
    var staged := PrepareRoot(rel, root, false, items);
    forall k | |h0| <= k < |rel.history| ensures RootHolds(rel.history[k], root, before) {
      RootSurvives(p0, rel.history[k], root, before);
    }
    RootSurvives(p0, rel.pages, root, before);
    if staged.None? || !keep {
      return false;
    }
    rel.Commit(root, staged.value);
    done := true;
  }

  lemma RootExists(pages: PageMap, root: nat, items: seq<seq<byte>>)
    requires RootHolds(pages, root, items)
    ensures root in pages
  {
  }

  /** After any number of replacements, carried out or abandoned, the root reads
      as the items of the last one carried out. Only attempts that are kept and
      fit are carried out, and each of those is, unless an extension failed. */
  method ReplaceMany(rel: Relation, root: nat, ghost before: seq<seq<byte>>, attempts: seq<(seq<seq<byte>>, bool)>)
    returns (done: seq<bool>)
    requires rel.Valid() && root < INVALID_BLOCK && RootHolds(rel.pages, root, before)
    modifies rel
    ensures rel.Valid() && |done| == |attempts|
    ensures RootHolds(rel.pages, root, LastDone(before, attempts, done))
    ensures forall i :: 0 <= i < |done| && done[i] ==> Feasible(rel.pageSize, attempts[i])
    ensures rel.failures >= old(rel.failures) + Thwarted(rel.pageSize, attempts, done)
  {
    hide RootHolds, FitsRoot;
    done := [];
    for i := 0 to |attempts|
      invariant rel.Valid() && |done| == i
      invariant RootHolds(rel.pages, root, LastDone(before, attempts[..i], done))
      invariant forall k :: 0 <= k < i && done[k] ==> Feasible(rel.pageSize, attempts[k])
      invariant rel.failures >= old(rel.failures) + Thwarted(rel.pageSize, attempts[..i], done)
    {
      var ok := ReplaceRoot(rel, root, LastDone(before, attempts[..i], done), attempts[i].0, attempts[i].1);
      assert attempts[..i + 1][..i] == attempts[..i] && (done + [ok])[..i] == done;
      done := done + [ok];
    }
    assert attempts[..|attempts|] == attempts;
  }

  /** An attempt that is not abandoned and whose items fit. */
  predicate Feasible(pageSize: nat, attempt: (seq<seq<byte>>, bool))
    requires PageSizeOk(pageSize)
  {
    attempt.1 && FitsRoot(pageSize, attempt.0)
  }

  /** The number of feasible attempts that were not carried out. */
  function Thwarted(pageSize: nat, attempts: seq<(seq<seq<byte>>, bool)>, done: seq<bool>): nat
    requires PageSizeOk(pageSize) && |attempts| == |done|
  {
    if done == [] then 0
    else
      var n := |done| - 1;
      Thwarted(pageSize, attempts[..n], done[..n]) + if Feasible(pageSize, attempts[n]) && !done[n] then 1 else 0
  }

  function LastDone(before: seq<seq<byte>>, attempts: seq<(seq<seq<byte>>, bool)>, done: seq<bool>): seq<seq<byte>>
    requires |attempts| == |done|
  {
    if done == [] then before
    else
      var n := |done| - 1;
      if done[n] then attempts[n].0 else LastDone(before, attempts[..n], done[..n])
  }
}
