/** Byte strings chained over pages: what a pointer reads as, and an append-only
    writer whose strings stay readable. */
module Chain {
  import opened Pointers
  import opened Pages

  // ----- what a pointer means -----

  function Flatten(chunks: seq<seq<byte>>): seq<byte> {
    if chunks == [] then [] else chunks[0] + Flatten(chunks[1..])
  }

  lemma {:induction false} FlattenAppend(chunks: seq<seq<byte>>, last: seq<byte>)
    ensures Flatten(chunks + [last]) == Flatten(chunks) + last
  {
    if chunks == [] {
      assert ([] + [last])[1..] == [];
    } else {
      FlattenAppend(chunks[1..], last);
      assert (chunks + [last])[1..] == chunks[1..] + [last];
    }
  }

  ghost predicate Stored(pages: PageMap, ip: ItemPointer) {
    ip.block in pages && 1 <= ip.offset <= |pages[ip.block].items|
  }

  ghost function At(pages: PageMap, ip: ItemPointer): Item
    requires Stored(pages, ip)
  {
    pages[ip.block].items[ip.offset - 1]
  }

  /** Following the links from `ip` gives the chunks and then arrives at `end`.
      No chunk is empty and every link leads to a later block. */
  ghost predicate Links(pages: PageMap, ip: ItemPointer, chunks: seq<seq<byte>>, end: ItemPointer)
    decreases |chunks|
  {
    if chunks == [] then ip == end
    else
      && ip.block != INVALID_BLOCK
      && Stored(pages, ip)
      && var item := At(pages, ip);
      && item.data == chunks[0] && item.data != []
      && item.next.block > ip.block
      && Links(pages, item.next, chunks[1..], end)
  }

  /** Reading from `ip` yields exactly `data`. */
  ghost predicate Reads(pages: PageMap, ip: ItemPointer, data: seq<byte>) {
    exists chunks :: chunks != [] && Links(pages, ip, chunks, INVALID_POINTER) && Flatten(chunks) == data
  }

  lemma {:induction false} LinksDetermined(pages: PageMap, ip: ItemPointer, a: seq<seq<byte>>, b: seq<seq<byte>>)
    requires Links(pages, ip, a, INVALID_POINTER) && Links(pages, ip, b, INVALID_POINTER)
    ensures a == b
    decreases |a|
  {
    if a == [] || b == [] {
    } else {
      LinksDetermined(pages, At(pages, ip).next, a[1..], b[1..]);
      assert a == [a[0]] + a[1..] && b == [b[0]] + b[1..];
    }
  }

  /** A pointer reads as one byte string at most. */
  lemma ReadsDetermined(pages: PageMap, ip: ItemPointer, a: seq<byte>, b: seq<byte>)
    requires Reads(pages, ip, a) && Reads(pages, ip, b)
    ensures a == b
  {
    var ca :| ca != [] && Links(pages, ip, ca, INVALID_POINTER) && Flatten(ca) == a;
    var cb :| cb != [] && Links(pages, ip, cb, INVALID_POINTER) && Flatten(cb) == b;
    LinksDetermined(pages, ip, ca, cb);
  }

  lemma {:induction false} LinksSurvive(a: PageMap, b: PageMap, ip: ItemPointer, chunks: seq<seq<byte>>,
                                        end: ItemPointer)
    requires Extends(a, b) && Links(a, ip, chunks, end)
    ensures Links(b, ip, chunks, end)
    decreases |chunks|
  {
    if chunks == [] {
    } else {
      assert At(b, ip) == At(a, ip);
      LinksSurvive(a, b, At(a, ip).next, chunks[1..], end);
    }
  }

  /** What has been written stays readable whatever is written later. */
  lemma ReadsSurvive(a: PageMap, b: PageMap, ip: ItemPointer, data: seq<byte>)
    requires Extends(a, b) && Reads(a, ip, data)
    ensures Reads(b, ip, data)
  {
    var chunks :| chunks != [] && Links(a, ip, chunks, INVALID_POINTER) && Flatten(chunks) == data;
    LinksSurvive(a, b, ip, chunks, INVALID_POINTER);
  }

  lemma {:induction false} LinksAppend(pages: PageMap, ip: ItemPointer, chunks: seq<seq<byte>>, last: ItemPointer)
    requires Links(pages, ip, chunks, last)
    requires last.block != INVALID_BLOCK && Stored(pages, last)
    requires At(pages, last).data != [] && At(pages, last).next.block > last.block
    ensures Links(pages, ip, chunks + [At(pages, last).data], At(pages, last).next)
    decreases |chunks|
  {
    var item := At(pages, last);
    if chunks == [] {
      assert ([] + [item.data])[1..] == [];
      assert Links(pages, item.next, [], item.next);
    } else {
      LinksAppend(pages, At(pages, ip).next, chunks[1..], last);
      assert (chunks + [item.data])[1..] == chunks[1..] + [item.data];
    }
  }

  // ----- the writer -----

  /** The first chunk of a write, once it is known. */
  datatype Head = Unset | Set(ip: ItemPointer)

  /** From one moment to a later one, each published state kept every item,
      and left the pages outside `open` as they were. */
  ghost predicate Grew(before: PageMap, earlier: seq<PageMap>, after: PageMap, later: seq<PageMap>, open: set<nat>) {
    && KeptBy(before, after, open)
    && earlier <= later
    && forall k :: |earlier| <= k < |later| ==> KeptBy(before, later[k], open)
  }

  ghost predicate KeptBy(before: PageMap, after: PageMap, open: set<nat>) {
    Extends(before, after) && forall n :: n in before && n !in open ==> after[n] == before[n]
  }

  lemma GrewCommit(before: PageMap, earlier: seq<PageMap>, now: PageMap, history: seq<PageMap>, open: set<nat>,
                   block: nat, page: Page)
    requires Grew(before, earlier, now, history, open)
    requires block in now ==> now[block].items <= page.items
    requires block in before ==> block in open
    ensures Grew(before, earlier, now[block := page], history + [now[block := page]], open)
  {
  }

  /** The loop state of `write`: `chunks` have been committed from `head` on and
      link to the page being filled, which nobody has seen yet. */
  ghost predicate Writing(pages: PageMap, head: Head, chunks: seq<seq<byte>>, block: nat, page: Page) {
    && block < INVALID_BLOCK
    && (block in pages ==> page == pages[block])
    && (block !in pages ==> page.items == [])
    && (head.Unset? ==> chunks == [])
    && (head.Set? ==> chunks != [] && block !in pages && Links(pages, head.ip, chunks, ItemPointer(block, 1)))
  }

  /** Committing one more chunk on the current page. */
  lemma CommitChunk(pages: PageMap, head: Head, chunks: seq<seq<byte>>, block: nat, page: Page, item: Item)
    requires Writing(pages, head, chunks, block, page)
    requires page.Accepts(item) && item.data != [] && item.next.block > block
    ensures var after := pages[block := page.AddItem(item)];
      var first := if head.Set? then head.ip else ItemPointer(block, |page.items| + 1);
      && Extends(pages, after)
      && Links(after, first, chunks + [item.data], item.next)
  {
    var after := pages[block := page.AddItem(item)];
    var last := ItemPointer(block, |page.items| + 1);
    assert At(after, last) == item;
    if head.Set? {
      LinksSurvive(pages, after, head.ip, chunks, last);
      LinksAppend(after, head.ip, chunks, last);
    } else {
      assert Links(after, last, [], last);
      LinksAppend(after, last, [], last);
    }
  }

  lemma GrewNothing(pages: PageMap, history: seq<PageMap>, open: set<nat>)
    ensures Grew(pages, history, pages, history, open)
  {
  }

  lemma FlattenNothing(data: seq<byte>)
    ensures Flatten([]) + data == data
  {
  }

  lemma WritingStart(pages: PageMap, block: nat, page: Page)
    requires block < INVALID_BLOCK
    requires if block in pages then page == pages[block] else page.items == []
    ensures Writing(pages, Unset, [], block, page)
  {
  }

  lemma PageGrows(pages: PageMap, head: Head, chunks: seq<seq<byte>>, block: nat, page: Page, item: Item)
    requires Writing(pages, head, chunks, block, page) && page.Accepts(item)
    ensures block in pages ==> pages[block].items <= page.AddItem(item).items
  {
  }

  /** After a chunk that links to an unused block, writing goes on there. */
  lemma WritingNext(pages: PageMap, head: Head, chunks: seq<seq<byte>>, block: nat, page: Page, item: Item,
                    next: nat, empty: Page)
    requires Writing(pages, head, chunks, block, page)
    requires page.Accepts(item) && item.data != [] && item.next == ItemPointer(next, 1)
    requires block < next < INVALID_BLOCK && next !in pages && empty.items == []
    ensures var first := if head.Set? then head.ip else ItemPointer(block, |page.items| + 1);
      Writing(pages[block := page.AddItem(item)], Set(first), chunks + [item.data], next, empty)
  {
    CommitChunk(pages, head, chunks, block, page, item);
  }

  /** After a chunk that links nowhere, the whole string can be read. */
  lemma WritingDone(pages: PageMap, head: Head, chunks: seq<seq<byte>>, block: nat, page: Page, rest: seq<byte>)
    requires Writing(pages, head, chunks, block, page)
    requires page.Accepts(Item(INVALID_POINTER, rest)) && rest != []
    ensures var first := if head.Set? then head.ip else ItemPointer(block, |page.items| + 1);
      Reads(pages[block := page.AddItem(Item(INVALID_POINTER, rest))], first, Flatten(chunks) + rest)
  {
    CommitChunk(pages, head, chunks, block, page, Item(INVALID_POINTER, rest));
    FlattenAppend(chunks, rest);
  }

  ghost predicate Unreadable(pages: PageMap, ip: ItemPointer) {
    forall d :: !Reads(pages, ip, d)
  }

  /** An item without data is not readable: readers insist on some data. */
  lemma EmptyItemReadsNothing(pages: PageMap, block: nat, page: Page, item: Item)
    requires page.Accepts(item) && item.data == []
    ensures Unreadable(pages[block := page.AddItem(item)], ItemPointer(block, |page.items| + 1))
  {
    var after, ip := pages[block := page.AddItem(item)], ItemPointer(block, |page.items| + 1);
    assert At(after, ip) == item;
  }

  /** The pages written for `n` bytes: between the first and the last, each takes as
      many bytes as fit on an empty page. */
  ghost predicate Compact(pageSize: nat, n: nat, pages: nat)
    requires PageSizeOk(pageSize)
  {
    pages >= 1 && (pages >= 2 ==> n > (pages - 2) * (EmptyPage(pageSize).AlignedFreeSpace() - CHAIN_HEADER))
  }

  lemma CompactStart(pageSize: nat)
    requires PageSizeOk(pageSize)
    ensures Compact(pageSize, 0, 1)
  {
  }

  lemma CompactNext(pageSize: nat, n: nat, pages: nat, size: nat)
    requires PageSizeOk(pageSize) && Compact(pageSize, n, pages) && size >= 1
    requires pages >= 2 ==> size == EmptyPage(pageSize).AlignedFreeSpace() - CHAIN_HEADER
    ensures Compact(pageSize, n + size, pages + 1)
  {
    hide Page.AlignedFreeSpace;
    var full := EmptyPage(pageSize).AlignedFreeSpace() - CHAIN_HEADER;
    assert (pages - 1) * full == (pages - 2) * full + full;
  }

  lemma CompactDone(pageSize: nat, n: nat, m: nat, pages: nat)
    requires PageSizeOk(pageSize) && Compact(pageSize, n, pages) && n <= m
    ensures Compact(pageSize, m, pages)
  {
    hide Page.AlignedFreeSpace;
  }

  /** The last chunk makes the whole string readable, if there is any. */
  lemma LastChunk(pages: PageMap, head: Head, chunks: seq<seq<byte>>, block: nat, page: Page, rest: seq<byte>,
                  data: seq<byte>)
    requires Writing(pages, head, chunks, block, page) && page.Accepts(Item(INVALID_POINTER, rest))
    requires Flatten(chunks) + rest == data && (rest == [] ==> data == []) && (data == [] ==> head.Unset?)
    ensures var after := pages[block := page.AddItem(Item(INVALID_POINTER, rest))];
      var first := if head.Set? then head.ip else ItemPointer(block, |page.items| + 1);
      if data != [] then Reads(after, first, data) else Unreadable(after, first)
  {
    hide Reads, Unreadable, Writing, Page.AddItem, Page.Accepts;
    if data != [] {
      WritingDone(pages, head, chunks, block, page, rest);
    } else {
      EmptyItemReadsNothing(pages, block, page, Item(INVALID_POINTER, rest));
    }
  }

  /** Where a write began: the pages and states published until then, the page it
      may go on filling, and that page's number. */
  datatype Origin = Origin(pages: PageMap, history: seq<PageMap>, current: nat)

  /** The loop of `write`: so many bytes are out, in so many chunks, and the rest
      goes to this page. */
  ghost predicate Underway(o: Origin, pageSize: nat, pages: PageMap, history: seq<PageMap>, head: Head,
                           chunks: seq<seq<byte>>, block: nat, page: Page, rest: seq<byte>, data: seq<byte>)
    requires PageSizeOk(pageSize)
  {
    && Writing(pages, head, chunks, block, page)
    && Grew(o.pages, o.history, pages, history, {o.current})
    && block >= o.current && (block in o.pages ==> block == o.current)
    && Flatten(chunks) + rest == data && (rest == [] ==> data == [])
    && (head.Set? ==> data != [] && head.ip.block >= o.current && page == EmptyPage(pageSize))
    && |history| == |o.history| + |chunks|
    && Compact(pageSize, |data| - |rest|, |chunks| + 1)
  }

  lemma UnderwayStart(o: Origin, pageSize: nat, block: nat, page: Page, data: seq<byte>)
    requires PageSizeOk(pageSize) && o.current <= block < INVALID_BLOCK
    requires block in o.pages ==> block == o.current
    requires if block in o.pages then page == o.pages[block] else page.items == []
    ensures Underway(o, pageSize, o.pages, o.history, Unset, [], block, page, data, data)
  {
    GrewNothing(o.pages, o.history, {o.current});
    WritingStart(o.pages, block, page);
    FlattenNothing(data);
    CompactStart(pageSize);
  }

  /** One more chunk, which fills its page, and on to an unused block. */
  lemma UnderwayNext(o: Origin, pageSize: nat, pages: PageMap, history: seq<PageMap>, head: Head,
                     chunks: seq<seq<byte>>, block: nat, page: Page, rest: seq<byte>, data: seq<byte>, next: nat)
    requires PageSizeOk(pageSize) && Underway(o, pageSize, pages, history, head, chunks, block, page, rest, data)
    requires var free := page.AlignedFreeSpace(); CHAIN_HEADER + 1 <= free < CHAIN_HEADER + |rest|
    requires block < next < INVALID_BLOCK && next !in pages && next !in o.pages
    ensures var size := page.AlignedFreeSpace() - CHAIN_HEADER;
      var item := Item(ItemPointer(next, 1), rest[..size]);
      && page.Accepts(item)
      && var after := pages[block := page.AddItem(item)];
         var first := if head.Set? then head.ip else ItemPointer(block, |page.items| + 1);
         Underway(o, pageSize, after, history + [after], Set(first), chunks + [rest[..size]], next,
                  EmptyPage(pageSize), rest[size..], data)
  {
    hide Grew, Writing, Compact, Flatten, Page.AlignedFreeSpace, Page.AddItem, Page.Accepts;
    var size := page.AlignedFreeSpace() - CHAIN_HEADER;
    var item := Item(ItemPointer(next, 1), rest[..size]);
    AlignedSpaceIsExact(page, item);
    EmptyPageHasRoom(pageSize);
    WritingNext(pages, head, chunks, block, page, item, next, EmptyPage(pageSize));
    PageGrows(pages, head, chunks, block, page, item);
    GrewCommit(o.pages, o.history, pages, history, {o.current}, block, page.AddItem(item));
    HeadMeans(pages, head, chunks, block, page);
    CompactNext(pageSize, |data| - |rest|, |chunks| + 1, size);
    FlattenAppend(chunks, rest[..size]);
    assert rest == rest[..size] + rest[size..];
  }

  lemma HeadMeans(pages: PageMap, head: Head, chunks: seq<seq<byte>>, block: nat, page: Page)
    requires Writing(pages, head, chunks, block, page)
    ensures head.Set? <==> chunks != []
  {
  }

  lemma UnderwayGrew(o: Origin, pageSize: nat, pages: PageMap, history: seq<PageMap>, head: Head,
                     chunks: seq<seq<byte>>, block: nat, page: Page, rest: seq<byte>, data: seq<byte>)
    requires PageSizeOk(pageSize) && Underway(o, pageSize, pages, history, head, chunks, block, page, rest, data)
    ensures Grew(o.pages, o.history, pages, history, {o.current})
    ensures forall n :: n in o.pages ==> n in pages
  {
  }

  /** The last chunk completes the write. */
  lemma UnderwayDone(o: Origin, pageSize: nat, pages: PageMap, history: seq<PageMap>, head: Head,
                     chunks: seq<seq<byte>>, block: nat, page: Page, rest: seq<byte>, data: seq<byte>)
    requires PageSizeOk(pageSize) && Underway(o, pageSize, pages, history, head, chunks, block, page, rest, data)
    requires CHAIN_HEADER + |rest| <= page.AlignedFreeSpace()
    ensures var item := Item(INVALID_POINTER, rest);
      && page.Accepts(item)
      && var after := pages[block := page.AddItem(item)];
         var first := if head.Set? then head.ip else ItemPointer(block, |page.items| + 1);
         && Grew(o.pages, o.history, after, history + [after], {o.current})
         && first.block >= o.current
         && Compact(pageSize, |data|, |history| + 1 - |o.history|)
         && if data != [] then Reads(after, first, data) else Unreadable(after, first)
  {
    hide Grew, Writing, Compact, Flatten, Reads, Unreadable, Page.AlignedFreeSpace, Page.AddItem, Page.Accepts;
    var item := Item(INVALID_POINTER, rest);
    AlignedSpaceIsExact(page, item);
    PageGrows(pages, head, chunks, block, page, item);
    GrewCommit(o.pages, o.history, pages, history, {o.current}, block, page.AddItem(item));
    assert Flatten(chunks) + rest == data ==> |rest| <= |data|;
    CompactDone(pageSize, |data| - |rest|, |data|, |chunks| + 1);
    LastChunk(pages, head, chunks, block, page, rest, data);
  }

  class ChainTapeWriter {
    const rel: Relation
    var current: nat

    ghost predicate Valid()
      reads this, rel
    {
      rel.Valid() && current in rel.pages
    }

    /** Start writing on a new page. `Valid` fails exactly if the relation could
        not be extended. */
    constructor (rel: Relation)
      requires rel.Valid()
      modifies rel
      ensures this.rel == rel && rel.Valid() && rel.failures >= old(rel.failures)
      ensures Valid() <==> rel.failures == old(rel.failures)
      ensures rel.nblocks >= old(rel.nblocks)
      ensures Grew(old(rel.pages), old(rel.history), rel.pages, rel.history, {})
      ensures Valid() ==> current >= old(rel.nblocks) && |rel.history| > |old(rel.history)|
    {
      this.rel := rel;
      current := 0;
      new;
      var block := rel.Extend();
      if block.Some? {
        current := block.value;
        rel.Commit(current, EmptyPage(rel.pageSize));
      } else {
        current := rel.nblocks;
      }
    }

    /** The page to go on with: the current one, or a new one if there is no room
        for a header and some data. */
    method OpenPage() returns (page: Option<Page>)
      requires Valid()
      modifies this`current, rel`nblocks, rel`failures
      ensures rel.Valid() && rel.nblocks >= old(rel.nblocks) && current >= old(current)
      ensures rel.failures == old(rel.failures) + if page.None? then 1 else 0
      ensures page.Some? ==>
        && current < rel.nblocks && page.value.AlignedFreeSpace() >= CHAIN_HEADER + 1
        && if current in rel.pages then current == old(current) && page.value == rel.pages[current]
           else page.value == EmptyPage(rel.pageSize) && page.value.items == []
    {
      hide Page.AlignedFreeSpace;
      if rel.pages[current].AlignedFreeSpace() >= CHAIN_HEADER + 1 {
        return Some(rel.pages[current]);
      }
      var extra := rel.Extend();
      if extra.None? {
        return None;
      }
      EmptyPageHasRoom(rel.pageSize);
      current := extra.value;
      page := Some(EmptyPage(rel.pageSize));
    }

    /** Write a byte string, in chunks if needed, each but the last filling its
        page. The result, unless the
        relation could not be extended, reads as exactly this string when it is
        not empty, and as nothing when it is. All states published on the way
        keep everything that was readable before. */
    method Write(data: seq<byte>) returns (result: Option<ItemPointer>)
      requires Valid()
      modifies this, rel
      ensures rel.Valid() && rel.nblocks >= old(rel.nblocks) && rel.failures >= old(rel.failures)
      ensures Grew(old(rel.pages), old(rel.history), rel.pages, rel.history, {old(current)})
      ensures result.Some? <==> rel.failures == old(rel.failures)
      ensures result.Some? ==> Valid() && result.value.block >= old(current)
      ensures result.Some? ==> Compact(rel.pageSize, |data|, |rel.history| - |old(rel.history)|)
      ensures result.Some? && data != [] ==> Reads(rel.pages, result.value, data)
      ensures result.Some? && data == [] ==> Unreadable(rel.pages, result.value)
    {
      hide Grew, Reads, Unreadable, Underway, Compact, EmptyPage, Page.AlignedFreeSpace, Page.AddItem, Page.Accepts;
      ghost var o := Origin(rel.pages, rel.history, current);
      GrewNothing(rel.pages, rel.history, {current});
      var first := OpenPage();
      if first.None? {
        return None;
      }
      var page, block: nat := first.value, current;
      UnderwayStart(o, rel.pageSize, block, page, data);
      EmptyPageHasRoom(rel.pageSize);
      var head, rest := Unset, data;
      ghost var chunks: seq<seq<byte>> := [];
      while CHAIN_HEADER + |rest| > page.AlignedFreeSpace()
        invariant rel.Valid() && rel.nblocks >= old(rel.nblocks) && rel.failures == old(rel.failures)
        invariant block < rel.nblocks && page.AlignedFreeSpace() >= CHAIN_HEADER + 1
        invariant Underway(o, rel.pageSize, rel.pages, rel.history, head, chunks, block, page, rest, data)
        decreases |rest|
      {
        UnderwayGrew(o, rel.pageSize, rel.pages, rel.history, head, chunks, block, page, rest, data);
        var next := rel.Extend();
        if next.None? {
          return None;
        }
        UnderwayNext(o, rel.pageSize, rel.pages, rel.history, head, chunks, block, page, rest, data, next.value);
        var size := page.AlignedFreeSpace() - CHAIN_HEADER;
        var item := Item(ItemPointer(next.value, 1), rest[..size]);
        if head.Unset? {
          head := Set(ItemPointer(block, |page.items| + 1));
        }
        chunks := chunks + [rest[..size]];
        rel.Commit(block, page.AddItem(item));
        page, block := EmptyPage(rel.pageSize), next.value;
        rest := rest[size..];
      }
      UnderwayDone(o, rel.pageSize, rel.pages, rel.history, head, chunks, block, page, rest, data);
      var item := Item(INVALID_POINTER, rest);
      var ip := if head.Set? then head.ip else ItemPointer(block, |page.items| + 1);
      current := block;
      rel.Commit(block, page.AddItem(item));
      result := Some(ip);
    }
  }

  /** Any sequence of non-empty strings written to a tape can be read back in
      the end, each from its own pointer. */
  method WriteAll(tape: ChainTapeWriter, strings: seq<seq<byte>>) returns (ips: seq<ItemPointer>)
    requires tape.Valid() && forall s :: s in strings ==> s != []
    modifies tape, tape.rel
    ensures |ips| <= |strings|
    ensures |ips| == |strings| <==> tape.rel.failures == old(tape.rel.failures)
    ensures forall i :: 0 <= i < |ips| ==> Reads(tape.rel.pages, ips[i], strings[i])
  {
    hide Reads, Links;
    ips := [];
    for k := 0 to |strings|
      invariant tape.Valid() && |ips| == k && tape.rel.failures == old(tape.rel.failures)
      invariant forall i :: 0 <= i < k ==> Reads(tape.rel.pages, ips[i], strings[i])
    {
      assert strings[k] in strings;
      ghost var before := tape.rel.pages;
      var ip := tape.Write(strings[k]);
      forall i | 0 <= i < k ensures Reads(tape.rel.pages, ips[i], strings[i]) {
        ReadsSurvive(before, tape.rel.pages, ips[i], strings[i]);
      }
      if ip.None? {
        return;
      }
      ips := ips + [ip.value];
    }
  }
}
