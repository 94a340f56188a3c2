/** Pages as Postgres lays them out, and a relation of committed pages. */
module Pages {
  import opened Pointers

  newtype byte = x: int | 0 <= x < 256

  // SizeOfPageHeaderData, sizeof(ItemIdData), MAXALIGN of the 4 bytes of
  // special data, and the size of an archived chain header.
  const PAGE_HEADER: nat := 24
  const LINE_POINTER: nat := 4
  const SPECIAL: nat := 8
  const CHAIN_HEADER: nat := 8

  /** One entry of a chained page: the link to the next chunk, and a chunk. */
  datatype Item = Item(next: ItemPointer, data: seq<byte>) {
    function Size(): nat {
      CHAIN_HEADER + |data|
    }
  }

  function MaxAlign(n: nat): nat {
    (n + 7) / 8 * 8
  }

  /** `lower` and `upper` bound the hole between line pointers and items. */
  datatype Page = Page(items: seq<Item>, lower: nat, upper: nat) {
    /** PageGetFreeSpace: room for an item besides its line pointer. */
    function FreeSpace(): nat {
      if upper < lower + LINE_POINTER then 0 else upper - lower - LINE_POINTER
    }

    function AlignedFreeSpace(): (n: nat)
      ensures n <= FreeSpace() && n % 8 == 0
    {
      FreeSpace() - FreeSpace() % 8
    }

    /** The test inside PageAddItemExtended, which stores items aligned. */
    predicate Accepts(item: Item) {
      lower + LINE_POINTER + MaxAlign(item.Size()) <= upper
    }

    function AddItem(item: Item): Page
      requires Accepts(item)
    {
      Page(items + [item], lower + LINE_POINTER, upper - MaxAlign(item.Size()))
    }
  }

  /** The rounded space is exact: the page takes an item if and only if it is no
      larger than that. What it takes also passes both assertions of the code. */
  lemma AlignedSpaceIsExact(p: Page, item: Item)
    ensures p.Accepts(item) <==> item.Size() <= p.AlignedFreeSpace()
    ensures p.Accepts(item) ==> item.Size() <= p.FreeSpace() && item.Size() < p.upper
    ensures p.Accepts(item) ==> p.AddItem(item).items == p.items + [item]
  {
  }

  /** A page size that leaves room on an empty page for a header and a byte. */
  predicate PageSizeOk(size: nat) {
    size % 8 == 0 && size >= PAGE_HEADER + SPECIAL + 2 * LINE_POINTER + CHAIN_HEADER + 8
  }

  function EmptyPage(size: nat): Page
    requires PageSizeOk(size)
  {
    Page([], PAGE_HEADER, size - SPECIAL)
  }

  lemma EmptyPageHasRoom(size: nat)
    requires PageSizeOk(size)
    ensures EmptyPage(size).AlignedFreeSpace() >= CHAIN_HEADER + 1 && EmptyPage(size).items == []
  {
  }

  type PageMap = map<nat, Page>

  /** Every item of `a` is still at its place in `b`. */
  ghost predicate Extends(a: PageMap, b: PageMap) {
    forall n :: n in a ==> n in b && a[n].items <= b[n].items
  }

  class Relation {
    const pageSize: nat
    var pages: PageMap             // as committed
    var nblocks: nat
    ghost var failures: nat        // extensions that have failed
    ghost var history: seq<PageMap>

    ghost predicate Valid()
      reads this
    {
      PageSizeOk(pageSize) && nblocks <= INVALID_BLOCK && forall n :: n in pages ==> n < nblocks
    }

    /** Allocate a block nobody has used. Others may have extended the relation
        in between, and the extension may fail. */
    method Extend() returns (block: Option<nat>)
      requires Valid()
      modifies this`nblocks, this`failures
      ensures Valid() && nblocks >= old(nblocks)
      ensures block.Some? ==> old(nblocks) <= block.value == nblocks - 1
      ensures failures == old(failures) + if block.None? then 1 else 0
    {
      var fails: bool, skipped: nat := *, *;
      if fails || nblocks + skipped >= INVALID_BLOCK {
        failures := failures + 1;
        return None;
      }
      block := Some(nblocks + skipped);
      nblocks := nblocks + skipped + 1;
    }

    /** Publish a page as one atomic change. */
    method Commit(block: nat, page: Page)
      requires Valid() && block < nblocks
      modifies this`pages, this`history
      ensures Valid() && pages == old(pages)[block := page]
      ensures history == old(history) + [pages]
    {
      pages := pages[block := page];
      history := history + [pages];
    }
  }
}
