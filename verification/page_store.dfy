/** The pages of a tree's file: every page is in use or on the free list (BPlusTree.cpp, CachedNode). */
module PageStore {
  import opened NodeLayout
  import opened TreeShape

  /** Offsets of the pages of a file of `size` bytes; the header page at 0 is not one of them. */
  predicate IsOffset(p: int, size: int) {
    0 < p < size && p % NODE_SIZE == 0
  }

  ghost function ToSet(list: seq<int>): set<int> {
    set i | 0 <= i < |list| :: list[i]
  }

  /** The free list starts at `head`, is linked through its pages, and visits no page twice. */
  ghost predicate FreeChain(pages: Pages, head: int, list: seq<int>) {
    && head == (if |list| == 0 then NULL else list[0])
    && (forall i, j :: 0 <= i < j < |list| ==> list[i] != list[j])
    && forall i :: 0 <= i < |list| ==> LinkAt(pages, list, i)
  }

  ghost predicate LinkAt(pages: Pages, list: seq<int>, i: int)
    requires 0 <= i < |list|
  {
    list[i] in pages && pages[list[i]] == FreePage(if i + 1 < |list| then list[i + 1] else NULL)
  }

  /** Every page of the file is either in `used` or on the free list, and not both. */
  ghost predicate Conserved(pages: Pages, head: int, size: int, used: set<int>, list: seq<int>) {
    && size % NODE_SIZE == 0 && size >= NODE_SIZE
    && (forall p :: p in pages <==> IsOffset(p, size))
    && pages.Keys == used + ToSet(list)
    && used !! ToSet(list)
    && FreeChain(pages, head, list)
  }

  const EMPTY_NODE := Node(NULL, NULL, NULL, [], [])

  /** The page CachedNode::Allocate hands out: the head of the free list, or a new one at the end. */
  function AllocatedAt(head: int, size: int): int {
    if 0 < head <= size - NODE_SIZE && head % NODE_SIZE == 0 then head else size
  }

  /** The test for a free page to take is the test for an empty list. */
  lemma ListHead(pages: Pages, head: int, size: int, used: set<int>, list: seq<int>)
    requires Conserved(pages, head, size, used, list)
    ensures 0 < head <= size - NODE_SIZE && head % NODE_SIZE == 0 <==> list != []
    ensures list != [] ==> head in pages && pages[head].FreePage?
  {
    if list != [] {
      assert LinkAt(pages, list, 0);
      WholePages(head, size);
    }
  }

  lemma SizeIsPositive(pages: Pages, head: int, size: int, used: set<int>, list: seq<int>)
    requires Conserved(pages, head, size, used, list)
    ensures size >= NODE_SIZE
  {
  }

  lemma WholePages(p: int, size: int)
    requires IsOffset(p, size) && size % NODE_SIZE == 0
    ensures 0 < p <= size - NODE_SIZE && p % NODE_SIZE == 0
  {
  }

  lemma AllocateRecycles(pages: Pages, head: int, size: int, used: set<int>, list: seq<int>)
    requires Conserved(pages, head, size, used, list) && list != []
    ensures AllocatedAt(head, size) == head && head !in used && pages[head].FreePage?
    ensures Conserved(pages[head := EMPTY_NODE], pages[head].next, size, used + {head}, list[1..])
  {
    assert LinkAt(pages, list, 0) && list[0] in ToSet(list);
    var pages' := pages[head := EMPTY_NODE];
    ToSetCons(head, list[1..]);
    assert [head] + list[1..] == list;
    assert head !in ToSet(list[1..]);
    forall i | 0 <= i < |list[1..]| ensures LinkAt(pages', list[1..], i) {
      assert LinkAt(pages, list, i + 1) && list[i + 1] != list[0];
    }
  }

  lemma AllocateExtends(pages: Pages, head: int, size: int, used: set<int>)
    requires Conserved(pages, head, size, used, [])
    ensures AllocatedAt(head, size) == size && size !in used
    ensures Conserved(pages[size := EMPTY_NODE], head, size + NODE_SIZE, used + {size}, [])
  {
  }

  lemma FreeShrinks(pages: Pages, head: int, size: int, used: set<int>, list: seq<int>, p: int)
    requires Conserved(pages, head, size, used, list) && p in used && p == size - NODE_SIZE
    ensures Conserved(pages - {p}, head, size - NODE_SIZE, used - {p}, list)
  {
    var pages' := pages - {p};
    assert forall q :: q in ToSet(list) ==> q != p;
    forall i | 0 <= i < |list| ensures LinkAt(pages', list, i) {
      assert LinkAt(pages, list, i) && list[i] in ToSet(list);
    }
  }

  lemma FreeLinks(pages: Pages, head: int, size: int, used: set<int>, list: seq<int>, p: int)
    requires Conserved(pages, head, size, used, list) && p in used
    ensures Conserved(pages[p := FreePage(head)], p, size, used - {p}, [p] + list)
  {
    var pages', list' := pages[p := FreePage(head)], [p] + list;
    assert forall i :: 0 <= i < |list| ==> list[i] in ToSet(list);
    ToSetCons(p, list);
    forall i | 0 <= i < |list'| ensures LinkAt(pages', list', i) {
      if i > 0 {
        assert LinkAt(pages, list, i - 1);
      }
    }
  }

  lemma ToSetCons(p: int, list: seq<int>)
    ensures ToSet([p] + list) == {p} + ToSet(list)
  {
    var list' := [p] + list;
    assert list'[0] == p;
    assert forall i :: 0 <= i < |list| ==> list'[i + 1] == list[i];
  }

  /** Overwriting pages in use leaves the free list alone. */
  lemma EditKeepsConserved(pages: Pages, pages': Pages, head: int, size: int, used: set<int>, list: seq<int>)
    requires Conserved(pages, head, size, used, list) && pages'.Keys == pages.Keys
    requires forall p :: p in pages && p !in used ==> pages'[p] == pages[p]
    ensures Conserved(pages', head, size, used, list)
  {
    forall i | 0 <= i < |list| ensures LinkAt(pages', list, i) {
      assert LinkAt(pages, list, i) && list[i] in ToSet(list);
    }
  }

  lemma NullIsNoPage(pages: Pages, head: int, size: int, used: set<int>, list: seq<int>)
    requires Conserved(pages, head, size, used, list)
    ensures NULL !in pages
  {
  }
}
