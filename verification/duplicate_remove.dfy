/** Taking one value from a key that has several (BPlusTree.cpp, _RemoveDuplicate). */
module DuplicateRemove {
  import opened NodeLayout
  import opened TreeShape
  import opened TreeHousing
  import opened BPlusTrees
  import opened SortedArrays
  import opened DuplicateValues
  import opened DuplicateSteps
  import opened DuplicateChains
  import opened TreeOthers
  import opened DuplicateInsert

  /** Values are file offsets or inode numbers: less than the smallest link. */
  ghost predicate Small(s: seq<int>) {
    forall v :: v in s ==> 0 <= v < LINK_LIMIT
  }

  lemma SmallLess(s: seq<int>, t: seq<int>, value: int)
    requires Small(s) && multiset(t) == multiset(s) - multiset{value}
    ensures Small(t)
  {
    forall v | v in t ensures 0 <= v < LINK_LIMIT {
      assert multiset(t)[v] > 0;
      assert multiset(s)[v] > 0;
      assert v in s;
    }
  }

  // ---- from a fragment ----

  /** The value is taken out of the fragment; a single value left becomes plain again, and an unused page is freed. */
  method RemoveFromFragment(tree: BPlusTree, ghost d: Dups, leaf: int, index: nat, ghost ord: real, p: int, j: nat,
                            block: array<int>, value: int, ghost was: seq<int>) returns (found: bool, ghost d': Dups)
    requires HasValues(tree.others, tree.contents, d, ord, was) && Small(was)
    requires Duplicated(tree, d) && LeafEntry(tree, leaf, index, ord) && ord in tree.contents && tree.contents[ord] >= 0
    requires IsDuplicate(tree.contents[ord]) && LinkType(tree.contents[ord]) == DUPLICATE_FRAGMENT
    requires p == FragmentOffset(tree.contents[ord]) && j == FragmentIndex(tree.contents[ord])
    requires IsWords(tree.others, p) && InBlock(block[..], tree.others[p].words) && j < MAX_FRAGMENTS
    modifies tree`pages, tree`others, tree`contents, tree`freeNode, tree`maximumSize, tree`freeList, block
    ensures found <==> value in was
    ensures !found ==> unchanged(tree) && d' == d
    ensures found ==> NowHas(tree, d, d', ord, multiset(was) - multiset{value}) && tree.maximumSize <= old(tree.maximumSize)
  {
    hide BPlusTree.Valid, ShortTree, DupsOk, KeyOk, ValuesOf, IsArray, LinkType, FragmentOffset, FragmentIndex, MakeLink, SameValues, Reformed,
      LeafEntry, Shared, GivenUp, IsDuplicate, Elsewhere;
    ghost var others, contents, words := tree.others, tree.contents, tree.others[p].words;
    d' := d;
    FragmentOfKey(others, contents, d, ord);
    BlockArray(block[..], words, 8 * j, NUM_FRAGMENT_VALUES);
    found := TakeFromFragment(block, words, j, value);
    if !found {
      return;
    }
    CountFits(block[..PAGE_WORDS], 8 * j);
    ghost var s := ArrayAt(block[..PAGE_WORDS], 8 * j);
    SmallLess(was, s, value);
    if block[8 * j] != 1 {
      d' := KeepFragment(tree, d, ord, p, j, block[..PAGE_WORDS]);
    } else {
      OneLeft(block[..PAGE_WORDS], 8 * j, block[8 * j + 1]);
      d' := FragmentToPlain(tree, d, leaf, index, ord, p, j, block);
    }
  }

  method TakeFromFragment(block: array<int>, ghost words: seq<int>, j: nat, value: int) returns (found: bool)
    requires InBlock(block[..], words) && |words| == PAGE_WORDS && j < MAX_FRAGMENTS && IsArray(words, 8 * j, NUM_FRAGMENT_VALUES)
    modifies block
    ensures found <==> value in ArrayAt(words, 8 * j)
    ensures !found ==> block[..] == old(block[..])
    ensures found ==> IsArray(block[..PAGE_WORDS], 8 * j, NUM_FRAGMENT_VALUES) && block[8 * j] == words[8 * j] - 1
    ensures found ==> multiset(ArrayAt(block[..PAGE_WORDS], 8 * j)) == multiset(ArrayAt(words, 8 * j)) - multiset{value}
    ensures found ==> Elsewhere(words, block[..PAGE_WORDS], 8 * j, 8 * j + 8)
  {
    hide IsArray, Elsewhere;
    ghost var b0 := block[..];
    BlockArray(b0, words, 8 * j, NUM_FRAGMENT_VALUES);
    found := RemoveValue(block, 8 * j, value, NUM_FRAGMENT_VALUES);
    if found {
      BlockArray(block[..], block[..PAGE_WORDS], 8 * j, NUM_FRAGMENT_VALUES);
      CountFits(b0, 8 * j);
      BlockElsewhere(b0, block[..], 8 * j, 8 * j + 1 + b0[8 * j], 8 * j + 8);
    }
  }

  /** Two values or more are left: the fragment is written back. */
  method KeepFragment(tree: BPlusTree, ghost d: Dups, ghost ord: real, p: int, j: nat, words: seq<int>) returns (ghost d': Dups)
    requires Duplicated(tree, d) && ord in tree.contents && tree.contents[ord] >= 0 && IsDuplicate(tree.contents[ord])
    requires LinkType(tree.contents[ord]) == DUPLICATE_FRAGMENT
    requires p == FragmentOffset(tree.contents[ord]) && j == FragmentIndex(tree.contents[ord])
    requires IsWords(tree.others, p) && j < MAX_FRAGMENTS && |words| == PAGE_WORDS
    requires Elsewhere(tree.others[p].words, words, 8 * j, 8 * j + 8) && IsArray(words, 8 * j, NUM_FRAGMENT_VALUES) && words[8 * j] >= 2
    modifies tree`pages, tree`others
    ensures NowHas(tree, d, d', ord, multiset(ArrayAt(words, 8 * j)))
  {
    hide BPlusTree.Valid, ShortTree, DupsOk, KeyOk, ValuesOf, IsArray, LinkType, FragmentOffset, FragmentIndex, SameValues, Reformed, IsDuplicate, Elsewhere;
    ghost var others, contents := tree.others, tree.contents;
    OthersArePages(tree, p);
    WriteWords(tree, p, words);
    d' := FragmentRewritten(others, contents, d, ord, p, j, words);
    CountFits(words, 8 * j);
    ReformedIs(others, contents, d, ord, tree.others, d', contents[ord], ArrayAt(words, 8 * j));
    assert contents[ord := contents[ord]] == contents;
  }

  /** One value is left: it goes into the leaf, and the fragment is free, or its page when nobody else uses it. */
  method FragmentToPlain(tree: BPlusTree, ghost d: Dups, leaf: int, index: nat, ghost ord: real, p: int, j: nat, block: array<int>)
      returns (ghost d': Dups)
    requires Duplicated(tree, d) && LeafEntry(tree, leaf, index, ord) && ord in tree.contents && tree.contents[ord] >= 0
    requires IsDuplicate(tree.contents[ord]) && LinkType(tree.contents[ord]) == DUPLICATE_FRAGMENT
    requires p == FragmentOffset(tree.contents[ord]) && j == FragmentIndex(tree.contents[ord])
    requires IsWords(tree.others, p) && j < MAX_FRAGMENTS && block.Length == PAGE_WORDS + 1
    requires Elsewhere(tree.others[p].words, block[..PAGE_WORDS], 8 * j, 8 * j + 8)
    requires block[8 * j] == 1 && 0 <= block[8 * j + 1] < LINK_LIMIT
    modifies tree`pages, tree`others, tree`contents, tree`freeNode, tree`maximumSize, tree`freeList, block
    ensures NowHas(tree, d, d', ord, multiset([old(block[8 * j + 1])])) && tree.maximumSize <= old(tree.maximumSize)
  {
    hide BPlusTree.Valid, ShortTree, DupsOk, KeyOk, ValuesOf, LinkType, FragmentOffset, FragmentIndex, SameValues, Reformed,
      LeafEntry, Shared, GivenUp, IsDuplicate, Elsewhere;
    ghost var others, contents, words := tree.others, tree.contents, tree.others[p].words;
    FragmentOfKey(others, contents, d, ord);
    OthersArePages(tree, p);
    var last := block[8 * j + 1];
    AloneIfUnused(others, contents, d, p, j);
    UsedBefore(words, block[..], j);
    var used := FragmentsUsed(block, j);
    SharedByUse(block[..], block[..PAGE_WORDS], j);
    PutWord(tree, leaf, index, ord, last);
    if used == 1 {
      GiveBackPage(tree, p);
      GivenUpAlone(others, contents, d, ord, p, j);
    } else {
      OthersArePages(tree, p);
      ghost var b1 := block[..];
      block[8 * j] := 0;
      ZeroCount(words, b1, block[..], j);
      WriteWords(tree, p, block[..PAGE_WORDS]);
      EmptiedSlot(others, p, j, words, block[..PAGE_WORDS]);
      GivenUpShared(others, contents, d, ord, p, j, tree.others);
    }
    d' := ReformPlain(others, contents, d, ord, tree.others, last);
    ReformedIs(others, contents, d, ord, tree.others, d', last, [last]);
  }

  lemma ZeroCount(words: seq<int>, was: seq<int>, now: seq<int>, j: nat)
    requires |words| == PAGE_WORDS && |was| == PAGE_WORDS + 1 && j < MAX_FRAGMENTS && now == was[8 * j := 0]
    requires Elsewhere(words, was[..PAGE_WORDS], 8 * j, 8 * j + 8)
    ensures Elsewhere(words, now[..PAGE_WORDS], 8 * j, 8 * j + 8) && now[..PAGE_WORDS][8 * j] == 0
  {
  }

  lemma CountFits(words: seq<int>, base: nat)
    requires IsArray(words, base, NUM_FRAGMENT_VALUES)
    ensures base + 1 + NUM_FRAGMENT_VALUES <= |words| && 0 <= words[base] <= NUM_FRAGMENT_VALUES
  {
  }

  lemma OneLeft(words: seq<int>, base: nat, last: int)
    requires IsArray(words, base, NUM_FRAGMENT_VALUES) && words[base] == 1 && last == words[base + 1]
    ensures ArrayAt(words, base) == [last] && last in ArrayAt(words, base)
  {
  }

  /** The other fragments' counts are as they were. */
  lemma UsedBefore(words: seq<int>, block: seq<int>, j: nat)
    requires |words| == PAGE_WORDS && j < MAX_FRAGMENTS && |block| == PAGE_WORDS + 1
    requires Elsewhere(words, block[..PAGE_WORDS], 8 * j, 8 * j + 8)
    ensures (exists k: nat {:trigger words[8 * k]} :: k < MAX_FRAGMENTS && k != j && words[8 * k] > 0)
       <==> (exists k: nat {:trigger block[..PAGE_WORDS][8 * k]} :: k < MAX_FRAGMENTS && k != j && block[..PAGE_WORDS][8 * k] > 0)
  {
    forall k: nat | k < MAX_FRAGMENTS && k != j ensures words[8 * k] == block[..PAGE_WORDS][8 * k] {
    }
  }

  lemma GivenUpAlone(pages: Pages, contents: map<real, int>, d: Dups, ord: real, p: int, j: nat)
    requires DupsOk(pages, contents, d) && ord in contents && contents[ord] >= 0 && IsDuplicate(contents[ord])
    requires LinkType(contents[ord]) == DUPLICATE_FRAGMENT && p == FragmentOffset(contents[ord]) && j == FragmentIndex(contents[ord])
    requires !Shared(d, p, j)
    ensures KeyOk(pages, d, ord, contents[ord]) && GivenUp(pages, d, ord, contents[ord], pages - {p})
  {
    hide DupsOk, KeyOk, LinkType, FragmentOffset, FragmentIndex;
    FragmentOfKey(pages, contents, d, ord);
  }

  lemma GivenUpShared(pages: Pages, contents: map<real, int>, d: Dups, ord: real, p: int, j: nat, pages0: Pages)
    requires DupsOk(pages, contents, d) && ord in contents && contents[ord] >= 0 && IsDuplicate(contents[ord])
    requires LinkType(contents[ord]) == DUPLICATE_FRAGMENT && p == FragmentOffset(contents[ord]) && j == FragmentIndex(contents[ord])
    requires Shared(d, p, j) && FragmentEmptied(pages, pages0, p, j)
    ensures KeyOk(pages, d, ord, contents[ord]) && GivenUp(pages, d, ord, contents[ord], pages0)
  {
    hide DupsOk, KeyOk, LinkType, FragmentOffset, FragmentIndex, FragmentEmptied;
    FragmentOfKey(pages, contents, d, ord);
  }

  // ---- from a chain ----

  /** Looks along the chain for a page with the value, and takes it out of the block. */
  method FindInChain(tree: BPlusTree, ghost chain: seq<int>, first: int, value: int)
      returns (found: bool, ghost i: nat, p: int, block: array<int>)
    requires tree.Valid() && ChainOk(tree.others, chain) && first == chain[0] && Readable(tree.others, chain)
    requires forall k :: 0 <= k < |chain| ==> IsPageOffset(chain[k])
    ensures found <==> value in ChainValues(tree.others, chain)
    ensures fresh(block) && block.Length == PAGE_WORDS + 1
    ensures found ==> i < |chain| && p == chain[i] && IsWords(tree.others, p) && Took(tree.others[p].words, block[..PAGE_WORDS], value)
  {
    hide BPlusTree.Valid, IsArray, FragmentOffset, Took, ChainValues, ArrayAt;
    p, i := first, 0;
    while true
      invariant i < |chain| && p == chain[i]
      invariant forall k :: 0 <= k < i ==> value !in PageValues(tree.others, chain[k])
      decreases |chain| - i
    {
      assert LinkShaped(tree.others, chain, i);
      OthersArePages(tree, p);
      block := ReadWords(tree, p);
      var right := block[1];
      found := TakeFromPage(block, tree.others[p].words, value);
      if found {
        SomewhereInChain(tree.others, chain, i, value);
        return;
      }
      NoRight(tree.others, chain, i);
      if right == NULL {
        NowhereInChain(tree.others, chain, value);
        return;
      }
      p, i := FragmentOffset(right), i + 1;
      BareOffset(chain[i]);
    }
  }

  /** One value has been taken from a duplicate page. */
  ghost predicate Took(was: seq<int>, now: seq<int>, value: int) {
    && |was| == |now| == PAGE_WORDS && IsArray(was, 2, NUM_DUPLICATE_VALUES) && IsArray(now, 2, NUM_DUPLICATE_VALUES)
    && now[0] == was[0] && now[1] == was[1] && now[2] == was[2] - 1
    && value in ArrayAt(was, 2) && multiset(ArrayAt(now, 2)) == multiset(ArrayAt(was, 2)) - multiset{value}
  }

  method TakeFromPage(block: array<int>, ghost words: seq<int>, value: int) returns (found: bool)
    requires InBlock(block[..], words) && |words| == PAGE_WORDS && IsArray(words, 2, NUM_DUPLICATE_VALUES)
    modifies block
    ensures found <==> value in ArrayAt(words, 2)
    ensures found ==> Took(words, block[..PAGE_WORDS], value)
  {
    hide IsArray, ArrayAt;
    BlockArray(block[..], words, 2, NUM_DUPLICATE_VALUES);
    found := RemoveValue(block, 2, value, NUM_DUPLICATE_VALUES);
    if found {
      BlockArray(block[..], block[..PAGE_WORDS], 2, NUM_DUPLICATE_VALUES);
    }
  }

  lemma SomewhereInChain(pages: Pages, chain: seq<int>, i: nat, value: int)
    requires Readable(pages, chain) && i < |chain| && value in PageValues(pages, chain[i])
    ensures value in ChainValues(pages, chain)
  {
    ChainSplit(pages, chain, i);
  }

  lemma {:induction false} NowhereInChain(pages: Pages, chain: seq<int>, value: int)
    requires Readable(pages, chain) && forall k :: 0 <= k < |chain| ==> value !in PageValues(pages, chain[k])
    ensures value !in ChainValues(pages, chain)
  {
    if chain != [] {
      var rest := chain[1..];
      assert forall k :: 0 <= k < |rest| ==> rest[k] == chain[k + 1];
      NowhereInChain(pages, rest, value);
    }
  }

  /** Only the pages of the key's chain have changed, and at most `p` of them is left; the key's word is on its way. */
  ghost predicate Between(tree: BPlusTree, others: Pages, contents: map<real, int>, d: Dups, ord: real, p: int)
    reads tree
  {
    && tree.Valid() && DupsOk(others, contents, d) && ord in contents && ord in d.chains && ord in tree.contents
    && tree.others.Keys == others.Keys - Members(d.chains[ord]) + {p} && p in Members(d.chains[ord]) && IsPageOffset(p)
    && (forall q :: q in others && q !in Members(d.chains[ord]) ==> tree.others[q] == others[q])
    && tree.contents == contents[ord := tree.contents[ord]]
    && tree.contents[ord] >= 0 && IsDuplicate(tree.contents[ord]) && LinkType(tree.contents[ord]) != DUPLICATE_FRAGMENT
  }

  lemma BetweenIs(tree: BPlusTree, others: Pages, contents: map<real, int>, d: Dups, ord: real, p: int)
    requires Between(tree, others, contents, d, ord, p)
    ensures tree.Valid() && DupsOk(others, contents, d) && ord in contents && ord in d.chains && ord in tree.contents && IsPageOffset(p)
    ensures tree.contents == contents[ord := tree.contents[ord]]
    ensures p !in others - Members(d.chains[ord]) && p in tree.others
    ensures tree.others == (others - Members(d.chains[ord]))[p := tree.others[p]]
  {
    hide BPlusTree.Valid, ShortTree, DupsOk, Members;
    var pages0 := others - Members(d.chains[ord]);
    forall q | q in tree.others && q != p ensures q in pages0 && tree.others[q] == pages0[q] {
      assert q in tree.others.Keys;
    }
    assert p in tree.others.Keys;
    forall q | q in pages0 ensures q in tree.others {
      assert q in others.Keys - Members(d.chains[ord]);
    }
  }

  /** The key has given up its chain; what is left of it no longer matters. */
  lemma GivenUpChain(pages: Pages, contents: map<real, int>, d: Dups, ord: real)
    requires DupsOk(pages, contents, d) && ord in contents && ord in d.chains
    ensures KeyOk(pages, d, ord, contents[ord]) && GivenUp(pages, d, ord, contents[ord], pages - Members(d.chains[ord]))
    ensures var d0 := ReleasedDups(pages, d, ord, contents[ord]); DupsOk(pages - Members(d.chains[ord]), contents - {ord}, d0)
  {
    hide SameValues;
    WordOk(pages, contents, d, ord);
    Release(pages, contents, d, ord, pages - Members(d.chains[ord]));
  }

  /** The result of taking a value away: the key has the rest, in whatever form. */
  ghost predicate Settled(tree: BPlusTree, others: Pages, contents: map<real, int>, d: Dups, d': Dups, ord: real, values: multiset<int>)
    reads tree
  {
    && tree.Valid() && ord in tree.contents && tree.contents == contents[ord := tree.contents[ord]]
    && DupsOk(tree.others, tree.contents, d') && KeyOk(tree.others, d', ord, tree.contents[ord])
    && multiset(ValuesOf(tree.others, d', ord, tree.contents[ord])) == values
    && SameValues(others, contents, d, tree.others, tree.contents, d', ord)
  }

  /** One value is left: it goes into the leaf, and the page is freed. */
  method SoleToPlain(tree: BPlusTree, ghost others: Pages, ghost contents: map<real, int>, ghost d: Dups, leaf: int, index: nat,
                     ghost ord: real, p: int, last: int) returns (ghost d': Dups)
    requires Between(tree, others, contents, d, ord, p) && LeafEntry(tree, leaf, index, ord) && 0 <= last < LINK_LIMIT
    modifies tree`pages, tree`others, tree`contents, tree`freeNode, tree`maximumSize, tree`freeList
    ensures Settled(tree, others, contents, d, d', ord, multiset([last]))
    ensures tree.maximumSize <= old(tree.maximumSize) && tree.shape == old(tree.shape) && tree.iterators == old(tree.iterators)
    ensures SameKeys(tree)
  {
    hide BPlusTree.Valid, ShortTree, DupsOk, KeyOk, ValuesOf, LinkType, SameValues, Reformed, LeafEntry, GivenUp, IsDuplicate, IsPageOffset;
    BetweenIs(tree, others, contents, d, ord, p);
    GivenUpChain(others, contents, d, ord);
    PutWord(tree, leaf, index, ord, last);
    GiveBackPage(tree, p);
    ghost var pages0 := others - Members(d.chains[ord]);
    assert tree.others == pages0;
    d' := ReformPlain(others, contents, d, ord, pages0, last);
    ReformedIs(others, contents, d, ord, tree.others, d', last, [last]);
    assert contents[ord := last] == tree.contents;
  }

  /** The values fit a fragment: a free one in a page of this leaf's keys, or else the page itself is cut up. */
  method PlaceFragment(tree: BPlusTree, ghost others: Pages, ghost contents: map<real, int>, ghost d: Dups, leaf: int, index: nat,
                       ghost ord: real, p: int, block: array<int>) returns (target: int, j: nat)
    requires Between(tree, others, contents, d, ord, p) && LeafEntry(tree, leaf, index, ord)
    requires block.Length == PAGE_WORDS + 1 && IsArray(block[..], 2, NUM_FRAGMENT_VALUES) && block[2] >= 2
    requires KeyOk(others, d, ord, contents[ord])
    modifies tree`pages, tree`others, tree`freeNode, tree`maximumSize, tree`freeList, block
    ensures Undisturbed(tree) && tree.maximumSize <= old(tree.maximumSize)
    ensures FragmentAdded(others - Members(d.chains[ord]), tree.others, ReleasedDups(others, d, ord, contents[ord]), target, j)
    ensures target > 0 && IsWords(tree.others, target) && IsArray(tree.others[target].words, 8 * j, NUM_FRAGMENT_VALUES)
    ensures ArrayAt(tree.others[target].words, 8 * j) == old(ArrayAt(block[..], 2))
  {
    hide BPlusTree.Valid, ShortTree, DupsOk, KeyOk, ValuesOf, IsArray, LinkType, LeafEntry, IsDuplicate, FragmentAdded, FragmentOk, ReleasedDups,
      RestOf, FreeFragment, IsPageOffset, Members, Between;
    BetweenIs(tree, others, contents, d, ord, p);
    GivenUpChain(others, contents, d, ord);
    ghost var pages0 := others - Members(d.chains[ord]);
    ghost var d0 := ReleasedDups(others, d, ord, contents[ord]);
    RestIsRest(tree, others, contents, d, ord, p, leaf, index);
    var found;
    found, target, j := FindFreeFragment(tree, pages0, contents - {ord}, d0, ord, leaf);
    if found {
      FreeInUse(pages0, d0, target, j);
      PageInUse(tree, pages0, contents - {ord}, d0, ord, target);
      var other := ReadWords(tree, target);
      CopyFragment(block, other, j);
      AddedToShared(pages0, d0, target, j, other[..PAGE_WORDS]);
      GiveBackPage(tree, p);
      WriteWords(tree, target, other[..PAGE_WORDS]);
      assert tree.others == pages0[target := Words(other[..PAGE_WORDS])];
    } else {
      target, j := p, 0;
      FoldPage(block);
      WriteWords(tree, p, block[..PAGE_WORDS]);
      assert tree.others == pages0[p := Words(block[..PAGE_WORDS])];
      AddedAlone(pages0, d0, p, block[..PAGE_WORDS]);
    }
    TargetOffset(pages0, tree.others, d0, target, j);
  }

  /** One page with 1 to 7 values is all that is left of the chain: a plain value, or a fragment again. */
  method SettleSole(tree: BPlusTree, ghost others: Pages, ghost contents: map<real, int>, ghost d: Dups, leaf: int, index: nat,
                    ghost ord: real, p: int, block: array<int>) returns (ghost d': Dups)
    requires Between(tree, others, contents, d, ord, p) && LeafEntry(tree, leaf, index, ord)
    requires block.Length == PAGE_WORDS + 1 && IsArray(block[..], 2, NUM_FRAGMENT_VALUES) && block[2] >= 1
    requires Small(ArrayAt(block[..], 2))
    modifies tree`pages, tree`others, tree`contents, tree`freeNode, tree`maximumSize, tree`freeList, block
    ensures Settled(tree, others, contents, d, d', ord, multiset(old(ArrayAt(block[..], 2))))
    ensures tree.maximumSize <= old(tree.maximumSize) && tree.shape == old(tree.shape) && tree.iterators == old(tree.iterators)
    ensures SameKeys(tree)
  {
    hide BPlusTree.Valid, ShortTree, DupsOk, KeyOk, ValuesOf, IsArray, LinkType, MakeLink, SameValues, Reformed, LeafEntry, GivenUp, IsDuplicate,
      FragmentAdded, ReleasedDups, Members, Between;
    CountFits(block[..], 2);
    if block[2] == 1 {
      OneLeft(block[..], 2, block[3]);
      d' := SoleToPlain(tree, others, contents, d, leaf, index, ord, p, block[3]);
      return;
    }
    BetweenIs(tree, others, contents, d, ord, p);
    GivenUpChain(others, contents, d, ord);
    var target, j := PlaceFragment(tree, others, contents, d, leaf, index, ord, p, block);
    ghost var now, pages0 := tree.others, others - Members(d.chains[ord]);
    d' := ReformFragment(others, contents, d, ord, pages0, now, target, j);
    var word := MakeLink(DUPLICATE_FRAGMENT, target, j);
    PutWord(tree, leaf, index, ord, word);
    CountFits(now[target].words, 8 * j);
    ReformedIs(others, contents, d, ord, now, d', word, ArrayAt(now[target].words, 8 * j));
    assert contents[ord := word] == tree.contents;
  }

  /** memcpy of a count and seven words from a duplicate page to a fragment. */
  method CopyFragment(block: array<int>, other: array<int>, j: nat)
    requires block != other && block.Length == other.Length == PAGE_WORDS + 1 && j < MAX_FRAGMENTS
    requires IsArray(block[..], 2, NUM_FRAGMENT_VALUES)
    modifies other
    ensures IsArray(other[..PAGE_WORDS], 8 * j, NUM_FRAGMENT_VALUES) && other[8 * j] == block[2]
    ensures ArrayAt(other[..PAGE_WORDS], 8 * j) == ArrayAt(block[..], 2)
    ensures Elsewhere(old(other[..PAGE_WORDS]), other[..PAGE_WORDS], 8 * j, 8 * j + 8)
  {
    ghost var b, o := block[..], other[..];
    for k := 0 to NUM_FRAGMENT_VALUES + 1
      invariant block[..] == b
      invariant forall x {:trigger other[x]} :: 0 <= x < other.Length ==> other[x] == if 8 * j <= x < 8 * j + k then b[x - 8 * j + 2] else o[x]
    {
      other[8 * j + k] := block[2 + k];
    }
    ArrayMoved(b, other[..], 2, 8 * j, NUM_FRAGMENT_VALUES);
    BlockArray(other[..], other[..PAGE_WORDS], 8 * j, NUM_FRAGMENT_VALUES);
    BlockElsewhere(o, other[..], 8 * j, 8 * j + 8, 8 * j + 8);
  }

  /** Moves the array to the first fragment of its own page, and clears the rest. */
  method FoldPage(block: array<int>)
    requires block.Length == PAGE_WORDS + 1 && IsArray(block[..], 2, NUM_FRAGMENT_VALUES)
    modifies block
    ensures IsArray(block[..PAGE_WORDS], 0, NUM_FRAGMENT_VALUES) && block[0] == old(block[2])
    ensures ArrayAt(block[..PAGE_WORDS], 0) == old(ArrayAt(block[..], 2))
    ensures forall k {:trigger block[..PAGE_WORDS][8 * k]} :: 1 <= k < MAX_FRAGMENTS ==> block[..PAGE_WORDS][8 * k] == 0
  {
    ghost var b := block[..];
    MoveWords(block, 0, 2, NUM_FRAGMENT_VALUES + 1);
    ghost var c := block[..];
    for k := NUM_FRAGMENT_VALUES + 1 to PAGE_WORDS
      invariant forall x {:trigger block[x]} :: 0 <= x < block.Length ==> block[x] == if NUM_FRAGMENT_VALUES + 1 <= x < k then 0 else c[x]
    {
      block[k] := 0;
    }
    ArrayMoved(b, block[..], 2, 0, NUM_FRAGMENT_VALUES);
    BlockArray(block[..], block[..PAGE_WORDS], 0, NUM_FRAGMENT_VALUES);
  }

  lemma AddedToShared(pages: Pages, d: Dups, p: int, j: nat, words: seq<int>)
    requires FreeFragment(pages, d, p, j) && |words| == PAGE_WORDS && Elsewhere(pages[p].words, words, 8 * j, 8 * j + 8)
    requires IsArray(words, 8 * j, NUM_FRAGMENT_VALUES) && words[8 * j] >= 2
    ensures FragmentAdded(pages, pages[p := Words(words)], d, p, j)
  {
    SameSlots(pages, pages[p := Words(words)], p, j, words);
  }

  lemma AddedAlone(pages: Pages, d: Dups, p: int, words: seq<int>)
    requires p !in pages && IsPageOffset(p) && |words| == PAGE_WORDS && IsArray(words, 0, NUM_FRAGMENT_VALUES) && words[0] >= 2
    requires forall k {:trigger words[8 * k]} :: 1 <= k < MAX_FRAGMENTS ==> words[8 * k] == 0
    ensures FragmentAdded(pages, pages[p := Words(words)], d, p, 0)
  {
  }

  lemma FreeInUse(pages: Pages, d: Dups, p: int, j: nat)
    requires FreeFragment(pages, d, p, j)
    ensures p in d.role && IsWords(pages, p) && j < MAX_FRAGMENTS && IsPageOffset(p)
  {
  }

  lemma TargetOffset(pages: Pages, pages': Pages, d: Dups, p: int, j: nat)
    requires FragmentAdded(pages, pages', d, p, j)
    ensures p > 0 && IsWords(pages', p) && j < MAX_FRAGMENTS && IsArray(pages'[p].words, 8 * j, NUM_FRAGMENT_VALUES)
  {
  }

  lemma RestIsRest(tree: BPlusTree, others: Pages, contents: map<real, int>, d: Dups, ord: real, p: int, leaf: int, index: nat)
    requires Between(tree, others, contents, d, ord, p) && LeafEntry(tree, leaf, index, ord) && KeyOk(others, d, ord, contents[ord])
    requires DupsOk(others - Members(d.chains[ord]), contents - {ord}, ReleasedDups(others, d, ord, contents[ord]))
    ensures RestOf(tree, others - Members(d.chains[ord]), contents - {ord}, ReleasedDups(others, d, ord, contents[ord]), ord)
    ensures leaf in tree.shape.level && tree.shape.level[leaf] == 0 && leaf in tree.pages && tree.pages[leaf].Node?
  {
    hide DupsOk, KeyOk, ReleasedDups, LinkType, IsDuplicate;
  }

  // ---- what is left of a chain ----

  /** The page keeps enough values to stay as it is. */
  lemma ShrunkPage(pages: Pages, contents: map<real, int>, d: Dups, ord: real, i: nat, words: seq<int>, value: int) returns (d': Dups)
    requires DupsOk(pages, contents, d) && ord in contents && contents[ord] >= 0 && IsDuplicate(contents[ord])
    requires LinkType(contents[ord]) != DUPLICATE_FRAGMENT && ord in d.chains && i < |d.chains[ord]|
    requires IsWords(pages, d.chains[ord][i]) && Took(pages[d.chains[ord][i]].words, words, value)
    requires words[2] >= if |d.chains[ord]| == 1 then NUM_FRAGMENT_VALUES + 1 else 1
    ensures KeyOk(pages, d, ord, contents[ord])
    ensures Reshaped(pages, contents, d, ord, pages[d.chains[ord][i] := Words(words)], d', contents[ord],
                     multiset(ValuesOf(pages, d, ord, contents[ord])) - multiset{value})
  {
    hide DupsOk, KeyOk, IsArray, LinkType, MakeLink, ValuesOf, Reformed, SameValues, ChainValues, LinkShaped, ArrayAt;
    ChainOfKey(pages, contents, d, ord);
    var chain := d.chains[ord];
    var pages' := pages[chain[i] := Words(words)];
    PageRewritten(pages, chain, i, words);
    Rejoined(pages, pages', chain);
    OneLess(ChainValues(pages, chain), PageValues(pages, chain[i]), ArrayAt(words, 2), value);
    GivenUpChain(pages, contents, d, ord);
    d' := ReformChain(pages, contents, d, ord, pages - Members(chain), pages', chain);
    ReformedIs(pages, contents, d, ord, pages', d', contents[ord], ChainValues(pages', chain));
  }

  lemma OneLess(all: seq<int>, was: seq<int>, now: seq<int>, value: int)
    requires multiset(was) <= multiset(all) && value in was && multiset(now) == multiset(was) - multiset{value}
    ensures multiset(all) - multiset(was) + multiset(now) == multiset(all) - multiset{value}
  {
  }

  /** Like Reformed, for the values in any order. */
  ghost predicate Reshaped(pages: Pages, contents: map<real, int>, d: Dups, ord: real, pages': Pages, d': Dups, word: int,
                           values: multiset<int>) {
    && DupsOk(pages', contents[ord := word], d') && KeyOk(pages', d', ord, word) && multiset(ValuesOf(pages', d', ord, word)) == values
    && SameValues(pages, contents, d, pages', contents[ord := word], d', ord)
  }

  /** The page that held only the value is gone, and what is left is still a chain. */
  lemma ShorterChain(pages: Pages, contents: map<real, int>, d: Dups, ord: real, i: nat, words: seq<int>, value: int, pages': Pages)
      returns (d': Dups)
    requires DupsOk(pages, contents, d) && ord in contents && contents[ord] >= 0 && IsDuplicate(contents[ord])
    requires LinkType(contents[ord]) != DUPLICATE_FRAGMENT && ord in d.chains && 2 <= |d.chains[ord]| && i < |d.chains[ord]|
    requires ChainShaped(pages, d.chains[ord]) && IsWords(pages, d.chains[ord][i]) && Took(pages[d.chains[ord][i]].words, words, value)
    requires words[2] == 0 && PageTakenOut(pages, pages', d.chains[ord], i)
    requires |d.chains[ord]| == 2 ==> IsWords(pages', d.chains[ord][1 - i]) && pages'[d.chains[ord][1 - i]].words[2] > NUM_FRAGMENT_VALUES
    ensures KeyOk(pages, d, ord, contents[ord])
    ensures Reshaped(pages, contents, d, ord, pages', d', MakeLink(DUPLICATE_NODE, d.chains[ord][if i == 0 then 1 else 0], 0),
                     multiset(ValuesOf(pages, d, ord, contents[ord])) - multiset{value})
  {
    hide DupsOk, KeyOk, IsArray, LinkType, MakeLink, ValuesOf, Reformed, SameValues, ChainValues, LinkShaped, ArrayAt, PageTakenOut,
      IsPageOffset, GivenUp;
    ChainOfKey(pages, contents, d, ord);
    var chain := d.chains[ord];
    var less := Without(chain, i);
    NotNull(chain);
    PageUnlinked(pages, pages', chain, i);
    OnlyValue(pages[chain[i]].words, words, value);
    ShorterOk(pages, pages', chain, i);
    NoNullPage(pages, contents, d);
    ShorterJoined(pages, pages', chain, i);
    Positive(chain[if i == 0 then 1 else 0]);
    GivenUpChain(pages, contents, d, ord);
    d' := ReformChain(pages, contents, d, ord, pages - Members(chain), pages', less);
    ReformedIs(pages, contents, d, ord, pages', d', MakeLink(DUPLICATE_NODE, less[0], 0), ChainValues(pages', less));
  }

  lemma NoNullPage(pages: Pages, contents: map<real, int>, d: Dups)
    requires DupsOk(pages, contents, d)
    ensures NULL !in pages
  {
  }

  lemma NotNull(chain: seq<int>)
    requires forall i :: 0 <= i < |chain| ==> IsPageOffset(chain[i])
    ensures forall i :: 0 <= i < |chain| ==> chain[i] != NULL
  {
  }

  lemma OnlyValue(was: seq<int>, now: seq<int>, value: int)
    requires Took(was, now, value) && now[2] == 0
    ensures ArrayAt(was, 2) == [value]
  {
    assert |ArrayAt(was, 2)| == 1;
  }

  lemma ShorterOk(pages: Pages, pages': Pages, chain: seq<int>, i: nat)
    requires ChainOk(pages, chain) && |chain| >= 2 && i < |chain| && PageTakenOut(pages, pages', chain, i)
    requires ChainShaped(pages', Without(chain, i)) && forall m :: 0 <= m < |chain| ==> chain[m] != NULL
    requires |chain| == 2 ==> IsWords(pages', chain[1 - i]) && pages'[chain[1 - i]].words[2] > NUM_FRAGMENT_VALUES
    ensures ChainOk(pages', Without(chain, i))
  {
    hide IsArray, PageTakenOut, LinkShaped;
    var less := Without(chain, i);
    forall k | 0 <= k < |less| ensures Filled(pages', less, k) {
      var at := if k < i then k else k + 1;
      assert less[k] == chain[at] && Filled(pages, chain, at);
      StillThere(pages, pages', chain, i, at);
      SameCount(pages, pages', chain[at]);
    }
  }

  lemma SameCount(pages: Pages, pages': Pages, p: int)
    requires HasArray(pages, p) && HasArray(pages', p) && PageValues(pages', p) == PageValues(pages, p)
    ensures pages'[p].words[2] == pages[p].words[2]
  {
    assert |PageValues(pages', p)| == |PageValues(pages, p)|;
  }

  lemma ShorterJoined(pages: Pages, pages': Pages, chain: seq<int>, i: nat)
    requires ChainShaped(pages, chain) && i < |chain| && PageTakenOut(pages, pages', chain, i) && ChainOk(pages', Without(chain, i))
    requires (forall k :: 0 <= k < |chain| ==> IsPageOffset(chain[k]) && chain[k] in pages) && NULL !in pages
    ensures ChainAdded(pages - Members(chain), pages', Without(chain, i))
  {
    hide IsArray, ChainShaped, Filled, IsPageOffset;
    var less := Without(chain, i);
    assert forall k :: 0 <= k < |less| ==> less[k] == chain[if k < i then k else k + 1];
    assert forall k :: 0 <= k < |chain| && k != i ==> less[if k < i then k else k - 1] == chain[k];
    assert Members(less) + {chain[i]} == Members(chain);
    DistinctWithout(pages, chain, i);
    forall q | q in pages - Members(chain) ensures pages'[q] == pages[q] {
      assert i > 0 ==> chain[i - 1] in Members(chain);
      assert i + 1 < |chain| ==> chain[i + 1] in Members(chain);
      assert chain[i] in Members(chain) && q in pages.Keys;
    }
  }

  lemma DistinctWithout(pages: Pages, chain: seq<int>, i: nat)
    requires ChainShaped(pages, chain) && i < |chain|
    ensures chain[i] !in Members(Without(chain, i))
  {
    hide LinkShaped;
    var less := Without(chain, i);
    assert forall k :: 0 <= k < |less| ==> less[k] == chain[if k < i then k else k + 1];
  }

  // ---- _RemoveDuplicate ----

  /** Reads a neighbour, sets one of its links, and writes it back. */
  method Relink(tree: BPlusTree, p: int, at: nat, link: int) returns (block: array<int>)
    requires tree.Valid() && IsWords(tree.others, p) && at < 2
    modifies tree`pages, tree`others
    ensures Undisturbed(tree) && tree.others == old(tree.others)[p := Relinked(old(tree.others)[p], at, link)]
    ensures fresh(block) && InBlock(block[..], tree.others[p].words)
  {
    hide BPlusTree.Valid;
    OthersArePages(tree, p);
    block := ReadWords(tree, p);
    ghost var words := tree.others[p].words;
    block[at] := link;
    assert block[..PAGE_WORDS] == words[at := link];
    WriteWords(tree, p, block[..PAGE_WORDS]);
  }

  /** The state while an emptied page is taken out of its chain. */
  ghost predicate Unlinking(others: Pages, contents: map<real, int>, d: Dups, ord: real, i: nat, words: seq<int>, value: int) {
    && DupsOk(others, contents, d) && ord in contents && contents[ord] >= 0 && IsDuplicate(contents[ord])
    && LinkType(contents[ord]) != DUPLICATE_FRAGMENT && ord in d.chains && 2 <= |d.chains[ord]| && i < |d.chains[ord]|
    && ChainOk(others, d.chains[ord]) && IsWords(others, d.chains[ord][i])
    && Took(others[d.chains[ord][i]].words, words, value) && words[2] == 0
    && (forall k :: 0 <= k < |d.chains[ord]| ==> IsPageOffset(d.chains[ord][k]))
  }

  /** What the state says about the chain. */
  lemma UnlinkingChain(others: Pages, contents: map<real, int>, d: Dups, ord: real, i: nat, words: seq<int>, value: int)
    requires Unlinking(others, contents, d, ord, i, words, value)
    ensures ChainShaped(others, d.chains[ord]) && NULL !in others
    ensures ord in d.chains && 2 <= |d.chains[ord]| && i < |d.chains[ord]| && AllWords(others, d.chains[ord]) && ord in contents
    ensures forall k :: 0 <= k < |d.chains[ord]| ==> d.chains[ord][k] != NULL && d.chains[ord][k] in Members(d.chains[ord])
                                                     && IsPageOffset(d.chains[ord][k])
    ensures contents[ord] == MakeLink(DUPLICATE_NODE, d.chains[ord][0], 0)
  {
    hide DupsOk, LinkType, MakeLink, IsArray;
    NoNullPage(others, contents, d);
    ChainOfKey(others, contents, d, ord);
    forall k | 0 <= k < |d.chains[ord]| ensures IsWords(others, d.chains[ord][k]) {
      assert LinkShaped(others, d.chains[ord], k);
    }
  }

  ghost predicate AllWords(pages: Pages, chain: seq<int>) {
    forall k {:trigger chain[k]} :: 0 <= k < |chain| ==> IsWords(pages, chain[k])
  }

  /** The pages after page `i` was freed and its neighbours were linked, as far as that is done. */
  ghost function OutPages(pages: Pages, chain: seq<int>, i: nat, leftDone: bool, rightDone: bool): Pages
    requires i < |chain| && AllWords(pages, chain)
  {
    var a := pages - {chain[i]};
    var b := if leftDone && i > 0 then a[chain[i - 1] := Relinked(pages[chain[i - 1]], 1, RightOf(chain, i))] else a;
    if rightDone && i + 1 < |chain| then b[chain[i + 1] := Relinked(pages[chain[i + 1]], 0, LeftOf(chain, i))] else b
  }

  lemma OutIsTakenOut(pages: Pages, chain: seq<int>, i: nat)
    requires ChainShaped(pages, chain) && i < |chain| && AllWords(pages, chain) && forall k :: 0 <= k < |chain| ==> chain[k] != NULL
    ensures PageTakenOut(pages, OutPages(pages, chain, i, true, true), chain, i)
  {
    hide LinkShaped, Relinked;
  }

  /** The link back of a left neighbour, and the link on of a right one. */
  lemma NeighbourLinks(pages: Pages, chain: seq<int>, i: nat)
    requires ChainShaped(pages, chain) && i < |chain| && |chain| >= 2
    requires AllWords(pages, chain) && forall k :: 0 <= k < |chain| ==> chain[k] != NULL
    ensures i > 0 ==> IsWords(pages, chain[i - 1]) && chain[i - 1] != chain[i]
    ensures i + 1 < |chain| ==> IsWords(pages, chain[i + 1]) && chain[i + 1] != chain[i]
    ensures i > 0 && i + 1 < |chain| ==> chain[i - 1] != chain[i + 1]
    ensures i > 0 ==> (pages[chain[i - 1]].words[0] == NULL <==> i == 1)
    ensures i + 1 < |chain| ==> (pages[chain[i + 1]].words[1] == NULL <==> i + 2 == |chain|)
  {
    hide IsArray;
    assert i > 0 ==> LinkShaped(pages, chain, i - 1);
    assert i + 1 < |chain| ==> LinkShaped(pages, chain, i + 1);
  }

  /** The page is out of the chain, and the leaf's word leads to the first page left. */
  ghost predicate Unlinked(tree: BPlusTree, others: Pages, contents: map<real, int>, d: Dups, ord: real, i: nat)
    requires ord in d.chains && 2 <= |d.chains[ord]| && i < |d.chains[ord]| && IsPageOffset(d.chains[ord][if i == 0 then 1 else 0])
    requires AllWords(others, d.chains[ord])
    reads tree
  {
    && tree.Valid() && tree.others == OutPages(others, d.chains[ord], i, true, true)
    && tree.contents == contents[ord := MakeLink(DUPLICATE_NODE, d.chains[ord][if i == 0 then 1 else 0], 0)]
  }

  /** The single page left has few values. */
  method LeftAlone(tree: BPlusTree, ghost others: Pages, ghost contents: map<real, int>, ghost d: Dups, leaf: int, index: nat,
                   ghost ord: real, q: int, block: array<int>, ghost i: nat, ghost words: seq<int>, ghost value: int, ghost was: seq<int>)
      returns (ghost d': Dups)
    requires Unlinking(others, contents, d, ord, i, words, value) && |d.chains[ord]| == 2 && q == d.chains[ord][1 - i]
    requires AllWords(others, d.chains[ord])
    requires HasValues(others, contents, d, ord, was) && Small(was) && LeafEntry(tree, leaf, index, ord)
    requires Unlinked(tree, others, contents, d, ord, i) && q in tree.others && tree.others[q].Words?
    requires InBlock(block[..], tree.others[q].words) && block[2] <= NUM_FRAGMENT_VALUES
    modifies tree`pages, tree`others, tree`contents, tree`freeNode, tree`maximumSize, tree`freeList, block
    ensures Settled(tree, others, contents, d, d', ord, multiset(was) - multiset{value})
    ensures tree.maximumSize <= old(tree.maximumSize) && tree.shape == old(tree.shape) && tree.iterators == old(tree.iterators)
    ensures SameKeys(tree)
  {
    hide BPlusTree.Valid, ShortTree, Unlinking, HasValues, Small, LeafEntry, Unlinked, Settled, Between, IsArray, InBlock, ArrayAt;
    BlockLength(block[..], tree.others[q].words);
    AloneIsBetween(tree, others, contents, d, ord, i, words, value, q, was, block[..]);
    d' := SettleSole(tree, others, contents, d, leaf, index, ord, q, block);
  }

  lemma AloneIsBetween(tree: BPlusTree, others: Pages, contents: map<real, int>, d: Dups, ord: real, i: nat, words: seq<int>, value: int,
                       q: int, was: seq<int>, block: seq<int>)
    requires Unlinking(others, contents, d, ord, i, words, value) && |d.chains[ord]| == 2 && q == d.chains[ord][1 - i]
    requires AllWords(others, d.chains[ord])
    requires HasValues(others, contents, d, ord, was) && Small(was)
    requires Unlinked(tree, others, contents, d, ord, i) && q in tree.others && tree.others[q].Words?
    requires InBlock(block, tree.others[q].words) && block[2] <= NUM_FRAGMENT_VALUES
    ensures Between(tree, others, contents, d, ord, q)
    ensures |block| == PAGE_WORDS + 1 && IsArray(block, 2, NUM_FRAGMENT_VALUES) && block[2] >= 1
    ensures Small(ArrayAt(block, 2)) && multiset(ArrayAt(block, 2)) == multiset(was) - multiset{value}
  {
    hide DupsOk, KeyOk, ValuesOf, LinkType, MakeLink, IsArray, BPlusTree.Valid, Small, OutPages, Took, PageTakenOut, ChainShaped, IsDuplicate,
      IsPageOffset, ArrayAt, ChainValues, Filled;
    var chain := d.chains[ord];
    UnlinkingChain(others, contents, d, ord, i, words, value);
    OutIsTakenOut(others, chain, i);
    RestOfTwo(others, tree.others, chain, i, q, words, value, block);
    ChainOfKey(others, contents, d, ord);
    SmallLess(was, ArrayAt(block, 2), value);
    NodeWord(chain[if i == 0 then 1 else 0]);
    BothPages(chain, i);
    OutOfTwo(others, chain, i);
  }

  lemma OutOfTwo(pages: Pages, chain: seq<int>, i: nat)
    requires |chain| == 2 && i < 2 && AllWords(pages, chain)
    ensures var q, now := chain[1 - i], OutPages(pages, chain, i, true, true);
            now.Keys == pages.Keys - {chain[i]} + {q} && forall p :: p in pages && p != chain[i] && p != q ==> now[p] == pages[p]
  {
    assert IsWords(pages, chain[0]) && IsWords(pages, chain[1]);
  }

  /** Of two pages, the one left has all values but the one that is gone. */
  lemma RestOfTwo(pages: Pages, pages': Pages, chain: seq<int>, i: nat, q: int, words: seq<int>, value: int, block: seq<int>)
    requires ChainOk(pages, chain) && |chain| == 2 && i < 2 && q == chain[1 - i] && PageTakenOut(pages, pages', chain, i)
    requires forall m :: 0 <= m < |chain| ==> chain[m] != NULL
    requires IsWords(pages, chain[i]) && Took(pages[chain[i]].words, words, value) && words[2] == 0
    requires q in pages' && pages'[q].Words? && InBlock(block, pages'[q].words) && block[2] <= NUM_FRAGMENT_VALUES
    ensures |block| == PAGE_WORDS + 1 && IsArray(block, 2, NUM_FRAGMENT_VALUES) && block[2] >= 1 && Readable(pages, chain)
    ensures multiset(ArrayAt(block, 2)) == multiset(ChainValues(pages, chain)) - multiset{value}
  {
    hide IsArray, PageTakenOut, LinkShaped;
    PageUnlinked(pages, pages', chain, i);
    OnlyValue(pages[chain[i]].words, words, value);
    assert Without(chain, i) == [q];
    OneOf(pages', q);
    StillThere(pages, pages', chain, i, 1 - i);
    SameCount(pages, pages', q);
    assert Filled(pages, chain, 1 - i);
    BlockArray(block, pages'[q].words, 2, NUM_DUPLICATE_VALUES);
    FewValues(block);
  }

  lemma BlockLength(block: seq<int>, words: seq<int>)
    requires InBlock(block, words)
    ensures |block| == PAGE_WORDS + 1
  {
  }

  lemma OneOf(pages: Pages, q: int)
    requires Readable(pages, [q])
    ensures HasArray(pages, q) && ChainValues(pages, [q]) == PageValues(pages, q)
  {
    assert [q][0] == q;
    assert ChainValues(pages, [q]) == PageValues(pages, q) + ChainValues(pages, []);
  }

  lemma FewValues(block: seq<int>)
    requires IsArray(block, 2, NUM_DUPLICATE_VALUES) && block[2] <= NUM_FRAGMENT_VALUES
    ensures IsArray(block, 2, NUM_FRAGMENT_VALUES)
  {
  }

  lemma NodeWord(p: int)
    requires IsPageOffset(p)
    ensures MakeLink(DUPLICATE_NODE, p, 0) >= 0 && IsDuplicate(MakeLink(DUPLICATE_NODE, p, 0))
    ensures LinkType(MakeLink(DUPLICATE_NODE, p, 0)) != DUPLICATE_FRAGMENT
  {
    LinkRoundTrip(DUPLICATE_NODE, p, 0);
  }

  lemma BothPages(chain: seq<int>, i: nat)
    requires |chain| == 2 && i < 2
    ensures Members(chain) == {chain[i], chain[1 - i]}
  {
  }

  /** What is left is a chain. */
  lemma StillChained(tree: BPlusTree, others: Pages, contents: map<real, int>, d: Dups, ord: real, i: nat, words: seq<int>, value: int,
                     was: seq<int>) returns (d': Dups)
    requires Unlinking(others, contents, d, ord, i, words, value) && HasValues(others, contents, d, ord, was)
    requires AllWords(others, d.chains[ord])
    requires Unlinked(tree, others, contents, d, ord, i)
    requires |d.chains[ord]| == 2 ==> IsWords(tree.others, d.chains[ord][1 - i])
                                      && tree.others[d.chains[ord][1 - i]].words[2] > NUM_FRAGMENT_VALUES
    ensures Settled(tree, others, contents, d, d', ord, multiset(was) - multiset{value})
  {
    hide DupsOk, KeyOk, ValuesOf, LinkType, MakeLink, IsArray, BPlusTree.Valid, SameValues, PageTakenOut, Took, OutPages;
    UnlinkingChain(others, contents, d, ord, i, words, value);
    OutIsTakenOut(others, d.chains[ord], i);
    d' := ShorterChain(others, contents, d, ord, i, words, value, tree.others);
  }

  /** Frees page `i` of a chain of two or more, and links its neighbours; a page left alone with few values is
      given up as well. */
  method UnlinkPage(tree: BPlusTree, ghost d: Dups, leaf: int, index: nat, ghost ord: real, p: int, ghost i: nat, left: int, right: int,
                    ghost words: seq<int>, value: int, ghost was: seq<int>) returns (ghost d': Dups)
    requires HasValues(tree.others, tree.contents, d, ord, was) && Small(was)
    requires Duplicated(tree, d) && LeafEntry(tree, leaf, index, ord)
    requires Unlinking(tree.others, tree.contents, d, ord, i, words, value)
    requires p == d.chains[ord][i] && left == LeftOf(d.chains[ord], i) && right == RightOf(d.chains[ord], i)
    modifies tree`pages, tree`others, tree`contents, tree`freeNode, tree`maximumSize, tree`freeList
    ensures Settled(tree, old(tree.others), old(tree.contents), d, d', ord, multiset(was) - multiset{value})
    ensures tree.maximumSize <= old(tree.maximumSize) && tree.shape == old(tree.shape) && tree.iterators == old(tree.iterators)
    ensures SameKeys(tree)
  {
    hide BPlusTree.Valid, ShortTree, DupsOk, KeyOk, ValuesOf, IsArray, LinkType, MakeLink, SameValues, LeafEntry, IsDuplicate, Unlinking,
      PageTakenOut, Settled, Small, IsPageOffset, HasValues, ChainShaped, Members;
    ghost var others, contents := tree.others, tree.contents;
    UnlinkingChain(others, contents, d, ord, i, words, value);
    ghost var chain := d.chains[ord];
    NeighbourLinks(others, chain, i);
    if left == NULL {
      Positive(right);
      PutWord(tree, leaf, index, ord, MakeLink(DUPLICATE_NODE, right, 0));
    }
    GiveBackPage(tree, p);
    assert tree.others == OutPages(others, chain, i, false, false);
    if left != NULL {
      var block := Relink(tree, left, 1, right);
      assert tree.others == OutPages(others, chain, i, true, false);
      if right == NULL && block[0] == NULL && block[2] <= NUM_FRAGMENT_VALUES {
        assert tree.others == OutPages(others, chain, i, true, true);
        d' := LeftAlone(tree, others, contents, d, leaf, index, ord, left, block, i, words, value, was);
        return;
      }
    }
    if right != NULL {
      var block := Relink(tree, right, 0, left);
      assert tree.others == OutPages(others, chain, i, true, true);
      if left == NULL && block[1] == NULL && block[2] <= NUM_FRAGMENT_VALUES {
        d' := LeftAlone(tree, others, contents, d, leaf, index, ord, right, block, i, words, value, was);
        return;
      }
    }
    d' := StillChained(tree, others, contents, d, ord, i, words, value, was);
  }

  /** The key has a chain: the value is taken from the page that has it, and a page too empty goes. */
  method RemoveFromChain(tree: BPlusTree, ghost d: Dups, leaf: int, index: nat, ghost ord: real, word: int, value: int, ghost was: seq<int>)
      returns (found: bool, ghost d': Dups)
    requires HasValues(tree.others, tree.contents, d, ord, was) && Small(was)
    requires Duplicated(tree, d) && LeafEntry(tree, leaf, index, ord) && ord in tree.contents && tree.contents[ord] == word >= 0
    requires IsDuplicate(word) && LinkType(word) != DUPLICATE_FRAGMENT
    modifies tree`pages, tree`others, tree`contents, tree`freeNode, tree`maximumSize, tree`freeList
    ensures found <==> value in was
    ensures !found ==> unchanged(tree) && d' == d
    ensures found ==> Settled(tree, old(tree.others), old(tree.contents), d, d', ord, multiset(was) - multiset{value})
    ensures tree.maximumSize <= old(tree.maximumSize) && tree.shape == old(tree.shape) && tree.iterators == old(tree.iterators)
    ensures SameKeys(tree)
  {
    hide BPlusTree.Valid, ShortTree, DupsOk, KeyOk, ValuesOf, LinkType, MakeLink, FragmentOffset, SameValues, LeafEntry, IsDuplicate, ChainOk,
      Settled, Small, IsPageOffset, Took, Unlinking, ChainValues, Readable;
    ghost var others, contents := tree.others, tree.contents;
    d' := d;
    ChainOfKey(others, contents, d, ord);
    ghost var chain := d.chains[ord];
    FirstOfChain(chain, word);
    ghost var i: nat;
    var p, block;
    found, i, p, block := FindInChain(tree, chain, FragmentOffset(word), value);
    if !found {
      return;
    }
    ghost var words := block[..PAGE_WORDS];
    TookLinks(others, chain, i, words, value, block[..]);
    var left, right, count := block[0], block[1], block[2];
    if count == 0 {
      StartUnlinking(others, contents, d, ord, i, words, value);
      d' := UnlinkPage(tree, d, leaf, index, ord, p, i, left, right, words, value, was);
    } else if left == NULL && right == NULL && count <= NUM_FRAGMENT_VALUES {
      SoleIsBetween(tree, d, ord, words, value, block[..], was);
      d' := SettleSole(tree, others, contents, d, leaf, index, ord, p, block);
    } else {
      OthersArePages(tree, p);
      WriteWords(tree, p, block[..PAGE_WORDS]);
      d' := ShrunkPage(others, contents, d, ord, i, words, value);
      StillSettled(tree, others, contents, d, d', ord, word, multiset(was) - multiset{value});
    }
  }

  /** The links in the block are those of page `i`; only a page with few values is alone and has few left. */
  lemma TookLinks(pages: Pages, chain: seq<int>, i: nat, words: seq<int>, value: int, block: seq<int>)
    requires ChainOk(pages, chain) && i < |chain| && IsWords(pages, chain[i]) && Took(pages[chain[i]].words, words, value)
    requires |block| == PAGE_WORDS + 1 && words == block[..PAGE_WORDS]
    requires forall k :: 0 <= k < |chain| ==> IsPageOffset(chain[k])
    ensures block[0] == LeftOf(chain, i) && block[1] == RightOf(chain, i) && block[2] == words[2] >= 0
    ensures block[2] == 0 ==> |chain| >= 2
    ensures block[0] == block[1] == NULL <==> |chain| == 1
    ensures |chain| == 1 ==> block[2] >= NUM_FRAGMENT_VALUES
  {
    assert LinkShaped(pages, chain, i) && Filled(pages, chain, i);
  }

  lemma StartUnlinking(pages: Pages, contents: map<real, int>, d: Dups, ord: real, i: nat, words: seq<int>, value: int)
    requires DupsOk(pages, contents, d) && ord in contents && contents[ord] >= 0 && IsDuplicate(contents[ord])
    requires LinkType(contents[ord]) != DUPLICATE_FRAGMENT && ord in d.chains && 2 <= |d.chains[ord]| && i < |d.chains[ord]|
    requires IsWords(pages, d.chains[ord][i]) && Took(pages[d.chains[ord][i]].words, words, value) && words[2] == 0
    ensures Unlinking(pages, contents, d, ord, i, words, value)
  {
    hide DupsOk, KeyOk, LinkType, MakeLink, Took;
    ChainOfKey(pages, contents, d, ord);
  }

  lemma SoleIsBetween(tree: BPlusTree, d: Dups, ord: real, words: seq<int>, value: int, block: seq<int>, was: seq<int>)
    requires Duplicated(tree, d) && HasValues(tree.others, tree.contents, d, ord, was) && Small(was)
    requires ord in tree.contents && tree.contents[ord] >= 0 && IsDuplicate(tree.contents[ord])
    requires LinkType(tree.contents[ord]) != DUPLICATE_FRAGMENT && ord in d.chains && |d.chains[ord]| == 1
    requires IsWords(tree.others, d.chains[ord][0]) && Took(tree.others[d.chains[ord][0]].words, words, value)
    requires |block| == PAGE_WORDS + 1 && words == block[..PAGE_WORDS] && block[2] <= NUM_FRAGMENT_VALUES && block[2] >= 1
    ensures Between(tree, tree.others, tree.contents, d, ord, d.chains[ord][0])
    ensures IsArray(block, 2, NUM_FRAGMENT_VALUES) && Small(ArrayAt(block, 2))
    ensures multiset(ArrayAt(block, 2)) == multiset(was) - multiset{value}
  {
    hide DupsOk, KeyOk, ValuesOf, LinkType, MakeLink, IsArray, BPlusTree.Valid, Small, IsDuplicate, IsPageOffset;
    ChainOfKey(tree.others, tree.contents, d, ord);
    var p := d.chains[ord][0];
    assert d.chains[ord] == [p];
    OneOf(tree.others, p);
    BlockArray(block, words, 2, NUM_DUPLICATE_VALUES);
    FewValues(block);
    SmallLess(was, ArrayAt(block, 2), value);
    assert Members([p]) == {p} by { assert [p][0] == p; }
  }

  lemma StillSettled(tree: BPlusTree, others: Pages, contents: map<real, int>, d: Dups, d': Dups, ord: real, word: int, values: multiset<int>)
    requires tree.Valid() && ord in contents && contents[ord] == word && tree.contents == contents
    requires Reshaped(others, contents, d, ord, tree.others, d', word, values)
    ensures Settled(tree, others, contents, d, d', ord, values)
  {
    assert contents[ord := word] == contents;
  }

  /** One value less for a key that has several. */
  method RemoveDuplicate(tree: BPlusTree, ghost d: Dups, leaf: int, index: nat, ghost ord: real, value: int)
      returns (found: bool, ghost d': Dups)
    requires Duplicated(tree, d) && LeafEntry(tree, leaf, index, ord) && ord in tree.contents && tree.contents[ord] >= 0
    requires IsDuplicate(tree.contents[ord]) && KeyOk(tree.others, d, ord, tree.contents[ord])
    requires Small(ValuesOf(tree.others, d, ord, tree.contents[ord]))
    modifies tree`pages, tree`others, tree`contents, tree`freeNode, tree`maximumSize, tree`freeList
    ensures found <==> value in ValuesOf(old(tree.others), d, ord, old(tree.contents)[ord])
    ensures !found ==> unchanged(tree) && d' == d
    ensures found ==> NowHas(tree, d, d', ord, multiset(ValuesOf(old(tree.others), d, ord, old(tree.contents)[ord])) - multiset{value})
    ensures tree.maximumSize <= old(tree.maximumSize) && tree.shape == old(tree.shape) && tree.iterators == old(tree.iterators)
    ensures SameKeys(tree)
  {
    hide BPlusTree.Valid, ShortTree, DupsOk, KeyOk, ValuesOf, LinkType, MakeLink, FragmentOffset, FragmentIndex, SameValues, IsArray, LeafEntry,
      Shared, ChainOk, IsDuplicate, Small;
    EntryWord(tree, d, leaf, index, ord);
    var oldValue := tree.pages[leaf].values[index];
    ghost var was := ValuesOf(tree.others, d, ord, tree.contents[ord]);
    if LinkType(oldValue) == DUPLICATE_FRAGMENT {
      FragmentOfKey(tree.others, tree.contents, d, ord);
      var p, j := FragmentOffset(oldValue), FragmentIndex(oldValue);
      OthersArePages(tree, p);
      var block := ReadWords(tree, p);
      found, d' := RemoveFromFragment(tree, d, leaf, index, ord, p, j, block, value, was);
    } else {
      found, d' := RemoveFromChain(tree, d, leaf, index, ord, oldValue, value, was);
    }
  }
}
