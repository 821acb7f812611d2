/** Adding a value to a key that has one already (BPlusTree.cpp, _InsertDuplicate and
    _FindFreeDuplicateFragment). */
module DuplicateInsert {
  import opened NodeLayout
  import opened TreeShape
  import opened TreeHousing
  import PageStore
  import opened BPlusTrees
  import opened SortedArrays
  import opened DuplicateValues
  import opened DuplicateSteps
  import opened DuplicateChains
  import opened TreeOthers

  /** The state of a tree that allows duplicates: the pages of words are those of its keys. */
  ghost predicate Duplicated(tree: BPlusTree, d: Dups)
    reads tree
  {
    tree.Valid() && DupsOk(tree.others, tree.contents, d)
  }

  /** The file can grow by a page. */
  predicate CanGrow(tree: BPlusTree)
    reads tree
  {
    tree.maximumSize + NODE_SIZE <= LINK_LIMIT
  }

  /** Now the key has these values, as a multiset; all others have theirs as they were. */
  twostate predicate NowHas(tree: BPlusTree, d: Dups, d': Dups, ord: real, values: multiset<int>)
    reads tree
  {
    && Duplicated(tree, d') && ord in tree.contents && tree.contents.Keys == old(tree.contents).Keys
    && KeyOk(tree.others, d', ord, tree.contents[ord])
    && multiset(ValuesOf(tree.others, d', ord, tree.contents[ord])) == values
    && SameValues(old(tree.others), old(tree.contents), d, tree.others, tree.contents, d', ord)
    && tree.shape == old(tree.shape) && tree.iterators == old(tree.iterators) && SameKeys(tree)
  }

  /** The key's values have gained this one. */
  twostate predicate Gained(tree: BPlusTree, d: Dups, d': Dups, ord: real, value: int)
    reads tree
  {
    && ord in old(tree.contents) && KeyOk(old(tree.others), d, ord, old(tree.contents)[ord])
    && NowHas(tree, d, d', ord, multiset(ValuesOf(old(tree.others), d, ord, old(tree.contents)[ord])) + multiset{value})
  }

  ghost predicate HasValues(pages: Pages, contents: map<real, int>, d: Dups, ord: real, values: seq<int>) {
    ord in contents && KeyOk(pages, d, ord, contents[ord]) && ValuesOf(pages, d, ord, contents[ord]) == values
  }

  /** The word is a link to this fragment. */
  predicate LeadsToFragment(word: int, p: int, j: nat) {
    word >= 0 && IsDuplicate(word) && LinkType(word) == DUPLICATE_FRAGMENT && p == FragmentOffset(word) && j == FragmentIndex(word)
  }

  /** The key's word leads to a chain. */
  ghost predicate ChainReady(tree: BPlusTree, d: Dups, ord: real, word: int, was: seq<int>)
    reads tree
  {
    && word >= 0 && IsDuplicate(word) && LinkType(word) != DUPLICATE_FRAGMENT && CanGrow(tree)
    && HasValues(tree.others, tree.contents, d, ord, was) && Duplicated(tree, d) && tree.contents[ord] == word
  }

  /** The last page of the chain has been read into the block. */
  ghost predicate LastRead(tree: BPlusTree, d: Dups, ord: real, p: int, block: seq<int>)
    reads tree
  {
    && ord in d.chains && d.chains[ord] != [] && p == d.chains[ord][|d.chains[ord]| - 1]
    && IsWords(tree.others, p) && InBlock(block, tree.others[p].words)
  }

  /** The key's word leads to a fragment. */
  ghost predicate FragmentReady(tree: BPlusTree, ord: real, word: int)
    reads tree
  {
    word >= 0 && IsDuplicate(word) && LinkType(word) == DUPLICATE_FRAGMENT && ord in tree.contents && tree.contents[ord] == word
  }

  /** A key's entry in a leaf, and its values. */
  ghost predicate KeyReady(tree: BPlusTree, d: Dups, leaf: int, index: nat, ord: real, was: seq<int>)
    reads tree
  {
    HasValues(tree.others, tree.contents, d, ord, was) && Duplicated(tree, d) && LeafEntry(tree, leaf, index, ord)
  }

  // ---- a page in a block ----

  /** The block holds the page, and one word more. */
  ghost predicate InBlock(block: seq<int>, words: seq<int>) {
    |block| == PAGE_WORDS + 1 && words == block[..PAGE_WORDS]
  }

  lemma BlockArray(block: seq<int>, words: seq<int>, base: nat, capacity: nat)
    requires InBlock(block, words) && base + 1 + capacity <= PAGE_WORDS
    ensures block[base] == words[base] && (IsArray(block, base, capacity) <==> IsArray(words, base, capacity))
    ensures IsArray(words, base, capacity) ==> ArrayAt(block, base) == ArrayAt(words, base)
  {
    if 0 <= words[base] <= capacity {
      SameSlice(block, words, base + 1, base + 1 + words[base]);
    }
  }

  lemma SameSlice(block: seq<int>, words: seq<int>, lo: nat, hi: nat)
    requires InBlock(block, words) && lo <= hi <= PAGE_WORDS
    ensures block[lo..hi] == words[lo..hi]
  {
    var a, b := block[lo..hi], words[lo..hi];
    assert |a| == |b| == hi - lo;
    forall k | 0 <= k < hi - lo ensures a[k] == b[k] {
      assert a[k] == block[lo + k] && b[k] == words[lo + k];
    }
  }

  lemma BlockElsewhere(was: seq<int>, now: seq<int>, lo: nat, hi: nat, higher: nat)
    requires |was| == PAGE_WORDS + 1 && Elsewhere(was, now, lo, hi) && hi <= higher
    ensures Elsewhere(was[..PAGE_WORDS], now[..PAGE_WORDS], lo, higher)
  {
  }

  /** memmove of words within a page. */
  method MoveWords(block: array<int>, dst: nat, src: nat, n: nat)
    requires dst + n <= block.Length && src + n <= block.Length
    modifies block
    ensures (forall x {:trigger block[x]} :: 0 <= x < block.Length ==>
              block[x] == if dst <= x < dst + n then old(block[x - dst + src]) else old(block[x]))
  {
    if dst <= src {
      for i := 0 to n
        invariant forall x {:trigger block[x]} :: 0 <= x < block.Length ==>
          block[x] == if dst <= x < dst + i then old(block[x - dst + src]) else old(block[x])
      {
        block[dst + i] := block[src + i];
      }
    } else {
      for i := n downto 0
        invariant forall x {:trigger block[x]} :: 0 <= x < block.Length ==>
          block[x] == if dst + i <= x < dst + n then old(block[x - dst + src]) else old(block[x])
      {
        block[dst + i] := block[src + i];
      }
    }
  }

  /** bplustree_node::FragmentsUsed: counts to two at most. */
  method FragmentsUsed(block: array<int>, ghost j: nat) returns (used: nat)
    requires block.Length == PAGE_WORDS + 1 && j < MAX_FRAGMENTS && block[8 * j] > 0
    ensures 1 <= used <= 2
    ensures used == 1 <==> forall k {:trigger block[8 * k]} :: 0 <= k < MAX_FRAGMENTS && k != j ==> block[8 * k] <= 0
  {
    used := 0;
    ghost var first := 0;
    for i := 0 to MAX_FRAGMENTS
      invariant used <= 1 && (used == 0 ==> forall k {:trigger block[8 * k]} :: 0 <= k < i ==> block[8 * k] <= 0)
      invariant used == 1 ==> 0 <= first < i && block[8 * first] > 0
      invariant used == 1 ==> forall k {:trigger block[8 * k]} :: 0 <= k < i && k != first ==> block[8 * k] <= 0
    {
      if block[8 * i] > 0 {
        used := used + 1;
        if used > 1 {
          assert first != j || i != j;
          return;
        }
        first := i;
      }
    }
  }

  // ---- a fragment ----

  /** The key's values are in this fragment, full or not, whose page has been read into the block. */
  ghost predicate FragmentRead(tree: BPlusTree, ord: real, p: int, j: nat, block: seq<int>, full: bool)
    reads tree
  {
    && ord in tree.contents && LeadsToFragment(tree.contents[ord], p, j)
    && IsWords(tree.others, p) && InBlock(block, tree.others[p].words) && j < MAX_FRAGMENTS
    && if full then block[8 * j] == NUM_FRAGMENT_VALUES else block[8 * j] < NUM_FRAGMENT_VALUES
  }

  /** The fragment has room: the value goes in. */
  method InsertInFragment(tree: BPlusTree, ghost d: Dups, ghost ord: real, p: int, j: nat, block: array<int>, value: int)
      returns (ghost d': Dups)
    requires FragmentRead(tree, ord, p, j, block[..], false) && Duplicated(tree, d)
    modifies tree`pages, tree`others, block
    ensures Gained(tree, d, d', ord, value)
  {
    hide BPlusTree.Valid, ShortTree, DupsOk, KeyOk, ValuesOf, IsArray, LinkType, FragmentOffset, FragmentIndex, MakeLink, SameValues, Reformed;
    ghost var others, contents, words, b0 := tree.others, tree.contents, tree.others[p].words, block[..];
    WordOk(others, contents, d, ord);
    FragmentOfKey(others, contents, d, ord);
    BlockArray(b0, words, 8 * j, NUM_FRAGMENT_VALUES);
    InsertValue(block, 8 * j, value, NUM_FRAGMENT_VALUES);
    BlockArray(block[..], block[..PAGE_WORDS], 8 * j, NUM_FRAGMENT_VALUES);
    BlockElsewhere(b0, block[..], 8 * j, 8 * j + 1 + block[8 * j], 8 * j + 8);
    OthersArePages(tree, p);
    WriteWords(tree, p, block[..PAGE_WORDS]);
    d' := FragmentRewritten(others, contents, d, ord, p, j, block[..PAGE_WORDS]);
    ReformedIs(others, contents, d, ord, tree.others, d', contents[ord], ArrayAt(block[..PAGE_WORDS], 8 * j));
    assert contents[ord := contents[ord]] == contents;
  }

  lemma OthersArePages(tree: BPlusTree, p: int)
    requires tree.Valid() && p in tree.others
    ensures p in tree.pages && tree.pages[p] == tree.others[p]
  {
    RestLevels(tree);
  }

  lemma ReformedIs(pages: Pages, contents: map<real, int>, d: Dups, ord: real, pages': Pages, d': Dups, word: int, values: seq<int>)
    requires Reformed(pages, contents, d, ord, pages', d', word, values)
    ensures DupsOk(pages', contents[ord := word], d') && KeyOk(pages', d', ord, word)
    ensures ValuesOf(pages', d', ord, word) == values
    ensures SameValues(pages, contents, d, pages', contents[ord := word], d', ord)
  {
  }

  /** Copied words carry the array along. */
  lemma ArrayMoved(was: seq<int>, now: seq<int>, src: nat, dst: nat, capacity: nat)
    requires IsArray(was, src, NUM_FRAGMENT_VALUES) && NUM_FRAGMENT_VALUES <= capacity && dst + 1 + capacity <= |now|
    requires forall x {:trigger now[x]} :: dst <= x <= dst + NUM_FRAGMENT_VALUES ==> now[x] == was[x - dst + src]
    ensures IsArray(now, dst, capacity) && now[dst] == was[src] && ArrayAt(now, dst) == ArrayAt(was, src)
  {
    assert now[dst] == was[src];
    var s, t := ArrayAt(was, src), ArrayAt(now, dst);
    forall k | 0 <= k < |s| ensures t[k] == s[k] {
      assert now[dst + (k + 1)] == was[src + (k + 1)];
    }
    assert s == t;
  }

  lemma AloneIfUnused(pages: Pages, contents: map<real, int>, d: Dups, p: int, j: nat)
    requires DupsOk(pages, contents, d) && p in d.role && d.role[p].Fragments? && IsWords(pages, p)
    ensures Shared(d, p, j) <==> exists k: nat {:trigger pages[p].words[8 * k]} :: k < MAX_FRAGMENTS && k != j && pages[p].words[8 * k] > 0
  {
    hide DupsOk;
    if Shared(d, p, j) {
      var k: nat :| k < MAX_FRAGMENTS && k != j && (p, k) in d.holder;
      UsedIsHeld(pages, contents, d, p, k);
    }
    forall k: nat | k < MAX_FRAGMENTS ensures pages[p].words[8 * k] > 0 <==> (p, k) in d.holder {
      UsedIsHeld(pages, contents, d, p, k);
    }
  }

  /** A page on its own with more values than a fragment takes is a chain. */
  lemma SingleChain(pages: Pages, p: int)
    requires IsWords(pages, p) && pages[p].words[0] == pages[p].words[1] == NULL
    requires IsArray(pages[p].words, 2, NUM_DUPLICATE_VALUES) && pages[p].words[2] > NUM_FRAGMENT_VALUES
    ensures ChainOk(pages, [p]) && Readable(pages, [p]) && ChainValues(pages, [p]) == ArrayAt(pages[p].words, 2)
  {
    hide IsArray;
    assert LinkShaped(pages, [p], 0) && Filled(pages, [p], 0);
    ChainIsReadable(pages, [p]);
    assert ChainValues(pages, [p]) == PageValues(pages, p) + ChainValues(pages, []);
  }

  /** The values of a full fragment, and one more, in a page of their own. */
  ghost predicate Moved(block: seq<int>, s: seq<int>, value: int) {
    && |block| == PAGE_WORDS + 1 && block[0] == block[1] == NULL && IsArray(block, 2, NUM_DUPLICATE_VALUES)
    && block[2] == NUM_FRAGMENT_VALUES + 1 && multiset(ArrayAt(block, 2)) == multiset(s) + multiset{value}
  }

  /** The full fragment is the only one of its page: the page becomes the key's own. */
  method FragmentToOwnPage(tree: BPlusTree, ghost d: Dups, leaf: int, index: nat, ghost ord: real, p: int, j: nat,
                           block: array<int>, value: int, ghost was: seq<int>) returns (ghost d': Dups)
    requires FragmentRead(tree, ord, p, j, block[..], true) && !Shared(d, p, j)
    requires KeyReady(tree, d, leaf, index, ord, was)
    modifies tree`pages, tree`others, tree`contents, block
    ensures NowHas(tree, d, d', ord, multiset(was) + multiset{value})
  {
    hide BPlusTree.Valid, ShortTree, DupsOk, KeyOk, ValuesOf, IsArray, LinkType, FragmentOffset, FragmentIndex, MakeLink, SameValues, Reformed,
      LeafEntry, Shared, Moved;
    ghost var others, contents, words := tree.others, tree.contents, tree.others[p].words;
    FragmentOfKey(others, contents, d, ord);
    BlockArray(block[..], words, 8 * j, NUM_FRAGMENT_VALUES);
    ghost var s := ArrayAt(words, 8 * j);
    MoveOver(block, j, value);
    OthersArePages(tree, p);
    WriteWords(tree, p, block[..PAGE_WORDS]);
    var word := MakeLink(DUPLICATE_NODE, p, 0);
    d' := OwnPageReforms(others, contents, d, ord, p, j, block[..], s, value);
    PutWord(tree, leaf, index, ord, word);
    ReformedIs(others, contents, d, ord, tree.others, d', word, ArrayAt(block[..PAGE_WORDS], 2));
  }

  /** Moves the array to the place of a duplicate page's, and adds the value. */
  method MoveOver(block: array<int>, j: nat, value: int)
    requires block.Length == PAGE_WORDS + 1 && j < MAX_FRAGMENTS
    requires IsArray(block[..], 8 * j, NUM_FRAGMENT_VALUES) && block[8 * j] == NUM_FRAGMENT_VALUES
    modifies block
    ensures Moved(block[..], old(ArrayAt(block[..], 8 * j)), value)
  {
    hide IsArray, ArrayAt, Ascending;
    ghost var b0 := block[..];
    MoveWords(block, 2, 8 * j, NUM_FRAGMENT_VALUES + 1);
    block[0], block[1] := NULL, NULL;
    ArrayMoved(b0, block[..], 8 * j, 2, NUM_DUPLICATE_VALUES);
    InsertValue(block, 2, value, NUM_DUPLICATE_VALUES);
  }

  lemma OwnPageReforms(pages: Pages, contents: map<real, int>, d: Dups, ord: real, p: int, j: nat, block: seq<int>, s: seq<int>, value: int)
      returns (d': Dups)
    requires DupsOk(pages, contents, d) && ord in contents && contents[ord] >= 0 && IsDuplicate(contents[ord])
    requires LinkType(contents[ord]) == DUPLICATE_FRAGMENT && p == FragmentOffset(contents[ord]) && j == FragmentIndex(contents[ord])
    requires !Shared(d, p, j) && Moved(block, s, value) && p in pages
    ensures Reformed(pages, contents, d, ord, pages[p := Words(block[..PAGE_WORDS])], d', MakeLink(DUPLICATE_NODE, p, 0),
                     ArrayAt(block[..PAGE_WORDS], 2))
    ensures 0 <= block[2] <= PAGE_WORDS - 3 && multiset(ArrayAt(block[..PAGE_WORDS], 2)) == multiset(s) + multiset{value}
  {
    hide DupsOk, KeyOk, IsArray, LinkType, FragmentOffset, FragmentIndex, MakeLink, Reformed, Shared;
    FragmentOfKey(pages, contents, d, ord);
    var pages' := pages[p := Words(block[..PAGE_WORDS])];
    BlockArray(block, block[..PAGE_WORDS], 2, NUM_DUPLICATE_VALUES);
    SingleChain(pages', p);
    assert Members([p]) == {p} by { assert [p][0] == p; }
    d' := ReformChain(pages, contents, d, ord, pages - {p}, pages', [p]);
  }

  /** Others use the page too: the full fragment moves to a page of its own. */
  method FragmentToNewPage(tree: BPlusTree, ghost d: Dups, leaf: int, index: nat, ghost ord: real, p: int, j: nat,
                           block: array<int>, value: int, ghost was: seq<int>) returns (ghost d': Dups)
    requires FragmentRead(tree, ord, p, j, block[..], true) && Shared(d, p, j) && CanGrow(tree)
    requires KeyReady(tree, d, leaf, index, ord, was)
    modifies tree`pages, tree`others, tree`contents, tree`freeNode, tree`maximumSize, tree`freeList, block
    ensures NowHas(tree, d, d', ord, multiset(was) + multiset{value})
  {
    hide BPlusTree.Valid, ShortTree, DupsOk, KeyOk, ValuesOf, IsArray, LinkType, FragmentOffset, FragmentIndex, MakeLink, SameValues, Reformed,
      LeafEntry, Shared, Moved, FragmentEmptied, SameFragment;
    ghost var others, contents, words := tree.others, tree.contents, tree.others[p].words;
    FragmentOfKey(others, contents, d, ord);
    BlockArray(block[..], words, 8 * j, NUM_FRAGMENT_VALUES);
    ghost var s := ArrayAt(words, 8 * j);
    var q := NewPage(tree);
    OthersArePages(tree, q);
    var newBlock := ReadWords(tree, q);
    ThreeNulls(newBlock[..], tree.others[q].words);
    MoveOut(block, newBlock, j, value);
    EmptiedSlot(others, p, j, words, block[..PAGE_WORDS]);
    WriteWords(tree, p, block[..PAGE_WORDS]);
    WriteWords(tree, q, newBlock[..PAGE_WORDS]);
    var word := MakeLink(DUPLICATE_NODE, q, 0);
    ghost var pages0 := others[p := Words(block[..PAGE_WORDS])];
    d' := NewPageReforms(others, contents, d, ord, p, j, pages0, q, newBlock[..], s, value);
    assert tree.others == pages0[q := Words(newBlock[..PAGE_WORDS])];
    PutWord(tree, leaf, index, ord, word);
    ReformedIs(others, contents, d, ord, tree.others, d', word, ArrayAt(newBlock[..PAGE_WORDS], 2));
  }

  lemma ThreeNulls(block: seq<int>, words: seq<int>)
    requires InBlock(block, words) && words[..3] == [NULL, NULL, NULL]
    ensures block[0] == block[1] == NULL
  {
    assert words[..3][0] == words[0] && words[..3][1] == words[1];
  }

  /** Copies the array over, clears it here, and adds the value there. */
  method MoveOut(block: array<int>, newBlock: array<int>, j: nat, value: int)
    requires block != newBlock && block.Length == newBlock.Length == PAGE_WORDS + 1 && j < MAX_FRAGMENTS
    requires IsArray(block[..], 8 * j, NUM_FRAGMENT_VALUES) && block[8 * j] == NUM_FRAGMENT_VALUES
    requires newBlock[0] == newBlock[1] == NULL
    modifies block, newBlock
    ensures Moved(newBlock[..], old(ArrayAt(block[..], 8 * j)), value)
    ensures Elsewhere(old(block[..]), block[..], 8 * j, 8 * j + 8) && block[8 * j] == 0
  {
    ghost var b0 := block[..];
    var count := block[8 * j];
    newBlock[2] := count;
    for k := 0 to count
      invariant block[..] == b0 && newBlock[0] == newBlock[1] == NULL && newBlock[2] == count
      invariant forall x {:trigger newBlock[x]} :: 3 <= x < 3 + k ==> newBlock[x] == b0[x - 2 + 8 * j]
    {
      newBlock[3 + k] := block[8 * j + 1 + k];
    }
    ArrayMoved(b0, newBlock[..], 8 * j, 2, NUM_DUPLICATE_VALUES);
    ghost var n0 := newBlock[..];
    for k := 0 to NUM_FRAGMENT_VALUES + 1
      invariant newBlock[..] == n0
      invariant forall x {:trigger block[x]} :: 0 <= x < block.Length ==> block[x] == if 8 * j <= x < 8 * j + k then 0 else b0[x]
    {
      block[8 * j + k] := 0;
    }
    InsertValue(newBlock, 2, value, NUM_DUPLICATE_VALUES);
  }

  lemma EmptiedSlot(pages: Pages, p: int, j: nat, words: seq<int>, now: seq<int>)
    requires IsWords(pages, p) && pages[p].words == words && j < MAX_FRAGMENTS && |now| == PAGE_WORDS
    requires Elsewhere(words, now, 8 * j, 8 * j + 8) && now[8 * j] == 0
    ensures FragmentEmptied(pages, pages[p := Words(now)], p, j)
  {
    SameSlots(pages, pages[p := Words(now)], p, j, now);
  }

  lemma NewPageReforms(pages: Pages, contents: map<real, int>, d: Dups, ord: real, p: int, j: nat, pages0: Pages, q: int,
                       block: seq<int>, s: seq<int>, value: int) returns (d': Dups)
    requires DupsOk(pages, contents, d) && ord in contents && contents[ord] >= 0 && IsDuplicate(contents[ord])
    requires LinkType(contents[ord]) == DUPLICATE_FRAGMENT && p == FragmentOffset(contents[ord]) && j == FragmentIndex(contents[ord])
    requires Shared(d, p, j) && FragmentEmptied(pages, pages0, p, j) && Moved(block, s, value) && q !in pages && IsPageOffset(q)
    ensures Reformed(pages, contents, d, ord, pages0[q := Words(block[..PAGE_WORDS])], d', MakeLink(DUPLICATE_NODE, q, 0),
                     ArrayAt(block[..PAGE_WORDS], 2))
    ensures 0 <= block[2] <= PAGE_WORDS - 3 && multiset(ArrayAt(block[..PAGE_WORDS], 2)) == multiset(s) + multiset{value}
  {
    hide DupsOk, KeyOk, IsArray, LinkType, FragmentOffset, FragmentIndex, MakeLink, Reformed, Shared, SameFragment;
    FragmentOfKey(pages, contents, d, ord);
    var pages' := pages0[q := Words(block[..PAGE_WORDS])];
    BlockArray(block, block[..PAGE_WORDS], 2, NUM_DUPLICATE_VALUES);
    SingleChain(pages', q);
    assert Members([q]) == {q} by { assert [q][0] == q; }
    d' := ReformChain(pages, contents, d, ord, pages0, pages', [q]);
  }

  // ---- a chain ----

  /** Looks along the chain for a page with room; the last page will do in any case. */
  method FindRoom(tree: BPlusTree, ghost chain: seq<int>, first: int) returns (p: int, ghost i: nat, block: array<int>)
    requires tree.Valid() && ChainOk(tree.others, chain) && first == chain[0]
    requires forall k :: 0 <= k < |chain| ==> IsPageOffset(chain[k])
    ensures i < |chain| && p == chain[i] && IsWords(tree.others, p) && fresh(block) && InBlock(block[..], tree.others[p].words)
    ensures block[2] >= NUM_DUPLICATE_VALUES ==> i + 1 == |chain|
  {
    hide BPlusTree.Valid, IsArray, FragmentOffset;
    p, i := first, 0;
    assert LinkShaped(tree.others, chain, 0);
    OthersArePages(tree, p);
    block := ReadWords(tree, p);
    while block[2] >= NUM_DUPLICATE_VALUES && block[1] != NULL
      invariant i < |chain| && p == chain[i] && IsWords(tree.others, p) && fresh(block) && InBlock(block[..], tree.others[p].words)
      decreases |chain| - i
    {
      assert LinkShaped(tree.others, chain, i) && block[1] == tree.others[p].words[1];
      assert i + 1 < |chain|;
      BareOffset(chain[i + 1]);
      p, i := FragmentOffset(block[1]), i + 1;
      assert LinkShaped(tree.others, chain, i);
      OthersArePages(tree, p);
      block := ReadWords(tree, p);
    }
    assert LinkShaped(tree.others, chain, i);
    NoRight(tree.others, chain, i);
  }

  lemma NoRight(pages: Pages, chain: seq<int>, i: nat)
    requires i < |chain| && LinkShaped(pages, chain, i) && forall k :: 0 <= k < |chain| ==> IsPageOffset(chain[k])
    ensures pages[chain[i]].words[1] == NULL ==> i + 1 == |chain|
  {
  }

  /** The key has a chain: the value goes into a page with room, or into a new one behind the last. */
  method InsertInChain(tree: BPlusTree, ghost d: Dups, ghost ord: real, word: int, value: int, ghost was: seq<int>)
      returns (ghost d': Dups)
    requires ChainReady(tree, d, ord, word, was)
    modifies tree`pages, tree`others, tree`freeNode, tree`maximumSize, tree`freeList
    ensures NowHas(tree, d, d', ord, multiset(was) + multiset{value})
  {
    hide BPlusTree.Valid, ShortTree, DupsOk, KeyOk, ValuesOf, IsArray, LinkType, MakeLink, FragmentOffset, SameValues, Reformed, ChainOk,
      ChainValues, Readable, IsPageOffset;
    ghost var others, contents := tree.others, tree.contents;
    ChainOfKey(others, contents, d, ord);
    ghost var chain := d.chains[ord];
    FirstOfChain(chain, word);
    var p, i, block := FindRoom(tree, chain, FragmentOffset(word));
    OthersArePages(tree, p);
    ghost var words, b0 := others[p].words, block[..];
    ChainArray(others, chain, i);
    BlockArray(b0, words, 2, NUM_DUPLICATE_VALUES);
    assert contents[ord := word] == contents;
    if block[2] < NUM_DUPLICATE_VALUES {
      InsertValue(block, 2, value, NUM_DUPLICATE_VALUES);
      BlockArray(block[..], block[..PAGE_WORDS], 2, NUM_DUPLICATE_VALUES);
      WriteWords(tree, p, block[..PAGE_WORDS]);
      d' := GrownPage(others, contents, d, ord, i, block[..PAGE_WORDS], value);
      return;
    }
    d' := AppendPage(tree, d, ord, word, p, block, value, was);
  }

  /** The last page is full: another is linked behind it. */
  method AppendPage(tree: BPlusTree, ghost d: Dups, ghost ord: real, ghost word: int, p: int, block: array<int>, value: int,
                    ghost was: seq<int>) returns (ghost d': Dups)
    requires ChainReady(tree, d, ord, word, was) && LastRead(tree, d, ord, p, block[..])
    modifies tree`pages, tree`others, tree`freeNode, tree`maximumSize, tree`freeList, block
    ensures NowHas(tree, d, d', ord, multiset(was) + multiset{value})
  {
    hide BPlusTree.Valid, ShortTree, DupsOk, KeyOk, ValuesOf, IsArray, LinkType, MakeLink, FragmentOffset, SameValues, ChainOk, IsPageOffset, IsDuplicate;
    ghost var others, contents := tree.others, tree.contents;
    assert contents[ord := word] == contents;
    var q := NewPage(tree);
    OthersArePages(tree, q);
    var newBlock := ReadWords(tree, q);
    ThreeNulls(newBlock[..], tree.others[q].words);
    block[1] := q;
    newBlock[0] := p;
    newBlock[2] := 0;
    FirstValue(newBlock, value);
    PageFits(q, tree.maximumSize);
    WriteWords(tree, p, block[..PAGE_WORDS]);
    WriteWords(tree, q, newBlock[..PAGE_WORDS]);
    d' := GrownChain(others, contents, d, ord, q, block[..PAGE_WORDS], newBlock[..PAGE_WORDS], value);
    assert tree.others == others[p := Words(block[..PAGE_WORDS])][q := Words(newBlock[..PAGE_WORDS])];
  }

  lemma PageFits(q: int, size: int)
    requires PageStore.IsOffset(q, size) && size <= LINK_LIMIT
    ensures IsPageOffset(q)
  {
  }

  lemma FirstOfChain(chain: seq<int>, word: int)
    requires chain != [] && IsPageOffset(chain[0]) && word == MakeLink(DUPLICATE_NODE, chain[0], 0)
    ensures word >= 0 && FragmentOffset(word) == chain[0]
  {
    LinkRoundTrip(DUPLICATE_NODE, chain[0], 0);
  }

  lemma ChainArray(pages: Pages, chain: seq<int>, i: nat)
    requires ChainOk(pages, chain) && i < |chain|
    ensures IsWords(pages, chain[i]) && IsArray(pages[chain[i]].words, 2, NUM_DUPLICATE_VALUES)
  {
    assert LinkShaped(pages, chain, i);
  }

  /** The first value of an empty page. */
  method FirstValue(block: array<int>, value: int)
    requires block.Length == PAGE_WORDS + 1 && block[2] == 0 && block[1] == NULL
    modifies block
    ensures block[0] == old(block[0]) && block[1] == NULL && block[2] == 1
    ensures IsArray(block[..PAGE_WORDS], 2, NUM_DUPLICATE_VALUES) && ArrayAt(block[..PAGE_WORDS], 2) == [value]
  {
    assert ArrayAt(block[..], 2) == [];
    InsertValue(block, 2, value, NUM_DUPLICATE_VALUES);
    BlockArray(block[..], block[..PAGE_WORDS], 2, NUM_DUPLICATE_VALUES);
    OneValue(ArrayAt(block[..], 2), value);
  }

  lemma OneValue(s: seq<int>, value: int)
    requires multiset(s) == multiset{} + multiset{value}
    ensures s == [value]
  {
    assert |multiset(s)| == 1;
    assert s[0] in multiset(s);
  }

  lemma GrownPage(pages: Pages, contents: map<real, int>, d: Dups, ord: real, i: nat, words: seq<int>, value: int) returns (d': Dups)
    requires DupsOk(pages, contents, d) && ord in contents && contents[ord] >= 0 && IsDuplicate(contents[ord])
    requires LinkType(contents[ord]) != DUPLICATE_FRAGMENT && ord in d.chains && i < |d.chains[ord]|
    requires IsWords(pages, d.chains[ord][i]) && |words| == PAGE_WORDS && IsArray(words, 2, NUM_DUPLICATE_VALUES)
    requires Elsewhere(pages[d.chains[ord][i]].words, words, 2, PAGE_WORDS) && words[2] == pages[d.chains[ord][i]].words[2] + 1
    requires IsArray(pages[d.chains[ord][i]].words, 2, NUM_DUPLICATE_VALUES)
    requires multiset(ArrayAt(words, 2)) == multiset(ArrayAt(pages[d.chains[ord][i]].words, 2)) + multiset{value}
    ensures var pages' := pages[d.chains[ord][i] := Words(words)];
            && DupsOk(pages', contents, d') && KeyOk(pages', d', ord, contents[ord]) && KeyOk(pages, d, ord, contents[ord])
            && multiset(ValuesOf(pages', d', ord, contents[ord])) == multiset(ValuesOf(pages, d, ord, contents[ord])) + multiset{value}
            && SameValues(pages, contents, d, pages', contents, d', ord)
  {
    hide DupsOk, KeyOk, IsArray, LinkType, MakeLink, ValuesOf, Reformed, SameValues, ChainValues, LinkShaped, ArrayAt;
    ChainOfKey(pages, contents, d, ord);
    var chain := d.chains[ord];
    var pages' := pages[chain[i] := Words(words)];
    assert Filled(pages, chain, i);
    PageRewritten(pages, chain, i, words);
    Rejoined(pages, pages', chain);
    d' := ReformChain(pages, contents, d, ord, pages - Members(chain), pages', chain);
    assert contents[ord := contents[ord]] == contents;
    ReformedIs(pages, contents, d, ord, pages', d', contents[ord], ChainValues(pages', chain));
  }

  /** Pages that differ in the pages of a chain only. */
  lemma Rejoined(pages: Pages, pages': Pages, chain: seq<int>)
    requires ChainOk(pages', chain) && (forall i :: 0 <= i < |chain| ==> IsPageOffset(chain[i]))
    requires pages'.Keys == pages.Keys + Members(chain) && forall q :: q in pages && q !in Members(chain) ==> pages'[q] == pages[q]
    ensures ChainAdded(pages - Members(chain), pages', chain)
  {
    hide ChainOk, IsPageOffset;
    forall i | 0 <= i < |chain| ensures chain[i] !in pages - Members(chain) {
      assert chain[i] in Members(chain);
    }
  }

  lemma GrownChain(pages: Pages, contents: map<real, int>, d: Dups, ord: real, q: int, words: seq<int>, newWords: seq<int>, value: int)
      returns (d': Dups)
    requires DupsOk(pages, contents, d) && ord in contents && contents[ord] >= 0 && IsDuplicate(contents[ord])
    requires LinkType(contents[ord]) != DUPLICATE_FRAGMENT && ord in d.chains && d.chains[ord] != []
    requires var p := d.chains[ord][|d.chains[ord]| - 1];
             && IsWords(pages, p) && Elsewhere(pages[p].words, words, 1, 2) && |words| == PAGE_WORDS && words[1] == q
             && |newWords| == PAGE_WORDS && newWords[0] == p && newWords[1] == NULL
    requires IsArray(newWords, 2, NUM_DUPLICATE_VALUES) && newWords[2] == 1 && ArrayAt(newWords, 2) == [value]
    requires q !in pages && IsPageOffset(q)
    ensures var pages' := pages[d.chains[ord][|d.chains[ord]| - 1] := Words(words)][q := Words(newWords)];
            && DupsOk(pages', contents, d') && KeyOk(pages', d', ord, contents[ord]) && KeyOk(pages, d, ord, contents[ord])
            && multiset(ValuesOf(pages', d', ord, contents[ord])) == multiset(ValuesOf(pages, d, ord, contents[ord])) + multiset{value}
            && SameValues(pages, contents, d, pages', contents, d', ord)
  {
    hide DupsOk, KeyOk, IsArray, LinkType, MakeLink, ValuesOf, Reformed, SameValues, ChainValues, LinkShaped, ArrayAt, IsPageOffset;
    ChainOfKey(pages, contents, d, ord);
    var chain := d.chains[ord];
    var longer := chain + [q];
    var pages' := pages[chain[|chain| - 1] := Words(words)][q := Words(newWords)];
    PageAppended(pages, chain, q, words, newWords);
    LongerMembers(chain, q);
    Rejoined(pages, pages', longer);
    assert pages - Members(longer) == pages - Members(chain);
    d' := ReformChain(pages, contents, d, ord, pages - Members(chain), pages', longer);
    assert contents[ord := contents[ord]] == contents;
    ReformedIs(pages, contents, d, ord, pages', d', contents[ord], ChainValues(pages', longer));
  }

  lemma LongerMembers(chain: seq<int>, q: int)
    ensures Members(chain + [q]) == Members(chain) + {q}
  {
    var longer := chain + [q];
    assert longer[|chain|] == q;
    assert forall i :: 0 <= i < |chain| ==> longer[i] == chain[i];
  }

  // ---- the second value of a key ----

  /** All keys but `ord` have their words in `contents`, and what belongs to them is in `pages`. */
  ghost predicate RestOf(tree: BPlusTree, pages: Pages, contents: map<real, int>, d: Dups, ord: real)
    reads tree
  {
    && tree.Valid() && DupsOk(pages, contents, d)
    && (forall p :: p in pages ==> p in tree.others && tree.others[p] == pages[p])
    && (forall o :: o in tree.contents && o != ord ==> o in contents && contents[o] == tree.contents[o])
    && (ord in tree.contents ==> tree.contents[ord] >= 0
                                 && !(IsDuplicate(tree.contents[ord]) && LinkType(tree.contents[ord]) == DUPLICATE_FRAGMENT))
  }

  /** Words in leaves are not negative, and links to fragments are those of their keys. */
  lemma LeafWords(tree: BPlusTree, pages: Pages, contents: map<real, int>, d: Dups, ord: real, leaf: int, i: nat)
    requires RestOf(tree, pages, contents, d, ord) && leaf in tree.shape.level && tree.shape.level[leaf] == 0 && leaf in tree.pages
    requires tree.pages[leaf].Node? && i < |tree.pages[leaf].values|
    ensures tree.pages[leaf].values[i] >= 0
    ensures var w := tree.pages[leaf].values[i];
            (IsDuplicate(w) && LinkType(w) == DUPLICATE_FRAGMENT ==>
               && FragmentOffset(w) in d.role && d.role[FragmentOffset(w)].Fragments? && IsPageOffset(FragmentOffset(w)))
  {
    hide IsDuplicate, LinkType, ChainOk, FragmentOk, FragmentsOk;
    assert NodeOk(tree.pages, tree.shape, leaf);
    var o := tree.pages[leaf].keys[i].ord;
    var w := tree.pages[leaf].values[i];
    assert o in tree.contents && tree.contents[o] == w;
    if o != ord {
      assert KeyOk(pages, d, o, contents[o]);
      if IsDuplicate(w) && LinkType(w) == DUPLICATE_FRAGMENT {
        FragmentOfKey(pages, contents, d, o);
      }
    }
  }

  /** An unused fragment of a page in use. */
  ghost predicate FreeFragment(pages: Pages, d: Dups, p: int, j: nat) {
    && p in d.role && d.role[p].Fragments? && IsWords(pages, p) && j < MAX_FRAGMENTS
    && (p, j) !in d.holder && pages[p].words[8 * j] == 0 && IsPageOffset(p)
  }

  /** _FindFreeDuplicateFragment: looks through the fragment pages that the keys of this leaf use. */
  method FindFreeFragment(tree: BPlusTree, ghost pages: Pages, ghost contents: map<real, int>, ghost d: Dups, ghost ord: real, leaf: int)
      returns (found: bool, p: int, j: nat)
    requires RestOf(tree, pages, contents, d, ord) && leaf in tree.shape.level && tree.shape.level[leaf] == 0 && leaf in tree.pages
    requires tree.pages[leaf].Node?
    ensures found ==> FreeFragment(pages, d, p, j)
  {
    hide BPlusTree.Valid, ShortTree, DupsOk, KeyOk, ValuesOf, LinkType, FragmentOffset, FragmentIndex, FragmentOk;
    var values := tree.pages[leaf].values;
    p, j := 0, 0;
    for i := 0 to |values| {
      LeafWords(tree, pages, contents, d, ord, leaf, i);
      var value := values[i];
      if IsDuplicate(value) && LinkType(value) == DUPLICATE_FRAGMENT {
        p := FragmentOffset(value);
        PageInUse(tree, pages, contents, d, ord, p);
        var words := tree.pages[p].words;
        for k := 0 to MAX_FRAGMENTS {
          if words[8 * k] == 0 {
            UsedIsHeld(pages, contents, d, p, k);
            return true, p, k;
          }
        }
      }
    }
    found := false;
  }

  lemma PageInUse(tree: BPlusTree, pages: Pages, contents: map<real, int>, d: Dups, ord: real, p: int)
    requires RestOf(tree, pages, contents, d, ord) && p in d.role
    ensures p in pages && p in tree.others && p in tree.pages && tree.pages[p] == tree.others[p] == pages[p] && IsWords(pages, p)
  {
    hide KeyOk, FragmentsOk;
    RestLevels(tree);
  }

  /** Two values in an empty fragment. */
  method TwoValues(block: array<int>, j: nat, a: int, b: int)
    requires block.Length == PAGE_WORDS + 1 && j < MAX_FRAGMENTS && block[8 * j] == 0
    modifies block
    ensures IsArray(block[..PAGE_WORDS], 8 * j, NUM_FRAGMENT_VALUES) && block[8 * j] == 2
    ensures multiset(ArrayAt(block[..PAGE_WORDS], 8 * j)) == multiset{a, b}
    ensures Elsewhere(old(block[..]), block[..], 8 * j, 8 * j + 8)
  {
    ghost var b0 := block[..];
    assert ArrayAt(block[..], 8 * j) == [];
    InsertValue(block, 8 * j, a, NUM_FRAGMENT_VALUES);
    ghost var b1 := block[..];
    InsertValue(block, 8 * j, b, NUM_FRAGMENT_VALUES);
    BlockArray(block[..], block[..PAGE_WORDS], 8 * j, NUM_FRAGMENT_VALUES);
    Twice(b0, b1, block[..], 8 * j, 8 * j + 2, 8 * j + 3, 8 * j + 8);
  }

  lemma Twice(a: seq<int>, b: seq<int>, c: seq<int>, lo: nat, hi1: nat, hi2: nat, hi: nat)
    requires Elsewhere(a, b, lo, hi1) && Elsewhere(b, c, lo, hi2) && hi1 <= hi && hi2 <= hi
    ensures Elsewhere(a, c, lo, hi)
  {
  }

  /** The key has one value so far: both go into a free fragment, or the first of a new page. */
  method StartFragment(tree: BPlusTree, ghost d: Dups, leaf: int, index: nat, ghost ord: real, oldValue: int, value: int)
      returns (ghost d': Dups)
    requires Duplicated(tree, d) && LeafEntry(tree, leaf, index, ord) && CanGrow(tree)
    requires ord in tree.contents && tree.contents[ord] == oldValue >= 0 && !IsDuplicate(oldValue)
    modifies tree`pages, tree`others, tree`contents, tree`freeNode, tree`maximumSize, tree`freeList
    ensures NowHas(tree, d, d', ord, multiset{oldValue, value})
  {
    hide BPlusTree.Valid, ShortTree, DupsOk, KeyOk, ValuesOf, IsArray, LinkType, MakeLink, SameValues, Reformed, IsDuplicate, IsPageOffset, SameFragment,
      LeafEntry, RestOf, ArrayAt;
    ghost var others, contents := tree.others, tree.contents;
    WordOk(others, contents, d, ord);
    RestIsAll(tree, d, leaf, index, ord);
    var found, p, j := FindFreeFragment(tree, others, contents, d, ord, leaf);
    var block: array<int>;
    if found {
      PageInUse(tree, others, contents, d, ord, p);
      block := ReadWords(tree, p);
    } else {
      p := NewPage(tree);
      j := 0;
      block := new int[PAGE_WORDS + 1](k => 0);
      PageFits(p, tree.maximumSize);
      SamePages(d, others, contents);
    }
    ghost var b0 := block[..];
    TwoValues(block, j, oldValue, value);
    BlockElsewhere(b0, block[..], 8 * j, 8 * j + 8, 8 * j + 8);
    WriteWords(tree, p, block[..PAGE_WORDS]);
    assert tree.others == others[p := Words(block[..PAGE_WORDS])];
    d' := StartReforms(others, contents, d, ord, p, j, block[..PAGE_WORDS]);
    Positive(p);
    var word := MakeLink(DUPLICATE_FRAGMENT, p, j);
    PutWord(tree, leaf, index, ord, word);
    ReformedIs(others, contents, d, ord, tree.others, d', word, ArrayAt(block[..PAGE_WORDS], 8 * j));
  }

  lemma Positive(p: int)
    requires IsPageOffset(p)
    ensures p > 0
  {
  }

  lemma RestIsAll(tree: BPlusTree, d: Dups, leaf: int, index: nat, ord: real)
    requires Duplicated(tree, d) && LeafEntry(tree, leaf, index, ord)
    requires ord in tree.contents && tree.contents[ord] >= 0 && !IsDuplicate(tree.contents[ord])
    ensures RestOf(tree, tree.others, tree.contents, d, ord)
    ensures leaf in tree.shape.level && tree.shape.level[leaf] == 0 && leaf in tree.pages && tree.pages[leaf].Node?
  {
  }

  lemma SamePages(d: Dups, pages: Pages, contents: map<real, int>)
    requires DupsOk(pages, contents, d)
    ensures forall p :: p !in pages ==> p !in d.role
  {
    hide KeyOk, FragmentsOk;
  }

  lemma WordOk(pages: Pages, contents: map<real, int>, d: Dups, ord: real)
    requires DupsOk(pages, contents, d) && ord in contents
    ensures KeyOk(pages, d, ord, contents[ord])
  {
  }

  lemma StartReforms(pages: Pages, contents: map<real, int>, d: Dups, ord: real, p: int, j: nat, words: seq<int>) returns (d': Dups)
    requires DupsOk(pages, contents, d) && ord in contents && contents[ord] >= 0 && !IsDuplicate(contents[ord])
    requires |words| == PAGE_WORDS && j < MAX_FRAGMENTS && IsPageOffset(p)
    requires IsArray(words, 8 * j, NUM_FRAGMENT_VALUES) && words[8 * j] == 2
    requires if p in pages then FreeFragment(pages, d, p, j) && Elsewhere(pages[p].words, words, 8 * j, 8 * j + 8)
             else Elsewhere(seq(PAGE_WORDS, k => 0), words, 8 * j, 8 * j + 8)
    ensures Reformed(pages, contents, d, ord, pages[p := Words(words)], d', MakeLink(DUPLICATE_FRAGMENT, p, j), ArrayAt(words, 8 * j))
  {
    hide DupsOk, KeyOk, IsArray, LinkType, MakeLink, Reformed;
    WordOk(pages, contents, d, ord);
    var pages' := pages[p := Words(words)];
    if p in pages {
      SameSlots(pages, pages', p, j, words);
    } else {
      var zeros := seq(PAGE_WORDS, k => 0);
      forall k: nat | k < MAX_FRAGMENTS && k != j ensures words[8 * k] == 0 {
        assert words[8 * k] == zeros[8 * k];
      }
    }
    d' := ReformFragment(pages, contents, d, ord, pages, pages', p, j);
  }

  /** The key has a fragment: the value goes in, or all of them go to a page of their own. */
  method InsertWithFragment(tree: BPlusTree, ghost d: Dups, leaf: int, index: nat, ghost ord: real, oldValue: int, value: int)
      returns (ghost d': Dups)
    requires FragmentReady(tree, ord, oldValue) && CanGrow(tree)
    requires Duplicated(tree, d) && LeafEntry(tree, leaf, index, ord)
    modifies tree`pages, tree`others, tree`contents, tree`freeNode, tree`maximumSize, tree`freeList
    ensures Gained(tree, d, d', ord, value)
  {
    hide BPlusTree.Valid, ShortTree, DupsOk, KeyOk, ValuesOf, LinkType, MakeLink, FragmentOffset, FragmentIndex, SameValues, IsArray, LeafEntry,
      Shared, ChainOk, IsDuplicate;
    WordOk(tree.others, tree.contents, d, ord);
    ghost var was := ValuesOf(tree.others, d, ord, tree.contents[ord]);
    FragmentOfKey(tree.others, tree.contents, d, ord);
    var p, j := FragmentOffset(oldValue), FragmentIndex(oldValue);
    OthersArePages(tree, p);
    var block := ReadWords(tree, p);
    BlockArray(block[..], tree.others[p].words, 8 * j, NUM_FRAGMENT_VALUES);
    if block[8 * j] < NUM_FRAGMENT_VALUES {
      d' := InsertInFragment(tree, d, ord, p, j, block, value);
      return;
    }
    FullArray(block[..], 8 * j);
    AloneIfUnused(tree.others, tree.contents, d, p, j);
    var used := FragmentsUsed(block, j);
    assert used == 1 <==> !Shared(d, p, j) by {
      SharedByUse(block[..], tree.others[p].words, j);
    }
    if used < 2 {
      d' := FragmentToOwnPage(tree, d, leaf, index, ord, p, j, block, value, was);
    } else {
      d' := FragmentToNewPage(tree, d, leaf, index, ord, p, j, block, value, was);
    }
  }

  lemma EntryWord(tree: BPlusTree, d: Dups, leaf: int, index: nat, ord: real)
    requires Duplicated(tree, d) && LeafEntry(tree, leaf, index, ord)
    ensures leaf in tree.pages && tree.pages[leaf].Node? && index < |tree.pages[leaf].values| && ord in tree.contents
    ensures tree.contents[ord] == tree.pages[leaf].values[index] >= 0
  {
    hide IsDuplicate, LinkType, ChainOk, FragmentOk, FragmentsOk;
    EntryIsContent(tree, leaf, index, ord);
    assert KeyOk(tree.others, d, ord, tree.contents[ord]);
  }

  // ---- _InsertDuplicate ----

  /** One value more for a key that is there. */
  method InsertDuplicate(tree: BPlusTree, ghost d: Dups, leaf: int, index: nat, ghost ord: real, value: int) returns (ghost d': Dups)
    requires Duplicated(tree, d) && LeafEntry(tree, leaf, index, ord) && CanGrow(tree)
    modifies tree`pages, tree`others, tree`contents, tree`freeNode, tree`maximumSize, tree`freeList
    ensures Gained(tree, d, d', ord, value)
  {
    hide BPlusTree.Valid, ShortTree, DupsOk, KeyOk, LinkType, MakeLink, FragmentOffset, FragmentIndex, SameValues, IsArray, LeafEntry, Shared,
      ChainOk, IsDuplicate, ValuesOf;
    EntryWord(tree, d, leaf, index, ord);
    var oldValue := tree.pages[leaf].values[index];
    WordOk(tree.others, tree.contents, d, ord);
    ghost var was := ValuesOf(tree.others, d, ord, tree.contents[ord]);
    if !IsDuplicate(oldValue) {
      PlainValues(tree.others, d, ord, oldValue);
      d' := StartFragment(tree, d, leaf, index, ord, oldValue, value);
      assert multiset{oldValue, value} == multiset([oldValue]) + multiset{value};
      return;
    }
    if LinkType(oldValue) != DUPLICATE_FRAGMENT {
      d' := InsertInChain(tree, d, ord, oldValue, value, was);
      return;
    }
    d' := InsertWithFragment(tree, d, leaf, index, ord, oldValue, value);
  }

  lemma PlainValues(pages: Pages, d: Dups, ord: real, word: int)
    requires KeyOk(pages, d, ord, word) && !IsDuplicate(word)
    ensures ValuesOf(pages, d, ord, word) == [word]
  {
  }

  lemma FullArray(block: seq<int>, base: nat)
    requires IsArray(block, base, NUM_FRAGMENT_VALUES) && block[base] >= NUM_FRAGMENT_VALUES
    ensures block[base] == NUM_FRAGMENT_VALUES
  {
  }

  lemma SharedByUse(block: seq<int>, words: seq<int>, j: nat)
    requires InBlock(block, words) && |words| == PAGE_WORDS
    ensures (forall k {:trigger block[8 * k]} :: 0 <= k < MAX_FRAGMENTS && k != j ==> block[8 * k] <= 0)
       <==> !exists k: nat {:trigger words[8 * k]} :: k < MAX_FRAGMENTS && k != j && words[8 * k] > 0
  {
    forall k: nat | k < MAX_FRAGMENTS ensures block[8 * k] == words[8 * k] {
    }
  }
}
