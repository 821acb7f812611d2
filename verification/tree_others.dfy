/** The pages of a tree's file that are not tree pages, and the words in its leaves: reading, writing, handing
    out and freeing them leaves the tree as it is (BPlusTree.cpp, CachedNode). */
module TreeOthers {
  import opened NodeLayout
  import opened TreeShape
  import opened TreePath
  import opened PageStore
  import opened TreeHousing
  import opened TreeKeys
  import opened BPlusTrees
  import opened SortedArrays
  import opened DuplicateValues

  /** Entry `index` of the leaf at `leaf` is the one with this key. */
  ghost predicate LeafEntry(tree: BPlusTree, leaf: int, index: nat, ord: real)
    reads tree
  {
    && leaf in tree.shape.level && tree.shape.level[leaf] == 0 && leaf in tree.pages && tree.pages[leaf].Node?
    && index < |tree.pages[leaf].keys| == |tree.pages[leaf].values| && tree.pages[leaf].keys[index].ord == ord
  }

  /** The tree pages are the same as before, and so is everything that says what they are. */
  twostate predicate SameTree(tree: BPlusTree)
    reads tree
  {
    && tree.shape == old(tree.shape) && tree.rootNode == old(tree.rootNode) && tree.levels == old(tree.levels)
    && tree.contents == old(tree.contents) && tree.iterators == old(tree.iterators)
    && forall p :: p in tree.shape.level && p in old(tree.pages) ==> p in tree.pages && tree.pages[p] == old(tree.pages)[p]
  }

  /** No key has come. */
  twostate predicate SameKeys(tree: BPlusTree)
    reads tree
  {
    KeysKept(old(tree.pages), old(tree.shape), tree.pages, tree.shape)
  }

  lemma KeysStand(pages: Pages, pages': Pages, sh: Shape)
    requires forall p :: p in sh.level ==> p in pages && (p in pages' && pages'[p].Node? ==> pages[p].Node? && pages[p].keys == pages'[p].keys)
    ensures KeysKept(pages, sh, pages', sh)
  {
    KeptByPage(pages, sh, pages', sh);
  }

  lemma EntryIsContent(tree: BPlusTree, leaf: int, index: nat, ord: real)
    requires tree.Valid() && LeafEntry(tree, leaf, index, ord)
    ensures ord in tree.contents && tree.contents[ord] == tree.pages[leaf].values[index]
  {
  }

  // ---- pages that differ only in the words of leaves, and outside the tree ----

  ghost predicate SamePage(pages: Pages, pages': Pages, sh: Shape, p: int)
    requires p in sh.level
  {
    && p in pages && p in pages' && pages[p].Node? && pages'[p].Node?
    && pages'[p].keys == pages[p].keys && pages'[p].left == pages[p].left && pages'[p].right == pages[p].right
    && pages'[p].overflow == pages[p].overflow && |pages'[p].values| == |pages[p].values|
    && (sh.level[p] > 0 ==> pages'[p].values == pages[p].values)
  }

  ghost predicate SameStructure(pages: Pages, pages': Pages, sh: Shape) {
    forall p :: p in sh.level ==> SamePage(pages, pages', sh, p)
  }

  lemma NodesStand(pages: Pages, pages': Pages, sh: Shape)
    requires NodesOk(pages, sh) && SameStructure(pages, pages', sh)
    ensures NodesOk(pages', sh) && (SizesOk(pages, sh) ==> SizesOk(pages', sh)) && (LeavesFull(pages, sh) ==> LeavesFull(pages', sh))
  {
    hide Sorted;
    forall p | p in sh.level ensures NodeOk(pages', sh, p) {
      assert NodeOk(pages, sh, p) && SamePage(pages, pages', sh, p);
    }
    if SizesOk(pages, sh) {
      forall p | p in sh.level ensures SizeOk(pages'[p]) {
        assert SizeOk(pages[p]) && SamePage(pages, pages', sh, p);
      }
    }
    if LeavesFull(pages, sh) {
      forall p | p in sh.level && sh.level[p] == 0 ensures p in pages' && pages'[p].Node? && |pages'[p].keys| > 0 {
        assert SamePage(pages, pages', sh, p);
      }
    }
  }

  lemma ChildrenStand(pages: Pages, pages': Pages, sh: Shape)
    requires NodesOk(pages, sh) && NodesOk(pages', sh) && SameStructure(pages, pages', sh) && ChildrenOk(pages, sh, NoSlot)
    ensures ChildrenOk(pages', sh, NoSlot)
  {
    hide NodesOk;
    forall p, i | p in sh.level && sh.level[p] > 0 && 0 <= i <= |pages'[p].keys| ensures ChildOk(pages', sh, p, i) {
      assert SamePage(pages, pages', sh, p);
      assert ChildOk(pages, sh, p, i);
    }
  }

  lemma LinksStand(pages: Pages, pages': Pages, sh: Shape)
    requires NodesOk(pages, sh) && NodesOk(pages', sh) && SameStructure(pages, pages', sh) && LinksOk(pages, sh, NO_GAP)
    ensures LinksOk(pages', sh, NO_GAP)
  {
    hide NodesOk;
    forall p | p in sh.level ensures RightOk(pages', sh, NO_GAP, p) && LeftOk(pages', sh, NO_GAP, p) {
      assert RightOk(pages, sh, NO_GAP, p) && LeftOk(pages, sh, NO_GAP, p) && SamePage(pages, pages', sh, p);
      assert pages[p].right in sh.level ==> SamePage(pages, pages', sh, pages[p].right);
      assert pages[p].left in sh.level ==> SamePage(pages, pages', sh, pages[p].left);
    }
  }

  lemma TreeStands(pages: Pages, pages': Pages, sh: Shape, root: int, levels: nat)
    requires Tree(pages, sh, root, levels) && SameStructure(pages, pages', sh)
    ensures Tree(pages', sh, root, levels) && NodesOk(pages', sh)
  {
    hide NodesOk, ChildrenOk, LinksOk, Laminar, RootOk, SameStructure;
    NodesStand(pages, pages', sh);
    ChildrenStand(pages, pages', sh);
    LinksStand(pages, pages', sh);
  }

  /** Tree pages are the same. */
  ghost predicate SameLevels(pages: Pages, pages': Pages, sh: Shape) {
    forall p :: p in sh.level ==> p in pages && p in pages' && pages'[p] == pages[p]
  }

  lemma ContentsStand(pages: Pages, pages': Pages, sh: Shape, m: map<real, int>)
    requires NodesOk(pages, sh) && NodesOk(pages', sh) && SameLevels(pages, pages', sh) && Agrees(pages, sh, m)
    ensures Agrees(pages', sh, m)
  {
    hide NodesOk;
    forall ord | ord in m ensures Holds(pages', sh, ord, m[ord]) {
      var p, i :| StoredAt(pages, sh, ord, m[ord], p, i);
      assert StoredAt(pages', sh, ord, m[ord], p, i);
    }
  }

  /** The tree stands when only other pages change. */
  lemma RestsWithOthers(pages: Pages, pages': Pages, root: int, levels: nat, freeNode: int, size: int, freeNode': int, size': int,
                        sh: Shape, list: seq<int>, list': seq<int>, others: Pages, others': Pages, m: map<real, int>)
    requires AtRest(pages, root, levels, freeNode, size, sh, list, others, m) && SameLevels(pages, pages', sh)
    requires sh.level.Keys !! others'.Keys && OthersAre(pages', others')
    requires Conserved(pages', freeNode', size', sh.level.Keys + others'.Keys, list')
    ensures AtRest(pages', root, levels, freeNode', size', sh, list', others', m)
  {
    hide NodesOk, ChildrenOk, LinksOk, Laminar, RootOk, Agrees, LeavesFull, SizesOk, Conserved, Tree;
    SameLevelsStructure(pages, pages', sh, root, levels);
    TreeStands(pages, pages', sh, root, levels);
    TreeNodes(pages, sh, root, levels);
    NodesStand(pages, pages', sh);
    ContentsStand(pages, pages', sh, m);
  }

  lemma TreeNodes(pages: Pages, sh: Shape, root: int, levels: nat)
    requires Tree(pages, sh, root, levels)
    ensures NodesOk(pages, sh)
  {
  }

  lemma SameLevelsStructure(pages: Pages, pages': Pages, sh: Shape, root: int, levels: nat)
    requires Tree(pages, sh, root, levels) && SameLevels(pages, pages', sh)
    ensures SameStructure(pages, pages', sh)
  {
    forall p | p in sh.level ensures SamePage(pages, pages', sh, p) {
      assert NodeOk(pages, sh, p);
    }
  }

  // ---- the word of a key ----

  function WordPut(pages: Pages, leaf: int, index: nat, word: int): Pages
    requires leaf in pages && pages[leaf].Node? && index < |pages[leaf].values|
  {
    pages[leaf := pages[leaf].(values := pages[leaf].values[index := word])]
  }

  lemma WordStructure(pages: Pages, sh: Shape, root: int, levels: nat, leaf: int, index: nat, word: int)
    requires Tree(pages, sh, root, levels) && leaf in sh.level && sh.level[leaf] == 0
    requires leaf in pages && pages[leaf].Node? && index < |pages[leaf].values|
    ensures SameStructure(pages, WordPut(pages, leaf, index, word), sh)
  {
    forall p | p in sh.level ensures SamePage(pages, WordPut(pages, leaf, index, word), sh, p) {
      assert NodeOk(pages, sh, p);
    }
  }

  lemma WordContents(pages: Pages, sh: Shape, root: int, levels: nat, m: map<real, int>, leaf: int, index: nat, ord: real, word: int)
    requires Tree(pages, sh, root, levels) && Agrees(pages, sh, m)
    requires leaf in sh.level && sh.level[leaf] == 0 && leaf in pages && pages[leaf].Node?
    requires index < |pages[leaf].keys| == |pages[leaf].values| && pages[leaf].keys[index].ord == ord
    requires NodesOk(WordPut(pages, leaf, index, word), sh)
    ensures Agrees(WordPut(pages, leaf, index, word), sh, m[ord := word])
  {
    hide NodesOk, Laminar, Agrees, WordPut, ChildrenOk, LinksOk;
    var pages', m' := WordPut(pages, leaf, index, word), m[ord := word];
    WordStored(pages, sh, leaf, index, ord, word);
    forall o | o in m' && o != ord ensures Holds(pages', sh, o, m'[o]) {
      AgreesHolds(pages, sh, m, o);
      WordKeepsOther(pages, sh, leaf, index, ord, word, o, m[o]);
    }
    forall p, i | p in sh.level && sh.level[p] == 0 && 0 <= i < KeysAt(pages', p)
      ensures PairIn(pages', sh, m', p, i)
    {
      WordPair(pages, sh, root, levels, m, leaf, index, ord, word, p, i);
    }
    NowAgrees(pages', sh, m');
  }

  function KeysAt(pages: Pages, p: int): nat {
    if p in pages && pages[p].Node? then |pages[p].keys| else 0
  }

  /** The pair at this place is one of the map. */
  ghost predicate PairIn(pages: Pages, sh: Shape, m: map<real, int>, p: int, i: int)
    requires NodesOk(pages, sh) && p in sh.level
  {
    0 <= i < |pages[p].keys| ==> pages[p].keys[i].ord in m && m[pages[p].keys[i].ord] == pages[p].values[i]
  }

  lemma NowAgrees(pages: Pages, sh: Shape, m: map<real, int>)
    requires NodesOk(pages, sh) && forall o :: o in m ==> Holds(pages, sh, o, m[o])
    requires forall p, i :: p in sh.level && sh.level[p] == 0 && 0 <= i < KeysAt(pages, p) ==> PairIn(pages, sh, m, p, i)
    ensures Agrees(pages, sh, m)
  {
    hide Holds;
    forall p, i | p in sh.level && sh.level[p] == 0 && 0 <= i < |pages[p].keys|
      ensures pages[p].keys[i].ord in m && m[pages[p].keys[i].ord] == pages[p].values[i]
    {
      assert NodeOk(pages, sh, p);
      assert PairIn(pages, sh, m, p, i);
    }
  }

  lemma AgreesHolds(pages: Pages, sh: Shape, m: map<real, int>, o: real)
    requires NodesOk(pages, sh) && Agrees(pages, sh, m) && o in m
    ensures Holds(pages, sh, o, m[o])
  {
  }

  lemma WordStored(pages: Pages, sh: Shape, leaf: int, index: nat, ord: real, word: int)
    requires leaf in sh.level && sh.level[leaf] == 0 && leaf in pages && pages[leaf].Node?
    requires index < |pages[leaf].keys| == |pages[leaf].values| && pages[leaf].keys[index].ord == ord
    requires NodesOk(WordPut(pages, leaf, index, word), sh)
    ensures Holds(WordPut(pages, leaf, index, word), sh, ord, word)
  {
    assert StoredAt(WordPut(pages, leaf, index, word), sh, ord, word, leaf, index);
  }

  lemma WordKeepsOther(pages: Pages, sh: Shape, leaf: int, index: nat, ord: real, word: int, o: real, v: int)
    requires NodesOk(pages, sh) && Holds(pages, sh, o, v) && o != ord
    requires leaf in sh.level && sh.level[leaf] == 0 && leaf in pages && pages[leaf].Node?
    requires index < |pages[leaf].keys| == |pages[leaf].values| && pages[leaf].keys[index].ord == ord
    requires NodesOk(WordPut(pages, leaf, index, word), sh)
    ensures Holds(WordPut(pages, leaf, index, word), sh, o, v)
  {
    hide NodesOk;
    var p, i :| StoredAt(pages, sh, o, v, p, i);
    assert StoredAt(WordPut(pages, leaf, index, word), sh, o, v, p, i);
  }

  lemma WordPair(pages: Pages, sh: Shape, root: int, levels: nat, m: map<real, int>, leaf: int, index: nat, ord: real, word: int,
                 p: int, i: int)
    requires Tree(pages, sh, root, levels) && Agrees(pages, sh, m)
    requires leaf in sh.level && sh.level[leaf] == 0 && leaf in pages && pages[leaf].Node?
    requires index < |pages[leaf].keys| == |pages[leaf].values| && pages[leaf].keys[index].ord == ord
    requires NodesOk(WordPut(pages, leaf, index, word), sh) && p in sh.level && sh.level[p] == 0
    ensures PairIn(WordPut(pages, leaf, index, word), sh, m[ord := word], p, i)
  {
    hide ChildrenOk, LinksOk, Laminar, Sorted;
    var pages' := WordPut(pages, leaf, index, word);
    assert NodeOk(pages, sh, p) && NodeOk(pages', sh, p);
    assert pages'[p].keys == pages[p].keys;
    if 0 <= i < |pages[p].keys| && pages[p].keys[i].ord == ord {
      OnePlace(pages, sh, leaf, index, p, i);
    }
  }

  /** A key is in one place. */
  lemma OnePlace(pages: Pages, sh: Shape, p: int, i: int, q: int, j: int)
    requires NodesOk(pages, sh) && Laminar(sh)
    requires p in sh.level && sh.level[p] == 0 && q in sh.level && sh.level[q] == 0
    requires 0 <= i < |pages[p].keys| && 0 <= j < |pages[q].keys| && pages[p].keys[i].ord == pages[q].keys[j].ord
    ensures p == q && i == j
  {
    assert NodeOk(pages, sh, p) && NodeOk(pages, sh, q);
    assert p != q ==> Apart(sh, p, q);
    assert p == q && Sorted(pages[p].keys);
  }

  lemma WordRests(pages: Pages, root: int, levels: nat, freeNode: int, size: int, sh: Shape, list: seq<int>, others: Pages,
                  m: map<real, int>, leaf: int, index: nat, ord: real, word: int)
    requires AtRest(pages, root, levels, freeNode, size, sh, list, others, m)
    requires leaf in sh.level && sh.level[leaf] == 0 && leaf in pages && pages[leaf].Node?
    requires index < |pages[leaf].keys| == |pages[leaf].values| && pages[leaf].keys[index].ord == ord
    ensures AtRest(WordPut(pages, leaf, index, word), root, levels, freeNode, size, sh, list, others, m[ord := word])
  {
    hide NodesOk, ChildrenOk, LinksOk, Laminar, RootOk, Agrees, LeavesFull, SizesOk, Conserved, Tree;
    var pages' := WordPut(pages, leaf, index, word);
    WordStructure(pages, sh, root, levels, leaf, index, word);
    TreeStands(pages, pages', sh, root, levels);
    TreeNodes(pages, sh, root, levels);
    NodesStand(pages, pages', sh);
    WordContents(pages, sh, root, levels, m, leaf, index, ord, word);
    EditKeepsConserved(pages, pages', freeNode, size, sh.level.Keys + others.Keys, list);
  }

  // ---- the operations ----

  /** The tree is as it was, and its leaves hold the same words. */
  twostate predicate Undisturbed(tree: BPlusTree)
    reads tree
  {
    && tree.Valid() && SameTree(tree) && SameKeys(tree)
    && forall leaf, index, ord :: old(LeafEntry(tree, leaf, index, ord)) ==> LeafEntry(tree, leaf, index, ord)
  }

  /** Puts a word in the place of a key's. */
  method PutWord(tree: BPlusTree, leaf: int, index: nat, ghost ord: real, word: int)
    requires tree.Valid() && LeafEntry(tree, leaf, index, ord)
    modifies tree`pages, tree`contents
    ensures tree.Valid() && LeafEntry(tree, leaf, index, ord) && SameKeys(tree)
    ensures tree.contents == old(tree.contents)[ord := word] && tree.others == old(tree.others)
  {
    hide AtRest, KeysKept;
    WordRests(tree.pages, tree.rootNode, tree.levels, tree.freeNode, tree.maximumSize, tree.shape, tree.freeList, tree.others,
              tree.contents, leaf, index, ord, word);
    var node := tree.pages[leaf];
    RestLevels(tree);
    KeysStand(tree.pages, tree.pages[leaf := node.(values := node.values[index := word])], tree.shape);
    tree.pages := tree.pages[leaf := node.(values := node.values[index := word])];
    tree.contents := tree.contents[ord := word];
  }

  /** CachedNode::SetTo for a page of words, with the word behind it that sorted_array::Remove reads. */
  method ReadWords(tree: BPlusTree, offset: int) returns (block: array<int>)
    requires offset in tree.pages && tree.pages[offset].Words? && |tree.pages[offset].words| == PAGE_WORDS
    ensures fresh(block) && block.Length == PAGE_WORDS + 1 && block[..PAGE_WORDS] == tree.pages[offset].words
  {
    var words := tree.pages[offset].words;
    block := new int[PAGE_WORDS + 1](k => 0);
    for k := 0 to PAGE_WORDS
      invariant forall i :: 0 <= i < k ==> block[i] == words[i]
    {
      block[k] := words[k];
    }
  }

  /** What was changed in a page is in the file. */
  method WriteWords(tree: BPlusTree, offset: int, words: seq<int>)
    requires tree.Valid() && offset in tree.others
    modifies tree`pages, tree`others
    ensures Undisturbed(tree) && tree.others == old(tree.others)[offset := Words(words)]
  {
    hide AtRest, KeysKept;
    RestLevels(tree);
    ghost var pages', others' := tree.pages[offset := Words(words)], tree.others[offset := Words(words)];
    OtherWritten(tree, offset, Words(words));
    KeysStand(tree.pages, pages', tree.shape);
    tree.pages := tree.pages[offset := Words(words)];
    tree.others := others';
  }

  lemma OtherWritten(tree: BPlusTree, offset: int, page: Page)
    requires tree.Valid() && offset in tree.others
    ensures AtRest(tree.pages[offset := page], tree.rootNode, tree.levels, tree.freeNode, tree.maximumSize, tree.shape,
                   tree.freeList, tree.others[offset := page], tree.contents)
    ensures forall p :: p in tree.shape.level && p in tree.pages ==> p != offset
  {
    hide Tree, Agrees, LeavesFull, SizesOk, Conserved;
    var pages', others' := tree.pages[offset := page], tree.others[offset := page];
    assert others'.Keys == tree.others.Keys;
    RestLevels(tree);
    EditKeepsConserved(tree.pages, pages', tree.freeNode, tree.maximumSize, tree.shape.level.Keys + tree.others.Keys, tree.freeList);
    RestsWithOthers(tree.pages, pages', tree.rootNode, tree.levels, tree.freeNode, tree.maximumSize, tree.freeNode,
                    tree.maximumSize, tree.shape, tree.freeList, tree.freeList, tree.others, others', tree.contents);
  }

  lemma RestLevels(tree: BPlusTree)
    requires tree.Valid()
    ensures forall p :: p in tree.shape.level ==> p in tree.pages && p !in tree.others
    ensures forall p :: p in tree.others ==> p in tree.pages && tree.pages[p] == tree.others[p]
  {
    forall p | p in tree.shape.level ensures p in tree.pages {
      assert NodeOk(tree.pages, tree.shape, p);
    }
    forall p | p in tree.shape.level ensures p !in tree.others {
      assert p in tree.shape.level.Keys;
    }
  }

  /** CachedNode::Allocate for a page of words: its three links are empty, and the rest is whatever it is. */
  method NewPage(tree: BPlusTree) returns (offset: int)
    requires tree.Valid()
    modifies tree`pages, tree`others, tree`freeNode, tree`maximumSize, tree`freeList
    ensures Undisturbed(tree) && offset !in old(tree.others) && offset in tree.others && IsOffset(offset, tree.maximumSize)
    ensures tree.others == old(tree.others)[offset := tree.others[offset]]
    ensures IsWords(tree.others, offset) && tree.others[offset].words[..3] == [NULL, NULL, NULL]
    ensures tree.maximumSize <= old(tree.maximumSize) + NODE_SIZE
  {
    hide AtRest, KeysKept, Conserved, AllocatedAt;
    ghost var pages, others, sh := tree.pages, tree.others, tree.shape;
    RestConserved(tree);
    RestLevels(tree);
    ghost var freeNode, size, list := tree.freeNode, tree.maximumSize, tree.freeList;
    offset := tree.Allocate(tree.shape.level.Keys + tree.others.Keys);
    ghost var some := [NULL, NULL, NULL] + seq(PAGE_WORDS - 3, k => 0);
    assert |some| == PAGE_WORDS && some[..3] == [NULL, NULL, NULL];
    var words: seq<int> :| |words| == PAGE_WORDS && words[..3] == [NULL, NULL, NULL];
    PageTaken(pages, tree.pages, tree.rootNode, tree.levels, freeNode, size, tree.freeNode, tree.maximumSize, sh, list, tree.freeList,
              others, tree.contents, offset, words);
    tree.pages := tree.pages[offset := Words(words)];
    tree.others := tree.others[offset := Words(words)];
    KeysStand(pages, tree.pages, sh);
  }

  lemma RestConserved(tree: BPlusTree)
    requires tree.Valid()
    ensures Conserved(tree.pages, tree.freeNode, tree.maximumSize, tree.shape.level.Keys + tree.others.Keys, tree.freeList)
    ensures forall p :: p in tree.others ==> p in tree.shape.level.Keys + tree.others.Keys
  {
  }

  lemma PageTaken(pages: Pages, pages': Pages, root: int, levels: nat, freeNode: int, size: int, freeNode': int, size': int,
                  sh: Shape, list: seq<int>, list': seq<int>, others: Pages, m: map<real, int>, offset: int, words: seq<int>)
    requires AtRest(pages, root, levels, freeNode, size, sh, list, others, m)
    requires pages' == pages[offset := EMPTY_NODE] && offset !in sh.level.Keys + others.Keys
    requires Conserved(pages', freeNode', size', sh.level.Keys + others.Keys + {offset}, list')
    ensures AtRest(pages'[offset := Words(words)], root, levels, freeNode', size', sh, list', others[offset := Words(words)], m)
    ensures IsOffset(offset, size')
    ensures forall p :: p in sh.level && p in pages ==> p != offset
  {
    hide Tree, Agrees, LeavesFull, SizesOk, Conserved;
    var pages2, others2 := pages'[offset := Words(words)], others[offset := Words(words)];
    assert sh.level.Keys + others2.Keys == sh.level.Keys + others.Keys + {offset};
    EditKeepsConserved(pages', pages2, freeNode', size', sh.level.Keys + others.Keys + {offset}, list');
    LevelsInPages(pages, root, levels, freeNode, size, sh, list, others, m);
    InFile(pages', freeNode', size', sh.level.Keys + others.Keys + {offset}, list', offset);
    RestsWithOthers(pages, pages2, root, levels, freeNode, size, freeNode', size', sh, list, list', others, others2, m);
  }

  lemma LevelsInPages(pages: Pages, root: int, levels: nat, freeNode: int, size: int, sh: Shape, list: seq<int>, others: Pages,
                      m: map<real, int>)
    requires AtRest(pages, root, levels, freeNode, size, sh, list, others, m)
    ensures forall p :: p in sh.level ==> p in pages
  {
    forall p | p in sh.level ensures p in pages {
      assert NodeOk(pages, sh, p);
    }
  }

  lemma InFile(pages: Pages, freeNode: int, size: int, used: set<int>, list: seq<int>, p: int)
    requires Conserved(pages, freeNode, size, used, list) && p in used
    ensures IsOffset(p, size)
  {
    assert p in pages.Keys;
  }

  /** CachedNode::Free for a page of words. */
  method GiveBackPage(tree: BPlusTree, offset: int)
    requires tree.Valid() && offset in tree.others
    modifies tree`pages, tree`others, tree`freeNode, tree`maximumSize, tree`freeList
    ensures Undisturbed(tree) && tree.others == old(tree.others) - {offset}
    ensures tree.maximumSize <= old(tree.maximumSize)
  {
    hide AtRest, KeysKept;
    ghost var pages, others, sh := tree.pages, tree.others, tree.shape;
    RestConserved(tree);
    RestLevels(tree);
    ghost var freeNode, size, list := tree.freeNode, tree.maximumSize, tree.freeList;
    tree.Free(offset, tree.shape.level.Keys + tree.others.Keys);
    PageGiven(pages, tree.pages, tree.rootNode, tree.levels, freeNode, size, tree.freeNode, tree.maximumSize, sh, list, tree.freeList,
              others, tree.contents, offset);
    tree.others := tree.others - {offset};
    KeysStand(pages, tree.pages, sh);
  }

  lemma PageGiven(pages: Pages, pages': Pages, root: int, levels: nat, freeNode: int, size: int, freeNode': int, size': int,
                  sh: Shape, list: seq<int>, list': seq<int>, others: Pages, m: map<real, int>, offset: int)
    requires AtRest(pages, root, levels, freeNode, size, sh, list, others, m)
    requires pages' - {offset} == pages - {offset} && offset in others
    requires Conserved(pages', freeNode', size', sh.level.Keys + others.Keys - {offset}, list')
    ensures AtRest(pages', root, levels, freeNode', size', sh, list', others - {offset}, m)
    ensures forall p :: p in sh.level ==> p in pages && p in pages' && pages'[p] == pages[p]
  {
    hide Tree, Agrees, LeavesFull, SizesOk, Conserved;
    var others2 := others - {offset};
    assert offset !in sh.level.Keys;
    assert sh.level.Keys + others2.Keys == sh.level.Keys + others.Keys - {offset};
    LevelsInPages(pages, root, levels, freeNode, size, sh, list, others, m);
    forall p | p in pages && p != offset ensures p in pages' && pages'[p] == pages[p] {
      assert p in pages - {offset};
      assert p in pages' - {offset};
    }
    RestsWithOthers(pages, pages', root, levels, freeNode, size, freeNode', size', sh, list, list', others, others2, m);
  }
}
