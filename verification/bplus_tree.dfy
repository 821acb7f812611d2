/** The B+tree of a directory or index without duplicate keys (BPlusTree.cpp), over decoded pages. */
module BPlusTrees {
  import opened NodeLayout
  import opened TreeShape
  import opened TreeSteps
  import opened TreePath
  import opened TreeRemove
  import opened PageStore
  import opened TreeHousing
  import opened TreeKeys
  import opened TreeFate
  import opened TreeCursor

  datatype Status = Ok | NameInUse | NotFound | BadValue | Interrupted
    | SplitLost  // a split that would have lost data: see NodeLayout.SplitSafe
    | Garbled    // Remove read past the end of a page's length table

  /** The state of the tree and of its iterators when Remove is called, and where it finds the key. */
  datatype Removal = Removal(pages: Pages, shape: Shape, root: int, levels: nat, contents: map<real, int>,
                             spots: map<TreeIterator, Spot>, cuts: map<TreeIterator, real>, leaf: int, at: int, ord: real)

  class BPlusTree {
    var pages: Pages
    var rootNode: int
    var levels: nat
    var freeNode: int
    var maximumSize: int
    ghost var shape: Shape
    ghost var freeList: seq<int>
    ghost var others: Pages  // the duplicate and fragment pages
    ghost var contents: map<real, int>
    var iterators: set<TreeIterator>

    ghost predicate Valid()
      reads this
    {
      AtRest(pages, rootNode, levels, freeNode, maximumSize, shape, freeList, others, contents)
    }

    /** A new tree: a header page and an empty leaf as its root. */
    constructor Create()
      ensures Valid() && levels == 1 && contents == map[] && others == map[] && iterators == {} && fresh(this)
      ensures ShortTree(pages, shape) && Named(map[])
    {
      pages := map[NODE_SIZE := EMPTY_NODE];
      rootNode, levels, freeNode, maximumSize := NODE_SIZE, 1, NULL, 2 * NODE_SIZE;
      shape := Shape(map[NODE_SIZE := 0], map[NODE_SIZE := -1.0], map[NODE_SIZE := 1.0]);
      freeList, others, contents := [], map[], map[];
      iterators := {};
      new;
      EmptyRootIsTree(pages, NODE_SIZE);
      NewStore(pages);
    }

    method FindKey(node: Page, key: Key) returns (found: bool, index: nat, next: int)
      requires node.Node? && |node.keys| == |node.values| && Sorted(node.keys)
      ensures IsPosition(node.keys, key.ord, index)
      ensures found <==> index < |node.keys| && node.keys[index].ord == key.ord
      ensures next == Child(node, index)
    {
      if |node.keys| == 0 {
        return false, 0, node.overflow;
      }
      var saveIndex := -1;
      var first, last := 0, |node.keys| - 1;
      while first <= last
        invariant 0 <= first <= last + 1 <= |node.keys|
        invariant forall j :: 0 <= j < first ==> node.keys[j].ord < key.ord
        invariant forall j :: last < j < |node.keys| ==> key.ord < node.keys[j].ord
        invariant first > last ==> saveIndex == first
        decreases last - first
      {
        var i := (first + last) / 2;
        if key.ord < node.keys[i].ord {
          last := i - 1;
          saveIndex := i;
        } else if key.ord > node.keys[i].ord {
          first := i + 1;
          saveIndex := first;
        } else {
          return true, i, node.values[i];
        }
      }
      return false, saveIndex, if saveIndex == |node.keys| then node.overflow else node.values[saveIndex];
    }

    method Find(key: Key) returns (status: Status, value: int)
      requires Valid() && 0.0 <= key.ord < 1.0
      ensures status == BadValue <==> !LengthOk(key)
      ensures LengthOk(key) ==> (status == Ok <==> key.ord in contents) && (status == NotFound <==> key.ord !in contents)
      ensures status == Ok ==> value == contents[key.ord]
    {
      if !LengthOk(key) {
        return BadValue, 0;
      }
      var nodeOffset := rootNode;
      while true
        invariant nodeOffset in shape.level && shape.lo[nodeOffset] < key.ord <= shape.hi[nodeOffset]
        decreases shape.level[nodeOffset]
      {
        var node := pages[nodeOffset];
        assert NodeOk(pages, shape, nodeOffset);
        var found, index, next := FindKey(node, key);
        if node.overflow == NULL {
          if found {
            return Ok, node.values[index];
          }
          AbsentKey(pages, shape, nodeOffset, index, key.ord, contents);
          return NotFound, 0;
        }
        Descend(pages, shape, rootNode, levels, nodeOffset, key.ord, index);
        nodeOffset := next;
      }
    }

    method SeekDown(key: Key) returns (stack: seq<Frame>)
      requires Valid() && 0.0 <= key.ord < 1.0
      ensures |stack| == levels >= 1 && NodesOk(pages, shape) && IsPath(pages, shape, rootNode, levels, stack, 0, key.ord)
    {
      stack := [];
      var nodeOffset := rootNode;
      while true
        invariant nodeOffset in shape.level && shape.lo[nodeOffset] < key.ord <= shape.hi[nodeOffset]
        invariant IsPath(pages, shape, rootNode, levels, stack, shape.level[nodeOffset] + 1, key.ord)
        invariant stack == [] ==> nodeOffset == rootNode
        invariant stack != [] ==> LeadsTo(pages, stack[|stack| - 1], nodeOffset)
        decreases shape.level[nodeOffset]
      {
        var node := pages[nodeOffset];
        assert NodeOk(pages, shape, nodeOffset);
        if node.overflow == NULL {
          ExtendPath(pages, shape, rootNode, levels, stack, shape.level[nodeOffset], key.ord, Frame(nodeOffset, 0));
          stack := stack + [Frame(nodeOffset, 0)];
          return;
        }
        var found, index, next := FindKey(node, key);
        Descend(pages, shape, rootNode, levels, nodeOffset, key.ord, index);
        ExtendPath(pages, shape, rootNode, levels, stack, shape.level[nodeOffset], key.ord, Frame(nodeOffset, index));
        stack := stack + [Frame(nodeOffset, index)];
        nodeOffset := next;
      }
    }

    /** Takes the head of the free list, or extends the file by a page. */
    method Allocate(ghost used: set<int>) returns (offset: int)
      requires Conserved(pages, freeNode, maximumSize, used, freeList)
      modifies this`pages, this`freeNode, this`maximumSize, this`freeList
      ensures offset == AllocatedAt(old(freeNode), old(maximumSize))
      ensures offset > 0 && offset !in used && pages == old(pages)[offset := EMPTY_NODE]
      ensures old(maximumSize) <= maximumSize <= old(maximumSize) + NODE_SIZE
      ensures Conserved(pages, freeNode, maximumSize, used + {offset}, freeList)
    {
      hide Conserved;
      ListHead(pages, freeNode, maximumSize, used, freeList);
      SizeIsPositive(pages, freeNode, maximumSize, used, freeList);
      if 0 < freeNode <= maximumSize - NODE_SIZE && freeNode % NODE_SIZE == 0 {
        AllocateRecycles(pages, freeNode, maximumSize, used, freeList);
        offset := freeNode;
        freeNode := pages[freeNode].next;
        pages := pages[offset := EMPTY_NODE];
        freeList := freeList[1..];
      } else {
        AllocateExtends(pages, freeNode, maximumSize, used);
        offset := maximumSize;
        maximumSize := maximumSize + NODE_SIZE;
        pages := pages[offset := EMPTY_NODE];
      }
    }

    /** Cuts the last page off the file, or puts the page on the free list. */
    method Free(offset: int, ghost used: set<int>)
      requires Conserved(pages, freeNode, maximumSize, used, freeList) && offset in used
      modifies this`pages, this`freeNode, this`maximumSize, this`freeList
      ensures pages - {offset} == old(pages) - {offset} && maximumSize <= old(maximumSize)
      ensures Conserved(pages, freeNode, maximumSize, used - {offset}, freeList)
    {
      var lastOffset := maximumSize - NODE_SIZE;
      if offset == lastOffset {
        FreeShrinks(pages, freeNode, maximumSize, used, freeList, offset);
        pages := pages - {offset};
        maximumSize := lastOffset;
      } else {
        FreeLinks(pages, freeNode, maximumSize, used, freeList, offset);
        pages := pages[offset := FreePage(freeNode)];
        freeNode := offset;
        freeList := [offset] + freeList;
      }
    }

    /** Splits the page at `x`, which gets the pair first, into itself and the empty page at `other`. */
    method SplitNode(x: int, index: int, key: Key, value: int, other: int) returns (sep: Key)
      requires x in pages && pages[x].Node? && other in pages && other != x && pages[x].left != other
      requires SizeOk(pages[x]) && LengthOk(key) && 0 <= index <= |pages[x].keys| == |pages[x].values|
      requires Used(|pages[x].keys| + 1, KeyBytes(pages[x].keys) + |key.bytes|) >= NODE_SIZE
      requires SplitSafe(Lens(pages[x].keys), index, |key.bytes|, pages[x].overflow == NULL)
      requires pages[x].left != NULL ==> pages[x].left in pages && pages[pages[x].left].Node?
      requires NULL !in pages
      modifies this`pages
      ensures var full, out := InsertPair(old(pages)[x], index, key, value),
                               LeftCount(Lens(old(pages)[x].keys), index, |key.bytes|);
              && 0 < out < |full.keys|
              && sep == Separator(full, out)
              && pages == SplitPages(old(pages)[x := full], x, out, other)
    {
      var node := pages[x];
      var full, out := InsertPair(node, index, key, value), LeftCount(Lens(node.keys), index, |key.bytes|);
      LeftSize(node, index, key, value, x);
      pages := pages[other := LeftHalf(full, out, x)][x := RightHalf(full, out, other)];
      if node.left != NULL {
        pages := pages[node.left := pages[node.left].(right := other)];
      }
      sep := Separator(full, out);
    }

    /** Insert is at the last page of `stack` with a pair still to be put in. */
    ghost predicate Climbing(stack: seq<Frame>, key: Key, value: int, keyBuffer: Key, link: int)
      reads this
    {
      && Inserting(pages, shape, rootNode, levels, stack, key, value, keyBuffer, link, contents)
      && LengthOk(keyBuffer) && Housed(pages, freeNode, maximumSize, shape, freeList, others)
      && (levels > 1 ==> LeavesFull(pages, shape))
    }

    ghost predicate Reaches(stack: seq<Frame>, x: int, index: int, keyBuffer: Key)
      reads this
    {
      && |stack| > 0 && x == stack[|stack| - 1].node && LastIsNode(pages, shape, stack)
      && x in shape.level && x in pages && pages[x].Node? && SizeOk(pages[x]) && 0 <= index <= |pages[x].keys|
      && InsertsAt(pages, stack, levels, keyBuffer, index)
    }

    /** The page has room. */
    method FillPage(ghost stack: seq<Frame>, key: Key, value: int, x: int, index: int, keyBuffer: Key, link: int)
      requires Climbing(stack, key, value, keyBuffer, link) && Reaches(stack, x, index, keyBuffer)
      requires HasRoom(pages[x], keyBuffer)
      modifies this`pages, this`contents
      ensures Valid() && contents == old(contents)[key.ord := value]
      ensures pages == Filled(old(pages), x, index, keyBuffer, link)
    {
      hide Inserting, Housed, LeavesFull, AtRest, InsertsAt, LastIsNode, SizeOk, Used, KeyBytes, Filled;
      FillPageRests(stack, key, value, x, index, keyBuffer, link);
      var filled := Filled(pages, x, index, keyBuffer, link);
      hide *;
      pages, contents := filled, contents[key.ord := value];
      assert AtRest(pages, rootNode, levels, freeNode, maximumSize, shape, freeList, others, contents);
    }

    lemma FillPageRests(stack: seq<Frame>, key: Key, value: int, x: int, index: int, keyBuffer: Key, link: int)
      requires Climbing(stack, key, value, keyBuffer, link) && Reaches(stack, x, index, keyBuffer)
      requires HasRoom(pages[x], keyBuffer)
      ensures 0 <= index <= |pages[x].keys| == |pages[x].values|
      ensures AtRest(Filled(pages, x, index, keyBuffer, link), rootNode, levels, freeNode, maximumSize, shape, freeList,
                     others, contents[key.ord := value])
      ensures KeysGrow(pages, shape, Filled(pages, x, index, keyBuffer, link), shape, keyBuffer, shape.level[x])
    {
      hide Inserting, Housed, LeavesFull, AtRest, InsertsAt, SizeOk, Used, KeyBytes, Filled, KeysGrow;
      FilledGrows(pages, shape, x, index, keyBuffer, link);
      FilledRests(pages, rootNode, levels, freeNode, maximumSize, shape, freeList, others, contents,
                  stack, key, value, x, index, keyBuffer, link);
    }

    /** The page has no room: its left half goes to a new page, to be entered one level up. */
    method SplitBelowRoot(ghost stack: seq<Frame>, key: Key, value: int, x: int, index: int, keyBuffer: Key, link: int)
      returns (sep: Key, other: int)
      requires Climbing(stack, key, value, keyBuffer, link) && Reaches(stack, x, index, keyBuffer) && |stack| >= 2
      requires Full(x, index, keyBuffer)
      modifies this
      ensures iterators == old(iterators)
      ensures others == old(others) && contents == old(contents) && rootNode == old(rootNode) && levels == old(levels)
      ensures Climbing(stack[..|stack| - 1], key, value, sep, other)
      ensures KeysGrow(old(pages), old(shape), pages, shape, keyBuffer, old(shape.level[x]))
      ensures KeyKnown(old(pages), old(shape), old(shape.level[x]), sep, keyBuffer)
      ensures old(shape.level).Keys < shape.level.Keys && x in shape.level
      ensures Enter(old(pages)[x], index, keyBuffer) == Up(sep) && UpperSame(old(pages), pages, stack)
    {
      hide KeysGrow, KeyKnown, Inserting, Conserved, NodesOk, SizesOk, LastIsNode, InsertsAt, SplitSafe, CanSplit, SplitPages, HandedOut,
        Tree, Agrees, Housed, RootOk, Lens, KeyBytes, Used, InsertPair, SplitShape, Separator, LeftCount, Enter, UpperSame;
      AtSplit(pages, shape, rootNode, levels, stack, key, value, x, index, keyBuffer, link, contents);
      ghost var before, sh := pages, shape;
      HousedParts(pages, freeNode, maximumSize, shape, freeList, others);
      NullIsNoPage(pages, freeNode, maximumSize, shape.level.Keys + others.Keys, freeList);
      other := Allocate(shape.level.Keys + others.Keys);
      HandOutOne(before, other);
      ReadyToSplit(before, sh, x, index, keyBuffer, other);
      SplitIsPossible(before, sh, x, index, keyBuffer, link, other);
      SplitForgets(before, x, InsertPair(before[x], index, keyBuffer, link), SplitCount(before, x, index, keyBuffer), other);
      SplitIsHoused(before, pages, freeNode, maximumSize, sh, freeList, others, x, index, keyBuffer, link, other);
      SplitClimbs(before, sh, rootNode, levels, stack, key, value, x, index, keyBuffer, link, other, contents);
      SplitKeys(before, sh, x, index, keyBuffer, link, other);
      SplitKeepsAbove(before, sh, rootNode, levels, stack, key, value, keyBuffer, link, contents,
                      InsertPair(before[x], index, keyBuffer, link), SplitCount(before, x, index, keyBuffer), other);
      EnterSplits(before[x], index, keyBuffer, link);
      sep := SplitNode(x, index, keyBuffer, link, other);
      ShapeGrows(sh, x, sep.ord, other);
      shape := SplitShape(sh, x, sep.ord, other);
    }

    /** The root has no room: both halves get a new root above them. */
    method SplitRoot(ghost stack: seq<Frame>, key: Key, value: int, x: int, index: int, keyBuffer: Key, link: int)
      requires Climbing(stack, key, value, keyBuffer, link) && Reaches(stack, x, index, keyBuffer) && |stack| == 1
      requires Full(x, index, keyBuffer) && x == rootNode
      modifies this
      ensures iterators == old(iterators)
      ensures others == old(others) && contents == old(contents)[key.ord := value]
      ensures Valid()
      ensures KeysGrow(old(pages), old(shape), pages, shape, keyBuffer, old(shape.level[x]))
      ensures old(shape.level).Keys < shape.level.Keys && x in shape.level
    {
      hide KeysGrow, Inserting, Conserved, NodesOk, SizesOk, LastIsNode, InsertsAt, SplitSafe, SplitPages, Tree, Agrees, Housed,
        AtRest, Lens, KeyBytes, Used, InsertPair, SplitShape, GrownShape, Separator, LeftCount;
      AtSplit(pages, shape, rootNode, levels, stack, key, value, x, index, keyBuffer, link, contents);
      HousedParts(pages, freeNode, maximumSize, shape, freeList, others);
      NullIsNoPage(pages, freeNode, maximumSize, shape.level.Keys + others.Keys, freeList);
      ghost var before, sh := pages, shape;
      var newRoot := Allocate(shape.level.Keys + others.Keys);
      var other := Allocate(shape.level.Keys + others.Keys + {newRoot});
      RootSplitRests(before, rootNode, levels, freeNode, maximumSize, sh, freeList, others, contents,
                     stack, key, value, index, keyBuffer, link, newRoot, other);
      RootSplitKeys(before, rootNode, levels, sh, index, keyBuffer, link, newRoot, other);
      var sep := SplitNode(x, index, keyBuffer, link, other);
      ShapeGrowsTaller(sh, x, sep.ord, other, newRoot, levels);
      PutRoot(newRoot, sep, other, x, GrownShape(SplitShape(sh, x, sep.ord, other), newRoot, levels), contents[key.ord := value]);
    }

    /** The page at `newRoot` becomes the root, with two children. */
    method PutRoot(newRoot: int, sep: Key, other: int, x: int, ghost sh: Shape, ghost m: map<real, int>)
      requires newRoot in pages && pages[newRoot] == EMPTY_NODE
      requires AtRest(pages[newRoot := RootAbove(EMPTY_NODE, sep, other, x)], newRoot, levels + 1, freeNode, maximumSize,
                      sh, freeList, others, m)
      modifies this`pages, this`rootNode, this`levels, this`shape, this`contents
      ensures pages == old(pages)[newRoot := RootAbove(EMPTY_NODE, sep, other, x)]
      ensures shape == sh && contents == m && Valid()
    {
      hide AtRest;
      pages := pages[newRoot := RootAbove(pages[newRoot], sep, other, x)];
      rootNode := newRoot;
      levels := levels + 1;
      shape, contents := sh, m;
    }

    ghost predicate Full(x: int, index: int, keyBuffer: Key)
      requires x in pages && SizeOk(pages[x]) && 0 <= index <= |pages[x].keys|
      reads this
    {
      && Used(|pages[x].keys| + 1, KeyBytes(pages[x].keys) + |keyBuffer.bytes|) >= NODE_SIZE
      && SplitSafe(Lens(pages[x].keys), index, |keyBuffer.bytes|, pages[x].overflow == NULL)
    }

    /** One round of Insert: the pair goes into the page, which may have to be split for it. */
    method EnterPair(ghost stack: seq<Frame>, key: Key, value: int, x: int, index: int, keyBuffer: Key, link: int)
      returns (done: bool, status: Status, sep: Key, other: int)
      requires Climbing(stack, key, value, keyBuffer, link) && Reaches(stack, x, index, keyBuffer)
      requires x == rootNode <==> |stack| == 1
      modifies this, iterators`node, iterators`index, iterators`cut
      ensures iterators == old(iterators)
      ensures others == old(others)
      ensures done ==> status == Ok || status == SplitLost
      ensures done && status == Ok ==> Valid() && contents == old(contents)[key.ord := value]
      ensures old(ShortTree(pages, shape)) && |keyBuffer.bytes| <= SHORT_KEY ==> !(done && status == SplitLost)
      ensures KeysGrow(old(pages), old(shape), pages, shape, keyBuffer, old(shape.level[x]))
      ensures !done ==> KeyKnown(old(pages), old(shape), old(shape.level[x]), sep, keyBuffer)
      ensures !done ==> |stack| >= 2 && contents == old(contents) && levels == old(levels)
                        && Climbing(stack[..|stack| - 1], key, value, sep, other)
      ensures shape == old(shape) || old(shape.level).Keys < shape.level.Keys
      ensures !done ==> shape != old(shape)
      ensures done && status == Ok && shape == old(shape) && |stack| == old(levels) ==>
                forall it :: it in iterators && old(Tracked(it)) ==>
                  Tracked(it) && AddStep(old(contents), old(it.cut), key.ord, it.cut)
      ensures old(HasRoom(pages[x], keyBuffer)) ==> done && status == Ok && shape == old(shape)
      ensures KeyPut(old(pages), x, index, keyBuffer, pages)
      ensures old(HasRoom(pages[x], keyBuffer)) ==> rootNode == old(rootNode) && levels == old(levels)
      ensures Enter(old(pages)[x], index, keyBuffer) == Lost <==> done && status == SplitLost
      ensures done && status == Ok ==> Enter(old(pages)[x], index, keyBuffer).Fits? || |stack| == 1
      ensures !done ==> Enter(old(pages)[x], index, keyBuffer) == Up(sep) && UpperSame(old(pages), pages, stack)
    {
      hide ShortKeys, Inserting, Housed, Tree, Agrees, LastIsNode, InsertsAt, IsPath, Used, SplitSafe, KeyBytes, Lens, SizeOk, NodesOk;
      hide AddReady, AtCut, AddStep, Updated, Filled, Enter, UpperSame, KeyPut, KeysGrow, KeyKnown;
      sep, other := keyBuffer, link;
      var node := pages[x];
      ghost var was := pages;
      ReachedPage(stack, x, index, keyBuffer);
      if HasRoom(node, keyBuffer) {
        EnterFits(node, index, keyBuffer);
        FillAndTell(stack, key, value, x, index, keyBuffer, link);
        return true, Ok, sep, other;
      }
      if !SplitSafe(Lens(node.keys), index, |keyBuffer.bytes|, node.overflow == NULL) {
        LongKeyLost(node, index, keyBuffer);
        EnterLoses(node, index, keyBuffer);
        NotPut(was, x, index, keyBuffer, pages);
        KeptRefl(pages, shape, keyBuffer);
        GrowHigher(pages, shape, keyBuffer, shape.level[x]);
        return true, SplitLost, sep, other;
      }
      SplitGoesUp(node, index, keyBuffer, link);
      if x == rootNode {
        SplitRoot(stack, key, value, x, index, keyBuffer, link);
        RestingNodes();
        SplitKept(x);
        UpdateIterators(x, pages[x].left, index, |pages[x].keys|, 1);
        NotPut(was, x, index, keyBuffer, pages);
        return true, Ok, sep, other;
      }
      sep, other := SplitBelowRoot(stack, key, value, x, index, keyBuffer, link);
      ClimbingNodes(stack[..|stack| - 1], key, value, sep, other);
      SplitKept(x);
      UpdateIterators(x, other, index, |pages[x].keys|, 1);
      NotPut(was, x, index, keyBuffer, pages);
      return false, Ok, sep, other;
    }

    lemma ReachedPage(stack: seq<Frame>, x: int, index: int, keyBuffer: Key)
      requires Reaches(stack, x, index, keyBuffer)
      ensures |pages[x].keys| == |pages[x].values|
    {
    }

    lemma SplitGoesUp(node: Page, i: int, key: Key, link: int)
      requires node.Node? && SizeOk(node) && |node.keys| == |node.values|
      requires LengthOk(key) && 0 <= i <= |node.keys| && !HasRoom(node, key)
      requires SplitSafe(Lens(node.keys), i, |key.bytes|, node.overflow == NULL)
      ensures Enter(node, i, key).Up?
    {
      hide LeftCount, Used, KeyBytes, Enter, LeftSafe, RightSafe, Lens;
      LeftSize(node, i, key, link, 0);
      EnterSplits(node, i, key, link);
    }

    /** The page has room: the pair goes in, and iterators in the page are told. */
    method FillAndTell(ghost stack: seq<Frame>, key: Key, value: int, x: int, index: int, keyBuffer: Key, link: int)
      requires Climbing(stack, key, value, keyBuffer, link) && Reaches(stack, x, index, keyBuffer)
      requires HasRoom(pages[x], keyBuffer)
      modifies this`pages, this`contents, iterators`node, iterators`index, iterators`cut
      ensures Valid() && contents == old(contents)[key.ord := value]
      ensures KeyPut(old(pages), x, index, keyBuffer, pages)
      ensures KeysGrow(old(pages), shape, pages, shape, keyBuffer, shape.level[x])
      ensures |stack| == levels ==> forall it :: it in iterators && old(Tracked(it)) ==>
                Tracked(it) && AddStep(old(contents), old(it.cut), key.ord, it.cut)
    {
      hide KeysGrow, Inserting, Housed, AtRest, LastIsNode, InsertsAt, Used, KeyBytes, SizeOk, AddReady, AtCut, AddStep, Updated, Filled, KeyPut;
      ghost var before, m, spots := pages, contents, map it | it in iterators :: it.At();
      if |stack| == levels {
        ReadyToAdd(stack, key, value, x, index, keyBuffer, link);
      }
      FillPageRests(stack, key, value, x, index, keyBuffer, link);
      FillPage(stack, key, value, x, index, keyBuffer, link);
      FilledKeys(before, x, index, keyBuffer, link);
      UpdateIterators(x, NULL, index, 0, 1);
      if |stack| == levels {
        SettleAdded(before, spots, m, x, index, keyBuffer, link);
      }
    }

    lemma ReadyToAdd(stack: seq<Frame>, key: Key, value: int, x: int, index: int, keyBuffer: Key, link: int)
      requires Climbing(stack, key, value, keyBuffer, link) && Reaches(stack, x, index, keyBuffer) && |stack| == levels
      ensures AddReady(pages, shape, rootNode, levels, contents, x, index, keyBuffer) && key == keyBuffer
    {
      assert OnPath(pages, shape, levels, stack, |stack| - 1, key.ord);
    }

    lemma ClimbingNodes(stack: seq<Frame>, key: Key, value: int, keyBuffer: Key, link: int)
      requires Climbing(stack, key, value, keyBuffer, link)
      ensures NodesOk(pages, shape)
    {
    }

    /** The page split is still there. */
    lemma SplitKept(x: int)
      requires NodesOk(pages, shape) && x in shape.level
      ensures x in pages && pages[x].Node?
    {
      assert NodeOk(pages, shape, x);
    }

    // ---- Iterators ----

    /** The iterator is at its cut. */
    ghost predicate Tracked(it: TreeIterator)
      reads this, it
    {
      it in iterators && AtCut(pages, shape, it.At(), it.cut)
    }

    method UpdateIterators(offset: int, nextOffset: int, keyIndex: int, splitAt: int, change: int)
      modifies iterators`node, iterators`index
      ensures forall it :: it in iterators ==>
                it.At() == Updated(old(it.At()), offset, nextOffset, keyIndex, splitAt, change)
    {
      hide Updated;
      var todo := iterators;
      while todo != {}
        invariant todo <= iterators
        invariant forall it :: it in todo ==> it.At() == old(it.At())
        invariant forall it :: it in iterators - todo ==>
          it.At() == Updated(old(it.At()), offset, nextOffset, keyIndex, splitAt, change)
        decreases todo
      {
        var it :| it in todo;
        it.Update(offset, nextOffset, keyIndex, splitAt, change);
        todo := todo - {it};
      }
    }

    ghost method SettleAdded(before: Pages, spots: map<TreeIterator, Spot>, m: map<real, int>, x: int, index: int,
                             key: Key, value: int)
      requires AddReady(before, shape, rootNode, levels, m, x, index, key) && Valid()
      requires x in before && before[x].Node? && 0 <= index <= |before[x].keys| == |before[x].values|
      requires pages == Filled(before, x, index, key, value)
      requires forall it :: it in iterators ==> it in spots && it.At() == Updated(spots[it], x, NULL, index, 0, 1)
      modifies iterators`cut
      ensures forall it :: it in iterators && AtCut(before, shape, spots[it], old(it.cut)) ==>
                Tracked(it) && AddStep(m, old(it.cut), key.ord, it.cut)
    {
      hide AddReady, AtCut, AddStep, Updated, Filled, AtRest, CutAfterAdd;
      assert x in shape.lo && NodesOk(pages, shape) by { RestingNodes(); AddReadyPage(before, shape, rootNode, levels, m, x, index, key); }
      forall it | it in iterators {
        it.cut := CutAfterAdd(before, shape, spots[it], it.cut, x, index, key.ord);
      }
      forall it | it in iterators && AtCut(before, shape, spots[it], old(it.cut))
        ensures Tracked(it) && AddStep(m, old(it.cut), key.ord, it.cut)
      {
        AddMovesSpot(before, shape, rootNode, levels, m, spots[it], old(it.cut), x, index, key, value);
      }
    }

    lemma RestingNodes()
      requires Valid()
      ensures NodesOk(pages, shape)
    {
    }

    lemma AddReadyPage(before: Pages, sh: Shape, root: int, levels: nat, m: map<real, int>, x: int, index: int, key: Key)
      requires AddReady(before, sh, root, levels, m, x, index, key)
      ensures x in sh.lo
    {
    }

    lemma RoomForLeaf(stack: seq<Frame>, key: Key, value: int, keyBuffer: Key, link: int)
      requires Climbing(stack, key, value, keyBuffer, link)
      ensures |stack| == levels && RoomFor(pages, shape, key) ==>
                && |stack| > 0 && stack[|stack| - 1].node in pages && pages[stack[|stack| - 1].node].Node?
                && HasRoom(pages[stack[|stack| - 1].node], keyBuffer)
    {
      assert OnPath(pages, shape, levels, stack, |stack| - 1, key.ord);
    }

    lemma FilledKeys(before: Pages, x: int, index: int, key: Key, value: int)
      requires x in before && before[x].Node? && 0 <= index <= |before[x].keys| == |before[x].values|
      ensures KeyPut(before, x, index, key, Filled(before, x, index, key, value))
    {
    }

    method RoomAt(key: Key) returns (room: bool)
      requires Valid() && LengthOk(key) && 0.0 <= key.ord < 1.0
      ensures room ==> RoomFor(pages, shape, key)
    {
      hide Used, KeyBytes, Agrees, Housed;
      var stack := SeekDown(key);
      var x := stack[|stack| - 1].node;
      assert OnPath(pages, shape, levels, stack, |stack| - 1, key.ord);
      assert NodeOk(pages, shape, x);
      room := HasRoom(pages[x], key);
      forall p | p in shape.level && shape.level[p] == 0 && shape.lo[p] < key.ord <= shape.hi[p] ensures p == x {
        assert p != x ==> Apart(shape, p, x);
      }
    }

    /** Adds a pair whose key is new; splits pages as needed, from the leaf up. */
    method Insert(key: Key, value: int) returns (status: Status)
      requires Valid() && 0.0 <= key.ord < 1.0
      modifies this, iterators`node, iterators`index, iterators`cut
      ensures status == BadValue <==> !LengthOk(key)
      ensures LengthOk(key) ==> (status == NameInUse <==> key.ord in old(contents))
      ensures status == Ok || status == BadValue || status == NameInUse || status == SplitLost
      ensures status == BadValue || status == NameInUse ==> pages == old(pages) && contents == old(contents)
      ensures status == Ok ==> contents == old(contents)[key.ord := value]
      ensures status != SplitLost ==> Valid()
      ensures others == old(others) && iterators == old(iterators)
      ensures status == Ok && shape == old(shape) ==> forall it :: it in iterators && old(Tracked(it)) ==>
                Tracked(it) && AddStep(old(contents), old(it.cut), key.ord, it.cut)
      ensures LengthOk(key) && key.ord !in old(contents) ==>
                (status == SplitLost <==> old(FateBelow(pages, rootNode, levels - 1, key)) == Lost)
      ensures status == Ok && old(OneLeafHasRoom(pages, rootNode, levels, key)) ==>
                levels == 1 && rootNode == old(rootNode) && KeyAdded(old(pages), rootNode, key, pages)
      ensures old(RoomFor(pages, shape, key)) ==> status != SplitLost && shape == old(shape)
      ensures old(ShortTree(pages, shape)) && |key.bytes| <= SHORT_KEY ==> status != SplitLost && ShortTree(pages, shape)
      ensures KeysGrow(old(pages), old(shape), pages, shape, key, 0)
      ensures status == Ok ==> NamesGain(key)
    {
      hide ShortKeys, Inserting, Housed, Tree, Agrees, LastIsNode, InsertsAt, IsPath, Used, SplitSafe, KeyBytes, Lens, SizeOk, NodesOk;
      hide AtCut, AddStep, RoomFor, HasRoom, Enter, Loses, FateBelow, StackSame, UpperSame, FrameSame, KeyPut, KeyAdded,
        KeysGrow, KeyKnown, ShortTree, TreeKeys.Named;
      StartKnown(pages, shape, key);
      if !LengthOk(key) {
        return BadValue;
      }
      var stack := SeekDown(key);
      StartClimbing(stack, key, value);
      var keyBuffer, link := key, value;
      SamePath(stack, key, value);
      ghost var before, sh, whole, lost := pages, shape, stack, FateBelow(pages, rootNode, levels - 1, key) == Lost;
      while true
        invariant Climbing(stack, key, value, keyBuffer, link) && |stack| > 0
        invariant if |stack| == levels then Valid() && pages == old(pages) else key.ord !in contents
        invariant others == old(others) && contents == old(contents) && iterators == old(iterators)
        invariant |stack| < levels ==> old(shape.level).Keys < shape.level.Keys && !old(RoomFor(pages, shape, key))
        invariant |stack| == levels ==> shape == old(shape) && stack == whole && pages == before
        invariant |stack| == levels ==> (lost <==> FateBelow(pages, rootNode, levels - 1, key) == Lost)
        invariant levels == old(levels) && (|stack| == levels ==> rootNode == old(rootNode))
        invariant StackSame(before, pages, stack)
        invariant |stack| < levels ==> (lost <==> Loses(before, stack, stack[|stack| - 1].index, keyBuffer))
        invariant |stack| == levels ==> forall it :: it in iterators ==> it.At() == old(it.At()) && it.cut == old(it.cut)
        invariant KeysGrow(before, sh, pages, shape, key, 0) && |stack| <= levels && KeyKnown(before, sh, levels - |stack|, keyBuffer, key)
        decreases |stack|
      {
        ghost var path := stack;
        var frame := stack[|stack| - 1];
        LastPage(path, key, value, keyBuffer, link);
        stack := stack[..|stack| - 1];
        var node, index := pages[frame.node], frame.index;
        if node.overflow == NULL {
          var found, i, _ := FindKey(node, key);
          if found {
            return NameInUse;
          }
          index := i;
        }
        RoomForLeaf(path, key, value, keyBuffer, link);
        PlaceFound(path, key, value, keyBuffer, link, index);
        LosesHere(before, path, key, value, keyBuffer, link, index, whole, lost);
        ghost var mid, shMid, entered := pages, shape, keyBuffer;
        ShortSoFar(before, sh, path, key, value, keyBuffer, link);
        var done;
        done, status, keyBuffer, link := EnterPair(path, key, value, frame.node, index, keyBuffer, link);
        LastSame(before, mid, path);
        LosesNext(before, mid, path, index, entered);
        GrowTrans(before, sh, mid, shMid, pages, shape, entered, shMid.level[frame.node], key);
        if done {
          AddedAlone(before, mid, frame.node, index, entered, pages);
          ShortAtEnd(before, sh, key, status);
          NamesAdded(before, sh, old(contents), key, value);
          return;
        }
        KnownTrans(before, sh, mid, shMid, keyBuffer, entered, shMid.level[frame.node], key);
        KnownHigher(before, sh, shMid.level[frame.node], levels - |stack|, keyBuffer, key);
        FramesStay(before, mid, pages, path);
      }
    }

    lemma StartKnown(before: Pages, sh: Shape, key: Key)
      ensures KeysGrow(before, sh, before, sh, key, 0) && KeyKnown(before, sh, 0, key, key)
    {
    }

    /** On the way up, pages and the key are short if they were at the beginning. */
    lemma ShortSoFar(before: Pages, sh: Shape, stack: seq<Frame>, key: Key, value: int, keyBuffer: Key, link: int)
      requires Climbing(stack, key, value, keyBuffer, link) && |stack| <= levels
      requires KeysGrow(before, sh, pages, shape, key, 0) && KeyKnown(before, sh, levels - |stack|, keyBuffer, key)
      ensures ShortTree(before, sh) && |key.bytes| <= SHORT_KEY ==> ShortTree(pages, shape) && |keyBuffer.bytes| <= SHORT_KEY
    {
      hide KeysGrow, KeyKnown, ShortTree, Inserting, Housed;
      ClimbingNodes(stack, key, value, keyBuffer, link);
      if ShortTree(before, sh) && |key.bytes| <= SHORT_KEY {
        StaysShort(before, sh, pages, shape, key);
        KnownIsShort(before, sh, levels - |stack|, keyBuffer, key);
      }
    }

    /** The keys in the leaves, by their places. */
    ghost predicate Named(names: map<real, Key>)
      reads this
    {
      TreeKeys.Named(pages, shape, contents, names)
    }

    lemma NamesAdded(before: Pages, sh: Shape, m: map<real, int>, key: Key, value: int)
      requires KeysGrow(before, sh, pages, shape, key, 0) && key.ord !in m
      ensures contents == m[key.ord := value] ==>
                forall names :: TreeKeys.Named(before, sh, m, names) ==> Named(names[key.ord := key])
    {
      hide KeysGrow, TreeKeys.Named;
      forall names | contents == m[key.ord := value] && TreeKeys.Named(before, sh, m, names) ensures Named(names[key.ord := key]) {
        NamedAfterAdd(before, sh, m, names, pages, shape, key, value);
      }
    }

    /** The names are those from before, and the key. */
    twostate predicate NamesGain(key: Key)
      reads this
    {
      forall names :: old(Named(names)) ==> Named(names[key.ord := key])
    }

    /** The names are those from before, but for keys that are gone. */
    twostate predicate NamesLose()
      reads this
    {
      forall names :: old(Named(names)) ==> Named(names - (old(contents).Keys - contents.Keys))
    }

    twostate lemma NamesDropped(ord: real)
      requires Valid() && KeysKept(old(pages), old(shape), pages, shape)
      requires if ord in old(contents) then contents == old(contents) - {ord} else TookNeighbour(old(contents), contents)
      ensures NamesLose()
    {
      hide KeysKept, TreeKeys.Named, AtRest;
      RestingNodes();
      RestingTree();
      forall names | old(Named(names)) ensures Named(names - (old(contents).Keys - contents.Keys)) {
        NamedAfterDrop(old(pages), old(shape), old(contents), names, pages, shape, contents);
      }
    }

    lemma ShortAtEnd(before: Pages, sh: Shape, key: Key, status: Status)
      requires (status == Ok ==> Valid()) && KeysGrow(before, sh, pages, shape, key, 0)
      ensures status == Ok && ShortTree(before, sh) && |key.bytes| <= SHORT_KEY ==> ShortTree(pages, shape)
    {
      hide KeysGrow, ShortTree, AtRest;
      if status == Ok && ShortTree(before, sh) && |key.bytes| <= SHORT_KEY {
        RestingNodes();
        StaysShort(before, sh, pages, shape, key);
      }
    }

    lemma SamePath(stack: seq<Frame>, key: Key, value: int)
      requires Climbing(stack, key, value, key, value) && |stack| == levels
      ensures StackSame(pages, pages, stack)
    {
      forall j | 0 <= j < |stack| ensures FrameSame(pages, pages, stack, j) {
        assert OnPath(pages, shape, levels, stack, j, key.ord);
        assert NodeOk(pages, shape, stack[j].node);
      }
    }

    /** Whether the rest of the way loses data is what the whole way was found to do. */
    lemma LosesHere(before: Pages, path: seq<Frame>, key: Key, value: int, keyBuffer: Key, link: int, index: int, whole: seq<Frame>,
                    lost: bool)
      requires path != [] && Climbing(path, key, value, keyBuffer, link) && Reaches(path, path[|path| - 1].node, index, keyBuffer)
      requires |path| == levels ==> path == whole && pages == before && (lost <==> FateBelow(pages, rootNode, levels - 1, key) == Lost)
      requires |path| < levels ==> (lost <==> Loses(before, path, path[|path| - 1].index, keyBuffer))
      ensures lost <==> Loses(before, path, index, keyBuffer)
    {
      hide Loses, FateBelow, Housed;
      if |path| == levels {
        PathLoses(pages, shape, rootNode, levels, path, key, index);
      }
    }

    // ---- Remove ----

    /** Remove is at the last page of `stack`. */
    ghost predicate Descending(stack: seq<Frame>, gap: Gap, ord: real)
      reads this
    {
      && Removing(pages, shape, rootNode, levels, stack, gap, ord, contents)
      && Housed(pages, freeNode, maximumSize, shape, freeList, others)
    }

    /** Takes entry `index` out of a page that keeps another one, or of an index page. */
    method RemoveKey(x: int, index: int)
      requires x in pages && pages[x].Node? && 0 <= index <= |pages[x].keys| == |pages[x].values|
      requires |pages[x].keys| > 0 && (pages[x].overflow == NULL ==> index < |pages[x].keys|)
      modifies this`pages
      ensures pages == old(pages)[x := RemoveSlot(old(pages)[x], index)]
    {
      var node, i := pages[x], index;
      if node.overflow != NULL && i == |node.keys| {
        i := i - 1;
        node := node.(overflow := node.values[i]);
      }
      pages := pages[x := RemovePair(node, i)];
    }

    /** Takes the page out of its list, and out of the file or to the free pages. */
    method DropPage(x: int, ghost used: set<int>)
      requires x in pages && pages[x].Node? && NULL !in pages
      requires pages[x].left != x && pages[x].right != x
      requires pages[x].left != NULL ==> pages[x].left in used && pages[x].left in pages && pages[pages[x].left].Node?
      requires pages[x].right != NULL ==> pages[x].right in used && pages[x].right in pages && pages[pages[x].right].Node?
      requires Conserved(pages, freeNode, maximumSize, used, freeList) && x in used
      modifies this`pages, this`freeNode, this`maximumSize, this`freeList
      ensures pages - {x} == UnlinkPages(old(pages), x) - {x}
      ensures Conserved(pages, freeNode, maximumSize, used - {x}, freeList)
    {
      ghost var before := pages;
      var l, r := pages[x].left, pages[x].right;
      if l != NULL {
        pages := pages[l := pages[l].(right := r)];
      }
      if r != NULL {
        pages := pages[r := pages[r].(left := l)];
      }
      EditKeepsConserved(before, pages, freeNode, maximumSize, used, freeList);
      Free(x, used);
    }

    /** The root has run out of keys: it is an empty leaf from now on. */
    method EmptyRoot(ghost stack: seq<Frame>, ghost gap: Gap, ghost ord: real, ghost r: Removal)
      requires Descending(stack, gap, ord) && |stack| == 1 && LastIs(pages, stack, rootNode)
      requires levels >= 1 && (levels == 1 ==> Valid() && |pages[rootNode].keys| <= 1)
      requires levels > 1 ==> |pages[rootNode].keys| == 0
      requires r.ord in r.contents ==> OnRecord(r, levels > 1)
      requires r.ord in r.contents && levels == 1 ==> r.leaf == rootNode && r.at == 0 && |pages[rootNode].keys| == 1
      modifies this`pages, this`levels, this`shape, this`contents, iterators`cut
      ensures Valid()
      ensures contents == if old(levels) == 1 && |old(pages[rootNode]).keys| == 1
                          then old(contents) - {old(pages[rootNode]).keys[0].ord} else old(contents)
      ensures old(levels) == 1 && |old(pages[rootNode]).keys| == 1 ==> old(pages[rootNode]).keys[0].ord in old(contents)
      ensures r.ord in r.contents ==> Settled(r)
      ensures KeysKept(old(pages), old(shape), pages, shape)
    {
      hide *;
      ghost var sh, m := EmptyRootRests(stack, gap, ord);
      ghost var before, shBefore := pages, shape;
      if r.ord in r.contents { Record(r, levels > 1); }
      pages := pages[rootNode := pages[rootNode].(overflow := NULL, keys := [], values := [])];
      if levels != 1 {
        levels := 1;
      }
      shape, contents := sh, m;
      ValidIs();
      if r.ord in r.contents {
        RecordDone(r, before, shBefore, old(levels) > 1, rootNode);
        SettleTaken(r);
      }
    }

    lemma ValidIs()
      ensures Valid() <==> AtRest(pages, rootNode, levels, freeNode, maximumSize, shape, freeList, others, contents)
    {
    }

    lemma EmptyRootRests(stack: seq<Frame>, gap: Gap, ord: real) returns (sh: Shape, m: map<real, int>)
      requires Descending(stack, gap, ord) && |stack| == 1 && LastIs(pages, stack, rootNode)
      requires levels >= 1 && (levels == 1 ==> Valid() && |pages[rootNode].keys| <= 1)
      requires levels > 1 ==> |pages[rootNode].keys| == 0
      ensures rootNode in pages && pages[rootNode].Node?
      ensures var pages' := pages[rootNode := pages[rootNode].(overflow := NULL, keys := [], values := [])];
              && AtRest(pages', rootNode, 1, freeNode, maximumSize, sh, freeList, others, m)
              && (levels == 1 && |pages[rootNode].keys| == 1 ==>
                  LeavesKept(pages, shape, pages', sh, rootNode) && LeafTaken(pages, shape, pages', sh, rootNode, 0))
              && (levels > 1 ==> LeavesKept(pages, shape, pages', sh, NULL))
              && KeysKept(pages, shape, pages', sh)
      ensures sh.level.Keys <= shape.level.Keys
      ensures m == if levels == 1 && |pages[rootNode].keys| == 1 then contents - {pages[rootNode].keys[0].ord} else contents
      ensures levels == 1 && |pages[rootNode].keys| == 1 ==> pages[rootNode].keys[0].ord in contents
    {
      hide Removing, Housed, AtRest, KeysKept, LeavesKept, LeafTaken, NodesOk, LinksOk, Laminar, ChildrenOk, TreeExcept, Agrees, LeavesFull;
      hide IsUnlinked;
      var pages' := pages[rootNode := pages[rootNode].(overflow := NULL, keys := [], values := [])];
      EmptiedKeys(pages, shape, rootNode);
      AtRemoval(pages, shape, rootNode, levels, stack, gap, ord, contents);
      RemovingNodes(stack, gap, ord);
      if levels != 1 {
        RootRemovalRests(pages, rootNode, levels, freeNode, maximumSize, shape, freeList, others, contents, stack, gap, ord);
        sh, m := Shape(map[rootNode := 0], map[rootNode := -1.0], map[rootNode := 1.0]), contents;
        RestNodes(pages', rootNode, 1, freeNode, maximumSize, sh, freeList, others, m);
        RootEmptied(pages, shape, rootNode, levels, stack, gap, ord, contents);
        NoLeavesToKeep(pages, shape, pages', sh, rootNode);
      } else {
        RootLeafRests(pages, rootNode, levels, freeNode, maximumSize, shape, freeList, others, contents);
        sh, m := shape, if |pages[rootNode].keys| == 1 then contents - {pages[rootNode].keys[0].ord} else contents;
        if |pages[rootNode].keys| == 1 {
          RestNodes(pages', rootNode, 1, freeNode, maximumSize, sh, freeList, others, m);
          LeafIsEmptied(pages, shape, rootNode);
        }
      }
    }

    lemma RemovingNodes(stack: seq<Frame>, gap: Gap, ord: real)
      requires Descending(stack, gap, ord)
      ensures NodesOk(pages, shape) && ShapeOk(shape)
    {
    }

    /** The page keeps something: the key goes and the climb ends. */
    method RemoveInPage(ghost stack: seq<Frame>, ghost gap: Gap, ghost ord: real, x: int, index: int, ghost r: Removal)
      requires Descending(stack, gap, ord) && LastIs(pages, stack, x) && 0 <= index <= |pages[x].keys|
      requires |stack| == levels ==> Valid() && index < |pages[x].keys| && |pages[x].keys| > 1
      requires |stack| < levels ==> LeavesFull(pages, shape) && |pages[x].keys| > 0 && index == stack[|stack| - 1].index
      requires r.ord in r.contents ==> OnRecord(r, |stack| < levels)
      requires r.ord in r.contents && |stack| == levels ==> r.leaf == x && r.at == index
      modifies this`pages, this`shape, this`contents, iterators`cut
      ensures Valid()
      ensures |stack| == levels ==> old(pages)[x].keys[index].ord in old(contents)
                                    && contents == old(contents) - {old(pages)[x].keys[index].ord}
      ensures |stack| < levels ==> contents == old(contents)
      ensures r.ord in r.contents ==> Settled(r)
      ensures KeysKept(old(pages), old(shape), pages, shape)
    {
      hide *;
      ghost var sh, m := InPageRests(stack, gap, ord, x, index);
      ghost var before, shBefore := pages, shape;
      if r.ord in r.contents { Record(r, |stack| < levels); }
      RemoveKey(x, index);
      shape, contents := sh, m;
      ValidIs();
      if r.ord in r.contents {
        RecordDone(r, before, shBefore, |stack| < levels, x);
        SettleTaken(r);
      }
    }

    lemma InPageRests(stack: seq<Frame>, gap: Gap, ord: real, x: int, index: int) returns (sh: Shape, m: map<real, int>)
      requires Descending(stack, gap, ord) && LastIs(pages, stack, x) && 0 <= index <= |pages[x].keys|
      requires |stack| == levels ==> Valid() && index < |pages[x].keys| && |pages[x].keys| > 1
      requires |stack| < levels ==> LeavesFull(pages, shape) && |pages[x].keys| > 0 && index == stack[|stack| - 1].index
      ensures x in pages && pages[x].Node? && |pages[x].keys| == |pages[x].values| && |pages[x].keys| > 0
      ensures |stack| <= levels && (pages[x].overflow == NULL ==> index < |pages[x].keys|)
      ensures var pages' := pages[x := RemoveSlot(pages[x], index)];
              && AtRest(pages', rootNode, levels, freeNode, maximumSize, sh, freeList, others, m)
              && (|stack| == levels ==> pages[x].keys[index].ord in contents
                                        && m == contents - {pages[x].keys[index].ord}
                                        && LeavesKept(pages, shape, pages', sh, x)
                                        && LeafTaken(pages, shape, pages', sh, x, index))
              && (|stack| < levels ==> m == contents && LeavesKept(pages, shape, pages', sh, NULL))
              && KeysKept(pages, shape, pages', sh)
      ensures sh.level == shape.level
    {
      hide Removing, Housed, AtRest, KeysKept, LeavesKept, LeafTaken, NodesOk, LeavesFull, RemoveSlot, RemovePair;
      AtRemoval(pages, shape, rootNode, levels, stack, gap, ord, contents);
      RemovingNodes(stack, gap, ord);
      if |stack| == levels {
        sh, m := shape, contents - {pages[x].keys[index].ord};
        SlotIsPair(pages[x], index);
        LeafRemovalRests(pages, rootNode, levels, freeNode, maximumSize, shape, freeList, others, contents, x, index);
        RestNodes(pages[x := RemoveSlot(pages[x], index)], rootNode, levels, freeNode, maximumSize, sh, freeList, others, m);
        TakenInPlace(pages, shape, x, index);
      } else {
        sh, m := CloseShape(shape, gap, index < |pages[x].keys|), contents;
        GapRemovalRests(pages, rootNode, levels, freeNode, maximumSize, shape, freeList, others, contents, stack, gap, ord);
        RestNodes(pages[x := RemoveSlot(pages[x], index)], rootNode, levels, freeNode, maximumSize, sh, freeList, others, m);
        GapIsOpen(pages, shape, rootNode, levels, stack, gap, ord, contents);
        ClosingKeepsLeaves(pages, shape, gap, index < |pages[x].keys|, x, RemoveSlot(pages[x], index));
      }
      RemoveSlotKeys(pages, shape, x, index, sh);
    }

    /** The page has nothing left: it is freed, and the climb goes on with its parent. */
    method DropAndClimb(ghost stack: seq<Frame>, ghost gap: Gap, ghost ord: real, x: int, ghost r: Removal)
      returns (ghost gap': Gap)
      requires Descending(stack, gap, ord) && LastIs(pages, stack, x) && |stack| >= 2
      requires |pages[x].keys| == if |stack| == levels then 1 else 0
      requires r.ord in r.contents ==> OnRecord(r, |stack| < levels)
      requires r.ord in r.contents && |stack| == levels ==> r.leaf == x && r.at == 0
      modifies this`pages, this`freeNode, this`maximumSize, this`freeList, this`shape, this`contents
      ensures Descending(stack[..|stack| - 1], gap', ord)
      ensures old(LeavesFull(pages, shape)) ==> LeavesFull(pages, shape)
      ensures |stack| == levels ==> |old(pages[x]).keys| == 1 && old(pages[x]).keys[0].ord in old(contents)
                                    && contents == old(contents) - {old(pages[x]).keys[0].ord}
      ensures |stack| < levels ==> contents == old(contents)
      ensures r.ord in r.contents ==> OnRecord(r, true)
      ensures KeysKept(old(pages), old(shape), pages, shape)
    {
      hide *;
      ReadyToDrop(stack, gap, ord, x);
      ghost var before, sh, m := pages, shape, contents;
      if r.ord in r.contents { Record(r, |stack| < levels); }
      DropPage(x, shape.level.Keys + others.Keys);
      gap' := Gap(gap.height + 1, sh.lo[x], sh.hi[x]);
      ghost var m' := if |stack| == levels then m - {before[x].keys[0].ord} else m;
      ghost var sh' := DropShape(sh, x);
      DropDone(before, sh, m, sh', m', stack, gap, gap', ord, x);
      shape, contents := sh', m';
      DescendingIs(stack[..|stack| - 1], gap', ord);
      if r.ord in r.contents {
        RecordDone(r, before, sh, |stack| < levels, x);
        RecordOn(r);
      }
    }

    lemma DescendingIs(stack: seq<Frame>, gap: Gap, ord: real)
      requires Removing(pages, shape, rootNode, levels, stack, gap, ord, contents)
      requires Housed(pages, freeNode, maximumSize, shape, freeList, others)
      ensures Descending(stack, gap, ord)
    {
    }

    lemma DropDone(before: Pages, sh: Shape, m: map<real, int>, sh': Shape, m': map<real, int>,
                   stack: seq<Frame>, gap: Gap, gap': Gap, ord: real, x: int)
      requires Removing(before, sh, rootNode, levels, stack, gap, ord, m) && LastIs(before, stack, x) && |stack| >= 2
      requires |before[x].keys| == if |stack| == levels then 1 else 0
      requires SizesOk(before, sh) && sh.level.Keys !! others.Keys && x in sh.level && x in sh.lo && x in sh.hi
      requires OthersAre(before, others) && NULL !in before
      requires pages - {x} == UnlinkPages(before, x) - {x}
      requires Conserved(pages, freeNode, maximumSize, sh.level.Keys + others.Keys - {x}, freeList)
      requires sh' == DropShape(sh, x) && gap' == Gap(gap.height + 1, sh.lo[x], sh.hi[x])
      requires m' == if |stack| == levels then m - {before[x].keys[0].ord} else m
      ensures Removing(pages, sh', rootNode, levels, stack[..|stack| - 1], gap', ord, m')
      ensures Housed(pages, freeNode, maximumSize, sh', freeList, others)
      ensures LeavesFull(before, sh) ==> LeavesFull(pages, sh')
      ensures |stack| == levels ==> before[x].keys[0].ord in m && LeavesKept(before, sh, pages, sh', x)
                                    && LeafTaken(before, sh, pages, sh', x, 0)
      ensures |stack| < levels ==> LeavesKept(before, sh, pages, sh', NULL)
      ensures x !in sh'.level && sh'.level.Keys <= sh.level.Keys
      ensures KeysKept(before, sh, pages, sh')
    {
      hide Removing, Housed, KeysKept, LeavesKept, LeafTaken, LeavesFull, IsUnlinked, UnlinkPages, Conserved, SizesOk, NodesOk;
      Dropped(before, pages, rootNode, levels, freeNode, maximumSize, sh, freeList, others, m, stack, gap, ord, x);
      DroppedIsUnlinked(before, pages, rootNode, levels, sh, m, stack, gap, ord, x);
      RemovingHasNodes(pages, sh', rootNode, levels, stack[..|stack| - 1], gap', ord, m');
      DropKeepsLeaves(before, sh, x, pages);
      DropKeys(before, pages, sh, x);
      if |stack| < levels {
        NotALeaf(before, sh, pages, sh', x);
      }
    }

    lemma ReadyToDrop(stack: seq<Frame>, gap: Gap, ord: real, x: int)
      requires Descending(stack, gap, ord) && LastIs(pages, stack, x)
      ensures Removing(pages, shape, rootNode, levels, stack, gap, ord, contents)
      ensures SizesOk(pages, shape) && shape.level.Keys !! others.Keys && x in pages && pages[x].Node? && |stack| <= levels
      ensures OthersAre(pages, others)
      ensures NULL !in pages && x in shape.level && x in shape.lo && x in shape.hi
      ensures pages[x].left != x && pages[x].right != x
      ensures pages[x].left != NULL ==> pages[x].left in shape.level && pages[x].left in pages && pages[pages[x].left].Node?
      ensures pages[x].right != NULL ==> pages[x].right in shape.level && pages[x].right in pages && pages[pages[x].right].Node?
      ensures Conserved(pages, freeNode, maximumSize, shape.level.Keys + others.Keys, freeList)
    {
      AtRemoval(pages, shape, rootNode, levels, stack, gap, ord, contents);
      NullIsNoPage(pages, freeNode, maximumSize, shape.level.Keys + others.Keys, freeList);
      assert NodeOk(pages, shape, x);
      assert pages[x].left != NULL ==> NodeOk(pages, shape, pages[x].left);
      assert pages[x].right != NULL ==> NodeOk(pages, shape, pages[x].right);
    }

    /** Every open iterator has been told of the removal of entry `i` of leaf `x`. */
    static ghost predicate Told(its: set<TreeIterator>, r: Removal)
      requires r.leaf in r.pages && r.pages[r.leaf].Node?
      reads its
    {
      forall it :: it in its ==> it in r.spots && it.At() == SpotAfterTake(r.pages, r.spots[it], r.leaf, r.at)
                                 && it in r.cuts && it.cut == r.cuts[it]
    }

    lemma ToldNow(r: Removal)
      requires r.leaf in r.pages && r.pages[r.leaf].Node?
      requires forall it :: it in iterators ==>
        (it in r.spots && it in r.cuts && it.cut == r.cuts[it]
         && it.At() == Updated(r.spots[it], r.leaf, if |r.pages[r.leaf].keys| == 1 then NextLeaf(r.pages[r.leaf]) else NULL,
                               r.at, 0, -1))
      ensures Told(iterators, r)
    {
    }

    /** What is known when Remove gets to the last page of `stack`: if the key is there at all, entry
        `at` of `leaf` is it, and it is gone once the climb has begun. */
    ghost predicate OnRecord(r: Removal, climbed: bool)
      reads this, iterators
    {
      && Tree(r.pages, r.shape, r.root, r.levels) && Agrees(r.pages, r.shape, r.contents)
      && r.leaf in r.pages && r.pages[r.leaf].Node?
      && 0 <= r.at < |r.pages[r.leaf].keys| && r.pages[r.leaf].keys[r.at].ord == r.ord
      && Told(iterators, r)
      && (if climbed then LeavesKept(r.pages, r.shape, pages, shape, r.leaf)
                          && LeafTaken(r.pages, r.shape, pages, shape, r.leaf, r.at) && r.leaf !in shape.level
          else pages == r.pages && shape == r.shape)
    }

    lemma Record(r: Removal, climbed: bool)
      requires OnRecord(r, climbed)
      ensures Tree(r.pages, r.shape, r.root, r.levels) && Agrees(r.pages, r.shape, r.contents)
      ensures r.leaf in r.pages && r.pages[r.leaf].Node?
      ensures 0 <= r.at < |r.pages[r.leaf].keys| && r.pages[r.leaf].keys[r.at].ord == r.ord
      ensures Told(iterators, r)
      ensures if climbed then LeavesKept(r.pages, r.shape, pages, shape, r.leaf)
                              && LeafTaken(r.pages, r.shape, pages, shape, r.leaf, r.at) && r.leaf !in shape.level
              else pages == r.pages && shape == r.shape
    {
    }

    /** A step later: at the leaf the key goes, above it the leaves stay as they are. */
    lemma RecordDone(r: Removal, mid: Pages, shMid: Shape, climbed: bool, x: int)
      requires Tree(r.pages, r.shape, r.root, r.levels) && Agrees(r.pages, r.shape, r.contents)
      requires r.leaf in r.pages && r.pages[r.leaf].Node?
      requires 0 <= r.at < |r.pages[r.leaf].keys| && r.pages[r.leaf].keys[r.at].ord == r.ord
      requires Told(iterators, r)
      requires if climbed then LeavesKept(r.pages, r.shape, mid, shMid, r.leaf)
                               && LeafTaken(r.pages, r.shape, mid, shMid, r.leaf, r.at) && r.leaf !in shMid.level
                               && LeavesKept(mid, shMid, pages, shape, NULL) && shape.level.Keys <= shMid.level.Keys
               else mid == r.pages && shMid == r.shape && r.leaf == x && LeavesKept(mid, shMid, pages, shape, x)
                    && LeafTaken(mid, shMid, pages, shape, x, r.at)
      ensures OnRecordDone(r) && (climbed ==> r.leaf !in shape.level)
    {
      if climbed {
        LeavesKeptTrans(r.pages, r.shape, mid, shMid, pages, shape, r.leaf);
        assert r.leaf !in shMid.level.Keys;
      }
    }

    lemma RecordOn(r: Removal)
      requires OnRecordDone(r) && r.leaf !in shape.level
      ensures OnRecord(r, true)
    {
    }

    /** Every iterator that was at its cut is so again. */
    ghost predicate Settled(r: Removal)
      reads this, iterators
    {
      forall it :: it in iterators && it in r.spots && it in r.cuts && AtCut(r.pages, r.shape, r.spots[it], r.cuts[it]) ==>
        Tracked(it) && TakeStep(r.contents, r.cuts[it], r.ord, it.cut)
    }

    ghost method SettleTaken(r: Removal)
      requires OnRecordDone(r)
      modifies iterators`cut
      ensures Settled(r)
    {
      hide Tree, Agrees, AtCut, TakeStep, SpotAfterTake, CutAfterTake, LeavesKept, LeafTaken;
      forall it | it in iterators {
        it.cut := CutAfterTake(r.pages, shape, r.spots[it], it.cut, r.leaf);
      }
      forall it | it in iterators && AtCut(r.pages, r.shape, r.spots[it], r.cuts[it])
        ensures Tracked(it) && TakeStep(r.contents, r.cuts[it], r.ord, it.cut)
      {
        TakeKeepsSpot(r.pages, r.shape, r.root, r.levels, pages, shape, r.spots[it], r.cuts[it], r.leaf, r.at);
        TakeStepHolds(r.pages, r.shape, r.root, r.levels, r.contents, pages, shape, r.spots[it], r.cuts[it], r.leaf, r.at);
      }
    }

    ghost predicate OnRecordDone(r: Removal)
      reads this, iterators
    {
      && Tree(r.pages, r.shape, r.root, r.levels) && Agrees(r.pages, r.shape, r.contents)
      && r.leaf in r.pages && r.pages[r.leaf].Node?
      && 0 <= r.at < |r.pages[r.leaf].keys| && r.pages[r.leaf].keys[r.at].ord == r.ord
      && Told(iterators, r)
      && LeavesKept(r.pages, r.shape, pages, shape, r.leaf) && LeafTaken(r.pages, r.shape, pages, shape, r.leaf, r.at)
    }

    /** Removes the key.  The test for an absent key does not see the error code it is meant for, so
        the key next to it goes instead. */
    method Remove(key: Key) returns (status: Status)
      requires Valid() && 0.0 <= key.ord < 1.0
      modifies this, iterators`node, iterators`index, iterators`cut
      ensures status == BadValue <==> !LengthOk(key)
      ensures status == BadValue || status == Ok || status == Garbled
      ensures status == BadValue ==> pages == old(pages) && contents == old(contents)
      ensures status != Garbled ==> Valid()
      ensures others == old(others) && iterators == old(iterators)
      ensures status == Ok && key.ord in old(contents) ==> contents == old(contents) - {key.ord}
      ensures status == Ok && key.ord !in old(contents) ==> TookNeighbour(old(contents), contents)
      ensures status == Garbled ==> key.ord !in old(contents) && old(contents) != map[]
      ensures status == Garbled <==> LengthOk(key) && old(PastLast(pages, LeafBelow(pages, rootNode, levels - 1, key.ord), key.ord))
      ensures status == Ok && key.ord in old(contents) ==> forall it :: it in iterators && old(Tracked(it)) ==>
                Tracked(it) && TakeStep(old(contents), old(it.cut), key.ord, it.cut)
      ensures KeysKept(old(pages), old(shape), pages, shape)
      ensures old(ShortTree(pages, shape)) ==> ShortTree(pages, shape)
      ensures status == Ok ==> NamesLose()
    {
      hide *;
      KeptRefl(pages, shape, key);
      ghost var before, sh := pages, shape;
      if !LengthOk(key) {
        return BadValue;
      }
      var stack := SeekDown(key);
      ghost var r := Removal(pages, shape, rootNode, levels, contents, map it | it in iterators :: it.At(),
                             map it | it in iterators :: it.cut, NULL, 0, key.ord);
      StartDescending(stack, key.ord);
      LeafOfPath(stack, key.ord);
      status := RemoveAlong(stack, key, r);
      if status == Ok {
        SettledAll(r);
        RestingNodes();
        KeptStaysShort(before, sh, pages, shape);
        NamesDropped(key.ord);
      }
    }

    lemma LeafOfPath(stack: seq<Frame>, ord: real)
      requires Valid() && |stack| == levels && levels > 0 && IsPath(pages, shape, rootNode, levels, stack, 0, ord)
      ensures stack[|stack| - 1].node == LeafBelow(pages, rootNode, levels - 1, ord)
    {
      hide Housed, Agrees, LeavesFull;
      PathLeaf(pages, shape, rootNode, levels, stack, ord, 0);
    }

    /** Up the path from the leaf, as far as pages run empty. */
    method RemoveAlong(path: seq<Frame>, key: Key, ghost r0: Removal) returns (status: Status)
      requires Descending(path, NO_GAP, key.ord) && 0 < |path| == levels && Valid()
      requires levels > 1 ==> LeavesFull(pages, shape)
      requires r0.pages == pages && r0.shape == shape && r0.root == rootNode && r0.levels == levels && r0.contents == contents
      requires forall it :: it in iterators ==> it in r0.spots && it.At() == r0.spots[it] && it in r0.cuts && it.cut == r0.cuts[it]
      requires r0.ord == key.ord
      modifies this, iterators`node, iterators`index, iterators`cut
      ensures others == old(others) && iterators == old(iterators)
      ensures status == Ok || status == Garbled
      ensures status == Ok ==> Valid() && (if key.ord in r0.contents then contents == r0.contents - {key.ord}
                                           else TookNeighbour(r0.contents, contents))
      ensures status == Ok && key.ord in r0.contents ==> Settled(r0)
      ensures status == Garbled ==> key.ord !in r0.contents && r0.contents != map[]
      ensures status == Garbled <==> PastLast(r0.pages, path[|path| - 1].node, key.ord)
      ensures KeysKept(r0.pages, r0.shape, pages, shape) && (status == Garbled ==> pages == r0.pages && shape == r0.shape)
    {
      hide *;
      var stack := path;
      ghost var r, gap := r0, NO_GAP;
      KeptRefl(pages, shape, key);
      while true
        invariant others == old(others) && iterators == old(iterators) && rootNode == r.root && levels == r.levels
        invariant Descending(stack, gap, key.ord) && 0 < |stack| <= levels
        invariant levels > 1 ==> LeavesFull(pages, shape)
        invariant r == r0.(leaf := r.leaf, at := r.at)
        invariant |stack| == levels ==> Valid() && contents == r.contents && pages == r.pages && shape == r.shape
        invariant |stack| == levels ==> forall it :: it in iterators ==> it.At() == r.spots[it] && it.cut == r.cuts[it]
        invariant if |stack| == levels then stack == path else !PastLast(r0.pages, path[|path| - 1].node, key.ord)
        invariant |stack| < levels ==> Took(r.contents, contents, key.ord) && (key.ord in r.contents ==> OnRecord(r, true))
        invariant KeysKept(r0.pages, r0.shape, pages, shape)
        decreases |stack|
      {
        ghost var way, mid, shMid := stack, pages, shape;
        LastToRemove(stack, gap, key.ord);
        var frame := stack[|stack| - 1];
        stack := stack[..|stack| - 1];
        var node, index := pages[frame.node], frame.index;
        if node.overflow == NULL {
          index, r := FindToRemove(way, gap, key, frame.node, r);
          AtLeaf(pages, frame.node, key.ord, index);
        }
        if frame.node == rootNode && (|node.keys| == 0 || (|node.keys| == 1 && node.overflow == NULL)) {
          EmptyRoot(way, gap, key.ord, r);
          KeptTrans(r0.pages, r0.shape, mid, shMid, pages, shape);
          TookAt(r, node, index, |way| == r.levels);
          SettledSame(r, r0);
          return Ok;
        }
        if |node.keys| > 1 || (node.overflow != NULL && |node.keys| == 1) {
          if node.overflow == NULL && index == |node.keys| {
            assert node.keys[0].ord in contents;
            return Garbled;
          }
          RemoveInPage(way, gap, key.ord, frame.node, index, r);
          KeptTrans(r0.pages, r0.shape, mid, shMid, pages, shape);
          TookAt(r, node, index, |way| == r.levels);
          SettledSame(r, r0);
          return Ok;
        }
        gap := DropAndClimb(way, gap, key.ord, frame.node, r);
        KeptTrans(r0.pages, r0.shape, mid, shMid, pages, shape);
        TookAt(r, node, index, |way| == r.levels);
      }
    }

    /** It does not matter where the key was. */
    lemma SettledSame(r: Removal, r0: Removal)
      requires r == r0.(leaf := r.leaf, at := r.at)
      ensures Settled(r) <==> Settled(r0)
    {
    }

    /** What the step took, if it was the one at the leaf. */
    lemma TookAt(r: Removal, node: Page, index: int, first: bool)
      requires first ==> node.Node? && (r.ord in r.contents ==> 0 <= index < |node.keys| && node.keys[index].ord == r.ord)
      requires first && node.keys == [] ==> contents == r.contents == map[]
      requires first && |node.keys| == 1 ==> node.keys[0].ord in r.contents && contents == r.contents - {node.keys[0].ord}
      requires first && |node.keys| > 1 ==> 0 <= index < |node.keys| && node.keys[index].ord in r.contents
                                            && contents == r.contents - {node.keys[index].ord}
      requires !first ==> Took(r.contents, contents, r.ord)
      ensures Took(r.contents, contents, r.ord)
      ensures if r.ord in r.contents then contents == r.contents - {r.ord} else TookNeighbour(r.contents, contents)
    {
    }

    /** At the leaf: where the key is, or would be. */
    method FindToRemove(ghost stack: seq<Frame>, ghost gap: Gap, key: Key, x: int, ghost r: Removal)
      returns (index: int, ghost r': Removal)
      requires Descending(stack, gap, key.ord) && |stack| == levels && LastIs(pages, stack, x) && Sorted(pages[x].keys)
      requires levels > 1 ==> LeavesFull(pages, shape)
      requires Valid() && r.pages == pages && r.shape == shape && r.root == rootNode && r.levels == levels && r.contents == contents
      requires forall it :: it in iterators ==> it in r.spots && it.At() == r.spots[it] && it in r.cuts && it.cut == r.cuts[it]
      requires r.ord == key.ord
      modifies iterators`node, iterators`index
      ensures r' == r.(leaf := x, at := index) && 0 <= index <= |pages[x].keys| && IsPosition(pages[x].keys, key.ord, index)
      ensures key.ord in contents ==> index < |pages[x].keys| && pages[x].keys[index].ord == key.ord && OnRecord(r', false)
      ensures forall i :: 0 <= i < |pages[x].keys| ==> pages[x].keys[i].ord in contents
      ensures |pages[x].keys| == 0 ==> |stack| == 1 && contents == map[]
    {
      hide Removing, Housed, AtRest, LeavesFull, NodesOk, OnRecord;
      var _, i, _ := FindKey(pages[x], key);
      LeafToRemove(stack, gap, key.ord, x, i);
      index, r' := i, r.(leaf := x, at := i);
      TellTaken(r', x, index);
    }

    /** At the leaf, before anything changes. */
    method TellTaken(ghost r: Removal, x: int, index: int)
      requires Valid() && r.pages == pages && r.shape == shape && r.root == rootNode && r.levels == levels && r.contents == contents
      requires x in pages && pages[x].Node? && r.leaf == x && r.at == index
      requires forall it :: it in iterators ==> it in r.spots && it.At() == r.spots[it] && it in r.cuts && it.cut == r.cuts[it]
      requires r.ord in contents ==> 0 <= index < |pages[x].keys| && pages[x].keys[index].ord == r.ord
      modifies iterators`node, iterators`index
      ensures r.ord in contents ==> OnRecord(r, false)
    {
      hide Updated, Tree, Agrees, AtRest, Told;
      RestingTree();
      var node := pages[x];
      UpdateIterators(x, if |node.keys| == 1 then NextLeaf(node) else NULL, index, 0, -1);
      ToldNow(r);
    }

    twostate lemma SettledAll(r: Removal)
      requires iterators == old(iterators) && r.pages == old(pages) && r.shape == old(shape) && r.contents == old(contents)
      requires r.spots == old(map it | it in iterators :: it.At()) && r.cuts == old(map it | it in iterators :: it.cut)
      requires r.ord in r.contents ==> Settled(r)
      ensures r.ord in r.contents ==> forall it :: it in iterators && old(Tracked(it)) ==>
                Tracked(it) && TakeStep(old(contents), old(it.cut), r.ord, it.cut)
    {
    }

    lemma RestingRoot()
      requires Valid()
      ensures rootNode in shape.level && rootNode in shape.lo && rootNode in shape.hi
      ensures shape.lo[rootNode] == -1.0 && shape.hi[rootNode] == 1.0
    {
    }

    lemma RestingPage(p: int)
      requires Valid() && p in shape.level
      ensures p in pages && pages[p].Node? && |pages[p].keys| == |pages[p].values| && Sorted(pages[p].keys)
      ensures NodesOk(pages, shape) && Laminar(shape)
      ensures pages[p].overflow == NULL <==> shape.level[p] == 0
      ensures shape.level.Keys == shape.lo.Keys == shape.hi.Keys
    {
      assert NodeOk(pages, shape, p);
    }

    lemma RestingTree()
      requires Valid()
      ensures Tree(pages, shape, rootNode, levels) && Agrees(pages, shape, contents)
    {
    }

    lemma StartDescending(stack: seq<Frame>, ord: real)
      requires Valid() && |stack| == levels && IsPath(pages, shape, rootNode, levels, stack, 0, ord)
      ensures levels > 0 && Descending(stack, NO_GAP, ord) && (levels > 1 ==> LeavesFull(pages, shape))
    {
    }

    lemma LastToRemove(stack: seq<Frame>, gap: Gap, ord: real)
      requires Descending(stack, gap, ord) && 0 < |stack| <= levels
      ensures var f := stack[|stack| - 1];
              && LastIs(pages, stack, f.node) && Sorted(pages[f.node].keys) && 0 <= f.index <= |pages[f.node].keys|
              && (pages[f.node].overflow == NULL <==> |stack| == levels)
              && (f.node == rootNode <==> |stack| == 1)
    {
      AtRemoval(pages, shape, rootNode, levels, stack, gap, ord, contents);
    }

    /** At the leaf: which keys are there. */
    lemma LeafToRemove(stack: seq<Frame>, gap: Gap, ord: real, x: int, index: int)
      requires Descending(stack, gap, ord) && |stack| == levels && LastIs(pages, stack, x)
      requires levels > 1 ==> LeavesFull(pages, shape)
      requires IsPosition(pages[x].keys, ord, index)
      ensures forall i :: 0 <= i < |pages[x].keys| ==> pages[x].keys[i].ord in contents
      ensures ord in contents ==> index < |pages[x].keys| && pages[x].keys[index].ord == ord
      ensures |pages[x].keys| == 0 ==> |stack| == 1 && contents == map[]
    {
      AtRemoval(pages, shape, rootNode, levels, stack, gap, ord, contents);
      assert OnPath(pages, shape, levels, stack, |stack| - 1, ord);
      assert Tree(pages, shape, rootNode, levels);
      if index == |pages[x].keys| || pages[x].keys[index].ord != ord {
        AbsentKey(pages, shape, x, index, ord, contents);
      }
      if |pages[x].keys| == 0 {
        EmptyLeafIsAll(x);
      }
    }

    lemma EmptyLeafIsAll(x: int)
      requires Tree(pages, shape, rootNode, levels) && Agrees(pages, shape, contents) && levels == 1
      requires x in shape.level && |pages[x].keys| == 0
      ensures contents == map[]
    {
      OnlyRootOnTop(pages, shape, rootNode, levels, NO_GAP, NoSlot);
      forall o: real ensures o !in contents {
        if o in contents {
          assert false;
        }
      }
    }

    lemma StartClimbing(stack: seq<Frame>, key: Key, value: int)
      requires Valid() && LengthOk(key) && levels >= 1
      requires |stack| == levels && IsPath(pages, shape, rootNode, levels, stack, 0, key.ord)
      ensures Climbing(stack, key, value, key, value)
    {
    }

    /** The last frame's page, and what is known of it. */
    lemma LastPage(stack: seq<Frame>, key: Key, value: int, keyBuffer: Key, link: int)
      requires Climbing(stack, key, value, keyBuffer, link)
      ensures 0 < |stack| <= levels && LastIsNode(pages, shape, stack)
      ensures var x := stack[|stack| - 1].node;
              && x in shape.level && x in pages && pages[x].Node? && SizeOk(pages[x]) && Sorted(pages[x].keys)
              && (pages[x].overflow == NULL <==> |stack| == levels)
              && (x == rootNode <==> |stack| == 1)
              && shape.level[x] == levels - |stack|
              && (|stack| == levels ==> key == keyBuffer)
              && (|stack| == levels ==> forall i :: 0 <= i < |pages[x].keys| ==> pages[x].keys[i].ord in contents)
    {
      var x := stack[|stack| - 1].node;
      LastFrameIsNode(pages, shape, rootNode, levels, stack, key.ord);
      AtSplit(pages, shape, rootNode, levels, stack, key, value, x, 0, keyBuffer, link, contents);
      assert OnPath(pages, shape, levels, stack, |stack| - 1, key.ord);
      assert NodeOk(pages, shape, x);
    }

    lemma PlaceFound(stack: seq<Frame>, key: Key, value: int, keyBuffer: Key, link: int, index: int)
      requires Climbing(stack, key, value, keyBuffer, link)
      requires |stack| > 0 && LastIsNode(pages, shape, stack)
      requires |stack| < levels ==> index == stack[|stack| - 1].index && key.ord !in contents
      requires |stack| == levels ==> IsPosition(pages[stack[|stack| - 1].node].keys, keyBuffer.ord, index)
      requires |stack| == levels && index < |pages[stack[|stack| - 1].node].keys| ==>
                 pages[stack[|stack| - 1].node].keys[index].ord != keyBuffer.ord
      ensures Reaches(stack, stack[|stack| - 1].node, index, keyBuffer) && key.ord !in contents
    {
      LastFrameIsNode(pages, shape, rootNode, levels, stack, key.ord);
      InsertionPoint(pages, shape, rootNode, levels, stack, key, value, keyBuffer, link, contents, index);
    }
  }

  /** A place in the tree that stays right while the tree changes (TreeIterator). */
  class TreeIterator {
    var tree: BPlusTree?
    var node: int   // fCurrentNodeOffset
    var index: int  // fCurrentKey
    ghost var cut: real

    function At(): Spot
      reads this
    {
      Spot(node, index)
    }

    method Update(offset: int, nextOffset: int, keyIndex: int, splitAt: int, change: int)
      modifies this`node, this`index
      ensures At() == Updated(old(At()), offset, nextOffset, keyIndex, splitAt, change)
    {
      if offset != node {
        return;
      }
      var at := keyIndex;
      if nextOffset != NULL {
        node := nextOffset;
        if splitAt <= index {
          index := index - splitAt;
          at := (at - splitAt) % 0x1_0000;
        }
      }
      if at <= index {
        index := index + change;
      }
    }

    /** An iterator at its cut in a tree at rest, or a stopped one. */
    ghost predicate Valid()
      reads this, tree, if tree == null then {} else tree.iterators
    {
      tree != null ==> tree.Valid() && tree.Tracked(this)
    }

    constructor (on: BPlusTree)
      requires on.Valid()
      modifies on`iterators
      ensures tree == on && Valid() && cut == -1.0 && on.iterators == old(on.iterators) + {this}
    {
      tree, node, index, cut := on, NULL, 0, -1.0;
      new;
      on.iterators := on.iterators + {this};
    }

    /** To the front of the leftmost leaf. */
    method Goto() returns (status: Status)
      requires Valid()
      modifies this`node, this`index, this`cut
      ensures Valid() && (tree == null ==> status == BadValue)
      ensures tree != null ==> status == Ok && cut == -1.0 && node > 0
    {
      hide AtCut, Tree, Agrees, AtRest, NodesOk, Laminar;
      if tree == null {
        return BadValue;
      }
      tree.RestingTree();
      tree.RestingRoot();
      var nodeOffset := tree.rootNode;
      while true
        invariant tree != null && tree.Valid() && this in tree.iterators
        invariant nodeOffset in tree.shape.level && nodeOffset in tree.shape.lo && tree.shape.lo[nodeOffset] == -1.0
        decreases tree.shape.level[nodeOffset]
      {
        tree.RestingPage(nodeOffset);
        var page := tree.pages[nodeOffset];
        if page.overflow == NULL {
          StartOfLeaf(tree.pages, tree.shape, nodeOffset);
          node, index, cut := nodeOffset, -1, -1.0;
          return Ok;
        }
        FirstChild(tree.pages, tree.shape, tree.rootNode, tree.levels, nodeOffset);
        nodeOffset := if |page.keys| == 0 then page.overflow else page.values[0];
      }
    }

    /** The next pair in key order. */
    method Traverse() returns (status: Status, key: Key, value: int)
      requires Valid()
      modifies this`node, this`index, this`cut
      ensures Valid()
      ensures tree == null <==> status == Interrupted
      ensures status == Interrupted || status == Ok || status == NotFound
      ensures status == Ok ==> ReturnStep(tree.contents, old(cut), key.ord, cut) && value == tree.contents[key.ord]
      ensures status == Ok ==> HasKey(tree.pages, tree.shape, 0, key)
      ensures status == Ok ==> forall names :: tree.Named(names) ==> key.ord in names && names[key.ord] == key
      ensures status == NotFound ==> cut == old(cut) && forall ord :: ord in tree.contents ==> ord <= cut
    {
      hide AtCut, Tree, Agrees, Housed, LeavesFull, ReturnStep, Skips, TreeKeys.Named, HasKey;
      key, value := Key([], 0.0), 0;
      if tree == null {
        return Interrupted, key, value;
      }
      tree.RestingTree();
      if node == NULL {
        NotStarted(tree.pages, tree.shape, Spot(node, index), cut);
        status := Goto();
      }
      if node == FREE {
        AtTheEnd(tree.pages, tree.shape, tree.rootNode, tree.levels, tree.contents, At(), cut);
        return NotFound, key, value;
      }
      status, key, value := Step();
    }

    method Step() returns (status: Status, key: Key, value: int)
      requires tree != null && Valid() && node != NULL && node != FREE
      modifies this`node, this`index, this`cut
      ensures Valid()
      ensures status == Ok || status == NotFound
      ensures status == Ok ==> ReturnStep(tree.contents, old(cut), key.ord, cut) && value == tree.contents[key.ord] && node > 0
      ensures status == Ok ==> HasKey(tree.pages, tree.shape, 0, key)
      ensures status == Ok ==> forall names :: tree.Named(names) ==> key.ord in names && names[key.ord] == key
      ensures status == NotFound ==> cut == old(cut) && forall ord :: ord in tree.contents ==> ord <= cut
    {
      hide AtCut, Tree, Agrees, Housed, LeavesFull, ReturnStep, Skips, NodesOk, TreeKeys.Named, HasKey;
      tree.RestingTree();
      InLeaf(tree.pages, tree.shape, At(), cut);
      var savedNode, savedIndex := node, index;
      ghost var reached := cut;
      SkipsRefl(tree.contents, cut);
      node, index := savedNode, savedIndex + 1;
      while index >= |tree.pages[node].keys|
        invariant node > 0 && node in tree.shape.level && node in tree.pages && tree.pages[node].Node?
        invariant ShapeOk(tree.shape) && 0 <= index <= |tree.pages[node].keys| == |tree.pages[node].values|
        invariant AtCut(tree.pages, tree.shape, Spot(node, index - 1), reached)
        invariant cut == old(cut) <= reached && Skips(tree.contents, cut, reached)
        decreases Further(tree.shape, node)
      {
        HopRight(tree.pages, tree.shape, tree.rootNode, tree.levels, tree.contents, node, reached);
        var right := tree.pages[node].right;
        if right == NULL {
          SkipsOn(tree.contents, cut, reached, 1.0);
          NothingAboveTop(tree.pages, tree.shape, tree.rootNode, tree.levels, tree.contents, cut);
          node, index := savedNode, savedIndex;
          return NotFound, Key([], 0.0), 0;
        }
        node, index := right, 0;
        SkipsOn(tree.contents, cut, reached, tree.shape.lo[node]);
        reached := tree.shape.lo[node];
        InLeaf(tree.pages, tree.shape, Spot(node, -1), reached);
      }
      var page := tree.pages[node];
      LeastAhead(tree.pages, tree.shape, tree.rootNode, tree.levels, tree.contents, node, index, cut, reached);
      cut := page.keys[index].ord;
      ReturnedKey(tree, node, index);
      return Ok, page.keys[index], page.values[index];
    }

    /** To just in front of the key's place. */
    method Find(key: Key) returns (status: Status)
      requires Valid() && 0.0 <= key.ord < 1.0
      modifies this`node, this`index, this`cut
      ensures Valid()
      ensures tree == null <==> status == Interrupted
      ensures tree != null ==> (status == BadValue <==> !LengthOk(key))
      ensures tree != null && LengthOk(key) ==> status == if key.ord in tree.contents then Ok else NotFound
      ensures tree != null && LengthOk(key) ==>
                forall ord :: ord in tree.contents ==> (cut < ord <==> key.ord <= ord)
    {
      hide AtCut, Tree, Agrees, AtRest, NodesOk, IsPosition;
      if tree == null {
        return Interrupted;
      }
      if !LengthOk(key) {
        return BadValue;
      }
      tree.RestingTree();
      tree.RestingRoot();
      var nodeOffset := tree.rootNode;
      while true
        invariant tree != null && tree.Valid() && this in tree.iterators
        invariant nodeOffset in tree.shape.level && nodeOffset in tree.shape.lo && nodeOffset in tree.shape.hi
        invariant tree.shape.lo[nodeOffset] < key.ord <= tree.shape.hi[nodeOffset]
        decreases tree.shape.level[nodeOffset]
      {
        tree.RestingPage(nodeOffset);
        var page := tree.pages[nodeOffset];
        var found, i, next := tree.FindKey(page, key);
        if page.overflow == NULL {
          if !found {
            AbsentKey(tree.pages, tree.shape, nodeOffset, i, key.ord, tree.contents);
          }
          var place: int := i;
          node, index := nodeOffset, place - 1;
          cut := FoundSpot(tree.pages, tree.shape, tree.rootNode, tree.levels, tree.contents, nodeOffset, i, key.ord);
          return if found then Ok else NotFound;
        }
        Descend(tree.pages, tree.shape, tree.rootNode, tree.levels, nodeOffset, key.ord, i);
        nodeOffset := next;
      }
    }
  }

  /** A key in a leaf is the one that is named there. */
  lemma ReturnedKey(tree: BPlusTree, p: int, i: int)
    requires p in tree.shape.level && tree.shape.level[p] == 0 && p in tree.pages && tree.pages[p].Node? && 0 <= i < |tree.pages[p].keys|
    ensures HasKey(tree.pages, tree.shape, 0, tree.pages[p].keys[i])
    ensures var key := tree.pages[p].keys[i];
            forall names :: tree.Named(names) ==> key.ord in names && names[key.ord] == key
  {
    assert KeyAt(tree.pages, tree.shape, 0, tree.pages[p].keys[i], p, i);
    assert HasKey(tree.pages, tree.shape, 0, tree.pages[p].keys[i]);
  }
}
