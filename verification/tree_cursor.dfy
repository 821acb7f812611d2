/** Positions of open iterators (BPlusTree.cpp, TreeIterator).  A position divides the stored keys in
    two: those up to the cut, and those ahead, which are still to be returned. */
module TreeCursor {
  import opened NodeLayout
  import opened TreeShape
  import opened TreeSteps
  import opened TreePath

  /** The fields of an iterator that move: fCurrentNodeOffset and fCurrentKey. */
  datatype Spot = Spot(node: int, index: int)

  /** The position is at `cut`: in a leaf, between the keys up to it and those behind it; or not yet
      started; or at the end of a tree that had nothing left. */
  ghost predicate AtCut(pages: Pages, sh: Shape, spot: Spot, cut: real) {
    if spot.node == NULL then cut == -1.0
    else if spot.node == FREE then cut == 1.0
    else
      && NodesOk(pages, sh) && spot.node in sh.level && sh.level[spot.node] == 0
      && -1 <= spot.index < |pages[spot.node].keys|
      && sh.lo[spot.node] <= cut <= sh.hi[spot.node]
      && (forall i :: 0 <= i <= spot.index ==> pages[spot.node].keys[i].ord <= cut)
      && (forall i :: spot.index < i < |pages[spot.node].keys| ==> cut < pages[spot.node].keys[i].ord)
  }

  /** No stored key is in (from, to]. */
  ghost predicate Skips(m: map<real, int>, from: real, to: real) {
    forall ord :: ord in m && from < ord ==> to < ord
  }

  /** A position when `ord` is added: it may fall back to just in front of it, never over another key. */
  ghost predicate AddStep(m: map<real, int>, cut: real, ord: real, cut': real) {
    cut' <= cut && Skips(m, cut', cut) && (cut' < cut ==> cut' < ord <= cut)
  }

  /** A position when `ord` is taken: it may rise, over no key that is left. */
  ghost predicate TakeStep(m: map<real, int>, cut: real, ord: real, cut': real) {
    cut <= cut' && Skips(m - {ord}, cut, cut')
  }

  /** The iterator returns the least key ahead. */
  ghost predicate ReturnStep(m: map<real, int>, cut: real, ord: real, cut': real) {
    ord in m && cut < ord && cut' == ord && forall o :: o in m && cut < o ==> ord <= o
  }

  // ---- Update ----

  /** What TreeIterator::Update does; the key index is a 16-bit number. */
  function Updated(spot: Spot, offset: int, nextOffset: int, keyIndex: int, splitAt: int, change: int): Spot {
    if offset != spot.node then spot
    else
      var moved := nextOffset != NULL && splitAt <= spot.index;
      var index := if moved then spot.index - splitAt else spot.index;
      var at := if moved then (keyIndex - splitAt) % 0x1_0000 else keyIndex;
      Spot(if nextOffset != NULL then nextOffset else spot.node, if at <= index then index + change else index)
  }

  // ---- Where a key can be ----

  /** A stored key inside a leaf's interval is in that leaf. */
  lemma StoredInside(pages: Pages, sh: Shape, root: int, levels: nat, m: map<real, int>, x: int, ord: real) returns (i: int)
    requires Tree(pages, sh, root, levels) && Agrees(pages, sh, m)
    requires x in sh.level && sh.level[x] == 0 && sh.lo[x] < ord <= sh.hi[x] && ord in m
    ensures 0 <= i < |pages[x].keys| && pages[x].keys[i].ord == ord
  {
    assert Holds(pages, sh, ord, m[ord]);
    var p, j :| StoredAt(pages, sh, ord, m[ord], p, j);
    assert NodeOk(pages, sh, p);
    assert p != x ==> Apart(sh, p, x);
    i := j;
  }

  // ---- Inserting ----

  /** The cut after a pair is put in at index `i` of leaf `x`: just in front of the new key when that
      lands behind the position but not above the cut. */
  function CutAfterAdd(pages: Pages, sh: Shape, spot: Spot, cut: real, x: int, i: int, ord: real): real
    requires x in pages && pages[x].Node? && x in sh.lo
  {
    if spot.node == x && i == spot.index + 1 && ord <= cut then
      (if 0 <= spot.index < |pages[x].keys| then pages[x].keys[spot.index].ord else sh.lo[x])
    else cut
  }

  lemma AddKeepsSpot(pages: Pages, sh: Shape, spot: Spot, cut: real, x: int, i: int, key: Key, value: int)
    requires NodesOk(pages, sh) && x in sh.level && sh.level[x] == 0 && AtCut(pages, sh, spot, cut)
    requires IsPosition(pages[x].keys, key.ord, i) && (i < |pages[x].keys| ==> pages[x].keys[i].ord != key.ord)
    requires sh.lo[x] < key.ord <= sh.hi[x] && NodesOk(Filled(pages, x, i, key, value), sh)
    ensures AtCut(Filled(pages, x, i, key, value), sh, Updated(spot, x, NULL, i, 0, 1),
                  CutAfterAdd(pages, sh, spot, cut, x, i, key.ord))
  {
    if spot.node == x {
      assert NodeOk(pages, sh, x);
      var keys := Filled(pages, x, i, key, value)[x].keys;
      forall j | 0 <= j < |keys|
        ensures keys[j] == if j < i then pages[x].keys[j] else if j == i then key else pages[x].keys[j - 1]
      {
        PairOfInsert(pages[x], i, key, value, j);
      }
      AddInLeaf(pages[x].keys, keys, sh.lo[x], spot.index, cut, i, key);
    }
  }

  lemma AddInLeaf(keys: seq<Key>, keys': seq<Key>, lo: real, index: int, cut: real, i: int, key: Key)
    requires -1 <= index < |keys| && lo <= cut && lo < key.ord && (forall j :: 0 <= j < |keys| ==> lo < keys[j].ord)
    requires forall j :: 0 <= j <= index ==> keys[j].ord <= cut
    requires forall j :: index < j < |keys| ==> cut < keys[j].ord
    requires IsPosition(keys, key.ord, i) && (i < |keys| ==> keys[i].ord != key.ord) && Sorted(keys)
    requires |keys'| == |keys| + 1
    requires forall j {:trigger keys'[j]} :: 0 <= j < |keys'| ==> keys'[j] == if j < i then keys[j] else if j == i then key else keys[j - 1]
    ensures var index' := if i <= index then index + 1 else index;
            var cut' := if i == index + 1 && key.ord <= cut then (if index >= 0 then keys[index].ord else lo) else cut;
            && (forall j :: 0 <= j <= index' ==> keys'[j].ord <= cut')
            && (forall j :: index' < j < |keys'| ==> cut' < keys'[j].ord)
            && lo <= cut' <= cut
  {
    var index' := if i <= index then index + 1 else index;
    var cut' := if i == index + 1 && key.ord <= cut then (if index >= 0 then keys[index].ord else lo) else cut;
    forall j | 0 <= j <= index' ensures keys'[j].ord <= cut' {
      if j > i {
        assert keys'[j] == keys[j - 1];
      } else if j < i {
        assert j < index ==> keys[j].ord < keys[index].ord;
      }
    }
    forall j | index' < j < |keys'| ensures cut' < keys'[j].ord {
      if j > i {
        assert keys'[j] == keys[j - 1] && cut < keys[j - 1].ord;
      } else if j == i && i > index + 1 {
        assert cut < keys[i - 1].ord < key.ord;
      }
    }
  }

  /** Only the new key can come to lie between the new cut and the old one. */
  lemma AddSkipsNothing(pages: Pages, sh: Shape, root: int, levels: nat, m: map<real, int>, spot: Spot, cut: real,
                        x: int, i: int, ord: real)
    requires Tree(pages, sh, root, levels) && Agrees(pages, sh, m) && AtCut(pages, sh, spot, cut)
    requires x in sh.level && sh.level[x] == 0 && sh.lo[x] < ord <= sh.hi[x] && IsPosition(pages[x].keys, ord, i)
    ensures CutAfterAdd(pages, sh, spot, cut, x, i, ord) <= cut
    ensures Skips(m, CutAfterAdd(pages, sh, spot, cut, x, i, ord), cut)
    ensures CutAfterAdd(pages, sh, spot, cut, x, i, ord) < cut ==> CutAfterAdd(pages, sh, spot, cut, x, i, ord) < ord <= cut
  {
    hide ChildrenOk, LinksOk, RootOk, Laminar, Agrees;
    var cut' := CutAfterAdd(pages, sh, spot, cut, x, i, ord);
    if cut' != cut {
      assert NodeOk(pages, sh, x);
      forall o | o in m && cut' < o ensures cut < o {
        if o <= cut {
          var j := StoredInside(pages, sh, root, levels, m, x, o);
        }
      }
    }
  }

  // ---- Removing ----

  /** Leaves other than `x` keep their keys, and only gain ground. */
  ghost predicate LeavesKept(pages: Pages, sh: Shape, pages': Pages, sh': Shape, x: int) {
    && NodesOk(pages, sh) && NodesOk(pages', sh')
    && forall p :: p in sh.level && sh.level[p] == 0 && p != x ==> LeafKept(pages, sh, pages', sh', p)
  }

  ghost predicate LeafKept(pages: Pages, sh: Shape, pages': Pages, sh': Shape, p: int)
    requires NodesOk(pages, sh) && NodesOk(pages', sh') && p in sh.level
  {
    && p in sh'.level && sh'.level[p] == 0 && pages'[p].keys == pages[p].keys
    && sh'.lo[p] <= sh.lo[p] && sh.hi[p] <= sh'.hi[p]
  }

  lemma LeavesKeptTrans(pages: Pages, sh: Shape, pages1: Pages, sh1: Shape, pages2: Pages, sh2: Shape, x: int)
    requires LeavesKept(pages, sh, pages1, sh1, x) && LeavesKept(pages1, sh1, pages2, sh2, NULL)
    ensures LeavesKept(pages, sh, pages2, sh2, x)
  {
    forall p | p in sh.level && sh.level[p] == 0 && p != x ensures LeafKept(pages, sh, pages2, sh2, p) {
      assert LeafKept(pages, sh, pages1, sh1, p) && LeafKept(pages1, sh1, pages2, sh2, p);
    }
  }

  /** What becomes of the leaf that a key was taken from. */
  ghost predicate LeafTaken(pages: Pages, sh: Shape, pages': Pages, sh': Shape, x: int, i: int) {
    && NodesOk(pages, sh) && NodesOk(pages', sh')
    && x in sh.level && sh.level[x] == 0 && 0 <= i < |pages[x].keys|
    && (x !in sh'.level ==> |pages[x].keys| == 1)
    && (x in sh'.level ==> sh'.level[x] == 0 && pages'[x].keys == RemovePair(pages[x], i).keys
                           && sh'.lo[x] <= sh.lo[x] && sh.hi[x] <= sh'.hi[x])
  }

  /** The leaf after the one that runs empty; FREE behind the last. */
  function NextLeaf(page: Page): int
    requires page.Node?
  {
    if page.right == NULL then FREE else page.right
  }

  /** What Remove tells the iterators before it touches the leaf. */
  function SpotAfterTake(pages: Pages, spot: Spot, x: int, i: int): Spot
    requires x in pages && pages[x].Node?
  {
    Updated(spot, x, if |pages[x].keys| == 1 then NextLeaf(pages[x]) else NULL, i, 0, -1)
  }

  function CutAfterTake(pages: Pages, sh': Shape, spot: Spot, cut: real, x: int): real
    requires x in pages && pages[x].Node?
  {
    if spot.node == x && |pages[x].keys| == 1 then
      if pages[x].right == NULL then 1.0
      else if pages[x].right in sh'.lo && cut < sh'.lo[pages[x].right] then sh'.lo[pages[x].right]
      else cut
    else cut
  }

  /** A removal leaves every position at its cut; a position in the leaf that goes moves on to the next. */
  lemma TakeKeepsSpot(pages: Pages, sh: Shape, root: int, levels: nat, pages': Pages, sh': Shape,
                      spot: Spot, cut: real, x: int, i: int)
    requires Tree(pages, sh, root, levels) && AtCut(pages, sh, spot, cut)
    requires LeavesKept(pages, sh, pages', sh', x) && LeafTaken(pages, sh, pages', sh', x, i)
    ensures AtCut(pages', sh', SpotAfterTake(pages, spot, x, i), CutAfterTake(pages, sh', spot, cut, x))
  {
    if spot.node != NULL && spot.node != FREE {
      if spot.node != x {
        assert LeafKept(pages, sh, pages', sh', spot.node);
        assert NodeOk(pages, sh, spot.node) && NodeOk(pages', sh', spot.node);
      } else if |pages[x].keys| == 1 {
        LeafGoes(pages, sh, root, levels, pages', sh', spot, cut, x, i);
      } else {
        assert NodeOk(pages, sh, x) && NodeOk(pages', sh', x);
      }
    }
  }

  lemma LeafGoes(pages: Pages, sh: Shape, root: int, levels: nat, pages': Pages, sh': Shape,
                 spot: Spot, cut: real, x: int, i: int)
    requires Tree(pages, sh, root, levels) && AtCut(pages, sh, spot, cut) && x > 0 && spot.node == x
    requires |pages[x].keys| == 1 && LeavesKept(pages, sh, pages', sh', x) && i == 0
    ensures AtCut(pages', sh', SpotAfterTake(pages, spot, x, i), CutAfterTake(pages, sh', spot, cut, x))
  {
    hide ChildrenOk, Laminar, RootOk;
    assert RightOk(pages, sh, NO_GAP, x) && NodeOk(pages, sh, x);
    var q := pages[x].right;
    if q != NULL {
      assert sh.level[q] == 0 && q != x;
      assert LeafKept(pages, sh, pages', sh', q);
      assert NodeOk(pages, sh, q) && NodeOk(pages', sh', q);
    }
  }

  /** The cut only rises over keys that are not there. */
  lemma TakeSkipsNothing(pages: Pages, sh: Shape, root: int, levels: nat, m: map<real, int>, pages': Pages, sh': Shape,
                         spot: Spot, cut: real, x: int, i: int)
    requires Tree(pages, sh, root, levels) && Agrees(pages, sh, m) && AtCut(pages, sh, spot, cut)
    requires LeavesKept(pages, sh, pages', sh', x) && LeafTaken(pages, sh, pages', sh', x, i)
    ensures cut <= CutAfterTake(pages, sh', spot, cut, x)
    ensures pages[x].keys[i].ord in m
    ensures Skips(m - {pages[x].keys[i].ord}, cut, CutAfterTake(pages, sh', spot, cut, x))
  {
    KeyIsStored(pages, sh, m, x, i);
    if spot.node == x && |pages[x].keys| == 1 {
      CutInLeaf(pages, sh, root, levels, pages', sh', spot, cut, x);
      NothingElse(pages, sh, root, levels, m, x, cut, CutAfterTake(pages, sh', spot, cut, x));
    }
  }

  lemma TakeStepHolds(pages: Pages, sh: Shape, root: int, levels: nat, m: map<real, int>, pages': Pages, sh': Shape,
                      spot: Spot, cut: real, x: int, i: int)
    requires Tree(pages, sh, root, levels) && Agrees(pages, sh, m) && AtCut(pages, sh, spot, cut)
    requires LeavesKept(pages, sh, pages', sh', x) && LeafTaken(pages, sh, pages', sh', x, i)
    ensures TakeStep(m, cut, pages[x].keys[i].ord, CutAfterTake(pages, sh', spot, cut, x))
  {
    hide Tree, Agrees, AtCut, LeavesKept, CutAfterTake, Skips;
    TakeSkipsNothing(pages, sh, root, levels, m, pages', sh', spot, cut, x, i);
  }

  lemma KeyIsStored(pages: Pages, sh: Shape, m: map<real, int>, x: int, i: int)
    requires NodesOk(pages, sh) && Agrees(pages, sh, m) && x in sh.level && sh.level[x] == 0 && 0 <= i < |pages[x].keys|
    ensures pages[x].keys[i].ord in m
  {
  }

  lemma CutInLeaf(pages: Pages, sh: Shape, root: int, levels: nat, pages': Pages, sh': Shape, spot: Spot, cut: real, x: int)
    requires Tree(pages, sh, root, levels) && AtCut(pages, sh, spot, cut) && x > 0 && spot.node == x
    requires |pages[x].keys| == 1 && LeavesKept(pages, sh, pages', sh', x)
    ensures sh.lo[x] <= cut <= CutAfterTake(pages, sh', spot, cut, x) <= sh.hi[x]
  {
    hide ChildrenOk, Laminar, RootOk;
    assert RightOk(pages, sh, NO_GAP, x) && NodeOk(pages, sh, x);
    var q := pages[x].right;
    if q != NULL {
      assert sh.level[q] == 0 && q != x;
      assert LeafKept(pages, sh, pages', sh', q);
    }
  }

  lemma NothingElse(pages: Pages, sh: Shape, root: int, levels: nat, m: map<real, int>, x: int, from: real, to: real)
    requires Tree(pages, sh, root, levels) && Agrees(pages, sh, m)
    requires x in sh.level && sh.level[x] == 0 && |pages[x].keys| == 1 && sh.lo[x] <= from && to <= sh.hi[x]
    ensures Skips(m - {pages[x].keys[0].ord}, from, to)
  {
    hide Laminar, ChildrenOk, LinksOk, RootOk, Agrees;
    assert NodeOk(pages, sh, x);
    var gone := pages[x].keys[0].ord;
    forall o | o in m - {gone} && from < o ensures to < o {
      if o <= to {
        var j := StoredInside(pages, sh, root, levels, m, x, o);
      }
    }
  }

  /** A pair is about to go to index `i` of leaf `x`. */
  ghost predicate AddReady(pages: Pages, sh: Shape, root: int, levels: nat, m: map<real, int>, x: int, i: int, key: Key) {
    && Tree(pages, sh, root, levels) && Agrees(pages, sh, m)
    && x in sh.level && sh.level[x] == 0 && sh.lo[x] < key.ord <= sh.hi[x]
    && IsPosition(pages[x].keys, key.ord, i) && (i < |pages[x].keys| ==> pages[x].keys[i].ord != key.ord)
  }

  lemma AddMovesSpot(pages: Pages, sh: Shape, root: int, levels: nat, m: map<real, int>, spot: Spot, cut: real,
                     x: int, i: int, key: Key, value: int)
    requires AddReady(pages, sh, root, levels, m, x, i, key) && AtCut(pages, sh, spot, cut)
    requires NodesOk(Filled(pages, x, i, key, value), sh)
    ensures AtCut(Filled(pages, x, i, key, value), sh, Updated(spot, x, NULL, i, 0, 1),
                  CutAfterAdd(pages, sh, spot, cut, x, i, key.ord))
    ensures AddStep(m, cut, key.ord, CutAfterAdd(pages, sh, spot, cut, x, i, key.ord))
  {
    hide AtCut, Filled, IsPosition, Agrees, CutAfterAdd, Skips, NodesOk;
    TreeHasNodes(pages, sh, root, levels);
    AddKeepsSpot(pages, sh, spot, cut, x, i, key, value);
    AddSkipsNothing(pages, sh, root, levels, m, spot, cut, x, i, key.ord);
  }

  lemma TreeHasNodes(pages: Pages, sh: Shape, root: int, levels: nat)
    requires Tree(pages, sh, root, levels)
    ensures NodesOk(pages, sh)
  {
  }

  // ---- Each step of Remove, for the leaves ----

  lemma TakenInPlace(pages: Pages, sh: Shape, x: int, i: int)
    requires NodesOk(pages, sh) && x in sh.level && sh.level[x] == 0 && 0 <= i < |pages[x].keys|
    requires NodesOk(pages[x := RemovePair(pages[x], i)], sh)
    ensures LeavesKept(pages, sh, pages[x := RemovePair(pages[x], i)], sh, x)
    ensures LeafTaken(pages, sh, pages[x := RemovePair(pages[x], i)], sh, x, i)
  {
  }

  lemma ClosingKeepsLeaves(pages: Pages, sh: Shape, gap: Gap, right: bool, x: int, node: Page)
    requires NodesOk(pages, sh) && x in sh.level && sh.level[x] > 0 && gap.lo < gap.hi
    requires NodesOk(pages[x := node], CloseShape(sh, gap, right))
    ensures LeavesKept(pages, sh, pages[x := node], CloseShape(sh, gap, right), NULL)
  {
    var pages', sh' := pages[x := node], CloseShape(sh, gap, right);
    forall p | p in sh.level && sh.level[p] == 0 ensures LeafKept(pages, sh, pages', sh', p) {
      assert NodeOk(pages, sh, p);
    }
  }

  lemma DropKeepsLeaves(pages: Pages, sh: Shape, x: int, pages': Pages)
    requires IsUnlinked(pages, sh, x, pages') && NodesOk(pages', DropShape(sh, x))
    ensures LeavesKept(pages, sh, pages', DropShape(sh, x), x)
    ensures sh.level[x] == 0 && |pages[x].keys| == 1 ==> LeafTaken(pages, sh, pages', DropShape(sh, x), x, 0)
  {
    var sh' := DropShape(sh, x);
    forall p | p in sh.level && sh.level[p] == 0 && p != x ensures LeafKept(pages, sh, pages', sh', p) {
      assert NodeOk(pages, sh, p);
    }
  }

  lemma NoLeavesToKeep(pages: Pages, sh: Shape, pages': Pages, sh': Shape, root: int)
    requires NodesOk(pages, sh) && NodesOk(pages', sh') && sh.level.Keys == {root} && sh.level[root] > 0
    ensures LeavesKept(pages, sh, pages', sh', NULL)
  {
    forall p | p in sh.level ensures p == root {
      assert p in sh.level.Keys;
    }
  }

  lemma LeafIsEmptied(pages: Pages, sh: Shape, root: int)
    requires NodesOk(pages, sh) && root in sh.level && sh.level[root] == 0 && |pages[root].keys| == 1
    requires NodesOk(pages[root := pages[root].(overflow := NULL, keys := [], values := [])], sh)
    ensures var pages' := pages[root := pages[root].(overflow := NULL, keys := [], values := [])];
            LeavesKept(pages, sh, pages', sh, root) && LeafTaken(pages, sh, pages', sh, root, 0)
  {
    assert RemovePair(pages[root], 0).keys == [];
  }

  lemma SlotIsPair(node: Page, i: int)
    requires node.Node? && 0 <= i < |node.keys| == |node.values|
    ensures RemoveSlot(node, i) == RemovePair(node, i)
  {
  }

  /** Above the leaves there is nothing to tell apart. */
  lemma NotALeaf(pages: Pages, sh: Shape, pages': Pages, sh': Shape, x: int)
    requires LeavesKept(pages, sh, pages', sh', x) && x in sh.level && sh.level[x] > 0
    ensures LeavesKept(pages, sh, pages', sh', NULL)
  {
  }

  // ---- Moving forward ----

  /** Leaves further to the right. */
  ghost function Further(sh: Shape, p: int): set<int>
    requires ShapeOk(sh) && p in sh.level
  {
    set q | q in sh.level && sh.level[q] == 0 && sh.lo[p] < sh.lo[q]
  }

  /** The leftmost child starts where its parent does. */
  lemma FirstChild(pages: Pages, sh: Shape, root: int, levels: nat, p: int)
    requires Tree(pages, sh, root, levels) && p in sh.level && sh.level[p] > 0
    ensures p in pages && pages[p].Node? && |pages[p].keys| == |pages[p].values|
    ensures var c := Child(pages[p], 0);
            c in sh.level && c in sh.lo && p in sh.lo && sh.level[c] < sh.level[p] && sh.lo[c] == sh.lo[p]
  {
    assert NodeOk(pages, sh, p) && ChildOk(pages, sh, p, 0);
  }

  /** The next key of the leaf is the least one ahead. */
  lemma LeastAhead(pages: Pages, sh: Shape, root: int, levels: nat, m: map<real, int>, p: int, j: int, from: real, cut: real)
    requires Tree(pages, sh, root, levels) && Agrees(pages, sh, m) && p > 0 && AtCut(pages, sh, Spot(p, j - 1), cut)
    requires from <= cut && Skips(m, from, cut) && j < |pages[p].keys|
    ensures ReturnStep(m, from, pages[p].keys[j].ord, pages[p].keys[j].ord)
    ensures m[pages[p].keys[j].ord] == pages[p].values[j] && sh.level[p] == 0
    ensures AtCut(pages, sh, Spot(p, j), pages[p].keys[j].ord)
  {
    hide ChildrenOk, LinksOk, RootOk, Laminar, Agrees, StoredAt, Holds;
    assert NodeOk(pages, sh, p);
    var least := pages[p].keys[j].ord;
    LeafStores(pages, sh, m, p, j);
    forall o | o in m && from < o ensures least <= o {
      if o < least {
        var i := StoredInside(pages, sh, root, levels, m, p, o);
      }
    }
  }

  lemma LeafStores(pages: Pages, sh: Shape, m: map<real, int>, p: int, j: int)
    requires NodesOk(pages, sh) && Agrees(pages, sh, m) && p in sh.level && sh.level[p] == 0 && 0 <= j < |pages[p].keys|
    ensures |pages[p].keys| == |pages[p].values|
    ensures pages[p].keys[j].ord in m && m[pages[p].keys[j].ord] == pages[p].values[j]
  {
    assert NodeOk(pages, sh, p);
  }

  /** A leaf used up hands on to the next. */
  lemma HopRight(pages: Pages, sh: Shape, root: int, levels: nat, m: map<real, int>, p: int, cut: real)
    requires Tree(pages, sh, root, levels) && Agrees(pages, sh, m) && p > 0
    requires p in sh.level && AtCut(pages, sh, Spot(p, |pages[p].keys| - 1), cut)
    ensures pages[p].right == NULL ==> Skips(m, cut, 1.0)
    ensures pages[p].right != NULL ==>
              var q := pages[p].right;
              && q > 0 && q in sh.level && AtCut(pages, sh, Spot(q, -1), sh.lo[q]) && Skips(m, cut, sh.lo[q]) && cut <= sh.lo[q]
              && Further(sh, q) < Further(sh, p)
  {
    hide ChildrenOk, RootOk;
    assert NodeOk(pages, sh, p) && RightOk(pages, sh, NO_GAP, p);
    var q := pages[p].right;
    forall o | o in m && cut < o ensures sh.hi[p] < o {
      if o <= sh.hi[p] {
        var i := StoredInside(pages, sh, root, levels, m, p, o);
      }
    }
    if q != NULL {
      assert NodeOk(pages, sh, q);
      assert q in Further(sh, p);
    }
  }

  lemma BelowTop(pages: Pages, sh: Shape, m: map<real, int>, ord: real)
    requires NodesOk(pages, sh) && Agrees(pages, sh, m) && ord in m
    ensures ord <= 1.0
  {
    assert Holds(pages, sh, ord, m[ord]);
    var p, j :| StoredAt(pages, sh, ord, m[ord], p, j);
    assert NodeOk(pages, sh, p);
  }

  lemma NothingAboveTop(pages: Pages, sh: Shape, root: int, levels: nat, m: map<real, int>, cut: real)
    requires Tree(pages, sh, root, levels) && Agrees(pages, sh, m) && Skips(m, cut, 1.0)
    ensures forall o :: o in m ==> o <= cut
  {
    hide Tree, Agrees;
    forall o | o in m ensures o <= cut {
      TreeHasNodes(pages, sh, root, levels);
      BelowTop(pages, sh, m, o);
    }
  }

  lemma StartOfLeaf(pages: Pages, sh: Shape, p: int)
    requires NodesOk(pages, sh) && p in sh.level && sh.level[p] == 0
    ensures p > 0 && AtCut(pages, sh, Spot(p, -1), sh.lo[p])
  {
    assert NodeOk(pages, sh, p);
  }

  /** In front of a key's place: everything before it is behind, everything from it on is ahead. */
  lemma FoundSpot(pages: Pages, sh: Shape, root: int, levels: nat, m: map<real, int>, p: int, i: int, ord: real)
    returns (cut: real)
    requires Tree(pages, sh, root, levels) && Agrees(pages, sh, m)
    requires p in sh.level && sh.level[p] == 0 && sh.lo[p] < ord <= sh.hi[p] && IsPosition(pages[p].keys, ord, i)
    ensures p > 0 && AtCut(pages, sh, Spot(p, i - 1), cut) && cut < ord
    ensures forall o :: o in m && cut < o ==> ord <= o
  {
    hide ChildrenOk, LinksOk, RootOk;
    assert NodeOk(pages, sh, p);
    cut := if i > 0 then pages[p].keys[i - 1].ord else sh.lo[p];
    forall o | o in m && cut < o ensures ord <= o {
      if o < ord {
        var j := StoredInside(pages, sh, root, levels, m, p, o);
      }
    }
  }

  lemma SkipsRefl(m: map<real, int>, cut: real)
    ensures Skips(m, cut, cut)
  {
  }

  lemma SkipsOn(m: map<real, int>, a: real, b: real, c: real)
    requires Skips(m, a, b) && Skips(m, b, c)
    ensures Skips(m, a, c)
  {
  }

  lemma NotStarted(pages: Pages, sh: Shape, spot: Spot, cut: real)
    requires AtCut(pages, sh, spot, cut) && spot.node == NULL
    ensures cut == -1.0
  {
  }

  lemma AtTheEnd(pages: Pages, sh: Shape, root: int, levels: nat, m: map<real, int>, spot: Spot, cut: real)
    requires Tree(pages, sh, root, levels) && Agrees(pages, sh, m) && AtCut(pages, sh, spot, cut) && spot.node == FREE
    ensures forall o :: o in m ==> o <= cut
  {
    SkipsRefl(m, 1.0);
    NothingAboveTop(pages, sh, root, levels, m, 1.0);
  }

  lemma InLeaf(pages: Pages, sh: Shape, spot: Spot, cut: real)
    requires AtCut(pages, sh, spot, cut) && spot.node != NULL && spot.node != FREE
    ensures ShapeOk(sh) && spot.node > 0 && spot.node in sh.level && spot.node in pages && pages[spot.node].Node?
    ensures -1 <= spot.index < |pages[spot.node].keys| == |pages[spot.node].values|
  {
    assert NodeOk(pages, sh, spot.node);
  }
}
