/** How removing climbs back from an emptied leaf (BPlusTree.cpp, Remove). */
module TreeRemove {
  import opened NodeLayout
  import opened TreeShape
  import opened TreeSteps
  import opened TreePath

  /** Remove has reached the last frame of `stack`.  At the leaf nothing has happened yet; above it the
      child of that frame has been freed and its interval is a gap in the levels below. */
  ghost predicate Removing(pages: Pages, sh: Shape, root: int, levels: nat, stack: seq<Frame>, gap: Gap,
                           ord: real, m: map<real, int>) {
    && 1 <= |stack| <= levels
    && NodesOk(pages, sh)
    && IsPath(pages, sh, root, levels, stack, levels - |stack|, ord)
    && Agrees(pages, sh, m)
    && gap.height == levels - |stack|
    && var f := stack[|stack| - 1];
    if |stack| == levels then
      gap == NO_GAP && Tree(pages, sh, root, levels)
    else
      && TreeExcept(pages, sh, root, levels, gap, Slot(f.node, f.index))
      && GapSlot(pages, sh, gap, f.node, f.index)
      && Child(pages[f.node], f.index) !in sh.level
  }

  ghost predicate LastIs(pages: Pages, stack: seq<Frame>, x: int) {
    |stack| > 0 && x == stack[|stack| - 1].node && x in pages && pages[x].Node? && |pages[x].keys| == |pages[x].values|
  }

  lemma AtRemoval(pages: Pages, sh: Shape, root: int, levels: nat, stack: seq<Frame>, gap: Gap, ord: real,
                  m: map<real, int>)
    requires Removing(pages, sh, root, levels, stack, gap, ord, m)
    ensures |stack| > 0
    ensures var f := stack[|stack| - 1];
            && LastIs(pages, stack, f.node) && f.node in sh.level && f.node in sh.lo && f.node in sh.hi
            && sh.level[f.node] == levels - |stack|
            && Sorted(pages[f.node].keys) && 0 <= f.index <= |pages[f.node].keys|
            && (pages[f.node].overflow == NULL <==> |stack| == levels)
            && (f.node == root <==> |stack| == 1)
            && (pages[f.node].left != NULL ==> pages[f.node].left in sh.level && pages[f.node].left != f.node)
            && (pages[f.node].right != NULL ==> pages[f.node].right in sh.level && pages[f.node].right != f.node)
            && NULL !in sh.level
  {
    var x := stack[|stack| - 1].node;
    assert OnPath(pages, sh, levels, stack, |stack| - 1, ord);
    assert NodeOk(pages, sh, x) && LeftOk(pages, sh, gap, x) && RightOk(pages, sh, gap, x);
    forall p | p in sh.level ensures p != NULL && (p == pages[x].left || p == pages[x].right ==> p != x) {
      assert NodeOk(pages, sh, p);
    }
  }

  /** The page can be dropped: it is a leaf with no more than the one key, or an upper page with no key. */
  lemma RemovalDrops(pages: Pages, sh: Shape, root: int, levels: nat, stack: seq<Frame>, gap: Gap, ord: real,
                     m: map<real, int>)
    requires Removing(pages, sh, root, levels, stack, gap, ord, m) && |stack| >= 2
    requires LastIs(pages, stack, stack[|stack| - 1].node)
    requires |stack| < levels ==> |pages[stack[|stack| - 1].node].keys| == 0
    ensures var x, up := stack[|stack| - 1].node, stack[..|stack| - 1];
            var slot := if |stack| == levels then NoSlot else Slot(x, 0);
            && Droppable(pages, sh, gap, slot, x)
            && SlotOf(pages, sh, x, Slot(up[|up| - 1].node, up[|up| - 1].index))
            && up[|up| - 1].node in sh.level
            && LeadsTo(pages, up[|up| - 1], x)
  {
    var x, up := stack[|stack| - 1].node, stack[..|stack| - 1];
    var f := up[|up| - 1];
    PathPrefix(pages, sh, root, levels, stack, ord);
    assert OnPath(pages, sh, levels, stack, |stack| - 1, ord);
    assert OnPath(pages, sh, levels, stack, |stack| - 2, ord);
    assert f == stack[|stack| - 2];
    var slot := if |stack| == levels then NoSlot else Slot(x, 0);
    assert slot != Slot(f.node, f.index);
    assert ChildOk(pages, sh, f.node, f.index);
    ChildHasOneSlot(pages, sh, slot, x, f.node, f.index);
  }

  /** After the page is gone the climb goes on one level up. */
  lemma AfterDrop(pages: Pages, sh: Shape, root: int, levels: nat, stack: seq<Frame>, gap: Gap, ord: real,
                  m: map<real, int>, pages': Pages, m': map<real, int>)
    requires Removing(pages, sh, root, levels, stack, gap, ord, m) && |stack| >= 2
    requires LastIs(pages, stack, stack[|stack| - 1].node)
    requires |stack| < levels ==> |pages[stack[|stack| - 1].node].keys| == 0
    requires IsUnlinked(pages, sh, stack[|stack| - 1].node, pages')
    requires var x := stack[|stack| - 1].node; x in sh.lo && x in sh.hi
    requires NodesOk(pages', DropShape(sh, stack[|stack| - 1].node))
             && Agrees(pages', DropShape(sh, stack[|stack| - 1].node), m')
    ensures var x := stack[|stack| - 1].node;
            Removing(pages', DropShape(sh, x), root, levels, stack[..|stack| - 1],
                     Gap(gap.height + 1, sh.lo[x], sh.hi[x]), ord, m')
  {
    hide NodeOk, ChildrenOk, LinksOk, Laminar, GapOk, Agrees, RootOk, OnPath, LeadsTo;
    var x, up := stack[|stack| - 1].node, stack[..|stack| - 1];
    var f := up[|up| - 1];
    var sh', gap' := DropShape(sh, x), Gap(gap.height + 1, sh.lo[x], sh.hi[x]);
    RemovalDrops(pages, sh, root, levels, stack, gap, ord, m);
    DropKeepsRoot(pages, sh, root, levels, stack, gap, ord, m);
    var slot := if |stack| == levels then NoSlot else Slot(x, 0);
    DropKeepsBody(pages, sh, gap, slot, x, pages', f.node, f.index);
    DropKeepsUpper(pages, sh, gap, x, pages');
    AtRemoval(pages, sh, root, levels, stack, gap, ord, m);
    PathPrefix(pages, sh, root, levels, stack, ord);
    PathSurvives(pages, sh, root, levels, up, ord, pages', sh');
    DroppedSlot(pages, sh, root, levels, stack, gap, ord, m);
  }

  lemma DropKeepsRoot(pages: Pages, sh: Shape, root: int, levels: nat, stack: seq<Frame>, gap: Gap, ord: real,
                      m: map<real, int>)
    requires Removing(pages, sh, root, levels, stack, gap, ord, m) && |stack| >= 2
    requires LastIs(pages, stack, stack[|stack| - 1].node)
    ensures RootOk(DropShape(sh, stack[|stack| - 1].node), root, levels)
  {
    AtRemoval(pages, sh, root, levels, stack, gap, ord, m);
  }

  /** The slot that pointed to the dropped page is for its interval. */
  lemma DroppedSlot(pages: Pages, sh: Shape, root: int, levels: nat, stack: seq<Frame>, gap: Gap, ord: real,
                    m: map<real, int>)
    requires Removing(pages, sh, root, levels, stack, gap, ord, m) && |stack| >= 2
    requires LastIs(pages, stack, stack[|stack| - 1].node)
    ensures var x, f := stack[|stack| - 1].node, stack[|stack| - 2];
            && f.node in sh.level && f.node != x && sh.level[f.node] == gap.height + 1 && x in sh.level
            && 0 <= f.index <= |pages[f.node].keys| && Child(pages[f.node], f.index) == x
            && sh.lo[x] == (if f.index == 0 then sh.lo[f.node] else pages[f.node].keys[f.index - 1].ord)
            && sh.hi[x] == (if f.index == |pages[f.node].keys| then sh.hi[f.node] else pages[f.node].keys[f.index].ord)
  {
    var x, f := stack[|stack| - 1].node, stack[|stack| - 2];
    PathPrefix(pages, sh, root, levels, stack, ord);
    assert OnPath(pages, sh, levels, stack, |stack| - 1, ord);
    assert OnPath(pages, sh, levels, stack, |stack| - 2, ord);
    assert ChildOk(pages, sh, f.node, f.index);
  }

  /** Unlinking writes only to pages of the same level. */
  lemma DropKeepsUpper(pages: Pages, sh: Shape, gap: Gap, x: int, pages': Pages)
    requires IsUnlinked(pages, sh, x, pages') && LinksOk(pages, sh, gap)
    ensures forall p :: p in sh.level && sh.level[p] != sh.level[x] ==>
              var sh' := DropShape(sh, x);
              p in sh'.level && p in pages' && pages'[p] == pages[p] && sh'.level[p] == sh.level[p]
              && sh'.lo[p] == sh.lo[p] && sh'.hi[p] == sh.hi[p]
  {
    assert NodeOk(pages, sh, x) && LeftOk(pages, sh, gap, x) && RightOk(pages, sh, gap, x);
    forall p | p in sh.level ensures NodeOk(pages, sh, p) {
    }
  }

  /** Dropping a leaf takes its one key with it; dropping an upper page takes nothing. */
  lemma DropContents(pages: Pages, sh: Shape, x: int, pages': Pages, m: map<real, int>)
    requires IsUnlinked(pages, sh, x, pages') && Laminar(sh) && Agrees(pages, sh, m)
    requires NodesOk(pages', DropShape(sh, x))
    requires sh.level[x] == 0 ==> |pages[x].keys| == 1
    ensures sh.level[x] > 0 ==> Agrees(pages', DropShape(sh, x), m)
    ensures sh.level[x] == 0 ==> pages[x].keys[0].ord in m && Agrees(pages', DropShape(sh, x), m - {pages[x].keys[0].ord})
  {
    var sh' := DropShape(sh, x);
    var m' := if sh.level[x] == 0 then m - {pages[x].keys[0].ord} else m;
    assert NodeOk(pages, sh, x);
    forall ord | ord in m' ensures Holds(pages', sh', ord, m'[ord]) {
      DropStillHolds(pages, sh, x, pages', ord, m[ord]);
    }
    forall p, j | p in sh'.level && sh'.level[p] == 0 && 0 <= j < |pages'[p].keys|
      ensures pages'[p].keys[j].ord in m' && m'[pages'[p].keys[j].ord] == pages'[p].values[j]
    {
      DropPair(pages, sh, x, pages', m, p, j);
    }
  }

  lemma DropPair(pages: Pages, sh: Shape, x: int, pages': Pages, m: map<real, int>, p: int, j: int)
    requires IsUnlinked(pages, sh, x, pages') && Laminar(sh) && Agrees(pages, sh, m)
    requires NodesOk(pages', DropShape(sh, x)) && p in sh.level && p != x && sh.level[p] == 0
    requires 0 <= j < |pages'[p].keys|
    requires sh.level[x] == 0 ==> |pages[x].keys| == 1
    ensures var ord := pages'[p].keys[j].ord;
            ord in m && m[ord] == pages'[p].values[j] && (sh.level[x] == 0 ==> ord != pages[x].keys[0].ord)
  {
    assert NodeOk(pages, sh, p) && NodeOk(pages, sh, x);
    assert sh.level[x] == 0 ==> Apart(sh, p, x);
    hide NodesOk, Laminar, NodeOk;
    assert pages'[p].keys == pages[p].keys && pages'[p].values == pages[p].values;
    assert pages[p].keys[j].ord in m;
  }

  lemma DropStillHolds(pages: Pages, sh: Shape, x: int, pages': Pages, ord: real, v: int)
    requires IsUnlinked(pages, sh, x, pages') && NodesOk(pages', DropShape(sh, x)) && Holds(pages, sh, ord, v)
    requires sh.level[x] == 0 ==> |pages[x].keys| == 1 && pages[x].keys[0].ord != ord
    ensures Holds(pages', DropShape(sh, x), ord, v)
  {
    var p, j :| StoredAt(pages, sh, ord, v, p, j);
    assert StoredAt(pages', DropShape(sh, x), ord, v, p, j);
  }

  /** A keyless root whose child is gone: the tree is empty. */
  lemma RootEmptied(pages: Pages, sh: Shape, root: int, levels: nat, stack: seq<Frame>, gap: Gap, ord: real,
                    m: map<real, int>)
    requires Removing(pages, sh, root, levels, stack, gap, ord, m) && |stack| == 1 && levels > 1
    requires LastIs(pages, stack, root) && |pages[root].keys| == 0
    ensures sh.level.Keys == {root} && m == map[]
    ensures pages[root].left == NULL && pages[root].right == NULL && root > 0
  {
    var f := stack[0];
    assert OnPath(pages, sh, levels, stack, 0, ord);
    OnlyRootLeft(pages, sh, root, levels, gap);
    assert NodeOk(pages, sh, root);
    NoLeafStoresNothing(pages, sh, m);
  }

  lemma NoLeafStoresNothing(pages: Pages, sh: Shape, m: map<real, int>)
    requires NodesOk(pages, sh) && Agrees(pages, sh, m)
    requires forall p :: p in sh.level ==> sh.level[p] > 0
    ensures m == map[]
  {
    forall o: real ensures o !in m {
      if o in m {
        assert false;
      }
    }
  }
}
