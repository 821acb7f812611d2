/** The way from the root to a page, and how inserting climbs back along it (BPlusTree.cpp). */
module TreePath {
  import opened NodeLayout
  import opened TreeShape
  import opened TreeSteps

  datatype Frame = Frame(node: int, index: int)

  /** The frames lead from the root down to level `low`, always to the child that is for `ord`. */
  ghost predicate IsPath(pages: Pages, sh: Shape, root: int, levels: nat, frames: seq<Frame>, low: nat, ord: real)
    requires NodesOk(pages, sh)
  {
    && |frames| + low == levels && (|frames| > 0 ==> frames[0].node == root)
    && (forall j :: 0 <= j < |frames| ==> OnPath(pages, sh, levels, frames, j, ord))
    && (forall j :: 0 <= j < |frames| - 1 ==> LeadsTo(pages, frames[j], frames[j + 1].node))
  }

  predicate LeadsTo(pages: Pages, f: Frame, child: int) {
    && f.node in pages && pages[f.node].Node?
    && 0 <= f.index <= |pages[f.node].keys| == |pages[f.node].values|
    && Child(pages[f.node], f.index) == child
  }

  ghost predicate OnPath(pages: Pages, sh: Shape, levels: nat, frames: seq<Frame>, j: int, ord: real)
    requires NodesOk(pages, sh) && 0 <= j < |frames|
  {
    var p := frames[j].node;
    && p in sh.level && sh.level[p] == levels - 1 - j
    && sh.lo[p] < ord <= sh.hi[p]
    && (sh.level[p] > 0 ==> IsPosition(pages[p].keys, ord, frames[j].index))
    && 0 <= frames[j].index <= |pages[p].keys|
  }

  /** Going to the child at the key's position keeps the key inside the interval. */
  lemma Descend(pages: Pages, sh: Shape, root: int, levels: nat, p: int, ord: real, i: int)
    requires Tree(pages, sh, root, levels) && p in sh.level && sh.level[p] > 0
    requires sh.lo[p] < ord <= sh.hi[p] && IsPosition(pages[p].keys, ord, i)
    ensures var c := Child(pages[p], i);
            c in sh.level && sh.level[c] + 1 == sh.level[p] && sh.lo[c] < ord <= sh.hi[c]
  {
    assert ChildOk(pages, sh, p, i);
  }

  lemma ExtendPath(pages: Pages, sh: Shape, root: int, levels: nat, frames: seq<Frame>, low: nat, ord: real, f: Frame)
    requires NodesOk(pages, sh) && IsPath(pages, sh, root, levels, frames, low + 1, ord)
    requires f.node in sh.level && sh.level[f.node] == low && sh.lo[f.node] < ord <= sh.hi[f.node]
    requires low > 0 ==> IsPosition(pages[f.node].keys, ord, f.index)
    requires 0 <= f.index <= |pages[f.node].keys|
    requires if frames == [] then f.node == root
             else LeadsTo(pages, frames[|frames| - 1], f.node)
    ensures IsPath(pages, sh, root, levels, frames + [f], low, ord)
  {
    var all := frames + [f];
    forall j | 0 <= j < |all| ensures OnPath(pages, sh, levels, all, j, ord) {
      if j < |frames| {
        assert OnPath(pages, sh, levels, frames, j, ord);
      }
    }
  }

  // ---- Inserting ----

  /** Insert has reached the last frame of `stack` with the pair (key, value) still to be put in:
      the new pair itself at a leaf, or the separator of the page just split below. */
  ghost predicate Inserting(pages: Pages, sh: Shape, root: int, levels: nat, stack: seq<Frame>,
                            newKey: Key, newValue: int, key: Key, value: int, m: map<real, int>) {
    && 1 <= |stack| <= levels
    && NodesOk(pages, sh)
    && IsPath(pages, sh, root, levels, stack, levels - |stack|, newKey.ord)
    && var f := stack[|stack| - 1];
    if |stack| == levels then
      Tree(pages, sh, root, levels) && Agrees(pages, sh, m) && key == newKey && value == newValue
    else
      && TreeExcept(pages, sh, root, levels, NO_GAP, Slot(f.node, f.index))
      && PendingAt(pages, sh, f.node, f.index, key, value)
      && Agrees(pages, sh, m[newKey.ord := newValue])
  }

  /** Where the pair goes in the page of the last frame. */
  ghost predicate InsertsAt(pages: Pages, stack: seq<Frame>, levels: nat, key: Key, i: int)
    requires |stack| > 0 && stack[|stack| - 1].node in pages && pages[stack[|stack| - 1].node].Node?
  {
    var f := stack[|stack| - 1];
    && IsPosition(pages[f.node].keys, key.ord, i)
    && (i < |pages[f.node].keys| ==> pages[f.node].keys[i].ord != key.ord)
    && (|stack| < levels ==> i == f.index)
  }

  function Filled(pages: Pages, x: int, i: int, key: Key, value: int): Pages
    requires x in pages && pages[x].Node? && 0 <= i <= |pages[x].keys| == |pages[x].values|
  {
    pages[x := InsertPair(pages[x], i, key, value)]
  }

  /** With the pair put in, however large the page gets, the tree is at rest and stores the new pair. */
  lemma FilledIsTree(pages: Pages, sh: Shape, root: int, levels: nat, stack: seq<Frame>,
                     newKey: Key, newValue: int, key: Key, value: int, m: map<real, int>, i: int)
    requires Inserting(pages, sh, root, levels, stack, newKey, newValue, key, value, m)
    requires LastIsNode(pages, sh, stack) && InsertsAt(pages, stack, levels, key, i)
    ensures var x := stack[|stack| - 1].node;
            && Tree(Filled(pages, x, i, key, value), sh, root, levels)
            && Agrees(Filled(pages, x, i, key, value), sh, m[newKey.ord := newValue])
  {
    hide Agrees, ChildrenOk, LinksOk, Laminar, Sorted, LeadsTo, InsertPair;
    var x := stack[|stack| - 1].node;
    assert OnPath(pages, sh, levels, stack, |stack| - 1, newKey.ord);
    if |stack| == levels {
      InsertIntoLeaf(pages, sh, root, levels, x, i, key, value, m);
    } else {
      InsertSeparator(pages, sh, root, levels, x, i, key, value);
      UpperEditKeepsContents(pages, Filled(pages, x, i, key, value), sh, m[newKey.ord := newValue]);
    }
  }

  ghost predicate LastIsNode(pages: Pages, sh: Shape, stack: seq<Frame>) {
    |stack| > 0 && stack[|stack| - 1].node in pages && pages[stack[|stack| - 1].node].Node?
    && |pages[stack[|stack| - 1].node].keys| == |pages[stack[|stack| - 1].node].values|
  }

  lemma LastFrameIsNode(pages: Pages, sh: Shape, root: int, levels: nat, stack: seq<Frame>, ord: real)
    requires NodesOk(pages, sh) && 1 <= |stack| <= levels
    requires IsPath(pages, sh, root, levels, stack, levels - |stack|, ord)
    ensures LastIsNode(pages, sh, stack) && stack[|stack| - 1].node in sh.level
    ensures sh.level[stack[|stack| - 1].node] == levels - |stack|
  {
    assert OnPath(pages, sh, levels, stack, |stack| - 1, ord);
    assert NodeOk(pages, sh, stack[|stack| - 1].node);
  }

  /** A path survives edits below its last frame. */
  lemma PathSurvives(pages: Pages, sh: Shape, root: int, levels: nat, stack: seq<Frame>, ord: real,
                     pages': Pages, sh': Shape)
    requires NodesOk(pages, sh) && NodesOk(pages', sh') && 1 <= |stack| < levels + 1
    requires IsPath(pages, sh, root, levels, stack, levels - |stack|, ord)
    requires forall p :: p in sh.level && sh.level[p] >= levels - |stack| ==>
               p in sh'.level && pages'[p] == pages[p] && sh'.level[p] == sh.level[p]
               && sh'.lo[p] == sh.lo[p] && sh'.hi[p] == sh.hi[p]
    ensures IsPath(pages', sh', root, levels, stack, levels - |stack|, ord)
  {
    forall j | 0 <= j < |stack| ensures OnPath(pages', sh', levels, stack, j, ord) {
      assert OnPath(pages, sh, levels, stack, j, ord);
    }
    forall j | 0 <= j < |stack| - 1 ensures LeadsTo(pages', stack[j], stack[j + 1].node) {
      assert LeadsTo(pages, stack[j], stack[j + 1].node) && OnPath(pages, sh, levels, stack, j, ord);
    }
  }

  lemma PathPrefix(pages: Pages, sh: Shape, root: int, levels: nat, stack: seq<Frame>, ord: real)
    requires NodesOk(pages, sh) && 2 <= |stack| <= levels
    requires IsPath(pages, sh, root, levels, stack, levels - |stack|, ord)
    ensures IsPath(pages, sh, root, levels, stack[..|stack| - 1], levels - |stack| + 1, ord)
    ensures LeadsTo(pages, stack[|stack| - 2], stack[|stack| - 1].node)
  {
    var up := stack[..|stack| - 1];
    forall j | 0 <= j < |up| ensures OnPath(pages, sh, levels, up, j, ord) {
      assert OnPath(pages, sh, levels, stack, j, ord);
    }
  }

  /** The frames above the page that was filled are still a path, and still lead to it. */
  lemma UpperPathSurvivesFill(pages: Pages, sh: Shape, root: int, levels: nat, stack: seq<Frame>, ord: real,
                              i: int, key: Key, value: int)
    requires NodesOk(pages, sh) && 2 <= |stack| <= levels
    requires IsPath(pages, sh, root, levels, stack, levels - |stack|, ord)
    requires LastIsNode(pages, sh, stack) && 0 <= i <= |pages[stack[|stack| - 1].node].keys|
    requires NodesOk(Filled(pages, stack[|stack| - 1].node, i, key, value), sh)
    ensures var x, up := stack[|stack| - 1].node, stack[..|stack| - 1];
            && IsPath(Filled(pages, x, i, key, value), sh, root, levels, up, levels - |up|, ord)
            && LeadsTo(Filled(pages, x, i, key, value), up[|up| - 1], x)
  {
    var x, up := stack[|stack| - 1].node, stack[..|stack| - 1];
    PathPrefix(pages, sh, root, levels, stack, ord);
    assert OnPath(pages, sh, levels, stack, |stack| - 1, ord);
    assert OnPath(pages, sh, levels, stack, |stack| - 2, ord);
    PathSurvives(pages, sh, root, levels, up, ord, Filled(pages, x, i, key, value), sh);
  }

  /** Splitting the filled page leaves its separator to be inserted one level up. */
  lemma AfterSplit(full: Pages, sh: Shape, root: int, levels: nat, up: seq<Frame>, newKey: Key, newValue: int,
                   x: int, out: int, other: int, m: map<real, int>)
    requires Tree(full, sh, root, levels) && Agrees(full, sh, m[newKey.ord := newValue])
    requires 1 <= |up| < levels && IsPath(full, sh, root, levels, up, levels - |up|, newKey.ord)
    requires LeadsTo(full, up[|up| - 1], x)
    requires Splittable(full, sh, x, out, other)
    ensures var sep := Separator(full[x], out);
            var pages', sh' := SplitPages(full, x, out, other), SplitShape(sh, x, sep.ord, other);
            Inserting(pages', sh', root, levels, up, newKey, newValue, sep, other, m)
  {
    var sep := Separator(full[x], out);
    var pages', sh' := SplitPages(full, x, out, other), SplitShape(sh, x, sep.ord, other);
    var f := up[|up| - 1];
    assert OnPath(full, sh, levels, up, |up| - 1, newKey.ord);
    assert ChildOk(full, sh, f.node, f.index);
    ChildHasOneSlot(full, sh, NoSlot, x, f.node, f.index);
    SplitKeepsBody(full, sh, x, out, other, Slot(f.node, f.index));
    SplitIsSplit(full, sh, x, out, other);
    SplitLeavesPending(full, sh, x, out, other, pages', sh', f.node, f.index);
    SplitKeepsContents(full, sh, x, out, other, pages', sh', m[newKey.ord := newValue]);
    SplitKeepsUpper(full, sh, x, out, other, pages', sh');
    PathSurvives(full, sh, root, levels, up, newKey.ord, pages', sh');
    NonRootIsLower(full, sh, root, levels, f.node, f.index);
  }

  lemma NonRootIsLower(pages: Pages, sh: Shape, root: int, levels: nat, p: int, i: int)
    requires Tree(pages, sh, root, levels) && p in sh.level && sh.level[p] > 0 && 0 <= i <= |pages[p].keys|
    ensures Child(pages[p], i) != root
  {
    assert ChildOk(pages, sh, p, i);
  }

  /** A split touches no page of another level. */
  lemma SplitKeepsUpper(pages: Pages, sh: Shape, x: int, out: int, other: int, pages': Pages, sh': Shape)
    requires IsSplit(pages, sh, x, out, other, pages', sh') && LinksOk(pages, sh, NO_GAP)
    ensures forall p :: p in sh.level && sh.level[p] != sh.level[x] ==>
              p in sh'.level && pages'[p] == pages[p] && sh'.level[p] == sh.level[p]
              && sh'.lo[p] == sh.lo[p] && sh'.hi[p] == sh.hi[p]
  {
    assert NodeOk(pages, sh, x) && LeftOk(pages, sh, NO_GAP, x);
    forall p | p in sh.level && sh.level[p] != sh.level[x] ensures NodeOk(pages, sh, p) {
    }
  }

  // ---- Every page is reached ----

  /** Every page of the tree is at the end of a path from the root: none is lost. */
  lemma {:induction false} EveryPageIsReached(pages: Pages, sh: Shape, root: int, levels: nat, p: int)
    returns (frames: seq<Frame>)
    requires Tree(pages, sh, root, levels) && p in sh.level
    ensures frames != [] && frames[|frames| - 1].node == p
    ensures IsPath(pages, sh, root, levels, frames, sh.level[p], sh.hi[p])
  {
    assert NodeOk(pages, sh, p) && NodeOk(pages, sh, root);
    frames := PathDown(pages, sh, root, levels, sh.level[p], sh.hi[p]);
    var last := frames[|frames| - 1].node;
    assert OnPath(pages, sh, levels, frames, |frames| - 1, sh.hi[p]);
    KeyHasOneLeaf(pages, sh, last, p, sh.hi[p]);
  }

  /** From the root a path leads down to any level, towards any place on the interval. */
  lemma {:induction false} PathDown(pages: Pages, sh: Shape, root: int, levels: nat, low: nat, ord: real)
    returns (frames: seq<Frame>)
    requires Tree(pages, sh, root, levels) && low < levels && -1.0 < ord <= 1.0
    ensures frames != [] && IsPath(pages, sh, root, levels, frames, low, ord)
    decreases levels - low
  {
    if low + 1 == levels {
      var i := PositionOf(pages[root].keys, ord);
      ExtendPath(pages, sh, root, levels, [], low, ord, Frame(root, i));
      frames := [] + [Frame(root, i)];
    } else {
      frames := PathDown(pages, sh, root, levels, low + 1, ord);
      var f := frames[|frames| - 1];
      assert OnPath(pages, sh, levels, frames, |frames| - 1, ord);
      assert NodeOk(pages, sh, f.node);
      Descend(pages, sh, root, levels, f.node, ord, f.index);
      var c := Child(pages[f.node], f.index);
      assert NodeOk(pages, sh, c);
      var i := PositionOf(pages[c].keys, ord);
      ExtendPath(pages, sh, root, levels, frames, low, ord, Frame(c, i));
      frames := frames + [Frame(c, i)];
    }
  }

  lemma {:induction false} PositionOf(keys: seq<Key>, ord: real) returns (i: int)
    requires Sorted(keys)
    ensures IsPosition(keys, ord, i)
  {
    i := 0;
    while i < |keys| && keys[i].ord < ord
      invariant 0 <= i <= |keys| && forall j :: 0 <= j < i ==> keys[j].ord < ord
    {
      i := i + 1;
    }
  }
}
