/** What each page edit does to the tree invariant and to the contents. */
module TreeSteps {
  import opened NodeLayout
  import opened TreeShape

  function InsertPair(node: Page, i: int, key: Key, value: int): (r: Page)
    requires node.Node? && 0 <= i <= |node.keys| == |node.values|
    ensures r.Node? && |r.keys| == |r.values| == |node.keys| + 1
    ensures r.left == node.left && r.right == node.right && r.overflow == node.overflow
  {
    node.(keys := node.keys[..i] + [key] + node.keys[i..], values := node.values[..i] + [value] + node.values[i..])
  }

  lemma PairOfInsert(node: Page, i: int, key: Key, value: int, j: int)
    requires node.Node? && 0 <= i <= |node.keys| == |node.values| && 0 <= j <= |node.keys|
    ensures var r := InsertPair(node, i, key, value);
            if j == i then r.keys[j] == key && r.values[j] == value
            else var k := if j < i then j else j - 1; r.keys[j] == node.keys[k] && r.values[j] == node.values[k]
  {
  }

  /** A new pair goes into the leaf whose interval it is in. */
  lemma InsertIntoLeaf(pages: Pages, sh: Shape, root: int, levels: nat, x: int, i: int, key: Key, value: int,
                       m: map<real, int>)
    requires Tree(pages, sh, root, levels) && Agrees(pages, sh, m)
    requires x in sh.level && sh.level[x] == 0 && sh.lo[x] < key.ord <= sh.hi[x]
    requires IsPosition(pages[x].keys, key.ord, i)
    requires i < |pages[x].keys| ==> pages[x].keys[i].ord != key.ord
    ensures Tree(pages[x := InsertPair(pages[x], i, key, value)], sh, root, levels)
    ensures Agrees(pages[x := InsertPair(pages[x], i, key, value)], sh, m[key.ord := value])
    ensures key.ord !in m
  {
    var pages' := pages[x := InsertPair(pages[x], i, key, value)];
    InsertKeepsNodes(pages, sh, x, i, key, value);
    LeafEditKeepsChildren(pages, pages', sh, NoSlot);
    LinksUnchanged(pages, pages', sh, NO_GAP);
    AbsentKey(pages, sh, x, i, key.ord, m);
    InsertedContents(pages, sh, x, i, key, value, m);
  }

  /** A key that its leaf lacks is nowhere. */
  lemma AbsentKey(pages: Pages, sh: Shape, x: int, i: int, ord: real, m: map<real, int>)
    requires NodesOk(pages, sh) && Laminar(sh) && Agrees(pages, sh, m)
    requires x in sh.level && sh.level[x] == 0 && sh.lo[x] < ord <= sh.hi[x]
    requires IsPosition(pages[x].keys, ord, i)
    requires i < |pages[x].keys| ==> pages[x].keys[i].ord != ord
    ensures ord !in m
  {
    if ord in m {
      var p, j :| StoredAt(pages, sh, ord, m[ord], p, j);
      assert NodeOk(pages, sh, p);
      KeyHasOneLeaf(pages, sh, p, x, ord);
      assert false;
    }
  }

  /** Leaf intervals do not overlap. */
  lemma KeyHasOneLeaf(pages: Pages, sh: Shape, p: int, x: int, ord: real)
    requires NodesOk(pages, sh) && Laminar(sh)
    requires p in sh.level && x in sh.level && sh.level[p] == sh.level[x]
    requires sh.lo[p] < ord <= sh.hi[p] && sh.lo[x] < ord <= sh.hi[x]
    ensures p == x
  {
    assert p != x ==> Apart(sh, p, x);
  }

  lemma InsertedContents(pages: Pages, sh: Shape, x: int, i: int, key: Key, value: int, m: map<real, int>)
    requires NodesOk(pages, sh) && Agrees(pages, sh, m)
    requires x in sh.level && sh.level[x] == 0 && 0 <= i <= |pages[x].keys|
    requires key.ord !in m
    requires NodesOk(pages[x := InsertPair(pages[x], i, key, value)], sh)
    ensures Agrees(pages[x := InsertPair(pages[x], i, key, value)], sh, m[key.ord := value])
  {
    var pages' := pages[x := InsertPair(pages[x], i, key, value)];
    var m' := m[key.ord := value];
    forall ord | ord in m' ensures Holds(pages', sh, ord, m'[ord]) {
      if ord == key.ord {
        assert StoredAt(pages', sh, ord, value, x, i);
      } else {
        StillHolds(pages, pages', sh, x, i, key, value, ord, m[ord]);
      }
    }
    forall p, j | p in sh.level && sh.level[p] == 0 && 0 <= j < |pages'[p].keys|
      ensures pages'[p].keys[j].ord in m' && m'[pages'[p].keys[j].ord] == pages'[p].values[j]
    {
      InsertedPair(pages, pages', sh, x, i, key, value, m, p, j);
    }
  }

  lemma InsertedPair(pages: Pages, pages': Pages, sh: Shape, x: int, i: int, key: Key, value: int, m: map<real, int>,
                     p: int, j: int)
    requires NodesOk(pages, sh) && Agrees(pages, sh, m)
    requires x in sh.level && sh.level[x] == 0 && 0 <= i <= |pages[x].keys| && key.ord !in m
    requires pages' == pages[x := InsertPair(pages[x], i, key, value)] && NodesOk(pages', sh)
    requires p in sh.level && sh.level[p] == 0 && 0 <= j < |pages'[p].keys|
    ensures var ord, m' := pages'[p].keys[j].ord, m[key.ord := value];
            ord in m' && m'[ord] == pages'[p].values[j]
  {
    assert NodeOk(pages, sh, p);
    if p == x {
      PairOfInsert(pages[x], i, key, value, j);
      hide NodeOk, InsertPair;
      assert j != i ==> pages[p].keys[if j < i then j else j - 1].ord in m;
    } else {
      assert pages[p].keys[j].ord in m;
    }
  }

  lemma StillHolds(pages: Pages, pages': Pages, sh: Shape, x: int, i: int, key: Key, value: int, ord: real, v: int)
    requires NodesOk(pages, sh) && Holds(pages, sh, ord, v)
    requires x in sh.level && 0 <= i <= |pages[x].keys|
    requires pages' == pages[x := InsertPair(pages[x], i, key, value)] && NodesOk(pages', sh)
    ensures Holds(pages', sh, ord, v)
  {
    var p, j :| StoredAt(pages, sh, ord, v, p, j);
    assert StoredAt(pages', sh, ord, v, p, if p == x && j >= i then j + 1 else j);
  }

  /** Upper pages that do not change keep their children. */
  lemma LeafEditKeepsChildren(pages: Pages, pages': Pages, sh: Shape, slot: Slot)
    requires NodesOk(pages, sh) && NodesOk(pages', sh) && ChildrenOk(pages, sh, slot)
    requires forall p :: p in sh.level && sh.level[p] > 0 ==> pages'[p] == pages[p]
    ensures ChildrenOk(pages', sh, slot)
  {
    forall p, j | p in sh.level && sh.level[p] > 0 && 0 <= j <= |pages'[p].keys| && slot != Slot(p, j)
      ensures ChildOk(pages', sh, p, j)
    {
      assert ChildOk(pages, sh, p, j);
    }
  }

  lemma InsertKeepsNodes(pages: Pages, sh: Shape, x: int, i: int, key: Key, value: int)
    requires NodesOk(pages, sh) && x in sh.level && sh.lo[x] < key.ord <= sh.hi[x]
    requires IsPosition(pages[x].keys, key.ord, i)
    requires i < |pages[x].keys| ==> pages[x].keys[i].ord != key.ord
    ensures NodesOk(pages[x := InsertPair(pages[x], i, key, value)], sh)
  {
    var pages' := pages[x := InsertPair(pages[x], i, key, value)];
    var old_, new_ := pages[x].keys, pages'[x].keys;
    assert NodeOk(pages, sh, x);
    assert forall j :: 0 <= j < |new_| ==> new_[j] == if j < i then old_[j] else if j == i then key else old_[j - 1];
    assert NodeOk(pages', sh, x);
    forall p | p in sh.level ensures NodeOk(pages', sh, p) {
      assert NodeOk(pages, sh, p);
    }
  }

  /** Edits of keys and values alone leave the links in order. */
  lemma LinksUnchanged(pages: Pages, pages': Pages, sh: Shape, gap: Gap)
    requires NodesOk(pages, sh) && NodesOk(pages', sh) && LinksOk(pages, sh, gap)
    requires forall p :: p in sh.level ==> pages[p].left == pages'[p].left && pages[p].right == pages'[p].right
    ensures LinksOk(pages', sh, gap)
  {
    forall p | p in sh.level ensures RightOk(pages', sh, gap, p) && LeftOk(pages', sh, gap, p) {
      assert RightOk(pages, sh, gap, p) && LeftOk(pages, sh, gap, p);
    }
  }

  /** Giving the parent the separator of a split child repairs the one open slot. */
  lemma InsertSeparator(pages: Pages, sh: Shape, root: int, levels: nat, x: int, i: int, sep: Key, other: int)
    requires TreeExcept(pages, sh, root, levels, NO_GAP, Slot(x, i))
    requires PendingAt(pages, sh, x, i, sep, other)
    ensures Tree(pages[x := InsertPair(pages[x], i, sep, other)], sh, root, levels)
  {
    PendingPosition(pages, sh, x, i, sep, other);
    InsertKeepsNodes(pages, sh, x, i, sep, other);
    LinksUnchanged(pages, pages[x := InsertPair(pages[x], i, sep, other)], sh, NO_GAP);
    SeparatorRepairsChildren(pages, sh, x, i, sep, other);
  }

  lemma PendingPosition(pages: Pages, sh: Shape, x: int, i: int, sep: Key, other: int)
    requires NodesOk(pages, sh) && PendingAt(pages, sh, x, i, sep, other)
    ensures IsPosition(pages[x].keys, sep.ord, i) && sh.lo[x] < sep.ord < sh.hi[x]
    ensures i < |pages[x].keys| ==> pages[x].keys[i].ord != sep.ord
  {
    assert NodeOk(pages, sh, x) && NodeOk(pages, sh, other) && NodeOk(pages, sh, Child(pages[x], i));
  }

  lemma SeparatorRepairsChildren(pages: Pages, sh: Shape, x: int, i: int, sep: Key, other: int)
    requires NodesOk(pages, sh) && ChildrenOk(pages, sh, Slot(x, i))
    requires PendingAt(pages, sh, x, i, sep, other)
    requires NodesOk(pages[x := InsertPair(pages[x], i, sep, other)], sh)
    ensures ChildrenOk(pages[x := InsertPair(pages[x], i, sep, other)], sh, NoSlot)
  {
    var pages' := pages[x := InsertPair(pages[x], i, sep, other)];
    forall p, j | p in sh.level && sh.level[p] > 0 && 0 <= j <= |pages'[p].keys|
      ensures ChildOk(pages', sh, p, j)
    {
      if p == x {
        RepairedChild(pages, pages', sh, x, i, sep, other, j);
      } else {
        assert ChildOk(pages, sh, p, j);
      }
    }
  }

  lemma RepairedChild(pages: Pages, pages': Pages, sh: Shape, x: int, i: int, sep: Key, other: int, j: int)
    requires NodesOk(pages, sh) && NodesOk(pages', sh) && PendingAt(pages, sh, x, i, sep, other)
    requires pages'[x] == InsertPair(pages[x], i, sep, other) && 0 <= j <= |pages'[x].keys|
    requires j < i ==> ChildOk(pages, sh, x, j)
    requires j > i + 1 ==> ChildOk(pages, sh, x, j - 1)
    ensures ChildOk(pages', sh, x, j)
  {
    var old_, new_ := pages[x], pages'[x];
    if j < i {
      assert new_.keys[j] == old_.keys[j] && (j > 0 ==> new_.keys[j - 1] == old_.keys[j - 1]);
      assert Child(new_, j) == Child(old_, j);
    } else if j > i + 1 {
      assert Child(new_, j) == Child(old_, j - 1);
    } else if j == i + 1 {
      assert Child(new_, j) == Child(old_, i);
    }
  }

  /** Child `i` of `x` was split: `other`, not yet anyone's child, took its keys up to `sep`. */
  ghost predicate PendingAt(pages: Pages, sh: Shape, x: int, i: int, sep: Key, other: int)
    requires NodesOk(pages, sh)
  {
    && x in sh.level && sh.level[x] > 0 && 0 <= i <= |pages[x].keys|
    && other in sh.level && sh.level[other] + 1 == sh.level[x]
    && sh.lo[other] == (if i == 0 then sh.lo[x] else pages[x].keys[i - 1].ord)
    && sh.hi[other] == sep.ord
    && var c := Child(pages[x], i);
    && c in sh.level && sh.level[c] + 1 == sh.level[x]
    && sh.lo[c] == sep.ord
    && sh.hi[c] == (if i == |pages[x].keys| then sh.hi[x] else pages[x].keys[i].ord)
  }

  /** An upper page holds no data, so separators do not matter to the contents. */
  lemma UpperEditKeepsContents(pages: Pages, pages': Pages, sh: Shape, m: map<real, int>)
    requires NodesOk(pages, sh) && NodesOk(pages', sh) && Agrees(pages, sh, m)
    requires forall p :: p in sh.level && sh.level[p] == 0 ==> pages'[p] == pages[p]
    ensures Agrees(pages', sh, m)
  {
    forall ord | ord in m ensures Holds(pages', sh, ord, m[ord]) {
      var p, j :| StoredAt(pages, sh, ord, m[ord], p, j);
      assert StoredAt(pages', sh, ord, m[ord], p, j);
    }
  }

  // ---- Splitting a page ----

  function LeftHalf(node: Page, out: int, x: int): Page
    requires node.Node? && 0 < out < |node.keys| == |node.values|
  {
    Node(node.left, x, if node.overflow == NULL then NULL else node.values[out], node.keys[..out], node.values[..out])
  }

  function RightHalf(node: Page, out: int, other: int): Page
    requires node.Node? && 0 < out < |node.keys| == |node.values|
  {
    var skip := if node.overflow == NULL then out else out + 1;
    node.(left := other, keys := node.keys[skip..], values := node.values[skip..])
  }

  function Separator(node: Page, out: int): Key
    requires node.Node? && 0 < out < |node.keys| == |node.values|
  {
    if node.overflow == NULL then node.keys[out - 1] else node.keys[out]
  }

  function SplitPages(pages: Pages, x: int, out: int, other: int): Pages
    requires x in pages && pages[x].Node? && 0 < out < |pages[x].keys| == |pages[x].values|
  {
    var node := pages[x];
    var halves := pages[x := RightHalf(node, out, other)][other := LeftHalf(node, out, x)];
    if node.left in halves && halves[node.left].Node? then halves[node.left := halves[node.left].(right := other)]
    else halves
  }

  function SplitShape(sh: Shape, x: int, sep: real, other: int): Shape
    requires x in sh.level && x in sh.lo
  {
    Shape(sh.level[other := sh.level[x]], sh.lo[other := sh.lo[x]][x := sep], sh.hi[other := sep])
  }

  ghost predicate Splittable(pages: Pages, sh: Shape, x: int, out: int, other: int) {
    && NodesOk(pages, sh) && x in sh.level && 0 < out < |pages[x].keys|
    && other > 0 && other !in sh.level
    && (sh.level[x] > 0 ==> ChildrenOk(pages, sh, NoSlot))
  }

  /** The separator lies strictly inside the page's interval. */
  lemma SeparatorInside(pages: Pages, sh: Shape, x: int, out: int, other: int)
    requires Splittable(pages, sh, x, out, other)
    ensures sh.lo[x] < Separator(pages[x], out).ord < sh.hi[x]
  {
    assert NodeOk(pages, sh, x);
    if sh.level[x] > 0 {
      assert ChildOk(pages, sh, x, out + 1);
      assert NodeOk(pages, sh, Child(pages[x], out + 1));
    } else {
      assert pages[x].keys[out - 1].ord < pages[x].keys[out].ord;
    }
  }

  lemma SplitKeepsNodes(pages: Pages, sh: Shape, x: int, out: int, other: int)
    requires Splittable(pages, sh, x, out, other)
    ensures var sep := Separator(pages[x], out).ord;
            NodesOk(SplitPages(pages, x, out, other), SplitShape(sh, x, sep, other))
  {
    var sep := Separator(pages[x], out).ord;
    var pages', sh' := SplitPages(pages, x, out, other), SplitShape(sh, x, sep, other);
    SeparatorInside(pages, sh, x, out, other);
    SplitHalvesOk(pages, sh, x, out, other);
    forall p | p in sh'.level ensures NodeOk(pages', sh', p) {
      if p != other && p != x {
        assert NodeOk(pages, sh, p);
        assert pages'[p].keys == pages[p].keys && pages'[p].values == pages[p].values;
      }
    }
  }

  /** Each half is a well-formed page for its part of the interval. */
  lemma SplitHalvesOk(pages: Pages, sh: Shape, x: int, out: int, other: int)
    requires Splittable(pages, sh, x, out, other)
    requires sh.lo[x] < Separator(pages[x], out).ord < sh.hi[x]
    ensures x in pages && pages[x].Node? && |pages[x].keys| == |pages[x].values|
    ensures var sep, left, right := Separator(pages[x], out).ord, LeftHalf(pages[x], out, x), RightHalf(pages[x], out, other);
            && Sorted(left.keys) && Sorted(right.keys)
            && |left.keys| == |left.values| && |right.keys| == |right.values|
            && (forall i :: 0 <= i < |left.keys| ==> sh.lo[x] < left.keys[i].ord <= sep)
            && (forall i :: 0 <= i < |right.keys| ==> sep < right.keys[i].ord <= sh.hi[x])
            && (left.overflow == NULL <==> sh.level[x] == 0) && (right.overflow == NULL <==> sh.level[x] == 0)
  {
    assert NodeOk(pages, sh, x);
    if sh.level[x] > 0 {
      assert ChildOk(pages, sh, x, out);
      assert NodeOk(pages, sh, Child(pages[x], out));
    }
  }

  lemma SplitKeepsLaminar(pages: Pages, sh: Shape, x: int, out: int, other: int)
    requires Splittable(pages, sh, x, out, other) && Laminar(sh)
    ensures Laminar(SplitShape(sh, x, Separator(pages[x], out).ord, other))
  {
    var sep := Separator(pages[x], out).ord;
    var sh' := SplitShape(sh, x, sep, other);
    SeparatorInside(pages, sh, x, out, other);
    assert sh'.level.Keys == sh.level.Keys + {other};
    forall p, q | p in sh'.level && q in sh'.level && p != q && sh'.level[p] <= sh'.level[q]
      ensures Apart(sh', p, q)
    {
      var p0, q0 := if p == other then x else p, if q == other then x else q;
      assert NodeOk(pages, sh, p0) && NodeOk(pages, sh, q0);
      if p0 != q0 {
        assert Apart(sh, p0, q0);
        if q0 == x && sh.level[p] < sh.level[x] {
          // A page below x does not cross the separator: the child that starts there does not.
          assert ChildOk(pages, sh, x, out + 1);
          var c := Child(pages[x], out + 1);
          assert p != c ==> Apart(sh, p, c);
          assert NodeOk(pages, sh, c);
        }
      }
    }
  }

  /** The pages after a split, page by page. */
  ghost predicate IsSplit(pages: Pages, sh: Shape, x: int, out: int, other: int, pages': Pages, sh': Shape)
  {
    && Splittable(pages, sh, x, out, other)
    && sh' == SplitShape(sh, x, Separator(pages[x], out).ord, other)
    && NodesOk(pages', sh')
    && x in pages' && pages'[x] == RightHalf(pages[x], out, other)
    && other in pages' && pages'[other] == LeftHalf(pages[x], out, x)
    && forall p :: p in sh.level && p != x ==>
         p in pages' && pages'[p] == if p == pages[x].left then pages[p].(right := other) else pages[p]
  }

  lemma SplitIsSplit(pages: Pages, sh: Shape, x: int, out: int, other: int)
    requires Splittable(pages, sh, x, out, other) && LinksOk(pages, sh, NO_GAP)
    ensures IsSplit(pages, sh, x, out, other, SplitPages(pages, x, out, other),
                    SplitShape(sh, x, Separator(pages[x], out).ord, other))
  {
    SplitKeepsNodes(pages, sh, x, out, other);
    assert NodeOk(pages, sh, x);
    assert LeftOk(pages, sh, NO_GAP, x);
    var l := pages[x].left;
    if l != NULL {
      assert NodeOk(pages, sh, l) && l != x;
    } else {
      assert forall p :: p in sh.level ==> NodeOk(pages, sh, p);
    }
  }

  lemma SplitKeepsLink(pages: Pages, sh: Shape, x: int, out: int, other: int, pages': Pages, sh': Shape, p: int)
    requires IsSplit(pages, sh, x, out, other, pages', sh') && p in sh'.level
    requires LeftOk(pages, sh, NO_GAP, x) && RightOk(pages, sh, NO_GAP, x)
    requires p in sh.level ==> RightOk(pages, sh, NO_GAP, p) && LeftOk(pages, sh, NO_GAP, p)
    ensures RightOk(pages', sh', NO_GAP, p) && LeftOk(pages', sh', NO_GAP, p)
  {
    assert NodeOk(pages, sh, x);
  }

  lemma SplitKeepsLinks(pages: Pages, sh: Shape, x: int, out: int, other: int, pages': Pages, sh': Shape)
    requires IsSplit(pages, sh, x, out, other, pages', sh') && LinksOk(pages, sh, NO_GAP)
    ensures LinksOk(pages', sh', NO_GAP)
  {
    forall p | p in sh'.level ensures RightOk(pages', sh', NO_GAP, p) && LeftOk(pages', sh', NO_GAP, p) {
      SplitKeepsLink(pages, sh, x, out, other, pages', sh', p);
    }
  }

  lemma SplitLeftChild(pages: Pages, sh: Shape, x: int, out: int, other: int, pages': Pages, sh': Shape, i: int)
    requires IsSplit(pages, sh, x, out, other, pages', sh') && sh.level[x] > 0
    requires 0 <= i <= out && i <= |pages[x].keys| && ChildOk(pages, sh, x, i)
    ensures |pages'[other].keys| == out && ChildOk(pages', sh', other, i)
  {
    assert NodeOk(pages, sh, x);
    assert NodeOk(pages, sh, Child(pages[x], i));
    assert Child(pages'[other], i) == Child(pages[x], i);
  }

  lemma SplitRightChild(pages: Pages, sh: Shape, x: int, out: int, other: int, pages': Pages, sh': Shape, i: int)
    requires IsSplit(pages, sh, x, out, other, pages', sh') && sh.level[x] > 0
    requires 0 <= i <= |pages[x].keys| - out - 1 && ChildOk(pages, sh, x, i + out + 1)
    ensures |pages'[x].keys| == |pages[x].keys| - out - 1 && ChildOk(pages', sh', x, i)
  {
    assert NodeOk(pages, sh, x);
    assert NodeOk(pages, sh, Child(pages[x], i + out + 1));
    assert Child(pages'[x], i) == Child(pages[x], i + out + 1);
  }

  lemma SplitOtherChild(pages: Pages, sh: Shape, x: int, out: int, other: int, pages': Pages, sh': Shape,
                        p: int, i: int)
    requires IsSplit(pages, sh, x, out, other, pages', sh')
    requires p in sh.level && sh.level[p] > 0 && p != x
    requires 0 <= i <= |pages[p].keys| && ChildOk(pages, sh, p, i) && Child(pages[p], i) != x
    ensures |pages'[p].keys| == |pages[p].keys| && ChildOk(pages', sh', p, i)
  {
    assert NodeOk(pages, sh, p);
    assert NodeOk(pages, sh, Child(pages[p], i));
  }

  lemma SplitKeepsChildren(pages: Pages, sh: Shape, x: int, out: int, other: int, pages': Pages, sh': Shape, slot: Slot)
    requires IsSplit(pages, sh, x, out, other, pages', sh')
    requires ChildrenOk(pages, sh, NoSlot) && SlotOf(pages, sh, x, slot)
    ensures ChildrenOk(pages', sh', slot)
  {
    forall p, i | p in sh'.level && sh'.level[p] > 0 && 0 <= i <= |pages'[p].keys| && slot != Slot(p, i)
      ensures ChildOk(pages', sh', p, i)
    {
      assert NodeOk(pages, sh, x);
      if p == other {
        SplitLeftChild(pages, sh, x, out, other, pages', sh', i);
      } else if p == x {
        SplitRightChild(pages, sh, x, out, other, pages', sh', i);
      } else {
        assert NodeOk(pages, sh, p);
        SplitOtherChild(pages, sh, x, out, other, pages', sh', p, i);
      }
    }
  }

  /** No other position than `slot` points to `x`. */
  ghost predicate SlotOf(pages: Pages, sh: Shape, x: int, slot: Slot)
    requires NodesOk(pages, sh)
  {
    forall p, i :: p in sh.level && sh.level[p] > 0 && 0 <= i <= |pages[p].keys| && slot != Slot(p, i)
      ==> Child(pages[p], i) != x
  }

  /** Splitting `x` leaves just the slot that points to `x` to be repaired. */
  lemma SplitKeepsBody(pages: Pages, sh: Shape, x: int, out: int, other: int, slot: Slot)
    requires Splittable(pages, sh, x, out, other) && Body(pages, sh, NO_GAP, NoSlot)
    requires SlotOf(pages, sh, x, slot)
    ensures var sep := Separator(pages[x], out).ord;
            Body(SplitPages(pages, x, out, other), SplitShape(sh, x, sep, other), NO_GAP, slot)
  {
    var pages', sh' := SplitPages(pages, x, out, other), SplitShape(sh, x, Separator(pages[x], out).ord, other);
    SplitIsSplit(pages, sh, x, out, other);
    SplitKeepsLinks(pages, sh, x, out, other, pages', sh');
    SplitKeepsLaminar(pages, sh, x, out, other);
    SplitKeepsChildren(pages, sh, x, out, other, pages', sh', slot);
  }

  lemma SplitKeepsContents(pages: Pages, sh: Shape, x: int, out: int, other: int, pages': Pages, sh': Shape,
                           m: map<real, int>)
    requires IsSplit(pages, sh, x, out, other, pages', sh') && Agrees(pages, sh, m)
    ensures Agrees(pages', sh', m)
  {
    forall ord | ord in m ensures Holds(pages', sh', ord, m[ord]) {
      SplitStillHolds(pages, sh, x, out, other, pages', sh', ord, m[ord]);
    }
    forall p, j | p in sh'.level && sh'.level[p] == 0 && 0 <= j < |pages'[p].keys|
      ensures pages'[p].keys[j].ord in m && m[pages'[p].keys[j].ord] == pages'[p].values[j]
    {
      SplitPair(pages, sh, x, out, other, pages', sh', m, p, j);
    }
  }

  lemma SplitPair(pages: Pages, sh: Shape, x: int, out: int, other: int, pages': Pages, sh': Shape,
                  m: map<real, int>, p: int, j: int)
    requires IsSplit(pages, sh, x, out, other, pages', sh') && Agrees(pages, sh, m)
    requires p in sh'.level && sh'.level[p] == 0 && 0 <= j < |pages'[p].keys|
    ensures pages'[p].keys[j].ord in m && m[pages'[p].keys[j].ord] == pages'[p].values[j]
  {
    hide LeftHalf, RightHalf, Laminar, ChildrenOk, Sorted, Holds;
    assert NodeOk(pages, sh, x);
    var p0, j0 := if p == other then x else p, if p == x then j + out else j;
    if p0 == x {
      PairOfSplit(pages[x], out, x, other);
    }
    assert pages'[p].keys[j] == pages[p0].keys[j0] && pages'[p].values[j] == pages[p0].values[j0];
    assert pages[p0].keys[j0].ord in m;
  }

  lemma PairOfSplit(node: Page, out: int, x: int, other: int)
    requires node.Node? && 0 < out < |node.keys| == |node.values| && node.overflow == NULL
    ensures var l, r := LeftHalf(node, out, x), RightHalf(node, out, other);
            && |l.keys| == |l.values| == out && |r.keys| == |r.values| == |node.keys| - out
            && (forall j :: 0 <= j < out ==> l.keys[j] == node.keys[j] && l.values[j] == node.values[j])
            && (forall j :: 0 <= j < |r.keys| ==> r.keys[j] == node.keys[j + out] && r.values[j] == node.values[j + out])
  {
  }

  lemma SplitStillHolds(pages: Pages, sh: Shape, x: int, out: int, other: int, pages': Pages, sh': Shape,
                        ord: real, v: int)
    requires IsSplit(pages, sh, x, out, other, pages', sh') && Holds(pages, sh, ord, v)
    ensures Holds(pages', sh', ord, v)
  {
    var p, j :| StoredAt(pages, sh, ord, v, p, j);
    if p == x {
      SplitMovesPair(pages, sh, x, out, other, pages', sh', ord, v, j);
    } else {
      hide LeftHalf, RightHalf, Laminar, ChildrenOk, Sorted;
      assert NodeOk(pages, sh, p);
      assert StoredAt(pages', sh', ord, v, p, j);
    }
  }

  lemma SplitMovesPair(pages: Pages, sh: Shape, x: int, out: int, other: int, pages': Pages, sh': Shape, ord: real, v: int, j: int)
    requires IsSplit(pages, sh, x, out, other, pages', sh') && NodesOk(pages, sh) && StoredAt(pages, sh, ord, v, x, j)
    ensures NodesOk(pages', sh') && Holds(pages', sh', ord, v)
  {
    hide LeftHalf, RightHalf, Laminar, ChildrenOk, Sorted;
    assert NodeOk(pages, sh, x);
    PairOfSplit(pages[x], out, x, other);
    assert StoredAt(pages', sh', ord, v, if j < out then other else x, if j < out then j else j - out);
  }

  /** A page is the child of one slot at most. */
  lemma ChildHasOneSlot(pages: Pages, sh: Shape, except: Slot, x: int, pp: int, pi: int)
    requires NodesOk(pages, sh) && ChildrenOk(pages, sh, except) && Laminar(sh)
    requires pp in sh.level && sh.level[pp] > 0 && 0 <= pi <= |pages[pp].keys| && ChildOk(pages, sh, pp, pi)
    requires Child(pages[pp], pi) == x
    requires except != NoSlot ==> 0 <= except.index <= (if except.page in sh.level then |pages[except.page].keys| else 0)
                                  && except.page in sh.level && Child(pages[except.page], except.index) != x
    ensures SlotOf(pages, sh, x, Slot(pp, pi))
  {
    assert NodeOk(pages, sh, x);
    forall p, i | p in sh.level && sh.level[p] > 0 && 0 <= i <= |pages[p].keys| && Slot(pp, pi) != Slot(p, i)
      ensures Child(pages[p], i) != x
    {
      assert NodeOk(pages, sh, p) && NodeOk(pages, sh, pp);
      if Child(pages[p], i) == x {
        SlotsAgree(pages, sh, x, pp, pi, p, i);
        assert false;
      }
    }
  }

  lemma SlotsAgree(pages: Pages, sh: Shape, x: int, pp: int, pi: int, p: int, i: int)
    requires NodesOk(pages, sh) && Laminar(sh)
    requires pp in sh.level && sh.level[pp] > 0 && 0 <= pi <= |pages[pp].keys| && ChildOk(pages, sh, pp, pi)
    requires p in sh.level && sh.level[p] > 0 && 0 <= i <= |pages[p].keys| && ChildOk(pages, sh, p, i)
    requires Child(pages[pp], pi) == Child(pages[p], i)
    ensures p == pp && i == pi
  {
    assert NodeOk(pages, sh, p) && NodeOk(pages, sh, pp) && NodeOk(pages, sh, Child(pages[p], i));
    assert p != pp ==> Apart(sh, p, pp);
  }

  lemma RootHasNoSlot(pages: Pages, sh: Shape, root: int, levels: nat)
    requires Tree(pages, sh, root, levels)
    ensures SlotOf(pages, sh, root, NoSlot)
  {
    forall p, i | p in sh.level && sh.level[p] > 0 && 0 <= i <= |pages[p].keys|
      ensures Child(pages[p], i) != root
    {
      assert ChildOk(pages, sh, p, i);
    }
  }

  /** After a split, the parent's slot waits for the separator. */
  lemma SplitLeavesPending(pages: Pages, sh: Shape, x: int, out: int, other: int, pages': Pages, sh': Shape,
                           pp: int, pi: int)
    requires IsSplit(pages, sh, x, out, other, pages', sh')
    requires pp in sh.level && sh.level[pp] > 0 && 0 <= pi <= |pages[pp].keys|
    requires ChildOk(pages, sh, pp, pi) && Child(pages[pp], pi) == x
    ensures PendingAt(pages', sh', pp, pi, Separator(pages[x], out), other)
  {
    assert NodeOk(pages, sh, pp);
  }

  /** A split root gets a new page above it. */
  lemma GrowRoot(pages: Pages, sh: Shape, root: int, levels: nat, out: int, other: int, pages': Pages, sh': Shape,
                 newRoot: int)
    requires IsSplit(pages, sh, root, out, other, pages', sh') && RootOk(sh, root, levels)
    requires Body(pages', sh', NO_GAP, NoSlot)
    requires newRoot > 0 && newRoot !in sh'.level
    ensures var sep := Separator(pages[root], out);
            Tree(pages'[newRoot := Node(NULL, NULL, root, [sep], [other])],
                 Shape(sh'.level[newRoot := levels], sh'.lo[newRoot := -1.0], sh'.hi[newRoot := 1.0]), newRoot, levels + 1)
  {
    var sep := Separator(pages[root], out);
    var pages2 := pages'[newRoot := Node(NULL, NULL, root, [sep], [other])];
    var sh2 := Shape(sh'.level[newRoot := levels], sh'.lo[newRoot := -1.0], sh'.hi[newRoot := 1.0]);
    SeparatorInside(pages, sh, root, out, other);
    GrowRootNodes(pages', sh', newRoot, levels, pages2, sh2);
    GrowRootLinks(pages', sh', newRoot, levels, pages2, sh2);
    forall p, i | p in sh2.level && sh2.level[p] > 0 && 0 <= i <= |pages2[p].keys| ensures ChildOk(pages2, sh2, p, i) {
      if p != newRoot { assert ChildOk(pages', sh', p, i); }
    }
  }

  lemma GrowRootNodes(pages: Pages, sh: Shape, newRoot: int, levels: nat, pages2: Pages, sh2: Shape)
    requires NodesOk(pages, sh) && Laminar(sh) && newRoot !in sh.level && newRoot > 0 && levels > 0
    requires forall p :: p in sh.level ==> sh.level[p] < levels
    requires sh2 == Shape(sh.level[newRoot := levels], sh.lo[newRoot := -1.0], sh.hi[newRoot := 1.0])
    requires newRoot in pages2 && pages2 == pages[newRoot := pages2[newRoot]] && pages2[newRoot].Node?
    requires |pages2[newRoot].keys| == |pages2[newRoot].values| == 1 && pages2[newRoot].overflow != NULL
    requires -1.0 < pages2[newRoot].keys[0].ord <= 1.0
    ensures NodesOk(pages2, sh2) && Laminar(sh2)
  {
    forall p | p in sh2.level ensures NodeOk(pages2, sh2, p) {
      if p != newRoot { assert NodeOk(pages, sh, p); }
    }
    forall p, q | p in sh2.level && q in sh2.level && p != q && sh2.level[p] <= sh2.level[q] ensures Apart(sh2, p, q) {
      if q != newRoot {
        assert Apart(sh, p, q);
      } else {
        assert NodeOk(pages, sh, p);
      }
    }
  }

  lemma GrowRootLinks(pages: Pages, sh: Shape, newRoot: int, levels: nat, pages2: Pages, sh2: Shape)
    requires NodesOk(pages, sh) && LinksOk(pages, sh, NO_GAP) && newRoot !in sh.level && newRoot > 0
    requires sh2 == Shape(sh.level[newRoot := levels], sh.lo[newRoot := -1.0], sh.hi[newRoot := 1.0])
    requires newRoot in pages2 && pages2 == pages[newRoot := pages2[newRoot]] && NodesOk(pages2, sh2)
    requires pages2[newRoot].Node? && pages2[newRoot].left == NULL && pages2[newRoot].right == NULL
    ensures LinksOk(pages2, sh2, NO_GAP)
  {
    forall p | p in sh2.level ensures RightOk(pages2, sh2, NO_GAP, p) && LeftOk(pages2, sh2, NO_GAP, p) {
      if p != newRoot {
        assert RightOk(pages, sh, NO_GAP, p) && LeftOk(pages, sh, NO_GAP, p);
      }
    }
  }

  // ---- Removing a key ----

  function RemovePair(node: Page, i: int): (r: Page)
    requires node.Node? && 0 <= i < |node.keys| == |node.values|
    ensures r.Node? && |r.keys| == |r.values| == |node.keys| - 1
    ensures r.left == node.left && r.right == node.right && r.overflow == node.overflow
  {
    node.(keys := node.keys[..i] + node.keys[i + 1..], values := node.values[..i] + node.values[i + 1..])
  }

  /** Dropping the overflow link drops the last key instead and takes over its value. */
  function RemoveSlot(node: Page, i: int): Page
    requires node.Node? && 0 <= i <= |node.keys| == |node.values| && |node.keys| > 0
  {
    if i == |node.keys| then RemovePair(node.(overflow := node.values[i - 1]), i - 1) else RemovePair(node, i)
  }

  lemma RemoveFromLeaf(pages: Pages, sh: Shape, root: int, levels: nat, x: int, i: int, m: map<real, int>)
    requires Tree(pages, sh, root, levels) && Agrees(pages, sh, m)
    requires x in sh.level && sh.level[x] == 0 && 0 <= i < |pages[x].keys|
    ensures Tree(pages[x := RemovePair(pages[x], i)], sh, root, levels)
    ensures pages[x].keys[i].ord in m
    ensures Agrees(pages[x := RemovePair(pages[x], i)], sh, m - {pages[x].keys[i].ord})
  {
    var pages' := pages[x := RemovePair(pages[x], i)];
    RemoveKeepsNodes(pages, sh, x, i);
    LeafEditKeepsChildren(pages, pages', sh, NoSlot);
    LinksUnchanged(pages, pages', sh, NO_GAP);
    RemovedContents(pages, sh, x, i, pages', m);
  }

  lemma RemoveKeepsNodes(pages: Pages, sh: Shape, x: int, i: int)
    requires NodesOk(pages, sh) && x in sh.level && 0 <= i < |pages[x].keys|
    ensures NodesOk(pages[x := RemovePair(pages[x], i)], sh)
  {
    var pages' := pages[x := RemovePair(pages[x], i)];
    assert NodeOk(pages, sh, x);
    assert forall j :: 0 <= j < |pages'[x].keys| ==> pages'[x].keys[j] == pages[x].keys[if j < i then j else j + 1];
    assert NodeOk(pages', sh, x);
    forall p | p in sh.level ensures NodeOk(pages', sh, p) {
      assert NodeOk(pages, sh, p);
    }
  }

  lemma RemovedContents(pages: Pages, sh: Shape, x: int, i: int, pages': Pages, m: map<real, int>)
    requires NodesOk(pages, sh) && Laminar(sh) && Agrees(pages, sh, m)
    requires x in sh.level && sh.level[x] == 0 && 0 <= i < |pages[x].keys|
    requires pages' == pages[x := RemovePair(pages[x], i)] && NodesOk(pages', sh)
    ensures Agrees(pages', sh, m - {pages[x].keys[i].ord})
  {
    hide Laminar, Sorted, StoredAt;
    var gone := pages[x].keys[i].ord;
    var m' := m - {gone};
    forall ord | ord in m' ensures Holds(pages', sh, ord, m'[ord]) {
      OthersStillHold(pages, sh, x, i, pages', ord, m[ord]);
    }
    forall p, j | p in sh.level && sh.level[p] == 0 && 0 <= j < |pages'[p].keys|
      ensures pages'[p].keys[j].ord in m' && m'[pages'[p].keys[j].ord] == pages'[p].values[j]
    {
      RemainingPair(pages, sh, x, i, pages', p, j, m);
    }
  }

  lemma OthersStillHold(pages: Pages, sh: Shape, x: int, i: int, pages': Pages, ord: real, v: int)
    requires NodesOk(pages, sh) && Holds(pages, sh, ord, v)
    requires x in sh.level && sh.level[x] == 0 && 0 <= i < |pages[x].keys| && pages[x].keys[i].ord != ord
    requires pages' == pages[x := RemovePair(pages[x], i)] && NodesOk(pages', sh)
    ensures Holds(pages', sh, ord, v)
  {
    hide Sorted;
    var p, j :| StoredAt(pages, sh, ord, v, p, j);
    assert NodeOk(pages, sh, x) && NodeOk(pages, sh, p);
    assert StoredAt(pages', sh, ord, v, p, if p == x && j > i then j - 1 else j);
  }

  /** A pair left after the removal was there before, under another key. */
  lemma RemainingPair(pages: Pages, sh: Shape, x: int, i: int, pages': Pages, p: int, j: int, m: map<real, int>)
    requires NodesOk(pages, sh) && Laminar(sh) && Agrees(pages, sh, m)
    requires x in sh.level && sh.level[x] == 0 && 0 <= i < |pages[x].keys|
    requires pages' == pages[x := RemovePair(pages[x], i)] && NodesOk(pages', sh)
    requires p in sh.level && sh.level[p] == 0 && 0 <= j < |pages'[p].keys|
    ensures var ord := pages'[p].keys[j].ord;
            ord != pages[x].keys[i].ord && ord in m && m[ord] == pages'[p].values[j]
  {
    assert NodeOk(pages, sh, p) && NodeOk(pages, sh, x);
    assert p != x ==> Apart(sh, p, x);
    if p == x {
      PairOfRemove(pages[x], i, j);
    }
    assert pages[p].keys[if p == x && j >= i then j + 1 else j].ord in m;
  }

  lemma PairOfRemove(node: Page, i: int, j: int)
    requires node.Node? && 0 <= i < |node.keys| == |node.values| && 0 <= j < |node.keys| - 1
    ensures var r, k := RemovePair(node, i), if j >= i then j + 1 else j;
            r.keys[j] == node.keys[k] && r.values[j] == node.values[k]
  {
  }

  /** Pages after taking page `x` out of its list. */
  function UnlinkPages(pages: Pages, x: int): Pages
    requires x in pages && pages[x].Node?
  {
    var l, r := pages[x].left, pages[x].right;
    var p1 := if l in pages && pages[l].Node? then pages[l := pages[l].(right := r)] else pages;
    if r in p1 && p1[r].Node? then p1[r := p1[r].(left := l)] else p1
  }

  function DropShape(sh: Shape, x: int): Shape {
    Shape(sh.level - {x}, sh.lo - {x}, sh.hi - {x})
  }

  /** Page `x` is about to go: a leaf, or an upper page whose only child has gone. */
  ghost predicate Droppable(pages: Pages, sh: Shape, gap: Gap, slot: Slot, x: int) {
    && Body(pages, sh, gap, slot)
    && x in sh.level && sh.level[x] == gap.height
    && (if gap.height == 0 then slot == NoSlot
        else slot == Slot(x, 0) && |pages[x].keys| == 0 && gap.lo == sh.lo[x] && gap.hi == sh.hi[x])
  }

  ghost predicate IsUnlinked(pages: Pages, sh: Shape, x: int, pages': Pages) {
    && NodesOk(pages, sh) && x in sh.level
    && forall p :: p in sh.level && p != x ==>
         p in pages' && pages'[p] == (if p == pages[x].left then (if p == pages[x].right then pages[p].(left := pages[x].left, right := pages[x].right) else pages[p].(right := pages[x].right))
                      else if p == pages[x].right then pages[p].(left := pages[x].left) else pages[p])
  }

  lemma UnlinkIsUnlinked(pages: Pages, sh: Shape, gap: Gap, x: int)
    requires NodesOk(pages, sh) && LinksOk(pages, sh, gap) && x in sh.level
    ensures IsUnlinked(pages, sh, x, UnlinkPages(pages, x))
  {
    assert NodeOk(pages, sh, x);
    assert LeftOk(pages, sh, gap, x) && RightOk(pages, sh, gap, x);
    forall p | p in sh.level ensures NodeOk(pages, sh, p) {
    }
  }

  lemma DropKeepsNodes(pages: Pages, sh: Shape, x: int, pages': Pages)
    requires IsUnlinked(pages, sh, x, pages')
    ensures NodesOk(pages', DropShape(sh, x))
  {
    var sh' := DropShape(sh, x);
    forall p | p in sh'.level ensures NodeOk(pages', sh', p) {
      assert NodeOk(pages, sh, p);
    }
  }

  /** The gap that opens with the page, if there is one yet, is the page's interval. */
  ghost predicate Spans(sh: Shape, gap: Gap, x: int)
    requires ShapeOk(sh) && x in sh.level
  {
    sh.level[x] == gap.height && (gap.height > 0 ==> gap.lo == sh.lo[x] && gap.hi == sh.hi[x])
  }

  lemma RealPage(pages: Pages, sh: Shape, p: int)
    requires NodesOk(pages, sh) && p in sh.level
    ensures p > 0 && p in pages && pages[p].Node?
  {
    assert NodeOk(pages, sh, p);
  }

  lemma DropKeepsRight(pages: Pages, sh: Shape, gap: Gap, x: int, pages': Pages, p: int)
    requires NodesOk(pages, sh) && IsUnlinked(pages, sh, x, pages') && Spans(sh, gap, x)
    requires RightOk(pages, sh, gap, x) && LeftOk(pages, sh, gap, x)
    requires p in sh.level && p != x && RightOk(pages, sh, gap, p)
    requires NodesOk(pages', DropShape(sh, x))
    ensures RightOk(pages', DropShape(sh, x), Gap(gap.height + 1, sh.lo[x], sh.hi[x]), p)
  {
    hide NodeOk, Sorted;
    RealPage(pages, sh, x);
    RealPage(pages, sh, p);
    var q := pages[p].right;
    if q == x {
      assert pages'[p].right == pages[x].right;
    } else {
      assert q != NULL && q == pages[x].right ==> p == x;
      assert p != pages[x].left;
      assert pages'[p].right == q;
    }
  }

  lemma DropKeepsLeft(pages: Pages, sh: Shape, gap: Gap, x: int, pages': Pages, p: int)
    requires NodesOk(pages, sh) && IsUnlinked(pages, sh, x, pages') && Spans(sh, gap, x)
    requires RightOk(pages, sh, gap, x) && LeftOk(pages, sh, gap, x)
    requires p in sh.level && p != x && LeftOk(pages, sh, gap, p)
    requires NodesOk(pages', DropShape(sh, x))
    ensures LeftOk(pages', DropShape(sh, x), Gap(gap.height + 1, sh.lo[x], sh.hi[x]), p)
  {
    hide NodeOk, Sorted;
    RealPage(pages, sh, x);
    RealPage(pages, sh, p);
    var q := pages[p].left;
    if q == x {
      assert pages'[p].left == pages[x].left;
    } else {
      assert q != NULL && q == pages[x].left ==> p == x;
      assert p != pages[x].right;
      assert pages'[p].left == q;
    }
  }

  lemma DropKeepsBody(pages: Pages, sh: Shape, gap: Gap, slot: Slot, x: int, pages': Pages, pp: int, pi: int)
    requires Droppable(pages, sh, gap, slot, x) && IsUnlinked(pages, sh, x, pages')
    requires pp in sh.level && SlotOf(pages, sh, x, Slot(pp, pi))
    ensures Body(pages', DropShape(sh, x), Gap(gap.height + 1, sh.lo[x], sh.hi[x]), Slot(pp, pi))
  {
    var sh', gap' := DropShape(sh, x), Gap(gap.height + 1, sh.lo[x], sh.hi[x]);
    DropKeepsNodes(pages, sh, x, pages');
    forall p | p in sh'.level ensures RightOk(pages', sh', gap', p) && LeftOk(pages', sh', gap', p) {
      DropKeepsRight(pages, sh, gap, x, pages', p);
      DropKeepsLeft(pages, sh, gap, x, pages', p);
    }
    DropKeepsIntervals(pages, sh, gap, slot, x);
    DropKeepsChildren(pages, sh, gap, slot, x, pages', pp, pi);
  }

  lemma DropKeepsIntervals(pages: Pages, sh: Shape, gap: Gap, slot: Slot, x: int)
    requires Droppable(pages, sh, gap, slot, x)
    ensures Laminar(DropShape(sh, x)) && GapOk(DropShape(sh, x), Gap(gap.height + 1, sh.lo[x], sh.hi[x]))
  {
    var sh', gap' := DropShape(sh, x), Gap(gap.height + 1, sh.lo[x], sh.hi[x]);
    assert NodeOk(pages, sh, x);
    forall p, q | p in sh'.level && q in sh'.level && p != q && sh'.level[p] <= sh'.level[q] ensures Apart(sh', p, q) {
      assert Apart(sh, p, q);
    }
    forall p | p in sh'.level && sh'.level[p] < gap'.height ensures sh'.hi[p] <= gap'.lo || gap'.hi <= sh'.lo[p] {
      assert sh.level[p] == sh.level[x] ==> Apart(sh, p, x);
    }
  }

  lemma DropKeepsChildren(pages: Pages, sh: Shape, gap: Gap, slot: Slot, x: int, pages': Pages, pp: int, pi: int)
    requires Droppable(pages, sh, gap, slot, x) && IsUnlinked(pages, sh, x, pages')
    requires pp in sh.level && SlotOf(pages, sh, x, Slot(pp, pi))
    requires NodesOk(pages', DropShape(sh, x))
    ensures ChildrenOk(pages', DropShape(sh, x), Slot(pp, pi))
  {
    var sh' := DropShape(sh, x);
    forall p, i | p in sh'.level && sh'.level[p] > 0 && 0 <= i <= |pages'[p].keys| && Slot(pp, pi) != Slot(p, i)
      ensures ChildOk(pages', sh', p, i)
    {
      DropKeepsChild(pages, sh, gap, slot, x, pages', p, i);
    }
  }

  lemma DropKeepsChild(pages: Pages, sh: Shape, gap: Gap, slot: Slot, x: int, pages': Pages, p: int, i: int)
    requires NodesOk(pages, sh) && x in sh.level && slot != NoSlot ==> slot.page == x
    requires IsUnlinked(pages, sh, x, pages') && NodesOk(pages', DropShape(sh, x)) && ChildrenOk(pages, sh, slot)
    requires p in sh.level && p != x && sh.level[p] > 0 && 0 <= i <= |pages'[p].keys|
    requires |pages[p].keys| == |pages'[p].keys| ==> Child(pages[p], i) != x
    ensures ChildOk(pages', DropShape(sh, x), p, i)
  {
    assert NodeOk(pages, sh, p);
    assert ChildOk(pages, sh, p, i);
  }

  // ---- Closing the gap ----

  /** The intervals once slot `i` of `x` is gone: the neighbour in `x` takes over, at every lower level. */
  function CloseShape(sh: Shape, gap: Gap, right: bool): Shape
    requires sh.level.Keys == sh.lo.Keys == sh.hi.Keys
  {
    if right then
      Shape(sh.level, map q | q in sh.lo :: if sh.level[q] < gap.height && sh.lo[q] == gap.hi then gap.lo else sh.lo[q], sh.hi)
    else
      Shape(sh.level, sh.lo, map q | q in sh.hi :: if sh.level[q] < gap.height && sh.hi[q] == gap.lo then gap.hi else sh.hi[q])
  }

  /** The open slot (x, i) of the page above the gap. */
  ghost predicate GapSlot(pages: Pages, sh: Shape, gap: Gap, x: int, i: int)
    requires NodesOk(pages, sh)
  {
    && gap.height > 0
    && x in sh.level && sh.level[x] == gap.height && 0 <= i <= |pages[x].keys|
    && gap.lo == (if i == 0 then sh.lo[x] else pages[x].keys[i - 1].ord)
    && gap.hi == (if i == |pages[x].keys| then sh.hi[x] else pages[x].keys[i].ord)
  }

  ghost predicate Closable(pages: Pages, sh: Shape, gap: Gap, x: int, i: int) {
    Body(pages, sh, gap, Slot(x, i)) && GapSlot(pages, sh, gap, x, i) && |pages[x].keys| > 0
  }

  lemma CloseKeepsNodes(pages: Pages, sh: Shape, gap: Gap, x: int, i: int)
    requires Closable(pages, sh, gap, x, i)
    ensures NodesOk(pages[x := RemoveSlot(pages[x], i)], CloseShape(sh, gap, i < |pages[x].keys|))
  {
    var right := i < |pages[x].keys|;
    var pages', sh' := pages[x := RemoveSlot(pages[x], i)], CloseShape(sh, gap, right);
    if !right {
      assert ChildOk(pages, sh, x, i - 1);
      assert NodeOk(pages, sh, pages[x].values[i - 1]);
    }
    RemovedSlotOk(pages, sh, x, i);
    forall p | p in sh'.level ensures NodeOk(pages', sh', p) {
      assert NodeOk(pages, sh, p);
      if p != x {
        assert pages'[p] == pages[p];
      }
    }
  }

  lemma RemovedSlotOk(pages: Pages, sh: Shape, x: int, i: int)
    requires NodesOk(pages, sh) && x in sh.level && sh.level[x] > 0 && 0 <= i <= |pages[x].keys| && |pages[x].keys| > 0
    requires i == |pages[x].keys| ==> pages[x].values[i - 1] != NULL
    ensures var node := RemoveSlot(pages[x], i);
            && Sorted(node.keys) && |node.keys| == |node.values| && node.overflow != NULL
            && (forall j :: 0 <= j < |node.keys| ==> sh.lo[x] < node.keys[j].ord <= sh.hi[x])
  {
    assert NodeOk(pages, sh, x);
    var k := if i < |pages[x].keys| then i else i - 1;
    var node := RemoveSlot(pages[x], i);
    assert forall j :: 0 <= j < |node.keys| ==> node.keys[j] == pages[x].keys[if j < k then j else j + 1];
  }

  /** No page strictly below the gap's parent crosses the boundary that is moved. */
  lemma NoCrossing(pages: Pages, sh: Shape, gap: Gap, x: int, i: int, p: int, b: real)
    requires Closable(pages, sh, gap, x, i) && p in sh.level && p != x && sh.level[p] <= gap.height
    requires b == if i < |pages[x].keys| then gap.hi else gap.lo
    ensures sh.hi[p] <= b || b <= sh.lo[p]
  {
    assert NodeOk(pages, sh, x) && NodeOk(pages, sh, p);
    if sh.level[p] == gap.height {
      BoundaryInside(pages, sh, gap, x, i, b);
      assert Apart(sh, p, x);
    }
  }

  lemma BoundaryInside(pages: Pages, sh: Shape, gap: Gap, x: int, i: int, b: real)
    requires Closable(pages, sh, gap, x, i)
    requires b == if i < |pages[x].keys| then gap.hi else gap.lo
    ensures sh.lo[x] < b < sh.hi[x]
  {
    assert NodeOk(pages, sh, x);
    var j := if i < |pages[x].keys| then i + 1 else i - 1;
    assert ChildOk(pages, sh, x, j);
    assert NodeOk(pages, sh, Child(pages[x], j));
  }

  lemma CloseKeepsLaminar(pages: Pages, sh: Shape, gap: Gap, x: int, i: int)
    requires Closable(pages, sh, gap, x, i)
    ensures Laminar(CloseShape(sh, gap, i < |pages[x].keys|))
  {
    var sh' := CloseShape(sh, gap, i < |pages[x].keys|);
    forall p, q | p in sh'.level && q in sh'.level && p != q && sh'.level[p] <= sh'.level[q] ensures Apart(sh', p, q) {
      CloseKeepsApart(pages, sh, gap, x, i, p, q);
    }
  }

  lemma CloseKeepsApart(pages: Pages, sh: Shape, gap: Gap, x: int, i: int, p: int, q: int)
    requires Closable(pages, sh, gap, x, i)
    requires p in sh.level && q in sh.level && p != q && sh.level[p] <= sh.level[q]
    ensures Apart(CloseShape(sh, gap, i < |pages[x].keys|), p, q)
  {
    hide ChildrenOk, LinksOk, Sorted;
    var b := if i < |pages[x].keys| then gap.hi else gap.lo;
    assert Apart(sh, p, q);
    assert NodeOk(pages, sh, p) && NodeOk(pages, sh, q);
    if sh.level[p] < gap.height {
      assert sh.hi[p] <= gap.lo || gap.hi <= sh.lo[p];
    }
    if sh.level[q] < gap.height {
      assert sh.hi[q] <= gap.lo || gap.hi <= sh.lo[q];
    } else if sh.level[q] == gap.height && q != x {
      NoCrossing(pages, sh, gap, x, i, q, b);
    }
    BoundaryInside(pages, sh, gap, x, i, b);
    assert NodeOk(pages, sh, x);
  }

  lemma CloseKeepsLinks(pages: Pages, sh: Shape, gap: Gap, x: int, i: int, pages': Pages, sh': Shape)
    requires Closable(pages, sh, gap, x, i) && sh' == CloseShape(sh, gap, i < |pages[x].keys|)
    requires NodesOk(pages', sh')
    requires forall p :: p in sh.level ==> pages'[p].left == pages[p].left && pages'[p].right == pages[p].right
    ensures LinksOk(pages', sh', NO_GAP)
  {
    BoundaryInside(pages, sh, gap, x, i, if i < |pages[x].keys| then gap.hi else gap.lo);
    assert NodeOk(pages, sh, x);
    forall p | p in sh'.level ensures RightOk(pages', sh', NO_GAP, p) && LeftOk(pages', sh', NO_GAP, p) {
      CloseKeepsRight(pages, sh, gap, x, i, pages', sh', p);
      CloseKeepsLeft(pages, sh, gap, x, i, pages', sh', p);
    }
  }

  lemma CloseKeepsRight(pages: Pages, sh: Shape, gap: Gap, x: int, i: int, pages': Pages, sh': Shape, p: int)
    requires Closable(pages, sh, gap, x, i) && sh' == CloseShape(sh, gap, i < |pages[x].keys|)
    requires NodesOk(pages', sh') && p in sh.level
    requires forall p :: p in sh.level ==> pages'[p].left == pages[p].left && pages'[p].right == pages[p].right
    requires i < |pages[x].keys| ==> gap.hi < sh.hi[x] <= 1.0
    ensures RightOk(pages', sh', NO_GAP, p)
  {
    assert NodeOk(pages, sh, p) && RightOk(pages, sh, gap, p);
    if pages[p].right != NULL {
      assert NodeOk(pages, sh, pages[p].right);
    }
  }

  lemma CloseKeepsLeft(pages: Pages, sh: Shape, gap: Gap, x: int, i: int, pages': Pages, sh': Shape, p: int)
    requires Closable(pages, sh, gap, x, i) && sh' == CloseShape(sh, gap, i < |pages[x].keys|)
    requires NodesOk(pages', sh') && p in sh.level
    requires forall p :: p in sh.level ==> pages'[p].left == pages[p].left && pages'[p].right == pages[p].right
    requires i == |pages[x].keys| ==> -1.0 <= sh.lo[x] < gap.lo
    ensures LeftOk(pages', sh', NO_GAP, p)
  {
    assert NodeOk(pages, sh, p) && LeftOk(pages, sh, gap, p);
    if pages[p].left != NULL {
      assert NodeOk(pages, sh, pages[p].left);
    }
  }

  lemma CloseKeepsOtherChild(pages: Pages, sh: Shape, gap: Gap, x: int, i: int, pages': Pages, sh': Shape, p: int, j: int)
    requires Closable(pages, sh, gap, x, i) && sh' == CloseShape(sh, gap, i < |pages[x].keys|)
    requires NodesOk(pages', sh') && p in sh.level && p != x && pages'[p] == pages[p]
    requires sh.level[p] > 0 && 0 <= j <= |pages[p].keys|
    ensures ChildOk(pages', sh', p, j)
  {
    var b := if i < |pages[x].keys| then gap.hi else gap.lo;
    assert NodeOk(pages, sh, p) && ChildOk(pages, sh, p, j);
    assert NodeOk(pages, sh, Child(pages[p], j));
    if j < |pages[p].keys| {
      assert ChildOk(pages, sh, p, j + 1);
      assert NodeOk(pages, sh, Child(pages[p], j + 1));
    }
    if sh.level[p] <= gap.height {
      NoCrossing(pages, sh, gap, x, i, p, b);
      if sh.level[p] == gap.height {
        BoundaryInside(pages, sh, gap, x, i, b);
        assert Apart(sh, p, x);
      }
    }
  }

  lemma CloseKeepsOwnChild(pages: Pages, sh: Shape, gap: Gap, x: int, i: int, pages': Pages, sh': Shape, j: int)
    requires Closable(pages, sh, gap, x, i) && sh' == CloseShape(sh, gap, i < |pages[x].keys|)
    requires NodesOk(pages', sh') && pages'[x] == RemoveSlot(pages[x], i) && 0 <= j <= |pages'[x].keys|
    ensures ChildOk(pages', sh', x, j)
  {
    var n := |pages[x].keys|;
    assert NodeOk(pages, sh, x);
    var j0 := if i < n && j >= i then j + 1 else j;
    assert ChildOk(pages, sh, x, j0);
    assert NodeOk(pages, sh, Child(pages[x], j0));
    if i < n {
      CloseRightChild(pages, sh, gap, x, i, pages', sh', j);
    } else {
      CloseLeftChild(pages, sh, gap, x, i, pages', sh', j);
    }
  }

  lemma CloseRightChild(pages: Pages, sh: Shape, gap: Gap, x: int, i: int, pages': Pages, sh': Shape, j: int)
    requires NodesOk(pages, sh) && GapSlot(pages, sh, gap, x, i) && i < |pages[x].keys|
    requires sh' == CloseShape(sh, gap, true)
    requires NodesOk(pages', sh') && pages'[x] == RemovePair(pages[x], i) && 0 <= j <= |pages'[x].keys|
    requires ChildOk(pages, sh, x, if j >= i then j + 1 else j)
    ensures ChildOk(pages', sh', x, j)
  {
    assert NodeOk(pages, sh, x);
    var old_, new_ := pages[x], pages'[x];
    assert j < |new_.keys| ==> new_.keys[j] == old_.keys[if j < i then j else j + 1];
    assert j > 0 ==> new_.keys[j - 1] == old_.keys[if j - 1 < i then j - 1 else j];
    assert Child(new_, j) == Child(old_, if j >= i then j + 1 else j);
  }

  lemma CloseLeftChild(pages: Pages, sh: Shape, gap: Gap, x: int, i: int, pages': Pages, sh': Shape, j: int)
    requires NodesOk(pages, sh) && GapSlot(pages, sh, gap, x, i) && i == |pages[x].keys| > 0
    requires sh' == CloseShape(sh, gap, false)
    requires NodesOk(pages', sh') && pages'[x] == RemoveSlot(pages[x], i) && 0 <= j <= |pages'[x].keys|
    requires ChildOk(pages, sh, x, j)
    ensures ChildOk(pages', sh', x, j)
  {
    assert NodeOk(pages, sh, x);
    var old_, new_ := pages[x], pages'[x];
    assert new_.keys == old_.keys[..i - 1] && new_.values == old_.values[..i - 1];
    assert Child(new_, j) == Child(old_, j);
  }

  /** A tree at rest but for the lost child in slot `i` of the index page `x`. */
  ghost predicate LostChild(pages: Pages, sh: Shape, root: int, levels: nat, gap: Gap, x: int, i: int, m: map<real, int>) {
    && TreeExcept(pages, sh, root, levels, gap, Slot(x, i)) && GapSlot(pages, sh, gap, x, i)
    && |pages[x].keys| > 0 && Agrees(pages, sh, m)
  }

  /** The tree without that slot, and the shape in which a neighbour has taken over the gap. */
  ghost predicate RestsWithout(pages: Pages, sh: Shape, root: int, levels: nat, gap: Gap, x: int, i: int, m: map<real, int>)
    requires LostChild(pages, sh, root, levels, gap, x, i, m)
  {
    var pages', sh' := pages[x := RemoveSlot(pages[x], i)], CloseShape(sh, gap, i < |pages[x].keys|);
    Tree(pages', sh', root, levels) && Agrees(pages', sh', m)
  }

  /** Removing the slot of the lost child closes the gap: the tree is at rest again. */
  lemma CloseGap(pages: Pages, sh: Shape, root: int, levels: nat, gap: Gap, x: int, i: int, m: map<real, int>)
    requires LostChild(pages, sh, root, levels, gap, x, i, m)
    ensures RestsWithout(pages, sh, root, levels, gap, x, i, m)
  {
    hide Laminar, ChildrenOk, LinksOk, Agrees, RootOk, Sorted;
    var pages', sh' := pages[x := RemoveSlot(pages[x], i)], CloseShape(sh, gap, i < |pages[x].keys|);
    CloseKeepsNodes(pages, sh, gap, x, i);
    CloseKeepsLaminar(pages, sh, gap, x, i);
    CloseKeepsLinks(pages, sh, gap, x, i, pages', sh');
    CloseKeepsChildren(pages, sh, gap, x, i, pages', sh');
    CloseIsElsewhere(pages, sh, gap, x, i);
    CloseKeepsContents(pages, sh, gap, x, i, pages', sh', m);
    CloseKeepsRoot(pages, sh, root, levels, gap, x, i);
    NoGapLeft(sh');
  }

  lemma NoGapLeft(sh: Shape)
    requires ShapeOk(sh)
    ensures GapOk(sh, NO_GAP)
  {
  }

  lemma CloseIsElsewhere(pages: Pages, sh: Shape, gap: Gap, x: int, i: int)
    requires Closable(pages, sh, gap, x, i)
    ensures CloseShape(sh, gap, i < |pages[x].keys|).level == sh.level && x in sh.level && sh.level[x] > 0
    ensures forall p :: p in sh.level && p != x ==> p in pages && pages[x := RemoveSlot(pages[x], i)][p] == pages[p]
  {
    hide RemoveSlot;
    forall p | p in sh.level && p != x ensures p in pages {
      assert NodeOk(pages, sh, p);
    }
  }

  lemma CloseKeepsRoot(pages: Pages, sh: Shape, root: int, levels: nat, gap: Gap, x: int, i: int)
    requires Closable(pages, sh, gap, x, i) && RootOk(sh, root, levels)
    ensures RootOk(CloseShape(sh, gap, i < |pages[x].keys|), root, levels)
  {
    BoundaryInside(pages, sh, gap, x, i, if i < |pages[x].keys| then gap.hi else gap.lo);
    assert NodeOk(pages, sh, x) && NodeOk(pages, sh, root);
  }

  lemma CloseKeepsChildren(pages: Pages, sh: Shape, gap: Gap, x: int, i: int, pages': Pages, sh': Shape)
    requires Closable(pages, sh, gap, x, i) && sh' == CloseShape(sh, gap, i < |pages[x].keys|)
    requires NodesOk(pages', sh') && pages' == pages[x := RemoveSlot(pages[x], i)]
    ensures ChildrenOk(pages', sh', NoSlot)
  {
    forall p, j | p in sh'.level && sh'.level[p] > 0 && 0 <= j <= |pages'[p].keys| ensures ChildOk(pages', sh', p, j) {
      if p == x {
        CloseKeepsOwnChild(pages, sh, gap, x, i, pages', sh', j);
      } else {
        CloseKeepsOtherChild(pages, sh, gap, x, i, pages', sh', p, j);
      }
    }
  }

  lemma CloseKeepsContents(pages: Pages, sh: Shape, gap: Gap, x: int, i: int, pages': Pages, sh': Shape, m: map<real, int>)
    requires NodesOk(pages, sh) && NodesOk(pages', sh') && Agrees(pages, sh, m)
    requires sh'.level == sh.level && x in sh.level && sh.level[x] > 0
    requires forall p :: p in sh.level && p != x ==> pages'[p] == pages[p]
    ensures Agrees(pages', sh', m)
  {
    forall ord | ord in m ensures Holds(pages', sh', ord, m[ord]) {
      var p, j :| StoredAt(pages, sh, ord, m[ord], p, j);
      assert StoredAt(pages', sh', ord, m[ord], p, j);
    }
  }

  /** When the gap has swallowed everything below a keyless root, only the root is left. */
  lemma OnlyRootLeft(pages: Pages, sh: Shape, root: int, levels: nat, gap: Gap)
    requires TreeExcept(pages, sh, root, levels, gap, Slot(root, 0)) && GapSlot(pages, sh, gap, root, 0)
    requires |pages[root].keys| == 0
    ensures sh.level.Keys == {root}
    ensures pages[root].left == NULL && pages[root].right == NULL
  {
    OnlyRootOnTop(pages, sh, root, levels, gap, Slot(root, 0));
    forall p | p in sh.level ensures p == root {
      assert NodeOk(pages, sh, p);
    }
  }

  lemma OnlyRootOnTop(pages: Pages, sh: Shape, root: int, levels: nat, gap: Gap, slot: Slot)
    requires TreeExcept(pages, sh, root, levels, gap, slot)
    ensures forall p :: p in sh.level && sh.level[p] == levels - 1 ==> p == root
    ensures gap.height < levels ==> pages[root].left == NULL && pages[root].right == NULL
  {
    forall p | p in sh.level && sh.level[p] == levels - 1 ensures p == root {
      assert NodeOk(pages, sh, p);
      assert p != root ==> Apart(sh, p, root);
    }
    assert NodeOk(pages, sh, root) && LeftOk(pages, sh, gap, root) && RightOk(pages, sh, gap, root);
  }

  /** A single empty leaf is a tree with nothing in it. */
  lemma EmptyRootIsTree(pages: Pages, root: int)
    requires root > 0 && root in pages && pages[root] == Node(NULL, NULL, NULL, [], [])
    ensures var sh := Shape(map[root := 0], map[root := -1.0], map[root := 1.0]);
            Tree(pages, sh, root, 1) && Agrees(pages, sh, map[])
  {
  }
}