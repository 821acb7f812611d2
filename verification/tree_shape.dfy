/** Decoded tree pages and what makes a set of pages a B+tree (BPlusTree.h, BPlusTree.cpp). */
module TreeShape {
  import opened NodeLayout

  const NULL: int := -1  // BPLUSTREE_NULL
  const FREE: int := -2  // BPLUSTREE_FREE

  /** A key and its place in the order that compareKeys induces (see KeyOrder). */
  datatype Key = Key(bytes: seq<Byte>, ord: real)

  datatype Page =
    | Node(left: int, right: int, overflow: int, keys: seq<Key>, values: seq<int>)
    | FreePage(next: int)
    | Words(words: seq<int>)  // a duplicate or fragment page, read as 64-bit words

  type Pages = map<int, Page>

  /** For each tree page: its height above the leaves, and the interval of keys it is for,
      exclusive at `lo` and inclusive at `hi`. */
  datatype Shape = Shape(level: map<int, nat>, lo: map<int, real>, hi: map<int, real>)

  /** While Remove climbs, the levels below `height` have lost the interval (lo, hi]. */
  datatype Gap = Gap(height: nat, lo: real, hi: real)

  const NO_GAP := Gap(0, 0.0, 0.0)

  /** A child position that an operation in progress has yet to repair. */
  datatype Slot = NoSlot | Slot(page: int, index: int)

  function Lens(keys: seq<Key>): (r: seq<nat>)
    ensures |r| == |keys|
  {
    seq(|keys|, i requires 0 <= i < |keys| => |keys[i].bytes|)
  }

  function KeyBytes(keys: seq<Key>): nat {
    Prefix(Lens(keys), |keys|)
  }

  ghost predicate Sorted(keys: seq<Key>) {
    forall i, j :: 0 <= i < j < |keys| ==> keys[i].ord < keys[j].ord
  }

  /** `i` is the first position whose key is not below `ord`. */
  ghost predicate IsPosition(keys: seq<Key>, ord: real, i: int) {
    && 0 <= i <= |keys|
    && (forall j :: 0 <= j < i ==> keys[j].ord < ord)
    && (forall j :: i <= j < |keys| ==> ord <= keys[j].ord)
  }

  function Child(node: Page, i: int): int
    requires node.Node? && 0 <= i <= |node.keys| == |node.values|
  {
    if i < |node.keys| then node.values[i] else node.overflow
  }

  ghost predicate ShapeOk(sh: Shape) {
    sh.level.Keys == sh.lo.Keys == sh.hi.Keys
  }

  ghost predicate NodeOk(pages: Pages, sh: Shape, p: int)
    requires ShapeOk(sh) && p in sh.level
  {
    && p > 0 && p in pages && pages[p].Node?
    && |pages[p].keys| == |pages[p].values|
    && Sorted(pages[p].keys)
    && -1.0 <= sh.lo[p] < sh.hi[p] <= 1.0
    && (forall i :: 0 <= i < |pages[p].keys| ==> sh.lo[p] < pages[p].keys[i].ord <= sh.hi[p])
    && (pages[p].overflow == NULL <==> sh.level[p] == 0)
  }

  ghost predicate NodesOk(pages: Pages, sh: Shape) {
    ShapeOk(sh) && forall p :: p in sh.level ==> NodeOk(pages, sh, p)
  }

  /** Child `i` of `p` is one level down and is for exactly the keys between its separators. */
  ghost predicate ChildOk(pages: Pages, sh: Shape, p: int, i: int)
    requires NodesOk(pages, sh) && p in sh.level && 0 <= i <= |pages[p].keys|
  {
    var c := Child(pages[p], i);
    && c in sh.level && sh.level[c] + 1 == sh.level[p]
    && sh.lo[c] == (if i == 0 then sh.lo[p] else pages[p].keys[i - 1].ord)
    && sh.hi[c] == (if i == |pages[p].keys| then sh.hi[p] else pages[p].keys[i].ord)
  }

  ghost predicate ChildrenOk(pages: Pages, sh: Shape, except: Slot)
    requires NodesOk(pages, sh)
  {
    forall p, i :: p in sh.level && sh.level[p] > 0 && 0 <= i <= |pages[p].keys| && except != Slot(p, i)
      ==> ChildOk(pages, sh, p, i)
  }

  /** Two boundaries at a level meet, or only the gap is between them. */
  ghost predicate Meet(gap: Gap, level: nat, b: real, c: real) {
    b == c || (level < gap.height && b == gap.lo && c == gap.hi)
  }

  /** The pages of a level form a doubly linked list in key order. */
  ghost predicate RightOk(pages: Pages, sh: Shape, gap: Gap, p: int)
    requires NodesOk(pages, sh) && p in sh.level
  {
    var q := pages[p].right;
    if q == NULL then Meet(gap, sh.level[p], sh.hi[p], 1.0)
    else q in sh.level && sh.level[q] == sh.level[p] && pages[q].left == p
         && Meet(gap, sh.level[p], sh.hi[p], sh.lo[q])
  }

  ghost predicate LeftOk(pages: Pages, sh: Shape, gap: Gap, p: int)
    requires NodesOk(pages, sh) && p in sh.level
  {
    var q := pages[p].left;
    if q == NULL then Meet(gap, sh.level[p], -1.0, sh.lo[p])
    else q in sh.level && sh.level[q] == sh.level[p] && pages[q].right == p
         && Meet(gap, sh.level[p], sh.hi[q], sh.lo[p])
  }

  ghost predicate LinksOk(pages: Pages, sh: Shape, gap: Gap)
    requires NodesOk(pages, sh)
  {
    forall p :: p in sh.level ==> RightOk(pages, sh, gap, p) && LeftOk(pages, sh, gap, p)
  }

  /** Intervals of different pages are apart, or the lower page lies inside the higher one. */
  ghost predicate Apart(sh: Shape, p: int, q: int)
    requires ShapeOk(sh) && p in sh.level && q in sh.level
  {
    || sh.hi[p] <= sh.lo[q]
    || sh.hi[q] <= sh.lo[p]
    || (sh.level[p] < sh.level[q] && sh.lo[q] <= sh.lo[p] && sh.hi[p] <= sh.hi[q])
  }

  ghost predicate Laminar(sh: Shape)
    requires ShapeOk(sh)
  {
    forall p, q :: p in sh.level && q in sh.level && p != q && sh.level[p] <= sh.level[q] ==> Apart(sh, p, q)
  }

  ghost predicate GapOk(sh: Shape, gap: Gap)
    requires ShapeOk(sh)
  {
    gap.height > 0 ==>
      -1.0 <= gap.lo < gap.hi <= 1.0
      && forall p :: p in sh.level && sh.level[p] < gap.height ==> sh.hi[p] <= gap.lo || gap.hi <= sh.lo[p]
  }

  ghost predicate RootOk(sh: Shape, root: int, levels: nat)
    requires ShapeOk(sh)
  {
    && levels >= 1
    && root in sh.level && sh.level[root] == levels - 1
    && sh.lo[root] == -1.0 && sh.hi[root] == 1.0
    && forall p :: p in sh.level ==> sh.level[p] < levels
  }

  /** Everything but the root, up to one unrepaired child slot and one gap below some height. */
  ghost predicate Body(pages: Pages, sh: Shape, gap: Gap, except: Slot) {
    && NodesOk(pages, sh)
    && ChildrenOk(pages, sh, except)
    && LinksOk(pages, sh, gap)
    && Laminar(sh)
    && GapOk(sh, gap)
  }

  ghost predicate TreeExcept(pages: Pages, sh: Shape, root: int, levels: nat, gap: Gap, except: Slot) {
    Body(pages, sh, gap, except) && RootOk(sh, root, levels)
  }

  /** The invariant of a tree at rest. */
  ghost predicate Tree(pages: Pages, sh: Shape, root: int, levels: nat) {
    TreeExcept(pages, sh, root, levels, NO_GAP, NoSlot)
  }

  // ---- Contents ----

  /** Some leaf stores `value` under a key at `ord`. */
  ghost predicate Holds(pages: Pages, sh: Shape, ord: real, value: int)
    requires NodesOk(pages, sh)
  {
    exists p, i :: StoredAt(pages, sh, ord, value, p, i)
  }

  ghost predicate StoredAt(pages: Pages, sh: Shape, ord: real, value: int, p: int, i: int)
    requires NodesOk(pages, sh)
  {
    && p in sh.level && sh.level[p] == 0 && 0 <= i < |pages[p].keys|
    && pages[p].keys[i].ord == ord && pages[p].values[i] == value
  }

  /** The leaves store exactly the pairs of `m`. */
  ghost predicate Agrees(pages: Pages, sh: Shape, m: map<real, int>)
    requires NodesOk(pages, sh)
  {
    && (forall ord :: ord in m ==> Holds(pages, sh, ord, m[ord]))
    && (forall p, i :: p in sh.level && sh.level[p] == 0 && 0 <= i < |pages[p].keys| ==>
          pages[p].keys[i].ord in m && m[pages[p].keys[i].ord] == pages[p].values[i])
  }
}
