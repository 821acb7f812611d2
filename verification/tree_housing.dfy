/** The tree in its file: page sizes, the pages in use, and what each step of Insert and Remove leaves
    (BPlusTree.cpp). */
module TreeHousing {
  import opened NodeLayout
  import opened TreeShape
  import opened TreeSteps
  import opened TreePath
  import opened TreeRemove
  import opened PageStore

  predicate LengthOk(key: Key) {
    MIN_KEY_LENGTH <= |key.bytes| <= MAX_KEY_LENGTH
  }

  ghost predicate SizeOk(node: Page) {
    node.Node? && Lengths(Lens(node.keys)) && Used(|node.keys|, KeyBytes(node.keys)) <= NODE_SIZE
  }

  ghost predicate SizesOk(pages: Pages, sh: Shape) {
    forall p :: p in sh.level ==> p in pages && SizeOk(pages[p])
  }

  /** A page takes one more key without being split. */
  predicate HasRoom(node: Page, key: Key)
    requires node.Node?
  {
    Used(|node.keys| + 1, KeyBytes(node.keys) + |key.bytes|) < NODE_SIZE
  }

  /** The leaf that the key belongs in has room for it. */
  ghost predicate RoomFor(pages: Pages, sh: Shape, key: Key) {
    forall p :: p in sh.level && sh.level[p] == 0 && p in sh.lo && p in sh.hi && sh.lo[p] < key.ord <= sh.hi[p]
      ==> p in pages && pages[p].Node? && HasRoom(pages[p], key)
  }

  /** Pages are within bounds, and tree pages, other pages in use and free pages make up the file. */
  ghost predicate Housed(pages: Pages, freeNode: int, size: int, sh: Shape, list: seq<int>, others: Pages) {
    && SizesOk(pages, sh)
    && sh.level.Keys !! others.Keys
    && OthersAre(pages, others)
    && Conserved(pages, freeNode, size, sh.level.Keys + others.Keys, list)
  }

  /** The pages that are not the tree's are as they were last left. */
  ghost predicate OthersAre(pages: Pages, others: Pages) {
    forall p :: p in others ==> p in pages && pages[p] == others[p]
  }

  /** The state between two operations. */
  ghost predicate AtRest(pages: Pages, root: int, levels: nat, freeNode: int, size: int,
                         sh: Shape, list: seq<int>, others: Pages, m: map<real, int>) {
    && Tree(pages, sh, root, levels)
    && Agrees(pages, sh, m)
    && Housed(pages, freeNode, size, sh, list, others)
    && (levels > 1 ==> LeavesFull(pages, sh))
  }

  /** Only the leaf that is the root may be empty. */
  ghost predicate LeavesFull(pages: Pages, sh: Shape) {
    forall p :: p in sh.level && sh.level[p] == 0 ==> p in pages && pages[p].Node? && |pages[p].keys| > 0
  }

  lemma FilledIsFull(pages: Pages, sh: Shape, root: int, levels: nat, stack: seq<Frame>, newKey: Key, newValue: int,
                     key: Key, value: int, m: map<real, int>, i: int)
    requires Inserting(pages, sh, root, levels, stack, newKey, newValue, key, value, m)
    requires LastIsNode(pages, sh, stack) && InsertsAt(pages, stack, levels, key, i)
    requires levels > 1 ==> LeavesFull(pages, sh)
    ensures LeavesFull(Filled(pages, stack[|stack| - 1].node, i, key, value), sh)
  {
    var x := stack[|stack| - 1].node;
    if levels == 1 {
      OnlyRootOnTop(pages, sh, root, levels, NO_GAP, NoSlot);
      assert OnPath(pages, sh, levels, stack, 0, newKey.ord);
    }
    hide NodesOk, Tree, TreeExcept, Agrees, IsPath, InsertPair;
  }

  lemma SplitIsFull(pages: Pages, sh: Shape, x: int, out: nat, other: int)
    requires LeavesFull(pages, sh) && x in sh.level && x in sh.lo && x in pages && pages[x].Node?
    requires 0 < out < |pages[x].keys| == |pages[x].values|
    requires sh.level[x] == 0 ==> pages[x].overflow == NULL
    ensures LeavesFull(SplitPages(pages, x, out, other), SplitShape(sh, x, Separator(pages[x], out).ord, other))
  {
  }

  lemma GrowIsFull(pages: Pages, sh: Shape, newRoot: int, node: Page, levels: nat)
    requires LeavesFull(pages, sh) && levels > 0 && newRoot !in sh.level
    ensures LeavesFull(pages[newRoot := node], GrownShape(sh, newRoot, levels))
  {
  }

  // ---- Page sizes under the edits ----

  lemma InsertSize(node: Page, i: int, key: Key, value: int)
    requires SizeOk(node) && LengthOk(key) && 0 <= i <= |node.keys| == |node.values|
    ensures var full := InsertPair(node, i, key, value);
            && Lens(full.keys) == Inserted(Lens(node.keys), i, |key.bytes|)
            && Lengths(Lens(full.keys))
            && KeyBytes(full.keys) == KeyBytes(node.keys) + |key.bytes|
  {
    var full := InsertPair(node, i, key, value);
    var lens := Lens(node.keys);
    assert Lens(full.keys) == Inserted(lens, i, |key.bytes|);
    PrefixOfInserted(lens, i, |key.bytes|, |full.keys|);
    forall j | 0 <= j < |full.keys| ensures MIN_KEY_LENGTH <= Lens(full.keys)[j] <= MAX_KEY_LENGTH {
      if j != i {
        assert Lens(full.keys)[j] == lens[if j < i then j else j - 1];
      }
    }
  }

  lemma RemoveSize(node: Page, i: int)
    requires SizeOk(node) && 0 <= i < |node.keys| == |node.values|
    ensures SizeOk(RemovePair(node, i))
  {
    var lens, less := Lens(node.keys), RemovePair(node, i);
    assert Lens(less.keys) == lens[..i] + lens[i + 1..];
    PrefixOfRemoved(lens, i, |less.keys|);
    if i < |less.keys| {
      PrefixMonotone(lens, i + 1, |lens|);
    }
    forall j | 0 <= j < |less.keys| ensures MIN_KEY_LENGTH <= Lens(less.keys)[j] <= MAX_KEY_LENGTH {
      assert Lens(less.keys)[j] == lens[if j < i then j else j + 1];
    }
  }

  lemma LeftSize(node: Page, i: int, key: Key, value: int, x: int)
    requires SizeOk(node) && LengthOk(key) && 0 <= i <= |node.keys| == |node.values|
    requires Used(|node.keys| + 1, KeyBytes(node.keys) + |key.bytes|) >= NODE_SIZE
    requires LeftSafe(Lens(node.keys), i, |key.bytes|)
    ensures var full, out := InsertPair(node, i, key, value), LeftCount(Lens(node.keys), i, |key.bytes|);
            0 < out < |full.keys| && SizeOk(LeftHalf(full, out, x))
  {
    var lens := Lens(node.keys);
    var full, out := InsertPair(node, i, key, value), LeftCount(lens, i, |key.bytes|);
    InsertSize(node, i, key, value);
    LeftListFits(lens, i, |key.bytes|);
    TakeSize(full.keys, out);
    assert LeftHalf(full, out, x).keys == full.keys[..out];
  }

  lemma RightSize(node: Page, i: int, key: Key, value: int, other: int)
    requires SizeOk(node) && LengthOk(key) && 0 <= i <= |node.keys| == |node.values|
    requires Used(|node.keys| + 1, KeyBytes(node.keys) + |key.bytes|) >= NODE_SIZE
    requires LeftCount(Lens(node.keys), i, |key.bytes|) <= |node.keys|
    ensures var full, out := InsertPair(node, i, key, value), LeftCount(Lens(node.keys), i, |key.bytes|);
            SizeOk(RightHalf(full, out, other))
  {
    hide Prefix, Inserted, Used;
    var lens := Lens(node.keys);
    var full, out := InsertPair(node, i, key, value), LeftCount(lens, i, |key.bytes|);
    var skip := if node.overflow == NULL then out else out + 1;
    InsertSize(node, i, key, value);
    RightListFits(lens, i, |key.bytes|, skip);
    RightHalfSize(full, out, other);
  }

  lemma RightHalfSize(full: Page, out: nat, other: int)
    requires full.Node? && 0 < out < |full.keys| == |full.values| && Lengths(Lens(full.keys))
    requires var skip := if full.overflow == NULL then out else out + 1;
             Used(|full.keys| - skip, Prefix(Lens(full.keys)[skip..], |full.keys| - skip)) <= NODE_SIZE
    ensures SizeOk(RightHalf(full, out, other))
  {
    hide Prefix, Used;
    var skip := if full.overflow == NULL then out else out + 1;
    DropSize(full.keys, skip);
    assert RightHalf(full, out, other).keys == full.keys[skip..];
  }

  lemma SeparatorLength(node: Page, i: int, key: Key, value: int)
    requires SizeOk(node) && LengthOk(key) && 0 <= i <= |node.keys| == |node.values|
    requires LeftCount(Lens(node.keys), i, |key.bytes|) <= |node.keys|
    ensures LengthOk(Separator(InsertPair(node, i, key, value), LeftCount(Lens(node.keys), i, |key.bytes|)))
  {
    var out := LeftCount(Lens(node.keys), i, |key.bytes|);
    InsertSize(node, i, key, value);
    hide Prefix, LeftCount, InsertPair, Inserted, Used;
    KeyLength(InsertPair(node, i, key, value).keys, if node.overflow == NULL then out - 1 else out);
  }

  lemma FilledSizes(pages: Pages, sh: Shape, x: int, i: int, key: Key, value: int)
    requires SizesOk(pages, sh) && x in sh.level && LengthOk(key) && 0 <= i <= |pages[x].keys| == |pages[x].values|
    requires Used(|pages[x].keys| + 1, KeyBytes(pages[x].keys) + |key.bytes|) < NODE_SIZE
    ensures SizesOk(Filled(pages, x, i, key, value), sh)
  {
    assert SizeOk(pages[x]);
    InsertSize(pages[x], i, key, value);
  }

  lemma TakeSize(keys: seq<Key>, n: nat)
    requires Lengths(Lens(keys)) && n <= |keys|
    ensures Lens(keys[..n]) == Lens(keys)[..n] && Lengths(Lens(keys[..n]))
  {
  }

  lemma DropSize(keys: seq<Key>, n: nat)
    requires Lengths(Lens(keys)) && n <= |keys|
    ensures Lens(keys[n..]) == Lens(keys)[n..] && Lengths(Lens(keys[n..]))
  {
  }

  lemma KeyLength(keys: seq<Key>, i: int)
    requires Lengths(Lens(keys)) && 0 <= i < |keys|
    ensures LengthOk(keys[i])
  {
    assert Lens(keys)[i] == |keys[i].bytes|;
  }

  lemma FilledIsHoused(pages: Pages, freeNode: int, size: int, sh: Shape, list: seq<int>, others: Pages,
                       x: int, i: int, key: Key, value: int)
    requires Housed(pages, freeNode, size, sh, list, others)
    requires x in sh.level && LengthOk(key) && 0 <= i <= |pages[x].keys| == |pages[x].values|
    requires Used(|pages[x].keys| + 1, KeyBytes(pages[x].keys) + |key.bytes|) < NODE_SIZE
    ensures Housed(Filled(pages, x, i, key, value), freeNode, size, sh, list, others)
  {
    FilledSizes(pages, sh, x, i, key, value);
    EditKeepsConserved(pages, Filled(pages, x, i, key, value), freeNode, size, sh.level.Keys + others.Keys, list);
  }

  lemma FilledRests(pages: Pages, root: int, levels: nat, freeNode: int, size: int, sh: Shape, list: seq<int>,
                    others: Pages, m: map<real, int>,
                    stack: seq<Frame>, newKey: Key, newValue: int, x: int, i: int, key: Key, value: int)
    requires Inserting(pages, sh, root, levels, stack, newKey, newValue, key, value, m)
    requires LengthOk(key) && Housed(pages, freeNode, size, sh, list, others)
    requires levels > 1 ==> LeavesFull(pages, sh)
    requires LastIsNode(pages, sh, stack) && x == stack[|stack| - 1].node && x in sh.level
    requires InsertsAt(pages, stack, levels, key, i)
    requires Used(|pages[x].keys| + 1, KeyBytes(pages[x].keys) + |key.bytes|) < NODE_SIZE
    ensures AtRest(Filled(pages, x, i, key, value), root, levels, freeNode, size, sh, list, others, m[newKey.ord := newValue])
  {
    FilledIsTree(pages, sh, root, levels, stack, newKey, newValue, key, value, m, i);
    FilledIsFull(pages, sh, root, levels, stack, newKey, newValue, key, value, m, i);
    FilledIsHoused(pages, freeNode, size, sh, list, others, x, i, key, value);
  }

  /** The entries of the full page `x` go to two pages, both within bounds. */
  ghost predicate CanSplit(pages: Pages, sh: Shape, x: int, i: int, key: Key, other: int) {
    && NodesOk(pages, sh) && SizesOk(pages, sh) && x in sh.level && LengthOk(key)
    && 0 <= i <= |pages[x].keys|
    && Used(|pages[x].keys| + 1, KeyBytes(pages[x].keys) + |key.bytes|) >= NODE_SIZE
    && SplitSafe(Lens(pages[x].keys), i, |key.bytes|, pages[x].overflow == NULL)
    && other > 0 && other !in sh.level
  }

  function SplitCount(pages: Pages, x: int, i: int, key: Key): nat
    requires x in pages && pages[x].Node? && i >= 0
  {
    LeftCount(Lens(pages[x].keys), i, |key.bytes|)
  }

  lemma SplitIsPossible(pages: Pages, sh: Shape, x: int, i: int, key: Key, value: int, other: int)
    requires CanSplit(pages, sh, x, i, key, other)
    ensures |pages[x].keys| == |pages[x].values|
    ensures var full := Filled(pages, x, i, key, value); 0 < SplitCount(pages, x, i, key) < |full[x].keys|
    ensures LengthOk(Separator(InsertPair(pages[x], i, key, value), SplitCount(pages, x, i, key)))
  {
    assert NodeOk(pages, sh, x);
    LeftSize(pages[x], i, key, value, x);
    SeparatorLength(pages[x], i, key, value);
  }

  lemma LeftSizeSafe(pages: Pages, sh: Shape, x: int, i: int, key: Key, value: int, other: int)
    requires CanSplit(pages, sh, x, i, key, other) && |pages[x].keys| == |pages[x].values|
    ensures var full, out := InsertPair(pages[x], i, key, value), LeftCount(Lens(pages[x].keys), i, |key.bytes|);
            0 < out < |full.keys| && SizeOk(LeftHalf(full, out, x)) && SizeOk(pages[x])
  {
    hide Used, KeyBytes, Lens, LeftSafe, RightSafe, LeftHalf, LeftCount, InsertPair;
    assert NodeOk(pages, sh, x) && SizeOk(pages[x]);
    LeftSize(pages[x], i, key, value, x);
  }

  lemma SplitSizesOk(pages: Pages, sh: Shape, x: int, i: int, key: Key, value: int, other: int)
    requires CanSplit(pages, sh, x, i, key, other) && |pages[x].keys| == |pages[x].values|
    requires 0 < SplitCount(pages, x, i, key) < |pages[x].keys| + 1
    ensures var full, out := Filled(pages, x, i, key, value), SplitCount(pages, x, i, key);
            SizesOk(SplitPages(full, x, out, other), SplitShape(sh, x, Separator(full[x], out).ord, other))
  {
    hide Used, KeyBytes, Lens, SplitSafe, LeftHalf, RightHalf, LeftCount, InsertPair;
    LeftSizeSafe(pages, sh, x, i, key, value, other);
    RightSize(pages[x], i, key, value, other);
    var full, out := Filled(pages, x, i, key, value), SplitCount(pages, x, i, key);
    var pages' := SplitPages(full, x, out, other);
    forall p | p in sh.level + map[other := 0] ensures p in pages' && SizeOk(pages'[p]) {
      if p != other && p != x {
        assert NodeOk(pages, sh, p) && SizeOk(pages[p]);
        assert pages'[p].keys == pages[p].keys;
      }
    }
  }

  /** `pages` came from `before` by handing out `fresh` as empty pages. */
  ghost predicate HandedOut(before: Pages, pages: Pages, given: set<int>) {
    && pages.Keys == before.Keys + given
    && (forall p :: p in given ==> pages[p] == EMPTY_NODE)
    && (forall p :: p in before && p !in given ==> pages[p] == before[p])
  }

  lemma SplitIsHoused(before: Pages, pages: Pages, freeNode: int, size: int, sh: Shape, list: seq<int>, others: Pages,
                      x: int, i: int, key: Key, value: int, other: int)
    requires CanSplit(before, sh, x, i, key, other) && |before[x].keys| == |before[x].values|
    requires 0 < SplitCount(before, x, i, key) < |before[x].keys| + 1
    requires sh.level.Keys !! others.Keys && other !in others && OthersAre(before, others)
    requires HandedOut(before, pages, {other}) && before[x].left != other && NULL !in before
    requires before[x].left != NULL ==> before[x].left in sh.level
    requires Conserved(pages, freeNode, size, sh.level.Keys + others.Keys + {other}, list)
    ensures var full, out := Filled(before, x, i, key, value), SplitCount(before, x, i, key);
            Housed(SplitPages(full, x, out, other), freeNode, size,
                   SplitShape(sh, x, Separator(full[x], out).ord, other), list, others)
  {
    hide SizesOk, SplitSafe, Conserved, Lens, InsertPair, SplitPages, Separator;
    var full, out := Filled(before, x, i, key, value), SplitCount(before, x, i, key);
    var pages' := SplitPages(full, x, out, other);
    SplitSizesOk(before, sh, x, i, key, value, other);
    var sh' := SplitShape(sh, x, Separator(full[x], out).ord, other);
    assert sh'.level.Keys == sh.level.Keys + {other};
    assert sh'.level.Keys + others.Keys == sh.level.Keys + others.Keys + {other};
    SplitTouches(before, sh, x, i, key, value, other, out);
    EditKeepsConserved(pages, pages', freeNode, size, sh.level.Keys + others.Keys + {other}, list);
    forall p | p in others ensures p in pages' && pages'[p] == others[p] {
      assert p !in sh.level;
    }
  }

  /** Splitting writes the two halves and the left neighbour. */
  lemma SplitTouches(before: Pages, sh: Shape, x: int, i: int, key: Key, value: int, other: int, out: nat)
    requires x in before && before[x].Node? && 0 <= i <= |before[x].keys| == |before[x].values|
    requires 0 < out <= |before[x].keys|
    ensures var pages' := SplitPages(Filled(before, x, i, key, value), x, out, other);
            && pages'.Keys == before.Keys + {other}
            && forall p :: p in before && p != x && p != other && p != before[x].left ==> pages'[p] == before[p]
  {
  }

  /** What the page at the end of the path is known to be. */
  lemma AtSplit(pages: Pages, sh: Shape, root: int, levels: nat, stack: seq<Frame>, newKey: Key, newValue: int,
                x: int, i: int, key: Key, value: int, m: map<real, int>)
    requires Inserting(pages, sh, root, levels, stack, newKey, newValue, key, value, m)
    requires LastIsNode(pages, sh, stack) && x == stack[|stack| - 1].node && x in sh.level
    ensures NodesOk(pages, sh) && NULL !in pages.Keys * sh.level.Keys
    ensures pages[x].left != NULL ==> pages[x].left in sh.level && pages[pages[x].left].Node?
    ensures |stack| == 1 <==> x == root
    ensures x in sh.lo && root in sh.level && RootOk(sh, root, levels)
  {
    assert NodeOk(pages, sh, x) && LeftOk(pages, sh, NO_GAP, x);
    assert OnPath(pages, sh, levels, stack, |stack| - 1, newKey.ord);
    if pages[x].left != NULL {
      assert NodeOk(pages, sh, pages[x].left);
    }
    forall p | p in sh.level ensures p != NULL {
      assert NodeOk(pages, sh, p);
    }
  }

  /** Below the root, the separator is what Insert goes on with. */
  lemma SplitClimbs(pages: Pages, sh: Shape, root: int, levels: nat, stack: seq<Frame>, newKey: Key, newValue: int,
                    x: int, i: int, key: Key, value: int, other: int, m: map<real, int>)
    requires Inserting(pages, sh, root, levels, stack, newKey, newValue, key, value, m) && |stack| >= 2
    requires LastIsNode(pages, sh, stack) && x == stack[|stack| - 1].node
    requires InsertsAt(pages, stack, levels, key, i) && CanSplit(pages, sh, x, i, key, other)
    requires 0 < SplitCount(pages, x, i, key) < |pages[x].keys| + 1
    requires levels > 1 ==> LeavesFull(pages, sh)
    ensures var full, out := Filled(pages, x, i, key, value), SplitCount(pages, x, i, key);
            var sep := Separator(full[x], out);
            && Inserting(SplitPages(full, x, out, other), SplitShape(sh, x, sep.ord, other), root, levels,
                         stack[..|stack| - 1], newKey, newValue, sep, other, m)
            && LeavesFull(SplitPages(full, x, out, other), SplitShape(sh, x, sep.ord, other))
  {
    FilledIsFull(pages, sh, root, levels, stack, newKey, newValue, key, value, m, i);
    AtSplit(pages, sh, root, levels, stack, newKey, newValue, x, i, key, value, m);
    LeafHasNoOverflow(pages, sh, x);
    SplitIsFull(Filled(pages, x, i, key, value), sh, x, SplitCount(pages, x, i, key), other);
    FilledIsTree(pages, sh, root, levels, stack, newKey, newValue, key, value, m, i);
    UpperPathSurvivesFill(pages, sh, root, levels, stack, newKey.ord, i, key, value);
    AfterSplit(Filled(pages, x, i, key, value), sh, root, levels, stack[..|stack| - 1], newKey, newValue, x,
               SplitCount(pages, x, i, key), other, m);
  }

  lemma LeafHasNoOverflow(pages: Pages, sh: Shape, x: int)
    requires NodesOk(pages, sh) && x in sh.level
    ensures sh.level[x] == 0 <==> pages[x].overflow == NULL
  {
    assert NodeOk(pages, sh, x);
  }

  /** At the root, a new root takes the separator. */
  lemma SplitGrows(pages: Pages, sh: Shape, root: int, levels: nat, stack: seq<Frame>, newKey: Key, newValue: int,
                   i: int, key: Key, value: int, other: int, newRoot: int, m: map<real, int>)
    requires Inserting(pages, sh, root, levels, stack, newKey, newValue, key, value, m) && |stack| == 1
    requires LastIsNode(pages, sh, stack) && root == stack[0].node
    requires InsertsAt(pages, stack, levels, key, i) && CanSplit(pages, sh, root, i, key, other)
    requires 0 < SplitCount(pages, root, i, key) < |pages[root].keys| + 1
    requires newRoot > 0 && newRoot != other && newRoot !in sh.level
    requires levels > 1 ==> LeavesFull(pages, sh)
    ensures var full, out := Filled(pages, root, i, key, value), SplitCount(pages, root, i, key);
            var sep := Separator(full[root], out);
            var grown := SplitPages(full, root, out, other)[newRoot := Node(NULL, NULL, root, [sep], [other])];
            var sh' := GrownShape(SplitShape(sh, root, sep.ord, other), newRoot, levels);
            && Tree(grown, sh', newRoot, levels + 1) && Agrees(grown, sh', m[newKey.ord := newValue])
            && LeavesFull(grown, sh')
  {
    var full, out := Filled(pages, root, i, key, value), SplitCount(pages, root, i, key);
    var sep := Separator(full[root], out);
    var pages', sh' := SplitPages(full, root, out, other), SplitShape(sh, root, sep.ord, other);
    FilledIsFull(pages, sh, root, levels, stack, newKey, newValue, key, value, m, i);
    LeafHasNoOverflow(pages, sh, root);
    SplitIsFull(full, sh, root, out, other);
    GrowIsFull(pages', sh', newRoot, Node(NULL, NULL, root, [sep], [other]), levels);
    FilledIsTree(pages, sh, root, levels, stack, newKey, newValue, key, value, m, i);
    RootHasNoSlot(full, sh, root, levels);
    SplitKeepsBody(full, sh, root, out, other, NoSlot);
    SplitIsSplit(full, sh, root, out, other);
    SplitKeepsContents(full, sh, root, out, other, pages', sh', m[newKey.ord := newValue]);
    GrowRoot(full, sh, root, levels, out, other, pages', sh', newRoot);
    GrowKeepsContents(pages', sh', newRoot, Node(NULL, NULL, root, [sep], [other]), levels, m[newKey.ord := newValue]);
  }

  function GrownShape(sh: Shape, newRoot: int, levels: nat): Shape {
    Shape(sh.level[newRoot := levels], sh.lo[newRoot := -1.0], sh.hi[newRoot := 1.0])
  }

  lemma ShapeGrows(sh: Shape, x: int, sep: real, other: int)
    requires ShapeOk(sh) && x in sh.level && other !in sh.level
    ensures x in SplitShape(sh, x, sep, other).level && sh.level.Keys < SplitShape(sh, x, sep, other).level.Keys
  {
    assert other in SplitShape(sh, x, sep, other).level.Keys;
  }

  lemma ShapeGrowsTaller(sh: Shape, x: int, sep: real, other: int, newRoot: int, levels: nat)
    requires ShapeOk(sh) && x in sh.level && other !in sh.level
    ensures var sh' := GrownShape(SplitShape(sh, x, sep, other), newRoot, levels);
            x in sh'.level && sh.level.Keys < sh'.level.Keys
  {
    assert other in GrownShape(SplitShape(sh, x, sep, other), newRoot, levels).level.Keys;
  }

  lemma GrowKeepsContents(pages: Pages, sh: Shape, newRoot: int, node: Page, levels: nat, m: map<real, int>)
    requires NodesOk(pages, sh) && Agrees(pages, sh, m) && newRoot !in sh.level && levels > 0
    requires NodesOk(pages[newRoot := node], GrownShape(sh, newRoot, levels))
    ensures Agrees(pages[newRoot := node], GrownShape(sh, newRoot, levels), m)
  {
    var pages', sh' := pages[newRoot := node], GrownShape(sh, newRoot, levels);
    forall ord | ord in m ensures Holds(pages', sh', ord, m[ord]) {
      var p, j :| StoredAt(pages, sh, ord, m[ord], p, j);
      assert StoredAt(pages', sh', ord, m[ord], p, j);
    }
  }

  /** The new root was put aside as another page in use; now it is a tree page. */
  lemma GrowIsHoused(pages: Pages, freeNode: int, size: int, sh: Shape, list: seq<int>, others: Pages,
                     newRoot: int, root: int, sep: Key, other: int, levels: nat)
    requires Housed(pages, freeNode, size, sh, list, others[newRoot := EMPTY_NODE]) && newRoot !in others && LengthOk(sep)
    ensures Housed(pages[newRoot := Node(NULL, NULL, root, [sep], [other])], freeNode, size,
                   GrownShape(sh, newRoot, levels), list, others)
  {
    var node, sh' := Node(NULL, NULL, root, [sep], [other]), GrownShape(sh, newRoot, levels);
    var pages' := pages[newRoot := node];
    assert Lens(node.keys) == [|sep.bytes|];
    assert Prefix(Lens(node.keys), 1) == |sep.bytes|;
    assert SizeOk(node);
    assert sh'.level.Keys == sh.level.Keys + {newRoot};
    assert sh'.level.Keys + others.Keys == sh.level.Keys + (others.Keys + {newRoot});
    EditKeepsConserved(pages, pages', freeNode, size, sh.level.Keys + (others.Keys + {newRoot}), list);
  }

  /** A page handed out and then written is as if it had never been empty. */
  lemma SplitForgets(before: Pages, x: int, full: Page, out: nat, other: int)
    requires x in before && full.Node? && 0 < out < |full.keys| == |full.values| && other != x && full.left != other
    ensures SplitPages(before[other := EMPTY_NODE][x := full], x, out, other) == SplitPages(before[x := full], x, out, other)
  {
  }

  lemma SplitSetsAside(before: Pages, x: int, full: Page, out: nat, other: int, aside: int, node: Page)
    requires x in before && full.Node? && 0 < out < |full.keys| == |full.values| && other != x && full.left != other
    requires aside != x && aside != other && full.left != aside
    ensures var handedOut := before[aside := EMPTY_NODE][other := EMPTY_NODE];
            && aside in SplitPages(handedOut[x := full], x, out, other)
            && SplitPages(handedOut[x := full], x, out, other)[aside] == EMPTY_NODE
            && SplitPages(handedOut[x := full], x, out, other)[aside := node]
               == SplitPages(before[x := full], x, out, other)[aside := node]
  {
  }

  lemma AsideKeepsCanSplit(pages: Pages, sh: Shape, x: int, i: int, key: Key, other: int, aside: int)
    requires CanSplit(pages, sh, x, i, key, other) && aside !in sh.level
    ensures CanSplit(pages[aside := EMPTY_NODE], sh, x, i, key, other)
  {
    var pages' := pages[aside := EMPTY_NODE];
    forall p | p in sh.level ensures NodeOk(pages', sh, p) && SizeOk(pages'[p]) {
      assert NodeOk(pages, sh, p) && SizeOk(pages[p]);
    }
  }

  lemma ReadyToSplit(pages: Pages, sh: Shape, x: int, i: int, key: Key, other: int)
    requires NodesOk(pages, sh) && SizesOk(pages, sh) && x in sh.level && LengthOk(key)
    requires 0 <= i <= |pages[x].keys| && pages[x].Node?
    requires Used(|pages[x].keys| + 1, KeyBytes(pages[x].keys) + |key.bytes|) >= NODE_SIZE
    requires SplitSafe(Lens(pages[x].keys), i, |key.bytes|, pages[x].overflow == NULL)
    requires other > 0 && other !in sh.level
    ensures CanSplit(pages, sh, x, i, key, other)
  {
  }

  lemma HandOutOne(before: Pages, p: int)
    ensures HandedOut(before, before[p := EMPTY_NODE], {p})
  {
  }

  lemma HousedParts(pages: Pages, freeNode: int, size: int, sh: Shape, list: seq<int>, others: Pages)
    requires Housed(pages, freeNode, size, sh, list, others)
    ensures SizesOk(pages, sh) && sh.level.Keys !! others.Keys && OthersAre(pages, others)
    ensures Conserved(pages, freeNode, size, sh.level.Keys + others.Keys, list)
  {
  }

  /** The new root gets the separator and its left page as its only entry; the rest is to the right. */
  function RootAbove(node: Page, sep: Key, left: int, right: int): (r: Page)
    requires node == EMPTY_NODE
    ensures r == Node(NULL, NULL, right, [sep], [left])
  {
    var root := InsertPair(node, 0, sep, left);
    assert root.keys == [sep] && root.values == [left];
    root.(overflow := right)
  }

  /** Splitting the root after handing out two pages: the whole step. */
  lemma RootSplitRests(before: Pages, root: int, levels: nat, freeNode: int, size: int, sh: Shape, list: seq<int>,
                       others: Pages, m: map<real, int>, stack: seq<Frame>, newKey: Key, newValue: int,
                       i: int, key: Key, value: int, newRoot: int, other: int)
    requires Inserting(before, sh, root, levels, stack, newKey, newValue, key, value, m) && |stack| == 1
    requires LastIsNode(before, sh, stack) && root == stack[0].node && InsertsAt(before, stack, levels, key, i)
    requires CanSplit(before, sh, root, i, key, other) && NULL !in before
    requires sh.level.Keys !! others.Keys && other !in others && newRoot !in others && newRoot !in sh.level
    requires OthersAre(before, others)
    requires newRoot > 0 && newRoot != other && (levels > 1 ==> LeavesFull(before, sh))
    requires Conserved(before[newRoot := EMPTY_NODE][other := EMPTY_NODE], freeNode, size,
                       sh.level.Keys + others.Keys + {newRoot} + {other}, list)
    ensures |before[root].keys| == |before[root].values| && 0 < SplitCount(before, root, i, key) < |before[root].keys| + 1
    ensures var full, out := InsertPair(before[root], i, key, value), SplitCount(before, root, i, key);
            var halves := SplitPages(before[newRoot := EMPTY_NODE][other := EMPTY_NODE][root := full], root, out, other);
            var sep := Separator(full, out);
            && newRoot in halves && halves[newRoot] == EMPTY_NODE
            && AtRest(halves[newRoot := Node(NULL, NULL, root, [sep], [other])], newRoot, levels + 1, freeNode, size,
                      GrownShape(SplitShape(sh, root, sep.ord, other), newRoot, levels), list, others,
                      m[newKey.ord := newValue])
  {
    AtSplit(before, sh, root, levels, stack, newKey, newValue, root, i, key, value, m);
    SplitIsPossible(before, sh, root, i, key, value, other);
    var full, out := InsertPair(before[root], i, key, value), SplitCount(before, root, i, key);
    var sep, aside := Separator(full, out), before[newRoot := EMPTY_NODE];
    SplitSetsAside(before, root, full, out, other, newRoot, Node(NULL, NULL, root, [sep], [other]));
    SplitGrows(before, sh, root, levels, stack, newKey, newValue, i, key, value, other, newRoot, m);
    RootSplitIsHoused(before, root, levels, freeNode, size, sh, list, others, i, key, value, newRoot, other);
  }

  lemma RootSplitIsHoused(before: Pages, root: int, levels: nat, freeNode: int, size: int, sh: Shape, list: seq<int>,
                          others: Pages, i: int, key: Key, value: int, newRoot: int, other: int)
    requires CanSplit(before, sh, root, i, key, other) && NULL !in before
    requires root in before && before[root].Node? && root in sh.level && root in sh.lo
    requires |before[root].keys| == |before[root].values| && 0 < SplitCount(before, root, i, key) < |before[root].keys| + 1
    requires LengthOk(Separator(InsertPair(before[root], i, key, value), SplitCount(before, root, i, key)))
    requires before[root].left != NULL ==> before[root].left in sh.level
    requires sh.level.Keys !! others.Keys && other !in others && newRoot !in others && newRoot !in sh.level
    requires OthersAre(before, others)
    requires newRoot > 0 && newRoot != other
    requires Conserved(before[newRoot := EMPTY_NODE][other := EMPTY_NODE], freeNode, size,
                       sh.level.Keys + others.Keys + {newRoot} + {other}, list)
    ensures var full, out := InsertPair(before[root], i, key, value), SplitCount(before, root, i, key);
            var halves := SplitPages(before[newRoot := EMPTY_NODE][other := EMPTY_NODE][root := full], root, out, other);
            var sep := Separator(full, out);
            Housed(halves[newRoot := Node(NULL, NULL, root, [sep], [other])], freeNode, size,
                   GrownShape(SplitShape(sh, root, sep.ord, other), newRoot, levels), list, others)
  {
    hide Conserved, Housed, SizesOk, NodesOk;
    var full, out := InsertPair(before[root], i, key, value), SplitCount(before, root, i, key);
    var sep, aside := Separator(full, out), before[newRoot := EMPTY_NODE];
    assert root in sh.level;
    AsideKeepsCanSplit(before, sh, root, i, key, other, newRoot);
    SplitForgets(aside, root, full, out, other);
    HandOutOne(aside, other);
    var more := others[newRoot := EMPTY_NODE];
    assert more.Keys == others.Keys + {newRoot};
    assert sh.level.Keys + others.Keys + {newRoot} + {other} == sh.level.Keys + more.Keys + {other};
    SplitIsHoused(aside, aside[other := EMPTY_NODE], freeNode, size, sh, list, more, root, i, key, value, other);
    GrowIsHoused(SplitPages(aside[root := full], root, out, other), freeNode, size, SplitShape(sh, root, sep.ord, other),
                 list, others, newRoot, root, sep, other, levels);
  }

  // ---- Trees of short keys ----

  ghost predicate ShortKeys(keys: seq<Key>) {
    forall i :: 0 <= i < |keys| ==> |keys[i].bytes| <= SHORT_KEY
  }

  ghost predicate ShortTree(pages: Pages, sh: Shape) {
    forall p :: p in sh.level ==> p in pages && pages[p].Node? && ShortKeys(pages[p].keys)
  }

  lemma ShortNodeSplitsSafely(node: Page, i: int, key: Key)
    requires SizeOk(node) && LengthOk(key) && 0 <= i <= |node.keys|
    requires ShortKeys(node.keys) && |key.bytes| <= SHORT_KEY
    requires Used(|node.keys| + 1, KeyBytes(node.keys) + |key.bytes|) >= NODE_SIZE
    ensures SplitSafe(Lens(node.keys), i, |key.bytes|, node.overflow == NULL)
  {
    ShortKeysSplitSafely(Lens(node.keys), i, |key.bytes|, node.overflow == NULL);
  }

  lemma LongKeyLost(node: Page, i: int, key: Key)
    requires SizeOk(node) && LengthOk(key) && 0 <= i <= |node.keys|
    requires Used(|node.keys| + 1, KeyBytes(node.keys) + |key.bytes|) >= NODE_SIZE
    requires !SplitSafe(Lens(node.keys), i, |key.bytes|, node.overflow == NULL)
    ensures !ShortKeys(node.keys) || |key.bytes| > SHORT_KEY
  {
    if ShortKeys(node.keys) && |key.bytes| <= SHORT_KEY {
      ShortNodeSplitsSafely(node, i, key);
    }
  }

  // ---- How Remove ends ----

  lemma RemovedIsHoused(pages: Pages, freeNode: int, size: int, sh: Shape, sh': Shape, list: seq<int>, others: Pages,
                        x: int, node: Page)
    requires Housed(pages, freeNode, size, sh, list, others) && x in sh.level && SizeOk(node)
    requires sh'.level == sh.level
    ensures Housed(pages[x := node], freeNode, size, sh', list, others)
  {
    EditKeepsConserved(pages, pages[x := node], freeNode, size, sh.level.Keys + others.Keys, list);
  }

  lemma RemoveSlotSize(node: Page, i: int)
    requires SizeOk(node) && 0 <= i <= |node.keys| == |node.values| && |node.keys| > 0
    ensures SizeOk(RemoveSlot(node, i))
  {
    RemoveSize(node, if i == |node.keys| then i - 1 else i);
    if i == |node.keys| {
      assert RemoveSlot(node, i).keys == RemovePair(node, i - 1).keys;
    }
  }

  /** A leaf that keeps another key, or is the root, just loses the pair. */
  lemma LeafRemovalRests(pages: Pages, root: int, levels: nat, freeNode: int, size: int, sh: Shape, list: seq<int>,
                         others: Pages, m: map<real, int>, x: int, i: int)
    requires AtRest(pages, root, levels, freeNode, size, sh, list, others, m)
    requires x in sh.level && sh.level[x] == 0 && x in pages && pages[x].Node?
    requires 0 <= i < |pages[x].keys| == |pages[x].values| && (|pages[x].keys| > 1 || x == root)
    ensures pages[x].keys[i].ord in m
    ensures AtRest(pages[x := RemovePair(pages[x], i)], root, levels, freeNode, size, sh, list, others,
                   m - {pages[x].keys[i].ord})
  {
    hide Tree, Agrees, Housed, LeavesFull, RemovePair, RootOk;
    AtRestRoot(pages, root, levels, freeNode, size, sh, list, others, m);
    RemoveFromLeaf(pages, sh, root, levels, x, i, m);
    LeafRemovalHoused(pages, freeNode, size, sh, list, others, x, i);
    RemovedLeavesFull(pages, root, levels, sh, x, i);
  }

  lemma AtRestRoot(pages: Pages, root: int, levels: nat, freeNode: int, size: int, sh: Shape, list: seq<int>,
                   others: Pages, m: map<real, int>)
    requires AtRest(pages, root, levels, freeNode, size, sh, list, others, m)
    ensures ShapeOk(sh) && RootOk(sh, root, levels)
  {
  }

  lemma LeafRemovalHoused(pages: Pages, freeNode: int, size: int, sh: Shape, list: seq<int>, others: Pages, x: int, i: int)
    requires Housed(pages, freeNode, size, sh, list, others)
    requires x in sh.level && x in pages && pages[x].Node? && 0 <= i < |pages[x].keys| == |pages[x].values|
    ensures Housed(pages[x := RemovePair(pages[x], i)], freeNode, size, sh, list, others)
  {
    assert SizeOk(pages[x]);
    RemoveSize(pages[x], i);
    RemovedIsHoused(pages, freeNode, size, sh, sh, list, others, x, RemovePair(pages[x], i));
  }

  lemma RemovedLeavesFull(pages: Pages, root: int, levels: nat, sh: Shape, x: int, i: int)
    requires levels > 1 ==> LeavesFull(pages, sh)
    requires ShapeOk(sh) && RootOk(sh, root, levels) && x in sh.level && sh.level[x] == 0 && x in pages && pages[x].Node?
    requires 0 <= i < |pages[x].keys| == |pages[x].values| && (|pages[x].keys| > 1 || x == root)
    ensures levels > 1 ==> LeavesFull(pages[x := RemovePair(pages[x], i)], sh)
  {
    hide RemovePair;
  }

  lemma Rests(pages: Pages, root: int, levels: nat, freeNode: int, size: int, sh: Shape, list: seq<int>,
              others: Pages, m: map<real, int>)
    requires Tree(pages, sh, root, levels)
    requires Agrees(pages, sh, m) && Housed(pages, freeNode, size, sh, list, others)
    requires levels > 1 ==> LeavesFull(pages, sh)
    ensures AtRest(pages, root, levels, freeNode, size, sh, list, others, m)
  {
  }

  /** An index page that keeps a child closes the gap. */
  lemma GapRemovalRests(pages: Pages, root: int, levels: nat, freeNode: int, size: int, sh: Shape, list: seq<int>,
                        others: Pages, m: map<real, int>, stack: seq<Frame>, gap: Gap, ord: real)
    requires Removing(pages, sh, root, levels, stack, gap, ord, m) && |stack| < levels
    requires Housed(pages, freeNode, size, sh, list, others) && LeavesFull(pages, sh)
    requires LastIs(pages, stack, stack[|stack| - 1].node) && |pages[stack[|stack| - 1].node].keys| > 0
    requires 0 <= stack[|stack| - 1].index <= |pages[stack[|stack| - 1].node].keys|
    requires ShapeOk(sh)
    ensures var f := stack[|stack| - 1];
            var sh' := CloseShape(sh, gap, f.index < |pages[f.node].keys|);
            AtRest(pages[f.node := RemoveSlot(pages[f.node], f.index)], root, levels, freeNode, size, sh', list, others, m)
  {
    hide Removing, Housed, LeavesFull, AtRest, Tree, Agrees, TreeExcept, NodesOk, RemoveSlot, GapSlot;
    var f := stack[|stack| - 1];
    var sh' := CloseShape(sh, gap, f.index < |pages[f.node].keys|);
    var node := RemoveSlot(pages[f.node], f.index);
    GapCloses(pages, root, levels, sh, m, stack, gap, ord);
    GapClosesHoused(pages, root, levels, freeNode, size, sh, list, others, m, stack, gap, ord);
    Rests(pages[f.node := node], root, levels, freeNode, size, sh', list, others, m);
  }

  lemma GapCloses(pages: Pages, root: int, levels: nat, sh: Shape, m: map<real, int>, stack: seq<Frame>, gap: Gap, ord: real)
    requires Removing(pages, sh, root, levels, stack, gap, ord, m) && |stack| < levels && ShapeOk(sh)
    requires LastIs(pages, stack, stack[|stack| - 1].node) && |pages[stack[|stack| - 1].node].keys| > 0
    requires 0 <= stack[|stack| - 1].index <= |pages[stack[|stack| - 1].node].keys|
    ensures var f := stack[|stack| - 1];
            var sh' := CloseShape(sh, gap, f.index < |pages[f.node].keys|);
            && Tree(pages[f.node := RemoveSlot(pages[f.node], f.index)], sh', root, levels)
            && Agrees(pages[f.node := RemoveSlot(pages[f.node], f.index)], sh', m)
  {
    var f := stack[|stack| - 1];
    CloseGap(pages, sh, root, levels, gap, f.node, f.index, m);
  }

  lemma GapClosesHoused(pages: Pages, root: int, levels: nat, freeNode: int, size: int, sh: Shape, list: seq<int>,
                        others: Pages, m: map<real, int>, stack: seq<Frame>, gap: Gap, ord: real)
    requires Removing(pages, sh, root, levels, stack, gap, ord, m) && |stack| < levels && ShapeOk(sh)
    requires Housed(pages, freeNode, size, sh, list, others) && LeavesFull(pages, sh)
    requires LastIs(pages, stack, stack[|stack| - 1].node) && |pages[stack[|stack| - 1].node].keys| > 0
    requires 0 <= stack[|stack| - 1].index <= |pages[stack[|stack| - 1].node].keys|
    ensures var f := stack[|stack| - 1];
            var pages' := pages[f.node := RemoveSlot(pages[f.node], f.index)];
            var sh' := CloseShape(sh, gap, f.index < |pages[f.node].keys|);
            Housed(pages', freeNode, size, sh', list, others) && LeavesFull(pages', sh')
  {
    hide Tree, TreeExcept, Agrees, RemoveSlot, Used, Lens, KeyBytes, Conserved, Removing;
    var f := stack[|stack| - 1];
    var sh' := CloseShape(sh, gap, f.index < |pages[f.node].keys|);
    AtRemoval(pages, sh, root, levels, stack, gap, ord, m);
    assert SizeOk(pages[f.node]);
    RemoveSlotSize(pages[f.node], f.index);
    RemovedIsHoused(pages, freeNode, size, sh, sh', list, others, f.node, RemoveSlot(pages[f.node], f.index));
  }

  /** A root without keys whose last child is gone becomes an empty leaf. */
  lemma RootRemovalRests(pages: Pages, root: int, levels: nat, freeNode: int, size: int, sh: Shape, list: seq<int>,
                         others: Pages, m: map<real, int>, stack: seq<Frame>, gap: Gap, ord: real)
    requires Removing(pages, sh, root, levels, stack, gap, ord, m) && |stack| == 1 && levels > 1
    requires Housed(pages, freeNode, size, sh, list, others)
    requires LastIs(pages, stack, root) && |pages[root].keys| == 0
    ensures AtRest(pages[root := pages[root].(overflow := NULL, keys := [], values := [])], root, 1, freeNode, size,
                   Shape(map[root := 0], map[root := -1.0], map[root := 1.0]), list, others, m)
  {
    RootEmptied(pages, sh, root, levels, stack, gap, ord, m);
    var node := pages[root].(overflow := NULL, keys := [], values := []);
    var sh' := Shape(map[root := 0], map[root := -1.0], map[root := 1.0]);
    assert node == Node(NULL, NULL, NULL, [], []);
    EmptyRootIsTree(pages[root := node], root);
    assert sh'.level.Keys == sh.level.Keys;
    assert root in sh.level.Keys;
    EditKeepsConserved(pages, pages[root := node], freeNode, size, sh.level.Keys + others.Keys, list);
    assert Lens(node.keys) == [];
    assert SizeOk(node);
  }

  /** The root leaf with its only key, or none. */
  lemma RootLeafRests(pages: Pages, root: int, levels: nat, freeNode: int, size: int, sh: Shape, list: seq<int>,
                      others: Pages, m: map<real, int>)
    requires AtRest(pages, root, levels, freeNode, size, sh, list, others, m) && levels == 1
    requires root in pages && pages[root].Node? && |pages[root].keys| == |pages[root].values| <= 1
    ensures |pages[root].keys| == 1 ==> pages[root].keys[0].ord in m
    ensures AtRest(pages[root := pages[root].(overflow := NULL, keys := [], values := [])], root, 1, freeNode, size,
                   sh, list, others, if |pages[root].keys| == 1 then m - {pages[root].keys[0].ord} else m)
  {
    var node := pages[root].(overflow := NULL, keys := [], values := []);
    LeafHasNoOverflow(pages, sh, root);
    if |pages[root].keys| == 1 {
      LeafRemovalRests(pages, root, levels, freeNode, size, sh, list, others, m, root, 0);
      assert RemovePair(pages[root], 0) == node;
    } else {
      assert pages[root] == node;
      assert pages[root := node] == pages;
    }
  }

  lemma DropIsHoused(pages: Pages, pages': Pages, freeNode: int, size: int, sh: Shape, list: seq<int>,
                     others: Pages, x: int)
    requires SizesOk(pages, sh) && sh.level.Keys !! others.Keys && IsUnlinked(pages, sh, x, pages')
    requires Conserved(pages', freeNode, size, sh.level.Keys + others.Keys - {x}, list) && OthersAre(pages', others)
    ensures Housed(pages', freeNode, size, DropShape(sh, x), list, others)
    ensures LeavesFull(pages, sh) ==> LeavesFull(pages', DropShape(sh, x))
  {
    var sh' := DropShape(sh, x);
    assert sh'.level.Keys + others.Keys == sh.level.Keys + others.Keys - {x};
    hide Conserved;
    forall p | p in sh'.level ensures p in pages' && SizeOk(pages'[p]) && pages'[p].keys == pages[p].keys {
      DropKeepsSize(pages, pages', sh, x, p);
    }
  }

  lemma UnlinkKeepsOthers(pages: Pages, pages': Pages, sh: Shape, gap: Gap, others: Pages, x: int)
    requires NodesOk(pages, sh) && LinksOk(pages, sh, gap) && x in sh.level && NULL !in pages
    requires sh.level.Keys !! others.Keys && OthersAre(pages, others)
    requires x in pages && pages[x].Node? && pages' - {x} == UnlinkPages(pages, x) - {x}
    ensures OthersAre(pages', others)
  {
    assert NodeOk(pages, sh, x);
    assert LeftOk(pages, sh, gap, x) && RightOk(pages, sh, gap, x);
    hide NodesOk;
    forall p | p in others ensures p in pages' && pages'[p] == others[p] {
      assert p in pages && p !in sh.level && p in UnlinkPages(pages, x) - {x};
      assert p in pages' - {x};
    }
  }

  lemma DropKeepsSize(pages: Pages, pages': Pages, sh: Shape, x: int, p: int)
    requires SizesOk(pages, sh) && IsUnlinked(pages, sh, x, pages') && p in sh.level && p != x
    ensures p in pages' && SizeOk(pages'[p]) && pages'[p].keys == pages[p].keys
  {
    assert SizeOk(pages[p]);
    hide NodesOk, SizesOk;
    assert pages'[p].keys == pages[p].keys;
  }

  lemma SameElsewhere(pages: Pages, sh: Shape, gap: Gap, x: int, pages': Pages)
    requires NodesOk(pages, sh) && LinksOk(pages, sh, gap) && x in sh.level
    requires pages' - {x} == UnlinkPages(pages, x) - {x}
    ensures IsUnlinked(pages, sh, x, pages')
  {
    UnlinkIsUnlinked(pages, sh, gap, x);
    hide NodesOk;
    var u := UnlinkPages(pages, x);
    forall p | p in sh.level && p != x ensures p in pages' && pages'[p] == u[p] {
      assert p in u - {x};
      assert (pages' - {x})[p] == (u - {x})[p];
    }
  }

  /** Dropping an emptied page: the whole step. */
  lemma RestNodes(pages: Pages, root: int, levels: nat, freeNode: int, size: int, sh: Shape, list: seq<int>,
                  others: Pages, m: map<real, int>)
    requires AtRest(pages, root, levels, freeNode, size, sh, list, others, m)
    ensures NodesOk(pages, sh)
  {
  }

  lemma RemovingHasNodes(pages: Pages, sh: Shape, root: int, levels: nat, stack: seq<Frame>, gap: Gap, ord: real,
                         m: map<real, int>)
    requires Removing(pages, sh, root, levels, stack, gap, ord, m)
    ensures NodesOk(pages, sh)
  {
  }

  lemma GapIsOpen(pages: Pages, sh: Shape, root: int, levels: nat, stack: seq<Frame>, gap: Gap, ord: real,
                  m: map<real, int>)
    requires Removing(pages, sh, root, levels, stack, gap, ord, m) && |stack| < levels
    ensures gap.lo < gap.hi
  {
  }

  lemma DroppedIsUnlinked(before: Pages, pages: Pages, root: int, levels: nat, sh: Shape, m: map<real, int>,
                          stack: seq<Frame>, gap: Gap, ord: real, x: int)
    requires Removing(before, sh, root, levels, stack, gap, ord, m) && |stack| >= 2 && LastIs(before, stack, x)
    requires pages - {x} == UnlinkPages(before, x) - {x}
    ensures IsUnlinked(before, sh, x, pages)
    ensures sh.level[x] == levels - |stack|
  {
    AtRemoval(before, sh, root, levels, stack, gap, ord, m);
    assert LinksOk(before, sh, gap) && Laminar(sh);
    SameElsewhere(before, sh, gap, x, pages);
  }

  lemma Dropped(before: Pages, pages: Pages, root: int, levels: nat, freeNode: int, size: int, sh: Shape, list: seq<int>,
                others: Pages, m: map<real, int>, stack: seq<Frame>, gap: Gap, ord: real, x: int)
    requires Removing(before, sh, root, levels, stack, gap, ord, m) && |stack| >= 2 && LastIs(before, stack, x)
    requires |before[x].keys| == if |stack| == levels then 1 else 0
    requires SizesOk(before, sh) && sh.level.Keys !! others.Keys && OthersAre(before, others) && NULL !in before
    requires pages - {x} == UnlinkPages(before, x) - {x}
    requires Conserved(pages, freeNode, size, sh.level.Keys + others.Keys - {x}, list)
    requires x in sh.lo && x in sh.hi
    ensures var sh', gap' := DropShape(sh, x), Gap(gap.height + 1, sh.lo[x], sh.hi[x]);
            var m' := if |stack| == levels then m - {before[x].keys[0].ord} else m;
            && Removing(pages, sh', root, levels, stack[..|stack| - 1], gap', ord, m')
            && Housed(pages, freeNode, size, sh', list, others)
            && (LeavesFull(before, sh) ==> LeavesFull(pages, sh'))
            && (|stack| == levels ==> before[x].keys[0].ord in m)
  {
    AtRemoval(before, sh, root, levels, stack, gap, ord, m);
    assert LinksOk(before, sh, gap) && Laminar(sh);
    SameElsewhere(before, sh, gap, x, pages);
    DropKeepsNodes(before, sh, x, pages);
    DropContents(before, sh, x, pages, m);
    UnlinkKeepsOthers(before, pages, sh, gap, others, x);
    DropIsHoused(before, pages, freeNode, size, sh, list, others, x);
    AfterDrop(before, sh, root, levels, stack, gap, ord, m, pages,
              if |stack| == levels then m - {before[x].keys[0].ord} else m);
  }

  /** Some pair other than the one asked for is gone, unless there was none at all. */
  ghost predicate TookNeighbour(m: map<real, int>, m': map<real, int>) {
    if m == map[] then m' == map[] else exists v :: v in m && m' == m - {v}
  }

  ghost predicate Took(m: map<real, int>, m': map<real, int>, ord: real) {
    if ord in m then m' == m - {ord} else TookNeighbour(m, m')
  }

  lemma NewStore(pages: Pages)
    requires pages == map[NODE_SIZE := EMPTY_NODE]
    ensures Housed(pages, NULL, 2 * NODE_SIZE, Shape(map[NODE_SIZE := 0], map[NODE_SIZE := -1.0], map[NODE_SIZE := 1.0]), [], map[])
  {
    assert Lens(EMPTY_NODE.keys) == [];
    assert ToSet([]) == {};
    forall p: int ensures p in pages <==> IsOffset(p, 2 * NODE_SIZE) {
    }
  }

  /** At a leaf the search gives the place, above it the frame does; the key is new in both cases. */
  lemma InsertionPoint(pages: Pages, sh: Shape, root: int, levels: nat, stack: seq<Frame>,
                       newKey: Key, newValue: int, key: Key, value: int, m: map<real, int>, i: int)
    requires Inserting(pages, sh, root, levels, stack, newKey, newValue, key, value, m)
    requires LastIsNode(pages, sh, stack) && stack[|stack| - 1].node in sh.level
    requires sh.level[stack[|stack| - 1].node] == levels - |stack|
    requires |stack| < levels ==> i == stack[|stack| - 1].index && newKey.ord !in m
    requires |stack| == levels ==> IsPosition(pages[stack[|stack| - 1].node].keys, key.ord, i)
    requires |stack| == levels && i < |pages[stack[|stack| - 1].node].keys| ==>
               pages[stack[|stack| - 1].node].keys[i].ord != key.ord
    ensures InsertsAt(pages, stack, levels, key, i) && newKey.ord !in m
  {
    var f := stack[|stack| - 1];
    assert OnPath(pages, sh, levels, stack, |stack| - 1, newKey.ord);
    if |stack| == levels {
      AbsentKey(pages, sh, f.node, i, key.ord, m);
    } else {
      PendingPosition(pages, sh, f.node, f.index, key, value);
    }
  }
}
