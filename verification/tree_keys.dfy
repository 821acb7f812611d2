/** Which keys the pages of a tree hold: splitting, removing and freeing pages only move and drop keys, so that
    every key in a leaf is, byte for byte, one that was put in. */
module TreeKeys {
  import opened NodeLayout
  import opened TreeShape
  import opened TreeSteps
  import opened TreePath
  import opened PageStore
  import opened TreeHousing

  /** The key is in a page of that level or a lower one. */
  ghost predicate HasKey(pages: Pages, sh: Shape, h: nat, key: Key) {
    exists p, i :: KeyAt(pages, sh, h, key, p, i)
  }

  ghost predicate KeyAt(pages: Pages, sh: Shape, h: nat, key: Key, p: int, i: int) {
    && p in sh.level && sh.level[p] <= h && p in pages && pages[p].Node?
    && 0 <= i < |pages[p].keys| && pages[p].keys[i] == key
  }

  /** No key has come but one, and that to a page of this level. */
  ghost predicate KeysGrow(pages: Pages, sh: Shape, pages': Pages, sh': Shape, key: Key, level: nat) {
    forall h, k {:trigger HasKey(pages', sh', h, k)} ::
      HasKey(pages', sh', h, k) ==> HasKey(pages, sh, h, k) || (level <= h && k == key)
  }

  /** No key has come. */
  ghost predicate KeysKept(pages: Pages, sh: Shape, pages': Pages, sh': Shape) {
    forall h, k {:trigger HasKey(pages', sh', h, k)} :: HasKey(pages', sh', h, k) ==> HasKey(pages, sh, h, k)
  }

  /** The key is in a page below this level or on it, or it is the other one. */
  ghost predicate KeyKnown(pages: Pages, sh: Shape, level: nat, k: Key, key: Key) {
    forall h {:trigger HasKey(pages, sh, h, k)} :: level <= h ==> HasKey(pages, sh, h, k) || k == key
  }

  lemma KeptRefl(pages: Pages, sh: Shape, key: Key)
    ensures KeysKept(pages, sh, pages, sh) && KeysGrow(pages, sh, pages, sh, key, 0)
  {
  }

  lemma GrowHigher(pages: Pages, sh: Shape, key: Key, level: nat)
    ensures KeysGrow(pages, sh, pages, sh, key, level)
  {
  }

  lemma KeptTrans(a: Pages, sa: Shape, b: Pages, sb: Shape, c: Pages, sc: Shape)
    requires KeysKept(a, sa, b, sb) && KeysKept(b, sb, c, sc)
    ensures KeysKept(a, sa, c, sc)
  {
  }

  /** A step up the tree: what comes into the upper page was known below. */
  lemma GrowTrans(a: Pages, sa: Shape, b: Pages, sb: Shape, c: Pages, sc: Shape, k: Key, level: nat, key: Key)
    requires KeysGrow(a, sa, b, sb, key, 0) && KeysGrow(b, sb, c, sc, k, level) && KeyKnown(a, sa, level, k, key)
    ensures KeysGrow(a, sa, c, sc, key, 0)
  {
    hide HasKey;
    forall h, x | HasKey(c, sc, h, x) ensures HasKey(a, sa, h, x) || x == key {
      if !HasKey(b, sb, h, x) {
        assert level <= h && x == k;
        assert HasKey(a, sa, h, k) || k == key;
      }
    }
  }

  lemma KnownTrans(a: Pages, sa: Shape, b: Pages, sb: Shape, sep: Key, k: Key, level: nat, key: Key)
    requires KeysGrow(a, sa, b, sb, key, 0) && KeyKnown(b, sb, level, sep, k) && KeyKnown(a, sa, level, k, key)
    ensures KeyKnown(a, sa, level, sep, key)
  {
    hide HasKey;
    forall h: nat | level <= h ensures HasKey(a, sa, h, sep) || sep == key {
      assert HasKey(b, sb, h, sep) || sep == k;
      assert HasKey(a, sa, h, k) || k == key;
    }
  }

  lemma KnownHigher(pages: Pages, sh: Shape, level: nat, level': nat, k: Key, key: Key)
    requires KeyKnown(pages, sh, level, k, key) && level <= level'
    ensures KeyKnown(pages, sh, level', k, key)
  {
  }

  // ---- page by page ----

  /** All keys of a page are from a page `q` of its level or a lower one, but for the new one. */
  ghost predicate FromPage(pages: Pages, sh: Shape, q: int, keys: seq<Key>, level': nat, key: Key, level: nat) {
    && q in sh.level && sh.level[q] <= level' && q in pages && pages[q].Node?
    && forall i :: 0 <= i < |keys| ==> keys[i] in pages[q].keys || (level <= level' && keys[i] == key)
  }

  lemma GrowsByPage(pages: Pages, sh: Shape, pages': Pages, sh': Shape, key: Key, level: nat)
    requires (forall p :: p in sh'.level && p in pages' && pages'[p].Node? && pages'[p].keys != [] ==>
                exists q :: FromPage(pages, sh, q, pages'[p].keys, sh'.level[p], key, level))
    ensures KeysGrow(pages, sh, pages', sh', key, level)
  {
    forall h, k | HasKey(pages', sh', h, k) ensures HasKey(pages, sh, h, k) || (level <= h && k == key) {
      var p, i :| KeyAt(pages', sh', h, k, p, i);
      var q :| FromPage(pages, sh, q, pages'[p].keys, sh'.level[p], key, level);
      if k in pages[q].keys {
        var j :| 0 <= j < |pages[q].keys| && pages[q].keys[j] == k;
        assert KeyAt(pages, sh, h, k, q, j);
      }
    }
  }

  lemma KeptByPage(pages: Pages, sh: Shape, pages': Pages, sh': Shape)
    requires (forall p :: p in sh'.level && p in pages' && pages'[p].Node? && pages'[p].keys != [] ==>
                && p in sh.level && sh.level[p] <= sh'.level[p] && p in pages && pages[p].Node?
                && forall i :: 0 <= i < |pages'[p].keys| ==> pages'[p].keys[i] in pages[p].keys)
    ensures KeysKept(pages, sh, pages', sh')
  {
    forall h, k | HasKey(pages', sh', h, k) ensures HasKey(pages, sh, h, k) {
      var p, i :| KeyAt(pages', sh', h, k, p, i);
      var j :| 0 <= j < |pages[p].keys| && pages[p].keys[j] == k;
      assert KeyAt(pages, sh, h, k, p, j);
    }
  }

  lemma InsertedKeys(node: Page, i: int, key: Key, value: int)
    requires node.Node? && 0 <= i <= |node.keys| == |node.values|
    ensures forall j :: 0 <= j <= |node.keys| ==> InsertPair(node, i, key, value).keys[j] in node.keys
                                                  || InsertPair(node, i, key, value).keys[j] == key
  {
    var keys := InsertPair(node, i, key, value).keys;
    forall j | 0 <= j <= |node.keys| ensures keys[j] in node.keys || keys[j] == key {
      assert keys[j] == if j < i then node.keys[j] else if j == i then key else node.keys[j - 1];
    }
  }

  lemma FilledGrows(pages: Pages, sh: Shape, x: int, i: int, key: Key, value: int)
    requires x in sh.level && x in pages && pages[x].Node? && 0 <= i <= |pages[x].keys| == |pages[x].values|
    ensures KeysGrow(pages, sh, Filled(pages, x, i, key, value), sh, key, sh.level[x])
  {
    var pages' := Filled(pages, x, i, key, value);
    InsertedKeys(pages[x], i, key, value);
    forall p | p in sh.level && p in pages' && pages'[p].Node? && pages'[p].keys != []
      ensures exists q :: FromPage(pages, sh, q, pages'[p].keys, sh.level[p], key, sh.level[x]) {
      assert FromPage(pages, sh, p, pages'[p].keys, sh.level[p], key, sh.level[x]);
    }
    GrowsByPage(pages, sh, pages', sh, key, sh.level[x]);
  }

  /** Both halves of a split, and the key that goes up. */
  lemma SplitKeys(pages: Pages, sh: Shape, x: int, i: int, key: Key, value: int, other: int)
    requires x in sh.level && x in sh.lo && x in pages && pages[x].Node? && 0 <= i <= |pages[x].keys| == |pages[x].values|
    requires 0 < SplitCount(pages, x, i, key) < |pages[x].keys| + 1 && other != x
    ensures var full, out := Filled(pages, x, i, key, value), SplitCount(pages, x, i, key);
            && KeysGrow(pages, sh, SplitPages(full, x, out, other), SplitShape(sh, x, Separator(full[x], out).ord, other), key, sh.level[x])
            && KeyKnown(pages, sh, sh.level[x], Separator(full[x], out), key)
  {
    hide LeftCount;
    var full, out := Filled(pages, x, i, key, value), SplitCount(pages, x, i, key);
    var sep := Separator(full[x], out);
    var pages', sh' := SplitPages(full, x, out, other), SplitShape(sh, x, sep.ord, other);
    InsertedKeys(pages[x], i, key, value);
    forall p | p in sh'.level && p in pages' && pages'[p].Node? && pages'[p].keys != []
      ensures exists q :: FromPage(pages, sh, q, pages'[p].keys, sh'.level[p], key, sh.level[x]) {
      var q := if p == other then x else p;
      var skip := if p == x && full[x].overflow == NULL then out else if p == x then out + 1 else 0;
      assert forall j :: (p == x || p == other) && 0 <= j < |pages'[p].keys| ==> pages'[p].keys[j] == full[x].keys[skip + j];
      assert FromPage(pages, sh, q, pages'[p].keys, sh'.level[p], key, sh.level[x]);
    }
    GrowsByPage(pages, sh, pages', sh', key, sh.level[x]);
    if sep in pages[x].keys {
      var j :| 0 <= j < |pages[x].keys| && pages[x].keys[j] == sep;
      forall h: nat | sh.level[x] <= h ensures HasKey(pages, sh, h, sep) {
        assert KeyAt(pages, sh, h, sep, x, j);
      }
    }
  }

  /** A new root has one key, which was known. */
  lemma RootKeys(a: Pages, sa: Shape, pages: Pages, sh: Shape, newRoot: int, root: int, sep: Key, other: int, levels: nat, key: Key, level: nat)
    requires KeysGrow(a, sa, pages, sh, key, level) && KeyKnown(a, sa, level, sep, key) && level <= levels
    ensures KeysGrow(a, sa, pages[newRoot := Node(NULL, NULL, root, [sep], [other])], GrownShape(sh, newRoot, levels), key, level)
  {
    var pages', sh' := pages[newRoot := Node(NULL, NULL, root, [sep], [other])], GrownShape(sh, newRoot, levels);
    forall h, k | HasKey(pages', sh', h, k) ensures HasKey(a, sa, h, k) || (level <= h && k == key) {
      var p, i :| KeyAt(pages', sh', h, k, p, i);
      if p == newRoot {
        assert HasKey(a, sa, h, sep) || sep == key;
      } else {
        assert KeyAt(pages, sh, h, k, p, i);
        assert HasKey(pages, sh, h, k);
      }
    }
  }

  lemma RootSplitKeys(before: Pages, root: int, levels: nat, sh: Shape, i: int, key: Key, value: int, newRoot: int, other: int)
    requires root in sh.level && root in sh.lo && root in before && before[root].Node? && sh.level[root] <= levels
    requires 0 <= i <= |before[root].keys| == |before[root].values|
    requires 0 < SplitCount(before, root, i, key) < |before[root].keys| + 1
    requires newRoot != root && newRoot != other && other != root && before[root].left != other && before[root].left != newRoot
    ensures var full, out := InsertPair(before[root], i, key, value), SplitCount(before, root, i, key);
            var halves := SplitPages(before[newRoot := EMPTY_NODE][other := EMPTY_NODE][root := full], root, out, other);
            var sep := Separator(full, out);
            KeysGrow(before, sh, halves[newRoot := Node(NULL, NULL, root, [sep], [other])],
                     GrownShape(SplitShape(sh, root, sep.ord, other), newRoot, levels), key, sh.level[root])
  {
    hide LeftCount, KeysGrow, KeyKnown;
    var full, out := InsertPair(before[root], i, key, value), SplitCount(before, root, i, key);
    var sep := Separator(full, out);
    SplitKeys(before, sh, root, i, key, value, other);
    RootKeys(before, sh, SplitPages(before[root := full], root, out, other), SplitShape(sh, root, sep.ord, other),
             newRoot, root, sep, other, levels, key, sh.level[root]);
    SplitSetsAside(before, root, full, out, other, newRoot, Node(NULL, NULL, root, [sep], [other]));
  }

  // ---- removing ----

  lemma RemoveSlotKeys(pages: Pages, sh: Shape, x: int, i: int, sh': Shape)
    requires x in pages && pages[x].Node? && 0 <= i <= |pages[x].keys| == |pages[x].values| && |pages[x].keys| > 0
    requires x in sh.level && sh'.level == sh.level
    ensures KeysKept(pages, sh, pages[x := RemoveSlot(pages[x], i)], sh')
  {
    var keys, keys' := pages[x].keys, RemoveSlot(pages[x], i).keys;
    var gone := if i == |keys| then i - 1 else i;
    assert forall j :: 0 <= j < |keys'| ==> keys'[j] == keys[if j < gone then j else j + 1];
    KeptByPage(pages, sh, pages[x := RemoveSlot(pages[x], i)], sh');
  }

  lemma DropKeys(pages: Pages, pages': Pages, sh: Shape, x: int)
    requires IsUnlinked(pages, sh, x, pages')
    ensures KeysKept(pages, sh, pages', DropShape(sh, x))
  {
    forall p | p in DropShape(sh, x).level ensures p in pages && pages[p].Node? && p in pages' && pages'[p].Node? && pages'[p].keys == pages[p].keys {
      assert NodeOk(pages, sh, p);
    }
    KeptByPage(pages, sh, pages', DropShape(sh, x));
  }

  lemma EmptiedKeys(pages: Pages, sh: Shape, root: int)
    requires root in pages && pages[root].Node?
    ensures var pages' := pages[root := pages[root].(overflow := NULL, keys := [], values := [])];
            && KeysKept(pages, sh, pages', sh)
            && KeysKept(pages, sh, pages', Shape(map[root := 0], map[root := -1.0], map[root := 1.0]))
  {
    var pages' := pages[root := pages[root].(overflow := NULL, keys := [], values := [])];
    KeptByPage(pages, sh, pages', sh);
    KeptByPage(pages, sh, pages', Shape(map[root := 0], map[root := -1.0], map[root := 1.0]));
  }

  // ---- trees of short keys ----

  /** A tree of short keys stays one when a short key comes. */
  lemma StaysShort(pages: Pages, sh: Shape, pages': Pages, sh': Shape, key: Key)
    requires ShortTree(pages, sh) && NodesOk(pages', sh') && |key.bytes| <= SHORT_KEY
    requires KeysGrow(pages, sh, pages', sh', key, 0)
    ensures ShortTree(pages', sh')
  {
    forall p | p in sh'.level ensures p in pages' && pages'[p].Node? && ShortKeys(pages'[p].keys) {
      assert NodeOk(pages', sh', p);
      forall i | 0 <= i < |pages'[p].keys| ensures |pages'[p].keys[i].bytes| <= SHORT_KEY {
        var k, h := pages'[p].keys[i], sh'.level[p];
        assert KeyAt(pages', sh', h, k, p, i);
        assert HasKey(pages', sh', h, k);
        if HasKey(pages, sh, h, k) {
          var q, j :| KeyAt(pages, sh, h, k, q, j);
          assert ShortKeys(pages[q].keys);
        }
      }
    }
  }

  lemma KnownIsShort(pages: Pages, sh: Shape, level: nat, k: Key, key: Key)
    requires ShortTree(pages, sh) && KeyKnown(pages, sh, level, k, key) && |key.bytes| <= SHORT_KEY
    ensures |k.bytes| <= SHORT_KEY
  {
    if k != key {
      assert HasKey(pages, sh, level, k);
      var q, j :| KeyAt(pages, sh, level, k, q, j);
      assert ShortKeys(pages[q].keys);
    }
  }

  lemma KeptGrow(pages: Pages, sh: Shape, pages': Pages, sh': Shape, key: Key)
    requires KeysKept(pages, sh, pages', sh')
    ensures KeysGrow(pages, sh, pages', sh', key, 0)
  {
  }

  lemma KeptStaysShort(pages: Pages, sh: Shape, pages': Pages, sh': Shape)
    requires NodesOk(pages', sh') && KeysKept(pages, sh, pages', sh')
    ensures ShortTree(pages, sh) ==> ShortTree(pages', sh')
  {
    hide NodesOk, KeysKept, ShortTree;
    if ShortTree(pages, sh) {
      KeptGrow(pages, sh, pages', sh', Key([], 0.0));
      StaysShort(pages, sh, pages', sh', Key([], 0.0));
    }
  }

  // ---- the names in the leaves ----

  /** For each place the key that is there: those of the leaves, byte for byte. */
  ghost predicate Named(pages: Pages, sh: Shape, m: map<real, int>, names: map<real, Key>) {
    && names.Keys == m.Keys
    && forall k {:trigger HasKey(pages, sh, 0, k)} :: HasKey(pages, sh, 0, k) ==> k.ord in names && names[k.ord] == k
  }

  lemma NamedAfterAdd(pages: Pages, sh: Shape, m: map<real, int>, names: map<real, Key>, pages': Pages, sh': Shape, key: Key, value: int)
    requires Named(pages, sh, m, names) && KeysGrow(pages, sh, pages', sh', key, 0) && key.ord !in m
    ensures Named(pages', sh', m[key.ord := value], names[key.ord := key])
  {
    hide HasKey;
    forall k | HasKey(pages', sh', 0, k) ensures k.ord in names[key.ord := key] && names[key.ord := key][k.ord] == k {
      assert HasKey(pages, sh, 0, k) || k == key;
    }
  }

  lemma NamedAfterDrop(pages: Pages, sh: Shape, m: map<real, int>, names: map<real, Key>, pages': Pages, sh': Shape, m': map<real, int>)
    requires Named(pages, sh, m, names) && KeysKept(pages, sh, pages', sh') && NodesOk(pages', sh') && Agrees(pages', sh', m') && m'.Keys <= m.Keys
    ensures Named(pages', sh', m', names - (m.Keys - m'.Keys))
  {
    forall k | HasKey(pages', sh', 0, k) ensures k.ord in m' && k.ord in names && names[k.ord] == k {
      var p, i :| KeyAt(pages', sh', 0, k, p, i);
      assert HasKey(pages, sh, 0, k);
    }
  }
}
