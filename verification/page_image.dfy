/** The pages of the tree model and the bytes of NodePage are the same pages: every edit that the tree
    uses has the byte edit as its image. */
module PageImage {
  import L = NodeLayout
  import B = NodeBytes
  import N = NodePage
  import S = NodeSplit
  import P = PageSplit
  import opened TreeShape
  import opened TreeSteps

  // ---- 64-bit words, little-endian ----

  const WORD: int := 0x1_0000_0000_0000_0000

  predicate IsInt64(v: int) {
    -0x8000_0000_0000_0000 <= v < 0x8000_0000_0000_0000
  }

  function Power(n: nat): nat {
    if n == 0 then 1 else 256 * Power(n - 1)
  }

  function Little(x: nat, n: nat): (r: seq<L.Byte>)
    ensures |r| == n
  {
    if n == 0 then [] else [x % 256] + Little(x / 256, n - 1)
  }

  function Back(s: seq<L.Byte>): nat {
    if s == [] then 0
    else var low: int := s[0]; low + 256 * Back(s[1..])
  }

  lemma {:induction false} BackOfLittle(x: nat, n: nat)
    requires x < Power(n)
    ensures Back(Little(x, n)) == x
  {
    if n > 0 {
      BackOfLittle(x / 256, n - 1);
    }
  }

  /** A link or value as it is stored. */
  function CellOf(v: int): B.Cell
    requires IsInt64(v)
  {
    Little(if v < 0 then v + WORD else v, 8)
  }

  lemma CellsDiffer(v: int, w: int)
    requires IsInt64(v) && IsInt64(w)
    ensures CellOf(v) == CellOf(w) <==> v == w
  {
    WordPower();
    BackOfLittle(if v < 0 then v + WORD else v, 8);
    BackOfLittle(if w < 0 then w + WORD else w, 8);
  }

  lemma WordPower()
    ensures Power(8) == WORD
  {
    assert Power(4) == 0x1_0000_0000;
  }

  lemma NullCell()
    ensures CellOf(NULL) == B.NULL_CELL
  {
    assert Little(0xffff_ffff, 4) == [255, 255, 255, 255];
    LittleOfNull();
  }

  lemma LittleOfNull()
    ensures Little(0xffff_ffff_ffff_ffff, 8) == [255, 255, 255, 255, 255, 255, 255, 255]
  {
    assert Little(0xffff_ffff_ffff, 6) == [255, 255] + Little(0xffff_ffff, 4);
  }

  // ---- Pages ----

  predicate Storable(page: Page) {
    && page.Node? && IsInt64(page.left) && IsInt64(page.right) && IsInt64(page.overflow)
    && |page.keys| == |page.values| && (forall i :: 0 <= i < |page.values| ==> IsInt64(page.values[i]))
  }

  function Names(keys: seq<Key>): seq<seq<L.Byte>> {
    seq(|keys|, i requires 0 <= i < |keys| => keys[i].bytes)
  }

  function Stored(values: seq<int>): seq<B.Cell>
    requires forall i :: 0 <= i < |values| ==> IsInt64(values[i])
  {
    seq(|values|, i requires 0 <= i < |values| => CellOf(values[i]))
  }

  function Image(page: Page): B.Node
    requires Storable(page)
  {
    B.Node(CellOf(page.left), CellOf(page.right), CellOf(page.overflow), Names(page.keys), Stored(page.values))
  }

  lemma ImageOfInsert(page: Page, i: nat, key: Key, value: int)
    requires Storable(page) && i <= |page.keys| && IsInt64(value)
    ensures Storable(InsertPair(page, i, key, value))
    ensures Image(InsertPair(page, i, key, value)) == N.WithPair(Image(page), i, key.bytes, CellOf(value))
  {
  }

  lemma ImageOfRemove(page: Page, i: nat)
    requires Storable(page) && |page.keys| > 0 && i <= |page.keys| && (i == |page.keys| ==> page.overflow != NULL)
    ensures Storable(RemoveSlot(page, i))
    ensures Image(page).overflow == B.NULL_CELL <==> page.overflow == NULL
    ensures Image(RemoveSlot(page, i)) == N.WithoutPair(Image(page), i)
  {
    NullCell();
    CellsDiffer(page.overflow, NULL);
  }

  /** The halves of the tree's split are the halves that the bytes show. */
  lemma ImageOfSplit(page: Page, i: nat, key: Key, value: int, x: int, other: int)
    requires Storable(page) && i <= |page.keys| && IsInt64(value) && IsInt64(x) && IsInt64(other)
    requires 0 < P.Out(Image(page), i, key.bytes) <= |page.keys|
    ensures var full, out := InsertPair(page, i, key, value), P.Out(Image(page), i, key.bytes);
            && Storable(LeftHalf(full, out, x)) && Storable(RightHalf(full, out, other))
            && Image(LeftHalf(full, out, x)) == P.LeftNode(Image(page), i, key.bytes, CellOf(value), CellOf(x))
            && Image(RightHalf(full, out, other)) == P.RightNode(Image(page), i, key.bytes, CellOf(value), CellOf(other))
            && Separator(full, out).bytes == P.UpKey(Image(page), i, key.bytes)
  {
    hide CellOf, Little, InsertPair;
    NullCell();
    CellsDiffer(page.overflow, NULL);
    ImageOfInsert(page, i, key, value);
    var full, out := InsertPair(page, i, key, value), P.Out(Image(page), i, key.bytes);
    assert Image(full).keys == B.WithNew(Image(page).keys, i, key.bytes);
    assert Image(full).values == B.WithNew(Image(page).values, i, CellOf(value));
    var skip := P.Kept(Image(page), i, key.bytes);
    NamesCut(full.keys, out);
    NamesCut(full.keys, skip);
    StoredCut(full.values, out);
    StoredCut(full.values, skip);
    assert Separator(full, out).bytes == Names(full.keys)[skip - 1];
  }

  lemma NamesCut(keys: seq<Key>, n: nat)
    requires n <= |keys|
    ensures Names(keys[..n]) == Names(keys)[..n] && Names(keys[n..]) == Names(keys)[n..]
  {
  }

  lemma StoredCut(values: seq<int>, n: nat)
    requires n <= |values| && forall i :: 0 <= i < |values| ==> IsInt64(values[i])
    ensures Stored(values[..n]) == Stored(values)[..n] && Stored(values[n..]) == Stored(values)[n..]
  {
    hide CellOf, IsInt64;
  }

  /** And both count the left half alike. */
  lemma ImageCounts(page: Page)
    requires Storable(page)
    ensures S.Lens(Image(page).keys) == Lens(page.keys)
  {
  }
}
