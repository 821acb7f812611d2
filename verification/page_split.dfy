/** _SplitNode as a whole (BPlusTree.cpp): what the two pages and the separator must be, and that
    the byte moves produce them. */
module PageSplit {
  import opened NodeLayout
  import opened NodeBytes
  import opened NodePage
  import opened NodeSplit

  // ---- What a split should do ----

  predicate IsLeaf(node: Node) {
    node.overflow == NULL_CELL
  }

  /** A page within bounds with no room for the new pair. */
  predicate Full(node: Node, at: nat, key: seq<Byte>) {
    Fits(node) && Splits(Lens(node.keys), at, |key|)
  }

  /** ... whose left half fits and is not everything. */
  predicate Halved(node: Node, at: nat, key: seq<Byte>) {
    Full(node, at, key) && LeftSafe(Lens(node.keys), at, |key|)
  }

  function Out(node: Node, at: nat, key: seq<Byte>): nat {
    LeftCount(Lens(node.keys), at, |key|)
  }

  /** An index page passes one entry up; it belongs to neither half. */
  function Kept(node: Node, at: nat, key: seq<Byte>): nat {
    Out(node, at, key) + if IsLeaf(node) then 0 else 1
  }

  function LeftNode(node: Node, at: nat, key: seq<Byte>, value: Cell, nodeLink: Cell): Node
    requires at <= |node.keys| == |node.values| && Out(node, at, key) <= |node.keys|
  {
    var values, out := WithNew(node.values, at, value), Out(node, at, key);
    Node(node.left, nodeLink, if IsLeaf(node) then NULL_CELL else values[out], WithNew(node.keys, at, key)[..out], values[..out])
  }

  function RightNode(node: Node, at: nat, key: seq<Byte>, value: Cell, otherLink: Cell): Node
    requires at <= |node.keys| == |node.values| && Out(node, at, key) <= |node.keys|
  {
    var kept := Kept(node, at, key);
    Node(otherLink, node.right, node.overflow, WithNew(node.keys, at, key)[kept..], WithNew(node.values, at, value)[kept..])
  }

  /** The key for the parent: the last one of the left leaf, or the one an index page drops. */
  function UpKey(node: Node, at: nat, key: seq<Byte>): seq<Byte>
    requires at <= |node.keys| && Out(node, at, key) <= |node.keys|
  {
    WithNew(node.keys, at, key)[Kept(node, at, key) - 1]
  }

  /** A split loses nothing and invents nothing: read in order, the two pages and what goes up hold the
      old entries and the new one. */
  lemma SplitLosesNothing(node: Node, at: nat, key: seq<Byte>, value: Cell, otherLink: Cell, nodeLink: Cell)
    requires Halved(node, at, key)
    ensures Out(node, at, key) <= |node.keys|
    ensures var left, right := LeftNode(node, at, key, value, nodeLink), RightNode(node, at, key, value, otherLink);
            && Fits(left) && Fits(right) && |left.keys| > 0
            && Used(|left.keys|, |Flat(left.keys)|) <= NODE_SIZE && Used(|right.keys|, |Flat(right.keys)|) <= NODE_SIZE
            && (IsLeaf(node) ==> left.keys + right.keys == WithNew(node.keys, at, key)
                                 && left.values + right.values == WithNew(node.values, at, value)
                                 && UpKey(node, at, key) == left.keys[|left.keys| - 1] && |right.keys| > 0)
            && (!IsLeaf(node) ==> left.keys + [UpKey(node, at, key)] + right.keys == WithNew(node.keys, at, key)
                                  && left.values + [left.overflow] + right.values == WithNew(node.values, at, value))
  {
    hide Flat, RoundUp, Cum, Splits, LeftCount;
    SplitFits(node, at, key);
    HalvesFit(node, at, key, value, otherLink, nodeLink);
  }

  lemma SplitFits(node: Node, at: nat, key: seq<Byte>)
    requires Halved(node, at, key)
    ensures at <= |node.keys| == |node.values| && 2 <= Out(node, at, key) <= |node.keys|
    ensures MIN_KEY_LENGTH <= |key| <= MAX_KEY_LENGTH
    ensures Used(|node.keys|, |Flat(node.keys)|) <= NODE_SIZE
  {
    hide Flat, Cum;
    LeftHalfFits(Lens(node.keys), at, |key|);
    assert CheckedSize(Lens(node.keys), at, |key|, 1) < HALF_NODE;
    LensPrefix(node.keys, |node.keys|);
    CumAll(node.keys, |node.keys|);
  }

  lemma LensOfNew(keys: seq<seq<Byte>>, at: nat, key: seq<Byte>)
    requires at <= |keys|
    ensures Lens(WithNew(keys, at, key)) == Inserted(Lens(keys), at, |key|)
  {
  }

  lemma SizeOfLens(keys: seq<seq<Byte>>)
    ensures Prefix(Lens(keys), |keys|) == |Flat(keys)|
  {
    hide Flat;
    LensPrefix(keys, |keys|);
    CumAll(keys, |keys|);
  }

  lemma HalvesFit(node: Node, at: nat, key: seq<Byte>, value: Cell, otherLink: Cell, nodeLink: Cell)
    requires Halved(node, at, key)
    requires at <= |node.keys| == |node.values| && 2 <= Out(node, at, key) <= |node.keys|
    ensures var left, right := LeftNode(node, at, key, value, nodeLink), RightNode(node, at, key, value, otherLink);
            && Fits(left) && Fits(right)
            && Used(|left.keys|, |Flat(left.keys)|) <= NODE_SIZE && Used(|right.keys|, |Flat(right.keys)|) <= NODE_SIZE
  {
    hide Flat, RoundUp, Cum, LeftCount, Prefix, LeftSafe, RightSafe, StaleAt, Splits, Used, WithNew;
    var all, lens, out, kept := WithNew(node.keys, at, key), Lens(node.keys), Out(node, at, key), Kept(node, at, key);
    LensOfNew(node.keys, at, key);
    LeftListFits(lens, at, |key|);
    RightListFits(lens, at, |key|, kept);
    assert Lens(all[..out]) == Lens(all)[..out] && Lens(all[kept..]) == Lens(all)[kept..];
    SizeOfLens(all[..out]);
    SizeOfLens(all[kept..]);
    NewKeysFit(node, at, key);
    NewValues(node.values, at, value);
    SmallFits(LeftNode(node, at, key, value, nodeLink));
    SmallFits(RightNode(node, at, key, value, otherLink));
  }

  lemma NewKeysFit(node: Node, at: nat, key: seq<Byte>)
    requires Full(node, at, key)
    ensures |WithNew(node.keys, at, key)| == |node.keys| + 1
    ensures forall k :: k in WithNew(node.keys, at, key) ==> MIN_KEY_LENGTH <= |k| <= MAX_KEY_LENGTH
  {
  }

  lemma NewValues(values: seq<Cell>, at: nat, value: Cell)
    requires at <= |values|
    ensures |WithNew(values, at, value)| == |values| + 1
  {
  }

  lemma SmallFits(node: Node)
    requires |node.keys| == |node.values| && (forall k :: k in node.keys ==> MIN_KEY_LENGTH <= |k| <= MAX_KEY_LENGTH)
    requires Used(|node.keys|, |Flat(node.keys)|) <= NODE_SIZE
    ensures Fits(node)
  {
  }

  // ---- How the source counts ----

  /** Old entries that leave the page (with the new one or without). */
  function Taken(at: nat, out: nat): nat
    requires out >= 1
  {
    if at < out then out - 1 else out
  }

  function Skip(at: nat, out: nat, leaf: bool): nat
    requires out >= 1
  {
    Taken(at, out) + if leaf || at == out then 0 else 1
  }

  /** The index of the new key once the left page is done; in front of `Skip` when it has been used. */
  function AtRight(at: nat, out: nat, leaf: bool): int {
    if at < out || (!leaf && at == out) then at - 1 else at
  }

  lemma LeftIsFront<T>(s: seq<T>, at: nat, out: nat, x: T)
    requires at <= |s| && 1 <= out <= |s|
    ensures LeftOf(s, at, Taken(at, out), out, x) == WithNew(s, at, x)[..out]
  {
    if at < out {
      assert s[0..at] == s[..at];
    }
  }

  lemma RightIsTail<T>(s: seq<T>, at: nat, out: nat, leaf: bool, x: T)
    requires at <= |s| && 1 <= out <= |s|
    ensures Skip(at, out, leaf) <= |s|
    ensures RightOf(s, AtRight(at, out, leaf), Skip(at, out, leaf), x)
         == WithNew(s, at, x)[out + if leaf then 0 else 1..]
  {
    hide WithNew, RightOf;
    var skip, q, kept := Skip(at, out, leaf), AtRight(at, out, leaf), out + if leaf then 0 else 1;
    if skip <= q {
      TailFromBefore(s, at, x, kept);
    } else {
      TailFromBehind(s, at, x, kept, q);
    }
  }

  lemma TailFromBefore<T>(s: seq<T>, at: nat, x: T, k: nat)
    requires k <= at <= |s|
    ensures |WithNew(s, at, x)| == |s| + 1 && RightOf(s, at, k, x) == WithNew(s, at, x)[k..]
  {
    assert s[at..|s|] == s[at..];
    assert WithNew(s, at, x)[k..] == s[k..at] + [x] + s[at..];
  }

  lemma TailFromBehind<T>(s: seq<T>, at: nat, x: T, k: nat, q: int)
    requires at < k <= |s| + 1 && at <= |s| && q < k - 1 && q <= |s|
    ensures |WithNew(s, at, x)| == |s| + 1 && RightOf(s, q, k - 1, x) == WithNew(s, at, x)[k..]
  {
    assert Half(s, k - 1, |s|, |s|, []) == s[k - 1..];
    assert WithNew(s, at, x)[k..] == s[k - 1..];
  }

  /** The dropped entry of an index page. */
  lemma DroppedIs<T>(s: seq<T>, at: nat, out: nat, x: T)
    requires at <= |s| && 1 <= out <= |s|
    ensures WithNew(s, at, x)[out] == if at == out then x else s[Taken(at, out)]
  {
  }

  // ---- The right page in place ----

  /** Before closing up: the lengths that stay are right, and nothing has moved. */
  predicate Loose(b: seq<Byte>, node: Node, q: int, skip: nat, key: seq<Byte>)
    requires skip <= |node.keys| == |node.values| && q <= |node.keys|
    requires |Flat(node.keys)| < 0x1_0000 && |Flat(RightOf(node.keys, q, skip, key))| < 0x1_0000
  {
    var n, right, mid := |node.keys|, RightOf(node.keys, q, skip, key), if skip <= q then q else |node.keys|;
    var table, cells := TableAt(|Flat(node.keys)|), ValuesAt(n, |Flat(node.keys)|);
    && At(b, HEADER_SIZE + Cum(node.keys, skip), Bytes(node.keys, skip, mid))
    && At(b, HEADER_SIZE + Cum(node.keys, mid), Bytes(node.keys, mid, n))
    && Entries(b, table + 2 * skip, right, 0, mid - skip)
    && (skip <= q ==> Entries(b, table + 2 * skip - 2, right, q - skip + 1, |right|))
    && At(b, cells + 8 * skip, Words(node.values, skip, mid))
    && At(b, cells + 8 * mid, Words(node.values, mid, n))
  }

  /** The geometry of closing up: everything stays inside the buffer. */
  ghost predicate Bounded(node: Node, q: int, skip: nat, key: seq<Byte>)
    requires skip <= |node.keys| == |node.values| && q <= |node.keys|
  {
    var n, right := |node.keys|, RightOf(node.keys, q, skip, key);
    && 1 <= skip && MIN_KEY_LENGTH <= |key| <= MAX_KEY_LENGTH
    && Fits(node) && Used(n, |Flat(node.keys)|) <= NODE_SIZE && Used(|right|, |Flat(right)|) <= NODE_SIZE
    && TableAt(|Flat(right)|) <= TableAt(|Flat(node.keys)|) + 10 * skip - 10
    && (skip <= q < n ==> Cum(node.keys, skip) <= Cum(node.keys, q))
  }

  /** No move overwrites what is still to be moved. */
  predicate Clear(node: Node, q: int, skip: nat, key: seq<Byte>)
    requires skip <= |node.keys| && q <= |node.keys|
  {
    var n, right := |node.keys|, RightOf(node.keys, q, skip, key);
    var table, outTable := TableAt(|Flat(node.keys)|), TableAt(|Flat(right)|);
    skip <= q < n ==>
      && (HEADER_SIZE + |Flat(right)| <= table + 2 * skip
          || table + 2 * n <= HEADER_SIZE + Cum(node.keys, q) - Cum(node.keys, skip) + |key|)
      && (q == skip || outTable <= table + 2 * skip || table + 2 * n <= outTable)
  }

  ghost predicate Roomy(node: Node, q: int, skip: nat, key: seq<Byte>)
    requires skip <= |node.keys| == |node.values| && q <= |node.keys|
  {
    Bounded(node, q, skip, key) && Clear(node, q, skip, key)
  }

  lemma SplitIsBounded(node: Node, at: nat, key: seq<Byte>)
    requires Halved(node, at, key) && at <= |node.keys| == |node.values| && 2 <= Out(node, at, key) <= |node.keys|
    ensures Skip(at, Out(node, at, key), IsLeaf(node)) <= |node.keys|
    ensures Bounded(node, AtRight(at, Out(node, at, key), IsLeaf(node)), Skip(at, Out(node, at, key), IsLeaf(node)), key)
  {
    hide Flat, RoundUp, Cum, LeftCount, Prefix, LeftSafe, StaleAt, Splits, WithNew, RightOf;
    var n, out, leaf := |node.keys|, Out(node, at, key), IsLeaf(node);
    var skip, q := Skip(at, out, leaf), AtRight(at, out, leaf);
    SplitFits(node, at, key);
    HalvesFit(node, at, key, NULL_CELL, NULL_CELL, NULL_CELL);
    RightIsTail(node.keys, at, out, leaf, key);
    CumOfRight(node.keys, q, skip, key, 0);
    TableStays(node, at, key);
    if skip <= q < n {
      BytesSize(node.keys, skip, q);
    }
  }

  /** The new table of lengths starts well before the values that stay. */
  lemma TableStays(node: Node, at: nat, key: seq<Byte>)
    requires Halved(node, at, key) && at <= |node.keys| && 2 <= Out(node, at, key) <= |node.keys|
    ensures var skip, q := Skip(at, Out(node, at, key), IsLeaf(node)), AtRight(at, Out(node, at, key), IsLeaf(node));
            && 1 <= skip <= |node.keys| && Cum(node.keys, skip) <= |Flat(node.keys)|
            && TableAt(|Flat(node.keys)| - Cum(node.keys, skip) + (if skip <= q then |key| else 0))
               <= TableAt(|Flat(node.keys)|) + 10 * skip - 10
  {
    hide Flat, RoundUp, Cum, LeftCount, Prefix, LeftSafe, StaleAt, RightSafe;
    var out, leaf := Out(node, at, key), IsLeaf(node);
    var skip, q := Skip(at, out, leaf), AtRight(at, out, leaf);
    CumAll(node.keys, skip);
    if skip <= q {
      LensPrefix(node.keys, out - 1);
      LastCheck(Lens(node.keys), at, |key|);
      BytesSize(node.keys, out - 1, skip);
      Rises(|Flat(node.keys)|, |key|, out, Cum(node.keys, out - 1), skip, Cum(node.keys, skip));
    } else {
      Falls(|Flat(node.keys)|, skip, Cum(node.keys, skip));
    }
  }

  /** The guard of the layout, in terms of the page. */
  lemma ClearIsSafe(node: Node, at: nat, key: seq<Byte>)
    requires Halved(node, at, key) && at <= |node.keys| && 2 <= Out(node, at, key) <= |node.keys|
    requires Skip(at, Out(node, at, key), IsLeaf(node)) <= |node.keys|
    ensures Clear(node, AtRight(at, Out(node, at, key), IsLeaf(node)), Skip(at, Out(node, at, key), IsLeaf(node)), key)
            <==> RightSafe(Lens(node.keys), at, |key|, IsLeaf(node))
  {
    hide Flat, RoundUp, Cum, LeftCount, Prefix, LeftSafe, StaleAt, Splits, RightOf;
    var out, leaf := Out(node, at, key), IsLeaf(node);
    var skip, q := Skip(at, out, leaf), AtRight(at, out, leaf);
    SizeOfLens(node.keys);
    if skip <= q {
      LensPrefix(node.keys, skip);
      LensPrefix(node.keys, at);
      BytesSize(node.keys, skip, at);
      CumOfRight(node.keys, q, skip, key, 0);
    }
  }

  lemma LastCheck(lens: seq<nat>, at: nat, length: nat)
    requires LeftCount(lens, at, length) <= |lens|
    ensures CheckedSize(lens, at, length, LeftCount(lens, at, length)) >= HALF_NODE
  {
  }

  lemma Rises(total: nat, length: nat, out: nat, beforeOut: nat, skip: nat, upTo: nat)
    requires length <= MAX_KEY_LENGTH && 1 <= out <= skip && beforeOut <= upTo <= total
    requires Used(out, beforeOut) >= HALF_NODE
    ensures RoundUp(HEADER_SIZE + (total - upTo + length)) <= RoundUp(HEADER_SIZE + total) + 10 * skip - 10
  {
  }

  lemma Falls(total: nat, skip: nat, upTo: nat)
    requires upTo <= total && skip >= 1
    ensures RoundUp(HEADER_SIZE + (total - upTo)) <= RoundUp(HEADER_SIZE + total) + 10 * skip - 10
  {
  }

  /** The keys have their places; the lengths and values that stay have not moved yet. */
  predicate KeysPacked(b: seq<Byte>, node: Node, q: int, skip: nat, key: seq<Byte>, head: seq<Byte>)
    requires skip <= |node.keys| == |node.values| && q <= |node.keys|
    requires |Flat(RightOf(node.keys, q, skip, key))| < 0x1_0000
  {
    var n, right, mid := |node.keys|, RightOf(node.keys, q, skip, key), if skip <= q then q else |node.keys|;
    var table, cells := TableAt(|Flat(node.keys)|), ValuesAt(n, |Flat(node.keys)|);
    && At(b, 0, head) && At(b, HEADER_SIZE, Bytes(node.keys, skip, mid))
    && At(b, HEADER_SIZE + |Bytes(node.keys, skip, mid)| + (if skip <= q then |key| else 0), Bytes(node.keys, mid, n))
    && Entries(b, table + 2 * skip, right, 0, mid - skip)
    && (skip <= q ==> Entries(b, table + 2 * skip - 2, right, q - skip + 1, |right|))
    && At(b, cells + 8 * skip, Words(node.values, skip, mid))
    && At(b, cells + 8 * mid, Words(node.values, mid, n))
  }

  /** Everything has its place but the new entry. */
  predicate AllPacked(b: seq<Byte>, node: Node, q: int, skip: nat, key: seq<Byte>, head: seq<Byte>)
    requires skip <= |node.keys| == |node.values| && q <= |node.keys|
    requires |Flat(RightOf(node.keys, q, skip, key))| < 0x1_0000
  {
    var n, right, mid := |node.keys|, RightOf(node.keys, q, skip, key), if skip <= q then q else |node.keys|;
    var m, table, cells := mid - skip, TableAt(|Flat(right)|), ValuesAt(|right|, |Flat(right)|);
    && At(b, 0, head) && At(b, HEADER_SIZE, Bytes(node.keys, skip, mid))
    && At(b, HEADER_SIZE + |Bytes(node.keys, skip, mid)| + (if skip <= q then |key| else 0), Bytes(node.keys, mid, n))
    && Entries(b, table, right, 0, m) && At(b, cells, Words(node.values, skip, mid))
    && (mid < n ==> Entries(b, table, right, m + 1, |right|) && At(b, cells + 8 * (m + 1), Words(node.values, mid, n)))
  }

  lemma KeysArePacked(b: seq<Byte>, b': seq<Byte>, node: Node, q: int, skip: nat, key: seq<Byte>, head: seq<Byte>)
    requires skip <= |node.keys| == |node.values| && q <= |node.keys| && Roomy(node, q, skip, key)
    requires |Flat(node.keys)| < 0x1_0000 && |Flat(RightOf(node.keys, q, skip, key))| < 0x1_0000
    requires Loose(b, node, q, skip, key) && At(b, 0, head) && |head| == HEADER_SIZE
    requires var n, mid := |node.keys|, if skip <= q then q else |node.keys|;
             var front, tail, bytes := Bytes(node.keys, skip, mid), Bytes(node.keys, mid, n), if skip <= q then |key| else 0;
             && PackFrame(b, b', HEADER_SIZE, HEADER_SIZE + |front| + bytes + |tail|,
                          TableAt(|Flat(node.keys)|) + 2 * skip, ValuesAt(n, |Flat(node.keys)|))
             && At(b', HEADER_SIZE, front) && At(b', HEADER_SIZE + |front| + bytes, tail)
    ensures KeysPacked(b', node, q, skip, key, head)
  {
    hide Flat, RoundUp, Cum, At, Bytes, Words, Entries, RightOf, Fits, PackFrame, Loose, Bounded, Clear, TableAt, ValuesAt;
    PackPlaces(node, q, skip, key);
    LooseGives(b, node, q, skip, key);
    var n, right, mid := |node.keys|, RightOf(node.keys, q, skip, key), if skip <= q then q else |node.keys|;
    var front, tail, bytes := Bytes(node.keys, skip, mid), Bytes(node.keys, mid, n), if skip <= q then |key| else 0;
    var end, cells := HEADER_SIZE + |front| + bytes + |tail|, ValuesAt(n, |Flat(node.keys)|);
    var from := TableAt(|Flat(node.keys)|) + 2 * skip;
    FrameKeeps(b, b', HEADER_SIZE, end, from, cells, 0, head);
    FrameKeepsEntries(b, b', HEADER_SIZE, end, from, cells, from, right, 0, mid - skip);
    if skip <= q {
      FrameKeepsEntries(b, b', HEADER_SIZE, end, from, cells, from - 2, right, q - skip + 1, |right|);
    }
    FrameKeeps(b, b', HEADER_SIZE, end, from, cells, cells + 8 * skip, Words(node.values, skip, mid));
    FrameKeeps(b, b', HEADER_SIZE, end, from, cells, cells + 8 * mid, Words(node.values, mid, n));
  }

  /** The numbers that the source has worked out before it moves anything. */
  datatype Plan = Plan(table: nat, cells: nat, outTable: nat, outCells: nat, total: nat, out: nat, bytes: nat, before: nat, after: nat)

  function PlanOf(node: Node, q: int, skip: nat, key: seq<Byte>): Plan
    requires skip <= |node.keys| == |node.values| && q <= |node.keys|
  {
    var n, right, mid := |node.keys|, RightOf(node.keys, q, skip, key), if skip <= q then q else |node.keys|;
    var sum, newSum := |Flat(node.keys)|, |Flat(right)|;
    Plan(TableAt(sum), ValuesAt(n, sum), TableAt(newSum), ValuesAt(|right|, newSum), Cum(node.keys, skip), |right| + 1,
         if skip <= q then |key| else 0, |Bytes(node.keys, skip, mid)|, |Bytes(node.keys, mid, n)|)
  }

  /** How many entries the first move of a table takes. */
  function FirstMove(p: Plan, q: int, skip: nat): nat {
    if q <= skip then p.out else q - skip
  }

  /** All moves stay inside a buffer of this size. */
  predicate Inside(p: Plan, q: int, skip: nat, size: nat) {
    var moved, r, rest := FirstMove(p, q, skip), q - skip, p.out - (q - skip) - 1;
    && HEADER_SIZE + p.total + p.before + p.after <= size && HEADER_SIZE + p.before + p.bytes + p.after <= size
    && rest >= 0
    && (p.before > 0 ==>
        && p.table + 2 * (skip + moved) <= size && p.outTable + 2 * moved <= size
        && p.cells + 8 * (skip + moved) <= size && p.outCells + 8 * moved <= size)
    && (p.after > 0 ==>
        && r >= 0 && p.table + 2 * (skip + r + rest) <= size && p.outTable + 2 * (r + 1 + rest) <= size
        && p.cells + 8 * (skip + r + rest) <= size && p.outCells + 8 * (r + 1 + rest) <= size)
    && (p.bytes > 0 ==> r >= 0 && p.outTable + 2 * r + 2 <= size && p.outCells + 8 * r + 8 <= size && p.bytes + p.before < 0x1_0000)
  }

  lemma MovesFit(node: Node, q: int, skip: nat, key: seq<Byte>)
    requires skip <= |node.keys| == |node.values| && q <= |node.keys| && Bounded(node, q, skip, key)
    ensures |Flat(node.keys)| < 0x1_0000 && |Flat(RightOf(node.keys, q, skip, key))| < 0x1_0000
    ensures var p := PlanOf(node, q, skip, key);
            && Inside(p, q, skip, BUFFER_SIZE) && (p.bytes > 0 ==> p.bytes == |key| && skip <= q)
            && p.out - 1 < 0x1_0000 && p.bytes + p.before + p.after == |Flat(RightOf(node.keys, q, skip, key))|
  {
    hide Flat, RoundUp, Cum, Bytes, RightOf, Fits, Bounded, TableAt, ValuesAt;
    PackPlaces(node, q, skip, key);
  }

  /** The keys, then the table of lengths, then the values. */
  function BodyMoved(b: seq<Byte>, p: Plan, q: int, skip: nat): (r: seq<Byte>)
    requires Inside(p, q, skip, |b|)
    ensures |r| == |b|
  {
    var moved, r, rest := FirstMove(p, q, skip), q - skip, p.out - (q - skip) - 1;
    var b1 := KeysMoved(b, HEADER_SIZE, p.total, p.bytes, p.before, p.after);
    var b2 := TableMoved(b1, 2, p.table, p.outTable, skip, moved, r, rest, p.before, p.after);
    TableMoved(b2, 8, p.cells, p.outCells, skip, moved, r, rest, p.before, p.after)
  }

  method MoveBody(a: array<Byte>, p: Plan, q: int, skip: nat)
    requires Inside(p, q, skip, a.Length)
    modifies a
    ensures a[..] == BodyMoved(old(a[..]), p, q, skip)
  {
    hide KeysMoved, TableMoved;
    var moved, r, rest: nat := FirstMove(p, q, skip), q - skip, p.out - (q - skip) - 1;
    MoveKeys(a, HEADER_SIZE, p.total, p.bytes, p.before, p.after);
    MoveTable(a, 2, p.table, p.outTable, skip, moved, r, rest, p.before, p.after);
    MoveTable(a, 8, p.cells, p.outCells, skip, moved, r, rest, p.before, p.after);
  }

  /** With nothing in its way, everything behind the header gets to its place. */
  lemma BodyArrives(b: seq<Byte>, q: int, skip: nat, key: seq<Byte>, node: Node, head: seq<Byte>)
    requires skip <= |node.keys| == |node.values| && q <= |node.keys| && |b| == BUFFER_SIZE
    requires |Flat(node.keys)| < 0x1_0000 && |Flat(RightOf(node.keys, q, skip, key))| < 0x1_0000
    requires Roomy(node, q, skip, key) && Loose(b, node, q, skip, key) && At(b, 0, head) && |head| == HEADER_SIZE
    requires Inside(PlanOf(node, q, skip, key), q, skip, |b|)
    ensures AllPacked(BodyMoved(b, PlanOf(node, q, skip, key), q, skip), node, q, skip, key, head)
  {
    hide Flat, RoundUp, Cum, At, Bytes, Words, Entries, RightOf, Fits, PackFrame, Loose, Bounded, Clear, TableAt, ValuesAt;
    hide KeysPacked, AllPacked, KeysMoved, TableMoved;
    PackPlaces(node, q, skip, key);
    LooseGives(b, node, q, skip, key);
    var p, mid := PlanOf(node, q, skip, key), if skip <= q then q else |node.keys|;
    KeysArrive(b, HEADER_SIZE, p.total, p.bytes, p.before, p.after, p.table + 2 * skip, p.cells, Bytes(node.keys, skip, mid),
               Bytes(node.keys, mid, |node.keys|));
    var b1 := KeysMoved(b, HEADER_SIZE, p.total, p.bytes, p.before, p.after);
    KeysArePacked(b, b1, node, q, skip, key, head);
    TablesArrive(b1, q, skip, key, node, head);
  }

  /** The table of lengths and the values. */
  lemma TablesArrive(b1: seq<Byte>, q: int, skip: nat, key: seq<Byte>, node: Node, head: seq<Byte>)
    requires skip <= |node.keys| == |node.values| && q <= |node.keys| && |b1| == BUFFER_SIZE
    requires |Flat(RightOf(node.keys, q, skip, key))| < 0x1_0000 && Roomy(node, q, skip, key)
    requires KeysPacked(b1, node, q, skip, key, head) && |head| == HEADER_SIZE
    requires Inside(PlanOf(node, q, skip, key), q, skip, |b1|)
    ensures var p := PlanOf(node, q, skip, key);
            var moved, r, rest: nat := FirstMove(p, q, skip), q - skip, p.out - (q - skip) - 1;
            var b2 := TableMoved(b1, 2, p.table, p.outTable, skip, moved, r, rest, p.before, p.after);
            AllPacked(TableMoved(b2, 8, p.cells, p.outCells, skip, moved, r, rest, p.before, p.after), node, q, skip, key, head)
  {
    hide Flat, RoundUp, Cum, At, Bytes, Words, EntryAt, Entries, RightOf, Fits, SameOutside, Bounded, Clear, TableAt, ValuesAt, TableMoved;
    var n, right, mid := |node.keys|, RightOf(node.keys, q, skip, key), if skip <= q then q else |node.keys|;
    var p, m := PlanOf(node, q, skip, key), mid - skip;
    PackPlaces(node, q, skip, key);
    var moved, r, rest: nat := FirstMove(p, q, skip), q - skip, p.out - (q - skip) - 1;
    LengthsArrive(b1, p.table, p.outTable, skip, moved, r, rest, p.before, p.after, right, m);
    var b2 := TableMoved(b1, 2, p.table, p.outTable, skip, moved, r, rest, p.before, p.after);
    KeptByLengths(b1, b2, node, q, skip, key, head);
    ValuesArrive(b2, p.cells, p.outCells, skip, moved, r, rest, p.before, p.after, m, |right|, Words(node.values, skip, mid),
                 Words(node.values, mid, n));
    KeptByValues(b2, TableMoved(b2, 8, p.cells, p.outCells, skip, moved, r, rest, p.before, p.after), node, q, skip, key, head);
  }

  lemma LooseGives(b: seq<Byte>, node: Node, q: int, skip: nat, key: seq<Byte>)
    requires skip <= |node.keys| == |node.values| && q <= |node.keys|
    requires |Flat(node.keys)| < 0x1_0000 && |Flat(RightOf(node.keys, q, skip, key))| < 0x1_0000
    requires Loose(b, node, q, skip, key) && skip >= 1
    ensures var n, right, mid := |node.keys|, RightOf(node.keys, q, skip, key), if skip <= q then q else |node.keys|;
            var table, cells := TableAt(|Flat(node.keys)|), ValuesAt(n, |Flat(node.keys)|);
            && At(b, HEADER_SIZE + Cum(node.keys, skip), Bytes(node.keys, skip, mid))
            && At(b, HEADER_SIZE + Cum(node.keys, mid), Bytes(node.keys, mid, n))
            && Entries(b, table + 2 * skip, right, 0, mid - skip)
            && (skip <= q ==> Entries(b, table + 2 * skip - 2, right, q - skip + 1, |right|))
            && At(b, cells + 8 * skip, Words(node.values, skip, mid))
            && At(b, cells + 8 * mid, Words(node.values, mid, n))
  {
    hide Flat, RoundUp, Cum, At, Bytes, Words, RightOf, Entries, TableAt, ValuesAt;
  }

  /** The lengths land between the keys and the values. */
  lemma KeptByLengths(b: seq<Byte>, b': seq<Byte>, node: Node, q: int, skip: nat, key: seq<Byte>, head: seq<Byte>)
    requires skip <= |node.keys| == |node.values| && q <= |node.keys| && Roomy(node, q, skip, key) && |head| == HEADER_SIZE
    requires var n, right, mid := |node.keys|, RightOf(node.keys, q, skip, key), if skip <= q then q else |node.keys|;
             var cells, start := ValuesAt(n, |Flat(node.keys)|), TableAt(|Flat(right)|);
             var bytes := if skip <= q then |key| else 0;
             && SameOutside(b, b', start, start + 2 * |right| + 2) && At(b, 0, head)
             && At(b, HEADER_SIZE, Bytes(node.keys, skip, mid))
             && At(b, HEADER_SIZE + |Bytes(node.keys, skip, mid)| + bytes, Bytes(node.keys, mid, n))
             && At(b, cells + 8 * skip, Words(node.values, skip, mid)) && At(b, cells + 8 * mid, Words(node.values, mid, n))
    ensures var n, mid := |node.keys|, if skip <= q then q else |node.keys|;
            var cells, bytes := ValuesAt(n, |Flat(node.keys)|), if skip <= q then |key| else 0;
            && At(b', 0, head) && At(b', HEADER_SIZE, Bytes(node.keys, skip, mid))
            && At(b', HEADER_SIZE + |Bytes(node.keys, skip, mid)| + bytes, Bytes(node.keys, mid, n))
            && At(b', cells + 8 * skip, Words(node.values, skip, mid)) && At(b', cells + 8 * mid, Words(node.values, mid, n))
  {
    hide Flat, RoundUp, Cum, At, Bytes, Words, RightOf, Fits, SameOutside, Bounded, Clear, TableAt, ValuesAt;
    PackPlaces(node, q, skip, key);
    var n, right, mid := |node.keys|, RightOf(node.keys, q, skip, key), if skip <= q then q else |node.keys|;
    var cells, bytes := ValuesAt(n, |Flat(node.keys)|), if skip <= q then |key| else 0;
    var lo, hi := TableAt(|Flat(right)|), TableAt(|Flat(right)|) + 2 * |right| + 2;
    SameKeeps(b, b', lo, hi, 0, head);
    SameKeeps(b, b', lo, hi, HEADER_SIZE, Bytes(node.keys, skip, mid));
    SameKeeps(b, b', lo, hi, HEADER_SIZE + |Bytes(node.keys, skip, mid)| + bytes, Bytes(node.keys, mid, n));
    SameKeeps(b, b', lo, hi, cells + 8 * skip, Words(node.values, skip, mid));
    SameKeeps(b, b', lo, hi, cells + 8 * mid, Words(node.values, mid, n));
  }

  /** The values land behind the lengths. */
  lemma KeptByValues(b: seq<Byte>, b': seq<Byte>, node: Node, q: int, skip: nat, key: seq<Byte>, head: seq<Byte>)
    requires skip <= |node.keys| == |node.values| && q <= |node.keys| && Roomy(node, q, skip, key) && |head| == HEADER_SIZE
    requires |Flat(RightOf(node.keys, q, skip, key))| < 0x1_0000
    requires var n, right, mid := |node.keys|, RightOf(node.keys, q, skip, key), if skip <= q then q else |node.keys|;
             var table, start := TableAt(|Flat(right)|), ValuesAt(|right|, |Flat(right)|);
             var bytes := if skip <= q then |key| else 0;
             && SameOutside(b, b', start, start + 8 * |right| + 8) && At(b, 0, head)
             && At(b, HEADER_SIZE, Bytes(node.keys, skip, mid))
             && At(b, HEADER_SIZE + |Bytes(node.keys, skip, mid)| + bytes, Bytes(node.keys, mid, n))
             && Entries(b, table, right, 0, mid - skip)
             && (mid < n ==> Entries(b, table, right, mid - skip + 1, |right|))
    ensures var n, right, mid := |node.keys|, RightOf(node.keys, q, skip, key), if skip <= q then q else |node.keys|;
            var table, bytes := TableAt(|Flat(right)|), if skip <= q then |key| else 0;
            && At(b', 0, head) && At(b', HEADER_SIZE, Bytes(node.keys, skip, mid))
            && At(b', HEADER_SIZE + |Bytes(node.keys, skip, mid)| + bytes, Bytes(node.keys, mid, n))
            && Entries(b', table, right, 0, mid - skip)
            && (mid < n ==> Entries(b', table, right, mid - skip + 1, |right|))
  {
    hide Flat, RoundUp, Cum, At, Bytes, RightOf, Fits, SameOutside, Bounded, Clear, TableAt, Entries;
    PackPlaces(node, q, skip, key);
    var n, right, mid := |node.keys|, RightOf(node.keys, q, skip, key), if skip <= q then q else |node.keys|;
    var table, bytes := TableAt(|Flat(right)|), if skip <= q then |key| else 0;
    var lo, hi := ValuesAt(|right|, |Flat(right)|), ValuesAt(|right|, |Flat(right)|) + 8 * |right| + 8;
    SameKeeps(b, b', lo, hi, 0, head);
    SameKeeps(b, b', lo, hi, HEADER_SIZE, Bytes(node.keys, skip, mid));
    SameKeeps(b, b', lo, hi, HEADER_SIZE + |Bytes(node.keys, skip, mid)| + bytes, Bytes(node.keys, mid, n));
    SameEntriesKept(b, b', lo, hi, table, right, 0, mid - skip);
    if mid < n {
      SameEntriesKept(b, b', lo, hi, table, right, mid - skip + 1, |right|);
    }
  }

  lemma SameEntriesKept(b: seq<Byte>, b': seq<Byte>, lo: nat, hi: nat, off: nat, keys: seq<seq<Byte>>, from: nat, to: nat)
    requires |Flat(keys)| < 0x1_0000 && from <= to <= |keys| && Entries(b, off, keys, from, to)
    requires SameOutside(b, b', lo, hi) && off + 2 * to <= lo
    ensures Entries(b', off, keys, from, to)
  {
    hide Flat, Cum;
    forall i | from <= i < to ensures EntryAt(b', off, keys, i) {
      EntryKept(b, b', off, keys, i);
    }
  }

  lemma PackPlaces(node: Node, q: int, skip: nat, key: seq<Byte>)
    requires skip <= |node.keys| == |node.values| && q <= |node.keys| && Bounded(node, q, skip, key)
    ensures var n, right, mid := |node.keys|, RightOf(node.keys, q, skip, key), if skip <= q then q else |node.keys|;
            var before, after := |Bytes(node.keys, skip, mid)|, |Bytes(node.keys, mid, n)|;
            && MIN_KEY_LENGTH <= |key| <= MAX_KEY_LENGTH
            && before == Cum(node.keys, mid) - Cum(node.keys, skip) && after == |Flat(node.keys)| - Cum(node.keys, mid)
            && Cum(node.keys, skip) + before == Cum(node.keys, mid)
            && (before == 0 <==> mid == skip) && (after == 0 <==> mid == n)
            && HEADER_SIZE + |Flat(node.keys)| <= TableAt(|Flat(node.keys)|)
            && |Flat(right)| == before + after + (if skip <= q then |key| else 0)
            && HEADER_SIZE + |Flat(right)| <= TableAt(|Flat(right)|)
            && TableAt(|Flat(node.keys)|) + 10 * n <= NODE_SIZE && TableAt(|Flat(right)|) + 10 * |right| <= NODE_SIZE
            && ValuesAt(n, |Flat(node.keys)|) == TableAt(|Flat(node.keys)|) + 2 * n
            && ValuesAt(|right|, |Flat(right)|) == TableAt(|Flat(right)|) + 2 * |right|
            && 1 <= skip && TableAt(|Flat(right)|) <= TableAt(|Flat(node.keys)|) + 10 * skip - 10
            && |right| == n - skip + (if skip <= q then 1 else 0)
            && (Clear(node, q, skip, key) && skip <= q < n ==>
                && (HEADER_SIZE + |Flat(right)| <= TableAt(|Flat(node.keys)|) + 2 * skip
                    || TableAt(|Flat(node.keys)|) + 2 * n <= HEADER_SIZE + before + |key|)
                && (q == skip || TableAt(|Flat(right)|) <= TableAt(|Flat(node.keys)|) + 2 * skip
                    || TableAt(|Flat(node.keys)|) + 2 * n <= TableAt(|Flat(right)|)))
  {
    hide Flat, Cum, RightOf, RoundUp;
    var n, mid := |node.keys|, if skip <= q then q else |node.keys|;
    BytesSize(node.keys, skip, mid);
    BytesSize(node.keys, mid, n);
    CumAll(node.keys, n);
    CumOfRight(node.keys, q, skip, key, mid - skip);
    FlatFits(|Flat(node.keys)|);
    FlatFits(|Flat(RightOf(node.keys, q, skip, key))|);
    SomeBytes(node, skip, mid);
    SomeBytes(node, mid, n);
  }

  lemma FlatFits(bytes: nat)
    ensures HEADER_SIZE + bytes <= TableAt(bytes)
  {
  }

  lemma SomeBytes(node: Node, lo: nat, hi: nat)
    requires Fits(node) && lo <= hi <= |node.keys|
    ensures Cum(node.keys, hi) == Cum(node.keys, lo) <==> lo == hi
  {
    hide Flat, Cum;
    if lo < hi {
      CumStep(node.keys, lo);
      BytesSize(node.keys, lo + 1, hi);
    }
  }

  lemma PackedParts(b: seq<Byte>, node: Node, q: int, skip: nat, key: seq<Byte>, value: Cell, head: seq<Byte>)
    requires skip <= |node.keys| == |node.values| && q <= |node.keys| && Roomy(node, q, skip, key)
    requires |Flat(RightOf(node.keys, q, skip, key))| < 0x1_0000 && |b| == BUFFER_SIZE
    requires AllPacked(b, node, q, skip, key, head)
    ensures var right, values := RightOf(node.keys, q, skip, key), RightOf(node.values, q, skip, value);
            && |right| == |values| && At(b, 0, head)
            && (skip <= q ==> Part(b, right, values, 0, q - skip) && Part(b, right, values, q - skip + 1, |right|)
                              && right[q - skip] == key && values[q - skip] == value)
            && (q < skip ==> Part(b, right, values, 0, |right|))
  {
    hide Flat, RoundUp, Cum, At, Words, Entries, Fits, Bounded, Clear, TableAt, Part;
    var n, mid := |node.keys|, if skip <= q then q else |node.keys|;
    var right, values, m := RightOf(node.keys, q, skip, key), RightOf(node.values, q, skip, value), mid - skip;
    PackPlaces(node, q, skip, key);
    RightPieces(node.keys, q, skip, key);
    RightPieces(node.values, q, skip, value);
    assert Bytes(right, 0, m) == Bytes(node.keys, skip, mid);
    WordsOf(values, 0, m, node.values, skip, mid);
    CumOfNone(right);
    PartIs(b, right, values, 0, m);
    if skip <= q {
      assert Bytes(right, m + 1, |right|) == Bytes(node.keys, mid, n);
      WordsOf(values, m + 1, |right|, node.values, mid, n);
      CumOfRight(node.keys, q, skip, key, m);
      if mid < n {
        PartIs(b, right, values, m + 1, |right|);
      } else {
        RightUsed(right, node, skip);
        EmptyPart(b, right, values, |right|);
      }
    }
  }

  lemma RightUsed(right: seq<seq<Byte>>, node: Node, skip: nat)
    requires TableAt(|Flat(right)|) + 10 * |right| <= NODE_SIZE
    ensures Used(|right|, |Flat(right)|) <= NODE_SIZE
  {
    hide Flat;
  }

  lemma WordsOf(a: seq<Cell>, lo: nat, hi: nat, b: seq<Cell>, lo': nat, hi': nat)
    requires lo <= hi <= |a| && lo' <= hi' <= |b| && a[lo..hi] == b[lo'..hi']
    ensures Words(a, lo, hi) == Words(b, lo', hi')
  {
  }

  lemma RightPieces<T>(s: seq<T>, q: int, skip: nat, x: T)
    requires skip <= |s| && q <= |s|
    ensures var r, mid := RightOf(s, q, skip, x), if skip <= q then q else |s|;
            && r[0..mid - skip] == s[skip..mid]
            && (skip <= q ==> r[q - skip] == x && r[q - skip + 1..|r|] == s[q..|s|])
  {
  }

  /** The old page's new left link and counts. */
  function HeadSet(b: seq<Byte>, otherLink: Cell, count: nat, bytes: nat): (r: seq<Byte>)
    requires |b| >= HEADER_SIZE && count < 0x1_0000 && bytes < 0x1_0000
    ensures |r| == |b|
  {
    Written(Written(Written(b, 0, otherLink), LENGTH_AT, Two(bytes)), COUNT_AT, Two(count))
  }

  method SetRightHead(a: array<Byte>, otherLink: Cell, count: nat, bytes: nat)
    requires a.Length >= HEADER_SIZE && count < 0x1_0000 && bytes < 0x1_0000
    modifies a
    ensures a[..] == HeadSet(old(a[..]), otherLink, count, bytes)
  {
    hide At, Written, Two;
    Write(a, 0, otherLink);
    Write(a, LENGTH_AT, Two(bytes));
    Write(a, COUNT_AT, Two(count));
  }

  lemma HeadIsSet(b0: seq<Byte>, otherLink: Cell, count: nat, bytes: nat, node: Node)
    requires |b0| == BUFFER_SIZE && count < 0x1_0000 && bytes < 0x1_0000
    requires |node.keys| < 0x1_0000 && |Flat(node.keys)| < 0x1_0000
    requires At(b0, 0, Head(node, |node.keys|, |Flat(node.keys)|))
    ensures At(HeadSet(b0, otherLink, count, bytes), 0, Head(node.(left := otherLink), count, bytes))
    ensures SameOutside(b0, HeadSet(b0, otherLink, count, bytes), 0, HEADER_SIZE)
  {
    hide At, Written, Two, Flat, SameOutside;
    HeadParts(b0, node, |node.keys|, |Flat(node.keys)|);
    var b1 := Written(b0, 0, otherLink);
    var b2 := Written(b1, LENGTH_AT, Two(bytes));
    var b3 := Written(b2, COUNT_AT, Two(count));
    WriteKeeps(b0, 0, otherLink, 8, node.right);
    WriteKeeps(b0, 0, otherLink, 16, node.overflow);
    WriteKeeps(b1, LENGTH_AT, Two(bytes), 0, otherLink);
    WriteKeeps(b1, LENGTH_AT, Two(bytes), 8, node.right);
    WriteKeeps(b1, LENGTH_AT, Two(bytes), 16, node.overflow);
    WriteKeeps(b2, COUNT_AT, Two(count), 0, otherLink);
    WriteKeeps(b2, COUNT_AT, Two(count), 8, node.right);
    WriteKeeps(b2, COUNT_AT, Two(count), 16, node.overflow);
    WriteKeeps(b2, COUNT_AT, Two(count), LENGTH_AT, Two(bytes));
    HeadJoin(b3, node.(left := otherLink), count, bytes);
    WriteSame(b0, 0, otherLink, 0, HEADER_SIZE);
    WriteSame(b1, LENGTH_AT, Two(bytes), 0, HEADER_SIZE);
    WriteSame(b2, COUNT_AT, Two(count), 0, HEADER_SIZE);
    SameTrans(b0, b1, b2, 0, HEADER_SIZE);
    SameTrans(b0, b2, b3, 0, HEADER_SIZE);
  }

  lemma HeadParts(b: seq<Byte>, node: Node, count: nat, bytes: nat)
    requires count < 0x1_0000 && bytes < 0x1_0000 && At(b, 0, Head(node, count, bytes))
    ensures At(b, 0, node.left) && At(b, 8, node.right) && At(b, 16, node.overflow)
  {
    hide At, Two;
    AtJoin(b, 0, node.left + node.right + node.overflow, Two(count) + Two(bytes));
    AtJoin(b, 0, node.left + node.right, node.overflow);
    AtJoin(b, 0, node.left, node.right);
  }

  /** Lowering the lengths leaves everything else alone, and so does a new header. */
  lemma IsLoose(b: seq<Byte>, b1: seq<Byte>, b2: seq<Byte>, node: Node, q: int, skip: nat, key: seq<Byte>)
    requires Shows(b, node) && skip <= |node.keys| == |node.values| && q <= |node.keys| && Roomy(node, q, skip, key)
    requires |Flat(RightOf(node.keys, q, skip, key))| < 0x1_0000
    requires SameOutside(b, b1, TableAt(|Flat(node.keys)|) + 2 * skip, TableAt(|Flat(node.keys)|) + 2 * |node.keys|)
    requires SameOutside(b1, b2, 0, HEADER_SIZE)
    requires var right, table, mid := RightOf(node.keys, q, skip, key), TableAt(|Flat(node.keys)|), if skip <= q then q else |node.keys|;
             && Entries(b1, table + 2 * skip, right, 0, mid - skip)
             && (skip <= q ==> Entries(b1, table + 2 * skip - 2, right, q - skip + 1, |right|))
    ensures Loose(b2, node, q, skip, key)
  {
    hide Flat, RoundUp, Cum, At, Bytes, Words, Entries, RightOf, Fits, SameOutside, Shows, Bounded, Clear, TableAt;
    var n, mid, right := |node.keys|, if skip <= q then q else |node.keys|, RightOf(node.keys, q, skip, key);
    var table, cells := TableAt(|Flat(node.keys)|), ValuesAt(n, |Flat(node.keys)|);
    PackPlaces(node, q, skip, key);
    StretchOf(b, node, skip, mid);
    StretchOf(b, node, mid, n);
    var lo, hi := table + 2 * skip, table + 2 * n;
    AwayKept(b, b1, b2, lo, hi, HEADER_SIZE + Cum(node.keys, skip), Bytes(node.keys, skip, mid));
    AwayKept(b, b1, b2, lo, hi, HEADER_SIZE + Cum(node.keys, mid), Bytes(node.keys, mid, n));
    AwayKept(b, b1, b2, lo, hi, cells + 8 * skip, Words(node.values, skip, mid));
    AwayKept(b, b1, b2, lo, hi, cells + 8 * mid, Words(node.values, mid, n));
    HigherEntriesKept(b1, b2, HEADER_SIZE, table + 2 * skip, right, 0, mid - skip);
    if skip <= q {
      HigherEntriesKept(b1, b2, HEADER_SIZE, table + 2 * skip - 2, right, q - skip + 1, |right|);
    }
  }

  lemma AwayKept(b: seq<Byte>, b1: seq<Byte>, b2: seq<Byte>, lo: nat, hi: nat, off: nat, data: seq<Byte>)
    requires SameOutside(b, b1, lo, hi) && SameOutside(b1, b2, 0, HEADER_SIZE) && At(b, off, data)
    requires HEADER_SIZE <= off && (off + |data| <= lo || hi <= off)
    ensures At(b2, off, data)
  {
    hide At, SameOutside;
    SameKeeps(b, b1, lo, hi, off, data);
    SameKeeps(b1, b2, 0, HEADER_SIZE, off, data);
  }

  lemma HigherEntriesKept(b: seq<Byte>, b': seq<Byte>, hi: nat, off: nat, keys: seq<seq<Byte>>, from: nat, to: nat)
    requires |Flat(keys)| < 0x1_0000 && from <= to <= |keys| && Entries(b, off, keys, from, to)
    requires SameOutside(b, b', 0, hi) && hi <= off + 2 * from
    ensures Entries(b', off, keys, from, to)
  {
    hide Flat, Cum;
    forall i | from <= i < to ensures EntryAt(b', off, keys, i) {
      EntryKept(b, b', off, keys, i);
    }
  }

  // ---- The lengths that stay, lowered in place ----

  /** Entries `from` to `to` of the table of lengths. */
  function Stretch(keys: seq<seq<Byte>>, from: nat, to: nat): (t: seq<Byte>)
    requires from <= to <= |keys| && |Flat(keys)| < 0x1_0000
    ensures |t| == 2 * (to - from)
  {
    Table(keys, 0)[2 * from..2 * to]
  }

  lemma {:induction false} StretchEntries(b: seq<Byte>, off: nat, keys: seq<seq<Byte>>, from: nat, upTo: nat)
    requires from <= upTo <= |keys| && |Flat(keys)| < 0x1_0000 && off + 2 * upTo <= |b|
    ensures At(b, off + 2 * from, Stretch(keys, from, upTo)) <==> Entries(b, off, keys, from, upTo)
    decreases upTo
  {
    hide At, Two, Flat, EntryAt, Stretch;
    if upTo == from {
      EmptyStretch(b, off, keys, from);
    } else {
      StretchEntries(b, off, keys, from, upTo - 1);
      StretchStep(keys, from, upTo);
      AtJoin(b, off + 2 * from, Stretch(keys, from, upTo - 1), Two(Cum(keys, upTo)));
      EntryIs(b, off, keys, upTo - 1);
    }
  }

  lemma EmptyStretch(b: seq<Byte>, off: nat, keys: seq<seq<Byte>>, from: nat)
    requires from <= |keys| && |Flat(keys)| < 0x1_0000 && off + 2 * from <= |b|
    ensures At(b, off + 2 * from, Stretch(keys, from, from))
  {
  }

  lemma EntryIs(b: seq<Byte>, off: nat, keys: seq<seq<Byte>>, i: nat)
    requires i < |keys| && Cum(keys, i + 1) < 0x1_0000
    ensures EntryAt(b, off, keys, i) <==> At(b, off + 2 * i, Two(Cum(keys, i + 1)))
  {
  }

  lemma StretchStep(keys: seq<seq<Byte>>, from: nat, to: nat)
    requires from < to <= |keys| && |Flat(keys)| < 0x1_0000
    ensures Cum(keys, to) < 0x1_0000 && Stretch(keys, from, to) == Stretch(keys, from, to - 1) + Two(Cum(keys, to))
  {
    hide Flat, Two;
    var t := Table(keys, 0);
    CumAll(keys, to);
    TableEntries(t, 0, keys);
    assert EntryAt(t, 0, keys, to - 1);
    assert t[2 * (to - 1)..2 * to] == Two(Cum(keys, to));
    assert t[2 * from..2 * to] == t[2 * from..2 * (to - 1)] + t[2 * (to - 1)..2 * to];
  }

  /** The lengths of the right half in their old places, without the one of the new key. */
  function LoweredTable(node: Node, q: int, skip: nat, key: seq<Byte>): (t: seq<Byte>)
    requires skip <= |node.keys| && q <= |node.keys| && |Flat(RightOf(node.keys, q, skip, key))| < 0x1_0000
    ensures |t| == 2 * (|node.keys| - skip)
  {
    var right := RightOf(node.keys, q, skip, key);
    if skip <= q then Stretch(right, 0, q - skip) + Stretch(right, q - skip + 1, |right|) else Stretch(right, 0, |right|)
  }

  function Lowered(b: seq<Byte>, node: Node, q: int, skip: nat, key: seq<Byte>): (r: seq<Byte>)
    requires skip <= |node.keys| && q <= |node.keys| && |Flat(RightOf(node.keys, q, skip, key))| < 0x1_0000
    requires TableAt(|Flat(node.keys)|) + 2 * |node.keys| <= |b|
    ensures |r| == |b|
  {
    Written(b, TableAt(|Flat(node.keys)|) + 2 * skip, LoweredTable(node, q, skip, key))
  }

  lemma LoweredEntries(b: seq<Byte>, node: Node, q: int, skip: nat, key: seq<Byte>)
    requires skip <= |node.keys| && q <= |node.keys| && |Flat(RightOf(node.keys, q, skip, key))| < 0x1_0000
    requires TableAt(|Flat(node.keys)|) + 2 * |node.keys| <= |b| && TableAt(|Flat(node.keys)|) >= 2
    ensures var right, table := RightOf(node.keys, q, skip, key), TableAt(|Flat(node.keys)|);
            At(b, table + 2 * skip, LoweredTable(node, q, skip, key)) <==>
              Entries(b, table + 2 * skip, right, 0, if skip <= q then q - skip else |right|)
              && (skip <= q ==> Entries(b, table + 2 * skip - 2, right, q - skip + 1, |right|))
  {
    hide At, Flat, Stretch, Entries, RightOf, TableAt;
    var right, lo := RightOf(node.keys, q, skip, key), TableAt(|Flat(node.keys)|) + 2 * skip;
    if skip <= q {
      StretchEntries(b, lo, right, 0, q - skip);
      StretchEntries(b, lo - 2, right, q - skip + 1, |right|);
      AtJoin(b, lo, Stretch(right, 0, q - skip), Stretch(right, q - skip + 1, |right|));
    } else {
      StretchEntries(b, lo, right, 0, |right|);
    }
  }

  lemma OnlyWritten(b: seq<Byte>, b': seq<Byte>, dst: nat, data: seq<Byte>)
    requires dst + |data| <= |b| && SameOutside(b, b', dst, dst + |data|) && At(b', dst, data)
    ensures b' == Written(b, dst, data)
  {
    assert b'[dst..dst + |data|] == data && b'[..dst] == b[..dst] && b'[dst + |data|..] == b[dst + |data|..];
    RejoinThree(b', dst, dst + |data|);
  }

  // ---- All of it ----

  /** What the old page is after the split, whatever it was. */
  function RightBytes(b: seq<Byte>, otherLink: Cell, node: Node, q: int, skip: nat, key: seq<Byte>, value: Cell): (r: seq<Byte>)
    requires skip <= |node.keys| == |node.values| && q <= |node.keys| && RightFits(node, q, skip, key) && |b| == BUFFER_SIZE
    ensures |r| == |b|
  {
    var p := PlanOf(node, q, skip, key);
    var b1 := HeadSet(Lowered(b, node, q, skip, key), otherLink, p.out - 1, p.bytes + p.before + p.after);
    var b2 := BodyMoved(b1, p, q, skip);
    if p.bytes > 0 then NewPut(b2, q - skip, p.before, key, value, p.outTable, p.outCells) else b2
  }

  /** The sizes that RightBytes needs; see MovesFit. */
  predicate RightFits(node: Node, q: int, skip: nat, key: seq<Byte>)
    requires skip <= |node.keys| == |node.values| && q <= |node.keys|
  {
    && |Flat(node.keys)| < 0x1_0000 && |Flat(RightOf(node.keys, q, skip, key))| < 0x1_0000
    && TableAt(|Flat(node.keys)|) + 2 * |node.keys| <= BUFFER_SIZE
    && var p := PlanOf(node, q, skip, key);
    && Inside(p, q, skip, BUFFER_SIZE) && (p.bytes > 0 ==> p.bytes == |key| && skip <= q)
    && p.out - 1 < 0x1_0000 && p.bytes + p.before + p.after < 0x1_0000
  }

  lemma BoundedFits(node: Node, q: int, skip: nat, key: seq<Byte>)
    requires skip <= |node.keys| == |node.values| && q <= |node.keys| && Bounded(node, q, skip, key)
    ensures RightFits(node, q, skip, key)
  {
    hide Flat, RoundUp, Cum, Bytes, RightOf, Fits, Bounded, Inside, PlanOf;
    MovesFit(node, q, skip, key);
    PackPlaces(node, q, skip, key);
  }

  /** Takes what has left, and the new entry, out of or into the old page. */
  method PackRight(a: array<Byte>, otherLink: Cell, q: int, skip: nat, total: nat, key: seq<Byte>, value: Cell, ghost node: Node)
    requires Shows(a[..], node) && skip <= |node.keys| == |node.values| && q <= |node.keys|
    requires Bounded(node, q, skip, key) && total == Cum(node.keys, skip) && RightFits(node, q, skip, key)
    modifies a
    ensures a.Length == BUFFER_SIZE && a[..] == RightBytes(old(a[..]), otherLink, node, q, skip, key, value)
  {
    hide Flat, RoundUp, Cum, At, Bytes, Words, Entries, RightOf, Fits, SameOutside, Bounded, Clear, TableAt, ValuesAt, Head;
    hide Shows, Table, Lowered, HeadSet, BodyMoved, NewPut, LoweredTable, FirstMove;
    ghost var b0 := a[..];
    ShowsHead(b0, node);
    var count, sum := Counts(a, node);
    PackPlaces(node, q, skip, key);
    TableStart(sum);
    var table, cells := TableAt(sum), ValuesAt(count, sum);
    TableEntries(b0, table, node.keys);
    var out, bytes, before, after := LowerRest(a, table, count, total, sum, q, |key|, skip, node.keys, key);
    LoweredEntries(a[..], node, q, skip, key);
    LowerIsWritten(b0, a[..], node, q, skip, key);
    SetRightHead(a, otherLink, out - 1, bytes + before + after);
    var outTable, outCells := TableAt(bytes + before + after), ValuesAt(out - 1, bytes + before + after);
    MoveBody(a, Plan(table, cells, outTable, outCells, total, out, bytes, before, after), q, skip);
    if bytes > 0 {
      PutNew(a, q - skip, before, key, value, outTable, outCells);
    }
  }

  lemma LowerIsWritten(b: seq<Byte>, b': seq<Byte>, node: Node, q: int, skip: nat, key: seq<Byte>)
    requires skip <= |node.keys| && q <= |node.keys| && |Flat(RightOf(node.keys, q, skip, key))| < 0x1_0000
    requires TableAt(|Flat(node.keys)|) + 2 * |node.keys| <= |b| == |b'|
    requires SameOutside(b, b', TableAt(|Flat(node.keys)|) + 2 * skip, TableAt(|Flat(node.keys)|) + 2 * |node.keys|)
    requires At(b', TableAt(|Flat(node.keys)|) + 2 * skip, LoweredTable(node, q, skip, key))
    ensures b' == Lowered(b, node, q, skip, key)
  {
    hide At, Flat, SameOutside, LoweredTable, RightOf, TableAt;
    OnlyWritten(b, b', TableAt(|Flat(node.keys)|) + 2 * skip, LoweredTable(node, q, skip, key));
  }

  /** If nothing is overwritten before it has moved, the old page is the right half. */
  lemma RightArrives(b0: seq<Byte>, otherLink: Cell, node: Node, q: int, skip: nat, key: seq<Byte>, value: Cell)
    requires Shows(b0, node) && skip <= |node.keys| == |node.values| && q <= |node.keys| && |b0| == BUFFER_SIZE
    requires Roomy(node, q, skip, key) && RightFits(node, q, skip, key)
    requires Fits(Node(otherLink, node.right, node.overflow, RightOf(node.keys, q, skip, key), RightOf(node.values, q, skip, value)))
    ensures Shows(RightBytes(b0, otherLink, node, q, skip, key, value),
                  Node(otherLink, node.right, node.overflow, RightOf(node.keys, q, skip, key), RightOf(node.values, q, skip, value)))
  {
    hide Flat, RoundUp, Cum, At, Bytes, Words, Entries, RightOf, Fits, SameOutside, Loose, Bounded, Clear, TableAt, ValuesAt, Head;
    hide Shows, AllPacked, Part, Table, SameButPart, BodyMoved, NewPut, HeadSet, LoweredTable, FirstMove, Written;
    var right, values := RightOf(node.keys, q, skip, key), RightOf(node.values, q, skip, value);
    var done, p := Node(otherLink, node.right, node.overflow, right, values), PlanOf(node, q, skip, key);
    ShowsHead(b0, node);
    PackPlaces(node, q, skip, key);
    TableStart(|Flat(node.keys)|);
    var lo, hi := p.table + 2 * skip, p.table + 2 * |node.keys|;
    var b1 := Lowered(b0, node, q, skip, key);
    WriteSame(b0, lo, LoweredTable(node, q, skip, key), lo, hi);
    LoweredEntries(b1, node, q, skip, key);
    SameKeeps(b0, b1, lo, hi, 0, Head(node, |node.keys|, |Flat(node.keys)|));
    HeadIsSet(b1, otherLink, p.out - 1, p.bytes + p.before + p.after, node);
    var b2 := HeadSet(b1, otherLink, p.out - 1, p.bytes + p.before + p.after);
    IsLoose(b0, b1, b2, node, q, skip, key);
    var head := Head(node.(left := otherLink), p.out - 1, p.bytes + p.before + p.after);
    HeadOf(node.(left := otherLink), done, p.out - 1, p.bytes + p.before + p.after);
    BodyArrives(b2, q, skip, key, node, head);
    var b3 := BodyMoved(b2, p, q, skip);
    PackedParts(b3, node, q, skip, key, value, head);
    if p.bytes > 0 {
      NewEntryArrives(b3, done, q - skip, p.before, key, value, node, q, skip);
    } else {
      PartShows(b3, done);
    }
  }

  lemma NewEntryArrives(b3: seq<Byte>, done: Node, r: nat, before: nat, key: seq<Byte>, value: Cell, node: Node, q: int, skip: nat)
    requires skip <= q <= |node.keys| == |node.values| && r == q - skip && |b3| == BUFFER_SIZE && Bounded(node, q, skip, key)
    requires done.keys == RightOf(node.keys, q, skip, key) && done.values == RightOf(node.values, q, skip, value) && Fits(done)
    requires before == |Bytes(node.keys, skip, q)| && |Flat(done.keys)| < 0x1_0000
    requires done.keys[r] == key && done.values[r] == value
    requires At(b3, 0, Head(done, |done.keys|, |Flat(done.keys)|))
    requires Part(b3, done.keys, done.values, 0, r) && Part(b3, done.keys, done.values, r + 1, |done.keys|)
    requires HEADER_SIZE + before + |key| <= |b3| && TableAt(|Flat(done.keys)|) + 2 * r + 2 <= |b3|
    requires ValuesAt(|done.keys|, |Flat(done.keys)|) + 8 * r + 8 <= |b3| && |key| + before < 0x1_0000
    ensures var sum := |Flat(done.keys)|;
            Shows(NewPut(b3, r, before, key, value, TableAt(sum), ValuesAt(|done.keys|, sum)), done)
  {
    hide Flat, RoundUp, Cum, At, Bytes, Words, Entries, RightOf, SameOutside, Bounded, Clear, TableAt, ValuesAt, Head;
    hide Shows, Part, Table, SameButPart, NewPut;
    var right, values, sum := done.keys, done.values, |Flat(done.keys)|;
    PackPlaces(node, q, skip, key);
    CumOfRight(node.keys, q, skip, key, r);
    NewPutFits(r, before, TableAt(sum), ValuesAt(|right|, sum), right, BUFFER_SIZE);
    NewIsPut(b3, r, before, key, value, TableAt(sum), ValuesAt(|right|, sum), right, values);
    var b4 := NewPut(b3, r, before, key, value, TableAt(sum), ValuesAt(|right|, sum));
    PartKept(b3, b4, right, values, 0, r, r, r + 1);
    PartKept(b3, b4, right, values, r + 1, |right|, r, r + 1);
    HeadKept(b3, b4, done, |right|, sum, r, r + 1);
    PartJoin(b4, right, values, 0, r, r + 1);
    PartJoin(b4, right, values, 0, r + 1, |right|);
    PartShows(b4, done);
  }

  lemma TableStart(bytes: nat)
    ensures TableAt(bytes) >= HEADER_SIZE
  {
  }

  lemma HeadOf(node: Node, node': Node, count: nat, bytes: nat)
    requires node.left == node'.left && node.right == node'.right && node.overflow == node'.overflow
    requires count < 0x1_0000 && bytes < 0x1_0000
    ensures Head(node, count, bytes) == Head(node', count, bytes)
  {
  }

  lemma ShowsHead(b: seq<Byte>, node: Node)
    requires Shows(b, node)
    ensures |b| == BUFFER_SIZE && |node.keys| < 0x1_0000 && |Flat(node.keys)| < 0x1_0000
    ensures At(b, 0, Head(node, |node.keys|, |Flat(node.keys)|)) && At(b, TableAt(|Flat(node.keys)|), Table(node.keys, 0))
  {
  }

  // ---- _SplitNode ----

  method KeyBytes(a: array<Byte>, index: nat, ghost node: Node) returns (key: seq<Byte>)
    requires Shows(a[..], node) && index < |node.keys|
    ensures key == node.keys[index]
  {
    hide Flat, Cum, At, Bytes, Words, Shows;
    var start, length := KeyAt(a, index, node);
    ShowsFits(a[..], node);
    StretchOf(a[..], node, index, index + 1);
    AtGives(a[..], HEADER_SIZE + start, Bytes(node.keys, index, index + 1));
    BytesOfOne(node.keys, index);
    key := a[HEADER_SIZE + start..HEADER_SIZE + start + length];
  }

  lemma BytesOfOne(keys: seq<seq<Byte>>, i: nat)
    requires i < |keys|
    ensures Bytes(keys, i, i + 1) == keys[i]
  {
    assert keys[i..i + 1] == [keys[i]];
    FlatOfOne(keys[i]);
  }

  method OverflowOf(a: array<Byte>, ghost node: Node) returns (link: Cell)
    requires Shows(a[..], node)
    ensures link == node.overflow
  {
    hide Flat, At, Table, Cells, Head;
    HeadParts(a[..], node, |node.keys|, |Flat(node.keys)|);
    AtGives(a[..], 16, node.overflow);
    link := a[16..24];
  }

  /** What goes up from an index page: the new entry itself when its turn has come, or else the next old
      one.  Its value becomes the overflow link of the left page. */
  method DropEntry(a: array<Byte>, o: array<Byte>, at: nat, taken: nat, out: nat, total: nat, key: seq<Byte>, value: Cell,
                   ghost node: Node, ghost left: Node)
    returns (upKey: seq<Byte>, skip: nat, q: int, total': nat)
    requires a != o && Shows(a[..], node) && Shows(o[..], left) && |node.keys| == |node.values|
    requires at <= |node.keys| && 1 <= out <= |node.keys| && taken == Taken(at, out) && total == Cum(node.keys, taken)
    modifies o
    ensures Shows(o[..], left.(overflow := WithNew(node.values, at, value)[out]))
    ensures upKey == WithNew(node.keys, at, key)[out]
    ensures skip == Skip(at, out, false) && q == AtRight(at, out, false) && skip <= |node.keys| && total' == Cum(node.keys, skip)
  {
    hide Flat, Cum, Shows, WithNew;
    DroppedIs(node.keys, at, out, key);
    DroppedIs(node.values, at, out, value);
    skip, q, total' := taken, if taken != out then at - 1 else at, total;
    if skip == q {
      upKey := key;
      SetOverflow(o, value, left);
      q := q - 1;
    } else {
      upKey := KeyBytes(a, skip, node);
      var link := ValueAt(a, skip, node);
      SetOverflow(o, link, left);
      var start, length := KeyAt(a, skip, node);
      CumStep(node.keys, skip);
      total' := start + length;
      skip := skip + 1;
    }
  }

  /** The split's right half has its place in the buffer. */
  predicate RightPlace(node: Node, at: nat, key: seq<Byte>) {
    && at <= |node.keys| == |node.values| && Out(node, at, key) >= 1
    && Skip(at, Out(node, at, key), IsLeaf(node)) <= |node.keys|
    && RightFits(node, AtRight(at, Out(node, at, key), IsLeaf(node)), Skip(at, Out(node, at, key), IsLeaf(node)), key)
  }

  /** What the old page is after the split. */
  function SplitBytes(b: seq<Byte>, node: Node, at: nat, key: seq<Byte>, value: Cell, otherLink: Cell): (r: seq<Byte>)
    requires RightPlace(node, at, key) && |b| == BUFFER_SIZE
    ensures |r| == |b|
  {
    var out, leaf := Out(node, at, key), IsLeaf(node);
    RightBytes(b, otherLink, node, AtRight(at, out, leaf), Skip(at, out, leaf), key, value)
  }

  lemma HalvedHasPlace(node: Node, at: nat, key: seq<Byte>)
    requires Halved(node, at, key)
    ensures RightPlace(node, at, key) && 2 <= Out(node, at, key) <= |node.keys|
    ensures Bounded(node, AtRight(at, Out(node, at, key), IsLeaf(node)), Skip(at, Out(node, at, key), IsLeaf(node)), key)
  {
    hide Flat, Cum, Splits, LeftSafe, LeftCount, RightOf, WithNew, Fits, Bounded, Clear, Used, RoundUp, Lens, RightFits;
    SplitFits(node, at, key);
    SplitIsBounded(node, at, key);
    BoundedFits(node, AtRight(at, Out(node, at, key), IsLeaf(node)), Skip(at, Out(node, at, key), IsLeaf(node)), key);
  }

  /** The bytes of a safe split show the right half. */
  lemma SafeSplitArrives(b: seq<Byte>, node: Node, at: nat, key: seq<Byte>, value: Cell, otherLink: Cell)
    requires Halved(node, at, key) && Shows(b, node) && RightPlace(node, at, key) && |b| == BUFFER_SIZE
    ensures Out(node, at, key) <= |node.keys|
    ensures RightSafe(Lens(node.keys), at, |key|, IsLeaf(node)) ==>
              Shows(SplitBytes(b, node, at, key, value, otherLink), RightNode(node, at, key, value, otherLink))
  {
    hide Flat, Cum, Shows, Splits, LeftSafe, RightSafe, LeftCount, RightOf, WithNew, Fits, Bounded, Clear, Used, RoundUp, Lens, RightFits,
      RightBytes;
    var out, leaf := Out(node, at, key), IsLeaf(node);
    var skip, q := Skip(at, out, leaf), AtRight(at, out, leaf);
    HalvedHasPlace(node, at, key);
    HalvesFit(node, at, key, value, otherLink, otherLink);
    RightIsTail(node.keys, at, out, leaf, key);
    RightIsTail(node.values, at, out, leaf, value);
    ClearIsSafe(node, at, key);
    if RightSafe(Lens(node.keys), at, |key|, leaf) {
      RightArrives(b, otherLink, node, q, skip, key, value);
    }
  }

  /** Splits a full page: the front goes to the fresh page `o`, the rest closes up in `a`. */
  method SplitNode(a: array<Byte>, o: array<Byte>, otherLink: Cell, nodeLink: Cell, at: nat, key: seq<Byte>, value: Cell,
                   ghost node: Node)
    returns (ok: bool, upKey: seq<Byte>, upValue: Cell)
    requires a != o && Shows(a[..], node) && o.Length == BUFFER_SIZE && At(o[..], 16, NULL_CELL)
    requires at != |node.keys| + 1 && (at <= |node.keys| ==> Halved(node, at, key))
    modifies a, o
    ensures ok == (at <= |node.keys|)
    ensures !ok ==> a[..] == old(a[..]) && o[..] == old(o[..])
    ensures ok ==> |node.keys| == |node.values| && Out(node, at, key) <= |node.keys|
    ensures ok ==> Shows(o[..], LeftNode(node, at, key, value, nodeLink))
    ensures ok ==> RightPlace(node, at, key) && a[..] == SplitBytes(old(a[..]), node, at, key, value, otherLink)
    ensures ok && RightSafe(Lens(node.keys), at, |key|, IsLeaf(node)) ==> Shows(a[..], RightNode(node, at, key, value, otherLink))
    ensures ok ==> upKey == UpKey(node, at, key) && upValue == otherLink
  {
    hide Flat, Cum, Shows, At, Splits, LeftSafe, RightSafe, LeftCount, LeftOf, RightOf, WithNew, Fits, Bounded, Clear, Head, Used,
      RoundUp, Lens, RightFits, RightBytes;
    var count, sum := Counts(a, node);
    upKey, upValue := [], otherLink;
    if at > count + 1 {
      ok := false;
      return;
    }
    ok := true;
    SafeIsFull(node, at, key);
    SplitFits(node, at, key);
    HalvesFit(node, at, key, value, otherLink, nodeLink);
    HalvedHasPlace(node, at, key);
    ShowsHead(a[..], node);
    SafeSplitArrives(a[..], node, at, key, value, otherLink);
    ghost var leaf := IsLeaf(node);
    var taken, out, bytes, before, after := CountLeft(a, at, |key|, node);
    LeftIsFront(node.keys, at, out, key);
    LeftIsFront(node.values, at, out, value);
    RightIsTail(node.keys, at, out, leaf, key);
    RightIsTail(node.values, at, out, leaf, value);
    FitsSmall(LeftNode(node, at, key, value, nodeLink));
    FillLeft(a, o, nodeLink, at, key, value, taken, out, bytes, before, after, node);
    ghost var left := Node(node.left, nodeLink, NULL_CELL, LeftOf(node.keys, at, taken, out, key),
                           LeftOf(node.values, at, taken, out, value));
    var skip, total: nat := taken, before + after;
    var q: int := if taken != out then at - 1 else at;
    var overflow := OverflowOf(a, node);
    if overflow != NULL_CELL {
      upKey, skip, q, total := DropEntry(a, o, at, taken, out, total, key, value, node, left);
    }
    PackRight(a, otherLink, q, skip, total, key, value, node);
    if overflow == NULL_CELL {
      upKey := KeyBytes(o, out - 1, left);
      LastOfFront(node.keys, at, key, out);
    }
  }

  lemma SafeIsFull(node: Node, at: nat, key: seq<Byte>)
    requires Halved(node, at, key)
    ensures Full(node, at, key) && at <= |node.keys| == |node.values|
  {
  }

  lemma FitsSmall(node: Node)
    requires Fits(node)
    ensures |Flat(node.keys)| < 0x1_0000 && Used(|node.keys|, |Flat(node.keys)|) <= BUFFER_SIZE
  {
  }

  lemma LastOfFront(keys: seq<seq<Byte>>, at: nat, key: seq<Byte>, out: nat)
    requires at <= |keys| && 1 <= out <= |keys|
    ensures |WithNew(keys, at, key)| == |keys| + 1
    ensures WithNew(keys, at, key)[..out][out - 1] == WithNew(keys, at, key)[out - 1]
  {
  }
}
