/** When closing up a page in place loses data (_SplitNode in BPlusTree.cpp): the moves of keys and of lengths
    run over lengths that are still to be read, exactly when NodeLayout.RightSafe says so. */
module PageLoss {
  import opened NodeLayout
  import opened NodeBytes
  import opened NodePage
  import opened NodeSplit
  import opened PageSplit

  // ---- one byte at a time ----

  lemma MovedByte(b: seq<Byte>, dst: nat, src: nat, n: nat, y: nat)
    requires dst + n <= |b| && src + n <= |b| && y < |b|
    ensures Moved(b, dst, src, n)[y] == if dst <= y < dst + n then b[y - dst + src] else b[y]
  {
  }

  lemma WrittenByte(b: seq<Byte>, dst: nat, data: seq<Byte>, y: nat)
    requires dst + |data| <= |b| && y < |b| && (y < dst || dst + |data| <= y)
    ensures Written(b, dst, data)[y] == b[y]
  {
  }

  lemma AtByte(b: seq<Byte>, off: nat, data: seq<Byte>, k: nat)
    requires At(b, off, data) && k < |data|
    ensures b[off + k] == data[k]
  {
    assert b[off..off + |data|][k] == data[k];
  }

  /** The sizes of a split whose new key stays in the right half, with keys behind it. */
  ghost predicate Behind(node: Node, q: int, skip: nat, key: seq<Byte>) {
    && skip <= |node.keys| == |node.values| && skip <= q < |node.keys|
    && Bounded(node, q, skip, key) && RightFits(node, q, skip, key)
  }

  /** What the sizes of the moves are then. */
  lemma Sizes(node: Node, q: int, skip: nat, key: seq<Byte>)
    requires Behind(node, q, skip, key)
    ensures var p, n, m := PlanOf(node, q, skip, key), |node.keys|, q - skip;
            && p.bytes == |key| > 0 && p.after > 0 && (p.before > 0 <==> m > 0) && p.out == n - skip + 2 && skip >= 1
            && p.total == Cum(node.keys, skip) && p.total + p.before == Cum(node.keys, q)
            && p.total + p.before + p.after == |Flat(node.keys)|
            && p.bytes + p.before + p.after == |Flat(RightOf(node.keys, q, skip, key))|
            && HEADER_SIZE + p.total + p.before + p.after <= p.table && p.cells == p.table + 2 * n && p.cells + 8 * n <= NODE_SIZE
            && HEADER_SIZE + p.bytes + p.before + p.after <= p.outTable && p.outCells == p.outTable + 2 * (p.out - 1)
            && p.outCells + 8 * (p.out - 1) <= NODE_SIZE && |RightOf(node.keys, q, skip, key)| == p.out - 1
            && p.table == TableAt(|Flat(node.keys)|) && p.outTable == TableAt(|Flat(RightOf(node.keys, q, skip, key))|)
            && p.table % 8 == 0 && p.outTable % 8 == 0
            && FirstMove(p, q, skip) == (if m > 0 then m else p.out)
  {
    hide Flat, RoundUp, Cum, Bytes, RightOf, Fits, Bounded, Inside, TableAt, ValuesAt, Clear;
    PackPlaces(node, q, skip, key);
    TableIsEven(|Flat(node.keys)|);
    TableIsEven(|Flat(RightOf(node.keys, q, skip, key))|);
  }

  lemma TableIsEven(bytes: nat)
    ensures TableAt(bytes) % 8 == 0
  {
  }

  /** The state after the key bytes have moved. */
  function AfterKeys(b: seq<Byte>, otherLink: Cell, node: Node, q: int, skip: nat, key: seq<Byte>): (r: seq<Byte>)
    requires skip <= |node.keys| == |node.values| && q <= |node.keys| && RightFits(node, q, skip, key) && |b| == BUFFER_SIZE
    ensures |r| == |b|
  {
    var p := PlanOf(node, q, skip, key);
    KeysMoved(HeadSet(Lowered(b, node, q, skip, key), otherLink, p.out - 1, p.bytes + p.before + p.after),
              HEADER_SIZE, p.total, p.bytes, p.before, p.after)
  }

  /** Where a byte of the new table of lengths was before the tables moved: in the old table, with its entries
      as they were, or already overwritten by the first move. */
  function SourceOf(p: Plan, q: int, skip: nat, y: int): int {
    var lo, m := p.table + 2 * skip, q - skip;
    if y < p.outTable + 2 * m then lo + y - p.outTable
    else
      var x := lo + y - p.outTable - 2;
      if p.outTable <= x < p.outTable + 2 * m then lo + x - p.outTable else x
  }

  /** A byte of the table of lengths when all is done, other than those of the new key. */
  lemma TableByte(b: seq<Byte>, otherLink: Cell, node: Node, q: int, skip: nat, key: seq<Byte>, value: Cell, y: nat)
    requires Behind(node, q, skip, key) && |b| == BUFFER_SIZE
    requires var p := PlanOf(node, q, skip, key);
             p.outTable <= y < p.outCells && (y < p.outTable + 2 * (q - skip) || p.outTable + 2 * (q - skip) + 2 <= y)
    ensures var p := PlanOf(node, q, skip, key);
            && 0 <= SourceOf(p, q, skip, y) < |b|
            && RightBytes(b, otherLink, node, q, skip, key, value)[y]
               == AfterKeys(b, otherLink, node, q, skip, key)[SourceOf(p, q, skip, y)]
  {
    hide Flat, RoundUp, Cum, Bytes, RightOf, Fits, Bounded, TableAt, ValuesAt, Clear, PlanOf, Moved, Written, HeadSet, Lowered, KeysMoved, Two;
    Sizes(node, q, skip, key);
    var p, m := PlanOf(node, q, skip, key), q - skip;
    var moved, rest: nat := FirstMove(p, q, skip), p.out - m - 1;
    var b3 := AfterKeys(b, otherLink, node, q, skip, key);
    var b4 := TableMoved(b3, 2, p.table, p.outTable, skip, moved, m, rest, p.before, p.after);
    var b5 := TableMoved(b4, 8, p.cells, p.outCells, skip, moved, m, rest, p.before, p.after);
    LengthByte(b3, p, q, skip, moved, rest, y);
    ValueMoveLeaves(b4, p, skip, moved, m, rest, y);
    NewPutLeaves(b5, p, m, key, value, y);
  }

  /** ... when the two tables have moved. */
  lemma LengthByte(b3: seq<Byte>, p: Plan, q: int, skip: nat, moved: nat, rest: nat, y: nat)
    requires skip <= q && Inside(p, q, skip, |b3|) && p.after > 0 && (p.before > 0 <==> q > skip) && rest == p.out - (q - skip) - 1
    requires moved == FirstMove(p, q, skip) && (q > skip ==> moved == q - skip) && skip >= 1
    requires p.outTable <= y < p.outTable + 2 * (p.out - 1)
    requires y < p.outTable + 2 * (q - skip) || p.outTable + 2 * (q - skip) + 2 <= y
    ensures 0 <= SourceOf(p, q, skip, y) < |b3|
    ensures TableMoved(b3, 2, p.table, p.outTable, skip, moved, q - skip, rest, p.before, p.after)[y] == b3[SourceOf(p, q, skip, y)]
  {
    hide Moved;
    var m := q - skip;
    var b' := if p.before > 0 then Moved(b3, p.outTable, p.table + 2 * skip, 2 * moved) else b3;
    MovedByte(b', p.outTable + 2 * (m + 1), p.table + 2 * (skip + m), 2 * rest, y);
    var z := if y < p.outTable + 2 * m then y else p.table + 2 * skip + y - p.outTable - 2;
    if p.before > 0 {
      MovedByte(b3, p.outTable, p.table + 2 * skip, 2 * moved, z);
    }
  }

  lemma ValueMoveLeaves(b4: seq<Byte>, p: Plan, skip: nat, moved: nat, m: nat, rest: nat, y: nat)
    requires p.before > 0 ==> p.cells + 8 * (skip + moved) <= |b4| && p.outCells + 8 * moved <= |b4|
    requires p.after > 0 ==> p.cells + 8 * (skip + m + rest) <= |b4| && p.outCells + 8 * (m + 1 + rest) <= |b4|
    requires y < p.outCells && y < |b4|
    ensures TableMoved(b4, 8, p.cells, p.outCells, skip, moved, m, rest, p.before, p.after)[y] == b4[y]
  {
    hide Moved;
    var b' := if p.before > 0 then Moved(b4, p.outCells, p.cells + 8 * skip, 8 * moved) else b4;
    if p.before > 0 {
      MovedByte(b4, p.outCells, p.cells + 8 * skip, 8 * moved, y);
    }
    if p.after > 0 {
      MovedByte(b', p.outCells + 8 * (m + 1), p.cells + 8 * (skip + m), 8 * rest, y);
    }
  }

  lemma NewPutLeaves(b5: seq<Byte>, p: Plan, m: nat, key: seq<Byte>, value: Cell, y: nat)
    requires HEADER_SIZE + p.before + |key| <= p.outTable <= y < p.outCells <= |b5| && p.outCells + 8 * m + 8 <= |b5|
    requires p.outTable + 2 * m + 2 <= p.outCells && |key| + p.before < 0x1_0000
    requires y < p.outTable + 2 * m || p.outTable + 2 * m + 2 <= y
    ensures NewPut(b5, m, p.before, key, value, p.outTable, p.outCells)[y] == b5[y]
  {
    hide Written, Two;
    var b6 := Written(b5, HEADER_SIZE + p.before, key);
    var b7 := Written(b6, p.outTable + 2 * m, Two(|key| + p.before));
    WrittenByte(b5, HEADER_SIZE + p.before, key, y);
    WrittenByte(b6, p.outTable + 2 * m, Two(|key| + p.before), y);
    WrittenByte(b7, p.outCells + 8 * m, value, y);
  }

  // ---- keys over lengths ----

  /** Behind the place of the new key there are the key bytes that follow it. */
  lemma MovedKeyByte(b: seq<Byte>, otherLink: Cell, node: Node, q: int, skip: nat, key: seq<Byte>, x: nat)
    requires Behind(node, q, skip, key) && Shows(b, node) && |b| == BUFFER_SIZE
    requires var p := PlanOf(node, q, skip, key);
             HEADER_SIZE + p.before + p.bytes <= x < HEADER_SIZE + p.before + p.bytes + p.after
    ensures var p := PlanOf(node, q, skip, key);
            var k := x - HEADER_SIZE - p.bytes + p.total;
            0 <= k < |Flat(node.keys)| && AfterKeys(b, otherLink, node, q, skip, key)[x] == Flat(node.keys)[k]
  {
    hide Flat, RoundUp, Cum, Bytes, RightOf, Fits, Bounded, TableAt, ValuesAt, Clear, PlanOf, Moved, Written, HeadSet, LoweredTable, Two, At,
      Inside, Table, Cells, Head;
    Sizes(node, q, skip, key);
    var p := PlanOf(node, q, skip, key);
    var z := x - p.bytes + p.total;
    var b1 := Lowered(b, node, q, skip, key);
    var b2 := HeadSet(b1, otherLink, p.out - 1, p.bytes + p.before + p.after);
    var b' := if p.before > 0 then Moved(b2, HEADER_SIZE, HEADER_SIZE + p.total, p.before) else b2;
    InsideBytes(p, q, skip, |b|);
    MovedByte(b', HEADER_SIZE + p.before + p.bytes, HEADER_SIZE + p.total + p.before, p.after, x);
    if p.before > 0 {
      MovedByte(b2, HEADER_SIZE, HEADER_SIZE + p.total, p.before, z);
    }
    HeadLeaves(b1, otherLink, p.out - 1, p.bytes + p.before + p.after, z);
    WrittenByte(b, p.table + 2 * skip, LoweredTable(node, q, skip, key), z);
    AtByte(b, HEADER_SIZE, Flat(node.keys), z - HEADER_SIZE);
  }

  lemma InsideBytes(p: Plan, q: int, skip: nat, size: nat)
    requires Inside(p, q, skip, size)
    ensures HEADER_SIZE + p.total + p.before + p.after <= size && HEADER_SIZE + p.before + p.bytes + p.after <= size
  {
  }

  lemma HeadLeaves(b: seq<Byte>, otherLink: Cell, count: nat, bytes: nat, y: nat)
    requires HEADER_SIZE <= y < |b| && count < 0x1_0000 && bytes < 0x1_0000
    ensures HeadSet(b, otherLink, count, bytes)[y] == b[y]
  {
    hide Written, Two;
    var b1 := Written(b, 0, otherLink);
    var b2 := Written(b1, LENGTH_AT, Two(bytes));
    WrittenByte(b, 0, otherLink, y);
    WrittenByte(b1, LENGTH_AT, Two(bytes), y);
    WrittenByte(b2, COUNT_AT, Two(count), y);
  }

  /** Where the byte at `x` of the old table ends up in the new one. */
  function Landing(p: Plan, q: int, skip: nat, x: int): int {
    p.outTable + x - (p.table + 2 * skip) + if x < p.table + 2 * q then 0 else 2
  }

  /** A byte of the old table that is overwritten with a byte of a key: that is what the new table has. */
  lemma GarbledByte(b: seq<Byte>, otherLink: Cell, node: Node, q: int, skip: nat, key: seq<Byte>, value: Cell, x: nat)
    requires Behind(node, q, skip, key) && Shows(b, node) && |b| == BUFFER_SIZE
    requires var p := PlanOf(node, q, skip, key);
             && p.table + 2 * skip <= x < p.table + 2 * |node.keys|
             && HEADER_SIZE + p.before + p.bytes <= x < HEADER_SIZE + p.before + p.bytes + p.after
    ensures var p := PlanOf(node, q, skip, key);
            var y, k := Landing(p, q, skip, x), x - HEADER_SIZE - p.bytes + p.total;
            && p.outTable <= y < p.outCells && y < |b| && 0 <= k < |Flat(node.keys)|
            && RightBytes(b, otherLink, node, q, skip, key, value)[y] == Flat(node.keys)[k]
  {
    hide Flat, RoundUp, Cum, Bytes, RightOf, Fits, Bounded, TableAt, ValuesAt, Clear, PlanOf, Inside, RightBytes, AfterKeys, Shows, RightFits;
    Sizes(node, q, skip, key);
    var p := PlanOf(node, q, skip, key);
    var y := Landing(p, q, skip, x);
    assert SourceOf(p, q, skip, y) == x;
    TableByte(b, otherLink, node, q, skip, key, value, y);
    MovedKeyByte(b, otherLink, node, q, skip, key, x);
  }

  lemma ShownByte(r: seq<Byte>, done: Node, y: nat)
    requires Shows(r, done) && TableAt(|Flat(done.keys)|) <= y < TableAt(|Flat(done.keys)|) + 2 * |done.keys|
    ensures |r| == BUFFER_SIZE && |Flat(done.keys)| < 0x1_0000 && y < |r|
    ensures r[y] == Table(done.keys, 0)[y - TableAt(|Flat(done.keys)|)]
  {
    hide Flat, Table, TableAt, Head, Cells;
    AtByte(r, TableAt(|Flat(done.keys)|), Table(done.keys, 0), y - TableAt(|Flat(done.keys)|));
    assert |r| == BUFFER_SIZE;
  }

  // ---- lengths over lengths ----

  /** Behind everything that the keys are moved to, the lowered lengths are still there. */
  lemma UntouchedByte(b: seq<Byte>, otherLink: Cell, node: Node, q: int, skip: nat, key: seq<Byte>, z: nat)
    requires Behind(node, q, skip, key) && |b| == BUFFER_SIZE
    requires var p := PlanOf(node, q, skip, key);
             HEADER_SIZE + p.before + p.bytes + p.after <= z && p.table + 2 * skip <= z < p.table + 2 * q
    ensures var right, lo := RightOf(node.keys, q, skip, key), TableAt(|Flat(node.keys)|) + 2 * skip;
            && |Flat(right)| < 0x1_0000 && 0 <= z - lo < 2 * |right|
            && AfterKeys(b, otherLink, node, q, skip, key)[z] == Table(right, 0)[z - lo]
  {
    hide Flat, RoundUp, Cum, Bytes, RightOf, Fits, Bounded, TableAt, ValuesAt, Clear, PlanOf, Moved, Written, HeadSet, LoweredTable, Two, At,
      Inside, Table, Cells, Head;
    Sizes(node, q, skip, key);
    var p := PlanOf(node, q, skip, key);
    var b1 := Lowered(b, node, q, skip, key);
    var b2 := HeadSet(b1, otherLink, p.out - 1, p.bytes + p.before + p.after);
    var b' := if p.before > 0 then Moved(b2, HEADER_SIZE, HEADER_SIZE + p.total, p.before) else b2;
    InsideBytes(p, q, skip, |b|);
    MovedByte(b', HEADER_SIZE + p.before + p.bytes, HEADER_SIZE + p.total + p.before, p.after, z);
    if p.before > 0 {
      MovedByte(b2, HEADER_SIZE, HEADER_SIZE + p.total, p.before, z);
    }
    HeadLeaves(b1, otherLink, p.out - 1, p.bytes + p.before + p.after, z);
    LoweredByte(b, node, q, skip, key, z);
  }

  lemma LoweredByte(b: seq<Byte>, node: Node, q: int, skip: nat, key: seq<Byte>, z: nat)
    requires skip <= q <= |node.keys| && |Flat(RightOf(node.keys, q, skip, key))| < 0x1_0000
    requires TableAt(|Flat(node.keys)|) + 2 * |node.keys| <= |b|
    requires TableAt(|Flat(node.keys)|) + 2 * skip <= z < TableAt(|Flat(node.keys)|) + 2 * q
    ensures var right, lo := RightOf(node.keys, q, skip, key), TableAt(|Flat(node.keys)|) + 2 * skip;
            Lowered(b, node, q, skip, key)[z] == Table(right, 0)[z - lo]
  {
    hide Flat, TableAt, Table, Written;
    var right, lo := RightOf(node.keys, q, skip, key), TableAt(|Flat(node.keys)|) + 2 * skip;
    AtByte(Lowered(b, node, q, skip, key), lo, LoweredTable(node, q, skip, key), z - lo);
    assert Stretch(right, 0, q - skip)[z - lo] == Table(right, 0)[z - lo];
  }

  /** An entry behind the new key that is read where one in front of it has been put. */
  lemma Crossing(p: Plan, q: int, skip: nat, n: nat) returns (i: nat, j: nat)
    requires skip < q < n && p.table % 8 == 0 && p.outTable % 8 == 0 && p.out == n - skip + 2
    requires p.table + 2 * skip < p.outTable < p.table + 2 * n && p.outCells == p.outTable + 2 * (p.out - 1)
    ensures i < q - skip < j <= n - skip
    ensures SourceOf(p, q, skip, p.outTable + 2 * j) == p.table + 2 * (skip + i)
    ensures SourceOf(p, q, skip, p.outTable + 2 * j + 1) == p.table + 2 * (skip + i) + 1
  {
    var g := (p.outTable - p.table) / 2;
    var e := if q > g then q else g;
    i, j := e - g, e - skip + 1;
  }

  /** The first move of the lengths overwrites some that the second one then takes for the others. */
  lemma LengthsCross(b: seq<Byte>, otherLink: Cell, node: Node, q: int, skip: nat, key: seq<Byte>, value: Cell)
    requires Behind(node, q, skip, key) && |b| == BUFFER_SIZE && q > skip
    requires var p := PlanOf(node, q, skip, key);
             && p.table + 2 * skip < p.outTable < p.table + 2 * |node.keys|
             && HEADER_SIZE + p.before + p.bytes + p.after <= p.table + 2 * skip
    ensures !Shows(RightBytes(b, otherLink, node, q, skip, key, value),
                   Node(otherLink, node.right, node.overflow, RightOf(node.keys, q, skip, key), RightOf(node.values, q, skip, value)))
  {
    hide Flat, RoundUp, Cum, Bytes, RightOf, Fits, Bounded, TableAt, ValuesAt, Clear, PlanOf, Inside, RightBytes, AfterKeys, Shows, RightFits,
      Table;
    Sizes(node, q, skip, key);
    var p, m, right := PlanOf(node, q, skip, key), q - skip, RightOf(node.keys, q, skip, key);
    var done := Node(otherLink, node.right, node.overflow, right, RightOf(node.values, q, skip, value));
    var r := RightBytes(b, otherLink, node, q, skip, key, value);
    var i, j := Crossing(p, q, skip, |node.keys|);
    var y, z := p.outTable + 2 * j, p.table + 2 * (skip + i);
    TableByte(b, otherLink, node, q, skip, key, value, y);
    TableByte(b, otherLink, node, q, skip, key, value, y + 1);
    UntouchedByte(b, otherLink, node, q, skip, key, z);
    UntouchedByte(b, otherLink, node, q, skip, key, z + 1);
    if Shows(r, done) {
      ShownByte(r, done, y);
      ShownByte(r, done, y + 1);
      EntriesDiffer(node, q, skip, key, i, j);
    }
  }

  /** A length in front of the new key is less than any behind it. */
  lemma EntriesDiffer(node: Node, q: int, skip: nat, key: seq<Byte>, i: nat, j: nat)
    requires skip <= q <= |node.keys| && key != [] && i < q - skip < j <= |node.keys| - skip
    requires |Flat(RightOf(node.keys, q, skip, key))| < 0x1_0000
    ensures var t := Table(RightOf(node.keys, q, skip, key), 0); t[2 * i] != t[2 * j] || t[2 * i + 1] != t[2 * j + 1]
  {
    hide Flat, Cum, RightOf, Table;
    var right := RightOf(node.keys, q, skip, key);
    EntryOfTable(right, i);
    EntryOfTable(right, j);
    CumOfRight(node.keys, q, skip, key, i + 1);
    CumOfRight(node.keys, q, skip, key, j);
    BytesSize(node.keys, skip + i + 1, skip + j);
    TwoDiffer(Cum(right, i + 1), Cum(right, j + 1));
  }

  lemma EntryOfTable(keys: seq<seq<Byte>>, i: nat)
    requires i < |keys| && |Flat(keys)| < 0x1_0000
    ensures Cum(keys, i + 1) < 0x1_0000
    ensures Table(keys, 0)[2 * i] == Two(Cum(keys, i + 1))[0] && Table(keys, 0)[2 * i + 1] == Two(Cum(keys, i + 1))[1]
  {
    hide Flat, Table, Two;
    TableEntries(Table(keys, 0), 0, keys);
    assert EntryAt(Table(keys, 0), 0, keys, i);
    AtByte(Table(keys, 0), 2 * i, Two(Cum(keys, i + 1)), 0);
    AtByte(Table(keys, 0), 2 * i, Two(Cum(keys, i + 1)), 1);
  }

  lemma TwoDiffer(x: nat, y: nat)
    requires x < y < 0x1_0000
    ensures Two(x)[0] != Two(y)[0] || Two(x)[1] != Two(y)[1]
  {
  }

  // ---- pages for any lengths ----

  const ZERO_CELL: Cell := [0, 0, 0, 0, 0, 0, 0, 0]

  /** A page whose keys have these lengths and are made of one byte. */
  function PageOf(lens: seq<nat>, leaf: bool, c: Byte): (node: Node)
    ensures |node.keys| == |node.values| == |lens| && IsLeaf(node) == leaf
  {
    Node(NULL_CELL, NULL_CELL, if leaf then NULL_CELL else ZERO_CELL, KeysOf(lens, c), seq(|lens|, i => ZERO_CELL))
  }

  function KeysOf(lens: seq<nat>, c: Byte): (keys: seq<seq<Byte>>)
    ensures |keys| == |lens|
  {
    seq(|lens|, i requires 0 <= i < |lens| => seq(lens[i], j => c))
  }

  lemma LensOfPage(lens: seq<nat>, leaf: bool, c: Byte)
    ensures Lens(PageOf(lens, leaf, c).keys) == lens
  {
  }

  predicate MadeOf(s: seq<Byte>, c: Byte) {
    forall i :: 0 <= i < |s| ==> s[i] == c
  }

  lemma {:induction false} FlatIsMadeOf(keys: seq<seq<Byte>>, c: Byte)
    requires forall i :: 0 <= i < |keys| ==> MadeOf(keys[i], c)
    ensures MadeOf(Flat(keys), c)
  {
    if keys != [] {
      FlatIsMadeOf(keys[1..], c);
    }
  }

  /** The table of lengths does not depend on the bytes of the keys. */
  lemma {:induction false} TableOfLens(a: seq<seq<Byte>>, b: seq<seq<Byte>>, base: nat)
    requires Lens(a) == Lens(b) && base + |Flat(a)| < 0x1_0000
    ensures |Flat(a)| == |Flat(b)| && Table(a, base) == Table(b, base)
  {
    assert |a| == |Lens(a)| && |b| == |Lens(b)|;
    if a != [] {
      assert |a[0]| == Lens(a)[0] && |b[0]| == Lens(b)[0];
      assert Lens(a[1..]) == Lens(a)[1..] && Lens(b[1..]) == Lens(b)[1..];
      TableOfLens(a[1..], b[1..], base + |a[0]|);
    }
  }

  /** The bytes of a page; what is between its parts does not matter. */
  function Encoded(node: Node): (b: seq<Byte>)
    requires Fits(node) && |node.keys| < 0x1_0000 && |Flat(node.keys)| < 0x1_0000 && Used(|node.keys|, |Flat(node.keys)|) <= BUFFER_SIZE
    ensures |b| == BUFFER_SIZE
  {
    var sum := |Flat(node.keys)|;
    Written(Written(Written(Written(seq(BUFFER_SIZE, i => 0), 0, Head(node, |node.keys|, sum)), HEADER_SIZE, Flat(node.keys)),
                    TableAt(sum), Table(node.keys, 0)), ValuesAt(|node.keys|, sum), Cells(node.values))
  }

  lemma EncodedShows(node: Node)
    requires Fits(node) && |node.keys| < 0x1_0000 && |Flat(node.keys)| < 0x1_0000 && Used(|node.keys|, |Flat(node.keys)|) <= BUFFER_SIZE
    ensures Shows(Encoded(node), node)
  {
    hide Flat, Table, Cells, Head, Written, At, RoundUp;
    var sum, n := |Flat(node.keys)|, |node.keys|;
    var head, flat, table, cells := Head(node, n, sum), Flat(node.keys), Table(node.keys, 0), Cells(node.values);
    var b1 := Written(seq(BUFFER_SIZE, i => 0), 0, head);
    var b2 := Written(b1, HEADER_SIZE, flat);
    WriteKeeps(b1, HEADER_SIZE, flat, 0, head);
    var b3 := Written(b2, TableAt(sum), table);
    WriteKeeps(b2, TableAt(sum), table, 0, head);
    WriteKeeps(b2, TableAt(sum), table, HEADER_SIZE, flat);
    WriteKeeps(b3, ValuesAt(n, sum), cells, 0, head);
    WriteKeeps(b3, ValuesAt(n, sum), cells, HEADER_SIZE, flat);
    WriteKeeps(b3, ValuesAt(n, sum), cells, TableAt(sum), table);
  }

  lemma PageFits(lens: seq<nat>, at: nat, length: nat, leaf: bool, c: Byte)
    requires Splits(lens, at, length)
    ensures var node := PageOf(lens, leaf, c);
            && Fits(node) && |node.keys| < 0x1_0000 && |Flat(node.keys)| < 0x1_0000
            && Used(|node.keys|, |Flat(node.keys)|) <= NODE_SIZE && Lens(node.keys) == lens
  {
    hide Flat;
    var node := PageOf(lens, leaf, c);
    LensOfPage(lens, leaf, c);
    SizeOfLens(node.keys);
    forall i | 0 <= i < |node.keys| ensures MIN_KEY_LENGTH <= |node.keys[i]| <= MAX_KEY_LENGTH {
      assert |node.keys[i]| == Lens(node.keys)[i];
    }
  }

  // ---- the exact condition ----

  /** The bytes show a page with keys of these lengths, and the new key has its length. */
  predicate Case(b: seq<Byte>, node: Node, key: seq<Byte>, lens: seq<nat>, length: nat, leaf: bool) {
    Shows(b, node) && Lens(node.keys) == lens && IsLeaf(node) == leaf && |key| == length
  }

  /** After the split, the old page's bytes show the right half. */
  ghost predicate KeepsRight(b: seq<Byte>, node: Node, at: nat, key: seq<Byte>, value: Cell, otherLink: Cell) {
    && RightPlace(node, at, key) && |b| == BUFFER_SIZE && Out(node, at, key) <= |node.keys|
    && Shows(SplitBytes(b, node, at, key, value, otherLink), RightNode(node, at, key, value, otherLink))
  }

  /** Every page with keys of these lengths is split correctly. */
  ghost predicate AlwaysKept(lens: seq<nat>, at: nat, length: nat, leaf: bool) {
    forall b: seq<Byte>, node: Node, key: seq<Byte>, value: Cell, otherLink: Cell ::
      Case(b, node, key, lens, length, leaf) ==> KeepsRight(b, node, at, key, value, otherLink)
  }

  lemma SamePlan(node: Node, node': Node, q: int, skip: nat, key: seq<Byte>)
    requires Behind(node, q, skip, key) && Behind(node', q, skip, key) && Lens(node.keys) == Lens(node'.keys)
    ensures PlanOf(node, q, skip, key) == PlanOf(node', q, skip, key)
    ensures |Flat(RightOf(node.keys, q, skip, key))| == |Flat(RightOf(node'.keys, q, skip, key))|
    ensures Lens(RightOf(node.keys, q, skip, key)) == Lens(RightOf(node'.keys, q, skip, key))
  {
    hide Flat, RoundUp, Cum, Bytes, Fits, Bounded, Inside, TableAt, ValuesAt, Clear, RightFits;
    Sizes(node, q, skip, key);
    Sizes(node', q, skip, key);
    SizeOfLens(node.keys);
    SizeOfLens(node'.keys);
    LensPrefix(node.keys, skip);
    LensPrefix(node'.keys, skip);
    LensPrefix(node.keys, q);
    LensPrefix(node'.keys, q);
    assert |node.keys| == |Lens(node.keys)| && |node'.keys| == |Lens(node'.keys)|;
    RightLens(node.keys, node'.keys, q, skip, key);
  }

  lemma RightLens(keys: seq<seq<Byte>>, keys': seq<seq<Byte>>, q: int, skip: nat, key: seq<Byte>)
    requires Lens(keys) == Lens(keys') && |keys| == |keys'| && skip <= q <= |keys|
    ensures Lens(RightOf(keys, q, skip, key)) == Lens(RightOf(keys', q, skip, key))
  {
    var a, b := RightOf(keys, q, skip, key), RightOf(keys', q, skip, key);
    assert forall i :: 0 <= i < |keys| ==> |keys[i]| == Lens(keys)[i] && |keys'[i]| == Lens(keys')[i];
    forall i | 0 <= i < |a| ensures |a[i]| == |b[i]| {
      RightItem(keys, q, skip, key, i);
      RightItem(keys', q, skip, key, i);
    }
  }

  lemma RightItem<T>(s: seq<T>, q: int, skip: nat, x: T, i: nat)
    requires skip <= q <= |s| && i < |RightOf(s, q, skip, x)|
    ensures RightOf(s, q, skip, x)[i] == if i < q - skip then s[skip + i] else if i == q - skip then x else s[skip + i - 1]
  {
  }

  /** Two pages of the same lengths with different bytes in their keys: one of them is not split correctly. */
  lemma KeysCross(b: seq<Byte>, b': seq<Byte>, otherLink: Cell, node: Node, node': Node, q: int, skip: nat, key: seq<Byte>, value: Cell,
                  x: nat)
    requires Behind(node, q, skip, key) && Behind(node', q, skip, key) && Lens(node.keys) == Lens(node'.keys)
    requires Shows(b, node) && Shows(b', node') && |b| == |b'| == BUFFER_SIZE
    requires MadeOf(Flat(node.keys), 1) && MadeOf(Flat(node'.keys), 2)
    requires var p := PlanOf(node, q, skip, key);
             && p.table + 2 * skip <= x < p.table + 2 * |node.keys|
             && HEADER_SIZE + p.before + p.bytes <= x < HEADER_SIZE + p.before + p.bytes + p.after
    ensures !Shows(RightBytes(b, otherLink, node, q, skip, key, value),
                   Node(otherLink, node.right, node.overflow, RightOf(node.keys, q, skip, key), RightOf(node.values, q, skip, value)))
         || !Shows(RightBytes(b', otherLink, node', q, skip, key, value),
                   Node(otherLink, node'.right, node'.overflow, RightOf(node'.keys, q, skip, key), RightOf(node'.values, q, skip, value)))
  {
    hide Flat, RoundUp, Cum, Bytes, RightOf, Fits, Bounded, TableAt, ValuesAt, Clear, PlanOf, Inside, RightBytes, Shows, RightFits, Table,
      Lens;
    SamePlan(node, node', q, skip, key);
    Sizes(node, q, skip, key);
    Sizes(node', q, skip, key);
    GarbledByte(b, otherLink, node, q, skip, key, value, x);
    GarbledByte(b', otherLink, node', q, skip, key, value, x);
    var p := PlanOf(node, q, skip, key);
    var y := Landing(p, q, skip, x);
    var right, right' := RightOf(node.keys, q, skip, key), RightOf(node'.keys, q, skip, key);
    var done := Node(otherLink, node.right, node.overflow, right, RightOf(node.values, q, skip, value));
    var done' := Node(otherLink, node'.right, node'.overflow, right', RightOf(node'.values, q, skip, value));
    if Shows(RightBytes(b, otherLink, node, q, skip, key, value), done) && Shows(RightBytes(b', otherLink, node', q, skip, key, value), done') {
      ShownByte(RightBytes(b, otherLink, node, q, skip, key, value), done, y);
      ShownByte(RightBytes(b', otherLink, node', q, skip, key, value), done', y);
      TableOfLens(right, right', 0);
    }
  }

  /** A page of these lengths that is ready to be split. */
  lemma PageToSplit(lens: seq<nat>, at: nat, length: nat, leaf: bool, c: Byte) returns (node: Node, b: seq<Byte>, key: seq<Byte>)
    requires Splits(lens, at, length) && LeftSafe(lens, at, length)
    ensures key == seq(length, i => 1) && node == PageOf(lens, leaf, c)
    ensures Case(b, node, key, lens, length, leaf) && |b| == BUFFER_SIZE && Halved(node, at, key) && at <= |node.keys| == |node.values|
    ensures MadeOf(Flat(node.keys), c)
  {
    hide Flat, LeftSafe, Shows, Encoded, Fits, Lens, Used, Lengths;
    node, key := PageOf(lens, leaf, c), seq(length, i => 1);
    PageFits(lens, at, length, leaf, c);
    b := Encoded(node);
    EncodedShows(node);
    FlatIsMadeOf(node.keys, c);
  }

  /** The right half as RightBytes is compared with it. */
  lemma RightNodeIs(node: Node, at: nat, key: seq<Byte>, value: Cell, otherLink: Cell)
    requires Halved(node, at, key) && RightPlace(node, at, key)
    ensures Out(node, at, key) <= |node.keys|
    ensures var out, leaf := Out(node, at, key), IsLeaf(node);
            var q, skip := AtRight(at, out, leaf), Skip(at, out, leaf);
            RightNode(node, at, key, value, otherLink)
            == Node(otherLink, node.right, node.overflow, RightOf(node.keys, q, skip, key), RightOf(node.values, q, skip, value))
  {
    hide Flat, Cum, Splits, LeftSafe, LeftCount, RightOf, WithNew, Fits, Bounded, Clear, Used, RoundUp, Lens, RightFits;
    HalvedHasPlace(node, at, key);
    RightIsTail(node.keys, at, Out(node, at, key), IsLeaf(node), key);
    RightIsTail(node.values, at, Out(node, at, key), IsLeaf(node), value);
  }

  /** The place of the new key in an unsafe split. */
  lemma UnsafeIsBehind(node: Node, at: nat, key: seq<Byte>)
    requires Halved(node, at, key) && !RightSafe(Lens(node.keys), at, |key|, IsLeaf(node)) && at <= |node.keys| == |node.values|
    ensures Out(node, at, key) >= 1
    ensures var out, leaf := Out(node, at, key), IsLeaf(node);
            var q, skip := AtRight(at, out, leaf), Skip(at, out, leaf);
            Behind(node, q, skip, key) && !Clear(node, q, skip, key)
  {
    hide Flat, Cum, Splits, LeftSafe, RightSafe, LeftCount, RightOf, WithNew, Fits, Bounded, Used, RoundUp, Lens, RightFits, TableAt;
    HalvedHasPlace(node, at, key);
    ClearIsSafe(node, at, key);
  }

  /** What stands in the way. */
  lemma NotClear(node: Node, q: int, skip: nat, key: seq<Byte>)
    requires Behind(node, q, skip, key) && !Clear(node, q, skip, key)
    ensures var p, n := PlanOf(node, q, skip, key), |node.keys|;
            || (HEADER_SIZE + p.before + p.bytes + p.after > p.table + 2 * skip && p.table + 2 * n > HEADER_SIZE + p.before + p.bytes)
            || (q > skip && HEADER_SIZE + p.before + p.bytes + p.after <= p.table + 2 * skip
                && p.table + 2 * skip < p.outTable < p.table + 2 * n)
  {
    hide Flat, RoundUp, Cum, Bytes, RightOf, Fits, Bounded, Inside, TableAt, ValuesAt, RightFits;
    Sizes(node, q, skip, key);
  }

  /** An unsafe split loses data: for keys of these lengths there are bytes that are not split correctly. */
  lemma UnsafeLoses(lens: seq<nat>, at: nat, length: nat, leaf: bool)
    requires Splits(lens, at, length) && LeftSafe(lens, at, length) && !RightSafe(lens, at, length, leaf)
    ensures !AlwaysKept(lens, at, length, leaf)
  {
    hide Flat, Cum, Splits, LeftSafe, RightSafe, LeftCount, RightOf, Fits, Bounded, Clear, Used, RoundUp, Lens, RightFits, TableAt, Shows,
      RightBytes, PlanOf, MadeOf, RightNode, PageOf, Halved;
    var node, b, key := PageToSplit(lens, at, length, leaf, 1);
    var node', b', _ := PageToSplit(lens, at, length, leaf, 2);
    var out := Out(node, at, key);
    UnsafeIsBehind(node, at, key);
    UnsafeIsBehind(node', at, key);
    var q, skip := AtRight(at, out, leaf), Skip(at, out, leaf);
    var p := PlanOf(node, q, skip, key);
    NotClear(node, q, skip, key);
    if KeepsRight(b, node, at, key, ZERO_CELL, ZERO_CELL) && KeepsRight(b', node', at, key, ZERO_CELL, ZERO_CELL) {
      RightNodeIs(node, at, key, ZERO_CELL, ZERO_CELL);
      RightNodeIs(node', at, key, ZERO_CELL, ZERO_CELL);
      Sizes(node, q, skip, key);
      if HEADER_SIZE + p.before + p.bytes + p.after > p.table + 2 * skip && p.table + 2 * |node.keys| > HEADER_SIZE + p.before + p.bytes {
        var x := if HEADER_SIZE + p.before + p.bytes > p.table + 2 * skip then HEADER_SIZE + p.before + p.bytes else p.table + 2 * skip;
        KeysCross(b, b', ZERO_CELL, node, node', q, skip, key, ZERO_CELL, x);
      } else {
        LengthsCross(b, ZERO_CELL, node, q, skip, key, ZERO_CELL);
      }
    }
  }

  lemma SafeKeeps(lens: seq<nat>, at: nat, length: nat, leaf: bool)
    requires Splits(lens, at, length) && LeftSafe(lens, at, length) && RightSafe(lens, at, length, leaf)
    ensures AlwaysKept(lens, at, length, leaf)
  {
    hide Flat, Cum, Splits, LeftSafe, RightSafe, LeftCount, RightOf, Bounded, Clear, Used, RoundUp, RightFits, TableAt,
      RightBytes, PlanOf, RightNode, SplitBytes, RightPlace;
    forall b: seq<Byte>, node: Node, key: seq<Byte>, value: Cell, otherLink: Cell | Case(b, node, key, lens, length, leaf)
      ensures KeepsRight(b, node, at, key, value, otherLink)
    {
      HalvedHasPlace(node, at, key);
      SafeSplitArrives(b, node, at, key, value, otherLink);
    }
  }

  /** A full page whose left half fits is split correctly, whatever its bytes, exactly when the split is safe. */
  lemma SplitsFaithfullyIff(lens: seq<nat>, at: nat, length: nat, leaf: bool)
    requires Splits(lens, at, length) && LeftSafe(lens, at, length)
    ensures AlwaysKept(lens, at, length, leaf) <==> RightSafe(lens, at, length, leaf)
  {
    hide AlwaysKept, LeftSafe, RightSafe;
    if RightSafe(lens, at, length, leaf) {
      SafeKeeps(lens, at, length, leaf);
    } else {
      UnsafeLoses(lens, at, length, leaf);
    }
  }

  // ---- an example ----

  /** The one-byte keys 1 to 88. */
  function Ones(): (keys: seq<seq<Byte>>)
    ensures |keys| == 88
  {
    seq(88, i requires 0 <= i < 88 => [i + 1 as Byte])
  }

  lemma OnesLens()
    ensures Lens(Ones()) == seq(88, i => 1)
  {
  }

  lemma {:induction false} OnesFlat(i: nat)
    requires i <= 88
    ensures Flat(Ones()[..i]) == seq(i, k requires 0 <= k < i => k + 1 as Byte)
  {
    if i > 0 {
      OnesFlat(i - 1);
      assert Ones()[..i] == Ones()[..i - 1] + [Ones()[i - 1]];
      FlatJoin(Ones()[..i - 1], [Ones()[i - 1]]);
      FlatOfOne(Ones()[i - 1]);
    }
  }

  /** A leaf full of one-byte keys gets a key of 256 bytes in its middle: whatever that key is, the split leaves
      the 45th key byte where the low byte of a length should be. */
  lemma LongKeyIsGarbled(b: seq<Byte>, node: Node, key: seq<Byte>, value: Cell, otherLink: Cell)
    requires Shows(b, node) && node.keys == Ones() && IsLeaf(node) && |key| == MAX_KEY_LENGTH
    ensures Halved(node, 44, key) && !KeepsRight(b, node, 44, key, value, otherLink)
  {
    hide Flat, Cum, Shows, RightOf, Bounded, Clear, RightFits, RightBytes, Table, WithNew, Bytes, Splits, LeftSafe, RightSafe, LeftCount, PlanOf,
      Inside, RightNode;
    OnesLens();
    LongKeyOverwritesLengths();
    ShownFits(b, node);
    UnsafeIsBehind(node, 44, key);
    RightNodeIs(node, 44, key, value, otherLink);
    ExampleSizes(node, key);
    GarbledByte(b, otherLink, node, 44, 44, key, value, 284);
    if KeepsRight(b, node, 44, key, value, otherLink) {
      var y := Landing(PlanOf(node, 44, 44, key), 44, 44, 284);
      ShownByte(RightBytes(b, otherLink, node, 44, 44, key, value), RightNode(node, 44, key, value, otherLink), y);
    }
  }

  lemma ShownFits(b: seq<Byte>, node: Node)
    requires Shows(b, node)
    ensures Fits(node) && |b| == BUFFER_SIZE && |node.keys| == |node.values|
  {
  }

  lemma ExampleSizes(node: Node, key: seq<Byte>)
    requires node.keys == Ones() && |key| == MAX_KEY_LENGTH && Behind(node, 44, 44, key)
    ensures var p, right := PlanOf(node, 44, 44, key), RightOf(node.keys, 44, 44, key);
            && p.table == 120 && p.before == 0 && p.bytes == 256 && p.after == 44 && p.total == 44
            && |Flat(right)| < 0x1_0000 && |right| == 45 && p.outTable == TableAt(|Flat(right)|)
            && Table(right, 0)[78] == 39 && |Flat(node.keys)| == 88 && Flat(node.keys)[44] == 45
  {
    hide Flat, Cum, Bytes, RightOf, Fits, Bounded, Inside, Clear, PlanOf, Table, ValuesAt;
    Sizes(node, 44, 44, key);
    OnesFlat(88);
    OnesFlat(44);
    assert Ones()[..88] == Ones();
    assert Cum(node.keys, 44) == 44 by { CumIs(node.keys, 44); }
    var right := RightOf(node.keys, 44, 44, key);
    EntryOfTable(right, 39);
    OnesFlat(83);
    CumOfRight(node.keys, 44, 44, key, 39);
    assert Cum(node.keys, 83) == 83 by { CumIs(node.keys, 83); }
  }

  // ---- and one with the shortest such key ----

  /** 84 keys of one byte, then four of two. */
  predicate ShortOnes(keys: seq<seq<Byte>>) {
    |keys| == 88 && forall i :: 0 <= i < 88 ==> |keys[i]| == if i < 84 then 1 else 2
  }

  lemma {:induction false} CumOfShort(keys: seq<seq<Byte>>, i: nat)
    requires ShortOnes(keys) && i <= 88
    ensures Cum(keys, i) == if i <= 84 then i else 2 * i - 84
  {
    if i > 0 {
      CumOfShort(keys, i - 1);
      CumStep(keys, i - 1);
    }
  }

  lemma ShortBytes(keys: seq<seq<Byte>>)
    requires ShortOnes(keys)
    ensures |Flat(keys)| == 92 && Flat(keys)[91] == keys[87][1]
  {
    hide Flat;
    CumOfShort(keys, 87);
    CumOfShort(keys, 88);
    assert keys == keys[..87] + [keys[87]] && keys[..88] == keys;
    FlatJoin(keys[..87], [keys[87]]);
    FlatOfOne(keys[87]);
    assert |Flat(keys[..87])| == 90 by { CumIs(keys, 87); }
    assert |Flat(keys)| == 92 by { CumIs(keys, 88); }
  }

  lemma ShortSizes(node: Node, key: seq<Byte>)
    requires ShortOnes(node.keys) && |key| == SHORT_KEY + 1 && Behind(node, 44, 44, key)
    ensures var p, right := PlanOf(node, 44, 44, key), RightOf(node.keys, 44, 44, key);
            && p.table == 120 && p.before == 0 && p.bytes == 133 && p.after == 48 && p.total == 44
            && |Flat(right)| < 0x1_0000 && |right| == 45 && p.outTable == TableAt(|Flat(right)|) && Table(right, 0)[2] == 134
  {
    hide Flat, Cum, Bytes, RightOf, Fits, Bounded, Inside, Clear, PlanOf, Table, ValuesAt;
    Sizes(node, 44, 44, key);
    CumOfShort(node.keys, 44);
    CumOfShort(node.keys, 45);
    ShortBytes(node.keys);
    var right := RightOf(node.keys, 44, 44, key);
    EntryOfTable(right, 1);
    CumOfRight(node.keys, 44, 44, key, 1);
  }

  lemma ShortIsHalved(b: seq<Byte>, node: Node, key: seq<Byte>)
    requires Shows(b, node) && ShortOnes(node.keys) && IsLeaf(node) && |key| == SHORT_KEY + 1
    ensures Halved(node, 44, key) && !RightSafe(Lens(node.keys), 44, |key|, true) && Out(node, 44, key) == 44
  {
    hide Shows, LeftSafe, RightSafe;
    ShownFits(b, node);
    LongerKeyIsLost(Lens(node.keys));
  }

  /** A leaf of such keys gets one of 133 bytes in its middle: the last byte of its last key ends up where the low
      byte of a length, 134, should be. */
  lemma LongerKeyIsGarbled(b: seq<Byte>, node: Node, key: seq<Byte>, value: Cell, otherLink: Cell)
    requires Shows(b, node) && ShortOnes(node.keys) && IsLeaf(node) && |key| == SHORT_KEY + 1 && node.keys[87][1] != 134
    ensures Halved(node, 44, key) && !KeepsRight(b, node, 44, key, value, otherLink)
  {
    hide Flat, Cum, Shows, RightOf, Bounded, Clear, RightFits, RightBytes, Table, WithNew, Bytes, Splits, LeftSafe, RightSafe, LeftCount, PlanOf,
      Inside, RightNode, Halved;
    ShownFits(b, node);
    ShortIsHalved(b, node, key);
    UnsafeIsBehind(node, 44, key);
    RightNodeIs(node, 44, key, value, otherLink);
    ShortSizes(node, key);
    ShortBytes(node.keys);
    GarbledByte(b, otherLink, node, 44, 44, key, value, 208);
    if KeepsRight(b, node, 44, key, value, otherLink) {
      var y := Landing(PlanOf(node, 44, 44, key), 44, 44, 208);
      ShownByte(RightBytes(b, otherLink, node, 44, 44, key, value), RightNode(node, 44, key, value, otherLink), y);
    }
  }

  lemma CumIs(keys: seq<seq<Byte>>, i: nat)
    requires i <= |keys|
    ensures Cum(keys, i) == |Flat(keys[..i])|
  {
  }
}
