/** The bytes of a tree page (BPlusTree.h): links, counts, packed keys, table of lengths, values. */
module NodeBytes {
  import opened NodeLayout

  type Cell = s: seq<Byte> | |s| == 8 witness [0, 0, 0, 0, 0, 0, 0, 0]  // a 64-bit link or value

  /** A page's contents, apart from how they are packed. */
  datatype Node = Node(left: Cell, right: Cell, overflow: Cell, keys: seq<seq<Byte>>, values: seq<Cell>)

  /** One 64-bit word beyond the page: the split copies one entry too many at the end of its tables. */
  const BUFFER_SIZE: nat := NODE_SIZE + 8

  const COUNT_AT: nat := 24
  const LENGTH_AT: nat := 26

  /** BPLUSTREE_NULL as it is stored. */
  const NULL_CELL: Cell := [255, 255, 255, 255, 255, 255, 255, 255]

  // ---- Encodings ----

  function Two(x: nat): (r: seq<Byte>)
    requires x < 0x1_0000
    ensures |r| == 2
  {
    [x % 256, x / 256]
  }

  function Number(s: seq<Byte>): (r: nat)
    requires |s| == 2
    ensures forall x: nat :: x < 0x1_0000 && s == Two(x) ==> r == x
  {
    var low: int, high: int := s[0], s[1];
    low + 256 * high
  }

  function Flat(keys: seq<seq<Byte>>): seq<Byte> {
    if keys == [] then [] else keys[0] + Flat(keys[1..])
  }

  /** The cumulative lengths of `keys` after `base` bytes of other keys. */
  function Table(keys: seq<seq<Byte>>, base: nat): (r: seq<Byte>)
    requires base + |Flat(keys)| < 0x1_0000
    ensures |r| == 2 * |keys|
  {
    if keys == [] then []
    else Two(base + |keys[0]|) + Table(keys[1..], base + |keys[0]|)
  }

  function Cells(values: seq<Cell>): (r: seq<Byte>)
    ensures |r| == 8 * |values|
  {
    if values == [] then [] else values[0] + Cells(values[1..])
  }

  lemma {:induction false} FlatJoin(a: seq<seq<Byte>>, b: seq<seq<Byte>>)
    ensures Flat(a + b) == Flat(a) + Flat(b)
  {
    if a == [] {
      assert a + b == b;
    } else {
      FlatJoin(a[1..], b);
      assert (a + b)[1..] == a[1..] + b;
    }
  }

  lemma {:induction false} TableJoin(a: seq<seq<Byte>>, b: seq<seq<Byte>>, base: nat)
    requires base + |Flat(a)| + |Flat(b)| < 0x1_0000
    ensures |Flat(a + b)| == |Flat(a)| + |Flat(b)|
    ensures Table(a + b, base) == Table(a, base) + Table(b, base + |Flat(a)|)
  {
    FlatJoin(a, b);
    if a == [] {
      assert a + b == b;
    } else {
      var rest := a[1..];
      assert (a + b)[0] == a[0] && (a + b)[1..] == rest + b;
      assert Flat(a) == a[0] + Flat(rest);
      TableJoin(rest, b, base + |a[0]|);
      TableStep(a, base);
      TableStep(a + b, base);
      Regroup(Two(base + |a[0]|), Table(rest, base + |a[0]|), Table(b, base + |Flat(a)|));
    }
  }

  lemma TableStep(keys: seq<seq<Byte>>, base: nat)
    requires keys != [] && base + |Flat(keys)| < 0x1_0000
    ensures |Flat(keys)| == |keys[0]| + |Flat(keys[1..])|
    ensures Table(keys, base) == Two(base + |keys[0]|) + Table(keys[1..], base + |keys[0]|)
  {
  }

  lemma Regroup(x: seq<Byte>, y: seq<Byte>, z: seq<Byte>)
    ensures x + (y + z) == x + y + z
  {
  }

  lemma {:induction false} CellsJoin(a: seq<Cell>, b: seq<Cell>)
    ensures Cells(a + b) == Cells(a) + Cells(b)
  {
    if a == [] {
      assert a + b == b;
    } else {
      CellsJoin(a[1..], b);
      assert (a + b)[1..] == a[1..] + b;
    }
  }

  lemma FlatOfOne(key: seq<Byte>)
    ensures Flat([key]) == key
  {
    assert Flat([key]) == key + Flat([]);
  }

  // ---- Regions of a buffer ----

  predicate At(b: seq<Byte>, off: nat, data: seq<Byte>) {
    off + |data| <= |b| && b[off..off + |data|] == data
  }

  lemma AtJoin(b: seq<Byte>, off: nat, x: seq<Byte>, y: seq<Byte>)
    ensures At(b, off, x + y) <==> At(b, off, x) && At(b, off + |x|, y)
  {
    if At(b, off, x + y) {
      assert x == (x + y)[..|x|] && y == (x + y)[|x|..];
      assert b[off..off + |x|] == b[off..off + |x + y|][..|x|];
      assert b[off + |x|..off + |x| + |y|] == b[off..off + |x + y|][|x|..];
    }
    if At(b, off, x) && At(b, off + |x|, y) {
      assert b[off..off + |x + y|] == b[off..off + |x|] + b[off + |x|..off + |x| + |y|];
    }
  }

  /** Three pieces in a row. */
  predicate Row(b: seq<Byte>, off: nat, x: seq<Byte>, y: seq<Byte>, z: seq<Byte>) {
    At(b, off, x) && At(b, off + |x|, y) && At(b, off + |x| + |y|, z)
  }

  lemma RowJoin(b: seq<Byte>, off: nat, x: seq<Byte>, y: seq<Byte>, z: seq<Byte>)
    ensures Row(b, off, x, y, z) <==> At(b, off, x + y + z)
  {
    hide At;
    AtJoin(b, off, x + y, z);
    AtJoin(b, off, x, y);
  }

  lemma RowKeeps(b: seq<Byte>, b': seq<Byte>, lo: nat, hi: nat, off: nat, x: seq<Byte>, y: seq<Byte>, z: seq<Byte>)
    requires SameOutside(b, b', lo, hi) && Row(b, off, x, y, z)
    requires off + |x| + |y| + |z| <= lo || hi <= off
    ensures Row(b', off, x, y, z)
  {
    hide At, SameOutside;
    SameKeeps(b, b', lo, hi, off, x);
    SameKeeps(b, b', lo, hi, off + |x|, y);
    SameKeeps(b, b', lo, hi, off + |x| + |y|, z);
  }

  /** What memmove leaves, overlapping or not. */
  function Moved(b: seq<Byte>, dst: nat, src: nat, n: nat): (r: seq<Byte>)
    requires dst + n <= |b| && src + n <= |b|
    ensures |r| == |b|
  {
    b[..dst] + b[src..src + n] + b[dst + n..]
  }

  lemma MoveTakes(b: seq<Byte>, dst: nat, src: nat, n: nat, data: seq<Byte>)
    requires dst + n <= |b| && src + n <= |b| && At(b, src, data) && n == |data|
    ensures At(Moved(b, dst, src, n), dst, data)
  {
  }

  lemma MoveKeeps(b: seq<Byte>, dst: nat, src: nat, n: nat, off: nat, data: seq<Byte>)
    requires dst + n <= |b| && src + n <= |b| && At(b, off, data)
    requires n == 0 || |data| == 0 || dst + n <= off || off + |data| <= dst
    ensures At(Moved(b, dst, src, n), off, data)
  {
    var r := Moved(b, dst, src, n);
    if n > 0 && |data| > 0 {
      assert forall i :: off <= i < off + |data| ==> r[i] == b[i];
    } else if n == 0 {
      assert r == b;
    }
  }

  /** What writing `data` at `dst` leaves. */
  function Written(b: seq<Byte>, dst: nat, data: seq<Byte>): (r: seq<Byte>)
    requires dst + |data| <= |b|
    ensures |r| == |b| && At(r, dst, data)
  {
    b[..dst] + data + b[dst + |data|..]
  }

  lemma WriteKeeps(b: seq<Byte>, dst: nat, put: seq<Byte>, off: nat, data: seq<Byte>)
    requires dst + |put| <= |b| && At(b, off, data)
    requires |put| == 0 || |data| == 0 || dst + |put| <= off || off + |data| <= dst
    ensures At(Written(b, dst, put), off, data)
  {
    var r := Written(b, dst, put);
    if |put| > 0 && |data| > 0 {
      assert forall i :: off <= i < off + |data| ==> r[i] == b[i];
    } else if |put| == 0 {
      assert r == b;
    }
  }

  /** Nothing outside [lo, hi) has changed. */
  ghost predicate SameOutside(b: seq<Byte>, b': seq<Byte>, lo: nat, hi: nat) {
    |b| == |b'| && forall x :: 0 <= x < |b| && (x < lo || hi <= x) ==> b'[x] == b[x]
  }

  lemma SameKeeps(b: seq<Byte>, b': seq<Byte>, lo: nat, hi: nat, off: nat, data: seq<Byte>)
    requires SameOutside(b, b', lo, hi) && At(b, off, data)
    requires |data| == 0 || off + |data| <= lo || hi <= off
    ensures At(b', off, data)
  {
    assert forall x :: off <= x < off + |data| ==> b'[x] == b[x];
  }

  lemma MoveSame(b: seq<Byte>, dst: nat, src: nat, n: nat, lo: nat, hi: nat)
    requires dst + n <= |b| && src + n <= |b| && (n == 0 || (lo <= dst && dst + n <= hi))
    ensures SameOutside(b, Moved(b, dst, src, n), lo, hi)
  {
    var r := Moved(b, dst, src, n);
    assert forall x :: 0 <= x < |b| && (x < dst || dst + n <= x) ==> r[x] == b[x];
  }

  lemma WriteSame(b: seq<Byte>, dst: nat, data: seq<Byte>, lo: nat, hi: nat)
    requires dst + |data| <= |b| && (data == [] || (lo <= dst && dst + |data| <= hi))
    ensures SameOutside(b, Written(b, dst, data), lo, hi)
  {
    var r := Written(b, dst, data);
    assert forall x :: 0 <= x < |b| && (x < dst || dst + |data| <= x) ==> r[x] == b[x];
  }

  lemma SameTrans(b0: seq<Byte>, b1: seq<Byte>, b2: seq<Byte>, lo: nat, hi: nat)
    requires SameOutside(b0, b1, lo, hi) && SameOutside(b1, b2, lo, hi)
    ensures SameOutside(b0, b2, lo, hi)
  {
  }

  // ---- Pages ----

  predicate Fits(node: Node) {
    && |node.keys| == |node.values|
    && (forall i :: 0 <= i < |node.keys| ==> MIN_KEY_LENGTH <= |node.keys[i]| <= MAX_KEY_LENGTH)
    && Used(|node.keys|, |Flat(node.keys)|) <= BUFFER_SIZE
  }

  /** Where the table of lengths and the values start. */
  function TableAt(bytes: nat): nat {
    RoundUp(HEADER_SIZE + bytes)
  }

  function ValuesAt(count: nat, bytes: nat): nat {
    TableAt(bytes) + 2 * count
  }

  /** The 28 bytes before the keys: three links and two counts. */
  function Head(node: Node, count: nat, bytes: nat): (r: seq<Byte>)
    requires count < 0x1_0000 && bytes < 0x1_0000
    ensures |r| == HEADER_SIZE
  {
    node.left + node.right + node.overflow + (Two(count) + Two(bytes))
  }

  /** The buffer holds the page `node`. */
  predicate Shows(b: seq<Byte>, node: Node) {
    && |b| == BUFFER_SIZE && Fits(node)
    && At(b, 0, Head(node, |node.keys|, |Flat(node.keys)|))
    && ShowsBody(b, node.keys, node.values)
  }

  predicate ShowsBody(b: seq<Byte>, keys: seq<seq<Byte>>, values: seq<Cell>)
    requires |Flat(keys)| < 0x1_0000
  {
    && At(b, HEADER_SIZE, Flat(keys))
    && At(b, TableAt(|Flat(keys)|), Table(keys, 0))
    && At(b, ValuesAt(|keys|, |Flat(keys)|), Cells(values))
  }

  // ---- Cumulative lengths ----

  function Cum(keys: seq<seq<Byte>>, i: nat): nat
    requires i <= |keys|
  {
    |Flat(keys[..i])|
  }

  lemma CumStep(keys: seq<seq<Byte>>, i: nat)
    requires i < |keys|
    ensures Cum(keys, i + 1) == Cum(keys, i) + |keys[i]|
  {
    assert keys[..i + 1] == keys[..i] + [keys[i]];
    FlatJoin(keys[..i], [keys[i]]);
    FlatOfOne(keys[i]);
  }

  lemma CumAll(keys: seq<seq<Byte>>, i: nat)
    requires i <= |keys|
    ensures Cum(keys, |keys|) == |Flat(keys)| && Cum(keys, i) <= |Flat(keys)|
    ensures |Flat(keys[i..])| == |Flat(keys)| - Cum(keys, i)
  {
    assert keys[..|keys|] == keys && keys[..i] + keys[i..] == keys;
    FlatJoin(keys[..i], keys[i..]);
  }

  function WithNew<T>(s: seq<T>, at: nat, x: T): seq<T>
    requires at <= |s|
  {
    s[..at] + [x] + s[at..]
  }

  function Without<T>(s: seq<T>, at: nat): seq<T>
    requires at < |s|
  {
    s[..at] + s[at + 1..]
  }

  lemma FlatOfInserted(keys: seq<seq<Byte>>, at: nat, key: seq<Byte>)
    requires at <= |keys|
    ensures Flat(WithNew(keys, at, key)) == Flat(keys[..at]) + key + Flat(keys[at..])
  {
    hide Flat;
    FlatAround(keys[..at], key, keys[at..]);
  }

  lemma CumOfInserted(keys: seq<seq<Byte>>, at: nat, key: seq<Byte>, i: nat)
    requires at <= |keys| && i <= |keys| + 1
    ensures Cum(WithNew(keys, at, key), i) == if i <= at then Cum(keys, i) else Cum(keys, i - 1) + |key|
  {
    var more := WithNew(keys, at, key);
    if i <= at {
      assert more[..i] == keys[..i];
    } else {
      assert more[..i] == WithNew(keys[..i - 1], at, key);
      FlatOfInserted(keys[..i - 1], at, key);
      assert keys[..i - 1][..at] + keys[..i - 1][at..] == keys[..i - 1];
      FlatJoin(keys[..i - 1][..at], keys[..i - 1][at..]);
    }
  }

  lemma FlatOfRemoved(keys: seq<seq<Byte>>, at: nat)
    requires at < |keys|
    ensures Flat(Without(keys, at)) == Flat(keys[..at]) + Flat(keys[at + 1..])
    ensures Flat(keys) == Flat(keys[..at]) + keys[at] + Flat(keys[at + 1..])
  {
    hide Flat;
    FlatJoin(keys[..at], keys[at + 1..]);
    RejoinAround(keys, at);
    FlatAround(keys[..at], keys[at], keys[at + 1..]);
  }

  lemma FlatAround(before: seq<seq<Byte>>, key: seq<Byte>, after: seq<seq<Byte>>)
    ensures Flat(before + [key] + after) == Flat(before) + key + Flat(after)
  {
    hide Flat;
    FlatJoin(before + [key], after);
    FlatJoin(before, [key]);
    FlatOfOne(key);
  }

  lemma Rejoin<T>(s: seq<T>, i: nat)
    requires i <= |s|
    ensures s[..i] + s[i..] == s
  {
  }

  lemma RejoinAround<T>(s: seq<T>, i: nat)
    requires i < |s|
    ensures s[..i] + [s[i]] + s[i + 1..] == s
  {
  }

  lemma CumOfRemoved(keys: seq<seq<Byte>>, at: nat, i: nat)
    requires at < |keys| && i < |keys|
    ensures Cum(Without(keys, at), i) == if i <= at then Cum(keys, i) else Cum(keys, i + 1) - |keys[at]|
  {
    var less := Without(keys, at);
    assert WithNew(less, at, keys[at]) == keys;
    if i <= at {
      CumOfInserted(less, at, keys[at], i);
    } else {
      CumOfInserted(less, at, keys[at], i + 1);
    }
  }

  /** The table, entry by entry. */
  predicate Entries(b: seq<Byte>, off: nat, keys: seq<seq<Byte>>, from: nat, to: nat)
    requires |Flat(keys)| < 0x1_0000 && to <= |keys|
  {
    forall i :: from <= i < to ==> EntryAt(b, off, keys, i)
  }

  predicate EntryAt(b: seq<Byte>, off: nat, keys: seq<seq<Byte>>, i: nat)
    requires i < |keys|
  {
    Cum(keys, i + 1) < 0x1_0000 && At(b, off + 2 * i, Two(Cum(keys, i + 1)))
  }

  lemma {:induction false} TableEntries(b: seq<Byte>, off: nat, keys: seq<seq<Byte>>)
    requires |Flat(keys)| < 0x1_0000
    ensures At(b, off, Table(keys, 0)) <==> off + 2 * |keys| <= |b| && Entries(b, off, keys, 0, |keys|)
    decreases |keys|
  {
    hide At, Two, Flat, Table, EntryAt;
    if keys == [] {
      EmptyTable(b, off, keys);
    } else {
      var front, key := FrontAndLast(keys);
      TableOfLast(b, off, front, key);
      EntryAtLast(b, off, front, key);
      TableEntries(b, off, front);
      EntriesLast(b, off, front, key);
    }
  }

  lemma EmptyTable(b: seq<Byte>, off: nat, keys: seq<seq<Byte>>)
    requires keys == []
    ensures |Flat(keys)| == 0 && (At(b, off, Table(keys, 0)) <==> off <= |b|)
  {
  }

  lemma FrontAndLast(keys: seq<seq<Byte>>) returns (front: seq<seq<Byte>>, key: seq<Byte>)
    requires keys != []
    ensures keys == front + [key] && |front| < |keys|
  {
    front, key := keys[..|keys| - 1], keys[|keys| - 1];
  }

  lemma EntryAtLast(b: seq<Byte>, off: nat, front: seq<seq<Byte>>, key: seq<Byte>)
    requires |Flat(front + [key])| < 0x1_0000
    ensures EntryAt(b, off, front + [key], |front|) <==> At(b, off + 2 * |front|, Two(|Flat(front + [key])|))
    ensures EntryAt(b, off, front + [key], |front|) ==> off + 2 * |front + [key]| <= |b|
  {
    hide Two, Flat;
    assert (front + [key])[..|front| + 1] == front + [key];
  }

  lemma TableOfLast(b: seq<Byte>, off: nat, front: seq<seq<Byte>>, key: seq<Byte>)
    requires |Flat(front + [key])| < 0x1_0000
    ensures |Flat(front)| <= |Flat(front + [key])|
    ensures At(b, off, Table(front + [key], 0))
            <==> At(b, off, Table(front, 0)) && At(b, off + 2 * |front|, Two(|Flat(front + [key])|))
  {
    hide At, Two, Flat, Table;
    FlatJoin(front, [key]);
    FlatOfOne(key);
    TableJoin(front, [key], 0);
    TableOfOne(key, |Flat(front)|);
    AtJoin(b, off, Table(front, 0), Two(|Flat(front + [key])|));
  }

  lemma TableOfOne(key: seq<Byte>, base: nat)
    requires base + |key| < 0x1_0000
    ensures |Flat([key])| == |key| && Table([key], base) == Two(base + |key|)
  {
    FlatOfOne(key);
    assert Table([key], base) == Two(base + |key|) + Table([], base + |key|);
  }

  lemma EntriesLast(b: seq<Byte>, off: nat, front: seq<seq<Byte>>, key: seq<Byte>)
    requires |Flat(front + [key])| < 0x1_0000 && |Flat(front)| < 0x1_0000
    ensures Entries(b, off, front + [key], 0, |front + [key]|)
            <==> Entries(b, off, front, 0, |front|) && EntryAt(b, off, front + [key], |front|)
  {
    hide Flat, Two, At;
    var n, keys := |front|, front + [key];
    forall i | 0 <= i < n ensures EntryAt(b, off, front, i) <==> EntryAt(b, off, keys, i) {
      assert front[..i + 1] == keys[..i + 1];
    }
  }
}
