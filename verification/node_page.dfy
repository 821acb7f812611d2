/** Edits of a tree page in place (BPlusTree.cpp): the same memmoves, in the same order. */
module NodePage {
  import opened NodeLayout
  import opened NodeBytes

  /** memmove within one buffer. */
  method Memmove(a: array<Byte>, dst: nat, src: nat, n: nat)
    requires dst + n <= a.Length && src + n <= a.Length
    modifies a
    ensures a[..] == Moved(old(a[..]), dst, src, n)
  {
    if dst <= src {
      for i := 0 to n
        invariant forall x {:trigger a[x]} :: 0 <= x < a.Length ==>
          a[x] == if dst <= x < dst + i then old(a[x - dst + src]) else old(a[x])
      {
        a[dst + i] := a[src + i];
      }
    } else {
      for i := n downto 0
        invariant forall x {:trigger a[x]} :: 0 <= x < a.Length ==>
          a[x] == if dst + i <= x < dst + n then old(a[x - dst + src]) else old(a[x])
      {
        a[dst + i] := a[src + i];
      }
    }
    MovedIs(old(a[..]), a[..], dst, src, n);
  }

  lemma MovedIs(was: seq<Byte>, now: seq<Byte>, dst: nat, src: nat, n: nat)
    requires dst + n <= |was| == |now| && src + n <= |was|
    requires forall x {:trigger now[x]} :: 0 <= x < |was| ==> now[x] == if dst <= x < dst + n then was[x - dst + src] else was[x]
    ensures now == Moved(was, dst, src, n)
  {
    assert now[dst..dst + n] == was[src..src + n];
    assert now[..dst] == was[..dst] && now[dst + n..] == was[dst + n..];
    RejoinThree(now, dst, dst + n);
  }

  lemma RejoinThree(s: seq<Byte>, i: nat, j: nat)
    requires i <= j <= |s|
    ensures s == s[..i] + s[i..j] + s[j..]
  {
  }

  /** memcpy from another object. */
  method Write(a: array<Byte>, dst: nat, data: seq<Byte>)
    requires dst + |data| <= a.Length
    modifies a
    ensures a[..] == Written(old(a[..]), dst, data)
  {
    for i := 0 to |data|
      invariant forall x {:trigger a[x]} :: 0 <= x < a.Length ==> a[x] == if dst <= x < dst + i then data[x - dst] else old(a[x])
    {
      a[dst + i] := data[i];
    }
    WrittenIs(old(a[..]), a[..], dst, data);
  }

  lemma WrittenIs(was: seq<Byte>, now: seq<Byte>, dst: nat, data: seq<Byte>)
    requires dst + |data| <= |was| == |now|
    requires forall x {:trigger now[x]} :: 0 <= x < |was| ==> now[x] == if dst <= x < dst + |data| then data[x - dst] else was[x]
    ensures now == Written(was, dst, data)
  {
    hide At;
    assert now[dst..dst + |data|] == data;
    assert now[..dst] == was[..dst] && now[dst + |data|..] == was[dst + |data|..];
    RejoinThree(now, dst, dst + |data|);
  }

  /** A 16-bit field. */
  method Get16(a: array<Byte>, off: nat) returns (x: nat)
    requires off + 2 <= a.Length
    ensures x == Number(a[off..off + 2])
  {
    var low: int, high: int := a[off], a[off + 1];
    x := low + 256 * high;
  }

  // ---- _InsertKey ----

  /** Moves the values up around a gap and puts the new one in. */
  method InsertValue(a: array<Byte>, values: nat, newValues: nat, index: nat, count: nat, value: Cell,
                     ghost before: seq<Byte>, ghost after: seq<Byte>)
    requires 8 * index == |before| && 8 * count == |before| + |after| && values <= newValues
    requires newValues + 8 * (count + 1) <= a.Length
    requires Row(a[..], values, before, [], after)
    modifies a
    ensures Row(a[..], newValues, before, value, after)
    ensures SameOutside(old(a[..]), a[..], newValues, newValues + 8 * (count + 1))
  {
    hide At, Moved, Written, SameOutside;
    ghost var b0, lo, hi := a[..], newValues, newValues + 8 * (count + 1);
    var up, from, n := newValues + 8 * (index + 1), values + 8 * index, 8 * (count - index);
    Memmove(a, up, from, n);
    ghost var b1 := a[..];
    MoveTakes(b0, up, from, n, after);
    MoveKeeps(b0, up, from, n, values, before);
    MoveSame(b0, up, from, n, lo, hi);
    Memmove(a, newValues, values, 8 * index);
    ghost var b2 := a[..];
    MoveTakes(b1, newValues, values, 8 * index, before);
    MoveKeeps(b1, newValues, values, 8 * index, up, after);
    MoveSame(b1, newValues, values, 8 * index, lo, hi);
    SameTrans(b0, b1, b2, lo, hi);
    Write(a, newValues + 8 * index, value);
    ghost var b3 := a[..];
    WriteKeeps(b2, newValues + 8 * index, value, newValues, before);
    WriteKeeps(b2, newValues + 8 * index, value, newValues + 8 * (index + 1), after);
    WriteSame(b2, newValues + 8 * index, value, lo, hi);
    SameTrans(b0, b2, b3, lo, hi);
  }

  /** Copies the lengths behind the new key to their places, raised by its length. */
  method RaiseLengths(a: array<Byte>, table: nat, newTable: nat, index: nat, count: nat, key: seq<Byte>,
                      ghost keys: seq<seq<Byte>>, ghost more: seq<seq<Byte>>)
    requires count == |keys| && index <= count && table <= newTable && newTable + 2 * (count + 1) <= a.Length
    requires |Flat(keys)| + |key| < 0x1_0000
    requires more == WithNew(keys, index, key) && |more| == count + 1 && |Flat(more)| == |Flat(keys)| + |key|
    requires Entries(a[..], table, keys, 0, count)
    modifies a
    ensures Entries(a[..], table, keys, 0, index)
    ensures Entries(a[..], newTable, more, index + 1, count + 1)
    ensures SameOutside(old(a[..]), a[..], newTable, newTable + 2 * (count + 1))
  {
    hide At, Written, SameOutside, Cum, WithNew, EntryAt, Entries, Flat, Number, Two;
    ghost var lo, hi, b0 := newTable, newTable + 2 * (count + 1), a[..];
    SameRefl(b0, lo, hi);
    NoEntries(b0, newTable, more, count + 1);
    var i := count + 1;
    while i > index + 1
      invariant index + 1 <= i <= count + 1
      invariant Entries(a[..], table, keys, 0, i - 1)
      invariant Entries(a[..], newTable, more, i, count + 1)
      invariant SameOutside(b0, a[..], lo, hi)
    {
      i := i - 1;
      ghost var b := a[..];
      LastEntry(b, table, keys, i);
      ReadEntry(b, table, keys, i - 1);
      var length := Get16(a, table + 2 * (i - 1));
      CumOfInserted(keys, index, key, i + 1);
      EntryFits(more, i);
      Write(a, newTable + 2 * i, Two(length + |key|));
      WriteEntry(b, newTable, more, i, lo, hi);
      SameTrans(b0, b, a[..], lo, hi);
      KeepEntries(b, newTable + 2 * i, Two(length + |key|), table, keys, 0, i - 1);
      KeepEntries(b, newTable + 2 * i, Two(length + |key|), newTable, more, i + 1, count + 1);
      FirstEntry(a[..], newTable, more, i, count + 1);
    }
  }

  /** Moves the table of lengths up around a gap, raises the lengths behind it, and puts the new one in. */
  method InsertLength(a: array<Byte>, table: nat, newTable: nat, index: nat, count: nat, key: seq<Byte>,
                      ghost keys: seq<seq<Byte>>) returns (keyStart: nat)
    requires count == |keys| && index <= count && table <= newTable && newTable + 2 * (count + 1) <= a.Length
    requires |Flat(keys)| + |key| < 0x1_0000
    requires At(a[..], table, Table(keys, 0))
    modifies a
    ensures keyStart == Cum(keys, index)
    ensures |Flat(WithNew(keys, index, key))| == |Flat(keys)| + |key|
    ensures At(a[..], newTable, Table(WithNew(keys, index, key), 0))
    ensures SameOutside(old(a[..]), a[..], newTable, newTable + 2 * (count + 1))
  {
    hide At, Moved, Written, SameOutside, Cum, WithNew, EntryAt, Entries, Flat, Number, Two, Table;
    ghost var more, lo, hi := WithNew(keys, index, key), newTable, newTable + 2 * (count + 1);
    ghost var b0 := a[..];
    LengthsFit(keys, index, key);
    TableEntries(b0, table, keys);
    RaiseLengths(a, table, newTable, index, count, key, keys, more);
    ghost var b := a[..];
    Memmove(a, newTable, table, 2 * index);
    ghost var b1 := a[..];
    MoveSame(b, newTable, table, 2 * index, lo, hi);
    SameTrans(b0, b, b1, lo, hi);
    MoveEntries(b, newTable, table, index, keys, more, key);
    SkipEntries(b, newTable, table, 2 * index, newTable, more, index + 1, count + 1);
    keyStart := 0;
    CumOfInserted(keys, index, key, index);
    if index > 0 {
      LastEntry(b1, newTable, more, index);
      ReadEntry(b1, newTable, more, index - 1);
      keyStart := Get16(a, newTable + 2 * (index - 1));
    } else {
      CumOfNone(keys);
    }
    CumOfInserted(keys, index, key, index + 1);
    EntryFits(more, index);
    Write(a, newTable + 2 * index, Two(|key| + keyStart));
    CumOfKey(keys, index, key);
    WriteEntry(b1, newTable, more, index, lo, hi);
    SameTrans(b0, b1, a[..], lo, hi);
    KeepEntries(b1, newTable + 2 * index, Two(|key| + keyStart), newTable, more, 0, index);
    KeepEntries(b1, newTable + 2 * index, Two(|key| + keyStart), newTable, more, index + 1, count + 1);
    JoinEntries(a[..], newTable, more, index);
    TableEntries(a[..], newTable, more);
  }

  lemma CumOfKey(keys: seq<seq<Byte>>, index: nat, key: seq<Byte>)
    requires index <= |keys|
    ensures |WithNew(keys, index, key)| == |keys| + 1
    ensures Cum(WithNew(keys, index, key), index + 1) == Cum(keys, index) + |key|
  {
    CumOfInserted(keys, index, key, index + 1);
  }

  lemma NoEntries(b: seq<Byte>, off: nat, keys: seq<seq<Byte>>, at: nat)
    requires |Flat(keys)| < 0x1_0000 && at <= |keys|
    ensures Entries(b, off, keys, at, at)
  {
  }

  lemma LastEntry(b: seq<Byte>, off: nat, keys: seq<seq<Byte>>, to: nat)
    requires |Flat(keys)| < 0x1_0000 && 0 < to <= |keys| && Entries(b, off, keys, 0, to)
    ensures EntryAt(b, off, keys, to - 1) && Entries(b, off, keys, 0, to - 1)
  {
  }

  lemma FirstEntry(b: seq<Byte>, off: nat, keys: seq<seq<Byte>>, at: nat, to: nat)
    requires |Flat(keys)| < 0x1_0000 && at < to <= |keys|
    requires EntryAt(b, off, keys, at) && Entries(b, off, keys, at + 1, to)
    ensures Entries(b, off, keys, at, to)
  {
  }

  lemma JoinEntries(b: seq<Byte>, off: nat, keys: seq<seq<Byte>>, at: nat)
    requires |Flat(keys)| < 0x1_0000 && at < |keys| && Entries(b, off, keys, 0, at)
    requires EntryAt(b, off, keys, at) && Entries(b, off, keys, at + 1, |keys|)
    ensures Entries(b, off, keys, 0, |keys|)
  {
  }

  lemma KeepEntries(b: seq<Byte>, dst: nat, data: seq<Byte>, off: nat, keys: seq<seq<Byte>>, from: nat, to: nat)
    requires |Flat(keys)| < 0x1_0000 && to <= |keys| && Entries(b, off, keys, from, to) && dst + |data| <= |b|
    requires from >= to || dst + |data| <= off + 2 * from || off + 2 * to <= dst
    ensures Entries(Written(b, dst, data), off, keys, from, to)
  {
    hide EntryAt, Written, Flat;
    forall i | from <= i < to ensures EntryAt(Written(b, dst, data), off, keys, i) {
      KeepEntry(b, dst, data, off, keys, i);
    }
  }

  lemma SkipEntries(b: seq<Byte>, dst: nat, src: nat, n: nat, off: nat, keys: seq<seq<Byte>>, from: nat, to: nat)
    requires |Flat(keys)| < 0x1_0000 && to <= |keys| && Entries(b, off, keys, from, to)
    requires dst + n <= |b| && src + n <= |b|
    requires from >= to || dst + n <= off + 2 * from || off + 2 * to <= dst
    ensures Entries(Moved(b, dst, src, n), off, keys, from, to)
  {
    hide EntryAt, Moved, Flat;
    forall i | from <= i < to ensures EntryAt(Moved(b, dst, src, n), off, keys, i) {
      SkipEntry(b, dst, src, n, off, keys, i);
    }
  }

  lemma MoveEntries(b: seq<Byte>, dst: nat, src: nat, n: nat, keys: seq<seq<Byte>>, more: seq<seq<Byte>>, key: seq<Byte>)
    requires |Flat(keys)| < 0x1_0000 && n <= |keys| && Entries(b, src, keys, 0, n)
    requires dst + 2 * n <= |b| && src + 2 * n <= |b|
    requires more == WithNew(keys, n, key) && |more| == |keys| + 1 && |Flat(more)| < 0x1_0000
    ensures Entries(Moved(b, dst, src, 2 * n), dst, more, 0, n)
  {
    hide EntryAt, Moved, Flat, Cum, WithNew;
    var r := Moved(b, dst, src, 2 * n);
    forall i | 0 <= i < n ensures EntryAt(r, dst, more, i) {
      MoveEntry(b, dst, src, n, keys, i);
      CumOfInserted(keys, n, key, i + 1);
      SameEntry(r, dst, keys, i, more, i);
    }
  }

  lemma LengthsFit(keys: seq<seq<Byte>>, index: nat, key: seq<Byte>)
    requires index <= |keys|
    ensures |WithNew(keys, index, key)| == |keys| + 1
    ensures |Flat(WithNew(keys, index, key))| == |Flat(keys)| + |key|
  {
    var more := WithNew(keys, index, key);
    CumAll(more, |more|);
    CumOfInserted(keys, index, key, |more|);
    CumAll(keys, |keys|);
  }

  lemma CumOfNone(keys: seq<seq<Byte>>)
    ensures Cum(keys, 0) == 0
  {
  }

  lemma EntryFits(keys: seq<seq<Byte>>, i: nat)
    requires i < |keys|
    ensures Cum(keys, i + 1) <= |Flat(keys)|
  {
    CumAll(keys, i + 1);
  }

  lemma ReadEntry(b: seq<Byte>, off: nat, keys: seq<seq<Byte>>, i: nat)
    requires i < |keys| && EntryAt(b, off, keys, i)
    ensures off + 2 * i + 2 <= |b| && Number(b[off + 2 * i..off + 2 * i + 2]) == Cum(keys, i + 1)
  {
  }

  lemma WriteEntry(b: seq<Byte>, off: nat, keys: seq<seq<Byte>>, i: nat, lo: nat, hi: nat)
    requires i < |keys| && Cum(keys, i + 1) < 0x1_0000 && off + 2 * i + 2 <= |b|
    requires lo <= off + 2 * i && off + 2 * i + 2 <= hi
    ensures EntryAt(Written(b, off + 2 * i, Two(Cum(keys, i + 1))), off, keys, i)
    ensures SameOutside(b, Written(b, off + 2 * i, Two(Cum(keys, i + 1))), lo, hi)
  {
    WriteSame(b, off + 2 * i, Two(Cum(keys, i + 1)), lo, hi);
  }

  lemma KeepEntry(b: seq<Byte>, dst: nat, data: seq<Byte>, off: nat, keys: seq<seq<Byte>>, i: nat)
    requires i < |keys| && EntryAt(b, off, keys, i) && dst + |data| <= |b|
    requires dst + |data| <= off + 2 * i || off + 2 * i + 2 <= dst
    ensures EntryAt(Written(b, dst, data), off, keys, i)
  {
    WriteKeeps(b, dst, data, off + 2 * i, Two(Cum(keys, i + 1)));
  }

  lemma SkipEntry(b: seq<Byte>, dst: nat, src: nat, n: nat, off: nat, keys: seq<seq<Byte>>, i: nat)
    requires i < |keys| && EntryAt(b, off, keys, i) && dst + n <= |b| && src + n <= |b|
    requires dst + n <= off + 2 * i || off + 2 * i + 2 <= dst
    ensures EntryAt(Moved(b, dst, src, n), off, keys, i)
  {
    MoveKeeps(b, dst, src, n, off + 2 * i, Two(Cum(keys, i + 1)));
  }

  /** An entry that a move of `n` whole entries carries along. */
  lemma MoveEntry(b: seq<Byte>, dst: nat, src: nat, n: nat, keys: seq<seq<Byte>>, i: nat)
    requires i < n && i < |keys| && EntryAt(b, src, keys, i) && dst + 2 * n <= |b| && src + 2 * n <= |b|
    ensures EntryAt(Moved(b, dst, src, 2 * n), dst, keys, i)
  {
    var r := Moved(b, dst, src, 2 * n);
    assert r[dst + 2 * i] == b[src + 2 * i] && r[dst + 2 * i + 1] == b[src + 2 * i + 1];
    assert b[src + 2 * i..src + 2 * i + 2] == Two(Cum(keys, i + 1));
    assert r[dst + 2 * i..dst + 2 * i + 2] == b[src + 2 * i..src + 2 * i + 2];
  }

  lemma SameEntry(b: seq<Byte>, off: nat, keys: seq<seq<Byte>>, i: nat, keys': seq<seq<Byte>>, i': nat)
    requires i < |keys| && i' < |keys'| && EntryAt(b, off, keys, i) && Cum(keys, i + 1) == Cum(keys', i' + 1)
    requires i == i'
    ensures EntryAt(b, off, keys', i')
  {
  }

  /** Opens a gap among the packed keys and copies the new key into it. */
  method InsertBytes(a: array<Byte>, keys: nat, keyStart: nat, total: nat, key: seq<Byte>,
                     ghost before: seq<Byte>, ghost after: seq<Byte>)
    requires keyStart == |before| && total == |before| + |after| && keys + total + |key| <= a.Length
    requires Row(a[..], keys, before, [], after)
    modifies a
    ensures Row(a[..], keys, before, key, after)
    ensures SameOutside(old(a[..]), a[..], keys, keys + total + |key|)
  {
    hide At, Moved, Written, SameOutside;
    ghost var b0, lo, hi := a[..], keys, keys + total + |key|;
    var length := keyStart + |key|;
    var size := total + |key| - length;
    if size > 0 {
      Memmove(a, keys + length, keys + length - |key|, size);
      MoveTakes(b0, keys + length, keys + length - |key|, size, after);
      MoveKeeps(b0, keys + length, keys + length - |key|, size, keys, before);
      MoveSame(b0, keys + length, keys + length - |key|, size, lo, hi);
    } else {
      NothingAt(b0, keys + length, after);
      SameRefl(b0, lo, hi);
    }
    ghost var b1 := a[..];
    Write(a, keys + keyStart, key);
    WriteKeeps(b1, keys + keyStart, key, keys, before);
    WriteKeeps(b1, keys + keyStart, key, keys + length, after);
    WriteSame(b1, keys + keyStart, key, lo, hi);
    SameTrans(b0, b1, a[..], lo, hi);
  }

  lemma NothingAt(b: seq<Byte>, off: nat, data: seq<Byte>)
    requires data == [] && off <= |b|
    ensures At(b, off, data)
  {
  }

  lemma SameRefl(b: seq<Byte>, lo: nat, hi: nat)
    ensures SameOutside(b, b, lo, hi)
  {
  }

  /** `node` with one more pair. */
  function WithPair(node: Node, index: nat, key: seq<Byte>, value: Cell): (r: Node)
    requires index <= |node.keys| == |node.values|
    ensures |r.keys| == |node.keys| + 1 == |r.values|
  {
    node.(keys := WithNew(node.keys, index, key), values := WithNew(node.values, index, value))
  }

  /** The counts in the header, as the source reads them. */
  method Counts(a: array<Byte>, ghost node: Node) returns (count: nat, bytes: nat)
    requires Shows(a[..], node)
    ensures count == |node.keys| && bytes == |Flat(node.keys)|
  {
    ghost var links := node.left + node.right + node.overflow;
    AtJoin(a[..], 0, links, Two(|node.keys|) + Two(|Flat(node.keys)|));
    AtJoin(a[..], COUNT_AT, Two(|node.keys|), Two(|Flat(node.keys)|));
    count := Get16(a, COUNT_AT);
    bytes := Get16(a, LENGTH_AT);
  }

  method SetCounts(a: array<Byte>, count: nat, bytes: nat, ghost node: Node)
    requires Shows(a[..], node) && count < 0x1_0000 && bytes < 0x1_0000
    modifies a
    ensures At(a[..], 0, Head(node, count, bytes))
    ensures SameOutside(old(a[..]), a[..], COUNT_AT, HEADER_SIZE)
  {
    hide Two, SameOutside, At, Flat, Written;
    ghost var b0, links := a[..], node.left + node.right + node.overflow;
    AtJoin(b0, 0, links, Two(|node.keys|) + Two(|Flat(node.keys)|));
    Write(a, COUNT_AT, Two(count));
    ghost var b1 := a[..];
    Write(a, LENGTH_AT, Two(bytes));
    WriteKeeps(b1, LENGTH_AT, Two(bytes), COUNT_AT, Two(count));
    WriteSame(b0, COUNT_AT, Two(count), COUNT_AT, HEADER_SIZE);
    WriteSame(b1, LENGTH_AT, Two(bytes), COUNT_AT, HEADER_SIZE);
    SameTrans(b0, b1, a[..], COUNT_AT, HEADER_SIZE);
    SameKeeps(b0, a[..], COUNT_AT, HEADER_SIZE, 0, links);
    AtJoin(a[..], COUNT_AT, Two(count), Two(bytes));
    AtJoin(a[..], 0, links, Two(count) + Two(bytes));
  }

  /** The page with its new pair: values first, then the table of lengths, then the keys. */
  method InsertKey(a: array<Byte>, index: nat, key: seq<Byte>, value: Cell, ghost node: Node)
    requires Shows(a[..], node)
    requires MIN_KEY_LENGTH <= |key| <= MAX_KEY_LENGTH
    requires Used(|node.keys| + 1, |Flat(node.keys)| + |key|) <= NODE_SIZE
    modifies a
    ensures index > |node.keys| ==> a[..] == old(a[..])
    ensures index <= |node.keys| ==> Shows(a[..], WithPair(node, index, key, value))
    ensures SameOutside(old(a[..]), a[..], COUNT_AT, NODE_SIZE)
  {
    hide At, SameOutside, Cum, WithNew, Flat, Table, Cells, Shows, WithPair, TableAt, Head;
    var count, bytes := Counts(a, node);
    if index > count {
      SameRefl(a[..], COUNT_AT, NODE_SIZE);
      return;
    }
    ghost var b0 := a[..];
    ShowsFits(b0, node);
    InsertFits(node, index, key, value);
    var values, table := ValuesAt(count, bytes), TableAt(bytes);
    SetCounts(a, count + 1, bytes + |key|, node);
    ghost var b1 := a[..];
    var newValues, newTable := ValuesAt(count + 1, bytes + |key|), TableAt(bytes + |key|);
    HeaderKept(b0, b1, node);
    ValuesRow(b1, ValuesAt(count, bytes), node.values, index);
    InsertBody(a, table, newTable, index, count, bytes, key, value, node.keys, node.values);
    ghost var b2 := a[..];
    SameKeeps(b1, b2, HEADER_SIZE, NODE_SIZE, 0, Head(node, count + 1, bytes + |key|));
    InsertShows(b2, node, index, key, value);
    SameWider(b0, b1, COUNT_AT, HEADER_SIZE, COUNT_AT, NODE_SIZE);
    SameWider(b1, b2, HEADER_SIZE, NODE_SIZE, COUNT_AT, NODE_SIZE);
    SameTrans(b0, b1, b2, COUNT_AT, NODE_SIZE);
  }

  /** Everything behind the header. */
  method InsertBody(a: array<Byte>, table: nat, newTable: nat, index: nat, count: nat, bytes: nat, key: seq<Byte>,
                    value: Cell, ghost keys: seq<seq<Byte>>, ghost values: seq<Cell>)
    requires index <= count == |keys| == |values| && bytes == |Flat(keys)| && bytes + |key| < 0x1_0000
    requires HEADER_SIZE + bytes <= table <= newTable && HEADER_SIZE + bytes + |key| <= newTable
    requires newTable + 10 * (count + 1) <= NODE_SIZE <= a.Length
    requires At(a[..], HEADER_SIZE, Flat(keys)) && At(a[..], table, Table(keys, 0))
    requires Row(a[..], table + 2 * count, Cells(values[..index]), [], Cells(values[index..]))
    modifies a
    ensures |Flat(WithNew(keys, index, key))| == |Flat(keys)| + |key|
    ensures Row(a[..], HEADER_SIZE, Flat(keys[..index]), key, Flat(keys[index..]))
    ensures At(a[..], newTable, Table(WithNew(keys, index, key), 0))
    ensures Row(a[..], newTable + 2 * (count + 1), Cells(values[..index]), value, Cells(values[index..]))
    ensures SameOutside(old(a[..]), a[..], HEADER_SIZE, NODE_SIZE)
  {
    hide Row, At, SameOutside, Cum, WithNew, Flat, Table, Cells;
    ghost var b0, front, rest := a[..], Cells(values[..index]), Cells(values[index..]);
    var newValues := newTable + 2 * (count + 1);
    InsertValue(a, table + 2 * count, newValues, index, count, value, front, rest);
    ghost var b1, lo, hi := a[..], newValues, newValues + 8 * (count + 1);
    SameKeeps(b0, b1, lo, hi, HEADER_SIZE, Flat(keys));
    SameKeeps(b0, b1, lo, hi, table, Table(keys, 0));
    SameWider(b0, b1, lo, hi, HEADER_SIZE, NODE_SIZE);
    var keyStart := InsertLength(a, table, newTable, index, count, key, keys);
    ghost var b2 := a[..];
    lo, hi := newTable, newTable + 2 * (count + 1);
    SameKeeps(b1, b2, lo, hi, HEADER_SIZE, Flat(keys));
    RowKeeps(b1, b2, lo, hi, newValues, front, value, rest);
    SameWider(b1, b2, lo, hi, HEADER_SIZE, NODE_SIZE);
    KeysRow(b2, HEADER_SIZE, keys, index);
    InsertBytes(a, HEADER_SIZE, keyStart, bytes, key, Flat(keys[..index]), Flat(keys[index..]));
    ghost var b3 := a[..];
    lo, hi := HEADER_SIZE, HEADER_SIZE + bytes + |key|;
    SameKeeps(b2, b3, lo, hi, newTable, Table(WithNew(keys, index, key), 0));
    RowKeeps(b2, b3, lo, hi, newValues, front, value, rest);
    SameWider(b2, b3, lo, hi, HEADER_SIZE, NODE_SIZE);
    SameTrans(b0, b1, b2, HEADER_SIZE, NODE_SIZE);
    SameTrans(b0, b2, b3, HEADER_SIZE, NODE_SIZE);
  }

  lemma ValuesRow(b: seq<Byte>, off: nat, values: seq<Cell>, i: nat)
    requires i <= |values| && At(b, off, Cells(values))
    ensures Row(b, off, Cells(values[..i]), [], Cells(values[i..]))
  {
    hide At, Row, Cells;
    Rejoin(values, i);
    CellsJoin(values[..i], values[i..]);
    GapRow(b, off, Cells(values[..i]), Cells(values[i..]));
  }

  lemma KeysRow(b: seq<Byte>, off: nat, keys: seq<seq<Byte>>, i: nat)
    requires i <= |keys| && At(b, off, Flat(keys))
    ensures Row(b, off, Flat(keys[..i]), [], Flat(keys[i..]))
    ensures |Flat(keys[..i])| == Cum(keys, i) && |Flat(keys[i..])| == |Flat(keys)| - Cum(keys, i)
  {
    hide At, Row, Flat;
    Rejoin(keys, i);
    FlatJoin(keys[..i], keys[i..]);
    GapRow(b, off, Flat(keys[..i]), Flat(keys[i..]));
  }

  lemma ShowsFits(b: seq<Byte>, node: Node)
    requires Shows(b, node)
    ensures |b| == BUFFER_SIZE && Fits(node)
  {
  }

  lemma SameWider(b: seq<Byte>, b': seq<Byte>, lo: nat, hi: nat, lo': nat, hi': nat)
    requires SameOutside(b, b', lo, hi) && lo' <= lo && hi <= hi'
    ensures SameOutside(b, b', lo', hi')
  {
  }

  /** Behind the header nothing has changed. */
  lemma HeaderKept(b: seq<Byte>, b': seq<Byte>, node: Node)
    requires Shows(b, node) && SameOutside(b, b', COUNT_AT, HEADER_SIZE)
    ensures At(b', HEADER_SIZE, Flat(node.keys))
    ensures At(b', TableAt(|Flat(node.keys)|), Table(node.keys, 0))
    ensures At(b', ValuesAt(|node.keys|, |Flat(node.keys)|), Cells(node.values))
  {
    hide At, Table, Cells, Flat, SameOutside;
    var bytes := |Flat(node.keys)|;
    SameKeeps(b, b', COUNT_AT, HEADER_SIZE, HEADER_SIZE, Flat(node.keys));
    SameKeeps(b, b', COUNT_AT, HEADER_SIZE, TableAt(bytes), Table(node.keys, 0));
    SameKeeps(b, b', COUNT_AT, HEADER_SIZE, ValuesAt(|node.keys|, bytes), Cells(node.values));
  }

  lemma InsertFits(node: Node, index: nat, key: seq<Byte>, value: Cell)
    requires Fits(node) && index <= |node.keys| && MIN_KEY_LENGTH <= |key| <= MAX_KEY_LENGTH
    requires Used(|node.keys| + 1, |Flat(node.keys)| + |key|) <= NODE_SIZE
    ensures Fits(WithPair(node, index, key, value))
    ensures |Flat(WithNew(node.keys, index, key))| == |Flat(node.keys)| + |key|
    ensures |node.keys| < 0xffff && |Flat(node.keys)| + |key| < 0x1_0000
    ensures TableAt(|Flat(node.keys)|) <= TableAt(|Flat(node.keys)| + |key|)
    ensures HEADER_SIZE + |Flat(node.keys)| <= TableAt(|Flat(node.keys)|)
    ensures HEADER_SIZE + |Flat(node.keys)| + |key| <= TableAt(|Flat(node.keys)| + |key|)
    ensures TableAt(|Flat(node.keys)| + |key|) + 10 * (|node.keys| + 1) <= NODE_SIZE
  {
    LengthsFit(node.keys, index, key);
  }

  lemma InsertShows(b: seq<Byte>, node: Node, index: nat, key: seq<Byte>, value: Cell)
    requires |b| == BUFFER_SIZE && index <= |node.keys| == |node.values| && Fits(WithPair(node, index, key, value))
    requires |Flat(WithNew(node.keys, index, key))| == |Flat(node.keys)| + |key| < 0x1_0000
    requires |node.keys| < 0xffff && At(b, 0, Head(node, |node.keys| + 1, |Flat(node.keys)| + |key|))
    requires Row(b, HEADER_SIZE, Flat(node.keys[..index]), key, Flat(node.keys[index..]))
    requires At(b, TableAt(|Flat(node.keys)| + |key|), Table(WithNew(node.keys, index, key), 0))
    requires Row(b, ValuesAt(|node.keys| + 1, |Flat(node.keys)| + |key|),
                 Cells(node.values[..index]), value, Cells(node.values[index..]))
    ensures Shows(b, WithPair(node, index, key, value))
  {
    hide At, Row, Table, Flat, Cells, WithNew;
    FlatOfInserted(node.keys, index, key);
    RowJoin(b, HEADER_SIZE, Flat(node.keys[..index]), key, Flat(node.keys[index..]));
    CellsWithNew(node.values, index, value);
    RowJoin(b, ValuesAt(|node.keys| + 1, |Flat(node.keys)| + |key|),
            Cells(node.values[..index]), value, Cells(node.values[index..]));
  }

  lemma CellsWithNew(values: seq<Cell>, at: nat, value: Cell)
    requires at <= |values|
    ensures Cells(WithNew(values, at, value)) == Cells(values[..at]) + value + Cells(values[at..])
  {
    hide Cells;
    CellsOfInserted(values[..at], value, values[at..]);
  }

  lemma CellsWithout(values: seq<Cell>, at: nat)
    requires at < |values|
    ensures Cells(Without(values, at)) == Cells(values[..at]) + Cells(values[at + 1..])
  {
    hide Cells;
    CellsJoin(values[..at], values[at + 1..]);
  }

  lemma CellsOfInserted(before: seq<Cell>, value: Cell, after: seq<Cell>)
    ensures Cells(before + [value] + after) == Cells(before) + value + Cells(after)
  {
    hide Cells;
    CellsJoin(before + [value], after);
    CellsJoin(before, [value]);
    CellsOfOne(value);
  }

  // ---- _RemoveKey ----

  /** `node` without one of its pairs.  Past the last key of an index node it is the overflow link
      that goes: the last value takes its place. */
  function WithoutPair(node: Node, index: nat): (r: Node)
    requires |node.keys| == |node.values|
    requires index < |node.keys| || (index == |node.keys| > 0 && node.overflow != NULL_CELL)
    ensures |r.keys| == |node.keys| - 1 == |r.values|
  {
    var at := if index == |node.keys| then index - 1 else index;
    node.(keys := Without(node.keys, at), values := Without(node.values, at),
          overflow := if index == |node.keys| then node.values[at] else node.overflow)
  }

  /** Closes the gap that a key leaves among the packed keys. */
  method RemoveBytes(a: array<Byte>, keys: nat, keyStart: nat, total: nat, length: nat,
                     ghost before: seq<Byte>, ghost key: seq<Byte>, ghost after: seq<Byte>)
    requires keyStart == |before| && length == |key| && total == |before| + |after| && keys + total + length <= a.Length
    requires Row(a[..], keys, before, key, after)
    modifies a
    ensures Row(a[..], keys, before, [], after)
    ensures SameOutside(old(a[..]), a[..], keys, keys + total)
  {
    hide At, Moved, SameOutside;
    ghost var b0 := a[..];
    Memmove(a, keys + keyStart, keys + keyStart + length, total - keyStart);
    MoveTakes(b0, keys + keyStart, keys + keyStart + length, total - keyStart, after);
    MoveKeeps(b0, keys + keyStart, keys + keyStart + length, total - keyStart, keys, before);
    MoveSame(b0, keys + keyStart, keys + keyStart + length, total - keyStart, keys, keys + total);
    NothingAt(a[..], keys + keyStart, []);
  }

  /** Moves the table of lengths down, lowering the entries behind the one removed. */
  method RemoveLength(a: array<Byte>, table: nat, newTable: nat, index: nat, count: nat, length: nat,
                      ghost keys: seq<seq<Byte>>)
    requires index < |keys| == count + 1 && length == |keys[index]| && newTable <= table
    requires table + 2 * (count + 1) <= a.Length && |Flat(keys)| < 0x1_0000
    requires At(a[..], table, Table(keys, 0))
    modifies a
    ensures |Flat(Without(keys, index))| == |Flat(keys)| - length
    ensures At(a[..], newTable, Table(Without(keys, index), 0))
    ensures SameOutside(old(a[..]), a[..], newTable, newTable + 2 * count)
  {
    hide At, Moved, Written, SameOutside, Cum, Without, EntryAt, Entries, Flat, Number, Two, Table;
    ghost var less, lo, hi := Without(keys, index), newTable, newTable + 2 * count;
    ghost var b0 := a[..];
    LengthsShrink(keys, index);
    TableEntries(b0, table, keys);
    SplitEntries(b0, table, keys, index);
    if index > 0 && newTable != table {
      Memmove(a, newTable, table, 2 * index);
      MoveSame(b0, newTable, table, 2 * index, lo, hi);
      MoveFront(b0, newTable, table, index, keys, less);
      SkipEntries(b0, newTable, table, 2 * index, table, keys, index + 1, count + 1);
    } else {
      SameRefl(b0, lo, hi);
      SameEntries(b0, table, keys, less, index);
      if index == 0 {
        NoEntries(b0, newTable, less, 0);
      }
    }
    LowerLengths(a, table, newTable, index, count, length, keys, less, b0);
    TableEntries(a[..], newTable, less);
  }

  method LowerLengths(a: array<Byte>, table: nat, newTable: nat, index: nat, count: nat, length: nat,
                      ghost keys: seq<seq<Byte>>, ghost less: seq<seq<Byte>>, ghost b0: seq<Byte>)
    requires index < |keys| == count + 1 && length == |keys[index]| && newTable <= table
    requires table + 2 * (count + 1) <= a.Length
    requires less == Without(keys, index) && |less| == count && |Flat(less)| <= |Flat(keys)| < 0x1_0000
    requires Entries(a[..], table, keys, index + 1, count + 1) && Entries(a[..], newTable, less, 0, index)
    requires SameOutside(b0, a[..], newTable, newTable + 2 * count)
    modifies a
    ensures Entries(a[..], newTable, less, 0, count)
    ensures SameOutside(b0, a[..], newTable, newTable + 2 * count)
  {
    hide At, Written, SameOutside, Cum, Without, EntryAt, Entries, Flat, Number, Two;
    ghost var lo, hi := newTable, newTable + 2 * count;
    var i := index;
    while i < count
      invariant index <= i <= count
      invariant Entries(a[..], table, keys, i + 1, count + 1)
      invariant Entries(a[..], newTable, less, 0, i)
      invariant SameOutside(b0, a[..], lo, hi)
    {
      ghost var b := a[..];
      RestEntries(b, table, keys, i + 1, count + 1);
      ReadEntry(b, table, keys, i + 1);
      var next := Get16(a, table + 2 * (i + 1));
      CumOfRemoved(keys, index, i + 1);
      EntryFits(less, i);
      Write(a, newTable + 2 * i, Two(next - length));
      WriteEntry(b, newTable, less, i, lo, hi);
      SameTrans(b0, b, a[..], lo, hi);
      KeepEntries(b, newTable + 2 * i, Two(next - length), table, keys, i + 2, count + 1);
      KeepEntries(b, newTable + 2 * i, Two(next - length), newTable, less, 0, i);
      NextEntry(a[..], newTable, less, i);
      i := i + 1;
    }
  }

  lemma LengthsShrink(keys: seq<seq<Byte>>, index: nat)
    requires index < |keys|
    ensures |Without(keys, index)| == |keys| - 1
    ensures |Flat(Without(keys, index))| == |Flat(keys)| - |keys[index]|
  {
    FlatOfRemoved(keys, index);
  }

  lemma SplitEntries(b: seq<Byte>, off: nat, keys: seq<seq<Byte>>, at: nat)
    requires |Flat(keys)| < 0x1_0000 && at < |keys| && Entries(b, off, keys, 0, |keys|)
    ensures Entries(b, off, keys, 0, at) && Entries(b, off, keys, at + 1, |keys|)
  {
  }

  lemma RestEntries(b: seq<Byte>, off: nat, keys: seq<seq<Byte>>, from: nat, to: nat)
    requires |Flat(keys)| < 0x1_0000 && from < to <= |keys| && Entries(b, off, keys, from, to)
    ensures EntryAt(b, off, keys, from) && Entries(b, off, keys, from + 1, to)
  {
  }

  lemma NextEntry(b: seq<Byte>, off: nat, keys: seq<seq<Byte>>, at: nat)
    requires |Flat(keys)| < 0x1_0000 && at < |keys| && Entries(b, off, keys, 0, at) && EntryAt(b, off, keys, at)
    ensures Entries(b, off, keys, 0, at + 1)
  {
  }

  lemma SameEntries(b: seq<Byte>, off: nat, keys: seq<seq<Byte>>, less: seq<seq<Byte>>, n: nat)
    requires n < |keys| && |Flat(keys)| < 0x1_0000 && Entries(b, off, keys, 0, n)
    requires less == Without(keys, n) && |less| == |keys| - 1 && |Flat(less)| < 0x1_0000
    ensures Entries(b, off, less, 0, n)
  {
    hide EntryAt, Flat, Cum, Without;
    forall i | 0 <= i < n ensures EntryAt(b, off, less, i) {
      CumOfRemoved(keys, n, i + 1);
      SameEntry(b, off, keys, i, less, i);
    }
  }

  lemma MoveFront(b: seq<Byte>, dst: nat, src: nat, n: nat, keys: seq<seq<Byte>>, less: seq<seq<Byte>>)
    requires n < |keys| && |Flat(keys)| < 0x1_0000 && Entries(b, src, keys, 0, n)
    requires dst + 2 * n <= |b| && src + 2 * n <= |b|
    requires less == Without(keys, n) && |less| == |keys| - 1 && |Flat(less)| < 0x1_0000
    ensures Entries(Moved(b, dst, src, 2 * n), dst, less, 0, n)
  {
    hide EntryAt, Moved, Flat, Cum, Without;
    var r := Moved(b, dst, src, 2 * n);
    forall i | 0 <= i < n ensures EntryAt(r, dst, less, i) {
      MoveEntry(b, dst, src, n, keys, i);
      CumOfRemoved(keys, n, i + 1);
      SameEntry(r, dst, keys, i, less, i);
    }
  }

  /** Moves the values down, closing the gap of the one removed. */
  method RemoveValue(a: array<Byte>, values: nat, newValues: nat, index: nat, count: nat,
                     ghost before: seq<Byte>, ghost value: Cell, ghost after: seq<Byte>)
    requires 8 * index == |before| && 8 * count == |before| + |after| && newValues <= values
    requires values + 8 * (count + 1) <= a.Length
    requires Row(a[..], values, before, value, after)
    modifies a
    ensures Row(a[..], newValues, before, [], after)
    ensures SameOutside(old(a[..]), a[..], newValues, newValues + 8 * count)
  {
    hide At, Moved, SameOutside;
    ghost var b0, lo, hi := a[..], newValues, newValues + 8 * count;
    if index > 0 {
      Memmove(a, newValues, values, 8 * index);
      MoveSame(b0, newValues, values, 8 * index, lo, hi);
      MoveTakes(b0, newValues, values, 8 * index, before);
      MoveKeeps(b0, newValues, values, 8 * index, values + 8 * (index + 1), after);
    } else {
      NothingAt(b0, newValues, before);
      SameRefl(b0, lo, hi);
    }
    ghost var b1 := a[..];
    if count > index {
      Memmove(a, newValues + 8 * index, values + 8 * (index + 1), 8 * (count - index));
      MoveSame(b1, newValues + 8 * index, values + 8 * (index + 1), 8 * (count - index), lo, hi);
      MoveTakes(b1, newValues + 8 * index, values + 8 * (index + 1), 8 * (count - index), after);
      MoveKeeps(b1, newValues + 8 * index, values + 8 * (index + 1), 8 * (count - index), newValues, before);
    } else {
      NothingAt(b1, newValues + 8 * index, after);
      SameRefl(b1, lo, hi);
    }
    SameTrans(b0, b1, a[..], lo, hi);
    NothingAt(a[..], newValues + 8 * index, []);
  }

  /** Everything behind the header: keys first, then the lengths, then the values. */
  method RemoveBody(a: array<Byte>, table: nat, newTable: nat, index: nat, count: nat, bytes: nat, keyStart: nat,
                    length: nat, ghost keys: seq<seq<Byte>>, ghost values: seq<Cell>)
    requires index < |keys| == |values| == count + 1 && length == |keys[index]| && keyStart == Cum(keys, index)
    requires bytes + length == |Flat(keys)| < 0x1_0000 && newTable <= table
    requires table + 10 * (count + 1) <= NODE_SIZE <= a.Length
    requires HEADER_SIZE + bytes + length <= table && HEADER_SIZE + bytes <= newTable
    requires At(a[..], HEADER_SIZE, Flat(keys)) && At(a[..], table, Table(keys, 0))
    requires At(a[..], table + 2 * (count + 1), Cells(values))
    modifies a
    ensures |Flat(Without(keys, index))| == bytes
    ensures Row(a[..], HEADER_SIZE, Flat(keys[..index]), [], Flat(keys[index + 1..]))
    ensures At(a[..], newTable, Table(Without(keys, index), 0))
    ensures Row(a[..], newTable + 2 * count, Cells(values[..index]), [], Cells(values[index + 1..]))
    ensures SameOutside(old(a[..]), a[..], HEADER_SIZE, NODE_SIZE)
  {
    hide Row, At, SameOutside, Cum, Without, Flat, Table, Cells;
    ghost var b0, values0, front, rest := a[..], table + 2 * (count + 1), Flat(keys[..index]), Flat(keys[index + 1..]);
    KeyRow(b0, HEADER_SIZE, keys, index);
    RemoveBytes(a, HEADER_SIZE, keyStart, bytes, length, front, keys[index], rest);
    ghost var b1 := a[..];
    SameKeeps(b0, b1, HEADER_SIZE, HEADER_SIZE + bytes, table, Table(keys, 0));
    SameKeeps(b0, b1, HEADER_SIZE, HEADER_SIZE + bytes, values0, Cells(values));
    SameWider(b0, b1, HEADER_SIZE, HEADER_SIZE + bytes, HEADER_SIZE, NODE_SIZE);
    RemoveLength(a, table, newTable, index, count, length, keys);
    ghost var b2 := a[..];
    RowKeeps(b1, b2, newTable, newTable + 2 * count, HEADER_SIZE, front, [], rest);
    SameKeeps(b1, b2, newTable, newTable + 2 * count, values0, Cells(values));
    SameWider(b1, b2, newTable, newTable + 2 * count, HEADER_SIZE, NODE_SIZE);
    ValueRow(b2, values0, values, index);
    var newValues := newTable + 2 * count;
    RemoveValue(a, table + 2 * (count + 1), newValues, index, count, Cells(values[..index]), values[index],
                Cells(values[index + 1..]));
    ghost var b3 := a[..];
    RowKeeps(b2, b3, newValues, newValues + 8 * count, HEADER_SIZE, front, [], rest);
    SameKeeps(b2, b3, newValues, newValues + 8 * count, newTable, Table(Without(keys, index), 0));
    SameWider(b2, b3, newValues, newValues + 8 * count, HEADER_SIZE, NODE_SIZE);
    SameTrans(b0, b1, b2, HEADER_SIZE, NODE_SIZE);
    SameTrans(b0, b2, b3, HEADER_SIZE, NODE_SIZE);
  }

  lemma KeyRow(b: seq<Byte>, off: nat, keys: seq<seq<Byte>>, i: nat)
    requires i < |keys| && At(b, off, Flat(keys))
    ensures Row(b, off, Flat(keys[..i]), keys[i], Flat(keys[i + 1..]))
    ensures |Without(keys, i)| == |keys| - 1 && |Flat(Without(keys, i))| == |Flat(keys)| - |keys[i]|
    ensures |Flat(keys[..i])| == Cum(keys, i) && |Flat(keys[..i])| + |Flat(keys[i + 1..])| == |Flat(keys)| - |keys[i]|
  {
    hide At, Row, Flat;
    FlatOfRemoved(keys, i);
    RowJoin(b, off, Flat(keys[..i]), keys[i], Flat(keys[i + 1..]));
  }

  lemma ValueRow(b: seq<Byte>, off: nat, values: seq<Cell>, i: nat)
    requires i < |values| && At(b, off, Cells(values))
    ensures Row(b, off, Cells(values[..i]), values[i], Cells(values[i + 1..]))
  {
    hide At, Row, Cells;
    RejoinAround(values, i);
    CellsOfInserted(values[..i], values[i], values[i + 1..]);
    RowJoin(b, off, Cells(values[..i]), values[i], Cells(values[i + 1..]));
  }

  /** Start and length of a key, from the table. */
  method KeyAt(a: array<Byte>, index: nat, ghost node: Node) returns (start: nat, length: nat)
    requires Shows(a[..], node) && index < |node.keys|
    ensures start == Cum(node.keys, index) && length == |node.keys[index]|
  {
    hide At, EntryAt, Entries, Table, Flat, Cum, Number;
    var count, bytes := Counts(a, node);
    var table := TableAt(bytes);
    TableEntries(a[..], table, node.keys);
    LastTwo(a[..], table, node.keys, index);
    CumOfNone(node.keys);
    start := 0;
    if index > 0 {
      ReadEntry(a[..], table, node.keys, index - 1);
      start := Get16(a, table + 2 * (index - 1));
    }
    ReadEntry(a[..], table, node.keys, index);
    CumStep(node.keys, index);
    length := Get16(a, table + 2 * index);
    length := length - start;
  }

  lemma LastTwo(b: seq<Byte>, off: nat, keys: seq<seq<Byte>>, index: nat)
    requires |Flat(keys)| < 0x1_0000 && index < |keys| && Entries(b, off, keys, 0, |keys|)
    ensures EntryAt(b, off, keys, index) && (index > 0 ==> EntryAt(b, off, keys, index - 1))
  {
  }

  /** One value, and the overflow link. */
  method ValueAt(a: array<Byte>, index: nat, ghost node: Node) returns (value: Cell)
    requires Shows(a[..], node) && index < |node.values|
    ensures value == node.values[index]
  {
    hide At, Flat, Cells;
    var count, bytes := Counts(a, node);
    var off := ValuesAt(count, bytes) + 8 * index;
    ValueRow(a[..], ValuesAt(count, bytes), node.values, index);
    AtGives(a[..], off, node.values[index]);
    value := a[off..off + 8];
  }

  lemma CellsOfOne(value: Cell)
    ensures Cells([value]) == value
  {
    assert Cells([value]) == value + Cells([]);
  }

  lemma AtGives(b: seq<Byte>, off: nat, data: seq<Byte>)
    requires At(b, off, data)
    ensures off + |data| <= |b| && b[off..off + |data|] == data
  {
  }

  method SetOverflow(a: array<Byte>, value: Cell, ghost node: Node)
    requires Shows(a[..], node)
    modifies a
    ensures Shows(a[..], node.(overflow := value))
    ensures SameOutside(old(a[..]), a[..], 16, COUNT_AT)
  {
    hide At, Flat, Written, SameOutside, Two, Table, Cells;
    ghost var b0, counts := a[..], Two(|node.keys|) + Two(|Flat(node.keys)|);
    AtJoin(b0, 0, node.left + node.right + node.overflow, counts);
    AtJoin(b0, 0, node.left + node.right, node.overflow);
    Write(a, 16, value);
    WriteSame(b0, 16, value, 16, COUNT_AT);
    ghost var b1 := a[..];
    SameKeeps(b0, b1, 16, COUNT_AT, 0, node.left + node.right);
    SameKeeps(b0, b1, 16, COUNT_AT, COUNT_AT, counts);
    AtJoin(b1, 0, node.left + node.right, value);
    AtJoin(b1, 0, node.left + node.right + value, counts);
    SameKeeps(b0, b1, 16, COUNT_AT, HEADER_SIZE, Flat(node.keys));
    SameKeeps(b0, b1, 16, COUNT_AT, TableAt(|Flat(node.keys)|), Table(node.keys, 0));
    SameKeeps(b0, b1, 16, COUNT_AT, ValuesAt(|node.keys|, |Flat(node.keys)|), Cells(node.values));
  }

  /** The page without a pair; past the last key of an index node, the last value becomes the overflow link. */
  method RemoveKey(a: array<Byte>, index: nat, ghost node: Node)
    requires Shows(a[..], node) && Used(|node.keys|, |Flat(node.keys)|) <= NODE_SIZE
    requires index == |node.keys| ==> index > 0 && node.overflow != NULL_CELL
    requires index > |node.keys| ==> |node.keys| > 0
    modifies a
    ensures index > |node.keys| ==> a[..] == old(a[..])
    ensures index <= |node.keys| ==> Shows(a[..], WithoutPair(node, index))
    ensures SameOutside(old(a[..]), a[..], 16, NODE_SIZE)
  {
    hide At, SameOutside, Flat, Shows, WithoutPair, Used, Cum;
    ghost var b0 := a[..];
    var count, bytes := Counts(a, node);
    ShowsFits(b0, node);
    if index > count {
      SameRefl(b0, 16, NODE_SIZE);
      return;
    }
    SameRefl(b0, 16, NODE_SIZE);
    var at := index;
    ghost var now := node;
    if index == count {
      at := index - 1;
      var last := ValueAt(a, at, node);
      SetOverflow(a, last, node);
      now := node.(overflow := last);
      SameWider(b0, a[..], 16, COUNT_AT, 16, NODE_SIZE);
    }
    ghost var b1 := a[..];
    RemoveInner(a, at, now);
    SameWider(b1, a[..], COUNT_AT, NODE_SIZE, 16, NODE_SIZE);
    SameTrans(b0, b1, a[..], 16, NODE_SIZE);
    OverflowTaken(node, index, at);
  }

  lemma OverflowTaken(node: Node, index: nat, at: nat)
    requires |node.keys| == |node.values| && at < |node.keys|
    requires index == at || (index == |node.keys| == at + 1 && node.overflow != NULL_CELL)
    ensures index == at ==> WithoutPair(node, index) == WithoutPair(node, at)
    ensures index > at ==> WithoutPair(node, index) == WithoutPair(node.(overflow := node.values[at]), at)
  {
  }

  method RemoveInner(a: array<Byte>, index: nat, ghost node: Node)
    requires Shows(a[..], node) && Used(|node.keys|, |Flat(node.keys)|) <= NODE_SIZE && index < |node.keys|
    modifies a
    ensures Shows(a[..], WithoutPair(node, index))
    ensures SameOutside(old(a[..]), a[..], COUNT_AT, NODE_SIZE)
  {
    hide At, SameOutside, Cum, Without, Flat, Table, Cells, Shows, WithoutPair, TableAt, Head;
    ghost var b0 := a[..];
    ShowsFits(b0, node);
    var count, bytes := Counts(a, node);
    var keyStart, length := KeyAt(a, index, node);
    RemoveFits(node, index);
    assert HEADER_SIZE + keyStart + length + 8 + 2 <= NODE_SIZE && length <= MAX_KEY_LENGTH;  // or the source gives up
    var table, newTable := TableAt(bytes), TableAt(bytes - length);
    SetCounts(a, count - 1, bytes - length, node);
    ghost var b1 := a[..];
    HeaderKept(b0, b1, node);
    RemoveBody(a, table, newTable, index, count - 1, bytes - length, keyStart, length, node.keys, node.values);
    ghost var b2 := a[..];
    SameKeeps(b1, b2, HEADER_SIZE, NODE_SIZE, 0, Head(node, count - 1, bytes - length));
    RemoveShows(b2, node, index);
    SameWider(b0, b1, COUNT_AT, HEADER_SIZE, COUNT_AT, NODE_SIZE);
    SameWider(b1, b2, HEADER_SIZE, NODE_SIZE, COUNT_AT, NODE_SIZE);
    SameTrans(b0, b1, b2, COUNT_AT, NODE_SIZE);
  }

  lemma RemoveFits(node: Node, index: nat)
    requires Fits(node) && index < |node.keys| && Used(|node.keys|, |Flat(node.keys)|) <= NODE_SIZE
    ensures Fits(WithoutPair(node, index))
    ensures |node.keys| < 0xffff && |Flat(node.keys)| < 0x1_0000 && |node.keys[index]| <= |Flat(node.keys)|
    ensures HEADER_SIZE + Cum(node.keys, index) + |node.keys[index]| + 10 <= NODE_SIZE
    ensures TableAt(|Flat(node.keys)| - |node.keys[index]|) <= TableAt(|Flat(node.keys)|)
    ensures HEADER_SIZE + |Flat(node.keys)| <= TableAt(|Flat(node.keys)|)
    ensures HEADER_SIZE + |Flat(node.keys)| - |node.keys[index]| <= TableAt(|Flat(node.keys)| - |node.keys[index]|)
    ensures TableAt(|Flat(node.keys)|) + 10 * |node.keys| <= NODE_SIZE
  {
    LengthsShrink(node.keys, index);
    CumStep(node.keys, index);
    CumAll(node.keys, index + 1);
  }

  lemma RemoveShows(b: seq<Byte>, node: Node, index: nat)
    requires |b| == BUFFER_SIZE && index < |node.keys| == |node.values| && Fits(WithoutPair(node, index))
    requires |node.keys| < 0xffff && |node.keys[index]| <= |Flat(node.keys)| < 0x1_0000
    requires |Flat(Without(node.keys, index))| == |Flat(node.keys)| - |node.keys[index]|
    requires At(b, 0, Head(node, |node.keys| - 1, |Flat(node.keys)| - |node.keys[index]|))
    requires Row(b, HEADER_SIZE, Flat(node.keys[..index]), [], Flat(node.keys[index + 1..]))
    requires At(b, TableAt(|Flat(node.keys)| - |node.keys[index]|), Table(Without(node.keys, index), 0))
    requires Row(b, ValuesAt(|node.keys| - 1, |Flat(node.keys)| - |node.keys[index]|),
                 Cells(node.values[..index]), [], Cells(node.values[index + 1..]))
    ensures Shows(b, WithoutPair(node, index))
  {
    hide At, Row, Table, Flat, Cells, Without;
    FlatOfRemoved(node.keys, index);
    RowGap(b, HEADER_SIZE, Flat(node.keys[..index]), Flat(node.keys[index + 1..]));
    CellsWithout(node.values, index);
    RowGap(b, ValuesAt(|node.keys| - 1, |Flat(node.keys)| - |node.keys[index]|),
           Cells(node.values[..index]), Cells(node.values[index + 1..]));
  }

  lemma GapRow(b: seq<Byte>, off: nat, x: seq<Byte>, z: seq<Byte>)
    requires At(b, off, x + z)
    ensures Row(b, off, x, [], z)
  {
    hide At;
    AtJoin(b, off, x, z);
    NothingAfter(b, off, x);
  }

  lemma NothingAfter(b: seq<Byte>, off: nat, x: seq<Byte>)
    requires At(b, off, x)
    ensures At(b, off + |x|, [])
  {
  }

  lemma RowGap(b: seq<Byte>, off: nat, x: seq<Byte>, z: seq<Byte>)
    requires Row(b, off, x, [], z)
    ensures At(b, off, x + z)
  {
    hide At;
    AtJoin(b, off, x, z);
  }
}
