/** The split of a full tree page into two (BPlusTree.cpp): the left half goes to a new page, the
    right half stays and is closed up in place. */
module NodeSplit {
  import opened NodeLayout
  import opened NodeBytes
  import opened NodePage

  function Lens(keys: seq<seq<Byte>>): (r: seq<nat>)
    ensures |r| == |keys|
  {
    seq(|keys|, i requires 0 <= i < |keys| => |keys[i]|)
  }

  lemma {:induction false} LensPrefix(keys: seq<seq<Byte>>, i: nat)
    requires i <= |keys|
    ensures Prefix(Lens(keys), i) == Cum(keys, i)
  {
    if i == 0 {
      CumOfNone(keys);
    } else {
      LensPrefix(keys, i - 1);
      CumStep(keys, i - 1);
    }
  }

  // ---- A stretch of entries of a page ----

  function Bytes(keys: seq<seq<Byte>>, lo: nat, hi: nat): seq<Byte>
    requires lo <= hi <= |keys|
  {
    Flat(keys[lo..hi])
  }

  function Words(values: seq<Cell>, lo: nat, hi: nat): (r: seq<Byte>)
    requires lo <= hi <= |values|
    ensures |r| == 8 * (hi - lo)
  {
    Cells(values[lo..hi])
  }

  lemma BytesJoin(keys: seq<seq<Byte>>, lo: nat, mid: nat, hi: nat)
    requires lo <= mid <= hi <= |keys|
    ensures Bytes(keys, lo, hi) == Bytes(keys, lo, mid) + Bytes(keys, mid, hi)
  {
    hide Flat;
    assert keys[lo..hi] == keys[lo..mid] + keys[mid..hi];
    FlatJoin(keys[lo..mid], keys[mid..hi]);
  }

  lemma WordsJoin(values: seq<Cell>, lo: nat, mid: nat, hi: nat)
    requires lo <= mid <= hi <= |values|
    ensures Words(values, lo, hi) == Words(values, lo, mid) + Words(values, mid, hi)
  {
    hide Cells;
    assert values[lo..hi] == values[lo..mid] + values[mid..hi];
    CellsJoin(values[lo..mid], values[mid..hi]);
  }

  lemma BytesSize(keys: seq<seq<Byte>>, lo: nat, hi: nat)
    requires lo <= hi <= |keys|
    ensures Cum(keys, lo) <= Cum(keys, hi) && |Bytes(keys, lo, hi)| == Cum(keys, hi) - Cum(keys, lo)
  {
    hide Flat;
    assert keys[..hi] == keys[..lo] + keys[lo..hi];
    FlatJoin(keys[..lo], keys[lo..hi]);
  }

  lemma BytesOfAll(keys: seq<seq<Byte>>)
    ensures Bytes(keys, 0, |keys|) == Flat(keys)
  {
    assert keys[0..|keys|] == keys;
  }

  lemma WordsOfAll(values: seq<Cell>)
    ensures Words(values, 0, |values|) == Cells(values)
  {
    assert values[0..|values|] == values;
  }

  /** Entries `lo` to `hi` of a page are in their places. */
  predicate Part(b: seq<Byte>, keys: seq<seq<Byte>>, values: seq<Cell>, lo: nat, hi: nat)
    requires lo <= hi <= |keys| == |values| && |Flat(keys)| < 0x1_0000
  {
    && At(b, HEADER_SIZE + Cum(keys, lo), Bytes(keys, lo, hi))
    && Entries(b, TableAt(|Flat(keys)|), keys, lo, hi)
    && At(b, ValuesAt(|keys|, |Flat(keys)|) + 8 * lo, Words(values, lo, hi))
  }

  /** Nothing but entries `lo` to `hi` has changed. */
  ghost predicate SameButPart(b: seq<Byte>, b': seq<Byte>, keys: seq<seq<Byte>>, lo: nat, hi: nat)
    requires lo <= hi <= |keys|
  {
    var table, values := TableAt(|Flat(keys)|), ValuesAt(|keys|, |Flat(keys)|);
    && |b| == |b'|
    && forall x {:trigger b'[x]} :: 0 <= x < |b| ==>
         || HEADER_SIZE + Cum(keys, lo) <= x < HEADER_SIZE + Cum(keys, hi)
         || table + 2 * lo <= x < table + 2 * hi
         || values + 8 * lo <= x < values + 8 * hi
         || b'[x] == b[x]
  }

  lemma PartKept(b: seq<Byte>, b': seq<Byte>, keys: seq<seq<Byte>>, values: seq<Cell>, lo: nat, hi: nat,
                 lo': nat, hi': nat)
    requires lo <= hi <= |keys| == |values| && lo' <= hi' <= |keys| && |Flat(keys)| < 0x1_0000
    requires SameButPart(b, b', keys, lo', hi') && Part(b, keys, values, lo, hi) && (hi <= lo' || hi' <= lo)
    ensures Part(b', keys, values, lo, hi)
  {
    hide Flat, EntryAt, Bytes, Words, Cum, RoundUp;
    var table, cells := TableAt(|Flat(keys)|), ValuesAt(|keys|, |Flat(keys)|);
    CumOrder(keys, lo, hi, lo', hi');
    BytesSize(keys, lo, hi);
    AtKept(b, b', HEADER_SIZE + Cum(keys, lo), Bytes(keys, lo, hi));
    AtKept(b, b', cells + 8 * lo, Words(values, lo, hi));
    forall i | lo <= i < hi ensures EntryAt(b', table, keys, i) {
      EntryKept(b, b', table, keys, i);
    }
  }

  lemma CumOrder(keys: seq<seq<Byte>>, lo: nat, hi: nat, lo': nat, hi': nat)
    requires lo <= hi <= |keys| && lo' <= hi' <= |keys| && (hi <= lo' || hi' <= lo)
    ensures Cum(keys, lo) <= Cum(keys, hi) && Cum(keys, lo') <= Cum(keys, hi')
    ensures HEADER_SIZE + Cum(keys, hi) <= TableAt(|Flat(keys)|) && HEADER_SIZE + Cum(keys, hi') <= TableAt(|Flat(keys)|)
    ensures hi <= lo' ==> Cum(keys, hi) <= Cum(keys, lo')
    ensures hi' <= lo ==> Cum(keys, hi') <= Cum(keys, lo)
  {
    hide Flat, Cum;
    BytesSize(keys, lo, hi);
    BytesSize(keys, lo', hi');
    CumAll(keys, hi);
    CumAll(keys, hi');
    if hi <= lo' {
      BytesSize(keys, hi, lo');
    } else {
      BytesSize(keys, hi', lo);
    }
  }

  lemma AtKept(b: seq<Byte>, b': seq<Byte>, off: nat, data: seq<Byte>)
    requires |b| == |b'| && At(b, off, data)
    requires forall x {:trigger b'[x]} :: off <= x < off + |data| ==> b'[x] == b[x]
    ensures At(b', off, data)
  {
    assert b'[off..off + |data|] == b[off..off + |data|];
  }

  lemma EntryKept(b: seq<Byte>, b': seq<Byte>, off: nat, keys: seq<seq<Byte>>, i: nat)
    requires i < |keys| && |b| == |b'| && EntryAt(b, off, keys, i)
    requires forall x {:trigger b'[x]} :: off + 2 * i <= x < off + 2 * i + 2 ==> b'[x] == b[x]
    ensures EntryAt(b', off, keys, i)
  {
    AtKept(b, b', off + 2 * i, Two(Cum(keys, i + 1)));
  }

  lemma PartJoin(b: seq<Byte>, keys: seq<seq<Byte>>, values: seq<Cell>, lo: nat, mid: nat, hi: nat)
    requires lo <= mid <= hi <= |keys| == |values| && |Flat(keys)| < 0x1_0000
    requires Part(b, keys, values, lo, mid) && Part(b, keys, values, mid, hi)
    ensures Part(b, keys, values, lo, hi)
  {
    hide Flat, EntryAt, Bytes, Words, Cum, At;
    BytesSize(keys, lo, mid);
    BytesJoin(keys, lo, mid, hi);
    WordsJoin(values, lo, mid, hi);
    AtJoin(b, HEADER_SIZE + Cum(keys, lo), Bytes(keys, lo, mid), Bytes(keys, mid, hi));
    AtJoin(b, ValuesAt(|keys|, |Flat(keys)|) + 8 * lo, Words(values, lo, mid), Words(values, mid, hi));
  }

  lemma PartShows(b: seq<Byte>, node: Node)
    requires |b| == BUFFER_SIZE && Fits(node) && At(b, 0, Head(node, |node.keys|, |Flat(node.keys)|))
    requires Part(b, node.keys, node.values, 0, |node.keys|)
    ensures Shows(b, node)
  {
    hide Flat, EntryAt, At, Bytes, Words, Cum, Cells, Table, Head;
    CumOfNone(node.keys);
    BytesOfAll(node.keys);
    WordsOfAll(node.values);
    TableEntries(b, TableAt(|Flat(node.keys)|), node.keys);
  }

  lemma ThreeWrites(b0: seq<Byte>, b1: seq<Byte>, b2: seq<Byte>, b3: seq<Byte>, keys: seq<seq<Byte>>, lo: nat, hi: nat)
    requires lo <= hi <= |keys|
    requires SameOutside(b0, b1, HEADER_SIZE + Cum(keys, lo), HEADER_SIZE + Cum(keys, hi))
    requires SameOutside(b1, b2, TableAt(|Flat(keys)|) + 2 * lo, TableAt(|Flat(keys)|) + 2 * hi)
    requires SameOutside(b2, b3, ValuesAt(|keys|, |Flat(keys)|) + 8 * lo, ValuesAt(|keys|, |Flat(keys)|) + 8 * hi)
    ensures SameButPart(b0, b3, keys, lo, hi)
  {
    hide Flat, Cum, RoundUp;
  }

  /** Where the pieces of a page are. */
  lemma PlacesInOrder(keys: seq<seq<Byte>>, lo: nat, hi: nat)
    requires lo <= hi <= |keys|
    ensures Cum(keys, lo) <= Cum(keys, hi) && HEADER_SIZE + Cum(keys, hi) <= TableAt(|Flat(keys)|)
    ensures |Bytes(keys, lo, hi)| == Cum(keys, hi) - Cum(keys, lo)
    ensures ValuesAt(|keys|, |Flat(keys)|) + 8 * |keys| == Used(|keys|, |Flat(keys)|)
  {
    hide Flat, Cum;
    BytesSize(keys, lo, hi);
    CumAll(keys, hi);
  }

  /** The bytes with one new entry written: the key's bytes, its length, its value. */
  function NewPut(b: seq<Byte>, at: nat, before: nat, key: seq<Byte>, value: Cell, table: nat, cells: nat): (r: seq<Byte>)
    requires HEADER_SIZE + before + |key| <= |b| && table + 2 * at + 2 <= |b| && cells + 8 * at + 8 <= |b| && |key| + before < 0x1_0000
    ensures |r| == |b|
  {
    Written(Written(Written(b, HEADER_SIZE + before, key), table + 2 * at, Two(|key| + before)), cells + 8 * at, value)
  }

  method PutNew(a: array<Byte>, at: nat, before: nat, key: seq<Byte>, value: Cell, table: nat, cells: nat)
    requires HEADER_SIZE + before + |key| <= a.Length && table + 2 * at + 2 <= a.Length && cells + 8 * at + 8 <= a.Length
    requires |key| + before < 0x1_0000
    modifies a
    ensures a[..] == NewPut(old(a[..]), at, before, key, value, table, cells)
  {
    hide Written, Two, At;
    Write(a, HEADER_SIZE + before, key);
    Write(a, table + 2 * at, Two(|key| + before));
    Write(a, cells + 8 * at, value);
  }

  lemma NewPutFits(at: nat, before: nat, table: nat, cells: nat, keys: seq<seq<Byte>>, size: nat)
    requires at < |keys| && before == Cum(keys, at) && |Flat(keys)| < 0x1_0000 && Used(|keys|, |Flat(keys)|) <= size
    requires table == TableAt(|Flat(keys)|) && cells == ValuesAt(|keys|, |Flat(keys)|)
    ensures HEADER_SIZE + before + |keys[at]| <= table && table + 2 * at + 2 <= cells && cells + 8 * at + 8 <= size
    ensures |keys[at]| + before < 0x1_0000
  {
    hide Flat, Cum, RoundUp;
    PlacesInOrder(keys, at, at + 1);
    CumStep(keys, at);
    CumAll(keys, at + 1);
  }

  lemma NewIsPut(b0: seq<Byte>, at: nat, before: nat, key: seq<Byte>, value: Cell, table: nat, cells: nat,
                 keys: seq<seq<Byte>>, values: seq<Cell>)
    requires at < |keys| == |values| && keys[at] == key && values[at] == value && before == Cum(keys, at)
    requires |Flat(keys)| < 0x1_0000 && Used(|keys|, |Flat(keys)|) <= |b0|
    requires table == TableAt(|Flat(keys)|) && cells == ValuesAt(|keys|, |Flat(keys)|)
    requires HEADER_SIZE + before + |key| <= table && table + 2 * at + 2 <= cells && cells + 8 * at + 8 <= |b0| && |key| + before < 0x1_0000
    ensures var r := NewPut(b0, at, before, key, value, table, cells);
            Part(r, keys, values, at, at + 1) && SameButPart(b0, r, keys, at, at + 1)
  {
    hide Flat, Cum, RoundUp, Bytes, Words, EntryAt, Entries, At, SameButPart, Part, SameOutside, Written, Used, Two;
    PlacesInOrder(keys, at, at + 1);
    CumStep(keys, at);
    CumAll(keys, at + 1);
    var b1 := Written(b0, HEADER_SIZE + before, key);
    WriteSame(b0, HEADER_SIZE + before, key, HEADER_SIZE + before, HEADER_SIZE + before + |key|);
    var b2 := Written(b1, table + 2 * at, Two(|key| + before));
    WriteKeeps(b1, table + 2 * at, Two(|key| + before), HEADER_SIZE + before, key);
    WriteEntry(b1, table, keys, at, table + 2 * at, table + 2 * at + 2);
    var b3 := Written(b2, cells + 8 * at, value);
    WriteKeeps(b2, cells + 8 * at, value, HEADER_SIZE + before, key);
    KeepEntry(b2, cells + 8 * at, value, table, keys, at);
    WriteSame(b2, cells + 8 * at, value, cells + 8 * at, cells + 8 * at + 8);
    ThreeWrites(b0, b1, b2, b3, keys, at, at + 1);
    PartOfOne(b3, keys, values, at);
  }

  lemma PartOfOne(b: seq<Byte>, keys: seq<seq<Byte>>, values: seq<Cell>, at: nat)
    requires at < |keys| == |values| && |Flat(keys)| < 0x1_0000
    requires At(b, HEADER_SIZE + Cum(keys, at), keys[at]) && EntryAt(b, TableAt(|Flat(keys)|), keys, at)
    requires At(b, ValuesAt(|keys|, |Flat(keys)|) + 8 * at, values[at])
    ensures Part(b, keys, values, at, at + 1)
  {
    hide At, EntryAt, Flat, Cum, Cells;
    assert keys[at..at + 1] == [keys[at]] && values[at..at + 1] == [values[at]];
    FlatOfOne(keys[at]);
    CellsOfOne(values[at]);
  }

  // ---- The left half ----

  /** How many entries go to the left page, and how many bytes of old keys before and after the new one. */
  method CountLeft(a: array<Byte>, at: nat, length: nat, ghost node: Node)
    returns (taken: nat, out: nat, bytes: nat, before: nat, after: nat)
    requires Shows(a[..], node) && at <= |node.keys| && Splits(Lens(node.keys), at, length)
    ensures out == LeftCount(Lens(node.keys), at, length)
    ensures taken <= |node.keys| && taken == (if at < out then out - 1 else out)
    ensures at < out ==> bytes == length && before == Cum(node.keys, at) && after == Cum(node.keys, taken) - Cum(node.keys, at)
    ensures at >= out ==> bytes == 0 && after == 0 && before == Cum(node.keys, taken)
  {
    hide Flat, Cum, At, EntryAt, Entries, Table, Cells, Number, Prefix, RoundUp, LeftCountFrom;
    var count, total := Counts(a, node);
    var table := TableAt(total);
    TableEntries(a[..], table, node.keys);
    taken, out, bytes, before, after := 0, 0, 0, 0, 0;
    CumOfNone(node.keys);
    ghost var lens := Lens(node.keys);
    while taken < count + 1
      invariant out <= count && taken == (if bytes == 0 then out else out - 1) && (bytes == 0 <==> out <= at)
      invariant bytes == 0 ==> after == 0
      invariant bytes > 0 ==> bytes == length && before == Cum(node.keys, at) && out > at
                              && after == Cum(node.keys, taken) - Cum(node.keys, at)
      invariant forall o :: 1 <= o <= out ==> CheckedSize(lens, at, length, o) < HALF_NODE
      decreases count + 1 - out
    {
      if bytes == 0 {
        before := LengthUpTo(a, table, taken, node.keys);
      }
      if taken == at && bytes == 0 {
        bytes := length;
      } else {
        if at < out {
          after := LengthUpTo(a, table, taken + 1, node.keys);
          BytesSize(node.keys, at, taken + 1);
          after := after - before;
        }
        taken := taken + 1;
      }
      out := out + 1;
      CheckedIs(node.keys, at, length, out, bytes, before, after);
      if RoundUp(HEADER_SIZE + before + after + bytes) + out * 10 >= HALF_NODE {
        break;
      }
      LastIsChecked(node.keys, at, length);
    }
    LeftCountIs(lens, at, length, out);
    if at >= out && taken > 0 {
      before := LengthUpTo(a, table, taken, node.keys);
    }
  }

  /** The cumulative length in front of key `i`. */
  method LengthUpTo(a: array<Byte>, table: nat, i: nat, ghost keys: seq<seq<Byte>>) returns (sum: nat)
    requires i <= |keys| && |Flat(keys)| < 0x1_0000 && Entries(a[..], table, keys, 0, |keys|)
    ensures sum == Cum(keys, i)
  {
    hide Flat, Cum, At, EntryAt, Number;
    CumOfNone(keys);
    sum := 0;
    if i > 0 {
      ReadEntry(a[..], table, keys, i - 1);
      sum := Get16(a, table + 2 * (i - 1));
    }
  }

  /** What the size check sees. */
  lemma CheckedIs(keys: seq<seq<Byte>>, at: nat, length: nat, out: nat, bytes: nat, before: nat, after: nat)
    requires 1 <= out <= |keys| + 1 && at <= |keys|
    requires out <= at ==> bytes == 0 && before + after == Cum(keys, out - 1)
    requires out > at ==> bytes == length && before + after == Cum(keys, out - 1)
    ensures CheckedSize(Lens(keys), at, length, out) == RoundUp(HEADER_SIZE + before + after + bytes) + out * 10
  {
    hide Cum, RoundUp;
    LensPrefix(keys, out - 1);
  }

  lemma LastIsChecked(keys: seq<seq<Byte>>, at: nat, length: nat)
    requires at <= |keys| && Splits(Lens(keys), at, length)
    ensures CheckedSize(Lens(keys), at, length, |keys| + 1) >= NODE_SIZE
  {
  }

  lemma LeftCountIs(lens: seq<nat>, at: nat, length: nat, out: nat)
    requires 1 <= out <= |lens| + 1 && CheckedSize(lens, at, length, out) >= HALF_NODE
    requires forall o :: 1 <= o < out ==> CheckedSize(lens, at, length, o) < HALF_NODE
    ensures out == LeftCount(lens, at, length)
  {
  }

  /** The entries from `lo` to `hi`, with `news` put in at `at`. */
  function Half<T>(s: seq<T>, lo: nat, at: nat, hi: nat, news: seq<T>): (r: seq<T>)
    requires lo <= at <= hi <= |s|
    ensures |r| == hi - lo + |news|
  {
    s[lo..at] + news + s[at..hi]
  }

  lemma HalfFront<T>(s: seq<T>, lo: nat, at: nat, hi: nat, news: seq<T>, i: nat)
    requires lo <= at <= hi <= |s| && i <= at - lo
    ensures Half(s, lo, at, hi, news)[0..i] == s[lo..lo + i]
  {
  }

  lemma HalfRest<T>(s: seq<T>, lo: nat, at: nat, hi: nat, news: seq<T>, i: nat)
    requires lo <= at <= hi <= |s| && at <= lo + i <= hi
    ensures Half(s, lo, at, hi, news)[i + |news|..hi - lo + |news|] == s[lo + i..hi]
  {
  }

  /** Cumulative lengths of a half, before and behind the new entry. */
  lemma CumOfHalf(keys: seq<seq<Byte>>, lo: nat, at: nat, hi: nat, news: seq<seq<Byte>>, i: nat)
    requires lo <= at <= hi <= |keys| && lo + i <= hi
    ensures Cum(keys, lo) <= Cum(keys, lo + i)
    ensures lo + i <= at ==> Cum(Half(keys, lo, at, hi, news), i) == Cum(keys, lo + i) - Cum(keys, lo)
    ensures at <= lo + i ==> Cum(Half(keys, lo, at, hi, news), i + |news|)
                             == Cum(keys, lo + i) - Cum(keys, lo) + |Flat(news)|
  {
    hide Flat, Half;
    var half := Half(keys, lo, at, hi, news);
    BytesSize(keys, lo, lo + i);
    if lo + i <= at {
      HalfFront(keys, lo, at, hi, news, i);
      assert half[..i] == half[0..i];
    }
    if at <= lo + i {
      CumBehind(keys, lo, at, hi, news, i);
    }
  }

  lemma CumBehind(keys: seq<seq<Byte>>, lo: nat, at: nat, hi: nat, news: seq<seq<Byte>>, i: nat)
    requires lo <= at <= hi <= |keys| && at <= lo + i <= hi
    ensures Cum(Half(keys, lo, at, hi, news), i + |news|) == |Bytes(keys, lo, lo + i)| + |Flat(news)|
  {
    hide Flat;
    var front, rest := keys[lo..at], keys[at..lo + i];
    assert Half(keys, lo, at, hi, news)[..i + |news|] == front + news + rest;
    assert keys[lo..lo + i] == front + rest;
    FlatJoin(front + news, rest);
    FlatJoin(front, news);
    FlatJoin(front, rest);
  }

  lemma FlatOfHalf(keys: seq<seq<Byte>>, lo: nat, at: nat, hi: nat, news: seq<seq<Byte>>)
    requires lo <= at <= hi <= |keys|
    ensures |Flat(Half(keys, lo, at, hi, news))| == Cum(keys, hi) - Cum(keys, lo) + |Flat(news)|
  {
    hide Flat, Half;
    CumOfHalf(keys, lo, at, hi, news, hi - lo);
    CumAll(Half(keys, lo, at, hi, news), hi - lo + |news|);
  }

  /** An entry that reads the same in another place. */
  lemma CopiedEntry(b: seq<Byte>, off: nat, keys: seq<seq<Byte>>, i: nat,
                    b': seq<Byte>, off': nat, keys': seq<seq<Byte>>, i': nat)
    requires i < |keys| && i' < |keys'| && EntryAt(b, off, keys, i) && Cum(keys', i' + 1) == Cum(keys, i + 1)
    requires off' + 2 * i' + 2 <= |b'| && b'[off' + 2 * i'] == b[off + 2 * i] && b'[off' + 2 * i' + 1] == b[off + 2 * i + 1]
    ensures EntryAt(b', off', keys', i')
  {
    assert b[off + 2 * i..off + 2 * i + 2] == Two(Cum(keys, i + 1));
    assert b'[off' + 2 * i'..off' + 2 * i' + 2] == b[off + 2 * i..off + 2 * i + 2];
  }

  lemma CopiedEntries(b: seq<Byte>, off: nat, keys: seq<seq<Byte>>, n: nat,
                      was: seq<Byte>, off': nat, keys': seq<seq<Byte>>)
    requires n <= |keys| && n <= |keys'| && |Flat(keys)| < 0x1_0000 && |Flat(keys')| < 0x1_0000
    requires Entries(b, off, keys, 0, n) && off + 2 * n <= |b| && off' + 2 * n <= |was|
    requires forall i :: 0 <= i <= n ==> Cum(keys', i) == Cum(keys, i)
    ensures Entries(Written(was, off', b[off..off + 2 * n]), off', keys', 0, n)
  {
    hide Flat, Cum, EntryAt;
    var b' := Written(was, off', b[off..off + 2 * n]);
    forall i | 0 <= i < n ensures EntryAt(b', off', keys', i) {
      assert b'[off' + 2 * i] == b[off + 2 * i] && b'[off' + 2 * i + 1] == b[off + 2 * i + 1];
      CopiedEntry(b, off, keys, i, b', off', keys', i);
    }
  }

  /** Copies the entries in front of the new one. */
  method CopyFront(a: array<Byte>, o: array<Byte>, n: nat, before: nat, table: nat, cells: nat, outTable: nat, outCells: nat,
                   ghost node: Node, ghost keys: seq<seq<Byte>>, ghost values: seq<Cell>)
    requires a != o && Shows(a[..], node) && o.Length == BUFFER_SIZE
    requires n <= |node.keys| && before == Cum(node.keys, n) && n <= |keys| == |values|
    requires table == TableAt(|Flat(node.keys)|) && cells == ValuesAt(|node.keys|, |Flat(node.keys)|)
    requires |Flat(keys)| < 0x1_0000 && Used(|keys|, |Flat(keys)|) <= BUFFER_SIZE
    requires outTable == TableAt(|Flat(keys)|) && outCells == ValuesAt(|keys|, |Flat(keys)|)
    requires keys[0..n] == node.keys[0..n] && values[0..n] == node.values[0..n]
    modifies o
    ensures Part(o[..], keys, values, 0, n)
    ensures SameButPart(old(o[..]), o[..], keys, 0, n)
  {
    hide *;
    ghost var b, b0 := a[..], o[..];
    FrontOf(b, node, n);
    FrontPlaces(node, keys, n);
    if before > 0 {
      ghost var lengths := b[table..table + 2 * n];
      AtGives(b, HEADER_SIZE, Bytes(node.keys, 0, n));
      AtGives(b, cells, Words(node.values, 0, n));
      Write(o, HEADER_SIZE, a[HEADER_SIZE..HEADER_SIZE + before]);
      ghost var b1 := o[..];
      Write(o, outTable, a[table..table + 2 * n]);
      ghost var b2 := o[..];
      Write(o, outCells, a[cells..cells + 8 * n]);
      CopiedFront(b, b0, b1, b2, o[..], node, keys, values, n);
    } else {
      SamePartRefl(b0, keys, 0, n);
      EmptyPart(b0, keys, values, 0);
    }
  }

  lemma FrontPlaces(node: Node, keys: seq<seq<Byte>>, n: nat)
    requires Fits(node) && n <= |keys| && n <= |node.keys|
    requires |Flat(keys)| < 0x1_0000 && Used(|keys|, |Flat(keys)|) <= BUFFER_SIZE
    ensures n > 0 ==> Cum(node.keys, n) > 0
    ensures HEADER_SIZE + Cum(node.keys, n) <= BUFFER_SIZE && TableAt(|Flat(node.keys)|) + 2 * n <= BUFFER_SIZE
    ensures ValuesAt(|node.keys|, |Flat(node.keys)|) + 8 * n <= BUFFER_SIZE
    ensures TableAt(|Flat(keys)|) + 2 * n <= BUFFER_SIZE && ValuesAt(|keys|, |Flat(keys)|) + 8 * n <= BUFFER_SIZE
  {
    CumAll(node.keys, n);
    if n > 0 {
      CumStep(node.keys, n - 1);
    }
  }

  lemma CopiedFront(b: seq<Byte>, b0: seq<Byte>, b1: seq<Byte>, b2: seq<Byte>, b3: seq<Byte>,
                    node: Node, keys: seq<seq<Byte>>, values: seq<Cell>, n: nat)
    requires Shows(b, node) && n <= |node.keys| && n <= |keys| == |values| && |b0| == BUFFER_SIZE
    requires |Flat(keys)| < 0x1_0000 && Used(|keys|, |Flat(keys)|) <= BUFFER_SIZE
    requires keys[0..n] == node.keys[0..n] && values[0..n] == node.values[0..n]
    requires HEADER_SIZE + |Bytes(node.keys, 0, n)| <= |b0| && b1 == Written(b0, HEADER_SIZE, Bytes(node.keys, 0, n))
    requires TableAt(|Flat(node.keys)|) + 2 * n <= |b| && TableAt(|Flat(keys)|) + 2 * n <= |b1|
    requires b2 == Written(b1, TableAt(|Flat(keys)|), b[TableAt(|Flat(node.keys)|)..TableAt(|Flat(node.keys)|) + 2 * n])
    requires ValuesAt(|keys|, |Flat(keys)|) + 8 * n <= |b2|
    requires b3 == Written(b2, ValuesAt(|keys|, |Flat(keys)|), Words(node.values, 0, n))
    ensures Part(b3, keys, values, 0, n) && SameButPart(b0, b3, keys, 0, n)
  {
    hide Flat, Cum, RoundUp, Bytes, EntryAt, Entries, At, SameButPart, Part, SameOutside, Written, Used, Table, Cells, Shows;
    FrontOf(b, node, n);
    SameFront(node.keys, keys, n);
    PlacesInOrder(keys, 0, n);
    CumOfNone(keys);
    var kb, vb := Bytes(node.keys, 0, n), Words(node.values, 0, n);
    var table, cells := TableAt(|Flat(keys)|), ValuesAt(|keys|, |Flat(keys)|);
    var source := TableAt(|Flat(node.keys)|);
    var lengths := b[source..source + 2 * n];
    CopiedEntries(b, source, node.keys, n, b1, table, keys);
    WriteSame(b0, HEADER_SIZE, kb, HEADER_SIZE, HEADER_SIZE + |kb|);
    WriteSame(b1, table, lengths, table, table + 2 * n);
    WriteSame(b2, cells, vb, cells, cells + 8 * n);
    WriteKeeps(b1, table, lengths, HEADER_SIZE, kb);
    WriteKeeps(b2, cells, vb, HEADER_SIZE, kb);
    KeepEntries(b2, cells, vb, table, keys, 0, n);
    ThreeWrites(b0, b1, b2, b3, keys, 0, n);
    PartIs(b3, keys, values, 0, n);
  }

  lemma SamePartRefl(b: seq<Byte>, keys: seq<seq<Byte>>, lo: nat, hi: nat)
    requires lo <= hi <= |keys|
    ensures SameButPart(b, b, keys, lo, hi)
  {
  }

  lemma EmptyPart(b: seq<Byte>, keys: seq<seq<Byte>>, values: seq<Cell>, at: nat)
    requires at <= |keys| == |values| && |Flat(keys)| < 0x1_0000 && Used(|keys|, |Flat(keys)|) <= |b|
    ensures Part(b, keys, values, at, at)
  {
    hide Flat, Cum, Cells;
    PlacesInOrder(keys, at, at);
    assert keys[at..at] == [] && values[at..at] == [];
    assert |Words(values, at, at)| == 0;
  }

  lemma PartIs(b: seq<Byte>, keys: seq<seq<Byte>>, values: seq<Cell>, lo: nat, hi: nat)
    requires lo <= hi <= |keys| == |values| && |Flat(keys)| < 0x1_0000
    requires At(b, HEADER_SIZE + Cum(keys, lo), Bytes(keys, lo, hi)) && Entries(b, TableAt(|Flat(keys)|), keys, lo, hi)
    requires At(b, ValuesAt(|keys|, |Flat(keys)|) + 8 * lo, Words(values, lo, hi))
    ensures Part(b, keys, values, lo, hi)
  {
  }

  /** The first `n` entries of a page. */
  lemma FrontOf(b: seq<Byte>, node: Node, n: nat)
    requires Shows(b, node) && n <= |node.keys|
    ensures |b| == BUFFER_SIZE && Fits(node) && |Bytes(node.keys, 0, n)| == Cum(node.keys, n)
    ensures At(b, HEADER_SIZE, Bytes(node.keys, 0, n))
    ensures TableAt(|Flat(node.keys)|) + 2 * |node.keys| <= |b| && Entries(b, TableAt(|Flat(node.keys)|), node.keys, 0, n)
    ensures At(b, ValuesAt(|node.keys|, |Flat(node.keys)|), Words(node.values, 0, n))
  {
    StretchOf(b, node, 0, n);
    CumOfNone(node.keys);
  }

  lemma StretchOf(b: seq<Byte>, node: Node, lo: nat, hi: nat)
    requires Shows(b, node) && lo <= hi <= |node.keys|
    ensures |Bytes(node.keys, lo, hi)| == Cum(node.keys, hi) - Cum(node.keys, lo)
    ensures At(b, HEADER_SIZE + Cum(node.keys, lo), Bytes(node.keys, lo, hi))
    ensures TableAt(|Flat(node.keys)|) + 2 * |node.keys| <= |b| && Entries(b, TableAt(|Flat(node.keys)|), node.keys, lo, hi)
    ensures At(b, ValuesAt(|node.keys|, |Flat(node.keys)|) + 8 * lo, Words(node.values, lo, hi))
  {
    hide At, Flat, Cells, Table, EntryAt, Bytes, Words, Head, Cum, RoundUp;
    var n := |node.keys|;
    CumOfNone(node.keys);
    BytesSize(node.keys, 0, lo);
    BytesSize(node.keys, lo, hi);
    BytesOfAll(node.keys);
    WordsOfAll(node.values);
    TableEntries(b, TableAt(|Flat(node.keys)|), node.keys);
    StretchOfBytes(b, HEADER_SIZE, Bytes(node.keys, 0, lo), Bytes(node.keys, lo, hi), Bytes(node.keys, hi, n)) by {
      BytesJoin(node.keys, 0, hi, n);
      BytesJoin(node.keys, 0, lo, hi);
    }
    StretchOfBytes(b, ValuesAt(n, |Flat(node.keys)|), Words(node.values, 0, lo), Words(node.values, lo, hi), Words(node.values, hi, n)) by {
      WordsJoin(node.values, 0, hi, n);
      WordsJoin(node.values, 0, lo, hi);
    }
  }

  lemma StretchOfBytes(b: seq<Byte>, off: nat, x: seq<Byte>, y: seq<Byte>, z: seq<Byte>)
    requires At(b, off, x + y + z)
    ensures At(b, off + |x|, y)
  {
    hide At;
    AtJoin(b, off, x + y, z);
    AtJoin(b, off, x, y);
  }

  lemma SameFront(keys: seq<seq<Byte>>, keys': seq<seq<Byte>>, n: nat)
    requires n <= |keys| && n <= |keys'| && keys[0..n] == keys'[0..n]
    ensures forall i :: 0 <= i <= n ==> Cum(keys', i) == Cum(keys, i)
    ensures Bytes(keys, 0, n) == Bytes(keys', 0, n)
  {
    forall i | 0 <= i <= n ensures Cum(keys', i) == Cum(keys, i) {
      assert keys[..i] == keys[0..n][..i] && keys'[..i] == keys'[0..n][..i];
    }
  }

  /** Copies the lengths behind the new key, raised by its length. */
  method RaiseCopied(a: array<Byte>, o: array<Byte>, at: nat, count: nat, bytes: nat, table: nat, outTable: nat,
                     ghost keys: seq<seq<Byte>>, ghost key: seq<Byte>)
    requires a != o && at + count <= |keys| && bytes == |key|
    requires |Flat(keys)| < 0x1_0000 && Entries(a[..], table, keys, 0, |keys|)
    requires |Flat(Half(keys, 0, at, at + count, [key]))| < 0x1_0000 && outTable + 2 * (at + 1 + count) <= o.Length
    modifies o
    ensures Entries(o[..], outTable, Half(keys, 0, at, at + count, [key]), at + 1, at + 1 + count)
    ensures SameOutside(old(o[..]), o[..], outTable + 2 * (at + 1), outTable + 2 * (at + 1 + count))
  {
    hide At, Written, SameOutside, Cum, EntryAt, Entries, Flat, Number, Two, Half;
    ghost var half, b0 := Half(keys, 0, at, at + count, [key]), o[..];
    ghost var lo, hi := outTable + 2 * (at + 1), outTable + 2 * (at + 1 + count);
    SameRefl(b0, lo, hi);
    NoEntries(b0, outTable, half, at + 1);
    for i := 0 to count
      invariant Entries(o[..], outTable, half, at + 1, at + 1 + i)
      invariant SameOutside(b0, o[..], lo, hi)
    {
      ghost var b := o[..];
      OneEntry(a[..], table, keys, at + i);
      ReadEntry(a[..], table, keys, at + i);
      var length := Get16(a, table + 2 * (at + i));
      CumOfHalf(keys, 0, at, at + count, [key], at + i + 1);
      FlatOfOne(key);
      CumOfNone(keys);
      EntryFits(half, at + 1 + i);
      Write(o, outTable + 2 * (at + 1 + i), Two(length + bytes));
      WriteEntry(b, outTable, half, at + 1 + i, lo, hi);
      SameTrans(b0, b, o[..], lo, hi);
      KeepEntries(b, outTable + 2 * (at + 1 + i), Two(length + bytes), outTable, half, at + 1, at + 1 + i);
      AddEntry(o[..], outTable, half, at + 1, at + 1 + i);
    }
  }

  lemma OneEntry(b: seq<Byte>, off: nat, keys: seq<seq<Byte>>, i: nat)
    requires |Flat(keys)| < 0x1_0000 && i < |keys| && Entries(b, off, keys, 0, |keys|)
    ensures EntryAt(b, off, keys, i)
  {
  }

  lemma AddEntry(b: seq<Byte>, off: nat, keys: seq<seq<Byte>>, from: nat, at: nat)
    requires |Flat(keys)| < 0x1_0000 && from <= at < |keys| && Entries(b, off, keys, from, at) && EntryAt(b, off, keys, at)
    ensures Entries(b, off, keys, from, at + 1)
  {
  }

  /** Copies the entries behind the new one, as far as they go to the left page. */
  method CopyRest(a: array<Byte>, o: array<Byte>, at: nat, taken: nat, out: nat, bytes: nat, before: nat, after: nat,
                  table: nat, cells: nat, outTable: nat, outCells: nat,
                  ghost node: Node, ghost key: seq<Byte>, ghost value: Cell)
    requires a != o && Shows(a[..], node) && o.Length == BUFFER_SIZE
    requires at <= taken <= |node.keys| == |node.values| && out == taken + 1 && bytes == |key|
    requires before == Cum(node.keys, at) && before + after == Cum(node.keys, taken)
    requires table == TableAt(|Flat(node.keys)|) && cells == ValuesAt(|node.keys|, |Flat(node.keys)|)
    requires var keys := Half(node.keys, 0, at, taken, [key]);
             && |Flat(keys)| < 0x1_0000 && Used(|keys|, |Flat(keys)|) <= BUFFER_SIZE
             && outTable == TableAt(|Flat(keys)|) && outCells == ValuesAt(|keys|, |Flat(keys)|)
    modifies o
    ensures var keys, values := Half(node.keys, 0, at, taken, [key]), Half(node.values, 0, at, taken, [value]);
            && Part(o[..], keys, values, at + 1, out)
            && SameButPart(old(o[..]), o[..], keys, at + 1, out)
  {
    hide *;
    ghost var keys, values := Half(node.keys, 0, at, taken, [key]), Half(node.values, 0, at, taken, [value]);
    ghost var b, b0 := a[..], o[..];
    ShowsFits(b, node);
    StretchOf(b, node, at, taken);
    StretchOf(b, node, 0, |node.keys|);
    RestPlaces(node, at, taken, key, value);
    if after > 0 {
      AtGives(b, HEADER_SIZE + before, Bytes(node.keys, at, taken));
      AtGives(b, cells + 8 * at, Words(node.values, at, taken));
      Write(o, HEADER_SIZE + before + bytes, a[HEADER_SIZE + before..HEADER_SIZE + before + after]);
      ghost var b1 := o[..];
      var count := out - at - 1;
      RaiseCopied(a, o, at, count, bytes, table, outTable, node.keys, key);
      ghost var b2 := o[..];
      Write(o, outCells + 8 * (at + 1), a[cells + 8 * at..cells + 8 * at + 8 * count]);
      CopiedRest(b0, b1, b2, o[..], node, key, value, at, taken);
    } else {
      SamePartRefl(b0, keys, at + 1, out);
      EmptyPart(b0, keys, values, at + 1);
    }
  }

  lemma RestPlaces(node: Node, at: nat, taken: nat, key: seq<Byte>, value: Cell)
    requires Fits(node) && at <= taken <= |node.keys|
    requires var keys := Half(node.keys, 0, at, taken, [key]);
             |Flat(keys)| < 0x1_0000 && Used(|keys|, |Flat(keys)|) <= BUFFER_SIZE
    ensures var keys, values := Half(node.keys, 0, at, taken, [key]), Half(node.values, 0, at, taken, [value]);
            && |keys| == |values| == taken + 1
            && Cum(keys, at + 1) == Cum(node.keys, at) + |key|
            && Bytes(keys, at + 1, taken + 1) == Bytes(node.keys, at, taken)
            && Words(values, at + 1, taken + 1) == Words(node.values, at, taken)
            && HEADER_SIZE + Cum(keys, taken + 1) <= TableAt(|Flat(keys)|)
            && Cum(keys, taken + 1) == Cum(node.keys, taken) + |key|
            && TableAt(|Flat(keys)|) + 2 * (taken + 1) <= ValuesAt(|keys|, |Flat(keys)|)
            && ValuesAt(|keys|, |Flat(keys)|) + 8 * (taken + 1) <= BUFFER_SIZE
    ensures Cum(node.keys, at) == Cum(node.keys, taken) ==> at == taken
    ensures |Flat(node.keys)| < 0x1_0000
  {
    hide Flat, Cum, Half, RoundUp, Cells;
    var keys := Half(node.keys, 0, at, taken, [key]);
    FlatOfOne(key);
    CumOfNone(node.keys);
    CumOfHalf(node.keys, 0, at, taken, [key], at);
    CumOfHalf(node.keys, 0, at, taken, [key], taken);
    HalfRest(node.keys, 0, at, taken, [key], at);
    HalfRest(node.values, 0, at, taken, [value], at);
    PlacesInOrder(keys, 0, taken + 1);
    if at < taken {
      CumStep(node.keys, at);
      BytesSize(node.keys, at + 1, taken);
    }
    FlatBound(node);
  }

  lemma FlatBound(node: Node)
    requires Fits(node)
    ensures |Flat(node.keys)| < 0x1_0000 && TableAt(|Flat(node.keys)|) + 2 * |node.keys| <= BUFFER_SIZE
  {
  }

  lemma CopiedRest(b0: seq<Byte>, b1: seq<Byte>, b2: seq<Byte>, b3: seq<Byte>,
                   node: Node, key: seq<Byte>, value: Cell, at: nat, taken: nat)
    requires Fits(node) && at <= taken <= |node.keys| && |b0| == BUFFER_SIZE
    requires var keys, values := Half(node.keys, 0, at, taken, [key]), Half(node.values, 0, at, taken, [value]);
             && |Flat(keys)| < 0x1_0000 && Used(|keys|, |Flat(keys)|) <= BUFFER_SIZE
             && HEADER_SIZE + Cum(node.keys, at) + |key| + |Bytes(node.keys, at, taken)| <= |b0|
             && b1 == Written(b0, HEADER_SIZE + Cum(node.keys, at) + |key|, Bytes(node.keys, at, taken))
             && SameOutside(b1, b2, TableAt(|Flat(keys)|) + 2 * (at + 1), TableAt(|Flat(keys)|) + 2 * (taken + 1))
             && Entries(b2, TableAt(|Flat(keys)|), keys, at + 1, taken + 1)
             && ValuesAt(|keys|, |Flat(keys)|) + 8 * (taken + 1) <= |b2|
             && b3 == Written(b2, ValuesAt(|keys|, |Flat(keys)|) + 8 * (at + 1), Words(node.values, at, taken))
    ensures var keys, values := Half(node.keys, 0, at, taken, [key]), Half(node.values, 0, at, taken, [value]);
            Part(b3, keys, values, at + 1, taken + 1) && SameButPart(b0, b3, keys, at + 1, taken + 1)
  {
    hide Flat, Cum, RoundUp, Bytes, EntryAt, Entries, At, SameButPart, Part, SameOutside, Written, Used, Table, Cells, Half;
    var keys, values := Half(node.keys, 0, at, taken, [key]), Half(node.values, 0, at, taken, [value]);
    RestPlaces(node, at, taken, key, value);
    PlacesInOrder(keys, at + 1, taken + 1);
    var kb, vb := Bytes(node.keys, at, taken), Words(node.values, at, taken);
    var table, cells, start := TableAt(|Flat(keys)|), ValuesAt(|keys|, |Flat(keys)|), HEADER_SIZE + Cum(node.keys, at) + |key|;
    WriteSame(b0, start, kb, start, start + |kb|);
    WriteSame(b2, cells + 8 * (at + 1), vb, cells + 8 * (at + 1), cells + 8 * (taken + 1));
    SameKeeps(b1, b2, table + 2 * (at + 1), table + 2 * (taken + 1), start, kb);
    WriteKeeps(b2, cells + 8 * (at + 1), vb, start, kb);
    KeepEntries(b2, cells + 8 * (at + 1), vb, table, keys, at + 1, taken + 1);
    ThreeWrites(b0, b1, b2, b3, keys, at + 1, taken + 1);
    PartIs(b3, keys, values, at + 1, taken + 1);
  }

  /** Links and counts of a fresh page, whose overflow link is not set. */
  method SetHead(o: array<Byte>, left: Cell, right: Cell, count: nat, bytes: nat, ghost node: Node)
    requires o.Length == BUFFER_SIZE && count < 0x1_0000 && bytes < 0x1_0000
    requires At(o[..], 16, node.overflow) && node.left == left && node.right == right
    modifies o
    ensures At(o[..], 0, Head(node, count, bytes))
  {
    hide At, Written, Two;
    ghost var b0 := o[..];
    Write(o, 0, left);
    ghost var b1 := o[..];
    Write(o, 8, right);
    ghost var b2 := o[..];
    Write(o, LENGTH_AT, Two(bytes));
    ghost var b3 := o[..];
    Write(o, COUNT_AT, Two(count));
    WriteKeeps(b0, 0, left, 16, node.overflow);
    WriteKeeps(b1, 8, right, 16, node.overflow);
    WriteKeeps(b1, 8, right, 0, left);
    WriteKeeps(b2, LENGTH_AT, Two(bytes), 0, left);
    WriteKeeps(b2, LENGTH_AT, Two(bytes), 8, right);
    WriteKeeps(b2, LENGTH_AT, Two(bytes), 16, node.overflow);
    WriteKeeps(b3, COUNT_AT, Two(count), 0, left);
    WriteKeeps(b3, COUNT_AT, Two(count), 8, right);
    WriteKeeps(b3, COUNT_AT, Two(count), 16, node.overflow);
    WriteKeeps(b3, COUNT_AT, Two(count), LENGTH_AT, Two(bytes));
    HeadJoin(o[..], node, count, bytes);
  }

  lemma HeadJoin(b: seq<Byte>, node: Node, count: nat, bytes: nat)
    requires count < 0x1_0000 && bytes < 0x1_0000
    requires At(b, 0, node.left) && At(b, 8, node.right) && At(b, 16, node.overflow)
    requires At(b, COUNT_AT, Two(count)) && At(b, LENGTH_AT, Two(bytes))
    ensures At(b, 0, Head(node, count, bytes))
  {
    hide At, Two;
    AtJoin(b, COUNT_AT, Two(count), Two(bytes));
    AtJoin(b, 0, node.left, node.right);
    AtJoin(b, 0, node.left + node.right, node.overflow);
    AtJoin(b, 0, node.left + node.right + node.overflow, Two(count) + Two(bytes));
  }

  /** The new entry as a list, when it goes into this half. */
  function News<T>(here: bool, x: T): (r: seq<T>)
    ensures |r| == if here then 1 else 0
  {
    if here then [x] else []
  }

  /** The left page of a split: entries from the front, with the new one if its turn comes. */
  function LeftOf<T>(s: seq<T>, at: nat, taken: nat, out: nat, x: T): (r: seq<T>)
    requires taken <= |s| && taken == (if at < out then out - 1 else out)
    ensures |r| == out
  {
    Half(s, 0, if at < out then at else out, taken, News(at < out, x))
  }

  /** Fills the new page. */
  method FillLeft(a: array<Byte>, o: array<Byte>, nodeLink: Cell, at: nat, key: seq<Byte>, value: Cell,
                  taken: nat, out: nat, bytes: nat, before: nat, after: nat, ghost node: Node)
    requires a != o && Shows(a[..], node) && o.Length == BUFFER_SIZE && At(o[..], 16, NULL_CELL)
    requires taken <= |node.keys| == |node.values| && taken == (if at < out then out - 1 else out)
    requires at < out ==> bytes == |key| && before == Cum(node.keys, at) && before + after == Cum(node.keys, taken)
    requires at >= out ==> bytes == 0 && after == 0 && before == Cum(node.keys, taken)
    requires MIN_KEY_LENGTH <= |key| <= MAX_KEY_LENGTH
    requires var keys := LeftOf(node.keys, at, taken, out, key);
             |Flat(keys)| < 0x1_0000 && Used(|keys|, |Flat(keys)|) <= BUFFER_SIZE
    modifies o
    ensures Shows(o[..], Node(node.left, nodeLink, NULL_CELL, LeftOf(node.keys, at, taken, out, key),
                              LeftOf(node.values, at, taken, out, value)))
  {
    hide Shows, At, Fits, Flat, Part, SameButPart, Half, LeftOf, TableAt, ValuesAt, Used, Head, Cum, News;
    ghost var keys, values := LeftOf(node.keys, at, taken, out, key), LeftOf(node.values, at, taken, out, value);
    ghost var left := Node(node.left, nodeLink, NULL_CELL, keys, values);
    ShowsFits(a[..], node);
    LeftIs(node, nodeLink, at, taken, out, key, value, bytes, before, after);
    var count, total := Counts(a, node);
    var table, cells := TableAt(total), ValuesAt(count, total);
    LeftLinkOf(a[..], node);
    SetHead(o, a[0..8], nodeLink, out, bytes + before + after, left);
    ghost var b0 := o[..];
    var outTotal := bytes + before + after;
    var outTable, outCells := TableAt(outTotal), ValuesAt(out, outTotal);
    var n := if out > at then at else out;
    CopyFront(a, o, n, before, table, cells, outTable, outCells, node, keys, values);
    ghost var b1 := o[..];
    HeadKept(b0, b1, left, out, outTotal, 0, n);
    if bytes > 0 {
      NewPutFits(at, before, outTable, outCells, keys, o.Length);
      PutNew(o, at, before, key, value, outTable, outCells);
      NewIsPut(b1, at, before, key, value, outTable, outCells, keys, values);
      ghost var b2 := o[..];
      PartKept(b1, b2, keys, values, 0, n, at, at + 1);
      HeadKept(b1, b2, left, out, outTotal, at, at + 1);
      CopyRest(a, o, at, taken, out, bytes, before, after, table, cells, outTable, outCells, node, key, value);
      ghost var b3 := o[..];
      PartKept(b2, b3, keys, values, 0, n, at + 1, out);
      PartKept(b2, b3, keys, values, at, at + 1, at + 1, out);
      HeadKept(b2, b3, left, out, outTotal, at + 1, out);
      PartJoin(b3, keys, values, 0, at, at + 1);
      PartJoin(b3, keys, values, 0, at + 1, out);
    }
    PartShows(o[..], left);
  }

  lemma LeftLinkOf(b: seq<Byte>, node: Node)
    requires Shows(b, node)
    ensures |b| == BUFFER_SIZE && b[0..8] == node.left
  {
    hide Flat, Table, Cells;
    var head := Head(node, |node.keys|, |Flat(node.keys)|);
    assert b[0..8] == b[0..HEADER_SIZE][0..8];
    assert head[0..8] == node.left;
  }

  lemma HeadKept(b: seq<Byte>, b': seq<Byte>, node: Node, count: nat, bytes: nat, lo: nat, hi: nat)
    requires lo <= hi <= |node.keys| && count < 0x1_0000 && bytes < 0x1_0000
    requires SameButPart(b, b', node.keys, lo, hi) && At(b, 0, Head(node, count, bytes))
    ensures At(b', 0, Head(node, count, bytes))
  {
    hide Flat, Cum, Head;
    AtKept(b, b', 0, Head(node, count, bytes));
  }

  lemma LeftIs(node: Node, nodeLink: Cell, at: nat, taken: nat, out: nat, key: seq<Byte>, value: Cell, bytes: nat, before: nat, after: nat)
    requires Fits(node) && taken <= |node.keys| && taken == (if at < out then out - 1 else out)
    requires at < out ==> bytes == |key| && before == Cum(node.keys, at) && before + after == Cum(node.keys, taken)
    requires at >= out ==> bytes == 0 && after == 0 && before == Cum(node.keys, taken)
    requires MIN_KEY_LENGTH <= |key| <= MAX_KEY_LENGTH
    requires var keys := LeftOf(node.keys, at, taken, out, key);
             |Flat(keys)| < 0x1_0000 && Used(|keys|, |Flat(keys)|) <= BUFFER_SIZE
    ensures var keys, values := LeftOf(node.keys, at, taken, out, key), LeftOf(node.values, at, taken, out, value);
            var n := if at < out then at else out;
            && |keys| == |values| == out < 0x1_0000 && |Flat(keys)| == bytes + before + after
            && n <= out && keys[0..n] == node.keys[0..n] && values[0..n] == node.values[0..n]
            && (at < out ==> keys[at] == key && values[at] == value && Cum(keys, at) == before)
            && Fits(Node(node.left, nodeLink, NULL_CELL, keys, values))
    ensures at < out ==> LeftOf(node.keys, at, taken, out, key) == Half(node.keys, 0, at, taken, [key])
    ensures at < out ==> LeftOf(node.values, at, taken, out, value) == Half(node.values, 0, at, taken, [value])
  {
    hide Flat, Cum, RoundUp;
    var n := if at < out then at else out;
    FlatOfHalf(node.keys, 0, n, taken, News(at < out, key));
    CumOfNone(node.keys);
    if at < out {
      FlatOfOne(key);
      CumOfHalf(node.keys, 0, n, taken, News(at < out, key), at);
    } else {
      FlatOfNone(News(at < out, key));
    }
    HalfFront(node.keys, 0, n, taken, News(at < out, key), n);
    HalfFront(node.values, 0, n, taken, News(at < out, value), n);
  }

  lemma FlatOfNone(keys: seq<seq<Byte>>)
    requires keys == []
    ensures Flat(keys) == []
  {
  }

  // ---- The right half ----

  /** What stays in the old page: entries from `skip` on, with the new one at `at` if `at` is not before them. */
  function RightOf<T>(s: seq<T>, at: int, skip: nat, x: T): (r: seq<T>)
    requires skip <= |s| && at <= |s|
    ensures |r| == |s| - skip + (if skip <= at then 1 else 0)
  {
    Half(s, skip, if skip <= at then at else |s|, |s|, News(skip <= at, x))
  }

  lemma CumOfRight(keys: seq<seq<Byte>>, at: int, skip: nat, key: seq<Byte>, i: nat)
    requires skip <= |keys| && at <= |keys| && skip + i <= |keys|
    ensures Cum(keys, skip) <= Cum(keys, skip + i) <= |Flat(keys)|
    ensures at < skip || skip + i <= at ==> Cum(RightOf(keys, at, skip, key), i) == Cum(keys, skip + i) - Cum(keys, skip)
    ensures skip <= at <= skip + i ==>
              Cum(RightOf(keys, at, skip, key), i + 1) == Cum(keys, skip + i) - Cum(keys, skip) + |key|
    ensures |Flat(RightOf(keys, at, skip, key))|
         == |Flat(keys)| - Cum(keys, skip) + (if skip <= at then |key| else 0)
  {
    hide Flat, Cum, Half;
    var mid := if skip <= at then at else |keys|;
    CumOfHalf(keys, skip, mid, |keys|, News(skip <= at, key), i);
    FlatOfHalf(keys, skip, mid, |keys|, News(skip <= at, key));
    CumAll(keys, skip + i);
    if skip <= at {
      FlatOfOne(key);
    } else {
      FlatOfNone(News(skip <= at, key));
    }
  }

  /** Lowers the lengths that stay, in place: those in front of the new key by what has left, those
      behind it also raised by its length. */
  method LowerRest(a: array<Byte>, table: nat, count: nat, total: nat, sum: nat, at: int, length: nat, skip: nat,
                   ghost keys: seq<seq<Byte>>, ghost key: seq<Byte>)
    returns (out: nat, bytes: nat, before: nat, after: nat)
    requires count == |keys| && 1 <= skip <= count && at <= count && total == Cum(keys, skip) && sum == |Flat(keys)|
    requires length == |key| > 0 && sum + length < 0x1_0000
    requires |Flat(RightOf(keys, at, skip, key))| < 0x1_0000
    requires table >= 2 && table + 2 * count <= a.Length && Entries(a[..], table, keys, 0, count)
    modifies a
    ensures var right := RightOf(keys, at, skip, key);
            && out == |right| + 1 && bytes + before + after == |Flat(right)|
            && Entries(a[..], table + 2 * skip, right, 0, if skip <= at then at - skip else |right|)
            && (skip <= at ==> Entries(a[..], table + 2 * skip - 2, right, at - skip + 1, |right|))
    ensures skip <= at ==> bytes == length && before == Cum(keys, at) - total && after == sum - Cum(keys, at)
    ensures at < skip ==> bytes == 0 && before == sum - total && after == 0
    ensures SameOutside(old(a[..]), a[..], table + 2 * skip, table + 2 * count)
  {
    hide Flat, Cum, EntryAt, Entries, At, SameOutside, RightOf, Two, Number, Written;
    ghost var right, b0 := RightOf(keys, at, skip, key), a[..];
    ghost var lo, hi, mid := table + 2 * skip, table + 2 * count, if skip <= at then at else count;
    FromEntry(b0, table, keys, skip);
    SameRefl(b0, lo, hi);
    NoEntries(b0, lo, right, 0);
    CumOfRight(keys, at, skip, key, 0);
    CumOfRight(keys, at, skip, key, mid - skip);
    CumAll(keys, count);
    out, bytes, before, after := 0, 0, 0, 0;
    var i := skip;
    while i < count + 1
      invariant skip <= i <= count + 1 && out == i - skip + (if bytes > 0 then 1 else 0)
      invariant bytes == 0 ==> before == 0 && after == 0 && (skip <= at ==> i <= at)
      invariant bytes > 0 ==> skip <= at <= i && bytes == length && before == Cum(keys, at) - total
      invariant bytes > 0 ==> after == Cum(keys, if i < count then i else count) - Cum(keys, at)
      invariant Entries(a[..], table, keys, if i < count then i else count, count)
      invariant Entries(a[..], lo, right, 0, (if i < mid then i else mid) - skip)
      invariant bytes > 0 ==> Entries(a[..], lo - 2, right, at - skip + 1, (if i < count then i else count) - skip + 1)
      invariant SameOutside(b0, a[..], lo, hi)
      decreases count + 1 - i, if bytes == 0 then 1 else 0
    {
      if i == at && bytes == 0 {
        if i > skip {
          LastEntry(a[..], lo, right, i - skip);
          ReadEntry(a[..], lo, right, i - skip - 1);
          before := Get16(a, table + 2 * (i - 1));
        }
        bytes := length;
        NoEntries(a[..], lo - 2, right, at - skip + 1);
      } else {
        if i < count {
          after := LowerOne(a, table, count, total, at, bytes, before, after, skip, i, keys, key, b0);
        }
        i := i + 1;
      }
      out := out + 1;
      if i > count && at < i {
        break;
      }
    }
    assert at < i;  // the source's first correction of the byte counts never applies
    if at < skip {
      before := sum - total;
    }
  }

  lemma FromEntry(b: seq<Byte>, off: nat, keys: seq<seq<Byte>>, from: nat)
    requires |Flat(keys)| < 0x1_0000 && from <= |keys| && Entries(b, off, keys, 0, |keys|)
    ensures Entries(b, off, keys, from, |keys|)
  {
  }

  /** One step of LowerRest. */
  method LowerOne(a: array<Byte>, table: nat, count: nat, total: nat, at: int, bytes: nat, before: nat, after: nat, skip: nat,
                  i: nat, ghost keys: seq<seq<Byte>>, ghost key: seq<Byte>, ghost b0: seq<Byte>)
    returns (after': nat)
    requires count == |keys| && 1 <= skip <= i < count && at <= count && total == Cum(keys, skip)
    requires table >= 2 && table + 2 * count <= a.Length && |Flat(keys)| + |key| < 0x1_0000
    requires bytes == 0 ==> at < skip || i < at
    requires bytes > 0 ==> skip <= at <= i && bytes == |key| && before == Cum(keys, at) - total
    requires |Flat(RightOf(keys, at, skip, key))| < 0x1_0000
    requires Entries(a[..], table, keys, i, count)
    requires var right, mid := RightOf(keys, at, skip, key), if skip <= at then at else count;
             Entries(a[..], table + 2 * skip, right, 0, (if i < mid then i else mid) - skip)
    requires bytes > 0 ==> Entries(a[..], table + 2 * skip - 2, RightOf(keys, at, skip, key), at - skip + 1, i - skip + 1)
    requires SameOutside(b0, a[..], table + 2 * skip, table + 2 * count)
    modifies a
    ensures after' == if bytes > 0 then Cum(keys, i + 1) - Cum(keys, at) else after
    ensures Entries(a[..], table, keys, i + 1, count)
    ensures var right, mid := RightOf(keys, at, skip, key), if skip <= at then at else count;
            Entries(a[..], table + 2 * skip, right, 0, (if i + 1 < mid then i + 1 else mid) - skip)
    ensures bytes > 0 ==> Entries(a[..], table + 2 * skip - 2, RightOf(keys, at, skip, key), at - skip + 1, i - skip + 2)
    ensures SameOutside(b0, a[..], table + 2 * skip, table + 2 * count)
  {
    hide Flat, Cum, EntryAt, Entries, At, SameOutside, RightOf, Two, Number, Written;
    ghost var right, b := RightOf(keys, at, skip, key), a[..];
    ghost var lo, hi := table + 2 * skip, table + 2 * count;
    RestEntries(b, table, keys, i, count);
    ReadEntry(b, table, keys, i);
    var length := Get16(a, table + 2 * i);
    CumOfRight(keys, at, skip, key, i + 1 - skip);
    BytesSize(keys, skip, i + 1);
    length := length - total;
    after' := after;
    if bytes > 0 {
      length := length + bytes;
      BytesSize(keys, at, i + 1);
      BytesSize(keys, skip, at);
      after' := length - before - bytes;
      EntryFits(right, i - skip + 1);
      Write(a, table + 2 * i, Two(length));
      WriteEntry(b, lo - 2, right, i - skip + 1, lo, hi);
      KeepEntries(b, table + 2 * i, Two(length), lo - 2, right, at - skip + 1, i - skip + 1);
      AddEntry(a[..], lo - 2, right, at - skip + 1, i - skip + 1);
      KeepEntries(b, table + 2 * i, Two(length), lo, right, 0, at - skip);
    } else {
      EntryFits(right, i - skip);
      Write(a, table + 2 * i, Two(length));
      WriteEntry(b, lo, right, i - skip, lo, hi);
      KeepEntries(b, table + 2 * i, Two(length), lo, right, 0, i - skip);
      AddEntry(a[..], lo, right, 0, i - skip);
    }
    KeepEntries(b, table + 2 * i, Two(length), table, keys, i + 1, count);
    SameTrans(b0, b, a[..], lo, hi);
  }

  lemma MovedEntries(b: seq<Byte>, dst: nat, src: nat, n: nat, off: nat, off': nat, keys: seq<seq<Byte>>, from: nat, to: nat)
    requires dst + n <= |b| && src + n <= |b| && |Flat(keys)| < 0x1_0000 && from <= to <= |keys|
    requires Entries(b, off, keys, from, to) && off' + src == off + dst
    requires from == to || (src <= off + 2 * from && off + 2 * to <= src + n)
    ensures Entries(Moved(b, dst, src, n), off', keys, from, to)
  {
    hide Flat, Cum, EntryAt;
    var r := Moved(b, dst, src, n);
    forall i | from <= i < to ensures EntryAt(r, off', keys, i) {
      assert r[off' + 2 * i] == b[off + 2 * i] && r[off' + 2 * i + 1] == b[off + 2 * i + 1];
      CopiedEntry(b, off, keys, i, r, off', keys, i);
    }
  }

  lemma MoveTakesMore(b: seq<Byte>, dst: nat, src: nat, n: nat, data: seq<Byte>)
    requires dst + n <= |b| && src + n <= |b| && At(b, src, data) && |data| <= n
    ensures At(Moved(b, dst, src, n), dst, data)
  {
    var r := Moved(b, dst, src, n);
    assert r[dst..dst + |data|] == b[src..src + |data|];
  }

  /** Closing up the keys changes nothing in front of them, nothing from `lo` to `hi`, nothing behind. */
  ghost predicate PackFrame(b: seq<Byte>, b': seq<Byte>, keys: nat, end: nat, lo: nat, hi: nat) {
    && |b| == |b'|
    && forall x {:trigger b'[x]} :: 0 <= x < keys || lo <= x < hi || (end <= x && lo <= x) ==> x < |b| ==> b'[x] == b[x]
  }

  lemma FrameKeeps(b: seq<Byte>, b': seq<Byte>, keys: nat, end: nat, lo: nat, hi: nat, off: nat, data: seq<Byte>)
    requires PackFrame(b, b', keys, end, lo, hi) && At(b, off, data)
    requires off + |data| <= keys || (lo <= off && (off + |data| <= hi || end <= off))
    ensures At(b', off, data)
  {
    AtKept(b, b', off, data);
  }

  lemma FrameKeepsEntries(b: seq<Byte>, b': seq<Byte>, keys: nat, end: nat, lo: nat, hi: nat,
                          off: nat, right: seq<seq<Byte>>, from: nat, to: nat)
    requires PackFrame(b, b', keys, end, lo, hi) && |Flat(right)| < 0x1_0000 && from <= to <= |right|
    requires Entries(b, off, right, from, to) && (from == to || (lo <= off + 2 * from && off + 2 * to <= hi))
    ensures Entries(b', off, right, from, to)
  {
    hide Flat, Cum;
    forall i | from <= i < to ensures EntryAt(b', off, right, i) {
      EntryKept(b, b', off, right, i);
    }
  }

  /** Closes up the key bytes, leaving room for the new key. */
  function KeysMoved(b: seq<Byte>, keys: nat, total: nat, bytes: nat, before: nat, after: nat): (r: seq<Byte>)
    requires keys + total + before + after <= |b| && keys + before + bytes + after <= |b|
    ensures |r| == |b|
  {
    var b1 := if before > 0 then Moved(b, keys, keys + total, before) else b;
    if after > 0 then Moved(b1, keys + before + bytes, keys + total + before, after) else b1
  }

  method MoveKeys(a: array<Byte>, keys: nat, total: nat, bytes: nat, before: nat, after: nat)
    requires keys + total + before + after <= a.Length && keys + before + bytes + after <= a.Length
    modifies a
    ensures a[..] == KeysMoved(old(a[..]), keys, total, bytes, before, after)
  {
    hide Moved;
    if before > 0 {
      Memmove(a, keys, keys + total, before);
    }
    if after > 0 {
      Memmove(a, keys + before + bytes, keys + total + before, after);
    }
  }

  lemma KeysArrive(b0: seq<Byte>, keys: nat, total: nat, bytes: nat, before: nat, after: nat, lo: nat, hi: nat,
                   front: seq<Byte>, rest: seq<Byte>)
    requires before == |front| && after == |rest| && keys + total + before + after <= lo <= hi <= |b0|
    requires At(b0, keys + total, front) && At(b0, keys + total + before, rest)
    requires keys + before + bytes + after <= |b0|
    requires after > 0 ==> keys + before + bytes + after <= lo || hi <= keys + before + bytes
    ensures var r := KeysMoved(b0, keys, total, bytes, before, after);
            && At(r, keys, front) && At(r, keys + before + bytes, rest)
            && PackFrame(b0, r, keys, keys + before + bytes + after, lo, hi)
  {
    hide Moved, At;
    var b1 := if before > 0 then Moved(b0, keys, keys + total, before) else b0;
    if before > 0 {
      MoveTakes(b0, keys, keys + total, before, front);
      MoveKeeps(b0, keys, keys + total, before, keys + total + before, rest);
      MoveSame(b0, keys, keys + total, before, keys, keys + before);
    } else {
      NothingAt(b0, keys, front);
      SameRefl(b0, keys, keys + before);
    }
    if after > 0 {
      MoveTakes(b1, keys + before + bytes, keys + total + before, after, rest);
      MoveKeeps(b1, keys + before + bytes, keys + total + before, after, keys, front);
      MoveSame(b1, keys + before + bytes, keys + total + before, after, keys + before + bytes, keys + before + bytes + after);
    } else {
      NothingAt(b1, keys + before + bytes, rest);
      SameRefl(b1, keys + before + bytes, keys + before + bytes + after);
    }
  }

  /** Moves a table of cells of `width` bytes: `moved` of them from `skip` on, then `rest` more behind the
      place of the new one; each move takes one too many when nothing follows it. */
  function TableMoved(b: seq<Byte>, width: nat, table: nat, outTable: nat, skip: nat, moved: nat, r: int, rest: nat,
                      before: nat, after: nat): (r': seq<Byte>)
    requires before > 0 ==> table + width * (skip + moved) <= |b| && outTable + width * moved <= |b|
    requires after > 0 ==> r >= 0 && table + width * (skip + r + rest) <= |b| && outTable + width * (r + 1 + rest) <= |b|
    ensures |r'| == |b|
  {
    WidthAdds(width, skip, moved);
    var b1 := if before > 0 then Moved(b, outTable, table + width * skip, width * moved) else b;
    if after > 0 then
      WidthAdds(width, skip + r, rest);
      WidthAdds(width, r + 1, rest);
      Moved(b1, outTable + width * (r + 1), table + width * (skip + r), width * rest)
    else b1
  }

  lemma WidthAdds(width: nat, x: nat, y: nat)
    ensures width * (x + y) == width * x + width * y
  {
  }

  method MoveTable(a: array<Byte>, width: nat, table: nat, outTable: nat, skip: nat, moved: nat, r: int, rest: nat,
                   before: nat, after: nat)
    requires before > 0 ==> table + width * (skip + moved) <= a.Length && outTable + width * moved <= a.Length
    requires after > 0 ==> r >= 0 && table + width * (skip + r + rest) <= a.Length && outTable + width * (r + 1 + rest) <= a.Length
    modifies a
    ensures a[..] == TableMoved(old(a[..]), width, table, outTable, skip, moved, r, rest, before, after)
  {
    hide Moved;
    WidthAdds(width, skip, moved);
    if before > 0 {
      Memmove(a, outTable, table + width * skip, width * moved);
    }
    if after > 0 {
      WidthAdds(width, skip + r, rest);
      WidthAdds(width, r + 1, rest);
      Memmove(a, outTable + width * (r + 1), table + width * (skip + r), width * rest);
    }
  }

  /** The lengths come to their new table. */
  lemma LengthsArrive(b0: seq<Byte>, table: nat, outTable: nat, skip: nat, moved: nat, r: int, rest: nat,
                      before: nat, after: nat, right: seq<seq<Byte>>, m: nat)
    requires |Flat(right)| < 0x1_0000 && m <= |right| && table >= 2 && skip >= 1
    requires Entries(b0, table + 2 * skip, right, 0, m) && (before == 0 <==> m == 0)
    requires before > 0 ==> m <= moved <= |right| + 1 && table + 2 * skip + 2 * moved <= |b0|
    requires after > 0 ==> r == m < |right| && |right| - m - 1 <= rest <= |right| - m
    requires after > 0 ==> Entries(b0, table + 2 * skip - 2, right, m + 1, |right|)
    requires after > 0 ==> table + 2 * skip + 2 * m + 2 * rest <= |b0|
    requires before > 0 && after > 0 ==> moved == m
    requires before > 0 && after > 0 ==> outTable <= table + 2 * skip || table + 2 * skip - 2 + 2 * |right| <= outTable
    requires outTable + 2 * |right| + 2 <= |b0|
    ensures var now := TableMoved(b0, 2, table, outTable, skip, moved, r, rest, before, after);
            && Entries(now, outTable, right, 0, m)
            && (after > 0 ==> Entries(now, outTable, right, m + 1, |right|))
            && SameOutside(b0, now, outTable, outTable + 2 * |right| + 2)
  {
    hide Moved, At, Entries, Flat, SameOutside;
    var lo, hi := outTable, outTable + 2 * |right| + 2;
    var b1 := if before > 0 then Moved(b0, outTable, table + 2 * skip, 2 * moved) else b0;
    if before > 0 {
      MoveSame(b0, outTable, table + 2 * skip, 2 * moved, lo, hi);
      MovedEntries(b0, outTable, table + 2 * skip, 2 * moved, table + 2 * skip, outTable, right, 0, m);
      if after > 0 {
        SkipEntries(b0, outTable, table + 2 * skip, 2 * moved, table + 2 * skip - 2, right, m + 1, |right|);
      }
    } else {
      SameRefl(b0, lo, hi);
      NoEntries(b0, outTable, right, 0);
    }
    if after > 0 {
      MoveSame(b1, outTable + 2 * (m + 1), table + 2 * (skip + m), 2 * rest, lo, hi);
      MovedEntries(b1, outTable + 2 * (m + 1), table + 2 * (skip + m), 2 * rest, table + 2 * skip - 2, outTable, right, m + 1, |right|);
      SkipEntries(b1, outTable + 2 * (m + 1), table + 2 * (skip + m), 2 * rest, outTable, right, 0, m);
    } else {
      SameRefl(b1, lo, hi);
    }
    SameTrans(b0, b1, TableMoved(b0, 2, table, outTable, skip, moved, r, rest, before, after), lo, hi);
  }

  /** And so do the values. */
  lemma ValuesArrive(b0: seq<Byte>, cells: nat, outCells: nat, skip: nat, moved: nat, r: int, rest: nat,
                     before: nat, after: nat, m: nat, size: nat, front: seq<Byte>, tail: seq<Byte>)
    requires m <= size && |front| == 8 * m && (before == 0 <==> m == 0)
    requires At(b0, cells + 8 * skip, front)
    requires before > 0 ==> m <= moved <= size + 1 && cells + 8 * skip + 8 * moved <= |b0|
    requires after > 0 ==> r == m < size && size - m - 1 <= rest <= size - m && |tail| == 8 * (size - m - 1)
    requires after > 0 ==> At(b0, cells + 8 * (skip + m), tail) && cells + 8 * (skip + m + rest) <= |b0|
    requires before > 0 && after > 0 ==> moved == m && outCells <= cells + 8 * skip
    requires outCells + 8 * size + 8 <= |b0|
    ensures var now := TableMoved(b0, 8, cells, outCells, skip, moved, r, rest, before, after);
            && At(now, outCells, front) && (after > 0 ==> At(now, outCells + 8 * (m + 1), tail))
            && SameOutside(b0, now, outCells, outCells + 8 * size + 8)
  {
    hide Moved, At, SameOutside;
    var lo, hi := outCells, outCells + 8 * size + 8;
    var b1 := if before > 0 then Moved(b0, outCells, cells + 8 * skip, 8 * moved) else b0;
    if before > 0 {
      MoveSame(b0, outCells, cells + 8 * skip, 8 * moved, lo, hi);
      MoveTakesMore(b0, outCells, cells + 8 * skip, 8 * moved, front);
      if after > 0 {
        MoveKeeps(b0, outCells, cells + 8 * skip, 8 * moved, cells + 8 * (skip + m), tail);
      }
    } else {
      SameRefl(b0, lo, hi);
      NothingAt(b0, outCells, front);
    }
    if after > 0 {
      MoveSame(b1, outCells + 8 * (m + 1), cells + 8 * (skip + m), 8 * rest, lo, hi);
      MoveTakesMore(b1, outCells + 8 * (m + 1), cells + 8 * (skip + m), 8 * rest, tail);
      MoveKeeps(b1, outCells + 8 * (m + 1), cells + 8 * (skip + m), 8 * rest, outCells, front);
    } else {
      SameRefl(b1, lo, hi);
    }
    SameTrans(b0, b1, TableMoved(b0, 8, cells, outCells, skip, moved, r, rest, before, after), lo, hi);
  }
}
