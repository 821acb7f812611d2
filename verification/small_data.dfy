/** The small_data section at the end of an inode block: attributes packed one behind the other
    (bfs.h, small_data; Inode.cpp, _AddSmallData, _RemoveSmallData, FindSmallData). */
module SmallData {
  import opened NodeLayout
  import opened NodeBytes
  import opened NodePage

  type Kind = s: seq<Byte> | |s| == 4 witness [0, 0, 0, 0]

  /** An attribute: its type code, name and data. */
  datatype Attribute = Attribute(kind: Kind, name: seq<Byte>, data: seq<Byte>)

  function Zeros(n: nat): (r: seq<Byte>)
    ensures |r| == n
  {
    seq(n, i => 0)
  }

  /** type, name_size, data_size. */
  function Fields(kind: Kind, nameSize: nat, dataSize: nat): (r: seq<Byte>)
    requires nameSize < 0x1_0000 && dataSize < 0x1_0000
    ensures |r| == 8
  {
    kind + Two(nameSize) + Two(dataSize)
  }

  /** small_data::Size(). */
  function Size(nameSize: nat, dataSize: nat): nat {
    8 + nameSize + 3 + dataSize + 1
  }

  /** A C string that can be stored: not empty, no NUL inside. */
  predicate Named(name: seq<Byte>) {
    name != [] && forall i :: 0 <= i < |name| ==> name[i] != 0
  }

  predicate Storable(a: Attribute) {
    Named(a.name) && |a.name| < 0x1_0000 && |a.data| < 0x1_0000
  }

  /** An attribute as it is stored: three zeros behind the name, one behind the data. */
  function Bytes(a: Attribute): (r: seq<Byte>)
    requires |a.name| < 0x1_0000 && |a.data| < 0x1_0000
    ensures |r| == Size(|a.name|, |a.data|)
  {
    Fields(a.kind, |a.name|, |a.data|) + a.name + Zeros(3) + a.data + Zeros(1)
  }

  ghost predicate AllStorable(list: seq<Attribute>) {
    forall i :: 0 <= i < |list| ==> Storable(list[i])
  }

  function Packed(list: seq<Attribute>): seq<Byte>
    requires AllStorable(list)
  {
    if list == [] then [] else Bytes(list[0]) + Packed(list[1..])
  }

  lemma PackedFirst(list: seq<Attribute>)
    requires AllStorable(list) && list != []
    ensures Storable(list[0]) && AllStorable(list[1..]) && Packed(list) == Bytes(list[0]) + Packed(list[1..])
  {
  }

  lemma {:induction false} PackedJoin(a: seq<Attribute>, b: seq<Attribute>)
    requires AllStorable(a) && AllStorable(b)
    ensures AllStorable(a + b) && Packed(a + b) == Packed(a) + Packed(b)
  {
    hide Bytes, Named;
    if a == [] {
      assert a + b == b;
    } else {
      hide Packed;
      var rest := a[1..];
      assert (a + b)[0] == a[0] && (a + b)[1..] == rest + b;
      PackedJoin(rest, b);
      PackedFirst(a);
      PackedFirst(a + b);
      Regroup(Bytes(a[0]), Packed(rest), Packed(b));
    }
  }

  /** Nobody has the name twice. */
  ghost predicate Distinct(list: seq<Attribute>) {
    forall i, j :: 0 <= i < j < |list| ==> list[i].name != list[j].name
  }

  /** A walk that has come to `off` stops: too few bytes are left, or the name size is zero. */
  predicate IsLast(b: seq<Byte>, off: nat) {
    off + 8 > |b| || Number(b[off + 4..off + 6]) == 0
  }

  /** The section holds the attributes, in this order, and a walk stops behind them. */
  ghost predicate Stores(b: seq<Byte>, list: seq<Attribute>) {
    && AllStorable(list) && Distinct(list)
    && At(b, 0, Packed(list)) && IsLast(b, |Packed(list)|)
  }

  // ---- one record among the others ----

  /** The section is `before`, one attribute, and `after`. */
  ghost predicate Split(b: seq<Byte>, before: seq<Attribute>, a: Attribute, after: seq<Attribute>)
    requires AllStorable(before) && Storable(a) && AllStorable(after)
  {
    && At(b, 0, Packed(before))
    && At(b, |Packed(before)|, Bytes(a))
    && At(b, |Packed(before)| + |Bytes(a)|, Packed(after))
  }

  lemma SplitIs(b: seq<Byte>, before: seq<Attribute>, a: Attribute, after: seq<Attribute>)
    requires AllStorable(before) && Storable(a) && AllStorable(after)
    ensures AllStorable(before + [a] + after)
    ensures Split(b, before, a, after) <==> At(b, 0, Packed(before + [a] + after))
    ensures |Packed(before + [a] + after)| == |Packed(before)| + |Bytes(a)| + |Packed(after)|
  {
    hide At, Bytes, Named;
    PackedOne(a);
    PackedJoin(before, [a]);
    PackedJoin(before + [a], after);
    AtJoin(b, 0, Packed(before) + Bytes(a), Packed(after));
    AtJoin(b, 0, Packed(before), Bytes(a));
  }

  lemma PackedOne(a: Attribute)
    requires Storable(a)
    ensures AllStorable([a]) && Packed([a]) == Bytes(a)
  {
    hide Bytes, Named;
    assert Packed([a]) == Bytes(a) + Packed([]);
  }

  /** The pieces of a record. */
  ghost predicate Parts(b: seq<Byte>, off: nat, a: Attribute)
    requires |a.name| < 0x1_0000 && |a.data| < 0x1_0000
  {
    && At(b, off, Fields(a.kind, |a.name|, |a.data|))
    && At(b, off + 8, a.name)
    && At(b, off + 8 + |a.name|, Zeros(3))
    && At(b, off + 8 + |a.name| + 3, a.data)
    && At(b, off + 8 + |a.name| + 3 + |a.data|, Zeros(1))
  }

  lemma PartsJoin(b: seq<Byte>, off: nat, a: Attribute)
    requires |a.name| < 0x1_0000 && |a.data| < 0x1_0000
    ensures Parts(b, off, a) <==> At(b, off, Bytes(a))
  {
    hide At, Fields, Zeros;
    var fields := Fields(a.kind, |a.name|, |a.data|);
    AtJoin(b, off, fields + a.name + Zeros(3) + a.data, Zeros(1));
    AtJoin(b, off, fields + a.name + Zeros(3), a.data);
    AtJoin(b, off, fields + a.name, Zeros(3));
    AtJoin(b, off, fields, a.name);
  }

  /** The two sizes, read back. */
  lemma SizesAt(b: seq<Byte>, off: nat, a: Attribute)
    requires |a.name| < 0x1_0000 && |a.data| < 0x1_0000 && At(b, off, Fields(a.kind, |a.name|, |a.data|))
    ensures off + 8 <= |b| && Number(b[off + 4..off + 6]) == |a.name| && Number(b[off + 6..off + 8]) == |a.data|
  {
    assert b[off + 4..off + 6] == b[off..off + 8][4..6] == Two(|a.name|);
    assert b[off + 6..off + 8] == b[off..off + 8][6..8] == Two(|a.data|);
  }

  lemma WrittenHere(b: seq<Byte>, off: nat, a: Attribute)
    requires |a.name| < 0x1_0000 && |a.data| < 0x1_0000 && At(b, off, Bytes(a))
    ensures off + 8 <= |b| && Number(b[off + 4..off + 6]) == |a.name| && Number(b[off + 6..off + 8]) == |a.data|
    ensures off + |Bytes(a)| <= |b| && Parts(b, off, a)
  {
    hide Fields, Bytes, Zeros;
    PartsJoin(b, off, a);
    SizesAt(b, off, a);
  }

  lemma StoredHere(b: seq<Byte>, off: nat, a: Attribute)
    requires Storable(a) && At(b, off, Bytes(a))
    ensures !IsLast(b, off) && off + |Bytes(a)| <= |b| && Parts(b, off, a)
  {
    hide Fields, Bytes, Zeros;
    WrittenHere(b, off, a);
  }

  lemma AtElement(b: seq<Byte>, off: nat, data: seq<Byte>, k: nat)
    requires At(b, off, data) && k < |data|
    ensures off + k < |b| && b[off + k] == data[k]
  {
    assert b[off..off + |data|][k] == b[off + k];
  }

  // ---- the section ----

  /** What a search by name finds. */
  ghost predicate Where(list: seq<Attribute>, name: seq<Byte>, index: nat) {
    && index <= |list|
    && (forall i :: 0 <= i < index ==> list[i].name != name)
    && (index < |list| ==> list[index].name == name)
  }

  /** The section after an attribute has been put in: in the place of the one of its name, or last; one
      without a name cannot be seen. */
  function Put(list: seq<Attribute>, index: nat, a: Attribute): seq<Attribute>
    requires index <= |list|
  {
    if a.name == [] then list
    else if index < |list| then list[index := a]
    else list + [a]
  }

  /** The bytes in use when the attribute number `index` is replaced, or one appended. */
  function RoomNeeded(list: seq<Attribute>, index: nat, nameSize: nat, dataSize: nat): int
    requires AllStorable(list) && index <= |list|
  {
    |Packed(list)| + Size(nameSize, dataSize) - if index < |list| then |Bytes(list[index])| else 0
  }

  /** What is read of some data from a position on. */
  function Window(data: seq<Byte>, pos: int, length: nat): seq<Byte> {
    var from := if pos < 0 then 0 else pos;
    if from >= |data| then [] else if from + length > |data| then data[from..] else data[from..from + length]
  }

  // ---- the bytes tell the attributes ----

  /** Records at the same place are the same. */
  lemma OneRecord(b: seq<Byte>, off: nat, x: Attribute, y: Attribute)
    requires Storable(x) && Storable(y) && At(b, off, Bytes(x)) && At(b, off, Bytes(y))
    ensures x == y
  {
    hide Bytes, Fields, Named, Zeros, Two;
    WrittenHere(b, off, x);
    WrittenHere(b, off, y);
    SameAt(b, off + 8, x.name, y.name);
    SameAt(b, off + 8 + |x.name| + 3, x.data, y.data);
    KindAt(b, off, x);
    KindAt(b, off, y);
  }

  lemma SameAt(b: seq<Byte>, off: nat, x: seq<Byte>, y: seq<Byte>)
    requires At(b, off, x) && At(b, off, y) && |x| == |y|
    ensures x == y
  {
  }

  lemma KindAt(b: seq<Byte>, off: nat, a: Attribute)
    requires |a.name| < 0x1_0000 && |a.data| < 0x1_0000 && At(b, off, Fields(a.kind, |a.name|, |a.data|))
    ensures off + 8 <= |b| && b[off..off + 4] == a.kind
  {
    assert b[off..off + 4] == b[off..off + 8][..4] == a.kind;
  }

  /** A section stores one list of attributes only. */
  lemma OneList(b: seq<Byte>, list: seq<Attribute>, list': seq<Attribute>)
    requires Stores(b, list) && Stores(b, list')
    ensures list == list'
  {
    hide Packed;
    SameRest(b, 0, list, list');
  }

  lemma {:induction false} SameRest(b: seq<Byte>, off: nat, x: seq<Attribute>, y: seq<Attribute>)
    requires AllStorable(x) && AllStorable(y) && At(b, off, Packed(x)) && At(b, off, Packed(y))
    requires IsLast(b, off + |Packed(x)|) && IsLast(b, off + |Packed(y)|)
    ensures x == y
    decreases |x|
  {
    hide At, Bytes, Named, IsLast;
    if x != [] {
      AtJoin(b, off, Bytes(x[0]), Packed(x[1..]));
      StoredHere(b, off, x[0]);
    }
    if y != [] {
      AtJoin(b, off, Bytes(y[0]), Packed(y[1..]));
      StoredHere(b, off, y[0]);
    }
    if x != [] && y != [] {
      OneRecord(b, off, x[0], y[0]);
      SameRest(b, off + |Bytes(x[0])|, x[1..], y[1..]);
      assert x == [x[0]] + x[1..] && y == [y[0]] + y[1..];
    }
  }

  class SmallDataSection {
    const area: array<Byte>

    constructor (area: array<Byte>)
      ensures this.area == area
    {
      this.area := area;
    }

    method AtEnd(off: nat) returns (last: bool)
      ensures last == IsLast(area[..], off)
    {
      if off + 8 > area.Length {
        return true;
      }
      var nameSize := Get16(area, off + 4);
      assert area[..][off + 4..off + 6] == area[off + 4..off + 6];
      return nameSize == 0;
    }

    /** small_data::Next() of a stored attribute. */
    method Next(off: nat, ghost a: Attribute) returns (next: nat)
      requires |a.name| < 0x1_0000 && |a.data| < 0x1_0000 && At(area[..], off, Bytes(a))
      ensures next == off + |Bytes(a)|
    {
      WrittenHere(area[..], off, a);
      assert area[..][off + 4..off + 6] == area[off + 4..off + 6];
      assert area[..][off + 6..off + 8] == area[off + 6..off + 8];
      var nameSize := Get16(area, off + 4);
      var dataSize := Get16(area, off + 6);
      next := off + Size(nameSize, dataSize);
    }

    /** strcmp() of the stored name with a C string. */
    method SameName(off: nat, name: seq<Byte>, ghost a: Attribute) returns (same: bool)
      requires Storable(a) && At(area[..], off, Bytes(a)) && (forall i :: 0 <= i < |name| ==> name[i] != 0)
      ensures same <==> a.name == name
    {
      hide Bytes, Fields, IsLast;
      StoredHere(area[..], off, a);
      ghost var n := |a.name|;
      forall k | 0 <= k < n ensures area[off + 8 + k] == a.name[k] {
        AtElement(area[..], off + 8, a.name, k);
      }
      AtElement(area[..], off + 8 + n, Zeros(3), 0);
      var i := 0;
      while i < |name| && area[off + 8 + i] == name[i]
        invariant 0 <= i <= |name| && i <= n && off + 8 + n < area.Length
        invariant forall k :: 0 <= k < i ==> a.name[k] == name[k]
      {
        i := i + 1;
      }
      same := i == |name| && area[off + 8 + i] == 0;
      if same {
        assert i == n;
        assert a.name == name;
      }
    }

    /** Where the attribute number `i` begins. */
    ghost function Offset(list: seq<Attribute>, i: nat): nat
      requires AllStorable(list) && i <= |list|
    {
      |Packed(list[..i])|
    }

    lemma Here(list: seq<Attribute>, i: nat)
      requires Stores(area[..], list) && i < |list|
      ensures Storable(list[i]) && Split(area[..], list[..i], list[i], list[i + 1..])
      ensures Offset(list, i + 1) == Offset(list, i) + |Bytes(list[i])|
    {
      hide At, Bytes, Named, IsLast, Packed;
      RejoinAround(list, i);
      SplitIs(area[..], list[..i], list[i], list[i + 1..]);
      PackedOne(list[i]);
      PackedJoin(list[..i], [list[i]]);
      assert list[..i + 1] == list[..i] + [list[i]];
    }

    /** Walks from the beginning to the attribute of this name, or to the end. */
    method Find(name: seq<Byte>, ghost list: seq<Attribute>) returns (off: nat, index: nat)
      requires Stores(area[..], list) && forall i :: 0 <= i < |name| ==> name[i] != 0
      ensures Where(list, name, index) && off == Offset(list, index)
      ensures IsLast(area[..], off) <==> index == |list|
    {
      hide At, Bytes, Named, IsLast, Packed, Distinct;
      off, index := 0, 0;
      NothingPacked();
      AllPacked(list);
      var last := AtEnd(off);
      StopsHere(list, 0);
      while !last
        invariant index <= |list| && off == Offset(list, index)
        invariant forall i :: 0 <= i < index ==> list[i].name != name
        invariant last == IsLast(area[..], off) == (index == |list|)
        decreases |list| - index
      {
        Here(list, index);
        var same := SameName(off, name, list[index]);
        if same {
          break;
        }
        off := Next(off, list[index]);
        index := index + 1;
        last := AtEnd(off);
        StopsHere(list, index);
      }
    }

    /** The walk stops behind the last attribute and nowhere before. */
    lemma StopsHere(list: seq<Attribute>, i: nat)
      requires Stores(area[..], list) && i <= |list|
      ensures IsLast(area[..], Offset(list, i)) <==> i == |list|
    {
      hide At, Bytes, Named, IsLast, Packed;
      if i < |list| {
        Here(list, i);
        StoredHere(area[..], Offset(list, i), list[i]);
      } else {
        assert list[..i] == list;
      }
    }

    lemma AllPacked(list: seq<Attribute>)
      requires AllStorable(list)
      ensures Offset(list, |list|) == |Packed(list)|
    {
      assert list[..|list|] == list;
    }

    /** Walks on from the attribute number `index` to the end. */
    method FindEnd(off0: nat, ghost index0: nat, ghost list: seq<Attribute>) returns (off: nat)
      requires Stores(area[..], list) && index0 <= |list| && off0 == Offset(list, index0)
      ensures off == |Packed(list)|
    {
      hide At, Bytes, Named, IsLast, Packed, Distinct;
      ghost var index := index0;
      off := off0;
      AllPacked(list);
      StopsHere(list, index);
      var last := AtEnd(off);
      while !last
        invariant index <= |list| && off == Offset(list, index)
        invariant last == IsLast(area[..], off) == (index == |list|)
        decreases |list| - index
      {
        Here(list, index);
        off := Next(off, list[index]);
        index := index + 1;
        StopsHere(list, index);
        last := AtEnd(off);
      }
    }

    /** memset(…, 0, …) up to the end of the inode. */
    method Clear(from: nat, to: nat)
      requires from <= to <= area.Length
      modifies area
      ensures area[..] == Written(old(area[..]), from, Zeros(to - from))
    {
      Write(area, from, Zeros(to - from));
    }

    /** Type and data of the record at `off`. */
    method ReadRecord(off: nat, pos: int, length: nat, ghost a: Attribute) returns (kind: Kind, data: seq<Byte>)
      requires |a.name| < 0x1_0000 && |a.data| < 0x1_0000 && At(area[..], off, Bytes(a))
      ensures kind == a.kind && data == Window(a.data, pos, length)
    {
      hide At, Bytes, Fields, Zeros, Two;
      WrittenHere(area[..], off, a);
      DataThere(area[..], off, a);
      KindAt(area[..], off, a);
      assert area[..][off + 4..off + 6] == area[off + 4..off + 6] && area[..][off + 6..off + 8] == area[off + 6..off + 8];
      assert area[..][off..off + 4] == area[off..off + 4];
      var nameSize := Get16(area, off + 4);
      var dataSize := Get16(area, off + 6);
      var start, from := off + 8 + nameSize + 3, if pos < 0 then 0 else pos;
      kind, data := area[off..off + 4], [];
      if from < dataSize {
        var n := if length + from > dataSize then dataSize - from else length;
        data := area[start + from..start + from + n];
        SubWindow(area[..], start, a.data, from, n);
      }
    }

    lemma SubWindow(b: seq<Byte>, start: nat, data: seq<Byte>, from: nat, n: nat)
      requires start + |data| <= |b| && b[start..start + |data|] == data && from + n <= |data|
      ensures b[start + from..start + from + n] == data[from..from + n]
    {
      var x, y := b[start + from..start + from + n], data[from..from + n];
      forall k | 0 <= k < n ensures x[k] == y[k] {
        assert x[k] == b[start + from + k] == b[start..start + |data|][from + k];
      }
    }

    /** ReadAttribute, for an attribute in the section. */
    method ReadAttribute(name: seq<Byte>, pos: int, length: nat, ghost list: seq<Attribute>)
      returns (found: bool, kind: Kind, data: seq<Byte>)
      requires Stores(area[..], list) && forall i :: 0 <= i < |name| ==> name[i] != 0
      ensures found <==> exists i :: 0 <= i < |list| && list[i].name == name
      ensures (forall i :: 0 <= i < |list| && list[i].name == name ==>
                 kind == list[i].kind && data == Window(list[i].data, pos, length))
    {
      hide At, Bytes, Fields, Named, IsLast, Packed, Distinct, Zeros, Where, Window;
      kind, data := [0, 0, 0, 0], [];
      var off, index := Find(name, list);
      var last := AtEnd(off);
      FoundOnce(area[..], name, list, index);
      if last {
        return false, kind, data;
      }
      Here(list, index);
      kind, data := ReadRecord(off, pos, length, list[index]);
      found := true;
    }

    lemma FoundOnce(b: seq<Byte>, name: seq<Byte>, list: seq<Attribute>, index: nat)
      requires Where(list, name, index) && Stores(b, list)
      ensures index <= |list| && forall i :: 0 <= i < |list| ==> (list[i].name == name <==> i == index)
    {
    }

    lemma DataThere(b: seq<Byte>, off: nat, a: Attribute)
      requires |a.name| < 0x1_0000 && |a.data| < 0x1_0000 && Parts(b, off, a)
      ensures off + 8 + |a.name| + 3 + |a.data| <= |b|
      ensures b[off + 8 + |a.name| + 3..off + 8 + |a.name| + 3 + |a.data|] == a.data
    {
    }

    /** _RemoveSmallData by name. */
    method Remove(name: seq<Byte>, ghost list: seq<Attribute>) returns (found: bool, ghost index: nat)
      requires Stores(area[..], list) && forall i :: 0 <= i < |name| ==> name[i] != 0
      modifies area
      ensures Where(list, name, index) && (found <==> index < |list|)
      ensures !found ==> area[..] == old(area[..])
      ensures found ==> Stores(area[..], Without(list, index))
    {
      hide At, Bytes, Named, IsLast, Packed, Distinct, Moved, Written;
      var off, i := Find(name, list);
      index := i;
      var last := AtEnd(off);
      if last {
        return false, index;
      }
      Here(list, index);
      RejoinAround(list, index);
      var next := Next(off, list[index]);
      RemoveAt(off, next, list[..index], list[index], list[index + 1..]);
      WithoutDistinct(list, index);
      return true, index;
    }

    /** Moves what is between `next` and `end` down to `item`, and clears the rest. */
    method CloseGap(item: nat, next: nat, end: nat, ghost p: seq<Byte>, ghost q: seq<Byte>)
      requires |p| == item <= next && end == next + |q| && At(area[..], 0, p) && At(area[..], next, q)
      modifies area
      ensures At(area[..], 0, p) && At(area[..], item, q) && IsLast(area[..], item + |q|)
    {
      hide At, Moved, Written, Zeros;
      ghost var b0 := area[..];
      AtBound(b0, next, q);
      Memmove(area, item, next, end - next);
      ghost var b1 := area[..];
      MoveTakes(b0, item, next, end - next, q);
      MoveKeeps(b0, item, next, end - next, 0, p);
      var newEnd := end - (next - item);
      Clear(newEnd, area.Length);
      WriteKeeps(b1, newEnd, Zeros(area.Length - newEnd), item, q);
      WriteKeeps(b1, newEnd, Zeros(area.Length - newEnd), 0, p);
      Cleared(b1, newEnd, area.Length);
    }

    /** _RemoveSmallData of the record between `item` and `next`. */
    method RemoveAt(item: nat, next: nat, ghost before: seq<Attribute>, ghost a: Attribute, ghost after: seq<Attribute>)
      requires AllStorable(before) && Storable(a) && AllStorable(after)
      requires Stores(area[..], before + [a] + after)
      requires item == |Packed(before)| && next == item + |Bytes(a)|
      modifies area
      ensures AllStorable(before + after) && At(area[..], 0, Packed(before + after))
      ensures IsLast(area[..], |Packed(before + after)|)
    {
      hide At, Bytes, Named, Packed, Distinct, Moved, Written, Zeros;
      ghost var list, b0 := before + [a] + after, area[..];
      SplitIs(b0, before, a, after);
      AtBound(b0, next, Packed(after));
      PackedJoin(before, after);
      assert list[..|before| + 1] == before + [a];
      StopsHere(list, |before| + 1);
      PackedOne(a);
      PackedJoin(before, [a]);
      var last := AtEnd(next);
      if !last {
        var end := FindEnd(next, |before| + 1, list);
        CloseGap(item, next, end, Packed(before), Packed(after));
      } else {
        Clear(item, next);
        WriteKeeps(b0, item, Zeros(next - item), 0, Packed(before));
        Cleared(b0, item, next);
        assert after == [];
        NothingPacked();
        AtNothing(area[..], item);
      }
      AtJoin(area[..], 0, Packed(before), Packed(after));
    }

    /** Writes type, name_size and data_size. */
    method WriteFields(off: nat, kind: Kind, nameSize: nat, dataSize: nat)
      requires off + 8 <= area.Length && nameSize < 0x1_0000 && dataSize < 0x1_0000
      modifies area
      ensures At(area[..], off, Fields(kind, nameSize, dataSize)) && SameOutside(old(area[..]), area[..], off, off + 8)
    {
      hide At, Written, SameOutside, Two;
      ghost var b0 := area[..];
      Write(area, off, kind);
      ghost var b1 := area[..];
      Write(area, off + 4, Two(nameSize));
      ghost var b2 := area[..];
      Write(area, off + 6, Two(dataSize));
      WriteSame(b0, off, kind, off, off + 8);
      WriteSame(b1, off + 4, Two(nameSize), off, off + 8);
      WriteSame(b2, off + 6, Two(dataSize), off, off + 8);
      SameTrans(b0, b1, b2, off, off + 8);
      SameTrans(b0, b2, area[..], off, off + 8);
      WriteKeeps(b1, off + 4, Two(nameSize), off, kind);
      WriteKeeps(b2, off + 6, Two(dataSize), off, kind);
      WriteKeeps(b2, off + 6, Two(dataSize), off + 4, Two(nameSize));
      RowJoin(area[..], off, kind, Two(nameSize), Two(dataSize));
    }

    /** Writes a new record: clears its space and fills it in. */
    method WriteRecord(off: nat, a: Attribute)
      requires |a.name| < 0x1_0000 && |a.data| < 0x1_0000 && off + Size(|a.name|, |a.data|) <= area.Length
      modifies area
      ensures At(area[..], off, Bytes(a))
      ensures SameOutside(old(area[..]), area[..], off, off + Size(|a.name|, |a.data|))
    {
      hide At, Written, SameOutside, Fields, Zeros, Bytes;
      var n, d := |a.name|, |a.data|;
      var space := Size(n, d);
      ghost var b0 := area[..];
      var to := off + space;
      Clear(off, to);
      ghost var b1 := area[..];
      WriteSame(b0, off, Zeros(space), off, to);
      ZerosPart(b1, off, space, 8 + n, 3);
      ZerosPart(b1, off, space, 8 + n + 3 + d, 1);
      WriteFields(off, a.kind, n, d);
      ghost var b2 := area[..];
      SameKeeps(b1, b2, off, off + 8, off + 8 + n, Zeros(3));
      SameKeeps(b1, b2, off, off + 8, off + 8 + n + 3 + d, Zeros(1));
      SameWider(b1, b2, off, off + 8, off, to);
      SameTrans(b0, b1, b2, off, to);
      FillIn(off, a);
      SameTrans(b0, b2, area[..], off, to);
    }

    /** Copies name and data in. */
    method FillIn(off: nat, a: Attribute)
      requires |a.name| < 0x1_0000 && |a.data| < 0x1_0000 && off + Size(|a.name|, |a.data|) <= area.Length
      requires At(area[..], off, Fields(a.kind, |a.name|, |a.data|))
      requires At(area[..], off + 8 + |a.name|, Zeros(3)) && At(area[..], off + 8 + |a.name| + 3 + |a.data|, Zeros(1))
      modifies area
      ensures At(area[..], off, Bytes(a))
      ensures SameOutside(old(area[..]), area[..], off, off + Size(|a.name|, |a.data|))
    {
      hide At, Written, SameOutside, Fields, Zeros, Bytes;
      ghost var nameEnd := off + 8 + |a.name|;
      ghost var b0 := area[..];
      Write(area, off + 8, a.name);
      ghost var b1 := area[..];
      WriteSame(b0, off + 8, a.name, off + 8, nameEnd);
      SameKeeps(b0, b1, off + 8, nameEnd, off, Fields(a.kind, |a.name|, |a.data|));
      SameKeeps(b0, b1, off + 8, nameEnd, nameEnd, Zeros(3));
      SameKeeps(b0, b1, off + 8, nameEnd, nameEnd + 3 + |a.data|, Zeros(1));
      SameWider(b0, b1, off + 8, nameEnd, off, off + Size(|a.name|, |a.data|));
      FillData(off, a);
      SameTrans(b0, b1, area[..], off, off + Size(|a.name|, |a.data|));
    }

    /** Copies the data in. */
    method FillData(off: nat, a: Attribute)
      requires |a.name| < 0x1_0000 && |a.data| < 0x1_0000 && off + Size(|a.name|, |a.data|) <= area.Length
      requires At(area[..], off, Fields(a.kind, |a.name|, |a.data|)) && At(area[..], off + 8, a.name)
      requires At(area[..], off + 8 + |a.name|, Zeros(3)) && At(area[..], off + 8 + |a.name| + 3 + |a.data|, Zeros(1))
      modifies area
      ensures At(area[..], off, Bytes(a))
      ensures SameOutside(old(area[..]), area[..], off, off + Size(|a.name|, |a.data|))
    {
      hide At, Written, SameOutside, Fields, Zeros, Bytes;
      var dataAt := off + 8 + |a.name| + 3;
      ghost var dataEnd, b0 := dataAt + |a.data|, area[..];
      Write(area, dataAt, a.data);
      ghost var b1 := area[..];
      WriteSame(b0, dataAt, a.data, dataAt, dataEnd);
      SameKeeps(b0, b1, dataAt, dataEnd, off, Fields(a.kind, |a.name|, |a.data|));
      SameKeeps(b0, b1, dataAt, dataEnd, off + 8, a.name);
      SameKeeps(b0, b1, dataAt, dataEnd, off + 8 + |a.name|, Zeros(3));
      SameKeeps(b0, b1, dataAt, dataEnd, dataEnd, Zeros(1));
      SameWider(b0, b1, dataAt, dataEnd, off, off + Size(|a.name|, |a.data|));
      PartsJoin(b1, off, a);
    }

    /** The last part of _AddSmallData: a new record behind the others. */
    method Append(off: nat, a: Attribute, ghost list: seq<Attribute>)
      requires Stores(area[..], list) && off == |Packed(list)| && (a.name != [] ==> Named(a.name))
      requires |a.name| < 0x1_0000 && |a.data| < 0x1_0000 && off + Size(|a.name|, |a.data|) <= area.Length
      requires forall i :: 0 <= i < |list| ==> list[i].name != a.name
      modifies area
      ensures Stores(area[..], if a.name == [] then list else list + [a])
    {
      hide At, SameOutside, Bytes, Named, IsLast, Packed, Written, Zeros;
      ghost var b0 := area[..];
      WriteRecord(off, a);
      ghost var b1 := area[..];
      SameKeeps(b0, b1, off, off + Size(|a.name|, |a.data|), 0, Packed(list));
      var next := Next(off, a);
      var last := AtEnd(next);
      if !last {
        Clear(next, area.Length);
        WriteKeeps(b1, next, Zeros(area.Length - next), 0, Packed(list));
        WriteKeeps(b1, next, Zeros(area.Length - next), off, Bytes(a));
        Cleared(b1, next, area.Length);
      }
      if a.name == [] {
        NamelessIsLast(area[..], off, a);
      } else {
        PackedOne(a);
        PackedJoin(list, [a]);
        AtJoin(area[..], 0, Packed(list), Bytes(a));
      }
    }

    /** Moves the records behind the one at `off` so that it can be `space` bytes long, and ends the section
        behind them. */
    method MakeRoom(off: nat, space: nat, ghost nameEnd: nat, ghost before: seq<Attribute>, ghost a: Attribute,
                    ghost after: seq<Attribute>)
      requires AllStorable(before) && Storable(a) && AllStorable(after) && Stores(area[..], before + [a] + after)
      requires off == |Packed(before)| && nameEnd == off + 8 + |a.name| + 3 <= off + space
      requires off + space + |Packed(after)| <= area.Length
      modifies area
      ensures SameOutside(old(area[..]), area[..], nameEnd, area.Length)
      ensures At(area[..], off + space, Packed(after)) && IsLast(area[..], off + space + |Packed(after)|)
    {
      hide At, Bytes, Named, Packed, Distinct, Moved, Written, Zeros, SameOutside, IsLast;
      ghost var list, b0 := before + [a] + after, area[..];
      SplitIs(b0, before, a, after);
      AtBound(b0, off + |Bytes(a)|, Packed(after));
      assert list[..|before|] == before && list[|before|] == a && list[..|before| + 1] == before + [a];
      Here(list, |before|);
      var next := Next(off, a);
      var end := FindEnd(off, |before|, list);
      StopsHere(list, |before| + 1);
      var last := AtEnd(next);
      if !last {
        Memmove(area, off + space, next, end - next);
      } else {
        assert after == [];
        NothingPacked();
        MoveNothing(b0, off + space, next);
      }
      ghost var b1 := area[..];
      MoveTakes(b0, off + space, next, end - next, Packed(after));
      MoveSame(b0, off + space, next, end - next, nameEnd, area.Length);
      var newEnd := end + off + space - next;
      if newEnd < area.Length {
        Clear(newEnd, area.Length);
        WriteKeeps(b1, newEnd, Zeros(area.Length - newEnd), off + space, Packed(after));
        WriteSame(b1, newEnd, Zeros(area.Length - newEnd), nameEnd, area.Length);
        SameTrans(b0, b1, area[..], nameEnd, area.Length);
        Cleared(b1, newEnd, area.Length);
      } else {
        AtTheEnd(b1, newEnd);
      }
    }

    /** Replaces type and data of a record that has the right space: the size if it changed, the type, the
        data, and the zero behind. */
    method Overwrite(off: nat, a: Attribute, ghost was: Attribute)
      requires Storable(a) && Storable(was) && was.name == a.name
      requires off + Size(|a.name|, |a.data|) <= area.Length
      requires At(area[..], off, Fields(was.kind, |a.name|, |was.data|)) && At(area[..], off + 8, a.name)
      requires At(area[..], off + 8 + |a.name|, Zeros(3))
      modifies area
      ensures At(area[..], off, Bytes(a))
      ensures SameOutside(old(area[..]), area[..], off, off + Size(|a.name|, |a.data|))
    {
      hide At, Written, SameOutside, Zeros, Bytes, Named, Two, Fields;
      ghost var b0 := area[..];
      ghost var to := off + Size(|a.name|, |a.data|);
      NewFields(off, a, was);
      ghost var b1 := area[..];
      SameKeeps(b0, b1, off, off + 8, off + 8, a.name);
      SameKeeps(b0, b1, off, off + 8, off + 8 + |a.name|, Zeros(3));
      SameWider(b0, b1, off, off + 8, off, to);
      NewData(off, a);
      SameTrans(b0, b1, area[..], off, to);
    }

    method NewFields(off: nat, a: Attribute, ghost was: Attribute)
      requires Storable(a) && Storable(was) && off + 8 <= area.Length
      requires At(area[..], off, Fields(was.kind, |a.name|, |was.data|))
      modifies area
      ensures At(area[..], off, Fields(a.kind, |a.name|, |a.data|)) && SameOutside(old(area[..]), area[..], off, off + 8)
    {
      hide At, Written, SameOutside, Named, Two;
      ghost var b0 := area[..];
      ghost var size, newSize := Two(|a.name|), Two(|a.data|);
      RowJoin(b0, off, was.kind, size, Two(|was.data|));
      SizesAt(b0, off, was.(name := a.name));
      assert area[..][off + 6..off + 8] == area[off + 6..off + 8];
      var dataSize := Get16(area, off + 6);
      if |a.data| != dataSize {
        Write(area, off + 6, Two(|a.data|));
        WriteKeeps(b0, off + 6, newSize, off + 4, size);
        WriteSame(b0, off + 6, newSize, off, off + 8);
      } else {
        SameSelf(b0, off, off + 8);
      }
      ghost var b1 := area[..];
      Write(area, off, a.kind);
      WriteKeeps(b1, off, a.kind, off + 4, size);
      WriteKeeps(b1, off, a.kind, off + 6, newSize);
      WriteSame(b1, off, a.kind, off, off + 8);
      SameTrans(b0, b1, area[..], off, off + 8);
      RowJoin(area[..], off, a.kind, size, newSize);
    }

    method NewData(off: nat, a: Attribute)
      requires Storable(a) && off + Size(|a.name|, |a.data|) <= area.Length
      requires At(area[..], off, Fields(a.kind, |a.name|, |a.data|)) && At(area[..], off + 8, a.name)
      requires At(area[..], off + 8 + |a.name|, Zeros(3))
      modifies area
      ensures At(area[..], off, Bytes(a))
      ensures SameOutside(old(area[..]), area[..], off, off + Size(|a.name|, |a.data|))
    {
      hide At, Written, SameOutside, Zeros, Bytes, Named, Two, Fields;
      ghost var b0 := area[..];
      var dataAt := off + 8 + |a.name| + 3;
      ghost var to := dataAt + |a.data| + 1;
      Write(area, dataAt, a.data);
      ghost var b1 := area[..];
      Write(area, dataAt + |a.data|, Zeros(1));
      WriteSame(b0, dataAt, a.data, dataAt, to);
      WriteSame(b1, dataAt + |a.data|, Zeros(1), dataAt, to);
      SameTrans(b0, b1, area[..], dataAt, to);
      WriteKeeps(b1, dataAt + |a.data|, Zeros(1), dataAt, a.data);
      SameKeeps(b0, area[..], dataAt, to, off, Fields(a.kind, |a.name|, |a.data|));
      SameKeeps(b0, area[..], dataAt, to, off + 8, a.name);
      SameKeeps(b0, area[..], dataAt, to, off + 8 + |a.name|, Zeros(3));
      SameWider(b0, area[..], dataAt, to, off, to);
      PartsJoin(area[..], off, a);
    }

    lemma SameSelf(b: seq<Byte>, lo: nat, hi: nat)
      ensures SameOutside(b, b, lo, hi)
    {
    }

    lemma MoveNothing(b: seq<Byte>, dst: nat, src: nat)
      requires dst <= |b| && src <= |b|
      ensures Moved(b, dst, src, 0) == b
    {
    }

    lemma AtTheEnd(b: seq<Byte>, off: nat)
      requires off >= |b|
      ensures IsLast(b, off)
    {
    }

    /** A walk that stops at `off` still does when only bytes before have changed. */
    lemma StillLast(b: seq<Byte>, b': seq<Byte>, lo: nat, hi: nat, off: nat)
      requires SameOutside(b, b', lo, hi) && hi <= off && IsLast(b, off)
      ensures IsLast(b', off)
    {
      if off + 8 <= |b| {
        assert b[off + 4..off + 6] == b'[off + 4..off + 6];
      }
    }

    /** The record at `off` has its space: fills it anew. */
    method Refill(off: nat, a: Attribute, ghost was: Attribute, ghost p: seq<Byte>, ghost q: seq<Byte>)
      requires Storable(a) && Storable(was) && was.name == a.name && |p| == off
      requires off + Size(|a.name|, |a.data|) + |q| <= area.Length
      requires At(area[..], off, Fields(was.kind, |a.name|, |was.data|)) && At(area[..], off + 8, a.name)
      requires At(area[..], off + 8 + |a.name|, Zeros(3)) && At(area[..], 0, p)
      requires At(area[..], off + Size(|a.name|, |a.data|), q) && IsLast(area[..], off + Size(|a.name|, |a.data|) + |q|)
      modifies area
      ensures At(area[..], 0, p) && At(area[..], off, Bytes(a)) && At(area[..], off + |Bytes(a)|, q)
      ensures IsLast(area[..], off + |Bytes(a)| + |q|)
    {
      hide At, Bytes, Named, Written, Zeros, SameOutside, IsLast, Fields;
      ghost var b, end := area[..], off + Size(|a.name|, |a.data|);
      Overwrite(off, a, was);
      SameKeeps(b, area[..], off, end, 0, p);
      SameKeeps(b, area[..], off, end, end, q);
      StillLast(b, area[..], off, end, end + |q|);
    }

    /** The first part of _AddSmallData: the record at `off` gets other data. */
    method Replace(off: nat, a: Attribute, ghost before: seq<Attribute>, ghost was: Attribute, ghost after: seq<Attribute>)
      requires AllStorable(before) && Storable(was) && AllStorable(after) && Stores(area[..], before + [was] + after)
      requires Storable(a) && was.name == a.name && off == |Packed(before)|
      requires off + Size(|a.name|, |a.data|) + |Packed(after)| <= area.Length
      modifies area
      ensures AllStorable(before + [a] + after) && At(area[..], 0, Packed(before + [a] + after))
      ensures IsLast(area[..], |Packed(before + [a] + after)|)
    {
      hide At, Bytes, Named, Packed, Distinct, Written, Zeros, SameOutside, IsLast, Fields;
      ghost var b0, nameEnd, space := area[..], off + 8 + |a.name| + 3, Size(|a.name|, |a.data|);
      SplitIs(b0, before, was, after);
      WrittenHere(b0, off, was);
      assert area[..][off + 6..off + 8] == area[off + 6..off + 8];
      var dataSize := Get16(area, off + 6);
      if |a.data| != dataSize {
        MakeRoom(off, Size(|a.name|, |a.data|), nameEnd, before, was, after);
      } else {
        SameSelf(b0, nameEnd, area.Length);
      }
      ghost var b1 := area[..];
      SameKeeps(b0, b1, nameEnd, area.Length, off, Fields(was.kind, |a.name|, |was.data|));
      SameKeeps(b0, b1, nameEnd, area.Length, off + 8, a.name);
      SameKeeps(b0, b1, nameEnd, area.Length, off + 8 + |a.name|, Zeros(3));
      SameKeeps(b0, b1, nameEnd, area.Length, 0, Packed(before));
      Refill(off, a, was, Packed(before), Packed(after));
      SplitIs(area[..], before, a, after);
    }

    /** _AddSmallData without force: replaces the data of an attribute that is there, or appends one; when it
        does not fit, nothing changes. */
    method Add(kind: Kind, name: seq<Byte>, data: seq<Byte>, ghost list: seq<Attribute>) returns (ok: bool, ghost index: nat)
      requires Stores(area[..], list) && area.Length < 0x1_0000 && forall i :: 0 <= i < |name| ==> name[i] != 0
      modifies area
      ensures Where(list, name, index)
      ensures ok <==> RoomNeeded(list, index, |name|, |data|) <= area.Length
      ensures !ok ==> area[..] == old(area[..])
      ensures ok ==> Stores(area[..], Put(list, index, Attribute(kind, name, data)))
    {
      hide At, Bytes, Named, Packed, Distinct, IsLast;
      var length, spaceNeeded := |data|, Size(|name|, |data|);
      index := 0;
      var off: nat;
      var a := Attribute(kind, name, data);
      if spaceNeeded > area.Length {
        ghost var at: nat;
        off, at := Find(name, list);
        index := at;
        TooLong(list, index, a);
        return false, index;
      }
      var at: nat;
      off, at := Find(name, list);
      index := at;
      var last := AtEnd(off);
      if !last {
        Here(list, at);
        RejoinAround(list, at);
        NamedHere(a, list[at]);
        SplitIs(area[..], list[..at], list[at], list[at + 1..]);
        WrittenHere(area[..], off, list[at]);
        AtBound(area[..], 0, Packed(list));
        assert area[..][off + 6..off + 8] == area[off + 6..off + 8];
        var dataSize := Get16(area, off + 6);
        var end := FindEnd(off, at, list);
        if dataSize > length || end + length - dataSize <= area.Length {
          Replace(off, a, list[..at], list[at], list[at + 1..]);
          PutInPlace(list, at, a);
          return true, index;
        }
        return false, index;
      }
      AllPacked(list);
      if off + spaceNeeded > area.Length {
        return false, index;
      }
      NamedOrEmpty(name);
      Append(off, a, list);
      AppendedDistinct(list, a);
      return true, index;
    }

    lemma TooLong(list: seq<Attribute>, index: nat, a: Attribute)
      requires AllStorable(list) && Where(list, a.name, index) && Size(|a.name|, |a.data|) > area.Length
      ensures RoomNeeded(list, index, |a.name|, |a.data|) > area.Length
    {
      hide Bytes, Named, Packed;
      if index < |list| {
        RejoinAround(list, index);
        SplitIs(area[..], list[..index], list[index], list[index + 1..]);
      }
    }

    /** A record without a name reads as the end. */
    lemma NamelessIsLast(b: seq<Byte>, off: nat, a: Attribute)
      requires a.name == [] && |a.data| < 0x1_0000 && At(b, off, Bytes(a))
      ensures IsLast(b, off)
    {
      hide Bytes, Fields;
      WrittenHere(b, off, a);
    }

    lemma ZerosPart(b: seq<Byte>, off: nat, n: nat, k: nat, m: nat)
      requires At(b, off, Zeros(n)) && k + m <= n
      ensures At(b, off + k, Zeros(m))
    {
      assert Zeros(n) == Zeros(k) + Zeros(m) + Zeros(n - k - m);
      RowJoin(b, off, Zeros(k), Zeros(m), Zeros(n - k - m));
    }

    lemma SameWider(b: seq<Byte>, b': seq<Byte>, lo: nat, hi: nat, lower: nat, higher: nat)
      requires SameOutside(b, b', lo, hi) && lower <= lo && hi <= higher
      ensures SameOutside(b, b', lower, higher)
    {
    }

    /** A cleared stretch ends the walk where it begins. */
    lemma Cleared(b: seq<Byte>, from: nat, to: nat)
      requires from <= to <= |b| && (to == |b| || to >= from + 8)
      ensures IsLast(Written(b, from, Zeros(to - from)), from)
    {
      var r := Written(b, from, Zeros(to - from));
      if from + 8 <= |b| {
        assert r[from + 4] == 0 && r[from + 5] == 0;
        assert r[from + 4..from + 6] == [0, 0];
      }
    }
  }

  lemma AtBound(b: seq<Byte>, off: nat, data: seq<Byte>)
    requires At(b, off, data)
    ensures off + |data| <= |b|
  {
  }

  lemma AtNothing(b: seq<Byte>, off: nat)
    requires off <= |b|
    ensures At(b, off, [])
  {
  }

  lemma NothingPacked()
    ensures AllStorable([]) && Packed([]) == []
  {
  }

  lemma NamedHere(a: Attribute, was: Attribute)
    requires Storable(was) && was.name == a.name
    ensures Named(a.name)
  {
  }

  lemma NamedOrEmpty(name: seq<Byte>)
    requires forall i :: 0 <= i < |name| ==> name[i] != 0
    ensures name != [] ==> Named(name)
  {
  }

  lemma PutInPlace(list: seq<Attribute>, index: nat, a: Attribute)
    requires Distinct(list) && index < |list| && list[index].name == a.name && a.name != []
    ensures Put(list, index, a) == list[..index] + [a] + list[index + 1..]
    ensures Distinct(Put(list, index, a))
  {
  }

  lemma AppendedDistinct(list: seq<Attribute>, a: Attribute)
    requires Distinct(list) && forall i :: 0 <= i < |list| ==> list[i].name != a.name
    ensures Distinct(list + [a])
  {
  }

  lemma WithoutDistinct(list: seq<Attribute>, index: nat)
    requires Distinct(list) && index < |list|
    ensures Distinct(Without(list, index))
  {
  }
}
