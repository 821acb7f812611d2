/** Looking up a position in the double-indirect range (Inode.cpp, FindBlockRun): two divisions find in
    blocks of runs, reached through blocks of runs, the element that a flat list would have there. */
module DoubleIndirect {
  import opened InodeStream

  const INDIRECT_BLOCKS: nat := 16  // 1 << INDIRECT_BLOCKS_SHIFT

  function Div(n: nat, d: nat): nat
    requires d > 0
  {
    n / d
  }

  function Mod(n: nat, d: nat): nat
    requires d > 0
  {
    n % d
  }

  lemma DivMod(n: nat, d: nat)
    requires d > 0
    ensures n == ToBytes(d, Div(n, d)) + Mod(n, d) && Mod(n, d) < d
  {
  }

  /** The lists one behind the other. */
  function Concat<T>(lists: seq<seq<T>>): seq<T> {
    if lists == [] then [] else lists[0] + Concat(lists[1..])
  }

  predicate AllOfLength<T>(lists: seq<seq<T>>, n: nat) {
    forall i :: 0 <= i < |lists| ==> |lists[i]| == n
  }

  /** In lists of equal length, division finds the list and the place in it. */
  lemma {:induction false} ConcatAt<T>(lists: seq<seq<T>>, n: nat, k: nat, c: nat)
    requires n > 0 && AllOfLength(lists, n) && k < |lists| && c < n
    ensures ToBytes(n, k) + c < |Concat(lists)| && Concat(lists)[ToBytes(n, k) + c] == lists[k][c]
  {
    if k == 0 {
      Zero(n);
    } else {
      var rest := lists[1..];
      assert AllOfLength(rest, n) && rest[k - 1] == lists[k];
      ConcatAt(rest, n, k - 1, c);
      Distribute(n, k - 1, 1);
      One(n);
      Behind(lists[0], Concat(rest), ToBytes(n, k - 1) + c);
    }
  }

  lemma Zero(n: nat)
    ensures ToBytes(n, 0) == 0
  {
  }

  lemma One(n: nat)
    ensures ToBytes(n, 1) == n
  {
  }

  lemma Behind<T>(a: seq<T>, b: seq<T>, i: nat)
    requires i < |b|
    ensures (a + b)[|a| + i] == b[i]
  {
  }

  /** What the blocks of an array run hold, by run. */
  type Arrays = map<Run, seq<seq<Run>>>

  /** The double-indirect range: `outer` are the blocks of the double-indirect run, whose first `count` entries lead
      to arrays of four full blocks each. */
  ghost predicate RangeOk(outer: seq<seq<Run>>, count: nat, arrays: Arrays, perBlock: nat) {
    && perBlock > 0 && AllOfLength(outer, perBlock) && count <= |Concat(outer)|
    && forall k :: 0 <= k < count ==>
         Concat(outer)[k] in arrays && |arrays[Concat(outer)[k]]| == NUM_ARRAY_BLOCKS
         && AllOfLength(arrays[Concat(outer)[k]], perBlock)
  }

  /** Every array read out, in order. */
  ghost function Lists(runs: seq<Run>, arrays: Arrays): (r: seq<seq<Run>>)
    requires forall k :: 0 <= k < |runs| ==> runs[k] in arrays
    ensures |r| == |runs|
  {
    seq(|runs|, k requires 0 <= k < |runs| => Concat(arrays[runs[k]]))
  }

  /** The range as one flat list of runs. */
  ghost function Elements(outer: seq<seq<Run>>, count: nat, arrays: Arrays, perBlock: nat): seq<Run>
    requires RangeOk(outer, count, arrays, perBlock)
  {
    Concat(Lists(Concat(outer)[..count], arrays))
  }

  lemma {:induction false} ConcatLength<T>(lists: seq<seq<T>>, n: nat)
    requires AllOfLength(lists, n)
    ensures |Concat(lists)| == ToBytes(n, |lists|)
  {
    if lists == [] {
      Zero(n);
    } else {
      var rest := lists[1..];
      assert AllOfLength(rest, n);
      ConcatLength(rest, n);
      Distribute(n, |rest|, 1);
      One(n);
    }
  }

  /** Dividing in two steps: first by the size of an array, then what is left by the size of an element. */
  lemma TwoSteps(start: nat, size: nat, n: nat)
    requires size > 0 && n > 0
    ensures ToBytes(size, n) > 0
    ensures Div(Mod(start, ToBytes(size, n)), size) < n
    ensures Div(start, size) == ToBytes(n, Div(start, ToBytes(size, n))) + Div(Mod(start, ToBytes(size, n)), size)
  {
    Multiple(size, n);
    hide Div, Mod, ToBytes;
    var whole := ToBytes(size, n);
    var k, r := Div(start, whole), Mod(start, whole);
    var c, s := Div(r, size), Mod(r, size);
    DivMod(start, whole);
    DivMod(r, size);
    InsideRange(size, n, c, s);
    Nested(size, n, k);
    Distribute(size, ToBytes(n, k), c);
    IsDiv(start, size, ToBytes(n, k) + c, s);
  }

  lemma IsDiv(n: nat, d: nat, q: nat, r: nat)
    requires d > 0 && n == ToBytes(d, q) + r && r < d
    ensures Div(n, d) == q
  {
    Quotient(n, d, q, r);
  }

  lemma Nested(size: nat, n: nat, k: nat)
    ensures ToBytes(ToBytes(size, n), k) == ToBytes(size, ToBytes(n, k))
  {
    assert k * (n * size) == (k * n) * size;
  }

  /** One place among the blocks of an array. */
  lemma PlaceInBlocks(blocks: seq<seq<Run>>, perBlock: nat, i: nat)
    requires perBlock > 0 && AllOfLength(blocks, perBlock) && i < |Concat(blocks)|
    ensures Div(i, perBlock) < |blocks| && Mod(i, perBlock) < |blocks[Div(i, perBlock)]|
    ensures blocks[Div(i, perBlock)][Mod(i, perBlock)] == Concat(blocks)[i]
  {
    hide Div, Mod, ToBytes, Concat;
    ConcatLength(blocks, perBlock);
    DivMod(i, perBlock);
    InsideRange(perBlock, |blocks|, Div(i, perBlock), Mod(i, perBlock));
    ConcatAt(blocks, perBlock, Div(i, perBlock), Mod(i, perBlock));
  }

  /** The element for a position, and where in the stream it starts. */
  method FindDoubleIndirect(pos: nat, maxIndirect: nat, blockSize: nat, outer: seq<seq<Run>>, ghost count: nat, arrays: Arrays)
    returns (run: Run, offset: nat)
    requires blockSize >= RUN_SIZE && RangeOk(outer, count, arrays, blockSize / RUN_SIZE)
    requires maxIndirect <= pos
    requires Div(pos - maxIndirect, ToBytes(blockSize, NUM_ARRAY_BLOCKS))
           < |Elements(outer, count, arrays, blockSize / RUN_SIZE)|
    ensures run == Elements(outer, count, arrays, blockSize / RUN_SIZE)[Div(pos - maxIndirect, ToBytes(blockSize, NUM_ARRAY_BLOCKS))]
    ensures offset == maxIndirect + ToBytes(ToBytes(blockSize, NUM_ARRAY_BLOCKS),
                                            Div(pos - maxIndirect, ToBytes(blockSize, NUM_ARRAY_BLOCKS)))
    ensures offset <= pos < offset + ToBytes(blockSize, NUM_ARRAY_BLOCKS)
  {
    hide ToBytes, RangeOk, Elements, Concat, Lists, Div, Mod;
    var start := pos - maxIndirect;
    var perBlock := blockSize / RUN_SIZE;
    var directSize := ToBytes(blockSize, NUM_ARRAY_BLOCKS);
    var indirectSize := ToBytes(ToBytes(blockSize, INDIRECT_BLOCKS), perBlock);
    Sizes(blockSize, perBlock, start);
    var index := Div(start, indirectSize);
    var current := Div(Mod(start, indirectSize), directSize);
    ArrayAndElement(outer, count, arrays, perBlock, index, current, Div(start, directSize));
    var block := outer[Div(index, perBlock)][Mod(index, perBlock)];
    run := arrays[block][Div(current, perBlock)][Mod(current, perBlock)];
    offset := maxIndirect + ToBytes(indirectSize, index) + ToBytes(directSize, current);
    Offsets(blockSize, perBlock, start, index, current);
  }

  /** An array covers four blocks of runs, each of which covers four blocks. */
  lemma Sizes(blockSize: nat, perBlock: nat, start: nat)
    requires blockSize > 0 && perBlock > 0
    ensures ToBytes(blockSize, NUM_ARRAY_BLOCKS) > 0
    ensures ToBytes(ToBytes(blockSize, INDIRECT_BLOCKS), perBlock)
         == ToBytes(ToBytes(blockSize, NUM_ARRAY_BLOCKS), ToBytes(perBlock, NUM_ARRAY_BLOCKS)) > 0
    ensures var d, i := ToBytes(blockSize, NUM_ARRAY_BLOCKS), ToBytes(ToBytes(blockSize, INDIRECT_BLOCKS), perBlock);
            && Div(Mod(start, i), d) < ToBytes(perBlock, NUM_ARRAY_BLOCKS)
            && Div(start, d) == ToBytes(ToBytes(perBlock, NUM_ARRAY_BLOCKS), Div(start, i)) + Div(Mod(start, i), d)
  {
    hide Div, Mod, ToBytes;
    Multiple(blockSize, NUM_ARRAY_BLOCKS);
    Multiple(perBlock, NUM_ARRAY_BLOCKS);
    Sixteen(blockSize, perBlock);
    TwoSteps(start, ToBytes(blockSize, NUM_ARRAY_BLOCKS), ToBytes(perBlock, NUM_ARRAY_BLOCKS));
  }

  lemma Sixteen(blockSize: nat, perBlock: nat)
    ensures ToBytes(ToBytes(blockSize, INDIRECT_BLOCKS), perBlock)
         == ToBytes(ToBytes(blockSize, NUM_ARRAY_BLOCKS), ToBytes(perBlock, NUM_ARRAY_BLOCKS))
  {
    assert perBlock * (16 * blockSize) == (4 * perBlock) * (4 * blockSize);
  }

  lemma ArrayAndElement(outer: seq<seq<Run>>, count: nat, arrays: Arrays, perBlock: nat, index: nat, current: nat, element: nat)
    requires RangeOk(outer, count, arrays, perBlock)
    requires current < ToBytes(perBlock, NUM_ARRAY_BLOCKS)
    requires element == ToBytes(ToBytes(perBlock, NUM_ARRAY_BLOCKS), index) + current
    requires element < |Elements(outer, count, arrays, perBlock)|
    ensures Div(index, perBlock) < |outer| && Mod(index, perBlock) < |outer[Div(index, perBlock)]|
    ensures var block := outer[Div(index, perBlock)][Mod(index, perBlock)];
            && block in arrays && Div(current, perBlock) < |arrays[block]|
            && Mod(current, perBlock) < |arrays[block][Div(current, perBlock)]|
            && arrays[block][Div(current, perBlock)][Mod(current, perBlock)] == Elements(outer, count, arrays, perBlock)[element]
  {
    hide Div, Mod, ToBytes, Concat;
    var all := Concat(outer);
    var runs, n := all[..count], ToBytes(perBlock, NUM_ARRAY_BLOCKS);
    assert forall k :: 0 <= k < count ==> runs[k] == all[k];
    var lists := Lists(runs, arrays);
    forall k | 0 <= k < |lists| ensures |lists[k]| == n {
      ConcatLength(arrays[runs[k]], perBlock);
    }
    ConcatLength(lists, n);
    InsideRange(n, |lists|, index, current);
    ConcatAt(lists, n, index, current);
    PlaceInBlocks(outer, perBlock, index);
    PlaceInBlocks(arrays[runs[index]], perBlock, current);
  }

  lemma InsideRange(n: nat, count: nat, index: nat, current: nat)
    requires ToBytes(n, index) + current < ToBytes(n, count)
    ensures index < count
  {
    if index >= count {
      Monotone(n, count, index);
    }
  }

  lemma Offsets(blockSize: nat, perBlock: nat, start: nat, index: nat, current: nat)
    requires blockSize > 0 && perBlock > 0
    requires var d, i := ToBytes(blockSize, NUM_ARRAY_BLOCKS), ToBytes(ToBytes(blockSize, INDIRECT_BLOCKS), perBlock);
             d > 0 && i > 0 && index == Div(start, i) && current == Div(Mod(start, i), d)
    ensures var d, i := ToBytes(blockSize, NUM_ARRAY_BLOCKS), ToBytes(ToBytes(blockSize, INDIRECT_BLOCKS), perBlock);
            && ToBytes(i, index) + ToBytes(d, current) == ToBytes(d, Div(start, d))
            && ToBytes(d, Div(start, d)) <= start < ToBytes(d, Div(start, d)) + d
  {
    hide Div, Mod, ToBytes;
    var d, n := ToBytes(blockSize, NUM_ARRAY_BLOCKS), ToBytes(perBlock, NUM_ARRAY_BLOCKS);
    Sizes(blockSize, perBlock, start);
    Nested(d, n, index);
    Distribute(d, ToBytes(n, index), current);
    DivMod(start, d);
  }

  // ---- the three ranges together ----

  /** The runs of the double-indirect range: four blocks each as long as there are any. */
  predicate Fours(runs: seq<Run>) {
    ZeroTail(runs) && forall k :: 0 <= k < |runs| ==> runs[k] == ZERO || runs[k].length == NUM_ARRAY_BLOCKS
  }

  /** So many of the runs are in use. */
  lemma {:induction false} FoursTotal(runs: seq<Run>) returns (used: nat)
    requires Fours(runs)
    ensures used <= |runs| && Total(runs) == NUM_ARRAY_BLOCKS * used
    ensures forall k :: 0 <= k < used ==> runs[k].length == NUM_ARRAY_BLOCKS
  {
    if runs == [] || runs[0] == ZERO {
      used := 0;
      ZerosAreEmpty(runs);
    } else {
      var rest := runs[1..];
      assert Fours(rest) by { assert forall k :: 0 <= k < |rest| ==> rest[k] == runs[k + 1]; }
      var more := FoursTotal(rest);
      used := more + 1;
      assert forall k :: 0 < k < used ==> runs[k] == rest[k - 1];
    }
  }

  lemma {:induction false} TotalOfFours(runs: seq<Run>)
    requires forall k :: 0 <= k < |runs| ==> runs[k].length == NUM_ARRAY_BLOCKS
    ensures Total(runs) == NUM_ARRAY_BLOCKS * |runs|
  {
    if runs != [] {
      TotalOfFours(runs[1..]);
    }
  }

  /** Dividing by the size of a run of four blocks gives the number of a run in use. */
  lemma FourNumber(blockSize: nat, used: nat, start: nat)
    requires blockSize > 0 && start < ToBytes(blockSize, NUM_ARRAY_BLOCKS * used)
    ensures ToBytes(blockSize, NUM_ARRAY_BLOCKS) > 0 && Div(start, ToBytes(blockSize, NUM_ARRAY_BLOCKS)) < used
    ensures var e := Div(start, ToBytes(blockSize, NUM_ARRAY_BLOCKS));
            ToBytes(blockSize, NUM_ARRAY_BLOCKS * e) <= start < ToBytes(blockSize, NUM_ARRAY_BLOCKS * e) + ToBytes(blockSize, NUM_ARRAY_BLOCKS)
  {
    hide ToBytes, Div, Mod;
    var four := ToBytes(blockSize, NUM_ARRAY_BLOCKS);
    Multiple(blockSize, NUM_ARRAY_BLOCKS);
    var e := Div(start, four);
    DivMod(start, four);
    Swapped(blockSize, e);
    Swapped(blockSize, used);
    if e >= used {
      Monotone(four, used, e);
    }
  }

  lemma SplitAt(runs: seq<Run>, e: nat)
    requires e < |runs|
    ensures runs == runs[..e] + [runs[e]] + runs[e + 1..]
  {
  }

  /** ... and finds that run. */
  lemma FourFound(runs: seq<Run>, blockSize: nat, at: nat, pos: nat)
    requires blockSize > 0 && Fours(runs) && ToBytes(blockSize, at) <= pos < ToBytes(blockSize, at + Total(runs))
    ensures ToBytes(blockSize, NUM_ARRAY_BLOCKS) > 0
    ensures var e := Div(pos - ToBytes(blockSize, at), ToBytes(blockSize, NUM_ARRAY_BLOCKS));
            && e < |runs|
            && FoundIn(runs, runs[e], ToBytes(blockSize, at) + ToBytes(ToBytes(blockSize, NUM_ARRAY_BLOCKS), e), blockSize, at, pos)
  {
    hide ToBytes, Total, Div, Mod, Fours;
    var used := FoursTotal(runs);
    var start := pos - ToBytes(blockSize, at);
    Distribute(blockSize, at, Total(runs));
    FourNumber(blockSize, used, start);
    var e := Div(start, ToBytes(blockSize, NUM_ARRAY_BLOCKS));
    SplitAt(runs, e);
    TotalOfFours(runs[..e]);
    Swapped(blockSize, e);
    Distribute(blockSize, at, Total(runs[..e]));
    assert FoundBetween(runs, runs[..e], runs[e], runs[e + 1..],
                        ToBytes(blockSize, at) + ToBytes(ToBytes(blockSize, NUM_ARRAY_BLOCKS), e), blockSize, at, pos);
  }

  lemma Swapped(blockSize: nat, n: nat)
    ensures ToBytes(ToBytes(blockSize, NUM_ARRAY_BLOCKS), n) == ToBytes(blockSize, NUM_ARRAY_BLOCKS * n)
  {
  }

  /** A stream with all three ranges. */
  class WholeStream {
    const ranges: DataStream       // the direct and the indirect range
    var outer: seq<seq<Run>>       // what the blocks of the double-indirect run hold
    var arrays: Arrays             // and the arrays that they lead to
    ghost var count: nat           // how many arrays are in use
    var maxDoubleIndirect: nat

    /** The double-indirect range is there only behind the other two. */
    ghost predicate Valid()
      reads this, ranges
    {
      && ranges.RangesOk()
      && if maxDoubleIndirect == 0 then outer == [] && count == 0
         else
           && ranges.indirect != ZERO && RangeOk(outer, count, arrays, ranges.blockSize / RUN_SIZE)
           && Fours(Elements(outer, count, arrays, ranges.blockSize / RUN_SIZE))
           && maxDoubleIndirect
              == ranges.maxIndirect + ToBytes(ranges.blockSize, Total(Elements(outer, count, arrays, ranges.blockSize / RUN_SIZE)))
    }

    /** The runs of the double-indirect range as one list. */
    ghost function Doubles(): seq<Run>
      requires Valid()
      reads this, ranges
    {
      if maxDoubleIndirect == 0 then [] else Elements(outer, count, arrays, ranges.blockSize / RUN_SIZE)
    }

    /** The disk blocks of the stream, in order. */
    ghost function Contents(): seq<Block>
      requires Valid()
      reads this, ranges
    {
      Flat(ranges.direct) + FlatTable(ranges.table) + Flat(Doubles())
    }

    function Capacity(): nat
      reads this, ranges
    {
      if maxDoubleIndirect == 0 then ranges.Capacity() else maxDoubleIndirect
    }

    constructor (ranges: DataStream)
      requires ranges.RangesOk()
      ensures this.ranges == ranges && Valid() && Contents() == ranges.Contents() && Capacity() == ranges.Capacity()
    {
      this.ranges, outer, arrays, count, maxDoubleIndirect := ranges, [], map[], 0, 0;
    }

    /** The runs of all three ranges as one list. */
    ghost function RunList(): seq<Run>
      requires Valid()
      reads this, ranges
    {
      ranges.RunList() + Doubles()
    }

    lemma ListIsContents()
      requires Valid()
      ensures Flat(RunList()) == Contents()
    {
      hide Flat, RangeOk, Elements, Fours;
      ranges.ListIsContents();
      FlatJoin(ranges.RunList(), Doubles());
    }

    /** The run that holds a position of the stream, as the list of all three ranges has it, and the length of all
        before it. */
    method FindBlockRun(pos: nat) returns (status: Status, run: Run, offset: nat)
      requires Valid() && pos < Capacity()
      ensures status == Ok && FoundIn(RunList(), run, offset, ranges.blockSize, 0, pos)
      ensures RightBlock(run, offset, ranges.blockSize, pos, Contents())
    {
      hide Flat, FlatTable, Total, TotalTable, ToBytes, RightBlock, FoundIn, RangeOk, Elements, Fours, Div;
      Sizes3();
      if ranges.maxDirect > 0 && pos >= ranges.maxDirect && maxDoubleIndirect > 0 && pos >= ranges.maxIndirect {
        FourFound(Doubles(), ranges.blockSize, Total(ranges.direct) + TotalTable(ranges.table), pos);
        run, offset := FindDoubleIndirect(pos, ranges.maxIndirect, ranges.blockSize, outer, count, arrays);
        status := Ok;
        ListTotal(ranges);
        FoundWider(ranges.RunList(), Doubles(), [], run, offset, ranges.blockSize, pos);
        assert ranges.RunList() + Doubles() + [] == RunList();
      } else {
        status, run, offset := ranges.FindBlockRun(pos);
        StartOfStream(ranges.blockSize);
        FlatNothing();
        FoundWider([], ranges.RunList(), Doubles(), run, offset, ranges.blockSize, pos);
        assert [] + ranges.RunList() + Doubles() == RunList();
      }
      FoundIsRight(RunList(), run, offset, ranges.blockSize, pos);
      ListIsContents();
    }

    /** How the ranges follow each other. */
    lemma Sizes3()
      requires Valid()
      ensures ranges.blockSize > 0 && |Flat(ranges.direct) + FlatTable(ranges.table)| == Total(ranges.direct) + TotalTable(ranges.table)
      ensures maxDoubleIndirect > 0 ==>
                && 0 < ranges.maxDirect <= ranges.maxIndirect == ranges.Capacity() <= maxDoubleIndirect
                && ranges.maxIndirect == ToBytes(ranges.blockSize, Total(ranges.direct) + TotalTable(ranges.table))
                && maxDoubleIndirect
                   == ToBytes(ranges.blockSize, Total(ranges.direct) + TotalTable(ranges.table) + Total(Doubles()))
    {
      hide Flat, FlatTable, Total, TotalTable, ToBytes, RangeOk, Elements, Fours, Div;
      FlatSize(ranges.direct);
      TableSize(ranges.table);
      if maxDoubleIndirect > 0 {
        FullIsSome(ranges.direct);
        Multiple(ranges.blockSize, Total(ranges.direct));
        Distribute(ranges.blockSize, Total(ranges.direct), TotalTable(ranges.table));
        Distribute(ranges.blockSize, Total(ranges.direct) + TotalTable(ranges.table), Total(Doubles()));
      }
    }
  }

  lemma ListTotal(ranges: DataStream)
    ensures Total(ranges.RunList()) == Total(ranges.direct) + TotalTable(ranges.table)
  {
    hide Total, TotalTable;
    FlatJoin(ranges.direct, Join(ranges.table));
    JoinIsTable(ranges.table);
  }
}
