/** The data stream of an inode (Inode.cpp): runs of disk blocks in a direct and an indirect range that
    grow at the end, are trimmed from the end, and are looked up by position. */
module InodeStream {

  const NUM_DIRECT_BLOCKS: nat := 12
  const NUM_ARRAY_BLOCKS: nat := 4
  const MAX_BLOCK_RUN_LENGTH: nat := 65535
  const RUN_SIZE: nat := 8

  datatype Run = Run(group: int, start: nat, length: nat)

  const ZERO := Run(0, 0, 0)

  /** A disk block: its allocation group and its place in it. */
  datatype Block = Block(group: int, at: int)

  predicate MergeableWith(a: Run, b: Run) {
    a.group == b.group && a.start + a.length == b.start && a.length + b.length <= MAX_BLOCK_RUN_LENGTH
  }

  function Merged(a: Run, b: Run): Run {
    a.(length := a.length + b.length)
  }

  /** The blocks of a run, in order. */
  function BlocksOf(run: Run): (r: seq<Block>)
    ensures |r| == run.length
  {
    seq(run.length, i => Block(run.group, run.start + i))
  }

  function Flat(runs: seq<Run>): seq<Block> {
    if runs == [] then [] else BlocksOf(runs[0]) + Flat(runs[1..])
  }

  function Total(runs: seq<Run>): nat {
    if runs == [] then 0 else runs[0].length + Total(runs[1..])
  }

  lemma {:induction false} FlatSize(runs: seq<Run>)
    ensures |Flat(runs)| == Total(runs)
  {
    if runs != [] {
      FlatSize(runs[1..]);
    }
  }

  lemma {:induction false} FlatJoin(a: seq<Run>, b: seq<Run>)
    ensures Flat(a + b) == Flat(a) + Flat(b)
    ensures Total(a + b) == Total(a) + Total(b)
  {
    hide BlocksOf;
    if a == [] {
      assert a + b == b;
    } else {
      var rest := a[1..];
      FlatJoin(rest, b);
      assert (a + b)[0] == a[0] && (a + b)[1..] == rest + b;
      Regroup(BlocksOf(a[0]), Flat(rest), Flat(b));
    }
  }

  lemma FlatOfOne(run: Run)
    ensures Flat([run]) == BlocksOf(run) && Total([run]) == run.length
  {
    assert Flat([run]) == BlocksOf(run) + Flat([]);
  }

  lemma FlatAround(before: seq<Run>, run: Run, after: seq<Run>)
    ensures Flat(before + [run] + after) == Flat(before) + BlocksOf(run) + Flat(after)
    ensures Total(before + [run] + after) == Total(before) + run.length + Total(after)
  {
    hide Flat, Total, BlocksOf;
    FlatJoin(before + [run], after);
    FlatJoin(before, [run]);
    FlatOfOne(run);
  }

  /** A sequence around one of its places, and what an update does there. */
  lemma Cut<T>(s: seq<T>, i: nat, x: T) returns (before: seq<T>, after: seq<T>)
    requires i < |s|
    ensures |before| == i && s == before + [s[i]] + after && s[i := x] == before + [x] + after
    ensures forall k :: 0 <= k < |after| ==> after[k] == s[i + 1 + k]
  {
    before, after := s[..i], s[i + 1..];
  }

  /** Runs that are in use come first; the rest are zero. */
  predicate ZeroTail(runs: seq<Run>) {
    && (forall i :: 0 <= i < |runs| ==> runs[i] == ZERO || runs[i].length > 0)
    && (forall i, j :: 0 <= i < j < |runs| && runs[i] == ZERO ==> runs[j] == ZERO)
  }

  predicate AllZero(runs: seq<Run>) {
    forall i :: 0 <= i < |runs| ==> runs[i] == ZERO
  }

  predicate HasZero(runs: seq<Run>) {
    exists i :: 0 <= i < |runs| && runs[i] == ZERO
  }

  lemma {:induction false} ZerosAreEmpty(runs: seq<Run>)
    requires AllZero(runs)
    ensures Flat(runs) == [] && Total(runs) == 0
  {
    if runs != [] {
      ZerosAreEmpty(runs[1..]);
    }
  }

  /** Putting a run into the first free place appends its blocks. */
  lemma PutAppends(runs: seq<Run>, free: nat, run: Run)
    requires free < |runs| && ZeroTail(runs) && runs[free] == ZERO && run.length > 0
    requires forall i :: 0 <= i < free ==> runs[i] != ZERO
    ensures ZeroTail(runs[free := run])
    ensures Flat(runs[free := run]) == Flat(runs) + BlocksOf(run)
    ensures Total(runs[free := run]) == Total(runs) + run.length
  {
    var before, after := Cut(runs, free, run);
    FlatAround(before, ZERO, after);
    FlatAround(before, run, after);
    ZerosAreEmpty(after);
    NoBlocks(Flat(before), BlocksOf(run));
  }

  lemma NoBlocks(a: seq<Block>, b: seq<Block>)
    ensures BlocksOf(ZERO) == [] && a + b + [] == a + [] + [] + b
  {
  }

  /** So does merging it into the last run. */
  lemma MergeAppends(runs: seq<Run>, free: nat, run: Run)
    requires 0 < free <= |runs| && ZeroTail(runs) && (free < |runs| ==> runs[free] == ZERO) && run.length > 0
    requires forall i :: 0 <= i < free ==> runs[i] != ZERO
    requires MergeableWith(runs[free - 1], run)
    ensures ZeroTail(runs[free - 1 := Merged(runs[free - 1], run)])
    ensures Flat(runs[free - 1 := Merged(runs[free - 1], run)]) == Flat(runs) + BlocksOf(run)
    ensures Total(runs[free - 1 := Merged(runs[free - 1], run)]) == Total(runs) + run.length
  {
    var last := runs[free - 1];
    var before, after := Cut(runs, free - 1, Merged(last, run));
    FlatAround(before, last, after);
    FlatAround(before, Merged(last, run), after);
    ZerosAreEmpty(after);
    MergedBlocks(Flat(before), last, run);
  }

  lemma MergedBlocks(a: seq<Block>, last: Run, run: Run)
    requires MergeableWith(last, run)
    ensures a + BlocksOf(Merged(last, run)) + [] == a + BlocksOf(last) + [] + BlocksOf(run)
  {
    assert BlocksOf(Merged(last, run)) == BlocksOf(last) + BlocksOf(run);
  }

  // ---- The indirect array: several blocks full of runs ----

  function FlatTable(table: seq<seq<Run>>): seq<Block> {
    if table == [] then [] else Flat(table[0]) + FlatTable(table[1..])
  }

  function TotalTable(table: seq<seq<Run>>): nat {
    if table == [] then 0 else Total(table[0]) + TotalTable(table[1..])
  }

  /** Across the blocks too, what is in use comes first. */
  predicate TableOk(table: seq<seq<Run>>) {
    && (forall i :: 0 <= i < |table| ==> ZeroTail(table[i]))
    && (forall i, j :: 0 <= i < j < |table| && HasZero(table[i]) ==> AllZero(table[j]))
  }

  lemma {:induction false} TableSize(table: seq<seq<Run>>)
    ensures |FlatTable(table)| == TotalTable(table)
  {
    if table != [] {
      FlatSize(table[0]);
      TableSize(table[1..]);
    }
  }

  lemma {:induction false} TableJoin(a: seq<seq<Run>>, b: seq<seq<Run>>)
    ensures FlatTable(a + b) == FlatTable(a) + FlatTable(b)
    ensures TotalTable(a + b) == TotalTable(a) + TotalTable(b)
  {
    hide Flat, Total;
    if a == [] {
      assert a + b == b;
    } else {
      var rest := a[1..];
      TableJoin(rest, b);
      assert (a + b)[0] == a[0] && (a + b)[1..] == rest + b;
      Regroup(Flat(a[0]), FlatTable(rest), FlatTable(b));
    }
  }

  lemma Regroup(x: seq<Block>, y: seq<Block>, z: seq<Block>)
    ensures x + (y + z) == x + y + z
  {
  }

  lemma TableAround(before: seq<seq<Run>>, runs: seq<Run>, after: seq<seq<Run>>)
    ensures FlatTable(before + [runs] + after) == FlatTable(before) + Flat(runs) + FlatTable(after)
    ensures TotalTable(before + [runs] + after) == TotalTable(before) + Total(runs) + TotalTable(after)
  {
    hide FlatTable, TotalTable, Flat, Total;
    TableJoin(before + [runs], after);
    TableJoin(before, [runs]);
    TableOfOne(runs);
  }

  lemma TableOfOne(runs: seq<Run>)
    ensures FlatTable([runs]) == Flat(runs) && TotalTable([runs]) == Total(runs)
  {
    assert FlatTable([runs]) == Flat(runs) + FlatTable([]);
  }

  lemma {:induction false} ZeroTable(table: seq<seq<Run>>)
    requires forall i :: 0 <= i < |table| ==> AllZero(table[i])
    ensures FlatTable(table) == [] && TotalTable(table) == 0
  {
    if table != [] {
      ZerosAreEmpty(table[0]);
      ZeroTable(table[1..]);
    }
  }

  /** Appending to the first block with room appends to the table. */
  lemma TableAppends(table: seq<seq<Run>>, i: nat, runs: seq<Run>, run: Run)
    requires i < |table| && TableOk(table) && HasZero(table[i]) && (forall j :: 0 <= j < i ==> !HasZero(table[j]))
    requires ZeroTail(runs) && Flat(runs) == Flat(table[i]) + BlocksOf(run) && Total(runs) == Total(table[i]) + run.length
    ensures TableOk(table[i := runs])
    ensures FlatTable(table[i := runs]) == FlatTable(table) + BlocksOf(run)
    ensures TotalTable(table[i := runs]) == TotalTable(table) + run.length
  {
    hide Flat, Total, FlatTable, TotalTable;
    var before, after := Cut(table, i, runs);
    TableAround(before, table[i], after);
    TableAround(before, runs, after);
    ZeroTable(after);
    Regrouped(FlatTable(before), Flat(table[i]), BlocksOf(run));
  }

  lemma Regrouped(a: seq<Block>, x: seq<Block>, y: seq<Block>)
    ensures a + (x + y) + [] == a + x + [] + y
  {
  }

  // ---- Bytes and blocks ----

  /** The length of so many blocks in bytes. */
  function ToBytes(blockSize: nat, blocks: nat): nat {
    blocks * blockSize
  }

  lemma InBlocks(blockSize: nat, blocks: nat, size: nat)
    requires blockSize > 0
    ensures ToBytes(blockSize, blocks) > size <==> blocks > size / blockSize
    ensures ToBytes(blockSize, blocks) < size <==>
              blocks < size / blockSize || (blocks == size / blockSize && size % blockSize > 0)
    ensures ToBytes(blockSize, blocks) <= size ==>
              (size - ToBytes(blockSize, blocks)) / blockSize == size / blockSize - blocks
  {
    var q, r := size / blockSize, size % blockSize;
    assert size == ToBytes(blockSize, q) + r;
    if blocks > q {
      Multiple(blockSize, blocks - q);
      Distribute(blockSize, q, blocks - q);
    } else {
      Distribute(blockSize, blocks, q - blocks);
      if blocks < q {
        Multiple(blockSize, q - blocks);
      }
      Quotient(size - ToBytes(blockSize, blocks), blockSize, q - blocks, r);
    }
  }

  lemma Multiple(d: nat, k: nat)
    requires k >= 1
    ensures ToBytes(d, k) >= d
  {
    assert k * d == (k - 1) * d + d;
  }

  lemma Distribute(d: nat, a: nat, b: nat)
    ensures ToBytes(d, a + b) == ToBytes(d, a) + ToBytes(d, b)
  {
  }

  lemma Monotone(d: nat, a: nat, b: nat)
    requires a <= b
    ensures ToBytes(d, a) <= ToBytes(d, b)
  {
    Distribute(d, a, b - a);
  }

  lemma Quotient(n: nat, d: nat, q: nat, r: nat)
    requires d > 0 && n == ToBytes(d, q) + r && r < d
    ensures n / d == q && n % d == r
  {
    var q', r' := n / d, n % d;
    assert n == ToBytes(d, q') + r';
    if q' < q {
      Distribute(d, q', q - q');
      Multiple(d, q - q');
    } else if q < q' {
      Distribute(d, q, q' - q);
      Multiple(d, q' - q);
    }
  }

  // ---- _FreeStreamArray ----

  predicate Live(runs: seq<Run>) {
    forall i :: 0 <= i < |runs| ==> runs[i].length > 0
  }

  /** Some run ends after exactly `blocks` blocks. */
  ghost predicate IsBoundary(runs: seq<Run>, blocks: int) {
    exists n :: 0 <= n <= |runs| && Total(runs[..n]) == blocks
  }

  /** Where a stream that is cut to `size` bytes ends, in blocks: behind the block that holds the end.
      At the end of a run nothing more is kept; on a block boundary inside a run one block more is. */
  ghost function EndOf(runs: seq<Run>, blockSize: nat, at: nat, size: nat): nat
    requires blockSize > 0
  {
    if at + Total(runs) <= size / blockSize then at + Total(runs)
    else if size <= ToBytes(blockSize, at) then at
    else if size % blockSize == 0 && IsBoundary(runs, size / blockSize - at) then size / blockSize
    else size / blockSize + 1
  }

  /** `runs0`, starting at block `at`, has been cut into what is kept and what is freed. */
  ghost predicate Trimmed(runs0: seq<Run>, runs: seq<Run>, freed: seq<Run>, blockSize: nat, at: nat, size: nat)
    requires blockSize > 0
  {
    && |runs| == |runs0| && ZeroTail(runs) && Live(freed)
    && Flat(runs0) == Flat(runs) + Flat(freed) && Total(runs0) == Total(runs) + Total(freed)
    && at + Total(runs) == EndOf(runs0, blockSize, at, size)
    && (at + Total(runs0) <= size / blockSize ==> runs == runs0 && freed == [])
    && (size <= ToBytes(blockSize, at) ==> AllZero(runs))
  }

  /** Totals of live runs grow. */
  lemma {:induction false} TotalsGrow(runs: seq<Run>, m: nat, n: nat)
    requires Live(runs) && m < n <= |runs|
    ensures Total(runs[..m]) < Total(runs[..n]) <= Total(runs)
  {
    var a, b, c := runs[..m], runs[m..n], runs[n..];
    assert runs[..n] == a + b && runs == a + b + c;
    FlatJoin(a, b);
    FlatJoin(a + b, c);
    assert b[0].length > 0;
  }

  lemma BoundaryGrows(runs: seq<Run>, run: Run, blocks: int)
    requires Live(runs) && run.length > 0
    ensures IsBoundary(runs + [run], blocks) <==> IsBoundary(runs, blocks) || blocks == Total(runs) + run.length
  {
    var more := runs + [run];
    FlatJoin(runs, [run]);
    FlatOfOne(run);
    assert more[..|more|] == more;
    forall n | 0 <= n <= |runs| ensures more[..n] == runs[..n] {
    }
    if IsBoundary(runs, blocks) {
      var n :| 0 <= n <= |runs| && Total(runs[..n]) == blocks;
      assert Total(more[..n]) == blocks;
    }
    if blocks == Total(runs) + run.length {
      assert Total(more[..|more|]) == blocks;
    }
    if IsBoundary(more, blocks) {
      var n :| 0 <= n <= |more| && Total(more[..n]) == blocks;
      assert n <= |runs| ==> Total(runs[..n]) == blocks;
    }
  }

  lemma BoundaryInside(runs: seq<Run>, blocks: int)
    requires Live(runs) && IsBoundary(runs, blocks)
    ensures 0 <= blocks <= Total(runs)
  {
    var n :| 0 <= n <= |runs| && Total(runs[..n]) == blocks;
    if n < |runs| {
      TotalsGrow(runs, n, |runs|);
    } else {
      assert runs[..n] == runs;
    }
  }

  lemma BoundaryAtEnd(runs: seq<Run>)
    ensures IsBoundary(runs, Total(runs))
  {
    assert runs[..|runs|] == runs;
  }

  /** Where the cut is does not change behind it. */
  lemma EndStays(runs: seq<Run>, run: Run, blockSize: nat, at: nat, size: nat)
    requires blockSize > 0 && Live(runs) && run.length > 0 && at + Total(runs) > size / blockSize
    ensures EndOf(runs + [run], blockSize, at, size) == EndOf(runs, blockSize, at, size)
  {
    FlatJoin(runs, [run]);
    FlatOfOne(run);
    BoundaryGrows(runs, run, size / blockSize - at);
  }

  /** One run further: it is kept, or trimmed, or freed. */
  lemma TrimStep(runs0: seq<Run>, runs: seq<Run>, freed: seq<Run>, blockSize: nat, at: nat, size: nat,
                 run: Run, left: Run, off: seq<Run>, max: nat, max': nat)
    requires blockSize > 0 && Live(runs0) && run.length > 0 && Trimmed(runs0, runs, freed, blockSize, at, size)
    requires RunTrimmed(run, left, off, blockSize, at + Total(runs0), size, max, max')
    ensures Trimmed(runs0 + [run], runs + [left], freed + off, blockSize, at, size)
  {
    hide *;
    var d, q := at + Total(runs0), size / blockSize;
    FlatJoin(runs0, [run]);
    FlatJoin(runs, [left]);
    FlatJoin(freed, off);
    FlatOfOne(run);
    FlatOfOne(left);
    InBlocks(blockSize, d, size);
    TrimmedIs(runs0, runs, freed, blockSize, at, size);
    TrimEnd(runs0, run, blockSize, at, size);
    RunCut(run, left, off, blockSize, d, size, max, max');
    CutRun(run, left, off);
    TailGrows(runs0, runs, left);
    if d > q {
      FreedLater(Flat(runs), Flat(freed), BlocksOf(run));
    } else {
      assert Flat(runs0) + BlocksOf(run) == Flat(runs) + BlocksOf(left) + (Flat(freed) + Flat(off));
    }
    IsTrimmed(runs0 + [run], runs + [left], freed + off, blockSize, at, size);
  }

  lemma TrimmedIs(runs0: seq<Run>, runs: seq<Run>, freed: seq<Run>, blockSize: nat, at: nat, size: nat)
    requires blockSize > 0 && Trimmed(runs0, runs, freed, blockSize, at, size)
    ensures |runs| == |runs0| && ZeroTail(runs) && Live(freed)
    ensures Flat(runs0) == Flat(runs) + Flat(freed) && Total(runs0) == Total(runs) + Total(freed)
    ensures at + Total(runs) == EndOf(runs0, blockSize, at, size)
    ensures at + Total(runs0) <= size / blockSize ==> runs == runs0 && freed == []
    ensures size <= ToBytes(blockSize, at) ==> AllZero(runs)
  {
  }

  lemma IsTrimmed(runs0: seq<Run>, runs: seq<Run>, freed: seq<Run>, blockSize: nat, at: nat, size: nat)
    requires blockSize > 0 && |runs| == |runs0| && ZeroTail(runs) && Live(freed)
    requires Flat(runs0) == Flat(runs) + Flat(freed) && Total(runs0) == Total(runs) + Total(freed)
    requires at + Total(runs) == EndOf(runs0, blockSize, at, size)
    requires at + Total(runs0) <= size / blockSize ==> runs == runs0 && freed == []
    requires size <= ToBytes(blockSize, at) ==> AllZero(runs)
    ensures Trimmed(runs0, runs, freed, blockSize, at, size)
  {
  }

  /** How a further run moves the end. */
  lemma TrimEnd(runs0: seq<Run>, run: Run, blockSize: nat, at: nat, size: nat)
    requires blockSize > 0 && Live(runs0) && run.length > 0
    ensures var d, q, end := at + Total(runs0), size / blockSize, EndOf(runs0 + [run], blockSize, at, size);
            if d + run.length <= q then end == d + run.length
            else if d > q then end == EndOf(runs0, blockSize, at, size)
            else if ToBytes(blockSize, d) < size then end == q + 1
            else end == d
    ensures at + Total(runs0) <= size / blockSize ==> EndOf(runs0, blockSize, at, size) == at + Total(runs0)
    ensures size <= ToBytes(blockSize, at) ==> at >= size / blockSize && size <= ToBytes(blockSize, at + Total(runs0))
  {
    hide Flat, Total, BlocksOf, IsBoundary;
    var d, q := at + Total(runs0), size / blockSize;
    FlatJoin(runs0, [run]);
    FlatOfOne(run);
    InBlocks(blockSize, d, size);
    InBlocks(blockSize, at, size);
    BoundaryGrows(runs0, run, q - at);
    BoundaryAtEnd(runs0);
    if d > q {
      EndStays(runs0, run, blockSize, at, size);
    } else if d < q {
      NotInside(runs0, q - at);
    }
  }

  lemma RunCut(run: Run, left: Run, off: seq<Run>, blockSize: nat, d: nat, size: nat, max: nat, max': nat)
    requires blockSize > 0 && run.length > 0 && RunTrimmed(run, left, off, blockSize, d, size, max, max')
    ensures var q := size / blockSize;
            if d + run.length <= q then left == run && off == []
            else if ToBytes(blockSize, d) < size then
              d <= q && left == run.(length := q - d + 1) && left.length <= run.length
              && off == (if run.length == q - d + 1 then []
                         else [Run(run.group, run.start + left.length, run.length - left.length)])
            else left == ZERO && off == [run]
  {
  }

  lemma CutRun(run: Run, left: Run, off: seq<Run>)
    requires (left == run && off == []) || (left == ZERO && off == [run])
             || (left == run.(length := left.length) && left.length < run.length
                 && off == [Run(run.group, run.start + left.length, run.length - left.length)])
    ensures BlocksOf(run) == BlocksOf(left) + Flat(off) && run.length == left.length + Total(off)
  {
    if off != [] {
      FlatOfOne(off[0]);
    }
  }

  lemma TailGrows(runs0: seq<Run>, runs: seq<Run>, left: Run)
    requires ZeroTail(runs) && (left == ZERO || (Live(runs) && left.length > 0))
    ensures ZeroTail(runs + [left])
  {
  }

  lemma FreedLater(kept: seq<Block>, freed: seq<Block>, blocks: seq<Block>)
    ensures kept + freed + blocks == kept + [] + (freed + blocks) && BlocksOf(ZERO) == []
  {
  }

  lemma NotInside(runs: seq<Run>, blocks: int)
    requires Live(runs) && blocks > Total(runs)
    ensures !IsBoundary(runs, blocks)
  {
    if IsBoundary(runs, blocks) {
      BoundaryInside(runs, blocks);
    }
  }

  /** What stays of the run at block `d`, what goes, and the new end of the range. */
  ghost predicate RunTrimmed(run: Run, left: Run, off: seq<Run>, blockSize: nat, d: nat, size: nat, max: nat, max': nat)
    requires blockSize > 0
  {
    var q := size / blockSize;
    if d + run.length <= q then left == run && off == [] && max' == max
    else if ToBytes(blockSize, d) < size then
      d <= q && q - d + 1 <= run.length && left == run.(length := q - d + 1)
      && (if run.length == q - d + 1 then off == [] && max' == max
          else off == [Run(run.group, run.start + (q - d + 1), run.length - (q - d + 1))]
               && max' == ToBytes(blockSize, d) + ToBytes(blockSize, left.length))
    else left == ZERO && off == [run] && max' == if max > ToBytes(blockSize, d) then ToBytes(blockSize, d) else max
  }

  method TrimRun(run: Run, blockSize: nat, size: nat, offset: nat, newOffset: nat, max: nat, ghost d: nat)
    returns (left: Run, off: seq<Run>, max': nat)
    requires blockSize > 0 && offset == ToBytes(blockSize, d) && newOffset == offset + ToBytes(blockSize, run.length)
    ensures RunTrimmed(run, left, off, blockSize, d, size, max, max')
  {
    left, off, max' := run, [], max;
    BeforeAfter(blockSize, d, run.length, size);
    InBlocks(blockSize, d, size);
    if newOffset > size {
      if offset < size {
        var keep := (size - offset) / blockSize + 1;
        left := run.(length := keep);
        if run.length - keep != 0 {
          off := [Run(run.group, run.start + keep, run.length - keep)];
          max' := offset + ToBytes(blockSize, keep);
        }
      } else {
        left, off := ZERO, [run];
        if max > offset {
          max' := offset;
        }
      }
    }
  }

  /** The end of the range once something has been freed. */
  function MaxAfter(kept: seq<Run>, freed: seq<Run>, blockSize: nat, at: nat, max0: nat): nat {
    if freed != [] && ToBytes(blockSize, at + Total(kept)) < max0 then ToBytes(blockSize, at + Total(kept)) else max0
  }

  /** Frees all runs behind `size` and trims the one it ends in.  `at` is where the array starts, in
      blocks; `offset` and `max` count bytes. */
  method FreeStreamArray(runs0: seq<Run>, blockSize: nat, size: nat, offset0: nat, max0: nat, ghost at: nat)
    returns (runs: seq<Run>, offset: nat, max: nat, freed: seq<Run>)
    requires blockSize > 0 && ZeroTail(runs0) && offset0 == ToBytes(blockSize, at)
    requires offset0 < size ==> max0 >= ToBytes(blockSize, at + Total(runs0))
    ensures Trimmed(runs0, runs, freed, blockSize, at, size)
    ensures offset == ToBytes(blockSize, at + Total(runs0))
    ensures max == MaxAfter(runs, freed, blockSize, at, max0)
  {
    hide *;
    runs, offset, max, freed := runs0, offset0, max0, [];
    var i := 0;
    ghost var done: seq<Run>, kept: seq<Run>, rest := [], [], runs0;
    NothingTrimmed(blockSize, at, size);
    MaxOfNothing(blockSize, at, max0);
    while i < |runs|
      invariant i <= |runs| == |runs0| && i == |kept| == |done| && runs == kept + rest && runs0 == done + rest
      invariant Live(done) && offset == ToBytes(blockSize, at + Total(done))
      invariant Trimmed(done, kept, freed, blockSize, at, size)
      invariant max == MaxAfter(kept, freed, blockSize, at, max0)
    {
      if runs[i] == ZERO {
        break;
      }
      var run := runs[i];
      var newOffset := offset + ToBytes(blockSize, run.length);
      ghost var tail := First(kept, rest, runs);
      OneFurther(runs0, done, run, tail, blockSize, at);
      var left, off, max' := TrimRun(run, blockSize, size, offset, newOffset, max, at + Total(done));
      TrimStep(done, kept, freed, blockSize, at, size, run, left, off, max, max');
      Monotone(blockSize, at + Total(done) + run.length, at + Total(runs0));
      MaxStep(done, kept, freed, blockSize, at, size, run, left, off, max0, max, max');
      Advance(kept, run, tail, left);
      runs, offset, max, freed := runs[i := left], newOffset, max', freed + off;
      done, kept, rest := done + [run], kept + [left], tail;
      i := i + 1;
    }
    WhatIsLeft(runs0, done, rest);
    TrimZeros(done, rest, kept, freed, blockSize, at, size);
    MaxOfMore(kept, rest, freed, blockSize, at, max0);
  }

  lemma First(kept: seq<Run>, rest: seq<Run>, runs: seq<Run>) returns (tail: seq<Run>)
    requires rest != [] && runs == kept + rest
    ensures rest == [runs[|kept|]] + tail
  {
    tail := rest[1..];
  }

  lemma Advance(kept: seq<Run>, run: Run, rest: seq<Run>, left: Run)
    ensures (kept + ([run] + rest))[|kept| := left] == kept + [left] + rest
  {
  }

  lemma MaxOfNothing(blockSize: nat, at: nat, max0: nat)
    ensures MaxAfter([], [], blockSize, at, max0) == max0
  {
  }

  lemma MaxOfMore(kept: seq<Run>, rest: seq<Run>, freed: seq<Run>, blockSize: nat, at: nat, max0: nat)
    requires Total(kept + rest) == Total(kept)
    ensures MaxAfter(kept + rest, freed, blockSize, at, max0) == MaxAfter(kept, freed, blockSize, at, max0)
  {
  }

  lemma Rejoin<T>(s: seq<T>, i: nat)
    requires i <= |s|
    ensures s[..i] + s[i..] == s
  {
  }

  lemma NothingTrimmed(blockSize: nat, at: nat, size: nat)
    requires blockSize > 0
    ensures Trimmed([], [], [], blockSize, at, size) && Total([]) == 0 && Live([])
  {
    hide ToBytes, IsBoundary;
    InBlocks(blockSize, at, size);
  }

  lemma OneFurther(runs: seq<Run>, done: seq<Run>, run: Run, rest: seq<Run>, blockSize: nat, at: nat)
    requires runs == done + ([run] + rest) && ZeroTail(runs) && run != ZERO && Live(done)
    ensures run.length > 0 && runs == done + [run] + rest && Live(done + [run])
    ensures Total(done + [run]) == Total(done) + run.length <= Total(runs)
    ensures ToBytes(blockSize, at + Total(done + [run])) == ToBytes(blockSize, at + Total(done)) + ToBytes(blockSize, run.length)
  {
    hide Total, Flat, BlocksOf;
    assert runs[|done|] == run;
    FlatAround(done, run, rest);
    FlatJoin(done, [run]);
    FlatOfOne(run);
    assert runs == done + [run] + rest;
    Distribute(blockSize, at + Total(done), run.length);
  }

  lemma TotalOfPrefix(runs: seq<Run>, i: nat)
    requires i <= |runs|
    ensures Total(runs[..i]) <= Total(runs)
  {
    hide Total, Flat, BlocksOf;
    Rejoin(runs, i);
    FlatJoin(runs[..i], runs[i..]);
  }

  /** The byte comparisons, in blocks. */
  lemma BeforeAfter(blockSize: nat, d: nat, length: nat, size: nat)
    requires blockSize > 0
    ensures ToBytes(blockSize, d) + ToBytes(blockSize, length) > size <==> d + length > size / blockSize
    ensures ToBytes(blockSize, d) < size && d + length > size / blockSize ==>
              (size - ToBytes(blockSize, d)) / blockSize == size / blockSize - d && size / blockSize - d + 1 <= length
  {
    Distribute(blockSize, d, length);
    InBlocks(blockSize, d + length, size);
    InBlocks(blockSize, d, size);
  }

  /** What the method does to `max` in one step. */
  lemma MaxStep(runs0: seq<Run>, kept: seq<Run>, freed: seq<Run>, blockSize: nat, at: nat, size: nat,
                run: Run, left: Run, off: seq<Run>, max0: nat, max: nat, max': nat)
    requires blockSize > 0 && Live(runs0) && run.length > 0 && Trimmed(runs0, kept, freed, blockSize, at, size)
    requires Trimmed(runs0 + [run], kept + [left], freed + off, blockSize, at, size)
    requires max == MaxAfter(kept, freed, blockSize, at, max0)
    requires ToBytes(blockSize, at) < size ==> max0 >= ToBytes(blockSize, at + Total(runs0) + run.length)
    requires RunTrimmed(run, left, off, blockSize, at + Total(runs0), size, max, max')
    ensures max' == MaxAfter(kept + [left], freed + off, blockSize, at, max0)
  {
    hide Flat, BlocksOf, EndOf, IsBoundary, Total;
    TrimmedIs(runs0, kept, freed, blockSize, at, size);
    FlatJoin(kept, [left]);
    FlatOfOne(left);
    if off != [] {
      assert freed + off != [];
      Distribute(blockSize, at + Total(kept), left.length);
      Monotone(blockSize, at + Total(kept), at + Total(runs0));
      Monotone(blockSize, at, at + Total(runs0));
      Distribute(blockSize, at + Total(runs0), run.length);
      Monotone(blockSize, left.length, run.length);
      FlatNothing();
      InBlocks(blockSize, at + Total(runs0), size);
    }
  }

  lemma FlatNothing()
    ensures Flat([]) == [] && Total([]) == 0
  {
  }

  lemma WhatIsLeft(runs: seq<Run>, done: seq<Run>, rest: seq<Run>)
    requires runs == done + rest && ZeroTail(runs) && (rest != [] ==> rest[0] == ZERO)
    ensures AllZero(rest)
  {
    forall i | 0 <= i < |rest| ensures rest[i] == ZERO {
      assert runs[|done|] == rest[0] && runs[|done| + i] == rest[i];
    }
  }

  lemma TrimZeros(runs0: seq<Run>, rest: seq<Run>, kept: seq<Run>, freed: seq<Run>, blockSize: nat, at: nat, size: nat)
    requires blockSize > 0 && AllZero(rest) && Trimmed(runs0, kept, freed, blockSize, at, size)
    ensures Trimmed(runs0 + rest, kept + rest, freed, blockSize, at, size)
    ensures Total(runs0 + rest) == Total(runs0) && Total(kept + rest) == Total(kept)
  {
    hide Flat, Total, BlocksOf;
    ZerosAreEmpty(rest);
    FlatJoin(runs0, rest);
    FlatJoin(kept, rest);
    BoundaryOfZeros(runs0, rest, size / blockSize - at);
    assert Flat(runs0) + [] == Flat(runs0) && Flat(kept) + [] == Flat(kept);
  }

  lemma BoundaryOfZeros(runs: seq<Run>, rest: seq<Run>, blocks: int)
    requires AllZero(rest)
    ensures IsBoundary(runs + rest, blocks) <==> IsBoundary(runs, blocks)
  {
    var all := runs + rest;
    if IsBoundary(runs, blocks) {
      var n :| 0 <= n <= |runs| && Total(runs[..n]) == blocks;
      assert all[..n] == runs[..n];
    }
    if IsBoundary(all, blocks) {
      var n :| 0 <= n <= |all| && Total(all[..n]) == blocks;
      if n <= |runs| {
        assert all[..n] == runs[..n];
      } else {
        assert all[..n] == runs + rest[..n - |runs|];
        FlatJoin(runs, rest[..n - |runs|]);
        ZerosAreEmpty(rest[..n - |runs|]);
        BoundaryAtEnd(runs);
      }
    }
  }

  // ---- Several arrays, one after the other ----

  function Join(table: seq<seq<Run>>): seq<Run> {
    if table == [] then [] else table[0] + Join(table[1..])
  }

  lemma {:induction false} JoinIsTable(table: seq<seq<Run>>)
    ensures Flat(Join(table)) == FlatTable(table) && Total(Join(table)) == TotalTable(table)
  {
    if table != [] {
      JoinIsTable(table[1..]);
      FlatJoin(table[0], Join(table[1..]));
    }
  }

  lemma {:induction false} JoinMore(done: seq<seq<Run>>, runs: seq<Run>)
    ensures Join(done + [runs]) == Join(done) + runs
  {
    if done == [] {
      assert done + [runs] == [runs] && Join([runs]) == runs + Join([]);
    } else {
      var rest := done[1..];
      JoinMore(rest, runs);
      assert (done + [runs])[0] == done[0] && (done + [runs])[1..] == rest + [runs];
      assert done[0] + (Join(rest) + runs) == done[0] + Join(rest) + runs;
    }
  }

  lemma BoundaryOfJoin(a: seq<Run>, b: seq<Run>, blocks: int)
    ensures IsBoundary(a + b, blocks) <==> IsBoundary(a, blocks) || IsBoundary(b, blocks - Total(a))
  {
    hide IsBoundary;
    if IsBoundary(a, blocks) {
      BoundaryInFront(a, b, blocks);
    }
    if IsBoundary(b, blocks - Total(a)) {
      BoundaryBehind(a, b, blocks);
    }
    if IsBoundary(a + b, blocks) {
      BoundarySomewhere(a, b, blocks);
    }
  }

  lemma BoundaryInFront(a: seq<Run>, b: seq<Run>, blocks: int)
    requires IsBoundary(a, blocks)
    ensures IsBoundary(a + b, blocks)
  {
    var n :| 0 <= n <= |a| && Total(a[..n]) == blocks;
    assert (a + b)[..n] == a[..n];
  }

  lemma BoundaryBehind(a: seq<Run>, b: seq<Run>, blocks: int)
    requires IsBoundary(b, blocks - Total(a))
    ensures IsBoundary(a + b, blocks)
  {
    hide Flat;
    var n :| 0 <= n <= |b| && Total(b[..n]) == blocks - Total(a);
    FlatJoin(a, b[..n]);
    assert (a + b)[..|a| + n] == a + b[..n];
  }

  lemma BoundarySomewhere(a: seq<Run>, b: seq<Run>, blocks: int)
    requires IsBoundary(a + b, blocks)
    ensures IsBoundary(a, blocks) || IsBoundary(b, blocks - Total(a))
  {
    hide Flat;
    var n :| 0 <= n <= |a + b| && Total((a + b)[..n]) == blocks;
    if n <= |a| {
      assert (a + b)[..n] == a[..n];
    } else {
      FlatJoin(a, b[..n - |a|]);
      assert (a + b)[..n] == a + b[..n - |a|];
    }
  }

  lemma BoundaryWithin(runs: seq<Run>, blocks: int)
    requires IsBoundary(runs, blocks)
    ensures 0 <= blocks <= Total(runs)
  {
    var n :| 0 <= n <= |runs| && Total(runs[..n]) == blocks;
    TotalOfPrefix(runs, n);
  }

  /** The end of two lists is the end of the second one, unless the cut is in the first. */
  lemma EndOfJoin(a: seq<Run>, b: seq<Run>, blockSize: nat, at: nat, size: nat)
    requires blockSize > 0
    ensures EndOf(a + b, blockSize, at, size)
         == if at + Total(a) <= size / blockSize then EndOf(b, blockSize, at + Total(a), size) else EndOf(a, blockSize, at, size)
    ensures at + Total(a) > size / blockSize ==> size <= ToBytes(blockSize, at + Total(a))
  {
    hide Flat, Total, ToBytes, IsBoundary;
    var q := size / blockSize;
    FlatJoin(a, b);
    InBlocks(blockSize, at, size);
    InBlocks(blockSize, at + Total(a), size);
    BoundaryOfJoin(a, b, q - at);
    BoundaryAtEnd(a);
    if IsBoundary(a, q - at) {
      BoundaryWithin(a, q - at);
    }
    if IsBoundary(b, q - at - Total(a)) {
      BoundaryWithin(b, q - at - Total(a));
    }
  }

  lemma TrimJoin(a: seq<Run>, a': seq<Run>, fa: seq<Run>, b: seq<Run>, b': seq<Run>, fb: seq<Run>,
                 blockSize: nat, at: nat, size: nat)
    requires blockSize > 0 && Trimmed(a, a', fa, blockSize, at, size)
    requires Trimmed(b, b', fb, blockSize, at + Total(a), size)
    requires HasZero(a') && at + Total(a) <= size / blockSize ==> AllZero(b')
    ensures Trimmed(a + b, a' + b', fa + fb, blockSize, at, size)
  {
    hide *;
    var q := size / blockSize;
    TrimmedIs(a, a', fa, blockSize, at, size);
    TrimmedIs(b, b', fb, blockSize, at + Total(a), size);
    EndOfJoin(a, b, blockSize, at, size);
    EndAtStart(b, blockSize, at + Total(a), size);
    EndAtStart(a, blockSize, at, size);
    FlatJoin(a, b);
    FlatJoin(a', b');
    FlatJoin(fa, fb);
    LiveJoin(fa, fb);
    Monotone(blockSize, at, at + Total(a));
    if at + Total(a) <= q {
      FlatNothing();
      assert Flat(a) + Flat(b) == Flat(a') + Flat(b') + (Flat(fa) + Flat(fb));
      ZeroJoin(a', b');
      assert a' + b' == a + b' && fa + fb == fb;
    } else {
      ZerosAreEmpty(b');
      assert Flat(a) + Flat(b) == Flat(a') + Flat(b') + (Flat(fa) + Flat(fb));
      ZeroJoin(a', b');
    }
    AllZeroJoin(a', b');
    IsTrimmed(a + b, a' + b', fa + fb, blockSize, at, size);
  }

  lemma EndAtStart(runs: seq<Run>, blockSize: nat, at: nat, size: nat)
    requires blockSize > 0
    ensures at + Total(runs) <= size / blockSize ==> EndOf(runs, blockSize, at, size) == at + Total(runs)
    ensures size <= ToBytes(blockSize, at) ==> at >= size / blockSize && EndOf(runs, blockSize, at, size) == at
  {
    hide Total, ToBytes, IsBoundary;
    InBlocks(blockSize, at, size);
  }

  lemma LiveJoin(a: seq<Run>, b: seq<Run>)
    requires Live(a) && Live(b)
    ensures Live(a + b)
  {
  }

  lemma ZeroJoin(a: seq<Run>, b: seq<Run>)
    requires ZeroTail(a) && ZeroTail(b) && (HasZero(a) ==> AllZero(b))
    ensures ZeroTail(a + b)
  {
  }

  /** While an array is cut block by block: zeros only at the end so far, and no more runs behind them. */
  ghost predicate KeptOk(kept: seq<seq<Run>>, rest: seq<seq<Run>>, blockSize: nat, at: nat, size: nat)
    requires blockSize > 0
  {
    && TableOk(kept)
    && ((exists j :: 0 <= j < |kept| && HasZero(kept[j])) ==>
        at > size / blockSize || forall k :: 0 <= k < |rest| ==> AllZero(rest[k]))
  }

  lemma NothingKept(table: seq<seq<Run>>, blockSize: nat, at: nat, size: nat)
    requires blockSize > 0
    ensures KeptOk([], table, blockSize, at, size)
  {
  }

  lemma KeptIsOk(kept: seq<seq<Run>>, rest: seq<seq<Run>>, blockSize: nat, at: nat, size: nat)
    requires blockSize > 0 && KeptOk(kept, rest, blockSize, at, size)
    ensures TableOk(kept)
  {
  }

  lemma KeptGoesOn(table0: seq<seq<Run>>, done: seq<seq<Run>>, kept: seq<seq<Run>>, runs0: seq<Run>, runs: seq<Run>,
                   off: seq<Run>, tail: seq<seq<Run>>, blockSize: nat, at: nat, size: nat)
    requires blockSize > 0 && TableOk(table0) && table0 == done + ([runs0] + tail)
    requires KeptOk(kept, [runs0] + tail, blockSize, at, size) && Trimmed(runs0, runs, off, blockSize, at, size)
    ensures KeptOk(kept + [runs], tail, blockSize, at + Total(runs0), size)
  {
    hide *;
    TrimmedIs(runs0, runs, off, blockSize, at, size);
    InBlocks(blockSize, at, size);
    BlockTail(table0, |done|) by { Middle(done, runs0, tail); }
    KeptZeros(kept, [runs0] + tail, blockSize, at, size);
    ZeroBlock(runs0, runs, off, blockSize, at, size);
    ZerosBehind(table0, done, runs0, tail);
    KeptMore(kept, runs0, runs, tail, blockSize, at, Total(runs0), size);
  }

  lemma KeptZeros(kept: seq<seq<Run>>, rest: seq<seq<Run>>, blockSize: nat, at: nat, size: nat)
    requires blockSize > 0 && KeptOk(kept, rest, blockSize, at, size)
    ensures TableOk(kept)
    ensures forall j :: 0 <= j < |kept| && HasZero(kept[j]) ==> at > size / blockSize || forall k :: 0 <= k < |rest| ==> AllZero(rest[k])
  {
  }

  /** A block without runs stays one. */
  lemma ZeroBlock(runs0: seq<Run>, runs: seq<Run>, off: seq<Run>, blockSize: nat, at: nat, size: nat)
    requires blockSize > 0 && Trimmed(runs0, runs, off, blockSize, at, size)
    ensures at > size / blockSize || AllZero(runs0) ==> AllZero(runs)
    ensures HasZero(runs) && at + Total(runs0) <= size / blockSize ==> HasZero(runs0)
  {
    hide Flat, Total, EndOf, ToBytes, ZeroTail;
    InBlocks(blockSize, at, size);
    if AllZero(runs0) {
      ZerosAreEmpty(runs0);
    }
  }

  lemma ZerosBehind(table: seq<seq<Run>>, done: seq<seq<Run>>, runs: seq<Run>, tail: seq<seq<Run>>)
    requires TableOk(table) && table == done + ([runs] + tail)
    ensures HasZero(runs) ==> forall k :: 0 <= k < |tail| ==> AllZero(tail[k])
  {
    hide HasZero, AllZero, ZeroTail;
    assert table[|done|] == runs;
    forall k | 0 <= k < |tail| && HasZero(runs) ensures AllZero(tail[k]) {
      assert table[|done| + 1 + k] == tail[k];
    }
  }

  lemma KeptMore(kept: seq<seq<Run>>, runs0: seq<Run>, runs: seq<Run>, tail: seq<seq<Run>>, blockSize: nat, at: nat,
                 more: nat, size: nat)
    requires blockSize > 0 && TableOk(kept) && ZeroTail(runs)
    requires forall j :: 0 <= j < |kept| && HasZero(kept[j]) ==>
               at > size / blockSize || forall k :: 0 <= k < |tail| + 1 ==> AllZero(([runs0] + tail)[k])
    requires at > size / blockSize || AllZero(runs0) ==> AllZero(runs)
    requires HasZero(runs) && at + more <= size / blockSize ==> forall k :: 0 <= k < |tail| ==> AllZero(tail[k])
    ensures KeptOk(kept + [runs], tail, blockSize, at + more, size)
  {
    hide HasZero, AllZero, ZeroTail;
    var all := kept + [runs];
    forall j, k | 0 <= j < k < |all| && HasZero(all[j]) ensures AllZero(all[k]) {
      if k == |kept| && at <= size / blockSize {
        assert AllZero(([runs0] + tail)[0]);
      }
    }
    forall j, k | 0 <= j < |all| && HasZero(all[j]) && at + more <= size / blockSize && 0 <= k < |tail| ensures AllZero(tail[k]) {
      if j < |kept| {
        assert AllZero(([runs0] + tail)[k + 1]);
      }
    }
  }

  lemma {:induction false} ZeroInJoin(table: seq<seq<Run>>)
    requires HasZero(Join(table))
    ensures exists j :: 0 <= j < |table| && HasZero(table[j])
  {
    if table != [] {
      var rest := table[1..];
      var i :| 0 <= i < |Join(table)| && Join(table)[i] == ZERO;
      if i < |table[0]| {
        assert table[0][i] == ZERO;
      } else {
        assert Join(rest)[i - |table[0]|] == ZERO;
        ZeroInJoin(rest);
        var j :| 0 <= j < |rest| && HasZero(rest[j]);
        assert table[j + 1] == rest[j];
      }
    }
  }

  lemma NoMoreRuns(kept: seq<seq<Run>>, runs0: seq<Run>, runs: seq<Run>, off: seq<Run>, tail: seq<seq<Run>>,
                   blockSize: nat, at: nat, size: nat)
    requires blockSize > 0 && KeptOk(kept, [runs0] + tail, blockSize, at, size) && Trimmed(runs0, runs, off, blockSize, at, size)
    ensures HasZero(Join(kept)) && at <= size / blockSize ==> AllZero(runs)
    ensures |runs| == |runs0|
  {
    hide Flat, Total, EndOf, ToBytes, ZeroTail;
    if HasZero(Join(kept)) && at <= size / blockSize {
      ZeroInJoin(kept);
      assert AllZero(([runs0] + tail)[0]);
      ZerosAreEmpty(runs0);
    }
  }

  lemma Middle(kept: seq<seq<Run>>, runs: seq<Run>, tail: seq<seq<Run>>)
    ensures (kept + ([runs] + tail))[|kept|] == runs
  {
  }

  lemma BlockTail(table: seq<seq<Run>>, i: nat)
    requires TableOk(table) && i < |table|
    ensures ZeroTail(table[i])
  {
  }

  lemma JoinNothing()
    ensures Join([]) == []
  {
  }

  /** One block further: `here` is where it starts. */
  lemma BlockCut(done: seq<seq<Run>>, kept: seq<seq<Run>>, runs0: seq<Run>, runs: seq<Run>, freed: seq<Run>, off: seq<Run>,
                 done1: seq<seq<Run>>, kept1: seq<seq<Run>>, freed1: seq<Run>,
                 blockSize: nat, at: nat, here: nat, size: nat, max0: nat)
    requires Cat(done1, done, [runs0]) && Cat(kept1, kept, [runs]) && Cat(freed1, freed, off)
    requires blockSize > 0 && here == at + Total(Join(done))
    requires Trimmed(Join(done), Join(kept), freed, blockSize, at, size)
    requires Trimmed(runs0, runs, off, blockSize, here, size)
    requires HasZero(Join(kept)) && here <= size / blockSize ==> AllZero(runs)
    ensures at + Total(Join(done1)) == here + Total(runs0)
    ensures Trimmed(Join(done1), Join(kept1), freed1, blockSize, at, size)
    ensures MaxAfter(runs, off, blockSize, here, MaxAfter(Join(kept), freed, blockSize, at, max0))
         == MaxAfter(Join(kept1), freed1, blockSize, at, max0)
  {
    hide *;
    JoinCat(done1, done, runs0);
    JoinCat(kept1, kept, runs);
    TotalCat(Join(done1), Join(done), runs0);
    TrimCat(Join(done1), Join(done), Join(kept1), Join(kept), freed1, freed, runs0, runs, off, blockSize, at, size);
    MaxCat(Join(done), Join(kept1), Join(kept), freed1, freed, runs0, runs, off, blockSize, at, size, max0);
  }

  /** Sequences taken apart, out of the way of what is proved about the parts. */
  ghost predicate Cat<T>(s: seq<T>, a: seq<T>, b: seq<T>) {
    s == a + b
  }

  lemma IsCat<T>(a: seq<T>, b: seq<T>)
    ensures Cat(a + b, a, b)
  {
  }

  lemma CatStart<T>(s: seq<T>)
    ensures Cat(s, [], s)
  {
  }

  /** The next element, and what that does to the split. */
  lemma CatNext<T>(s: seq<T>, a: seq<T>, rest: seq<T>) returns (tail: seq<T>, more: seq<T>)
    requires Cat(s, a, rest) && |a| < |s|
    ensures Cat(rest, [s[|a|]], tail) && Cat(s, more, tail) && Cat(more, a, [s[|a|]]) && |more| == |a| + 1
  {
    tail, more := rest[1..], a + [s[|a|]];
  }

  lemma CatEnd<T>(s: seq<T>, a: seq<T>, rest: seq<T>)
    requires Cat(s, a, rest)
    ensures |a| <= |s| && (|a| == |s| ==> a == s && rest == [])
    ensures s[..|a|] == a
  {
  }

  /** A place in one copy, updated. */
  lemma CatPut<T>(s: seq<T>, a: seq<T>, rest: seq<T>, x0: T, tail: seq<T>, x: T) returns (more: seq<T>)
    requires Cat(s, a, rest) && Cat(rest, [x0], tail)
    ensures |a| < |s| && s[|a|] == x0 && Cat(s[|a| := x], more, tail) && Cat(more, a, [x]) && |more| == |a| + 1
    ensures more[|a|] == x && forall k :: 0 <= k < |a| ==> more[k] == a[k]
  {
    more := a + [x];
  }

  lemma JoinCat(done1: seq<seq<Run>>, done: seq<seq<Run>>, runs: seq<Run>)
    requires Cat(done1, done, [runs])
    ensures Cat(Join(done1), Join(done), runs)
  {
    JoinMore(done, runs);
  }

  lemma TotalCat(s: seq<Run>, a: seq<Run>, b: seq<Run>)
    requires Cat(s, a, b)
    ensures Total(s) == Total(a) + Total(b)
  {
    FlatJoin(a, b);
  }

  lemma TrimCat(ab: seq<Run>, a: seq<Run>, ab': seq<Run>, a': seq<Run>, f: seq<Run>, fa: seq<Run>,
                b: seq<Run>, b': seq<Run>, fb: seq<Run>, blockSize: nat, at: nat, size: nat)
    requires Cat(ab, a, b) && Cat(ab', a', b') && Cat(f, fa, fb)
    requires blockSize > 0 && Trimmed(a, a', fa, blockSize, at, size)
    requires Trimmed(b, b', fb, blockSize, at + Total(a), size)
    requires HasZero(a') && at + Total(a) <= size / blockSize ==> AllZero(b')
    ensures Trimmed(ab, ab', f, blockSize, at, size)
  {
    hide Trimmed, Total, HasZero, AllZero;
    TrimJoin(a, a', fa, b, b', fb, blockSize, at, size);
  }

  lemma MaxCat(a: seq<Run>, ab': seq<Run>, a': seq<Run>, f: seq<Run>, fa: seq<Run>, b: seq<Run>, b': seq<Run>, fb: seq<Run>,
               blockSize: nat, at: nat, size: nat, max0: nat)
    requires Cat(ab', a', b') && Cat(f, fa, fb)
    requires blockSize > 0 && Trimmed(a, a', fa, blockSize, at, size)
    requires Trimmed(b, b', fb, blockSize, at + Total(a), size)
    ensures MaxAfter(b', fb, blockSize, at + Total(a), MaxAfter(a', fa, blockSize, at, max0))
         == MaxAfter(ab', f, blockSize, at, max0)
  {
    hide Trimmed, Total, MaxAfter;
    MaxGoesOn(a, a', fa, b, b', fb, blockSize, at, size, max0);
  }

  lemma KeptCat(table0: seq<seq<Run>>, done: seq<seq<Run>>, rest: seq<seq<Run>>, kept: seq<seq<Run>>, runs0: seq<Run>,
                runs: seq<Run>, off: seq<Run>, tail: seq<seq<Run>>, kept1: seq<seq<Run>>, blockSize: nat, at: nat, size: nat)
    requires Cat(table0, done, rest) && Cat(rest, [runs0], tail) && Cat(kept1, kept, [runs])
    requires blockSize > 0 && TableOk(table0)
    requires KeptOk(kept, rest, blockSize, at, size) && Trimmed(runs0, runs, off, blockSize, at, size)
    ensures KeptOk(kept1, tail, blockSize, at + Total(runs0), size)
    ensures HasZero(Join(kept)) && at <= size / blockSize ==> AllZero(runs)
    ensures |runs| == |runs0|
  {
    hide Trimmed, Total, KeptOk, TableOk, HasZero, AllZero, Join;
    KeptGoesOn(table0, done, kept, runs0, runs, off, tail, blockSize, at, size);
    NoMoreRuns(kept, runs0, runs, off, tail, blockSize, at, size);
  }

  /** The end of the range is not yet in the way. */
  lemma MaxCovers(table0: seq<seq<Run>>, done: seq<seq<Run>>, runs0: seq<Run>, tail: seq<seq<Run>>, blockSize: nat, at: nat,
                  kept: seq<Run>, freed: seq<Run>, size: nat, max0: nat, rest: seq<seq<Run>>)
    requires blockSize > 0 && Cat(table0, done, rest) && Cat(rest, [runs0], tail)
    requires max0 == ToBytes(blockSize, at + TotalTable(table0)) && Trimmed(Join(done), kept, freed, blockSize, at, size)
    ensures ToBytes(blockSize, at + Total(Join(done))) < size ==>
              MaxAfter(kept, freed, blockSize, at, max0) >= ToBytes(blockSize, at + Total(Join(done)) + Total(runs0))
  {
    hide Flat, Total, EndOf, ToBytes, ZeroTail, AllZero, Join, TotalTable;
    NextBlock(done, runs0, tail);
    TableAround(done, runs0, tail);
    JoinIsTable(done);
    InBlocks(blockSize, at + Total(Join(done)), size);
    Monotone(blockSize, at + Total(Join(done)) + Total(runs0), at + TotalTable(table0));
  }

  lemma MaxGoesOn(a: seq<Run>, a': seq<Run>, fa: seq<Run>, b: seq<Run>, b': seq<Run>, fb: seq<Run>,
                  blockSize: nat, at: nat, size: nat, max0: nat)
    requires blockSize > 0 && Trimmed(a, a', fa, blockSize, at, size)
    requires Trimmed(b, b', fb, blockSize, at + Total(a), size)
    ensures MaxAfter(b', fb, blockSize, at + Total(a), MaxAfter(a', fa, blockSize, at, max0))
         == MaxAfter(a' + b', fa + fb, blockSize, at, max0)
  {
    hide Flat, Total, EndOf, ToBytes, ZeroTail, AllZero;
    FlatJoin(a', b');
    FlatNothing();
    TrimmedIs(a, a', fa, blockSize, at, size);
    TrimmedIs(b, b', fb, blockSize, at + Total(a), size);
    InBlocks(blockSize, at + Total(a), size);
    Monotone(blockSize, at + Total(a'), at + Total(a));
    if fa != [] {
      ZerosAreEmpty(b');
    } else {
      assert fa + fb == fb;
    }
  }

  lemma MaxAtEnd(runs0: seq<Run>, runs: seq<Run>, freed: seq<Run>, blockSize: nat, at: nat, size: nat)
    requires blockSize > 0 && Trimmed(runs0, runs, freed, blockSize, at, size)
    ensures MaxAfter(runs, freed, blockSize, at, ToBytes(blockSize, at + Total(runs0))) == ToBytes(blockSize, at + Total(runs))
  {
    hide Flat, Total, EndOf, ToBytes, ZeroTail, AllZero;
    TrimmedIs(runs0, runs, freed, blockSize, at, size);
    FlatNothing();
    Monotone(blockSize, at + Total(runs), at + Total(runs0));
  }

  lemma AllZeroJoin(a: seq<Run>, b: seq<Run>)
    ensures AllZero(a) && AllZero(b) ==> AllZero(a + b)
  {
  }

  // ---- Looking up a position ----

  /** The run holds byte `pos` of the stream, `offset` bytes of which lie before the run. */
  predicate HoldsPosition(run: Run, offset: nat, blockSize: nat, pos: nat) {
    offset <= pos < offset + ToBytes(blockSize, run.length)
  }

  /** ... and the block that the stream has there. */
  ghost predicate RightBlock(run: Run, offset: nat, blockSize: nat, pos: nat, blocks: seq<Block>)
    requires blockSize > 0
  {
    && HoldsPosition(run, offset, blockSize, pos) && offset % blockSize == 0
    && pos / blockSize < |blocks|
    && blocks[pos / blockSize] == Block(run.group, run.start + (pos - offset) / blockSize)
  }

  /** The run is in the list, behind `offset` bytes, and holds the position. */
  ghost predicate FoundIn(runs: seq<Run>, run: Run, offset: nat, blockSize: nat, at: nat, pos: nat) {
    exists before, after :: FoundBetween(runs, before, run, after, offset, blockSize, at, pos)
  }

  predicate FoundBetween(runs: seq<Run>, before: seq<Run>, run: Run, after: seq<Run>, offset: nat, blockSize: nat, at: nat,
                         pos: nat)
  {
    && runs == before + [run] + after && offset == ToBytes(blockSize, at + Total(before))
    && HoldsPosition(run, offset, blockSize, pos)
  }

  lemma IsFound(before: seq<Run>, run: Run, after: seq<Run>, offset: nat, blockSize: nat, at: nat, pos: nat)
    requires offset == ToBytes(blockSize, at + Total(before)) && HoldsPosition(run, offset, blockSize, pos)
    ensures FoundIn(before + [run] + after, run, offset, blockSize, at, pos)
  {
    assert FoundBetween(before + [run] + after, before, run, after, offset, blockSize, at, pos);
  }

  /** A run found in part of a list is found in the list. */
  lemma FoundWider(front: seq<Run>, runs: seq<Run>, back: seq<Run>, run: Run, offset: nat, blockSize: nat, pos: nat)
    requires FoundIn(runs, run, offset, blockSize, Total(front), pos)
    ensures FoundIn(front + runs + back, run, offset, blockSize, 0, pos)
  {
    hide Total, ToBytes, HoldsPosition;
    var before, after :| FoundBetween(runs, before, run, after, offset, blockSize, Total(front), pos);
    FlatJoin(front, before);
    assert front + runs + back == (front + before) + [run] + (after + back);
    assert FoundBetween(front + runs + back, front + before, run, after + back, offset, blockSize, 0, pos);
  }

  /** The run that is found leads to the right block, and so do all its blocks: they are the stream's, from `offset` on. */
  lemma FoundIsRight(runs: seq<Run>, run: Run, offset: nat, blockSize: nat, pos: nat)
    requires blockSize > 0 && FoundIn(runs, run, offset, blockSize, 0, pos)
    ensures RightBlock(run, offset, blockSize, pos, Flat(runs))
    ensures offset / blockSize + run.length <= |Flat(runs)|
    ensures Flat(runs)[offset / blockSize..offset / blockSize + run.length] == BlocksOf(run)
  {
    hide Flat, Total, ToBytes, RightBlock, FoundIn, BlocksOf;
    FoundBlock(runs, run, offset, blockSize, pos, [], []);
    assert [] + Flat(runs) + [] == Flat(runs);
    var before, after := FoundPlace(runs, run, offset, blockSize, pos);
    FlatAround(before, run, after);
    FlatSize(before);
    Quotient(offset, blockSize, Total(before), 0);
    InMiddle(Flat(before), BlocksOf(run), Flat(after));
  }

  lemma FoundPlace(runs: seq<Run>, run: Run, offset: nat, blockSize: nat, pos: nat) returns (before: seq<Run>, after: seq<Run>)
    requires FoundIn(runs, run, offset, blockSize, 0, pos)
    ensures runs == before + [run] + after && offset == ToBytes(blockSize, Total(before))
  {
    before, after :| FoundBetween(runs, before, run, after, offset, blockSize, 0, pos);
  }

  lemma InMiddle(a: seq<Block>, b: seq<Block>, c: seq<Block>)
    ensures (a + b + c)[|a|..|a| + |b|] == b
  {
  }

  /** Walks over the runs, adding up their lengths, until one ends behind `pos`. */
  method ScanRuns(runs: seq<Run>, blockSize: nat, pos: nat, end0: nat, ghost at: nat)
    returns (found: bool, run: Run, offset: nat, end: nat)
    requires blockSize > 0 && ZeroTail(runs) && end0 == ToBytes(blockSize, at) <= pos
    ensures found ==> FoundIn(runs, run, offset, blockSize, at, pos)
    ensures !found ==> end == ToBytes(blockSize, at + Total(runs)) <= pos
  {
    hide *;
    found, run, offset, end := false, ZERO, 0, end0;
    var current := 0;
    ghost var done: seq<Run>, rest := [], runs;
    FlatNothing();
    LiveNothing();
    while current < |runs|
      invariant current == |done| <= |runs| && runs == done + rest && Live(done)
      invariant end == ToBytes(blockSize, at + Total(done)) <= pos
    {
      if runs[current] == ZERO {
        break;
      }
      ghost var tail := First(done, rest, runs);
      OneFurther(runs, done, runs[current], tail, blockSize, at);
      end := end + ToBytes(blockSize, runs[current].length);
      if end > pos {
        run := runs[current];
        offset := end - ToBytes(blockSize, run.length);
        PositionHeld(run, offset, blockSize, pos);
        IsFound(done, run, tail, offset, blockSize, at, pos);
        return true, run, offset, end;
      }
      done, rest := done + [runs[current]], tail;
      current := current + 1;
    }
    WhatIsLeft(runs, done, rest);
    ZerosAreEmpty(rest);
    FlatJoin(done, rest);
  }

  lemma LiveNothing()
    ensures Live([])
  {
  }

  lemma PositionHeld(run: Run, offset: nat, blockSize: nat, pos: nat)
    requires offset <= pos < offset + ToBytes(blockSize, run.length)
    ensures HoldsPosition(run, offset, blockSize, pos)
  {
  }

  /** The block of a position is where its run says. */
  lemma BlockAt(before: seq<Run>, run: Run, after: seq<Run>, blockSize: nat, pos: nat, front: seq<Block>, back: seq<Block>)
    requires blockSize > 0
    requires HoldsPosition(run, ToBytes(blockSize, |front| + Total(before)), blockSize, pos)
    ensures RightBlock(run, ToBytes(blockSize, |front| + Total(before)), blockSize, pos,
                       front + Flat(before + [run] + after) + back)
  {
    hide Flat, Total, ToBytes;
    var d := |front| + Total(before);
    InBlocks(blockSize, d, pos);
    Distribute(blockSize, d, run.length);
    InBlocks(blockSize, d + run.length, pos);
    FlatAround(before, run, after);
    FlatSize(before);
    WholeBlocks(blockSize, d);
    var k := pos / blockSize - d;
    InTheMiddle(front, Flat(before), BlocksOf(run), Flat(after), back, k);
  }

  lemma WholeBlocks(blockSize: nat, d: nat)
    requires blockSize > 0
    ensures ToBytes(blockSize, d) % blockSize == 0
  {
    Quotient(ToBytes(blockSize, d), blockSize, d, 0);
  }

  lemma InTheMiddle(front: seq<Block>, before: seq<Block>, middle: seq<Block>, after: seq<Block>, back: seq<Block>, k: nat)
    requires k < |middle|
    ensures |front + (before + middle + after) + back| > |front| + |before| + k
    ensures (front + (before + middle + after) + back)[|front| + |before| + k] == middle[k]
  {
  }

  lemma FoundBlock(runs: seq<Run>, run: Run, offset: nat, blockSize: nat, pos: nat, front: seq<Block>, back: seq<Block>)
    requires blockSize > 0 && FoundIn(runs, run, offset, blockSize, |front|, pos)
    ensures RightBlock(run, offset, blockSize, pos, front + Flat(runs) + back)
  {
    hide Flat, Total, ToBytes, RightBlock, HoldsPosition;
    var before, after :| FoundBetween(runs, before, run, after, offset, blockSize, |front|, pos);
    BlockAt(before, run, after, blockSize, pos, front, back);
  }

  // ---- where a new run goes ----

  /** How many runs of an array are in use: the place of its first zero. */
  function InUse(runs: seq<Run>): (n: nat)
    ensures n <= |runs| && (n < |runs| ==> runs[n] == ZERO) && forall i :: 0 <= i < n ==> runs[i] != ZERO
  {
    if runs == [] || runs[0] == ZERO then 0 else 1 + InUse(runs[1..])
  }

  lemma {:induction false} InUseIs(runs: seq<Run>, n: nat)
    requires n <= |runs| && (n < |runs| ==> runs[n] == ZERO) && forall i :: 0 <= i < n ==> runs[i] != ZERO
    ensures InUse(runs) == n && (HasZero(runs) <==> n < |runs|)
  {
    assert n < InUse(runs) ==> false;
    assert InUse(runs) < n ==> false;
  }

  /** The array with one more run in it, merged with the last one where that can be. */
  function Appended(runs: seq<Run>, run: Run): seq<Run> {
    var n := InUse(runs);
    if n == |runs| then runs
    else if n > 0 && MergeableWith(runs[n - 1], run) then runs[n - 1 := Merged(runs[n - 1], run)]
    else runs[n := run]
  }

  /** A place is used up exactly when the run cannot be merged with the last one. */
  lemma AppendedUses(runs: seq<Run>, run: Run)
    requires ZeroTail(runs) && HasZero(runs) && run.length > 0
    ensures var n := InUse(runs);
            && InUse(Appended(runs, run)) == (if n > 0 && MergeableWith(runs[n - 1], run) then n else n + 1)
            && forall i :: 0 <= i < n - 1 ==> Appended(runs, run)[i] == runs[i]
  {
    var n := InUse(runs);
    InUseIs(runs, n);
    var more := Appended(runs, run);
    InUseIs(more, if n > 0 && MergeableWith(runs[n - 1], run) then n else n + 1);
  }

  /** No run in use could have been merged with the one in front of it. */
  predicate Compact(runs: seq<Run>) {
    forall i :: 0 < i < InUse(runs) ==> !MergeableWith(runs[i - 1], runs[i])
  }

  /** Appending keeps it so. */
  lemma AppendedIsCompact(runs: seq<Run>, run: Run)
    requires ZeroTail(runs) && run.length > 0 && Compact(runs)
    ensures Compact(Appended(runs, run))
  {
    InUseIs(runs, InUse(runs));
    if HasZero(runs) {
      AppendedUses(runs, run);
    }
  }

  /** The arrays of a stream. */
  datatype Layout = Layout(direct: seq<Run>, indirect: Run, table: seq<seq<Run>>)

  /** The first block of an indirect array with room; their number if there is none. */
  function RoomIn(table: seq<seq<Run>>): (i: nat)
    ensures i <= |table| && (i < |table| ==> HasZero(table[i])) && forall j :: 0 <= j < i ==> !HasZero(table[j])
  {
    if table == [] || HasZero(table[0]) then 0 else 1 + RoomIn(table[1..])
  }

  function EmptyTable(blockSize: nat): seq<seq<Run>> {
    seq(NUM_ARRAY_BLOCKS, i => seq(blockSize / RUN_SIZE, j => ZERO))
  }

  lemma RoomIs(table: seq<seq<Run>>, i: nat)
    requires i <= |table| && (i < |table| ==> HasZero(table[i])) && forall j :: 0 <= j < i ==> !HasZero(table[j])
    ensures RoomIn(table) == i
  {
    hide HasZero;
    var j := RoomIn(table);
    assert j < |table| ==> HasZero(table[j]);
  }

  /** The arrays with one more run: in the direct one, or in the first block with room of the indirect one, which is
      put at `arrayRun` when it is not there yet. */
  function Placed(a: Layout, run: Run, arrayRun: Run, blockSize: nat): Layout {
    if HasZero(a.direct) then a.(direct := Appended(a.direct, run))
    else
      var indirect, table := if a.indirect == ZERO then arrayRun else a.indirect,
                             if a.indirect == ZERO then EmptyTable(blockSize) else a.table;
      var i := RoomIn(table);
      Layout(a.direct, indirect, if i < |table| then table[i := Appended(table[i], run)] else table)
  }

  /** And with several more, one after the other. */
  function PlacedAll(a: Layout, grants: seq<Run>, arrayRun: Run, blockSize: nat): Layout {
    if grants == [] then a
    else
      var last := |grants| - 1;
      Placed(PlacedAll(a, grants[..last], arrayRun, blockSize), grants[last], arrayRun, blockSize)
  }

  lemma PlacedNext(a: Layout, taken: seq<Run>, run: Run, more: seq<Run>, arrayRun: Run, blockSize: nat)
    requires Cat(more, taken, [run])
    ensures PlacedAll(a, more, arrayRun, blockSize) == Placed(PlacedAll(a, taken, arrayRun, blockSize), run, arrayRun, blockSize)
  {
    assert more[..|taken|] == taken && more[|taken|] == run;
  }

  /** The indirect array is where it was, or where it was put. */
  lemma {:induction false} PlacedIndirect(a: Layout, grants: seq<Run>, arrayRun: Run, blockSize: nat)
    ensures var b := PlacedAll(a, grants, arrayRun, blockSize);
            b.indirect == a.indirect || (a.indirect == ZERO && b.indirect == arrayRun && !HasZero(b.direct))
  {
    if grants != [] {
      PlacedIndirect(a, grants[..|grants| - 1], arrayRun, blockSize);
    }
  }

  lemma NothingPlaced(a: Layout, grants: seq<Run>, arrayRun: Run, blockSize: nat)
    ensures PlacedAll(a, [], arrayRun, blockSize) == a && PlacedAll(a, grants[..0], arrayRun, blockSize) == a
  {
    assert grants[..0] == [];
  }

  lemma GrownArrays(a: Layout, grants: seq<Run>, taken: seq<Run>, arrayRun: Run, blockSize: nat)
    requires Live(grants) && |taken| <= |grants| && taken == grants[..|taken|]
    ensures var b := PlacedAll(a, taken, arrayRun, blockSize);
            && (b.indirect == a.indirect || (a.indirect == ZERO && b.indirect == arrayRun))
            && (WellFormed(a) ==> WellFormed(b))
  {
    hide WellFormed;
    PlacedIndirect(a, taken, arrayRun, blockSize);
    if WellFormed(a) {
      PlacedAreCompact(a, taken, arrayRun, blockSize);
    }
  }

  ghost predicate WellFormed(a: Layout) {
    && ZeroTail(a.direct) && Compact(a.direct)
    && forall i :: 0 <= i < |a.table| ==> ZeroTail(a.table[i]) && Compact(a.table[i])
  }

  /** However a stream has grown, no run of it could have been merged with the one in front of it in the same array. */
  lemma {:induction false} PlacedAreCompact(a: Layout, grants: seq<Run>, arrayRun: Run, blockSize: nat)
    requires WellFormed(a) && Live(grants)
    ensures WellFormed(PlacedAll(a, grants, arrayRun, blockSize))
  {
    if grants != [] {
      var last := |grants| - 1;
      var before := PlacedAll(a, grants[..last], arrayRun, blockSize);
      PlacedAreCompact(a, grants[..last], arrayRun, blockSize);
      OneMoreIsCompact(before, grants[last], arrayRun, blockSize);
    }
  }

  lemma AppendedStaysZero(runs: seq<Run>, run: Run)
    requires ZeroTail(runs) && run.length > 0
    ensures ZeroTail(Appended(runs, run))
  {
    InUseIs(runs, InUse(runs));
  }

  lemma OneMoreIsCompact(a: Layout, run: Run, arrayRun: Run, blockSize: nat)
    requires WellFormed(a) && run.length > 0
    ensures WellFormed(Placed(a, run, arrayRun, blockSize))
  {
    hide Compact, ZeroTail, HasZero, Appended;
    if HasZero(a.direct) {
      AppendedStaysZero(a.direct, run);
      AppendedIsCompact(a.direct, run);
    } else {
      var table := if a.indirect == ZERO then EmptyTable(blockSize) else a.table;
      forall i | 0 <= i < |table| ensures ZeroTail(table[i]) && Compact(table[i]) {
        if a.indirect == ZERO {
          ZerosAreCompact(table[i]);
        }
      }
      var i := RoomIn(table);
      if i < |table| {
        AppendedStaysZero(table[i], run);
        AppendedIsCompact(table[i], run);
      }
    }
  }

  lemma ZerosAreCompact(runs: seq<Run>)
    requires AllZero(runs)
    ensures ZeroTail(runs) && Compact(runs)
  {
    InUseIs(runs, 0);
  }

  /** Puts a run into the first free place, or onto the run in front of it. */
  method AppendRun(runs: seq<Run>, run: Run) returns (placed: bool, runs': seq<Run>)
    requires ZeroTail(runs) && run.length > 0
    ensures placed <==> HasZero(runs)
    ensures !placed ==> runs' == runs
    ensures placed ==> |runs'| == |runs| && ZeroTail(runs') && Flat(runs') == Flat(runs) + BlocksOf(run)
                       && Total(runs') == Total(runs) + run.length
    ensures runs' == Appended(runs, run)
  {
    hide Flat, Total, BlocksOf;
    var free := 0;
    while free < |runs| && runs[free] != ZERO
      invariant free <= |runs| && forall i :: 0 <= i < free ==> runs[i] != ZERO
    {
      free := free + 1;
    }
    InUseIs(runs, free);
    if free == |runs| {
      return false, runs;
    }
    if free > 0 && MergeableWith(runs[free - 1], run) {
      MergeAppends(runs, free, run);
      return true, runs[free - 1 := Merged(runs[free - 1], run)];
    }
    PutAppends(runs, free, run);
    return true, runs[free := run];
  }

  datatype Status = Ok | NotFound | DeviceFull | NeedsDoubleIndirect

  class DataStream {
    const blockSize: nat
    var direct: seq<Run>
    var maxDirect: nat
    var indirect: Run             // where the indirect array is
    var table: seq<seq<Run>>      // and what its blocks hold
    var maxIndirect: nat
    var size: nat

    ghost predicate Valid()
      reads this
    {
      RangesOk() && size <= Capacity()
    }

    /** The direct and the indirect range. */
    ghost predicate RangesOk()
      reads `direct, `maxDirect, `indirect, `table, `maxIndirect
    {
      && blockSize >= RUN_SIZE
      && |direct| == NUM_DIRECT_BLOCKS && ZeroTail(direct) && maxDirect == ToBytes(blockSize, Total(direct))
      && IndirectOk()
    }

    /** The indirect range is there only when the direct one is used up. */
    ghost predicate IndirectOk()
      reads `direct, `indirect, `table, `maxIndirect
    {
      if indirect == ZERO then table == [] && maxIndirect == 0
      else
        && !HasZero(direct)
        && |table| == indirect.length && (forall i :: 0 <= i < |table| ==> |table[i]| == blockSize / RUN_SIZE)
        && TableOk(table) && TotalTable(table) > 0
        && maxIndirect == ToBytes(blockSize, Total(direct) + TotalTable(table))
    }

    function Capacity(): nat
      reads `indirect, `maxDirect, `maxIndirect
    {
      if indirect == ZERO then maxDirect else maxIndirect
    }

    /** The disk blocks of the stream, in order. */
    ghost function Contents(): seq<Block>
      reads `direct, `table
    {
      Flat(direct) + FlatTable(table)
    }

    function Ranges(): Layout
      reads `direct, `indirect, `table
    {
      Layout(direct, indirect, table)
    }

    lemma IndirectIs()
      ensures Ranges().indirect == indirect
    {
    }

    constructor (blockSize: nat)
      requires blockSize >= RUN_SIZE
      ensures Valid() && WellFormed(Ranges()) && Contents() == [] && size == 0 && this.blockSize == blockSize
    {
      this.blockSize := blockSize;
      direct, maxDirect, indirect, table, maxIndirect, size := seq(NUM_DIRECT_BLOCKS, i => ZERO), 0, ZERO, [], 0, 0;
      new;
      ZerosAreEmpty(direct);
      ZerosAreCompact(direct);
    }

    /** The runs of both ranges as one list. */
    ghost function RunList(): seq<Run>
      reads `direct, `table
    {
      direct + Join(table)
    }

    lemma ListIsContents()
      ensures Flat(RunList()) == Contents()
    {
      FlatJoin(direct, Join(table));
      JoinIsTable(table);
    }

    /** The run that holds a position of these two ranges, as the list has it, and the length of all before it. */
    method FindBlockRun(pos: nat) returns (status: Status, run: Run, offset: nat)
      requires RangesOk() && pos < Capacity()
      ensures status == Ok && FoundIn(RunList(), run, offset, blockSize, 0, pos)
      ensures RightBlock(run, offset, blockSize, pos, Contents())
    {
      hide Flat, FlatTable, Total, TotalTable, ToBytes, RightBlock, FoundIn;
      FlatSize(direct);
      StartOfStream(blockSize);
      if indirect != ZERO {
        FullIsSome(direct);
        Multiple(blockSize, Total(direct));
      }
      var found, end := false, 0;
      if maxDirect > 0 && pos >= maxDirect {
        status, run, offset := FindIndirect(pos);
      } else {
        found, run, offset, end := ScanRuns(direct, blockSize, pos, 0, 0);
        if found {
          FlatNothing();
          FoundWider([], direct, Join(table), run, offset, blockSize, pos);
          assert [] + direct + Join(table) == RunList();
        }
        status := if found then Ok else NotFound;
      }
      if FoundIn(RunList(), run, offset, blockSize, 0, pos) {
        FoundIsRight(RunList(), run, offset, blockSize, pos);
        ListIsContents();
      }
    }

    // ---- Growing ----

    lemma CapacityFacts()
      requires Valid()
      ensures size <= Capacity()
      ensures indirect == ZERO ==> Capacity() == maxDirect && maxIndirect == 0
      ensures indirect != ZERO ==> Capacity() == maxIndirect > maxDirect && !HasZero(direct)
    {
      if indirect != ZERO {
        Distribute(blockSize, Total(direct), TotalTable(table));
        Multiple(blockSize, TotalTable(table));
      }
    }

    method PutDirect(run: Run) returns (placed: bool)
      requires Valid() && run.length > 0 && (HasZero(direct) ==> indirect == ZERO)
      modifies this`direct, this`maxDirect
      ensures Valid() && (placed <==> old(HasZero(direct)))
      ensures !placed ==> direct == old(direct) && maxDirect == old(maxDirect)
      ensures placed ==> Contents() == old(Contents()) + BlocksOf(run)
                         && Capacity() == old(Capacity()) + ToBytes(blockSize, run.length) == maxDirect
      ensures direct == Appended(old(direct), run)
    {
      hide Flat, FlatTable, Total, TotalTable, BlocksOf, ToBytes, ZeroTail, HasZero;
      ghost var was := direct;
      placed, direct := AppendRun(direct, run);
      if placed {
        maxDirect := maxDirect + ToBytes(blockSize, run.length);
        Distribute(blockSize, Total(was), run.length);
        Monotone(blockSize, Total(was), Total(direct));
        TableNothing();
        NoTable(Flat(was), BlocksOf(run));
      }
    }

    method PutIndirect(run: Run, arrayRun: Run) returns (placed: bool)
      requires Valid() && run.length > 0 && !HasZero(direct) && arrayRun.length == NUM_ARRAY_BLOCKS
      modifies this`indirect, this`table, this`maxIndirect
      ensures Valid()
      ensures !placed ==> indirect == old(indirect) != ZERO && table == old(table) && maxIndirect == old(maxIndirect) && TableFull(table)
      ensures placed ==> Contents() == old(Contents()) + BlocksOf(run)
                         && Capacity() == old(Capacity()) + ToBytes(blockSize, run.length) == maxIndirect
      ensures placed ==> Ranges() == Placed(old(Ranges()), run, arrayRun, blockSize)
    {
      hide Flat, FlatTable, Total, TotalTable, BlocksOf, ToBytes, ZeroTail, HasZero, AllZero, TableOk, Appended;
      ghost var was := table;
      if indirect == ZERO {
        indirect := arrayRun;
        table := EmptyTable(blockSize);
        maxIndirect := maxDirect;
        FreshTable(table, blockSize);
      }
      TableNothing();
      ghost var ready, total := table, TotalTable(table);
      var i := 0;
      while i < |table| && !HasZero(table[i])
        invariant i <= |table| && forall j :: 0 <= j < i ==> !HasZero(table[j])
      {
        i := i + 1;
      }
      RoomIs(table, i);
      if i == |table| {
        return false;
      }
      TailOfBlock(table, i);
      var _, runs := AppendRun(table[i], run);
      TableAppends(table, i, runs, run);
      table := table[i := runs];
      maxIndirect := maxIndirect + ToBytes(blockSize, run.length);
      Distribute(blockSize, Total(direct) + total, run.length);
      Monotone(blockSize, Total(direct), Total(direct) + TotalTable(table));
      Grouped3(Flat(direct), FlatTable(ready), BlocksOf(run));
      return true;
    }

    /** A new run goes to the direct range while that has room, then to the indirect one. */
    method PlaceRun(run: Run, arrayRun: Run, more: bool, newSize: nat) returns (placed: bool)
      requires Valid() && run.length > 0 && arrayRun.length == NUM_ARRAY_BLOCKS
      requires !more ==> newSize <= Capacity() + ToBytes(blockSize, run.length)
      modifies this
      ensures Valid()
      ensures !placed ==> Contents() == old(Contents()) && Capacity() == old(Capacity())
                          && indirect != ZERO && TableFull(table) && Ranges() == old(Ranges())
      ensures placed ==> Ranges() == Placed(old(Ranges()), run, arrayRun, blockSize)
      ensures placed ==> Contents() == old(Contents()) + BlocksOf(run)
                         && Capacity() == old(Capacity()) + ToBytes(blockSize, run.length)
                         && size == if more then Capacity() else newSize
    {
      hide Flat, FlatTable, Total, TotalTable, BlocksOf, ToBytes, ZeroTail, HasZero, AllZero, TableOk, IndirectOk, TableFull, Appended;
      placed := false;
      CapacityFacts();
      if size <= maxDirect {
        placed := PutDirect(run);
        if placed {
          size := if more then maxDirect else newSize;
          return;
        }
      }
      CapacityFacts();
      NoRoomLeft();
      if size <= maxIndirect || maxIndirect == 0 {
        placed := PutIndirect(run, arrayRun);
        if placed {
          size := if more then maxIndirect else newSize;
        }
      }
    }

    lemma PositiveBlocks()
      requires Valid()
      ensures blockSize > 0
    {
    }

    /** The blocks needed for so many bytes. */
    method BlocksFor(bytes: nat, ghost granted: nat, ghost free: nat) returns (blocks: nat)
      requires Valid() && bytes <= ToBytes(blockSize, granted)
      ensures bytes <= ToBytes(blockSize, blocks) && blocks <= granted
      ensures blocks > 0 ==> ToBytes(blockSize, blocks - 1) < bytes
      ensures blocks > free ==> bytes > ToBytes(blockSize, free)
    {
      RoundsUp(blockSize, bytes, granted, free);
      blocks := (bytes + blockSize - 1) / blockSize;
    }

    method SetSize(newSize: nat)
      requires Valid() && newSize <= Capacity()
      modifies this`size
      ensures Valid() && size == newSize && Ranges() == old(Ranges())
    {
      size := newSize;
    }

    lemma NoRoomLeft()
      requires Valid()
      ensures size > maxDirect ==> !HasZero(direct)
    {
    }

    /** Makes the stream `newSize` bytes long.  `grants` are the runs that the allocator hands out, one
        after the other; `arrayRun` is for the indirect array, should it be needed. */
    method Grow(newSize: nat, grants: seq<Run>, arrayRun: Run, freeBlocks: nat) returns (status: Status, used: nat)
      requires Valid() && arrayRun.length == NUM_ARRAY_BLOCKS && Live(grants)
      requires newSize <= Capacity() + ToBytes(blockSize, Total(grants))
      modifies this
      ensures Valid() && used <= |grants| && Contents() == old(Contents()) + Flat(grants[..used])
      ensures Capacity() == old(Capacity()) + ToBytes(blockSize, Total(grants[..used]))
      ensures status == Ok || status == DeviceFull || status == NeedsDoubleIndirect
      ensures status == Ok ==> size == newSize
      ensures status == Ok && used > 0 ==> Capacity() - ToBytes(blockSize, grants[used - 1].length) < newSize
      ensures status == DeviceFull ==> used == 0 && size == old(size)
                                       && newSize > Capacity() + ToBytes(blockSize, freeBlocks)
      ensures status == NeedsDoubleIndirect ==> Capacity() < newSize && indirect != ZERO && TableFull(table)
      ensures Ranges() == PlacedAll(old(Ranges()), grants[..used], arrayRun, blockSize)
      ensures indirect == old(indirect) || (old(indirect) == ZERO && indirect == arrayRun)
      ensures old(WellFormed(Ranges())) ==> WellFormed(Ranges())
    {
      hide *;
      used := 0;
      NothingGranted(grants, Contents(), blockSize);
      NothingPlaced(Ranges(), grants, arrayRun, blockSize);
      IndirectIs();
      CapacityFacts();
      PositiveBlocks();
      if newSize < maxDirect || newSize < maxIndirect {
        SetSize(newSize);
        return Ok, 0;
      }
      var bytes: nat := if size < maxIndirect then newSize - maxIndirect
                        else if size < maxDirect then newSize - maxDirect else newSize - size;
      var requested := BlocksFor(bytes, Total(grants), freeBlocks);
      if requested > freeBlocks {
        return DeviceFull, 0;
      }
      var needed: int := requested;
      ghost var start, was, arrays := Capacity(), Contents(), Ranges();
      ghost var taken: seq<Run>, rest := [], grants;
      CatStart(grants);
      while needed > 0
        invariant Valid() && used == |taken| <= |grants| && Cat(grants, taken, rest) && needed == requested - Total(taken)
        invariant Capacity() == start + ToBytes(blockSize, Total(taken)) && Contents() == was + Flat(taken)
        invariant Ranges() == PlacedAll(arrays, taken, arrayRun, blockSize)
        invariant needed <= 0 ==> newSize <= Capacity()
        invariant used > 0 ==> Capacity() - ToBytes(blockSize, grants[used - 1].length) < newSize
        decreases needed
      {
        EnoughLeft(grants, taken, rest, requested);
        var run := grants[used];
        ghost var tail, more := CatNext(grants, taken, rest);
        NextGrant(taken, run, more, was, blockSize);
        PlacedNext(arrays, taken, run, more, arrayRun, blockSize);
        SizeReached(blockSize, start, newSize, requested, Total(taken), run.length);
        Distribute(blockSize, Total(taken), run.length);
        needed := needed - run.length;
        var placed := PlaceRun(run, arrayRun, needed > 0, newSize);
        if !placed {
          CatEnd(grants, taken, rest);
          GrownArrays(arrays, grants, taken, arrayRun, blockSize);
          IndirectIs();
          return NeedsDoubleIndirect, used;
        }
        used := used + 1;
        taken, rest := more, tail;
      }
      CatEnd(grants, taken, rest);
      GrownArrays(arrays, grants, taken, arrayRun, blockSize);
      IndirectIs();
      SetSize(newSize);
      return Ok, used;
    }

    // ---- Shrinking ----

    lemma IndirectFacts()
      requires Valid() && indirect != ZERO
      ensures blockSize > 0 && TableOk(table) && |table| == indirect.length && maxDirect == ToBytes(blockSize, Total(direct))
      ensures forall i :: 0 <= i < |table| ==> |table[i]| == blockSize / RUN_SIZE
      ensures maxIndirect == ToBytes(blockSize, Total(direct) + TotalTable(table))
    {
    }

    /** Cuts the indirect array, block by block. */
    method ShrinkIndirect(newSize: nat) returns (freed: seq<Run>)
      requires Valid() && indirect != ZERO && maxIndirect > newSize
      modifies this`table, this`maxIndirect
      ensures |table| == old(|table|) && TableOk(table) && (forall i :: 0 <= i < |table| ==> |table[i]| == blockSize / RUN_SIZE)
      ensures Trimmed(old(Join(table)), Join(table), freed, blockSize, Total(direct), newSize)
      ensures maxIndirect == ToBytes(blockSize, Total(direct) + TotalTable(table))
    {
      hide *;
      freed := [];
      var offset := maxDirect;
      ghost var table0, max0, at := table, maxIndirect, Total(direct);
      ghost var done: seq<seq<Run>>, kept: seq<seq<Run>>, rest := [], [], table;
      IndirectFacts();
      JoinNothing();
      FlatNothing();
      CatStart(table);
      NothingTrimmed(blockSize, at, newSize);
      JoinIsTable(table0);
      MaxOfNothing(blockSize, at, max0);
      NothingKept(table0, blockSize, at, newSize);
      var i := 0;
      while i < indirect.length
        invariant i == |done| == |kept| <= |table0| == |table| && Cat(table0, done, rest) && Cat(table, kept, rest)
        invariant offset == ToBytes(blockSize, at + Total(Join(done)))
        invariant Trimmed(Join(done), Join(kept), freed, blockSize, at, newSize)
        invariant maxIndirect == MaxAfter(Join(kept), freed, blockSize, at, max0)
        invariant KeptOk(kept, rest, blockSize, at + Total(Join(done)), newSize)
        invariant forall k :: 0 <= k < i ==> |kept[k]| == |table0[k]|
      {
        ghost var tail, done1 := CatNext(table0, done, rest);
        ghost var here, runs0 := at + Total(Join(done)), table0[i];
        MaxCovers(table0, done, runs0, tail, blockSize, at, Join(kept), freed, newSize, max0, rest);
        BlockTail(table0, i);
        ghost var _ := CatPut(table, kept, rest, runs0, tail, runs0);
        var runs, end, max, off := FreeStreamArray(table[i], blockSize, newSize, offset, maxIndirect, here);
        ghost var kept1 := CatPut(table, kept, rest, runs0, tail, runs);
        IsCat(freed, off);
        KeptCat(table0, done, rest, kept, runs0, runs, off, tail, kept1, blockSize, here, newSize);
        BlockCut(done, kept, runs0, runs, freed, off, done1, kept1, freed + off, blockSize, at, here, newSize, max0);
        table, maxIndirect, offset, freed := table[i := runs], max, end, freed + off;
        done, kept, rest := done1, kept1, tail;
        i := i + 1;
      }
      CatEnd(table0, done, rest);
      CatEnd(table, kept, rest);
      KeptIsOk(kept, rest, blockSize, at + Total(Join(done)), newSize);
      JoinIsTable(table);
      MaxAtEnd(Join(table0), Join(table), freed, blockSize, at, newSize);
    }

    /** The indirect range goes first, with its array if nothing of it is left. */
    method CutIndirect(newSize: nat) returns (freed: seq<Run>, freedArray: Run)
      requires Valid() && newSize <= Capacity()
      modifies this`indirect, this`table, this`maxIndirect, this`size
      ensures Valid() && size <= old(size) && newSize <= Capacity()
      ensures old(Contents()) == Contents() + Flat(freed)
      ensures freedArray == if old(indirect) != ZERO && newSize <= old(maxDirect) then old(indirect) else ZERO
      ensures indirect == if newSize <= old(maxDirect) then ZERO else old(indirect)
      ensures maxDirect <= newSize < old(maxIndirect) ==>
                Capacity() == ToBytes(blockSize, EndOf(old(Join(table)), blockSize, Total(direct), newSize))
                && (Capacity() == newSize || Capacity() == ToBytes(blockSize, newSize / blockSize + 1))
      ensures newSize == old(Capacity()) ==> Capacity() == newSize
    {
      hide Flat, FlatTable, Total, TotalTable, ToBytes, HasZero, AllZero, ZeroTail, Trimmed, EndOf, Join, TableOk, MaxAfter;
      freed, freedArray := [], ZERO;
      FlatNothing();
      CapacityFacts();
      TableNothing();
      NothingFreed(Contents());
      if maxIndirect > newSize {
        ghost var table0, d := table, Total(direct);
        freed := ShrinkIndirect(newSize);
        JoinIsTable(table0);
        JoinIsTable(table);
        IndirectCut(Join(table0), Join(table), freed, blockSize, d, newSize);
        Regroup(Flat(direct), FlatTable(table), Flat(freed));
        if maxDirect == maxIndirect {
          freedArray := indirect;
          indirect, table, maxIndirect := ZERO, [], 0;
        }
        size := if newSize < size then newSize else size;
      }
    }

    /** Then the direct one. */
    method CutDirect(newSize: nat) returns (freed: seq<Run>)
      requires Valid() && newSize <= Capacity() && (newSize < maxDirect ==> indirect == ZERO)
      modifies this`direct, this`maxDirect, this`size
      ensures Valid() && size == newSize
      ensures old(Contents()) == Contents() + Flat(freed)
      ensures newSize >= old(maxDirect) ==> Capacity() == old(Capacity()) && freed == []
      ensures newSize < old(maxDirect) ==> Capacity() == ToBytes(blockSize, EndOf(old(direct), blockSize, 0, newSize))
                                           && (Capacity() == newSize || Capacity() == ToBytes(blockSize, newSize / blockSize + 1))
    {
      hide Flat, FlatTable, Total, TotalTable, ToBytes, HasZero, AllZero, ZeroTail, Trimmed, EndOf, Join, TableOk, MaxAfter;
      freed := [];
      FlatNothing();
      TableNothing();
      NothingFreed(Contents());
      if maxDirect > newSize {
        StartOfStream(blockSize);
        ghost var direct0 := direct;
        var runs, _, max, off := FreeStreamArray(direct, blockSize, newSize, 0, maxDirect, 0);
        TrimmedIs(direct0, runs, off, blockSize, 0, newSize);
        MaxAtEnd(direct0, runs, off, blockSize, 0, newSize);
        CutEnds(direct0, blockSize, 0, newSize);
        NothingBehind(Flat(runs), Flat(off));
        direct, maxDirect, freed := runs, max, off;
      }
      size := newSize;
    }

    /** Cuts the stream to `newSize` bytes and frees what is behind. */
    method Shrink(newSize: nat) returns (freedDirect: seq<Run>, freedIndirect: seq<Run>, freedArray: Run)
      requires Valid() && newSize <= Capacity()
      modifies this
      ensures Valid() && size == newSize
      ensures old(Contents()) == Contents() + Flat(freedDirect) + Flat(freedIndirect)
      ensures freedArray == if old(indirect) != ZERO && newSize <= old(maxDirect) then old(indirect) else ZERO
      ensures indirect == if newSize <= old(maxDirect) then ZERO else old(indirect)
      ensures newSize < old(maxDirect) ==> Capacity() == ToBytes(blockSize, EndOf(old(direct), blockSize, 0, newSize))
      ensures old(maxDirect) <= newSize < old(maxIndirect) ==>
                Capacity() == ToBytes(blockSize, EndOf(old(Join(table)), blockSize, Total(old(direct)), newSize))
      ensures newSize == old(Capacity()) ==> Capacity() == newSize
      ensures newSize <= Capacity() && (Capacity() == newSize || Capacity() == ToBytes(blockSize, newSize / blockSize + 1))
    {
      hide *;
      CapacityFacts();
      freedIndirect, freedArray := CutIndirect(newSize);
      CapacityFacts();
      freedDirect := CutDirect(newSize);
      CapacityFacts();
    }

    method FindIndirect(pos: nat) returns (status: Status, run: Run, offset: nat)
      requires RangesOk() && maxDirect <= pos < Capacity()
      ensures status == Ok && FoundIn(RunList(), run, offset, blockSize, 0, pos)
    {
      hide Flat, FlatTable, Total, TotalTable, ToBytes, FoundIn, HasZero, AllZero, ZeroTail;
      FlatSize(direct);
      var runBlockEnd := maxDirect;
      ghost var at := Total(direct);
      ghost var done: seq<seq<Run>>, rest := [], table;
      TableNothing();
      var i := 0;
      while i < indirect.length
        invariant i == |done| <= |table| && table == done + rest && at == Total(direct) + TotalTable(done)
        invariant runBlockEnd == ToBytes(blockSize, at) <= pos
      {
        var found, r, o, end := ScanRuns(table[i], blockSize, pos, runBlockEnd, at);
        ghost var tail := FirstBlock(done, rest, table);
        if found {
          FoundInTable(direct, done, table[i], tail, r, o, blockSize, pos);
          return Ok, r, o;
        }
        TableAround(done, table[i], []);
        TableNothing();
        NextBlock(done, table[i], tail);
        runBlockEnd := end;
        at := at + Total(table[i]);
        done, rest := done + [table[i]], tail;
        i := i + 1;
      }
      NoRest(done, rest);
      assert false;  // or the source reports an error
    }
  }

  lemma StartOfStream(blockSize: nat)
    ensures ToBytes(blockSize, 0) == 0
  {
  }

  lemma TableNothing()
    ensures FlatTable([]) == [] && TotalTable([]) == 0
  {
  }

  /** Every place of the indirect array is taken. */
  predicate TableFull(table: seq<seq<Run>>) {
    forall i :: 0 <= i < |table| ==> !HasZero(table[i])
  }

  lemma NothingFreed(a: seq<Block>)
    ensures a == a + Flat([])
  {
  }

  lemma NothingBehind(a: seq<Block>, b: seq<Block>)
    ensures a + b + [] == a + [] + b
  {
  }

  /** A cut leaves no more than what is needed, or one block more. */
  lemma CutEnds(runs: seq<Run>, blockSize: nat, at: nat, size: nat)
    requires blockSize > 0 && ToBytes(blockSize, at) <= size < ToBytes(blockSize, at + Total(runs))
    ensures var end := EndOf(runs, blockSize, at, size);
            && size <= ToBytes(blockSize, end) && end <= at + Total(runs)
            && (ToBytes(blockSize, end) == size || end == size / blockSize + 1)
            && (end == at <==> size == ToBytes(blockSize, at)) && end >= at
  {
    hide Total, IsBoundary;
    var q := size / blockSize;
    InBlocks(blockSize, at, size);
    InBlocks(blockSize, at + Total(runs), size);
    InBlocks(blockSize, q + 1, size);
    InBlocks(blockSize, q, size);
    assert size == ToBytes(blockSize, q) + size % blockSize;
  }

  /** What is left of the indirect range. */
  lemma IndirectCut(runs0: seq<Run>, runs: seq<Run>, freed: seq<Run>, blockSize: nat, at: nat, size: nat)
    requires blockSize > 0 && Trimmed(runs0, runs, freed, blockSize, at, size) && size < ToBytes(blockSize, at + Total(runs0))
    ensures Flat(runs0) == Flat(runs) + Flat(freed)
    ensures size <= ToBytes(blockSize, at) <==> Total(runs) == 0
    ensures size <= ToBytes(blockSize, at) ==> Flat(runs) == [] && ToBytes(blockSize, at + Total(runs)) == ToBytes(blockSize, at)
    ensures size > ToBytes(blockSize, at) ==> ToBytes(blockSize, at + Total(runs)) > ToBytes(blockSize, at)
    ensures ToBytes(blockSize, at) <= size ==>
              at + Total(runs) == EndOf(runs0, blockSize, at, size) && size <= ToBytes(blockSize, at + Total(runs))
              && (ToBytes(blockSize, at + Total(runs)) == size || at + Total(runs) == size / blockSize + 1)
  {
    hide Flat, Total, EndOf, ToBytes, ZeroTail;
    TrimmedIs(runs0, runs, freed, blockSize, at, size);
    if size <= ToBytes(blockSize, at) {
      ZerosAreEmpty(runs);
    }
    if ToBytes(blockSize, at) <= size {
      CutEnds(runs0, blockSize, at, size);
    }
    if size > ToBytes(blockSize, at) {
      Multiple(blockSize, Total(runs));
      Distribute(blockSize, at, Total(runs));
    }
  }

  lemma NoTable(a: seq<Block>, b: seq<Block>)
    ensures a + b + [] == a + [] + b
  {
  }

  lemma Grouped3(a: seq<Block>, b: seq<Block>, c: seq<Block>)
    ensures a + (b + c) == a + b + c
  {
  }

  lemma FreshTable(table: seq<seq<Run>>, blockSize: nat)
    requires blockSize >= RUN_SIZE
    requires table == seq(NUM_ARRAY_BLOCKS, i => seq(blockSize / RUN_SIZE, j => ZERO))
    ensures TableOk(table) && FlatTable(table) == [] && TotalTable(table) == 0 && HasZero(table[0])
  {
    forall i | 0 <= i < |table| ensures AllZero(table[i]) {
    }
    ZeroTable(table);
    assert table[0][0] == ZERO;
  }

  lemma TailOfBlock(table: seq<seq<Run>>, i: nat)
    requires TableOk(table) && i < |table|
    ensures ZeroTail(table[i])
  {
  }

  /** How many blocks are asked for. */
  lemma RoundsUp(blockSize: nat, bytes: nat, granted: nat, free: nat)
    requires blockSize > 0 && bytes <= ToBytes(blockSize, granted)
    ensures var requested := (bytes + blockSize - 1) / blockSize;
            && bytes <= ToBytes(blockSize, requested) && requested <= granted
            && (requested > 0 ==> ToBytes(blockSize, requested - 1) < bytes)
            && (requested > free ==> bytes > ToBytes(blockSize, free))
  {
    var n := (bytes + blockSize - 1) / blockSize;
    var r := (bytes + blockSize - 1) % blockSize;
    assert bytes + blockSize - 1 == ToBytes(blockSize, n) + r;
    if n > 0 {
      Distribute(blockSize, n - 1, 1);
      if n > granted {
        Monotone(blockSize, granted, n - 1);
      }
      if n > free {
        Monotone(blockSize, free, n - 1);
      }
    }
  }

  lemma NothingGranted(grants: seq<Run>, was: seq<Block>, blockSize: nat)
    ensures Total([]) == 0 && Total(grants[..0]) == 0 && was == was + Flat(grants[..0]) && was == was + Flat([])
    ensures ToBytes(blockSize, 0) == 0
  {
    assert grants[..0] == [];
  }

  lemma EnoughLeft(grants: seq<Run>, taken: seq<Run>, rest: seq<Run>, requested: nat)
    requires Cat(grants, taken, rest) && Live(grants) && Total(taken) < requested <= Total(grants)
    ensures |taken| < |grants| && grants[|taken|].length > 0
  {
    assert rest == [] ==> grants == taken;
  }

  lemma NextGrant(taken: seq<Run>, run: Run, more: seq<Run>, was: seq<Block>, blockSize: nat)
    requires Cat(more, taken, [run])
    ensures Total(more) == Total(taken) + run.length
    ensures was + Flat(taken) + BlocksOf(run) == was + Flat(more)
    ensures ToBytes(blockSize, Total(more)) == ToBytes(blockSize, Total(taken)) + ToBytes(blockSize, run.length)
  {
    hide Flat, Total, BlocksOf, ToBytes;
    FlatJoin(taken, [run]);
    FlatOfOne(run);
    Distribute(blockSize, Total(taken), run.length);
    Regroup(was, Flat(taken), BlocksOf(run));
  }

  /** The loop goes on just as long as the stream is too short. */
  lemma SizeReached(blockSize: nat, start: nat, newSize: nat, requested: nat, granted: nat, more: nat)
    requires newSize >= start && newSize - start <= ToBytes(blockSize, requested)
    requires requested > 0 ==> ToBytes(blockSize, requested - 1) < newSize - start
    ensures granted < requested ==> start + ToBytes(blockSize, granted) < newSize
    ensures granted + more >= requested ==> start + ToBytes(blockSize, granted + more) >= newSize
  {
    if granted < requested {
      Monotone(blockSize, granted, requested - 1);
    }
    if granted + more >= requested {
      Monotone(blockSize, requested, granted + more);
    }
  }

  lemma NoRest(done: seq<seq<Run>>, rest: seq<seq<Run>>)
    ensures |done| == |done + rest| ==> done + rest == done
  {
  }

  lemma FullIsSome(runs: seq<Run>)
    requires runs != [] && ZeroTail(runs) && !HasZero(runs)
    ensures Total(runs) > 0
  {
    assert runs[0] != ZERO;
  }

  lemma FirstBlock(done: seq<seq<Run>>, rest: seq<seq<Run>>, table: seq<seq<Run>>) returns (tail: seq<seq<Run>>)
    requires rest != [] && table == done + rest
    ensures rest == [table[|done|]] + tail
  {
    tail := rest[1..];
  }

  lemma NextBlock(done: seq<seq<Run>>, runs: seq<Run>, tail: seq<seq<Run>>)
    ensures done + ([runs] + tail) == done + [runs] + tail && done + [runs] + [] == done + [runs]
  {
  }

  lemma FoundInTable(direct: seq<Run>, done: seq<seq<Run>>, runs: seq<Run>, tail: seq<seq<Run>>, run: Run, offset: nat,
                     blockSize: nat, pos: nat)
    requires FoundIn(runs, run, offset, blockSize, Total(direct) + TotalTable(done), pos)
    ensures FoundIn(direct + Join(done + ([runs] + tail)), run, offset, blockSize, 0, pos)
  {
    hide Total, TotalTable, FoundIn, Join, Flat, FlatTable;
    FlatJoin(direct, Join(done));
    JoinIsTable(done);
    FoundWider(direct + Join(done), runs, Join(tail), run, offset, blockSize, pos);
    JoinAround(done, runs, tail);
    Grouped(direct, Join(done), runs, Join(tail));
  }

  lemma Grouped<T>(a: seq<T>, b: seq<T>, c: seq<T>, d: seq<T>)
    ensures a + b + c + d == a + (b + c + d)
  {
  }

  lemma {:induction false} JoinAround(done: seq<seq<Run>>, runs: seq<Run>, tail: seq<seq<Run>>)
    ensures Join(done + ([runs] + tail)) == Join(done) + runs + Join(tail)
  {
    if done == [] {
      assert done + ([runs] + tail) == [runs] + tail;
    } else {
      assert (done + ([runs] + tail))[1..] == done[1..] + ([runs] + tail);
      JoinAround(done[1..], runs, tail);
    }
  }
}
