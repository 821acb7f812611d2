/** Checking the block bitmap against the block runs of all files (BlockAllocator.cpp: StartChecking,
    CheckBlockRun, StopChecking). */
module BitmapCheck {
  import opened BitmapWords
  import opened AllocationGroups
  import opened RunSearch
  import opened BlockAllocators
  import opened AllocationRuns

  /** How many blocks from `a` to `b` are set in `r` but not in `d`. */
  function CountBut(r: seq<Word>, d: seq<Word>, a: nat, b: nat): (count: nat)
    requires a <= b <= 32 * |r| && b <= 32 * |d|
    decreases b
  {
    if a == b then 0 else CountBut(r, d, a, b - 1) + if Used(r, b - 1) && !Used(d, b - 1) then 1 else 0
  }

  lemma {:induction false} ButJoin(r: seq<Word>, d: seq<Word>, a: nat, b: nat, c: nat)
    requires a <= b <= c <= 32 * |r| && c <= 32 * |d|
    ensures CountBut(r, d, a, c) == CountBut(r, d, a, b) + CountBut(r, d, b, c)
    decreases c
  {
    if b < c {
      ButJoin(r, d, a, b, c - 1);
    }
  }

  lemma {:induction false} ButSame(q: seq<Word>, r: seq<Word>, d: seq<Word>, a: nat, b: nat)
    requires |q| == |r| && a <= b <= 32 * |r| && b <= 32 * |d|
    requires forall n :: a <= n < b ==> Used(q, n) == Used(r, n)
    ensures CountBut(q, d, a, b) == CountBut(r, d, a, b)
    decreases b
  {
    if a < b {
      ButSame(q, r, d, a, b - 1);
    }
  }

  /** What is in `d` and what is in `r` differ in number as the two differences do. */
  lemma {:induction false} ButBalance(r: seq<Word>, d: seq<Word>, a: nat, b: nat)
    requires a <= b <= 32 * |r| && b <= 32 * |d|
    ensures CountUsed(r, a, b) - CountBut(r, d, a, b) == CountUsed(d, a, b) - CountBut(d, r, a, b)
    ensures CountBut(r, d, a, b) <= CountUsed(r, a, b)
    decreases b
  {
    if a < b {
      ButBalance(r, d, a, b - 1);
    }
  }

  lemma {:induction false} ButAll(r: seq<Word>, d: seq<Word>, a: nat, b: nat)
    requires a <= b <= 32 * |r| && b <= 32 * |d| && AllAre(r, a, b, true)
    ensures CountBut(r, d, a, b) == b - a - CountUsed(d, a, b)
    decreases b
  {
    if a < b {
      ButAll(r, d, a, b - 1);
    }
  }

  lemma {:induction false} ButNone(r: seq<Word>, d: seq<Word>, a: nat, b: nat)
    requires a <= b <= 32 * |r| && b <= 32 * |d|
    ensures CountBut(r, d, a, b) == 0 <==> forall n :: a <= n < b && Used(r, n) ==> Used(d, n)
    decreases b
  {
    if a < b {
      ButNone(r, d, a, b - 1);
      if CountBut(r, d, a, b) == 0 {
        forall n | a <= n < b && Used(r, n) ensures Used(d, n) {
          assert n < b - 1 || n == b - 1;
        }
      }
    }
  }

  /** Setting a run: of its absent blocks, those that had been set before are not new. */
  lemma ButMarked(r: seq<Word>, s: seq<Word>, d: seq<Word>, from: nat, to: nat, b: nat)
    requires Marked(r, s, from, to, true) && from <= to <= b <= 32 * |r| && b <= 32 * |d|
    ensures CountBut(s, d, 0, b) == CountBut(r, d, 0, b) + (to - from - CountUsed(d, from, to)) - CountBut(r, d, from, to)
  {
    hide Used;
    ButJoin(r, d, 0, from, b); ButJoin(r, d, from, to, b);
    ButJoin(s, d, 0, from, b); ButJoin(s, d, from, to, b);
    ButSame(r, s, d, 0, from);
    ButSame(r, s, d, to, b);
    ButAll(s, d, from, to);
  }

  class BitmapChecker {
    const allocator: BlockAllocator
    const checkBitmap: array<Word>
    var missing: nat
    var alreadySet: nat
    var missingBlocks: bool
    var blocksAlreadySet: bool
    var invalidBlockRun: bool
    /** How many absent blocks have been counted as missing though they were set already. */
    ghost var recounted: nat
    /** How many reserved blocks the bitmap does not have. */
    ghost var unreserved: nat

    ghost predicate Ready() {
      && allocator.InShape()
      && checkBitmap != allocator.bitmap && checkBitmap.Length == allocator.bitmap.Length
    }

    function N(): nat { allocator.geometry.numBlocks }

    /** `missing` counts the blocks of the check bitmap that the disk's bitmap lacks, but for the reserved
        ones, and blocks met again anew each time. */
    ghost predicate Counted()
      requires Ready()
      reads this, checkBitmap, allocator.bitmap
    {
      && missing == CountBut(checkBitmap[..], allocator.bitmap[..], 0, N()) - unreserved + recounted
      && recounted <= alreadySet
      && (blocksAlreadySet <==> alreadySet > 0) && (missingBlocks <==> missing > 0)
    }

    constructor (allocator: BlockAllocator)
      ensures this.allocator == allocator && fresh(checkBitmap) && checkBitmap.Length == allocator.bitmap.Length
    {
      this.allocator := allocator;
      checkBitmap := new Word[allocator.bitmap.Length](i => NO_BITS);
      missing, alreadySet, missingBlocks, blocksAlreadySet, invalidBlockRun := 0, 0, false, false, false;
      recounted, unreserved := 0, 0;
    }

    method SetCheckBitmapAt(block: nat)
      requires block < 32 * checkBitmap.Length
      modifies checkBitmap
      ensures Marked(old(checkBitmap[..]), checkBitmap[..], block, block + 1, true)
    {
      ghost var was := checkBitmap[..];
      checkBitmap[block / 32] := Or(checkBitmap[block / 32], OneBit(block % 32));
      forall n | 0 <= n < 32 * |was|
        ensures Used(checkBitmap[..], n) == if block <= n < block + 1 then true else Used(was, n)
      {
        if n / 32 == block / 32 {
          assert checkBitmap[block / 32][n % 32] == (was[block / 32][n % 32] || n % 32 == block % 32);
        }
      }
    }

    /** Clears the check bitmap and puts the reserved area in. */
    method StartChecking()
      requires Ready()
      modifies this, checkBitmap
      ensures Counted() && missing == alreadySet == recounted == 0 && !invalidBlockRun
      ensures allocator.geometry.reserved <= 32 * allocator.bitmap.Length
      ensures unreserved == allocator.geometry.reserved - CountUsed(allocator.bitmap[..], 0, allocator.geometry.reserved)
      ensures IsReserved(checkBitmap[..])
    {
      hide Shaped, Marked, Used, AllAre;
      missing, alreadySet, missingBlocks, blocksAlreadySet, invalidBlockRun := 0, 0, false, false, false;
      for k := 0 to checkBitmap.Length
        modifies checkBitmap
        invariant forall i :: 0 <= i < k ==> checkBitmap[i] == NO_BITS
      {
        checkBitmap[k] := NO_BITS;
      }
      ghost var clear, reserved := checkBitmap[..], allocator.geometry.reserved;
      allocator.AllClear(clear);
      allocator.ReservedInside();
      allocator.GroupFits(0);
      allocator.Inhabited();
      allocator.BehindIsFirst(0);
      var block := allocator.geometry.reserved;
      NothingMarked(clear, reserved, true);
      while block > 0
        modifies checkBitmap
        invariant 0 <= block <= reserved && Marked(clear, checkBitmap[..], block, reserved, true)
      {
        block := block - 1;
        ghost var before := checkBitmap[..];
        SetCheckBitmapAt(block);
        MarkedBackwards(clear, before, checkBitmap[..], block, reserved);
      }
      recounted := 0;
      unreserved := CountBut(checkBitmap[..], allocator.bitmap[..], 0, N());
      ReservedSet(clear, checkBitmap[..], allocator.bitmap[..]);
    }

    lemma MarkedBackwards(a: seq<Word>, b: seq<Word>, c: seq<Word>, block: nat, to: nat)
      requires block < to && Marked(a, b, block + 1, to, true) && Marked(b, c, block, block + 1, true)
      ensures Marked(a, c, block, to, true)
    {
      hide Used;
      forall n | 0 <= n < 32 * |a| ensures Used(c, n) == if block <= n < to then true else Used(a, n) {
        assert Used(b, n) == if block + 1 <= n < to then true else Used(a, n);
      }
    }

    lemma ReservedSet(clear: seq<Word>, now: seq<Word>, d: seq<Word>)
      requires allocator.geometry.reserved <= N() <= 32 * |d| && |d| == |clear|
      requires Marked(clear, now, 0, allocator.geometry.reserved, true)
      requires forall n :: 0 <= n < 32 * |clear| ==> !Used(clear, n)
      ensures (CountBut(now, d, 0, N()) ==
               allocator.geometry.reserved - CountUsed(d, 0, allocator.geometry.reserved))
      ensures IsReserved(now)
    {
      hide Used;
      ButMarked(clear, now, d, 0, allocator.geometry.reserved, N());
      ButNone(clear, d, 0, N());
      ButNone(clear, d, 0, allocator.geometry.reserved);
    }

    ghost predicate IsReserved(words: seq<Word>) {
      forall n :: 0 <= n < 32 * |words| ==> (Used(words, n) <==> n < allocator.geometry.reserved)
    }

    /** Puts a run into the check bitmap and counts its blocks that are missing on disk or set already. */
    method CheckBlockRun(run: BlockRun)
      requires Ready() && Counted()
      modifies this, checkBitmap
      ensures Counted() && unreserved == old(unreserved)
      ensures invalidBlockRun <==> old(invalidBlockRun) || !allocator.Inside(run)
      ensures (!allocator.Inside(run) ==> checkBitmap[..] == old(checkBitmap[..]) && missing == old(missing)
                                          && alreadySet == old(alreadySet))
      ensures allocator.Inside(run) ==> RunChecked(old(checkBitmap[..]), old(missing), old(alreadySet), run)
    {
      hide Times, Used, Shaped, BlockBits, Marked;
      if (run.group >= |allocator.groups| || run.start > allocator.groups[run.group].numBits
          || run.start + run.length > allocator.groups[run.group].numBits || run.length == 0) {
        invalidBlockRun := true;
        return;
      }
      allocator.GroupFits(run.group);
      ghost var was, d := checkBitmap[..], allocator.bitmap[..];
      ghost var from: nat := First(allocator.groups, run.group) + run.start;
      ghost var to := from + run.length;
      Walk(run);
      recounted := recounted + CountBut(was, d, from, to);
      ButMarked(was, checkBitmap[..], d, from, to, N());
      ButBalance(was, d, from, to);
    }

    /** The loop over the blocks of a run, bitmap block by bitmap block. */
    method Walk(run: BlockRun)
      requires Ready() && allocator.Inside(run)
      requires (blocksAlreadySet <==> alreadySet > 0) && (missingBlocks <==> missing > 0)
      modifies checkBitmap, `missing, `missingBlocks, `alreadySet, `blocksAlreadySet
      ensures RunChecked(old(checkBitmap[..]), old(missing), old(alreadySet), run)
      ensures (blocksAlreadySet <==> alreadySet > 0) && (missingBlocks <==> missing > 0)
    {
      hide Times, Used, Shaped, BlockBits, Marked, Progress;
      var group, bitsPerBlock := allocator.groups[run.group], allocator.geometry.BitsPerBlock();
      allocator.GroupFits(run.group);
      ghost var was, d, oldMissing, oldSet := checkBitmap[..], allocator.bitmap[..], missing, alreadySet;
      ghost var from: nat := First(allocator.groups, run.group) + run.start;
      var firstGroupBlock := 32 * group.baseWord;
      Divided(run.start, bitsPerBlock);
      NoProgress(from);
      var block: nat, pos: nat, length: nat := run.start / bitsPerBlock, run.start % bitsPerBlock, 0;
      while block < allocator.geometry.blocksPerGroup && length < run.length
        invariant length <= run.length
        invariant length < run.length ==> Times(block, bitsPerBlock) + pos == run.start + length && pos < bitsPerBlock
        invariant allocator.bitmap[..] == d && Progress(was, from, length, oldMissing, oldSet)
        invariant (blocksAlreadySet <==> alreadySet > 0) && (missingBlocks <==> missing > 0)
      {
        allocator.InsideBlock(run.group, block, pos);
        var bits := BlockBits(group.numBits, bitsPerBlock, block);
        while length < run.length && pos < bits
          invariant length <= run.length && pos <= bits && Times(block, bitsPerBlock) + pos == run.start + length
          invariant allocator.bitmap[..] == d && Progress(was, from, length, oldMissing, oldSet)
          invariant (blocksAlreadySet <==> alreadySet > 0) && (missingBlocks <==> missing > 0)
        {
          TimesWords(block, allocator.geometry.wordsPerBlock);
          var word := group.baseWord + Times(block, allocator.geometry.wordsPerBlock) + pos / 32;
          assert 32 * word + pos % 32 == from + length;
          UsedIs(d, word, pos % 32);
          CheckOne(allocator.bitmap[word][pos % 32], firstGroupBlock + pos + Times(block, bitsPerBlock), was, from, length,
                   oldMissing, oldSet);
          length, pos := length + 1, pos + 1;
        }
        TimesStep(block, bitsPerBlock);
        block, pos := block + 1, 0;
      }
      if length < run.length {
        allocator.InsideBlock(run.group, block, pos);
      }
    }

    lemma NoProgress(from: nat)
      requires from <= 32 * checkBitmap.Length == 32 * allocator.bitmap.Length
      ensures Progress(checkBitmap[..], from, 0, missing, alreadySet)
    {
      NothingMarked(checkBitmap[..], from, true);
    }

    /** How far the loop is: `length` blocks of the run are done. */
    ghost predicate Progress(was: seq<Word>, from: nat, length: nat, oldMissing: nat, oldSet: nat)
      reads this, checkBitmap, allocator.bitmap
    {
      && |was| == checkBitmap.Length && from + length <= 32 * |was| && |was| == allocator.bitmap.Length
      && Marked(was, checkBitmap[..], from, from + length, true)
      && missing == oldMissing + (length - CountUsed(allocator.bitmap[..], from, from + length))
      && alreadySet == oldSet + CountUsed(was, from, from + length)
    }

    /** What checking a run inside its group does. */
    ghost predicate RunChecked(was: seq<Word>, oldMissing: nat, oldSet: nat, run: BlockRun)
      requires allocator.Inside(run)
      reads this, checkBitmap, allocator.bitmap
    {
      Progress(was, First(allocator.groups, run.group) + run.start, run.length, oldMissing, oldSet)
    }

    /** One block of a run; `used` is what the disk's bitmap says of it. */
    method CheckOne(used: bool, block: nat, ghost was: seq<Word>, ghost from: nat, ghost length: nat,
                    ghost oldMissing: nat, ghost oldSet: nat)
      requires Ready() && Progress(was, from, length, oldMissing, oldSet)
      requires block == from + length < 32 * checkBitmap.Length && used == Used(allocator.bitmap[..], block)
      requires (blocksAlreadySet <==> alreadySet > 0) && (missingBlocks <==> missing > 0)
      modifies checkBitmap, `missing, `missingBlocks, `alreadySet, `blocksAlreadySet
      ensures Progress(was, from, length + 1, oldMissing, oldSet)
      ensures (blocksAlreadySet <==> alreadySet > 0) && (missingBlocks <==> missing > 0)
    {
      hide Used, Marked;
      ghost var before := checkBitmap[..];
      UnmarkedSame(was, before, from, block);
      if !used {
        missingBlocks := true;
        missing := missing + 1;
      }
      UsedIs(before, block / 32, block % 32);
      if checkBitmap[block / 32][block % 32] {
        blocksAlreadySet := true;
        alreadySet := alreadySet + 1;
        MarkedAnyway(before, block);
      } else {
        SetCheckBitmapAt(block);
      }
      MarkedTwice(was, before, checkBitmap[..], from, block, block + 1, true);
    }

    lemma UnmarkedSame(was: seq<Word>, now: seq<Word>, from: nat, block: nat)
      requires Marked(was, now, from, block, true) && block < 32 * |was|
      ensures Used(now, block) == Used(was, block)
    {
    }

    lemma MarkedAnyway(words: seq<Word>, block: nat)
      requires block < 32 * |words| && Used(words, block)
      ensures Marked(words, words, block, block + 1, true)
    {
      hide Used;
    }

    /** Counts the set bits of the check bitmap, from its end. */
    method CountCheckBitmap() returns (usedBlocks: nat)
      ensures usedBlocks == CountUsed(checkBitmap[..], 0, 32 * checkBitmap.Length)
    {
      hide Used;
      ghost var words := checkBitmap[..];
      var i := checkBitmap.Length;
      usedBlocks := 0;
      while i > 0
        invariant 0 <= i <= checkBitmap.Length && usedBlocks == CountUsed(words, 32 * i, 32 * |words|)
      {
        i := i - 1;
        ghost var behind := usedBlocks;
        for j := 0 to 32
          invariant usedBlocks == behind + CountUsed(words, 32 * i, 32 * i + j)
        {
          UsedIs(words, i, j);
          if checkBitmap[i][j] {
            usedBlocks := usedBlocks + 1;
          }
        }
        CountJoin(words, 32 * i, 32 * (i + 1), 32 * |words|);
      }
    }

    /** The number of blocks to free: the volume's count less the check bitmap's, plus the missing. When fixing is
        wanted and there is something to fix, the check bitmap replaces the disk's, whose groups' counters
        stay as they are. */
    method StopChecking(fix: bool) returns (freed: nat)
      requires Ready() && Counted() && NothingBeyond(checkBitmap[..])
      modifies allocator`usedBlocks, allocator.bitmap
      ensures freed == Positive(old(allocator.usedBlocks) - CountUsed(old(allocator.bitmap[..]), 0, N())
                                + CountBut(old(allocator.bitmap[..]), checkBitmap[..], 0, N()) + recounted - unreserved)
      ensures (if fix && (freed != 0 || missing != 0)
               then allocator.bitmap[..] == checkBitmap[..] && allocator.usedBlocks == CountUsed(checkBitmap[..], 0, N())
               else allocator.bitmap[..] == old(allocator.bitmap[..]) && allocator.usedBlocks == old(allocator.usedBlocks))
    {
      hide Shaped, Used;
      allocator.Inhabited();
      allocator.GroupFits(0);
      var usedBlocks := CountCheckBitmap();
      ghost var d := allocator.bitmap[..];
      CountJoin(checkBitmap[..], 0, N(), 32 * checkBitmap.Length);
      CountAll(checkBitmap[..], N(), 32 * checkBitmap.Length, false);
      ButBalance(checkBitmap[..], d, 0, N());
      var difference := allocator.usedBlocks - usedBlocks + missing;
      freed := if difference < 0 then 0 else difference;
      if fix && (freed != 0 || missing != 0) {
        allocator.usedBlocks := usedBlocks;
        var i := 0;
        while i < checkBitmap.Length
          modifies allocator.bitmap
          invariant 0 <= i <= checkBitmap.Length
          invariant forall k :: 0 <= k < i ==> allocator.bitmap[k] == checkBitmap[k]
        {
          // a transaction writes 512 blocks at most
          var wordsToWrite := 512 * allocator.geometry.wordsPerBlock;
          var end := if i + wordsToWrite > checkBitmap.Length then checkBitmap.Length else i + wordsToWrite;
          forall k | i <= k < end {
            allocator.bitmap[k] := checkBitmap[k];
          }
          i := end;
        }
      }
    }

    /** No bit behind the volume's last block is set. */
    ghost predicate NothingBeyond(words: seq<Word>)
      requires |words| == allocator.bitmap.Length
    {
      N() <= 32 * |words| && AllAre(words, N(), 32 * |words|, false)
    }
  }

  function Positive(n: int): nat {
    if n < 0 then 0 else n
  }

  // ---- a whole check ----

  /** The run lies in its group and meets neither the reserved blocks nor an earlier run. */
  ghost predicate Apart(a: BlockAllocator, runs: seq<BlockRun>, k: nat)
    requires k < |runs|
  {
    forall n: nat {:trigger InRun(a.groups, runs[k], n)} :: InRun(a.groups, runs[k], n) ==>
      n >= a.geometry.reserved && !CoveredInside(a, runs[..k], n)
  }

  /** Block `n` is in one of the runs that lie in their groups. */
  predicate CoveredInside(a: BlockAllocator, runs: seq<BlockRun>, n: nat) {
    exists i :: 0 <= i < |runs| && a.Inside(runs[i]) && InRun(a.groups, runs[i], n)
  }

  /** The reserved blocks and those of the runs. */
  ghost predicate IsUnion(a: BlockAllocator, runs: seq<BlockRun>, r: seq<Word>) {
    forall n {:trigger Used(r, n)} :: 0 <= n < 32 * |r| ==> (Used(r, n) <==> n < a.geometry.reserved || CoveredInside(a, runs, n))
  }

  lemma CoveredMore(a: BlockAllocator, runs: seq<BlockRun>, k: nat, n: nat)
    requires k < |runs|
    ensures (CoveredInside(a, runs[..k + 1], n) <==>
             CoveredInside(a, runs[..k], n) || (a.Inside(runs[k]) && InRun(a.groups, runs[k], n)))
  {
    if CoveredInside(a, runs[..k], n) {
      var i :| 0 <= i < |runs[..k]| && a.Inside(runs[..k][i]) && InRun(a.groups, runs[..k][i], n);
      assert runs[..k + 1][i] == runs[..k][i];
    }
    if a.Inside(runs[k]) && InRun(a.groups, runs[k], n) {
      assert runs[..k + 1][k] == runs[k];
    }
  }

  lemma UnionGrows(a: BlockAllocator, runs: seq<BlockRun>, k: nat, r: seq<Word>, s: seq<Word>)
    requires k < |runs| && IsUnion(a, runs[..k], r) && a.Inside(runs[k])
    requires Marked(r, s, First(a.groups, runs[k].group) + runs[k].start,
                    First(a.groups, runs[k].group) + runs[k].start + runs[k].length, true)
    ensures IsUnion(a, runs[..k + 1], s)
  {
    hide Used, CoveredInside;
    forall n | 0 <= n < 32 * |s| ensures Used(s, n) <==> n < a.geometry.reserved || CoveredInside(a, runs[..k + 1], n) {
      CoveredMore(a, runs, k, n);
    }
  }

  /** A run none of whose blocks is set is one that stands apart. */
  lemma ApartIsUnset(a: BlockAllocator, runs: seq<BlockRun>, k: nat, r: seq<Word>)
    requires a.InShape() && k < |runs| && IsUnion(a, runs[..k], r) && a.Inside(runs[k]) && |r| == a.bitmap.Length
    ensures First(a.groups, runs[k].group) + runs[k].start + runs[k].length <= 32 * |r|
    ensures (CountUsed(r, First(a.groups, runs[k].group) + runs[k].start,
                       First(a.groups, runs[k].group) + runs[k].start + runs[k].length) == 0) <==> Apart(a, runs, k)
  {
    hide Used, CoveredInside, Shaped;
    var run := runs[k];
    a.GroupFits(run.group);
    var from: nat := First(a.groups, run.group) + run.start;
    NoneUsed(r, from, from + run.length);
    if AllAre(r, from, from + run.length, false) {
      forall n: nat | InRun(a.groups, run, n) ensures n >= a.geometry.reserved && !CoveredInside(a, runs[..k], n) {
        assert !Used(r, n);
      }
    }
    if Apart(a, runs, k) {
      forall n | from <= n < from + run.length ensures !Used(r, n) {
        assert InRun(a.groups, run, n);
      }
    }
  }

  /** Where a check is after some runs. */
  ghost predicate Checked(checker: BitmapChecker, runs: seq<BlockRun>, k: nat)
    requires k <= |runs| && checker.Ready()
    reads checker, checker.checkBitmap, checker.allocator.bitmap
  {
    var a := checker.allocator;
    && checker.Counted() && IsUnion(a, runs[..k], checker.checkBitmap[..]) && a.geometry.reserved <= 32 * a.bitmap.Length
    && checker.unreserved == a.geometry.reserved - CountUsed(a.bitmap[..], 0, a.geometry.reserved)
    && (checker.invalidBlockRun <==> exists i :: 0 <= i < k && !a.Inside(runs[i]))
    && (checker.blocksAlreadySet <==> exists i :: 0 <= i < k && a.Inside(runs[i]) && !Apart(a, runs, i))
  }

  /** Checks all runs. */
  method CheckRuns(checker: BitmapChecker, runs: seq<BlockRun>)
    requires checker.Ready() && Checked(checker, runs, 0)
    modifies checker, checker.checkBitmap
    ensures Checked(checker, runs, |runs|)
  {
    hide Used, Shaped, Marked, AllAre, IsUnion, Apart, Times, CoveredInside;
    var a := checker.allocator;
    for k := 0 to |runs|
      invariant Checked(checker, runs, k)
    {
      ghost var was := checker.checkBitmap[..];
      checker.CheckBlockRun(runs[k]);
      if a.Inside(runs[k]) {
        UnionGrows(a, runs, k, was, checker.checkBitmap[..]);
        ApartIsUnset(a, runs, k, was);
      } else {
        UnionSame(a, runs, k, was);
      }
    }
  }

  /** A complete check. The check bitmap ends up as the reserved blocks and the runs; runs that meet are
      noticed; when none does, and the disk's count and reservation are right, `missing` and `freed` are
      the sizes of the two differences between the check bitmap and the disk's. */
  method Check(checker: BitmapChecker, runs: seq<BlockRun>, fix: bool) returns (freed: nat)
    requires checker.Ready()
    modifies checker, checker.checkBitmap, checker.allocator`usedBlocks, checker.allocator.bitmap
    ensures IsUnion(checker.allocator, runs, checker.checkBitmap[..])
    ensures checker.invalidBlockRun <==> exists k :: 0 <= k < |runs| && !checker.allocator.Inside(runs[k])
    ensures (checker.blocksAlreadySet <==>
             exists k :: 0 <= k < |runs| && checker.allocator.Inside(runs[k]) && !Apart(checker.allocator, runs, k))
    ensures (!checker.blocksAlreadySet && old(Consistent(checker.allocator)) ==>
               && checker.missing == CountBut(checker.checkBitmap[..], old(checker.allocator.bitmap[..]), 0, checker.N())
               && freed == CountBut(old(checker.allocator.bitmap[..]), checker.checkBitmap[..], 0, checker.N()))
    ensures (if fix && (freed != 0 || checker.missing != 0)
             then checker.allocator.bitmap[..] == checker.checkBitmap[..]
             else checker.allocator.bitmap[..] == old(checker.allocator.bitmap[..]))
    ensures (old(checker.allocator.Valid()) ==>
               (checker.allocator.Valid() <==> KeepsGroups(checker.allocator, old(checker.allocator.bitmap[..]), checker.allocator.bitmap[..])))
  {
    hide Used, Shaped, Marked, AllAre, IsUnion, Apart, Times, KeepsGroups, Accurate, CoveredInside, BlockAllocator.Valid;
    var a := checker.allocator;
    ghost var d := a.bitmap[..];
    checker.StartChecking();
    NothingYet(a, runs, checker.checkBitmap[..]);
    CheckRuns(checker, runs);
    assert runs[..|runs|] == runs && a.bitmap[..] == d;
    InsideVolume(a, runs, checker.checkBitmap[..]);
    if Consistent(a) {
      ReservedCount(d, a.geometry.reserved);
    }
    assert Consistent(a) <==> old(Consistent(checker.allocator));
    assert Consistent(a) && !checker.blocksAlreadySet ==> checker.missing == CountBut(checker.checkBitmap[..], d, 0, checker.N());
    WasValid(a);
    ghost var valid := a.Valid();
    freed := checker.StopChecking(fix);
    if valid {
      ValidAfter(a, d);
    }
  }

  /** The volume's count is right and the reserved blocks are in use. */
  ghost predicate Consistent(a: BlockAllocator)
    requires a.InShape()
    reads a`usedBlocks, a.bitmap
  {
    && a.usedBlocks == CountUsed(a.bitmap[..], 0, a.geometry.numBlocks)
    && ReservedUsed(a.bitmap[..], a.geometry.reserved)
  }

  /** The group has gained as many blocks as it has lost, and none below its hint has become free. */
  ghost predicate Even(group: AllocationGroup, d: seq<Word>, r: seq<Word>)
    reads group`firstFree
  {
    var first, end, hint: nat := 32 * group.baseWord, 32 * group.baseWord + group.numBits, if group.firstFree > 0 then group.firstFree else 0;
    && first + hint <= end <= 32 * |d| && end <= 32 * |r|
    && CountBut(r, d, first, end) == CountBut(d, r, first, end) && AllAre(r, first, first + hint, true)
  }

  /** Fixing leaves the counters and hints of the groups as they were; this is when they fit the new bitmap. */
  ghost predicate KeepsGroups(a: BlockAllocator, d: seq<Word>, r: seq<Word>)
    reads a.groups
  {
    forall g :: 0 <= g < |a.groups| ==> Even(a.groups[g], d, r)
  }

  lemma WasValid(a: BlockAllocator)
    ensures a.Valid() ==> a.InShape() && a.GroupsAccurate(a.bitmap[..]) && a.usedBlocks == CountUsed(a.bitmap[..], 0, a.geometry.numBlocks)
  {
    hide Shaped, Accurate;
  }

  lemma ValidAfter(a: BlockAllocator, d: seq<Word>)
    requires a.InShape() && a.GroupsAccurate(d) && |d| == a.bitmap.Length
    requires a.usedBlocks == CountUsed(a.bitmap[..], 0, a.geometry.numBlocks)
    ensures a.Valid() <==> KeepsGroups(a, d, a.bitmap[..])
  {
    hide Used, Shaped, Accurate, Even;
    forall g | 0 <= g < |a.groups| ensures a.groups[g].IsAccurate(a.bitmap[..]) <==> Even(a.groups[g], d, a.bitmap[..]) {
      assert a.groups[g].IsAccurate(d);
      a.GroupFits(g);
      AccurateAfter(a.groups[g], d, a.bitmap[..]);
    }
  }

  lemma AccurateAfter(group: AllocationGroup, d: seq<Word>, r: seq<Word>)
    requires group.IsAccurate(d) && 32 * group.baseWord + group.numBits <= 32 * |r|
    ensures group.IsAccurate(r) <==> Even(group, d, r)
  {
    hide Used;
    ButBalance(r, d, 32 * group.baseWord, 32 * group.baseWord + group.numBits);
  }

  lemma {:induction false} EvenInAll(a: BlockAllocator, d: seq<Word>, r: seq<Word>, k: nat)
    requires a.InShape() && KeepsGroups(a, d, r) && k <= |a.groups|
    ensures a.Behind(k) <= 32 * |d| && a.Behind(k) <= 32 * |r|
    ensures CountBut(r, d, 0, a.Behind(k)) == CountBut(d, r, 0, a.Behind(k))
  {
    hide Used, Shaped;
    if k > 0 {
      EvenInAll(a, d, r, k - 1);
      a.BehindIsFirst(k - 1);
      var group := a.groups[k - 1];
      assert Even(group, d, r);
      ButJoin(r, d, 0, 32 * group.baseWord, 32 * group.baseWord + group.numBits);
      ButJoin(d, r, 0, 32 * group.baseWord, 32 * group.baseWord + group.numBits);
    }
  }

  /** So a fix that frees more blocks than were missing, or fewer, always leaves the groups wrong. */
  lemma UnevenFix(a: BlockAllocator, d: seq<Word>)
    requires a.InShape() && a.GroupsAccurate(d) && |d| == a.bitmap.Length && a.usedBlocks == CountUsed(a.bitmap[..], 0, a.geometry.numBlocks)
    requires CountBut(a.bitmap[..], d, 0, a.geometry.numBlocks) != CountBut(d, a.bitmap[..], 0, a.geometry.numBlocks)
    ensures !a.Valid()
  {
    hide Used, GroupShaped, KeepsGroups, Accurate;
    a.Inhabited();
    assert a.Behind(|a.groups|) == a.geometry.numBlocks;
    ValidAfter(a, d);
    if KeepsGroups(a, d, a.bitmap[..]) {
      EvenInAll(a, d, a.bitmap[..], |a.groups|);
    }
  }

  lemma ReservedCount(words: seq<Word>, reserved: nat)
    requires ReservedUsed(words, reserved)
    ensures CountUsed(words, 0, reserved) == reserved
  {
    hide Used;
    CountAll(words, 0, reserved, true);
  }

  lemma NothingYet(a: BlockAllocator, runs: seq<BlockRun>, r: seq<Word>)
    requires forall n :: 0 <= n < 32 * |r| ==> (Used(r, n) <==> n < a.geometry.reserved)
    ensures IsUnion(a, runs[..0], r)
  {
  }

  lemma UnionSame(a: BlockAllocator, runs: seq<BlockRun>, k: nat, r: seq<Word>)
    requires k < |runs| && IsUnion(a, runs[..k], r) && !a.Inside(runs[k])
    ensures IsUnion(a, runs[..k + 1], r)
  {
    hide Used, CoveredInside;
    forall n | 0 <= n < 32 * |r| ensures Used(r, n) <==> n < a.geometry.reserved || CoveredInside(a, runs[..k + 1], n) {
      CoveredMore(a, runs, k, n);
    }
  }

  lemma InsideVolume(a: BlockAllocator, runs: seq<BlockRun>, r: seq<Word>)
    requires a.InShape() && IsUnion(a, runs, r) && |r| == a.bitmap.Length
    ensures a.geometry.numBlocks <= 32 * |r| && AllAre(r, a.geometry.numBlocks, 32 * |r|, false)
  {
    hide Used, Shaped;
    a.Inhabited();
    a.GroupFits(0);
    a.ReservedInside();
    a.BehindIsFirst(0);
    forall n | a.geometry.numBlocks <= n < 32 * |r| ensures !Used(r, n) {
      if CoveredInside(a, runs, n) {
        var i :| 0 <= i < |runs| && a.Inside(runs[i]) && InRun(a.groups, runs[i], n);
        a.GroupFits(runs[i].group);
      }
    }
  }

  /** With a consistent disk the two numbers are both zero exactly when the bitmaps agree. */
  lemma NothingToFix(r: seq<Word>, d: seq<Word>, n: nat)
    requires n <= 32 * |r| && n <= 32 * |d|
    ensures CountBut(r, d, 0, n) == 0 && CountBut(d, r, 0, n) == 0 <==> forall b :: 0 <= b < n ==> Used(r, b) == Used(d, b)
  {
    hide Used;
    ButNone(r, d, 0, n);
    ButNone(d, r, 0, n);
    if CountBut(r, d, 0, n) == 0 && CountBut(d, r, 0, n) == 0 {
      forall b | 0 <= b < n ensures Used(r, b) == Used(d, b) {
      }
    }
  }
}
