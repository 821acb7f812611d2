/** The block allocator: allocating in two passes, freeing, and setting up at mount time
    (BlockAllocator.cpp). */
module BlockAllocators {
  import opened BitmapWords
  import opened AllocationGroups
  import opened RunSearch

  datatype Found = Found(group: nat, start: nat, length: nat) | DeviceFull

  datatype BlockRun = BlockRun(group: nat, start: nat, length: nat)

  datatype Allocation = Allocated(run: BlockRun) | NoneLeft | BadValue

  /** What a volume says about its groups: `wordsPerBlock` 32-bit words in a block, `blocksPerGroup`
      bitmap blocks for a full group, `numBlocks` blocks in all, the first `reserved` of which hold the
      boot block, the bitmap and the log. */
  datatype Geometry = Geometry(wordsPerBlock: nat, blocksPerGroup: nat, numBlocks: nat, reserved: nat) {
    function BitsPerBlock(): nat { 32 * wordsPerBlock }
    function GroupSize(): nat { Times(blocksPerGroup, BitsPerBlock()) }
  }

  /** The first bit of a group in the bitmap of the disk. */
  function First(groups: seq<AllocationGroup>, g: nat): nat
    requires g < |groups|
  {
    32 * groups[g].baseWord
  }

  function End(groups: seq<AllocationGroup>, g: nat): nat
    requires g < |groups|
  {
    First(groups, g) + groups[g].numBits
  }

  /** The groups lie one behind the other in the bitmap; all but the last have the same size. */
  ghost predicate Shaped(groups: seq<AllocationGroup>, geometry: Geometry) {
    && geometry.wordsPerBlock > 0 && geometry.blocksPerGroup > 0 && |groups| > 0
    && (forall g, h :: 0 <= g < h < |groups| ==> groups[g] != groups[h])
    && (forall g :: 0 <= g < |groups| ==> GroupShaped(groups, geometry, g))
    && End(groups, |groups| - 1) == geometry.numBlocks
    && 0 < geometry.reserved <= groups[0].numBits
  }

  ghost predicate GroupShaped(groups: seq<AllocationGroup>, geometry: Geometry, g: nat)
    requires g < |groups| && geometry.wordsPerBlock > 0
  {
    && First(groups, g) == Times(g, geometry.GroupSize())
    && 0 < groups[g].numBits <= geometry.GroupSize()
    && (g < |groups| - 1 ==> groups[g].numBits == geometry.GroupSize())
    && 0 < groups[g].numBlocks && groups[g].numBits <= Times(groups[g].numBlocks, geometry.BitsPerBlock())
    && Times(groups[g].numBlocks - 1, geometry.BitsPerBlock()) < groups[g].numBits
  }

  /** The condition under which the search reports what it finds (see RunSearch). */
  ghost predicate AllRegular(groups: seq<AllocationGroup>, geometry: Geometry)
    requires geometry.wordsPerBlock > 0
  {
    forall g :: 0 <= g < |groups| ==> Regular(groups[g].numBits, geometry.BitsPerBlock())
  }

  /** A group's bits come before those of the next and within the volume. */
  lemma {:induction false} InOrder(groups: seq<AllocationGroup>, geometry: Geometry, g: nat, h: nat)
    requires Shaped(groups, geometry) && g <= h < |groups|
    ensures g < h ==> End(groups, g) <= First(groups, h)
    ensures End(groups, g) <= End(groups, h) <= geometry.numBlocks
  {
    hide Times;
    assert GroupShaped(groups, geometry, g) && GroupShaped(groups, geometry, h);
    assert GroupShaped(groups, geometry, |groups| - 1);
    TimesStep(g, geometry.GroupSize());
    if g < h {
      TimesMonotone(g + 1, h, geometry.GroupSize());
    }
    if h < |groups| - 1 {
      TimesStep(h, geometry.GroupSize());
      TimesMonotone(h + 1, |groups| - 1, geometry.GroupSize());
    }
  }

  // ---- what a search leaves out ----

  /** Where a search that begins at `start` of a group with this hint really begins. */
  function Clipped(start: nat, firstFree: int): nat {
    if start < firstFree then firstFree else start
  }

  /** Where the search of a group begins that was asked to begin at `start`: in a group whose last bitmap block is
      partial, that may be another place of the last block. */
  function Searched(numBits: nat, bitsPerBlock: nat, firstFree: int, start: nat): nat
    requires bitsPerBlock > 0
  {
    var clipped := Clipped(start, firstFree);
    if clipped < numBits && BlockBits(numBits, bitsPerBlock, clipped / bitsPerBlock) > 0
    then ScanStart(numBits, bitsPerBlock, clipped)
    else clipped
  }

  /** The part of a group that is neither searched nor below the hint ends here. */
  function Missed(numBits: nat, bitsPerBlock: nat, firstFree: int, start: nat): nat
    requires bitsPerBlock > 0
  {
    var from := Searched(numBits, bitsPerBlock, firstFree, start);
    if from <= firstFree || from == 0 then 0 else from
  }

  /** In a regular group the search begins where it was asked to, or at the hint. */
  lemma MissedIfRegular(numBits: nat, bitsPerBlock: nat, firstFree: int, start: nat)
    requires bitsPerBlock > 0 && Regular(numBits, bitsPerBlock)
    ensures Missed(numBits, bitsPerBlock, firstFree, start) == if start <= firstFree then 0 else start
  {
    hide ScanStart, BlockBits, Regular;
    if Clipped(start, firstFree) < numBits {
      RegularStarts(numBits, bitsPerBlock, Clipped(start, firstFree));
    }
  }

  /** `h` is among the `count` groups after `first`, going round. */
  predicate Visited(h: nat, first: nat, count: nat, n: nat) {
    first <= h < first + count || h + n < first + count
  }

  lemma FullGroup(words: seq<Word>, group: AllocationGroup, firstFree: int, from: nat, length: nat)
    requires Accurate(words, 32 * group.baseWord, group.numBits, firstFree, 0) && length > 0
    ensures NoRun(words, 32 * group.baseWord + from, 32 * group.baseWord + group.numBits, length)
  {
    hide Used;
    var first: nat := 32 * group.baseWord;
    CountShort(words, first, first + group.numBits);
    forall s: nat | first + from <= s && s + length <= first + group.numBits ensures !FreeRun(words, s, length) {
      assert Used(words, s);
    }
  }

  /** The blocks below the hint hold no free run. */
  lemma BelowHint(words: seq<Word>, first: nat, numBits: nat, firstFree: int, freeBits: int, from: nat, end: nat, length: nat)
    requires Accurate(words, first, numBits, firstFree, freeBits) && length > 0 && end <= 32 * |words|
    requires NoRun(words, first + from, end, length)
    ensures NoRun(words, first + (if from <= firstFree then 0 else from), end, length)
  {
    hide Used;
    if from <= firstFree {
      forall s: nat | first <= s && s + length <= end ensures !FreeRun(words, s, length) {
        if s < first + from {
          assert Used(words, s);
        }
      }
    }
  }

  /** The group that is `i` after `first`, going round twice at most. */
  function Round(first: nat, i: nat, n: nat): nat
    requires first < n
  {
    if first + i < n then first + i else if first + i < 2 * n then first + i - n else first + i - 2 * n
  }

  /** How many groups come before `g` when one begins with `first` and goes round. */
  function Steps(first: nat, g: nat, n: nat): nat
    requires first < n && g < n
  {
    if g >= first then g - first else g + n - first
  }

  lemma StepsOrder(first: nat, g: nat, h: nat, n: nat)
    requires first < n && g < n && h < n
    ensures Steps(first, g, n) < Steps(first, h, n) ==> Visited(g, first, Steps(first, h, n), n)
    ensures Steps(first, g, n) == Steps(first, h, n) ==> g == h
  {
  }

  lemma StepsAre(first: nat, i: nat, n: nat)
    requires first < n && i < 2 * n
    ensures Round(first, i, n) < n && Steps(first, Round(first, i, n), n) == if i < n then i else i - n
  {
  }

  lemma HaltsWithin(words: seq<Word>, first: nat, numBits: nat, bitsPerBlock: nat, at: nat, need: nat, length: nat, maximum: nat)
    requires Halts(words, first, numBits, bitsPerBlock, at, need, length, maximum)
    ensures need <= length <= maximum
  {
    hide Times, BlockBits, Used;
  }

  function Modulo(x: nat, n: nat): nat
    requires n > 0
  {
    x % n
  }

  lemma InRange(x: nat, n: nat)
    requires n > 0
    ensures Modulo(x, n) < n
  {
  }

  lemma Wraps(g: nat, n: nat)
    requires g < n
    ensures Modulo(g + 1, n) == if g + 1 < n then g + 1 else 0
  {
    if g + 1 == n {
      assert n % n == 0;
    }
  }

  lemma NextRound(first: nat, i: nat, n: nat, group: nat)
    requires first < n && i < 2 * n && (i > 0 ==> group <= n) && Modulo(group, n) == Round(first, i, n)
    ensures Modulo(Modulo(group, n) + 1, n) == Round(first, i + 1, n) || i + 1 == 2 * n
    ensures Modulo(group, n) < n
  {
    InRange(group, n);
    hide Modulo;
    Wraps(Modulo(group, n), n);
  }

  lemma RoundStep(first: nat, i: nat, n: nat, group: nat)
    requires first < n && i < 2 * n && (i > 0 ==> group <= n) && group % n == Round(first, i, n)
    ensures (group % n + 1) % n == Round(first, i + 1, n) || i + 1 == 2 * n
    ensures group % n < n
  {
    NextRound(first, i, n, group);
  }

  lemma SubRun(words: seq<Word>, at: nat, longer: nat, length: nat)
    requires at + longer <= 32 * |words| && FreeRun(words, at, longer) && length <= longer
    ensures FreeRun(words, at, length)
  {
    hide Used;
  }

  // ---- the allocator ----

  class BlockAllocator {
    const geometry: Geometry
    const bitmap: array<Word>
    const groups: seq<AllocationGroup>
    var usedBlocks: int

    /** The constant part of the invariant. */
    ghost predicate InShape() {
      && Shaped(groups, geometry)
      && geometry.numBlocks <= 32 * bitmap.Length
    }

    /** All groups' counters agree with the bitmap, and so does the volume's. */
    ghost predicate Valid()
      reads this, groups, bitmap
    {
      && InShape()
      && GroupsAccurate(bitmap[..])
      && usedBlocks == CountUsed(bitmap[..], 0, geometry.numBlocks)
    }

    ghost predicate GroupsAccurate(words: seq<Word>)
      reads groups
    {
      forall g :: 0 <= g < |groups| ==> groups[g].IsAccurate(words)
    }

    lemma GroupFits(g: nat)
      requires InShape() && g < |groups|
      ensures End(groups, g) <= geometry.numBlocks <= 32 * bitmap.Length
      ensures GroupShaped(groups, geometry, g) && geometry.wordsPerBlock > 0
    {
      hide Times, GroupShaped;
      InOrder(groups, geometry, g, |groups| - 1);
    }

    lemma GroupsFit()
      requires InShape()
      ensures forall g :: 0 <= g < |groups| ==> End(groups, g) <= 32 * bitmap.Length
    {
      hide Shaped;
      forall g | 0 <= g < |groups| ensures End(groups, g) <= 32 * bitmap.Length {
        GroupFits(g);
      }
    }

    /** What a search of the group that is asked to begin at `start` leaves out. */
    ghost function Unsearched(g: nat, start: nat): nat
      requires g < |groups| && geometry.wordsPerBlock > 0
      reads groups
    {
      Missed(groups[g].numBits, geometry.BitsPerBlock(), groups[g].firstFree, start)
    }

    /** One group's turn: clips the start to the hint and looks for a run, which is at `at`. */
    method SearchGroup(g: nat, start0: nat, maximum: nat, minimum: nat, second: bool) returns (range: nat, start: nat, ghost at: nat)
      requires InShape() && g < |groups| && groups[g].IsAccurate(bitmap[..]) && 1 <= minimum <= maximum
      requires start0 < groups[g].numBits && groups[g].freeBits != 0
      ensures range <= maximum && geometry.wordsPerBlock > 0 && End(groups, g) <= 32 * bitmap.Length
      ensures (range >= Needed(second, maximum, minimum) ==>
                 && FreeHere(g, at, range) && FirstHere(g, start0, at, Needed(second, maximum, minimum))
                 && Halts(bitmap[..], First(groups, g), groups[g].numBits, geometry.BitsPerBlock(), at, Needed(second, maximum, minimum),
                          range, maximum)
                 && start == Reported(groups[g].numBits, geometry.BitsPerBlock(), at))
      ensures (range < Needed(second, maximum, minimum) ==>
                 NoRun(bitmap[..], First(groups, g) + Unsearched(g, start0), End(groups, g), Needed(second, maximum, minimum)))
    {
      hide Times, Used, NoRun, AllAre, Shaped, BlockBits, Reported, ScanStart, Halts;
      var group := groups[g];
      GroupFits(g);
      HintInside(bitmap[..], First(groups, g), group.numBits, group.firstFree, group.freeBits);
      var clipped := Clipped(start0, group.firstFree);
      range, start, at := FindRange(bitmap, group, geometry.wordsPerBlock, clipped, maximum, minimum, second);
      var need := Needed(second, maximum, minimum);
      BelowHint(bitmap[..], First(groups, g), group.numBits, group.firstFree, group.freeBits,
                Searched(group.numBits, geometry.BitsPerBlock(), group.firstFree, start0),
                if range < need then End(groups, g) else First(groups, g) + at + need - 1, need);
    }

    /** In what is searched of the group, no run of `need` blocks begins before `at`. */
    ghost predicate FirstHere(g: nat, start: nat, at: nat, need: nat)
      requires InShape() && g < |groups| && geometry.wordsPerBlock > 0
      reads groups, bitmap
    {
      && Unsearched(g, start) <= at && FirstAt(bitmap[..], First(groups, g) + Unsearched(g, start), First(groups, g) + at, need)
    }

    /** The place where a search ends: in the pass that finds something, the first group with a run that is long enough,
        the first such run of it, and as much of that run as there is and may be taken. */
    ghost predicate IsFound(g0: nat, start0: nat, maximum: nat, minimum: nat, second: bool, g: nat, at: nat, length: nat)
      requires g0 < |groups| && InShape() && geometry.wordsPerBlock > 0
      reads groups, bitmap
    {
      var need, start := Needed(second, maximum, minimum), if second then 0 else start0;
      && (second ==> maximum != minimum && FirstPassDone(g0, start0, maximum))
      && FreeHere(g, at, length) && need <= length
      && (forall h :: 0 <= h < |groups| && Visited(h, g0, Steps(g0, g, |groups|), |groups|) ==> GroupDone(bitmap[..], h, g0, start, need))
      && FirstHere(g, if g == g0 then start else 0, at, need)
      && Halts(bitmap[..], First(groups, g), groups[g].numBits, geometry.BitsPerBlock(), at, need, length, maximum)
    }

    /** No run of `length` is free in what is searched of group `h`, from `start` on in the group `first`. */
    ghost predicate GroupDone(words: seq<Word>, h: nat, first: nat, start: nat, length: nat)
      requires h < |groups| && geometry.wordsPerBlock > 0
      reads groups
    {
      End(groups, h) <= 32 * |words| &&
      NoRun(words, First(groups, h) + Unsearched(h, if h == first then start else 0), End(groups, h), length)
    }

    /** Every group is done. */
    ghost predicate AllDone(words: seq<Word>, first: nat, start: nat, length: nat)
      requires geometry.wordsPerBlock > 0
      reads groups
    {
      forall h :: 0 <= h < |groups| ==> GroupDone(words, h, first, start, length)
    }

    /** Neither pass finds anything: the first looks for `maximum` blocks in a row, from `start` on in the group it
        begins with; the second for `minimum`, if that is less, in all groups. */
    ghost predicate Exhausted(g0: nat, start: nat, maximum: nat, minimum: nat)
      requires g0 < |groups| && InShape()
      reads groups, bitmap
    {
      FirstPassDone(g0, start, maximum) && (maximum != minimum ==> AllDone(bitmap[..], g0, 0, minimum))
    }

    /** Nothing the first pass looks at has `maximum` blocks in a row free. */
    ghost predicate FirstPassDone(g0: nat, start: nat, maximum: nat)
      requires g0 < |groups| && InShape()
      reads groups, bitmap
    {
      AllDone(bitmap[..], g0, start, maximum)
    }

    ghost predicate FreeHere(g: nat, start: nat, length: nat)
      requires InShape()
      reads bitmap
    {
      && g < |groups| && start + length <= groups[g].numBits
      && End(groups, g) <= 32 * bitmap.Length && FreeRun(bitmap[..], First(groups, g) + start, length)
    }

    /** A free run in the part that is searched was not there to be found. */
    lemma NotDone(g0: nat, start0: nat, g: nat, at: nat, range: nat, length: nat)
      requires g0 < |groups| && InShape() && FreeHere(g, at, range) && 0 < length <= range && geometry.wordsPerBlock > 0
      requires Unsearched(g, if g == g0 then start0 else 0) <= at
      ensures !AllDone(bitmap[..], g0, start0, length)
    {
      hide Used, Shaped, AllAre, FreeRun, Missed;
      GroupsFit();
      GroupFits(g);
      SubRun(bitmap[..], First(groups, g) + at, range, length);
      assert !GroupDone(bitmap[..], g, g0, start0, length);
    }

    lemma GroupNotDone(g0: nat, start: nat, g: nat, at: nat, range: nat, need: nat)
      requires InShape() && FreeHere(g, at, range) && 0 < need <= range && geometry.wordsPerBlock > 0
      requires Unsearched(g, if g == g0 then start else 0) <= at
      ensures !GroupDone(bitmap[..], g, g0, start, need)
    {
      hide Used, Shaped, AllAre, FreeRun, Missed;
      GroupsFit();
      GroupFits(g);
      SubRun(bitmap[..], First(groups, g) + at, range, need);
    }

    /** There is only one place where a search can end. */
    lemma OneAnswer(g0: nat, start0: nat, maximum: nat, minimum: nat, second: bool, g: nat, at: nat, length: nat,
                    second': bool, g': nat, at': nat, length': nat)
      requires g0 < |groups| && InShape() && geometry.wordsPerBlock > 0 && 1 <= minimum <= maximum
      requires IsFound(g0, start0, maximum, minimum, second, g, at, length)
      requires IsFound(g0, start0, maximum, minimum, second', g', at', length')
      ensures second == second' && g == g' && at == at' && length == length'
    {
      hide Used, Shaped, AllAre, Missed, Halts, FirstAt, GroupDone, FreeRun, Times, BlockBits, FirstPassDone;
      SamePass(g0, start0, maximum, minimum, second, g, at, length, second', g', at', length');
      SamePass(g0, start0, maximum, minimum, second', g', at', length', second, g, at, length);
      var need, start := Needed(second, maximum, minimum), if second then 0 else start0;
      StepsOrder(g0, g, g', |groups|);
      StepsOrder(g0, g', g, |groups|);
      if g != g' {
        if Steps(g0, g, |groups|) < Steps(g0, g', |groups|) {
          GroupNotDone(g0, start, g, at, length, need);
        } else {
          GroupNotDone(g0, start, g', at', length', need);
        }
      }
      SamePlace(g, if g == g0 then start else 0, need, at, length, at');
      SamePlace(g, if g == g0 then start else 0, need, at', length', at);
      SameLength(g, at, need, length, length', maximum);
      SameLength(g, at, need, length', length, maximum);
    }

    lemma SamePass(g0: nat, start0: nat, maximum: nat, minimum: nat, second: bool, g: nat, at: nat, length: nat,
                   second': bool, g': nat, at': nat, length': nat)
      requires g0 < |groups| && InShape() && geometry.wordsPerBlock > 0 && 1 <= minimum <= maximum
      requires IsFound(g0, start0, maximum, minimum, second, g, at, length)
      requires IsFound(g0, start0, maximum, minimum, second', g', at', length')
      ensures second ==> second'
    {
      hide Used, Shaped, AllAre, Missed, Halts, FirstAt, GroupDone, FreeRun;
      if second && !second' {
        NotDone(g0, start0, g', at', length', maximum);
      }
    }

    lemma SamePlace(g: nat, start: nat, need: nat, at: nat, length: nat, at': nat)
      requires InShape() && g < |groups| && geometry.wordsPerBlock > 0 && FreeHere(g, at, length) && 0 < need <= length
      requires FirstHere(g, start, at, need) && FirstHere(g, start, at', need)
      ensures at' <= at
    {
      hide Used, Shaped, AllAre, Missed, FreeRun;
      SubRun(bitmap[..], First(groups, g) + at, length, need);
    }

    lemma SameLength(g: nat, at: nat, need: nat, length: nat, length': nat, maximum: nat)
      requires InShape() && g < |groups| && geometry.wordsPerBlock > 0 && FreeHere(g, at, length')
      requires Halts(bitmap[..], First(groups, g), groups[g].numBits, geometry.BitsPerBlock(), at, need, length, maximum)
      requires Halts(bitmap[..], First(groups, g), groups[g].numBits, geometry.BitsPerBlock(), at, need, length', maximum)
      ensures length' <= length
    {
      hide Used, Shaped, Times, BlockBits;
    }

    /** A group that is skipped: it is full, or the start lies behind it. */
    lemma Skipped(g: nat, start: nat, length: nat)
      requires InShape() && g < |groups| && groups[g].IsAccurate(bitmap[..]) && length > 0
      requires start >= groups[g].numBits || groups[g].freeBits == 0
      ensures End(groups, g) <= 32 * bitmap.Length
      ensures NoRun(bitmap[..], First(groups, g) + Unsearched(g, start), End(groups, g), length)
    {
      hide Shaped, Used, BlockBits, ScanStart;
      GroupFits(g);
      var group := groups[g];
      if group.freeBits == 0 {
        FullGroup(bitmap[..], group, group.firstFree, Unsearched(g, start), length);
      } else {
        HintInside(bitmap[..], First(groups, g), group.numBits, group.firstFree, group.freeBits);
      }
    }

    lemma PlaceSearched(g: nat, start: nat, at: nat, need: nat)
      requires InShape() && g < |groups| && geometry.wordsPerBlock > 0 && FirstHere(g, start, at, need)
      ensures Unsearched(g, start) <= at
    {
      hide Missed, Shaped;
    }

    lemma FoundNow(g0: nat, start0: nat, maximum: nat, minimum: nat, second: bool, g: nat, at: nat, length: nat)
      requires g0 < |groups| && InShape() && geometry.wordsPerBlock > 0
      requires second ==> maximum != minimum && FirstPassDone(g0, start0, maximum)
      requires FreeHere(g, at, length) && Needed(second, maximum, minimum) <= length
      requires (forall h :: 0 <= h < |groups| && Visited(h, g0, Steps(g0, g, |groups|), |groups|) ==>
                  GroupDone(bitmap[..], h, g0, if second then 0 else start0, Needed(second, maximum, minimum)))
      requires FirstHere(g, if g == g0 && !second then start0 else 0, at, Needed(second, maximum, minimum))
      requires Halts(bitmap[..], First(groups, g), groups[g].numBits, geometry.BitsPerBlock(), at, Needed(second, maximum, minimum),
                     length, maximum)
      ensures IsFound(g0, start0, maximum, minimum, second, g, at, length)
    {
      hide Used, Shaped, Halts, FirstHere, GroupDone, FirstPassDone;
    }

    /** The two passes over all groups: the first for `maximum` blocks in a row, the second for `minimum`
        or more. What is found is at `at`, and reported as the place where it is taken to begin. */
    method Search(group0: nat, start0: nat, maximum: nat, minimum: nat) returns (found: Found, ghost at: nat, ghost pass: bool)
      requires InShape() && GroupsAccurate(bitmap[..]) && 1 <= minimum <= maximum
      ensures geometry.wordsPerBlock > 0 && |groups| > 0
      ensures found.Found? ==> IsFound(group0 % |groups|, start0, maximum, minimum, pass, found.group, at, found.length)
      ensures found.Found? ==> FreeHere(found.group, at, found.length) && minimum <= found.length <= maximum
      ensures found.Found? ==> found.start == Reported(groups[found.group].numBits, geometry.BitsPerBlock(), at)
      ensures found.DeviceFull? <==> Exhausted(group0 % |groups|, start0, maximum, minimum)
      ensures found.Found? && found.length < maximum ==> FirstPassDone(group0 % |groups|, start0, maximum)
    {
      hide Times, Used, NoRun, Accurate, AllAre, Shaped, FreeRun, Missed, Reported, Halts, FirstAt, IsFound, FirstHere;
      GroupsFit();
      Inhabited();
      at, pass := 0, false;
      var n := |groups|;
      ghost var words, g0: nat := bitmap[..], group0 % n;
      var group: nat, start: nat, i := group0, start0, 0;
      while i < 2 * n
        invariant 0 <= i <= 2 * n && start == if i == 0 then start0 else 0
        invariant i > 0 ==> group <= n
        invariant i < 2 * n ==> group % n == Round(g0, i, n)
        invariant forall h :: 0 <= h < n && Visited(h, g0, i, n) ==> GroupDone(words, h, g0, start0, maximum)
        invariant forall h :: i > n && 0 <= h < n && Visited(h, g0, i - n, n) ==> GroupDone(words, h, g0, 0, minimum)
      {
        RoundStep(g0, i, n, group);
        group := group % n;
        var second := i >= n;
        assert groups[group].IsAccurate(words);
        if start < groups[group].numBits && groups[group].freeBits != 0 {
          if second && maximum == minimum {
            return DeviceFull, 0, true;
          }
          var range, rangeStart, place := SearchGroup(group, start, maximum, minimum, second);
          if range >= Needed(second, maximum, minimum) {
            PlaceSearched(group, start, place, Needed(second, maximum, minimum));
            NotDone(g0, if second then 0 else start0, group, place, range, Needed(second, maximum, minimum));
            StepsAre(g0, i, n);
            HaltsWithin(words, First(groups, group), groups[group].numBits, geometry.BitsPerBlock(), place,
                        Needed(second, maximum, minimum), range, maximum);
            FoundNow(g0, start0, maximum, minimum, second, group, place, range);
            return Found(group, rangeStart, range), place, second;
          }
        } else {
          Skipped(group, start, Needed(second, maximum, minimum));
        }
        i, group, start := i + 1, group + 1, 0;
      }
      found := DeviceFull;
    }

    /** Marking a run of one group touches no other group's blocks. */
    lemma OthersAccurate(was: seq<Word>, g: nat, start: nat, length: nat, value: bool)
      requires InShape() && g < |groups| && start + length <= groups[g].numBits
      requires forall h :: 0 <= h < |groups| && h != g ==> groups[h].IsAccurate(was)
      requires groups[g].IsAccurate(bitmap[..])
      requires Marked(was, bitmap[..], First(groups, g) + start, First(groups, g) + start + length, value)
      ensures GroupsAccurate(bitmap[..])
    {
      hide Times, Used, Marked, GroupShaped, Accurate;
      forall h | 0 <= h < |groups| ensures groups[h].IsAccurate(bitmap[..]) {
        if h != g {
          InOrder(groups, geometry, if h < g then h else g, if h < g then g else h);
          AccurateElsewhere(was, bitmap[..], First(groups, h), groups[h].numBits, groups[h].firstFree,
                            groups[h].freeBits, First(groups, g) + start, First(groups, g) + start + length, value);
        }
      }
    }

    /** Allocates a run of at least `minimum` and at most `maximum` blocks: a free one is found, and the blocks from
        its reported start are taken. The accounting survives exactly when these were free, as they are
        in every regular group. */
    method AllocateBlocks(group0: nat, start0: nat, maximum: nat, minimum: nat) returns (r: Allocation, ghost at: nat, ghost pass: bool)
      requires Valid() && (maximum > 0 ==> 1 <= minimum <= maximum)
      modifies bitmap, groups, `usedBlocks
      ensures geometry.wordsPerBlock > 0 && InShape()
      ensures r.BadValue? <==> maximum == 0
      ensures r.NoneLeft? <==> maximum > 0 && old(Exhausted(group0 % |groups|, start0, maximum, minimum))
      ensures !r.Allocated? ==> unchanged(this) && unchanged(bitmap) && forall g :: 0 <= g < |groups| ==> unchanged(groups[g])
      ensures r.Allocated? ==> old(IsFound(group0 % |groups|, start0, maximum, minimum, pass, r.run.group, at, r.run.length))
      ensures r.Allocated? ==> minimum <= r.run.length <= maximum && old(FreeHere(r.run.group, at, r.run.length))
      ensures r.Allocated? ==> r.run.start == Reported(groups[r.run.group].numBits, geometry.BitsPerBlock(), at) <= at
      ensures r.Allocated? ==> RunMarked(old(bitmap[..]), bitmap[..], r.run, true) && usedBlocks == old(usedBlocks) + r.run.length
      ensures r.Allocated? && Regular(groups[r.run.group].numBits, geometry.BitsPerBlock()) ==> r.run.start == at
      ensures Valid() <==> (r.Allocated? ==> old(FreeHere(r.run.group, r.run.start, r.run.length)))
      ensures r.Allocated? && r.run.length < maximum ==> old(FirstPassDone(group0 % |groups|, start0, maximum))
    {
      hide Times, Used, Marked, Accurate, Shaped, Regular, AllAre, Reported, Missed, BlockBits, IsFound;
      Inhabited();
      if maximum == 0 {
        return BadValue, 0, false;
      }
      var found;
      found, at, pass := Search(group0, start0, maximum, minimum);
      if found.DeviceFull? {
        return NoneLeft, 0, false;
      }
      GroupFits(found.group);
      ReportedBelow(groups[found.group].numBits, geometry.BitsPerBlock(), at);
      ghost var was, from := bitmap[..], First(groups, found.group) + found.start;
      var ok := groups[found.group].Allocate(bitmap, geometry.wordsPerBlock, found.start, found.length);
      usedBlocks := usedBlocks + found.length;
      Distinct(found.group);
      CountSet(was, bitmap[..], 0, from, from + found.length, geometry.numBlocks);
      NoneUsed(was, from, from + found.length);
      if AllAre(was, from, from + found.length, false) {
        OthersAccurate(was, found.group, found.start, found.length, true);
      }
      return Allocated(BlockRun(found.group, found.start, found.length)), at, pass;
    }

    /** Where all groups are regular, and the second pass takes place, none is found exactly when there is no run. */
    lemma ExhaustedIfRegular(g0: nat, start: nat, maximum: nat, minimum: nat)
      requires g0 < |groups| && InShape() && AllRegular(groups, geometry) && 1 <= minimum < maximum
      ensures Exhausted(g0, start, maximum, minimum) <==> forall g, at :: 0 <= g < |groups| && 0 <= at ==> !FreeHere(g, at, minimum)
    {
      hide Used, Shaped, AllAre, FreeRun, Missed, Regular;
      GroupsFit();
      Inhabited();
      if Exhausted(g0, start, maximum, minimum) {
        forall g, at | 0 <= g < |groups| && 0 <= at ensures !FreeHere(g, at, minimum) {
          MissedIfRegular(groups[g].numBits, geometry.BitsPerBlock(), groups[g].firstFree, 0);
          if FreeHere(g, at, minimum) {
            NotDone(g0, 0, g, at, minimum, minimum);
          }
        }
      }
      if forall g, at :: 0 <= g < |groups| && 0 <= at ==> !FreeHere(g, at, minimum) {
        forall h | 0 <= h < |groups|
          ensures GroupDone(bitmap[..], h, g0, start, maximum) && GroupDone(bitmap[..], h, g0, 0, minimum) {
          NothingHere(h, minimum, Unsearched(h, if h == g0 then start else 0), maximum);
          NothingHere(h, minimum, Unsearched(h, 0), minimum);
        }
      }
    }

    lemma NothingHere(h: nat, minimum: nat, from: nat, length: nat)
      requires h < |groups| && InShape() && End(groups, h) <= 32 * bitmap.Length && minimum <= length
      requires forall at :: 0 <= at ==> !FreeHere(h, at, minimum)
      ensures NoRun(bitmap[..], First(groups, h) + from, End(groups, h), length)
    {
      hide Used, Shaped, AllAre, FreeRun;
      forall s: nat | First(groups, h) + from <= s && s + length <= End(groups, h) ensures !FreeRun(bitmap[..], s, length) {
        assert !FreeHere(h, s - First(groups, h), minimum);
        if FreeRun(bitmap[..], s, length) {
          SubRun(bitmap[..], s, length, minimum);
        }
      }
    }

    /** The only free block of a group is the first of its last bitmap block. */
    ghost predicate OneLeft(g: nat)
      requires InShape() && g < |groups| && geometry.wordsPerBlock > 0
      reads bitmap
    {
      var last := Times(groups[g].numBits / geometry.BitsPerBlock(), geometry.BitsPerBlock());
      && End(groups, g) <= 32 * bitmap.Length
      && forall n {:trigger Used(bitmap[..], n)} :: First(groups, g) <= n < End(groups, g) ==>
           (Used(bitmap[..], n) <==> n != First(groups, g) + last)
    }

    /** In any group that is not regular, blocks that are in use can be handed out: whatever is found in it, when only
        that block is free, is reported as another one. */
    lemma IrregularHandsOutUsed(g: nat, at: nat, length: nat)
      requires InShape() && g < |groups| && geometry.wordsPerBlock > 0 && OneLeft(g)
      requires !Regular(groups[g].numBits, geometry.BitsPerBlock()) && length > 0 && FreeHere(g, at, length)
      ensures !FreeHere(g, Reported(groups[g].numBits, geometry.BitsPerBlock(), at), length)
    {
      hide Times, Shaped, Reported, Regular, Used;
      var numBits, bitsPerBlock := groups[g].numBits, geometry.BitsPerBlock();
      var last := Times(numBits / bitsPerBlock, bitsPerBlock);
      ReportedTooLow(numBits, bitsPerBlock);
      assert !Used(bitmap[..], First(groups, g) + at);
      assert at == last;
      assert Used(bitmap[..], First(groups, g) + Reported(numBits, bitsPerBlock, last));
    }

    lemma Distinct(g: nat)
      requires InShape() && g < |groups|
      ensures forall h :: 0 <= h < |groups| && h != g ==> groups[h] != groups[g]
    {
      forall h | 0 <= h < |groups| && h != g ensures groups[h] != groups[g] {
        if h < g { assert groups[h] != groups[g]; }
      }
    }

    /** Exactly the blocks of the run have been set to `value`. */
    ghost predicate RunMarked(before: seq<Word>, after: seq<Word>, run: BlockRun, value: bool) {
      && run.group < |groups|
      && Marked(before, after, First(groups, run.group) + run.start, First(groups, run.group) + run.start + run.length, value)
    }

    /** A run that lies inside its group and is not empty. */
    predicate Inside(run: BlockRun) {
      && run.group < |groups|
      && run.start <= groups[run.group].numBits
      && run.start + run.length <= groups[run.group].numBits
      && run.length != 0
    }

    /** The checks Free makes. */
    predicate MayFree(run: BlockRun) {
      Inside(run) && !(run.group == 0 && run.start < geometry.reserved)
    }

    /** All blocks of the run are in use, or all are free. */
    ghost predicate AllAllocated(run: BlockRun, taken: bool)
      requires Inside(run)
      reads bitmap
    {
      var from := First(groups, run.group) + run.start;
      from + run.length <= 32 * bitmap.Length && AllAre(bitmap[..], from, from + run.length, taken)
    }

    ghost predicate InUse(run: BlockRun)
      requires Inside(run)
      reads bitmap
    {
      AllAllocated(run, true)
    }

    /** Gives a run back; the accounting survives exactly when all of the run was in use. */
    method Free(run: BlockRun) returns (ok: bool)
      requires Valid()
      modifies bitmap, groups, `usedBlocks
      ensures ok <==> MayFree(run)
      ensures !ok ==> unchanged(this) && unchanged(bitmap) && forall g :: 0 <= g < |groups| ==> unchanged(groups[g])
      ensures ok ==> RunMarked(old(bitmap[..]), bitmap[..], run, false) && usedBlocks == old(usedBlocks) - run.length
      ensures ok ==> (Valid() <==> old(InUse(run)))
    {
      hide Times, Used, Marked, Accurate, Shaped, AllAre;
      if (run.group >= |groups| || run.start > groups[run.group].numBits
          || run.start + run.length > groups[run.group].numBits || run.length == 0) {
        return false;
      }
      if run.group == 0 && run.start < geometry.reserved {
        return false;
      }
      GroupFits(run.group);
      ghost var was, from: nat := bitmap[..], First(groups, run.group) + run.start;
      ok := groups[run.group].Free(bitmap, geometry.wordsPerBlock, run.start, run.length);
      usedBlocks := usedBlocks - run.length;
      Distinct(run.group);
      CountCleared(was, bitmap[..], 0, from, from + run.length, geometry.numBlocks);
      if AllAre(was, from, from + run.length, true) {
        OthersAccurate(was, run.group, run.start, run.length, false);
      }
    }

    /** A bit of a group below its size is in one of the group's bitmap blocks. */
    lemma InsideBlock(g: nat, block: nat, pos: nat)
      requires InShape() && g < |groups| && Times(block, geometry.BitsPerBlock()) + pos < groups[g].numBits
      ensures geometry.wordsPerBlock > 0 && block < geometry.blocksPerGroup
      ensures (BlockBits(groups[g].numBits, geometry.BitsPerBlock(), block) ==
               if Times(block, geometry.BitsPerBlock()) + geometry.BitsPerBlock() <= groups[g].numBits then geometry.BitsPerBlock()
               else groups[g].numBits - Times(block, geometry.BitsPerBlock()))
    {
      hide Times, BlockBits;
      GroupFits(g);
      BlockBitsAre(groups[g].numBits, geometry.BitsPerBlock(), block);
      if block >= geometry.blocksPerGroup {
        TimesMonotone(geometry.blocksPerGroup, block, geometry.BitsPerBlock());
      }
    }

    /** CheckBlockRun without a check control: whether all of the run is (or is not) allocated. */
    method CheckAllocated(run: BlockRun, taken: bool) returns (ok: bool)
      requires InShape()
      ensures ok <==> Inside(run) && AllAllocated(run, taken)
    {
      hide Times, Used, Shaped, BlockBits;
      if (run.group >= |groups| || run.start > groups[run.group].numBits
          || run.start + run.length > groups[run.group].numBits || run.length == 0) {
        return false;
      }
      var group, bitsPerBlock := groups[run.group], geometry.BitsPerBlock();
      GroupFits(run.group);
      ghost var from := First(groups, run.group) + run.start;
      Divided(run.start, bitsPerBlock);
      var block: nat, pos: nat, length: nat := run.start / bitsPerBlock, run.start % bitsPerBlock, 0;
      while block < geometry.blocksPerGroup && length < run.length
        invariant length <= run.length
        invariant length < run.length ==> Times(block, bitsPerBlock) + pos == run.start + length && pos < bitsPerBlock
        invariant AllAre(bitmap[..], from, from + length, taken)
      {
        InsideBlock(run.group, block, pos);
        var bits := BlockBits(group.numBits, bitsPerBlock, block);
        while length < run.length && pos < bits
          invariant length <= run.length && pos <= bits && Times(block, bitsPerBlock) + pos == run.start + length
          invariant AllAre(bitmap[..], from, from + length, taken)
        {
          TimesWords(block, geometry.wordsPerBlock);
          var word := group.baseWord + Times(block, geometry.wordsPerBlock) + pos / 32;
          assert 32 * word + pos % 32 == from + length;
          UsedIs(bitmap[..], word, pos % 32);
          if bitmap[word][pos % 32] != taken {
            assert Used(bitmap[..], from + length) != taken;
            return false;
          }
          length, pos := length + 1, pos + 1;
        }
        TimesStep(block, bitsPerBlock);
        block, pos := block + 1, 0;
      }
      if length < run.length {
        InsideBlock(run.group, block, pos);
      }
      return true;
    }

    /** All groups' counters are as their constructor leaves them. */
    ghost predicate Unscanned()
      reads groups
    {
      forall g {:trigger groups[g]} :: 0 <= g < |groups| ==>
        groups[g].firstFree == groups[g].largest == groups[g].largestFirst == -1 && groups[g].freeBits == 0
    }

    /** Scans all groups for what is free in them. */
    method ScanGroups() returns (freeBlocks: int)
      requires InShape() && Unscanned()
      modifies groups
      ensures InShape() && bitmap[..] == old(bitmap[..]) && forall h :: 0 <= h < |groups| ==> groups[h].IsAccurate(bitmap[..])
      ensures Behind(|groups|) <= 32 * bitmap.Length
      ensures freeBlocks == Behind(|groups|) - CountUsed(bitmap[..], 0, Behind(|groups|))
    {
      hide Times, Used, Marked, GroupShaped, Accurate, Scanned;
      ghost var words := bitmap[..];
      freeBlocks := 0;
      var g := 0;
      BehindIsFirst(0);
      while g < |groups|
        invariant 0 <= g <= |groups| && bitmap[..] == words
        invariant forall h :: 0 <= h < g ==> groups[h].IsAccurate(words)
        invariant (forall h {:trigger groups[h]} :: g <= h < |groups| ==>
                     groups[h].firstFree == groups[h].largest == groups[h].largestFirst == -1 && groups[h].freeBits == 0)
        invariant Behind(g) <= 32 * |words| && freeBlocks == Behind(g) - CountUsed(words, 0, Behind(g))
      {
        GroupFits(g);
        Distinct(g);
        groups[g].Scan(bitmap);
        var group := groups[g];
        ScannedIsAccurate(words, First(groups, g), group.numBits, group.firstFree, group.largest, group.largestFirst, group.freeBits);
        BehindIsFirst(g);
        CountJoin(words, 0, First(groups, g), End(groups, g));
        freeBlocks := freeBlocks + groups[g].freeBits;
        g := g + 1;
      }
    }

    /** Reads the bitmap of a volume that is being mounted. When the boot block, bitmap and log are not all
        marked as used, they are marked, but the volume's count has been taken before: the accounting comes
        out right exactly when they were in use. */
    method Initialize()
      requires InShape() && Unscanned()
      modifies bitmap, groups, `usedBlocks
      ensures RunMarked(old(bitmap[..]), bitmap[..], BlockRun(0, 0, geometry.reserved), true)
      ensures Inside(BlockRun(0, 0, geometry.reserved)) && (Valid() <==> old(InUse(BlockRun(0, 0, geometry.reserved))))
    {
      hide Times, Used, Marked, GroupShaped, Accurate, Scanned;
      ghost var words := bitmap[..];
      Inhabited();
      BehindIsFirst(0);
      var freeBlocks := ScanGroups();
      var reserved := BlockRun(0, 0, geometry.reserved);
      GroupFits(0);
      var ok := CheckAllocated(reserved, true);
      if ok {
        AlreadyMarked(words, 0, geometry.reserved);
      } else {
        var done := groups[0].Allocate(bitmap, geometry.wordsPerBlock, 0, geometry.reserved);
        CountSet(words, bitmap[..], 0, 0, geometry.reserved, geometry.numBlocks);
      }
      usedBlocks := geometry.numBlocks - freeBlocks;
    }

    /** What InitializeAndClearBitmap leaves in a group: everything free. */
    ghost predicate AllFree(words: seq<Word>)
      reads groups
    {
      && (forall n :: 0 <= n < 32 * |words| ==> !Used(words, n))
      && (forall g {:trigger groups[g]} :: 0 <= g < |groups| ==>
            groups[g].firstFree == groups[g].largestFirst == 0 && groups[g].freeBits == groups[g].largest == groups[g].numBits)
    }

    /** Clears the bitmap of a new volume and reserves the boot block, the bitmap and the log. */
    method InitializeAndClearBitmap()
      requires InShape() && Unscanned()
      modifies bitmap, groups, `usedBlocks
      ensures Valid()
      ensures forall n :: 0 <= n < 32 * bitmap.Length ==> (Used(bitmap[..], n) <==> n < geometry.reserved)
    {
      hide Times, Shaped, Marked, Used, AllAre, Accurate, RunMarked;
      ReservedInside();
      for k := 0 to bitmap.Length
        invariant forall i :: 0 <= i < k ==> bitmap[i] == NO_BITS
      {
        bitmap[k] := NO_BITS;
      }
      Inhabited();
      for g := 0 to |groups|
        modifies groups
        invariant forall h {:trigger groups[h]} :: 0 <= h < g ==>
          groups[h].firstFree == groups[h].largestFirst == 0 && groups[h].freeBits == groups[h].largest == groups[h].numBits
      {
        Distinct(g);
        groups[g].firstFree, groups[g].largestFirst := 0, 0;
        groups[g].freeBits, groups[g].largest := groups[g].numBits, groups[g].numBits;
      }
      ghost var words := bitmap[..];
      GroupFits(0);
      BehindIsFirst(0);
      AllClear(words);
      ClearedAccurate(words);
      CountAll(words, 0, geometry.numBlocks, false);
      var ok := groups[0].Allocate(bitmap, geometry.wordsPerBlock, 0, geometry.reserved);
      usedBlocks := geometry.reserved;
      Distinct(0);
      OthersAccurate(words, 0, 0, geometry.reserved, true);
      CountMarked(words, bitmap[..], 0, 0, geometry.reserved, geometry.numBlocks, true);
      MarkedFromClear(words, bitmap[..], geometry.reserved);
    }

    lemma ReservedInside()
      requires InShape()
      ensures Inside(BlockRun(0, 0, geometry.reserved))
    {
    }

    lemma AllClear(words: seq<Word>)
      requires forall i :: 0 <= i < |words| ==> words[i] == NO_BITS
      ensures forall n :: 0 <= n < 32 * |words| ==> !Used(words, n)
      ensures forall b: nat {:trigger AllAre(words, 0, b, false)} :: b <= 32 * |words| ==> AllAre(words, 0, b, false)
    {
    }

    lemma ClearedAccurate(words: seq<Word>)
      requires InShape() && AllFree(words) && |words| == bitmap.Length
      ensures GroupsAccurate(words)
    {
      hide Shaped, Used;
      forall g | 0 <= g < |groups| ensures groups[g].IsAccurate(words) {
        GroupFits(g);
        CountAll(words, First(groups, g), End(groups, g), false);
      }
    }

    lemma MarkedFromClear(v: seq<Word>, w: seq<Word>, to: nat)
      requires (forall n :: 0 <= n < 32 * |v| ==> !Used(v, n)) && Marked(v, w, 0, to, true)
      ensures forall n :: 0 <= n < 32 * |w| ==> (Used(w, n) <==> n < to)
    {
    }

    // ---- conservation ----

    /** The free blocks the first `k` groups report. */
    ghost function ReportedFree(k: nat): int
      requires k <= |groups|
      reads groups
    {
      if k == 0 then 0 else ReportedFree(k - 1) + groups[k - 1].freeBits
    }

    lemma {:induction false} ReportedFreeIs(k: nat)
      requires InShape() && GroupsAccurate(bitmap[..]) && k <= |groups|
      ensures Behind(k) <= 32 * bitmap.Length && ReportedFree(k) == Behind(k) - CountUsed(bitmap[..], 0, Behind(k))
    {
      hide Times, Used, Shaped;
      if k > 0 {
        ReportedFreeIs(k - 1);
        GroupFits(k - 1);
        BehindIsFirst(k - 1);
        assert groups[k - 1].IsAccurate(bitmap[..]);
        CountJoin(bitmap[..], 0, First(groups, k - 1), End(groups, k - 1));
      }
    }

    /** The volume's used blocks and the groups' free blocks add up to the volume. */
    lemma Conserved()
      requires Valid()
      ensures usedBlocks + ReportedFree(|groups|) == geometry.numBlocks
    {
      hide Times, Used, GroupShaped;
      ReportedFreeIs(|groups|);
      assert Behind(|groups|) == geometry.numBlocks;
    }

    /** The first block behind the groups below `g`. */
    ghost function Behind(g: nat): nat
      requires g <= |groups|
    {
      if g == 0 then 0 else End(groups, g - 1)
    }

    lemma BehindIsFirst(g: nat)
      requires InShape() && g < |groups|
      ensures Behind(g) == First(groups, g)
    {
      hide Times;
      assert GroupShaped(groups, geometry, g);
      TimesStep(0, geometry.GroupSize());
      if g > 0 {
        assert GroupShaped(groups, geometry, g - 1);
        TimesStep(g - 1, geometry.GroupSize());
      }
    }

    lemma AlreadyMarked(words: seq<Word>, from: nat, to: nat)
      requires from <= to <= 32 * |words| && AllAre(words, from, to, true)
      ensures Marked(words, words, from, to, true)
    {
      hide Used;
    }

    lemma Inhabited()
      requires InShape()
      ensures |groups| > 0 && geometry.wordsPerBlock > 0
    {
    }
  }

  /** A group with a free block has its hint inside. */
  lemma HintInside(words: seq<Word>, first: nat, numBits: nat, firstFree: int, freeBits: int)
    requires Accurate(words, first, numBits, firstFree, freeBits) && freeBits != 0
    ensures firstFree < numBits
  {
    hide Used;
    if firstFree == numBits {
      CountAll(words, first, first + numBits, true);
    }
  }
}
