/** The search for a free run inside one allocation group (BlockAllocator.cpp, the two inner loops of
    AllocateBlocks), and where it reports a run to begin. */
module RunSearch {
  import opened BitmapWords
  import opened AllocationGroups

  /** The start AllocateBlocks computes for a run that begins at bit `s` of the group: it multiplies by
      the size of this bitmap block, not by that of the ones before it. */
  function Reported(numBits: nat, bitsPerBlock: nat, s: nat): nat
    requires bitsPerBlock > 0
  {
    Times(s / bitsPerBlock, BlockBits(numBits, bitsPerBlock, s / bitsPerBlock)) + s % bitsPerBlock
  }

  /** Where the search begins that was asked to begin at bit `s`. */
  function ScanStart(numBits: nat, bitsPerBlock: nat, s: nat): nat
    requires bitsPerBlock > 0 && BlockBits(numBits, bitsPerBlock, s / bitsPerBlock) > 0
  {
    Times(s / bitsPerBlock, bitsPerBlock) + s % BlockBits(numBits, bitsPerBlock, s / bitsPerBlock)
  }

  /** The group has one bitmap block, or fills all of its bitmap blocks. */
  predicate Regular(numBits: nat, bitsPerBlock: nat)
    requires bitsPerBlock > 0
  {
    numBits <= bitsPerBlock || numBits % bitsPerBlock == 0
  }

  lemma RegularBlockBits(numBits: nat, bitsPerBlock: nat, s: nat)
    requires bitsPerBlock > 0 && s < numBits && Regular(numBits, bitsPerBlock)
    ensures s / bitsPerBlock == 0 || BlockBits(numBits, bitsPerBlock, s / bitsPerBlock) == bitsPerBlock
    ensures s < bitsPerBlock ==> BlockBits(numBits, bitsPerBlock, s / bitsPerBlock) > s
  {
    hide Times;
    Divided(s, bitsPerBlock);
    Divided(numBits, bitsPerBlock);
    var block := s / bitsPerBlock;
    BlockBitsAre(numBits, bitsPerBlock, block);
    if numBits > bitsPerBlock {
      var blocks := numBits / bitsPerBlock;
      if block >= blocks {
        TimesMonotone(blocks, block, bitsPerBlock);
        assert false;
      }
      TimesMonotone(block + 1, blocks, bitsPerBlock);
      TimesStep(block, bitsPerBlock);
    } else {
      if block > 0 {
        TimesMonotone(1, block, bitsPerBlock);
        TimesStep(0, bitsPerBlock);
        assert false;
      }
      TimesStep(0, bitsPerBlock);
    }
  }

  lemma RegularStarts(numBits: nat, bitsPerBlock: nat, s: nat)
    requires bitsPerBlock > 0 && s < numBits && Regular(numBits, bitsPerBlock)
    ensures BlockBits(numBits, bitsPerBlock, s / bitsPerBlock) > 0
    ensures ScanStart(numBits, bitsPerBlock, s) == s && Reported(numBits, bitsPerBlock, s) == s
  {
    hide Times, BlockBits;
    RegularBlockBits(numBits, bitsPerBlock, s);
    Divided(s, bitsPerBlock);
    TimesStep(0, bitsPerBlock);
    var bits := BlockBits(numBits, bitsPerBlock, s / bitsPerBlock);
    if s / bitsPerBlock == 0 {
      TimesStep(0, bits);
      Undivided(s, 0, s, bits);
    }
  }

  /** No start is reported too high. */
  lemma ReportedBelow(numBits: nat, bitsPerBlock: nat, s: nat)
    requires bitsPerBlock > 0 && s < numBits
    ensures Reported(numBits, bitsPerBlock, s) <= s
    ensures Regular(numBits, bitsPerBlock) ==> Reported(numBits, bitsPerBlock, s) == s
  {
    hide Regular;
    var block := s / bitsPerBlock;
    Divided(s, bitsPerBlock);
    BlockBitsAre(numBits, bitsPerBlock, block);
    TimesUp(block, BlockBits(numBits, bitsPerBlock, block), bitsPerBlock);
    if Regular(numBits, bitsPerBlock) {
      RegularStarts(numBits, bitsPerBlock, s);
    }
  }

  lemma TimesUp(a: nat, b: nat, c: nat)
    requires b <= c
    ensures Times(a, b) <= Times(a, c)
  {
    assert a * b <= a * c;
  }

  /** Every start is reported right exactly when the group is regular: in an irregular group the first
      block of its last, partial bitmap block is reported too low. */
  lemma ReportedRightIffRegular(numBits: nat, bitsPerBlock: nat)
    requires bitsPerBlock > 0
    ensures (forall s: nat {:trigger Reported(numBits, bitsPerBlock, s)} ::
               s < numBits ==> Reported(numBits, bitsPerBlock, s) == s) <==> Regular(numBits, bitsPerBlock)
  {
    hide Times, BlockBits, Reported, ScanStart;
    if Regular(numBits, bitsPerBlock) {
      forall s: nat | s < numBits ensures Reported(numBits, bitsPerBlock, s) == s {
        RegularStarts(numBits, bitsPerBlock, s);
      }
    } else {
      ReportedTooLow(numBits, bitsPerBlock);
    }
  }

  lemma ReportedTooLow(numBits: nat, bitsPerBlock: nat)
    requires bitsPerBlock > 0 && !Regular(numBits, bitsPerBlock)
    ensures Times(numBits / bitsPerBlock, bitsPerBlock) < numBits
    ensures (Reported(numBits, bitsPerBlock, Times(numBits / bitsPerBlock, bitsPerBlock))
             < Times(numBits / bitsPerBlock, bitsPerBlock))
  {
    var blocks, rest := numBits / bitsPerBlock, numBits % bitsPerBlock;
    Divided(numBits, bitsPerBlock);
    Undivided(Times(blocks, bitsPerBlock), blocks, 0, bitsPerBlock);
    BlockBitsAre(numBits, bitsPerBlock, blocks);
    assert blocks > 0 by {
      if blocks == 0 { assert false; }
    }
    assert blocks * rest < blocks * bitsPerBlock;
  }

  /** How many blocks a pass is content with. */
  function Needed(second: bool, maximum: nat, minimum: nat): nat {
    if second then minimum else maximum
  }

  /** One bitmap block, whose first word is `blockWord`: `origin` is where the search of the group
      began, `end` where this block's loop was left. */
  method ScanBlock(bitmap: array<Word>, blockWord: nat, from: nat, bits: nat, reported: nat, range0: nat,
                   rangeStart0: nat, maximum: nat, minimum: nat, second: bool, ghost origin: nat)
      returns (range: nat, rangeStart: nat, ghost end: nat)
    requires 1 <= minimum <= maximum && from <= bits && 32 * blockWord + bits <= 32 * bitmap.Length
    requires range0 < Needed(second, maximum, minimum) && Streak(bitmap[..], origin, 32 * blockWord + from, range0)
    requires NoRun(bitmap[..], origin, 32 * blockWord + from, Needed(second, maximum, minimum))
    ensures 32 * blockWord + from <= end <= 32 * blockWord + bits && range <= maximum
    ensures Streak(bitmap[..], origin, end, range)
    ensures (range < Needed(second, maximum, minimum) ==>
               end == 32 * blockWord + bits && NoRun(bitmap[..], origin, end, Needed(second, maximum, minimum)))
    ensures (range >= Needed(second, maximum, minimum) ==>
               && NoRun(bitmap[..], origin, end - range + Needed(second, maximum, minimum) - 1, Needed(second, maximum, minimum))
               && 32 * blockWord + from < end - range + Needed(second, maximum, minimum)
               && (range == maximum || end == 32 * blockWord + bits || Used(bitmap[..], end)))
    ensures (range > 0 ==> if end - range < 32 * blockWord + from
                           then range0 > 0 && rangeStart == rangeStart0 && end - range == 32 * blockWord + from - range0
                           else rangeStart == reported + (end - range - 32 * blockWord))
  {
    hide Used, Streak, NoRun, AllAre, FreeRun;
    ghost var words, first: nat, need := bitmap[..], 32 * blockWord, Needed(second, maximum, minimum);
    range, rangeStart := range0, rangeStart0;
    var bit := from;
    StreakFits(words, origin, first + from, range0);
    while bit < bits
      invariant from <= bit <= bits && range < maximum
      invariant Streak(words, origin, first + bit, range)
      invariant range < need ==> NoRun(words, origin, first + bit, need)
      invariant range <= first + bit
      invariant range >= need ==> second && NoRun(words, origin, first + bit - range + need - 1, need)
      invariant (range > 0 ==> if bit - range < from
                               then range0 > 0 && rangeStart == rangeStart0 && bit - range == from - range0
                               else rangeStart == reported + (bit - range))
    {
      UsedIs(words, blockWord + bit / 32, bit % 32);
      assert 32 * (blockWord + bit / 32) + bit % 32 == first + bit;
      if !bitmap[blockWord + bit / 32][bit % 32] {
        if range == 0 {
          rangeStart := reported + bit;
        }
        StreakGrows(words, origin, first + bit, range);
        if range + 1 < need {
          NoRunGrows(words, origin, first + bit, range + 1, need);
        }
        StreakFits(words, origin, first + bit + 1, range + 1);
        range := range + 1;
        if range >= maximum {
          return range, rangeStart, first + bit + 1;
        }
      } else if second && range >= minimum {
        return range, rangeStart, first + bit;
      } else {
        StreakFits(words, origin, first + bit, range);
        StreakEnds(words, origin, first + bit);
        NoRunGrows(words, origin, first + bit, 0, need);
        range := 0;
      }
      bit := bit + 1;
    }
    end := first + bits;
  }

  lemma StreakFits(words: seq<Word>, origin: nat, p: nat, range: nat)
    requires p <= 32 * |words| && Streak(words, origin, p, range)
    ensures origin + range <= p && AllAre(words, p - range, p, false)
  {
  }

  /** No run of `need` blocks begins between `origin` and `at`. */
  ghost predicate FirstAt(words: seq<Word>, origin: nat, at: nat, need: nat) {
    && need > 0 && origin <= at && at + need - 1 <= 32 * |words|
    && NoRun(words, origin, at + need - 1, need)
  }

  /** A run ends with `maximum` blocks, at a block in use, or at the end of the bitmap block in which it became long
      enough. */
  ghost predicate Halts(words: seq<Word>, first: nat, numBits: nat, bitsPerBlock: nat, at: nat, need: nat, length: nat, maximum: nat) {
    && bitsPerBlock > 0 && 0 < need <= length <= maximum && at + length <= numBits && first + numBits <= 32 * |words|
    && var block := (at + need - 1) / bitsPerBlock;
    var end := Times(block, bitsPerBlock) + BlockBits(numBits, bitsPerBlock, block);
    at + length <= end && (length == maximum || at + length == end || (at + length < numBits && Used(words, first + at + length)))
  }

  lemma HaltsHere(words: seq<Word>, first: nat, numBits: nat, bitsPerBlock: nat, at: nat, need: nat, length: nat, maximum: nat, block: nat)
    requires bitsPerBlock > 0 && 0 < need <= length <= maximum && at + length <= numBits && first + numBits <= 32 * |words|
    requires Times(block, bitsPerBlock) < at + need && at + length <= Times(block, bitsPerBlock) + BlockBits(numBits, bitsPerBlock, block)
    requires length == maximum || at + length == Times(block, bitsPerBlock) + BlockBits(numBits, bitsPerBlock, block)
          || (first + at + length < 32 * |words| && Used(words, first + at + length))
    requires BlockBits(numBits, bitsPerBlock, block) <= bitsPerBlock && Times(block, bitsPerBlock) + BlockBits(numBits, bitsPerBlock, block) <= numBits
    ensures Halts(words, first, numBits, bitsPerBlock, at, need, length, maximum)
  {
    hide Times, BlockBits, Used;
    Undivided(at + need - 1, block, at + need - 1 - Times(block, bitsPerBlock), bitsPerBlock);
  }

  /** The search of one group, from bit `start0`. */
  method FindRange(bitmap: array<Word>, group: AllocationGroup, wordsPerBlock: nat, start0: nat,
                   maximum: nat, minimum: nat, second: bool)
      returns (range: nat, rangeStart: nat, ghost at: nat)
    requires 1 <= minimum <= maximum && wordsPerBlock > 0
    requires start0 < group.numBits && 32 * group.baseWord + group.numBits <= 32 * bitmap.Length
    requires 0 < group.numBlocks && group.numBits <= Times(group.numBlocks, 32 * wordsPerBlock)
    requires Times(group.numBlocks - 1, 32 * wordsPerBlock) < group.numBits
    ensures range <= maximum && BlockBits(group.numBits, 32 * wordsPerBlock, start0 / (32 * wordsPerBlock)) > 0
    ensures (range >= Needed(second, maximum, minimum) ==>
               && ScanStart(group.numBits, 32 * wordsPerBlock, start0) <= at && at + range <= group.numBits
               && FreeRun(bitmap[..], 32 * group.baseWord + at, range)
               && rangeStart == Reported(group.numBits, 32 * wordsPerBlock, at)
               && FirstAt(bitmap[..], 32 * group.baseWord + ScanStart(group.numBits, 32 * wordsPerBlock, start0), 32 * group.baseWord + at,
                          Needed(second, maximum, minimum))
               && Halts(bitmap[..], 32 * group.baseWord, group.numBits, 32 * wordsPerBlock, at, Needed(second, maximum, minimum), range,
                        maximum))
    ensures (range < Needed(second, maximum, minimum) ==>
               NoRun(bitmap[..], 32 * group.baseWord + ScanStart(group.numBits, 32 * wordsPerBlock, start0),
                     32 * group.baseWord + group.numBits, Needed(second, maximum, minimum)))
  {
    hide Times, Used, Streak, NoRun, BlockBits, AllAre;
    ghost var words, first: nat := bitmap[..], 32 * group.baseWord;
    var bitsPerBlock: nat, numBits := 32 * wordsPerBlock, group.numBits;
    var start, block := start0, start0 / bitsPerBlock;
    Divided(start0, bitsPerBlock);
    BlockBitsAre(numBits, bitsPerBlock, block);
    FirstBlock(numBits, group.numBlocks, bitsPerBlock, start0);
    ghost var origin: nat := first + ScanStart(numBits, bitsPerBlock, start0);
    var need := Needed(second, maximum, minimum);
    range, rangeStart, at := 0, 0, 0;
    ghost var p: nat := origin;
    NothingScanned(words, origin);
    NothingFound(words, origin, need);
    while block < group.numBlocks
      invariant block <= group.numBlocks && range < need
      invariant block == group.numBlocks ==> p == first + numBits
      invariant (block < group.numBlocks ==>
                   && BlockBits(numBits, bitsPerBlock, block) > 0 && Times(block, bitsPerBlock) < numBits
                   && p == first + Times(block, bitsPerBlock) + start % BlockBits(numBits, bitsPerBlock, block))
      invariant origin <= p <= first + numBits && origin + range <= p
      invariant Streak(words, origin, p, range) && NoRun(words, origin, p, need)
      invariant range > 0 ==> rangeStart == Reported(numBits, bitsPerBlock, p - range - first)
    {
      var bits := BlockBits(numBits, bitsPerBlock, block);
      BlockBitsAre(numBits, bitsPerBlock, block);
      TimesWords(block, wordsPerBlock);
      ghost var before, rangeBefore := p, range;
      range, rangeStart, p := ScanBlock(bitmap, group.baseWord + Times(block, wordsPerBlock), start % bits, bits,
                                        Times(block, bits), range, rangeStart, maximum, minimum, second, origin);
      StreakFits(words, origin, p, range);
      if range > 0 {
        ReportedHere(numBits, bitsPerBlock, block, p - range - first, before - first, rangeStart);
      }
      if range >= need {
        at := p - range - first;
        HaltsHere(words, first, numBits, bitsPerBlock, at, need, range, maximum, block);
        assert 32 * group.baseWord + at == p - range;
        return;
      }
      NextBlock(numBits, group.numBlocks, bitsPerBlock, block);
      start := 0;
      block := block + 1;
    }
  }

  lemma NothingFound(words: seq<Word>, at: nat, length: nat)
    requires at <= 32 * |words| && length > 0
    ensures NoRun(words, at, at, length)
  {
  }

  /** The block the search begins in. */
  lemma FirstBlock(numBits: nat, numBlocks: nat, bitsPerBlock: nat, start: nat)
    requires bitsPerBlock > 0 && start < numBits <= Times(numBlocks, bitsPerBlock)
    ensures start / bitsPerBlock < numBlocks && Times(start / bitsPerBlock, bitsPerBlock) <= start
    ensures BlockBits(numBits, bitsPerBlock, start / bitsPerBlock) > 0
    ensures ScanStart(numBits, bitsPerBlock, start) < numBits
  {
    hide Times, BlockBits;
    var block := start / bitsPerBlock;
    Divided(start, bitsPerBlock);
    BlockBitsAre(numBits, bitsPerBlock, block);
    if block >= numBlocks {
      TimesMonotone(numBlocks, block, bitsPerBlock);
    }
  }

  /** Leaving a block: the next one begins where it ends, and the last one ends the group. */
  lemma NextBlock(numBits: nat, numBlocks: nat, bitsPerBlock: nat, block: nat)
    requires bitsPerBlock > 0 && block < numBlocks && numBits <= Times(numBlocks, bitsPerBlock)
    requires Times(block, bitsPerBlock) < numBits && Times(numBlocks - 1, bitsPerBlock) < numBits
    ensures block + 1 == numBlocks ==> Times(block, bitsPerBlock) + BlockBits(numBits, bitsPerBlock, block) == numBits
    ensures (block + 1 < numBlocks ==>
               && Times(block + 1, bitsPerBlock) == Times(block, bitsPerBlock) + BlockBits(numBits, bitsPerBlock, block)
               && Times(block + 1, bitsPerBlock) < numBits && BlockBits(numBits, bitsPerBlock, block + 1) > 0)
  {
    hide Times, BlockBits;
    BlockBitsAre(numBits, bitsPerBlock, block);
    TimesStep(block, bitsPerBlock);
    if block + 1 < numBlocks {
      TimesMonotone(block + 1, numBlocks - 1, bitsPerBlock);
      BlockBitsAre(numBits, bitsPerBlock, block + 1);
    }
  }

  /** A run that began in this block is reported with this block's size. */
  lemma ReportedHere(numBits: nat, bitsPerBlock: nat, block: nat, s: nat, before: nat, rangeStart: nat)
    requires bitsPerBlock > 0 && Times(block, bitsPerBlock) <= before && s < Times(block, bitsPerBlock) + bitsPerBlock
    requires (if s < before then rangeStart == Reported(numBits, bitsPerBlock, s)
              else rangeStart == Times(block, BlockBits(numBits, bitsPerBlock, block)) + (s - Times(block, bitsPerBlock)))
    ensures rangeStart == Reported(numBits, bitsPerBlock, s)
  {
    hide Times, BlockBits;
    if s >= before {
      Undivided(s, block, s - Times(block, bitsPerBlock), bitsPerBlock);
    }
  }
}
