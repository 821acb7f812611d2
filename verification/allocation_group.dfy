/** Allocation groups: their counters, their part of the block bitmap, and the scan that fills the
    counters at mount time (BlockAllocator.cpp, AllocationGroup and one turn of _Initialize). */
module AllocationGroups {
  import opened BitmapWords

  function Times(a: nat, b: nat): nat { a * b }

  lemma TimesStep(a: nat, b: nat)
    ensures Times(a + 1, b) == Times(a, b) + b && Times(0, b) == 0 && Times(1, b) == b
  {
  }

  lemma {:induction false} TimesMonotone(a: nat, c: nat, b: nat)
    requires a <= c
    ensures Times(a, b) <= Times(c, b)
  {
    if a < c {
      TimesMonotone(a, c - 1, b);
      TimesStep(c - 1, b);
    }
  }

  lemma TimesWords(a: nat, words: nat)
    ensures Times(a, 32 * words) == 32 * Times(a, words)
  {
    assert a * (32 * words) == 32 * (a * words);
  }

  lemma {:induction false} Divided(n: nat, b: nat)
    requires b > 0
    ensures n == Times(n / b, b) + n % b && n % b < b
  {
  }

  lemma Undivided(n: nat, a: nat, r: nat, b: nat)
    requires b > 0 && n == Times(a, b) + r && r < b
    ensures n / b == a && n % b == r
  {
    var q := n / b;
    Divided(n, b);
    if q < a {
      TimesMonotone(q + 1, a, b);
      TimesStep(q, b);
    } else if q > a {
      TimesMonotone(a + 1, q, b);
      TimesStep(a, b);
    }
  }

  /** AllocationBlock::SetTo: how many bits the group has in its bitmap block `block`. */
  function BlockBits(numBits: nat, bitsPerBlock: nat, block: nat): nat
    requires bitsPerBlock > 0
  {
    if Times(block + 1, bitsPerBlock) > numBits then numBits % bitsPerBlock else bitsPerBlock
  }

  lemma BlockBitsAre(numBits: nat, bitsPerBlock: nat, block: nat)
    requires bitsPerBlock > 0 && Times(block, bitsPerBlock) < numBits
    ensures BlockBits(numBits, bitsPerBlock, block)
         == if Times(block, bitsPerBlock) + bitsPerBlock <= numBits then bitsPerBlock else numBits - Times(block, bitsPerBlock)
  {
    hide Times;
    TimesStep(block, bitsPerBlock);
    var rest := numBits - Times(block, bitsPerBlock);
    if rest < bitsPerBlock {
      Undivided(numBits, block, rest, bitsPerBlock);
    }
  }

  /** The counters of a group whose first bit is number `first` of the bitmap are right: the number of
      free blocks is, and nothing below `firstFree` is free. */
  ghost predicate Accurate(words: seq<Word>, first: nat, numBits: nat, firstFree: int, freeBits: int) {
    && first + numBits <= 32 * |words|
    && -1 <= firstFree <= numBits
    && freeBits == numBits - CountUsed(words, first, first + numBits)
    && AllAre(words, first, first + (if firstFree > 0 then firstFree else 0), true)
  }

  lemma AccurateAfterAllocate(v: seq<Word>, w: seq<Word>, first: nat, numBits: nat, firstFree: int, freeBits: int,
                              start: nat, length: nat)
    requires Accurate(v, first, numBits, firstFree, freeBits) && start + length <= numBits
    requires AllAre(v, first + start, first + start + length, false)
    requires Marked(v, w, first + start, first + start + length, true)
    ensures Accurate(w, first, numBits, if start == firstFree then start + length else firstFree, freeBits - length)
  {
    hide Used;
    CountMarked(v, w, first, first + start, first + start + length, first + numBits, true);
  }

  lemma AccurateAfterFree(v: seq<Word>, w: seq<Word>, first: nat, numBits: nat, firstFree: int, freeBits: int,
                          start: nat, length: nat)
    requires Accurate(v, first, numBits, firstFree, freeBits) && start + length <= numBits
    requires AllAre(v, first + start, first + start + length, true)
    requires Marked(v, w, first + start, first + start + length, false)
    ensures Accurate(w, first, numBits, if firstFree > start then start else firstFree, freeBits + length)
  {
    hide Used;
    CountMarked(v, w, first, first + start, first + start + length, first + numBits, false);
  }

  lemma AccurateElsewhere(v: seq<Word>, w: seq<Word>, first: nat, numBits: nat, firstFree: int, freeBits: int,
                          from: nat, to: nat, value: bool)
    requires Accurate(v, first, numBits, firstFree, freeBits)
    requires Marked(v, w, from, to, value) && (first + numBits <= from || to <= first)
    ensures Accurate(w, first, numBits, firstFree, freeBits)
  {
    hide Used;
    CountElsewhere(v, w, first, first + numBits, from, to, value);
  }

  // ---- free runs ----

  ghost predicate FreeRun(words: seq<Word>, at: nat, length: nat)
    requires at + length <= 32 * |words|
  {
    AllAre(words, at, at + length, false)
  }

  /** No `length` blocks in a row are free between `a` and `b`. */
  ghost predicate NoRun(words: seq<Word>, a: nat, b: nat, length: nat)
    requires b <= 32 * |words|
  {
    forall s: nat {:trigger FreeRun(words, s, length)} :: a <= s && s + length <= b ==> !FreeRun(words, s, length)
  }

  /** The `range` blocks before `p` are free, and no more of them since `origin`. */
  ghost predicate Streak(words: seq<Word>, origin: nat, p: nat, range: nat)
    requires p <= 32 * |words|
  {
    && origin + range <= p
    && AllAre(words, p - range, p, false)
    && (p - range == origin || Used(words, p - range - 1))
  }

  lemma StreakGrows(words: seq<Word>, origin: nat, p: nat, range: nat)
    requires p < 32 * |words| && Streak(words, origin, p, range) && !Used(words, p)
    ensures Streak(words, origin, p + 1, range + 1)
  {
    hide Used;
  }

  lemma StreakEnds(words: seq<Word>, origin: nat, p: nat)
    requires origin <= p < 32 * |words| && Used(words, p)
    ensures Streak(words, origin, p + 1, 0)
  {
  }

  /** One more block makes no run of `length` as long as the streak is shorter. */
  lemma NoRunGrows(words: seq<Word>, origin: nat, p: nat, range: nat, length: nat)
    requires p < 32 * |words| && NoRun(words, origin, p, length) && Streak(words, origin, p + 1, range)
    requires range < length
    ensures NoRun(words, origin, p + 1, length)
  {
    hide Used;
    forall s: nat | origin <= s && s + length <= p + 1 ensures !FreeRun(words, s, length) {
      if s + length == p + 1 {
        assert s <= p - range < s + length && Used(words, p - range);
      }
    }
  }

  // ---- the scan at mount time ----

  /** What the counters of a group say about its bits below `upto`, as the scan has seen them. */
  ghost predicate Scanned(words: seq<Word>, first: nat, upto: nat, firstFree: int, largest: int, largestFirst: int, freeBits: int)
    requires upto <= 32 * |words|
  {
    && first <= upto
    && freeBits == upto - first - CountUsed(words, first, upto)
    && FirstFound(words, first, upto, firstFree)
    && LargestFound(words, first, upto, largest, largestFirst)
  }

  /** `firstFree` is the first free block, or -1 when there is none. */
  ghost predicate FirstFound(words: seq<Word>, first: nat, upto: nat, firstFree: int)
    requires upto <= 32 * |words|
  {
    if firstFree == -1 then AllAre(words, first, upto, true)
    else 0 <= firstFree < upto - first && !Used(words, first + firstFree) && AllAre(words, first, first + firstFree, true)
  }

  /** `largest` is the length of a longest free run and `largestFirst` where it begins, or both are -1. */
  ghost predicate LargestFound(words: seq<Word>, first: nat, upto: nat, largest: int, largestFirst: int)
    requires upto <= 32 * |words|
  {
    if largest == -1 then largestFirst == -1 && NoRun(words, first, upto, 1)
    else (&& 0 < largest && 0 <= largestFirst && largestFirst + largest <= upto - first
          && FreeRun(words, first + largestFirst, largest) && NoRun(words, first, upto, largest + 1))
  }

  lemma ScannedUsed(words: seq<Word>, first: nat, p: nat, firstFree: int, largest: int, largestFirst: int, freeBits: int)
    requires p < 32 * |words| && Scanned(words, first, p, firstFree, largest, largestFirst, freeBits) && Used(words, p)
    ensures Scanned(words, first, p + 1, firstFree, largest, largestFirst, freeBits)
  {
    hide Used;
    var over := if largest == -1 then 1 else largest + 1;
    forall s: nat | first <= s && s + over <= p + 1 ensures !FreeRun(words, s, over) {
      if s + over == p + 1 {
        assert Used(words, p) && s <= p < s + over;
      }
    }
  }

  /** Adding the range the scan has just left. */
  lemma ScannedRange(words: seq<Word>, first: nat, p: nat, range: nat, firstFree: int, largest: int, largestFirst: int, freeBits: int)
    requires p <= 32 * |words| && range > 0 && Streak(words, first, p, range)
    requires Scanned(words, first, p - range, firstFree, largest, largestFirst, freeBits)
    ensures Scanned(words, first, p, if firstFree == -1 then p - range - first else firstFree,
                    if largest < range then range else largest,
                    if largest < range then p - range - first else largestFirst, freeBits + range)
  {
    hide Used;
    var start := p - range;
    CountJoin(words, first, start, p);
    CountAll(words, start, p, false);
    assert !Used(words, start);
    var over := if largest == -1 then 1 else largest + 1;
    var most := if largest < range then range + 1 else largest + 1;
    NoRunAcross(words, first, p, range, over, most);
  }

  /** A run longer than the streak, and as long as none before it, does not end in it. */
  lemma NoRunAcross(words: seq<Word>, first: nat, p: nat, range: nat, over: nat, length: nat)
    requires p <= 32 * |words| && Streak(words, first, p, range) && range < length && over <= length
    requires NoRun(words, first, p - range, over)
    ensures NoRun(words, first, p, length)
  {
    hide Used;
    forall s: nat | first <= s && s + length <= p ensures !FreeRun(words, s, length) {
      if s + length > p - range {
        assert s <= p - range - 1 < s + length && Used(words, p - range - 1);
      } else {
        assert !FreeRun(words, s, over);
      }
    }
  }

  lemma NothingScanned(words: seq<Word>, first: nat)
    requires first <= 32 * |words|
    ensures Scanned(words, first, first, -1, -1, -1, 0) && Streak(words, first, first, 0)
  {
  }

  lemma UsedIs(words: seq<Word>, word: nat, bit: nat)
    requires word < |words| && bit < 32
    ensures Used(words, 32 * word + bit) == words[word][bit]
  {
  }

  lemma ScannedIsAccurate(words: seq<Word>, first: nat, numBits: nat, firstFree: int, largest: int, largestFirst: int, freeBits: int)
    requires first + numBits <= 32 * |words|
    requires Scanned(words, first, first + numBits, firstFree, largest, largestFirst, freeBits)
    ensures Accurate(words, first, numBits, firstFree, freeBits)
  {
  }

  /** AllocationGroup: a group of blocks, and the word of the bitmap where its bits begin. */
  class AllocationGroup {
    const baseWord: nat
    const numBits: nat
    const numBlocks: nat
    var firstFree: int
    var largest: int
    var largestFirst: int
    var freeBits: int

    constructor (baseWord: nat, numBits: nat, numBlocks: nat)
      ensures this.baseWord == baseWord && this.numBits == numBits && this.numBlocks == numBlocks
      ensures firstFree == largest == largestFirst == -1 && freeBits == 0
    {
      this.baseWord, this.numBits, this.numBlocks := baseWord, numBits, numBlocks;
      firstFree, largest, largestFirst, freeBits := -1, -1, -1, 0;
    }

    ghost predicate IsAccurate(words: seq<Word>)
      reads `firstFree, `freeBits
    {
      Accurate(words, 32 * baseWord, numBits, firstFree, freeBits)
    }

    method AddFreeRange(start: nat, blocks: nat)
      modifies `firstFree, `largest, `largestFirst, `freeBits
      ensures firstFree == if old(firstFree) == -1 then start else old(firstFree)
      ensures freeBits == old(freeBits) + blocks
      ensures largest == if old(largest) < blocks then blocks else old(largest)
      ensures largestFirst == if old(largest) < blocks then start else old(largestFirst)
    {
      if firstFree == -1 {
        firstFree := start;
      }
      if largest < blocks {
        largest := blocks;
        largestFirst := start;
      }
      freeBits := freeBits + blocks;
    }

    /** Reads the bitmap and adds every free range (one turn of the loop in _Initialize). */
    method Scan(bitmap: array<Word>)
      requires 32 * baseWord + numBits <= 32 * bitmap.Length
      requires firstFree == largest == largestFirst == -1 && freeBits == 0
      modifies `firstFree, `largest, `largestFirst, `freeBits
      ensures Scanned(bitmap[..], 32 * baseWord, 32 * baseWord + numBits, firstFree, largest, largestFirst, freeBits)
    {
      hide Used, Scanned, Streak;
      ghost var words, first: nat := bitmap[..], 32 * baseWord;
      var start: int, range: nat, bit: nat := -1, 0, 0;
      var count := (numBits + 31) / 32;
      NothingScanned(words, first);
      for k := 0 to count
        invariant bit == if 32 * k < numBits then 32 * k else numBits
        invariant range <= bit && Streak(words, first, first + bit, range) && (range > 0 ==> start == bit - range)
        invariant Scanned(words, first, first + bit - range, firstFree, largest, largestFirst, freeBits)
      {
        var j := 0;
        while j < 32 && bit < numBits
          invariant bit == if 32 * k + j < numBits then 32 * k + j else numBits
          invariant 0 <= j <= 32
          invariant range <= bit && Streak(words, first, first + bit, range) && (range > 0 ==> start == bit - range)
          invariant Scanned(words, first, first + bit - range, firstFree, largest, largestFirst, freeBits)
        {
          UsedIs(words, baseWord + k, j);
          if bitmap[baseWord + k][j] {
            if range > 0 {
              ScannedRange(words, first, first + bit, range, firstFree, largest, largestFirst, freeBits);
              AddFreeRange(start, range);
              range := 0;
            }
            ScannedUsed(words, first, first + bit, firstFree, largest, largestFirst, freeBits);
            StreakEnds(words, first, first + bit);
          } else {
            StreakGrows(words, first, first + bit, range);
            if range == 0 {
              start := bit;
            }
            range := range + 1;
          }
          j, bit := j + 1, bit + 1;
        }
      }
      if range > 0 {
        ScannedRange(words, first, first + bit, range, firstFree, largest, largestFirst, freeBits);
        AddFreeRange(start, range);
      }
    }

    /** Marks a run, bitmap block by bitmap block; `value` tells Allocate from Free. */
    method MarkRun(bitmap: array<Word>, wordsPerBlock: nat, start0: nat, length0: nat, value: bool)
      requires wordsPerBlock > 0 && start0 + length0 <= numBits && 32 * baseWord + numBits <= 32 * bitmap.Length
      modifies bitmap
      ensures Marked(old(bitmap[..]), bitmap[..], 32 * baseWord + start0, 32 * baseWord + start0 + length0, value)
    {
      hide Times, Marked, Used;
      var bitsPerBlock: nat := 32 * wordsPerBlock;
      var block: nat, start: nat, length: nat := start0 / bitsPerBlock, start0 % bitsPerBlock, length0;
      ghost var was, first: nat := bitmap[..], 32 * baseWord + start0;
      ghost var at: nat := start0;
      Divided(start0, bitsPerBlock);
      NothingMarked(was, first, value);
      while length > 0
        invariant at + length == start0 + length0 && start0 <= at
        invariant length > 0 ==> at == Times(block, bitsPerBlock) + start && start < bitsPerBlock
        invariant Marked(was, bitmap[..], first, 32 * baseWord + at, value)
        decreases length
      {
        ghost var before := bitmap[..];
        BlockBitsAre(numBits, bitsPerBlock, block);
        var blockBits := BlockBits(numBits, bitsPerBlock, block);
        var numBlocks: nat := if start + length > blockBits then blockBits - start else length;
        TimesWords(block, wordsPerBlock);
        MarkBits(bitmap, baseWord + Times(block, wordsPerBlock), start, numBlocks, value);
        MarkedTwice(was, before, bitmap[..], first, 32 * baseWord + at, 32 * baseWord + at + numBlocks, value);
        TimesStep(block, bitsPerBlock);
        length, at := length - numBlocks, at + numBlocks;
        start := 0;
        block := block + 1;
      }
    }

    /** Takes a run; `false` is its error for a start beyond the group. */
    method Allocate(bitmap: array<Word>, wordsPerBlock: nat, start: nat, length: nat) returns (ok: bool)
      requires wordsPerBlock > 0 && 32 * baseWord + numBits <= 32 * bitmap.Length
      requires start <= numBits ==> start + length <= numBits
      modifies bitmap, `firstFree, `freeBits
      ensures ok <==> start <= numBits
      ensures !ok ==> bitmap[..] == old(bitmap[..]) && firstFree == old(firstFree) && freeBits == old(freeBits)
      ensures ok ==> Marked(old(bitmap[..]), bitmap[..], 32 * baseWord + start, 32 * baseWord + start + length, true)
      ensures ok ==> firstFree == if start == old(firstFree) then start + length else old(firstFree)
      ensures ok ==> freeBits == old(freeBits) - length
      ensures ok && old(IsAccurate(bitmap[..])) && old(FreeRun(bitmap[..], 32 * baseWord + start, length)) ==> IsAccurate(bitmap[..])
    {
      hide Used, Marked, Accurate, AllAre;
      if start > numBits {
        return false;
      }
      ghost var was, oldFirst, oldFree := bitmap[..], firstFree, freeBits;
      if start == firstFree {
        firstFree := start + length;
      }
      freeBits := freeBits - length;
      MarkRun(bitmap, wordsPerBlock, start, length, true);
      if Accurate(was, 32 * baseWord, numBits, oldFirst, oldFree) && FreeRun(was, 32 * baseWord + start, length) {
        AccurateAfterAllocate(was, bitmap[..], 32 * baseWord, numBits, oldFirst, oldFree, start, length);
      }
      return true;
    }

    /** Gives a run back. */
    method Free(bitmap: array<Word>, wordsPerBlock: nat, start: nat, length: nat) returns (ok: bool)
      requires wordsPerBlock > 0 && 32 * baseWord + numBits <= 32 * bitmap.Length
      requires start <= numBits ==> start + length <= numBits
      modifies bitmap, `firstFree, `freeBits
      ensures ok <==> start <= numBits
      ensures !ok ==> bitmap[..] == old(bitmap[..]) && firstFree == old(firstFree) && freeBits == old(freeBits)
      ensures ok ==> Marked(old(bitmap[..]), bitmap[..], 32 * baseWord + start, 32 * baseWord + start + length, false)
      ensures ok ==> firstFree == if old(firstFree) > start then start else old(firstFree)
      ensures ok ==> freeBits == old(freeBits) + length
      ensures (ok && old(IsAccurate(bitmap[..])) &&
               old(AllAre(bitmap[..], 32 * baseWord + start, 32 * baseWord + start + length, true))
               ==> IsAccurate(bitmap[..]))
    {
      hide Used, Marked, Accurate, AllAre;
      if start > numBits {
        return false;
      }
      ghost var was, oldFirst, oldFree := bitmap[..], firstFree, freeBits;
      if firstFree > start {
        firstFree := start;
      }
      freeBits := freeBits + length;
      MarkRun(bitmap, wordsPerBlock, start, length, false);
      if (Accurate(was, 32 * baseWord, numBits, oldFirst, oldFree) &&
          AllAre(was, 32 * baseWord + start, 32 * baseWord + start + length, true)) {
        AccurateAfterFree(was, bitmap[..], 32 * baseWord, numBits, oldFirst, oldFree, start, length);
      }
      return true;
    }
  }
}
