/** The block bitmap as 32-bit words, and setting and clearing stretches of it (BlockAllocator.cpp,
    AllocationBlock). */
module BitmapWords {

  /** A 32-bit word, lowest bit first. */
  type Word = w: seq<bool> | |w| == 32 witness seq(32, i => false)

  const NO_BITS: Word := seq(32, i => false)

  /** 1UL << i. */
  function OneBit(i: nat): Word
    requires i < 32
  {
    seq(32, k => k == i)
  }

  function Or(a: Word, b: Word): Word {
    seq(32, k requires 0 <= k < 32 => a[k] || b[k])
  }

  /** a & ~b. */
  function AndNot(a: Word, b: Word): Word {
    seq(32, k requires 0 <= k < 32 => a[k] && !b[k])
  }

  /** Block `n` of the bitmap is in use. */
  predicate Used(words: seq<Word>, n: nat)
    requires n < 32 * |words|
  {
    words[n / 32][n % 32]
  }

  /** Exactly the blocks from `from` to `to` have been set to `value`. */
  ghost predicate Marked(before: seq<Word>, after: seq<Word>, from: nat, to: nat, value: bool) {
    && |after| == |before|
    && forall n {:trigger Used(after, n)} :: 0 <= n < 32 * |before| ==>
         Used(after, n) == if from <= n < to then value else Used(before, n)
  }

  /** The mask has exactly the bits from `low` to `high`. */
  ghost predicate Covers(mask: Word, low: nat, high: nat) {
    forall i {:trigger mask[i]} :: 0 <= i < 32 ==> (mask[i] <==> low <= i < high)
  }

  /** The mask the inner loop collects. */
  method Mask(low: nat, high: nat) returns (mask: Word)
    requires low <= high <= 32
    ensures Covers(mask, low, high)
  {
    mask := NO_BITS;
    for k := low to high
      invariant Covers(mask, low, k)
    {
      ghost var before := mask;
      mask := Or(mask, OneBit(k));
      forall i | 0 <= i < 32 ensures mask[i] <==> low <= i < k + 1 {
        assert mask[i] == (before[i] || i == k);
      }
    }
  }

  /** What one masked word does to the bitmap. */
  lemma WordMarked(words: seq<Word>, block: nat, low: nat, high: nat, mask: Word, value: bool)
    requires block < |words| && low <= high <= 32
    requires Covers(mask, low, high)
    ensures Marked(words, words[block := if value then Or(words[block], mask) else AndNot(words[block], mask)],
                   32 * block + low, 32 * block + high, value)
  {
    var word := if value then Or(words[block], mask) else AndNot(words[block], mask);
    var after := words[block := word];
    forall n | 0 <= n < 32 * |words|
      ensures Used(after, n) == if 32 * block + low <= n < 32 * block + high then value else Used(words, n)
    {
      assert n == 32 * (n / 32) + n % 32;
      if n / 32 == block {
        assert mask[n % 32] <==> low <= n % 32 < high;
      }
    }
  }

  lemma MarkedTwice(a: seq<Word>, b: seq<Word>, c: seq<Word>, from: nat, mid: nat, to: nat, value: bool)
    requires from <= mid <= to && Marked(a, b, from, mid, value) && Marked(b, c, mid, to, value)
    ensures Marked(a, c, from, to, value)
  {
    hide Used;
    forall n | 0 <= n < 32 * |a| ensures Used(c, n) == if from <= n < to then value else Used(a, n) {
      assert Used(b, n) == if from <= n < mid then value else Used(a, n);
    }
  }

  /** Sets or clears a stretch of bits of the bitmap block whose first word is `base`, word by word. */
  method MarkBits(words: array<Word>, base: nat, start0: nat, numBlocks0: nat, value: bool)
    requires 32 * base + start0 + numBlocks0 <= 32 * words.Length
    modifies words
    ensures Marked(old(words[..]), words[..], 32 * base + start0, 32 * base + start0 + numBlocks0, value)
  {
    hide Used, Marked, Covers;
    var start: nat, numBlocks: nat, block: nat := start0 % 32, numBlocks0, base + start0 / 32;
    ghost var was, first := words[..], 32 * base + start0;
    ghost var at: nat := first;
    NothingMarked(was, first, value);
    while numBlocks > 0
      invariant at + numBlocks == first + numBlocks0 && first <= at
      invariant numBlocks > 0 ==> at == 32 * block + start && start < 32
      invariant Marked(was, words[..], first, at, value)
      decreases numBlocks
    {
      ghost var before := words[..];
      var end: nat := if start + numBlocks < 32 then start + numBlocks else 32;
      var mask := Mask(start, end);
      words[block] := if value then Or(words[block], mask) else AndNot(words[block], mask);
      WordMarked(before, block, start, end, mask, value);
      assert words[..] == before[block := words[block]];
      MarkedTwice(was, before, words[..], first, at, 32 * block + end, value);
      numBlocks, at := numBlocks - (end - start), 32 * block + end;
      block := block + 1;
      start := 0;
    }
  }

  lemma NothingMarked(words: seq<Word>, at: nat, value: bool)
    ensures Marked(words, words, at, at, value)
  {
  }

  // ---- counting ----

  /** How many of the blocks from `a` to `b` are in use. */
  function CountUsed(words: seq<Word>, a: nat, b: nat): (count: nat)
    requires a <= b <= 32 * |words|
    ensures count <= b - a
    decreases b
  {
    if a == b then 0 else CountUsed(words, a, b - 1) + if Used(words, b - 1) then 1 else 0
  }

  lemma {:induction false} CountJoin(words: seq<Word>, a: nat, b: nat, c: nat)
    requires a <= b <= c <= 32 * |words|
    ensures CountUsed(words, a, c) == CountUsed(words, a, b) + CountUsed(words, b, c)
    decreases c
  {
    if b < c {
      CountJoin(words, a, b, c - 1);
    }
  }

  lemma {:induction false} CountSame(v: seq<Word>, w: seq<Word>, a: nat, b: nat)
    requires |v| == |w| && a <= b <= 32 * |v|
    requires forall n :: a <= n < b ==> Used(v, n) == Used(w, n)
    ensures CountUsed(v, a, b) == CountUsed(w, a, b)
    decreases b
  {
    if a < b {
      CountSame(v, w, a, b - 1);
    }
  }

  lemma {:induction false} CountAll(words: seq<Word>, a: nat, b: nat, value: bool)
    requires a <= b <= 32 * |words|
    requires forall n :: a <= n < b ==> Used(words, n) == value
    ensures CountUsed(words, a, b) == if value then b - a else 0
    decreases b
  {
    if a < b {
      CountAll(words, a, b - 1, value);
    }
  }

  /** Not every block in use is the same as one of them free. */
  lemma {:induction false} CountShort(words: seq<Word>, a: nat, b: nat)
    requires a <= b <= 32 * |words|
    ensures CountUsed(words, a, b) == b - a <==> forall n :: a <= n < b ==> Used(words, n)
    decreases b
  {
    if a < b {
      CountShort(words, a, b - 1);
      if CountUsed(words, a, b) == b - a {
        forall n | a <= n < b ensures Used(words, n) {
          assert n < b - 1 || n == b - 1;
        }
      }
    }
  }

  /** All blocks from `from` to `to` have the same state. */
  ghost predicate AllAre(words: seq<Word>, from: nat, to: nat, value: bool)
    requires to <= 32 * |words|
  {
    forall n :: from <= n < to ==> Used(words, n) == value
  }

  /** Marking blocks that were all the other way changes the count of any surrounding stretch by just
      their number. */
  lemma CountMarked(v: seq<Word>, w: seq<Word>, a: nat, from: nat, to: nat, b: nat, value: bool)
    requires Marked(v, w, from, to, value) && a <= from <= to <= b <= 32 * |v|
    requires AllAre(v, from, to, !value)
    ensures CountUsed(w, a, b) == CountUsed(v, a, b) + if value then to - from else from - to
  {
    hide Used;
    CountJoin(v, a, from, b); CountJoin(v, from, to, b);
    CountJoin(w, a, from, b); CountJoin(w, from, to, b);
    CountSame(v, w, a, from);
    CountSame(v, w, to, b);
    CountAll(v, from, to, !value);
    CountAll(w, from, to, value);
  }

  /** Clearing blocks lowers the count by how many of them were in use: by their number exactly when all
      were. */
  lemma CountCleared(v: seq<Word>, w: seq<Word>, a: nat, from: nat, to: nat, b: nat)
    requires Marked(v, w, from, to, false) && a <= from <= to <= b <= 32 * |v|
    ensures CountUsed(w, a, b) == CountUsed(v, a, b) - CountUsed(v, from, to)
    ensures CountUsed(v, from, to) == to - from <==> AllAre(v, from, to, true)
  {
    hide Used;
    CountJoin(v, a, from, b); CountJoin(v, from, to, b);
    CountJoin(w, a, from, b); CountJoin(w, from, to, b);
    CountSame(v, w, a, from);
    CountSame(v, w, to, b);
    CountAll(w, from, to, false);
    CountShort(v, from, to);
  }

  lemma {:induction false} NoneUsed(r: seq<Word>, a: nat, b: nat)
    requires a <= b <= 32 * |r|
    ensures CountUsed(r, a, b) == 0 <==> AllAre(r, a, b, false)
    decreases b
  {
    if a < b {
      NoneUsed(r, a, b - 1);
      if CountUsed(r, a, b) == 0 {
        forall n | a <= n < b ensures !Used(r, n) {
          assert n < b - 1 || n == b - 1;
        }
      }
    }
  }

  /** Setting blocks raises the count by how many of them were free. */
  lemma CountSet(v: seq<Word>, w: seq<Word>, a: nat, from: nat, to: nat, b: nat)
    requires Marked(v, w, from, to, true) && a <= from <= to <= b <= 32 * |v|
    ensures CountUsed(w, a, b) == CountUsed(v, a, b) + (to - from - CountUsed(v, from, to))
    ensures CountUsed(v, from, to) == to - from <==> AllAre(v, from, to, true)
  {
    hide Used;
    CountJoin(v, a, from, b); CountJoin(v, from, to, b);
    CountJoin(w, a, from, b); CountJoin(w, from, to, b);
    CountSame(v, w, a, from);
    CountSame(v, w, to, b);
    CountAll(w, from, to, true);
    CountShort(v, from, to);
  }

  /** Marking leaves every stretch alone that it does not meet. */
  lemma CountElsewhere(v: seq<Word>, w: seq<Word>, a: nat, b: nat, from: nat, to: nat, value: bool)
    requires Marked(v, w, from, to, value) && a <= b <= 32 * |v| && (b <= from || to <= a)
    ensures CountUsed(w, a, b) == CountUsed(v, a, b)
  {
    hide Used;
    CountSame(v, w, a, b);
  }
}
