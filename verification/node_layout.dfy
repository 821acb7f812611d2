/** Sizes inside a 1024-byte tree page (BPlusTree.h, bfs.h): header, packed keys, a padded table of
    key lengths, and the values.  The rules by which a page is split are stated here once; the byte
    pages (NodePage) and the tree (BPlusTree) both use them. */
module NodeLayout {

  type Byte = b: int | 0 <= b < 256

  const NODE_SIZE: nat := 1024
  const HALF_NODE: nat := 512
  const HEADER_SIZE: nat := 28
  const MIN_KEY_LENGTH: nat := 1
  const MAX_KEY_LENGTH: nat := 256
  const SHORT_KEY: nat := 132

  /** The next multiple of eight. */
  function RoundUp(data: nat): (r: nat)
    ensures r % 8 == 0 && data <= r < data + 8
  {
    (data + 7) / 8 * 8
  }

  /** Bytes in use by a page with `count` keys of `bytes` bytes altogether. */
  function Used(count: nat, bytes: nat): nat {
    RoundUp(HEADER_SIZE + bytes) + 10 * count
  }

  /** The cumulative key length stored for key `i - 1`. */
  function Prefix(lens: seq<nat>, i: nat): nat
    requires i <= |lens|
  {
    if i == 0 then 0 else Prefix(lens, i - 1) + lens[i - 1]
  }

  /** The size that the first loop of the split compares with half a page once it has taken `out`
      entries.  Until the new key has been taken, the last old key is not counted. */
  function CheckedSize(lens: seq<nat>, at: nat, length: nat, out: nat): nat
    requires 1 <= out <= |lens| + 1
  {
    Used(out, Prefix(lens, out - 1) + if out > at then length else 0)
  }

  /** How many of the |lens| + 1 entries go to the left page: the first count whose checked size
      reaches half a page. */
  function LeftCountFrom(lens: seq<nat>, at: nat, length: nat, out: nat): (r: nat)
    requires 1 <= out <= |lens| + 1
    ensures out <= r <= |lens| + 1
    ensures r <= |lens| ==> CheckedSize(lens, at, length, r) >= HALF_NODE
    ensures forall o :: out <= o < r ==> CheckedSize(lens, at, length, o) < HALF_NODE
    decreases |lens| + 1 - out
  {
    if out == |lens| + 1 || CheckedSize(lens, at, length, out) >= HALF_NODE then out
    else LeftCountFrom(lens, at, length, out + 1)
  }

  function LeftCount(lens: seq<nat>, at: nat, length: nat): (r: nat)
    ensures 1 <= r <= |lens| + 1
  {
    LeftCountFrom(lens, at, length, 1)
  }

  /** Key bytes that the left page really receives. */
  function LeftBytes(lens: seq<nat>, at: nat, length: nat): nat
    requires at <= |lens|
  {
    var out := LeftCount(lens, at, length);
    if out > at then Prefix(lens, out - 1) + length else Prefix(lens, out)
  }

  // ---- When a split is faithful ----

  /** The size check is still the stale one when the new key is taken. */
  predicate StaleAt(lens: seq<nat>, at: nat)
    requires at <= |lens|
  {
    at == 0 || Used(at, Prefix(lens, at - 1)) < HALF_NODE
  }

  /** The left page keeps to its 1024 bytes and leaves something for the right one. */
  predicate LeftSafe(lens: seq<nat>, at: nat, length: nat)
    requires at <= |lens|
  {
    StaleAt(lens, at) ==> at < |lens| && Used(at + 1, Prefix(lens, at) + length) <= NODE_SIZE
  }

  /** Index of the first old entry that stays in the right page, when the new entry goes there too. */
  function RightSkip(lens: seq<nat>, at: nat, length: nat, leaf: bool): nat {
    LeftCount(lens, at, length) + if leaf then 0 else 1
  }

  /** Moving the keys behind a long new key upwards must not reach length entries that are still to
      be read, and nor must the lengths of the keys before it. */
  predicate RightSafe(lens: seq<nat>, at: nat, length: nat, leaf: bool)
    requires at <= |lens|
  {
    var n := |lens|;
    var skip := RightSkip(lens, at, length, leaf);
    skip <= at < n ==>
      var total := Prefix(lens, n);
      var before := Prefix(lens, at) - Prefix(lens, skip);
      var table := RoundUp(HEADER_SIZE + total);
      PrefixMonotone(lens, skip, at);
      PrefixMonotone(lens, at, n);
      var newTotal := total - Prefix(lens, skip) + length;
      var newTable := RoundUp(HEADER_SIZE + newTotal);
      && (HEADER_SIZE + newTotal <= table + 2 * skip || table + 2 * n <= HEADER_SIZE + before + length)
      && (at == skip || newTable <= table + 2 * skip || table + 2 * n <= newTable)
  }

  predicate SplitSafe(lens: seq<nat>, at: nat, length: nat, leaf: bool)
    requires at <= |lens|
  {
    LeftSafe(lens, at, length) && RightSafe(lens, at, length, leaf)
  }

  /** Key lengths as the tree admits them. */
  predicate Lengths(lens: seq<nat>) {
    forall i :: 0 <= i < |lens| ==> MIN_KEY_LENGTH <= lens[i] <= MAX_KEY_LENGTH
  }

  lemma PrefixMonotone(lens: seq<nat>, i: nat, j: nat)
    requires i <= j <= |lens|
    ensures Prefix(lens, i) <= Prefix(lens, j)
    decreases j
  {
    if i < j {
      PrefixMonotone(lens, i, j - 1);
    }
  }

  lemma PrefixAtLeast(lens: seq<nat>, i: nat, j: nat)
    requires Lengths(lens) && i <= j <= |lens|
    ensures Prefix(lens, i) + (j - i) <= Prefix(lens, j)
    decreases j
  {
    if i < j {
      PrefixAtLeast(lens, i, j - 1);
    }
  }

  /** The checked sizes grow with the count. */
  lemma CheckedSizeMonotone(lens: seq<nat>, at: nat, length: nat, o: nat, p: nat)
    requires 1 <= o <= p <= |lens| + 1
    ensures CheckedSize(lens, at, length, o) <= CheckedSize(lens, at, length, p)
  {
    PrefixMonotone(lens, o - 1, p - 1);
  }

  /** The left half is inside the page and is not everything. */
  predicate LeftIsHalf(lens: seq<nat>, at: nat, length: nat)
    requires at <= |lens|
  {
    LeftCount(lens, at, length) <= |lens| && Used(LeftCount(lens, at, length), LeftBytes(lens, at, length)) <= NODE_SIZE
  }

  /** What the first loop of the split promises holds exactly when the new key is not taken on a stale check. */
  lemma LeftHalfFits(lens: seq<nat>, at: nat, length: nat)
    requires Splits(lens, at, length)
    ensures LeftIsHalf(lens, at, length) <==> LeftSafe(lens, at, length)
  {
    var out := LeftCount(lens, at, length);
    if out <= at {
      LeftWithoutNew(lens, at, length);
    } else if out > at + 1 {
      LeftBeyondNew(lens, at, length);
    } else {
      assert at > 0 ==> CheckedSize(lens, at, length, at) < HALF_NODE;
    }
  }

  lemma LeftWithoutNew(lens: seq<nat>, at: nat, length: nat)
    requires Splits(lens, at, length) && LeftCount(lens, at, length) <= at
    ensures Used(LeftCount(lens, at, length), Prefix(lens, LeftCount(lens, at, length))) <= NODE_SIZE
    ensures !StaleAt(lens, at)
  {
    var out := LeftCount(lens, at, length);
    PrefixMonotone(lens, out, |lens|);
    PrefixMonotone(lens, out - 1, at - 1);
    assert CheckedSize(lens, at, length, out) >= HALF_NODE;
  }

  lemma LeftBeyondNew(lens: seq<nat>, at: nat, length: nat)
    requires Splits(lens, at, length) && LeftCount(lens, at, length) > at + 1
    ensures var out := LeftCount(lens, at, length);
            out <= |lens| && Used(out, Prefix(lens, out - 1) + length) <= NODE_SIZE
    ensures Used(at + 1, Prefix(lens, at) + length) < HALF_NODE
  {
    var out := LeftCount(lens, at, length);
    assert CheckedSize(lens, at, length, out - 1) < HALF_NODE;
    assert CheckedSize(lens, at, length, at + 1) < HALF_NODE;
    assert Prefix(lens, out - 1) == Prefix(lens, out - 2) + lens[out - 2];
  }

  // ---- Prefix sums of edited length lists ----

  lemma PrefixAgrees(a: seq<nat>, b: seq<nat>, i: nat)
    requires i <= |a| && i <= |b| && a[..i] == b[..i]
    ensures Prefix(a, i) == Prefix(b, i)
  {
    if i > 0 {
      assert a[..i - 1] == a[..i][..i - 1] && b[..i - 1] == b[..i][..i - 1];
      assert a[i - 1] == a[..i][i - 1] && b[i - 1] == b[..i][i - 1];
      PrefixAgrees(a, b, i - 1);
    }
  }

  lemma PrefixOfTake(a: seq<nat>, n: nat, i: nat)
    requires i <= n <= |a|
    ensures Prefix(a[..n], i) == Prefix(a, i)
  {
    assert a[..n][..i] == a[..i];
    PrefixAgrees(a[..n], a, i);
  }

  lemma PrefixOfDrop(a: seq<nat>, s: nat, i: nat)
    requires s + i <= |a|
    ensures Prefix(a[s..], i) == Prefix(a, s + i) - Prefix(a, s)
  {
    if i > 0 {
      PrefixOfDrop(a, s, i - 1);
    }
  }

  function Inserted(lens: seq<nat>, at: nat, length: nat): seq<nat>
    requires at <= |lens|
  {
    lens[..at] + [length] + lens[at..]
  }

  lemma PrefixOfInserted(lens: seq<nat>, at: nat, length: nat, i: nat)
    requires at <= |lens| && i <= |lens| + 1
    ensures Prefix(Inserted(lens, at, length), i)
            == if i <= at then Prefix(lens, i) else Prefix(lens, i - 1) + length
  {
    if i > 0 {
      PrefixOfInserted(lens, at, length, i - 1);
    }
  }

  lemma PrefixOfRemoved(lens: seq<nat>, at: nat, i: nat)
    requires at < |lens| && i < |lens|
    ensures Prefix(lens[..at] + lens[at + 1..], i)
            == if i <= at then Prefix(lens, i) else Prefix(lens, i + 1) - lens[at]
  {
    if i > 0 {
      PrefixOfRemoved(lens, at, i - 1);
    }
  }

  /** The left half of a split, as a list of lengths, is inside its page and not everything. */
  lemma LeftListFits(lens: seq<nat>, at: nat, length: nat)
    requires Splits(lens, at, length) && LeftSafe(lens, at, length)
    ensures var all, out := Inserted(lens, at, length), LeftCount(lens, at, length);
            out <= |lens| && Used(out, Prefix(all[..out], out)) <= NODE_SIZE
  {
    var all, out := Inserted(lens, at, length), LeftCount(lens, at, length);
    LeftHalfFits(lens, at, length);
    PrefixOfTake(all, out, out);
    PrefixOfInserted(lens, at, length, out);
  }

  /** And so is the right half. */
  lemma RightListFits(lens: seq<nat>, at: nat, length: nat, skip: nat)
    requires Splits(lens, at, length) && LeftCount(lens, at, length) <= |lens|
    requires LeftCount(lens, at, length) <= skip <= LeftCount(lens, at, length) + 1
    ensures var all := Inserted(lens, at, length);
            Used(|all| - skip, Prefix(all[skip..], |all| - skip)) <= NODE_SIZE
  {
    var n, all, out := |lens|, Inserted(lens, at, length), LeftCount(lens, at, length);
    PrefixOfDrop(all, skip, |all| - skip);
    PrefixOfInserted(lens, at, length, |all|);
    LeftHalfIsHalf(lens, at, length);
    PrefixMonotone(all, out, skip);
    PrefixMonotone(all, skip, |all|);
    RightBound(n, Prefix(lens, n), length, out, Prefix(all, out), skip, Prefix(all, skip));
  }

  /** A page within bounds that has no room for a further key of `length` bytes. */
  predicate Splits(lens: seq<nat>, at: nat, length: nat) {
    && Lengths(lens) && MIN_KEY_LENGTH <= length <= MAX_KEY_LENGTH && at <= |lens|
    && Used(|lens|, Prefix(lens, |lens|)) <= NODE_SIZE
    && Used(|lens| + 1, Prefix(lens, |lens|) + length) >= NODE_SIZE
  }

  /** The left half is at least about half a page. */
  lemma LeftHalfIsHalf(lens: seq<nat>, at: nat, length: nat)
    requires at <= |lens| && LeftCount(lens, at, length) <= |lens|
    ensures var out := LeftCount(lens, at, length);
            Used(out, Prefix(Inserted(lens, at, length), out)) >= HALF_NODE
  {
    hide Used, Inserted, LeftCountFrom;
    var out := LeftCount(lens, at, length);
    PrefixOfInserted(lens, at, length, out);
    assert CheckedSize(lens, at, length, out) >= HALF_NODE;
    if out <= at {
      PrefixMonotone(lens, out - 1, out);
      UsedMonotone(out, Prefix(lens, out - 1), Prefix(lens, out));
    }
  }

  lemma UsedMonotone(count: nat, a: nat, b: nat)
    requires a <= b
    ensures Used(count, a) <= Used(count, b)
  {
  }

  lemma RightBound(n: nat, total: nat, length: nat, out: nat, left: nat, skip: nat, upTo: nat)
    requires Used(n, total) <= NODE_SIZE && length <= MAX_KEY_LENGTH
    requires Used(out, left) >= HALF_NODE && out <= skip <= n + 1 && left <= upTo <= total + length
    ensures Used(n + 1 - skip, total + length - upTo) <= NODE_SIZE
  {
  }

  /** Keys of up to 132 bytes can never be split wrongly, and the bound is the best one: see LongerKeyIsLost. */
  lemma ShortKeysSplitSafely(lens: seq<nat>, at: nat, length: nat, leaf: bool)
    requires Splits(lens, at, length) && length <= SHORT_KEY
    requires forall i :: 0 <= i < |lens| ==> lens[i] <= SHORT_KEY
    ensures SplitSafe(lens, at, length, leaf)
  {
    ShortKeysLeftSafe(lens, at, length);
    ShortKeysRightSafe(lens, at, length, leaf);
  }

  lemma ShortKeysLeftSafe(lens: seq<nat>, at: nat, length: nat)
    requires Splits(lens, at, length) && length <= SHORT_KEY
    requires forall i :: 0 <= i < |lens| ==> lens[i] <= SHORT_KEY
    ensures LeftSafe(lens, at, length)
  {
    if at > 0 {
      assert Prefix(lens, at) == Prefix(lens, at - 1) + lens[at - 1];
    }
    ShortLeft(|lens|, Prefix(lens, |lens|), length, at, Prefix(lens, at));
  }

  lemma ShortKeysRightSafe(lens: seq<nat>, at: nat, length: nat, leaf: bool)
    requires Splits(lens, at, length) && length <= SHORT_KEY
    ensures RightSafe(lens, at, length, leaf)
  {
    var n, skip, out := |lens|, RightSkip(lens, at, length, leaf), LeftCount(lens, at, length);
    if skip <= at < n {
      assert CheckedSize(lens, at, length, out) >= HALF_NODE;
      PrefixAtLeast(lens, 0, out - 1);
      PrefixAtLeast(lens, out - 1, skip);
      PrefixMonotone(lens, skip, at);
      PrefixMonotone(lens, at, n);
      ShortRight(Prefix(lens, n), length, out, Prefix(lens, out - 1), skip, Prefix(lens, skip));
    }
  }

  lemma ShortLeft(n: nat, total: nat, length: nat, at: nat, upTo: nat)
    requires length <= SHORT_KEY && at <= n
    requires Used(n + 1, total + length) >= NODE_SIZE && (at == n ==> upTo == total)
    requires at == 0 ==> upTo == 0
    ensures at == 0 ==> at < n && Used(at + 1, upTo + length) <= NODE_SIZE
    ensures at > 0 && upTo <= HALF_NODE + SHORT_KEY && Used(at, if upTo < SHORT_KEY then 0 else upTo - SHORT_KEY) < HALF_NODE
            ==> at < n && Used(at + 1, upTo + length) <= NODE_SIZE
  {
  }

  lemma ShortRight(total: nat, length: nat, out: nat, beforeOut: nat, skip: nat, upTo: nat)
    requires length <= SHORT_KEY && 1 <= out <= skip && upTo <= total
    requires Used(out, beforeOut) >= HALF_NODE && beforeOut >= out - 1 && upTo >= beforeOut + 1
    ensures RoundUp(HEADER_SIZE + (total - upTo + length)) <= RoundUp(HEADER_SIZE + total) + 2 * skip
  {
  }

  // ---- Long keys: where the promise fails ----

  /** The new key taken on a stale check: it ends up in the left page with everything else, 1032 bytes. */
  lemma StaleCheckOverruns()
    ensures var lens := [226, 226, 256];
            && Splits(lens, 3, 256) && !LeftSafe(lens, 3, 256)
            && LeftCount(lens, 3, 256) == 4
            && Used(4, LeftBytes(lens, 3, 256)) == 1032
  {
    var lens := [226, 226, 256];
    assert Prefix(lens, 1) == 226 && Prefix(lens, 2) == 452 && Prefix(lens, 3) == 708;
    assert CheckedSize(lens, 3, 256, 1) < HALF_NODE;
    assert CheckedSize(lens, 3, 256, 2) < HALF_NODE;
    assert CheckedSize(lens, 3, 256, 3) < HALF_NODE;
    assert LeftCountFrom(lens, 3, 256, 4) == 4;
    assert LeftCountFrom(lens, 3, 256, 3) == 4;
    assert LeftCountFrom(lens, 3, 256, 2) == 4;
  }

  /** A long key among short ones: moving the keys behind it up runs into lengths still to be read. */
  lemma LongKeyOverwritesLengths()
    ensures var lens := seq(88, i => 1);
            Splits(lens, 44, 256) && LeftSafe(lens, 44, 256) && !RightSafe(lens, 44, 256, true) && LeftCount(lens, 44, 256) == 44
  {
    var lens := seq(88, i => 1);
    forall i: nat | i <= 88 ensures Prefix(lens, i) == i {
      PrefixOfOnes(lens, i);
    }
    assert CheckedSize(lens, 44, 256, 43) < HALF_NODE;
    assert CheckedSize(lens, 44, 256, 44) >= HALF_NODE;
    CheckedBelow(lens, 44, 256, 43);
    assert LeftCount(lens, 44, 256) == 44;
  }

  /** One byte more than SHORT_KEY among short keys does the same, so SHORT_KEY is the best bound. */
  lemma LongerKeyIsLost(lens: seq<nat>)
    requires |lens| == 88 && forall i :: 0 <= i < 88 ==> lens[i] == if i < 84 then 1 else 2
    ensures Splits(lens, 44, SHORT_KEY + 1) && LeftSafe(lens, 44, SHORT_KEY + 1) && !RightSafe(lens, 44, SHORT_KEY + 1, true)
    ensures LeftCount(lens, 44, SHORT_KEY + 1) == 44
  {
    forall i: nat | i <= 88 ensures Prefix(lens, i) == if i <= 84 then i else 2 * i - 84 {
      PrefixOfOnesAndTwos(lens, i);
    }
    assert CheckedSize(lens, 44, SHORT_KEY + 1, 43) < HALF_NODE;
    assert CheckedSize(lens, 44, SHORT_KEY + 1, 44) >= HALF_NODE;
    CheckedBelow(lens, 44, SHORT_KEY + 1, 43);
    assert LeftCount(lens, 44, SHORT_KEY + 1) == 44;
  }

  lemma {:induction false} PrefixOfOnesAndTwos(lens: seq<nat>, i: nat)
    requires i <= |lens| == 88 && forall j :: 0 <= j < 88 ==> lens[j] == if j < 84 then 1 else 2
    ensures Prefix(lens, i) == if i <= 84 then i else 2 * i - 84
  {
    if i > 0 {
      PrefixOfOnesAndTwos(lens, i - 1);
    }
  }

  /** All earlier checks were below half a page if the last one was. */
  lemma CheckedBelow(lens: seq<nat>, at: nat, length: nat, last: nat)
    requires 1 <= last <= |lens| && CheckedSize(lens, at, length, last) < HALF_NODE
    ensures LeftCount(lens, at, length) > last
  {
    var out := LeftCount(lens, at, length);
    if out <= last {
      CheckedSizeMonotone(lens, at, length, out, last);
    }
  }

  lemma {:induction false} PrefixOfOnes(lens: seq<nat>, i: nat)
    requires i <= |lens| && (forall j :: 0 <= j < |lens| ==> lens[j] == 1)
    ensures Prefix(lens, i) == i
  {
    if i > 0 {
      PrefixOfOnes(lens, i - 1);
    }
  }
}
