/** Sorted arrays of values inside a page: a count, and that many words in order (Utility.cpp). */
module SortedArrays {

  ghost predicate Ascending(s: seq<int>) {
    forall i, j :: 0 <= i < j < |s| ==> s[i] <= s[j]
  }

  /** The array whose count is word `base` of the page. */
  function ArrayAt(words: seq<int>, base: nat): (s: seq<int>)
    requires 0 <= Count(words, base) && base + 1 + Count(words, base) <= |words|
  {
    words[base + 1..base + 1 + words[base]]
  }

  function Count(words: seq<int>, base: nat): int {
    if base < |words| then words[base] else 0
  }

  /** A sorted array with room for `capacity` values. */
  ghost predicate IsArray(words: seq<int>, base: nat, capacity: nat) {
    && 0 <= Count(words, base) <= capacity && base + 1 + capacity <= |words|
    && Ascending(ArrayAt(words, base))
  }

  /** Nothing outside [lo, hi) has changed. */
  ghost predicate Elsewhere(was: seq<int>, now: seq<int>, lo: nat, hi: nat) {
    |was| == |now| && forall x {:trigger now[x]} :: 0 <= x < |was| && (x < lo || hi <= x) ==> now[x] == was[x]
  }

  /** Where a new value goes: behind everything that is not greater. */
  ghost predicate Place(s: seq<int>, value: int, i: int) {
    && 0 <= i <= |s|
    && (forall k :: 0 <= k < i ==> s[k] <= value)
    && (forall k :: i <= k < |s| ==> value <= s[k])
  }

  /** sorted_array::FindInternal: the index, or the last one looked at. */
  method FindInternal(page: array<int>, base: nat, value: int) returns (found: bool, index: int)
    requires base < page.Length && IsArray(page[..], base, page.Length - base - 1)
    ensures found ==> 0 <= index < page[base] && page[base + 1 + index] == value
    ensures !found ==> value !in ArrayAt(page[..], base)
    ensures (!found && page[base] > 0 ==>
               && 0 <= index < page[base]
               && Place(ArrayAt(page[..], base), value, if page[base + 1 + index] <= value then index + 1 else index))
  {
    ghost var s := ArrayAt(page[..], base);
    var min, max := 0, page[base] - 1;
    index := 0;
    while min <= max
      invariant 0 <= min <= max + 1 <= |s|
      invariant forall k :: 0 <= k < min ==> s[k] < value
      invariant forall k :: max < k < |s| ==> value < s[k]
      invariant min > max && |s| > 0 ==> 0 <= index < |s| && (if s[index] <= value then min == index + 1 else min == index)
      decreases max - min
    {
      index := (min + max) / 2;
      assert page[base + 1 + index] == s[index];
      if s[index] < value {
        assert forall k :: 0 <= k <= index ==> s[k] <= s[index];
      }
      var cmp := page[base + 1 + index] - value;
      if cmp < 0 {
        min := index + 1;
      } else if cmp > 0 {
        max := index - 1;
      } else {
        return true, index;
      }
    }
    found := false;
  }

  /** Moves the words from `src` up by one, from the end. */
  method MoveUp(page: array<int>, src: nat, n: nat)
    requires src + n < page.Length
    modifies page
    ensures forall x {:trigger page[x]} :: 0 <= x < page.Length ==> page[x] == if src < x <= src + n then old(page[x - 1]) else old(page[x])
  {
    for i := n downto 0
      invariant forall x {:trigger page[x]} :: 0 <= x < page.Length ==>
        page[x] == if src + i < x <= src + n then old(page[x - 1]) else old(page[x])
    {
      page[src + i + 1] := page[src + i];
    }
  }

  /** Moves the words from `src` down by one. */
  method MoveDown(page: array<int>, src: nat, n: nat)
    requires 0 < src && src + n <= page.Length
    modifies page
    ensures forall x {:trigger page[x]} :: 0 <= x < page.Length ==>
      page[x] == if src - 1 <= x < src - 1 + n then old(page[x + 1]) else old(page[x])
  {
    for i := 0 to n
      invariant forall x {:trigger page[x]} :: 0 <= x < page.Length ==>
        page[x] == if src - 1 <= x < src - 1 + i then old(page[x + 1]) else old(page[x])
    {
      page[src + i - 1] := page[src + i];
    }
  }

  /** sorted_array::Insert: a linear search for up to 8 values, a binary one for more. */
  method InsertValue(page: array<int>, base: nat, value: int, ghost capacity: nat)
    requires IsArray(page[..], base, capacity) && page[base] < capacity
    modifies page
    ensures IsArray(page[..], base, capacity) && page[base] == old(page[base]) + 1
    ensures multiset(ArrayAt(page[..], base)) == multiset(old(ArrayAt(page[..], base))) + multiset{value}
    ensures Elsewhere(old(page[..]), page[..], base, base + 1 + page[base])
  {
    ghost var was, s := page[..], ArrayAt(page[..], base);
    var count := page[base];
    var i := 0;
    if count > 8 {
      assert IsArray(page[..], base, page.Length - base - 1);
      var found;
      found, i := FindInternal(page, base, value);
      if !found && page[base + 1 + i] <= value {
        i := i + 1;
      }
      if found {
        FoundPlace(s, value, i);
      }
    } else {
      while i < count && page[base + 1 + i] <= value
        invariant 0 <= i <= count
        invariant forall k :: 0 <= k < i ==> s[k] <= value
      {
        i := i + 1;
      }
      if i < count {
        assert s[i] == page[base + 1 + i];
        assert forall k :: i <= k < count ==> s[i] <= s[k];
      }
    }
    assert Place(s, value, i);
    MoveUp(page, base + 1 + i, count - i);
    page[base + 1 + i] := value;
    page[base] := count + 1;
    var now := page[..];
    assert forall x {:trigger now[x]} :: 0 <= x < |now| ==> now[x] == if x == base then count + 1 else if x == base + 1 + i then value
                                                    else if base + 1 + i < x <= base + 1 + count then was[x - 1] else was[x];
    InsertedAt(was, now, base, s, value, i);
  }

  lemma FoundPlace(s: seq<int>, value: int, i: int)
    requires Ascending(s) && 0 <= i < |s| && s[i] == value
    ensures Place(s, value, i)
  {
  }

  /** What the moved words are. */
  lemma InsertedAt(was: seq<int>, now: seq<int>, base: nat, s: seq<int>, value: int, i: nat)
    requires base + 1 + |s| < |was| == |now| && was[base] == |s| && was[base + 1..base + 1 + |s|] == s
    requires Ascending(s) && Place(s, value, i)
    requires (forall x {:trigger now[x]} :: 0 <= x < |now| ==> now[x] == if x == base then |s| + 1 else if x == base + 1 + i then value
                                                   else if base + 1 + i < x <= base + 1 + |s| then was[x - 1] else was[x])
    ensures now[base] == |s| + 1 && ArrayAt(now, base) == s[..i] + [value] + s[i..]
    ensures Ascending(ArrayAt(now, base)) && multiset(ArrayAt(now, base)) == multiset(s) + multiset{value}
    ensures Elsewhere(was, now, base, base + 1 + now[base])
  {
    hide Ascending;
    var t := s[..i] + [value] + s[i..];
    forall k | 0 <= k < |t| ensures now[base + 1 + k] == t[k] {
      if k < i {
        WordOf(was, base, s, k);
      } else if k > i {
        WordOf(was, base, s, k - 1);
      }
    }
    WordsAre(now, base, t);
    WithValue(s, value, i);
  }

  lemma WordOf(words: seq<int>, base: nat, s: seq<int>, k: nat)
    requires base + 1 + |s| <= |words| && words[base + 1..base + 1 + |s|] == s && k < |s|
    ensures words[base + 1 + k] == s[k]
  {
    assert words[base + 1..base + 1 + |s|][k] == words[base + 1 + k];
  }

  lemma WordsAre(words: seq<int>, base: nat, t: seq<int>)
    requires base + 1 + |t| <= |words| && forall k :: 0 <= k < |t| ==> words[base + 1 + k] == t[k]
    ensures words[base + 1..base + 1 + |t|] == t
  {
  }

  lemma WithValue(s: seq<int>, value: int, i: nat)
    requires Ascending(s) && Place(s, value, i)
    ensures Ascending(s[..i] + [value] + s[i..]) && multiset(s[..i] + [value] + s[i..]) == multiset(s) + multiset{value}
  {
    hide Ascending;
    assert s == s[..i] + s[i..];
    StillAscending(s, value, i);
  }

  lemma StillAscending(s: seq<int>, value: int, i: nat)
    requires Ascending(s) && Place(s, value, i)
    ensures Ascending(s[..i] + [value] + s[i..])
  {
    var t := s[..i] + [value] + s[i..];
    assert forall k {:trigger t[k]} :: 0 <= k < |t| ==> t[k] == if k < i then s[k] else if k == i then value else s[k - 1];
  }

  lemma WithoutValue(s: seq<int>, i: nat)
    requires Ascending(s) && i < |s|
    ensures Ascending(s[..i] + s[i + 1..]) && multiset(s[..i] + s[i + 1..]) == multiset(s) - multiset{s[i]}
  {
    hide Ascending;
    assert s == s[..i] + [s[i]] + s[i + 1..];
    StaysAscending(s, i);
  }

  lemma StaysAscending(s: seq<int>, i: nat)
    requires Ascending(s) && i < |s|
    ensures Ascending(s[..i] + s[i + 1..])
  {
    var t := s[..i] + s[i + 1..];
    assert forall k {:trigger t[k]} :: 0 <= k < |t| ==> t[k] == s[if k < i then k else k + 1];
  }

  /** sorted_array::Remove: it moves one word more than there are, from behind the array. */
  method RemoveValue(page: array<int>, base: nat, value: int, ghost capacity: nat) returns (found: bool)
    requires IsArray(page[..], base, capacity) && base + 1 + capacity < page.Length
    modifies page
    ensures found <==> value in old(ArrayAt(page[..], base))
    ensures !found ==> page[..] == old(page[..])
    ensures found ==> IsArray(page[..], base, capacity) && page[base] == old(page[base]) - 1
    ensures found ==> multiset(ArrayAt(page[..], base)) == multiset(old(ArrayAt(page[..], base))) - multiset{value}
    ensures found ==> Elsewhere(old(page[..]), page[..], base, base + 1 + old(page[base]))
  {
    ghost var was, s := page[..], ArrayAt(page[..], base);
    assert IsArray(page[..], base, page.Length - base - 1);
    var count, index := page[base], 0;
    found, index := FindInternal(page, base, value);
    if !found {
      return;
    }
    assert s[index] == page[base + 1 + index];
    MoveDown(page, base + 1 + index + 1, count - index);
    page[base] := count - 1;
    ghost var now := page[..];
    assert forall x {:trigger now[x]} :: 0 <= x < |now| ==> now[x] == if x == base then count - 1
                                                    else if base + 1 + index <= x < base + 1 + count then was[x + 1] else was[x];
    RemovedAt(was, now, base, s, index);
  }

  lemma RemovedAt(was: seq<int>, now: seq<int>, base: nat, s: seq<int>, i: nat)
    requires base + 1 + |s| < |was| == |now| && was[base] == |s| && was[base + 1..base + 1 + |s|] == s
    requires Ascending(s) && i < |s|
    requires (forall x {:trigger now[x]} :: 0 <= x < |now| ==> now[x] == if x == base then |s| - 1
                                                   else if base + 1 + i <= x < base + 1 + |s| then was[x + 1] else was[x])
    ensures now[base] == |s| - 1 && ArrayAt(now, base) == s[..i] + s[i + 1..]
    ensures Ascending(ArrayAt(now, base)) && multiset(ArrayAt(now, base)) == multiset(s) - multiset{s[i]}
    ensures Elsewhere(was, now, base, base + 1 + |s|)
  {
    hide Ascending;
    var t := s[..i] + s[i + 1..];
    forall k | 0 <= k < |t| ensures now[base + 1 + k] == t[k] {
      WordOf(was, base, s, if k < i then k else k + 1);
    }
    WordsAre(now, base, t);
    WithoutValue(s, i);
  }
}
