/** Chains of duplicate pages: what changing, adding and taking out a page does to the values. */
module DuplicateChains {
  import opened TreeShape
  import opened SortedArrays
  import opened DuplicateValues
  import opened DuplicateSteps

  lemma ChainSplit(pages: Pages, chain: seq<int>, i: nat)
    requires Readable(pages, chain) && i < |chain|
    ensures Readable(pages, chain[..i]) && Readable(pages, chain[i + 1..])
    ensures ChainValues(pages, chain) == ChainValues(pages, chain[..i]) + PageValues(pages, chain[i]) + ChainValues(pages, chain[i + 1..])
  {
    var a, p, b := chain[..i], chain[i], chain[i + 1..];
    assert chain == a + ([p] + b);
    assert Readable(pages, a) by { assert forall k :: 0 <= k < |a| ==> a[k] == chain[k]; }
    assert Readable(pages, b) by { assert forall k :: 0 <= k < |b| ==> b[k] == chain[i + 1 + k]; }
    OnePage(pages, p, b);
    ChainValuesJoin(pages, a, [p] + b);
    Regroup(ChainValues(pages, a), PageValues(pages, p), ChainValues(pages, b));
  }

  lemma OnePage(pages: Pages, p: int, rest: seq<int>)
    requires HasArray(pages, p) && Readable(pages, rest)
    ensures Readable(pages, [p] + rest) && ChainValues(pages, [p] + rest) == PageValues(pages, p) + ChainValues(pages, rest)
  {
    var chain := [p] + rest;
    assert chain[0] == p && chain[1..] == rest;
    assert forall k :: 0 <= k < |chain| ==> chain[k] == if k == 0 then p else rest[k - 1];
  }

  /** Pages with the same arrays have the same values. */
  lemma {:induction false} SameArrays(pages: Pages, pages': Pages, chain: seq<int>)
    requires Readable(pages, chain) && Readable(pages', chain)
    requires forall k :: 0 <= k < |chain| ==> PageValues(pages', chain[k]) == PageValues(pages, chain[k])
    ensures ChainValues(pages', chain) == ChainValues(pages, chain)
  {
    hide PageValues;
    if chain != [] {
      var rest := chain[1..];
      assert forall k :: 0 <= k < |rest| ==> rest[k] == chain[k + 1];
      SameArrays(pages, pages', rest);
    }
  }

  /** The words of page `i` have been written anew, with the same links. */
  lemma PageRewritten(pages: Pages, chain: seq<int>, i: nat, words: seq<int>)
    requires ChainOk(pages, chain) && i < |chain| && |words| == PAGE_WORDS && IsWords(pages, chain[i])
    requires words[0] == pages[chain[i]].words[0] && words[1] == pages[chain[i]].words[1]
    requires IsArray(words, 2, NUM_DUPLICATE_VALUES) && words[2] >= if |chain| == 1 then NUM_FRAGMENT_VALUES + 1 else 1
    ensures Readable(pages, chain) && ChainOk(pages[chain[i] := Words(words)], chain)
    ensures Readable(pages[chain[i] := Words(words)], chain)
    ensures multiset(ChainValues(pages[chain[i] := Words(words)], chain))
         == multiset(ChainValues(pages, chain)) - multiset(PageValues(pages, chain[i])) + multiset(ArrayAt(words, 2))
    ensures multiset(PageValues(pages, chain[i])) <= multiset(ChainValues(pages, chain))
  {
    hide IsArray, ArrayAt;
    var pages' := pages[chain[i] := Words(words)];
    ChainIsReadable(pages, chain);
    forall k | 0 <= k < |chain| ensures LinkShaped(pages', chain, k) && Filled(pages', chain, k) {
      assert LinkShaped(pages, chain, k) && Filled(pages, chain, k);
    }
    ChainIsReadable(pages', chain);
    ChainSplit(pages, chain, i);
    ChainSplit(pages', chain, i);
    RestKept(pages, pages', chain, i);
  }

  lemma RestKept(pages: Pages, pages': Pages, chain: seq<int>, i: nat)
    requires Readable(pages, chain) && Readable(pages', chain) && i < |chain|
    requires forall k, l :: 0 <= k < l < |chain| ==> chain[k] != chain[l]
    requires forall k :: 0 <= k < |chain| && k != i ==> PageValues(pages', chain[k]) == PageValues(pages, chain[k])
    ensures Readable(pages, chain[..i]) && Readable(pages', chain[..i])
    ensures Readable(pages, chain[i + 1..]) && Readable(pages', chain[i + 1..])
    ensures ChainValues(pages', chain[..i]) == ChainValues(pages, chain[..i])
    ensures ChainValues(pages', chain[i + 1..]) == ChainValues(pages, chain[i + 1..])
  {
    hide PageValues;
    var a, b := chain[..i], chain[i + 1..];
    assert forall k :: 0 <= k < |a| ==> a[k] == chain[k];
    assert forall k :: 0 <= k < |b| ==> b[k] == chain[i + 1 + k];
    SameArrays(pages, pages', a);
    SameArrays(pages, pages', b);
  }

  /** A page with its first value has been linked behind the last one. */
  lemma PageAppended(pages: Pages, chain: seq<int>, q: int, words: seq<int>, newWords: seq<int>)
    requires ChainOk(pages, chain) && q !in pages && |words| == |newWords| == PAGE_WORDS
    requires IsWords(pages, chain[|chain| - 1]) && Elsewhere(pages[chain[|chain| - 1]].words, words, 1, 2) && words[1] == q
    requires newWords[0] == chain[|chain| - 1] && newWords[1] == NULL
    requires IsArray(newWords, 2, NUM_DUPLICATE_VALUES) && newWords[2] >= 1
    ensures var pages' := pages[chain[|chain| - 1] := Words(words)][q := Words(newWords)];
            && ChainOk(pages', chain + [q]) && Readable(pages, chain) && Readable(pages', chain + [q])
            && ChainValues(pages', chain + [q]) == ChainValues(pages, chain) + ArrayAt(newWords, 2)
  {
    hide IsArray;
    var last := |chain| - 1;
    var pages', longer := pages[chain[last] := Words(words)][q := Words(newWords)], chain + [q];
    ChainIsReadable(pages, chain);
    assert LinkShaped(pages, chain, last);
    SameWords(pages[chain[last]].words, words);
    forall k | 0 <= k < |chain| ensures chain[k] in pages && chain[k] != q {
      assert LinkShaped(pages, chain, k);
    }
    forall k | 0 <= k < |longer| ensures LinkShaped(pages', longer, k) && Filled(pages', longer, k) {
      if k < |chain| {
        assert LinkShaped(pages, chain, k) && Filled(pages, chain, k) && longer[k] == chain[k];
      }
    }
    ChainIsReadable(pages', longer);
    ChainSplit(pages', longer, |chain|);
    assert longer[..|chain|] == chain && longer[|chain| + 1..] == [];
    assert forall k :: 0 <= k < |chain| ==> longer[k] == chain[k];
    forall k | 0 <= k < |chain| ensures PageValues(pages', chain[k]) == PageValues(pages, chain[k]) {
    }
    SameArrays(pages, pages', chain);
  }

  lemma SameWords(was: seq<int>, now: seq<int>)
    requires |was| == |now| == PAGE_WORDS && Elsewhere(was, now, 1, 2) && IsArray(was, 2, NUM_DUPLICATE_VALUES)
    ensures IsArray(now, 2, NUM_DUPLICATE_VALUES) && now[2] == was[2] && now[0] == was[0]
    ensures ArrayAt(now, 2) == ArrayAt(was, 2)
  {
    assert ArrayAt(now, 2) == ArrayAt(was, 2);
  }

  // ---- taking a page out ----

  function Relinked(page: Page, at: nat, link: int): Page
    requires page.Words? && at < |page.words|
  {
    Words(page.words[at := link])
  }

  function LeftOf(chain: seq<int>, i: nat): int
    requires i < |chain|
  {
    if i == 0 then NULL else chain[i - 1]
  }

  function RightOf(chain: seq<int>, i: nat): int
    requires i < |chain|
  {
    if i + 1 == |chain| then NULL else chain[i + 1]
  }

  function Without<T>(s: seq<T>, i: nat): seq<T>
    requires i < |s|
  {
    s[..i] + s[i + 1..]
  }

  /** Page number `i` is gone, and its neighbours are linked to each other. */
  ghost predicate PageTakenOut(pages: Pages, pages': Pages, chain: seq<int>, i: nat)
    requires ChainShaped(pages, chain) && i < |chain|
  {
    && pages'.Keys == pages.Keys - {chain[i]}
    && (forall p :: p in pages' && p != LeftOf(chain, i) && p != RightOf(chain, i) ==> pages'[p] == pages[p])
    && (i > 0 ==> (assert LinkShaped(pages, chain, i - 1); chain[i - 1] in pages'
                   && pages'[chain[i - 1]] == Relinked(pages[chain[i - 1]], 1, RightOf(chain, i))))
    && (i + 1 < |chain| ==> (assert LinkShaped(pages, chain, i + 1); chain[i + 1] in pages'
                             && pages'[chain[i + 1]] == Relinked(pages[chain[i + 1]], 0, LeftOf(chain, i))))
  }

  /** A new link leaves the array as it is. */
  lemma RelinkedArray(page: Page, at: nat, link: int)
    requires page.Words? && |page.words| == PAGE_WORDS && at < 2 && IsArray(page.words, 2, NUM_DUPLICATE_VALUES)
    ensures IsArray(Relinked(page, at, link).words, 2, NUM_DUPLICATE_VALUES)
    ensures Relinked(page, at, link).words[2] == page.words[2]
    ensures ArrayAt(Relinked(page, at, link).words, 2) == ArrayAt(page.words, 2)
  {
    assert ArrayAt(Relinked(page, at, link).words, 2) == ArrayAt(page.words, 2);
  }

  /** The page at `k` of the old chain, other than the one taken out, as it is now. */
  lemma StillThere(pages: Pages, pages': Pages, chain: seq<int>, i: nat, k: nat)
    requires ChainShaped(pages, chain) && i < |chain| && PageTakenOut(pages, pages', chain, i) && k < |chain| && k != i
    requires forall m :: 0 <= m < |chain| ==> chain[m] != NULL
    ensures IsWords(pages', chain[k]) && IsArray(pages'[chain[k]].words, 2, NUM_DUPLICATE_VALUES)
    ensures HasArray(pages, chain[k]) && HasArray(pages', chain[k]) && PageValues(pages', chain[k]) == PageValues(pages, chain[k])
    ensures pages'[chain[k]].words[0] == if k == i + 1 then LeftOf(chain, i) else LeftOf(chain, k)
    ensures pages'[chain[k]].words[1] == if k + 1 == i then RightOf(chain, i) else RightOf(chain, k)
  {
    hide IsArray;
    assert LinkShaped(pages, chain, k);
    ChainIsReadable(pages, chain);
    assert chain[k] != chain[i];
    if k + 1 == i {
      RelinkedArray(pages[chain[k]], 1, RightOf(chain, i));
    } else if k == i + 1 {
      RelinkedArray(pages[chain[k]], 0, LeftOf(chain, i));
    } else {
      assert chain[k] != LeftOf(chain, i) && chain[k] != RightOf(chain, i);
    }
  }

  lemma PageUnlinked(pages: Pages, pages': Pages, chain: seq<int>, i: nat)
    requires ChainShaped(pages, chain) && |chain| >= 2 && i < |chain| && PageTakenOut(pages, pages', chain, i)
    requires forall m :: 0 <= m < |chain| ==> chain[m] != NULL
    ensures ChainShaped(pages', Without(chain, i)) && Readable(pages, chain) && Readable(pages', Without(chain, i))
    ensures multiset(ChainValues(pages, chain)) == multiset(ChainValues(pages', Without(chain, i))) + multiset(PageValues(pages, chain[i]))
  {
    hide IsArray, PageTakenOut, ArrayAt, ChainValues;
    var less := Without(chain, i);
    assert forall k :: 0 <= k < |less| ==> less[k] == chain[if k < i then k else k + 1];
    forall k | 0 <= k < |less| ensures LinkShaped(pages', less, k) {
      StillThere(pages, pages', chain, i, if k < i then k else k + 1);
    }
    ChainIsReadable(pages, chain);
    ChainIsReadable(pages', less);
    ChainSplit(pages, chain, i);
    var a, b := chain[..i], chain[i + 1..];
    forall k | 0 <= k < |a| ensures HasArray(pages', a[k]) && PageValues(pages', a[k]) == PageValues(pages, a[k]) {
      StillThere(pages, pages', chain, i, k);
    }
    forall k | 0 <= k < |b| ensures HasArray(pages', b[k]) && PageValues(pages', b[k]) == PageValues(pages, b[k]) {
      StillThere(pages, pages', chain, i, i + 1 + k);
    }
    SameArrays(pages, pages', a);
    SameArrays(pages, pages', b);
    ChainValuesJoin(pages', a, b);
  }
}
