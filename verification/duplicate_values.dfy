/** The three forms in which a key keeps its values: the plain value, a fragment of a shared page, a chain
    of pages of its own (BPlusTree.h, link packing and the page layouts; BPlusTree.cpp, duplicates). */
module DuplicateValues {
  import opened TreeShape
  import opened SortedArrays

  const LINK_LIMIT: int := 0x4000_0000_0000_0000  // 2 to the 62nd
  const DUPLICATE_NODE: nat := 2
  const DUPLICATE_FRAGMENT: nat := 3
  const NUM_FRAGMENT_VALUES: nat := 7
  const NUM_DUPLICATE_VALUES: nat := 125
  const MAX_FRAGMENTS: nat := 16
  const PAGE_WORDS: nat := 128

  // ---- links, as unsigned 64-bit numbers ----

  function LinkType(link: nat): nat { link / LINK_LIMIT }

  function FragmentOffset(link: nat): nat { link % LINK_LIMIT / 1024 * 1024 }

  function FragmentIndex(link: nat): nat { link % 1024 }

  function MakeLink(kind: nat, offset: nat, index: nat): nat {
    kind * LINK_LIMIT + offset % LINK_LIMIT / 1024 * 1024 + index % 1024
  }

  predicate IsDuplicate(link: nat) { LinkType(link) % 4 > 0 }

  predicate IsPageOffset(p: int) { 0 < p < LINK_LIMIT && p % 1024 == 0 }

  /** A link tells its type, its page and its fragment. */
  lemma LinkRoundTrip(kind: nat, offset: nat, index: nat)
    requires 1 <= kind < 4 && IsPageOffset(offset) && index < 1024
    ensures LinkType(MakeLink(kind, offset, index)) == kind && IsDuplicate(MakeLink(kind, offset, index))
    ensures FragmentOffset(MakeLink(kind, offset, index)) == offset
    ensures FragmentIndex(MakeLink(kind, offset, index)) == index
  {
    assert offset % LINK_LIMIT / 1024 * 1024 == offset;
  }

  /** The bare offset of a page stands for itself. */
  lemma BareOffset(offset: nat)
    requires IsPageOffset(offset)
    ensures FragmentOffset(offset) == offset && !IsDuplicate(offset)
  {
  }

  // ---- who owns what ----

  datatype Role = Fragments | ChainOf(ord: real)

  /** For each page: whether it is cut into fragments or belongs to a key; for each key with a chain, its
      pages in order; for each used fragment, the key it belongs to. */
  datatype Dups = Dups(role: map<int, Role>, chains: map<real, seq<int>>, holder: map<(int, nat), real>)

  ghost predicate IsWords(pages: Pages, p: int) {
    p in pages && pages[p].Words? && |pages[p].words| == PAGE_WORDS
  }

  /** The fragment `j` of page `p` is a sorted array of 2 to 7 values. */
  ghost predicate FragmentOk(pages: Pages, p: int, j: nat) {
    && IsWords(pages, p) && j < MAX_FRAGMENTS
    && IsArray(pages[p].words, 8 * j, NUM_FRAGMENT_VALUES) && pages[p].words[8 * j] >= 2
  }

  /** Page number `i` of a chain: its neighbours, and a sorted array. */
  ghost predicate LinkShaped(pages: Pages, chain: seq<int>, i: nat)
    requires i < |chain|
  {
    && IsWords(pages, chain[i])
    && pages[chain[i]].words[0] == (if i == 0 then NULL else chain[i - 1])
    && pages[chain[i]].words[1] == (if i + 1 == |chain| then NULL else chain[i + 1])
    && IsArray(pages[chain[i]].words, 2, NUM_DUPLICATE_VALUES)
  }

  ghost predicate ChainShaped(pages: Pages, chain: seq<int>) {
    && chain != []
    && (forall i, j :: 0 <= i < j < |chain| ==> chain[i] != chain[j])
    && (forall i :: 0 <= i < |chain| ==> LinkShaped(pages, chain, i))
  }

  /** A page on its own has more values than a fragment takes; no page is empty. */
  ghost predicate Filled(pages: Pages, chain: seq<int>, i: nat)
    requires i < |chain|
  {
    IsWords(pages, chain[i]) && pages[chain[i]].words[2] >= if |chain| == 1 then NUM_FRAGMENT_VALUES + 1 else 1
  }

  ghost predicate ChainOk(pages: Pages, chain: seq<int>) {
    ChainShaped(pages, chain) && forall i :: 0 <= i < |chain| ==> Filled(pages, chain, i)
  }

  /** The word of a key and what it leads to. */
  ghost predicate KeyOk(pages: Pages, d: Dups, ord: real, word: int) {
    && word >= 0
    && if !IsDuplicate(word) then word < LINK_LIMIT && ord !in d.chains
       else if LinkType(word) == DUPLICATE_FRAGMENT then
         var p, j := FragmentOffset(word), FragmentIndex(word);
         && word == MakeLink(DUPLICATE_FRAGMENT, p, j) && IsPageOffset(p) && FragmentOk(pages, p, j)
         && (p, j) in d.holder && d.holder[(p, j)] == ord && ord !in d.chains
       else
         && ord in d.chains && ChainOk(pages, d.chains[ord])
         && (forall i :: 0 <= i < |d.chains[ord]| ==> d.chains[ord][i] in d.role && d.role[d.chains[ord][i]] == ChainOf(ord))
         && IsPageOffset(d.chains[ord][0]) && word == MakeLink(DUPLICATE_NODE, d.chains[ord][0], 0)
  }

  predicate HasArray(pages: Pages, p: int) {
    p in pages && pages[p].Words? && 3 <= |pages[p].words| && 0 <= pages[p].words[2] <= |pages[p].words| - 3
  }

  function PageValues(pages: Pages, p: int): (s: seq<int>)
    requires HasArray(pages, p)
  {
    ArrayAt(pages[p].words, 2)
  }

  ghost predicate Readable(pages: Pages, chain: seq<int>) {
    forall i :: 0 <= i < |chain| ==> HasArray(pages, chain[i])
  }

  lemma ChainIsReadable(pages: Pages, chain: seq<int>)
    requires ChainShaped(pages, chain)
    ensures Readable(pages, chain)
  {
    forall i | 0 <= i < |chain| ensures IsWords(pages, chain[i]) && 0 <= pages[chain[i]].words[2] <= 125 {
      assert LinkShaped(pages, chain, i);
    }
  }

  /** The values of a chain, page by page. */
  ghost function ChainValues(pages: Pages, chain: seq<int>): seq<int>
    requires Readable(pages, chain)
  {
    if chain == [] then [] else PageValues(pages, chain[0]) + ChainValues(pages, chain[1..])
  }

  /** The values of a key, in the order in which they are read. */
  ghost function ValuesOf(pages: Pages, d: Dups, ord: real, word: int): seq<int>
    requires KeyOk(pages, d, ord, word)
  {
    if !IsDuplicate(word) then [word]
    else if LinkType(word) == DUPLICATE_FRAGMENT then ArrayAt(pages[FragmentOffset(word)].words, 8 * FragmentIndex(word))
    else
      ChainIsReadable(pages, d.chains[ord]);
      ChainValues(pages, d.chains[ord])
  }

  predicate LeadsToChain(word: int) {
    word >= 0 && LinkType(word) == DUPLICATE_NODE
  }

  /** All duplicate pages, and all keys. */
  ghost predicate DupsOk(pages: Pages, contents: map<real, int>, d: Dups) {
    && d.role.Keys == pages.Keys
    && (forall p :: p in pages ==> IsWords(pages, p) && IsPageOffset(p))
    && (forall ord :: ord in contents ==> KeyOk(pages, d, ord, contents[ord]))
    && (forall ord :: ord in d.chains ==> ord in contents && LeadsToChain(contents[ord]))
    && (forall p :: p in d.role && d.role[p].ChainOf? ==> d.role[p].ord in d.chains && p in d.chains[d.role[p].ord])
    && (forall p, j :: (p, j) in d.holder ==> HolderOk(contents, d, p, j))
    && (forall p :: p in d.role && d.role[p].Fragments? ==> FragmentsOk(pages, d, p))
  }

  ghost predicate HolderOk(contents: map<real, int>, d: Dups, p: int, j: nat) {
    && p in d.role && d.role[p].Fragments? && j < MAX_FRAGMENTS && (p, j) in d.holder && IsPageOffset(p)
    && d.holder[(p, j)] in contents && contents[d.holder[(p, j)]] == MakeLink(DUPLICATE_FRAGMENT, p, j)
  }

  /** Unused fragments are empty, and one at least is used. */
  ghost predicate FragmentsOk(pages: Pages, d: Dups, p: int) {
    && IsWords(pages, p)
    && (forall j: nat {:trigger (p, j) in d.holder} :: j < MAX_FRAGMENTS && (p, j) !in d.holder ==> pages[p].words[8 * j] == 0)
    && exists j: nat :: j < MAX_FRAGMENTS && (p, j) in d.holder
  }

  // ---- changing one key leaves the others alone ----

  ghost predicate SameFragment(pages: Pages, pages': Pages, p: int, j: nat) {
    && IsWords(pages, p) && IsWords(pages', p)
    && forall k {:trigger pages'[p].words[k]} :: 8 * j <= k < 8 * j + 8 && k < PAGE_WORDS ==> pages'[p].words[k] == pages[p].words[k]
  }

  /** Whatever belongs to keys other than `ord` is as before. */
  ghost predicate OthersKept(pages: Pages, pages': Pages, d: Dups, d': Dups, ord: real) {
    && (forall p :: p in d.role && d.role[p].ChainOf? && d.role[p].ord != ord ==>
          p in pages && p in pages' && pages'[p] == pages[p] && p in d'.role && d'.role[p] == d.role[p])
    && (forall p, j :: (p, j) in d.holder && d.holder[(p, j)] != ord ==>
          SameFragment(pages, pages', p, j) && p in d'.role && d'.role[p] == Fragments
          && (p, j) in d'.holder && d'.holder[(p, j)] == d.holder[(p, j)])
    && (forall o :: o != ord ==> (o in d.chains <==> o in d'.chains) && (o in d.chains ==> d'.chains[o] == d.chains[o]))
  }

  lemma OtherKeyKept(pages: Pages, pages': Pages, d: Dups, d': Dups, ord: real, other: real, word: int)
    requires OthersKept(pages, pages', d, d', ord) && other != ord && KeyOk(pages, d, other, word)
    ensures KeyOk(pages', d', other, word) && ValuesOf(pages', d', other, word) == ValuesOf(pages, d, other, word)
  {
    hide Ascending;
    if IsDuplicate(word) {
      if LinkType(word) == DUPLICATE_FRAGMENT {
        var p, j := FragmentOffset(word), FragmentIndex(word);
        FragmentKept(pages, pages', p, j);
      } else {
        var chain := d.chains[other];
        forall i | 0 <= i < |chain| ensures LinkShaped(pages', chain, i) && Filled(pages', chain, i) {
          assert LinkShaped(pages, chain, i) && Filled(pages, chain, i) && d.role[chain[i]] == ChainOf(other);
        }
        ChainIsReadable(pages, chain);
        assert forall i :: 0 <= i < |chain| ==> pages'[chain[i]] == pages[chain[i]] by {
          forall i | 0 <= i < |chain| ensures pages'[chain[i]] == pages[chain[i]] {
            assert d.role[chain[i]] == ChainOf(other);
          }
        }
        ChainValuesKept(pages, pages', chain);
      }
    }
  }

  lemma FragmentKept(pages: Pages, pages': Pages, p: int, j: nat)
    requires SameFragment(pages, pages', p, j) && FragmentOk(pages, p, j)
    ensures FragmentOk(pages', p, j) && ArrayAt(pages'[p].words, 8 * j) == ArrayAt(pages[p].words, 8 * j)
  {
    assert ArrayAt(pages'[p].words, 8 * j) == ArrayAt(pages[p].words, 8 * j);
  }

  lemma {:induction false} ChainValuesKept(pages: Pages, pages': Pages, chain: seq<int>)
    requires Readable(pages, chain) && forall i :: 0 <= i < |chain| ==> chain[i] in pages' && pages'[chain[i]] == pages[chain[i]]
    ensures Readable(pages', chain) && ChainValues(pages', chain) == ChainValues(pages, chain)
  {
    if chain != [] {
      assert forall i :: 0 <= i < |chain[1..]| ==> chain[1..][i] == chain[i + 1];
      ChainValuesKept(pages, pages', chain[1..]);
    }
  }

  lemma {:induction false} ChainValuesJoin(pages: Pages, a: seq<int>, b: seq<int>)
    requires Readable(pages, a) && Readable(pages, b)
    ensures Readable(pages, a + b) && ChainValues(pages, a + b) == ChainValues(pages, a) + ChainValues(pages, b)
  {
    if a == [] {
      assert a + b == b;
    } else {
      var rest := a[1..];
      assert Readable(pages, rest) by { assert forall i :: 0 <= i < |rest| ==> rest[i] == a[i + 1]; }
      ChainValuesJoin(pages, rest, b);
      assert (a + b)[0] == a[0] && (a + b)[1..] == rest + b;
      assert forall i :: 0 <= i < |a + b| ==> (a + b)[i] == if i < |a| then a[i] else b[i - |a|];
      Regroup(PageValues(pages, a[0]), ChainValues(pages, rest), ChainValues(pages, b));
    }
  }

  lemma Regroup(x: seq<int>, y: seq<int>, z: seq<int>)
    ensures x + (y + z) == x + y + z
  {
  }
}
