/** A key gives up the storage of its values, and takes other storage: every change of form is one after the
    other, and neither touches what belongs to other keys. */
module DuplicateSteps {
  import opened TreeShape
  import opened SortedArrays
  import opened DuplicateValues

  /** Every key but `ord` has the values it had. */
  ghost predicate SameValues(pages: Pages, contents: map<real, int>, d: Dups,
                             pages': Pages, contents': map<real, int>, d': Dups, ord: real) {
    forall o :: o != ord && o in contents ==>
      && o in contents' && KeyOk(pages, d, o, contents[o]) && KeyOk(pages', d', o, contents'[o])
      && ValuesOf(pages', d', o, contents'[o]) == ValuesOf(pages, d, o, contents[o])
  }

  lemma SameValuesTwice(pages: Pages, contents: map<real, int>, d: Dups, pages0: Pages, contents0: map<real, int>, d0: Dups,
                        pages': Pages, contents': map<real, int>, d': Dups, ord: real)
    requires SameValues(pages, contents, d, pages0, contents0, d0, ord)
    requires SameValues(pages0, contents0, d0, pages', contents', d', ord)
    ensures SameValues(pages, contents, d, pages', contents', d', ord)
  {
    hide KeyOk, ValuesOf;
  }

  /** No key but `ord` owns anything it did not own before. */
  ghost predicate NoNewOwners(d: Dups, d': Dups, ord: real) {
    && (forall p :: p in d'.role && d'.role[p].ChainOf? && d'.role[p].ord != ord ==> p in d.role && d.role[p] == d'.role[p])
    && (forall p, j :: (p, j) in d'.holder && d'.holder[(p, j)] != ord ==> (p, j) in d.holder && d.holder[(p, j)] == d'.holder[(p, j)])
  }

  /** What `ord` owns is what its word leads to. */
  ghost predicate OwnedByWord(contents: map<real, int>, d: Dups, ord: real) {
    && (forall p :: p in d.role && d.role[p] == ChainOf(ord) ==> ord in d.chains && p in d.chains[ord])
    && (forall p, j :: (p, j) in d.holder && d.holder[(p, j)] == ord ==> HolderOk(contents, d, p, j))
  }

  ghost predicate PagesOk(pages: Pages, d: Dups) {
    && d.role.Keys == pages.Keys
    && (forall p :: p in pages ==> IsWords(pages, p) && IsPageOffset(p))
    && (forall p :: p in d.role && d.role[p].Fragments? ==> FragmentsOk(pages, d, p))
  }

  /** A state is put together again from what one key and the others have. */
  lemma Assemble(pages: Pages, contents: map<real, int>, d: Dups, pages': Pages, contents': map<real, int>, d': Dups, ord: real)
    requires DupsOk(pages, contents, d) && OthersKept(pages, pages', d, d', ord) && NoNewOwners(d, d', ord)
    requires contents' - {ord} == contents - {ord}
    requires if ord in contents' then KeyOk(pages', d', ord, contents'[ord]) else ord !in d'.chains
    requires PagesOk(pages', d') && OwnedByWord(contents', d', ord)
    ensures DupsOk(pages', contents', d') && SameValues(pages, contents, d, pages', contents', d', ord)
  {
    hide ValuesOf, FragmentsOk, IsArray;
    forall o | o != ord && o in contents
      ensures o in contents' && contents'[o] == contents[o] && KeyOk(pages', d', o, contents[o])
              && ValuesOf(pages', d', o, contents[o]) == ValuesOf(pages, d, o, contents[o])
    {
      assert o in contents - {ord} && o in contents' - {ord};
      assert (contents - {ord})[o] == (contents' - {ord})[o];
      OtherKeyKept(pages, pages', d, d', ord, o, contents[o]);
    }
    AssembleRest(pages, contents, d, pages', contents', d', ord);
  }

  lemma AssembleRest(pages: Pages, contents: map<real, int>, d: Dups, pages': Pages, contents': map<real, int>, d': Dups, ord: real)
    requires DupsOk(pages, contents, d) && OthersKept(pages, pages', d, d', ord) && NoNewOwners(d, d', ord)
    requires forall o :: o != ord && o in contents ==> o in contents' && contents'[o] == contents[o] && KeyOk(pages', d', o, contents[o])
    requires contents' - {ord} == contents - {ord}
    requires if ord in contents' then KeyOk(pages', d', ord, contents'[ord]) else ord !in d'.chains
    requires PagesOk(pages', d') && OwnedByWord(contents', d', ord)
    ensures DupsOk(pages', contents', d')
  {
    hide FragmentsOk, ChainOk, FragmentOk, SameFragment;
    forall o | o in contents' ensures KeyOk(pages', d', o, contents'[o]) {
      if o != ord {
        assert o in contents' - {ord};
      }
    }
    forall o | o in d'.chains
      ensures o in contents' && LeadsToChain(contents'[o])
    {
      if o == ord {
        ChainedWord(pages', d', ord, contents'[ord]);
      }
    }
    forall p, j | (p, j) in d'.holder ensures HolderOk(contents', d', p, j) {
      if d'.holder[(p, j)] != ord {
        assert HolderOk(contents, d, p, j);
      }
    }
  }

  lemma ChainedWord(pages: Pages, d: Dups, ord: real, word: int)
    requires KeyOk(pages, d, ord, word) && ord in d.chains
    ensures LeadsToChain(word)
  {
    hide FragmentOk;
    LinkRoundTrip(DUPLICATE_NODE, d.chains[ord][0], 0);
  }

  // ---- giving up ----

  ghost predicate Shared(d: Dups, p: int, j: nat) {
    exists k: nat :: k < MAX_FRAGMENTS && k != j && (p, k) in d.holder
  }

  function Members(chain: seq<int>): set<int> {
    set i | 0 <= i < |chain| :: chain[i]
  }

  /** The pages when the key has given up what it had: its fragment is empty, or its pages are gone. */
  ghost predicate GivenUp(pages: Pages, d: Dups, ord: real, word: int, pages0: Pages)
    requires KeyOk(pages, d, ord, word)
  {
    if !IsDuplicate(word) then pages0 == pages
    else if LinkType(word) == DUPLICATE_FRAGMENT then
      var p, j := FragmentOffset(word), FragmentIndex(word);
      if Shared(d, p, j) then FragmentEmptied(pages, pages0, p, j) else pages0 == pages - {p}
    else pages0 == pages - Members(d.chains[ord])
  }

  ghost predicate FragmentEmptied(pages: Pages, pages0: Pages, p: int, j: nat) {
    && j < MAX_FRAGMENTS && IsWords(pages0, p) && pages0[p].words[8 * j] == 0 && p in pages
    && pages0.Keys == pages.Keys && (forall q :: q in pages && q != p ==> pages0[q] == pages[q])
    && forall k: nat {:trigger SameFragment(pages, pages0, p, k)} :: k < MAX_FRAGMENTS && k != j ==> SameFragment(pages, pages0, p, k)
  }

  ghost function ReleasedDups(pages: Pages, d: Dups, ord: real, word: int): Dups
    requires KeyOk(pages, d, ord, word)
  {
    if !IsDuplicate(word) then d
    else if LinkType(word) == DUPLICATE_FRAGMENT then
      var p, j := FragmentOffset(word), FragmentIndex(word);
      d.(holder := d.holder - {(p, j)}, role := if Shared(d, p, j) then d.role else d.role - {p})
    else d.(role := d.role - Members(d.chains[ord]), chains := d.chains - {ord})
  }

  lemma Release(pages: Pages, contents: map<real, int>, d: Dups, ord: real, pages0: Pages)
    requires DupsOk(pages, contents, d) && ord in contents && KeyOk(pages, d, ord, contents[ord])
    requires GivenUp(pages, d, ord, contents[ord], pages0)
    ensures var d0 := ReleasedDups(pages, d, ord, contents[ord]);
            && DupsOk(pages0, contents - {ord}, d0) && SameValues(pages, contents, d, pages0, contents - {ord}, d0, ord)
  {
    var word := contents[ord];
    if !IsDuplicate(word) {
      ReleasePlain(pages, contents, d, ord);
    } else if LinkType(word) == DUPLICATE_FRAGMENT {
      if Shared(d, FragmentOffset(word), FragmentIndex(word)) {
        ReleaseShared(pages, contents, d, ord, FragmentOffset(word), FragmentIndex(word), pages0);
      } else {
        ReleaseAlone(pages, contents, d, ord, FragmentOffset(word), FragmentIndex(word));
      }
    } else {
      ReleaseChain(pages, contents, d, ord);
    }
  }

  /** A key that holds a fragment is the one whose word leads to it. */
  lemma HolderIsKey(pages: Pages, contents: map<real, int>, d: Dups, ord: real, p: int, j: nat)
    requires DupsOk(pages, contents, d) && ord in contents && (p, j) in d.holder && d.holder[(p, j)] == ord
    ensures IsDuplicate(contents[ord]) && LinkType(contents[ord]) == DUPLICATE_FRAGMENT
    ensures FragmentOffset(contents[ord]) == p && FragmentIndex(contents[ord]) == j
  {
    hide KeyOk, FragmentsOk;
    assert HolderOk(contents, d, p, j);
    LinkRoundTrip(DUPLICATE_FRAGMENT, p, j);
  }

  lemma ReleasePlain(pages: Pages, contents: map<real, int>, d: Dups, ord: real)
    requires DupsOk(pages, contents, d) && ord in contents && contents[ord] >= 0 && !IsDuplicate(contents[ord])
    ensures DupsOk(pages, contents - {ord}, d) && SameValues(pages, contents, d, pages, contents - {ord}, d, ord)
  {
    hide FragmentsOk, ChainOk, FragmentOk, LinkType;
    forall p, j | (p, j) in d.holder ensures d.holder[(p, j)] != ord {
      if d.holder[(p, j)] == ord {
        HolderIsKey(pages, contents, d, ord, p, j);
      }
    }
    forall p, j | (p, j) in d.holder ensures SameFragment(pages, pages, p, j) && p in d.role && d.role[p] == Fragments {
      assert HolderOk(contents, d, p, j);
    }
    Assemble(pages, contents, d, pages, contents - {ord}, d, ord);
  }

  /** The fragment is emptied; others in the page stay. */
  lemma ReleaseShared(pages: Pages, contents: map<real, int>, d: Dups, ord: real, p: int, j: nat, pages': Pages)
    requires DupsOk(pages, contents, d) && ord in contents && (p, j) in d.holder && d.holder[(p, j)] == ord && Shared(d, p, j)
    requires FragmentEmptied(pages, pages', p, j)
    ensures var d' := d.(holder := d.holder - {(p, j)});
            && DupsOk(pages', contents - {ord}, d') && SameValues(pages, contents, d, pages', contents - {ord}, d', ord)
  {
    hide KeyOk, LinkType;
    assert HolderOk(contents, d, p, j);
    var d' := d.(holder := d.holder - {(p, j)});
    NoChain(pages, contents, d, ord, p, j);
    forall q, k | (q, k) in d.holder && d.holder[(q, k)] == ord ensures q == p && k == j {
      HolderIsKey(pages, contents, d, ord, q, k);
      HolderIsKey(pages, contents, d, ord, p, j);
    }
    forall q, k | (q, k) in d.holder && d.holder[(q, k)] != ord
      ensures SameFragment(pages, pages', q, k) && q in d'.role && d'.role[q] == Fragments && (q, k) in d'.holder
    {
      assert HolderOk(contents, d, q, k);
      assert q == p ==> SameFragment(pages, pages', p, k);
    }
    forall q | q in d'.role && d'.role[q].Fragments? ensures FragmentsOk(pages', d', q) {
      EmptiedFragmentsOk(pages, d, p, j, pages', q);
    }
    Assemble(pages, contents, d, pages', contents - {ord}, d', ord);
  }

  lemma EmptiedFragmentsOk(pages: Pages, d: Dups, p: int, j: nat, pages': Pages, q: int)
    requires FragmentEmptied(pages, pages', p, j) && FragmentsOk(pages, d, q) && Shared(d, p, j)
    ensures FragmentsOk(pages', d.(holder := d.holder - {(p, j)}), q)
  {
    var d' := d.(holder := d.holder - {(p, j)});
    var k: nat :| k < MAX_FRAGMENTS && (q, k) in d.holder && (q == p ==> k != j);
    assert (q, k) in d'.holder;
    forall i: nat | i < MAX_FRAGMENTS && (q, i) !in d'.holder ensures pages'[q].words[8 * i] == 0 {
      if q == p && i != j {
        assert SameFragment(pages, pages', p, i) && (p, i) !in d.holder;
        assert pages'[p].words[8 * i] == pages[p].words[8 * i];
      } else if q != p {
        assert (q, i) !in d.holder;
      }
    }
  }

  /** A key with a fragment has no chain. */
  lemma NoChain(pages: Pages, contents: map<real, int>, d: Dups, ord: real, p: int, j: nat)
    requires DupsOk(pages, contents, d) && ord in contents && (p, j) in d.holder && d.holder[(p, j)] == ord
    ensures ord !in d.chains
  {
    hide KeyOk, FragmentsOk;
    HolderIsKey(pages, contents, d, ord, p, j);
  }

  /** The page goes with its only fragment. */
  lemma ReleaseAlone(pages: Pages, contents: map<real, int>, d: Dups, ord: real, p: int, j: nat)
    requires DupsOk(pages, contents, d) && ord in contents && (p, j) in d.holder && d.holder[(p, j)] == ord && !Shared(d, p, j)
    ensures p in pages
    ensures var pages', d' := pages - {p}, d.(holder := d.holder - {(p, j)}, role := d.role - {p});
            && DupsOk(pages', contents - {ord}, d') && SameValues(pages, contents, d, pages', contents - {ord}, d', ord)
  {
    hide KeyOk, LinkType;
    assert HolderOk(contents, d, p, j);
    var pages', d' := pages - {p}, d.(holder := d.holder - {(p, j)}, role := d.role - {p});
    NoChain(pages, contents, d, ord, p, j);
    forall q, k | (q, k) in d.holder && d.holder[(q, k)] == ord ensures q == p && k == j {
      HolderIsKey(pages, contents, d, ord, q, k);
      HolderIsKey(pages, contents, d, ord, p, j);
    }
    forall q, k | (q, k) in d.holder && d.holder[(q, k)] != ord
      ensures q != p && SameFragment(pages, pages', q, k) && q in d'.role && d'.role[q] == Fragments && (q, k) in d'.holder
    {
      assert HolderOk(contents, d, q, k);
    }
    forall q | q in d'.role && d'.role[q].Fragments? ensures FragmentsOk(pages', d', q) {
      assert FragmentsOk(pages, d, q);
      var k: nat :| k < MAX_FRAGMENTS && (q, k) in d.holder;
      assert (q, k) in d'.holder;
    }
    Assemble(pages, contents, d, pages', contents - {ord}, d', ord);
  }

  /** All pages of the chain go. */
  lemma ReleaseChain(pages: Pages, contents: map<real, int>, d: Dups, ord: real)
    requires DupsOk(pages, contents, d) && ord in contents && ord in d.chains
    ensures var pages', d' := pages - Members(d.chains[ord]),
                              d.(role := d.role - Members(d.chains[ord]), chains := d.chains - {ord});
            && DupsOk(pages', contents - {ord}, d') && SameValues(pages, contents, d, pages', contents - {ord}, d', ord)
  {
    hide LinkType, ChainOk, FragmentOk;
    var gone := Members(d.chains[ord]);
    var pages', d' := pages - gone, d.(role := d.role - gone, chains := d.chains - {ord});
    assert KeyOk(pages, d, ord, contents[ord]);
    assert forall q :: q in gone ==> q in d.role && d.role[q] == ChainOf(ord);
    forall q, k | (q, k) in d.holder
      ensures d.holder[(q, k)] != ord && q !in gone && SameFragment(pages, pages', q, k) && q in d'.role && d'.role[q] == Fragments
    {
      assert HolderOk(contents, d, q, k);
      if d.holder[(q, k)] == ord {
        NoChain(pages, contents, d, ord, q, k);
      }
    }
    forall q | q in d'.role && d'.role[q].Fragments? ensures FragmentsOk(pages', d', q) {
      assert FragmentsOk(pages, d, q);
    }
    Assemble(pages, contents, d, pages', contents - {ord}, d', ord);
  }

  // ---- taking ----

  /** A key that is not there owns nothing. */
  lemma Unowned(pages: Pages, contents: map<real, int>, d: Dups, ord: real)
    requires DupsOk(pages, contents, d) && ord !in contents
    ensures ord !in d.chains
    ensures forall p :: p in d.role ==> d.role[p] != ChainOf(ord)
    ensures forall p, j :: (p, j) in d.holder ==> d.holder[(p, j)] != ord && p in d.role && d.role[p] == Fragments
  {
    hide KeyOk, FragmentsOk;
    forall p, j | (p, j) in d.holder ensures d.holder[(p, j)] != ord && p in d.role && d.role[p] == Fragments {
      assert HolderOk(contents, d, p, j);
    }
  }

  lemma TakePlain(pages: Pages, contents: map<real, int>, d: Dups, ord: real, value: int)
    requires DupsOk(pages, contents, d) && ord !in contents && 0 <= value < LINK_LIMIT
    ensures DupsOk(pages, contents[ord := value], d) && KeyOk(pages, d, ord, value) && ValuesOf(pages, d, ord, value) == [value]
    ensures SameValues(pages, contents, d, pages, contents[ord := value], d, ord)
  {
    hide ChainOk, FragmentOk, FragmentsOk;
    Unowned(pages, contents, d, ord);
    assert contents[ord := value] - {ord} == contents - {ord};
    Assemble(pages, contents, d, pages, contents[ord := value], d, ord);
  }

  /** The pages differ in fragment `j` of page `p` at most, which is new or shared out already. */
  ghost predicate FragmentAdded(pages: Pages, pages': Pages, d: Dups, p: int, j: nat) {
    && pages'.Keys == pages.Keys + {p} && (forall q :: q in pages && q != p ==> pages'[q] == pages[q])
    && IsPageOffset(p) && FragmentOk(pages', p, j)
    && (if p in pages
        then p in d.role && d.role[p].Fragments? && (p, j) !in d.holder
             && forall k: nat {:trigger SameFragment(pages, pages', p, k)} :: k < MAX_FRAGMENTS && k != j ==> SameFragment(pages, pages', p, k)
        else forall k: nat {:trigger pages'[p].words[8 * k]} :: k < MAX_FRAGMENTS && k != j ==> pages'[p].words[8 * k] == 0)
  }

  lemma TakeFragment(pages: Pages, contents: map<real, int>, d: Dups, ord: real, pages': Pages, p: int, j: nat)
    requires DupsOk(pages, contents, d) && ord !in contents && FragmentAdded(pages, pages', d, p, j)
    ensures var contents', d' := contents[ord := MakeLink(DUPLICATE_FRAGMENT, p, j)],
                                 d.(role := d.role[p := Fragments], holder := d.holder[(p, j) := ord]);
            && DupsOk(pages', contents', d') && KeyOk(pages', d', ord, contents'[ord])
            && ValuesOf(pages', d', ord, contents'[ord]) == ArrayAt(pages'[p].words, 8 * j)
            && SameValues(pages, contents, d, pages', contents', d', ord)
  {
    hide LinkType, FragmentOffset, FragmentIndex, MakeLink, ChainOk, IsArray, OthersKept, NoNewOwners, KeyOk, DupsOk, SameFragment, FragmentsOk;
    LinkRoundTrip(DUPLICATE_FRAGMENT, p, j);
    var contents', d' := contents[ord := MakeLink(DUPLICATE_FRAGMENT, p, j)],
                         d.(role := d.role[p := Fragments], holder := d.holder[(p, j) := ord]);
    assert contents' - {ord} == contents - {ord};
    AddedKeepsOthers(pages, contents, d, ord, pages', p, j);
    AddedPagesOk(pages, contents, d, ord, pages', p, j);
    AddedKeyOk(pages, contents, d, ord, pages', p, j);
    Assemble(pages, contents, d, pages', contents', d', ord);
  }

  lemma AddedKeepsOthers(pages: Pages, contents: map<real, int>, d: Dups, ord: real, pages': Pages, p: int, j: nat)
    requires DupsOk(pages, contents, d) && ord !in contents && FragmentAdded(pages, pages', d, p, j)
    ensures var d' := d.(role := d.role[p := Fragments], holder := d.holder[(p, j) := ord]);
            OthersKept(pages, pages', d, d', ord) && NoNewOwners(d, d', ord)
  {
    hide KeyOk, MakeLink, IsArray, FragmentsOk;
    Unowned(pages, contents, d, ord);
    var d' := d.(role := d.role[p := Fragments], holder := d.holder[(p, j) := ord]);
    forall q, k | (q, k) in d.holder
      ensures SameFragment(pages, pages', q, k) && d'.role[q] == Fragments && (q, k) != (p, j)
    {
      assert HolderOk(contents, d, q, k);
      assert q == p ==> SameFragment(pages, pages', p, k);
    }
  }

  lemma AddedPagesOk(pages: Pages, contents: map<real, int>, d: Dups, ord: real, pages': Pages, p: int, j: nat)
    requires DupsOk(pages, contents, d) && ord !in contents && FragmentAdded(pages, pages', d, p, j)
    ensures PagesOk(pages', d.(role := d.role[p := Fragments], holder := d.holder[(p, j) := ord]))
  {
    hide KeyOk, MakeLink, IsArray, FragmentsOk, SameFragment;
    var d' := d.(role := d.role[p := Fragments], holder := d.holder[(p, j) := ord]);
    forall q | q in d'.role && d'.role[q].Fragments? ensures FragmentsOk(pages', d', q) {
      AddedFragmentsOk(pages, contents, d, ord, pages', p, j, q);
    }
  }

  lemma AddedKeyOk(pages: Pages, contents: map<real, int>, d: Dups, ord: real, pages': Pages, p: int, j: nat)
    requires DupsOk(pages, contents, d) && ord !in contents && FragmentAdded(pages, pages', d, p, j)
    ensures var contents', d' := contents[ord := MakeLink(DUPLICATE_FRAGMENT, p, j)],
                                 d.(role := d.role[p := Fragments], holder := d.holder[(p, j) := ord]);
            && KeyOk(pages', d', ord, contents'[ord]) && OwnedByWord(contents', d', ord)
            && ValuesOf(pages', d', ord, contents'[ord]) == ArrayAt(pages'[p].words, 8 * j)
  {
    hide LinkType, FragmentOffset, FragmentIndex, MakeLink, ChainOk, IsArray, SameFragment, FragmentsOk, DupsOk;
    LinkRoundTrip(DUPLICATE_FRAGMENT, p, j);
    Unowned(pages, contents, d, ord);
  }

  lemma AddedFragmentsOk(pages: Pages, contents: map<real, int>, d: Dups, ord: real, pages': Pages, p: int, j: nat, q: int)
    requires DupsOk(pages, contents, d) && FragmentAdded(pages, pages', d, p, j)
    requires q in d.role[p := Fragments] && d.role[p := Fragments][q].Fragments?
    ensures FragmentsOk(pages', d.(role := d.role[p := Fragments], holder := d.holder[(p, j) := ord]), q)
  {
    hide KeyOk, MakeLink, IsArray;
    var d' := d.(role := d.role[p := Fragments], holder := d.holder[(p, j) := ord]);
    if q == p {
      assert (p, j) in d'.holder;
      forall k: nat | k < MAX_FRAGMENTS && (p, k) !in d'.holder ensures pages'[p].words[8 * k] == 0 {
        if p in pages {
          assert FragmentsOk(pages, d, p) && SameFragment(pages, pages', p, k);
          assert pages'[p].words[8 * k] == pages[p].words[8 * k];
        } else {
          assert (p, k) !in d.holder;
        }
      }
    } else {
      assert FragmentsOk(pages, d, q);
      var k: nat :| k < MAX_FRAGMENTS && (q, k) in d.holder;
      assert (q, k) in d'.holder;
    }
  }

  function Given(chain: seq<int>, ord: real): map<int, Role> {
    map p | p in Members(chain) :: ChainOf(ord)
  }

  /** The pages of a chain have been added. */
  ghost predicate ChainAdded(pages: Pages, pages': Pages, chain: seq<int>) {
    && ChainOk(pages', chain) && (forall i :: 0 <= i < |chain| ==> IsPageOffset(chain[i]) && chain[i] !in pages)
    && pages'.Keys == pages.Keys + Members(chain) && (forall q :: q in pages ==> pages'[q] == pages[q])
  }

  lemma TakeChain(pages: Pages, contents: map<real, int>, d: Dups, ord: real, pages': Pages, chain: seq<int>)
    requires DupsOk(pages, contents, d) && ord !in contents && ChainAdded(pages, pages', chain)
    ensures Readable(pages', chain)
    ensures var contents', d' := contents[ord := MakeLink(DUPLICATE_NODE, chain[0], 0)], Chained(d, ord, chain);
            && DupsOk(pages', contents', d') && KeyOk(pages', d', ord, contents'[ord])
            && ValuesOf(pages', d', ord, contents'[ord]) == ChainValues(pages', chain)
            && SameValues(pages, contents, d, pages', contents', d', ord)
  {
    hide LinkType, MakeLink, OthersKept, NoNewOwners, KeyOk, DupsOk, FragmentsOk, PagesOk, LinkShaped, Filled, OwnedByWord, Readable, Chained;
    var contents', d' := contents[ord := MakeLink(DUPLICATE_NODE, chain[0], 0)], Chained(d, ord, chain);
    assert contents' - {ord} == contents - {ord};
    ChainKeepsOthers(pages, contents, d, ord, pages', chain);
    ChainPagesOk(pages, contents, d, ord, pages', chain);
    ChainKeyOk(pages, contents, d, ord, pages', chain);
    Assemble(pages, contents, d, pages', contents', d', ord);
  }

  function Chained(d: Dups, ord: real, chain: seq<int>): Dups {
    d.(role := d.role + Given(chain, ord), chains := d.chains[ord := chain])
  }

  lemma ChainKeepsOthers(pages: Pages, contents: map<real, int>, d: Dups, ord: real, pages': Pages, chain: seq<int>)
    requires DupsOk(pages, contents, d) && ord !in contents && ChainAdded(pages, pages', chain)
    ensures OthersKept(pages, pages', d, Chained(d, ord, chain), ord) && NoNewOwners(d, Chained(d, ord, chain), ord)
  {
    hide KeyOk, ChainOk, FragmentsOk;
    var d' := Chained(d, ord, chain);
    Unowned(pages, contents, d, ord);
    assert forall q :: q in d.role ==> q !in Members(chain);
    forall q, k | (q, k) in d.holder
      ensures SameFragment(pages, pages', q, k) && q in d'.role && d'.role[q] == Fragments
    {
      assert HolderOk(contents, d, q, k);
    }
  }

  lemma ChainPagesOk(pages: Pages, contents: map<real, int>, d: Dups, ord: real, pages': Pages, chain: seq<int>)
    requires DupsOk(pages, contents, d) && ord !in contents && ChainAdded(pages, pages', chain)
    ensures PagesOk(pages', Chained(d, ord, chain))
  {
    hide KeyOk, Filled, IsArray;
    var d' := Chained(d, ord, chain);
    forall i | 0 <= i < |chain| ensures IsWords(pages', chain[i]) {
      assert LinkShaped(pages', chain, i);
    }
    forall q | q in d'.role && d'.role[q].Fragments? ensures FragmentsOk(pages', d', q) {
      assert q !in Members(chain) && FragmentsOk(pages, d, q);
    }
  }

  lemma ChainKeyOk(pages: Pages, contents: map<real, int>, d: Dups, ord: real, pages': Pages, chain: seq<int>)
    requires DupsOk(pages, contents, d) && ord !in contents && ChainAdded(pages, pages', chain)
    ensures Readable(pages', chain)
    ensures var contents', d' := contents[ord := MakeLink(DUPLICATE_NODE, chain[0], 0)], Chained(d, ord, chain);
            && KeyOk(pages', d', ord, contents'[ord]) && OwnedByWord(contents', d', ord)
            && ValuesOf(pages', d', ord, contents'[ord]) == ChainValues(pages', chain)
  {
    hide LinkType, MakeLink, FragmentOk, Filled, LinkShaped, FragmentsOk, DupsOk, IsDuplicate;
    ChainIsReadable(pages', chain);
    Unowned(pages, contents, d, ord);
    LinkRoundTrip(DUPLICATE_NODE, chain[0], 0);
    forall i | 0 <= i < |chain| ensures chain[i] in Members(chain) {
    }
  }

  // ---- one after the other ----

  /** The new state is right: `ord` has the word and the values, all other keys have theirs. */
  ghost predicate Reformed(pages: Pages, contents: map<real, int>, d: Dups, ord: real,
                           pages': Pages, d': Dups, word: int, values: seq<int>) {
    && DupsOk(pages', contents[ord := word], d') && KeyOk(pages', d', ord, word)
    && ValuesOf(pages', d', ord, word) == values
    && SameValues(pages, contents, d, pages', contents[ord := word], d', ord)
  }

  /** The key keeps its values in a plain word from now on. */
  lemma ReformPlain(pages: Pages, contents: map<real, int>, d: Dups, ord: real, pages0: Pages, value: int) returns (d': Dups)
    requires DupsOk(pages, contents, d) && ord in contents && KeyOk(pages, d, ord, contents[ord]) && 0 <= value < LINK_LIMIT
    requires GivenUp(pages, d, ord, contents[ord], pages0)
    ensures Reformed(pages, contents, d, ord, pages0, d', value, [value])
  {
    hide DupsOk, KeyOk, GivenUp, ReleasedDups, SameValues, ValuesOf;
    Release(pages, contents, d, ord, pages0);
    d' := ReleasedDups(pages, d, ord, contents[ord]);
    TakePlain(pages0, contents - {ord}, d', ord, value);
    assert (contents - {ord})[ord := value] == contents[ord := value];
    SameValuesTwice(pages, contents, d, pages0, contents - {ord}, d', pages0, contents[ord := value], d', ord);
  }

  /** The key keeps its values in a fragment from now on. */
  lemma ReformFragment(pages: Pages, contents: map<real, int>, d: Dups, ord: real, pages0: Pages, pages': Pages, p: int, j: nat)
      returns (d': Dups)
    requires DupsOk(pages, contents, d) && ord in contents && KeyOk(pages, d, ord, contents[ord])
    requires GivenUp(pages, d, ord, contents[ord], pages0)
    requires FragmentAdded(pages0, pages', ReleasedDups(pages, d, ord, contents[ord]), p, j)
    ensures Reformed(pages, contents, d, ord, pages', d', MakeLink(DUPLICATE_FRAGMENT, p, j), ArrayAt(pages'[p].words, 8 * j))
  {
    hide DupsOk, KeyOk, GivenUp, ReleasedDups, SameValues, ValuesOf, IsArray, SameFragment, MakeLink;
    Release(pages, contents, d, ord, pages0);
    var d0 := ReleasedDups(pages, d, ord, contents[ord]);
    var word := MakeLink(DUPLICATE_FRAGMENT, p, j);
    TakeFragment(pages0, contents - {ord}, d0, ord, pages', p, j);
    d' := d0.(role := d0.role[p := Fragments], holder := d0.holder[(p, j) := ord]);
    assert (contents - {ord})[ord := word] == contents[ord := word];
    SameValuesTwice(pages, contents, d, pages0, contents - {ord}, d0, pages', contents[ord := word], d', ord);
  }

  /** The key keeps its values in a chain from now on. */
  lemma ReformChain(pages: Pages, contents: map<real, int>, d: Dups, ord: real, pages0: Pages, pages': Pages, chain: seq<int>)
      returns (d': Dups)
    requires DupsOk(pages, contents, d) && ord in contents && KeyOk(pages, d, ord, contents[ord])
    requires GivenUp(pages, d, ord, contents[ord], pages0) && ChainAdded(pages0, pages', chain)
    ensures Readable(pages', chain)
    ensures Reformed(pages, contents, d, ord, pages', d', MakeLink(DUPLICATE_NODE, chain[0], 0), ChainValues(pages', chain))
  {
    hide DupsOk, KeyOk, GivenUp, ReleasedDups, SameValues, ValuesOf, MakeLink, LinkShaped, Filled, Readable;
    Release(pages, contents, d, ord, pages0);
    var d0 := ReleasedDups(pages, d, ord, contents[ord]);
    var word := MakeLink(DUPLICATE_NODE, chain[0], 0);
    TakeChain(pages0, contents - {ord}, d0, ord, pages', chain);
    d' := Chained(d0, ord, chain);
    assert (contents - {ord})[ord := word] == contents[ord := word];
    SameValuesTwice(pages, contents, d, pages0, contents - {ord}, d0, pages', contents[ord := word], d', ord);
  }

  // ---- fragments of a page ----

  /** Exactly the used fragments have values. */
  lemma UsedIsHeld(pages: Pages, contents: map<real, int>, d: Dups, p: int, k: nat)
    requires DupsOk(pages, contents, d) && p in d.role && d.role[p].Fragments? && k < MAX_FRAGMENTS
    ensures IsWords(pages, p) && (pages[p].words[8 * k] > 0 <==> (p, k) in d.holder) && pages[p].words[8 * k] >= 0
  {
    assert FragmentsOk(pages, d, p);
    if (p, k) in d.holder {
      assert HolderOk(contents, d, p, k);
      var ord := d.holder[(p, k)];
      assert KeyOk(pages, d, ord, contents[ord]);
      LinkRoundTrip(DUPLICATE_FRAGMENT, p, k);
    }
  }

  /** The fragment of a key, and the page it is in. */
  lemma FragmentOfKey(pages: Pages, contents: map<real, int>, d: Dups, ord: real)
    requires DupsOk(pages, contents, d) && ord in contents
    requires contents[ord] >= 0 && IsDuplicate(contents[ord]) && LinkType(contents[ord]) == DUPLICATE_FRAGMENT
    ensures KeyOk(pages, d, ord, contents[ord])
    ensures var p, j := FragmentOffset(contents[ord]), FragmentIndex(contents[ord]);
            && FragmentOk(pages, p, j) && IsPageOffset(p) && (p, j) in d.holder && p in d.role && d.role[p].Fragments?
            && contents[ord] == MakeLink(DUPLICATE_FRAGMENT, p, j)
            && ValuesOf(pages, d, ord, contents[ord]) == ArrayAt(pages[p].words, 8 * j)
  {
    assert KeyOk(pages, d, ord, contents[ord]);
    assert HolderOk(contents, d, FragmentOffset(contents[ord]), FragmentIndex(contents[ord]));
  }

  /** The chain of a key. */
  lemma ChainOfKey(pages: Pages, contents: map<real, int>, d: Dups, ord: real)
    requires DupsOk(pages, contents, d) && ord in contents
    requires contents[ord] >= 0 && IsDuplicate(contents[ord]) && LinkType(contents[ord]) != DUPLICATE_FRAGMENT
    ensures KeyOk(pages, d, ord, contents[ord]) && ord in d.chains
    ensures var chain := d.chains[ord];
            && chain != [] && ChainOk(pages, chain) && Readable(pages, chain) && ValuesOf(pages, d, ord, contents[ord]) == ChainValues(pages, chain)
            && contents[ord] == MakeLink(DUPLICATE_NODE, chain[0], 0)
            && forall i :: 0 <= i < |chain| ==> IsPageOffset(chain[i]) && chain[i] in pages
  {
    assert KeyOk(pages, d, ord, contents[ord]);
    ChainIsReadable(pages, d.chains[ord]);
    forall i | 0 <= i < |d.chains[ord]| ensures IsPageOffset(d.chains[ord][i]) && d.chains[ord][i] in pages {
      assert d.chains[ord][i] in d.role;
    }
  }

  // ---- changes in place ----

  /** What a fragment page looks like without fragment `j`. */
  lemma SameSlots(pages: Pages, pages': Pages, p: int, j: nat, words: seq<int>)
    requires IsWords(pages, p) && j < MAX_FRAGMENTS && |words| == PAGE_WORDS && pages' == pages[p := Words(words)]
    requires Elsewhere(pages[p].words, words, 8 * j, 8 * j + 8)
    ensures forall k: nat {:trigger SameFragment(pages, pages', p, k)} :: k < MAX_FRAGMENTS && k != j ==> SameFragment(pages, pages', p, k)
  {
  }

  /** A fragment has been written anew, in its place. */
  lemma FragmentRewritten(pages: Pages, contents: map<real, int>, d: Dups, ord: real, p: int, j: nat, words: seq<int>) returns (d': Dups)
    requires DupsOk(pages, contents, d) && ord in contents && contents[ord] >= 0 && IsDuplicate(contents[ord])
    requires LinkType(contents[ord]) == DUPLICATE_FRAGMENT && p == FragmentOffset(contents[ord]) && j == FragmentIndex(contents[ord])
    requires IsWords(pages, p) && |words| == PAGE_WORDS && j < MAX_FRAGMENTS && Elsewhere(pages[p].words, words, 8 * j, 8 * j + 8)
    requires IsArray(words, 8 * j, NUM_FRAGMENT_VALUES) && words[8 * j] >= 2
    ensures Reformed(pages, contents, d, ord, pages[p := Words(words)], d', contents[ord], ArrayAt(words, 8 * j))
  {
    hide LinkType, MakeLink, IsArray, KeyOk, DupsOk, Shared, FragmentOffset, FragmentIndex, Reformed;
    FragmentOfKey(pages, contents, d, ord);
    var pages' := pages[p := Words(words)];
    var pages0 := if Shared(d, p, j) then pages[p := Words(pages[p].words[8 * j := 0])] else pages - {p};
    var d0 := ReleasedDups(pages, d, ord, contents[ord]);
    if Shared(d, p, j) {
      SameSlots(pages, pages0, p, j, pages0[p].words);
      SameSlots(pages0, pages', p, j, words);
    } else {
      forall k: nat | k < MAX_FRAGMENTS && k != j ensures words[8 * k] == 0 {
        UsedIsHeld(pages, contents, d, p, k);
        NotShared(d, p, j, k);
      }
    }
    d' := ReformFragment(pages, contents, d, ord, pages0, pages', p, j);
  }

  lemma NotShared(d: Dups, p: int, j: nat, k: nat)
    requires !Shared(d, p, j) && k < MAX_FRAGMENTS && k != j
    ensures (p, k) !in d.holder
  {
  }
}
