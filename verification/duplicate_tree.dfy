/** A tree that allows duplicate keys: Insert and Remove with their two ways (BPlusTree.cpp), and reading all
    values of a key. */
module DuplicateTrees {
  import opened NodeLayout
  import opened TreeShape
  import opened TreeSteps
  import opened TreePath
  import opened TreeHousing
  import opened TreeKeys
  import opened TreeFate
  import opened BPlusTrees
  import opened SortedArrays
  import opened DuplicateValues
  import opened DuplicateSteps
  import opened DuplicateChains
  import opened TreeOthers
  import opened DuplicateInsert
  import opened DuplicateRemove

  /** The values of a key; none when it is not there. */
  ghost function ValuesAt(pages: Pages, contents: map<real, int>, d: Dups, ord: real): seq<int>
    requires DupsOk(pages, contents, d)
  {
    if ord in contents then ValuesOf(pages, d, ord, contents[ord]) else []
  }

  /** All values are small enough to be told from links. */
  ghost predicate AllSmall(pages: Pages, contents: map<real, int>, d: Dups)
    requires DupsOk(pages, contents, d)
  {
    forall ord :: ord in contents ==> Small(ValuesAt(pages, contents, d, ord))
  }

  ghost predicate Sane(tree: BPlusTree, d: Dups)
    reads tree
  {
    Duplicated(tree, d) && AllSmall(tree.others, tree.contents, d)
  }

  /** The values of one key have become these, as a multiset; those of all others are the same, in the same order. */
  ghost predicate OneChanged(pages: Pages, contents: map<real, int>, d: Dups, pages': Pages, contents': map<real, int>, d': Dups,
                             ord: real, values: multiset<int>) {
    && DupsOk(pages, contents, d) && DupsOk(pages', contents', d')
    && multiset(ValuesAt(pages', contents', d', ord)) == values && (ord in contents' <==> values != multiset{})
    && forall o :: o != ord ==> (o in contents' <==> o in contents)
                                && ValuesAt(pages', contents', d', o) == ValuesAt(pages, contents, d, o)
  }

  lemma StaysSmall(pages: Pages, contents: map<real, int>, d: Dups, pages': Pages, contents': map<real, int>, d': Dups,
                   ord: real, values: multiset<int>)
    requires DupsOk(pages, contents, d) && AllSmall(pages, contents, d)
    requires OneChanged(pages, contents, d, pages', contents', d', ord, values) && forall v :: v in values ==> 0 <= v < LINK_LIMIT
    ensures AllSmall(pages', contents', d')
  {
    hide DupsOk, ValuesAt;
    forall o | o in contents' ensures Small(ValuesAt(pages', contents', d', o)) {
      if o == ord {
        forall v | v in ValuesAt(pages', contents', d', o) ensures 0 <= v < LINK_LIMIT {
          assert multiset(ValuesAt(pages', contents', d', o))[v] > 0;
          assert v in values;
        }
      } else {
        assert ValuesAt(pages', contents', d', o) == ValuesAt(pages, contents, d, o);
      }
    }
  }

  // ---- finding a key's entry ----

  /** The way down of Find, to the entry instead of the value. */
  method Locate(tree: BPlusTree, key: Key) returns (found: bool, leaf: int, index: nat)
    requires tree.Valid() && 0.0 <= key.ord < 1.0
    ensures found <==> key.ord in tree.contents
    ensures found ==> LeafEntry(tree, leaf, index, key.ord)
  {
    leaf, index := tree.rootNode, 0;
    while true
      invariant leaf in tree.shape.level && leaf in tree.shape.lo && leaf in tree.shape.hi
      invariant tree.shape.lo[leaf] < key.ord <= tree.shape.hi[leaf]
      decreases tree.shape.level[leaf]
    {
      var node := tree.pages[leaf];
      assert NodeOk(tree.pages, tree.shape, leaf);
      var next;
      found, index, next := tree.FindKey(node, key);
      if node.overflow == NULL {
        if !found {
          AbsentKey(tree.pages, tree.shape, leaf, index, key.ord, tree.contents);
        }
        return;
      }
      Descend(tree.pages, tree.shape, tree.rootNode, tree.levels, leaf, key.ord, index);
      leaf := next;
    }
  }

  // ---- Insert ----

  lemma InsertedPlain(pages: Pages, contents: map<real, int>, d: Dups, ord: real, value: int)
    requires DupsOk(pages, contents, d) && ord !in contents && 0 <= value < LINK_LIMIT
    ensures OneChanged(pages, contents, d, pages, contents[ord := value], d, ord, multiset{value})
  {
    hide DupsOk, KeyOk, ValuesOf;
    TakePlain(pages, contents, d, ord, value);
  }

  lemma RemovedPlain(pages: Pages, contents: map<real, int>, d: Dups, ord: real)
    requires DupsOk(pages, contents, d) && ord in contents && contents[ord] >= 0 && !IsDuplicate(contents[ord])
    ensures OneChanged(pages, contents, d, pages, contents - {ord}, d, ord, multiset{})
    ensures ValuesAt(pages, contents, d, ord) == [contents[ord]]
  {
    hide IsDuplicate, LinkType, ChainOk, FragmentOk, FragmentsOk;
    ReleasePlain(pages, contents, d, ord);
  }

  /** What InsertDuplicate and RemoveDuplicate say of the tree, in terms of all keys' values. */
  lemma NowHasIsChange(pages: Pages, contents: map<real, int>, d: Dups, pages': Pages, contents': map<real, int>, d': Dups, ord: real,
                       values: multiset<int>)
    requires DupsOk(pages, contents, d) && DupsOk(pages', contents', d') && ord in contents' && contents'.Keys == contents.Keys
    requires KeyOk(pages', d', ord, contents'[ord]) && multiset(ValuesOf(pages', d', ord, contents'[ord])) == values
    requires SameValues(pages, contents, d, pages', contents', d', ord) && values != multiset{}
    ensures OneChanged(pages, contents, d, pages', contents', d', ord, values)
  {
    hide DupsOk, KeyOk, ValuesOf;
    forall o | o != ord
      ensures (o in contents' <==> o in contents) && ValuesAt(pages', contents', d', o) == ValuesAt(pages, contents, d, o)
    {
      assert o in contents'.Keys <==> o in contents.Keys;
    }
  }

  /** On its way up a new key meets a split that is not a faithful one. */
  ghost predicate LosesData(tree: BPlusTree, key: Key)
    reads tree
  {
    tree.levels > 0 && FateBelow(tree.pages, tree.rootNode, tree.levels - 1, key) == Lost
  }

  lemma SomeLevel(tree: BPlusTree)
    requires tree.Valid()
    ensures tree.levels > 0
  {
  }

  /** Adds a value to a key, new or not. */
  method Insert(tree: BPlusTree, ghost d: Dups, key: Key, value: int) returns (status: Status, ghost d': Dups)
    requires Sane(tree, d) && 0.0 <= key.ord < 1.0 && 0 <= value < LINK_LIMIT && CanGrow(tree)
    modifies tree, tree.iterators`node, tree.iterators`index, tree.iterators`cut
    ensures status == BadValue <==> !LengthOk(key)
    ensures status == Ok || status == BadValue || status == SplitLost
    ensures status == SplitLost <==> LengthOk(key) && key.ord !in old(tree.contents) && old(LosesData(tree, key))
    ensures status == BadValue ==> tree.pages == old(tree.pages) && d' == d && Sane(tree, d)
    ensures status == Ok ==> Sane(tree, d')
    ensures status == Ok ==> OneChanged(old(tree.others), old(tree.contents), d, tree.others, tree.contents, d', key.ord,
                               multiset(old(ValuesAt(tree.others, tree.contents, d, key.ord))) + multiset{value})
    ensures old(ShortTree(tree.pages, tree.shape)) && |key.bytes| <= SHORT_KEY ==> status != SplitLost && ShortTree(tree.pages, tree.shape)
    ensures tree.iterators == old(tree.iterators)
    ensures KeysGrow(old(tree.pages), old(tree.shape), tree.pages, tree.shape, key, 0)
    ensures status == Ok ==> NamesGain(tree, key)
  {
    hide BPlusTree.Valid, ShortTree, KeysGrow, KeysKept, TreeKeys.Named, HasKey, DupsOk, KeyOk, ValuesOf, SameValues, OneChanged, AllSmall, LeafEntry, IsDuplicate, LinkType, FateBelow;
    d' := d;
    KeptRefl(tree.pages, tree.shape, key);
    if !LengthOk(key) {
      return BadValue, d';
    }
    var found, leaf, index := Locate(tree, key);
    ghost var others, contents := tree.others, tree.contents;
    ghost var was := ValuesAt(others, contents, d, key.ord);
    if found {
      d' := InsertDuplicate(tree, d, leaf, index, key.ord, value);
      NamesStay(tree);
      StillShort(tree);
      KeptGrow(old(tree.pages), old(tree.shape), tree.pages, tree.shape, key);
      NowHasIsChange(others, contents, d, tree.others, tree.contents, d', key.ord, multiset(was) + multiset{value});
      status := Ok;
    } else {
      SomeLevel(tree);
      assert forall names {:trigger old(tree.Named(names))} :: old(tree.Named(names)) ==> tree.Named(names);
      status := tree.Insert(key, value);
      if status == Ok {
        InsertedPlain(others, contents, d, key.ord, value);
        PlainChange(others, contents, d, key.ord, value);
      }
    }
    if status == Ok {
      WasSmall(others, contents, d, key.ord);
      GrownSmall(was, value);
      StaysSmall(others, contents, d, tree.others, tree.contents, d', key.ord, multiset(was) + multiset{value});
      ChangedIsOk(others, contents, d, tree.others, tree.contents, d', key.ord, multiset(was) + multiset{value});
    }
  }

  /** The names are those from before, and the key if it is new. */
  twostate predicate NamesGain(tree: BPlusTree, key: Key)
    reads tree
  {
    forall names :: old(tree.Named(names)) ==> tree.Named(if key.ord in old(tree.contents) then names else names[key.ord := key])
  }

  /** With the same keys in the leaves, the names stay. */
  twostate lemma NamesStay(tree: BPlusTree)
    requires KeysKept(old(tree.pages), old(tree.shape), tree.pages, tree.shape) && tree.contents.Keys == old(tree.contents).Keys
    ensures forall names :: old(tree.Named(names)) ==> tree.Named(names)
    ensures tree.NamesLose()
  {
    hide HasKey;
    assert forall names: map<real, Key> :: names - {} == names;
    assert old(tree.contents).Keys - tree.contents.Keys == {};
  }

  twostate lemma StillShort(tree: BPlusTree)
    requires tree.Valid() && KeysKept(old(tree.pages), old(tree.shape), tree.pages, tree.shape)
    ensures old(ShortTree(tree.pages, tree.shape)) ==> ShortTree(tree.pages, tree.shape)
  {
    hide KeysKept, ShortTree;
    tree.RestingNodes();
    KeptStaysShort(old(tree.pages), old(tree.shape), tree.pages, tree.shape);
  }

  lemma PlainChange(pages: Pages, contents: map<real, int>, d: Dups, ord: real, value: int)
    requires DupsOk(pages, contents, d) && ord !in contents
    ensures multiset(ValuesAt(pages, contents, d, ord)) + multiset{value} == multiset{value}
  {
  }

  lemma WasSmall(pages: Pages, contents: map<real, int>, d: Dups, ord: real)
    requires DupsOk(pages, contents, d) && AllSmall(pages, contents, d)
    ensures Small(ValuesAt(pages, contents, d, ord))
  {
  }

  lemma GrownSmall(was: seq<int>, value: int)
    requires Small(was) && 0 <= value < LINK_LIMIT
    ensures forall v :: v in multiset(was) + multiset{value} ==> 0 <= v < LINK_LIMIT
  {
    forall v | v in multiset(was) + multiset{value} ensures 0 <= v < LINK_LIMIT {
      if v != value {
        assert multiset(was)[v] > 0;
        assert v in was;
      }
    }
  }

  lemma LessSmall(was: seq<int>, value: int)
    requires Small(was)
    ensures forall v :: v in multiset(was) - multiset{value} ==> 0 <= v < LINK_LIMIT
  {
    forall v | v in multiset(was) - multiset{value} ensures 0 <= v < LINK_LIMIT {
      assert (multiset(was) - multiset{value})[v] > 0;
      assert v in was;
    }
  }

  lemma ChangedIsOk(pages: Pages, contents: map<real, int>, d: Dups, pages': Pages, contents': map<real, int>, d': Dups, ord: real,
                    values: multiset<int>)
    requires OneChanged(pages, contents, d, pages', contents', d', ord, values)
    ensures DupsOk(pages', contents', d')
  {
  }

  // ---- Remove ----

  /** Takes a value from a key that has it. Of a key with a single value the whole key goes, whatever the value asked
      for: the plain word is not looked at. */
  method Remove(tree: BPlusTree, ghost d: Dups, key: Key, value: int) returns (status: Status, ghost d': Dups)
    requires Sane(tree, d) && 0.0 <= key.ord < 1.0 && LengthOk(key) && key.ord in tree.contents
    modifies tree, tree.iterators`node, tree.iterators`index, tree.iterators`cut
    ensures status == Ok || status == NotFound
    ensures status == NotFound <==> (|old(ValuesAt(tree.others, tree.contents, d, key.ord))| > 1 &&
                                     value !in old(ValuesAt(tree.others, tree.contents, d, key.ord)))
    ensures status == NotFound ==> d' == d && tree.pages == old(tree.pages) && tree.contents == old(tree.contents)
    ensures Sane(tree, d')
    ensures status == Ok ==> OneChanged(old(tree.others), old(tree.contents), d, tree.others, tree.contents, d', key.ord,
                               if |old(ValuesAt(tree.others, tree.contents, d, key.ord))| > 1
                               then multiset(old(ValuesAt(tree.others, tree.contents, d, key.ord))) - multiset{value} else multiset{})
    ensures old(ShortTree(tree.pages, tree.shape)) ==> ShortTree(tree.pages, tree.shape)
    ensures tree.iterators == old(tree.iterators)
    ensures KeysKept(old(tree.pages), old(tree.shape), tree.pages, tree.shape)
    ensures status == Ok ==> tree.NamesLose()
  {
    hide BPlusTree.Valid, ShortTree, KeysKept, TreeKeys.Named, HasKey, DupsOk, KeyOk, ValuesOf, SameValues, OneChanged, AllSmall, LeafEntry, IsDuplicate, LinkType, Small;
    d' := d;
    var found, leaf, index := Locate(tree, key);
    EntryWord(tree, d, leaf, index, key.ord);
    ghost var others, contents := tree.others, tree.contents;
    ghost var was := ValuesAt(others, contents, d, key.ord);
    WordOk(others, contents, d, key.ord);
    WasSmall(others, contents, d, key.ord);
    SeveralIsDuplicate(others, d, key.ord, contents[key.ord]);
    ghost var values := if |was| > 1 then multiset(was) - multiset{value} else multiset{};
    if IsDuplicate(tree.pages[leaf].values[index]) {
      var taken;
      taken, d' := RemoveDuplicate(tree, d, leaf, index, key.ord, value);
      if !taken {
        return NotFound, d';
      }
      NamesStay(tree);
      StillShort(tree);
      SomeLeft(was, value);
      NowHasIsChange(others, contents, d, tree.others, tree.contents, d', key.ord, values);
    } else {
      status := tree.Remove(key);
      RemovedPlain(others, contents, d, key.ord);
    }
    status := Ok;
    LessSmall(was, value);
    StaysSmall(others, contents, d, tree.others, tree.contents, d', key.ord, values);
    ChangedIsOk(others, contents, d, tree.others, tree.contents, d', key.ord, values);
  }

  lemma SomeLeft(was: seq<int>, value: int)
    requires |was| > 1
    ensures multiset(was) - multiset{value} != multiset{}
  {
    assert |multiset(was) - multiset{value}| >= |was| - 1;
  }

  /** A key has several values exactly when its word is a link. */
  lemma SeveralIsDuplicate(pages: Pages, d: Dups, ord: real, word: int)
    requires KeyOk(pages, d, ord, word)
    ensures |ValuesOf(pages, d, ord, word)| > 1 <==> IsDuplicate(word)
  {
    if IsDuplicate(word) && LinkType(word) != DUPLICATE_FRAGMENT {
      var chain := d.chains[ord];
      ChainIsReadable(pages, chain);
      ManyValues(pages, chain);
    }
  }

  lemma ManyValues(pages: Pages, chain: seq<int>)
    requires ChainOk(pages, chain) && Readable(pages, chain)
    ensures |ChainValues(pages, chain)| > 1
  {
    hide IsArray;
    assert LinkShaped(pages, chain, 0) && DuplicateValues.Filled(pages, chain, 0);
    ChainSplit(pages, chain, 0);
    if |chain| > 1 {
      assert LinkShaped(pages, chain, 1) && DuplicateValues.Filled(pages, chain, 1);
      var rest := chain[1..];
      assert rest[0] == chain[1];
      ChainSplit(pages, rest, 0);
    }
  }
}
