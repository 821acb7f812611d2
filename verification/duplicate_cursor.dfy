/** The iterator over a tree with duplicate keys: every pair of a key and a value (TreeIterator::Traverse in
    BPlusTree.cpp, with the part that walks through the values of one key). */
module DuplicateCursors {
  import opened NodeLayout
  import opened TreeShape
  import opened TreeHousing
  import opened TreeKeys
  import opened TreeCursor
  import opened BPlusTrees
  import opened SortedArrays
  import opened DuplicateValues
  import opened DuplicateChains
  import opened DuplicateInsert

  /** Where in the values of a key the iterator is: the link or page it reads, how many values it has read
      there and how many there are; `place` is the page's number in its chain. */
  datatype Reading = Reading(node: int, at: nat, count: nat, fragment: bool, place: nat)

  ghost predicate ReadingOk(pages: Pages, contents: map<real, int>, d: Dups, ord: real, r: Reading)
    requires DupsOk(pages, contents, d)
  {
    r.node != NULL ==>
      && r.node >= 0 && ord in contents && IsDuplicate(contents[ord]) && r.at <= r.count
      && (r.fragment <==> LinkType(contents[ord]) == DUPLICATE_FRAGMENT)
      && if r.fragment then r.node == contents[ord] && r.count == |ValuesOf(pages, d, ord, contents[ord])|
         else PageOfChain(pages, d.chains[ord], r)
  }

  ghost predicate PageOfChain(pages: Pages, chain: seq<int>, r: Reading) {
    && r.node >= 0 && r.place < |chain| && FragmentOffset(r.node) == chain[r.place] && Readable(pages, chain)
    && r.count == |PageValues(pages, chain[r.place])|
  }

  lemma TailIsReadable(pages: Pages, chain: seq<int>, i: nat)
    requires Readable(pages, chain) && i <= |chain|
    ensures Readable(pages, chain[i..])
  {
  }

  /** The values of a chain from a place in one of its pages on. */
  ghost function RestOfChain(pages: Pages, chain: seq<int>, place: nat, at: nat): seq<int>
    requires Readable(pages, chain) && place < |chain| && at <= |PageValues(pages, chain[place])|
  {
    TailIsReadable(pages, chain, place + 1);
    PageValues(pages, chain[place])[at..] + ChainValues(pages, chain[place + 1..])
  }

  /** The values of the current key that are still to come. */
  ghost function Rest(pages: Pages, contents: map<real, int>, d: Dups, ord: real, r: Reading): seq<int>
    requires DupsOk(pages, contents, d) && ReadingOk(pages, contents, d, ord, r)
  {
    if r.node == NULL then []
    else if r.fragment then ValuesOf(pages, d, ord, contents[ord])[r.at..]
    else RestOfChain(pages, d.chains[ord], r.place, r.at)
  }

  // ---- what the steps do to it ----

  predicate IsBlock(pages: Pages, p: int) {
    p in pages && pages[p].Words? && |pages[p].words| == PAGE_WORDS
  }

  /** Reading starts with the first value of the key's fragment or first page. */
  lemma ReadingStarts(pages: Pages, contents: map<real, int>, d: Dups, ord: real)
    requires DupsOk(pages, contents, d) && ord in contents && contents[ord] >= 0 && IsDuplicate(contents[ord])
    ensures var word := contents[ord];
            var p, fragment := FragmentOffset(word), LinkType(word) == DUPLICATE_FRAGMENT;
            var base := if fragment then 8 * FragmentIndex(word) else 2;
            && (fragment || LinkType(word) == DUPLICATE_NODE)
            && IsBlock(pages, p) && base + 1 < PAGE_WORDS && pages[p].words[base] > 0
            && var r := Reading(word, 1, pages[p].words[base], fragment, 0);
            && ReadingOk(pages, contents, d, ord, r)
            && ValuesOf(pages, d, ord, word) == [pages[p].words[base + 1]] + Rest(pages, contents, d, ord, r)
  {
    hide DupsOk, ReadingOk, Rest, IsBlock, LinkType, FragmentOffset, FragmentIndex, IsDuplicate, KeyOk;
    KeyIsOk(pages, contents, d, ord);
    if LinkType(contents[ord]) == DUPLICATE_FRAGMENT {
      FragmentStarts(pages, contents, d, ord);
    } else {
      ChainStarts(pages, contents, d, ord);
    }
  }

  lemma KeyIsOk(pages: Pages, contents: map<real, int>, d: Dups, ord: real)
    requires DupsOk(pages, contents, d) && ord in contents
    ensures KeyOk(pages, d, ord, contents[ord]) && contents[ord] >= 0
  {
  }

  lemma FragmentStarts(pages: Pages, contents: map<real, int>, d: Dups, ord: real)
    requires DupsOk(pages, contents, d) && ord in contents && contents[ord] >= 0 && IsDuplicate(contents[ord])
    requires KeyOk(pages, d, ord, contents[ord]) && LinkType(contents[ord]) == DUPLICATE_FRAGMENT
    ensures var word, p, base := contents[ord], FragmentOffset(contents[ord]), 8 * FragmentIndex(contents[ord]);
            && IsBlock(pages, p) && base + 1 < PAGE_WORDS && pages[p].words[base] > 0
            && var r := Reading(word, 1, pages[p].words[base], true, 0);
            && ReadingOk(pages, contents, d, ord, r)
            && ValuesOf(pages, d, ord, word) == [pages[p].words[base + 1]] + Rest(pages, contents, d, ord, r)
  {
    hide DupsOk, Ascending, LinkType, FragmentOffset, FragmentIndex, IsDuplicate, MakeLink, IsPageOffset;
    var values := ValuesOf(pages, d, ord, contents[ord]);
    assert values == [values[0]] + values[1..];
  }

  lemma ChainStarts(pages: Pages, contents: map<real, int>, d: Dups, ord: real)
    requires DupsOk(pages, contents, d) && ord in contents && contents[ord] >= 0 && IsDuplicate(contents[ord])
    requires KeyOk(pages, d, ord, contents[ord]) && LinkType(contents[ord]) != DUPLICATE_FRAGMENT
    ensures LinkType(contents[ord]) == DUPLICATE_NODE
    ensures var word, p := contents[ord], FragmentOffset(contents[ord]);
            && IsBlock(pages, p) && pages[p].words[2] > 0
            && var r := Reading(word, 1, pages[p].words[2], false, 0);
            && ReadingOk(pages, contents, d, ord, r)
            && ValuesOf(pages, d, ord, word) == [pages[p].words[3]] + Rest(pages, contents, d, ord, r)
  {
    hide DupsOk, Ascending, LinkType, FragmentOffset, FragmentIndex, IsDuplicate, MakeLink;
    var chain := d.chains[ord];
    assert LinkShaped(pages, chain, 0) && DuplicateValues.Filled(pages, chain, 0);
    LinkRoundTrip(DUPLICATE_NODE, chain[0], 0);
    ChainIsReadable(pages, chain);
    TakeFirst(PageValues(pages, chain[0]), ChainValues(pages, chain[1..]));
  }

  lemma TakeFirst(a: seq<int>, b: seq<int>)
    requires a != []
    ensures a + b == [a[0]] + (a[1..] + b)
  {
  }

  /** One more value of the fragment or page. */
  lemma ReadingGoesOn(pages: Pages, contents: map<real, int>, d: Dups, ord: real, r: Reading)
    requires DupsOk(pages, contents, d) && ReadingOk(pages, contents, d, ord, r) && r.node != NULL && r.at < r.count
    ensures var p, base := FragmentOffset(r.node), if r.fragment then 8 * FragmentIndex(r.node) else 2;
            && IsBlock(pages, p) && base + 1 + r.at < PAGE_WORDS
            && var r' := r.(at := r.at + 1);
            && ReadingOk(pages, contents, d, ord, r')
            && Rest(pages, contents, d, ord, r) == [pages[p].words[base + 1 + r.at]] + Rest(pages, contents, d, ord, r')
  {
    hide DupsOk, Ascending, LinkType, FragmentOffset, FragmentIndex, IsDuplicate, MakeLink, IsPageOffset;
    KeyIsOk(pages, contents, d, ord);
    if r.fragment {
      var values := ValuesOf(pages, d, ord, contents[ord]);
      assert values[r.at..] == [values[r.at]] + values[r.at + 1..];
    } else {
      var chain := d.chains[ord];
      assert LinkShaped(pages, chain, r.place);
      var values := PageValues(pages, chain[r.place]);
      TakeFirst(values[r.at..], ChainValues(pages, chain[r.place + 1..]));
      assert values[r.at..][1..] == values[r.at + 1..];
    }
  }

  /** A page is used up: the next one of the chain, or none. */
  lemma ReadingTurnsPage(pages: Pages, contents: map<real, int>, d: Dups, ord: real, r: Reading)
    requires DupsOk(pages, contents, d) && ReadingOk(pages, contents, d, ord, r) && r.node != NULL && !r.fragment && r.at == r.count
    ensures IsBlock(pages, FragmentOffset(r.node))
    ensures var next := pages[FragmentOffset(r.node)].words[1];
            if next == NULL then Rest(pages, contents, d, ord, r) == []
            else
              && next >= 0 && FragmentOffset(next) == next && IsBlock(pages, next) && pages[next].words[2] > 0
              && var r' := Reading(next, 0, pages[next].words[2], false, r.place + 1);
              && ReadingOk(pages, contents, d, ord, r')
              && Rest(pages, contents, d, ord, r') == Rest(pages, contents, d, ord, r)
  {
    hide Ascending;
    assert KeyOk(pages, d, ord, contents[ord]);
    var chain, i := d.chains[ord], r.place;
    assert LinkShaped(pages, chain, i);
    var values := PageValues(pages, chain[i]);
    assert values[r.at..] == [];
    if i + 1 < |chain| {
      assert LinkShaped(pages, chain, i + 1) && DuplicateValues.Filled(pages, chain, i + 1);
      assert chain[i + 1] in pages && IsPageOffset(chain[i + 1]);
      BareOffset(chain[i + 1]);
      var rest := chain[i + 1..];
      assert rest[0] == chain[i + 1] && rest[1..] == chain[i + 2..];
      TailIsReadable(pages, chain, i + 1);
      assert PageValues(pages, chain[i + 1])[0..] == PageValues(pages, chain[i + 1]);
    }
  }

  /** A fragment is used up. */
  lemma ReadingEnds(pages: Pages, contents: map<real, int>, d: Dups, ord: real, r: Reading)
    requires DupsOk(pages, contents, d) && ReadingOk(pages, contents, d, ord, r) && r.node != NULL && r.fragment
    ensures Rest(pages, contents, d, ord, r) == [] <==> r.at == r.count
  {
  }

  /** A word of a page of the file. */
  method WordAt(tree: BPlusTree, p: int, k: nat) returns (word: int)
    requires IsBlock(tree.others, p) && OthersAre(tree.pages, tree.others) && k < PAGE_WORDS
    ensures word == tree.others[p].words[k]
  {
    word := tree.pages[p].words[k];
  }

  lemma OthersInPages(tree: BPlusTree, d: Dups)
    requires Duplicated(tree, d)
    ensures tree.Valid() && OthersAre(tree.pages, tree.others) && DupsOk(tree.others, tree.contents, d)
  {
    hide DupsOk;
  }

  class DuplicateCursor {
    const it: TreeIterator
    var duplicateNode: int
    var duplicate: nat
    var numDuplicates: nat
    var isFragment: bool
    ghost var place: nat

    ghost function Here(): Reading
      reads this
    {
      Reading(duplicateNode, duplicate, numDuplicates, isFragment, place)
    }

    /** An iterator in the middle of a key's values, or between keys. */
    ghost predicate Valid(d: Dups)
      reads this, it, it.tree, if it.tree == null then {} else it.tree.iterators
    {
      it.Valid() &&
      (it.tree != null ==>
        && Duplicated(it.tree, d) && ReadingOk(it.tree.others, it.tree.contents, d, it.cut, Here())
        && (duplicateNode != NULL ==> it.node != NULL && it.node != FREE))
    }

    /** The values of the key returned last that are still to come. */
    ghost function Pending(d: Dups): seq<int>
      requires it.tree != null && Valid(d)
      reads this, it, it.tree, if it.tree == null then {} else it.tree.iterators
    {
      Rest(it.tree.others, it.tree.contents, d, it.cut, Here())
    }

    /** The value and its mark are those of the first pair of the key just reached. */
    ghost predicate AtFirst(d: Dups, value: int, mark: nat)
      requires it.tree != null && Valid(d)
      reads this, it, it.tree, if it.tree == null then {} else it.tree.iterators
    {
      && it.cut in it.tree.contents && KeyOk(it.tree.others, d, it.cut, it.tree.contents[it.cut])
      && ValuesOf(it.tree.others, d, it.cut, it.tree.contents[it.cut]) == [value] + Pending(d)
      && mark == if IsDuplicate(it.tree.contents[it.cut]) then 1 else 0
    }

    constructor (it: TreeIterator, ghost d: Dups)
      requires it.tree != null && it.Valid() && Duplicated(it.tree, d)
      ensures this.it == it && Valid(d) && Pending(d) == []
    {
      this.it := it;
      duplicateNode, duplicate, numDuplicates, isFragment, place := NULL, 0, 0, false, 0;
    }

    /** To the front of the key's place; what is left of the last key is forgotten. */
    method Find(key: Key, ghost d: Dups) returns (status: Status)
      requires it.tree != null && Valid(d) && 0.0 <= key.ord < 1.0
      modifies this, it`node, it`index, it`cut
      ensures Valid(d) && (status == BadValue <==> !LengthOk(key))
      ensures LengthOk(key) ==> status == if key.ord in it.tree.contents then Ok else NotFound
      ensures LengthOk(key) ==> Pending(d) == [] && forall ord :: ord in it.tree.contents ==> (it.cut < ord <==> key.ord <= ord)
    {
      hide DupsOk, BPlusTree.Valid;
      if !LengthOk(key) {
        return BadValue;
      }
      status := it.Find(key);
      duplicateNode := NULL;
    }

    /** What is left of the current key is not of interest. */
    method SkipDuplicates(ghost d: Dups)
      requires it.tree != null && Valid(d)
      modifies this
      ensures Valid(d) && Pending(d) == [] && it.cut == old(it.cut)
    {
      hide DupsOk, BPlusTree.Valid, AtCut;
      duplicateNode := NULL;
    }

    /** The next value of the same key, if there is one. */
    method NextDuplicate(ghost d: Dups) returns (more: bool, value: int)
      requires it.tree != null && Valid(d) && duplicateNode != NULL
      modifies this
      ensures Valid(d)
      ensures more <==> old(Pending(d)) != []
      ensures more ==> value == old(Pending(d))[0] && Pending(d) == old(Pending(d))[1..]
      ensures !more ==> duplicateNode == NULL && Pending(d) == []
    {
      hide DupsOk, ReadingOk, Rest, IsBlock, BPlusTree.Valid, AtCut;
      var tree: BPlusTree := it.tree;
      OthersInPages(tree, d);
      ghost var others, contents, ord := tree.others, tree.contents, it.cut;
      value := 0;
      if !isFragment && duplicate >= numDuplicates {
        CountIs(others, contents, d, ord, Here());
        ReadingTurnsPage(others, contents, d, ord, Here());
        var next := WordAt(tree, FragmentOffset(duplicateNode), 1);
        if next == NULL {
          duplicateNode := NULL;
          NotReading(others, contents, d, ord, Here());
          return false, value;
        }
        var count := WordAt(tree, next, 2);
        duplicateNode, numDuplicates, duplicate, place := next, count, 0, place + 1;
      }
      CountIs(others, contents, d, ord, Here());
      if duplicate < numDuplicates {
        ReadingGoesOn(others, contents, d, ord, Here());
        value := WordAt(tree, FragmentOffset(duplicateNode), (if isFragment then 8 * FragmentIndex(duplicateNode) else 2) + 1 + duplicate);
        duplicate := duplicate + 1;
        return true, value;
      }
      ReadingEnds(others, contents, d, ord, Here());
      duplicateNode := NULL;
      NotReading(others, contents, d, ord, Here());
      return false, value;
    }

    /** The next pair: a value left of the same key (marked 2), or the next key with its only value (0) or
        the first of several (1). */
    method Traverse(ghost d: Dups) returns (status: Status, key: Key, value: int, mark: nat)
      requires it.tree != null && Valid(d)
      modifies this, it`node, it`index, it`cut
      ensures Valid(d) && (status == Ok || status == NotFound)
      ensures old(Pending(d)) != [] ==> status == Ok && mark == 2 && it.cut == old(it.cut)
                                        && value == old(Pending(d))[0] && Pending(d) == old(Pending(d))[1..]
      ensures old(Pending(d)) == [] && status == Ok ==>
                ReturnStep(it.tree.contents, old(it.cut), key.ord, it.cut) && key.ord == it.cut && AtFirst(d, value, mark)
                && HasKey(it.tree.pages, it.tree.shape, 0, key)
                && forall names :: it.tree.Named(names) ==> key.ord in names && names[key.ord] == key
      ensures status == NotFound ==> it.cut == old(it.cut) && Pending(d) == [] && old(Pending(d)) == []
                                     && forall ord :: ord in it.tree.contents ==> ord <= it.cut
    {
      hide DupsOk, ReadingOk, Rest, KeyOk, ValuesOf, AtCut, ReturnStep, BPlusTree.Valid, HasKey, TreeKeys.Named;
      key, value, mark := Key([], 0.0), 0, 0;
      var tree: BPlusTree := it.tree;
      OthersInPages(tree, d);
      NothingLeft(tree.others, tree.contents, d, it.cut, Here());
      tree.RestingTree();
      if it.node == NULL {
        NotStarted(tree.pages, tree.shape, it.At(), it.cut);
        status := it.Goto();
        duplicateNode := NULL;
        NotReading(tree.others, tree.contents, d, it.cut, Here());
      }
      if it.node == FREE {
        AtTheEnd(tree.pages, tree.shape, tree.rootNode, tree.levels, tree.contents, it.At(), it.cut);
        return NotFound, key, value, mark;
      }
      if duplicateNode != NULL {
        var more;
        more, value := NextDuplicate(d);
        if more {
          return Ok, key, value, 2;
        }
      }
      status, key, value := it.Step();
      NotReading(tree.others, tree.contents, d, it.cut, Here());
      if status == NotFound {
        return;
      }
      ReachedKey(tree.contents, old(it.cut), key.ord, it.cut);
      value, mark := FirstValue(d, value);
    }

    /** The first value of the key just reached. */
    method FirstValue(ghost d: Dups, word: int) returns (value: int, mark: nat)
      requires it.tree != null && Valid(d) && duplicateNode == NULL && it.node > 0
      requires it.cut in it.tree.contents && it.tree.contents[it.cut] == word
      modifies this
      ensures Valid(d) && AtFirst(d, value, mark)
    {
      hide DupsOk, ReadingOk, Rest, AtCut, IsBlock, KeyOk, ValuesOf, BPlusTree.Valid, IsDuplicate, LinkType;
      var tree: BPlusTree := it.tree;
      OthersInPages(tree, d);
      PlainWord(tree.others, tree.contents, d, it.cut);
      value, mark := word, 0;
      if LinkType(word) == DUPLICATE_FRAGMENT || LinkType(word) == DUPLICATE_NODE {
        ReadingStarts(tree.others, tree.contents, d, it.cut);
        duplicateNode, isFragment, place := word, LinkType(word) == DUPLICATE_FRAGMENT, 0;
        var base := if isFragment then 8 * FragmentIndex(word) else 2;
        numDuplicates := WordAt(tree, FragmentOffset(word), base);
        value := WordAt(tree, FragmentOffset(word), base + 1);
        duplicate, mark := 1, 1;
      } else {
        NotReading(tree.others, tree.contents, d, it.cut, Here());
      }
    }
  }

  lemma NotReading(pages: Pages, contents: map<real, int>, d: Dups, ord: real, r: Reading)
    requires DupsOk(pages, contents, d) && r.node == NULL
    ensures ReadingOk(pages, contents, d, ord, r) && Rest(pages, contents, d, ord, r) == []
  {
  }

  lemma NothingLeft(pages: Pages, contents: map<real, int>, d: Dups, ord: real, r: Reading)
    requires DupsOk(pages, contents, d) && ReadingOk(pages, contents, d, ord, r)
    ensures r.node == NULL ==> Rest(pages, contents, d, ord, r) == []
  {
  }

  lemma CountIs(pages: Pages, contents: map<real, int>, d: Dups, ord: real, r: Reading)
    requires DupsOk(pages, contents, d) && ReadingOk(pages, contents, d, ord, r) && r.node != NULL
    ensures r.at <= r.count && r.node >= 0
  {
  }

  lemma ReachedKey(contents: map<real, int>, before: real, ord: real, cut: real)
    requires ReturnStep(contents, before, ord, cut)
    ensures cut == ord && ord in contents
  {
  }

  /** A word that is no link is the key's only value; there are two kinds of links. */
  lemma PlainWord(pages: Pages, contents: map<real, int>, d: Dups, ord: real)
    requires DupsOk(pages, contents, d) && ord in contents
    ensures contents[ord] >= 0 && KeyOk(pages, d, ord, contents[ord])
    ensures IsDuplicate(contents[ord]) <==> LinkType(contents[ord]) == DUPLICATE_FRAGMENT || LinkType(contents[ord]) == DUPLICATE_NODE
    ensures !IsDuplicate(contents[ord]) ==> ValuesOf(pages, d, ord, contents[ord]) == [contents[ord]] + []
  {
    assert KeyOk(pages, d, ord, contents[ord]);
    if IsDuplicate(contents[ord]) && LinkType(contents[ord]) != DUPLICATE_FRAGMENT {
      LinkRoundTrip(DUPLICATE_NODE, d.chains[ord][0], 0);
    }
  }

  // ---- reading everything ----

  /** The keys above `low`, in ascending order. */
  ghost predicate Listing(keys: seq<real>, contents: map<real, int>, low: real) {
    && (forall i, j :: 0 <= i < j < |keys| ==> keys[i] < keys[j])
    && forall o :: o in keys <==> o in contents && low < o
  }

  function Tagged(ord: real, values: seq<int>): (s: seq<(real, int)>)
    ensures |s| == |values| && forall i :: 0 <= i < |s| ==> s[i] == (ord, values[i])
  {
    seq(|values|, i requires 0 <= i < |values| => (ord, values[i]))
  }

  /** All pairs of these keys, key by key, each key's values in the order in which they are kept. */
  ghost function Pairs(pages: Pages, contents: map<real, int>, d: Dups, keys: seq<real>): seq<(real, int)>
    requires DupsOk(pages, contents, d) && forall i :: 0 <= i < |keys| ==> keys[i] in contents
  {
    if keys == [] then []
    else
      Tagged(keys[0], ValuesOf(pages, d, keys[0], contents[keys[0]])) + Pairs(pages, contents, d, keys[1..])
  }

  lemma ListedIsStored(keys: seq<real>, contents: map<real, int>, low: real)
    requires Listing(keys, contents, low)
    ensures forall i :: 0 <= i < |keys| ==> keys[i] in contents
  {
    assert forall i :: 0 <= i < |keys| ==> keys[i] in keys;
  }

  lemma NothingListed(contents: map<real, int>, low: real)
    requires forall o :: o in contents ==> o <= low
    ensures Listing([], contents, low)
  {
  }

  lemma ListedNext(keys: seq<real>, contents: map<real, int>, low: real, ord: real)
    requires ReturnStep(contents, low, ord, ord) && Listing(keys, contents, ord)
    ensures Listing([ord] + keys, contents, low)
  {
    var all := [ord] + keys;
    forall i, j | 0 <= i < j < |all| ensures all[i] < all[j] {
      assert all[j] in keys;
    }
    forall o ensures o in all <==> o in contents && low < o {
      assert o in all <==> o == ord || o in keys;
    }
  }

  lemma PairsNext(pages: Pages, contents: map<real, int>, d: Dups, ord: real, keys: seq<real>, value: int, left: seq<int>)
    requires DupsOk(pages, contents, d) && ord in contents && forall i :: 0 <= i < |keys| ==> keys[i] in contents
    requires KeyOk(pages, d, ord, contents[ord]) && ValuesOf(pages, d, ord, contents[ord]) == [value] + left
    ensures Pairs(pages, contents, d, [ord] + keys) == [(ord, value)] + (Tagged(ord, left) + Pairs(pages, contents, d, keys))
  {
    hide DupsOk, KeyOk, ValuesOf, Tagged;
    var all := [ord] + keys;
    assert all[0] == ord && all[1..] == keys;
    TagNext(ord, [value] + left, Pairs(pages, contents, d, keys));
    assert ([value] + left)[1..] == left;
  }

  lemma TagNext(ord: real, values: seq<int>, rest: seq<(real, int)>)
    requires values != []
    ensures Tagged(ord, values) + rest == [(ord, values[0])] + (Tagged(ord, values[1..]) + rest)
  {
    assert Tagged(ord, values) == [(ord, values[0])] + Tagged(ord, values[1..]);
  }

  ghost function Ahead(contents: map<real, int>, low: real): set<real> {
    set o | o in contents && low < o
  }

  lemma FewerAhead(contents: map<real, int>, low: real, ord: real)
    requires ReturnStep(contents, low, ord, ord)
    ensures |Ahead(contents, ord)| < |Ahead(contents, low)|
  {
    assert Ahead(contents, ord) <= Ahead(contents, low) - {ord} && ord in Ahead(contents, low);
    Smaller(Ahead(contents, ord), Ahead(contents, low) - {ord});
  }

  lemma {:induction false} Smaller(a: set<real>, b: set<real>)
    requires a <= b
    ensures |a| <= |b|
  {
    assert b == a + (b - a);
  }

  lemma FirstIs(cursor: DuplicateCursor, d: Dups, value: int, mark: nat)
    requires cursor.it.tree != null && cursor.Valid(d) && cursor.AtFirst(d, value, mark)
    requires DupsOk(cursor.it.tree.others, cursor.it.tree.contents, d)
    ensures var tree: BPlusTree, ord := cursor.it.tree, cursor.it.cut;
            && ord in tree.contents && KeyOk(tree.others, d, ord, tree.contents[ord])
            && ValuesOf(tree.others, d, ord, tree.contents[ord]) == [value] + cursor.Pending(d)
  {
    hide DupsOk, KeyOk, ValuesOf, DuplicateCursor.Valid, DuplicateCursor.Pending;
  }

  lemma MarkIs(cursor: DuplicateCursor, d: Dups, value: int, mark: nat, left: seq<int>)
    requires cursor.it.tree != null && cursor.Valid(d)
    ensures left == [] && cursor.AtFirst(d, value, mark) ==> mark != 2
  {
    hide DupsOk, KeyOk, ValuesOf, DuplicateCursor.Valid, DuplicateCursor.Pending;
  }

  lemma NoPairs(pages: Pages, contents: map<real, int>, d: Dups, low: real)
    requires DupsOk(pages, contents, d)
    ensures Tagged(low, []) + Pairs(pages, contents, d, []) == []
  {
  }

  lemma CursorTree(cursor: DuplicateCursor, d: Dups)
    requires cursor.it.tree != null && cursor.Valid(d)
    ensures Duplicated(cursor.it.tree, d) && DupsOk(cursor.it.tree.others, cursor.it.tree.contents, d)
  {
    hide DupsOk;
  }

  /** In a tree that stays as it is, going on until the end gives what is left of the current key, and then
      every pair of every key above it, once each and in order. */
  method ReadOn(cursor: DuplicateCursor, ghost d: Dups, ord: real) returns (pairs: seq<(real, int)>, ghost keys: seq<real>)
    requires cursor.it.tree != null && cursor.Valid(d) && (cursor.Pending(d) != [] ==> ord == cursor.it.cut)
    modifies cursor, cursor.it`node, cursor.it`index, cursor.it`cut
    ensures cursor.Valid(d) && Duplicated(cursor.it.tree, d)
    ensures Listing(keys, cursor.it.tree.contents, old(cursor.it.cut)) && forall i :: 0 <= i < |keys| ==> keys[i] in cursor.it.tree.contents
    ensures pairs == Tagged(old(cursor.it.cut), old(cursor.Pending(d)))
                     + Pairs(cursor.it.tree.others, cursor.it.tree.contents, d, keys)
    decreases |Ahead(cursor.it.tree.contents, cursor.it.cut)|, |cursor.Pending(d)|
  {
    hide DuplicateCursor.Valid, DuplicateCursor.Pending, DupsOk, KeyOk, ValuesOf, ReturnStep, Listing, Pairs, Tagged, Ahead,
      BPlusTree.Valid, DuplicateCursor.AtFirst;
    var tree: BPlusTree := cursor.it.tree;
    ghost var contents, low, left := tree.contents, cursor.it.cut, cursor.Pending(d);
    CursorTree(cursor, d);
    var status, key, value, mark := cursor.Traverse(d);
    if status == NotFound {
      assert cursor.it.tree == tree && tree.contents == contents && cursor.it.cut == low;
      NothingListed(contents, low);
      NoPairs(tree.others, contents, d, low);
      return [], [];
    }
    var rest;
    MarkIs(cursor, d, value, mark, left);
    if mark == 2 {
      rest, keys := ReadOn(cursor, d, ord);
      TagNext(low, left, Pairs(tree.others, contents, d, keys));
      pairs := [(ord, value)] + rest;
    } else {
      FirstIs(cursor, d, value, mark);
      ReachedKey(contents, low, key.ord, cursor.it.cut);
      FewerAhead(contents, low, key.ord);
      ghost var more := cursor.Pending(d);
      rest, keys := ReadOn(cursor, d, key.ord);
      ListedNext(keys, contents, low, key.ord);
      PairsNext(tree.others, contents, d, key.ord, keys, value, more);
      NoPairs(tree.others, contents, d, low);
      keys := [key.ord] + keys;
      pairs := [(key.ord, value)] + rest;
      ListedIsStored(keys, contents, low);
      EmptyFront(low, Pairs(tree.others, contents, d, keys));
    }
  }

  lemma EmptyFront(low: real, s: seq<(real, int)>)
    ensures Tagged(low, []) + s == s
  {
  }

  lemma KeysAreAbove(tree: BPlusTree)
    requires tree.Valid()
    ensures forall ord :: ord in tree.contents ==> -1.0 < ord
  {
    hide Housed, LeavesFull, LinksOk, Laminar, ChildrenOk;
    tree.RestingTree();
    forall ord | ord in tree.contents ensures -1.0 < ord {
      assert Holds(tree.pages, tree.shape, ord, tree.contents[ord]);
      var p, i :| StoredAt(tree.pages, tree.shape, ord, tree.contents[ord], p, i);
      assert NodeOk(tree.pages, tree.shape, p);
    }
  }

  lemma AllListed(keys: seq<real>, contents: map<real, int>)
    requires Listing(keys, contents, -1.0) && forall ord :: ord in contents ==> -1.0 < ord
    ensures forall ord :: ord in keys <==> ord in contents
  {
  }

  /** From the beginning: all pairs of the tree. */
  method ReadAll(tree: BPlusTree, ghost d: Dups) returns (pairs: seq<(real, int)>, ghost keys: seq<real>)
    requires Duplicated(tree, d)
    modifies tree`iterators
    ensures Duplicated(tree, d) && Listing(keys, tree.contents, -1.0) && forall i :: 0 <= i < |keys| ==> keys[i] in tree.contents
    ensures forall ord :: ord in keys <==> ord in tree.contents
    ensures pairs == Pairs(tree.others, tree.contents, d, keys)
  {
    hide DupsOk, Listing, Pairs, Tagged, BPlusTree.Valid;
    OthersInPages(tree, d);
    var it := new TreeIterator(tree);
    var cursor := new DuplicateCursor(it, d);
    pairs, keys := ReadOn(cursor, d, 0.0);
    KeysAreAbove(tree);
    AllListed(keys, tree.contents);
    EmptyFront(-1.0, Pairs(tree.others, tree.contents, d, keys));
  }

  /** From a key on, whether it is there or not: all pairs of the keys that are not below it. */
  method ReadFrom(tree: BPlusTree, ghost d: Dups, key: Key) returns (pairs: seq<(real, int)>, ghost keys: seq<real>, ghost low: real)
    requires Duplicated(tree, d) && LengthOk(key) && 0.0 <= key.ord < 1.0
    modifies tree`iterators
    ensures Duplicated(tree, d) && Listing(keys, tree.contents, low) && forall i :: 0 <= i < |keys| ==> keys[i] in tree.contents
    ensures forall ord :: ord in tree.contents ==> (ord in keys <==> key.ord <= ord)
    ensures pairs == Pairs(tree.others, tree.contents, d, keys)
  {
    hide DupsOk, Pairs, Tagged, BPlusTree.Valid;
    OthersInPages(tree, d);
    var it := new TreeIterator(tree);
    var cursor := new DuplicateCursor(it, d);
    var status := cursor.Find(key, d);
    low := it.cut;
    pairs, keys := ReadOn(cursor, d, 0.0);
    EmptyFront(low, Pairs(tree.others, tree.contents, d, keys));
  }
}
