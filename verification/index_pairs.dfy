/** A tree with duplicates as it is read: the pairs of a key and a value that an iterator still has ahead
    (TreeIterator in BPlusTree.cpp). */
module IndexPairs {
  import opened TreeShape
  import opened TreeCursor
  import opened TreeKeys
  import opened BPlusTrees
  import opened DuplicateValues
  import opened DuplicateInsert
  import opened DuplicateCursors

  // ---- the keys above a place, in order ----

  lemma {:induction false} ListingExists(contents: map<real, int>, low: real)
    ensures exists keys :: Listing(keys, contents, low)
    decreases |Ahead(contents, low)|
  {
    hide Listing;
    if first :| first in contents && low < first {
      var ord := Least(contents, low, first);
      FewerAhead(contents, low, ord);
      ListingExists(contents, ord);
      var keys :| Listing(keys, contents, ord);
      ListedNext(keys, contents, low, ord);
    } else {
      NothingListed(contents, low);
    }
  }

  lemma {:induction false} Least(contents: map<real, int>, low: real, some: real) returns (least: real)
    requires some in contents && low < some
    ensures ReturnStep(contents, low, least, least)
    decreases |set o | o in contents && low < o < some|
  {
    if less :| less in contents && low < less < some {
      var fewer, all := set o | o in contents && low < o < less, set o | o in contents && low < o < some;
      assert fewer <= all - {less} && less in all;
      Smaller(fewer, all - {less});
      least := Least(contents, low, less);
    } else {
      least := some;
    }
  }

  ghost function KeysAbove(contents: map<real, int>, low: real): (keys: seq<real>)
    ensures Listing(keys, contents, low) && forall i :: 0 <= i < |keys| ==> keys[i] in contents
  {
    ListingExists(contents, low);
    var keys :| Listing(keys, contents, low);
    ListedIsStored(keys, contents, low);
    keys
  }

  /** There is only one such listing. */
  lemma {:induction false} OneListing(a: seq<real>, b: seq<real>, contents: map<real, int>, low: real)
    requires Listing(a, contents, low) && Listing(b, contents, low)
    ensures a == b
    decreases |a|
  {
    if b != [] {
      assert b[0] in b;
    }
    if a != [] {
      assert a[0] in a && a[0] in b && b[0] in a;
      TailListed(a, contents, low);
      TailListed(b, contents, low);
      OneListing(a[1..], b[1..], contents, a[0]);
    }
  }

  lemma TailListed(keys: seq<real>, contents: map<real, int>, low: real)
    requires Listing(keys, contents, low) && keys != []
    ensures Listing(keys[1..], contents, keys[0]) && ReturnStep(contents, low, keys[0], keys[0])
  {
    assert keys[0] in keys;
    forall o ensures o in keys[1..] <==> o in contents && keys[0] < o {
      if o in contents && keys[0] < o {
        assert o in keys;
        var i :| 0 <= i < |keys| && keys[i] == o;
        assert keys[1..][i - 1] == o;
      }
    }
    forall o | o in contents && low < o ensures keys[0] <= o {
      assert o in keys;
    }
  }

  lemma KeysStep(contents: map<real, int>, low: real, ord: real)
    requires ReturnStep(contents, low, ord, ord)
    ensures KeysAbove(contents, low) == [ord] + KeysAbove(contents, ord)
  {
    hide Listing;
    ListedNext(KeysAbove(contents, ord), contents, low, ord);
    OneListing(KeysAbove(contents, low), [ord] + KeysAbove(contents, ord), contents, low);
  }

  lemma KeysEnd(contents: map<real, int>, low: real)
    requires forall ord :: ord in contents ==> ord <= low
    ensures KeysAbove(contents, low) == []
  {
    hide Listing;
    NothingListed(contents, low);
    OneListing(KeysAbove(contents, low), [], contents, low);
  }

  /** Only the keys above matter, not the place itself. */
  lemma SameKeysAbove(contents: map<real, int>, low: real, low': real)
    requires forall ord :: ord in contents ==> (low < ord <==> low' < ord)
    ensures KeysAbove(contents, low) == KeysAbove(contents, low')
  {
    assert Listing(KeysAbove(contents, low), contents, low');
    OneListing(KeysAbove(contents, low), KeysAbove(contents, low'), contents, low');
  }

  // ---- what an iterator has ahead ----

  /** All pairs whose key is above a place. */
  ghost function PairsAbove(pages: Pages, contents: map<real, int>, d: Dups, low: real): seq<(real, int)>
    requires DupsOk(pages, contents, d)
  {
    Pairs(pages, contents, d, KeysAbove(contents, low))
  }

  /** Every value of the key is paired with it, and nothing else is. */
  lemma {:induction false} PairsAre(pages: Pages, contents: map<real, int>, d: Dups, keys: seq<real>, ord: real, id: int)
    requires DupsOk(pages, contents, d) && forall i :: 0 <= i < |keys| ==> keys[i] in contents
    ensures (ord, id) in Pairs(pages, contents, d, keys) <==> ord in keys && ord in contents && id in ValuesOf(pages, d, ord, contents[ord])
  {
    hide DupsOk, KeyOk, ValuesOf;
    if keys != [] {
      assert forall i :: 0 <= i < |keys[1..]| ==> keys[1..][i] in contents;
      KeyIsOk(pages, contents, d, keys[0]);
      PairsAre(pages, contents, d, keys[1..], ord, id);
      TaggedAre(keys[0], ValuesOf(pages, d, keys[0], contents[keys[0]]), ord, id);
      assert ord in keys <==> ord == keys[0] || ord in keys[1..];
    }
  }

  lemma TaggedAre(key: real, values: seq<int>, ord: real, id: int)
    ensures (ord, id) in Tagged(key, values) <==> ord == key && id in values
  {
    if ord == key && id in values {
      var i :| 0 <= i < |values| && values[i] == id;
      assert Tagged(key, values)[i] == (ord, id);
    }
  }

  ghost function Left(cursor: DuplicateCursor, d: Dups): seq<(real, int)>
    requires cursor.it.tree != null && cursor.Valid(d)
    reads cursor, cursor.it, cursor.it.tree, if cursor.it.tree == null then {} else cursor.it.tree.iterators
  {
    CursorTree(cursor, d);
    Tagged(cursor.it.cut, cursor.Pending(d)) + PairsAbove(cursor.it.tree.others, cursor.it.tree.contents, d, cursor.it.cut)
  }

  /** Between keys, only the keys above are ahead. */
  lemma LeftBetween(cursor: DuplicateCursor, d: Dups)
    requires cursor.it.tree != null && cursor.Valid(d) && cursor.Pending(d) == []
    ensures DupsOk(cursor.it.tree.others, cursor.it.tree.contents, d)
    ensures Left(cursor, d) == PairsAbove(cursor.it.tree.others, cursor.it.tree.contents, d, cursor.it.cut)
  {
    hide DupsOk, DuplicateCursor.Valid, DuplicateCursor.Pending, PairsAbove;
    CursorTree(cursor, d);
    EmptyFront(cursor.it.cut, PairsAbove(cursor.it.tree.others, cursor.it.tree.contents, d, cursor.it.cut));
  }

  /** The next pair, with its mark: 2 for a further value of the same key, 1 for the first of several, 0 for an
      only one. */
  method NextPair(cursor: DuplicateCursor, ghost d: Dups) returns (status: Status, key: Key, value: int, mark: nat)
    requires cursor.it.tree != null && cursor.Valid(d)
    modifies cursor, cursor.it`node, cursor.it`index, cursor.it`cut
    ensures cursor.Valid(d) && (status == Ok || status == NotFound)
    ensures status == NotFound <==> old(Left(cursor, d)) == []
    ensures status == NotFound ==> cursor.Pending(d) == [] && Left(cursor, d) == [] && cursor.it.cut == old(cursor.it.cut)
    ensures status == Ok ==> old(Left(cursor, d)) == [(cursor.it.cut, value)] + Left(cursor, d)
    ensures status == Ok ==> (mark == 2 <==> old(cursor.Pending(d)) != []) && (mark == 0 ==> cursor.Pending(d) == [])
    ensures status == Ok ==> if mark == 2 then cursor.it.cut == old(cursor.it.cut)
                             else mark < 2 && key.ord == cursor.it.cut > old(cursor.it.cut) && key.ord in cursor.it.tree.contents
                                  && HasKey(cursor.it.tree.pages, cursor.it.tree.shape, 0, key)
  {
    hide DuplicateCursor.Valid, DuplicateCursor.Pending, DupsOk, KeyOk, ValuesOf, ReturnStep, Listing, Pairs, Tagged,
      KeysAbove, BPlusTree.Valid, DuplicateCursor.AtFirst, HasKey, TreeKeys.Named;
    var tree: BPlusTree := cursor.it.tree;
    ghost var others, contents, low, pending := tree.others, tree.contents, cursor.it.cut, cursor.Pending(d);
    CursorTree(cursor, d);
    status, key, value, mark := cursor.Traverse(d);
    ghost var cut := cursor.it.cut;
    if status == NotFound {
      assert cursor.it.tree == tree && tree.contents == contents && cursor.it.cut == low;
      KeysEnd(contents, low);
      NoPairs(others, contents, d, low);
    } else if pending != [] {
      TagNext(low, pending, PairsAbove(others, contents, d, low));
    } else {
      ghost var more := cursor.Pending(d);
      FirstIs(cursor, d, value, mark);
      FirstMark(cursor, d, value, mark);
      ReachedKey(contents, low, key.ord, cut);
      assert low < cut by {
        AboveBefore(contents, low, key.ord);
      }
      KeysStep(contents, low, cut);
      PairsNext(others, contents, d, cut, KeysAbove(contents, cut), value, more);
      EmptyFront(low, PairsAbove(others, contents, d, low));
    }
  }

  lemma AboveBefore(contents: map<real, int>, low: real, ord: real)
    requires ReturnStep(contents, low, ord, ord)
    ensures low < ord
  {
  }

  lemma FirstMark(cursor: DuplicateCursor, d: Dups, value: int, mark: nat)
    requires cursor.it.tree != null && cursor.Valid(d) && cursor.AtFirst(d, value, mark)
    ensures mark < 2 && (mark == 0 ==> cursor.Pending(d) == [])
  {
    hide DupsOk, KeyOk, DuplicateCursor.Valid, DuplicateCursor.Pending;
  }
}
