/** Whole runs over a tree with duplicate keys: after any sequence of additions and removals, every key has
    exactly the values it should have, in whichever form they are kept. */
module DuplicateRuns {
  import opened NodeLayout
  import opened TreeShape
  import opened KeyOrder
  import opened TreeHousing
  import opened TreeKeys
  import opened TreeCursor
  import opened TreeFate
  import opened BPlusTrees
  import opened DuplicateValues
  import opened DuplicateInsert
  import opened DuplicateRemove
  import opened DuplicateTrees
  import opened DuplicateCursors
  import T = TreeRuns

  datatype Op = Add(name: seq<Byte>, value: int) | Drop(name: seq<Byte>, value: int)

  type Index = map<seq<Byte>, multiset<int>>

  function At(m: Index, name: seq<Byte>): multiset<int> {
    if name in m then m[name] else multiset{}
  }

  function After(m: Index, op: Op): multiset<int> {
    match op
    case Add(name, value) => At(m, name) + multiset{value}
    case Drop(name, value) => At(m, name) - multiset{value}
  }

  function Apply(m: Index, op: Op): Index {
    if After(m, op) == multiset{} then m - {op.name} else m[op.name := After(m, op)]
  }

  /** What an index would hold after the operations. */
  function Replay(ops: seq<Op>): Index {
    if ops == [] then map[] else Apply(Replay(ops[..|ops| - 1]), ops[|ops| - 1])
  }

  /** A pair of a name and a value that is not a link; only pairs that are there are dropped. */
  ghost predicate SoundOp(m: Index, op: Op) {
    T.IsName(op.name) && 0 <= op.value < LINK_LIMIT && (op.Drop? ==> op.value in At(m, op.name))
  }

  ghost predicate Sound(ops: seq<Op>) {
    forall i {:trigger ops[i]} :: 0 <= i < |ops| ==> SoundOp(Replay(ops[..i]), ops[i])
  }

  predicate NamesUpTo(ops: seq<Op>, length: nat) {
    forall i :: 0 <= i < |ops| ==> |ops[i].name| <= length
  }

  /** The tree has the names of the index, and under each the values of the index, as often. */
  ghost predicate Mirrors(m: Index, pages: Pages, contents: map<real, int>, d: Dups) {
    && DupsOk(pages, contents, d)
    && forall name :: NulFree(name) ==> MirrorsAt(m, pages, contents, d, name)
  }

  ghost predicate MirrorsAt(m: Index, pages: Pages, contents: map<real, int>, d: Dups, name: seq<Byte>)
    requires DupsOk(pages, contents, d)
  {
    (name in m <==> Ord(name) in contents) && multiset(ValuesAt(pages, contents, d, Ord(name))) == At(m, name)
  }

  lemma MirrorsAfter(m: Index, op: Op, pages: Pages, contents: map<real, int>, d: Dups, pages': Pages, contents': map<real, int>, d': Dups)
    requires Mirrors(m, pages, contents, d) && NulFree(op.name)
    requires OneChanged(pages, contents, d, pages', contents', d', Ord(op.name), After(m, op))
    ensures Mirrors(Apply(m, op), pages', contents', d')
  {
    hide DupsOk, ValuesAt, OneChanged, MirrorsAt, Apply;
    ChangedIsOk(pages, contents, d, pages', contents', d', Ord(op.name), After(m, op));
    forall name | NulFree(name) ensures MirrorsAt(Apply(m, op), pages', contents', d', name) {
      assert MirrorsAt(m, pages, contents, d, name);
      if name == op.name {
        MirrorsChanged(m, op, pages, contents, d, pages', contents', d');
      } else {
        MirrorsOther(m, op, pages, contents, d, pages', contents', d', name);
      }
    }
  }

  lemma MirrorsChanged(m: Index, op: Op, pages: Pages, contents: map<real, int>, d: Dups, pages': Pages, contents': map<real, int>,
                       d': Dups)
    requires OneChanged(pages, contents, d, pages', contents', d', Ord(op.name), After(m, op)) && DupsOk(pages', contents', d')
    ensures MirrorsAt(Apply(m, op), pages', contents', d', op.name)
  {
    hide DupsOk, ValuesAt, After;
  }

  lemma MirrorsOther(m: Index, op: Op, pages: Pages, contents: map<real, int>, d: Dups, pages': Pages, contents': map<real, int>, d': Dups,
                     name: seq<Byte>)
    requires OneChanged(pages, contents, d, pages', contents', d', Ord(op.name), After(m, op)) && DupsOk(pages', contents', d')
    requires NulFree(name) && NulFree(op.name) && name != op.name && DupsOk(pages, contents, d) && MirrorsAt(m, pages, contents, d, name)
    ensures MirrorsAt(Apply(m, op), pages', contents', d', name)
  {
    hide DupsOk, ValuesAt, After;
    StringOrder(name, op.name, 0, 0);
    assert At(Apply(m, op), name) == At(m, name);
  }

  /** No index holds a name without values. */
  lemma {:induction false} NamesHaveValues(ops: seq<Op>)
    ensures forall name :: name in Replay(ops) ==> Replay(ops)[name] != multiset{}
  {
    if ops != [] {
      NamesHaveValues(ops[..|ops| - 1]);
    }
  }

  /** The tree between two operations. */
  datatype Standing = Standing(pages: Pages, root: int, levels: nat, size: int, others: Pages, contents: map<real, int>, d: Dups)

  ghost function StandingOf(tree: BPlusTree, d: Dups): Standing
    reads tree
  {
    Standing(tree.pages, tree.rootNode, tree.levels, tree.maximumSize, tree.others, tree.contents, d)
  }

  /** The file can take no further page whose offset fits a link. */
  predicate IsHuge(s: Standing) {
    s.size + NODE_SIZE > LINK_LIMIT
  }

  /** Why a run stops: a new name whose split is not faithful, or a file too large for links. */
  predicate Stops(s: Standing, m: Index, op: Op) {
    op.Add? && (IsHuge(s) || (op.name !in m && s.levels > 0
                              && FateBelow(s.pages, s.root, s.levels - 1, T.StringKey(op.name)) == Lost))
  }

  /** Before every operation carried out, the tree held what the index holds, and nothing stopped the operation. */
  ghost predicate Faithful(ops: seq<Op>, trace: seq<Standing>, done: nat) {
    && done <= |ops| && |trace| == done + 1
    && (forall i {:trigger trace[i]} :: 0 <= i <= done ==> Mirrors(Replay(ops[..i]), trace[i].others, trace[i].contents, trace[i].d))
    && forall i {:trigger ops[i]} :: 0 <= i < done ==> !Stops(trace[i], Replay(ops[..i]), ops[i])
  }

  lemma FaithfulStep(ops: seq<Op>, trace: seq<Standing>, done: nat, next: Standing)
    requires Faithful(ops, trace, done) && done < |ops| && !Stops(trace[done], Replay(ops[..done]), ops[done])
    requires Mirrors(Replay(ops[..done + 1]), next.others, next.contents, next.d)
    ensures Faithful(ops, trace + [next], done + 1)
  {
    hide Mirrors, Stops, Replay;
  }

  /** One operation; false if it cannot be carried out. */
  method Step(tree: BPlusTree, ghost d: Dups, op: Op, ghost m: Index) returns (ok: bool, ghost d': Dups)
    requires Sane(tree, d) && tree.iterators == {} && Mirrors(m, tree.others, tree.contents, d) && SoundOp(m, op)
    requires forall name :: name in m ==> m[name] != multiset{}
    modifies tree
    ensures ok <==> !Stops(old(StandingOf(tree, d)), m, op)
    ensures ok ==> Sane(tree, d') && tree.iterators == {} && Mirrors(Apply(m, op), tree.others, tree.contents, d')
    ensures old(ShortTree(tree.pages, tree.shape)) && |op.name| <= SHORT_KEY ==>
              ShortTree(tree.pages, tree.shape) && (ok || IsHuge(old(StandingOf(tree, d))))
    ensures old(T.Spelt(tree.pages, tree.shape)) ==> T.Spelt(tree.pages, tree.shape)
  {
    hide T.Spelt, KeysGrow, KeysKept, TreeKeys.Named, Sane, ShortTree, Mirrors, MirrorsAt, ValuesAt, OneChanged, DupsOk, FateBelow, BPlusTree.Valid, Apply, NulFree;
    ghost var others, contents, pages, sh := tree.others, tree.contents, tree.pages, tree.shape;
    var key := T.StringKey(op.name);
    var status;
    MirrorsHere(m, others, contents, d, op.name);
    SaneParts(tree, d);
    match op {
      case Add(name, value) =>
        if !CanGrow(tree) {
          return false, d;
        }
        status, d' := Insert(tree, d, key, value);
        if T.Spelt(pages, sh) { T.StaysSpelt(pages, sh, tree.pages, tree.shape, name); }
        ok := status == Ok;
      case Drop(name, value) =>
        DropIsChange(multiset(ValuesAt(others, contents, d, key.ord)), ValuesAt(others, contents, d, key.ord), value);
        status, d' := Remove(tree, d, key, value);
        if T.Spelt(pages, sh) { T.KeepsSpelt(pages, sh, tree.pages, tree.shape); }
        ok := true;
    }
    if ok {
      MirrorsAfter(m, op, others, contents, d, tree.others, tree.contents, d');
    }
  }

  lemma MirrorsHere(m: Index, pages: Pages, contents: map<real, int>, d: Dups, name: seq<Byte>)
    requires Mirrors(m, pages, contents, d) && NulFree(name)
    ensures DupsOk(pages, contents, d) && (name in m <==> Ord(name) in contents)
    ensures multiset(ValuesAt(pages, contents, d, Ord(name))) == At(m, name)
  {
    hide DupsOk, ValuesAt;
    assert MirrorsAt(m, pages, contents, d, name);
  }

  lemma SaneParts(tree: BPlusTree, d: Dups)
    requires Sane(tree, d)
    ensures tree.Valid() && DupsOk(tree.others, tree.contents, d)
  {
    hide DupsOk;
  }

  /** A key with a single value loses it and is gone. */
  lemma DropIsChange(all: multiset<int>, values: seq<int>, value: int)
    requires all == multiset(values) && value in all
    ensures value in values && (|values| <= 1 ==> all - multiset{value} == multiset{})
  {
    assert all[value] > 0;
    if |values| <= 1 {
      assert values == [value];
    }
  }

  lemma StepIsReplay(ops: seq<Op>, i: nat)
    requires i < |ops|
    ensures Replay(ops[..i + 1]) == Apply(Replay(ops[..i]), ops[i])
  {
    assert ops[..i + 1][..i] == ops[..i];
  }

  lemma NothingMirrors(tree: BPlusTree, d: Dups)
    requires tree.Valid() && tree.contents == map[] && tree.others == map[] && d == Dups(map[], map[], map[])
    ensures Sane(tree, d) && Mirrors(map[], tree.others, tree.contents, d)
  {
  }

  /** Runs the operations on a new tree: all of them, or those before the first that cannot be carried out. */
  method Run(ops: seq<Op>) returns (tree: BPlusTree, done: nat, ghost d: Dups, ghost trace: seq<Standing>)
    requires Sound(ops)
    ensures fresh(tree) && Faithful(ops, trace, done)
    ensures done == |ops| ==> Sane(tree, d) && Mirrors(Replay(ops), tree.others, tree.contents, d) && T.Spelt(tree.pages, tree.shape)
    ensures done < |ops| ==> Stops(trace[done], Replay(ops[..done]), ops[done])
    ensures NamesUpTo(ops, SHORT_KEY) && done < |ops| ==> IsHuge(trace[done])
  {
    hide Sane, Mirrors, ShortTree, Stops, Faithful, IsHuge, Replay, Apply, SoundOp, BPlusTree.Valid, T.StringKey, T.Spelt;
    tree := new BPlusTree.Create();
    done, d := 0, Dups(map[], map[], map[]);
    trace := [StandingOf(tree, d)];
    NothingMirrors(tree, d);
    NothingDone(ops, trace);
    T.NothingSpelt(tree);
    while done < |ops|
      invariant done <= |ops| && fresh(tree) && tree.iterators == {} && Sane(tree, d) && T.Spelt(tree.pages, tree.shape)
      invariant Mirrors(Replay(ops[..done]), tree.others, tree.contents, d)
      invariant |trace| == done + 1 && Faithful(ops, trace, done) && trace[done] == StandingOf(tree, d)
      invariant NamesUpTo(ops, SHORT_KEY) ==> ShortTree(tree.pages, tree.shape)
    {
      NamesHaveValues(ops[..done]);
      StepIsReplay(ops, done);
      var ok;
      ok, d := Step(tree, d, ops[done], Replay(ops[..done]));
      if !ok {
        return;
      }
      FaithfulStep(ops, trace, done, StandingOf(tree, d));
      done, trace := done + 1, trace + [StandingOf(tree, d)];
    }
    assert ops[..|ops|] == ops;
  }

  lemma NothingDone(ops: seq<Op>, trace: seq<Standing>)
    requires |trace| == 1 && Mirrors(map[], trace[0].others, trace[0].contents, trace[0].d)
    ensures Faithful(ops, trace, 0) && Replay(ops[..0]) == map[]
  {
    hide Mirrors;
    assert ops[..0] == [];
  }

  // ---- listing an index ----

  /** The values listed under a name. */
  function Under(entries: seq<(seq<Byte>, int)>, name: seq<Byte>): seq<int> {
    if entries == [] then []
    else
      var last := |entries| - 1;
      Under(entries[..last], name) + if entries[last].0 == name then [entries[last].1] else []
  }

  lemma UnderNext(entries: seq<(seq<Byte>, int)>, name: seq<Byte>, value: int, other: seq<Byte>)
    ensures Under(entries + [(name, value)], other) == Under(entries, other) + if name == other then [value] else []
  {
    assert (entries + [(name, value)])[..|entries|] == entries;
  }

  lemma {:induction false} UnderNothing(entries: seq<(seq<Byte>, int)>, name: seq<Byte>)
    requires forall i :: 0 <= i < |entries| ==> entries[i].0 != name
    ensures Under(entries, name) == []
  {
    if entries != [] {
      UnderNothing(entries[..|entries| - 1], name);
    }
  }

  ghost predicate InOrder(entries: seq<(seq<Byte>, int)>) {
    && (forall i, j :: 0 <= i < j < |entries| ==> Ord(entries[i].0) <= Ord(entries[j].0))
    && forall i :: 0 <= i < |entries| ==> NulFree(entries[i].0)
  }

  /** All pairs of the index, under each name its values, as often; the names in their order. */
  ghost predicate IsListing(m: Index, entries: seq<(seq<Byte>, int)>) {
    InOrder(entries) && forall name :: NulFree(name) ==> multiset(Under(entries, name)) == At(m, name)
  }

  /** The same of the names up to a place, but for the values of the last that are still to come. */
  ghost predicate ListedTo(m: Index, entries: seq<(seq<Byte>, int)>, cut: real, pending: seq<int>) {
    && InOrder(entries) && (forall i :: 0 <= i < |entries| ==> Ord(entries[i].0) <= cut)
    && forall name :: NulFree(name) && Ord(name) <= cut ==>
         At(m, name) == multiset(Under(entries, name)) + if Ord(name) == cut then multiset(pending) else multiset{}
  }

  /** Nothing is listed, or to be listed, between two keys. */
  lemma NoneBetween(m: Index, pages: Pages, contents: map<real, int>, d: Dups, entries: seq<(seq<Byte>, int)>, cut: real, name: seq<Byte>)
    requires Mirrors(m, pages, contents, d) && ListedTo(m, entries, cut, []) && NulFree(name) && cut < Ord(name)
    ensures Under(entries, name) == [] && (Ord(name) !in contents ==> At(m, name) == multiset{})
    ensures DupsOk(pages, contents, d) && At(m, name) == multiset(ValuesAt(pages, contents, d, Ord(name)))
  {
    hide DupsOk, ValuesAt, Ord;
    assert MirrorsAt(m, pages, contents, d, name);
    UnderNothing(entries, name);
  }

  lemma OrderNext(entries: seq<(seq<Byte>, int)>, name: seq<Byte>, value: int)
    requires InOrder(entries) && NulFree(name) && forall i :: 0 <= i < |entries| ==> Ord(entries[i].0) <= Ord(name)
    ensures InOrder(entries + [(name, value)])
    ensures forall i :: 0 <= i <= |entries| ==> Ord((entries + [(name, value)])[i].0) <= Ord(name)
  {
    hide Ord, NulFree;
  }

  lemma OneLess(values: multiset<int>, pending: seq<int>)
    requires pending != []
    ensures values + multiset(pending) == (values + multiset([pending[0]])) + multiset(pending[1..])
  {
    assert pending == [pending[0]] + pending[1..];
  }

  /** A further value of the same name. */
  lemma ListedMore(m: Index, entries: seq<(seq<Byte>, int)>, cut: real, pending: seq<int>, name: seq<Byte>)
    requires ListedTo(m, entries, cut, pending) && pending != [] && NulFree(name) && Ord(name) == cut
    ensures ListedTo(m, entries + [(name, pending[0])], cut, pending[1..])
  {
    hide Ord, NulFree, InOrder, Under;
    var all := entries + [(name, pending[0])];
    OrderNext(entries, name, pending[0]);
    forall other | NulFree(other) && Ord(other) <= cut
      ensures At(m, other) == multiset(Under(all, other)) + if Ord(other) == cut then multiset(pending[1..]) else multiset{} {
      UnderNext(entries, name, pending[0], other);
      StringOrder(other, name, 0, 0);
      if Ord(other) == cut {
        OneLess(multiset(Under(entries, name)), pending);
      }
    }
  }

  /** The first value of the next name. */
  lemma ListedName(m: Index, pages: Pages, contents: map<real, int>, d: Dups, entries: seq<(seq<Byte>, int)>, cut: real, name: seq<Byte>,
                   value: int, pending: seq<int>)
    requires Mirrors(m, pages, contents, d) && ListedTo(m, entries, cut, []) && NulFree(name) && DupsOk(pages, contents, d)
    requires ReturnStep(contents, cut, Ord(name), Ord(name)) && ValuesAt(pages, contents, d, Ord(name)) == [value] + pending
    ensures ListedTo(m, entries + [(name, value)], Ord(name), pending)
  {
    hide DupsOk, ValuesAt, Ord, Mirrors, NulFree, InOrder, Under;
    var all := entries + [(name, value)];
    OrderNext(entries, name, value);
    forall other | NulFree(other) && Ord(other) <= Ord(name)
      ensures At(m, other) == multiset(Under(all, other)) + if Ord(other) == Ord(name) then multiset(pending) else multiset{} {
      UnderNext(entries, name, value, other);
      StringOrder(other, name, 0, 0);
      if cut < Ord(other) {
        NoneBetween(m, pages, contents, d, entries, cut, other);
      }
    }
  }

  lemma ListedAll(m: Index, pages: Pages, contents: map<real, int>, d: Dups, entries: seq<(seq<Byte>, int)>, cut: real)
    requires Mirrors(m, pages, contents, d) && ListedTo(m, entries, cut, []) && forall ord :: ord in contents ==> ord <= cut
    ensures IsListing(m, entries)
  {
    hide DupsOk, ValuesAt, Ord, Mirrors;
    forall name | NulFree(name) ensures multiset(Under(entries, name)) == At(m, name) {
      if cut < Ord(name) {
        NoneBetween(m, pages, contents, d, entries, cut, name);
      }
    }
  }

  lemma NothingListed(m: Index)
    ensures ListedTo(m, [], -1.0, [])
  {
  }

  /** Going through the tree lists the index. */
  method List(tree: BPlusTree, ghost d: Dups, ghost m: Index) returns (entries: seq<(seq<Byte>, int)>)
    requires Sane(tree, d) && Mirrors(m, tree.others, tree.contents, d) && T.Spelt(tree.pages, tree.shape)
    modifies tree`iterators
    ensures IsListing(m, entries)
  {
    hide Sane, Mirrors, T.Spelt, ListedTo, IsListing, DupsOk, BPlusTree.Valid, ValuesOf, ValuesAt, KeyOk, HasKey, TreeKeys.Named, Ahead,
      ReturnStep, Ord, NulFree, DuplicateCursor.Valid, DuplicateCursor.Pending, DuplicateCursor.AtFirst;
    SaneParts(tree, d);
    var it := new TreeIterator(tree);
    var cursor := new DuplicateCursor(it, d);
    entries := [];
    NothingListed(m);
    var name: seq<Byte> := [];
    while true
      invariant cursor.it == it && it.tree == tree && cursor.Valid(d) && fresh(cursor) && fresh(it)
      invariant Mirrors(m, tree.others, tree.contents, d) && T.Spelt(tree.pages, tree.shape)
      invariant cursor.Pending(d) != [] ==> NulFree(name) && Ord(name) == it.cut
      invariant ListedTo(m, entries, it.cut, cursor.Pending(d))
      decreases |Ahead(tree.contents, it.cut)|, |cursor.Pending(d)|
    {
      ghost var contents, cut, pending := tree.contents, it.cut, cursor.Pending(d);
      var status, key, value, mark := cursor.Traverse(d);
      if status != Ok {
        assert cursor.it.tree == tree && tree.contents == contents && it.cut == cut;
        ListedAll(m, tree.others, tree.contents, d, entries, it.cut);
        return;
      }
      MarkIs(cursor, d, value, mark, pending);
      if mark == 2 {
        ListedMore(m, entries, cut, pending, name);
      } else {
        CursorTree(cursor, d);
        FirstIs(cursor, d, value, mark);
        ReachedKey(tree.contents, cut, key.ord, it.cut);
        FewerAhead(tree.contents, cut, key.ord);
        T.SpeltHere(tree, key);
        name := key.bytes;
        ValuesThere(tree.others, tree.contents, d, it.cut);
        ListedName(m, tree.others, tree.contents, d, entries, cut, name, value, cursor.Pending(d));
      }
      entries := entries + [(name, value)];
    }
  }

  lemma ValuesThere(pages: Pages, contents: map<real, int>, d: Dups, ord: real)
    requires DupsOk(pages, contents, d) && ord in contents && KeyOk(pages, d, ord, contents[ord])
    ensures ValuesAt(pages, contents, d, ord) == ValuesOf(pages, d, ord, contents[ord])
  {
    hide DupsOk, ValuesOf, KeyOk;
  }

  /** After any run that was not stopped, going through the tree lists the index, in names as they were added. */
  method ListAfter(ops: seq<Op>) returns (done: nat, entries: seq<(seq<Byte>, int)>, ghost trace: seq<Standing>)
    requires Sound(ops)
    ensures Faithful(ops, trace, done)
    ensures done < |ops| ==> Stops(trace[done], Replay(ops[..done]), ops[done])
    ensures done == |ops| ==> IsListing(Replay(ops), entries)
  {
    hide Sane, Mirrors, Stops, Faithful, Replay, T.Spelt, IsListing;
    var tree;
    ghost var d;
    tree, done, d, trace := Run(ops);
    entries := [];
    if done == |ops| {
      entries := List(tree, d, Replay(ops));
    }
  }
}
