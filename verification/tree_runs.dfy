/** Whole runs over a string tree: what Find says after any sequence of inserts and removals. */
module TreeRuns {
  import opened NodeLayout
  import opened TreeShape
  import opened KeyOrder
  import opened TreeHousing
  import opened TreeKeys
  import opened TreeCursor
  import opened TreeFate
  import opened BPlusTrees
  import B = NodeBytes
  import P = PageSplit
  import PL = PageLoss
  import C = DuplicateCursors

  datatype Op = Add(name: seq<Byte>, value: int) | Drop(name: seq<Byte>)

  function Apply(m: map<seq<Byte>, int>, op: Op): map<seq<Byte>, int> {
    match op
    case Add(name, value) => if name in m then m else m[name := value]
    case Drop(name) => m - {name}
  }

  /** What a directory with unique names would hold after the operations. */
  function Replay(ops: seq<Op>): map<seq<Byte>, int> {
    if ops == [] then map[] else Apply(Replay(ops[..|ops| - 1]), ops[|ops| - 1])
  }

  /** Names as directories have them: no NUL, and of a length that the tree takes. */
  ghost predicate IsName(name: seq<Byte>) {
    NulFree(name) && MIN_KEY_LENGTH <= |name| <= MAX_KEY_LENGTH
  }

  /** Only names are added, and only names that are there are dropped. */
  ghost predicate Sound(ops: seq<Op>) {
    forall i :: 0 <= i < |ops| ==> SoundAt(ops, i)
  }

  ghost predicate SoundAt(ops: seq<Op>, i: int)
    requires 0 <= i < |ops|
  {
    IsName(ops[i].name) && (ops[i].Drop? ==> ops[i].name in Replay(ops[..i]))
  }

  predicate NamesUpTo(ops: seq<Op>, length: nat) {
    forall i :: 0 <= i < |ops| ==> |ops[i].name| <= length
  }

  /** The tree's pairs are those of the directory, under the places of their names. */
  ghost predicate Mirrors(m: map<seq<Byte>, int>, contents: map<real, int>) {
    forall name :: NulFree(name) ==>
      (name in m <==> Ord(name) in contents) && (name in m ==> m[name] == contents[Ord(name)])
  }

  function StringKey(name: seq<Byte>): Key {
    Key(name, Ord(name))
  }

  /** Every key in a leaf is a name in its place. */
  ghost predicate Spelt(pages: Pages, sh: Shape) {
    forall k {:trigger HasKey(pages, sh, 0, k)} :: HasKey(pages, sh, 0, k) ==> k == StringKey(k.bytes) && IsName(k.bytes)
  }

  lemma StaysSpelt(pages: Pages, sh: Shape, pages': Pages, sh': Shape, name: seq<Byte>)
    requires Spelt(pages, sh) && IsName(name) && KeysGrow(pages, sh, pages', sh', StringKey(name), 0)
    ensures Spelt(pages', sh')
  {
    hide HasKey, NulFree, Ord;
    forall k | HasKey(pages', sh', 0, k) ensures k == StringKey(k.bytes) && IsName(k.bytes) {
      assert HasKey(pages, sh, 0, k) || k == StringKey(name);
    }
  }

  lemma KeepsSpelt(pages: Pages, sh: Shape, pages': Pages, sh': Shape)
    requires Spelt(pages, sh) && KeysKept(pages, sh, pages', sh')
    ensures Spelt(pages', sh')
  {
    hide HasKey, NulFree, Ord;
  }

  lemma MirrorsAfterAdd(m: map<seq<Byte>, int>, contents: map<real, int>, name: seq<Byte>, value: int)
    requires Mirrors(m, contents) && NulFree(name)
    ensures Mirrors(m[name := value], contents[Ord(name) := value])
  {
    forall other | NulFree(other) ensures Ord(other) == Ord(name) <==> other == name {
      StringOrder(other, name, 0, 0);
    }
  }

  lemma MirrorsAfterDrop(m: map<seq<Byte>, int>, contents: map<real, int>, name: seq<Byte>)
    requires Mirrors(m, contents) && NulFree(name)
    ensures Mirrors(m - {name}, contents - {Ord(name)})
  {
    forall other | NulFree(other) ensures Ord(other) == Ord(name) <==> other == name {
      StringOrder(other, name, 0, 0);
    }
  }

  /** The tree between two operations. */
  datatype Standing = Standing(pages: Pages, shape: Shape, root: int, levels: nat, contents: map<real, int>)

  ghost predicate Stands(s: Standing) {
    s.levels > 0 && Tree(s.pages, s.shape, s.root, s.levels) && Agrees(s.pages, s.shape, s.contents)
  }

  /** The operation adds a new name, and on its way up some split is not a faithful one. */
  predicate OpLoses(s: Standing, m: map<seq<Byte>, int>, op: Op) {
    op.Add? && op.name !in m && s.levels > 0 && FateBelow(s.pages, s.root, s.levels - 1, StringKey(op.name)) == Lost
  }

  /** Before every operation carried out, the tree stood, held what the directory holds, and the operation was harmless. */
  ghost predicate Faithful(ops: seq<Op>, trace: seq<Standing>, done: nat) {
    && done <= |ops| && |trace| == done + 1
    && (forall i {:trigger trace[i]} :: 0 <= i <= done ==> Stands(trace[i]) && Mirrors(Replay(ops[..i]), trace[i].contents))
    && forall i {:trigger ops[i]} :: 0 <= i < done ==> !OpLoses(trace[i], Replay(ops[..i]), ops[i])
  }

  ghost function StandingOf(tree: BPlusTree): (s: Standing)
    requires tree.Valid()
    reads tree
    ensures Stands(s) && s.levels > 0
  {
    Standing(tree.pages, tree.shape, tree.rootNode, tree.levels, tree.contents)
  }

  lemma ReplayStep(ops: seq<Op>, done: nat)
    requires done < |ops|
    ensures Replay(ops[..done + 1]) == Apply(Replay(ops[..done]), ops[done])
  {
    assert ops[..done + 1][..done] == ops[..done];
  }

  lemma FaithfulStep(ops: seq<Op>, trace: seq<Standing>, done: nat, next: Standing)
    requires Faithful(ops, trace, done) && done < |ops| && !OpLoses(trace[done], Replay(ops[..done]), ops[done])
    requires Stands(next) && Mirrors(Apply(Replay(ops[..done]), ops[done]), next.contents)
    ensures Faithful(ops, trace + [next], done + 1)
  {
    hide Stands, Mirrors, OpLoses, Replay, Apply;
    ReplayStep(ops, done);
  }

  lemma NoLossSoFar(ops: seq<Op>, trace: seq<Standing>)
    requires |trace| == 1 && Stands(trace[0]) && trace[0].contents == map[]
    ensures Faithful(ops, trace, 0)
  {
    assert ops[..0] == [];
  }

  lemma FaithfulLast(ops: seq<Op>, trace: seq<Standing>, done: nat)
    requires Faithful(ops, trace, done)
    ensures Stands(trace[done]) && Mirrors(Replay(ops[..done]), trace[done].contents)
  {
  }

  /** One operation; false if it loses data. */
  method Step(tree: BPlusTree, op: Op, ghost m: map<seq<Byte>, int>) returns (ok: bool)
    requires tree.Valid() && tree.iterators == {} && Mirrors(m, tree.contents) && IsName(op.name) && (op.Drop? ==> op.name in m)
    modifies tree
    ensures ok <==> !OpLoses(old(StandingOf(tree)), m, op)
    ensures ok ==> tree.Valid() && tree.iterators == {} && Mirrors(Apply(m, op), tree.contents)
    ensures old(ShortTree(tree.pages, tree.shape)) && |op.name| <= SHORT_KEY ==> ok && ShortTree(tree.pages, tree.shape)
    ensures old(Spelt(tree.pages, tree.shape)) ==> Spelt(tree.pages, tree.shape)
  {
    hide AtRest, ShortTree, FateBelow, Stands, Mirrors, Spelt, KeysGrow, KeysKept, TreeKeys.Named;
    ghost var pages, sh := tree.pages, tree.shape;
    ok := true;
    var key := StringKey(op.name);
    MirrorsHere(m, tree.contents, op.name);
    match op {
      case Add(name, value) =>
        MirrorsAfterAdd(m, tree.contents, name, value);
        var status := tree.Insert(key, value);
        ok := status != SplitLost;
        if Spelt(pages, sh) { StaysSpelt(pages, sh, tree.pages, tree.shape, name); }
      case Drop(name) =>
        MirrorsAfterDrop(m, tree.contents, name);
        var status := tree.Remove(key);
        if Spelt(pages, sh) { KeepsSpelt(pages, sh, tree.pages, tree.shape); }
    }
  }

  lemma MirrorsHere(m: map<seq<Byte>, int>, contents: map<real, int>, name: seq<Byte>)
    requires Mirrors(m, contents) && NulFree(name)
    ensures name in m <==> Ord(name) in contents
  {
  }

  /** Runs the operations on a new tree: all of them, or those before the first that loses data. */
  method Run(ops: seq<Op>) returns (tree: BPlusTree, done: nat, ghost trace: seq<Standing>)
    requires Sound(ops)
    ensures fresh(tree) && Faithful(ops, trace, done)
    ensures done == |ops| ==> tree.Valid() && Mirrors(Replay(ops), tree.contents) && Spelt(tree.pages, tree.shape)
    ensures done < |ops| ==> OpLoses(trace[done], Replay(ops[..done]), ops[done])
    ensures NamesUpTo(ops, SHORT_KEY) ==> done == |ops|
  {
    hide AtRest, ShortTree, Stands, Mirrors, Faithful, OpLoses, Spelt;
    tree := new BPlusTree.Create();
    done := 0;
    trace := [StandingOf(tree)];
    NoLossSoFar(ops, trace);
    NothingSpelt(tree);
    while done < |ops|
      invariant tree.Valid() && fresh(tree) && tree.iterators == {} && Spelt(tree.pages, tree.shape)
      invariant done <= |ops| && |trace| == done + 1 && Faithful(ops, trace, done) && trace[done] == StandingOf(tree)
      invariant NamesUpTo(ops, SHORT_KEY) ==> ShortTree(tree.pages, tree.shape)
    {
      assert SoundAt(ops, done);
      FaithfulLast(ops, trace, done);
      var ok := Step(tree, ops[done], Replay(ops[..done]));
      if !ok {
        return;
      }
      FaithfulStep(ops, trace, done, StandingOf(tree));
      done, trace := done + 1, trace + [StandingOf(tree)];
    }
    FaithfulLast(ops, trace, done);
    assert ops[..|ops|] == ops;
  }

  /** After any run that was not stopped, Find agrees with the directory. */
  method FindAfter(ops: seq<Op>, name: seq<Byte>) returns (ran: bool, status: Status, value: int)
    requires Sound(ops) && IsName(name)
    ensures NamesUpTo(ops, SHORT_KEY) ==> ran
    ensures ran ==> status == (if name in Replay(ops) then Ok else NotFound)
    ensures ran && status == Ok ==> value == Replay(ops)[name]
  {
    var tree, done, _ := Run(ops);
    ran, status, value := done == |ops|, NotFound, 0;
    if ran {
      status, value := tree.Find(StringKey(name));
    }
  }

  // ---- listing a directory ----

  lemma NothingSpelt(tree: BPlusTree)
    requires tree.Named(map[])
    ensures Spelt(tree.pages, tree.shape)
  {
    hide HasKey;
  }

  /** All entries of the directory, each once, in the order of their names. */
  ghost predicate IsListing(m: map<seq<Byte>, int>, entries: seq<(seq<Byte>, int)>) {
    && (forall i, j :: 0 <= i < j < |entries| ==> Ord(entries[i].0) < Ord(entries[j].0))
    && (forall i :: 0 <= i < |entries| ==> entries[i].0 in m && m[entries[i].0] == entries[i].1)
    && forall name :: name in m ==> exists i :: 0 <= i < |entries| && entries[i].0 == name
  }

  /** The same of the names up to a place. */
  ghost predicate ListedTo(m: map<seq<Byte>, int>, entries: seq<(seq<Byte>, int)>, cut: real) {
    && (forall i, j :: 0 <= i < j < |entries| ==> Ord(entries[i].0) < Ord(entries[j].0))
    && (forall i :: 0 <= i < |entries| ==> entries[i].0 in m && m[entries[i].0] == entries[i].1 && Ord(entries[i].0) <= cut)
    && forall name :: name in m && Ord(name) <= cut ==> exists i :: 0 <= i < |entries| && entries[i].0 == name
  }

  lemma ListedNext(m: map<seq<Byte>, int>, contents: map<real, int>, entries: seq<(seq<Byte>, int)>, cut: real, name: seq<Byte>, value: int)
    requires ListedTo(m, entries, cut) && Mirrors(m, contents) && AllNames(m) && IsName(name)
    requires ReturnStep(contents, cut, Ord(name), Ord(name)) && value == contents[Ord(name)]
    ensures ListedTo(m, entries + [(name, value)], Ord(name))
  {
    hide Ord;
    var all := entries + [(name, value)];
    forall other | other in m && Ord(other) <= Ord(name) ensures exists i :: 0 <= i < |all| && all[i].0 == other {
      if Ord(other) <= cut {
        var i :| 0 <= i < |entries| && entries[i].0 == other;
        assert all[i].0 == other;
      } else {
        StringOrder(other, name, 0, 0);
        assert all[|entries|].0 == other;
      }
    }
  }

  lemma ListedAll(m: map<seq<Byte>, int>, contents: map<real, int>, entries: seq<(seq<Byte>, int)>, cut: real)
    requires ListedTo(m, entries, cut) && Mirrors(m, contents) && AllNames(m) && forall ord :: ord in contents ==> ord <= cut
    ensures IsListing(m, entries)
  {
    hide Ord;
  }

  ghost predicate AllNames(m: map<seq<Byte>, int>) {
    forall name :: name in m ==> IsName(name)
  }

  lemma {:induction false} ReplayHasNames(ops: seq<Op>)
    requires Sound(ops)
    ensures AllNames(Replay(ops))
    decreases |ops|
  {
    if ops != [] {
      var rest := ops[..|ops| - 1];
      forall i | 0 <= i < |rest| ensures SoundAt(rest, i) {
        assert SoundAt(ops, i) && rest[..i] == ops[..i];
      }
      ReplayHasNames(rest);
      assert SoundAt(ops, |ops| - 1);
    }
  }

  /** After any run that was not stopped, going through the tree lists the directory: each name, as it was added,
      with its value. */
  method ListAfter(ops: seq<Op>) returns (ran: bool, entries: seq<(seq<Byte>, int)>)
    requires Sound(ops)
    ensures NamesUpTo(ops, SHORT_KEY) ==> ran
    ensures ran ==> IsListing(Replay(ops), entries)
  {
    hide AtRest, Mirrors, Faithful, OpLoses, Spelt, ListedTo, IsListing, AllNames, HasKey, TreeKeys.Named, ReturnStep, C.Ahead, Ord, NulFree;
    var tree, done, trace := Run(ops);
    ran, entries := done == |ops|, [];
    if !ran {
      return;
    }
    ReplayHasNames(ops);
    var it := new TreeIterator(tree);
    NothingListed(Replay(ops));
    while true
      invariant it.tree == tree && it.Valid() && fresh(it) && fresh(tree)
      invariant Mirrors(Replay(ops), tree.contents) && Spelt(tree.pages, tree.shape) && ListedTo(Replay(ops), entries, it.cut)
      decreases |C.Ahead(tree.contents, it.cut)|
    {
      ghost var cut := it.cut;
      var status, key, value := it.Traverse();
      if status != Ok {
        ListedAll(Replay(ops), tree.contents, entries, it.cut);
        return;
      }
      SpeltHere(tree, key);
      C.ReachedKey(tree.contents, cut, key.ord, it.cut);
      C.FewerAhead(tree.contents, cut, key.ord);
      ListedNext(Replay(ops), tree.contents, entries, cut, key.bytes, value);
      entries := entries + [(key.bytes, value)];
    }
  }

  lemma SpeltHere(tree: BPlusTree, key: Key)
    requires Spelt(tree.pages, tree.shape) && HasKey(tree.pages, tree.shape, 0, key)
    ensures IsName(key.bytes) && key.ord == Ord(key.bytes)
  {
    hide HasKey, Ord;
  }

  lemma NothingListed(m: map<seq<Byte>, int>)
    ensures ListedTo(m, [], -1.0)
  {
  }

  // ---- One byte more than SHORT_KEY ----

  /** 84 names of one byte and four of two, ascending. */
  function Filler(i: nat): seq<Byte>
    requires i < 88
  {
    if i < 84 then [i + 1] else [i + 1, 1]
  }

  function Fillers(n: nat): (keys: seq<Key>)
    requires n <= 88
    ensures |keys| == n
  {
    seq(n, i requires 0 <= i < n => StringKey(Filler(i)))
  }

  /** A name of 133 bytes that belongs in the middle. */
  function LongName(): seq<Byte> {
    [44] + seq(SHORT_KEY, i => 1)
  }

  lemma FillerOrd(i: nat)
    requires i < 88
    ensures (i + 1) as real <= 256.0 * Ord(Filler(i)) < (i + 2) as real
    ensures i < 84 ==> 256.0 * Ord(Filler(i)) == (i + 1) as real
  {
    if i < 84 {
      assert Filler(i)[1..] == [];
    } else {
      assert Filler(i)[1..] == [1] && [1 as Byte][1..] == [];
    }
  }

  lemma LongOrd()
    ensures 44.0 < 256.0 * Ord(LongName()) < 45.0
  {
    var rest := LongName()[1..];
    assert rest == seq(SHORT_KEY, i => 1);
    assert rest[0] == 1;
    OrdOfNonEmpty(rest);
  }

  lemma FillersBytes(n: nat)
    requires n <= 88
    ensures KeyBytes(Fillers(n)) == if n <= 84 then n else 84 + 2 * (n - 84)
  {
    FillersPrefix(n, n);
  }

  lemma {:induction false} FillersPrefix(n: nat, i: nat)
    requires i <= n <= 88
    ensures Prefix(Lens(Fillers(n)), i) == if i <= 84 then i else 84 + 2 * (i - 84)
  {
    if i > 0 {
      FillersPrefix(n, i - 1);
    }
  }

  /** The next filler goes to the end of a leaf that has room for it. */
  lemma NextFiller(n: nat)
    requires n < 88
    ensures var keys, key := Fillers(n), StringKey(Filler(n));
            && Position(keys, key.ord) == n && WithKey(keys, n, key) == Fillers(n + 1)
            && Used(n + 1, KeyBytes(keys) + |key.bytes|) < NODE_SIZE
  {
    var keys, key := Fillers(n), StringKey(Filler(n));
    FillersBytes(n);
    forall j | 0 <= j < n ensures keys[j].ord < key.ord {
      FillerOrd(j);
      FillerOrd(n);
    }
    PositionIs(keys, key.ord, n);
  }

  /** The long name finds the leaf full, and its split is not faithful. */
  lemma LongNameIsLost(node: Page)
    requires node.Node? && node.overflow == NULL && node.keys == Fillers(88) && |node.values| == 88
    ensures Position(node.keys, Ord(LongName())) == 44 && Enter(node, 44, StringKey(LongName())) == Lost
  {
    hide Ord, Filler, LongName, SplitSafe, LeftCount, Used, Fillers;
    var ord := Ord(LongName());
    LongOrd();
    NamesFit();
    LongSplitIsUnsafe(Lens(node.keys));
    PlacesOfFillers(88);
    forall j | 0 <= j < 88 ensures if j < 44 then node.keys[j].ord < ord else ord <= node.keys[j].ord {
      FillerOrd(j);
    }
    PositionIs(node.keys, ord, 44);
  }

  lemma PlacesOfFillers(n: nat)
    requires n <= 88
    ensures forall j :: 0 <= j < n ==> Fillers(n)[j].ord == Ord(Filler(j))
  {
  }

  lemma LongSplitIsUnsafe(lens: seq<nat>)
    requires lens == Lens(Fillers(88))
    ensures |lens| == 88 && !SplitSafe(lens, 44, SHORT_KEY + 1, true) && Used(89, Prefix(lens, 88) + SHORT_KEY + 1) >= NODE_SIZE
  {
    hide RightSafe, LeftSafe;
    forall i | 0 <= i < 88 ensures lens[i] == if i < 84 then 1 else 2 {
      assert |Fillers(88)[i].bytes| == |Filler(i)|;
    }
    LongerKeyIsLost(lens);
    FillersPrefix(88, 88);
  }

  lemma FillerIsName(n: nat)
    requires n < 88
    ensures IsName(Filler(n)) && |Filler(n)| <= SHORT_KEY
  {
  }

  /** Nothing but the fillers is there. */
  ghost predicate OnlyFillers(contents: map<real, int>, n: nat)
    requires n <= 88
  {
    forall o :: o in contents ==> exists j {:trigger Filler(j)} :: 0 <= j < n && o == Ord(Filler(j))
  }

  lemma FillersApart(contents: map<real, int>, n: nat)
    requires n <= 88 && OnlyFillers(contents, n)
    ensures n < 88 ==> Ord(Filler(n)) !in contents
    ensures Ord(LongName()) !in contents
  {
    LongOrd();
    forall j | 0 <= j < n ensures Ord(Filler(j)) != Ord(LongName()) && (n < 88 ==> Ord(Filler(j)) < Ord(Filler(n))) {
      FillerOrd(j);
      if n < 88 {
        FillerOrd(n);
      }
    }
  }

  /** A tree that is a single leaf with the first fillers in it. */
  ghost predicate HasFillers(tree: BPlusTree, n: nat)
    requires n <= 88
    reads tree
  {
    && tree.Valid() && tree.levels == 1 && ShortTree(tree.pages, tree.shape) && OnlyFillers(tree.contents, n)
    && tree.rootNode in tree.pages && tree.pages[tree.rootNode].Node? && tree.pages[tree.rootNode].keys == Fillers(n)
  }

  lemma StoredIsThere(pages: Pages, sh: Shape, m: map<real, int>, p: int, i: nat)
    requires NodesOk(pages, sh) && Agrees(pages, sh, m) && p in sh.level && sh.level[p] == 0 && i < |pages[p].keys|
    ensures pages[p].keys[i].ord in m
  {
  }

  lemma MoreFillers(contents: map<real, int>, n: nat)
    requires n < 88 && OnlyFillers(contents, n)
    ensures OnlyFillers(contents[Ord(Filler(n)) := 0], n + 1)
  {
  }

  lemma NoFillers(tree: BPlusTree)
    requires tree.Valid() && tree.levels == 1 && tree.contents == map[] && ShortTree(tree.pages, tree.shape)
    ensures HasFillers(tree, 0)
  {
    hide Agrees;
    var leaf := tree.pages[tree.rootNode];
    assert NodeOk(tree.pages, tree.shape, tree.rootNode);
    if |leaf.keys| > 0 {
      StoredIsThere(tree.pages, tree.shape, tree.contents, tree.rootNode, 0);
    }
  }

  method AddFiller(tree: BPlusTree, n: nat)
    requires n < 88 && HasFillers(tree, n) && tree.iterators == {}
    modifies tree
    ensures HasFillers(tree, n + 1) && tree.iterators == {}
  {
    hide AtRest, FateBelow, WithKey, Fillers, Position, ShortTree, OnlyFillers, Filler, Ord, NulFree, KeyBytes, Used;
    FillersApart(tree.contents, n);
    MoreFillers(tree.contents, n);
    NextFiller(n);
    FillerIsName(n);
    var status := tree.Insert(StringKey(Filler(n)), 0);
  }

  lemma LongNameToRoot(tree: BPlusTree)
    requires HasFillers(tree, 88)
    ensures FateBelow(tree.pages, tree.rootNode, 0, StringKey(LongName())) == Lost
  {
    hide Enter;
    assert NodeOk(tree.pages, tree.shape, tree.rootNode);
    LongNameIsLost(tree.pages[tree.rootNode]);
  }

  lemma NamesFit()
    ensures |LongName()| == SHORT_KEY + 1 && IsName(LongName()) && 0.0 <= Ord(LongName()) < 1.0
    ensures forall i: nat :: i < 88 ==> IsName(Filler(i))
  {
    forall i: nat | i < 88 ensures IsName(Filler(i)) {
      FillerIsName(i);
    }
  }

  lemma FilledTree(tree: BPlusTree)
    requires HasFillers(tree, 88)
    ensures tree.Valid() && tree.levels == 1 && Ord(LongName()) !in tree.contents
  {
    hide AtRest, Filler, OnlyFillers, ShortTree, Fillers;
    FillersApart(tree.contents, 88);
  }

  /** So names of up to 133 bytes can lose data: after 88 short ones, the 89th is not split in faithfully. */
  method LongerNamesAreLost() returns (tree: BPlusTree, status: Status)
    ensures |LongName()| == SHORT_KEY + 1 && IsName(LongName()) && forall i: nat :: i < 88 ==> IsName(Filler(i))
    ensures status == SplitLost
  {
    hide AtRest, FateBelow, Fillers, ShortTree, OnlyFillers, Filler, HasFillers, LongName, Ord;
    NamesFit();
    tree := new BPlusTree.Create();
    NoFillers(tree);
    for i := 0 to 88
      invariant fresh(tree) && tree.iterators == {} && HasFillers(tree, i)
    {
      AddFiller(tree, i);
    }
    LongNameToRoot(tree);
    FilledTree(tree);
    status := tree.Insert(StringKey(LongName()), 0);
  }

  /** In bytes: whatever page has those 88 names, the long one leaves it without its right half. */
  lemma LongNameIsGarbled(b: seq<Byte>, node: B.Node, value: B.Cell, otherLink: B.Cell)
    requires B.Shows(b, node) && P.IsLeaf(node) && |node.keys| == 88 && forall i :: 0 <= i < 88 ==> node.keys[i] == Filler(i)
    ensures P.Halved(node, 44, LongName()) && !PL.KeepsRight(b, node, 44, LongName(), value, otherLink)
  {
    hide B.Shows, P.Halved, PL.KeepsRight;
    PL.LongerKeyIsGarbled(b, node, LongName(), value, otherLink);
  }
}
