/** When inserting loses data: the way the new key would take through the pages, before any of them is touched. */
module TreeFate {
  import opened NodeLayout
  import opened TreeShape
  import opened TreeSteps
  import opened TreePath
  import opened TreeHousing

  /** What becomes of a key put into a page. */
  datatype Fate = Fits | Lost | Up(separator: Key)

  /** It fits, or the page is split wrongly, or a separator goes one level up. */
  function Enter(node: Page, i: int, key: Key): Fate {
    if !node.Node? || |node.keys| != |node.values| || !(0 <= i <= |node.keys|) || HasRoom(node, key) then Fits
    else
      var out := LeftCount(Lens(node.keys), i, |key.bytes|);
      if !SplitSafe(Lens(node.keys), i, |key.bytes|, node.overflow == NULL) || out > |node.keys| then Lost
      else Up(Separator(InsertPair(node, i, key, 0), out))
  }

  /** The first position whose key is not below `ord`. */
  function Position(keys: seq<Key>, ord: real): (i: int)
    ensures 0 <= i <= |keys|
  {
    if keys == [] || ord <= keys[0].ord then 0 else 1 + Position(keys[1..], ord)
  }

  lemma {:induction false} PositionIs(keys: seq<Key>, ord: real, i: int)
    requires IsPosition(keys, ord, i)
    ensures Position(keys, ord) == i
  {
    if keys != [] && keys[0].ord < ord {
      assert i > 0;
      PositionIs(keys[1..], ord, i - 1);
    }
  }

  function WithKey(keys: seq<Key>, i: int, key: Key): seq<Key>
    requires 0 <= i <= |keys|
  {
    keys[..i] + [key] + keys[i..]
  }

  /** If the page had room, it has the key now. */
  predicate KeyPut(before: Pages, x: int, i: int, key: Key, now: Pages) {
    x in before && before[x].Node? && HasRoom(before[x], key) ==>
      0 <= i <= |before[x].keys| && x in now && now[x].Node? && now[x].keys == WithKey(before[x].keys, i, key)
  }

  lemma NotPut(before: Pages, x: int, i: int, key: Key, now: Pages)
    requires x in before && before[x].Node? && !HasRoom(before[x], key)
    ensures KeyPut(before, x, i, key, now)
  {
  }

  /** ... at its place. */
  predicate KeyAdded(before: Pages, x: int, key: Key, now: Pages) {
    x in before && before[x].Node? && KeyPut(before, x, Position(before[x].keys, key.ord), key, now)
  }

  lemma AddedAlone(before: Pages, mid: Pages, x: int, i: int, key: Key, now: Pages)
    requires KeyPut(mid, x, i, key, now)
    ensures mid == before && x in mid && mid[x].Node? && IsPosition(mid[x].keys, key.ord, i) ==> KeyAdded(before, x, key, now)
  {
    if mid == before && x in mid && mid[x].Node? && IsPosition(mid[x].keys, key.ord, i) {
      PositionIs(mid[x].keys, key.ord, i);
    }
  }

  /** The tree is a single leaf with room for the key. */
  predicate OneLeafHasRoom(pages: Pages, root: int, levels: nat, key: Key) {
    levels == 1 && root in pages && pages[root].Node? && HasRoom(pages[root], key)
  }

  // ---- a missing key behind the last one of its leaf ----

  /** The leaf below `p` that a key belongs in. */
  function LeafBelow(pages: Pages, p: int, height: nat, ord: real): int
    decreases height
  {
    if height == 0 || p !in pages || !pages[p].Node? || |pages[p].keys| != |pages[p].values| then p
    else LeafBelow(pages, Child(pages[p], Position(pages[p].keys, ord)), height - 1, ord)
  }

  /** All its keys, and more than one, are below the place asked for. */
  predicate PastLast(pages: Pages, x: int, ord: real) {
    x in pages && pages[x].Node? && |pages[x].keys| > 1 && Position(pages[x].keys, ord) == |pages[x].keys|
  }

  lemma {:induction false} PathLeaf(pages: Pages, sh: Shape, root: int, levels: nat, stack: seq<Frame>, ord: real, j: nat)
    requires Tree(pages, sh, root, levels) && |stack| == levels && j < levels && IsPath(pages, sh, root, levels, stack, 0, ord)
    ensures LeafBelow(pages, stack[j].node, levels - 1 - j, ord) == stack[|stack| - 1].node
    decreases levels - j
  {
    assert OnPath(pages, sh, levels, stack, j, ord);
    assert NodeOk(pages, sh, stack[j].node);
    if j + 1 < levels {
      assert LeadsTo(pages, stack[j], stack[j + 1].node);
      PositionIs(pages[stack[j].node].keys, ord, stack[j].index);
      PathLeaf(pages, sh, root, levels, stack, ord, j + 1);
    }
  }

  lemma AtLeaf(pages: Pages, x: int, ord: real, index: int)
    requires x in pages && pages[x].Node? && IsPosition(pages[x].keys, ord, index)
    ensures PastLast(pages, x, ord) <==> |pages[x].keys| > 1 && index == |pages[x].keys|
  {
    PositionIs(pages[x].keys, ord, index);
  }

  // ---- inserting ----

  /** What becomes of a new key in the subtree below `p`. */
  function FateBelow(pages: Pages, p: int, height: nat, key: Key): Fate
    decreases height
  {
    if p !in pages || !pages[p].Node? || |pages[p].keys| != |pages[p].values| then Fits
    else
      var node := pages[p];
      var i := Position(node.keys, key.ord);
      if height == 0 then Enter(node, i, key)
      else
        match FateBelow(pages, Child(node, i), height - 1, key)
        case Up(separator) => Enter(node, i, separator)
        case other => other
  }

  /** The same, climbing: the key is to go into the last page of `stack`, at `i`. */
  predicate Loses(pages: Pages, stack: seq<Frame>, i: int, key: Key)
    requires stack != []
    decreases |stack|
  {
    var p := stack[|stack| - 1].node;
    p in pages &&
    match Enter(pages[p], i, key)
    case Fits => false
    case Lost => true
    case Up(separator) => |stack| > 1 && Loses(pages, stack[..|stack| - 1], stack[|stack| - 2].index, separator)
  }

  /** The fate of the subtree at frame `j`, and of what goes up from it. */
  predicate LosesFrom(pages: Pages, stack: seq<Frame>, j: nat, fate: Fate)
    requires j < |stack|
  {
    fate.Lost? || (fate.Up? && j > 0 && Loses(pages, stack[..j], stack[j - 1].index, fate.separator))
  }

  lemma {:induction false} FateIsTheSame(pages: Pages, sh: Shape, root: int, levels: nat, stack: seq<Frame>, key: Key, j: nat)
    requires Tree(pages, sh, root, levels) && |stack| == levels && j < levels
    requires IsPath(pages, sh, root, levels, stack, 0, key.ord)
    ensures LosesFrom(pages, stack, j, FateBelow(pages, stack[j].node, levels - 1 - j, key))
            <==> FateBelow(pages, root, levels - 1, key) == Lost
  {
    hide FateBelow, Enter, TreeExcept, OnPath, LeadsTo;
    if j > 0 {
      FateIsTheSame(pages, sh, root, levels, stack, key, j - 1);
      FateOfParent(pages, sh, root, levels, stack, key, j);
      assert stack[..j][..j - 1] == stack[..j - 1];
    }
  }

  lemma FateOfParent(pages: Pages, sh: Shape, root: int, levels: nat, stack: seq<Frame>, key: Key, j: nat)
    requires Tree(pages, sh, root, levels) && |stack| == levels && 0 < j < levels
    requires IsPath(pages, sh, root, levels, stack, 0, key.ord)
    ensures var p, f := stack[j - 1], FateBelow(pages, stack[j].node, levels - 1 - j, key);
            p.node in pages
            && FateBelow(pages, p.node, levels - j, key) == if f.Up? then Enter(pages[p.node], p.index, f.separator) else f
  {
    hide Enter;
    var p := stack[j - 1];
    assert OnPath(pages, sh, levels, stack, j - 1, key.ord);
    assert LeadsTo(pages, stack[j - 1], stack[j].node);
    PositionIs(pages[p.node].keys, key.ord, p.index);
  }

  /** Climbing back along the path loses data exactly when the descent says so. */
  lemma PathLoses(pages: Pages, sh: Shape, root: int, levels: nat, stack: seq<Frame>, key: Key, i: int)
    requires Tree(pages, sh, root, levels) && |stack| == levels && stack != []
    requires IsPath(pages, sh, root, levels, stack, 0, key.ord)
    requires stack[|stack| - 1].node in pages && pages[stack[|stack| - 1].node].Node?
    requires IsPosition(pages[stack[|stack| - 1].node].keys, key.ord, i)
    ensures Loses(pages, stack, i, key) <==> FateBelow(pages, root, levels - 1, key) == Lost
  {
    hide Enter;
    var p := stack[|stack| - 1].node;
    assert OnPath(pages, sh, levels, stack, |stack| - 1, key.ord);
    assert NodeOk(pages, sh, p);
    PositionIs(pages[p].keys, key.ord, i);
    FateIsTheSame(pages, sh, root, levels, stack, key, levels - 1);
  }

  /** The frames above the last one find their pages as they were. */
  ghost predicate UpperSame(before: Pages, now: Pages, stack: seq<Frame>) {
    forall j :: 0 <= j < |stack| - 1 ==> FrameSame(before, now, stack, j)
  }

  ghost predicate FrameSame(before: Pages, now: Pages, stack: seq<Frame>, j: int)
    requires 0 <= j < |stack|
  {
    stack[j].node in before && stack[j].node in now && now[stack[j].node] == before[stack[j].node]
  }

  /** A split changes its own level only. */
  lemma SplitKeepsAbove(before: Pages, sh: Shape, root: int, levels: nat, stack: seq<Frame>, newKey: Key, newValue: int,
                        key: Key, value: int, m: map<real, int>, full: Page, out: int, other: int)
    requires Inserting(before, sh, root, levels, stack, newKey, newValue, key, value, m)
    requires full.Node? && 0 < out < |full.keys| == |full.values| && other !in sh.level
    requires LastIsNode(before, sh, stack) && full.left == before[stack[|stack| - 1].node].left
    ensures UpperSame(before, SplitPages(before[stack[|stack| - 1].node := full], stack[|stack| - 1].node, out, other), stack)
  {
    hide ChildrenOk, Laminar, GapOk, Agrees, PendingAt;
    var n, x := |stack|, stack[|stack| - 1].node;
    var now := SplitPages(before[x := full], x, out, other);
    assert OnPath(before, sh, levels, stack, n - 1, newKey.ord);
    assert NodeOk(before, sh, x) && LeftOk(before, sh, NO_GAP, x);
    forall j | 0 <= j < n - 1 ensures FrameSame(before, now, stack, j) {
      assert OnPath(before, sh, levels, stack, j, newKey.ord);
      assert NodeOk(before, sh, stack[j].node);
    }
  }

  /** The separator of a split is the same whatever value comes with the key. */
  lemma EnterSplits(node: Page, i: int, key: Key, value: int)
    requires node.Node? && |node.keys| == |node.values| && 0 <= i <= |node.keys| && !HasRoom(node, key)
    requires SplitSafe(Lens(node.keys), i, |key.bytes|, node.overflow == NULL)
    requires 0 < LeftCount(Lens(node.keys), i, |key.bytes|) <= |node.keys|
    ensures Enter(node, i, key) == Up(Separator(InsertPair(node, i, key, value), LeftCount(Lens(node.keys), i, |key.bytes|)))
  {
    assert InsertPair(node, i, key, 0).keys == InsertPair(node, i, key, value).keys;
  }

  /** One page further up. */
  lemma LosesNext(before: Pages, mid: Pages, stack: seq<Frame>, i: int, key: Key)
    requires stack != [] && FrameSame(before, mid, stack, |stack| - 1)
    ensures var n, fate := |stack|, Enter(mid[stack[|stack| - 1].node], i, key);
            && (fate.Lost? ==> Loses(before, stack, i, key))
            && (fate.Fits? || (fate.Up? && n == 1) ==> !Loses(before, stack, i, key))
            && (fate.Up? && n > 1 ==>
                (Loses(before, stack, i, key) <==> Loses(before, stack[..n - 1], stack[n - 2].index, fate.separator)))
  {
    hide Enter;
  }

  /** The pages of a path are as they were. */
  ghost predicate StackSame(before: Pages, now: Pages, stack: seq<Frame>) {
    forall j :: 0 <= j < |stack| ==> FrameSame(before, now, stack, j)
  }

  lemma FramesStay(before: Pages, mid: Pages, now: Pages, stack: seq<Frame>)
    requires stack != [] && UpperSame(mid, now, stack) && StackSame(before, mid, stack)
    ensures StackSame(before, now, stack[..|stack| - 1])
  {
    var up := stack[..|stack| - 1];
    forall j | 0 <= j < |up| ensures FrameSame(before, now, up, j) {
      assert FrameSame(before, mid, stack, j) && FrameSame(mid, now, stack, j);
    }
  }

  lemma LastSame(before: Pages, now: Pages, stack: seq<Frame>)
    requires stack != [] && StackSame(before, now, stack)
    ensures FrameSame(before, now, stack, |stack| - 1)
  {
  }

  lemma EnterLoses(node: Page, i: int, key: Key)
    requires node.Node? && |node.keys| == |node.values| && 0 <= i <= |node.keys| && !HasRoom(node, key)
    requires !SplitSafe(Lens(node.keys), i, |key.bytes|, node.overflow == NULL)
    ensures Enter(node, i, key) == Lost
  {
  }

  lemma EnterFits(node: Page, i: int, key: Key)
    requires node.Node? && HasRoom(node, key)
    ensures Enter(node, i, key) == Fits
  {
  }
}
