/** Query trees as values: scores, matching, complement, and what they mean (Query.cpp). */
module QueryTree {
  import opened NodeLayout
  import opened KeyOrder

  datatype Comparison = Equal | Unequal | GreaterThan | LessThan | GreaterThanOrEqual | LessThanOrEqual {
    /** Patterns are only allowed for these two. */
    predicate Equality() { Equal? || Unequal? }
  }

  datatype Tree =
    | Leaf(attribute: string, op: Comparison, value: string, score: int)
    | Both(left: Tree, right: Tree)
    | Either(left: Tree, right: Tree)

  /** What an inode says to an attribute and a value: how the attribute's value compares with it; or that
      they cannot be compared, when the attribute is missing and the value is no string; or an error. */
  datatype Reading = Compared(order: int) | Incomparable | Broken(code: nat)

  /** An inode, by its readings; the flag tells whether the value may be a pattern. */
  type Inode = (string, string, bool) -> Reading

  datatype Status = MatchOk | NoMatch | Failed(code: nat)

  /** Equation::CompareTo. */
  function Test(op: Comparison, order: int): bool {
    match op
    case Equal => order == 0
    case Unequal => order != 0
    case GreaterThan => order > 0
    case LessThan => order < 0
    case GreaterThanOrEqual => order >= 0
    case LessThanOrEqual => order <= 0
  }

  /** What the operations say of two places in an order. */
  predicate Relates(op: Comparison, a: real, b: real) {
    match op
    case Equal => a == b
    case Unequal => a != b
    case GreaterThan => a > b
    case LessThan => a < b
    case GreaterThanOrEqual => a >= b
    case LessThanOrEqual => a <= b
  }

  /** Any comparison whose sign is that of the order tests the relation. */
  lemma TestRelates(op: Comparison, order: int, a: real, b: real)
    requires (order < 0 <==> a < b) && (order > 0 <==> a > b)
    ensures Test(op, order) <==> Relates(op, a, b)
  {
  }

  /** So with the comparison of 64-bit integers. */
  lemma TestIntegers(op: Comparison, a: int, b: int)
    ensures Test(op, Compare64(a, b)) <==> Relates(op, a as real, b as real)
  {
    TestRelates(op, Compare64(a, b), a as real, b as real);
  }

  /** With that of 32-bit integers, for all operations, exactly when their difference fits. */
  lemma TestSmallIntegers(a: int, b: int)
    requires -TWO31 <= a < TWO31 && -TWO31 <= b < TWO31
    ensures (forall op :: Test(op, CompareInt32(a, b)) <==> Relates(op, a as real, b as real)) <==> -TWO31 <= a - b < TWO31
  {
    Int32OrderIff(a, b);
    if -TWO31 <= a - b < TWO31 {
      forall op ensures Test(op, CompareInt32(a, b)) <==> Relates(op, a as real, b as real) {
        TestRelates(op, CompareInt32(a, b), a as real, b as real);
      }
    } else {
      var order := CompareInt32(a, b);
      assert Test(LessThan, order) != Relates(LessThan, a as real, b as real)
          || Test(GreaterThan, order) != Relates(GreaterThan, a as real, b as real);
    }
  }

  /** And with that of strings without NULs, whose order is that of their places; only equal strings are equal there. */
  lemma TestStrings(op: Comparison, a: seq<Byte>, b: seq<Byte>, afterA: Byte, afterB: Byte)
    requires NulFree(a) && NulFree(b)
    ensures Test(op, CompareStrings(a, b, afterA, afterB)) <==> Relates(op, Ord(a), Ord(b))
    ensures op.Equal? ==> (Test(op, CompareStrings(a, b, afterA, afterB)) <==> a == b)
  {
    StringOrder(a, b, afterA, afterB);
    TestRelates(op, CompareStrings(a, b, afterA, afterB), Ord(a), Ord(b));
  }

  /** Equation::Match. */
  function LeafAnswer(attribute: string, op: Comparison, value: string, inode: Inode): Status {
    match inode(attribute, value, op.Equality())
    case Compared(order) => if Test(op, order) then MatchOk else NoMatch
    case Incomparable => NoMatch
    case Broken(code) => Failed(code)
  }

  /** Operator::Score: the better one for &&, the worse one for ||. */
  function Score(t: Tree): int {
    match t
    case Leaf(_, _, _, score) => score
    case Both(l, r) => if Score(r) > Score(l) then Score(r) else Score(l)
    case Either(l, r) => if Score(r) < Score(l) then Score(r) else Score(l)
  }

  /** Operator::Match. */
  function Answer(t: Tree, inode: Inode): Status {
    match t
    case Leaf(attribute, op, value, _) => LeafAnswer(attribute, op, value, inode)
    case Both(l, r) => if Answer(l, inode) != MatchOk then Answer(l, inode) else Answer(r, inode)
    case Either(l, r) =>
      if Score(r) > Score(l) && Answer(r, inode) != NoMatch then Answer(r, inode) else Answer(l, inode)
  }

  /** What the tree says of the inode, as a boolean expression. */
  predicate Holds(t: Tree, inode: Inode) {
    match t
    case Leaf(attribute, op, value, _) => LeafAnswer(attribute, op, value, inode) == MatchOk
    case Both(l, r) => Holds(l, inode) && Holds(r, inode)
    case Either(l, r) => Holds(l, inode) || Holds(r, inode)
  }

  /** No comparison of the tree gives an error. */
  predicate Sound(t: Tree, inode: Inode) {
    match t
    case Leaf(attribute, op, value, _) => !LeafAnswer(attribute, op, value, inode).Failed?
    case Both(l, r) => Sound(l, inode) && Sound(r, inode)
    case Either(l, r) => Sound(l, inode) && Sound(r, inode)
  }

  /** All values of the tree can be compared. */
  predicate Comparable(t: Tree, inode: Inode) {
    match t
    case Leaf(attribute, op, value, _) => inode(attribute, value, op.Equality()).Compared?
    case Both(l, r) => Comparable(l, inode) && Comparable(r, inode)
    case Either(l, r) => Comparable(l, inode) && Comparable(r, inode)
  }

  // ---- complement ----

  /** Equation::Complement's table. */
  function Opposite(op: Comparison): Comparison {
    match op
    case Equal => Unequal
    case Unequal => Equal
    case GreaterThan => LessThanOrEqual
    case LessThan => GreaterThanOrEqual
    case GreaterThanOrEqual => LessThan
    case LessThanOrEqual => GreaterThan
  }

  /** Complement: De Morgan, down to the comparisons. */
  function Complement(t: Tree): Tree {
    match t
    case Leaf(attribute, op, value, score) => Leaf(attribute, Opposite(op), value, score)
    case Both(l, r) => Either(Complement(l), Complement(r))
    case Either(l, r) => Both(Complement(l), Complement(r))
  }

  /** The complement of a complement is the tree itself. */
  lemma {:induction false} ComplementTwice(t: Tree)
    ensures Complement(Complement(t)) == t
  {
    if !t.Leaf? {
      ComplementTwice(t.left);
      ComplementTwice(t.right);
    }
  }

  datatype Truth = True | False | Unknown

  /** The tree in three-valued logic: a comparison that cannot be made, or fails, is neither true nor false. */
  function Verdict(t: Tree, inode: Inode): Truth {
    match t
    case Leaf(attribute, op, value, _) =>
      if !inode(attribute, value, op.Equality()).Compared? then Unknown
      else if LeafAnswer(attribute, op, value, inode) == MatchOk then True else False
    case Both(l, r) =>
      if Verdict(l, inode) == False || Verdict(r, inode) == False then False
      else if Verdict(l, inode) == True then Verdict(r, inode) else Unknown
    case Either(l, r) =>
      if Verdict(l, inode) == True || Verdict(r, inode) == True then True
      else if Verdict(l, inode) == False then Verdict(r, inode) else Unknown
  }

  /** A tree holds when it is true, and its complement when it is false. */
  lemma {:induction false} HoldsIsTrue(t: Tree, inode: Inode)
    ensures Holds(t, inode) <==> Verdict(t, inode) == True
    ensures Holds(Complement(t), inode) <==> Verdict(t, inode) == False
  {
    if t.Leaf? {
      assert t.op.Equality() <==> Opposite(t.op).Equality();
    } else {
      HoldsIsTrue(t.left, inode);
      HoldsIsTrue(t.right, inode);
    }
  }

  /** So the complement is the negation exactly when the tree is not unknown, and never do both hold. */
  lemma ComplementNegates(t: Tree, inode: Inode)
    ensures (Holds(Complement(t), inode) <==> !Holds(t, inode)) <==> Verdict(t, inode) != Unknown
    ensures !(Holds(t, inode) && Holds(Complement(t), inode))
  {
    HoldsIsTrue(t, inode);
  }

  /** In particular when all its values can be compared. */
  lemma {:induction false} ComparableIsKnown(t: Tree, inode: Inode)
    requires Comparable(t, inode)
    ensures Verdict(t, inode) != Unknown
  {
    if !t.Leaf? {
      ComparableIsKnown(t.left, inode);
      ComparableIsKnown(t.right, inode);
    }
  }

  // ---- matching ----

  /** The tree that is left when an || loses its right side unless that has the better score. */
  function Pruned(t: Tree): Tree {
    match t
    case Leaf(_, _, _, _) => t
    case Both(l, r) => Both(Pruned(l), Pruned(r))
    case Either(l, r) => if Score(r) > Score(l) then Either(Pruned(l), Pruned(r)) else Pruned(l)
  }

  /** Without errors, Match answers for the pruned tree. */
  lemma {:induction false} MatchIsPruned(t: Tree, inode: Inode)
    requires Sound(t, inode)
    ensures Answer(t, inode) == if Holds(Pruned(t), inode) then MatchOk else NoMatch
  {
    if !t.Leaf? {
      MatchIsPruned(t.left, inode);
      MatchIsPruned(t.right, inode);
    }
  }

  /** A match is never wrong, errors or not. */
  lemma {:induction false} MatchIsSound(t: Tree, inode: Inode)
    requires Answer(t, inode) == MatchOk
    ensures Holds(t, inode)
  {
    match t {
      case Leaf(_, _, _, _) =>
      case Both(l, r) =>
        MatchIsSound(l, inode);
        MatchIsSound(r, inode);
      case Either(l, r) =>
        if Score(r) > Score(l) && Answer(r, inode) != NoMatch {
          MatchIsSound(r, inode);
        } else {
          MatchIsSound(l, inode);
        }
    }
  }

  /** Every || has its better score on the right. */
  predicate BetterRight(t: Tree) {
    match t
    case Leaf(_, _, _, _) => true
    case Both(l, r) => BetterRight(l) && BetterRight(r)
    case Either(l, r) => Score(r) > Score(l) && BetterRight(l) && BetterRight(r)
  }

  /** Nothing is pruned exactly when every || has its better score on the right. */
  lemma {:induction false} PrunedIsAll(t: Tree)
    ensures Pruned(t) == t <==> BetterRight(t)
    ensures Size(Pruned(t)) <= Size(t)
  {
    if !t.Leaf? {
      PrunedIsAll(t.left);
      PrunedIsAll(t.right);
    }
  }

  function Size(t: Tree): nat {
    if t.Leaf? then 1 else 1 + Size(t.left) + Size(t.right)
  }

  // ---- reporting ----

  /** The equations whose walk comes by an inode: it is listed in the index that they run over, and not below
      the place where they begin. */
  type Listed = iset<(string, Comparison, string)>

  /** Whether a query reports the inode: it runs over both sides of an ||, and over the side of an && with the
      better score, where the other side must match. An equation finds only what it comes by. */
  predicate Reported(t: Tree, inode: Inode, listed: Listed) {
    match t
    case Leaf(attribute, op, value, _) => (attribute, op, value) in listed && Answer(t, inode) == MatchOk
    case Both(l, r) =>
      if Score(r) > Score(l) then Reported(r, inode, listed) && Answer(l, inode) == MatchOk
      else Reported(l, inode, listed) && Answer(r, inode) == MatchOk
    case Either(l, r) => Reported(l, inode, listed) || Reported(r, inode, listed)
  }

  /** Every || that is only matched, not run over, has its better score on the right. */
  predicate Covered(t: Tree) {
    match t
    case Leaf(_, _, _, _) => true
    case Both(l, r) => if Score(r) > Score(l) then Covered(r) && BetterRight(l) else Covered(l) && BetterRight(r)
    case Either(l, r) => Covered(l) && Covered(r)
  }

  /** All equations that are run over are of these. */
  predicate RunsWithin(t: Tree, some: Listed) {
    match t
    case Leaf(attribute, op, value, _) => (attribute, op, value) in some
    case Both(l, r) => if Score(r) > Score(l) then RunsWithin(r, some) else RunsWithin(l, some)
    case Either(l, r) => RunsWithin(l, some) && RunsWithin(r, some)
  }

  /** The equations in `full` come by every inode they match; this inode is no exception. */
  ghost predicate NoGaps(inode: Inode, listed: Listed, full: Listed) {
    forall a, op, v {:trigger (a, op, v) in listed} {:trigger LeafAnswer(a, op, v, inode)} ::
      (a, op, v) in full && LeafAnswer(a, op, v, inode) == MatchOk ==> (a, op, v) in listed
  }

  lemma MatchIsExact(t: Tree, inode: Inode)
    requires Sound(t, inode) && BetterRight(t)
    ensures Answer(t, inode) == MatchOk <==> Holds(t, inode)
  {
    PrunedIsAll(t);
    MatchIsPruned(t, inode);
  }

  /** What is reported satisfies the query, errors or not. */
  lemma {:induction false} ReportedHolds(t: Tree, inode: Inode, listed: Listed)
    requires Reported(t, inode, listed)
    ensures Holds(t, inode)
  {
    match t {
      case Leaf(_, _, _, _) =>
      case Both(l, r) =>
        if Score(r) > Score(l) {
          ReportedHolds(r, inode, listed);
          MatchIsSound(l, inode);
        } else {
          ReportedHolds(l, inode, listed);
          MatchIsSound(r, inode);
        }
      case Either(l, r) =>
        if Reported(l, inode, listed) {
          ReportedHolds(l, inode, listed);
        } else {
          ReportedHolds(r, inode, listed);
        }
    }
  }

  /** And in a covered query without errors, whose indices have no gaps, everything that satisfies it is reported. */
  lemma {:induction false} CoveredReports(t: Tree, inode: Inode, listed: Listed, full: Listed)
    requires Covered(t) && RunsWithin(t, full) && NoGaps(inode, listed, full) && Sound(t, inode) && Holds(t, inode)
    ensures Reported(t, inode, listed)
  {
    match t {
      case Leaf(_, _, _, _) =>
      case Both(l, r) =>
        if Score(r) > Score(l) {
          CoveredReports(r, inode, listed, full);
          MatchIsExact(l, inode);
        } else {
          CoveredReports(l, inode, listed, full);
          MatchIsExact(r, inode);
        }
      case Either(l, r) =>
        if Holds(l, inode) {
          CoveredReports(l, inode, listed, full);
        } else {
          CoveredReports(r, inode, listed, full);
        }
    }
  }

  // ---- these conditions are the exact ones ----

  /** What the comparisons of a tree ask an inode. */
  function Asked(t: Tree): set<(string, string, bool)> {
    match t
    case Leaf(attribute, op, value, _) => {(attribute, value, op.Equality())}
    case Both(l, r) => Asked(l) + Asked(r)
    case Either(l, r) => Asked(l) + Asked(r)
  }

  /** No two comparisons ask the same. */
  predicate Distinct(t: Tree) {
    match t
    case Leaf(_, _, _, _) => true
    case Both(l, r) => Distinct(l) && Distinct(r) && Asked(l) !! Asked(r)
    case Either(l, r) => Distinct(l) && Distinct(r) && Asked(l) !! Asked(r)
  }

  ghost predicate SameOn(asked: set<(string, string, bool)>, i: Inode, j: Inode) {
    forall a, v, p {:trigger (a, v, p) in asked} :: (a, v, p) in asked ==> i(a, v, p) == j(a, v, p)
  }

  /** The same for the equations that come by. */
  ghost predicate SameWalk(asked: set<(string, string, bool)>, i: Listed, j: Listed) {
    forall a, op: Comparison, v {:trigger (a, op, v) in i} {:trigger (a, op, v) in j} ::
      (a, v, op.Equality()) in asked ==> ((a, op, v) in i <==> (a, op, v) in j)
  }

  lemma {:induction false} OnlyAskedMatters(t: Tree, i: Inode, j: Inode, li: Listed, lj: Listed)
    requires SameOn(Asked(t), i, j) && SameWalk(Asked(t), li, lj)
    ensures Answer(t, i) == Answer(t, j) && (Holds(t, i) <==> Holds(t, j)) && (Sound(t, i) <==> Sound(t, j))
    ensures Reported(t, i, li) <==> Reported(t, j, lj)
  {
    if t.Leaf? {
      assert (t.attribute, t.value, t.op.Equality()) in Asked(t);
    } else {
      OnlyAskedMatters(t.left, i, j, li, lj);
      OnlyAskedMatters(t.right, i, j, li, lj);
    }
  }

  /** One inode where the left tree asks, another elsewhere. */
  function Joined(left: Tree, i: Inode, j: Inode): Inode {
    var asked := Asked(left);
    (a, v, p) => if (a, v, p) in asked then i(a, v, p) else j(a, v, p)
  }

  ghost function JoinedWalk(left: Tree, i: Listed, j: Listed): Listed {
    var asked := Asked(left);
    iset a, op: Comparison, v | (if (a, v, op.Equality()) in asked then (a, op, v) in i else (a, op, v) in j) :: (a, op, v)
  }

  lemma JoinedIsBoth(l: Tree, r: Tree, i: Inode, j: Inode, li: Listed, lj: Listed, full: Listed)
    requires Asked(l) !! Asked(r)
    ensures var both, walk := Joined(l, i, j), JoinedWalk(l, li, lj);
            && Answer(l, both) == Answer(l, i) && (Holds(l, both) <==> Holds(l, i)) && (Sound(l, both) <==> Sound(l, i))
            && Answer(r, both) == Answer(r, j) && (Holds(r, both) <==> Holds(r, j)) && (Sound(r, both) <==> Sound(r, j))
            && (Reported(l, both, walk) <==> Reported(l, i, li)) && (Reported(r, both, walk) <==> Reported(r, j, lj))
            && (NoGaps(i, li, full) && NoGaps(j, lj, full) ==> NoGaps(both, walk, full))
  {
    hide Test;
    OnlyAskedMatters(l, i, Joined(l, i, j), li, JoinedWalk(l, li, lj));
    OnlyAskedMatters(r, j, Joined(l, i, j), lj, JoinedWalk(l, li, lj));
    if NoGaps(i, li, full) && NoGaps(j, lj, full) {
      forall a, op: Comparison, v | (a, op, v) in full && LeafAnswer(a, op, v, Joined(l, i, j)) == MatchOk
        ensures (a, op, v) in JoinedWalk(l, li, lj) {
        assert if (a, v, op.Equality()) in Asked(l) then LeafAnswer(a, op, v, i) == MatchOk else LeafAnswer(a, op, v, j) == MatchOk;
      }
    }
  }

  /** An order that makes a comparison come out as wanted. */
  function OrderFor(op: Comparison, wanted: bool): (order: int)
    ensures Test(op, order) == wanted
  {
    match op
    case Equal => if wanted then 0 else 1
    case Unequal => if wanted then 1 else 0
    case GreaterThan => if wanted then 1 else 0
    case LessThan => if wanted then -1 else 0
    case GreaterThanOrEqual => if wanted then 0 else -1
    case LessThanOrEqual => if wanted then 0 else 1
  }

  ghost function Everywhere(): Listed {
    iset a, op: Comparison, v | true :: (a, op, v)
  }

  /** For some inode, listed everywhere, all comparisons of a tree come out alike. */
  lemma {:induction false} AllAlike(t: Tree, wanted: bool, full: Listed) returns (inode: Inode, listed: Listed)
    requires Distinct(t)
    ensures Sound(t, inode) && (Holds(t, inode) <==> wanted) && Answer(t, inode) == if wanted then MatchOk else NoMatch
    ensures (Reported(t, inode, listed) <==> wanted) && NoGaps(inode, listed, full)
  {
    if t.Leaf? {
      var order := OrderFor(t.op, wanted);
      inode, listed := (a, v, p) => Compared(order), Everywhere();
    } else {
      var i, li := AllAlike(t.left, wanted, full);
      var j, lj := AllAlike(t.right, wanted, full);
      inode, listed := Joined(t.left, i, j), JoinedWalk(t.left, li, lj);
      JoinedIsBoth(t.left, t.right, i, j, li, lj, full);
    }
  }

  /** An inode for which the tree holds and is not matched. */
  lemma {:induction false} MissedMatch(t: Tree, full: Listed) returns (inode: Inode, listed: Listed)
    requires Distinct(t) && !BetterRight(t)
    ensures Sound(t, inode) && Holds(t, inode) && Answer(t, inode) == NoMatch && NoGaps(inode, listed, full)
  {
    var l, r := t.left, t.right;
    var i, j, li, lj;
    if t.Either? && Score(r) <= Score(l) {
      i, li := AllAlike(l, false, full);
      j, lj := AllAlike(r, true, full);
    } else if !BetterRight(l) {
      i, li := MissedMatch(l, full);
      j, lj := AllAlike(r, t.Both?, full);
    } else {
      i, li := AllAlike(l, t.Both?, full);
      j, lj := MissedMatch(r, full);
    }
    inode, listed := Joined(l, i, j), JoinedWalk(l, li, lj);
    JoinedIsBoth(l, r, i, j, li, lj, full);
  }

  /** An inode for which the query holds and that it does not report. */
  lemma {:induction false} MissedReport(t: Tree, full: Listed) returns (inode: Inode, listed: Listed)
    requires Distinct(t) && !(Covered(t) && RunsWithin(t, full))
    ensures Sound(t, inode) && Holds(t, inode) && !Reported(t, inode, listed) && NoGaps(inode, listed, full)
  {
    if t.Leaf? {
      var order := OrderFor(t.op, true);
      inode, listed := (a, v, p) => Compared(order), full;
      return;
    }
    var l, r := t.left, t.right;
    var i, j, li, lj;
    var right := t.Both? && Score(r) > Score(l);
    if if right then !BetterRight(l) else !(Covered(l) && RunsWithin(l, full)) {
      if right {
        i, li := MissedMatch(l, full);
      } else {
        i, li := MissedReport(l, full);
      }
      j, lj := AllAlike(r, t.Both?, full);
    } else {
      i, li := AllAlike(l, t.Both?, full);
      if right || t.Either? {
        j, lj := MissedReport(r, full);
      } else {
        j, lj := MissedMatch(r, full);
      }
    }
    inode, listed := Joined(l, i, j), JoinedWalk(l, li, lj);
    JoinedIsBoth(l, r, i, j, li, lj, full);
  }

  /** Match is exact for every inode without errors exactly when every || has its better score on the right. */
  lemma MatchIsExactIff(t: Tree)
    requires Distinct(t)
    ensures BetterRight(t) <==> forall inode: Inode :: Sound(t, inode) ==> (Answer(t, inode) == MatchOk <==> Holds(t, inode))
  {
    if BetterRight(t) {
      forall inode: Inode | Sound(t, inode) ensures Answer(t, inode) == MatchOk <==> Holds(t, inode) {
        MatchIsExact(t, inode);
      }
    } else {
      var inode, listed := MissedMatch(t, iset{});
    }
  }

  /** A query reports every inode that satisfies it exactly when it is covered and each equation it runs over
      comes by every inode it matches. */
  lemma ReportIsExactIff(t: Tree, full: Listed)
    requires Distinct(t)
    ensures Covered(t) && RunsWithin(t, full) <==>
            forall inode: Inode, listed: Listed ::
              Sound(t, inode) && NoGaps(inode, listed, full) ==> (Reported(t, inode, listed) <==> Holds(t, inode))
  {
    hide Sound, NoGaps, Reported, Holds, Covered, RunsWithin;
    if Covered(t) && RunsWithin(t, full) {
      forall inode: Inode, listed: Listed | Sound(t, inode) && NoGaps(inode, listed, full)
        ensures Reported(t, inode, listed) <==> Holds(t, inode) {
        if Holds(t, inode) {
          CoveredReports(t, inode, listed, full);
        } else if Reported(t, inode, listed) {
          ReportedHolds(t, inode, listed);
        }
      }
    } else {
      var inode, listed := MissedReport(t, full);
    }
  }

  /** How the empty string compares with a value that is no pattern: Equation::MatchEmptyString, for an inode
      without the attribute. */
  function EmptyOrder(value: string): int {
    if value == "" then 0 else -1
  }

  /** An inode without the attribute matches a comparison of strings that the empty string meets, but it is not
      in the index of that attribute, so the query misses it; run over from the other side of an &&, the same
      comparison lets it pass. */
  lemma MissingAttributeIsMissed(attribute: string, op: Comparison, value: string, score: int, other: Tree,
                                 inode: Inode, listed: Listed)
    requires Test(op, EmptyOrder(value)) && inode(attribute, value, op.Equality()) == Compared(EmptyOrder(value))
    requires (attribute, op, value) !in listed && Score(other) >= score && Reported(other, inode, listed)
    ensures var leaf := Leaf(attribute, op, value, score);
            && Covered(leaf) && Sound(leaf, inode) && Holds(leaf, inode) && !Reported(leaf, inode, listed)
            && Reported(Both(other, leaf), inode, listed)
  {
  }

  /** Those comparisons are: less than anything, at most anything, not anything but "", and "" itself. */
  lemma EmptyMeets(op: Comparison, value: string)
    ensures Test(op, EmptyOrder(value)) <==>
            if value == "" then op.Equal? || op.GreaterThanOrEqual? || op.LessThanOrEqual?
            else op.LessThan? || op.LessThanOrEqual? || op.Unequal?
  {
  }

  /** So also for a directory, which has a size and is not in the index of sizes. */
  lemma UnlistedIsMissed(leaf: Tree, inode: Inode, listed: Listed)
    requires leaf.Leaf? && Holds(leaf, inode) && (leaf.attribute, leaf.op, leaf.value) !in listed
    ensures Covered(leaf) && !Reported(leaf, inode, listed)
  {
  }
}
