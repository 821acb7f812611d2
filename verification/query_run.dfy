/** Running a query over the indices of a volume (Query.cpp: Equation::PrepareQuery and GetNextMatching,
    Query::Rewind and GetNextEntry). */
module QueryRuns {
  import opened QueryTree
  import opened QueryTerms
  import opened IndexPairs
  import H = TreeHousing
  import S = TreeShape
  import B = BPlusTrees
  import V = DuplicateValues
  import I = DuplicateInsert
  import C = DuplicateCursors

  datatype Start = Beginning | At(key: S.Key)

  /** What an equation makes of the keys of an index, with its value converted to the type of that index: how
      a key compares with the value, or whether it fits the pattern (zero if so), and where the walk begins for
      those operations that look for a place. Times are shifted in their index. */
  datatype Search = Search(pattern: bool, special: bool, order: real -> int, start: Start)

  /** Comparisons grow with the key, and are not negative from the start on; but for times, which are shifted, only the
      start itself is equal. Nothing is known of patterns. */
  ghost predicate SearchOk(s: Search, op: Comparison) {
    && (s.pattern ==> op.Equality())
    && (s.start.At? ==> H.LengthOk(s.start.key) && 0.0 <= s.start.key.ord < 1.0)
    && (!s.pattern ==>
          && s.start.At?
          && (forall o, p {:trigger s.order(o), s.order(p)} :: o <= p ==> s.order(o) <= s.order(p))
          && (forall o {:trigger s.order(o)} :: s.order(o) >= 0 <==> s.start.key.ord <= o)
          && (!s.special ==> forall o {:trigger s.order(o)} :: s.order(o) == 0 <==> o == s.start.key.ord))
  }

  /** A volume: its indices, trees of keys with the numbers of inodes as values; whether the query may run over
      attributes without an index; and what its inodes say. */
  datatype Volume = Volume(indices: map<string, B.BPlusTree>, nonIndexed: bool,
                           search: (string, Comparison, string) -> Search, inodes: int -> Inode)

  /** What the tree of an index holds: the words of its keys, and the pages these lead to. */
  datatype View = View(others: S.Pages, contents: map<real, int>, d: V.Dups)

  ghost predicate Shows(tree: B.BPlusTree, view: View)
    reads tree
  {
    I.Duplicated(tree, view.d) && view.others == tree.others && view.contents == tree.contents
  }

  ghost predicate Seen(v: Volume, views: map<string, View>) {
    && v.indices.Keys == views.Keys
    && (forall a :: a in views ==> V.DupsOk(views[a].others, views[a].contents, views[a].d))
    && (forall a, ord :: a in views && ord in views[a].contents ==> -1.0 < ord)
    && forall a, op, w :: SearchOk(v.search(a, op, w), op)
  }

  ghost predicate VolumeOk(v: Volume, views: map<string, View>)
    reads v.indices.Values
  {
    Seen(v, views) && forall a {:trigger views[a]} :: a in v.indices ==> a in views && Shows(v.indices[a], views[a])
  }

  /** Nothing is asked of the indices but that they are trees with duplicates. */
  lemma IndicesAreSeen(v: Volume, d: map<string, V.Dups>) returns (views: map<string, View>)
    requires forall a :: a in v.indices ==> a in d && I.Duplicated(v.indices[a], d[a])
    requires forall a, op, w :: SearchOk(v.search(a, op, w), op)
    ensures VolumeOk(v, views)
  {
    hide V.DupsOk, B.BPlusTree.Valid, SearchOk;
    views := map a | a in v.indices :: View(v.indices[a].others, v.indices[a].contents, d[a]);
    forall a | a in v.indices
      ensures V.DupsOk(views[a].others, views[a].contents, views[a].d) && forall ord :: ord in views[a].contents ==> -1.0 < ord {
      C.OthersInPages(v.indices[a], d[a]);
      C.KeysAreAbove(v.indices[a]);
    }
  }

  /** An equation has an index of its own to run over unless it is !=. */
  predicate Indexed(v: Volume, attribute: string, op: Comparison) {
    attribute in v.indices && op != Unequal
  }

  /** Otherwise it runs over all names. */
  function IndexOf(v: Volume, attribute: string, op: Comparison): string {
    if Indexed(v, attribute, op) then attribute else "name"
  }

  predicate Placed(op: Comparison, s: Search, indexed: bool) {
    indexed && s.start.At? && (op.Equal? || op.GreaterThan? || op.GreaterThanOrEqual? || s.pattern)
  }

  // ---- what an equation finds ----

  /** All that decides what an equation finds: among the keys from a place on, those that compare as wanted or,
      without an index, the inodes that match; and the inodes for which the climb succeeds. */
  datatype Plan = Plan(op: Comparison, search: Search, indexed: bool, from: real, own: iset<int>, sides: iset<int>)

  ghost predicate Fits(plan: Plan, ord: real) {
    plan.from <= ord && (plan.indexed ==> Test(plan.op, plan.search.order(ord)))
  }

  /** With an index, and no pattern or time, the keys that fit are those to which the value relates as the operation
      says. */
  lemma FitsMeans(plan: Plan, ord: real)
    requires SearchOk(plan.search, plan.op) && plan.indexed && !plan.search.pattern && !plan.search.special
    requires plan.from == if Placed(plan.op, plan.search, true) then plan.search.start.key.ord else -1.0
    requires -1.0 <= ord
    ensures Fits(plan, ord) <==> Relates(plan.op, ord, plan.search.start.key.ord)
  {
    TestRelates(plan.op, plan.search.order(ord), ord, plan.search.start.key.ord);
  }

  ghost predicate Accepts(plan: Plan, ord: real, id: int) {
    Fits(plan, ord) && (!plan.indexed ==> id in plan.own) && id in plan.sides
  }

  ghost function Found(pairs: seq<(real, int)>, plan: Plan): seq<int> {
    if pairs == [] then []
    else (if Accepts(plan, pairs[0].0, pairs[0].1) then [pairs[0].1] else []) + Found(pairs[1..], plan)
  }

  lemma FoundFirst(ord: real, id: int, rest: seq<(real, int)>, plan: Plan)
    ensures Found([(ord, id)] + rest, plan) == (if Accepts(plan, ord, id) then [id] else []) + Found(rest, plan)
  {
    assert ([(ord, id)] + rest)[1..] == rest;
  }

  lemma {:induction false} FoundAre(pairs: seq<(real, int)>, plan: Plan, id: int)
    ensures id in Found(pairs, plan) <==> exists ord :: (ord, id) in pairs && Accepts(plan, ord, id)
  {
    if pairs != [] {
      FoundAre(pairs[1..], plan, id);
      assert forall ord :: (ord, id) in pairs <==> (ord, id) == pairs[0] || (ord, id) in pairs[1..];
      if id in Found(pairs, plan) && id !in Found(pairs[1..], plan) {
        assert (pairs[0].0, id) in pairs;
      }
    }
  }

  lemma {:induction false} FoundNothing(pairs: seq<(real, int)>, plan: Plan)
    requires forall ord, id :: (ord, id) in pairs ==> !Fits(plan, ord)
    ensures Found(pairs, plan) == []
  {
    if pairs != [] {
      assert (pairs[0].0, pairs[0].1) in pairs;
      assert forall ord, id :: (ord, id) in pairs[1..] ==> (ord, id) in pairs;
      FoundNothing(pairs[1..], plan);
    }
  }

  /** Values of a key that does not fit are passed over. */
  lemma {:induction false} FoundBehind(ord: real, values: seq<int>, rest: seq<(real, int)>, plan: Plan)
    requires !Fits(plan, ord)
    ensures Found(C.Tagged(ord, values) + rest, plan) == Found(rest, plan)
    decreases |values|
  {
    if values == [] {
      C.EmptyFront(ord, rest);
    } else {
      C.TagNext(ord, values, rest);
      FoundFirst(ord, values[0], C.Tagged(ord, values[1..]) + rest, plan);
      FoundBehind(ord, values[1..], rest, plan);
    }
  }

  ghost function PlanOf(v: Volume, root: Term, equation: Term): Plan
    requires root.Valid() && equation.op.Comparing?
    reads equation, root.family`op, root.family`parent, root.family`score
  {
    var attribute, op, value := equation.attribute, equation.op.comparison, equation.value;
    var search, indexed := v.search(attribute, op, value), Indexed(v, attribute, op);
    Plan(op, search, indexed, if Placed(op, search, indexed) then search.start.key.ord else -1.0,
         iset id | LeafAnswer(attribute, op, value, v.inodes(id)) == MatchOk,
         iset id | root.SidesMatch(equation, v.inodes(id)))
  }

  // ---- the walk ----

  /** Whether an iterator is where the plan has it: the keys ahead are not below the start, and a key whose
      values are being read fits. */
  ghost predicate OnCourse(contents: map<real, int>, cut: real, pending: seq<int>, plan: Plan) {
    && (forall o :: o in contents && cut < o ==> plan.from <= o)
    && (pending != [] ==> Fits(plan, cut))
  }

  /** A pair has been read: a further one of the key, which fits as before, or one of a key above, which is not
      below the start. */
  lemma ReadOne(contents: map<real, int>, low: real, before: seq<int>, cut: real, pending: seq<int>, plan: Plan)
    requires OnCourse(contents, low, before, plan)
    requires (cut == low && before != []) || (low < cut && cut in contents)
    ensures cut == low ==> Fits(plan, cut)
    ensures low < cut ==> plan.from <= cut && (Fits(plan, cut) <==> (plan.indexed ==> Test(plan.op, plan.search.order(cut))))
    ensures pending == [] || Fits(plan, cut) ==> OnCourse(contents, cut, pending, plan)
  {
  }

  /** What is ahead are values of the current key and of those above. */
  lemma LeftIsAbove(cursor: C.DuplicateCursor, d: V.Dups, ord: real, id: int)
    requires cursor.it.tree != null && cursor.Valid(d) && (ord, id) in Left(cursor, d)
    ensures cursor.it.cut <= ord && (ord != cursor.it.cut ==> ord in cursor.it.tree.contents)
  {
    hide V.DupsOk, C.DuplicateCursor.Valid, C.DuplicateCursor.Pending, V.ValuesOf, V.KeyOk, C.Tagged, C.Pairs;
    C.CursorTree(cursor, d);
    var tree: B.BPlusTree, cut := cursor.it.tree, cursor.it.cut;
    TaggedAre(cut, cursor.Pending(d), ord, id);
    PairsAre(tree.others, tree.contents, d, KeysAbove(tree.contents, cut), ord, id);
  }

  /** For these operations no later key fits when this one does not. */
  predicate Stops(op: Comparison, pattern: bool) {
    op.LessThan? || op.LessThanOrEqual? || (op.Equal? && !pattern)
  }

  lemma NoneBehind(cursor: C.DuplicateCursor, d: V.Dups, plan: Plan)
    requires cursor.it.tree != null && cursor.Valid(d)
    requires SearchOk(plan.search, plan.op) && plan.indexed && !Test(plan.op, plan.search.order(cursor.it.cut))
    requires Stops(plan.op, plan.search.pattern) && plan.from <= cursor.it.cut
    requires plan.op.Equal? ==> plan.search.start.At? && plan.search.start.key.ord == plan.from
    ensures Found(Left(cursor, d), plan) == []
  {
    hide C.DuplicateCursor.Valid, Left;
    var order, cut := plan.search.order, cursor.it.cut;
    forall ord, id | (ord, id) in Left(cursor, d) ensures !Fits(plan, ord) {
      LeftIsAbove(cursor, d, ord, id);
      assert order(cut) <= order(ord);
    }
    FoundNothing(Left(cursor, d), plan);
  }

  /** The values left of a key that does not fit are not found. */
  lemma SkippedNothing(cut: real, pending: seq<int>, pages: S.Pages, contents: map<real, int>, d: V.Dups, plan: Plan)
    requires V.DupsOk(pages, contents, d) && !Fits(plan, cut)
    ensures (Found(C.Tagged(cut, pending) + PairsAbove(pages, contents, d, cut), plan)
             == Found(C.Tagged(cut, []) + PairsAbove(pages, contents, d, cut), plan))
  {
    hide V.DupsOk, PairsAbove, Fits, C.Tagged;
    FoundBehind(cut, pending, PairsAbove(pages, contents, d, cut), plan);
    FoundBehind(cut, [], PairsAbove(pages, contents, d, cut), plan);
  }

  /** The plan is that of the equation. */
  ghost predicate Follows(v: Volume, root: Term, equation: Term, plan: Plan)
    reads equation, root, root.family
  {
    && root.Valid() && root.parent == null && equation in root.family && equation.op.Comparing?
    && plan == PlanOf(v, root, equation) && SearchOk(plan.search, plan.op)
  }

  /** Whether an inode reached by the walk passes the rest: its own equation, without an index, and the climb. */
  method Passes(v: Volume, root: Term, equation: Term, hasIndex: bool, id: int, ghost plan: Plan) returns (passes: bool)
    requires Follows(v, root, equation, plan) && hasIndex == plan.indexed
    ensures passes <==> (!hasIndex ==> id in plan.own) && id in plan.sides
  {
    hide Term.SidesMatch, SearchOk;
    var inode := v.inodes(id);
    var holds := true;
    if !hasIndex {
      root.BelowIsValid(equation);
      var answer := equation.Match(inode);
      holds := answer == MatchOk;
    }
    passes := Climb(equation, inode, holds, root);
  }

  ghost predicate Course(cursor: C.DuplicateCursor, d: V.Dups, plan: Plan)
    reads cursor, cursor.it, cursor.it.tree, if cursor.it.tree == null then {} else cursor.it.tree.iterators
  {
    && cursor.it.tree != null && cursor.Valid(d)
    && OnCourse(cursor.it.tree.contents, cursor.it.cut, cursor.Pending(d), plan)
  }

  /** What the equation will find from here on. */
  ghost function ToFind(cursor: C.DuplicateCursor, d: V.Dups, plan: Plan): seq<int>
    requires cursor.it.tree != null && cursor.Valid(d)
    reads cursor, cursor.it, cursor.it.tree, if cursor.it.tree == null then {} else cursor.it.tree.iterators
  {
    Found(Left(cursor, d), plan)
  }

  /** A key that does not fit: none of its values is of interest. */
  method SkipKey(cursor: C.DuplicateCursor, mark: nat, ghost d: V.Dups, ghost plan: Plan)
    requires cursor.it.tree != null && cursor.Valid(d) && !Fits(plan, cursor.it.cut) && (mark == 0 ==> cursor.Pending(d) == [])
    modifies cursor
    ensures cursor.Valid(d) && cursor.Pending(d) == [] && cursor.it.cut == old(cursor.it.cut)
    ensures ToFind(cursor, d, plan) == old(ToFind(cursor, d, plan)) && |Left(cursor, d)| <= old(|Left(cursor, d)|)
  {
    hide C.DuplicateCursor.Valid, C.DuplicateCursor.Pending, Found, Fits, V.DupsOk, PairsAbove;
    C.CursorTree(cursor, d);
    SkippedNothing(cursor.it.cut, cursor.Pending(d), cursor.it.tree.others, cursor.it.tree.contents, d, plan);
    if mark > 0 {
      cursor.SkipDuplicates(d);
    }
  }

  /** The next inode that the equation finds and that passes. */
  method GetNextMatching(v: Volume, root: Term, equation: Term, cursor: C.DuplicateCursor, hasIndex: bool,
                         ghost d: V.Dups, ghost plan: Plan) returns (found: bool, id: int)
    requires Course(cursor, d, plan)
    requires hasIndex == plan.indexed && Follows(v, root, equation, plan)
    modifies cursor, cursor.it`node, cursor.it`index, cursor.it`cut
    ensures found ==> Course(cursor, d, plan) && old(ToFind(cursor, d, plan)) == [id] + ToFind(cursor, d, plan)
    ensures !found ==> old(ToFind(cursor, d, plan)) == []
  {
    hide C.DuplicateCursor.Valid, C.DuplicateCursor.Pending, Term.Valid, Term.SidesMatch, Found, Fits, SearchOk, V.DupsOk, OnCourse,
      Follows, C.Tagged, PairsAbove, PlanOf;
    PlanIs(v, root, equation, plan);
    var op, search := equation.op.comparison, v.search(equation.attribute, equation.op.comparison, equation.value);
    while true
      invariant cursor.it.tree == old(cursor.it.tree) && Course(cursor, d, plan) && Follows(v, root, equation, plan)
      invariant ToFind(cursor, d, plan) == old(ToFind(cursor, d, plan))
      decreases |Left(cursor, d)|
    {
      ghost var contents, low, before := cursor.it.tree.contents, cursor.it.cut, cursor.Pending(d);
      var status, key, value, mark := NextPair(cursor, d);
      if status == B.NotFound {
        FoundNothing([], plan);
        return false, 0;
      }
      FoundFirst(cursor.it.cut, value, Left(cursor, d), plan);
      ReadOne(contents, low, before, cursor.it.cut, cursor.Pending(d), plan);
      if hasIndex && mark < 2 && !Test(op, search.order(key.ord)) {
        if Stops(op, search.pattern) {
          NoneBehind(cursor, d, plan);
          return false, 0;
        }
        ReadOne(contents, low, before, cursor.it.cut, [], plan);
        SkipKey(cursor, mark, d, plan);
        continue;
      }
      var passes := Passes(v, root, equation, hasIndex, value, plan);
      if passes {
        return true, value;
      }
    }
  }

  lemma PlanIs(v: Volume, root: Term, equation: Term, plan: Plan)
    requires Follows(v, root, equation, plan)
    ensures equation.op.Comparing? && plan.op == equation.op.comparison && SearchOk(plan.search, plan.op)
    ensures plan.search == v.search(equation.attribute, plan.op, equation.value)
    ensures plan.indexed == Indexed(v, equation.attribute, plan.op)
    ensures plan.from == if Placed(plan.op, plan.search, plan.indexed) then plan.search.start.key.ord else -1.0
    ensures plan.indexed && plan.op.Equal? && !plan.search.pattern ==> plan.search.start.At? && plan.search.start.key.ord == plan.from
  {
  }

  // ---- preparing an equation ----

  /** Keys in front of the start are not missed. */
  lemma {:induction false} FromStart(pages: S.Pages, contents: map<real, int>, d: V.Dups, low: real, cut: real, plan: Plan)
    requires V.DupsOk(pages, contents, d) && (low <= cut || forall o :: o in contents ==> low < o)
    requires forall o :: o in contents && o <= cut ==> o < plan.from
    ensures Found(PairsAbove(pages, contents, d, low), plan) == Found(PairsAbove(pages, contents, d, cut), plan)
    decreases |C.Ahead(contents, low)|
  {
    hide V.DupsOk, V.ValuesOf, V.KeyOk, Found;
    if some :| some in contents && low < some <= cut {
      var ord := Least(contents, low, some);
      C.FewerAhead(contents, low, ord);
      KeysStep(contents, low, ord);
      C.KeyIsOk(pages, contents, d, ord);
      var keys := [ord] + KeysAbove(contents, ord);
      assert keys[0] == ord && keys[1..] == KeysAbove(contents, ord);
      FoundBehind(ord, V.ValuesOf(pages, d, ord, contents[ord]), PairsAbove(pages, contents, d, ord), plan);
      FromStart(pages, contents, d, ord, cut, plan);
    } else {
      SameKeysAbove(contents, low, cut);
    }
  }

  /** What is found in all of an index. */
  ghost function FoundIn(view: View, plan: Plan): seq<int>
    requires V.DupsOk(view.others, view.contents, view.d)
  {
    Found(PairsAbove(view.others, view.contents, view.d, -1.0), plan)
  }

  /** An equation can be run over: its attribute has an index, or need not, in which case there must be one of all
      names; and for == without a pattern the value must be in the index. */
  ghost predicate Prepared(v: Volume, views: map<string, View>, equation: Term)
    requires v.indices.Keys == views.Keys && equation.op.Comparing?
    reads equation
  {
    var attribute, op := equation.attribute, equation.op.comparison;
    var search := v.search(attribute, op, equation.value);
    && (attribute in views || v.nonIndexed)
    && IndexOf(v, attribute, op) in views
    && (Indexed(v, attribute, op) && op.Equal? && !search.pattern && !search.special ==>
          search.start.At? && search.start.key.ord in views[attribute].contents)
  }

  lemma StartIs(plan: Plan)
    requires SearchOk(plan.search, plan.op)
    ensures !plan.search.pattern ==> plan.search.start.At?
    ensures plan.search.start.At? ==> H.LengthOk(plan.search.start.key) && 0.0 <= plan.search.start.key.ord < 1.0
  {
  }

  /** A new iterator, at the beginning or at a key. */
  method Open(tree: B.BPlusTree, start: Start, ghost view: View, ghost plan: Plan) returns (cursor: C.DuplicateCursor, there: bool)
    requires Shows(tree, view) && plan.from == (if start.At? then start.key.ord else -1.0)
    requires start.At? ==> H.LengthOk(start.key) && 0.0 <= start.key.ord < 1.0
    modifies tree`iterators
    ensures Shows(tree, view) && fresh(cursor) && fresh(cursor.it) && cursor.it.tree == tree
    ensures V.DupsOk(view.others, view.contents, view.d)
    ensures Course(cursor, view.d, plan) && ToFind(cursor, view.d, plan) == FoundIn(view, plan)
    ensures start.At? ==> (there <==> start.key.ord in view.contents)
  {
    ghost var d := view.d;
    hide V.DupsOk, C.DuplicateCursor.Pending, Found, PairsAbove, B.BPlusTree.Valid;
    C.OthersInPages(tree, d);
    var it := new B.TreeIterator(tree);
    cursor := new C.DuplicateCursor(it, d);
    C.KeysAreAbove(tree);
    there := false;
    if start.At? {
      var status := cursor.Find(start.key, d);
      there := status == B.Ok;
    }
    FromStart(tree.others, tree.contents, d, -1.0, cursor.it.cut, plan);
    LeftBetween(cursor, d);
  }

  /** An iterator over the index of an equation. */
  ghost predicate RunsOver(v: Volume, views: map<string, View>, equation: Term, cursor: C.DuplicateCursor, plan: Plan)
    reads equation, cursor, cursor.it, cursor.it.tree, if cursor.it.tree == null then {} else cursor.it.tree.iterators
  {
    && equation.op.Comparing?
    && var name := IndexOf(v, equation.attribute, equation.op.comparison);
    && name in v.indices && name in views && cursor.it.tree == v.indices[name] && Course(cursor, views[name].d, plan)
  }

  /** Equation::PrepareQuery. The iterator is there even where the value is not. */
  method PrepareQuery(v: Volume, ghost views: map<string, View>, ghost root: Term, equation: Term, ghost plan: Plan)
      returns (prepared: bool, cursor: C.DuplicateCursor?, hasIndex: bool)
    requires VolumeOk(v, views) && Follows(v, root, equation, plan) && equation.op.Comparing?
    modifies v.indices.Values`iterators
    ensures VolumeOk(v, views) && (prepared <==> Prepared(v, views, equation)) && (prepared ==> cursor != null)
    ensures cursor != null ==> fresh(cursor) && fresh(cursor.it) && RunsOver(v, views, equation, cursor, plan)
    ensures cursor != null ==> hasIndex == plan.indexed
    ensures (cursor != null ==>
               var name := IndexOf(v, equation.attribute, equation.op.comparison);
               ToFind(cursor, views[name].d, plan) == FoundIn(views[name], plan))
  {
    hide V.DupsOk, SearchOk, Course, ToFind, FoundIn, Follows, B.BPlusTree.Valid;
    PlanIs(v, root, equation, plan);
    StartIs(plan);
    prepared, cursor, hasIndex := false, null, false;
    var attribute, op := equation.attribute, equation.op.comparison;
    var search := v.search(attribute, op, equation.value);
    if attribute !in v.indices && !v.nonIndexed {
      return;
    }
    var name := attribute;
    if attribute !in v.indices || op == Unequal {
      name := "name";
      if name !in v.indices {
        return;
      }
    } else {
      hasIndex := true;
    }
    var start := if Placed(op, search, hasIndex) then search.start else Beginning;
    var there;
    cursor, there := Open(v.indices[name], start, views[name], plan);
    prepared := start.At? && !search.special && op.Equal? && !search.pattern ==> there;
  }

  // ---- a query ----

  ghost predicate Equations(root: Term, stack: seq<Term>)
    reads root.family
  {
    forall k :: 0 <= k < |stack| ==> stack[k] in root.family && stack[k].op.Comparing?
  }

  /** What an equation finds in its index. */
  ghost function FoundBy(v: Volume, views: map<string, View>, root: Term, equation: Term): seq<int>
    requires Seen(v, views) && root.Valid() && equation.op.Comparing?
    requires IndexOf(v, equation.attribute, equation.op.comparison) in views
    reads equation, root.family
  {
    FoundIn(views[IndexOf(v, equation.attribute, equation.op.comparison)], PlanOf(v, root, equation))
  }

  /** What the equations of a stack find, from the top down: the first that cannot be prepared ends it. */
  ghost function OnStack(v: Volume, views: map<string, View>, root: Term, stack: seq<Term>): seq<int>
    requires Seen(v, views) && root.Valid() && Equations(root, stack)
    reads root.family
  {
    if stack == [] then []
    else
      TopIsEquation(root, stack);
      if !Prepared(v, views, stack[|stack| - 1]) then []
      else FoundBy(v, views, root, stack[|stack| - 1]) + OnStack(v, views, root, stack[..|stack| - 1])
  }

  lemma OnStackTop(v: Volume, views: map<string, View>, root: Term, stack: seq<Term>)
    requires Seen(v, views) && root.Valid() && Equations(root, stack) && stack != []
    ensures var top, rest := stack[|stack| - 1], stack[..|stack| - 1];
            && top.op.Comparing? && Equations(root, rest)
            && (Prepared(v, views, top) ==> IndexOf(v, top.attribute, top.op.comparison) in views)
            && OnStack(v, views, root, stack)
               == if Prepared(v, views, top) then FoundBy(v, views, root, top) + OnStack(v, views, root, rest) else []
  {
    hide Term.Valid, V.DupsOk, SearchOk, FoundBy;
    TopIsEquation(root, stack);
  }

  lemma TopIsEquation(root: Term, stack: seq<Term>)
    requires Equations(root, stack) && stack != []
    ensures stack[|stack| - 1] in root.family && stack[|stack| - 1].op.Comparing? && Equations(root, stack[..|stack| - 1])
  {
  }

  /** Prepares the equation on top of a stack. */
  method PrepareTop(v: Volume, ghost views: map<string, View>, ghost root: Term, stack: seq<Term>)
      returns (prepared: bool, cursor: C.DuplicateCursor?, hasIndex: bool)
    requires VolumeOk(v, views) && root.Valid() && root.parent == null && stack != [] && Equations(root, stack)
    modifies v.indices.Values`iterators
    ensures VolumeOk(v, views) && stack[|stack| - 1].op.Comparing? && (prepared ==> cursor != null)
    ensures cursor != null ==> fresh(cursor) && fresh(cursor.it)
    ensures (cursor != null ==>
               var top := stack[|stack| - 1];
               RunsOver(v, views, top, cursor, PlanOf(v, root, top)) && hasIndex == PlanOf(v, root, top).indexed)
    ensures (if prepared then
               var top, rest := stack[|stack| - 1], stack[..|stack| - 1];
               && Equations(root, rest)
               && OnStack(v, views, root, stack)
                  == ToFind(cursor, views[IndexOf(v, top.attribute, top.op.comparison)].d, PlanOf(v, root, top)) + OnStack(v, views, root, rest)
             else OnStack(v, views, root, stack) == [])
  {
    hide Term.Valid, ToFind, FoundIn, Prepared, PlanOf, VolumeOk, V.DupsOk, SearchOk, Course, Follows, Seen, IndexOf, OnStack, Equations, RunsOver;
    var equation := stack[|stack| - 1];
    VolumeIsSeen(v, views);
    TopIsEquation(root, stack);
    OnStackTop(v, views, root, stack);
    FollowsIt(v, views, root, equation);
    prepared, cursor, hasIndex := PrepareQuery(v, views, root, equation, PlanOf(v, root, equation));
  }

  /** An iterator and all it depends on. */
  ghost function Parts(cursor: C.DuplicateCursor?): set<object>
    reads cursor, if cursor == null then {} else {cursor.it}
    reads if cursor == null || cursor.it.tree == null then {} else {cursor.it.tree}
  {
    if cursor == null then {}
    else if cursor.it.tree == null then {cursor, cursor.it}
    else {cursor, cursor.it, cursor.it.tree} + cursor.it.tree.iterators
  }

  class Query {
    const volume: Volume
    const root: Term
    ghost const views: map<string, View>
    var stack: seq<Term>
    var current: Term?
    var iterator_: C.DuplicateCursor?
    var hasIndex: bool

    ghost predicate Valid()
      reads this, volume.indices.Values, root, root.family, current, Parts(iterator_)
    {
      && VolumeOk(volume, views) && root.Valid() && root.parent == null && Equations(root, stack)
      && (iterator_ != null ==>
            && current != null && current in root.family && current.op.Comparing?
            && RunsOver(volume, views, current, iterator_, PlanOf(volume, root, current))
            && hasIndex == PlanOf(volume, root, current).indexed)
    }

    /** The inodes still to come, until the end or an equation that cannot be prepared. */
    ghost function Coming(): seq<int>
      requires Valid()
      reads this, volume.indices.Values, root, root.family, current, Parts(iterator_)
    {
      (if iterator_ == null then []
       else
         ToFind(iterator_, views[IndexOf(volume, current.attribute, current.op.comparison)].d, PlanOf(volume, root, current)))
      + OnStack(volume, views, root, stack)
    }

    constructor (volume: Volume, root: Term, ghost views: map<string, View>)
      requires VolumeOk(volume, views) && root.Valid() && root.parent == null
      ensures Valid() && this.volume == volume && this.root == root && this.views == views && iterator_ == null
      ensures Coming() == Results(volume, views, root)
    {
      hide Term.Valid, Term.Chosen, VolumeOk, OnStack, Holds, Course, PlanOf;
      VolumeIsSeen(volume, views);
      this.volume, this.root, this.views := volume, root, views;
      stack, current, iterator_, hasIndex := [], null, null, false;
      new;
      stack := Rewind(root);
      ChosenAre(root);
    }

    /** Takes the next equation from the stack. */
    method TakeEquation() returns (prepared: bool)
      requires Valid() && iterator_ == null && stack != []
      modifies this`stack, this`current, this`iterator_, this`hasIndex, volume.indices.Values`iterators
      ensures Valid() && stack == old(stack[..|stack| - 1]) && (iterator_ != null ==> fresh(iterator_) && fresh(iterator_.it))
      ensures if prepared then iterator_ != null && Coming() == old(Coming()) else old(Coming()) == []
    {
      hide Term.Valid, ToFind, PlanOf, VolumeOk, OnStack, Coming, RunsOver, IndexOf;
      TopIsEquation(root, stack);
      Between();
      current := stack[|stack| - 1];
      prepared, iterator_, hasIndex := PrepareTop(volume, views, root, stack);
      stack := stack[..|stack| - 1];
      if prepared {
        Started();
      }
    }

    lemma Between()
      requires Valid() && iterator_ == null
      ensures Coming() == OnStack(volume, views, root, stack)
    {
      hide VolumeOk, Term.Valid, OnStack;
    }

    lemma Started()
      requires Valid() && iterator_ != null
      ensures Coming() == ToFind(iterator_, views[IndexOf(volume, current.attribute, current.op.comparison)].d, PlanOf(volume, root, current))
                          + OnStack(volume, views, root, stack)
    {
      hide VolumeOk, Term.Valid, OnStack, ToFind, PlanOf;
    }

    /** Goes on with the current equation. */
    method RunEquation() returns (found: bool, id: int)
      requires Valid() && iterator_ != null
      modifies this`current, this`iterator_, iterator_, iterator_.it
      ensures Valid() && iterator_ == (if found then old(iterator_) else null)
      ensures if found then old(Coming()) == [id] + Coming() else Coming() == old(Coming())
    {
      hide Term.Valid, ToFind, FoundBy, Prepared, PlanOf, VolumeOk, V.DupsOk, SearchOk, Course;
      FollowsIt(volume, views, root, current);
      found, id := GetNextMatching(volume, root, current, iterator_, hasIndex,
                                   views[IndexOf(volume, current.attribute, current.op.comparison)].d, PlanOf(volume, root, current));
      if !found {
        iterator_, current := null, null;
      }
    }

    /** The next inode, or none: at the end, and where an equation cannot be prepared, even if others are left. */
    method GetNextEntry() returns (found: bool, id: int)
      requires Valid()
      modifies this`stack, this`current, this`iterator_, this`hasIndex
      modifies iterator_, if iterator_ == null then {} else {iterator_.it}, volume.indices.Values`iterators
      ensures Valid() && (iterator_ != null ==> iterator_ == old(iterator_) || (fresh(iterator_) && fresh(iterator_.it)))
      ensures if found then old(Coming()) == [id] + Coming() else old(Coming()) == []
    {
      hide Valid, Coming, Equations;
      while true
        invariant Valid() && (iterator_ != null ==> iterator_ == old(iterator_) || (fresh(iterator_) && fresh(iterator_.it)))
        invariant Coming() == old(Coming())
        decreases |stack|, iterator_ != null
      {
        if iterator_ == null {
          if stack == [] {
            Nothing();
            return false, 0;
          }
          var prepared := TakeEquation();
          if !prepared {
            return false, 0;
          }
        }
        found, id := RunEquation();
        if found {
          return;
        }
      }
    }

    lemma KeepsVolume()
      requires Valid()
      ensures VolumeOk(volume, views)
    {
      hide VolumeOk, Term.Valid;
    }

    lemma Nothing()
      requires Valid() && iterator_ == null && stack == []
      ensures Coming() == []
    {
      hide VolumeOk, Term.Valid;
    }
  }

  lemma FollowsIt(v: Volume, views: map<string, View>, root: Term, equation: Term)
    requires VolumeOk(v, views) && root.Valid() && root.parent == null && equation in root.family && equation.op.Comparing?
    ensures Follows(v, root, equation, PlanOf(v, root, equation))
  {
    hide SearchOk, Term.Valid, Term.SidesMatch;
  }

  lemma ChosenAre(root: Term)
    requires root.Valid()
    ensures Equations(root, root.Chosen())
  {
    hide Term.Valid, Term.Chosen;
    forall k | 0 <= k < |root.Chosen()| ensures root.Chosen()[k] in root.family && root.Chosen()[k].op.Comparing? {
      root.ChosenBelow(k);
    }
  }

  // ---- what a query reports ----

  /** The index has the inode under this key. */
  ghost predicate Has(view: View, ord: real, id: int)
    requires V.DupsOk(view.others, view.contents, view.d)
  {
    ord in view.contents && id in V.ValuesOf(view.others, view.d, ord, view.contents[ord])
  }

  ghost function StartOf(v: Volume, attribute: string, op: Comparison, value: string): real {
    var search, indexed := v.search(attribute, op, value), Indexed(v, attribute, op);
    if Placed(op, search, indexed) then search.start.key.ord else -1.0
  }

  /** The walk of this equation comes by the inode. */
  ghost predicate WalksBy(v: Volume, views: map<string, View>, attribute: string, op: Comparison, value: string, id: int)
    requires Seen(v, views)
  {
    var name := IndexOf(v, attribute, op);
    name in views && exists ord :: Has(views[name], ord, id) && StartOf(v, attribute, op, value) <= ord
  }

  ghost function ListedIn(v: Volume, views: map<string, View>, id: int): Listed
    requires Seen(v, views)
  {
    iset attribute, op, value | WalksBy(v, views, attribute, op, value, id) :: (attribute, op, value)
  }

  /** The indices are up to date for the inode: a key that it is under compares as its attribute does. */
  ghost predicate UpToDate(v: Volume, views: map<string, View>, id: int)
    requires Seen(v, views)
  {
    forall a, op, w, ord {:trigger LeafAnswer(a, op, w, v.inodes(id)), Has(views[a], ord, id)} ::
      Indexed(v, a, op) && Has(views[a], ord, id) ==>
        (Test(op, v.search(a, op, w).order(ord)) <==> LeafAnswer(a, op, w, v.inodes(id)) == MatchOk)
  }

  /** What an equation finds are the inodes that it comes by, that it holds for and whose climb succeeds. */
  lemma FoundByIs(v: Volume, views: map<string, View>, root: Term, equation: Term, id: int)
    requires Seen(v, views) && root.Valid() && equation.op.Comparing? && UpToDate(v, views, id)
    requires IndexOf(v, equation.attribute, equation.op.comparison) in views
    ensures (id in FoundBy(v, views, root, equation) <==>
               && equation.ComesBy(ListedIn(v, views, id)) && root.SidesMatch(equation, v.inodes(id))
               && LeafAnswer(equation.attribute, equation.op.comparison, equation.value, v.inodes(id)) == MatchOk)
  {
    hide V.DupsOk, V.ValuesOf, V.KeyOk, C.Pairs, Found, LeafAnswer, Term.Valid, Term.SidesMatch, SearchOk, Test;
    var a, op, w := equation.attribute, equation.op.comparison, equation.value;
    var view, plan := views[IndexOf(v, a, op)], PlanOf(v, root, equation);
    var pairs := PairsAbove(view.others, view.contents, view.d, -1.0);
    FoundAre(pairs, plan, id);
    forall ord ensures (ord, id) in pairs <==> Has(view, ord, id) {
      PairsAre(view.others, view.contents, view.d, KeysAbove(view.contents, -1.0), ord, id);
    }
    if id in FoundBy(v, views, root, equation) {
      var ord :| (ord, id) in pairs && Accepts(plan, ord, id);
      assert Has(view, ord, id);
    }
  }

  /** All equations down to number `k` of the stack can be prepared. */
  ghost predicate PreparedTo(v: Volume, views: map<string, View>, root: Term, stack: seq<Term>, k: nat)
    requires Seen(v, views) && Equations(root, stack)
    reads root.family
  {
    forall j :: k <= j < |stack| ==> Prepared(v, views, stack[j])
  }

  /** What a stack of equations finds: what one of them finds before the first that cannot be prepared. */
  lemma {:induction false} OnStackIs(v: Volume, views: map<string, View>, root: Term, stack: seq<Term>, id: int)
    requires Seen(v, views) && root.Valid() && Equations(root, stack)
    ensures (id in OnStack(v, views, root, stack) <==>
               exists k :: 0 <= k < |stack| && PreparedTo(v, views, root, stack, k) && id in FoundBy(v, views, root, stack[k]))
  {
    hide V.DupsOk, SearchOk, Term.Valid, FoundBy, Indexed, Placed;
    if stack == [] {
      return;
    }
    TopIsEquation(root, stack);
    var top, rest := stack[|stack| - 1], stack[..|stack| - 1];
    OnStackIs(v, views, root, rest, id);
    if id in OnStack(v, views, root, stack) {
      if id in FoundBy(v, views, root, top) {
        assert PreparedTo(v, views, root, stack, |stack| - 1) && id in FoundBy(v, views, root, stack[|stack| - 1]);
      } else {
        var k :| 0 <= k < |rest| && PreparedTo(v, views, root, rest, k) && id in FoundBy(v, views, root, rest[k]);
        assert PreparedTo(v, views, root, stack, k) && id in FoundBy(v, views, root, stack[k]);
      }
    }
    if k :| 0 <= k < |stack| && PreparedTo(v, views, root, stack, k) && id in FoundBy(v, views, root, stack[k]) {
      assert Prepared(v, views, stack[|stack| - 1]);
      if k < |rest| {
        assert PreparedTo(v, views, root, rest, k) by {
          forall j | k <= j < |rest| ensures Prepared(v, views, rest[j]) {
            assert rest[j] == stack[j];
          }
        }
        assert id in FoundBy(v, views, root, rest[k]);
      }
    }
  }

  /** What the query finds in all. */
  ghost function Results(v: Volume, views: map<string, View>, root: Term): seq<int>
    requires Seen(v, views) && root.Valid()
    reads root, root.family
  {
    ChosenAre(root);
    OnStack(v, views, root, root.Chosen())
  }

  ghost predicate NeverCut(v: Volume, views: map<string, View>, root: Term)
    requires Seen(v, views) && root.Valid()
    reads root, root.family
  {
    ChosenAre(root);
    PreparedTo(v, views, root, root.Chosen(), 0)
  }

  ghost predicate Tells(v: Volume, views: map<string, View>, root: Term, id: int)
    requires Seen(v, views) && root.Valid()
    reads root, root.family
  {
    var reported, inode := id in Results(v, views, root), v.inodes(id);
    (reported ==> Holds(root.Value(), inode)) &&
    (NeverCut(v, views, root) ==> (reported <==> Reported(root.Value(), inode, ListedIn(v, views, id))))
  }

  /** What a query reports satisfies it; and when all its equations can be prepared, it reports what Reported says. */
  lemma ResultsAre(v: Volume, views: map<string, View>, root: Term, id: int)
    requires Seen(v, views) && root.Valid() && UpToDate(v, views, id)
    ensures id in Results(v, views, root) ==> Reported(root.Value(), v.inodes(id), ListedIn(v, views, id))
    ensures id in Results(v, views, root) ==> Holds(root.Value(), v.inodes(id))
    ensures NeverCut(v, views, root) ==>
              (id in Results(v, views, root) <==> Reported(root.Value(), v.inodes(id), ListedIn(v, views, id)))
  {
    hide V.DupsOk, SearchOk, Term.Valid, FoundBy, Term.Chosen, Term.SidesMatch, Term.Value, Reported, Holds, LeafAnswer, ListedIn, UpToDate;
    var equations, inode, listed := root.Chosen(), v.inodes(id), ListedIn(v, views, id);
    ChosenAre(root);
    OnStackIs(v, views, root, equations, id);
    if id in Results(v, views, root) {
      var k :| 0 <= k < |equations| && PreparedTo(v, views, root, equations, k) && id in FoundBy(v, views, root, equations[k]);
      root.ChosenBelow(k);
      FoundByIs(v, views, root, equations[k], id);
      LeafIs(equations[k], inode);
      root.FoundIsReported(k, inode, listed);
      ReportedHolds(root.Value(), inode, listed);
    }
    if NeverCut(v, views, root) && Reported(root.Value(), inode, listed) {
      var k := root.ChosenReports(inode, listed);
      assert Prepared(v, views, equations[k]);
      IndexIsThere(v, views, equations[k]);
      FoundByIs(v, views, root, equations[k], id);
      LeafIs(equations[k], inode);
      assert PreparedTo(v, views, root, equations, k);
    }
  }

  lemma LeafIs(t: Term, inode: Inode)
    requires t.Valid() && t.op.Comparing?
    ensures Holds(t.Value(), inode) <==> LeafAnswer(t.attribute, t.op.comparison, t.value, inode) == MatchOk
  {
  }

  lemma IndexIsThere(v: Volume, views: map<string, View>, equation: Term)
    requires v.indices.Keys == views.Keys && equation.op.Comparing? && Prepared(v, views, equation)
    ensures IndexOf(v, equation.attribute, equation.op.comparison) in views
  {
  }

  /** So a covered query whose equations can all be prepared, over indices without gaps, reports exactly the inodes
      that satisfy it. */
  lemma CoveredIsComplete(v: Volume, views: map<string, View>, root: Term, id: int, full: Listed)
    requires Seen(v, views) && root.Valid() && UpToDate(v, views, id) && NeverCut(v, views, root)
    requires Covered(root.Value()) && RunsWithin(root.Value(), full) && NoGaps(v.inodes(id), ListedIn(v, views, id), full)
    requires Sound(root.Value(), v.inodes(id))
    ensures id in Results(v, views, root) <==> Holds(root.Value(), v.inodes(id))
  {
    ResultsAre(v, views, root, id);
    if Holds(root.Value(), v.inodes(id)) {
      CoveredReports(root.Value(), v.inodes(id), ListedIn(v, views, id), full);
    }
  }

  /** An equation that cannot be prepared hides all that are below it: here == on a value that is not in the index
      ends the query before the other side of the || is looked at. */
  lemma MissingValueEndsQuery(v: Volume, views: map<string, View>, root: Term)
    requires Seen(v, views) && root.Valid() && root.op.Or? && root.left.op == Comparing(Equal) && root.left.attribute in views
    requires (var search := v.search(root.left.attribute, Equal, root.left.value);
              !search.pattern && !search.special && search.start.key.ord !in views[root.left.attribute].contents)
    ensures Results(v, views, root) == []
  {
    hide V.DupsOk, SearchOk, Term.Chosen;
    Sides(root);
    Only(root.left);
    ChosenAre(root);
    assert root.Chosen()[|root.Chosen()| - 1] == root.left;
  }

  lemma VolumeIsSeen(v: Volume, views: map<string, View>)
    requires VolumeOk(v, views)
    ensures Seen(v, views)
  {
  }

  /** Running a query until it has no more to tell. What it reports satisfies it; if no equation cuts it short, it
      reports just what Reported says. */
  method ReadQuery(v: Volume, root: Term, ghost views: map<string, View>) returns (ids: seq<int>)
    requires VolumeOk(v, views) && root.Valid() && root.parent == null
    modifies v.indices.Values`iterators
    ensures VolumeOk(v, views) && ids == Results(v, views, root)
    ensures forall id :: UpToDate(v, views, id) && id in ids ==> Holds(root.Value(), v.inodes(id))
    ensures (NeverCut(v, views, root) ==>
               forall id {:trigger id in ids} :: UpToDate(v, views, id) ==>
                 (id in ids <==> Reported(root.Value(), v.inodes(id), ListedIn(v, views, id))))
  {
    hide UpToDate, Reported, Holds, Term.Value, Results, NeverCut, ListedIn, VolumeOk, Seen, Term.Valid, OnStack, Query.Valid, Query.Coming, SearchOk, Term.Chosen;
    var query := new Query(v, root, views);
    ids := [];
    ghost var all := query.Coming();
    while true
      invariant query.Valid() && query.volume == v && query.views == views && query.root == root && fresh(query)
      invariant query.iterator_ != null ==> fresh(query.iterator_) && fresh(query.iterator_.it)
      invariant ids + query.Coming() == all
      decreases |query.Coming()|
    {
      var found, id := query.GetNextEntry();
      if !found {
        query.KeepsVolume();
        VolumeIsSeen(v, views);
        forall i | UpToDate(v, views, i) ensures Tells(v, views, root, i) {
          ResultsAre(v, views, root, i);
        }
        return;
      }
      ids := ids + [id];
    }
  }
}
