/** Query terms as linked objects: built by the parser, complemented in place, matched, and searched for the
    equations a query runs over (Query.cpp: Term, Equation, Operator, Expression, Query::Rewind and the
    climb in Equation::GetNextMatching). */
module QueryTerms {
  import opened QueryTree
  import opened QueryParser

  datatype Op = And | Or | Comparing(comparison: Comparison)

  class Term {
    var op: Op
    var parent: Term?
    const left: Term?
    const right: Term?
    const attribute: string
    const value: string
    var score: int
    ghost const height: nat
    /** The term and all terms below. */
    ghost const family: set<Term>

    constructor Equation(attribute: string, comparison: Comparison, value: string)
      ensures Valid() && parent == null && family == {this} && Value() == Leaf(attribute, comparison, value, 0)
    {
      op, parent, left, right, score := Comparing(comparison), null, null, null, 0;
      this.attribute, this.value := attribute, value;
      height, family := 0, {this};
    }

    constructor Operator(left: Term, op: Op, right: Term)
      requires left.Valid() && right.Valid() && left.family !! right.family && !op.Comparing?
      modifies left`parent, right`parent
      ensures Valid() && parent == null && this.left == left && this.right == right && this.op == op
      ensures family == {this} + left.family + right.family && fresh(this)
      ensures Value() == Combined(op, old(left.Value()), old(right.Value()))
    {
      this.left, this.right, this.op, parent := left, right, op, null;
      attribute, value, score := "", "", 0;
      height := 1 + left.height + right.height;
      family := {this} + left.family + right.family;
      new;
      left.parent := this;
      right.parent := this;
      left.StaysValid();
      right.StaysValid();
    }

    /** A term may get a parent without changing. */
    twostate lemma StaysValid()
      requires old(Valid())
      requires forall u :: u in family ==> u.op == old(u.op) && u.score == old(u.score) && (u != this ==> u.parent == old(u.parent))
      ensures Valid() && Value() == old(Value())
      decreases height
    {
      if left != null {
        left.StaysValid();
        right.StaysValid();
      }
    }

    /** The part of the structure that never changes. */
    ghost predicate Shaped()
      decreases height
    {
      && this in family && (left == null <==> right == null)
      && (left == null ==> family == {this})
      && (left != null ==>
            && height == 1 + left.height + right.height
            && left in family && right in family && this !in left.family && this !in right.family && left.family !! right.family
            && family == {this} + left.family + right.family
            && left.Shaped() && right.Shaped())
    }

    /** Operators join two terms that know them as their parent; equations compare. */
    ghost predicate Valid()
      reads family`op, family`parent
      decreases height
    {
      && Shaped()
      && (op.Comparing? <==> left == null)
      && (left != null ==> left.parent == this && right.parent == this && left.Valid() && right.Valid())
    }

    /** The tree this term is the root of. */
    ghost function Value(): Tree
      requires Valid()
      reads family`op, family`parent, family`score
      decreases height
    {
      match op
      case Comparing(c) => Leaf(attribute, c, value, score)
      case And => Both(left.Value(), right.Value())
      case Or => Either(left.Value(), right.Value())
    }

    /** Turns the tree into its complement, in place. */
    method Complement()
      requires Valid()
      modifies family`op
      ensures Valid() && Value() == QueryTree.Complement(old(Value()))
      decreases height
    {
      if op.Comparing? {
        op := Comparing(Opposite(op.comparison));
      } else {
        op := if op.And? then Or else And;
        left.Complement();
        right.Complement();
      }
    }

    method GetScore() returns (s: int)
      requires Valid()
      ensures s == Score(Value())
      decreases height
    {
      hide Valid, Value, Shaped;
      Opened();
      match op
      case Comparing(_) =>
        s := score;
      case And =>
        var l := left.GetScore();
        var r := right.GetScore();
        s := if r > l then r else l;
      case Or =>
        var l := left.GetScore();
        var r := right.GetScore();
        s := if r < l then r else l;
    }

    lemma Opened()
      requires Valid()
      ensures op.Comparing? ==> Value() == Leaf(attribute, op.comparison, value, score)
      ensures (!op.Comparing? ==>
                 && left != null && right != null && left.Valid() && right.Valid()
                 && left.height < height && right.height < height
                 && Value() == Combined(op, left.Value(), right.Value()))
    {
    }

    /** Equation::Match and Operator::Match. */
    method Match(inode: Inode) returns (status: Status)
      requires Valid()
      ensures status == Answer(Value(), inode)
      decreases height
    {
      hide Valid, Value, Shaped;
      Opened();
      match op
      case Comparing(c) =>
        status := LeafAnswer(attribute, c, value, inode);
      case And =>
        status := left.Match(inode);
        if status == MatchOk {
          status := right.Match(inode);
        }
      case Or =>
        var l := left.GetScore();
        var r := right.GetScore();
        if r > l {
          status := right.Match(inode);
          if status != NoMatch {
            return;
          }
        }
        status := left.Match(inode);
    }

    /** The equations a query has to run over: for an ||, those of both sides, for an &&, those of the side
        with the better score. */
    ghost function Chosen(): seq<Term>
      requires Valid()
      reads family`op, family`parent, family`score
      decreases height
    {
      match op
      case Comparing(_) => [this]
      case And => if Score(right.Value()) > Score(left.Value()) then right.Chosen() else left.Chosen()
      case Or => right.Chosen() + left.Chosen()
    }

    /** On the way from here down to `leaf`, the other side of every && matches. */
    ghost predicate SidesMatch(leaf: Term, inode: Inode)
      requires Valid()
      reads family`op, family`parent, family`score
      decreases height
    {
      op.Comparing? ||
      if leaf in left.family then (op.And? ==> Answer(right.Value(), inode) == MatchOk) && left.SidesMatch(leaf, inode)
      else (op.And? ==> Answer(left.Value(), inode) == MatchOk) && right.SidesMatch(leaf, inode)
    }

    /** Terms below a valid term are valid. */
    lemma {:induction false} BelowIsValid(t: Term)
      requires Valid() && t in family
      ensures t.Valid() && t.family <= family && t in t.family
      ensures t != this ==> (t.parent != null && t.parent in family && t.parent.Valid() && t.parent.left != null
                             && (t.parent.left == t || t.parent.right == t) && t.parent.height <= height)
      decreases height
    {
      if t != this {
        if t in left.family {
          left.BelowIsValid(t);
        } else {
          right.BelowIsValid(t);
        }
      }
    }

    /** What holds of the whole way holds of its lower part. */
    lemma {:induction false} SidesBelow(t: Term, leaf: Term, inode: Inode)
      requires Valid() && t in family && t.Valid() && leaf in t.family && SidesMatch(leaf, inode)
      ensures t.SidesMatch(leaf, inode)
      decreases height
    {
      if t != this {
        if t in left.family {
          left.BelowIsValid(t);
          left.SidesBelow(t, leaf, inode);
        } else {
          right.BelowIsValid(t);
          right.SidesBelow(t, leaf, inode);
        }
      }
    }

    /** The chosen equations are some of the equations of the tree. */
    lemma {:induction false} ChosenBelow(k: nat)
      requires Valid() && k < |Chosen()|
      ensures Chosen()[k] in family && Chosen()[k].Valid() && Chosen()[k].op.Comparing?
      decreases height
    {
      if op.And? {
        if Score(right.Value()) > Score(left.Value()) {
          right.ChosenBelow(k);
        } else {
          left.ChosenBelow(k);
        }
      } else if op.Or? {
        if k < |right.Chosen()| {
          right.ChosenBelow(k);
        } else {
          left.ChosenBelow(k - |right.Chosen()|);
        }
      }
    }

    /** The chosen equations cover the query: where it holds, one of them does. */
    lemma {:induction false} ChosenCover(inode: Inode) returns (k: nat)
      requires Valid() && Holds(Value(), inode)
      ensures k < |Chosen()| && Chosen()[k] in family && Chosen()[k].Valid() && Holds(Chosen()[k].Value(), inode)
      decreases height
    {
      match op
      case Comparing(_) =>
        k := 0;
      case And =>
        if Score(right.Value()) > Score(left.Value()) {
          k := right.ChosenCover(inode);
        } else {
          k := left.ChosenCover(inode);
        }
      case Or =>
        if Holds(right.Value(), inode) {
          k := right.ChosenCover(inode);
        } else {
          k := left.ChosenCover(inode);
          k := k + |right.Chosen()|;
        }
    }

    /** What the walk of this equation must come by to find the inode. */
    ghost predicate ComesBy(listed: Listed)
      reads this
    {
      op.Comparing? && (attribute, op.comparison, value) in listed
    }

    /** Where the query reports the inode, it does so from some chosen equation. */
    lemma {:induction false} ChosenReports(inode: Inode, listed: Listed) returns (k: nat)
      requires Valid() && Reported(Value(), inode, listed)
      ensures k < |Chosen()| && Chosen()[k] in family && Chosen()[k].Valid() && Chosen()[k].ComesBy(listed)
      ensures Holds(Chosen()[k].Value(), inode) && SidesMatch(Chosen()[k], inode)
      decreases height
    {
      match op
      case Comparing(_) =>
        k := 0;
      case And =>
        if Score(right.Value()) > Score(left.Value()) {
          k := right.ChosenReports(inode, listed);
        } else {
          k := left.ChosenReports(inode, listed);
        }
      case Or =>
        if Reported(right.Value(), inode, listed) {
          k := right.ChosenReports(inode, listed);
        } else {
          k := left.ChosenReports(inode, listed);
          k := k + |right.Chosen()|;
        }
    }

    /** And what is found from a chosen equation is reported. */
    lemma {:induction false} FoundIsReported(k: nat, inode: Inode, listed: Listed)
      requires Valid() && k < |Chosen()| && Chosen()[k] in family && Chosen()[k].Valid() && Chosen()[k].ComesBy(listed)
      requires Holds(Chosen()[k].Value(), inode) && SidesMatch(Chosen()[k], inode)
      ensures Reported(Value(), inode, listed)
      decreases height
    {
      match op
      case Comparing(_) =>
      case And =>
        if Score(right.Value()) > Score(left.Value()) {
          right.ChosenBelow(k);
          right.FoundIsReported(k, inode, listed);
        } else {
          left.ChosenBelow(k);
          left.FoundIsReported(k, inode, listed);
        }
      case Or =>
        if k < |right.Chosen()| {
          right.ChosenBelow(k);
          right.FoundIsReported(k, inode, listed);
        } else {
          left.ChosenBelow(k - |right.Chosen()|);
          left.FoundIsReported(k - |right.Chosen()|, inode, listed);
        }
    }
  }

  function Combined(op: Op, l: Tree, r: Tree): Tree
    requires !op.Comparing?
  {
    if op.And? then Both(l, r) else Either(l, r)
  }

  // ---- running a query ----

  /** What is left to do on a stack of terms, whose top is the last. */
  ghost function ChosenOf(work: seq<Term>): seq<Term>
    requires AllValid(work)
    reads set t, u | t in work && u in t.family :: u
  {
    if work == [] then [] else work[|work| - 1].Chosen() + ChosenOf(work[..|work| - 1])
  }

  ghost function Weight(work: seq<Term>): nat {
    if work == [] then 0 else 2 * work[|work| - 1].height + 1 + Weight(work[..|work| - 1])
  }

  ghost predicate AllValid(work: seq<Term>)
    reads set t, u | t in work && u in t.family :: u
  {
    forall t :: t in work ==> t.Valid()
  }

  lemma Pushed(rest: seq<Term>, t: Term)
    requires AllValid(rest) && t.Valid()
    ensures AllValid(rest + [t]) && ChosenOf(rest + [t]) == t.Chosen() + ChosenOf(rest)
    ensures Weight(rest + [t]) == Weight(rest) + 2 * t.height + 1
  {
    assert (rest + [t])[..|rest|] == rest;
  }

  /** What an operator makes of its two sides. */
  lemma Sides(t: Term)
    requires t.Valid() && !t.op.Comparing?
    ensures t.left != null && t.right != null && t.left.Valid() && t.right.Valid()
    ensures t.left.height < t.height && t.right.height < t.height && t.left.height + t.right.height < t.height
    ensures t.op.Or? ==> t.Chosen() == t.right.Chosen() + t.left.Chosen()
    ensures t.op.And? ==> t.Chosen() == if Score(t.right.Value()) > Score(t.left.Value()) then t.right.Chosen() else t.left.Chosen()
  {
  }

  /** Query::Rewind: the equations to run over, found with a stack of terms. */
  method Rewind(root: Term) returns (equations: seq<Term>)
    requires root.Valid()
    ensures equations == root.Chosen()
    ensures forall inode: Inode :: Holds(root.Value(), inode) ==>
              exists k :: 0 <= k < |equations| && equations[k].Valid() && Holds(equations[k].Value(), inode)
  {
    hide Holds, ChosenOf, Weight, Term.Chosen, Term.Valid, Term.Value, Term.Shaped, Score, AllValid;
    var work: seq<Term> := [root];
    equations := [];
    StartsWith(root);
    while work != []
      invariant AllValid(work) && root.Chosen() == equations + ChosenOf(work)
      decreases Weight(work)
    {
      var term := work[|work| - 1];
      var rest := work[..|work| - 1];
      Popped(work, rest, term);
      Pushed(rest, term);
      match term.op {
        case Or =>
          Sides(term);
          var l: Term, r: Term := term.left, term.right;
          Pushed(rest, l);
          Pushed(rest + [l], r);
          Regroup(equations, r.Chosen(), l.Chosen(), ChosenOf(rest));
          work := rest + [l] + [r];
        case And =>
          Sides(term);
          var left: Term, right: Term := term.left, term.right;
          var l := left.GetScore();
          var r := right.GetScore();
          Pushed(rest, left);
          Pushed(rest, right);
          work := if r > l then rest + [right] else rest + [left];
        case Comparing(_) =>
          Only(term);
          Regroup(equations, [term], [], ChosenOf(rest));
          work := rest;
          equations := equations + [term];
      }
    }
    NothingChosen();
    ChosenHold(root, equations);
  }

  lemma ChosenHold(root: Term, equations: seq<Term>)
    requires root.Valid() && equations == root.Chosen()
    ensures forall inode: Inode :: Holds(root.Value(), inode) ==>
              exists k :: 0 <= k < |equations| && equations[k].Valid() && Holds(equations[k].Value(), inode)
  {
    hide Holds, Term.Chosen, Term.Valid, Term.Value;
    forall inode: Inode | Holds(root.Value(), inode)
      ensures exists k :: 0 <= k < |equations| && equations[k].Valid() && Holds(equations[k].Value(), inode) {
      var k := root.ChosenCover(inode);
    }
  }

  lemma StartsWith(root: Term)
    requires root.Valid()
    ensures AllValid([root]) && root.Chosen() == [] + ChosenOf([root])
  {
    Pushed([], root);
    assert [] + [root] == [root];
  }

  lemma Popped(work: seq<Term>, rest: seq<Term>, term: Term)
    requires AllValid(work) && work != [] && term == work[|work| - 1] && rest == work[..|work| - 1]
    ensures work == rest + [term] && AllValid(rest) && term.Valid()
  {
  }

  lemma Only(t: Term)
    requires t.Valid() && t.op.Comparing?
    ensures t.Chosen() == [t]
  {
  }

  lemma NothingChosen()
    ensures AllValid([]) && ChosenOf([]) == []
  {
  }

  lemma Regroup<T>(a: seq<T>, b: seq<T>, c: seq<T>, d: seq<T>)
    ensures a + ((b + c) + d) == a + (b + (c + d)) == (a + b) + (c + d)
    ensures c == [] ==> a + (b + d) == (a + b) + d
  {
    if c == [] {
      assert a + (b + d) == (a + b) + d;
    }
  }

  /** The climb in GetNextMatching: from an equation that has been found to hold up to the root, the other side
      of every && must match. */
  method Climb(leaf: Term, inode: Inode, holds: bool, ghost root: Term) returns (matched: bool)
    requires root.Valid() && root.parent == null && leaf in root.family && leaf.op.Comparing?
    ensures matched <==> holds && root.SidesMatch(leaf, inode)
  {
    root.BelowIsValid(leaf);
    var term := leaf;
    var status := if holds then MatchOk else NoMatch;
    while status == MatchOk
      invariant term in root.family && term.Valid() && leaf in term.family
      invariant status == MatchOk ==> holds && term.SidesMatch(leaf, inode)
      invariant status != MatchOk ==> !holds || !root.SidesMatch(leaf, inode)
      decreases root.height - term.height, status == MatchOk
    {
      root.BelowIsValid(term);
      var parent := term.parent;
      if parent == null {
        break;
      }
      if parent.op.And? {
        var other := parent.right;
        if other == term {
          other := parent.left;
        }
        status := other.Match(inode);
        if status.Failed? {
          status := NoMatch;
        }
      }
      if root.SidesMatch(leaf, inode) {
        root.SidesBelow(parent, leaf, inode);
      }
      term := parent;
    }
    matched := status == MatchOk;
  }
}
