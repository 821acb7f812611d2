/** Writing any query tree with as few parentheses as possible, and reading it back. */
module QueryRendering {
  import opened QueryTree
  import opened QueryParser
  import opened QueryText

  function AttributeToken(s: string): Token {
    if AttributeOk(Bare(s)) then Bare(s) else Quoted('"', s)
  }

  function ValueToken(s: string): Token {
    if ValueOk(Bare(s)) then Bare(s) else Quoted('"', s)
  }

  function SignFor(op: Comparison): Sign {
    match op
    case Equal => IsIs
    case Unequal => IsNot
    case GreaterThan => Above
    case GreaterThanOrEqual => AboveOrIs
    case LessThan => Below
    case LessThanOrEqual => BelowOrIs
  }

  /** Names and values can be written, plainly or in quotes; no score has been calculated yet. */
  predicate Writable(t: Tree) {
    match t
    case Leaf(attribute, op, value, score) =>
      AttributeOk(AttributeToken(attribute)) && ValueOk(ValueToken(value)) && PatternOk(op, value) && score == 0
    case Both(l, r) => Writable(l) && Writable(r)
    case Either(l, r) => Writable(l) && Writable(r)
  }

  /** How far the levels are from looking into a tree: they hand it on to each other until they do. */
  function OrRank(t: Tree): nat { if t.Leaf? then 5 else if t.Both? then 1 else 0 }

  function AndRank(t: Tree): nat { if t.Leaf? then 4 else if t.Both? then 0 else 3 }

  /** Parentheses only around an || below an &&, around an || on the right of an ||, and around an && on the
      left of an &&. */
  function OrOf(t: Tree): OrText
    decreases t, OrRank(t)
  {
    if t.Either? then OrMore(OrOf(t.left), AndOf(t.right)) else First(AndOf(t))
  }

  function AndOf(t: Tree): AndText
    decreases t, AndRank(t)
  {
    if t.Both? then AndMore(UnitOf(t.left), AndOf(t.right)) else Last(UnitOf(t))
  }

  function UnitOf(t: Tree): Unit
    decreases t, 2
  {
    if t.Leaf? then Compare("", AttributeToken(t.attribute), "", SignFor(t.op), " ", ValueToken(t.value), "")
    else Group("", OrOf(t), "")
  }

  lemma {:induction false} OrOfMeans(t: Tree)
    requires Writable(t)
    ensures OrOk(OrOf(t)) && OrMeans(OrOf(t)) == t
    decreases t, OrRank(t)
  {
    if t.Either? {
      OrOfMeans(t.left);
      AndOfMeans(t.right);
    } else {
      AndOfMeans(t);
    }
  }

  lemma {:induction false} AndOfMeans(t: Tree)
    requires Writable(t)
    ensures AndOk(AndOf(t)) && AndMeans(AndOf(t)) == t
    decreases t, AndRank(t)
  {
    if t.Both? {
      UnitOfMeans(t.left);
      AndOfMeans(t.right);
    } else {
      UnitOfMeans(t);
    }
  }

  lemma {:induction false} UnitOfMeans(t: Tree)
    requires Writable(t)
    ensures UnitOk(UnitOf(t)) && UnitMeans(UnitOf(t)) == t
    decreases t, 2
  {
    if !t.Leaf? {
      OrOfMeans(t);
    }
  }

  /** What is written for a tree parses to that tree, and all of it is read. */
  lemma RoundTrip(t: Tree)
    requires Writable(t)
    ensures ParseOr(ShowOr(OrOf(t)), 0) == Parsed(t, |ShowOr(OrOf(t))|)
  {
    OrOfMeans(t);
    ReadsAll(OrOf(t));
  }

  /** Written in negated parentheses, it parses to the complement, which holds where the tree is false. */
  lemma NegatedRoundTrip(t: Tree, inode: Inode)
    requires Writable(t)
    ensures (var text := ShowOr(First(Last(NotGroup("", "", OrOf(t), ""))));
             ParseOr(text, 0) == Parsed(Complement(t), |text|))
    ensures Holds(Complement(t), inode) <==> Verdict(t, inode) == False
  {
    OrOfMeans(t);
    var u := NotGroup("", "", OrOf(t), "");
    assert UnitOk(u) && UnitMeans(u) == Complement(t);
    assert AndOk(Last(u)) && AndMeans(Last(u)) == Complement(t);
    ReadsAll(First(Last(u)));
    HoldsIsTrue(t, inode);
  }
}
