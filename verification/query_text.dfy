/** The language of queries, with blanks, redundant parentheses and negations, and that the parser reads
    it as it is meant (Query.cpp; the precedence is the one its opening comment promises). */
module QueryText {
  import opened QueryTree
  import opened QueryParser

  datatype Token = Bare(text: string) | Quoted(quote: char, text: string)

  datatype Sign = Is | IsIs | IsNot | Above | AboveOrIs | Below | BelowOrIs

  /** A comparison, or something in parentheses, possibly negated; blanks around everything. */
  datatype Unit =
    | Compare(before: string, attribute: Token, gap1: string, sign: Sign, gap2: string, value: Token, after: string)
    | Group(before: string, inner: OrText, after: string)
    | NotGroup(before: string, gap: string, inner: OrText, after: string)

  datatype AndText = Last(unit: Unit) | AndMore(unit: Unit, rest: AndText)

  datatype OrText = First(part: AndText) | OrMore(left: OrText, part: AndText)

  // ---- what it looks like ----

  function ShowToken(t: Token): string {
    match t
    case Bare(s) => s
    case Quoted(q, s) => [q] + s + [q]
  }

  function ShowSign(s: Sign): string {
    match s
    case Is => "="
    case IsIs => "=="
    case IsNot => "!="
    case Above => ">"
    case AboveOrIs => ">="
    case Below => "<"
    case BelowOrIs => "<="
  }

  function ShowUnit(u: Unit): string {
    match u
    case Compare(before, attribute, gap1, sign, gap2, value, after) =>
      before + (ShowToken(attribute) + (gap1 + (ShowSign(sign) + (gap2 + (ShowToken(value) + after)))))
    case Group(before, inner, after) => before + ("(" + (ShowOr(inner) + (")" + after)))
    case NotGroup(before, gap, inner, after) => before + ("!" + (gap + ("(" + (ShowOr(inner) + (")" + after)))))
  }

  function ShowAnd(a: AndText): string {
    match a
    case Last(u) => ShowUnit(u)
    case AndMore(u, rest) => ShowUnit(u) + ("&&" + ShowAnd(rest))
  }

  function ShowOr(o: OrText): string {
    match o
    case First(a) => ShowAnd(a)
    case OrMore(left, a) => ShowOr(left) + ("||" + ShowAnd(a))
  }

  // ---- what it means ----

  function SignMeans(s: Sign): Comparison {
    match s
    case Is => Equal
    case IsIs => Equal
    case IsNot => Unequal
    case Above => GreaterThan
    case AboveOrIs => GreaterThanOrEqual
    case Below => LessThan
    case BelowOrIs => LessThanOrEqual
  }

  function UnitMeans(u: Unit): Tree {
    match u
    case Compare(_, attribute, _, sign, _, value, _) => Leaf(attribute.text, SignMeans(sign), value.text, 0)
    case Group(_, inner, _) => OrMeans(inner)
    case NotGroup(_, _, inner, _) => Complement(OrMeans(inner))
  }

  /** && nests to the right. */
  function AndMeans(a: AndText): Tree {
    match a
    case Last(u) => UnitMeans(u)
    case AndMore(u, rest) => Both(UnitMeans(u), AndMeans(rest))
  }

  /** || nests to the left. */
  function OrMeans(o: OrText): Tree {
    match o
    case First(a) => AndMeans(a)
    case OrMore(left, a) => Either(OrMeans(left), AndMeans(a))
  }

  // ---- what is allowed ----

  predicate AllBlank(s: string) {
    forall i :: 0 <= i < |s| ==> Blank(s[i])
  }

  /** No character of `s` ends a scan to `stops`. */
  predicate Free(s: string, stops: string) {
    forall i :: 0 <= i < |s| ==> s[i] != '\0' && s[i] !in stops
  }

  predicate QuotedOk(t: Token)
    requires t.Quoted?
  {
    Quote(t.quote) && Free(t.text, [t.quote, '\\'])
  }

  predicate NoBlankEnds(s: string) {
    s != "" ==> !Blank(s[0]) && !Blank(s[|s| - 1])
  }

  predicate AttributeOk(t: Token) {
    && t.text != "" && Copyable(t.text)
    && if t.Quoted? then QuotedOk(t)
       else Free(t.text, "=<>!&|") && NoBlankEnds(t.text) && !Quote(t.text[0]) && t.text[0] != '(' && t.text[0] != ')'
  }

  predicate ValueOk(t: Token) {
    && Copyable(t.text)
    && if t.Quoted? then QuotedOk(t)
       else Free(t.text, "&|)") && NoBlankEnds(t.text) && (t.text != "" ==> !Quote(t.text[0]))
  }

  /** A one-character sign is not followed by a '=' of the value. */
  predicate SignOk(sign: Sign, gap: string, value: Token) {
    (sign.Is? || sign.Above? || sign.Below?) && gap == "" && value.Bare? && value.text != "" ==> value.text[0] != '='
  }

  predicate UnitOk(u: Unit) {
    match u
    case Compare(before, attribute, gap1, sign, gap2, value, after) =>
      && AllBlank(before) && AllBlank(gap1) && AllBlank(gap2) && AllBlank(after)
      && AttributeOk(attribute) && ValueOk(value) && SignOk(sign, gap2, value) && PatternOk(SignMeans(sign), value.text)
    case Group(before, inner, after) => AllBlank(before) && AllBlank(after) && OrOk(inner)
    case NotGroup(before, gap, inner, after) => AllBlank(before) && AllBlank(gap) && AllBlank(after) && OrOk(inner)
  }

  predicate AndOk(a: AndText) {
    UnitOk(a.unit) && (a.AndMore? ==> AndOk(a.rest))
  }

  predicate OrOk(o: OrText) {
    AndOk(o.part) && (o.OrMore? ==> OrOk(o.left))
  }

  // ---- scanning ----

  /** `s` stands at position `i`. */
  predicate On(text: string, i: nat, s: string) {
    i + |s| <= |text| && text[i..i + |s|] == s
  }

  lemma OnJoin(text: string, i: nat, a: string, b: string)
    ensures On(text, i, a + b) <==> On(text, i, a) && On(text, i + |a|, b)
  {
    if On(text, i, a + b) {
      assert a == (a + b)[..|a|] && b == (a + b)[|a|..];
      assert text[i..i + |a|] == text[i..i + |a + b|][..|a|];
      assert text[i + |a|..i + |a| + |b|] == text[i..i + |a + b|][|a|..];
    }
    if On(text, i, a) && On(text, i + |a|, b) {
      assert text[i..i + |a + b|] == text[i..i + |a|] + text[i + |a|..i + |a| + |b|];
    }
  }

  lemma OnAt(text: string, i: nat, s: string, k: nat)
    requires On(text, i, s) && k < |s|
    ensures i + k < |text| && text[i + k] == s[k]
  {
    assert text[i..i + |s|][k] == text[i + k];
  }

  /** Blanks are skipped up to the first other character. */
  lemma {:induction false} SkipsOver(text: string, i: nat, s: string)
    requires On(text, i, s) && AllBlank(s) && !Blank(At(text, i + |s|))
    ensures SkipBlanks(text, i) == i + |s|
    decreases |s|
  {
    if s != "" {
      OnAt(text, i, s, 0);
      OnJoin(text, i, s[..1], s[1..]);
      assert s == s[..1] + s[1..];
      SkipsOver(text, i + 1, s[1..]);
    }
  }

  lemma {:induction false} ScansOver(text: string, i: nat, s: string, stops: string)
    requires On(text, i, s) && Free(s, stops) && (At(text, i + |s|) == '\0' || At(text, i + |s|) in stops)
    ensures ScanTo(text, i, stops) == i + |s|
    decreases |s|
  {
    if s != "" {
      OnAt(text, i, s, 0);
      OnJoin(text, i, s[..1], s[1..]);
      assert s == s[..1] + s[1..];
      ScansOver(text, i + 1, s[1..], stops);
    }
  }

  lemma {:induction false} TrimsOff(text: string, start: nat, s: string, blanks: string)
    requires On(text, start, s) && On(text, start + |s|, blanks) && AllBlank(blanks) && s != "" && NoBlankEnds(s)
    ensures start + |s| + |blanks| <= |text|
    ensures TrimEnd(text, start, start + |s| + |blanks|) == start + |s|
    decreases |blanks|
  {
    if blanks == "" {
      OnAt(text, start, s, |s| - 1);
    } else {
      var less := blanks[..|blanks| - 1];
      OnAt(text, start + |s|, blanks, |blanks| - 1);
      assert blanks == less + blanks[|blanks| - 1..];
      OnJoin(text, start + |s|, less, blanks[|blanks| - 1..]);
      TrimsOff(text, start, s, less);
    }
  }

  lemma {:induction false} QuotesOver(text: string, i: nat, s: string, quote: char)
    requires On(text, i, s) && Free(s, [quote, '\\']) && At(text, i + |s|) == quote
    ensures QuoteEnd(text, i, quote) == i + |s|
    decreases |s|
  {
    if s != "" {
      OnAt(text, i, s, 0);
      OnJoin(text, i, s[..1], s[1..]);
      assert s == s[..1] + s[1..];
      QuotesOver(text, i + 1, s[1..], quote);
    }
  }

  /** A quoted token at `i`. */
  lemma ReadsQuoted(text: string, i: nat, t: Token)
    requires t.Quoted? && QuotedOk(t) && On(text, i, ShowToken(t))
    ensures At(text, i) == t.quote && QuoteEnd(text, i + 1, t.quote) == i + 1 + |t.text|
    ensures At(text, i + 1 + |t.text|) == t.quote && text[i + 1..i + 1 + |t.text|] == t.text
  {
    OnJoin(text, i, [t.quote] + t.text, [t.quote]);
    OnJoin(text, i, [t.quote], t.text);
    OnAt(text, i, [t.quote], 0);
    OnAt(text, i + 1 + |t.text|, [t.quote], 0);
    QuotesOver(text, i + 1, t.text, t.quote);
  }

  /** What may come behind a unit. */
  predicate Follows(text: string, n: nat) {
    At(text, n) == '\0' || At(text, n) in "&|)"
  }

  lemma ReadsAttribute(text: string, i: nat, t: Token, gap: string)
    requires AttributeOk(t) && AllBlank(gap) && On(text, i, ShowToken(t)) && On(text, i + |ShowToken(t)|, gap)
    requires At(text, i + |ShowToken(t)| + |gap|) in "=<>!"
    ensures i <= |text| && ParseAttribute(text, i) == Piece(t.text, i + |ShowToken(t)| + |gap|)
  {
    hide On, ScanTo, TrimEnd, QuoteEnd, SkipBlanks;
    var sign := i + |ShowToken(t)| + |gap|;
    OnInside(text, i, ShowToken(t));
    OnSlice(text, i, ShowToken(t));
    if t.Quoted? {
      ReadsQuoted(text, i, t);
      SkipsOver(text, i + |ShowToken(t)|, gap);
    } else {
      OnAt(text, i, t.text, 0);
      OnJoin(text, i, t.text, gap);
      assert Free(t.text + gap, "=<>!&|");
      ScansOver(text, i, t.text + gap, "=<>!&|");
      TrimsOff(text, i, t.text, gap);
    }
  }

  /** The value, from where the blanks behind the sign end. */
  lemma ReadsValue(text: string, i: nat, gap: string, t: Token, after: string)
    requires ValueOk(t) && AllBlank(gap) && AllBlank(after)
    requires On(text, i, gap) && On(text, i + |gap|, ShowToken(t)) && On(text, i + |gap| + |ShowToken(t)|, after)
    requires Follows(text, i + |gap| + |ShowToken(t)| + |after|)
    ensures i <= |text| && ParseValue(text, SkipBlanks(text, i)) == Piece(t.text, i + |gap| + |ShowToken(t)| + |after|)
  {
    hide On, Free, AllBlank, ScanTo, TrimEnd, QuoteEnd, SkipBlanks, ParseValue, Follows, ValueOk;
    if t.Quoted? {
      ReadsQuotedValue(text, i, gap, t, after);
    } else if t.text == "" {
      ReadsNoValue(text, i, gap, after);
    } else {
      ReadsBareValue(text, i, gap, t, after);
    }
  }

  lemma ReadsQuotedValue(text: string, i: nat, gap: string, t: Token, after: string)
    requires t.Quoted? && ValueOk(t) && AllBlank(gap) && AllBlank(after)
    requires On(text, i, gap) && On(text, i + |gap|, ShowToken(t)) && On(text, i + |gap| + |ShowToken(t)|, after)
    requires Follows(text, i + |gap| + |ShowToken(t)| + |after|)
    ensures i <= |text| && ParseValue(text, SkipBlanks(text, i)) == Piece(t.text, i + |gap| + |ShowToken(t)| + |after|)
  {
    hide On, Free, AllBlank, ScanTo, TrimEnd, QuoteEnd, SkipBlanks, ParseValue, NoBlankEnds, At, Follows, ShowToken, ValueOk, Quote, Blank;
    QuotedToken(t);
    FollowsNoBlank(text, i + |gap| + |ShowToken(t)| + |after|);
    ReadsQuoted(text, i + |gap|, t);
    SkipsOver(text, i, gap);
    SkipsOver(text, i + |gap| + |ShowToken(t)|, after);
    OnInside(text, i + |gap|, ShowToken(t));
    QuotedPiece(text, i + |gap|, i + |gap| + 1 + |t.text|, t.quote, t.text);
  }

  lemma QuotedToken(t: Token)
    requires t.Quoted? && ValueOk(t)
    ensures QuotedOk(t) && Quote(t.quote) && !Blank(t.quote) && |ShowToken(t)| == |t.text| + 2
  {
  }

  lemma FollowsNoBlank(text: string, i: nat)
    requires Follows(text, i)
    ensures !Blank(At(text, i))
  {
  }

  lemma QuotedPiece(text: string, start: nat, close: nat, quote: char, s: string)
    requires start < close < |text| && At(text, start) == quote && Quote(quote) && QuoteEnd(text, start + 1, quote) == close
    requires At(text, close) == quote && text[start + 1..close] == s
    ensures ParseValue(text, start) == Piece(s, SkipBlanks(text, close + 1))
  {
    hide QuoteEnd, SkipBlanks, ScanTo, TrimEnd;
  }

  lemma ReadsNoValue(text: string, i: nat, gap: string, after: string)
    requires AllBlank(gap) && AllBlank(after) && On(text, i, gap) && On(text, i + |gap|, after)
    requires Follows(text, i + |gap| + |after|)
    ensures i <= |text| && ParseValue(text, SkipBlanks(text, i)) == Piece("", i + |gap| + |after|)
  {
    hide On, AllBlank, ScanTo, TrimEnd, QuoteEnd, SkipBlanks;
    BlanksJoin(text, i, gap, after);
    SkipsOver(text, i, gap + after);
    OnInside(text, i, gap + after);
    ScansNothing(text, i + |gap| + |after|);
  }

  lemma ReadsBareValue(text: string, i: nat, gap: string, t: Token, after: string)
    requires t.Bare? && ValueOk(t) && t.text != "" && AllBlank(gap) && AllBlank(after)
    requires On(text, i, gap) && On(text, i + |gap|, t.text) && On(text, i + |gap| + |t.text|, after)
    requires Follows(text, i + |gap| + |t.text| + |after|)
    ensures i <= |text| && ParseValue(text, SkipBlanks(text, i)) == Piece(t.text, i + |gap| + |t.text| + |after|)
  {
    hide On, Free, AllBlank, ScanTo, TrimEnd, QuoteEnd, SkipBlanks, Follows, ValueOk, Quote;
    SkipsToBare(text, i, gap, t);
    ScansBare(text, i + |gap|, t, after);
  }

  lemma OnInside(text: string, i: nat, s: string)
    requires On(text, i, s)
    ensures i + |s| <= |text|
  {
  }

  lemma BlanksJoin(text: string, i: nat, a: string, b: string)
    requires On(text, i, a) && On(text, i + |a|, b) && AllBlank(a) && AllBlank(b)
    ensures On(text, i, a + b) && AllBlank(a + b)
  {
    OnJoin(text, i, a, b);
  }

  lemma ScansNothing(text: string, i: nat)
    requires Follows(text, i) && i <= |text|
    ensures ScanTo(text, i, "&|)") == i && TrimEnd(text, i, i) == i && !Quote(At(text, i)) && text[i..i] == ""
  {
  }

  lemma SkipsToBare(text: string, i: nat, gap: string, t: Token)
    requires t.Bare? && ValueOk(t) && t.text != "" && AllBlank(gap) && On(text, i, gap) && On(text, i + |gap|, t.text)
    ensures SkipBlanks(text, i) == i + |gap| && !Quote(At(text, i + |gap|))
  {
    OnAt(text, i + |gap|, t.text, 0);
    SkipsOver(text, i, gap);
  }

  lemma ScansBare(text: string, start: nat, t: Token, after: string)
    requires t.Bare? && ValueOk(t) && t.text != "" && AllBlank(after)
    requires On(text, start, t.text) && On(text, start + |t.text|, after) && Follows(text, start + |t.text| + |after|)
    ensures ScanTo(text, start, "&|)") == start + |t.text| + |after| <= |text|
    ensures TrimEnd(text, start, start + |t.text| + |after|) == start + |t.text|
    ensures text[start..start + |t.text|] == t.text
  {
    hide On, ScanTo, TrimEnd, Free, AllBlank, Follows;
    OnJoin(text, start, t.text, after);
    OnInside(text, start, t.text + after);
    OnSlice(text, start, t.text);
    BareIsFree(t, after);
    StopsAt(text, start + |t.text| + |after|);
    ScansOver(text, start, t.text + after, "&|)");
    TrimsOff(text, start, t.text, after);
  }

  lemma OnSlice(text: string, i: nat, s: string)
    requires On(text, i, s)
    ensures i + |s| <= |text| && text[i..i + |s|] == s
  {
  }

  lemma BareIsFree(t: Token, after: string)
    requires t.Bare? && ValueOk(t) && AllBlank(after)
    ensures Free(t.text + after, "&|)") && NoBlankEnds(t.text)
  {
  }

  lemma StopsAt(text: string, i: nat)
    requires Follows(text, i)
    ensures At(text, i) == '\0' || At(text, i) in "&|)"
  {
  }

  /** The sign, and that no '=' behind it is taken for part of it. */
  lemma ReadsSign(text: string, i: nat, sign: Sign, behind: nat)
    requires On(text, i, ShowSign(sign)) && behind == i + |ShowSign(sign)|
    requires sign.Is? || sign.Above? || sign.Below? ==> At(text, behind) != '='
    ensures At(text, i) in "=<>!" && (At(text, i) == '!' ==> At(text, i + 1) == '=')
    ensures SignAt(text, i) == SignMeans(sign) && (if At(text, i + 1) == '=' then i + 2 else i + 1) == behind
  {
    OnAt(text, i, ShowSign(sign), 0);
    if |ShowSign(sign)| == 2 {
      OnAt(text, i, ShowSign(sign), 1);
    }
  }

  lemma NoEqualsBehind(text: string, i: nat, sign: Sign, gap: string, t: Token, after: string)
    requires SignOk(sign, gap, t) && ValueOk(t) && AllBlank(gap) && AllBlank(after) && (sign.Is? || sign.Above? || sign.Below?)
    requires On(text, i, gap) && On(text, i + |gap|, ShowToken(t)) && On(text, i + |gap| + |ShowToken(t)|, after)
    requires Follows(text, i + |gap| + |ShowToken(t)| + |after|)
    ensures At(text, i) != '='
  {
    if gap != "" {
      OnAt(text, i, gap, 0);
    } else if ShowToken(t) != "" {
      OnAt(text, i, ShowToken(t), 0);
    } else if after != "" {
      OnAt(text, i, after, 0);
    }
  }

  /** The seven pieces of a comparison. */
  predicate Pieces(text: string, i: nat, u: Unit)
    requires u.Compare?
  {
    var p0 := i + |u.before|;
    var p1 := p0 + |ShowToken(u.attribute)|;
    var p2 := p1 + |u.gap1|;
    var p3 := p2 + |ShowSign(u.sign)|;
    var p4 := p3 + |u.gap2|;
    && On(text, i, u.before) && On(text, p0, ShowToken(u.attribute)) && On(text, p1, u.gap1)
    && On(text, p2, ShowSign(u.sign)) && On(text, p3, u.gap2) && On(text, p4, ShowToken(u.value))
    && On(text, p4 + |ShowToken(u.value)|, u.after)
  }

  lemma CutsUp(text: string, i: nat, u: Unit)
    requires u.Compare? && On(text, i, ShowUnit(u))
    ensures Pieces(text, i, u)
    ensures |ShowUnit(u)| == (|u.before| + |ShowToken(u.attribute)| + |u.gap1| + |ShowSign(u.sign)| + |u.gap2|
                              + |ShowToken(u.value)| + |u.after|)
  {
    hide On, ShowSign, ShowToken;
    var p0 := i + |u.before|;
    var p1 := p0 + |ShowToken(u.attribute)|;
    var p2 := p1 + |u.gap1|;
    var p3 := p2 + |ShowSign(u.sign)|;
    var value := u.gap2 + (ShowToken(u.value) + u.after);
    OnJoin(text, i, u.before, ShowToken(u.attribute) + (u.gap1 + (ShowSign(u.sign) + value)));
    OnJoin(text, p0, ShowToken(u.attribute), u.gap1 + (ShowSign(u.sign) + value));
    OnJoin(text, p1, u.gap1, ShowSign(u.sign) + value);
    OnJoin(text, p2, ShowSign(u.sign), value);
    OnJoin(text, p3, u.gap2, ShowToken(u.value) + u.after);
    OnJoin(text, p3 + |u.gap2|, ShowToken(u.value), u.after);
  }

  lemma ReadsCompare(text: string, i: nat, u: Unit)
    requires u.Compare? && UnitOk(u) && On(text, i, ShowUnit(u)) && Follows(text, i + |ShowUnit(u)|)
    ensures i <= |text| && ParseEquation(text, i) == Parsed(UnitMeans(u), i + |ShowUnit(u)|)
  {
    hide On, Free, AllBlank, ShowUnit, ShowSign, ShowToken, ParseComparison;
    CutsUp(text, i, u);
    var start := i + |u.before|;
    AttributeStarts(text, start, u.attribute);
    SkipsOver(text, i, u.before);
    ReadsComparison(text, i, u);
    OnFits(text, i, u.before);
  }

  lemma OnFits(text: string, i: nat, s: string)
    requires On(text, i, s)
    ensures i + |s| <= |text|
  {
  }

  lemma ReadsComparison(text: string, i: nat, u: Unit)
    requires u.Compare? && UnitOk(u) && On(text, i, ShowUnit(u)) && Follows(text, i + |ShowUnit(u)|)
    ensures i + |u.before| <= |text|
    ensures ParseComparison(text, i + |u.before|) == Parsed(UnitMeans(u), i + |ShowUnit(u)|)
  {
    hide On, Free, AllBlank, ShowSign, ShowToken, ShowUnit, PatternOk, SignAt, ParseAttribute, ParseValue, SkipBlanks, SignOk;
    CutsUp(text, i, u);
    var start := i + |u.before|;
    var sign := start + |ShowToken(u.attribute)| + |u.gap1|;
    var behind := sign + |ShowSign(u.sign)|;
    if u.sign.Is? || u.sign.Above? || u.sign.Below? {
      NoEqualsBehind(text, behind, u.sign, u.gap2, u.value, u.after);
    }
    ReadsSign(text, sign, u.sign, behind);
    ReadsAttribute(text, start, u.attribute, u.gap1);
    ReadsValue(text, behind, u.gap2, u.value, u.after);
  }

  lemma AttributeStarts(text: string, i: nat, t: Token)
    requires AttributeOk(t) && On(text, i, ShowToken(t))
    ensures !Blank(At(text, i)) && At(text, i) != '!' && At(text, i) != '(' && At(text, i) != ')'
  {
    OnAt(text, i, ShowToken(t), 0);
  }

  // ---- the three levels ----

  lemma {:induction false} ReadsUnit(text: string, i: nat, u: Unit)
    requires UnitOk(u) && On(text, i, ShowUnit(u)) && Follows(text, i + |ShowUnit(u)|)
    ensures i <= |text| && ParseEquation(text, i) == Parsed(UnitMeans(u), i + |ShowUnit(u)|)
    decreases u
  {
    hide On, AllBlank, SkipBlanks, ScanTo, TrimEnd, QuoteEnd, Free, Follows;
    match u {
      case Compare(_, _, _, _, _, _, _) =>
        ReadsCompare(text, i, u);
      case Group(before, inner, after) =>
        var open := i + |before|;
        OnJoin(text, i, before, "(" + (ShowOr(inner) + (")" + after)));
        OnJoin(text, open, "(", ShowOr(inner) + (")" + after));
        OnAt(text, open, "(", 0);
        SkipsOver(text, i, before);
        ReadsGroup(text, open, inner, after, false);
      case NotGroup(before, gap, inner, after) =>
        var mark := i + |before|;
        var open := mark + 1 + |gap|;
        OnJoin(text, i, before, "!" + (gap + ("(" + (ShowOr(inner) + (")" + after)))));
        OnJoin(text, mark, "!", gap + ("(" + (ShowOr(inner) + (")" + after))));
        OnJoin(text, mark + 1, gap, "(" + (ShowOr(inner) + (")" + after)));
        OnJoin(text, open, "(", ShowOr(inner) + (")" + after));
        OnAt(text, mark, "!", 0);
        OnAt(text, open, "(", 0);
        SkipsOver(text, i, before);
        SkipsOver(text, mark + 1, gap);
        ReadsGroup(text, open, inner, after, true);
    }
  }

  lemma {:induction false} ReadsGroup(text: string, open: nat, inner: OrText, after: string, negated: bool)
    requires OrOk(inner) && AllBlank(after) && open < |text|
    requires On(text, open + 1, ShowOr(inner) + (")" + after)) && Follows(text, open + 1 + |ShowOr(inner)| + 1 + |after|)
    ensures ParseGroup(text, open, negated) == Parsed(if negated then Complement(OrMeans(inner)) else OrMeans(inner),
                                                      open + 1 + |ShowOr(inner)| + 1 + |after|)
    decreases inner, 2
  {
    hide On, AllBlank;
    var close := open + 1 + |ShowOr(inner)|;
    OnJoin(text, open + 1, ShowOr(inner), ")" + after);
    OnJoin(text, close, ")", after);
    OnAt(text, close, ")", 0);
    ReadsOr(text, open + 1, inner);
    SkipsOver(text, close + 1, after);
    OrAfterBlanks(text, open + 1);
  }

  /** The levels above begin by skipping blanks anyway. */
  lemma OrAfterBlanks(text: string, i: nat)
    requires i <= |text|
    ensures ParseOr(text, SkipBlanks(text, i)) == ParseOr(text, i)
  {
    assert SkipBlanks(text, SkipBlanks(text, i)) == SkipBlanks(text, i);
    assert ParseEquation(text, SkipBlanks(text, i)) == ParseEquation(text, i);
    assert ParseAnd(text, SkipBlanks(text, i)) == ParseAnd(text, i);
  }

  lemma {:induction false} ReadsAnd(text: string, i: nat, a: AndText)
    requires AndOk(a) && On(text, i, ShowAnd(a)) && Follows(text, i + |ShowAnd(a)|)
    requires !IsOperator(text, i + |ShowAnd(a)|, '&')
    ensures i <= |text| && ParseAnd(text, i) == Parsed(AndMeans(a), i + |ShowAnd(a)|)
    decreases a
  {
    hide On, ShowUnit, UnitMeans, UnitOk, ParseEquation;
    match a {
      case Last(u) =>
        ReadsUnit(text, i, u);
      case AndMore(u, rest) =>
        var mid := i + |ShowUnit(u)|;
        OnJoin(text, i, ShowUnit(u), "&&" + ShowAnd(rest));
        OnJoin(text, mid, "&&", ShowAnd(rest));
        OnAt(text, mid, "&&", 0);
        OnAt(text, mid, "&&", 1);
        ReadsUnit(text, i, u);
        ReadsAnd(text, mid + 2, rest);
        var end := i + |ShowAnd(a)|;
        assert AndLoop(text, Both(UnitMeans(u), AndMeans(rest)), end) == Parsed(AndMeans(a), end);
        assert AndLoop(text, UnitMeans(u), mid) == Parsed(AndMeans(a), end);
    }
  }

  /** Having read `o`, ParseOr is at its loop with that much. */
  lemma {:induction false} ReadsOrSoFar(text: string, i: nat, o: OrText)
    requires OrOk(o) && On(text, i, ShowOr(o)) && Follows(text, i + |ShowOr(o)|)
    requires !IsOperator(text, i + |ShowOr(o)|, '&')
    ensures i + |ShowOr(o)| <= |text| && ParseOr(text, i) == OrLoop(text, OrMeans(o), i + |ShowOr(o)|)
    decreases o, 0
  {
    hide On, ShowAnd, AndMeans, AndOk, ParseAnd;
    match o {
      case First(a) =>
        ReadsAnd(text, i, a);
      case OrMore(left, a) =>
        var mid := i + |ShowOr(left)|;
        OnJoin(text, i, ShowOr(left), "||" + ShowAnd(a));
        OnJoin(text, mid, "||", ShowAnd(a));
        OnAt(text, mid, "||", 0);
        OnAt(text, mid, "||", 1);
        ReadsOrSoFar(text, i, left);
        ReadsAnd(text, mid + 2, a);
    }
  }

  lemma {:induction false} ReadsOr(text: string, i: nat, o: OrText)
    requires OrOk(o) && On(text, i, ShowOr(o)) && (At(text, i + |ShowOr(o)|) == '\0' || At(text, i + |ShowOr(o)|) == ')')
    ensures i <= |text| && ParseOr(text, i) == Parsed(OrMeans(o), i + |ShowOr(o)|)
    decreases o, 1
  {
    ReadsOrSoFar(text, i, o);
  }

  /** The parser reads every text of the language, to its end, as it is meant. */
  lemma ReadsAll(o: OrText)
    requires OrOk(o)
    ensures ParseOr(ShowOr(o), 0) == Parsed(OrMeans(o), |ShowOr(o)|)
  {
    ReadsOr(ShowOr(o), 0, o);
  }
}
