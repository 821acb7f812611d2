/** The query parser as functions on a text and a position (Query.cpp: ParseOr, ParseAnd, ParseEquation and
    the Equation constructor). */
module QueryParser {
  import opened QueryTree

  /** The character at `i`; the text ends with a NUL. */
  function At(text: string, i: nat): char {
    if i < |text| then text[i] else '\0'
  }

  predicate Blank(c: char) { c == ' ' || c == '\t' }

  predicate Quote(c: char) { c == '"' || c == '\'' }

  /** skipWhitespace. */
  function SkipBlanks(text: string, i: nat): (j: nat)
    ensures i <= j && (i <= |text| ==> j <= |text|) && !Blank(At(text, j))
    decreases |text| - i
  {
    if Blank(At(text, i)) then SkipBlanks(text, i + 1) else i
  }

  /** The first position from `i` on with the end of the text or one of `stops`. */
  function ScanTo(text: string, i: nat, stops: string): (j: nat)
    ensures i <= j && (i <= |text| ==> j <= |text|)
    decreases |text| - i
  {
    if At(text, i) == '\0' || At(text, i) in stops then i else ScanTo(text, i + 1, stops)
  }

  /** skipWhitespaceReverse, with the position behind the last character: blanks go, but not the first
      character of the token. */
  function TrimEnd(text: string, start: nat, end: nat): (j: nat)
    requires end <= |text|
    ensures start <= end ==> start <= j
    ensures j <= end
    decreases end
  {
    if end > start + 1 && Blank(text[end - 1]) then TrimEnd(text, start, end - 1) else end
  }

  /** ParseQuotedString: the position of the closing quote, or the end of the text. */
  function QuoteEnd(text: string, i: nat, quote: char): (j: nat)
    ensures i <= j
    decreases |text| - i
  {
    if At(text, i) == '\0' || At(text, i) == quote then i
    else if text[i] == '\\' then QuoteEnd(text, i + 2, quote)
    else QuoteEnd(text, i + 1, quote)
  }

  // ---- patterns ----

  /** isPattern. */
  predicate IsPattern(s: string) {
    exists i :: 0 <= i < |s| && (s[i] == '*' || s[i] == '?' || s[i] == '[')
  }

  /** isValidPattern, from position `i` on. */
  predicate ValidPattern(s: string, i: nat)
    decreases |s| - i, 0
  {
    if At(s, i) == '\0' then true
    else if s[i] == '\\' then At(s, i + 1) != '\0' && ValidPattern(s, i + 2)
    else if s[i] == '[' then At(s, i + 1) != ']' && At(s, i + 1) != '\0' && ValidSet(s, i + 1)
    else ValidPattern(s, i + 1)
  }

  /** Its loop over a set of characters. */
  predicate ValidSet(s: string, i: nat)
    decreases |s| - i, 1
  {
    if At(s, i) == ']' then ValidPattern(s, i)
    else
      var j := if At(s, i) == '\\' then i + 1 else i;
      At(s, j) != '\0' && !(At(s, j) == '-' && At(s, j + 1) == '-') && ValidSet(s, j + 1)
  }

  // ---- one comparison ----

  /** INODE_FILE_NAME_LENGTH: CopyString refuses longer strings, the closing NUL included. */
  const NAME_LENGTH: nat := 256

  datatype Piece = Piece(text: string, next: nat) | NoPiece

  predicate Copyable(s: string) { |s| + 1 <= NAME_LENGTH }

  /** Names and values of up to 255 characters are taken, and no longer ones. */
  lemma CopyableIff(s: string)
    ensures Copyable(s) <==> |s| <= 255
  {
  }

  /** The attribute's name, and where the comparison's sign is expected. */
  function ParseAttribute(text: string, i: nat): (p: Piece)
    requires i <= |text|
    ensures p.Piece? ==> i < p.next <= |text|
  {
    if Quote(At(text, i)) then
      var close := QuoteEnd(text, i + 1, text[i]);
      if At(text, close) == '\0' || close == i + 1 then NoPiece
      else Piece(text[i + 1..close], SkipBlanks(text, close + 1))
    else
      var sign := ScanTo(text, i, "=<>!&|");
      if sign == i then NoPiece else Piece(text[i..TrimEnd(text, i, sign)], sign)
  }

  /** The sign at `i`. */
  function SignAt(text: string, i: nat): (op: Comparison)
    requires At(text, i) == '!' ==> At(text, i + 1) == '='
    requires At(text, i) in "=<>!"
  {
    var two := At(text, i + 1) == '=';
    if At(text, i) == '=' then Equal
    else if At(text, i) == '>' then (if two then GreaterThanOrEqual else GreaterThan)
    else if At(text, i) == '<' then (if two then LessThanOrEqual else LessThan)
    else Unequal
  }

  /** The value, and the first position behind that is not part of it. */
  function ParseValue(text: string, i: nat): (p: Piece)
    requires i <= |text|
    ensures p.Piece? ==> i <= p.next <= |text|
  {
    if Quote(At(text, i)) then
      var close := QuoteEnd(text, i + 1, text[i]);
      if At(text, close) == '\0' then NoPiece
      else Piece(text[i + 1..close], SkipBlanks(text, close + 1))
    else
      var end := ScanTo(text, i, "&|)");
      Piece(text[i..TrimEnd(text, i, end)], end)
  }

  datatype Parsed = Parsed(tree: Tree, next: nat) | Malformed

  /** A pattern, when the sign allows one, is valid. */
  predicate PatternOk(op: Comparison, value: string) {
    op.Equality() && IsPattern(value) ==> ValidPattern(value, 0)
  }

  /** Equation::Equation; the score is calculated later. */
  function ParseComparison(text: string, i: nat): (r: Parsed)
    requires i <= |text|
    ensures r.Parsed? ==> i <= r.next <= |text|
  {
    match ParseAttribute(text, i)
    case NoPiece => Malformed
    case Piece(attribute, sign) =>
      if At(text, sign) !in "=<>!" || (At(text, sign) == '!' && At(text, sign + 1) != '=') || !Copyable(attribute) then Malformed
      else
        var op := SignAt(text, sign);
        var behind := SkipBlanks(text, if At(text, sign + 1) == '=' then sign + 2 else sign + 1);
        match ParseValue(text, behind)
        case NoPiece => Malformed
        case Piece(value, next) =>
          if Copyable(value) && PatternOk(op, value) then Parsed(Leaf(attribute, op, value, 0), next) else Malformed
  }

  // ---- the three levels ----

  /** Expression::IsOperator. */
  predicate IsOperator(text: string, i: nat, op: char) {
    At(text, i) == op && At(text, i + 1) == op
  }

  function ParseEquation(text: string, i: nat): (r: Parsed)
    requires i <= |text|
    ensures r.Parsed? ==> i <= r.next <= |text|
    decreases |text| - i, 0
  {
    var j := SkipBlanks(text, i);
    if At(text, j) == '!' then
      var k := SkipBlanks(text, j + 1);
      if At(text, k) != '(' then Malformed else ParseGroup(text, k, true)
    else if At(text, j) == ')' then Malformed
    else if At(text, j) == '(' then ParseGroup(text, j, false)
    else ParseComparison(text, j)
  }

  function ParseGroup(text: string, open: nat, negated: bool): (r: Parsed)
    requires open < |text|
    ensures r.Parsed? ==> open < r.next <= |text|
    decreases |text| - open - 1, 4
  {
    match ParseOr(text, SkipBlanks(text, open + 1))
    case Malformed => Malformed
    case Parsed(tree, next) =>
      var close := SkipBlanks(text, next);
      if At(text, close) != ')' then Malformed
      else Parsed(if negated then Complement(tree) else tree, SkipBlanks(text, close + 1))
  }

  function ParseAnd(text: string, i: nat): (r: Parsed)
    requires i <= |text|
    ensures r.Parsed? ==> i <= r.next <= |text|
    decreases |text| - i, 2
  {
    match ParseEquation(text, i)
    case Malformed => Malformed
    case Parsed(left, next) => AndLoop(text, left, next)
  }

  /** The loop of ParseAnd. */
  function AndLoop(text: string, left: Tree, i: nat): (r: Parsed)
    requires i <= |text|
    ensures r.Parsed? ==> i <= r.next <= |text|
    decreases |text| - i, 1
  {
    if IsOperator(text, i, '&') then
      match ParseAnd(text, i + 2)
      case Malformed => Malformed
      case Parsed(right, next) => AndLoop(text, Both(left, right), next)
    else Parsed(left, i)
  }

  function ParseOr(text: string, i: nat): (r: Parsed)
    requires i <= |text|
    ensures r.Parsed? ==> i <= r.next <= |text|
    decreases |text| - i, 3
  {
    match ParseAnd(text, i)
    case Malformed => Malformed
    case Parsed(left, next) => OrLoop(text, left, next)
  }

  /** The loop of ParseOr. */
  function OrLoop(text: string, left: Tree, i: nat): (r: Parsed)
    requires i <= |text|
    ensures r.Parsed? ==> i <= r.next <= |text|
    decreases |text| - i, 2
  {
    if IsOperator(text, i, '|') then
      match ParseAnd(text, i + 2)
      case Malformed => Malformed
      case Parsed(right, next) => OrLoop(text, Either(left, right), next)
    else Parsed(left, i)
  }
}
