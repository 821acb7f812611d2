/** The parser as it runs: a position moved along the text, and terms linked as they are read
    (Query.cpp: Expression and the Equation constructor). */
module QueryExpression {
  import opened QueryTree
  import opened QueryParser
  import opened QueryTerms
  import QueryRendering
  import QueryText

  // ---- scanning ----

  method SkipWhitespace(text: string, i: nat) returns (j: nat)
    ensures j == SkipBlanks(text, i)
  {
    j := i;
    while Blank(At(text, j))
      invariant i <= j && SkipBlanks(text, j) == SkipBlanks(text, i)
      decreases |text| - j
    {
      j := j + 1;
    }
  }

  method Scan(text: string, i: nat, stops: string) returns (j: nat)
    ensures j == ScanTo(text, i, stops)
  {
    j := i;
    while At(text, j) != '\0' && At(text, j) !in stops
      invariant i <= j && ScanTo(text, j, stops) == ScanTo(text, i, stops)
      decreases |text| - j
    {
      j := j + 1;
    }
  }

  method SkipWhitespaceReverse(text: string, start: nat, end: nat) returns (j: nat)
    requires end <= |text|
    ensures j == TrimEnd(text, start, end)
  {
    j := end;
    while j > start + 1 && Blank(text[j - 1])
      invariant j <= end && TrimEnd(text, start, j) == TrimEnd(text, start, end)
    {
      j := j - 1;
    }
  }

  method ParseQuotedString(text: string, i: nat, quote: char) returns (close: nat)
    ensures close == QuoteEnd(text, i, quote)
  {
    close := i;
    while At(text, close) != '\0' && At(text, close) != quote
      invariant i <= close && QuoteEnd(text, close, quote) == QuoteEnd(text, i, quote)
      decreases |text| - close
    {
      if text[close] == '\\' {
        close := close + 1;
      }
      close := close + 1;
    }
  }

  // ---- reading ----

  /** What a parsing method hands back: nothing for malformed text, or the linked form of the tree. */
  ghost predicate Reads(term: Term?, next: nat, r: Parsed)
    reads if term == null then {} else term.family
  {
    match r
    case Malformed => term == null
    case Parsed(tree, behind) =>
      term != null && term.Valid() && term.parent == null && term in term.family && term.Value() == tree && next == behind
  }

  /** Equation::Equation and its InitCheck. */
  method ReadComparison(text: string, i: nat) returns (term: Term?, next: nat)
    requires i <= |text|
    ensures Reads(term, next, ParseComparison(text, i)) && (term != null ==> fresh(term.family))
  {
    hide Term.Valid, Term.Value, Term.Shaped, SkipBlanks, ParseAttribute, ParseValue, PatternOk, SignAt;
    term, next := null, i;
    var attribute, sign := ReadAttribute(text, i);
    if sign == i || At(text, sign) !in "=<>!" || (At(text, sign) == '!' && At(text, sign + 1) != '=') || !Copyable(attribute) {
      return;
    }
    var op := SignAt(text, sign);
    var behind := SkipWhitespace(text, if At(text, sign + 1) == '=' then sign + 2 else sign + 1);
    var ok: bool, value: string, end: nat;
    ok, value, end := ReadValue(text, behind);
    if !ok || !Copyable(value) || !PatternOk(op, value) {
      return;
    }
    term := new Term.Equation(attribute, op, value);
    next := end;
  }

  /** The attribute's name; a position that has not moved means there is none. */
  method ReadAttribute(text: string, i: nat) returns (attribute: string, sign: nat)
    requires i <= |text|
    ensures match ParseAttribute(text, i) case NoPiece => sign == i case Piece(s, n) => attribute == s && sign == n
  {
    attribute, sign := "", i;
    if Quote(At(text, i)) {
      var close := ParseQuotedString(text, i + 1, text[i]);
      if At(text, close) == '\0' || close == i + 1 {
        return;
      }
      attribute := text[i + 1..close];
      sign := SkipWhitespace(text, close + 1);
    } else {
      sign := Scan(text, i, "=<>!&|");
      if sign == i {
        return;
      }
      var end := SkipWhitespaceReverse(text, i, sign);
      attribute := text[i..end];
    }
  }

  method ReadValue(text: string, i: nat) returns (ok: bool, value: string, next: nat)
    requires i <= |text|
    ensures match ParseValue(text, i) case NoPiece => !ok case Piece(s, n) => ok && value == s && next == n
  {
    ok, value, next := true, "", i;
    if Quote(At(text, i)) {
      var close := ParseQuotedString(text, i + 1, text[i]);
      if At(text, close) == '\0' {
        return false, value, next;
      }
      value := text[i + 1..close];
      next := SkipWhitespace(text, close + 1);
    } else {
      next := Scan(text, i, "&|)");
      var end := SkipWhitespaceReverse(text, i, next);
      value := text[i..end];
    }
  }

  method ReadEquation(text: string, i: nat) returns (term: Term?, next: nat)
    requires i <= |text|
    ensures Reads(term, next, ParseEquation(text, i)) && (term != null ==> fresh(term.family))
    decreases |text| - i, 0
  {
    hide Term.Valid, Term.Value, Term.Shaped, SkipBlanks, ParseGroup, ParseComparison;
    term, next := null, i;
    var j := SkipWhitespace(text, i);
    var negated := false;
    if At(text, j) == '!' {
      j := SkipWhitespace(text, j + 1);
      if At(text, j) != '(' {
        return;
      }
      negated := true;
    }
    if At(text, j) == ')' {
      return;
    } else if At(text, j) == '(' {
      term, next := ReadGroup(text, j, negated);
    } else {
      term, next := ReadComparison(text, j);
    }
  }

  method ReadGroup(text: string, open: nat, negated: bool) returns (term: Term?, next: nat)
    requires open < |text|
    ensures Reads(term, next, ParseGroup(text, open, negated)) && (term != null ==> fresh(term.family))
    decreases |text| - open - 1, 4
  {
    hide Term.Valid, Term.Value, Term.Shaped, SkipBlanks, ParseOr;
    var start := SkipWhitespace(text, open + 1);
    term, next := ReadOr(text, start);
    if term == null {
      return;
    }
    var close := SkipWhitespace(text, next);
    if At(text, close) != ')' {
      term := null;
      return;
    }
    if negated {
      term.Complement();
    }
    next := SkipWhitespace(text, close + 1);
  }

  method ReadAnd(text: string, i: nat) returns (term: Term?, next: nat)
    requires i <= |text|
    ensures Reads(term, next, ParseAnd(text, i)) && (term != null ==> fresh(term.family))
    decreases |text| - i, 2
  {
    hide Term.Valid, Term.Value, Term.Shaped, SkipBlanks, ParseEquation;
    term, next := ReadEquation(text, i);
    if term == null {
      return;
    }
    while IsOperator(text, next, '&')
      invariant i <= next <= |text| && term != null && fresh(term.family)
      invariant term.Valid() && term.parent == null && term in term.family
      invariant AndLoop(text, term.Value(), next) == ParseAnd(text, i)
      decreases |text| - next
    {
      var right: Term?, behind: nat;
      right, behind := ReadAnd(text, next + 2);
      if right == null {
        return null, next;
      }
      var left: Term := term;
      term := new Term.Operator(left, And, right);
      next := behind;
    }
  }

  method ReadOr(text: string, i: nat) returns (term: Term?, next: nat)
    requires i <= |text|
    ensures Reads(term, next, ParseOr(text, i)) && (term != null ==> fresh(term.family))
    decreases |text| - i, 3
  {
    hide Term.Valid, Term.Value, Term.Shaped, SkipBlanks, ParseAnd;
    term, next := ReadAnd(text, i);
    if term == null {
      return;
    }
    while IsOperator(text, next, '|')
      invariant i <= next <= |text| && term != null && fresh(term.family)
      invariant term.Valid() && term.parent == null && term in term.family
      invariant OrLoop(text, term.Value(), next) == ParseOr(text, i)
      decreases |text| - next
    {
      var right: Term?, behind: nat;
      right, behind := ReadAnd(text, next + 2);
      if right == null {
        return null, next;
      }
      var left: Term := term;
      term := new Term.Operator(left, Or, right);
      next := behind;
    }
  }

  /** Reading what was written for a tree links up that tree. */
  method ReadBack(t: Tree) returns (root: Term)
    requires QueryRendering.Writable(t)
    ensures root.Valid() && root.parent == null && root.Value() == t
  {
    var text := QueryText.ShowOr(QueryRendering.OrOf(t));
    QueryRendering.RoundTrip(t);
    var next: nat;
    var term: Term?;
    term, next := ReadOr(text, 0);
    root := term;
  }
}
