/** Which patterns a comparison takes (Query.cpp: isValidPattern). */
module QueryPatterns {
  import opened QueryParser
  import T = QueryText

  /** A character of a set, escaped or not. */
  datatype Member = Plain(c: char) | Masked(c: char)

  datatype Part = Char(c: char) | Escaped(c: char) | Set(members: seq<Member>)

  function ShowMember(m: Member): string {
    if m.Plain? then [m.c] else ['\\', m.c]
  }

  function ShowMembers(members: seq<Member>): string {
    if members == [] then [] else ShowMember(members[0]) + ShowMembers(members[1..])
  }

  function ShowPart(part: Part): string {
    match part
    case Char(c) => [c]
    case Escaped(c) => ['\\', c]
    case Set(members) => ['['] + ShowMembers(members) + [']']
  }

  function ShowParts(parts: seq<Part>): string {
    if parts == [] then [] else ShowPart(parts[0]) + ShowParts(parts[1..])
  }

  /** No dash may stand in front of another that is not escaped. */
  predicate MembersOk(members: seq<Member>) {
    forall i :: 0 <= i < |members| ==>
      && members[i].c != '\0' && (members[i].Plain? ==> members[i].c != ']' && members[i].c != '\\')
      && (members[i].c == '-' && i + 1 < |members| ==> members[i + 1] != Plain('-'))
  }

  predicate PartOk(part: Part) {
    match part
    case Char(c) => c != '\0' && c != '\\' && c != '['
    case Escaped(c) => c != '\0'
    case Set(members) => members != [] && MembersOk(members)
  }

  predicate PartsOk(parts: seq<Part>) {
    forall i :: 0 <= i < |parts| ==> PartOk(parts[i])
  }

  predicate NoNul(s: string) {
    forall i :: 0 <= i < |s| ==> s[i] != '\0'
  }

  /** A set is read to its end. */
  lemma {:induction false} MembersAreValid(s: string, i: nat, members: seq<Member>)
    requires MembersOk(members) && T.On(s, i, ShowMembers(members)) && T.On(s, i + |ShowMembers(members)|, "]")
    ensures ValidSet(s, i) <==> ValidPattern(s, i + |ShowMembers(members)|)
    decreases |members|
  {
    hide T.On;
    if members == [] {
      T.OnAt(s, i, "]", 0);
    } else {
      var shown, rest := ShowMember(members[0]), members[1..];
      T.OnJoin(s, i, shown, ShowMembers(rest));
      MembersAreValid(s, i + |shown|, rest);
      MemberRead(s, i, members[0]);
      if rest == [] {
        T.OnAt(s, i + |shown|, "]", 0);
      } else {
        T.OnJoin(s, i + |shown|, ShowMember(rest[0]), ShowMembers(rest[1..]));
        MemberRead(s, i + |shown|, rest[0]);
      }
    }
  }

  lemma MemberRead(s: string, i: nat, m: Member)
    requires T.On(s, i, ShowMember(m))
    ensures |ShowMember(m)| == (if m.Plain? then 1 else 2) && i + |ShowMember(m)| <= |s|
    ensures s[i] == (if m.Plain? then m.c else '\\') && s[i + |ShowMember(m)| - 1] == m.c
  {
    T.OnAt(s, i, ShowMember(m), 0);
    T.OnAt(s, i, ShowMember(m), |ShowMember(m)| - 1);
  }

  lemma {:induction false} PartsAreValid(s: string, i: nat, parts: seq<Part>)
    requires PartsOk(parts) && T.On(s, i, ShowParts(parts)) && i + |ShowParts(parts)| == |s|
    ensures ValidPattern(s, i)
    decreases |parts|
  {
    hide T.On;
    if parts != [] {
      var shown, rest := ShowPart(parts[0]), parts[1..];
      T.OnJoin(s, i, shown, ShowParts(rest));
      PartsAreValid(s, i + |shown|, rest);
      PartIsValid(s, i, parts[0]);
    }
  }

  /** A part is read to its end. */
  lemma PartIsValid(s: string, i: nat, part: Part)
    requires PartOk(part) && T.On(s, i, ShowPart(part)) && ValidPattern(s, i + |ShowPart(part)|)
    ensures ValidPattern(s, i)
  {
    hide T.On;
    T.OnAt(s, i, ShowPart(part), 0);
    match part {
      case Char(_) =>
      case Escaped(_) =>
        T.OnAt(s, i, ShowPart(part), 1);
      case Set(members) =>
        var inner := ShowMembers(members);
        T.OnJoin(s, i, ['['] + inner, [']']);
        T.OnJoin(s, i, ['['], inner);
        assert |['['] + inner| == 1 + |inner|;
        MembersAreValid(s, i + 1, members);
        T.OnAt(s, i + 1 + |inner|, [']'], 0);
        T.OnJoin(s, i + 1, ShowMember(members[0]), ShowMembers(members[1..]));
        MemberRead(s, i + 1, members[0]);
    }
  }

  /** A pattern is valid exactly when it is made of characters, escaped characters, and sets that are not empty, are
      closed, and have no dash in front of a bare one. */
  lemma ValidPatternIff(s: string)
    requires NoNul(s)
    ensures ValidPattern(s, 0) <==> exists parts :: PartsOk(parts) && ShowParts(parts) == s
  {
    if parts :| PartsOk(parts) && ShowParts(parts) == s {
      assert s[0..|s|] == s;
      PartsAreValid(s, 0, parts);
    }
    if ValidPattern(s, 0) {
      var parts := ReadParts(s, 0);
      assert s[0..] == s;
    }
  }

  lemma {:induction false} ReadParts(s: string, i: nat) returns (parts: seq<Part>)
    requires NoNul(s) && i <= |s| && ValidPattern(s, i)
    ensures PartsOk(parts) && ShowParts(parts) == s[i..]
    decreases |s| - i
  {
    hide ShowParts, ShowMembers, ValidPattern, ValidSet, MembersOk;
    if i == |s| {
      NoParts();
      return [];
    }
    PatternStep(s, i);
    var part, next;
    if s[i] == '\\' {
      part, next := Escaped(s[i + 1]), i + 2;
    } else if s[i] == '[' {
      var members, close := ReadMembers(s, i + 1);
      part, next := Set(members), close + 1;
      SetText(s, i, close);
      PatternStep(s, close);
    } else {
      part, next := Char(s[i]), i + 1;
    }
    var rest := ReadParts(s, next);
    parts := [part] + rest;
    ShowNext(part, rest);
    Slices(s, i, next);
  }

  lemma NoParts()
    ensures ShowParts([]) == []
  {
  }

  lemma ShowNext(part: Part, rest: seq<Part>)
    ensures ShowParts([part] + rest) == ShowPart(part) + ShowParts(rest)
  {
    assert ([part] + rest)[1..] == rest;
  }

  lemma Slices(s: string, i: nat, j: nat)
    requires i <= j <= |s|
    ensures s[i..] == s[i..j] + s[j..]
  {
  }

  lemma SetText(s: string, i: nat, close: nat)
    requires i < close < |s| && s[i] == '[' && s[close] == ']'
    ensures s[i..close + 1] == ['['] + s[i + 1..close] + [']']
  {
  }

  lemma PatternStep(s: string, i: nat)
    requires NoNul(s) && i < |s| && ValidPattern(s, i)
    ensures s[i] == '\\' ==> i + 1 < |s| && ValidPattern(s, i + 2)
    ensures s[i] == '[' ==> i + 1 < |s| && s[i + 1] != ']' && ValidSet(s, i + 1)
    ensures s[i] != '\\' && s[i] != '[' ==> ValidPattern(s, i + 1)
  {
  }

  lemma {:induction false} ReadMembers(s: string, i: nat) returns (members: seq<Member>, close: nat)
    requires NoNul(s) && i <= |s| && ValidSet(s, i)
    ensures i <= close < |s| && s[close] == ']' && ValidPattern(s, close) && MembersOk(members)
    ensures ShowMembers(members) == s[i..close] && (close > i <==> members != [])
    ensures members != [] && members[0] == Plain('-') ==> s[i] == '-'
    decreases |s| - i
  {
    if At(s, i) == ']' {
      return [], i;
    }
    var j := if s[i] == '\\' then i + 1 else i;
    var member := if s[i] == '\\' then Masked(s[j]) else Plain(s[i]);
    var rest;
    rest, close := ReadMembers(s, j + 1);
    members := [member] + rest;
    assert members[1..] == rest && s[i..close] == s[i..j + 1] + s[j + 1..close];
    forall k | 0 <= k < |members|
      ensures members[k].c != '\0' && (members[k].Plain? ==> members[k].c != ']' && members[k].c != '\\')
      ensures members[k].c == '-' && k + 1 < |members| ==> members[k + 1] != Plain('-') {
      assert k > 0 ==> members[k] == rest[k - 1];
      assert k + 1 < |members| ==> members[k + 1] == rest[k];
    }
  }
}
