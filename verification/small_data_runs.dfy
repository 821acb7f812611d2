/** The small_data section as a table from names to attributes, over any sequence of changes. */
module SmallDataRuns {
  import opened NodeLayout
  import opened NodeBytes
  import opened SmallData

  datatype Lookup = Nothing | Just(attribute: Attribute)

  datatype Change = Set(attribute: Attribute) | Drop(name: seq<Byte>)

  predicate NulFree(name: seq<Byte>) {
    forall i :: 0 <= i < |name| ==> name[i] != 0
  }

  predicate Askable(change: Change) {
    NulFree(if change.Set? then change.attribute.name else change.name)
  }

  /** The first attribute of the name. */
  function LookUp(list: seq<Attribute>, name: seq<Byte>): Lookup {
    if list == [] then Nothing
    else if list[0].name == name then Just(list[0])
    else LookUp(list[1..], name)
  }

  lemma {:induction false} LookUpJoin(a: seq<Attribute>, b: seq<Attribute>, name: seq<Byte>)
    ensures LookUp(a + b, name) == if LookUp(a, name) == Nothing then LookUp(b, name) else LookUp(a, name)
  {
    if a == [] {
      assert a + b == b;
    } else {
      assert (a + b)[1..] == a[1..] + b;
      LookUpJoin(a[1..], b, name);
    }
  }

  lemma {:induction false} LookUpAbsent(list: seq<Attribute>, name: seq<Byte>)
    requires forall i :: 0 <= i < |list| ==> list[i].name != name
    ensures LookUp(list, name) == Nothing
  {
    if list != [] {
      LookUpAbsent(list[1..], name);
    }
  }

  /** What is looked up around the place a search by name has found. */
  lemma LookUpAround(list: seq<Attribute>, index: nat, name: seq<Byte>)
    requires index < |list| && Distinct(list)
    ensures LookUp(list, name) == (if name == list[index].name then Just(list[index]) else LookUp(Without(list, index), name))
    ensures LookUp(Without(list, index), list[index].name) == Nothing
  {
    var before, a, after := list[..index], list[index], list[index + 1..];
    RejoinAround(list, index);
    LookUpJoin(before + [a], after, name);
    LookUpJoin(before, [a], name);
    LookUpJoin(before, after, name);
    LookUpAbsent(before, a.name);
    LookUpAbsent(after, a.name);
    LookUpJoin(before, after, a.name);
  }

  /** Setting an attribute changes what is found under its name, and nothing else. */
  lemma LookUpAfterPut(list: seq<Attribute>, index: nat, a: Attribute, name: seq<Byte>)
    requires AllStorable(list) && Distinct(list) && Where(list, a.name, index)
    ensures LookUp(Put(list, index, a), name) == if name == a.name && name != [] then Just(a) else LookUp(list, name)
  {
    if a.name != [] {
      if index < |list| {
        var more := Put(list, index, a);
        PutInPlace(list, index, a);
        LookUpAround(list, index, name);
        LookUpAround(more, index, name);
        assert Without(more, index) == Without(list, index);
      } else {
        LookUpJoin(list, [a], name);
        LookUpAbsent(list, a.name);
      }
    }
  }

  /** What is found under `name` after a change that was made or refused. */
  function After(was: Lookup, change: Change, made: bool, name: seq<Byte>): Lookup {
    if !made then was
    else match change
      case Set(a) => if name == a.name && name != [] then Just(a) else was
      case Drop(dropped) => if name == dropped then Nothing else was
  }

  /** What should be found under `name` after a sequence of changes. */
  function Expected(was: Lookup, changes: seq<Change>, made: seq<bool>, name: seq<Byte>): Lookup
    requires |changes| == |made|
  {
    if changes == [] then was
    else
      var last := |changes| - 1;
      After(Expected(was, changes[..last], made[..last], name), changes[last], made[last], name)
  }

  /** Where a search finds the name. */
  function Place(list: seq<Attribute>, name: seq<Byte>): (index: nat)
    ensures index <= |list|
  {
    if list == [] || list[0].name == name then 0 else 1 + Place(list[1..], name)
  }

  lemma {:induction false} PlaceIs(list: seq<Attribute>, name: seq<Byte>, index: nat)
    requires Where(list, name, index)
    ensures index == Place(list, name)
  {
    if index > 0 {
      PlaceIs(list[1..], name, index - 1);
    }
  }

  function NameOf(change: Change): seq<Byte> {
    if change.Set? then change.attribute.name else change.name
  }

  /** A change can be made: the attribute fits, or it is there to be dropped. */
  predicate Possible(list: seq<Attribute>, change: Change, capacity: nat)
    requires AllStorable(list)
  {
    match change
    case Set(a) => RoomNeeded(list, Place(list, a.name), |a.name|, |a.data|) <= capacity
    case Drop(name) => Place(list, name) < |list|
  }

  function Made(list: seq<Attribute>, change: Change): seq<Attribute>
    requires change.Drop? ==> Place(list, change.name) < |list|
  {
    match change
    case Set(a) => Put(list, Place(list, a.name), a)
    case Drop(name) => Without(list, Place(list, name))
  }

  /** The lists of a section of that size, one after each change; a change is made exactly when it can be. */
  ghost predicate Served(lists: seq<seq<Attribute>>, changes: seq<Change>, made: seq<bool>, capacity: nat) {
    && |lists| == |changes| + 1 && |made| == |changes|
    && (forall k :: 0 <= k < |lists| ==> AllStorable(lists[k]) && Distinct(lists[k]))
    && forall k :: 0 <= k < |changes| ==>
         && (made[k] <==> Possible(lists[k], changes[k], capacity))
         && lists[k + 1] == if made[k] then Made(lists[k], changes[k]) else lists[k]
  }

  lemma OneChange(was: seq<Attribute>, change: Change, name: seq<Byte>)
    requires AllStorable(was) && Distinct(was) && Where(was, NameOf(change), Place(was, NameOf(change)))
    requires change.Drop? ==> Place(was, change.name) < |was|
    ensures LookUp(Made(was, change), name) == After(LookUp(was, name), change, true, name)
  {
    match change
    case Set(a) => LookUpAfterPut(was, Place(was, a.name), a, name);
    case Drop(dropped) => LookUpAround(was, Place(was, dropped), name);
  }

  lemma {:induction false} PlaceIsWhere(list: seq<Attribute>, name: seq<Byte>)
    ensures Where(list, name, Place(list, name))
  {
    if list != [] && list[0].name != name {
      PlaceIsWhere(list[1..], name);
      forall i | 0 <= i < Place(list, name) ensures list[i].name != name {
        if i > 0 {
          assert list[1..][i - 1] == list[i];
        }
      }
    }
  }

  /** So looking up any name gives what a table would. */
  lemma {:induction false} ServedAsTable(lists: seq<seq<Attribute>>, changes: seq<Change>, made: seq<bool>, capacity: nat, name: seq<Byte>)
    requires Served(lists, changes, made, capacity)
    ensures LookUp(lists[|changes|], name) == Expected(LookUp(lists[0], name), changes, made, name)
    decreases |changes|
  {
    hide LookUp, Put, Without, Distinct, AllStorable;
    if changes != [] {
      var last := |changes| - 1;
      ServedAsTable(lists[..last + 1], changes[..last], made[..last], capacity, name);
      PlaceIsWhere(lists[last], NameOf(changes[last]));
      if made[last] {
        OneChange(lists[last], changes[last], name);
      }
    }
  }

  /** Over any sequence of changes the section agrees with the table, and makes every change that can be made. */
  method Apply(section: SmallDataSection, changes: seq<Change>, ghost list: seq<Attribute>)
      returns (made: seq<bool>, ghost lists: seq<seq<Attribute>>)
    requires Stores(section.area[..], list) && section.area.Length < 0x1_0000
    requires forall c :: c in changes ==> Askable(c)
    modifies section.area
    ensures Served(lists, changes, made, section.area.Length) && lists[0] == list && Stores(section.area[..], lists[|changes|])
    ensures forall name :: LookUp(lists[|changes|], name) == Expected(LookUp(list, name), changes, made, name)
  {
    hide LookUp, Packed, Put, Without, At, IsLast, Distinct, Where, RoomNeeded, AllStorable;
    made, lists := [], [list];
    StoredAre(section.area[..], list);
    for k := 0 to |changes|
      invariant Served(lists, changes[..k], made, section.area.Length) && lists[0] == list
      invariant Stores(section.area[..], lists[k])
    {
      ghost var was, now := lists[k], lists[k];
      assert Askable(changes[k]);
      var ok: bool;
      ghost var index: nat;
      match changes[k] {
        case Set(a) =>
          ok, index := section.Add(a.kind, a.name, a.data, was);
          PlaceIs(was, a.name, index);
        case Drop(name) =>
          ok, index := section.Remove(name, was);
          PlaceIs(was, name, index);
      }
      if ok {
        now := Made(was, changes[k]);
      }
      StoredAre(section.area[..], now);
      made, lists := made + [ok], lists + [now];
    }
    assert changes[..|changes|] == changes;
    forall name ensures LookUp(lists[|changes|], name) == Expected(LookUp(list, name), changes, made, name) {
      ServedAsTable(lists, changes, made, section.area.Length, name);
    }
  }

  lemma StoredAre(b: seq<Byte>, list: seq<Attribute>)
    requires Stores(b, list)
    ensures AllStorable(list) && Distinct(list)
  {
  }

  /** After any sequence of changes, reading an attribute gives the type and the data of the table. */
  method ReadAfter(section: SmallDataSection, changes: seq<Change>, ghost list: seq<Attribute>, name: seq<Byte>, pos: int, length: nat)
      returns (made: seq<bool>, found: bool, kind: Kind, data: seq<Byte>)
    requires Stores(section.area[..], list) && section.area.Length < 0x1_0000
    requires NulFree(name) && forall c :: c in changes ==> Askable(c)
    modifies section.area
    ensures |made| == |changes|
    ensures (match Expected(LookUp(list, name), changes, made, name)
             case Nothing => !found
             case Just(a) => found && kind == a.kind && data == Window(a.data, pos, length))
  {
    hide LookUp, Stores, Where, Served, Window;
    ghost var lists;
    made, lists := Apply(section, changes, list);
    ServedSizes(lists, changes, made, section.area.Length);
    found, kind, data := section.ReadAttribute(name, pos, length, lists[|changes|]);
    LookUpIs(lists[|changes|], name);
  }

  lemma ServedSizes(lists: seq<seq<Attribute>>, changes: seq<Change>, made: seq<bool>, capacity: nat)
    requires Served(lists, changes, made, capacity)
    ensures |lists| == |changes| + 1 && |made| == |changes|
  {
  }

  lemma {:induction false} LookUpIs(list: seq<Attribute>, name: seq<Byte>)
    ensures LookUp(list, name) == Nothing <==> forall i :: 0 <= i < |list| ==> list[i].name != name
    ensures LookUp(list, name).Just? ==> exists i :: 0 <= i < |list| && list[i].name == name && LookUp(list, name) == Just(list[i])
  {
    if list != [] && list[0].name != name {
      LookUpIs(list[1..], name);
      assert forall i :: 0 < i < |list| ==> list[i] == list[1..][i - 1];
      if LookUp(list, name).Just? {
        var i :| 0 <= i < |list[1..]| && list[1..][i].name == name && LookUp(list, name) == Just(list[1..][i]);
        assert list[i + 1] == list[1..][i];
      }
    }
  }
}
