/** An open iterator over whole runs: what it returns while keys come and go (BPlusTree.cpp). */
module CursorRuns {
  import opened TreeShape
  import opened TreeHousing
  import opened TreeCursor
  import opened BPlusTrees

  datatype Event = Returned(ord: real) | Exhausted | Added(ord: real) | Dropped(ord: real)

  /** The stored pairs, and how far the iterator has got. */
  datatype State = State(contents: map<real, int>, cut: real)

  ghost predicate EventStep(s: State, e: Event, s': State) {
    match e
    case Returned(ord) => s'.contents == s.contents && ReturnStep(s.contents, s.cut, ord, s'.cut)
    case Exhausted => s' == s && forall ord :: ord in s.contents ==> ord <= s.cut
    case Added(ord) => s'.contents.Keys == s.contents.Keys + {ord} && AddStep(s.contents, s.cut, ord, s'.cut)
    case Dropped(ord) => s'.contents == s.contents - {ord} && TakeStep(s.contents, s.cut, ord, s'.cut)
  }

  ghost predicate Trace(states: seq<State>, events: seq<Event>) {
    && |states| == |events| + 1
    && forall i :: 0 <= i < |events| ==> StepAt(states, events, i)
  }

  ghost predicate StepAt(states: seq<State>, events: seq<Event>, i: int)
    requires 0 <= i < |events| && |states| == |events| + 1
  {
    EventStep(states[i], events[i], states[i + 1])
  }

  ghost predicate Throughout(states: seq<State>, ord: real) {
    forall i :: 0 <= i < |states| ==> ord in states[i].contents
  }

  /** Passing a key that is there all along takes exactly its being returned. */
  lemma {:induction false} PassedWhenReturned(states: seq<State>, events: seq<Event>, ord: real, i: nat)
    requires Trace(states, events) && Throughout(states, ord) && states[0].cut < ord && i < |states|
    ensures ord <= states[i].cut <==> exists a :: 0 <= a < i && events[a] == Returned(ord)
  {
    if i > 0 {
      PassedWhenReturned(states, events, ord, i - 1);
      assert StepAt(states, events, i - 1);
      if ord <= states[i].cut && states[i - 1].cut < ord {
        assert events[i - 1] == Returned(ord);
      }
    }
  }

  /** A key ahead that is there all along is returned at most once. */
  lemma ReturnedAtMostOnce(states: seq<State>, events: seq<Event>, ord: real, a: nat, b: nat)
    requires Trace(states, events) && Throughout(states, ord) && states[0].cut < ord
    requires a < |events| && b < |events| && events[a] == Returned(ord) && events[b] == Returned(ord)
    ensures a == b
  {
    var low, high := if a < b then a else b, if a < b then b else a;
    PassedWhenReturned(states, events, ord, high);
    assert StepAt(states, events, high);
  }

  /** And exactly once by the time the iterator finds nothing more. */
  lemma ReturnedByTheEnd(states: seq<State>, events: seq<Event>, ord: real, end: nat) returns (a: nat)
    requires Trace(states, events) && Throughout(states, ord) && states[0].cut < ord
    requires end < |events| && events[end] == Exhausted
    ensures a < end && events[a] == Returned(ord)
  {
    assert StepAt(states, events, end);
    PassedWhenReturned(states, events, ord, end);
    a :| 0 <= a < end && events[a] == Returned(ord);
  }

  /** Keys that are there all along come in ascending order, and none is left out. */
  lemma ReturnedInOrder(states: seq<State>, events: seq<Event>, low: real, high: real, b: nat) returns (a: nat)
    requires Trace(states, events) && Throughout(states, low) && Throughout(states, high)
    requires states[0].cut < low < high && b < |events| && events[b] == Returned(high)
    ensures a < b && events[a] == Returned(low)
  {
    assert StepAt(states, events, b);
    PassedWhenReturned(states, events, low, b + 1);
    a :| 0 <= a < b + 1 && events[a] == Returned(low);
  }

  /** Keys already behind the iterator are not returned again as long as they stay. */
  lemma {:induction false} BehindStaysBehind(states: seq<State>, events: seq<Event>, ord: real, i: nat)
    requires Trace(states, events) && Throughout(states, ord) && ord <= states[0].cut && i < |states|
    ensures ord <= states[i].cut && (i < |events| ==> events[i] != Returned(ord))
  {
    if i > 0 {
      BehindStaysBehind(states, events, ord, i - 1);
      assert StepAt(states, events, i - 1);
    }
    if i < |events| {
      assert StepAt(states, events, i);
    }
  }

  // ---- The tree runs so ----

  datatype Request = Next | Put(key: Key, value: int) | Take(key: Key)

  ghost predicate Sound(requests: seq<Request>) {
    forall i :: 0 <= i < |requests| ==> requests[i].Next? || 0.0 <= requests[i].key.ord < 1.0
  }

  /** Any mix of steps of the iterator, inserts that need no split, and removals of keys that are there,
      is a trace; other requests are passed over. */
  method Drive(it: TreeIterator, requests: seq<Request>) returns (events: seq<Event>, ghost states: seq<State>)
    requires it.tree != null && it.Valid() && Sound(requests)
    modifies it`node, it`index, it`cut, it.tree, it.tree.iterators`node, it.tree.iterators`index, it.tree.iterators`cut
    ensures it.tree == old(it.tree) && it.Valid()
    ensures Trace(states, events)
    ensures states[0] == State(old(it.tree.contents), old(it.cut)) && states[|events|] == State(it.tree.contents, it.cut)
  {
    hide AtRest, AtCut, AddStep, TakeStep, ReturnStep, ShortTree;
    var tree: BPlusTree := it.tree;
    events, states := [], [State(tree.contents, it.cut)];
    for i := 0 to |requests|
      invariant it.tree == tree && tree.iterators == old(it.tree.iterators) && it in tree.iterators
      invariant it.Valid() && Trace(states, events)
      invariant states[0] == State(old(it.tree.contents), old(it.cut)) && states[|events|] == State(tree.contents, it.cut)
    {
      var happened, event := Serve(it, requests[i]);
      if happened {
        Extend(states, events, event, State(tree.contents, it.cut));
        events := events + [event];
        states := states + [State(tree.contents, it.cut)];
      }
    }
  }

  method Serve(it: TreeIterator, request: Request) returns (happened: bool, event: Event)
    requires it.tree != null && it.Valid() && (request.Next? || 0.0 <= request.key.ord < 1.0)
    modifies it`node, it`index, it`cut, it.tree, it.tree.iterators`node, it.tree.iterators`index, it.tree.iterators`cut
    ensures it.tree == old(it.tree) && it.tree.iterators == old(it.tree.iterators) && it.Valid()
    ensures happened ==> EventStep(State(old(it.tree.contents), old(it.cut)), event, State(it.tree.contents, it.cut))
    ensures !happened ==> it.tree.contents == old(it.tree.contents) && it.cut == old(it.cut)
  {
    hide AtRest, AtCut, AddStep, TakeStep, ReturnStep, ShortTree;
    var tree: BPlusTree := it.tree;
    happened, event := false, Exhausted;
    match request {
      case Next =>
        var status, key, value := it.Traverse();
        happened, event := true, if status == Ok then Returned(key.ord) else Exhausted;
      case Put(key, value) =>
        var room := false;
        if LengthOk(key) {
          room := tree.RoomAt(key);
        }
        var found, _ := tree.Find(key);
        if room && found == NotFound {
          var status := tree.Insert(key, value);
          happened, event := true, Added(key.ord);
        }
      case Take(key) =>
        var found, _ := tree.Find(key);
        if found == Ok {
          var status := tree.Remove(key);
          happened, event := true, Dropped(key.ord);
        }
    }
  }

  lemma Extend(states: seq<State>, events: seq<Event>, e: Event, s: State)
    requires Trace(states, events) && EventStep(states[|events|], e, s)
    ensures Trace(states + [s], events + [e])
  {
    var states', events' := states + [s], events + [e];
    forall i | 0 <= i < |events'| ensures StepAt(states', events', i) {
      if i < |events| {
        assert StepAt(states, events, i);
      }
    }
  }
}
