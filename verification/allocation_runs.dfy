/** What holds over any sequence of allocations and frees. */
module AllocationRuns {
  import opened BitmapWords
  import opened AllocationGroups
  import opened RunSearch
  import opened BlockAllocators

  /** A caller's wish: some blocks, or giving back the run it got as number `index` of those it holds. */
  datatype Request = Take(group: nat, start: nat, maximum: nat, minimum: nat) | GiveBack(index: nat)

  predicate Sensible(r: Request) {
    r.Take? && r.maximum > 0 ==> 1 <= r.minimum <= r.maximum
  }

  predicate InRun(groups: seq<AllocationGroup>, run: BlockRun, n: nat) {
    && run.group < |groups|
    && First(groups, run.group) + run.start <= n < First(groups, run.group) + run.start + run.length
  }

  predicate Covered(groups: seq<AllocationGroup>, live: seq<BlockRun>, n: nat) {
    exists i :: 0 <= i < |live| && InRun(groups, live[i], n)
  }

  /** The bitmap is the one of the beginning plus the runs that are held, none of which meets another or
      what was in use at the beginning. */
  ghost predicate Holds(groups: seq<AllocationGroup>, before: seq<Word>, now: seq<Word>, live: seq<BlockRun>) {
    && |now| == |before|
    && (forall n {:trigger Used(now, n)} :: 0 <= n < 32 * |now| ==> (Used(now, n) <==> Used(before, n) || Covered(groups, live, n)))
    && (forall i, n: nat {:trigger InRun(groups, live[i], n)} ::
          0 <= i < |live| && InRun(groups, live[i], n) ==> n < 32 * |now| && !Used(before, n))
    && (forall i, j, n: nat {:trigger InRun(groups, live[i], n), InRun(groups, live[j], n)} ::
          0 <= i < j < |live| && InRun(groups, live[i], n) ==> !InRun(groups, live[j], n))
  }

  function Total(live: seq<BlockRun>): nat {
    if live == [] then 0 else Total(live[..|live| - 1]) + live[|live| - 1].length
  }

  lemma Took(groups: seq<AllocationGroup>, before: seq<Word>, now: seq<Word>, next: seq<Word>, live: seq<BlockRun>, run: BlockRun)
    requires Holds(groups, before, now, live) && run.group < |groups|
    requires First(groups, run.group) + run.start + run.length <= 32 * |now|
    requires FreeRun(now, First(groups, run.group) + run.start, run.length)
    requires Marked(now, next, First(groups, run.group) + run.start, First(groups, run.group) + run.start + run.length, true)
    ensures Holds(groups, before, next, live + [run])
    ensures Total(live + [run]) == Total(live) + run.length
  {
    hide Used;
    var more := live + [run];
    assert more[..|live|] == live;
    forall n: nat ensures Covered(groups, more, n) <==> Covered(groups, live, n) || InRun(groups, run, n) {
      if Covered(groups, live, n) {
        var i :| 0 <= i < |live| && InRun(groups, live[i], n);
        assert InRun(groups, more[i], n);
      }
      if InRun(groups, run, n) {
        assert InRun(groups, more[|live|], n);
      }
    }
    forall i, n: nat | 0 <= i < |more| && InRun(groups, more[i], n) ensures n < 32 * |next| && !Used(before, n) {
      if i == |live| {
        assert !Used(now, n);
      }
    }
    forall i, j, n: nat | 0 <= i < j < |more| && InRun(groups, more[i], n) ensures !InRun(groups, more[j], n) {
      if j == |live| {
        assert Covered(groups, live, n) && Used(now, n);
      }
    }
  }

  lemma {:induction false} TotalWithout(live: seq<BlockRun>, k: nat)
    requires k < |live|
    ensures Total(live[..k] + live[k + 1..]) == Total(live) - live[k].length
  {
    var last := |live| - 1;
    var rest := live[..k] + live[k + 1..];
    if k == last {
      assert rest == live[..last];
    } else {
      TotalWithout(live[..last], k);
      assert rest[..|rest| - 1] == live[..last][..k] + live[..last][k + 1..];
      assert rest[|rest| - 1] == live[last];
    }
  }

  lemma GaveBack(groups: seq<AllocationGroup>, before: seq<Word>, now: seq<Word>, next: seq<Word>, live: seq<BlockRun>, k: nat)
    requires Holds(groups, before, now, live) && k < |live| && live[k].group < |groups|
    requires Marked(now, next, First(groups, live[k].group) + live[k].start,
                    First(groups, live[k].group) + live[k].start + live[k].length, false)
    ensures Holds(groups, before, next, live[..k] + live[k + 1..])
  {
    hide Used;
    var rest := live[..k] + live[k + 1..];
    assert forall i :: 0 <= i < |rest| ==> rest[i] == live[if i < k then i else i + 1];
    forall n: nat | n < 32 * |next| ensures Used(next, n) <==> Used(before, n) || Covered(groups, rest, n) {
      if InRun(groups, live[k], n) {
        forall i | 0 <= i < |rest| ensures !InRun(groups, rest[i], n) {
          assert rest[i] == live[if i < k then i else i + 1];
        }
      } else {
        if Covered(groups, live, n) {
          var i :| 0 <= i < |live| && InRun(groups, live[i], n);
          assert InRun(groups, rest[if i < k then i else i - 1], n);
        }
        if Covered(groups, rest, n) {
          var i :| 0 <= i < |rest| && InRun(groups, rest[i], n);
          assert InRun(groups, live[if i < k then i else i + 1], n);
        }
      }
    }
    forall i, n: nat | 0 <= i < |rest| && InRun(groups, rest[i], n) ensures n < 32 * |next| && !Used(before, n) {
      assert InRun(groups, live[if i < k then i else i + 1], n);
    }
    forall i, j, n: nat | 0 <= i < j < |rest| && InRun(groups, rest[i], n) ensures !InRun(groups, rest[j], n) {
      assert InRun(groups, live[if i < k then i else i + 1], n);
      assert !InRun(groups, live[if j < k then j else j + 1], n);
    }
  }

  /** The boot block, the bitmap and the log are in use. */
  ghost predicate ReservedUsed(words: seq<Word>, reserved: nat) {
    reserved <= 32 * |words| && AllAre(words, 0, reserved, true)
  }

  /** A held run is in use and not reserved, so that it may be given back. */
  lemma MayGiveBack(a: BlockAllocator, before: seq<Word>, live: seq<BlockRun>, k: nat)
    requires a.InShape() && Holds(a.groups, before, a.bitmap[..], live) && k < |live| && a.Inside(live[k])
    requires ReservedUsed(before, a.geometry.reserved)
    ensures a.MayFree(live[k]) && a.InUse(live[k])
  {
    hide Used, Shaped, Times;
    var run := live[k];
    var from: nat := First(a.groups, run.group) + run.start;
    a.GroupFits(run.group);
    forall n | from <= n < from + run.length ensures Used(a.bitmap[..], n) {
      assert InRun(a.groups, live[k], n);
      assert Covered(a.groups, live, n);
    }
    if run.group == 0 {
      a.BehindIsFirst(0);
      assert InRun(a.groups, live[k], from);
    }
  }

  /** All the held runs lie in their groups. */
  ghost predicate AllInside(a: BlockAllocator, live: seq<BlockRun>) {
    forall i :: 0 <= i < |live| ==> a.Inside(live[i])
  }

  method ServeTake(a: BlockAllocator, r: Request, ghost before: seq<Word>, live: seq<BlockRun>) returns (more: seq<BlockRun>)
    requires a.Valid() && AllRegular(a.groups, a.geometry) && r.Take? && Sensible(r)
    requires Holds(a.groups, before, a.bitmap[..], live) && AllInside(a, live)
    modifies a`usedBlocks, a.bitmap, a.groups
    ensures a.Valid() && Holds(a.groups, before, a.bitmap[..], more) && AllInside(a, more)
    ensures a.usedBlocks - Total(more) == old(a.usedBlocks) - Total(live)
  {
    hide Used, Times, Marked, GroupShaped, Shaped, Regular, AllAre, Holds;
    ghost var now := a.bitmap[..];
    var got: Allocation;
    ghost var at: nat;
    ghost var pass: bool;
    got, at, pass := a.AllocateBlocks(r.group, r.start, r.maximum, r.minimum);
    if got.Allocated? {
      Took(a.groups, before, now, a.bitmap[..], live, got.run);
      return live + [got.run];
    }
    assert a.bitmap[..] == now;
    return live;
  }

  method ServeGiveBack(a: BlockAllocator, index: nat, ghost before: seq<Word>, live: seq<BlockRun>) returns (less: seq<BlockRun>)
    requires a.Valid() && index < |live|
    requires Holds(a.groups, before, a.bitmap[..], live) && AllInside(a, live)
    requires ReservedUsed(before, a.geometry.reserved)
    modifies a`usedBlocks, a.bitmap, a.groups
    ensures a.Valid() && Holds(a.groups, before, a.bitmap[..], less) && AllInside(a, less)
    ensures a.usedBlocks - Total(less) == old(a.usedBlocks) - Total(live)
  {
    hide Used, Times, Marked, GroupShaped, Shaped, AllAre, Holds;
    ghost var now := a.bitmap[..];
    MayGiveBack(a, before, live, index);
    var ok := a.Free(live[index]);
    GaveBack(a.groups, before, now, a.bitmap[..], live, index);
    TotalWithout(live, index);
    return live[..index] + live[index + 1..];
  }

  /** Serves any sequence of requests: the accounting is right all the time, and at the end exactly what
      was in use before and what is still held is in use. */
  method Serve(a: BlockAllocator, requests: seq<Request>) returns (live: seq<BlockRun>)
    requires a.Valid() && AllRegular(a.groups, a.geometry) && a.InUse(BlockRun(0, 0, a.geometry.reserved))
    requires forall r :: r in requests ==> Sensible(r)
    modifies a`usedBlocks, a.bitmap, a.groups
    ensures a.Valid() && Holds(a.groups, old(a.bitmap[..]), a.bitmap[..], live)
    ensures a.usedBlocks == old(a.usedBlocks) + Total(live)
  {
    hide Used, Times, Marked, GroupShaped, Shaped, Regular, AllAre, Holds;
    ghost var before := a.bitmap[..];
    a.ReservedInside();
    live := [];
    HoldsNothing(a, before);
    for k := 0 to |requests|
      invariant a.Valid() && Holds(a.groups, before, a.bitmap[..], live) && AllInside(a, live)
      invariant a.usedBlocks == old(a.usedBlocks) + Total(live)
    {
      match requests[k]
      case Take(group, start, maximum, minimum) =>
        assert Sensible(requests[k]);
        live := ServeTake(a, requests[k], before, live);
      case GiveBack(index) =>
        if index < |live| {
          live := ServeGiveBack(a, index, before, live);
        }
    }
  }

  lemma HoldsNothing(a: BlockAllocator, words: seq<Word>)
    requires a.InShape() && words == a.bitmap[..] && a.Inside(BlockRun(0, 0, a.geometry.reserved))
    requires a.InUse(BlockRun(0, 0, a.geometry.reserved))
    ensures Holds(a.groups, words, words, [])
    ensures ReservedUsed(words, a.geometry.reserved)
  {
    hide Used, Times, Shaped;
    a.BehindIsFirst(0);
  }
}
