/** Whole runs of the slot allocator: the free count always, the list while frees are clean. */
module StatRuns {
  import opened Options
  import opened StatSlots
  import opened StatList

  /** A request: a thread starts, with the size the frontend would answer; or a slot (or null) is given back. */
  datatype Op = Start(tid: nat, size: nat) | Stop(slot: Option<nat>)

  /** Thread ids are not 0, growing that succeeds adds a slot, only live slots are freed. */
  predicate Legal(t: Table, op: Op)
    requires Shaped(t)
  {
    match op
    case Start(tid, size) =>
      tid != 0 && t.size <= size < TWO32 && (size == t.size || TotalSlots(size) > TotalSlots(t.size))
    case Stop(None) => true
    case Stop(Some(k)) => k < |t.slots| && t.slots[k].tid != 0
  }

  /** None when the operation follows a null pointer. */
  function Apply(t: Table, op: Op): (r: Option<Table>)
    requires Shaped(t) && Legal(t, op)
    ensures r.Some? ==> Shaped(r.value)
  {
    match op
    case Start(tid, size) =>
      (match Allocate(t, tid, size) case Null => Some(t) case Crash => None case Got(r, _) => Some(r))
    case Stop(None) => Some(t)
    case Stop(Some(k)) => Some(Free(t, k))
  }

  function Fresh(size: nat): Table
    requires TotalSlots(size) >= 0
  {
    Table(size, Zeros(TotalSlots(size)), 0, None, TotalSlots(size))
  }

  /** The table after a run of legal operations that followed no null pointer. */
  function Run(size: nat, ops: seq<Op>): (r: Option<Table>)
    requires size < TWO32 && TotalSlots(size) >= 0
    ensures r.Some? ==> Shaped(r.value)
  {
    if ops == [] then Some(Fresh(size)) else
    match Run(size, ops[..|ops| - 1])
    case None => None
    case Some(t) => if Legal(t, ops[|ops| - 1]) then Apply(t, ops[|ops| - 1]) else None
  }

  lemma ApplyCounts(t: Table, op: Op)
    requires Counted(t) && Legal(t, op) && Apply(t, op).Some?
    ensures Counted(Apply(t, op).value)
  {
    match op
    case Start(tid, size) =>
      if Allocate(t, tid, size).Got? {
        ReadyCounts(t, size);
        HandsOutFree(t, tid, size);
        PlaceCounts(Ready(t, size), Scan(Ready(t, size).slots, 0), tid);
      }
    case Stop(None) =>
    case Stop(Some(k)) => FreeCounts(t, k);
  }

  /** In every run the counter is the number of free slots. */
  lemma {:induction false} RunCounts(size: nat, ops: seq<Op>)
    requires size < TWO32 && TotalSlots(size) >= 0
    ensures Run(size, ops).Some? ==> Counted(Run(size, ops).value)
  {
    if ops == [] {
      FreeCountZeros([], TotalSlots(size));
      assert [] + Zeros(TotalSlots(size)) == Zeros(TotalSlots(size));
    } else {
      RunCounts(size, ops[..|ops| - 1]);
      match Run(size, ops[..|ops| - 1])
      case None =>
      case Some(t) =>
        if Run(size, ops).Some? {
          ApplyCounts(t, ops[|ops| - 1]);
        }
    }
  }

  /** So in every run an allocation crashes exactly if it is not refused and the tail is null; else it hands out a slot
      that was not live, and it refuses only when no slot is free. */
  lemma NeverHandsOutLive(size: nat, ops: seq<Op>, tid: nat, grown: nat)
    requires size < TWO32 && TotalSlots(size) >= 0 && Run(size, ops).Some?
    requires Legal(Run(size, ops).value, Start(tid, grown))
    ensures var t := Run(size, ops).value;
      match Allocate(t, tid, grown)
      case Null => forall i :: 0 <= i < |t.slots| ==> t.slots[i].tid != 0
      case Crash => NullTail(t)
      case Got(_, k) => !NullTail(t) && (k >= |t.slots| || t.slots[k].tid == 0)
  {
    RunCounts(size, ops);
    var t := Run(size, ops).value;
    FreeCountBound(t.slots);
    CrashesIff(t, tid, grown);
    if Allocate(t, tid, grown).Got? {
      HandsOutFree(t, tid, grown);
    }
  }

  /** One more legal operation ends a run in a crash exactly if it is an allocation that meets a null tail. */
  lemma CrashesOnlyAtNullTail(size: nat, ops: seq<Op>, op: Op)
    requires size < TWO32 && TotalSlots(size) >= 0 && Run(size, ops).Some? && Legal(Run(size, ops).value, op)
    ensures Run(size, ops + [op]).None? <==>
            op.Start? && NullTail(Run(size, ops).value) && !Exhausted(Run(size, ops).value, op.size)
  {
    RunCounts(size, ops);
    assert (ops + [op])[..|ops|] == ops;
    if op.Start? {
      CrashesIff(Run(size, ops).value, op.tid, op.size);
    }
  }

  // ------------------------------------------------------------------ the list over whole runs

  /** Freeing, if that is the operation, will find the right predecessor. */
  predicate Clean(t: Table, op: Op)
    requires Shaped(t) && Legal(t, op)
  {
    op.Stop? && op.slot.Some? ==> t.head == Offset(op.slot.value) || CleanPredecessor(t, op.slot.value)
  }

  predicate CleanRun(size: nat, ops: seq<Op>)
    requires size < TWO32 && TotalSlots(size) >= 0
  {
    ops != [] ==>
      && CleanRun(size, ops[..|ops| - 1])
      && (var before := Run(size, ops[..|ops| - 1]);
          before.Some? && Legal(before.value, ops[|ops| - 1]) ==> Clean(before.value, ops[|ops| - 1]))
  }

  function Remove(order: seq<nat>, k: nat): seq<nat> {
    if order == [] then [] else if order[0] == k then order[1..] else [order[0]] + Remove(order[1..], k)
  }

  lemma {:induction false} RemoveIs(order: seq<nat>, j: nat)
    requires j < |order| && Distinct(order)
    ensures Remove(order, order[j]) == Without(order, j)
  {
    if j > 0 {
      assert order[0] != order[j];
      assert order[1..][j - 1] == order[j];
      RemoveIs(order[1..], j - 1);
    }
  }

  /** The live slots by age: allocating appends, freeing removes. */
  function Ages(t: Table, order: seq<nat>, op: Op): seq<nat>
    requires Shaped(t) && Legal(t, op) && Apply(t, op).Some?
  {
    match op
    case Start(tid, size) =>
      (match Allocate(t, tid, size) case Got(_, k) => order + [k] case _ => order)
    case Stop(None) => order
    case Stop(Some(k)) => Remove(order, k)
  }

  lemma ApplyLinks(t: Table, order: seq<nat>, op: Op)
    requires Counted(t) && Linked(t, order) && Legal(t, op) && Clean(t, op)
    ensures Apply(t, op).Some? && Linked(Apply(t, op).value, Ages(t, order, op))
  {
    match op
    case Start(tid, size) =>
      CrashesIff(t, tid, size);
      if Allocate(t, tid, size).Got? {
        GrowLinks(t, size, order);
        HandsOutFree(t, tid, size);
        PlaceLinks(Ready(t, size), Scan(Ready(t, size).slots, 0), tid, order);
      }
    case Stop(None) =>
    case Stop(Some(k)) =>
      var j :| 0 <= j < |order| && order[j] == k;
      FreeKeepsListIff(t, order, j);
      RemoveIs(order, j);
  }

  /** The order in which a run's live slots were handed out. */
  function Order(size: nat, ops: seq<Op>): seq<nat>
    requires size < TWO32 && TotalSlots(size) >= 0 && Run(size, ops).Some?
  {
    if ops == [] then [] else
      var front := ops[..|ops| - 1];
      Ages(Run(size, front).value, Order(size, front), ops[|ops| - 1])
  }

  predicate AllLegal(size: nat, ops: seq<Op>)
    requires size < TWO32 && TotalSlots(size) >= 0
  {
    ops != [] ==>
      && AllLegal(size, ops[..|ops| - 1])
      && (var before := Run(size, ops[..|ops| - 1]); before.Some? ==> Legal(before.value, ops[|ops| - 1]))
  }

  /** A run of legal, clean operations follows no null pointer, and its list is its live slots, oldest first. */
  lemma {:induction false} CleanRunLinks(size: nat, ops: seq<Op>)
    requires size < TWO32 && TotalSlots(size) >= 0 && AllLegal(size, ops) && CleanRun(size, ops)
    ensures Run(size, ops).Some? && Linked(Run(size, ops).value, Order(size, ops))
  {
    if ops != [] {
      var front := ops[..|ops| - 1];
      CleanRunLinks(size, front);
      RunCounts(size, front);
      ApplyLinks(Run(size, front).value, Order(size, front), ops[|ops| - 1]);
    }
  }
}
