/** Who owns which slot, apart from how the slots are linked: the table against a plain list of thread ids. */
module StatOwners {
  import opened Options
  import opened StatSlots
  import opened StatRuns

  // ------------------------------------------------------------------ where slots lie

  /** Slots of 80 bytes follow a header of 64; all of a table's slots lie inside it, and just one more would. */
  lemma SlotsLieInside(size: nat, i: nat, j: nat)
    requires 144 <= size && i <= j < TotalSlots(size)
    ensures 64 <= Offset(i) && Offset(j) + 80 <= size && (i < j ==> Offset(i) + 80 <= Offset(j))
    ensures Offset(TotalSlots(size)) + 80 <= size < Offset(TotalSlots(size)) + 160
  {
  }

  // ------------------------------------------------------------------ the plain list

  /** The first free place from i on. */
  function Lowest(owners: seq<nat>, i: nat): (r: Option<nat>)
    requires i <= |owners|
    ensures match r
      case Some(k) => i <= k < |owners| && owners[k] == 0 && forall j :: i <= j < k ==> owners[j] != 0
      case None => forall j :: i <= j < |owners| ==> owners[j] != 0
    decreases |owners| - i
  {
    if i == |owners| then None else if owners[i] == 0 then Some(i) else Lowest(owners, i + 1)
  }

  /** A new thread gets the lowest free place; with none left, the first of those that growing adds; else nothing. */
  function Serve(owners: seq<nat>, op: Op): seq<nat> {
    match op
    case Start(tid, size) =>
      (match Lowest(owners, 0)
       case Some(k) => owners[k := tid]
       case None =>
         var more := TotalSlots(size) - |owners|;
         if more > 0 then owners + [tid] + seq(more - 1, _ => 0) else owners)
    case Stop(None) => owners
    case Stop(Some(k)) => if k < |owners| then owners[k := 0] else owners
  }

  function Owners(size: nat, ops: seq<Op>): seq<nat>
    requires TotalSlots(size) >= 0
  {
    if ops == [] then seq(TotalSlots(size), _ => 0) else Serve(Owners(size, ops[..|ops| - 1]), ops[|ops| - 1])
  }

  // ------------------------------------------------------------------ the table does the same

  function Tids(slots: seq<Slot>): seq<nat> { seq(|slots|, i requires 0 <= i < |slots| => slots[i].tid) }

  lemma {:induction false} ScanIsLowest(slots: seq<Slot>, i: nat)
    requires i < |slots|
    ensures match Lowest(Tids(slots), i) case Some(k) => Scan(slots, i) == k case None => slots[Scan(slots, i)].tid != 0
    decreases |slots| - i
  {
    if slots[i].tid != 0 && i + 1 < |slots| {
      ScanIsLowest(slots, i + 1);
    }
  }

  lemma PlaceOwns(g: Table, i: nat, tid: nat)
    requires Shaped(g) && i < |g.slots| && !NullTail(g)
    ensures Tids(Place(g, i, tid).slots) == Tids(g.slots)[i := tid]
  {
  }

  lemma FreeDisowns(t: Table, k: nat)
    requires Shaped(t) && k < |t.slots|
    ensures Tids(Free(t, k).slots) == Tids(t.slots)[k := 0]
  {
    hide Naming;
  }

  lemma {:induction false} LowestSkips(a: seq<nat>, b: seq<nat>, i: nat)
    requires i <= |a| && Lowest(a, i).None? && b != [] && b[0] == 0
    ensures Lowest(a + b, i) == Some(|a|)
    decreases |a| - i
  {
    if i < |a| {
      LowestSkips(a, b, i + 1);
    }
  }

  lemma GrownOwns(slots: seq<Slot>, more: nat, tid: nat)
    requires Lowest(Tids(slots), 0).None? && more > 0
    ensures Lowest(Tids(slots + Zeros(more)), 0) == Some(|slots|)
    ensures Tids(slots + Zeros(more))[|slots| := tid] == Tids(slots) + [tid] + seq(more - 1, _ => 0)
  {
    var zeros := seq(more, _ => 0);
    assert Tids(slots + Zeros(more)) == Tids(slots) + zeros;
    LowestSkips(Tids(slots), zeros, 0);
  }

  lemma NoneFree(t: Table)
    requires Counted(t)
    ensures t.remaining == 0 <==> Lowest(Tids(t.slots), 0).None?
  {
    FreeCountBound(t.slots);
    hide FreeCount;
    assert forall i :: 0 <= i < |t.slots| ==> Tids(t.slots)[i] == t.slots[i].tid;
  }

  lemma StartOwns(t: Table, tid: nat, size: nat)
    requires Counted(t) && Legal(t, Start(tid, size)) && Allocate(t, tid, size).Got?
    ensures Tids(Allocate(t, tid, size).table.slots) == Serve(Tids(t.slots), Start(tid, size))
  {
    NoneFree(t);
    var g := Ready(t, size);
    if t.remaining == 0 {
      GrownOwns(t.slots, TotalSlots(size) - TotalSlots(t.size), tid);
    }
    ScanIsLowest(g.slots, 0);
    PlaceOwns(g, Scan(g.slots, 0), tid);
    hide Scan, Place, Lowest, FreeCount;
  }

  lemma ApplyOwns(t: Table, op: Op)
    requires Counted(t) && Legal(t, op) && Apply(t, op).Some?
    ensures Tids(Apply(t, op).value.slots) == Serve(Tids(t.slots), op)
  {
    match op
    case Start(tid, size) =>
      if Allocate(t, tid, size).Got? {
        StartOwns(t, tid, size);
      } else {
        NoneFree(t);
        hide FreeCount, Lowest;
      }
    case Stop(None) =>
    case Stop(Some(k)) => FreeDisowns(t, k);
  }

  /** After every legal run the slots belong to the threads the plain list says, whatever became of the links. */
  lemma {:induction false} RunOwns(size: nat, ops: seq<Op>)
    requires size < TWO32 && TotalSlots(size) >= 0 && Run(size, ops).Some?
    ensures Tids(Run(size, ops).value.slots) == Owners(size, ops)
  {
    if ops != [] {
      var front := ops[..|ops| - 1];
      RunOwns(size, front);
      RunCounts(size, front);
      hide Serve, Allocate, Free, Legal;
      ApplyOwns(Run(size, front).value, ops[|ops| - 1]);
    }
  }
}
