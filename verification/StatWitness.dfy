/** Runs that show the conditions on growing and freeing are needed, and who meets the first. */
module StatWitness {
  import opened Options
  import opened StatSlots
  import opened StatList
  import opened StatRuns

  lemma {:induction false} ScanAt(slots: seq<Slot>, i: nat, k: nat)
    requires i <= k < |slots| && slots[k].tid == 0 && forall a :: i <= a < k ==> slots[a].tid != 0
    ensures Scan(slots, i) == k
    decreases k - i
  {
    if i < k {
      ScanAt(slots, i + 1, k);
    }
  }

  /** A run whose last operation allocates slot k. */
  lemma StartNext(size: nat, ops: seq<Op>, t: Table, tid: nat, k: nat) returns (longer: seq<Op>, now: Table)
    requires size < TWO32 && TotalSlots(size) >= 0 && Run(size, ops) == Some(t) && t.remaining > 0 && tid != 0
    requires k < |t.slots| && t.slots[k].tid == 0 && (forall a :: 0 <= a < k ==> t.slots[a].tid != 0)
    requires !NullTail(t)
    ensures now == Place(t, k, tid) && Run(size, longer) == Some(now)
  {
    ScanAt(t.slots, 0, k);
    longer, now := ops + [Start(tid, t.size)], Place(t, k, tid);
    assert longer[..|ops|] == ops;
  }

  lemma StopNext(size: nat, ops: seq<Op>, t: Table, k: nat) returns (longer: seq<Op>, now: Table)
    requires size < TWO32 && TotalSlots(size) >= 0 && Run(size, ops) == Some(t)
    requires k < |t.slots| && t.slots[k].tid != 0
    ensures now == Free(t, k) && Run(size, longer) == Some(now)
  {
    longer, now := ops + [Stop(Some(k))], Free(t, k);
    assert longer[..|ops|] == ops;
  }

  /** A table whose first four slots are given and whose others were never used. */
  function Four(size: nat, four: seq<Slot>, head: nat, tail: Option<nat>, used: nat): Table
    requires TotalSlots(size) >= 4 >= used && |four| == 4
  {
    Table(size, four + Zeros(TotalSlots(size) - 4), head, tail, TotalSlots(size) - used)
  }

  lemma UpdateFour(four: seq<Slot>, rest: seq<Slot>, i: nat, s: Slot)
    requires i < |four| == 4
    ensures (four + rest)[i := s] == four[i := s] + rest && (four + rest)[i] == four[i]
  {
  }

  lemma PlaceFour(size: nat, four: seq<Slot>, head: nat, tail: nat, used: nat, i: nat, tid: nat)
    requires size < TWO32 && TotalSlots(size) >= 4 > used && |four| == 4 && i < 4 && tail < 4 && head != 0
    ensures Place(Four(size, four, head, Some(tail), used), i, tid) ==
            Four(size, SetNext(four[i := Slot(tid, 0)], tail, Offset(i)), head, Some(i), used + 1)
  {
    var rest := Zeros(TotalSlots(size) - 4);
    UpdateFour(four, rest, i, Slot(tid, 0));
    var placed := four[i := Slot(tid, 0)];
    UpdateFour(placed, rest, tail, placed[tail].(next := Offset(i)));
  }

  lemma FreshFour(size: nat)
    requires TotalSlots(size) >= 4
    ensures Fresh(size) == Four(size, Zeros(4), 0, None, 0)
  {
    assert Zeros(4) + Zeros(TotalSlots(size) - 4) == Zeros(TotalSlots(size));
  }

  lemma OneStarts(size: nat) returns (ops: seq<Op>)
    requires size < TWO32 && TotalSlots(size) >= 4
    ensures Run(size, ops) == Some(Four(size, [Slot(1, 0), Slot(0, 0), Slot(0, 0), Slot(0, 0)], Offset(0), Some(0), 1))
  {
    FreshFour(size);
    var t := Fresh(size);
    UpdateFour(Zeros(4), Zeros(TotalSlots(size) - 4), 0, Slot(1, 0));
    ops, t := StartNext(size, [], t, 1, 0);
    assert Zeros(4)[0 := Slot(1, 0)] == [Slot(1, 0), Slot(0, 0), Slot(0, 0), Slot(0, 0)];
  }

  /** One more start, described on the first four slots. */
  lemma StartFour(size: nat, ops: seq<Op>, four: seq<Slot>, head: nat, tail: nat, used: nat, tid: nat, k: nat,
                  next: seq<Slot>)
    returns (longer: seq<Op>)
    requires size < TWO32 && TotalSlots(size) >= 4 > used && |four| == 4 && tail < 4 && head != 0 && tid != 0
    requires k < 4 && four[k].tid == 0 && forall a :: 0 <= a < k ==> four[a].tid != 0
    requires Run(size, ops) == Some(Four(size, four, head, Some(tail), used))
    requires next == SetNext(four[k := Slot(tid, 0)], tail, Offset(k))
    ensures Run(size, longer) == Some(Four(size, next, head, Some(k), used + 1))
  {
    PlaceFour(size, four, head, tail, used, k, tid);
    var t;
    longer, t := StartNext(size, ops, Four(size, four, head, Some(tail), used), tid, k);
  }

  /** Three threads have started. */
  lemma ThreeStart(size: nat) returns (ops: seq<Op>)
    requires size < TWO32 && TotalSlots(size) >= 4
    ensures Run(size, ops) ==
            Some(Four(size, [Slot(1, Offset(1)), Slot(2, Offset(2)), Slot(3, 0), Slot(0, 0)], Offset(0), Some(2), 3))
  {
    ops := OneStarts(size);
    var one := [Slot(1, 0), Slot(0, 0), Slot(0, 0), Slot(0, 0)];
    var two := [Slot(1, Offset(1)), Slot(2, 0), Slot(0, 0), Slot(0, 0)];
    ops := StartFour(size, ops, one, Offset(0), 0, 1, 2, 1, two);
    var three := [Slot(1, Offset(1)), Slot(2, Offset(2)), Slot(3, 0), Slot(0, 0)];
    ops := StartFour(size, ops, two, Offset(0), 1, 2, 3, 2, three);
  }

  lemma {:induction false} NamingAt(slots: seq<Slot>, offset: nat, i: nat, k: nat)
    requires i <= k < |slots| && slots[k].next == offset && forall a :: i <= a < k ==> slots[a].next != offset
    ensures Naming(slots, offset, i) == Some(k)
    decreases k - i
  {
    if i < k {
      NamingAt(slots, offset, i + 1, k);
    }
  }

  /** Slot k leaves the first four slots, the scan for its predecessor ending at slot p. */
  predicate Leaves(four: seq<Slot>, head: nat, tail: nat, k: nat, p: nat, next: seq<Slot>, head2: nat,
                   tail2: Option<nat>)
    requires |four| == 4 && k < 4 && p < 4
  {
    var freed := four[k := four[k].(tid := 0)];
    if head == Offset(k) then
      next == freed && head2 == four[k].next && tail2 == if tail == k then None else Some(tail)
    else
      && four[p].next == Offset(k) && (forall a :: 0 <= a < p ==> four[a].next != Offset(k))
      && next == SetNext(freed, p, four[k].next) && head2 == head && tail2 == if tail == k then Some(p) else Some(tail)
  }

  lemma FreeFour(size: nat, four: seq<Slot>, head: nat, tail: nat, used: nat, k: nat, p: nat,
                 next: seq<Slot>, head2: nat, tail2: Option<nat>)
    requires size < TWO32 && TotalSlots(size) >= 4 >= used > 0 && |four| == 4 && k < 4 && p < 4 && tail < 4
    requires Leaves(four, head, tail, k, p, next, head2, tail2)
    ensures |next| == 4 && Free(Four(size, four, head, Some(tail), used), k) == Four(size, next, head2, tail2, used - 1)
  {
    var rest := Zeros(TotalSlots(size) - 4);
    var freed := four[k := four[k].(tid := 0)];
    UpdateFour(four, rest, k, four[k].(tid := 0));
    if head != Offset(k) {
      UpdateFour(freed, rest, p, freed[p].(next := four[k].next));
      NamingAt(freed + rest, Offset(k), 0, p);
    }
  }

  /** One more stop, described on the first four slots. */
  lemma StopFour(size: nat, ops: seq<Op>, four: seq<Slot>, head: nat, tail: nat, used: nat, k: nat, p: nat,
                 next: seq<Slot>, head2: nat, tail2: Option<nat>)
    returns (longer: seq<Op>)
    requires size < TWO32 && TotalSlots(size) >= 4 >= used > 0 && |four| == 4 && tail < 4 && p < 4
    requires k < 4 && four[k].tid != 0 && Run(size, ops) == Some(Four(size, four, head, Some(tail), used))
    requires Leaves(four, head, tail, k, p, next, head2, tail2)
    ensures |next| == 4 && Run(size, longer) == Some(Four(size, next, head2, tail2, used - 1))
  {
    FreeFour(size, four, head, tail, used, k, p, next, head2, tail2);
    var t;
    longer, t := StopNext(size, ops, Four(size, four, head, Some(tail), used), k);
  }

  /** The first stops. */
  lemma FirstStops(size: nat) returns (ops: seq<Op>)
    requires size < TWO32 && TotalSlots(size) >= 4
    ensures Run(size, ops) ==
            Some(Four(size, [Slot(0, Offset(1)), Slot(2, Offset(2)), Slot(3, 0), Slot(0, 0)], Offset(1), Some(2), 2))
  {
    ops := ThreeStart(size);
    var a := [Slot(1, Offset(1)), Slot(2, Offset(2)), Slot(3, 0), Slot(0, 0)];
    var b := [Slot(0, Offset(1)), Slot(2, Offset(2)), Slot(3, 0), Slot(0, 0)];
    ops := StopFour(size, ops, a, Offset(0), 2, 3, 0, 0, b, Offset(1), Some(2));
  }

  /** Two more start, in slots 0 and 3. */
  lemma SlotReused(size: nat) returns (ops: seq<Op>)
    requires size < TWO32 && TotalSlots(size) >= 4
    ensures Run(size, ops) ==
            Some(Four(size, [Slot(4, Offset(3)), Slot(2, Offset(2)), Slot(3, Offset(0)), Slot(5, 0)],
                      Offset(1), Some(3), 4))
  {
    ops := FirstStops(size);
    var a := [Slot(0, Offset(1)), Slot(2, Offset(2)), Slot(3, 0), Slot(0, 0)];
    var b := [Slot(4, 0), Slot(2, Offset(2)), Slot(3, Offset(0)), Slot(0, 0)];
    ops := StartFour(size, ops, a, Offset(1), 2, 2, 4, 0, b);
    var c := [Slot(4, Offset(3)), Slot(2, Offset(2)), Slot(3, Offset(0)), Slot(5, 0)];
    ops := StartFour(size, ops, b, Offset(1), 0, 3, 5, 3, c);
  }

  /** The thread in slot 0 stops: its stale link names slot 3. */
  lemma LeavesStale(size: nat) returns (ops: seq<Op>)
    requires size < TWO32 && TotalSlots(size) >= 4
    ensures Run(size, ops) ==
            Some(Four(size, [Slot(0, Offset(3)), Slot(2, Offset(2)), Slot(3, Offset(3)), Slot(5, 0)],
                      Offset(1), Some(3), 3))
  {
    ops := SlotReused(size);
    var a := [Slot(4, Offset(3)), Slot(2, Offset(2)), Slot(3, Offset(0)), Slot(5, 0)];
    var b := [Slot(0, Offset(3)), Slot(2, Offset(2)), Slot(3, Offset(3)), Slot(5, 0)];
    ops := StopFour(size, ops, a, Offset(1), 3, 4, 0, 2, b, Offset(1), Some(3));
  }

  /** The condition matters: in a table of any size from four slots on, a run of legal operations ends in a table
      that no list describes. */
  lemma StaleRunBreaksList(size: nat)
    requires size < TWO32 && TotalSlots(size) >= 4
    ensures exists ops :: Run(size, ops).Some? && forall after :: !Linked(Run(size, ops).value, after)
  {
    var ops := LeavesStale(size);
    var t := Four(size, [Slot(0, Offset(3)), Slot(2, Offset(2)), Slot(3, Offset(3)), Slot(5, 0)],
                  Offset(1), Some(3), 3);
    var order := [1, 2, 3];
    assert order[0] == 1 && order[1] == 2 && order[2] == 3;
    assert Linked(t, order);
    assert Naming(t.slots, Offset(3), 0) == Some(0);
    var longer, now := StopNext(size, ops, t, 3);
    forall after
      ensures !Linked(now, after)
    {
      StaleBreaks(t, order, 2, after);
    }
  }

  /** The second stops and a thread takes its slot. */
  lemma SecondRenewed(size: nat) returns (ops: seq<Op>)
    requires size < TWO32 && TotalSlots(size) >= 4
    ensures Run(size, ops) ==
            Some(Four(size, [Slot(1, Offset(2)), Slot(4, 0), Slot(3, Offset(1)), Slot(0, 0)], Offset(0), Some(1), 3))
  {
    ops := ThreeStart(size);
    var a := [Slot(1, Offset(1)), Slot(2, Offset(2)), Slot(3, 0), Slot(0, 0)];
    var b := [Slot(1, Offset(2)), Slot(0, Offset(2)), Slot(3, 0), Slot(0, 0)];
    ops := StopFour(size, ops, a, Offset(0), 2, 3, 1, 0, b, Offset(0), Some(2));
    var c := [Slot(1, Offset(2)), Slot(4, 0), Slot(3, Offset(1)), Slot(0, 0)];
    ops := StartFour(size, ops, b, Offset(0), 2, 2, 4, 1, c);
  }

  /** The first stops; two start, in slots 0 and 3. */
  lemma AllRenewed(size: nat) returns (ops: seq<Op>)
    requires size < TWO32 && TotalSlots(size) >= 4
    ensures Run(size, ops) ==
            Some(Four(size, [Slot(5, Offset(3)), Slot(4, Offset(0)), Slot(3, Offset(1)), Slot(6, 0)],
                      Offset(2), Some(3), 4))
  {
    ops := SecondRenewed(size);
    var a := [Slot(1, Offset(2)), Slot(4, 0), Slot(3, Offset(1)), Slot(0, 0)];
    var b := [Slot(0, Offset(2)), Slot(4, 0), Slot(3, Offset(1)), Slot(0, 0)];
    ops := StopFour(size, ops, a, Offset(0), 1, 3, 0, 0, b, Offset(2), Some(1));
    var c := [Slot(5, 0), Slot(4, Offset(0)), Slot(3, Offset(1)), Slot(0, 0)];
    ops := StartFour(size, ops, b, Offset(2), 1, 2, 5, 0, c);
    var d := [Slot(5, Offset(3)), Slot(4, Offset(0)), Slot(3, Offset(1)), Slot(6, 0)];
    ops := StartFour(size, ops, c, Offset(2), 0, 3, 6, 3, d);
  }

  /** The threads in slots 1 and 0 stop: the first leaves a link to slot 0, the second finds it. */
  lemma TwoStop(size: nat) returns (ops: seq<Op>)
    requires size < TWO32 && TotalSlots(size) >= 4
    ensures Run(size, ops) ==
            Some(Four(size, [Slot(0, Offset(3)), Slot(0, Offset(3)), Slot(3, Offset(0)), Slot(6, 0)],
                      Offset(2), Some(3), 2))
  {
    ops := AllRenewed(size);
    var a := [Slot(5, Offset(3)), Slot(4, Offset(0)), Slot(3, Offset(1)), Slot(6, 0)];
    var b := [Slot(5, Offset(3)), Slot(0, Offset(0)), Slot(3, Offset(0)), Slot(6, 0)];
    ops := StopFour(size, ops, a, Offset(2), 3, 4, 1, 2, b, Offset(2), Some(3));
    var c := [Slot(0, Offset(3)), Slot(0, Offset(3)), Slot(3, Offset(0)), Slot(6, 0)];
    ops := StopFour(size, ops, b, Offset(2), 3, 3, 0, 1, c, Offset(2), Some(3));
  }

  /** The last two stop, and nobody is live. */
  lemma NoneLive(size: nat) returns (ops: seq<Op>)
    requires size < TWO32 && TotalSlots(size) >= 4
    ensures Run(size, ops) ==
            Some(Four(size, [Slot(0, 0), Slot(0, Offset(3)), Slot(0, Offset(0)), Slot(0, 0)], Offset(0), Some(0), 0))
  {
    ops := TwoStop(size);
    var a := [Slot(0, Offset(3)), Slot(0, Offset(3)), Slot(3, Offset(0)), Slot(6, 0)];
    var b := [Slot(0, Offset(3)), Slot(0, Offset(3)), Slot(0, Offset(0)), Slot(6, 0)];
    ops := StopFour(size, ops, a, Offset(2), 3, 2, 2, 0, b, Offset(0), Some(3));
    var c := [Slot(0, 0), Slot(0, Offset(3)), Slot(0, Offset(0)), Slot(0, 0)];
    ops := StopFour(size, ops, b, Offset(0), 3, 1, 3, 0, c, Offset(0), Some(0));
  }

  /** A thread starts in slot 0, which is linked to itself. */
  lemma StartsAlone(size: nat) returns (ops: seq<Op>)
    requires size < TWO32 && TotalSlots(size) >= 4
    ensures Run(size, ops) ==
            Some(Four(size, [Slot(7, Offset(0)), Slot(0, Offset(3)), Slot(0, Offset(0)), Slot(0, 0)],
                      Offset(0), Some(0), 1))
  {
    ops := NoneLive(size);
    var a := [Slot(0, 0), Slot(0, Offset(3)), Slot(0, Offset(0)), Slot(0, 0)];
    var b := [Slot(7, Offset(0)), Slot(0, Offset(3)), Slot(0, Offset(0)), Slot(0, 0)];
    ops := StartFour(size, ops, a, Offset(0), 0, 0, 7, 0, b);
  }

  /** It stops: the list still starts at slot 0 and has no tail. */
  lemma TailLost(size: nat) returns (ops: seq<Op>)
    requires size < TWO32 && TotalSlots(size) >= 4
    ensures Run(size, ops) ==
            Some(Four(size, [Slot(0, Offset(0)), Slot(0, Offset(3)), Slot(0, Offset(0)), Slot(0, 0)],
                      Offset(0), None, 0))
  {
    ops := StartsAlone(size);
    var a := [Slot(7, Offset(0)), Slot(0, Offset(3)), Slot(0, Offset(0)), Slot(0, 0)];
    var b := [Slot(0, Offset(0)), Slot(0, Offset(3)), Slot(0, Offset(0)), Slot(0, 0)];
    ops := StopFour(size, ops, a, Offset(0), 0, 1, 0, 0, b, Offset(0), None);
  }

  /** In every table of four slots or more a legal run frees every slot and leaves a null tail under a list, so that the
      next thread to start crashes. */
  lemma LegalRunCrashes(size: nat)
    requires size < TWO32 && TotalSlots(size) >= 4
    ensures exists ops ::
      && Run(size, ops).Some? && NullTail(Run(size, ops).value) && Run(size, ops).value.remaining == TotalSlots(size)
      && forall tid: nat | tid != 0 :: Run(size, ops + [Start(tid, size)]).None?
  {
    var ops := TailLost(size);
    forall tid: nat | tid != 0
      ensures Run(size, ops + [Start(tid, size)]).None?
    {
      CrashesOnlyAtNullTail(size, ops, Start(tid, size));
    }
  }

  /** So does the promise that growing adds a slot: growing by less hands out a live slot and wraps the counter. */
  lemma EmptyGrowthHandsOutLive()
    ensures var t := Table(224, [Slot(1, 0)], Offset(0), Some(0), 0);
      && Counted(t) && Linked(t, [0])
      && Allocate(t, 2, 225) == Got(Table(225, [Slot(2, Offset(0))], Offset(0), Some(0), TWO32 - 1), 0)
  {
    var t := Table(224, [Slot(1, 0)], Offset(0), Some(0), 0);
    assert Counted(t) && Linked(t, [0]);
    assert Ready(t, 225).slots == t.slots;
    assert Allocate(t, 2, 225).slot == 0;
  }

  /** What the Linux frontend answers when asked for twice the size, and how many bytes are then backed by memory. */
  datatype Answer = Answer(reported: nat, backed: nat)

  function Frontend(size: nat, shmOpen: bool, ftruncate: bool, mmap: bool): Answer {
    var grown := if size * 2 < MAX_STATS_SIZE then size * 2 else MAX_STATS_SIZE;
    if size == MAX_STATS_SIZE || !shmOpen then Answer(size, size)
    else if !ftruncate || !mmap then Answer(grown, size)
    else Answer(grown, grown)
  }

  /** Whole pages, doubled up to four mebibytes: the size reported is the old one exactly if that is reached or the file
      cannot be opened, and else twice the old one, cut to the maximum, with more slots. */
  lemma FrontendGrows(size: nat, shmOpen: bool, ftruncate: bool, mmap: bool)
    requires 4096 <= size <= MAX_STATS_SIZE && size % 4096 == 0
    ensures var r := Frontend(size, shmOpen, ftruncate, mmap).reported;
      && (r == size || (r > size && TotalSlots(r) > TotalSlots(size)))
      && (r == size <==> size == 0x40_0000 || !shmOpen)
      && (r > size ==> r == 2 * size <= 0x40_0000 || r == 0x40_0000 < 2 * size)
  {
    if size < MAX_STATS_SIZE {
      var grown := if size * 2 < MAX_STATS_SIZE then size * 2 else MAX_STATS_SIZE;
      assert grown >= size + 4096;
    }
  }

  /** But the slots it reports are there exactly if neither ftruncate nor mmap failed once the file was open. */
  lemma FrontendBackedIff(size: nat, shmOpen: bool, ftruncate: bool, mmap: bool)
    requires 4096 <= size <= MAX_STATS_SIZE
    ensures var a := Frontend(size, shmOpen, ftruncate, mmap);
      a.backed == a.reported <==> size == MAX_STATS_SIZE || !shmOpen || (ftruncate && mmap)
  {
  }
}
