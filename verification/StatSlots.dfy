/** The live-stats slot table: a growing array of slots, each free (TID 0) or live, threaded by a
    singly linked list of byte offsets.  Slots are named by index; offset 0 is the null link. */
module StatSlots {
  import opened Options

  const HEADER_SIZE := 64
  const STAT_SIZE := 80
  const MAX_STATS_SIZE := 4 * 1024 * 1024
  const TWO32 := 0x1_0000_0000

  function TotalSlots(size: nat): int { (size - HEADER_SIZE) / STAT_SIZE - 1 }

  function Offset(i: nat): nat { HEADER_SIZE + STAT_SIZE * i }

  datatype Slot = Slot(tid: nat, next: nat)

  /** remaining is a 32-bit counter; tail is the slot StatTail points to. */
  datatype Table = Table(size: nat, slots: seq<Slot>, head: nat, tail: Option<nat>, remaining: nat)

  predicate Shaped(t: Table) {
    && t.size < TWO32 && |t.slots| == TotalSlots(t.size) && t.remaining < TWO32
    && (t.tail.Some? ==> t.tail.value < |t.slots|)
  }

  function Zeros(n: nat): seq<Slot> { seq(n, i => Slot(0, 0)) }

  /** Where the allocation scan stops: at the first free slot, or at the last slot if there is none. */
  function Scan(slots: seq<Slot>, i: nat): (r: nat)
    requires i < |slots|
    ensures i <= r < |slots|
    decreases |slots| - i
  {
    if slots[i].tid == 0 || i + 1 == |slots| then i else Scan(slots, i + 1)
  }

  /** The first slot from i on whose Next is the given offset. */
  function Naming(slots: seq<Slot>, offset: nat, i: nat): (r: Option<nat>)
    requires i <= |slots|
    ensures r.Some? ==> i <= r.value < |slots| && slots[r.value].next == offset
    ensures forall k :: i <= k < (if r.Some? then r.value else |slots|) ==> slots[k].next != offset
    decreases |slots| - i
  {
    if i == |slots| then None
    else if slots[i].next == offset then Some(i)
    else Naming(slots, offset, i + 1)
  }

  /** The frontend's answer is the size now in use: the old one if it could not grow.  The new slots are zero, as a
      file that was extended and mapped successfully reads. */
  function Grow(t: Table, size: nat): (g: Table)
    requires Shaped(t) && t.size <= size < TWO32
    ensures Shaped(g)
  {
    if size == t.size then t else
      var more := TotalSlots(size) - TotalSlots(t.size);
      t.(size := size, slots := t.slots + Zeros(more), remaining := more)
  }

  /** What an allocation comes to: no slot, a null pointer followed, or a slot. */
  datatype Outcome = Null | Crash | Got(table: Table, slot: nat)

  /** Growing failed when slots were needed. */
  predicate Exhausted(t: Table, size: nat) { t.remaining == 0 && size == t.size }

  function Ready(t: Table, size: nat): (g: Table)
    requires Shaped(t) && t.size <= size < TWO32
    ensures Shaped(g)
  {
    if t.remaining == 0 then Grow(t, size) else t
  }

  /** There is a list, and its tail has been forgotten. */
  predicate NullTail(t: Table) { t.head != 0 && t.tail.None? }

  function SetNext(slots: seq<Slot>, i: nat, next: nat): seq<Slot>
    requires i < |slots|
  {
    slots[i := slots[i].(next := next)]
  }

  /** Slot i is cleared, given to tid, and put at the end of the list. */
  function Place(g: Table, i: nat, tid: nat): (r: Table)
    requires Shaped(g) && i < |g.slots| && !NullTail(g)
    ensures Shaped(r)
  {
    var slots := g.slots[i := Slot(tid, 0)];
    g.(slots := if g.head == 0 then slots else SetNext(slots, g.tail.value, Offset(i)),
       head := if g.head == 0 then Offset(i) else g.head,
       tail := Some(i),
       remaining := (g.remaining - 1) % TWO32)
  }

  /** Without any slot the scan leaves a null pointer; with a null tail there is no slot to link from. */
  function Allocate(t: Table, tid: nat, size: nat): (o: Outcome)
    requires Shaped(t) && t.size <= size < TWO32
    ensures o.Got? ==> Shaped(o.table) && o.slot < |o.table.slots|
  {
    if Exhausted(t, size) then Null else
      var g := Ready(t, size);
      if g.slots == [] || NullTail(g) then Crash else
        var i := Scan(g.slots, 0);
        Got(Place(g, i, tid), i)
  }

  function Free(t: Table, k: nat): (r: Table)
    requires Shaped(t) && k < |t.slots|
    ensures Shaped(r)
  {
    var slots := t.slots[k := t.slots[k].(tid := 0)];
    var next := t.slots[k].next;
    var isTail := t.tail == Some(k);
    var freed := t.(slots := slots, remaining := (t.remaining + 1) % TWO32);
    if t.head == Offset(k) then freed.(head := next, tail := if isTail then None else t.tail)
    else match Naming(slots, Offset(k), 0)
      case None => freed
      case Some(i) => freed.(slots := SetNext(slots, i, next), tail := if isTail then Some(i) else t.tail)
  }

  // ------------------------------------------------------------------ counting

  function FreeCount(slots: seq<Slot>): nat {
    if slots == [] then 0 else FreeCount(slots[..|slots| - 1]) + if slots[|slots| - 1].tid == 0 then 1 else 0
  }

  lemma {:induction false} FreeCountUpdate(slots: seq<Slot>, i: nat, s: Slot)
    requires i < |slots|
    ensures FreeCount(slots[i := s]) ==
            FreeCount(slots) - (if slots[i].tid == 0 then 1 else 0) + (if s.tid == 0 then 1 else 0)
  {
    var last := |slots| - 1;
    if i == last {
      assert slots[i := s][..last] == slots[..last];
    } else {
      FreeCountUpdate(slots[..last], i, s);
      assert slots[i := s][..last] == slots[..last][i := s];
    }
  }

  lemma {:induction false} FreeCountZeros(slots: seq<Slot>, n: nat)
    ensures FreeCount(slots + Zeros(n)) == FreeCount(slots) + n
  {
    if n == 0 {
      assert slots + Zeros(n) == slots;
    } else {
      FreeCountZeros(slots, n - 1);
      assert (slots + Zeros(n))[..|slots| + n - 1] == slots + Zeros(n - 1);
    }
  }

  lemma {:induction false} FreeCountBound(slots: seq<Slot>)
    ensures FreeCount(slots) <= |slots|
    ensures FreeCount(slots) == 0 <==> forall i :: 0 <= i < |slots| ==> slots[i].tid != 0
  {
    if slots != [] {
      FreeCountBound(slots[..|slots| - 1]);
    }
  }

  lemma {:induction false} ScanFinds(slots: seq<Slot>, i: nat)
    requires i < |slots|
    ensures slots[Scan(slots, i)].tid == 0 <==> exists k :: i <= k < |slots| && slots[k].tid == 0
    decreases |slots| - i
  {
    if slots[i].tid != 0 && i + 1 < |slots| {
      ScanFinds(slots, i + 1);
    }
  }

  predicate Counted(t: Table) { Shaped(t) && t.remaining == FreeCount(t.slots) }

  /** An allocation hands out a free slot exactly when one remains or the growth adds one. */
  lemma HandsOutFree(t: Table, tid: nat, size: nat)
    requires Counted(t) && t.size <= size < TWO32 && Allocate(t, tid, size).Got?
    ensures Ready(t, size).slots[Allocate(t, tid, size).slot].tid == 0 <==>
            t.remaining > 0 || TotalSlots(size) > TotalSlots(t.size)
  {
    var g := Ready(t, size);
    FreeCountZeros(t.slots, TotalSlots(size) - TotalSlots(t.size));
    FreeCountBound(g.slots);
    ScanFinds(g.slots, 0);
  }

  /** While growing adds slots, an allocation crashes exactly when it is not refused and the tail is null. */
  lemma CrashesIff(t: Table, tid: nat, size: nat)
    requires Counted(t) && t.size <= size < TWO32 && (size == t.size || TotalSlots(size) > TotalSlots(t.size))
    ensures Allocate(t, tid, size).Crash? <==> NullTail(t) && !Exhausted(t, size)
  {
    FreeCountBound(t.slots);
  }

  /** The tail gets lost exactly when the slot freed is head and tail at once and yet has a link. */
  lemma LosesTailIff(t: Table, k: nat)
    requires Shaped(t) && k < |t.slots| && !NullTail(t)
    ensures NullTail(Free(t, k)) <==> t.head == Offset(k) && t.tail == Some(k) && t.slots[k].next != 0
  {
  }

  lemma ReadyCounts(t: Table, size: nat)
    requires Counted(t) && t.size <= size < TWO32
    ensures Counted(Ready(t, size))
  {
    FreeCountZeros(t.slots, TotalSlots(size) - TotalSlots(t.size));
    FreeCountBound(t.slots);
  }

  lemma PlaceCounts(g: Table, i: nat, tid: nat)
    requires Counted(g) && i < |g.slots| && !NullTail(g) && g.slots[i].tid == 0 && tid != 0
    ensures Counted(Place(g, i, tid)) && Place(g, i, tid).remaining == g.remaining - 1
  {
    FreeCountBound(g.slots);
    FreeCountUpdate(g.slots, i, Slot(tid, 0));
    if g.head != 0 {
      var slots, last := g.slots[i := Slot(tid, 0)], g.tail.value;
      FreeCountUpdate(slots, last, slots[last].(next := Offset(i)));
    }
  }

  lemma FreeCounts(t: Table, k: nat)
    requires Counted(t) && k < |t.slots| && t.slots[k].tid != 0
    ensures Counted(Free(t, k))
  {
    FreeCountUpdate(t.slots, k, t.slots[k].(tid := 0));
    var slots := t.slots[k := t.slots[k].(tid := 0)];
    FreeCountBound(slots);
    var p := Naming(slots, Offset(k), 0);
    if p.Some? {
      FreeCountUpdate(slots, p.value, slots[p.value].(next := t.slots[k].next));
    }
  }
}
