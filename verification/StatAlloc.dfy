/** The allocator object: its methods update slots, head, tail and counter in place, and each is
    proved to do what the value model in StatSlots says. */
module StatAlloc {
  import opened Options
  import opened StatSlots

  datatype Answer = NoSlot | Crashed | GotSlot(slot: nat)

  class StatAlloc {
    var size: nat
    var slots: seq<Slot>
    var head: nat
    var tail: Option<nat>
    var remaining: nat

    ghost function Value(): Table
      reads this
    {
      Table(size, slots, head, tail, remaining)
    }

    /** A zero-filled region of the given size. */
    constructor (size: nat)
      requires size < TWO32 && TotalSlots(size) >= 0
      ensures Value() == Table(size, Zeros(TotalSlots(size)), 0, None, TotalSlots(size)) && Shaped(Value())
    {
      this.size := size;
      slots := Zeros(TotalSlots(size));
      head := 0;
      tail := None;
      remaining := TotalSlots(size);
    }

    /** newSize is what the frontend answers when asked for twice the size. */
    method AllocateMoreSlots(newSize: nat) returns (grown: bool)
      requires Shaped(Value()) && size <= newSize < TWO32
      modifies this
      ensures grown <==> newSize != old(size)
      ensures Value() == Grow(old(Value()), newSize)
    {
      var original := TotalSlots(size);
      if newSize == size {
        return false;
      }
      size := newSize;
      slots := slots + Zeros(TotalSlots(size) - original);
      remaining := TotalSlots(size) - original;
      return true;
    }

    /** The scan for a free slot. */
    method FindFree() returns (at: nat)
      requires |slots| > 0
      ensures at == Scan(slots, 0)
    {
      at := 0;
      var i := 0;
      while i < |slots|
        invariant 0 <= i <= |slots|
        invariant i < |slots| ==> Scan(slots, 0) == Scan(slots, i)
        invariant i == |slots| ==> at == Scan(slots, 0)
      {
        at := i;
        if slots[i].tid == 0 {
          break;
        }
        i := i + 1;
      }
    }

    /** Crashed stands for following a null pointer: the cleared slot's or StatTail. */
    method AllocateSlot(tid: nat, newSize: nat) returns (a: Answer)
      requires Shaped(Value()) && size <= newSize < TWO32
      modifies this
      ensures match Allocate(old(Value()), tid, newSize)
        case Null => a == NoSlot && Value() == old(Value())
        case Crash => a == Crashed
        case Got(t, k) => a == GotSlot(k) && Value() == t
    {
      if remaining == 0 {
        var grown := AllocateMoreSlots(newSize);
        if !grown {
          return NoSlot;
        }
      }
      assert Value() == Ready(old(Value()), newSize);
      if |slots| == 0 {
        return Crashed;
      }
      var at := FindFree();
      remaining := (remaining - 1) % TWO32;
      slots := slots[at := Slot(tid, 0)];
      if head == 0 {
        head := Offset(at);
      } else if tail.None? {
        return Crashed;
      } else {
        slots := SetNext(slots, tail.value, Offset(at));
      }
      tail := Some(at);
      return GotSlot(at);
    }

    /** The scan for the slot that links to the one being freed. */
    method FindPredecessor(offset: nat) returns (at: Option<nat>)
      ensures at == Naming(slots, offset, 0)
    {
      var i := 0;
      while i < |slots|
        invariant 0 <= i <= |slots|
        invariant Naming(slots, offset, 0) == Naming(slots, offset, i)
      {
        if slots[i].next == offset {
          return Some(i);
        }
        i := i + 1;
      }
      return None;
    }

    method DeallocateSlot(slot: Option<nat>)
      requires Shaped(Value()) && (slot.Some? ==> slot.value < |slots|)
      modifies this
      ensures slot.None? ==> Value() == old(Value())
      ensures slot.Some? ==> Value() == Free(old(Value()), slot.value)
    {
      if slot.None? {
        return;
      }
      var k := slot.value;
      slots := slots[k := slots[k].(tid := 0)];
      var offset, next, isTail := Offset(k), slots[k].next, tail == Some(k);
      if head == offset {
        head := next;
        if isTail {
          tail := None;
        }
      } else {
        var at := FindPredecessor(offset);
        if at.Some? {
          slots := SetNext(slots, at.value, next);
          if isTail {
            tail := at;
          }
        }
      }
      remaining := (remaining + 1) % TWO32;
    }
  }
}
