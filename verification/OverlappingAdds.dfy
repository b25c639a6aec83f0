/** The lost-update arms: two threads add to overlapping operands with locked adds.  If the lane
    check passes, every interleaving leaves the same memory image, the one add_at predicts. */
module OverlappingAdds {
  import opened Arith

  type Byte = b: int | 0 <= b < 256

  /** One thread's operation: opbytes bytes at byte offset off, adding unit. */
  datatype Operand = Operand(off: nat, opbytes: nat, unit: nat) {
    function Lo(): nat { 8 * off }
    function End(): nat { 8 * (off + opbytes) }
  }

  const REGION: nat := 128

  // ------------------------------------------------------------------ locked adds

  /** The region as one little-endian number. */
  function Value(bytes: seq<Byte>): nat {
    if bytes == [] then 0 else bytes[0] + 256 * Value(bytes[1..])
  }

  /** lock add: the operand's bytes are replaced by their sum with the unit, any carry out of the
      operand is lost, and no other byte of the region changes. */
  function LockedAdd(region: nat, o: Operand): nat {
    Split(region, o.Lo());
    Split(Shr(region, o.Lo()) + o.unit, 8 * o.opbytes);
    Split(region, o.End());
    UpMonotonic(Low(Shr(region, o.Lo()) + o.unit, 8 * o.opbytes), 0, o.Lo());
    Low(region, o.Lo())
    + Up(Low(Shr(region, o.Lo()) + o.unit, 8 * o.opbytes), o.Lo())
    + Up(Shr(region, o.End()), o.End())
  }

  lemma {:induction false} LowOfSum(x: int, a: nat, b: nat)
    ensures Low(x, a + b) == Low(x, a) + Up(Low(Shr(x, a), b), a)
    decreases a
  {
    if a > 0 {
      LowOfSum(x / 2, a - 1, b);
    }
  }

  /** A locked add changes its operand alone: below and above it the region stays, and the operand becomes the sum
      modulo its width. */
  lemma AddIsLocal(region: nat, o: Operand)
    ensures Low(LockedAdd(region, o), o.Lo()) == Low(region, o.Lo())
    ensures Shr(LockedAdd(region, o), o.End()) == Shr(region, o.End())
    ensures Low(Shr(LockedAdd(region, o), o.Lo()), 8 * o.opbytes) ==
            Low(Low(Shr(region, o.Lo()), 8 * o.opbytes) + o.unit, 8 * o.opbytes)
  {
    var s, w := o.Lo(), 8 * o.opbytes;
    var below, field, above := Low(region, s), Low(Shr(region, s) + o.unit, w), Shr(region, s + w);
    Split(region, s);
    Split(Shr(region, s) + o.unit, w);
    UpAdd(above, w, s);
    UpPlus(field, Up(above, w), s);
    Join(field + Up(above, w), below, s);
    Join(above, field, w);
    ShrAdd(LockedAdd(region, o), s, w);
    LowAdds(Shr(region, s), o.unit, w);
  }

  lemma LowAdds(x: int, y: int, w: nat)
    ensures Low(Low(x, w) + y, w) == Low(x + y, w)
  {
    Split(x, w);
    Split(Low(x, w) + y, w);
    var q := Shr(Low(x, w) + y, w);
    UpPlus(q, Shr(x, w), w);
    Join(q + Shr(x, w), Low(Low(x, w) + y, w), w);
  }

  /** An add that does not carry out of its operand is an addition to the whole region. */
  lemma NoCarry(region: nat, o: Operand)
    requires Low(region, o.End()) + Up(o.unit, o.Lo()) < Up(1, o.End())
    ensures LockedAdd(region, o) == region + Up(o.unit, o.Lo())
  {
    var s, w := o.Lo(), 8 * o.opbytes;
    LowOfSum(region, s, w);
    Split(region, s);
    Split(region, s + w);
    var f := Low(Shr(region, s), w);
    Split(Shr(region, s), w);
    ShrAdd(region, s, w);
    UpPlus(f, o.unit, s);
    FieldFits(f + o.unit, s, w);
    LowOfShifted(Shr(Shr(region, s), w), f + o.unit, w);
    UpAdd(Shr(region, s + w), w, s);
  }

  lemma {:induction false} FieldFits(x: int, s: nat, w: nat)
    requires Up(x, s) < Up(1, s + w)
    ensures x < Up(1, w)
  {
    if s > 0 {
      FieldFits(x, s - 1, w);
    }
  }

  lemma LowOfShifted(hi: int, lo: int, w: nat)
    requires 0 <= lo < Up(1, w)
    ensures Low(Up(hi, w) + lo, w) == lo
  {
    Join(hi, lo, w);
  }

  // ------------------------------------------------------------------ the lane check

  /** highest_bit: the position of the top set bit, 0 for 0. */
  function HighestBit(v: nat): nat {
    if v / 2 == 0 then 0 else 1 + HighestBit(v / 2)
  }

  /** lowest_bit: the position of the lowest set bit, 0 for 0. */
  function LowestBit(v: nat): nat {
    if v == 0 || v % 2 == 1 then 0 else 1 + LowestBit(v / 2)
  }

  lemma {:induction false} BelowNextBit(v: nat)
    ensures v < Up(1, HighestBit(v) + 1)
    ensures v > 0 ==> Up(1, HighestBit(v)) <= v
  {
    if v / 2 > 0 {
      BelowNextBit(v / 2);
    }
  }

  lemma {:induction false} MultipleOfLowest(v: nat)
    ensures v == Up(Shr(v, LowestBit(v)), LowestBit(v))
    ensures 0 <= Shr(v, LowestBit(v))
  {
    if v > 0 && v % 2 == 0 {
      MultipleOfLowest(v / 2);
    }
  }

  /** The product as the probe computes it, in 64 bits. */
  function Total(iters: nat, o: Operand): nat {
    iters * o.unit % 0x1_0000_0000_0000_0000
  }

  function LaneLo(o: Operand): nat { o.Lo() + LowestBit(o.unit) }

  function LaneHi(iters: nat, o: Operand): nat { o.Lo() + HighestBit(Total(iters, o)) }

  predicate FitsOperand(iters: nat, o: Operand) {
    HighestBit(Total(iters, o)) < 8 * o.opbytes
  }

  /** run_lu_arm's check: each total stays inside its operand and the two bit lanes are disjoint. */
  predicate LaneCheck(iters: nat, p: Operand, q: Operand) {
    && FitsOperand(iters, p) && FitsOperand(iters, q)
    && (LaneHi(iters, p) < LaneLo(q) || LaneHi(iters, q) < LaneLo(p))
  }

  /** The command line wants 1 to 65535 iterations, the unit is a 32-bit immediate and the operand lies in the
      region. */
  predicate Arm(iters: nat, o: Operand) {
    0 < iters <= 65535 && o.unit < 0x8000_0000 && o.off + o.opbytes <= REGION
  }

  lemma MulMonotonic(a: nat, b: nat, u: nat)
    requires a <= b
    ensures 0 <= a * u <= b * u
  {
    assert b * u - a * u == (b - a) * u;
  }

  /** So the 64-bit product is exact, and n adds of the unit stay below the top of the lane. */
  lemma LaneBound(iters: nat, o: Operand, n: nat)
    requires Arm(iters, o) && FitsOperand(iters, o) && n <= iters
    ensures Total(iters, o) == iters * o.unit
    ensures 0 <= n * o.unit < Up(1, HighestBit(Total(iters, o)) + 1) <= Up(1, 8 * o.opbytes)
  {
    MulMonotonic(iters, 65535, o.unit);
    MulMonotonic(n, iters, o.unit);
    BelowNextBit(Total(iters, o));
    UpMonotonic(1, HighestBit(Total(iters, o)) + 1, 8 * o.opbytes);
  }

  // ------------------------------------------------------------------ one step

  /** The region after m adds by p and n by q, if none was lost. */
  function Image(p: Operand, m: nat, q: Operand, n: nat): int {
    Up(m * p.unit, p.Lo()) + Up(n * q.unit, q.Lo())
  }

  lemma {:induction false} UpScale(b: int, o: int, z: nat)
    ensures Up(b * o, z) == b * Up(o, z)
  {
    if z > 0 {
      UpScale(b, o, z - 1);
      assert 2 * (b * Up(o, z - 1)) == b * (2 * Up(o, z - 1));
    }
  }

  /** n adds by the upper lane are a multiple of the lane's lowest bit. */
  lemma LaneMultiple(o: Operand, n: nat)
    ensures Up(n * o.unit, o.Lo()) == Up(n * Shr(o.unit, LowestBit(o.unit)), LaneLo(o))
    ensures 0 <= n * Shr(o.unit, LowestBit(o.unit))
  {
    var z, y := LowestBit(o.unit), Shr(o.unit, LowestBit(o.unit));
    MultipleOfLowest(o.unit);
    UpScale(n, y, z);
    UpAdd(n * y, z, o.Lo());
    MulMonotonic(0, n, y);
  }

  /** n adds by the lower lane stay below its top bit. */
  lemma LaneTop(iters: nat, o: Operand, n: nat)
    requires Arm(iters, o) && FitsOperand(iters, o) && n <= iters
    ensures 0 <= Up(n * o.unit, o.Lo()) < Up(1, LaneHi(iters, o) + 1) <= Up(1, o.End())
  {
    LaneBound(iters, o, n);
    var k := HighestBit(Total(iters, o)) + 1;
    UpMonotonic(1, 0, o.Lo());
    PackBound(n * o.unit, 0, o.Lo(), k);
    UpMonotonic(1, o.Lo() + k, o.End());
  }

  /** Both threads' adds so far, seen from the lower lane p: less than q's lane below, a multiple of it above. */
  lemma ImageParts(iters: nat, p: Operand, m: nat, q: Operand, n: nat) returns (x: int, y: int)
    requires Arm(iters, p) && FitsOperand(iters, p) && m <= iters && LaneHi(iters, p) < LaneLo(q)
    ensures x == Up(m * p.unit, p.Lo()) && 0 <= x < Up(1, LaneLo(q)) && x < Up(1, p.End())
    ensures y == n * Shr(q.unit, LowestBit(q.unit)) && 0 <= y && Up(y, LaneLo(q)) == Up(n * q.unit, q.Lo())
    ensures Image(p, m, q, n) == Up(y, LaneLo(q)) + x
  {
    x, y := Up(m * p.unit, p.Lo()), n * Shr(q.unit, LowestBit(q.unit));
    LaneTop(iters, p, m);
    UpMonotonic(1, LaneHi(iters, p) + 1, LaneLo(q));
    LaneMultiple(q, n);
  }

  lemma OneMore(o: Operand, n: nat)
    ensures Up((n + 1) * o.unit, o.Lo()) == Up(n * o.unit, o.Lo()) + Up(o.unit, o.Lo())
  {
    assert (n + 1) * o.unit == n * o.unit + o.unit;
    UpPlus(n * o.unit, o.unit, o.Lo());
  }

  /** An add in the lower lane never carries out of its operand, even where that operand covers part of the upper
      lane. */
  lemma LowerStep(iters: nat, p: Operand, m: nat, q: Operand, n: nat)
    requires Arm(iters, p) && FitsOperand(iters, p) && m < iters && LaneHi(iters, p) < LaneLo(q)
    ensures 0 <= Image(p, m, q, n)
    ensures Low(Image(p, m, q, n), p.End()) + Up(p.unit, p.Lo()) < Up(1, p.End())
  {
    var x, y := ImageParts(iters, p, m, q, n);
    var x', _ := ImageParts(iters, p, m + 1, q, n);
    OneMore(p, m);
    UpMonotonic(y, 0, LaneLo(q));
    UnderLane(x, x', y, LaneLo(q), p.End());
  }

  /** Below bit e, a lane at or above bit l leaves room for whatever fits under l. */
  lemma UnderLane(x: int, x': int, y: int, l: nat, e: nat)
    requires 0 <= x < Up(1, l) && 0 <= x' < Up(1, l) && x < Up(1, e) && x' < Up(1, e) && y >= 0
    ensures Low(Up(y, l) + x, e) - x + x' < Up(1, e)
  {
    if e <= l {
      UpAdd(y, l - e, e);
      Join(Up(y, l - e), x, e);
    } else {
      assert l + (e - l) == e;
      LowOfSum(Up(y, l) + x, l, e - l);
      Join(y, x, l);
      Split(y, e - l);
      PackBound(Low(y, e - l), x', l, e - l);
    }
  }

  /** The upper lane starts inside its operand. */
  lemma LaneStart(iters: nat, q: Operand)
    requires Arm(iters, q) && FitsOperand(iters, q)
    ensures LaneLo(q) <= q.End()
  {
    if q.unit > 0 && LaneLo(q) > q.End() {
      LaneTop(iters, q, 1);
      LaneMultiple(q, 1);
      MultipleOfLowest(q.unit);
      UpMonotonic(1, q.End(), LaneLo(q));
      UpPositive(Shr(q.unit, LowestBit(q.unit)), LowestBit(q.unit), LaneLo(q));
      assert false;
    }
  }

  lemma {:induction false} UpPositive(y: int, z: nat, l: nat)
    requires y >= 0 && Up(y, z) > 0
    ensures Up(y, l) >= Up(1, l)
  {
    if l > 0 {
      UpPositive(y, z, l - 1);
    } else if y == 0 {
      UpZero(z);
    }
  }

  lemma {:induction false} UpZero(z: nat)
    ensures Up(0, z) == 0
  {
    if z > 0 {
      UpZero(z - 1);
    }
  }

  /** Nor does an add in the upper lane: the lower lane lies wholly below it. */
  lemma UpperStep(iters: nat, p: Operand, m: nat, q: Operand, n: nat)
    requires Arm(iters, p) && FitsOperand(iters, p) && m <= iters && LaneHi(iters, p) < LaneLo(q)
    requires Arm(iters, q) && FitsOperand(iters, q) && n <= iters
    ensures 0 <= Image(p, m, q, n) < Up(1, q.End())
  {
    var x, y := ImageParts(iters, p, m, q, n);
    var l, e := LaneLo(q), q.End();
    LaneStart(iters, q);
    LaneTop(iters, q, n);
    assert l + (e - l) == e;
    FieldFits(y, l, e - l);
    PackBound(y, x, l, e - l);
  }

  // ------------------------------------------------------------------ all runs

  /** The region after a schedule of adds, starting from zero; false is the first thread. */
  function RunAdds(p: Operand, q: Operand, schedule: seq<bool>): nat {
    if schedule == [] then 0
    else LockedAdd(RunAdds(p, q, schedule[..|schedule| - 1]), if schedule[|schedule| - 1] then q else p)
  }

  function Count(schedule: seq<bool>, who: bool): nat {
    if schedule == [] then 0
    else Count(schedule[..|schedule| - 1], who) + (if schedule[|schedule| - 1] == who then 1 else 0)
  }

  lemma StepInImage(iters: nat, p: Operand, m: nat, q: Operand, n: nat)
    requires Arm(iters, p) && Arm(iters, q) && LaneCheck(iters, p, q) && m <= iters && n <= iters
    ensures 0 <= Image(p, m, q, n) < Up(1, 8 * REGION)
    ensures m < iters ==> LockedAdd(Image(p, m, q, n), p) == Image(p, m + 1, q, n)
    ensures n < iters ==> LockedAdd(Image(p, m, q, n), q) == Image(p, m, q, n + 1)
  {
    OneMore(p, m);
    OneMore(q, n);
    if LaneHi(iters, p) < LaneLo(q) {
      UpperStep(iters, p, m, q, n);
      UpMonotonic(1, q.End(), 8 * REGION);
      if m < iters { LowerStep(iters, p, m, q, n); NoCarry(Image(p, m, q, n), p); }
      if n < iters {
        UpperStep(iters, p, m, q, n + 1);
        LowSmall(Image(p, m, q, n), q.End());
        NoCarry(Image(p, m, q, n), q);
      }
    } else {
      UpperStep(iters, q, n, p, m);
      UpMonotonic(1, p.End(), 8 * REGION);
      if n < iters { LowerStep(iters, q, n, p, m); NoCarry(Image(p, m, q, n), q); }
      if m < iters {
        UpperStep(iters, q, n, p, m + 1);
        LowSmall(Image(p, m, q, n), p.End());
        NoCarry(Image(p, m, q, n), p);
      }
    }
  }

  lemma ImageOfNothing(p: Operand, q: Operand)
    ensures Image(p, 0, q, 0) == 0
  {
    UpZero(p.Lo());
    UpZero(q.Lo());
  }

  lemma {:induction false} RunIsImage(iters: nat, p: Operand, q: Operand, schedule: seq<bool>)
    requires Arm(iters, p) && Arm(iters, q) && LaneCheck(iters, p, q)
    requires Count(schedule, false) <= iters && Count(schedule, true) <= iters
    ensures RunAdds(p, q, schedule) == Image(p, Count(schedule, false), q, Count(schedule, true))
  {
    if schedule == [] {
      ImageOfNothing(p, q);
    } else {
      var front := schedule[..|schedule| - 1];
      RunIsImage(iters, p, q, front);
      StepInImage(iters, p, Count(front, false), q, Count(front, true));
    }
  }

  /** add_at on numbers: an addition at a byte offset, cut to the region. */
  function AddAt(region: int, off: nat, v: int): int {
    Low(region + Up(v, 8 * off), 8 * REGION)
  }

  /** Overlapping locked adds lose nothing: if the lane check passes, then whatever the interleaving of
      m <= iters adds by one thread and n <= iters by the other, the region is the image add_at predicts. */
  lemma NothingLost(iters: nat, p: Operand, q: Operand, schedule: seq<bool>)
    requires Arm(iters, p) && Arm(iters, q) && LaneCheck(iters, p, q)
    requires Count(schedule, false) <= iters && Count(schedule, true) <= iters
    ensures RunAdds(p, q, schedule)
         == AddAt(AddAt(0, p.off, Count(schedule, false) * p.unit), q.off, Count(schedule, true) * q.unit)
  {
    var m, n := Count(schedule, false), Count(schedule, true);
    RunIsImage(iters, p, q, schedule);
    StepInImage(iters, p, m, q, n);
    LaneTop(iters, p, m);
    UpMonotonic(1, p.End(), 8 * REGION);
    LowSmall(Up(m * p.unit, p.Lo()), 8 * REGION);
    LowSmall(Image(p, m, q, n), 8 * REGION);
  }

  // ------------------------------------------------------------------ add_at in place

  lemma {:induction false} ValueUpdate(bytes: seq<Byte>, i: nat, b: Byte)
    requires i < |bytes|
    ensures Value(bytes[i := b]) == Value(bytes) + Up(b - bytes[i], 8 * i)
  {
    if i == 0 {
      assert bytes[i := b][1..] == bytes[1..];
    } else {
      assert bytes[i := b][1..] == bytes[1..][i - 1 := b];
      ValueUpdate(bytes[1..], i - 1, b);
      UpBy8More(b - bytes[i], 8 * (i - 1));
    }
  }

  lemma UpBy8More(x: int, n: nat)
    ensures Up(x, n + 8) == 256 * Up(x, n)
  {
    UpAdd(x, n, 8);
    UpBy8(Up(x, n), 8);
  }

  lemma {:induction false} ValueBound(bytes: seq<Byte>)
    ensures Value(bytes) < Up(1, 8 * |bytes|)
  {
    if bytes != [] {
      ValueBound(bytes[1..]);
      UpBy8More(1, 8 * |bytes[1..]|);
    }
  }

  /** One turn of add_at's loop moves the rest of the addend one byte up and changes the sum not at all. */
  lemma CarryStep(bytes: seq<Byte>, i: nat, v: nat, carry: nat)
    requires i < |bytes| && carry <= 1
    ensures var sum := bytes[i] + v % 256 + carry;
            Value(bytes[i := sum % 256]) + Up(sum / 256 + v / 256, 8 * (i + 1)) == Value(bytes) + Up(carry + v, 8 * i)
  {
    var sum := bytes[i] + v % 256 + carry;
    var rest := sum / 256 + v / 256;
    ValueUpdate(bytes, i, sum % 256);
    UpBy8More(rest, 8 * i);
    UpAdd(rest, 8, 8 * i);
    UpBy8(rest, 8);
    UpPlus(sum % 256 - bytes[i], 256 * rest, 8 * i);
    assert sum % 256 - bytes[i] + 256 * rest == carry + v;
  }

  lemma CarryOut(value: nat, rest: nat, len: nat, i: nat)
    requires len <= i && value < Up(1, 8 * len)
    ensures Low(value + Up(rest, 8 * i), 8 * len) == value
  {
    UpAdd(rest, 8 * i - 8 * len, 8 * len);
    Join(Up(rest, 8 * i - 8 * len), value, 8 * len);
  }

  /** add_at: adds v at byte offset off, in place, with every carry, up to the end of the region. */
  method AddAtInPlace(r: array<Byte>, off: nat, v: nat)
    modifies r
    ensures Value(r[..]) == Low(old(Value(r[..])) + Up(v, 8 * off), 8 * r.Length)
  {
    ghost var total := Value(r[..]) + Up(v, 8 * off);
    var carry: nat, rest: nat, i: nat := 0, v, off;
    while i < r.Length && (rest != 0 || carry != 0)
      invariant off <= i && carry <= 1
      invariant Value(r[..]) + Up(carry + rest, 8 * i) == total
    {
      ghost var was := r[..];
      CarryStep(was, i, rest, carry);
      var sum := r[i] + rest % 256 + carry;
      r[i] := sum % 256;
      assert r[..] == was[i := sum % 256];
      carry := sum / 256;
      rest := rest / 256;
      i := i + 1;
    }
    ValueBound(r[..]);
    if i < r.Length {
      UpZero(8 * i);
      LowSmall(Value(r[..]), 8 * r.Length);
    } else {
      CarryOut(Value(r[..]), carry + rest, r.Length, i);
    }
  }

  /** highest_bit's loop. */
  method FindHighestBit(v: nat) returns (b: nat)
    ensures b == HighestBit(v)
  {
    b := 0;
    var x: nat := v / 2;
    while x != 0
      invariant b + (if x == 0 then 0 else 1 + HighestBit(x)) == HighestBit(v)
    {
      b := b + 1;
      x := x / 2;
    }
  }

  /** lowest_bit's loop. */
  method FindLowestBit(v: nat) returns (b: nat)
    ensures b == LowestBit(v)
  {
    b := 0;
    var x: nat := v;
    while x != 0 && x % 2 == 0
      invariant b + LowestBit(x) == LowestBit(v)
    {
      x := x / 2;
      b := b + 1;
    }
  }
}
