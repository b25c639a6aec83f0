/** What each constant costs, told by the constant alone. */
module ImmediateCost {
  import opened Arith
  import opened PowerIsa
  import opened LoadImmediate
  import opened ImmediateLength

  // ------------------------------------------------------------------ a small number times a power of two

  predicate TimesPower(imm: U64, v: int, n: nat) { -0x8000 <= v <= 0x7FFF && n < 64 && Signed(imm) == Up(v, n) }

  ghost predicate IsTimesPower(imm: U64) { exists v, n: nat :: TimesPower(imm, v, n) }

  lemma {:induction false} ShrOfUp(x: int, n: nat)
    ensures Shr(Up(x, n), n) == x
  {
    if n > 0 {
      assert Up(x, n) / 2 == Up(x, n - 1);
      ShrOfUp(x, n - 1);
    }
  }

  lemma LowOfUp(imm: U64, v: int, n: nat)
    requires n < 64 && Signed(imm) == Up(v, n)
    ensures Low(imm, n) == 0
  {
    if imm >= 0x8000_0000_0000_0000 {
      UpAdd(1, 64 - n, n);
      UpBy64(1, 64 - n + n);
      UpPlus(v, Up(1, 64 - n), n);
      assert imm == Up(v + Up(1, 64 - n), n);
      LowUpZero(v + Up(1, 64 - n), n);
    } else {
      LowUpZero(v, n);
    }
  }

  lemma {:induction false} LowUpZero(x: int, n: nat)
    ensures Low(Up(x, n), n) == 0
  {
    if n > 0 {
      LowUpZero(x, n - 1);
      assert Up(x, n) / 2 == Up(x, n - 1) && Up(x, n) % 2 == 0;
    }
  }

  /** The test of the shifted-16 rule finds every such constant. */
  lemma TimesPowerIff(imm: U64, n: Six)
    requires imm > 0 && n == Shift(imm)
    ensures IsTimesPower(imm) <==> -0x8000 <= Shr(Signed(imm), n) <= 0x7FFF
  {
    hide Up, Shr;
    if -0x8000 <= Shr(Signed(imm), n) <= 0x7FFF {
      if imm >= 0x8000_0000_0000_0000 {
        SignedOddPart(imm, n);
      } else {
        StripZeros(imm);
      }
      assert TimesPower(imm, Shr(Signed(imm), n), n);
    }
    if v, m: nat :| TimesPower(imm, v, m) {
      LowOfUp(imm, v, m);
      ZerosAtLeast(imm, m);
      ShrAdd(Signed(imm), m, n - m);
      ShrOfUp(v, m);
      ShrTowardZero(v, n - m);
    }
  }

  // ------------------------------------------------------------------ a run of ones

  ghost predicate IsRun(imm: nat) { exists a: nat, b: nat :: a > 0 && imm == Up(Ones(a), b) }

  lemma {:induction false} RunCounts(a: nat, b: nat)
    requires a > 0
    ensures var x := Up(Ones(a), b); x > 0 && PopCount(x) == a && BitLength(x) == a + b && TrailingZeros(x) == b
  {
    if b > 0 {
      RunCounts(a, b - 1);
      assert Up(Ones(a), b) / 2 == Up(Ones(a), b - 1);
    } else if a > 1 {
      RunCounts(a - 1, 0);
      assert Ones(a) / 2 == Ones(a - 1);
    } else {
      assert Ones(1) == 1 && PopCount(0) == 0 && BitLength(0) == 0;
    }
  }

  /** The counting test finds every such constant. */
  lemma RunIff(imm: U64, n: Six)
    requires imm > 0 && n == Shift(imm)
    ensures IsRun(imm) <==> PopCount(imm) + (64 - BitLength(imm)) + n == 64
  {
    StripZeros(imm);
    if PopCount(imm) + (64 - BitLength(imm)) + n == 64 {
      FullIsOnes(Shr(imm, n));
      assert imm == Up(Ones(BitLength(imm) - n), n);
    }
    if a: nat, b: nat :| a > 0 && imm == Up(Ones(a), b) {
      RunCounts(a, b);
    }
  }

  // ------------------------------------------------------------------ a 31-bit number, shifted

  predicate Shifted31(imm: U64, v: nat, n: nat) { 0 < n < 64 && v <= 0x7FFF_FFFF && imm == Up(v, n) }

  ghost predicate IsShifted31(imm: U64) { exists v: nat, n: nat :: Shifted31(imm, v, n) }

  lemma Shifted31Iff(imm: U64, n: Six)
    requires imm > 0 && n == Shift(imm)
    ensures IsShifted31(imm) <==> n > 0 && Shr(imm, n) <= 0x7FFF_FFFF
  {
    hide Up, Shr;
    StripZeros(imm);
    if n > 0 && Shr(imm, n) <= 0x7FFF_FFFF {
      assert Shifted31(imm, Shr(imm, n), n);
    }
    if v: nat, m: nat :| Shifted31(imm, v, m) {
      LowUpZero(v, m);
      ZerosAtLeast(imm, m);
      ShrAdd(imm, m, n - m);
      ShrOfUp(v, m);
      ShrTowardZero(v, n - m);
    }
  }

  // ------------------------------------------------------------------ the cost

  /** One instruction can load it: a sign-extended immediate, as it is or shifted by sixteen. */
  ghost predicate OneWord(imm: U64) {
    exists d: U16 :: imm == SignExtend16(d) || imm == SignExtend16(d) * 0x1_0000 % TWO64
  }

  ghost predicate TwoWords(imm: U64) {
    || -0x8000_0000 <= Signed(imm) <= 0x7FFF_FFFF
    || (0x8000_0000 <= imm <= 0xFFFF_FFFF && (imm >= 0xFFFF_8000 || imm % 0x1_0000 == 0))
    || (imm > 0xFFFF_FFFF && (IsTimesPower(imm) || IsRun(imm)))
  }

  lemma OneWordIff(imm: U64)
    ensures OneWord(imm) <==>
            -0x8000 <= Signed(imm) <= 0x7FFF || (-0x8000_0000 <= Signed(imm) <= 0x7FFF_FFFF && imm % 0x1_0000 == 0)
  {
    if -0x8000 <= Signed(imm) <= 0x7FFF {
      assert imm == SignExtend16(imm % 0x1_0000);
    }
    if -0x8000_0000 <= Signed(imm) <= 0x7FFF_FFFF && imm % 0x1_0000 == 0 {
      HighImmediate(imm);
    }
    forall d: U16 | imm == SignExtend16(d) || imm == SignExtend16(d) * 0x1_0000 % TWO64
      ensures -0x8000 <= Signed(imm) <= 0x7FFF || (-0x8000_0000 <= Signed(imm) <= 0x7FFF_FFFF && imm % 0x1_0000 == 0)
    {
      ShiftedImmediate(d);
    }
  }

  lemma ShiftedImmediate(d: U16)
    ensures SignExtend16(d) * 0x1_0000 % TWO64 ==
            if d < 0x8000 then d * 0x1_0000 else d * 0x1_0000 + (TWO64 - 0x1_0000_0000)
  {
    if d >= 0x8000 {
      Peel(0xFFFF, d * 0x1_0000 + (TWO64 - 0x1_0000_0000), TWO64);
    }
  }

  lemma HighImmediate(imm: U64)
    requires -0x8000_0000 <= Signed(imm) <= 0x7FFF_FFFF && imm % 0x1_0000 == 0
    ensures var d := imm / 0x1_0000 % 0x1_0000; imm == SignExtend16(d) * 0x1_0000 % TWO64
  {
    ShiftedImmediate(imm / 0x1_0000 % 0x1_0000);
  }

  /** For every constant: one word exactly if one instruction can load it; at most two exactly for 32-bit signed
      numbers, the cheap unsigned ones, small numbers times a power of two and runs of ones; three for shifted 31-bit
      numbers, unless that rule is switched off; and otherwise what the general path costs. */
  lemma CostIs(rt: Reg, imm: U64, noShift32: bool)
    ensures |LoadImm64(rt, imm, noShift32)| == 1 <==> OneWord(imm)
    ensures |LoadImm64(rt, imm, noShift32)| <= 2 <==> TwoWords(imm)
    ensures imm > 0xFFFF_FFFF && !TwoWords(imm) ==>
      |LoadImm64(rt, imm, noShift32)| == if !noShift32 && IsShifted31(imm) then 3 else |GeneralCode(rt, imm)|
  {
    OneWordIff(imm);
    if imm > 0xFFFF_FFFF {
      WideCost(rt, imm, noShift32);
    } else {
      NarrowCost(rt, imm, noShift32);
    }
  }

  lemma NarrowCost(rt: Reg, imm: U64, noShift32: bool)
    requires imm <= 0xFFFF_FFFF
    ensures |LoadImm64(rt, imm, noShift32)| == 1 <==> imm <= 0x7FFF || (imm <= 0x7FFF_FFFF && imm % 0x1_0000 == 0)
    ensures |LoadImm64(rt, imm, noShift32)| <= 2 <==> TwoWords(imm)
  {
    hide IsTimesPower, IsRun;
  }

  lemma WideCost(rt: Reg, imm: U64, noShift32: bool)
    requires imm > 0xFFFF_FFFF
    ensures |LoadImm64(rt, imm, noShift32)| == 1 <==>
            -0x8000 <= Signed(imm) <= 0x7FFF || (-0x8000_0000 <= Signed(imm) <= 0x7FFF_FFFF && imm % 0x1_0000 == 0)
    ensures |LoadImm64(rt, imm, noShift32)| <= 2 <==> TwoWords(imm)
    ensures !TwoWords(imm) ==>
      |LoadImm64(rt, imm, noShift32)| == if !noShift32 && IsShifted31(imm) then 3 else |GeneralCode(rt, imm)|
  {
    if imm >= 0xFFFF_FFFF_8000_0000 {
      NegativeCost(rt, imm, noShift32);
    } else {
      WideRule(imm, noShift32);
      hide RuleFor, IsTimesPower, IsRun, IsShifted31, OddPart;
      match RuleFor(imm, noShift32)
      case Shifted16 =>
      case OnesRun =>
      case Shifted32 => Shifted32Length(rt, imm);
      case General => GeneralIsLong(rt, imm, Shift(imm));
    }
  }

  lemma NegativeCost(rt: Reg, imm: U64, noShift32: bool)
    requires imm >= 0xFFFF_FFFF_8000_0000
    ensures |LoadImm64(rt, imm, noShift32)| == 1 <==> -0x8000 <= Signed(imm) || imm % 0x1_0000 == 0
    ensures |LoadImm64(rt, imm, noShift32)| <= 2
  {
  }

  /** The rule chosen for a constant beyond 32 bits, told by the constant. */
  lemma WideRule(imm: U64, noShift32: bool)
    requires 0xFFFF_FFFF < imm < 0xFFFF_FFFF_8000_0000
    ensures RuleFor(imm, noShift32) ==
            if IsTimesPower(imm) then Shifted16 else if IsRun(imm) then OnesRun
            else if !noShift32 && IsShifted31(imm) then Shifted32 else General
    ensures RuleFor(imm, noShift32) == Shifted32 ==> RuleFor(imm, false) == Shifted32
    ensures RuleFor(imm, noShift32) == General ==> !(-0x8000 <= Shr(Signed(imm), Shift(imm)) <= 0x7FFF)
  {
    var n := Shift(imm);
    hide IsTimesPower, IsRun, IsShifted31, PopCount, BitLength, Up, Shr, TrailingZeros;
    TimesPowerIff(imm, n);
    RunIff(imm, n);
    Shifted31Iff(imm, n);
    Shifted16Exact(imm, n);
  }

  lemma GeneralIsLong(rt: Reg, imm: U64, n: Six)
    requires imm > 0xFFFF_FFFF && n == Shift(imm)
    ensures !(-0x8000 <= Shr(Signed(imm), n) <= 0x7FFF) ==> |GeneralCode(rt, imm)| >= 3
  {
    if |GeneralCode(rt, imm)| <= 2 {
      TwoWordGeneral(rt, imm, n);
    }
  }
}
