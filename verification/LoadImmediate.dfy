/** The constant compiler: LoadImm32, LoadImm64 and LoadImm64Fixed as instruction sequences. */
module LoadImmediate {
  import opened Arith
  import opened Options
  import opened PowerIsa

  // -------------------------------------------------- counting bits, as in <bit>

  /** std::countr_zero of a nonzero number. */
  function TrailingZeros(x: nat): nat
    requires x > 0
  {
    if x % 2 == 1 then 0 else 1 + TrailingZeros(x / 2)
  }

  /** The number of significant bits; std::countl_zero is 64 minus this. */
  function BitLength(x: nat): nat {
    if x == 0 then 0 else 1 + BitLength(x / 2)
  }

  /** std::popcount. */
  function PopCount(x: nat): (n: nat)
    ensures n <= BitLength(x)
  {
    if x == 0 then 0 else x % 2 + PopCount(x / 2)
  }

  /** Shifting the trailing zeros out leaves an odd number with the same ones, and loses nothing. */
  lemma {:induction false} StripZeros(x: nat)
    requires x > 0
    ensures var n := TrailingZeros(x);
            && n < BitLength(x)
            && 0 < Shr(x, n) <= x && Shr(x, n) % 2 == 1 && Up(Shr(x, n), n) == x
            && PopCount(Shr(x, n)) == PopCount(x) && BitLength(Shr(x, n)) == BitLength(x) - n
  {
    if x % 2 == 0 {
      StripZeros(x / 2);
    }
  }

  lemma {:induction false} BitLengthAtMost(x: nat, n: nat)
    requires x < Up(1, n)
    ensures BitLength(x) <= n
  {
    if x > 0 {
      BitLengthAtMost(x / 2, n - 1);
    }
  }

  lemma AtMost64Bits(x: U64, n: nat)
    requires n == 64
    ensures BitLength(x) <= n
  {
    UpBy64(1, n);
    BitLengthAtMost(x, n);
  }

  /** n ones. */
  function Ones(n: nat): nat {
    if n == 0 then 0 else 2 * Ones(n - 1) + 1
  }

  lemma {:induction false} FullIsOnes(x: nat)
    requires PopCount(x) == BitLength(x)
    ensures x == Ones(BitLength(x))
  {
    if x > 0 {
      FullIsOnes(x / 2);
    }
  }

  lemma {:induction false} OnesValue(n: nat)
    ensures Ones(n) == Up(1, n) - 1
  {
    if n > 0 {
      OnesValue(n - 1);
    }
  }

  lemma {:induction false} OnesParts(a: nat, n: nat)
    requires n <= a
    ensures Shr(Ones(a), n) == Ones(a - n) && Low(Ones(a), n) == Ones(n)
  {
    if n > 0 {
      OnesParts(a - 1, n - 1);
      assert Ones(a) / 2 == Ones(a - 1);
    }
  }

  /** std::countr_zero of a nonzero 64-bit number is a valid shift count. */
  function Shift(x: U64): (n: Six)
    requires x > 0
    ensures n == TrailingZeros(x) < BitLength(x) <= 64
  {
    StripZeros(x);
    AtMost64Bits(x, 64);
    TrailingZeros(x)
  }

  // ------------------------------------------------------------ the compiler

  function Li(rt: Reg, si: U16): Instr { Addi(rt, 0, si) }

  function Lis(rt: Reg, si: U16): Instr { Addis(rt, 0, si) }

  function OriSelf(rt: Reg, ui: U16): Instr { Ori(rt, rt, ui) }

  function OrisSelf(rt: Reg, ui: U16): Instr { Oris(rt, rt, ui) }

  function Sldi(rt: Reg, n: Six): Instr { Rldicr(rt, rt, n, 63 - n) }

  function Clrldi(rt: Reg, n: Six): Instr { Rldicl(rt, rt, 0, n) }

  function OriUnlessZero(rt: Reg, ui: U16): seq<Instr> { if ui == 0 then [] else [OriSelf(rt, ui)] }

  function OrisUnlessZero(rt: Reg, ui: U16): seq<Instr> { if ui == 0 then [] else [OrisSelf(rt, ui)] }

  type U32 = n: int | 0 <= n < 0x1_0000_0000

  /** The number as an int64_t, and back. */
  function Signed(x: U64): int { if x < 0x8000_0000_0000_0000 then x else x - TWO64 }

  function Unsigned(v: int): int { if v < 0 then v + TWO64 else v }

  function SignExtend32(x: U32): U64 {
    if x < 0x8000_0000 then x else x + (TWO64 - 0x1_0000_0000)
  }

  function LoadImm32(rt: Reg, imm: U32): seq<Instr> {
    if imm < 0x8000 || imm >= 0xFFFF_8000 then [Li(rt, imm % 0x1_0000)]
    else [Lis(rt, imm / 0x1_0000)] + OriUnlessZero(rt, imm % 0x1_0000)
  }

  /** The rules of LoadImm64, in the order it tries them. */
  datatype Rule = Zero | Signed32 | Unsigned32 | Shifted16 | OnesRun | Shifted32 | General

  function RuleFor(imm: U64, noShift32: bool): Rule {
    if imm == 0 then Zero
    else if imm <= 0x7FFF_FFFF || imm >= 0xFFFF_FFFF_8000_0000 then Signed32
    else if imm <= 0xFFFF_FFFF then Unsigned32
    else
      var tz := Shift(imm);
      var v := Shr(Signed(imm), tz);
      if -0x8000 <= v <= 0x7FFF && Up(Unsigned(v), tz) % TWO64 == imm then Shifted16
      else if PopCount(imm) + (64 - BitLength(imm)) + tz == 64 then OnesRun
      else if !noShift32 && tz > 0 && Shr(imm, tz) <= 0x7FFF_FFFF then Shifted32
      else General
  }

  function HighCode(rt: Reg, hi: U32): seq<Instr> {
    if hi == 0 then [Li(rt, 0)]
    else if hi <= 0x7FFF then [Li(rt, hi)]
    else [Lis(rt, hi / 0x1_0000)] + OriUnlessZero(rt, hi % 0x1_0000)
  }

  function GeneralCode(rt: Reg, imm: U64): seq<Instr> {
    HighCode(rt, imm / 0x1_0000_0000) + [Sldi(rt, 32)]
    + OrisUnlessZero(rt, imm / 0x1_0000 % 0x1_0000) + OriUnlessZero(rt, imm % 0x1_0000)
  }

  function LoadImm64(rt: Reg, imm: U64, noShift32: bool): seq<Instr> {
    match RuleFor(imm, noShift32)
    case Zero => [Li(rt, 0)]
    case Signed32 => LoadImm32(rt, imm % 0x1_0000_0000)
    case Unsigned32 => LoadImm32(rt, imm) + [Clrldi(rt, 32)]
    case Shifted16 => [Li(rt, Shr(Signed(imm), Shift(imm)) % 0x1_0000), Sldi(rt, Shift(imm))]
    case OnesRun => [Li(rt, 0xFFFF), Rldic(rt, rt, Shift(imm), 64 - BitLength(imm))]
    case Shifted32 => LoadImm32(rt, OddPart(imm)) + [Sldi(rt, Shift(imm))]
    case General => GeneralCode(rt, imm)
  }

  /** imm >> tz. */
  function OddPart(imm: U64): (v: U64)
    requires imm > 0
    ensures v == Shr(imm, Shift(imm)) && v % 2 == 1
  {
    StripZeros(imm);
    Shr(imm, Shift(imm))
  }

  function LoadImm64Fixed(rt: Reg, imm: U64): seq<Instr> {
    var hi := imm / 0x1_0000_0000;
    [Lis(rt, hi / 0x1_0000), OriSelf(rt, hi % 0x1_0000), Sldi(rt, 32),
     OrisSelf(rt, imm / 0x1_0000 % 0x1_0000), OriSelf(rt, imm % 0x1_0000)]
  }

  // --------------------------------------------------------- what the code does

  lemma {:induction false} RunAppend(a: seq<Instr>, i: Instr, r: Regs)
    ensures RunInstrs(a + [i], r) == Execute(i, RunInstrs(a, r))
  {
    if a == [] {
      assert a + [i] == [i];
      assert RunInstrs([i], r) == RunInstrs([i][1..], Execute(i, r));
    } else {
      assert (a + [i])[1..] == a[1..] + [i];
      RunAppend(a[1..], i, Execute(a[0], r));
    }
  }

  /** After code that leaves v in rt, one more instruction on rt leaves what it computes from v. */
  lemma Then(a: seq<Instr>, i: Instr, r: Regs, rt: Reg, v: U64)
    requires RunInstrs(a, r) == r[rt := v] && Dest(i) == rt
    ensures RunInstrs(a + [i], r) == r[rt := Result(i, r[rt := v])]
  {
    RunAppend(a, i, r);
    var w := Result(i, r[rt := v]);
    assert r[rt := v][rt := w] == r[rt := w];
  }

  lemma First(i: Instr, r: Regs)
    ensures RunInstrs([i], r) == r[Dest(i) := Result(i, r)]
  {
    RunAppend([], i, r);
    assert [] + [i] == [i];
  }

  lemma LisFirst(rt: Reg, h: U16, r: Regs)
    ensures RunInstrs([Lis(rt, h)], r) == r[rt := SignExtend32(h * 0x1_0000)]
  {
    First(Lis(rt, h), r);
    if h >= 0x8000 {
      Peel(0xFFFF, h * 0x1_0000 + (TWO64 - 0x1_0000_0000), TWO64);
    }
  }

  lemma ThenOri(a: seq<Instr>, r: Regs, rt: Reg, v: U64, ui: U16)
    requires RunInstrs(a, r) == r[rt := v] && v % 0x1_0000 == 0
    ensures v + ui < TWO64
    ensures RunInstrs(a + [OriSelf(rt, ui)], r) == r[rt := v + ui]
    ensures RunInstrs(a + OriUnlessZero(rt, ui), r) == r[rt := v + ui]
  {
    Then(a, OriSelf(rt, ui), r, rt, v);
    assert a + [] == a;
  }

  lemma OrisValue(v: U64, ui: U16)
    requires v % 0x1_0000_0000 == 0
    ensures v % 0x1_0000 + OrImmediate(v / 0x1_0000, ui) * 0x1_0000 == v + ui * 0x1_0000
  {
    var k := v / 0x1_0000_0000;
    assert v == k * 0x1_0000_0000;
    Peel(k * 0x1_0000, 0, 0x1_0000);
    Peel(k, 0, 0x1_0000);
  }

  lemma ThenOris(a: seq<Instr>, r: Regs, rt: Reg, v: U64, ui: U16)
    requires RunInstrs(a, r) == r[rt := v] && v % 0x1_0000_0000 == 0
    ensures v + ui * 0x1_0000 < TWO64
    ensures RunInstrs(a + [OrisSelf(rt, ui)], r) == r[rt := v + ui * 0x1_0000]
    ensures RunInstrs(a + OrisUnlessZero(rt, ui), r) == r[rt := v + ui * 0x1_0000]
  {
    Then(a, OrisSelf(rt, ui), r, rt, v);
    OrisValue(v, ui);
    assert a + [] == a;
  }

  lemma RotateThenClear(v: U64, n: Six)
    ensures ClearLow(RotateLeft(v, n), n) == Up(Low(v, 64 - n), n)
  {
    RotateRange(v, n);
    Split(v, 64 - n);
    Join(Low(v, 64 - n), Shr(v, 64 - n), n);
  }

  /** sldi is a left shift that drops what leaves the 64 bits. */
  lemma SldiValue(v: U64, n: Six)
    ensures ClearLow(RotateLeft(v, n), n) == Up(v, n) % TWO64
  {
    RotateThenClear(v, n);
    LowUp(v, n, 64 - n);
    LowBy64(Up(v, n), n + (64 - n));
  }

  lemma ThenSldi(a: seq<Instr>, r: Regs, rt: Reg, v: U64, n: Six, w: U64)
    requires RunInstrs(a, r) == r[rt := v] && w == Up(v, n) % TWO64
    ensures RunInstrs(a + [Sldi(rt, n)], r) == r[rt := w]
  {
    Then(a, Sldi(rt, n), r, rt, v);
    SldiValue(v, n);
  }

  // ------------------------------------------------------------ rule by rule

  lemma LisOri(rt: Reg, x: U32, r: Regs)
    ensures RunInstrs([Lis(rt, x / 0x1_0000)] + OriUnlessZero(rt, x % 0x1_0000), r) == r[rt := SignExtend32(x)]
    ensures RunInstrs([Lis(rt, x / 0x1_0000)] + [OriSelf(rt, x % 0x1_0000)], r) == r[rt := SignExtend32(x)]
  {
    var h := x / 0x1_0000;
    LisFirst(rt, h, r);
    ThenOri([Lis(rt, h)], r, rt, SignExtend32(h * 0x1_0000), x % 0x1_0000);
  }

  /** LoadImm32 leaves the sign extension of its argument. */
  lemma LoadImm32Correct(rt: Reg, imm: U32, r: Regs)
    ensures RunInstrs(LoadImm32(rt, imm), r) == r[rt := SignExtend32(imm)]
  {
    if imm < 0x8000 || imm >= 0xFFFF_8000 {
      First(Li(rt, imm % 0x1_0000), r);
    } else {
      LisOri(rt, imm, r);
    }
  }

  lemma RotateByZero(v: U64, n: Six)
    requires n == 0
    ensures RotateLeft(v, n) == v
  {
    UpBy64(1, 64 - n);
    LowSmall(v, 64 - n);
  }

  lemma ThenClrldi(a: seq<Instr>, r: Regs, rt: Reg, v: U64, z: Six, n: Six)
    requires RunInstrs(a, r) == r[rt := v] && z == 0 && n == 32
    ensures RunInstrs(a + [Rldicl(rt, rt, z, n)], r) == r[rt := v % 0x1_0000_0000]
  {
    Then(a, Rldicl(rt, rt, z, n), r, rt, v);
    RotateByZero(v, z);
    LowBy32(v, 64 - n);
  }

  lemma ExtendAndCut(imm: U32)
    ensures SignExtend32(imm) % 0x1_0000_0000 == imm
  {
    if imm >= 0x8000_0000 {
      Peel(0xFFFF_FFFF, imm, 0x1_0000_0000);
    }
  }

  lemma CutAndExtend(imm: U64)
    requires imm <= 0x7FFF_FFFF || imm >= 0xFFFF_FFFF_8000_0000
    ensures SignExtend32(imm % 0x1_0000_0000) == imm
  {
    if imm > 0x7FFF_FFFF {
      Peel(0xFFFF_FFFF, imm - (TWO64 - 0x1_0000_0000), 0x1_0000_0000);
    }
  }

  lemma Signed32Correct(rt: Reg, imm: U64, r: Regs)
    requires imm <= 0x7FFF_FFFF || imm >= 0xFFFF_FFFF_8000_0000
    ensures RunInstrs(LoadImm32(rt, imm % 0x1_0000_0000), r) == r[rt := imm]
  {
    LoadImm32Correct(rt, imm % 0x1_0000_0000, r);
    CutAndExtend(imm);
  }

  lemma Unsigned32Correct(rt: Reg, imm: U32, r: Regs)
    ensures RunInstrs(LoadImm32(rt, imm) + [Clrldi(rt, 32)], r) == r[rt := imm]
  {
    LoadImm32Correct(rt, imm, r);
    ExtendAndCut(imm);
    ThenClrldi(LoadImm32(rt, imm), r, rt, SignExtend32(imm), 0, 32);
  }

  lemma LiValue(rt: Reg, v: int, r: Regs)
    requires -0x8000 <= v <= 0x7FFF
    ensures RunInstrs([Li(rt, v % 0x1_0000)], r) == r[rt := Unsigned(v)]
  {
    First(Li(rt, v % 0x1_0000), r);
  }

  lemma Shifted16Correct(rt: Reg, imm: U64, n: Six, v: int, r: Regs)
    requires -0x8000 <= v <= 0x7FFF && Up(Unsigned(v), n) % TWO64 == imm
    ensures RunInstrs([Li(rt, v % 0x1_0000), Sldi(rt, n)], r) == r[rt := imm]
  {
    var i := Li(rt, v % 0x1_0000);
    LiValue(rt, v, r);
    ThenSldi([i], r, rt, Unsigned(v), n, imm);
    assert [i] + [Sldi(rt, n)] == [i, Sldi(rt, n)];
  }

  lemma OnesValue64(n: nat)
    requires n == 64
    ensures Ones(n) == TWO64 - 1
  {
    OnesValue(n);
    UpBy64(1, n);
  }

  lemma RotateOnes(n: Six)
    ensures RotateLeft(TWO64 - 1, n) == TWO64 - 1
  {
    var k := n + (64 - n);
    OnesValue64(k);
    OnesParts(k, 64 - n);
    OnesParts(k, n);
    Split(Ones(k), n);
  }

  /** rldic of -1 leaves ones exactly at bits lo..w-1, counted from the least significant. */
  lemma SelectOnes(lo: Six, w: nat)
    requires lo < w <= 64
    ensures Select(TWO64 - 1, 64 - w, lo) == Up(Ones(w - lo), lo)
  {
    var k := lo + (64 - lo);
    OnesValue64(k);
    OnesParts(k, lo);
    LowUp(Ones(k - lo), lo, w - lo);
    OnesParts(k - lo, w - lo);
  }

  lemma LiRldic(rt: Reg, lo: Six, mb: Six, r: Regs)
    ensures RunInstrs([Li(rt, 0xFFFF), Rldic(rt, rt, lo, mb)], r) == r[rt := Select(TWO64 - 1, mb, lo)]
  {
    var i, j := Li(rt, 0xFFFF), Rldic(rt, rt, lo, mb);
    First(i, r);
    Then([i], j, r, rt, TWO64 - 1);
    RotateOnes(lo);
    assert [i] + [j] == [i, j];
  }

  lemma OnesRunCorrect(rt: Reg, imm: U64, r: Regs)
    requires imm > 0 && PopCount(imm) + (64 - BitLength(imm)) + Shift(imm) == 64
    ensures RunInstrs([Li(rt, 0xFFFF), Rldic(rt, rt, Shift(imm), 64 - BitLength(imm))], r) == r[rt := imm]
  {
    var lo, w := Shift(imm), BitLength(imm);
    LiRldic(rt, lo, 64 - w, r);
    SelectOnes(lo, w);
    StripZeros(imm);
    FullIsOnes(Shr(imm, lo));
  }

  lemma Shifted32Correct(rt: Reg, imm: U64, r: Regs)
    requires imm > 0 && OddPart(imm) <= 0x7FFF_FFFF
    ensures RunInstrs(LoadImm32(rt, OddPart(imm)) + [Sldi(rt, Shift(imm))], r) == r[rt := imm]
  {
    var v := OddPart(imm);
    assert Up(v, Shift(imm)) % TWO64 == imm by { StripZeros(imm); }
    LoadImm32Correct(rt, v, r);
    ThenSldi(LoadImm32(rt, v), r, rt, v, Shift(imm), imm);
  }

  /** sldi by 32 keeps only the low half, so any sign extension above bit 31 is gone. */
  lemma Shifted32Value(hi: U32, n: Six)
    requires n == 32
    ensures Up(SignExtend32(hi), n) % TWO64 == hi * 0x1_0000_0000
  {
    UpBy32(SignExtend32(hi), n);
    if hi >= 0x8000_0000 {
      Peel(0xFFFF_FFFF, hi * 0x1_0000_0000, TWO64);
    }
  }

  lemma ThenShift32(a: seq<Instr>, r: Regs, rt: Reg, hi: U32, n: Six)
    requires RunInstrs(a, r) == r[rt := SignExtend32(hi)] && n == 32
    ensures RunInstrs(a + [Sldi(rt, n)], r) == r[rt := hi * 0x1_0000_0000]
  {
    Shifted32Value(hi, n);
    ThenSldi(a, r, rt, SignExtend32(hi), n, hi * 0x1_0000_0000);
  }

  lemma LowHalf(a: seq<Instr>, r: Regs, rt: Reg, hi: U32, h: U16, l: U16, imm: U64)
    requires RunInstrs(a, r) == r[rt := hi * 0x1_0000_0000]
    requires imm == hi * 0x1_0000_0000 + h * 0x1_0000 + l
    ensures RunInstrs(a + OrisUnlessZero(rt, h) + OriUnlessZero(rt, l), r) == r[rt := imm]
    ensures RunInstrs(a + [OrisSelf(rt, h)] + [OriSelf(rt, l)], r) == r[rt := imm]
  {
    var v := hi * 0x1_0000_0000;
    assert v % 0x1_0000_0000 == 0 by { Peel(hi, 0, 0x1_0000_0000); }
    ThenOris(a, r, rt, v, h);
    assert (v + h * 0x1_0000) % 0x1_0000 == 0 by { Peel(hi * 0x1_0000 + h, 0, 0x1_0000); }
    ThenOri(a + OrisUnlessZero(rt, h), r, rt, v + h * 0x1_0000, l);
    ThenOri(a + [OrisSelf(rt, h)], r, rt, v + h * 0x1_0000, l);
  }

  lemma Halves(imm: U64)
    ensures imm == imm / 0x1_0000_0000 * 0x1_0000_0000 + imm / 0x1_0000 % 0x1_0000 * 0x1_0000 + imm % 0x1_0000
  {}

  lemma HighPart(rt: Reg, hi: U32, r: Regs)
    ensures RunInstrs(HighCode(rt, hi), r) == r[rt := SignExtend32(hi)]
  {
    if hi <= 0x7FFF { First(Li(rt, hi), r); } else { LisOri(rt, hi, r); }
  }

  lemma GeneralCorrect(rt: Reg, imm: U64, r: Regs)
    ensures RunInstrs(GeneralCode(rt, imm), r) == r[rt := imm]
  {
    var hi := imm / 0x1_0000_0000;
    HighPart(rt, hi, r);
    ThenShift32(HighCode(rt, hi), r, rt, hi, 32);
    Halves(imm);
    LowHalf(HighCode(rt, hi) + [Sldi(rt, 32)], r, rt, hi, imm / 0x1_0000 % 0x1_0000, imm % 0x1_0000, imm);
  }

  lemma LoadImm64Runs(rt: Reg, imm: U64, noShift32: bool, r: Regs)
    ensures RunInstrs(LoadImm64(rt, imm, noShift32), r) == r[rt := imm]
  {
    match RuleFor(imm, noShift32)
    case Zero => First(Li(rt, 0), r);
    case Signed32 => Signed32Correct(rt, imm, r);
    case Unsigned32 => Unsigned32Correct(rt, imm, r);
    case Shifted16 => Shifted16Correct(rt, imm, Shift(imm), Shr(Signed(imm), Shift(imm)), r);
    case OnesRun => OnesRunCorrect(rt, imm, r);
    case Shifted32 => Shifted32Correct(rt, imm, r);
    case General => GeneralCorrect(rt, imm, r);
  }

  /** The compiled constant: for every immediate, every target register (r0 included) and both
      settings of the kill switch, decoding and running the emitted words puts the immediate in
      the target and leaves every other register as it was. */
  lemma LoadImm64Correct(rt: Reg, imm: U64, noShift32: bool, r: Regs)
    ensures RunWords(EncodeAll(LoadImm64(rt, imm, noShift32)), r) == Some(r[rt := imm])
  {
    LoadImm64Runs(rt, imm, noShift32, r);
    RunEncoded(LoadImm64(rt, imm, noShift32), r);
  }

  lemma FixedRuns(rt: Reg, imm: U64, r: Regs)
    ensures RunInstrs(LoadImm64Fixed(rt, imm), r) == r[rt := imm]
  {
    var hi, h, l := imm / 0x1_0000_0000, imm / 0x1_0000 % 0x1_0000, imm % 0x1_0000;
    var a := [Lis(rt, hi / 0x1_0000)] + [OriSelf(rt, hi % 0x1_0000)];
    LisOri(rt, hi, r);
    ThenShift32(a, r, rt, hi, 32);
    Halves(imm);
    LowHalf(a + [Sldi(rt, 32)], r, rt, hi, h, l, imm);
    assert LoadImm64Fixed(rt, imm) == a + [Sldi(rt, 32)] + [OrisSelf(rt, h)] + [OriSelf(rt, l)];
  }

  /** The relocation form: always five words, and they load the value. */
  lemma LoadImm64FixedCorrect(rt: Reg, imm: U64, r: Regs)
    ensures RunWords(EncodeAll(LoadImm64Fixed(rt, imm)), r) == Some(r[rt := imm])
    ensures |LoadImm64Fixed(rt, imm)| == 5
  {
    FixedRuns(rt, imm, r);
    RunEncoded(LoadImm64Fixed(rt, imm), r);
  }
}
