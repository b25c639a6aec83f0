/** How many words a constant costs. */
module ImmediateLength {
  import opened Arith
  import opened PowerIsa
  import opened LoadImmediate

  lemma {:induction false} ShrTowardZero(x: int, n: nat)
    ensures x >= 0 ==> 0 <= Shr(x, n) <= x
    ensures x < 0 ==> x <= Shr(x, n) < 0
    decreases n
  {
    if n > 0 {
      ShrTowardZero(x / 2, n - 1);
    }
  }

  lemma {:induction false} ShrAtLeast(x: int, a: nat, b: nat)
    requires x >= Up(1, a + b)
    ensures Shr(x, a) >= Up(1, b)
    decreases a
  {
    if a > 0 {
      ShrAtLeast(x / 2, a - 1, b);
    }
  }

  lemma {:induction false} ZerosAtLeast(x: nat, n: nat)
    requires x > 0 && Low(x, n) == 0
    ensures TrailingZeros(x) >= n
  {
    if n > 0 {
      Split(x / 2, n - 1);
      ZerosAtLeast(x / 2, n - 1);
    }
  }

  /** Shifting the signed value right by the trailing zeros is exact. */
  lemma SignedOddPart(imm: U64, n: Six)
    requires imm >= 0x8000_0000_0000_0000 && n == Shift(imm)
    ensures Shr(Signed(imm), n) == Shr(imm, n) - Up(1, 64 - n)
    ensures Up(Shr(Signed(imm), n), n) == Signed(imm)
  {
    StripZeros(imm);
    UpAdd(1, 64 - n, n);
    UpBy64(1, 64 - n + n);
    UpMinus(Shr(imm, n), Up(1, 64 - n), n);
    UpMonotonic(1, 0, n);
    Join(Shr(imm, n) - Up(1, 64 - n), 0, n);
  }

  lemma {:induction false} UpOf64(n: nat)
    ensures Up(TWO64, n) == TWO64 * Up(1, n)
  {
    if n > 0 {
      UpOf64(n - 1);
    }
  }

  lemma NegativeExact(imm: U64, v: int, n: nat)
    requires Up(v, n) == imm - TWO64
    ensures Up(v + TWO64, n) % TWO64 == imm
  {
    UpPlus(v, TWO64, n);
    UpOf64(n);
    Peel(Up(1, n) - 1, imm, TWO64);
  }

  /** So the second half of the shifted-16 test never fails: the rule applies exactly when v is an int16_t. */
  lemma Shifted16Exact(imm: U64, n: Six)
    requires imm > 0 && n == Shift(imm)
    ensures Up(Unsigned(Shr(Signed(imm), n)), n) % TWO64 == imm
  {
    ShrTowardZero(Signed(imm), n);
    if imm >= 0x8000_0000_0000_0000 {
      SignedOddPart(imm, n);
      NegativeExact(imm, Shr(Signed(imm), n), n);
    } else {
      assert Up(Shr(imm, n), n) == imm by { StripZeros(imm); }
    }
  }

  /** If the odd part is small, the signed shifted value is an int16_t. */
  lemma SmallOddPart(imm: U64, n: Six)
    requires imm > 0 && n == Shift(imm) && Shr(imm, n) <= 0x7FFF
    ensures -0x8000 <= Shr(Signed(imm), n) <= 0x7FFF
  {
    ShrTowardZero(Signed(imm), n);
    if imm >= 0x8000_0000_0000_0000 {
      SignedOddPart(imm, n);
      var k := n + (63 - n);
      assert Up(1, k) == 0x8000_0000_0000_0000 by { UpBy64(1, k + 1); }
      ShrAtLeast(imm, n, 63 - n);
    }
  }

  lemma TopHalfOnly(imm: U64, n: Six, k: nat)
    requires imm > 0 && n == Shift(imm) && k == 32
    requires imm % 0x1_0000_0000 == 0 && imm / 0x1_0000_0000 <= 0x7FFF
    ensures 0 <= Shr(Signed(imm), n) <= 0x7FFF
  {
    LowBy32(imm, k);
    ZerosAtLeast(imm, k);
    ShrAdd(imm, k, n - k);
    ShrBy32(imm, k);
    ShrTowardZero(imm / 0x1_0000_0000, n - k);
  }

  lemma TopQuarterOnly(imm: U64, n: Six, k: nat)
    requires imm > 0 && n == Shift(imm) && k == 48
    requires imm % 0x1_0000_0000_0000 == 0
    ensures -0x8000 <= Shr(Signed(imm), n) <= 0x7FFF
  {
    ShrBy48(Signed(imm), k);
    LowBy48(imm, k);
    ZerosAtLeast(imm, k);
    ShrAdd(Signed(imm), k, n - k);
    ShrTowardZero(Signed(imm) / 0x1_0000_0000_0000, n - k);
  }

  lemma ShrBy48(x: int, n: nat)
    requires n == 48
    ensures Shr(x, n) == x / 0x1_0000_0000_0000
  {
    ShrAdd(x, n - 16, n - 32);
    ShrBy32(x, n - 16);
    ShrBy16(x / 0x1_0000_0000, n - 32);
  }

  lemma LowBy48(x: int, n: nat)
    requires n == 48
    ensures Low(x, n) == x % 0x1_0000_0000_0000
  {
    Split(x, n);
    ShrBy48(x, n);
    UpAdd(x / 0x1_0000_0000_0000, n - 16, n - 32);
    UpBy32(x / 0x1_0000_0000_0000, n - 16);
    UpBy16(0x1_0000_0000 * (x / 0x1_0000_0000_0000), n - 32);
  }

  /** A constant that the general path builds in two words is claimed by an earlier rule. */
  lemma TwoWordGeneral(rt: Reg, imm: U64, n: Six)
    requires imm > 0xFFFF_FFFF && n == Shift(imm) && |GeneralCode(rt, imm)| <= 2
    ensures -0x8000 <= Shr(Signed(imm), n) <= 0x7FFF
  {
    var hi := imm / 0x1_0000_0000;
    Halves(imm);
    if hi <= 0x7FFF {
      TopHalfOnly(imm, n, 32);
    } else {
      Peel(hi / 0x1_0000, 0, 0x1_0000_0000_0000);
      TopQuarterOnly(imm, n, 48);
    }
  }

  /** Reaching the shifted-32 rule means the odd part needs lis and ori: three words, and the
      general path would have cost at least as many. */
  lemma Shifted32Length(rt: Reg, imm: U64)
    requires RuleFor(imm, false) == Shifted32
    ensures |LoadImm64(rt, imm, false)| == 3 <= |GeneralCode(rt, imm)|
  {
    var n := Shift(imm);
    Shifted16Exact(imm, n);
    if Shr(imm, n) <= 0x7FFF {
      SmallOddPart(imm, n);
    } else if |GeneralCode(rt, imm)| <= 2 {
      TwoWordGeneral(rt, imm, n);
    }
  }

  lemma Unsigned32Length(rt: Reg, imm: U64)
    requires 0x7FFF_FFFF < imm <= 0xFFFF_FFFF
    ensures |GeneralCode(rt, imm)| >= 3
  {
    assert imm / 0x1_0000 % 0x1_0000 != 0;
  }

  /** LoadImm64 costs one to five words and never more than the general path. */
  lemma LoadImm64Length(rt: Reg, imm: U64, noShift32: bool)
    ensures 1 <= |LoadImm64(rt, imm, noShift32)| <= 5
    ensures |LoadImm64(rt, imm, noShift32)| <= |GeneralCode(rt, imm)|
    ensures RuleFor(imm, noShift32) == Shifted32 ==> |LoadImm64(rt, imm, noShift32)| == 3
  {
    match RuleFor(imm, noShift32)
    case Unsigned32 => Unsigned32Length(rt, imm);
    case Shifted32 => Shifted32Length(rt, imm);
    case _ =>
  }
}
