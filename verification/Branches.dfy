/** Branch words: the I-form and B-form encoders, the patcher that fills in a displacement later,
    and the decoder that reads a displacement back. */
module Branches {
  import opened Arith
  import opened Options
  import opened PowerIsa

  /** The label branches the emitter offers; bo and bi are the fields of a conditional branch. */
  datatype Kind = B | BL | BC(bo: Reg, bi: Reg)

  /** The range guards: a byte displacement that the kind's field can hold. */
  predicate Reaches(k: Kind, off: int) {
    off % 4 == 0 && if k.BC? then -0x8000 <= off < 0x8000 else -0x200_0000 <= off < 0x200_0000
  }

  /** What the emitter writes while the target is unknown. */
  function Placeholder(k: Kind): Word {
    match k
    case B => 18 * 0x400_0000
    case BL => 18 * 0x400_0000 + 1
    case BC(bo, bi) => 16 * 0x400_0000 + bo * 0x20_0000 + bi * 0x1_0000
  }

  /** The displacement field: the two's complement of off / 4, cut to 24 or 14 bits. */
  function Field(k: Kind, off: int): int {
    if k.BC? then off / 4 % 0x4000 else off / 4 % 0x100_0000
  }

  function BranchWord(k: Kind, off: int): Word {
    Placeholder(k) + Field(k, off) * 4
  }

  /** A branch of kind k from byte offset from to byte offset to; None where the range guard throws. */
  function Link(k: Kind, from: int, to: int): Option<Word> {
    if Reaches(k, to - from) then Some(BranchWord(k, to - from)) else None
  }

  /** PatchBranchAt's rewriting of one word; None where a guard throws.
      insn & 0xFC000003 keeps the opcode and the two low bits, insn & 0xFFFF0003 the upper half and the two low bits. */
  function Patch(w: Word, off: int): Option<Word> {
    var op := w / 0x400_0000;
    if off % 4 != 0 then None
    else if op == 18 then
      if -0x200_0000 <= off < 0x200_0000
      then Some(w / 0x400_0000 * 0x400_0000 + off / 4 % 0x100_0000 * 4 + w % 4) else None
    else if op == 16 then
      if -0x8000 <= off < 0x8000
      then Some(w / 0x1_0000 * 0x1_0000 + off / 4 % 0x4000 * 4 + w % 4) else None
    else Some(w)
  }

  /** Reads back the kind and the signed byte displacement of a relative branch. */
  function DecodeBranch(w: Word): Option<(Kind, int)> {
    if w / 2 % 2 == 1 then None
    else match w / 0x400_0000
      case 18 => Some((if w % 2 == 1 then BL else B, SignedField(w / 4 % 0x100_0000, 0x100_0000)))
      case 16 =>
        if w % 2 == 1 then None
        else Some((BC(w / 0x20_0000 % 32, w / 0x1_0000 % 32), SignedField(w / 4 % 0x4000, 0x4000)))
      case _ => None
  }

  function SignedField(f: int, m: int): int {
    4 * (if f < m / 2 then f else f - m)
  }

  lemma PlaceholderParts(k: Kind)
    ensures var w := Placeholder(k);
            && w / 0x400_0000 == (if k.BC? then 16 else 18)
            && (k.BC? ==> w / 0x1_0000 * 0x1_0000 == w && w % 4 == 0)
            && (!k.BC? ==> w == 18 * 0x400_0000 + w % 4)
  {}

  /** Patching a placeholder gives the branch, or throws exactly when the target is out of reach. */
  lemma PatchPlaceholder(k: Kind, from: int, to: int)
    ensures Patch(Placeholder(k), to - from) == Link(k, from, to)
  {
    PlaceholderParts(k);
  }

  lemma FieldReadsBack(k: Kind, off: int)
    requires Reaches(k, off)
    ensures SignedField(Field(k, off), if k.BC? then 0x4000 else 0x100_0000) == off
  {}

  /** The encoded branch goes where it was told to, with opcode, BO, BI and LK intact. */
  lemma BranchDecodes(k: Kind, off: int)
    requires Reaches(k, off)
    ensures DecodeBranch(BranchWord(k, off)) == Some((k, off))
  {
    FieldReadsBack(k, off);
    match k
    case BC(bo, bi) => ConditionalParts(bo, bi, Field(k, off));
    case B => JumpParts(Field(k, off), 0);
    case BL => JumpParts(Field(k, off), 1);
  }

  /** The range guards are those of the fields: a displacement is accepted exactly if some word holds it. */
  lemma ReachesIff(k: Kind, off: int)
    ensures Reaches(k, off) <==> exists w: Word :: DecodeBranch(w) == Some((k, off))
  {
    if Reaches(k, off) {
      BranchDecodes(k, off);
    }
    forall w: Word | DecodeBranch(w) == Some((k, off))
      ensures Reaches(k, off)
    {
    }
  }

  /** A word that is a branch already is turned to the new target, or refused exactly when that is out of reach; its
      kind stays. */
  lemma PatchRelinks(w: Word, off: int)
    requires DecodeBranch(w).Some?
    ensures var k := DecodeBranch(w).value.0;
      && (Patch(w, off).Some? <==> Reaches(k, off))
      && (Patch(w, off).Some? ==> DecodeBranch(Patch(w, off).value) == Some((k, off)))
  {
    var k := DecodeBranch(w).value.0;
    if Reaches(k, off) {
      PatchIsBranch(w, off);
      BranchDecodes(k, off);
    }
  }

  lemma PatchIsBranch(w: Word, off: int)
    requires DecodeBranch(w).Some? && Reaches(DecodeBranch(w).value.0, off)
    ensures Patch(w, off) == Some(BranchWord(DecodeBranch(w).value.0, off))
  {
    assert w % 4 == 2 * (w / 2 % 2) + w % 2;
    assert w / 0x20_0000 == w / 0x1_0000 / 32 && w / 0x400_0000 == w / 0x20_0000 / 32;
  }

  lemma LinkDecodes(k: Kind, from: int, to: int)
    requires Link(k, from, to).Some?
    ensures DecodeBranch(Link(k, from, to).value) == Some((k, to - from))
  {
    BranchDecodes(k, to - from);
  }

  lemma JumpParts(f: int, lk: int)
    requires 0 <= f < 0x100_0000 && 0 <= lk < 2
    ensures var w := 18 * 0x400_0000 + lk + f * 4;
            w % 2 == lk && w / 2 % 2 == 0 && w / 4 % 0x100_0000 == f && w / 0x400_0000 == 18
  {
    var w := 18 * 0x400_0000 + lk + f * 4;
    assert w / 4 == 18 * 0x100_0000 + f && w / 2 == 2 * (18 * 0x100_0000 + f);
  }

  lemma ConditionalParts(bo: Reg, bi: Reg, f: int)
    requires 0 <= f < 0x4000
    ensures var w := 16 * 0x400_0000 + bo * 0x20_0000 + bi * 0x1_0000 + f * 4;
            && w % 2 == 0 && w / 2 % 2 == 0 && w / 4 % 0x4000 == f
            && w / 0x1_0000 % 32 == bi && w / 0x20_0000 % 32 == bo && w / 0x400_0000 == 16
  {
    var w := 16 * 0x400_0000 + bo * 0x20_0000 + bi * 0x1_0000 + f * 4;
    assert w / 4 == (16 * 0x400 + bo * 0x20 + bi) * 0x4000 + f;
    assert w / 0x1_0000 == 16 * 0x400 + bo * 0x20 + bi;
    assert w / 0x20_0000 == 16 * 0x20 + bo;
  }

  // ------------------------------------------------------------- r0 tracking

  /** The words Emit32 takes as evidence that r0 was clobbered: li r0,0, bctrl, blrl and a
      linking I-form branch. */
  predicate Clobbers(w: Word) {
    w == 0x3800_0000 || w == 0x4E80_0421 || w == 0x4E80_0021 || (w / 0x400_0000 == 18 && w % 2 == 1)
  }

  /** The fields of an XL-form branch, bh being the five bits between BI and XO. */
  datatype XLFields = XL(bo: int, bi: int, bh: int, xo: int, lk: int)

  /** EmitXL as bctrl and blrl use it: 19(6) | BO(5) | BI(5) | 0(5) | XO(10) | LK(1). */
  function XLForm(bo: Reg, bi: Reg, xo: int, lk: int): Word
    requires 0 <= xo < 1024 && 0 <= lk < 2
  {
    19 * 0x400_0000 + bo * 0x20_0000 + bi * 0x1_0000 + xo * 2 + lk
  }

  /** Reads a word by the field positions of Power ISA 2.07, section 1.6.1.7. */
  function DecodeXL(w: Word): Option<XLFields> {
    if w / 0x400_0000 != 19 then None
    else Some(XL(w / 0x20_0000 % 32, w / 0x1_0000 % 32, w / 0x800 % 32, w / 2 % 1024, w % 2))
  }

  const BCCTR := 528
  const BCLR := 16

  /** What the word is, by decoding: `li r0,0`, a linking I-form branch, or an unconditional branch to the count or
      link register that links. */
  predicate RestoresOrCalls(w: Word) {
    || Decode(w) == Some(Addi(0, 0, 0))
    || (w / 0x400_0000 == 18 && w % 2 == 1)
    || DecodeXL(w) == Some(XL(20, 0, 0, BCCTR, 1))
    || DecodeXL(w) == Some(XL(20, 0, 0, BCLR, 1))
  }

  lemma XLFormFields(bo: Reg, bi: Reg, xo: int, lk: int)
    requires 0 <= xo < 1024 && 0 <= lk < 2
    ensures DecodeXL(XLForm(bo, bi, xo, lk)) == Some(XL(bo, bi, 0, xo, lk))
  {
    XLParts(XLForm(bo, bi, xo, lk), bo, bi, 0, xo, lk);
  }

  lemma XLParts(w: Word, bo: Reg, bi: Reg, bh: Reg, xo: int, lk: int)
    requires 0 <= xo < 1024 && 0 <= lk < 2
    requires w == 19 * 0x400_0000 + bo * 0x20_0000 + bi * 0x1_0000 + bh * 0x800 + xo * 2 + lk
    ensures DecodeXL(w) == Some(XL(bo, bi, bh, xo, lk))
  {
    Peel(((19 * 32 + bo) * 32 + bi) * 32 + bh, xo * 2 + lk, 0x800);
    Peel((19 * 32 + bo) * 32 + bi, bh * 0x800 + xo * 2 + lk, 0x1_0000);
    Peel(19 * 32 + bo, bi * 0x1_0000 + bh * 0x800 + xo * 2 + lk, 0x20_0000);
    Peel(19, bo * 0x20_0000 + bi * 0x1_0000 + bh * 0x800 + xo * 2 + lk, 0x400_0000);
    Peel((19 * 32 + bo) * 32 + bi, bh, 32);
    Peel(19 * 32 + bo, bi, 32);
    Peel(19, bo, 32);
    Peel((((19 * 32 + bo) * 32 + bi) * 32 + bh) * 1024 + xo, lk, 2);
    Peel(((19 * 32 + bo) * 32 + bi) * 32 + bh, xo, 1024);
  }

  /** An XL-form word is determined by its fields. */
  lemma XLUnpacks(w: Word)
    requires w / 0x400_0000 == 19
    ensures var f := DecodeXL(w).value;
      w == 19 * 0x400_0000 + f.bo * 0x20_0000 + f.bi * 0x1_0000 + f.bh * 0x800 + f.xo * 2 + f.lk
  {
    assert w / 0x800 == w / 2 / 1024 && w / 0x1_0000 == w / 0x800 / 32;
    assert w / 0x20_0000 == w / 0x1_0000 / 32 && w / 0x400_0000 == w / 0x20_0000 / 32;
  }

  lemma ClobbersIff(w: Word)
    ensures Clobbers(w) <==> RestoresOrCalls(w)
  {
    DFormFields(14, 0, 0, 0);
    XLFormFields(20, 0, BCCTR, 1);
    XLFormFields(20, 0, BCLR, 1);
    if w / 0x400_0000 == 19 {
      XLUnpacks(w);
    }
    if w / 0x400_0000 == 14 {
      DUnpacks(w);
    }
  }

  lemma DUnpacks(w: Word)
    requires w / 0x400_0000 == 14
    ensures w == 14 * 0x400_0000 + w / 0x20_0000 % 32 * 0x20_0000 + w / 0x1_0000 % 32 * 0x1_0000 + w % 0x1_0000
  {
    assert w / 0x20_0000 == w / 0x1_0000 / 32 && w / 0x400_0000 == w / 0x20_0000 / 32;
  }

  /** Patching never makes or hides such a word, whatever word it is applied to. */
  lemma PatchKeepsClobber(w: Word, off: int)
    requires Patch(w, off).Some?
    ensures Clobbers(Patch(w, off).value) <==> Clobbers(w)
  {
    var q, h, r := w / 0x400_0000, w / 0x1_0000, w % 4;
    KeepsTop(q, off / 4 % 0x100_0000 * 4 + r, w);
    KeepsTop(q, h % 0x400 * 0x1_0000 + off / 4 % 0x4000 * 4 + r, w);
    assert h / 0x400 == q && h == q * 0x400 + h % 0x400;
    EvenField(q * 0x400_0000 / 4 + off / 4 % 0x100_0000, w);
    EvenField(h * 0x1_0000 / 4 + off / 4 % 0x4000, w);
  }

  lemma KeepsTop(q: int, low: int, w: Word)
    requires q == w / 0x400_0000 && 0 <= low < 0x400_0000
    ensures (q * 0x400_0000 + low) / 0x400_0000 == q
  {
    Peel(q, low, 0x400_0000);
  }

  lemma EvenField(f: int, w: Word)
    ensures (f * 4 + w % 4) % 2 == w % 2
  {}

  lemma BranchClobbers(k: Kind, off: int)
    ensures Clobbers(BranchWord(k, off)) <==> k.BL?
    ensures Clobbers(Placeholder(k)) <==> k.BL?
  {
    match k
    case BC(bo, bi) => ConditionalParts(bo, bi, Field(k, off)); ConditionalParts(bo, bi, 0);
    case B => JumpParts(Field(k, off), 0); JumpParts(0, 0);
    case BL => JumpParts(Field(k, off), 1); JumpParts(0, 1);
  }
}
