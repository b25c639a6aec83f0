/** The emitter object itself: a fixed code buffer, a cursor, the r0 flag and the pending fixups,
    with labels as separate objects.  Each method is proved to do what the corresponding function on
    values does, so that everything proved about programs holds of the object. */
module Emitter {
  import opened Options
  import opened PowerIsa
  import opened Branches
  import opened Arith
  import opened LoadImmediate
  import L = BranchLinker

  class Label {
    var offset: int
    var bound: bool
    var pendingHead: int

    constructor ()
      ensures View() == L.FRESH
    {
      offset, bound, pendingHead := -1, false, -1;
    }

    function View(): L.Label
      reads this
    {
      L.Label(offset, bound, pendingHead)
    }
  }

  class Emitter {
    const buffer: array<Word>
    var offset: nat
    var r0MaybeDirty: bool
    var pendingBranches: seq<L.Fixup>

    /** The cursor is inside a buffer small enough for the int32_t casts of offsets to be exact. */
    ghost predicate Sized()
      reads this
    {
      offset % 4 == 0 && offset <= 4 * buffer.Length < 0x8000_0000
    }

    ghost predicate Valid()
      reads this, buffer
    {
      Sized() && L.WellLinked(View())
    }

    ghost function View(): L.Core
      requires offset <= 4 * buffer.Length
      reads this, buffer
    {
      L.Core(buffer[..offset / 4], r0MaybeDirty, pendingBranches)
    }

    constructor (buf: array<Word>)
      requires 4 * buf.Length < 0x8000_0000
      ensures Valid() && buffer == buf
      ensures View() == L.START.core
    {
      buffer, offset, r0MaybeDirty, pendingBranches := buf, 0, false, [];
    }

    /** An emitter that writes into code already there, from a given byte on. */
    constructor Into(buf: array<Word>, start: nat)
      requires start % 4 == 0 && start <= 4 * buf.Length < 0x8000_0000
      ensures Valid() && buffer == buf && offset == start
      ensures View() == L.Core(buf[..start / 4], false, [])
    {
      buffer, offset, r0MaybeDirty, pendingBranches := buf, start, false, [];
    }

    method ResetR0Dirty()
      requires Valid()
      modifies this`r0MaybeDirty
      ensures Valid() && View() == old(View()).(dirty := false)
    {
      r0MaybeDirty := false;
    }

    method MarkR0Dirty()
      requires Valid()
      modifies this`r0MaybeDirty
      ensures Valid() && View() == old(View()).(dirty := true)
    {
      r0MaybeDirty := true;
    }

    method Emit32(insn: Word)
      requires Sized() && offset + 4 <= 4 * buffer.Length
      modifies this`offset, this`r0MaybeDirty, buffer
      ensures Sized() && View() == L.Emit(old(View()), insn)
      ensures offset == old(offset) + 4
      ensures forall k :: offset / 4 <= k < buffer.Length ==> buffer[k] == old(buffer[k])
    {
      if insn == 0x3800_0000 || insn == 0x4E80_0421 || insn == 0x4E80_0021 ||
         (insn / 0x400_0000 == 18 && insn % 2 == 1) {
        r0MaybeDirty := true;
      }
      ghost var was := buffer[..];
      var i := offset / 4;
      buffer[i] := insn;
      offset := offset + 4;
      assert buffer[..i + 1] == was[..i] + [insn];
      assert buffer[i + 1..] == was[i + 1..];
    }

    method Dc64(lo: Word, hi: Word)
      requires Valid() && offset + 8 <= 4 * buffer.Length
      modifies this`offset, buffer
      ensures Valid() && View() == old(View()).(code := old(View()).code + [lo, hi])
      ensures forall k :: offset / 4 <= k < buffer.Length ==> buffer[k] == old(buffer[k])
    {
      ghost var was := buffer[..];
      var i := offset / 4;
      buffer[i], buffer[i + 1] := lo, hi;
      offset := offset + 8;
      assert buffer[..i + 2] == was[..i] + [lo, hi];
    }

    /** Rewrites the displacement of one emitted word.  The range guards are the precondition. */
    method PatchBranchAt(patchOffset: nat, targetOffset: nat)
      requires patchOffset < 4 * buffer.Length && patchOffset % 4 == 0
      requires Patch(buffer[patchOffset / 4], targetOffset - patchOffset).Some?
      modifies buffer
      ensures Some(buffer[..]) == L.PatchAt(old(buffer[..]), patchOffset, targetOffset)
    {
      var i := patchOffset / 4;
      var insn := buffer[i];
      var opcode := insn / 0x400_0000;
      var off := targetOffset - patchOffset;
      if opcode == 18 {
        insn := insn / 0x400_0000 * 0x400_0000 + off / 4 % 0x100_0000 * 4 + insn % 4;
      } else if opcode == 16 {
        insn := insn / 0x1_0000 * 0x1_0000 + off / 4 % 0x4000 * 4 + insn % 4;
      }
      buffer[i] := insn;
      assert buffer[..] == old(buffer[..])[i := insn];
    }

    method AddPendingBranch(lbl: Label)
      requires Valid() && offset < 4 * buffer.Length && -1 <= lbl.pendingHead < |pendingBranches|
      modifies this`pendingBranches, lbl`pendingHead
      ensures pendingBranches == old(pendingBranches) + [L.Fixup(offset, old(lbl.pendingHead))]
      ensures lbl.pendingHead == |old(pendingBranches)|
    {
      pendingBranches := pendingBranches + [L.Fixup(offset, lbl.pendingHead)];
      lbl.pendingHead := |pendingBranches| - 1;
    }

    /** Walks the label's chain, patching every fixup to the label's offset, and drops the chain. */
    method PatchPending(lbl: Label)
      requires Valid() && lbl.pendingHead < |pendingBranches| && lbl.offset >= 0
      requires L.InCode(L.Chain(pendingBranches, lbl.pendingHead), offset / 4)
      requires L.PatchAll(View().code, L.Chain(pendingBranches, lbl.pendingHead), lbl.offset).Some?
      modifies buffer, lbl`pendingHead
      ensures Valid()
      ensures Some(View().code) == old(L.PatchAll(View().code, L.Chain(pendingBranches, lbl.pendingHead), lbl.offset))
      ensures buffer[offset / 4..] == old(buffer[offset / 4..])
      ensures lbl.pendingHead == -1
    {
      ghost var result := L.PatchAll(View().code, L.Chain(pendingBranches, lbl.pendingHead), lbl.offset);
      ghost var n := offset / 4;
      var idx := lbl.pendingHead;
      while idx >= 0
        invariant idx < |pendingBranches| && lbl.offset >= 0
        invariant L.Linked(buffer[..n], pendingBranches)
        invariant L.InCode(L.Chain(pendingBranches, idx), n)
        invariant L.PatchAll(buffer[..n], L.Chain(pendingBranches, idx), lbl.offset) == result
        invariant buffer[n..] == old(buffer[n..])
        decreases idx
      {
        var entry := pendingBranches[idx];
        ghost var code, rest := buffer[..n], buffer[n..];
        ghost var chain := L.Chain(pendingBranches, idx);
        assert chain[0] == entry.at && chain[1..] == L.Chain(pendingBranches, entry.next);
        assert code[entry.at / 4] == buffer[entry.at / 4];
        assert L.PatchAt(code, entry.at, lbl.offset).Some?;
        PatchBranchAt(entry.at, lbl.offset);
        assert Some(buffer[..n]) == L.PatchAt(code, entry.at, lbl.offset);
        assert buffer[n..] == rest;
        idx := entry.next;
      }
      lbl.pendingHead := -1;
    }

    /** Bind the label here.  The guards that PatchPending and PatchBranchAt throw on are the precondition. */
    method Bind(lbl: Label)
      requires Valid() && L.BindLabel(View(), lbl.View()).Some?
      modifies buffer, lbl
      ensures Valid() && Some((View(), lbl.View())) == old(L.BindLabel(View(), lbl.View()))
      ensures buffer[offset / 4..] == old(buffer[offset / 4..])
    {
      L.ChainInCode(View(), lbl.pendingHead);
      lbl.offset := offset;
      lbl.bound := true;
      PatchPending(lbl);
    }

    /** b, bl and bc on a label.  The range guard is the precondition. */
    method Branch(kind: Kind, lbl: Label)
      requires Valid() && offset + 4 <= 4 * buffer.Length && -1 <= lbl.pendingHead < |pendingBranches|
      requires L.EmitBranch(View(), lbl.View(), kind).Some?
      modifies this`offset, this`r0MaybeDirty, this`pendingBranches, buffer, lbl`pendingHead
      ensures Valid() && Some((View(), lbl.View())) == old(L.EmitBranch(View(), lbl.View(), kind))
      ensures buffer[offset / 4..] == old(buffer[offset / 4 + 1..])
    {
      if lbl.bound {
        Emit32(BranchWord(kind, lbl.offset - offset));
      } else {
        AddPendingBranch(lbl);
        Emit32(Placeholder(kind));
      }
    }

    // -------------------------------------------------- constants

    /** What the buffer must become once the instructions in code are emitted from state start. */
    ghost predicate Emitted(start: L.Core, code: seq<Instr>)
      requires Sized()
      reads this, buffer
    {
      View() == L.EmitAll(start, EncodeAll(code))
    }

    /** One more instruction of a constant-loading sequence; done is what it has emitted so far. */
    method Put(i: Instr, ghost start: L.Core, ghost done: seq<Instr>)
      requires Valid() && offset + 4 <= 4 * buffer.Length && Emitted(start, done)
      modifies this`offset, this`r0MaybeDirty, buffer
      ensures Valid() && offset == old(offset) + 4 && Emitted(start, done + [i])
      ensures forall k :: offset / 4 <= k < buffer.Length ==> buffer[k] == old(buffer[k])
    {
      Emit32(Encode(i));
      assert EncodeAll(done + [i]) == EncodeAll(done) + [Encode(i)];
    }

    method LoadImm32(rt: Reg, imm: U32, ghost start: L.Core)
      requires Valid() && offset + 8 <= 4 * buffer.Length && Emitted(start, [])
      modifies this`offset, this`r0MaybeDirty, buffer
      ensures Valid() && old(offset) <= offset <= old(offset) + 8 && Emitted(start, LoadImmediate.LoadImm32(rt, imm))
      ensures forall k :: offset / 4 <= k < buffer.Length ==> buffer[k] == old(buffer[k])
    {
      if imm < 0x8000 || imm >= 0xFFFF_8000 {
        Put(Li(rt, imm % 0x1_0000), start, []);
      } else {
        Put(Lis(rt, imm / 0x1_0000), start, []);
        if imm % 0x1_0000 != 0 {
          Put(OriSelf(rt, imm % 0x1_0000), start, [Lis(rt, imm / 0x1_0000)]);
        }
      }
      assert [] + [Li(rt, imm % 0x1_0000)] == [Li(rt, imm % 0x1_0000)];
      assert [] + [Lis(rt, imm / 0x1_0000)] == [Lis(rt, imm / 0x1_0000)] == [Lis(rt, imm / 0x1_0000)] + [];
    }

    /** The first half of LoadImm64's general path. */
    method LoadHigh(rt: Reg, hi: U32, ghost start: L.Core)
      requires Valid() && offset + 8 <= 4 * buffer.Length && Emitted(start, [])
      modifies this`offset, this`r0MaybeDirty, buffer
      ensures Valid() && old(offset) <= offset <= old(offset) + 8 && Emitted(start, HighCode(rt, hi))
      ensures forall k :: offset / 4 <= k < buffer.Length ==> buffer[k] == old(buffer[k])
    {
      if hi != 0 {
        if hi <= 0x7FFF {
          Put(Li(rt, hi), start, []);
          assert [] + [Li(rt, hi)] == [Li(rt, hi)];
        } else {
          var i := Lis(rt, hi / 0x1_0000);
          Put(i, start, []);
          assert [] + [i] == [i] && [i] + [] == [i];
          if hi % 0x1_0000 != 0 {
            Put(OriSelf(rt, hi % 0x1_0000), start, [i]);
          }
        }
      } else {
        Put(Li(rt, 0), start, []);
        assert [] + [Li(rt, 0)] == [Li(rt, 0)];
      }
    }

    /** The second half: oris and ori, each left out when its half-word is zero. */
    method LoadLow(rt: Reg, h: U16, l: U16, ghost start: L.Core, ghost done: seq<Instr>)
      requires Valid() && offset + 8 <= 4 * buffer.Length && Emitted(start, done)
      modifies this`offset, this`r0MaybeDirty, buffer
      ensures Valid() && old(offset) <= offset && Emitted(start, done + OrisUnlessZero(rt, h) + OriUnlessZero(rt, l))
      ensures forall k :: offset / 4 <= k < buffer.Length ==> buffer[k] == old(buffer[k])
    {
      assert done + [] == done;
      if h != 0 {
        Put(OrisSelf(rt, h), start, done);
      }
      ghost var mid := done + OrisUnlessZero(rt, h);
      assert mid + [] == mid;
      if l != 0 {
        Put(OriSelf(rt, l), start, mid);
      }
    }

    /** The general path of LoadImm64. */
    method LoadHalves(rt: Reg, imm: U64, ghost start: L.Core)
      requires Valid() && offset + 20 <= 4 * buffer.Length && Emitted(start, [])
      modifies this`offset, this`r0MaybeDirty, buffer
      ensures Valid() && Emitted(start, GeneralCode(rt, imm))
      ensures forall k :: offset / 4 <= k < buffer.Length ==> buffer[k] == old(buffer[k])
    {
      var hi, lo := imm / 0x1_0000_0000, imm % 0x1_0000_0000;
      LoadHigh(rt, hi, start);
      Put(Sldi(rt, 32), start, HighCode(rt, hi));
      LowHalfParts(imm);
      LoadLow(rt, lo / 0x1_0000, lo % 0x1_0000, start, HighCode(rt, hi) + [Sldi(rt, 32)]);
    }

    method PutTwo(i: Instr, j: Instr, ghost start: L.Core)
      requires Valid() && offset + 8 <= 4 * buffer.Length && Emitted(start, [])
      modifies this`offset, this`r0MaybeDirty, buffer
      ensures Valid() && offset == old(offset) + 8 && Emitted(start, [i, j])
      ensures forall k :: offset / 4 <= k < buffer.Length ==> buffer[k] == old(buffer[k])
    {
      Put(i, start, []);
      assert [] + [i] == [i] && [i] + [j] == [i, j];
      Put(j, start, [i]);
    }

    lemma LowHalfParts(imm: U64)
      ensures imm % 0x1_0000_0000 / 0x1_0000 == imm / 0x1_0000 % 0x1_0000
      ensures imm % 0x1_0000_0000 % 0x1_0000 == imm % 0x1_0000
    {}

    /** LoadImm64's rules for constants wider than 32 bits. */
    method LoadWide(rt: Reg, imm: U64, noShift32: bool, ghost start: L.Core)
      requires Valid() && offset + 20 <= 4 * buffer.Length && Emitted(start, [])
      requires 0xFFFF_FFFF < imm < 0xFFFF_FFFF_8000_0000
      modifies this`offset, this`r0MaybeDirty, buffer
      ensures Valid() && Emitted(start, LoadImmediate.LoadImm64(rt, imm, noShift32))
      ensures forall k :: offset / 4 <= k < buffer.Length ==> buffer[k] == old(buffer[k])
    {
      hide Shr, Up, PopCount, BitLength, Unsigned, Signed, L.EmitAll;
      var tz := Shift(imm);
      var v := Shr(Signed(imm), tz);
      if -0x8000 <= v <= 0x7FFF && Up(Unsigned(v), tz) % TWO64 == imm {
        PutTwo(Li(rt, v % 0x1_0000), Sldi(rt, tz), start);
        return;
      }
      if PopCount(imm) + (64 - BitLength(imm)) + tz == 64 {
        PutTwo(Li(rt, 0xFFFF), Rldic(rt, rt, tz, 64 - BitLength(imm)), start);
        return;
      }
      if !noShift32 && tz > 0 && Shr(imm, tz) <= 0x7FFF_FFFF {
        LoadImm32(rt, OddPart(imm), start);
        Put(Sldi(rt, tz), start, LoadImmediate.LoadImm32(rt, OddPart(imm)));
        return;
      }
      LoadHalves(rt, imm, start);
    }

    method LoadImm64(rt: Reg, imm: U64, noShift32: bool)
      requires Valid() && offset + 20 <= 4 * buffer.Length
      modifies this`offset, this`r0MaybeDirty, buffer
      ensures Valid()
      ensures View() == L.EmitAll(old(View()), EncodeAll(LoadImmediate.LoadImm64(rt, imm, noShift32)))
      ensures forall k :: offset / 4 <= k < buffer.Length ==> buffer[k] == old(buffer[k])
    {
      ghost var start := View();
      if imm == 0 {
        Put(Li(rt, 0), start, []);
        assert [] + [Li(rt, 0)] == [Li(rt, 0)];
        return;
      }
      if imm <= 0x7FFF_FFFF || imm >= 0xFFFF_FFFF_8000_0000 {
        LoadImm32(rt, imm % 0x1_0000_0000, start);
        return;
      }
      if imm <= 0xFFFF_FFFF {
        LoadImm32(rt, imm, start);
        Put(Clrldi(rt, 32), start, LoadImmediate.LoadImm32(rt, imm));
        return;
      }
      LoadWide(rt, imm, noShift32, start);
    }

    method LoadImm64Fixed(rt: Reg, imm: U64)
      requires Valid() && offset + 20 <= 4 * buffer.Length
      modifies this`offset, this`r0MaybeDirty, buffer
      ensures Valid() && offset == old(offset) + 20
      ensures View() == L.EmitAll(old(View()), EncodeAll(LoadImmediate.LoadImm64Fixed(rt, imm)))
      ensures forall k :: offset / 4 <= k < buffer.Length ==> buffer[k] == old(buffer[k])
    {
      ghost var start := View();
      var hi, lo := imm / 0x1_0000_0000, imm % 0x1_0000_0000;
      LowHalfParts(imm);
      var i, j, k, m, n := Lis(rt, hi / 0x1_0000), OriSelf(rt, hi % 0x1_0000), Sldi(rt, 32),
        OrisSelf(rt, lo / 0x1_0000), OriSelf(rt, lo % 0x1_0000);
      PutTwo(i, j, start);
      Put(k, start, [i, j]);
      Put(m, start, [i, j] + [k]);
      Put(n, start, [i, j] + [k] + [m]);
      assert [i, j] + [k] + [m] + [n] == LoadImmediate.LoadImm64Fixed(rt, imm);
    }
  }

  lemma {:induction false} EmitAllAppends(c: L.Core, ws: seq<Word>)
    ensures L.EmitAll(c, ws).code == c.code + ws
    decreases |ws|
  {
    if ws != [] {
      EmitAllAppends(c, ws[..|ws| - 1]);
    }
  }

  /** Whatever the registers hold, running the words puts the value in the target and changes nothing else. */
  ghost predicate Loads(words: seq<Word>, rt: Reg, imm: U64) {
    forall r: Regs :: RunWords(words, r) == Some(r[rt := imm])
  }

  /** The relocation of a guest address: refused if the window does not fit, else the fixed-width form is written over
      it.  Every word in front of the window and behind it stays, and running the window loads the new value and changes
      no other register. */
  method RelocateMove(code: array<Word>, at: nat, rt: Reg, imm: U64) returns (ok: bool)
    requires at % 4 == 0 && 4 * code.Length < 0x8000_0000
    modifies code
    ensures ok <==> at + 20 <= 4 * code.Length
    ensures !ok ==> code[..] == old(code[..])
    ensures ok ==>
      && (forall k :: 0 <= k < at / 4 || at / 4 + 5 <= k < code.Length ==> code[k] == old(code[k]))
      && Loads(code[at / 4..at / 4 + 5], rt, imm)
  {
    if at + 20 > 4 * code.Length {
      return false;
    }
    var patch := new Emitter.Into(code, at);
    ghost var words := EncodeAll(LoadImmediate.LoadImm64Fixed(rt, imm));
    patch.LoadImm64Fixed(rt, imm);
    EmitAllAppends(old(L.Core(code[..at / 4], false, [])), words);
    assert code[..at / 4 + 5] == old(code[..at / 4]) + words;
    forall k | 0 <= k < at / 4
      ensures code[k] == old(code[k])
    {
      assert code[..at / 4 + 5][k] == old(code[..at / 4])[k];
    }
    assert code[at / 4..at / 4 + 5] == code[..at / 4 + 5][at / 4..] == words;
    forall r: Regs
      ensures RunWords(words, r) == Some(r[rt := imm])
    {
      LoadImm64FixedCorrect(rt, imm, r);
    }
    return true;
  }
}
