/** The part of the Power instruction set that constant loading needs: D-form and
    MD-form words, their decoder, and what each instruction does to the registers.

    A word is an integer below 2^32.  The emitter builds words by or-ing shifted
    fields; the fields never overlap, so the sums below are the same words.
 */
module PowerIsa {
  import opened Arith
  import opened Options

  type Word = w: int | 0 <= w < 0x1_0000_0000

  type Reg = r: int | 0 <= r < 32

  /** A shift count or mask bound of an MD-form instruction. */
  type Six = n: int | 0 <= n < 64

  const TWO64: int := 0x1_0000_0000_0000_0000

  type U16 = n: int | 0 <= n < 0x1_0000

  type U64 = n: int | 0 <= n < TWO64

  datatype Instr =
    | Addi(rt: Reg, ra: Reg, si: U16)
    | Addis(rt: Reg, ra: Reg, si: U16)
    | Ori(ra: Reg, rs: Reg, ui: U16)
    | Oris(ra: Reg, rs: Reg, ui: U16)
    | Rldicl(ra: Reg, rs: Reg, sh: Six, m: Six)
    | Rldicr(ra: Reg, rs: Reg, sh: Six, m: Six)
    | Rldic(ra: Reg, rs: Reg, sh: Six, m: Six)

  // ---------------------------------------------------------------- encoding

  /** EmitD: op(6) | RT/RS(5) | RA(5) | D(16). */
  function DForm(op: int, rt: Reg, ra: Reg, d: U16): Word
    requires 0 <= op < 64
  {
    op * 0x400_0000 + rt * 0x20_0000 + ra * 0x1_0000 + d
  }

  /** EmitMD: 30(6) | RS(5) | RA(5) | sh low(5) | m low(5) | m high(1) | XO(3) | sh high(1) | Rc=0,
      packed from the left. */
  function MDForm(rs: Reg, ra: Reg, sh: Six, m: Six, xo: int): Word
    requires 0 <= xo < 8
  {
    ((((((((30 * 32 + rs) * 32 + ra) * 32 + sh % 32) * 32 + m % 32) * 2 + m / 32) * 8 + xo) * 2) + sh / 32) * 2
  }

  function Encode(i: Instr): Word {
    match i
    case Addi(rt, ra, si) => DForm(14, rt, ra, si)
    case Addis(rt, ra, si) => DForm(15, rt, ra, si)
    case Ori(ra, rs, ui) => DForm(24, rs, ra, ui)
    case Oris(ra, rs, ui) => DForm(25, rs, ra, ui)
    case Rldicl(ra, rs, sh, m) => MDForm(rs, ra, sh, m, 0)
    case Rldicr(ra, rs, sh, m) => MDForm(rs, ra, sh, m, 1)
    case Rldic(ra, rs, sh, m) => MDForm(rs, ra, sh, m, 2)
  }

  function EncodeAll(code: seq<Instr>): (words: seq<Word>)
    ensures |words| == |code|
    ensures forall k :: 0 <= k < |code| ==> words[k] == Encode(code[k])
  {
    seq(|code|, k requires 0 <= k < |code| => Encode(code[k]))
  }

  // ---------------------------------------------------------------- decoding

  /** Reads a word back by the field positions of Power ISA 2.07, sections 1.6.1.2 and 1.6.1.6;
      None for words outside the modelled subset. */
  function Decode(w: Word): Option<Instr> {
    var op := w / 0x400_0000;
    if op == 30 then
      DecodeMD(MDFieldsOf(w))
    else
      var f1 := w / 0x20_0000 % 32;
      var f2 := w / 0x1_0000 % 32;
      var d := w % 0x1_0000;
      match op
      case 14 => Some(Addi(f1, f2, d))
      case 15 => Some(Addis(f1, f2, d))
      case 24 => Some(Ori(f2, f1, d))
      case 25 => Some(Oris(f2, f1, d))
      case _ => None
  }

  datatype MDFields = MD(rs: int, ra: int, sh: int, m: int, xo: int, rc: int)

  function MDFieldsOf(w: Word): (g: MDFields)
    ensures 0 <= g.rs < 32 && 0 <= g.ra < 32 && 0 <= g.sh < 64 && 0 <= g.m < 64
  {
    var a := w / 2;
    var b := a / 2;
    var c := b / 8;
    var d := c / 2;
    var e := d / 32;
    var f := e / 32;
    MD(f / 32 % 32, f % 32, e % 32 + 32 * (a % 2), d % 32 + 32 * (c % 2), b % 8, w % 2)
  }

  function DecodeMD(f: MDFields): Option<Instr>
    requires 0 <= f.rs < 32 && 0 <= f.ra < 32 && 0 <= f.sh < 64 && 0 <= f.m < 64
  {
    if f.rc != 0 then None
    else match f.xo
      case 0 => Some(Rldicl(f.ra, f.rs, f.sh, f.m))
      case 1 => Some(Rldicr(f.ra, f.rs, f.sh, f.m))
      case 2 => Some(Rldic(f.ra, f.rs, f.sh, f.m))
      case _ => None
  }

  lemma DFormFields(op: int, rt: Reg, ra: Reg, d: U16)
    requires 0 <= op < 64
    ensures var w := DForm(op, rt, ra, d);
            w / 0x400_0000 == op && w / 0x20_0000 % 32 == rt && w / 0x1_0000 % 32 == ra
            && w % 0x1_0000 == d
  {
    Peel((op * 32 + rt) * 32 + ra, d, 0x1_0000);
    Peel(op * 32 + rt, ra, 32);
    Peel(op * 32 + rt, ra * 0x1_0000 + d, 0x20_0000);
    Peel(op, rt, 32);
    Peel(op, rt * 0x20_0000 + ra * 0x1_0000 + d, 0x400_0000);
  }

  lemma MDFormFields(rs: Reg, ra: Reg, sh: Six, m: Six, xo: int)
    requires 0 <= xo < 8
    ensures MDFieldsOf(MDForm(rs, ra, sh, m, xo)) == MD(rs, ra, sh, m, xo, 0)
    ensures MDForm(rs, ra, sh, m, xo) / 0x400_0000 == 30
  {
    MDOpcode(rs, ra, sh % 32, m % 32, m / 32, xo, sh / 32);
    PackedFields(rs, ra, sh % 32, m % 32, m / 32, xo, sh / 32, MDForm(rs, ra, sh, m, xo));
  }

  lemma PackedFields(rs: Reg, ra: Reg, s: Reg, n: Reg, n': int, xo: int, s': int, w: Word)
    requires 0 <= n' < 2 && 0 <= xo < 8 && 0 <= s' < 2
    requires w == ((((((((30 * 32 + rs) * 32 + ra) * 32 + s) * 32 + n) * 2 + n') * 8 + xo) * 2) + s') * 2
    ensures MDFieldsOf(w) == MD(rs, ra, s + 32 * s', n + 32 * n', xo, 0)
  {
    var f := 30 * 32 + rs;
    var e := f * 32 + ra;
    var d := e * 32 + s;
    var c := d * 32 + n;
    var b := c * 2 + n';
    LowBits(w, b, xo, s');
    MiddleBits(b, c, d, n, n');
    HighBits(d, e, f, rs, ra, s);
  }

  lemma LowBits(w: int, b: int, xo: int, s': int)
    requires 0 <= xo < 8 && 0 <= s' < 2 && w == ((b * 8 + xo) * 2 + s') * 2
    ensures w % 2 == 0 && w / 2 % 2 == s' && w / 2 / 2 % 8 == xo && w / 2 / 2 / 8 == b
  {}

  lemma MiddleBits(b: int, c: int, d: int, n: Reg, n': int)
    requires 0 <= n' < 2 && b == c * 2 + n' && c == d * 32 + n
    ensures b % 2 == n' && b / 2 == c && c % 32 == n && c / 32 == d
  {}

  lemma HighBits(d: int, e: int, f: int, rs: Reg, ra: Reg, s: Reg)
    requires d == e * 32 + s && e == f * 32 + ra && f == 30 * 32 + rs
    ensures d % 32 == s && d / 32 == e && e % 32 == ra && e / 32 == f && f / 32 == 30 && f % 32 == rs
  {}

  lemma MDOpcode(rs: Reg, ra: Reg, s: Reg, n: Reg, n': int, xo: int, s': int)
    requires 0 <= n' < 2 && 0 <= xo < 8 && 0 <= s' < 2
    ensures ((((((((30 * 32 + rs) * 32 + ra) * 32 + s) * 32 + n) * 2 + n') * 8 + xo) * 2) + s') * 2 / 0x400_0000 == 30
  {
    Peel(30, rs * 0x20_0000 + ra * 0x1_0000 + s * 0x800 + n * 0x40 + n' * 0x20 + xo * 4 + s' * 2, 0x400_0000);
  }

  /** Every modelled instruction survives encoding: no field bleeds into another. */
  lemma DecodeEncode(i: Instr)
    ensures Decode(Encode(i)) == Some(i)
  {
    match i
    case Addi(rt, ra, si) => DFormFields(14, rt, ra, si);
    case Addis(rt, ra, si) => DFormFields(15, rt, ra, si);
    case Ori(ra, rs, ui) => DFormFields(24, rs, ra, ui);
    case Oris(ra, rs, ui) => DFormFields(25, rs, ra, ui);
    case Rldicl(ra, rs, sh, m) => MDFormFields(rs, ra, sh, m, 0);
    case Rldicr(ra, rs, sh, m) => MDFormFields(rs, ra, sh, m, 1);
    case Rldic(ra, rs, sh, m) => MDFormFields(rs, ra, sh, m, 2);
  }

  /** Words an assembler gives for these instructions: `li 0,0`, `lis 3,1`, `nop`, `oris 3,3,1`, `clrldi 3,3,32`,
      `sldi 3,3,32` and `rldic 3,3,16,16`. */
  lemma KnownWords()
    ensures Decode(0x3800_0000) == Some(Addi(0, 0, 0)) && Decode(0x3C60_0001) == Some(Addis(3, 0, 1))
    ensures Decode(0x6000_0000) == Some(Ori(0, 0, 0)) && Decode(0x6463_0001) == Some(Oris(3, 3, 1))
    ensures Decode(0x7863_0020) == Some(Rldicl(3, 3, 0, 32)) && Decode(0x7863_07C6) == Some(Rldicr(3, 3, 32, 31))
    ensures Decode(0x7863_8408) == Some(Rldic(3, 3, 16, 16))
  {
    DecodeEncode(Addi(0, 0, 0));
    DecodeEncode(Addis(3, 0, 1));
    DecodeEncode(Ori(0, 0, 0));
    DecodeEncode(Oris(3, 3, 1));
    DecodeEncode(Rldicl(3, 3, 0, 32));
    DecodeEncode(Rldicr(3, 3, 32, 31));
    DecodeEncode(Rldic(3, 3, 16, 16));
    hide Decode;
  }

  // --------------------------------------------------------------- semantics

  type Regs = r: seq<U64> | |r| == 32 witness seq(32, _ => 0)

  function SignExtend16(d: U16): U64 {
    if d < 0x8000 then d else d + (TWO64 - 0x1_0000)
  }

  /** Bitwise or. */
  function Or(a: nat, b: nat): nat {
    if a == 0 then b else 2 * Or(a / 2, b / 2) + (if a % 2 == 1 || b % 2 == 1 then 1 else 0)
  }

  lemma {:induction false} OrBound(a: nat, b: nat, n: nat)
    requires a < Up(1, n) && b < Up(1, n)
    ensures Or(a, b) < Up(1, n)
  {
    if a > 0 {
      OrBound(a / 2, b / 2, n - 1);
    }
  }

  function Or16(a: U16, b: U16): U16 {
    UpBy16(1, 16);
    OrBound(a, b, 16);
    Or(a, b)
  }

  function RotateLeft(x: U64, n: Six): U64 {
    RotateRange(x, n);
    Up(Low(x, 64 - n), n) + Shr(x, 64 - n)
  }

  lemma RotateRange(x: U64, n: Six)
    ensures Shr(x, 64 - n) < Up(1, n)
    ensures 0 <= Up(Low(x, 64 - n), n) + Shr(x, 64 - n) < TWO64
  {
    UpBy64(1, 64 - n + n);
    ShrBound(x, 64 - n, n);
    Split(x, 64 - n);
    PackBound(Low(x, 64 - n), Shr(x, 64 - n), n, 64 - n);
  }

  /** Clears the n low bits. */
  function ClearLow(x: U64, n: Six): U64 {
    Split(x, n);
    Up(Shr(x, n), n)
  }

  /** Clears the n high bits. */
  function ClearHigh(x: U64, n: Six): U64 {
    Split(x, 64 - n);
    Low(x, 64 - n)
  }

  /** The bits of x selected by MASK(mb, 63 - sh) of the manual, which counts bits from the left
      and wraps around when its end precedes its start. */
  function Select(x: U64, mb: Six, sh: Six): U64 {
    if mb <= 63 - sh then ClearHigh(ClearLow(x, sh), mb)
    else
      SelectRange(x, mb, sh);
      ClearHigh(x, mb) + ClearLow(x, sh)
  }

  lemma SelectRange(x: U64, mb: Six, sh: Six)
    requires mb > 63 - sh
    ensures ClearHigh(x, mb) + ClearLow(x, sh) < TWO64
  {
    UpBy64(1, sh + (64 - sh));
    Split(x, 64 - mb);
    UpMonotonic(1, 64 - mb, sh);
    ShrBound(x, sh, 64 - sh);
    PackBound(Shr(x, sh), Low(x, 64 - mb), sh, 64 - sh);
  }

  /** The value an instruction writes. */
  function Result(i: Instr, r: Regs): U64 {
    match i
    case Addi(_, ra, si) => ((if ra == 0 then 0 else r[ra]) + SignExtend16(si)) % TWO64
    case Addis(_, ra, si) => ((if ra == 0 then 0 else r[ra]) + SignExtend16(si) * 0x1_0000) % TWO64
    case Ori(_, rs, ui) => OrImmediate(r[rs], ui)
    case Oris(_, rs, ui) => r[rs] % 0x1_0000 + OrImmediate(r[rs] / 0x1_0000, ui) * 0x1_0000
    case Rldicl(_, rs, sh, m) => ClearHigh(RotateLeft(r[rs], sh), m)
    case Rldicr(_, rs, sh, m) => ClearLow(RotateLeft(r[rs], sh), 63 - m)
    case Rldic(_, rs, sh, m) => Select(RotateLeft(r[rs], sh), m, sh)
  }

  function OrImmediate(x: U64, ui: U16): (y: U64)
    ensures y / 0x1_0000 == x / 0x1_0000
  {
    x / 0x1_0000 * 0x1_0000 + Or16(x % 0x1_0000, ui)
  }

  function Dest(i: Instr): Reg {
    if i.Addi? || i.Addis? then i.rt else i.ra
  }

  function Execute(i: Instr, r: Regs): Regs {
    r[Dest(i) := Result(i, r)]
  }

  /** Decodes and executes words in order; None at the first word it cannot decode. */
  function RunWords(words: seq<Word>, r: Regs): Option<Regs> {
    if words == [] then Some(r)
    else match Decode(words[0])
      case None => None
      case Some(i) => RunWords(words[1..], Execute(i, r))
  }

  function RunInstrs(code: seq<Instr>, r: Regs): Regs {
    if code == [] then r else RunInstrs(code[1..], Execute(code[0], r))
  }

  /** Running the encoded words is running the instructions they came from. */
  lemma {:induction false} RunEncoded(code: seq<Instr>, r: Regs)
    ensures RunWords(EncodeAll(code), r) == Some(RunInstrs(code, r))
  {
    if code != [] {
      DecodeEncode(code[0]);
      assert EncodeAll(code)[1..] == EncodeAll(code[1..]);
      RunEncoded(code[1..], Execute(code[0], r));
    }
  }
}
