/** Forward-branch linking.  The emitter works in one pass: a branch to an unbound label leaves a
    placeholder and a fixup on that label's chain, and Bind walks the chain.  The reference is a
    two-pass assembler that looks every target up in the whole program.  The two agree word for
    word, and one refuses a program exactly when the other does. */
module BranchLinker {
  import opened Options
  import opened PowerIsa
  import opened Branches

  // --------------------------------------------------------- the emitter's steps

  /** One entry of PendingBranches: a byte offset to patch and the next entry of the same chain. */
  datatype Fixup = Fixup(at: nat, next: int)

  datatype Label = Label(offset: int, bound: bool, head: int)

  const FRESH := Label(-1, false, -1)

  /** The emitted words, the r0 flag and the pending fixups; the byte offset is 4 * |code|. */
  datatype Core = Core(code: seq<Word>, dirty: bool, pending: seq<Fixup>)

  /** Chains run downwards and point at emitted words. */
  ghost predicate Linked(code: seq<Word>, pending: seq<Fixup>) {
    forall i :: 0 <= i < |pending| ==> -1 <= pending[i].next < i && pending[i].at < 4 * |code| && pending[i].at % 4 == 0
  }

  ghost predicate WellLinked(c: Core) {
    Linked(c.code, c.pending)
  }

  /** The byte offsets on the chain that starts at idx, in the order PatchPending visits them. */
  function Chain(pending: seq<Fixup>, idx: int): seq<nat>
    requires idx < |pending|
    requires forall i :: 0 <= i < |pending| ==> pending[i].next < i
    decreases idx
  {
    if idx < 0 then [] else [pending[idx].at] + Chain(pending, pending[idx].next)
  }

  function PatchAt(code: seq<Word>, at: nat, target: int): Option<seq<Word>>
    requires at < 4 * |code|
  {
    match Patch(code[at / 4], target - at)
    case None => None
    case Some(w) => Some(code[at / 4 := w])
  }

  ghost predicate InCode(ats: seq<nat>, words: nat) {
    forall i :: 0 <= i < |ats| ==> ats[i] < 4 * words
  }

  function PatchAll(code: seq<Word>, ats: seq<nat>, target: int): (r: Option<seq<Word>>)
    requires InCode(ats, |code|)
    ensures r.Some? ==> |r.value| == |code|
    decreases |ats|
  {
    if ats == [] then Some(code)
    else match PatchAt(code, ats[0], target)
      case None => None
      case Some(c) => PatchAll(c, ats[1..], target)
  }

  function Emit(c: Core, w: Word): Core {
    Core(c.code + [w], c.dirty || Clobbers(w), c.pending)
  }

  /** Several words, one Emit32 each. */
  function EmitAll(c: Core, ws: seq<Word>): Core {
    if ws == [] then c else Emit(EmitAll(c, ws[..|ws| - 1]), ws[|ws| - 1])
  }

  /** b, bl and bc on a label; None where the range guard throws. */
  function EmitBranch(c: Core, l: Label, k: Kind): Option<(Core, Label)> {
    var here := 4 * |c.code|;
    if l.bound then
      (match Link(k, here, l.offset)
       case None => None
       case Some(w) => Some((Emit(c, w), l)))
    else
      var c' := c.(pending := c.pending + [Fixup(here, l.head)]);
      Some((Emit(c', Placeholder(k)), l.(head := |c.pending|)))
  }

  lemma {:induction false} ChainInCode(c: Core, idx: int)
    requires WellLinked(c) && idx < |c.pending|
    ensures InCode(Chain(c.pending, idx), |c.code|)
    decreases idx
  {
    if idx >= 0 {
      ChainInCode(c, c.pending[idx].next);
    }
  }

  /** Bind: the label gets the current offset, every fixup on its chain is patched and the chain is
      dropped; None where PatchPending or PatchBranchAt throws. */
  function BindLabel(c: Core, l: Label): Option<(Core, Label)>
    requires WellLinked(c)
  {
    var here := 4 * |c.code|;
    if l.head >= |c.pending| then None
    else
      ChainInCode(c, l.head);
      match PatchAll(c.code, Chain(c.pending, l.head), here)
      case None => None
      case Some(code) => Some((c.(code := code), Label(here, true, -1)))
  }

  // ------------------------------------------------------------ whole programs

  /** What a compile unit asks of the emitter: instruction words, dc64 data, label branches,
      bindings, and the two ways to set the r0 flag by hand. */
  datatype Op =
    | Insn(w: Word)
    | Data(lo: Word, hi: Word)
    | Jump(kind: Kind, l: nat)
    | Bind(l: nat)
    | ResetR0
    | MarkR0

  datatype State = State(core: Core, labels: map<nat, Label>)

  const START := State(Core([], false, []), map[])

  function LabelOf(s: State, l: nat): Label {
    if l in s.labels then s.labels[l] else FRESH
  }

  function Update(s: State, l: nat, r: Option<(Core, Label)>): Option<State> {
    match r
    case None => None
    case Some((c, lab)) => Some(State(c, s.labels[l := lab]))
  }

  /** Every label heads a chain of live fixups. */
  ghost predicate WellFormed(s: State) {
    WellLinked(s.core) && forall l :: l in s.labels ==> -1 <= s.labels[l].head < |s.core.pending|
  }

  function Step(s: State, op: Op): (r: Option<State>)
    requires WellFormed(s)
    ensures r.Some? ==> WellFormed(r.value)
  {
    match op
    case Insn(w) => Some(s.(core := Emit(s.core, w)))
    case Data(lo, hi) => Some(s.(core := s.core.(code := s.core.code + [lo, hi])))
    case Jump(k, l) => Update(s, l, EmitBranch(s.core, LabelOf(s, l), k))
    case Bind(l) => Update(s, l, BindLabel(s.core, LabelOf(s, l)))
    case ResetR0 => Some(s.(core := s.core.(dirty := false)))
    case MarkR0 => Some(s.(core := s.core.(dirty := true)))
  }

  /** A whole program through the emitter; None if some step throws. */
  function Run(prog: seq<Op>): (r: Option<State>)
    ensures r.Some? ==> WellFormed(r.value)
  {
    if prog == [] then Some(START)
    else match Run(prog[..|prog| - 1])
      case None => None
      case Some(s) => Step(s, prog[|prog| - 1])
  }

  // ------------------------------------------------------ the two-pass reference

  function Size(op: Op): nat {
    match op
    case Insn(_) => 4
    case Jump(_, _) => 4
    case Data(_, _) => 8
    case _ => 0
  }

  /** The byte offset of op k. */
  function Pos(prog: seq<Op>, k: nat): (p: nat)
    requires k <= |prog|
    ensures p % 4 == 0
  {
    if k == 0 then 0 else Pos(prog, k - 1) + Size(prog[k - 1])
  }

  /** Where label l was last bound before op k. */
  function LastBind(prog: seq<Op>, l: nat, k: nat): Option<nat>
    requires k <= |prog|
  {
    if k == 0 then None
    else if prog[k - 1] == Bind(l) then Some(Pos(prog, k - 1))
    else LastBind(prog, l, k - 1)
  }

  /** Where label l is first bound at or after op k. */
  function FirstBind(prog: seq<Op>, l: nat, k: nat): Option<nat>
    requires k <= |prog|
    decreases |prog| - k
  {
    if k == |prog| then None
    else if prog[k] == Bind(l) then Some(Pos(prog, k))
    else FirstBind(prog, l, k + 1)
  }

  /** A branch goes to the latest binding before it, else to the first one after it. */
  function Target(prog: seq<Op>, l: nat, k: nat): Option<nat>
    requires k <= |prog|
  {
    if LastBind(prog, l, k).Some? then LastBind(prog, l, k) else FirstBind(prog, l, k)
  }

  /** The words of op k; None if it is a branch that cannot reach its target. */
  function AssembleOp(prog: seq<Op>, k: nat): Option<seq<Word>>
    requires k < |prog|
  {
    match prog[k]
    case Insn(w) => Some([w])
    case Data(lo, hi) => Some([lo, hi])
    case Jump(kind, l) =>
      (match Target(prog, l, k)
       case None => Some([Placeholder(kind)])
       case Some(t) => Single(Link(kind, Pos(prog, k), t)))
    case _ => Some([])
  }

  function Single(w: Option<Word>): Option<seq<Word>> {
    if w.None? then None else Some([w.value])
  }

  function Append(a: Option<seq<Word>>, b: Option<seq<Word>>): Option<seq<Word>> {
    if a.None? || b.None? then None else Some(a.value + b.value)
  }

  /** The words of the first k ops of prog, targets looked up in the whole of prog. */
  function Assemble(prog: seq<Op>, k: nat): (r: Option<seq<Word>>)
    requires k <= |prog|
    ensures r.Some? ==> 4 * |r.value| == Pos(prog, k)
  {
    if k == 0 then Some([]) else Append(Assemble(prog, k - 1), AssembleOp(prog, k - 1))
  }

  // ------------------------------------------- what one more op changes in a program

  lemma {:induction false} PosExtended(p: seq<Op>, op: Op, k: nat)
    requires k <= |p|
    ensures Pos(p + [op], k) == Pos(p, k)
  {
    if k > 0 {
      PosExtended(p, op, k - 1);
    }
  }

  lemma {:induction false} LastBindExtended(p: seq<Op>, op: Op, l: nat, k: nat)
    requires k <= |p|
    ensures LastBind(p + [op], l, k) == LastBind(p, l, k)
  {
    if k > 0 {
      LastBindExtended(p, op, l, k - 1);
      PosExtended(p, op, k - 1);
    }
  }

  lemma {:induction false} FirstBindExtended(p: seq<Op>, op: Op, l: nat, k: nat)
    requires k <= |p|
    ensures FirstBind(p + [op], l, k)
         == if FirstBind(p, l, k).Some? then FirstBind(p, l, k) else if op == Bind(l) then Some(Pos(p, |p|)) else None
    decreases |p| - k
  {
    PosExtended(p, op, k);
    if k < |p| {
      FirstBindExtended(p, op, l, k + 1);
    } else {
      assert FirstBind(p + [op], l, k + 1) == None;
    }
  }

  lemma TargetExtended(p: seq<Op>, op: Op, l: nat, k: nat)
    requires k <= |p|
    ensures Target(p + [op], l, k)
         == if Target(p, l, k).Some? then Target(p, l, k) else if op == Bind(l) then Some(Pos(p, |p|)) else None
  {
    LastBindExtended(p, op, l, k);
    FirstBindExtended(p, op, l, k);
  }

  /** The byte offsets of branches to l among the first k ops that p gives no target, latest first. */
  function Unresolved(p: seq<Op>, l: nat, k: nat): seq<nat>
    requires k <= |p|
  {
    if k == 0 then []
    else if p[k - 1].Jump? && p[k - 1].l == l && Target(p, l, k - 1).None?
    then [Pos(p, k - 1)] + Unresolved(p, l, k - 1)
    else Unresolved(p, l, k - 1)
  }

  lemma {:induction false} UnresolvedExtended(p: seq<Op>, op: Op, l: nat, k: nat)
    requires k <= |p|
    ensures Unresolved(p + [op], l, k) == if op == Bind(l) then [] else Unresolved(p, l, k)
  {
    if k > 0 {
      var q := p + [op];
      assert q[k - 1] == p[k - 1];
      UnresolvedExtended(p, op, l, k - 1);
      TargetExtended(p, op, l, k - 1);
      assert Pos(q, k - 1) == Pos(p, k - 1) by { PosExtended(p, op, k - 1); }
    }
  }

  // ---------------------------------------------------------------- patching

  /** Patches inside a prefix leave what follows it alone. */
  lemma {:induction false} PatchPrefix(code: seq<Word>, rest: seq<Word>, ats: seq<nat>, target: int)
    requires InCode(ats, |code|)
    ensures InCode(ats, |code + rest|)
    ensures PatchAll(code + rest, ats, target) == Append(PatchAll(code, ats, target), Some(rest))
    decreases |ats|
  {
    if ats != [] {
      var i := ats[0] / 4;
      assert (code + rest)[i] == code[i];
      match Patch(code[i], target - ats[0])
      case None =>
      case Some(w) =>
        assert (code + rest)[i := w] == code[i := w] + rest;
        PatchPrefix(code[i := w], rest, ats[1..], target);
    }
  }

  /** Patching a placeholder that was emitted last, then the older ones. */
  lemma PatchLast(code: seq<Word>, k: Kind, ats: seq<nat>, target: int)
    requires InCode(ats, |code|)
    ensures InCode([4 * |code|] + ats, |code| + 1)
    ensures PatchAll(code + [Placeholder(k)], [4 * |code|] + ats, target)
         == Append(PatchAll(code, ats, target), Single(Link(k, 4 * |code|, target)))
  {
    PatchPlaceholder(k, 4 * |code|, target);
    assert ([4 * |code|] + ats)[1..] == ats;
    match Link(k, 4 * |code|, target)
    case None =>
    case Some(w) =>
      assert (code + [Placeholder(k)])[|code| := w] == code + [w];
      PatchPrefix(code, [w], ats, target);
  }

  /** A resolved op, or any op when no label is bound, keeps its words. */
  lemma SameWords(p: seq<Op>, op: Op, k: nat)
    requires k < |p|
    requires p[k].Jump? && op == Bind(p[k].l) ==> Target(p, p[k].l, k).Some?
    ensures AssembleOp(p + [op], k) == AssembleOp(p, k)
  {
    assert (p + [op])[k] == p[k];
    if p[k].Jump? {
      assert Pos(p + [op], k) == Pos(p, k) by { PosExtended(p, op, k); }
      assert Target(p + [op], p[k].l, k) == Target(p, p[k].l, k) by { TargetExtended(p, op, p[k].l, k); }
    }
  }

  lemma {:induction false} AssembleExtended(p: seq<Op>, op: Op, k: nat)
    requires k <= |p| && !op.Bind?
    ensures Assemble(p + [op], k) == Assemble(p, k)
  {
    if k > 0 {
      AssembleExtended(p, op, k - 1);
      SameWords(p, op, k - 1);
    }
  }

  /** Binding a label turns the assembly of p into the same words with l's open branches patched. */
  lemma {:induction false} AssembleBound(p: seq<Op>, l: nat, k: nat)
    requires k <= |p|
    ensures Assemble(p, k).None? ==> Assemble(p + [Bind(l)], k).None?
    ensures Assemble(p, k).Some? ==>
              && InCode(Unresolved(p, l, k), |Assemble(p, k).value|)
              && Assemble(p + [Bind(l)], k) == PatchAll(Assemble(p, k).value, Unresolved(p, l, k), Pos(p, |p|))
  {
    if k > 0 {
      AssembleBound(p, l, k - 1);
      if Assemble(p, k - 1).Some? {
        AssembleBoundOp(p, l, k - 1, Assemble(p, k - 1).value);
      }
    }
  }

  lemma AssembleBoundOp(p: seq<Op>, l: nat, k: nat, code: seq<Word>)
    requires k < |p| && Assemble(p, k) == Some(code) && InCode(Unresolved(p, l, k), |code|)
    requires Assemble(p + [Bind(l)], k) == PatchAll(code, Unresolved(p, l, k), Pos(p, |p|))
    ensures Assemble(p, k + 1).None? ==> Assemble(p + [Bind(l)], k + 1).None?
    ensures Assemble(p, k + 1).Some? ==>
              && InCode(Unresolved(p, l, k + 1), |Assemble(p, k + 1).value|)
              && Assemble(p + [Bind(l)], k + 1) ==
                  PatchAll(Assemble(p, k + 1).value, Unresolved(p, l, k + 1), Pos(p, |p|))
  {
    var q, op, ats, here := p + [Bind(l)], p[k], Unresolved(p, l, k), Pos(p, |p|);
    assert q[k] == op;
    if op.Jump? && op.l == l && Target(p, l, k).None? {
      assert AssembleOp(p, k) == Some([Placeholder(op.kind)]);
      assert Pos(q, k) == 4 * |code| by { PosExtended(p, Bind(l), k); }
      assert Target(q, l, k) == Some(here) by { TargetExtended(p, Bind(l), l, k); }
      PatchLast(code, op.kind, ats, here);
    } else {
      SameWords(p, Bind(l), k);
      if AssembleOp(p, k).Some? {
        PatchPrefix(code, AssembleOp(p, k).value, ats, here);
      }
    }
  }

  // --------------------------------------------------- the emitter keeps to the reference

  lemma {:induction false} ChainKept(pending: seq<Fixup>, x: Fixup, idx: int)
    requires idx < |pending| && x.next < |pending|
    requires forall i :: 0 <= i < |pending| ==> pending[i].next < i
    ensures Chain(pending + [x], idx) == Chain(pending, idx)
    decreases idx
  {
    if idx >= 0 {
      ChainKept(pending, x, pending[idx].next);
    }
  }

  /** A label's record says what program p did to it: its chain is exactly its open branches. */
  ghost predicate Tracks(p: seq<Op>, s: State, l: nat)
    requires WellFormed(s)
  {
    var lab := LabelOf(s, l);
    && lab.head < |s.core.pending|
    && Chain(s.core.pending, lab.head) == Unresolved(p, l, |p|)
    && (lab.bound <==> LastBind(p, l, |p|).Some?)
    && (lab.bound ==> lab.offset == LastBind(p, l, |p|).value)
  }

  ghost predicate Agrees(p: seq<Op>, s: State) {
    && WellFormed(s)
    && Assemble(p, |p|) == Some(s.core.code)
    && forall l :: Tracks(p, s, l)
  }

  /** Steps that touch no label. */
  lemma PlainCode(p: seq<Op>, op: Op, s: State)
    requires Agrees(p, s) && !op.Jump? && !op.Bind?
    ensures Step(s, op).Some? && Assemble(p + [op], |p| + 1) == Some(Step(s, op).value.core.code)
  {
    AssembleExtended(p, op, |p|);
    assert (p + [op])[|p|] == op;
    assert s.core.code + [] == s.core.code;
  }

  /** An op that neither binds m nor branches to it leaves m's record right. */
  lemma TracksOther(p: seq<Op>, op: Op, s: State, t: State, m: nat)
    requires WellFormed(s) && WellFormed(t) && Tracks(p, s, m) && LabelOf(t, m) == LabelOf(s, m)
    requires op != Bind(m) && !(op.Jump? && op.l == m)
    requires t.core.pending == s.core.pending
          || (|t.core.pending| > 0 && t.core.pending[..|t.core.pending| - 1] == s.core.pending)
    ensures Tracks(p + [op], t, m)
  {
    assert (p + [op])[|p|] == op;
    UnresolvedExtended(p, op, m, |p|);
    LastBindExtended(p, op, m, |p|);
    if t.core.pending != s.core.pending {
      var x := t.core.pending[|t.core.pending| - 1];
      assert t.core.pending == s.core.pending + [x];
      ChainKept(s.core.pending, x, LabelOf(s, m).head);
    }
  }

  lemma JumpOp(p: seq<Op>, k: Kind, l: nat, here: int, lab: Label)
    requires lab.bound <==> LastBind(p, l, |p|).Some?
    requires lab.bound ==> lab.offset == LastBind(p, l, |p|).value
    requires Pos(p, |p|) == here
    ensures AssembleOp(p + [Jump(k, l)], |p|) ==
            if lab.bound then Single(Link(k, here, lab.offset)) else Some([Placeholder(k)])
  {
    hide Link, Placeholder;
    var op := Jump(k, l);
    assert (p + [op])[|p|] == op;
    assert Pos(p + [op], |p|) == here by { PosExtended(p, op, |p|); }
    assert Target(p + [op], l, |p|) == LastBind(p, l, |p|) by { TargetExtended(p, op, l, |p|); }
  }

  lemma JumpCode(p: seq<Op>, k: Kind, l: nat, c: Core, lab: Label)
    requires Assemble(p, |p|) == Some(c.code)
    requires lab.bound <==> LastBind(p, l, |p|).Some?
    requires lab.bound ==> lab.offset == LastBind(p, l, |p|).value
    ensures var code := Assemble(p + [Jump(k, l)], |p| + 1);
            match EmitBranch(c, lab, k) case None => code.None? case Some(r) => code == Some(r.0.code)
  {
    var op := Jump(k, l);
    assert Assemble(p + [op], |p|) == Some(c.code) by { AssembleExtended(p, op, |p|); }
    assert Pos(p, |p|) == 4 * |c.code|;
    JumpOp(p, k, l, 4 * |c.code|, lab);
    hide AssembleOp, Link, Placeholder, Clobbers, LastBind;
  }

  lemma TracksJump(p: seq<Op>, k: Kind, l: nat, s: State)
    requires Agrees(p, s) && Step(s, Jump(k, l)).Some?
    ensures Tracks(p + [Jump(k, l)], Step(s, Jump(k, l)).value, l)
  {
    var op, lab := Jump(k, l), LabelOf(s, l);
    assert Tracks(p, s, l);
    assert (p + [op])[|p|] == op;
    UnresolvedExtended(p, op, l, |p|);
    LastBindExtended(p, op, l, |p|);
    TargetExtended(p, op, l, |p|);
    PosExtended(p, op, |p|);
    if !lab.bound {
      var x := Fixup(4 * |s.core.code|, lab.head);
      ChainKept(s.core.pending, x, lab.head);
      assert Chain(s.core.pending + [x], |s.core.pending|) == [x.at] + Chain(s.core.pending + [x], lab.head);
    }
  }

  lemma JumpTracks(p: seq<Op>, k: Kind, l: nat, s: State, m: nat)
    requires Agrees(p, s) && Step(s, Jump(k, l)).Some?
    ensures Tracks(p + [Jump(k, l)], Step(s, Jump(k, l)).value, m)
  {
    if m == l {
      TracksJump(p, k, l, s);
    } else {
      TracksOther(p, Jump(k, l), s, Step(s, Jump(k, l)).value, m);
    }
  }

  lemma JumpStep(p: seq<Op>, k: Kind, l: nat, s: State)
    requires Agrees(p, s)
    ensures var code := Assemble(p + [Jump(k, l)], |p| + 1);
            match Step(s, Jump(k, l)) case None => code.None? case Some(t) => code == Some(t.core.code)
  {
    assert Tracks(p, s, l);
    JumpCode(p, k, l, s.core, LabelOf(s, l));
  }

  lemma BindCode(p: seq<Op>, l: nat, c: Core, lab: Label)
    requires WellLinked(c) && Assemble(p, |p|) == Some(c.code)
    requires lab.head < |c.pending| && Chain(c.pending, lab.head) == Unresolved(p, l, |p|)
    ensures var code := Assemble(p + [Bind(l)], |p| + 1);
            match BindLabel(c, lab) case None => code.None? case Some(r) => code == Some(r.0.code)
  {
    var q := p + [Bind(l)];
    assert q[|p|] == Bind(l);
    AssembleBound(p, l, |p|);
    assert Assemble(q, |p| + 1) == Append(Assemble(q, |p|), Some([]));
    if Assemble(q, |p|).Some? {
      assert Assemble(q, |p|).value + [] == Assemble(q, |p|).value;
    }
  }

  lemma TracksBind(p: seq<Op>, l: nat, s: State)
    requires Agrees(p, s) && Step(s, Bind(l)).Some?
    ensures Tracks(p + [Bind(l)], Step(s, Bind(l)).value, l)
  {
    assert (p + [Bind(l)])[|p|] == Bind(l);
    UnresolvedExtended(p, Bind(l), l, |p|);
    PosExtended(p, Bind(l), |p|);
  }

  lemma BindTracks(p: seq<Op>, l: nat, s: State, m: nat)
    requires Agrees(p, s) && Step(s, Bind(l)).Some?
    ensures Tracks(p + [Bind(l)], Step(s, Bind(l)).value, m)
  {
    if m == l {
      TracksBind(p, l, s);
    } else {
      TracksOther(p, Bind(l), s, Step(s, Bind(l)).value, m);
    }
  }

  lemma BindStep(p: seq<Op>, l: nat, s: State)
    requires Agrees(p, s)
    ensures var code := Assemble(p + [Bind(l)], |p| + 1);
            match Step(s, Bind(l)) case None => code.None? case Some(t) => code == Some(t.core.code)
  {
    assert Tracks(p, s, l);
    BindCode(p, l, s.core, LabelOf(s, l));
  }

  /** One step of the emitter is one op of the reference: both throw, or both go on alike. */
  lemma StepCode(p: seq<Op>, op: Op, s: State)
    requires Agrees(p, s)
    ensures var code := Assemble(p + [op], |p| + 1);
            match Step(s, op) case None => code.None? case Some(t) => code == Some(t.core.code)
  {
    match op
    case Jump(k, l) => JumpStep(p, k, l, s);
    case Bind(l) => BindStep(p, l, s);
    case _ => PlainCode(p, op, s);
  }

  lemma StepTracks(p: seq<Op>, op: Op, s: State, m: nat)
    requires Agrees(p, s) && Step(s, op).Some?
    ensures Tracks(p + [op], Step(s, op).value, m)
  {
    assert Tracks(p, s, m);
    match op
    case Jump(k, l) => JumpTracks(p, k, l, s, m);
    case Bind(l) => BindTracks(p, l, s, m);
    case _ => TracksOther(p, op, s, Step(s, op).value, m);
  }

  lemma StepAgrees(p: seq<Op>, op: Op, s: State)
    requires Agrees(p, s) && Step(s, op).Some?
    ensures Agrees(p + [op], Step(s, op).value)
  {
    StepCode(p, op, s);
    forall m ensures Tracks(p + [op], Step(s, op).value, m) {
      StepTracks(p, op, s, m);
    }
  }

  /** The one-pass linker is the two-pass assembler: it throws on exactly the programs that contain
      a branch out of reach of its target, and otherwise its buffer is the assembly. */
  lemma {:induction false} OnePassIsTwoPass(prog: seq<Op>)
    ensures Run(prog).Some? <==> Assemble(prog, |prog|).Some?
    ensures Run(prog).Some? ==> Agrees(prog, Run(prog).value)
  {
    if prog == [] {
      forall l ensures Tracks(prog, START, l) {}
    } else {
      var p, op := prog[..|prog| - 1], prog[|prog| - 1];
      assert prog == p + [op];
      OnePassIsTwoPass(p);
      if Run(p).Some? {
        StepCode(p, op, Run(p).value);
        if Step(Run(p).value, op).Some? {
          StepAgrees(p, op, Run(p).value);
        }
      } else if op.Bind? {
        AssembleBound(p, op.l, |p|);
      } else {
        AssembleExtended(p, op, |p|);
      }
    }
  }
}
