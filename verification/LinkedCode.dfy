/** What the finished buffer of a successful run holds. */
module LinkedCode {
  import opened Options
  import opened PowerIsa
  import opened Branches
  import opened BranchLinker

  /** The first word of op k in the buffer. */
  function At(prog: seq<Op>, k: nat): nat
    requires k <= |prog|
  {
    Pos(prog, k) / 4
  }

  /** The words of op k sit at its position, in every longer assembly. */
  lemma {:induction false} OpWords(prog: seq<Op>, k: nat, n: nat)
    requires k < n <= |prog| && Assemble(prog, n).Some?
    ensures AssembleOp(prog, k).Some?
    ensures 4 * |AssembleOp(prog, k).value| == Size(prog[k])
    ensures At(prog, k) + |AssembleOp(prog, k).value| <= |Assemble(prog, n).value|
    ensures Assemble(prog, n).value[At(prog, k)..At(prog, k) + |AssembleOp(prog, k).value|] == AssembleOp(prog, k).value
  {
    var a, b := Assemble(prog, n - 1).value, AssembleOp(prog, n - 1).value;
    assert Assemble(prog, n).value == a + b;
    if k < n - 1 {
      OpWords(prog, k, n - 1);
      var i, j := At(prog, k), At(prog, k) + |AssembleOp(prog, k).value|;
      assert (a + b)[i..j] == a[i..j];
    } else {
      assert At(prog, k) == |a|;
      assert (a + b)[|a|..|a| + |b|] == b;
    }
  }

  lemma FinalWord(prog: seq<Op>, k: nat)
    requires k < |prog| && Run(prog).Some? && Size(prog[k]) == 4
    ensures AssembleOp(prog, k).Some?
    ensures var code := Run(prog).value.core.code;
            At(prog, k) < |code| && AssembleOp(prog, k).value == [code[At(prog, k)]]
  {
    OnePassIsTwoPass(prog);
    OpWords(prog, k, |prog|);
    var code, i := Run(prog).value.core.code, At(prog, k);
    assert code[i..i + 1] == [code[i]];
  }

  /** Every branch whose label is bound anywhere in the program finally decodes to that binding, with its
      kind (opcode, BO, BI and LK) unchanged; one whose label is never bound is still the placeholder. */
  lemma JumpsLand(prog: seq<Op>, k: nat)
    requires k < |prog| && prog[k].Jump? && Run(prog).Some?
    ensures At(prog, k) < |Run(prog).value.core.code|
    ensures var w := Run(prog).value.core.code[At(prog, k)];
            match Target(prog, prog[k].l, k)
            case Some(t) => DecodeBranch(w) == Some((prog[k].kind, t - Pos(prog, k)))
            case None => w == Placeholder(prog[k].kind)
  {
    FinalWord(prog, k);
    match Target(prog, prog[k].l, k)
    case Some(t) =>
      assert AssembleOp(prog, k) == Single(Link(prog[k].kind, Pos(prog, k), t));
      LinkDecodes(prog[k].kind, Pos(prog, k), t);
    case None =>
  }

  /** No instruction or data word is altered by the patching of branches. */
  lemma OtherWordsKept(prog: seq<Op>, k: nat)
    requires k < |prog| && Run(prog).Some?
    ensures var code, i := Run(prog).value.core.code, At(prog, k);
            && (prog[k].Insn? ==> i < |code| && code[i] == prog[k].w)
            && (prog[k].Data? ==> i + 1 < |code| && code[i] == prog[k].lo && code[i + 1] == prog[k].hi)
  {
    OnePassIsTwoPass(prog);
    OpWords(prog, k, |prog|);
    var code, i := Run(prog).value.core.code, At(prog, k);
    if prog[k].Insn? {
      assert code[i..i + 1][0] == code[i];
    } else if prog[k].Data? {
      assert code[i..i + 2][0] == code[i] && code[i..i + 2][1] == code[i + 1];
    }
  }

  // ------------------------------------------------------------ disjoint chains

  lemma {:induction false} PosGrows(prog: seq<Op>, j: nat, k: nat)
    requires j < k <= |prog|
    ensures Pos(prog, j) + Size(prog[j]) <= Pos(prog, k)
  {
    if j + 1 < k {
      PosGrows(prog, j, k - 1);
    }
  }

  /** Each open offset belongs to a branch to that label. */
  lemma {:induction false} UnresolvedIsJump(prog: seq<Op>, l: nat, k: nat, i: nat) returns (j: nat)
    requires k <= |prog| && i < |Unresolved(prog, l, k)|
    ensures j < k && prog[j].Jump? && prog[j].l == l && Unresolved(prog, l, k)[i] == Pos(prog, j)
  {
    if prog[k - 1].Jump? && prog[k - 1].l == l && Target(prog, l, k - 1).None? {
      if i == 0 {
        j := k - 1;
      } else {
        j := UnresolvedIsJump(prog, l, k - 1, i - 1);
      }
    } else {
      j := UnresolvedIsJump(prog, l, k - 1, i);
    }
  }

  lemma OpenDisjoint(prog: seq<Op>, l: nat, m: nat, i: nat, j: nat)
    requires l != m && i < |Unresolved(prog, l, |prog|)| && j < |Unresolved(prog, m, |prog|)|
    ensures Unresolved(prog, l, |prog|)[i] != Unresolved(prog, m, |prog|)[j]
  {
    var a := UnresolvedIsJump(prog, l, |prog|, i);
    var b := UnresolvedIsJump(prog, m, |prog|, j);
    if a < b { PosGrows(prog, a, b); } else { PosGrows(prog, b, a); }
  }

  /** In every reachable state the chains of different labels share no fixup. */
  lemma ChainsDisjoint(prog: seq<Op>, l: nat, m: nat, i: nat, j: nat)
    requires Run(prog).Some? && l != m
    requires LabelOf(Run(prog).value, l).head < |Run(prog).value.core.pending|
    requires LabelOf(Run(prog).value, m).head < |Run(prog).value.core.pending|
    requires var s := Run(prog).value;
             i < |Chain(s.core.pending, LabelOf(s, l).head)| && j < |Chain(s.core.pending, LabelOf(s, m).head)|
    ensures var s := Run(prog).value;
            Chain(s.core.pending, LabelOf(s, l).head)[i] != Chain(s.core.pending, LabelOf(s, m).head)[j]
  {
    OnePassIsTwoPass(prog);
    var s := Run(prog).value;
    assert Tracks(prog, s, l) && Tracks(prog, s, m);
    OpenDisjoint(prog, l, m, i, j);
  }

  // ------------------------------------------------------------- r0 tracking

  /** Does op set the flag: by hand, or by emitting a word that Emit32 recognises? */
  predicate Dirties(op: Op) {
    match op
    case Insn(w) => Clobbers(w)
    case Jump(k, _) => k.BL?
    case MarkR0 => true
    case _ => false
  }

  ghost predicate DirtySince(prog: seq<Op>, from: nat) {
    exists i :: from <= i < |prog| && Dirties(prog[i])
  }

  /** The op after the last reset. */
  function Reset(prog: seq<Op>): (k: nat)
    ensures k <= |prog|
  {
    if prog == [] then 0
    else if prog[|prog| - 1].ResetR0? then |prog|
    else Reset(prog[..|prog| - 1])
  }

  lemma StepDirty(s: State, op: Op)
    requires WellFormed(s) && Step(s, op).Some?
    ensures Step(s, op).value.core.dirty == (!op.ResetR0? && (s.core.dirty || Dirties(op)))
  {
    if op.Jump? {
      var lab := LabelOf(s, op.l);
      BranchClobbers(op.kind, lab.offset - 4 * |s.core.code|);
    }
  }

  lemma {:induction false} FlagIsHistory(prog: seq<Op>)
    requires Run(prog).Some?
    ensures Run(prog).value.core.dirty <==> DirtySince(prog, Reset(prog))
  {
    if prog != [] {
      var p, op := prog[..|prog| - 1], prog[|prog| - 1];
      FlagIsHistory(p);
      StepDirty(Run(p).value, op);
      if !op.ResetR0? {
        if DirtySince(p, Reset(p)) {
          var i :| Reset(p) <= i < |p| && Dirties(p[i]);
          assert Dirties(prog[i]);
        }
        if Dirties(op) {
          assert Dirties(prog[|p|]);
        }
        if i :| Reset(prog) <= i < |prog| && Dirties(prog[i]) && i != |p| {
          assert Dirties(p[i]);
        }
      }
    }
  }

  /** An instruction op since the last reset left a word in the finished buffer that decodes to a restore or a call. */
  ghost predicate ClobberSince(prog: seq<Op>, code: seq<Word>, from: nat) {
    exists i :: from <= i < |prog| && ClobberAt(prog, code, i)
  }

  predicate ClobberAt(prog: seq<Op>, code: seq<Word>, i: nat)
    requires i < |prog|
  {
    (prog[i].Insn? || prog[i].Jump?) && At(prog, i) < |code| && RestoresOrCalls(code[At(prog, i)])
  }

  lemma FinalClobber(prog: seq<Op>, i: nat)
    requires i < |prog| && Run(prog).Some? && (prog[i].Insn? || prog[i].Jump?)
    ensures var code := Run(prog).value.core.code;
            At(prog, i) < |code| && (Clobbers(code[At(prog, i)]) <==> Dirties(prog[i]))
  {
    FinalWord(prog, i);
    if prog[i].Jump? {
      var t := Target(prog, prog[i].l, i);
      BranchClobbers(prog[i].kind, if t.Some? then t.value - Pos(prog, i) else 0);
    }
  }

  lemma DirtyIff(prog: seq<Op>, i: nat)
    requires i < |prog| && Run(prog).Some?
    ensures Dirties(prog[i]) <==> (ClobberAt(prog, Run(prog).value.core.code, i) || prog[i].MarkR0?)
  {
    hide Run, At, Clobbers, RestoresOrCalls;
    if prog[i].Insn? || prog[i].Jump? {
      FinalClobber(prog, i);
      ClobbersIff(Run(prog).value.core.code[At(prog, i)]);
    }
  }

  /** The flag is exact even though PatchBranchAt rewrites words behind Emit32's back: after linking it is
      set if and only if it was set by hand since the last reset, or the finished buffer holds, among the
      instruction words emitted since then, a restore of r0 or a call. */
  lemma R0FlagExact(prog: seq<Op>)
    requires Run(prog).Some?
    ensures var s := Run(prog).value.core;
            var r := Reset(prog);
            s.dirty <==> (ClobberSince(prog, s.code, r) || exists i :: r <= i < |prog| && prog[i].MarkR0?)
  {
    hide Run, Reset, Dirties, ClobberAt;
    var s, r := Run(prog).value.core, Reset(prog);
    FlagIsHistory(prog);
    forall i: nat | i < |prog|
      ensures Dirties(prog[i]) <==> (ClobberAt(prog, s.code, i) || prog[i].MarkR0?)
    {
      DirtyIff(prog, i);
    }
  }
}
