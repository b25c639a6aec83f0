/** The r0 flag when the caller also patches branches by hand, at any time and at any emitted word. */
module R0Tracking {
  import opened Options
  import opened PowerIsa
  import opened Branches
  import opened BranchLinker

  /** An operation of a program, or PatchBranchAt called from outside. */
  datatype Act = Emit(op: Op) | Repatch(at: nat, to: nat)

  function Perform(s: State, act: Act): (r: Option<State>)
    requires WellFormed(s)
    ensures r.Some? ==> WellFormed(r.value)
  {
    match act
    case Emit(op) => Step(s, op)
    case Repatch(at, to) =>
      if at % 4 != 0 || at >= 4 * |s.core.code| then None
      else match PatchAt(s.core.code, at, to)
        case None => None
        case Some(code) => Some(s.(core := s.core.(code := code)))
  }

  function RunActs(acts: seq<Act>): (r: Option<State>)
    ensures r.Some? ==> WellFormed(r.value)
  {
    if acts == [] then Some(START)
    else match RunActs(acts[..|acts| - 1])
      case None => None
      case Some(s) => Perform(s, acts[|acts| - 1])
  }

  /** What the acts alone say: how many words they emit, which of these are instruction words emitted since the last
      reset, and whether the flag was set by hand since then. */
  datatype Story = Story(words: nat, since: set<nat>, marked: bool)

  function Tell(y: Story, act: Act): Story {
    match act
    case Repatch(_, _) => y
    case Emit(Insn(_)) => y.(words := y.words + 1, since := y.since + {y.words})
    case Emit(Jump(_, _)) => y.(words := y.words + 1, since := y.since + {y.words})
    case Emit(Data(_, _)) => y.(words := y.words + 2)
    case Emit(Bind(_)) => y
    case Emit(ResetR0) => Story(y.words, {}, false)
    case Emit(MarkR0) => y.(marked := true)
  }

  function StoryOf(acts: seq<Act>): Story {
    if acts == [] then Story(0, {}, false) else Tell(StoryOf(acts[..|acts| - 1]), acts[|acts| - 1])
  }

  ghost predicate Exact(y: Story, c: Core) {
    && y.words == |c.code| && (forall i :: i in y.since ==> i < |c.code|)
    && (c.dirty <==> y.marked || exists i :: i in y.since && Clobbers(c.code[i]))
  }

  ghost predicate SameClobbers(a: seq<Word>, b: seq<Word>) {
    |a| == |b| && forall i :: 0 <= i < |a| ==> (Clobbers(a[i]) <==> Clobbers(b[i]))
  }

  lemma PatchSame(code: seq<Word>, at: nat, to: int)
    requires at < 4 * |code| && PatchAt(code, at, to).Some?
    ensures SameClobbers(code, PatchAt(code, at, to).value)
  {
    PatchKeepsClobber(code[at / 4], to - at);
    hide Patch, Clobbers;
  }

  lemma {:induction false} PatchAllSame(code: seq<Word>, ats: seq<nat>, to: int)
    requires InCode(ats, |code|) && PatchAll(code, ats, to).Some?
    ensures SameClobbers(code, PatchAll(code, ats, to).value)
    decreases |ats|
  {
    hide Clobbers, Patch;
    if ats != [] {
      PatchSame(code, ats[0], to);
      PatchAllSame(PatchAt(code, ats[0], to).value, ats[1..], to);
    }
  }

  lemma SameExact(y: Story, c: Core, code: seq<Word>)
    requires Exact(y, c) && SameClobbers(c.code, code)
    ensures Exact(y, c.(code := code))
  {
    hide Clobbers;
  }

  lemma EmitExact(y: Story, c: Core, w: Word)
    requires Exact(y, c)
    ensures Exact(y.(words := y.words + 1, since := y.since + {y.words}), BranchLinker.Emit(c, w))
  {
    hide Clobbers;
    var more, r := y.since + {y.words}, BranchLinker.Emit(c, w);
    if i :| i in y.since && Clobbers(c.code[i]) {
      assert i in more && Clobbers(r.code[i]);
    }
    if Clobbers(w) {
      assert y.words in more && r.code[y.words] == w;
    }
  }

  lemma DataExact(y: Story, c: Core, lo: Word, hi: Word)
    requires Exact(y, c)
    ensures Exact(y.(words := y.words + 2), c.(code := c.code + [lo, hi]))
  {
    hide Clobbers;
    forall i | i in y.since
      ensures (c.code + [lo, hi])[i] == c.code[i]
    {
    }
  }

  lemma BindExact(y: Story, s: State, l: nat)
    requires WellFormed(s) && Exact(y, s.core) && Step(s, Bind(l)).Some?
    ensures Exact(y, Step(s, Bind(l)).value.core)
  {
    var head := LabelOf(s, l).head;
    ChainInCode(s.core, head);
    hide Exact, Clobbers, Patch;
    PatchAllSame(s.core.code, Chain(s.core.pending, head), 4 * |s.core.code|);
    SameExact(y, s.core, Step(s, Bind(l)).value.core.code);
  }

  lemma JumpExact(y: Story, s: State, kind: Kind, l: nat)
    requires WellFormed(s) && Exact(y, s.core) && Step(s, Jump(kind, l)).Some?
    ensures Exact(Tell(y, Emit(Jump(kind, l))), Step(s, Jump(kind, l)).value.core)
  {
    hide Clobbers, Link, Placeholder;
    var lab, here := LabelOf(s, l), 4 * |s.core.code|;
    if lab.bound {
      EmitExact(y, s.core, Link(kind, here, lab.offset).value);
    } else {
      var c := s.core.(pending := s.core.pending + [Fixup(here, lab.head)]);
      assert Exact(y, c);
      EmitExact(y, c, Placeholder(kind));
    }
  }

  lemma PerformExact(y: Story, s: State, act: Act)
    requires WellFormed(s) && Exact(y, s.core) && Perform(s, act).Some?
    ensures Exact(Tell(y, act), Perform(s, act).value.core)
  {
    hide Clobbers;
    match act
    case Repatch(at, to) =>
      PatchSame(s.core.code, at, to);
      SameExact(y, s.core, PatchAt(s.core.code, at, to).value);
    case Emit(op) =>
      match op
      case Insn(w) => EmitExact(y, s.core, w);
      case Data(lo, hi) => DataExact(y, s.core, lo, hi);
      case Jump(kind, l) => JumpExact(y, s, kind, l);
      case Bind(l) => BindExact(y, s, l);
      case ResetR0 =>
      case MarkR0 =>
  }

  lemma {:induction false} ActsExact(acts: seq<Act>)
    requires RunActs(acts).Some?
    ensures Exact(StoryOf(acts), RunActs(acts).value.core)
  {
    if acts != [] {
      ActsExact(acts[..|acts| - 1]);
      PerformExact(StoryOf(acts[..|acts| - 1]), RunActs(acts[..|acts| - 1]).value, acts[|acts| - 1]);
    }
  }

  /** However emissions, binds and patches by hand are mixed, the flag is set exactly if it was set by hand since the
      last reset or one of the instruction words emitted since then, as it stands now, decodes to a restore of r0 or
      to a call. */
  lemma FlagExactUnderPatches(acts: seq<Act>)
    requires RunActs(acts).Some?
    ensures var y, c := StoryOf(acts), RunActs(acts).value.core;
      && y.words == |c.code| && (forall i :: i in y.since ==> i < |c.code|)
      && (c.dirty <==> y.marked || exists i :: i in y.since && RestoresOrCalls(c.code[i]))
  {
    ActsExact(acts);
    hide RunActs, Clobbers, RestoresOrCalls;
    var y, c := StoryOf(acts), RunActs(acts).value.core;
    forall i | i in y.since
      ensures Clobbers(c.code[i]) <==> RestoresOrCalls(c.code[i])
    {
      ClobbersIff(c.code[i]);
    }
  }
}
