/** The store-buffer litmus on a machine with FIFO store buffers.  A plain store goes to the end of
    the thread's buffer and reaches memory later, in order; a plain load sees the thread's own latest
    buffered store, else memory; a locked operation waits until the thread's buffer is empty. */
module StoreBuffer {
  import opened Options

  datatype Loc = X | Y | R0 | R1 | Count | Sense

  datatype Memory = Memory(x: int, y: int, r0: int, r1: int, count: int, sense: int)

  function Get(m: Memory, l: Loc): int {
    match l case X => m.x case Y => m.y case R0 => m.r0 case R1 => m.r1 case Count => m.count case Sense => m.sense
  }

  function Put(m: Memory, l: Loc, v: int): Memory {
    match l
    case X => m.(x := v) case Y => m.(y := v) case R0 => m.(r0 := v) case R1 => m.(r1 := v)
    case Count => m.(count := v) case Sense => m.(sense := v)
  }

  datatype Write = Write(l: Loc, v: int)

  /** bar2 is Arrive, then Spin, or Reset and Flip for the second to arrive.  The litmus step is StoreFlag, Fence,
      LoadPeer and StoreResult; thread 0 goes on with the check of both results and the two resets. */
  datatype Pc =
    | Arrive | Reset | Flip | Spin
    | StoreFlag | Fence | LoadPeer | StoreResult(v: int)
    | CheckR0 | CheckR1(r0: int) | ZeroX | ZeroY

  /** sense is the thread's local_sense; round counts the barriers it has arrived at. */
  datatype Thread = Thread(pc: Pc, sense: int, round: nat, buf: seq<Write>)

  /** done counts completed barriers, hits the iterations in which thread 0 saw two zeros. */
  datatype State = State(first: Thread, second: Thread, mem: Memory, done: nat, hits: nat)

  const START := State(Thread(Arrive, 0, 0, []), Thread(Arrive, 0, 0, []), Memory(0, 0, 0, 0, 0, 0), 0, 0)

  /** Threads are named by a bool; false is thread 0, which checks and resets. */
  function Of(s: State, who: bool): Thread { if who then s.second else s.first }

  function With(s: State, who: bool, t: Thread): State { if who then s.(second := t) else s.(first := t) }

  function Flag(who: bool): Loc { if who then Y else X }

  function Res(who: bool): Loc { if who then R1 else R0 }

  /** What a plain load returns. */
  function Read(buf: seq<Write>, m: Memory, l: Loc): int {
    if buf == [] then Get(m, l)
    else if buf[|buf| - 1].l == l then buf[|buf| - 1].v
    else Read(buf[..|buf| - 1], m, l)
  }

  /** Draining the oldest store changes nothing its own thread can see. */
  lemma {:induction false} DrainKeepsRead(buf: seq<Write>, m: Memory, l: Loc)
    requires buf != []
    ensures Read(buf[1..], Put(m, buf[0].l, buf[0].v), l) == Read(buf, m, l)
  {
    var last := |buf| - 1;
    if last == 0 {
      assert buf[..last] == [] == buf[1..];
    } else {
      assert buf[1..][..last - 1] == buf[..last][1..];
      DrainKeepsRead(buf[..last], m, l);
    }
  }

  lemma ReadAppend(buf: seq<Write>, m: Memory, w: Write, l: Loc)
    ensures Read(buf + [w], m, l) == if w.l == l then w.v else Read(buf, m, l)
  {
    assert (buf + [w])[..|buf|] == buf;
  }

  function AfterBarrier(who: bool, round: nat): Pc {
    if round % 2 == 1 then StoreFlag else if who then Arrive else CheckR0
  }

  datatype Event = Exec(who: bool) | Drain(who: bool)

  function Buffer(t: Thread, l: Loc, v: int, pc: Pc): Thread {
    t.(buf := t.buf + [Write(l, v)], pc := pc)
  }

  predicate Locked(pc: Pc, fenced: bool) {
    pc.Arrive? || pc.Flip? || (pc.Fence? && fenced)
  }

  predicate Enabled(s: State, e: Event, fenced: bool) {
    var t := Of(s, e.who);
    match e
    case Exec(_) => Locked(t.pc, fenced) ==> t.buf == []
    case Drain(_) => t.buf != []
  }

  function Step(s: State, e: Event, fenced: bool): State
    requires Enabled(s, e, fenced)
  {
    var who := e.who;
    var t := Of(s, who);
    match e
    case Drain(_) => With(s, who, t.(buf := t.buf[1..])).(mem := Put(s.mem, t.buf[0].l, t.buf[0].v))
    case Exec(_) =>
      match t.pc
      case Arrive =>
        var n := s.mem.count + 1;
        var pc := if n == 2 then Reset else Spin;
        With(s, who, t.(sense := 1 - t.sense, round := t.round + 1, pc := pc)).(mem := s.mem.(count := n))
      case Reset => With(s, who, Buffer(t, Count, 0, Flip))
      case Flip =>
        With(s, who, t.(pc := AfterBarrier(who, t.round))).(mem := s.mem.(sense := t.sense), done := s.done + 1)
      case Spin =>
        if Read(t.buf, s.mem, Sense) == t.sense then With(s, who, t.(pc := AfterBarrier(who, t.round))) else s
      case StoreFlag => With(s, who, Buffer(t, Flag(who), 1, Fence))
      case Fence => With(s, who, t.(pc := LoadPeer))
      case LoadPeer => With(s, who, t.(pc := StoreResult(Read(t.buf, s.mem, Flag(!who)))))
      case StoreResult(v) => With(s, who, Buffer(t, Res(who), v, Arrive))
      case CheckR0 => With(s, who, t.(pc := CheckR1(Read(t.buf, s.mem, R0))))
      case CheckR1(r0) =>
        var zero := r0 == 0 && Read(t.buf, s.mem, R1) == 0;
        With(s, who, t.(pc := ZeroX)).(hits := s.hits + if zero then 1 else 0)
      case ZeroX => With(s, who, Buffer(t, X, 0, ZeroY))
      case ZeroY => With(s, who, Buffer(t, Y, 0, Arrive))
  }

  /** The state after a run, if each event was enabled in turn. */
  function Run(events: seq<Event>, fenced: bool): Option<State> {
    if events == [] then Some(START)
    else match Run(events[..|events| - 1], fenced)
      case None => None
      case Some(s) =>
        var e := events[|events| - 1];
        if Enabled(s, e, fenced) then Some(Step(s, e, fenced)) else None
  }

  // ------------------------------------------------------------------ the barrier

  predicate InBarrier(pc: Pc) { pc.Spin? || pc.Reset? || pc.Flip? }

  predicate Last(pc: Pc) { pc.Reset? || pc.Flip? }

  /** What a thread may have in its buffer at each point.  Without the fence the flag store may wait until the
      barrier, with the result behind it. */
  predicate BufferOk(who: bool, t: Thread, fenced: bool) {
    match t.pc
    case Flip => t.buf == [] || t.buf == [Write(Count, 0)]
    case Fence => t.buf == [] || t.buf == [Write(Flag(who), 1)]
    case LoadPeer => t.buf == [] || (!fenced && t.buf == [Write(Flag(who), 1)])
    case StoreResult(_) => t.buf == [] || (!fenced && t.buf == [Write(Flag(who), 1)])
    case ZeroY => t.buf == [] || t.buf == [Write(X, 0)]
    case Arrive =>
      t.buf == [] || (if t.round % 2 == 1 then StepBuffer(who, t.buf, fenced)
                      else !who && (t.buf == [Write(Y, 0)] || t.buf == [Write(X, 0), Write(Y, 0)]))
    case _ => t.buf == []
  }

  predicate StepBuffer(who: bool, buf: seq<Write>, fenced: bool) {
    || (|buf| == 1 && buf[0].l == Res(who))
    || (!fenced && |buf| == 2 && buf[0] == Write(Flag(who), 1) && buf[1].l == Res(who))
  }

  predicate ThreadOk(s: State, who: bool, fenced: bool) {
    var t := Of(s, who);
    && BufferOk(who, t, fenced)
    && s.done <= t.round <= s.done + 1 && t.sense == t.round % 2
    && (t.round == s.done + 1 ==> InBarrier(t.pc))
    && (Last(t.pc) ==> t.round == s.done + 1)
    && (InStep(t.pc) ==> t.round % 2 == 1)
    && (InCheck(t.pc) ==> !who && t.round % 2 == 0 && t.round > 0)
    && (t.pc.Spin? ==> t.round > 0)
  }

  predicate InStep(pc: Pc) { pc.StoreFlag? || pc.Fence? || pc.LoadPeer? || pc.StoreResult? }

  predicate InCheck(pc: Pc) { pc.CheckR0? || pc.CheckR1? || pc.ZeroX? || pc.ZeroY? }

  function Arrived(s: State, who: bool): nat { if Of(s, who).round == s.done + 1 then 1 else 0 }

  predicate BarrierOk(s: State, fenced: bool) {
    && ThreadOk(s, false, fenced) && ThreadOk(s, true, fenced)
    && s.mem.sense == s.done % 2
    && (match Arrived(s, false) + Arrived(s, true)
        case 0 => s.mem.count == 0
        case 1 => s.mem.count == 1 && !Last(s.first.pc) && !Last(s.second.pc)
        case _ =>
          && (Last(s.first.pc) <==> !Last(s.second.pc))
          && s.mem.count == (if Of(s, Last(s.second.pc)).pc.Flip? && Of(s, Last(s.second.pc)).buf == [] then 0 else 2))
  }

  lemma BarrierDrain(s: State, who: bool, fenced: bool)
    requires BarrierOk(s, fenced) && Of(s, who).buf != []
    ensures BarrierOk(Step(s, Drain(who), fenced), fenced)
  {
    assert BufferOk(who, Of(s, who), fenced);
  }

  lemma ArriveMoves(s: State, who: bool, fenced: bool)
    requires BarrierOk(s, fenced) && Enabled(s, Exec(who), fenced) && Of(s, who).pc.Arrive?
    ensures BarrierOk(Step(s, Exec(who), fenced), fenced)
  {
    assert ThreadOk(s, who, fenced) && ThreadOk(s, !who, fenced);
  }

  lemma WaitMoves(s: State, who: bool, fenced: bool)
    requires BarrierOk(s, fenced) && Enabled(s, Exec(who), fenced) && InBarrier(Of(s, who).pc)
    ensures BarrierOk(Step(s, Exec(who), fenced), fenced)
  {
    assert ThreadOk(s, who, fenced) && ThreadOk(s, !who, fenced);
  }

  lemma StepMoves(s: State, who: bool, fenced: bool)
    requires BarrierOk(s, fenced) && Enabled(s, Exec(who), fenced) && InStep(Of(s, who).pc)
    ensures BarrierOk(Step(s, Exec(who), fenced), fenced)
  {
    assert ThreadOk(s, who, fenced) && ThreadOk(s, !who, fenced);
  }

  lemma CheckMoves(s: State, who: bool, fenced: bool)
    requires BarrierOk(s, fenced) && Enabled(s, Exec(who), fenced) && InCheck(Of(s, who).pc)
    ensures BarrierOk(Step(s, Exec(who), fenced), fenced)
  {
    assert ThreadOk(s, who, fenced) && ThreadOk(s, !who, fenced);
  }

  lemma BarrierStep(s: State, e: Event, fenced: bool)
    requires BarrierOk(s, fenced) && Enabled(s, e, fenced)
    ensures BarrierOk(Step(s, e, fenced), fenced)
  {
    hide Step, BarrierOk;
    match e
    case Drain(who) => BarrierDrain(s, who, fenced);
    case Exec(who) =>
      if InStep(Of(s, who).pc) {
        StepMoves(s, who, fenced);
      } else if InCheck(Of(s, who).pc) {
        CheckMoves(s, who, fenced);
      } else if InBarrier(Of(s, who).pc) {
        WaitMoves(s, who, fenced);
      } else {
        ArriveMoves(s, who, fenced);
      }
  }

  lemma StartOk(fenced: bool)
    ensures BarrierOk(START, fenced) && DataOk(START)
  {
  }

  /** The barrier's invariant holds over every run, with or without the fences. */
  lemma {:induction false} BarrierRun(events: seq<Event>, fenced: bool)
    ensures Run(events, fenced).Some? ==> BarrierOk(Run(events, fenced).value, fenced)
  {
    hide Step, BarrierOk;
    if events == [] {
      StartOk(fenced);
    } else {
      BarrierRun(events[..|events| - 1], fenced);
      match Run(events[..|events| - 1], fenced)
      case None =>
      case Some(s) =>
        if Enabled(s, events[|events| - 1], fenced) {
          BarrierStep(s, events[|events| - 1], fenced);
        }
    }
  }

  /** In either arm: a thread outside the barrier has arrived exactly as often as barriers completed, so its peer
      arrived at least as often; and thread 0 checks and resets only while thread 1 is not in its step, with thread
      1's stores all in memory and, once thread 1 is in a step, its own resets in memory too. */
  lemma BarrierSeparates(events: seq<Event>, who: bool, fenced: bool)
    requires Run(events, fenced).Some?
    ensures var s := Run(events, fenced).value;
      && (!InBarrier(Of(s, who).pc) ==> Of(s, !who).round >= Of(s, who).round == s.done)
      && (InCheck(s.first.pc) ==> !InStep(s.second.pc) && s.second.buf == [])
      && (InStep(s.second.pc) ==> !InCheck(s.first.pc) && forall w :: w in s.first.buf ==> w.v != 0 || w.l !in {X, Y})
  {
    BarrierRun(events, fenced);
    hide Step, Run;
    var s := Run(events, fenced).value;
    assert ThreadOk(s, who, fenced) && ThreadOk(s, !who, fenced);
  }

  // ------------------------------------------------------------------ the litmus

  /** The thread has not yet executed this iteration's flag store. */
  predicate Early(s: State, who: bool) {
    Of(s, who).round == s.done && (Of(s, who).pc.Spin? || Of(s, who).pc.StoreFlag?)
  }

  /** What the thread loaded from its peer's flag in this iteration, once it has. */
  function Loaded(s: State, who: bool): Option<int> {
    var t := Of(s, who);
    if t.round == s.done + 1 then Some(Get(s.mem, Res(who)))
    else if t.pc.StoreResult? then Some(t.pc.v)
    else if t.pc.Arrive? then Some(Read(t.buf, s.mem, Res(who)))
    else None
  }

  /** A flag is 0 until its store drains and 1 from the fence on. */
  predicate FlagOk(s: State, who: bool) {
    Get(s.mem, Flag(who)) == (if Early(s, who) || (Of(s, who).pc.Fence? && Of(s, who).buf != []) then 0 else 1)
  }

  /** Thread 0 has put its resets in the buffer as far as its program point says. */
  predicate ResetOk(s: State) {
    var t := s.first;
    && (t.pc.ZeroY? || t.pc.Arrive? || t.round == s.done + 1 ==> Read(t.buf, s.mem, X) == 0)
    && (t.pc.Arrive? || t.round == s.done + 1 ==> Read(t.buf, s.mem, Y) == 0)
  }

  /** The step phase runs while an odd number of barriers is done, the check phase while an even number is. */
  predicate DataOk(s: State) {
    && s.hits == 0
    && (if s.done % 2 == 1 then
          && FlagOk(s, false) && FlagOk(s, true)
          && !(Loaded(s, false) == Some(0) && Loaded(s, true) == Some(0))
        else
          && ResetOk(s)
          && (s.done > 0 ==> !(s.mem.r0 == 0 && s.mem.r1 == 0))
          && (s.first.pc.CheckR1? ==> s.first.pc.r0 == s.mem.r0))
  }

  lemma StepPhaseDrain(s: State, who: bool)
    requires BarrierOk(s, true) && DataOk(s) && Of(s, who).buf != [] && s.done % 2 == 1
    ensures DataOk(Step(s, Drain(who), true))
  {
    assert ThreadOk(s, who, true) && ThreadOk(s, !who, true);
  }

  lemma CheckPhaseDrain(s: State, who: bool)
    requires BarrierOk(s, true) && DataOk(s) && Of(s, who).buf != [] && s.done % 2 == 0
    ensures DataOk(Step(s, Drain(who), true))
  {
    assert ThreadOk(s, who, true) && ThreadOk(s, !who, true);
    DrainKeepsRead(Of(s, who).buf, s.mem, X);
    DrainKeepsRead(Of(s, who).buf, s.mem, Y);
  }

  lemma StepPhaseExec(s: State, who: bool)
    requires BarrierOk(s, true) && DataOk(s) && Enabled(s, Exec(who), true) && s.done % 2 == 1
    ensures DataOk(Step(s, Exec(who), true))
  {
    assert ThreadOk(s, who, true) && ThreadOk(s, !who, true);
  }

  /** The barrier that opens the next step completes: both flags have been reset. */
  lemma CheckPhaseEnds(s: State, who: bool)
    requires BarrierOk(s, true) && DataOk(s) && Enabled(s, Exec(who), true) && s.done % 2 == 0
    requires Of(s, who).pc.Flip?
    ensures DataOk(Step(s, Exec(who), true))
  {
    assert ThreadOk(s, who, true) && ThreadOk(s, !who, true);
  }

  lemma CheckPhaseWaits(s: State, who: bool)
    requires BarrierOk(s, true) && DataOk(s) && Enabled(s, Exec(who), true) && s.done % 2 == 0
    requires !InCheck(Of(s, who).pc) && !Of(s, who).pc.Flip?
    ensures DataOk(Step(s, Exec(who), true))
  {
    assert ThreadOk(s, who, true) && ThreadOk(s, !who, true);
    ReadAppend(s.first.buf, s.mem, Write(Count, 0), X);
    ReadAppend(s.first.buf, s.mem, Write(Count, 0), Y);
  }

  lemma CheckPhaseChecks(s: State)
    requires BarrierOk(s, true) && DataOk(s) && Enabled(s, Exec(false), true) && s.done % 2 == 0 && InCheck(s.first.pc)
    ensures DataOk(Step(s, Exec(false), true))
  {
    assert ThreadOk(s, false, true) && ThreadOk(s, true, true);
    ReadAppend(s.first.buf, s.mem, Write(X, 0), X);
    ReadAppend(s.first.buf, s.mem, Write(Y, 0), X);
    ReadAppend(s.first.buf, s.mem, Write(Y, 0), Y);
  }

  lemma CheckPhaseExec(s: State, who: bool)
    requires BarrierOk(s, true) && DataOk(s) && Enabled(s, Exec(who), true) && s.done % 2 == 0
    ensures DataOk(Step(s, Exec(who), true))
  {
    if InCheck(Of(s, who).pc) {
      assert ThreadOk(s, who, true);
      hide Step, DataOk;
      CheckPhaseChecks(s);
    } else if Of(s, who).pc.Flip? {
      hide Step, DataOk;
      CheckPhaseEnds(s, who);
    } else {
      hide Step, DataOk;
      CheckPhaseWaits(s, who);
    }
  }

  lemma FencedStep(s: State, e: Event)
    requires BarrierOk(s, true) && DataOk(s) && Enabled(s, e, true)
    ensures BarrierOk(Step(s, e, true), true) && DataOk(Step(s, e, true))
  {
    hide Step, BarrierOk, DataOk;
    BarrierStep(s, e, true);
    match e
    case Drain(who) => if s.done % 2 == 1 { StepPhaseDrain(s, who); } else { CheckPhaseDrain(s, who); }
    case Exec(who) => if s.done % 2 == 1 { StepPhaseExec(s, who); } else { CheckPhaseExec(s, who); }
  }

  lemma {:induction false} FencedRun(events: seq<Event>)
    ensures Run(events, true).Some? ==> BarrierOk(Run(events, true).value, true) && DataOk(Run(events, true).value)
  {
    hide Step, BarrierOk, DataOk;
    if events == [] {
      StartOk(true);
    } else {
      FencedRun(events[..|events| - 1]);
      match Run(events[..|events| - 1], true)
      case None =>
      case Some(s) =>
        if Enabled(s, events[|events| - 1], true) {
          FencedStep(s, events[|events| - 1]);
        }
    }
  }

  /** With locked adds as fences, thread 0 never finds both results zero, in a run of any length. */
  lemma FencedNeverBothZero(events: seq<Event>)
    requires Run(events, true).Some?
    ensures Run(events, true).value.hits == 0
  {
    FencedRun(events);
  }

  // ------------------------------------------------------------------ what can happen

  /** The fence is all that tells the arms apart: where a fenced step may be taken, the unfenced one is the same. */
  lemma FenceOnlyWaits(s: State, e: Event)
    ensures Enabled(s, e, true) ==> Enabled(s, e, false) && Step(s, e, true) == Step(s, e, false)
    ensures Enabled(s, e, false) && !Enabled(s, e, true) ==>
      e.Exec? && Of(s, e.who).pc == Fence && Of(s, e.who).buf != []
  {
  }

  /** One more event of a run that has reached s. */
  lemma Next(run: seq<Event>, fenced: bool, s: State, e: Event, next: State)
    returns (longer: seq<Event>, now: State)
    requires Run(run, fenced) == Some(s) && Enabled(s, e, fenced) && Step(s, e, fenced) == next
    ensures Run(longer, fenced) == Some(next) && now == next
  {
    longer, now := run + [e], next;
    assert longer[..|run|] == run;
  }

  /** The threads at a barrier after i iterations; t0 and t1 are what they have buffered. */
  function Both(pc: Pc, sense: int, round: nat, t0: seq<Write>, t1: seq<Write>, mem: Memory, done: nat,
                hits: nat): State
  {
    State(Thread(pc, sense, round, t0), Thread(pc, sense, round, t1), mem, done, hits)
  }

  function AtTop(i: nat, hits: nat): State { Both(Arrive, 0, 2 * i, [], [], Memory(0, 0, 0, 0, 0, 0), 2 * i, hits) }

  function InLitmus(i: nat, hits: nat): State {
    Both(StoreFlag, 1, 2 * i + 1, [], [], Memory(0, 0, 0, 0, 0, 1), 2 * i + 1, hits)
  }

  /** Both threads pass the first barrier of an iteration. */
  lemma PassFirst(events: seq<Event>, fenced: bool, i: nat, hits: nat) returns (run: seq<Event>)
    requires Run(events, fenced) == Some(AtTop(i, hits))
    ensures Run(run, fenced) == Some(InLitmus(i, hits))
  {
    hide Run;
    var r := 2 * i + 1;
    var s := AtTop(i, hits);
    run := events;
    run, s := Next(run, fenced, s, Exec(false), s.(first := Thread(Spin, 1, r, []), mem := Memory(0, 0, 0, 0, 1, 0)));
    run, s := Next(run, fenced, s, Exec(true), s.(second := Thread(Reset, 1, r, []), mem := Memory(0, 0, 0, 0, 2, 0)));
    run, s := Next(run, fenced, s, Exec(true), s.(second := Thread(Flip, 1, r, [Write(Count, 0)])));
    run, s := Next(run, fenced, s, Drain(true), s.(second := Thread(Flip, 1, r, []), mem := Memory(0, 0, 0, 0, 0, 0)));
    run, s := Next(run, fenced, s, Exec(true),
                   s.(second := Thread(StoreFlag, 1, r, []), mem := Memory(0, 0, 0, 0, 0, 1), done := r));
    run, s := Next(run, fenced, s, Exec(false), s.(first := Thread(StoreFlag, 1, r, [])));
  }

  /** Without the fences both load their peer's flag while the flag stores are still buffered. */
  lemma LoadEarly(events: seq<Event>, i: nat, hits: nat) returns (run: seq<Event>)
    requires Run(events, false) == Some(InLitmus(i, hits))
    ensures Run(run, false) == Some(Both(Arrive, 1, 2 * i + 1, [Write(X, 1), Write(R0, 0)], [Write(Y, 1), Write(R1, 0)],
                                         Memory(0, 0, 0, 0, 0, 1), 2 * i + 1, hits))
  {
    hide Run;
    var r := 2 * i + 1;
    var s := InLitmus(i, hits);
    run := events;
    run, s := Next(run, false, s, Exec(false), s.(first := Thread(Fence, 1, r, [Write(X, 1)])));
    run, s := Next(run, false, s, Exec(false), s.(first := Thread(LoadPeer, 1, r, [Write(X, 1)])));
    run, s := Next(run, false, s, Exec(false), s.(first := Thread(StoreResult(0), 1, r, [Write(X, 1)])));
    run, s := Next(run, false, s, Exec(false), s.(first := Thread(Arrive, 1, r, [Write(X, 1), Write(R0, 0)])));
    run, s := Next(run, false, s, Exec(true), s.(second := Thread(Fence, 1, r, [Write(Y, 1)])));
    run, s := Next(run, false, s, Exec(true), s.(second := Thread(LoadPeer, 1, r, [Write(Y, 1)])));
    run, s := Next(run, false, s, Exec(true), s.(second := Thread(StoreResult(0), 1, r, [Write(Y, 1)])));
    run, s := Next(run, false, s, Exec(true), s.(second := Thread(Arrive, 1, r, [Write(Y, 1), Write(R1, 0)])));
  }

  /** Both have stored their results, and all stores are in memory. */
  function Stored(i: nat, hits: nat, r1: int): State {
    Both(Arrive, 1, 2 * i + 1, [], [], Memory(1, 1, 0, r1, 0, 1), 2 * i + 1, hits)
  }

  lemma DrainAll(events: seq<Event>, i: nat, hits: nat) returns (run: seq<Event>)
    requires Run(events, false) == Some(Both(Arrive, 1, 2 * i + 1, [Write(X, 1), Write(R0, 0)],
                                             [Write(Y, 1), Write(R1, 0)], Memory(0, 0, 0, 0, 0, 1), 2 * i + 1, hits))
    ensures Run(run, false) == Some(Stored(i, hits, 0))
  {
    hide Run;
    var r := 2 * i + 1;
    var s := Both(Arrive, 1, r, [Write(X, 1), Write(R0, 0)], [Write(Y, 1), Write(R1, 0)],
                  Memory(0, 0, 0, 0, 0, 1), r, hits);
    run := events;
    run, s := Next(run, false, s, Drain(false),
                   s.(first := Thread(Arrive, 1, r, [Write(R0, 0)]), mem := Memory(1, 0, 0, 0, 0, 1)));
    run, s := Next(run, false, s, Drain(false), s.(first := Thread(Arrive, 1, r, [])));
    run, s := Next(run, false, s, Drain(true),
                   s.(second := Thread(Arrive, 1, r, [Write(R1, 0)]), mem := Memory(1, 1, 0, 0, 0, 1)));
    run, s := Next(run, false, s, Drain(true), s.(second := Thread(Arrive, 1, r, [])));
  }

  /** Thread 0 about to check, thread 1 at the top of its next iteration. */
  function Checking(i: nat, hits: nat, r1: int): State {
    var r := 2 * i + 2;
    State(Thread(CheckR0, 0, r, []), Thread(Arrive, 0, r, []), Memory(1, 1, 0, r1, 0, 0), r, hits)
  }

  /** Both reach the second barrier, which completes. */
  lemma PassSecond(events: seq<Event>, fenced: bool, i: nat, hits: nat, r1: int) returns (run: seq<Event>)
    requires Run(events, fenced) == Some(Stored(i, hits, r1))
    ensures Run(run, fenced) == Some(Checking(i, hits, r1))
  {
    hide Run;
    var r := 2 * i + 2;
    var s := Stored(i, hits, r1);
    run := events;
    run, s := Next(run, fenced, s, Exec(false), s.(first := Thread(Spin, 0, r, []), mem := Memory(1, 1, 0, r1, 1, 1)));
    run, s := Next(run, fenced, s, Exec(true), s.(second := Thread(Reset, 0, r, []), mem := Memory(1, 1, 0, r1, 2, 1)));
    run, s := Next(run, fenced, s, Exec(true), s.(second := Thread(Flip, 0, r, [Write(Count, 0)])));
    run, s := Next(run, fenced, s, Drain(true), s.(second := Thread(Flip, 0, r, []), mem := Memory(1, 1, 0, r1, 0, 1)));
    run, s := Next(run, fenced, s, Exec(true),
                   s.(second := Thread(Arrive, 0, r, []), mem := Memory(1, 1, 0, r1, 0, 0), done := r));
    run, s := Next(run, fenced, s, Exec(false), s.(first := Thread(CheckR0, 0, r, [])));
  }

  /** Thread 0 sees the results, counts a hit if both are zero, and resets the flags. */
  lemma CheckAndReset(events: seq<Event>, fenced: bool, i: nat, hits: nat, r1: int) returns (run: seq<Event>)
    requires Run(events, fenced) == Some(Checking(i, hits, r1))
    ensures Run(run, fenced) == Some(Both(Arrive, 0, 2 * i + 2, [], [], Memory(0, 0, 0, r1, 0, 0), 2 * i + 2,
                                          hits + if r1 == 0 then 1 else 0))
  {
    hide Run;
    var r := 2 * i + 2;
    var s := Checking(i, hits, r1);
    var seen := hits + if r1 == 0 then 1 else 0;
    run := events;
    run, s := Next(run, fenced, s, Exec(false), s.(first := Thread(CheckR1(0), 0, r, [])));
    run, s := Next(run, fenced, s, Exec(false), s.(first := Thread(ZeroX, 0, r, []), hits := seen));
    run, s := Next(run, fenced, s, Exec(false), s.(first := Thread(ZeroY, 0, r, [Write(X, 0)])));
    run, s := Next(run, fenced, s, Exec(false), s.(first := Thread(Arrive, 0, r, [Write(X, 0), Write(Y, 0)])));
    run, s := Next(run, fenced, s, Drain(false),
                   s.(first := Thread(Arrive, 0, r, [Write(Y, 0)]), mem := Memory(0, 1, 0, r1, 0, 0)));
    run, s := Next(run, fenced, s, Drain(false),
                   s.(first := Thread(Arrive, 0, r, []), mem := Memory(0, 0, 0, r1, 0, 0)));
  }

  lemma OneMoreHit(events: seq<Event>, i: nat) returns (run: seq<Event>)
    requires Run(events, false) == Some(AtTop(i, i))
    ensures Run(run, false) == Some(AtTop(i + 1, i + 1))
  {
    hide Run;
    run := PassFirst(events, false, i, i);
    run := LoadEarly(run, i, i);
    run := DrainAll(run, i, i);
    run := PassSecond(run, false, i, i, 0);
    run := CheckAndReset(run, false, i, i, 0);
  }

  /** Without the fences the program can reach the outcome the probe looks for in every iteration: for every n some
      run of n iterations counts n hits. */
  lemma {:induction false} UnfencedCanHit(n: nat) returns (run: seq<Event>)
    ensures Run(run, false).Some? && Run(run, false).value.hits == n && Run(run, false).value.done == 2 * n
    ensures Run(run, false) == Some(AtTop(n, n))
  {
    if n == 0 {
      run := [];
    } else {
      run := UnfencedCanHit(n - 1);
      run := OneMoreHit(run, n - 1);
    }
  }

  /** With the fences: thread 0 goes first and loads 0, thread 1 comes behind it and loads 1. */
  lemma LoadInTurn(events: seq<Event>, i: nat, hits: nat) returns (run: seq<Event>)
    requires Run(events, true) == Some(InLitmus(i, hits))
    ensures Run(run, true) == Some(Stored(i, hits, 1))
  {
    hide Run;
    var r := 2 * i + 1;
    var s := InLitmus(i, hits);
    run := events;
    run, s := Next(run, true, s, Exec(false), s.(first := Thread(Fence, 1, r, [Write(X, 1)])));
    run, s := Next(run, true, s, Drain(false), s.(first := Thread(Fence, 1, r, []), mem := Memory(1, 0, 0, 0, 0, 1)));
    run, s := Next(run, true, s, Exec(false), s.(first := Thread(LoadPeer, 1, r, [])));
    run, s := Next(run, true, s, Exec(false), s.(first := Thread(StoreResult(0), 1, r, [])));
    run, s := Next(run, true, s, Exec(false), s.(first := Thread(Arrive, 1, r, [Write(R0, 0)])));
    run, s := Next(run, true, s, Drain(false), s.(first := Thread(Arrive, 1, r, [])));
    run := LoadBehind(run, i, hits);
  }

  lemma LoadBehind(events: seq<Event>, i: nat, hits: nat) returns (run: seq<Event>)
    requires Run(events, true) == Some(
      State(Thread(Arrive, 1, 2 * i + 1, []), Thread(StoreFlag, 1, 2 * i + 1, []), Memory(1, 0, 0, 0, 0, 1),
            2 * i + 1, hits))
    ensures Run(run, true) == Some(Stored(i, hits, 1))
  {
    hide Run;
    var r := 2 * i + 1;
    var s := State(Thread(Arrive, 1, r, []), Thread(StoreFlag, 1, r, []), Memory(1, 0, 0, 0, 0, 1), r, hits);
    run := events;
    run, s := Next(run, true, s, Exec(true), s.(second := Thread(Fence, 1, r, [Write(Y, 1)])));
    run, s := Next(run, true, s, Drain(true), s.(second := Thread(Fence, 1, r, []), mem := Memory(1, 1, 0, 0, 0, 1)));
    run, s := Next(run, true, s, Exec(true), s.(second := Thread(LoadPeer, 1, r, [])));
    run, s := Next(run, true, s, Exec(true), s.(second := Thread(StoreResult(1), 1, r, [])));
    run, s := Next(run, true, s, Exec(true), s.(second := Thread(Arrive, 1, r, [Write(R1, 1)])));
    run, s := Next(run, true, s, Drain(true), s.(second := Thread(Arrive, 1, r, []), mem := Memory(1, 1, 0, 1, 0, 1)));
  }

  /** The fenced arm is not silent because it stands still: it completes iterations in which one result is zero and
      the other is not. */
  lemma FencedSeesOneZero() returns (run: seq<Event>)
    ensures Run(run, true).Some?
    ensures var s := Run(run, true).value;
            s.done == 2 && s.first.pc == Arrive && s.mem.r0 == 0 && s.mem.r1 == 1 && s.hits == 0
  {
    run := [];
    assert Run(run, true) == Some(AtTop(0, 0));
    hide Run;
    run := PassFirst(run, true, 0, 0);
    run := LoadInTurn(run, 0, 0);
    run := PassSecond(run, true, 0, 0, 1);
    run := CheckAndReset(run, true, 0, 0, 1);
  }
}
