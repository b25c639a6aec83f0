/** The lock word under every interleaving.  A lock-prefixed operation is one step; a plain
    read-modify-write is a load step and a store step, and any other thread may run in between.
    A run is a schedule: the sequence of threads that take the next step. */
module LockWord {

  type U32 = n: int | 0 <= n < 0x1_0000_0000

  const FREE: U32 := 0x8000_0000
  const HELD: U32 := 0

  /** The guest's acquire is an xadd of 2^31; the control arm uses cmpxchg. */
  datatype Acquire = Toggle | Cas

  /** The release is `or` of bit 31, plain (variant A) or lock-prefixed (variant B). */
  datatype Release = Plain | Locked

  /** Where a worker stands.  Read and Loaded hold what a plain load brought in. */
  datatype Pc = Idle | Won | Counted | Read(v: U32) | Written | Left | Loaded(w: U32) | Released

  datatype State = State(
    word: U32,
    pcs: seq<Pc>,
    occupancy: int,       // g_occ.n
    overlaps: nat,        // sum of the threads' ovl counters
    shared: U32,          // g_shared
    acq: seq<nat>,        // each thread's published acquisition count
    wins: nat,            // successful acquires so far
    winner: int)          // the thread of the latest successful acquire, or -1

  function Start(n: nat): State {
    State(FREE, seq(n, _ => Idle), 0, 0, 0, seq(n, _ => 0), 0, -1)
  }

  /** Between a successful acquire and the store of its release. */
  predicate Inside(pc: Pc) {
    !pc.Idle? && !pc.Released?
  }

  function SetBit31(w: U32): U32 {
    if w < 0x8000_0000 then w + 0x8000_0000 else w
  }

  function Flip(w: U32): U32 {
    if w < 0x8000_0000 then w + 0x8000_0000 else w - 0x8000_0000
  }

  /** xadd of 2^31 flips bit 31 and touches no other bit. */
  lemma XaddFlips(w: U32)
    ensures (w + FREE) % 0x1_0000_0000 == Flip(w)
    ensures Flip(w) % 0x8000_0000 == w % 0x8000_0000 && Flip(Flip(w)) == w
  {}

  function At(s: State, t: nat, pc: Pc): State
    requires t < |s.pcs|
  {
    s.(pcs := s.pcs[t := pc])
  }

  function Win(s: State, t: nat, word: U32): State
    requires t < |s.pcs|
  {
    At(s, t, Won).(word := word, wins := s.wins + 1, winner := t)
  }

  /** Thread t takes its next step. */
  function Step(s: State, t: nat, acquire: Acquire, release: Release): (s': State)
    requires t < |s.pcs| == |s.acq|
    ensures |s'.pcs| == |s.pcs| && |s'.acq| == |s.acq|
  {
    match s.pcs[t]
    case Idle =>
      (match acquire
       case Toggle => if s.word == FREE then Win(s, t, (s.word + FREE) % 0x1_0000_0000)
                      else s.(word := (s.word + FREE) % 0x1_0000_0000)
       case Cas => if s.word == FREE then Win(s, t, HELD) else s)
    case Won =>
      var overlap := if s.occupancy != 0 then 1 else 0;
      At(s, t, Counted).(occupancy := s.occupancy + 1, overlaps := s.overlaps + overlap)
    case Counted => At(s, t, Read(s.shared))
    case Read(v) => At(s, t, Written).(shared := (v + 1) % 0x1_0000_0000)
    case Written => At(s, t, Left).(occupancy := s.occupancy - 1)
    case Left =>
      (match release
       case Plain => At(s, t, Loaded(s.word))
       case Locked => At(s, t, Released).(word := SetBit31(s.word)))
    case Loaded(w) => At(s, t, Released).(word := SetBit31(w))
    case Released => At(s, t, Idle).(acq := s.acq[t := s.acq[t] + 1])
  }

  ghost predicate Legal(n: nat, schedule: seq<nat>) {
    forall k :: 0 <= k < |schedule| ==> schedule[k] < n
  }

  /** The state after a schedule of n threads. */
  ghost function Run(n: nat, schedule: seq<nat>, acquire: Acquire, release: Release): (s: State)
    requires Legal(n, schedule)
    ensures |s.pcs| == |s.acq| == n
  {
    if schedule == [] then Start(n)
    else Step(Run(n, schedule[..|schedule| - 1], acquire, release), schedule[|schedule| - 1], acquire, release)
  }

  // ------------------------------------------------------------ the cmpxchg lock

  /** At most one thread is between a successful acquire and its release store. */
  ghost predicate Exclusive(s: State) {
    forall i, j :: 0 <= i < |s.pcs| && 0 <= j < |s.pcs| && Inside(s.pcs[i]) && Inside(s.pcs[j]) ==> i == j
  }

  ghost predicate Empty(s: State) {
    forall i :: 0 <= i < |s.pcs| ==> !Inside(s.pcs[i])
  }

  predicate InSection(pc: Pc) {
    pc.Counted? || pc.Read? || pc.Written?
  }

  /** Has the thread's increment of g_shared landed? */
  predicate Landed(pc: Pc) {
    pc.Written? || pc.Left? || pc.Loaded?
  }

  /** What the one thread inside knows about the shared state. */
  predicate InsideOk(s: State, pc: Pc) {
    && s.word == HELD
    && s.occupancy == (if InSection(pc) then 1 else 0)
    && s.wins > 0
    && s.shared == (if Landed(pc) then s.wins else s.wins - 1) % 0x1_0000_0000
    && (pc.Read? ==> pc.v == s.shared)
    && (pc.Loaded? ==> pc.w == HELD)
  }

  predicate Occupied(s: State) {
    0 <= s.winner < |s.pcs| && Inside(s.pcs[s.winner])
  }

  ghost predicate OnlyWinner(pcs: seq<Pc>, winner: int) {
    forall i :: 0 <= i < |pcs| && Inside(pcs[i]) ==> i == winner
  }

  ghost predicate CasInv(s: State) {
    && |s.pcs| == |s.acq|
    && OnlyWinner(s.pcs, s.winner)
    && s.overlaps == 0
    && if Occupied(s) then InsideOk(s, s.pcs[s.winner])
       else s.word == FREE && s.occupancy == 0 && s.shared == s.wins % 0x1_0000_0000
  }

  lemma NextCount(n: nat)
    requires n > 0
    ensures ((n - 1) % 0x1_0000_0000 + 1) % 0x1_0000_0000 == n % 0x1_0000_0000
  {}

  lemma {:induction false} CasStepInside(s: State, t: nat, release: Release)
    requires CasInv(s) && t < |s.pcs| && Inside(s.pcs[t])
    ensures CasInv(Step(s, t, Cas, release))
  {
    NextCount(s.wins);
  }

  lemma CasStepOutside(s: State, t: nat, release: Release)
    requires CasInv(s) && t < |s.pcs| && !Inside(s.pcs[t])
    ensures CasInv(Step(s, t, Cas, release))
  {
    assert s.winner != t || !Occupied(s);
  }

  /** What every step keeps, for any number of threads and both releases. */
  lemma CasStep(s: State, t: nat, release: Release)
    requires CasInv(s) && t < |s.pcs|
    ensures CasInv(Step(s, t, Cas, release))
  {
    if Inside(s.pcs[t]) {
      CasStepInside(s, t, release);
    } else {
      CasStepOutside(s, t, release);
    }
  }

  lemma {:induction false} CasRun(n: nat, schedule: seq<nat>, release: Release)
    requires Legal(n, schedule)
    ensures CasInv(Run(n, schedule, Cas, release))
  {
    if schedule != [] {
      CasRun(n, schedule[..|schedule| - 1], release);
      CasStep(Run(n, schedule[..|schedule| - 1], Cas, release), schedule[|schedule| - 1], release);
    }
  }

  // ------------------------------------------------ acquisitions and their counters

  function Sum(xs: seq<nat>): nat {
    if xs == [] then 0 else xs[0] + Sum(xs[1..])
  }

  /** Every acquisition a thread has begun, published or not. */
  function Begun(acq: seq<nat>, pcs: seq<Pc>): nat
    requires |acq| == |pcs|
  {
    if acq == [] then 0 else acq[0] + (if pcs[0].Idle? then 0 else 1) + Begun(acq[1..], pcs[1..])
  }

  lemma {:induction false} BegunUpdate(acq: seq<nat>, pcs: seq<Pc>, t: nat, a: nat, pc: Pc)
    requires t < |acq| == |pcs|
    ensures Begun(acq[t := a], pcs[t := pc])
         == Begun(acq, pcs) + a + (if pc.Idle? then 0 else 1) - acq[t] - (if pcs[t].Idle? then 0 else 1)
  {
    if t == 0 {
      assert acq[t := a][1..] == acq[1..] && pcs[t := pc][1..] == pcs[1..];
    } else {
      assert acq[t := a][1..] == acq[1..][t - 1 := a] && pcs[t := pc][1..] == pcs[1..][t - 1 := pc];
      BegunUpdate(acq[1..], pcs[1..], t - 1, a, pc);
    }
  }

  lemma {:induction false} BegunAtRest(acq: seq<nat>, pcs: seq<Pc>)
    requires |acq| == |pcs| && forall i :: 0 <= i < |pcs| ==> pcs[i].Idle?
    ensures Begun(acq, pcs) == Sum(acq)
  {
    if acq != [] {
      BegunAtRest(acq[1..], pcs[1..]);
    }
  }

  lemma {:induction false} BegunStart(n: nat)
    ensures Begun(seq(n, _ => 0), seq(n, _ => Idle)) == 0
  {
    if n > 0 {
      BegunStart(n - 1);
      assert seq<nat>(n, _ => 0)[1..] == seq(n - 1, _ => 0);
      assert seq<Pc>(n, _ => Idle)[1..] == seq(n - 1, _ => Idle);
    }
  }

  lemma StepLocal(s: State, t: nat, acquire: Acquire, release: Release)
    requires t < |s.pcs| == |s.acq|
    ensures var s' := Step(s, t, acquire, release); s'.acq == s.acq[t := s'.acq[t]] && s'.pcs == s.pcs[t := s'.pcs[t]]
  {}

  lemma StepBegun(s: State, t: nat, acquire: Acquire, release: Release)
    requires t < |s.pcs| == |s.acq| && s.wins == Begun(s.acq, s.pcs)
    ensures var s' := Step(s, t, acquire, release); s'.wins == Begun(s'.acq, s'.pcs)
  {
    var s' := Step(s, t, acquire, release);
    StepLocal(s, t, acquire, release);
    BegunUpdate(s.acq, s.pcs, t, s'.acq[t], s'.pcs[t]);
  }

  lemma {:induction false} RunBegun(n: nat, schedule: seq<nat>, acquire: Acquire, release: Release)
    requires Legal(n, schedule)
    ensures var s := Run(n, schedule, acquire, release); s.wins == Begun(s.acq, s.pcs)
  {
    if schedule == [] {
      BegunStart(n);
    } else {
      var front := schedule[..|schedule| - 1];
      RunBegun(n, front, acquire, release);
      StepBegun(Run(n, front, acquire, release), schedule[|schedule| - 1], acquire, release);
    }
  }

  /** The cmpxchg lock excludes even with the plain release: in every run of any number of threads at most
      one is inside, no overlap is ever counted, and whenever nobody is inside the plain counter equals the
      acquisitions; once all threads are back at the top of their loops it equals what they published. */
  lemma CasExcludes(n: nat, schedule: seq<nat>, release: Release)
    requires Legal(n, schedule)
    ensures var s := Run(n, schedule, Cas, release);
            && Exclusive(s) && s.overlaps == 0
            && (Empty(s) ==> s.word == FREE && s.shared == s.wins % 0x1_0000_0000)
            && ((forall i :: 0 <= i < n ==> s.pcs[i].Idle?) ==> s.shared == Sum(s.acq) % 0x1_0000_0000)
  {
    CasRun(n, schedule, release);
    RunBegun(n, schedule, Cas, release);
    var s := Run(n, schedule, Cas, release);
    if forall i :: 0 <= i < n ==> s.pcs[i].Idle? {
      BegunAtRest(s.acq, s.pcs);
    }
  }

  // ------------------------------------------------------------------ the section and its counters

  /** How many threads are between the increment and the decrement of g_occ. */
  function Sections(pcs: seq<Pc>): nat {
    if pcs == [] then 0 else Sections(pcs[1..]) + if InSection(pcs[0]) then 1 else 0
  }

  lemma {:induction false} SectionsUpdate(pcs: seq<Pc>, t: nat, pc: Pc)
    requires t < |pcs|
    ensures Sections(pcs[t := pc]) ==
            Sections(pcs) + (if InSection(pc) then 1 else 0) - (if InSection(pcs[t]) then 1 else 0)
  {
    if t == 0 {
      assert pcs[t := pc][1..] == pcs[1..];
    } else {
      assert pcs[t := pc][1..] == pcs[1..][t - 1 := pc];
      SectionsUpdate(pcs[1..], t - 1, pc);
    }
  }

  lemma {:induction false} SectionsNone(pcs: seq<Pc>)
    ensures Sections(pcs) == 0 <==> forall i :: 0 <= i < |pcs| ==> !InSection(pcs[i])
  {
    if pcs != [] {
      SectionsNone(pcs[1..]);
      assert forall i :: 0 < i < |pcs| ==> pcs[i] == pcs[1..][i - 1];
    }
  }

  lemma StepSections(s: State, t: nat, acquire: Acquire, release: Release)
    requires t < |s.pcs| == |s.acq| && s.occupancy == Sections(s.pcs)
    ensures Step(s, t, acquire, release).occupancy == Sections(Step(s, t, acquire, release).pcs)
  {
    hide Sections;
    StepLocal(s, t, acquire, release);
    SectionsUpdate(s.pcs, t, Step(s, t, acquire, release).pcs[t]);
  }

  /** With either lock, g_occ is the number of threads in the section at every point of every run. */
  lemma {:induction false} OccupancyCounts(n: nat, schedule: seq<nat>, acquire: Acquire, release: Release)
    requires Legal(n, schedule)
    ensures Run(n, schedule, acquire, release).occupancy == Sections(Run(n, schedule, acquire, release).pcs)
  {
    if schedule == [] {
      SectionsNone(Start(n).pcs);
    } else {
      var front, t := schedule[..|schedule| - 1], schedule[|schedule| - 1];
      OccupancyCounts(n, front, acquire, release);
      hide Step, Sections;
      StepSections(Run(n, front, acquire, release), t, acquire, release);
    }
  }

  lemma RunOn(n: nat, schedule: seq<nat>, t: nat, acquire: Acquire, release: Release)
    requires Legal(n, schedule) && t < n
    ensures Legal(n, schedule + [t])
    ensures Run(n, schedule + [t], acquire, release) == Step(Run(n, schedule, acquire, release), t, acquire, release)
  {
    assert (schedule + [t])[..|schedule|] == schedule;
  }

  ghost predicate Meets(s: State, s': State, t: nat)
    requires t < |s.pcs| == |s'.pcs|
  {
    !InSection(s.pcs[t]) && InSection(s'.pcs[t]) && exists i :: 0 <= i < |s.pcs| && InSection(s.pcs[i])
  }

  lemma StepOverlaps(s: State, t: nat, acquire: Acquire, release: Release)
    requires t < |s.pcs| == |s.acq| && s.occupancy == Sections(s.pcs)
    ensures var s' := Step(s, t, acquire, release); s'.overlaps == s.overlaps + if Meets(s, s', t) then 1 else 0
  {
    SectionsNone(s.pcs);
    hide Sections;
  }

  /** An overlap is counted exactly when a thread enters the section while another is in it. */
  lemma OverlapCounted(n: nat, schedule: seq<nat>, t: nat, acquire: Acquire, release: Release)
    requires Legal(n, schedule) && t < n
    ensures Legal(n, schedule + [t])
    ensures var s, s' := Run(n, schedule, acquire, release), Run(n, schedule + [t], acquire, release);
            s'.overlaps == s.overlaps + if Meets(s, s', t) then 1 else 0
  {
    hide Run, Step, Sections, Legal, Meets;
    RunOn(n, schedule, t, acquire, release);
    OccupancyCounts(n, schedule, acquire, release);
    StepOverlaps(Run(n, schedule, acquire, release), t, acquire, release);
  }

  // ------------------------------------------------------------------ somebody gets in

  /** While nobody is inside, the next try of any idle thread takes the lock. */
  lemma CasGetsIn(n: nat, schedule: seq<nat>, t: nat, release: Release)
    requires Legal(n, schedule) && t < n
    ensures Legal(n, schedule + [t])
    ensures var s, s' := Run(n, schedule, Cas, release), Run(n, schedule + [t], Cas, release);
            s.pcs[t].Idle? ==>
              if Empty(s) then Inside(s'.pcs[t]) && s'.word == HELD && s'.wins == s.wins + 1 && s'.winner == t
              else s' == s
  {
    RunOn(n, schedule, t, Cas, release);
    CasRun(n, schedule, release);
  }

  /** How many steps a thread is from the top of its loop, at most. */
  function Ahead(pc: Pc): nat {
    match pc
    case Idle => 0 case Released => 1 case Loaded(_) => 2 case Left => 3
    case Written => 4 case Read(_) => 5 case Counted => 6 case Won => 7
  }

  ghost predicate AtRest(s: State) { forall i :: 0 <= i < |s.pcs| ==> s.pcs[i].Idle? }

  function AllAhead(pcs: seq<Pc>): nat {
    if pcs == [] then 0 else Ahead(pcs[0]) + AllAhead(pcs[1..])
  }

  lemma {:induction false} AheadUpdate(pcs: seq<Pc>, t: nat, pc: Pc)
    requires t < |pcs|
    ensures AllAhead(pcs[t := pc]) == AllAhead(pcs) + Ahead(pc) - Ahead(pcs[t])
  {
    if t == 0 {
      assert pcs[t := pc][1..] == pcs[1..];
    } else {
      assert pcs[t := pc][1..] == pcs[1..][t - 1 := pc];
      AheadUpdate(pcs[1..], t - 1, pc);
    }
  }

  lemma StepCloser(s: State, t: nat, acquire: Acquire, release: Release)
    requires t < |s.pcs| == |s.acq| && !s.pcs[t].Idle?
    ensures AllAhead(Step(s, t, acquire, release).pcs) < AllAhead(s.pcs)
    ensures forall i :: 0 <= i < |s.acq| ==> s.acq[i] <= Step(s, t, acquire, release).acq[i]
  {
    StepLocal(s, t, acquire, release);
    AheadUpdate(s.pcs, t, Step(s, t, acquire, release).pcs[t]);
  }

  /** After every schedule, of either lock, the threads can all come back to the top of their loops. */
  lemma {:induction false} Settles(n: nat, schedule: seq<nat>, acquire: Acquire, release: Release)
    returns (more: seq<nat>)
    requires Legal(n, schedule)
    ensures Legal(n, schedule + more) && AtRest(Run(n, schedule + more, acquire, release))
    ensures forall i :: 0 <= i < n ==>
      Run(n, schedule, acquire, release).acq[i] <= Run(n, schedule + more, acquire, release).acq[i]
    decreases AllAhead(Run(n, schedule, acquire, release).pcs)
  {
    hide Run, Step, AllAhead, Legal;
    var s := Run(n, schedule, acquire, release);
    if t :| 0 <= t < n && !s.pcs[t].Idle? {
      RunOn(n, schedule, t, acquire, release);
      StepCloser(s, t, acquire, release);
      var rest := Settles(n, schedule + [t], acquire, release);
      more := [t] + rest;
      assert schedule + more == schedule + [t] + rest;
    } else {
      more := [];
      assert schedule + more == schedule;
    }
  }

  lemma StepOnward(s: State, t: nat, release: Release)
    requires t < |s.pcs| == |s.acq| && !s.pcs[t].Idle?
    ensures var s' := Step(s, t, Cas, release);
            && (forall i :: 0 <= i < |s.pcs| && i != t ==> s'.pcs[i] == s.pcs[i])
            && (if s.pcs[t].Released? then s'.pcs[t].Idle? && s'.acq == s.acq[t := s.acq[t] + 1]
                else !s'.pcs[t].Idle? && s'.acq == s.acq && Ahead(s'.pcs[t]) < Ahead(s.pcs[t]))
  {
  }

  /** One thread goes on until it is back at the top of its loop, and publishes one acquisition. */
  lemma {:induction false} GoesRound(n: nat, schedule: seq<nat>, t: nat, release: Release) returns (more: seq<nat>)
    requires Legal(n, schedule) && t < n
    requires forall i :: 0 <= i < n && i != t ==> Run(n, schedule, Cas, release).pcs[i].Idle?
    requires !Run(n, schedule, Cas, release).pcs[t].Idle?
    ensures Legal(n, schedule + more) && AtRest(Run(n, schedule + more, Cas, release))
    ensures var acq := Run(n, schedule, Cas, release).acq;
            Run(n, schedule + more, Cas, release).acq == acq[t := acq[t] + 1]
    decreases Ahead(Run(n, schedule, Cas, release).pcs[t])
  {
    hide Run, Step, Legal;
    RunOn(n, schedule, t, Cas, release);
    var s := Run(n, schedule, Cas, release);
    StepOnward(s, t, release);
    if s.pcs[t].Released? {
      more := [t];
    } else {
      var rest := GoesRound(n, schedule + [t], t, release);
      more := [t] + rest;
      assert schedule + more == schedule + [t] + rest;
    }
  }

  /** From rest, any thread can take the lock and come back with one acquisition more. */
  lemma Acquires(n: nat, schedule: seq<nat>, t: nat, release: Release) returns (more: seq<nat>)
    requires Legal(n, schedule) && t < n && AtRest(Run(n, schedule, Cas, release))
    ensures Legal(n, schedule + more) && AtRest(Run(n, schedule + more, Cas, release))
    ensures var acq := Run(n, schedule, Cas, release).acq;
            Run(n, schedule + more, Cas, release).acq == acq[t := acq[t] + 1]
  {
    CasGetsIn(n, schedule, t, release);
    RunOn(n, schedule, t, Cas, release);
    hide Run, Legal;
    var rest := GoesRound(n, schedule + [t], t, release);
    more := [t] + rest;
    assert schedule + more == schedule + [t] + rest;
  }

  /** The cmpxchg lock never shuts a thread out: after every run some continuation has that thread publish one
      acquisition more and leaves all threads at the top of their loops. */
  lemma CasNeverWedges(n: nat, schedule: seq<nat>, t: nat, release: Release) returns (more: seq<nat>)
    requires Legal(n, schedule) && t < n
    ensures Legal(n, schedule + more) && AtRest(Run(n, schedule + more, Cas, release))
    ensures Run(n, schedule + more, Cas, release).acq[t] > Run(n, schedule, Cas, release).acq[t]
  {
    var first := Settles(n, schedule, Cas, release);
    var second := Acquires(n, schedule + first, t, release);
    more := first + second;
    assert schedule + more == schedule + first + second;
  }

  lemma {:induction false} SumUpdate(xs: seq<nat>, t: nat, x: nat)
    requires t < |xs|
    ensures Sum(xs[t := x]) == Sum(xs) + x - xs[t]
  {
    if t == 0 {
      assert xs[t := x][1..] == xs[1..];
    } else {
      assert xs[t := x][1..] == xs[1..][t - 1 := x];
      SumUpdate(xs[1..], t - 1, x);
    }
  }

  /** And every division of acquisitions among the threads is reached, with the plain counter at their sum. */
  lemma {:induction false} CasServes(n: nat, wanted: seq<nat>, release: Release) returns (schedule: seq<nat>)
    requires |wanted| == n
    ensures Legal(n, schedule) && AtRest(Run(n, schedule, Cas, release))
    ensures Run(n, schedule, Cas, release).acq == wanted
    ensures Run(n, schedule, Cas, release).shared == Sum(wanted) % 0x1_0000_0000
    decreases Sum(wanted)
  {
    hide Sum, Exclusive, Empty;
    if t :| 0 <= t < n && wanted[t] > 0 {
      hide Run, Legal;
      SumUpdate(wanted, t, wanted[t] - 1);
      var front := CasServes(n, wanted[t := wanted[t] - 1], release);
      var more := Acquires(n, front, t, release);
      schedule := front + more;
    } else {
      schedule := [];
    }
    CasExcludes(n, schedule, release);
  }

  // -------------------------------------------------------------- the toggle lock

  ghost predicate ToggleInv(s: State) {
    && |s.pcs| == |s.acq|
    && (s.word == FREE || s.word == HELD)
    && (forall i :: 0 <= i < |s.pcs| && s.pcs[i].Loaded? ==> s.pcs[i].w == FREE || s.pcs[i].w == HELD)
    && (s.word == HELD ==> Occupied(s))
  }

  lemma ToggleStep(s: State, t: nat, release: Release)
    requires ToggleInv(s) && t < |s.pcs|
    ensures ToggleInv(Step(s, t, Toggle, release))
  {
    XaddFlips(s.word);
  }

  /** The toggle lock never wedges: in every run the word is one of two values, and when it reads HELD
      the latest thread to have toggled it from FREE has not yet stored its release. */
  lemma {:induction false} ToggleNeverWedges(n: nat, schedule: seq<nat>, release: Release)
    requires Legal(n, schedule)
    ensures ToggleInv(Run(n, schedule, Toggle, release))
  {
    if schedule != [] {
      var front := schedule[..|schedule| - 1];
      ToggleNeverWedges(n, front, release);
      ToggleStep(Run(n, front, Toggle, release), schedule[|schedule| - 1], release);
    }
  }

  /** A failed attempt that nothing follows is undone by the retry, which succeeds. */
  lemma RetrySucceeds(s: State, t: nat, release: Release)
    requires t < |s.pcs| == |s.acq| && s.pcs[t].Idle? && s.word == HELD
    ensures Step(Step(s, t, Toggle, release), t, Toggle, release) == Win(s, t, HELD)
  {
    XaddFlips(s.word);
  }

  /** Thread 0 acquires; every later thread fails once, publishing FREE, and then succeeds. */
  function Crowd(k: nat): seq<nat> {
    if k == 0 then [] else if k == 1 then [0] else Crowd(k - 1) + [k - 1, k - 1]
  }

  lemma RunTwice(n: nat, a: seq<nat>, t: nat, release: Release)
    requires Legal(n, a) && t < n
    ensures Legal(n, a + [t, t])
    ensures Run(n, a + [t, t], Toggle, release) ==
            Step(Step(Run(n, a, Toggle, release), t, Toggle, release), t, Toggle, release)
  {
    assert Legal(n, a + [t]) && Legal(n, a + [t, t]);
    assert (a + [t, t])[..|a| + 1] == a + [t] && (a + [t])[..|a|] == a;
  }

  /** The first k threads have just won. */
  ghost predicate FirstWon(s: State, k: nat) {
    && s.word == (if k == 0 then FREE else HELD) && s.occupancy == 0 && s.overlaps == 0
    && (forall i :: 0 <= i < |s.pcs| ==> s.pcs[i] == if i < k then Won else Idle)
  }

  lemma OneWon(n: nat, release: Release)
    requires n > 0
    ensures Legal(n, Crowd(1)) && FirstWon(Run(n, Crowd(1), Toggle, release), 1)
  {
    hide FirstWon, Run;
    assert Crowd(1) == [] + [0];
    RunOn(n, [], 0, Toggle, release);
    NoneRun(n, Toggle, release);
    FirstWins(n, release);
  }

  lemma NoneRun(n: nat, acquire: Acquire, release: Release)
    ensures Run(n, [], acquire, release) == Start(n)
  {
  }

  lemma FirstWins(n: nat, release: Release)
    requires n > 0
    ensures FirstWon(Start(n), 0) && FirstWon(Step(Start(n), 0, Toggle, release), 1)
  {
  }

  lemma OneMoreWon(s: State, k: nat)
    requires k < |s.pcs| && FirstWon(s, k) && k > 0
    ensures FirstWon(Win(s, k, HELD), k + 1)
  {
  }

  lemma {:induction false} CrowdInside(n: nat, k: nat, release: Release)
    requires k <= n
    ensures Legal(n, Crowd(k)) && FirstWon(Run(n, Crowd(k), Toggle, release), k)
  {
    if k == 0 {
      NoneRun(n, Toggle, release);
    } else if k == 1 {
      OneWon(n, release);
    } else {
      CrowdInside(n, k - 1, release);
      var a, t := Crowd(k - 1), k - 1;
      RunTwice(n, a, t, release);
      var s := Run(n, a, Toggle, release);
      hide Run, Step, Legal;
      RetrySucceeds(s, t, release);
      OneMoreWon(s, t);
    }
  }

  /** The toggle lock never excludes: for every n some run has all n threads inside at once. */
  lemma ToggleNeverExcludes(n: nat, release: Release) returns (schedule: seq<nat>)
    ensures Legal(n, schedule)
    ensures forall i :: 0 <= i < n ==> Inside(Run(n, schedule, Toggle, release).pcs[i])
  {
    CrowdInside(n, n, release);
    schedule := Crowd(n);
  }

  function Upto(n: nat): seq<nat> { seq(n, i => i) }

  lemma {:induction false} CrowdCounted(n: nat, k: nat, release: Release)
    requires k <= n
    ensures Legal(n, Crowd(n) + Upto(k))
    ensures var s := Run(n, Crowd(n) + Upto(k), Toggle, release);
            && (forall i :: 0 <= i < k ==> s.pcs[i] == Counted) && (forall i :: k <= i < n ==> s.pcs[i] == Won)
            && s.occupancy == k && s.overlaps == if k == 0 then 0 else k - 1
  {
    hide Run, Crowd, Legal;
    CrowdInside(n, n, release);
    if k == 0 {
      assert Crowd(n) + Upto(k) == Crowd(n);
    } else {
      CrowdCounted(n, k - 1, release);
      assert Crowd(n) + Upto(k) == Crowd(n) + Upto(k - 1) + [k - 1];
      RunOn(n, Crowd(n) + Upto(k - 1), k - 1, Toggle, release);
    }
  }

  /** And the probe sees it: for every n > 0 some run of the toggle lock counts n - 1 overlaps. */
  lemma ToggleOverlaps(n: nat, release: Release) returns (schedule: seq<nat>)
    requires n > 0
    ensures Legal(n, schedule) && Run(n, schedule, Toggle, release).overlaps == n - 1
    ensures Sections(Run(n, schedule, Toggle, release).pcs) == n
  {
    CrowdCounted(n, n, release);
    schedule := Crowd(n) + Upto(n);
    OccupancyCounts(n, schedule, Toggle, release);
  }
}
