/** The swallow arm: one releaser sets bit 31 of a word over and over while any number of threads
    add 1 to it with locked adds.  A run is the order in which their memory operations take effect. */
module Swallow {
  import opened Options

  type U32 = n: int | 0 <= n < 0x1_0000_0000

  /** A locked add by thread i; the load and the store of a plain `or`; a lock-prefixed `or`. */
  datatype Event = Inc(i: nat) | Load | Store | LockedOr

  /** The word, what an open plain `or` has loaded, and how many adds each thread still owes. */
  datatype State = State(w: U32, loaded: int, owed: seq<nat>)

  function SetBit31(w: U32): U32 {
    if w < 0x8000_0000 then w + 0x8000_0000 else w
  }

  predicate Enabled(s: State, e: Event) {
    match e
    case Inc(i) => i < |s.owed| && s.owed[i] > 0
    case Load => s.loaded < 0
    case Store => 0 <= s.loaded < 0x1_0000_0000
    case LockedOr => s.loaded < 0
  }

  function Step(s: State, e: Event): State
    requires Enabled(s, e)
  {
    match e
    case Inc(i) => s.(w := (s.w + 1) % 0x1_0000_0000, owed := s.owed[i := s.owed[i] - 1])
    case Load => s.(loaded := s.w)
    case Store => s.(w := SetBit31(s.loaded), loaded := -1)
    case LockedOr => s.(w := SetBit31(s.w))
  }

  /** The state after a trace, if every event was enabled in turn; owed is what each incrementer is to add. */
  function Run(owed: seq<nat>, trace: seq<Event>): Option<State> {
    if trace == [] then Some(State(0, -1, owed))
    else match Run(owed, trace[..|trace| - 1])
      case None => None
      case Some(s) => if Enabled(s, trace[|trace| - 1]) then Some(Step(s, trace[|trace| - 1])) else None
  }

  // -------------------------------------------------- what the trace alone says

  function Count(trace: seq<Event>): nat {
    if trace == [] then 0 else Count(trace[..|trace| - 1]) + (if trace[|trace| - 1].Inc? then 1 else 0)
  }

  /** The last releaser event before position k, and the first at or after it; Inc(0) stands for none. */
  function Before(trace: seq<Event>, k: nat): Event
    requires k <= |trace|
  {
    if k == 0 then Inc(0) else if !trace[k - 1].Inc? then trace[k - 1] else Before(trace, k - 1)
  }

  function After(trace: seq<Event>, k: nat): Event
    requires k <= |trace|
    decreases |trace| - k
  {
    if k == |trace| then Inc(0) else if !trace[k].Inc? then trace[k] else After(trace, k + 1)
  }

  /** An add that took effect between the load and the store of one plain `or`. */
  predicate InWindow(trace: seq<Event>, k: nat)
    requires k < |trace|
  {
    trace[k].Inc? && Before(trace, k) == Load && After(trace, k) == Store
  }

  /** How many of the first k events are such adds. */
  function Swallowed(trace: seq<Event>, k: nat): nat
    requires k <= |trace|
  {
    if k == 0 then 0 else Swallowed(trace, k - 1) + (if InWindow(trace, k - 1) then 1 else 0)
  }

  /** The adds since the latest releaser event. */
  function Recent(trace: seq<Event>, k: nat): nat
    requires k <= |trace|
  {
    if k == 0 || !trace[k - 1].Inc? then 0 else Recent(trace, k - 1) + 1
  }

  lemma {:induction false} BeforeExtended(p: seq<Event>, e: Event, k: nat)
    requires k <= |p|
    ensures Before(p + [e], k) == Before(p, k) && Recent(p + [e], k) == Recent(p, k)
  {
    if k > 0 {
      BeforeExtended(p, e, k - 1);
    }
  }

  lemma {:induction false} AfterExtended(p: seq<Event>, e: Event, k: nat)
    requires k <= |p|
    ensures After(p + [e], k) == if After(p, k).Inc? && !e.Inc? then e else After(p, k)
    decreases |p| - k
  {
    if k < |p| {
      AfterExtended(p, e, k + 1);
    } else {
      assert After(p + [e], k + 1) == Inc(0);
    }
  }

  lemma {:induction false} NoneAfterRecent(p: seq<Event>, k: nat)
    requires k <= |p| <= k + Recent(p, |p|)
    ensures After(p, k).Inc?
    decreases |p| - k
  {
    if k < |p| {
      RecentAreIncs(p, |p|, k);
      NoneAfterRecent(p, k + 1);
    }
  }

  lemma {:induction false} RecentAreIncs(p: seq<Event>, n: nat, k: nat)
    requires n <= |p| && k < n <= k + Recent(p, n)
    ensures p[k].Inc? && Before(p, k) == Before(p, n)
    decreases n
  {
    if k + 1 < n {
      RecentAreIncs(p, n - 1, k);
    }
  }

  lemma {:induction false} SomeBeforeRecent(p: seq<Event>, k: nat)
    requires k + Recent(p, |p|) < |p|
    ensures !After(p, k).Inc?
    decreases |p| - k
  {
    if p[k].Inc? {
      if k + 1 + Recent(p, |p|) < |p| {
        SomeBeforeRecent(p, k + 1);
      } else {
        OlderIsReleaser(p, |p|);
      }
    }
  }

  lemma {:induction false} OlderIsReleaser(p: seq<Event>, n: nat)
    requires n <= |p| && Recent(p, n) < n
    ensures !p[n - Recent(p, n) - 1].Inc?
  {
    if p[n - 1].Inc? {
      OlderIsReleaser(p, n - 1);
    }
  }

  /** Adds among the first k events that lie in a window not yet closed. */
  function Open(p: seq<Event>, k: nat): nat
    requires k <= |p|
  {
    if k == 0 then 0
    else Open(p, k - 1) + (if p[k - 1].Inc? && Before(p, k - 1) == Load && After(p, k - 1).Inc? then 1 else 0)
  }

  lemma {:induction false} OpenIsRecent(p: seq<Event>, k: nat)
    requires k <= |p|
    ensures Open(p, k) == if Before(p, |p|) == Load && k + Recent(p, |p|) > |p| then k + Recent(p, |p|) - |p| else 0
  {
    RecentBound(p, |p|);
    if k > 0 {
      OpenIsRecent(p, k - 1);
      if k - 1 + Recent(p, |p|) < |p| {
        SomeBeforeRecent(p, k - 1);
      } else {
        RecentAreIncs(p, |p|, k - 1);
        NoneAfterRecent(p, k - 1);
      }
    }
  }

  lemma {:induction false} RecentBound(p: seq<Event>, k: nat)
    requires k <= |p|
    ensures Recent(p, k) <= k
  {
    if k > 0 {
      RecentBound(p, k - 1);
    }
  }

  /** A store closes the window on the recent adds; no other event swallows any. */
  lemma {:induction false} SwallowedExtended(p: seq<Event>, e: Event, k: nat)
    requires k <= |p|
    ensures Swallowed(p + [e], k) == Swallowed(p, k) + if e == Store then Open(p, k) else 0
  {
    if k > 0 {
      SwallowedExtended(p, e, k - 1);
      assert (p + [e])[k - 1] == p[k - 1];
      BeforeExtended(p, e, k - 1);
      AfterExtended(p, e, k - 1);
    }
  }

  lemma SwallowedNext(p: seq<Event>, e: Event)
    ensures Swallowed(p + [e], |p| + 1)
         == Swallowed(p, |p|) + if e == Store && Before(p, |p|) == Load then Recent(p, |p|) else 0
  {
    SwallowedExtended(p, e, |p|);
    OpenIsRecent(p, |p|);
    assert After(p + [e], |p| + 1) == Inc(0);
  }

  // ------------------------------------------------------------- the accounting

  function Sum(xs: seq<nat>): nat {
    if xs == [] then 0 else xs[0] + Sum(xs[1..])
  }

  lemma {:induction false} SumLess(xs: seq<nat>, i: nat)
    requires i < |xs| && xs[i] > 0
    ensures Sum(xs[i := xs[i] - 1]) == Sum(xs) - 1
  {
    if i == 0 {
      assert xs[0 := xs[0] - 1][1..] == xs[1..];
    } else {
      assert xs[i := xs[i] - 1][1..] == xs[1..][i - 1 := xs[1..][i - 1] - 1];
      SumLess(xs[1..], i - 1);
    }
  }

  predicate Released(trace: seq<Event>) {
    exists k :: 0 <= k < |trace| && (trace[k] == Store || trace[k] == LockedOr)
  }

  /** The word is determined by the trace: the low 31 bits count the adds that no window swallowed,
      bit 31 says whether a release has completed, and an open `or` holds the word less the recent adds. */
  ghost predicate Accounts(owed: seq<nat>, trace: seq<Event>, s: State) {
    && Count(trace) + Sum(s.owed) == Sum(owed)
    && s.w % 0x8000_0000 + Swallowed(trace, |trace|) == Count(trace)
    && (s.w >= 0x8000_0000 <==> Released(trace))
    && (s.loaded >= 0 <==> Before(trace, |trace|) == Load)
    && (s.loaded >= 0 ==> s.loaded % 0x8000_0000 + Recent(trace, |trace|) == s.w % 0x8000_0000)
  }

  lemma ReleasedExtended(p: seq<Event>, e: Event)
    ensures Released(p + [e]) <==> Released(p) || e == Store || e == LockedOr
  {
    assert (p + [e])[|p|] == e;
    if Released(p) {
      var k :| 0 <= k < |p| && (p[k] == Store || p[k] == LockedOr);
      assert (p + [e])[k] == p[k];
    }
  }

  lemma AddOne(w: U32)
    requires w % 0x8000_0000 < 0x7FFF_FFFF
    ensures var v := (w + 1) % 0x1_0000_0000;
            v % 0x8000_0000 == w % 0x8000_0000 + 1 && (v >= 0x8000_0000 <==> w >= 0x8000_0000)
  {}

  lemma SetOnly31(w: U32)
    ensures SetBit31(w) >= 0x8000_0000 && SetBit31(w) % 0x8000_0000 == w % 0x8000_0000
  {}

  lemma AccountsInc(s: State, i: nat)
    requires Enabled(s, Inc(i)) && s.w % 0x8000_0000 + Sum(s.owed) < 0x8000_0000
    ensures Sum(Step(s, Inc(i)).owed) == Sum(s.owed) - 1
    ensures var w := Step(s, Inc(i)).w;
            w % 0x8000_0000 == s.w % 0x8000_0000 + 1 && (w >= 0x8000_0000 <==> s.w >= 0x8000_0000)
  {
    SumLess(s.owed, i);
    AddOne(s.w);
  }

  lemma AccountsStep(owed: seq<nat>, p: seq<Event>, e: Event, s: State)
    requires Sum(owed) < 0x8000_0000 && Accounts(owed, p, s) && Enabled(s, e)
    ensures Accounts(owed, p + [e], Step(s, e))
  {
    SwallowedNext(p, e);
    ReleasedExtended(p, e);
    BeforeExtended(p, e, |p|);
    assert (p + [e])[..|p|] == p && (p + [e])[|p|] == e;
    match e
    case Inc(i) => AccountsInc(s, i);
    case Store => SetOnly31(s.loaded);
    case LockedOr => SetOnly31(s.w);
    case Load =>
  }

  lemma {:induction false} AccountsAlways(owed: seq<nat>, trace: seq<Event>)
    requires Sum(owed) < 0x8000_0000 && Run(owed, trace).Some?
    ensures Accounts(owed, trace, Run(owed, trace).value)
  {
    if trace != [] {
      var p := trace[..|trace| - 1];
      AccountsAlways(owed, p);
      AccountsStep(owed, p, trace[|trace| - 1], Run(owed, p).value);
      assert p + [trace[|trace| - 1]] == trace;
    }
  }

  /** Exact accounting.  However the operations interleave, once every incrementer is done the shortfall of
      the low 31 bits is the number of adds that fell between the load and the store of a plain `or`. */
  lemma ShortfallIsSwallowed(owed: seq<nat>, trace: seq<Event>)
    requires Sum(owed) < 0x8000_0000 && Run(owed, trace).Some? && Sum(Run(owed, trace).value.owed) == 0
    ensures Sum(owed) - Run(owed, trace).value.w % 0x8000_0000 == Swallowed(trace, |trace|)
  {
    AccountsAlways(owed, trace);
  }

  lemma {:induction false} NoLoadNoWindow(trace: seq<Event>, k: nat)
    requires k <= |trace| && Load !in trace
    ensures Swallowed(trace, k) == 0
  {
    if k > 0 {
      NoLoadNoWindow(trace, k - 1);
      BeforeInTrace(trace, k - 1);
    }
  }

  lemma {:induction false} BeforeInTrace(trace: seq<Event>, k: nat)
    requires k <= |trace|
    ensures Before(trace, k) == Inc(0) || Before(trace, k) in trace
  {
    if k > 0 {
      BeforeInTrace(trace, k - 1);
    }
  }

  /** Under variant B the `or` is one step, and the low 31 bits equal the adds at every moment of every run. */
  lemma LockedOrLosesNothing(owed: seq<nat>, trace: seq<Event>)
    requires Sum(owed) < 0x8000_0000 && Run(owed, trace).Some? && Load !in trace
    ensures Run(owed, trace).value.w % 0x8000_0000 == Count(trace)
  {
    AccountsAlways(owed, trace);
    NoLoadNoWindow(trace, |trace|);
  }

  /** Bit 31, once set, stays set. */
  lemma {:induction false} Bit31Stays(owed: seq<nat>, trace: seq<Event>, more: seq<Event>)
    requires Sum(owed) < 0x8000_0000 && Run(owed, trace).Some? && Run(owed, trace + more).Some?
    requires Run(owed, trace).value.w >= 0x8000_0000
    ensures Run(owed, trace + more).value.w >= 0x8000_0000
  {
    AccountsAlways(owed, trace);
    AccountsAlways(owed, trace + more);
    var k :| 0 <= k < |trace| && (trace[k] == Store || trace[k] == LockedOr);
    assert (trace + more)[k] == trace[k];
  }

  // ------------------------------------------------------------- every loss can happen

  lemma RunOn(owed: seq<nat>, trace: seq<Event>, e: Event)
    requires Run(owed, trace).Some? && Enabled(Run(owed, trace).value, e)
    ensures Run(owed, trace + [e]) == Some(Step(Run(owed, trace).value, e))
  {
    assert (trace + [e])[..|trace|] == trace;
  }

  lemma {:induction false} SomeOwed(xs: seq<nat>) returns (i: nat)
    requires Sum(xs) > 0
    ensures i < |xs| && xs[i] > 0
  {
    if xs[0] > 0 {
      i := 0;
    } else {
      i := SomeOwed(xs[1..]);
      i := i + 1;
    }
  }

  lemma IncStep(s: State, i: nat)
    requires Enabled(s, Inc(i)) && s.w < 0x7FFF_FFFF
    ensures var s' := Step(s, Inc(i)); s'.w == s.w + 1 && s'.loaded == s.loaded && Sum(s'.owed) == Sum(s.owed) - 1
  {
    SumLess(s.owed, i);
  }

  /** m more adds of a run, whoever owes them. */
  lemma {:induction false} Adds(owed: seq<nat>, trace: seq<Event>, m: nat) returns (more: seq<Event>)
    requires Run(owed, trace).Some? && m <= Sum(Run(owed, trace).value.owed)
    requires Run(owed, trace).value.w + m < 0x8000_0000
    ensures Run(owed, trace + more).Some?
    ensures var s, s' := Run(owed, trace).value, Run(owed, trace + more).value;
            s'.w == s.w + m && s'.loaded == s.loaded && Sum(s'.owed) == Sum(s.owed) - m
    decreases m
  {
    hide Run, Step, Sum;
    if m == 0 {
      more := [];
      assert trace + more == trace;
    } else {
      var s := Run(owed, trace).value;
      var i := SomeOwed(s.owed);
      IncStep(s, i);
      RunOn(owed, trace, Inc(i));
      var rest := Adds(owed, trace + [Inc(i)], m - 1);
      more := [Inc(i)] + rest;
      assert trace + more == trace + [Inc(i)] + rest;
    }
  }

  /** With the plain `or` any number of adds can be lost: for every k up to all of them some finished run falls short
      by exactly k. */
  lemma EveryLossHappens(owed: seq<nat>, k: nat) returns (trace: seq<Event>)
    requires k <= Sum(owed) < 0x8000_0000
    ensures Run(owed, trace).Some? && Sum(Run(owed, trace).value.owed) == 0
    ensures Run(owed, trace).value.w == 0x8000_0000 + Sum(owed) - k
  {
    assert Run(owed, []) == Some(State(0, -1, owed));
    hide Run;
    var first := Adds(owed, [], Sum(owed) - k);
    trace := [] + first;
    RunOn(owed, trace, Load);
    trace := trace + [Load];
    var second := Adds(owed, trace, k);
    trace := trace + second;
    RunOn(owed, trace, Store);
    trace := trace + [Store];
  }
}
