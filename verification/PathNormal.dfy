/** The in-place erasing pass of LexicallyNormal, and the net effect it computes. */
module PathNormal {

  predicate IsName(p: string) { p != "." && p != ".." }

  predicate Names(parts: seq<string>) { forall i :: 0 <= i < |parts| ==> IsName(parts[i]) }

  // ------------------------------------------------------------------ the net effect of a list of parts

  /** A kept leading `.`, then a number of `..`, then names. */
  datatype Effect = Effect(dot: bool, ups: nat, downs: seq<string>)

  const NOTHING := Effect(false, 0, [])

  function Take(e: Effect, part: string, absolute: bool): Effect {
    if part == "." then (if absolute || e.ups > 0 || e.downs != [] then e else e.(dot := true))
    else if part == ".." then
      if e.downs != [] then e.(downs := e.downs[..|e.downs| - 1])
      else if absolute then e
      else Effect(false, e.ups + 1, [])
    else e.(downs := e.downs + [part])
  }

  function EffectOf(parts: seq<string>, absolute: bool): Effect {
    if parts == [] then NOTHING else Take(EffectOf(parts[..|parts| - 1], absolute), parts[|parts| - 1], absolute)
  }

  function Ups(n: nat): seq<string> { seq(n, i => "..") }

  function Render(e: Effect): seq<string> {
    (if e.dot then ["."] else []) + Ups(e.ups) + e.downs
  }

  predicate Sound(e: Effect, absolute: bool) {
    && Names(e.downs)
    && (e.dot ==> e.ups == 0)
    && (absolute ==> !e.dot && e.ups == 0)
  }

  lemma {:induction false} EffectSound(parts: seq<string>, absolute: bool)
    ensures Sound(EffectOf(parts, absolute), absolute)
  {
    if parts != [] {
      EffectSound(parts[..|parts| - 1], absolute);
    }
  }

  // ------------------------------------------------------------------ the erasing pass

  function Erase(list: seq<string>, i: nat): seq<string>
    requires i < |list|
  {
    list[..i] + list[i + 1..]
  }

  lemma EraseSides(list: seq<string>, i: nat)
    requires i < |list|
    ensures Erase(list, i)[..i] == list[..i] && Erase(list, i)[i..] == list[i + 1..]
  {
  }

  /** What one more part does to the part of the list already passed. */
  function Splice(before: seq<string>, part: string, absolute: bool): seq<string> {
    var n := |before|;
    if part == "." && (n > 0 || absolute) then before
    else if part == ".." && n > 0 && before[n - 1] == "." then before[..n - 1] + [".."]
    else if part == ".." && n > 0 && before[n - 1] != ".." then before[..n - 1]
    else if part == ".." && n == 0 && absolute then before
    else before + [part]
  }

  lemma RenderLast(e: Effect)
    ensures |Render(e)| == (if e.dot then 1 else 0) + e.ups + |e.downs|
    ensures e.downs != [] ==> Render(e)[|Render(e)| - 1] == e.downs[|e.downs| - 1]
    ensures e.downs == [] && e.ups > 0 ==> Render(e)[|Render(e)| - 1] == ".."
  {
  }

  lemma RenderUp(e: Effect, absolute: bool)
    requires Sound(e, absolute)
    ensures Render(Take(e, "..", absolute)) == Splice(Render(e), "..", absolute)
  {
    RenderLast(e);
    if e.downs != [] {
      assert IsName(e.downs[|e.downs| - 1]);
      var less := e.downs[..|e.downs| - 1];
      assert Render(e.(downs := less)) == Render(e)[..|Render(e)| - 1];
    } else if !absolute {
      assert Ups(e.ups + 1) == Ups(e.ups) + [".."];
    }
  }

  lemma RenderTake(e: Effect, part: string, absolute: bool)
    requires Sound(e, absolute)
    ensures Render(Take(e, part, absolute)) == Splice(Render(e), part, absolute)
  {
    if part == ".." {
      RenderUp(e, absolute);
    } else {
      RenderLast(e);
    }
  }

  /** The list in front of the iterator is the effect of the parts passed; behind it nothing has changed. */
  predicate Passed(list: seq<string>, iter: nat, parts: seq<string>, done: nat, absolute: bool) {
    && iter <= |list| && done <= |parts|
    && list[..iter] == Render(EffectOf(parts[..done], absolute))
    && list[iter..] == parts[done..]
  }

  /** After one more part: the front of the list is spliced, the rest stays. */
  lemma PassOne(list: seq<string>, iter: nat, parts: seq<string>, done: nat, absolute: bool, next: seq<string>, at: nat)
    requires Passed(list, iter, parts, done, absolute) && iter < |list|
    requires at <= |next| && next[at..] == list[iter + 1..]
    requires next[..at] == Splice(list[..iter], list[iter], absolute)
    ensures Passed(next, at, parts, done + 1, absolute)
  {
    var e := EffectOf(parts[..done], absolute);
    EffectSound(parts[..done], absolute);
    RenderTake(e, list[iter], absolute);
    assert list[iter] == list[iter..][0] == parts[done];
    assert parts[..done + 1][..done] == parts[..done];
    assert list[iter + 1..] == list[iter..][1..] == parts[done + 1..];
  }

  /** The body of the pass: one part looked at, the list and the iterator moved. */
  method Visit(list: seq<string>, iter: nat, distance: nat, absolute: bool)
    returns (next: seq<string>, at: nat, now: nat)
    requires iter < |list| && distance == iter
    ensures at <= |next| && next[at..] == list[iter + 1..] && now == at
    ensures next[..at] == Splice(list[..iter], list[iter], absolute)
  {
    next, at, now := list, iter, distance;
    var part := list[iter];
    EraseSides(list, iter);
    if part == "." && (distance > 0 || absolute) {
      next := Erase(list, iter);
      return;
    }
    if part == ".." {
      if distance > 0 {
        var previous := list[iter - 1];
        assert list[..iter][iter - 1] == previous && list[..iter][..iter - 1] == list[..iter - 1];
        EraseSides(list, iter - 1);
        if previous == "." {
          now := now - 1;
          next, at := Erase(list, iter - 1), iter - 1;
          assert next[at..][0] == part && next[at..][1..] == list[iter + 1..];
        } else if previous != ".." {
          now := now - 1;
          next, at := Erase(list, iter - 1), iter - 1;
          EraseSides(next, at);
          assert next[at..][1..] == next[at + 1..];
          next := Erase(next, at);
          return;
        }
      } else if absolute {
        next := Erase(list, iter);
        return;
      }
    }
    now := now + 1;
    at := at + 1;
    assert next[..at] == next[..at - 1] + [part];
  }

  /** The pass over the list.  The running distance is the iterator's index throughout. */
  method Reduce(parts: seq<string>, absolute: bool) returns (list: seq<string>)
    ensures list == Render(EffectOf(parts, absolute))
  {
    list := parts;
    var iter: nat, distance: nat := 0, 0;
    ghost var done: nat := 0;
    while iter != |list|
      invariant distance == iter && Passed(list, iter, parts, done, absolute)
      decreases |parts| - done
    {
      var next, at, now := Visit(list, iter, distance, absolute);
      PassOne(list, iter, parts, done, absolute, next, at);
      assert |list[iter..]| == |parts[done..]|;
      list, iter, distance := next, at, now;
      done := done + 1;
    }
    assert |list[iter..]| == |parts[done..]|;
    assert parts[..done] == parts && list[..iter] == list;
  }
}
