/** What a path means, and what LexicallyNormal does to that meaning. */
module PathMeaning {
  import opened PathText
  import opened PathNormal

  // ------------------------------------------------------------------ what a path means

  type Stack = seq<string>

  /** `.` stays, `..` goes up and is clamped at the root, a name goes down. */
  function Move(stack: Stack, part: string): Stack {
    if part == "." then stack
    else if part == ".." then (if stack == [] then [] else stack[..|stack| - 1])
    else stack + [part]
  }

  function Walk(stack: Stack, parts: seq<string>): Stack {
    if parts == [] then stack else Move(Walk(stack, parts[..|parts| - 1]), parts[|parts| - 1])
  }

  /** The directory a path leads to; an absolute path starts at the root. */
  function WalkPath(stack: Stack, path: string): Stack {
    Walk(if IsAbsolute(path) then [] else stack, Pieces(path))
  }

  /** Where a net effect leads. */
  function Land(stack: Stack, e: Effect): Stack {
    stack[..if e.ups <= |stack| then |stack| - e.ups else 0] + e.downs
  }

  lemma LandUp(stack: Stack, e: Effect)
    requires e.downs != []
    ensures Move(Land(stack, e), "..") == Land(stack, e.(downs := e.downs[..|e.downs| - 1]))
  {
    var front := stack[..if e.ups <= |stack| then |stack| - e.ups else 0];
    assert (front + e.downs)[..|front + e.downs| - 1] == front + e.downs[..|e.downs| - 1];
  }

  lemma LandOut(stack: Stack, e: Effect)
    requires e.downs == []
    ensures Move(Land(stack, e), "..") == Land(stack, e.(dot := false, ups := e.ups + 1))
  {
    var front := stack[..if e.ups <= |stack| then |stack| - e.ups else 0];
    assert Land(stack, e) == front;
  }

  lemma LandIn(stack: Stack, e: Effect, part: string)
    requires IsName(part)
    ensures Move(Land(stack, e), part) == Land(stack, e.(downs := e.downs + [part]))
  {
    var front := stack[..if e.ups <= |stack| then |stack| - e.ups else 0];
    assert (front + e.downs) + [part] == front + (e.downs + [part]);
  }

  lemma LandTake(stack: Stack, e: Effect, part: string, absolute: bool)
    requires Sound(e, absolute) && (absolute ==> stack == [])
    ensures Move(Land(stack, e), part) == Land(stack, Take(e, part, absolute))
  {
    if part == ".." && e.downs != [] {
      LandUp(stack, e);
    } else if part == ".." {
      LandOut(stack, e);
    } else if part != "." {
      LandIn(stack, e, part);
    }
  }

  /** Walking the parts and following their net effect lead to the same place. */
  lemma {:induction false} WalkIsLand(stack: Stack, parts: seq<string>, absolute: bool)
    requires absolute ==> stack == []
    ensures Walk(stack, parts) == Land(stack, EffectOf(parts, absolute))
  {
    if parts != [] {
      var front := parts[..|parts| - 1];
      WalkIsLand(stack, front, absolute);
      EffectSound(front, absolute);
      LandTake(stack, EffectOf(front, absolute), parts[|parts| - 1], absolute);
    }
  }

  function Down(e: Effect, names: seq<string>): Effect { e.(downs := e.downs + names) }

  lemma DownTake(e: Effect, names: seq<string>, absolute: bool)
    requires Names(names) && names != []
    ensures Take(Down(e, names[..|names| - 1]), names[|names| - 1], absolute) == Down(e, names)
  {
    assert names == names[..|names| - 1] + [names[|names| - 1]];
  }

  /** Names only add to an effect. */
  lemma {:induction false} EffectNames(parts: seq<string>, names: seq<string>, absolute: bool)
    requires Names(names)
    ensures EffectOf(parts + names, absolute) == Down(EffectOf(parts, absolute), names)
  {
    var e := EffectOf(parts, absolute);
    if names == [] {
      assert parts + names == parts && e.downs + names == e.downs;
    } else {
      var last := |names| - 1;
      EffectNames(parts, names[..last], absolute);
      DownTake(e, names, absolute);
      assert (parts + names)[..|parts| + last] == parts + names[..last];
    }
  }

  lemma {:induction false} EffectUps(n: nat)
    ensures EffectOf(Ups(n), false) == Effect(false, n, [])
  {
    if n > 0 {
      EffectUps(n - 1);
      assert Ups(n)[..n - 1] == Ups(n - 1);
    }
  }

  /** Rendering loses nothing: the effect of the rendered list is the effect it was rendered from. */
  lemma EffectOfRender(e: Effect, absolute: bool)
    requires Sound(e, absolute)
    ensures EffectOf(Render(e), absolute) == e
  {
    if e.dot {
      var dot := ["."];
      assert dot[..0] == [];
      assert EffectOf(dot, false) == Take(EffectOf(dot[..0], false), ".", false) == Effect(true, 0, []);
      EffectNames(dot, e.downs, absolute);
      assert Render(e) == dot + e.downs;
    } else if absolute {
      EffectNames([], e.downs, absolute);
      assert Render(e) == [] + e.downs;
    } else {
      EffectUps(e.ups);
      EffectNames(Ups(e.ups), e.downs, absolute);
      assert Render(e) == Ups(e.ups) + e.downs;
    }
  }

  // ------------------------------------------------------------------ the whole function

  function Reduced(path: string): seq<string> {
    Render(EffectOf(Pieces(path), IsAbsolute(path)))
  }

  function Text(parts: seq<string>, absolute: bool, tail: string): string {
    (if absolute then "/" else "") + Join(parts) + tail
  }

  /** A final separator is kept unless nothing is left or the last part left is `.` or `..`. */
  function Tail(parts: seq<string>, separator: bool): string {
    if separator && parts != [] && IsName(parts[|parts| - 1]) then "/" else ""
  }

  function Normal(path: string): string {
    Text(Reduced(path), IsAbsolute(path), Tail(Reduced(path), EndsWithSeparator(path)))
  }

  method LexicallyNormal(path: string) returns (r: string)
    ensures r == Normal(path)
  {
    if |path| == 0 {
      return "";
    }
    var absolute := IsAbsolute(path);
    var separator := EndsWithSeparator(path);
    var parts := Split(path);
    parts := Reduce(parts, absolute);
    r := Text(parts, absolute, Tail(parts, separator));
  }

  lemma RenderParts(parts: seq<string>, absolute: bool)
    requires AllParts(parts)
    ensures AllParts(Render(EffectOf(parts, absolute)))
  {
    DownsFrom(parts, absolute);
  }

  /** Every name left was there before. */
  lemma {:induction false} DownsFrom(parts: seq<string>, absolute: bool)
    ensures forall p :: p in EffectOf(parts, absolute).downs ==> p in parts
  {
    if parts != [] {
      DownsFrom(parts[..|parts| - 1], absolute);
    }
  }

  /** The text of reduced parts splits into just those parts, and is absolute and ends in a separator as asked. */
  lemma TextSplits(parts: seq<string>, absolute: bool, separator: bool)
    requires AllParts(parts)
    ensures var text := Text(parts, absolute, Tail(parts, separator));
      && Pieces(text) == parts
      && (IsAbsolute(text) <==> absolute)
      && (parts != [] ==> (EndsWithSeparator(text) <==> Tail(parts, separator) == "/"))
  {
    var tail := Tail(parts, separator);
    var text := Text(parts, absolute, tail);
    PiecesOfJoin(parts, tail);
    if parts != [] {
      JoinEnds(parts);
    }
    if absolute {
      assert text[1..] == Join(parts) + tail;
    } else {
      assert text == Join(parts) + tail;
    }
  }

  lemma NormalPieces(path: string)
    ensures Pieces(Normal(path)) == Reduced(path) && (IsAbsolute(Normal(path)) <==> IsAbsolute(path))
  {
    PiecesAreParts(path);
    RenderParts(Pieces(path), IsAbsolute(path));
    TextSplits(Reduced(path), IsAbsolute(path), EndsWithSeparator(path));
  }

  /** The result holds no doubled separator and ends in one exactly if it is the root, or the path ended in one and the
      last part left is a name. */
  lemma NormalText(path: string)
    ensures SingleSeparators(Normal(path))
    ensures var parts := Pieces(Normal(path));
      EndsWithSeparator(Normal(path)) <==>
        Normal(path) == "/" || (EndsWithSeparator(path) && parts != [] && parts[|parts| - 1] !in {".", ".."})
  {
    NormalPieces(path);
    PiecesAreParts(path);
    RenderParts(Pieces(path), IsAbsolute(path));
    var parts := Reduced(path);
    hide Reduced, Text, Tail;
    TextEnds(parts, IsAbsolute(path), EndsWithSeparator(path));
  }

  lemma TextEnds(parts: seq<string>, absolute: bool, separator: bool)
    requires AllParts(parts)
    ensures var text := Text(parts, absolute, Tail(parts, separator));
      && SingleSeparators(text)
      && (EndsWithSeparator(text) <==>
          text == "/" || (separator && parts != [] && parts[|parts| - 1] !in {".", ".."}))
  {
    TextSplits(parts, absolute, separator);
    TextSingle(parts, absolute, Tail(parts, separator));
    assert Pieces("/") == Pieces("/"[1..]) == [];
    hide Pieces, Join;
    if parts == [] {
      RootText(absolute, separator);
    }
  }

  lemma RootText(absolute: bool, separator: bool)
    ensures Text([], absolute, Tail([], separator)) == if absolute then "/" else ""
  {
  }

  lemma TextSingle(parts: seq<string>, absolute: bool, tail: string)
    requires AllParts(parts) && tail in ["", "/"] && (parts == [] ==> tail == "")
    ensures SingleSeparators(Text(parts, absolute, tail))
  {
    JoinSingle(parts);
    if parts != [] {
      JoinEnds(parts);
    }
    hide Join;
    var root := if absolute then "/" else "";
    SingleAppended(root, Join(parts));
    SingleAppended(root + Join(parts), tail);
  }

  /** From every directory the result leads where the path leads. */
  lemma NormalKeepsMeaning(path: string, stack: Stack)
    ensures WalkPath(stack, Normal(path)) == WalkPath(stack, path)
  {
    NormalPieces(path);
    var absolute := IsAbsolute(path);
    var from := if absolute then [] else stack;
    var e := EffectOf(Pieces(path), absolute);
    EffectSound(Pieces(path), absolute);
    EffectOfRender(e, absolute);
    WalkIsLand(from, Pieces(path), absolute);
    WalkIsLand(from, Render(e), absolute);
  }

  lemma NormalIdempotent(path: string)
    ensures Normal(Normal(path)) == Normal(path)
  {
    NormalPieces(path);
    var absolute := IsAbsolute(path);
    var e := EffectOf(Pieces(path), absolute);
    EffectSound(Pieces(path), absolute);
    EffectOfRender(e, absolute);
    assert Reduced(Normal(path)) == Reduced(path);
    NormalText(path);
    SameTail(path);
    hide Reduced, Pieces, EndsWithSeparator;
  }

  lemma SameTail(path: string)
    requires Pieces(Normal(path)) == Reduced(path)
    ensures Tail(Reduced(path), EndsWithSeparator(Normal(path))) == Tail(Reduced(path), EndsWithSeparator(path))
  {
    NormalText(path);
    assert Pieces("/") == Pieces("/"[1..]) == [];
    hide Reduced, Pieces, Normal, EndsWithSeparator;
  }

  /** Absolute results hold names only; relative ones a single `.` or some `..`, then names. */
  predicate InNormalForm(parts: seq<string>, absolute: bool) {
    || Names(parts)
    || (!absolute && parts[0] == "." && Names(parts[1..]))
    || (!absolute && exists n :: 0 <= n <= |parts| && parts[..n] == Ups(n) && Names(parts[n..]))
  }

  /** The pass leaves a list of parts alone exactly when it is in normal form. */
  lemma FixedIffNormal(parts: seq<string>, absolute: bool)
    ensures Render(EffectOf(parts, absolute)) == parts <==> InNormalForm(parts, absolute)
  {
    EffectSound(parts, absolute);
    NormalFormOf(EffectOf(parts, absolute), absolute);
    if InNormalForm(parts, absolute) {
      var e := RenderedFrom(parts, absolute);
      EffectOfRender(e, absolute);
    }
  }

  lemma NormalFormOf(e: Effect, absolute: bool)
    requires Sound(e, absolute)
    ensures InNormalForm(Render(e), absolute)
  {
    var parts := Render(e);
    if e.dot {
      assert parts[1..] == e.downs;
    } else {
      assert parts[..e.ups] == Ups(e.ups) && parts[e.ups..] == e.downs;
      assert absolute ==> parts == e.downs;
    }
  }

  lemma RenderedFrom(parts: seq<string>, absolute: bool) returns (e: Effect)
    requires InNormalForm(parts, absolute)
    ensures Sound(e, absolute) && Render(e) == parts
  {
    if Names(parts) {
      e := Effect(false, 0, parts);
    } else if parts[0] == "." && Names(parts[1..]) {
      e := Effect(true, 0, parts[1..]);
    } else {
      var n :| 0 <= n <= |parts| && parts[..n] == Ups(n) && Names(parts[n..]);
      e := Effect(false, n, parts[n..]);
    }
  }

  lemma NormalInForm(path: string)
    ensures InNormalForm(Pieces(Normal(path)), IsAbsolute(path))
  {
    NormalPieces(path);
    EffectSound(Pieces(path), IsAbsolute(path));
    NormalFormOf(EffectOf(Pieces(path), IsAbsolute(path)), IsAbsolute(path));
  }

  // ------------------------------------------------------------------ equal meaning, equal result

  /** A leading `.` aside, an effect is determined by where it leads from everywhere. */
  lemma LandDetermines(e: Effect, f: Effect)
    requires forall stack: Stack :: Land(stack, e) == Land(stack, f)
    ensures e.ups == f.ups && e.downs == f.downs
  {
    var n := e.ups + f.ups;
    LandsDiffer(e, f, n);
    LandsDiffer(f, e, n);
    assert Land([], e) == e.downs && Land([], f) == f.downs;
  }

  /** Two stacks of different letters tell different numbers of `..` apart. */
  lemma LandsDiffer(e: Effect, f: Effect, n: nat)
    requires n == e.ups + f.ups && forall stack: Stack :: Land(stack, e) == Land(stack, f)
    ensures e.ups <= f.ups
  {
    if e.ups > f.ups {
      FirstDown(e, f, n, "a");
      FirstDown(e, f, n, "b");
    }
  }

  /** If e goes further up than f and yet lands on the same place, it must come down by the letter it left. */
  lemma FirstDown(e: Effect, f: Effect, n: nat, letter: string)
    requires e.ups > f.ups && n == e.ups + f.ups
    requires Land(seq(n, i => letter), e) == Land(seq(n, i => letter), f)
    ensures e.downs != [] && e.downs[0] == letter
  {
    var stack := seq(n, i => letter);
    assert Land(stack, f)[n - e.ups] == letter;
  }

  /** Absolute paths with the same meaning reduce to the same parts, and these are the directory itself. */
  lemma AbsoluteCanonical(path: string)
    requires IsAbsolute(path)
    ensures Pieces(Normal(path)) == WalkPath([], path)
  {
    NormalPieces(path);
    EffectSound(Pieces(path), true);
    WalkIsLand([], Pieces(path), true);
    var e := EffectOf(Pieces(path), true);
    assert Land([], e) == e.downs == Render(e);
  }

  function DropDot(parts: seq<string>): seq<string> {
    if parts != [] && parts[0] == "." then parts[1..] else parts
  }

  lemma RelativeLands(p: string, stack: Stack)
    requires !IsAbsolute(p)
    ensures WalkPath(stack, p) == Land(stack, EffectOf(Pieces(p), false))
  {
    WalkIsLand(stack, Pieces(p), false);
  }

  lemma UndottedNormal(p: string)
    requires !IsAbsolute(p)
    ensures Sound(EffectOf(Pieces(p), false), false)
    ensures DropDot(Pieces(Normal(p))) == Render(EffectOf(Pieces(p), false).(dot := false))
  {
    NormalPieces(p);
    EffectSound(Pieces(p), false);
    hide EffectOf, Pieces, Normal, Render, DropDot;
    UndottedRender(EffectOf(Pieces(p), false));
  }

  lemma RenderInjective(e: Effect, f: Effect)
    requires Sound(e, false) && Sound(f, false) && Render(e) == Render(f)
    ensures e == f
  {
    EffectOfRender(e, false);
    EffectOfRender(f, false);
  }

  /** Relative paths mean the same exactly when their results agree up to a leading `.`. */
  lemma RelativeCanonical(p: string, q: string)
    requires !IsAbsolute(p) && !IsAbsolute(q)
    ensures (forall stack: Stack :: WalkPath(stack, p) == WalkPath(stack, q))
       <==> DropDot(Pieces(Normal(p))) == DropDot(Pieces(Normal(q)))
  {
    hide EffectOf, Pieces, Normal, Render, DropDot, WalkPath, Names;
    var e, f := EffectOf(Pieces(p), false), EffectOf(Pieces(q), false);
    UndottedNormal(p);
    UndottedNormal(q);
    forall stack: Stack
      ensures WalkPath(stack, p) == Land(stack, e) && WalkPath(stack, q) == Land(stack, f)
    {
      RelativeLands(p, stack);
      RelativeLands(q, stack);
    }
    if forall stack: Stack :: WalkPath(stack, p) == WalkPath(stack, q) {
      LandDetermines(e, f);
    }
    if Render(e.(dot := false)) == Render(f.(dot := false)) {
      RenderInjective(e.(dot := false), f.(dot := false));
    }
  }

  // ------------------------------------------------------------------ the leading dot

  /** These parts lead back to where they start, wherever that is. */
  ghost predicate LeadsBack(parts: seq<string>) { forall stack: Stack :: Walk(stack, parts) == stack }

  lemma LeadsBackIff(parts: seq<string>)
    ensures LeadsBack(parts) <==> EffectOf(parts, false).ups == 0 && EffectOf(parts, false).downs == []
  {
    var e := EffectOf(parts, false);
    forall stack: Stack
      ensures Walk(stack, parts) == Land(stack, e) && Land(stack, NOTHING) == stack
    {
      WalkIsLand(stack, parts, false);
    }
    hide Walk, EffectOf;
    if LeadsBack(parts) {
      LandDetermines(e, NOTHING);
    }
  }

  /** Some `.` stands where the parts before it have led back. */
  ghost predicate DotAtStart(parts: seq<string>) {
    exists k :: 0 <= k < |parts| && parts[k] == "." && LeadsBack(parts[..k])
  }

  /** A `.` met at the starting place is kept until the parts lead above that place. */
  lemma {:induction false} DotKept(parts: seq<string>)
    ensures EffectOf(parts, false).dot <==>
            EffectOf(parts, false).ups == 0 && DotAtStart(parts)
  {
    if parts != [] {
      var last := |parts| - 1;
      var front := parts[..last];
      DotKept(front);
      LeadsBackIff(front);
      assert forall k :: 0 <= k < last ==> front[k] == parts[k] && front[..k] == parts[..k];
      hide LeadsBack;
      if EffectOf(front, false).dot && EffectOf(parts, false).ups == 0 {
        var k :| 0 <= k < |front| && front[k] == "." && LeadsBack(front[..k]);
        assert parts[k] == "." && LeadsBack(parts[..k]);
      }
      if k :| 0 <= k < |parts| && parts[k] == "." && LeadsBack(parts[..k]) && k != last {
        assert front[k] == "." && LeadsBack(front[..k]);
      }
      assert parts[..last] == front;
    }
  }

  /** A relative result starts with `.` exactly if it does not start with `..` and the path has a `.` where it has
      come back to its start. */
  lemma LeadingDot(path: string)
    requires !IsAbsolute(path)
    ensures var parts, left := Pieces(path), Pieces(Normal(path));
      left != [] && left[0] == "." <==>
        (left != [] ==> left[0] != "..") && DotAtStart(parts)
  {
    NormalPieces(path);
    var e := EffectOf(Pieces(path), false);
    EffectSound(Pieces(path), false);
    DotKept(Pieces(path));
    hide EffectOf, Pieces, Normal, DotAtStart, Render;
    RenderFirst(e);
  }

  lemma RenderFirst(e: Effect)
    requires Sound(e, false)
    ensures Render(e) != [] && Render(e)[0] == "." <==> e.dot
    ensures Render(e) != [] && Render(e)[0] == ".." <==> e.ups > 0
  {
    if !e.dot && e.ups == 0 {
      assert Render(e) == e.downs;
    } else if !e.dot {
      assert Render(e)[0] == Ups(e.ups)[0];
    }
  }

  lemma UndottedRender(e: Effect)
    requires Sound(e, false)
    ensures DropDot(Render(e)) == Render(e.(dot := false))
  {
  }
}
