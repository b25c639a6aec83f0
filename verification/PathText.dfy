/** Paths as text: splitting at separators and joining back. */
module PathText {

  predicate IsAbsolute(path: string) { path != [] && path[0] == '/' }

  predicate EndsWithSeparator(path: string) { path != [] && path[|path| - 1] == '/' }

  /** A part as the splitter yields them: not empty and without separator. */
  predicate IsPart(p: string) { p != [] && '/' !in p }

  predicate AllParts(parts: seq<string>) { forall p :: p in parts ==> IsPart(p) }

  /** How many characters come before the first separator. */
  function Span(s: string): (n: nat)
    ensures n <= |s| && (n < |s| ==> s[n] == '/')
  {
    if s == [] || s[0] == '/' then 0 else 1 + Span(s[1..])
  }

  lemma {:induction false} SpanHasNone(s: string)
    ensures '/' !in s[..Span(s)]
  {
    if s != [] && s[0] != '/' {
      SpanHasNone(s[1..]);
      assert s[..Span(s)] == [s[0]] + s[1..][..Span(s[1..])];
    }
  }

  /** The maximal runs of characters between separators. */
  function Pieces(s: string): seq<string>
    decreases |s|
  {
    if s == [] then []
    else if s[0] == '/' then Pieces(s[1..])
    else [s[..Span(s)]] + Pieces(s[Span(s)..])
  }

  lemma {:induction false} PiecesAreParts(s: string)
    ensures AllParts(Pieces(s))
    decreases |s|
  {
    if s != [] && s[0] == '/' {
      PiecesAreParts(s[1..]);
    } else if s != [] {
      SpanHasNone(s);
      PiecesAreParts(s[Span(s)..]);
    }
  }

  lemma {:induction false} SpanOfText(a: string, rest: string)
    requires rest == [] || rest[0] == '/'
    ensures Span(a + rest) == Span(a)
  {
    if a == [] {
      assert a + rest == rest;
    } else if a[0] != '/' {
      SpanOfText(a[1..], rest);
      assert (a + rest)[1..] == a[1..] + rest;
    }
  }

  /** The law of splitting: a separator sets apart what stands on its two sides, wherever it stands.  With it, and a
      text without separators being one part or none, every split is determined. */
  lemma {:induction false} PiecesApart(a: string, b: string)
    ensures Pieces(a + "/" + b) == Pieces(a) + Pieces(b)
    decreases |a|
  {
    hide Pieces, Span;
    var s := a + "/" + b;
    if a == [] {
      PiecesNone();
      PiecesSkip(s);
      assert s[1..] == b;
      assert [] + Pieces(b) == Pieces(b);
    } else if a[0] == '/' {
      PiecesApart(a[1..], b);
      PiecesSkip(s);
      PiecesSkip(a);
      assert s[1..] == a[1..] + "/" + b;
    } else {
      var n := Span(a);
      assert s == a + ("/" + b);
      SpanOfText(a, "/" + b);
      PiecesTake(s);
      PiecesTake(a);
      assert s[..n] == a[..n] && s[n..] == a[n..] + "/" + b;
      PiecesApart(a[n..], b);
      assert [a[..n]] + Pieces(a[n..]) + Pieces(b) == [a[..n]] + (Pieces(a[n..]) + Pieces(b));
    }
  }

  lemma PiecesNone()
    ensures Pieces("") == []
  {
  }

  lemma PiecesSkip(s: string)
    requires s != [] && s[0] == '/'
    ensures Pieces(s) == Pieces(s[1..])
  {
  }

  lemma PiecesTake(s: string)
    requires s != [] && s[0] != '/'
    ensures 0 < Span(s) <= |s| && Pieces(s) == [s[..Span(s)]] + Pieces(s[Span(s)..])
  {
  }

  lemma {:induction false} PiecesWhole(s: string)
    requires '/' !in s
    ensures Pieces(s) == if s == [] then [] else [s]
  {
    if s != [] {
      SpanOfPart(s, []);
      assert s + [] == s;
      assert s[..|s|] == s && s[|s|..] == [];
    }
  }

  function Separators(s: string): nat {
    if s == [] then 0 else (if s[0] == '/' then 1 else 0) + Separators(s[1..])
  }

  lemma {:induction false} SeparatorsSplit(s: string, n: nat)
    requires n <= |s|
    ensures Separators(s) == Separators(s[..n]) + Separators(s[n..])
  {
    if n == 0 {
      assert s[..0] == [] && s[0..] == s;
    } else {
      SeparatorsSplit(s[1..], n - 1);
      assert s[..n][1..] == s[1..][..n - 1] && s[1..][n - 1..] == s[n..];
    }
  }

  /** Never more parts than separators plus one; fewer by one if the text starts with a separator or is empty. */
  lemma {:induction false} FewPieces(s: string)
    ensures |Pieces(s)| <= Separators(s) + if s == [] || s[0] == '/' then 0 else 1
    decreases |s|
  {
    if s != [] && s[0] == '/' {
      FewPieces(s[1..]);
    } else if s != [] {
      FewPieces(s[Span(s)..]);
      SeparatorsSplit(s, Span(s));
    }
  }

  function Join(parts: seq<string>): string {
    if parts == [] then "" else if |parts| == 1 then parts[0] else parts[0] + "/" + Join(parts[1..])
  }

  lemma {:induction false} SpanOfPart(p: string, rest: string)
    requires '/' !in p && (rest == [] || rest[0] == '/')
    ensures Span(p + rest) == |p|
  {
    if p == [] {
      assert p + rest == rest;
    } else {
      SpanOfPart(p[1..], rest);
      assert (p + rest)[1..] == p[1..] + rest;
    }
  }

  lemma PiecesOfPart(p: string, rest: string)
    requires IsPart(p) && (rest == [] || rest[0] == '/')
    ensures Pieces(p + rest) == [p] + Pieces(rest)
  {
    SpanOfPart(p, rest);
    assert (p + rest)[0] == p[0];
    assert (p + rest)[..|p|] == p && (p + rest)[|p|..] == rest;
  }

  /** Joining and splitting again is the identity, with or without a final separator. */
  lemma {:induction false} PiecesOfJoin(parts: seq<string>, tail: string)
    requires AllParts(parts) && tail in ["", "/"]
    ensures Pieces(Join(parts) + tail) == parts
  {
    assert Pieces("/") == Pieces("/"[1..]) == [];
    if |parts| == 1 {
      PiecesOfPart(parts[0], tail);
    } else if |parts| > 1 {
      PiecesOfJoin(parts[1..], tail);
      var rest := "/" + Join(parts[1..]) + tail;
      assert Join(parts) + tail == parts[0] + rest;
      PiecesOfPart(parts[0], rest);
      assert rest[1..] == Join(parts[1..]) + tail;
    } else {
      assert Join(parts) + tail == tail;
    }
  }

  /** What the joined text starts and ends with. */
  lemma {:induction false} JoinEnds(parts: seq<string>)
    requires AllParts(parts) && parts != []
    ensures Join(parts) != [] && Join(parts)[0] != '/' && Join(parts)[|Join(parts)| - 1] != '/'
  {
    assert IsPart(parts[0]);
    if |parts| > 1 {
      JoinEnds(parts[1..]);
    }
  }

  /** No two separators stand side by side. */
  predicate SingleSeparators(s: string) { forall k :: 0 <= k < |s| - 1 ==> s[k] != '/' || s[k + 1] != '/' }

  lemma SingleAppended(a: string, b: string)
    requires SingleSeparators(a) && SingleSeparators(b)
    requires a != [] && b != [] ==> a[|a| - 1] != '/' || b[0] != '/'
    ensures SingleSeparators(a + b)
  {
    forall k | 0 <= k < |a + b| - 1
      ensures (a + b)[k] != '/' || (a + b)[k + 1] != '/'
    {
      assert k >= |a| ==> (a + b)[k] == b[k - |a|] && (a + b)[k + 1] == b[k + 1 - |a|];
    }
  }

  lemma {:induction false} JoinSingle(parts: seq<string>)
    requires AllParts(parts)
    ensures SingleSeparators(Join(parts))
  {
    if parts != [] {
      assert IsPart(parts[0]);
      if |parts| > 1 {
        JoinSingle(parts[1..]);
        JoinEnds(parts[1..]);
        SingleAppended("/", Join(parts[1..]));
        SingleAppended(parts[0], "/" + Join(parts[1..]));
        assert parts[0] + "/" + Join(parts[1..]) == parts[0] + ("/" + Join(parts[1..]));
      }
    }
  }

  /** The first separator at or after an offset, or the length of the text. */
  method Find(path: string, from: nat) returns (at: nat)
    requires from <= |path|
    ensures from <= at <= |path| && at - from == Span(path[from..]) && (at < |path| ==> path[at] == '/')
  {
    at := from;
    while at < |path| && path[at] != '/'
      invariant from <= at <= |path|
      invariant Span(path[from..]) == at - from + Span(path[at..])
    {
      assert path[at..][1..] == path[at + 1..];
      at := at + 1;
    }
  }

  /** The parts found so far and those still to come. */
  predicate Ahead(path: string, parts: seq<string>, offset: nat) {
    offset <= |path| && Pieces(path) == parts + Pieces(path[offset..])
  }

  lemma SkipSeparator(path: string, parts: seq<string>, offset: nat)
    requires offset < |path| && path[offset] == '/' && Ahead(path, parts, offset)
    ensures Ahead(path, parts, offset + 1)
  {
    assert path[offset..][1..] == path[offset + 1..];
  }

  lemma TakePart(path: string, parts: seq<string>, offset: nat, found: nat)
    requires offset < found <= |path| && found - offset == Span(path[offset..]) && Ahead(path, parts, offset)
    ensures Ahead(path, parts + [path[offset..found]], found)
  {
    var rest := path[offset..];
    assert rest[..found - offset] == path[offset..found] && rest[found - offset..] == path[found..];
    assert Pieces(rest) == [path[offset..found]] + Pieces(path[found..]);
  }

  lemma AheadEnds(path: string, parts: seq<string>)
    ensures Ahead(path, [], 0)
    ensures Ahead(path, parts, |path|) ==> parts == Pieces(path)
  {
    assert path[0..] == path && path[|path|..] == [];
    assert [] + Pieces(path) == Pieces(path);
  }

  /** The splitting loop. */
  method Split(path: string) returns (parts: seq<string>)
    requires path != []
    ensures parts == Pieces(path) && |parts| <= Separators(path) + 1
  {
    FewPieces(path);
    AheadEnds(path, []);
    hide Ahead, Pieces, Span, Separators;
    parts := [];
    var offset: nat := 0;
    while true
      invariant offset < |path| && Ahead(path, parts, offset)
      decreases |path| - offset
    {
      var found := Find(path, offset);
      if found != offset {
        TakePart(path, parts, offset, found);
        parts := parts + [path[offset..found]];
      } else {
        SkipSeparator(path, parts, offset);
        found := found + 1;
      }
      offset := found;
      if offset == |path| {
        break;
      }
    }
    AheadEnds(path, parts);
  }
}
