/** The parser object: it overwrites the text and fills the pool as it goes. */
module JsonParser {
  import opened Options
  import opened Decimal
  import opened JsonText
  import opened JsonNumber
  import opened JsonGrammar
  import opened JsonStack
  import opened JsonNodes
  import opened JsonBuffer
  import opened JsonSteps
  import opened JsonDoc
  import opened JsonReader

  /** The text of an integer literal, cut off by a NUL, is the C string at its start. */
  lemma IntegerCString(s: string, v: nat, e: nat)
    requires v <= e < |s| && IsInteger(s[v..e])
    ensures CString(s[e := '\0'], v) == s[v..e]
  {
    var text := s[v..e];
    forall k | v <= k < e
      ensures s[k] != '\0'
    {
      assert s[k] == text[k - v];
      assert text[0] == '-' && k > v ==> text[k - v] == text[1..][k - v - 1];
    }
    CStringIs(s[e := '\0'], v, e);
    assert s[e := '\0'][v..e] == s[v..e];
  }

  /** After a primitive that ends at e: the text with its terminator, unless a block end stands there. */
  function Ended(s: string, e: nat): string
    requires e < |s|
  {
    if IsBlockEnd(s[e]) then s else s[e := '\0']
  }

  lemma EndedHeld(s: string, v: nat, e: nat)
    requires v <= e < |s| && IsPrimitiveEnd(s[e]) && EndsInNul(s)
    ensures var j := After(s, e);
      && j < |s| && SameFrom(Ended(s, e), s, j) && Held(Ended(s, e), j, IsBlockEnd(s[j]), Str(v, s[v..e]))
      && forall i :: 0 <= i < v ==> Ended(s, e)[i] == s[i]
  {
    assert Ended(s, e)[v..e] == s[v..e];
  }

  lemma InsideWhole(s: string, i: nat)
    requires EndsInNul(s)
    ensures Whole(s, i).Some? ==> Whole(s, i).value < |s|
  {
  }

  lemma InsideFraction(s: string, i: nat)
    requires EndsInNul(s)
    ensures Fraction(s, i).Some? ==> Fraction(s, i).value < |s|
  {
  }

  lemma InsideExponent(s: string, i: nat)
    requires EndsInNul(s)
    ensures Exponent(s, i).Some? ==> Exponent(s, i).value < |s|
  {
  }

  /** A scalar was read at v, turning the text was into now: what the grammar says of it, and its string left
      terminated in front of the new cursor. */
  predicate ScalarTaken(was: string, now: string, v: nat, kind: Kind, at: nat, end: Option<nat>) {
    match ScalarAt(was, v)
    case None => end == None
    case Some(r) =>
      && r.value.Leaf? && r.value.kind == kind && r.value.s.at == at && end == Some(r.end) && r.end < |was|
      && SameFrom(now, was, r.end) && Held(now, r.end, IsBlockEnd(was[r.end]), r.value.s)
      && forall i :: 0 <= i < v && i < |was| ==> now[i] == was[i]
  }

  /** A member's head was read at p: its name is left terminated, and the value starts at v. */
  predicate HeadTaken(was: string, now: string, p: nat, arr: bool, name: Option<nat>, v: Option<nat>)
    requires p < |was|
  {
    match HeadAt(was, p, arr)
    case None => v == None
    case Some(h) =>
      && v == Some(h.at) && name == Place(h.name) && SameFrom(now, was, h.at)
      && HeldName(now, h.at, false, h.name)
      && forall i :: 0 <= i <= p ==> now[i] == was[i]
  }

  lemma TextHeld(was: string, now: string, i: nat)
    requires EndsInNul(was) && Decode(was, i).Some?
    requires var d := Decode(was, i).value;
      && |now| == |was| && d.end < |was| && now[d.end..] == was[d.end..]
      && now[i..i + |d.text|] == d.text && now[i + |d.text|] == '\0'
    ensures var d := Decode(was, i).value;
      && Held(now, d.end, false, Str(i, d.text)) && Held(now, d.end, true, Str(i, d.text)) && SameFrom(now, was, d.end)
  {
    hide Decode;
    var d := Decode(was, i).value;
    forall k | d.end <= k < |now|
      ensures now[k] == was[k]
    {
      assert now[k] == now[d.end..][k - d.end] && was[k] == was[d.end..][k - d.end];
    }
  }

  lemma HeldLater(buf: string, p: nat, q: nat, s: Str)
    requires Held(buf, p, false, s) && p <= q <= |buf|
    ensures Held(buf, q, false, s)
  {
  }

  lemma WordIsLeaf(s: string, v: nat, word: string, kind: Kind)
    requires |word| > 0
    ensures Word(s, v, word, kind).Some? ==> Word(s, v, word, kind).value.value == Leaf(kind, Str(v, word))
  {
  }

  /** A turn that meets neither comma nor block end takes a member. */
  lemma LookMember(s: string, i: nat, arr: bool, p: nat)
    requires GoBlank(s, i) == Some(p) && s[p] != ',' && s[p] != EndChar(arr)
    ensures Look(s, i, arr) == match HeadAt(s, p, arr) case None => Fail case Some(h) => Member(s, h)
    ensures Look(s, i, arr).Fail? || Look(s, i, arr).Open? || Look(s, i, arr).Put?
  {
    hide GoBlank, HeadAt, Member;
  }

  lemma MemberIs(s: string, h: Head)
    requires h.at < |s|
    ensures s[h.at] == '{' || s[h.at] == '[' ==> Member(s, h) == Open(h.name, s[h.at] == '[', h.at + 1)
    ensures s[h.at] != '{' && s[h.at] != '[' && ScalarAt(s, h.at).None? ==> Member(s, h) == Fail
    ensures s[h.at] != '{' && s[h.at] != '[' && ScalarAt(s, h.at).Some? ==>
      Member(s, h) == Put(Item(h.name, ScalarAt(s, h.at).value.value), ScalarAt(s, h.at).value.end)
  {
    hide ScalarAt;
  }

  lemma NoName(s: string, p: nat)
    requires p < |s|
    ensures HeadTaken(s, s, p, true, None, Some(p))
  {
  }

  lemma NoQuote(s: string, p: nat)
    requires p < |s| && s[p] != '"'
    ensures HeadAt(s, p, false) == None
  {
  }

  lemma HeadKeepsNul(was: string, now: string, p: nat, name: Option<nat>, v: Option<nat>)
    requires EndsInNul(was) && p < |was| && v.Some? && HeadTaken(was, now, p, false, name, v)
    ensures EndsInNul(now)
  {
    hide HeadAt, Held;
  }

  /** What the pool says of the innermost open block. */
  lemma TopBlock(mem: Pool, k: Stack)
    requires StackOk(mem, k, None)
    ensures At(k) < |mem| && mem[At(k)].kind == BlockKind(InArray(k)) && At(k) < Nodes(k)
    ensures mem[At(k)].sibling == (if k.Above? then Some(At(k.below)) else None)
    ensures mem[At(k)].child.Some? ==> At(k) < mem[At(k)].last < Nodes(k)
  {
    NodesAt(k);
    if k.items.Cons? {
      LastAtBounds(At(k) + 1, k.items);
    }
  }

  /** The state at the head of a turn. */
  datatype Context = Context(s: string, buf: string, mem: Pool, k: Stack, ptr: nat, goal: Option<Json>)

  /** A member with this head has its node and its name, but not yet its value. */
  ghost predicate Named(c: Context, h: Head, buf: string, mem: Pool) {
    && Running(c.s, c.buf, c.mem, c.k, c.ptr, c.goal) && c.ptr <= h.at < |c.s|
    && Look(c.s, c.ptr, InArray(c.k)) == Member(c.s, h)
    && Nodes(c.k) < |c.mem| && Added(c.mem, mem, At(c.k), Nodes(c.k))
    && mem[Nodes(c.k)].name == Place(h.name) && mem[Nodes(c.k)].sibling == None
    && SameFrom(buf, c.s, h.at) && HeldName(buf, h.at, false, h.name)
    && forall i :: 0 <= i < c.ptr ==> buf[i] == c.buf[i]
  }

  lemma NameTaken(c: Context, p: nat, buf: string, mem: Pool, v: Option<nat>)
    requires Running(c.s, c.buf, c.mem, c.k, c.ptr, c.goal) && GoBlank(c.s, c.ptr) == Some(p)
    requires c.s[p] != ',' && c.s[p] != EndChar(InArray(c.k))
    requires Nodes(c.k) < |c.mem| && Added(c.mem, mem, At(c.k), Nodes(c.k)) && mem[Nodes(c.k)].sibling == None
    requires v.Some? && HeadTaken(c.buf, buf, p, InArray(c.k), mem[Nodes(c.k)].name, v)
    ensures HeadAt(c.s, p, InArray(c.k)).Some? && v == Some(HeadAt(c.s, p, InArray(c.k)).value.at)
    ensures Named(c, HeadAt(c.s, p, InArray(c.k)).value, buf, mem)
  {
    hide Look, HeadAt, Member, GoBlank, Held, HeldStack, Bounded, StackOk, Added;
    HeadAgrees(c.buf, c.s, p, InArray(c.k));
    LookMember(c.s, c.ptr, InArray(c.k), p);
  }

  /** Changing the new node itself, before or after add(), makes no difference to the others. */
  lemma AddedAround(a: Pool, a2: Pool, b: Pool, b2: Pool, obj: nat, p: nat)
    requires |a| == |a2| && |b| == |b2| && obj != p < |a| && Added(a2, b, obj, p)
    requires a2[obj] == a[obj] && (a[obj].child.Some? ==> a[obj].last != p)
    requires forall i :: 0 <= i < |a| && i != p ==> a[i] == a2[i]
    requires forall i :: 0 <= i < |b| && i != p ==> b[i] == b2[i]
    ensures Added(a, b2, obj, p)
  {
  }

  lemma NameLater(buf: string, p: nat, q: nat, pending: bool, name: Option<Str>)
    requires HeldName(buf, p, false, name) && p <= q <= |buf|
    ensures HeldName(buf, q, pending, name)
  {
  }

  lemma LeafRep(mem: Pool, i: nat, item: Item)
    requires i < |mem| && item.value.Leaf? && mem[i].name == Place(item.name) && mem[i].sibling == None
    requires mem[i].kind == item.value.kind && mem[i].value == item.value.s.at
    ensures Rep(mem, i, item, None)
  {
  }

  lemma ScalarItemHeld(a: string, b: string, v: nat, j: nat, pending: bool, item: Item)
    requires HeldName(a, v, false, item.name) && item.value.Leaf? && Held(b, j, pending, item.value.s)
    requires v < j <= |a| == |b| && forall i :: 0 <= i < v ==> a[i] == b[i]
    ensures HeldItem(b, j, pending, item)
  {
    HeldNameOn(a, b, v, false, j, pending, item.name);
  }

  lemma Begun(s: string, mem: Pool, p: nat)
    requires EndsInNul(s) && 0 < p <= |s| && s[p - 1] == '{' && |mem| >= 1
    requires mem[0].kind == Obj && mem[0].name == None && mem[0].child == None && mem[0].sibling == None
    ensures Running(s, s, mem, Bottom(Nil), p, Bounded(s, Bottom(Nil), p, |mem|))
  {
    hide Bounded, Held;
  }

  lemma Unread(s: string, buf: string, mem: Pool, k: Stack, ptr: nat, goal: Option<Json>)
    requires Running(s, buf, mem, k, ptr, goal)
    ensures ptr < |s| && SameFrom(buf, s, ptr) && EndsInNul(buf) && StackOk(mem, k, None) && Nodes(k) <= |mem|
  {
    hide HeldStack, StackOk, Bounded;
  }

  lemma LookBlank(s: string, i: nat, arr: bool)
    ensures GoBlank(s, i).None? ==> Look(s, i, arr).Fail?
    ensures GoBlank(s, i).Some? ==>
      var p := GoBlank(s, i).value;
      && (s[p] == ',' ==> Look(s, i, arr) == Comma(p + 1))
      && (s[p] == EndChar(arr) ==> Look(s, i, arr) == End(p + 1))
  {
    hide GoBlank;
  }

  lemma RootRep(mem: Pool, k: Stack)
    requires StackOk(mem, k, None) && k.Bottom?
    ensures Rep(mem, 0, Item(None, Tree(false, k.items)), None)
  {
  }

  lemma RootHeld(buf: string, p: nat, k: Stack)
    requires HeldStack(buf, p, false, k)
    ensures HeldItems(buf, p, false, k.items)
  {
  }

  lemma AtShut(k: Stack)
    requires k.Above?
    ensures At(Shut(k)) == At(k.below) && Nodes(Shut(k)) == Nodes(k)
  {
    AddItemNodes(k.below, Item(k.name, Tree(k.arr, k.items)));
  }

  class Parser {
    const buf: array<char>
    const mem: array<Node>
    var nextFree: nat

    /** A text that ends in NUL, and a pool of at least one node. */
    ghost predicate Valid()
      reads this, buf, mem
    {
      EndsInNul(buf[..]) && mem.Length >= 1 && nextFree <= mem.Length
    }

    constructor (buf: array<char>, mem: array<Node>)
      requires EndsInNul(buf[..]) && mem.Length >= 1
      ensures Valid() && this.buf == buf && this.mem == mem
    {
      this.buf := buf;
      this.mem := mem;
      nextFree := 0;
    }

    method SkipBlank(i: nat) returns (r: Option<nat>)
      requires Valid() && i < buf.Length
      ensures r == GoBlank(buf[..], i)
    {
      var p := i;
      while buf[p] != '\0'
        invariant i <= p < buf.Length && GoBlank(buf[..], i) == GoBlank(buf[..], p)
        decreases buf.Length - p
      {
        if !IsBlank(buf[p]) {
          return Some(p);
        }
        p := p + 1;
      }
      return None;
    }

    method SkipDigits(i: nat) returns (r: Option<nat>)
      requires Valid() && i < buf.Length
      ensures r == GoNum(buf[..], i)
    {
      var p := i;
      while buf[p] != '\0'
        invariant i <= p < buf.Length && GoNum(buf[..], i) == GoNum(buf[..], p)
        decreases buf.Length - p
      {
        if !IsDigit(buf[p]) {
          return Some(p);
        }
        p := p + 1;
      }
      return None;
    }

    method ScanWhole(i: nat) returns (r: Option<nat>)
      requires Valid() && i < buf.Length
      ensures r == Whole(buf[..], i)
    {
      hide GoNum;
      if !IsDigit(buf[i]) {
        return None;
      }
      if buf[i] != '0' {
        r := SkipDigits(i);
      } else if IsDigit(buf[i + 1]) {
        r := None;
      } else {
        r := Some(i + 1);
      }
    }

    method ScanFraction(i: nat) returns (r: Option<nat>)
      requires Valid() && i < buf.Length
      ensures r == Fraction(buf[..], i)
    {
      hide GoNum;
      if !IsDigit(buf[i]) {
        return None;
      }
      r := SkipDigits(i + 1);
    }

    method ScanExponent(i: nat) returns (r: Option<nat>)
      requires Valid() && i < buf.Length
      ensures r == Exponent(buf[..], i)
    {
      hide Fraction;
      r := ScanFraction(if buf[i] == '-' || buf[i] == '+' then i + 1 else i);
    }

    /** The characters of a number literal, range aside. */
    method ScanNumber(v: nat) returns (r: Option<Literal>)
      requires Valid() && v < buf.Length
      ensures r == Scan(buf[..], v) && (r.Some? ==> r.value.end < buf.Length)
    {
      hide Whole, Fraction, Exponent;
      var p := ScanWhole(if buf[v] == '-' then v + 1 else v);
      if p.None? {
        return None;
      }
      InsideWhole(buf[..], if buf[v] == '-' then v + 1 else v);
      var integer := true;
      if buf[p.value] == '.' {
        InsideFraction(buf[..], p.value + 1);
        p := ScanFraction(p.value + 1);
        if p.None? {
          return None;
        }
        integer := false;
      }
      if buf[p.value] == 'e' || buf[p.value] == 'E' {
        InsideFraction(buf[..], p.value + 1);
        InsideFraction(buf[..], p.value + 2);
        InsideExponent(buf[..], p.value + 1);
        p := ScanExponent(p.value + 1);
        if p.None? {
          return None;
        }
        integer := false;
      }
      return Some(Literal(integer, p.value));
    }

    method SetToNull(e: nat) returns (j: nat)
      requires e < buf.Length
      modifies buf
      ensures buf[..] == Ended(old(buf[..]), e) && j == After(old(buf[..]), e)
    {
      if IsBlockEnd(buf[e]) {
        return e;
      }
      buf[e] := '\0';
      return e + 1;
    }

    /** The range test, with the terminator written for the comparison and taken back. */
    method FitsInPlace(v: nat, e: nat) returns (fits: bool)
      requires Valid() && v < e < buf.Length && IsInteger(buf[v..e])
      modifies buf
      ensures fits == Fits(old(buf[v..e]))
      ensures fits ==> buf[..] == old(buf[..])
    {
      ghost var s := buf[..];
      assert s[v..e] == buf[v..e];
      IntegerCString(s, v, e);
      var threshold := if buf[v] == '-' then MIN_TEXT else MAX_TEXT;
      if e - v > |threshold| {
        return false;
      }
      if e - v == |threshold| {
        var kept := buf[e];
        buf[e] := '\0';
        assert buf[..] == s[e := '\0'];
        if Compare(threshold, CString(buf[..], v)) < 0 {
          return false;
        }
        buf[e] := kept;
        assert buf[..] == s;
      }
      return true;
    }

    method NumValue(v: nat) returns (kind: Kind, end: Option<nat>)
      requires Valid() && v < buf.Length
      requires buf[v] !in {'"', 't', 'f', 'n'}
      modifies buf
      ensures ScalarTaken(old(buf[..]), buf[..], v, kind, v, end)
    {
      hide Scan, Fits, Decode;
      kind, end := Integer, None;
      ghost var s := buf[..];
      var literal := ScanNumber(v);
      if literal.None? || !IsPrimitiveEnd(buf[literal.value.end]) {
        return;
      }
      var e := literal.value.end;
      assert s[v..e] == buf[v..e];
      if literal.value.integer {
        ScanInteger(s, v);
        var fits := FitsInPlace(v, e);
        if !fits {
          return;
        }
      } else {
        kind := Real;
      }
      EndedHeld(s, v, e);
      var j := SetToNull(e);
      end := Some(j);
    }

    /** checkStr, then the end of the primitive. */
    method PrimitiveValue(v: nat, word: string, kind: Kind) returns (end: Option<nat>)
      requires Valid() && v < buf.Length && |word| > 0 && '\0' !in word
      modifies buf
      ensures match Word(old(buf[..]), v, word, kind)
        case None => end == None
        case Some(r) =>
          && end == Some(r.end) && r.end < buf.Length && SameFrom(buf[..], old(buf[..]), r.end)
          && Held(buf[..], r.end, IsBlockEnd(old(buf[..])[r.end]), Str(v, word))
          && forall i :: 0 <= i < v ==> buf[i] == old(buf[i])
    {
      ghost var s := buf[..];
      var i := 0;
      while i < |word|
        invariant 0 <= i <= |word| && v + i < buf.Length && buf[v..v + i] == word[..i]
      {
        if buf[v + i] != word[i] {
          assert v + |word| < |s| ==> s[v..v + |word|][i] != word[i];
          return None;
        }
        i := i + 1;
      }
      assert s[v..v + |word|] == word;
      if !IsPrimitiveEnd(buf[v + |word|]) {
        return None;
      }
      EndedHeld(s, v, v + |word|);
      var j := SetToNull(v + |word|);
      return Some(j);
    }

    /** The value at v, if it is not a block. */
    method ScalarValue(v: nat) returns (kind: Kind, at: nat, end: Option<nat>)
      requires Valid() && v < buf.Length
      modifies buf
      ensures ScalarTaken(old(buf[..]), buf[..], v, kind, at, end)
    {
      hide Decode, Number, Word, Held;
      at, end := v, None;
      ghost var s := buf[..];
      match buf[v]
      case '"' =>
        kind, at := Text, v + 1;
        end := ParseString(buf, v + 1);
        if end.Some? {
          TextHeld(s, buf[..], v + 1);
        }
      case 't' =>
        kind := Boolean;
        end := PrimitiveValue(v, "true", Boolean);
        WordIsLeaf(s, v, "true", Boolean);
      case 'f' =>
        kind := Boolean;
        end := PrimitiveValue(v, "false", Boolean);
        WordIsLeaf(s, v, "false", Boolean);
      case 'n' =>
        kind := Null;
        end := PrimitiveValue(v, "null", Null);
        WordIsLeaf(s, v, "null", Null);
      case _ => kind, end := NumValue(v);
    }

    method PropertyName(p: nat) returns (v: Option<nat>)
      requires Valid() && p < buf.Length && buf[p] == '"'
      modifies buf
      ensures HeadTaken(old(buf[..]), buf[..], p, false, Some(p + 1), v)
    {
      hide Decode, GoBlank, Held;
      ghost var s := buf[..];
      var e := ParseString(buf, p + 1);
      if e.None? {
        return None;
      }
      TextHeld(s, buf[..], p + 1);
      assert SameFrom(buf[..], s, e.value);
      GoBlankAgrees(buf[..], s, e.value);
      var q := SkipBlank(e.value);
      if q.None? || buf[q.value] != ':' {
        return None;
      }
      GoBlankAgrees(buf[..], s, q.value + 1);
      v := SkipBlank(q.value + 1);
      if v.Some? {
        HeldLater(buf[..], e.value, v.value, Str(p + 1, Decode(s, p + 1).value.text));
      }
    }

    method Add(obj: nat, p: nat)
      requires obj < mem.Length && p < mem.Length && obj != p
      requires mem[obj].child.Some? ==> mem[obj].last < mem.Length && mem[obj].last != obj && mem[obj].last != p
      modifies mem
      ensures Added(old(mem[..]), mem[..], obj, p) && mem[p] == old(mem[p]).(sibling := None)
    {
      mem[p] := mem[p].(sibling := None);
      if mem[obj].child.None? {
        mem[obj] := mem[obj].(child := Some(p));
        mem[obj] := mem[obj].(last := p);
      } else {
        var l := mem[obj].last;
        mem[l] := mem[l].(sibling := Some(p));
        mem[obj] := mem[obj].(last := p);
      }
    }

    /** The name of a member, or no name in an array. */
    method TakeName(p: nat, arr: bool, property: nat) returns (v: Option<nat>)
      requires Valid() && p < buf.Length && property < mem.Length
      modifies buf, mem
      ensures forall i :: 0 <= i < mem.Length && i != property ==> mem[i] == old(mem[i])
      ensures v.Some? ==> Valid() && HeadTaken(old(buf[..]), buf[..], p, arr, mem[property].name, v)
      ensures v.None? ==> HeadAt(old(buf[..]), p, arr) == None
    {
      hide HeadAt;
      if arr {
        mem[property] := mem[property].(name := None);
        NoName(buf[..], p);
        return Some(p);
      }
      if buf[p] != '"' {
        NoQuote(buf[..], p);
        return None;
      }
      mem[property] := mem[property].(name := Some(p + 1));
      ghost var s := buf[..];
      v := PropertyName(p);
      if v.Some? {
        HeadKeepsNul(s, buf[..], p, mem[property].name, v);
      }
    }

    method OpenBlock(obj: nat, v: nat, ghost c: Context, ghost h: Head) returns (property: nat)
      requires Valid() && Named(c, h, buf[..], mem[..]) && obj == At(c.k) && nextFree == Nodes(c.k) + 1
      requires v == h.at && (buf[v] == '{' || buf[v] == '[')
      modifies mem
      ensures var k2 := Above(c.k, buf[v] == '[', h.name, Nil);
        property == At(k2) && nextFree == Nodes(k2) && Running(c.s, buf[..], mem[..], k2, v + 1, c.goal)
    {
      hide Look, HeadAt, ScalarAt, Held, HeldStack, Bounded;
      property := nextFree - 1;
      ghost var j := v + 1;
      var arr := buf[v] == '[';
      MemberIs(c.s, h);
      LookInside(c.s, c.ptr, InArray(c.k));
      mem[property] := mem[property].(kind := BlockKind(arr), child := None, sibling := Some(obj));
      NameLater(buf[..], v, j, IsBlockEnd(c.s[j]), h.name);
      TurnOpen(c.s, c.buf, c.mem, c.k, c.ptr, c.goal, h.name, arr, j, buf[..], mem[..]);
    }

    method PutScalar(obj: nat, v: nat, ghost c: Context, ghost h: Head) returns (end: Option<nat>, ghost item: Item)
      requires Valid() && Named(c, h, buf[..], mem[..]) && obj == At(c.k) && nextFree == Nodes(c.k) + 1
      requires v == h.at && buf[v] != '{' && buf[v] != '['
      modifies buf, mem
      ensures end.None? ==> Look(c.s, c.ptr, InArray(c.k)).Fail?
      ensures end.Some? ==>
        && end.value > c.ptr && nextFree == Nodes(AddItem(c.k, item)) && obj == At(AddItem(c.k, item))
        && Running(c.s, buf[..], mem[..], AddItem(c.k, item), end.value, c.goal)
    {
      hide Look, HeadAt, ScalarAt, Held, HeldStack, Bounded, Rep;
      var property := nextFree - 1;
      ghost var buf1 := buf[..];
      item := Item(None, Tree(false, Nil));
      MemberIs(c.s, h);
      ScalarAgrees(buf1, c.s, v);
      var kind, at, e := ScalarValue(v);
      if e.None? {
        return None, item;
      }
      mem[property] := mem[property].(kind := kind, value := at);
      ghost var value := ScalarAt(c.s, v).value.value;
      item := Item(h.name, value);
      LeafRep(mem[..], property, item);
      ScalarItemHeld(buf1, buf[..], v, e.value, IsBlockEnd(c.s[e.value]), item);
      TurnPut(c.s, c.buf, c.mem, c.k, c.ptr, c.goal, item, e.value, buf[..], mem[..]);
      AddItemNodes(c.k, item);
      return e, item;
    }

    /** The part of a turn that takes a member: a node, its name, its place in the block, its value.
        Either the outcome is failure, or the loop goes on with the member taken. */
    method TakeMember(obj: nat, p: nat, ghost c: Context) returns (ok: bool, obj2: nat, ptr2: nat, ghost k2: Stack)
      requires Valid() && c.buf == buf[..] && c.mem == mem[..] && Running(c.s, c.buf, c.mem, c.k, c.ptr, c.goal)
      requires obj == At(c.k) && nextFree == Nodes(c.k)
      requires GoBlank(c.s, c.ptr) == Some(p) && c.s[p] != ',' && c.s[p] != EndChar(InArray(c.k))
      modifies this`nextFree, buf, mem
      ensures !ok ==> c.goal == None
      ensures ok ==>
        && Running(c.s, buf[..], mem[..], k2, ptr2, c.goal)
        && obj2 == At(k2) && nextFree == Nodes(k2) && ptr2 > c.ptr
    {
      hide Look, HeadAt, Member, ScalarAt, GoBlank, Held, HeldStack, Bounded, Rep, Named, Running, StackOk, Added,
        HeadTaken;
      ok, obj2, ptr2, k2 := false, obj, p, c.k;
      Unread(c.s, c.buf, c.mem, c.k, c.ptr, c.goal);
      ghost var arr := InArray(c.k);
      TurnFails(c.s, c.buf, c.mem, c.k, c.ptr, c.goal);
      LookMember(c.s, c.ptr, arr, p);
      if nextFree >= mem.Length {
        return;
      }
      var property := nextFree;
      nextFree := nextFree + 1;
      TopBlock(c.mem, c.k);
      HeadAgrees(c.buf, c.s, p, arr);
      var v := TakeName(p, mem[obj].kind == Arr, property);
      if v.None? {
        return;
      }
      ghost var named := mem[..];
      Add(obj, property);
      ghost var added := mem[..];
      mem[property] := mem[property].(value := v.value);
      AddedAround(c.mem, named, added, mem[..], obj, property);
      NameTaken(c, p, buf[..], mem[..], v);
      ghost var h := HeadAt(c.s, p, arr).value;
      if buf[v.value] == '{' || buf[v.value] == '[' {
        ok, ptr2, k2 := true, v.value + 1, Above(c.k, buf[v.value] == '[', h.name, Nil);
        obj2 := OpenBlock(obj, v.value, c, h);
      } else {
        var end, item := PutScalar(obj, v.value, c, h);
        if end.Some? {
          ok, ptr2, k2 := true, end.value, AddItem(c.k, item);
        }
      }
    }

    /** The loop.  It succeeds exactly when recursive descent does and the pool suffices; then the pool holds the same
        tree and every string of it stands terminated in the text. */
    method ObjValue(start: nat) returns (end: Option<nat>)
      requires Valid() && start < buf.Length && buf[start] == '{' && nextFree == 1 && mem[0].name == None
      modifies this`nextFree, buf, mem
      ensures match Bounded(old(buf[..]), Bottom(Nil), start + 1, mem.Length)
        case None => end == None
        case Some(t) =>
          && end.Some? && t.Tree? && Rep(mem[..], 0, Item(None, t), None)
          && HeldItems(buf[..], end.value, false, t.items)
    {
      hide Look, GoBlank, Held, HeldStack, HeldItems, Bounded, Rep, RepItems, Running, StackOk;
      mem[0] := mem[0].(kind := Obj, child := None, sibling := None);
      ghost var s, k := buf[..], Bottom(Nil);
      ghost var goal := Bounded(s, k, start + 1, mem.Length);
      var ptr, obj := start + 1, 0;
      Begun(s, mem[..], ptr);
      while true
        invariant Running(s, buf[..], mem[..], k, ptr, goal) && obj == At(k) && nextFree == Nodes(k)
        decreases |s| - ptr
      {
        Unread(s, buf[..], mem[..], k, ptr, goal);
        TurnFails(s, buf[..], mem[..], k, ptr, goal);
        TopBlock(mem[..], k);
        GoBlankAgrees(buf[..], s, ptr);
        LookBlank(s, ptr, InArray(k));
        var p := SkipBlank(ptr);
        if p.None? {
          return None;
        }
        if buf[p.value] == ',' {
          TurnComma(s, buf[..], mem[..], k, ptr, goal, p.value + 1);
          ptr := p.value + 1;
          continue;
        }
        var endchar := if mem[obj].kind == Obj then '}' else ']';
        if buf[p.value] == endchar {
          var parent := mem[obj].sibling;
          if parent.None? {
            EndHeld(s, buf[..], mem[..], k, ptr, goal, p.value, false);
            RootRep(mem[..], k);
            ghost var closed := buf[..][p.value := '\0'];
            buf[p.value] := '\0';
            assert buf[..] == closed;
            RootHeld(closed, p.value + 1, k);
            return Some(p.value + 1);
          }
          TurnShut(s, buf[..], mem[..], k, ptr, goal, p.value);
          ghost var closed, shut := buf[..][p.value := '\0'], mem[..][obj := mem[obj].(sibling := None)];
          buf[p.value] := '\0';
          mem[obj] := mem[obj].(sibling := None);
          assert buf[..] == closed && mem[..] == shut;
          AtShut(k);
          obj, ptr, k := parent.value, p.value + 1, Shut(k);
          continue;
        }
        ghost var c := Context(s, buf[..], mem[..], k, ptr, goal);
        var ok, obj2, ptr2, k2 := TakeMember(obj, p.value, c);
        if !ok {
          return None;
        }
        obj, ptr, k := obj2, ptr2, k2;
      }
    }

    /** json_createWithPool.  It succeeds exactly when the text is a document with no more nodes than the pool; then
        the pool holds its tree, in document order from node 0, every name and scalar of it stands finished in the text,
        and following links and C strings reads what the tree says. */
    method Create() returns (ok: bool)
      requires Valid()
      modifies this`nextFree, buf, mem
      ensures ok <==> Document(old(buf[..])).Some? && Count(Document(old(buf[..])).value) <= mem.Length
      ensures ok ==>
        var t := Document(old(buf[..])).value;
        && t.Tree? && Rep(mem[..], 0, Item(None, t), None)
        && (exists end :: HeldItems(buf[..], end, false, t.items))
        && ReadNode(mem[..], buf[..], 0) == View(t)
    {
      hide Members, GoBlank, Bounded, HeldItems, Rep, ParsedItems, ReadNode, View;
      var p := SkipBlank(0);
      if p.None? || buf[p.value] != '{' {
        return false;
      }
      ghost var s := buf[..];
      nextFree := 1;
      mem[0] := mem[0].(name := None, sibling := None, child := None);
      LoopIsDescent(s, p.value + 1);
      BoundedIs(s, Bottom(Nil), p.value + 1, mem.Length);
      ParsedMembers(s, p.value + 1, false);
      var end := ObjValue(p.value);
      ok := end.Some?;
      if ok {
        RootReads(mem[..], buf[..], end.value, Document(s).value);
      }
    }
  }
}
