/** What the parser's loop keeps, and each kind of turn of the loop. */
module JsonSteps {
  import opened Options
  import opened JsonText
  import opened JsonGrammar
  import opened JsonStack
  import opened JsonNodes
  import opened JsonBuffer

  // ------------------------------------------------------------------ agreement for members

  lemma ScalarAgrees(a: string, b: string, v: nat)
    requires SameFrom(a, b, v)
    ensures ScalarAt(a, v) == ScalarAt(b, v)
  {
    hide Decode, Number, Word;
    if v < |a| {
      DecodeAgrees(a, b, v + 1);
    }
    WordAgrees(a, b, v, "true", Boolean);
    WordAgrees(a, b, v, "false", Boolean);
    WordAgrees(a, b, v, "null", Null);
    NumberAgrees(a, b, v);
  }

  lemma HeadAgrees(a: string, b: string, p: nat, arr: bool)
    requires SameFrom(a, b, p) && p < |a|
    ensures HeadAt(a, p, arr) == HeadAt(b, p, arr)
  {
    hide Decode, GoBlank;
    DecodeAgrees(a, b, p + 1);
    if Decode(a, p + 1).Some? {
      var e := Decode(a, p + 1).value.end;
      GoBlankAgrees(a, b, e);
      if GoBlank(a, e).Some? {
        GoBlankAgrees(a, b, GoBlank(a, e).value + 1);
      }
    }
  }

  // ------------------------------------------------------------------ the loop

  /** At the head of the loop, with cursor ptr and open blocks k: the text from ptr on is unread, the strings found
      so far stand in front of it, the pool holds the open blocks, and the rest of the run decides the outcome. */
  ghost predicate Running(s: string, buf: string, mem: Pool, k: Stack, ptr: nat, goal: Option<Json>) {
    && EndsInNul(s) && ptr < |s| && SameFrom(buf, s, ptr)
    && HeldStack(buf, ptr, IsBlockEnd(s[ptr]), k)
    && StackOk(mem, k, None) && Nodes(k) <= |mem|
    && Bounded(s, k, ptr, |mem|) == goal
  }

  /** A string whose terminator is still to come stands right in front of a block end: only that end can be next. */
  lemma PendingEnds(s: string, i: nat, arr: bool)
    requires i < |s| && IsBlockEnd(s[i])
    ensures GoBlank(s, i) == Some(i)
    ensures Look(s, i, arr).Fail? || (Look(s, i, arr).End? && s[i] == EndChar(arr))
  {
    hide Decode;
    assert !IsBlank(s[i]);
    assert Number(s, i) == None;
  }

  lemma TurnComma(s: string, buf: string, mem: Pool, k: Stack, ptr: nat, goal: Option<Json>, j: nat)
    requires Running(s, buf, mem, k, ptr, goal) && Look(s, ptr, InArray(k)) == Comma(j)
    ensures Running(s, buf, mem, k, j, goal)
  {
    LookInside(s, ptr, InArray(k));
    if IsBlockEnd(s[ptr]) {
      PendingEnds(s, ptr, InArray(k));
    }
    hide Look, Held, StackOk;
    HeldStackOn(buf, buf, ptr, IsBlockEnd(s[ptr]), j, IsBlockEnd(s[j]), k);
  }

  /** The text after the end of a block is overwritten by a NUL. */
  lemma EndHeld(s: string, buf: string, mem: Pool, k: Stack, ptr: nat, goal: Option<Json>, p: nat, pending: bool)
    requires Running(s, buf, mem, k, ptr, goal) && Look(s, ptr, InArray(k)) == End(p + 1) && ptr <= p < |buf|
    ensures HeldStack(buf[p := '\0'], p + 1, pending, k)
    ensures p + 1 < |s| && SameFrom(buf[p := '\0'], s, p + 1)
  {
    LookInside(s, ptr, InArray(k));
    if IsBlockEnd(s[ptr]) {
      PendingEnds(s, ptr, InArray(k));
      EndAt(s, ptr, InArray(k), ptr);
    }
    hide Look, Held, StackOk;
    HeldStackOn(buf, buf[p := '\0'], ptr, IsBlockEnd(s[ptr]), p + 1, pending, k);
  }

  lemma EndAt(s: string, i: nat, arr: bool, p: nat)
    requires GoBlank(s, i) == Some(p) && Look(s, i, arr).End?
    ensures Look(s, i, arr) == End(p + 1)
  {
  }

  lemma TurnShut(s: string, buf: string, mem: Pool, k: Stack, ptr: nat, goal: Option<Json>, p: nat)
    requires Running(s, buf, mem, k, ptr, goal) && k.Above?
    requires Look(s, ptr, InArray(k)) == End(p + 1) && ptr <= p < |buf|
    ensures At(k) < |mem|
    ensures Running(s, buf[p := '\0'], mem[At(k) := mem[At(k)].(sibling := None)], Shut(k), p + 1, goal)
  {
    LookInside(s, ptr, InArray(k));
    EndHeld(s, buf, mem, k, ptr, goal, p, IsBlockEnd(s[p + 1]));
    assert At(k) < |mem|;
    var mem2 := mem[At(k) := mem[At(k)].(sibling := None)];
    ShutOk(mem, mem2, k);
    var item := Item(k.name, Tree(k.arr, k.items));
    AddItemNodes(k.below, item);
    hide Look, Held, StackOk;
    HeldAdd(buf[p := '\0'], p + 1, IsBlockEnd(s[p + 1]), k.below, item);
  }

  /** A member was read: the strings found so far stay in front of the new cursor. */
  lemma MemberHeld(s: string, buf: string, mem: Pool, k: Stack, ptr: nat, goal: Option<Json>, buf2: string, j: nat)
    requires Running(s, buf, mem, k, ptr, goal)
    requires var n := Look(s, ptr, InArray(k)); (n.Put? || n.Open?) && n.to == j
    requires |buf2| == |s| && forall i :: 0 <= i < ptr ==> buf2[i] == buf[i]
    ensures j < |s| && HeldStack(buf2, j, IsBlockEnd(s[j]), k)
  {
    LookInside(s, ptr, InArray(k));
    if IsBlockEnd(s[ptr]) {
      PendingEnds(s, ptr, InArray(k));
    }
    hide Look, Held, StackOk;
    HeldStackOn(buf, buf2, ptr, IsBlockEnd(s[ptr]), j, IsBlockEnd(s[j]), k);
  }

  lemma TurnPut(s: string, buf: string, mem: Pool, k: Stack, ptr: nat, goal: Option<Json>,
                item: Item, j: nat, buf2: string, mem2: Pool)
    requires Running(s, buf, mem, k, ptr, goal) && Look(s, ptr, InArray(k)) == Put(item, j)
    requires Nodes(k) < |mem| && Added(mem, mem2, At(k), Nodes(k)) && Rep(mem2, Nodes(k), item, None)
    requires j < |s| && SameFrom(buf2, s, j) && HeldItem(buf2, j, IsBlockEnd(s[j]), item)
    requires forall i :: 0 <= i < ptr ==> buf2[i] == buf[i]
    ensures Running(s, buf2, mem2, AddItem(k, item), j, goal)
  {
    MemberHeld(s, buf, mem, k, ptr, goal, buf2, j);
    PutIsLeaf(s, ptr, InArray(k));
    hide Look, Held;
    AddOpens(mem, mem2, k);
    MemberCloses(mem2, k, item);
    AddItemNodes(k, item);
    hide StackOk, Added, Rep;
    HeldAdd(buf2, j, IsBlockEnd(s[j]), k, item);
  }

  lemma TurnOpen(s: string, buf: string, mem: Pool, k: Stack, ptr: nat, goal: Option<Json>,
                 name: Option<Str>, arr: bool, j: nat, buf2: string, mem2: Pool)
    requires Running(s, buf, mem, k, ptr, goal) && Look(s, ptr, InArray(k)) == Open(name, arr, j)
    requires Nodes(k) < |mem| && Added(mem, mem2, At(k), Nodes(k))
    requires var n := mem2[Nodes(k)];
      n.kind == BlockKind(arr) && n.name == Place(name) && n.child == None && n.sibling == Some(At(k))
    requires j < |s| && SameFrom(buf2, s, j) && HeldName(buf2, j, IsBlockEnd(s[j]), name)
    requires forall i :: 0 <= i < ptr ==> buf2[i] == buf[i]
    ensures Running(s, buf2, mem2, Above(k, arr, name, Nil), j, goal)
  {
    MemberHeld(s, buf, mem, k, ptr, goal, buf2, j);
    hide Look, Held;
    AddOpens(mem, mem2, k);
    OpenOk(mem2, k, arr, name);
  }

  /** With no node left, or no valid member, the outcome is failure. */
  lemma TurnFails(s: string, buf: string, mem: Pool, k: Stack, ptr: nat, goal: Option<Json>)
    requires Running(s, buf, mem, k, ptr, goal)
    ensures Look(s, ptr, InArray(k)).Fail? ==> goal == None
    ensures (Look(s, ptr, InArray(k)).Put? || Look(s, ptr, InArray(k)).Open?) && Nodes(k) == |mem| ==> goal == None
    ensures Look(s, ptr, InArray(k)).End? && k.Bottom? ==> goal == Some(Tree(false, k.items))
  {
    hide Look, Held, StackOk;
  }
}
