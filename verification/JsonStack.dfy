/** The parser as an iteration over a stack of open blocks, and its refinement of recursive descent. */
module JsonStack {
  import opened Options
  import opened JsonText
  import opened JsonNumber
  import opened JsonGrammar

  /** The open blocks, innermost first; each holds the members already complete. */
  datatype Stack =
    | Bottom(items: Items)
    | Above(below: Stack, arr: bool, name: Option<Str>, items: Items)

  predicate InArray(k: Stack) { k.Above? && k.arr }

  function Depth(k: Stack): nat { match k case Bottom(_) => 0 case Above(b, _, _, _) => 1 + Depth(b) }

  function AddItem(k: Stack, item: Item): (r: Stack)
    ensures Depth(r) == Depth(k)
  {
    k.(items := Append(k.items, Cons(item, Nil)))
  }

  /** The innermost block is complete and becomes a member of the next. */
  function Shut(k: Stack): Stack
    requires k.Above?
  {
    AddItem(k.below, Item(k.name, Tree(k.arr, k.items)))
  }

  /** The iteration: one look at the text per turn. */
  function Loop(s: string, k: Stack, i: nat): Option<Json>
    decreases |s| - i
  {
    match Look(s, i, InArray(k))
    case Fail => None
    case Comma(j) => Loop(s, k, j)
    case End(j) => if k.Bottom? then Some(Tree(false, k.items)) else Loop(s, Shut(k), j)
    case Put(item, j) => Loop(s, AddItem(k, item), j)
    case Open(name, arr, j) => Loop(s, Above(k, arr, name, Nil), j)
  }

  /** Recursive descent taken up in the middle: read the rest of the innermost block, then the rest of each outer
      one. */
  function Resume(s: string, k: Stack, i: nat): Option<Json>
    decreases Depth(k)
  {
    match Members(s, i, InArray(k))
    case None => None
    case Some(m) =>
      var full := k.(items := Append(k.items, m.items));
      if k.Bottom? then Some(Tree(false, full.items)) else Resume(s, Shut(full), m.end)
  }

  lemma ResumeEnd(s: string, k: Stack, i: nat, j: nat)
    requires Look(s, i, InArray(k)) == End(j)
    ensures Resume(s, k, i) == if k.Bottom? then Some(Tree(false, k.items)) else Resume(s, Shut(k), j)
  {
    hide Look;
    AppendNil(k.items);
  }

  lemma ResumePut(s: string, k: Stack, i: nat, item: Item, j: nat)
    requires Look(s, i, InArray(k)) == Put(item, j)
    ensures Resume(s, k, i) == Resume(s, AddItem(k, item), j)
  {
    hide Look;
    var rest := Members(s, j, InArray(k));
    if rest.Some? {
      AppendAssoc(k.items, Cons(item, Nil), rest.value.items);
    }
  }

  lemma ResumeOpen(s: string, k: Stack, i: nat, name: Option<Str>, arr: bool, j: nat)
    requires Look(s, i, InArray(k)) == Open(name, arr, j)
    ensures Resume(s, k, i) == Resume(s, Above(k, arr, name, Nil), j)
  {
    hide Look;
    var inner := Members(s, j, arr);
    if inner.Some? {
      var item := Item(name, Tree(arr, inner.value.items));
      var rest := Members(s, inner.value.end, InArray(k));
      if rest.Some? {
        AppendAssoc(k.items, Cons(item, Nil), rest.value.items);
      }
    }
  }

  /** From every stack and place the iteration does what recursive descent would still do there. */
  lemma {:induction false} LoopIsResume(s: string, k: Stack, i: nat)
    ensures Loop(s, k, i) == Resume(s, k, i)
    decreases |s| - i
  {
    hide Look;
    match Look(s, i, InArray(k))
    case Fail =>
    case Comma(j) => LoopIsResume(s, k, j);
    case End(j) =>
      ResumeEnd(s, k, i, j);
      if k.Above? {
        LoopIsResume(s, Shut(k), j);
      }
    case Put(item, j) =>
      ResumePut(s, k, i, item, j);
      LoopIsResume(s, AddItem(k, item), j);
    case Open(name, arr, j) =>
      ResumeOpen(s, k, i, name, arr, j);
      LoopIsResume(s, Above(k, arr, name, Nil), j);
  }

  /** The iterative parser and recursive descent give the same tree, or both none. */
  lemma LoopIsDescent(s: string, p: nat)
    ensures Loop(s, Bottom(Nil), p) ==
            match Members(s, p, false) case None => None case Some(m) => Some(Tree(false, m.items))
  {
    hide Look;
    LoopIsResume(s, Bottom(Nil), p);
  }

  // ------------------------------------------------------------------ with a bounded pool

  function Count(v: Json): nat { match v case Leaf(_, _) => 1 case Tree(_, items) => 1 + CountItems(items) }

  function CountItems(items: Items): nat { match items case Nil => 0 case Cons(h, t) => Count(h.value) + CountItems(t) }

  lemma CountAppend(a: Items, b: Items)
    ensures CountItems(Append(a, b)) == CountItems(a) + CountItems(b)
  {
  }

  /** The nodes in use. */
  function Nodes(k: Stack): nat {
    match k case Bottom(items) => 1 + CountItems(items) case Above(b, _, _, items) => Nodes(b) + 1 + CountItems(items)
  }

  lemma AddItemNodes(k: Stack, item: Item)
    ensures Nodes(AddItem(k, item)) == Nodes(k) + Count(item.value)
  {
    CountAppend(k.items, Cons(item, Nil));
  }

  /** The iteration with a pool of qty nodes: a member is refused when no node is left. */
  function Bounded(s: string, k: Stack, i: nat, qty: nat): Option<Json>
    decreases |s| - i
  {
    match Look(s, i, InArray(k))
    case Fail => None
    case Comma(j) => Bounded(s, k, j, qty)
    case End(j) => if k.Bottom? then Some(Tree(false, k.items)) else Bounded(s, Shut(k), j, qty)
    case Put(item, j) => if Nodes(k) >= qty then None else Bounded(s, AddItem(k, item), j, qty)
    case Open(name, arr, j) => if Nodes(k) >= qty then None else Bounded(s, Above(k, arr, name, Nil), j, qty)
  }

  lemma {:induction false} LoopCounts(s: string, k: Stack, i: nat)
    ensures Loop(s, k, i).Some? ==> Count(Loop(s, k, i).value) >= Nodes(k)
    decreases |s| - i
  {
    hide Look;
    match Look(s, i, InArray(k))
    case Fail =>
    case Comma(j) => LoopCounts(s, k, j);
    case End(j) =>
      if k.Above? {
        AddItemNodes(k.below, Item(k.name, Tree(k.arr, k.items)));
        LoopCounts(s, Shut(k), j);
      }
    case Put(item, j) =>
      AddItemNodes(k, item);
      LoopCounts(s, AddItem(k, item), j);
    case Open(name, arr, j) => LoopCounts(s, Above(k, arr, name, Nil), j);
  }

  /** The pool refuses exactly the documents with more nodes than it has. */
  lemma {:induction false} BoundedIs(s: string, k: Stack, i: nat, qty: nat)
    requires Nodes(k) <= qty
    ensures Bounded(s, k, i, qty) ==
            var r := Loop(s, k, i); if r.Some? && Count(r.value) <= qty then r else None
    decreases |s| - i
  {
    hide Look;
    LoopCounts(s, k, i);
    match Look(s, i, InArray(k))
    case Fail =>
    case Comma(j) => BoundedIs(s, k, j, qty);
    case End(j) =>
      if k.Above? {
        AddItemNodes(k.below, Item(k.name, Tree(k.arr, k.items)));
        BoundedIs(s, Shut(k), j, qty);
      }
    case Put(item, j) =>
      AddItemNodes(k, item);
      LoopCounts(s, AddItem(k, item), j);
      PutIsLeaf(s, i, InArray(k));
      if Nodes(k) < qty {
        BoundedIs(s, AddItem(k, item), j, qty);
      }
    case Open(name, arr, j) =>
      LoopCounts(s, Above(k, arr, name, Nil), j);
      if Nodes(k) < qty {
        BoundedIs(s, Above(k, arr, name, Nil), j, qty);
      }
  }

  lemma PutIsLeaf(s: string, i: nat, arr: bool)
    ensures Look(s, i, arr).Put? ==> Look(s, i, arr).item.value.Leaf?
  {
    hide Decode, GoBlank, Scan;
  }
}
