/** The parser's nodes: a pool filled in document order, threaded by child, last-child and sibling
    links.  While a block is open its sibling link holds the enclosing block instead. */
module JsonNodes {
  import opened Options
  import opened JsonGrammar
  import opened JsonStack

  /** Links are pool indices; name and value are places in the text. */
  datatype Node = Node(kind: Kind, name: Option<nat>, value: nat, child: Option<nat>, last: nat, sibling: Option<nat>)

  type Pool = seq<Node>

  function Place(name: Option<Str>): Option<nat> { match name case None => None case Some(s) => Some(s.at) }

  function BlockKind(arr: bool): Kind { if arr then Arr else Obj }

  function FirstChild(i: nat, items: Items): Option<nat> { if items.Nil? then None else Some(i + 1) }

  /** Node i and the nodes after it are this member, in document order, and sib is its sibling link. */
  predicate Rep(mem: Pool, i: nat, item: Item, sib: Option<nat>)
    decreases item
  {
    && i < |mem| && mem[i].name == Place(item.name) && mem[i].sibling == sib
    && match item.value
       case Leaf(kind, s) => mem[i].kind == kind && mem[i].value == s.at
       case Tree(arr, items) =>
         && mem[i].kind == BlockKind(arr) && mem[i].child == FirstChild(i, items)
         && RepItems(mem, i + 1, items, None)
  }

  /** The nodes from i on are these members in turn, each linked to the next and the last one to after. */
  predicate RepItems(mem: Pool, i: nat, items: Items, after: Option<nat>)
    decreases items
  {
    match items
    case Nil => true
    case Cons(h, t) =>
      var j := i + Count(h.value);
      Rep(mem, i, h, if t.Nil? then after else Some(j)) && RepItems(mem, j, t, after)
  }

  function LastAt(i: nat, items: Items): nat
    decreases items
  {
    match items case Nil => i case Cons(h, t) => if t.Nil? then i else LastAt(i + Count(h.value), t)
  }

  predicate Agree(a: Pool, b: Pool, i: nat, j: nat) {
    |a| == |b| && forall k :: i <= k < j && k < |a| ==> a[k] == b[k]
  }

  lemma {:induction false} RepFrame(a: Pool, b: Pool, i: nat, item: Item, sib: Option<nat>)
    requires Rep(a, i, item, sib) && Agree(a, b, i, i + Count(item.value))
    ensures Rep(b, i, item, sib)
    decreases item
  {
    if item.value.Tree? {
      RepItemsFrame(a, b, i + 1, item.value.items, None);
    }
  }

  lemma {:induction false} RepItemsFrame(a: Pool, b: Pool, i: nat, items: Items, after: Option<nat>)
    requires RepItems(a, i, items, after) && Agree(a, b, i, i + CountItems(items))
    ensures RepItems(b, i, items, after)
    decreases items
  {
    if items.Cons? {
      var j := i + Count(items.head.value);
      RepFrame(a, b, i, items.head, if items.tail.Nil? then after else Some(j));
      RepItemsFrame(a, b, j, items.tail, after);
    }
  }

  lemma {:induction false} LastAtBounds(i: nat, items: Items)
    requires items.Cons?
    ensures i <= LastAt(i, items) < i + CountItems(items)
    decreases items
  {
    if items.tail.Cons? {
      LastAtBounds(i + Count(items.head.value), items.tail);
    }
  }

  /** Only the last member's sibling link changes. */
  lemma {:induction false} RepItemsRelink(a: Pool, b: Pool, i: nat, items: Items, after: Option<nat>)
    requires items.Cons? && RepItems(a, i, items, None) && LastAt(i, items) < |a| == |b|
    requires b[LastAt(i, items)] == a[LastAt(i, items)].(sibling := after)
    requires forall k :: i <= k < i + CountItems(items) && k < |a| && k != LastAt(i, items) ==> a[k] == b[k]
    ensures RepItems(b, i, items, after)
    decreases items
  {
    var h := items.head;
    var j := i + Count(h.value);
    if items.tail.Nil? {
      if h.value.Tree? {
        RepItemsFrame(a, b, i + 1, h.value.items, None);
      }
    } else {
      LastAtBounds(j, items.tail);
      RepFrame(a, b, i, h, Some(j));
      RepItemsRelink(a, b, j, items.tail, after);
    }
  }

  lemma {:induction false} RepItemsSnoc(mem: Pool, i: nat, items: Items, item: Item, j: nat)
    requires j == i + CountItems(items) && RepItems(mem, i, items, Some(j)) && Rep(mem, j, item, None)
    ensures RepItems(mem, i, Append(items, Cons(item, Nil)), None)
    ensures LastAt(i, Append(items, Cons(item, Nil))) == j
    decreases items
  {
    if items.Cons? {
      RepItemsSnoc(mem, i + Count(items.head.value), items.tail, item, j);
    }
  }

  // ------------------------------------------------------------------ the stack in the pool

  /** Where the innermost open block is. */
  function At(k: Stack): nat { match k case Bottom(_) => 0 case Above(b, _, _, _) => Nodes(b) }

  /** An open block: its complete members, then possibly one more node that is its last child. */
  predicate BlockOk(mem: Pool, at: nat, arr: bool, name: Option<Str>, parent: Option<nat>, items: Items,
                    open: Option<nat>)
  {
    && at < |mem| && mem[at].kind == BlockKind(arr) && mem[at].name == Place(name) && mem[at].sibling == parent
    && mem[at].child == (if items.Nil? && open.None? then None else Some(at + 1))
    && (open.Some? ==> mem[at].last == open.value)
    && (open.None? && items.Cons? ==> mem[at].last == LastAt(at + 1, items))
    && RepItems(mem, at + 1, items, open)
  }

  /** The sibling links from the innermost open block are the stack of open blocks, each the last child of the next. */
  predicate StackOk(mem: Pool, k: Stack, open: Option<nat>)
    decreases k
  {
    match k
    case Bottom(items) => BlockOk(mem, 0, false, None, None, items, open)
    case Above(below, arr, name, items) =>
      BlockOk(mem, At(k), arr, name, Some(At(below)), items, open) && StackOk(mem, below, Some(At(k)))
  }

  lemma NodesAt(k: Stack)
    ensures Nodes(k) == At(k) + 1 + CountItems(k.items)
  {
  }

  lemma {:induction false} StackFrame(a: Pool, b: Pool, k: Stack, open: Option<nat>)
    requires StackOk(a, k, open) && Agree(a, b, 0, Nodes(k))
    ensures StackOk(b, k, open)
    decreases k
  {
    NodesAt(k);
    RepItemsFrame(a, b, At(k) + 1, k.items, open);
    if k.Above? {
      StackFrame(a, b, k.below, Some(At(k)));
    }
  }

  /** What add() does to the pool, apart from the new node p itself. */
  predicate Added(a: Pool, b: Pool, obj: nat, p: nat) {
    && |a| == |b| && obj < |a|
    && (a[obj].child.None? ==>
          && b[obj] == a[obj].(child := Some(p), last := p)
          && forall i :: 0 <= i < |a| && i != obj && i != p ==> a[i] == b[i])
    && (a[obj].child.Some? ==>
          var l := a[obj].last;
          && l < |a| && l != obj && b[l] == a[l].(sibling := Some(p)) && b[obj] == a[obj].(last := p)
          && forall i :: 0 <= i < |a| && i != obj && i != l && i != p ==> a[i] == b[i])
  }

  /** After add() the new node is the last child of the innermost open block. */
  lemma AddOpens(a: Pool, b: Pool, k: Stack)
    requires StackOk(a, k, None) && Nodes(k) < |a| && Added(a, b, At(k), Nodes(k))
    ensures StackOk(b, k, Some(Nodes(k)))
  {
    NodesAt(k);
    var at, p := At(k), Nodes(k);
    if k.items.Nil? {
      var name, parent := if k.Above? then k.name else None, if k.Above? then Some(At(k.below)) else None;
      assert BlockOk(b, at, InArray(k), name, parent, k.items, Some(p));
    } else {
      LastAtBounds(at + 1, k.items);
      RepItemsRelink(a, b, at + 1, k.items, Some(p));
    }
    if k.Above? {
      StackFrame(a, b, k.below, Some(at));
    }
  }

  /** A complete last child is a member. */
  lemma MemberCloses(mem: Pool, k: Stack, item: Item)
    requires StackOk(mem, k, Some(Nodes(k))) && Rep(mem, Nodes(k), item, None)
    ensures StackOk(mem, AddItem(k, item), None)
  {
    NodesAt(k);
    RepItemsSnoc(mem, At(k) + 1, k.items, item, Nodes(k));
  }

  /** Taking the parent link out of a block makes it a complete member of the next. */
  lemma ShutOk(a: Pool, b: Pool, k: Stack)
    requires k.Above? && StackOk(a, k, None) && b == a[At(k) := a[At(k)].(sibling := None)]
    ensures StackOk(b, Shut(k), None)
  {
    var at := At(k);
    NodesAt(k);
    StackFrame(a, b, k.below, Some(at));
    RepItemsFrame(a, b, at + 1, k.items, None);
    MemberCloses(b, k.below, Item(k.name, Tree(k.arr, k.items)));
  }

  lemma OpenOk(mem: Pool, k: Stack, arr: bool, name: Option<Str>)
    requires StackOk(mem, k, Some(Nodes(k))) && Nodes(k) < |mem|
    requires var n := mem[Nodes(k)];
      n.kind == BlockKind(arr) && n.name == Place(name) && n.child == None && n.sibling == Some(At(k))
    ensures StackOk(mem, Above(k, arr, name, Nil), None)
  {
  }
}
