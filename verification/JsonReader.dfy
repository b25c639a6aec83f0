/** Reading a parsed document the way its users do: following links in the pool and C strings in the text. */
module JsonReader {
  import opened Options
  import opened JsonText
  import opened JsonGrammar
  import opened JsonStack
  import opened JsonNodes
  import opened JsonBuffer
  import opened JsonDoc

  /** The C string at i. */
  function CString(s: string, i: nat): string
    decreases |s| - i
  {
    if CharAt(s, i) == '\0' then "" else [s[i]] + CString(s, i + 1)
  }

  lemma {:induction false} CStringIs(s: string, i: nat, e: nat)
    requires i <= e < |s| && s[e] == '\0' && forall k :: i <= k < e ==> s[k] != '\0'
    ensures CString(s, i) == s[i..e]
    decreases e - i
  {
    if i < e {
      CStringIs(s, i + 1, e);
      assert s[i..e] == [s[i]] + s[i + 1..e];
    }
  }

  /** A finished string is what a reader of C strings finds at its place. */
  lemma HeldReads(buf: string, p: nat, s: Str)
    requires Held(buf, p, false, s) && '\0' !in s.text
    ensures CString(buf, s.at) == s.text
  {
    var e := s.at + |s.text|;
    forall k | s.at <= k < e
      ensures buf[k] != '\0'
    {
      assert buf[k] == buf[s.at..e][k - s.at];
    }
    CStringIs(buf, s.at, e);
  }

  function ReadName(buf: string, name: Option<nat>): Option<string> {
    match name case None => None case Some(at) => Some(CString(buf, at))
  }

  /** Node i as a value: a block by way of its child link, a scalar by its text. */
  function ReadNode(mem: Pool, buf: string, i: nat): Option<Doc>
    decreases |mem| - i, 1
  {
    if i >= |mem| then None
    else if mem[i].kind == Obj || mem[i].kind == Arr then
      match ReadList(mem, buf, mem[i].child, i) case None => None case Some(d) => Some(DTree(mem[i].kind == Arr, d))
    else ReadScalar(mem[i].kind, CString(buf, mem[i].value))
  }

  /** The members from a link on, each by way of the sibling link of the one before; links only lead on. */
  function ReadList(mem: Pool, buf: string, link: Option<nat>, from: nat): Option<Docs>
    decreases |mem| - from, 0
  {
    match link
    case None => Some(DNil)
    case Some(j) =>
      if !(from < j < |mem|) then None
      else match ReadNode(mem, buf, j)
        case None => None
        case Some(v) =>
          match ReadList(mem, buf, mem[j].sibling, j)
          case None => None
          case Some(d) => Some(DCons(ReadName(buf, mem[j].name), v, d))
  }

  lemma NameReads(buf: string, p: nat, name: Option<Str>, arr: bool)
    requires HeldName(buf, p, false, name) && ParsedName(name, arr)
    ensures ReadName(buf, Place(name)) == TextName(name)
  {
    hide Held;
    if name.Some? {
      HeldReads(buf, p, name.value);
    }
  }

  /** A member in the pool whose strings are finished is read as what it says. */
  lemma {:induction false} NodeReads(mem: Pool, buf: string, p: nat, i: nat, item: Item, sib: Option<nat>)
    requires Rep(mem, i, item, sib) && HeldItem(buf, p, false, item) && ParsedValue(item.value)
    ensures ReadNode(mem, buf, i) == View(item.value)
    decreases item
  {
    hide Held, CString, ReadScalar;
    match item.value
    case Leaf(kind, s) => HeldReads(buf, p, s);
    case Tree(arr, items) => ListReads(mem, buf, p, i + 1, items, arr, i);
  }

  lemma {:induction false} ListReads(mem: Pool, buf: string, p: nat, i: nat, items: Items, arr: bool, from: nat)
    requires RepItems(mem, i, items, None) && HeldItems(buf, p, false, items) && ParsedItems(items, arr) && from < i
    ensures ReadList(mem, buf, if items.Nil? then None else Some(i), from) == ViewItems(items)
    decreases items
  {
    hide Held, CString, ReadScalar, ParsedName, ReadName;
    if items.Cons? {
      var h, j := items.head, i + Count(items.head.value);
      NodeReads(mem, buf, p, i, h, if items.tail.Nil? then None else Some(j));
      NameReads(buf, p, h.name, arr);
      ListReads(mem, buf, p, j, items.tail, arr, i);
    }
  }

  /** The root of a parsed document. */
  lemma RootReads(mem: Pool, buf: string, p: nat, t: Json)
    requires t.Tree? && Rep(mem, 0, Item(None, t), None)
    requires HeldItems(buf, p, false, t.items) && ParsedItems(t.items, t.arr)
    ensures ReadNode(mem, buf, 0) == View(t)
  {
    hide Held, CString;
    NodeReads(mem, buf, p, 0, Item(None, t), None);
  }
}
