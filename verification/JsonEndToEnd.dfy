/** Printer and parser together, on a real buffer and pool. */
module JsonEndToEnd {
  import opened Options
  import opened JsonGrammar
  import opened JsonStack
  import opened JsonNodes
  import opened JsonBuffer
  import opened JsonDoc
  import opened JsonReader
  import opened JsonPrint
  import opened JsonLayout
  import opened JsonRoundTrip
  import P = JsonParser

  function DocNodes(v: Doc): nat { match v case DTree(_, items) => 1 + DocsNodes(items) case _ => 1 }

  function DocsNodes(items: Docs): nat { match items case DNil => 0 case DCons(_, v, t) => DocNodes(v) + DocsNodes(t) }

  lemma {:induction false} ViewCounts(v: Json)
    requires View(v).Some?
    ensures Count(v) == DocNodes(View(v).value)
    decreases v
  {
    if v.Tree? {
      ViewItemsCounts(v.items);
    }
  }

  lemma {:induction false} ViewItemsCounts(items: Items)
    requires ViewItems(items).Some?
    ensures CountItems(items) == DocsNodes(ViewItems(items).value)
    decreases items
  {
    if items.Cons? {
      ViewCounts(items.head.value);
      ViewItemsCounts(items.tail);
    }
  }

  /** The root of a tree that reads as this document has this many nodes. */
  lemma DocumentCounts(text: string, items: Docs)
    requires DocumentReads(text, items)
    ensures Count(Document(text).value) == 1 + DocsNodes(items)
  {
    hide Document, View;
    ViewCounts(Document(text).value);
  }

  /** Parse a document in any layout, with any text behind it, into the pool, and read the result back by links and C
      strings: it is the document if and only if the document is proper and its nodes fit the pool. */
  method ParseLaidOut(ghost items: Docs, ghost stale: Memory, ghost l: Layout, ghost rest: string, buf: array<char>,
                      mem: array<Node>)
    returns (parser: P.Parser, ok: bool, ghost tree: Json)
    requires Fair(l) && buf[..] == DocumentText(items, stale, l) + rest
    requires buf.Length >= 1 && buf[buf.Length - 1] == '\0' && mem.Length >= 1
    modifies buf, mem
    ensures parser.mem == mem && parser.buf == buf
    ensures ok && ReadNode(mem[..], buf[..], 0) == Some(DTree(false, items)) <==>
            ProperItems(items, false) && mem.Length >= 1 + DocsNodes(items)
    ensures ProperItems(items, false) ==> (ok <==> mem.Length >= 1 + DocsNodes(items))
    ensures ok ==>
      && tree.Tree? && Rep(mem[..], 0, Item(None, tree), None)
      && (exists end :: HeldItems(buf[..], end, false, tree.items))
      && ReadNode(mem[..], buf[..], 0) == View(tree)
  {
    hide DocumentText, Document, View, Rep, HeldItems, ReadNode, ProperItems, Fair;
    LaidOutIff(items, stale, l, rest);
    ghost var text := buf[..];
    parser := new P.Parser(buf, mem);
    ok := parser.Create();
    tree := if ok then Document(text).value else Tree(false, Nil);
    if DocumentReads(text, items) {
      DocumentCounts(text, items);
    }
  }

  /** Print a document over any old memory, parse the text into the pool, and read the result back. */
  method PrintThenParse(items: Docs, stale: Memory, mem: array<Node>)
    returns (parser: P.Parser, ok: bool, ghost tree: Json)
    requires AllCStrings(items) && mem.Length >= 1
    modifies mem
    ensures parser.mem == mem
    ensures ok && ReadNode(mem[..], parser.buf[..], 0) == Some(DTree(false, items)) <==>
            ProperItems(items, false) && mem.Length >= 1 + DocsNodes(items)
    ensures ProperItems(items, false) ==> (ok <==> mem.Length >= 1 + DocsNodes(items))
    ensures ok ==>
      && tree.Tree? && Rep(mem[..], 0, Item(None, tree), None)
      && (exists end :: HeldItems(parser.buf[..], end, false, tree.items))
      && ReadNode(mem[..], parser.buf[..], 0) == View(tree)
  {
    hide TextOf, Joined, Document, View, Rep, HeldItems, ReadNode, ProperItems, AllCStrings, DocumentText,
      Fair, Compact;
    CompactFair();
    CompactDocument(items, stale);
    var writer := new Writer(stale);
    writer.Document(items);
    var text := writer.text + "\0";
    var buf := new char[|text|](i requires 0 <= i < |text| => text[i]);
    assert buf[..] == text;
    parser, ok, tree := ParseLaidOut(items, stale, Compact(), "\0", buf, mem);
  }
}
