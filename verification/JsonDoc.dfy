/** What a document says, apart from where its strings stand. */
module JsonDoc {
  import opened Options
  import opened JsonText
  import opened JsonNumber
  import opened JsonGrammar

  /** A real is kept as its text. */
  datatype Doc =
    | DText(s: string) | DBool(b: bool) | DNull | DInt(n: int) | DReal(text: string)
    | DTree(arr: bool, items: Docs)

  datatype Docs = DNil | DCons(name: Option<string>, value: Doc, tail: Docs)

  function TextName(name: Option<Str>): Option<string> {
    match name case None => None case Some(s) => Some(s.text)
  }

  /** A scalar as the accessors read it. */
  function ReadScalar(kind: Kind, text: string): Option<Doc> {
    match kind
    case Text => Some(DText(text))
    case Boolean => Some(DBool(CharAt(text, 0) == 't'))
    case Null => Some(DNull)
    case Integer => if IsInteger(text) then Some(DInt(IntegerValue(text))) else None
    case Real => Some(DReal(text))
    case _ => None
  }

  function View(v: Json): Option<Doc>
    decreases v
  {
    match v
    case Leaf(kind, s) => ReadScalar(kind, s.text)
    case Tree(arr, items) => match ViewItems(items) case None => None case Some(d) => Some(DTree(arr, d))
  }

  function ViewItems(items: Items): Option<Docs>
    decreases items
  {
    match items
    case Nil => Some(DNil)
    case Cons(h, t) =>
      match View(h.value)
      case None => None
      case Some(v) => match ViewItems(t) case None => None case Some(d) => Some(DCons(TextName(h.name), v, d))
  }

  // ------------------------------------------------------------------ what a parsed tree looks like

  /** A scalar as the parser makes it. */
  predicate ParsedLeaf(kind: Kind, text: string) {
    && kind != Obj && kind != Arr && '\0' !in text
    && (kind == Integer ==> IsInteger(text) && Fits(text))
    && (kind == Real ==> IsReal(text))
  }

  predicate ParsedName(name: Option<Str>, arr: bool) {
    (name.None? <==> arr) && (name.Some? ==> '\0' !in name.value.text)
  }

  /** Members as the parser makes them: named in objects only, without NUL, numbers tested. */
  predicate ParsedItems(items: Items, arr: bool)
    decreases items
  {
    match items
    case Nil => true
    case Cons(h, t) => ParsedName(h.name, arr) && ParsedValue(h.value) && ParsedItems(t, arr)
  }

  predicate ParsedValue(v: Json)
    decreases v
  {
    match v case Leaf(kind, s) => ParsedLeaf(kind, s.text) case Tree(arr, items) => ParsedItems(items, arr)
  }

  lemma {:induction false} DecodeNoNul(s: string, i: nat)
    ensures Decode(s, i).Some? ==> '\0' !in Decode(s, i).value.text
    decreases |s| - i
  {
    match UnitAt(s, i)
    case Bad =>
    case Quote =>
    case Unit(_, j) => DecodeNoNul(s, j);
  }

  lemma ParsedNumber(s: string, v: nat)
    ensures Number(s, v).Some? ==> Number(s, v).value.value.Leaf? && ParsedValue(Number(s, v).value.value)
  {
    hide Fits;
    if Number(s, v).Some? {
      var n := Scan(s, v).value;
      ScanNoNul(s, v);
      ScanReal(s, v, n.end);
      if n.integer {
        ScanInteger(s, v);
      }
    }
  }

  lemma ParsedWord(s: string, v: nat, word: string, kind: Kind)
    requires word != [] && '\0' !in word && (kind == Boolean || kind == Null)
    ensures var r := Word(s, v, word, kind); r.Some? ==> r.value.value.Leaf? && ParsedValue(r.value.value)
  {
  }

  lemma ParsedScalar(s: string, v: nat)
    ensures ScalarAt(s, v).Some? ==> ScalarAt(s, v).value.value.Leaf? && ParsedValue(ScalarAt(s, v).value.value)
  {
    hide Number, Word, Decode, Fits, IsInteger, IsReal;
    DecodeNoNul(s, v + 1);
    ParsedNumber(s, v);
    ParsedWord(s, v, "true", Boolean);
    ParsedWord(s, v, "false", Boolean);
    ParsedWord(s, v, "null", Null);
  }

  lemma ParsedHead(s: string, p: nat, arr: bool)
    requires p < |s|
    ensures HeadAt(s, p, arr).Some? ==> ParsedName(HeadAt(s, p, arr).value.name, arr)
  {
    hide Decode, GoBlank;
    DecodeNoNul(s, p + 1);
  }

  lemma ParsedLook(s: string, i: nat, arr: bool)
    ensures var n := Look(s, i, arr);
      && (n.Put? ==> ParsedName(n.item.name, arr) && ParsedValue(n.item.value))
      && (n.Open? ==> ParsedName(n.name, arr))
  {
    hide HeadAt, ScalarAt, GoBlank, ParsedName, ParsedLeaf;
    if GoBlank(s, i).Some? {
      var p := GoBlank(s, i).value;
      ParsedHead(s, p, arr);
      if HeadAt(s, p, arr).Some? {
        ParsedScalar(s, HeadAt(s, p, arr).value.at);
      }
    }
  }

  /** Whatever the text, the members read are such members. */
  lemma {:induction false} ParsedMembers(s: string, i: nat, arr: bool)
    ensures Members(s, i, arr).Some? ==> ParsedItems(Members(s, i, arr).value.items, arr)
    decreases |s| - i
  {
    hide Look, ParsedName, ParsedLeaf;
    ParsedLook(s, i, arr);
    match Look(s, i, arr)
    case Fail =>
    case End(_) =>
    case Comma(j) => ParsedMembers(s, j, arr);
    case Put(_, j) => ParsedMembers(s, j, arr);
    case Open(_, a, j) =>
      ParsedMembers(s, j, a);
      if Members(s, j, a).Some? {
        ParsedMembers(s, Members(s, j, a).value.end, arr);
      }
  }
}
