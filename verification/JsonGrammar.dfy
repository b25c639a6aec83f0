/** The lenient JSON grammar as recursive descent.  Commas may stand anywhere between members; names
    stand in objects only.  The tree keeps for each string the place it is read from. */
module JsonGrammar {
  import opened Options
  import opened JsonText
  import opened JsonNumber

  datatype Kind = Obj | Arr | Text | Boolean | Integer | Real | Null

  /** A string and the place of its first character. */
  datatype Str = Str(at: nat, text: string)

  datatype Json = Leaf(kind: Kind, s: Str) | Tree(arr: bool, items: Items)

  datatype Item = Item(name: Option<Str>, value: Json)

  datatype Items = Nil | Cons(head: Item, tail: Items)

  function Append(a: Items, b: Items): Items {
    match a case Nil => b case Cons(h, t) => Cons(h, Append(t, b))
  }

  lemma AppendNil(a: Items)
    ensures Append(a, Nil) == a
  {
  }

  lemma AppendAssoc(a: Items, b: Items, c: Items)
    ensures Append(Append(a, b), c) == Append(a, Append(b, c))
  {
  }

  // ------------------------------------------------------------------ one step of reading

  /** A primitive swallows the character behind it, unless that closes a block. */
  function After(s: string, e: nat): nat { if IsBlockEnd(CharAt(s, e)) then e else e + 1 }

  datatype Scalar = Scalar(value: Json, end: nat)

  function Word(s: string, v: nat, word: string, kind: Kind): (r: Option<Scalar>)
    requires |word| > 0
    ensures r.Some? ==> v < r.value.end <= |s|
  {
    if v + |word| < |s| && s[v..v + |word|] == word && IsPrimitiveEnd(s[v + |word|]) then
      Some(Scalar(Leaf(kind, Str(v, word)), After(s, v + |word|)))
    else None
  }

  function Number(s: string, v: nat): (r: Option<Scalar>)
    ensures r.Some? ==> v < r.value.end <= |s|
  {
    match Scan(s, v)
    case None => None
    case Some(n) =>
      if IsPrimitiveEnd(CharAt(s, n.end)) && (n.integer ==> Fits(s[v..n.end])) then
        Some(Scalar(Leaf(if n.integer then Integer else Real, Str(v, s[v..n.end])), After(s, n.end)))
      else None
  }

  function ScalarAt(s: string, v: nat): (r: Option<Scalar>)
    ensures r.Some? ==> v < r.value.end <= |s|
  {
    var c := CharAt(s, v);
    if c == '"' then
      match Decode(s, v + 1) case None => None case Some(d) => Some(Scalar(Leaf(Text, Str(v + 1, d.text)), d.end))
    else if c == 't' then Word(s, v, "true", Boolean)
    else if c == 'f' then Word(s, v, "false", Boolean)
    else if c == 'n' then Word(s, v, "null", Null)
    else Number(s, v)
  }

  /** The name of a member and where its value starts. */
  datatype Head = Head(name: Option<Str>, at: nat)

  function HeadAt(s: string, p: nat, arr: bool): (r: Option<Head>)
    requires p < |s|
    ensures r.Some? ==> p <= r.value.at < |s|
  {
    if arr then Some(Head(None, p))
    else if s[p] != '"' then None
    else match Decode(s, p + 1)
      case None => None
      case Some(d) =>
        match GoBlank(s, d.end)
        case None => None
        case Some(q) =>
          if s[q] != ':' then None
          else match GoBlank(s, q + 1)
            case None => None
            case Some(v) => Some(Head(Some(Str(p + 1, d.text)), v))
  }

  function EndChar(arr: bool): char { if arr then ']' else '}' }

  /** What stands next inside a block: nothing valid, a comma, the end of the block, the start of an inner block, or
      a whole scalar member. */
  datatype Next =
    | Fail | Comma(to: nat) | End(to: nat) | Open(name: Option<Str>, arr: bool, to: nat) | Put(item: Item, to: nat)

  function Member(s: string, h: Head): (n: Next)
    requires h.at < |s|
    ensures !n.Fail? ==> h.at < n.to <= |s|
    ensures n.Fail? || n.Open? || n.Put?
  {
    if s[h.at] == '{' || s[h.at] == '[' then Open(h.name, s[h.at] == '[', h.at + 1)
    else match ScalarAt(s, h.at) case None => Fail case Some(v) => Put(Item(h.name, v.value), v.end)
  }

  function Look(s: string, i: nat, arr: bool): (n: Next)
    ensures !n.Fail? ==> i < n.to <= |s|
  {
    match GoBlank(s, i)
    case None => Fail
    case Some(p) =>
      if s[p] == ',' then Comma(p + 1)
      else if s[p] == EndChar(arr) then End(p + 1)
      else match HeadAt(s, p, arr) case None => Fail case Some(h) => Member(s, h)
  }

  // ------------------------------------------------------------------ recursive descent

  datatype Parsed = Parsed(items: Items, end: nat)

  function Before(item: Item, rest: Option<Parsed>): Option<Parsed> {
    match rest case None => None case Some(m) => Some(Parsed(Cons(item, m.items), m.end))
  }

  /** The members of a block from i on, up to and over its end. */
  function Members(s: string, i: nat, arr: bool): (r: Option<Parsed>)
    ensures r.Some? ==> i < r.value.end <= |s|
    decreases |s| - i
  {
    match Look(s, i, arr)
    case Fail => None
    case Comma(j) => Members(s, j, arr)
    case End(j) => Some(Parsed(Nil, j))
    case Put(item, j) => Before(item, Members(s, j, arr))
    case Open(name, a, j) =>
      match Members(s, j, a)
      case None => None
      case Some(inner) => Before(Item(name, Tree(a, inner.items)), Members(s, inner.end, arr))
  }

  /** A document: blanks, then an object. */
  function Document(s: string): Option<Json> {
    match GoBlank(s, 0)
    case None => None
    case Some(p) =>
      if s[p] != '{' then None
      else match Members(s, p + 1, false) case None => None case Some(m) => Some(Tree(false, m.items))
  }
}
