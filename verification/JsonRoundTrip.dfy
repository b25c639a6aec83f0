/** Writing a document in any layout and parsing the text gives the document back if and only if it is proper. */
module JsonRoundTrip {
  import opened Options
  import opened Decimal
  import opened JsonText
  import opened JsonNumber
  import opened JsonGrammar
  import opened JsonDoc
  import opened JsonPrint
  import opened JsonLayout

  /** Names are written as they are: such a name is read back. */
  predicate IsName(n: string) { forall i :: 0 <= i < |n| ==> n[i] >= ' ' && n[i] != '"' && n[i] != '\\' }

  /** Names in objects only; integers of 64 bits; text of characters that are plain or have a short escape; real
      numbers written as such. */
  predicate Proper(v: Doc)
    decreases v
  {
    match v
    case DText(s) => CanWriteAll(s)
    case DInt(n) => -INT64_MAX - 1 <= n <= INT64_MAX
    case DReal(t) => IsReal(t)
    case DTree(arr, items) => ProperItems(items, arr)
    case _ => true
  }

  predicate ProperName(name: Option<string>, arr: bool) {
    (name.None? <==> arr) && (name.Some? ==> IsName(name.value))
  }

  predicate ProperItems(items: Docs, arr: bool)
    decreases items
  {
    match items
    case DNil => true
    case DCons(name, v, t) => ProperName(name, arr) && Proper(v) && ProperItems(t, arr)
  }

  // ------------------------------------------------------------------ text at a place

  /** t stands at i. */
  predicate At(s: string, i: nat, t: string) { i + |t| <= |s| && s[i..i + |t|] == t }

  lemma AtSplit(s: string, i: nat, a: string, b: string)
    requires At(s, i, a + b)
    ensures At(s, i, a) && At(s, i + |a|, b)
  {
    assert s[i..i + |a|] == s[i..i + |a + b|][..|a|] == a;
    assert s[i + |a|..i + |a| + |b|] == s[i..i + |a + b|][|a|..] == b;
  }

  lemma AtFirst(s: string, i: nat, t: string)
    requires At(s, i, t) && t != []
    ensures i < |s| && s[i] == t[0]
  {
    assert s[i..i + |t|][0] == s[i];
  }

  lemma AtChar(s: string, i: nat, t: string, k: nat)
    requires At(s, i, t) && k < |t|
    ensures i + k < |s| && s[i + k] == t[k]
  {
    assert s[i..i + |t|][k] == s[i + k];
  }

  // ------------------------------------------------------------------ strings

  lemma QuoteUnit(s: string, i: nat)
    requires At(s, i, "\"")
    ensures UnitAt(s, i) == Quote && Decode(s, i) == Some(Decoded("", i + 1))
  {
    AtFirst(s, i, "\"");
  }

  lemma EscapeParts(text: string, i: nat, stale: Memory)
    requires text != []
    ensures var one := EscapeChar(text[0], i, stale);
      Escape(text, i, stale) + "\"" == one + (Escape(text[1..], i + |one|, stale) + "\"")
  {
    hide EscapeChar;
    var one := EscapeChar(text[0], i, stale);
    var rest := Escape(text[1..], i + |one|, stale);
    assert one + rest + "\"" == one + (rest + "\"");
  }

  lemma EscapeEmpty(i: nat, stale: Memory)
    ensures Escape("", i, stale) + "\"" == "\""
  {
  }

  lemma {:induction false} DecodeEscape(s: string, i: nat, text: string, stale: Memory)
    requires CanWriteAll(text) && At(s, i, Escape(text, i, stale) + "\"")
    ensures Decode(s, i) == Some(Decoded(text, i + |Escape(text, i, stale)| + 1))
    decreases |text|
  {
    hide UnitAt, EscapeChar, CanWrite, At, Escape;
    if text == [] {
      EscapeEmpty(i, stale);
      QuoteUnit(s, i);
    } else {
      var one := EscapeChar(text[0], i, stale);
      var rest := Escape(text[1..], i + |one|, stale) + "\"";
      EscapeParts(text, i, stale);
      AtSplit(s, i, one, rest);
      UnitEscape(s, i, text[0], stale);
      DecodeEscape(s, i + |one|, text[1..], stale);
      assert |Escape(text, i, stale) + "\""| == |one + rest|;
      assert [text[0]] + text[1..] == text;
    }
  }

  lemma UnitEscape(s: string, i: nat, c: char, stale: Memory)
    requires CanWrite(c) && At(s, i, EscapeChar(c, i, stale))
    ensures UnitAt(s, i) == Unit(c, i + |EscapeChar(c, i, stale)|)
  {
    var one := EscapeChar(c, i, stale);
    assert s[i] == s[i..i + |one|][0] == one[0];
    if !Plain(c) {
      assert s[i + 1] == s[i..i + |one|][1] == one[1];
    }
  }

  /** A character in hexadecimal is read as a question mark. */
  lemma UnitHex(s: string, i: nat, c: char, stale: Memory)
    requires !CanWrite(c) && At(s, i, EscapeChar(c, i, stale))
    ensures UnitAt(s, i).Unit? ==> UnitAt(s, i).c != c
  {
    var one := EscapeChar(c, i, stale);
    assert s[i] == s[i..i + |one|][0] == '\\';
    assert s[i + 1] == s[i..i + |one|][1] == 'u';
  }

  /** A text is read back only if each of its characters is plain or has a short escape. */
  lemma {:induction false} TextOnlyIf(s: string, i: nat, text: string, stale: Memory)
    requires At(s, i, Escape(text, i, stale) + "\"") && Decode(s, i).Some? && Decode(s, i).value.text == text
    ensures CanWriteAll(text)
    decreases |text|
  {
    hide UnitAt, EscapeChar, CanWrite, At, Escape;
    if text != [] {
      var one := EscapeChar(text[0], i, stale);
      EscapeParts(text, i, stale);
      AtSplit(s, i, one, Escape(text[1..], i + |one|, stale) + "\"");
      if CanWrite(text[0]) {
        UnitEscape(s, i, text[0], stale);
        assert Decode(s, i + |one|).Some? && Decode(s, i + |one|).value.text == text[1..];
        TextOnlyIf(s, i + |one|, text[1..], stale);
        FirstAndRest(text);
      } else {
        UnitHex(s, i, text[0], stale);
      }
    }
  }

  lemma FirstAndRest(text: string)
    requires text != [] && CanWrite(text[0]) && CanWriteAll(text[1..])
    ensures CanWriteAll(text)
  {
    hide CanWrite;
    forall k | 0 < k < |text|
      ensures CanWrite(text[k])
    {
      assert text[k] == text[1..][k - 1];
    }
  }

  lemma {:induction false} DecodeName(s: string, i: nat, name: string)
    requires IsName(name) && At(s, i, name + "\"")
    ensures Decode(s, i) == Some(Decoded(name, i + |name| + 1))
    decreases |name|
  {
    AtFirst(s, i, name + "\"");
    if name != [] {
      assert name + "\"" == [name[0]] + (name[1..] + "\"");
      AtSplit(s, i, [name[0]], name[1..] + "\"");
      DecodeName(s, i + 1, name[1..]);
      assert UnitAt(s, i) == Unit(name[0], i + 1);
      hide UnitAt;
      assert [name[0]] + name[1..] == name;
    }
  }

  /** A decoded backslash was written as two. */
  lemma UnitBackslash(s: string, i: nat)
    requires UnitAt(s, i).Unit? && UnitAt(s, i).c == '\\'
    ensures UnitAt(s, i).end == i + 2 && CharAt(s, i) == '\\' && CharAt(s, i + 1) == '\\'
  {
  }

  lemma DecodeFirst(s: string, i: nat)
    requires Decode(s, i).Some? && Decode(s, i).value.text != []
    ensures var text := Decode(s, i).value.text;
      && UnitAt(s, i).Unit? && UnitAt(s, i).c == text[0]
      && Decode(s, UnitAt(s, i).end).Some? && Decode(s, UnitAt(s, i).end).value.text == text[1..]
  {
    hide UnitAt;
  }

  /** Decoding halves a run of backslashes, so no name with a run is its own decoding. */
  lemma {:induction false} HalvedRun(s: string, i: nat, name: string, m: nat)
    requires 0 < m && 2 * m <= |name| && At(s, i, name + "\"")
    requires forall k :: 0 <= k < 2 * m ==> name[k] == '\\'
    ensures !(Decode(s, i + 2 * m).Some? && Decode(s, i + 2 * m).value.text == name[m..])
    decreases |name| - 2 * m
  {
    hide UnitAt, Decode, At;
    var j := i + 2 * m;
    if Decode(s, j).Some? && Decode(s, j).value.text == name[m..] {
      AtChar(s, i, name + "\"", 2 * m);
      DecodeFirst(s, j);
      UnitBackslash(s, j);
      AtChar(s, i, name + "\"", 2 * m + 1);
      assert name[m..][1..] == name[m + 1..];
      HalvedRun(s, i, name, m + 1);
    }
  }

  /** A name is read back only if it holds no quote, backslash or control character. */
  lemma {:induction false} NameOnlyIf(s: string, i: nat, name: string)
    requires At(s, i, name + "\"") && Decode(s, i).Some? && Decode(s, i).value.text == name
    ensures IsName(name)
    decreases |name|
  {
    if name != [] {
      NameFirst(s, i, name);
      hide UnitAt, At;
      assert name + "\"" == [name[0]] + (name[1..] + "\"");
      AtSplit(s, i, [name[0]], name[1..] + "\"");
      assert Decode(s, i + 1).Some? && Decode(s, i + 1).value.text == name[1..];
      NameOnlyIf(s, i + 1, name[1..]);
      assert forall k :: 0 < k < |name| ==> name[k] == name[1..][k - 1];
    }
  }

  lemma NameFirst(s: string, i: nat, name: string)
    requires name != [] && At(s, i, name + "\"") && Decode(s, i).Some? && Decode(s, i).value.text == name
    ensures UnitAt(s, i) == Unit(name[0], i + 1) && name[0] >= ' ' && name[0] != '"' && name[0] != '\\'
  {
    hide At;
    AtChar(s, i, name + "\"", 0);
    if name[0] == '\\' {
      UnitBackslash(s, i);
      AtChar(s, i, name + "\"", 1);
      assert name[1..] == Decode(s, i + 2).value.text;
      HalvedRun(s, i, name, 1);
    }
  }

  // ------------------------------------------------------------------ numbers

  /** What may follow a value: a blank, a comma or the end of a block. */
  predicate Follows(s: string, j: nat) { j < |s| && (Space(s[j]) || s[j] in {',', '}', ']'}) }

  lemma WholeShow(s: string, i: nat, n: nat)
    requires At(s, i, Show(n)) && Follows(s, i + |Show(n)|)
    ensures Whole(s, i) == Some(i + |Show(n)|)
  {
    ValueShow(n);
    AtFirst(s, i, Show(n));
    GoNumIs(s, i, i + |Show(n)|);
  }

  lemma ScanWhole(s: string, v: nat, j: nat)
    requires Whole(s, if CharAt(s, v) == '-' then v + 1 else v) == Some(j) && Follows(s, j)
    ensures Scan(s, v) == Some(Literal(true, j))
  {
    hide Whole, Fraction;
  }

  lemma ScanShowInt(s: string, v: nat, n: int)
    requires At(s, v, ShowInt(n)) && Follows(s, v + |ShowInt(n)|)
    ensures Scan(s, v) == Some(Literal(true, v + |ShowInt(n)|))
  {
    hide Scan, Whole, Show, At;
    if n < 0 {
      AtSplit(s, v, "-", Show(-n));
      AtFirst(s, v, "-");
      WholeShow(s, v + 1, -n);
    } else {
      ValueShow(n);
      AtFirst(s, v, Show(n));
      WholeShow(s, v, n);
    }
    ScanWhole(s, v, v + |ShowInt(n)|);
  }

  lemma ShowIntIs(n: int)
    ensures IsInteger(ShowInt(n)) && IntegerValue(ShowInt(n)) == n
  {
    if n < 0 {
      ValueShow(-n);
      assert ShowInt(n)[1..] == Show(-n);
    } else {
      ValueShow(n);
    }
  }

  lemma NumberIs(s: string, v: nat, t: string, integer: bool)
    requires At(s, v, t) && Follows(s, v + |t|) && Scan(s, v) == Some(Literal(integer, v + |t|))
    requires integer ==> Fits(t)
    ensures Number(s, v) == Some(Scalar(Leaf(if integer then Integer else Real, Str(v, t)), After(s, v + |t|)))
  {
    hide Scan, Fits;
  }

  lemma NumberShowInt(s: string, v: nat, n: int)
    requires -INT64_MAX - 1 <= n <= INT64_MAX && At(s, v, ShowInt(n)) && Follows(s, v + |ShowInt(n)|)
    ensures Number(s, v) == Some(Scalar(Leaf(Integer, Str(v, ShowInt(n))), After(s, v + |ShowInt(n)|)))
  {
    hide Scan, Fits, Number, At, ShowInt, IsInteger, IntegerValue;
    ScanShowInt(s, v, n);
    ShowIntIs(n);
    FitsIffInRange(ShowInt(n));
    NumberIs(s, v, ShowInt(n), true);
  }

  // ------------------------------------------------------------------ members

  lemma RealStart(t: string)
    requires IsReal(t)
    ensures t != [] && (t[0] == '-' || IsDigit(t[0]))
  {
    hide Rest;
    assert (t + ",")[0] == if t == [] then ',' else t[0];
  }

  lemma IntStart(n: int)
    ensures ShowInt(n) != [] && (ShowInt(n)[0] == '-' || IsDigit(ShowInt(n)[0]))
  {
    ValueShow(if n < 0 then -n else n);
  }

  /** The value starts with a character that is neither blank, comma, block end nor NUL. */
  lemma StartsValue(d: Doc, p: nat, stale: Memory, l: Layout)
    requires d.DReal? ==> IsReal(d.text)
    ensures var t := ValueText(d, p, stale, l);
      && t != [] && !IsBlank(t[0]) && t[0] !in {',', '}', ']', '\0'}
      && (if d.DTree? then t[0] == Opening(d.arr) else t[0] !in {'{', '['})
      && (d.DText? ==> t[0] == '"')
  {
    hide BodyText, Escape, ShowInt, IsReal;
    if d.DInt? {
      IntStart(d.n);
    } else if d.DReal? {
      RealStart(d.text);
    }
  }

  /** The scalar at v is read as d and ends at j, or behind the blank or comma there. */
  predicate ReadsAs(s: string, v: nat, d: Doc, j: nat) {
    && ScalarAt(s, v).Some? && j < |s|
    && (var r := ScalarAt(s, v).value;
        && r.value.Leaf? && ReadScalar(r.value.kind, r.value.s.text) == Some(d)
        && (r.end == j || ((Space(s[j]) || s[j] == ',') && r.end == j + 1)))
  }

  lemma ReadText(s: string, v: nat, t: string, j: nat, stale: Memory)
    requires CanWriteAll(t) && At(s, v, "\"" + Escape(t, v + 1, stale) + "\"")
    requires j == v + |Escape(t, v + 1, stale)| + 2 && j < |s|
    ensures ReadsAs(s, v, DText(t), j)
  {
    QuoteFirst(s, v, Escape(t, v + 1, stale));
    DecodeEscape(s, v + 1, t, stale);
    hide Decode, Escape, At;
  }

  lemma QuoteFirst(s: string, v: nat, e: string)
    requires At(s, v, "\"" + e + "\"")
    ensures v < |s| && s[v] == '"' && At(s, v + 1, e + "\"")
  {
    hide At;
    assert "\"" + e + "\"" == "\"" + (e + "\"");
    AtSplit(s, v, "\"", e + "\"");
    AtFirst(s, v, "\"");
  }

  lemma ReadWord(s: string, v: nat, word: string, kind: Kind)
    requires word != [] && At(s, v, word) && Follows(s, v + |word|)
    ensures Word(s, v, word, kind) == Some(Scalar(Leaf(kind, Str(v, word)), After(s, v + |word|)))
  {
  }

  lemma ReadBool(s: string, v: nat, b: bool, j: nat)
    requires At(s, v, if b then "true" else "false") && j == v + (if b then 4 else 5) && Follows(s, j)
    ensures ReadsAs(s, v, DBool(b), j)
  {
    hide At, Word;
    var word := if b then "true" else "false";
    AtFirst(s, v, word);
    ReadWord(s, v, word, Boolean);
  }

  lemma ReadNull(s: string, v: nat, j: nat)
    requires At(s, v, "null") && j == v + 4 && Follows(s, j)
    ensures ReadsAs(s, v, DNull, j)
  {
    hide At, Word;
    AtFirst(s, v, "null");
    ReadWord(s, v, "null", Null);
  }

  lemma ReadInt(s: string, v: nat, n: int, j: nat)
    requires -INT64_MAX - 1 <= n <= INT64_MAX && At(s, v, ShowInt(n)) && j == v + |ShowInt(n)| && Follows(s, j)
    ensures ReadsAs(s, v, DInt(n), j)
  {
    hide At, Number, ShowInt, IsInteger, IntegerValue;
    IntStart(n);
    AtFirst(s, v, ShowInt(n));
    NumberShowInt(s, v, n);
    ShowIntIs(n);
  }

  lemma NumberReal(s: string, v: nat, t: string)
    requires IsReal(t) && At(s, v, t) && Follows(s, v + |t|)
    ensures Number(s, v) == Some(Scalar(Leaf(Real, Str(v, t)), After(s, v + |t|)))
  {
    hide Scan, IsReal, Number;
    ScanReal(s, v, v + |t|);
    NumberIs(s, v, t, false);
  }

  lemma ReadReal(s: string, v: nat, t: string, j: nat)
    requires IsReal(t) && At(s, v, t) && j == v + |t| && Follows(s, j)
    ensures ReadsAs(s, v, DReal(t), j)
  {
    hide At, Number, IsReal;
    RealStart(t);
    AtFirst(s, v, t);
    NumberReal(s, v, t);
  }

  /** Every number and word that is accepted, in whatever text, is followed by a blank, a comma or the end of a block;
      the blank or comma is passed over with it, the end of a block is not. */
  lemma PrimitiveEnds(s: string, v: nat)
    requires ScalarAt(s, v).Some? && CharAt(s, v) != '"'
    ensures var r := ScalarAt(s, v).value;
      && r.value.Leaf? && (var e := v + |r.value.s.text|;
          && Follows(s, e) && s[v..e] == r.value.s.text && r.end == if s[e] in {'}', ']'} then e else e + 1)
  {
    hide Scan, Fits, Decode;
  }

  /** A printed scalar is read as that scalar. */
  lemma ReadScalarText(s: string, v: nat, d: Doc, stale: Memory)
    requires Proper(d) && !d.DTree? && At(s, v, TextOf(d, v, stale)) && Follows(s, v + |TextOf(d, v, stale)|)
    ensures ReadsAs(s, v, d, v + |TextOf(d, v, stale)|)
  {
    hide ReadsAs, At, Escape, ShowInt, Follows, IsReal;
    var j := v + |TextOf(d, v, stale)|;
    FollowsInside(s, j);
    match d
    case DText(t) => ReadText(s, v, t, j, stale);
    case DBool(b) => ReadBool(s, v, b, j);
    case DNull => ReadNull(s, v, j);
    case DInt(n) => ReadInt(s, v, n, j);
    case DReal(t) => ReadReal(s, v, t, j);
  }

  lemma FollowsInside(s: string, j: nat)
    requires Follows(s, j)
    ensures j < |s|
  {
  }

  lemma BlankNone(s: string, i: nat)
    requires i < |s| && !IsBlank(s[i]) && s[i] != '\0'
    ensures GoBlank(s, i) == Some(i)
  {
  }

  lemma SpacesSkipped(s: string, i: nat, b: string)
    requires At(s, i, b) && Spaces(b) && i + |b| < |s| && !Space(s[i + |b|]) && s[i + |b|] != '\0'
    ensures GoBlank(s, i) == Some(i + |b|)
  {
    forall k | i <= k < i + |b|
      ensures Space(s[k])
    {
      AtChar(s, i, b, k - i);
    }
    GoBlankIff(s, i, i + |b|);
  }

  lemma QuotedPlaces(s: string, i: nat, q: string, b: string, c: string)
    requires At(s, i, "\"" + (q + (b + (":" + c))))
    ensures var k := i + 1 + |q| + |b|;
      && k < |s| && s[i] == '"' && At(s, i + 1, q) && At(s, i + 1 + |q|, b) && s[k] == ':' && At(s, k + 1, c)
  {
    hide At;
    AtSplit(s, i, "\"", q + (b + (":" + c)));
    AtFirst(s, i, "\"");
    AtSplit(s, i + 1, q, b + (":" + c));
    AtSplit(s, i + 1 + |q|, b, ":" + c);
    AtSplit(s, i + 1 + |q| + |b|, ":", c);
    AtFirst(s, i + 1 + |q| + |b|, ":");
  }

  /** Where the colon behind a name stands. */
  function Colon(n: string, i: nat, l: Layout): nat { i + |n| + 2 + |l.blank(i + |n| + 2)| }

  /** Where the parts of a written name stand. */
  lemma LabelPlaces(s: string, i: nat, n: string, l: Layout)
    requires At(s, i, NameText(Some(n), i, l))
    ensures var k := Colon(n, i, l);
      && k < |s| && s[i] == '"' && At(s, i + 1, n + "\"") && At(s, i + |n| + 2, l.blank(i + |n| + 2)) && s[k] == ':'
      && At(s, k + 1, l.blank(k + 1)) && i + |NameText(Some(n), i, l)| == k + 1 + |l.blank(k + 1)|
  {
    hide At;
    QuotedPlaces(s, i, n + "\"", l.blank(i + |n| + 2), l.blank(Colon(n, i, l) + 1));
  }

  /** The head of a named member, from where its name, colon and value stand. */
  lemma NamedHead(s: string, i: nat, n: string, q: nat, k: nat, v: nat)
    requires i < |s| && s[i] == '"' && Decode(s, i + 1) == Some(Decoded(n, q))
    requires GoBlank(s, q) == Some(k) && s[k] == ':' && GoBlank(s, k + 1) == Some(v)
    ensures HeadAt(s, i, false) == Some(Head(Some(Str(i + 1, n)), v))
  {
    hide Decode, GoBlank;
  }

  /** The head of a written member. */
  lemma HeadText(s: string, i: nat, arr: bool, name: Option<string>, v: nat, l: Layout)
    requires Fair(l) && ProperName(name, arr)
    requires At(s, i, NameText(name, i, l)) && v == i + |NameText(name, i, l)| < |s| && !IsBlank(s[v]) && s[v] != '\0'
    ensures HeadAt(s, i, arr).Some?
    ensures var h := HeadAt(s, i, arr).value; h.at == v && TextName(h.name) == name
    ensures !arr ==> s[i] == '"'
  {
    hide At, Decode, GoBlank, Spaces, Loose;
    if name.Some? {
      var n := name.value;
      LabelPlaces(s, i, n, l);
      hide NameText;
      DecodeName(s, i + 1, n);
      var k := Colon(n, i, l);
      SpacesSkipped(s, i + |n| + 2, l.blank(i + |n| + 2));
      SpacesSkipped(s, k + 1, l.blank(k + 1));
      NamedHead(s, i, n, i + |n| + 2, k, v);
    }
  }

  /** A written member is what stands next. */
  lemma LookText(s: string, i: nat, arr: bool, name: Option<string>, d: Doc, v: nat, stale: Memory, l: Layout)
    requires Fair(l) && ProperName(name, arr) && (d.DReal? ==> IsReal(d.text))
    requires At(s, i, NameText(name, i, l)) && v == i + |NameText(name, i, l)| && At(s, v, ValueText(d, v, stale, l))
    ensures HeadAt(s, i, arr).Some? && v < |s| && s[v] == StartOf(d, v, stale, l)
    ensures var h := HeadAt(s, i, arr).value; h.at == v && TextName(h.name) == name && Look(s, i, arr) == Member(s, h)
  {
    hide ValueText, ProperName, HeadAt, Member, GoBlank, At, NameText, IsReal, Fair;
    StartsValue(d, v, stale, l);
    AtFirst(s, v, ValueText(d, v, stale, l));
    HeadText(s, i, arr, name, v, l);
    BareIsArray(name, arr, i, l);
    BlankNone(s, i);
  }

  lemma BareIsArray(name: Option<string>, arr: bool, i: nat, l: Layout)
    requires ProperName(name, arr)
    ensures arr ==> |NameText(name, i, l)| == 0
  {
  }

  function StartOf(d: Doc, v: nat, stale: Memory, l: Layout): char { CharAt(ValueText(d, v, stale, l), 0) }

  lemma ScalarText(d: Doc, v: nat, stale: Memory, l: Layout)
    requires !d.DTree?
    ensures ValueText(d, v, stale, l) == TextOf(d, v, stale)
  {
    hide TextOf;
  }

  lemma LookScalar(s: string, i: nat, arr: bool, name: Option<string>, d: Doc, v: nat, j: nat, stale: Memory, l: Layout)
    requires Fair(l) && ProperName(name, arr) && Proper(d) && !d.DTree?
    requires At(s, i, NameText(name, i, l)) && v == i + |NameText(name, i, l)| && At(s, v, ValueText(d, v, stale, l))
    requires j == v + |ValueText(d, v, stale, l)| && Follows(s, j)
    ensures Look(s, i, arr).Put?
    ensures var p := Look(s, i, arr);
      && TextName(p.item.name) == name && View(p.item.value) == Some(d) && j < |s|
      && (p.to == j || ((Space(s[j]) || s[j] == ',') && p.to == j + 1))
  {
    hide At, ProperName, Proper, TextOf, HeadAt, Look, ScalarAt, ReadScalar, NameText, IsReal, ValueText, Fair;
    StartsOk(d);
    ScalarText(d, v, stale, l);
    ReadScalarText(s, v, d, stale);
    LookText(s, i, arr, name, d, v, stale, l);
    StartsValue(d, v, stale, l);
  }

  lemma StartsOk(d: Doc)
    requires Proper(d)
    ensures d.DReal? ==> IsReal(d.text)
  {
  }

  lemma LookBlock(s: string, i: nat, arr: bool, name: Option<string>, d: Doc, v: nat, stale: Memory, l: Layout)
    requires Fair(l) && ProperName(name, arr) && d.DTree?
    requires At(s, i, NameText(name, i, l)) && v == i + |NameText(name, i, l)| && At(s, v, ValueText(d, v, stale, l))
    ensures Look(s, i, arr).Open?
    ensures var p := Look(s, i, arr); TextName(p.name) == name && p.arr == d.arr && p.to == v + 1
  {
    hide At, ProperName, ValueText, HeadAt, Look, ScalarAt, NameText, Fair;
    LookText(s, i, arr, name, d, v, stale, l);
    StartsValue(d, v, stale, l);
  }

  // ------------------------------------------------------------------ whole blocks

  /** Reading from i gives these members, and the block ends in front of e. */
  predicate BlockReads(s: string, i: nat, arr: bool, items: Docs, e: nat) {
    && Members(s, i, arr).Some?
    && Members(s, i, arr).value.end == e && ViewItems(Members(s, i, arr).value.items) == Some(items)
  }

  predicate IsRead(s: string, i: nat, arr: bool, items: Docs) {
    Members(s, i, arr).Some? && BlockReads(s, i, arr, items, Members(s, i, arr).value.end)
  }

  lemma EndReads(s: string, i: nat, arr: bool)
    requires i < |s| && s[i] == Closing(arr)
    ensures BlockReads(s, i, arr, DNil, i + 1)
  {
    BlankNone(s, i);
    hide GoBlank, HeadAt;
  }

  /** A blank or comma between members is passed over. */
  lemma SkipOne(s: string, i: nat, arr: bool)
    requires i < |s| && (Space(s[i]) || s[i] == ',')
    ensures Members(s, i, arr) == Members(s, i + 1, arr)
  {
    hide Look;
    if s[i] == ',' {
      LookComma(s, i, arr);
    } else {
      LookBlank(s, i, arr);
    }
  }

  lemma LookComma(s: string, i: nat, arr: bool)
    requires i < |s| && s[i] == ','
    ensures Look(s, i, arr) == Next.Comma(i + 1)
  {
    BlankNone(s, i);
    hide GoBlank, HeadAt, Member;
  }

  lemma LookBlank(s: string, i: nat, arr: bool)
    requires i < |s| && Space(s[i])
    ensures Look(s, i, arr) == Look(s, i + 1, arr)
  {
    assert GoBlank(s, i) == GoBlank(s, i + 1);
    hide GoBlank, HeadAt, Member;
  }

  lemma {:induction false} SkipLoose(s: string, i: nat, g: string, arr: bool)
    requires At(s, i, g) && Loose(g)
    ensures Members(s, i, arr) == Members(s, i + |g|, arr)
    decreases |g|
  {
    hide Members;
    if g != [] {
      AtFirst(s, i, g);
      assert g == [g[0]] + g[1..];
      AtSplit(s, i, [g[0]], g[1..]);
      SkipOne(s, i, arr);
      assert forall k :: 0 <= k < |g[1..]| ==> g[1..][k] == g[k + 1];
      SkipLoose(s, i + 1, g[1..], arr);
    }
  }

  lemma SameReads(s: string, i: nat, j: nat, arr: bool, items: Docs, e: nat)
    requires Members(s, i, arr) == Members(s, j, arr)
    ensures BlockReads(s, i, arr, items, e) <==> BlockReads(s, j, arr, items, e)
    ensures IsRead(s, i, arr, items) <==> IsRead(s, j, arr, items)
  {
    hide Members;
  }

  /** Behind a scalar the reader is where the scalar ends, or past the blank or comma there. */
  lemma ScalarPassed(s: string, j: nat, to: nat, arr: bool)
    requires j < |s| && (to == j || ((Space(s[j]) || s[j] == ',') && to == j + 1))
    ensures Members(s, to, arr) == Members(s, j, arr)
  {
    hide Members;
    if to == j + 1 {
      SkipOne(s, j, arr);
    }
  }

  lemma PutReads(s: string, i: nat, arr: bool, items: Docs, e: nat, to: nat)
    requires items.DCons? && Look(s, i, arr).Put? && Look(s, i, arr).to == to
    requires TextName(Look(s, i, arr).item.name) == items.name && View(Look(s, i, arr).item.value) == Some(items.value)
    ensures BlockReads(s, to, arr, items.tail, e) <==> BlockReads(s, i, arr, items, e)
  {
    hide Look, View;
  }

  lemma OpenReads(s: string, i: nat, arr: bool, items: Docs, e: nat, j: nat)
    requires items.DCons? && items.value.DTree? && Look(s, i, arr).Open?
    requires var p := Look(s, i, arr);
      && TextName(p.name) == items.name && p.arr == items.value.arr
      && BlockReads(s, p.to, p.arr, items.value.items, j)
    ensures BlockReads(s, j, arr, items.tail, e) <==> BlockReads(s, i, arr, items, e)
  {
    hide Look;
    var p := Look(s, i, arr);
    var inner := Members(s, p.to, p.arr).value;
    assert View(Tree(p.arr, inner.items)) == Some(items.value);
    assert Members(s, i, arr) == Before(Item(p.name, Tree(p.arr, inner.items)), Members(s, inner.end, arr));
  }

  /** Where the parts of the first member stand, the gap behind it and the members after that. */
  lemma MemberPlaces(s: string, i: nat, arr: bool, items: Docs, v: nat, j: nat, k: nat, stale: Memory, l: Layout)
    requires Fair(l) && items.DCons? && At(s, i, MembersText(items, arr, i, stale, l))
    requires v == i + |NameText(items.name, i, l)| && j == v + |ValueText(items.value, v, stale, l)|
    requires k == j + |Gap(items.tail, j, l)|
    ensures At(s, i, NameText(items.name, i, l)) && At(s, v, ValueText(items.value, v, stale, l))
    ensures At(s, j, Gap(items.tail, j, l)) && At(s, k, MembersText(items.tail, arr, k, stale, l)) && Follows(s, j)
    ensures i + |MembersText(items, arr, i, stale, l)| == k + |MembersText(items.tail, arr, k, stale, l)|
  {
    hide At, NameText, ValueText, Gap, MembersText, Fair, Follows;
    var a, b := NameText(items.name, i, l), ValueText(items.value, v, stale, l);
    var g, rest := Gap(items.tail, j, l), MembersText(items.tail, arr, k, stale, l);
    MembersFrom(items, arr, i, stale, l, a, b, g, rest);
    AtSplit(s, i, a, b + (g + rest));
    AtSplit(s, v, b, g + rest);
    AtSplit(s, j, g, rest);
    GapFollows(s, j, arr, items.tail, k, stale, l);
  }

  lemma GapFollows(s: string, j: nat, arr: bool, t: Docs, k: nat, stale: Memory, l: Layout)
    requires Fair(l) && At(s, j, Gap(t, j, l)) && k == j + |Gap(t, j, l)|
    requires At(s, k, MembersText(t, arr, k, stale, l))
    ensures Follows(s, j)
  {
    if Gap(t, j, l) == [] {
      assert t.DNil?;
      AtFirst(s, k, [Closing(arr)]);
    } else {
      AtFirst(s, j, Gap(t, j, l));
    }
  }

  lemma GapLoose(t: Docs, j: nat, l: Layout)
    requires Fair(l)
    ensures Loose(Gap(t, j, l)) && Loose(l.loose(j))
  {
  }

  lemma TreeText(d: Doc, v: nat, k: nat, stale: Memory, l: Layout)
    requires d.DTree? && k == v + 1 + |l.loose(v + 1)|
    ensures ValueText(d, v, stale, l) == [Opening(d.arr)] + (l.loose(v + 1) + MembersText(d.items, d.arr, k, stale, l))
  {
    hide MembersText;
  }

  lemma InnerBlock(s: string, v: nat, d: Doc, k: nat, stale: Memory, l: Layout)
    requires Fair(l) && d.DTree? && At(s, v, ValueText(d, v, stale, l)) && k == v + 1 + |l.loose(v + 1)|
    ensures At(s, k, MembersText(d.items, d.arr, k, stale, l))
    ensures v + |ValueText(d, v, stale, l)| == k + |MembersText(d.items, d.arr, k, stale, l)|
    ensures Members(s, v + 1, d.arr) == Members(s, k, d.arr)
  {
    hide At, MembersText, Members, Fair, ValueText, Loose, Gap;
    GapLoose(DNil, v + 1, l);
    TreeText(d, v, k, stale, l);
    var g, rest := l.loose(v + 1), MembersText(d.items, d.arr, k, stale, l);
    AtSplit(s, v, [Opening(d.arr)], g + rest);
    AtSplit(s, v + 1, g, rest);
    SkipLoose(s, v + 1, g, d.arr);
  }

  lemma EmptyMembers(arr: bool, p: nat, stale: Memory, l: Layout)
    ensures MembersText(DNil, arr, p, stale, l) == [Closing(arr)]
  {
  }

  /** A written block is read as its members. */
  lemma {:induction false} BlockIsRead(s: string, i: nat, arr: bool, items: Docs, stale: Memory, l: Layout)
    requires Fair(l) && ProperItems(items, arr) && At(s, i, MembersText(items, arr, i, stale, l))
    ensures BlockReads(s, i, arr, items, i + |MembersText(items, arr, i, stale, l)|)
    decreases items
  {
    hide At, BlockReads, ValueText, NameText, MembersText, Members, Look, View, ProperName, Gap, Fair, Follows;
    if items.DNil? {
      EmptyMembers(arr, i, stale, l);
      AtFirst(s, i, [Closing(arr)]);
      EndReads(s, i, arr);
    } else {
      var d := items.value;
      var v := i + |NameText(items.name, i, l)|;
      var j := v + |ValueText(d, v, stale, l)|;
      var k := j + |Gap(items.tail, j, l)|;
      var e := i + |MembersText(items, arr, i, stale, l)|;
      MemberPlaces(s, i, arr, items, v, j, k, stale, l);
      BlockIsRead(s, k, arr, items.tail, stale, l);
      GapPassed(s, j, arr, items.tail, k, e, l);
      if d.DTree? {
        TreeIsNext(s, i, arr, items, e, v, j, stale, l);
      } else {
        ScalarIsNext(s, i, arr, items, e, v, j, stale, l);
      }
    }
  }

  lemma GapPassed(s: string, j: nat, arr: bool, t: Docs, k: nat, e: nat, l: Layout)
    requires Fair(l) && At(s, j, Gap(t, j, l)) && k == j + |Gap(t, j, l)|
    ensures BlockReads(s, j, arr, t, e) <==> BlockReads(s, k, arr, t, e)
  {
    hide At, Members, BlockReads, Gap, Fair, Loose;
    GapLoose(t, j, l);
    SkipLoose(s, j, Gap(t, j, l), arr);
    SameReads(s, j, k, arr, t, e);
  }

  /** A block is what stands next, and reading goes on behind it. */
  lemma {:induction false} TreeIsNext(s: string, i: nat, arr: bool, items: Docs, e: nat, v: nat, j: nat, stale: Memory,
                                      l: Layout)
    requires Fair(l) && items.DCons? && ProperName(items.name, arr) && items.value.DTree?
    requires ProperItems(items.value.items, items.value.arr)
    requires At(s, i, NameText(items.name, i, l)) && At(s, v, ValueText(items.value, v, stale, l))
    requires v == i + |NameText(items.name, i, l)| && j == v + |ValueText(items.value, v, stale, l)|
    ensures BlockReads(s, j, arr, items.tail, e) <==> BlockReads(s, i, arr, items, e)
    decreases items, 0
  {
    hide At, BlockReads, ValueText, NameText, MembersText, Members, Look, View, ProperName, Fair, ProperItems;
    var d := items.value;
    var k := v + 1 + |l.loose(v + 1)|;
    InnerBlock(s, v, d, k, stale, l);
    BlockIsRead(s, k, d.arr, d.items, stale, l);
    SameReads(s, v + 1, k, d.arr, d.items, j);
    LookBlock(s, i, arr, items.name, d, v, stale, l);
    OpenReads(s, i, arr, items, e, j);
  }

  /** A scalar is what stands next, and reading goes on behind it. */
  lemma ScalarIsNext(s: string, i: nat, arr: bool, items: Docs, e: nat, v: nat, j: nat, stale: Memory, l: Layout)
    requires Fair(l) && items.DCons? && ProperName(items.name, arr) && Proper(items.value) && !items.value.DTree?
    requires At(s, i, NameText(items.name, i, l)) && At(s, v, ValueText(items.value, v, stale, l)) && Follows(s, j)
    requires v == i + |NameText(items.name, i, l)| && j == v + |ValueText(items.value, v, stale, l)|
    ensures BlockReads(s, j, arr, items.tail, e) <==> BlockReads(s, i, arr, items, e)
  {
    hide At, BlockReads, ValueText, NameText, Members, Look, View, ProperName, Proper, Fair, Follows;
    LookScalar(s, i, arr, items.name, items.value, v, j, stale, l);
    var to := Look(s, i, arr).to;
    ScalarPassed(s, j, to, arr);
    SameReads(s, to, j, arr, items.tail, e);
    PutReads(s, i, arr, items, e, to);
  }

  // ------------------------------------------------------------------ only proper documents are read back

  /** What is read is of the parser's making: named in objects only, integers of 64 bits, reals written as such. */
  predicate Readable(items: Docs, arr: bool) {
    items.DCons? ==>
      && (items.name.None? <==> arr)
      && (items.value.DInt? ==> Proper(items.value))
      && (items.value.DReal? ==> IsReal(items.value.text))
  }

  lemma LeafReadable(kind: Kind, text: string)
    requires ParsedLeaf(kind, text) && ReadScalar(kind, text).Some?
    ensures var d := ReadScalar(kind, text).value; (d.DInt? ==> Proper(d)) && (d.DReal? ==> IsReal(d.text))
  {
    if kind == Integer {
      FitsIffInRange(text);
    }
    hide Fits, IsReal;
  }

  lemma ReadsReadable(s: string, i: nat, arr: bool, items: Docs, e: nat)
    requires BlockReads(s, i, arr, items, e)
    ensures Readable(items, arr)
  {
    ParsedMembers(s, i, arr);
    hide Members, IsReal, Fits, ParsedLeaf, ReadScalar;
    var m := Members(s, i, arr).value.items;
    if m.Cons? {
      var h := m.head.value;
      assert View(h) == Some(items.value);
      if h.Leaf? {
        LeafReadable(h.kind, h.s.text);
      } else {
        assert View(h).value.DTree?;
      }
    }
  }

  predicate ScalarIs(s: string, v: nat, d: Doc) {
    ScalarAt(s, v).Some? && View(ScalarAt(s, v).value.value) == Some(d)
  }

  /** The first member read is what stands next, unless a comma does. */
  lemma FirstRead(s: string, i: nat, arr: bool, items: Docs, e: nat)
    requires items.DCons? && BlockReads(s, i, arr, items, e)
    requires i < |s| && !IsBlank(s[i]) && s[i] !in {',', '\0'}
    ensures s[i] != EndChar(arr) && HeadAt(s, i, arr).Some?
    ensures var h := HeadAt(s, i, arr).value;
      && TextName(h.name) == items.name
      && (s[h.at] !in {'{', '['} ==> ScalarIs(s, h.at, items.value))
      && (s[h.at] in {'{', '['} ==> items.value.DTree? && IsRead(s, h.at + 1, items.value.arr, items.value.items))
  {
    BlankNone(s, i);
    hide HeadAt, ScalarAt, GoBlank;
    assert !Look(s, i, arr).Comma? && !Look(s, i, arr).End? && !Look(s, i, arr).Fail?;
    var h := HeadAt(s, i, arr).value;
    assert Look(s, i, arr) == Member(s, h);
    if Look(s, i, arr).Open? {
      var m := Members(s, h.at + 1, s[h.at] == '[').value;
      assert View(Tree(s[h.at] == '[', m.items)) == Some(items.value);
    }
  }

  /** Where the text of the first member starts, nothing is skipped. */
  lemma FirstChar(s: string, i: nat, arr: bool, items: Docs, v: nat, stale: Memory, l: Layout)
    requires items.DCons? && Readable(items, arr) && v == i + |NameText(items.name, i, l)|
    requires At(s, i, NameText(items.name, i, l)) && At(s, v, ValueText(items.value, v, stale, l))
    ensures i < |s| && !IsBlank(s[i]) && s[i] !in {',', '\0'}
  {
    hide At, ValueText, IsReal;
    if items.name.Some? {
      LabelPlaces(s, i, items.name.value, l);
    } else {
      StartsValue(items.value, v, stale, l);
      AtFirst(s, v, ValueText(items.value, v, stale, l));
    }
  }

  /** A member that is read back has a name that can be. */
  lemma FirstName(s: string, i: nat, arr: bool, items: Docs, e: nat, l: Layout)
    requires items.DCons? && Readable(items, arr) && BlockReads(s, i, arr, items, e)
    requires At(s, i, NameText(items.name, i, l)) && i < |s| && !IsBlank(s[i]) && s[i] !in {',', '\0'}
    ensures ProperName(items.name, arr)
  {
    FirstRead(s, i, arr, items, e);
    hide BlockReads, View, Decode, GoBlank, At, ScalarAt, IsReal, NameText;
    if items.name.Some? {
      LabelPlaces(s, i, items.name.value, l);
      NameOnlyIf(s, i + 1, items.name.value);
    }
  }

  /** A scalar that is read back is proper. */
  lemma FirstScalar(s: string, v: nat, d: Doc, stale: Memory)
    requires !d.DTree? && (d.DInt? ==> Proper(d)) && (d.DReal? ==> IsReal(d.text)) && At(s, v, TextOf(d, v, stale))
    requires ScalarIs(s, v, d)
    ensures Proper(d)
  {
    hide At, Escape, IsReal, Decode, Number, Word;
    if d.DText? {
      QuoteFirst(s, v, Escape(d.s, v + 1, stale));
      TextOnlyIf(s, v + 1, d.s, stale);
    }
  }

  /** The first member: its name can be read back, and so can a scalar; a block is read back where it was written. */
  lemma FirstOnlyIf(s: string, i: nat, arr: bool, items: Docs, e: nat, v: nat, stale: Memory, l: Layout)
    requires Fair(l) && items.DCons? && BlockReads(s, i, arr, items, e) && v == i + |NameText(items.name, i, l)|
    requires At(s, i, NameText(items.name, i, l)) && At(s, v, ValueText(items.value, v, stale, l))
    ensures ProperName(items.name, arr)
    ensures !items.value.DTree? ==> Proper(items.value)
    ensures items.value.DTree? ==> IsRead(s, v + 1, items.value.arr, items.value.items)
  {
    hide At, BlockReads, ValueText, TextOf, NameText, View, ProperName, IsReal, HeadAt, ScalarAt, Proper, Look, Member,
      IsRead, Fair, ScalarIs;
    ReadsReadable(s, i, arr, items, e);
    FirstChar(s, i, arr, items, v, stale, l);
    FirstName(s, i, arr, items, e, l);
    FirstRead(s, i, arr, items, e);
    LookText(s, i, arr, items.name, items.value, v, stale, l);
    StartsValue(items.value, v, stale, l);
    if !items.value.DTree? {
      ScalarText(items.value, v, stale, l);
      FirstScalar(s, v, items.value, stale);
    }
  }

  lemma InnerOnlyIf(s: string, v: nat, d: Doc, k: nat, stale: Memory, l: Layout)
    requires Fair(l) && d.DTree? && At(s, v, ValueText(d, v, stale, l)) && k == v + 1 + |l.loose(v + 1)|
    requires IsRead(s, v + 1, d.arr, d.items)
    ensures At(s, k, MembersText(d.items, d.arr, k, stale, l)) && IsRead(s, k, d.arr, d.items)
  {
    hide At, Fair, ValueText, MembersText, Members, IsRead, BlockReads;
    InnerBlock(s, v, d, k, stale, l);
    SameReads(s, v + 1, k, d.arr, d.items, 0);
  }

  /** If a written block is read back, it is proper. */
  lemma {:induction false} BlockOnlyIf(s: string, i: nat, arr: bool, items: Docs, e: nat, stale: Memory, l: Layout)
    requires Fair(l) && At(s, i, MembersText(items, arr, i, stale, l)) && BlockReads(s, i, arr, items, e)
    ensures ProperItems(items, arr)
    decreases items
  {
    hide At, BlockReads, ValueText, NameText, MembersText, ProperName, Gap, Fair, Follows;
    if items.DCons? {
      var d := items.value;
      var v := i + |NameText(items.name, i, l)|;
      var j := v + |ValueText(d, v, stale, l)|;
      var k := j + |Gap(items.tail, j, l)|;
      MemberPlaces(s, i, arr, items, v, j, k, stale, l);
      FirstOnlyIf(s, i, arr, items, e, v, stale, l);
      if d.DTree? {
        var inner := v + 1 + |l.loose(v + 1)|;
        InnerOnlyIf(s, v, d, inner, stale, l);
        BlockOnlyIf(s, inner, d.arr, d.items, Members(s, inner, d.arr).value.end, stale, l);
        TreeIsNext(s, i, arr, items, e, v, j, stale, l);
      } else {
        ScalarIsNext(s, i, arr, items, e, v, j, stale, l);
      }
      GapPassed(s, j, arr, items.tail, k, e, l);
      BlockOnlyIf(s, k, arr, items.tail, e, stale, l);
    }
  }

  // ------------------------------------------------------------------ documents

  lemma RootPlaces(s: string, b: string, block: string, rest: string)
    requires s == b + (['{'] + block) + rest
    ensures |b| < |s| && s[|b|] == '{' && At(s, 0, b) && At(s, |b|, ['{'] + block)
  {
    assert s[0..|b|] == b && s[|b|..|b| + |['{'] + block|] == ['{'] + block;
  }

  predicate DocumentReads(s: string, items: Docs) {
    Document(s).Some? && View(Document(s).value) == Some(DTree(false, items))
  }

  lemma EndIsUnique(s: string, i: nat, arr: bool, items: Docs, e: nat)
    requires BlockReads(s, i, arr, items, e)
    ensures IsRead(s, i, arr, items)
  {
    hide Members;
  }

  lemma DocumentIff(s: string, p: nat, items: Docs)
    requires GoBlank(s, 0) == Some(p) && s[p] == '{'
    ensures DocumentReads(s, items) <==> IsRead(s, p + 1, false, items)
  {
    hide Members, GoBlank;
  }

  lemma DocumentStarts(items: Docs, stale: Memory, l: Layout, rest: string)
    requires Fair(l)
    ensures var s, p := DocumentText(items, stale, l) + rest, |l.blank(0)|;
      && GoBlank(s, 0) == Some(p) && s[p] == '{' && At(s, p, ValueText(DTree(false, items), p, stale, l))
  {
    hide BodyText;
    var s, b := DocumentText(items, stale, l) + rest, l.blank(0);
    RootPlaces(s, b, BodyText(items, false, |b| + 1, stale, l), rest);
    SpacesSkipped(s, 0, b);
  }

  /** For every document, every layout, whatever the memory held before and whatever text follows: parsing gives the
      document back if and only if the document is proper. */
  lemma LaidOutIff(items: Docs, stale: Memory, l: Layout, rest: string)
    requires Fair(l)
    ensures DocumentReads(DocumentText(items, stale, l) + rest, items) <==> ProperItems(items, false)
  {
    hide DocumentText, ValueText, MembersText, BlockReads, At, DocumentReads, ProperItems, GoBlank, Fair, Members,
      IsRead;
    var s, p := DocumentText(items, stale, l) + rest, |l.blank(0)|;
    DocumentStarts(items, stale, l, rest);
    DocumentIff(s, p, items);
    var d := DTree(false, items);
    var k := p + 1 + |l.loose(p + 1)|;
    InnerBlock(s, p, d, k, stale, l);
    SameReads(s, p + 1, k, false, items, 0);
    if ProperItems(items, false) {
      BlockIsRead(s, k, false, items, stale, l);
      EndIsUnique(s, k, false, items, k + |MembersText(items, false, k, stale, l)|);
    }
    if IsRead(s, k, false, items) {
      ReadOnlyIf(s, k, items, stale, l);
    }
  }

  lemma ReadOnlyIf(s: string, k: nat, items: Docs, stale: Memory, l: Layout)
    requires Fair(l) && At(s, k, MembersText(items, false, k, stale, l)) && IsRead(s, k, false, items)
    ensures ProperItems(items, false)
  {
    hide MembersText, BlockReads, At, ProperItems, Fair, Members;
    BlockOnlyIf(s, k, false, items, Members(s, k, false).value.end, stale, l);
  }

  predicate RoundTrips(items: Docs, stale: Memory) {
    DocumentReads(TextOf(DTree(false, items), 0, stale) + "\0", items)
  }

  /** In particular for what the printer writes, with its NUL. */
  lemma RoundTripIff(items: Docs, stale: Memory)
    ensures RoundTrips(items, stale) <==> ProperItems(items, false)
  {
    hide TextOf, DocumentText, DocumentReads, ProperItems, Fair, Compact;
    CompactFair();
    CompactDocument(items, stale);
    LaidOutIff(items, stale, Compact(), "\0");
  }

  function Single(name: string, v: Doc): Docs { DCons(Some(name), v, DNil) }

  /** Documents the printer accepts that do not come back: a quote in a name, a control character without a short
      escape, an unsigned integer above the signed range, the text `%g` makes of a whole number. */
  lemma SomeAreLost(stale: Memory)
    ensures !RoundTrips(Single("\"", DNull), stale)
    ensures !RoundTrips(Single("a", DText([1 as char])), stale)
    ensures !RoundTrips(Single("a", DInt(INT64_MAX + 1)), stale)
    ensures !RoundTrips(Single("a", DReal("3")), stale)
  {
    hide RoundTrips, ProperItems;
    RoundTripIff(Single("\"", DNull), stale);
    RoundTripIff(Single("a", DText([1 as char])), stale);
    RoundTripIff(Single("a", DInt(INT64_MAX + 1)), stale);
    RoundTripIff(Single("a", DReal("3")), stale);
    BadName("\"", 0, DNull);
    BadText("a", [1 as char], 0);
    BadInt("a", INT64_MAX + 1);
    BadReal("a", 3);
    assert ShowInt(3) == "3";
  }

  lemma BadReal(name: string, n: int)
    ensures !ProperItems(Single(name, DReal(ShowInt(n))), false)
  {
    hide ProperName, Scan;
    ScanShowInt(ShowInt(n) + ",", 0, n);
  }

  lemma BadName(name: string, i: nat, v: Doc)
    requires i < |name| && name[i] == '"'
    ensures !ProperItems(Single(name, v), false)
  {
    hide Proper;
  }

  lemma BadText(name: string, text: string, i: nat)
    requires i < |text| && !CanWrite(text[i])
    ensures !ProperItems(Single(name, DText(text)), false)
  {
    hide CanWrite, ProperName;
  }

  lemma BadInt(name: string, n: int)
    requires n > INT64_MAX
    ensures !ProperItems(Single(name, DInt(n)), false)
  {
    hide ProperName;
  }
}
