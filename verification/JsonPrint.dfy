/** The JSON printer: each call appends to the text written so far and leaves a comma behind it.

    A control character without a short escape is written as `\u00XX`, and then the printer steps over one more
    character than it wrote: the text keeps there what the destination memory held before. */
module JsonPrint {
  import opened Options
  import opened Decimal
  import opened JsonText
  import opened JsonDoc

  /** The letter that escapes a character, if it has a short escape. */
  function EscapeLetter(c: char): Option<char> {
    if c == '"' || c == '\\' || c == '/' then Some(c)
    else if c == BS then Some('b')
    else if c == FF then Some('f')
    else if c == '\n' then Some('n')
    else if c == '\r' then Some('r')
    else if c == '\t' then Some('t')
    else None
  }

  /** Characters that need no escape, and characters that have one. */
  predicate Plain(c: char) { c >= ' ' && c != '"' && c != '\\' && c != '/' }

  predicate CanWrite(c: char) { Plain(c) || EscapeLetter(c).Some? }

  predicate CanWriteAll(s: string) { forall i :: 0 <= i < |s| ==> CanWrite(s[i]) }

  /** What the destination held before anything was written, by place. */
  type Memory = nat -> char

  function HexDigit(n: nat): char { if n % 16 < 10 then '0' + (n % 16) as char else 'A' + (n % 16 - 10) as char }

  /** A character written at place p. */
  function EscapeChar(c: char, p: nat, stale: Memory): string {
    if Plain(c) then [c]
    else match EscapeLetter(c)
      case Some(e) => ['\\', e]
      case None => ['\\', 'u', '0', '0', HexDigit(c as nat / 16), HexDigit(c as nat), stale(p + 6)]
  }

  function Escape(s: string, p: nat, stale: Memory): string
    decreases |s|
  {
    if s == [] then "" else
      var one := EscapeChar(s[0], p, stale);
      one + Escape(s[1..], p + |one|, stale)
  }

  function ShowInt(n: int): string { if n < 0 then "-" + Show(-n) else Show(n) }

  /** The name in front of a value. */
  function Label(name: Option<string>): string {
    match name case None => "" case Some(n) => "\"" + n + "\":"
  }

  function Opening(arr: bool): char { if arr then '[' else '{' }

  function Closing(arr: bool): char { if arr then ']' else '}' }

  /** Names and texts are C strings. */
  predicate CStrings(v: Doc)
    decreases v
  {
    match v
    case DText(s) => '\0' !in s
    case DReal(t) => '\0' !in t
    case DTree(_, items) => AllCStrings(items)
    case _ => true
  }

  predicate AllCStrings(items: Docs)
    decreases items
  {
    match items
    case DNil => true
    case DCons(name, v, t) => (name.Some? ==> '\0' !in name.value) && CStrings(v) && AllCStrings(t)
  }

  /** The compact text of a value written at place p. */
  function TextOf(v: Doc, p: nat, stale: Memory): string
    decreases v
  {
    match v
    case DText(s) => "\"" + Escape(s, p + 1, stale) + "\""
    case DBool(b) => if b then "true" else "false"
    case DNull => "null"
    case DInt(n) => ShowInt(n)
    case DReal(t) => t
    case DTree(arr, items) => [Opening(arr)] + Joined(items, p + 1, stale) + [Closing(arr)]
  }

  /** Members separated by commas. */
  function Joined(items: Docs, p: nat, stale: Memory): string
    decreases items
  {
    match items
    case DNil => ""
    case DCons(name, v, t) =>
      var front := Label(name) + TextOf(v, p + |Label(name)|, stale);
      front + if t.DNil? then "" else "," + Joined(t, p + |front| + 1, stale)
  }

  /** Closing a block takes back the comma behind its last member. */
  function WithoutComma(text: string): string {
    if text != [] && text[|text| - 1] == ',' then text[..|text| - 1] else text
  }

  function Comma(items: Docs): string { if items.DNil? then "" else "," }

  lemma ClosedText(before: string, open: char, inner: string, close: char)
    ensures before + [open] + inner + [close, ','] == before + ([open] + inner + [close]) + ","
  {
  }

  lemma QuotedName(before: string, n: string)
    ensures before + "\"" + n + "\":\"" == before + ("\"" + n + "\":") + "\""
  {
  }

  lemma QuotedText(before: string, written: string)
    ensures before + "\"" + written + "\"," == before + ("\"" + written + "\"") + ","
  {
  }

  lemma MembersEnd(before: string, open: char, inner: string, items: Docs)
    requires open != ',' && (items.DNil? ==> inner == "")
    ensures WithoutComma(before + [open] + inner + Comma(items)) == before + [open] + inner
  {
    var text := before + [open] + inner + Comma(items);
    if items.DNil? {
      assert text == before + [open];
    } else {
      assert text[..|text| - 1] == before + [open] + inner;
    }
  }

  lemma EmptyJoined(items: Docs, p: nat, stale: Memory)
    ensures items.DNil? ==> Joined(items, p, stale) == ""
  {
  }

  lemma StringsInside(v: Doc)
    requires CStrings(v)
    ensures (v.DText? ==> '\0' !in v.s) && (v.DTree? ==> AllCStrings(v.items))
  {
  }

  /** What Close makes of a block's opening, its members and their commas. */
  lemma BlockDone(front: string, arr: bool, items: Docs, stale: Memory)
    ensures WithoutComma(front + [Opening(arr)] + Joined(items, |front + [Opening(arr)]|, stale) + Comma(items)) +
            [Closing(arr), ','] == front + TextOf(DTree(arr, items), |front|, stale) + ","
  {
    EmptyJoined(items, |front| + 1, stale);
    hide Joined;
    var inner := Joined(items, |front| + 1, stale);
    MembersEnd(front, Opening(arr), inner, items);
    hide WithoutComma;
    ClosedText(front, Opening(arr), inner, Closing(arr));
  }

  lemma MembersOn(before: string, front: string, text: string, rest: string, t: Docs)
    requires t.DNil? ==> rest == ""
    ensures before + front + text + "," + rest + Comma(t) ==
            before + (front + text + if t.DNil? then "" else "," + rest) + ","
  {
    if t.DNil? {
      assert before + front + text + "," + rest + Comma(t) == before + front + text + ",";
      assert front + text + "" == front + text;
    }
  }

  /** One more character, and the rest as it will then be written. */
  lemma EscapeStep(src: string, i: nat, text: string, stale: Memory)
    requires i < |src|
    ensures text + Escape(src[i..], |text|, stale) ==
            var now := text + EscapeChar(src[i], |text|, stale); now + Escape(src[i + 1..], |now|, stale)
  {
    hide EscapeChar;
    assert src[i..][0] == src[i] && src[i..][1..] == src[i + 1..];
    var one := EscapeChar(src[i], |text|, stale);
    var rest := Escape(src[i + 1..], |text| + |one|, stale);
    assert text + (one + rest) == text + one + rest;
  }

  const HEX := "0123456789ABCDEF"

  /** A control character without a short escape takes seven places: `\\u00`, its code in two upper-case hexadecimal
      digits, and one place that keeps the old memory.  Every other character takes one place or two. */
  lemma EscapePlaces(c: char, p: nat, stale: Memory)
    ensures var one := EscapeChar(c, p, stale);
      if c < '\U{20}' && c !in ['\U{08}', '\U{0C}', '\n', '\r', '\t'] then
        one == "\\u00" + [HEX[c as nat / 16], HEX[c as nat % 16], stale(p + 6)]
      else if c in ['"', '\\', '/'] then one == ['\\', c]
      else c >= '\U{20}' ==> one == [c]
  {
    if c < '\U{20}' {
      HexDigitIs(c as nat / 16);
      HexDigitIs(c as nat);
    }
    hide HexDigit;
  }

  lemma HexDigitIs(n: nat)
    ensures HexDigit(n) == HEX[n % 16]
  {
  }

  lemma EscapeNothing(src: string, p: nat, stale: Memory)
    ensures Escape(src[|src|..], p, stale) == ""
  {
    assert src[|src|..] == [];
  }

  /** The text being written.  dest points behind its last character. */
  class Writer {
    var text: string
    const stale: Memory

    constructor (stale: Memory)
      ensures text == "" && this.stale == stale
    {
      text := "";
      this.stale := stale;
    }

    method Chtoa(c: char)
      modifies this
      ensures text == old(text) + [c]
    {
      text := text + [c];
    }

    method Atoa(src: string)
      modifies this
      ensures text == old(text) + src
    {
      var i := 0;
      while i < |src|
        invariant 0 <= i <= |src| && text == old(text) + src[..i]
      {
        text := text + [src[i]];
        assert src[..i + 1] == src[..i] + [src[i]];
        i := i + 1;
      }
      assert src[..i] == src;
    }

    /** A comma just written is taken back. */
    method DropComma()
      modifies this
      ensures text == WithoutComma(old(text))
    {
      if |text| > 0 && text[|text| - 1] == ',' {
        text := text[..|text| - 1];
      }
    }

    method PrimitiveName(name: Option<string>)
      modifies this
      ensures text == old(text) + Label(name)
    {
      if name.None? {
        return;
      }
      Chtoa('"');
      Atoa(name.value);
      Atoa("\":");
    }

    method Open(arr: bool, name: Option<string>)
      modifies this
      ensures text == old(text) + Label(name) + [Opening(arr)]
    {
      if name.None? {
        Chtoa(Opening(arr));
      } else {
        Chtoa('"');
        Atoa(name.value);
        Atoa("\":" + [Opening(arr)]);
      }
    }

    method Close(arr: bool)
      modifies this
      ensures text == WithoutComma(old(text)) + [Closing(arr), ',']
    {
      DropComma();
      Atoa([Closing(arr), ',']);
    }

    method Atoesc(src: string)
      requires '\0' !in src
      modifies this
      ensures text == old(text) + Escape(src, |old(text)|, stale)
    {
      hide Escape;
      var i := 0;
      assert src[0..] == src;
      while i < |src|
        invariant 0 <= i <= |src|
        invariant text + Escape(src[i..], |text|, stale) == old(text) + Escape(src, |old(text)|, stale)
      {
        EscapeStep(src, i, text, stale);
        WriteChar(src[i]);
        i := i + 1;
      }
      EscapeNothing(src, |text|, stale);
    }

    /** One character of the loop: as it is, with a short escape, or in hexadecimal with a place left out behind it. */
    method WriteChar(c: char)
      requires c != '\0'
      modifies this
      ensures text == old(text) + EscapeChar(c, |old(text)|, stale)
    {
      if c >= ' ' && c != '"' && c != '\\' && c != '/' {
        text := text + [c];
        return;
      }
      text := text + ['\\'];
      var e := EscapeLetter(c);
      if e.Some? {
        text := text + [e.value];
      } else {
        text := text + ['u'];
        text := text + ['0'];
        text := text + ['0'];
        text := text + [HexDigit(c as nat / 16)];
        text := text + [HexDigit(c as nat)];
        text := text + [stale(|text|)];
      }
    }

    method StrName(name: Option<string>)
      modifies this
      ensures text == old(text) + Label(name) + "\""
    {
      Chtoa('"');
      if name.Some? {
        Atoa(name.value);
        Atoa("\":\"");
        QuotedName(old(text), name.value);
      }
    }

    method Str(name: Option<string>, value: string)
      requires '\0' !in value
      modifies this
      ensures text == old(text) + Label(name) + TextOf(DText(value), |old(text) + Label(name)|, stale) + ","
    {
      hide Escape, Label;
      StrName(name);
      ghost var written := Escape(value, |text|, stale);
      Atoesc(value);
      Atoa("\",");
      QuotedText(old(text) + Label(name), written);
    }

    method Bool(name: Option<string>, value: bool)
      modifies this
      ensures text == old(text) + Label(name) + TextOf(DBool(value), |old(text) + Label(name)|, stale) + ","
    {
      PrimitiveName(name);
      Atoa(if value then "true," else "false,");
    }

    method Null(name: Option<string>)
      modifies this
      ensures text == old(text) + Label(name) + TextOf(DNull, |old(text) + Label(name)|, stale) + ","
    {
      PrimitiveName(name);
      Atoa("null,");
    }

    method Int(name: Option<string>, value: int)
      modifies this
      ensures text == old(text) + Label(name) + TextOf(DInt(value), |old(text) + Label(name)|, stale) + ","
    {
      PrimitiveName(name);
      text := text + ShowInt(value);
      Chtoa(',');
    }

    /** json_double: the text is what sprintf makes of the value. */
    method Double(name: Option<string>, value: string)
      modifies this
      ensures text == old(text) + Label(name) + value + ","
    {
      PrimitiveName(name);
      text := text + value;
      Chtoa(',');
    }

    /** A whole value, as a caller writes it with the methods above. */
    method Value(name: Option<string>, v: Doc)
      requires CStrings(v)
      modifies this
      ensures text == old(text) + Label(name) + TextOf(v, |old(text) + Label(name)|, stale) + ","
      decreases v
    {
      hide Label, Joined, Escape, ShowInt, CStrings;
      StringsInside(v);
      match v
      case DText(s) => Str(name, s);
      case DBool(b) => Bool(name, b);
      case DNull => Null(name);
      case DInt(n) => Int(name, n);
      case DReal(t) => Double(name, t);
      case DTree(arr, items) => Block(name, arr, items);
    }

    method Block(name: Option<string>, arr: bool, items: Docs)
      requires AllCStrings(items)
      modifies this
      ensures text == old(text) + Label(name) + TextOf(DTree(arr, items), |old(text) + Label(name)|, stale) + ","
      decreases items, 1
    {
      hide Label, Joined, WithoutComma, TextOf;
      ghost var front := old(text) + Label(name);
      Open(arr, name);
      Members(items);
      Close(arr);
      BlockDone(front, arr, items, stale);
    }

    method Members(items: Docs)
      requires AllCStrings(items)
      modifies this
      ensures text == old(text) + Joined(items, |old(text)|, stale) + Comma(items)
      decreases items, 0
    {
      hide TextOf, Label;
      match items
      case DNil =>
      case DCons(name, v, t) =>
        Value(name, v);
        ghost var front, here := Label(name), TextOf(v, |old(text) + Label(name)|, stale);
        ghost var rest := Joined(t, |text|, stale);
        Members(t);
        MembersOn(old(text), front, here, rest, t);
    }

    /** A document: the root object and json_end. */
    method Document(items: Docs)
      requires AllCStrings(items) && text == ""
      modifies this
      ensures text == TextOf(DTree(false, items), 0, stale)
    {
      hide Joined;
      Value(None, DTree(false, items));
      DropComma();
    }
  }
}
