/** The characters and strings of the lenient JSON grammar, read from a text that ends in NUL. */
module JsonText {
  import opened Options

  const BS := '\U{08}'
  const FF := '\U{0C}'

  /** Reading past the end yields the NUL. */
  function CharAt(s: string, i: nat): char { if i < |s| then s[i] else '\0' }

  predicate IsBlank(c: char) { c == ' ' || c == '\n' || c == '\r' || c == '\t' || c == FF }

  predicate IsBlockEnd(c: char) { c == '}' || c == ']' }

  predicate IsPrimitiveEnd(c: char) { c == ',' || IsBlank(c) || IsBlockEnd(c) }

  predicate IsHex(c: char) { '0' <= c <= '9' || 'a' <= c <= 'f' || 'A' <= c <= 'F' }

  /** The first character from i on that is not blank, unless the NUL comes first. */
  function GoBlank(s: string, i: nat): (r: Option<nat>)
    ensures r.Some? ==> i <= r.value < |s| && s[r.value] != '\0' && !IsBlank(s[r.value])
    decreases |s| - i
  {
    if CharAt(s, i) == '\0' then None
    else if IsBlank(s[i]) then GoBlank(s, i + 1)
    else Some(i)
  }

  /** Exactly the five blank characters are skipped. */
  lemma {:induction false} GoBlankIff(s: string, i: nat, j: nat)
    ensures GoBlank(s, i) == Some(j) <==>
            && i <= j < |s| && s[j] !in [' ', '\n', '\r', '\t', '\U{0C}', '\0']
            && forall k :: i <= k < j ==> s[k] in [' ', '\n', '\r', '\t', '\U{0C}']
    decreases |s| - i
  {
    if i < |s| && s[i] != '\0' && IsBlank(s[i]) {
      GoBlankIff(s, i + 1, j);
    }
  }

  /** What an escaping backslash followed by this character stands for. */
  function Unescape(c: char): Option<char> {
    if c == '"' || c == '\\' || c == '/' then Some(c)
    else if c == 'b' then Some(BS)
    else if c == 'f' then Some(FF)
    else if c == 'n' then Some('\n')
    else if c == 'r' then Some('\r')
    else if c == 't' then Some('\t')
    else None
  }

  predicate FourHex(s: string, i: nat) {
    IsHex(CharAt(s, i)) && IsHex(CharAt(s, i + 1)) && IsHex(CharAt(s, i + 2)) && IsHex(CharAt(s, i + 3))
  }

  /** One unit of a string: the character it stands for and where it ends. */
  datatype Unit = Bad | Quote | Unit(c: char, end: nat)

  function UnitAt(s: string, i: nat): (u: Unit)
    ensures u.Unit? ==> i < u.end <= |s|
    ensures u.Quote? ==> i < |s|
  {
    var c := CharAt(s, i);
    if c < ' ' then Bad
    else if c == '"' then Quote
    else if c != '\\' then Unit(c, i + 1)
    else if CharAt(s, i + 1) == 'u' then (if FourHex(s, i + 2) then Unit('?', i + 6) else Bad)
    else match Unescape(CharAt(s, i + 1)) case None => Bad case Some(e) => Unit(e, i + 2)
  }

  lemma HexIff(c: char)
    ensures IsHex(c) <==> c in "0123456789" || c in "abcdef" || c in "ABCDEF"
  {
  }

  ghost predicate HexAt(s: string, i: nat) {
    forall k: nat :: i <= k < i + 4 ==>
      CharAt(s, k) in "0123456789" || CharAt(s, k) in "abcdef" || CharAt(s, k) in "ABCDEF"
  }

  lemma FourHexIff(s: string, i: nat)
    ensures FourHex(s, i) <==> HexAt(s, i)
  {
    HexIff(CharAt(s, i));
    HexIff(CharAt(s, i + 1));
    HexIff(CharAt(s, i + 2));
    HexIff(CharAt(s, i + 3));
    hide IsHex;
  }

  /** What a string may not hold: a control character, or a backslash that starts neither one of the eight short escapes
      nor `u` with four hexadecimal digits.  The latter stands for a question mark, whatever the digits. */
  lemma UnitRefused(s: string, i: nat)
    ensures var c, e := CharAt(s, i), CharAt(s, i + 1);
      && (UnitAt(s, i).Bad? <==>
          c < '\U{20}' || (c == '\\' && e !in "\"\\/bfnrt" && !(e == 'u' && HexAt(s, i + 2))))
      && (c == '\\' && e == 'u' && HexAt(s, i + 2) ==> UnitAt(s, i) == Unit('?', i + 6))
  {
    FourHexIff(s, i + 2);
    hide HexAt, FourHex;
    assert var e := CharAt(s, i + 1); e in "\"\\/bfnrt" <==> Unescape(e).Some?;
    hide Unescape;
  }

  /** A decoded string and the place after its closing quote. */
  datatype Decoded = Decoded(text: string, end: nat)

  function Decode(s: string, i: nat): (r: Option<Decoded>)
    ensures r.Some? ==> i < r.value.end <= |s| && i + |r.value.text| < r.value.end
    decreases |s| - i
  {
    match UnitAt(s, i)
    case Bad => None
    case Quote => Some(Decoded("", i + 1))
    case Unit(c, j) => match Decode(s, j) case None => None case Some(d) => Some(Decoded([c] + d.text, d.end))
  }

  /** Decoding with text already read in front. */
  function Onto(before: string, d: Option<Decoded>): Option<Decoded> {
    match d case None => None case Some(r) => Some(Decoded(before + r.text, r.end))
  }

  lemma OntoNothing(d: Option<Decoded>)
    ensures Onto("", d) == d
  {
    assert d.Some? ==> "" + d.value.text == d.value.text;
  }

  lemma DecodeStep(s: string, i: nat, before: string)
    ensures match UnitAt(s, i)
      case Bad => Decode(s, i) == None
      case Quote => Onto(before, Decode(s, i)) == Some(Decoded(before, i + 1))
      case Unit(c, j) => Onto(before, Decode(s, i)) == Onto(before + [c], Decode(s, j))
  {
    hide UnitAt;
    assert before + "" == before;
    match UnitAt(s, i)
    case Bad =>
    case Quote =>
    case Unit(c, j) =>
      if Decode(s, j).Some? {
        assert before + ([c] + Decode(s, j).value.text) == (before + [c]) + Decode(s, j).value.text;
      }
  }

  /** No unit reaches past the NUL at the end. */
  lemma UnitInside(s: string, i: nat)
    requires s != [] && s[|s| - 1] == '\0'
    ensures UnitAt(s, i).Unit? ==> UnitAt(s, i).end < |s|
    ensures UnitAt(s, i).Quote? ==> i + 1 < |s|
  {
  }

  /** A unit depends only on the text from its start on. */
  lemma UnitAgrees(a: string, b: string, i: nat)
    requires i <= |a| == |b| && a[i..] == b[i..]
    ensures UnitAt(a, i) == UnitAt(b, i)
  {
    forall k: nat | i <= k
      ensures CharAt(a, k) == CharAt(b, k)
    {
      if k < |a| {
        assert a[k] == a[i..][k - i] == b[i..][k - i] == b[k];
      }
    }
  }

  /** The decoder in place: the text is written over the input, never ahead of what has been read. */
  method ParseString(buf: array<char>, start: nat) returns (end: Option<nat>)
    requires start < buf.Length && buf[buf.Length - 1] == '\0'
    modifies buf
    ensures buf[..start] == old(buf[..start])
    ensures match Decode(old(buf[..]), start)
      case None => end == None
      case Some(d) =>
        && end == Some(d.end) && d.end < buf.Length
        && buf[start..start + |d.text|] == d.text && buf[start + |d.text|] == '\0'
        && buf[d.end..] == old(buf[d.end..])
  {
    hide UnitAt, Decode;
    ghost var s := buf[..];
    ghost var text := "";
    var head, tail := start, start;
    OntoNothing(Decode(s, start));
    while true
      invariant start <= tail <= head < buf.Length && |text| == tail - start
      invariant Decode(s, start) == Onto(text, Decode(s, head))
      invariant buf[..start] == s[..start] && buf[start..tail] == text
      invariant forall k :: head <= k < buf.Length ==> buf[k] == s[k]
      decreases buf.Length - head
    {
      DecodeStep(s, head, text);
      assert buf[..][head..] == s[head..];
      UnitAgrees(buf[..], s, head);
      UnitInside(s, head);
      var unit := UnitAt(buf[..], head);
      if unit.Bad? {
        return None;
      }
      if unit.Quote? {
        buf[tail] := '\0';
        return Some(head + 1);
      }
      buf[tail] := unit.c;
      text := text + [unit.c];
      tail := tail + 1;
      head := unit.end;
    }
  }
}
