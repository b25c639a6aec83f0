/** Documents laid out with blanks between their tokens and with the commas the lenient grammar admits. */
module JsonLayout {
  import opened Options
  import opened JsonDoc
  import opened JsonPrint

  /** The five blank characters. */
  predicate Space(c: char) { c == ' ' || c == '\n' || c == '\r' || c == '\t' || c == '\U{0C}' }

  predicate Spaces(s: string) { forall k :: 0 <= k < |s| ==> Space(s[k]) }

  predicate Loose(s: string) { forall k :: 0 <= k < |s| ==> Space(s[k]) || s[k] == ',' }

  /** What stands at each place between tokens: blank around colons and in front of the document; loose behind an
      opening and in front of a closing; between two members. */
  datatype Layout = Layout(blank: nat -> string, loose: nat -> string, between: nat -> string)

  /** Members are set apart by at least one blank or comma. */
  ghost predicate Fair(l: Layout) {
    forall p: nat :: Spaces(l.blank(p)) && Loose(l.loose(p)) && Loose(l.between(p)) && l.between(p) != ""
  }

  /** A name, its colon, and the blanks behind each, written at place p. */
  function NameText(name: Option<string>, p: nat, l: Layout): string {
    match name
    case None => ""
    case Some(n) =>
      var b := l.blank(p + |n| + 2);
      "\"" + ((n + "\"") + (b + (":" + l.blank(p + |n| + 3 + |b|))))
  }

  function Gap(t: Docs, p: nat, l: Layout): string { if t.DNil? then l.loose(p) else l.between(p) }

  function ValueText(v: Doc, p: nat, stale: Memory, l: Layout): string
    decreases v
  {
    match v
    case DTree(arr, items) => [Opening(arr)] + BodyText(items, arr, p + 1, stale, l)
    case _ => TextOf(v, p, stale)
  }

  function BodyText(items: Docs, arr: bool, p: nat, stale: Memory, l: Layout): string
    decreases items, 1
  {
    l.loose(p) + MembersText(items, arr, p + |l.loose(p)|, stale, l)
  }

  /** From a member on, or from the end of the block. */
  function MembersText(items: Docs, arr: bool, p: nat, stale: Memory, l: Layout): string
    decreases items, 0
  {
    match items
    case DNil => [Closing(arr)]
    case DCons(name, v, t) =>
      var a := NameText(name, p, l);
      var b := ValueText(v, p + |a|, stale, l);
      var g := Gap(t, p + |a| + |b|, l);
      a + (b + (g + MembersText(t, arr, p + |a| + |b| + |g|, stale, l)))
  }

  function DocumentText(items: Docs, stale: Memory, l: Layout): string {
    l.blank(0) + ValueText(DTree(false, items), |l.blank(0)|, stale, l)
  }

  // ------------------------------------------------------------------ the printer's own layout

  function Nothing(p: nat): string { "" }

  function OneComma(p: nat): string { "," }

  function Compact(): Layout { Layout(Nothing, Nothing, OneComma) }

  lemma CompactFair()
    ensures Fair(Compact())
  {
  }

  lemma CompactName(name: Option<string>, p: nat, l: Layout)
    requires l == Compact()
    ensures NameText(name, p, l) == Label(name)
  {
    match name
    case None =>
    case Some(n) => assert "\"" + ((n + "\"") + ("" + (":" + ""))) == "\"" + n + "\":";
  }

  lemma {:induction false} CompactValue(v: Doc, p: nat, stale: Memory, l: Layout)
    requires l == Compact()
    ensures ValueText(v, p, stale, l) == TextOf(v, p, stale)
    decreases v
  {
    if v.DTree? {
      hide MembersText, Joined, Compact, ValueText, TextOf;
      CompactMembers(v.items, v.arr, p + 1, stale, l);
      CompactTree(v, p, stale, l, Joined(v.items, p + 1, stale));
    } else {
      hide TextOf;
    }
  }

  lemma CompactTree(v: Doc, p: nat, stale: Memory, l: Layout, inner: string)
    requires l == Compact() && v.DTree? && inner == Joined(v.items, p + 1, stale)
    requires MembersText(v.items, v.arr, p + 1, stale, l) == inner + [Closing(v.arr)]
    ensures ValueText(v, p, stale, l) == TextOf(v, p, stale)
  {
    hide MembersText, Joined, Opening, Closing;
    Enclosed(Opening(v.arr), inner, Closing(v.arr));
  }

  lemma Enclosed(open: char, inner: string, close: char)
    ensures [open] + ("" + (inner + [close])) == [open] + inner + [close]
  {
  }

  lemma {:induction false} CompactMembers(items: Docs, arr: bool, p: nat, stale: Memory, l: Layout)
    requires l == Compact()
    ensures MembersText(items, arr, p, stale, l) == Joined(items, p, stale) + [Closing(arr)]
    decreases items, 0
  {
    if items.DNil? {
      assert "" + [Closing(arr)] == [Closing(arr)];
    } else {
      hide NameText, Label, ValueText, TextOf, MembersText, Joined, Gap, Compact, Closing;
      var a := Label(items.name);
      CompactName(items.name, p, l);
      var b := TextOf(items.value, p + |a|, stale);
      CompactValue(items.value, p + |a|, stale, l);
      var g := if items.tail.DNil? then "" else ",";
      CompactGap(items.tail, p + |a| + |b|, l);
      var k := p + |a| + |b| + |g|;
      CompactMembers(items.tail, arr, k, stale, l);
      var rest := Joined(items.tail, k, stale);
      MembersFrom(items, arr, p, stale, l, a, b, g, rest + [Closing(arr)]);
      JoinedFrom(items, p, stale, a, b, g, rest, Closing(arr));
    }
  }

  lemma MembersFrom(items: Docs, arr: bool, p: nat, stale: Memory, l: Layout, a: string, b: string, g: string,
                    rest: string)
    requires items.DCons? && NameText(items.name, p, l) == a && ValueText(items.value, p + |a|, stale, l) == b
    requires Gap(items.tail, p + |a| + |b|, l) == g
    requires MembersText(items.tail, arr, p + |a| + |b| + |g|, stale, l) == rest
    ensures MembersText(items, arr, p, stale, l) == a + (b + (g + rest))
  {
    hide NameText, ValueText, Gap;
  }

  lemma JoinedFrom(items: Docs, p: nat, stale: Memory, a: string, b: string, g: string, rest: string, close: char)
    requires items.DCons? && Label(items.name) == a && TextOf(items.value, p + |a|, stale) == b
    requires g == (if items.tail.DNil? then "" else ",") && Joined(items.tail, p + |a| + |b| + |g|, stale) == rest
    ensures a + (b + (g + (rest + [close]))) == Joined(items, p, stale) + [close]
  {
    hide Label, TextOf;
    assert |a + b| == |a| + |b|;
    CompactStep(a, b, g, rest, items.tail, close);
  }

  lemma CompactGap(t: Docs, p: nat, l: Layout)
    requires l == Compact()
    ensures Gap(t, p, l) == if t.DNil? then "" else ","
  {
  }

  lemma CompactStep(a: string, b: string, g: string, rest: string, t: Docs, close: char)
    requires g == (if t.DNil? then "" else ",") && (t.DNil? ==> rest == "")
    ensures a + (b + (g + (rest + [close]))) == a + b + (if t.DNil? then "" else "," + rest) + [close]
  {
    if t.DNil? {
      assert a + (b + (g + (rest + [close]))) == a + (b + [close]);
      assert a + b + "" + [close] == a + (b + [close]);
    }
  }

  /** The printer's text is the document in the compact layout. */
  lemma CompactDocument(items: Docs, stale: Memory)
    ensures DocumentText(items, stale, Compact()) == TextOf(DTree(false, items), 0, stale)
  {
    hide ValueText, TextOf;
    CompactValue(DTree(false, items), 0, stale, Compact());
    var text := ValueText(DTree(false, items), 0, stale, Compact());
    assert "" + text == text;
  }
}
