/** The text while it is being parsed: unread behind the cursor, finished strings in front of it. */
module JsonBuffer {
  import opened Options
  import opened JsonText
  import opened JsonNumber
  import opened JsonGrammar
  import opened JsonStack

  // ------------------------------------------------------------------ reading depends on the unread text only

  predicate SameFrom(a: string, b: string, i: nat) {
    |a| == |b| && forall k :: i <= k < |a| ==> a[k] == b[k]
  }

  lemma {:induction false} GoBlankAgrees(a: string, b: string, i: nat)
    requires SameFrom(a, b, i)
    ensures GoBlank(a, i) == GoBlank(b, i)
    decreases |a| - i
  {
    if i < |a| {
      GoBlankAgrees(a, b, i + 1);
    }
  }

  lemma {:induction false} DecodeAgrees(a: string, b: string, i: nat)
    requires SameFrom(a, b, i) && i <= |a|
    ensures Decode(a, i) == Decode(b, i)
    decreases |a| - i
  {
    assert a[i..] == b[i..];
    UnitAgrees(a, b, i);
    hide UnitAt;
    match UnitAt(a, i)
    case Bad =>
    case Quote =>
    case Unit(_, j) => DecodeAgrees(a, b, j);
  }

  lemma {:induction false} GoNumAgrees(a: string, b: string, i: nat)
    requires SameFrom(a, b, i)
    ensures GoNum(a, i) == GoNum(b, i)
    decreases |a| - i
  {
    if i < |a| {
      GoNumAgrees(a, b, i + 1);
    }
  }

  lemma FractionAgrees(a: string, b: string, i: nat)
    requires SameFrom(a, b, i)
    ensures Fraction(a, i) == Fraction(b, i)
  {
    GoNumAgrees(a, b, i + 1);
    hide GoNum;
  }

  lemma WithExponentAgrees(a: string, b: string, integer: bool, i: nat)
    requires SameFrom(a, b, i) && i <= |a|
    ensures WithExponent(a, integer, i) == WithExponent(b, integer, i)
  {
    FractionAgrees(a, b, i + 1);
    FractionAgrees(a, b, i + 2);
    hide Fraction;
  }

  lemma WholeAgrees(a: string, b: string, i: nat)
    requires SameFrom(a, b, i)
    ensures Whole(a, i) == Whole(b, i)
  {
    GoNumAgrees(a, b, i);
    hide GoNum;
  }

  lemma ScanAgrees(a: string, b: string, i: nat)
    requires SameFrom(a, b, i)
    ensures Scan(a, i) == Scan(b, i)
  {
    hide Whole, Fraction, WithExponent;
    var first := if CharAt(a, i) == '-' then i + 1 else i;
    WholeAgrees(a, b, first);
    if Whole(a, first).Some? {
      var j := Whole(a, first).value;
      FractionAgrees(a, b, j + 1);
      WithExponentAgrees(a, b, true, j);
      if Fraction(a, j + 1).Some? {
        WithExponentAgrees(a, b, false, Fraction(a, j + 1).value);
      }
    }
  }

  lemma SliceAgrees(a: string, b: string, i: nat, j: nat)
    requires SameFrom(a, b, i) && i <= j <= |a|
    ensures a[i..j] == b[i..j]
  {
  }

  lemma NumberAgrees(a: string, b: string, i: nat)
    requires SameFrom(a, b, i)
    ensures Number(a, i) == Number(b, i)
  {
    ScanAgrees(a, b, i);
    hide Scan;
    if Scan(a, i).Some? {
      SliceAgrees(a, b, i, Scan(a, i).value.end);
    }
  }

  lemma WordAgrees(a: string, b: string, i: nat, word: string, kind: Kind)
    requires SameFrom(a, b, i) && |word| > 0
    ensures Word(a, i, word, kind) == Word(b, i, word, kind)
  {
    if i + |word| < |a| {
      SliceAgrees(a, b, i, i + |word|);
    }
  }

  // ------------------------------------------------------------------ the cursor stays in front of the NUL

  predicate EndsInNul(s: string) { s != [] && s[|s| - 1] == '\0' }

  lemma {:induction false} DecodeInside(s: string, i: nat)
    requires EndsInNul(s)
    ensures Decode(s, i).Some? ==> Decode(s, i).value.end < |s|
    decreases |s| - i
  {
    UnitInside(s, i);
    hide UnitAt;
    match UnitAt(s, i)
    case Bad =>
    case Quote =>
    case Unit(_, j) => DecodeInside(s, j);
  }

  lemma WordInside(s: string, v: nat, word: string, kind: Kind)
    requires EndsInNul(s) && |word| > 0
    ensures Word(s, v, word, kind).Some? ==> Word(s, v, word, kind).value.end < |s|
  {
  }

  lemma NumberInside(s: string, v: nat)
    requires EndsInNul(s)
    ensures Number(s, v).Some? ==> Number(s, v).value.end < |s|
  {
    hide Scan, Fits;
  }

  lemma ScalarInside(s: string, v: nat)
    requires EndsInNul(s)
    ensures ScalarAt(s, v).Some? ==> ScalarAt(s, v).value.end < |s|
  {
    hide Decode, Number, Word;
    DecodeInside(s, v + 1);
    WordInside(s, v, "true", Boolean);
    WordInside(s, v, "false", Boolean);
    WordInside(s, v, "null", Null);
    NumberInside(s, v);
  }

  /** Reading never gets past the NUL that ends the text. */
  lemma LookInside(s: string, i: nat, arr: bool)
    requires EndsInNul(s)
    ensures !Look(s, i, arr).Fail? ==> i < Look(s, i, arr).to < |s|
  {
    hide ScalarAt, GoBlank, Decode;
    forall v: nat
      ensures ScalarAt(s, v).Some? ==> ScalarAt(s, v).value.end < |s|
    {
      ScalarInside(s, v);
    }
  }

  // ------------------------------------------------------------------ finished strings

  /** The string stands in front of p and is terminated; only if pending may its terminator still be to come, at p. */
  predicate Held(buf: string, p: nat, pending: bool, s: Str) {
    && s.at + |s.text| <= p <= |buf| && buf[s.at..s.at + |s.text|] == s.text
    && if s.at + |s.text| < p then buf[s.at + |s.text|] == '\0' else pending
  }

  predicate HeldName(buf: string, p: nat, pending: bool, name: Option<Str>) {
    name.Some? ==> Held(buf, p, pending, name.value)
  }

  predicate HeldItem(buf: string, p: nat, pending: bool, item: Item)
    decreases item
  {
    && HeldName(buf, p, pending, item.name)
    && match item.value
       case Leaf(_, s) => Held(buf, p, pending, s)
       case Tree(_, items) => HeldItems(buf, p, pending, items)
  }

  predicate HeldItems(buf: string, p: nat, pending: bool, items: Items)
    decreases items
  {
    match items case Nil => true case Cons(h, t) => HeldItem(buf, p, pending, h) && HeldItems(buf, p, pending, t)
  }

  predicate HeldStack(buf: string, p: nat, pending: bool, k: Stack)
    decreases k
  {
    && HeldItems(buf, p, pending, k.items)
    && (k.Above? ==> HeldName(buf, p, pending, k.name) && HeldStack(buf, p, pending, k.below))
  }

  /** The cursor moves from p to q; what is in front of p stays, and a pending terminator is written. */
  predicate Advanced(a: string, b: string, p: nat, pending: bool, q: nat) {
    && p < q <= |a| == |b| && (pending ==> b[p] == '\0')
    && forall i :: 0 <= i < p ==> a[i] == b[i]
  }

  lemma HeldOn(a: string, b: string, p: nat, pending: bool, q: nat, pending2: bool, s: Str)
    requires Held(a, p, pending, s) && Advanced(a, b, p, pending, q)
    ensures Held(b, q, pending2, s)
  {
    assert a[s.at..s.at + |s.text|] == b[s.at..s.at + |s.text|];
  }

  lemma HeldNameOn(a: string, b: string, p: nat, pending: bool, q: nat, pending2: bool, name: Option<Str>)
    requires HeldName(a, p, pending, name) && Advanced(a, b, p, pending, q)
    ensures HeldName(b, q, pending2, name)
  {
    if name.Some? {
      HeldOn(a, b, p, pending, q, pending2, name.value);
    }
  }

  lemma {:induction false} HeldItemOn(a: string, b: string, p: nat, pending: bool, q: nat, pending2: bool, item: Item)
    requires HeldItem(a, p, pending, item) && Advanced(a, b, p, pending, q)
    ensures HeldItem(b, q, pending2, item)
    decreases item
  {
    hide Held, Advanced;
    HeldNameOn(a, b, p, pending, q, pending2, item.name);
    match item.value
    case Leaf(_, s) => HeldOn(a, b, p, pending, q, pending2, s);
    case Tree(_, items) => HeldItemsOn(a, b, p, pending, q, pending2, items);
  }

  lemma {:induction false} HeldItemsOn(a: string, b: string, p: nat, pending: bool,
                                               q: nat, pending2: bool, items: Items)
    requires HeldItems(a, p, pending, items) && Advanced(a, b, p, pending, q)
    ensures HeldItems(b, q, pending2, items)
    decreases items
  {
    hide Held, Advanced;
    if items.Cons? {
      HeldItemOn(a, b, p, pending, q, pending2, items.head);
      HeldItemsOn(a, b, p, pending, q, pending2, items.tail);
    }
  }

  lemma {:induction false} HeldStackOn(a: string, b: string, p: nat, pending: bool, q: nat, pending2: bool, k: Stack)
    requires HeldStack(a, p, pending, k) && Advanced(a, b, p, pending, q)
    ensures HeldStack(b, q, pending2, k)
    decreases k
  {
    hide Held, Advanced, HeldName;
    HeldItemsOn(a, b, p, pending, q, pending2, k.items);
    if k.Above? {
      HeldNameOn(a, b, p, pending, q, pending2, k.name);
      HeldStackOn(a, b, p, pending, q, pending2, k.below);
    }
  }

  lemma {:induction false} HeldAppend(buf: string, p: nat, pending: bool, a: Items, b: Items)
    requires HeldItems(buf, p, pending, a) && HeldItems(buf, p, pending, b)
    ensures HeldItems(buf, p, pending, Append(a, b))
    decreases a
  {
    hide Held, HeldName;
    if a.Cons? {
      HeldAppend(buf, p, pending, a.tail, b);
    }
  }

  lemma HeldAdd(buf: string, p: nat, pending: bool, k: Stack, item: Item)
    requires HeldStack(buf, p, pending, k) && HeldItem(buf, p, pending, item)
    ensures HeldStack(buf, p, pending, AddItem(k, item))
  {
    hide Held, HeldName;
    HeldAppend(buf, p, pending, k.items, Cons(item, Nil));
  }
}
