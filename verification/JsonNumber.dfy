/** Number literals: the lenient scanner and the range test on the text of an integer. */
module JsonNumber {
  import opened Options
  import opened Decimal
  import opened JsonText

  const INT64_MAX: int := 0x7FFF_FFFF_FFFF_FFFF

  /** The first character from i on that is no digit, unless the NUL comes first. */
  function GoNum(s: string, i: nat): (r: Option<nat>)
    ensures r.Some? ==> i <= r.value < |s| && s[r.value] != '\0' && !IsDigit(s[r.value])
    decreases |s| - i
  {
    if CharAt(s, i) == '\0' then None
    else if IsDigit(s[i]) then GoNum(s, i + 1)
    else Some(i)
  }

  /** The whole part: `0`, or digits that do not start with 0. */
  function Whole(s: string, i: nat): (r: Option<nat>)
    ensures r.Some? ==> i < r.value <= |s|
  {
    if !IsDigit(CharAt(s, i)) then None
    else if s[i] != '0' then GoNum(s, i)
    else if IsDigit(CharAt(s, i + 1)) then None
    else Some(i + 1)
  }

  function Fraction(s: string, i: nat): (r: Option<nat>)
    ensures r.Some? ==> i < r.value <= |s|
  {
    if IsDigit(CharAt(s, i)) then GoNum(s, i + 1) else None
  }

  function Exponent(s: string, i: nat): (r: Option<nat>)
    ensures r.Some? ==> i < r.value <= |s|
  {
    var j := if CharAt(s, i) == '-' || CharAt(s, i) == '+' then i + 1 else i;
    Fraction(s, j)
  }

  datatype Literal = Literal(integer: bool, end: nat)

  /** An optional exponent after the whole part and fraction. */
  function WithExponent(s: string, integer: bool, i: nat): (r: Option<Literal>)
    requires i <= |s|
    ensures r.Some? ==> i <= r.value.end <= |s|
  {
    if CharAt(s, i) == 'e' || CharAt(s, i) == 'E' then
      match Exponent(s, i + 1) case None => None case Some(j) => Some(Literal(false, j))
    else Some(Literal(integer, i))
  }

  /** Behind the whole part. */
  function Rest(s: string, j: nat): (r: Option<Literal>)
    requires j <= |s|
    ensures r.Some? ==> j <= r.value.end <= |s|
  {
    if CharAt(s, j) == '.' then
      match Fraction(s, j + 1) case None => None case Some(k) => WithExponent(s, false, k)
    else WithExponent(s, true, j)
  }

  /** Where a number literal ends and whether it is an integer; range not yet looked at. */
  function Scan(s: string, i: nat): (r: Option<Literal>)
    ensures r.Some? ==> i < r.value.end <= |s|
  {
    match Whole(s, if CharAt(s, i) == '-' then i + 1 else i)
    case None => None
    case Some(j) => Rest(s, j)
  }

  lemma {:induction false} GoNumDigits(s: string, i: nat)
    ensures GoNum(s, i).Some? ==> AllDigits(s[i..GoNum(s, i).value])
    decreases |s| - i
  {
    if i < |s| && s[i] != '\0' && IsDigit(s[i]) {
      GoNumDigits(s, i + 1);
      if GoNum(s, i).Some? {
        var j := GoNum(s, i).value;
        assert s[i..j] == [s[i]] + s[i + 1..j];
      }
    }
  }

  lemma {:induction false} GoNumIs(s: string, i: nat, j: nat)
    requires i <= j < |s| && s[j] != '\0' && !IsDigit(s[j]) && AllDigits(s[i..j])
    ensures GoNum(s, i) == Some(j)
    decreases j - i
  {
    if i < j {
      assert s[i] == s[i..j][0];
      assert s[i + 1..j] == s[i..j][1..];
      GoNumIs(s, i + 1, j);
    }
  }

  /** The scanner leaves no superfluous zero in front of an integer. */
  lemma ScanInteger(s: string, i: nat)
    requires Scan(s, i).Some? && Scan(s, i).value.integer
    ensures IsInteger(s[i..Scan(s, i).value.end])
  {
    var first := if CharAt(s, i) == '-' then i + 1 else i;
    var j := Whole(s, first).value;
    GoNumDigits(s, first);
    assert s[i] == '-' ==> s[i..j][1..] == s[first..j];
    assert s[first..j][0] == s[first];
  }

  // ------------------------------------------------------------------ a literal does not depend on its place

  /** The same n characters stand at i in a and at j in b, and what follows ends a primitive in both. */
  predicate SameLiteral(a: string, i: nat, b: string, j: nat, n: nat) {
    && i + n < |a| && j + n < |b| && (forall k :: i <= k < i + n ==> a[k] == b[k - i + j])
    && IsPrimitiveEnd(a[i + n]) && IsPrimitiveEnd(b[j + n])
  }

  /** A character that no number literal goes on with. */
  predicate Foreign(c: char) {
    c != '\0' && !IsDigit(c) && c != '.' && c != 'e' && c != 'E' && c != '-' && c != '+'
  }

  /** The character k places on is the same, or the literal has ended in both. */
  lemma SameChar(a: string, i: nat, b: string, j: nat, n: nat, k: nat)
    requires SameLiteral(a, i, b, j, n) && k <= n
    ensures i + k < |a| && j + k < |b| && SameLiteral(a, i + k, b, j + k, n - k)
    ensures if k < n then CharAt(a, i + k) == CharAt(b, j + k)
            else Foreign(CharAt(a, i + k)) && Foreign(CharAt(b, j + k))
  {
  }

  /** The scan from i in a and the scan from j in b end at the same distance, inside the literal. */
  predicate Moves(r: Option<nat>, i: nat, q: Option<nat>, j: nat, n: nat) {
    match r case None => q == None case Some(e) => i <= e <= i + n && q == Some(e - i + j)
  }

  lemma {:induction false} MoveGoNum(a: string, i: nat, b: string, j: nat, n: nat)
    requires SameLiteral(a, i, b, j, n)
    ensures Moves(GoNum(a, i), i, GoNum(b, j), j, n)
    decreases n
  {
    SameChar(a, i, b, j, n, 0);
    if n > 0 {
      SameChar(a, i, b, j, n, 1);
      MoveGoNum(a, i + 1, b, j + 1, n - 1);
    }
  }

  lemma MoveWhole(a: string, i: nat, b: string, j: nat, n: nat)
    requires SameLiteral(a, i, b, j, n)
    ensures Moves(Whole(a, i), i, Whole(b, j), j, n)
  {
    hide GoNum, SameLiteral;
    SameChar(a, i, b, j, n, 0);
    MoveGoNum(a, i, b, j, n);
    if n > 0 {
      SameChar(a, i, b, j, n, 1);
    }
  }

  lemma MoveFraction(a: string, i: nat, b: string, j: nat, n: nat)
    requires SameLiteral(a, i, b, j, n)
    ensures Moves(Fraction(a, i), i, Fraction(b, j), j, n)
  {
    hide GoNum, SameLiteral;
    SameChar(a, i, b, j, n, 0);
    if n > 0 {
      SameChar(a, i, b, j, n, 1);
      MoveGoNum(a, i + 1, b, j + 1, n - 1);
    }
  }

  lemma MoveExponent(a: string, i: nat, b: string, j: nat, n: nat)
    requires SameLiteral(a, i, b, j, n)
    ensures Moves(Exponent(a, i), i, Exponent(b, j), j, n)
  {
    hide Fraction, SameLiteral;
    SameChar(a, i, b, j, n, 0);
    MoveFraction(a, i, b, j, n);
    if n > 0 {
      SameChar(a, i, b, j, n, 1);
      MoveFraction(a, i + 1, b, j + 1, n - 1);
    }
  }

  predicate LiteralMoves(r: Option<Literal>, i: nat, q: Option<Literal>, j: nat, n: nat) {
    match r
    case None => q == None
    case Some(l) => i <= l.end <= i + n && q == Some(Literal(l.integer, l.end - i + j))
  }

  lemma MoveWithExponent(a: string, integer: bool, i: nat, b: string, j: nat, n: nat)
    requires SameLiteral(a, i, b, j, n)
    ensures i <= |a| && j <= |b| && LiteralMoves(WithExponent(a, integer, i), i, WithExponent(b, integer, j), j, n)
  {
    SameChar(a, i, b, j, n, 0);
    hide Exponent;
    if n > 0 {
      SameChar(a, i, b, j, n, 1);
      MoveExponent(a, i + 1, b, j + 1, n - 1);
    }
  }

  lemma MoveDotted(a: string, i: nat, b: string, j: nat, n: nat)
    requires SameLiteral(a, i, b, j, n) && n > 0 && i < |a| && j < |b| && a[i] == '.' && b[j] == '.'
    ensures LiteralMoves(Rest(a, i), i, Rest(b, j), j, n)
  {
    hide Fraction, WithExponent, SameLiteral, IsPrimitiveEnd;
    SameChar(a, i, b, j, n, 1);
    MoveFraction(a, i + 1, b, j + 1, n - 1);
    if Fraction(a, i + 1).Some? {
      var f := Fraction(a, i + 1).value - i;
      SameChar(a, i, b, j, n, f);
      MoveWithExponent(a, false, i + f, b, j + f, n - f);
    }
  }

  lemma MoveRest(a: string, i: nat, b: string, j: nat, n: nat)
    requires SameLiteral(a, i, b, j, n)
    ensures i <= |a| && j <= |b| && LiteralMoves(Rest(a, i), i, Rest(b, j), j, n)
  {
    SameChar(a, i, b, j, n, 0);
    hide Fraction, WithExponent, SameLiteral, IsPrimitiveEnd;
    if a[i] == '.' {
      MoveDotted(a, i, b, j, n);
    } else {
      MoveWithExponent(a, true, i, b, j, n);
    }
  }

  /** Behind the sign. */
  lemma MoveUnsigned(a: string, i: nat, b: string, j: nat, n: nat)
    requires SameLiteral(a, i, b, j, n)
    ensures match Whole(a, i)
      case None => Whole(b, j) == None
      case Some(k) =>
        && i <= k <= i + n && Whole(b, j) == Some(k - i + j)
        && LiteralMoves(Rest(a, k), i, Rest(b, k - i + j), j, n)
  {
    hide Whole, Rest, SameLiteral;
    MoveWhole(a, i, b, j, n);
    if Whole(a, i).Some? {
      var k := Whole(a, i).value - i;
      SameChar(a, i, b, j, n, k);
      MoveRest(a, i + k, b, j + k, n - k);
    }
  }

  /** The same characters in front of the end of a primitive scan alike. */
  lemma MoveScan(a: string, i: nat, b: string, j: nat, n: nat)
    requires SameLiteral(a, i, b, j, n)
    ensures LiteralMoves(Scan(a, i), i, Scan(b, j), j, n)
  {
    hide Whole, Rest, SameLiteral;
    SameChar(a, i, b, j, n, 0);
    if CharAt(a, i) == '-' {
      SameChar(a, i, b, j, n, 1);
      MoveUnsigned(a, i + 1, b, j + 1, n - 1);
    } else {
      MoveUnsigned(a, i, b, j, n);
    }
  }

  /** The text of a number with a fraction or an exponent. */
  predicate IsReal(text: string) { Scan(text + ",", 0) == Some(Literal(false, |text|)) }

  lemma ScanReal(s: string, v: nat, e: nat)
    requires v <= e < |s| && IsPrimitiveEnd(s[e])
    ensures Scan(s, v) == Some(Literal(false, e)) <==> IsReal(s[v..e])
  {
    var text := s[v..e];
    MoveScan(s, v, text + ",", 0, |text|);
    hide Scan;
  }

  // ------------------------------------------------------------------ no NUL inside

  predicate NoNul(s: string, i: nat, j: nat) { forall k :: i <= k < j && k < |s| ==> s[k] != '\0' }

  lemma {:induction false} GoNumNoNul(s: string, i: nat)
    ensures GoNum(s, i).Some? ==> NoNul(s, i, GoNum(s, i).value)
    decreases |s| - i
  {
    if i < |s| && s[i] != '\0' && IsDigit(s[i]) {
      GoNumNoNul(s, i + 1);
    }
  }

  lemma WholeNoNul(s: string, i: nat)
    ensures Whole(s, i).Some? ==> NoNul(s, i, Whole(s, i).value)
  {
    GoNumNoNul(s, i);
    hide GoNum;
  }

  lemma FractionNoNul(s: string, i: nat)
    ensures Fraction(s, i).Some? ==> NoNul(s, i, Fraction(s, i).value)
  {
    GoNumNoNul(s, i + 1);
    hide GoNum;
  }

  lemma WithExponentNoNul(s: string, integer: bool, i: nat)
    requires i <= |s|
    ensures WithExponent(s, integer, i).Some? ==> NoNul(s, i, WithExponent(s, integer, i).value.end)
  {
    FractionNoNul(s, i + 1);
    FractionNoNul(s, i + 2);
    hide Fraction;
  }

  lemma ScanNoNul(s: string, v: nat)
    ensures Scan(s, v).Some? ==> NoNul(s, v, Scan(s, v).value.end)
  {
    var first := if CharAt(s, v) == '-' then v + 1 else v;
    WholeNoNul(s, first);
    hide Whole, Fraction, WithExponent;
    if Whole(s, first).Some? {
      var j := Whole(s, first).value;
      WithExponentNoNul(s, true, j);
      FractionNoNul(s, j + 1);
      if Fraction(s, j + 1).Some? {
        WithExponentNoNul(s, false, Fraction(s, j + 1).value);
      }
    }
  }

  // ------------------------------------------------------------------ the range of an integer

  /** strcmp: negative, zero or positive as a is before, equal to or after b. */
  function Compare(a: string, b: string): int {
    if a == [] && b == [] then 0
    else if CharAt(a, 0) != CharAt(b, 0) then CharAt(a, 0) as int - CharAt(b, 0) as int
    else if a == [] || b == [] then 0
    else Compare(a[1..], b[1..])
  }

  const MIN_TEXT := "-9223372036854775808"

  /** The test of numValue: too many characters fails; as many as the threshold are compared as text. */
  predicate Fits(text: string) {
    var threshold := if CharAt(text, 0) == '-' then MIN_TEXT else MAX_TEXT;
    |text| < |threshold| || (|text| == |threshold| && Compare(threshold, text) >= 0)
  }

  /** An optional sign and digits without superfluous zeros, as Scan leaves them. */
  predicate IsInteger(text: string) {
    text != [] && Canonical(if text[0] == '-' then text[1..] else text)
  }

  function IntegerValue(text: string): int
    requires IsInteger(text)
  {
    if text[0] == '-' then var v: int := Value(text[1..]); -v else Value(text)
  }

  function Tens(n: nat): nat { if n == 0 then 1 else 10 * Tens(n - 1) }

  lemma {:induction false} ValueBelow(s: string)
    ensures Value(s) < Tens(|s|)
  {
    if s != [] {
      ValueBelow(s[..|s| - 1]);
    }
  }

  lemma {:induction false} ValueFront(s: string)
    requires s != []
    ensures Value(s) == Digit(s[0]) * Tens(|s| - 1) + Value(s[1..])
  {
    if |s| > 1 {
      var last := |s| - 1;
      ValueFront(s[..last]);
      assert s[..last][1..] == s[1..][..last - 1];
      Shift(Digit(s[0]), Tens(last - 1), Value(s[1..][..last - 1]), Digit(s[last]));
    }
  }

  lemma Shift(d: nat, t: nat, v: nat, e: nat)
    ensures (d * t + v) * 10 + e == d * (10 * t) + (v * 10 + e)
  {
  }

  /** Without leading zero more digits make a larger number. */
  lemma {:induction false} ValueAbove(s: string)
    requires AllDigits(s) && s != [] && s[0] != '0'
    ensures Value(s) >= Tens(|s| - 1)
  {
    ValueFront(s);
    AtLeastOnce(Digit(s[0]), Tens(|s| - 1));
  }

  lemma AtLeastOnce(d: nat, t: nat)
    requires d >= 1
    ensures d * t >= t
  {
  }

  /** On digit strings of one length, text order is number order. */
  lemma {:induction false} CompareIsOrder(a: string, b: string)
    requires AllDigits(a) && AllDigits(b) && |a| == |b|
    ensures Compare(a, b) >= 0 <==> Value(a) >= Value(b)
  {
    if a != [] {
      ValueFront(a);
      ValueFront(b);
      ValueBelow(a[1..]);
      ValueBelow(b[1..]);
      if a[0] == b[0] {
        CompareIsOrder(a[1..], b[1..]);
      } else {
        Leads(Digit(a[0]), Digit(b[0]), Tens(|a| - 1), Value(a[1..]), Value(b[1..]));
      }
    }
  }

  lemma Leads(d: nat, e: nat, t: nat, v: nat, w: nat)
    requires v < t && w < t && d != e
    ensures d * t + v >= e * t + w <==> d > e
  {
    if d > e {
      AtLeastOnce(d - e, t);
      assert d * t == e * t + (d - e) * t;
    } else {
      AtLeastOnce(e - d, t);
      assert e * t == d * t + (e - d) * t;
    }
  }

  lemma {:induction false} TensGrow(m: nat, n: nat)
    requires m <= n
    ensures Tens(m) <= Tens(n)
  {
    if m < n {
      TensGrow(m, n - 1);
    }
  }

  /** Digits against a threshold of n digits. */
  lemma DigitsFit(digits: string, threshold: string)
    requires Canonical(digits) && Canonical(threshold) && threshold[0] != '0'
    ensures |digits| < |threshold| || (|digits| == |threshold| && Compare(threshold, digits) >= 0)
       <==> Value(digits) <= Value(threshold)
  {
    ValueAbove(threshold);
    ValueBelow(threshold);
    ValueBelow(digits);
    if |digits| < |threshold| {
      TensGrow(|digits|, |threshold| - 1);
    } else if |digits| > |threshold| {
      ValueAbove(digits);
      TensGrow(|threshold|, |digits| - 1);
    } else {
      CompareIsOrder(threshold, digits);
    }
  }

  lemma {:induction false} CompareSame(c: char, a: string, b: string)
    ensures Compare([c] + a, [c] + b) == Compare(a, b)
  {
    assert ([c] + a)[1..] == a && ([c] + b)[1..] == b;
  }

  lemma ThresholdValues()
    ensures Canonical(MAX_TEXT) && Value(MAX_TEXT) == INT64_MAX && MAX_TEXT[0] != '0'
    ensures Canonical(MIN_TEXT[1..]) && Value(MIN_TEXT[1..]) == INT64_MAX + 1 && MIN_TEXT[1] != '0'
  {
    MaxText();
    CommonDigits();
    LastDigit("922337203685477580", '8');
    assert MIN_TEXT[1..] == "922337203685477580" + "8";
  }

  /** The text test accepts an integer exactly when its value fits 64 bits, for digit strings of any length. */
  lemma FitsIffInRange(text: string)
    requires IsInteger(text)
    ensures Fits(text) <==> -INT64_MAX - 1 <= IntegerValue(text) <= INT64_MAX
  {
    ThresholdValues();
    if text[0] == '-' {
      var digits := text[1..];
      assert text == ['-'] + digits && MIN_TEXT == ['-'] + MIN_TEXT[1..];
      CompareSame('-', MIN_TEXT[1..], digits);
      DigitsFit(digits, MIN_TEXT[1..]);
    } else {
      DigitsFit(text, MAX_TEXT);
    }
  }
}
