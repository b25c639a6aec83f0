/** Which texts are scanned as real numbers. */
module JsonReal {
  import opened Options
  import opened Decimal
  import opened JsonText
  import opened JsonNumber

  /** Behind an `e` or `E` at c: a sign or none, then digits to the end. */
  predicate ExponentText(t: string, c: nat)
    requires c < |t|
  {
    var d := if c + 1 < |t| && t[c + 1] in {'+', '-'} then c + 2 else c + 1;
    t[c] in {'e', 'E'} && d < |t| && AllDigits(t[d..])
  }

  /** A minus sign or none; a whole part without superfluous zeros up to b; a point with digits up to c, or nothing;
      an exponent up to the end, or nothing; and not nothing twice. */
  predicate RealText(t: string, b: nat, c: nat) {
    && t != []
    && (var a := if t[0] == '-' then 1 else 0;
        a < b <= c <= |t| && b < |t| && Canonical(t[a..b]))
    && (c == b || (t[b] == '.' && b + 1 < c && AllDigits(t[b + 1..c])))
    && (c == |t| || ExponentText(t, c))
  }

  // ------------------------------------------------------------------ such a text is scanned

  lemma WholeIs(s: string, i: nat, j: nat)
    requires i < j < |s| && Canonical(s[i..j]) && s[j] != '\0' && !IsDigit(s[j])
    ensures Whole(s, i) == Some(j)
  {
    assert s[i] == s[i..j][0];
    GoNumIs(s, i, j);
  }

  lemma FractionIs(s: string, i: nat, j: nat)
    requires i < j < |s| && AllDigits(s[i..j]) && s[j] != '\0' && !IsDigit(s[j])
    ensures Fraction(s, i) == Some(j)
  {
    assert s[i] == s[i..j][0] && s[i + 1..j] == s[i..j][1..];
    GoNumIs(s, i + 1, j);
  }

  lemma ExponentIs(t: string, c: nat)
    requires c < |t| && ExponentText(t, c)
    ensures WithExponent(t + ",", true, c) == WithExponent(t + ",", false, c) == Some(Literal(false, |t|))
  {
    var s := t + ",";
    var d := if c + 1 < |t| && t[c + 1] in {'+', '-'} then c + 2 else c + 1;
    assert s[d..|t|] == t[d..];
    FractionIs(s, d, |t|);
    assert t[d] == t[d..][0];
    hide Fraction;
  }

  lemma RealIsScanned(t: string, b: nat, c: nat)
    requires RealText(t, b, c)
    ensures IsReal(t)
  {
    var s := t + ",";
    var a := if t[0] == '-' then 1 else 0;
    assert s[a..b] == t[a..b];
    WholeIs(s, a, b);
    if c < |t| {
      ExponentIs(t, c);
    }
    if b < c {
      assert s[b + 1..c] == t[b + 1..c];
      FractionIs(s, b + 1, c);
    }
    hide Whole, Fraction, Exponent, ExponentText;
  }

  // ------------------------------------------------------------------ and no other text is

  lemma WholeHolds(s: string, i: nat)
    requires Whole(s, i).Some?
    ensures Canonical(s[i..Whole(s, i).value])
  {
    GoNumDigits(s, i);
    assert s[i..Whole(s, i).value][0] == s[i];
  }

  lemma FractionHolds(s: string, i: nat)
    requires Fraction(s, i).Some?
    ensures AllDigits(s[i..Fraction(s, i).value])
  {
    GoNumDigits(s, i + 1);
    var j := Fraction(s, i).value;
    assert s[i..j] == [s[i]] + s[i + 1..j];
  }

  lemma ExponentHolds(t: string, c: nat, integer: bool)
    requires c <= |t| && WithExponent(t + ",", integer, c) == Some(Literal(false, |t|))
    ensures if c < |t| then ExponentText(t, c) else !integer
  {
    var s := t + ",";
    if c < |t| {
      var d := if CharAt(s, c + 1) == '-' || CharAt(s, c + 1) == '+' then c + 2 else c + 1;
      assert Fraction(s, d) == Some(|t|);
      FractionHolds(s, d);
      assert s[d..|t|] == t[d..];
    }
  }

  lemma ScannedIsReal(t: string) returns (b: nat, c: nat)
    requires IsReal(t)
    ensures RealText(t, b, c)
  {
    var s := t + ",";
    var a := if CharAt(s, 0) == '-' then 1 else 0;
    b := Whole(s, a).value;
    WholeHolds(s, a);
    hide Whole;
    assert Rest(s, b) == Some(Literal(false, |t|));
    c := if CharAt(s, b) == '.' then Fraction(s, b + 1).value else b;
    if CharAt(s, b) == '.' {
      FractionHolds(s, b + 1);
    }
    hide Fraction;
    ExponentHolds(t, c, c == b);
    hide WithExponent, ExponentText;
    assert s[a..b] == t[a..b];
    if b < c {
      assert s[b + 1..c] == t[b + 1..c];
    }
  }

  /** A text is a real number for the parser exactly if it is a whole part with a fraction, an exponent or both. */
  lemma RealIff(t: string)
    ensures IsReal(t) <==> exists b, c :: RealText(t, b, c)
  {
    hide IsReal, RealText;
    if IsReal(t) {
      var b, c := ScannedIsReal(t);
    }
    if b, c :| RealText(t, b, c) {
      RealIsScanned(t, b, c);
    }
  }
}
