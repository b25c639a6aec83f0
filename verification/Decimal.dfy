/** Decimal text of natural numbers. */
module Decimal {

  predicate IsDigit(c: char) { '0' <= c <= '9' }

  predicate AllDigits(s: string) { forall i :: 0 <= i < |s| ==> IsDigit(s[i]) }

  /** Only digits have a value of their own. */
  function Digit(c: char): (d: nat)
    ensures d < 10
  {
    if IsDigit(c) then (c - '0') as int else 0
  }

  function DigitChar(d: nat): (c: char)
    requires d < 10
    ensures IsDigit(c) && Digit(c) == d
  {
    '0' + d as char
  }

  /** Text without superfluous zeros. */
  predicate Canonical(s: string) { s != [] && AllDigits(s) && (s[0] == '0' ==> |s| == 1) }

  function Show(n: nat): string {
    if n < 10 then [DigitChar(n)] else Show(n / 10) + [DigitChar(n % 10)]
  }

  function Value(s: string): nat {
    if s == [] then 0 else Value(s[..|s| - 1]) * 10 + Digit(s[|s| - 1])
  }

  lemma {:induction false} ValueShow(n: nat)
    ensures Canonical(Show(n)) && Value(Show(n)) == n && (n > 0 ==> Show(n)[0] != '0')
  {
    if n < 10 {
      assert Show(n)[..0] == [];
    } else {
      ValueShow(n / 10);
      assert Show(n)[..|Show(n)| - 1] == Show(n / 10);
    }
  }

  lemma {:induction false} ShowValue(s: string)
    requires Canonical(s)
    ensures Show(Value(s)) == s
  {
    var front := s[..|s| - 1];
    if front == [] {
      assert s == [s[0]];
    } else {
      ShowValue(front);
      PositiveValue(front);
      assert s == front + [s[|s| - 1]];
    }
  }

  lemma {:induction false} PositiveValue(s: string)
    requires s != [] && AllDigits(s) && s[0] != '0'
    ensures Value(s) >= 1
  {
    if |s| > 1 {
      PositiveValue(s[..|s| - 1]);
    }
  }

  // ------------------------------------------------------------------ the largest signed 64-bit number

  /** Three more digits behind a number. */
  lemma Three(s: string, v: nat, a: char, b: char, c: char, longer: string)
    requires Value(s) == v && AllDigits(s) && IsDigit(a) && IsDigit(b) && IsDigit(c) && longer == s + [a, b, c]
    ensures AllDigits(longer) && Value(longer) == v * 1000 + Digit(a) * 100 + Digit(b) * 10 + Digit(c)
  {
    LastDigit(s, a);
    LastDigit(s + [a], b);
    LastDigit(s + [a] + [b], c);
    assert longer == s + [a] + [b] + [c];
  }

  lemma CommonDigits()
    ensures AllDigits("922337203685477580") && Value("922337203685477580") == 922337203685477580
  {
    assert Value("") == 0 && AllDigits("");
    hide Value, AllDigits;
    Three("", 0, '9', '2', '2', "922");
    Three("922", 922, '3', '3', '7', "922337");
    Three("922337", 922337, '2', '0', '3', "922337203");
    Three("922337203", 922337203, '6', '8', '5', "922337203685");
    Three("922337203685", 922337203685, '4', '7', '7', "922337203685477");
    Three("922337203685477", 922337203685477, '5', '8', '0', "922337203685477580");
  }

  lemma LastDigit(s: string, c: char)
    requires AllDigits(s) && IsDigit(c)
    ensures AllDigits(s + [c]) && Value(s + [c]) == Value(s) * 10 + Digit(c)
  {
    assert (s + [c])[..|s|] == s;
  }

  const MAX_TEXT := "9223372036854775807"

  lemma MaxText()
    ensures Canonical(MAX_TEXT) && Value(MAX_TEXT) == 0x7FFF_FFFF_FFFF_FFFF && MAX_TEXT[0] != '0'
  {
    CommonDigits();
    LastDigit("922337203685477580", '7');
    assert MAX_TEXT == "922337203685477580" + "7";
  }
}
