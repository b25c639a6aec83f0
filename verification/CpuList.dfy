/** Linux CPU lists such as `0-3,8-11,16`: what the parser accepts and which ids it reports. */
module CpuList {
  import opened Options
  import opened Decimal

  const TWO32 := 0x1_0000_0000
  const LONG_MAX := 0x7FFF_FFFF_FFFF_FFFF

  /** The text is followed by a NUL. */
  function CharAt(s: string, i: nat): char { if i < |s| then s[i] else '\0' }

  predicate IsBlank(c: char) { c == ' ' || '\t' <= c <= '\r' }

  function SkipBlank(s: string, i: nat): (j: nat)
    requires i <= |s|
    ensures i <= j <= |s|
    decreases |s| - i
  {
    if i < |s| && IsBlank(s[i]) then SkipBlank(s, i + 1) else i
  }

  function DigitsEnd(s: string, i: nat): (j: nat)
    requires i <= |s|
    ensures i <= j <= |s|
    decreases |s| - i
  {
    if i < |s| && IsDigit(s[i]) then DigitsEnd(s, i + 1) else i
  }

  /** The number written from i up to j. */
  function Numeral(s: string, i: nat, j: nat): nat
    requires i <= j <= |s|
    decreases j
  {
    if i == j then 0 else Numeral(s, i, j - 1) * 10 + Digit(s[j - 1])
  }

  lemma {:induction false} NumeralIsValue(s: string, i: nat, j: nat)
    requires i <= j <= |s|
    ensures Numeral(s, i, j) == Value(s[i..j])
    decreases j
  {
    if i < j {
      NumeralIsValue(s, i, j - 1);
      assert s[i..j][..j - i - 1] == s[i..j - 1];
    }
  }

  function Clamp(v: int): int { if v > LONG_MAX then LONG_MAX else if v < -LONG_MAX - 1 then -LONG_MAX - 1 else v }

  datatype Number = Number(value: int, end: nat)

  /** strtol in base ten: blanks, a sign, digits; without digits nothing is consumed. */
  function StrToL(s: string, i: nat): (n: Number)
    requires i <= |s|
    ensures i <= n.end <= |s| && -LONG_MAX - 1 <= n.value <= LONG_MAX
  {
    var start := SkipBlank(s, i);
    var first := if CharAt(s, start) == '-' || CharAt(s, start) == '+' then start + 1 else start;
    var end := DigitsEnd(s, first);
    if end == first then Number(0, i)
    else
      var v: int := Numeral(s, first, end);
      Number(Clamp(if CharAt(s, start) == '-' then -v else v), end)
  }

  datatype Range = Range(lo: int, hi: int)

  /** The ranges whose ids were reported, and whether the text was accepted. */
  datatype Reading = Reading(ranges: seq<Range>, ok: bool)

  function Prepend(r: Range, rest: Reading): Reading { Reading([r] + rest.ranges, rest.ok) }

  /** One member of the list, `lo` or `lo-hi`, and where it ends; Bad if malformed or empty. */
  datatype Item = Bad | Got(r: Range, end: nat)

  function ReadItem(s: string, i: nat): (item: Item)
    requires i <= |s|
    ensures item.Got? ==> i < item.end <= |s| && -LONG_MAX - 1 <= item.r.lo <= item.r.hi <= LONG_MAX
  {
    var n := StrToL(s, i);
    if n.end == i then Bad
    else if CharAt(s, n.end) == '-' then
      var m := StrToL(s, n.end + 1);
      if m.end == n.end + 1 || m.value < n.value then Bad else Got(Range(n.value, m.value), m.end)
    else Got(Range(n.value, n.value), n.end)
  }

  function Read(s: string, i: nat): Reading
    requires i <= |s|
    decreases |s| - i
  {
    if CharAt(s, i) == '\0' then Reading([], true)
    else match ReadItem(s, i)
      case Bad => Reading([], false)
      case Got(r, j) =>
        if CharAt(s, j) == ',' then Prepend(r, Read(s, j + 1))
        else if CharAt(s, j) == '\0' || CharAt(s, j) == '\n' then Prepend(r, Read(s, j))
        else Reading([r], false)
  }

  /** The ids of a range as the callback sees them, cut to 32 bits. */
  function Ids(r: Range): seq<nat> {
    seq(if r.lo <= r.hi then r.hi - r.lo + 1 else 0, k => (r.lo + k) % TWO32)
  }

  function Expand(ranges: seq<Range>): seq<nat> {
    if ranges == [] then [] else Expand(ranges[..|ranges| - 1]) + Ids(ranges[|ranges| - 1])
  }

  function Total(ranges: seq<Range>): int {
    if ranges == [] then 0 else Total(ranges[..|ranges| - 1]) + ranges[|ranges| - 1].hi - ranges[|ranges| - 1].lo + 1
  }

  // ------------------------------------------------------------------ which ids a list names

  /** static_cast to an unsigned 32-bit integer. */
  function AsU32(id: int): nat { id % 0x1_0000_0000 }

  /** h is an id of the range, cut to 32 bits. */
  ghost predicate Holds(r: Range, h: nat) { exists id :: r.lo <= id <= r.hi && AsU32(id) == h }

  ghost predicate Named(ranges: seq<Range>, h: nat) { exists k :: 0 <= k < |ranges| && Holds(ranges[k], h) }

  lemma IdsHold(r: Range, h: nat)
    ensures h in Ids(r) <==> Holds(r, h)
  {
    if h in Ids(r) {
      var k :| 0 <= k < |Ids(r)| && Ids(r)[k] == h;
      assert AsU32(r.lo + k) == h;
    }
    if id :| r.lo <= id <= r.hi && AsU32(id) == h {
      assert Ids(r)[id - r.lo] == h;
    }
  }

  /** The ids reported are those of the ranges read, no more and no fewer. */
  lemma {:induction false} ExpandNames(ranges: seq<Range>, h: nat)
    ensures h in Expand(ranges) <==> Named(ranges, h)
  {
    hide Ids, Holds;
    if ranges != [] {
      var last := |ranges| - 1;
      var front := ranges[..last];
      ExpandNames(front, h);
      IdsHold(ranges[last], h);
      if k :| 0 <= k < |ranges| && Holds(ranges[k], h) && k != last {
        assert Holds(front[k], h);
      }
      if k :| 0 <= k < |front| && Holds(front[k], h) {
        assert Holds(ranges[k], h);
      }
    }
  }

  /** And there are as many as the sizes add up to. */
  lemma {:induction false} ExpandLength(ranges: seq<Range>)
    requires forall k :: 0 <= k < |ranges| ==> ranges[k].lo <= ranges[k].hi
    ensures |Expand(ranges)| == Total(ranges)
  {
    if ranges != [] {
      ExpandLength(ranges[..|ranges| - 1]);
    }
  }

  // ------------------------------------------------------------------ 64-bit counting

  /** The ids the loop reports with a counter of type long, or none if the counter overflows instead of passing hi. */
  function LoopIds(id: int, hi: int): Option<seq<nat>>
    requires id <= LONG_MAX
    decreases hi - id
  {
    if id > hi then Some([])
    else if id == LONG_MAX then None
    else match LoopIds(id + 1, hi) case None => None case Some(rest) => Some([id % TWO32] + rest)
  }

  /** The size of a range computed in type long, or none if that overflows. */
  function LongSize(r: Range): Option<int> {
    if r.hi - r.lo > LONG_MAX || r.hi - r.lo + 1 > LONG_MAX then None else Some(r.hi - r.lo + 1)
  }

  predicate InLong(r: Range) { r.hi < LONG_MAX && r.hi - r.lo < LONG_MAX }

  predicate InLongs(ranges: seq<Range>) { forall k :: 0 <= k < |ranges| ==> InLong(ranges[k]) }

  lemma IdsNext(id: int, hi: int)
    ensures id <= hi ==> Ids(Range(id, hi)) == [id % TWO32] + Ids(Range(id + 1, hi))
    ensures id > hi ==> Ids(Range(id, hi)) == []
  {
  }

  lemma {:induction false} LoopIdsIs(id: int, hi: int)
    requires id <= hi + 1 && hi <= LONG_MAX && id <= LONG_MAX
    ensures LoopIds(id, hi) == if hi < LONG_MAX then Some(Ids(Range(id, hi))) else None
    decreases hi - id
  {
    hide Ids;
    IdsNext(id, hi);
    if id <= hi && id < LONG_MAX {
      LoopIdsIs(id + 1, hi);
    }
  }

  /** The 64-bit loop and size agree with the unbounded ones exactly on the ranges of InLong. */
  lemma LongsAgreeIff(r: Range)
    requires r.lo <= r.hi <= LONG_MAX
    ensures LoopIds(r.lo, r.hi) == Some(Ids(r)) && LongSize(r) == Some(r.hi - r.lo + 1) <==> InLong(r)
    ensures !InLong(r) ==> LoopIds(r.lo, r.hi) == None || LongSize(r) == None
  {
    LoopIdsIs(r.lo, r.hi);
  }

  // ------------------------------------------------------------------ writing a list and reading it back

  function FormatOne(r: Range): string
    requires 0 <= r.lo <= r.hi
  {
    if r.lo == r.hi then Show(r.lo) else Show(r.lo) + "-" + Show(r.hi)
  }

  predicate Proper(ranges: seq<Range>) {
    forall k :: 0 <= k < |ranges| ==> 0 <= ranges[k].lo <= ranges[k].hi <= LONG_MAX
  }

  function Format(ranges: seq<Range>): string
    requires Proper(ranges)
  {
    if ranges == [] then "" else if |ranges| == 1 then FormatOne(ranges[0])
    else FormatOne(ranges[0]) + "," + Format(ranges[1..])
  }

  lemma {:induction false} DigitsEndIs(s: string, i: nat, j: nat)
    requires i <= j <= |s| && AllDigits(s[i..j]) && !IsDigit(CharAt(s, j))
    ensures DigitsEnd(s, i) == j
    decreases j - i
  {
    if i < j {
      assert s[i..j][0] == s[i] && s[i + 1..j] == s[i..j][1..];
      DigitsEndIs(s, i + 1, j);
    }
  }

  lemma {:induction false} SkipBlankIs(s: string, i: nat, j: nat)
    requires i <= j <= |s| && (forall k :: i <= k < j ==> IsBlank(s[k])) && !IsBlank(CharAt(s, j))
    ensures SkipBlank(s, i) == j
    decreases j - i
  {
    if i < j {
      SkipBlankIs(s, i + 1, j);
    }
  }

  /** All that strtol is asked to read: white space, a sign or none, digits; the value is the number written, cut to the
      range of a 64-bit integer. */
  lemma StrToLReads(s: string, i: nat, start: nat, sign: string, end: nat)
    requires i <= start && start + |sign| < end <= |s| && sign in ["", "+", "-"]
    requires forall k :: i <= k < start ==> s[k] in [' ', '\t', '\n', '\U{0B}', '\U{0C}', '\r']
    requires s[start..start + |sign|] == sign && AllDigits(s[start + |sign|..end]) && !IsDigit(CharAt(s, end))
    ensures var v: int := Value(s[start + |sign|..end]);
      StrToL(s, i) == Number(if sign == "-" then (if v > 0x8000_0000_0000_0000 then -0x8000_0000_0000_0000 else -v)
                             else if v > 0x7FFF_FFFF_FFFF_FFFF then 0x7FFF_FFFF_FFFF_FFFF else v, end)
  {
    var first := start + |sign|;
    assert s[first] == s[first..end][0];
    if sign != "" {
      assert s[start] == s[start..first][0] == sign[0];
    }
    SkipBlankIs(s, i, start);
    DigitsEndIs(s, first, end);
    NumeralIsValue(s, first, end);
    hide SkipBlank, DigitsEnd, Numeral, Value;
  }

  /** A number written at some place is what strtol reads there. */
  lemma StrToLShow(s: string, i: nat, n: nat)
    requires i + |Show(n)| <= |s| && s[i..i + |Show(n)|] == Show(n) && n <= LONG_MAX
    requires !IsDigit(CharAt(s, i + |Show(n)|))
    ensures StrToL(s, i) == Number(n, i + |Show(n)|)
  {
    ValueShow(n);
    hide StrToL, Show, Value;
    assert s[i..i] == "";
    StrToLReads(s, i, i, "", i + |Show(n)|);
  }

  /** A number stands at this place and no digit follows. */
  predicate Written(s: string, i: nat, n: nat) {
    && i + |Show(n)| <= |s| && s[i..i + |Show(n)|] == Show(n) && n <= LONG_MAX
    && !IsDigit(CharAt(s, i + |Show(n)|))
  }

  lemma StartsReading(s: string, i: nat, n: nat)
    requires Written(s, i, n)
    ensures CharAt(s, i) != '\0' && StrToL(s, i) == Number(n, i + |Show(n)|) && |Show(n)| > 0
  {
    StrToLShow(s, i, n);
    ValueShow(n);
    assert s[i] == Show(n)[0];
  }

  lemma ItemPair(s: string, i: nat, lo: Number, hi: Number)
    requires i < lo.end < |s| && StrToL(s, i) == lo && s[lo.end] == '-'
    requires lo.end + 1 < hi.end <= |s| && StrToL(s, lo.end + 1) == hi && lo.value <= hi.value
    ensures ReadItem(s, i) == Got(Range(lo.value, hi.value), hi.end)
  {
    hide StrToL;
  }

  /** What stands where, when the text from i on is known piece by piece. */
  lemma Cut(s: string, i: nat, a: string, b: string)
    requires i <= |s| && s[i..] == a + b
    ensures i + |a| <= |s| && s[i..i + |a|] == a && s[i + |a|..] == b
    ensures CharAt(s, i + |a|) == CharAt(b, 0)
  {
    assert (a + b)[..|a|] == a && (a + b)[|a|..] == b;
    assert b != [] ==> (a + b)[|a|] == b[0];
  }

  lemma CutPair(s: string, i: nat, a: string, b: string, rest: string)
    requires i <= |s| && s[i..] == a + "-" + b + rest
    ensures i + |a| + 1 + |b| <= |s| && s[i..i + |a|] == a && s[i + |a| + 1..i + |a| + 1 + |b|] == b
    ensures CharAt(s, i + |a|) == '-' && CharAt(s, i + |a| + 1 + |b|) == CharAt(rest, 0)
  {
    assert a + "-" + b + rest == a + ("-" + (b + rest));
    Cut(s, i, a, "-" + (b + rest));
    Cut(s, i + |a|, "-", b + rest);
    Cut(s, i + |a| + 1, b, rest);
  }

  lemma PairWritten(s: string, i: nat, lo: nat, hi: nat, rest: string)
    requires lo <= hi <= LONG_MAX && i <= |s| && s[i..] == Show(lo) + "-" + Show(hi) + rest
    requires CharAt(rest, 0) == '\0' || CharAt(rest, 0) == ','
    ensures Written(s, i, lo) && CharAt(s, i + |Show(lo)|) == '-' && Written(s, i + |Show(lo)| + 1, hi)
  {
    hide Show;
    CutPair(s, i, Show(lo), Show(hi), rest);
  }

  lemma ItemWritten(s: string, i: nat, lo: nat, hi: nat, mid: nat, end: nat)
    requires Written(s, i, lo) && mid == i + |Show(lo)| && CharAt(s, mid) == '-'
    requires Written(s, mid + 1, hi) && end == mid + 1 + |Show(hi)| && lo <= hi
    ensures ReadItem(s, i) == Got(Range(lo, hi), end) && CharAt(s, i) != '\0'
  {
    hide ReadItem, StrToL, Show, Written;
    StartsReading(s, i, lo);
    StartsReading(s, mid + 1, hi);
    ItemPair(s, i, Number(lo, mid), Number(hi, end));
  }

  lemma ItemSingle(s: string, i: nat, n: Number)
    requires i < n.end <= |s| && StrToL(s, i) == n && CharAt(s, n.end) != '-'
    ensures ReadItem(s, i) == Got(Range(n.value, n.value), n.end)
  {
    hide StrToL;
  }

  lemma ItemOf(s: string, i: nat, r: Range, rest: string)
    requires 0 <= r.lo <= r.hi <= LONG_MAX && i <= |s| && s[i..] == FormatOne(r) + rest
    requires CharAt(rest, 0) == '\0' || CharAt(rest, 0) == ','
    ensures ReadItem(s, i) == Got(r, i + |FormatOne(r)|) && CharAt(s, i) != '\0'
  {
    hide ReadItem, StrToL, Show;
    if r.lo == r.hi {
      Cut(s, i, Show(r.lo), rest);
      StartsReading(s, i, r.lo);
      ItemSingle(s, i, Number(r.lo, i + |Show(r.lo)|));
    } else {
      PairWritten(s, i, r.lo, r.hi, rest);
      ItemWritten(s, i, r.lo, r.hi, i + |Show(r.lo)|, i + |FormatOne(r)|);
    }
  }

  lemma ReadComma(s: string, i: nat, r: Range, j: nat)
    requires i <= |s| && CharAt(s, i) != '\0' && ReadItem(s, i) == Got(r, j) && CharAt(s, j) == ','
    ensures Read(s, i) == Prepend(r, Read(s, j + 1))
  {
  }

  lemma ReadEnd(s: string, i: nat, r: Range)
    requires i <= |s| && CharAt(s, i) != '\0' && ReadItem(s, i) == Got(r, |s|)
    ensures Read(s, i) == Reading([r], true)
  {
    assert Read(s, |s|) == Reading([], true);
  }

  lemma CutList(s: string, i: nat, one: string, tail: string)
    requires i <= |s| && s[i..] == one + "," + tail
    ensures i + |one| < |s| && s[i + |one|] == ',' && s[i + |one| + 1..] == tail && s[i..] == one + ("," + tail)
  {
    assert one + "," + tail == one + ("," + tail);
    Cut(s, i, one, "," + tail);
    Cut(s, i + |one|, ",", tail);
  }

  lemma ReadFirst(s: string, i: nat, r: Range, tail: string)
    requires 0 <= r.lo <= r.hi <= LONG_MAX && i <= |s| && s[i..] == FormatOne(r) + "," + tail
    ensures var j := i + |FormatOne(r)| + 1; j <= |s| && s[j..] == tail && Read(s, i) == Prepend(r, Read(s, j))
  {
    hide ReadItem, FormatOne, Read;
    CutList(s, i, FormatOne(r), tail);
    ItemOf(s, i, r, "," + tail);
    ReadComma(s, i, r, i + |FormatOne(r)|);
  }

  lemma ReadLast(s: string, i: nat, r: Range)
    requires 0 <= r.lo <= r.hi <= LONG_MAX && i <= |s| && s[i..] == FormatOne(r)
    ensures Read(s, i) == Reading([r], true)
  {
    hide ReadItem, Read, FormatOne;
    assert FormatOne(r) + "" == FormatOne(r);
    ItemOf(s, i, r, "");
    ReadEnd(s, i, r);
  }

  lemma FormatParts(ranges: seq<Range>)
    requires Proper(ranges)
    ensures |ranges| == 0 ==> Format(ranges) == ""
    ensures |ranges| == 1 ==> Format(ranges) == FormatOne(ranges[0])
    ensures |ranges| > 1 ==> Proper(ranges[1..]) && Format(ranges) == FormatOne(ranges[0]) + "," + Format(ranges[1..])
  {
  }

  lemma ReadNothing(s: string, i: nat)
    requires i <= |s| && s[i..] == ""
    ensures Read(s, i) == Reading([], true)
  {
  }

  lemma {:induction false} ReadFormatAt(s: string, i: nat, ranges: seq<Range>)
    requires i <= |s| && Proper(ranges) && s[i..] == Format(ranges)
    ensures Read(s, i) == Reading(ranges, true)
    decreases |ranges|
  {
    hide ReadItem, FormatOne, Format, Read;
    FormatParts(ranges);
    if |ranges| == 0 {
      ReadNothing(s, i);
    } else if |ranges| == 1 {
      ReadLast(s, i, ranges[0]);
      assert [ranges[0]] == ranges;
    } else {
      ReadFirst(s, i, ranges[0], Format(ranges[1..]));
      ReadFormatAt(s, i + |FormatOne(ranges[0])| + 1, ranges[1..]);
      assert [ranges[0]] + ranges[1..] == ranges;
    }
  }

  // ------------------------------------------------------------------ what an accepted list may hold

  /** White space, a digit, a sign or a comma. */
  predicate ListChar(c: char) {
    c == ' ' || c in ['\t', '\n', '\U{0B}', '\U{0C}', '\r'] || '0' <= c <= '9' || c in ['+', '-', ',']
  }

  predicate ListChars(s: string, i: nat, j: nat) { i <= j <= |s| && forall k :: i <= k < j ==> ListChar(s[k]) }

  lemma {:induction false} BlanksAreList(s: string, i: nat)
    requires i <= |s|
    ensures ListChars(s, i, SkipBlank(s, i))
    decreases |s| - i
  {
    if i < |s| && IsBlank(s[i]) {
      BlanksAreList(s, i + 1);
    }
  }

  lemma {:induction false} DigitsAreList(s: string, i: nat)
    requires i <= |s|
    ensures ListChars(s, i, DigitsEnd(s, i))
    decreases |s| - i
  {
    if i < |s| && IsDigit(s[i]) {
      DigitsAreList(s, i + 1);
    }
  }

  lemma NumbersAreList(s: string, i: nat)
    requires i <= |s|
    ensures ListChars(s, i, StrToL(s, i).end)
  {
    var start := SkipBlank(s, i);
    var first := if CharAt(s, start) == '-' || CharAt(s, start) == '+' then start + 1 else start;
    BlanksAreList(s, i);
    DigitsAreList(s, first);
    hide SkipBlank, DigitsEnd, Numeral;
  }

  lemma ItemsAreList(s: string, i: nat)
    requires i <= |s| && ReadItem(s, i).Got?
    ensures ListChars(s, i, ReadItem(s, i).end)
  {
    hide StrToL;
    NumbersAreList(s, i);
    var n := StrToL(s, i);
    if CharAt(s, n.end) == '-' {
      NumbersAreList(s, n.end + 1);
    }
  }

  /** A list with any other character in it is refused, wherever in the list that stands. */
  lemma {:induction false} AcceptedIsList(s: string, i: nat, j: nat)
    requires i <= j <= |s| && Read(s, i).ok && forall k :: i <= k < j ==> s[k] != '\0'
    ensures ListChars(s, i, j)
    decreases |s| - i
  {
    hide ReadItem;
    if i < j {
      ItemsAreList(s, i);
      var e := ReadItem(s, i).end;
      if e < j {
        AcceptedIsList(s, if s[e] == ',' then e + 1 else e, j);
      }
    }
  }

  /** Reading a written list gives back its ranges and accepts it. */
  lemma ReadFormat(ranges: seq<Range>)
    requires Proper(ranges)
    ensures Read(Format(ranges), 0) == Reading(ranges, true)
  {
    assert Format(ranges)[0..] == Format(ranges);
    ReadFormatAt(Format(ranges), 0, ranges);
  }

  /** On a written list the source's loops end exactly if no range ends at the largest long. */
  lemma FormatEnds(ranges: seq<Range>)
    requires Proper(ranges)
    ensures InLongs(Read(Format(ranges), 0).ranges) <==> forall k :: 0 <= k < |ranges| ==> ranges[k].hi < LONG_MAX
  {
    ReadFormat(ranges);
    hide Read, Format;
    if forall k :: 0 <= k < |ranges| ==> ranges[k].hi < LONG_MAX {
      forall k | 0 <= k < |ranges|
        ensures InLong(ranges[k])
      {
        assert 0 <= ranges[k].lo;
      }
    }
  }

  lemma FormatPair(lo: nat, hi: nat, a: string, b: string)
    requires lo < hi <= LONG_MAX && Show(lo) == a && Show(hi) == b
    ensures Format([Range(lo, hi)]) == a + "-" + b
  {
    hide Show;
  }

  lemma FormatMax(max: nat)
    requires max == LONG_MAX
    ensures Format([Range(0, max)]) == "0-9223372036854775807"
  {
    MaxText();
    ShowValue(MAX_TEXT);
    ShowZero();
    hide Value, Show, Format;
    FormatPair(0, max, "0", MAX_TEXT);
    assert "0" + "-" + MAX_TEXT == "0-9223372036854775807";
  }

  lemma ShowZero()
    ensures Show(0) == "0"
  {
  }

  /** A text on which they do not. */
  lemma LargestLong()
    ensures Read("0-9223372036854775807", 0) == Reading([Range(0, LONG_MAX)], true)
    ensures LoopIds(0, LONG_MAX) == None
  {
    var max: nat := LONG_MAX;
    ReadFormat([Range(0, max)]);
    FormatMax(max);
    hide *;
    LoopIdsIs(0, max);
  }
}
