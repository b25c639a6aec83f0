/** The buffer the online file is read into, and which lists it can hold. */
module CpuBuffer {
  import opened Decimal
  import opened CpuList

  /** fread of up to 255 bytes, one final newline taken off. */
  function Buffered(content: string): string {
    var b := if |content| > 255 then content[..255] else content;
    if b != [] && b[|b| - 1] == '\n' then b[..|b| - 1] else b
  }

  // ------------------------------------------------------------------ a written number is the shortest text for it

  lemma {:induction false} ShowLonger(a: nat, b: nat)
    requires a <= b
    ensures |Show(a)| <= |Show(b)|
  {
    if b >= 10 {
      if a >= 10 {
        ShowLonger(a / 10, b / 10);
      }
    }
  }

  lemma {:induction false} ShowShortest(s: string)
    requires s != []
    ensures |Show(Value(s))| <= |s|
  {
    var front := s[..|s| - 1];
    if front == [] {
      assert Value(s) == Digit(s[0]);
    } else if Value(s) >= 10 {
      ShowShortest(front);
      assert Value(s) / 10 == Value(front);
    }
  }

  lemma BlankSkipped(s: string, i: nat)
    requires i <= |s|
    ensures i < |s| && IsBlank(s[i]) ==> SkipBlank(s, i) > i
  {
  }

  /** How many characters must be read before the number starts. */
  function Lead(s: string, i: nat): nat { if i < |s| && IsBlank(s[i]) then 1 else 0 }

  lemma NumberTakes(s: string, i: nat)
    requires i <= |s| && StrToL(s, i).end != i && StrToL(s, i).value >= 0
    ensures StrToL(s, i).end - i >= Lead(s, i) + |Show(StrToL(s, i).value)|
  {
    BlankSkipped(s, i);
    var start := SkipBlank(s, i);
    var first := if CharAt(s, start) == '-' || CharAt(s, start) == '+' then start + 1 else start;
    var end := DigitsEnd(s, first);
    hide SkipBlank, DigitsEnd, Show;
    NumeralIsValue(s, first, end);
    ShowShortest(s[first..end]);
    ShowLonger(StrToL(s, i).value, Numeral(s, first, end));
  }

  lemma ItemTakes(s: string, i: nat)
    requires i <= |s| && ReadItem(s, i).Got? && ReadItem(s, i).r.lo >= 0
    ensures ReadItem(s, i).end - i >= Lead(s, i) + |FormatOne(ReadItem(s, i).r)|
  {
    hide StrToL, Show;
    NumberTakes(s, i);
    var n := StrToL(s, i);
    if CharAt(s, n.end) == '-' {
      NumberTakes(s, n.end + 1);
    }
  }

  /** Whatever text ranges were read from, it is at least as long as the list written out. */
  lemma {:induction false} FormatShortest(s: string, i: nat)
    requires i <= |s| && Proper(Read(s, i).ranges)
    ensures Read(s, i).ranges != [] ==> Lead(s, i) + |Format(Read(s, i).ranges)| <= |s| - i
    decreases |s| - i
  {
    hide ReadItem, FormatOne, Lead;
    if CharAt(s, i) != '\0' && ReadItem(s, i).Got? {
      var r, j := ReadItem(s, i).r, ReadItem(s, i).end;
      var ranges := Read(s, i).ranges;
      assert ranges[0] == r;
      ItemTakes(s, i);
      var k := if CharAt(s, j) == ',' then j + 1 else j;
      if CharAt(s, j) == ',' || CharAt(s, j) == '\0' || CharAt(s, j) == '\n' {
        assert ranges[1..] == Read(s, k).ranges;
        assert forall n :: 0 <= n < |ranges[1..]| ==> ranges[1..][n] == ranges[n + 1];
        FormatShortest(s, k);
        NewlineLeads(s, j);
        if CharAt(s, j) == '\0' {
          assert Read(s, j).ranges == [];
        }
      }
    }
  }

  lemma NewlineLeads(s: string, j: nat)
    ensures CharAt(s, j) == '\n' ==> Lead(s, j) == 1
  {
  }

  // ------------------------------------------------------------------ what the buffer holds

  lemma {:induction false} FormatEndsInDigit(ranges: seq<Range>)
    requires Proper(ranges) && ranges != []
    ensures Format(ranges) != [] && IsDigit(Format(ranges)[|Format(ranges)| - 1]) && |Format(ranges)| >= |ranges|
  {
    OneEndsInDigit(ranges[0]);
    FormatParts(ranges);
    hide FormatOne, Format;
    if |ranges| > 1 {
      FormatEndsInDigit(ranges[1..]);
    }
  }

  lemma OneEndsInDigit(r: Range)
    requires 0 <= r.lo <= r.hi
    ensures FormatOne(r) != [] && IsDigit(FormatOne(r)[|FormatOne(r)| - 1])
  {
    ValueShow(r.lo);
    ValueShow(r.hi);
    hide Show;
  }

  /** The list as the kernel writes it, with or without the newline. */
  function File(ranges: seq<Range>, newline: bool): string
    requires Proper(ranges)
  {
    Format(ranges) + if newline then "\n" else ""
  }

  lemma ShortFile(text: string, newline: bool)
    requires |text| <= 255 && (text != [] ==> text[|text| - 1] != '\n')
    ensures Buffered(text + if newline then "\n" else "") == text
  {
    var content := text + if newline then "\n" else "";
    if |content| > 255 {
      assert content[..255] == text;
    } else if newline {
      assert content[..|content| - 1] == text;
    }
  }

  /** All of a list is read exactly if its text fits into the 255 bytes of the buffer. */
  lemma BufferHoldsIff(ranges: seq<Range>, newline: bool)
    requires Proper(ranges)
    ensures Read(Buffered(File(ranges, newline)), 0).ranges == ranges <==> |Format(ranges)| <= 255
    ensures |Format(ranges)| <= 255 ==> Read(Buffered(File(ranges, newline)), 0).ok
  {
    hide Read, Format;
    var b := Buffered(File(ranges, newline));
    if ranges != [] {
      FormatEndsInDigit(ranges);
    } else {
      FormatNothing();
    }
    if |Format(ranges)| <= 255 {
      ShortFile(Format(ranges), newline);
      ReadFormat(ranges);
    } else if Read(b, 0).ranges == ranges {
      FormatShortest(b, 0);
    }
  }

  lemma FormatNothing()
    ensures Format([]) == ""
  {
  }

  lemma {:induction false} ThreeDigitsEach(ranges: seq<Range>)
    requires Proper(ranges) && ranges != [] && forall k :: 0 <= k < |ranges| ==> ranges[k].lo >= 100
    ensures |Format(ranges)| >= 4 * |ranges| - 1
  {
    var lo := ranges[0].lo;
    assert |Show(lo)| == |Show(lo / 10)| + 1 && |Show(lo / 10)| == |Show(lo / 10 / 10)| + 1;
    ValueShow(lo / 10 / 10);
    hide Show;
    if |ranges| > 1 {
      ThreeDigitsEach(ranges[1..]);
    }
  }

  /** A list that is cut: one thread in eight of 65 cores, from CPU 104 on. */
  lemma OnePerCoreIsCut(newline: bool)
    ensures var ranges := seq(65, k => Range(104 + 8 * k, 104 + 8 * k));
      Proper(ranges) && Read(Buffered(File(ranges, newline)), 0).ranges != ranges
  {
    hide Read, Format;
    var ranges := seq(65, k => Range(104 + 8 * k, 104 + 8 * k));
    ThreeDigitsEach(ranges);
    BufferHoldsIff(ranges, newline);
  }
}
