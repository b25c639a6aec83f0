/** What the lane check admits, and the arms the probe is shipped with. */
module LaneArms {
  import opened Arith
  import opened OverlappingAdds

  lemma {:induction false} HighestBelow(v: nat, k: nat)
    requires k > 0
    ensures HighestBit(v) < k <==> v < Up(1, k)
  {
    if v / 2 == 0 {
      UpMonotonic(1, 1, k);
    } else if k > 1 {
      HighestBelow(v / 2, k - 1);
    }
  }

  /** The first half of the check is what it is meant to be: all adds together stay inside the operand. */
  lemma FitsIff(iters: nat, o: Operand)
    requires Arm(iters, o) && o.opbytes > 0
    ensures FitsOperand(iters, o) <==> iters * o.unit < Up(1, 8 * o.opbytes)
  {
    MulMonotonic(iters, 65535, o.unit);
    HighestBelow(Total(iters, o), 8 * o.opbytes);
  }

  lemma {:induction false} LowestOfPower(s: nat)
    ensures Up(1, s) > 0 && LowestBit(Up(1, s)) == s
  {
    if s > 0 {
      LowestOfPower(s - 1);
    }
  }

  /** The lane of a unit with a single bit: from that bit on, at most sixteen bits wide. */
  lemma PowerLane(iters: nat, o: Operand, s: nat)
    requires Arm(iters, o) && o.unit == Up(1, s)
    ensures LaneLo(o) == o.Lo() + s && LaneHi(iters, o) < o.Lo() + s + 16
    ensures s + 16 <= 8 * o.opbytes ==> FitsOperand(iters, o)
  {
    LowestOfPower(s);
    PowerTotal(iters, o, s, 16);
    hide Up, LowestBit, HighestBit, Total;
    HighestBelow(Total(iters, o), s + 16);
  }

  lemma PowerTotal(iters: nat, o: Operand, s: nat, k: nat)
    requires Arm(iters, o) && o.unit == Up(1, s) && k == 16
    ensures Total(iters, o) < Up(1, s + k)
  {
    hide Up;
    UpBy16(1, k);
    LowestOfPower(s);
    UpScale(iters, 1, s);
    PackBound(iters, 0, s, k);
    MulMonotonic(iters, 65535, o.unit);
  }

  /** Two such lanes sixteen bits apart pass the check. */
  lemma ApartPass(iters: nat, p: Operand, s: nat, q: Operand, t: nat)
    requires Arm(iters, p) && p.unit == Up(1, s) && s + 16 <= 8 * p.opbytes
    requires Arm(iters, q) && q.unit == Up(1, t) && t + 16 <= 8 * q.opbytes
    requires p.Lo() + s + 16 <= q.Lo() + t
    ensures LaneCheck(iters, p, q)
  {
    PowerLane(iters, p, s);
    PowerLane(iters, q, t);
    hide FitsOperand, LaneHi, LaneLo;
  }

  /** The five arms of the table, each as its two operands. */
  const ARMS := [
    (Operand(3, 4, 0x100), Operand(4, 4, 0x1_0000)),
    (Operand(4, 4, 1), Operand(4, 4, 0x1_0000)),
    (Operand(3, 4, 1), Operand(3, 4, 0x1_0000)),
    (Operand(61, 8, 0x100_0000), Operand(64, 8, 0x100_0000)),
    (Operand(64, 8, 1), Operand(64, 8, 0x100_0000))]

  /** Every arm passes its check, for every number of iterations the command line admits. */
  lemma ArmsPass(iters: nat, k: nat)
    requires 0 < iters <= 65535 && k < |ARMS|
    ensures Arm(iters, ARMS[k].0) && Arm(iters, ARMS[k].1) && LaneCheck(iters, ARMS[k].0, ARMS[k].1)
  {
    var zero, eight, sixteen, more: nat := 0, 8, 16, 24;
    assert Up(1, zero) == 1;
    UpBy8(1, eight);
    UpBy16(1, sixteen);
    UpAdd(1, eight, sixteen);
    UpBy16(0x100, sixteen);
    assert Up(1, more) == 0x100_0000;
    hide LaneCheck, Up;
    if k == 0 { ApartPass(iters, ARMS[0].0, eight, ARMS[0].1, sixteen); }
    else if k == 1 { ApartPass(iters, ARMS[1].0, zero, ARMS[1].1, sixteen); }
    else if k == 2 { ApartPass(iters, ARMS[2].0, zero, ARMS[2].1, sixteen); }
    else if k == 3 { ApartPass(iters, ARMS[3].0, more, ARMS[3].1, more); }
    else { ApartPass(iters, ARMS[4].0, zero, ARMS[4].1, more); }
  }

  /** So every shipped arm ends in the image the probe predicts, whatever the interleaving. */
  lemma ArmsLoseNothing(iters: nat, k: nat, schedule: seq<bool>)
    requires 0 < iters <= 65535 && k < |ARMS| && Count(schedule, false) == iters && Count(schedule, true) == iters
    ensures var p, q := ARMS[k].0, ARMS[k].1;
      RunAdds(p, q, schedule) == AddAt(AddAt(0, p.off, iters * p.unit), q.off, iters * q.unit)
  {
    hide *;
    ArmsPass(iters, k);
    NothingLost(iters, ARMS[k].0, ARMS[k].1, schedule);
  }

  /** For the headline arm that is the iteration count in bits 32 to 47 and again in bits 48 to 63, and nothing else. */
  lemma HeadlineImage(iters: nat, schedule: seq<bool>)
    requires 0 < iters <= 65535 && Count(schedule, false) == iters && Count(schedule, true) == iters
    ensures RunAdds(Operand(3, 4, 0x100), Operand(4, 4, 0x1_0000), schedule) ==
            iters * 0x1_0000_0000 + iters * 0x1_0000_0000_0000
  {
    hide LaneCheck, Arm, RunAdds, Image, OverlappingAdds.Count;
    var p, q := ARMS[0].0, ARMS[0].1;
    ArmsPass(iters, 0);
    RunIsImage(iters, p, q, schedule);
    TwoLanes(iters, p, q);
  }

  lemma TwoLanes(n: nat, p: Operand, q: Operand)
    requires p == Operand(3, 4, 0x100) && q == Operand(4, 4, 0x1_0000)
    ensures Image(p, n, q, n) == n * 0x1_0000_0000 + n * 0x1_0000_0000_0000
  {
    hide Up;
    var eight, sixteen, most: nat := 8, 16, 32;
    UpAdd(n * 0x100, eight, sixteen);
    UpBy8(n * 0x100, eight);
    UpBy16(n * 0x1_0000, sixteen);
    UpBy32(n * 0x1_0000, most);
    assert p.Lo() == eight + sixteen && q.Lo() == most;
  }
}
