/** The builder that fills both tables in place while a CPU list is parsed. */
module CpuIdBuilder {
  import opened Options
  import opened CpuList
  import opened CpuBuffer
  import opened CpuIdMap

  lemma ExpandAppend(ranges: seq<Range>, r: Range)
    ensures Expand(ranges + [r]) == Expand(ranges) + Ids(r)
    ensures Total(ranges + [r]) == Total(ranges) + r.hi - r.lo + 1
  {
    assert (ranges + [r])[..|ranges|] == ranges;
  }

  /** The ranges read before i, and what reading on from i adds. */
  predicate ReadTo(s: string, i: nat, done: seq<Range>) {
    i <= |s| && Read(s, 0) == Reading(done + Read(s, i).ranges, Read(s, i).ok)
  }

  predicate Closes(c: char) { c == ',' || c == '\0' || c == '\n' }

  lemma ReadToStart(s: string)
    ensures ReadTo(s, 0, []) && Expand([]) == [] && Total([]) == 0
  {
    hide ReadItem;
    assert [] + Read(s, 0).ranges == Read(s, 0).ranges;
  }

  lemma AddNone(m: Tables, affinity: Option<set<nat>>)
    requires Full(m)
    ensures AddAll(m, [], affinity) == m
  {
  }

  lemma ReadToEnd(s: string, i: nat, done: seq<Range>)
    requires ReadTo(s, i, done)
    ensures CharAt(s, i) == '\0' ==> Read(s, 0) == Reading(done, true)
    ensures CharAt(s, i) != '\0' && ReadItem(s, i).Bad? ==> Read(s, 0) == Reading(done, false)
  {
    hide ReadItem;
    assert done + [] == done;
  }

  lemma ReadToNext(s: string, i: nat, done: seq<Range>, r: Range, j: nat)
    requires ReadTo(s, i, done) && CharAt(s, i) != '\0' && ReadItem(s, i) == Got(r, j)
    ensures r.lo <= r.hi <= LONG_MAX && r in Read(s, 0).ranges
    ensures !Closes(CharAt(s, j)) ==> Read(s, 0) == Reading(done + [r], false)
    ensures Closes(CharAt(s, j)) ==> ReadTo(s, if CharAt(s, j) == ',' then j + 1 else j, done + [r])
  {
    hide ReadItem;
    assert (done + [r])[|done|] == r;
    if Closes(CharAt(s, j)) {
      var next := if CharAt(s, j) == ',' then j + 1 else j;
      assert done + ([r] + Read(s, next).ranges) == (done + [r]) + Read(s, next).ranges;
    }
  }

  /** The running count with one more range, in 32 bits. */
  function CountOn(count: nat, r: Range): nat { (count + (r.hi - r.lo + 1) % TWO32) % TWO32 }

  lemma Counts(done: seq<Range>, r: Range)
    ensures CountOn(Total(done) % TWO32, r) == Total(done + [r]) % TWO32
  {
    ExpandAppend(done, r);
  }

  lemma OverflowIff(r: Range)
    ensures InLong(r) <==> r.hi < LONG_MAX && r.hi - r.lo < LONG_MAX
  {
  }

  class Builder {
    const hostToGuest: array<int>
    const guestToHost: array<nat>
    var dense: nat
    const affinity: Option<set<nat>>

    ghost function Value(): Tables
      reads this, hostToGuest, guestToHost
    {
      Tables(hostToGuest[..], guestToHost[..], dense)
    }

    ghost predicate Valid()
      reads this, hostToGuest, guestToHost
    {
      Full(Value()) && hostToGuest.Length == MAX_HOST && guestToHost.Length == MAX_HOST
    }

    constructor (affinity: Option<set<nat>>)
      ensures Valid() && Value() == Empty() && this.affinity == affinity
      ensures fresh(hostToGuest) && fresh(guestToHost)
    {
      hostToGuest := new int[MAX_HOST](i => -1);
      guestToHost := new nat[MAX_HOST](i => 0);
      dense := 0;
      this.affinity := affinity;
      new;
      assert Full(Empty());
      assert hostToGuest[..] == Unassigned(MAX_HOST) && guestToHost[..] == Zeros(MAX_HOST);
    }

    /** One id is offered; both table entries are written together. */
    method Offer(h: nat)
      requires Valid()
      modifies this, hostToGuest, guestToHost
      ensures Valid() && Value() == Add(old(Value()), h, affinity)
    {
      if h >= MAX_HOST || hostToGuest[h] != -1 {
        return;
      }
      if affinity.Some? && !(h in affinity.value && h < CPU_SETSIZE) {
        return;
      }
      Room(Value(), h);
      hostToGuest[h] := dense;
      guestToHost[dense] := h;
      dense := dense + 1;
      assert Value() == Add(old(Value()), h, affinity);
    }

    /** The loop over a range, its counter a long; false if the counter overflows when the last id has been offered. */
    method OfferRange(r: Range) returns (ended: bool)
      requires Valid() && r.lo <= r.hi <= LONG_MAX
      modifies this, hostToGuest, guestToHost
      ensures Valid() && Value() == AddAll(old(Value()), Ids(r), affinity)
      ensures ended <==> r.hi < LONG_MAX
    {
      hide Add, Full;
      var id := r.lo;
      ghost var all := Ids(r);
      while id <= r.hi
        invariant r.lo <= id <= r.hi + 1 && id <= LONG_MAX
        invariant Valid() && Value() == AddAll(old(Value()), all[..id - r.lo], affinity)
        decreases r.hi + 1 - id
      {
        assert all[..id - r.lo + 1][..id - r.lo] == all[..id - r.lo];
        Offer(id % TWO32);
        if id == LONG_MAX {
          assert all[..id - r.lo + 1] == all;
          return false;
        }
        id := id + 1;
      }
      assert all[..id - r.lo] == all;
      return true;
    }

    method OfferUpto(n: nat)
      requires Valid()
      modifies this, hostToGuest, guestToHost
      ensures Valid() && Value() == AddAll(old(Value()), Upto(n), affinity)
    {
      hide Add, Full;
      var i := 0;
      while i < n
        invariant 0 <= i <= n
        invariant Valid() && Value() == AddAll(old(Value()), Upto(i), affinity)
      {
        assert Upto(i + 1)[..i] == Upto(i);
        Offer(i);
        i := i + 1;
      }
    }

    /** ParseCPUListForEach with the builder as callback; None if a 64-bit counter or size overflows on the way. */
    method Parse(s: string) returns (count: Option<nat>)
      requires Valid()
      modifies this, hostToGuest, guestToHost
      ensures Valid() && (count.Some? <==> InLongs(Read(s, 0).ranges))
      ensures count.Some? ==>
        && Value() == AddAll(old(Value()), Expand(Read(s, 0).ranges), affinity)
        && count.value == Count(Read(s, 0))
    {
      hide Add, AddAll, Full, Read, ReadItem, ReadTo, Ids, Expand, Total, CountOn, InLong;
      var total: nat := 0;
      var i: nat := 0;
      ghost var done: seq<Range> := [];
      ReadToStart(s);
      AddNone(Value(), affinity);
      while CharAt(s, i) != '\0'
        invariant i <= |s| && Valid() && ReadTo(s, i, done)
        invariant Value() == AddAll(old(Value()), Expand(done), affinity)
        invariant total == Total(done) % TWO32 && InLongs(done)
        decreases |s| - i
      {
        var item := ReadItem(s, i);
        ReadToEnd(s, i, done);
        if item.Bad? {
          return Some(0);
        }
        ReadToNext(s, i, done, item.r, item.end);
        ExpandAppend(done, item.r);
        AddAllTwice(old(Value()), Expand(done), Ids(item.r), affinity);
        OverflowIff(item.r);
        var ended := OfferRange(item.r);
        if !ended || item.r.hi - item.r.lo >= LONG_MAX {
          return None;
        }
        Counts(done, item.r);
        total := CountOn(total, item.r);
        done := done + [item.r];
        if CharAt(s, item.end) == ',' {
          i := item.end + 1;
        } else if CharAt(s, item.end) != '\0' && CharAt(s, item.end) != '\n' {
          return Some(0);
        } else {
          i := item.end;
        }
      }
      ReadToEnd(s, i, done);
      return Some(total);
    }
  }

  /** The whole construction: the online list, then the fallback if that list gave nothing.  It comes to an end exactly
      if the ranges read can be counted in 64 bits. */
  method GetMap(i: Input) returns (b: Builder, count: Option<nat>)
    ensures fresh(b) && fresh(b.hostToGuest) && fresh(b.guestToHost)
    ensures count.Some? <==> InLongs(Listed(i).ranges)
    ensures count.Some? ==> b.Valid() && b.Value() == Build(i).tables && count.value == Build(i).count
  {
    hide Add, AddAll, Full, Read;
    b := new Builder(i.affinity);
    var parsed: Option<nat> := Some(0);
    AddNone(b.Value(), i.affinity);
    ghost var listed := Expand(Listed(i).ranges);
    if i.online.Some? {
      parsed := b.Parse(Buffered(i.online.value));
    }
    if parsed.None? {
      return b, None;
    }
    assert b.Value() == AddAll(Empty(), listed, i.affinity) && parsed.value == Count(Listed(i));
    if parsed.value == 0 {
      var n := if i.affinity.Some? then CPU_SETSIZE else if i.reported < MAX_HOST then i.reported else MAX_HOST;
      AddAllTwice(Empty(), listed, Upto(n), i.affinity);
      b.OfferUpto(n);
    } else {
      assert listed + [] == listed;
    }
    var guests := if b.dense == 0 then 1 else b.dense;
    var most := Override(i.configured);
    if 0 < most < guests {
      guests := most;
    }
    return b, Some(guests);
  }
}
