/** Which host CPUs the guest sees, and how many it is told of. */
module CpuShown {
  import opened Options
  import opened CpuList
  import opened CpuBuffer
  import opened CpuIdMap

  /** Some guest id below the count stands for the host. */
  ghost predicate Shown(m: Map, h: nat)
    requires |m.tables.guestToHost| == MAX_HOST && m.count <= MAX_HOST
  {
    exists g: nat :: g < m.count && GuestToHost(m, g) == h
  }

  /** The host is below 4096 and in the affinity mask, if there is one; the mask has 1024 places. */
  predicate Allowed(h: nat, affinity: Option<set<nat>>) {
    h < 4096 && match affinity { case None => true case Some(mask) => h < 1024 && h in mask }
  }

  /** The list names the host; or the list counts for nothing, and the mask or the reported number admits it. */
  ghost predicate Wanted(i: Input, h: nat) {
    && Allowed(h, i.affinity)
    && (Named(Listed(i).ranges, h) || (Count(Listed(i)) == 0 && (i.affinity.None? ==> h < i.reported)))
  }

  predicate NoOverride(i: Input) { i.configured == 0 || i.configured > 4096 }

  lemma OfferedIs(i: Input, h: nat)
    ensures h in Offered(i) && Usable(h, i.affinity) <==> Wanted(i, h)
  {
    ExpandNames(Listed(i).ranges, h);
    hide Expand, Named, Listed, Count;
    var n := if i.affinity.Some? then CPU_SETSIZE else if i.reported < MAX_HOST then i.reported else MAX_HOST;
    InUpto(h, n);
  }

  lemma InUpto(h: nat, n: nat)
    ensures h in Upto(n) <==> h < n
  {
    if h < n {
      assert Upto(n)[h] == h;
    }
  }

  /** What the tables hold before the count is cut. */
  lemma DenseIs(i: Input)
    ensures var m := Build(i); m.tables.guestToHost[..m.tables.dense] == Firsts(Offered(i), i.affinity)
  {
    NumberedByFirstMention(Offered(i), i.affinity);
    hide Offered, Firsts, AddAll;
  }

  lemma ShownAmongFirsts(i: Input, h: nat)
    requires NoOverride(i)
    ensures var firsts := Firsts(Offered(i), i.affinity);
      Shown(Build(i), h) <==> if firsts == [] then h == 0 else h in firsts
  {
    DenseIs(i);
    var m := Build(i);
    var firsts := Firsts(Offered(i), i.affinity);
    assert m.tables.dense == |firsts| && Inverse(m.tables);
    hide Build, Offered, Firsts;
    CountWithoutOverride(i, m);
    forall g: nat | g < |firsts|
      ensures GuestToHost(m, g) == firsts[g]
    {
      assert m.tables.guestToHost[..m.tables.dense][g] == m.tables.guestToHost[g];
    }
    if firsts == [] {
      assert GuestToHost(m, 0) == 0;
    } else if h in firsts {
      var g :| 0 <= g < |firsts| && firsts[g] == h;
      assert GuestToHost(m, g) == h;
    }
  }

  lemma CountWithoutOverride(i: Input, m: Map)
    requires NoOverride(i) && m == Build(i)
    ensures m.count == if m.tables.dense == 0 then 1 else m.tables.dense
  {
  }

  /** Without an override the guest sees just the wanted hosts, or host 0 alone if none is wanted. */
  lemma ShownIff(i: Input, h: nat)
    requires NoOverride(i)
    ensures Shown(Build(i), h) <==> if exists x: nat :: Wanted(i, x) then Wanted(i, h) else h == 0
  {
    ShownAmongFirsts(i, h);
    var firsts := Firsts(Offered(i), i.affinity);
    forall x: nat
      ensures x in firsts <==> Wanted(i, x)
    {
      FirstsCover(Offered(i), i.affinity, x);
      OfferedIs(i, x);
    }
    hide Shown, Build, Firsts, Offered, Wanted;
    if firsts != [] {
      assert firsts[0] in firsts;
    }
  }

  // ------------------------------------------------------------------ how many

  predicate Distinct(s: seq<nat>) { forall i, j :: 0 <= i < j < |s| ==> s[i] != s[j] }

  lemma {:induction false} FirstsDistinct(ids: seq<nat>, affinity: Option<set<nat>>)
    ensures Distinct(Firsts(ids, affinity))
  {
    if ids != [] {
      FirstsDistinct(ids[..|ids| - 1], affinity);
    }
  }

  lemma {:induction false} DistinctSize(s: seq<nat>, all: set<nat>)
    requires Distinct(s) && forall x :: x in all <==> x in s
    ensures |all| == |s|
  {
    if s == [] {
      assert all == {};
    } else {
      var last := s[|s| - 1];
      DistinctSize(s[..|s| - 1], all - {last});
    }
  }

  ghost function AllWanted(i: Input): set<nat> { set h: nat | h < 4096 && Wanted(i, h) }

  /** The guest is told of as many CPUs as are wanted, of one if none is, and of no more than a number from 1 to 4096
      that is configured. */
  lemma CountIs(i: Input)
    ensures var most := if AllWanted(i) == {} then 1 else |AllWanted(i)|;
      Build(i).count == if 1 <= i.configured <= 4096 && i.configured < most then i.configured else most
  {
    DenseIs(i);
    var firsts := Firsts(Offered(i), i.affinity);
    FirstsDistinct(Offered(i), i.affinity);
    forall x: nat
      ensures x in firsts <==> x in AllWanted(i)
    {
      FirstsCover(Offered(i), i.affinity, x);
      OfferedIs(i, x);
    }
    assert Build(i).tables.dense == |firsts|;
    hide Firsts, Offered, Wanted, AllWanted;
    DistinctSize(firsts, AllWanted(i));
  }

  /** An override only cuts the count: the guest ids that remain stand for the same hosts. */
  lemma OverrideOnlyCuts(i: Input, configured: nat, g: nat)
    requires g < Build(i).count && g < Build(i.(configured := configured)).count
    ensures GuestToHost(Build(i), g) == GuestToHost(Build(i.(configured := configured)), g)
  {
    assert Offered(i) == Offered(i.(configured := configured));
  }

  /** A host that some guest id stands for is reported as that id; any other by its remainder. */
  lemma HostIsReported(i: Input, h: nat)
    ensures var m := Build(i);
      && (forall g: nat :: g < m.count && GuestToHost(m, g) == h ==> HostToGuest(m, h) == g)
      && (!Shown(m, h) ==> HostToGuest(m, h) == h % m.count)
      && (forall g: nat :: g >= m.count ==> GuestToHost(m, g) == g)
  {
    DenseBijection(i);
    var m := Build(i);
    assert Inverse(m.tables);
    hide Build;
    if h < MAX_HOST && 0 <= m.tables.hostToGuest[h] < m.count {
      assert GuestToHost(m, m.tables.hostToGuest[h]) == h;
    }
  }

  // ------------------------------------------------------------------ from the file

  /** h lies in one of the ranges and may be used. */
  ghost predicate Online(ranges: seq<Range>, affinity: Option<set<nat>>, h: nat) {
    (exists k :: 0 <= k < |ranges| && ranges[k].lo <= h <= ranges[k].hi) && Allowed(h, affinity)
  }

  predicate Small(ranges: seq<Range>) { forall k :: 0 <= k < |ranges| ==> 0 <= ranges[k].lo <= ranges[k].hi < 4096 }

  lemma {:induction false} SmallTotal(ranges: seq<Range>)
    requires Small(ranges)
    ensures |ranges| <= Total(ranges) <= 4096 * |ranges|
  {
    if ranges != [] {
      SmallTotal(ranges[..|ranges| - 1]);
    }
  }

  lemma SmallNames(ranges: seq<Range>, h: nat)
    requires Small(ranges)
    ensures Named(ranges, h) <==> exists k :: 0 <= k < |ranges| && ranges[k].lo <= h <= ranges[k].hi
  {
    if k :| 0 <= k < |ranges| && Holds(ranges[k], h) {
      var id :| ranges[k].lo <= id <= ranges[k].hi && AsU32(id) == h;
      assert id == h;
    }
    if k :| 0 <= k < |ranges| && ranges[k].lo <= h <= ranges[k].hi {
      assert AsU32(h) == h;
      assert Holds(ranges[k], h);
    }
  }

  lemma AllIsListed(ranges: seq<Range>, newline: bool, i: Input)
    requires ranges != [] && Small(ranges) && |Format(ranges)| <= 255 && i.online == Some(File(ranges, newline))
    ensures Listed(i).ranges == ranges && Count(Listed(i)) > 0
  {
    hide Read, Format, Buffered, Total;
    BufferHoldsIff(ranges, newline);
    FormatEndsInDigit(ranges);
    SmallTotal(ranges);
  }

  lemma WantedIsOnline(ranges: seq<Range>, i: Input, h: nat)
    requires Small(ranges) && Listed(i).ranges == ranges && Count(Listed(i)) > 0
    ensures Wanted(i, h) <==> Online(ranges, i.affinity, h)
  {
    hide Listed, Count, Named, Allowed;
    SmallNames(ranges, h);
  }

  /** From the file to the guest: for every list of CPUs below 4096 that fits the buffer, written out with or without
      a newline, the guest sees exactly the listed CPUs that the mask allows, or host 0 if there are none. */
  lemma ListedAreShown(ranges: seq<Range>, newline: bool, i: Input, h: nat)
    requires ranges != [] && Small(ranges) && |Format(ranges)| <= 255
    requires i.online == Some(File(ranges, newline)) && NoOverride(i)
    ensures Shown(Build(i), h) <==>
            if exists x: nat :: Online(ranges, i.affinity, x) then Online(ranges, i.affinity, h) else h == 0
  {
    hide Format, File, Listed, Build, Shown, Count, Wanted, Online, Small;
    AllIsListed(ranges, newline, i);
    forall x: nat
      ensures Wanted(i, x) <==> Online(ranges, i.affinity, x)
    {
      WantedIsOnline(ranges, i, x);
    }
    ShownIff(i, h);
  }

  /** Without the file: the CPUs of the mask, or as many as are reported. */
  lemma FallbackIsShown(i: Input, h: nat)
    requires i.online.None? && NoOverride(i)
    requires exists x: nat :: Allowed(x, i.affinity) && (i.affinity.None? ==> x < i.reported)
    ensures Shown(Build(i), h) <==> Allowed(h, i.affinity) && (i.affinity.None? ==> h < i.reported)
  {
    hide Build, Shown;
    forall x: nat
      ensures Wanted(i, x) <==> Allowed(x, i.affinity) && (i.affinity.None? ==> x < i.reported)
    {
    }
    hide Wanted, Allowed;
    ShownIff(i, h);
  }
}
