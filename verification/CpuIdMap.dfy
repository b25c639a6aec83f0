/** The pair of tables between host CPU ids and dense guest CPU ids. */
module CpuIdMap {
  import opened Options
  import opened CpuList
  import opened CpuBuffer

  const MAX_HOST: nat := 4096
  const CPU_SETSIZE: nat := 1024

  /** -1 marks a host CPU without guest id. */
  datatype Tables = Tables(hostToGuest: seq<int>, guestToHost: seq<nat>, dense: nat)

  function Unassigned(n: nat): seq<int> { seq(n, i => -1) }

  function Zeros(n: nat): seq<nat> { seq(n, i => 0) }

  /** How many of the first n hosts have a guest id. */
  function Assigned(hostToGuest: seq<int>, n: nat): (k: nat)
    requires n <= |hostToGuest|
    ensures k <= n
  {
    if n == 0 then 0 else Assigned(hostToGuest, n - 1) + if hostToGuest[n - 1] == -1 then 0 else 1
  }

  lemma {:induction false} AssignedUpdate(a: seq<int>, h: nat, g: int, n: nat)
    requires h < |a| && n <= |a| && a[h] == -1 && g != -1
    ensures Assigned(a[h := g], n) == Assigned(a, n) + if h < n then 1 else 0
  {
    if n > 0 {
      AssignedUpdate(a, h, g, n - 1);
    }
  }

  lemma {:induction false} NotAll(a: seq<int>, h: nat, n: nat)
    requires h < n <= |a| && a[h] == -1
    ensures Assigned(a, n) < n
  {
    if h < n - 1 {
      NotAll(a, h, n - 1);
    }
  }

  /** The tables are mutually inverse on the ids 0 .. dense, and unused guest entries are zero. */
  predicate Inverse(m: Tables) {
    && |m.hostToGuest| == MAX_HOST && |m.guestToHost| == MAX_HOST && m.dense <= MAX_HOST
    && (forall g :: 0 <= g < m.dense ==> m.guestToHost[g] < MAX_HOST && m.hostToGuest[m.guestToHost[g]] == g)
    && (forall h :: 0 <= h < MAX_HOST && m.hostToGuest[h] != -1 ==>
          0 <= m.hostToGuest[h] < m.dense && m.guestToHost[m.hostToGuest[h]] == h)
    && (forall g :: m.dense <= g < MAX_HOST ==> m.guestToHost[g] == 0)
  }

  /** dense counts the assigned hosts, so there is room for one more whenever a host is unassigned. */
  predicate Full(m: Tables) { Inverse(m) && m.dense == Assigned(m.hostToGuest, MAX_HOST) }

  /** The host takes part: its id is in range and in the affinity mask, if there is one. */
  predicate Usable(h: nat, affinity: Option<set<nat>>) {
    h < MAX_HOST && (affinity.Some? ==> h in affinity.value && h < CPU_SETSIZE)
  }

  lemma Room(m: Tables, h: nat)
    requires Full(m) && h < MAX_HOST && m.hostToGuest[h] == -1
    ensures m.dense < MAX_HOST
  {
    NotAll(m.hostToGuest, h, MAX_HOST);
  }

  function Add(m: Tables, h: nat, affinity: Option<set<nat>>): (r: Tables)
    requires Full(m)
    ensures Full(r)
  {
    if !Usable(h, affinity) || m.hostToGuest[h] != -1 then m else
      Room(m, h);
      AssignedUpdate(m.hostToGuest, h, m.dense, MAX_HOST);
      Tables(m.hostToGuest[h := m.dense], m.guestToHost[m.dense := h], m.dense + 1)
  }

  lemma {:induction false} NoneAssigned(size: nat, n: nat)
    requires n <= size
    ensures Assigned(Unassigned(size), n) == 0
  {
    if n > 0 {
      NoneAssigned(size, n - 1);
    }
  }

  function Empty(): (m: Tables)
    ensures Full(m)
  {
    NoneAssigned(MAX_HOST, MAX_HOST);
    Tables(Unassigned(MAX_HOST), Zeros(MAX_HOST), 0)
  }

  function AddAll(m: Tables, ids: seq<nat>, affinity: Option<set<nat>>): (r: Tables)
    requires Full(m)
    ensures Full(r)
  {
    if ids == [] then m else Add(AddAll(m, ids[..|ids| - 1], affinity), ids[|ids| - 1], affinity)
  }

  lemma {:induction false} AddAllTwice(m: Tables, a: seq<nat>, b: seq<nat>, affinity: Option<set<nat>>)
    requires Full(m)
    ensures AddAll(m, a + b, affinity) == AddAll(AddAll(m, a, affinity), b, affinity)
  {
    hide Add, Full;
    if b == [] {
      assert a + b == a;
    } else {
      AddAllTwice(m, a, b[..|b| - 1], affinity);
      assert (a + b)[..|a| + |b| - 1] == a + b[..|b| - 1];
    }
  }

  /** The usable ids in the order of their first mention. */
  function Firsts(ids: seq<nat>, affinity: Option<set<nat>>): seq<nat> {
    if ids == [] then [] else AppendNew(Firsts(ids[..|ids| - 1], affinity), ids[|ids| - 1], affinity)
  }

  function AppendNew(before: seq<nat>, h: nat, affinity: Option<set<nat>>): seq<nat> {
    if Usable(h, affinity) && h !in before then before + [h] else before
  }

  /** Guest ids number the usable hosts by first mention, densely from 0. */
  lemma {:induction false} NumberedByFirstMention(ids: seq<nat>, affinity: Option<set<nat>>)
    ensures var m := AddAll(Empty(), ids, affinity); m.guestToHost[..m.dense] == Firsts(ids, affinity)
  {
    if ids != [] {
      var front, h := ids[..|ids| - 1], ids[|ids| - 1];
      NumberedByFirstMention(front, affinity);
      var m := AddAll(Empty(), front, affinity);
      if Usable(h, affinity) {
        AssignedIffListed(m, h);
        if m.hostToGuest[h] == -1 {
          Room(m, h);
        }
      }
    }
  }

  lemma AssignedIffListed(m: Tables, h: nat)
    requires Inverse(m) && h < MAX_HOST
    ensures m.hostToGuest[h] != -1 <==> h in m.guestToHost[..m.dense]
  {
    if m.hostToGuest[h] != -1 {
      assert m.guestToHost[..m.dense][m.hostToGuest[h]] == h;
    }
  }

  /** A host has a guest id exactly when it is usable and was mentioned. */
  lemma {:induction false} FirstsCover(ids: seq<nat>, affinity: Option<set<nat>>, h: nat)
    ensures h in Firsts(ids, affinity) <==> h in ids && Usable(h, affinity)
  {
    if ids != [] {
      FirstsCover(ids[..|ids| - 1], affinity, h);
      assert ids == ids[..|ids| - 1] + [ids[|ids| - 1]];
    }
  }

  // ------------------------------------------------------------------ the whole map

  /** The content of the online file, the affinity mask if one could be read and is not empty, the count used when there
      is neither, and the configured override. */
  datatype Input = Input(online: Option<string>, affinity: Option<set<nat>>, reported: nat, configured: nat)

  function Override(configured: nat): nat { if configured > 4096 then 0 else configured }

  function Upto(n: nat): seq<nat> { seq(n, i => i) }

  /** What ParseCPUListForEach returns. */
  function Count(r: Reading): nat { if r.ok then Total(r.ranges) % TWO32 else 0 }

  function Listed(i: Input): Reading {
    if i.online.Some? then Read(Buffered(i.online.value), 0) else Reading([], false)
  }

  /** Every id the builder offers to the tables; a list rejected partway has already offered some. */
  function Offered(i: Input): seq<nat> {
    Expand(Listed(i).ranges) +
    if Count(Listed(i)) > 0 then []
    else Upto(if i.affinity.Some? then CPU_SETSIZE else if i.reported < MAX_HOST then i.reported else MAX_HOST)
  }

  datatype Map = Map(tables: Tables, count: nat)

  function GuestCount(dense: nat, configured: nat): nat {
    var count := if dense == 0 then 1 else dense;
    var most := Override(configured);
    if 0 < most < count then most else count
  }

  function Build(i: Input): Map {
    var m := AddAll(Empty(), Offered(i), i.affinity);
    Map(m, GuestCount(m.dense, i.configured))
  }

  function HostToGuest(m: Map, h: nat): int
    requires m.count > 0 && |m.tables.hostToGuest| == MAX_HOST
  {
    if h < MAX_HOST && 0 <= m.tables.hostToGuest[h] < m.count then m.tables.hostToGuest[h] else h % m.count
  }

  function GuestToHost(m: Map, g: nat): nat
    requires |m.tables.guestToHost| == MAX_HOST && m.count <= MAX_HOST
  {
    if g < m.count then m.tables.guestToHost[g] else g
  }

  /** For every input: tables inverse, every host mapped below the count, and every guest id mapped there and back. */
  lemma DenseBijection(i: Input)
    ensures var m := Build(i);
      && Inverse(m.tables) && 0 < m.count <= MAX_HOST
      && (forall h: nat :: 0 <= HostToGuest(m, h) < m.count)
      && (forall g: nat :: g < m.count ==> HostToGuest(m, GuestToHost(m, g)) == g)
  {
    var m := Build(i);
    assert Full(m.tables);
    forall g: nat | g < m.count
      ensures HostToGuest(m, GuestToHost(m, g)) == g
    {
      if m.tables.dense == 0 {
        assert g == 0 && m.tables.guestToHost[0] == 0;
      } else {
        assert m.tables.hostToGuest[m.tables.guestToHost[g]] == g;
      }
    }
  }

  /** With an accepted list that names a usable CPU and no override, the guest sees just the listed usable CPUs. */
  lemma SeesListedCpus(i: Input, h: nat)
    requires Count(Listed(i)) > 0 && Override(i.configured) == 0
    requires Firsts(Expand(Listed(i).ranges), i.affinity) != []
    ensures var m := Build(i);
      && m.count == |Firsts(Expand(Listed(i).ranges), i.affinity)|
      && ((exists g: nat :: g < m.count && GuestToHost(m, g) == h) <==>
          h in Expand(Listed(i).ranges) && Usable(h, i.affinity))
  {
    var ids := Expand(Listed(i).ranges);
    assert Offered(i) == ids + [] == ids;
    NumberedByFirstMention(ids, i.affinity);
    FirstsCover(ids, i.affinity, h);
    var m := Build(i);
    var firsts := Firsts(ids, i.affinity);
    assert |firsts| == m.tables.dense == m.count;
    if h in firsts {
      var g :| 0 <= g < |firsts| && firsts[g] == h;
      assert GuestToHost(m, g) == h;
    }
    forall g: nat | g < m.count
      ensures GuestToHost(m, g) == firsts[g]
    {
    }
  }
}
