/** The list of live slots: when it is right, and when freeing a slot keeps it right. */
module StatList {
  import opened Options
  import opened StatSlots

  predicate Distinct(order: seq<nat>) {
    forall a, b :: 0 <= a < b < |order| ==> order[a] != order[b]
  }

  /** The link out of the j-th slot of the list. */
  function After(order: seq<nat>, j: nat): nat {
    if j + 1 < |order| then Offset(order[j + 1]) else 0
  }

  predicate Threads(slots: seq<Slot>, order: seq<nat>) {
    && Distinct(order)
    && forall j :: 0 <= j < |order| ==>
         order[j] < |slots| && slots[order[j]].tid != 0 && slots[order[j]].next == After(order, j)
  }

  predicate Covers(slots: seq<Slot>, order: seq<nat>) {
    forall i :: 0 <= i < |slots| && slots[i].tid != 0 ==> i in order
  }

  /** Walking from the head visits exactly the live slots, in this order, and ends at the tail. */
  predicate Linked(t: Table, order: seq<nat>) {
    && Threads(t.slots, order) && Covers(t.slots, order)
    && t.head == (if order == [] then 0 else Offset(order[0]))
    && t.tail == (if order == [] then None else Some(order[|order| - 1]))
  }

  lemma GrowLinks(t: Table, size: nat, order: seq<nat>)
    requires Shaped(t) && t.size <= size < TWO32 && Linked(t, order)
    ensures Linked(Ready(t, size), order)
  {
  }

  lemma PlaceLinks(g: Table, i: nat, tid: nat, order: seq<nat>)
    requires Shaped(g) && Linked(g, order) && i < |g.slots| && g.slots[i].tid == 0 && tid != 0
    ensures Linked(Place(g, i, tid), order + [i])
  {
    var r, longer := Place(g, i, tid), order + [i];
    forall j | 0 <= j < |longer|
      ensures r.slots[longer[j]].tid != 0 && r.slots[longer[j]].next == After(longer, j)
    {
      if j < |order| {
        assert longer[j] == order[j] != i;
        assert j < |order| - 1 ==> order[j] != order[|order| - 1];
      }
    }
    forall k | 0 <= k < |r.slots| && r.slots[k].tid != 0
      ensures k in longer
    {
      assert k != i ==> g.slots[k].tid != 0;
      assert longer[|order|] == i;
    }
  }

  function Without(order: seq<nat>, j: nat): seq<nat>
    requires j < |order|
  {
    order[..j] + order[j + 1..]
  }

  /** Among the live slots only the predecessor names a slot of the list. */
  lemma OnlyPredecessor(t: Table, order: seq<nat>, j: nat, i: nat)
    requires Shaped(t) && Linked(t, order) && 0 < j < |order| && i < |t.slots| && t.slots[i].tid != 0
    ensures t.slots[i].next == Offset(order[j]) <==> i == order[j - 1]
  {
    var a :| 0 <= a < |order| && order[a] == i;
    if t.slots[i].next == Offset(order[j]) {
      assert a + 1 < |order| && order[a + 1] == order[j];
      assert a + 1 == j;
    }
  }

  /** The scan for a predecessor stops at a live slot. */
  predicate CleanPredecessor(t: Table, k: nat) {
    var p := Naming(t.slots, Offset(k), 0);
    p.Some? && t.slots[p.value].tid != 0
  }

  lemma {:induction false} NamingAgrees(a: seq<Slot>, b: seq<Slot>, offset: nat, i: nat)
    requires i <= |a| == |b| && forall k :: 0 <= k < |a| ==> a[k].next == b[k].next
    ensures Naming(a, offset, i) == Naming(b, offset, i)
    decreases |a| - i
  {
    if i < |a| {
      NamingAgrees(a, b, offset, i + 1);
    }
  }

  lemma HeadThreads(was: seq<Slot>, now: seq<Slot>, order: seq<nat>)
    requires order != [] && Threads(was, order) && now == was[order[0] := was[order[0]].(tid := 0)]
    ensures Threads(now, order[1..])
  {
    var rest := order[1..];
    forall a | 0 <= a < |rest|
      ensures rest[a] < |now| && now[rest[a]].tid != 0 && now[rest[a]].next == After(rest, a)
    {
      assert rest[a] == order[a + 1] && order[0] != order[a + 1];
    }
  }

  lemma FreeHead(t: Table, order: seq<nat>)
    requires Shaped(t) && Linked(t, order) && order != []
    ensures Linked(Free(t, order[0]), order[1..])
  {
    var k := order[0];
    var now := t.slots[k := t.slots[k].(tid := 0)];
    HeadThreads(t.slots, now, order);
    RestCovers(t.slots, now, order, 0);
    assert Without(order, 0) == order[1..];
    assert |order| > 1 ==> order[0] != order[|order| - 1];
  }

  /** What freeing a later slot does when the scan stops at its live predecessor. */
  lemma FreeLaterIs(t: Table, order: seq<nat>, j: nat)
    requires Shaped(t) && Linked(t, order) && 0 < j < |order| && CleanPredecessor(t, order[j])
    ensures var k, r := order[j], Free(t, order[j]);
      && r.slots == SetNext(t.slots[k := t.slots[k].(tid := 0)], order[j - 1], After(order, j))
      && r.head == t.head
      && r.tail == if j == |order| - 1 then Some(order[j - 1]) else t.tail
  {
    var k := order[j];
    NamingAgrees(t.slots, t.slots[k := t.slots[k].(tid := 0)], Offset(k), 0);
    OnlyPredecessor(t, order, j, Naming(t.slots, Offset(k), 0).value);
    assert order[0] != k;
    assert j < |order| - 1 ==> order[j] != order[|order| - 1];
  }

  lemma RestThreads(was: seq<Slot>, now: seq<Slot>, order: seq<nat>, j: nat)
    requires 0 < j < |order| && Threads(was, order)
    requires now == SetNext(was[order[j] := was[order[j]].(tid := 0)], order[j - 1], After(order, j))
    ensures Threads(now, Without(order, j))
  {
    var rest := Without(order, j);
    forall a | 0 <= a < |rest|
      ensures rest[a] < |now| && now[rest[a]].tid != 0 && now[rest[a]].next == After(rest, a)
    {
      if a < j - 1 {
        assert rest[a] == order[a] != order[j] && order[a] != order[j - 1];
      } else if a == j - 1 {
        assert rest[a] == order[j - 1] != order[j];
      } else {
        assert rest[a] == order[a + 1] && order[j] != order[a + 1] && order[j - 1] != order[a + 1];
      }
    }
  }

  lemma RestCovers(was: seq<Slot>, now: seq<Slot>, order: seq<nat>, j: nat)
    requires j < |order| && Covers(was, order) && |now| == |was|
    requires forall i :: 0 <= i < |now| && now[i].tid != 0 ==> i != order[j] && was[i].tid != 0
    ensures Covers(now, Without(order, j))
  {
    forall i | 0 <= i < |now| && now[i].tid != 0
      ensures i in Without(order, j)
    {
      var a :| 0 <= a < |order| && order[a] == i;
      assert Without(order, j)[if a < j then a else a - 1] == i;
    }
  }

  lemma RestEnds(order: seq<nat>, j: nat)
    requires 0 < j < |order|
    ensures var rest := Without(order, j);
      && |rest| == |order| - 1 && rest[0] == order[0]
      && rest[|rest| - 1] == if j == |order| - 1 then order[j - 1] else order[|order| - 1]
  {
  }

  lemma RestLinked(t: Table, r: Table, order: seq<nat>, j: nat)
    requires Linked(t, order) && 0 < j < |order| && r.head == t.head
    requires r.slots == SetNext(t.slots[order[j] := t.slots[order[j]].(tid := 0)], order[j - 1], After(order, j))
    requires r.tail == if j == |order| - 1 then Some(order[j - 1]) else t.tail
    ensures Linked(r, Without(order, j))
  {
    RestThreads(t.slots, r.slots, order, j);
    RestCovers(t.slots, r.slots, order, j);
    RestEnds(order, j);
  }

  /** Taking a slot out of the middle or the end, the live predecessor having been found. */
  lemma FreeLater(t: Table, order: seq<nat>, j: nat)
    requires Shaped(t) && Linked(t, order) && 0 < j < |order| && CleanPredecessor(t, order[j])
    ensures Linked(Free(t, order[j]), Without(order, j))
  {
    FreeLaterIs(t, order, j);
    RestLinked(t, Free(t, order[j]), order, j);
  }

  lemma NextIsLive(r: Table, after: seq<nat>, p: nat, k: nat)
    requires Linked(r, after) && p < |r.slots| && r.slots[p].tid != 0 && r.slots[p].next == Offset(k)
    ensures k < |r.slots| && r.slots[k].tid != 0
  {
    var a :| 0 <= a < |after| && after[a] == p;
    assert after[a + 1] == k;
  }

  /** If the scan stops at a freed slot, the live predecessor keeps a link to the slot just freed. */
  lemma StaleBreaks(t: Table, order: seq<nat>, j: nat, after: seq<nat>)
    requires Shaped(t) && Linked(t, order) && 0 < j < |order|
    requires !CleanPredecessor(t, order[j])
    ensures !Linked(Free(t, order[j]), after)
  {
    var k, p := order[j], order[j - 1];
    var r := Free(t, k);
    var slots := t.slots[k := t.slots[k].(tid := 0)];
    NamingAgrees(t.slots, slots, Offset(k), 0);
    OnlyPredecessor(t, order, j, p);
    assert order[0] != k && p != k && t.head != Offset(k);
    var i := Naming(slots, Offset(k), 0).value;
    assert r.slots[p].tid != 0 && r.slots[p].next == Offset(k) && r.slots[k].tid == 0;
    if Linked(r, after) {
      NextIsLive(r, after, p, k);
    }
  }

  /** Freeing a live slot keeps the list right exactly when the slot is the head or the scan stops at a live slot. */
  lemma FreeKeepsListIff(t: Table, order: seq<nat>, j: nat)
    requires Shaped(t) && Linked(t, order) && j < |order|
    ensures (exists after :: Linked(Free(t, order[j]), after)) <==>
            t.head == Offset(order[j]) || CleanPredecessor(t, order[j])
    ensures t.head == Offset(order[j]) || CleanPredecessor(t, order[j]) ==> Linked(Free(t, order[j]), Without(order, j))
  {
    if j == 0 {
      FreeHead(t, order);
      assert Without(order, 0) == order[1..];
    } else if CleanPredecessor(t, order[j]) {
      FreeLater(t, order, j);
    } else {
      assert order[0] != order[j];
      forall after | Linked(Free(t, order[j]), after)
        ensures false
      {
        StaleBreaks(t, order, j, after);
      }
    }
  }
}
