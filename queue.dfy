/**
 * Queue entries of server.js and the pure functions over a list of them:
 * `getTakenTimes`, `sortedQueue` and the `filter` that deletes by id.
 */
module Queue {
  import opened Js

  /** `slot.type`: how the time was chosen. */
  datatype Mode = Manual | Auto

  /** `slot: { type, time }`. */
  datatype Slot = Slot(kind: Mode, time: string)

  /**
   * A queue item. `createdAt` is the creation instant in milliseconds (the
   * source stores it as an ISO string and compares it through `new Date`);
   * `slotMinutes` is `toMinutes(slot.time)`, cached.
   */
  datatype Entry = Entry(id: string, name: string, createdAt: int, slot: Slot, slotMinutes: JsNumber)

  // ---------------------------------------------------------------------------
  // getTakenTimes
  // ---------------------------------------------------------------------------

  /** `new Set(list.map(q => q.slot?.time).filter(Boolean))`: the non-empty slot times held. */
  function TakenTimes(list: seq<Entry>): (taken: set<string>)
    ensures forall t :: t in taken <==> t != "" && exists i :: 0 <= i < |list| && list[i].slot.time == t
  {
    if list == [] then {}
    else
      var rest := TakenTimes(list[1..]);
      assert forall i :: 1 <= i < |list| ==> list[i] == list[1..][i - 1];
      if list[0].slot.time == "" then rest else {list[0].slot.time} + rest
  }

  /** No two entries share a slot time: the invariant every accepted booking keeps. */
  ghost predicate DistinctTimes(list: seq<Entry>)
  {
    forall i, j :: 0 <= i < j < |list| ==> list[i].slot.time != list[j].slot.time
  }

  // ---------------------------------------------------------------------------
  // sortedQueue
  // ---------------------------------------------------------------------------

  /** `Number.isFinite(q.slotMinutes) ? q.slotMinutes : Infinity`. */
  datatype Rank = At(minutes: int) | Infinity

  function RankOf(e: Entry): Rank
  {
    if e.slotMinutes.Finite? then At(e.slotMinutes.value) else Infinity
  }

  predicate RankBelow(a: Rank, b: Rank)
  {
    match (a, b)
    case (At(x), At(y)) => x < y
    case (At(_), Infinity) => true
    case (Infinity, _) => false
  }

  /**
   * The comparator of `sortedQueue` returns a value `<= 0` for `(a, b)`:
   * earlier slot first, unscheduled last, ties by earlier `createdAt`.
   */
  predicate Precedes(a: Entry, b: Entry)
  {
    RankBelow(RankOf(a), RankOf(b)) || (RankOf(a) == RankOf(b) && a.createdAt <= b.createdAt)
  }

  lemma PrecedesTotal(a: Entry, b: Entry)
    ensures Precedes(a, b) || Precedes(b, a)
  {
  }

  lemma PrecedesTransitive(a: Entry, b: Entry, c: Entry)
    requires Precedes(a, b) && Precedes(b, c)
    ensures Precedes(a, c)
  {
  }

  ghost predicate Sorted(list: seq<Entry>)
  {
    forall i, j :: 0 <= i < j < |list| ==> Precedes(list[i], list[j])
  }

  /** Place `e` before the first entry it precedes, so earlier entries stay first among equals. */
  function Insert(e: Entry, sorted: seq<Entry>): (r: seq<Entry>)
    requires Sorted(sorted)
    ensures Sorted(r)
    ensures multiset(r) == multiset(sorted) + multiset{e}
  {
    if sorted == [] || Precedes(e, sorted[0]) then
      InsertFront(e, sorted);
      [e] + sorted
    else
      var tail := Insert(e, sorted[1..]);
      InsertBehind(e, sorted, tail);
      [sorted[0]] + tail
  }

  lemma InsertFront(e: Entry, sorted: seq<Entry>)
    requires Sorted(sorted)
    requires sorted == [] || Precedes(e, sorted[0])
    ensures Sorted([e] + sorted)
  {
    forall j | 0 < j < |sorted|
      ensures Precedes(e, sorted[j])
    {
      PrecedesTransitive(e, sorted[0], sorted[j]);
    }
  }

  lemma InsertBehind(e: Entry, sorted: seq<Entry>, tail: seq<Entry>)
    requires Sorted(sorted) && sorted != [] && !Precedes(e, sorted[0])
    requires Sorted(tail) && multiset(tail) == multiset(sorted[1..]) + multiset{e}
    ensures Sorted([sorted[0]] + tail)
    ensures multiset([sorted[0]] + tail) == multiset(sorted) + multiset{e}
  {
    assert sorted == [sorted[0]] + sorted[1..];
    PrecedesTotal(e, sorted[0]);
    forall j | 0 <= j < |tail|
      ensures Precedes(sorted[0], tail[j])
    {
      assert tail[j] in multiset(tail);
      if tail[j] != e {
        assert tail[j] in multiset(sorted[1..]);
        var k :| 0 <= k < |sorted[1..]| && sorted[1..][k] == tail[j];
        assert sorted[k + 1] == tail[j];
      }
    }
  }

  /**
   * `[...list].sort(cmp)`: a new list; the input is a value and so is left as
   * it was. `Array.prototype.sort` is stable, so entries equal on both keys
   * keep their queue order, as insertion from the front gives.
   */
  function SortedQueue(list: seq<Entry>): (r: seq<Entry>)
    ensures Sorted(r)
    ensures multiset(r) == multiset(list)
  {
    if list == [] then []
    else
      assert list == [list[0]] + list[1..];
      Insert(list[0], SortedQueue(list[1..]))
  }

  /** A list that is already in order is its own sorted view. */
  lemma {:induction false} SortedIsFixed(list: seq<Entry>)
    requires Sorted(list)
    ensures SortedQueue(list) == list
  {
    if list != [] {
      assert Sorted(list[1..]);
      SortedIsFixed(list[1..]);
      assert list == [list[0]] + list[1..];
    }
  }

  /** Sorting the sorted view again changes nothing. */
  lemma SortedQueueIdempotent(list: seq<Entry>)
    ensures SortedQueue(SortedQueue(list)) == SortedQueue(list)
  {
    SortedIsFixed(SortedQueue(list));
  }

  // ---------------------------------------------------------------------------
  // queue.filter(q => q.id !== deleteId)
  // ---------------------------------------------------------------------------

  /** The queue without the entries whose id is `id`, in their order. */
  function RemoveId(list: seq<Entry>, id: string): (r: seq<Entry>)
    ensures |r| <= |list|
    ensures forall e :: e in r <==> e in list && e.id != id
    ensures |r| == |list| <==> forall i :: 0 <= i < |list| ==> list[i].id != id
  {
    if list == [] then []
    else
      var rest := RemoveId(list[1..], id);
      assert forall i :: 1 <= i < |list| ==> list[i] == list[1..][i - 1];
      assert forall e :: e in list <==> e == list[0] || e in list[1..];
      (if list[0].id == id then [] else [list[0]]) + rest
  }

  /** Deleting commutes with concatenation, so the survivors keep their order. */
  lemma {:induction false} RemoveIdAppend(a: seq<Entry>, b: seq<Entry>, id: string)
    ensures RemoveId(a + b, id) == RemoveId(a, id) + RemoveId(b, id)
  {
    if a == [] {
      assert a + b == b;
    } else {
      var head := if a[0].id == id then [] else [a[0]];
      assert (a + b)[0] == a[0];
      assert (a + b)[1..] == a[1..] + b;
      calc {
        RemoveId(a + b, id);
        head + RemoveId(a[1..] + b, id);
        { RemoveIdAppend(a[1..], b, id); }
        head + (RemoveId(a[1..], id) + RemoveId(b, id));
        (head + RemoveId(a[1..], id)) + RemoveId(b, id);
        RemoveId(a, id) + RemoveId(b, id);
      }
    }
  }

  /** Deleting an id that no entry has leaves the queue as it was. */
  lemma {:induction false} RemoveAbsentId(list: seq<Entry>, id: string)
    requires forall i :: 0 <= i < |list| ==> list[i].id != id
    ensures RemoveId(list, id) == list
  {
    if list != [] {
      RemoveAbsentId(list[1..], id);
      assert list == [list[0]] + list[1..];
    }
  }

  /** Deleting keeps slot times pairwise distinct. */
  lemma {:induction false} RemoveKeepsDistinct(list: seq<Entry>, id: string)
    requires DistinctTimes(list)
    ensures DistinctTimes(RemoveId(list, id))
  {
    if list != [] {
      assert DistinctTimes(list[1..]);
      RemoveKeepsDistinct(list[1..], id);
      var rest := RemoveId(list[1..], id);
      if list[0].id != id {
        forall j | 0 <= j < |rest|
          ensures list[0].slot.time != rest[j].slot.time
        {
          assert rest[j] in list[1..];
        }
        assert forall i, j :: 0 < i < j < |[list[0]] + rest| ==> ([list[0]] + rest)[i] == rest[i - 1] && ([list[0]] + rest)[j] == rest[j - 1];
      }
    }
  }
}
