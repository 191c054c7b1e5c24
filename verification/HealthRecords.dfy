/**
 The bounded list of health records, kept in order of importance. A memory record is more
 important than another exactly if its HeapInuse is larger.
 */
module HealthRecords {

  datatype Record = MemoryRecord(heapInuse: nat, id: nat) {
    predicate IsMoreImportantThan(other: Record) {
      heapInuse > other.heapInuse
    }
  }

  /** The most important record comes first. */
  ghost predicate Sorted(s: seq<Record>) {
    forall i, j :: 0 <= i < j < |s| ==> s[i].heapInuse >= s[j].heapInuse
  }

  /** x inserted before the first record it is more important than. */
  function Insert(s: seq<Record>, x: Record): seq<Record> {
    if s == [] then [x]
    else if x.IsMoreImportantThan(s[0]) then [x] + s
    else [s[0]] + Insert(s[1..], x)
  }

  function Add(s: seq<Record>, capacity: nat, x: Record): seq<Record>
    requires capacity > 0
  {
    if |s| < capacity then Insert(s, x)
    else if s[|s| - 1].IsMoreImportantThan(x) then s
    else Insert(s[..|s| - 1], x)
  }

  class Records {
    const capacity: int
    var items: seq<Record>

    /** At capacity below 1 the source dereferences the back of an empty list. */
    ghost predicate Valid()
      reads this
    {
      1 <= capacity && |items| <= capacity && Sorted(items)
    }

    constructor (capacity: int)
      requires capacity >= 1
      ensures Valid() && items == [] && this.capacity == capacity
    {
      this.capacity := capacity;
      items := [];
    }

    method AddRecord(incomingRecord: Record)
      requires Valid()
      modifies this
      ensures Valid()
      ensures items == Add(old(items), capacity, incomingRecord)
      ensures AddedInPlace(old(items), items, capacity, incomingRecord)
    {
      AddIsInPlace(items, capacity, incomingRecord);
      ghost var before := items;
      var hasRoom := MakeRoomForRecordNoLock(incomingRecord);
      if !hasRoom {
        return;
      }
      InsertKeepsSorted(items, incomingRecord);
      var insertionPlace := FindInsertionPlaceNoLock(incomingRecord);
      InsertAt(items, incomingRecord, insertionPlace);
      items := items[..insertionPlace] + [incomingRecord] + items[insertionPlace..];
    }

    method MakeRoomForRecordNoLock(incomingRecord: Record) returns (hasRoom: bool)
      requires Valid()
      modifies this
      ensures Sorted(items) && |items| <= capacity
      ensures hasRoom <==> |old(items)| < capacity || !old(items)[|old(items)| - 1].IsMoreImportantThan(incomingRecord)
      ensures hasRoom ==> |items| < capacity
      ensures items == if hasRoom && |old(items)| == capacity then old(items)[..|old(items)| - 1] else old(items)
    {
      hasRoom := true;
      var capacityReached := |items| >= capacity;
      if capacityReached {
        if items[|items| - 1].IsMoreImportantThan(incomingRecord) {
          hasRoom := false;
          return;
        }
        items := items[..|items| - 1];
      }
    }

    /** The traversal from the front; the length of the list stands for no place found. */
    method FindInsertionPlaceNoLock(incomingRecord: Record) returns (place: nat)
      ensures place <= |items|
      ensures forall k :: 0 <= k < place ==> !incomingRecord.IsMoreImportantThan(items[k])
      ensures place < |items| ==> incomingRecord.IsMoreImportantThan(items[place])
    {
      place := 0;
      while place < |items|
        invariant place <= |items|
        invariant forall k :: 0 <= k < place ==> !incomingRecord.IsMoreImportantThan(items[k])
      {
        if incomingRecord.IsMoreImportantThan(items[place]) {
          return;
        }
        place := place + 1;
      }
    }
  }

  lemma {:induction false} InsertAt(s: seq<Record>, x: Record, place: nat)
    requires place <= |s|
    requires forall k :: 0 <= k < place ==> !x.IsMoreImportantThan(s[k])
    requires place < |s| ==> x.IsMoreImportantThan(s[place])
    ensures Insert(s, x) == s[..place] + [x] + s[place..]
    decreases |s|
  {
    if s != [] && place > 0 {
      InsertAt(s[1..], x, place - 1);
      assert s[..place] == [s[0]] + s[1..][..place - 1];
      assert s[1..][place - 1..] == s[place..];
    } else if s != [] {
      assert s[..0] == [] && s[0..] == s;
    }
  }

  /**
   The list after an addition, by the records' memory: unchanged if the list is full of records
   with more memory; else, without the last record if the list is full, and with the incoming one
   behind all records with at least as much memory.
   */
  ghost predicate AddedInPlace(before: seq<Record>, after: seq<Record>, capacity: nat, x: Record)
    requires capacity > 0
  {
    if |before| >= capacity && before[|before| - 1].heapInuse > x.heapInuse then after == before
    else
      var kept := WithRoom(before, capacity);
      exists place :: 0 <= place <= |kept| && Placed(kept, x, place) && after == kept[..place] + [x] + kept[place..]
  }

  function WithRoom(s: seq<Record>, capacity: nat): seq<Record>
    requires capacity > 0
  {
    if |s| >= capacity then s[..|s| - 1] else s
  }

  ghost predicate Placed(kept: seq<Record>, x: Record, place: nat)
    requires place <= |kept|
  {
    && (forall k :: 0 <= k < place ==> kept[k].heapInuse >= x.heapInuse)
    && (place < |kept| ==> kept[place].heapInuse < x.heapInuse)
  }

  lemma {:induction false} InsertIsPlaced(s: seq<Record>, x: Record) returns (place: nat)
    ensures place <= |s| && Placed(s, x, place) && Insert(s, x) == s[..place] + [x] + s[place..]
    decreases |s|
  {
    place := 0;
    if s != [] && x.heapInuse <= s[0].heapInuse {
      var rest := InsertIsPlaced(s[1..], x);
      place := rest + 1;
      assert s[..place] == [s[0]] + s[1..][..rest];
      assert s[place..] == s[1..][rest..];
    } else {
      assert s[..0] == [] && s[0..] == s;
    }
  }

  lemma AddIsInPlace(s: seq<Record>, capacity: nat, x: Record)
    requires capacity > 0
    ensures AddedInPlace(s, Add(s, capacity, x), capacity, x)
  {
    hide Insert, Placed;
    if |s| < capacity || s[|s| - 1].heapInuse <= x.heapInuse {
      var kept := WithRoom(s, capacity);
      var place := InsertIsPlaced(kept, x);
      assert Add(s, capacity, x) == kept[..place] + [x] + kept[place..];
      hide Add, WithRoom;
      assert Placed(kept, x, place);
    }
  }

  lemma {:induction false} InsertKeepsSorted(s: seq<Record>, x: Record)
    requires Sorted(s)
    ensures Sorted(Insert(s, x)) && |Insert(s, x)| == |s| + 1
    decreases |s|
  {
    if s != [] && !x.IsMoreImportantThan(s[0]) {
      InsertKeepsSorted(s[1..], x);
      InsertBound(s[1..], x, s[0].heapInuse);
    }
  }

  lemma {:induction false} InsertAddsOne(s: seq<Record>, x: Record)
    ensures multiset(Insert(s, x)) == multiset(s) + multiset{x}
    decreases |s|
  {
    if s != [] && !x.IsMoreImportantThan(s[0]) {
      InsertAddsOne(s[1..], x);
      assert s == [s[0]] + s[1..];
    }
  }

  lemma {:induction false} InsertBound(s: seq<Record>, x: Record, bound: nat)
    requires x.heapInuse <= bound && forall k :: 0 <= k < |s| ==> s[k].heapInuse <= bound
    ensures forall k :: 0 <= k < |Insert(s, x)| ==> Insert(s, x)[k].heapInuse <= bound
    decreases |s|
  {
    if s != [] && !x.IsMoreImportantThan(s[0]) {
      InsertBound(s[1..], x, bound);
    }
  }

  // ---------- any sequence of additions keeps the top ----------

  /** The importance values, most important first. */
  function Importance(s: seq<Record>): seq<nat> {
    if s == [] then [] else [s[0].heapInuse] + Importance(s[1..])
  }

  function InsertValue(v: seq<nat>, x: nat): seq<nat> {
    if v == [] then [x] else if x > v[0] then [x] + v else [v[0]] + InsertValue(v[1..], x)
  }

  /** All importance values offered, in descending order. */
  function Descending(offers: seq<Record>): seq<nat> {
    if offers == [] then [] else InsertValue(Descending(offers[..|offers| - 1]), offers[|offers| - 1].heapInuse)
  }

  function AddAll(offers: seq<Record>, capacity: nat): seq<Record>
    requires capacity > 0
  {
    if offers == [] then [] else Add(AddAll(offers[..|offers| - 1], capacity), capacity, offers[|offers| - 1])
  }

  function Top<T>(v: seq<T>, k: nat): seq<T> {
    if |v| <= k then v else v[..k]
  }

  ghost predicate DescendingValues(v: seq<nat>) {
    forall i, j :: 0 <= i < j < |v| ==> v[i] >= v[j]
  }

  lemma {:induction false} ImportanceAt(s: seq<Record>, n: nat)
    requires n <= |s|
    ensures |Importance(s)| == |s| && Importance(s[..n]) == Importance(s)[..n]
    ensures n < |s| ==> Importance(s)[n] == s[n].heapInuse
    decreases |s|
  {
    if s != [] {
      ImportanceAt(s[1..], if n > 0 then n - 1 else 0);
      if n > 0 {
        assert s[..n] == [s[0]] + s[1..][..n - 1];
      }
    }
  }

  lemma {:induction false} ImportanceOfInsert(s: seq<Record>, x: Record)
    ensures Importance(Insert(s, x)) == InsertValue(Importance(s), x.heapInuse)
    decreases |s|
  {
    if s != [] {
      ImportanceOfInsert(s[1..], x);
      assert Importance(s)[1..] == Importance(s[1..]);
      if x.IsMoreImportantThan(s[0]) {
        assert ([x] + s)[1..] == s;
      } else {
        assert ([s[0]] + Insert(s[1..], x))[1..] == Insert(s[1..], x);
      }
    }
  }

  lemma {:induction false} InsertValueKeepsOrder(v: seq<nat>, x: nat)
    requires DescendingValues(v)
    ensures DescendingValues(InsertValue(v, x)) && |InsertValue(v, x)| == |v| + 1
    decreases |v|
  {
    if v != [] && x <= v[0] {
      InsertValueKeepsOrder(v[1..], x);
      InsertValueBound(v[1..], x, v[0]);
    }
  }

  lemma {:induction false} InsertValueAddsOne(v: seq<nat>, x: nat)
    ensures multiset(InsertValue(v, x)) == multiset(v) + multiset{x}
    decreases |v|
  {
    if v != [] && x <= v[0] {
      InsertValueAddsOne(v[1..], x);
      assert v == [v[0]] + v[1..];
    }
  }

  lemma {:induction false} InsertValueBound(v: seq<nat>, x: nat, bound: nat)
    requires x <= bound && forall k :: 0 <= k < |v| ==> v[k] <= bound
    ensures forall k :: 0 <= k < |InsertValue(v, x)| ==> InsertValue(v, x)[k] <= bound
    decreases |v|
  {
    if v != [] && x <= v[0] {
      InsertValueBound(v[1..], x, bound);
    }
  }

  lemma TakeCons(h: nat, t: seq<nat>, k: nat)
    requires 0 < k <= |t| + 1
    ensures ([h] + t)[..k] == [h] + t[..k - 1]
  {
  }

  lemma TailTake(v: seq<nat>, k: nat)
    requires 0 < k <= |v|
    ensures v[..k][1..] == v[1..][..k - 1] && v[..k] == [v[0]] + v[1..][..k - 1]
  {
  }

  /** Keeping the first k values commutes with inserting one more. */
  lemma {:induction false} TopOfInsert(v: seq<nat>, x: nat, k: nat)
    requires DescendingValues(v) && 0 < k <= |v|
    ensures |InsertValue(v, x)| == |v| + 1
    ensures InsertValue(v, x)[..k] == if v[k - 1] > x then v[..k] else InsertValue(v[..k - 1], x)
    decreases |v|
  {
    InsertValueKeepsOrder(v, x);
    if x > v[0] {
      assert v[k - 1] <= v[0];
      TakeCons(x, v, k);
    } else {
      TakeCons(v[0], InsertValue(v[1..], x), k);
      TailTake(v, k);
      if k > 1 {
        TopOfInsert(v[1..], x, k - 1);
        TailTake(v, k - 1);
      }
    }
  }

  lemma {:induction false} DescendingIsSorted(offers: seq<Record>)
    ensures DescendingValues(Descending(offers)) && |Descending(offers)| == |offers|
  {
    if offers != [] {
      DescendingIsSorted(offers[..|offers| - 1]);
      InsertValueKeepsOrder(Descending(offers[..|offers| - 1]), offers[|offers| - 1].heapInuse);
      hide DescendingValues;
    }
  }

  lemma ImportanceSnoc(offers: seq<Record>)
    requires offers != []
    ensures Importance(offers) == Importance(offers[..|offers| - 1]) + [offers[|offers| - 1].heapInuse]
  {
    ImportanceAt(offers, |offers| - 1);
    ImportanceAt(offers, |offers|);
    hide Importance;
    assert Importance(offers) == Importance(offers)[..|offers| - 1] + [Importance(offers)[|offers| - 1]];
  }

  /** Descending is a rearrangement of all values offered. */
  lemma {:induction false} DescendingHoldsAll(offers: seq<Record>)
    ensures multiset(Descending(offers)) == multiset(Importance(offers))
  {
    if offers != [] {
      DescendingHoldsAll(offers[..|offers| - 1]);
      ImportanceSnoc(offers);
      InsertValueAddsOne(Descending(offers[..|offers| - 1]), offers[|offers| - 1].heapInuse);
      hide Importance, InsertValue;
    }
  }

  /** One addition keeps the top of one more value. */
  lemma AddKeepsTheTop(s: seq<Record>, v: seq<nat>, capacity: nat, x: Record)
    requires capacity > 0 && DescendingValues(v) && Importance(s) == Top(v, capacity)
    ensures Importance(Add(s, capacity, x)) == Top(InsertValue(v, x.heapInuse), capacity)
  {
    ImportanceAt(s, |s|);
    InsertValueKeepsOrder(v, x.heapInuse);
    hide Importance, InsertValue, Insert, DescendingValues;
    if |s| < capacity {
      ImportanceOfInsert(s, x);
    } else {
      ImportanceAt(s, |s| - 1);
      ImportanceOfInsert(s[..|s| - 1], x);
      TopOfInsert(v, x.heapInuse, capacity);
      assert v[..capacity][..capacity - 1] == v[..capacity - 1];
      assert v[..capacity][capacity - 1] == v[capacity - 1];
    }
  }

  lemma AddKeepsSorted(s: seq<Record>, capacity: nat, x: Record)
    requires capacity > 0 && Sorted(s) && |s| <= capacity
    ensures Sorted(Add(s, capacity, x)) && |s| <= |Add(s, capacity, x)| <= capacity
  {
    if |s| < capacity {
      InsertKeepsSorted(s, x);
    } else {
      InsertKeepsSorted(s[..|s| - 1], x);
    }
  }

  /**
   After any additions the list is sorted, within its capacity, and holds the importance values
   of the most important records ever offered: the first of all values in descending order.
   */
  lemma {:induction false} KeepsTheTop(offers: seq<Record>, capacity: nat)
    requires capacity > 0
    ensures Sorted(AddAll(offers, capacity)) && |AddAll(offers, capacity)| <= capacity
    ensures Importance(AddAll(offers, capacity)) == Top(Descending(offers), capacity)
    decreases |offers|
  {
    if offers != [] {
      var front, x := offers[..|offers| - 1], offers[|offers| - 1];
      hide Sorted, Importance, InsertValue, Add, Top;
      KeepsTheTop(front, capacity);
      DescendingIsSorted(front);
      AddKeepsSorted(AddAll(front, capacity), capacity, x);
      AddKeepsTheTop(AddAll(front, capacity), Descending(front), capacity, x);
    }
  }

  lemma AddAddsAtMostOne(s: seq<Record>, capacity: nat, x: Record)
    requires capacity > 0
    ensures multiset(Add(s, capacity, x)) <= multiset(s) + multiset{x}
  {
    hide Insert;
    if |s| < capacity {
      InsertAddsOne(s, x);
    } else {
      InsertAddsOne(s[..|s| - 1], x);
      assert s == s[..|s| - 1] + [s[|s| - 1]];
    }
  }

  /** Nothing is made up or repeated: what the list holds was offered, as often as it stands there. */
  lemma {:induction false} KeptWereOffered(offers: seq<Record>, capacity: nat)
    requires capacity > 0
    ensures multiset(AddAll(offers, capacity)) <= multiset(offers)
    decreases |offers|
  {
    if offers != [] {
      hide Add;
      var front, x := offers[..|offers| - 1], offers[|offers| - 1];
      KeptWereOffered(front, capacity);
      AddAddsAtMostOne(AddAll(front, capacity), capacity, x);
      assert offers == front + [x];
    }
  }
}
