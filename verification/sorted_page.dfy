/** Pages of the least rows in order: a bounded heap, or a spool when the page is deep. */
module SortedPages {
  import opened Bytes
  import opened JsonText
  import opened Sorting

  /** Rows are ordered by two byte strings and a number. */
  datatype Key = Key(a: seq<nat>, b: seq<nat>, c: int)

  datatype Entry = Entry(key: Key, serial: nat, size: nat, row: Json)

  const HEAP_ROWS := 4096

  predicate KeyLess(x: Key, y: Key) {
    Less(x.a, y.a) || (x.a == y.a && (Less(x.b, y.b) || (x.b == y.b && x.c < y.c)))
  }

  /** Rows of equal keys keep the order in which they arrived. */
  predicate Before(x: Entry, y: Entry) {
    KeyLess(x.key, y.key) || (x.key == y.key && x.serial < y.serial)
  }

  lemma KeyLessTotal(x: Key, y: Key)
    ensures KeyLess(x, y) || KeyLess(y, x) || x == y
    ensures !(KeyLess(x, y) && KeyLess(y, x)) && !KeyLess(x, x)
  {
    LessTotal(x.a, y.a);
    LessTotal(x.b, y.b);
    LessTotal(x.a, x.a);
    LessTotal(x.b, x.b);
  }

  lemma KeyLessTransitive(x: Key, y: Key, z: Key)
    requires KeyLess(x, y) && KeyLess(y, z)
    ensures KeyLess(x, z)
  {
    if Less(x.a, y.a) && Less(y.a, z.a) {
      LessTransitive(x.a, y.a, z.a);
    }
    if Less(x.b, y.b) && Less(y.b, z.b) {
      LessTransitive(x.b, y.b, z.b);
    }
  }

  lemma BeforeTransitive(x: Entry, y: Entry, z: Entry)
    requires Before(x, y) && Before(y, z)
    ensures Before(x, z)
  {
    hide KeyLess;
    if KeyLess(x.key, y.key) && KeyLess(y.key, z.key) {
      KeyLessTransitive(x.key, y.key, z.key);
    }
  }

  lemma BeforeTotal(x: Entry, y: Entry)
    ensures x.serial != y.serial ==> Before(x, y) || Before(y, x)
    ensures !(Before(x, y) && Before(y, x)) && !Before(x, x)
  {
    hide KeyLess;
    KeyLessTotal(x.key, y.key);
    KeyLessTotal(x.key, x.key);
  }

  // ---------------------------------------------------------------------------------------
  // The full order
  // ---------------------------------------------------------------------------------------

  function Place(e: Entry, xs: seq<Entry>): seq<Entry> {
    if xs == [] || Before(e, xs[0]) then [e] + xs else [xs[0]] + Place(e, xs[1..])
  }

  /** Everything added, sorted by key and arrival. */
  function Ranked(added: seq<Entry>): (r: seq<Entry>)
  {
    if added == [] then [] else Place(added[|added| - 1], Ranked(added[..|added| - 1]))
  }

  ghost predicate Ordered(xs: seq<Entry>) {
    forall i, j :: 0 <= i < j < |xs| ==> Before(xs[i], xs[j])
  }

  lemma {:induction false} PlaceMultiset(e: Entry, xs: seq<Entry>)
    ensures multiset(Place(e, xs)) == multiset(xs) + multiset{e} && |Place(e, xs)| == |xs| + 1
  {
    hide Before;
    if xs != [] {
      PlaceMultiset(e, xs[1..]);
      assert xs == [xs[0]] + xs[1..];
    }
  }

  lemma PlaceMember(e: Entry, xs: seq<Entry>, x: Entry)
    requires x in Place(e, xs)
    ensures x == e || x in xs
  {
    PlaceMultiset(e, xs);
    assert x in multiset(Place(e, xs));
  }

  lemma {:induction false} PlaceOrdered(e: Entry, xs: seq<Entry>)
    requires Ordered(xs) && forall x :: x in xs ==> x.serial != e.serial
    ensures Ordered(Place(e, xs))
  {
    hide Before;
    if xs == [] {
    } else if Before(e, xs[0]) {
      var after := [e] + xs;
      forall j | 1 <= j < |after| ensures Before(e, after[j]) {
        if j > 1 {
          BeforeTransitive(e, xs[0], xs[j - 1]);
        }
      }
      assert forall i, j :: 0 < i < j < |after| ==> after[i] == xs[i - 1] && after[j] == xs[j - 1];
    } else {
      BeforeTotal(e, xs[0]);
      assert xs[0] in xs;
      PlaceOrdered(e, xs[1..]);
      var rest := Place(e, xs[1..]);
      forall j | 0 <= j < |rest| ensures Before(xs[0], rest[j]) {
        PlaceMember(e, xs[1..], rest[j]);
      }
    }
  }

  /** Serials are the order of arrival. */
  ghost predicate Arrivals(added: seq<Entry>) {
    forall i :: 0 <= i < |added| ==> added[i].serial == i
  }

  /** The full order is a permutation of what was added, by key, and by arrival among equals. */
  lemma {:induction false} RankedIsSorted(added: seq<Entry>)
    requires Arrivals(added)
    ensures Ordered(Ranked(added)) && multiset(Ranked(added)) == multiset(added) && |Ranked(added)| == |added|
  {
    hide Before, Place;
    if added != [] {
      var last := |added| - 1;
      RankedIsSorted(added[..last]);
      var before := Ranked(added[..last]);
      assert added == added[..last] + [added[last]];
      forall x | x in before ensures x.serial != added[last].serial {
        assert x in multiset(added[..last]);
      }
      PlaceOrdered(added[last], before);
      PlaceMultiset(added[last], before);
    }
  }

  lemma TailMultiset(xs: seq<Entry>)
    requires xs != []
    ensures multiset(xs[1..]) == multiset(xs) - multiset{xs[0]} && xs == [xs[0]] + xs[1..]
  {
    assert xs == [xs[0]] + xs[1..];
  }

  lemma {:induction false} OrderedUnique(xs: seq<Entry>, ys: seq<Entry>)
    requires Ordered(xs) && Ordered(ys) && multiset(xs) == multiset(ys)
    ensures xs == ys
  {
    hide Before, Ordered;
    assert |multiset(xs)| == |xs| && |multiset(ys)| == |ys|;
    if xs != [] {
      FirstIsLeast(xs, ys);
      TailMultiset(xs);
      TailMultiset(ys);
      OrderedTail(xs, 0);
      OrderedTail(ys, 0);
      OrderedUnique(xs[1..], ys[1..]);
    }
  }

  lemma FirstLeads(xs: seq<Entry>, x: Entry)
    requires Ordered(xs) && x in xs
    ensures x == xs[0] || Before(xs[0], x)
  {
    hide Before;
    var i :| 0 <= i < |xs| && xs[i] == x;
  }

  lemma FirstIsLeast(xs: seq<Entry>, ys: seq<Entry>)
    requires Ordered(xs) && Ordered(ys) && multiset(xs) == multiset(ys) && xs != [] && ys != []
    ensures xs[0] == ys[0]
  {
    hide Before, Ordered;
    assert xs[0] in multiset(ys) && ys[0] in multiset(xs);
    FirstLeads(xs, ys[0]);
    FirstLeads(ys, xs[0]);
    BeforeTotal(xs[0], ys[0]);
  }

  // ---------------------------------------------------------------------------------------
  // The least rows
  // ---------------------------------------------------------------------------------------

  /** The encoded bytes of entries. */
  function Weight(entries: seq<Entry>): nat {
    if entries == [] then 0 else entries[0].size + Weight(entries[1..])
  }

  lemma {:induction false} WeightAppend(xs: seq<Entry>, e: Entry)
    ensures Weight(xs + [e]) == Weight(xs) + e.size
  {
    if xs == [] {
      assert xs + [e] == [e] && [e][1..] == [];
    } else {
      WeightAppend(xs[1..], e);
      assert (xs + [e])[1..] == xs[1..] + [e];
    }
  }

  lemma {:induction false} PlaceWeight(e: Entry, xs: seq<Entry>)
    ensures Weight(Place(e, xs)) == Weight(xs) + e.size
  {
    hide Before;
    if xs == [] || Before(e, xs[0]) {
      assert ([e] + xs)[1..] == xs;
    } else {
      PlaceWeight(e, xs[1..]);
      assert ([xs[0]] + Place(e, xs[1..]))[1..] == Place(e, xs[1..]);
    }
  }

  function Cut(xs: seq<Entry>, capacity: nat): seq<Entry> {
    if |xs| <= capacity then xs else xs[..capacity]
  }

  /** The first rows in order, at most `capacity`. */
  function Least(added: seq<Entry>, capacity: nat): seq<Entry> {
    Cut(Ranked(added), capacity)
  }

  lemma TakeFront(x: Entry, xs: seq<Entry>, k: nat)
    requires 0 < k <= |xs| + 1
    ensures ([x] + xs)[..k] == [x] + xs[..k - 1]
  {
  }

  lemma OrderedTail(xs: seq<Entry>, k: nat)
    requires Ordered(xs) && k < |xs|
    ensures Ordered(xs[1..]) && (k > 0 ==> Before(xs[0], xs[k]) && xs[1..][k - 1] == xs[k])
  {
    hide Before;
  }

  lemma PlaceFront(e: Entry, xs: seq<Entry>, k: nat)
    requires Ordered(xs) && 0 < k <= |xs| && Before(e, xs[0])
    ensures Place(e, xs)[..k] == Place(e, xs[..k - 1]) && |Place(e, xs)| == |xs| + 1 && Before(e, xs[k - 1])
  {
    hide Before;
    OrderedTail(xs, k - 1);
    TakeFront(e, xs, k);
    if k > 1 {
      BeforeTransitive(e, xs[0], xs[k - 1]);
      assert xs[..k - 1][0] == xs[0];
    }
  }

  /** A new row goes behind the first `k`, or pushes out the last of them. */
  lemma {:induction false} PlaceFirst(e: Entry, xs: seq<Entry>, k: nat)
    requires Ordered(xs) && 0 < k <= |xs|
    ensures |Place(e, xs)| == |xs| + 1
    ensures Place(e, xs)[..k] == if Before(e, xs[k - 1]) then Place(e, xs[..k - 1]) else xs[..k]
  {
    hide Before, Ordered;
    PlaceMultiset(e, xs);
    if Before(e, xs[0]) {
      PlaceFront(e, xs, k);
    } else {
      var tail := xs[1..];
      assert xs == [xs[0]] + tail;
      TakeFront(xs[0], Place(e, tail), k);
      TakeFront(xs[0], tail, k);
      if k > 1 {
        OrderedTail(xs, k - 1);
        PlaceFirst(e, tail, k - 1);
        TakeFront(xs[0], tail, k - 1);
        PlaceBehind(e, xs[0], tail[..k - 2]);
      }
    }
  }

  lemma PlaceBehind(e: Entry, x: Entry, xs: seq<Entry>)
    requires !Before(e, x)
    ensures Place(e, [x] + xs) == [x] + Place(e, xs)
  {
    hide Before;
    assert ([x] + xs)[1..] == xs;
  }

  lemma CutFull(xs: seq<Entry>, e: Entry, capacity: nat)
    requires Ordered(xs) && 0 < capacity <= |xs|
    ensures var cut := Cut(xs, capacity);
            && |cut| == capacity
            && Cut(Place(e, xs), capacity) == if Before(e, cut[capacity - 1]) then Place(e, cut[..capacity - 1]) else cut
  {
    hide Before, Place, Ordered;
    PlaceFirst(e, xs, capacity);
    assert Cut(xs, capacity) == xs[..capacity] && Cut(Place(e, xs), capacity) == Place(e, xs)[..capacity];
    assert xs[..capacity][..capacity - 1] == xs[..capacity - 1];
  }

  lemma PushOut(cut: seq<Entry>, e: Entry)
    requires cut != []
    ensures var after, last := Place(e, cut[..|cut| - 1]), cut[|cut| - 1];
            && multiset(after) == multiset(cut) - multiset{last} + multiset{e}
            && Weight(after) == Weight(cut) - last.size + e.size
  {
    hide Place, Weight;
    var rest := cut[..|cut| - 1];
    assert cut == rest + [cut[|cut| - 1]];
    PlaceMultiset(e, rest);
    PlaceWeight(e, rest);
    WeightAppend(rest, cut[|cut| - 1]);
  }

  /** What one more row changes among the least: nothing once it comes after a full set of them;
      else it joins them, and pushes out the last of a full set. */
  lemma LeastStep(added: seq<Entry>, e: Entry, capacity: nat)
    requires Arrivals(added) && capacity > 0
    ensures var least, after := Least(added, capacity), Least(added + [e], capacity);
            if |least| < capacity
            then multiset(after) == multiset(least) + multiset{e} && Weight(after) == Weight(least) + e.size
            else if Before(e, least[capacity - 1])
            then && multiset(after) == multiset(least) - multiset{least[capacity - 1]} + multiset{e}
                 && Weight(after) == Weight(least) - least[capacity - 1].size + e.size
            else after == least
  {
    assert (added + [e])[..|added|] == added;
    assert Ranked(added + [e]) == Place(e, Ranked(added));
    RankedIsSorted(added);
    hide Before, Place, Arrivals, Ranked, Ordered, Weight;
    var xs := Ranked(added);
    if |xs| >= capacity {
      CutFull(xs, e, capacity);
      PushOut(Cut(xs, capacity), e);
    } else {
      PlaceMultiset(e, xs);
      PlaceWeight(e, xs);
    }
  }

  lemma LeastOrdered(added: seq<Entry>, capacity: nat)
    requires Arrivals(added)
    ensures Ordered(Least(added, capacity))
    ensures |Least(added, capacity)| == if |added| <= capacity then |added| else capacity
  {
    hide Before, Arrivals;
    RankedIsSorted(added);
  }

  // ---------------------------------------------------------------------------------------
  // The heap
  // ---------------------------------------------------------------------------------------

  /** With keys reversed, the front of the heap is the entry that comes last. */
  ghost predicate IsHeap(heap: seq<Entry>) {
    forall x :: x in heap ==> x == heap[0] || Before(x, heap[0])
  }

  method HeapPush(heap: seq<Entry>, e: Entry) returns (after: seq<Entry>)
    requires IsHeap(heap) && forall x :: x in heap ==> x.serial != e.serial
    ensures IsHeap(after) && multiset(after) == multiset(heap) + multiset{e} && after != []
  {
    hide Before;
    if heap == [] {
      after := [e];
    } else {
      BeforeTotal(e, heap[0]);
      if Before(heap[0], e) {
        after := [e] + heap;
        forall x | x in after ensures x == e || Before(x, e) {
          if x != e && x != heap[0] {
            BeforeTransitive(x, heap[0], e);
          }
        }
      } else {
        after := heap + [e];
      }
    }
  }

  method HeapReplace(heap: seq<Entry>, e: Entry) returns (after: seq<Entry>)
    requires heap != [] && Distinct(heap) && forall x :: x in heap ==> x.serial != e.serial
    ensures IsHeap(after) && multiset(after) == multiset(heap) - multiset{heap[0]} + multiset{e} && after != []
  {
    hide Before, Distinct;
    after := [e];
    var i := 1;
    while i < |heap|
      invariant 1 <= i <= |heap| && IsHeap(after) && after != []
      invariant multiset(after) == multiset(heap[1..i]) + multiset{e}
    {
      NextOfHeap(heap, i);
      forall x | x in after ensures x.serial != heap[i].serial {
        Fresh(heap, e, after, i, x);
      }
      after := HeapPush(after, heap[i]);
      i := i + 1;
    }
    RestOfHeap(heap);
  }

  lemma NextOfHeap(heap: seq<Entry>, i: nat)
    requires 1 <= i < |heap|
    ensures multiset(heap[1..i + 1]) == multiset(heap[1..i]) + multiset{heap[i]}
  {
    assert heap[1..i + 1] == heap[1..i] + [heap[i]];
  }

  lemma RestOfHeap(heap: seq<Entry>)
    requires heap != []
    ensures multiset(heap[1..|heap|]) == multiset(heap) - multiset{heap[0]}
  {
    assert heap[1..|heap|] == heap[1..] && heap == [heap[0]] + heap[1..];
  }

  ghost predicate Distinct(xs: seq<Entry>) {
    forall i, j :: 0 <= i < j < |xs| ==> xs[i].serial != xs[j].serial
  }

  lemma Fresh(heap: seq<Entry>, e: Entry, after: seq<Entry>, i: nat, x: Entry)
    requires Distinct(heap) && (forall y :: y in heap ==> y.serial != e.serial) && 1 <= i < |heap|
    requires multiset(after) == multiset(heap[1..i]) + multiset{e} && x in after
    ensures x.serial != heap[i].serial
  {
    assert x in multiset(after);
    if x != e {
      assert x in heap[1..i];
      var j :| 0 <= j < |heap[1..i]| && heap[1..i][j] == x;
      assert heap[j + 1] == x;
    } else {
      assert heap[i] in heap;
    }
  }

  /** Put entries in order. */
  method SortEntries(entries: seq<Entry>) returns (sorted: seq<Entry>)
    requires Distinct(entries)
    ensures Ordered(sorted) && multiset(sorted) == multiset(entries)
  {
    hide Before, Place;
    sorted := [];
    for i := 0 to |entries|
      invariant Ordered(sorted) && multiset(sorted) == multiset(entries[..i])
    {
      assert entries[..i + 1] == entries[..i] + [entries[i]];
      forall x | x in sorted ensures x.serial != entries[i].serial {
        assert x in multiset(entries[..i]);
      }
      PlaceOrdered(entries[i], sorted);
      PlaceMultiset(entries[i], sorted);
      sorted := Place(entries[i], sorted);
    }
    assert entries[..|entries|] == entries;
  }

  // ---------------------------------------------------------------------------------------
  // The page
  // ---------------------------------------------------------------------------------------

  function RowsOf(entries: seq<Entry>): (r: seq<Json>)
    ensures |r| == |entries|
  {
    seq(|entries|, i requires 0 <= i < |entries| => entries[i].row)
  }

  /** The rows a page is asked for, out of everything that was added. */
  function PageRows(added: seq<Entry>, offset: nat, limit: nat): seq<Json> {
    var ranked := Ranked(added);
    var end := if offset + limit <= |ranked| then offset + limit else |ranked|;
    if offset >= |ranked| then [] else RowsOf(ranked[offset..end])
  }

  /** The heap holds the least rows, and the account is their bytes. */
  ghost predicate Holds(heap: seq<Entry>, used: nat, added: seq<Entry>, capacity: nat) {
    IsHeap(heap) && multiset(heap) == multiset(Least(added, capacity)) && used == Weight(Least(added, capacity))
  }

  lemma HoldsHeap(heap: seq<Entry>, used: nat, added: seq<Entry>, capacity: nat)
    requires Holds(heap, used, added, capacity)
    ensures IsHeap(heap)
  {
  }

  lemma HoldsDropped(heap: seq<Entry>, used: nat, added: seq<Entry>, capacity: nat, e: Entry)
    requires Holds(heap, used, added, capacity) && Arrivals(added) && e.serial == |added| && capacity > 0
    requires |heap| == capacity && !KeyLess(e.key, heap[0].key)
    ensures Holds(heap, used, added + [e], capacity)
  {
    hide Before, Least, Weight, Arrivals, IsHeap, KeyLess, Distinct;
    HeapKnows(added, capacity, heap, e);
    LeastStep(added, e, capacity);
  }

  lemma HoldsReplaced(heap: seq<Entry>, used: nat, added: seq<Entry>, capacity: nat, e: Entry, after: seq<Entry>)
    requires Holds(heap, used, added, capacity) && Arrivals(added) && e.serial == |added| && capacity > 0
    requires |heap| == capacity && KeyLess(e.key, heap[0].key)
    requires IsHeap(after) && multiset(after) == multiset(heap) - multiset{heap[0]} + multiset{e}
    ensures used + e.size >= heap[0].size && Holds(after, used - heap[0].size + e.size, added + [e], capacity)
  {
    hide Before, Least, Weight, Arrivals, IsHeap, KeyLess, Distinct;
    HeapKnows(added, capacity, heap, e);
    LeastStep(added, e, capacity);
  }

  lemma HoldsPushed(heap: seq<Entry>, used: nat, added: seq<Entry>, capacity: nat, e: Entry, after: seq<Entry>)
    requires Holds(heap, used, added, capacity) && Arrivals(added) && e.serial == |added| && capacity > 0
    requires |heap| != capacity && IsHeap(after) && multiset(after) == multiset(heap) + multiset{e}
    ensures Holds(after, used + e.size, added + [e], capacity)
  {
    hide Before, Least, Weight, Arrivals, IsHeap, KeyLess, Distinct;
    HeapKnows(added, capacity, heap, e);
    LeastStep(added, e, capacity);
  }

  class SortedPage {
    const offset: nat
    const limit: nat
    const capacity: nat
    const budget: nat
    const spooled: bool
    var total: nat
    var used: nat
    var heap: seq<Entry>
    var spool: seq<Entry>
    ghost var added: seq<Entry>

    constructor (offset: nat, limit: nat, budget: nat)
      ensures Valid() && added == [] && used == 0 && this.budget == budget
      ensures this.offset == offset && this.limit == limit
    {
      this.offset, this.limit, this.budget := offset, limit, budget;
      capacity := offset + limit;
      spooled := offset + limit > HEAP_ROWS;
      total, used, heap, spool, added := 0, 0, [], [], [];
    }

    /** A deep page keeps everything on disk; any other keeps the least rows and their bytes. */
    ghost predicate Valid()
      reads this
    {
      && capacity == offset + limit && spooled == (capacity > HEAP_ROWS) && total == |added| && Arrivals(added)
      && if spooled then spool == added && used == 0
         else Holds(heap, used, added, capacity)
    }

    /** One more entry among the least, or not. */
    method AddToHeap(e: Entry) returns (kept: bool)
      requires Holds(heap, used, added, capacity) && Arrivals(added) && e.serial == |added| && capacity > 0
      modifies this`heap, this`used
      ensures Holds(heap, used, added + [e], capacity)
      ensures !kept ==> used == old(used)
    {
      HeapKnows(added, capacity, heap, e);
      ghost var before := heap;
      if |heap| == capacity && !KeyLess(e.key, heap[0].key) {
        HoldsDropped(heap, used, added, capacity, e);
        return false;
      }
      hide Before, Least, Weight, Arrivals, IsHeap, KeyLess, Distinct, Holds;
      if |heap| == capacity {
        HoldsHeap(heap, used, added, capacity);
        var size := heap[0].size;
        heap := HeapReplace(heap, e);
        HoldsReplaced(before, used, added, capacity, e, heap);
        used := used - size + e.size;
      } else {
        HoldsHeap(heap, used, added, capacity);
        heap := HeapPush(heap, e);
        HoldsPushed(before, used, added, capacity, e, heap);
        used := used + e.size;
      }
      kept := true;
    }

    /** Add a row. The budget is exceeded exactly when the least rows so far weigh more; a spooled
        page has no budget of its own. */
    method Add(key: Key, row: Json) returns (ok: bool)
      requires Valid() && capacity > 0 && used <= budget
      modifies this
      ensures Valid() && added == old(added) + [Entry(key, old(total), Size(row), row)]
      ensures ok <==> used <= budget
      ensures !spooled ==> used == Weight(Least(added, capacity))
    {
      hide Before, Least, Size, Weight, Arrivals, IsHeap;
      var e := Entry(key, total, Size(row), row);
      ArrivalsAppend(added, e);
      total := total + 1;
      ok := true;
      if spooled {
        spool := spool + [e];
      } else {
        var kept := AddToHeap(e);
        ok := !kept || used <= budget;
      }
      added := added + [e];
    }

    /** The page: the same rows whether they were kept in the heap or on disk. */
    method Items() returns (items: seq<Json>)
      requires Valid()
      ensures items == PageRows(added, offset, limit)
    {
      hide Before, Ranked, Place, Weight, Arrivals, IsHeap, Ordered;
      RankedIsSorted(added);
      if offset >= total {
        return [];
      }
      if spooled {
        PartDistinct(added, spool);
        var sorted := SortEntries(spool);
        OrderedUnique(sorted, Ranked(added));
        var end := if offset + limit <= |sorted| then offset + limit else |sorted|;
        items := RowsOf(sorted[offset..end]);
      } else {
        LeastOrdered(added, capacity);
        LeastIsPart(added, capacity);
        PartDistinct(added, heap);
        var sorted := SortEntries(heap);
        OrderedUnique(sorted, Least(added, capacity));
        CutSlice(Ranked(added), offset, capacity);
        var end := if capacity <= |sorted| then capacity else |sorted|;
        items := RowsOf(sorted[offset..end]);
      }
    }
  }

  lemma CutSlice(xs: seq<Entry>, offset: nat, capacity: nat)
    requires offset <= capacity && offset < |xs|
    ensures var cut := Cut(xs, capacity); var end := if capacity <= |xs| then capacity else |xs|;
            |cut| == end && cut[offset..end] == xs[offset..end]
  {
  }

  lemma ArrivalsAppend(added: seq<Entry>, e: Entry)
    requires Arrivals(added) && e.serial == |added|
    ensures Arrivals(added + [e])
  {
  }

  lemma {:induction false} AddedOnce(added: seq<Entry>, i: nat)
    requires Arrivals(added) && i < |added|
    ensures multiset(added)[added[i]] == 1
  {
    var last := |added| - 1;
    assert added == added[..last] + [added[last]];
    if i < last {
      AddedOnce(added[..last], i);
    } else {
      assert added[last] !in added[..last];
    }
  }

  /** Whatever part of what was added, each serial is there once and comes before the next. */
  lemma PartDistinct(added: seq<Entry>, xs: seq<Entry>)
    requires Arrivals(added) && multiset(xs) <= multiset(added)
    ensures Distinct(xs) && forall x :: x in xs ==> x.serial < |added|
  {
    forall x | x in xs ensures x in added && x.serial < |added| && added[x.serial] == x {
      assert x in multiset(xs) && x in multiset(added);
    }
    forall i, j | 0 <= i < j < |xs| ensures xs[i].serial != xs[j].serial {
      assert xs[i] in xs && xs[j] in xs;
      if xs[i].serial == xs[j].serial {
        TwiceCounts(xs, i, j);
        AddedOnce(added, xs[i].serial);
      }
    }
  }

  lemma LeastIsPart(added: seq<Entry>, capacity: nat)
    requires Arrivals(added)
    ensures multiset(Least(added, capacity)) <= multiset(added)
  {
    RankedIsSorted(added);
    hide Ranked, Ordered, Before, Arrivals;
    CutIsPart(Ranked(added), capacity);
  }

  lemma CutIsPart(xs: seq<Entry>, capacity: nat)
    ensures multiset(Cut(xs, capacity)) <= multiset(xs)
  {
    if |xs| > capacity {
      assert xs == xs[..capacity] + xs[capacity..];
    }
  }

  lemma LastIsFront(least: seq<Entry>, heap: seq<Entry>)
    requires Ordered(least) && IsHeap(heap) && multiset(heap) == multiset(least) && least != []
    ensures heap != [] && heap[0] == least[|least| - 1]
  {
    hide Before;
    var last := |least| - 1;
    assert |multiset(heap)| == |heap| && |multiset(least)| == |least|;
    assert heap[0] in multiset(least) && least[last] in multiset(heap);
    var i :| 0 <= i < |least| && least[i] == heap[0];
    BeforeTotal(least[last], heap[0]);
  }

  /** What the heap of the least rows knows when a row arrives. */
  lemma HeapKnows(added: seq<Entry>, capacity: nat, heap: seq<Entry>, e: Entry)
    requires Arrivals(added) && IsHeap(heap) && multiset(heap) == multiset(Least(added, capacity)) && capacity > 0
    requires e.serial == |added|
    ensures |heap| == |Least(added, capacity)| <= capacity && Distinct(heap)
    ensures forall x :: x in heap ==> x.serial != e.serial
    ensures |heap| == capacity ==>
              && heap[0] == Least(added, capacity)[capacity - 1]
              && (Before(e, heap[0]) <==> KeyLess(e.key, heap[0].key))
  {
    LeastOrdered(added, capacity);
    LeastIsPart(added, capacity);
    PartDistinct(added, heap);
    hide Least, IsHeap, Ordered, Distinct, Arrivals;
    var least := Least(added, capacity);
    assert |multiset(heap)| == |heap| && |multiset(least)| == |least|;
    if |heap| == capacity {
      LastIsFront(least, heap);
      assert heap[0] in heap;
    }
  }
}
