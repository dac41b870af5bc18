/** Lexicographic keys and the stable sort every ordered result is built with. */
module Sorting {
  /** UTF-16 code units, bytes or any other sequence of numbers compared from the front. */
  type Key = seq<nat>

  predicate Less(a: Key, b: Key) {
    b != [] && (a == [] || a[0] < b[0] || (a[0] == b[0] && Less(a[1..], b[1..])))
  }

  lemma {:induction false} LessTotal(a: Key, b: Key)
    ensures Less(a, b) || Less(b, a) || a == b
    ensures !(Less(a, b) && Less(b, a)) && !Less(a, a)
  {
    if a != [] {
      if b != [] {
        LessTotal(a[1..], b[1..]);
        if a[0] == b[0] && a[1..] == b[1..] {
          assert a == [a[0]] + a[1..] == b;
        }
      }
      LessTotal(a[1..], a[1..]);
    }
  }

  lemma {:induction false} LessTransitive(a: Key, b: Key, c: Key)
    requires Less(a, b) && Less(b, c)
    ensures Less(a, c)
  {
    if a != [] && a[0] == b[0] && b[0] == c[0] {
      LessTransitive(a[1..], b[1..], c[1..]);
    }
  }

  lemma NotLessTransitive(a: Key, b: Key, c: Key)
    requires !Less(a, b) && !Less(b, c)
    ensures !Less(a, c)
  {
    LessTotal(a, b);
    LessTotal(b, c);
    LessTotal(a, c);
    if Less(b, a) && Less(c, b) {
      LessTransitive(c, b, a);
    }
  }

  /** A row that waits to be sorted, with its key. */
  datatype Keyed<+T> = Keyed(key: Key, row: T)

  ghost predicate Sorted<T>(xs: seq<Keyed<T>>) {
    forall i, j :: 0 <= i < j < |xs| ==> !Less(xs[j].key, xs[i].key)
  }

  /** In front of every row that does not come strictly before it. */
  function Insert<T>(x: Keyed<T>, xs: seq<Keyed<T>>): seq<Keyed<T>> {
    if xs == [] || !Less(xs[0].key, x.key) then [x] + xs else [xs[0]] + Insert(x, xs[1..])
  }

  /** The stable sort: rows of equal key keep their order. */
  function Sort<T>(xs: seq<Keyed<T>>): seq<Keyed<T>> {
    if xs == [] then [] else Insert(xs[0], Sort(xs[1..]))
  }

  function Filter<T>(xs: seq<T>, keep: T -> bool): seq<T> {
    if xs == [] then [] else (if keep(xs[0]) then [xs[0]] else []) + Filter(xs[1..], keep)
  }

  lemma {:induction false} InsertSorted<T>(x: Keyed<T>, xs: seq<Keyed<T>>)
    requires Sorted(xs)
    ensures Sorted(Insert(x, xs))
    ensures multiset(Insert(x, xs)) == multiset{x} + multiset(xs)
  {
    if xs == [] {
    } else if !Less(xs[0].key, x.key) {
      var all := [x] + xs;
      forall j | 1 <= j < |all|
        ensures !Less(all[j].key, x.key)
      {
        assert all[j] == xs[j - 1];
        LessTotal(xs[0].key, xs[0].key);
        NotLessTransitive(xs[j - 1].key, xs[0].key, x.key);
      }
      assert forall i, j :: 1 <= i < j < |all| ==> all[i] == xs[i - 1] && all[j] == xs[j - 1];
    } else {
      assert xs == [xs[0]] + xs[1..];
      InsertSorted(x, xs[1..]);
      var rest := Insert(x, xs[1..]);
      forall k | 0 <= k < |rest|
        ensures !Less(rest[k].key, xs[0].key)
      {
        assert rest[k] in multiset(rest);
        if rest[k] == x {
          LessTotal(x.key, xs[0].key);
        } else {
          assert rest[k] in xs[1..];
        }
      }
    }
  }

  /** Sorting rearranges and orders. */
  lemma {:induction false} SortSorts<T>(xs: seq<Keyed<T>>)
    ensures Sorted(Sort(xs)) && multiset(Sort(xs)) == multiset(xs)
  {
    if xs != [] {
      assert xs == [xs[0]] + xs[1..];
      SortSorts(xs[1..]);
      InsertSorted(xs[0], Sort(xs[1..]));
    }
  }

  lemma {:induction false} FilterAppend<T>(xs: seq<T>, ys: seq<T>, keep: T -> bool)
    ensures Filter(xs + ys, keep) == Filter(xs, keep) + Filter(ys, keep)
  {
    if xs == [] {
      assert xs + ys == ys;
    } else {
      assert (xs + ys)[1..] == xs[1..] + ys;
      FilterAppend(xs[1..], ys, keep);
      var head := if keep(xs[0]) then [xs[0]] else [];
      assert head + (Filter(xs[1..], keep) + Filter(ys, keep)) == head + Filter(xs[1..], keep) + Filter(ys, keep);
    }
  }

  lemma {:induction false} FilterMember<T>(xs: seq<T>, keep: T -> bool, x: T)
    ensures x in Filter(xs, keep) <==> x in xs && keep(x)
  {
    if xs != [] {
      assert xs == [xs[0]] + xs[1..];
      FilterMember(xs[1..], keep, x);
    }
  }

  /** Dropping a row before or after it is inserted makes no difference. */
  lemma {:induction false} InsertFilter<T>(x: Keyed<T>, xs: seq<Keyed<T>>, keep: Keyed<T> -> bool)
    requires Sorted(xs)
    ensures Filter(Insert(x, xs), keep) == if keep(x) then Insert(x, Filter(xs, keep)) else Filter(xs, keep)
  {
    if xs == [] {
    } else if !Less(xs[0].key, x.key) {
      FilterCons(x, xs, keep);
      var kept := Filter(xs, keep);
      if kept != [] {
        FilterMember(xs, keep, kept[0]);
        var i :| 0 <= i < |xs| && xs[i] == kept[0];
        LessTotal(xs[0].key, xs[0].key);
        NotLessTransitive(xs[i].key, xs[0].key, x.key);
      }
    } else {
      var first, rest := xs[0], Filter(xs[1..], keep);
      InsertFilter(x, xs[1..], keep);
      FilterCons(first, Insert(x, xs[1..]), keep);
      assert Filter(xs, keep) == (if keep(first) then [first] else []) + rest;
      if keep(first) {
        assert ([first] + rest)[1..] == rest;
        assert Insert(x, [first] + rest) == [first] + Insert(x, rest);
      } else {
        assert Filter(xs, keep) == rest;
      }
    }
  }

  lemma FilterCons<T>(x: T, xs: seq<T>, keep: T -> bool)
    ensures Filter([x] + xs, keep) == (if keep(x) then [x] else []) + Filter(xs, keep)
  {
    assert ([x] + xs)[1..] == xs;
  }

  lemma FilterOne<T>(x: T, keep: T -> bool)
    ensures Filter([x], keep) == if keep(x) then [x] else []
  {
    assert |[x][1..]| == 0;
  }

  /** Selecting rows and sorting them is sorting all rows and selecting. */
  lemma {:induction false} SortFilter<T>(xs: seq<Keyed<T>>, keep: Keyed<T> -> bool)
    ensures Sort(Filter(xs, keep)) == Filter(Sort(xs), keep)
  {
    if xs != [] {
      hide Less;
      hide Insert;
      SortSorts(xs[1..]);
      SortFilter(xs[1..], keep);
      InsertFilter(xs[0], Sort(xs[1..]), keep);
      if keep(xs[0]) {
        assert Filter(xs, keep)[1..] == Filter(xs[1..], keep);
      } else {
        assert Filter(xs, keep) == Filter(xs[1..], keep);
      }
    }
  }

  /** Rows of different keys may be inserted in either order. */
  lemma {:induction false} InsertSwaps<T>(a: Keyed<T>, b: Keyed<T>, xs: seq<Keyed<T>>)
    requires Sorted(xs) && Less(a.key, b.key)
    ensures Insert(a, Insert(b, xs)) == Insert(b, Insert(a, xs))
  {
    LessTotal(a.key, b.key);
    if xs == [] {
      assert ([a] + [b])[1..] == [b];
    } else if !Less(xs[0].key, a.key) {
      NotLessTransitive(xs[0].key, a.key, a.key);
      LessTotal(a.key, a.key);
      var with := [a] + xs;
      assert with[1..] == xs;
      assert Insert(b, with) == [a] + Insert(b, xs);
      InsertHead(b, xs);
      if Less(xs[0].key, b.key) {
      } else {
        assert Insert(b, xs)[0] == b;
      }
    } else {
      LessTransitive(xs[0].key, a.key, b.key);
      InsertSwaps(a, b, xs[1..]);
      assert ([xs[0]] + Insert(b, xs[1..]))[1..] == Insert(b, xs[1..]);
      assert ([xs[0]] + Insert(a, xs[1..]))[1..] == Insert(a, xs[1..]);
    }
  }

  lemma InsertHead<T>(x: Keyed<T>, xs: seq<Keyed<T>>)
    ensures Insert(x, xs)[0] == if xs == [] || !Less(xs[0].key, x.key) then x else xs[0]
  {
  }

  /** A row may be sorted as if it came first when no row before it has its key. */
  lemma {:induction false} SortFromMiddle<T>(before: seq<Keyed<T>>, x: Keyed<T>, after: seq<Keyed<T>>)
    requires forall i :: 0 <= i < |before| ==> before[i].key != x.key
    ensures Sort(before + [x] + after) == Insert(x, Sort(before + after))
  {
    if before == [] {
      assert before + [x] + after == [x] + after && before + after == after;
      assert ([x] + after)[1..] == after;
    } else {
      var first, rest := before[0], before[1..];
      assert (before + [x] + after)[1..] == rest + [x] + after && (before + after)[1..] == rest + after;
      SortFromMiddle(rest, x, after);
      SortSorts(rest + after);
      LessTotal(first.key, x.key);
      if Less(first.key, x.key) {
        InsertSwaps(first, x, Sort(rest + after));
      } else {
        InsertSwaps(x, first, Sort(rest + after));
      }
    }
  }

  /** No two rows of equal key stand in different orders in the two lists. */
  ghost predicate NoTieSwapped<T(!new)>(xs: seq<Keyed<T>>, ys: seq<Keyed<T>>) {
    forall i, j, k, l :: 0 <= i < j < |xs| && 0 <= k < l < |ys| && xs[i] == ys[l] && xs[j] == ys[k] ==>
      xs[i].key != xs[j].key
  }

  ghost predicate AllDistinct<T(!new)>(xs: seq<T>) {
    forall i, j :: 0 <= i < j < |xs| ==> xs[i] != xs[j]
  }

  /** Rearrangements that swap no tie sort alike. */
  lemma {:induction false} SortIgnoresOrder<T(!new)>(xs: seq<Keyed<T>>, ys: seq<Keyed<T>>)
    requires AllDistinct(xs) && AllDistinct(ys) && NoTieSwapped(xs, ys)
    requires forall x :: x in xs <==> x in ys
    ensures Sort(xs) == Sort(ys)
  {
    if xs == [] {
      SomeMember(ys);
    } else {
      var x := xs[0];
      assert x in xs;
      var p :| 0 <= p < |ys| && ys[p] == x;
      var before, after := ys[..p], ys[p + 1..];
      assert ys == before + [x] + after;
      forall i | 0 <= i < |before|
        ensures before[i].key != x.key
      {
        assert ys[i] in xs;
        var j :| 0 <= j < |xs| && xs[j] == ys[i];
      }
      SortFromMiddle(before, x, after);
      DroppedOne(xs, ys, p);
      SortIgnoresOrder(xs[1..], before + after);
    }
  }

  lemma SomeMember<T(!new)>(xs: seq<T>)
    ensures xs == [] || exists x :: x in xs
  {
    if xs != [] {
      assert xs[0] in xs;
    }
  }

  lemma DroppedOne<T(!new)>(xs: seq<Keyed<T>>, ys: seq<Keyed<T>>, p: nat)
    requires AllDistinct(xs) && AllDistinct(ys) && NoTieSwapped(xs, ys)
    requires xs != [] && p < |ys| && ys[p] == xs[0]
    requires forall x :: x in xs <==> x in ys
    ensures AllDistinct(xs[1..]) && AllDistinct(ys[..p] + ys[p + 1..])
    ensures NoTieSwapped(xs[1..], ys[..p] + ys[p + 1..])
    ensures forall x :: x in xs[1..] <==> x in ys[..p] + ys[p + 1..]
  {
    var rest, left := xs[1..], ys[..p] + ys[p + 1..];
    assert forall i :: 0 <= i < |rest| ==> rest[i] == xs[i + 1];
    assert forall i :: 0 <= i < |left| ==> left[i] == ys[if i < p then i else i + 1];
    forall x
      ensures x in rest <==> x in left
    {
      DroppedMember(xs, 0, x);
      DroppedMember(ys, p, x);
      assert xs[..0] + xs[1..] == rest;
    }
  }

  lemma DroppedMember<T(!new)>(xs: seq<T>, p: nat, x: T)
    requires AllDistinct(xs) && p < |xs|
    ensures x in xs[..p] + xs[p + 1..] <==> x in xs && x != xs[p]
  {
    var left := xs[..p] + xs[p + 1..];
    if x in left {
      var k :| 0 <= k < |left| && left[k] == x;
      assert xs[if k < p then k else k + 1] == x;
    }
    if x in xs && x != xs[p] {
      var k :| 0 <= k < |xs| && xs[k] == x;
      assert left[if k < p then k else k - 1] == x;
    }
  }

  lemma TwiceCounts<T>(xs: seq<T>, i: nat, j: nat)
    requires i < j < |xs| && xs[i] == xs[j]
    ensures multiset(xs)[xs[i]] >= 2
  {
    assert xs == xs[..i] + [xs[i]] + xs[i + 1..j] + [xs[j]] + xs[j + 1..];
  }

  lemma {:induction false} DistinctCounts<T(!new)>(xs: seq<T>, x: T)
    requires AllDistinct(xs)
    ensures multiset(xs)[x] <= 1
  {
    if xs != [] {
      var last := |xs| - 1;
      DistinctCounts(xs[..last], x);
      assert xs == xs[..last] + [xs[last]];
      assert xs[last] !in xs[..last];
    }
  }

  /** What is a part of something without repetitions has none. */
  lemma DistinctPart<T(!new)>(xs: seq<T>, ys: seq<T>)
    requires AllDistinct(xs) && multiset(ys) <= multiset(xs)
    ensures AllDistinct(ys)
  {
    forall i, j | 0 <= i < j < |ys|
      ensures ys[i] != ys[j]
    {
      DistinctCounts(xs, ys[i]);
      if ys[i] == ys[j] {
        TwiceCounts(ys, i, j);
      }
    }
  }
}
