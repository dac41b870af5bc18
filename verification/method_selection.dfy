/** Selecting methods of a class before ordering them, or after. The order of what is shown
    changes exactly when the selection reverses the first uses of two name indices of one text. */
module MethodSelection {
  import opened ClassData
  import opened Sorting
  import opened MethodOrder

  // ---------------------------------------------------------------------------------------
  // Filters
  // ---------------------------------------------------------------------------------------

  function OnRow<T>(keep: T -> bool): Keyed<T> -> bool {
    (x: Keyed<T>) => keep(x.row)
  }

  function Both<T>(p: T -> bool, q: T -> bool): T -> bool {
    x => p(x) && q(x)
  }

  lemma {:induction false} FilterFilter<T>(xs: seq<T>, p: T -> bool, q: T -> bool)
    ensures Filter(Filter(xs, p), q) == Filter(xs, Both(p, q))
  {
    if xs != [] {
      FilterFilter(xs[1..], p, q);
      if p(xs[0]) {
        assert Filter(xs, p)[1..] == Filter(xs[1..], p);
      } else {
        assert Filter(xs, p) == Filter(xs[1..], p);
      }
    }
  }

  lemma {:induction false} FilterSame<T>(xs: seq<T>, p: T -> bool, q: T -> bool)
    requires forall x :: x in xs ==> p(x) == q(x)
    ensures Filter(xs, p) == Filter(xs, q)
  {
    if xs != [] {
      assert xs[0] in xs;
      FilterSame(xs[1..], p, q);
    }
  }

  lemma {:induction false} RowsFilter<T>(xs: seq<Keyed<T>>, keep: T -> bool)
    ensures Rows(Filter(xs, OnRow(keep))) == Filter(Rows(xs), keep)
  {
    if xs != [] {
      RowsFilter(xs[1..], keep);
      var rest := Filter(xs[1..], OnRow(keep));
      assert Rows(xs)[1..] == Rows(xs[1..]);
      if keep(xs[0].row) {
        assert ([xs[0]] + rest)[1..] == rest;
      } else {
        assert Filter(xs, OnRow(keep)) == rest;
      }
    }
  }

  lemma {:induction false} FlattenFilter<T, U>(xs: seq<T>, f: T -> seq<U>, g: T -> seq<U>, keep: U -> bool)
    requires forall x :: x in xs ==> g(x) == Filter(f(x), keep)
    ensures Filter(Flatten(xs, f), keep) == Flatten(xs, g)
  {
    if xs != [] {
      assert xs[0] in xs;
      FlattenFilter(xs[1..], f, g, keep);
      FilterAppend(f(xs[0]), Flatten(xs[1..], f), keep);
    }
  }

  lemma {:induction false} FlattenNonEmpty<T, U>(xs: seq<T>, f: T -> seq<U>, keep: T -> bool)
    requires forall x :: x in xs && !keep(x) ==> f(x) == []
    ensures Flatten(Filter(xs, keep), f) == Flatten(xs, f)
  {
    if xs != [] {
      assert xs[0] in xs;
      FlattenNonEmpty(xs[1..], f, keep);
      if keep(xs[0]) {
        assert Filter(xs, keep)[1..] == Filter(xs[1..], keep);
      } else {
        assert Filter(xs, keep) == Filter(xs[1..], keep);
      }
    }
  }

  lemma {:induction false} FilterKeepsOrder<T>(xs: seq<T>, keep: T -> bool, u: nat, v: nat) returns (i: nat, j: nat)
    requires u < v < |Filter(xs, keep)|
    ensures i < j < |xs| && xs[i] == Filter(xs, keep)[u] && xs[j] == Filter(xs, keep)[v]
  {
    var rest := Filter(xs[1..], keep);
    if !keep(xs[0]) {
      assert Filter(xs, keep) == rest;
      i, j := FilterKeepsOrder(xs[1..], keep, u, v);
      i, j := i + 1, j + 1;
    } else if u > 0 {
      i, j := FilterKeepsOrder(xs[1..], keep, u - 1, v - 1);
      i, j := i + 1, j + 1;
    } else {
      i := 0;
      assert rest[v - 1] in rest;
      FilterMember(xs[1..], keep, rest[v - 1]);
      j :| 0 < j < |xs| && xs[j] == rest[v - 1];
    }
  }

  lemma {:induction false} FilterAll<T>(xs: seq<T>, keep: T -> bool)
    requires forall x :: x in xs ==> keep(x)
    ensures Filter(xs, keep) == xs
  {
    if xs != [] {
      assert xs[0] in xs;
      FilterAll(xs[1..], keep);
    }
  }

  lemma FirstOfFlatten<T, U>(xs: seq<T>, f: T -> seq<U>)
    requires xs != [] && f(xs[0]) != []
    ensures Flatten(xs, f) != [] && Flatten(xs, f)[0] == f(xs[0])[0]
  {
  }

  lemma SameFront<U>(front: seq<U>, xs: seq<U>, ys: seq<U>)
    requires front + xs == front + ys
    ensures xs == ys
  {
    assert (front + xs)[|front|..] == xs && (front + ys)[|front|..] == ys;
  }

  /** Lists whose pieces are told apart by their first elements are flattened alike only when
      they are the same. */
  lemma {:induction false} FlattenApart<T, U>(xs: seq<T>, ys: seq<T>, f: T -> seq<U>)
    requires forall x :: x in xs ==> f(x) != []
    requires forall y :: y in ys ==> f(y) != []
    requires forall x, y :: x in xs && y in ys && f(x)[0] == f(y)[0] ==> x == y
    ensures Flatten(xs, f) == Flatten(ys, f) ==> xs == ys
  {
    if Flatten(xs, f) == Flatten(ys, f) {
      if xs == [] || ys == [] {
        OnlyNothingIsEmpty(xs, f);
        OnlyNothingIsEmpty(ys, f);
      } else {
        assert xs[0] in xs && ys[0] in ys;
        FirstOfFlatten(xs, f);
        FirstOfFlatten(ys, f);
        SameFront(f(xs[0]), Flatten(xs[1..], f), Flatten(ys[1..], f));
        FlattenApart(xs[1..], ys[1..], f);
        assert xs == [xs[0]] + xs[1..] == ys;
      }
    }
  }

  lemma OnlyNothingIsEmpty<T, U>(xs: seq<T>, f: T -> seq<U>)
    requires forall x :: x in xs ==> f(x) != []
    ensures Flatten(xs, f) == [] ==> xs == []
  {
    if xs != [] {
      assert xs[0] in xs;
    }
  }

  /** Lists made of pieces of equal lengths are equal exactly when every piece is. */
  lemma {:induction false} FlattenPieces<T, U>(xs: seq<T>, f: T -> seq<U>, g: T -> seq<U>)
    requires forall x :: x in xs ==> |f(x)| == |g(x)|
    ensures Flatten(xs, f) == Flatten(xs, g) <==> forall x :: x in xs ==> f(x) == g(x)
  {
    if xs != [] {
      assert xs == [xs[0]] + xs[1..] && xs[0] in xs;
      FlattenPieces(xs[1..], f, g);
      var a, b := Flatten(xs[1..], f), Flatten(xs[1..], g);
      if f(xs[0]) + a == g(xs[0]) + b {
        assert (f(xs[0]) + a)[..|f(xs[0])|] == f(xs[0]) && (g(xs[0]) + b)[..|f(xs[0])|] == g(xs[0]);
        SameFront(f(xs[0]), a, b);
      }
    }
  }

  lemma {:induction false} FlattenPiecesLength<T, U>(xs: seq<T>, f: T -> seq<U>, g: T -> seq<U>)
    requires forall x :: x in xs ==> |f(x)| == |g(x)|
    ensures |Flatten(xs, f)| == |Flatten(xs, g)|
  {
    if xs != [] {
      assert xs[0] in xs;
      FlattenPiecesLength(xs[1..], f, g);
    }
  }

  // ---------------------------------------------------------------------------------------
  // Orders of use
  // ---------------------------------------------------------------------------------------

  /** `a` is used before `b` is used at all. */
  ghost predicate UsedBefore(t: Table, rows: seq<Member>, a: nat, b: nat) {
    exists i :: 0 <= i < |rows| && t.Id(rows[i]) == a && Unused(t, rows, b, i)
  }

  ghost predicate Unused(t: Table, rows: seq<Member>, b: nat, i: nat)
    requires i < |rows|
  {
    forall j :: 0 <= j <= i ==> t.Id(rows[j]) != b
  }

  lemma {:induction false} IdsInOrderOfUse(t: Table, rows: seq<Member>, u: nat, v: nat)
    requires u < v < |Ids(t, rows)|
    ensures UsedBefore(t, rows, Ids(t, rows)[u], Ids(t, rows)[v])
  {
    var init, ids := rows[..|rows| - 1], Ids(t, rows);
    var a, b := ids[u], ids[v];
    if v < |Ids(t, init)| {
      IdsInOrderOfUse(t, init, u, v);
      var i :| 0 <= i < |init| && t.Id(init[i]) == a && Unused(t, init, b, i);
      assert rows[i] == init[i] && Unused(t, rows, b, i);
    } else {
      IdsAreUsed(t, init);
      assert a in Ids(t, init);
      var i :| 0 <= i < |init| && t.Id(init[i]) == a;
      forall j | 0 <= j <= i
        ensures t.Id(rows[j]) != b
      {
        assert init[j] == rows[j];
      }
      assert rows[i] == init[i] && Unused(t, rows, b, i);
    }
  }

  lemma NotBothBefore(t: Table, rows: seq<Member>, a: nat, b: nat)
    requires UsedBefore(t, rows, a, b)
    ensures !UsedBefore(t, rows, b, a)
  {
    var i :| 0 <= i < |rows| && t.Id(rows[i]) == a && Unused(t, rows, b, i);
    forall j | 0 <= j < |rows| && t.Id(rows[j]) == b
      ensures !Unused(t, rows, a, j)
    {
      assert i < j;
    }
  }

  function Either(a: nat, b: nat): nat -> bool {
    (id: nat) => id == a || id == b
  }

  /** Of two indices in use, the one used first is listed first. */
  lemma PairInOrderOfUse(t: Table, rows: seq<Member>, a: nat, b: nat)
    requires a != b && b in Ids(t, rows) && UsedBefore(t, rows, a, b)
    ensures Filter(Ids(t, rows), Either(a, b)) == [a, b]
  {
    var ids, keep := Ids(t, rows), Either(a, b);
    var xs := Filter(ids, keep);
    IdsAreUsed(t, rows);
    var i :| 0 <= i < |rows| && t.Id(rows[i]) == a && Unused(t, rows, b, i);
    hide *;
    FilterMember(ids, keep, a);
    FilterMember(ids, keep, b);
    forall u | 0 <= u < |xs| - 1
      ensures xs[u] == a
    {
      PairStands(t, rows, a, b, u, u + 1);
    }
    forall v | 1 <= v < |xs|
      ensures xs[v] == b
    {
      PairStands(t, rows, a, b, v - 1, v);
    }
    TwoListed(xs, a, b);
  }

  lemma PairStands(t: Table, rows: seq<Member>, a: nat, b: nat, u: nat, v: nat)
    requires a != b && UsedBefore(t, rows, a, b) && u < v < |Filter(Ids(t, rows), Either(a, b))|
    ensures var xs := Filter(Ids(t, rows), Either(a, b)); xs[u] == a && xs[v] == b
  {
    hide Ids;
    hide Filter;
    var xs := Filter(Ids(t, rows), Either(a, b));
    FilterMember(Ids(t, rows), Either(a, b), xs[u]);
    FilterMember(Ids(t, rows), Either(a, b), xs[v]);
    IdsAreUsed(t, rows);
    var i, j := FilterKeepsOrder(Ids(t, rows), Either(a, b), u, v);
    IdsInOrderOfUse(t, rows, i, j);
    NotBothBefore(t, rows, a, b);
  }

  lemma TwoListed(xs: seq<nat>, a: nat, b: nat)
    requires a != b && a in xs && b in xs
    requires forall u :: 0 <= u < |xs| - 1 ==> xs[u] == a
    requires forall v :: 1 <= v < |xs| ==> xs[v] == b
    ensures xs == [a, b]
  {
    var p :| 0 <= p < |xs| && xs[p] == a;
    var q :| 0 <= q < |xs| && xs[q] == b;
    assert p == 0 && q == |xs| - 1;
    assert xs[1] == b;
  }

  function InIds(t: Table, rows: seq<Member>): nat -> bool {
    (id: nat) => id in Ids(t, rows)
  }

  lemma {:induction false} KeyedIdsFilter(t: Table, ids: seq<nat>, keep: nat -> bool)
    ensures KeyedIds(t, Filter(ids, keep)) == Filter(KeyedIds(t, ids), OnRow(keep))
  {
    if ids != [] {
      KeyedIdsFilter(t, ids[1..], keep);
      assert KeyedIds(t, ids)[1..] == KeyedIds(t, ids[1..]);
      if keep(ids[0]) {
        assert Filter(ids, keep)[1..] == Filter(ids[1..], keep);
      } else {
        assert Filter(ids, keep) == Filter(ids[1..], keep);
      }
    }
  }

  /** The names of what is shown, in the order of first use among some rows. */
  function ShownIds(t: Table, rows: seq<Member>, shown: seq<Member>): seq<nat> {
    Filter(Ids(t, rows), InIds(t, shown))
  }

  /** Some names, sorted as the program sorts them. */
  function SortIds(t: Table, ids: seq<nat>): seq<nat> {
    Rows(Sort(KeyedIds(t, ids)))
  }

  /** Names left out before or after they are sorted. */
  lemma SortIdsFilter(t: Table, ids: seq<nat>, keep: nat -> bool)
    ensures Filter(SortIds(t, ids), keep) == SortIds(t, Filter(ids, keep))
  {
    KeyedIdsFilter(t, ids, keep);
    SortFilter(KeyedIds(t, ids), OnRow(keep));
    RowsFilter(Sort(KeyedIds(t, ids)), keep);
  }

  lemma SameKeyed(t: Table, xs: seq<nat>, ys: seq<nat>)
    requires AllDistinct(xs) && AllDistinct(ys) && forall id :: id in xs <==> id in ys
    requires forall i, j, k, l :: 0 <= i < j < |xs| && 0 <= k < l < |ys| && xs[i] == ys[l] && xs[j] == ys[k] ==>
               t.NameKey(xs[i]) != t.NameKey(xs[j])
    ensures AllDistinct(KeyedIds(t, xs)) && AllDistinct(KeyedIds(t, ys))
    ensures NoTieSwapped(KeyedIds(t, xs), KeyedIds(t, ys))
    ensures forall x :: x in KeyedIds(t, xs) <==> x in KeyedIds(t, ys)
  {
    var kxs, kys := KeyedIds(t, xs), KeyedIds(t, ys);
    KeyedDistinct(t, xs);
    KeyedDistinct(t, ys);
    forall x
      ensures x in kxs <==> x in kys
    {
      KeyedMember(t, xs, x);
      KeyedMember(t, ys, x);
    }
    forall i, j, k, l | 0 <= i < j < |kxs| && 0 <= k < l < |kys| && kxs[i] == kys[l] && kxs[j] == kys[k]
      ensures kxs[i].key != kxs[j].key
    {
      assert xs[i] == kxs[i].row == kys[l].row == ys[l];
      assert xs[j] == kxs[j].row == kys[k].row == ys[k];
    }
  }

  lemma KeyedDistinct(t: Table, ids: seq<nat>)
    requires AllDistinct(ids)
    ensures AllDistinct(KeyedIds(t, ids))
  {
    var keyed := KeyedIds(t, ids);
    forall i, j | 0 <= i < j < |keyed|
      ensures keyed[i] != keyed[j]
    {
      assert keyed[i].row == ids[i] && keyed[j].row == ids[j];
    }
  }

  lemma KeyedMember(t: Table, ids: seq<nat>, x: Keyed<nat>)
    ensures x in KeyedIds(t, ids) <==> x.row in ids && x.key == t.NameKey(x.row)
  {
    if x.row in ids && x.key == t.NameKey(x.row) {
      var i :| 0 <= i < |ids| && ids[i] == x.row;
      assert KeyedIds(t, ids)[i] == x;
    }
  }

  lemma TiedPair(t: Table, a: nat, b: nat)
    requires t.NameKey(a) == t.NameKey(b)
    ensures SortIds(t, [a, b]) == [a, b]
  {
    var x: Keyed<nat>, y: Keyed<nat> := Keyed(t.NameKey(a), a), Keyed(t.NameKey(b), b);
    assert KeyedIds(t, [a, b]) == [x, y];
    assert [x, y][1..] == [y];
    SortOne(y);
    LessTotal(x.key, x.key);
    assert Insert(x, [y]) == [x] + [y];
    assert Rows([x, y]) == [a] + Rows([y]);
  }

  lemma {:induction false} KeyedFilter(t: Table, rows: seq<Member>, keep: Member -> bool)
    ensures KeyedMethods(t, Filter(rows, keep)) == Filter(KeyedMethods(t, rows), OnRow(keep))
  {
    if rows != [] {
      KeyedFilter(t, rows[1..], keep);
      assert KeyedMethods(t, rows)[1..] == KeyedMethods(t, rows[1..]);
      if keep(rows[0]) {
        assert Filter(rows, keep)[1..] == Filter(rows[1..], keep);
      } else {
        assert Filter(rows, keep) == Filter(rows[1..], keep);
      }
    }
  }

  /** Within one name, selecting commutes with ordering. */
  lemma OverloadsFilter(t: Table, rows: seq<Member>, keep: Member -> bool, id: nat)
    ensures Overloads(t, Filter(rows, keep), id) == Filter(Overloads(t, rows, id), keep)
  {
    var mine := Named(t, id);
    var group := Filter(rows, mine);
    FilterFilter(rows, keep, mine);
    FilterFilter(rows, mine, keep);
    FilterSame(rows, Both(keep, mine), Both(mine, keep));
    assert Filter(Filter(rows, keep), mine) == Filter(group, keep);
    KeyedFilter(t, group, keep);
    SortFilter(KeyedMethods(t, group), OnRow(keep));
    RowsFilter(Sort(KeyedMethods(t, group)), keep);
  }

  lemma NoOverloads(t: Table, rows: seq<Member>, id: nat)
    requires id !in Ids(t, rows)
    ensures Overloads(t, rows, id) == []
  {
    IdsAreUsed(t, rows);
    FilterNothing(rows, Named(t, id));
  }

  /** The rows that are shown, in their order: still name by name, names without any left out. */
  lemma OrderedFilter(t: Table, rows: seq<Member>, seen: Member -> bool)
    ensures var shown := Filter(rows, seen);
            Filter(Ordered(t, rows), seen) ==
            Flatten(SortIds(t, ShownIds(t, rows, shown)), OverloadsOf(t, shown))
  {
    var shown := Filter(rows, seen);
    var ids := SortedIds(t, rows);
    forall id | id in ids
      ensures OverloadsOf(t, shown)(id) == Filter(OverloadsOf(t, rows)(id), seen)
    {
      OverloadsFilter(t, rows, seen, id);
    }
    FlattenFilter(ids, OverloadsOf(t, rows), OverloadsOf(t, shown), seen);
    forall id | id in ids && !InIds(t, shown)(id)
      ensures OverloadsOf(t, shown)(id) == []
    {
      NoOverloads(t, shown, id);
    }
    FlattenNonEmpty(ids, OverloadsOf(t, shown), InIds(t, shown));
    SortIdsFilter(t, Ids(t, rows), InIds(t, shown));
  }

  // ---------------------------------------------------------------------------------------
  // Exactly when a selection changes an order
  // ---------------------------------------------------------------------------------------

  /** The name indices of two methods stand for one text, and which is used first among all rows
      is used last among the kept ones. */
  ghost predicate Swaps(t: Table, rows: seq<Member>, keep: Member -> bool, x: Member, y: Member) {
    var a, b := t.Id(x), t.Id(y);
    a != b && t.NameKey(a) == t.NameKey(b) && UsedBefore(t, rows, a, b) && UsedBefore(t, Filter(rows, keep), b, a)
  }

  /** That happens to two rows that are shown. */
  ghost predicate Reorders(t: Table, rows: seq<Member>, keep: Member -> bool, seen: Member -> bool) {
    exists x, y :: x in rows && y in rows && seen(x) && seen(y) && Swaps(t, rows, keep, x, y)
  }

  /** What is shown of the kept rows is what is shown of all rows. */
  lemma ShownIsKept(rows: seq<Member>, keep: Member -> bool, seen: Member -> bool)
    requires forall m :: m in rows && seen(m) ==> keep(m)
    ensures Filter(Filter(rows, keep), seen) == Filter(rows, seen)
  {
    FilterFilter(rows, keep, seen);
    FilterSame(rows, Both(keep, seen), seen);
  }

  /** Order the kept rows, or all of them, and look at some of the kept: the same rows in the
      same order, if and only if the selection reorders nothing that is shown. */
  lemma SeenAlike(t: Table, rows: seq<Member>, keep: Member -> bool, seen: Member -> bool)
    requires forall m :: m in rows && seen(m) ==> keep(m)
    ensures Filter(Ordered(t, Filter(rows, keep)), seen) == Filter(Ordered(t, rows), seen) <==>
            !Reorders(t, rows, keep, seen)
  {
    var kept, shown := Filter(rows, keep), Filter(rows, seen);
    ShownIsKept(rows, keep, seen);
    OrderedFilter(t, kept, seen);
    OrderedFilter(t, rows, seen);
    var few, all := SortIds(t, ShownIds(t, kept, shown)), SortIds(t, ShownIds(t, rows, shown));
    OverloadsApart(t, rows, shown);
    OverloadsApart(t, kept, shown);
    hide *;
    FlattenApart(few, all, OverloadsOf(t, shown));
    if Reorders(t, rows, keep, seen) {
      ReorderedIds(t, rows, keep, seen);
    } else {
      SteadyIds(t, rows, keep, seen);
    }
  }

  /** Each name listed has rows to show, all of that name. */
  lemma OverloadsApart(t: Table, rows: seq<Member>, shown: seq<Member>)
    ensures var ids := SortIds(t, ShownIds(t, rows, shown));
            forall id :: id in ids ==> OverloadsOf(t, shown)(id) != [] && t.Id(OverloadsOf(t, shown)(id)[0]) == id
  {
    var ids := ShownIds(t, rows, shown);
    forall id | id in SortIds(t, ids)
      ensures OverloadsOf(t, shown)(id) != [] && t.Id(OverloadsOf(t, shown)(id)[0]) == id
    {
      SortIdsMember(t, ids, id);
      FilterMember(Ids(t, rows), InIds(t, shown), id);
      SomeOverload(t, shown, id);
    }
  }

  lemma SortIdsMember(t: Table, ids: seq<nat>, id: nat)
    requires id in SortIds(t, ids)
    ensures id in ids
  {
    SortSorts(KeyedIds(t, ids));
    var x := RowOf(Sort(KeyedIds(t, ids)), id);
    assert x in multiset(Sort(KeyedIds(t, ids)));
    assert x in KeyedIds(t, ids);
  }

  lemma SomeOverload(t: Table, rows: seq<Member>, id: nat)
    requires id in Ids(t, rows)
    ensures Overloads(t, rows, id) != [] && t.Id(Overloads(t, rows, id)[0]) == id
  {
    IdsAreUsed(t, rows);
    var i :| 0 <= i < |rows| && t.Id(rows[i]) == id;
    assert rows[i] in rows;
    OverloadMember(t, rows, id, rows[i]);
    assert Overloads(t, rows, id)[0] in Overloads(t, rows, id);
    OverloadMember(t, rows, id, Overloads(t, rows, id)[0]);
  }

  lemma ShownIdsAreIds(t: Table, rows: seq<Member>, shown: seq<Member>)
    requires forall m :: m in shown ==> m in rows
    ensures AllDistinct(ShownIds(t, rows, shown))
    ensures forall id :: id in ShownIds(t, rows, shown) <==> id in Ids(t, shown)
  {
    var xs := ShownIds(t, rows, shown);
    IdsAreUsed(t, rows);
    IdsAreUsed(t, shown);
    forall i, j | 0 <= i < j < |xs|
      ensures xs[i] != xs[j]
    {
      var i', j' := FilterKeepsOrder(Ids(t, rows), InIds(t, shown), i, j);
    }
    forall id
      ensures id in xs <==> id in Ids(t, shown)
    {
      FilterMember(Ids(t, rows), InIds(t, shown), id);
      if id in Ids(t, shown) {
        var i :| 0 <= i < |shown| && t.Id(shown[i]) == id;
        assert shown[i] in rows;
      }
    }
  }

  lemma FilterWithin<T(!new)>(xs: seq<T>, keep: T -> bool)
    ensures forall x :: x in Filter(xs, keep) ==> x in xs && keep(x)
  {
    forall x | x in Filter(xs, keep)
      ensures x in xs && keep(x)
    {
      FilterMember(xs, keep, x);
    }
  }

  lemma ShownIdsInOrder(t: Table, rows: seq<Member>, shown: seq<Member>, u: nat, v: nat)
    requires u < v < |ShownIds(t, rows, shown)|
    ensures UsedBefore(t, rows, ShownIds(t, rows, shown)[u], ShownIds(t, rows, shown)[v])
  {
    var i, j := FilterKeepsOrder(Ids(t, rows), InIds(t, shown), u, v);
    IdsInOrderOfUse(t, rows, i, j);
  }

  lemma ShownId(t: Table, rows: seq<Member>, seen: Member -> bool, id: nat) returns (m: Member)
    requires id in Ids(t, Filter(rows, seen))
    ensures m in rows && seen(m) && t.Id(m) == id
  {
    var shown := Filter(rows, seen);
    IdsAreUsed(t, shown);
    var i :| 0 <= i < |shown| && t.Id(shown[i]) == id;
    m := shown[i];
    assert m in shown;
    FilterMember(rows, seen, m);
  }

  lemma SteadyIds(t: Table, rows: seq<Member>, keep: Member -> bool, seen: Member -> bool)
    requires forall m :: m in rows && seen(m) ==> keep(m)
    requires !Reorders(t, rows, keep, seen)
    ensures var shown := Filter(rows, seen);
            SortIds(t, ShownIds(t, Filter(rows, keep), shown)) == SortIds(t, ShownIds(t, rows, shown))
  {
    var kept, shown := Filter(rows, keep), Filter(rows, seen);
    var xs, ys := ShownIds(t, rows, shown), ShownIds(t, kept, shown);
    FilterWithin(rows, seen);
    ShownIsKept(rows, keep, seen);
    FilterWithin(kept, seen);
    ShownIdsAreIds(t, rows, shown);
    ShownIdsAreIds(t, kept, shown);
    hide *;
    forall i, j, k, l | 0 <= i < j < |xs| && 0 <= k < l < |ys| && xs[i] == ys[l] && xs[j] == ys[k]
      ensures t.NameKey(xs[i]) != t.NameKey(xs[j])
    {
      assert xs[i] in xs && xs[j] in xs;
      NoTie(t, rows, keep, seen, i, j, k, l);
    }
    SameKeyed(t, xs, ys);
    SortIgnoresOrder(KeyedIds(t, xs), KeyedIds(t, ys));
    SortIdsAlike(t, xs, ys);
  }

  lemma SortIdsAlike(t: Table, xs: seq<nat>, ys: seq<nat>)
    requires Sort(KeyedIds(t, xs)) == Sort(KeyedIds(t, ys))
    ensures SortIds(t, xs) == SortIds(t, ys)
  {
  }

  lemma NoTie(t: Table, rows: seq<Member>, keep: Member -> bool, seen: Member -> bool, i: nat, j: nat, k: nat, l: nat)
    requires !Reorders(t, rows, keep, seen)
    requires var shown := Filter(rows, seen);
             var xs, ys := ShownIds(t, rows, shown), ShownIds(t, Filter(rows, keep), shown);
             && i < j < |xs| && k < l < |ys| && xs[i] == ys[l] && xs[j] == ys[k]
             && AllDistinct(xs) && xs[i] in Ids(t, shown) && xs[j] in Ids(t, shown)
    ensures var xs := ShownIds(t, rows, Filter(rows, seen)); t.NameKey(xs[i]) != t.NameKey(xs[j])
  {
    var shown := Filter(rows, seen);
    var xs := ShownIds(t, rows, shown);
    ShownIdsInOrder(t, rows, shown, i, j);
    ShownIdsInOrder(t, Filter(rows, keep), shown, k, l);
    var x := ShownId(t, rows, seen, xs[i]);
    var y := ShownId(t, rows, seen, xs[j]);
    hide ShownIds;
    hide UsedBefore;
    hide Filter;
    hide Ids;
    assert !Swaps(t, rows, keep, x, y);
  }

  lemma ReorderedIds(t: Table, rows: seq<Member>, keep: Member -> bool, seen: Member -> bool)
    requires forall m :: m in rows && seen(m) ==> keep(m)
    requires Reorders(t, rows, keep, seen)
    ensures var shown := Filter(rows, seen);
            SortIds(t, ShownIds(t, Filter(rows, keep), shown)) != SortIds(t, ShownIds(t, rows, shown))
  {
    var kept, shown := Filter(rows, keep), Filter(rows, seen);
    var x, y :| x in rows && y in rows && seen(x) && seen(y) && Swaps(t, rows, keep, x, y);
    var a, b := t.Id(x), t.Id(y);
    ShownIsKept(rows, keep, seen);
    ShownPair(t, rows, shown, a, b, x, y, seen);
    FilterMember(rows, keep, x);
    FilterMember(rows, keep, y);
    ShownPair(t, kept, shown, b, a, y, x, seen);
    var all := SortIds(t, ShownIds(t, rows, shown));
    FilterSame(all, Either(a, b), Either(b, a));
    assert [a, b][0] == a && [b, a][0] == b;
  }

  /** Of the names shown, two tied ones are sorted in the order of their first use. */
  lemma ShownPair(t: Table, rows: seq<Member>, shown: seq<Member>, a: nat, b: nat, x: Member, y: Member,
                  seen: Member -> bool)
    requires shown == Filter(rows, seen) && x in rows && y in rows && seen(x) && seen(y) && t.Id(x) == a && t.Id(y) == b
    requires a != b && t.NameKey(a) == t.NameKey(b) && UsedBefore(t, rows, a, b)
    ensures Filter(SortIds(t, ShownIds(t, rows, shown)), Either(a, b)) == [a, b]
  {
    FilterMember(rows, seen, x);
    FilterMember(rows, seen, y);
    IdsAreUsed(t, shown);
    IdsAreUsed(t, rows);
    hide Ids;
    hide Filter;
    hide UsedBefore;
    assert a in Ids(t, shown) && b in Ids(t, shown) && b in Ids(t, rows);
    PairInOrderOfUse(t, rows, a, b);
    FilterFilter(Ids(t, rows), InIds(t, shown), Either(a, b));
    FilterSame(Ids(t, rows), Both(InIds(t, shown), Either(a, b)), Either(a, b));
    SortIdsFilter(t, ShownIds(t, rows, shown), Either(a, b));
    TiedPair(t, a, b);
  }

  // ---------------------------------------------------------------------------------------
  // Selections, and what they show
  // ---------------------------------------------------------------------------------------

  /** Ordering the selected methods of a class is selecting from the ordered methods, if and only
      if no two selected methods change places. */
  lemma SelectThenOrderFor(t: Table, rows: seq<Member>, keep: Member -> bool)
    ensures Ordered(t, Filter(rows, keep)) == Filter(Ordered(t, rows), keep) <==> !Reorders(t, rows, keep, keep)
  {
    var ordered := Ordered(t, Filter(rows, keep));
    forall m | m in ordered
      ensures keep(m)
    {
      OrderedMember(t, Filter(rows, keep), m);
      FilterMember(rows, keep, m);
    }
    FilterAll(ordered, keep);
    SeenAlike(t, rows, keep, keep);
  }

  function Shows<T, U>(show: T -> seq<U>): T -> bool {
    x => show(x) != []
  }

  /** What is shown tells from which row it comes. */
  ghost predicate Distinguishes<U>(rows: seq<Member>, show: Member -> seq<U>) {
    forall x, y :: x in rows && y in rows && show(x) != [] && show(y) != [] && show(x)[0] == show(y)[0] ==> x == y
  }

  /** What the ordered kept rows show is what all ordered rows show, if and only if no two rows
      that show anything change places. */
  lemma ShownAlike<U>(t: Table, rows: seq<Member>, keep: Member -> bool, show: Member -> seq<U>)
    requires forall m :: m in rows && show(m) != [] ==> keep(m)
    requires Distinguishes(rows, show)
    ensures Flatten(Ordered(t, Filter(rows, keep)), show) == Flatten(Ordered(t, rows), show) <==>
            !Reorders(t, rows, keep, Shows(show))
  {
    var kept := Filter(rows, keep);
    var few, all := Filter(Ordered(t, kept), Shows(show)), Filter(Ordered(t, rows), Shows(show));
    FlattenNonEmpty(Ordered(t, kept), show, Shows(show));
    FlattenNonEmpty(Ordered(t, rows), show, Shows(show));
    SeenAlike(t, rows, keep, Shows(show));
    forall x | x in few
      ensures x in rows && show(x) != []
    {
      FilterMember(Ordered(t, kept), Shows(show), x);
      OrderedMember(t, kept, x);
      FilterMember(rows, keep, x);
    }
    forall x | x in all
      ensures x in rows && show(x) != []
    {
      FilterMember(Ordered(t, rows), Shows(show), x);
      OrderedMember(t, rows, x);
    }
    hide *;
    FlattenShown(rows, few, all, show);
  }

  lemma FlattenShown<U>(rows: seq<Member>, few: seq<Member>, all: seq<Member>, show: Member -> seq<U>)
    requires Distinguishes(rows, show)
    requires forall x :: x in few || x in all ==> x in rows && show(x) != []
    ensures Flatten(few, show) == Flatten(all, show) <==> few == all
  {
    FlattenApart(few, all, show);
  }

  function LengthOf<U>(f: Member -> seq<U>): Member -> nat {
    (m: Member) => |f(m)|
  }

  lemma {:induction false} FlattenLength<U>(xs: seq<Member>, f: Member -> seq<U>)
    ensures |Flatten(xs, f)| == Weight(xs, LengthOf(f))
  {
    if xs != [] {
      FlattenLength(xs[1..], f);
    }
  }

  lemma {:induction false} FilterLength<U>(xs: seq<Member>, keep: Member -> bool, f: Member -> seq<U>)
    requires forall m :: m in xs && !keep(m) ==> f(m) == []
    ensures Weight(Filter(xs, keep), LengthOf(f)) == Weight(xs, LengthOf(f))
  {
    if xs != [] {
      assert xs[0] in xs;
      FilterLength(xs[1..], keep, f);
      if keep(xs[0]) {
        assert Filter(xs, keep)[1..] == Filter(xs[1..], keep);
      } else {
        assert Filter(xs, keep) == Filter(xs[1..], keep);
      }
    }
  }

  /** Selecting changes how much the methods of a class show only by what it drops. */
  lemma SelectedLength<U>(t: Table, rows: seq<Member>, keep: Member -> bool, show: Member -> seq<U>)
    requires forall m :: m in rows && !keep(m) ==> show(m) == []
    ensures |Flatten(Ordered(t, Filter(rows, keep)), show)| == |Flatten(Ordered(t, rows), show)|
  {
    FlattenLength(Ordered(t, Filter(rows, keep)), show);
    FlattenLength(Ordered(t, rows), show);
    OrderedWeighs(t, Filter(rows, keep), LengthOf(show));
    OrderedWeighs(t, rows, LengthOf(show));
    FilterLength(rows, keep, show);
  }

  /** Classes reduced to what is selected of them, those left empty dropped, then sorted: what they
      show is what all sorted classes show of the selected. */
  lemma SortedSelection<T, U(!new), V>(classes: seq<Keyed<T>>, select: T -> U, keep: U -> bool, show: U -> seq<V>)
    requires forall row: U :: !keep(row) ==> show(row) == []
    ensures Flatten(Rows(Sort(Filter(MapRows(classes, select), OnRow(keep)))), show) ==
            Flatten(Rows(Sort(classes)), Then(select, show))
  {
    hide Sort;
    hide MapRows;
    hide Filter;
    hide Rows;
    hide Flatten;
    var mapped := MapRows(classes, select);
    SortFilter(mapped, OnRow(keep));
    SortMap(classes, select);
    RowsFilter(Sort(mapped), keep);
    forall row | row in Rows(Sort(mapped)) && !keep(row) ensures show(row) == [] {
    }
    FlattenNonEmpty(Rows(Sort(mapped)), show, keep);
    FlattenMapped(Sort(classes), select, show);
  }

  // ---------------------------------------------------------------------------------------
  // All selections
  // ---------------------------------------------------------------------------------------

  /** Two name indices that stand for the same text never alternate: the first is not used
      again after the second. */
  ghost predicate TiesDoNotAlternate(t: Table, rows: seq<Member>) {
    forall i, j, k :: 0 <= i < j < k < |rows| && t.Id(rows[i]) == t.Id(rows[k]) != t.Id(rows[j]) ==>
      t.NameKey(t.Id(rows[i])) != t.NameKey(t.Id(rows[j]))
  }

  lemma {:induction false} SelectedBefore(t: Table, rows: seq<Member>, keep: Member -> bool, b: nat, a: nat)
    returns (j: nat)
    requires a != b && UsedBefore(t, Filter(rows, keep), b, a)
    ensures j < |rows| && t.Id(rows[j]) == b
    ensures forall k :: 0 <= k <= j && t.Id(rows[k]) == a ==> !keep(rows[k])
  {
    if keep(rows[0]) && t.Id(rows[0]) == b {
      j := 0;
    } else {
      UsedBeforeRest(t, rows, keep, b, a);
      var j' := SelectedBefore(t, rows[1..], keep, b, a);
      j := j' + 1;
      forall k | 0 <= k <= j && t.Id(rows[k]) == a
        ensures !keep(rows[k])
      {
        if k > 0 {
          assert rows[1..][k - 1] == rows[k];
        }
      }
    }
  }

  lemma UsedBeforeRest(t: Table, rows: seq<Member>, keep: Member -> bool, b: nat, a: nat)
    requires rows != [] && a != b && UsedBefore(t, Filter(rows, keep), b, a)
    requires !(keep(rows[0]) && t.Id(rows[0]) == b)
    ensures UsedBefore(t, Filter(rows[1..], keep), b, a)
    ensures keep(rows[0]) ==> t.Id(rows[0]) != a
  {
    var all, rest := Filter(rows, keep), Filter(rows[1..], keep);
    var i :| 0 <= i < |all| && t.Id(all[i]) == b && Unused(t, all, a, i);
    if keep(rows[0]) {
      assert all[0] == rows[0] && all[1..] == rest;
      hide Filter;
      assert rest[i - 1] == all[i];
      forall j | 0 <= j <= i - 1
        ensures t.Id(rest[j]) != a
      {
        assert rest[j] == all[j + 1];
      }
      assert Unused(t, rest, a, i - 1);
    } else {
      assert all == rest;
    }
  }

  /** A selection that reverses two first uses comes from alternation. */
  lemma ReversalAlternates(t: Table, rows: seq<Member>, keep: Member -> bool, a: nat, b: nat, x: Member)
    requires TiesDoNotAlternate(t, rows) && x in rows && keep(x) && t.Id(x) == a && a != b
    requires UsedBefore(t, rows, a, b) && UsedBefore(t, Filter(rows, keep), b, a)
    ensures t.NameKey(a) != t.NameKey(b)
  {
    var i :| 0 <= i < |rows| && t.Id(rows[i]) == a && Unused(t, rows, b, i);
    var j := SelectedBefore(t, rows, keep, b, a);
    var k :| 0 <= k < |rows| && rows[k] == x;
    assert i < j < k;
  }

  /** Without alternation no selection changes an order. */
  lemma NeverReorders(t: Table, rows: seq<Member>, keep: Member -> bool, seen: Member -> bool)
    requires TiesDoNotAlternate(t, rows) && forall m :: m in rows && seen(m) ==> keep(m)
    ensures !Reorders(t, rows, keep, seen)
  {
    hide TiesDoNotAlternate;
    hide UsedBefore;
    hide Filter;
    forall x, y | x in rows && seen(x) && y in rows && seen(y)
      ensures !Swaps(t, rows, keep, x, y)
    {
      var a, b := t.Id(x), t.Id(y);
      if a != b && UsedBefore(t, rows, a, b) && UsedBefore(t, Filter(rows, keep), b, a) {
        ReversalAlternates(t, rows, keep, a, b, x);
      }
    }
  }

  function Pair(a: Member, b: Member): Member -> bool {
    (m: Member) => m == a || m == b
  }

  /** A selection of two rows, in the order of the list. */
  lemma {:induction false} FilterPair(rows: seq<Member>, j: nat, k: nat)
    requires AllDistinct(rows) && j < k < |rows|
    ensures Filter(rows, Pair(rows[j], rows[k])) == [rows[j], rows[k]]
  {
    var keep := Pair(rows[j], rows[k]);
    assert rows == rows[..j] + [rows[j]] + rows[j + 1..k] + [rows[k]] + rows[k + 1..];
    FilterNothing(rows[..j], keep);
    FilterNothing(rows[j + 1..k], keep);
    FilterNothing(rows[k + 1..], keep);
    FilterAppend(rows[..j] + [rows[j]] + rows[j + 1..k] + [rows[k]], rows[k + 1..], keep);
    FilterAppend(rows[..j] + [rows[j]] + rows[j + 1..k], [rows[k]], keep);
    FilterAppend(rows[..j] + [rows[j]], rows[j + 1..k], keep);
    FilterAppend(rows[..j], [rows[j]], keep);
  }

  /** The first row that uses one of two indices; it comes before every use of the other. */
  lemma {:induction false} FirstOfTwo(t: Table, rows: seq<Member>, a: nat, b: nat, i: nat) returns (p: nat)
    requires i < |rows| && a != b && t.Id(rows[i]) in {a, b}
    ensures p <= i && t.Id(rows[p]) in {a, b}
    ensures if t.Id(rows[p]) == a then UsedBefore(t, rows, a, b) else UsedBefore(t, rows, b, a)
  {
    p := 0;
    while t.Id(rows[p]) !in {a, b}
      invariant p <= i && forall q :: 0 <= q < p ==> t.Id(rows[q]) !in {a, b}
      decreases i - p
    {
      p := p + 1;
    }
    assert Unused(t, rows, if t.Id(rows[p]) == a then b else a, p);
  }

  /** With `a` in use before `b`, a selection of a row of `b` and a later row of `a` changes
      their order. */
  lemma LaterPairSwaps(t: Table, rows: seq<Member>, j: nat, k: nat)
    requires AllDistinct(rows) && j < k < |rows| && t.Id(rows[j]) != t.Id(rows[k])
    requires t.NameKey(t.Id(rows[j])) == t.NameKey(t.Id(rows[k]))
    requires UsedBefore(t, rows, t.Id(rows[k]), t.Id(rows[j]))
    ensures Reorders(t, rows, Pair(rows[j], rows[k]), Pair(rows[j], rows[k]))
  {
    var keep := Pair(rows[j], rows[k]);
    var kept := Filter(rows, keep);
    FilterPair(rows, j, k);
    assert t.Id(kept[0]) == t.Id(rows[j]) && Unused(t, kept, t.Id(rows[k]), 0);
    assert Swaps(t, rows, keep, rows[k], rows[j]);
  }

  lemma AlternationReorders(t: Table, rows: seq<Member>) returns (keep: Member -> bool)
    requires AllDistinct(rows) && !TiesDoNotAlternate(t, rows)
    ensures Reorders(t, rows, keep, keep)
  {
    hide UsedBefore;
    var i, j, k :| 0 <= i < j < k < |rows| && t.Id(rows[i]) == t.Id(rows[k]) != t.Id(rows[j])
                   && t.NameKey(t.Id(rows[i])) == t.NameKey(t.Id(rows[j]));
    var p := FirstOfTwo(t, rows, t.Id(rows[i]), t.Id(rows[j]), i);
    if t.Id(rows[p]) == t.Id(rows[i]) {
      keep := Pair(rows[j], rows[k]);
      LaterPairSwaps(t, rows, j, k);
    } else {
      keep := Pair(rows[i], rows[j]);
      LaterPairSwaps(t, rows, i, j);
    }
  }

  /** Every selection commutes with ordering, if and only if no two name indices of one text
      alternate. */
  lemma SelectThenOrderExactly(t: Table, rows: seq<Member>)
    requires AllDistinct(rows)
    ensures TiesDoNotAlternate(t, rows) <==>
            forall keep: Member -> bool :: Ordered(t, Filter(rows, keep)) == Filter(Ordered(t, rows), keep)
  {
    hide *;
    if TiesDoNotAlternate(t, rows) {
      forall keep: Member -> bool
        ensures Ordered(t, Filter(rows, keep)) == Filter(Ordered(t, rows), keep)
      {
        SelectThenOrderFor(t, rows, keep);
        NeverReorders(t, rows, keep, keep);
      }
    } else {
      var keep := AlternationReorders(t, rows);
      SelectThenOrderFor(t, rows, keep);
    }
  }
}
